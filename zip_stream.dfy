/**
 * `ZipFiles`, the reader that streams a zip archive of several entries: each call of
 * `poll_read` first hands out what the zip writer already produced, and otherwise
 * drives the writer one state further, through Archive, OpeningEntry, CopyEntry,
 * ClosingEntry, back to Archive for the next entry, and at the end ClosingArchive
 * and Flushing.
 *
 * The writer's output is described by the items it is given (`Item`): an entry's
 * local header, its bytes one by one, its trailer, and the central directory.
 * Everything the environment decides (whether the internal buffer has bytes, and
 * whether each inner future or reader is ready, failed, or how much it moved) is
 * an `Answer` given to each activation of `poll_read`.
 */
module ZipStream {
  import opened Wrappers
  import opened Errors
  import opened BlobStore

  /** An entry of the archive: its file name and the bytes its reader yields. */
  datatype Entry = Entry(name: string, data: seq<Byte>)

  /** What the zip writer is given, in order. */
  datatype Item = Header(name: string) | DataByte(b: Byte) | EntryEnd(name: string) | Directory

  /** The writer states; `rest` is what the entry's reader has not yet handed over. */
  datatype ZipState =
    | Archive
    | OpeningEntry(entry: Entry)
    | CopyEntry(entry: Entry, rest: seq<Byte>)
    | ClosingEntry(entry: Entry)
    | ClosingArchive
    | Flushing
    | Dummy

  /** The reader's fields: the writer state, the queue of entries not yet started, and the writer's output so far. */
  datatype ZipView = ZipView(state: ZipState, entries: seq<Entry>, written: seq<Item>)

  /** How the internal read buffer answers: not ready, some bytes (0 is end of stream), or an error. */
  datatype BufPoll = BufPending | BufBytes(n: nat) | BufFailed(err: IoError)

  /** How an inner future, reader or writer answers when polled; the number is what it moved, where that matters. */
  datatype InnerPoll = InnerPending | InnerReady(n: nat) | InnerFailed(err: IoError)

  /** The environment's answers to one activation of `poll_read`: the buffer, then up to two inner polls. */
  datatype Answer = Answer(buffer: BufPoll, first: InnerPoll, second: InnerPoll)

  /** What an activation ends with: a result for the caller, a recursive call, or the `unreachable!` panic. */
  datatype StepOut = Return(poll: Poll<Result<nat, IoError>>) | Again | Panicked

  /** `ZipError::into_io_error`: the writer's error wrapped as an io error of kind Other. */
  function ZipIoError(err: IoError): (e: IoError)
    ensures e.kind == Other && e.message == err.message
  {
    IoError(Other, err.message)
  }

  /** The error `poll_read` reports when the writer accepts no bytes. */
  const WriteZeroError: IoError := IoError(WriteZero, "write zero")

  function Bytes(data: seq<Byte>): (items: seq<Item>)
    ensures |items| == |data|
    ensures forall k :: 0 <= k < |data| ==> items[k] == DataByte(data[k])
  {
    seq(|data|, k requires 0 <= k < |data| => DataByte(data[k]))
  }

  /** The items of one complete entry. */
  function EntryItems(e: Entry): seq<Item>
  {
    [Header(e.name)] + Bytes(e.data) + [EntryEnd(e.name)]
  }

  /** The items of the first `t` entries of `es`, complete and in order. */
  function Done(es: seq<Entry>, t: nat): seq<Item>
    requires t <= |es|
  {
    if t == 0 then [] else Done(es, t - 1) + EntryItems(es[t - 1])
  }

  /** The reader's buffer on `rest` when asked for `k` bytes: at least one byte unless nothing is left. */
  function Window(rest: seq<Byte>, k: nat): (w: seq<Byte>)
    ensures w <= rest
    ensures w == [] <==> rest == []
  {
    if rest == [] then [] else if k == 0 then rest[..1] else if k <= |rest| then rest[..k] else rest
  }

  /** `ZipFiles::new`: an open archive with every entry queued, in the given order. */
  function NewZip(entries: seq<Entry>): ZipView
  {
    ZipView(Archive, entries, [])
  }

  /**
   * One activation of `poll_read` (up to its recursive call): first the internal
   * buffer; at its end of stream, a Flushing reader is done; otherwise the state
   * machine moves on.
   */
  function Next(z: ZipView, a: Answer): (ZipView, StepOut)
  {
    match a.buffer
    case BufFailed(err) => (z, Return(Ready(Err(err))))
    case BufBytes(n) =>
      if n > 0 then (z, Return(Ready(Ok(n))))
      else if z.state == Flushing then (z, Return(Ready(Ok(0))))
      else Advance(z, a)
    case BufPending => Advance(z, a)
  }

  /** The state machine part of `poll_read`: the state is taken out, and put back unless an error returns early. */
  function Advance(z: ZipView, a: Answer): (ZipView, StepOut)
  {
    match z.state
    case Archive =>
      if z.entries != [] then (z.(state := OpeningEntry(z.entries[0]), entries := z.entries[1..]), Again)
      else (z.(state := ClosingArchive), Again)
    case OpeningEntry(e) =>
      (match a.first
       case InnerPending => (z, Return(Pending))
       case InnerFailed(err) => (z.(state := Dummy), Return(Ready(Err(ZipIoError(err)))))
       case InnerReady(_) => (z.(state := CopyEntry(e, e.data), written := z.written + [Header(e.name)]), Again))
    case CopyEntry(e, rest) => Copy(z, e, rest, a)
    case ClosingEntry(e) =>
      (match a.first
       case InnerPending => (z, Return(Pending))
       case InnerFailed(err) => (z.(state := Dummy), Return(Ready(Err(ZipIoError(err)))))
       case InnerReady(_) => (z.(state := Archive, written := z.written + [EntryEnd(e.name)]), Again))
    case ClosingArchive =>
      (match a.first
       case InnerPending => (z, Return(Pending))
       case InnerFailed(err) => (z, Return(Ready(Err(ZipIoError(err)))))
       case InnerReady(_) => (z.(state := Flushing, written := z.written + [Directory]), Again))
    case Flushing => (z, Again)
    case Dummy => (z, Panicked)
  }

  /**
   * CopyEntry: fill the reader's buffer; an empty buffer flushes the entry writer and
   * closes the entry; otherwise write the buffer and consume what was written, where
   * a write of nothing is a WriteZero error.
   */
  function Copy(z: ZipView, e: Entry, rest: seq<Byte>, a: Answer): (ZipView, StepOut)
  {
    match a.first
    case InnerPending => (z, Return(Pending))
    case InnerFailed(err) => (z.(state := Dummy), Return(Ready(Err(err))))
    case InnerReady(k) =>
      var buffer := Window(rest, k);
      if buffer == [] then
        (match a.second
         case InnerPending => (z, Return(Pending))
         case InnerFailed(err) => (z.(state := Dummy), Return(Ready(Err(err))))
         case InnerReady(_) => (z.(state := ClosingEntry(e)), Again))
      else
        match a.second
        case InnerPending => (z, Return(Pending))
        case InnerFailed(err) => (z.(state := Dummy), Return(Ready(Err(err))))
        case InnerReady(i) =>
          if i == 0 then (z.(state := Dummy), Return(Ready(Err(WriteZeroError))))
          else
            var c := if i <= |buffer| then i else |buffer|;
            (z.(state := CopyEntry(e, rest[c..]), written := z.written + Bytes(buffer[..c])), Again)
  }

  /** The activations of one `poll_read` call: run until one returns or panics; `Again` if the answers run out first. */
  function Drive(z: ZipView, answers: seq<Answer>): (ZipView, StepOut)
    decreases |answers|
  {
    if answers == [] then (z, Again)
    else
      var (z1, out) := Next(z, answers[0]);
      if out.Again? then Drive(z1, answers[1..]) else (z1, out)
  }

  // ---------------------------------------------------------------------------
  // The invariant: what the writer has been given matches the entries taken so far

  /**
   * With `all` the entries the reader was created with: the queue is what is left of
   * them, and the writer has been given every taken entry in full, in order, except
   * the current one, which is as far along as its state says.
   */
  ghost predicate Consistent(all: seq<Entry>, z: ZipView)
  {
    |z.entries| <= |all| && z.entries == all[|all| - |z.entries|..] &&
    var t := |all| - |z.entries|;
    match z.state
    case Archive => z.written == Done(all, t)
    case OpeningEntry(e) => t >= 1 && e == all[t - 1] && z.written == Done(all, t - 1)
    case CopyEntry(e, rest) =>
      t >= 1 && e == all[t - 1] && |rest| <= |e.data| && rest == e.data[|e.data| - |rest|..] &&
      z.written == Done(all, t - 1) + [Header(e.name)] + Bytes(e.data[..|e.data| - |rest|])
    case ClosingEntry(e) => t >= 1 && e == all[t - 1] && z.written == Done(all, t - 1) + [Header(e.name)] + Bytes(e.data)
    case ClosingArchive => t == |all| && z.written == Done(all, |all|)
    case Flushing => t == |all| && z.written == Done(all, |all|) + [Directory]
    case Dummy => true
  }

  /** The bytes of two consecutive pieces are the items of the joined piece. */
  lemma BytesAppend(a: seq<Byte>, b: seq<Byte>)
    ensures Bytes(a) + Bytes(b) == Bytes(a + b)
  {
    assert forall k :: 0 <= k < |a + b| ==> (Bytes(a) + Bytes(b))[k] == DataByte((a + b)[k]);
  }

  /** A new reader is consistent with its entries. */
  lemma NewConsistent(entries: seq<Entry>)
    ensures Consistent(entries, NewZip(entries))
  {
    assert entries[0..] == entries;
  }

  /**
   * The moves of the automaton: each entry goes OpeningEntry, CopyEntry (taking some
   * of its bytes each time), ClosingEntry, back to Archive; an empty queue closes the
   * archive, which then flushes. Besides these, a state can stay or fail to Dummy.
   */
  predicate Moves(z: ZipView, z1: ZipView)
  {
    match z.state
    case Archive =>
      if z.entries != [] then z1 == z.(state := OpeningEntry(z.entries[0]), entries := z.entries[1..])
      else z1 == z.(state := ClosingArchive)
    case OpeningEntry(e) => z1 == z.(state := CopyEntry(e, e.data), written := z.written + [Header(e.name)])
    case CopyEntry(e, rest) =>
      (rest == [] && z1 == z.(state := ClosingEntry(e))) ||
      (z1.state.CopyEntry? && |z1.state.rest| < |rest| &&
       z1 == z.(state := CopyEntry(e, rest[|rest| - |z1.state.rest|..]), written := z.written + Bytes(rest[..|rest| - |z1.state.rest|])))
    case ClosingEntry(e) => z1 == z.(state := Archive, written := z.written + [EntryEnd(e.name)])
    case ClosingArchive => z1 == z.(state := Flushing, written := z.written + [Directory])
    case Flushing => false
    case Dummy => false
  }

  /** Every activation stays, fails to Dummy, or makes one of the moves. */
  lemma Transitions(z: ZipView, a: Answer)
    ensures var z1 := Next(z, a).0;
            z1 == z || z1 == z.(state := Dummy) || Moves(z, z1)
  {
    if z.state.CopyEntry? && a.first.InnerReady? && a.second.InnerReady? && a.second.n > 0 {
      var rest := z.state.rest;
      var buffer := Window(rest, a.first.n);
      var c := if a.second.n <= |buffer| then a.second.n else |buffer|;
      assert buffer[..c] == rest[..c];
    }
  }

  /** Every move keeps the reader consistent. */
  lemma MovesConsistent(all: seq<Entry>, z: ZipView, z1: ZipView)
    requires Consistent(all, z) && Moves(z, z1)
    ensures Consistent(all, z1)
  {
    if z.state == Archive {
      ArchiveConsistent(all, z);
    } else if z.state.OpeningEntry? {
      OpenEntryConsistent(all, z);
    } else if z.state.CopyEntry? {
      CopyMovesConsistent(all, z, z1);
    } else if z.state.ClosingEntry? {
      EndEntryConsistent(all, z);
    } else {
      DirectoryConsistent(all, z);
    }
  }

  /** Both moves out of CopyEntry, closing the exhausted entry or copying more of it, keep the reader consistent. */
  lemma CopyMovesConsistent(all: seq<Entry>, z: ZipView, z1: ZipView)
    requires Consistent(all, z) && Moves(z, z1) && z.state.CopyEntry?
    ensures Consistent(all, z1)
  {
    var e := z.state.entry;
    var rest := z.state.rest;
    if z1.state.ClosingEntry? {
      assert rest == [] && z1 == z.(state := ClosingEntry(e));
      CloseEntryConsistent(all, z);
    } else {
      var c := |rest| - |z1.state.rest|;
      assert z1 == z.(state := CopyEntry(e, rest[c..]), written := z.written + Bytes(rest[..c]));
      CopyMoreConsistent(all, z, c);
    }
  }

  /** Every activation keeps the reader consistent. */
  lemma NextConsistent(all: seq<Entry>, z: ZipView, a: Answer)
    requires Consistent(all, z)
    ensures Consistent(all, Next(z, a).0)
  {
    Transitions(z, a);
    var z1 := Next(z, a).0;
    if z1 != z && z1 != z.(state := Dummy) {
      MovesConsistent(all, z, z1);
    }
  }

  /** Taking the next entry from the queue, or closing the archive when it is empty, keeps the reader consistent. */
  lemma ArchiveConsistent(all: seq<Entry>, z: ZipView)
    requires Consistent(all, z) && z.state == Archive
    ensures z.entries != [] ==> Consistent(all, z.(state := OpeningEntry(z.entries[0]), entries := z.entries[1..]))
    ensures z.entries == [] ==> Consistent(all, z.(state := ClosingArchive))
  {
    var t := |all| - |z.entries|;
    if z.entries != [] {
      assert z.entries[1..] == all[t + 1..];
    }
  }

  /** Opening the current entry gives the writer its header and none of its bytes yet. */
  lemma OpenEntryConsistent(all: seq<Entry>, z: ZipView)
    requires Consistent(all, z) && z.state.OpeningEntry?
    ensures Consistent(all, z.(state := CopyEntry(z.state.entry, z.state.entry.data), written := z.written + [Header(z.state.entry.name)]))
  {
    var e := z.state.entry;
    assert e.data[..0] == [];
    assert e.data[|e.data| - |e.data|..] == e.data;
  }

  /** Ending the current entry completes it, and the archive can take the next one. */
  lemma EndEntryConsistent(all: seq<Entry>, z: ZipView)
    requires Consistent(all, z) && z.state.ClosingEntry?
    ensures Consistent(all, z.(state := Archive, written := z.written + [EntryEnd(z.state.entry.name)]))
  {
    var t := |all| - |z.entries|;
    var e := z.state.entry;
    assert Done(all, t) == Done(all, t - 1) + ([Header(e.name)] + Bytes(e.data) + [EntryEnd(e.name)]);
  }

  /** Closing the archive gives the writer the directory after every entry. */
  lemma DirectoryConsistent(all: seq<Entry>, z: ZipView)
    requires Consistent(all, z) && z.state == ClosingArchive
    ensures Consistent(all, z.(state := Flushing, written := z.written + [Directory]))
  {
  }

  /** Handing the writer the next `c` bytes of the current entry keeps the reader consistent. */
  lemma CopyMoreConsistent(all: seq<Entry>, z: ZipView, c: nat)
    requires Consistent(all, z) && z.state.CopyEntry? && c <= |z.state.rest|
    ensures Consistent(all, z.(state := CopyEntry(z.state.entry, z.state.rest[c..]), written := z.written + Bytes(z.state.rest[..c])))
  {
    var e := z.state.entry;
    var rest := z.state.rest;
    var done := |e.data| - |rest|;
    var t := |all| - |z.entries|;
    assert rest[..c] == e.data[done..done + c];
    BytesGrow(Done(all, t - 1) + [Header(e.name)], e.data, done, c);
    assert rest[c..] == e.data[done + c..];
  }

  /** Closing the current entry once its bytes are exhausted keeps the reader consistent. */
  lemma CloseEntryConsistent(all: seq<Entry>, z: ZipView)
    requires Consistent(all, z) && z.state.CopyEntry? && z.state.rest == []
    ensures Consistent(all, z.(state := ClosingEntry(z.state.entry)))
  {
    var e := z.state.entry;
    assert e.data[..|e.data|] == e.data;
  }

  /** Giving the writer the next `c` bytes of `data` extends the bytes it has by those. */
  lemma BytesGrow(prefix: seq<Item>, data: seq<Byte>, done: nat, c: nat)
    requires done + c <= |data|
    ensures prefix + Bytes(data[..done]) + Bytes(data[done..done + c]) == prefix + Bytes(data[..done + c])
  {
    BytesAppend(data[..done], data[done..done + c]);
    assert data[..done] + data[done..done + c] == data[..done + c];
  }

  /** `Drive` keeps the reader consistent. */
  lemma {:induction false} DriveConsistent(all: seq<Entry>, z: ZipView, answers: seq<Answer>)
    requires Consistent(all, z)
    ensures Consistent(all, Drive(z, answers).0)
    decreases |answers|
  {
    if answers != [] {
      NextConsistent(all, z, answers[0]);
      var (z1, out) := Next(z, answers[0]);
      if out.Again? {
        DriveConsistent(all, z1, answers[1..]);
      }
    }
  }

  // ---------------------------------------------------------------------------
  // Properties of the automaton

  /** An activation ends the stream (reads 0 bytes) exactly when the buffer is at its end and the reader is Flushing. */
  lemma EofOnlyWhenFlushing(z: ZipView, a: Answer)
    ensures Next(z, a).1 == Return(Ready(Ok(0))) <==> a.buffer == BufBytes(0) && z.state == Flushing
    ensures Next(z, a).1 == Return(Ready(Ok(0))) ==> Next(z, a).0 == z
  {
  }

  /** A result other than an error, or a recursive call, never leaves the Dummy state behind. */
  lemma NoDummyUnlessError(z: ZipView, a: Answer)
    requires z.state != Dummy
    requires !(Next(z, a).1.Return? && Next(z, a).1.poll.Ready? && Next(z, a).1.poll.value.Err?)
    ensures Next(z, a).0.state != Dummy
    ensures Next(z, a).1 != Panicked
  {
  }

  /** The archive is closed only once the queue is empty; entries leave the queue from the front, one at a time. */
  lemma QueueOrder(z: ZipView, a: Answer)
    ensures var z1 := Next(z, a).0;
            (z1.state == ClosingArchive && z.state != ClosingArchive ==> z.entries == [] && z.state == Archive) &&
            (z1.entries != z.entries ==>
               z.entries != [] && z1.entries == z.entries[1..] && z1.state == OpeningEntry(z.entries[0]))
  {
  }

  /**
   * In CopyEntry, with the reader's buffer filled: an empty buffer happens only when the
   * entry's bytes are exhausted and, once flushed, closes the entry; a write of nothing
   * is a WriteZero error; otherwise exactly the written count is consumed and given to
   * the writer.
   */
  lemma CopyEntryStep(z: ZipView, a: Answer, k: nat)
    requires z.state.CopyEntry? && a.buffer.BufPending? && a.first == InnerReady(k)
    ensures var rest := z.state.rest;
            var buffer := Window(rest, k);
            var (z1, out) := Next(z, a);
            (buffer == [] <==> rest == []) &&
            (buffer == [] && a.second.InnerReady? ==> z1.state == ClosingEntry(z.state.entry) && z1.written == z.written) &&
            (buffer != [] && a.second == InnerReady(0) ==> out == Return(Ready(Err(WriteZeroError)))) &&
            (buffer != [] && a.second.InnerReady? && 0 < a.second.n <= |buffer| ==>
               z1.state == CopyEntry(z.state.entry, rest[a.second.n..]) &&
               z1.written == z.written + Bytes(rest[..a.second.n]))
  {
  }

  /** Once Flushing, the writer has been given every entry, whole and in order, and then the directory. */
  lemma FlushingIsComplete(all: seq<Entry>, z: ZipView)
    requires Consistent(all, z)
    requires z.state == Flushing
    ensures z.entries == [] && z.written == Done(all, |all|) + [Directory]
  {
    assert all[|all|..] == [];
  }

  /** The names of the headers in `items`, in order. */
  function Headers(items: seq<Item>): seq<string>
  {
    if items == [] then [] else (if items[0].Header? then [items[0].name] else []) + Headers(items[1..])
  }

  lemma {:induction false} HeadersAppend(a: seq<Item>, b: seq<Item>)
    ensures Headers(a + b) == Headers(a) + Headers(b)
  {
    if a == [] {
      assert a + b == b;
    } else {
      assert (a + b)[1..] == a[1..] + b;
      HeadersAppend(a[1..], b);
    }
  }

  lemma {:induction false} NoHeadersInBytes(data: seq<Byte>)
    ensures Headers(Bytes(data)) == []
  {
    if data != [] {
      assert Bytes(data)[1..] == Bytes(data[1..]);
      NoHeadersInBytes(data[1..]);
    }
  }

  function Names(es: seq<Entry>): (r: seq<string>)
    ensures |r| == |es| && forall k :: 0 <= k < |es| ==> r[k] == es[k].name
  {
    seq(|es|, k requires 0 <= k < |es| => es[k].name)
  }

  /** The complete entries' headers name each entry once, in the given order. */
  lemma {:induction false} DoneHeaders(es: seq<Entry>, t: nat)
    requires t <= |es|
    ensures Headers(Done(es, t)) == Names(es[..t])
  {
    if t > 0 {
      var last := es[t - 1];
      DoneHeaders(es, t - 1);
      HeadersAppend(Done(es, t - 1), EntryItems(last));
      HeadersAppend([Header(last.name)] + Bytes(last.data), [EntryEnd(last.name)]);
      HeadersAppend([Header(last.name)], Bytes(last.data));
      NoHeadersInBytes(last.data);
      assert Headers([EntryEnd(last.name)]) == [];
      assert Names(es[..t]) == Names(es[..t - 1]) + [last.name];
    }
  }

  // ---------------------------------------------------------------------------
  // The reader object

  class ZipFiles {
    var state: ZipState
    var entries: seq<Entry>
    var written: seq<Item>
    /** The entries the reader was created with. */
    ghost const all: seq<Entry>

    function View(): ZipView
      reads this
    {
      ZipView(state, entries, written)
    }

    ghost predicate Valid()
      reads this
    {
      Consistent(all, View())
    }

    /** `ZipFiles::new`. */
    constructor(es: seq<Entry>)
      ensures Valid() && View() == NewZip(es) && all == es
    {
      state := Archive;
      entries := es;
      written := [];
      all := es;
      NewConsistent(es);
    }

    /** One activation of `poll_read`, up to its recursive call. */
    method Step(a: Answer) returns (out: StepOut)
      modifies this
      ensures (View(), out) == Next(old(View()), a)
    {
      if a.buffer.BufFailed? {
        return Return(Ready(Err(a.buffer.err)));
      }
      if a.buffer.BufBytes? && a.buffer.n > 0 {
        return Return(Ready(Ok(a.buffer.n)));
      }
      if a.buffer.BufBytes? && state == Flushing {
        return Return(Ready(Ok(0)));
      }
      var current := state;
      state := Dummy;
      match current {
        case Archive =>
          if entries != [] {
            state := OpeningEntry(entries[0]);
            entries := entries[1..];
          } else {
            state := ClosingArchive;
          }
          out := Again;
        case OpeningEntry(e) =>
          match a.first {
            case InnerPending =>
              state := current;
              out := Return(Pending);
            case InnerFailed(err) =>
              out := Return(Ready(Err(ZipIoError(err))));
            case InnerReady(_) =>
              written := written + [Header(e.name)];
              state := CopyEntry(e, e.data);
              out := Again;
          }
        case CopyEntry(e, rest) =>
          out := CopyStep(e, rest, a);
        case ClosingEntry(e) =>
          match a.first {
            case InnerPending =>
              state := current;
              out := Return(Pending);
            case InnerFailed(err) =>
              out := Return(Ready(Err(ZipIoError(err))));
            case InnerReady(_) =>
              written := written + [EntryEnd(e.name)];
              state := Archive;
              out := Again;
          }
        case ClosingArchive =>
          state := current;
          match a.first {
            case InnerPending =>
              out := Return(Pending);
            case InnerFailed(err) =>
              out := Return(Ready(Err(ZipIoError(err))));
            case InnerReady(_) =>
              written := written + [Directory];
              state := Flushing;
              out := Again;
          }
        case Flushing =>
          state := Flushing;
          out := Again;
        case Dummy =>
          out := Panicked;
      }
    }

    /** The CopyEntry branch, entered with the state already taken out (Dummy). */
    method CopyStep(e: Entry, rest: seq<Byte>, a: Answer) returns (out: StepOut)
      requires state == Dummy
      modifies this
      ensures (View(), out) == Copy(old(View()).(state := CopyEntry(e, rest)), e, rest, a)
    {
      match a.first {
        case InnerPending =>
          state := CopyEntry(e, rest);
          return Return(Pending);
        case InnerFailed(err) =>
          return Return(Ready(Err(err)));
        case InnerReady(k) =>
          var buffer := Window(rest, k);
          if buffer == [] {
            match a.second {
              case InnerPending =>
                state := CopyEntry(e, rest);
                out := Return(Pending);
              case InnerFailed(err) =>
                out := Return(Ready(Err(err)));
              case InnerReady(_) =>
                state := ClosingEntry(e);
                out := Again;
            }
          } else {
            match a.second {
              case InnerPending =>
                state := CopyEntry(e, rest);
                out := Return(Pending);
              case InnerFailed(err) =>
                out := Return(Ready(Err(err)));
              case InnerReady(i) =>
                if i == 0 {
                  return Return(Ready(Err(WriteZeroError)));
                }
                var c := if i <= |buffer| then i else |buffer|;
                written := written + Bytes(buffer[..c]);
                state := CopyEntry(e, rest[c..]);
                out := Again;
            }
          }
      }
    }

    /** `poll_read`: activations until one returns, one answer each; `Again` if the answers run out first. */
    method PollRead(answers: seq<Answer>) returns (out: StepOut)
      requires Valid()
      modifies this
      ensures Valid()
      ensures (View(), out) == Drive(old(View()), answers)
    {
      var i := 0;
      out := Again;
      while i < |answers|
        invariant 0 <= i <= |answers|
        invariant Valid()
        invariant Drive(old(View()), answers) == Drive(View(), answers[i..])
        invariant out == Again
      {
        assert answers[i..][0] == answers[i] && answers[i..][1..] == answers[i + 1..];
        ghost var before := View();
        NextConsistent(all, before, answers[i]);
        out := Step(answers[i]);
        assert (View(), out) == Next(before, answers[i]);
        if !out.Again? {
          assert Drive(before, answers[i..]) == (View(), out);
          return;
        }
        i := i + 1;
      }
    }
  }
}
