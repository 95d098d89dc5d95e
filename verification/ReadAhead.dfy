/** The read-ahead pipeline of client/storageReader.h and its consumer in client/worker.h: four
    buffers moving between a `spare` and a `ready` ring. The rings are taken as the queues they are
    proved to be, with room for eight items. A file may turn out shorter than what is asked of it; then
    the storage thread puts its buffer back itself, and `SecondProducer` says when that breaks the
    one-producer rule of the `spare` ring. */
module ReadAhead {
  import opened Bytes
  import Frames

  const READ_AHEAD: nat := 4
  const READ_RING: nat := 8

  /** What a unit asks for, and the file it finds. */
  datatype Request = Request(content: Bytes, found: bool, offset: nat, length: nat)

  /** The bytes of the range that exist. */
  function Range(q: Request): Bytes {
    if !q.found || q.offset > |q.content| then []
    else if q.offset + q.length <= |q.content| then q.content[q.offset..q.offset + q.length]
    else q.content[q.offset..]
  }

  datatype Filled = Block(idx: nat, len: nat) | Eof

  /** The storage thread: waiting for a request, between blocks, with a buffer in hand, with one it has
      filled, or with one it is about to put back after an empty read. */
  datatype Reader = Resting | Looping(off: nat, left: nat) | Have(idx: nat, off: nat, left: nat)
                  | Full(idx: nat, len: nat, off: nat, left: nat) | Returning(idx: nat, off: nat, left: nat)

  /** The worker: between units, waiting for a block, holding one, or done with it. */
  datatype Worker = Idle | Waiting | Holding(idx: nat, len: nat) | Done(idx: nat)

  datatype State = State(
    spare: seq<nat>,
    ready: seq<Filled>,
    bufs: seq<Bytes>,
    reader: Reader,
    worker: Worker,
    asked: bool,                      // a request is in the channel
    cur: Request,                     // the request submitted last
    out: Bytes,                       // what the worker has taken for it so far
    log: seq<(Request, Bytes)>)       // finished requests with what was delivered

  datatype Label = Submit(q: Request) | Pop | Use | Recycle
                 | Accept | PopSpare | Fill(n: nat) | ReadEmpty | PushSpare | PushReady | PushEof

  // ---------------------------------------------------------------------------
  // Steps
  // ---------------------------------------------------------------------------

  function Want(left: nat): nat { if left < Frames.READ_BLOCK then left else Frames.READ_BLOCK }

  /** A read of `data` into the start of a buffer. */
  function Overwrite(buf: Bytes, data: Bytes): Bytes { data + (if |buf| > |data| then buf[|data|..] else []) }

  predicate Enabled(s: State, l: Label) {
    match l
    case Submit(q) => s.worker.Idle?
    case Pop => s.worker.Waiting? && s.ready != []
    case Use => s.worker.Holding? && s.worker.idx < |s.bufs| && s.worker.len <= |s.bufs[s.worker.idx]|
    case Recycle => s.worker.Done? && |s.spare| < READ_RING
    case Accept => s.reader.Resting? && s.asked
    case PopSpare => s.reader.Looping? && s.reader.left > 0 && s.spare != []
    case Fill(n) => s.reader.Have? && 0 < n <= Want(s.reader.left) && s.reader.idx < |s.bufs|
                    && s.reader.off + n <= |s.cur.content|
    case ReadEmpty => s.reader.Have? && s.reader.off >= |s.cur.content|
    case PushSpare => s.reader.Returning? && |s.spare| < READ_RING
    case PushReady => s.reader.Full? && s.reader.len <= s.reader.left && |s.ready| < READ_RING
    case PushEof => s.reader.Looping? && s.reader.left == 0 && |s.ready| < READ_RING
  }

  function Apply(s: State, l: Label): State
    requires Enabled(s, l)
  {
    match l
    case Submit(q) => s.(worker := Waiting, asked := true, cur := q, out := [])
    case Pop =>
      (match s.ready[0]
       case Block(idx, len) => s.(ready := s.ready[1..], worker := Holding(idx, len))
       case Eof => s.(ready := s.ready[1..], worker := Idle, log := s.log + [(s.cur, s.out)]))
    case Use => s.(worker := Done(s.worker.idx), out := s.out + s.bufs[s.worker.idx][..s.worker.len])
    case Recycle => s.(worker := Waiting, spare := s.spare + [s.worker.idx])
    case Accept => s.(asked := false, reader := Looping(s.cur.offset, if s.cur.found then s.cur.length else 0))
    case PopSpare => s.(spare := s.spare[1..], reader := Have(s.spare[0], s.reader.off, s.reader.left))
    case Fill(n) =>
      s.(bufs := s.bufs[s.reader.idx := Overwrite(s.bufs[s.reader.idx], s.cur.content[s.reader.off..s.reader.off + n])],
         reader := Full(s.reader.idx, n, s.reader.off, s.reader.left))
    case ReadEmpty => s.(reader := Returning(s.reader.idx, s.reader.off, s.reader.left))
    case PushSpare => s.(spare := s.spare + [s.reader.idx], reader := Looping(s.reader.off, 0))
    case PushReady =>
      s.(ready := s.ready + [Block(s.reader.idx, s.reader.len)],
         reader := Looping(s.reader.off + s.reader.len, s.reader.left - s.reader.len))
    case PushEof => s.(ready := s.ready + [Eof], reader := Resting)
  }

  predicate Init(s: State) {
    && s.spare == [0, 1, 2, 3] && s.ready == [] && |s.bufs| == READ_AHEAD && s.reader.Resting? && s.worker.Idle?
    && !s.asked && s.log == []
  }

  predicate Runnable(s: State, ls: seq<Label>)
    decreases |ls|
  {
    ls == [] || (Enabled(s, ls[0]) && Runnable(Apply(s, ls[0]), ls[1..]))
  }

  function Run(s: State, ls: seq<Label>): State
    requires Runnable(s, ls)
    decreases |ls|
  {
    if ls == [] then s else Run(Apply(s, ls[0]), ls[1..])
  }

  // ---------------------------------------------------------------------------
  // Who owns which buffer
  // ---------------------------------------------------------------------------

  function Indices(ready: seq<Filled>): seq<nat> {
    if ready == [] then []
    else if ready[0].Eof? then Indices(ready[1..])
    else [ready[0].idx] + Indices(ready[1..])
  }

  function ReaderHand(r: Reader): seq<nat> { if r.Have? || r.Full? || r.Returning? then [r.idx] else [] }

  function WorkerHand(w: Worker): seq<nat> { if w.Holding? || w.Done? then [w.idx] else [] }

  /** Every buffer is in exactly one of `spare`, the reader's hand, `ready`, the worker's hand. */
  ghost predicate Owned(spare: seq<nat>, ready: seq<Filled>, r: Reader, w: Worker) {
    multiset(spare) + multiset(Indices(ready)) + multiset(ReaderHand(r)) + multiset(WorkerHand(w)) == multiset{0, 1, 2, 3}
  }

  lemma {:induction false} IndicesAppend(a: seq<Filled>, b: seq<Filled>)
    ensures Indices(a + b) == Indices(a) + Indices(b)
  {
    if a == [] {
      assert a + b == b;
    } else {
      assert (a + b)[1..] == a[1..] + b;
      IndicesAppend(a[1..], b);
    }
  }

  lemma IndicesEof(a: seq<Filled>)
    ensures Indices(a + [Eof]) == Indices(a)
  {
    IndicesAppend(a, [Eof]);
  }

  lemma MultisetHead(a: seq<nat>)
    requires a != []
    ensures multiset(a) == multiset{a[0]} + multiset(a[1..])
  {
    assert a == [a[0]] + a[1..];
  }

  lemma OwnedPop(spare: seq<nat>, ready: seq<Filled>, r: Reader)
    requires ready != [] && ready[0].Block? && Owned(spare, ready, r, Waiting)
    ensures Owned(spare, ready[1..], r, Holding(ready[0].idx, ready[0].len))
  {
    assert multiset(Indices(ready)) == multiset{ready[0].idx} + multiset(Indices(ready[1..])) by {
      MultisetHead(Indices(ready));
    }
  }

  lemma OwnedRecycle(spare: seq<nat>, ready: seq<Filled>, r: Reader, w: Worker)
    requires w.Done? && Owned(spare, ready, r, w)
    ensures Owned(spare + [w.idx], ready, r, Waiting)
  {
  }

  lemma OwnedPopSpare(spare: seq<nat>, ready: seq<Filled>, off: nat, left: nat, w: Worker)
    requires spare != [] && Owned(spare, ready, Looping(off, left), w)
    ensures Owned(spare[1..], ready, Have(spare[0], off, left), w)
  {
    MultisetHead(spare);
  }

  lemma OwnedPushReady(spare: seq<nat>, ready: seq<Filled>, r: Reader, w: Worker, off: nat, left: nat)
    requires r.Full? && Owned(spare, ready, r, w)
    ensures Owned(spare, ready + [Block(r.idx, r.len)], Looping(off, left), w)
  {
    var b := [Block(r.idx, r.len)];
    IndicesAppend(ready, b);
    assert Indices(b) == [r.idx];
  }

  predicate WorkerLabel(l: Label) { l.Submit? || l.Pop? || l.Use? || l.Recycle? }

  lemma OwnedAlike(spare: seq<nat>, ready: seq<Filled>, r: Reader, w: Worker, ready': seq<Filled>, r': Reader, w': Worker)
    requires Owned(spare, ready, r, w)
    requires Indices(ready) == Indices(ready') && ReaderHand(r) == ReaderHand(r') && WorkerHand(w) == WorkerHand(w')
    ensures Owned(spare, ready', r', w')
  {
  }

  lemma OwnedEof(spare: seq<nat>, ready: seq<Filled>, r: Reader, w: Worker)
    requires r.Looping? && Owned(spare, ready, r, w)
    ensures Owned(spare, ready + [Eof], Resting, w)
  {
    IndicesEof(ready);
    OwnedAlike(spare, ready, r, w, ready + [Eof], Resting, w);
  }

  lemma WorkerStepOwned(s: State, l: Label, t: State)
    requires WorkerLabel(l) && Enabled(s, l) && t == Apply(s, l) && Owned(s.spare, s.ready, s.reader, s.worker)
    ensures Owned(t.spare, t.ready, t.reader, t.worker)
  {
    if l.Pop? && s.ready[0].Block? {
      OwnedPop(s.spare, s.ready, s.reader);
    } else if l.Recycle? {
      OwnedRecycle(s.spare, s.ready, s.reader, s.worker);
    } else {
      WorkerStayOwned(s, l, t);
    }
  }

  lemma WorkerStayOwned(s: State, l: Label, t: State)
    requires l.Submit? || l.Use? || (l.Pop? && s.ready != [] && s.ready[0].Eof?)
    requires Enabled(s, l) && t == Apply(s, l) && Owned(s.spare, s.ready, s.reader, s.worker)
    ensures Owned(t.spare, t.ready, t.reader, t.worker)
  {
    OwnedAlike(s.spare, s.ready, s.reader, s.worker, t.ready, s.reader, t.worker);
  }

  lemma OwnedPutBack(spare: seq<nat>, ready: seq<Filled>, r: Reader, w: Worker, off: nat)
    requires r.Returning? && Owned(spare, ready, r, w)
    ensures Owned(spare + [r.idx], ready, Looping(off, 0), w)
  {
  }

  lemma ReaderMoveOwned(s: State, l: Label, t: State)
    requires (l.PopSpare? || l.PushReady? || l.PushSpare?) && Enabled(s, l) && t == Apply(s, l) && Owned(s.spare, s.ready, s.reader, s.worker)
    ensures Owned(t.spare, t.ready, t.reader, t.worker)
  {
    if l.PopSpare? {
      OwnedPopSpare(s.spare, s.ready, s.reader.off, s.reader.left, s.worker);
    } else if l.PushSpare? {
      OwnedPutBack(s.spare, s.ready, s.reader, s.worker, s.reader.off);
    } else {
      OwnedPushReady(s.spare, s.ready, s.reader, s.worker, t.reader.off, t.reader.left);
    }
  }

  lemma ReaderStayOwned(s: State, l: Label, t: State)
    requires (l.Accept? || l.Fill? || l.ReadEmpty? || l.PushEof?) && Enabled(s, l) && t == Apply(s, l)
    requires Owned(s.spare, s.ready, s.reader, s.worker)
    ensures Owned(t.spare, t.ready, t.reader, t.worker)
  {
    if l.PushEof? {
      OwnedEof(s.spare, s.ready, s.reader, s.worker);
    } else {
      OwnedAlike(s.spare, s.ready, s.reader, s.worker, s.ready, t.reader, s.worker);
    }
  }

  lemma StepOwned(s: State, l: Label, t: State)
    requires Enabled(s, l) && t == Apply(s, l) && Owned(s.spare, s.ready, s.reader, s.worker)
    ensures Owned(t.spare, t.ready, t.reader, t.worker)
  {
    if WorkerLabel(l) {
      WorkerStepOwned(s, l, t);
    } else if l.PopSpare? || l.PushReady? || l.PushSpare? {
      ReaderMoveOwned(s, l, t);
    } else {
      ReaderStayOwned(s, l, t);
    }
  }

  /** At most four blocks and one end marker are ever in `ready`, and no buffer is out of range. */
  lemma {:induction false} ReadySize(ready: seq<Filled>)
    ensures |ready| == |Indices(ready)| + Eofs(ready)
  {
    if ready != [] { ReadySize(ready[1..]); }
  }

  function Eofs(ready: seq<Filled>): nat {
    if ready == [] then 0 else (if ready[0].Eof? then 1 else 0) + Eofs(ready[1..])
  }

  lemma RoomEverywhere(spare: seq<nat>, ready: seq<Filled>, r: Reader, w: Worker)
    requires Owned(spare, ready, r, w) && Eofs(ready) <= 1
    ensures |spare| + |ReaderHand(r)| + |WorkerHand(w)| + |ready| <= READ_AHEAD + 1
  {
    ReadySize(ready);
    var all := spare + Indices(ready) + ReaderHand(r) + WorkerHand(w);
    assert multiset(all) == multiset{0, 1, 2, 3};
    assert |all| == |multiset(all)| == 4;
  }

  lemma Apart(spare: seq<nat>, ready: seq<Filled>, r: Reader, w: Worker, x: nat)
    requires Owned(spare, ready, r, w) && x in ReaderHand(r)
    ensures x < READ_AHEAD && x !in Indices(ready) && x !in WorkerHand(w) && x !in spare
  {
    assert x in multiset(ReaderHand(r));
    assert x in multiset{0, 1, 2, 3};
    assert multiset{0, 1, 2, 3}[x] == 1;
    assert multiset(Indices(ready))[x] == 0 && multiset(WorkerHand(w))[x] == 0 && multiset(spare)[x] == 0;
  }

  // ---------------------------------------------------------------------------
  // Whose turn it is
  // ---------------------------------------------------------------------------

  /** A unit's request is in the channel, being read, or closed by one marker at the end of `ready`. */
  predicate Phased(ready: seq<Filled>, r: Reader, w: Worker, asked: bool) {
    && Eofs(ready) == (if w.Idle? || asked || !r.Resting? then 0 else 1)
    && (Eofs(ready) == 1 ==> ready != [] && ready[|ready| - 1].Eof?)
    && (w.Idle? ==> !asked && r.Resting? && ready == [])
    && (asked ==> r.Resting? && ready == [] && w.Waiting?)
  }

  lemma {:induction false} EofsAppend(a: seq<Filled>, b: seq<Filled>)
    ensures Eofs(a + b) == Eofs(a) + Eofs(b)
  {
    if a == [] {
      assert a + b == b;
    } else {
      assert (a + b)[1..] == a[1..] + b;
      EofsAppend(a[1..], b);
    }
  }

  lemma MarkerIsLast(ready: seq<Filled>)
    requires ready != [] && ready[0].Eof? && Eofs(ready) == 1 && ready[|ready| - 1].Eof?
    ensures ready == [Eof]
  {
    if |ready| > 1 {
      var front := ready[..|ready| - 1];
      assert ready == front + [Eof];
      EofsAppend(front, [Eof]);
    }
  }

  lemma WorkerStepPhased(s: State, l: Label, t: State)
    requires WorkerLabel(l) && Enabled(s, l) && t == Apply(s, l) && Phased(s.ready, s.reader, s.worker, s.asked)
    ensures Phased(t.ready, t.reader, t.worker, t.asked)
  {
    if l.Pop? && s.ready[0].Eof? {
      MarkerIsLast(s.ready);
    }
  }

  lemma ReaderStepPhased(s: State, l: Label, t: State)
    requires !WorkerLabel(l) && Enabled(s, l) && t == Apply(s, l) && Phased(s.ready, s.reader, s.worker, s.asked)
    ensures Phased(t.ready, t.reader, t.worker, t.asked)
  {
    if l.PushReady? {
      EofsAppend(s.ready, [Block(s.reader.idx, s.reader.len)]);
    } else if l.PushEof? {
      EofsAppend(s.ready, [Eof]);
    }
  }

  // ---------------------------------------------------------------------------
  // What is in the buffers
  // ---------------------------------------------------------------------------

  predicate Sound(bufs: seq<Bytes>, idx: nat, len: nat) { idx < |bufs| && len <= |bufs[idx]| }

  function Piece(bufs: seq<Bytes>, idx: nat, len: nat): Bytes {
    if Sound(bufs, idx, len) then bufs[idx][..len] else []
  }

  function Text(ready: seq<Filled>, bufs: seq<Bytes>): Bytes {
    if ready == [] then []
    else if ready[0].Eof? then Text(ready[1..], bufs)
    else Piece(bufs, ready[0].idx, ready[0].len) + Text(ready[1..], bufs)
  }

  function Held(w: Worker, bufs: seq<Bytes>): Bytes { if w.Holding? then Piece(bufs, w.idx, w.len) else [] }

  /** Everything read for the current request so far, in order. */
  function Produced(out: Bytes, w: Worker, ready: seq<Filled>, bufs: seq<Bytes>): Bytes {
    out + Held(w, bufs) + Text(ready, bufs)
  }

  predicate AllSound(ready: seq<Filled>, bufs: seq<Bytes>) {
    forall i :: 0 <= i < |ready| && ready[i].Block? ==> Sound(bufs, ready[i].idx, ready[i].len)
  }

  lemma {:induction false} TextAppend(a: seq<Filled>, b: seq<Filled>, bufs: seq<Bytes>)
    ensures Text(a + b, bufs) == Text(a, bufs) + Text(b, bufs)
  {
    if a == [] {
      assert a + b == b;
    } else {
      assert (a + b)[1..] == a[1..] + b;
      TextAppend(a[1..], b, bufs);
    }
  }

  /** Filling a buffer that is not in `ready` leaves what is there alone. */
  lemma {:induction false} TextFrame(ready: seq<Filled>, bufs: seq<Bytes>, x: nat, buf: Bytes)
    requires x < |bufs| && x !in Indices(ready)
    ensures Text(ready, bufs[x := buf]) == Text(ready, bufs)
    ensures AllSound(ready, bufs) ==> AllSound(ready, bufs[x := buf])
  {
    if ready != [] {
      TextFrame(ready[1..], bufs, x, buf);
      var after := bufs[x := buf];
      if ready[0].Block? {
        assert ready[0].idx in Indices(ready);
      }
      if AllSound(ready, bufs) {
        assert AllSound(ready[1..], bufs);
        forall i | 0 <= i < |ready| && ready[i].Block?
          ensures Sound(after, ready[i].idx, ready[i].len)
        {
          if i > 0 { assert ready[i] == ready[1..][i - 1]; }
        }
      }
    }
  }

  predicate Buffers(bufs: seq<Bytes>, ready: seq<Filled>, r: Reader, w: Worker) {
    && |bufs| == READ_AHEAD && AllSound(ready, bufs)
    && (w.Holding? ==> Sound(bufs, w.idx, w.len))
    && (r.Full? ==> Sound(bufs, r.idx, r.len))
  }

  /** The range up to `off`. */
  function Upto(q: Request, off: nat): Bytes {
    if q.found && q.offset <= off <= |q.content| then q.content[q.offset..off] else []
  }

  /** Nothing of the range is left to read at `off`. */
  predicate Exhausted(q: Request, off: nat) { Upto(q, off) == Range(q) }

  /** The reader is at `r.off` of a range it has `r.left` more bytes of, if the file holds them. */
  predicate OnTrack(q: Request, r: Reader) {
    && (!r.Resting? ==> q.offset <= r.off && (r.off <= |q.content| || r.off == q.offset || !q.found))
    && (!r.Resting? && r.left > 0 ==> q.found && r.off + r.left == q.offset + q.length)
    && (r.Looping? && r.left == 0 ==> Exhausted(q, r.off))
    && (r.Have? ==> r.left > 0)
    && (r.Returning? ==> r.left > 0 && r.off >= |q.content|)
    && (r.Full? ==> 0 < r.len <= r.left && r.off + r.len <= |q.content|)
  }

  /** What has been produced is the front part of the range the reader is through with. */
  predicate Matches(q: Request, produced: Bytes, r: Reader, asked: bool, bufs: seq<Bytes>) {
    if asked then produced == []
    else if r.Resting? then produced == Range(q)
    else
      && produced == Upto(q, r.off)
      && (r.Full? ==> r.off + r.len <= |q.content| && Piece(bufs, r.idx, r.len) == q.content[r.off..r.off + r.len])
  }

  predicate Logged(log: seq<(Request, Bytes)>) { forall i :: 0 <= i < |log| ==> log[i].1 == Range(log[i].0) }

  predicate Data(s: State) {
    && Buffers(s.bufs, s.ready, s.reader, s.worker)
    && (!s.worker.Idle? ==>
          && OnTrack(s.cur, s.reader)
          && Matches(s.cur, Produced(s.out, s.worker, s.ready, s.bufs), s.reader, s.asked, s.bufs))
  }

  ghost predicate Inv(s: State) {
    && Owned(s.spare, s.ready, s.reader, s.worker)
    && Phased(s.ready, s.reader, s.worker, s.asked)
    && Data(s) && Logged(s.log)
  }

  lemma PopKeepsText(out: Bytes, ready: seq<Filled>, bufs: seq<Bytes>)
    requires ready != [] && ready[0].Block?
    ensures Produced(out, Holding(ready[0].idx, ready[0].len), ready[1..], bufs) == Produced(out, Waiting, ready, bufs)
  {
  }

  lemma UseKeepsText(out: Bytes, w: Worker, ready: seq<Filled>, bufs: seq<Bytes>)
    requires w.Holding? && Sound(bufs, w.idx, w.len)
    ensures Produced(out + bufs[w.idx][..w.len], Done(w.idx), ready, bufs) == Produced(out, w, ready, bufs)
  {
  }

  lemma PushKeepsText(out: Bytes, w: Worker, ready: seq<Filled>, bufs: seq<Bytes>, b: Filled)
    ensures Produced(out, w, ready + [b], bufs)
            == Produced(out, w, ready, bufs) + (if b.Block? then Piece(bufs, b.idx, b.len) else [])
  {
    TextAppend(ready, [b], bufs);
    assert Text([b], bufs) == if b.Block? then Piece(bufs, b.idx, b.len) else [];
  }

  lemma FillKeepsText(out: Bytes, w: Worker, ready: seq<Filled>, bufs: seq<Bytes>, x: nat, buf: Bytes)
    requires x < |bufs| && x !in Indices(ready) && x !in WorkerHand(w)
    ensures Produced(out, w, ready, bufs[x := buf]) == Produced(out, w, ready, bufs)
  {
    TextFrame(ready, bufs, x, buf);
  }

  lemma WorkerStepData(s: State, l: Label, t: State)
    requires WorkerLabel(l) && Enabled(s, l) && t == Apply(s, l) && Data(s)
    requires Phased(s.ready, s.reader, s.worker, s.asked)
    ensures Data(t)
  {
    match l
    case Submit(q) =>
    case Pop => if s.ready[0].Block? { PopKeepsText(s.out, s.ready, s.bufs); }
    case Use => UseKeepsText(s.out, s.worker, s.ready, s.bufs);
    case Recycle =>
  }

  lemma AcceptData(s: State, t: State)
    requires Enabled(s, Accept) && t == Apply(s, Accept) && Data(s)
    requires Phased(s.ready, s.reader, s.worker, s.asked)
    ensures Data(t)
  {
  }

  lemma FillBuffers(bufs: seq<Bytes>, ready: seq<Filled>, r: Reader, w: Worker, x: nat, buf: Bytes)
    requires Buffers(bufs, ready, r, w) && x < |bufs| && x !in Indices(ready) && x !in WorkerHand(w)
    ensures |bufs[x := buf]| == READ_AHEAD && AllSound(ready, bufs[x := buf])
    ensures w.Holding? ==> Sound(bufs[x := buf], w.idx, w.len)
  {
    TextFrame(ready, bufs, x, buf);
  }

  lemma Overwritten(bufs: seq<Bytes>, x: nat, data: Bytes)
    requires x < |bufs|
    ensures var after := bufs[x := Overwrite(bufs[x], data)];
            Sound(after, x, |data|) && Piece(after, x, |data|) == data
  {
  }

  lemma FillMatches(q: Request, produced: Bytes, r: Reader, n: nat, bufs: seq<Bytes>)
    requires r.Have? && OnTrack(q, r) && produced == Upto(q, r.off) && 0 < n <= Want(r.left)
    requires r.off + n <= |q.content| && Piece(bufs, r.idx, n) == q.content[r.off..r.off + n]
    ensures OnTrack(q, Full(r.idx, n, r.off, r.left))
    ensures Matches(q, produced, Full(r.idx, n, r.off, r.left), false, bufs)
  {
  }

  lemma FillData(s: State, n: nat, t: State)
    requires Enabled(s, Fill(n)) && t == Apply(s, Fill(n)) && Data(s)
    requires !s.worker.Idle? && !s.asked
    requires s.reader.idx !in Indices(s.ready) && s.reader.idx !in WorkerHand(s.worker)
    ensures Data(t)
  {
    var r := s.reader;
    var data := s.cur.content[r.off..r.off + n];
    var buf := Overwrite(s.bufs[r.idx], data);
    FillBuffers(s.bufs, s.ready, r, s.worker, r.idx, buf);
    FillKeepsText(s.out, s.worker, s.ready, s.bufs, r.idx, buf);
    Overwritten(s.bufs, r.idx, data);
    FillMatches(s.cur, Produced(s.out, s.worker, s.ready, s.bufs), r, n, t.bufs);
  }

  lemma PushReadyData(s: State, t: State)
    requires Enabled(s, PushReady) && t == Apply(s, PushReady) && Data(s)
    requires Phased(s.ready, s.reader, s.worker, s.asked)
    ensures Data(t)
  {
    var r := s.reader;
    PushKeepsText(s.out, s.worker, s.ready, s.bufs, Block(r.idx, r.len));
    assert s.cur.content[s.cur.offset..r.off] + s.cur.content[r.off..r.off + r.len] == s.cur.content[s.cur.offset..r.off + r.len];
  }

  /** Putting the buffer back after an empty read: the file ends where the reading stopped. */
  lemma EmptyData(s: State, l: Label, t: State)
    requires (l.ReadEmpty? || l.PushSpare?) && Enabled(s, l) && t == Apply(s, l) && Data(s)
    requires Phased(s.ready, s.reader, s.worker, s.asked)
    ensures Data(t)
  {
    var q, off := s.cur, s.reader.off;
    if off == |q.content| {
      assert q.content[q.offset..off] == q.content[q.offset..];
    }
  }

  lemma PushEofData(s: State, t: State)
    requires Enabled(s, PushEof) && t == Apply(s, PushEof) && Data(s)
    requires Phased(s.ready, s.reader, s.worker, s.asked)
    ensures Data(t)
  {
    PushKeepsText(s.out, s.worker, s.ready, s.bufs, Eof);
    var p := Produced(s.out, s.worker, s.ready, s.bufs);
    assert p + [] == p;
  }

  /** A finished unit has received its range. */
  lemma PopLogs(s: State, t: State)
    requires Enabled(s, Pop) && t == Apply(s, Pop) && Data(s) && Logged(s.log)
    requires Phased(s.ready, s.reader, s.worker, s.asked)
    ensures Logged(t.log)
  {
    if s.ready[0].Eof? {
      MarkerIsLast(s.ready);
      assert s.ready[1..] == [] && Text(s.ready, s.bufs) == [];
      assert Produced(s.out, s.worker, s.ready, s.bufs) == s.out;
    }
  }

  lemma StepKeepsInv(s: State, l: Label, t: State)
    requires Inv(s) && Enabled(s, l) && t == Apply(s, l)
    ensures Inv(t)
  {
    StepOwned(s, l, t);
    if WorkerLabel(l) {
      WorkerStepPhased(s, l, t);
      WorkerStepData(s, l, t);
      if l.Pop? { PopLogs(s, t); }
    } else {
      ReaderStepPhased(s, l, t);
      match l
      case Accept => AcceptData(s, t);
      case PopSpare =>
      case Fill(n) =>
        Apart(s.spare, s.ready, s.reader, s.worker, s.reader.idx);
        FillData(s, n, t);
      case ReadEmpty => EmptyData(s, l, t);
      case PushSpare => EmptyData(s, l, t);
      case PushReady => PushReadyData(s, t);
      case PushEof => PushEofData(s, t);
    }
  }

  lemma {:induction false} RunKeepsInv(s: State, ls: seq<Label>)
    requires Inv(s) && Runnable(s, ls)
    ensures Inv(Run(s, ls))
    decreases |ls|
  {
    if ls != [] {
      StepKeepsInv(s, ls[0], Apply(s, ls[0]));
      RunKeepsInv(Apply(s, ls[0]), ls[1..]);
    }
  }

  // ---------------------------------------------------------------------------
  // What every run keeps
  // ---------------------------------------------------------------------------

  /** In every run: each buffer has one owner, neither ring is ever full, at most one end marker is
      under way, and every finished unit was delivered exactly what exists of the range it asked for. */
  lemma Pipeline(s: State, ls: seq<Label>)
    requires Init(s) && Runnable(s, ls)
    ensures var t := Run(s, ls);
            && Owned(t.spare, t.ready, t.reader, t.worker)
            && |t.spare| <= READ_AHEAD && |t.ready| <= READ_AHEAD + 1 < READ_RING
            && Eofs(t.ready) <= 1
            && Logged(t.log)
  {
    assert Inv(s);
    RunKeepsInv(s, ls);
    var t := Run(s, ls);
    RoomEverywhere(t.spare, t.ready, t.reader, t.worker);
  }

  function Submitted(ls: seq<Label>): seq<Request> {
    if ls == [] then []
    else if ls[0].Submit? then [ls[0].q] + Submitted(ls[1..])
    else Submitted(ls[1..])
  }

  function Asked(log: seq<(Request, Bytes)>): seq<Request> { seq(|log|, i requires 0 <= i < |log| => log[i].0) }

  /** The finished units and the one under way. */
  function Begun(s: State): seq<Request> { Asked(s.log) + if s.worker.Idle? then [] else [s.cur] }

  lemma StepBegins(s: State, l: Label)
    requires Enabled(s, l)
    ensures Begun(Apply(s, l)) == Begun(s) + if l.Submit? then [l.q] else []
  {
    if l.Pop? && s.ready[0].Eof? {
      assert Asked(s.log + [(s.cur, s.out)]) == Asked(s.log) + [s.cur];
    }
  }

  /** In every run the units submitted are, in order, the finished ones and the one under way: none is
      dropped, repeated or overtaken. */
  lemma {:induction false} UnitsInOrder(s: State, ls: seq<Label>)
    requires Runnable(s, ls)
    ensures Begun(Run(s, ls)) == Begun(s) + Submitted(ls)
    decreases |ls|
  {
    if ls == [] {
      assert Begun(s) + [] == Begun(s);
    } else {
      hide Enabled, Apply, Begun;
      StepBegins(s, ls[0]);
      UnitsInOrder(Apply(s, ls[0]), ls[1..]);
    }
  }

  /** Neither side can wait for the other forever: until the unit is finished some step is possible. */
  lemma NeverStuck(s: State, ls: seq<Label>) returns (l: Label)
    requires Init(s) && Runnable(s, ls) && !Run(s, ls).worker.Idle?
    ensures !l.Submit? && Enabled(Run(s, ls), l)
  {
    assert Inv(s);
    RunKeepsInv(s, ls);
    var t := Run(s, ls);
    RoomEverywhere(t.spare, t.ready, t.reader, t.worker);
    l := NextStep(t);
  }

  lemma NextStep(t: State) returns (l: Label)
    requires Inv(t) && !t.worker.Idle? && |t.spare| <= READ_AHEAD && |t.ready| <= READ_AHEAD + 1
    ensures !l.Submit? && Enabled(t, l)
  {
    match t.worker
    case Holding(_, _) => l := Use;
    case Done(_) => l := Recycle;
    case Waiting =>
      if t.ready != [] {
        l := Pop;
      } else if t.asked {
        l := Accept;
      } else {
        l := ReaderNext(t);
      }
  }

  lemma ReaderNext(t: State) returns (l: Label)
    requires Inv(t) && t.worker.Waiting? && t.ready == [] && !t.asked && |t.spare| <= READ_AHEAD
    ensures !l.Submit? && Enabled(t, l)
  {
    match t.reader
    case Looping(_, left) =>
      if left == 0 {
        l := PushEof;
      } else {
        assert multiset(t.spare) == multiset{0, 1, 2, 3};
        l := PopSpare;
      }
    case Have(idx, off, left) =>
      Apart(t.spare, t.ready, t.reader, t.worker, idx);
      l := if off < |t.cur.content| then Fill(1) else ReadEmpty;
    case Returning(_, _, _) => l := PushSpare;
    case Full(_, _, _, _) => l := PushReady;
  }

  /** Steps left before the unit is finished, at most. */
  function Fuel(s: State): nat {
    ReadyFuel(s.ready) + WorkerFuel(s.worker) + if s.asked then 7 * s.cur.length + 3 else ReaderFuel(s.reader)
  }

  function ReadyFuel(ready: seq<Filled>): nat {
    if ready == [] then 0 else (if ready[0].Eof? then 1 else 3) + ReadyFuel(ready[1..])
  }

  function WorkerFuel(w: Worker): nat { if w.Holding? then 2 else if w.Done? then 1 else 0 }

  function ReaderFuel(r: Reader): nat {
    match r
    case Resting => 0
    case Looping(_, left) => 7 * left + 2
    case Have(_, _, left) => 7 * left + 1
    case Full(_, _, _, left) => 7 * left
    case Returning(_, _, left) => 7 * left
  }

  lemma {:induction false} ReadyFuelAppend(a: seq<Filled>, b: seq<Filled>)
    ensures ReadyFuel(a + b) == ReadyFuel(a) + ReadyFuel(b)
  {
    if a == [] {
      assert a + b == b;
    } else {
      assert (a + b)[1..] == a[1..] + b;
      ReadyFuelAppend(a[1..], b);
    }
  }

  lemma WorkerBurnsFuel(s: State, l: Label)
    requires WorkerLabel(l) && Enabled(s, l) && !l.Submit?
    ensures Fuel(Apply(s, l)) < Fuel(s)
  {
  }

  lemma ReaderBurnsFuel(s: State, l: Label)
    requires !WorkerLabel(l) && Enabled(s, l)
    requires (l.Accept? || !s.asked) && (l.PushReady? ==> s.reader.len > 0) && (l.PushSpare? ==> s.reader.left > 0)
    ensures Fuel(Apply(s, l)) < Fuel(s)
  {
    if l.PushReady? {
      PushBurnsFuel(s.ready, Block(s.reader.idx, s.reader.len));
    } else if l.PushEof? {
      PushBurnsFuel(s.ready, Eof);
    }
  }

  lemma ReaderBusy(s: State)
    requires Phased(s.ready, s.reader, s.worker, s.asked) && Data(s) && !s.reader.Resting?
    ensures !s.asked && !s.worker.Idle? && (s.reader.Full? ==> s.reader.len > 0) && (s.reader.Returning? ==> s.reader.left > 0)
  {
  }

  lemma StepBurnsFuel(s: State, l: Label)
    requires Phased(s.ready, s.reader, s.worker, s.asked) && Data(s) && Enabled(s, l) && !l.Submit?
    ensures Fuel(Apply(s, l)) < Fuel(s)
  {
    if WorkerLabel(l) {
      WorkerBurnsFuel(s, l);
    } else {
      if !l.Accept? { ReaderBusy(s); }
      ReaderBurnsFuel(s, l);
    }
  }

  lemma PushBurnsFuel(ready: seq<Filled>, b: Filled)
    ensures ReadyFuel(ready + [b]) == ReadyFuel(ready) + if b.Eof? then 1 else 3
  {
    ReadyFuelAppend(ready, [b]);
  }

  /** A unit needs at most so many steps: with `NeverStuck`, every unit is finished. */
  lemma {:induction false} UnitsFinish(s: State, ls: seq<Label>)
    requires Inv(s) && Runnable(s, ls) && NoSubmit(ls)
    ensures |ls| <= Fuel(s)
    decreases |ls|
  {
    if ls != [] {
      var t := Apply(s, ls[0]);
      StepBurnsFuel(s, ls[0]);
      StepKeepsInv(s, ls[0], t);
      UnitsFinish(t, ls[1..]);
    }
  }

  predicate NoSubmit(ls: seq<Label>) { ls == [] || (!ls[0].Submit? && NoSubmit(ls[1..])) }

  // ---------------------------------------------------------------------------
  // One producer on the spare ring
  // ---------------------------------------------------------------------------

  /** Storage thread and worker are both about to push to `spare`. */
  predicate TwoProducers(s: State) { s.reader.Returning? && s.worker.Done? }

  /** The file ends inside the range asked for, after its first byte. */
  predicate CutShort(q: Request) { q.found && q.offset < |q.content| < q.offset + q.length }

  /** Blocks are never empty, so a worker that is done with one has taken something. */
  predicate Positive(ready: seq<Filled>, r: Reader, w: Worker, out: Bytes) {
    && (forall i :: 0 <= i < |ready| && ready[i].Block? ==> ready[i].len > 0)
    && (r.Full? ==> r.len > 0)
    && (w.Holding? ==> w.len > 0) && (w.Done? ==> out != [])
  }

  lemma StepPositive(s: State, l: Label, t: State)
    requires Positive(s.ready, s.reader, s.worker, s.out) && Enabled(s, l) && t == Apply(s, l)
    ensures Positive(t.ready, t.reader, t.worker, t.out)
  {
    if l.Pop? {
      assert forall i :: 0 <= i < |t.ready| ==> t.ready[i] == s.ready[i + 1];
    }
  }

  /** No file under way ends inside the range asked of it. */
  ghost predicate Uncut(s: State) {
    Inv(s) && Positive(s.ready, s.reader, s.worker, s.out) && (!s.worker.Idle? ==> !CutShort(s.cur))
  }

  lemma StepUncut(s: State, l: Label)
    requires Uncut(s) && Enabled(s, l) && (l.Submit? ==> !CutShort(l.q))
    ensures Uncut(Apply(s, l))
  {
    hide Inv, Positive, CutShort;
    StepKeepsInv(s, l, Apply(s, l));
    StepPositive(s, l, Apply(s, l));
  }

  predicate NeverCut(ls: seq<Label>) { ls == [] || ((ls[0].Submit? ==> !CutShort(ls[0].q)) && NeverCut(ls[1..])) }

  lemma {:induction false} RunPositive(s: State, ls: seq<Label>)
    requires Uncut(s) && Runnable(s, ls) && NeverCut(ls)
    ensures Uncut(Run(s, ls))
    decreases |ls|
  {
    hide Uncut, Enabled, Apply;
    if ls != [] {
      StepUncut(s, ls[0]);
      RunPositive(Apply(s, ls[0]), ls[1..]);
    }
  }

  lemma OneProducerNow(s: State)
    requires Uncut(s)
    ensures !TwoProducers(s)
  {
    assert |Produced(s.out, s.worker, s.ready, s.bufs)| >= |s.out|;
  }

  /** As long as no file ends inside a range asked of it, `spare` never has two producers. */
  lemma OneProducer(s: State, ls: seq<Label>)
    requires Init(s) && Runnable(s, ls) && NeverCut(ls)
    ensures !TwoProducers(Run(s, ls))
  {
    assert Inv(s);
    RunPositive(s, ls);
    OneProducerNow(Run(s, ls));
  }

  lemma {:induction false} RunAppend(s: State, a: seq<Label>, b: seq<Label>)
    requires Runnable(s, a) && Runnable(Run(s, a), b)
    ensures Runnable(s, a + b) && Run(s, a + b) == Run(Run(s, a), b)
    decreases |a|
  {
    if a == [] {
      assert a + b == b;
    } else {
      assert (a + b)[0] == a[0] && (a + b)[1..] == a[1..] + b;
      RunAppend(Apply(s, a[0]), a[1..], b);
    }
  }

  lemma RunOne(s: State, l: Label)
    requires Enabled(s, l)
    ensures Runnable(s, [l]) && Run(s, [l]) == Apply(s, l)
  {
    assert [l][1..] == [];
  }

  /** The worker waits, nothing is ready, and bytes of a file that ends too soon are left. */
  ghost predicate Quiet(s: State) {
    && Inv(s) && CutShort(s.cur) && s.worker.Waiting? && s.ready == [] && !s.asked
    && s.reader.Looping? && s.reader.left > 0 && s.reader.off < |s.cur.content|
  }

  lemma QuietSpare(s: State)
    requires Inv(s) && s.ready == [] && ReaderHand(s.reader) == [] && |WorkerHand(s.worker)| <= 1
    ensures |s.spare| >= 3
  {
    ReadySize(s.ready);
    var all := s.spare + Indices(s.ready) + ReaderHand(s.reader) + WorkerHand(s.worker);
    assert multiset(all) == multiset{0, 1, 2, 3};
    assert |all| == |multiset(all)| == 4;
  }

  /** One block read and handed over. */
  lemma HandOver(s: State) returns (n: nat, a: State, b: State, c: State)
    requires Quiet(s)
    ensures Enabled(s, PopSpare) && a == Apply(s, PopSpare) && Enabled(a, Fill(n)) && b == Apply(a, Fill(n))
    ensures Enabled(b, PushReady) && c == Apply(b, PushReady) && Inv(c)
    ensures c.cur == s.cur && c.worker.Waiting? && !c.asked && |c.ready| == 1 && c.ready[0].Block?
    ensures c.reader.Looping? && s.reader.off < c.reader.off <= |c.cur.content|
    ensures c.reader.off + c.reader.left == s.reader.off + s.reader.left
  {
    QuietSpare(s);
    var off, left := s.reader.off, s.reader.left;
    var room := |s.cur.content| - off;
    n := if Want(left) < room then Want(left) else room;
    a := Apply(s, PopSpare);
    StepKeepsInv(s, PopSpare, a);
    Apart(a.spare, a.ready, a.reader, a.worker, a.reader.idx);
    b := Apply(a, Fill(n));
    StepKeepsInv(a, Fill(n), b);
    c := Apply(b, PushReady);
    StepKeepsInv(b, PushReady, c);
  }

  /** One block read, handed over and used. */
  lemma OneBlock(s: State) returns (ls: seq<Label>, t: State)
    requires Quiet(s)
    ensures NoSubmit(ls) && Runnable(s, ls) && t == Run(s, ls) && Inv(t)
    ensures t.cur == s.cur && t.worker.Done? && t.ready == [] && !t.asked
    ensures t.reader.Looping? && s.reader.off < t.reader.off <= |t.cur.content|
    ensures t.reader.off + t.reader.left == s.reader.off + s.reader.left
  {
    var n, a, b, c := HandOver(s);
    var d := Apply(c, Pop);
    StepKeepsInv(c, Pop, d);
    t := Apply(d, Use);
    StepKeepsInv(d, Use, t);
    ls := [PopSpare, Fill(n), PushReady, Pop, Use];
    FiveSteps(s, a, b, c, d, t, n);
  }

  lemma FiveSteps(s: State, a: State, b: State, c: State, d: State, t: State, n: nat)
    requires Enabled(s, PopSpare) && a == Apply(s, PopSpare) && Enabled(a, Fill(n)) && b == Apply(a, Fill(n))
    requires Enabled(b, PushReady) && c == Apply(b, PushReady) && Enabled(c, Pop) && d == Apply(c, Pop)
    requires Enabled(d, Use) && t == Apply(d, Use)
    ensures var ls := [PopSpare, Fill(n), PushReady, Pop, Use];
            NoSubmit(ls) && Runnable(s, ls) && Run(s, ls) == t
  {
    RunOne(s, PopSpare);
    RunOne(a, Fill(n));
    RunOne(b, PushReady);
    RunOne(c, Pop);
    RunOne(d, Use);
    RunAppend(s, [PopSpare], [Fill(n)]);
    RunAppend(s, [PopSpare] + [Fill(n)], [PushReady]);
    RunAppend(s, [PopSpare] + [Fill(n)] + [PushReady], [Pop]);
    RunAppend(s, [PopSpare] + [Fill(n)] + [PushReady] + [Pop], [Use]);
    assert [PopSpare] + [Fill(n)] + [PushReady] + [Pop] + [Use] == [PopSpare, Fill(n), PushReady, Pop, Use];
    NoSubmitHere(n);
  }

  lemma NoSubmitHere(n: nat)
    ensures NoSubmit([PopSpare, Fill(n), PushReady, Pop, Use])
  {
    assert [PopSpare, Fill(n), PushReady, Pop, Use][1..] == [Fill(n), PushReady, Pop, Use];
    assert [Fill(n), PushReady, Pop, Use][1..] == [PushReady, Pop, Use];
    assert [PushReady, Pop, Use][1..] == [Pop, Use];
    assert [Pop, Use][1..] == [Use] && [Use][1..] == [];
  }

  lemma {:induction false} NoSubmitAppend(a: seq<Label>, b: seq<Label>)
    ensures NoSubmit(a + b) <==> NoSubmit(a) && NoSubmit(b)
    decreases |a|
  {
    if a == [] {
      assert a + b == b;
    } else {
      assert (a + b)[0] == a[0] && (a + b)[1..] == a[1..] + b;
      NoSubmitAppend(a[1..], b);
    }
  }

  /** From there some schedule brings both threads to their push. */
  lemma {:induction false} Collide(s: State) returns (ls: seq<Label>)
    requires Quiet(s)
    ensures NoSubmit(ls) && Runnable(s, ls) && TwoProducers(Run(s, ls))
    decreases |s.cur.content| - s.reader.off
  {
    hide Run, Runnable;
    var front, t := OneBlock(s);
    var rest: seq<Label>;
    if t.reader.off < |t.cur.content| {
      RoomEverywhere(t.spare, t.ready, t.reader, t.worker);
      var u := Apply(t, Recycle);
      StepKeepsInv(t, Recycle, u);
      var later := Collide(u);
      RunOne(t, Recycle);
      RunAppend(t, [Recycle], later);
      assert [Recycle][1..] == [];
      NoSubmitAppend([Recycle], later);
      rest := [Recycle] + later;
    } else {
      QuietSpare(t);
      var u := Apply(t, PopSpare);
      RunOne(t, PopSpare);
      RunOne(u, ReadEmpty);
      RunAppend(t, [PopSpare], [ReadEmpty]);
      assert [PopSpare][1..] == [] && [ReadEmpty][1..] == [];
      NoSubmitAppend([PopSpare], [ReadEmpty]);
      rest := [PopSpare] + [ReadEmpty];
    }
    RunAppend(s, front, rest);
    NoSubmitAppend(front, rest);
    ls := front + rest;
  }

  /** Some run that asks only for `q` brings both threads to their push on `spare`. */
  ghost predicate Collides(q: Request) {
    exists s, ls :: Init(s) && Runnable(s, [Submit(q)] + ls) && NoSubmit(ls) && TwoProducers(Run(s, [Submit(q)] + ls))
  }

  lemma {:induction false} NoSubmitNeverCut(ls: seq<Label>)
    requires NoSubmit(ls)
    ensures NeverCut(ls)
  {
    if ls != [] { NoSubmitNeverCut(ls[1..]); }
  }

  /** The storage thread becomes a second producer on `spare`, beside the worker, if and only if the
      file ends inside the range asked for, after its first byte. */
  lemma SecondProducer(q: Request)
    ensures Collides(q) <==> CutShort(q)
  {
    if CutShort(q) {
      CutCollides(q);
    } else if Collides(q) {
      var s, ls :| Init(s) && Runnable(s, [Submit(q)] + ls) && NoSubmit(ls) && TwoProducers(Run(s, [Submit(q)] + ls));
      UncutDoesNot(q, s, ls);
    }
  }

  lemma UncutDoesNot(q: Request, s: State, ls: seq<Label>)
    requires !CutShort(q) && Init(s) && Runnable(s, [Submit(q)] + ls) && NoSubmit(ls)
    ensures !TwoProducers(Run(s, [Submit(q)] + ls))
  {
    assert ([Submit(q)] + ls)[1..] == ls;
    NoSubmitNeverCut(ls);
    OneProducer(s, [Submit(q)] + ls);
  }

  /** A fresh pipeline that has just begun on `q`. */
  lemma FreshStart(q: Request) returns (s: State, t: State)
    requires CutShort(q)
    ensures Init(s) && Runnable(s, [Submit(q), Accept]) && t == Run(s, [Submit(q), Accept]) && Quiet(t)
  {
    s := State([0, 1, 2, 3], [], [[], [], [], []], Resting, Idle, false, q, [], []);
    var a := Apply(s, Submit(q));
    t := Apply(a, Accept);
    InitInv(s);
    StepKeepsInv(s, Submit(q), a);
    StepKeepsInv(a, Accept, t);
    BothSteps(s, Submit(q), Accept);
  }

  lemma InitInv(s: State)
    requires Init(s)
    ensures Inv(s)
  {
  }

  lemma BothSteps(s: State, l: Label, m: Label)
    requires Enabled(s, l) && Enabled(Apply(s, l), m)
    ensures Runnable(s, [l, m]) && Run(s, [l, m]) == Apply(Apply(s, l), m)
  {
    RunOne(s, l);
    RunOne(Apply(s, l), m);
    RunAppend(s, [l], [m]);
    assert [l] + [m] == [l, m];
  }

  lemma AcceptSubmitsNothing(ls: seq<Label>)
    requires NoSubmit(ls)
    ensures NoSubmit([Accept] + ls)
  {
    assert ([Accept] + ls)[1..] == ls;
  }

  lemma CutCollides(q: Request)
    requires CutShort(q)
    ensures Collides(q)
  {
    hide Run, Runnable, TwoProducers, NoSubmit, Init, Quiet;
    var s, t := FreshStart(q);
    var ls := Collide(t);
    RunAppend(s, [Submit(q), Accept], ls);
    var more := [Accept] + ls;
    AcceptSubmitsNothing(ls);
    assert [Submit(q), Accept] + ls == [Submit(q)] + more;
  }
}
