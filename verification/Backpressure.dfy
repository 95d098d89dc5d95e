/** Pausing and resuming the socket (server/connection.cxx) around the channel's reads
    (server/byte_channel.cxx), as an interleaving of the loop thread and the consumer thread.

    Only sizes matter here. The reader holds the channel lock for a whole `read_exact`, giving
    it up only while it waits for data. */
module Backpressure {

  /** Water marks, and the largest count any `read_exact` asks for. */
  datatype Config = Config(low: nat, high: nat, maxCount: nat)

  /** The socket callback hands over `left` more pieces: push one, look at the level, maybe pause. */
  datatype Loop = LIdle | LPush(left: nat) | LCheck(left: nat) | LPause(left: nat)

  datatype Reader = RIdle | RHold(need: nat, signaled: bool) | RWaiting(need: nat, signaled: bool)

  datatype State = State(
    blocks: seq<nat>,
    buffered: nat,
    open: bool,
    paused: bool,
    resumePending: bool,
    loop: Loop,
    reader: Reader)
  {
    predicate LockFree() { !reader.RHold? }
  }

  datatype Label =
    | SocketReadable(pieces: nat)  // libuv reads only while not paused
    | LoopStep(size: nat)          // `size` is the length of the piece pushed, if this step pushes
    | HandleResume
    | CloseChannel
    | CallReadExact(count: nat)
    | ReaderStep

  predicate Enabled(c: Config, s: State, l: Label) {
    match l
    case SocketReadable(pieces) => s.loop.LIdle? && !s.paused && s.open && pieces > 0
    case LoopStep(size) => !s.loop.LIdle? && (s.LockFree() || s.loop.LPause?) && size > 0
    case HandleResume => s.loop.LIdle? && s.resumePending
    case CloseChannel => s.loop.LIdle? && s.LockFree()
    case CallReadExact(count) => s.reader.RIdle? && 0 < count <= c.maxCount
    case ReaderStep => s.reader.RHold? || (s.reader.RWaiting? && (s.blocks != [] || !s.open))
  }

  function Apply(c: Config, s: State, l: Label): State
    requires Enabled(c, s, l)
  {
    match l
    case SocketReadable(pieces) => s.(loop := LPush(pieces))
    case LoopStep(size) => StepLoop(c, s, size)
    case HandleResume => s.(resumePending := false, paused := false)
    case CloseChannel => s.(open := false)
    case CallReadExact(count) => s.(reader := RHold(count, false))
    case ReaderStep => StepReader(c, s)
  }

  function After(left: nat): Loop { if left == 0 then LIdle else LPush(left) }

  function StepLoop(c: Config, s: State, size: nat): State
    requires !s.loop.LIdle?
  {
    match s.loop
    case LPush(left) =>
      var next := LCheck(if left == 0 then 0 else left - 1);
      if s.open then s.(blocks := s.blocks + [size], buffered := s.buffered + size, loop := next)
      else s.(loop := next)
    case LCheck(left) => s.(loop := if !s.paused && s.buffered >= c.high then LPause(left) else After(left))
    case LPause(left) => s.(paused := true, loop := After(left))
  }

  /** One pass of the copying loop, or of the wait before it. */
  function StepReader(c: Config, s: State): State
    requires !s.reader.RIdle?
  {
    var need, signaled := s.reader.need, s.reader.signaled;
    if need == 0 then s.(reader := RIdle)
    else if s.blocks == [] then s.(reader := if s.open then RWaiting(need, signaled) else RIdle)
    else
      var take := if need < s.blocks[0] then need else s.blocks[0];
      var left := s.blocks[0] - take;
      var buffered := if s.buffered < take then 0 else s.buffered - take;
      var fires := !signaled && buffered <= c.low;
      s.(blocks := if left == 0 then s.blocks[1..] else s.blocks[0 := left],
         buffered := buffered,
         resumePending := s.resumePending || fires,
         reader := if need == take then RIdle else RHold(need - take, signaled || fires))
  }

  const INITIAL := State([], 0, true, false, false, LIdle, RIdle)

  ghost predicate Runnable(c: Config, s: State, ls: seq<Label>)
    decreases |ls|
  {
    ls == [] || (Enabled(c, s, ls[0]) && Runnable(c, Apply(c, s, ls[0]), ls[1..]))
  }

  ghost function Run(c: Config, s: State, ls: seq<Label>): State
    requires Runnable(c, s, ls)
    decreases |ls|
  {
    if ls == [] then s else Run(c, Apply(c, s, ls[0]), ls[1..])
  }

  ghost predicate Reachable(c: Config, s: State) {
    exists ls :: Runnable(c, INITIAL, ls) && Run(c, INITIAL, ls) == s
  }

  /** Paused with nothing on the way to resume it. */
  ghost predicate Stalled(s: State) { s.paused && !s.resumePending && s.open }

  /** The socket is paused for good: the reader can only wait for bytes that will not come. */
  ghost predicate Wedged(s: State) { Stalled(s) && s.loop.LIdle? && s.blocks == [] }

  /** The level at which the loop pauses: a piece is never empty, so a mark of zero acts as one. */
  function Trigger(c: Config): nat { if c.high == 0 then 1 else c.high }

  // ---------------------------------------------------------------------------
  // The invariant, for a reserve of `slack` bytes
  // ---------------------------------------------------------------------------

  function Sum(blocks: seq<nat>): nat { if blocks == [] then 0 else blocks[0] + Sum(blocks[1..]) }

  lemma {:induction false} SumSnoc(blocks: seq<nat>, n: nat)
    ensures Sum(blocks + [n]) == Sum(blocks) + n
  {
    if blocks == [] {
      assert blocks + [n] == [n];
    } else {
      SumSnoc(blocks[1..], n);
      assert (blocks + [n])[1..] == blocks[1..] + [n];
    }
  }

  ghost predicate Sizes(s: State) {
    && s.buffered == Sum(s.blocks)
    && forall i :: 0 <= i < |s.blocks| ==> s.blocks[i] > 0
  }

  /** What a call that has used up its one signal may still drain. */
  function Debt(r: Reader): nat { if !r.RIdle? && r.signaled then r.need else 0 }

  /** Once pausing is decided and no resume is due, more than `slack` bytes survive the current call. */
  ghost predicate Inv(c: Config, s: State, slack: nat) {
    && Sizes(s)
    && (s.open && (s.paused || s.loop.LPause?) && !s.resumePending ==> s.buffered > slack + Debt(s.reader))
    && (s.reader.RIdle? || s.reader.need <= c.maxCount - (if s.reader.signaled then 1 else 0))
    && (c.maxCount <= 1 && s.loop.LCheck? && s.open ==> s.buffered > 0 || s.resumePending)
  }

  lemma TakeKeepsSizes(s: State, take: nat)
    requires Sizes(s) && s.blocks != [] && 0 < take <= s.blocks[0]
    ensures s.buffered >= take
    ensures var left := s.blocks[0] - take;
            Sum(if left == 0 then s.blocks[1..] else s.blocks[0 := left]) == s.buffered - take
  {
    var left := s.blocks[0] - take;
    assert s.blocks[0 := left][1..] == s.blocks[1..];
  }

  lemma ReaderKeepsInv(c: Config, s: State, slack: nat)
    requires Inv(c, s, slack) && slack <= c.low && Enabled(c, s, ReaderStep)
    ensures Inv(c, StepReader(c, s), slack)
  {
    if s.reader.need > 0 && s.blocks != [] {
      TakeKeepsSizes(s, if s.reader.need < s.blocks[0] then s.reader.need else s.blocks[0]);
    }
  }

  lemma LoopKeepsInv(c: Config, s: State, size: nat, slack: nat)
    requires Inv(c, s, slack) && slack + c.maxCount <= Trigger(c) && c.maxCount > 0
    requires Enabled(c, s, LoopStep(size))
    ensures Inv(c, StepLoop(c, s, size), slack)
  {
    SumSnoc(s.blocks, size);
  }

  lemma {:induction false} RunKeepsInv(c: Config, s: State, ls: seq<Label>, slack: nat)
    requires slack <= c.low && slack + c.maxCount <= Trigger(c) && c.maxCount > 0
    requires Inv(c, s, slack) && Runnable(c, s, ls)
    ensures Inv(c, Run(c, s, ls), slack)
    decreases |ls|
  {
    if ls != [] {
      match ls[0] {
        case ReaderStep => ReaderKeepsInv(c, s, slack);
        case LoopStep(size) => LoopKeepsInv(c, s, size, slack);
        case _ =>
      }
      RunKeepsInv(c, Apply(c, s, ls[0]), ls[1..], slack);
    }
  }

  lemma ReachableInv(c: Config, s: State, slack: nat)
    requires slack <= c.low && slack + c.maxCount <= Trigger(c) && c.maxCount > 0
    requires Reachable(c, s)
    ensures Inv(c, s, slack)
  {
    var ls :| Runnable(c, INITIAL, ls) && Run(c, INITIAL, ls) == s;
    RunKeepsInv(c, INITIAL, ls, slack);
  }

  // ---------------------------------------------------------------------------
  // Bad runs when a read may be too large
  // ---------------------------------------------------------------------------

  lemma {:induction false} RunSnoc(c: Config, s: State, ls: seq<Label>, l: Label)
    requires Runnable(c, s, ls) && Enabled(c, Run(c, s, ls), l)
    ensures Runnable(c, s, ls + [l]) && Run(c, s, ls + [l]) == Apply(c, Run(c, s, ls), l)
    decreases |ls|
  {
    if ls == [] {
      assert ls + [l] == [l] && [l][1..] == [];
      assert Runnable(c, Apply(c, s, l), []);
    } else {
      RunSnoc(c, Apply(c, s, ls[0]), ls[1..], l);
      assert (ls + [l])[1..] == ls[1..] + [l];
    }
  }

  lemma Extend(c: Config, s: State, l: Label) returns (s': State)
    requires Reachable(c, s) && Enabled(c, s, l)
    ensures s' == Apply(c, s, l) && Reachable(c, s')
  {
    s' := Apply(c, s, l);
    var ls :| Runnable(c, INITIAL, ls) && Run(c, INITIAL, ls) == s;
    RunSnoc(c, INITIAL, ls, l);
  }

  lemma InitialReachable(c: Config)
    ensures Reachable(c, INITIAL)
  {
    assert Runnable(c, INITIAL, []) && Run(c, INITIAL, []) == INITIAL;
  }

  /** An early byte spends the call's only signal; then the buffer fills, the socket pauses, and
      the same call drains `n` bytes without a further signal. */
  lemma DrainUnsignaled(c: Config, n: nat) returns (s: State)
    requires 0 < n <= Trigger(c) && n + 1 <= c.maxCount
    ensures Reachable(c, s) && Stalled(s) && s.loop.LIdle?
    ensures s.buffered == Trigger(c) - n && (n == Trigger(c) ==> s.blocks == [])
  {
    s := SpendSignal(c, n);
    s := Extend(c, s, SocketReadable(1));
    s := Extend(c, s, LoopStep(Trigger(c)));
    assert s.blocks == [Trigger(c)];
    s := Extend(c, s, LoopStep(1));
    s := Extend(c, s, LoopStep(1));
    s := Extend(c, s, ReaderStep);
  }

  /** The call's only signal is spent on an early byte, and the resume it asked for has been handled. */
  lemma SpendSignal(c: Config, n: nat) returns (s: State)
    requires 0 < n <= Trigger(c) && n + 1 <= c.maxCount
    ensures Reachable(c, s) && s == State([], 0, true, false, false, LIdle, RWaiting(n, true))
  {
    InitialReachable(c);
    s := Extend(c, INITIAL, CallReadExact(n + 1));
    s := Extend(c, s, ReaderStep);
    s := Extend(c, s, SocketReadable(1));
    s := Extend(c, s, LoopStep(1));
    assert s.blocks == [1];
    s := Extend(c, s, ReaderStep);
    s := Extend(c, s, ReaderStep);
    s := Extend(c, s, LoopStep(1));
    if c.high == 0 {
      s := Extend(c, s, LoopStep(1));
    }
    s := Extend(c, s, HandleResume);
  }

  /** With the pause mark at or below the resume mark, pausing alone is already too low. */
  lemma PauseBelowLow(c: Config) returns (s: State)
    requires Trigger(c) <= c.low
    ensures Reachable(c, s) && Stalled(s) && s.buffered <= c.low
  {
    InitialReachable(c);
    s := Extend(c, INITIAL, SocketReadable(1));
    s := Extend(c, s, LoopStep(Trigger(c)));
    s := Extend(c, s, LoopStep(1));
    s := Extend(c, s, LoopStep(1));
  }

  // ---------------------------------------------------------------------------
  // Exact conditions
  // ---------------------------------------------------------------------------

  /** While paused with no resume due, more than `low` bytes are buffered: exactly when no read
      asks for more than the distance between the marks. */
  lemma StaysAboveLowWater(c: Config)
    requires c.maxCount > 0
    ensures (forall s :: Reachable(c, s) && Stalled(s) ==> s.buffered > c.low) <==> c.maxCount + c.low <= Trigger(c)
  {
    if c.maxCount + c.low <= Trigger(c) {
      forall s | Reachable(c, s) && Stalled(s) ensures s.buffered > c.low {
        ReachableInv(c, s, c.low);
      }
    } else if Trigger(c) <= c.low {
      var s := PauseBelowLow(c);
    } else {
      var s := DrainUnsignaled(c, Trigger(c) - c.low);
    }
  }

  /** The connection can never wedge: exactly when no read asks for more than the pause mark. */
  lemma NeverWedges(c: Config)
    requires c.maxCount > 0
    ensures (forall s :: Reachable(c, s) ==> !Wedged(s)) <==> c.maxCount <= Trigger(c)
  {
    if c.maxCount <= Trigger(c) {
      forall s | Reachable(c, s) ensures !Wedged(s) {
        ReachableInv(c, s, 0);
      }
    } else {
      var s := DrainUnsignaled(c, Trigger(c));
    }
  }

  /** Default marks: safe for every block this client sends, not for every block the server takes. */
  lemma DefaultMarks(s: State)
    ensures var ours := Config(2 * 1024 * 1024, 8 * 1024 * 1024, 256 * 1024 + 16 * 1024 + 1024);
            Reachable(ours, s) && Stalled(s) ==> s.buffered > ours.low
    ensures var largest := Config(2 * 1024 * 1024, 8 * 1024 * 1024, 64 * 1024 * 1024);
            exists bad :: Reachable(largest, bad) && Wedged(bad)
  {
    StaysAboveLowWater(Config(2 * 1024 * 1024, 8 * 1024 * 1024, 256 * 1024 + 16 * 1024 + 1024));
    NeverWedges(Config(2 * 1024 * 1024, 8 * 1024 * 1024, 64 * 1024 * 1024));
  }
}
