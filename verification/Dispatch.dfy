/** Which worker gets a task: affinity, selection and dispatch (client/affinity.h,
    client/scheduler.h). */
module Dispatch {
  import Bits

  // ---------------------------------------------------------------------------
  // Affinity
  // ---------------------------------------------------------------------------

  type Component = x: int | 0 <= x < 256

  datatype Affinity = Affinity(structure: Component, tokens: Component, records: Component, isOpaque: bool, cold: bool)

  const COLD_COST: nat := 16
  const WALL_COST: nat := 0x10_0000

  /** The fields side by side in one word: no two share a bit, so joining them is adding them. */
  function Pack(v: Affinity): nat {
    v.structure + 0x100 * v.tokens + 0x1_0000 * v.records
    + (if v.isOpaque then 0x100_0000 else 0) + (if v.cold then 0x200_0000 else 0)
  }

  function Unpack(key: nat): Affinity {
    Affinity(key % 0x100, key / 0x100 % 0x100, key / 0x1_0000 % 0x100,
             key / 0x100_0000 % 2 == 1, key / 0x200_0000 % 2 == 1)
  }

  lemma UnpackOfPack(v: Affinity)
    ensures Pack(v) < 0x1_0000_0000 && Unpack(Pack(v)) == v
  {
    var o, c := if v.isOpaque then 1 else 0, if v.cold then 1 else 0;
    Fields(v.structure, v.tokens, v.records, o, c);
  }

  lemma Fields(s: nat, t: nat, r: nat, o: nat, c: nat)
    requires s < 0x100 && t < 0x100 && r < 0x100 && o < 2 && c < 2
    ensures var x := s + 0x100 * t + 0x1_0000 * r + 0x100_0000 * o + 0x200_0000 * c;
            && x % 0x100 == s && x / 0x100 % 0x100 == t && x / 0x1_0000 % 0x100 == r
            && x / 0x100_0000 % 2 == o && x / 0x200_0000 % 2 == c
  {
    var x := s + 0x100 * t + 0x1_0000 * r + 0x100_0000 * o + 0x200_0000 * c;
    Bits.ModUnique(x, 0x100, t + 0x100 * r + 0x1_0000 * o + 0x2_0000 * c, s);
    Bits.ModUnique(x / 0x100, 0x100, r + 0x100 * o + 0x200 * c, t);
    Bits.ModUnique(x, 0x1_0000, r + 0x100 * o + 0x200 * c, s + 0x100 * t);
    Bits.ModUnique(x / 0x1_0000, 0x100, o + 2 * c, r);
    Bits.ModUnique(x, 0x100_0000, o + 2 * c, s + 0x100 * t + 0x1_0000 * r);
    Bits.ModUnique(x / 0x100_0000, 2, c, o);
    Bits.ModUnique(x, 0x200_0000, c, s + 0x100 * t + 0x1_0000 * r + 0x100_0000 * o);
  }

  function Square(a: int): nat
  {
    assert a * a >= 0;
    a * a
  }

  function Distance(incoming: nat, resident: nat): nat {
    var l, r := Unpack(incoming), Unpack(resident);
    if r.cold then COLD_COST
    else if l.isOpaque != r.isOpaque then WALL_COST
    else if l.isOpaque && r.isOpaque then 0
    else Square(l.structure - r.structure) + Square(l.tokens - r.tokens) + Square(l.records - r.records)
  }

  /** What a task costs on a worker, by what the worker last held: 16 if it is cold, a wall between
      opaque and not, nothing between opaque ones, else three squared differences. */
  lemma DistanceMeans(l: Affinity, r: Affinity)
    ensures var d := Distance(Pack(l), Pack(r));
            var s, t, u := l.structure as int - r.structure as int, l.tokens as int - r.tokens as int, l.records as int - r.records as int;
            && (r.cold ==> d == 16)
            && (!r.cold && l.isOpaque != r.isOpaque ==> d == 0x10_0000)
            && (!r.cold && l.isOpaque && r.isOpaque ==> d == 0)
            && (!r.cold && !l.isOpaque && !r.isOpaque ==> d == s * s + t * t + u * u)
  {
    UnpackOfPack(l);
    UnpackOfPack(r);
  }

  lemma SquareBound(a: int)
    requires -255 <= a <= 255
    ensures Square(a) <= 65025
  {
    assert (255 - a) * (255 + a) == 65025 - a * a;
    assert (255 - a) * (255 + a) >= 0;
  }

  /** No distance exceeds the wall, so any worker beats the initial bound of the search; the 32-bit
      sum of squares cannot overflow. */
  lemma DistanceBelowWall(incoming: nat, resident: nat)
    ensures Distance(incoming, resident) <= WALL_COST
  {
    var l, r := Unpack(incoming), Unpack(resident);
    SquareBound(l.structure - r.structure);
    SquareBound(l.tokens - r.tokens);
    SquareBound(l.records - r.records);
  }

  // ---------------------------------------------------------------------------
  // Selection
  // ---------------------------------------------------------------------------

  const SENTINEL: nat := Bits.WORD64 - 1
  const BUSY: nat := 32
  const LIMIT: nat := 128

  /** A worker as the scheduler sees it. */
  datatype View = View(stopped: bool, occupancy: nat, warm: nat)

  predicate Idle(v: View) { !v.stopped && v.occupancy < 32 }

  predicate Open(v: View) { !v.stopped && v.occupancy < 128 }

  /** The first of the nearest workers that are live and not busy. */
  predicate Nearest(vs: seq<View>, incoming: nat, n: nat, r: nat) {
    && r < n <= |vs| && Idle(vs[r])
    && (forall i :: 0 <= i < n && Idle(vs[i]) ==> Distance(incoming, vs[r].warm) <= Distance(incoming, vs[i].warm))
    && (forall i :: 0 <= i < r && Idle(vs[i]) ==> Distance(incoming, vs[r].warm) < Distance(incoming, vs[i].warm))
  }

  /** The first of the least loaded workers that are live. */
  predicate LeastLoaded(vs: seq<View>, n: nat, r: nat) {
    && r < n <= |vs| && Open(vs[r])
    && (forall i :: 0 <= i < n && Open(vs[i]) ==> vs[r].occupancy <= vs[i].occupancy)
    && (forall i :: 0 <= i < r && Open(vs[i]) ==> vs[r].occupancy < vs[i].occupancy)
  }

  method SelectWorker(vs: seq<View>, incoming: nat) returns (r: nat)
    requires |vs| < SENTINEL
    ensures (exists i :: 0 <= i < |vs| && Idle(vs[i])) ==> Nearest(vs, incoming, |vs|, r)
    ensures (forall i :: 0 <= i < |vs| ==> !Idle(vs[i])) && (exists i :: 0 <= i < |vs| && Open(vs[i]))
            ==> LeastLoaded(vs, |vs|, r)
    ensures (forall i :: 0 <= i < |vs| ==> !Open(vs[i])) ==> r == SENTINEL
  {
    var chosen: nat, minIdx: nat, minCap: nat := SENTINEL, SENTINEL, LIMIT;
    var chosenDistance: nat := WALL_COST + 1;
    for n := 0 to |vs|
      invariant chosen == SENTINEL ==> chosenDistance == WALL_COST + 1 && forall i :: 0 <= i < n ==> !Idle(vs[i])
      invariant chosen != SENTINEL ==> Nearest(vs, incoming, n, chosen) && chosenDistance == Distance(incoming, vs[chosen].warm)
      invariant minIdx == SENTINEL ==> minCap == LIMIT && forall i :: 0 <= i < n ==> !Open(vs[i])
      invariant minIdx != SENTINEL ==> LeastLoaded(vs, n, minIdx) && minCap == vs[minIdx].occupancy
    {
      var w := vs[n];
      if w.stopped {
        continue;
      }
      if w.occupancy < minCap {
        minIdx, minCap := n, w.occupancy;
      }
      if w.occupancy >= BUSY {
        continue;
      }
      var distance := Distance(incoming, w.warm);
      DistanceBelowWall(incoming, w.warm);
      if distance < chosenDistance {
        chosenDistance, chosen := distance, n;
      }
    }
    if chosen != SENTINEL {
      return chosen;
    }
    return minIdx;
  }

  // ---------------------------------------------------------------------------
  // The order workers are tried in
  // ---------------------------------------------------------------------------

  /** The k-th worker tried, in 64-bit arithmetic. */
  function Order(start: nat, n: nat, k: nat): (i: nat)
    requires n > 0
    ensures i < n
  {
    (start + k) % Bits.WORD64 % n
  }

  ghost predicate Visits(start: nat, n: nat, i: nat)
    requires n > 0
  {
    exists k :: 0 <= k < n && Order(start, n, k) == i
  }

  lemma NoWrap(start: nat, n: nat, k: nat)
    requires n > 0 && start + k < Bits.WORD64
    ensures Order(start, n, k) == (start + k) % n
  {
  }

  /** Some of `n` consecutive numbers has residue `i`. */
  lemma Residue(start: nat, n: nat, i: nat) returns (k: nat)
    requires 0 <= i < n
    ensures k < n && (start + k) % n == i
  {
    var q, r := start / n, start % n;
    assert start == q * n + r;
    if i >= r {
      k := i - r;
      Bits.ModUnique(start + k, n, q, i);
    } else {
      k := i + n - r;
      assert (q + 1) * n == q * n + n;
      Bits.ModUnique(start + k, n, q + 1, i);
    }
  }

  /** Past the end of the 64-bit range the order starts over at worker 0. */
  lemma Wrapped(start: nat, n: nat, k: nat)
    requires 0 < n <= Bits.WORD64 && start < Bits.WORD64 && k < n && start + k >= Bits.WORD64
    ensures Order(start, n, k) == start + k - Bits.WORD64
  {
    Bits.ModUnique(start + k, Bits.WORD64, 1, start + k - Bits.WORD64);
    Bits.ModUnique(start + k - Bits.WORD64, n, 0, start + k - Bits.WORD64);
  }

  /** Before the end: `m` numbers below 2^64, with 2^64 = c mod n. */
  lemma BeforeEnd(n: nat, m: nat, k: nat)
    requires 0 < m < n < Bits.WORD64 && k < m
    ensures var c := Bits.WORD64 % n;
            Order(Bits.WORD64 - m, n, k) == if c + k >= m then c + k - m else n + c + k - m
  {
    var q, c := Bits.WORD64 / n, Bits.WORD64 % n;
    var x := Bits.WORD64 - m + k;
    NoWrap(Bits.WORD64 - m, n, k);
    assert Bits.WORD64 == n * q + c;
    if c + k >= m {
      Bits.ModUnique(x, n, q, c + k - m);
    } else {
      assert n * (q - 1) == n * q - n;
      Bits.ModUnique(x, n, q - 1, n + c + k - m);
    }
  }

  lemma DividedWraps(start: nat, n: nat, k: nat)
    requires 0 < n <= Bits.WORD64 && start < Bits.WORD64 && k < n && Bits.WORD64 % n == 0
    ensures Order(start, n, k) == (start + k) % n
  {
    if start + k >= Bits.WORD64 {
      Wrapped(start, n, k);
      var q := Bits.WORD64 / n;
      assert Bits.WORD64 == n * q;
      Bits.ModUnique(start + k, n, q, start + k - Bits.WORD64);
    } else {
      NoWrap(start, n, k);
    }
  }

  /** The worker left out when the range wraps and `n` does not divide 2^64. */
  function Missed(start: nat, n: nat): nat
    requires n > 0
  {
    var m, c := Bits.WORD64 - start, Bits.WORD64 % n;
    if 0 <= m <= c then n - 1 else if 0 <= n - m + c - 1 then n - m + c - 1 else 0
  }

  lemma MissedIsMissed(start: nat, n: nat, k: nat)
    requires 0 < n < Bits.WORD64 && start < Bits.WORD64 < start + n && Bits.WORD64 % n != 0 && k < n
    ensures Missed(start, n) < n && Order(start, n, k) != Missed(start, n)
  {
    var m := Bits.WORD64 - start;
    if k < m {
      BeforeEnd(n, m, k);
    } else {
      Wrapped(start, n, k);
    }
  }

  /** Every worker is tried, from any start, if and only if the indices do not run past 2^64 or the
      number of workers divides it. */
  lemma VisitsAll(start: nat, n: nat)
    requires 0 < n < Bits.WORD64 && start < Bits.WORD64
    ensures (forall i :: 0 <= i < n ==> Visits(start, n, i)) <==> start + n <= Bits.WORD64 || Bits.WORD64 % n == 0
  {
    if start + n <= Bits.WORD64 || Bits.WORD64 % n == 0 {
      forall i | 0 <= i < n ensures Visits(start, n, i) {
        var k := Residue(start, n, i);
        if Bits.WORD64 % n == 0 { DividedWraps(start, n, k); } else { NoWrap(start, n, k); }
      }
    } else {
      forall k | 0 <= k < n ensures Order(start, n, k) != Missed(start, n) && Missed(start, n) < n {
        MissedIsMissed(start, n, k);
      }
      assert Order(start, n, 0) != Missed(start, n);
      assert !Visits(start, n, Missed(start, n));
    }
  }

  /** From the index of a worker every worker is tried. */
  lemma RealStartVisitsAll(start: nat, n: nat)
    requires start < n <= 0x8000_0000_0000_0000
    ensures forall i :: 0 <= i < n ==> Visits(start, n, i)
  {
    VisitsAll(start, n);
  }

  /** From the index of a worker no worker is tried twice. */
  lemma RealStartVisitsOnce(start: nat, n: nat, j: nat, k: nat)
    requires start < n <= 0x8000_0000_0000_0000 && j < k < n
    ensures Order(start, n, j) != Order(start, n, k)
  {
    hide Order;
    NoWrap(start, n, j);
    NoWrap(start, n, k);
    Bits.WrapInjective(start + j, start + k, n);
  }

  /** From the value that stands for "no worker" the last worker is left out, unless the number of
      workers divides 2^64. */
  lemma SentinelMissesLast(n: nat)
    requires 0 < n < Bits.WORD64 - 1
    ensures forall i :: 0 <= i < n - 1 ==> Visits(SENTINEL, n, i)
    ensures Visits(SENTINEL, n, n - 1) <==> Bits.WORD64 % n == 0
  {
    forall i | 0 <= i < n - 1 ensures Visits(SENTINEL, n, i) {
      Wrapped(SENTINEL, n, i + 1);
    }
    VisitsAll(SENTINEL, n);
  }

  // ---------------------------------------------------------------------------
  // Dispatch
  // ---------------------------------------------------------------------------

  datatype WorkerState = Pending | Ready | Failed

  /** How the workers answer during one dispatch. */
  datatype Answers = Answers(initOk: nat -> bool, stopped: nat -> bool, accepts: nat -> bool)

  predicate Available(state: WorkerState, a: Answers, i: nat) {
    (if state.Pending? then a.initOk(i) else state.Ready?) && !a.stopped(i) && a.accepts(i)
  }

  function Settled(state: WorkerState, a: Answers, i: nat): WorkerState {
    if state.Pending? then (if a.initOk(i) then Ready else Failed) else state
  }

  class Scheduler<Task> {
    var states: seq<WorkerState>
    var queues: seq<seq<Task>>

    constructor (n: nat)
      requires n < Bits.WORD64
      ensures Valid() && |states| == n && forall i :: 0 <= i < n ==> states[i] == Pending && queues[i] == []
    {
      states := seq(n, _ => Pending);
      queues := seq(n, _ => []);
    }

    ghost predicate Valid()
      reads this
    {
      |states| == |queues| < Bits.WORD64
    }

    /** A unit of work goes to the first worker in the order tried that can take it, to none other, and to
        none only if none of those tried can. Exactly the workers tried are settled. */
    method Dispatch(start: nat, t: Task, a: Answers) returns (ok: bool)
      requires Valid() && start < Bits.WORD64
      modifies this
      ensures Valid() && |states| == old(|states|)
      ensures ok ==> exists k :: 0 <= k < |states| && First(old(states), a, start, k) && Tried(old(states), states, a, start, k + 1)
                                 && queues == old(queues)[Order(start, |states|, k) := old(queues)[Order(start, |states|, k)] + [t]]
      ensures !ok ==> |states| == 0 || Tried(old(states), states, a, start, |states|)
      ensures !ok ==> queues == old(queues) && forall k :: 0 <= k < |states| ==> !Available(old(states)[Order(start, |states|, k)], a, Order(start, |states|, k))
      ensures !ok && start < |states| <= 0x8000_0000_0000_0000 ==> forall i :: 0 <= i < |states| ==> !Available(old(states)[i], a, i)
    {
      hide Order;
      var n := |states|;
      for k := 0 to n
        invariant |states| == n && queues == old(queues)
        invariant n > 0 ==> Tried(old(states), states, a, start, k)
        invariant forall j :: 0 <= j < k ==> !Available(old(states)[Order(start, n, j)], a, Order(start, n, j))
      {
        var i := Order(start, n, k);
        if states[i] == Pending {
          if !a.initOk(i) {
            states := states[i := Failed];
            continue;
          }
          states := states[i := Ready];
        }
        if states[i] == Failed || a.stopped(i) {
          continue;
        }
        if a.accepts(i) {
          queues := queues[i := queues[i] + [t]];
          assert First(old(states), a, start, k);
          return true;
        }
      }
      if start < n <= 0x8000_0000_0000_0000 {
        RealStartVisitsAll(start, n);
        forall i | 0 <= i < n ensures !Available(old(states)[i], a, i) {
          assert Visits(start, n, i);
        }
      }
      return false;
    }
  }

  /** The first `n` workers in the order tried have been asked, and no others. */
  ghost predicate Tried(before: seq<WorkerState>, after: seq<WorkerState>, a: Answers, start: nat, n: nat) {
    && |before| == |after| > 0
    && (forall k :: 0 <= k < n ==> var i := Order(start, |before|, k); after[i] == Settled(before[i], a, i))
    && (forall i :: 0 <= i < |before| && after[i] != before[i] ==> exists k :: 0 <= k < n && Order(start, |before|, k) == i)
  }

  ghost predicate First(states: seq<WorkerState>, a: Answers, start: nat, k: nat) {
    && k < |states|
    && Available(states[Order(start, |states|, k)], a, Order(start, |states|, k))
    && forall j :: 0 <= j < k ==> !Available(states[Order(start, |states|, j)], a, Order(start, |states|, j))
  }
}
