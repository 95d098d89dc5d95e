/** The split of a big file into chunk tasks (client/scheduler.h), in 64-bit arithmetic. */
module Split {
  import Bits

  datatype Kind = WholeFile | Chunk

  datatype Task = Task(kind: Kind, offset: nat, len: nat, fileSize: nat)

  predicate Covers(t: Task, x: nat) { t.offset <= x < t.offset + t.len }

  /** The tasks lie end to end from `from` to `to`. */
  predicate Tile(ts: seq<Task>, from: nat, to: nat) {
    if ts == [] then from == to
    else ts[0].offset == from && ts[0].len > 0 && Tile(ts[1..], from + ts[0].len, to)
  }

  lemma {:induction false} TileSnoc(ts: seq<Task>, from: nat, mid: nat, t: Task)
    requires Tile(ts, from, mid) && t.offset == mid && t.len > 0
    ensures Tile(ts + [t], from, mid + t.len)
  {
    if ts == [] {
      assert ts + [t] == [t];
    } else {
      assert (ts + [t])[1..] == ts[1..] + [t];
      TileSnoc(ts[1..], from + ts[0].len, mid, t);
    }
  }

  lemma {:induction false} TileBounds(ts: seq<Task>, from: nat, to: nat, i: nat)
    requires Tile(ts, from, to) && i < |ts|
    ensures from <= ts[i].offset && ts[i].offset + ts[i].len <= to
  {
    if i > 0 {
      TileBounds(ts[1..], from + ts[0].len, to, i - 1);
    } else if |ts| > 1 {
      TileBounds(ts[1..], from + ts[0].len, to, |ts| - 2);
    }
  }

  /** Every byte of the file is in exactly one task. */
  lemma {:induction false} TilePartitions(ts: seq<Task>, from: nat, to: nat, x: nat)
    requires Tile(ts, from, to) && from <= x < to
    ensures exists i :: 0 <= i < |ts| && Covers(ts[i], x)
    ensures forall i, j :: 0 <= i < |ts| && 0 <= j < |ts| && Covers(ts[i], x) && Covers(ts[j], x) ==> i == j
  {
    var rest, after := ts[1..], from + ts[0].len;
    forall i | 0 < i < |ts| ensures ts[i] == rest[i - 1] && after <= ts[i].offset {
      TileBounds(rest, after, to, i - 1);
    }
    if x < after {
      assert Covers(ts[0], x);
    } else {
      TilePartitions(rest, after, to, x);
      var i :| 0 <= i < |rest| && Covers(rest[i], x);
      assert Covers(ts[i + 1], x);
    }
  }

  // ---------------------------------------------------------------------------
  // The loop, pass by pass
  // ---------------------------------------------------------------------------

  type Word = x: int | 0 <= x < Bits.WORD64

  /** The loop variable after n passes. */
  function Offset(c: Word, n: nat): Word {
    if n == 0 then 0 else (Offset(c, n - 1) + c) % Bits.WORD64
  }

  /** The loop is still going after n passes, or has just been left. */
  predicate Reaches(size: Word, c: Word, n: nat) { forall k :: 0 <= k < n ==> Offset(c, k) < size }

  predicate EndsAfter(size: Word, c: Word, n: nat) { Reaches(size, c, n) && Offset(c, n) >= size }

  function ChunkAt(size: Word, c: Word, offset: Word): Task
    requires offset <= size
  {
    Task(Chunk, offset, if c < size - offset then c else size - offset, size)
  }

  /** The tasks of the first n passes. */
  function Tasks(size: Word, c: Word, n: nat): (ts: seq<Task>)
    requires Reaches(size, c, n)
    ensures |ts| == n
  {
    if n == 0 then [] else Tasks(size, c, n - 1) + [ChunkAt(size, c, Offset(c, n - 1))]
  }

  /** `enqueue`, observed for at most `passes` passes of its loop, since the loop need not end. A
      file at least as big as the threshold becomes chunks, any other one unit. */
  method Enqueue(size: Word, threshold: Word, chunkSize: Word, passes: nat) returns (tasks: seq<Task>, ended: bool)
    ensures size < threshold ==> ended && tasks == [Task(WholeFile, 0, size, size)]
    ensures size >= threshold && ended ==>
              exists n :: 0 <= n <= passes && EndsAfter(size, chunkSize, n) && tasks == Tasks(size, chunkSize, n)
    ensures size >= threshold && !ended ==>
              Reaches(size, chunkSize, passes) && Offset(chunkSize, passes) < size && tasks == Tasks(size, chunkSize, passes)
  {
    if size < threshold {
      return [Task(WholeFile, 0, size, size)], true;
    }
    tasks := [];
    var offset: Word := 0;
    for n := 0 to passes
      invariant Reaches(size, chunkSize, n) && offset == Offset(chunkSize, n) && tasks == Tasks(size, chunkSize, n)
    {
      if offset >= size {
        return tasks, true;
      }
      tasks := tasks + [ChunkAt(size, chunkSize, offset)];
      offset := (offset + chunkSize) % Bits.WORD64;
    }
    ended := offset >= size;
  }

  // ---------------------------------------------------------------------------
  // When the chunks are the file
  // ---------------------------------------------------------------------------

  /** The number of chunks a file needs. */
  function Needed(size: Word, c: Word): nat
    requires c > 0
  {
    (size + c - 1) / c
  }

  lemma NeededBounds(size: Word, c: Word)
    requires c > 0 && size > 0
    ensures var n := Needed(size, c); n > 0 && (n - 1) * c < size <= n * c && n * c < size + c
  {
    var x, n := size + c - 1, Needed(size, c);
    assert x == c * n + x % c;
    assert (n - 1) * c == n * c - c;
    assert n * c >= size;
    assert n == 0 ==> n * c == 0;
  }

  /** Without a wrap the offsets are the multiples of the chunk size. */
  lemma {:induction false} NoWrapOffset(c: Word, n: nat)
    requires n * c < Bits.WORD64
    ensures Offset(c, n) == n * c
  {
    if n > 0 {
      assert (n - 1) * c == n * c - c;
      NoWrapOffset(c, n - 1);
      Bits.ModUnique(n * c, Bits.WORD64, 0, n * c);
    }
  }

  lemma MulMono(a: nat, b: nat, c: nat)
    requires a <= b
    ensures a * c <= b * c
  {
    assert b * c == a * c + (b - a) * c;
  }

  /** Up to the last chunk the loop lays chunks end to end. */
  lemma {:induction false} FrontTiles(size: Word, c: Word, n: nat)
    requires c > 0 && size > 0 && n < Needed(size, c)
    ensures Reaches(size, c, n + 1) && Offset(c, n) == n * c && n * c < size && Tile(Tasks(size, c, n), 0, n * c)
  {
    NeededBounds(size, c);
    MulMono(n, Needed(size, c) - 1, c);
    NoWrapOffset(c, n);
    if n > 0 {
      FrontTiles(size, c, n - 1);
      assert (n - 1) * c == n * c - c;
      TileSnoc(Tasks(size, c, n - 1), 0, (n - 1) * c, ChunkAt(size, c, Offset(c, n - 1)));
    }
  }

  lemma AllTiles(size: Word, c: Word)
    requires c > 0 && size > 0
    ensures var n := Needed(size, c);
            n > 0 && Reaches(size, c, n) && Tile(Tasks(size, c, n), 0, size) && Offset(c, n) == n * c % Bits.WORD64
  {
    var n := Needed(size, c);
    NeededBounds(size, c);
    FrontTiles(size, c, n - 1);
    assert (n - 1) * c == n * c - c;
    TileSnoc(Tasks(size, c, n - 1), 0, (n - 1) * c, ChunkAt(size, c, Offset(c, n - 1)));
  }

  /** A tiling of the whole file has no room for one more chunk. */
  lemma {:induction false} TilingIsFull(ts: seq<Task>, from: nat, to: nat, n: nat)
    requires Tile(ts, from, to) && n <= |ts| && Tile(ts[..n], from, to)
    ensures n == |ts|
  {
    if n > 0 {
      assert ts[..n][1..] == ts[1..][..n - 1];
      TilingIsFull(ts[1..], from + ts[0].len, to, n - 1);
    } else if |ts| > 0 {
      TileBounds(ts, from, to, 0);
    }
  }

  lemma {:induction false} TasksPrefix(size: Word, c: Word, n: nat, m: nat)
    requires n <= m && Reaches(size, c, m)
    ensures Reaches(size, c, n) && Tasks(size, c, m)[..n] == Tasks(size, c, n)
  {
    if n < m {
      TasksPrefix(size, c, n, m - 1);
      assert Tasks(size, c, m)[..n] == Tasks(size, c, m - 1)[..n];
    }
  }

  /** The loop ends and its chunks are the file, each byte once. */
  ghost predicate SplitsExactly(size: Word, c: Word) {
    exists n :: 0 <= n && EndsAfter(size, c, n) && Tile(Tasks(size, c, n), 0, size)
  }

  /** They are if and only if the file is empty, or the offset after the last chunk still fits in 64
      bits. */
  lemma SplitCondition(size: Word, c: Word)
    ensures SplitsExactly(size, c) <==> size == 0 || (c > 0 && Needed(size, c) * c < Bits.WORD64)
  {
    if size == 0 {
      assert EndsAfter(size, c, 0) && Tile(Tasks(size, c, 0), 0, size);
    } else if c == 0 {
      forall n: nat ensures !EndsAfter(size, c, n) { ZeroNeverEnds(size, n); }
    } else {
      AllTiles(size, c);
      NeededBounds(size, c);
      var n := Needed(size, c);
      if n * c < Bits.WORD64 {
        Bits.ModUnique(n * c, Bits.WORD64, 0, n * c);
        assert EndsAfter(size, c, n);
      } else {
        Bits.ModUnique(n * c, Bits.WORD64, 1, n * c - Bits.WORD64);
        forall m: nat | EndsAfter(size, c, m) ensures !Tile(Tasks(size, c, m), 0, size) {
          WrappedIsNoTiling(size, c, n, m);
        }
      }
    }
  }

  /** Files and chunks of ordinary sizes. */
  lemma OrdinarySplit(size: Word, c: Word)
    requires size < 0x8000_0000_0000_0000 && 0 < c <= 0x8000_0000_0000_0000
    ensures SplitsExactly(size, c)
  {
    SplitCondition(size, c);
    if size > 0 {
      NeededBounds(size, c);
    }
  }

  lemma WrappedIsNoTiling(size: Word, c: Word, n: nat, m: nat)
    requires Reaches(size, c, n) && Tile(Tasks(size, c, n), 0, size) && Offset(c, n) < size && EndsAfter(size, c, m)
    ensures !Tile(Tasks(size, c, m), 0, size)
  {
    if m > n && Tile(Tasks(size, c, m), 0, size) {
      TasksPrefix(size, c, n, m);
      TilingIsFull(Tasks(size, c, m), 0, size, n);
    }
  }

  /** Every byte of a file that splits exactly is in exactly one chunk. */
  lemma SplitPartitions(size: Word, c: Word, n: nat, x: nat)
    requires EndsAfter(size, c, n) && Tile(Tasks(size, c, n), 0, size) && x < size
    ensures exists i :: 0 <= i < n && Covers(Tasks(size, c, n)[i], x)
    ensures forall i, j :: 0 <= i < n && 0 <= j < n && Covers(Tasks(size, c, n)[i], x) && Covers(Tasks(size, c, n)[j], x) ==> i == j
  {
    TilePartitions(Tasks(size, c, n), 0, size, x);
  }

  lemma {:induction false} TaskAt(size: Word, c: Word, n: nat, i: nat)
    requires Reaches(size, c, n) && i < n
    ensures Tasks(size, c, n)[i] == ChunkAt(size, c, Offset(c, i))
  {
    if i < n - 1 {
      TaskAt(size, c, n - 1, i);
    }
  }

  /** Each task says it is a chunk of a file of that size, starts at its multiple of the chunk size and
      is a full chunk or the rest of the file. */
  lemma EveryChunk(size: Word, c: Word, n: nat, i: nat)
    requires Reaches(size, c, n) && i < n
    ensures var t := Tasks(size, c, n)[i];
            && t.kind == Chunk && t.fileSize == size && t.offset == i * c % 0x1_0000_0000_0000_0000
            && t.offset < size && t.offset + t.len <= size && t.len <= c && (t.len == c || t.offset + t.len == size)
  {
    TaskAt(size, c, n, i);
    OffsetIsProduct(c, i);
  }

  // ---------------------------------------------------------------------------
  // When the loop ends
  // ---------------------------------------------------------------------------

  /** A chunk size of zero, which is also what unreadable text on the command line gives. */
  lemma {:induction false} ZeroNeverEnds(size: Word, n: nat)
    requires size > 0
    ensures Offset(0, n) == 0 && Reaches(size, 0, n) && !EndsAfter(size, 0, n)
  {
    if n > 0 {
      ZeroNeverEnds(size, n - 1);
    }
  }

  /** A file two bytes beyond 2^63 with chunks of 2^63 + 1: three chunks, the last on top of the
      other two. */
  lemma OverlapExample()
    ensures var c, size := 0x8000_0000_0000_0001, 0x8000_0000_0000_0002;
            && EndsAfter(size, c, 3) && !SplitsExactly(size, c)
            && Covers(Tasks(size, c, 3)[0], 2) && Covers(Tasks(size, c, 3)[2], 2)
  {
    var c: Word, size: Word := 0x8000_0000_0000_0001, 0x8000_0000_0000_0002;
    assert Offset(c, 0) == 0;
    assert Offset(c, 1) == c;
    assert Offset(c, 2) == 2;
    assert Offset(c, 3) == 0x8000_0000_0000_0003;
    assert Reaches(size, c, 3);
    assert Tasks(size, c, 1) == [ChunkAt(size, c, 0)];
    assert Tasks(size, c, 2) == Tasks(size, c, 1) + [ChunkAt(size, c, c)];
    assert Tasks(size, c, 3) == Tasks(size, c, 2) + [ChunkAt(size, c, 2)];
    Bits.ModUnique(size + c - 1, c, 2, 0);
    SplitCondition(size, c);
  }

  /** The largest power of two that divides the chunk size; all of 2^64 for zero. */
  function Grain(c: nat): (g: nat)
    ensures g > 0
  {
    if c == 0 then Bits.WORD64 else if c % 2 == 1 then 1 else 2 * Grain(c / 2)
  }

  lemma {:induction false} GrainDivides(c: nat, k: nat) returns (i: nat, m: nat)
    requires 0 < c < Bits.Pow2(k)
    ensures i < k && Grain(c) == Bits.Pow2(i) && m % 2 == 1 && c == Grain(c) * m
  {
    if c % 2 == 1 {
      i, m := 0, c;
    } else {
      i, m := GrainDivides(c / 2, k - 1);
      i := i + 1;
      assert c == 2 * (Grain(c / 2) * m) == (2 * Grain(c / 2)) * m;
    }
  }

  lemma {:induction false} OffsetIsProduct(c: Word, n: nat)
    ensures Offset(c, n) == n * c % Bits.WORD64
  {
    if n > 0 {
      OffsetIsProduct(c, n - 1);
      var q := (n - 1) * c / Bits.WORD64;
      var x := Offset(c, n - 1) + c;
      assert n * c == (n - 1) * c + c;
      assert n * c == Bits.WORD64 * q + x;
      Bits.ModUnique(n * c, Bits.WORD64, q + x / Bits.WORD64, x % Bits.WORD64);
    }
  }

  /** Some multiple of an odd number falls one short of a multiple of 2^j. */
  lemma {:induction false} OneShort(m: nat, j: nat) returns (n: nat, t: nat)
    requires m % 2 == 1
    ensures n * m + 1 == Bits.Pow2(j) * t
  {
    if j == 0 {
      n, t := 0, 1;
    } else {
      n, t := OneShort(m, j - 1);
      var p := Bits.Pow2(j - 1);
      if t % 2 == 0 {
        Halve(p, t);
        t := t / 2;
      } else {
        ShiftOnce(n, m, p, t);
        Halve(p, t + m);
        n, t := n + p, (t + m) / 2;
      }
    }
  }

  lemma Halve(p: nat, t: nat)
    requires t % 2 == 0
    ensures p * t == (2 * p) * (t / 2)
  {
    assert t == 2 * (t / 2);
    assert p * (2 * (t / 2)) == (2 * p) * (t / 2);
  }

  lemma ShiftOnce(n: nat, m: nat, p: nat, t: nat)
    requires n * m + 1 == p * t
    ensures (n + p) * m + 1 == p * (t + m)
  {
    assert (n + p) * m == n * m + p * m;
    assert p * (t + m) == p * t + p * m;
  }

  /** The offsets reach the last multiple of the grain below 2^64. */
  lemma ReachesTop(c: Word) returns (n: nat)
    requires c > 0
    ensures Offset(c, n) == Bits.WORD64 - Grain(c)
  {
    Bits.Pow2Is64();
    var i, m := GrainDivides(c, 64);
    var g, t := Grain(c), 0;
    n, t := OneShort(m, 64 - i);
    Bits.Pow2Add(i, 64 - i);
    var rest := Bits.Pow2(64 - i);
    assert n * c + g == Bits.WORD64 * t by {
      Grouped(n, g, m, rest, t);
    }
    assert t > 0;
    assert Bits.WORD64 * (t - 1) == Bits.WORD64 * t - Bits.WORD64;
    assert g <= Bits.WORD64 by { Bits.MulGe(g, rest); }
    Bits.ModUnique(n * c, Bits.WORD64, t - 1, Bits.WORD64 - g);
    OffsetIsProduct(c, n);
  }

  lemma Grouped(n: nat, g: nat, m: nat, rest: nat, t: nat)
    requires n * m + 1 == rest * t
    ensures n * (g * m) + g == (g * rest) * t
  {
    assert n * (g * m) + g == g * (n * m + 1) == g * (rest * t) == (g * rest) * t;
  }

  /** Every offset is a multiple of the grain. */
  lemma {:induction false} OffsetGrain(c: Word, g: nat, m: nat, rest: nat, n: nat) returns (q: nat)
    requires g > 0 && c == g * m && Bits.WORD64 == g * rest
    ensures Offset(c, n) == g * q
  {
    if n == 0 {
      q := 0;
    } else {
      var p := OffsetGrain(c, g, m, rest, n - 1);
      var x := Offset(c, n - 1) + c;
      assert x == g * (p + m);
      if x < Bits.WORD64 {
        q := p + m;
      } else {
        assert x - Bits.WORD64 == g * (p + m - rest);
        Bits.ModUnique(x, Bits.WORD64, 1, x - Bits.WORD64);
        Negative(g, p + m - rest);
        q := p + m - rest;
      }
    }
  }

  lemma Negative(g: nat, k: int)
    requires g > 0
    ensures k < 0 ==> g * k < 0
  {
    if k < 0 {
      Bits.MulGe(g, -k);
      assert g * k == -(g * -k);
    }
  }

  lemma OffsetBelowTop(c: Word, n: nat)
    requires c > 0
    ensures Offset(c, n) <= Bits.WORD64 - Grain(c)
  {
    Bits.Pow2Is64();
    var i, m := GrainDivides(c, 64);
    Bits.Pow2Add(i, 64 - i);
    var g, rest := Grain(c), Bits.Pow2(64 - i);
    var q := OffsetGrain(c, g, m, rest, n);
    if q >= rest {
      MulMono(rest, q, g);
    } else {
      MulMono(q + 1, rest, g);
      assert (q + 1) * g == g * q + g;
    }
  }

  lemma {:induction false} FirstEnd(size: Word, c: Word, n: nat) returns (first: nat)
    requires Offset(c, n) >= size
    ensures first <= n && EndsAfter(size, c, first)
  {
    if Reaches(size, c, n) {
      first := n;
    } else {
      var k :| 0 <= k < n && Offset(c, k) >= size;
      first := FirstEnd(size, c, k);
    }
  }

  /** The loop ends if and only if the file is no longer than 2^64 less the grain of the chunk size. */
  lemma LoopEnds(size: Word, c: Word)
    ensures (exists n :: 0 <= n && EndsAfter(size, c, n)) <==> size <= Bits.WORD64 - Grain(c)
  {
    if c == 0 {
      if size == 0 {
        assert EndsAfter(size, c, 0);
      } else {
        forall n: nat ensures !EndsAfter(size, c, n) { ZeroNeverEnds(size, n); }
      }
    } else {
      if size <= Bits.WORD64 - Grain(c) {
        var n := ReachesTop(c);
        var first := FirstEnd(size, c, n);
      }
      forall n: nat ensures Offset(c, n) <= Bits.WORD64 - Grain(c) { OffsetBelowTop(c, n); }
    }
  }
}
