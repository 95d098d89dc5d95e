/** Absorbing a message block by block. Both hashes buffer whatever does not fill a block, so
    their streaming forms rest on the same few facts, for any step function. */
module BlockStream {
  import opened Bits
  import opened Bytes

  /** Apply `f` to each full `n`-byte block of `m` in turn. */
  ghost function Fold<S>(f: (S, Bytes) -> S, s: S, m: Bytes, n: nat): S
    requires n > 0
    decreases |m|
  {
    if |m| < n then s else Fold(f, f(s, m[..n]), m[n..], n)
  }

  /** What is left after the last full block. */
  function Tail(m: Bytes, n: nat): (t: Bytes)
    requires n > 0
    ensures |t| == |m| % n
  {
    m[|m| - |m| % n..]
  }

  /** Dropping one full block leaves the tail alone. */
  lemma TailDrop(m: Bytes, n: nat)
    requires 0 < n <= |m|
    ensures Tail(m[n..], n) == Tail(m, n)
    ensures (|m| - n) % n == |m| % n
  {
    ModDrop(|m|, n);
    var k := |m| % n;
    assert m[n..][|m| - n - k..] == m[|m| - k..];
  }

  lemma ModDrop(a: nat, n: nat)
    requires 0 < n <= a
    ensures (a - n) % n == a % n
  {
    var q := (a - n) / n;
    assert a - n == n * q + (a - n) % n;
    MulNext(n, q);
    ModUnique(a, n, q + 1, (a - n) % n);
  }

  /** Everything that matters about `a` when more bytes follow is its fold and its tail. */
  lemma {:induction false} Append<S>(f: (S, Bytes) -> S, s: S, a: Bytes, b: Bytes, n: nat)
    requires n > 0
    ensures Fold(f, s, a + b, n) == Fold(f, Fold(f, s, a, n), Tail(a, n) + b, n)
    ensures Tail(a + b, n) == Tail(Tail(a, n) + b, n)
    decreases |a|
  {
    if |a| < n {
      ModUnique(|a|, n, 0, |a|);
      assert Tail(a, n) == a;
    } else {
      TailDrop(a, n);
      TailDrop(a + b, n);
      assert (a + b)[..n] == a[..n] && (a + b)[n..] == a[n..] + b;
      Append(f, f(s, a[..n]), a[n..], b, n);
    }
  }

  /** Feeding one block is one step of the fold. */
  lemma FoldBlock<S>(f: (S, Bytes) -> S, s: S, m: Bytes, n: nat)
    requires 0 < n <= |m|
    ensures Fold(f, s, m, n) == Fold(f, f(s, m[..n]), m[n..], n)
    ensures Tail(m[n..], n) == Tail(m, n)
  {
    TailDrop(m, n);
  }

  lemma ShortTail(m: Bytes, n: nat)
    requires |m| < n
    ensures Tail(m, n) == m && |m| % n == |m|
  {
    ModUnique(|m|, n, 0, |m|);
  }

  /** The loop over the full blocks of `input` from `from` on. */
  method FullBlocks<S>(f: (S, Bytes) -> S, s: S, input: Bytes, from: nat, n: nat) returns (r: S, p: nat)
    requires n > 0 && from <= |input|
    ensures p <= |input| && |input| - p < n
    ensures r == Fold(f, s, input[from..], n) && input[p..] == Tail(input[from..], n)
  {
    r, p := s, from;
    while p + n <= |input|
      invariant p <= |input|
      invariant Fold(f, s, input[from..], n) == Fold(f, r, input[p..], n)
      invariant Tail(input[from..], n) == Tail(input[p..], n)
    {
      FoldBlock(f, r, input[p..], n);
      assert input[p..][..n] == input[p..p + n] && input[p..][n..] == input[p + n..];
      r := f(r, input[p..p + n]);
      p := p + n;
    }
    ShortTail(input[p..], n);
  }

  /** The streaming state of XXH64 for any block size `n` and step `f`: an accumulator, and a
      buffer for the bytes that do not yet fill a block. */
  class StripeBuffer<S> {
    const n: nat
    const f: (S, Bytes) -> S
    const start: S
    var totalLen: nat
    var acc: S
    const mem: array<Byte>
    var memSize: nat
    ghost var message: Bytes

    /** The accumulator has absorbed every full block of the message, and the buffer starts with
        the last |message| mod n bytes. */
    ghost predicate Valid()
      reads this, mem
    {
      && mem.Length == n > 0
      && memSize == |message| % n
      && totalLen == |message| % WORD64
      && acc == Fold(f, start, message, n)
      && mem[..memSize] == Tail(message, n)
    }

    constructor (n: nat, f: (S, Bytes) -> S, start: S)
      requires n > 0
      ensures Valid() && message == [] && fresh(mem)
      ensures this.n == n && this.f == f && this.start == start
    {
      this.n, this.f, this.start := n, f, start;
      mem := new Byte[n](_ => 0);
      totalLen, memSize, acc, message := 0, 0, start, [];
      new;
      ShortTail([], n);
    }

    /** Fill the buffered block up, if there is one, and absorb it. */
    method Complete(input: Bytes) returns (p: nat)
      requires mem.Length == n > 0 && memSize < n <= memSize + |input|
      modifies this`acc, this`memSize, mem
      ensures p <= |input| && memSize == 0
      ensures Fold(f, acc, input[p..], n) == Fold(f, old(acc), old(mem[..memSize]) + input, n)
      ensures Tail(input[p..], n) == Tail(old(mem[..memSize]) + input, n)
    {
      ghost var todo := mem[..memSize] + input;
      p := 0;
      if memSize > 0 {
        p := n - memSize;
        Blit(mem, memSize, input[..p]);
        assert mem[..] == todo[..n] && input[p..] == todo[n..];
        FoldBlock(f, acc, todo, n);
        acc := f(acc, mem[..]);
        memSize := 0;
      } else {
        assert input[p..] == todo;
      }
    }

    /** Append to the buffer while it stays short of a block; otherwise complete the buffered
        block, run over the full blocks in place, and keep the rest. */
    method Update(input: Bytes)
      requires Valid()
      modifies this, mem
      ensures Valid() && message == old(message) + input
    {
      ghost var todo, acc0 := mem[..memSize] + input, acc;
      Append(f, start, message, input, n);
      AddMod(|message|, |input|);
      totalLen := (totalLen + |input|) % WORD64;
      message := message + input;

      if memSize + |input| < n {
        Blit(mem, memSize, input);
        memSize := memSize + |input|;
        assert mem[..memSize] == todo;
        ShortTail(todo, n);
        return;
      }

      var p := Complete(input);

      acc, p := FullBlocks(f, acc, input, p, n);
      assert Tail(todo, n) == input[p..];
      if p < |input| {
        Blit(mem, 0, input[p..]);
        memSize := |input| - p;
        assert mem[..memSize] == input[p..];
      }
    }
  }

  /** The streaming state of SHA-256 for any block size `n` and step `f`. */
  class BlockBuffer<S> {
    const n: nat
    const f: (S, Bytes) -> S
    const start: S
    var state: S
    var bitCount: nat
    const buffer: array<Byte>
    var bufferLen: nat
    ghost var message: Bytes

    ghost predicate Valid()
      reads this, buffer
    {
      Holding() && bitCount == BitsOf(|message|)
    }

    ghost predicate Holding()
      reads this, buffer
    {
      && buffer.Length == n > 0
      && bufferLen == |message| % n
      && state == Fold(f, start, message, n)
      && buffer[..bufferLen] == Tail(message, n)
    }

    constructor (n: nat, f: (S, Bytes) -> S, start: S)
      requires n > 0
      ensures Valid() && message == [] && fresh(buffer)
      ensures this.n == n && this.f == f && this.start == start
    {
      this.n, this.f, this.start := n, f, start;
      buffer := new Byte[n](_ => 0);
      bitCount, bufferLen, state, message := 0, 0, start, [];
      new;
      EmptyMessage(f, start, n);
      assert buffer[..0] == [];
    }

    /** Put a piece that fits into the buffer, and process the buffer if that fills it. */
    method Fill(piece: Bytes)
      requires Holding() && bufferLen + |piece| <= n
      modifies this`bufferLen, this`state, this`message, buffer
      ensures Holding() && message == old(message) + piece
    {
      ghost var held := buffer[..bufferLen] + piece;
      Append(f, start, message, piece, n);
      Blit(buffer, bufferLen, piece);
      bufferLen := bufferLen + |piece|;
      message := message + piece;
      assert buffer[..bufferLen] == held;
      if bufferLen == n {
        FoldBlock(f, state, held, n);
        assert buffer[..] == held[..n] && held[n..] == [];
        state := f(state, buffer[..]);
        bufferLen := 0;
        ShortTail([], n);
      } else {
        ShortTail(held, n);
      }
    }

    /** Fill the buffer as far as the input goes; process it each time it is full. */
    method Update(data: Bytes)
      requires Valid()
      modifies this, buffer
      ensures Valid() && message == old(message) + data
    {
      ghost var m0 := message;
      AddBits(|m0|, |data|);
      bitCount := (bitCount + 8 * |data|) % WORD64;
      var done := 0;
      while done < |data|
        invariant done <= |data| && message == m0 + data[..done]
        invariant Holding() && bitCount == BitsOf(|m0| + |data|)
      {
        var space := n - bufferLen;
        var take := if |data| - done < space then |data| - done else space;
        assert data[..done + take] == data[..done] + data[done..done + take];
        Fill(data[done..done + take]);
        done := done + take;
      }
      assert data[..done] == data;
    }
  }

  /** The length in bits of `bytes` bytes, as a 64-bit counter. */
  lemma EmptyMessage<S>(f: (S, Bytes) -> S, start: S, n: nat)
    requires n > 0
    ensures Fold(f, start, [], n) == start && Tail([], n) == [] && 0 % n == 0 && BitsOf(0) == 0
  {
    AddBits(0, 0);
    ShortTail([], n);
  }

  function BitsOf(bytes: nat): nat { (8 * bytes) % WORD64 }

  lemma AddBits(a: nat, b: nat)
    ensures BitsOf(0) == 0
    ensures (BitsOf(a) + 8 * b) % WORD64 == BitsOf(a + b)
  {
    AddMod(8 * a, 8 * b);
  }

  lemma AddMod(a: nat, b: nat)
    ensures (a % WORD64 + b) % WORD64 == (a + b) % WORD64
  {
  }
}
