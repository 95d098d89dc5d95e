/** Byte strings and little-endian integers (shared/wire.h). */
module Bytes {
  import Bits

  type Byte = b: int | 0 <= b < 256
  type Bytes = seq<Byte>

  function Zeros(n: nat): (z: Bytes)
    ensures |z| == n && forall i :: 0 <= i < n ==> z[i] == 0
  {
    seq(n, _ => 0)
  }

  /** The concatenation of a list of pieces. */
  function Flat<T>(pieces: seq<seq<T>>): seq<T> {
    if pieces == [] then [] else pieces[0] + Flat(pieces[1..])
  }

  lemma {:induction false} FlatAppend<T>(a: seq<seq<T>>, b: seq<seq<T>>)
    ensures Flat(a + b) == Flat(a) + Flat(b)
  {
    if a == [] {
      assert a + b == b;
    } else {
      FlatAppend(a[1..], b);
      assert (a + b)[1..] == a[1..] + b;
      assert a[0] + (Flat(a[1..]) + Flat(b)) == Flat(a) + Flat(b);
    }
  }

  lemma FlatSnoc<T>(a: seq<seq<T>>, x: seq<T>)
    ensures Flat(a + [x]) == Flat(a) + x
  {
    FlatAppend(a, [x]);
    assert Flat([x]) == x;
  }

  function Pow256(n: nat): (p: nat)
    ensures p > 0
  {
    if n == 0 then 1 else 256 * Pow256(n - 1)
  }

  /** `v` as `n` bytes, least significant first; higher bits are cut off, as by the casts of write_u*_le. */
  function Le(v: nat, n: nat): (r: Bytes)
    ensures |r| == n
  {
    if n == 0 then [] else [v % 256] + Le(v / 256, n - 1)
  }

  function UnLe(s: Bytes): (v: nat)
    ensures v < Pow256(|s|)
  {
    if s == [] then 0 else s[0] + 256 * UnLe(s[1..])
  }

  lemma {:induction false} UnLeOfLe(v: nat, n: nat)
    requires v < Pow256(n)
    ensures UnLe(Le(v, n)) == v
  {
    if n > 0 {
      UnLeOfLe(v / 256, n - 1);
      assert Le(v, n)[1..] == Le(v / 256, n - 1);
    }
  }

  lemma {:induction false} LeOfUnLe(s: Bytes)
    ensures Le(UnLe(s), |s|) == s
  {
    if s != [] {
      LeOfUnLe(s[1..]);
      var v := UnLe(s);
      assert v % 256 == s[0] && v / 256 == UnLe(s[1..]);
    }
  }

  /** Byte `i` is the `i`-th lowest: little-endian order. */
  lemma {:induction false} LeDigit(v: nat, n: nat, i: nat)
    requires i < n
    ensures Le(v, n)[i] == v / Pow256(i) % 256
  {
    if i > 0 {
      LeDigit(v / 256, n - 1, i - 1);
      DivDiv(v, 256, Pow256(i - 1));
    }
  }

  lemma DivDiv(v: nat, a: nat, b: nat)
    requires a > 0 && b > 0
    ensures a * b > 0 && v / a / b == v / (a * b)
  {
    var q, r := v / a, v % a;
    var s, t := q / b, q % b;
    MulAtMost(a, 1, b);
    DivDivParts(v, a, b, q, r, s, t);
    Bits.ModUnique(v, a * b, s, a * t + r);
  }

  lemma DivDivParts(v: nat, a: nat, b: nat, q: nat, r: nat, s: nat, t: nat)
    requires v == a * q + r && r < a && q == b * s + t && t < b
    ensures v == (a * b) * s + (a * t + r) && a * t + r < a * b
  {
    Regroup(a, b, s, t);
    MulAtMost(a, t, b - 1);
    assert a * (b - 1) == a * b - a;
  }

  lemma Regroup(a: nat, b: nat, s: nat, t: nat)
    ensures a * (b * s + t) == (a * b) * s + a * t
  {
    Bits.MulAssoc(a, b, s);
  }

  lemma MulAtMost(a: nat, x: nat, y: nat)
    requires x <= y
    ensures a * x <= a * y
  {
    assert a * y == a * x + a * (y - x);
  }

  /** Bytes read together with shifts, as `read_u16_le`, `read_u32_le` and `read_u64_le` do. */
  lemma UnLeShifts(a: Byte, b: Byte, c: Byte, d: Byte, e: Byte, f: Byte, g: Byte, h: Byte)
    ensures UnLe([a, b]) == a + 0x100 * b
    ensures UnLe([a, b, c, d]) == a + 0x100 * b + 0x1_0000 * c + 0x100_0000 * d
    ensures UnLe([a, b, c, d, e, f, g, h])
            == UnLe([a, b, c, d]) + 0x1_0000_0000 * UnLe([e, f, g, h])
  {
    assert [a, b][1..] == [b] && [b][1..] == [];
    UnLeFour(a, b, c, d);
    UnLeFour(e, f, g, h);
    UnLeCons(a, [b, c, d, e, f, g, h]);
    UnLeCons(b, [c, d, e, f, g, h]);
    UnLeCons(c, [d, e, f, g, h]);
    UnLeCons(d, [e, f, g, h]);
    assert [a] + [b, c, d, e, f, g, h] == [a, b, c, d, e, f, g, h];
    assert [b] + [c, d, e, f, g, h] == [b, c, d, e, f, g, h];
    assert [c] + [d, e, f, g, h] == [c, d, e, f, g, h];
    assert [d] + [e, f, g, h] == [d, e, f, g, h];
  }

  lemma UnLeCons(a: Byte, s: Bytes)
    ensures UnLe([a] + s) == a + 256 * UnLe(s)
  {
    assert ([a] + s)[1..] == s;
  }

  lemma UnLeFour(a: Byte, b: Byte, c: Byte, d: Byte)
    ensures UnLe([a, b, c, d]) == a + 0x100 * b + 0x1_0000 * c + 0x100_0000 * d
  {
    UnLeCons(a, [b, c, d]);
    UnLeCons(b, [c, d]);
    UnLeCons(c, [d]);
    UnLeCons(d, []);
    assert [a] + [b, c, d] == [a, b, c, d] && [b] + [c, d] == [b, c, d] && [c] + [d] == [c, d] && [d] + [] == [d];
  }

  lemma Widths()
    ensures Pow256(2) == 0x1_0000
    ensures Pow256(4) == 0x1_0000_0000
    ensures Pow256(8) == 0x1_0000_0000_0000_0000
  {
    assert Pow256(2) == 0x1_0000;
    assert Pow256(4) == 256 * (256 * Pow256(2));
    assert Pow256(6) == 256 * (256 * Pow256(4));
    assert Pow256(8) == 256 * (256 * Pow256(6));
  }

  /** `s` with the bytes from `at` on replaced by `piece`. */
  function Patch(s: Bytes, at: nat, piece: Bytes): (r: Bytes)
    requires at + |piece| <= |s|
    ensures |r| == |s|
    ensures forall i :: 0 <= i < |s| ==> r[i] == if at <= i < at + |piece| then piece[i - at] else s[i]
  {
    s[..at] + piece + s[at + |piece|..]
  }

  /** memcpy into a fixed buffer. */
  method Blit(a: array<Byte>, at: nat, piece: Bytes)
    requires at + |piece| <= a.Length
    modifies a
    ensures a[..] == Patch(old(a[..]), at, piece)
  {
    for i := 0 to |piece|
      invariant a[..at] == old(a[..at])
      invariant a[at..at + i] == piece[..i]
      invariant a[at + i..] == old(a[at + i..])
    {
      a[at + i] := piece[i];
    }
    assert a[..] == a[..at] + a[at..at + |piece|] + a[at + |piece|..];
  }
}
