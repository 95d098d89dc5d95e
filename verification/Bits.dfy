/** Powers of two and bit masks over unbounded naturals. */
module Bits {

  const WORD64: nat := 0x1_0000_0000_0000_0000
  const WORD32: nat := 0x1_0000_0000

  function Pow2(k: nat): (p: nat)
    ensures p > 0
  {
    if k == 0 then 1 else 2 * Pow2(k - 1)
  }

  /** Bitwise conjunction. */
  function And(a: nat, b: nat): (r: nat)
  {
    if a == 0 || b == 0 then 0 else (a % 2) * (b % 2) + 2 * And(a / 2, b / 2)
  }

  lemma ModSplit(x: nat, p: nat)
    requires p > 0
    ensures x % (2 * p) == x % 2 + 2 * ((x / 2) % p)
  {
    var q, r := (x / 2) / p, (x / 2) % p;
    assert x / 2 == p * q + r;
    assert x == (2 * p) * q + (2 * r + x % 2) by {
      assert x == 2 * (x / 2) + x % 2;
      assert 2 * (p * q) == (2 * p) * q;
    }
    ModUnique(x, 2 * p, q, 2 * r + x % 2);
  }

  lemma ModUnique(x: int, d: int, q: int, r: int)
    requires d > 0 && 0 <= r < d && x == d * q + r
    ensures x % d == r && x / d == q
  {
    var q', r' := x / d, x % d;
    assert x == d * q' + r';
    assert d * (q - q') == r' - r;
    if q > q' {
      MulGe(d, q - q');
      assert false;
    } else if q < q' {
      assert d * (q' - q) == r - r';
      MulGe(d, q' - q);
      assert false;
    }
  }

  lemma MulGe(d: int, n: int)
    requires d > 0 && n >= 1
    ensures d * n >= d
  {
    assert d * n == d * (n - 1) + d;
    assert d * (n - 1) >= 0;
  }

  /** Masking with 2^k - 1 keeps the low k bits. */
  lemma {:induction false} AndMask(x: nat, k: nat)
    ensures And(x, Pow2(k) - 1) == x % Pow2(k)
  {
    if k == 0 {
    } else {
      var p := Pow2(k - 1);
      ModSplit(x, p);
      AndMask(x / 2, k - 1);
      assert (2 * p - 1) / 2 == p - 1 && (2 * p - 1) % 2 == 1;
      assert And(x / 2, p - 1) == (x / 2) % p;
      if x == 0 {
        assert (x / 2) % p == 0;
      }
    }
  }

  lemma {:induction false} Pow2Add(a: nat, b: nat)
    ensures Pow2(a + b) == Pow2(a) * Pow2(b)
  {
    if a > 0 {
      Pow2Add(a - 1, b);
      MulAssoc(2, Pow2(a - 1), Pow2(b));
    }
  }

  lemma MulAssoc(x: nat, y: nat, z: nat)
    ensures x * (y * z) == (x * y) * z
  {
  }

  /** Reducing modulo a multiple first does not change a residue. */
  lemma ModMod(x: nat, d: nat, m: nat)
    requires d > 0 && m > 0
    ensures (x % (d * m)) % d == x % d
  {
    var q, r := x / (d * m), x % (d * m);
    assert x == (d * m) * q + r;
    assert x == d * (m * q + r / d) + r % d by {
      assert (d * m) * q == d * (m * q);
      assert r == d * (r / d) + r % d;
      assert d * (m * q) + d * (r / d) == d * (m * q + r / d);
    }
    ModUnique(x, d, m * q + r / d, r % d);
  }

  /** A slot index taken from a wrapped 64-bit counter equals one taken from the true count. */
  lemma MaskedCounter(x: nat, k: nat)
    requires k <= 64
    ensures And(x % WORD64, Pow2(k) - 1) == x % Pow2(k)
  {
    AndMask(x % WORD64, k);
    Pow2Add(k, 64 - k);
    Pow2Is64();
    ModMod(x, Pow2(k), Pow2(64 - k));
  }

  lemma Pow2Is64()
    ensures Pow2(64) == WORD64
  {
    assert Pow2(4) == 16;
    Pow2Add(4, 4);
    assert Pow2(8) == 256;
    Pow2Add(8, 8);
    assert Pow2(16) == 0x1_0000;
    Pow2Add(16, 16);
    assert Pow2(32) == WORD32;
    Pow2Add(32, 32);
  }

  /** Two counters less than one wrap apart agree modulo the wrap only if they are equal. */
  lemma WrapInjective(a: nat, b: nat, w: nat)
    requires a <= b < a + w && w > 0
    ensures a % w == b % w <==> a == b
    ensures (b % w - a % w) % w == b - a
  {
    var qa, qb := a / w, b / w;
    assert a == w * qa + a % w && b == w * qb + b % w;
    assert b % w - a % w == w * (qa - qb) + (b - a) by {
      assert w * (qa - qb) == w * qa - w * qb;
    }
    ModUnique(b % w - a % w, w, qa - qb, b - a);
  }

  lemma MulNext(w: nat, q: int)
    ensures w * (q + 1) == w * q + w
  {
  }

  /** Stepping a wrapped counter. */
  lemma WrapNext(n: nat, w: nat)
    requires w > 0
    ensures (n % w + 1) % w == (n + 1) % w
  {
    var q, r := n / w, n % w;
    assert n == w * q + r;
    if r + 1 < w {
      ModUnique(n + 1, w, q, r + 1);
      ModUnique(r + 1, w, 0, r + 1);
    } else {
      MulNext(w, q);
      ModUnique(n + 1, w, q + 1, 0);
      ModUnique(r + 1, w, 1, 0);
    }
  }
}
