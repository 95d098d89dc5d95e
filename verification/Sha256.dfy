/** SHA-256 (shared/sha256.h) against FIPS 180-4, and HMAC-SHA-256 (shared/hmac_sha256.h)
    against section 2 of RFC 2104. */
module Sha256 {
  import opened Bits
  import opened Bytes
  import opened BlockStream

  const BLOCK: nat := 64

  /** Messages of fewer than 2^61 bytes have a 64-bit length in bits. */
  const MAX_MESSAGE: nat := 0x2000_0000_0000_0000

  type Word = bv32

  /** FIPS 180-4, section 4.2.2, eight to a row. */
  const ROWS: seq<seq<Word>> := [
    [0x428a2f98, 0x71374491, 0xb5c0fbcf, 0xe9b5dba5, 0x3956c25b, 0x59f111f1, 0x923f82a4, 0xab1c5ed5],
    [0xd807aa98, 0x12835b01, 0x243185be, 0x550c7dc3, 0x72be5d74, 0x80deb1fe, 0x9bdc06a7, 0xc19bf174],
    [0xe49b69c1, 0xefbe4786, 0x0fc19dc6, 0x240ca1cc, 0x2de92c6f, 0x4a7484aa, 0x5cb0a9dc, 0x76f988da],
    [0x983e5152, 0xa831c66d, 0xb00327c8, 0xbf597fc7, 0xc6e00bf3, 0xd5a79147, 0x06ca6351, 0x14292967],
    [0x27b70a85, 0x2e1b2138, 0x4d2c6dfc, 0x53380d13, 0x650a7354, 0x766a0abb, 0x81c2c92e, 0x92722c85],
    [0xa2bfe8a1, 0xa81a664b, 0xc24b8b70, 0xc76c51a3, 0xd192e819, 0xd6990624, 0xf40e3585, 0x106aa070],
    [0x19a4c116, 0x1e376c08, 0x2748774c, 0x34b0bcb5, 0x391c0cb3, 0x4ed8aa4a, 0x5b9cca4f, 0x682e6ff3],
    [0x748f82ee, 0x78a5636f, 0x84c87814, 0x8cc70208, 0x90befffa, 0xa4506ceb, 0xbef9a3f7, 0xc67178f2]]

  function K(t: nat): Word
    requires t < 64
  {
    ROWS[t / 8][t % 8]
  }

  datatype Words = Words(a: Word, b: Word, c: Word, d: Word, e: Word, f: Word, g: Word, h: Word)

  const H0 := Words(0x6a09e667, 0xbb67ae85, 0x3c6ef372, 0xa54ff53a, 0x510e527f, 0x9b05688c, 0x1f83d9ab, 0x5be0cd19)

  // FIPS 180-4, sections 3.2 and 4.1.2

  function Rotr(x: Word, n: Word): Word
    requires n <= 32
  {
    (x >> n) | (x << (32 - n))
  }

  function Ch(x: Word, y: Word, z: Word): Word { (x & y) ^ (!x & z) }

  function Maj(x: Word, y: Word, z: Word): Word { (x & y) ^ (x & z) ^ (y & z) }

  function BigSigma0(x: Word): Word { Rotr(x, 2) ^ Rotr(x, 13) ^ Rotr(x, 22) }

  function BigSigma1(x: Word): Word { Rotr(x, 6) ^ Rotr(x, 11) ^ Rotr(x, 25) }

  function SmallSigma0(x: Word): Word { Rotr(x, 7) ^ Rotr(x, 18) ^ (x >> 3) }

  function SmallSigma1(x: Word): Word { Rotr(x, 17) ^ Rotr(x, 19) ^ (x >> 10) }

  /** Addition modulo 2^32. */
  function Add(x: Word, y: Word): Word { x + y }

  function Widen(b: Byte): Word { b as bv8 as Word }

  /** Four bytes as a word, most significant first. */
  function BeWord(a: Byte, b: Byte, c: Byte, d: Byte): Word {
    (Widen(a) << 24) | (Widen(b) << 16) | (Widen(c) << 8) | Widen(d)
  }

  function Low(w: Word): Byte { (w & 0xff) as int }

  /** A word as four bytes, most significant first. */
  function WordBytes(w: Word): (r: Bytes)
    ensures |r| == 4
  {
    [Low(w >> 24), Low(w >> 16), Low(w >> 8), Low(w)]
  }

  function Be(v: nat, n: nat): (r: Bytes)
    ensures |r| == n
  {
    if n == 0 then [] else Be(v / 256, n - 1) + [v % 256]
  }

  // FIPS 180-4, section 6.2.2

  /** Step 1: the message schedule, word by word. */
  function W(block: Bytes, t: nat): Word
    requires |block| == BLOCK
  {
    if t < 16 then BeWord(block[4 * t], block[4 * t + 1], block[4 * t + 2], block[4 * t + 3])
    else Add(Add(Add(W(block, t - 16), SmallSigma0(W(block, t - 15))), W(block, t - 7)), SmallSigma1(W(block, t - 2)))
  }

  /** Step 3, once. */
  function Round(v: Words, k: Word, w: Word): Words {
    var t1 := Add(Add(Add(Add(v.h, BigSigma1(v.e)), Ch(v.e, v.f, v.g)), k), w);
    var t2 := Add(BigSigma0(v.a), Maj(v.a, v.b, v.c));
    Words(Add(t1, t2), v.a, v.b, v.c, Add(v.d, t1), v.e, v.f, v.g)
  }

  function Rounds(v: Words, block: Bytes, t: nat): Words
    requires |block| == BLOCK && t <= 64
  {
    if t == 0 then v else Round(Rounds(v, block, t - 1), K(t - 1), W(block, t - 1))
  }

  function Plus(x: Words, y: Words): Words {
    Words(Add(x.a, y.a), Add(x.b, y.b), Add(x.c, y.c), Add(x.d, y.d),
          Add(x.e, y.e), Add(x.f, y.f), Add(x.g, y.g), Add(x.h, y.h))
  }

  /** Steps 2 to 4 for one block. */
  function Compress(v: Words, block: Bytes): Words {
    if |block| != BLOCK then v else Plus(v, Rounds(v, block, 64))
  }

  /** Section 5.1.1: a one bit, the fewest zeros that leave room for the length, the length. */
  function Padding(len: nat): (p: Bytes)
    ensures (len + |p|) % BLOCK == 0
  {
    PaddingFits(len);
    [0x80] + Zeros((55 - len) % BLOCK) + Be(8 * len, 8)
  }

  lemma PaddingFits(len: nat)
    ensures (len + 1 + (55 - len) % BLOCK + 8) % BLOCK == 0
  {
    var q, r := (55 - len) / BLOCK, (55 - len) % BLOCK;
    assert 55 - len == BLOCK * q + r;
    ModUnique(len + 1 + r + 8, BLOCK, 1 - q, 0);
  }

  function Output(v: Words): (r: Bytes)
    ensures |r| == 32
  {
    WordBytes(v.a) + WordBytes(v.b) + WordBytes(v.c) + WordBytes(v.d)
    + WordBytes(v.e) + WordBytes(v.f) + WordBytes(v.g) + WordBytes(v.h)
  }

  ghost function Sha(m: Bytes): (r: Bytes)
    ensures |r| == 32
  {
    Output(Fold(Compress, H0, m + Padding(|m|), BLOCK))
  }

  // ---------------------------------------------------------------------------
  // The code
  // ---------------------------------------------------------------------------

  /** The first half of `process_block`: the message schedule. */
  method Schedule(block: Bytes) returns (w: array<Word>)
    requires |block| == BLOCK
    ensures fresh(w) && w.Length == 64 && forall t :: 0 <= t < 64 ==> w[t] == W(block, t)
  {
    hide BeWord, Add, SmallSigma0, SmallSigma1;
    w := new Word[64];
    for i := 0 to 16
      invariant forall t :: 0 <= t < i ==> w[t] == W(block, t)
    {
      w[i] := BeWord(block[i * 4], block[i * 4 + 1], block[i * 4 + 2], block[i * 4 + 3]);
    }
    for i := 16 to 64
      invariant forall t :: 0 <= t < i ==> w[t] == W(block, t)
    {
      w[i] := Extend(block, i, w[i - 16], w[i - 15], w[i - 7], w[i - 2]);
    }
  }

  method Extend(ghost block: Bytes, ghost t: nat, w16: Word, w15: Word, w7: Word, w2: Word) returns (w: Word)
    requires |block| == BLOCK && t >= 16
    requires w16 == W(block, t - 16) && w15 == W(block, t - 15) && w7 == W(block, t - 7) && w2 == W(block, t - 2)
    ensures w == W(block, t)
  {
    hide Add, SmallSigma0, SmallSigma1, BeWord;
    var s0, s1 := SmallSigma0(w15), SmallSigma1(w2);
    w := Add(Add(Add(w16, s0), w7), s1);
  }

  /** One pass of the round loop: the working variables move along in place. */
  method RoundInPlace(v: Words, k: Word, w: Word) returns (r: Words)
    ensures r == Round(v, k, w)
  {
    hide Add, BigSigma0, BigSigma1, Ch, Maj;
    var Words(a, b, c, d, e, f, g, h) := v;
    var temp1 := Add(Add(Add(Add(h, BigSigma1(e)), Ch(e, f, g)), k), w);
    var temp2 := Add(BigSigma0(a), Maj(a, b, c));
    h := g;
    g := f;
    f := e;
    e := Add(d, temp1);
    d := c;
    c := b;
    b := a;
    a := Add(temp1, temp2);
    r := Words(a, b, c, d, e, f, g, h);
  }

  method AllRounds(state: Words, block: Bytes, w: seq<Word>) returns (r: Words)
    requires |block| == BLOCK && |w| == 64 && forall t :: 0 <= t < 64 ==> w[t] == W(block, t)
    ensures r == Rounds(state, block, 64)
  {
    r := state;
    for i := 0 to 64
      invariant r == Rounds(state, block, i)
    {
      r := RoundInPlace(r, K(i), w[i]);
    }
  }

  method ProcessBlock(state: Words, block: Bytes) returns (r: Words)
    requires |block| == BLOCK
    ensures r == Compress(state, block)
  {
    var w := Schedule(block);
    r := AllRounds(state, block, w[..]);
    r := Plus(state, r);
  }

  ghost predicate Streams(h: BlockBuffer<Words>)
    reads h, h.buffer
  {
    h.Valid() && h.n == BLOCK && h.f == Compress && h.start == H0
  }

  /** The zeros still missing before the length field. */
  function Gap(len: nat): nat { (56 - len) % BLOCK }

  lemma GapShrinks(len: nat)
    requires len % BLOCK != 56
    ensures Gap(len + 1) == Gap(len) - 1
  {
  }

  lemma GapClosed(len: nat)
    requires len % BLOCK == 56
    ensures Gap(len) == 0
  {
  }

  lemma PaddedMessage(m: Bytes, zeros: nat, bits: nat)
    requires |m| < MAX_MESSAGE && zeros == Gap(|m| + 1) && bits == BitsOf(|m|)
    ensures m + [0x80] + Zeros(zeros) + Be(bits, 8) == m + Padding(|m|)
  {
    assert bits == 8 * |m|;
    assert Padding(|m|) == [0x80] + Zeros(zeros) + Be(bits, 8);
  }

  /** Zero bytes one at a time until only the length field is missing. */
  method PadZeros(h: BlockBuffer<Words>)
    requires Streams(h)
    modifies h, h.buffer
    ensures Streams(h) && h.message == old(h.message) + Zeros(Gap(|old(h.message)|))
  {
    ghost var m, len := h.message, |h.message|;
    ghost var zeros := 0;
    assert m + Zeros(0) == m;
    while h.bufferLen != BLOCK - 8
      invariant Padded(h, m, zeros)
      decreases Gap(len + zeros)
    {
      PadOne(h, m, zeros);
      zeros := zeros + 1;
    }
    GapClosed(len + zeros);
  }

  ghost predicate Padded(h: BlockBuffer<Words>, m: Bytes, zeros: nat)
    reads h, h.buffer
  {
    Streams(h) && h.message == m + Zeros(zeros) && zeros + Gap(|m| + zeros) == Gap(|m|)
  }

  method PadOne(h: BlockBuffer<Words>, ghost m: Bytes, ghost zeros: nat)
    requires Padded(h, m, zeros) && h.bufferLen != BLOCK - 8
    modifies h, h.buffer
    ensures Padded(h, m, zeros + 1) && Gap(|m| + zeros + 1) < Gap(|m| + zeros)
  {
    GapShrinks(|m| + zeros);
    h.Update([0]);
    OneMoreZero(m, zeros);
  }

  lemma OneMoreZero(m: Bytes, zeros: nat)
    ensures (m + Zeros(zeros)) + [0] == m + Zeros(zeros + 1)
  {
    assert Zeros(zeros) + [0] == Zeros(zeros + 1);
  }

  /** `finish`: pad byte by byte until 56 bytes are buffered, add the length, write the state out.
      The message may have come in any sequence of updates. */
  method Finish(h: BlockBuffer<Words>) returns (out: Bytes)
    requires Streams(h) && |h.message| < MAX_MESSAGE
    modifies h, h.buffer
    ensures out == Sha(old(h.message))
  {
    ghost var m := h.message;
    var totalBits := h.bitCount;
    h.Update([0x80]);
    PadZeros(h);
    h.Update(Be(totalBits, 8));
    PaddedMessage(m, Gap(|m| + 1), totalBits);
    out := Output(h.state);
  }

  /** The zero run of the padding is the shortest that fits the length into the last block. */
  lemma PaddingIsMinimal(len: nat, k: nat)
    requires (len + 1 + k) % BLOCK == 56
    ensures (len + 1 + (55 - len) % BLOCK) % BLOCK == 56 && (55 - len) % BLOCK <= k
  {
  }

  method Sha256OneShot(data: Bytes) returns (out: Bytes)
    requires |data| < MAX_MESSAGE
    ensures out == Sha(data)
  {
    var h := new BlockBuffer(BLOCK, Compress, H0);
    h.Update(data);
    assert [] + data == data;
    out := Finish(h);
  }

  // ---------------------------------------------------------------------------
  // HMAC
  // ---------------------------------------------------------------------------

  function XorByte(a: Byte, b: Byte): Byte { (a as bv8 ^ b as bv8) as int }

  function XorAll(s: Bytes, b: Byte): Bytes { seq(|s|, i requires 0 <= i < |s| => XorByte(s[i], b)) }

  /** RFC 2104, section 2: a long key is hashed first, a short one padded with zeros. */
  ghost function Hmac(key: Bytes, m: Bytes): Bytes {
    var short := if |key| > BLOCK then Sha(key) else key;
    var k0 := short + Zeros(BLOCK - |short|);
    Sha(XorAll(k0, 0x5c) + Sha(XorAll(k0, 0x36) + m))
  }

  method Pads(blockKey: Bytes) returns (inner: array<Byte>, outer: array<Byte>)
    requires |blockKey| == BLOCK
    ensures inner[..] == XorAll(blockKey, 0x36) && outer[..] == XorAll(blockKey, 0x5c)
  {
    inner, outer := new Byte[BLOCK], new Byte[BLOCK];
    for i := 0 to BLOCK
      invariant forall j :: 0 <= j < i ==> inner[j] == XorByte(blockKey[j], 0x36) && outer[j] == XorByte(blockKey[j], 0x5c)
    {
      inner[i] := XorByte(blockKey[i], 0x36);
      outer[i] := XorByte(blockKey[i], 0x5c);
    }
  }

  method BlockKey(key: Bytes) returns (k0: Bytes)
    requires |key| < MAX_MESSAGE
    ensures var short := if |key| > BLOCK then Sha(key) else key; k0 == short + Zeros(BLOCK - |short|)
  {
    var blockKey := new Byte[BLOCK](_ => 0);
    var short := key;
    if |key| > BLOCK {
      short := Sha256OneShot(key);
    }
    Blit(blockKey, 0, short);
    k0 := blockKey[..];
  }

  method HmacSha256(key: Bytes, message: Bytes) returns (out: Bytes)
    requires |key| < MAX_MESSAGE && |message| + BLOCK < MAX_MESSAGE
    ensures out == Hmac(key, message)
  {
    var k0 := BlockKey(key);
    var innerPad, outerPad := Pads(k0);
    var inner := HashTwo(innerPad[..], message);
    out := HashTwo(outerPad[..], inner);
  }

  /** Two updates and a finish. */
  method HashTwo(a: Bytes, b: Bytes) returns (out: Bytes)
    requires |a| + |b| < MAX_MESSAGE
    ensures out == Sha(a + b)
  {
    hide Sha, Compress;
    var h := new BlockBuffer(BLOCK, Compress, H0);
    h.Update(a);
    h.Update(b);
    assert [] + a + b == a + b;
    out := Finish(h);
  }

  lemma OrXorIsZero(d: bv8, p: bv8, q: bv8)
    ensures d | (p ^ q) == 0 <==> d == 0 && p == q
  {
  }

  lemma Next(w: bv8)
    requires w < 255
    ensures (w + 1) as int == w as int + 1
  {
  }

  lemma NotLast(w: bv8)
    ensures w as int < 255 ==> w < 255
  {
  }

  /** Every byte value is the value of an eight-bit word. */
  lemma {:induction false} WordOf(a: Byte) returns (w: bv8)
    ensures w as int == a
  {
    if a == 0 {
      w := 0;
    } else {
      w := WordOf(a - 1);
      NotLast(w);
      Next(w);
      w := w + 1;
    }
  }

  lemma Returns(a: Byte)
    ensures (a as bv8) as int == a
  {
    var w := WordOf(a);
  }

  lemma Narrowed(a: Byte, b: Byte)
    ensures a as bv8 == b as bv8 <==> a == b
  {
    Returns(a);
    Returns(b);
  }

  /** Equality without an early exit. */
  method ConstantTimeEqual(a: Bytes, b: Bytes) returns (equal: bool)
    requires |a| == |b|
    ensures equal <==> a == b
  {
    var difference: bv8 := 0;
    for i := 0 to |a|
      invariant difference == 0 <==> a[..i] == b[..i]
    {
      OrXorIsZero(difference, a[i] as bv8, b[i] as bv8);
      Narrowed(a[i], b[i]);
      assert a[..i + 1] == a[..i] + [a[i]] && b[..i + 1] == b[..i] + [b[i]];
      difference := difference | (a[i] as bv8 ^ b[i] as bv8);
    }
    assert a[..|a|] == a && b[..|b|] == b;
    equal := difference == 0;
  }
}
