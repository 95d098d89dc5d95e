/** XXH64 as the repository uses it: reset, update, digest (shared/xxhash.h). */
module Xxh64 {
  import opened Bits
  import opened Bytes
  import opened BlockStream

  type Word = bv64

  const P1: Word := 0x9E3779B185EBCA87
  const P2: Word := 0xC2B2AE3D27D4EB4F
  const P3: Word := 0x165667B19E3779F9
  const P4: Word := 0x85EBCA77C2B2AE63
  const P5: Word := 0x27D4EB2F165667C5

  const STRIPE: nat := 32

  function Rotl(x: Word, r: Word): Word
    requires r <= 64
  {
    (x << r) | (x >> (64 - r))
  }

  function Widen(b: Byte): Word { b as bv8 as Word }

  /** Four or eight bytes, least significant first. */
  function LeFour(s: Bytes): Word
    requires |s| >= 4
  {
    Widen(s[0]) | (Widen(s[1]) << 8) | (Widen(s[2]) << 16) | (Widen(s[3]) << 24)
  }

  function Join(low: Word, high: Word): Word { low | (high << 32) }

  function LeEight(s: Bytes): Word
    requires |s| >= 8
  {
    Join(LeFour(s), LeFour(s[4..]))
  }

  function Round(acc: Word, input: Word): Word { Rotl(acc + input * P2, 31) * P1 }

  function MergeRound(acc: Word, val: Word): Word { (acc ^ Round(0, val)) * P1 + P4 }

  function Avalanche(h: Word): Word {
    var h1 := (h ^ (h >> 33)) * P2;
    var h2 := (h1 ^ (h1 >> 29)) * P3;
    h2 ^ (h2 >> 32)
  }

  datatype Lanes = Lanes(v1: Word, v2: Word, v3: Word, v4: Word)

  function Start(seed: Word): Lanes { Lanes(seed + P1 + P2, seed + P2, seed, seed - P1) }

  /** One 32-byte stripe: a little-endian word into each lane. */
  function Stripe(v: Lanes, block: Bytes): Lanes {
    if |block| < STRIPE then v
    else Lanes(Round(v.v1, LeEight(block)), Round(v.v2, LeEight(block[8..])),
               Round(v.v3, LeEight(block[16..])), Round(v.v4, LeEight(block[24..])))
  }

  function Converge(v: Lanes): Word {
    var h := Rotl(v.v1, 1) + Rotl(v.v2, 7) + Rotl(v.v3, 12) + Rotl(v.v4, 18);
    MergeRound(MergeRound(MergeRound(MergeRound(h, v.v1), v.v2), v.v3), v.v4)
  }

  function MixEight(h: Word, k: Word): Word { Rotl(h ^ Round(0, k), 27) * P1 + P4 }

  function MixFour(h: Word, k: Word): Word { Rotl(h ^ (k * P1), 23) * P2 + P3 }

  function MixOne(h: Word, k: Word): Word { Rotl(h ^ (k * P5), 11) * P1 }

  /** The last 0 to 31 bytes: by eights, then a four, then ones. */
  function Finalize(h: Word, rest: Bytes): Word
    decreases |rest|
  {
    if |rest| >= 8 then Finalize(MixEight(h, LeEight(rest)), rest[8..])
    else if |rest| >= 4 then FinalizeBytes(MixFour(h, LeFour(rest)), rest[4..])
    else FinalizeBytes(h, rest)
  }

  function FinalizeBytes(h: Word, rest: Bytes): Word
    decreases |rest|
  {
    if rest == [] then Avalanche(h) else FinalizeBytes(MixOne(h, Widen(rest[0])), rest[1..])
  }

  /** A message shorter than a stripe starts from the seed alone. */
  function Short(seed: Word): Word { seed + P5 }

  function AddLength(h: Word, n: nat): Word
    requires n < WORD64
  {
    h + n as Word
  }

  /** The hash of a whole message: every full stripe into the lanes, then the rest. It fits the eight
      bytes of a checksum trailer. */
  ghost function Hash(m: Bytes, seed: Word): (r: nat)
    requires |m| < WORD64
    ensures r < WORD64
  {
    var h := if |m| >= STRIPE then Converge(Fold(Stripe, Start(seed), m, STRIPE)) else Short(seed);
    Finalize(AddLength(h, |m|), Tail(m, STRIPE)) as nat
  }

  // ---------------------------------------------------------------------------
  // Streaming
  // ---------------------------------------------------------------------------

  ghost predicate Streams(h: StripeBuffer<Lanes>, seed: Word)
    reads h, h.mem
  {
    h.Valid() && h.n == STRIPE && h.f == Stripe && h.start == Start(seed)
  }

  method Reset(seed: Word) returns (h: StripeBuffer<Lanes>)
    ensures Streams(h, seed) && h.message == [] && fresh(h) && fresh(h.mem)
  {
    h := new StripeBuffer(STRIPE, Stripe, Start(seed));
  }

  /** The hash from what a streaming state keeps; lane 3 still holds the seed of a short message. */
  lemma HashFromState(m: Bytes, seed: Word, acc: Lanes)
    requires |m| < WORD64 && acc == Fold(Stripe, Start(seed), m, STRIPE)
    ensures var h := if |m| >= STRIPE then Converge(acc) else Short(acc.v3);
            Hash(m, seed) == Finalize(AddLength(h, |m|), Tail(m, STRIPE)) as nat
  {
    hide Converge, Short, AddLength, Finalize, Stripe;
  }

  lemma SmallMod(n: nat)
    requires n < WORD64
    ensures n % WORD64 == n
  {
  }

  /** However the message was cut into updates, the digest is its one-shot hash. */
  method Digest(h: StripeBuffer<Lanes>, seed: Word) returns (r: nat)
    requires Streams(h, seed) && |h.message| < WORD64
    ensures r == Hash(h.message, seed)
  {
    hide Converge, Short, AddLength, Finalize, Stripe, Start;
    SmallMod(|h.message|);
    HashFromState(h.message, seed, h.acc);
    assert h.mem[..][..h.memSize] == h.mem[..h.memSize];
    var w := if h.totalLen >= STRIPE then Converge(h.acc) else Short(h.acc.v3);
    w := FinalizeLoop(AddLength(w, h.totalLen), h.mem[..], h.totalLen % STRIPE);
    r := w as nat;
  }

  /** A unit's checksum: one update per piece, whatever the pieces. The client cuts a unit into
      read-ahead blocks and the server into decoder outputs; both get the hash of the content. */
  method HashPieces(pieces: seq<Bytes>) returns (r: nat)
    requires |Flat(pieces)| < WORD64
    ensures r == Hash(Flat(pieces), 0)
  {
    var h := Reset(0);
    for i := 0 to |pieces|
      invariant Streams(h, 0) && h.message == Flat(pieces[..i])
      invariant fresh(h) && fresh(h.mem)
    {
      FlatSnoc(pieces[..i], pieces[i]);
      assert pieces[..i + 1] == pieces[..i] + [pieces[i]];
      h.Update(pieces[i]);
    }
    assert pieces[..|pieces|] == pieces;
    r := Digest(h, 0);
  }

  /** XXH64_finalize: consumes the first `len` bytes. */
  method FinalizeLoop(h0: Word, data: Bytes, len: nat) returns (h: Word)
    requires len <= |data|
    ensures h == Finalize(h0, data[..len])
  {
    hide MixEight, MixFour, FinalizeBytes, LeFour, LeEight;
    var p := 0;
    h := h0;
    while len - p >= 8
      invariant p <= len && Finalize(h0, data[..len]) == Finalize(h, data[p..len])
    {
      assert data[p..len][8..] == data[p + 8..len];
      h := MixEight(h, LeEight(data[p..len]));
      p := p + 8;
    }
    if len - p >= 4 {
      assert data[p..len][4..] == data[p + 4..len];
      h := MixFour(h, LeFour(data[p..len]));
      p := p + 4;
    }
    h := FinalizeOnes(h, data, p, len);
  }

  /** The last bytes one by one. */
  method FinalizeOnes(h0: Word, data: Bytes, from: nat, len: nat) returns (h: Word)
    requires from <= len <= |data|
    ensures h == FinalizeBytes(h0, data[from..len])
  {
    hide MixOne, Avalanche, Widen;
    h := h0;
    var p := from;
    while p < len
      invariant from <= p <= len && FinalizeBytes(h0, data[from..len]) == FinalizeBytes(h, data[p..len])
    {
      assert data[p..len][1..] == data[p + 1..len];
      h := MixOne(h, Widen(data[p]));
      p := p + 1;
    }
    h := Avalanche(h);
  }

  /** XXH64_endian_align: the one-shot loop over full stripes. */
  method OneShot(input: Bytes, seed: Word) returns (r: nat)
    requires |input| < WORD64
    ensures r == Hash(input, seed)
  {
    hide Converge, Short, AddLength, Finalize, Stripe, Start;
    var v, p := FullBlocks(Stripe, Start(seed), input, 0, STRIPE);
    assert input[0..] == input;
    HashFromState(input, seed, v);
    var h := if |input| >= STRIPE then Converge(v) else Short(seed);
    var rest := input[p..];
    assert rest[..|rest|] == rest;
    h := FinalizeLoop(AddLength(h, |input|), rest, |rest|);
    r := h as nat;
  }
}
