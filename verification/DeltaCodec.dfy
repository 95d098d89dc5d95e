/** A small codec that meets the law: it sends byte differences, and holds back up to three bytes
    until a group of four is complete or the unit is flushed. */
module DeltaCodec {
  import opened Basics
  import opened Bytes
  import opened Frames

  /** `prev` is the last byte sent, `held` what waits for company. */
  datatype Compressor = Compressor(prev: Byte, held: Bytes)

  function Deltas(prev: Byte, s: Bytes): (r: Bytes)
    ensures |r| == |s|
    decreases |s|
  {
    if s == [] then [] else [(s[0] - prev) % 256] + Deltas(s[0], s[1..])
  }

  function Sums(prev: Byte, s: Bytes): Bytes
    decreases |s|
  {
    if s == [] then [] else var b := (prev + s[0]) % 256; [b] + Sums(b, s[1..])
  }

  function Last(prev: Byte, s: Bytes): Byte { if s == [] then prev else s[|s| - 1] }

  lemma {:induction false} SumsOfDeltas(prev: Byte, s: Bytes)
    ensures Sums(prev, Deltas(prev, s)) == s
    decreases |s|
  {
    if s != [] {
      SumsOfDeltas(s[0], s[1..]);
      assert Deltas(prev, s)[1..] == Deltas(s[0], s[1..]);
    }
  }

  function Emit(c: Compressor, s: Bytes, held: Bytes): (Compressor, Bytes) {
    (Compressor(Last(c.prev, s), held), Deltas(c.prev, s))
  }

  function Update(c: Compressor, x: Bytes): (Compressor, Bytes) {
    var all := c.held + x;
    var n := |all| - |all| % 4;
    Emit(c, all[..n], all[n..])
  }

  function Flush(c: Compressor): (Compressor, Bytes) { Emit(c, c.held, []) }

  function Decode(prev: Byte, s: Bytes): Decoded<Byte> {
    var out := Sums(prev, s);
    Decoded(true, Last(prev, out), [out])
  }

  predicate InStep(c: Compressor, prev: Byte, pending: Bytes) {
    prev == c.prev && pending == c.held && |c.held| < 4
  }

  function DELTA(): Codec<Compressor, Byte> {
    Codec(Compressor(0, []), Update, Flush, 0, Decode, InStep)
  }

  lemma EmitCarries(c: Compressor, s: Bytes, held: Bytes)
    requires |held| < 4
    ensures var (c', out) := Emit(c, s, held); Carries(DELTA(), c', c.prev, out, s + held)
  {
    SumsOfDeltas(c.prev, s);
    var r := Decode(c.prev, Deltas(c.prev, s));
    assert r.pieces == [s] && Flat([s]) == s;
    assert (s + held)[|s|..] == held && [] + held == held;
  }

  lemma DeltaIsLawful()
    ensures Lawful(DELTA())
  {
    forall c: Compressor, d: Byte, pending: Bytes, x: Bytes ensures UpdateLaw(DELTA(), c, d, pending, x) {
      var all := c.held + x;
      var n := |all| - |all| % 4;
      assert all == all[..n] + all[n..];
      EmitCarries(c, all[..n], all[n..]);
    }
    forall c: Compressor, d: Byte, pending: Bytes ensures FlushLaw(DELTA(), c, d, pending) {
      EmitCarries(c, c.held, []);
      SumsOfDeltas(c.prev, c.held);
      assert c.held + [] == c.held && Flat([c.held]) == c.held;
    }
  }
}
