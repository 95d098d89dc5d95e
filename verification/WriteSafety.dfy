/** Where the bytes written in accept mode land: the granted targets of FilterSafety together with the
    64-bit offsets of Chunks. */
module WriteSafety {
  import opened Bytes
  import opened Frames
  import opened FilterSafety
  import Basics
  import Bits
  import Chunks

  /** Offsets come off the wire as eight bytes. */
  ghost predicate Words<D>(st: Server<D>) {
    && (forall k :: k in st.accepted ==> st.accepted[k].offset < Bits.WORD64)
    && (forall i :: 0 <= i < |st.log| ==> st.log[i].target.offset < Bits.WORD64)
  }

  lemma UnitKeepsWords<D>(cfg: Config<D>, st: Server<D>, t: Target, s: Bytes)
    requires Words(st) && t.offset < Bits.WORD64
    ensures Words(ServeUnit(cfg, st, t, s).server)
  {
  }

  lemma ProbeKeepsWords<D>(cfg: Config<D>, st: Server<D>, s: Bytes)
    requires Words(st)
    ensures Words(ServeProbe(cfg, st, s).server)
  {
    Widths();
  }

  lemma FrameKeepsWords<D>(cfg: Config<D>, st: Server<D>, s: Bytes)
    requires cfg.accept && Words(st)
    ensures Words(ServeFrame(cfg, st, s).server)
  {
    if s != [] && s[0] == PROBE {
      ProbeKeepsWords(cfg, st, s[1..]);
    } else if s != [] && s[0] == ACCEPTED && Take(s[1..], 8).Some? {
      var (bytes, rest) := Take(s[1..], 8).value;
      var key := UnLe(bytes);
      if key in st.accepted {
        UnitKeepsWords(cfg, st.(accepted := st.accepted - {key}), st.accepted[key], rest);
      }
    }
  }

  lemma {:induction false} ServeKeepsWords<D>(cfg: Config<D>, st: Server<D>, s: Bytes)
    requires cfg.accept && Words(st)
    ensures Words(Serve(cfg, st, s))
    decreases |s|
  {
    FrameKeepsWords(cfg, st, s);
    match ServeFrame(cfg, st, s)
    case Next(st', rest) => ServeKeepsWords(cfg, st', rest);
    case Stop(_) =>
  }

  /** The writes of one opened unit, given where the descriptor of its file stands. */
  function Written(d: Delivery, position: nat): seq<Chunks.Placed> {
    if d.target.kind.Chunk? then Chunks.Places(d.target.offset, position, d.pieces) else Chunks.UnitWrites(0, d.pieces)
  }

  /** The writes the unit's target promises: from its offset on, or a file from its start. */
  function Promised(d: Delivery): seq<Chunks.Placed> {
    Chunks.UnitWrites(if d.target.kind.Chunk? then d.target.offset else 0, d.pieces)
  }

  predicate WithinReach(d: Delivery) { d.target.kind.Chunk? ==> Chunks.StartsBelow(d.target.offset, d.pieces) }

  /** For any bytes from the network and any filter, every unit written has a target the filter
      accepted, and its bytes go to the offset of that target if and only if no piece of it starts at
      2^63 or beyond. */
  lemma WrittenWhereGranted<D>(cfg: Config<D>, decoder: D, s: Bytes, i: nat, position: nat)
    requires cfg.accept && i < |Serve(cfg, Server(decoder, map[], 0, [], [], []), s).log|
    requires position + |Flat(Serve(cfg, Server(decoder, map[], 0, [], [], []), s).log[i].pieces)| < Chunks.HALF
    ensures var end := Serve(cfg, Server(decoder, map[], 0, [], [], []), s);
            && end.log[i].target in end.granted && end.log[i].target.offset < Bits.WORD64
            && (Written(end.log[i], position) == Promised(end.log[i]) <==> WithinReach(end.log[i]))
  {
    var st := Server(decoder, map[], 0, [], [], []);
    var end := Serve(cfg, st, s);
    WrittenImpliesGranted(cfg, decoder, s, i);
    ServeKeepsWords(cfg, st, s);
    var d := end.log[i];
    Chunks.UnitLands(d.target.offset, position, d.pieces);
  }

  /** A granted chunk at offset 2^63 of a file just opened writes over its first byte. */
  lemma GrantedHighOffset(path: Bytes, x: Byte)
    ensures var d := Delivery(Target(Chunk, path, Chunks.HALF), [[x]], true);
            && Written(d, 0) == [Chunks.At(0, [x])] && Promised(d) == [Chunks.At(Chunks.HALF, [x])]
            && !WithinReach(d)
  {
    Chunks.HighOffsetExample(x);
    assert Chunks.UnitWrites(Chunks.HALF + 1, []) == [];
  }
}
