/** Server after client is the identity, whatever the codec withholds until its flush. */
module FramesRoundTrip {
  import opened Basics
  import opened Bytes
  import opened Frames

  /** What a client can send: the worker's path buffer holds 255 bytes and a terminator. */
  predicate Sendable(t: Target) {
    0 < |t.path| <= 255 && t.offset < Pow256(8) && (t.kind.File? ==> t.offset == 0)
  }

  /** The read-ahead hands over blocks of at most 256 KiB. */
  ghost predicate ReadAhead(blocks: seq<Bytes>) {
    forall i :: 0 <= i < |blocks| ==> |blocks[i]| <= READ_BLOCK
  }

  lemma BlockRoundTrip(out: Bytes, rest: Bytes)
    requires 0 < |out| <= MAX_BLOCK
    ensures ReadBlock(Le(|out|, 4) + (out + rest)) == Some((out, rest))
  {
    Widths();
    UnLeOfLe(|out|, 4);
    TakeFirst(Le(|out|, 4), out + rest);
    TakeFirst(out, rest);
  }

  lemma FrameSplit(out: Bytes, rest: Bytes)
    requires out != []
    ensures BlockFrame(out) + rest == [DATA] + (Le(|out|, 4) + (out + rest))
  {
    FourParts([DATA], Le(|out|, 4), out, rest);
  }

  lemma FourParts(a: Bytes, b: Bytes, c: Bytes, d: Bytes)
    ensures ((a + b) + c) + d == a + (b + (c + d))
  {
  }

  /** A sent block is decoded and prepended to what the rest of the stream yields. */
  lemma FrameServed<D>(cfg: Config<D>, d: D, out: Bytes, rest: Bytes)
    requires 0 < |out| <= MAX_BLOCK && cfg.decode(d, out).ok
    ensures ServeBody(cfg, d, BlockFrame(out) + rest)
            == Prepend(cfg.decode(d, out).pieces, ServeBody(cfg, cfg.decode(d, out).state, rest))
  {
    BlockRoundTrip(out, rest);
    FrameSplit(out, rest);
    assert (BlockFrame(out) + rest)[1..] == Le(|out|, 4) + (out + rest);
  }

  /** Either way of sending `out`, the decompressor catches up as the codec law says. */
  lemma OutputServed<C, D>(k: Codec<C, D>, cfg: Config<D>, c: C, d: D, out: Bytes, pending: Bytes, rest: Bytes)
    returns (d': D, pieces: seq<Bytes>, left: Bytes)
    requires cfg.decode == k.decode && |out| <= OUT_BUF && Carries(k, c, d, out, pending)
    ensures k.synced(c, d', left) && Flat(pieces) + left == pending
    ensures ServeBody(cfg, d, BlockFrame(out) + rest) == Prepend(pieces, ServeBody(cfg, d', rest))
    ensures Completes(k, c, d, out, pending) ==> left == []
  {
    if out == [] {
      d', pieces, left := d, [], pending;
      assert BlockFrame(out) + rest == rest;
      PrependTwice([], [], ServeBody(cfg, d, rest));
    } else {
      var r := k.decode(d, out);
      d', pieces, left := r.state, r.pieces, pending[|Flat(r.pieces)|..];
      FrameServed(cfg, d, out, rest);
    }
  }

  /** Blocks that went through the compressor come out of the block loop, except for what the
      codec still holds back, `left`. */
  lemma {:induction false} BlocksServed<C(!new), D(!new)>(
    k: Codec<C, D>, cfg: Config<D>, c: C, d: D, pending: Bytes, blocks: seq<Bytes>, rest: Bytes)
    returns (d': D, pieces: seq<Bytes>, left: Bytes)
    requires Lawful(k) && cfg.decode == k.decode && k.synced(c, d, pending) && ReadAhead(blocks)
    ensures k.synced(EncodeBlocks(k, c, blocks).0, d', left)
    ensures ServeBody(cfg, d, EncodeBlocks(k, c, blocks).1 + rest) == Prepend(pieces, ServeBody(cfg, d', rest))
    ensures Flat(pieces) + left == pending + Flat(blocks)
    decreases |blocks|
  {
    if blocks == [] {
      d', pieces, left := d, [], pending;
      assert [] + rest == rest && pending + [] == pending;
      PrependTwice([], [], ServeBody(cfg, d, rest));
    } else {
      var (c1, out) := k.update(c, blocks[0]);
      var tail := EncodeBlocks(k, c1, blocks[1..]).1;
      assert UpdateLaw(k, c, d, pending, blocks[0]);
      var d1, ps1, left1 := OutputServed(k, cfg, c1, d, out, pending + blocks[0], tail + rest);
      var ps2;
      d', ps2, left := BlocksServed(k, cfg, c1, d1, left1, blocks[1..], rest);
      pieces := ps1 + ps2;
      PrependTwice(ps1, ps2, ServeBody(cfg, d', rest));
      Associates(BlockFrame(out), tail, rest);
      FlatAppend(ps1, ps2);
      Accounting(Flat(ps1), left1, pending, blocks[0], Flat(blocks[1..]), Flat(ps2), left);
    }
  }

  lemma Accounting(a: Bytes, l1: Bytes, p: Bytes, x: Bytes, xs: Bytes, b: Bytes, l: Bytes)
    requires a + l1 == p + x && b + l == l1 + xs
    ensures (a + b) + l == p + (x + xs)
  {
    assert (a + b) + l == a + (b + l) == (a + l1) + xs == p + (x + xs);
  }

  /** The body of a unit: all of its bytes arrive by the end marker, and the codec states agree. */
  lemma BodyServed<C(!new), D(!new)>(
    k: Codec<C, D>, cfg: Config<D>, c: C, d: D, blocks: seq<Bytes>, trailer: Bytes, rest: Bytes)
    returns (d': D, pieces: seq<Bytes>)
    requires Lawful(k) && cfg.decode == k.decode && k.synced(c, d, []) && ReadAhead(blocks)
    ensures k.synced(EncodeBody(k, c, blocks, trailer).0, d', [])
    ensures ServeBody(cfg, d, EncodeBody(k, c, blocks, trailer).1 + rest) == Body(d', pieces, true, trailer + rest)
    ensures Flat(pieces) == Flat(blocks)
  {
    var (c1, body) := EncodeBlocks(k, c, blocks);
    var (c2, out) := k.flush(c1);
    var end := [END_OF_UNIT] + trailer;
    var d1, ps1, left := BlocksServed(k, cfg, c, d, [], blocks, BlockFrame(out) + (end + rest));
    assert FlushLaw(k, c1, d1, left);
    var ps2, none;
    d', ps2, none := OutputServed(k, cfg, c2, d1, out, left, end + rest);
    pieces := ps1 + ps2;
    BodyParts(body, BlockFrame(out), end, rest);
    EndServed(cfg, d', trailer, rest);
    TwoPrepends(ps1, ps2, Body(d', [], true, trailer + rest));
    FlatAppend(ps1, ps2);
    Accounting(Flat(ps1), left, [], Flat(blocks), [], Flat(ps2), none);
  }

  lemma BodyParts(a: Bytes, b: Bytes, c: Bytes, d: Bytes)
    ensures (a + (b + c)) + d == a + (b + (c + d))
  {
  }

  lemma TwoPrepends<D>(a: seq<Bytes>, b: seq<Bytes>, last: Body<D>)
    requires last.pieces == []
    ensures Prepend(a, Prepend(b, last)) == last.(pieces := a + b)
  {
    assert a + (b + []) == a + b;
  }

  lemma EndServed<D>(cfg: Config<D>, d: D, trailer: Bytes, rest: Bytes)
    ensures ServeBody(cfg, d, [END_OF_UNIT] + trailer + rest) == Body(d, [], true, trailer + rest)
  {
    assert ([END_OF_UNIT] + trailer + rest)[1..] == trailer + rest;
  }

  /** Agreement set up by the handshake: same codec, same checksum, every path may be opened. */
  ghost predicate Agreed<C, D>(k: Codec<C, D>, cfg: Config<D>) {
    && cfg.decode == k.decode
    && (forall m :: cfg.digest(m) < Pow256(8))
    && (forall n, t :: cfg.opens(n, t))
  }

  lemma TrailerServed<D>(cfg: Config<D>, content: Bytes, rest: Bytes)
    requires cfg.digest(content) < Pow256(8)
    ensures ReadTrailer(cfg, content, Trailer(cfg.integrity, cfg.digest, content) + rest) == Some(rest)
  {
    var trailer := Trailer(cfg.integrity, cfg.digest, content);
    UnLeOfLe(cfg.digest(content), 8);
    TakeFirst(trailer, rest);
    assert [] + rest == rest;
  }

  function BodyOf<C, D>(k: Codec<C, D>, cfg: Config<D>, c: C, blocks: seq<Bytes>): (C, Bytes) {
    EncodeBody(k, c, blocks, Trailer(cfg.integrity, cfg.digest, Flat(blocks)))
  }

  function Delivered<D>(st: Server<D>, d: D, t: Target, pieces: seq<Bytes>): Server<D> {
    st.(decoder := d, log := st.log + [Delivery(t, pieces, true)])
  }

  /** A unit's body, whoever the header came from: one whole delivery to the right target. */
  lemma UnitServed<C(!new), D(!new)>(
    k: Codec<C, D>, cfg: Config<D>, c: C, st: Server<D>, t: Target, blocks: seq<Bytes>, rest: Bytes)
    returns (d': D, pieces: seq<Bytes>)
    requires Lawful(k) && Agreed(k, cfg) && k.synced(c, st.decoder, []) && ReadAhead(blocks)
    ensures k.synced(BodyOf(k, cfg, c, blocks).0, d', []) && Flat(pieces) == Flat(blocks)
    ensures ServeUnit(cfg, st, t, BodyOf(k, cfg, c, blocks).1 + rest) == Next(Delivered(st, d', t, pieces), rest)
  {
    var trailer := Trailer(cfg.integrity, cfg.digest, Flat(blocks));
    d', pieces := BodyServed(k, cfg, c, st.decoder, blocks, trailer, rest);
    TrailerServed(cfg, Flat(pieces), rest);
  }

  lemma HeaderParsed(t: Target, rest: Bytes)
    requires Sendable(t)
    ensures UnitHeader(t) + rest == [t.kind.Code()] + (Le(|t.path|, 2) + (t.path + (OffsetField(t) + rest)))
    ensures ParseHeader(t.kind, Le(|t.path|, 2) + (t.path + (OffsetField(t) + rest))) == Some((t, rest))
  {
    var s1 := t.path + (OffsetField(t) + rest);
    Widths();
    UnLeOfLe(|t.path|, 2);
    UnLeOfLe(t.offset, 8);
    TakeFirst(Le(|t.path|, 2), s1);
    TakeFirst(t.path, OffsetField(t) + rest);
    TakeFirst(OffsetField(t), rest);
  }

  // ---------------------------------------------------------------------------
  // Whole streams
  // ---------------------------------------------------------------------------

  /** A unit as the client holds it: its target and its read-ahead blocks. */
  datatype Unit = Unit(target: Target, blocks: seq<Bytes>)

  ghost predicate SendableUnit(u: Unit) { Sendable(u.target) && ReadAhead(u.blocks) }

  function EncodeUnits<C, D>(k: Codec<C, D>, cfg: Config<D>, c: C, us: seq<Unit>): Bytes {
    if us == [] then [END]
    else
      var (c', body) := BodyOf(k, cfg, c, us[0].blocks);
      UnitHeader(us[0].target) + (body + EncodeUnits(k, cfg, c', us[1..]))
  }

  lemma AfterFirst(b: Byte, s: Bytes)
    ensures ([b] + s)[0] == b && ([b] + s)[1..] == s
  {
  }

  lemma PlainUnitServed<C(!new), D(!new)>(
    k: Codec<C, D>, cfg: Config<D>, c: C, st: Server<D>, u: Unit, rest: Bytes)
    returns (d': D, pieces: seq<Bytes>)
    requires Lawful(k) && Agreed(k, cfg) && !cfg.accept && k.synced(c, st.decoder, []) && SendableUnit(u)
    ensures k.synced(BodyOf(k, cfg, c, u.blocks).0, d', []) && Flat(pieces) == Flat(u.blocks)
    ensures ServeFrame(cfg, st, UnitHeader(u.target) + (BodyOf(k, cfg, c, u.blocks).1 + rest))
            == Next(Delivered(st, d', u.target, pieces), rest)
  {
    var t, after := u.target, BodyOf(k, cfg, c, u.blocks).1 + rest;
    HeaderParsed(t, after);
    AfterFirst(t.kind.Code(), Le(|t.path|, 2) + (t.path + (OffsetField(t) + after)));
    d', pieces := UnitServed(k, cfg, c, st, t, u.blocks, rest);
  }

  /** Each unit arrived whole, in order, at its own target. */
  ghost predicate Arrived(before: seq<Delivery>, log: seq<Delivery>, us: seq<Unit>) {
    && |log| == |before| + |us| && before <= log
    && forall i :: 0 <= i < |us| ==> Matches(log[|before| + i], us[i])
  }

  ghost predicate Matches(d: Delivery, u: Unit) {
    d.target == u.target && Flat(d.pieces) == Flat(u.blocks) && d.ok
  }

  lemma ArrivedFirst(before: seq<Delivery>, d: Delivery, log: seq<Delivery>, us: seq<Unit>)
    requires us != [] && Matches(d, us[0]) && Arrived(before + [d], log, us[1..])
    ensures Arrived(before, log, us)
  {
    forall i | 0 <= i < |us| ensures Matches(log[|before| + i], us[i]) {
      if i > 0 {
        assert us[i] == us[1..][i - 1];
      }
    }
  }

  /** Round trip without a filter: for every list of units, the server recovers types, paths,
      offsets and contents, the codec's state carrying over from unit to unit. */
  lemma {:induction false} UnitsRoundTrip<C(!new), D(!new)>(
    k: Codec<C, D>, cfg: Config<D>, c: C, st: Server<D>, us: seq<Unit>)
    requires Lawful(k) && Agreed(k, cfg) && !cfg.accept && k.synced(c, st.decoder, [])
    requires forall i :: 0 <= i < |us| ==> SendableUnit(us[i])
    ensures Arrived(st.log, Serve(cfg, st, EncodeUnits(k, cfg, c, us)).log, us)
    decreases |us|
  {
    if us != [] {
      var c' := BodyOf(k, cfg, c, us[0].blocks).0;
      var tail := EncodeUnits(k, cfg, c', us[1..]);
      var d', pieces := PlainUnitServed(k, cfg, c, st, us[0], tail);
      var st' := Delivered(st, d', us[0].target, pieces);
      UnitsRoundTrip(k, cfg, c', st', us[1..]);
      ArrivedFirst(st.log, Delivery(us[0].target, pieces, true), Serve(cfg, st', tail).log, us);
    }
  }

  // ---------------------------------------------------------------------------
  // Accept mode
  // ---------------------------------------------------------------------------

  function AskedBy(t: Task, hash: Bytes): Question { Question(t.target, t.length, t.fileSize, t.mtime, hash) }

  predicate SendableTask(t: Task) {
    && 0 < |t.target.path| <= 255 && t.target.offset < Pow256(8)
    && t.length < Pow256(8) && t.fileSize < Pow256(8) && t.mtime < Pow256(8)
  }

  lemma ProbeHeadFields(key: nat, t: Target)
    requires key < Pow256(8) && |t.path| <= 255
    ensures var head := ProbeHead(key, t);
            && |head| == 11 && UnLe(head[..8]) == key && KindOf(head[8]) == Some(t.kind)
            && UnLe(head[9..]) == |t.path|
  {
    var head := ProbeHead(key, t);
    Widths();
    UnLeOfLe(key, 8);
    UnLeOfLe(|t.path|, 2);
    assert head[..8] == Le(key, 8) && head[9..] == Le(|t.path|, 2);
  }

  lemma ProbeSizeFields(t: Task)
    requires SendableTask(t)
    ensures var z := ProbeSizes(t);
            && |z| == 32 && UnLe(z[..8]) == t.target.offset && UnLe(z[8..16]) == t.length
            && UnLe(z[16..24]) == t.fileSize && UnLe(z[24..]) == t.mtime
  {
    var z := ProbeSizes(t);
    Widths();
    UnLeOfLe(t.target.offset, 8);
    UnLeOfLe(t.length, 8);
    UnLeOfLe(t.fileSize, 8);
    UnLeOfLe(t.mtime, 8);
    FourWords(Le(t.target.offset, 8), Le(t.length, 8), Le(t.fileSize, 8), Le(t.mtime, 8));
  }

  lemma FourWords(a: Bytes, b: Bytes, c: Bytes, d: Bytes)
    requires |a| == |b| == |c| == |d| == 8
    ensures var z := a + b + c + d;
            |z| == 32 && z[..8] == a && z[8..16] == b && z[16..24] == c && z[24..] == d
  {
  }

  lemma ProbeFields(key: nat, t: Task)
    requires key < Pow256(8) && SendableTask(t)
    ensures var head, z := ProbeHead(key, t.target), ProbeSizes(t);
            && |head| == 11 && UnLe(head[..8]) == key && KindOf(head[8]) == Some(t.target.kind)
            && UnLe(head[9..]) == |t.target.path|
            && |z| == 32 && UnLe(z[..8]) == t.target.offset && UnLe(z[8..16]) == t.length
            && UnLe(z[16..24]) == t.fileSize && UnLe(z[24..]) == t.mtime
  {
    ProbeHeadFields(key, t.target);
    ProbeSizeFields(t);
  }

  /** A probe reaches the filter with every field intact, and its answer is posted under its key. */
  lemma ProbeServed<D>(cfg: Config<D>, st: Server<D>, key: nat, t: Task, hash: Bytes, rest: Bytes)
    requires cfg.accept && key < Pow256(8) && SendableTask(t)
    requires |hash| == if cfg.hashFirst then PROBE_HASH else 0
    ensures var q := AskedBy(t, hash);
            ServeFrame(cfg, st, ProbeFrame(key, t, hash) + rest)
            == Next(Answered(st, key, q, cfg.filter(st.asked, q)), rest)
  {
    ProbeParsed(cfg.hashFirst, key, t, hash, rest);
    AfterType(ProbeHead(key, t.target), t.target.path, ProbeSizes(t), hash, rest);
  }

  lemma AfterType(a: Bytes, b: Bytes, c: Bytes, d: Bytes, e: Bytes)
    ensures ([PROBE] + (a + (b + (c + d))) + e)[1..] == a + (b + (c + (d + e)))
    ensures ([PROBE] + (a + (b + (c + d))) + e)[0] == PROBE
  {
    var body := a + (b + (c + d));
    assert ([PROBE] + body + e)[1..] == body + e;
  }

  lemma ProbeParsed(hashFirst: bool, key: nat, t: Task, hash: Bytes, rest: Bytes)
    requires key < Pow256(8) && SendableTask(t) && |hash| == if hashFirst then PROBE_HASH else 0
    ensures ParseProbe(hashFirst, ProbeHead(key, t.target) + (t.target.path + (ProbeSizes(t) + (hash + rest))))
            == Some((key, AskedBy(t, hash), rest))
  {
    ProbeFields(key, t);
    TakeFirst(ProbeHead(key, t.target), t.target.path + (ProbeSizes(t) + (hash + rest)));
    TakeFirst(t.target.path, ProbeSizes(t) + (hash + rest));
    TakeFirst(ProbeSizes(t), hash + rest);
    TakeFirst(hash, rest);
  }

  /** The client reads back the decision and the key from a posted reply. */
  lemma ReplyRead(accept: bool, key: nat)
    requires key < Pow256(8)
    ensures var reply := ReplyFrame(accept, key);
            |reply| == 9 && UnLe(reply[1..]) == key && (reply[0] == REPLY_ACCEPT <==> accept)
  {
    UnLeOfLe(key, 8);
    assert ReplyFrame(accept, key)[1..] == Le(key, 8);
  }

  /** An accepted unit goes to the target of its probe, and its key is used up. */
  lemma AcceptedServed<C(!new), D(!new)>(
    k: Codec<C, D>, cfg: Config<D>, c: C, st: Server<D>, key: nat, blocks: seq<Bytes>, rest: Bytes)
    returns (d': D, pieces: seq<Bytes>)
    requires Lawful(k) && Agreed(k, cfg) && cfg.accept && k.synced(c, st.decoder, []) && ReadAhead(blocks)
    requires key < Pow256(8) && key in st.accepted
    ensures k.synced(BodyOf(k, cfg, c, blocks).0, d', []) && Flat(pieces) == Flat(blocks)
    ensures ServeFrame(cfg, st, AcceptedHeader(key) + (BodyOf(k, cfg, c, blocks).1 + rest))
            == Next(Delivered(st.(accepted := st.accepted - {key}), d', st.accepted[key], pieces), rest)
  {
    var after := BodyOf(k, cfg, c, blocks).1 + rest;
    UnLeOfLe(key, 8);
    TakeFirst(Le(key, 8), after);
    assert (AcceptedHeader(key) + after)[1..] == Le(key, 8) + after;
    d', pieces := UnitServed(k, cfg, c, st.(accepted := st.accepted - {key}), st.accepted[key], blocks, rest);
  }
}
