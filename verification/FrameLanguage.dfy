/** What the server understands, written out byte for byte: the frames of a session as text, when a
    frame is in order, and what it does. The reader of server/connection.cxx takes exactly these and
    stops at anything else. */
module FrameLanguage {
  import opened Basics
  import opened Bytes
  import opened Frames

  /** The compressed blocks of a unit as sent, and what follows its end marker. */
  datatype Wire = Wire(blocks: seq<Bytes>, trailer: Bytes)

  datatype Frame =
    | Ask(key: nat, question: Question)
    | Plain(target: Target, unit: Wire)
    | Use(key: nat, unit: Wire)

  // ---------------------------------------------------------------------------
  // Text
  // ---------------------------------------------------------------------------

  function KindText(k: Kind): Byte { match k case File => 0 case Chunk => 1 }

  function OffsetText(t: Target): Bytes { if t.kind.Chunk? then Le(t.offset, 8) else [] }

  function HeaderText(t: Target): Bytes { Le(|t.path|, 2) + (t.path + OffsetText(t)) }

  function AskHeadText(key: nat, t: Target): Bytes { Le(key, 8) + ([KindText(t.kind)] + Le(|t.path|, 2)) }

  function AskSizesText(q: Question): Bytes {
    Le(q.target.offset, 8) + (Le(q.length, 8) + (Le(q.fileSize, 8) + Le(q.mtime, 8)))
  }

  function AskText(key: nat, q: Question): Bytes {
    AskHeadText(key, q.target) + (q.target.path + (AskSizesText(q) + q.hash))
  }

  function BlockText(b: Bytes): Bytes { Le(|b|, 4) + b }

  function BlocksText(bs: seq<Bytes>): Bytes {
    if bs == [] then [] else [1] + (BlockText(bs[0]) + BlocksText(bs[1..]))
  }

  function WireText(u: Wire): Bytes { BlocksText(u.blocks) + ([0] + u.trailer) }

  function Text(f: Frame): Bytes {
    match f
    case Ask(key, q) => [2] + AskText(key, q)
    case Plain(t, u) => [KindText(t.kind)] + (HeaderText(t) + WireText(u))
    case Use(key, u) => [3] + (Le(key, 8) + WireText(u))
  }

  // ---------------------------------------------------------------------------
  // Good order and effect
  // ---------------------------------------------------------------------------

  predicate Word(x: nat) { x < 0x1_0000_0000_0000_0000 }

  predicate GoodPath(p: Bytes) { 1 <= |p| <= 4096 }

  predicate GoodHeader(t: Target) { GoodPath(t.path) && Word(t.offset) && (t.kind.File? ==> t.offset == 0) }

  predicate GoodAsk(hashFirst: bool, key: nat, q: Question) {
    && Word(key) && GoodPath(q.target.path) && Word(q.target.offset) && Word(q.length) && Word(q.fileSize) && Word(q.mtime)
    && |q.hash| == if hashFirst then 32 else 0
  }

  predicate GoodBlock(b: Bytes) { 1 <= |b| <= 67108864 }

  /** Each block is of a proper size and decodes. */
  predicate GoodBlocks<D>(cfg: Config<D>, d: D, bs: seq<Bytes>)
    decreases bs
  {
    bs == [] || (GoodBlock(bs[0]) && cfg.decode(d, bs[0]).ok && GoodBlocks(cfg, cfg.decode(d, bs[0]).state, bs[1..]))
  }

  function DecoderAfter<D>(cfg: Config<D>, d: D, bs: seq<Bytes>): D
    decreases bs
  {
    if bs == [] then d else DecoderAfter(cfg, cfg.decode(d, bs[0]).state, bs[1..])
  }

  function Plaintext<D>(cfg: Config<D>, d: D, bs: seq<Bytes>): seq<Bytes>
    decreases bs
  {
    if bs == [] then [] else cfg.decode(d, bs[0]).pieces + Plaintext(cfg, cfg.decode(d, bs[0]).state, bs[1..])
  }

  /** The checksum of what was decoded, or nothing at all. */
  predicate GoodTrailer<D>(cfg: Config<D>, content: Bytes, trailer: Bytes) {
    if cfg.integrity then |trailer| == 8 && UnLe(trailer) == cfg.digest(content) else trailer == []
  }

  predicate GoodUnit<D>(cfg: Config<D>, st: Server<D>, t: Target, u: Wire) {
    && cfg.opens(|st.log|, t) && GoodBlocks(cfg, st.decoder, u.blocks)
    && GoodTrailer(cfg, Flat(Plaintext(cfg, st.decoder, u.blocks)), u.trailer)
  }

  /** A frame the server carries on after: probes and their use in accept mode, plain units without. */
  predicate Good<D>(cfg: Config<D>, st: Server<D>, f: Frame) {
    match f
    case Ask(key, q) => cfg.accept && GoodAsk(cfg.hashFirst, key, q)
    case Plain(t, u) => !cfg.accept && GoodHeader(t) && GoodUnit(cfg, st, t, u)
    case Use(key, u) => cfg.accept && key in st.accepted && Word(key) && GoodUnit(cfg, st, st.accepted[key], u)
  }

  function AfterUnit<D>(cfg: Config<D>, st: Server<D>, t: Target, u: Wire): Server<D> {
    st.(decoder := DecoderAfter(cfg, st.decoder, u.blocks),
        log := st.log + [Delivery(t, Plaintext(cfg, st.decoder, u.blocks), true)])
  }

  /** A probe is put to the filter, remembered if accepted, and answered under its key; a unit is
      written and logged, and a key used up. */
  function Effect<D>(cfg: Config<D>, st: Server<D>, f: Frame): Server<D>
    requires Good(cfg, st, f)
  {
    match f
    case Ask(key, q) =>
      var yes := cfg.filter(st.asked, q);
      st.(asked := st.asked + 1,
          accepted := if yes then st.accepted[key := q.target] else st.accepted,
          granted := if yes then st.granted + [q.target] else st.granted,
          posted := st.posted + ([if yes then 0 else 1] + Le(key, 8)))
    case Plain(t, u) => AfterUnit(cfg, st, t, u)
    case Use(key, u) => AfterUnit(cfg, st.(accepted := st.accepted - {key}), st.accepted[key], u)
  }

  // ---------------------------------------------------------------------------
  // Fields
  // ---------------------------------------------------------------------------

  lemma HeaderReads(kind: Kind, s: Bytes) returns (t: Target, rest: Bytes)
    requires ParseHeader(kind, s).Some?
    ensures ParseHeader(kind, s) == Some((t, rest)) && GoodHeader(t) && t.kind == kind && s == HeaderText(t) + rest
  {
    var (len, s1) := Take(s, 2).value;
    var (path, s2) := Take(s1, UnLe(len)).value;
    var (offset, s3) := Take(s2, if kind.Chunk? then 8 else 0).value;
    t, rest := Target(kind, path, UnLe(offset)), s3;
    Widths();
    LeOfUnLe(len);
    LeOfUnLe(offset);
    assert OffsetText(t) == offset;
    ThreeThen(len, path, offset, rest);
  }

  lemma ThreeThen(a: Bytes, b: Bytes, c: Bytes, d: Bytes)
    ensures a + (b + (c + d)) == (a + (b + c)) + d
  {
  }

  lemma HeaderServes(t: Target, rest: Bytes)
    requires GoodHeader(t)
    ensures ParseHeader(t.kind, HeaderText(t) + rest) == Some((t, rest))
  {
    Widths();
    UnLeOfLe(|t.path|, 2);
    UnLeOfLe(t.offset, 8);
    ThreeThen(Le(|t.path|, 2), t.path, OffsetText(t), rest);
    TakeFirst(Le(|t.path|, 2), t.path + (OffsetText(t) + rest));
    TakeFirst(t.path, OffsetText(t) + rest);
    TakeFirst(OffsetText(t), rest);
  }

  /** The header parser takes exactly the headers in good order. */
  lemma HeaderExact(kind: Kind, s: Bytes, t: Target, rest: Bytes)
    ensures ParseHeader(kind, s) == Some((t, rest)) <==> GoodHeader(t) && t.kind == kind && s == HeaderText(t) + rest
  {
    if ParseHeader(kind, s).Some? {
      var t', rest' := HeaderReads(kind, s);
    }
    if GoodHeader(t) && t.kind == kind && s == HeaderText(t) + rest {
      HeaderServes(t, rest);
    }
  }

  lemma KindIs(b: Byte, k: Kind)
    ensures KindOf(b) == Some(k) <==> b == KindText(k)
  {
  }

  lemma HeadIs(head: Bytes, key: nat, t: Target)
    requires Word(key) && |t.path| <= 4096
    ensures |head| == 11 && UnLe(head[..8]) == key && KindOf(head[8]) == Some(t.kind) && UnLe(head[9..]) == |t.path|
            <==> head == AskHeadText(key, t)
  {
    Widths();
    var text := AskHeadText(key, t);
    assert text[..8] == Le(key, 8) && text[8] == KindText(t.kind) && text[9..] == Le(|t.path|, 2);
    UnLeOfLe(key, 8);
    UnLeOfLe(|t.path|, 2);
    if |head| == 11 && UnLe(head[..8]) == key && KindOf(head[8]) == Some(t.kind) && UnLe(head[9..]) == |t.path| {
      LeOfUnLe(head[..8]);
      LeOfUnLe(head[9..]);
      assert head == head[..8] + ([head[8]] + head[9..]);
    }
  }

  lemma FourNumbers(a: Bytes, b: Bytes, c: Bytes, d: Bytes)
    requires |a| == |b| == |c| == |d| == 8
    ensures var z := a + (b + (c + d)); |z| == 32 && z[..8] == a && z[8..16] == b && z[16..24] == c && z[24..] == d
  {
  }

  lemma FourParts(z: Bytes)
    requires |z| == 32
    ensures z == z[..8] + (z[8..16] + (z[16..24] + z[24..]))
  {
  }

  lemma SizesAre(z: Bytes, q: Question)
    requires Word(q.target.offset) && Word(q.length) && Word(q.fileSize) && Word(q.mtime)
    ensures |z| == 32 && UnLe(z[..8]) == q.target.offset && UnLe(z[8..16]) == q.length
            && UnLe(z[16..24]) == q.fileSize && UnLe(z[24..]) == q.mtime
            <==> z == AskSizesText(q)
  {
    Widths();
    UnLeOfLe(q.target.offset, 8);
    UnLeOfLe(q.length, 8);
    UnLeOfLe(q.fileSize, 8);
    UnLeOfLe(q.mtime, 8);
    FourNumbers(Le(q.target.offset, 8), Le(q.length, 8), Le(q.fileSize, 8), Le(q.mtime, 8));
    if |z| == 32 {
      LeOfUnLe(z[..8]);
      LeOfUnLe(z[8..16]);
      LeOfUnLe(z[16..24]);
      LeOfUnLe(z[24..]);
      FourParts(z);
    }
  }

  lemma AskReads(hashFirst: bool, s: Bytes) returns (key: nat, q: Question, rest: Bytes)
    requires ParseProbe(hashFirst, s).Some?
    ensures ParseProbe(hashFirst, s) == Some((key, q, rest)) && GoodAsk(hashFirst, key, q) && s == AskText(key, q) + rest
  {
    var (head, s1) := Take(s, 11).value;
    var (path, s2) := Take(s1, UnLe(head[9..])).value;
    var (z, s3) := Take(s2, 32).value;
    var (hash, s4) := Take(s3, if hashFirst then PROBE_HASH else 0).value;
    Widths();
    key := UnLe(head[..8]);
    q := Question(Target(KindOf(head[8]).value, path, UnLe(z[..8])), UnLe(z[8..16]), UnLe(z[16..24]), UnLe(z[24..]), hash);
    rest := s4;
    HeadIs(head, key, q.target);
    SizesAre(z, q);
    FourThen(head, path, z, hash, rest);
  }

  lemma FourThen(a: Bytes, b: Bytes, c: Bytes, d: Bytes, e: Bytes)
    ensures a + (b + (c + (d + e))) == (a + (b + (c + d))) + e
  {
    ThreeThen(b, c, d, e);
    Associates(a, b + (c + d), e);
  }

  lemma AskServes(hashFirst: bool, key: nat, q: Question, rest: Bytes)
    requires GoodAsk(hashFirst, key, q)
    ensures ParseProbe(hashFirst, AskText(key, q) + rest) == Some((key, q, rest))
  {
    var head, path, z := AskHeadText(key, q.target), q.target.path, AskSizesText(q);
    HeadIs(head, key, q.target);
    SizesAre(z, q);
    FourThen(head, path, z, q.hash, rest);
    TakeFirst(head, path + (z + (q.hash + rest)));
    TakeFirst(path, z + (q.hash + rest));
    TakeFirst(z, q.hash + rest);
    TakeFirst(q.hash, rest);
  }

  /** The probe parser takes exactly the probes in good order. */
  lemma ProbeExact(hashFirst: bool, s: Bytes, key: nat, q: Question, rest: Bytes)
    ensures ParseProbe(hashFirst, s) == Some((key, q, rest)) <==> GoodAsk(hashFirst, key, q) && s == AskText(key, q) + rest
  {
    if ParseProbe(hashFirst, s).Some? {
      var key', q', rest' := AskReads(hashFirst, s);
    }
    if GoodAsk(hashFirst, key, q) && s == AskText(key, q) + rest {
      AskServes(hashFirst, key, q, rest);
    }
  }

  /** The block reader takes exactly one to 64 MiB under their own length. */
  lemma BlockExact(s: Bytes, b: Bytes, rest: Bytes)
    ensures ReadBlock(s) == Some((b, rest)) <==> GoodBlock(b) && s == BlockText(b) + rest
  {
    Widths();
    if ReadBlock(s) == Some((b, rest)) {
      var (len, s1) := Take(s, 4).value;
      LeOfUnLe(len);
      Associates(len, b, rest);
    }
    if GoodBlock(b) && s == BlockText(b) + rest {
      UnLeOfLe(|b|, 4);
      Associates(Le(|b|, 4), b, rest);
      TakeFirst(Le(|b|, 4), b + rest);
      TakeFirst(b, rest);
    }
  }

  /** The trailer check takes exactly the eight bytes of the content's checksum, or nothing when none
      was agreed on. */
  lemma TrailerExact<D>(cfg: Config<D>, content: Bytes, s: Bytes, rest: Bytes)
    ensures ReadTrailer(cfg, content, s) == Some(rest) <==> exists tr :: GoodTrailer(cfg, content, tr) && s == tr + rest
  {
    if ReadTrailer(cfg, content, s) == Some(rest) {
      var tr: Bytes := if cfg.integrity then Take(s, 8).value.0 else [];
      assert GoodTrailer(cfg, content, tr) && s == tr + rest;
    }
    if tr :| GoodTrailer(cfg, content, tr) && s == tr + rest {
      TrailerServes(cfg, content, tr, rest);
    }
  }

  lemma TrailerServes<D>(cfg: Config<D>, content: Bytes, tr: Bytes, rest: Bytes)
    requires GoodTrailer(cfg, content, tr)
    ensures ReadTrailer(cfg, content, tr + rest) == Some(rest)
  {
    if cfg.integrity {
      TakeFirst(tr, rest);
    } else {
      EmptyFront(rest);
    }
  }

  /** Any other eight bytes are refused. */
  lemma WrongTrailer<D>(cfg: Config<D>, content: Bytes, sum: Bytes, rest: Bytes)
    requires cfg.integrity && |sum| == 8 && cfg.digest(content) < Pow256(8) && sum != Le(cfg.digest(content), 8)
    ensures ReadTrailer(cfg, content, sum + rest).None?
  {
    LeOfUnLe(sum);
    TakeFirst(sum, rest);
  }

  // ---------------------------------------------------------------------------
  // Units
  // ---------------------------------------------------------------------------

  lemma {:induction false} BodyReads<D>(cfg: Config<D>, d: D, s: Bytes) returns (bs: seq<Bytes>)
    requires ServeBody(cfg, d, s).done
    ensures GoodBlocks(cfg, d, bs) && s == BlocksText(bs) + ([0] + ServeBody(cfg, d, s).rest)
    ensures ServeBody(cfg, d, s).decoder == DecoderAfter(cfg, d, bs) && ServeBody(cfg, d, s).pieces == Plaintext(cfg, d, bs)
    decreases |s|
  {
    assert s == [s[0]] + s[1..];
    if s[0] == 0 {
      bs := [];
      EmptyFront(s);
    } else {
      var (b, rest) := ReadBlock(s[1..]).value;
      BlockExact(s[1..], b, rest);
      var more := BodyReads(cfg, cfg.decode(d, b).state, rest);
      bs := [b] + more;
      assert bs[1..] == more;
      MoreBlocks(b, more, ServeBody(cfg, d, s).rest);
    }
  }

  lemma MoreBlocks(b: Bytes, bs: seq<Bytes>, rest: Bytes)
    ensures [1] + (BlockText(b) + (BlocksText(bs) + ([0] + rest))) == BlocksText([b] + bs) + ([0] + rest)
  {
    assert ([b] + bs)[1..] == bs;
    ThreeThen([1], BlockText(b), BlocksText(bs), [0] + rest);
  }

  lemma {:induction false} BodyServes<D>(cfg: Config<D>, d: D, bs: seq<Bytes>, rest: Bytes)
    requires GoodBlocks(cfg, d, bs)
    ensures ServeBody(cfg, d, BlocksText(bs) + ([0] + rest)) == Body(DecoderAfter(cfg, d, bs), Plaintext(cfg, d, bs), true, rest)
    decreases bs
  {
    var s := BlocksText(bs) + ([0] + rest);
    if bs == [] {
      EmptyFront([0] + rest);
      assert ([0] + rest)[1..] == rest;
    } else {
      var more := BlocksText(bs[1..]) + ([0] + rest);
      assert bs == [bs[0]] + bs[1..];
      MoreBlocks(bs[0], bs[1..], rest);
      assert s[1..] == BlockText(bs[0]) + more;
      BlockExact(s[1..], bs[0], more);
      BodyServes(cfg, cfg.decode(d, bs[0]).state, bs[1..], rest);
    }
  }

  lemma UnitReads<D>(cfg: Config<D>, st: Server<D>, t: Target, s: Bytes) returns (u: Wire, rest: Bytes)
    requires ServeUnit(cfg, st, t, s).Next?
    ensures GoodUnit(cfg, st, t, u) && s == WireText(u) + rest && ServeUnit(cfg, st, t, s) == Next(AfterUnit(cfg, st, t, u), rest)
  {
    var b := ServeBody(cfg, st.decoder, s);
    var bs := BodyReads(cfg, st.decoder, s);
    rest := ReadTrailer(cfg, Flat(b.pieces), b.rest).value;
    TrailerExact(cfg, Flat(b.pieces), b.rest, rest);
    var tr :| GoodTrailer(cfg, Flat(b.pieces), tr) && b.rest == tr + rest;
    u := Wire(bs, tr);
    ThreeThen(BlocksText(bs), [0], tr, rest);
  }

  lemma UnitServes<D>(cfg: Config<D>, st: Server<D>, t: Target, u: Wire, rest: Bytes)
    requires GoodUnit(cfg, st, t, u)
    ensures ServeUnit(cfg, st, t, WireText(u) + rest) == Next(AfterUnit(cfg, st, t, u), rest)
  {
    ThreeThen(BlocksText(u.blocks), [0], u.trailer, rest);
    BodyServes(cfg, st.decoder, u.blocks, u.trailer + rest);
    TrailerServes(cfg, Flat(Plaintext(cfg, st.decoder, u.blocks)), u.trailer, rest);
  }

  // ---------------------------------------------------------------------------
  // Frames
  // ---------------------------------------------------------------------------

  lemma FirstByte(b: Byte, s: Bytes)
    ensures ([b] + s)[0] == b && ([b] + s)[1..] == s
  {
  }

  lemma AskFrameServes<D>(cfg: Config<D>, st: Server<D>, f: Frame, rest: Bytes)
    requires f.Ask? && Good(cfg, st, f)
    ensures ServeFrame(cfg, st, Text(f) + rest) == Next(Effect(cfg, st, f), rest)
  {
    Associates([2], AskText(f.key, f.question), rest);
    FirstByte(2, AskText(f.key, f.question) + rest);
    AskServes(cfg.hashFirst, f.key, f.question, rest);
  }

  lemma PlainFrameServes<D>(cfg: Config<D>, st: Server<D>, f: Frame, rest: Bytes)
    requires f.Plain? && Good(cfg, st, f)
    ensures ServeFrame(cfg, st, Text(f) + rest) == Next(Effect(cfg, st, f), rest)
  {
    hide GoodHeader, GoodUnit, HeaderText, WireText, ParseHeader, ServeUnit, AfterUnit;
    var t, u := f.target, f.unit;
    var after := HeaderText(t) + (WireText(u) + rest);
    ThreeThen([KindText(t.kind)], HeaderText(t), WireText(u), rest);
    FirstByte(KindText(t.kind), after);
    HeaderServes(t, WireText(u) + rest);
    UnitServes(cfg, st, t, u, rest);
  }

  lemma UseFrameServes<D>(cfg: Config<D>, st: Server<D>, f: Frame, rest: Bytes)
    requires f.Use? && Good(cfg, st, f)
    ensures ServeFrame(cfg, st, Text(f) + rest) == Next(Effect(cfg, st, f), rest)
  {
    var key, u := f.key, f.unit;
    var after := Le(key, 8) + (WireText(u) + rest);
    ThreeThen([3], Le(key, 8), WireText(u), rest);
    FirstByte(3, after);
    Widths();
    UnLeOfLe(key, 8);
    TakeFirst(Le(key, 8), WireText(u) + rest);
    UnitServes(cfg, st.(accepted := st.accepted - {key}), st.accepted[key], u, rest);
  }

  lemma FrameServes<D>(cfg: Config<D>, st: Server<D>, f: Frame, rest: Bytes)
    requires Good(cfg, st, f)
    ensures ServeFrame(cfg, st, Text(f) + rest) == Next(Effect(cfg, st, f), rest)
  {
    match f
    case Ask(_, _) => AskFrameServes(cfg, st, f, rest);
    case Plain(_, _) => PlainFrameServes(cfg, st, f, rest);
    case Use(_, _) => UseFrameServes(cfg, st, f, rest);
  }

  lemma FrameReads<D>(cfg: Config<D>, st: Server<D>, s: Bytes) returns (f: Frame, rest: Bytes)
    requires ServeFrame(cfg, st, s).Next?
    ensures Good(cfg, st, f) && s == Text(f) + rest && ServeFrame(cfg, st, s) == Next(Effect(cfg, st, f), rest)
  {
    if s[0] == 2 {
      f, rest := AskFrameReads(cfg, st, s);
    } else if s[0] == 3 {
      f, rest := UseFrameReads(cfg, st, s);
    } else {
      f, rest := PlainFrameReads(cfg, st, s);
    }
  }

  lemma AskFrameReads<D>(cfg: Config<D>, st: Server<D>, s: Bytes) returns (f: Frame, rest: Bytes)
    requires s != [] && s[0] == 2 && ServeFrame(cfg, st, s).Next?
    ensures Good(cfg, st, f) && s == Text(f) + rest && ServeFrame(cfg, st, s) == Next(Effect(cfg, st, f), rest)
  {
    assert s == [s[0]] + s[1..];
    var key, q;
    key, q, rest := AskReads(cfg.hashFirst, s[1..]);
    f := Ask(key, q);
    Associates([2], AskText(key, q), rest);
  }

  lemma UseFrameReads<D>(cfg: Config<D>, st: Server<D>, s: Bytes) returns (f: Frame, rest: Bytes)
    requires s != [] && s[0] == 3 && ServeFrame(cfg, st, s).Next?
    ensures Good(cfg, st, f) && s == Text(f) + rest && ServeFrame(cfg, st, s) == Next(Effect(cfg, st, f), rest)
  {
    assert s == [s[0]] + s[1..];
    var (bytes, s1) := Take(s[1..], 8).value;
    var key := UnLe(bytes);
    Widths();
    LeOfUnLe(bytes);
    var u;
    u, rest := UnitReads(cfg, st.(accepted := st.accepted - {key}), st.accepted[key], s1);
    f := Use(key, u);
    ThreeThen([3], bytes, WireText(u), rest);
  }

  lemma PlainFrameReads<D>(cfg: Config<D>, st: Server<D>, s: Bytes) returns (f: Frame, rest: Bytes)
    requires s != [] && s[0] != 2 && s[0] != 3 && ServeFrame(cfg, st, s).Next?
    ensures Good(cfg, st, f) && s == Text(f) + rest && ServeFrame(cfg, st, s) == Next(Effect(cfg, st, f), rest)
  {
    hide GoodHeader, GoodUnit, HeaderText, WireText, ParseHeader, ServeUnit, AfterUnit;
    assert s == [s[0]] + s[1..];
    var t, s1 := HeaderReads(KindOf(s[0]).value, s[1..]);
    var u;
    u, rest := UnitReads(cfg, st, t, s1);
    f := Plain(t, u);
    ThreeThen([s[0]], HeaderText(t), WireText(u), rest);
  }

  /** The server carries on exactly when the next bytes are a frame in good order, and then does what
      that frame says. */
  lemma FrameExact<D>(cfg: Config<D>, st: Server<D>, s: Bytes, st': Server<D>, rest: Bytes)
    ensures ServeFrame(cfg, st, s) == Next(st', rest)
            <==> exists f :: Good(cfg, st, f) && s == Text(f) + rest && st' == Effect(cfg, st, f)
  {
    if ServeFrame(cfg, st, s) == Next(st', rest) {
      var f, rest' := FrameReads(cfg, st, s);
    }
    if f :| Good(cfg, st, f) && s == Text(f) + rest && st' == Effect(cfg, st, f) {
      FrameServes(cfg, st, f, rest);
    }
  }

  /** When it stops it has posted nothing, granted nothing, and logged at most one unit, as failed. */
  lemma StopLeaves<D>(cfg: Config<D>, st: Server<D>, s: Bytes)
    requires ServeFrame(cfg, st, s).Stop?
    ensures var st' := ServeFrame(cfg, st, s).server;
            && st'.posted == st.posted && st'.granted == st.granted && st'.asked == st.asked
            && (st'.log == st.log || (|st'.log| == |st.log| + 1 && st'.log[..|st.log|] == st.log && !st'.log[|st.log|].ok))
  {
  }

  // ---------------------------------------------------------------------------
  // Sessions
  // ---------------------------------------------------------------------------

  function Texts(fs: seq<Frame>): Bytes { if fs == [] then [] else Text(fs[0]) + Texts(fs[1..]) }

  predicate GoodAll<D>(cfg: Config<D>, st: Server<D>, fs: seq<Frame>)
    decreases |fs|
  {
    fs == [] || (Good(cfg, st, fs[0]) && GoodAll(cfg, Effect(cfg, st, fs[0]), fs[1..]))
  }

  function Effects<D>(cfg: Config<D>, st: Server<D>, fs: seq<Frame>): Server<D>
    requires GoodAll(cfg, st, fs)
    decreases |fs|
  {
    if fs == [] then st else Effects(cfg, Effect(cfg, st, fs[0]), fs[1..])
  }

  /** No frame in good order comes next. */
  ghost predicate Stuck<D(!new)>(cfg: Config<D>, st: Server<D>, s: Bytes) {
    !exists f, rest :: Good(cfg, st, f) && s == Text(f) + rest
  }

  lemma StopIsStuck<D(!new)>(cfg: Config<D>, st: Server<D>, s: Bytes)
    ensures ServeFrame(cfg, st, s).Stop? <==> Stuck(cfg, st, s)
  {
    if ServeFrame(cfg, st, s).Next? {
      var f, rest := FrameReads(cfg, st, s);
    }
    if f, rest :| Good(cfg, st, f) && s == Text(f) + rest {
      FrameServes(cfg, st, f, rest);
    }
  }

  /** Any bytes are a run of frames in good order, all carried out, and a rest that does not begin
      with one; at the rest the server stops, having logged at most one failed unit more. */
  lemma {:induction false} ServeExact<D(!new)>(cfg: Config<D>, st: Server<D>, s: Bytes) returns (fs: seq<Frame>, rest: Bytes)
    ensures GoodAll(cfg, st, fs) && s == Texts(fs) + rest && Stuck(cfg, Effects(cfg, st, fs), rest)
    ensures Serve(cfg, st, s) == ServeFrame(cfg, Effects(cfg, st, fs), rest).server
    decreases |s|
  {
    if ServeFrame(cfg, st, s).Stop? {
      fs, rest := [], s;
      EmptyFront(s);
      StopIsStuck(cfg, st, s);
    } else {
      var f, s1 := FrameReads(cfg, st, s);
      var more;
      more, rest := ServeExact(cfg, Effect(cfg, st, f), s1);
      fs := [f] + more;
      assert fs[1..] == more;
      Associates(Text(f), Texts(more), rest);
    }
  }

  /** The units of a session as it logs them. */
  function Deliveries<D>(cfg: Config<D>, st: Server<D>, fs: seq<Frame>): seq<Delivery>
    requires GoodAll(cfg, st, fs)
    decreases |fs|
  {
    if fs == [] then []
    else
      var st' := Effect(cfg, st, fs[0]);
      (if fs[0].Ask? then [] else [st'.log[|st'.log| - 1]]) + Deliveries(cfg, st', fs[1..])
  }

  lemma {:induction false} EffectsLog<D>(cfg: Config<D>, st: Server<D>, fs: seq<Frame>)
    requires GoodAll(cfg, st, fs)
    ensures Effects(cfg, st, fs).log == st.log + Deliveries(cfg, st, fs)
    decreases |fs|
  {
    if fs != [] {
      var st' := Effect(cfg, st, fs[0]);
      EffectsLog(cfg, st', fs[1..]);
      if fs[0].Ask? {
        EmptyFront(Deliveries(cfg, st', fs[1..]));
      } else {
        assert st'.log == st.log + [st'.log[|st'.log| - 1]];
      }
    } else {
      assert st.log + [] == st.log;
    }
  }

  /** The frame a delivery comes from: a unit whose blocks decode to its pieces and whose trailer, if
      checksums were agreed on, is the checksum of just those bytes. */
  ghost predicate Vouched<D(!new)>(cfg: Config<D>, d: Delivery) {
    exists tr, dec, bs :: GoodTrailer(cfg, Flat(d.pieces), tr) && GoodBlocks(cfg, dec, bs) && d.pieces == Plaintext(cfg, dec, bs)
  }

  lemma {:induction false} DeliveriesVouched<D(!new)>(cfg: Config<D>, st: Server<D>, fs: seq<Frame>, i: nat)
    requires GoodAll(cfg, st, fs) && i < |Deliveries(cfg, st, fs)|
    ensures Deliveries(cfg, st, fs)[i].ok && Vouched(cfg, Deliveries(cfg, st, fs)[i])
    decreases |fs|
  {
    var st' := Effect(cfg, st, fs[0]);
    match fs[0]
    case Ask(_, _) => DeliveriesVouched(cfg, st', fs[1..], i);
    case Plain(_, u) =>
      if i > 0 { DeliveriesVouched(cfg, st', fs[1..], i - 1); } else { UnitVouched(cfg, st.decoder, u, Deliveries(cfg, st, fs)[0]); }
    case Use(_, u) =>
      if i > 0 { DeliveriesVouched(cfg, st', fs[1..], i - 1); } else { UnitVouched(cfg, st.decoder, u, Deliveries(cfg, st, fs)[0]); }
  }

  lemma UnitVouched<D(!new)>(cfg: Config<D>, dec: D, u: Wire, d: Delivery)
    requires GoodBlocks(cfg, dec, u.blocks) && d.pieces == Plaintext(cfg, dec, u.blocks) && GoodTrailer(cfg, Flat(d.pieces), u.trailer)
    ensures Vouched(cfg, d)
  {
  }

  /** The log is what the frames in good order deliver, and at most one failed unit more. */
  lemma ServeLogs<D(!new)>(cfg: Config<D>, st: Server<D>, s: Bytes) returns (fs: seq<Frame>, before: seq<Delivery>)
    requires st.log == []
    ensures GoodAll(cfg, st, fs) && before == Deliveries(cfg, st, fs)
    ensures var log := Serve(cfg, st, s).log;
            log == before || (|log| == |before| + 1 && log[..|before|] == before && !log[|before|].ok)
  {
    var rest;
    fs, rest := ServeExact(cfg, st, s);
    before := Deliveries(cfg, st, fs);
    EffectsLog(cfg, st, fs);
    hide *;
    StopIsStuck(cfg, Effects(cfg, st, fs), rest);
    StopLeaves(cfg, Effects(cfg, st, fs), rest);
    assert [] + before == before;
  }

  /** For any bytes: every unit logged as received carried a matching checksum, and all but the last
      are logged as received. */
  lemma LoggedIsVouched<D(!new)>(cfg: Config<D>, st: Server<D>, s: Bytes, i: nat)
    requires st.log == [] && i < |Serve(cfg, st, s).log|
    ensures var log := Serve(cfg, st, s).log; (i < |log| - 1 ==> log[i].ok) && (log[i].ok ==> Vouched(cfg, log[i]))
  {
    hide *;
    var fs, before := ServeLogs(cfg, st, s);
    var log := Serve(cfg, st, s).log;
    if i < |before| {
      assert log[i] == log[..|before|][i];
      DeliveriesVouched(cfg, st, fs, i);
    }
  }
}
