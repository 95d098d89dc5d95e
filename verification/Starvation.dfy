/** When the server's consumer stops by itself: it has read what it needs and waits for no more bytes
    (server/connection.cxx). */
module Starvation {
  import opened Basics
  import opened Bytes
  import opened Frames
  import Teardown

  // ---------------------------------------------------------------------------
  // Running out of bytes, read by read
  // ---------------------------------------------------------------------------

  predicate StarvesBlock(s: Bytes) {
    |s| < 4 || (0 < UnLe(s[..4]) <= MAX_BLOCK && |s| < 4 + UnLe(s[..4]))
  }

  predicate StarvesBody<D>(cfg: Config<D>, d: D, s: Bytes)
    decreases |s|
  {
    if s == [] then true
    else if s[0] != DATA then false
    else if |s| < 5 then true
    else
      var len := UnLe(s[1..5]);
      if !(0 < len <= MAX_BLOCK) then false
      else if |s| < 5 + len then true
      else
        var r := cfg.decode(d, s[5..5 + len]);
        r.ok && StarvesBody(cfg, r.state, s[5 + len..])
  }

  predicate StarvesUnit<D>(cfg: Config<D>, st: Server<D>, t: Target, s: Bytes) {
    && cfg.opens(|st.log|, t)
    && (StarvesBody(cfg, st.decoder, s)
        || (cfg.integrity && var b := ServeBody(cfg, st.decoder, s); b.done && |b.rest| < 8))
  }

  predicate StarvesProbe(hashFirst: bool, s: Bytes) {
    |s| < 11 || (KindOf(s[8]).Some? && PathFits(UnLe(s[9..11]))
                 && |s| < 11 + UnLe(s[9..11]) + 32 + if hashFirst then PROBE_HASH else 0)
  }

  predicate StarvesHeader(kind: Kind, s: Bytes) {
    |s| < 2 || (PathFits(UnLe(s[..2])) && |s| < 2 + UnLe(s[..2]) + if kind.Chunk? then 8 else 0)
  }

  predicate StarvesAccepted<D>(cfg: Config<D>, st: Server<D>, s: Bytes) {
    |s| < 8 ||
    (var key := UnLe(s[..8]);
     key in st.accepted && StarvesUnit(cfg, st.(accepted := st.accepted - {key}), st.accepted[key], s[8..]))
  }

  predicate StarvesFrame<D>(cfg: Config<D>, st: Server<D>, s: Bytes) {
    if s == [] then true
    else if s[0] == END then false
    else if s[0] == PROBE then cfg.accept && StarvesProbe(cfg.hashFirst, s[1..])
    else if s[0] == ACCEPTED then
      cfg.accept && StarvesAccepted(cfg, st, s[1..])
    else if KindOf(s[0]).Some? then
      !cfg.accept &&
      (StarvesHeader(KindOf(s[0]).value, s[1..]) ||
       (match ParseHeader(KindOf(s[0]).value, s[1..])
        case None => false
        case Some((t, rest)) => StarvesUnit(cfg, st, t, rest)))
    else false
  }

  /** `handle_upload` on an open channel waits for bytes beyond `s`. */
  predicate Starves<D>(cfg: Config<D>, st: Server<D>, s: Bytes)
    decreases |s|
  {
    StarvesFrame(cfg, st, s) ||
    (match ServeFrame(cfg, st, s)
     case Next(st', rest) => Starves(cfg, st', rest)
     case Stop(_) => false)
  }

  lemma StarvesBodyNext<D>(cfg: Config<D>, d: D, s: Bytes)
    requires s != [] && s[0] == DATA
    ensures StarvesBody(cfg, d, s) <==>
            StarvesBlock(s[1..]) ||
            (match ReadBlock(s[1..])
             case None => false
             case Some((b, rest)) => cfg.decode(d, b).ok && StarvesBody(cfg, cfg.decode(d, b).state, rest))
  {
    if |s| >= 5 {
      assert s[1..][..4] == s[1..5];
      var len := UnLe(s[1..5]);
      if 0 < len <= MAX_BLOCK && |s| >= 5 + len {
        BlockRead(s);
      }
    }
  }

  // ---------------------------------------------------------------------------
  // Otherwise later bytes make no difference
  // ---------------------------------------------------------------------------

  function WithRest<D>(b: Body<D>, e: Bytes): Body<D> { if b.done then b.(rest := b.rest + e) else b }

  lemma BlockRead(s: Bytes)
    requires |s| >= 5 && (0 < UnLe(s[1..5]) <= MAX_BLOCK ==> |s| >= 5 + UnLe(s[1..5]))
    ensures var len := UnLe(s[1..5]);
            ReadBlock(s[1..]) == if 0 < len <= MAX_BLOCK then Some((s[5..5 + len], s[5 + len..])) else None
  {
    var len := UnLe(s[1..5]);
    assert s[1..][..4] == s[1..5] && s[1..][4..] == s[5..];
    if 0 < len <= MAX_BLOCK {
      assert s[5..][..len] == s[5..5 + len] && s[5..][len..] == s[5 + len..];
    }
  }

  /** The body after a block that is there in full. */
  function AfterBlock<D>(cfg: Config<D>, d: D, block: Bytes, rest: Bytes): Body<D> {
    var r := cfg.decode(d, block);
    if !r.ok then Body(r.state, r.pieces, false, []) else Prepend(r.pieces, ServeBody(cfg, r.state, rest))
  }

  lemma BodyOfBlock<D>(cfg: Config<D>, d: D, s: Bytes)
    requires |s| >= 5 && s[0] == DATA && (0 < UnLe(s[1..5]) <= MAX_BLOCK ==> |s| >= 5 + UnLe(s[1..5]))
    ensures var len := UnLe(s[1..5]);
            ServeBody(cfg, d, s) == if 0 < len <= MAX_BLOCK then AfterBlock(cfg, d, s[5..5 + len], s[5 + len..]) else Body(d, [], false, [])
  {
    BlockRead(s);
  }

  lemma BlockStays(s: Bytes, e: Bytes, len: nat)
    requires |s| >= 5 + len
    ensures (s + e)[0] == s[0] && (s + e)[1..5] == s[1..5]
    ensures (s + e)[5..5 + len] == s[5..5 + len] && (s + e)[5 + len..] == s[5 + len..] + e
  {
  }

  lemma PrependWithRest<D>(ps: seq<Bytes>, b: Body<D>, e: Bytes)
    ensures Prepend(ps, WithRest(b, e)) == WithRest(Prepend(ps, b), e)
  {
  }

  lemma AfterBlockExtends<D>(cfg: Config<D>, d: D, block: Bytes, rest: Bytes, e: Bytes)
    requires var r := cfg.decode(d, block);
             r.ok ==> ServeBody(cfg, r.state, rest + e) == WithRest(ServeBody(cfg, r.state, rest), e)
    ensures AfterBlock(cfg, d, block, rest + e) == WithRest(AfterBlock(cfg, d, block, rest), e)
  {
    var r := cfg.decode(d, block);
    PrependWithRest(r.pieces, ServeBody(cfg, r.state, rest), e);
  }

  /** The first block is read the same with more bytes behind it. */
  lemma BlockExtends<D>(cfg: Config<D>, d: D, s: Bytes, e: Bytes, len: nat)
    requires |s| >= 5 + len && s[0] == DATA && len == UnLe(s[1..5]) && 0 < len <= MAX_BLOCK
    ensures ServeBody(cfg, d, s) == AfterBlock(cfg, d, s[5..5 + len], s[5 + len..])
    ensures ServeBody(cfg, d, s + e) == AfterBlock(cfg, d, s[5..5 + len], s[5 + len..] + e)
  {
    BodyOfBlock(cfg, d, s);
    BlockStays(s, e, len);
    BodyOfBlock(cfg, d, s + e);
  }

  lemma BadEndsThere<D>(cfg: Config<D>, d: D, s: Bytes, e: Bytes)
    requires s != [] && (s[0] != DATA || (|s| >= 5 && !(0 < UnLe(s[1..5]) <= MAX_BLOCK)))
    ensures ServeBody(cfg, d, s + e) == WithRest(ServeBody(cfg, d, s), e)
  {
    if s[0] != DATA {
      assert (s + e)[0] == s[0] && (s + e)[1..] == s[1..] + e;
    } else {
      BodyOfBlock(cfg, d, s);
      BlockStays(s, e, 0);
      BodyOfBlock(cfg, d, s + e);
    }
  }

  lemma {:induction false} BodyExtends<D>(cfg: Config<D>, d: D, s: Bytes, e: Bytes)
    requires !StarvesBody(cfg, d, s)
    ensures ServeBody(cfg, d, s + e) == WithRest(ServeBody(cfg, d, s), e)
    decreases |s|
  {
    if s[0] == DATA && 0 < UnLe(s[1..5]) <= MAX_BLOCK {
      var len := UnLe(s[1..5]);
      var block, rest := s[5..5 + len], s[5 + len..];
      var r := cfg.decode(d, block);
      if r.ok {
        BodyExtends(cfg, r.state, rest, e);
      }
      AfterBlockExtends(cfg, d, block, rest, e);
      BlockExtends(cfg, d, s, e, len);
    } else {
      BadEndsThere(cfg, d, s, e);
    }
  }

  function More<D>(o: Outcome<D>, e: Bytes): Outcome<D> {
    match o
    case Next(st, rest) => Next(st, rest + e)
    case Stop(st) => Stop(st)
  }

  lemma TakeExtends(s: Bytes, n: nat, e: Bytes)
    requires n <= |s|
    ensures Take(s + e, n) == Some((s[..n], s[n..] + e)) && Take(s, n) == Some((s[..n], s[n..]))
  {
    assert (s + e)[..n] == s[..n] && (s + e)[n..] == s[n..] + e;
  }

  lemma UnitExtends<D>(cfg: Config<D>, st: Server<D>, t: Target, s: Bytes, e: Bytes)
    requires !StarvesUnit(cfg, st, t, s)
    ensures ServeUnit(cfg, st, t, s + e) == More(ServeUnit(cfg, st, t, s), e)
  {
    if cfg.opens(|st.log|, t) {
      BodyExtends(cfg, st.decoder, s, e);
      var b := ServeBody(cfg, st.decoder, s);
      if b.done && cfg.integrity {
        TakeExtends(b.rest, 8, e);
      }
    }
  }

  lemma ProbeBodyExtends(hashFirst: bool, len: nat, s: Bytes, e: Bytes)
    requires |s| >= len + 32 + if hashFirst then PROBE_HASH else 0
    ensures ParseProbeBody(hashFirst, len, s).Some?
    ensures var p := ParseProbeBody(hashFirst, len, s).value;
            ParseProbeBody(hashFirst, len, s + e) == Some((p.0, p.1, p.2, p.3 + e))
  {
    TakeExtends(s, len, e);
    TakeExtends(s[len..], 32, e);
    TakeExtends(s[len..][32..], if hashFirst then PROBE_HASH else 0, e);
  }

  lemma ProbeExtends(hashFirst: bool, s: Bytes, e: Bytes)
    requires !StarvesProbe(hashFirst, s)
    ensures ParseProbe(hashFirst, s + e) == match ParseProbe(hashFirst, s)
                                            case None => None
                                            case Some((key, q, rest)) => Some((key, q, rest + e))
  {
    TakeExtends(s, 11, e);
    var head := s[..11];
    assert head[8] == s[8] && head[9..] == s[9..11];
    if KindOf(s[8]).Some? && PathFits(UnLe(s[9..11])) {
      ProbeBodyExtends(hashFirst, UnLe(s[9..11]), s[11..], e);
    }
  }

  lemma HeaderExtends(kind: Kind, s: Bytes, e: Bytes)
    requires !StarvesHeader(kind, s)
    ensures ParseHeader(kind, s + e) == match ParseHeader(kind, s)
                                        case None => None
                                        case Some((t, rest)) => Some((t, rest + e))
  {
    TakeExtends(s, 2, e);
    var len := UnLe(s[..2]);
    if PathFits(len) {
      TakeExtends(s[2..], len, e);
      TakeExtends(s[2..][len..], if kind.Chunk? then 8 else 0, e);
    }
  }

  lemma FrameExtends<D>(cfg: Config<D>, st: Server<D>, s: Bytes, e: Bytes)
    requires !StarvesFrame(cfg, st, s)
    ensures ServeFrame(cfg, st, s + e) == More(ServeFrame(cfg, st, s), e)
  {
    assert (s + e)[0] == s[0] && (s + e)[1..] == s[1..] + e;
    if s[0] == PROBE && cfg.accept {
      ProbeExtends(cfg.hashFirst, s[1..], e);
    } else if s[0] == ACCEPTED && cfg.accept {
      TakeExtends(s[1..], 8, e);
      assert s[1..][..8] == s[1..9] && s[1..][8..] == s[9..];
      var key := UnLe(s[1..9]);
      if key in st.accepted {
        UnitExtends(cfg, st.(accepted := st.accepted - {key}), st.accepted[key], s[9..], e);
      }
    } else if s[0] != END && s[0] != PROBE && KindOf(s[0]).Some? && !cfg.accept {
      HeaderExtends(KindOf(s[0]).value, s[1..], e);
      match ParseHeader(KindOf(s[0]).value, s[1..])
      case None =>
      case Some((t, rest)) => UnitExtends(cfg, st, t, rest, e);
    }
  }

  lemma CutBlock<D>(cfg: Config<D>, d: D, s: Bytes)
    requires s == [] || (s[0] == DATA && (|s| < 5 || (0 < UnLe(s[1..5]) <= MAX_BLOCK && |s| < 5 + UnLe(s[1..5]))))
    ensures !ServeBody(cfg, d, s).done
  {
    if |s| >= 5 {
      assert s[1..][..4] == s[1..5];
    }
  }

  lemma {:induction false} StarvedIsNotDone<D>(cfg: Config<D>, d: D, s: Bytes)
    requires StarvesBody(cfg, d, s)
    ensures !ServeBody(cfg, d, s).done
    decreases |s|
  {
    if |s| >= 5 && |s| >= 5 + UnLe(s[1..5]) {
      var len := UnLe(s[1..5]);
      StarvedIsNotDone(cfg, cfg.decode(d, s[5..5 + len]).state, s[5 + len..]);
      BlockExtends(cfg, d, s, [], len);
    } else {
      CutBlock(cfg, d, s);
    }
  }

  lemma UnitNotStarved<D>(cfg: Config<D>, st: Server<D>, t: Target, s: Bytes)
    requires ServeUnit(cfg, st, t, s).Next?
    ensures !StarvesUnit(cfg, st, t, s)
  {
    if StarvesBody(cfg, st.decoder, s) {
      StarvedIsNotDone(cfg, st.decoder, s);
    }
  }

  /** A frame served in full needs nothing of what follows it. */
  lemma AcceptedThen<D>(cfg: Config<D>, st: Server<D>, x: Bytes, st': Server<D>, rest: Bytes)
    requires cfg.accept && x != [] && x[0] == ACCEPTED && ServeFrame(cfg, st, x) == Next(st', [])
    ensures ServeFrame(cfg, st, x + rest) == Next(st', rest)
  {
    var (key, s) := Take(x[1..], 8).value;
    assert key == x[1..9] && s == x[9..];
    UnitNotStarved(cfg, st.(accepted := st.accepted - {UnLe(key)}), st.accepted[UnLe(key)], s);
    FrameExtends(cfg, st, x, rest);
    EmptyFront(rest);
  }

  /** A consumer that does not run out of bytes has decided everything: whatever comes later, it ends
      in the same state. */
  lemma {:induction false} Decided<D>(cfg: Config<D>, st: Server<D>, s: Bytes, e: Bytes)
    requires !Starves(cfg, st, s)
    ensures Serve(cfg, st, s + e) == Serve(cfg, st, s)
    decreases |s|
  {
    FrameExtends(cfg, st, s, e);
    match ServeFrame(cfg, st, s)
    case Next(st', rest) => Decided(cfg, st', rest, e);
    case Stop(_) =>
  }

  // ---------------------------------------------------------------------------
  // Teardown
  // ---------------------------------------------------------------------------

  const UPLOAD: Byte := 0x33

  /** `consumer_main` finishes on an open channel holding `s`: an unknown command, or an upload that
      does not run out of bytes. */
  predicate Stops<D>(cfg: Config<D>, st: Server<D>, s: Bytes) {
    s != [] && (s[0] != UPLOAD || !Starves(cfg, st, s[1..]))
  }

  /** After an OK reply whose write fails at once, the teardown can end if and only if the bytes that
      came with the handshake are an unknown command or an upload complete enough to stop by itself. */
  lemma RefusedUpload<D>(cfg: Config<D>, st: Server<D>, c: Teardown.Conn, leftover: Bytes)
    requires Teardown.Inv(c) && Teardown.Enabled(c, Teardown.HandshakeOk(false, leftover))
    requires forall b :: c.finishes(b) == Stops(cfg, st, b)
    ensures Teardown.CanEnd(Teardown.Apply(c, Teardown.HandshakeOk(false, leftover))) <==> Stops(cfg, st, leftover)
  {
    Teardown.RefusedReply(c, leftover);
  }

  /** Nothing after the request, or only the command: stuck. The command and an end: not stuck. */
  lemma LeftoverExamples<D>(cfg: Config<D>, st: Server<D>)
    ensures !Stops(cfg, st, []) && !Stops(cfg, st, [UPLOAD]) && Stops(cfg, st, [UPLOAD, END])
  {
    assert [UPLOAD][1..] == [] && [UPLOAD, END][1..] == [END];
  }
}
