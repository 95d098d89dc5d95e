/** Accept mode byte for byte: the client's windows of probes, the replies read back and the uploads
    that follow deliver exactly the units the filter accepted (client/worker.h,
    server/connection.cxx). */
module AcceptRoundTrip {
  import opened Basics
  import opened Bytes
  import opened Frames
  import opened FramesRoundTrip
  import AcceptMode
  import Starvation
  import Bits

  /** A unit to be offered: its description, the hash sent with the probe, its read-ahead blocks. */
  datatype Item = Item(task: Frames.Task, hash: Bytes, blocks: seq<Bytes>)

  ghost predicate SendableItem<D>(cfg: Config<D>, it: Item) {
    SendableTask(it.task) && |it.hash| == (if cfg.hashFirst then PROBE_HASH else 0) && ReadAhead(it.blocks)
  }

  ghost predicate AllSendable<D>(cfg: Config<D>, us: seq<Item>) {
    forall i :: 0 <= i < |us| ==> SendableItem(cfg, us[i])
  }

  // ---------------------------------------------------------------------------
  // Probes
  // ---------------------------------------------------------------------------

  function ProbeBytes(key: nat, us: seq<Item>): Bytes
    decreases us
  {
    if us == [] then [] else ProbeFrame(AcceptMode.Key(key), us[0].task, us[0].hash) + ProbeBytes(key + 1, us[1..])
  }

  /** What the filter says to each unit in turn. */
  function Verdicts<D>(cfg: Config<D>, asked: nat, us: seq<Item>): (ds: seq<bool>)
    ensures |ds| == |us|
    decreases us
  {
    if us == [] then [] else [cfg.filter(asked, AskedBy(us[0].task, us[0].hash))] + Verdicts(cfg, asked + 1, us[1..])
  }

  function AskAll<D>(cfg: Config<D>, st: Server<D>, key: nat, us: seq<Item>): Server<D>
    decreases us
  {
    if us == [] then st
    else
      var q := AskedBy(us[0].task, us[0].hash);
      AskAll(cfg, Answered(st, AcceptMode.Key(key), q, cfg.filter(st.asked, q)), key + 1, us[1..])
  }

  lemma KeyFits(i: nat)
    ensures AcceptMode.Key(i) < Pow256(8)
  {
    Widths();
  }

  /** A server as the client sees it: the state it reaches on some bytes. */
  type Serving<!D> = (Server<D>, Bytes) -> Server<D>

  /** Serving `x` and whatever follows it is serving what follows from `st'`. */
  ghost predicate LeadsTo<D(!new)>(cfg: Config<D>, st: Server<D>, x: Bytes, st': Server<D>) {
    forall rest :: Serve(cfg, st, x + rest) == Serve(cfg, st', rest)
  }

  lemma LeadsThrough<D(!new)>(cfg: Config<D>, a: Server<D>, x: Bytes, b: Server<D>, y: Bytes, c: Server<D>)
    requires LeadsTo(cfg, a, x, b) && LeadsTo(cfg, b, y, c)
    ensures LeadsTo(cfg, a, x + y, c)
  {
    forall rest ensures Serve(cfg, a, (x + y) + rest) == Serve(cfg, c, rest) {
      Associates(x, y, rest);
      assert Serve(cfg, a, x + (y + rest)) == Serve(cfg, b, y + rest);
    }
  }

  lemma LeadsOnly<D(!new)>(cfg: Config<D>, st: Server<D>, x: Bytes, st': Server<D>)
    requires LeadsTo(cfg, st, x, st')
    ensures Serve(cfg, st, x) == st'
  {
    assert Serve(cfg, st, x + []) == Serve(cfg, st', []) && x + [] == x;
  }

  lemma LeadsNowhere<D(!new)>(cfg: Config<D>, st: Server<D>)
    ensures LeadsTo(cfg, st, [], st)
  {
    forall rest ensures Serve(cfg, st, [] + rest) == Serve(cfg, st, rest) {
      EmptyFront(rest);
    }
  }

  lemma ServeNext<D>(cfg: Config<D>, st: Server<D>, s: Bytes, st': Server<D>, rest: Bytes)
    requires ServeFrame(cfg, st, s) == Next(st', rest)
    ensures Serve(cfg, st, s) == Serve(cfg, st', rest)
  {
  }

  lemma SendableRest<D>(cfg: Config<D>, us: seq<Item>)
    requires us != [] && AllSendable(cfg, us)
    ensures SendableItem(cfg, us[0]) && AllSendable(cfg, us[1..])
  {
    assert forall i :: 0 <= i < |us[1..]| ==> us[1..][i] == us[i + 1];
  }

  lemma FirstProbe<D(!new)>(cfg: Config<D>, st: Server<D>, key: nat, it: Item)
    requires cfg.accept && SendableItem(cfg, it)
    ensures var q := AskedBy(it.task, it.hash);
            LeadsTo(cfg, st, ProbeFrame(AcceptMode.Key(key), it.task, it.hash),
                    Answered(st, AcceptMode.Key(key), q, cfg.filter(st.asked, q)))
  {
    KeyFits(key);
    var q, kk := AskedBy(it.task, it.hash), AcceptMode.Key(key);
    var frame, after := ProbeFrame(kk, it.task, it.hash), Answered(st, kk, q, cfg.filter(st.asked, q));
    forall rest ensures Serve(cfg, st, frame + rest) == Serve(cfg, after, rest) {
      ProbeServed(cfg, st, kk, it.task, it.hash, rest);
      ServeNext(cfg, st, frame + rest, after, rest);
    }
  }

  ghost predicate LeadsBy<D(!new)>(sv: Serving<D>, st: Server<D>, x: Bytes, st': Server<D>) {
    forall rest :: sv(st, x + rest) == sv(st', rest)
  }

  ghost predicate ProbeStep<D(!new)>(cfg: Config<D>, sv: Serving<D>, st: Server<D>, key: nat, it: Item) {
    SendableItem(cfg, it) ==>
      var q := AskedBy(it.task, it.hash);
      LeadsBy(sv, st, ProbeFrame(AcceptMode.Key(key), it.task, it.hash), Answered(st, AcceptMode.Key(key), q, cfg.filter(st.asked, q)))
  }

  lemma LeadsByThrough<D(!new)>(sv: Serving<D>, a: Server<D>, x: Bytes, b: Server<D>, y: Bytes, c: Server<D>)
    requires LeadsBy(sv, a, x, b) && LeadsBy(sv, b, y, c)
    ensures LeadsBy(sv, a, x + y, c)
  {
    forall rest ensures sv(a, (x + y) + rest) == sv(c, rest) {
      Associates(x, y, rest);
      assert sv(a, x + (y + rest)) == sv(b, y + rest);
    }
  }

  lemma {:induction false} ProbesLead<D(!new)>(cfg: Config<D>, sv: Serving<D>, st: Server<D>, key: nat, us: seq<Item>)
    requires AllSendable(cfg, us) && forall st, key, it :: ProbeStep(cfg, sv, st, key, it)
    ensures LeadsBy(sv, st, ProbeBytes(key, us), AskAll(cfg, st, key, us))
    decreases us
  {
    if us == [] {
      forall rest ensures sv(st, [] + rest) == sv(st, rest) {
        EmptyFront(rest);
      }
    } else {
      var q, kk := AskedBy(us[0].task, us[0].hash), AcceptMode.Key(key);
      var after := Answered(st, kk, q, cfg.filter(st.asked, q));
      SendableRest(cfg, us);
      assert ProbeStep(cfg, sv, st, key, us[0]);
      ProbesLead(cfg, sv, after, key + 1, us[1..]);
      LeadsByThrough(sv, st, ProbeFrame(kk, us[0].task, us[0].hash), after,
                     ProbeBytes(key + 1, us[1..]), AskAll(cfg, after, key + 1, us[1..]));
    }
  }

  lemma ProbesServed<D(!new)>(cfg: Config<D>, st: Server<D>, key: nat, us: seq<Item>)
    requires cfg.accept && AllSendable(cfg, us)
    ensures LeadsTo(cfg, st, ProbeBytes(key, us), AskAll(cfg, st, key, us))
  {
    var sv: Serving<D> := (st, s) => Serve(cfg, st, s);
    forall st, key, it ensures ProbeStep(cfg, sv, st, key, it) {
      if SendableItem(cfg, it) { FirstProbe(cfg, st, key, it); }
    }
    ProbesLead(cfg, sv, st, key, us);
    forall rest ensures Serve(cfg, st, ProbeBytes(key, us) + rest) == Serve(cfg, AskAll(cfg, st, key, us), rest) {
      assert sv(st, ProbeBytes(key, us) + rest) == sv(AskAll(cfg, st, key, us), rest);
    }
  }

  // ---------------------------------------------------------------------------
  // Replies
  // ---------------------------------------------------------------------------

  function ReplyBytes(key: nat, ds: seq<bool>): Bytes
    decreases ds
  {
    if ds == [] then [] else ReplyFrame(ds[0], AcceptMode.Key(key)) + ReplyBytes(key + 1, ds[1..])
  }

  /** The reading half of `resolve`: one reply per pending unit, each under the unit's key. */
  function ReadReplies(s: Bytes, key: nat, n: nat): Option<seq<bool>>
    decreases n
  {
    if n == 0 then Some([])
    else
      var (reply, rest) :- Take(s, 9);
      var _ :- Check(UnLe(reply[1..]) == AcceptMode.Key(key));
      var ds :- ReadReplies(rest, key + 1, n - 1);
      Some([reply[0] == REPLY_ACCEPT] + ds)
  }

  lemma {:induction false} RepliesRead(key: nat, ds: seq<bool>)
    ensures ReadReplies(ReplyBytes(key, ds), key, |ds|) == Some(ds)
    decreases ds
  {
    if ds != [] {
      KeyFits(key);
      ReplyRead(ds[0], AcceptMode.Key(key));
      TakeFirst(ReplyFrame(ds[0], AcceptMode.Key(key)), ReplyBytes(key + 1, ds[1..]));
      RepliesRead(key + 1, ds[1..]);
      assert [ds[0]] + ds[1..] == ds;
    }
  }

  /** The keys granted and not used yet. */
  function Remember(key: nat, us: seq<Item>, ds: seq<bool>): map<nat, Target>
    requires |us| == |ds|
    decreases us
  {
    if us == [] then map[]
    else if ds[0] then Remember(key + 1, us[1..], ds[1..])[AcceptMode.Key(key) := us[0].task.target]
    else Remember(key + 1, us[1..], ds[1..])
  }

  lemma {:induction false} RememberKeys(key: nat, us: seq<Item>, ds: seq<bool>, j: nat)
    requires |us| == |ds| && j < key && key + |us| <= j + Bits.WORD64
    ensures AcceptMode.Key(j) !in Remember(key, us, ds)
    decreases us
  {
    if us != [] {
      RememberKeys(key + 1, us[1..], ds[1..], j);
      Bits.WrapInjective(j, key, Bits.WORD64);
    }
  }

  /** What the probes of a window leave behind on the server. */
  lemma {:induction false} AskAllState<D>(cfg: Config<D>, st: Server<D>, key: nat, us: seq<Item>)
    requires |us| < Bits.WORD64
    ensures var ds, end := Verdicts(cfg, st.asked, us), AskAll(cfg, st, key, us);
            && end.asked == st.asked + |us| && end.log == st.log && end.decoder == st.decoder
            && end.posted == st.posted + ReplyBytes(key, ds)
            && end.accepted == st.accepted + Remember(key, us, ds)
    decreases us
  {
    if us == [] {
      assert st.posted + [] == st.posted;
    } else {
      var q := AskedBy(us[0].task, us[0].hash);
      var yes := cfg.filter(st.asked, q);
      var st1 := Answered(st, AcceptMode.Key(key), q, yes);
      var ds := Verdicts(cfg, st.asked, us);
      AskAllState(cfg, st1, key + 1, us[1..]);
      assert ds[1..] == Verdicts(cfg, st.asked + 1, us[1..]);
      Associates(st.posted, ReplyFrame(yes, AcceptMode.Key(key)), ReplyBytes(key + 1, ds[1..]));
      RememberKeys(key + 1, us[1..], ds[1..], key);
    }
  }

  // ---------------------------------------------------------------------------
  // Uploads
  // ---------------------------------------------------------------------------

  function Picked(us: seq<Item>, ds: seq<bool>): seq<Unit>
    requires |us| == |ds|
    decreases us
  {
    if us == [] then []
    else if ds[0] then [Unit(us[0].task.target, us[0].blocks)] + Picked(us[1..], ds[1..])
    else Picked(us[1..], ds[1..])
  }

  /** The sending half of `resolve`: the accepted units under their keys, the others skipped. */
  function UploadBytes<C, D>(k: Codec<C, D>, cfg: Config<D>, c: C, key: nat, us: seq<Item>, ds: seq<bool>): (C, Bytes)
    requires |us| == |ds|
    decreases us
  {
    if us == [] then (c, [])
    else if ds[0] then
      var (c1, body) := BodyOf(k, cfg, c, us[0].blocks);
      var (c2, rest) := UploadBytes(k, cfg, c1, key + 1, us[1..], ds[1..]);
      (c2, AcceptedHeader(AcceptMode.Key(key)) + (body + rest))
    else UploadBytes(k, cfg, c, key + 1, us[1..], ds[1..])
  }

  /** `st'` is `st` with the units delivered and nothing outstanding. */
  ghost predicate Took<D>(st: Server<D>, st': Server<D>, us: seq<Unit>) {
    Arrived(st.log, st'.log, us) && st'.accepted == map[] && st'.asked == st.asked && st'.posted == st.posted
  }

  /** One accepted unit, header and body. */
  lemma OneUpload<C(!new), D(!new)>(k: Codec<C, D>, cfg: Config<D>, c: C, st: Server<D>, key: nat, blocks: seq<Bytes>)
    returns (st': Server<D>, d: Delivery)
    requires Lawful(k) && Agreed(k, cfg) && cfg.accept && k.synced(c, st.decoder, []) && ReadAhead(blocks)
    requires key < Pow256(8) && key in st.accepted
    ensures LeadsTo(cfg, st, AcceptedHeader(key) + BodyOf(k, cfg, c, blocks).1, st')
    ensures Matches(d, Unit(st.accepted[key], blocks)) && k.synced(BodyOf(k, cfg, c, blocks).0, st'.decoder, [])
    ensures st' == st.(accepted := st.accepted - {key}, decoder := st'.decoder, log := st.log + [d])
  {
    var body := BodyOf(k, cfg, c, blocks).1;
    var x := AcceptedHeader(key) + body;
    var d', pieces := AcceptedServed(k, cfg, c, st, key, blocks, []);
    assert body + [] == body;
    d := Delivery(st.accepted[key], pieces, true);
    st' := Delivered(st.(accepted := st.accepted - {key}), d', st.accepted[key], pieces);
    forall rest ensures Serve(cfg, st, x + rest) == Serve(cfg, st', rest) {
      Starvation.AcceptedThen(cfg, st, x, st', rest);
      ServeNext(cfg, st, x + rest, st', rest);
    }
  }

  lemma TookFirst<D>(st: Server<D>, mid: Server<D>, d: Delivery, st': Server<D>, u: Unit, more: seq<Unit>, units: seq<Unit>)
    requires mid.log == st.log + [d] && mid.asked == st.asked && mid.posted == st.posted
    requires Matches(d, u) && Took(mid, st', more) && units == [u] + more
    ensures Took(st, st', units)
  {
    assert units[1..] == more;
    ArrivedFirst(st.log, d, st'.log, units);
  }

  lemma UploadsFirst<C, D>(k: Codec<C, D>, cfg: Config<D>, c: C, key: nat, us: seq<Item>, ds: seq<bool>)
    requires us != [] && |us| == |ds| && ds[0]
    ensures var (c1, body) := BodyOf(k, cfg, c, us[0].blocks);
            var (c2, rest) := UploadBytes(k, cfg, c1, key + 1, us[1..], ds[1..]);
            UploadBytes(k, cfg, c, key, us, ds) == (c2, (AcceptedHeader(AcceptMode.Key(key)) + body) + rest)
  {
    var (c1, body) := BodyOf(k, cfg, c, us[0].blocks);
    Associates(AcceptedHeader(AcceptMode.Key(key)), body, UploadBytes(k, cfg, c1, key + 1, us[1..], ds[1..]).1);
  }

  /** What is remembered is the first unit's key and the rest; using the key leaves the rest. */
  lemma UseFirst(key: nat, us: seq<Item>, ds: seq<bool>)
    requires us != [] && |us| == |ds| < Bits.WORD64 && ds[0]
    ensures var m := Remember(key, us, ds);
            && AcceptMode.Key(key) in m && m[AcceptMode.Key(key)] == us[0].task.target
            && m - {AcceptMode.Key(key)} == Remember(key + 1, us[1..], ds[1..])
  {
    RememberKeys(key + 1, us[1..], ds[1..], key);
  }

  ghost predicate UploadsWork<C(!new), D(!new)>(
    k: Codec<C, D>, cfg: Config<D>, c: C, st: Server<D>, key: nat, us: seq<Item>, ds: seq<bool>, st': Server<D>)
    requires |us| == |ds|
  {
    && LeadsTo(cfg, st, UploadBytes(k, cfg, c, key, us, ds).1, st')
    && Took(st, st', Picked(us, ds)) && k.synced(UploadBytes(k, cfg, c, key, us, ds).0, st'.decoder, [])
  }

  lemma UploadsWorkNext<C(!new), D(!new)>(
    k: Codec<C, D>, cfg: Config<D>, c: C, st: Server<D>, key: nat, us: seq<Item>, ds: seq<bool>,
    st1: Server<D>, d: Delivery, st': Server<D>)
    requires us != [] && |us| == |ds| && ds[0]
    requires LeadsTo(cfg, st, AcceptedHeader(AcceptMode.Key(key)) + BodyOf(k, cfg, c, us[0].blocks).1, st1)
    requires st1.log == st.log + [d] && st1.asked == st.asked && st1.posted == st.posted
    requires Matches(d, Unit(us[0].task.target, us[0].blocks))
    requires UploadsWork(k, cfg, BodyOf(k, cfg, c, us[0].blocks).0, st1, key + 1, us[1..], ds[1..], st')
    ensures UploadsWork(k, cfg, c, st, key, us, ds, st')
  {
    var (c1, body) := BodyOf(k, cfg, c, us[0].blocks);
    var tail := UploadBytes(k, cfg, c1, key + 1, us[1..], ds[1..]).1;
    UploadsFirst(k, cfg, c, key, us, ds);
    LeadsThrough(cfg, st, AcceptedHeader(AcceptMode.Key(key)) + body, st1, tail, st');
    TookFirst(st, st1, d, st', Unit(us[0].task.target, us[0].blocks), Picked(us[1..], ds[1..]), Picked(us, ds));
  }

  lemma {:induction false} UploadsServed<C(!new), D(!new)>(
    k: Codec<C, D>, cfg: Config<D>, c: C, st: Server<D>, key: nat, us: seq<Item>, ds: seq<bool>)
    returns (st': Server<D>)
    requires Lawful(k) && Agreed(k, cfg) && cfg.accept && k.synced(c, st.decoder, [])
    requires |us| == |ds| < Bits.WORD64 && AllSendable(cfg, us) && st.accepted == Remember(key, us, ds)
    ensures UploadsWork(k, cfg, c, st, key, us, ds, st')
    decreases us
  {
    if us == [] {
      LeadsNowhere(cfg, st);
      st' := st;
    } else {
      SendableRest(cfg, us);
      if ds[0] {
        KeyFits(key);
        UseFirst(key, us, ds);
        var st1, d := OneUpload(k, cfg, c, st, AcceptMode.Key(key), us[0].blocks);
        st' := UploadsServed(k, cfg, BodyOf(k, cfg, c, us[0].blocks).0, st1, key + 1, us[1..], ds[1..]);
        UploadsWorkNext(k, cfg, c, st, key, us, ds, st1, d, st');
      } else {
        st' := UploadsServed(k, cfg, c, st, key + 1, us[1..], ds[1..]);
      }
    }
  }

  // ---------------------------------------------------------------------------
  // Whole sessions
  // ---------------------------------------------------------------------------

  /** What was posted since. */
  function NewReplies(before: Bytes, after: Bytes): Bytes { if |before| <= |after| then after[|before|..] else [] }

  /** Everything the client sends: window after window, then the end of the session. */
  function Session<C, D>(k: Codec<C, D>, cfg: Config<D>, sv: Serving<D>, c: C, key: nat, st: Server<D>, ws: seq<seq<Item>>): Bytes
    decreases |ws|, 1
  {
    if ws == [] then [END] else Window(k, cfg, sv, c, key, st, ws)
  }

  /** For a window the probes, then, from the replies the server posts to them, the accepted units; on
      a reply that does not fit the client gives up. */
  function Window<C, D>(k: Codec<C, D>, cfg: Config<D>, sv: Serving<D>, c: C, key: nat, st: Server<D>, ws: seq<seq<Item>>): Bytes
    requires ws != []
    decreases |ws|, 0
  {
    var probes := ProbeBytes(key, ws[0]);
    var st1 := sv(st, probes);
    match ReadReplies(NewReplies(st.posted, st1.posted), key, |ws[0]|)
    case None => probes
    case Some(ds) =>
      if |ds| != |ws[0]| then probes
      else
        var (c', ups) := UploadBytes(k, cfg, c, key, ws[0], ds);
        probes + (ups + Session(k, cfg, sv, c', key + |ws[0]|, sv(st1, ups), ws[1..]))
  }

  ghost predicate Windows<D>(cfg: Config<D>, ws: seq<seq<Item>>) {
    forall i :: 0 <= i < |ws| ==> |ws[i]| <= AcceptMode.WINDOW && AllSendable(cfg, ws[i])
  }

  /** One window: its replies are read as decided, and its accepted units delivered. */
  lemma WindowServed<C(!new), D(!new)>(k: Codec<C, D>, cfg: Config<D>, c: C, key: nat, st: Server<D>, us: seq<Item>)
    returns (st1: Server<D>, st2: Server<D>)
    requires Lawful(k) && Agreed(k, cfg) && cfg.accept && Ready(k, c, st)
    requires |us| <= AcceptMode.WINDOW && AllSendable(cfg, us)
    ensures var ds := Verdicts(cfg, st.asked, us);
            var (c', ups) := UploadBytes(k, cfg, c, key, us, ds);
            && st1 == Serve(cfg, st, ProbeBytes(key, us)) && st2 == Serve(cfg, st1, ups)
            && ReadReplies(NewReplies(st.posted, st1.posted), key, |us|) == Some(ds)
            && (forall rest :: Serve(cfg, st, ProbeBytes(key, us) + (ups + rest)) == Serve(cfg, st2, rest))
            && Delivers(cfg, key, st, us, st2) && st2.asked == st.asked + |us| && Ready(k, c', st2)
  {
    var ds := Verdicts(cfg, st.asked, us);
    var (c', ups) := UploadBytes(k, cfg, c, key, us, ds);
    st1 := AskAll(cfg, st, key, us);
    AskAllState(cfg, st, key, us);
    ProbesServed(cfg, st, key, us);
    LeadsOnly(cfg, st, ProbeBytes(key, us), st1);
    RepliesRead(key, ds);
    assert st1.posted[|st.posted|..] == ReplyBytes(key, ds);
    assert map[] + Remember(key, us, ds) == Remember(key, us, ds);
    st2 := UploadsServed(k, cfg, c, st1, key, us, ds);
    LeadsOnly(cfg, st1, ups, st2);
    forall rest ensures Serve(cfg, st, ProbeBytes(key, us) + (ups + rest)) == Serve(cfg, st2, rest) {
      assert Serve(cfg, st, ProbeBytes(key, us) + (ups + rest)) == Serve(cfg, st1, ups + rest);
    }
  }

  lemma {:induction false} ArrivedThen(a: seq<Delivery>, b: seq<Delivery>, c: seq<Delivery>, us: seq<Unit>, vs: seq<Unit>)
    requires Arrived(a, b, us) && Arrived(b, c, vs)
    ensures Arrived(a, c, us + vs)
  {
    forall i | 0 <= i < |us + vs| ensures Matches(c[|a| + i], (us + vs)[i]) {
      if i < |us| {
        assert c[|a| + i] == b[|a| + i] && Matches(b[|a| + i], us[i]);
      } else {
        assert Matches(c[|b| + (i - |us|)], vs[i - |us|]);
      }
    }
  }

  lemma {:induction false} VerdictsAppend<D>(cfg: Config<D>, asked: nat, us: seq<Item>, vs: seq<Item>)
    ensures Verdicts(cfg, asked, us + vs) == Verdicts(cfg, asked, us) + Verdicts(cfg, asked + |us|, vs)
    decreases us
  {
    if us == [] {
      assert us + vs == vs;
    } else {
      assert (us + vs)[1..] == us[1..] + vs;
      VerdictsAppend(cfg, asked + 1, us[1..], vs);
    }
  }

  lemma {:induction false} PickedAppend(us: seq<Item>, vs: seq<Item>, ds: seq<bool>, es: seq<bool>)
    requires |us| == |ds| && |vs| == |es|
    ensures Picked(us + vs, ds + es) == Picked(us, ds) + Picked(vs, es)
    decreases us
  {
    if us == [] {
      assert us + vs == vs && ds + es == es;
    } else {
      assert (us + vs)[1..] == us[1..] + vs && (ds + es)[1..] == ds[1..] + es;
      PickedAppend(us[1..], vs, ds[1..], es);
    }
  }

  lemma {:induction false} ReplyBytesAppend(key: nat, a: seq<bool>, b: seq<bool>)
    ensures ReplyBytes(key, a + b) == ReplyBytes(key, a) + ReplyBytes(key + |a|, b)
    decreases a
  {
    if a == [] {
      assert a + b == b;
    } else {
      assert (a + b)[1..] == a[1..] + b;
      ReplyBytesAppend(key + 1, a[1..], b);
      Associates(ReplyFrame(a[0], AcceptMode.Key(key)), ReplyBytes(key + 1, a[1..]), ReplyBytes(key + |a|, b));
    }
  }

  /** What a session starting at `st` and `key` is to end in. */
  ghost predicate Delivers<D>(cfg: Config<D>, key: nat, st: Server<D>, us: seq<Item>, end: Server<D>) {
    var ds := Verdicts(cfg, st.asked, us);
    Arrived(st.log, end.log, Picked(us, ds)) && end.accepted == map[] && end.posted == st.posted + ReplyBytes(key, ds)
  }

  lemma DeliversThen<D>(cfg: Config<D>, key: nat, st: Server<D>, us: seq<Item>, mid: Server<D>, vs: seq<Item>, end: Server<D>, all: seq<Item>)
    requires all == us + vs && Delivers(cfg, key, st, us, mid) && mid.asked == st.asked + |us| && Delivers(cfg, key + |us|, mid, vs, end)
    ensures Delivers(cfg, key, st, all, end)
  {
    var ds, es := Verdicts(cfg, st.asked, us), Verdicts(cfg, mid.asked, vs);
    VerdictsAppend(cfg, st.asked, us, vs);
    PickedAppend(us, vs, ds, es);
    ArrivedThen(st.log, mid.log, end.log, Picked(us, ds), Picked(vs, es));
    ReplyBytesAppend(key, ds, es);
    Associates(st.posted, ReplyBytes(key, ds), ReplyBytes(key + |us|, es));
  }

  ghost predicate Ready<C, D>(k: Codec<C, D>, c: C, st: Server<D>) { k.synced(c, st.decoder, []) && st.accepted == map[] }

  /** A window is answered as decided, its accepted units are delivered, and the session goes on. */
  ghost predicate WindowStep<C, D>(k: Codec<C, D>, cfg: Config<D>, sv: Serving<D>, c: C, key: nat, st: Server<D>, us: seq<Item>) {
    var ds := Verdicts(cfg, st.asked, us);
    var (c', ups) := UploadBytes(k, cfg, c, key, us, ds);
    var st1 := sv(st, ProbeBytes(key, us));
    var st2 := sv(st1, ups);
    && ReadReplies(NewReplies(st.posted, st1.posted), key, |us|) == Some(ds)
    && Delivers(cfg, key, st, us, st2) && st2.asked == st.asked + |us| && Ready(k, c', st2)
    && forall rest :: sv(st, ProbeBytes(key, us) + (ups + rest)) == sv(st2, rest)
  }

  ghost predicate Behaves<C(!new), D(!new)>(k: Codec<C, D>, cfg: Config<D>, sv: Serving<D>) {
    (forall st :: Ends(sv, st)) && (forall c, key, st, us :: WindowLaw(k, cfg, sv, c, key, st, us))
  }

  ghost predicate Ends<D>(sv: Serving<D>, st: Server<D>) { sv(st, [END]) == st }

  ghost predicate WindowLaw<C, D>(k: Codec<C, D>, cfg: Config<D>, sv: Serving<D>, c: C, key: nat, st: Server<D>, us: seq<Item>) {
    Ready(k, c, st) && |us| <= AcceptMode.WINDOW && AllSendable(cfg, us) ==> WindowStep(k, cfg, sv, c, key, st, us)
  }

  lemma SessionNext<C, D>(
    k: Codec<C, D>, cfg: Config<D>, sv: Serving<D>, c: C, key: nat, st: Server<D>, ws: seq<seq<Item>>, ds: seq<bool>)
    requires ws != [] && |ds| == |ws[0]|
    requires ReadReplies(NewReplies(st.posted, sv(st, ProbeBytes(key, ws[0])).posted), key, |ws[0]|) == Some(ds)
    ensures var (c', ups) := UploadBytes(k, cfg, c, key, ws[0], ds);
            Session(k, cfg, sv, c, key, st, ws) ==
            ProbeBytes(key, ws[0])
            + (ups + Session(k, cfg, sv, c', key + |ws[0]|, sv(sv(st, ProbeBytes(key, ws[0])), ups), ws[1..]))
  {
    hide ReadReplies, NewReplies, ProbeBytes, UploadBytes;
  }

  lemma SessionStep<C(!new), D(!new)>(k: Codec<C, D>, cfg: Config<D>, sv: Serving<D>, c: C, key: nat, st: Server<D>, ws: seq<seq<Item>>)
    returns (c': C, st': Server<D>)
    requires Behaves(k, cfg, sv) && Ready(k, c, st) && ws != [] && |ws[0]| <= AcceptMode.WINDOW && AllSendable(cfg, ws[0])
    ensures Ready(k, c', st') && Delivers(cfg, key, st, ws[0], st') && st'.asked == st.asked + |ws[0]|
    ensures sv(st, Session(k, cfg, sv, c, key, st, ws)) == sv(st', Session(k, cfg, sv, c', key + |ws[0]|, st', ws[1..]))
  {
    var us := ws[0];
    assert WindowLaw(k, cfg, sv, c, key, st, us);
    var ds := Verdicts(cfg, st.asked, us);
    c' := UploadBytes(k, cfg, c, key, us, ds).0;
    st' := sv(sv(st, ProbeBytes(key, us)), UploadBytes(k, cfg, c, key, us, ds).1);
    SessionNext(k, cfg, sv, c, key, st, ws, ds);
  }

  lemma SessionEnds<C(!new), D(!new)>(k: Codec<C, D>, cfg: Config<D>, sv: Serving<D>, c: C, key: nat, st: Server<D>)
    requires Behaves(k, cfg, sv) && Ready(k, c, st)
    ensures Delivers(cfg, key, st, [], sv(st, Session(k, cfg, sv, c, key, st, [])))
  {
    assert Ends(sv, st);
    NothingDelivers(cfg, key, st);
  }

  lemma {:induction false} SessionOf<C(!new), D(!new)>(
    k: Codec<C, D>, cfg: Config<D>, sv: Serving<D>, c: C, key: nat, st: Server<D>, ws: seq<seq<Item>>)
    requires Behaves(k, cfg, sv) && Ready(k, c, st) && Windows(cfg, ws)
    ensures Delivers(cfg, key, st, Flat(ws), sv(st, Session(k, cfg, sv, c, key, st, ws)))
    decreases |ws|
  {
    if ws == [] {
      SessionEnds(k, cfg, sv, c, key, st);
    } else {
      SessionGoesOn(k, cfg, sv, c, key, st, ws);
    }
  }

  lemma {:induction false} SessionGoesOn<C(!new), D(!new)>(
    k: Codec<C, D>, cfg: Config<D>, sv: Serving<D>, c: C, key: nat, st: Server<D>, ws: seq<seq<Item>>)
    requires Behaves(k, cfg, sv) && Ready(k, c, st) && Windows(cfg, ws) && ws != []
    ensures Delivers(cfg, key, st, Flat(ws), sv(st, Session(k, cfg, sv, c, key, st, ws)))
    decreases |ws|, 0
  {
    var c', st' := FirstWindowServed(k, cfg, sv, c, key, st, ws);
    SessionOf(k, cfg, sv, c', key + |ws[0]|, st', ws[1..]);
    assert Continues(cfg, key, st, ws, st', sv(st', Session(k, cfg, sv, c', key + |ws[0]|, st', ws[1..])));
  }

  /** Delivering the later windows from `mid` on is delivering all windows from `st` on. */
  ghost predicate Continues<D>(cfg: Config<D>, key: nat, st: Server<D>, ws: seq<seq<Item>>, mid: Server<D>, end: Server<D>)
    requires ws != []
  {
    Delivers(cfg, key + |ws[0]|, mid, Flat(ws[1..]), end) ==> Delivers(cfg, key, st, Flat(ws), end)
  }

  lemma FirstWindowServed<C(!new), D(!new)>(
    k: Codec<C, D>, cfg: Config<D>, sv: Serving<D>, c: C, key: nat, st: Server<D>, ws: seq<seq<Item>>)
    returns (c': C, st': Server<D>)
    requires Behaves(k, cfg, sv) && Ready(k, c, st) && Windows(cfg, ws) && ws != []
    ensures Ready(k, c', st') && Windows(cfg, ws[1..])
    ensures forall end :: Continues(cfg, key, st, ws, st', end)
    ensures sv(st, Session(k, cfg, sv, c, key, st, ws)) == sv(st', Session(k, cfg, sv, c', key + |ws[0]|, st', ws[1..]))
  {
    FirstWindow(cfg, ws);
    c', st' := SessionStep(k, cfg, sv, c, key, st, ws);
    forall end ensures Continues(cfg, key, st, ws, st', end) {
      ItContinues(cfg, key, st, ws, st', end);
    }
  }

  lemma ItContinues<D>(cfg: Config<D>, key: nat, st: Server<D>, ws: seq<seq<Item>>, mid: Server<D>, end: Server<D>)
    requires ws != [] && Delivers(cfg, key, st, ws[0], mid) && mid.asked == st.asked + |ws[0]|
    ensures Continues(cfg, key, st, ws, mid, end)
  {
    if Delivers(cfg, key + |ws[0]|, mid, Flat(ws[1..]), end) {
      DeliversThen(cfg, key, st, ws[0], mid, Flat(ws[1..]), end, Flat(ws));
    }
  }

  lemma NothingDelivers<D>(cfg: Config<D>, key: nat, st: Server<D>)
    requires st.accepted == map[]
    ensures Delivers(cfg, key, st, [], st)
  {
    assert st.posted + [] == st.posted;
  }

  lemma FirstWindow<D>(cfg: Config<D>, ws: seq<seq<Item>>)
    requires ws != [] && Windows(cfg, ws)
    ensures |ws[0]| <= AcceptMode.WINDOW && AllSendable(cfg, ws[0]) && Windows(cfg, ws[1..])
  {
    assert forall i :: 0 <= i < |ws[1..]| ==> ws[1..][i] == ws[i + 1];
  }

  lemma ServerBehaves<C(!new), D(!new)>(k: Codec<C, D>, cfg: Config<D>)
    requires Lawful(k) && Agreed(k, cfg) && cfg.accept
    ensures Behaves(k, cfg, (st, s) => Serve(cfg, st, s))
  {
    var sv: Serving<D> := (st, s) => Serve(cfg, st, s);
    forall c, key, st, us ensures WindowLaw(k, cfg, sv, c, key, st, us) {
      if Ready(k, c, st) && |us| <= AcceptMode.WINDOW && AllSendable(cfg, us) {
        WindowBehaves(k, cfg, sv, c, key, st, us);
      }
    }
    forall st ensures Ends(sv, st) {
      ServesEnd(cfg, st);
    }
  }

  lemma ServesEnd<D>(cfg: Config<D>, st: Server<D>)
    ensures Serve(cfg, st, [END]) == st
  {
  }

  lemma WindowBehaves<C(!new), D(!new)>(
    k: Codec<C, D>, cfg: Config<D>, sv: Serving<D>, c: C, key: nat, st: Server<D>, us: seq<Item>)
    requires Lawful(k) && Agreed(k, cfg) && cfg.accept && Ready(k, c, st)
    requires |us| <= AcceptMode.WINDOW && AllSendable(cfg, us) && sv == ((st, s) => Serve(cfg, st, s))
    ensures WindowStep(k, cfg, sv, c, key, st, us)
  {
    var st1, st2 := WindowServed(k, cfg, c, key, st, us);
  }

  /** For every list of units cut into windows, every filter and every lawful codec: the server ends
      with exactly the accepted units delivered, in order and whole, every probe answered under its
      key, and nothing outstanding. */
  lemma SessionDelivers<C(!new), D(!new)>(k: Codec<C, D>, cfg: Config<D>, ws: seq<seq<Item>>)
    requires Lawful(k) && Agreed(k, cfg) && cfg.accept && Windows(cfg, ws)
    ensures var sv: Serving<D> := (st, s) => Serve(cfg, st, s);
            var st := Server(k.ready, map[], 0, [], [], []);
            Delivers(cfg, 0, st, Flat(ws), Serve(cfg, st, Session(k, cfg, sv, k.start, 0, st, ws)))
  {
    var sv: Serving<D> := (st, s) => Serve(cfg, st, s);
    ServerBehaves(k, cfg);
    SessionOf(k, cfg, sv, k.start, 0, Server(k.ready, map[], 0, [], [], []), ws);
  }
}
