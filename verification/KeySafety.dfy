/** The keys of accept mode, whatever a client sends: which of them the server holds, and how often
    each can be used (server/connection.cxx). */
module KeySafety {
  import opened Basics
  import opened Bytes
  import opened Frames

  /** What a frame does to the keys. */
  datatype Event = Asked(key: nat, target: Target, yes: bool) | Used(key: nat)

  /** The probe a frame asks, or the key it uses up. */
  function FrameEvents<D>(cfg: Config<D>, st: Server<D>, s: Bytes): seq<Event> {
    if s == [] then []
    else if s[0] == PROBE then
      match ParseProbe(cfg.hashFirst, s[1..])
      case None => []
      case Some((key, q, _)) => [Asked(key, q.target, cfg.filter(st.asked, q))]
    else if s[0] == ACCEPTED then
      match Take(s[1..], 8)
      case None => []
      case Some((key, _)) => if UnLe(key) in st.accepted then [Used(UnLe(key))] else []
    else []
  }

  /** What a connection does to the keys, in order. */
  function Trace<D>(cfg: Config<D>, st: Server<D>, s: Bytes): seq<Event>
    decreases |s|
  {
    match ServeFrame(cfg, st, s)
    case Next(st', rest) => FrameEvents(cfg, st, s) + Trace(cfg, st', rest)
    case Stop(_) => FrameEvents(cfg, st, s)
  }

  function Fold(held: map<nat, Target>, tr: seq<Event>): map<nat, Target>
    decreases |tr|
  {
    if tr == [] then held
    else
      match tr[0]
      case Asked(key, target, yes) => Fold(if yes then held[key := target] else held, tr[1..])
      case Used(key) => Fold(held - {key}, tr[1..])
  }

  /** Every key is held when it is used. */
  predicate Legal(held: map<nat, Target>, tr: seq<Event>)
    decreases |tr|
  {
    tr == [] ||
    (match tr[0]
     case Asked(key, target, yes) => Legal(if yes then held[key := target] else held, tr[1..])
     case Used(key) => key in held && Legal(held - {key}, tr[1..]))
  }

  lemma {:induction false} FoldAppend(held: map<nat, Target>, a: seq<Event>, b: seq<Event>)
    ensures Fold(held, a + b) == Fold(Fold(held, a), b)
    ensures Legal(held, a + b) <==> Legal(held, a) && Legal(Fold(held, a), b)
    decreases |a|
  {
    if a == [] {
      assert a + b == b;
    } else {
      assert (a + b)[0] == a[0] && (a + b)[1..] == a[1..] + b;
      match a[0]
      case Asked(key, target, yes) => FoldAppend(if yes then held[key := target] else held, a[1..], b);
      case Used(key) => FoldAppend(held - {key}, a[1..], b);
    }
  }

  lemma FrameFolds<D>(cfg: Config<D>, st: Server<D>, s: Bytes)
    requires cfg.accept
    ensures ServeFrame(cfg, st, s).server.accepted == Fold(st.accepted, FrameEvents(cfg, st, s))
    ensures Legal(st.accepted, FrameEvents(cfg, st, s))
  {
    var es := FrameEvents(cfg, st, s);
    assert |es| == 1 ==> es[1..] == [];
  }

  /** For any bytes and any filter, `accepted_` is what the probes granted and the uploads used up
      make of it, and only a key that is held is ever used. */
  lemma {:induction false} ServeFolds<D>(cfg: Config<D>, st: Server<D>, s: Bytes)
    requires cfg.accept
    ensures Serve(cfg, st, s).accepted == Fold(st.accepted, Trace(cfg, st, s))
    ensures Legal(st.accepted, Trace(cfg, st, s))
    decreases |s|
  {
    FrameFolds(cfg, st, s);
    match ServeFrame(cfg, st, s)
    case Next(st', rest) =>
      ServeFolds(cfg, st', rest);
      FoldAppend(st.accepted, FrameEvents(cfg, st, s), Trace(cfg, st', rest));
    case Stop(_) =>
  }

  // ---------------------------------------------------------------------------
  // Distinct keys
  // ---------------------------------------------------------------------------

  function AskedKeys(tr: seq<Event>): seq<nat> {
    if tr == [] then []
    else if tr[0].Asked? then [tr[0].key] + AskedKeys(tr[1..]) else AskedKeys(tr[1..])
  }

  function UsedKeys(tr: seq<Event>): seq<nat> {
    if tr == [] then []
    else if tr[0].Used? then [tr[0].key] + UsedKeys(tr[1..]) else UsedKeys(tr[1..])
  }

  /** The targets granted, by key. */
  function Grants(tr: seq<Event>): map<nat, Target> {
    if tr == [] then map[]
    else if tr[0].Asked? && tr[0].yes then Grants(tr[1..])[tr[0].key := tr[0].target]
    else Grants(tr[1..])
  }

  predicate Distinct(ks: seq<nat>) { ks == [] || (ks[0] !in ks[1..] && Distinct(ks[1..])) }

  lemma {:induction false} GrantsAreAsked(tr: seq<Event>, k: nat)
    requires k in Grants(tr)
    ensures k in AskedKeys(tr)
  {
    if !(tr[0].Asked? && tr[0].yes && k == tr[0].key) {
      GrantsAreAsked(tr[1..], k);
    }
  }

  /** A key neither held nor still to be asked for is never used. */
  lemma {:induction false} UnknownIsNotUsed(held: map<nat, Target>, tr: seq<Event>, k: nat)
    requires Legal(held, tr) && k !in held && k !in AskedKeys(tr)
    ensures k !in UsedKeys(tr) && k !in Fold(held, tr)
    decreases |tr|
  {
    if tr != [] {
      match tr[0]
      case Asked(key, target, yes) => UnknownIsNotUsed(if yes then held[key := target] else held, tr[1..], k);
      case Used(key) => UnknownIsNotUsed(held - {key}, tr[1..], k);
    }
  }

  /** The key is held or about to be granted, and what for. */
  ghost predicate Known(held: map<nat, Target>, tr: seq<Event>, k: nat, t: Target) {
    (k in held && held[k] == t && k !in AskedKeys(tr)) || (k !in held && k in Grants(tr) && Grants(tr)[k] == t)
  }

  lemma {:induction false} KnownOrNot(held: map<nat, Target>, tr: seq<Event>, k: nat)
    requires Legal(held, tr) && Distinct(AskedKeys(tr)) && forall j :: j in held ==> j !in AskedKeys(tr)
    ensures k in Fold(held, tr) <==> (k in held || k in Grants(tr)) && k !in UsedKeys(tr)
    ensures k in Fold(held, tr) ==> Known(held, tr, k, Fold(held, tr)[k])
    ensures k in UsedKeys(tr) ==> k in held || k in Grants(tr)
    ensures Distinct(UsedKeys(tr))
    decreases |tr|
  {
    if tr != [] {
      var rest := tr[1..];
      match tr[0]
      case Asked(key, target, yes) =>
        var next := if yes then held[key := target] else held;
        assert AskedKeys(tr)[1..] == AskedKeys(rest);
        if key in Grants(rest) { GrantsAreAsked(rest, key); }
        KnownOrNot(next, rest, k);
      case Used(key) =>
        KnownOrNot(held - {key}, rest, k);
        if key in Grants(rest) { GrantsAreAsked(rest, key); }
        UnknownIsNotUsed(held - {key}, rest, key);
        assert UsedKeys(tr)[1..] == UsedKeys(rest);
    }
  }

  /** If a client never repeats a probe key, then whatever else it sends the server holds exactly the
      keys granted and not used, each for the target it was granted for, and no key is used twice or
      without a grant. */
  lemma KeysAreUsedOnce<D>(cfg: Config<D>, decoder: D, s: Bytes, k: nat)
    requires cfg.accept
    requires Distinct(AskedKeys(Trace(cfg, Server(decoder, map[], 0, [], [], []), s)))
    ensures var st := Server(decoder, map[], 0, [], [], []);
            var end, tr := Serve(cfg, st, s), Trace(cfg, st, s);
            && (k in end.accepted <==> k in Grants(tr) && k !in UsedKeys(tr))
            && (k in end.accepted ==> end.accepted[k] == Grants(tr)[k])
            && (k in UsedKeys(tr) ==> k in Grants(tr))
            && Distinct(UsedKeys(tr))
  {
    var st := Server(decoder, map[], 0, [], [], []);
    ServeFolds(cfg, st, s);
    KnownOrNot(map[], Trace(cfg, st, s), k);
  }
}
