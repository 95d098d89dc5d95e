/** What the server may write in accept mode, whatever bytes a client sends. */
module FilterSafety {
  import opened Basics
  import opened Bytes
  import opened Frames

  /** How often `t` was opened for writing. */
  function Opened(log: seq<Delivery>, t: Target): nat {
    if log == [] then 0 else Opened(log[..|log| - 1], t) + (if log[|log| - 1].target == t then 1 else 0)
  }

  /** How often the filter said yes to `t`. */
  function Granted(granted: seq<Target>, t: Target): nat {
    if granted == [] then 0
    else Granted(granted[..|granted| - 1], t) + (if granted[|granted| - 1] == t then 1 else 0)
  }

  /** Keys under which `t` may still be uploaded. */
  function Open(accepted: map<nat, Target>, t: Target): set<nat> {
    set k | k in accepted && accepted[k] == t
  }

  /** Every opening of a target used up one acceptance of it. */
  ghost predicate WithinGrants<D>(st: Server<D>, t: Target) {
    Opened(st.log, t) + |Open(st.accepted, t)| <= Granted(st.granted, t)
  }

  lemma OpenedSnoc(log: seq<Delivery>, d: Delivery, t: Target)
    ensures Opened(log + [d], t) == Opened(log, t) + (if d.target == t then 1 else 0)
  {
    assert (log + [d])[..|log|] == log;
  }

  lemma GrantedSnoc(granted: seq<Target>, g: Target, t: Target)
    ensures Granted(granted + [g], t) == Granted(granted, t) + (if g == t then 1 else 0)
  {
    assert (granted + [g])[..|granted|] == granted;
  }

  lemma OpenInsert(accepted: map<nat, Target>, key: nat, g: Target, t: Target)
    ensures |Open(accepted[key := g], t)| <= |Open(accepted, t)| + (if g == t then 1 else 0)
  {
    var before, after := Open(accepted, t), Open(accepted[key := g], t);
    if g == t {
      assert after == before + {key};
      AddedOne(before, key);
    } else {
      assert after == before - {key};
      assert after <= before;
      Fewer(after, before);
    }
  }

  lemma AddedOne(s: set<nat>, x: nat)
    ensures |s + {x}| <= |s| + 1
  {
    if x in s { assert s + {x} == s; }
  }

  lemma Fewer(a: set<nat>, b: set<nat>)
    requires a <= b
    ensures |a| <= |b|
  {
    assert b == a + (b - a);
  }

  lemma OpenRemove(accepted: map<nat, Target>, key: nat, t: Target)
    requires key in accepted
    ensures |Open(accepted - {key}, t)| == |Open(accepted, t)| - (if accepted[key] == t then 1 else 0)
  {
    assert Open(accepted - {key}, t) == Open(accepted, t) - {key};
  }

  lemma ProbeKeeps<D>(cfg: Config<D>, st: Server<D>, s: Bytes, t: Target)
    requires WithinGrants(st, t)
    ensures WithinGrants(ServeProbe(cfg, st, s).server, t)
  {
    match ParseProbe(cfg.hashFirst, s)
    case None =>
    case Some((key, q, rest)) =>
      if cfg.filter(st.asked, q) {
        GrantedSnoc(st.granted, q.target, t);
        OpenInsert(st.accepted, key, q.target, t);
      }
  }

  /** Serving a unit opens at most its own target, once. */
  lemma UnitOpensOnce<D>(cfg: Config<D>, st: Server<D>, u: Target, s: Bytes, t: Target)
    ensures var st' := ServeUnit(cfg, st, u, s).server;
            && Opened(st'.log, t) <= Opened(st.log, t) + (if u == t then 1 else 0)
            && st'.accepted == st.accepted && st'.granted == st.granted
  {
    if cfg.opens(|st.log|, u) {
      OpenedSnoc(st.log, ServeUnit(cfg, st, u, s).server.log[|st.log|], t);
    }
  }

  lemma FrameKeeps<D>(cfg: Config<D>, st: Server<D>, s: Bytes, t: Target)
    requires cfg.accept && WithinGrants(st, t)
    ensures WithinGrants(ServeFrame(cfg, st, s).server, t)
  {
    if s != [] && s[0] == PROBE {
      ProbeKeeps(cfg, st, s[1..], t);
    } else if s != [] && s[0] == ACCEPTED && Take(s[1..], 8).Some? {
      var (bytes, rest) := Take(s[1..], 8).value;
      var key := UnLe(bytes);
      if key in st.accepted {
        OpenRemove(st.accepted, key, t);
        UnitOpensOnce(cfg, st.(accepted := st.accepted - {key}), st.accepted[key], rest, t);
      }
    }
  }

  /** For every byte stream and every filter: a target is written no more often than the filter
      accepted it, so nothing that was not accepted is ever written. */
  lemma {:induction false} OnlyAcceptedIsWritten<D>(cfg: Config<D>, st: Server<D>, s: Bytes, t: Target)
    requires cfg.accept && WithinGrants(st, t)
    ensures WithinGrants(Serve(cfg, st, s), t)
    decreases |s|
  {
    FrameKeeps(cfg, st, s, t);
    match ServeFrame(cfg, st, s)
    case Next(st', rest) => OnlyAcceptedIsWritten(cfg, st', rest, t);
    case Stop(_) =>
  }

  /** A fresh connection in accept mode writes only targets its filter said yes to. */
  lemma WrittenImpliesGranted<D>(cfg: Config<D>, decoder: D, s: Bytes, i: nat)
    requires cfg.accept
    requires i < |Serve(cfg, Server(decoder, map[], 0, [], [], []), s).log|
    ensures var end := Serve(cfg, Server(decoder, map[], 0, [], [], []), s); end.log[i].target in end.granted
  {
    var st := Server(decoder, map[], 0, [], [], []);
    var end := Serve(cfg, st, s);
    var t := end.log[i].target;
    assert Open(map[], t) == {};
    OnlyAcceptedIsWritten(cfg, st, s, t);
    OpenedPositive(end.log, i);
    GrantedPositive(end.granted, t);
  }

  lemma {:induction false} OpenedPositive(log: seq<Delivery>, i: nat)
    requires i < |log|
    ensures Opened(log, log[i].target) > 0
  {
    if i < |log| - 1 {
      OpenedPositive(log[..|log| - 1], i);
    }
  }

  lemma {:induction false} GrantedPositive(granted: seq<Target>, t: Target)
    requires Granted(granted, t) > 0
    ensures t in granted
  {
    if granted[|granted| - 1] != t {
      GrantedPositive(granted[..|granted| - 1], t);
    }
  }
}
