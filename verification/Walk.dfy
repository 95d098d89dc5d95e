/** Which files a root enqueues: first-match-wins rules and the pruned directory walk of
    client/scheduler.h. */
module Walk {
  import opened Basics
  import opened Regex
  import opened Glob

  // ---------------------------------------------------------------------------
  // Rules
  // ---------------------------------------------------------------------------

  /** The rule is about this path: `rel` from the root, last component `name`. */
  ghost predicate Applies(fr: FilterRule, rel: string, name: string, isDir: bool) {
    var body := Body(fr.pattern);
    && (DirOnly(fr.pattern) ==> isDir)
    && if BasenameOnly(body) then GlobMatches(body, name)
       else if Anchored(fr.pattern) then GlobMatches(body, rel)
       else AtAnyDepth(body, rel)
  }

  predicate Compiled(fr: FilterRule, rule: Rule) {
    && rule.keeps == fr.keeps && rule.dirOnly == DirOnly(fr.pattern)
    && rule.basenameOnly == BasenameOnly(Body(fr.pattern))
    && rule.re == Source(Body(fr.pattern), rule.basenameOnly || Anchored(fr.pattern))
  }

  lemma RuleApplies(fr: FilterRule, rule: Rule, rel: string, name: string, isDir: bool)
    requires Compiled(fr, rule)
    ensures (!(rule.dirOnly && !isDir) && RegexMatches(rule.re, if rule.basenameOnly then name else rel))
            <==> Applies(fr, rel, name, isDir)
  {
    CompiledMeansGlob(Body(fr.pattern), rule.basenameOnly || Anchored(fr.pattern),
                      if rule.basenameOnly then name else rel);
  }

  /** The first rule about the path decides; without one the path is kept. */
  ghost predicate Kept(frs: seq<FilterRule>, rel: string, name: string, isDir: bool) {
    (forall i :: 0 <= i < |frs| ==> !Applies(frs[i], rel, name, isDir))
    || exists i: nat :: First(frs, i, rel, name, isDir) && frs[i].keeps
  }

  ghost predicate First(frs: seq<FilterRule>, i: nat, rel: string, name: string, isDir: bool) {
    && i < |frs| && Applies(frs[i], rel, name, isDir)
    && forall j :: 0 <= j < i ==> !Applies(frs[j], rel, name, isDir)
  }

  lemma FirstDecides(frs: seq<FilterRule>, i: nat, rel: string, name: string, isDir: bool)
    requires First(frs, i, rel, name, isDir)
    ensures Kept(frs, rel, name, isDir) <==> frs[i].keeps
  {
    assert forall k: nat :: First(frs, k, rel, name, isDir) ==> k == i;
  }

  /** One rule against one path. */
  method Consult(ghost fr: FilterRule, rule: Rule, rel: string, name: string, isDir: bool) returns (applies: bool)
    requires Compiled(fr, rule)
    ensures applies <==> Applies(fr, rel, name, isDir)
  {
    RuleApplies(fr, rule, rel, name, isDir);
    if rule.dirOnly && !isDir {
      return false;
    }
    return RegexMatches(rule.re, if rule.basenameOnly then name else rel);
  }

  /** `keep`. */
  method Keep(ghost frs: seq<FilterRule>, rules: seq<Rule>, rel: string, name: string, isDir: bool) returns (r: bool)
    requires |rules| == |frs| && forall i :: 0 <= i < |rules| ==> Compiled(frs[i], rules[i])
    ensures r <==> Kept(frs, rel, name, isDir)
  {
    for i := 0 to |rules|
      invariant Passed(frs, i, rel, name, isDir)
    {
      assert Compiled(frs[i], rules[i]);
      var applies := Consult(frs[i], rules[i], rel, name, isDir);
      if applies {
        PassedThen(frs, i, rel, name, isDir);
        return rules[i].keeps;
      }
    }
    PassedAll(frs, rel, name, isDir);
    return true;
  }

  /** The first n rules are not about the path. */
  ghost predicate Passed(frs: seq<FilterRule>, n: nat, rel: string, name: string, isDir: bool)
    requires n <= |frs|
  {
    n == 0 || (!Applies(frs[n - 1], rel, name, isDir) && Passed(frs, n - 1, rel, name, isDir))
  }

  lemma {:induction false} PassedAt(frs: seq<FilterRule>, n: nat, rel: string, name: string, isDir: bool, j: nat)
    requires j < n <= |frs| && Passed(frs, n, rel, name, isDir)
    ensures !Applies(frs[j], rel, name, isDir)
  {
    if j < n - 1 { PassedAt(frs, n - 1, rel, name, isDir, j); }
  }

  lemma PassedThen(frs: seq<FilterRule>, i: nat, rel: string, name: string, isDir: bool)
    requires i < |frs| && Passed(frs, i, rel, name, isDir) && Applies(frs[i], rel, name, isDir)
    ensures Kept(frs, rel, name, isDir) <==> frs[i].keeps
  {
    forall j | 0 <= j < i ensures !Applies(frs[j], rel, name, isDir) { PassedAt(frs, i, rel, name, isDir, j); }
    FirstDecides(frs, i, rel, name, isDir);
  }

  lemma PassedAll(frs: seq<FilterRule>, rel: string, name: string, isDir: bool)
    requires Passed(frs, |frs|, rel, name, isDir)
    ensures Kept(frs, rel, name, isDir)
  {
    forall j | 0 <= j < |frs| ensures !Applies(frs[j], rel, name, isDir) { PassedAt(frs, |frs|, rel, name, isDir, j); }
  }

  // ---------------------------------------------------------------------------
  // Anchors
  // ---------------------------------------------------------------------------

  /** A name the pattern matches: `a` for every star and question mark. */
  function Sample(p: string): (s: string)
    ensures s == "" <==> p == ""
    decreases |p|
  {
    if p == "" then ""
    else if p[0] == '*' || p[0] == '?' then "a" + Sample(p[Token(p)..])
    else [p[0]] + Sample(p[1..])
  }

  lemma {:induction false} SampleMatches(p: string)
    ensures GlobMatches(p, Sample(p))
    ensures NoSlash(p) ==> NoSlash(Sample(p))
    decreases |p|
  {
    if p != "" {
      SampleMatches(p[Token(p)..]);
      var s := Sample(p);
      assert s[1..] == Sample(p[Token(p)..]);
      assert s[..1] == [s[0]];
    }
  }

  /** Without `/` and `**`, whatever a glob matches has no slash either. */
  lemma {:induction false} SlashFree(p: string, s: string)
    requires BasenameOnly(p) && GlobMatches(p, s)
    ensures NoSlash(s)
    decreases |p|
  {
    if p != "" {
      assert !DoubleStar(p);
      assert BasenameOnly(p[1..]) by {
        forall i | 0 <= i < |p| - 2
          ensures !(p[1..][i] == '*' && p[1..][i + 1] == '*')
        {
          assert !(p[i + 1] == '*' && p[i + 2] == '*');
        }
      }
      if p[0] == '*' {
        var k :| 0 <= k <= |s| && NoSlash(s[..k]) && GlobMatches(p[1..], s[k..]);
        SlashFree(p[1..], s[k..]);
        assert s == s[..k] + s[k..];
      } else {
        SlashFree(p[1..], s[1..]);
        assert s == [s[0]] + s[1..];
      }
    }
  }

  /** `name` is the last component of the relative path `rel`. */
  ghost predicate Located(rel: string, name: string) {
    name != "" && NoSlash(name) && (rel == name || exists dir :: rel == dir + "/" + name)
  }

  /** A leading slash holds a pattern to the top of the tree if and only if the rest of it contains
      a slash or `**` (or is empty and matches nothing); otherwise the rule selects the name in
      every directory. */
  lemma AnchorHonoured(fr: FilterRule)
    requires Anchored(fr.pattern)
    ensures (forall rel, name, isDir :: Located(rel, name) && Applies(fr, rel, name, isDir) ==> GlobMatches(Body(fr.pattern), rel))
            <==> !BasenameOnly(Body(fr.pattern)) || Body(fr.pattern) == ""
  {
    var body := Body(fr.pattern);
    if BasenameOnly(body) && body != "" {
      var name := Sample(body);
      var rel := "d" + "/" + name;
      SampleMatches(body);
      assert Located(rel, name) && Applies(fr, rel, name, true);
      assert rel[1] == '/';
      if GlobMatches(body, rel) {
        SlashFree(body, rel);
      }
    }
  }

  // ---------------------------------------------------------------------------
  // The walk
  // ---------------------------------------------------------------------------

  /** What the iterator finds under a directory, in its own order; `Other` is neither a directory
      nor a regular file, or cannot be examined. */
  datatype Tree = File(name: string) | Dir(name: string, children: seq<Tree>) | Other(name: string)

  type Path = p: seq<string> | p != [] witness [""]

  function Join(p: Path): string {
    if |p| == 1 then p[0] else Join(p[..|p| - 1]) + "/" + p[|p| - 1]
  }

  /** The components of a path as the slashes separate them. */
  function Components(s: string): (p: Path) {
    if s == "" then [""]
    else
      var rest := Components(s[1..]);
      if s[0] == '/' then [""] + rest else [[s[0]] + rest[0]] + rest[1..]
  }

  lemma {:induction false} ComponentsOfName(s: string)
    requires NoSlash(s)
    ensures Components(s) == [s]
  {
    if s != "" {
      ComponentsOfName(s[1..]);
      assert s == [s[0]] + s[1..];
    }
  }

  lemma {:induction false} ComponentsAppend(a: string, name: string)
    requires NoSlash(name)
    ensures Components(a + "/" + name) == Components(a) + [name]
  {
    var s := a + "/" + name;
    if a == "" {
      assert s[1..] == name;
      ComponentsOfName(name);
    } else {
      ComponentsAppend(a[1..], name);
      assert s[1..] == a[1..] + "/" + name;
    }
  }

  /** A joined path is its components with slashes between them. */
  lemma {:induction false} JoinRead(p: Path)
    requires forall i :: 0 <= i < |p| ==> NoSlash(p[i])
    ensures Components(Join(p)) == p
    decreases |p|
  {
    if |p| == 1 {
      ComponentsOfName(p[0]);
    } else {
      JoinRead(p[..|p| - 1]);
      ComponentsAppend(Join(p[..|p| - 1]), p[|p| - 1]);
    }
  }

  /** Every regular file below, in the order visited. */
  function Files(above: seq<string>, ts: seq<Tree>): seq<Path>
    decreases ts
  {
    if ts == [] then []
    else
      match ts[0]
      case File(n) => [above + [n]] + Files(above, ts[1..])
      case Dir(n, children) => Files(above + [n], children) + Files(above, ts[1..])
      case Other(_) => Files(above, ts[1..])
  }

  /** A regular file is found by following the names. */
  predicate HasFile(ts: seq<Tree>, p: seq<string>)
    decreases |p|
  {
    p != [] && exists i :: 0 <= i < |ts| && ts[i].name == p[0]
                           && if |p| == 1 then ts[i].File? else ts[i].Dir? && HasFile(ts[i].children, p[1..])
  }

  /** Whether the first entry alone leads to the file. */
  predicate Leads(t: Tree, p: seq<string>) {
    p != [] && t.name == p[0] && if |p| == 1 then t.File? else t.Dir? && HasFile(t.children, p[1..])
  }

  lemma HasFileSplit(ts: seq<Tree>, p: seq<string>)
    requires ts != []
    ensures HasFile(ts, p) <==> Leads(ts[0], p) || HasFile(ts[1..], p)
  {
    if HasFile(ts[1..], p) {
      var i :| 0 <= i < |ts[1..]| && Leads(ts[1..][i], p);
      assert Leads(ts[i + 1], p);
    }
    if HasFile(ts, p) {
      var i :| 0 <= i < |ts| && Leads(ts[i], p);
      if i > 0 {
        assert Leads(ts[1..][i - 1], p);
      }
    }
  }

  /** The traversal lists exactly the files there are. */
  lemma {:induction false} FilesAreThere(above: seq<string>, ts: seq<Tree>, p: seq<string>)
    ensures above + p in Files(above, ts) <==> HasFile(ts, p)
    decreases ts
  {
    if ts != [] {
      HasFileSplit(ts, p);
      FilesAreThere(above, ts[1..], p);
      match ts[0]
      case File(n) =>
        assert above + p == above + [n] <==> p == [n] by {
          assert (above + p)[|above|..] == p && (above + [n])[|above|..] == [n];
        }
      case Dir(n, children) =>
        FilesBelow(above + [n], children);
        if p != [] && p[0] == n {
          FilesAreThere(above + [n], children, p[1..]);
          assert above + p == (above + [n]) + p[1..];
        }
      case Other(_) =>
    }
  }

  type Judge = (string, string, bool) -> bool

  predicate Passes(keep: Judge, p: Path, isDir: bool) { keep(Join(p), p[|p| - 1], isDir) }

  /** The file is kept and so is every directory between `from` levels down and the file. */
  predicate Chosen(keep: Judge, from: nat, p: Path) {
    Passes(keep, p, false) && forall i :: from < i < |p| ==> Passes(keep, p[..i], true)
  }

  function Choose(keep: Judge, from: nat, ps: seq<Path>): seq<Path> {
    if ps == [] then []
    else if Chosen(keep, from, ps[0]) then [ps[0]] + Choose(keep, from, ps[1..])
    else Choose(keep, from, ps[1..])
  }

  lemma {:induction false} ChooseContains(keep: Judge, from: nat, ps: seq<Path>, p: Path)
    ensures p in Choose(keep, from, ps) <==> p in ps && Chosen(keep, from, p)
  {
    if ps != [] {
      ChooseContains(keep, from, ps[1..], p);
    }
  }

  /** The walk that does not enter directories judged out. */
  function Pruned(keep: Judge, above: seq<string>, ts: seq<Tree>): seq<Path>
    decreases ts
  {
    if ts == [] then []
    else
      var rest := Pruned(keep, above, ts[1..]);
      match ts[0]
      case File(n) => if Passes(keep, above + [n], false) then [above + [n]] + rest else rest
      case Dir(n, children) => if Passes(keep, above + [n], true) then Pruned(keep, above + [n], children) + rest else rest
      case Other(_) => rest
  }

  lemma {:induction false} ChooseAppend(keep: Judge, from: nat, a: seq<Path>, b: seq<Path>)
    ensures Choose(keep, from, a + b) == Choose(keep, from, a) + Choose(keep, from, b)
  {
    if a == [] {
      assert a + b == b;
    } else {
      assert (a + b)[0] == a[0] && (a + b)[1..] == a[1..] + b;
      ChooseAppend(keep, from, a[1..], b);
    }
  }

  predicate Below(above: seq<string>, ps: seq<Path>) {
    forall i :: 0 <= i < |ps| ==> |ps[i]| > |above| && ps[i][..|above|] == above
  }

  lemma {:induction false} FilesBelow(above: seq<string>, ts: seq<Tree>)
    ensures Below(above, Files(above, ts))
    decreases ts
  {
    if ts != [] {
      FilesBelow(above, ts[1..]);
      if ts[0].Dir? {
        FilesBelow(above + [ts[0].name], ts[0].children);
        BelowDeeper(above, ts[0].name, Files(above + [ts[0].name], ts[0].children));
      }
    }
  }

  lemma BelowDeeper(above: seq<string>, n: string, ps: seq<Path>)
    requires Below(above + [n], ps)
    ensures Below(above, ps)
  {
    forall i | 0 <= i < |ps|
      ensures ps[i][..|above|] == above
    {
      assert ps[i][..|above|] == ps[i][..|above| + 1][..|above|];
    }
  }

  /** Below a directory, the choice starts one level deeper if the directory passes, and is empty
      if it does not. */
  lemma {:induction false} ChooseBelow(keep: Judge, dir: Path, ps: seq<Path>)
    requires Below(dir, ps)
    ensures Choose(keep, |dir| - 1, ps) == if Passes(keep, dir, true) then Choose(keep, |dir|, ps) else []
  {
    if ps != [] {
      assert ps[0][..|dir|] == dir;
      ChooseBelow(keep, dir, ps[1..]);
    }
  }

  /** Pruning loses nothing and adds nothing: the walk yields the files that pass and whose
      directories all pass, in the order of the full traversal. */
  lemma {:induction false} PrunedIsChoice(keep: Judge, above: seq<string>, ts: seq<Tree>)
    ensures Pruned(keep, above, ts) == Choose(keep, |above|, Files(above, ts))
    decreases ts
  {
    if ts != [] {
      PrunedIsChoice(keep, above, ts[1..]);
      var later := Files(above, ts[1..]);
      match ts[0]
      case File(n) =>
        ChooseAppend(keep, |above|, [above + [n]], later);
        assert Choose(keep, |above|, [above + [n]]) == if Passes(keep, above + [n], false) then [above + [n]] else [];
      case Dir(n, children) =>
        var inner := Files(above + [n], children);
        ChooseAppend(keep, |above|, inner, later);
        FilesBelow(above + [n], children);
        ChooseBelow(keep, above + [n], inner);
        PrunedIsChoice(keep, above + [n], children);
      case Other(_) =>
    }
  }

  // ---------------------------------------------------------------------------
  // The iterator
  // ---------------------------------------------------------------------------

  /** A directory being read: its path and the entries not visited yet. */
  datatype Frame = Frame(above: seq<string>, rest: seq<Tree>)

  function Remaining(keep: Judge, stack: seq<Frame>): seq<Path> {
    if stack == [] then [] else Pruned(keep, stack[0].above, stack[0].rest) + Remaining(keep, stack[1..])
  }

  function Size(ts: seq<Tree>): nat {
    if ts == [] then 0 else 1 + (if ts[0].Dir? then 1 + Size(ts[0].children) else 0) + Size(ts[1..])
  }

  function StackSize(stack: seq<Frame>): nat {
    if stack == [] then 0 else 1 + Size(stack[0].rest) + StackSize(stack[1..])
  }

  /** The stack after one entry, and the file enqueued for it if any. */
  function Visit(keep: Judge, stack: seq<Frame>): (seq<Path>, seq<Frame>)
    requires stack != []
  {
    var top, below := stack[0], stack[1..];
    if top.rest == [] then ([], below)
    else
      var path := top.above + [top.rest[0].name];
      var next := [Frame(top.above, top.rest[1..])] + below;
      match top.rest[0]
      case Dir(_, children) => if Passes(keep, path, true) then ([], [Frame(path, children)] + next) else ([], next)
      case File(_) => if Passes(keep, path, false) then ([path], next) else ([], next)
      case Other(_) => ([], next)
  }

  lemma RemainingPush(keep: Judge, f: Frame, stack: seq<Frame>)
    ensures Remaining(keep, [f] + stack) == Pruned(keep, f.above, f.rest) + Remaining(keep, stack)
    ensures StackSize([f] + stack) == 1 + Size(f.rest) + StackSize(stack)
  {
    assert ([f] + stack)[1..] == stack;
  }

  lemma VisitAdvances(keep: Judge, stack: seq<Frame>)
    requires stack != []
    ensures var (out, next) := Visit(keep, stack);
            && out + Remaining(keep, next) == Remaining(keep, stack)
            && StackSize(next) < StackSize(stack)
  {
    var top, below := stack[0], stack[1..];
    var later := Remaining(keep, below);
    if top.rest == [] {
      EmptyFront(later);
    } else {
      var path := top.above + [top.rest[0].name];
      var rest := Frame(top.above, top.rest[1..]);
      var after := Pruned(keep, top.above, top.rest[1..]);
      RemainingPush(keep, rest, below);
      Associates([path], after, later);
      EmptyFront(after + later);
      if top.rest[0].Dir? && Passes(keep, path, true) {
        var children := top.rest[0].children;
        RemainingPush(keep, Frame(path, children), [rest] + below);
        Associates(Pruned(keep, path, children), after, later);
        EmptyFront(Pruned(keep, path, children) + (after + later));
      }
    }
  }

  /** The verdicts of a rule list. */
  ghost function Rulebook(frs: seq<FilterRule>): Judge {
    (rel, name, isDir) => Kept(frs, rel, name, isDir)
  }

  method KeepPath(ghost frs: seq<FilterRule>, rules: seq<Rule>, path: Path, isDir: bool) returns (r: bool)
    requires |rules| == |frs| && forall i :: 0 <= i < |rules| ==> Compiled(frs[i], rules[i])
    ensures r <==> Passes(Rulebook(frs), path, isDir)
  {
    r := Keep(frs, rules, Join(path), path[|path| - 1], isDir);
  }

  /** One turn of the iterator: the current entry is judged, recursion into it is disabled when it
      is judged out, and the iterator moves on. */
  method Increment(ghost frs: seq<FilterRule>, rules: seq<Rule>, stack: seq<Frame>) returns (out: seq<Path>, next: seq<Frame>)
    requires |rules| == |frs| && forall i :: 0 <= i < |rules| ==> Compiled(frs[i], rules[i])
    requires stack != []
    ensures (out, next) == Visit(Rulebook(frs), stack)
  {
    var top, below := stack[0], stack[1..];
    out := [];
    if top.rest == [] {
      return [], below;
    }
    var entry := top.rest[0];
    var path := top.above + [entry.name];
    next := [Frame(top.above, top.rest[1..])] + below;
    if entry.Other? {
      return;
    }
    var kept := KeepPath(frs, rules, path, entry.Dir?);
    if entry.Dir? {
      if kept {
        next := [Frame(path, entry.children)] + next;
      }
    } else if kept {
      out := [path];
    }
  }

  /** The path is enqueued: the file is there, the rules keep it, and they keep every directory on the
      way to it. */
  ghost predicate Selected(frs: seq<FilterRule>, ts: seq<Tree>, p: Path) {
    && HasFile(ts, p) && Kept(frs, Join(p), p[|p| - 1], false)
    && forall i :: 0 < i < |p| ==> Kept(frs, Join(p[..i]), p[i - 1], true)
  }

  /** The rules keep the file and every directory on the way to it. */
  ghost predicate KeptThrough(frs: seq<FilterRule>, p: Path) {
    Kept(frs, Join(p), p[|p| - 1], false) && forall i :: 0 < i < |p| ==> Kept(frs, Join(p[..i]), p[i - 1], true)
  }

  lemma SelectedMeans(frs: seq<FilterRule>, ts: seq<Tree>, p: Path)
    ensures Selected(frs, ts, p) <==> HasFile(ts, p) && KeptThrough(frs, p)
  {
    hide HasFile, Kept, Join;
  }

  lemma PassesIsKept(frs: seq<FilterRule>, p: Path, isDir: bool)
    ensures Passes(Rulebook(frs), p, isDir) <==> Kept(frs, Join(p), p[|p| - 1], isDir)
  {
    hide Kept, Join;
  }

  lemma ChosenIsKept(frs: seq<FilterRule>, p: Path)
    ensures Chosen(Rulebook(frs), 0, p) <==> KeptThrough(frs, p)
  {
    hide Kept, Join, Passes, Rulebook;
    PassesIsKept(frs, p, false);
    forall i | 0 < i < |p|
      ensures Passes(Rulebook(frs), p[..i], true) <==> Kept(frs, Join(p[..i]), p[i - 1], true)
    {
      PassesIsKept(frs, p[..i], true);
    }
  }

  lemma SelectedIsChosen(frs: seq<FilterRule>, ts: seq<Tree>, p: Path)
    ensures p in Choose(Rulebook(frs), 0, Files([], ts)) <==> Selected(frs, ts, p)
  {
    ChosenIsKept(frs, p);
    hide *;
    ChooseContains(Rulebook(frs), 0, Files([], ts), p);
    FilesAreThere([], ts, p);
    assert [] + p == p;
    SelectedMeans(frs, ts, p);
  }

  /** `run`: the recursive iterator as a stack of open directories. */
  method Run(ghost frs: seq<FilterRule>, rules: seq<Rule>, ts: seq<Tree>) returns (enqueued: seq<Path>)
    requires |rules| == |frs| && forall i :: 0 <= i < |rules| ==> Compiled(frs[i], rules[i])
    ensures enqueued == Choose(Rulebook(frs), 0, Files([], ts))
    ensures forall p: Path :: p in enqueued <==> Selected(frs, ts, p)
  {
    enqueued := [];
    var stack := [Frame([], ts)];
    PrunedIsChoice(Rulebook(frs), [], ts);
    ghost var goal := Pruned(Rulebook(frs), [], ts);
    while stack != []
      invariant enqueued + Remaining(Rulebook(frs), stack) == goal
      decreases StackSize(stack)
    {
      VisitAdvances(Rulebook(frs), stack);
      var out, next := Increment(frs, rules, stack);
      Associates(enqueued, out, Remaining(Rulebook(frs), next));
      enqueued, stack := enqueued + out, next;
    }
    forall p: Path ensures p in enqueued <==> Selected(frs, ts, p) {
      SelectedIsChosen(frs, ts, p);
    }
  }
}
