/** The fragment of ECMAScript regular expressions that the filter rules are compiled into: its
    syntax as text, and what a whole-string match means. */
module Regex {
  import opened Basics

  datatype Node =
    | Dot
    | Not(c: char)
    | Lit(c: char)
    | Group(body: seq<Node>)
    | Star(n: Node)
    | Opt(n: Node)

  // ---------------------------------------------------------------------------
  // Meaning
  // ---------------------------------------------------------------------------

  predicate LineEnd(c: char) { c == '\n' || c == '\r' }

  /** `regex_match` on one node: the node describes the whole of `s`. */
  predicate Matches(n: Node, s: string)
    decreases n, |s|
  {
    match n
    case Dot => |s| == 1 && !LineEnd(s[0])
    case Not(c) => |s| == 1 && s[0] != c
    case Lit(c) => s == [c]
    case Group(body) => MatchesAll(body, s)
    case Star(m) => s == "" || exists k :: 0 < k <= |s| && Matches(m, s[..k]) && Matches(n, s[k..])
    case Opt(m) => s == "" || Matches(m, s)
  }

  /** The same for nodes one after the other. */
  predicate MatchesAll(ns: seq<Node>, s: string)
    decreases ns, |s|
  {
    if ns == [] then s == ""
    else exists k :: 0 <= k <= |s| && Matches(ns[0], s[..k]) && MatchesAll(ns[1..], s[k..])
  }

  // ---------------------------------------------------------------------------
  // Syntax
  // ---------------------------------------------------------------------------

  /** Characters that mean themselves only when escaped. */
  predicate Special(c: char) { c in ".^$+{}()[]|\\*?" }

  /** Characters an identity escape may name; the terminating NUL of the table counts. */
  predicate Escapable(c: char) { c in ".^$+{}()[]|\\" || c == '\0' }

  function ParseAtom(t: string): (r: Option<(Node, string)>)
    ensures r.Some? ==> |r.value.1| < |t|
    decreases |t|, 0
  {
    if t == "" then None
    else if t[0] == '.' then Some((Dot, t[1..]))
    else if t[0] == '[' then
      if |t| >= 4 && t[1] == '^' && !Special(t[2]) && t[3] == ']' then Some((Not(t[2]), t[4..])) else None
    else if t[0] == '\\' then
      if |t| >= 2 && Escapable(t[1]) then Some((Lit(t[1]), t[2..])) else None
    else if t[0] == '(' then
      match ParseAll(t[1..])
      case None => None
      case Some((ns, rest)) => if rest != "" && rest[0] == ')' then Some((Group(ns), rest[1..])) else None
    else if Special(t[0]) then None
    else Some((Lit(t[0]), t[1..]))
  }

  function ParseTerm(t: string): (r: Option<(Node, string)>)
    ensures r.Some? ==> |r.value.1| < |t|
    decreases |t|, 1
  {
    match ParseAtom(t)
    case None => None
    case Some((n, rest)) =>
      if rest != "" && rest[0] == '*' then Some((Star(n), rest[1..]))
      else if rest != "" && rest[0] == '?' then Some((Opt(n), rest[1..]))
      else Some((n, rest))
  }

  function ParseAll(t: string): (r: Option<(seq<Node>, string)>)
    ensures r.Some? ==> |r.value.1| <= |t|
    decreases |t|, 2
  {
    if t == "" || t[0] == ')' || t[0] == '$' then Some(([], t))
    else
      match ParseTerm(t)
      case None => None
      case Some((n, rest)) =>
        match ParseAll(rest)
        case None => None
        case Some((ns, end)) => Some(([n] + ns, end))
  }

  /** A whole expression: anchored at both ends, nothing left over. */
  function Parse(t: string): Option<seq<Node>> {
    if t == "" || t[0] != '^' then None
    else
      match ParseAll(t[1..])
      case None => None
      case Some((ns, rest)) => if rest == "$" then Some(ns) else None
  }

  // ---------------------------------------------------------------------------
  // What the nodes used mean, without the recursion
  // ---------------------------------------------------------------------------

  /** The characters a single-character node takes. */
  predicate Takes(n: Node, c: char) {
    match n
    case Dot => !LineEnd(c)
    case Not(d) => c != d
    case Lit(d) => c == d
    case _ => false
  }

  predicate Single(n: Node) { n.Dot? || n.Not? || n.Lit? }

  predicate All(n: Node, s: string) { forall i :: 0 <= i < |s| ==> Takes(n, s[i]) }

  lemma {:induction false} StarOfSingle(n: Node, s: string)
    requires Single(n)
    ensures Matches(Star(n), s) <==> All(n, s)
    decreases |s|
  {
    if s != "" {
      if Matches(Star(n), s) {
        var k :| 0 < k <= |s| && Matches(n, s[..k]) && Matches(Star(n), s[k..]);
        StarOfSingle(n, s[k..]);
        assert s == s[..k] + s[k..];
      }
      if All(n, s) {
        StarOfSingle(n, s[1..]);
        assert Matches(n, s[..1]) && Matches(Star(n), s[1..]);
      }
    }
  }

  lemma MatchesCons(n: Node, ns: seq<Node>, s: string)
    ensures MatchesAll([n] + ns, s) <==> exists k :: 0 <= k <= |s| && Matches(n, s[..k]) && MatchesAll(ns, s[k..])
  {
    assert ([n] + ns)[1..] == ns;
  }

  lemma SingleThen(n: Node, ns: seq<Node>, s: string)
    requires Single(n)
    ensures MatchesAll([n] + ns, s) <==> s != "" && Takes(n, s[0]) && MatchesAll(ns, s[1..])
  {
    MatchesCons(n, ns, s);
    if s != "" && Takes(n, s[0]) && MatchesAll(ns, s[1..]) {
      assert Matches(n, s[..1]);
    }
  }

  lemma StarThen(n: Node, ns: seq<Node>, s: string)
    requires Single(n)
    ensures MatchesAll([Star(n)] + ns, s) <==> exists k :: 0 <= k <= |s| && All(n, s[..k]) && MatchesAll(ns, s[k..])
  {
    MatchesCons(Star(n), ns, s);
    forall k | 0 <= k <= |s|
      ensures Matches(Star(n), s[..k]) <==> All(n, s[..k])
    {
      StarOfSingle(n, s[..k]);
    }
  }
}
