/** Filter rules of client/scheduler.h: the regular expression a glob is compiled into selects
    exactly what the glob means. */
module Glob {
  import opened Basics
  import opened Regex

  // ---------------------------------------------------------------------------
  // What a glob means
  // ---------------------------------------------------------------------------

  predicate NoSlash(s: string) { forall i :: 0 <= i < |s| ==> s[i] != '/' }

  predicate OneLine(s: string) { forall i :: 0 <= i < |s| ==> !LineEnd(s[i]) }

  predicate DoubleStar(p: string) { |p| >= 2 && p[0] == '*' && p[1] == '*' }

  /** `**` stands for any text on one line, `*` for any text without a slash, `?` for one character
      other than a slash, everything else for itself. */
  predicate GlobMatches(p: string, s: string)
    decreases |p|
  {
    if p == "" then s == ""
    else if DoubleStar(p) then exists k :: 0 <= k <= |s| && OneLine(s[..k]) && GlobMatches(p[2..], s[k..])
    else if p[0] == '*' then exists k :: 0 <= k <= |s| && NoSlash(s[..k]) && GlobMatches(p[1..], s[k..])
    else if p[0] == '?' then s != "" && s[0] != '/' && GlobMatches(p[1..], s[1..])
    else s != "" && s[0] == p[0] && GlobMatches(p[1..], s[1..])
  }

  /** The glob matches the path or what follows one of its slashes. */
  ghost predicate AtAnyDepth(p: string, s: string) {
    GlobMatches(p, s) || exists k :: ParentEnds(s, k) && GlobMatches(p, s[k + 1..])
  }

  // ---------------------------------------------------------------------------
  // Compilation
  // ---------------------------------------------------------------------------

  datatype FilterRule = FilterRule(keeps: bool, pattern: string)

  datatype Rule = Rule(keeps: bool, dirOnly: bool, basenameOnly: bool, re: string)

  function Escaped(c: char): string { if Escapable(c) then ['\\', c] else [c] }

  /** What the first token of the pattern becomes, and its length. */
  function Piece(p: string): string
    requires p != ""
  {
    if DoubleStar(p) then ".*"
    else if p[0] == '*' then "[^/]*"
    else if p[0] == '?' then "[^/]"
    else Escaped(p[0])
  }

  function Token(p: string): nat { if DoubleStar(p) then 2 else 1 }

  function Translate(p: string): string
    decreases |p|
  {
    if p == "" then "" else Piece(p) + Translate(p[Token(p)..])
  }

  /** The pattern without its directory mark and its leading slash. */
  function Body(pattern: string): string {
    var p := if pattern != "" && pattern[|pattern| - 1] == '/' then pattern[..|pattern| - 1] else pattern;
    if p != "" && p[0] == '/' then p[1..] else p
  }

  predicate DirOnly(pattern: string) { pattern != "" && pattern[|pattern| - 1] == '/' }

  predicate Anchored(pattern: string) {
    var p := if DirOnly(pattern) then pattern[..|pattern| - 1] else pattern;
    p != "" && p[0] == '/'
  }

  /** A pattern is an anchor, a body and a directory mark, in that order ... */
  lemma PatternParts(pattern: string)
    ensures pattern == (if Anchored(pattern) then "/" else "") + Body(pattern) + (if DirOnly(pattern) then "/" else "")
  {
    var p := if DirOnly(pattern) then pattern[..|pattern| - 1] else pattern;
    assert pattern == p + if DirOnly(pattern) then "/" else "";
    assert p == (if Anchored(pattern) then "/" else "") + Body(pattern);
  }

  /** ... and is read as written: a last slash is the mark, and what is left may start with the anchor. */
  lemma PatternRead(anchor: bool, body: string, dir: bool)
    requires !anchor ==> body == "" || body[0] != '/'
    requires !dir ==> if body == "" then !anchor else body[|body| - 1] != '/'
    ensures var pattern := (if anchor then "/" else "") + body + (if dir then "/" else "");
            Anchored(pattern) == anchor && Body(pattern) == body && DirOnly(pattern) == dir
  {
    var p := (if anchor then "/" else "") + body;
    var pattern := p + if dir then "/" else "";
    if dir {
      assert pattern[..|pattern| - 1] == p;
    }
    if anchor {
      assert p[1..] == body;
    }
  }

  /** No slash and no `**`: the rule looks at the last name of a path only. */
  predicate BasenameOnly(body: string) {
    NoSlash(body) && forall i :: 0 <= i < |body| - 1 ==> !(body[i] == '*' && body[i + 1] == '*')
  }

  lemma TranslateStep(done: string, p: string)
    requires p != ""
    ensures (done + Piece(p)) + Translate(p[Token(p)..]) == done + Translate(p)
  {
  }

  /** The translation loop. */
  method TranslateGlob(pat: string) returns (re: string)
    ensures re == Translate(pat)
  {
    re := "";
    var i := 0;
    while i < |pat|
      invariant 0 <= i <= |pat|
      invariant re + Translate(pat[i..]) == Translate(pat)
    {
      var c := pat[i];
      ghost var rest := pat[i..];
      TranslateStep(re, rest);
      assert rest[1..] == pat[i + 1..];
      if c == '*' && i + 1 < |pat| && pat[i + 1] == '*' {
        assert rest[2..] == pat[i + 2..];
        re := re + ".*";
        i := i + 2;
      } else if c == '*' {
        re := re + "[^/]*";
        i := i + 1;
      } else if c == '?' {
        re := re + "[^/]";
        i := i + 1;
      } else {
        EscapeFirst(re, c);
        if Escapable(c) {
          re := re + "\\";
        }
        re := re + [c];
        i := i + 1;
      }
    }
    assert re + "" == re;
  }

  lemma EscapeFirst(re: string, c: char)
    ensures re + Escaped(c) == if Escapable(c) then (re + "\\") + [c] else re + [c]
  {
  }

  /** `compileRule`. */
  method CompileRule(fr: FilterRule) returns (rule: Rule)
    ensures rule.keeps == fr.keeps && rule.dirOnly == DirOnly(fr.pattern)
    ensures rule.basenameOnly == BasenameOnly(Body(fr.pattern))
    ensures rule.re == Source(Body(fr.pattern), rule.basenameOnly || Anchored(fr.pattern))
  {
    var pat := fr.pattern;
    var dirOnly := false;
    if pat != "" && pat[|pat| - 1] == '/' {
      dirOnly := true;
      pat := pat[..|pat| - 1];
    }
    var anchored := false;
    if pat != "" && pat[0] == '/' {
      anchored := true;
      pat := pat[1..];
    }
    var re := TranslateGlob(pat);
    var basenameOnly := BasenameOnly(pat);
    var full := if basenameOnly || anchored then re else "(.*/)?" + re;
    rule := Rule(fr.keeps, dirOnly, basenameOnly, "^" + full + "$");
  }

  function Source(body: string, fixed: bool): string {
    "^" + (if fixed then Translate(body) else "(.*/)?" + Translate(body)) + "$"
  }

  // ---------------------------------------------------------------------------
  // The text parses to the intended expression
  // ---------------------------------------------------------------------------

  function Head(p: string): Node
    requires p != ""
  {
    if DoubleStar(p) then Star(Dot)
    else if p[0] == '*' then Star(Not('/'))
    else if p[0] == '?' then Not('/')
    else Lit(p[0])
  }

  function Nodes(p: string): seq<Node>
    decreases |p|
  {
    if p == "" then [] else [Head(p)] + Nodes(p[Token(p)..])
  }

  /** Translated text never starts like a quantifier, so no node picks up a neighbour's. */
  lemma NoQuantifierAhead(p: string)
    ensures var t := Translate(p) + "$"; t[0] != '*' && t[0] != '?'
  {
  }

  lemma DotStarParsed(t: string)
    ensures ParseTerm(".*" + t) == Some((Star(Dot), t))
  {
    var u := ".*" + t;
    assert u[1..] == "*" + t && u[1..][1..] == t;
  }

  lemma NotSlashParsed(t: string)
    ensures ParseAtom("[^/]" + t) == Some((Not('/'), t))
  {
    var u := "[^/]" + t;
    assert u[4..] == t;
  }

  lemma NotSlashStarParsed(t: string)
    ensures ParseTerm("[^/]*" + t) == Some((Star(Not('/')), t))
  {
    var u := "[^/]*" + t;
    assert u == "[^/]" + ("*" + t);
    NotSlashParsed("*" + t);
    assert ("*" + t)[1..] == t;
  }

  lemma LiteralParsed(c: char, t: string)
    requires c != '*' && c != '?'
    ensures ParseAtom(Escaped(c) + t) == Some((Lit(c), t))
  {
    var u := Escaped(c) + t;
    if Escapable(c) {
      assert u[2..] == t;
    } else {
      assert u[1..] == t;
    }
  }

  lemma TermThenRest(t: string, n: Node, rest: string, ns: seq<Node>, end: string)
    requires t != "" && t[0] != ')' && t[0] != '$'
    requires ParseTerm(t) == Some((n, rest)) && ParseAll(rest) == Some((ns, end))
    ensures ParseAll(t) == Some(([n] + ns, end))
  {
  }

  lemma TranslateEnd(p: string)
    requires p != ""
    ensures Translate(p) + "$" == Piece(p) + (Translate(p[Token(p)..]) + "$")
    ensures Piece(p) != "" && Piece(p)[0] != ')' && Piece(p)[0] != '$'
  {
  }

  /** The text of a token, whatever translation follows it, is one term. */
  lemma HeadParsed(p: string, rest: string)
    requires p != "" && rest != "" && rest[0] != '*' && rest[0] != '?'
    ensures ParseTerm(Piece(p) + rest) == Some((Head(p), rest))
  {
    if DoubleStar(p) {
      DotStarParsed(rest);
    } else if p[0] == '*' {
      NotSlashStarParsed(rest);
    } else if p[0] == '?' {
      NotSlashParsed(rest);
    } else {
      LiteralParsed(p[0], rest);
    }
  }

  lemma {:induction false} TranslationParses(p: string)
    ensures ParseAll(Translate(p) + "$") == Some((Nodes(p), "$"))
    decreases |p|
  {
    if p == "" {
      assert Translate(p) + "$" == "$";
    } else {
      var q := p[Token(p)..];
      var rest := Translate(q) + "$";
      TranslationParses(q);
      NoQuantifierAhead(q);
      HeadParsed(p, rest);
      TranslateEnd(p);
      TermThenRest(Piece(p) + rest, Head(p), rest, Nodes(q), "$");
    }
  }

  lemma PrefixParsed(t: string)
    requires t != ""
    ensures ParseTerm("(.*/)?" + t) == Some((Opt(Group([Star(Dot), Lit('/')])), t))
  {
    var u := "(.*/)?" + t;
    var inner := "/)?" + t;
    var close := ")?" + t;
    assert u[1..] == ".*" + inner;
    DotStarParsed(inner);
    assert inner[1..] == close;
    TermThenRest(inner, Lit('/'), close, [], close);
    TermThenRest(".*" + inner, Star(Dot), inner, [Lit('/')] + [], close);
    assert [Star(Dot)] + ([Lit('/')] + []) == [Star(Dot), Lit('/')];
    assert close[1..] == "?" + t && ("?" + t)[1..] == t;
  }

  /** The expression a rule stands for. */
  function Expression(body: string, fixed: bool): seq<Node> {
    if fixed then Nodes(body) else [Opt(Group([Star(Dot), Lit('/')]))] + Nodes(body)
  }

  lemma SourceParses(body: string, fixed: bool)
    ensures Parse(Source(body, fixed)) == Some(Expression(body, fixed))
  {
    var t := Translate(body) + "$";
    var src := Source(body, fixed);
    TranslationParses(body);
    if fixed {
      assert src[1..] == t;
    } else {
      assert src[1..] == "(.*/)?" + t;
      PrefixParsed(t);
      TermThenRest("(.*/)?" + t, Opt(Group([Star(Dot), Lit('/')])), t, Nodes(body), "$");
    }
  }

  // ---------------------------------------------------------------------------
  // The expression means the glob
  // ---------------------------------------------------------------------------

  lemma {:induction false} NodesMeanGlob(p: string, s: string)
    ensures MatchesAll(Nodes(p), s) <==> GlobMatches(p, s)
    decreases |p|
  {
    if p != "" {
      var q := p[Token(p)..];
      forall u { NodesMeanGlob(q, u); }
      if DoubleStar(p) {
        StarThen(Dot, Nodes(q), s);
        assert forall k :: 0 <= k <= |s| ==> (All(Dot, s[..k]) <==> OneLine(s[..k]));
      } else if p[0] == '*' {
        StarThen(Not('/'), Nodes(q), s);
        assert forall k :: 0 <= k <= |s| ==> (All(Not('/'), s[..k]) <==> NoSlash(s[..k]));
      } else {
        SingleThen(Head(p), Nodes(q), s);
      }
    }
  }

  /** `(.*` + `/)` takes one-line text that ends in a slash. */
  lemma PrefixMeans(s: string)
    ensures Matches(Group([Star(Dot), Lit('/')]), s)
            <==> s != "" && s[|s| - 1] == '/' && OneLine(s[..|s| - 1])
  {
    assert [Star(Dot), Lit('/')] == [Star(Dot)] + [Lit('/')];
    StarThen(Dot, [Lit('/')], s);
    forall k | 0 <= k <= |s|
      ensures MatchesAll([Lit('/')], s[k..]) <==> k == |s| - 1 && s[k] == '/'
    {
      OneSlash(s[k..]);
    }
    forall k | 0 <= k <= |s| ensures All(Dot, s[..k]) <==> OneLine(s[..k]) {
      DotsAreOneLine(s[..k]);
    }
  }

  lemma OneSlash(s: string)
    ensures MatchesAll([Lit('/')], s) <==> s == "/"
  {
    var last: seq<Node> := [Lit('/')];
    assert last == last + [];
    SingleThen(Lit('/'), [], s);
  }

  lemma DotsAreOneLine(s: string)
    ensures All(Dot, s) <==> OneLine(s)
  {
  }

  const ANY_PARENT: Node := Group([Star(Dot), Lit('/')])

  /** `k` is a slash that `(.*` + `/)` can end at. */
  predicate ParentEnds(s: string, k: nat) { k < |s| && s[k] == '/' && OneLine(s[..k]) }

  lemma ParentMeans(s: string, k: nat)
    requires k < |s|
    ensures Matches(Opt(ANY_PARENT), s[..k + 1]) <==> ParentEnds(s, k)
  {
    PrefixMeans(s[..k + 1]);
    assert s[..k + 1][..k] == s[..k];
  }

  lemma PrefixThen(ns: seq<Node>, s: string)
    ensures MatchesAll([Opt(ANY_PARENT)] + ns, s)
            <==> MatchesAll(ns, s) || exists k :: ParentEnds(s, k) && MatchesAll(ns, s[k + 1..])
  {
    MatchesCons(Opt(ANY_PARENT), ns, s);
    assert s[0..] == s && Matches(Opt(ANY_PARENT), s[..0]);
    if MatchesAll([Opt(ANY_PARENT)] + ns, s) {
      var k :| 0 <= k <= |s| && Matches(Opt(ANY_PARENT), s[..k]) && MatchesAll(ns, s[k..]);
      if k > 0 {
        ParentMeans(s, k - 1);
        assert s[(k - 1) + 1..] == s[k..];
      }
    }
    if k :| ParentEnds(s, k) && MatchesAll(ns, s[k + 1..]) {
      ParentMeans(s, k);
    }
  }

  /** What a rule's text matches. */
  predicate RegexMatches(text: string, s: string) {
    var parsed := Parse(text);
    parsed.Some? && MatchesAll(parsed.value, s)
  }

  /** The compiled text of any pattern is a well-formed expression, and matching a string against
      it is matching the glob: as a whole if fixed, at any depth otherwise. */
  lemma CompiledMeansGlob(body: string, fixed: bool, s: string)
    ensures RegexMatches(Source(body, fixed), s) <==> if fixed then GlobMatches(body, s) else AtAnyDepth(body, s)
  {
    SourceParses(body, fixed);
    NodesMeanGlob(body, s);
    if !fixed {
      PrefixThen(Nodes(body), s);
      forall u { NodesMeanGlob(body, u); }
    }
  }
}
