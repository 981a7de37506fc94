/**
 * The glob test cases.  Each is an instance of a general shape (a plain
 * prefix, one special element, a plain suffix) whose compilation and
 * matching are proved once for all texts.
 */
module GlobExamples {
  import opened Wrappers
  import opened Globs
  import opened GlobProperties

  // ---------------------------------------------------------------------
  // Shapes
  // ---------------------------------------------------------------------

  lemma {:induction false} LitsConcat(a: string, b: string)
    ensures Lits(a + b) == Lits(a) + Lits(b)
  {
    if a != [] {
      assert (a + b)[0] == a[0] && (a + b)[1..] == a[1..] + b;
      LitsConcat(a[1..], b);
    } else {
      assert a + b == b;
    }
  }

  /** A quoted character between plain texts compiles to the literal text. */
  lemma CompileQuoted(p: string, c: char, q: string)
    requires Plain(p) && Plain(q)
    ensures Compile(p + ['\\', c] + q) == Success(Lits(p + [c] + q))
  {
    var r, cq := ['\\', c] + q, [c] + q;
    assert p + ['\\', c] + q == p + r;
    assert p + [c] + q == p + cq;
    assert r[0] == '\\' && r[1] == c && r[2..] == q;
    assert cq[0] == c && cq[1..] == q;
    PlainPrefixCompiles(p, r);
    CompileAtomFirst(r);
    PlainCompiles(q);
    LitsConcat(p, cq);
  }

  /** `*` or `**` between plain texts compiles to literals around the star. */
  lemma CompileStarShape(p: string, star: string, a: Atom, q: string)
    requires Plain(p) && Plain(q)
    requires (star == "*" && a == Star) || (star == "**" && a == DoubleStar)
    ensures Compile(p + star + q) == Success(Lits(p) + ([One(a)] + Lits(q)))
  {
    assert p + star + q == p + (star + q);
    if q != [] {
      assert q[0] !in {'\\', '[', '*', '?', '{'};
    }
    assert AtomOf(star + q) == Success(Parsed(a, q));
    CompileAtomFirst(star + q);
    PlainCompiles(q);
    PlainPrefixCompiles(p, star + q);
  }

  /** `*` before literal text spans exactly the separator-free part before that text. */
  lemma StarThenLits(q: string, t: string)
    ensures Match([Star], Lits(q), t) <==>
      |q| <= |t| && t[|t| - |q|..] == q && Separator !in t[..|t| - |q|]
  {
    if Match([Star], Lits(q), t) {
      var j := StarSpanSome(Lits(q), t);
      LitsMatch(q, t[j..]);
      assert t[j..] == q;
      assert j == |t| - |q|;
    }
    if |q| <= |t| && t[|t| - |q|..] == q && Separator !in t[..|t| - |q|] {
      var j := |t| - |q|;
      LitsMatch(q, t[j..]);
      StarSpanFrom(Lits(q), t, j);
    }
  }

  /** `**` before literal text spans everything before that text, which holds no line terminator. */
  lemma DoubleStarThenLits(q: string, t: string)
    ensures Match([DoubleStar], Lits(q), t) <==>
      |q| <= |t| && t[|t| - |q|..] == q && NoLineTerminator(t[..|t| - |q|])
  {
    if Match([DoubleStar], Lits(q), t) {
      var j := DoubleStarSpanSome(Lits(q), t);
      LitsMatch(q, t[j..]);
      assert t[j..] == q;
      assert j == |t| - |q|;
    }
    if |q| <= |t| && t[|t| - |q|..] == q && NoLineTerminator(t[..|t| - |q|]) {
      var j := |t| - |q|;
      LitsMatch(q, t[j..]);
      DoubleStarSpanFrom(Lits(q), t, j);
    }
  }

  /** After a literal prefix, a pattern matches what its remaining tokens match of the rest. */
  lemma AfterLits(p: string, a: Atom, q: string, s: string)
    requires a == Star || a == DoubleStar
    ensures Matches(Lits(p) + ([One(a)] + Lits(q)), s) <==>
      |p| <= |s| && s[..|p|] == p && Match([a], Lits(q), s[|p|..])
  {
    LitsPrefixMatch(p, [One(a)] + Lits(q), s);
    if |p| <= |s| {
      if a == Star {
        StarFirst(Lits(q), s[|p|..]);
      } else {
        DoubleStarFirst(Lits(q), s[|p|..]);
      }
    }
  }

  /** The suffix `q` and the run before it, read in `s[|p|..]` or in `s` after `p`. */
  lemma SuffixAfterPrefix(p: string, q: string, s: string, t: string)
    requires |p| <= |s| && t == s[|p|..]
    ensures |q| <= |t| <==> |p| + |q| <= |s|
    ensures |q| <= |t| ==> t[|t| - |q|..] == s[|s| - |q|..] && t[..|t| - |q|] == s[|p|..|s| - |q|]
  {
  }

  /**
   * Literals, `*`, literals: the text has the prefix and the suffix, and
   * no separator in between.
   */
  lemma StarShapeMatch(p: string, q: string, s: string)
    ensures Matches(Lits(p) + ([One(Star)] + Lits(q)), s) <==>
      |p| + |q| <= |s| && s[..|p|] == p && s[|s| - |q|..] == q
      && Separator !in s[|p|..|s| - |q|]
  {
    AfterLits(p, Star, q, s);
    if |p| <= |s| {
      var t := s[|p|..];
      StarThenLits(q, t);
      SuffixAfterPrefix(p, q, s, t);
    }
  }

  /** The glob p*q matches s exactly when s is p, a run without a separator, then q. */
  lemma StarGlobMatch(p: string, q: string, s: string)
    requires Plain(p) && Plain(q)
    ensures GlobMatches(p + "*" + q, s) == Success(
      |p| + |q| <= |s| && s[..|p|] == p && s[|s| - |q|..] == q
      && Separator !in s[|p|..|s| - |q|])
  {
    CompileStarShape(p, "*", Star, q);
    StarShapeMatch(p, q, s);
  }

  /**
   * Literals, `**`, literals: the text has the prefix and the suffix, and
   * no line terminator in between; separators are allowed there.
   */
  lemma DoubleStarShapeMatch(p: string, q: string, s: string)
    ensures Matches(Lits(p) + ([One(DoubleStar)] + Lits(q)), s) <==>
      |p| + |q| <= |s| && s[..|p|] == p && s[|s| - |q|..] == q
      && NoLineTerminator(s[|p|..|s| - |q|])
  {
    AfterLits(p, DoubleStar, q, s);
    if |p| <= |s| {
      var t := s[|p|..];
      DoubleStarThenLits(q, t);
      SuffixAfterPrefix(p, q, s, t);
    }
  }

  /** The glob p**q matches s exactly when s is p, a run without a line terminator, then q. */
  lemma DoubleStarGlobMatch(p: string, q: string, s: string)
    requires Plain(p) && Plain(q)
    ensures GlobMatches(p + "**" + q, s) == Success(
      |p| + |q| <= |s| && s[..|p|] == p && s[|s| - |q|..] == q
      && NoLineTerminator(s[|p|..|s| - |q|]))
  {
    CompileStarShape(p, "**", DoubleStar, q);
    DoubleStarShapeMatch(p, q, s);
  }

  /** `}` closes the group: the current alternative is the last one. */
  lemma GroupClose(rest: string, cur: seq<Atom>, alts: seq<seq<Atom>>)
    ensures GroupOf("}" + rest, cur, alts) == Success(Parsed(alts + [cur], rest))
  {
    assert ("}" + rest)[0] == '}' && ("}" + rest)[1..] == rest;
  }

  /** `,` ends the current alternative and starts an empty one. */
  lemma GroupComma(rest: string, cur: seq<Atom>, alts: seq<seq<Atom>>)
    ensures GroupOf("," + rest, cur, alts) == GroupOf(rest, [], alts + [cur])
  {
    assert ("," + rest)[0] == ',' && ("," + rest)[1..] == rest;
  }

  /** `{` inside a group is an error, whatever follows. */
  lemma GroupOpen(rest: string, cur: seq<Atom>, alts: seq<seq<Atom>>)
    ensures GroupOf("{" + rest, cur, alts) == Failure(NestedGroup)
  {
    assert ("{" + rest)[0] == '{';
  }

  /** The text of a group of two plain alternatives, after its `{`. */
  lemma GroupOfTwo(a: string, b: string, rest: string)
    requires PlainInGroup(a) && PlainInGroup(b)
    ensures GroupOf(a + ("," + (b + ("}" + rest))), [], []) ==
      Success(Parsed([LitAtoms(a), LitAtoms(b)], rest))
  {
    var la, lb := LitAtoms(a), LitAtoms(b);
    calc {
      GroupOf(a + ("," + (b + ("}" + rest))), [], []);
      { PlainGroupText(a, "," + (b + ("}" + rest)), [], []); assert [] + la == la; }
      GroupOf("," + (b + ("}" + rest)), la, []);
      { GroupComma(b + ("}" + rest), la, []); assert [] + [la] == [la]; }
      GroupOf(b + ("}" + rest), [], [la]);
      { PlainGroupText(b, "}" + rest, [], [la]); assert [] + lb == lb; }
      GroupOf("}" + rest, lb, [la]);
      { GroupClose(rest, lb, [la]); assert [la] + [lb] == [la, lb]; }
      Success(Parsed([la, lb], rest));
    }
  }

  /** A second `{` after a plain alternative and plain text is a nested group. */
  lemma GroupOfNested(a: string, b: string, rest: string)
    requires PlainInGroup(a) && PlainInGroup(b)
    ensures GroupOf(a + ("," + (b + ("{" + rest))), [], []) == Failure(NestedGroup)
  {
    var la, lb := LitAtoms(a), LitAtoms(b);
    calc {
      GroupOf(a + ("," + (b + ("{" + rest))), [], []);
      { PlainGroupText(a, "," + (b + ("{" + rest)), [], []); assert [] + la == la; }
      GroupOf("," + (b + ("{" + rest)), la, []);
      { GroupComma(b + ("{" + rest), la, []); assert [] + [la] == [la]; }
      GroupOf(b + ("{" + rest), [], [la]);
      { PlainGroupText(b, "{" + rest, [], [la]); assert [] + lb == lb; }
      GroupOf("{" + rest, lb, [la]);
      { GroupOpen(rest, lb, [la]); }
      Failure(NestedGroup);
    }
  }

  /** A leading group of two plain alternatives compiles to that group before the rest. */
  lemma CompileGroupTwo(a: string, b: string, rest: string)
    requires PlainInGroup(a) && PlainInGroup(b)
    ensures Compile("{" + (a + ("," + (b + ("}" + rest))))) ==
      Prepend([Group([LitAtoms(a), LitAtoms(b)])], Compile(rest))
  {
    var g := "{" + (a + ("," + (b + ("}" + rest))));
    assert g[0] == '{' && g[1..] == a + ("," + (b + ("}" + rest)));
    CompileGroupFirst(g);
    GroupOfTwo(a, b, rest);
  }

  /** A leading group with a second `{` in its second alternative is a nested group. */
  lemma CompileGroupNested(a: string, b: string, rest: string)
    requires PlainInGroup(a) && PlainInGroup(b)
    ensures Compile("{" + (a + ("," + (b + ("{" + rest))))) == Failure(NestedGroup)
  {
    var g := "{" + (a + ("," + (b + ("{" + rest))));
    assert g[0] == '{' && g[1..] == a + ("," + (b + ("{" + rest)));
    CompileGroupFirst(g);
    GroupOfNested(a, b, rest);
  }

  /** A single `*` not followed by another is the atom `*`. */
  lemma StarAtom(rest: string)
    requires rest == [] || rest[0] != '*'
    ensures AtomOf("*" + rest) == Success(Parsed(Star, rest))
  {
    assert ("*" + rest)[0] == '*' && ("*" + rest)[1..] == rest;
    if rest != [] {
      assert ("*" + rest)[1] == rest[0];
    }
  }

  /** `*`, plain text and a group of two plain alternatives. */
  lemma CompileStarGroupShape(d: string, a: string, b: string)
    requires Plain(d) && PlainInGroup(a) && PlainInGroup(b)
    ensures Compile("*" + (d + ("{" + (a + ("," + (b + "}")))))) ==
      Success([One(Star)] + (Lits(d) + [Group([LitAtoms(a), LitAtoms(b)])]))
  {
    var grp := Group([LitAtoms(a), LitAtoms(b)]);
    var g := "{" + (a + ("," + (b + "}")));
    assert b + "}" == b + ("}" + "");
    CompileGroupTwo(a, b, "");
    assert Compile(g) == Success([grp]) by {
      assert Compile("") == Success([]);
      assert [grp] + [] == [grp];
    }
    PlainPrefixCompiles(d, g);
    assert Compile(d + g) == Success(Lits(d) + [grp]);
    if d != [] {
      assert d[0] !in {'\\', '[', '*', '?', '{'};
    }
    assert (d + g)[0] != '*';
    StarAtom(d + g);
    var s := "*" + (d + g);
    assert s[0] == '*';
    CompileAtomFirst(s);
  }

  /** Literal atoms alone match exactly their text. */
  lemma LitAtomsAlone(a: string, t: string)
    ensures Match(LitAtoms(a), [], t) <==> t == a
  {
    LitAtomsMatch(a, [], t);
    if |a| <= |t| && t[..|a|] == a && Match([], [], t[|a|..]) {
      assert t == t[..|a|] + t[|a|..];
    }
  }

  /** A group of two literal alternatives matches exactly those two texts. */
  lemma LitGroupMatch(a: string, b: string, t: string)
    ensures Match([], [Group([LitAtoms(a), LitAtoms(b)])], t) <==> t == a || t == b
  {
    var alts := [LitAtoms(a), LitAtoms(b)];
    GroupChoice(alts, [], t);
    assert [Group(alts)] + [] == [Group(alts)];
    LitAtomsAlone(a, t);
    LitAtomsAlone(b, t);
    assert alts[0] == LitAtoms(a) && alts[1] == LitAtoms(b);
  }

  /**
   * `*`, plain text and a group of two literal alternatives: the text ends
   * with the plain text and one alternative, with no separator before.
   */
  lemma StarGroupShapeMatch(d: string, a: string, b: string, s: string)
    ensures Matches([One(Star)] + (Lits(d) + [Group([LitAtoms(a), LitAtoms(b)])]), s) <==>
      exists j | 0 <= j <= |s| :: Separator !in s[..j] && (s[j..] == d + a || s[j..] == d + b)
  {
    var rest := Lits(d) + [Group([LitAtoms(a), LitAtoms(b)])];
    StarFirst(rest, s);
    if Match([Star], rest, s) {
      var j := StarSpanSome(rest, s);
      LitGroupRestMatch(d, a, b, s[j..]);
    }
    if exists j | 0 <= j <= |s| :: Separator !in s[..j] && (s[j..] == d + a || s[j..] == d + b) {
      var j :| 0 <= j <= |s| && Separator !in s[..j] && (s[j..] == d + a || s[j..] == d + b);
      LitGroupRestMatch(d, a, b, s[j..]);
      StarSpanFrom(rest, s, j);
    }
  }

  /** Literal text then a two-way group matches the text followed by either alternative. */
  lemma LitGroupRestMatch(d: string, a: string, b: string, t: string)
    ensures Match([], Lits(d) + [Group([LitAtoms(a), LitAtoms(b)])], t) <==> (t == d + a || t == d + b)
  {
    LitsPrefixMatch(d, [Group([LitAtoms(a), LitAtoms(b)])], t);
    if |d| <= |t| {
      LitGroupMatch(a, b, t[|d|..]);
      assert t == t[..|d|] + t[|d|..];
    }
  }

  // ---------------------------------------------------------------------
  // The test cases
  // ---------------------------------------------------------------------

  /** An inverted range is a syntax error. */
  lemma InvertedRangeExample()
    ensures Compile("[z-a]") == Failure(InvalidRange)
  {
  }

  /** A group inside a group is a syntax error. */
  lemma NestedGroupExample()
    ensures Compile("{foo,bar{baz}}") == Failure(NestedGroup)
  {
    assert "{" + ("foo" + ("," + ("bar" + ("{" + "baz}}")))) == "{foo,bar{baz}}";
    CompileGroupNested("foo", "bar", "baz}}");
  }

  /** `*` spans part of a name: `f*r` matches "foobar", `f*b` does not. */
  lemma StarExamples()
    ensures GlobMatches("f*r", "foobar") == Success(true)
    ensures GlobMatches("f*b", "foobar") == Success(false)
  {
    assert "f" + "*" + "r" == "f*r" && "f" + "*" + "b" == "f*b";
    var s := "foobar";
    assert s[..1] == "f" && s[5..] == "r" && s[1..5] == "ooba";
    StarGlobMatch("f", "r", s);
    StarGlobMatch("f", "b", s);
  }

  /** `**` crosses separators. */
  lemma DoubleStarSeparatorExample()
    ensures GlobMatches("foo/**/bax", "foo/bar/baz/bax") == Success(true)
  {
    var s := "foo/bar/baz/bax";
    FooBarBazBaxParts(s);
    assert "foo/" + "**" + "/bax" == "foo/**/bax";
    DoubleStarGlobMatch("foo/", "/bax", s);
  }

  /** The parts of "foo/bar/baz/bax" around its middle run, which has no line break. */
  lemma FooBarBazBaxParts(s: string)
    requires s == "foo/bar/baz/bax"
    ensures s[..4] == "foo/" && s[|s| - 4..] == "/bax" && NoLineTerminator(s[4..|s| - 4])
  {
    var m := s[4..|s| - 4];
    assert m == "bar/baz";
    forall c | c in m ensures !LineTerminator(c) {
      assert c in "bar/baz";
    }
  }

  /** `**` does not cross a line break: it is `.*` without DOTALL. */
  lemma DoubleStarLineBreakExample()
    ensures GlobMatches("**", "a\nb") == Success(false)
  {
    assert "" + "**" + "" == "**";
    var s := "a\nb";
    DoubleStarGlobMatch("", "", s);
    assert s[0..|s|] == s && s[1] in s && LineTerminator(s[1]);
  }

  /** `*` does not cross a separator. */
  lemma StarSeparatorExample()
    ensures GlobMatches("foo/*/bax", "foo/bar/baz/bax") == Success(false)
  {
    var s := "foo/bar/baz/bax";
    assert s[4..11][3] == Separator;
    assert Separator in s[4..|s| - 4];
    StarGlobMatch("foo/", "/bax", s);
    assert "foo/" + "*" + "/bax" == "foo/*/bax";
  }

  /** The glob `*.{java,class}` compiles to `*`, a dot and a group. */
  lemma CompileJavaClass()
    ensures Compile("*.{java,class}") ==
      Success([One(Star)] + (Lits(".") + [Group([LitAtoms("java"), LitAtoms("class")])]))
  {
    var g := "*" + ("." + ("{" + ("java" + ("," + ("class" + "}")))));
    assert g == "*.{java,class}";
    CompileStarGroupShape(".", "java", "class");
  }

  /** A group matches one of its alternatives: "foo.class" matches. */
  lemma GroupMatchExample()
    ensures GlobMatches("*.{java,class}", "foo.class") == Success(true)
  {
    var yes := "foo.class";
    assert yes[..3] == "foo" && yes[3..] == "." + "class";
    CompileJavaClass();
    StarGroupShapeMatch(".", "java", "class", yes);
  }

  /** "foo.bar" ends with neither alternative, so it does not match. */
  lemma GroupMismatchExample()
    ensures GlobMatches("*.{java,class}", "foo.bar") == Success(false)
  {
    CompileJavaClass();
    var no := "foo.bar";
    StarGroupShapeMatch(".", "java", "class", no);
    forall j | 0 <= j <= |no|
      ensures no[j..] != "." + "java" && no[j..] != "." + "class"
    {
      if j < |no| {
        assert no[j..][|no[j..]| - 1] == 'r';
      }
    }
  }

  /** The items `lo-hi]` of a class form one range. */
  lemma ClassRangeItems(lo: char, hi: char, rest: string)
    requires lo != ']' && lo != Separator && lo != '-' && hi != ']' && lo <= hi
    ensures ClassItems([lo, '-', hi, ']'] + rest, [], false, 0 as char) ==
      Success(Parsed([Range(lo, hi)], rest))
  {
    var s := [lo, '-', hi, ']'] + rest;
    var u := ['-', hi, ']'] + rest;
    var v := [']'] + rest;
    calc {
      ClassItems(s, [], false, 0 as char);
      { assert s[0] == lo && s[1..] == u; assert [] + [Single(lo)] == [Single(lo)]; }
      ClassItems(u, [Single(lo)], true, lo);
      { assert u[0] == '-' && u[1] == hi && u[2..] == v && |u| > 1;
        assert [Single(lo)][..0] + [Range(lo, hi)] == [Range(lo, hi)]; }
      ClassItems(v, [Range(lo, hi)], false, lo);
      { assert v[0] == ']' && v[1..] == rest; }
      Success(Parsed([Range(lo, hi)], rest));
    }
  }

  /** `[lo-hi]` or `[!lo-hi]`, `s` being the text after `[`. */
  lemma ClassOfRange(negated: bool, lo: char, hi: char, rest: string)
    requires lo != ']' && lo != Separator && lo != '-' && lo != '^' && lo != '!'
    requires hi != ']' && lo <= hi
    ensures ClassOf((if negated then "!" else "") + ([lo, '-', hi, ']'] + rest)) ==
      Success(Parsed(Class(negated, [Range(lo, hi)]), rest))
  {
    var body := [lo, '-', hi, ']'] + rest;
    var s := (if negated then "!" else "") + body;
    assert body[0] == lo;
    if negated {
      assert s[0] == '!' && s[1..] == body;
    } else {
      assert s == body;
    }
    ClassRangeItems(lo, hi, rest);
  }

  /** `[-]` or `[!-]`: a `-` right after the opening is a member. */
  lemma ClassOfDash(negated: bool, rest: string)
    ensures ClassOf((if negated then "!" else "") + ("-]" + rest)) ==
      Success(Parsed(Class(negated, [Single('-')]), rest))
  {
    var body := "-]" + rest;
    var s := (if negated then "!" else "") + body;
    assert body[0] == '-' && body[1..] == "]" + rest;
    if negated {
      assert s[0] == '!' && s[1..] == body;
    } else {
      assert s == body;
    }
    assert ("]" + rest)[0] == ']' && ("]" + rest)[1..] == rest;
  }

  /** A class followed by plain text compiles to the class and the literals. */
  lemma CompileClassShape(body: string, a: Atom, q: string)
    requires Plain(q) && ClassOf(body) == Success(Parsed(a, q))
    ensures Compile("[" + body) == Success([One(a)] + Lits(q))
  {
    var g := "[" + body;
    assert g[0] == '[' && g[1..] == body;
    CompileAtomFirst(g);
    PlainCompiles(q);
  }

  /** A class followed by literals matches a character and those literals iff it accepts that character. */
  lemma ClassShapeMatch(a: Atom, q: string, c: char)
    requires a.Class?
    ensures Matches([One(a)] + Lits(q), [c] + q) <==> CharMatches(a, c)
  {
    CharAtomMatch(a, Lits(q), [c] + q);
    assert ([c] + q)[0] == c && ([c] + q)[1..] == q;
    LitsMatch(q, q);
  }

  /** `[lo-hi]q` or `[!lo-hi]q` against `c` followed by `q`: whether `c` is in the range, or out of it. */
  lemma RangeGlobMatch(negated: bool, lo: char, hi: char, q: string, c: char)
    requires lo != ']' && lo != Separator && lo != '-' && lo != '^' && lo != '!'
    requires hi != ']' && lo <= hi && Plain(q)
    ensures GlobMatches("[" + ((if negated then "!" else "") + ([lo, '-', hi, ']'] + q)), [c] + q) ==
      Success(c != Separator && (lo <= c <= hi) != negated)
  {
    var a := Class(negated, [Range(lo, hi)]);
    ClassOfRange(negated, lo, hi, q);
    CompileClassShape((if negated then "!" else "") + ([lo, '-', hi, ']'] + q), a, q);
    ClassShapeMatch(a, q, c);
    assert InItems([Range(lo, hi)], c) <==> lo <= c <= hi by {
      assert [Range(lo, hi)][0] == Range(lo, hi);
    }
  }

  /** `[-]q` or `[!-]q` against `c` followed by `q`: whether `c` is the dash, or is not. */
  lemma DashGlobMatch(negated: bool, q: string, c: char)
    requires Plain(q)
    ensures GlobMatches("[" + ((if negated then "!" else "") + ("-]" + q)), [c] + q) ==
      Success(c != Separator && (c == '-') != negated)
  {
    var a := Class(negated, [Single('-')]);
    ClassOfDash(negated, q);
    CompileClassShape((if negated then "!" else "") + ("-]" + q), a, q);
    ClassShapeMatch(a, q, c);
    assert InItems([Single('-')], c) <==> c == '-' by {
      assert [Single('-')][0] == Single('-');
    }
  }

  /** `!` negates a class: `[!a-y]oo` matches "zoo". */
  lemma NegatedRangeExample()
    ensures GlobMatches("[!a-y]oo", "zoo") == Success(true)
  {
    assert "[" + ("!" + (['a', '-', 'y', ']'] + "oo")) == "[!a-y]oo";
    assert ['z'] + "oo" == "zoo";
    RangeGlobMatch(true, 'a', 'y', "oo", 'z');
  }

  /** A range: `[a-y]oo` matches "xoo". */
  lemma RangeExample()
    ensures GlobMatches("[a-y]oo", "xoo") == Success(true)
  {
    assert "[" + ("" + (['a', '-', 'y', ']'] + "oo")) == "[a-y]oo";
    assert ['x'] + "oo" == "xoo";
    RangeGlobMatch(false, 'a', 'y', "oo", 'x');
  }

  /** A lone `-` is a member: `[-]oo` matches "-oo". */
  lemma DashExample()
    ensures GlobMatches("[-]oo", "-oo") == Success(true)
  {
    assert "[" + ("" + ("-]" + "oo")) == "[-]oo";
    assert ['-'] + "oo" == "-oo";
    DashGlobMatch(false, "oo", '-');
  }

  /** A negated lone `-`: `[!-]oo` does not match "-oo". */
  lemma NegatedDashExample()
    ensures GlobMatches("[!-]oo", "-oo") == Success(false)
  {
    assert "[" + ("!" + ("-]" + "oo")) == "[!-]oo";
    assert ['-'] + "oo" == "-oo";
    DashGlobMatch(true, "oo", '-');
  }

  /** A backslash quotes the next character, whether or not it is special. */
  lemma EscapeExamples()
    ensures GlobMatches("b\\*z", "b*z") == Success(true)
    ensures GlobMatches("b\\*z", "baz") == Success(false)
    ensures GlobMatches("b\\z", "bz") == Success(true)
    ensures GlobMatches("b\\\\z", "b\\z") == Success(true)
  {
    assert "b" + ['\\', '*'] + "z" == "b\\*z" && "b" + ['*'] + "z" == "b*z";
    assert "b" + ['\\', 'z'] + "" == "b\\z" && "b" + ['z'] + "" == "bz";
    assert "b" + ['\\', '\\'] + "z" == "b\\\\z" && "b" + ['\\'] + "z" == "b\\z";
    CompileQuoted("b", '*', "z");
    CompileQuoted("b", 'z', "");
    CompileQuoted("b", '\\', "z");
    LitsMatch("b*z", "b*z");
    LitsMatch("b*z", "baz");
    LitsMatch("bz", "bz");
    LitsMatch("b\\z", "b\\z");
  }
}
