/**
 * What the glob matcher promises: `*` spans any run without a separator,
 * `**` any run without a line terminator, `?` and classes one non-separator character,
 * quoted and plain text only itself; and the syntax errors of the glob
 * tests.
 */
module GlobProperties {
  import opened Wrappers
  import opened Globs

  /** The tokens matching exactly the characters of `t`. */
  function Lits(t: string): seq<Token> {
    if t == [] then [] else [One(Lit(t[0]))] + Lits(t[1..])
  }

  /** The atoms matching exactly the characters of `t`, inside a group. */
  function LitAtoms(t: string): seq<Atom> {
    if t == [] then [] else [Lit(t[0])] + LitAtoms(t[1..])
  }

  /** `t` with every character quoted by a backslash. */
  function Escape(t: string): string {
    if t == [] then "" else ['\\', t[0]] + Escape(t[1..])
  }

  /** Text in which no character has a meaning of its own at the top level. */
  predicate Plain(t: string) {
    forall i :: 0 <= i < |t| ==> t[i] !in {'\\', '[', '*', '?', '{'}
  }

  /** Text in which no character has a meaning of its own inside a group. */
  predicate PlainInGroup(t: string) {
    forall i :: 0 <= i < |t| ==> t[i] !in {'\\', '[', '*', '?', '{', '}', ','}
  }

  /** The tokens `l` in front of a compiled rest, or the rest's error. */
  function Prepend(l: seq<Token>, r: Result<seq<Token>, GlobError>): Result<seq<Token>, GlobError> {
    match r
      case Success(ts) => Success(l + ts)
      case Failure(e) => Failure(e)
  }

  // ---------------------------------------------------------------------
  // Matching
  // ---------------------------------------------------------------------

  /** Literal tokens followed by `rest` match `s` iff `s` starts with their text and `rest` matches the remainder. */
  lemma {:induction false} LitsPrefixMatch(t: string, rest: seq<Token>, s: string)
    ensures Match([], Lits(t) + rest, s) <==>
      |t| <= |s| && s[..|t|] == t && Match([], rest, s[|t|..])
  {
    if t == [] {
      assert Lits(t) + rest == rest && s[..0] == [] && s[0..] == s;
    } else {
      assert Lits(t) + rest == [One(Lit(t[0]))] + (Lits(t[1..]) + rest);
      CharAtomMatch(Lit(t[0]), Lits(t[1..]) + rest, s);
      if s != [] {
        LitsPrefixMatch(t[1..], rest, s[1..]);
        if |t| <= |s| {
          PrefixStep(t, s);
        }
      }
    }
  }

  /** Comparing a non-empty prefix is comparing the first character and then the rest. */
  lemma PrefixStep(t: string, s: string)
    requires 0 < |t| <= |s|
    ensures s[..|t|] == t <==> s[0] == t[0] && s[1..][..|t| - 1] == t[1..]
    ensures s[1..][|t| - 1..] == s[|t|..]
  {
    assert s[..|t|] == [s[0]] + s[1..][..|t| - 1];
    assert t == [t[0]] + t[1..];
  }

  /** Literal tokens match their own text and nothing else. */
  lemma LitsMatch(t: string, s: string)
    ensures Matches(Lits(t), s) <==> s == t
  {
    LitsPrefixMatch(t, [], s);
    assert Lits(t) + [] == Lits(t);
    if |t| <= |s| {
      assert Match([], [], s[|t|..]) <==> |s| == |t|;
      assert |s| == |t| ==> s[..|t|] == s;
    }
  }

  /** Literal atoms of a group alternative followed by `rest` match like literal tokens. */
  lemma {:induction false} LitAtomsMatch(t: string, rest: seq<Token>, s: string)
    ensures Match(LitAtoms(t), rest, s) <==>
      |t| <= |s| && s[..|t|] == t && Match([], rest, s[|t|..])
  {
    if t == [] {
      assert s[..0] == [] && s[0..] == s;
    } else {
      var l := LitAtoms(t);
      assert l[0] == Lit(t[0]) && l[1..] == LitAtoms(t[1..]);
      if s != [] {
        LitAtomsMatch(t[1..], rest, s[1..]);
        if |t| <= |s| {
          assert s[1..][|t| - 1..] == s[|t|..];
          assert s[..|t|] == [s[0]] + s[1..][..|t| - 1];
          assert t == [t[0]] + t[1..];
        }
      }
    }
  }

  /** A one-character atom followed by `rest` consumes exactly one accepted character. */
  lemma CharAtomMatch(a: Atom, rest: seq<Token>, s: string)
    requires a.Lit? || a.AnyChar? || a.Class?
    ensures Match([], [One(a)] + rest, s) <==>
      s != [] && CharMatches(a, s[0]) && Match([], rest, s[1..])
  {
    assert ([One(a)] + rest)[0] == One(a) && ([One(a)] + rest)[1..] == rest;
    assert [a][1..] == [];
  }

  /** A pattern starting with `*` is the pending `*` before the remaining tokens. */
  lemma StarFirst(rest: seq<Token>, s: string)
    ensures Match([], [One(Star)] + rest, s) == Match([Star], rest, s)
  {
    assert ([One(Star)] + rest)[0] == One(Star) && ([One(Star)] + rest)[1..] == rest;
  }

  /** A pattern starting with `**` is the pending `**` before the remaining tokens. */
  lemma DoubleStarFirst(rest: seq<Token>, s: string)
    ensures Match([], [One(DoubleStar)] + rest, s) == Match([DoubleStar], rest, s)
  {
    assert ([One(DoubleStar)] + rest)[0] == One(DoubleStar);
    assert ([One(DoubleStar)] + rest)[1..] == rest;
  }

  /** `*` followed by `rest` matches iff some separator-free prefix is followed by a match of `rest`. */
  lemma StarSpan(rest: seq<Token>, s: string)
    ensures Match([Star], rest, s) <==>
      exists j | 0 <= j <= |s| :: Separator !in s[..j] && Match([], rest, s[j..])
  {
    if Match([Star], rest, s) {
      var j := StarSpanSome(rest, s);
    }
    if exists j | 0 <= j <= |s| :: Separator !in s[..j] && Match([], rest, s[j..]) {
      var j :| 0 <= j <= |s| && Separator !in s[..j] && Match([], rest, s[j..]);
      StarSpanFrom(rest, s, j);
    }
  }

  /** A match of `*` before `rest` skips a separator-free prefix of length `j`. */
  lemma {:induction false} StarSpanSome(rest: seq<Token>, s: string) returns (j: nat)
    requires Match([Star], rest, s)
    ensures j <= |s| && Separator !in s[..j] && Match([], rest, s[j..])
    decreases |s|
  {
    assert [Star][1..] == [];
    if Match([], rest, s) {
      j := 0;
      assert s[0..] == s;
    } else {
      var k := StarSpanSome(rest, s[1..]);
      j := k + 1;
      assert s[..j] == [s[0]] + s[1..][..k];
      assert s[j..] == s[1..][k..];
    }
  }

  /** `*` can skip any separator-free prefix before a match of `rest`. */
  lemma {:induction false} StarSpanFrom(rest: seq<Token>, s: string, j: nat)
    requires j <= |s| && Separator !in s[..j] && Match([], rest, s[j..])
    ensures Match([Star], rest, s)
    decreases j
  {
    assert [Star][1..] == [];
    if j == 0 {
      assert s[0..] == s;
    } else {
      assert s[..j] == [s[0]] + s[1..][..j - 1];
      assert s[1..][j - 1..] == s[j..];
      StarSpanFrom(rest, s[1..], j - 1);
    }
  }

  /** `**` followed by `rest` matches iff a suffix of `s` after a run without line terminators matches `rest`. */
  lemma DoubleStarSpan(rest: seq<Token>, s: string)
    ensures Match([DoubleStar], rest, s) <==>
      exists j | 0 <= j <= |s| :: NoLineTerminator(s[..j]) && Match([], rest, s[j..])
  {
    if Match([DoubleStar], rest, s) {
      var j := DoubleStarSpanSome(rest, s);
    }
    if exists j | 0 <= j <= |s| :: NoLineTerminator(s[..j]) && Match([], rest, s[j..]) {
      var j :| 0 <= j <= |s| && NoLineTerminator(s[..j]) && Match([], rest, s[j..]);
      DoubleStarSpanFrom(rest, s, j);
    }
  }

  /** A match of `**` before `rest` skips a prefix of length `j` without line terminators. */
  lemma {:induction false} DoubleStarSpanSome(rest: seq<Token>, s: string) returns (j: nat)
    requires Match([DoubleStar], rest, s)
    ensures j <= |s| && NoLineTerminator(s[..j]) && Match([], rest, s[j..])
    decreases |s|
  {
    assert [DoubleStar][1..] == [];
    if Match([], rest, s) {
      j := 0;
      assert s[0..] == s;
    } else {
      var k := DoubleStarSpanSome(rest, s[1..]);
      j := k + 1;
      assert s[..j] == [s[0]] + s[1..][..k];
      assert s[j..] == s[1..][k..];
    }
  }

  /** `**` can skip any prefix without line terminators before a match of `rest`. */
  lemma {:induction false} DoubleStarSpanFrom(rest: seq<Token>, s: string, j: nat)
    requires j <= |s| && NoLineTerminator(s[..j]) && Match([], rest, s[j..])
    ensures Match([DoubleStar], rest, s)
    decreases j
  {
    assert [DoubleStar][1..] == [];
    if j == 0 {
      assert s[0..] == s;
    } else {
      assert s[..j] == [s[0]] + s[1..][..j - 1];
      assert s[1..][j - 1..] == s[j..];
      DoubleStarSpanFrom(rest, s[1..], j - 1);
    }
  }


  /** A lone `*` matches exactly the texts without a separator, the empty one included. */
  lemma StarAlone(s: string)
    ensures Matches([One(Star)], s) <==> Separator !in s
  {
    assert [One(Star)][1..] == [];
    assert Matches([One(Star)], s) == Match([Star], [], s);
    StarSpan([], s);
    if Separator !in s {
      assert s[..|s|] == s && s[|s|..] == [];
    }
    if exists j | 0 <= j <= |s| :: Separator !in s[..j] && Match([], [], s[j..]) {
      var j :| 0 <= j <= |s| && Separator !in s[..j] && Match([], [], s[j..]);
      assert j == |s| && s[..j] == s;
    }
  }

  /** A lone `**` matches exactly the texts without a line terminator, separators included. */
  lemma DoubleStarAlone(s: string)
    ensures Matches([One(DoubleStar)], s) <==> NoLineTerminator(s)
  {
    assert [One(DoubleStar)][1..] == [];
    assert Matches([One(DoubleStar)], s) == Match([DoubleStar], [], s);
    DoubleStarSpan([], s);
    if NoLineTerminator(s) {
      assert s[..|s|] == s && s[|s|..] == [];
    }
    if exists j | 0 <= j <= |s| :: NoLineTerminator(s[..j]) && Match([], [], s[j..]) {
      var j :| 0 <= j <= |s| && NoLineTerminator(s[..j]) && Match([], [], s[j..]);
      assert j == |s| && s[..j] == s;
    }
  }

  /** A lone `?` matches exactly one character other than the separator. */
  lemma AnyCharAlone(s: string)
    ensures Matches([One(AnyChar)], s) <==> |s| == 1 && s[0] != Separator
  {
    assert [One(AnyChar)][1..] == [];
    assert [AnyChar][1..] == [];
    assert Matches([One(AnyChar)], s) == Match([AnyChar], [], s);
    if s != [] {
      assert Match([AnyChar], [], s) == (s[0] != Separator && Match([], [], s[1..]));
      assert Match([], [], s[1..]) == (|s| == 1);
    }
  }

  /** No class, negated or not, matches a separator. */
  lemma ClassRejectsSeparator(negated: bool, items: seq<ClassItem>, rest: seq<Token>, s: string)
    requires s != [] && s[0] == Separator
    ensures !Match([Class(negated, items)], rest, s)
  {
  }

  /** A group followed by `rest` matches iff one of its alternatives followed by `rest` does. */
  lemma GroupChoice(alts: seq<seq<Atom>>, rest: seq<Token>, s: string)
    ensures Match([], [Group(alts)] + rest, s) <==>
      exists i | 0 <= i < |alts| :: Match(alts[i], rest, s)
  {
    assert ([Group(alts)] + rest)[1..] == rest;
  }

  // ---------------------------------------------------------------------
  // Compiling
  // ---------------------------------------------------------------------

  /** Quoting every character compiles to the literal tokens of the text. */
  lemma {:induction false} EscapeCompiles(t: string)
    ensures Compile(Escape(t)) == Success(Lits(t))
  {
    if t != [] {
      var e := Escape(t);
      assert e[0] == '\\' && e[1] == t[0] && e[2..] == Escape(t[1..]);
      assert AtomOf(e) == Success(Parsed(Lit(t[0]), Escape(t[1..])));
      EscapeCompiles(t[1..]);
    }
  }

  /** A quoted glob matches exactly its own text. */
  lemma EscapeMatches(t: string, s: string)
    ensures GlobMatches(Escape(t), s) == Success(s == t)
  {
    EscapeCompiles(t);
    LitsMatch(t, s);
  }

  /** The first character of plain text is plain, and so is the rest. */
  lemma PlainFirst(t: string)
    requires Plain(t) && t != []
    ensures t[0] !in {'\\', '[', '*', '?', '{'} && Plain(t[1..])
  {
    forall i | 0 <= i < |t| - 1 ensures t[1..][i] !in {'\\', '[', '*', '?', '{'} {
      assert t[1..][i] == t[i + 1];
    }
  }

  /** A glob starting with a character of no special meaning compiles to its literal, then the rest. */
  lemma CompileLitFirst(s: string)
    requires s != [] && s[0] !in {'\\', '[', '*', '?', '{'}
    ensures Compile(s) == Prepend([One(Lit(s[0]))], Compile(s[1..]))
  {
  }

  /** A plain prefix compiles to its literal tokens in front of whatever follows. */
  lemma {:induction false} PlainPrefixCompiles(t: string, rest: string)
    requires Plain(t)
    ensures Compile(t + rest) == Prepend(Lits(t), Compile(rest))
  {
    if t == [] {
      assert t + rest == rest;
      match Compile(rest)
        case Success(ts) => assert [] + ts == ts;
        case Failure(e) =>
    } else {
      var s := t + rest;
      assert s[0] == t[0] && s[1..] == t[1..] + rest;
      PlainFirst(t);
      CompileLitFirst(s);
      PlainPrefixCompiles(t[1..], rest);
      match Compile(rest)
        case Success(ts) =>
          assert Lits(t) + ts == [One(Lit(t[0]))] + (Lits(t[1..]) + ts);
        case Failure(e) =>
    }
  }

  /** Plain text compiles to its literal tokens. */
  lemma PlainCompiles(t: string)
    requires Plain(t)
    ensures Compile(t) == Success(Lits(t))
  {
    PlainPrefixCompiles(t, "");
    assert t + "" == t && Lits(t) + [] == Lits(t);
  }

  /** Inside a group, plain text adds its literal atoms to the current alternative. */
  lemma {:induction false} PlainGroupText(t: string, rest: string, cur: seq<Atom>, alts: seq<seq<Atom>>)
    requires PlainInGroup(t)
    ensures GroupOf(t + rest, cur, alts) == GroupOf(rest, cur + LitAtoms(t), alts)
  {
    if t == [] {
      assert t + rest == rest && cur + [] == cur;
    } else {
      var s := t + rest;
      assert s[0] == t[0] && s[1..] == t[1..] + rest;
      assert t[0] !in {'\\', '[', '*', '?', '{', '}', ','};
      assert PlainInGroup(t[1..]) by {
        forall i | 0 <= i < |t| - 1 ensures t[1..][i] !in {'\\', '[', '*', '?', '{', '}', ','} {
          assert t[1..][i] == t[i + 1];
        }
      }
      PlainGroupText(t[1..], rest, cur + [Lit(t[0])], alts);
      assert cur + [Lit(t[0])] + LitAtoms(t[1..]) == cur + LitAtoms(t);
    }
  }

  /** A glob starting with an atom compiles to that atom in front of the rest. */
  lemma CompileAtomFirst(s: string)
    requires s != [] && s[0] != '{' && s[0] != '}' && s[0] != ','
    ensures Compile(s) == match AtomOf(s)
      case Failure(e) => Failure(e)
      case Success(Parsed(a, rest)) => Prepend([One(a)], Compile(rest))
  {
  }

  /** A glob starting with `{` compiles to the group in front of the rest. */
  lemma CompileGroupFirst(s: string)
    requires s != [] && s[0] == '{'
    ensures Compile(s) == match GroupOf(s[1..], [], [])
      case Failure(e) => Failure(e)
      case Success(Parsed(alts, rest)) => Prepend([Group(alts)], Compile(rest))
  {
  }

  // ---------------------------------------------------------------------
  // Compiling a glob that follows a well-formed one
  // ---------------------------------------------------------------------

  /** A class closed within `s` reads the same items when more text follows. */
  lemma {:induction false} ClassItemsConcat(s: string, t: string, items: seq<ClassItem>, start: bool, last: char)
    requires start ==> items != []
    requires ClassItems(s, items, start, last).Success?
    ensures ClassItems(s + t, items, start, last) ==
      Success(Parsed(ClassItems(s, items, start, last).value.value, ClassItems(s, items, start, last).value.rest + t))
    decreases |s|
  {
    var u := s + t;
    assert u[0] == s[0] && u[1..] == s[1..] + t;
    if s[0] == '-' {
      assert u[1] == s[1] && u[2..] == s[2..] + t;
      if s[1] != ']' {
        ClassItemsConcat(s[2..], t, items[..|items| - 1] + [Range(last, s[1])], false, last);
      }
    } else if s[0] != ']' {
      ClassItemsConcat(s[1..], t, items + [Single(s[0])], true, s[0]);
    }
  }

  /** A class closed within `s` is read the same when more text follows. */
  lemma ClassOfConcat(s: string, t: string)
    requires ClassOf(s).Success?
    ensures ClassOf(s + t) == Success(Parsed(ClassOf(s).value.value, ClassOf(s).value.rest + t))
  {
    var u := s + t;
    assert s != [] && u[0] == s[0] && u[1..] == s[1..] + t;
    if s[0] == '^' {
      ClassItemsConcat(s[1..], t, [Single('^')], false, 0 as char);
    } else if s[0] == '!' {
      assert s[1..] != [];
      assert u[1] == s[1] && u[1..][1..] == s[1..][1..] + t;
      if s[1] == '-' {
        ClassItemsConcat(s[1..][1..], t, [Single('-')], false, 0 as char);
      } else {
        ClassItemsConcat(s[1..], t, [], false, 0 as char);
      }
    } else if s[0] == '-' {
      ClassItemsConcat(s[1..], t, [Single('-')], false, 0 as char);
    } else {
      ClassItemsConcat(s, t, [], false, 0 as char);
    }
  }

  /** An atom is read the same when more text follows, unless a lone `*` would become `**`. */
  lemma AtomOfConcat(s: string, t: string)
    requires s != [] && AtomOf(s).Success?
    requires s[0] != '*' || |s| > 1 || t == [] || t[0] != '*'
    ensures AtomOf(s + t) == Success(Parsed(AtomOf(s).value.value, AtomOf(s).value.rest + t))
  {
    var u := s + t;
    assert u[0] == s[0] && u[1..] == s[1..] + t;
    if |s| > 1 {
      assert u[1] == s[1] && u[2..] == s[2..] + t;
    }
    if s[0] == '[' {
      ClassOfConcat(s[1..], t);
    }
  }

  /** A group closed within `s` is read the same when more text follows. */
  lemma {:induction false} GroupOfConcat(s: string, t: string, cur: seq<Atom>, alts: seq<seq<Atom>>)
    requires GroupOf(s, cur, alts).Success?
    ensures GroupOf(s + t, cur, alts) ==
      Success(Parsed(GroupOf(s, cur, alts).value.value, GroupOf(s, cur, alts).value.rest + t))
    decreases |s|
  {
    var u := s + t;
    assert u[0] == s[0] && u[1..] == s[1..] + t;
    if s[0] == ',' {
      GroupOfConcat(s[1..], t, [], alts + [cur]);
    } else if s[0] != '}' {
      var a := AtomOf(s).value;
      assert GroupOf(a.rest, cur + [a.value], alts).Success?;
      AtomOfConcat(s, t);
      GroupOfConcat(a.rest, t, cur + [a.value], alts);
    }
  }

  /** The first token of a glob that compiles is read the same when more text follows. */
  lemma HeadConcat(p: string, t: string) returns (tok: Token, r: string)
    requires p != [] && Compile(p).Success?
    requires t == [] || t[0] != '*'
    ensures |r| < |p| && Compile(p) == Prepend([tok], Compile(r))
    ensures Compile(p + t) == Prepend([tok], Compile(r + t))
  {
    var u := p + t;
    assert u[0] == p[0] && u[1..] == p[1..] + t;
    if p[0] == '{' {
      var g := GroupOf(p[1..], [], []).value;
      GroupOfConcat(p[1..], t, [], []);
      tok, r := Group(g.value), g.rest;
    } else if p[0] == '}' || p[0] == ',' {
      tok, r := One(Lit(p[0])), p[1..];
    } else {
      var a := AtomOf(p).value;
      AtomOfConcat(p, t);
      tok, r := One(a.value), a.rest;
    }
  }

  /**
   * Compiling is left to right: after a glob that compiles, the rest
   * compiles as it would alone and its tokens follow, or its error is the
   * whole glob's error.  (A lone trailing `*` before a `*` would become
   * `**`, hence the condition on `t`.)
   */
  lemma {:induction false} CompileConcat(p: string, t: string)
    requires Compile(p).Success?
    requires t == [] || t[0] != '*'
    ensures Compile(p + t) == Prepend(Compile(p).value, Compile(t))
    decreases |p|
  {
    if p == [] {
      assert p + t == t;
      match Compile(t)
        case Success(ts) => assert [] + ts == ts;
        case Failure(e) =>
    } else {
      var tok, r := HeadConcat(p, t);
      CompileConcat(r, t);
      match Compile(t)
        case Success(ts) =>
          assert [tok] + (Compile(r).value + ts) == ([tok] + Compile(r).value) + ts;
        case Failure(e) =>
    }
  }

  // ---------------------------------------------------------------------
  // Syntax errors
  // ---------------------------------------------------------------------

  /** Text that stays inside a group without closing it: alternatives of literals, `*` and `?`. */
  predicate OpenGroupText(q: string) {
    forall i :: 0 <= i < |q| ==> q[i] !in {'\\', '[', '{', '}'}
  }

  /** Text that stays inside a class without closing it or forming a range. */
  predicate OpenClassText(q: string) {
    forall i :: 0 <= i < |q| ==> q[i] !in {']', Separator, '-'}
  }

  /** Inside a group, open text runs into the end (no `}`) or into a nested `{`. */
  lemma {:induction false} GroupRunsOut(q: string, t: string, cur: seq<Atom>, alts: seq<seq<Atom>>)
    requires OpenGroupText(q) && (t == [] || t[0] == '{')
    ensures GroupOf(q + t, cur, alts) == Failure(if t == [] then MissingBrace else NestedGroup)
    decreases |q|
  {
    if q == [] {
      assert q + t == t;
    } else {
      var u := q + t;
      assert u[0] == q[0] && u[1..] == q[1..] + t;
      assert q[0] !in {'\\', '[', '{', '}'};
      if q[0] == ',' {
        GroupRunsOut(q[1..], t, [], alts + [cur]);
      } else if q[0] == '*' && |q| > 1 && q[1] == '*' {
        assert u[1] == '*' && u[2..] == q[2..] + t;
        GroupRunsOut(q[2..], t, cur + [DoubleStar], alts);
      } else {
        assert q[0] == '*' ==> u[1..] == [] || u[1] != '*';
        GroupRunsOut(q[1..], t, cur + [AtomOf(u).value.value], alts);
      }
    }
  }

  /** Inside a class, open text runs into the end (no `]`) or into a separator. */
  lemma {:induction false} ClassRunsOut(q: string, t: string, items: seq<ClassItem>, start: bool, last: char)
    requires start ==> items != []
    requires OpenClassText(q) && (t == [] || t[0] == Separator)
    ensures ClassItems(q + t, items, start, last) == Failure(if t == [] then MissingBracket else ExplicitSeparator)
    decreases |q|
  {
    if q == [] {
      assert q + t == t;
    } else {
      var u := q + t;
      assert u[0] == q[0] && u[1..] == q[1..] + t;
      assert q[0] !in {']', Separator, '-'};
      ClassRunsOut(q[1..], t, items + [Single(q[0])], true, q[0]);
    }
  }

  /** The class text `q + t` of a `[` that is never closed, or that meets a separator. */
  lemma ClassOfRunsOut(q: string, t: string)
    requires OpenClassText(q) && (t == [] || t[0] == Separator)
    ensures ClassOf(q + t) == Failure(if t == [] then MissingBracket else ExplicitSeparator)
  {
    var s := q + t;
    if q == [] {
      assert s == t;
      ClassRunsOut([], t, [], false, 0 as char);
    } else {
      assert s[0] == q[0] && s[1..] == q[1..] + t;
      assert q[0] !in {']', Separator, '-'};
      if q[0] == '^' {
        ClassRunsOut(q[1..], t, [Single('^')], false, 0 as char);
      } else if q[0] == '!' {
        assert q[1..] != [] ==> q[1..][0] == q[1] && q[1] != '-';
        ClassRunsOut(q[1..], t, [], false, 0 as char);
      } else {
        ClassRunsOut(q, t, [], false, 0 as char);
      }
    }
  }

  /** A `\` at the end quotes nothing: after any glob that compiles it is refused. */
  lemma TrailingBackslash(p: string)
    requires Compile(p).Success?
    ensures Compile(p + "\\") == Failure(NoEscapedChar)
  {
    CompileConcat(p, "\\");
  }

  /** A range that runs backwards is refused wherever it stands. */
  lemma InvertedRange(p: string, lo: char, hi: char, r: string)
    requires Compile(p).Success?
    requires lo !in {'!', '^', '-', ']', Separator} && hi != ']' && hi < lo
    ensures Compile(p + ['[', lo, '-', hi] + r) == Failure(InvalidRange)
  {
    var c := ['[', lo, '-', hi] + r;
    assert p + ['[', lo, '-', hi] + r == p + c;
    CompileConcat(p, c);
    var v := c[1..];
    assert v[0] == lo && v[1..][0] == '-' && v[1..][1] == hi && |v[1..]| > 1;
    assert ClassItems(v, [], false, 0 as char) == ClassItems(v[1..], [Single(lo)], true, lo);
    assert ClassOf(v) == Failure(InvalidRange);
  }

  /** A `{` inside a group is refused, after any glob that compiles. */
  lemma NestedGroupRefused(p: string, q: string, r: string)
    requires Compile(p).Success? && OpenGroupText(q)
    ensures Compile(p + "{" + q + "{" + r) == Failure(NestedGroup)
  {
    var c := "{" + q + "{" + r;
    assert p + "{" + q + "{" + r == p + c;
    CompileConcat(p, c);
    assert c[1..] == q + ("{" + r);
    GroupRunsOut(q, "{" + r, [], []);
  }

  /** A group that is never closed is refused, after any glob that compiles. */
  lemma UnclosedGroup(p: string, q: string)
    requires Compile(p).Success? && OpenGroupText(q)
    ensures Compile(p + "{" + q) == Failure(MissingBrace)
  {
    assert p + "{" + q == p + ("{" + q);
    CompileConcat(p, "{" + q);
    assert ("{" + q)[1..] == q + "";
    GroupRunsOut(q, "", [], []);
  }

  /** A class that is never closed is refused, after any glob that compiles. */
  lemma UnclosedClass(p: string, q: string)
    requires Compile(p).Success? && OpenClassText(q)
    ensures Compile(p + "[" + q) == Failure(MissingBracket)
  {
    assert p + "[" + q == p + ("[" + q);
    CompileConcat(p, "[" + q);
    assert ("[" + q)[1..] == q + "";
    ClassOfRunsOut(q, "");
  }

  /** A separator inside a class is refused, after any glob that compiles. */
  lemma SeparatorInClass(p: string, q: string, r: string)
    requires Compile(p).Success? && OpenClassText(q)
    ensures Compile(p + "[" + q + "/" + r) == Failure(ExplicitSeparator)
  {
    var c := "[" + q + "/" + r;
    assert p + "[" + q + "/" + r == p + c;
    CompileConcat(p, c);
    assert c[1..] == q + ("/" + r);
    ClassOfRunsOut(q, "/" + r);
  }

  /** Matching is anchored: a plain glob matches its own text and nothing else. */
  lemma PlainMatches(t: string, s: string)
    requires Plain(t)
    ensures GlobMatches(t, s) == Success(s == t)
  {
    PlainCompiles(t);
    LitsMatch(t, s);
  }
}
