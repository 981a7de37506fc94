/**
 * Properties of the path algebra: the parse/print round trip, how joining
 * sanitizes, how names, subpaths, parents and file names fit back together,
 * and that relativize is undone by resolve on normalized paths.
 */
module UnixPathProperties {
  import opened Wrappers
  import opened UnixPaths

  // ---------------------------------------------------------------------
  // Parsing
  // ---------------------------------------------------------------------

  /** A separator right after `a` ends the name at the head of `a`. */
  lemma {:induction false} NameLengthConcat(a: string, t: string)
    requires t == [] || t[0] == Separator
    ensures NameLength(a + t) == NameLength(a)
  {
    if a == [] {
    } else if a[0] == Separator {
    } else {
      assert (a + t)[1..] == a[1..] + t;
      NameLengthConcat(a[1..], t);
    }
  }

  /** Splitting at a separator splits the names. */
  lemma {:induction false} SegmentsConcat(a: string, b: string)
    ensures Segments(a + [Separator] + b) == Segments(a) + Segments(b)
    decreases |a|
  {
    var s := a + [Separator] + b;
    if a == [] {
      assert s[1..] == b;
    } else if a[0] == Separator {
      assert s[1..] == a[1..] + [Separator] + b;
      SegmentsConcat(a[1..], b);
    } else {
      assert s == a + ([Separator] + b);
      SegmentsNameFirst(a, [Separator] + b);
      assert a[NameLength(a)..] + ([Separator] + b) == a[NameLength(a)..] + [Separator] + b;
      SegmentsConcat(a[NameLength(a)..], b);
    }
  }

  /** The first name of `a` stays the first name of `a + t` when `t` starts at a separator. */
  lemma SegmentsNameFirst(a: string, t: string)
    requires a != [] && a[0] != Separator
    requires t == [] || t[0] == Separator
    ensures Segments(a + t) == [a[..NameLength(a)]] + Segments(a[NameLength(a)..] + t)
  {
    var k := NameLength(a);
    NameLengthConcat(a, t);
    assert (a + t)[..k] == a[..k];
    assert (a + t)[k..] == a[k..] + t;
  }

  /** A proper name parses to itself. */
  lemma SegmentsOfName(n: string)
    requires IsName(n)
    ensures Segments(n) == [n]
  {
    var k := NameLength(n);
    assert k == |n|;
    assert n[..k] == n && n[k..] == [];
  }

  /** The names, joined with separators, split back into the same names. */
  lemma {:induction false} SegmentsJoin(ns: seq<string>)
    requires AllNames(ns)
    ensures Segments(JoinText(ns)) == ns
  {
    if ns == [] {
    } else if |ns| == 1 {
      SegmentsOfName(ns[0]);
    } else {
      SegmentsConcat(ns[0], JoinText(ns[1..]));
      SegmentsOfName(ns[0]);
      SegmentsJoin(ns[1..]);
    }
  }

  /** The joined text starts with the first name. */
  lemma {:induction false} JoinTextStart(ns: seq<string>)
    requires ns != []
    ensures |JoinText(ns)| >= |ns[0]| && JoinText(ns)[..|ns[0]|] == ns[0]
  {
    if |ns| > 1 {
      assert JoinText(ns) == ns[0] + ([Separator] + JoinText(ns[1..]));
    }
  }

  /** Parsing the text of a path gives the path back. */
  lemma ParseToString(p: Path)
    requires Valid(p)
    ensures Parse(ToString(p)) == p
  {
    var s := ToString(p);
    if p == Empty {
      assert s == "";
    } else if p.absolute {
      assert s == [Separator] + JoinText(p.names);
      assert s[1..] == JoinText(p.names);
      SegmentsJoin(p.names);
    } else {
      SegmentsJoin(p.names);
      JoinTextStart(p.names);
      assert s == JoinText(p.names) && |s| > 0;
      assert s[0] == p.names[0][0] && p.names[0][0] in p.names[0];
      assert Segments(s) == p.names != [];
    }
  }

  /** Printing and parsing again changes nothing. */
  lemma ParseIdempotent(s: string)
    ensures Parse(ToString(Parse(s))) == Parse(s)
  {
    ParseToString(Parse(s));
  }

  /** Two valid paths with the same text are the same path. */
  lemma ToStringInjective(p: Path, q: Path)
    requires Valid(p) && Valid(q) && ToString(p) == ToString(q)
    ensures p == q
  {
    ParseToString(p);
    ParseToString(q);
  }

  /** Concrete parse: a valid path's text parses to it. */
  lemma ParseOf(s: string, p: Path)
    requires Valid(p) && ToString(p) == s
    ensures Parse(s) == p
  {
    ParseToString(p);
  }

  // ---------------------------------------------------------------------
  // Joining several strings
  // ---------------------------------------------------------------------

  /** Sanitizing the joined text yields the names of every part, in order. */
  lemma {:induction false} JoinFromSegments(acc: string, more: seq<string>)
    ensures Segments(JoinFrom(acc, more)) == Segments(acc) + SegmentsOfAll(more)
    decreases |more|
  {
    if more != [] {
      var next :=
        if more[0] == "" then acc
        else if acc == "" then more[0]
        else acc + [Separator] + more[0];
      if more[0] != "" && acc != "" {
        SegmentsConcat(acc, more[0]);
      }
      JoinFromSegments(next, more[1..]);
    }
  }

  /** Joining never drops or changes the text accumulated so far. */
  lemma {:induction false} JoinFromPrefix(acc: string, more: seq<string>)
    requires acc != []
    ensures |JoinFrom(acc, more)| >= |acc| && JoinFrom(acc, more)[..|acc|] == acc
    decreases |more|
  {
    if more != [] {
      var next := if more[0] == "" then acc else acc + [Separator] + more[0];
      assert next[..|acc|] == acc;
      JoinFromPrefix(next, more[1..]);
    }
  }

  /**
   * Paths.get(first, more...) has the names of all parts in order, and a
   * non-empty first part alone decides absoluteness.
   */
  lemma GetSanitizes(first: string, more: seq<string>)
    ensures Get(first, more).names ==
      (var ns := Segments(first) + SegmentsOfAll(more);
       if Get(first, more).absolute || ns != [] then ns else [""])
    ensures first != "" ==> (Get(first, more).absolute <==> first[0] == Separator)
  {
    JoinFromSegments(first, more);
    if first != "" {
      JoinFromPrefix(first, more);
      assert JoinFrom(first, more)[0] == JoinFrom(first, more)[..|first|][0];
    }
  }

  /** A leading separator contributes no name. */
  lemma SegmentsSkip(s: string)
    ensures Segments([Separator] + s) == Segments(s)
  {
    assert ([Separator] + s)[1..] == s;
  }

  /** A proper name after one separator parses to that name alone. */
  lemma SegmentsOfRooted(n: string)
    requires IsName(n)
    ensures Segments([Separator] + n) == [n]
  {
    SegmentsSkip(n);
    SegmentsOfName(n);
  }

  /** Examples of testSanitize: empty parts vanish, "/" parts give the root. */
  lemma SanitizeEmptyParts()
    ensures Get("", [""]) == Empty
    ensures Get("/", [""]) == Root
    ensures Get("", ["/"]) == Root
    ensures Get("/", ["/"]) == Root
  {
    SegmentsSkip("");
    GetSanitizes("", [""]);
    GetSanitizes("/", [""]);
    GetSanitizes("", ["/"]);
    GetSanitizes("/", ["/"]);
  }

  /** Example of testSanitize: a run of separators inside a part collapses. */
  lemma SanitizeRun()
    ensures Get("/", ["////c"]) == Path(true, ["c"])
  {
    GetSanitizes("/", ["////c"]);
    SegmentsOfName("c");
    assert Segments("/c") == ["c"] by { SegmentsSkip("c"); assert "/c" == [Separator] + "c"; }
    assert Segments("//c") == ["c"] by { SegmentsSkip("/c"); assert "//c" == [Separator] + "/c"; }
    assert Segments("///c") == ["c"] by { SegmentsSkip("//c"); assert "///c" == [Separator] + "//c"; }
    assert Segments("////c") == ["c"] by { SegmentsSkip("///c"); assert "////c" == [Separator] + "///c"; }
    assert SegmentsOfAll(["////c"]) == ["c"];
    assert Segments("/") == [];
  }

  /** Example of testSanitize: separators alone are the root. */
  lemma SanitizeSeparators()
    ensures Parse("//////") == Root
  {
    SegmentsOfSeparators("//////");
  }

  /** A string of separators only has no names. */
  lemma {:induction false} SegmentsOfSeparators(s: string)
    requires forall i :: 0 <= i < |s| ==> s[i] == Separator
    ensures Segments(s) == []
    decreases |s|
  {
    if s != [] {
      SegmentsOfSeparators(s[1..]);
    }
  }

  /** Example of testSanitize: a trailing and a leading separator meet. */
  lemma SanitizeTrailing()
    ensures Get("/foo/", ["/bar"]) == Path(true, ["foo", "bar"])
  {
    assert "/foo/" == [Separator] + "foo" + [Separator];
    assert "/bar" == [Separator] + "bar";
    GetTrailingLeading("foo", "bar");
  }

  /** A trailing separator of one part and the leading one of the next give one separator. */
  lemma GetTrailingLeading(n: string, m: string)
    requires IsName(n) && IsName(m)
    ensures Get([Separator] + n + [Separator], [[Separator] + m]) == Path(true, [n, m])
  {
    var first := [Separator] + n + [Separator];
    SegmentsOfRooted(n);
    SegmentsOfRooted(m);
    assert first == ([Separator] + n) + [Separator] + "";
    SegmentsConcat([Separator] + n, "");
    assert SegmentsOfAll([[Separator] + m]) == [m];
    GetSanitizes(first, [[Separator] + m]);
  }

  /** Example of testSanitize: parts without separators are joined by one. */
  lemma SanitizeParts()
    ensures Get("a", ["b", "c"]) == Path(false, ["a", "b", "c"])
  {
    GetSanitizes("a", ["b", "c"]);
    SegmentsOfName("a");
    SegmentsOfName("b");
    SegmentsOfName("c");
    assert SegmentsOfAll(["b", "c"]) == ["b", "c"];
  }

  /** Examples of testNameCount. */
  lemma NameCountExamples()
    ensures NameCount(Parse("")) == 1 && NameCount(Parse("/")) == 0
  {
    ParseOf("", Empty);
    ParseOf("/", Root);
  }

  // ---------------------------------------------------------------------
  // Names, subpaths, file name and parent
  // ---------------------------------------------------------------------

  /** Left-to-right resolution of paths, starting from `acc`. */
  function ResolveFrom(acc: Path, ps: seq<Path>): Path
    decreases |ps|
  {
    if ps == [] then acc else ResolveFrom(Resolve(acc, ps[0]), ps[1..])
  }

  /** Resolving one more name against a relative path of names appends it. */
  lemma AppendName(names: seq<string>, n: string)
    requires names != [] && IsName(names[0]) && IsName(n)
    ensures Resolve(Path(false, names), Path(false, [n])) == Path(false, names + [n])
  {
    assert names != [""];
  }

  /**
   * Resolving, in order, one-name relative paths against a relative path of
   * names appends those names.
   */
  lemma {:induction false} ResolveFromNames(front: seq<string>, ps: seq<Path>, names: seq<string>)
    requires front != [] && IsName(front[0])
    requires |ps| == |names| && AllNames(names)
    requires forall i :: 0 <= i < |ps| ==> ps[i] == Path(false, [names[i]])
    ensures ResolveFrom(Path(false, front), ps) == Path(false, front + names)
    decreases |ps|
  {
    if ps == [] {
      assert front + names == front;
    } else {
      AppendName(front, names[0]);
      var more, rest := front + [names[0]], names[1..];
      assert forall i :: 0 <= i < |rest| ==> ps[1..][i] == ps[i + 1] && rest[i] == names[i + 1];
      ResolveFromNames(more, ps[1..], rest);
      AppendHead(front, names);
    }
  }

  /** Moving the head of `names` onto the end of `front` keeps the concatenation. */
  lemma AppendHead(front: seq<string>, names: seq<string>)
    requires names != []
    ensures (front + [names[0]]) + names[1..] == front + names
  {
  }

  /**
   * Iterating a path yields its names as relative paths, and resolving them
   * in order rebuilds the path (below the root for an absolute one).
   */
  lemma NamesRebuild(p: Path)
    requires Valid(p) && NameCount(p) > 0
    ensures ResolveFrom(Names(p)[0], Names(p)[1..]) == Path(false, p.names)
  {
    var ns := Names(p);
    if p != Empty {
      forall i | 0 <= i < |ns| ensures ns[i] == Path(false, [p.names[i]]) {
        assert GetName(p, i) == Success(ns[i]);
      }
      var rest := p.names[1..];
      assert forall i :: 0 <= i < |rest| ==> ns[1..][i] == Path(false, [rest[i]]);
      ResolveFromNames([p.names[0]], ns[1..], rest);
      assert [p.names[0]] + rest == p.names;
    }
  }

  /** getName(i) is subpath(i, i + 1). */
  lemma GetNameIsSubpath(p: Path, i: int)
    ensures GetName(p, i) == Subpath(p, i, i + 1)
  {
    if 0 <= i < NameCount(p) {
      assert p.names[i..i + 1] == [p.names[i]];
    }
  }

  /** Two adjacent subpaths resolve to the subpath spanning both. */
  lemma SubpathSplit(p: Path, b: nat, k: nat, e: nat)
    requires Valid(p) && b < k < e <= NameCount(p)
    ensures Resolve(Subpath(p, b, k).value, Subpath(p, k, e).value) == Subpath(p, b, e).value
  {
    if p != Empty {
      assert IsName(p.names[b]) && IsName(p.names[k]);
      assert p.names[b..k] != [""] && p.names[k..e] != [""];
      assert p.names[b..k] + p.names[k..e] == p.names[b..e];
    }
  }

  /** A path is its parent resolved with its file name. */
  lemma ParentResolve(p: Path)
    requires Valid(p) && Parent(p).Some?
    ensures Resolve(Parent(p).value, FileName(p).value) == p
  {
    var n := NameCount(p);
    assert p != Empty;
    assert IsName(p.names[0]) && IsName(p.names[n - 1]);
    assert p.names[..n - 1] + [p.names[n - 1]] == p.names;
    if !p.absolute {
      assert p.names[..n - 1] != [""];
    }
  }

  /** Examples of testFileName and testParent. */
  lemma FileNameParentExamples()
    ensures FileName(Root) == None && FileName(Empty) == Some(Empty)
    ensures Parent(Empty) == None && Parent(Root) == None && Parent(Path(false, ["foo"])) == None
    ensures Parent(Path(true, ["foo"])) == Some(Root)
    ensures Parent(Path(true, ["foo", "bar"])) == Some(Path(true, ["foo"]))
  {
    assert Path(true, ["foo"]).names[..0] == [];
    assert Path(true, ["foo", "bar"]).names[..1] == ["foo"];
  }

  /** Examples of testGetName and testSubpath. */
  lemma GetNameSubpathExamples()
    ensures GetName(Root, 0).Failure? && GetName(Path(false, ["bar"]), 1).Failure?
    ensures Subpath(Root, 0, 1).Failure?
    ensures Subpath(Empty, 0, 1) == Success(Empty)
    ensures GetName(Path(true, ["Test", "..", "Test"]), 1) == Success(Path(false, [DotDot]))
    ensures Subpath(Path(true, ["a", "b", "c"]), 1, 3) == Success(Path(false, ["b", "c"]))
  {
    assert Empty.names[0..1] == Empty.names;
    assert ["a", "b", "c"][1..3] == ["b", "c"];
  }

  /** The text of testGetName's path parses to three names, ".." among them. */
  lemma ParseDotDotExample()
    ensures Parse("/Test/../Test") == Path(true, ["Test", "..", "Test"])
  {
    ParseOf("/Test/../Test", Path(true, ["Test", "..", "Test"]));
  }

  // ---------------------------------------------------------------------
  // startsWith and endsWith
  // ---------------------------------------------------------------------

  /** The empty path is a prefix of itself only. */
  lemma StartsWithEmpty(p: Path)
    requires Valid(p)
    ensures StartsWith(p, Empty) <==> p == Empty
  {
    if p != Empty && p.names != [] {
      assert IsName(p.names[0]) && p.names[..1] == [p.names[0]];
    }
  }

  /** A proper prefix resolved with the rest of the path gives the path. */
  lemma StartsWithRest(p: Path, q: Path)
    requires Valid(p) && Valid(q) && q != Empty && StartsWith(p, q)
    requires NameCount(q) < NameCount(p)
    ensures Resolve(q, Subpath(p, NameCount(q), NameCount(p)).value) == p
  {
    var rest := Subpath(p, NameCount(q), NameCount(p)).value;
    assert p != Empty;
    assert IsName(p.names[NameCount(q)]);
    assert rest != Empty;
    assert q.names + rest.names == p.names;
  }

  /** A relative suffix is the matching trailing subpath. */
  lemma EndsWithSubpath(p: Path, q: Path)
    requires Valid(q) && !q.absolute && EndsWith(p, q)
    ensures Subpath(p, NameCount(p) - NameCount(q), NameCount(p)) == Success(q)
  {
    assert p.names[NameCount(p) - NameCount(q)..NameCount(p)] == q.names;
  }

  /** Whole-name prefix and suffix tests both ways imply equality. */
  lemma StartsWithAntisymmetric(p: Path, q: Path)
    requires StartsWith(p, q) && StartsWith(q, p)
    ensures p == q
  {
    assert p.names == p.names[..|q.names|];
  }

  /** Examples of testStartsWith: whole names only, absoluteness must agree. */
  lemma StartsWithExamples()
    ensures StartsWith(Empty, Empty)
    ensures StartsWith(Path(true, ["foo"]), Root)
    ensures StartsWith(Path(false, ["foo", "bar"]), Path(false, ["foo"]))
    ensures !StartsWith(Path(true, ["foo"]), Path(false, ["foo"]))
    ensures !StartsWith(Path(false, ["foo", "bar"]), Path(false, ["fo"]))
    ensures !StartsWith(Path(false, ["foo", "bar"]), Empty)
  {
  }

  /** Examples of testEndsWith: whole names only, an absolute suffix is the whole path. */
  lemma EndsWithExamples()
    ensures EndsWith(Root, Root)
    ensures EndsWith(Path(false, ["foo", ".."]), Path(false, [".."]))
    ensures EndsWith(Path(true, ["foo", "bar"]), Path(true, ["foo", "bar"]))
    ensures !EndsWith(Path(false, ["foo.."]), Path(false, [".."]))
    ensures !EndsWith(Path(true, ["foo", "bar"]), Path(true, ["bar"]))
    ensures !EndsWith(Path(true, ["foo"]), Empty)
    ensures !EndsWith(Path(false, ["foo", "bar"]), Path(false, ["ar"]))
  {
  }

  /** Examples of testResolve. */
  lemma ResolveExamples()
    ensures ToString(ResolveText(Parse(""), "")) == ""
    ensures ToString(ResolveText(Parse(""), "/")) == "/"
    ensures ToString(ResolveText(Parse("/"), "")) == "/"
    ensures ToString(ResolveText(Parse(""), "foo")) == "foo"
    ensures ToString(ResolveText(Parse(""), "/foo")) == "/foo"
  {
  }

  // ---------------------------------------------------------------------
  // Normalization
  // ---------------------------------------------------------------------

  /** Reducing a concatenation reduces the parts one after the other. */
  lemma {:induction false} ReduceConcat(s: seq<string>, x: seq<string>, y: seq<string>)
    ensures Reduce(s, x + y) == Reduce(Reduce(s, x), y)
    decreases |x|
  {
    if x == [] {
      assert x + y == y;
    } else {
      assert (x + y)[0] == x[0] && (x + y)[1..] == x[1..] + y;
      assert Reduce(s, x + y) == Reduce(Step(s, x[0]), x[1..] + y);
      assert Reduce(s, x) == Reduce(Step(s, x[0]), x[1..]);
      ReduceConcat(Step(s, x[0]), x[1..], y);
    }
  }

  /** Reduction leaves already normal names as they are. */
  lemma {:induction false} ReduceNormal(s: seq<string>, ns: seq<string>)
    requires IsNormal(s + ns)
    ensures Reduce(s, ns) == s + ns
    decreases |ns|
  {
    if ns != [] {
      var t := s + ns;
      assert t[|s|] == ns[0];
      if ns[0] == DotDot && s != [] {
        assert t[|s| - 1] == s[|s| - 1];
      }
      assert Step(s, ns[0]) == s + [ns[0]];
      assert s + ns == (s + [ns[0]]) + ns[1..];
      ReduceNormal(s + [ns[0]], ns[1..]);
    }
  }

  /** Reduction of normal names from an empty stack gives them back. */
  lemma ReduceNormalAll(ns: seq<string>)
    requires IsNormal(ns)
    ensures Reduce([], ns) == ns
  {
    assert [] + ns == ns;
    ReduceNormal([], ns);
  }

  /** Reduction of the rest of normal names on top of their first `k` gives them back. */
  lemma ReduceNormalSplit(ns: seq<string>, k: nat)
    requires IsNormal(ns) && k <= |ns|
    ensures Reduce(ns[..k], ns[k..]) == ns
  {
    assert ns[..k] + ns[k..] == ns;
    ReduceNormal(ns[..k], ns[k..]);
  }

  /** Normalizing twice is normalizing once. */
  lemma NormalizeIdempotent(p: Path)
    ensures Normalize(Normalize(p)) == Normalize(p)
  {
    var ns := NormalNames(p);
    ReduceNormalAll(ns);
    if !p.absolute && ns == [] {
      assert Normalize(p) == Empty;
      assert Reduce([], [""]) == [];
    }
  }

  /** A proper name followed by ".." cancels out. */
  lemma NormalizeCancels(absolute: bool, ns: seq<string>, n: string)
    requires IsPlain(n)
    ensures NormalNames(Path(absolute, ns + [n, DotDot])) == NormalNames(Path(absolute, ns))
  {
    ReduceConcat([], ns, [n, DotDot]);
    ReduceCancels(Reduce([], ns), n);
  }

  /** On any stack, a plain name followed by ".." reduces to nothing. */
  lemma ReduceCancels(s: seq<string>, n: string)
    requires IsPlain(n)
    ensures Reduce(s, [n, DotDot]) == s
  {
    assert Step(s, n) == s + [n];
    assert (s + [n])[..|s|] == s;
    assert Step(s + [n], DotDot) == s;
    assert [n, DotDot][1..] == [DotDot];
    assert Reduce(s + [n], [DotDot]) == Reduce(s, []);
  }

  /** A "." anywhere is dropped. */
  lemma NormalizeDropsDot(absolute: bool, xs: seq<string>, ys: seq<string>)
    ensures NormalNames(Path(absolute, xs + [Dot] + ys)) == NormalNames(Path(absolute, xs + ys))
  {
    ReduceConcat([], xs + [Dot], ys);
    ReduceConcat([], xs, [Dot]);
    ReduceConcat([], xs, ys);
  }

  /** Examples of testNormalize: the root, ".", and a "." between names. */
  lemma NormalizeExamples()
    ensures Normalize(Parse("/")) == Root
    ensures Normalize(Parse(".")) == Empty
    ensures Normalize(Path(false, ["a", ".", "b"])) == Path(false, ["a", "b"])
  {
    ParseOf("/", Root);
    ParseOf(".", Path(false, ["."]));
    assert ["a"] + [Dot] + ["b"] == ["a", ".", "b"];
    NormalizeDropsDot(false, ["a"], ["b"]);
    assert ["a"] + ["b"] == ["a", "b"];
    ReduceNormalAll(["a", "b"]);
  }

  /** Examples of testNormalize with "..": a name and the ".." after it cancel. */
  lemma NormalizeDotDotExamples()
    ensures Normalize(Path(false, ["a", "b", ".."])) == Path(false, ["a"])
    ensures Normalize(Path(false, ["a", ".."])) == Empty
  {
    assert ["a"] + ["b", DotDot] == ["a", "b", ".."];
    NormalizeCancels(false, ["a"], "b");
    ReduceNormalAll(["a"]);
    assert [] + ["a", DotDot] == ["a", ".."];
    NormalizeCancels(false, [], "a");
  }

  /** Examples of testNormalize with a leading "..", which stays. */
  lemma NormalizeLeadingDotDotExamples()
    ensures Normalize(Path(false, [".."])) == Path(false, [".."])
    ensures Normalize(Path(false, ["..", "a", "b", ".."])) == Path(false, ["..", "a"])
  {
    ReduceNormalAll([".."]);
    assert ["..", "a"] + ["b", DotDot] == ["..", "a", "b", ".."];
    NormalizeCancels(false, ["..", "a"], "b");
    ReduceNormalAll(["..", "a"]);
  }

  // ---------------------------------------------------------------------
  // Relativization
  // ---------------------------------------------------------------------

  lemma CommonPrefixSelf(a: seq<string>)
    ensures CommonPrefix(a, a) == |a|
  {
  }

  /** A path relativized against itself is the empty path. */
  lemma RelativizeSelf(p: Path)
    ensures Relativize(p, p) == Success(Empty)
  {
    CommonPrefixSelf(NormalNames(p));
  }

  /** ".." once per trailing proper name pops exactly those names. */
  lemma {:induction false} ReduceUps(c: seq<string>, d: seq<string>)
    requires forall i :: 0 <= i < |d| ==> IsPlain(d[i])
    ensures Reduce(c + d, Ups(|d|)) == c
    decreases |d|
  {
    if d != [] {
      var m := |d|;
      assert Step(c + d, DotDot) == c + d[..m - 1];
      assert Ups(m)[1..] == Ups(m - 1);
      ReduceUps(c, d[..m - 1]);
    }
  }

  /**
   * Reducing normal names `a`, one ".." per name of `a` past `k`, and then
   * the names of normal `b` past `k` gives `b`, when `a` and `b` agree on
   * their first `k` names and `a` has only plain names past `k`.
   */
  lemma ReduceAfterUps(a: seq<string>, b: seq<string>, k: nat)
    requires IsNormal(a) && IsNormal(b) && k <= |a| && k <= |b| && a[..k] == b[..k]
    requires forall i :: k <= i < |a| ==> IsPlain(a[i])
    ensures Reduce([], a + (Ups(|a| - k) + b[k..])) == b
  {
    var c, d, e, u := a[..k], a[k..], b[k..], Ups(|a| - k);
    ReduceConcat([], a, u + e);
    ReduceNormalAll(a);
    SplitAt(a, k);
    ReduceConcat(c + d, u, e);
    PlainTail(a, k);
    ReduceUps(c, d);
    ReduceNormalSplit(b, k);
  }

  /** On normal names, reducing `a` followed by its relative names to `b` gives `b`. */
  lemma RelativeNamesUndo(a: seq<string>, b: seq<string>)
    requires IsNormal(a) && IsNormal(b)
    requires forall i :: CommonPrefix(a, b) <= i < |a| ==> a[i] != DotDot
    ensures Reduce([], a + RelativeNames(a, b)) == b
  {
    var k := CommonPrefix(a, b);
    ReduceAfterUps(a, b, k);
  }

  /** Past `k`, the names are plain, seen from the tail too. */
  lemma PlainTail(a: seq<string>, k: nat)
    requires k <= |a|
    requires forall i :: k <= i < |a| ==> IsPlain(a[i])
    ensures forall i :: 0 <= i < |a| - k ==> IsPlain(a[k..][i])
  {
    forall i | 0 <= i < |a| - k
      ensures IsPlain(a[k..][i])
    {
      assert a[k..][i] == a[k + i];
    }
  }

  /** A sequence is its first `k` elements followed by the rest. */
  lemma SplitAt(s: seq<string>, k: nat)
    requires k <= |s|
    ensures s == s[..k] + s[k..]
  {
  }

  /**
   * Relativize is undone by resolve: resolving the normalized receiver with
   * the relativized path and normalizing gives the normalized argument,
   * provided no ".." of the receiver lies beyond the common prefix.
   */
  lemma RelativizeResolve(p: Path, q: Path)
    requires Valid(p) && Valid(q) && p.absolute == q.absolute
    requires var a := NormalNames(p);
      forall i :: CommonPrefix(a, NormalNames(q)) <= i < |a| ==> a[i] != DotDot
    ensures Normalize(Resolve(Normalize(p), Relativize(p, q).value)) == Normalize(q)
  {
    var a, b := NormalNames(p), NormalNames(q);
    var names := RelativeNames(a, b);
    RelativeNamesUndo(a, b);
    var rel := Relativize(p, q).value;
    assert rel == Make(false, names);
    var np := Normalize(p);
    if names == [] {
      assert a + names == a;
      ReduceNormalAll(a);
      NormalizeIdempotent(p);
    } else if np == Empty {
      assert a == [] && a + names == names;
    } else {
      assert np == Path(p.absolute, a);
      assert AllNames(names) && IsName(names[0]);
      assert rel == Path(false, names) && rel != Empty;
      assert Resolve(np, rel) == Path(p.absolute, a + names);
    }
  }

  /** testRelativize: "/a/b" against "/a/b/c/d" gives "c/d". */
  lemma RelativizeDescendantExample()
    ensures Relativize(Path(true, ["a", "b"]), Path(true, ["a", "b", "c", "d"]))
      == Success(Path(false, ["c", "d"]))
  {
    var a, b := ["a", "b"], ["a", "b", "c", "d"];
    ReduceNormalAll(a);
    ReduceNormalAll(b);
    assert CommonPrefix(a, b) == 2 by {
      assert a[1..] == ["b"] && b[1..] == ["b", "c", "d"];
      assert CommonPrefix(["b"], ["b", "c", "d"]) == 1;
    }
    assert Ups(0) + b[2..] == ["c", "d"];
    RelativizeOf(Path(true, a), Path(true, b));
  }

  /** testRelativize: "/a/b" against "/a/x" gives "../x". */
  lemma RelativizeSiblingExample()
    ensures Relativize(Path(true, ["a", "b"]), Path(true, ["a", "x"]))
      == Success(Path(false, ["..", "x"]))
  {
    var a, x := ["a", "b"], ["a", "x"];
    ReduceNormalAll(a);
    ReduceNormalAll(x);
    assert CommonPrefix(a, x) == 1 by {
      assert a[1..] == ["b"] && x[1..] == ["x"];
      assert CommonPrefix(["b"], ["x"]) == 0;
    }
    assert Ups(1) + x[1..] == ["..", "x"];
    RelativizeOf(Path(true, a), Path(true, x));
  }

  /** relativize evaluated: the relative names of the two normalized name lists. */
  lemma RelativizeOf(p: Path, other: Path)
    requires p.absolute == other.absolute
    ensures Relativize(p, other)
      == Success(Make(false, RelativeNames(NormalNames(p), NormalNames(other))))
  {
  }

  /** testRelativize: "/a/b/c/../.." is normalized to "/a" before relativizing. */
  lemma RelativizeNormalizedExample()
    ensures Relativize(Path(true, ["a", "b", "c", "..", ".."]), Path(true, ["a", "b", "c", "d"]))
      == Success(Path(false, ["b", "c", "d"]))
  {
    var a, b := ["a"], ["a", "b", "c", "d"];
    ReduceNormalAll(b);
    assert CommonPrefix(a, b) == 1 by {
      assert a[1..] == [] && b[1..] == ["b", "c", "d"];
    }
    assert Ups(0) + b[1..] == ["b", "c", "d"];
    ReduceBacksUp();
    RelativizeOf(Path(true, ["a", "b", "c", "..", ".."]), Path(true, b));
  }

  /** "a/b/c/../.." reduces to "a": each ".." cancels the name pushed last. */
  lemma ReduceBacksUp()
    ensures NormalNames(Path(true, ["a", "b", "c", "..", ".."])) == ["a"]
  {
    var ns := ["a", "b", "c", "..", ".."];
    assert ns[1..] == ["b", "c", "..", ".."] && ns[2..] == ["c", "..", ".."];
    assert ns[1..][1..] == ns[2..] && ns[2..][1..] == ["..", ".."];
    assert ["..", ".."][1..] == [".."];
    assert Step([], "a") == ["a"] && Step(["a"], "b") == ["a", "b"];
    assert Step(["a", "b"], "c") == ["a", "b", "c"];
    assert Step(["a", "b", "c"], DotDot) == ["a", "b"];
    assert Step(["a", "b"], DotDot) == ["a"];
  }

  /** testRelativize: "a" against "a/../.." gives "../..". */
  lemma RelativizeUpsExample()
    ensures Relativize(Path(false, ["a"]), Path(false, ["a", "..", ".."]))
      == Success(Path(false, ["..", ".."]))
  {
    var a := ["a"];
    ReduceNormalAll(a);
    ReduceClimbsOut();
    assert CommonPrefix(a, [DotDot]) == 0;
    assert Ups(1) + [DotDot][0..] == ["..", ".."];
    RelativizeOf(Path(false, a), Path(false, ["a", "..", ".."]));
  }

  /** "a/../.." reduces to "..": the first ".." cancels "a", the second has nothing to cancel. */
  lemma ReduceClimbsOut()
    ensures NormalNames(Path(false, ["a", "..", ".."])) == [DotDot]
  {
    var ns := ["a", "..", ".."];
    assert ns[1..] == ["..", ".."] && ns[1..][1..] == [".."];
    assert Step([], "a") == ["a"];
    assert Step(["a"], DotDot) == [];
    assert Step([], DotDot) == [DotDot];
  }

  /** Examples of testRelativize: a parent, and paths that normalize alike. */
  lemma RelativizeParentExamples()
    ensures Relativize(Path(true, ["a", "b"]), Path(true, ["a"])) == Success(Path(false, [".."]))
    ensures Relativize(Path(false, [".", "."]), Path(false, ["."])) == Success(Empty)
    ensures Relativize(Root, Path(true, ["."])) == Success(Empty)
    ensures Relativize(Root, Path(false, ["a"])).Failure?
  {
    var a, b := ["a", "b"], ["a"];
    assert NormalNames(Path(true, a)) == a;
    assert NormalNames(Path(true, b)) == b;
    assert CommonPrefix(a, b) == 1 by {
      assert a[1..] == ["b"] && b[1..] == [];
    }
    assert b[1..] == [] && Ups(1) == [DotDot];
    assert RelativeNames(a, b) == [".."];
  }
}
