/**
 * The lexical Unix path of the core: an absolute flag and the sequence of
 * names between separators.  Parsing collapses separator runs, every other
 * operation works on the name sequence alone and never touches storage.
 * "." and ".." are ordinary names except in Normalize and Relativize.
 */
module UnixPaths {
  import opened Wrappers

  const Separator: char := '/'
  const Dot: string := "."
  const DotDot: string := ".."

  /** IllegalArgumentException of getName, subpath and relativize. */
  datatype PathError = IllegalArgument

  datatype Path = Path(absolute: bool, names: seq<string>)

  /** The empty path, what Paths.get("") gives: one empty name. */
  const Empty: Path := Path(false, [""])

  /** The root directory "/": absolute with no names. */
  const Root: Path := Path(true, [])

  /** A name between separators: non-empty and separator-free. */
  predicate IsName(n: string) {
    n != [] && Separator !in n
  }

  predicate AllNames(ns: seq<string>) {
    forall i :: 0 <= i < |ns| ==> IsName(ns[i])
  }

  /**
   * The shape of every path: the empty path, or proper names only, where a
   * relative path has at least one.
   */
  predicate Valid(p: Path) {
    p == Empty || (AllNames(p.names) && (p.absolute || p.names != []))
  }

  /** A path from names; a relative path without names is the empty path. */
  function Make(absolute: bool, names: seq<string>): (p: Path)
    ensures AllNames(names) ==> Valid(p)
    ensures p.absolute == absolute
  {
    if !absolute && names == [] then Empty else Path(absolute, names)
  }

  // ---------------------------------------------------------------------
  // Parsing (sanitize) and the canonical text
  // ---------------------------------------------------------------------

  /** Length of the name at the head of `s`, up to the first separator. */
  function NameLength(s: string): (k: nat)
    ensures k <= |s|
    ensures Separator !in s[..k]
    ensures k < |s| ==> s[k] == Separator
  {
    if s == [] || s[0] == Separator then 0
    else
      var k := 1 + NameLength(s[1..]);
      assert s[..k] == [s[0]] + s[1..][..k - 1];
      k
  }

  /**
   * The names of `s`: separator runs collapse into one separator and
   * leading and trailing separators vanish.
   */
  function Segments(s: string): (ns: seq<string>)
    ensures AllNames(ns)
    decreases |s|
  {
    if s == [] then []
    else if s[0] == Separator then Segments(s[1..])
    else
      var k := NameLength(s);
      [s[..k]] + Segments(s[k..])
  }

  /** Paths.get(s): a leading separator makes the path absolute. */
  function Parse(s: string): (p: Path)
    ensures Valid(p)
    ensures p.absolute <==> |s| > 0 && s[0] == Separator
  {
    Make(|s| > 0 && s[0] == Separator, Segments(s))
  }

  /** The parts joined with one separator between neighbours. */
  function JoinText(parts: seq<string>): string
  {
    if parts == [] then ""
    else if |parts| == 1 then parts[0]
    else parts[0] + [Separator] + JoinText(parts[1..])
  }

  /** toString: "/" for an absolute path, then the names joined by "/". */
  function ToString(p: Path): string
  {
    (if p.absolute then [Separator] else "") + JoinText(p.names)
  }

  /**
   * The text Paths.get(first, more...) sanitizes: every non-empty part of
   * `more` is appended, after a separator when the text so far is non-empty.
   */
  function JoinFrom(acc: string, more: seq<string>): string
    decreases |more|
  {
    if more == [] then acc
    else
      var next :=
        if more[0] == "" then acc
        else if acc == "" then more[0]
        else acc + [Separator] + more[0];
      JoinFrom(next, more[1..])
  }

  /** Paths.get(first, more...). */
  function Get(first: string, more: seq<string>): (p: Path)
    ensures Valid(p)
  {
    Parse(JoinFrom(first, more))
  }

  /** The names of every part, in order. */
  function SegmentsOfAll(parts: seq<string>): seq<string>
  {
    if parts == [] then [] else Segments(parts[0]) + SegmentsOfAll(parts[1..])
  }

  // ---------------------------------------------------------------------
  // Name access
  // ---------------------------------------------------------------------

  function NameCount(p: Path): nat {
    |p.names|
  }

  /** getName(index): the index-th name as a relative path. */
  function GetName(p: Path, index: int): (r: Result<Path, PathError>)
    ensures r.Success? <==> 0 <= index < NameCount(p)
    ensures r.Success? ==> !r.value.absolute && NameCount(r.value) == 1
    ensures r.Success? ==> ToString(r.value) == p.names[index]
  {
    if 0 <= index < |p.names| then Success(Path(false, [p.names[index]]))
    else Failure(IllegalArgument)
  }

  /** subpath(begin, end): names begin..end-1 as a relative path. */
  function Subpath(p: Path, begin: int, end: int): (r: Result<Path, PathError>)
    ensures r.Success? <==> 0 <= begin < end <= NameCount(p)
    ensures r.Success? ==> !r.value.absolute && NameCount(r.value) == end - begin
    ensures r.Success? ==>
      forall i :: 0 <= i < end - begin ==> GetName(r.value, i) == GetName(p, begin + i)
  {
    if 0 <= begin < end <= |p.names| then Success(Path(false, p.names[begin..end]))
    else Failure(IllegalArgument)
  }

  /** Iterating a path: its names, each as a relative path. */
  function Names(p: Path): (r: seq<Path>)
    ensures |r| == NameCount(p)
    ensures forall i :: 0 <= i < |r| ==> GetName(p, i) == Success(r[i])
  {
    seq(|p.names|, i requires 0 <= i < |p.names| => Path(false, [p.names[i]]))
  }

  /** getFileName: the last name; absent only when there are no names. */
  function FileName(p: Path): (r: Option<Path>)
    ensures r.None? <==> NameCount(p) == 0
    ensures r.Some? ==> GetName(p, NameCount(p) - 1) == Success(r.value)
  {
    if p.names == [] then None else Some(Path(false, [p.names[|p.names| - 1]]))
  }

  /**
   * getParent: every name but the last, same absoluteness; absent for the
   * root and for a relative path of one name (which includes "").
   */
  function Parent(p: Path): (r: Option<Path>)
    ensures r.None? <==> NameCount(p) == 0 || (!p.absolute && NameCount(p) == 1)
    ensures r.Some? ==>
      r.value.absolute == p.absolute && NameCount(r.value) == NameCount(p) - 1
      && StartsWith(p, r.value)
    ensures r.Some? && Valid(p) ==> Valid(r.value)
  {
    if p.names == [] || (!p.absolute && |p.names| == 1) then None
    else Some(Path(p.absolute, p.names[..|p.names| - 1]))
  }

  // ---------------------------------------------------------------------
  // Comparison by whole names
  // ---------------------------------------------------------------------

  /** startsWith: same absoluteness and `other`'s names begin this path's. */
  predicate StartsWith(p: Path, other: Path) {
    p.absolute == other.absolute
    && |other.names| <= |p.names|
    && p.names[..|other.names|] == other.names
  }

  /**
   * endsWith: an absolute `other` must be the whole path; a relative one's
   * names must end this path's.
   */
  predicate EndsWith(p: Path, other: Path) {
    if other.absolute then p == other
    else |other.names| <= |p.names| && p.names[|p.names| - |other.names|..] == other.names
  }

  // ---------------------------------------------------------------------
  // Resolution
  // ---------------------------------------------------------------------

  /**
   * resolve: an absolute `other` replaces this path, the empty path on
   * either side yields the other side, else the names are appended.
   */
  function Resolve(p: Path, other: Path): (r: Path)
    ensures other.absolute ==> r == other
    ensures p == Empty ==> r == other
    ensures other == Empty ==> r == p
    ensures !other.absolute && p != Empty && other != Empty ==>
      r.absolute == p.absolute && NameCount(r) == NameCount(p) + NameCount(other)
      && StartsWith(r, p) && EndsWith(r, other)
    ensures Valid(p) && Valid(other) ==> Valid(r)
  {
    if other.absolute then other
    else if p == Empty then other
    else if other == Empty then p
    else
      var r := Path(p.absolute, p.names + other.names);
      assert r.names[..|p.names|] == p.names;
      assert r.names[|r.names| - |other.names|..] == other.names;
      r
  }

  /** Resolve of a path with a string, as path.resolve(String) does. */
  function ResolveText(p: Path, other: string): Path {
    Resolve(p, Parse(other))
  }

  // ---------------------------------------------------------------------
  // Normalization
  // ---------------------------------------------------------------------

  /** No "." and no empty name, and a ".." follows only "..": the ".."s lead. */
  predicate IsNormal(ns: seq<string>) {
    && (forall i :: 0 <= i < |ns| ==> ns[i] != Dot && ns[i] != "")
    && (forall i :: 0 < i < |ns| && ns[i] == DotDot ==> ns[i - 1] == DotDot)
  }

  /** A name normalization keeps and that ".." cancels. */
  predicate IsPlain(n: string) {
    n != Dot && n != DotDot && n != ""
  }

  /**
   * One step of the left-to-right reduction: "." (and the empty name) is
   * dropped, ".." cancels a preceding name that is not "..", anything else
   * is pushed.
   */
  function Step(stack: seq<string>, name: string): seq<string> {
    if name == Dot || name == "" then stack
    else if name == DotDot && stack != [] && stack[|stack| - 1] != DotDot then stack[..|stack| - 1]
    else stack + [name]
  }

  predicate NamesOrEmpty(ns: seq<string>) {
    forall i :: 0 <= i < |ns| ==> ns[i] == "" || IsName(ns[i])
  }

  /** The reduction of `names` on top of `stack`. */
  function Reduce(stack: seq<string>, names: seq<string>): seq<string>
    decreases |names|
  {
    if names == [] then stack else Reduce(Step(stack, names[0]), names[1..])
  }

  /** Reduction keeps a normal stack normal and keeps only proper names. */
  lemma {:induction false} ReduceKeepsNormal(stack: seq<string>, names: seq<string>)
    ensures IsNormal(stack) ==> IsNormal(Reduce(stack, names))
    ensures AllNames(stack) && NamesOrEmpty(names) ==> AllNames(Reduce(stack, names))
    decreases |names|
  {
    if names != [] {
      var s := Step(stack, names[0]);
      assert IsNormal(stack) ==> IsNormal(s);
      ReduceKeepsNormal(s, names[1..]);
    }
  }

  /** The names normalize keeps; empty for "", ".", "a/..". */
  function NormalNames(p: Path): (ns: seq<string>)
    ensures IsNormal(ns)
    ensures Valid(p) ==> AllNames(ns)
  {
    assert Valid(p) ==> NamesOrEmpty(p.names);
    ReduceKeepsNormal([], p.names);
    Reduce([], p.names)
  }

  /** normalize: same absoluteness, the reduced names. */
  function Normalize(p: Path): (r: Path)
    ensures r.absolute == p.absolute
    ensures Valid(p) ==> Valid(r)
    ensures r == Empty || IsNormal(r.names)
  {
    Make(p.absolute, NormalNames(p))
  }

  // ---------------------------------------------------------------------
  // Relativization
  // ---------------------------------------------------------------------

  /** Length of the longest common prefix of `a` and `b`. */
  function CommonPrefix(a: seq<string>, b: seq<string>): (k: nat)
    ensures k <= |a| && k <= |b|
    ensures a[..k] == b[..k]
    ensures k < |a| && k < |b| ==> a[k] != b[k]
  {
    if a == [] || b == [] || a[0] != b[0] then 0
    else
      var k := 1 + CommonPrefix(a[1..], b[1..]);
      assert a[..k] == [a[0]] + a[1..][..k - 1];
      assert b[..k] == [b[0]] + b[1..][..k - 1];
      k
  }

  function Ups(n: nat): (r: seq<string>)
    ensures |r| == n && forall i :: 0 <= i < n ==> r[i] == DotDot
  {
    if n == 0 then [] else [DotDot] + Ups(n - 1)
  }

  /** The names of relativize's result: one ".." per unmatched name, then the rest. */
  function RelativeNames(a: seq<string>, b: seq<string>): seq<string> {
    var k := CommonPrefix(a, b);
    Ups(|a| - k) + b[k..]
  }

  /**
   * relativize: both paths normalized, one ".." per remaining name of this
   * path followed by the remaining names of `other`.
   */
  function Relativize(p: Path, other: Path): (r: Result<Path, PathError>)
    ensures r.Failure? <==> p.absolute != other.absolute
    ensures r.Success? ==> !r.value.absolute
    ensures r.Success? && Valid(p) && Valid(other) ==> Valid(r.value)
  {
    if p.absolute != other.absolute then Failure(IllegalArgument)
    else
      var a, b := NormalNames(p), NormalNames(other);
      assert Valid(other) ==> AllNames(RelativeNames(a, b)) by {
        if Valid(other) {
          RelativeNamesAreNames(a, b);
        }
      }
      Success(Make(false, RelativeNames(a, b)))
  }

  /** Relative names are proper names when the target's names are. */
  lemma RelativeNamesAreNames(a: seq<string>, b: seq<string>)
    requires AllNames(b)
    ensures AllNames(RelativeNames(a, b))
  {
    var k := CommonPrefix(a, b);
    var ups, rest := Ups(|a| - k), b[k..];
    assert AllNames(ups) && AllNames(rest) by {
      assert forall i :: 0 <= i < |rest| ==> rest[i] == b[k + i];
    }
    assert forall i :: 0 <= i < |ups + rest| ==>
      (ups + rest)[i] == if i < |ups| then ups[i] else rest[i - |ups|];
  }
}
