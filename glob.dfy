/**
 * The glob syntax of path matchers and directory-stream filters: literal
 * characters, `?`, `*`, `**`, bracket classes and one level of `{a,b}`
 * groups, with `\` quoting the next character.  A glob is compiled to a
 * token sequence (or a syntax error) and matched against the whole input.
 */
module Globs {
  import opened Wrappers

  const Separator: char := '/'

  /** One member of a bracket class: a character or an inclusive range. */
  datatype ClassItem = Single(c: char) | Range(lo: char, hi: char)

  /** A pattern element that is not a group. */
  datatype Atom =
    | Lit(c: char)          // the character itself
    | AnyChar               // `?`: one character other than the separator
    | Star                  // `*`: any run of characters without the separator
    | DoubleStar            // `**`: any run of characters without a line terminator
    | Class(negated: bool, items: seq<ClassItem>)  // `[...]`, `[!...]`

  /** A top-level element: an atom, or `{...}` whose alternatives hold no group. */
  datatype Token = One(atom: Atom) | Group(alts: seq<seq<Atom>>)

  /** The PatternSyntaxException cases. */
  datatype GlobError =
    | NestedGroup         // `{` inside a group
    | MissingBrace        // a group never closed
    | MissingBracket      // a class never closed
    | InvalidRange        // `-` without a range start, or a range that runs backwards
    | ExplicitSeparator   // `/` inside a class
    | NoEscapedChar       // `\` at the end of the glob

  // ---------------------------------------------------------------------
  // Matching
  // ---------------------------------------------------------------------

  /**
   * The line terminators of java.util.regex: `**` becomes the regular
   * expression `.*`, compiled without DOTALL, and `.` matches none of these.
   */
  predicate LineTerminator(c: char) {
    c == '\n' || c == '\r' || c == '\U{0085}' || c == '\U{2028}' || c == '\U{2029}'
  }

  predicate NoLineTerminator(s: string) {
    forall c | c in s :: !LineTerminator(c)
  }

  predicate InItems(items: seq<ClassItem>, c: char) {
    exists i | 0 <= i < |items| :: match items[i]
      case Single(d) => c == d
      case Range(lo, hi) => lo <= c <= hi
  }

  /** Whether a one-character atom accepts `c`; a class never accepts the separator. */
  predicate CharMatches(a: Atom, c: char) {
    match a
      case Lit(d) => c == d
      case AnyChar => c != Separator
      case Class(negated, items) => c != Separator && InItems(items, c) != negated
      case _ => false
  }

  /**
   * Whether the pending atoms `front` of the current alternative, followed
   * by the tokens `rest`, match all of `s`.  A group is tried one
   * alternative at a time, each followed by the rest of the pattern.
   */
  predicate Match(front: seq<Atom>, rest: seq<Token>, s: string)
    decreases |rest|, |front|, |s|
  {
    if front == [] then
      if rest == [] then s == []
      else match rest[0]
        case One(a) => Match([a], rest[1..], s)
        case Group(alts) => exists i | 0 <= i < |alts| :: Match(alts[i], rest[1..], s)
    else match front[0]
      case Star =>
        Match(front[1..], rest, s) || (s != [] && s[0] != Separator && Match(front, rest, s[1..]))
      case DoubleStar =>
        Match(front[1..], rest, s) || (s != [] && !LineTerminator(s[0]) && Match(front, rest, s[1..]))
      case _ =>
        s != [] && CharMatches(front[0], s[0]) && Match(front[1..], rest, s[1..])
  }

  /** A compiled glob matches the whole of `s`, never a part of it. */
  predicate Matches(p: seq<Token>, s: string) {
    Match([], p, s)
  }

  // ---------------------------------------------------------------------
  // Compiling
  // ---------------------------------------------------------------------

  /** A parsed element and the glob text after it. */
  datatype Parsed<T> = Parsed(value: T, rest: string)

  /**
   * The items of a class after its opening part, up to and including `]`.
   * `start` says whether the last character read can begin a range, `last`
   * is that character.
   */
  function ClassItems(s: string, items: seq<ClassItem>, start: bool, last: char)
    : (r: Result<Parsed<seq<ClassItem>>, GlobError>)
    requires start ==> items != []
    ensures r.Success? ==> |r.value.rest| < |s|
    decreases |s|
  {
    if s == [] then Failure(MissingBracket)
    else if s[0] == ']' then Success(Parsed(items, s[1..]))
    else if s[0] == Separator then Failure(ExplicitSeparator)
    else if s[0] == '-' then
      if !start then Failure(InvalidRange)
      else if |s| == 1 then Failure(MissingBracket)
      else if s[1] == ']' then Success(Parsed(items + [Single('-')], s[2..]))
      else if s[1] < last then Failure(InvalidRange)
      else ClassItems(s[2..], items[..|items| - 1] + [Range(last, s[1])], false, last)
    else ClassItems(s[1..], items + [Single(s[0])], true, s[0])
  }

  /**
   * A class, `s` being the text after `[`: a leading `^` is an ordinary
   * member, a leading `!` negates, and a `-` right after the opening is an
   * ordinary member.
   */
  function ClassOf(s: string): (r: Result<Parsed<Atom>, GlobError>)
    ensures r.Success? ==> |r.value.rest| < |s|
  {
    var negated := s != [] && s[0] == '!';
    var t := if negated then s[1..] else s;
    var (first, u) :=
      if s != [] && s[0] == '^' then ([Single('^')], s[1..])
      else if t != [] && t[0] == '-' then ([Single('-')], t[1..])
      else ([], t);
    match ClassItems(u, first, false, 0 as char)
      case Failure(e) => Failure(e)
      case Success(Parsed(items, rest)) => Success(Parsed(Class(negated, items), rest))
  }

  /** The atom at the head of a non-empty glob that does not start a group. */
  function AtomOf(s: string): (r: Result<Parsed<Atom>, GlobError>)
    requires s != []
    ensures r.Success? ==> |r.value.rest| < |s|
  {
    if s[0] == '\\' then
      if |s| == 1 then Failure(NoEscapedChar) else Success(Parsed(Lit(s[1]), s[2..]))
    else if s[0] == '[' then
      match ClassOf(s[1..])
        case Failure(e) => Failure(e)
        case Success(Parsed(a, rest)) => Success(Parsed(a, rest))
    else if s[0] == '*' then
      if |s| > 1 && s[1] == '*' then Success(Parsed(DoubleStar, s[2..]))
      else Success(Parsed(Star, s[1..]))
    else if s[0] == '?' then Success(Parsed(AnyChar, s[1..]))
    else Success(Parsed(Lit(s[0]), s[1..]))
  }

  /**
   * The alternatives of a group, `s` being the text after `{`: `cur` is the
   * alternative being read, `alts` the finished ones.  `,` ends an
   * alternative, `}` the group.
   */
  function GroupOf(s: string, cur: seq<Atom>, alts: seq<seq<Atom>>)
    : (r: Result<Parsed<seq<seq<Atom>>>, GlobError>)
    ensures r.Success? ==> |r.value.rest| < |s|
    decreases |s|
  {
    if s == [] then Failure(MissingBrace)
    else if s[0] == '{' then Failure(NestedGroup)
    else if s[0] == '}' then Success(Parsed(alts + [cur], s[1..]))
    else if s[0] == ',' then GroupOf(s[1..], [], alts + [cur])
    else match AtomOf(s)
      case Failure(e) => Failure(e)
      case Success(Parsed(a, rest)) => GroupOf(rest, cur + [a], alts)
  }

  /**
   * globToRegex: the tokens of a glob, or the first syntax error from the
   * left.  Every token takes at least one character of the glob.
   */
  function Compile(s: string): (r: Result<seq<Token>, GlobError>)
    ensures r.Success? ==> |r.value| <= |s|
    ensures r.Success? ==> (r.value == [] <==> s == [])
    decreases |s|
  {
    if s == [] then Success([])
    else
      var head: Result<Parsed<Token>, GlobError> :=
        if s[0] == '{' then
          match GroupOf(s[1..], [], [])
            case Failure(e) => Failure(e)
            case Success(Parsed(alts, rest)) => Success(Parsed(Group(alts), rest))
        else if s[0] == '}' || s[0] == ',' then Success(Parsed(One(Lit(s[0])), s[1..]))
        else
          match AtomOf(s)
            case Failure(e) => Failure(e)
            case Success(Parsed(a, rest)) => Success(Parsed(One(a), rest));
      match head
        case Failure(e) => Failure(e)
        case Success(Parsed(t, rest)) =>
          match Compile(rest)
            case Failure(e) => Failure(e)
            case Success(ts) => Success([t] + ts)
  }

  /** Compiles `glob` and matches `s` against it. */
  function GlobMatches(glob: string, s: string): Result<bool, GlobError> {
    match Compile(glob)
      case Failure(e) => Failure(e)
      case Success(p) => Success(Matches(p, s))
  }
}
