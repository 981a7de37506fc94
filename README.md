# safs: a Dafny model of the Android storage-access file system

safs is a `java.nio.file` file system for Android. Besides the ordinary
files on a volume, it lets an application reach storage that it can only
write through the storage access framework. Those are the document trees
the user granted through `ACTION_OPEN_DOCUMENT_TREE`. This project models
the parts of it that decide things, and proves what they promise.

- **Unix paths** (`unix_path.dfy`, `unix_path_properties.dfy`). A path is
  a flag "absolute" plus its sequence of names. The model covers the
  following operations, with the behaviour the path tests of the
  repository pin down:
  - parsing with separator runs collapsed (`Paths.get` with one or several
    parts);
  - the canonical text;
  - name access (`getName`, `subpath`, iteration, `getFileName`,
    `getParent`);
  - `startsWith` and `endsWith` by whole names;
  - `resolve`, `normalize` and `relativize`.
- **Globs** (`glob.dfy`, `glob_properties.dfy`, `glob_examples.dfy`). The
  glob patterns of `FileSystem.getPathMatcher("glob:…")` are compiled to
  tokens (`*`, `**`, `?`, bracket classes, `{…}` groups, backslash
  escapes), or to a syntax error. Matching is anchored.
- **Open modes** (`provider_modes.dfy`). The provider turns open options
  into:
  - the `ParcelFileDescriptor` mode bits;
  - the content-resolver mode strings.

  The model also covers the option checks of the stream factories, the
  existence decisions taken before a plain file or a document is opened,
  and the mapping of `errno` values to exceptions.
- **Watch event kinds** (`watch_event_kinds.dfy`). This covers the inotify
  bit of every Android kind and the masks of the three standard kinds. It
  also covers `of(mask)` (an array filled from the highest bit down) and
  `mask(kinds…)` (an OR loop).
- **Watch service** (`watch_service.dfy`). Each watched path has a
  `PathObserver` holding its keys and their combined mask. A key turns an
  inotify event into the events of its kinds. The registry maps paths to
  their observers and drops an observer when its mask becomes zero.
- **Stat attributes** (`stat_attributes.dfy`). These are the basic file
  attributes read from one `stat` record: the type from the `S_IFMT` bits
  and the modification and access times, each cached on its first read.
- **The Android file system** (`android_file_system.dfy`). This covers:
  - tree URIs, and document URIs built from them;
  - `getPath(Uri)`;
  - the table of volumes that document URIs can name;
  - taking and releasing persistable permissions;
  - the permission trie, over name prefixes, built from the app-private
    `Android/data/<package>` directories and the persisted permissions;
  - `getTreeDocumentUri`;
  - the two caches and the broadcast that drops them.

Where the source changes state in place, the model is a class with the
same fields:
- `StatFileAttributes`;
- `WatchKey`, `PathObserver` and `ObserverRegistry`;
- `PermissionTrie` and `AndroidFileSystem`.

Each of their methods is proved against a specification function. Loops
stay loops: `of`, `mask`, `toMap`, the descents of the permission trie,
the lookup of `getTreeDocumentUri`, the two loops over keys in
`PathObserver`, and the event dispatch.

The path tests fix behaviour in three places where a plain reading of the
path API could go another way, and the model follows the tests:
- `Paths.get("/foo").getParent()` is `/` (UnixPathTests.java:138).
- `Paths.get(first, more…)` skips empty parts and puts a separator only
  after non-empty text (`Paths.get("", "")` is the empty path,
  UnixPathTests.java:142).
- `getName`, `subpath` and iteration treat `.` and `..` as ordinary names
  (UnixPathTests.java:34, 83-84).

In `normalize`, a `..` that has no name before it to cancel is kept, also
right after the root. No test covers `/..`.

## Model

| member | source | states |
|---|---|---|
| UnixPaths.Parse | safs-core/src/test/java/com/llamalab/safs/UnixPathTests.java:141-164 | every parsed path has the path shape (the empty path, or proper separator-free names); absolute exactly when the text starts with "/" |
| UnixPaths.Get | safs-core/src/test/java/com/llamalab/safs/UnixPathTests.java:141-164 | `Paths.get(first, more…)` always yields a well-shaped path |
| UnixPaths.GetName | safs-core/src/test/java/com/llamalab/safs/UnixPathTests.java:63-85 | succeeds exactly for 0 <= index < name count (IllegalArgument otherwise); the result is relative, has one name, and its text is that name |
| UnixPaths.Subpath | safs-core/src/test/java/com/llamalab/safs/UnixPathTests.java:47-61 | succeeds exactly for 0 <= begin < end <= name count; the result is relative with end-begin names, its i-th name the (begin+i)-th |
| UnixPaths.Names | safs-core/src/test/java/com/llamalab/safs/UnixPathTests.java:28-35 | iteration gives one relative path per name, the i-th equal to getName(i) |
| UnixPaths.FileName | safs-core/src/test/java/com/llamalab/safs/UnixPathTests.java:87-94 | absent exactly when there are no names; otherwise getName of the last index |
| UnixPaths.Parent | safs-core/src/test/java/com/llamalab/safs/UnixPathTests.java:130-139 | absent exactly for no names or a relative single name; otherwise same absoluteness, one name fewer, and the path starts with it |
| UnixPaths.Resolve | safs-core/src/test/java/com/llamalab/safs/UnixPathTests.java:166-173 | an absolute argument replaces the path, the empty path on either side gives the other; otherwise names are appended so that the result starts with the path and ends with the argument |
| UnixPaths.Normalize | safs-core/src/test/java/com/llamalab/safs/UnixPathTests.java:175-183 | keeps absoluteness and the path shape; the names have no "." and every ".." precedes every other name |
| UnixPaths.ReduceKeepsNormal | safs-core/src/test/java/com/llamalab/safs/UnixPathTests.java:175-183 | the left-to-right reduction keeps a normal name stack normal and keeps only proper names |
| UnixPaths.CommonPrefix | safs-core/src/test/java/com/llamalab/safs/UnixPathTests.java:185-200 | the longest common prefix: the prefixes agree and the next names differ |
| UnixPaths.Relativize | safs-core/src/test/java/com/llamalab/safs/UnixPathTests.java:185-200 | fails (IllegalArgument) exactly when one path is absolute and the other is not; the result is relative and well shaped |
| UnixPathProperties.ParseToString | safs-core/src/test/java/com/llamalab/safs/UnixPathTests.java:141-164 | parsing the text of any well-shaped path gives the path back |
| UnixPathProperties.ParseIdempotent | safs-core/src/test/java/com/llamalab/safs/UnixPathTests.java:141-164 | sanitizing a sanitized text changes nothing |
| UnixPathProperties.ToStringInjective | safs-core/src/test/java/com/llamalab/safs/UnixPathTests.java:141-164 | two well-shaped paths with the same text are equal |
| UnixPathProperties.ParseOf | safs-core/src/test/java/com/llamalab/safs/UnixPathTests.java:141-164 | a text equal to the canonical text of a path parses to that path |
| UnixPathProperties.JoinFromSegments | safs-core/src/test/java/com/llamalab/safs/UnixPathTests.java:149-163 | the names of the joined parts are the names of each part, in order |
| UnixPathProperties.JoinFromPrefix | safs-core/src/test/java/com/llamalab/safs/UnixPathTests.java:149-163 | joining further parts never changes the text already joined |
| UnixPathProperties.GetSanitizes | safs-core/src/test/java/com/llamalab/safs/UnixPathTests.java:141-164 | `Paths.get(first, more…)` has the names of all parts in order, and is absolute exactly when a non-empty first part starts with "/" |
| UnixPathProperties.SanitizeEmptyParts | safs-core/src/test/java/com/llamalab/safs/UnixPathTests.java:142-145 | ("",""), ("/",""), ("","/"), ("/","/") give "", "/", "/", "/" |
| UnixPathProperties.SanitizeRun | safs-core/src/test/java/com/llamalab/safs/UnixPathTests.java:163 | ("/", "////c") gives "/c" |
| UnixPathProperties.SanitizeSeparators | safs-core/src/test/java/com/llamalab/safs/UnixPathTests.java:146 | "//////" is the root |
| UnixPathProperties.SegmentsOfSeparators | safs-core/src/test/java/com/llamalab/safs/UnixPathTests.java:146 | a text made of separators only has no names |
| UnixPathProperties.SanitizeTrailing | safs-core/src/test/java/com/llamalab/safs/UnixPathTests.java:151 | ("/foo/", "/bar") gives "/foo/bar" |
| UnixPathProperties.GetTrailingLeading | safs-core/src/test/java/com/llamalab/safs/UnixPathTests.java:151 | for any names n and m, ("/n/", "/m") gives the absolute path n/m: the two separators that meet count as one |
| UnixPathProperties.SanitizeParts | safs-core/src/test/java/com/llamalab/safs/UnixPathTests.java:161 | ("a", "b", "c") gives "a/b/c" |
| UnixPathProperties.NameCountExamples | safs-core/src/test/java/com/llamalab/safs/UnixPathTests.java:37-45 | "" has one name and "/" none |
| UnixPathProperties.NamesRebuild | safs-core/src/test/java/com/llamalab/safs/UnixPathTests.java:28-35 | starting from the first iterated name and resolving each following one in turn gives the relative path of all the names |
| UnixPathProperties.ResolveFromNames | safs-core/src/test/java/com/llamalab/safs/UnixPathTests.java:28-35 | resolving single-name paths one after another onto a relative path appends those names in order |
| UnixPathProperties.GetNameIsSubpath | safs-core/src/test/java/com/llamalab/safs/UnixPathTests.java:47-85 | getName(i) is subpath(i, i+1), for every i, including the failing ones |
| UnixPathProperties.SubpathSplit | safs-core/src/test/java/com/llamalab/safs/UnixPathTests.java:47-61 | subpath(b,k) resolved with subpath(k,e) is subpath(b,e) |
| UnixPathProperties.ParentResolve | safs-core/src/test/java/com/llamalab/safs/UnixPathTests.java:87-139 | a path with a parent is its parent resolved with its file name |
| UnixPathProperties.FileNameParentExamples | safs-core/src/test/java/com/llamalab/safs/UnixPathTests.java:130-139 | "/" has no file name and "" its own; "", "/" and "foo" have no parent; "/foo" has parent "/" and "/foo/bar" has "/foo" |
| UnixPathProperties.GetNameSubpathExamples | safs-core/src/test/java/com/llamalab/safs/UnixPathTests.java:47-85 | "/".getName(0), "bar".getName(1) and "/".subpath(0,1) fail; "".subpath(0,1) is ""; getName(1) of "/Test/../Test" is ".."; "/a/b/c".subpath(1,3) is "b/c" |
| UnixPathProperties.ParseDotDotExample | safs-core/src/test/java/com/llamalab/safs/UnixPathTests.java:34 | "/Test/../Test" keeps its three names |
| UnixPathProperties.StartsWithEmpty | safs-core/src/test/java/com/llamalab/safs/UnixPathTests.java:97-108 | a well-shaped path starts with the empty path exactly when it is the empty path |
| UnixPathProperties.StartsWithRest | safs-core/src/test/java/com/llamalab/safs/UnixPathTests.java:96-109 | a path that starts with q is q resolved with the rest of its names |
| UnixPathProperties.EndsWithSubpath | safs-core/src/test/java/com/llamalab/safs/UnixPathTests.java:111-128 | a path that ends with a relative q has q as its last subpath |
| UnixPathProperties.StartsWithAntisymmetric | safs-core/src/test/java/com/llamalab/safs/UnixPathTests.java:96-109 | paths that start with each other are equal |
| UnixPathProperties.StartsWithExamples | safs-core/src/test/java/com/llamalab/safs/UnixPathTests.java:96-109 | the test's cases: whole names only, absoluteness must agree, and "foo/bar" does not start with "" |
| UnixPathProperties.EndsWithExamples | safs-core/src/test/java/com/llamalab/safs/UnixPathTests.java:111-128 | the test's cases: "foo/.." ends with ".."; "foo.." and "foo/bar" do not end with ".." and "ar"; an absolute argument must be the whole path |
| UnixPathProperties.ResolveExamples | safs-core/src/test/java/com/llamalab/safs/UnixPathTests.java:166-173 | the test's resolutions of "" and "/" with "", "/", "foo", "/foo" |
| UnixPathProperties.NormalizeIdempotent | safs-core/src/test/java/com/llamalab/safs/UnixPathTests.java:175-183 | normalizing twice is normalizing once |
| UnixPathProperties.NormalizeCancels | safs-core/src/test/java/com/llamalab/safs/UnixPathTests.java:177-178 | a plain name followed by ".." vanishes, whatever names precede it |
| UnixPathProperties.NormalizeDropsDot | safs-core/src/test/java/com/llamalab/safs/UnixPathTests.java:176-177 | a "." anywhere changes nothing |
| UnixPathProperties.NormalizeExamples | safs-core/src/test/java/com/llamalab/safs/UnixPathTests.java:176-182 | "/" stays "/", "a/./b" becomes "a/b" and "." becomes "" |
| UnixPathProperties.NormalizeDotDotExamples | safs-core/src/test/java/com/llamalab/safs/UnixPathTests.java:178-179 | "a/b/.." becomes "a" and "a/.." becomes "" |
| UnixPathProperties.NormalizeLeadingDotDotExamples | safs-core/src/test/java/com/llamalab/safs/UnixPathTests.java:180-181 | ".." stays ".." and "../a/b/.." becomes "../a" |
| UnixPathProperties.RelativizeSelf | safs-core/src/test/java/com/llamalab/safs/UnixPathTests.java:185-200 | a path relativized against itself is the empty path |
| UnixPathProperties.RelativeNamesUndo | safs-core/src/test/java/com/llamalab/safs/UnixPathTests.java:185-200 | reducing normal names a followed by relativize's names gives the normal names b |
| UnixPathProperties.RelativizeResolve | safs-core/src/test/java/com/llamalab/safs/UnixPathTests.java:185-200 | p.normalize().resolve(p.relativize(q)) normalizes to q.normalize() |
| UnixPaths.RelativeNamesAreNames | safs-core/src/test/java/com/llamalab/safs/UnixPathTests.java:185-200 | the names relativize produces are proper names whenever the target's names are |
| UnixPathProperties.RelativizeDescendantExample | safs-core/src/test/java/com/llamalab/safs/UnixPathTests.java:186 | "/a/b" against "/a/b/c/d" gives "c/d" |
| UnixPathProperties.RelativizeSiblingExample | safs-core/src/test/java/com/llamalab/safs/UnixPathTests.java:187 | "/a/b" against "/a/x" gives "../x" |
| UnixPathProperties.RelativizeNormalizedExample | safs-core/src/test/java/com/llamalab/safs/UnixPathTests.java:188 | "/a/b/c/../.." against "/a/b/c/d" gives "b/c/d" |
| UnixPathProperties.RelativizeUpsExample | safs-core/src/test/java/com/llamalab/safs/UnixPathTests.java:197 | "a" against "a/../.." gives "../.." |
| UnixPathProperties.RelativizeParentExamples | safs-core/src/test/java/com/llamalab/safs/UnixPathTests.java:190-199 | "/a/b" against "/a" gives ".."; "./." against "." and "/" against "/." give ""; "/" against "a" fails |
| GlobProperties.LitsMatch | safs-core/src/test/java/com/llamalab/safs/MiscTests.java:58-60 | a literal pattern matches exactly its own text (anchored) |
| GlobProperties.LitsPrefixMatch | safs-core/src/test/java/com/llamalab/safs/MiscTests.java:58-69 | literal tokens followed by others match exactly a text that starts with the literal, the rest matching the others |
| GlobProperties.StarSpan | safs-core/src/test/java/com/llamalab/safs/MiscTests.java:62-69 | "*" consumes some prefix without "/" |
| GlobProperties.DoubleStarSpan | safs-core/src/test/java/com/llamalab/safs/MiscTests.java:81-85 | "**" consumes exactly the prefixes without a line terminator, "/" included |
| GlobProperties.StarAlone | safs-core/src/test/java/com/llamalab/safs/MiscTests.java:62-69 | "*" matches exactly the texts without "/" (any characters, bidi controls included) |
| GlobProperties.DoubleStarAlone | safs-core/src/test/java/com/llamalab/safs/MiscTests.java:81-85 | "**" matches exactly the texts without a line terminator ("\n", "\r", U+0085, U+2028, U+2029), "/" included |
| GlobProperties.AnyCharAlone | safs-core/src/test/java/com/llamalab/safs/MiscTests.java:71-79 | "?" matches exactly one character other than "/" |
| GlobProperties.ClassRejectsSeparator | safs-core/src/test/java/com/llamalab/safs/MiscTests.java:101-107 | a bracket class, negated or not, never matches "/" |
| GlobProperties.EscapeCompiles | safs-core/src/test/java/com/llamalab/safs/MiscTests.java:109-115 | a text with every character backslash-escaped compiles to that text's literals |
| GlobProperties.EscapeMatches | safs-core/src/test/java/com/llamalab/safs/MiscTests.java:109-115 | an all-escaped pattern matches exactly the unescaped text |
| GlobProperties.PlainCompiles | safs-core/src/test/java/com/llamalab/safs/MiscTests.java:58-60 | a text without special characters compiles to its literals |
| GlobProperties.PlainMatches | safs-core/src/test/java/com/llamalab/safs/MiscTests.java:58-60 | a text without special characters, as a pattern, matches exactly itself |
| GlobProperties.PlainGroupText | safs-core/src/test/java/com/llamalab/safs/MiscTests.java:87-99 | plain text inside a group is appended to the current alternative |
| Globs.Compile | safs-core/src/test/java/com/llamalab/safs/MiscTests.java:133-137 | a glob that compiles has at most one token per character, and none exactly when it is empty |
| GlobProperties.CompileConcat | safs-core/src/test/java/com/llamalab/safs/MiscTests.java:117-131 | after any glob that compiles, the rest compiles as it would alone and its tokens follow, or its error is the error of the whole glob |
| GlobProperties.TrailingBackslash | safs-core/src/test/java/com/llamalab/safs/MiscTests.java:117-131 | any glob that compiles, followed by a lone backslash, is NoEscapedChar |
| GlobProperties.InvertedRange | safs-core/src/test/java/com/llamalab/safs/MiscTests.java:124-130 | any glob that compiles, followed by a class opening with a range hi < lo, is InvalidRange |
| GlobProperties.NestedGroupRefused | safs-core/src/test/java/com/llamalab/safs/MiscTests.java:117-123 | any glob that compiles, followed by a group whose open text meets a second "{", is NestedGroup |
| GlobProperties.UnclosedGroup | safs-core/src/test/java/com/llamalab/safs/MiscTests.java:117-131 | any glob that compiles, followed by a "{" never closed, is MissingBrace |
| GlobProperties.UnclosedClass | safs-core/src/test/java/com/llamalab/safs/MiscTests.java:117-131 | any glob that compiles, followed by a "[" never closed, is MissingBracket |
| GlobProperties.SeparatorInClass | safs-core/src/test/java/com/llamalab/safs/MiscTests.java:117-131 | any glob that compiles, followed by a class holding "/", is ExplicitSeparator |
| GlobExamples.StarExamples | safs-core/src/test/java/com/llamalab/safs/MiscTests.java:66-67 | "f*r" matches "foobar"; "f*b" does not |
| GlobExamples.StarShapeMatch | safs-core/src/test/java/com/llamalab/safs/MiscTests.java:62-69 | p*q matches s exactly when s is p, a run without "/", then q |
| GlobExamples.StarGlobMatch | safs-core/src/test/java/com/llamalab/safs/MiscTests.java:62-69 | for plain p and q, the glob p*q compiles and matches s exactly when s is p, a run without "/", then q |
| GlobExamples.DoubleStarShapeMatch | safs-core/src/test/java/com/llamalab/safs/MiscTests.java:81-85 | p**q matches s exactly when s is p, a run without a line terminator ("/" allowed), then q |
| GlobExamples.DoubleStarGlobMatch | safs-core/src/test/java/com/llamalab/safs/MiscTests.java:81-85 | for plain p and q, the glob p**q compiles and matches s exactly when s is p, a run without a line terminator, then q |
| GlobExamples.DoubleStarSeparatorExample | safs-core/src/test/java/com/llamalab/safs/MiscTests.java:84 | "foo/**/bax" matches "foo/bar/baz/bax" |
| GlobExamples.StarSeparatorExample | safs-core/src/test/java/com/llamalab/safs/MiscTests.java:85 | "foo/*/bax" does not match "foo/bar/baz/bax" |
| GlobExamples.DoubleStarLineBreakExample | safs-core/src/test/java/com/llamalab/safs/MiscTests.java:133-137 | "**" does not match "a\nb": the pattern is compiled with no flags, so not DOTALL |
| GlobExamples.LitGroupMatch | safs-core/src/test/java/com/llamalab/safs/MiscTests.java:87-99 | a group of two literals matches exactly either literal |
| GlobExamples.StarGroupShapeMatch | safs-core/src/test/java/com/llamalab/safs/MiscTests.java:89-99 | "*d{a,b}" matches a run without "/" followed by d+a or d+b |
| GlobExamples.GroupMatchExample | safs-core/src/test/java/com/llamalab/safs/MiscTests.java:98 | "*.{java,class}" matches "foo.class" |
| GlobExamples.GroupMismatchExample | safs-core/src/test/java/com/llamalab/safs/MiscTests.java:99 | "*.{java,class}" does not match "foo.bar" |
| GlobExamples.NestedGroupExample | safs-core/src/test/java/com/llamalab/safs/MiscTests.java:117-123 | "{foo,bar{baz}}" is a syntax error (nested group) |
| GlobExamples.InvertedRangeExample | safs-core/src/test/java/com/llamalab/safs/MiscTests.java:124-130 | "[z-a]" is a syntax error (invalid range) |
| GlobExamples.ClassShapeMatch | safs-core/src/test/java/com/llamalab/safs/MiscTests.java:101-107 | a class followed by literals matches c+q exactly when the class accepts c |
| GlobExamples.RangeGlobMatch | safs-core/src/test/java/com/llamalab/safs/MiscTests.java:101-105 | "[lo-hi]q" matches c+q exactly when c is not "/" and lies in lo..hi; "[!lo-hi]q" exactly when it lies outside |
| GlobExamples.DashGlobMatch | safs-core/src/test/java/com/llamalab/safs/MiscTests.java:106-107 | "[-]q" matches c+q exactly when c is "-"; "[!-]q" exactly when c is neither "-" nor "/" |
| GlobExamples.NegatedRangeExample | safs-core/src/test/java/com/llamalab/safs/MiscTests.java:104 | "[!a-y]oo" matches "zoo" |
| GlobExamples.RangeExample | safs-core/src/test/java/com/llamalab/safs/MiscTests.java:105 | "[a-y]oo" matches "xoo" |
| GlobExamples.DashExample | safs-core/src/test/java/com/llamalab/safs/MiscTests.java:106 | "[-]oo" matches "-oo" |
| GlobExamples.NegatedDashExample | safs-core/src/test/java/com/llamalab/safs/MiscTests.java:107 | "[!-]oo" does not match "-oo" |
| GlobExamples.EscapeExamples | safs-core/src/test/java/com/llamalab/safs/MiscTests.java:109-115 | "b\\*z" matches "b*z" and not "baz"; "b\\z" matches "bz"; "b\\\\z" matches "b\\z" |
| ProviderModes.ToModeFlags | safs-android/src/main/java/com/llamalab/safs/android/AndroidFileSystemProvider.java:516-531 | read-only without WRITE; with WRITE: write-only or read-write by READ, CREATE bit iff CREATE or CREATE_NEW, APPEND bit iff APPEND, TRUNCATE bit iff TRUNCATE_EXISTING |
| ProviderModes.ToModeString | safs-android/src/main/java/com/llamalab/safs/android/AndroidFileSystemProvider.java:533-549 | one of r, w, wt, wa, rw, rwt; IllegalArgument exactly for READ+WRITE+APPEND without TRUNCATE_EXISTING |
| ProviderModes.ModeStringAgreesWithFlags | safs-android/src/main/java/com/llamalab/safs/android/AndroidFileSystemProvider.java:516-549 | the mode string and the mode bits agree on read, write, truncate and append |
| ProviderModes.ModeFlagsDistinguish | safs-android/src/main/java/com/llamalab/safs/android/AndroidFileSystemProvider.java:516-531 | for writing option sets, equal mode bits means equal READ, creation, APPEND and TRUNCATE_EXISTING choices |
| ProviderModes.InputStreamOptions | safs-android/src/main/java/com/llamalab/safs/android/AndroidFileSystemProvider.java:418-422 | an input stream refuses WRITE (IllegalArgument) and otherwise opens read-only |
| ProviderModes.OutputStreamOptions | safs-android/src/main/java/com/llamalab/safs/android/AndroidFileSystemProvider.java:431-435 | an output stream requires WRITE (IllegalArgument otherwise) and never opens read-only |
| ProviderModes.NewInputStreamOptions | safs-android/src/main/java/com/llamalab/safs/android/AndroidFileSystemProvider.java:412-416 | no options means READ; WRITE among the options is IllegalArgument; any accepted set opens read-only |
| ProviderModes.NewOutputStreamOptions | safs-android/src/main/java/com/llamalab/safs/android/AndroidFileSystemProvider.java:425-429 | no options means CREATE, TRUNCATE_EXISTING, WRITE, which opens write-only, creating and truncating; options without WRITE are IllegalArgument |
| ProviderModes.OpenFile | safs-android/src/main/java/com/llamalab/safs/android/AndroidFileSystemProvider.java:508-514 | FileAlreadyExists exactly for WRITE+CREATE_NEW on an existing file; otherwise the mode bits |
| ProviderModes.DocumentOpenAsWritten | safs-android/src/main/java/com/llamalab/safs/android/AndroidFileSystemProvider.java:469-489 | the document decision as written: CREATE_NEW on an existing document is refused, a missing one needs CREATE/CREATE_NEW, and no outcome is IllegalArgument |
| ProviderModes.DocumentOpenDecision | safs-android/src/main/java/com/llamalab/safs/android/AndroidFileSystemProvider.java:469-489 | the decision with the unsupported mode reported as IllegalArgument, exactly when the mode string is refused; documents open with the mode string, a missing document without a covered parent opens as a plain file with the CREATE bit |
| ProviderModes.DocumentOpenDiscrepancy | safs-android/src/main/java/com/llamalab/safs/android/AndroidFileSystemProvider.java:483-489 | the two decisions differ exactly where the corrected one is IllegalArgument; {READ, WRITE, APPEND} on an existing document reports NoSuchFile as written |
| ProviderModes.ErrnoException | safs-android/src/main/java/com/llamalab/safs/android/AndroidFileSystemProvider.java:730-737 | ENOENT is NoSuchFile, EACCES is AccessDenied, anything else a plain I/O error carrying the errno |
| WatchEventKinds.Index | safs-android/src/main/java/com/llamalab/safs/android/AndroidWatchEventKinds.java:101-104 | every Android kind sits in the kinds table at its own index |
| WatchEventKinds.Mask | safs-android/src/main/java/com/llamalab/safs/android/AndroidWatchEventKinds.java:125-135 | the mask of any kind lies within ALL_MASK |
| WatchEventKinds.MaskIsBit | safs-android/src/main/java/com/llamalab/safs/android/AndroidWatchEventKinds.java:125-135 | an Android kind's mask is the single bit of its table index |
| WatchEventKinds.KindsOfCount | safs-android/src/main/java/com/llamalab/safs/android/AndroidWatchEventKinds.java:111-120 | `of(mask)` has as many kinds as bits of mask & ALL_MASK |
| WatchEventKinds.KindsOfSpec | safs-android/src/main/java/com/llamalab/safs/android/AndroidWatchEventKinds.java:111-120 | `of(mask)` holds exactly the Android kinds whose bit is set, in ascending bit order |
| WatchEventKinds.Of | safs-android/src/main/java/com/llamalab/safs/android/AndroidWatchEventKinds.java:111-120 | the array filled from the highest bit down is the kinds of the mask, sized by the bit count |
| WatchEventKinds.OfExample | safs-android/src/main/java/com/llamalab/safs/android/AndroidWatchEventKinds.java:92-120 | the unused bit 0x1000 is dropped and 0x2000 is UNMOUNT |
| WatchEventKinds.MaskOfConcat | safs-android/src/main/java/com/llamalab/safs/android/AndroidWatchEventKinds.java:140-145 | the mask of concatenated kinds is the OR of the masks |
| WatchEventKinds.MaskAll | safs-android/src/main/java/com/llamalab/safs/android/AndroidWatchEventKinds.java:140-145 | the OR loop over an array gives the mask of its kinds |
| WatchEventKinds.MaskOfCovers | safs-android/src/main/java/com/llamalab/safs/android/AndroidWatchEventKinds.java:140-145 | the combined mask covers every kind's mask |
| WatchEventKinds.MaskOfLeast | safs-android/src/main/java/com/llamalab/safs/android/AndroidWatchEventKinds.java:140-145 | any mask covering every kind's mask covers the combined mask |
| WatchEventKinds.MaskOfSet | safs-android/src/main/java/com/llamalab/safs/android/AndroidWatchEventKinds.java:140-145 | the combined mask depends only on which kinds occur, not order or repetition |
| WatchEventKinds.MaskOfKindsOf | safs-android/src/main/java/com/llamalab/safs/android/AndroidWatchEventKinds.java:99-145 | the mask of `of(m)` is m & ALL_MASK |
| WatchService.KindEvents | safs-android/src/main/java/com/llamalab/safs/android/AndroidWatchService.java:199-204 | a kind contributes at most one event |
| WatchService.Matching | safs-android/src/main/java/com/llamalab/safs/android/AndroidWatchService.java:198-205 | at most one event per registered kind |
| WatchService.MatchingKinds | safs-android/src/main/java/com/llamalab/safs/android/AndroidWatchService.java:198-205 | a kind is signalled exactly when it is registered and its mask meets the event |
| WatchService.MatchingContext | safs-android/src/main/java/com/llamalab/safs/android/AndroidWatchService.java:201-204 | an event carries the entry's name exactly when its kind is about an entry and a name was given |
| WatchService.SignalsSpec | safs-android/src/main/java/com/llamalab/safs/android/AndroidWatchService.java:194-208 | OVERFLOW exactly for a queue overflow that meets no bit of the key; any other kind exactly when the key's mask meets the event, the kind is registered and its mask meets the event |
| WatchService.NewWatchKey | safs-android/src/main/java/com/llamalab/safs/android/AndroidWatchService.java:173-180 | kinds with a zero mask are refused (IllegalArgument); otherwise a fresh key with the combined mask, no events yet |
| WatchService.WatchKey.OnEvent | safs-android/src/main/java/com/llamalab/safs/android/AndroidWatchService.java:194-208 | the key's queue grows by exactly the signals of the event; the mask is unchanged |
| WatchService.Without | safs-android/src/main/java/com/llamalab/safs/android/AndroidWatchService.java:109-119 | the kept keys are exactly the keys other than the cancelled one |
| WatchService.WithoutService | safs-android/src/main/java/com/llamalab/safs/android/AndroidWatchService.java:121-131 | the kept keys are exactly the keys of other services |
| WatchService.KeepOthers | safs-android/src/main/java/com/llamalab/safs/android/AndroidWatchService.java:110-117 | the scan keeps, in order, exactly the keys other than the cancelled one, and its mask is the OR of the kept keys' masks |
| WatchService.KeepOtherServices | safs-android/src/main/java/com/llamalab/safs/android/AndroidWatchService.java:122-129 | the scan keeps, in order, exactly the keys of other services, and its mask is the OR of the kept keys' masks |
| WatchService.KeysMaskAppend | safs-android/src/main/java/com/llamalab/safs/android/AndroidWatchService.java:104-107 | adding a key ORs its mask into the combined mask |
| WatchService.PathObserver.Listen | safs-android/src/main/java/com/llamalab/safs/android/AndroidWatchService.java:133-164 | listening iff the new mask is non-zero; a new observer is started exactly when the mask is non-zero and changed; the keys are untouched |
| WatchService.PathObserver.Register | safs-android/src/main/java/com/llamalab/safs/android/AndroidWatchService.java:104-107 | the key is appended; the mask and the OR of the keys' masks both grow by the key's mask, so an observer whose mask was the OR of its keys' masks still is; the platform observer is running afterwards and restarts only if the mask changed |
| WatchService.PathObserver.Cancel | safs-android/src/main/java/com/llamalab/safs/android/AndroidWatchService.java:109-119 | the key is removed, the mask becomes the OR of the remaining keys, and the result says whether any bit is left |
| WatchService.PathObserver.CancelService | safs-android/src/main/java/com/llamalab/safs/android/AndroidWatchService.java:121-131 | the service's keys are removed, the mask becomes the OR of the remaining keys, and the result says whether any bit is left |
| WatchService.PathObserver.Dispatch | safs-android/src/main/java/com/llamalab/safs/android/AndroidWatchService.java:145-150 | every key of the observer receives exactly the signals of the event |
| WatchService.ObserverRegistry.Register | safs-android/src/main/java/com/llamalab/safs/android/AndroidWatchService.java:58-71 | ProviderMismatch, then NoSuchFile, then IllegalArgument, in that order, with no change to any observer; otherwise the new key is added to the path's observer, created if absent, and every other observer is left as it was |
| WatchService.ObserverRegistry.AddKey | safs-android/src/main/java/com/llamalab/safs/android/AndroidWatchService.java:63-68 | the path's observer (new or existing) gets the key appended and its mask ORed (a new observer's mask is the key's); every other observer is the same object with its keys, mask and platform observer unchanged; every observer in the map keeps running |
| WatchService.ObserverRegistry.RegisterAt | safs-android/src/main/java/com/llamalab/safs/android/AndroidWatchService.java:65-68 | an existing observer gets the key appended and its mask ORed; the map still holds only running observers of their own paths |
| WatchService.ObserverRegistry.CancelKey | safs-android/src/main/java/com/llamalab/safs/android/AndroidWatchService.java:73-80 | the key becomes invalid; its observer loses it, its new mask is the OR of the remaining keys' masks, and it is dropped exactly when no bit is left; every other observer is unchanged |
| WatchService.ObserverRegistry.CloseService | safs-android/src/main/java/com/llamalab/safs/android/AndroidWatchService.java:82-90 | every observer loses the service's keys, its new mask is the OR of the masks of the keys it keeps, and it is dropped exactly when its platform observer stopped (that mask is zero); the observers kept are the same objects |
| WatchService.ObserverRegistry.CancelServiceAt | safs-android/src/main/java/com/llamalab/safs/android/AndroidWatchService.java:84-88 | one step of the close loop: the observer at p loses the service's keys and takes the OR of the kept keys' masks, and leaves the map exactly when its platform observer stopped; every other observer's keys, mask and platform observer are unchanged |
| StatAttributes.Format | safs-android/src/main/java/com/llamalab/safs/android/StatBasicFileAttributes.java:51-58 | the type bits lie within S_IFMT and agree with the mode on S_IFMT |
| StatAttributes.StatFileAttributes.LastModifiedTime | safs-android/src/main/java/com/llamalab/safs/android/StatBasicFileAttributes.java:80-85 | the modification time is st_mtime in seconds, cached after the first call; the access cache is untouched |
| StatAttributes.StatFileAttributes.LastAccessTime | safs-android/src/main/java/com/llamalab/safs/android/StatBasicFileAttributes.java:87-92 | the access time is st_atime in seconds, cached after the first call; the modification cache is untouched |
| StatAttributes.ExactlyOneType | safs-android/src/main/java/com/llamalab/safs/android/StatBasicFileAttributes.java:46-68 | every file is exactly one of directory, regular file, symbolic link, other; "other" is none of the three |
| StatAttributes.RepeatedReads | safs-android/src/main/java/com/llamalab/safs/android/StatBasicFileAttributes.java:75-92 | repeated reads of the cached times agree, and the creation time is zero |
| AndroidFileSystems.TreeUri | safs-android/src/main/java/com/llamalab/safs/android/AndroidFileSystem.java:407-414 | a built tree URI passes isTreeUri and carries its id |
| AndroidFileSystems.Colon | safs-android/src/main/java/com/llamalab/safs/android/AndroidFileSystem.java:358-359 | indexOf(':'): absent iff no colon, else the first colon |
| AndroidFileSystems.GetPath | safs-android/src/main/java/com/llamalab/safs/android/AndroidFileSystem.java:352-377 | not a documents-provider tree URI is NotDocumentUri; success only for 2 segments, or 4 with "document"; FileStoreNotFound names the unknown uuid |
| AndroidFileSystems.DocumentUri | safs-android/src/main/java/com/llamalab/safs/android/AndroidFileSystem.java:400-404 | the tree URI with "document" and one more segment appended |
| AndroidFileSystems.GetPathOfTree | safs-android/src/main/java/com/llamalab/safs/android/AndroidFileSystem.java:352-366 | a tree URI "uuid:rel" names rel under the volume's path, or FileStoreNotFound(uuid) for an unknown volume |
| AndroidFileSystems.GetPathOfDocument | safs-android/src/main/java/com/llamalab/safs/android/AndroidFileSystem.java:367-372 | a document URI "name:rel" with the volume's own name names rel under the volume's path |
| AndroidFileSystems.GetPathOtherName | safs-android/src/main/java/com/llamalab/safs/android/AndroidFileSystem.java:367-376 | a document URI whose name is not the volume's is NotDocumentUri |
| AndroidFileSystems.PersistableFlags | safs-android/src/main/java/com/llamalab/safs/android/AndroidFileSystem.java:190-198 | NotDocumentUri for a non-tree URI; IllegalArgument unless READ, WRITE and PERSISTABLE are all set; else the READ+WRITE flags passed on |
| AndroidFileSystems.PersistableFlagsIgnoreOthers | safs-android/src/main/java/com/llamalab/safs/android/AndroidFileSystem.java:193 | flags outside READ, WRITE and PERSISTABLE change nothing |
| AndroidFileSystems.StoreKey | safs-android/src/main/java/com/llamalab/safs/android/AndroidFileSystem.java:268-278 | a volume is filed under its uuid, or under "primary" when it has none and is primary, or not at all |
| AndroidFileSystems.ToMap | safs-android/src/main/java/com/llamalab/safs/android/AndroidFileSystem.java:268-278 | the put loop builds the document table of the volumes |
| AndroidFileSystems.DocumentStoresSpec | safs-android/src/main/java/com/llamalab/safs/android/AndroidFileSystem.java:268-278 | a key is in the table exactly when some volume is filed under it, and it maps to the last such volume |
| AndroidFileSystems.DocumentStoresFiles | safs-android/src/main/java/com/llamalab/safs/android/AndroidFileSystem.java:268-278 | every volume with a key is reachable; a non-primary volume without uuid is not in the table |
| AndroidFileSystems.PersistedPathIsGetPath | safs-android/src/main/java/com/llamalab/safs/android/AndroidFileSystem.java:320-330 | a persisted permission is filed exactly at the path getPath gives for its tree URI |
| AndroidFileSystems.Classify | safs-android/src/main/java/com/llamalab/safs/android/AndroidFileSystem.java:305-316 | the descent's classification: existing iff the prefix has a node, file iff it is the last position |
| AndroidFileSystems.Marked | safs-android/src/main/java/com/llamalab/safs/android/AndroidFileSystem.java:313-314 | marking an existing node sets only the unprotected flag or only the permission |
| AndroidFileSystems.Descended | safs-android/src/main/java/com/llamalab/safs/android/AndroidFileSystem.java:305-316 | a descent keeps every node and leaves a node at every prefix it passed |
| AndroidFileSystems.DescendedKeeps | safs-android/src/main/java/com/llamalab/safs/android/AndroidFileSystem.java:305-316 | a descent changes no existing node except the one at the full path |
| AndroidFileSystems.DescendedIntermediate | safs-android/src/main/java/com/llamalab/safs/android/AndroidFileSystem.java:307-309 | a missing directory gets a node for its path, with the descent's volume, no permission, not unprotected |
| AndroidFileSystems.DescendedLast | safs-android/src/main/java/com/llamalab/safs/android/AndroidFileSystem.java:310-315 | the last node is a new node with the mark, or the existing node with the mark applied |
| AndroidFileSystems.GrantedWellFormed | safs-android/src/main/java/com/llamalab/safs/android/AndroidFileSystem.java:301-316 | a descent keeps the trie well formed: the root node is the root directory, and every other node has its parent and a volume |
| AndroidFileSystems.ShortestGrant | safs-android/src/main/java/com/llamalab/safs/android/AndroidFileSystem.java:384-394 | the first read-write grant along the path, and none before it (or none at all) |
| AndroidFileSystems.GrantedKeepsUnprotected | safs-android/src/main/java/com/llamalab/safs/android/AndroidFileSystem.java:310-315 | no descent clears the unprotected flag |
| AndroidFileSystems.UnprotectedHides | safs-android/src/main/java/com/llamalab/safs/android/AndroidFileSystem.java:389-390 | after a directory is marked unprotected, no path inside it has a document URI |
| AndroidFileSystems.GrantFound | safs-android/src/main/java/com/llamalab/safs/android/AndroidFileSystem.java:379-405 | after a read-write grant on a path with no earlier grant, the path's document URI comes from that grant's tree URI, relative to the owning volume |
| AndroidFileSystems.DocumentUriRoundTrip | safs-android/src/main/java/com/llamalab/safs/android/AndroidFileSystem.java:352-405 | getPath of the document URI made for a path gives the volume path resolved with the relative part, which normalizes to the path |
| AndroidFileSystems.PermissionTrie.Grant | safs-android/src/main/java/com/llamalab/safs/android/AndroidFileSystem.java:305-316 | the descent loop leaves exactly the specified trie and keeps it well formed |
| AndroidFileSystems.PermissionTrie.TreeDocumentUri | safs-android/src/main/java/com/llamalab/safs/android/AndroidFileSystem.java:379-405 | the loop with its early return and `shortest` gives exactly the specified lookup |
| AndroidFileSystems.PermissionTrie.Lookup | safs-android/src/main/java/com/llamalab/safs/android/AndroidFileSystem.java:383-398 | the descent reports an app-private directory on the path exactly when there is one, and otherwise keeps the shortest read-write grant |
| AndroidFileSystems.PermissionTrie.GrantPrivateDirectories | safs-android/src/main/java/com/llamalab/safs/android/AndroidFileSystem.java:302-318 | each volume's private directory is descended once, in some order of the table's volumes |
| AndroidFileSystems.PermissionTrie.GrantPersisted | safs-android/src/main/java/com/llamalab/safs/android/AndroidFileSystem.java:319-348 | each persisted tree permission naming a known volume is granted at its path, in order |
| AndroidFileSystems.PermissionTrie.GrantPermission | safs-android/src/main/java/com/llamalab/safs/android/AndroidFileSystem.java:321-346 | one persisted permission is granted at the path its tree URI names, or skipped when it names no known volume, keeping the trie well formed |
| AndroidFileSystems.PrivateGrants | safs-android/src/main/java/com/llamalab/safs/android/AndroidFileSystem.java:302-318 | granting the private directories keeps every node |
| AndroidFileSystems.PermissionGrants | safs-android/src/main/java/com/llamalab/safs/android/AndroidFileSystem.java:319-348 | granting the persisted permissions keeps every node |
| AndroidFileSystems.PrivateGrantsWellFormed | safs-android/src/main/java/com/llamalab/safs/android/AndroidFileSystem.java:302-318 | the private-directory loop keeps the trie well formed |
| AndroidFileSystems.PermissionGrantsWellFormed | safs-android/src/main/java/com/llamalab/safs/android/AndroidFileSystem.java:319-348 | the persisted-permission loop keeps the trie well formed |
| AndroidFileSystems.LoadedWellFormed | safs-android/src/main/java/com/llamalab/safs/android/AndroidFileSystem.java:299-350 | the loaded trie is well formed |
| AndroidFileSystems.PrivateGrantsKeepUnprotected | safs-android/src/main/java/com/llamalab/safs/android/AndroidFileSystem.java:302-318 | later private directories never clear an unprotected flag |
| AndroidFileSystems.PermissionGrantsKeepUnprotected | safs-android/src/main/java/com/llamalab/safs/android/AndroidFileSystem.java:319-348 | persisted permissions never clear an unprotected flag |
| AndroidFileSystems.PrivateGrantsMark | safs-android/src/main/java/com/llamalab/safs/android/AndroidFileSystem.java:302-318 | every volume's private directory ends up marked unprotected |
| AndroidFileSystems.PrivateDirectoriesHidden | safs-android/src/main/java/com/llamalab/safs/android/AndroidFileSystem.java:299-405 | no path inside an app-private directory has a document URI, whatever permissions are persisted |
| AndroidFileSystems.LoadUriPermissions | safs-android/src/main/java/com/llamalab/safs/android/AndroidFileSystem.java:299-350 | a fresh well-formed trie: private directories in some order of the volumes, then the persisted permissions |
| AndroidFileSystems.AndroidFileSystem.TakePersistableUriPermission | safs-android/src/main/java/com/llamalab/safs/android/AndroidFileSystem.java:190-198 | the flag check's outcome; the permission cache is dropped on success only; the volume table is untouched |
| AndroidFileSystems.AndroidFileSystem.ReleasePersistableUriPermission | safs-android/src/main/java/com/llamalab/safs/android/AndroidFileSystem.java:207-215 | the flag check's outcome; the permission cache is dropped on success only; the volume table is untouched |
| AndroidFileSystems.AndroidFileSystem.ReleaseAllPersistableUriPermission | safs-android/src/main/java/com/llamalab/safs/android/AndroidFileSystem.java:217-221 | succeeds exactly for a tree URI, releasing READ+WRITE and dropping the permission cache; otherwise NotDocumentUri with no change |
| AndroidFileSystems.AndroidFileSystem.GetAndroidFileStores | safs-android/src/main/java/com/llamalab/safs/android/AndroidFileSystem.java:233-240 | returns the volumes, refreshes the document table from them and drops the permission cache |
| AndroidFileSystems.AndroidFileSystem.GetDocumentFileStores | safs-android/src/main/java/com/llamalab/safs/android/AndroidFileSystem.java:283-288 | the cached table if there is one, else the table of the volumes, which is cached |
| AndroidFileSystems.AndroidFileSystem.GetPermissionRoot | safs-android/src/main/java/com/llamalab/safs/android/AndroidFileSystem.java:290-296 | the cached trie if there is one, else a freshly loaded trie, which is cached |
| AndroidFileSystems.AndroidFileSystem.GetPathOfUri | safs-android/src/main/java/com/llamalab/safs/android/AndroidFileSystem.java:352-377 | getPath against the (possibly just loaded) document table |
| AndroidFileSystems.AndroidFileSystem.GetTreeDocumentUri | safs-android/src/main/java/com/llamalab/safs/android/AndroidFileSystem.java:379-405 | a relative path is IllegalArgument with no change; otherwise the lookup in the trie, which is the cached one (caches unchanged) or one just loaded from the document volumes and the persisted permissions, and then cached |
| AndroidFileSystems.AndroidFileSystem.MediaChanged | safs-android/src/main/java/com/llamalab/safs/android/AndroidFileSystem.java:434-440 | a media broadcast drops both caches |

## Left out

- I/O is not modelled:
  - the content resolver (taking and releasing permissions, listing the persisted ones, opening descriptors, checking existence, creating documents);
  - `StorageManager` and the listing of volumes;
  - `Files.exists`;
  - `FileObserver.startWatching`.
  
  The volumes, the package name, the persisted permissions, existence and "same file system" are parameters instead.
- The Android API-level branches are not modelled. These are the branches below LOLLIPOP or KITKAT that fall back to the default provider, and the LOLLIPOP test in `getAndroidFileStores`. The model is the LOLLIPOP-and-later path.
- Synchronization and `volatile` are not modelled. The watch service and the caches are modelled single-threaded.
- The platform `FileObserver` is modelled by its observable effect only: whether the observer is watching, with which mask, and a count of how many times one is started. Its thread and finalizer are not modelled.
- WatchService.WatchKey.OnEvent: the event's entry is kept as the name string. `fs.getPath(name)` is not modelled, because it only wraps the name.
- WatchService.WatchKey.IsValid: the base key's validity (`super.isValid()`, closed service) is a parameter, because the abstract watch service is not part of this model.
- The watch service's `register` argument `modifiers` is not modelled, because the source ignores it.
- Signalling into the key's queue is modelled as appending to a sequence. `AbstractWatchKey`'s bounded queue and its overflow are not part of this model.
- WatchService.PathObserver.Cancel and WatchService.PathObserver.CancelService require an observer that is watching. `listen(0)` on an observer that was never started would throw a NullPointerException in the source. The registry cannot reach that, because it drops an observer as soon as its mask is zero.
- The order of a `HashMap`'s values is not modelled. `loadUriPermissions` and `implCloseService` visit the entries in an order the model does not fix, so the load's order is a ghost output that is some order of the table's volumes.
- Permission trie: `PathDescender` and `SegmentEntry` are not part of this model. The trie is modelled as a map from name prefixes to entries. Entries that the source shares between nodes, and mutates through those aliases, are modelled as values that a descent replaces.
- AndroidFileSystems.PrivateDirectoriesHidden assumes that the app-private path has at least one name. That always holds when a volume's path is absolute, because "Android/data/…" adds names.
- The primary volume's `path()` and `name()` of `PrimaryFileStore` are fields of the volume record. `getExternalStorageDirectory` is a parameter.
- Globs: the glob compiler of the repository (`Utils.globToRegex`) is not part of this model. The model compiles and matches globs directly, following the glob syntax of `java.nio.file.FileSystem.getPathMatcher`, and agrees with every case of the glob test. Characters that the test leaves open are read with that syntax: `^` at the start of a class, a `-` after a range, `}` and `,` outside a group. `**` stands for the regular expression `.*`, and the test compiles its patterns with no flags, so `**` does not cross a line terminator of `java.util.regex` ("\n", "\r", U+0085, U+2028, U+2029). In the model `*`, `?` and classes do accept line terminators, as the character classes `[^/]` of that syntax do.
- ProviderModes: creating the document (`createDocument`) before the mode string is checked is not modelled. Only the decision and the mode are modelled.
- The wrapping of other `IOException`s by `toProperException(IOException, …)` is not modelled, because that overload is not part of this model. Only the `ErrnoException` mapping is.
- Integer widths: masks, flags and mode bits are `bv32`, as Java's `int` is. Sizes, inode numbers and times are unbounded integers, because only equality is used.
- StatAttributes: `FileTime` is modelled as whole seconds, the unit the source converts from.

## Findings

| source | as written | input that shows it | evidently intended | confidence | as-written member | corrected member |
|---|---|---|---|---|---|---|
| safs-android/src/main/java/com/llamalab/safs/android/AndroidFileSystemProvider.java:483-489 and 546-547 | `toModeString` is called inside the `try` whose `catch (RuntimeException)` reports every resolver failure as `NoSuchFileException`, so its `IllegalArgumentException("READ, WRITE and APPEND unsupported for documents")` reaches the caller as NoSuchFile | options {READ, WRITE, APPEND} on an existing document that a read-write grant covers | the unsupported combination is reported as IllegalArgument, as its message says | medium; not executed | ProviderModes.DocumentOpenAsWritten (shown by ProviderModes.DocumentOpenDiscrepancy) | ProviderModes.DocumentOpenDecision |
