/**
 * How the file-system provider turns a set of open options into the mode
 * of a file descriptor: the `ParcelFileDescriptor` mode bits for plain
 * files, the mode string ("r", "w", "wt", "wa", "rw", "rwt") for documents
 * opened through the content resolver, the option checks of the stream
 * factories, the existence decisions taken before opening, and the mapping
 * of `errno` values to exceptions.
 */
module ProviderModes {
  import opened Wrappers

  datatype OpenOption =
    | Read | Write | Append | TruncateExisting | Create | CreateNew
    | NoDocument   // open the path as a plain file even if a document grant covers it

  type Options = set<OpenOption>

  /** The exceptions the decisions below raise. */
  datatype OpenError =
    | IllegalArgument
    | FileAlreadyExists
    | NoSuchFile
    | AccessDenied
    | OtherIO(errno: int)

  // ParcelFileDescriptor mode bits.
  const MODE_READ_ONLY: bv32 := 0x1000_0000
  const MODE_WRITE_ONLY: bv32 := 0x2000_0000
  const MODE_READ_WRITE: bv32 := 0x3000_0000
  const MODE_CREATE: bv32 := 0x0800_0000
  const MODE_TRUNCATE: bv32 := 0x0400_0000
  const MODE_APPEND: bv32 := 0x0200_0000
  /** The two access bits. */
  const MODE_ACCESS: bv32 := 0x3000_0000

  // errno values of the platform.
  const ENOENT: int := 2
  const EACCES: int := 13

  // ---------------------------------------------------------------------
  // Mode flags and mode strings
  // ---------------------------------------------------------------------

  /**
   * The descriptor mode for a set of options: read-only without WRITE;
   * otherwise write-only or read-write as READ is absent or present, plus
   * one independent bit each for creating, appending and truncating.
   */
  function ToModeFlags(options: Options): (m: bv32)
    ensures Write !in options ==> m == MODE_READ_ONLY
    ensures Write in options ==>
      && m & MODE_ACCESS == (if Read in options then MODE_READ_WRITE else MODE_WRITE_ONLY)
      && (m & MODE_CREATE != 0 <==> Create in options || CreateNew in options)
      && (m & MODE_APPEND != 0 <==> Append in options)
      && (m & MODE_TRUNCATE != 0 <==> TruncateExisting in options)
      && m & !(MODE_ACCESS | MODE_CREATE | MODE_APPEND | MODE_TRUNCATE) == 0
  {
    if Write !in options then MODE_READ_ONLY
    else
      var mode := if Read !in options then MODE_WRITE_ONLY else MODE_READ_WRITE;
      var mode := if CreateNew in options || Create in options then mode | MODE_CREATE else mode;
      var mode := if Append in options then mode | MODE_APPEND else mode;
      if TruncateExisting in options then mode | MODE_TRUNCATE else mode
  }

  /**
   * The mode string of a document.  TRUNCATE_EXISTING wins over APPEND, and
   * reading, writing and appending together have no mode string.
   */
  function ToModeString(options: Options): (r: Result<string, OpenError>)
    ensures r.Success? ==> r.value in ["r", "w", "wt", "wa", "rw", "rwt"]
    ensures r.Failure? <==>
      Write in options && Read in options && Append in options && TruncateExisting !in options
    ensures r.Failure? ==> r.error == IllegalArgument
  {
    if Write !in options then Success("r")
    else if Read !in options then
      if TruncateExisting in options then Success("wt")
      else if Append in options then Success("wa")
      else Success("w")
    else if TruncateExisting in options then Success("rwt")
    else if Append in options then Failure(IllegalArgument)
    else Success("rw")
  }

  /**
   * The mode string and the mode bits say the same thing: "r" is present
   * iff the descriptor may be read, "w" iff it may be written, "t" iff it
   * truncates and "a" iff it appends without truncating (the mode string
   * cannot say both).
   */
  lemma ModeStringAgreesWithFlags(options: Options)
    requires ToModeString(options).Success?
    ensures var s, m := ToModeString(options).value, ToModeFlags(options);
      && ('r' in s <==> m & MODE_ACCESS != MODE_WRITE_ONLY)
      && ('w' in s <==> m & MODE_ACCESS != MODE_READ_ONLY)
      && ('t' in s <==> m & MODE_TRUNCATE != 0)
      && ('a' in s <==> m & MODE_APPEND != 0 && m & MODE_TRUNCATE == 0)
  {
    var s := ToModeString(options).value;
    assert "w"[0] == 'w' && "wt"[0] == 'w' && "wa"[0] == 'w' && "rw"[1] == 'w' && "rwt"[1] == 'w';
    assert "r"[0] == 'r' && "wt"[1] == 't' && "wa"[1] == 'a' && "rw"[0] == 'r' && "rwt"[2] == 't';
    assert s == "r" ==> 'w' !in s && 't' !in s && 'a' !in s;
    assert s == "w" ==> 'r' !in s && 't' !in s && 'a' !in s;
    assert s == "wt" ==> 'r' !in s && 'a' !in s;
    assert s == "wa" ==> 'r' !in s && 't' !in s;
    assert s == "rw" ==> 't' !in s && 'a' !in s;
    assert s == "rwt" ==> 'a' !in s;
    var m := ToModeFlags(options);
    if Write !in options {
      assert m & MODE_ACCESS == MODE_READ_ONLY;
      assert m & MODE_TRUNCATE == 0 && m & MODE_APPEND == 0;
    }
  }

  /**
   * For a writer, the mode bits keep exactly what the options say about
   * reading, creating, appending and truncating: two option sets give the
   * same bits iff they agree on those four questions.
   */
  lemma ModeFlagsDistinguish(a: Options, b: Options)
    requires Write in a && Write in b
    ensures ToModeFlags(a) == ToModeFlags(b) <==>
      && (Read in a <==> Read in b)
      && (Create in a || CreateNew in a <==> Create in b || CreateNew in b)
      && (Append in a <==> Append in b)
      && (TruncateExisting in a <==> TruncateExisting in b)
  {
    var ma, mb := ToModeFlags(a), ToModeFlags(b);
    if (Read in a <==> Read in b)
      && (Create in a || CreateNew in a <==> Create in b || CreateNew in b)
      && (Append in a <==> Append in b)
      && (TruncateExisting in a <==> TruncateExisting in b)
    {
      assert ma == (ma & MODE_ACCESS) | (ma & MODE_CREATE) | (ma & MODE_APPEND) | (ma & MODE_TRUNCATE);
      assert mb == (mb & MODE_ACCESS) | (mb & MODE_CREATE) | (mb & MODE_APPEND) | (mb & MODE_TRUNCATE);
    }
  }

  // ---------------------------------------------------------------------
  // Option checks and open decisions
  // ---------------------------------------------------------------------

  /** An input stream refuses WRITE; the options pass through unchanged. */
  function InputStreamOptions(options: Options): (r: Result<Options, OpenError>)
    ensures r.Success? <==> Write !in options
    ensures r.Success? ==> r.value == options && ToModeFlags(r.value) == MODE_READ_ONLY
    ensures r.Failure? ==> r.error == IllegalArgument
  {
    if Write in options then Failure(IllegalArgument) else Success(options)
  }

  /** An output stream requires WRITE; the options pass through unchanged. */
  function OutputStreamOptions(options: Options): (r: Result<Options, OpenError>)
    ensures r.Success? <==> Write in options
    ensures r.Success? ==> r.value == options && ToModeFlags(r.value) & MODE_ACCESS != MODE_READ_ONLY
    ensures r.Failure? ==> r.error == IllegalArgument
  {
    if Write !in options then Failure(IllegalArgument) else Success(options)
  }

  /**
   * The options the public `newInputStream` and `newOutputStream` use when
   * called with none: those of java.nio.file.spi.FileSystemProvider.
   */
  const DEFAULT_INPUT_OPTIONS: Options := {Read}
  const DEFAULT_OUTPUT_OPTIONS: Options := {Create, TruncateExisting, Write}

  /** The public `newInputStream`: no options means READ, then the private check. */
  function NewInputStreamOptions(options: Options): (r: Result<Options, OpenError>)
    ensures r.Success? <==> Write !in options
    ensures r.Success? ==> r.value == (if options == {} then DEFAULT_INPUT_OPTIONS else options)
    ensures r.Success? ==> ToModeFlags(r.value) == MODE_READ_ONLY
    ensures r.Failure? ==> r.error == IllegalArgument
  {
    InputStreamOptions(if options == {} then DEFAULT_INPUT_OPTIONS else options)
  }

  /**
   * The public `newOutputStream`: no options means CREATE, TRUNCATE_EXISTING
   * and WRITE, so a call with none opens for writing, creating and truncating.
   */
  function NewOutputStreamOptions(options: Options): (r: Result<Options, OpenError>)
    ensures r.Success? <==> options == {} || Write in options
    ensures r.Success? ==> r.value == (if options == {} then DEFAULT_OUTPUT_OPTIONS else options)
    ensures options == {} ==>
      r.Success? && ToModeFlags(r.value) == MODE_WRITE_ONLY | MODE_CREATE | MODE_TRUNCATE
    ensures r.Failure? ==> r.error == IllegalArgument
  {
    OutputStreamOptions(if options == {} then DEFAULT_OUTPUT_OPTIONS else options)
  }

  /** A plain file is opened with mode bits; CREATE_NEW for writing refuses an existing file. */
  function OpenFile(options: Options, present: bool): (r: Result<bv32, OpenError>)
    ensures r.Failure? <==> Write in options && CreateNew in options && present
    ensures r.Failure? ==> r.error == FileAlreadyExists
    ensures r.Success? ==> r.value == ToModeFlags(options)
  {
    if Write in options && CreateNew in options && present then Failure(FileAlreadyExists)
    else Success(ToModeFlags(options))
  }

  /** How a document is finally opened. */
  datatype DocumentOpen =
    | OpenDocument(mode: string)             // the existing document, by mode string
    | CreateAndOpen(mode: string)            // a new document under the parent's tree, then opened
    | OpenParentFile(flags: bv32)            // no grant covers the parent: the plain file, by mode bits

  /**
   * The decision for a path that a document grant covers, as the source
   * takes it: for writing, an existing document refuses CREATE_NEW, and a
   * missing one needs CREATE or CREATE_NEW and is created under its parent
   * (or opened as a plain file when no grant covers the parent).  The
   * mode string is computed inside the block that reports every runtime
   * exception of the resolver as a missing file, so the refusal of
   * READ+WRITE+APPEND comes out as NoSuchFile.
   */
  function DocumentOpenAsWritten(options: Options, present: bool, parentCovered: bool)
    : (r: Result<DocumentOpen, OpenError>)
    ensures Write in options && present && CreateNew in options ==> r == Failure(FileAlreadyExists)
    ensures Write in options && !present && Create !in options && CreateNew !in options ==>
      r == Failure(NoSuchFile)
    ensures r.Failure? ==> r.error != IllegalArgument
  {
    if Write in options && present && CreateNew in options then Failure(FileAlreadyExists)
    else if Write in options && !present && Create !in options && CreateNew !in options then
      Failure(NoSuchFile)
    else if Write in options && !present && !parentCovered then
      Success(OpenParentFile(ToModeFlags(options)))
    else
      match ToModeString(options)
        case Failure(_) => Failure(NoSuchFile)
        case Success(m) =>
          if Write in options && !present then Success(CreateAndOpen(m)) else Success(OpenDocument(m))
  }

  /** Same as above, but the unsupported combination is reported as such. */
  function DocumentOpenDecision(options: Options, present: bool, parentCovered: bool)
    : (r: Result<DocumentOpen, OpenError>)
    ensures Write in options && present && CreateNew in options ==> r == Failure(FileAlreadyExists)
    ensures Write in options && !present && Create !in options && CreateNew !in options ==>
      r == Failure(NoSuchFile)
    ensures r == Failure(IllegalArgument) <==>
      && Write in options && Read in options && Append in options && TruncateExisting !in options
      && (present ==> CreateNew !in options)
      && (!present ==> (Create in options || CreateNew in options) && parentCovered)
    ensures r.Success? && r.value.OpenDocument? ==>
      (Write in options ==> present) && Success(r.value.mode) == ToModeString(options)
    ensures r.Success? && r.value.CreateAndOpen? ==>
      Write in options && !present && Success(r.value.mode) == ToModeString(options)
    ensures r.Success? && r.value.OpenParentFile? ==>
      Write in options && !present && !parentCovered && r.value.flags & MODE_CREATE != 0
  {
    if Write in options && present && CreateNew in options then Failure(FileAlreadyExists)
    else if Write in options && !present && Create !in options && CreateNew !in options then
      Failure(NoSuchFile)
    else if Write in options && !present && !parentCovered then
      Success(OpenParentFile(ToModeFlags(options)))
    else
      match ToModeString(options)
        case Failure(e) => Failure(e)
        case Success(m) =>
          if Write in options && !present then Success(CreateAndOpen(m)) else Success(OpenDocument(m))
  }

  /** The two decisions differ only where READ, WRITE and APPEND meet without truncation. */
  lemma DocumentOpenDiscrepancy(options: Options, present: bool, parentCovered: bool)
    ensures (DocumentOpenAsWritten(options, present, parentCovered) !=
      DocumentOpenDecision(options, present, parentCovered)) <==>
      DocumentOpenDecision(options, present, parentCovered) == Failure(IllegalArgument)
    ensures DocumentOpenDecision(options, present, parentCovered) == Failure(IllegalArgument) ==>
      DocumentOpenAsWritten(options, present, parentCovered) == Failure(NoSuchFile)
    ensures DocumentOpenAsWritten({Read, Write, Append}, true, true) == Failure(NoSuchFile)
    ensures DocumentOpenDecision({Read, Write, Append}, true, true) == Failure(IllegalArgument)
  {
    assert ToModeString({Read, Write, Append}).Failure?;
  }

  // ---------------------------------------------------------------------
  // errno
  // ---------------------------------------------------------------------

  /** ENOENT is a missing file, EACCES a refused access, anything else a plain I/O error. */
  function ErrnoException(errno: int): (e: OpenError)
    ensures e == NoSuchFile <==> errno == ENOENT
    ensures e == AccessDenied <==> errno == EACCES
    ensures e.OtherIO? <==> errno != ENOENT && errno != EACCES
    ensures e.OtherIO? ==> e.errno == errno
  {
    if errno == ENOENT then NoSuchFile
    else if errno == EACCES then AccessDenied
    else OtherIO(errno)
  }
}
