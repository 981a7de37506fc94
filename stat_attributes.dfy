/**
 * The basic attributes of a file read from one `stat` call: the file type
 * from the `S_IFMT` bits of `st_mode` (as in POSIX `<sys/stat.h>`), the
 * size and inode from the record, a creation time that is always zero, and
 * modification and access times converted once and then cached.
 */
module StatAttributes {
  import opened Wrappers

  const S_IFMT: bv32 := 0xF000
  const S_IFDIR: bv32 := 0x4000
  const S_IFREG: bv32 := 0x8000
  const S_IFLNK: bv32 := 0xA000

  /** The fields of the `stat` record that the attributes read; times are in seconds. */
  datatype Stat = Stat(mode: bv32, ino: int, size: int, mtime: int, atime: int)

  /** A file time, as a count of seconds since the epoch. */
  datatype FileTime = FileTime(seconds: int)

  const ZeroTime := FileTime(0)

  /** The file-type bits of a mode. */
  function Format(mode: bv32): (f: bv32)
    ensures f & !S_IFMT == 0
    ensures (mode ^ f) & S_IFMT == 0
  {
    mode & S_IFMT
  }

  class StatFileAttributes {
    const stat: Stat
    var lastModified: Option<FileTime>
    var lastAccess: Option<FileTime>

    /** The times are read from the record when first asked for. */
    predicate Valid()
      reads this
    {
      && (lastModified.Some? ==> lastModified.value == FileTime(stat.mtime))
      && (lastAccess.Some? ==> lastAccess.value == FileTime(stat.atime))
    }

    constructor (stat: Stat)
      ensures this.stat == stat && lastModified.None? && lastAccess.None?
      ensures Valid()
    {
      this.stat := stat;
      lastModified := None;
      lastAccess := None;
    }

    function FileKey(): int { stat.ino }
    function Size(): int { stat.size }
    function CreationTime(): FileTime { ZeroTime }

    predicate IsDirectory() { Format(stat.mode) == S_IFDIR }
    predicate IsRegularFile() { Format(stat.mode) == S_IFREG }
    predicate IsSymbolicLink() { Format(stat.mode) == S_IFLNK }

    /** Written as a test on the type bits of its own, not through the other three. */
    predicate IsOther() {
      var fmt := stat.mode & S_IFMT;
      S_IFDIR != fmt && S_IFREG != fmt && S_IFLNK != fmt
    }

    /** The modification time, converted on the first call and cached. */
    method LastModifiedTime() returns (t: FileTime)
      requires Valid()
      modifies this
      ensures t == FileTime(stat.mtime)
      ensures lastModified == Some(t) && lastAccess == old(lastAccess)
      ensures Valid()
    {
      if lastModified == None {
        lastModified := Some(FileTime(stat.mtime));
      }
      t := lastModified.value;
    }

    /** The access time, converted on the first call and cached. */
    method LastAccessTime() returns (t: FileTime)
      requires Valid()
      modifies this
      ensures t == FileTime(stat.atime)
      ensures lastAccess == Some(t) && lastModified == old(lastModified)
      ensures Valid()
    {
      if lastAccess == None {
        lastAccess := Some(FileTime(stat.atime));
      }
      t := lastAccess.value;
    }
  }

  /** The four type predicates of a mode, outside any object. */
  function TypeCount(mode: bv32): (n: nat)
    ensures n <= 4
  {
    var f := Format(mode);
    (if f == S_IFDIR then 1 else 0) + (if f == S_IFREG then 1 else 0)
    + (if f == S_IFLNK then 1 else 0)
    + (if f != S_IFDIR && f != S_IFREG && f != S_IFLNK then 1 else 0)
  }

  /** Every file is of exactly one type, and "other" is "none of the three". */
  lemma ExactlyOneType(a: StatFileAttributes)
    ensures TypeCount(a.stat.mode) == 1
    ensures a.IsOther() <==> !a.IsDirectory() && !a.IsRegularFile() && !a.IsSymbolicLink()
    ensures a.IsDirectory() ==> !a.IsRegularFile() && !a.IsSymbolicLink()
    ensures a.IsRegularFile() ==> !a.IsSymbolicLink()
  {
  }

  /** The type depends only on the type bits: permission bits change nothing. */
  lemma TypeIgnoresPermissions(m: bv32, n: bv32)
    requires m & S_IFMT == n & S_IFMT
    ensures Format(m) == Format(n)
  {
  }

  /** Repeated reads of the cached times give the same values, and the creation time is zero. */
  method RepeatedReads(a: StatFileAttributes) returns (same: bool)
    requires a.Valid()
    modifies a
    ensures same
    ensures a.CreationTime() == ZeroTime
  {
    var m1 := a.LastModifiedTime();
    var t1 := a.LastAccessTime();
    var m2 := a.LastModifiedTime();
    var t2 := a.LastAccessTime();
    same := m1 == m2 && t1 == t2;
  }
}
