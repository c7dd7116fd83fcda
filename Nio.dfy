/** The parts of java.nio.file that the core calls: paths, the entries of the
    file systems, and the operations the core performs on them (delete, copy,
    createDirectories, setPosixFilePermissions).

    All open file systems are one `Storage` object: a map from path to entry.
    Each operation either succeeds or fails as the platform would, or fails
    with the error that the storage's `fault` function injects at the path it
    would change (a permission problem, a full disk, ...). A failed delete,
    copy or permission change changes nothing; a failed createDirectories
    keeps the ancestors it had already created, as the platform does.
 */
module Nio {
  import opened Wrappers
  import PosixModes

  /** java.nio.file.Path: the file system and provider it belongs to (both
      compared by identity in the core), whether it is absolute, its root
      component, if any, and its name elements. */
  datatype Path = Path(fs: nat, provider: nat, absolute: bool, root: Option<string>, names: seq<string>)

  /** `q` is `p` or lies below it: same file system and shape, and `p`'s names
      are a prefix of `q`'s. */
  predicate Under(q: Path, p: Path) {
    q == p.(names := q.names) && p.names <= q.names
  }

  /** Path.resolve(name) for one name. */
  function ChildOf(p: Path, name: string): (c: Path)
    ensures Under(c, p) && |c.names| == |p.names| + 1
  {
    p.(names := p.names + [name])
  }

  /** Path.getParent(): none for a root alone and for a single relative name. */
  function Parent(p: Path): (r: Option<Path>)
    ensures r.Some? ==> |r.value.names| + 1 == |p.names| && Under(p, r.value)
  {
    if |p.names| == 0 || (|p.names| == 1 && p.root.None?) then None
    else Some(p.(names := p.names[..|p.names| - 1]))
  }

  /** java.nio.file.StandardOpenOption and LinkOption.NOFOLLOW_LINKS. */
  datatype OpenOption =
    | READ | WRITE | APPEND | TRUNCATE_EXISTING | CREATE | CREATE_NEW
    | DELETE_ON_CLOSE | SPARSE | SYNC | DSYNC | NOFOLLOW_LINKS

  /** java.nio.file.StandardCopyOption and LinkOption.NOFOLLOW_LINKS. */
  datatype CopyOption = REPLACE_EXISTING | COPY_ATTRIBUTES | ATOMIC_MOVE | NOFOLLOW_LINKS_COPY

  /** What a path names. */
  datatype Entry = Directory | RegularFile(content: seq<bv8>) | SymbolicLink(target: Path) | OtherFile

  type Entries = map<Path, Entry>

  /** The IOException subclasses the core meets, with the path they are about;
      a plain IOException and an IsDirectoryException carry their message. */
  datatype IOErrorKind =
    | NoSuchFile | FileAlreadyExists | DirectoryNotEmpty | AccessDenied
    | IsDirectory(reason: string) | OtherIO(message: string)

  datatype IOError = IOError(kind: IOErrorKind, file: Path)

  /** The outcome of one operation: the exception it threw, if any, and the
      entries afterwards. */
  datatype Step = Step(error: Option<IOError>, entries: Entries)

  /** Some entry lies strictly below `p`. */
  predicate HasChildren(entries: Entries, p: Path) {
    exists q :: q in entries && Under(q, p) && q != p
  }

  /** FileSystemProvider.delete: the entry itself goes (a symbolic link, not
      its target); a missing entry and a non-empty directory are errors. */
  function DeleteSpec(entries: Entries, fault: Path -> Option<IOError>, p: Path): (s: Step)
    ensures s.error.None? <==> fault(p).None? && p in entries && !(entries[p].Directory? && HasChildren(entries, p))
    ensures s.error.None? ==> s.entries == entries - {p}
    ensures s.error.Some? ==> s.entries == entries
  {
    if fault(p).Some? then Step(fault(p), entries)
    else if p !in entries then Step(Some(IOError(NoSuchFile, p)), entries)
    else if entries[p].Directory? && HasChildren(entries, p) then Step(Some(IOError(DirectoryNotEmpty, p)), entries)
    else Step(None, entries - {p})
  }

  /** Files.deleteIfExists: nothing to do for a missing entry. */
  function DeleteIfExistsSpec(entries: Entries, fault: Path -> Option<IOError>, p: Path): Step {
    if p !in entries then Step(None, entries) else DeleteSpec(entries, fault, p)
  }

  /** Files.copy(from, to) with no options: the target must not exist and its
      parent must be a directory. */
  function CopySpec(entries: Entries, fault: Path -> Option<IOError>, from: Path, to: Path): (s: Step)
    ensures s.error.None? ==> from in entries && to !in entries && s.entries == entries[to := entries[from]]
    ensures s.error.Some? ==> s.entries == entries
  {
    if fault(to).Some? then Step(fault(to), entries)
    else if from !in entries then Step(Some(IOError(NoSuchFile, from)), entries)
    else if to in entries then Step(Some(IOError(FileAlreadyExists, to)), entries)
    else if Parent(to).None? || Parent(to).value !in entries || !entries[Parent(to).value].Directory? then
      Step(Some(IOError(NoSuchFile, to)), entries)
    else Step(None, entries[to := entries[from]])
  }

  /** Files.createDirectories: an existing directory is accepted; otherwise
      the missing ancestors are created from the top down, then the
      directory itself. An existing non-directory is an error. */
  function CreateDirectoriesSpec(entries: Entries, fault: Path -> Option<IOError>, p: Path): (s: Step)
    ensures s.error.None? ==> p in s.entries && s.entries[p].Directory?
    ensures s.error.None? ==> entries.Keys <= s.entries.Keys
    ensures forall q :: q in entries ==> q in s.entries && s.entries[q] == entries[q]
    decreases |p.names|
  {
    if p in entries then
      if entries[p].Directory? then Step(None, entries) else Step(Some(IOError(FileAlreadyExists, p)), entries)
    else if Parent(p).None? then Step(Some(IOError(NoSuchFile, p)), entries)
    else
      var up := CreateDirectoriesSpec(entries, fault, Parent(p).value);
      if up.error.Some? then up
      else if fault(p).Some? then Step(fault(p), up.entries)
      else Step(None, up.entries[p := Directory])
  }

  /** Every open file system, with the permissions of their entries. */
  class Storage {
    var entries: Entries
    var permissions: map<Path, set<PosixModes.Permission>>
    /** The failure injected at each path, if any. */
    const fault: Path -> Option<IOError>

    constructor(entries: Entries, permissions: map<Path, set<PosixModes.Permission>>, fault: Path -> Option<IOError>)
      ensures this.entries == entries && this.permissions == permissions && this.fault == fault
    {
      this.entries := entries;
      this.permissions := permissions;
      this.fault := fault;
    }

    /** Files.exists. */
    method Exists(p: Path) returns (b: bool)
      ensures b <==> p in entries
    {
      b := p in entries;
    }

    /** Files.isDirectory. */
    method IsDirectory(p: Path) returns (b: bool)
      ensures b <==> p in entries && entries[p].Directory?
    {
      b := p in entries && entries[p].Directory?;
    }

    /** Files.isSymbolicLink. */
    method IsSymbolicLink(p: Path) returns (b: bool)
      ensures b <==> p in entries && entries[p].SymbolicLink?
    {
      b := p in entries && entries[p].SymbolicLink?;
    }

    method Delete(p: Path) returns (err: Option<IOError>)
      modifies this
      ensures Step(err, entries) == DeleteSpec(old(entries), fault, p)
      ensures permissions == old(permissions)
    {
      var s := DeleteSpec(entries, fault, p);
      err, entries := s.error, s.entries;
    }

    method DeleteIfExists(p: Path) returns (err: Option<IOError>)
      modifies this
      ensures Step(err, entries) == DeleteIfExistsSpec(old(entries), fault, p)
      ensures permissions == old(permissions)
    {
      var s := DeleteIfExistsSpec(entries, fault, p);
      err, entries := s.error, s.entries;
    }

    method Copy(from: Path, to: Path) returns (err: Option<IOError>)
      modifies this
      ensures Step(err, entries) == CopySpec(old(entries), fault, from, to)
      ensures permissions == old(permissions)
    {
      var s := CopySpec(entries, fault, from, to);
      err, entries := s.error, s.entries;
    }

    method CreateDirectories(p: Path) returns (err: Option<IOError>)
      modifies this
      ensures Step(err, entries) == CreateDirectoriesSpec(old(entries), fault, p)
      ensures permissions == old(permissions)
    {
      var s := CreateDirectoriesSpec(entries, fault, p);
      err, entries := s.error, s.entries;
    }

    /** Files.setPosixFilePermissions. */
    method SetPosixFilePermissions(p: Path, perms: set<PosixModes.Permission>) returns (err: Option<IOError>)
      modifies this
      ensures err == (if fault(p).Some? then fault(p) else if p !in entries then Some(IOError(NoSuchFile, p)) else None)
      ensures permissions == if err.None? then old(permissions)[p := perms] else old(permissions)
      ensures entries == old(entries)
    {
      if fault(p).Some? {
        err := fault(p);
      } else if p !in entries {
        err := Some(IOError(NoSuchFile, p));
      } else {
        err := None;
        permissions := permissions[p := perms];
      }
    }
  }
}
