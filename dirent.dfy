/**
 * Package godirwalk, file dirent.go: the `Dirent` directory entry, its
 * stat-based constructor, its type predicates, symbolic-link resolution, and the
 * `Dirents` adapter that lets a generic sort order entries by name.
 *
 * The filesystem and `filepath.Base` are not modelled: every call the Go code
 * makes into them is an oracle field of `FileSystem`.
 */
module Godirwalk {
  import opened Results
  import opened GoStrings
  import opened FileModes

  /** An error value produced by one of the filesystem oracles and passed through unchanged. */
  datatype Error = Error(message: GoString)

  /**
   * The outside world as seen from dirent.go:
   *  - lstat:        os.Lstat, reduced to the mode of the FileInfo it returns
   *                  (the final symbolic link is not followed);
   *  - evalSymlinks: filepath.EvalSymlinks;
   *  - abs:          filepath.Abs;
   *  - base:         filepath.Base (pure, but platform dependent).
   */
  datatype FileSystem = FileSystem(
    lstat: GoString -> Result<FileMode, Error>,
    evalSymlinks: GoString -> Result<GoString, Error>,
    abs: GoString -> Result<GoString, Error>,
    base: GoString -> GoString)

  /** The `(*Dirent, error)` pair returned by `FollowSymlink`; the entry is never nil there. */
  datatype Followed = Followed(entry: Dirent, err: Option<Error>)

  /** The node-type bits one at a time; `ModeType` is their union. */
  const TypeBits: set<FileMode> :=
    {ModeDir, ModeSymlink, ModeNamedPipe, ModeSocket, ModeDevice, ModeCharDevice, ModeIrregular}

  /**
   * One discovered filesystem entry: the path it was created from, its base
   * name, and its mode type bits. No field changes after construction.
   */
  datatype Dirent = Dirent(path: GoString, name: GoString, modeType: FileMode)
  {
    /** The path exactly as stored, with no normalisation. */
    function Path(): GoString { path }

    /** The stored base name. */
    function Name(): GoString { name }

    /** The stored mode bits; the four type predicates are tests on them. */
    function ModeType(): FileMode { modeType }

    predicate IsDir()
      ensures IsDir() <==> modeType & ModeDir == ModeDir
    {
      modeType & ModeDir != 0
    }

    /**
     * Regular means that no node-type bit at all is set, so a regular entry is
     * none of directory, symbolic link and device.
     */
    predicate IsRegular()
      ensures IsRegular() <==> forall bit | bit in TypeBits :: modeType & bit == 0
      ensures IsRegular() ==> !IsDir() && !IsSymlink() && !IsDevice()
    {
      modeType & FileModes.ModeType == 0
    }

    predicate IsSymlink()
      ensures IsSymlink() <==> modeType & ModeSymlink == ModeSymlink
    {
      modeType & ModeSymlink != 0
    }

    predicate IsDevice()
      ensures IsDevice() <==> modeType & ModeDevice == ModeDevice
    {
      modeType & ModeDevice != 0
    }

    /**
     * Resolves a symbolic link to a fresh entry for the absolute path of its
     * final target. A non-link is returned as it is, and every failure of the
     * three steps (resolve, make absolute, stat again) returns this very entry
     * together with the error of the step that failed.
     */
    function FollowSymlink(fs: FileSystem): (r: Followed)
      ensures !IsSymlink() ==> r == Followed(this, None)
      ensures r.err.Some? ==> r.entry == this
      ensures r.err.None? && IsSymlink() ==>
        && fs.evalSymlinks(path).Success?
        && fs.abs(fs.evalSymlinks(path).value).Success?
        && NewDirent(fs, fs.abs(fs.evalSymlinks(path).value).value) == Success(r.entry)
      ensures r.err.Some? ==> IsSymlink()
      ensures r.err.Some? ==>
        var resolved := fs.evalSymlinks(path);
        || resolved == Failure(r.err.value)
        || (resolved.Success? &&
            var absolute := fs.abs(resolved.value);
            || absolute == Failure(r.err.value)
            || (absolute.Success? && fs.lstat(absolute.value) == Failure(r.err.value)))
    {
      if !IsSymlink() then
        Followed(this, None)
      else
        match fs.evalSymlinks(path)
        case Failure(e) => Followed(this, Some(e))
        case Success(resolvedPath) =>
          match fs.abs(resolvedPath)
          case Failure(e) => Followed(this, Some(e))
          case Success(absPath) =>
            match NewDirent(fs, absPath)
            case Failure(e) => Followed(this, Some(e))
            case Success(resolvedDe) => Followed(resolvedDe, None)
    }
  }

  /**
   * Creates an entry for `osPathname` from a stat that does not follow a final
   * symbolic link, keeping only the node-type bits of its mode.
   */
  function NewDirent(fs: FileSystem, osPathname: GoString): (r: Result<Dirent, Error>)
    ensures r.Failure? <==> fs.lstat(osPathname).Failure?
    ensures r.Failure? ==> r.error == fs.lstat(osPathname).error
    ensures r.Success? ==>
      && r.value.Path() == osPathname
      && r.value.Name() == fs.base(osPathname)
      && r.value.ModeType() == fs.lstat(osPathname).value & ModeType
      && r.value.ModeType() & !ModeType == 0
      && r.value.ModeType() & ModeType == r.value.ModeType()
    ensures r.Success? ==>
      var mode := fs.lstat(osPathname).value;
      && (r.value.IsDir() <==> mode & ModeDir != 0)
      && (r.value.IsSymlink() <==> mode & ModeSymlink != 0)
      && (r.value.IsDevice() <==> mode & ModeDevice != 0)
      && (r.value.IsRegular() <==> mode & ModeType == 0)
  {
    match fs.lstat(osPathname)
    case Failure(err) => Failure(err)
    case Success(mode) => Success(Dirent(osPathname, fs.base(osPathname), mode & ModeType))
  }

  /** Masking with `ModeType` is idempotent and loses nothing the four predicates look at. */
  lemma MaskingKeepsNodeType(p: GoString, n: GoString, mode: FileMode)
    ensures (mode & ModeType) & ModeType == mode & ModeType
    ensures var masked, raw := Dirent(p, n, mode & ModeType), Dirent(p, n, mode);
      && (masked.IsDir() <==> raw.IsDir())
      && (masked.IsRegular() <==> raw.IsRegular())
      && (masked.IsSymlink() <==> raw.IsSymlink())
      && (masked.IsDevice() <==> raw.IsDevice())
  {
  }

  /**
   * The directory, symbolic-link and device tests are not mutually exclusive:
   * a directory symbolic link (as reported on Windows) satisfies two of them.
   */
  lemma TypePredicatesOverlap(p: GoString, n: GoString)
    ensures var de := Dirent(p, n, ModeDir | ModeSymlink);
      de.IsDir() && de.IsSymlink() && !de.IsDevice() && !de.IsRegular()
  {
  }

  /**
   * On a non-link `FollowSymlink` consults no oracle (any other filesystem gives
   * the same answer), returns the entry itself without error, and doing it again
   * changes nothing.
   */
  lemma FollowSymlinkNonLink(de: Dirent, fs: FileSystem, other: FileSystem)
    requires !de.IsSymlink()
    ensures de.FollowSymlink(fs) == de.FollowSymlink(other) == Followed(de, None)
    ensures de.FollowSymlink(fs).entry.FollowSymlink(fs) == de.FollowSymlink(fs)
  {
  }

  /** A failed resolution returns the original entry with that error; `Abs`, `Lstat` and `Base` are not consulted. */
  lemma FollowSymlinkResolveFails(de: Dirent, fs: FileSystem, e: Error,
                                  abs: GoString -> Result<GoString, Error>,
                                  lstat: GoString -> Result<FileMode, Error>,
                                  base: GoString -> GoString)
    requires de.IsSymlink() && fs.evalSymlinks(de.path) == Failure(e)
    ensures de.FollowSymlink(fs) == Followed(de, Some(e))
    ensures de.FollowSymlink(fs.(abs := abs, lstat := lstat, base := base)) == de.FollowSymlink(fs)
  {
  }

  /** A failed `Abs` returns the original entry with that error; `Lstat` and `Base` are not consulted. */
  lemma FollowSymlinkAbsFails(de: Dirent, fs: FileSystem, resolved: GoString, e: Error,
                              lstat: GoString -> Result<FileMode, Error>,
                              base: GoString -> GoString)
    requires de.IsSymlink() && fs.evalSymlinks(de.path) == Success(resolved)
    requires fs.abs(resolved) == Failure(e)
    ensures de.FollowSymlink(fs) == Followed(de, Some(e))
    ensures de.FollowSymlink(fs.(lstat := lstat, base := base)) == de.FollowSymlink(fs)
  {
  }

  /** A target that cannot be stat'ed again returns the original entry with the stat error. */
  lemma FollowSymlinkStatFails(de: Dirent, fs: FileSystem, resolved: GoString, absolute: GoString, e: Error)
    requires de.IsSymlink() && fs.evalSymlinks(de.path) == Success(resolved)
    requires fs.abs(resolved) == Success(absolute) && fs.lstat(absolute) == Failure(e)
    ensures de.FollowSymlink(fs) == Followed(de, Some(e))
  {
  }

  /** Full success yields the entry for the absolute resolved path, typed by its own stat. */
  lemma FollowSymlinkSucceeds(de: Dirent, fs: FileSystem, resolved: GoString, absolute: GoString, mode: FileMode)
    requires de.IsSymlink() && fs.evalSymlinks(de.path) == Success(resolved)
    requires fs.abs(resolved) == Success(absolute) && fs.lstat(absolute) == Success(mode)
    ensures de.FollowSymlink(fs) == Followed(Dirent(absolute, fs.base(absolute), mode & ModeType), None)
  {
  }

  // Dirents: a slice of entries, sortable by name through Len, Less and Swap.
  // The slots are modelled as immutable entry values held in an array.

  /** The number of entries. */
  function Len(l: array<Dirent>): int
    reads l
  {
    l.Length
  }

  /** Whether the name at `i` sorts strictly before the name at `j`, byte by byte. */
  function Less(l: array<Dirent>, i: int, j: int): (r: bool)
    reads l
    requires 0 <= i < l.Length && 0 <= j < l.Length
    ensures r <==> LexLessSpec(l[i].name, l[j].name)
  {
    LexLessMeaning(l[i].name, l[j].name);
    LexLess(l[i].name, l[j].name)
  }

  /**
   * `Less` is the strict order a comparison sort needs: irreflexive, asymmetric,
   * transitive, and for any two slots exactly one of "i before j", "j before i"
   * and "same name" holds.
   */
  lemma LessIsStrictOrder(l: array<Dirent>, i: int, j: int, k: int)
    requires 0 <= i < l.Length && 0 <= j < l.Length && 0 <= k < l.Length
    ensures !Less(l, i, i)
    ensures Less(l, i, j) ==> !Less(l, j, i)
    ensures Less(l, i, j) && Less(l, j, k) ==> Less(l, i, k)
    ensures Less(l, i, j) || Less(l, j, i) || l[i].name == l[j].name
    ensures l[i].name == l[j].name ==> !Less(l, i, j) && !Less(l, j, i)
  {
    LexLessIrreflexive(l[i].name);
    LexLessAsymmetric(l[i].name, l[j].name);
    LexLessTransitive(l[i].name, l[j].name, l[k].name);
    LexLessTrichotomous(l[i].name, l[j].name);
  }

  /**
   * Byte order, not dictionary order: "Apple" sorts before "banana" (upper-case
   * letters have the smaller bytes), which sorts before "cherry".
   */
  lemma ByteOrderPutsUpperCaseFirst(l: array<Dirent>)
    requires l.Length == 3
    requires l[0].name == [98, 97, 110, 97, 110, 97]  // "banana"
    requires l[1].name == [65, 112, 112, 108, 101]    // "Apple"
    requires l[2].name == [99, 104, 101, 114, 114, 121]  // "cherry"
    ensures Less(l, 1, 0) && Less(l, 0, 2) && Less(l, 1, 2)
    ensures !Less(l, 0, 1) && !Less(l, 2, 0) && !Less(l, 2, 1)
  {
  }

  /** The sequence with the elements at `i` and `j` exchanged. */
  function Swapped<T>(s: seq<T>, i: int, j: int): (r: seq<T>)
    requires 0 <= i < |s| && 0 <= j < |s|
    ensures |r| == |s| && r[i] == s[j] && r[j] == s[i]
    ensures forall k | 0 <= k < |s| && k != i && k != j :: r[k] == s[k]
  {
    s[i := s[j]][j := s[i]]
  }

  /** Exchanging is a permutation: the multiset of elements is unchanged. */
  lemma SwappedIsPermutation<T>(s: seq<T>, i: int, j: int)
    requires 0 <= i < |s| && 0 <= j < |s|
    ensures multiset(Swapped(s, i, j)) == multiset(s)
  {
  }

  /** Exchanging the same two slots twice restores the sequence. */
  lemma SwappedInvolution<T>(s: seq<T>, i: int, j: int)
    requires 0 <= i < |s| && 0 <= j < |s|
    ensures Swapped(Swapped(s, i, j), i, j) == s
  {
  }

  /** Exchanges the entries at `i` and `j` in place; the length and all other slots stay. */
  method Swap(l: array<Dirent>, i: int, j: int)
    requires 0 <= i < l.Length && 0 <= j < l.Length
    modifies l
    ensures l[..] == Swapped(old(l[..]), i, j)
    ensures Len(l) == old(Len(l))
    ensures multiset(l[..]) == multiset(old(l[..]))
    ensures Swapped(l[..], i, j) == old(l[..])
  {
    l[i], l[j] := l[j], l[i];
    SwappedIsPermutation(old(l[..]), i, j);
    SwappedInvolution(old(l[..]), i, j);
  }
}
