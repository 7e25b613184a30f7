/**
 * The host filesystem as the image handler sees it: a tree of files and directories,
 * `Path.exists()`, `Path.stat().st_size`, `Path.mkdir(parents=True, exist_ok=True)`
 * and `shutil.rmtree`.
 */
module FileSystems {
  import opened Results
  import opened PurePaths

  /** What is at a path: a regular file or a directory, each with the size stat reports. */
  datatype Entry = File(size: nat) | Directory(size: nat)

  /** The errors the filesystem calls raise: FileExistsError, NotADirectoryError, FileNotFoundError. */
  datatype OSError = FileExists | NotADirectory | FileNotFound

  /** The entries, keyed by the components of their absolute path; the root directory is []. */
  type Tree = map<seq<string>, Entry>

  function Parent(k: seq<string>): seq<string>
    requires k != []
  {
    k[..|k| - 1]
  }

  /** A tree: the root is a directory and the parent of every other entry is a directory. */
  predicate WellFormed(t: Tree) {
    && [] in t && t[[]].Directory?
    && forall k :: k in t && k != [] ==> Parent(k) in t && t[Parent(k)].Directory?
  }

  /** The key a path is looked up under: its components once made absolute. */
  function Locate(cwd: PurePath, p: PurePath): seq<string>
  {
    Absolute(cwd, p).parts
  }

  /** `Path.exists()`: true for files and directories alike. */
  predicate Exists(t: Tree, cwd: PurePath, p: PurePath): (b: bool)
    ensures IsAbsolute(p) ==> (b <==> p.parts in t)
    ensures !IsAbsolute(p) ==> (b <==> cwd.parts + p.parts in t)
  {
    Locate(cwd, p) in t
  }

  predicate IsDirectory(t: Tree, k: seq<string>) {
    k in t && t[k].Directory?
  }

  /** No component along the path to k, k included, exists as a regular file. */
  predicate DirectoriesOnPath(t: Tree, k: seq<string>) {
    forall j :: 0 <= j <= |k| && k[..j] in t ==> t[k[..j]].Directory?
  }

  /**
   * `Path.mkdir(parents=True, exist_ok=True)` on key k. An existing directory is left
   * alone; an existing file raises FileExistsError; a parent that is a file makes the
   * underlying mkdir raise NotADirectoryError; a missing parent is created first.
   * New directories report size newSize.
   */
  function MakeDirs(t: Tree, k: seq<string>, newSize: nat): (r: Result<Tree, OSError>)
    ensures r.Success? ==> IsDirectory(r.value, k)
    ensures r.Success? ==> forall q :: q in t ==> q in r.value && r.value[q] == t[q]
    ensures IsDirectory(t, k) ==> r == Success(t)
    ensures k in t && t[k].File? ==> r == Failure(FileExists)
    decreases |k|
  {
    if k in t then
      if t[k].Directory? then Success(t) else Failure(FileExists)
    else if k == [] then
      Success(t[k := Directory(newSize)])
    else
      var up := Parent(k);
      var below :=
        if up !in t then MakeDirs(t, up, newSize)
        else if t[up].Directory? then Success(t)
        else Failure(NotADirectory);
      match below
      case Failure(e) => Failure(e)
      case Success(t') => Success(t'[k := Directory(newSize)])
  }

  /** In a tree, every ancestor of an entry is a directory. */
  lemma {:induction false} AncestorsAreDirectories(t: Tree, k: seq<string>)
    requires WellFormed(t) && k in t
    ensures forall j :: 0 <= j < |k| ==> IsDirectory(t, k[..j])
    decreases |k|
  {
    if k != [] {
      var up := Parent(k);
      AncestorsAreDirectories(t, up);
      forall j | 0 <= j < |k| ensures IsDirectory(t, k[..j]) {
        if j < |up| {
          assert k[..j] == up[..j];
        } else {
          assert k[..j] == up;
        }
      }
    }
  }

  /**
   * What a successful mkdir with parents leaves behind: a tree in which every prefix of
   * k is a directory, every old entry is kept as it was, and the only new entries are
   * prefixes of k, each a fresh directory.
   */
  predicate GrownBy(t: Tree, t': Tree, k: seq<string>, newSize: nat) {
    && WellFormed(t')
    && (forall j :: 0 <= j <= |k| ==> IsDirectory(t', k[..j]))
    && (forall q :: q in t ==> q in t' && t'[q] == t[q])
    && (forall q :: q in t' && q !in t ==> q <= k && t'[q] == Directory(newSize))
  }

  /** Adding a missing directory under an existing directory keeps the tree well formed. */
  lemma AddUnderDirectory(t: Tree, k: seq<string>, newSize: nat)
    requires WellFormed(t) && k != [] && k !in t && IsDirectory(t, Parent(k))
    ensures WellFormed(t[k := Directory(newSize)])
  {
  }

  /** The prefixes of k are those of its parent and k itself. */
  lemma DirectoriesOnPathOfParent(t: Tree, k: seq<string>)
    requires k != []
    ensures DirectoriesOnPath(t, k) <==> DirectoriesOnPath(t, Parent(k)) && (k in t ==> t[k].Directory?)
  {
    var up := Parent(k);
    assert forall j :: 0 <= j <= |up| ==> up[..j] == k[..j];
    assert k[..|k|] == k;
    if DirectoriesOnPath(t, up) && (k in t ==> t[k].Directory?) {
      forall j | 0 <= j <= |k| && k[..j] in t ensures t[k[..j]].Directory? {
        if j == |k| { assert k[..j] == k; }
      }
    }
  }

  /** mkdir on an existing directory changes nothing; on an existing file it fails. */
  lemma MakeDirsPresent(t: Tree, k: seq<string>, newSize: nat)
    requires WellFormed(t) && k in t
    ensures MakeDirs(t, k, newSize).Success? <==> DirectoriesOnPath(t, k)
    ensures MakeDirs(t, k, newSize).Success? ==> GrownBy(t, MakeDirs(t, k, newSize).value, k, newSize)
  {
    AncestorsAreDirectories(t, k);
    assert k[..|k|] == k;
    if t[k].Directory? {
      forall j | 0 <= j <= |k| ensures IsDirectory(t, k[..j]) {
        if j == |k| { assert k[..j] == k; }
      }
    }
  }

  /** The growth of a tree by mkdir of the parent, extended by one more directory. */
  lemma GrownByChild(t: Tree, t1: Tree, k: seq<string>, newSize: nat)
    requires k != [] && k !in t && GrownBy(t, t1, Parent(k), newSize)
    ensures k !in t1
    ensures GrownBy(t, t1[k := Directory(newSize)], k, newSize)
  {
    var up := Parent(k);
    var t' := t1[k := Directory(newSize)];
    assert |k| > |up|;
    assert IsDirectory(t1, up) by { assert up[..|up|] == up; }
    AddUnderDirectory(t1, k, newSize);
    assert forall j :: 0 <= j <= |k| ==> IsDirectory(t', k[..j]) by {
      forall j | 0 <= j <= |k| ensures IsDirectory(t', k[..j]) {
        if j == |k| { assert k[..j] == k; } else { assert k[..j] == up[..j]; }
      }
    }
    assert forall q :: q in t ==> q in t' && t'[q] == t[q];
    assert forall q :: q in t' && q !in t ==> q <= k && t'[q] == Directory(newSize) by {
      forall q | q in t' && q !in t ensures q <= k && t'[q] == Directory(newSize) {
        if q != k { PrefixOfParent(q, k); }
      }
    }
  }

  /** A prefix of the parent is a prefix of the child. */
  lemma PrefixOfParent(q: seq<string>, k: seq<string>)
    requires k != [] && q <= Parent(k)
    ensures q <= k
  {
  }

  /**
   * mkdir with parents succeeds exactly when no component on the way is a regular file,
   * and then it grows the tree by the missing prefixes of k, as GrownBy says.
   */
  lemma {:induction false} MakeDirsMeaning(t: Tree, k: seq<string>, newSize: nat)
    requires WellFormed(t)
    ensures MakeDirs(t, k, newSize).Success? <==> DirectoriesOnPath(t, k)
    ensures MakeDirs(t, k, newSize).Success? ==> GrownBy(t, MakeDirs(t, k, newSize).value, k, newSize)
    decreases |k|
  {
    if k in t {
      MakeDirsPresent(t, k, newSize);
    } else {
      var up := Parent(k);
      DirectoriesOnPathOfParent(t, k);
      if up in t {
        MakeDirsPresent(t, up, newSize);
        if t[up].Directory? {
          assert MakeDirs(t, up, newSize) == Success(t);
          GrownByChild(t, t, k, newSize);
        } else {
          assert !DirectoriesOnPath(t, up) by { assert up[..|up|] == up; }
        }
      } else {
        MakeDirsMeaning(t, up, newSize);
        if MakeDirs(t, up, newSize).Success? {
          GrownByChild(t, MakeDirs(t, up, newSize).value, k, newSize);
        }
      }
    }
  }

  /**
   * `shutil.rmtree` on key k: a directory goes with everything beneath it; a missing
   * path raises FileNotFoundError; a regular file raises NotADirectoryError.
   */
  function RemoveTree(t: Tree, k: seq<string>): (r: Result<Tree, OSError>)
    ensures r.Success? <==> IsDirectory(t, k)
    ensures k !in t ==> r == Failure(FileNotFound)
    ensures r.Success? ==> k !in r.value && forall q :: q in r.value ==> q in t && !(k <= q) && r.value[q] == t[q]
  {
    if k !in t then Failure(FileNotFound)
    else if t[k].File? then Failure(NotADirectory)
    else Success(map q | q in t && !(k <= q) :: t[q])
  }

  /**
   * rmtree of a directory other than the root keeps the tree well formed, and removes
   * exactly the directory and the entries beneath it.
   */
  lemma RemoveTreeMeaning(t: Tree, k: seq<string>)
    requires WellFormed(t) && k != []
    ensures RemoveTree(t, k).Success? <==> IsDirectory(t, k)
    ensures RemoveTree(t, k).Success? ==>
      var t' := RemoveTree(t, k).value;
      && WellFormed(t')
      && k !in t'
      && (forall q :: q in t' <==> q in t && !(k <= q))
      && (forall q :: q in t' ==> t'[q] == t[q])
  {
  }

  /**
   * The process's view of its host: the filesystem tree, and the working directory,
   * home directory and new-directory size that the operating system supplies.
   */
  class FileSystem {
    var entries: Tree
    const cwd: PurePath
    const home: PurePath
    const newDirSize: nat

    ghost predicate Valid()
      reads this
    {
      WellFormed(entries) && PurePaths.Valid(cwd) && IsAbsolute(cwd) && PurePaths.Valid(home)
    }

    constructor (entries: Tree, cwd: PurePath, home: PurePath, newDirSize: nat)
      requires WellFormed(entries) && PurePaths.Valid(cwd) && IsAbsolute(cwd) && PurePaths.Valid(home)
      ensures Valid()
      ensures this.entries == entries && this.cwd == cwd && this.home == home && this.newDirSize == newDirSize
    {
      this.entries := entries;
      this.cwd := cwd;
      this.home := home;
      this.newDirSize := newDirSize;
    }

    /** `p.mkdir(parents=True, exist_ok=True)`: on failure nothing has been created. */
    method MakeDirectories(p: PurePath) returns (o: Outcome<OSError>)
      requires Valid()
      modifies this`entries
      ensures Valid()
      ensures var r := MakeDirs(old(entries), Locate(cwd, p), newDirSize);
        match r
        case Success(t) => o == Pass && entries == t
        case Failure(e) => o == Fail(e) && entries == old(entries)
    {
      MakeDirsMeaning(entries, Locate(cwd, p), newDirSize);
      match MakeDirs(entries, Locate(cwd, p), newDirSize)
      case Success(t) =>
        entries := t;
        o := Pass;
      case Failure(e) =>
        o := Fail(e);
    }

    /** `shutil.rmtree(p)`: on failure nothing has been removed. */
    method RemoveDirectoryTree(p: PurePath) returns (o: Outcome<OSError>)
      requires Valid() && Locate(cwd, p) != []
      modifies this`entries
      ensures Valid()
      ensures var r := RemoveTree(old(entries), Locate(cwd, p));
        match r
        case Success(t) => o == Pass && entries == t
        case Failure(e) => o == Fail(e) && entries == old(entries)
    {
      RemoveTreeMeaning(entries, Locate(cwd, p));
      match RemoveTree(entries, Locate(cwd, p))
      case Success(t) =>
        entries := t;
        o := Pass;
      case Failure(e) =>
        o := Fail(e);
    }
  }
}
