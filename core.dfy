/**
 * The image handler: validation of an image path, the descriptor built for a valid
 * image, and the lifecycle of the handler's temporary directory `<home>/.pabl/temp`.
 */
module Core {
  import opened Results
  import opened PurePaths
  import opened FileSystems

  /** The accepted suffixes, lower case, dot included. */
  const SupportedFormats: set<string> := {".jpg", ".jpeg", ".png", ".gif", ".bmp", ".webp"}

  /** The same formats without the dot: the values a descriptor's format can take. */
  const FormatNames: set<string> := {"jpg", "jpeg", "png", "gif", "bmp", "webp"}

  /** The two errors validation raises: FileNotFoundError and ValueError. */
  datatype ImageError = NotFound | UnsupportedFormat

  /** The argument accepted where the handler takes `Union[str, Path]`. */
  datatype PathLike = Text(s: string) | PathObject(p: PurePath)

  /** A path argument a caller can hold: any string, or a path pathlib produced. */
  predicate ArgValid(x: PathLike) {
    x.Text? || PurePaths.Valid(x.p)
  }

  /** `Path(file_path)`. */
  function AsPath(x: PathLike): (p: PurePath)
    ensures ArgValid(x) ==> PurePaths.Valid(p)
  {
    match x
    case Text(s) => Parse(s)
    case PathObject(p) => p
  }

  /** `path.suffix.lower() in SUPPORTED_FORMATS`. */
  predicate HasSupportedSuffix(p: PurePath): (b: bool)
    ensures b <==> IsImageName(Name(p))
  {
    SupportedSuffixIff(Name(p));
    Lower(Suffix(Name(p))) in SupportedFormats
  }

  // ---------------------------------------------------------------------------
  // Validation

  /**
   * `_validate_image_path`: existence is checked first, the format second; on success
   * the parsed argument is returned. Nothing is changed.
   */
  function Validate(t: Tree, cwd: PurePath, x: PathLike): (r: Result<PurePath, ImageError>)
    ensures !Exists(t, cwd, AsPath(x)) ==> r == Failure(NotFound)
    ensures Exists(t, cwd, AsPath(x)) && !HasSupportedSuffix(AsPath(x)) ==> r == Failure(UnsupportedFormat)
    ensures r.Success? <==> Exists(t, cwd, AsPath(x)) && HasSupportedSuffix(AsPath(x))
    ensures r.Success? ==> r.value == AsPath(x)
  {
    var path := AsPath(x);
    if !Exists(t, cwd, path) then Failure(NotFound)
    else if !HasSupportedSuffix(path) then Failure(UnsupportedFormat)
    else Success(path)
  }

  /**
   * A name is an image name when it has a dot that is not its first character, no dot
   * after it, and one of the formats after it in any mix of cases.
   */
  ghost predicate IsImageName(n: string) {
    exists i :: 0 < i < |n| && n[i] == '.' && '.' !in n[i + 1..] && Lower(n[i + 1..]) in FormatNames
  }

  /** The accepted suffixes are the format names with a dot in front. */
  lemma DotFormat(f: string)
    ensures "." + f in SupportedFormats <==> f in FormatNames
  {
    var d := "." + f;
    assert f == d[1..];
    assert d == ".jpg" <==> f == "jpg";
    assert d == ".jpeg" <==> f == "jpeg";
    assert d == ".png" <==> f == "png";
    assert d == ".gif" <==> f == "gif";
    assert d == ".bmp" <==> f == "bmp";
    assert d == ".webp" <==> f == "webp";
  }

  /** Lower-casing a string that starts with a dot keeps the dot in front. */
  lemma LowerAfterDot(n: string, i: nat)
    requires i < |n| && n[i] == '.'
    ensures Lower(n[i..]) == "." + Lower(n[i + 1..])
  {
    assert forall m :: 0 < m < |n| - i ==> n[i..][m] == n[i + 1..][m - 1];
  }

  /** The format check accepts exactly the image names. */
  lemma SupportedSuffixIff(n: string)
    ensures Lower(Suffix(n)) in SupportedFormats <==> IsImageName(n)
  {
    if Lower(Suffix(n)) in SupportedFormats {
      SupportedSuffixIsImageName(n);
    }
    if IsImageName(n) {
      var j :| 0 < j < |n| && n[j] == '.' && '.' !in n[j + 1..] && Lower(n[j + 1..]) in FormatNames;
      ImageNameIsSupported(n, j);
    }
  }

  lemma SupportedSuffixIsImageName(n: string)
    requires Lower(Suffix(n)) in SupportedFormats
    ensures IsImageName(n)
  {
    var i := LastDot(n);
    assert Suffix(n) != "";
    assert Suffix(n) == n[i..];
    LowerAfterDot(n, i);
    DotFormat(Lower(n[i + 1..]));
    assert '.' !in n[i + 1..];
  }

  lemma ImageNameIsSupported(n: string, j: int)
    requires 0 < j < |n| && n[j] == '.' && '.' !in n[j + 1..] && Lower(n[j + 1..]) in FormatNames
    ensures Lower(Suffix(n)) in SupportedFormats
  {
    assert forall m :: j < m < |n| ==> n[m] == n[j + 1..][m - j - 1];
    assert LastDot(n) == j;
    assert |Lower(n[j + 1..])| > 0;
    assert Suffix(n) == n[j..];
    LowerAfterDot(n, j);
    DotFormat(Lower(n[j + 1..]));
  }

  /** The format check ignores case: names equal up to case are accepted alike. */
  lemma FormatCheckIgnoresCase(n1: string, n2: string)
    requires Lower(n1) == Lower(n2)
    ensures (Lower(Suffix(n1)) in SupportedFormats) == (Lower(Suffix(n2)) in SupportedFormats)
  {
    SuffixOfLower(n1);
    SuffixOfLower(n2);
    LowerIdempotent(Suffix(n1));
    LowerIdempotent(Suffix(n2));
  }

  /** Two existing paths whose names agree up to case are both valid or both invalid. */
  lemma ValidateIgnoresCase(t: Tree, cwd: PurePath, x: PathLike, y: PathLike)
    requires Exists(t, cwd, AsPath(x)) && Exists(t, cwd, AsPath(y))
    requires Lower(Name(AsPath(x))) == Lower(Name(AsPath(y)))
    ensures Validate(t, cwd, x).Success? == Validate(t, cwd, y).Success?
  {
    FormatCheckIgnoresCase(Name(AsPath(x)), Name(AsPath(y)));
  }

  /** Passing a path object or its string form makes no difference. */
  lemma PathArgumentAgrees(t: Tree, cwd: PurePath, p: PurePath)
    requires PurePaths.Valid(p)
    ensures Validate(t, cwd, PathObject(p)) == Validate(t, cwd, Text(Str(p)))
  {
    ParseStr(p);
  }

  /** `photo.JPG` is accepted, as `photo.jpg` is. */
  lemma UpperCaseExample()
    ensures Lower(Suffix("photo.JPG")) == ".jpg"
  {
    SuffixOfStemExt("photo", "JPG");
    assert "photo" + "." + "JPG" == "photo.JPG";
    assert Lower(".JPG") == ".jpg";
  }

  /** `a.tar.PNG` is judged by its last suffix only. */
  lemma DoubleSuffixExample()
    ensures Lower(Suffix("a.tar.PNG")) == ".png"
  {
    SuffixOfStemExt("a.tar", "PNG");
    assert "a.tar" + "." + "PNG" == "a.tar.PNG";
    assert Lower(".PNG") == ".png";
  }

  /** A bare `.jpg` has no suffix at all, so it is refused. */
  lemma HiddenNameExample()
    ensures Suffix(".jpg") == "" && Lower(Suffix(".jpg")) !in SupportedFormats
  {
    SuffixOfDotName("jpg");
    assert "." + "jpg" == ".jpg";
  }

  /** `temp.txt` is refused. */
  lemma TextFileExample()
    ensures Lower(Suffix("temp.txt")) !in SupportedFormats
  {
    SuffixOfStemExt("temp", "txt");
    assert "temp" + "." + "txt" == "temp.txt";
    assert Lower(".txt") == ".txt";
  }

  /** A missing `nonexistent.jpg` is reported as not found, an existing `temp.txt` as unsupported. */
  lemma UnitTestCases(t: Tree, cwd: PurePath)
    ensures !Exists(t, cwd, Parse("nonexistent.jpg")) ==> Validate(t, cwd, Text("nonexistent.jpg")) == Failure(NotFound)
    ensures Exists(t, cwd, Parse("temp.txt")) ==> Validate(t, cwd, Text("temp.txt")) == Failure(UnsupportedFormat)
  {
    ParsePart("temp.txt");
    assert Name(Parse("temp.txt")) == "temp.txt";
    TextFileExample();
  }

  // ---------------------------------------------------------------------------
  // Descriptor

  /** The record `process_image` returns. */
  datatype ImageInfo = ImageInfo(filename: string, size: nat, format: string, path: string)

  /**
   * `process_image`: validation, then the final component, the size stat reports,
   * the lower-cased suffix without its dot and the absolute path as a string.
   */
  function Process(t: Tree, cwd: PurePath, x: PathLike): (r: Result<ImageInfo, ImageError>)
    ensures r.Success? <==> Validate(t, cwd, x).Success?
    ensures r.Failure? ==> r.error == Validate(t, cwd, x).error
    ensures r.Success? ==> r.value.format in FormatNames && "." + r.value.format == Lower(Suffix(r.value.filename))
    ensures r.Success? ==> r.value.filename == Name(AsPath(x)) && r.value.filename != ""
  {
    match Validate(t, cwd, x)
    case Failure(e) => Failure(e)
    case Success(path) =>
      var suffix := Lower(Suffix(Name(path)));
      DotFormat(suffix[1..]);
      assert suffix == "." + suffix[1..];
      Success(ImageInfo(
                filename := Name(path),
                size := t[Locate(cwd, path)].size,
                format := suffix[1..],
                path := Str(Absolute(cwd, path))))
  }

  /**
   * The descriptor's path is absolute, parses back to the argument made absolute, ends
   * in the descriptor's filename, and names the very entry whose size is reported.
   */
  lemma DescriptorNamesTheFile(t: Tree, cwd: PurePath, x: PathLike)
    requires PurePaths.Valid(cwd) && IsAbsolute(cwd) && ArgValid(x)
    requires Process(t, cwd, x).Success?
    ensures var d := Process(t, cwd, x).value;
      var q := Parse(d.path);
      && IsAbsolute(q)
      && q == Absolute(cwd, AsPath(x))
      && Name(q) == d.filename
      && Locate(cwd, q) in t
      && t[Locate(cwd, q)].size == d.size
  {
    var path := AsPath(x);
    var a := Absolute(cwd, path);
    ParseStr(a);
    assert Locate(cwd, a) == Locate(cwd, path);
  }

  // ---------------------------------------------------------------------------
  // Temporary directory

  /** `Path.home() / '.pabl' / 'temp'`. */
  function TempDirUnder(home: PurePath): (d: PurePath)
    ensures d.root == home.root && |d.parts| == |home.parts| + 2 && d.parts[..|home.parts|] == home.parts
    ensures Name(d) == "temp"
    ensures PurePaths.Valid(home) ==> PurePaths.Valid(d)
  {
    ParsePart(".pabl");
    ParsePart("temp");
    JoinPath(JoinPath(home, ".pabl"), "temp")
  }

  /** The temporary directory is the home directory with `.pabl` and `temp` appended. */
  lemma TempDirShape(home: PurePath)
    ensures TempDirUnder(home) == PurePath(home.root, home.parts + [".pabl", "temp"])
  {
    ParsePart(".pabl");
    ParsePart("temp");
  }

  /** A successful mkdir of the temporary directory, repeated, changes nothing and succeeds. */
  lemma EnsureIsIdempotent(t: Tree, k: seq<string>, newSize: nat)
    requires WellFormed(t) && MakeDirs(t, k, newSize).Success?
    ensures MakeDirs(MakeDirs(t, k, newSize).value, k, newSize) == MakeDirs(t, k, newSize)
  {
    MakeDirsMeaning(t, k, newSize);
    assert k[..|k|] == k;
  }

  /** `cleanup`: rmtree when the directory exists, nothing otherwise. */
  function CleanupEffect(t: Tree, k: seq<string>): (r: Result<Tree, OSError>)
    ensures k !in t ==> r == Success(t)
    ensures r.Failure? <==> k in t && t[k].File?
    ensures r.Failure? ==> r.error == NotADirectory
    ensures r.Success? ==> k !in r.value && forall q :: q in r.value ==> q in t && r.value[q] == t[q]
  {
    if k in t then RemoveTree(t, k) else Success(t)
  }

  /**
   * cleanup fails only when the temporary directory is a regular file; otherwise the
   * directory and everything beneath it are gone, the rest is untouched, and a second
   * cleanup changes nothing.
   */
  lemma CleanupMeaning(t: Tree, k: seq<string>)
    requires WellFormed(t) && k != []
    ensures CleanupEffect(t, k).Failure? <==> k in t && t[k].File?
    ensures CleanupEffect(t, k).Failure? ==> CleanupEffect(t, k).error == NotADirectory
    ensures CleanupEffect(t, k).Success? ==>
      var t' := CleanupEffect(t, k).value;
      && WellFormed(t')
      && (forall q :: q in t' <==> q in t && !(k <= q))
      && (forall q :: q in t' ==> t'[q] == t[q])
      && CleanupEffect(t', k) == Success(t')
  {
    RemoveTreeMeaning(t, k);
    if k !in t {
      forall q | q in t ensures !(k <= q) {
        if k <= q { PrefixInTree(t, q, k); }
      }
    }
  }

  /** In a tree, the prefixes of an entry are entries. */
  lemma PrefixInTree(t: Tree, q: seq<string>, k: seq<string>)
    requires WellFormed(t) && q in t && k <= q
    ensures k in t
  {
    AncestorsAreDirectories(t, q);
    if |k| == |q| { assert k == q; } else { assert k == q[..|k|]; }
  }

  /** The handler, holding the path of its temporary directory. */
  class ImageHandler {
    var tempDir: PurePath

    ghost predicate Valid()
      reads this
    {
      PurePaths.Valid(tempDir) && tempDir.parts != []
    }

    /** The assignment of `temp_dir` in the initialiser. */
    constructor (fs: FileSystem)
      requires fs.Valid()
      ensures Valid() && tempDir == TempDirUnder(fs.home)
    {
      TempDirShape(fs.home);
      tempDir := TempDirUnder(fs.home);
    }

    /**
     * `ImageHandler()`: the temporary directory is set and created. Creation fails, and
     * no handler results, exactly when a component of that path is a regular file.
     */
    static method New(fs: FileSystem) returns (r: Result<ImageHandler, OSError>)
      requires fs.Valid()
      modifies fs
      ensures fs.Valid()
      ensures r.Success? <==> DirectoriesOnPath(old(fs.entries), Locate(fs.cwd, TempDirUnder(fs.home)))
      ensures r.Success? ==> fresh(r.value) && r.value.Valid() && r.value.tempDir == TempDirUnder(fs.home)
      ensures r.Success? ==> IsDirectory(fs.entries, Locate(fs.cwd, TempDirUnder(fs.home)))
      ensures match MakeDirs(old(fs.entries), Locate(fs.cwd, TempDirUnder(fs.home)), fs.newDirSize)
        case Success(t) => r.Success? && fs.entries == t
        case Failure(e) => r == Failure(e) && fs.entries == old(fs.entries)
    {
      var h := new ImageHandler(fs);
      var o := h.EnsureTempDir(fs);
      match o
      case Pass => r := Success(h);
      case Fail(e) => r := Failure(e);
    }

    /**
     * `_ensure_temp_dir`: creates the directory and its missing parents. It succeeds
     * exactly when no component is a regular file, and is a no-op once the directory exists.
     */
    method EnsureTempDir(fs: FileSystem) returns (o: Outcome<OSError>)
      requires Valid() && fs.Valid()
      modifies fs
      ensures fs.Valid()
      ensures match MakeDirs(old(fs.entries), Locate(fs.cwd, tempDir), fs.newDirSize)
        case Success(t) => o == Pass && fs.entries == t
        case Failure(e) => o == Fail(e) && fs.entries == old(fs.entries)
      ensures o == Pass <==> DirectoriesOnPath(old(fs.entries), Locate(fs.cwd, tempDir))
      ensures o == Pass ==> IsDirectory(fs.entries, Locate(fs.cwd, tempDir))
      ensures IsDirectory(old(fs.entries), Locate(fs.cwd, tempDir)) ==> o == Pass && fs.entries == old(fs.entries)
    {
      ghost var k := Locate(fs.cwd, tempDir);
      MakeDirsMeaning(fs.entries, k, fs.newDirSize);
      assert k[..|k|] == k;
      o := fs.MakeDirectories(tempDir);
    }

    /** `_validate_image_path`, reading the filesystem and changing nothing. */
    method ValidateImagePath(fs: FileSystem, x: PathLike) returns (r: Result<PurePath, ImageError>)
      ensures r == Validate(fs.entries, fs.cwd, x)
      ensures r.Failure? ==> r.error == if Exists(fs.entries, fs.cwd, AsPath(x)) then UnsupportedFormat else NotFound
      ensures r.Success? ==> Locate(fs.cwd, r.value) in fs.entries && Lower(Suffix(Name(r.value))) in SupportedFormats
    {
      r := Validate(fs.entries, fs.cwd, x);
    }

    /** `process_image`, reading the filesystem and changing nothing. */
    method ProcessImage(fs: FileSystem, x: PathLike) returns (r: Result<ImageInfo, ImageError>)
      ensures r == Process(fs.entries, fs.cwd, x)
      ensures r.Failure? ==> r.error == if Exists(fs.entries, fs.cwd, AsPath(x)) then UnsupportedFormat else NotFound
      ensures r.Success? ==>
        && Locate(fs.cwd, AsPath(x)) in fs.entries
        && r.value.size == fs.entries[Locate(fs.cwd, AsPath(x))].size
        && r.value.filename == Name(AsPath(x))
        && r.value.format in FormatNames
        && r.value.path == Str(Absolute(fs.cwd, AsPath(x)))
    {
      r := Process(fs.entries, fs.cwd, x);
    }

    /**
     * `cleanup`: removes the temporary directory and everything beneath it when it
     * exists. Afterwards it is gone, unless it was a regular file, which rmtree refuses.
     */
    method Cleanup(fs: FileSystem) returns (o: Outcome<OSError>)
      requires Valid() && fs.Valid()
      modifies fs
      ensures fs.Valid()
      ensures var k := Locate(fs.cwd, tempDir);
        match CleanupEffect(old(fs.entries), k)
        case Success(t) => o == Pass && fs.entries == t
        case Failure(e) => o == Fail(e) && fs.entries == old(fs.entries)
      ensures o == Pass ==> !Exists(fs.entries, fs.cwd, tempDir)
      ensures !Exists(old(fs.entries), fs.cwd, tempDir) ==> o == Pass && fs.entries == old(fs.entries)
    {
      ghost var k := Locate(fs.cwd, tempDir);
      CleanupMeaning(fs.entries, k);
      if Exists(fs.entries, fs.cwd, tempDir) {
        o := fs.RemoveDirectoryTree(tempDir);
      } else {
        o := Pass;
      }
    }
  }

  /**
   * A handler's life as a caller sees it: once constructed, its directory exists
   * (tree `created`); ensuring it again succeeds and leaves the tree as it was (`ensured`);
   * cleanup removes it (tree `cleaned`); a second cleanup succeeds and leaves `cleaned`
   * as it was. The three outcomes after construction are those of the ensure and the
   * two cleanups.
   */
  method Lifecycle(fs: FileSystem) returns (h: ImageHandler?, outcomes: seq<Outcome<OSError>>, ghost created: Tree, ghost ensured: Tree, ghost cleaned: Tree)
    requires fs.Valid()
    modifies fs
    ensures fs.Valid()
    ensures h == null ==> fs.entries == old(fs.entries) && outcomes == []
    ensures h != null <==> DirectoriesOnPath(old(fs.entries), Locate(fs.cwd, TempDirUnder(fs.home)))
    ensures h != null ==>
      var k := Locate(fs.cwd, TempDirUnder(fs.home));
      && h.tempDir == TempDirUnder(fs.home)
      && MakeDirs(old(fs.entries), k, fs.newDirSize) == Success(created)
      && CleanupEffect(ensured, k) == Success(cleaned)
    ensures h != null ==> IsDirectory(created, Locate(fs.cwd, h.tempDir)) && ensured == created
    ensures h != null ==> !Exists(cleaned, fs.cwd, h.tempDir)
    ensures h != null ==> outcomes == [Pass, Pass, Pass] && fs.entries == cleaned
  {
    var r := ImageHandler.New(fs);
    if r.Failure? {
      return null, [], fs.entries, fs.entries, fs.entries;
    }
    h := r.value;
    created := fs.entries;
    var o1 := h.EnsureTempDir(fs);
    ensured := fs.entries;
    var o2 := h.Cleanup(fs);
    cleaned := fs.entries;
    var o3 := h.Cleanup(fs);
    outcomes := [o1, o2, o3];
  }
}
