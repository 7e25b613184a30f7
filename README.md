# pabl image handler, modelled in Dafny

pabl is a small command-line tool that accepts image paths. All of its logic sits in
the `ImageHandler` class of `pabl/core.py`, and this project models that class:

- **Path validation** (`_validate_image_path`). The path must exist, and then its
  lower-cased suffix must be one of `.jpg .jpeg .png .gif .bmp .webp`. Existence is
  checked first, so a missing `.txt` file reports not-found.
- **The descriptor** (`process_image`). On success it holds `filename` (the final
  component), `size` (what `stat` reports), `format` (the lower-cased suffix without
  its dot) and `path` (the absolute path as a string).
- **The temporary directory** `<home>/.pabl/temp`. `__init__` sets it and creates it
  with `mkdir(parents=True, exist_ok=True)`. `_ensure_temp_dir` does that creation.
  `cleanup` removes the directory with `shutil.rmtree` if it exists.

The model has four modules:

- `Results` (`results.dfy`): `Result` and `Outcome`, for the operations that raise.
- `PurePaths` (`pure_paths.dfy`): the pathlib rules the handler depends on, POSIX
  flavour. These are `Path(s)` (exactly two leading slashes stay as `//`, while empty
  and `.` segments are dropped), `str(path)`, `name`, `suffix` (taken from the last dot,
  but only when that dot is neither the first nor the last character), ASCII `lower()`,
  the `/` operator and `absolute()`.
- `FileSystems` (`file_systems.dfy`): the host filesystem as a value. A tree maps
  absolute component lists to files or directories, each with its stat size. It has
  `exists()`, `mkdir(parents=True, exist_ok=True)` and `shutil.rmtree`, and a
  `FileSystem` class. That class holds the tree as mutable state, plus the working
  directory, the home directory, and the size the OS reports for a new directory.
- `Core` (`core.dfy`): the handler. Validation and the descriptor are pure functions
  over the tree. `ImageHandler` is a class with a `tempDir` field. Its methods change
  the `FileSystem` object, or only read it.

The temporary directory is `<home>/.pabl/temp`. The handler copies no files, keeps no
byte cache, builds no URL and moves nothing. The code's unsupported-format error is a
`ValueError`, modelled as `UnsupportedFormat`.

Edge cases the code has, and the model keeps:

- `Path.exists()` is also true for a directory, so a directory named `x.png` passes
  validation. Its descriptor then reports the directory's stat size.
- `__init__` raises when a component of `<home>/.pabl/temp` is a regular file.
  `ImageHandler.New` then returns a failure, and the filesystem is left unchanged.
- `cleanup` on a temporary directory that is a regular file makes `rmtree` raise
  `NotADirectoryError`. The model returns `Fail(NotADirectory)`.
- Lower-casing is ASCII only. Python's `str.lower()` is Unicode-aware, but no
  non-ASCII character lower-cases into one of the six suffixes. So acceptance and the
  `format` field are the same under both.

## Model

| member | source | states |
|---|---|---|
| `PurePaths.Parse` | pabl/core.py:25 | `Path(s)` always yields a well-formed path: anchor `""`, `/` or `//`, and no empty, `.` or slash-containing component |
| `PurePaths.ComponentsOfJoin` | pabl/core.py:25 | splitting a joined list of well-formed components gives the same list back |
| `PurePaths.ParseStr` | pabl/core.py:56 | `Path(str(p)) == p` for every path pathlib can produce |
| `PurePaths.ParsePart` | pabl/core.py:16 | a single component such as `.pabl` or `temp.txt` parses to a relative path of that one component |
| `PurePaths.Str` | pabl/core.py:56 | `str(path)` of a well-formed path is never empty, starts with the path's anchor, and for a relative path does not start with a separator; its meaning, `Path(str(p)) == p`, is carried by `PurePaths.ParseStr` |
| `PurePaths.Suffix` | pabl/core.py:30 | the suffix is non-empty exactly when the last dot is neither the first nor the last character; then it starts with that dot, has no later dot, is at least two characters long and ends the name |
| `PurePaths.SuffixOfStemExt` | pabl/core.py:30 | a name `stem.ext` with a non-empty stem and a non-empty, dot-free ext has suffix `.ext` |
| `PurePaths.SuffixOfDotName` | pabl/core.py:30 | a name whose only dot is its first character, such as `.jpg`, has an empty suffix |
| `PurePaths.Name` | pabl/core.py:53 | `path.name` of a well-formed path is empty exactly when there are no components, and otherwise contains no separator and is not `.` |
| `PurePaths.Lower` | pabl/core.py:30 | lower-casing keeps the length and maps each character by the ASCII rule |
| `PurePaths.LowerIdempotent` | pabl/core.py:30 | lower-casing twice is the same as lower-casing once |
| `PurePaths.SuffixOfLower` | pabl/core.py:30 | taking the suffix commutes with lower-casing |
| `PurePaths.JoinPath` | pabl/core.py:16 | the `/` operator keeps a path well formed |
| `PurePaths.Absolute` | pabl/core.py:56 | `absolute()` keeps a path well formed, gives an absolute path under an absolute working directory, keeps the final component, and leaves an absolute path alone |
| `FileSystems.AncestorsAreDirectories` | pabl/core.py:21 | in a well-formed tree every ancestor of an entry is a directory |
| `FileSystems.Exists` | pabl/core.py:27 | `exists()` (also used at line 62) is true exactly when the path, made absolute under the working directory, has an entry, file or directory |
| `FileSystems.MakeDirs` | pabl/core.py:21 | `mkdir(parents=True, exist_ok=True)`: on success the key is a directory and every old entry is kept; an existing directory leaves the tree unchanged; an existing file raises `FileExistsError`. The full meaning is `FileSystems.MakeDirsMeaning` |
| `FileSystems.MakeDirsPresent` | pabl/core.py:21 | `mkdir(parents=True, exist_ok=True)` on an existing directory succeeds and changes nothing; on a regular file it fails |
| `FileSystems.GrownByChild` | pabl/core.py:21 | after the missing parent has been created, creating the child grows the tree by exactly the missing prefixes |
| `FileSystems.MakeDirsMeaning` | pabl/core.py:21 | mkdir with parents succeeds exactly when no component on the path is a regular file. On success the tree stays well formed, every prefix is a directory, old entries are untouched, and the only new entries are fresh directories on the path |
| `FileSystems.RemoveTreeMeaning` | pabl/core.py:63 | rmtree of a non-root path succeeds exactly on a directory. It removes exactly that directory and everything beneath it, keeps all other entries, and leaves a well-formed tree |
| `FileSystems.RemoveTree` | pabl/core.py:63 | `shutil.rmtree` succeeds exactly on a directory, raises `FileNotFoundError` on a missing path, and on success removes the key and keeps only old entries not beneath it, unchanged. Well-formedness is carried by `FileSystems.RemoveTreeMeaning` |
| `FileSystems.FileSystem.constructor` | pabl/core.py:16 | a host view with a well-formed tree, an absolute working directory and a home path |
| `FileSystems.FileSystem.MakeDirectories` | pabl/core.py:21 | the tree after `mkdir(parents=True, exist_ok=True)` is the mkdir result; on failure it is unchanged and the error is reported |
| `FileSystems.FileSystem.RemoveDirectoryTree` | pabl/core.py:63 | the tree after `rmtree` is the rmtree result; on failure it is unchanged and the error is reported |
| `Core.Validate` | pabl/core.py:23-36 | a path that does not exist fails with `NotFound` whatever its suffix. An existing path with an unsupported lower-cased suffix fails with `UnsupportedFormat`. Validation succeeds exactly when both checks pass, and then returns the parsed argument itself |
| `Core.AsPath` | pabl/core.py:25 | `Path(file_path)` of a string, or of a path pathlib produced, is a well-formed path |
| `Core.HasSupportedSuffix` | pabl/core.py:30 | the format check holds exactly when the final component is an image name in the sense of `Core.SupportedSuffixIff` |
| `Core.DotFormat` | pabl/core.py:12 | the accepted suffixes are exactly the six format names with a dot in front |
| `Core.SupportedSuffixIff` | pabl/core.py:30 | the format check accepts a name exactly when some dot, not the first character and with no dot after it, is followed by one of the six formats in any mix of case |
| `Core.SupportedSuffixIsImageName` | pabl/core.py:30 | an accepted name has a dot, not its first character, that is followed by a format and by no later dot |
| `Core.ImageNameIsSupported` | pabl/core.py:30 | a name with a non-leading last dot followed by a format in any case is accepted |
| `Core.LowerAfterDot` | pabl/core.py:30 | lower-casing text that starts with a dot keeps the dot in front |
| `Core.FormatCheckIgnoresCase` | pabl/core.py:30 | two names equal up to ASCII case are both accepted or both refused |
| `Core.ValidateIgnoresCase` | pabl/core.py:30 | two existing paths whose names agree up to case either both validate or both fail (`photo.JPG` and `photo.jpg`) |
| `Core.PathArgumentAgrees` | pabl/core.py:25 | validating a `Path` object gives the same result as validating its string form |
| `Core.UpperCaseExample` | pabl/core.py:30 | `photo.JPG` has the accepted lower-cased suffix `.jpg` |
| `Core.DoubleSuffixExample` | pabl/core.py:30 | `a.tar.PNG` is judged by its last suffix, `.png` |
| `Core.HiddenNameExample` | pabl/core.py:30 | a bare `.jpg` has an empty suffix and is refused |
| `Core.TextFileExample` | tests/test_core.py:21-32 | `temp.txt` is refused by the format check |
| `Core.UnitTestCases` | tests/test_core.py:15-32 | a missing `nonexistent.jpg` fails with `NotFound`; an existing `temp.txt` fails with `UnsupportedFormat` |
| `Core.Process` | pabl/core.py:38-57 | succeeds exactly when validation succeeds and otherwise raises the same error. On success the format is one of the six names, with no dot, and equals the lower-cased suffix of the filename without its dot. The filename is the argument's final component and is not empty |
| `Core.DescriptorNamesTheFile` | pabl/core.py:53-56 | the descriptor's path is absolute and parses back to the argument made absolute, and its final component is the filename. Looking that path up finds the entry whose size the descriptor reports |
| `Core.TempDirShape` | pabl/core.py:16 | the temporary directory is the home path with `.pabl` and `temp` appended |
| `Core.TempDirUnder` | pabl/core.py:16 | `Path.home() / '.pabl' / 'temp'` keeps the home anchor and components, adds two components, ends in `temp`, and is well formed when home is; the exact components are `Core.TempDirShape` |
| `Core.EnsureIsIdempotent` | pabl/core.py:19-21 | after one successful creation, creating the temporary directory again succeeds and changes nothing |
| `Core.CleanupMeaning` | pabl/core.py:59-63 | cleanup fails, with `NotADirectory`, exactly when the temporary directory is a regular file. Otherwise the directory and everything beneath it are gone, the rest is untouched, the tree stays well formed, and a second cleanup changes nothing |
| `Core.CleanupEffect` | pabl/core.py:62-63 | cleanup is a no-op on a missing directory, fails with `NotADirectory` exactly on a regular file, and on success removes the directory and keeps only unchanged old entries; the rest is `Core.CleanupMeaning` |
| `Core.PrefixInTree` | pabl/core.py:62 | in a well-formed tree every prefix of an existing path exists, so a missing directory has nothing beneath it |
| `Core.ImageHandler.constructor` | pabl/core.py:16 | `temp_dir` is `<home>/.pabl/temp` |
| `Core.ImageHandler.New` | pabl/core.py:14-17 | construction succeeds exactly when no component of the temporary directory's path is a regular file. Afterwards the directory exists and is a directory; on failure no handler results and the filesystem is unchanged |
| `Core.ImageHandler.EnsureTempDir` | pabl/core.py:19-21 | the filesystem becomes the mkdir result. It succeeds exactly when no component is a regular file, and afterwards the directory exists. When the directory already exists, it is a no-op that succeeds |
| `Core.ImageHandler.ValidateImagePath` | pabl/core.py:23-36 | changes nothing; reports `NotFound` for a missing path and `UnsupportedFormat` for an existing one it refuses; a returned path exists and has an accepted suffix |
| `Core.ImageHandler.ProcessImage` | pabl/core.py:38-57 | changes nothing; raises validation's error in validation's order; on success the size is the one recorded for the existing entry, the filename is the final component, the format is one of the six names and the path is the argument made absolute |
| `Core.ImageHandler.Cleanup` | pabl/core.py:59-63 | the filesystem becomes the cleanup result. On success the temporary directory no longer exists. When it was absent, cleanup succeeds and changes nothing |
| `Core.Lifecycle` | pabl/core.py:14-63 | the test of tests/test_core.py:9-13 carried on through `_ensure_temp_dir` (lines 19-21) and two calls of `cleanup` (lines 59-63): construct the handler, ensure the directory again, clean up twice. A handler results exactly when no component of `<home>/.pabl/temp` is a regular file, and otherwise the filesystem is unchanged. When it results, its `temp_dir` is `<home>/.pabl/temp`, `created` is the tree mkdir with parents produces from the initial one, `cleaned` is the tree cleanup produces from `ensured`, the directory is a directory in the tree after construction, the repeated ensure leaves that tree as it was, all three later calls succeed, the directory is absent after the first cleanup, and the second cleanup leaves that tree as it was |

## Left out

- `pabl/cli.py`, `pabl/__init__.py` and `setup.py`: argument parsing, printing, the interactive loop and packaging. These have no logic of their own beyond calling `process_image`.
- The text of the exception messages, which joins a `set` in an unspecified order.
- `Path.home()`, `os.getcwd()` and the size the OS reports for a new directory: the `FileSystem` object supplies these as constants.
- Operating-system behaviour beyond the tree: permissions, symbolic links, races, name-length limits and mount points. A `..` component is treated as an ordinary name, not resolved. The anchor `//` addresses the same tree as `/`, as it does on Linux.
- Windows paths: only pathlib's POSIX flavour is modelled.
- `PurePaths.Lower`: ASCII lower-casing, not the full Unicode `str.lower()`. The two agree on everything the handler computes with it (see above).
- `shutil.rmtree` deleting entries one by one: the model removes the whole subtree in one step. A failure part-way through a deletion is not modelled.
