/**
 * The rules of Python's pathlib, POSIX flavour, that the image handler relies on:
 * how a path string is parsed and rendered back, the final component, its suffix,
 * ASCII lower-casing, joining with `/` and making a path absolute.
 */
module PurePaths {

  /** A parsed path: its anchor ("" for a relative path, "/" or "//") and its components. */
  datatype PurePath = PurePath(root: string, parts: seq<string>)

  /** A component as pathlib keeps it: not empty, not ".", no separator. */
  predicate IsPart(c: string) {
    c != "" && c != "." && '/' !in c
  }

  /** The paths pathlib can produce. */
  predicate Valid(p: PurePath) {
    && (p.root == "" || p.root == "/" || p.root == "//")
    && forall i :: 0 <= i < |p.parts| ==> IsPart(p.parts[i])
  }

  predicate IsAbsolute(p: PurePath) {
    p.root != ""
  }

  // ---------------------------------------------------------------------------
  // Parsing and rendering

  /** The length of the leading run of characters that are not a separator. */
  function SegmentEnd(s: string): (k: nat)
    ensures k <= |s|
    ensures k < |s| ==> s[k] == '/'
    ensures forall i :: 0 <= i < k ==> s[i] != '/'
  {
    if s == [] || s[0] == '/' then 0 else 1 + SegmentEnd(s[1..])
  }

  /** The components of a path without its anchor: empty and "." segments are dropped. */
  function Components(s: string): (cs: seq<string>)
    ensures forall i :: 0 <= i < |cs| ==> IsPart(cs[i])
    decreases |s|
  {
    if s == [] then []
    else
      var k := SegmentEnd(s);
      var rest := if k < |s| then Components(s[k + 1..]) else [];
      if s[..k] == "" || s[..k] == "." then rest else [s[..k]] + rest
  }

  /**
   * POSIX splitroot: exactly two leading slashes are kept as the anchor "//";
   * one, three or more collapse to "/".
   */
  function RootOf(s: string): (root: string)
    ensures root == "" || root == "/" || root == "//"
    ensures |root| <= |s| && s[..|root|] == root
  {
    if |s| >= 1 && s[0] == '/' then
      if |s| >= 2 && s[1] == '/' && !(|s| >= 3 && s[2] == '/') then "//" else "/"
    else ""
  }

  /** `Path(s)`. */
  function Parse(s: string): (p: PurePath)
    ensures Valid(p)
  {
    var root := RootOf(s);
    PurePath(root, Components(s[|root|..]))
  }

  /** The components separated by '/'. */
  function Join(cs: seq<string>): string
  {
    if cs == [] then "" else if |cs| == 1 then cs[0] else cs[0] + "/" + Join(cs[1..])
  }

  /** `str(path)`: the empty relative path prints as ".". */
  function Str(p: PurePath): (s: string)
    ensures Valid(p) ==> s != ""
    ensures |p.root| <= |s| && s[..|p.root|] == p.root
    ensures p.root == "" && p.parts != [] && IsPart(p.parts[0]) ==> |s| > 0 && s[0] != '/'
  {
    if p.root == "" && p.parts == [] then "."
    else if p.parts != [] && IsPart(p.parts[0]) then JoinStart(p.parts); p.root + Join(p.parts)
    else p.root + Join(p.parts)
  }

  lemma {:induction false} SegmentEndOfPart(c: string, t: string)
    requires '/' !in c
    ensures SegmentEnd(c + t) == |c| + SegmentEnd(t)
  {
    if c != [] {
      assert (c + t)[0] == c[0];
      assert (c + t)[1..] == c[1..] + t;
      SegmentEndOfPart(c[1..], t);
    } else {
      assert c + t == t;
    }
  }

  /** Joining valid components yields a string that starts with the first one. */
  lemma {:induction false} JoinStart(cs: seq<string>)
    requires cs != [] && IsPart(cs[0])
    ensures |Join(cs)| >= |cs[0]| && Join(cs)[..|cs[0]|] == cs[0]
  {
  }

  /** Splitting a joined list of components gives the list back. */
  lemma {:induction false} ComponentsOfJoin(cs: seq<string>)
    requires forall i :: 0 <= i < |cs| ==> IsPart(cs[i])
    ensures Components(Join(cs)) == cs
  {
    if cs == [] {
    } else if |cs| == 1 {
      SegmentEndOfPart(cs[0], "");
      assert cs[0] + "" == cs[0];
      assert Join(cs)[..|cs[0]|] == cs[0];
    } else {
      var tail := Join(cs[1..]);
      var s := cs[0] + "/" + tail;
      assert s == cs[0] + ("/" + tail);
      SegmentEndOfPart(cs[0], "/" + tail);
      assert SegmentEnd(s) == |cs[0]|;
      assert s[..|cs[0]|] == cs[0];
      assert s[|cs[0]| + 1..] == tail;
      ComponentsOfJoin(cs[1..]);
    }
  }

  /** Rendering a path and parsing it again gives the same path. */
  lemma {:induction false} ParseStr(p: PurePath)
    requires Valid(p)
    ensures Parse(Str(p)) == p
  {
    var s := Str(p);
    if p.root == "" && p.parts == [] {
      assert s == ".";
      assert SegmentEnd(s) == 1;
    } else {
      assert s == p.root + Join(p.parts);
      ComponentsOfJoin(p.parts);
      if p.parts != [] {
        JoinStart(p.parts);
        var j := Join(p.parts);
        assert j[0] == p.parts[0][0] != '/';
        assert s[|p.root|] == j[0];
      }
      assert RootOf(s) == p.root;
      assert s[|p.root|..] == Join(p.parts);
    }
  }

  /** Parsing a single component gives the relative path of that one component. */
  lemma ParsePart(c: string)
    requires IsPart(c)
    ensures Parse(c) == PurePath("", [c])
  {
    assert Str(PurePath("", [c])) == c;
    ParseStr(PurePath("", [c]));
  }

  // ---------------------------------------------------------------------------
  // Final component and suffix

  /** `path.name`: the final component, "" for an anchor or the empty path. */
  function Name(p: PurePath): (n: string)
    ensures Valid(p) ==> (n != "" <==> p.parts != [])
    ensures Valid(p) && n != "" ==> '/' !in n && n != "."
  {
    if p.parts == [] then "" else p.parts[|p.parts| - 1]
  }

  /** `str.rfind('.')`: the index of the last dot, or -1. */
  function LastDot(s: string): (i: int)
    ensures -1 <= i < |s|
    ensures i >= 0 ==> s[i] == '.'
    ensures forall j :: i < j < |s| ==> s[j] != '.'
  {
    if s == [] then -1 else if s[|s| - 1] == '.' then |s| - 1 else LastDot(s[..|s| - 1])
  }

  /**
   * `path.suffix` of a name: from its last dot on, provided that dot is neither
   * the first nor the last character; otherwise empty.
   */
  function Suffix(name: string): (r: string)
    ensures r != "" <==> 0 < LastDot(name) < |name| - 1
    ensures r != "" ==> |r| >= 2 && |r| < |name| && r[0] == '.' && '.' !in r[1..]
    ensures r != "" ==> name[|name| - |r|..] == r
  {
    var i := LastDot(name);
    if 0 < i < |name| - 1 then name[i..] else ""
  }

  /** A name of the shape stem.ext, with a non-empty stem and a non-empty ext without dots, has suffix ".ext". */
  lemma SuffixOfStemExt(stem: string, ext: string)
    requires stem != [] && ext != [] && '.' !in ext
    ensures Suffix(stem + "." + ext) == "." + ext
  {
    var n := stem + "." + ext;
    assert n[|stem|] == '.';
    assert forall j :: |stem| < j < |n| ==> n[j] == ext[j - |stem| - 1];
    assert LastDot(n) == |stem|;
    assert n[|stem|..] == "." + ext;
  }

  /** A name that starts with its only dot (a hidden file such as ".jpg") has no suffix. */
  lemma SuffixOfDotName(ext: string)
    requires '.' !in ext
    ensures Suffix("." + ext) == ""
  {
    var n := "." + ext;
    assert n[0] == '.';
    assert forall j :: 0 < j < |n| ==> n[j] == ext[j - 1] && n[j] != '.';
    assert LastDot(n) == 0;
  }

  // ---------------------------------------------------------------------------
  // Case folding

  /** ASCII lower-casing of one character. */
  function LowerChar(c: char): char
  {
    if 'A' <= c <= 'Z' then (c as int - 'A' as int + 'a' as int) as char else c
  }

  /** `str.lower()` restricted to ASCII letters. */
  function Lower(s: string): (r: string)
    ensures |r| == |s|
    ensures forall i :: 0 <= i < |s| ==> r[i] == LowerChar(s[i])
  {
    seq(|s|, i requires 0 <= i < |s| => LowerChar(s[i]))
  }

  /** Lower-casing twice is lower-casing once. */
  lemma LowerIdempotent(s: string)
    ensures Lower(Lower(s)) == Lower(s)
  {
  }

  /** Lower-casing keeps every dot and makes no new one, so it commutes with taking the suffix. */
  lemma SuffixOfLower(name: string)
    ensures Suffix(Lower(name)) == Lower(Suffix(name))
  {
    var l := Lower(name);
    var i := LastDot(name);
    assert forall j :: 0 <= j < |name| ==> (l[j] == '.' <==> name[j] == '.');
    assert LastDot(l) == i;
    if 0 < i < |name| - 1 {
      assert l[i..] == Lower(name[i..]);
    }
  }

  // ---------------------------------------------------------------------------
  // Joining and absolute paths

  /** `p / s`: an absolute right-hand side replaces p, a relative one is appended. */
  function JoinPath(p: PurePath, s: string): (r: PurePath)
    ensures Valid(p) ==> Valid(r)
  {
    var q := Parse(s);
    if IsAbsolute(q) then q else PurePath(p.root, p.parts + q.parts)
  }

  /** `p.absolute()` with working directory cwd: relative paths are put under cwd, nothing is normalised. */
  function Absolute(cwd: PurePath, p: PurePath): (r: PurePath)
    ensures Valid(cwd) && Valid(p) ==> Valid(r)
    ensures IsAbsolute(cwd) ==> IsAbsolute(r)
    ensures p.parts != [] ==> r.parts != [] && Name(r) == Name(p)
    ensures IsAbsolute(p) ==> r == p
  {
    if IsAbsolute(p) then p else PurePath(cwd.root, cwd.parts + p.parts)
  }
}
