/**
 * The part of Python's `pathlib.PurePosixPath` and `os.path` that the hooks
 * use: parsing a path string, rendering it back, `name`, `parent`, `parts`,
 * the `/` operator with a single component, and `os.path.basename`.
 */
module Paths {
  import opened Strings

  /** A POSIX path as pathlib normalises it: an anchor ("", "/" or "//") and its components. */
  datatype Path = Path(root: string, parts: seq<string>)

  /** A component pathlib can hold: not empty, not ".", no separator. */
  predicate ValidPart(q: string) {
    q != "" && q != "." && '/' !in q
  }

  predicate Valid(p: Path) {
    && (p.root == "" || p.root == "/" || p.root == "//")
    && forall q <- p.parts :: ValidPart(q)
  }

  /** POSIX keeps exactly two leading slashes; one, or three and more, mean "/". */
  function RootOf(s: string): string {
    if StartsWith(s, "//") && !StartsWith(s, "///") then "//"
    else if StartsWith(s, "/") then "/"
    else ""
  }

  /** The pieces pathlib keeps after splitting on "/": empty pieces and "." are dropped. */
  function KeepParts(pieces: seq<string>): (r: seq<string>)
    ensures forall q <- r :: q in pieces && q != "" && q != "."
  {
    if pieces == [] then []
    else (if pieces[0] == "" || pieces[0] == "." then [] else [pieces[0]]) + KeepParts(pieces[1..])
  }

  /** `PurePosixPath(s)`. */
  function Parse(s: string): (p: Path)
    ensures Valid(p)
  {
    Path(RootOf(s), KeepParts(Split(s, '/')))
  }

  /** `str(p)`: the empty path renders as ".". */
  function Render(p: Path): string {
    if p.root == "" && p.parts == [] then "." else p.root + JoinWith(p.parts, "/")
  }

  /** `p.name`: the last component, or "" when there is none. */
  function Name(p: Path): (r: string)
    ensures Valid(p) ==> '/' !in r
  {
    if p.parts == [] then ""
    else
      var last := p.parts[|p.parts| - 1];
      assert last in p.parts;
      last
  }

  /** `p.parent`: lexical, and a path without components is its own parent. */
  function Parent(p: Path): (r: Path)
    ensures Valid(p) ==> Valid(r)
    ensures r == p <==> p.parts == []
    ensures |r.parts| == if p.parts == [] then 0 else |p.parts| - 1
  {
    if p.parts == [] then p else Path(p.root, p.parts[..|p.parts| - 1])
  }

  /** `p / name` for a single component. */
  function Join(p: Path, name: string): (r: Path)
    requires ValidPart(name)
    ensures Name(r) == name && Parent(r) == p
    ensures Valid(p) ==> Valid(r)
  {
    Path(p.root, p.parts + [name])
  }

  /** `p.parts`: the anchor, when there is one, followed by the components. */
  function PartsTuple(p: Path): seq<string> {
    (if p.root == "" then [] else [p.root]) + p.parts
  }

  /** `os.path.basename(s)`: the text after the last "/". */
  function Basename(s: string): (r: string)
    ensures '/' !in r && EndsWith(s, r)
    ensures |r| < |s| ==> s[|s| - |r| - 1] == '/'
  {
    if s == [] || s[|s| - 1] == '/' then [] else Basename(s[..|s| - 1]) + [s[|s| - 1]]
  }

  /** `dir / "tests" / ("test_" + name)`, where both hooks look for a test file. */
  function TestPathIn(dir: Path, name: string): (r: Path)
    requires '/' !in name
    ensures Name(r) == "test_" + name && Name(Parent(r)) == "tests"
    ensures Parent(Parent(r)) == dir
    ensures Valid(dir) ==> Valid(r)
  {
    Join(Join(dir, "tests"), "test_" + name)
  }

  // ---------------------------------------------------------------------
  // Parsing a rendered path gives the path back

  lemma {:induction false} KeepValid(ps: seq<string>)
    requires forall q <- ps :: ValidPart(q)
    ensures KeepParts(ps) == ps
  {
    if ps != [] {
      assert ps[0] in ps;
      assert forall q <- ps[1..] :: q in ps;
      KeepValid(ps[1..]);
    }
  }

  lemma JoinStartsWithFirst(parts: seq<string>, sep: string)
    requires |parts| > 0
    ensures StartsWith(JoinWith(parts, sep), parts[0])
  {
    if |parts| > 1 {
      StartsAtFront(parts[0], sep + JoinWith(parts[1..], sep));
      assert parts[0] + sep + JoinWith(parts[1..], sep) == parts[0] + (sep + JoinWith(parts[1..], sep));
    } else {
      StartsAtFront(parts[0], "");
      assert parts[0] + "" == parts[0];
    }
  }

  /** The components of a valid path survive rendering and re-splitting. */
  lemma ComponentsRoundTrip(parts: seq<string>)
    requires |parts| > 0 && forall q <- parts :: ValidPart(q)
    ensures KeepParts(Split(JoinWith(parts, "/"), '/')) == parts
    ensures |JoinWith(parts, "/")| > 0 && JoinWith(parts, "/")[0] != '/'
  {
    SplitJoin(parts, '/');
    KeepValid(parts);
    JoinStartsWithFirst(parts, "/");
    assert parts[0] in parts;
    StartsAtChar(JoinWith(parts, "/"), 0, parts[0], 0);
    assert parts[0][0] in parts[0];
  }

  lemma SplitAfterSlash(j: string)
    ensures Split("/" + j, '/') == [""] + Split(j, '/')
  {
    assert ("/" + j)[0] == '/';
    assert ("/" + j)[1..] == j;
  }

  lemma KeepDropsEmpty(x: seq<string>)
    ensures KeepParts([""] + x) == KeepParts(x)
  {
    assert ([""] + x)[1..] == x;
  }

  /** The anchor of a rendered valid path is read back. */
  lemma RootOfRender(p: Path)
    requires Valid(p)
    ensures RootOf(Render(p)) == p.root
  {
    var s := Render(p);
    if p.parts == [] {
      if p.root == "" {
        assert s == "." && s[0] == '.';
        NotStartsAt(s, 0, "/", 0);
        NotStartsAt(s, 0, "//", 0);
      } else if p.root == "/" {
        assert s == "/" && s[..1] == "/";
      } else {
        assert s == "//" && s[..2] == "//";
      }
    } else {
      var j := JoinWith(p.parts, "/");
      ComponentsRoundTrip(p.parts);
      if p.root == "" {
        assert s == j;
        NotStartsAt(s, 0, "/", 0);
        NotStartsAt(s, 0, "//", 0);
      } else if p.root == "/" {
        assert s == "/" + j && s[..1] == "/" && s[1] == j[0];
        NotStartsAt(s, 0, "//", 1);
      } else {
        assert s == "//" + j && s[..2] == "//" && s[2] == j[0];
        NotStartsAt(s, 0, "///", 2);
      }
    }
  }

  /** The components of a rendered valid path are read back. */
  lemma PartsOfRender(p: Path)
    requires Valid(p)
    ensures KeepParts(Split(Render(p), '/')) == p.parts
  {
    var s := Render(p);
    if p.parts == [] {
      if p.root == "" {
        assert s == ".";
        assert Split(s, '/') == ["."];
      } else if p.root == "/" {
        assert s == "/" + "";
        SplitAfterSlash("");
        KeepDropsEmpty([""]);
      } else {
        assert s == "/" + "/";
        SplitAfterSlash("/");
        SplitAfterSlash("");
        KeepDropsEmpty([""] + [""]);
        KeepDropsEmpty([""]);
      }
    } else {
      var j := JoinWith(p.parts, "/");
      ComponentsRoundTrip(p.parts);
      if p.root == "/" {
        assert s == "/" + j;
        SplitAfterSlash(j);
        KeepDropsEmpty(Split(j, '/'));
      } else if p.root == "//" {
        assert s == "/" + ("/" + j);
        SplitAfterSlash("/" + j);
        SplitAfterSlash(j);
        KeepDropsEmpty([""] + Split(j, '/'));
        KeepDropsEmpty(Split(j, '/'));
      } else {
        assert s == j;
      }
    }
  }

  /** `PurePosixPath(str(p)) == p` for every valid path. */
  lemma ParseRender(p: Path)
    requires Valid(p)
    ensures Parse(Render(p)) == p
  {
    RootOfRender(p);
    PartsOfRender(p);
  }

  /**
   * `Path(s).parent / "tests" / f"test_{Path(s).name}"`, rendered: where
   * both the testing-standards and the test-reminder hooks suggest a test.
   */
  function SuggestedTest(s: string): string {
    var p := Parse(s);
    Render(TestPathIn(Parent(p), Name(p)))
  }

  /**
   * The test path suggested next to a file is, read back as a path, a file
   * named `test_<name>` inside a `tests` directory that sits in the file's
   * own directory.
   */
  lemma SuggestedTestShape(s: string)
    ensures var p := Parse(s);
            var t := Parse(SuggestedTest(s));
            && Name(t) == "test_" + Name(p)
            && Name(Parent(t)) == "tests"
            && Parent(Parent(t)) == Parent(p)
  {
    var p := Parse(s);
    ParseRender(TestPathIn(Parent(p), Name(p)));
  }
}
