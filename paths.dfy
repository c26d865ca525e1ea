/**
 * How the page indexer turns a walked file into path segments and a URL:
 * the walk root below `walk_dir` split at the separator, with the last
 * segment replaced by the file's stem unless the file is `index.md`.
 */
module Paths {
  import opened Text

  predicate IsMarkdown(filename: string)
  {
    EndsWith(filename, ".md")
  }

  /**
   * `root[len(walk_dir):]` with the separator stripped from the right and
   * then from the left: it neither starts nor ends with the separator.
   */
  function RelativeDir(walkDir: string, root: string, sep: char): (r: string)
    ensures r == "" || (r[0] != sep && r[|r| - 1] != sep)
  {
    var right := RStrip(Drop(root, |walkDir|), sep);
    var r := LStrip(right, sep);
    assert r == "" || r[|r| - 1] == right[|right| - 1];
    r
  }

  /** `subpaths` before the filename is considered: the relative directory split on the separator. */
  function DirSegments(walkDir: string, root: string, sep: char): seq<string>
  {
    Split(RelativeDir(walkDir, root, sep), sep)
  }

  /**
   * `subpaths`: the directory segments, never empty, where a file other
   * than `index.md` REPLACES the last segment by its name without `.md`
   * (it does not append one); for `index.md` they stay as they are.
   */
  function Subpaths(walkDir: string, root: string, filename: string, sep: char): (subpaths: seq<string>)
    ensures var dirs := DirSegments(walkDir, root, sep);
      && |subpaths| == |dirs| >= 1
      && subpaths[..|subpaths| - 1] == dirs[..|dirs| - 1]
      && subpaths[|subpaths| - 1] == if filename == "index.md" then dirs[|dirs| - 1] else DropLast(filename, 3)
  {
    WithStem(DirSegments(walkDir, root, sep), filename)
  }

  /** The segments once the file is considered: the last one replaced by the stem unless it is `index.md`. */
  function WithStem(dirs: seq<string>, filename: string): (subpaths: seq<string>)
    requires |dirs| >= 1
    ensures subpaths == if filename == "index.md" then dirs else dirs[..|dirs| - 1] + [DropLast(filename, 3)]
  {
    if filename != "index.md" then dirs[|dirs| - 1 := DropLast(filename, 3)] else dirs
  }

  /** `base_url + "/" + "/".join(subpaths) + "/"`. */
  function PageUrl(baseUrl: string, subpaths: seq<string>): string
  {
    baseUrl + "/" + Join(subpaths, "/") + "/"
  }

  /**
   * The URL always ends in "/", starts with the base URL and "/", and its
   * middle part splits back into the segments when none holds a "/".
   */
  lemma UrlShape(baseUrl: string, subpaths: seq<string>)
    requires |subpaths| >= 1
    requires forall i :: 0 <= i < |subpaths| ==> '/' !in subpaths[i]
    ensures var url := PageUrl(baseUrl, subpaths);
      && EndsWith(url, "/")
      && StartsWith(url, baseUrl + "/")
      && Split(url[|baseUrl| + 1..|url| - 1], '/') == subpaths
  {
    var url := PageUrl(baseUrl, subpaths);
    assert url[|baseUrl| + 1..|url| - 1] == Join(subpaths, "/");
    assert url[..|baseUrl + "/"|] == baseUrl + "/";
    SplitJoin(subpaths, '/');
  }

  /** `index.md` at the top of the walk: subpaths [""] and the URL base + "//". */
  lemma RootIndexPage(walkDir: string, sep: char, baseUrl: string)
    ensures Subpaths(walkDir, walkDir, "index.md", sep) == [""]
    ensures PageUrl(baseUrl, Subpaths(walkDir, walkDir, "index.md", sep)) == baseUrl + "//"
  {
    RootIndexSegments(walkDir, sep);
    EmptySegmentUrl(baseUrl);
  }

  lemma RootIndexSegments(walkDir: string, sep: char)
    ensures Subpaths(walkDir, walkDir, "index.md", sep) == [""]
  {
    TopDirSegments(walkDir, sep);
    SingleSegment("", "index.md");
  }

  lemma EmptySegmentUrl(baseUrl: string)
    ensures PageUrl(baseUrl, [""]) == baseUrl + "//"
  {
    assert Join([""], "/") == "";
    EmptyMiddle(baseUrl);
  }

  /** A solver hint: an empty middle segment leaves two slashes side by side. */
  lemma EmptyMiddle(x: string)
    ensures x + "/" + "" + "/" == x + "//"
  {
    assert x + "/" + "" == x + "/";
    assert |x + "//"| == |x| + 2;
    assert forall i :: 0 <= i < |x| + 2 ==> (x + "/" + "/")[i] == (x + "//")[i];
  }

  /** The walk root itself splits into the single empty segment. */
  lemma TopDirSegments(walkDir: string, sep: char)
    ensures DirSegments(walkDir, walkDir, sep) == [""]
  {
    TopRelativeDir(walkDir, sep);
    SplitEmpty(sep);
  }

  /** The walk root itself lies at the empty relative directory. */
  lemma TopRelativeDir(walkDir: string, sep: char)
    ensures RelativeDir(walkDir, walkDir, sep) == ""
  {
    assert Drop(walkDir, |walkDir|) == "";
    assert RStrip("", sep) == "";
    assert LStrip("", sep) == "";
  }

  /** Any other file at the top of the walk: its single segment is the stem of its name. */
  lemma RootLeafPage(walkDir: string, filename: string, sep: char)
    requires filename != "index.md"
    ensures Subpaths(walkDir, walkDir, filename, sep) == [DropLast(filename, 3)]
  {
    TopDirSegments(walkDir, sep);
    SingleSegment("", filename);
  }

  /** A single directory segment gives way to the stem of any file other than `index.md`. */
  lemma SingleSegment(d: string, filename: string)
    ensures WithStem([d], filename) == if filename == "index.md" then [d] else [DropLast(filename, 3)]
  {
    assert [d][..0] == [];
  }

  /** An `index.md` stands for its directory: its segments join back into that directory. */
  lemma IndexPageIsItsDirectory(walkDir: string, root: string, sep: char)
    ensures Join(Subpaths(walkDir, root, "index.md", sep), [sep]) == RelativeDir(walkDir, root, sep)
  {
  }

  lemma {:induction false} JoinEnds(parts: seq<string>, sep: string)
    requires |parts| >= 1 && forall i :: 0 <= i < |parts| ==> parts[i] != ""
    ensures var j := Join(parts, sep); var last := parts[|parts| - 1];
      |j| > 0 && j[0] == parts[0][0] && j[|j| - 1] == last[|last| - 1]
    decreases |parts|
  {
    if |parts| > 1 {
      JoinEnds(parts[1..], sep);
    }
  }

  /**
   * A file in the directory `walk_dir/d1/.../dn` (non-empty names without
   * the separator): an `index.md` gets the segments [d1, ..., dn]; any
   * other file takes the place of dn, so "guides/setup.md" gives ["setup"],
   * not ["guides", "setup"].
   */
  lemma NestedPageSegments(walkDir: string, dirs: seq<string>, filename: string, sep: char)
    requires |dirs| >= 1
    requires forall i :: 0 <= i < |dirs| ==> dirs[i] != "" && sep !in dirs[i]
    ensures var root := walkDir + [sep] + Join(dirs, [sep]);
      Subpaths(walkDir, root, filename, sep) ==
        if filename == "index.md" then dirs else dirs[..|dirs| - 1] + [DropLast(filename, 3)]
  {
    var root := walkDir + [sep] + Join(dirs, [sep]);
    NestedDirSegments(walkDir, dirs, sep);
  }

  lemma NestedDirSegments(walkDir: string, dirs: seq<string>, sep: char)
    requires |dirs| >= 1
    requires forall i :: 0 <= i < |dirs| ==> dirs[i] != "" && sep !in dirs[i]
    ensures DirSegments(walkDir, walkDir + [sep] + Join(dirs, [sep]), sep) == dirs
  {
    var j := Join(dirs, [sep]);
    JoinEnds(dirs, [sep]);
    var first := dirs[0];
    var last := dirs[|dirs| - 1];
    assert first[0] in first && last[|last| - 1] in last;
    assert j[0] != sep && j[|j| - 1] != sep;
    NestedRelativeDir(walkDir, j, sep);
    SplitJoin(dirs, sep);
  }

  /** The part of `walk_dir + sep + d` below `walk_dir`, for `d` with no separator at its ends, is `d`. */
  lemma NestedRelativeDir(walkDir: string, d: string, sep: char)
    requires |d| > 0 && d[0] != sep && d[|d| - 1] != sep
    ensures RelativeDir(walkDir, walkDir + [sep] + d, sep) == d
  {
    var root := walkDir + [sep] + d;
    assert Drop(root, |walkDir|) == [sep] + d;
    assert RStrip([sep] + d, sep) == [sep] + d;
    assert ([sep] + d)[1..] == d;
    assert LStrip(d, sep) == d;
  }
}
