/**
 * The path logic of the project dump script (export_llm.py): which files are
 * walked at all, which of them get their content dumped, and the sorted TREE
 * listing of every file and every directory above one.
 *
 * A path is the sequence of its parts relative to the project root; its POSIX
 * form joins the parts with "/".
 */
module Dump {

  type Parts = seq<string>

  const IgnoreDirs: set<string> := {".git", ".idea", ".venv", "venv", "__pycache__", "build", "dist"}
  const IgnoreSuffixes: set<string> := {".pyc", ".pyo"}
  const IgnoreFiles: set<string> := {"export_llm.py", "project_llm_dump.txt"}
  const SkipContentDirPrefixes: seq<string> := ["engine/tests"]
  const MediaSuffixes: set<string> :=
    {".png", ".jpg", ".jpeg", ".gif", ".bmp", ".tga", ".psd", ".svg", ".ico", ".mp3", ".wav", ".ogg", ".flac",
     ".m4a", ".mp4", ".avi", ".mov", ".mkv", ".ttf", ".otf", ".woff", ".woff2"}
  const TextSuffixes: set<string> :=
    {".py", ".txt", ".md", ".rst", ".json", ".toml", ".ini", ".cfg", ".yaml", ".yml", ".csv"}
  const AlwaysIncludeByName: set<string> :=
    {"pyproject.toml", "requirements.txt", ".gitignore", "README", "README.md", "README-dev.md", "LICENSE"}

  // ------------------------------------------------------------------
  // Strings and paths
  // ------------------------------------------------------------------

  predicate StartsWith(s: string, p: string) {
    |p| <= |s| && s[..|p|] == p
  }

  /** `as_posix()` of a relative path: the parts joined by "/"; no parts is ".". */
  function Join(parts: Parts): string
    decreases |parts|
  {
    if parts == [] then "."
    else if |parts| == 1 then parts[0]
    else parts[0] + "/" + Join(parts[1..])
  }

  /** `path.name`: the last part. */
  function Name(parts: Parts): string {
    if parts == [] then "" else parts[|parts| - 1]
  }

  /** `name.rfind('.')`. */
  function LastDot(s: string): (r: int)
    ensures -1 <= r < |s|
    ensures r >= 0 ==> s[r] == '.'
    ensures forall j | r < j < |s| :: s[j] != '.'
    decreases |s|
  {
    if s == [] then -1
    else if s[|s| - 1] == '.' then |s| - 1
    else LastDot(s[..|s| - 1])
  }

  /** `path.suffix`: from the last dot on, unless that dot starts or ends the name. */
  function Suffix(name: string): (r: string)
    ensures r != "" ==> r[0] == '.' && |r| >= 2 && |r| < |name| && r == name[|name| - |r|..]
    ensures r != "" ==> forall j | 0 < j < |r| :: r[j] != '.'
    ensures (forall j | 0 <= j < |name| :: name[j] != '.') ==> r == ""
    ensures r != "" <==> exists i | 0 < i < |name| - 1 :: name[i] == '.' && forall j | i < j < |name| :: name[j] != '.'
  {
    var i := LastDot(name);
    if 0 < i < |name| - 1 then name[i..] else ""
  }

  function LowerChar(c: char): char {
    if 'A' <= c <= 'Z' then (c as int + 32) as char else c
  }

  /** `str.lower()` on the ASCII letters. */
  function Lower(s: string): (r: string)
    ensures |r| == |s|
    ensures forall i | 0 <= i < |s| :: r[i] == LowerChar(s[i])
  {
    seq(|s|, i requires 0 <= i < |s| => LowerChar(s[i]))
  }

  // ------------------------------------------------------------------
  // Content classification
  // ------------------------------------------------------------------

  /** Some prefix in the list equals the path or is a directory above it. */
  function AnyPrefix(rel: string, prefixes: seq<string>): (r: bool)
    ensures r <==> exists i | 0 <= i < |prefixes| :: rel == prefixes[i] || StartsWith(rel, prefixes[i] + "/")
    decreases |prefixes|
  {
    if prefixes == [] then false
    else
      var rest := AnyPrefix(rel, prefixes[1..]);
      assert rest <==> exists i | 1 <= i < |prefixes| :: rel == prefixes[i] || StartsWith(rel, prefixes[i] + "/") by {
        if rest {
          var i :| 0 <= i < |prefixes[1..]| && (rel == prefixes[1..][i] || StartsWith(rel, prefixes[1..][i] + "/"));
          assert prefixes[i + 1] == prefixes[1..][i];
        }
        if exists i | 1 <= i < |prefixes| :: rel == prefixes[i] || StartsWith(rel, prefixes[i] + "/") {
          var i :| 1 <= i < |prefixes| && (rel == prefixes[i] || StartsWith(rel, prefixes[i] + "/"));
          assert prefixes[1..][i - 1] == prefixes[i];
        }
      }
      rel == prefixes[0] || StartsWith(rel, prefixes[0] + "/") || rest
  }

  /** `is_in_skip_content_dir`. */
  function IsInSkipContentDir(rel: string): bool {
    AnyPrefix(rel, SkipContentDirPrefixes)
  }

  /**
   * The skip test is a directory test, not a string-prefix test: the tests
   * directory itself and anything below it are skipped, a sibling whose
   * name merely starts the same is not.
   */
  lemma SkipIsDirectoryTest(rel: string)
    ensures IsInSkipContentDir(rel) <==> rel == "engine/tests" || StartsWith(rel, "engine/tests/")
    ensures IsInSkipContentDir("engine/tests") && IsInSkipContentDir("engine/tests/test_fish_fsm.py")
    ensures !IsInSkipContentDir("engine/testsX") && !IsInSkipContentDir("engine/testsX/a.py")
  {
    assert "engine/tests/test_fish_fsm.py"[..13] == "engine/tests/";
    assert "engine/testsX"[..13] != "engine/tests/" by {
      assert "engine/testsX"[12] == 'X';
    }
    assert "engine/testsX/a.py"[..13] != "engine/tests/" by {
      assert "engine/testsX/a.py"[12] == 'X';
    }
  }

  /** A path whose first character is not that of the tests directory is never skipped. */
  lemma NotSkipped(rel: string)
    requires |rel| > 0 && rel[0] != 'e'
    ensures !IsInSkipContentDir(rel)
  {
    SkipIsDirectoryTest(rel);
    assert "engine/tests"[0] == 'e';
  }

  /** `should_dump_content`. */
  function ShouldDumpContent(parts: Parts): bool {
    if IsInSkipContentDir(Join(parts)) then false
    else if Name(parts) in AlwaysIncludeByName then true
    else
      var suffix := Lower(Suffix(Name(parts)));
      if suffix in MediaSuffixes then false
      else if suffix in IgnoreSuffixes then false
      else suffix in TextSuffixes
  }

  /**
   * Nothing under the skipped directory is dumped, not even an
   * always-included name; elsewhere always-included names are dumped, and
   * any other file is dumped exactly when its lowercased suffix is a text
   * suffix: media and ignored suffixes are never text suffixes.
   */
  lemma ShouldDumpSpec(parts: Parts)
    ensures IsInSkipContentDir(Join(parts)) ==> !ShouldDumpContent(parts)
    ensures !IsInSkipContentDir(Join(parts)) && Name(parts) in AlwaysIncludeByName ==> ShouldDumpContent(parts)
    ensures !IsInSkipContentDir(Join(parts)) && Name(parts) !in AlwaysIncludeByName ==>
              (ShouldDumpContent(parts) <==> Lower(Suffix(Name(parts))) in TextSuffixes)
    ensures Lower(Suffix(Name(parts))) in MediaSuffixes + IgnoreSuffixes && Name(parts) !in AlwaysIncludeByName ==>
              !ShouldDumpContent(parts)
  {
    SuffixSetsDisjoint();
  }

  /** No text suffix is also a media or an ignored suffix. */
  lemma SuffixSetsDisjoint()
    ensures forall t | t in TextSuffixes :: t !in MediaSuffixes && t !in IgnoreSuffixes
  {
    forall t | t in TextSuffixes ensures t !in MediaSuffixes && t !in IgnoreSuffixes {
    }
  }

  lemma UpperMediaSuffix()
    ensures Lower(Suffix(Name(["assets", "IMG.PNG"]))) == ".png"
  {
    assert Name(["assets", "IMG.PNG"]) == "IMG.PNG";
    assert "IMG.PNG"[3] == '.' && "IMG.PNG"[4] != '.' && "IMG.PNG"[5] != '.' && "IMG.PNG"[6] != '.';
    assert Suffix("IMG.PNG") == ".PNG";
    assert Lower(".PNG") == ".png";
  }

  /** Case does not matter for the content decision: "IMG.PNG" is a media file. */
  lemma UpperMediaNotDumped()
    ensures !ShouldDumpContent(["assets", "IMG.PNG"])
  {
    UpperMediaSuffix();
    assert Name(["assets", "IMG.PNG"]) == "IMG.PNG";
    assert "IMG.PNG" !in AlwaysIncludeByName;
    assert ".png" in MediaSuffixes;
    ShouldDumpSpec(["assets", "IMG.PNG"]);
  }

  /** Case does not matter for the content decision: "NOTES.MD" is a text file. */
  lemma UpperTextDumped()
    ensures ShouldDumpContent(["docs", "NOTES.MD"])
  {
    assert Join(["docs", "NOTES.MD"]) == "docs/NOTES.MD";
    assert !IsInSkipContentDir("docs/NOTES.MD") by { NotSkipped("docs/NOTES.MD"); }
    assert "NOTES.MD"[5] == '.' && "NOTES.MD"[6] != '.' && "NOTES.MD"[7] != '.';
    assert Suffix("NOTES.MD") == ".MD";
    assert Lower(".MD") == ".md";
    assert Name(["docs", "NOTES.MD"]) == "NOTES.MD";
    assert "NOTES.MD" !in AlwaysIncludeByName;
    assert ".md" in TextSuffixes;
    ShouldDumpSpec(["docs", "NOTES.MD"]);
  }

  /** Under the tests directory even an always-included name is not dumped. */
  lemma TestsReadmeNotDumped()
    ensures !ShouldDumpContent(["engine", "tests", "README.md"])
  {
    assert Join(["engine", "tests", "README.md"]) == "engine/tests/README.md";
    assert IsInSkipContentDir("engine/tests/README.md") by { SkipIsDirectoryTest("engine/tests/README.md"); }
  }

  // ------------------------------------------------------------------
  // String order (Python's str comparison)
  // ------------------------------------------------------------------

  /** Lexicographic order by code point; a proper prefix comes first. */
  predicate Less(a: string, b: string)
    decreases |a|
  {
    if a == [] then b != []
    else if b == [] then false
    else if a[0] < b[0] then true
    else a[0] == b[0] && Less(a[1..], b[1..])
  }

  lemma {:induction false} LessIrreflexive(a: string)
    ensures !Less(a, a)
    decreases |a|
  {
    if a != [] { LessIrreflexive(a[1..]); }
  }

  lemma {:induction false} LessTransitive(a: string, b: string, c: string)
    requires Less(a, b) && Less(b, c)
    ensures Less(a, c)
    decreases |a|
  {
    if a != [] && a[0] == b[0] && b[0] == c[0] {
      LessTransitive(a[1..], b[1..], c[1..]);
    }
  }

  lemma {:induction false} LessTotal(a: string, b: string)
    requires a != b
    ensures Less(a, b) || Less(b, a)
    decreases |a|
  {
    if a != [] && b != [] && a[0] == b[0] {
      assert a == [a[0]] + a[1..] && b == [b[0]] + b[1..];
      LessTotal(a[1..], b[1..]);
    }
  }

  predicate StrictlySorted(s: seq<string>) {
    forall i, j | 0 <= i < j < |s| :: Less(s[i], s[j])
  }

  /** Inserting into a strictly sorted list: still strictly sorted, one element more unless present. */
  function Insert(s: seq<string>, x: string): (r: seq<string>)
    requires StrictlySorted(s)
    ensures StrictlySorted(r)
    ensures forall y :: y in r <==> y in s || y == x
    decreases |s|
  {
    if s == [] then [x]
    else if x == s[0] then s
    else if Less(x, s[0]) then
      assert forall j | 0 < j < |s| :: Less(x, s[j]) by {
        forall j | 0 < j < |s| ensures Less(x, s[j]) { LessTransitive(x, s[0], s[j]); }
      }
      [x] + s
    else
      LessTotal(x, s[0]);
      var rest := Insert(s[1..], x);
      assert forall y | y in rest :: Less(s[0], y) by {
        forall y | y in rest ensures Less(s[0], y) {
          if y != x {
            var k :| 0 <= k < |s[1..]| && s[1..][k] == y;
            assert s[k + 1] == y;
          }
        }
      }
      [s[0]] + rest
  }

  /** `sorted(entries)` of a set: strictly increasing, holding exactly the set's elements. */
  method SortEntries(entries: set<string>) returns (r: seq<string>)
    ensures StrictlySorted(r)
    ensures forall x :: x in r <==> x in entries
  {
    r := [];
    var rest := entries;
    while rest != {}
      invariant StrictlySorted(r)
      invariant forall x :: x in entries <==> x in r || x in rest
      decreases rest
    {
      var x :| x in rest;
      r := Insert(r, x);
      rest := rest - {x};
    }
  }

  /** A set has only one strictly sorted listing, so the sort's result is determined by the set. */
  lemma {:induction false} SortedUnique(s: seq<string>, t: seq<string>)
    requires StrictlySorted(s) && StrictlySorted(t)
    requires forall x :: x in s <==> x in t
    ensures s == t
    decreases |s|
  {
    assert s != [] ==> s[0] in t;
    assert t != [] ==> t[0] in s;
    if s != [] && t != [] {
      if s[0] != t[0] {
        assert s[0] in t;
        assert t[0] in s;
        var i :| 0 <= i < |t| && t[i] == s[0];
        var j :| 0 <= j < |s| && s[j] == t[0];
        assert Less(t[0], s[0]) by { assert i > 0; }
        assert Less(s[0], t[0]) by { assert j > 0; }
        LessTransitive(s[0], t[0], s[0]);
        LessIrreflexive(s[0]);
        assert false;
      }
      forall x ensures x in s[1..] <==> x in t[1..] {
        if x in s[1..] {
          var i :| 1 <= i < |s| && s[i] == x;
          assert Less(s[0], x);
          if x == t[0] { LessIrreflexive(x); }
          assert x in s && x in t;
          var k :| 0 <= k < |t| && t[k] == x;
          assert t[1..][k - 1] == x;
        }
        if x in t[1..] {
          var i :| 1 <= i < |t| && t[i] == x;
          assert Less(t[0], x);
          if x == s[0] { LessIrreflexive(x); }
          assert x in t && x in s;
          var k :| 0 <= k < |s| && s[k] == x;
          assert s[1..][k - 1] == x;
        }
      }
      SortedUnique(s[1..], t[1..]);
      assert s == [s[0]] + s[1..] && t == [t[0]] + t[1..];
    }
  }

  // ------------------------------------------------------------------
  // The TREE listing
  // ------------------------------------------------------------------

  /** The POSIX forms of the first `n - 1` proper prefixes of a path. */
  function Prefixes(f: Parts, n: nat): set<string> {
    set i | 1 <= i < n && i <= |f| :: Join(f[..i])
  }

  /** The entry set `build_tree` collects for the listed files. */
  function Collected(files: seq<Parts>): set<string>
    decreases |files|
  {
    if files == [] then {"."}
    else
      var f := files[|files| - 1];
      Collected(files[..|files| - 1]) + Prefixes(f, |f|) + {Join(f)}
  }

  /** `build_tree`. */
  method BuildTree(files: seq<Parts>) returns (lines: seq<string>)
    ensures |lines| >= 1 && lines[0] == "TREE"
    ensures StrictlySorted(lines[1..])
    ensures forall x :: x in lines[1..] <==> x in Collected(files)
  {
    var entries: set<string> := {"."};
    for j := 0 to |files|
      invariant entries == Collected(files[..j])
    {
      var parts := files[j];
      assert files[..j + 1][..j] == files[..j] && files[..j + 1][j] == parts;
      var i := 1;
      while i < |parts|
        invariant 1 <= i && (i <= |parts| || parts == [])
        invariant entries == Collected(files[..j]) + Prefixes(parts, i)
      {
        assert Prefixes(parts, i + 1) == Prefixes(parts, i) + {Join(parts[..i])};
        entries := entries + {Join(parts[..i])};
        i := i + 1;
      }
      assert Prefixes(parts, i) == Prefixes(parts, |parts|) by {
        if parts == [] { assert Prefixes(parts, i) == {} == Prefixes(parts, 0); }
      }
      entries := entries + {Join(parts)};
    }
    assert files[..|files|] == files;
    var sorted := SortEntries(entries);
    lines := ["TREE"] + sorted;
    assert lines[1..] == sorted;
  }

  /**
   * The entries are ".", every file's own path, every proper directory
   * prefix of every file, and nothing else.
   */
  lemma {:induction false} CollectedSpec(files: seq<Parts>)
    ensures "." in Collected(files)
    ensures forall f, i | f in files && 1 <= i <= |f| :: Join(f[..i]) in Collected(files)
    ensures forall f | f in files :: Join(f) in Collected(files)
    ensures forall x | x in Collected(files) ::
              x == "." || exists f, i | f in files && 1 <= i <= |f| :: x == Join(f[..i])
    decreases |files|
  {
    if files != [] {
      var n := |files| - 1;
      var front := files[..n];
      var f := files[n];
      CollectedSpec(front);
      assert files == front + [f];
      assert f[..|f|] == f;
      forall g, i | g in files && 1 <= i <= |g| ensures Join(g[..i]) in Collected(files) {
        if g != f {
          assert g in front;
        } else if i < |g| {
          assert Join(g[..i]) in Prefixes(f, |f|);
        }
      }
      forall x | x in Collected(files)
        ensures x == "." || exists g, i | g in files && 1 <= i <= |g| :: x == Join(g[..i])
      {
        if x in Collected(front) {
          if x != "." {
            var g, i :| g in front && 1 <= i <= |g| && x == Join(g[..i]);
            assert g in files;
          }
        } else if x in Prefixes(f, |f|) {
          var i :| 1 <= i < |f| && i <= |f| && x == Join(f[..i]);
          assert f in files;
        } else {
          assert x == Join(f[..|f|]);
          if f != [] {
            assert f in files && 1 <= |f| <= |f|;
          }
        }
      }
    }
  }

  // ------------------------------------------------------------------
  // The selection loop of `main`
  // ------------------------------------------------------------------

  /** Not an ignored file name, no part an ignored directory, no ignored (case-sensitive) suffix. */
  predicate Walked(parts: Parts) {
    && Name(parts) !in IgnoreFiles
    && (forall i | 0 <= i < |parts| :: parts[i] !in IgnoreDirs)
    && Suffix(Name(parts)) !in IgnoreSuffixes
  }

  /** The tree files and the content files chosen from the listed files, in list order. */
  function Select(files: seq<Parts>): (seq<Parts>, seq<Parts>)
    decreases |files|
  {
    if files == [] then ([], [])
    else
      var (tree, content) := Select(files[..|files| - 1]);
      var f := files[|files| - 1];
      if !Walked(f) then (tree, content)
      else (tree + [f], if ShouldDumpContent(f) then content + [f] else content)
  }

  /** The files of a list whose content is dumped, in list order. */
  function DumpedOf(files: seq<Parts>): seq<Parts>
    decreases |files|
  {
    if files == [] then []
    else
      var f := files[|files| - 1];
      DumpedOf(files[..|files| - 1]) + (if ShouldDumpContent(f) then [f] else [])
  }

  /** The filtering loop of `main`. */
  method SelectFiles(files: seq<Parts>) returns (tree: seq<Parts>, content: seq<Parts>)
    ensures (tree, content) == Select(files)
  {
    tree := [];
    content := [];
    for j := 0 to |files|
      invariant (tree, content) == Select(files[..j])
    {
      var path := files[j];
      assert files[..j + 1][..j] == files[..j] && files[..j + 1][j] == path;
      if Name(path) in IgnoreFiles {
        continue;
      }
      var ignoredDir := false;
      for k := 0 to |path|
        invariant ignoredDir <==> exists i | 0 <= i < k :: path[i] in IgnoreDirs
      {
        if path[k] in IgnoreDirs {
          ignoredDir := true;
        }
      }
      if ignoredDir {
        continue;
      }
      if Suffix(Name(path)) in IgnoreSuffixes {
        continue;
      }
      tree := tree + [path];
      if ShouldDumpContent(path) {
        content := content + [path];
      }
    }
    assert files[..|files|] == files;
  }

  /** The tree lists exactly the walked files; an ignored file is not in it. */
  lemma {:induction false} SelectTreeSpec(files: seq<Parts>)
    ensures forall f :: f in Select(files).0 <==> f in files && Walked(f)
    decreases |files|
  {
    if files != [] {
      var n := |files| - 1;
      var front := files[..n];
      var f := files[n];
      SelectTreeSpec(front);
      assert files == front + [f];
      assert forall g :: g in files <==> g in front || g == f;
    }
  }

  /**
   * The content files are the tree files whose content is dumped, in the
   * same order, so every content file is also a tree file.
   */
  lemma {:induction false} SelectContentSpec(files: seq<Parts>)
    ensures Select(files).1 == DumpedOf(Select(files).0)
    decreases |files|
  {
    if files != [] {
      var n := |files| - 1;
      var front := files[..n];
      var f := files[n];
      SelectContentSpec(front);
      var (tree, content) := Select(front);
      if Walked(f) {
        assert (tree + [f])[..|tree + [f]| - 1] == tree;
        assert DumpedOf(tree + [f]) == DumpedOf(tree) + (if ShouldDumpContent(f) then [f] else []);
      }
    }
  }

  /** A file's content is dumped exactly when it is walked and passes the content test. */
  lemma {:induction false} DumpedOfSpec(files: seq<Parts>)
    ensures forall f :: f in DumpedOf(files) <==> f in files && ShouldDumpContent(f)
    decreases |files|
  {
    if files != [] {
      var n := |files| - 1;
      DumpedOfSpec(files[..n]);
      assert files == files[..n] + [files[n]];
      assert forall g :: g in files <==> g in files[..n] || g == files[n];
    }
  }

  /** The content list holds exactly the walked files that pass the content test. */
  lemma SelectSpec(files: seq<Parts>)
    ensures forall f :: f in Select(files).1 <==> f in files && Walked(f) && ShouldDumpContent(f)
  {
    SelectTreeSpec(files);
    SelectContentSpec(files);
    DumpedOfSpec(Select(files).0);
  }
}
