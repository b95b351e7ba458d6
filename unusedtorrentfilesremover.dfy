/** UnusedTorrentFilesRemoverImpl: deletes every torrent file under a build's
    torrents directory that has no artifact beside it. A torrent pairs with
    an artifact when its path relative to the torrents directory, written
    with '/', is the artifact's relative path followed by ".torrent".
    The file walker and the file remover are inputs: the walk is the list
    of files it visited, and the remover is a predicate telling which
    removals throw. */
module UnusedTorrentFilesRemover {
  import opened Text

  /** TorrentUtil.TORRENT_FILE_SUFFIX. */
  const TorrentFileSuffix: string := ".torrent"

  /** A java.nio.file.Path, as its name elements. */
  type NioPath = seq<string>

  /** The number of leading name elements two paths share. */
  function CommonPrefix(a: NioPath, b: NioPath): (k: nat)
    ensures k <= |a| && k <= |b| && a[..k] == b[..k]
    ensures k < |a| && k < |b| ==> a[k] != b[k]
  {
    if a == [] || b == [] || a[0] != b[0] then 0
    else
      var k := CommonPrefix(a[1..], b[1..]);
      assert a[..k + 1] == [a[0]] + a[1..][..k];
      assert b[..k + 1] == [b[0]] + b[1..][..k];
      k + 1
  }

  /** `dir.relativize(p)` for normalised paths of the same kind: one ".."
      for each element of `dir` past the shared prefix, then the rest of
      `p`. */
  function Relativize(dir: NioPath, p: NioPath): NioPath {
    var k := CommonPrefix(dir, p);
    seq(|dir| - k, _ => "..") + p[k..]
  }

  /** A file under the directory is named by the elements below it. */
  lemma RelativizeUnder(dir: NioPath, p: NioPath)
    requires |dir| <= |p| && p[..|dir|] == dir
    ensures Relativize(dir, p) == p[|dir|..]
  {
    var k := CommonPrefix(dir, p);
    if k < |dir| {
      assert false;
    }
  }

  /** `Path.toString()`: the elements joined by the file system's
      separator. */
  function PathString(p: NioPath, separator: char): string {
    Join(p, separator)
  }

  /** FileUtil.toSystemIndependentName: every '\' becomes '/'. */
  function SystemIndependentName(s: string): string {
    ReplaceChar(s, '\\', '/')
  }

  /** The torrent path each artifact expects. */
  function ExpectedTorrentPaths(artifacts: seq<string>): set<string> {
    set a | a in artifacts :: a + TorrentFileSuffix
  }

  /** The name the visitor compares with the expected torrent paths. */
  function RelativeName(torrentsDir: NioPath, p: NioPath, separator: char): string {
    SystemIndependentName(PathString(Relativize(torrentsDir, p), separator))
  }

  predicate IsUnused(expected: set<string>, torrentsDir: NioPath, p: NioPath, separator: char) {
    RelativeName(torrentsDir, p, separator) !in expected
  }

  /** The visited files that have no artifact, in visiting order. */
  function Unused(expected: set<string>, torrentsDir: NioPath, visited: seq<NioPath>, separator: char): seq<NioPath> {
    if visited == [] then []
    else
      var init := Unused(expected, torrentsDir, visited[..|visited| - 1], separator);
      var p := visited[|visited| - 1];
      if IsUnused(expected, torrentsDir, p, separator) then init + [p] else init
  }

  /** A visited file is listed iff it is unused; nothing else is listed. */
  lemma {:induction false} UnusedSpec(expected: set<string>, torrentsDir: NioPath, visited: seq<NioPath>, separator: char)
    ensures |Unused(expected, torrentsDir, visited, separator)| <= |visited|
    ensures forall p :: p in Unused(expected, torrentsDir, visited, separator) <==>
                        p in visited && IsUnused(expected, torrentsDir, p, separator)
  {
    if visited != [] {
      var init := visited[..|visited| - 1];
      UnusedSpec(expected, torrentsDir, init, separator);
      assert visited == init + [visited[|visited| - 1]];
    }
  }

  /** A torrent whose relative name is some artifact's path plus ".torrent"
      is never removed. */
  lemma PairedNeverRemoved(artifacts: seq<string>, artifact: string, torrentsDir: NioPath, visited: seq<NioPath>,
                           p: NioPath, separator: char)
    requires artifact in artifacts
    requires RelativeName(torrentsDir, p, separator) == artifact + TorrentFileSuffix
    ensures p !in Unused(ExpectedTorrentPaths(artifacts), torrentsDir, visited, separator)
  {
    UnusedSpec(ExpectedTorrentPaths(artifacts), torrentsDir, visited, separator);
  }

  /** The paths whose removal did not throw, in order. */
  function Succeeded(paths: seq<NioPath>, removalFails: NioPath -> bool): seq<NioPath> {
    if paths == [] then []
    else
      var init := Succeeded(paths[..|paths| - 1], removalFails);
      var p := paths[|paths| - 1];
      if removalFails(p) then init else init + [p]
  }

  /** A failed removal does not stop the others: every path whose removal
      does not fail is removed. */
  lemma {:induction false} SucceededSpec(paths: seq<NioPath>, removalFails: NioPath -> bool)
    ensures forall p :: p in Succeeded(paths, removalFails) <==> p in paths && !removalFails(p)
  {
    if paths != [] {
      var init := paths[..|paths| - 1];
      SucceededSpec(init, removalFails);
      assert paths == init + [paths[|paths| - 1]];
    }
  }

  /** The visitor: each visited file without an artifact is appended to
      the removal list. */
  method CollectUnused(expected: set<string>, torrentsDir: NioPath, visited: seq<NioPath>, separator: char)
    returns (torrentsForRemoving: seq<NioPath>)
    ensures torrentsForRemoving == Unused(expected, torrentsDir, visited, separator)
  {
    torrentsForRemoving := [];
    var i := 0;
    while i < |visited|
      invariant 0 <= i <= |visited|
      invariant torrentsForRemoving == Unused(expected, torrentsDir, visited[..i], separator)
    {
      assert visited[..i + 1][..i] == visited[..i];
      var relativePath := Relativize(torrentsDir, visited[i]);
      var systemIndependentPath := SystemIndependentName(PathString(relativePath, separator));
      if systemIndependentPath !in expected {
        torrentsForRemoving := torrentsForRemoving + [visited[i]];
      }
      i := i + 1;
    }
    assert visited[..|visited|] == visited;
  }

  /** The forEach over the removal list: every path is handed to the
      remover, and one that throws is logged and skipped. */
  method RemoveEach(torrentsForRemoving: seq<NioPath>, removalFails: NioPath -> bool)
    returns (attempted: seq<NioPath>, removed: seq<NioPath>)
    ensures attempted == torrentsForRemoving
    ensures removed == Succeeded(torrentsForRemoving, removalFails)
  {
    attempted := [];
    removed := [];
    var i := 0;
    while i < |torrentsForRemoving|
      invariant 0 <= i <= |torrentsForRemoving|
      invariant attempted == torrentsForRemoving[..i]
      invariant removed == Succeeded(torrentsForRemoving[..i], removalFails)
    {
      assert torrentsForRemoving[..i + 1][..i] == torrentsForRemoving[..i];
      var path := torrentsForRemoving[i];
      attempted := attempted + [path];
      if !removalFails(path) {
        removed := removed + [path];
      }
      i := i + 1;
    }
    assert torrentsForRemoving[..|torrentsForRemoving|] == torrentsForRemoving;
  }

  /** removeUnusedTorrents: `visited` is what the walk reached before it
      ended or threw (a failed walk is only logged, and what it collected
      is still removed). */
  method RemoveUnusedTorrents(artifacts: seq<string>, torrentsDir: NioPath, visited: seq<NioPath>, separator: char,
                              removalFails: NioPath -> bool)
    returns (attempted: seq<NioPath>, removed: seq<NioPath>)
    ensures attempted == Unused(ExpectedTorrentPaths(artifacts), torrentsDir, visited, separator)
    ensures removed == Succeeded(attempted, removalFails)
  {
    var expectedTorrentPathsForArtifacts := set a | a in artifacts :: a + TorrentFileSuffix;
    var torrentsForRemoving := CollectUnused(expectedTorrentPathsForArtifacts, torrentsDir, visited, separator);
    attempted, removed := RemoveEach(torrentsForRemoving, removalFails);
  }

  /** Names without a separator in them: the relative name of a file under
      the directory is its elements below it joined by '/', on either kind
      of file system. */
  lemma {:induction false} JoinIndependent(parts: seq<string>, separator: char)
    requires separator == '/' || separator == '\\'
    requires forall i :: 0 <= i < |parts| ==> '\\' !in parts[i]
    ensures SystemIndependentName(Join(parts, separator)) == Join(parts, '/')
  {
    if |parts| > 1 {
      JoinIndependent(parts[1..], separator);
      ReplaceChar3(parts[0], [separator], Join(parts[1..], separator));
      ReplaceAbsent(parts[0]);
    } else if |parts| == 1 {
      ReplaceAbsent(parts[0]);
    }
  }

  lemma ReplaceAbsent(s: string)
    requires '\\' !in s
    ensures SystemIndependentName(s) == s
  {
    assert forall i :: 0 <= i < |s| ==> s[i] != '\\';
  }

  lemma ReplaceChar3(a: string, b: string, c: string)
    ensures SystemIndependentName(a + b + c) == SystemIndependentName(a) + SystemIndependentName(b) + SystemIndependentName(c)
  {
  }

  /** The relative name of a file `dir + rest` whose names hold no '\'. */
  lemma RelativeNameUnder(dir: NioPath, rest: NioPath, p: NioPath, separator: char)
    requires separator == '/' || separator == '\\'
    requires p == dir + rest
    requires forall i :: 0 <= i < |rest| ==> '\\' !in rest[i]
    ensures RelativeName(dir, p, separator) == Join(rest, '/')
  {
    assert p[..|dir|] == dir && p[|dir|..] == rest;
    RelativizeUnder(dir, p);
    JoinIndependent(rest, separator);
  }

  /** A file below the directory whose '/'-joined names are an artifact's
      torrent path is kept; one whose names match no artifact is removed. */
  lemma PairedUnder(artifacts: seq<string>, dir: NioPath, rest: NioPath, p: NioPath, separator: char, k: nat)
    requires separator == '/' || separator == '\\'
    requires p == dir + rest
    requires forall i :: 0 <= i < |rest| ==> '\\' !in rest[i]
    requires k < |artifacts| && Join(rest, '/') == artifacts[k] + TorrentFileSuffix
    ensures !IsUnused(ExpectedTorrentPaths(artifacts), dir, p, separator)
  {
    RelativeNameUnder(dir, rest, p, separator);
  }

  lemma UnpairedUnder(artifacts: seq<string>, dir: NioPath, rest: NioPath, p: NioPath, separator: char)
    requires separator == '/' || separator == '\\'
    requires p == dir + rest
    requires forall i :: 0 <= i < |rest| ==> '\\' !in rest[i]
    requires Join(rest, '/') !in ExpectedTorrentPaths(artifacts)
    ensures IsUnused(ExpectedTorrentPaths(artifacts), dir, p, separator)
  {
    RelativeNameUnder(dir, rest, p, separator);
  }

  lemma JoinTwo(a: string, b: string, separator: char)
    ensures Join([a, b], separator) == a + [separator] + b
  {
    assert [a, b][1..] == [b];
  }

  /** Four visited files, each kept or dropped on its own. */
  lemma UnusedOfFour(expected: set<string>, dir: NioPath, a: NioPath, b: NioPath, c: NioPath, d: NioPath, separator: char)
    ensures Unused(expected, dir, [a, b, c, d], separator)
            == (if IsUnused(expected, dir, a, separator) then [a] else [])
             + (if IsUnused(expected, dir, b, separator) then [b] else [])
             + (if IsUnused(expected, dir, c, separator) then [c] else [])
             + (if IsUnused(expected, dir, d, separator) then [d] else [])
  {
    UnusedOne(expected, dir, a, separator);
    UnusedOne(expected, dir, b, separator);
    UnusedOne(expected, dir, c, separator);
    UnusedOne(expected, dir, d, separator);
    UnusedAppend(expected, dir, [a], [b], separator);
    assert [a] + [b] == [a, b];
    UnusedAppend(expected, dir, [a, b], [c], separator);
    assert [a, b] + [c] == [a, b, c];
    UnusedAppend(expected, dir, [a, b, c], [d], separator);
    assert [a, b, c] + [d] == [a, b, c, d];
  }

  /** A single visited file is listed iff it is unused. */
  lemma UnusedOne(expected: set<string>, dir: NioPath, x: NioPath, separator: char)
    ensures Unused(expected, dir, [x], separator) == if IsUnused(expected, dir, x, separator) then [x] else []
  {
    assert [x][..0] == [];
  }

  /** Visiting one list of files after another lists the unused files of
      each, in that order. */
  lemma {:induction false} UnusedAppend(expected: set<string>, dir: NioPath, v1: seq<NioPath>, v2: seq<NioPath>,
                                        separator: char)
    ensures Unused(expected, dir, v1 + v2, separator)
            == Unused(expected, dir, v1, separator) + Unused(expected, dir, v2, separator)
    decreases |v2|
  {
    if v2 == [] {
      assert v1 + v2 == v1;
    } else {
      var w := v2[..|v2| - 1];
      UnusedAppend(expected, dir, v1, w, separator);
      assert (v1 + v2)[..|v1 + v2| - 1] == v1 + w;
      assert (v1 + v2)[|v1 + v2| - 1] == v2[|v2| - 1];
    }
  }

  lemma SecondAndFourthUnused(expected: set<string>, dir: NioPath, a: NioPath, b: NioPath, c: NioPath, d: NioPath,
                               separator: char)
    requires !IsUnused(expected, dir, a, separator) && IsUnused(expected, dir, b, separator)
    requires !IsUnused(expected, dir, c, separator) && IsUnused(expected, dir, d, separator)
    ensures Unused(expected, dir, [a, b, c, d], separator) == [b, d]
  {
    UnusedOfFour(expected, dir, a, b, c, d, separator);
  }

  /** The remover test's artifacts and the four torrents it visits, one
      lemma each. */
  predicate TestArtifacts(artifacts: seq<string>) {
    artifacts == ["exist", "dir/exist"]
  }

  lemma TestExistKept(artifacts: seq<string>, dir: NioPath, p: NioPath, separator: char)
    requires separator == '/' || separator == '\\'
    requires TestArtifacts(artifacts) && p == dir + ["exist.torrent"]
    ensures !IsUnused(ExpectedTorrentPaths(artifacts), dir, p, separator)
  {
    PairedUnder(artifacts, dir, ["exist.torrent"], p, separator, 0);
  }

  lemma TestNotExistRemoved(artifacts: seq<string>, dir: NioPath, p: NioPath, separator: char)
    requires separator == '/' || separator == '\\'
    requires TestArtifacts(artifacts) && p == dir + ["notExist.torrent"]
    ensures IsUnused(ExpectedTorrentPaths(artifacts), dir, p, separator)
  {
    UnpairedUnder(artifacts, dir, ["notExist.torrent"], p, separator);
  }

  lemma TestDirExistKept(artifacts: seq<string>, dir: NioPath, p: NioPath, separator: char)
    requires separator == '/' || separator == '\\'
    requires TestArtifacts(artifacts) && p == dir + ["dir", "exist.torrent"]
    ensures !IsUnused(ExpectedTorrentPaths(artifacts), dir, p, separator)
  {
    JoinTwo("dir", "exist.torrent", '/');
    assert artifacts[1] + TorrentFileSuffix == "dir" + ['/'] + "exist.torrent";
    PairedUnder(artifacts, dir, ["dir", "exist.torrent"], p, separator, 1);
  }

  lemma TestDirNotExistRemoved(artifacts: seq<string>, dir: NioPath, p: NioPath, separator: char)
    requires separator == '/' || separator == '\\'
    requires TestArtifacts(artifacts) && p == dir + ["dir", "notExist.torrent"]
    ensures IsUnused(ExpectedTorrentPaths(artifacts), dir, p, separator)
  {
    JoinTwo("dir", "notExist.torrent", '/');
    UnpairedUnder(artifacts, dir, ["dir", "notExist.torrent"], p, separator);
  }

  /** The remover test: with artifacts "exist" and "dir/exist", of the four
      visited torrents only notExist.torrent and dir/notExist.torrent are
      removed. */
  lemma RemoverTestExample(artifacts: seq<string>, dir: NioPath, exist: NioPath, notExist: NioPath, dirExist: NioPath,
                           dirNotExist: NioPath, separator: char)
    requires separator == '/' || separator == '\\'
    requires TestArtifacts(artifacts) && dir == [".teamcity", "torrents"]
    requires exist == dir + ["exist.torrent"] && notExist == dir + ["notExist.torrent"]
    requires dirExist == dir + ["dir", "exist.torrent"] && dirNotExist == dir + ["dir", "notExist.torrent"]
    ensures Unused(ExpectedTorrentPaths(artifacts), dir, [exist, notExist, dirExist, dirNotExist], separator)
            == [notExist, dirNotExist]
  {
    TestExistKept(artifacts, dir, exist, separator);
    TestNotExistRemoved(artifacts, dir, notExist, separator);
    TestDirExistKept(artifacts, dir, dirExist, separator);
    TestDirNotExistRemoved(artifacts, dir, dirNotExist, separator);
    SecondAndFourthUnused(ExpectedTorrentPaths(artifacts), dir, exist, notExist, dirExist, dirNotExist, separator);
  }
}
