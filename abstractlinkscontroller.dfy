/** AbstractLinksController: answers a request for the torrents of one build
    with a map from each torrent file to the artifact path it belongs to.
    The server's build lookup, the seeder's list of torrent files and
    FileUtil.getRelativePath against the torrents base directory are
    inputs; writing the response is left to the subclass, so the model
    returns what would be written. */
module AbstractLinksController {
  import opened Wrappers
  import opened Text
  import opened JavaNumbers

  /** A java.io.File, by its path. */
  type File = string

  /** TorrentUtil.TORRENT_FILE_SUFFIX. */
  const TorrentFileSuffix: string := ".torrent"

  /** The artifact path of a torrent's relative path: '\' turned into '/',
      then as many characters cut from the end as ".torrent" has. The
      suffix itself is not checked; a path shorter than it makes
      `substring` throw, which is `None` here. */
  function ArtifactPathOf(relativePath: string): (r: Option<string>)
    ensures r.None? <==> |relativePath| < |TorrentFileSuffix|
    ensures r.Some? ==> |r.value| == |relativePath| - |TorrentFileSuffix|
  {
    var path := ReplaceChar(relativePath, '\\', '/');
    if |path| < |TorrentFileSuffix| then None
    else Some(path[..|path| - |TorrentFileSuffix|])
  }

  /** A torrent stored as `artifact + ".torrent"` reads back as the
      artifact, with its '\' separators turned into '/'. */
  lemma ArtifactPathOfTorrent(artifact: string)
    ensures ArtifactPathOf(artifact + TorrentFileSuffix) == Some(ReplaceChar(artifact, '\\', '/'))
  {
    var path := ReplaceChar(artifact + TorrentFileSuffix, '\\', '/');
    assert path[..|artifact|] == ReplaceChar(artifact, '\\', '/');
  }

  /** Every torrent file that has a relative path under the base
      directory, with its artifact path; `None` when one of those paths is
      too short and the loop throws. */
  function ArtifactsWithTorrents(torrentFiles: seq<File>, relativePath: File -> Option<string>): Option<map<File, string>> {
    if torrentFiles == [] then Some(map[])
    else
      var rest := ArtifactsWithTorrents(torrentFiles[..|torrentFiles| - 1], relativePath);
      var f := torrentFiles[|torrentFiles| - 1];
      var path := relativePath(f);
      if rest.None? then None
      else if path.None? then rest
      else
        var artifact := ArtifactPathOf(path.value);
        if artifact.None? then None else Some(rest.value[f := artifact.value])
  }

  /** A file outside the base directory is skipped. */
  predicate Listed(torrentFiles: seq<File>, relativePath: File -> Option<string>, f: File) {
    f in torrentFiles && relativePath(f).Some?
  }

  /** The map holds exactly the listed files, each with the artifact path
      of its relative path, and it exists iff no listed path is too
      short. */
  lemma {:induction false} ArtifactsWithTorrentsSpec(torrentFiles: seq<File>, relativePath: File -> Option<string>)
    ensures ArtifactsWithTorrents(torrentFiles, relativePath).Some? <==>
            forall f :: Listed(torrentFiles, relativePath, f) ==> ArtifactPathOf(relativePath(f).value).Some?
    ensures ArtifactsWithTorrents(torrentFiles, relativePath).Some? ==>
            var m := ArtifactsWithTorrents(torrentFiles, relativePath).value;
            && (forall f :: f in m <==> Listed(torrentFiles, relativePath, f))
            && (forall f :: f in m ==> Some(m[f]) == ArtifactPathOf(relativePath(f).value))
  {
    if torrentFiles != [] {
      var init := torrentFiles[..|torrentFiles| - 1];
      ArtifactsWithTorrentsSpec(init, relativePath);
      assert torrentFiles == init + [torrentFiles[|torrentFiles| - 1]];
    }
  }

  /** Once the loop has thrown, the rest of the list does not matter. */
  lemma {:induction false} ThrowStops(torrentFiles: seq<File>, k: nat, relativePath: File -> Option<string>)
    requires k <= |torrentFiles| && ArtifactsWithTorrents(torrentFiles[..k], relativePath).None?
    ensures ArtifactsWithTorrents(torrentFiles, relativePath).None?
    decreases |torrentFiles| - k
  {
    if k < |torrentFiles| {
      assert torrentFiles[..k + 1][..k] == torrentFiles[..k];
      ThrowStops(torrentFiles, k + 1, relativePath);
    } else {
      assert torrentFiles[..k] == torrentFiles;
    }
  }

  /** getArtifactsWithTorrents. */
  method GetArtifactsWithTorrents(torrentFiles: seq<File>, relativePath: File -> Option<string>)
    returns (r: Option<map<File, string>>)
    ensures r == ArtifactsWithTorrents(torrentFiles, relativePath)
  {
    var torrentFilesAndArtifactsPath: map<File, string> := map[];
    var i := 0;
    while i < |torrentFiles|
      invariant 0 <= i <= |torrentFiles|
      invariant ArtifactsWithTorrents(torrentFiles[..i], relativePath) == Some(torrentFilesAndArtifactsPath)
    {
      assert torrentFiles[..i + 1][..i] == torrentFiles[..i];
      var f := torrentFiles[i];
      var path := relativePath(f);
      if path.Some? {
        var artifact := ArtifactPathOf(path.value);
        if artifact.None? {
          ThrowStops(torrentFiles, i + 1, relativePath);
          return None;
        }
        torrentFilesAndArtifactsPath := torrentFilesAndArtifactsPath[f := artifact.value];
      }
      i := i + 1;
    }
    assert torrentFiles[..|torrentFiles|] == torrentFiles;
    r := Some(torrentFilesAndArtifactsPath);
  }

  /** What doHandle hands to writeResponse, if anything. */
  datatype Response = NotWritten | Written(buildId: int, torrentsAndArtifacts: map<File, string>)

  /** The request is answered iff the buildId parameter is present and a
      `long`, the build exists, downloading is enabled, and the map is
      built without an exception. */
  function HandleSpec(buildIdParam: Option<string>, buildExists: int -> bool, downloadEnabled: bool,
                      torrentFilesOf: int -> seq<File>, relativePath: File -> Option<string>): Response {
    var buildId := ParseLong(buildIdParam);
    if buildId.None? || !buildExists(buildId.value) || !downloadEnabled then NotWritten
    else
      var m := ArtifactsWithTorrents(torrentFilesOf(buildId.value), relativePath);
      if m.None? then NotWritten else Written(buildId.value, m.value)
  }

  /** doHandle: every exception after the parameter check is swallowed, so
      each failure ends with nothing written. */
  method DoHandle(buildIdParam: Option<string>, buildExists: int -> bool, downloadEnabled: bool,
                  torrentFilesOf: int -> seq<File>, relativePath: File -> Option<string>)
    returns (r: Response)
    ensures r == HandleSpec(buildIdParam, buildExists, downloadEnabled, torrentFilesOf, relativePath)
  {
    if buildIdParam.None? {
      return NotWritten;
    }
    var buildId := ParseLong(buildIdParam);
    if buildId.None? {
      return NotWritten;
    }
    if buildExists(buildId.value) && downloadEnabled {
      var torrentsAndArtifacts := GetArtifactsWithTorrents(torrentFilesOf(buildId.value), relativePath);
      if torrentsAndArtifacts.None? {
        return NotWritten;
      }
      return Written(buildId.value, torrentsAndArtifacts.value);
    }
    r := NotWritten;
  }

  /** Nothing is written without a buildId, for a buildId that is not a
      `long`, for a missing build, or with downloading disabled; a
      written answer is for the requested build and lists exactly its
      torrents under the base directory. */
  lemma HandleGuards(buildIdParam: Option<string>, buildExists: int -> bool, downloadEnabled: bool,
                     torrentFilesOf: int -> seq<File>, relativePath: File -> Option<string>)
    ensures buildIdParam.None? ==> HandleSpec(buildIdParam, buildExists, downloadEnabled, torrentFilesOf, relativePath) == NotWritten
    ensures ParseLong(buildIdParam).None? ==> HandleSpec(buildIdParam, buildExists, downloadEnabled, torrentFilesOf, relativePath) == NotWritten
    ensures !downloadEnabled ==> HandleSpec(buildIdParam, buildExists, downloadEnabled, torrentFilesOf, relativePath) == NotWritten
    ensures var r := HandleSpec(buildIdParam, buildExists, downloadEnabled, torrentFilesOf, relativePath);
            r.Written? ==>
              && ParseLong(buildIdParam) == Some(r.buildId) && buildExists(r.buildId) && downloadEnabled
              && forall f :: f in r.torrentsAndArtifacts <==> Listed(torrentFilesOf(r.buildId), relativePath, f)
  {
    var buildId := ParseLong(buildIdParam);
    if buildId.Some? {
      ArtifactsWithTorrentsSpec(torrentFilesOf(buildId.value), relativePath);
    }
  }

  /** A build's id printed as decimal text is accepted. */
  lemma HandleWrittenForBuild(buildId: int, buildExists: int -> bool, torrentFilesOf: int -> seq<File>,
                              relativePath: File -> Option<string>)
    requires IsInt64(buildId) && buildExists(buildId)
    requires forall f :: f in torrentFilesOf(buildId) && relativePath(f).Some? ==> |relativePath(f).value| >= |TorrentFileSuffix|
    ensures HandleSpec(Some(IntToString(buildId)), buildExists, true, torrentFilesOf, relativePath).Written?
  {
    LongToStringRoundTrip(buildId);
    ArtifactsWithTorrentsSpec(torrentFilesOf(buildId), relativePath);
  }
}
