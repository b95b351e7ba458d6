/** TorrentTransportFactory and its TorrentTransport: whether a build
    downloads artifacts over BitTorrent, which artifacts have a torrent
    (read from the build's teamcity-ivy.xml), and the steps of one artifact
    download. HTTP, XML parsing and the peer-to-peer download are
    parameters: the model receives what they returned. */
module TorrentTransportFactory {
  import opened Wrappers
  import opened Text
  import opened ParsedArtifactPath
  import opened TorrentsDownloadStatistic

  const TeamcityArtifactsTransport: string := "teamcity.artifacts.transport"
  /** `TorrentTransport.class.getSimpleName()`. */
  const TorrentTransportName: string := "TorrentTransport"
  /** ArtifactsConstants.TEAMCITY_ARTIFACTS_DIR. */
  const TeamcityArtifactsDir: string := ".teamcity"
  const TeamcityIvy: string := "teamcity-ivy.xml"

  /** shouldUseTorrentTransport: the build's shared parameter decides when
      it is set; otherwise the agent's download setting does. */
  function ShouldUseTorrentTransport(sharedConfigParameters: map<string, string>, downloadEnabled: bool): bool {
    if TeamcityArtifactsTransport in sharedConfigParameters then
      sharedConfigParameters[TeamcityArtifactsTransport] == TorrentTransportName
    else downloadEnabled
  }

  /** Once a build sets the shared parameter, the agent's own download
      setting no longer matters, and setting it to a value chooses the
      torrent transport exactly when that value names it; no other shared
      parameter has any effect. */
  lemma SharedParameterOverridesAgent(sharedConfigParameters: map<string, string>, value: string,
                                      other: string, otherValue: string, downloadEnabled: bool)
    ensures TeamcityArtifactsTransport in sharedConfigParameters ==>
              ShouldUseTorrentTransport(sharedConfigParameters, true) == ShouldUseTorrentTransport(sharedConfigParameters, false)
    ensures ShouldUseTorrentTransport(sharedConfigParameters[TeamcityArtifactsTransport := value], downloadEnabled)
            <==> value == TorrentTransportName
    ensures other != TeamcityArtifactsTransport ==>
              ShouldUseTorrentTransport(sharedConfigParameters[other := otherValue], downloadEnabled)
              == ShouldUseTorrentTransport(sharedConfigParameters, downloadEnabled)
  {
  }

  /** An `<artifact name=… ext=…>` element of the ivy file. */
  datatype IvyArtifact = IvyArtifact(name: string, ext: string)

  /** The artifact's file name: `name.ext`, or the bare name when the
      extension is empty. */
  function ArtifactId(a: IvyArtifact): (r: string)
    ensures a.ext == "" ==> r == a.name
    ensures a.ext != "" ==> StartsWith(r, a.name) && EndsWith(r, "." + a.ext) && |r| == |a.name| + 1 + |a.ext|
  {
    if a.ext != "" then a.name + "." + a.ext else a.name
  }

  /** The ids of every listed artifact. */
  method CollectArtifactIds(artifacts: seq<IvyArtifact>) returns (ids: set<string>)
    ensures ids == set a | a in artifacts :: ArtifactId(a)
  {
    ids := {};
    var i := 0;
    while i < |artifacts|
      invariant 0 <= i <= |artifacts|
      invariant ids == set a | a in artifacts[..i] :: ArtifactId(a)
    {
      assert artifacts[..i + 1] == artifacts[..i] + [artifacts[i]];
      ids := ids + {ArtifactId(artifacts[i])};
      i := i + 1;
    }
    assert artifacts[..|artifacts|] == artifacts;
  }

  /** The torrent an artifact would have: TEAMCITY_TORRENTS + path +
      ".torrent". */
  function TorrentNameFor(s: string): string {
    TeamcityTorrents + s + TorrentSuffix
  }

  /** The name stored for an artifact is the torrent path that the parsed
      artifact URL rebuilds. */
  lemma TorrentNameIsTorrentPath(p: Parsed)
    ensures TorrentNameFor(p.artifactPath) == TorrentPath(p)
  {
  }

  /** An artifact outside .teamcity whose torrent is listed as well. */
  predicate HasTorrent(ids: set<string>, s: string) {
    s in ids && !StartsWith(s, TeamcityArtifactsDir) && TorrentNameFor(s) in ids
  }

  /** What parseArtifactsList puts into myTorrentsForArtifacts. */
  function TorrentMapping(ids: set<string>): (m: map<string, string>)
    ensures forall s :: s in m <==> HasTorrent(ids, s)
    ensures forall s :: s in m ==> m[s] == TorrentNameFor(s) && m[s] in ids
  {
    map s | s in ids && HasTorrent(ids, s) :: TorrentNameFor(s)
  }

  /** A torrent is never itself mapped: every stored name lies under
      .teamcity. */
  lemma TorrentsAreNotMapped(ids: set<string>, s: string)
    requires s in TorrentMapping(ids)
    ensures StartsWith(TorrentMapping(ids)[s], TeamcityArtifactsDir)
    ensures TorrentMapping(ids)[s] !in TorrentMapping(ids)
  {
    var t := TorrentNameFor(s);
    assert t[..|TeamcityArtifactsDir|] == TeamcityArtifactsDir;
  }

  /** The ivy file of the transport test: MyBuild.31.zip has its torrent,
      MyBuild.32.zip has none. */
  lemma TransportTestMapping(zip31: string, torrent31: string, zip32: string)
    requires zip31 == "MyBuild.31.zip" && torrent31 == TorrentNameFor(zip31) && zip32 == "MyBuild.32.zip"
    ensures TorrentMapping({zip31, torrent31, zip32}) == map[zip31 := torrent31]
    ensures zip32 != zip31
  {
    var ids := {zip31, torrent31, zip32};
    assert zip32[9] != zip31[9];
    assert !StartsWith(zip31, TeamcityArtifactsDir) by {
      assert zip31[0] != TeamcityArtifactsDir[0];
    }
    assert HasTorrent(ids, zip31);
    assert StartsWith(torrent31, TeamcityArtifactsDir);
    var t32 := TorrentNameFor(zip32);
    assert t32 != torrent31 by {
      assert t32[28] == '2' && torrent31[28] == '1';
    }
    assert t32 !in ids;
    var m := TorrentMapping(ids);
    assert m.Keys == {zip31};
  }

  /** The entries of the mapping for the ids handled so far. */
  function MappingSoFar(ids: set<string>, done: set<string>): map<string, string> {
    map s | s in done && HasTorrent(ids, s) :: TorrentNameFor(s)
  }

  /** Handling one more id adds its entry, if it has a torrent, and
      nothing else. */
  lemma MappingStep(ids: set<string>, done: set<string>, s: string)
    requires s in ids
    ensures HasTorrent(ids, s) ==> MappingSoFar(ids, done + {s}) == MappingSoFar(ids, done)[s := TorrentNameFor(s)]
    ensures !HasTorrent(ids, s) ==> MappingSoFar(ids, done + {s}) == MappingSoFar(ids, done)
  {
  }

  lemma UpdateUnion(a: map<string, string>, b: map<string, string>, k: string, v: string)
    ensures (a + b)[k := v] == a + b[k := v]
  {
  }

  lemma MappingComplete(ids: set<string>)
    ensures MappingSoFar(ids, ids) == TorrentMapping(ids)
  {
  }

  /** A torrent file's contents, as far as the transport reads them. */
  datatype TorrentMeta = TorrentMeta(fileSizes: seq<int>)

  function SumSizes(sizes: seq<int>): int {
    if sizes == [] then 0 else SumSizes(sizes[..|sizes| - 1]) + sizes[|sizes| - 1]
  }

  /** Every size counts toward the expected length. */
  lemma {:induction false} SumSizesBound(sizes: seq<int>, k: nat)
    requires forall i :: 0 <= i < |sizes| ==> sizes[i] >= 0
    requires k < |sizes|
    ensures SumSizes(sizes) >= sizes[k]
  {
    var init := sizes[..|sizes| - 1];
    if k < |sizes| - 1 {
      SumSizesBound(init, k);
    } else {
      SumSizesNonNegative(init);
    }
  }

  lemma {:induction false} SumSizesNonNegative(sizes: seq<int>)
    requires forall i :: 0 <= i < |sizes| ==> sizes[i] >= 0
    ensures SumSizes(sizes) >= 0
  {
    if sizes != [] {
      SumSizesNonNegative(sizes[..|sizes| - 1]);
    }
  }

  /** The expected length of the download: the sum of the sizes of the
      torrent's files. */
  method ExpectedSize(torrent: TorrentMeta) returns (size: int)
    ensures size == SumSizes(torrent.fileSizes)
  {
    size := 0;
    var i := 0;
    while i < |torrent.fileSizes|
      invariant 0 <= i <= |torrent.fileSizes|
      invariant size == SumSizes(torrent.fileSizes[..i])
    {
      assert torrent.fileSizes[..i + 1][..i] == torrent.fileSizes[..i];
      size := size + torrent.fileSizes[i];
      i := i + 1;
    }
    assert torrent.fileSizes[..|torrent.fileSizes|] == torrent.fileSizes;
  }

  /** How the peer-to-peer download ended: the exception the client
      reported, an interrupt of the waiting thread, or a finished file of
      the given length. */
  datatype PeerResult = PeerFailed | Interrupted | Finished(targetLength: int)

  /** The torrent downloadUrlTo fetches for a URL other than the ivy file:
      None when decoding or parsing throws, when the artifact has no
      torrent, or when the fetch fails. */
  function FetchedTorrent(url: string, decode: string -> Option<string>, fetch: string -> Option<TorrentMeta>,
                          torrentsForArtifacts: map<string, string>): Option<TorrentMeta> {
    var decodedUrl := decode(url);
    if decodedUrl.None? then None
    else
      var parsed := Parse(decodedUrl.value);
      if parsed.None? || parsed.value.artifactPath !in torrentsForArtifacts then None
      else fetch(TorrentUrl(parsed.value))
  }

  /** What downloadUrlTo returns: a digest, null, or an exception. */
  datatype Outcome = Digest(digest: string) | NoDigest | Thrown

  /** What the delegate's getDigest gave: an IOException, the null its
      @Nullable result allows, or a digest. */
  datatype DigestReply = DigestFailed | NullDigest | DigestValue(value: string)

  /** One call of downloadUrlTo: its outcome, the URLs it requested, and
      whether it counted a failed and a finished download. */
  datatype DownloadStep = DownloadStep(outcome: Outcome, requested: seq<string>, failed: bool, succeeded: bool)

  /** Every exit of downloadUrlTo, given what the ivy parse, the decoder,
      the fetch, the peers and the digest request gave. */
  function DownloadSpec(url: string, ivyArtifacts: Option<seq<IvyArtifact>>, ivyInfo: Option<(string, string)>,
                        decode: string -> Option<string>, fetch: string -> Option<TorrentMeta>,
                        peer: PeerResult, digest: DigestReply, torrentsForArtifacts: map<string, string>): DownloadStep {
    if EndsWith(url, TeamcityIvy) then
      var listed := ivyArtifacts.Some? && ivyInfo.Some?;
      DownloadStep(if listed then Digest(TeamcityIvy + "_" + ivyInfo.value.0 + "_" + ivyInfo.value.1) else NoDigest, [url], false, false)
    else if decode(url).None? then DownloadStep(Thrown, [], false, false)
    else
      var parsed := Parse(decode(url).value);
      if parsed.None? then DownloadStep(Thrown, [], false, false)
      else if parsed.value.artifactPath !in torrentsForArtifacts then DownloadStep(NoDigest, [], false, false)
      else
        var request := [TorrentUrl(parsed.value)];
        var torrent := fetch(TorrentUrl(parsed.value));
        if torrent.None? then DownloadStep(NoDigest, request, true, false)
        else match peer
          case PeerFailed => DownloadStep(Thrown, request, true, false)
          case Interrupted => DownloadStep(Thrown, request, false, false)
          case Finished(targetLength) =>
            if targetLength != SumSizes(torrent.value.fileSizes) then DownloadStep(NoDigest, request, true, false)
            else match digest
              case DigestFailed => DownloadStep(Thrown, request, false, false)
              case NullDigest => DownloadStep(NoDigest, request, false, true)
              case DigestValue(d) => DownloadStep(Digest(d), request, false, true)
  }

  /** What one artifact download promises: it never counts both a failure
      and a success; it counts a success exactly when the artifact's torrent
      was fetched, the peers delivered a file of the torrent's total size
      and the digest request did not throw; a digest is only ever the
      server's; once the torrent is fetched, a failure is counted exactly
      when the peers failed or delivered a file of another size; the ivy
      file counts nothing; and at most one URL is requested. */
  lemma DownloadCounts(url: string, ivyArtifacts: Option<seq<IvyArtifact>>, ivyInfo: Option<(string, string)>,
                       decode: string -> Option<string>, fetch: string -> Option<TorrentMeta>,
                       peer: PeerResult, digest: DigestReply, torrentsForArtifacts: map<string, string>)
    ensures var s := DownloadSpec(url, ivyArtifacts, ivyInfo, decode, fetch, peer, digest, torrentsForArtifacts);
            var torrent := FetchedTorrent(url, decode, fetch, torrentsForArtifacts);
            && !(s.failed && s.succeeded)
            && (s.succeeded <==> !EndsWith(url, TeamcityIvy) && torrent.Some?
                                 && peer == Finished(SumSizes(torrent.value.fileSizes)) && !digest.DigestFailed?)
            && (s.outcome.Digest? && !EndsWith(url, TeamcityIvy) ==> s.succeeded && digest == DigestValue(s.outcome.digest))
            && (s.outcome.Thrown? ==> !s.succeeded)
            && (!EndsWith(url, TeamcityIvy) && torrent.Some? ==>
                  (s.failed <==> peer.PeerFailed? || (peer.Finished? && peer.targetLength != SumSizes(torrent.value.fileSizes))))
            && (EndsWith(url, TeamcityIvy) ==> !s.failed && !s.succeeded && s.requested == [url])
            && |s.requested| <= 1
  {
  }

  class TorrentTransport {
    var torrentsForArtifacts: map<string, string>
    /** Every URL passed to `download`, in order. */
    var requests: seq<string>
    const statistic: Statistic

    constructor (statistic: Statistic)
      ensures torrentsForArtifacts == map[] && requests == [] && this.statistic == statistic
    {
      torrentsForArtifacts := map[];
      requests := [];
      this.statistic := statistic;
    }

    /** The second loop of parseArtifactsList: every artifact outside
        .teamcity whose torrent is listed too is mapped to it. */
    method MapTorrents(ids: set<string>)
      modifies this
      ensures torrentsForArtifacts == old(torrentsForArtifacts) + TorrentMapping(ids)
      ensures requests == old(requests)
    {
      ghost var start := torrentsForArtifacts;
      var remaining := ids;
      while remaining != {}
        invariant remaining <= ids
        invariant torrentsForArtifacts == start + MappingSoFar(ids, ids - remaining)
        invariant requests == old(requests)
        decreases |remaining|
      {
        var s :| s in remaining;
        ghost var before := MappingSoFar(ids, ids - remaining);
        MappingStep(ids, ids - remaining, s);
        assert ids - (remaining - {s}) == (ids - remaining) + {s};
        remaining := remaining - {s};
        if !StartsWith(s, TeamcityArtifactsDir) {
          var proposedTorrentName := TeamcityTorrents + s + TorrentSuffix;
          if proposedTorrentName in ids {
            assert HasTorrent(ids, s);
            UpdateUnion(start, before, s, proposedTorrentName);
            torrentsForArtifacts := torrentsForArtifacts[s := proposedTorrentName];
          } else {
            assert !HasTorrent(ids, s);
          }
        } else {
          assert !HasTorrent(ids, s);
        }
      }
      MappingComplete(ids);
    }

    /** parseArtifactsList: `artifacts` is what the XPath query found in the
        downloaded ivy file, None when the download or the parse failed;
        `info` is the module and revision when the file has exactly one
        info element. */
    method ParseArtifactsList(teamcityIvyUrl: string, artifacts: Option<seq<IvyArtifact>>, info: Option<(string, string)>)
      returns (r: Option<string>)
      modifies this
      ensures requests == old(requests) + [teamcityIvyUrl]
      ensures artifacts.None? ==> r == None && torrentsForArtifacts == old(torrentsForArtifacts)
      ensures artifacts.Some? ==>
                && torrentsForArtifacts == old(torrentsForArtifacts) + TorrentMapping(set a | a in artifacts.value :: ArtifactId(a))
                && r == (if info.Some? then Some(TeamcityIvy + "_" + info.value.0 + "_" + info.value.1) else None)
    {
      requests := requests + [teamcityIvyUrl];
      if artifacts.None? {
        return None;
      }
      var ids := CollectArtifactIds(artifacts.value);
      MapTorrents(ids);
      if info.Some? {
        r := Some(TeamcityIvy + "_" + info.value.0 + "_" + info.value.1);
      } else {
        r := None;
      }
    }

    /** downloadTorrent: an artifact with no torrent is skipped without a
        request; otherwise the torrent is fetched from the URL the parsed
        artifact path rebuilds, and a failed fetch counts as a failed
        download. */
    method DownloadTorrent(parsed: Parsed, fetch: string -> Option<TorrentMeta>) returns (r: Option<TorrentMeta>)
      requires statistic.Valid()
      modifies this, statistic
      ensures statistic.Valid()
      ensures torrentsForArtifacts == old(torrentsForArtifacts)
      ensures statistic.successfulDownloadCount == old(statistic.successfulDownloadCount)
      ensures parsed.artifactPath !in torrentsForArtifacts ==>
                r == None && requests == old(requests) && statistic.failedDownloadCount == old(statistic.failedDownloadCount)
      ensures parsed.artifactPath in torrentsForArtifacts ==>
                && requests == old(requests) + [TorrentUrl(parsed)]
                && r == fetch(TorrentUrl(parsed))
                && statistic.failedDownloadCount == (if r.None? then Increment(old(statistic.failedDownloadCount)) else old(statistic.failedDownloadCount))
    {
      if parsed.artifactPath !in torrentsForArtifacts {
        return None;
      }
      var url := TorrentUrl(parsed);
      requests := requests + [url];
      r := fetch(url);
      if r.None? {
        statistic.FileDownloadFailed();
      }
    }

    /** downloadUrlTo: the ivy file goes to parseArtifactsList; any other URL
        is decoded (None: the decoder threw), parsed (None: the constructor
        threw), its torrent fetched, and then downloaded from peers;
        `digest` is what the digest request gave. */
    method DownloadUrlTo(url: string, ivyArtifacts: Option<seq<IvyArtifact>>, ivyInfo: Option<(string, string)>,
                         decode: string -> Option<string>, fetch: string -> Option<TorrentMeta>,
                         peer: PeerResult, digest: DigestReply)
      returns (r: Outcome)
      requires statistic.Valid()
      modifies this, statistic
      ensures statistic.Valid()
      ensures var step := DownloadSpec(url, ivyArtifacts, ivyInfo, decode, fetch, peer, digest, old(torrentsForArtifacts));
              && r == step.outcome
              && requests == old(requests) + step.requested
              && statistic.failedDownloadCount == (if step.failed then Increment(old(statistic.failedDownloadCount)) else old(statistic.failedDownloadCount))
              && statistic.successfulDownloadCount == (if step.succeeded then Increment(old(statistic.successfulDownloadCount)) else old(statistic.successfulDownloadCount))
      ensures torrentsForArtifacts == if EndsWith(url, TeamcityIvy) && ivyArtifacts.Some?
                                      then old(torrentsForArtifacts) + TorrentMapping(set a | a in ivyArtifacts.value :: ArtifactId(a))
                                      else old(torrentsForArtifacts)
    {
      if EndsWith(url, TeamcityIvy) {
        var listed := ParseArtifactsList(url, ivyArtifacts, ivyInfo);
        return if listed.Some? then Digest(listed.value) else NoDigest;
      }
      var decodedUrl := decode(url);
      if decodedUrl.None? {
        return Thrown;
      }
      var parsedArtifactUrl := Parse(decodedUrl.value);
      if parsedArtifactUrl.None? {
        return Thrown;
      }
      var torrent := DownloadTorrent(parsedArtifactUrl.value, fetch);
      if torrent.None? {
        return NoDigest;
      }
      var size := ExpectedSize(torrent.value);
      match peer {
        case PeerFailed =>
          statistic.FileDownloadFailed();
          return Thrown;
        case Interrupted =>
          return Thrown;
        case Finished(targetLength) =>
          if size != targetLength {
            statistic.FileDownloadFailed();
            return NoDigest;
          }
      }
      if digest.DigestFailed? {
        return Thrown;
      }
      statistic.FileDownloaded();
      r := if digest.NullDigest? then NoDigest else Digest(digest.value);
    }
  }

  /** The ids of three listed artifacts. */
  lemma IdsOfThree(x: IvyArtifact, y: IvyArtifact, z: IvyArtifact)
    ensures (set a | a in [x, y, z] :: ArtifactId(a)) == {ArtifactId(x), ArtifactId(y), ArtifactId(z)}
  {
  }

  /** A listed torrent's id is its name with ".torrent" appended. */
  lemma TorrentIdOf(a: IvyArtifact)
    requires a.ext == "torrent"
    ensures ArtifactId(a) == a.name + TorrentSuffix
  {
    assert "." + a.ext == TorrentSuffix;
  }

  /** The ids of the transport test's ivy file: two archives and the torrent
      of the first, listed under the torrents directory. */
  lemma TransportTestIds(a31: IvyArtifact, t31: IvyArtifact, a32: IvyArtifact, zip31: string, zip32: string)
    requires a31 == IvyArtifact("MyBuild.31", "zip") && a32 == IvyArtifact("MyBuild.32", "zip")
    requires zip31 == "MyBuild.31.zip" && zip32 == "MyBuild.32.zip"
    requires t31 == IvyArtifact(TeamcityTorrents + zip31, "torrent")
    ensures (set a | a in [a31, t31, a32] :: ArtifactId(a)) == {zip31, TorrentNameFor(zip31), zip32}
  {
    IdsOfThree(a31, t31, a32);
    assert ArtifactId(a31) == zip31;
    TorrentIdOf(t31);
    assert ArtifactId(a32) == zip32;
  }

  /** The transport test: after reading an ivy file listing MyBuild.31.zip,
      its torrent and MyBuild.32.zip, downloading both artifacts fetches
      only the torrent of the first. */
  method TransportTestDownloads(ivyUrl: string, first: Parsed, second: Parsed, fetch: string -> Option<TorrentMeta>)
    returns (attempts: seq<string>)
    requires first.artifactPath == "MyBuild.31.zip" && second.artifactPath == "MyBuild.32.zip"
    ensures attempts == [TorrentUrl(first)]
  {
    var statistic := new Statistic();
    var transport := new TorrentTransport(statistic);
    var zip31, zip32 := first.artifactPath, second.artifactPath;
    var torrent31 := TorrentNameFor(zip31);
    var a31, t31, a32 := IvyArtifact("MyBuild.31", "zip"), IvyArtifact(TeamcityTorrents + zip31, "torrent"),
                         IvyArtifact("MyBuild.32", "zip");
    var artifacts := [a31, t31, a32];
    TransportTestIds(a31, t31, a32, zip31, zip32);
    TransportTestMapping(zip31, torrent31, zip32);
    var _ := transport.ParseArtifactsList(ivyUrl, Some(artifacts), None);
    assert transport.torrentsForArtifacts == map[zip31 := torrent31];
    var _ := transport.DownloadTorrent(first, fetch);
    assert transport.requests == [ivyUrl, TorrentUrl(first)];
    var _ := transport.DownloadTorrent(second, fetch);
    attempts := transport.requests[1..];
  }
}
