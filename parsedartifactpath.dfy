/** An artifact download URL split by the pattern
      (.*?)/repository/download/([^/]+)/([^/]+)/(.+?)(\?branch=.+)?
    matched against the whole URL, and the URL of the matching .torrent
    file. */
module ParsedArtifactPath {
  import opened Wrappers
  import opened Text

  const Marker: string := "/repository/download/"
  const BranchMarker: string := "?branch="
  /** TorrentTransportFactory.TEAMCITY_TORRENTS: the artifacts directory
      ".teamcity" followed by "/torrents/". */
  const TeamcityTorrents: string := ".teamcity/torrents/"
  const TorrentSuffix: string := ".torrent"

  /** The characters `.` does not match in a java.util.regex pattern without
      the DOTALL flag. */
  predicate IsLineTerminator(c: char) {
    c == '\n' || c == '\r' || c == '\U{85}' || c == '\U{2028}' || c == '\U{2029}'
  }

  predicate NoLineTerminator(s: string) {
    forall i :: 0 <= i < |s| ==> !IsLineTerminator(s[i])
  }

  /** The five groups; `branch` is group 5, which includes "?branch=". */
  datatype Parsed = Parsed(serverUrl: string, moduleName: string, revision: string,
                           artifactPath: string, branch: Option<string>)

  /** The text `([^/]+)` accepts. */
  predicate IsSegment(x: string) {
    x != "" && '/' !in x
  }

  /** The text `(\?branch=.+)` accepts. */
  predicate IsBranchGroup(b: string) {
    |b| > |BranchMarker| && StartsWith(b, BranchMarker) && NoLineTerminator(b)
  }

  function BranchText(p: Parsed): string {
    if p.branch.Some? then p.branch.value else ""
  }

  /** Groups 4 and 5 together. */
  function Tail(p: Parsed): string {
    p.artifactPath + BranchText(p)
  }

  /** The URL the groups come from, put back together. */
  function Unparse(p: Parsed): string {
    p.serverUrl + (Marker + (p.moduleName + ("/" + (p.revision + ("/" + Tail(p))))))
  }

  /** `p` is one way the pattern can match all of `s`. */
  predicate Matches(s: string, p: Parsed) {
    && s == Unparse(p)
    && NoLineTerminator(p.serverUrl)
    && IsSegment(p.moduleName) && IsSegment(p.revision)
    && p.artifactPath != "" && NoLineTerminator(p.artifactPath)
    && (p.branch.Some? ==> IsBranchGroup(p.branch.value))
  }

  /** The order in which the matcher's backtracking tries matches: the lazy
      group 1 as short as possible first, then the lazy group 4. */
  predicate Preferred(p: Parsed, q: Parsed) {
    |p.serverUrl| < |q.serverUrl|
    || (|p.serverUrl| == |q.serverUrl| && |p.artifactPath| <= |q.artifactPath|)
  }

  /** The end of the run of non-'/' characters starting at `k`. */
  function SegmentEnd(s: string, k: nat): (r: nat)
    requires k <= |s|
    ensures k <= r <= |s|
    ensures forall j :: k <= j < r ==> s[j] != '/'
    ensures r < |s| ==> s[r] == '/'
    decreases |s| - k
  {
    if k == |s| || s[k] == '/' then k else SegmentEnd(s, k + 1)
  }

  lemma {:induction false} SegmentEndAt(s: string, k: nat, j: nat)
    requires k <= j < |s| && s[j] == '/'
    requires forall x :: k <= x < j ==> s[x] != '/'
    ensures SegmentEnd(s, k) == j
    decreases j - k
  {
    if k < j {
      SegmentEndAt(s, k + 1, j);
    }
  }

  /** The shortest length at least `from` that group 4 can take in the tail
      `t`: the next place where the rest is a branch group, or all of `t`. */
  function BranchStart(t: string, from: nat): (r: nat)
    requires 1 <= from <= |t|
    ensures from <= r <= |t|
    ensures r < |t| ==> IsBranchGroup(t[r..])
    ensures forall k :: from <= k < r ==> !IsBranchGroup(t[k..])
    decreases |t| - from
  {
    if from == |t| || IsBranchGroup(t[from..]) then from else BranchStart(t, from + 1)
  }

  /** Groups 2 and 3 and where group 4 starts, for group 1 ending at `i`. */
  datatype Head = Head(moduleName: string, revision: string, tailStart: nat)

  function HeadAt(s: string, i: nat): Option<Head> {
    if !OccursAt(s, Marker, i) then None
    else
      var m0 := i + |Marker|;
      var m1 := SegmentEnd(s, m0);
      if m1 == m0 || m1 == |s| then None
      else
        var r1 := SegmentEnd(s, m1 + 1);
        if r1 == m1 + 1 || r1 == |s| then None
        else Some(Head(s[m0..m1], s[m1 + 1..r1], r1 + 1))
  }

  /** The first match whose group 1 is `s[..i]`, if there is one. */
  function ParseAt(s: string, i: nat): Option<Parsed>
    requires i <= |s|
  {
    match HeadAt(s, i)
    case None => None
    case Some(h) =>
      var t := s[h.tailStart..];
      if t == "" || !NoLineTerminator(s[..i]) || !NoLineTerminator(t) then None
      else
        var l := BranchStart(t, 1);
        Some(Parsed(s[..i], h.moduleName, h.revision, t[..l], if l == |t| then None else Some(t[l..])))
  }

  function ParseFrom(s: string, i: nat): Option<Parsed>
    requires i <= |s|
    decreases |s| - i
  {
    match ParseAt(s, i)
    case Some(p) => Some(p)
    case None => if i == |s| then None else ParseFrom(s, i + 1)
  }

  /** The constructor: `None` stands for the IllegalArgumentException thrown
      when the URL does not match. */
  function Parse(artifactUrl: string): Option<Parsed> {
    ParseFrom(artifactUrl, 0)
  }

  lemma NoLineTerminatorConcat(a: string, b: string)
    ensures NoLineTerminator(a + b) <==> NoLineTerminator(a) && NoLineTerminator(b)
  {
    assert forall i :: 0 <= i < |a| ==> (a + b)[i] == a[i];
    assert forall i :: 0 <= i < |b| ==> (a + b)[|a| + i] == b[i];
  }

  lemma Peel(x: string, y: string)
    ensures (x + y)[..|x|] == x && (x + y)[|x|..] == y
  {
  }

  lemma SplitSuffix(s: string, k: nat, j: nat)
    requires k <= j <= |s|
    ensures s[k..] == s[k..j] + s[j..]
  {
  }

  /** The URL is its groups put back together when each lies where the
      pattern puts it. */
  lemma Reassemble(s: string, i: nat, m1: nat, e: nat, p: Parsed)
    requires i + |Marker| <= m1 < e < |s|
    requires s[..i] == p.serverUrl && s[i..i + |Marker|] == Marker
    requires s[i + |Marker|..m1] == p.moduleName && s[m1] == '/'
    requires s[m1 + 1..e] == p.revision && s[e] == '/' && s[e + 1..] == Tail(p)
    ensures s == Unparse(p)
  {
    var r5 := "/" + Tail(p);
    var r4 := p.revision + r5;
    var r3 := "/" + r4;
    var r2 := p.moduleName + r3;
    GlueSlash(s, e, Tail(p));
    Glue(s, m1 + 1, e, p.revision, r5);
    GlueSlash(s, m1, r4);
    Glue(s, i + |Marker|, m1, p.moduleName, r3);
    Glue(s, i, i + |Marker|, Marker, r2);
    Glue(s, 0, i, p.serverUrl, Marker + r2);
    assert s == s[0..];
  }

  /** The text from `k` on, from its two parts. */
  lemma Glue(s: string, k: nat, j: nat, x: string, y: string)
    requires k <= j <= |s| && s[k..j] == x && s[j..] == y
    ensures s[k..] == x + y
  {
    SplitSuffix(s, k, j);
  }

  lemma GlueSlash(s: string, k: nat, y: string)
    requires k < |s| && s[k] == '/' && s[k + 1..] == y
    ensures s[k..] == "/" + y
  {
    SplitSuffix(s, k, k + 1);
    assert s[k..k + 1] == "/";
  }

  /** Whatever ParseAt returns is a match with group 1 of length `i`. */
  lemma ParseAtSound(s: string, i: nat)
    requires i <= |s| && ParseAt(s, i).Some?
    ensures Matches(s, ParseAt(s, i).value) && |ParseAt(s, i).value.serverUrl| == i
  {
    var h := HeadAt(s, i).value;
    assert h.tailStart <= |s| by {
      HeadAtFacts(s, i, h);
    }
    var t := s[h.tailStart..];
    var l := BranchStart(t, 1);
    var p := Parsed(s[..i], h.moduleName, h.revision, t[..l], if l == |t| then None else Some(t[l..]));
    assert ParseAt(s, i) == Some(p);
    assert BranchText(p) == t[l..];
    assert Tail(p) == t by {
      SplitSuffix(t, 0, l);
    }
    NoLineTerminatorConcat(t[..l], t[l..]);
    HeadReassemble(s, i, h, p);
  }

  /** A head found at `i` and the text around it make up the URL. */
  lemma HeadReassemble(s: string, i: nat, h: Head, p: Parsed)
    requires i <= |s| && HeadAt(s, i) == Some(h) && h.tailStart <= |s|
    requires p.serverUrl == s[..i] && p.moduleName == h.moduleName && p.revision == h.revision
    requires Tail(p) == s[h.tailStart..]
    ensures s == Unparse(p) && IsSegment(p.moduleName) && IsSegment(p.revision)
  {
    HeadAtFacts(s, i, h);
    var m1 := i + |Marker| + |h.moduleName|;
    var e := m1 + 1 + |h.revision|;
    Reassemble(s, i, m1, e, p);
  }

  /** Where each group lies in the URL put back together from them. */
  lemma UnparseLayout(q: Parsed)
    ensures var s := Unparse(q);
            var i := |q.serverUrl|;
            var m1 := i + |Marker| + |q.moduleName|;
            var e := m1 + 1 + |q.revision|;
            && e < |s| && |s| == e + 1 + |Tail(q)|
            && s[..i] == q.serverUrl && OccursAt(s, Marker, i)
            && s[i + |Marker|..m1] == q.moduleName && s[m1] == '/'
            && s[m1 + 1..e] == q.revision && s[e] == '/'
            && s[e + 1..] == Tail(q)
  {
    LayoutAll(Unparse(q), q.serverUrl, q.moduleName, q.revision, Tail(q));
  }

  lemma LayoutAll(s: string, url: string, name: string, rev: string, tail: string)
    requires s == url + (Marker + (name + ("/" + (rev + ("/" + tail)))))
    ensures var i := |url|;
            var m1 := i + |Marker| + |name|;
            var e := m1 + 1 + |rev|;
            && e < |s| && |s| == e + 1 + |tail|
            && s[..i] == url && OccursAt(s, Marker, i)
            && s[i + |Marker|..m1] == name && s[m1] == '/'
            && s[m1 + 1..e] == rev && s[e] == '/'
            && s[e + 1..] == tail
  {
    Peel(url, Marker + (name + ("/" + (rev + ("/" + tail)))));
    LayoutAfter(s, |url|, name, rev, tail);
  }

  /** The same, for any text that holds, from `i` on, the marker, a module
      name, '/', a revision, '/' and a tail. */
  lemma LayoutAfter(s: string, i: nat, name: string, rev: string, tail: string)
    requires i <= |s| && s[i..] == Marker + (name + ("/" + (rev + ("/" + tail))))
    ensures var m1 := i + |Marker| + |name|;
            var e := m1 + 1 + |rev|;
            && e < |s| && |s| == e + 1 + |tail|
            && OccursAt(s, Marker, i)
            && s[i + |Marker|..m1] == name && s[m1] == '/'
            && s[m1 + 1..e] == rev && s[e] == '/'
            && s[e + 1..] == tail
  {
    var m0 := i + |Marker|;
    Layer(s, i, Marker, name + ("/" + (rev + ("/" + tail))));
    Layer(s, m0, name, "/" + (rev + ("/" + tail)));
    LayoutRevision(s, m0 + |name|, rev, tail);
  }

  /** The layout from the '/' after group 2 on. */
  lemma LayoutRevision(s: string, m1: nat, rev: string, tail: string)
    requires m1 <= |s| && s[m1..] == "/" + (rev + ("/" + tail))
    ensures var e := m1 + 1 + |rev|;
            && e < |s| && |s| == e + 1 + |tail|
            && s[m1] == '/' && s[m1 + 1..e] == rev && s[e] == '/'
            && s[e + 1..] == tail
  {
    var e := m1 + 1 + |rev|;
    Slash(s, m1, rev + ("/" + tail));
    Layer(s, m1 + 1, rev, "/" + tail);
    Slash(s, e, tail);
  }

  /** Where `x` lies when the text from `k` on is `x + y`. */
  lemma Layer(s: string, k: nat, x: string, y: string)
    requires k <= |s| && s[k..] == x + y
    ensures k + |x| <= |s| && s[k..k + |x|] == x && s[k + |x|..] == y
  {
    Peel(x, y);
    assert s[k..k + |x|] == s[k..][..|x|];
    assert s[k + |x|..] == s[k..][|x|..];
  }

  /** A '/' at `k` when the text from `k` on is "/" + `y`. */
  lemma Slash(s: string, k: nat, y: string)
    requires k <= |s| && s[k..] == "/" + y
    ensures k < |s| && s[k] == '/' && s[k + 1..] == y
  {
    assert s[k] == s[k..][0];
    assert s[k + 1..] == s[k..][1..];
  }

  /** Group 1 fixes groups 2 and 3 and where group 4 starts. */
  lemma MatchHead(s: string, q: Parsed)
    requires Matches(s, q)
    ensures HeadAt(s, |q.serverUrl|) == Some(Head(q.moduleName, q.revision, |s| - |Tail(q)|))
    ensures s[|s| - |Tail(q)|..] == Tail(q) && s[..|q.serverUrl|] == q.serverUrl
  {
    var i := |q.serverUrl|;
    var m0 := i + |Marker|;
    var m1 := m0 + |q.moduleName|;
    var e := m1 + 1 + |q.revision|;
    UnparseLayout(q);
    assert s[m0..m1] == q.moduleName && s[m1 + 1..e] == q.revision;
    assert i + |Marker| < m1 && m1 + 1 < e < |s|;
    HeadAtIntro(s, i, m1, e);
    assert |s| - |Tail(q)| == e + 1;
    assert Head(s[m0..m1], s[m1 + 1..e], e + 1) == Head(q.moduleName, q.revision, |s| - |Tail(q)|);
  }

  /** HeadAt from the positions of the three separators after the marker. */
  lemma HeadAtIntro(s: string, i: nat, m1: nat, e: nat)
    requires OccursAt(s, Marker, i)
    requires i + |Marker| < m1 && m1 + 1 < e < |s| && s[m1] == '/' && s[e] == '/'
    requires '/' !in s[i + |Marker|..m1] && '/' !in s[m1 + 1..e]
    ensures HeadAt(s, i) == Some(Head(s[i + |Marker|..m1], s[m1 + 1..e], e + 1))
  {
    var m0 := i + |Marker|;
    forall x | m0 <= x < m1 ensures s[x] != '/' { assert s[x] == s[m0..m1][x - m0]; }
    forall x | m1 + 1 <= x < e ensures s[x] != '/' { assert s[x] == s[m1 + 1..e][x - m1 - 1]; }
    SegmentEndAt(s, m0, m1);
    SegmentEndAt(s, m1 + 1, e);
  }

  /** What HeadAt finding something says about the URL. */
  lemma HeadAtFacts(s: string, i: nat, h: Head)
    requires HeadAt(s, i) == Some(h)
    ensures var m1 := i + |Marker| + |h.moduleName|;
            var e := m1 + 1 + |h.revision|;
            && e < |s| && h.tailStart == e + 1
            && s[i..i + |Marker|] == Marker
            && s[i + |Marker|..m1] == h.moduleName && s[m1] == '/'
            && s[m1 + 1..e] == h.revision && s[e] == '/'
            && IsSegment(h.moduleName) && IsSegment(h.revision)
  {
    var m0 := i + |Marker|;
    var m1 := SegmentEnd(s, m0);
    var e := SegmentEnd(s, m1 + 1);
    assert h.moduleName == s[m0..m1] && h.revision == s[m1 + 1..e];
    forall x | 0 <= x < |h.moduleName| ensures h.moduleName[x] != '/' { assert h.moduleName[x] == s[m0 + x]; }
    forall x | 0 <= x < |h.revision| ensures h.revision[x] != '/' { assert h.revision[x] == s[m1 + 1 + x]; }
  }

  /** Every match is found at its own group 1, and what is found there has a
      group 4 no longer than the match's; if just as long, it is the match. */
  lemma MatchFound(s: string, q: Parsed)
    requires Matches(s, q)
    ensures ParseAt(s, |q.serverUrl|).Some?
    ensures |ParseAt(s, |q.serverUrl|).value.artifactPath| <= |q.artifactPath|
    ensures |ParseAt(s, |q.serverUrl|).value.artifactPath| == |q.artifactPath| ==> ParseAt(s, |q.serverUrl|).value == q
  {
    MatchHead(s, q);
    FoundFromHead(s, |q.serverUrl|, Head(q.moduleName, q.revision, |s| - |Tail(q)|), q);
  }

  /** MatchFound once the head is found: only group 1 and the groups 4 and
      5 together are needed from the URL. */
  lemma FoundFromHead(s: string, i: nat, h: Head, q: Parsed)
    requires i <= |s| && HeadAt(s, i) == Some(h) && h.tailStart <= |s|
    requires s[..i] == q.serverUrl && h.moduleName == q.moduleName && h.revision == q.revision
    requires s[h.tailStart..] == Tail(q)
    requires q.artifactPath != "" && NoLineTerminator(q.serverUrl) && NoLineTerminator(q.artifactPath)
    requires q.branch.Some? ==> IsBranchGroup(q.branch.value)
    ensures ParseAt(s, i).Some?
    ensures |ParseAt(s, i).value.artifactPath| <= |q.artifactPath|
    ensures |ParseAt(s, i).value.artifactPath| == |q.artifactPath| ==> ParseAt(s, i).value == q
  {
    var t := Tail(q);
    NoLineTerminatorConcat(q.artifactPath, BranchText(q));
    Peel(q.artifactPath, BranchText(q));
    var l := BranchStart(t, 1);
    var a := |q.artifactPath|;
    if q.branch.Some? {
      assert t[a..] == q.branch.value;
    }
    assert l <= a;
    ParseAtIntro(s, i, h);
    if l == a {
      assert t[..l] == q.artifactPath;
    }
  }

  /** What ParseAt builds once HeadAt has found the head and the rest holds
      no line terminator. */
  lemma ParseAtIntro(s: string, i: nat, h: Head)
    requires i <= |s| && HeadAt(s, i) == Some(h) && h.tailStart <= |s|
    requires s[h.tailStart..] != "" && NoLineTerminator(s[..i]) && NoLineTerminator(s[h.tailStart..])
    ensures var t := s[h.tailStart..];
            var l := BranchStart(t, 1);
            ParseAt(s, i) == Some(Parsed(s[..i], h.moduleName, h.revision, t[..l], if l == |t| then None else Some(t[l..])))
  {
  }

  /** At one length of group 1: what ParseAt finds is the match with the
      shortest group 4, and finding nothing means no match has that group 1. */
  lemma ParseAtSpec(s: string, i: nat)
    requires i <= |s|
    ensures ParseAt(s, i).Some? ==> Matches(s, ParseAt(s, i).value) && |ParseAt(s, i).value.serverUrl| == i
    ensures forall q :: Matches(s, q) && |q.serverUrl| == i ==> ParseAt(s, i).Some? && Preferred(ParseAt(s, i).value, q)
  {
    if ParseAt(s, i).Some? {
      ParseAtSound(s, i);
    }
    forall q | Matches(s, q) && |q.serverUrl| == i
      ensures ParseAt(s, i).Some? && Preferred(ParseAt(s, i).value, q)
    {
      MatchFound(s, q);
    }
  }

  /** The search from `i` on finds the preferred match among those whose
      group 1 is at least `i` long. */
  lemma {:induction false} ParseFromSpec(s: string, i: nat)
    requires i <= |s|
    ensures ParseFrom(s, i).None? ==> forall q :: Matches(s, q) ==> |q.serverUrl| < i
    ensures ParseFrom(s, i).Some? ==>
              && Matches(s, ParseFrom(s, i).value) && i <= |ParseFrom(s, i).value.serverUrl|
              && forall q :: Matches(s, q) && i <= |q.serverUrl| ==> Preferred(ParseFrom(s, i).value, q)
    decreases |s| - i
  {
    ParseAtSpec(s, i);
    if ParseAt(s, i).None? {
      if i < |s| {
        ParseFromSpec(s, i + 1);
      } else {
        forall q | Matches(s, q) ensures |q.serverUrl| < i {
          UnparseLayout(q);
        }
      }
    }
  }

  /** The constructor throws exactly when no match exists; otherwise it
      yields the match the matcher tries first. */
  lemma ParseSpec(s: string)
    ensures Parse(s).None? <==> forall q :: !Matches(s, q)
    ensures Parse(s).Some? ==> Matches(s, Parse(s).value)
    ensures Parse(s).Some? ==> forall q :: Matches(s, q) ==> Preferred(Parse(s).value, q)
  {
    ParseFromSpec(s, 0);
  }

  /** Two matches with the same group 1 agree on groups 2 and 3 and on the
      text after them. */
  lemma SameHead(s: string, p: Parsed, q: Parsed)
    requires Matches(s, p) && Matches(s, q) && |p.serverUrl| == |q.serverUrl|
    ensures p.serverUrl == q.serverUrl && p.moduleName == q.moduleName && p.revision == q.revision
    ensures Tail(p) == Tail(q)
  {
    MatchHead(s, p);
    MatchHead(s, q);
  }

  /** What a successful parse yields: the URL is its groups put back
      together, groups 2 and 3 are non-empty and hold no '/', group 1 ends at
      an occurrence of "/repository/download/", and a branch is present only
      as a trailing "?branch=" with at least one character after it. */
  lemma ParsedShape(s: string)
    requires Parse(s).Some?
    ensures var p := Parse(s).value;
            && s == Unparse(p)
            && p.moduleName != "" && '/' !in p.moduleName && p.revision != "" && '/' !in p.revision
            && OccursAt(s, Marker, |p.serverUrl|)
            && (p.branch.Some? ==> EndsWith(s, p.branch.value) && StartsWith(p.branch.value, BranchMarker)
                                   && |p.branch.value| > |BranchMarker|)
  {
    ParseSpec(s);
    var p := Parse(s).value;
    MatchHead(s, p);
  }

  /** getTorrentPath. */
  function TorrentPath(p: Parsed): string {
    TeamcityTorrents + p.artifactPath + TorrentSuffix
  }

  /** The artifact path is what lies between the torrents directory and the
      ".torrent" suffix of the torrent path. */
  lemma TorrentPathStrip(p: Parsed)
    ensures var r := TorrentPath(p);
            && StartsWith(r, TeamcityTorrents) && EndsWith(r, TorrentSuffix)
            && r[|TeamcityTorrents|..|r| - |TorrentSuffix|] == p.artifactPath
  {
    var r := TorrentPath(p);
    assert r[..|TeamcityTorrents|] == TeamcityTorrents;
    assert r[|r| - |TorrentSuffix|..] == TorrentSuffix;
    assert r[|TeamcityTorrents|..|r| - |TorrentSuffix|] == p.artifactPath;
  }

  /** getTorrentUrl as written: the stored group 5 already starts with
      "?branch=", and the format puts another "?branch=" in front of it. */
  function TorrentUrlAsWritten(p: Parsed): string {
    var query := if p.branch.None? then "" else BranchMarker + p.branch.value;
    p.serverUrl + (Marker + (p.moduleName + ("/" + (p.revision + ("/" + (TorrentPath(p) + query))))))
  }

  /** getTorrentUrl as intended: the branch query is appended as it was
      parsed. */
  function TorrentUrl(p: Parsed): string {
    p.serverUrl + (Marker + (p.moduleName + ("/" + (p.revision + ("/" + (TorrentPath(p) + BranchText(p)))))))
  }

  /** The intended torrent URL is the artifact URL with the torrent path in
      place of the artifact path: the pattern matches it with the same
      server, module, revision and branch. */
  lemma TorrentUrlMatches(s: string, p: Parsed)
    requires Matches(s, p)
    ensures Matches(TorrentUrl(p), p.(artifactPath := TorrentPath(p)))
  {
    TorrentPathNoLineTerminator(p.artifactPath);
  }

  lemma TorrentPathNoLineTerminator(a: string)
    requires NoLineTerminator(a)
    ensures NoLineTerminator(TeamcityTorrents + a + TorrentSuffix) && TeamcityTorrents + a + TorrentSuffix != ""
  {
    NoLineTerminatorConcat(TeamcityTorrents, a);
    NoLineTerminatorConcat(TeamcityTorrents + a, TorrentSuffix);
  }

  /** With a branch, the URL getTorrentUrl builds differs from the intended
      one: its query is "?branch=" followed by the whole parsed group 5, so
      it carries "?branch=" twice. */
  lemma AsWrittenDoublesBranch(s: string, p: Parsed)
    requires Matches(s, p) && p.branch.Some?
    ensures var u := TorrentUrlAsWritten(p);
            && EndsWith(u, BranchMarker + p.branch.value)
            && StartsWith(BranchMarker + p.branch.value, BranchMarker + BranchMarker)
            && u != TorrentUrl(p)
  {
    DoubledBranchQuery(p);
  }

  lemma DoubledBranchQuery(p: Parsed)
    requires p.branch.Some? && StartsWith(p.branch.value, BranchMarker)
    ensures var u := TorrentUrlAsWritten(p);
            && EndsWith(u, BranchMarker + p.branch.value)
            && StartsWith(BranchMarker + p.branch.value, BranchMarker + BranchMarker)
            && u != TorrentUrl(p)
  {
    var u := TorrentUrlAsWritten(p);
    var b := p.branch.value;
    assert u[|u| - |BranchMarker + b|..] == BranchMarker + b;
    assert b[..|BranchMarker|] == BranchMarker;
    assert (BranchMarker + b)[..|BranchMarker + BranchMarker|] == BranchMarker + BranchMarker;
    assert |u| == |TorrentUrl(p)| + |BranchMarker|;
  }

  /** The two torrent URLs agree exactly on the artifacts without a branch,
      so for those the intended URL is the one getTorrentUrl requests. */
  lemma AsWrittenAgreesWithoutBranch(p: Parsed)
    requires p.branch.Some? ==> StartsWith(p.branch.value, BranchMarker)
    ensures TorrentUrlAsWritten(p) == TorrentUrl(p) <==> p.branch.None?
  {
    if p.branch.Some? {
      DoubledBranchQuery(p);
    }
  }

  /** The URL of an artifact on branch "dev" and its groups. */
  function BranchExample(): Parsed {
    Parsed("http://h", "bt", "1", "a.zip", Some("?branch=dev"))
  }

  function BranchExampleFront(): string {
    "http://h" + (Marker + ("bt" + ("/" + ("1" + "/"))))
  }

  lemma BranchExampleMatches()
    ensures Matches(BranchExampleFront() + "a.zip?branch=dev", BranchExample())
  {
    var p := BranchExample();
    assert '/' !in p.moduleName && '/' !in p.revision;
    assert IsBranchGroup(p.branch.value);
    assert Tail(p) == "a.zip?branch=dev";
    ExampleAssoc("http://h", "bt", "1", Tail(p));
  }

  /** For that artifact getTorrentUrl asks for branch "?branch=dev". */
  lemma AsWrittenBranchExample()
    ensures TorrentUrlAsWritten(BranchExample())
            == BranchExampleFront() + ".teamcity/torrents/a.zip.torrent?branch=?branch=dev"
  {
    var p := BranchExample();
    assert TorrentPath(p) + (BranchMarker + "?branch=dev") == ".teamcity/torrents/a.zip.torrent?branch=?branch=dev";
    ExampleAssoc("http://h", "bt", "1", TorrentPath(p) + (BranchMarker + "?branch=dev"));
  }

  /** The intended torrent URL keeps the artifact's own query. */
  lemma TorrentUrlBranchExample()
    ensures TorrentUrl(BranchExample()) == BranchExampleFront() + ".teamcity/torrents/a.zip.torrent?branch=dev"
  {
    var p := BranchExample();
    assert TorrentPath(p) + BranchText(p) == ".teamcity/torrents/a.zip.torrent?branch=dev";
    ExampleAssoc("http://h", "bt", "1", TorrentPath(p) + BranchText(p));
  }

  lemma ExampleAssoc(server: string, m: string, r: string, t: string)
    ensures server + (Marker + (m + ("/" + (r + ("/" + t)))))
            == (server + (Marker + (m + ("/" + (r + "/"))))) + t
  {
  }

  /** When no "/repository/download/" starts before group 1 ends, the
      constructor's group 1 is that match's. */
  lemma ParseFirstMarkerHead(s: string, q: Parsed)
    requires Matches(s, q)
    requires forall j :: 0 <= j < |q.serverUrl| ==> !OccursAt(s, Marker, j)
    ensures Parse(s).Some? && Matches(s, Parse(s).value)
    ensures |Parse(s).value.serverUrl| == |q.serverUrl|
    ensures |Parse(s).value.artifactPath| <= |q.artifactPath|
  {
    ParseSpec(s);
    UnparseLayout(Parse(s).value);
  }

  /** When group 1 ends at the first "/repository/download/" and group 4
      holds no '?', the constructor yields exactly that match. */
  lemma ParseFirstMarker(s: string, q: Parsed)
    requires Matches(s, q)
    requires forall j :: 0 <= j < |q.serverUrl| ==> !OccursAt(s, Marker, j)
    requires '?' !in q.artifactPath
    ensures Parse(s) == Some(q)
  {
    ParseFirstMarkerHead(s, q);
    var p := Parse(s).value;
    SameHead(s, p, q);
    ShorterGroupFourMeetsQuery(p, q);
    Peel(p.artifactPath, BranchText(p));
    Peel(q.artifactPath, BranchText(q));
    assert p.artifactPath == q.artifactPath;
  }

  /** Of two matches with the same groups 4 and 5 together, the one with the
      shorter group 4 has its group 5, so a '?', where the other's group 4
      goes on. */
  lemma ShorterGroupFourMeetsQuery(p: Parsed, q: Parsed)
    requires Tail(p) == Tail(q) && (p.branch.Some? ==> IsBranchGroup(p.branch.value))
    ensures |p.artifactPath| < |q.artifactPath| ==> q.artifactPath[|p.artifactPath|] == '?'
  {
    if |p.artifactPath| < |q.artifactPath| {
      Peel(p.artifactPath, BranchText(p));
      Peel(q.artifactPath, BranchText(q));
      var b := p.branch.value;
      assert b[..|BranchMarker|] == BranchMarker;
      assert Tail(p)[|p.artifactPath|] == b[0] == '?';
      assert q.artifactPath[|p.artifactPath|] == Tail(q)[|p.artifactPath|];
    }
  }

  /** No "/repository/download/" can start inside `u`, whatever follows:
      no '/' in `u` is followed by 'r', and `u` does not end with '/'. */
  predicate NoMarkerStart(u: string) {
    (forall j :: 0 <= j < |u| - 1 ==> !(u[j] == '/' && u[j + 1] == 'r'))
    && (u != "" ==> u[|u| - 1] != '/')
  }

  lemma NoMarkerStartSpec(u: string, rest: string)
    requires NoMarkerStart(u)
    ensures forall j :: 0 <= j < |u| ==> !OccursAt(u + rest, Marker, j)
  {
    var s := u + rest;
    forall j | 0 <= j < |u| ensures !OccursAt(s, Marker, j) {
      if j + |Marker| <= |s| {
        assert s[j] != '/' || s[j + 1] != 'r';
        assert s[j..j + |Marker|][0] == s[j] && s[j..j + |Marker|][1] == s[j + 1];
      }
    }
  }

  /** A URL with no branch query, whose server part cannot hold the marker
      and whose artifact path has no '?', parses into its own parts, and its
      torrent URL puts the torrent path in place of the artifact path. */
  lemma ParseSimple(server: string, m: string, r: string, a: string)
    requires NoLineTerminator(server) && NoMarkerStart(server)
    requires IsSegment(m) && IsSegment(r)
    requires a != "" && NoLineTerminator(a) && '?' !in a
    ensures var s := server + (Marker + (m + ("/" + (r + ("/" + a)))));
            && Parse(s) == Some(Parsed(server, m, r, a, None))
            && TorrentUrl(Parse(s).value) == server + (Marker + (m + ("/" + (r + ("/" + (TeamcityTorrents + a + TorrentSuffix))))))
  {
    var rest := Marker + (m + ("/" + (r + ("/" + a))));
    var q := Parsed(server, m, r, a, None);
    assert Tail(q) == a;
    assert Matches(server + rest, q);
    NoMarkerStartSpec(server, rest);
    ParseFirstMarker(server + rest, q);
    assert TorrentPath(q) + BranchText(q) == TeamcityTorrents + a + TorrentSuffix;
  }

  lemma TransportTestServer()
    ensures NoLineTerminator("http://localhost:12345/httpAuth") && NoMarkerStart("http://localhost:12345/httpAuth")
  {
  }

  lemma TransportTestParts()
    ensures IsSegment("TC_Gaya80x_BuildDist") && IsSegment("2063228.tcbuildid")
    ensures NoLineTerminator("MyBuild.31.zip") && '?' !in "MyBuild.31.zip"
  {
  }

  lemma TransportTestTorrentPath()
    ensures TeamcityTorrents + "MyBuild.31.zip" + TorrentSuffix == ".teamcity/torrents/MyBuild.31.zip.torrent"
  {
    assert TeamcityTorrents + "MyBuild.31.zip" == ".teamcity/torrents/MyBuild.31.zip";
  }

  /** The artifact of the transport test: an artifact URL below the test's
      server path yields the torrent URL in the torrents directory of the
      same build. */
  lemma TransportTestExample()
    ensures var server := "http://localhost:12345/httpAuth";
            var s := server + (Marker + ("TC_Gaya80x_BuildDist" + ("/" + ("2063228.tcbuildid" + ("/" + "MyBuild.31.zip")))));
            && Parse(s).Some?
            && TorrentUrl(Parse(s).value)
               == server + (Marker + ("TC_Gaya80x_BuildDist" + ("/" + ("2063228.tcbuildid" + ("/" + ".teamcity/torrents/MyBuild.31.zip.torrent")))))
  {
    TransportTestServer();
    TransportTestParts();
    TransportTestTorrentPath();
    ParseSimple("http://localhost:12345/httpAuth", "TC_Gaya80x_BuildDist", "2063228.tcbuildid", "MyBuild.31.zip");
  }
}
