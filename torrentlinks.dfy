/** torrentLinks.js, `_injectTorrentLinks`: after an artifact tree is loaded,
    the page asks the server which files have torrents (one path per line)
    and gives every matching tree entry a link to download its torrent.
    The request and its asynchronous completion are one call here, and
    `decodeURIComponent` is a parameter (`None`: it threw a URIError). */
module TorrentLinks {
  import opened Wrappers
  import opened Text

  const Repo: string := "/repository/download/"

  /** The path an entry's href names: whatever follows the second '/' after
      "/repository/download/". The searches are the script's own: the
      first starts one character past the end of the marker, and a search
      that finds nothing yields -1, which the next `+ 1` turns into 0. */
  function PathOf(href: string): (path: string)
    ensures EndsWith(href, path)
  {
    var idx0 := IndexOf(href, Repo) + |Repo|;
    var idx1 := IndexOfFrom(href, "/", idx0 + 1);
    var idx2 := IndexOfFrom(href, "/", idx1 + 1);
    href[idx2 + 1..]
  }

  /** The first '/' at or after `from`. */
  lemma SlashAt(s: string, from: int, k: nat)
    requires 0 <= from <= k < |s| && s[k] == '/'
    requires forall j :: from <= j < k ==> s[j] != '/'
    ensures IndexOfFrom(s, "/", from) == k
  {
    var r := IndexOfFrom(s, "/", from);
    assert OccursAt(s, "/", k);
    OccursAtFirst(s, "/", r);
  }

  /** For an href `prefix + "/repository/download/" + buildType + "/" +
      build + "/" + path` whose first marker is the one shown, with a
      non-empty build type and no '/' in the build type or the build, the
      path is what follows. */
  lemma PathOfArtifact(prefix: string, buildType: string, build: string, path: string)
    requires buildType != "" && '/' !in buildType && '/' !in build
    requires forall k :: 0 <= k < |prefix| ==> !OccursAt(prefix + Repo + buildType, Repo, k)
    ensures PathOf(prefix + Repo + buildType + "/" + build + "/" + path) == path
  {
    var head := prefix + Repo + buildType;
    var href := head + "/" + build + "/" + path;
    assert href[..|head|] == head;
    forall k | 0 <= k < |prefix|
      ensures !OccursAt(href, Repo, k)
    {
      assert k + |Repo| <= |head|;
      assert href[k..k + |Repo|] == href[..|head|][k..k + |Repo|];
      assert !OccursAt(head, Repo, k);
    }
    assert OccursAt(href, Repo, |prefix|) by {
      assert href[|prefix|..|prefix| + |Repo|] == head[|prefix|..|prefix| + |Repo|];
    }
    IndexOfIs(href, Repo, |prefix|);
    var idx0 := |prefix| + |Repo|;
    var idx1 := |head|;
    forall j | idx0 + 1 <= j < idx1
      ensures href[j] != '/'
    {
      assert href[j] == buildType[j - idx0];
    }
    var idx2 := idx1 + 1 + |build|;
    HrefTail(head, build, path);
    PathOfAt(href, |prefix|, idx1, idx2);
  }

  /** What follows the head: '/', the build, '/', and the path. */
  lemma HrefTail(head: string, build: string, path: string)
    requires '/' !in build
    ensures var href := head + "/" + build + "/" + path;
            var idx2 := |head| + 1 + |build|;
            && idx2 < |href| && href[|head|] == '/' && href[idx2] == '/'
            && (forall j :: |head| + 1 <= j < idx2 ==> href[j] != '/')
            && href[idx2 + 1..] == path
  {
    var front := head + "/" + build + "/";
    var href := front + path;
    var idx2 := |head| + 1 + |build|;
    forall j | |head| + 1 <= j < idx2
      ensures href[j] != '/'
    {
      assert href[j] == build[j - |head| - 1];
    }
    assert href[|front|..] == path;
  }

  /** The path is what follows the second '/' after the marker's end plus
      one. */
  lemma PathOfAt(href: string, k: nat, idx1: nat, idx2: nat)
    requires IndexOf(href, Repo) == k
    requires k + |Repo| + 1 <= idx1 < idx2 < |href| && href[idx1] == '/' && href[idx2] == '/'
    requires forall j :: k + |Repo| + 1 <= j < idx1 ==> href[j] != '/'
    requires forall j :: idx1 + 1 <= j < idx2 ==> href[j] != '/'
    ensures PathOf(href) == href[idx2 + 1..]
  {
    SlashAt(href, IndexOf(href, Repo) + |Repo| + 1, idx1);
    SlashAt(href, idx1 + 1, idx2);
    PathOfDef(href, idx1, idx2);
  }

  lemma PathOfDef(href: string, idx1: int, idx2: int)
    requires 0 <= idx2 < |href|
    requires IndexOfFrom(href, "/", IndexOf(href, Repo) + |Repo| + 1) == idx1
    requires IndexOfFrom(href, "/", idx1 + 1) == idx2
    ensures PathOf(href) == href[idx2 + 1..]
  {
  }

  /** The href of a tree entry relative to the server root. */
  lemma PathOfTreeHref(buildType: string, build: string, path: string)
    requires buildType != "" && '/' !in buildType && '/' !in build
    ensures PathOf(Repo + buildType + "/" + build + "/" + path) == path
  {
    PathOfArtifact("", buildType, build, path);
    assert "" + Repo == Repo;
  }

  /** The trimmed lines, as a set. */
  function KeysOf(lines: seq<string>): set<string> {
    if lines == [] then {} else KeysOf(lines[..|lines| - 1]) + {Trim(lines[|lines| - 1])}
  }

  /** The paths the lookup table holds: every line of the response,
      trimmed. */
  function LookupKeys(responseText: string): set<string> {
    KeysOf(SplitOn(responseText, '\n'))
  }

  /** The loop filling `filesWithTorrents`. */
  method BuildLookup(responseText: string) returns (filesWithTorrents: set<string>)
    ensures filesWithTorrents == LookupKeys(responseText)
  {
    var list := SplitOn(responseText, '\n');
    filesWithTorrents := {};
    var i := 0;
    while i < |list|
      invariant 0 <= i <= |list|
      invariant filesWithTorrents == KeysOf(list[..i])
    {
      assert list[..i + 1][..i] == list[..i];
      filesWithTorrents := filesWithTorrents + {Trim(list[i])};
      i := i + 1;
    }
    assert list[..|list|] == list;
  }

  /** Every line is in the table trimmed, and the table holds nothing
      else. */
  lemma {:induction false} KeysOfSpec(lines: seq<string>, key: string)
    ensures key in KeysOf(lines) <==> exists i :: 0 <= i < |lines| && Trim(lines[i]) == key
  {
    if lines != [] {
      var init := lines[..|lines| - 1];
      KeysOfSpec(init, key);
      if key in KeysOf(init) {
        var i :| 0 <= i < |init| && Trim(init[i]) == key;
        assert lines[i] == init[i];
      }
      if exists i :: 0 <= i < |lines| && Trim(lines[i]) == key {
        var i :| 0 <= i < |lines| && Trim(lines[i]) == key;
        if i < |init| {
          assert init[i] == lines[i];
        }
      }
    }
  }

  /** A response of one line, without a line break. */
  lemma {:induction false} SplitOnAbsent(s: string, c: char)
    requires c !in s
    ensures SplitOn(s, c) == [s]
  {
    if s != [] {
      SplitOnAbsent(s[1..], c);
      assert [s[0]] + s[1..] == s;
    }
  }

  /** The names a plain JavaScript object inherits from Object.prototype
      (ECMA-262, section 20.1.3, with the legacy accessors of Annex B). */
  const ObjectPrototypeNames: set<string> := {
    "constructor", "hasOwnProperty", "isPrototypeOf", "propertyIsEnumerable",
    "toLocaleString", "toString", "valueOf", "__proto__",
    "__defineGetter__", "__defineSetter__", "__lookupGetter__", "__lookupSetter__"}

  /** `filesWithTorrents[key]` as written: the table is a plain object, so
      an inherited member is truthy as well as every stored key. */
  predicate LookupAsWritten(filesWithTorrents: set<string>, key: string) {
    key in filesWithTorrents || key in ObjectPrototypeNames
  }

  /** The lookup as meant: membership in the table. */
  predicate Lookup(filesWithTorrents: set<string>, key: string) {
    key in filesWithTorrents
  }

  /** A line with no white space at either end is kept as it is. */
  lemma TrimKeeps(s: string)
    requires s != [] && !IsJsWhitespace(s[0]) && !IsJsWhitespace(s[|s| - 1])
    ensures Trim(s) == s
  {
    assert TrimStart(s) == s;
  }

  /** An artifact called "toString" is taken to have a torrent although the
      server listed only "a.zip". */
  lemma InheritedNameCounts(responseText: string)
    requires responseText == "a.zip"
    ensures LookupAsWritten(LookupKeys(responseText), "toString")
    ensures !Lookup(LookupKeys(responseText), "toString")
  {
    assert "toString" in ObjectPrototypeNames;
    SplitOnAbsent(responseText, '\n');
    assert [responseText][..0] == [];
    assert KeysOf([responseText]) == KeysOf([]) + {Trim(responseText)};
    TrimKeeps(responseText);
    assert LookupKeys(responseText) == {responseText};
  }

  /** The two agree on every name that is not inherited. */
  lemma LookupAgrees(filesWithTorrents: set<string>, key: string)
    requires key !in ObjectPrototypeNames
    ensures LookupAsWritten(filesWithTorrents, key) == Lookup(filesWithTorrents, key)
  {
  }

  /** The three spellings tried: the path, the path with every '+' read as
      a space, and the percent-decoded path, in that order; `None` when the
      first two miss and decoding throws. */
  function Matches(filesWithTorrents: set<string>, path: string, decode: string -> Option<string>): Option<bool> {
    if Lookup(filesWithTorrents, path) then Some(true)
    else if Lookup(filesWithTorrents, ReplaceChar(path, '+', ' ')) then Some(true)
    else
      var decoded := decode(path);
      if decoded.None? then None else Some(Lookup(filesWithTorrents, decoded.value))
  }

  /** Listing more paths never turns a match into a miss or lets decoding
      throw where it did not; a listed path matches without being decoded;
      and a path with no '+' that decodes to itself matches exactly when it
      is listed. */
  lemma MatchesMonotone(listed: set<string>, more: set<string>, path: string, decode: string -> Option<string>)
    requires listed <= more
    ensures Matches(listed, path, decode) == Some(true) ==> Matches(more, path, decode) == Some(true)
    ensures Matches(more, path, decode).None? ==> Matches(listed, path, decode).None?
    ensures path in listed ==> Matches(listed, path, (s: string) => None) == Some(true)
    ensures '+' !in path && decode(path) == Some(path) ==> Matches(listed, path, decode) == Some(path in listed)
  {
    if '+' !in path {
      assert ReplaceChar(path, '+', ' ') == path;
    }
  }

  /** The link added to a matching entry; the path goes in as it is. */
  function TorrentLinkUrl(baseUri: string, buildId: string, path: string): string {
    baseUri + "/downloadTorrent.html?buildId=" + buildId + "&file=" + path
  }

  /** The parts of a tree entry the script reads and changes: its link's
      href, the classes torrent-handled and has-torrent, and the hrefs of
      the tree-torrent-link anchors appended to it. */
  datatype EntryState = EntryState(href: string, handled: bool, hasTorrent: bool, torrentLinks: seq<string>)

  /** One entry through the `each` callback; `None` when it throws, which
      ends the loop. An entry that was already handled is not selected. */
  function Visited(s: EntryState, filesWithTorrents: set<string>, baseUri: string, buildId: string,
                 decode: string -> Option<string>): Option<EntryState> {
    if s.handled || s.href == "#" then Some(s)
    else
      var path := PathOf(s.href);
      var m := Matches(filesWithTorrents, path, decode);
      if m.None? then None
      else if m.value then
        Some(s.(handled := true, hasTorrent := true, torrentLinks := s.torrentLinks + [TorrentLinkUrl(baseUri, buildId, path)]))
      else Some(s.(handled := true))
  }

  /** Handled entries and "#" entries are left alone; every other entry
      that does not throw ends up handled, and it gets exactly one new
      link, to its own path, and the has-torrent class iff its path
      matches. */
  lemma VisitedSpec(s: EntryState, filesWithTorrents: set<string>, baseUri: string, buildId: string,
                  decode: string -> Option<string>)
    ensures s.handled || s.href == "#" ==> Visited(s, filesWithTorrents, baseUri, buildId, decode) == Some(s)
    ensures var v := Visited(s, filesWithTorrents, baseUri, buildId, decode);
            var m := Matches(filesWithTorrents, PathOf(s.href), decode);
            !s.handled && s.href != "#" ==>
              && (v.None? <==> m.None?)
              && (v.Some? ==> v.value.handled && v.value.href == s.href)
              && (v.Some? ==> (v.value.torrentLinks != s.torrentLinks <==> m == Some(true)))
              && (m == Some(true) ==>
                    v.value.hasTorrent && v.value.torrentLinks == s.torrentLinks + [TorrentLinkUrl(baseUri, buildId, PathOf(s.href))])
              && (m == Some(false) ==> v.value.hasTorrent == s.hasTorrent)
  {
  }

  /** How many entries the loop gets through before a callback throws. */
  function Reached(states: seq<EntryState>, filesWithTorrents: set<string>, baseUri: string, buildId: string,
                   decode: string -> Option<string>): (n: nat)
    ensures n <= |states|
    ensures forall j :: 0 <= j < n ==> Visited(states[j], filesWithTorrents, baseUri, buildId, decode).Some?
    ensures n < |states| ==> Visited(states[n], filesWithTorrents, baseUri, buildId, decode).None?
  {
    if states == [] then 0
    else if Visited(states[0], filesWithTorrents, baseUri, buildId, decode).None? then 0
    else
      var n := Reached(states[1..], filesWithTorrents, baseUri, buildId, decode);
      assert forall j :: 1 <= j < n + 1 ==> states[j] == states[1..][j - 1];
      n + 1
  }

  /** The new state of entry `j` after the loop over `states`: visited if
      the loop reached it, else as it was. */
  function Visits(states: seq<EntryState>, j: nat, filesWithTorrents: set<string>, baseUri: string, buildId: string,
                  decode: string -> Option<string>): EntryState
    requires j < |states|
  {
    if j < Reached(states, filesWithTorrents, baseUri, buildId, decode) then
      Visited(states[j], filesWithTorrents, baseUri, buildId, decode).value
    else states[j]
  }

  /** The new state of entry `j`: nothing changes when the response is
      empty, else the loop runs over the keys it lists. */
  function After(states: seq<EntryState>, j: nat, responseText: string, baseUri: string, buildId: string,
                 decode: string -> Option<string>): EntryState
    requires j < |states|
  {
    if responseText == "" then states[j]
    else Visits(states, j, LookupKeys(responseText), baseUri, buildId, decode)
  }

  /** A tree entry (a `span.c` element) of the page. */
  class TreeEntry {
    var href: string
    var handled: bool
    var hasTorrent: bool
    var torrentLinks: seq<string>

    constructor (href: string)
      ensures State() == EntryState(href, false, false, [])
    {
      this.href := href;
      handled := false;
      hasTorrent := false;
      torrentLinks := [];
    }

    function State(): EntryState
      reads this
    {
      EntryState(href, handled, hasTorrent, torrentLinks)
    }

    /** The body of the `each` callback for this entry; `threw` when
        decoding its path threw. */
    method Visit(filesWithTorrents: set<string>, baseUri: string, buildId: string, decode: string -> Option<string>)
      returns (threw: bool)
      modifies this
      ensures threw <==> Visited(old(State()), filesWithTorrents, baseUri, buildId, decode).None?
      ensures !threw ==> State() == Visited(old(State()), filesWithTorrents, baseUri, buildId, decode).value
      ensures threw ==> State() == old(State())
    {
      if handled || href == "#" {
        return false;
      }
      var path := PathOf(href);
      if !(Lookup(filesWithTorrents, path) || Lookup(filesWithTorrents, ReplaceChar(path, '+', ' '))) {
        var decoded := decode(path);
        if decoded.None? {
          return true;
        }
        if !Lookup(filesWithTorrents, decoded.value) {
          handled := true;
          return false;
        }
      }
      torrentLinks := torrentLinks + [TorrentLinkUrl(baseUri, buildId, path)];
      hasTorrent := true;
      handled := true;
      threw := false;
    }
  }

  function States(entries: seq<TreeEntry>): (r: seq<EntryState>)
    reads set e | e in entries
    ensures |r| == |entries| && forall j :: 0 <= j < |entries| ==> r[j] == entries[j].State()
  {
    if entries == [] then [] else States(entries[..|entries| - 1]) + [entries[|entries| - 1].State()]
  }

  /** `_injectTorrentLinks` over the distinct entries of the tree. */
  method InjectTorrentLinks(entries: seq<TreeEntry>, responseText: string, baseUri: string, buildId: string,
                            decode: string -> Option<string>)
    requires forall i, j :: 0 <= i < |entries| && 0 <= j < |entries| && i != j ==> entries[i] != entries[j]
    modifies set e | e in entries
    ensures forall j :: 0 <= j < |entries| ==>
              entries[j].State() == After(old(States(entries)), j, responseText, baseUri, buildId, decode)
  {
    if responseText == "" {
      return;
    }
    var filesWithTorrents := BuildLookup(responseText);
    VisitEntries(entries, filesWithTorrents, baseUri, buildId, decode);
  }

  /** The `each` over the entries: each one is visited in order, and the
      first callback that throws ends the loop. */
  method VisitEntries(entries: seq<TreeEntry>, filesWithTorrents: set<string>, baseUri: string, buildId: string,
                      decode: string -> Option<string>)
    requires forall i, j :: 0 <= i < |entries| && 0 <= j < |entries| && i != j ==> entries[i] != entries[j]
    modifies set e | e in entries
    ensures forall j :: 0 <= j < |entries| ==>
              entries[j].State() == Visits(old(States(entries)), j, filesWithTorrents, baseUri, buildId, decode)
  {
    ghost var before := States(entries);
    ghost var n := Reached(before, filesWithTorrents, baseUri, buildId, decode);
    var i := 0;
    while i < |entries|
      invariant 0 <= i <= n
      invariant forall j :: 0 <= j < i ==>
                  entries[j].State() == Visited(before[j], filesWithTorrents, baseUri, buildId, decode).value
      invariant forall j :: i <= j < |entries| ==> entries[j].State() == before[j]
    {
      var entry := entries[i];
      assert forall j :: 0 <= j < |entries| && j != i ==> entries[j] != entry;
      var threw := entry.Visit(filesWithTorrents, baseUri, buildId, decode);
      if threw {
        break;
      }
      i := i + 1;
    }
    assert i == n;
    forall j | 0 <= j < |entries|
      ensures entries[j].State() == Visits(before, j, filesWithTorrents, baseUri, buildId, decode)
    {
    }
    assert before == old(States(entries));
  }

  /** An empty response changes no entry; with any response, an entry that
      was already handled, or whose href is "#", stays as it was. */
  lemma AfterUnchanged(states: seq<EntryState>, j: nat, responseText: string, baseUri: string, buildId: string,
                       decode: string -> Option<string>)
    requires j < |states|
    ensures responseText == "" ==> After(states, j, responseText, baseUri, buildId, decode) == states[j]
    ensures states[j].handled || states[j].href == "#" ==>
              After(states, j, responseText, baseUri, buildId, decode) == states[j]
  {
  }

  /** Before a throw, every non-"#" entry ends up handled, and it is marked
      has-torrent exactly when its path is in the table. */
  lemma AfterMarks(states: seq<EntryState>, j: nat, responseText: string, baseUri: string, buildId: string,
                   decode: string -> Option<string>)
    requires j < |states| && responseText != ""
    requires !states[j].handled && states[j].href != "#"
    requires forall k :: 0 <= k <= j ==> Visited(states[k], LookupKeys(responseText), baseUri, buildId, decode).Some?
    ensures After(states, j, responseText, baseUri, buildId, decode).handled
    ensures After(states, j, responseText, baseUri, buildId, decode).hasTorrent <==>
            states[j].hasTorrent || Matches(LookupKeys(responseText), PathOf(states[j].href), decode) == Some(true)
  {
    var filesWithTorrents := LookupKeys(responseText);
    var n := Reached(states, filesWithTorrents, baseUri, buildId, decode);
    if n <= j {
      assert false;
    }
  }
}
