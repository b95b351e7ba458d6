# The bookkeeping core of the TeamCity torrent plugin, in Dafny

This project models the parts of the TeamCity torrent plugin that keep books and apply string rules, then proves what they promise. The BitTorrent traffic itself lives in the ttorrent library and is not part of this model.

- **Seeded-torrent database** (`TorrentFilesDB`). A bounded map from a source file to its torrent file.
  - The map is kept in access order. When it is full, adding a pair evicts the least recently used one and notifies the listener.
  - Shrinking keeps the newest pairs by (last modified, absolute path).
  - Broken pairs are pruned. The database is stored as `src || torrent` lines.
  - Stored paths go through a path converter. It keeps them either absolute or relative to a parent directory (`ParentDirConverter`).
- **Artifact URL parser** (`ParsedArtifactPath`). It parses the artifact URL pattern into server, module, revision, artifact path and an optional branch. It then rebuilds the URL of the artifact's torrent under `.teamcity/torrents/`.
- **Cache directory name** (`StringUtils.parseServerUrlToDirectoriesPath`). Turns a server URL into a directory path.
- **Unused-torrent rule** (`UnusedTorrentFilesRemoverImpl`). Decides which torrent files no artifact pairs with, and removes them.
- **Torrent links**:
  - The server answers with a map from torrent files to artifact paths (`AbstractLinksController`).
  - The page marks the matching entries of the artifact tree (`torrentLinks.js`).
- **Settings**:
  - Property parsing and the size threshold (`TorrentUtil`).
  - The server's settings table with change notification (`TorrentConfigurator`).
  - The agent-side choice of transport, the mapping from artifact to torrent, and the steps of one download (`TorrentTransportFactory`).
  - The two download counters (`TorrentsDownloadStatistic`).

There is one Dafny module per source file, plus three helper modules:

- `Text`: Java's and JavaScript's string operations.
- `JavaIo`: `java.io.File` paths, normalised.
- `JavaNumbers`: `Integer.parseInt`, `Long.parseLong`, `String.valueOf` and `int` wrap-around.

`LinkedCache` and `EntryLists` hold the access-ordered `LinkedHashMap` that the database is built on, and the list algebra its proofs use. `Wrappers` holds `Option`.

**Stateful objects are classes.**

- `TorrentFilesDb.TorrentFilesDB`:
  - Its map is a `seq<Entry>` in access order, oldest first.
  - Its listener is a log of the removal notices it receives.
  - Its `myIsDBChanged` flag is a field.
- `TorrentConfigurator.Configurator`:
  - Its `Properties` is an `Option<map<string, string>>`. None is the null it keeps when neither the constructor's load nor a later one succeeded; every method that reads the table then reports the NullPointerException instead of a value (a `None` result or `threw`).
  - Its listener list is a `seq`.
  - Every event delivered to a listener is appended to a log.
- `TorrentTransportFactory.TorrentTransport`: holds the artifact-to-torrent map, a log of the URLs it requested, and its statistic.
- `TorrentsDownloadStatistic.Statistic`: two `int` counters that wrap around as `AtomicInteger` does.
- `TorrentLinks.TreeEntry`: one page element, as its href, its two classes and the links appended to it.

**Inputs as parameters.** The filesystem facts are parameters of the operations that read them:

- whether a file is a regular file;
- its last-modified time;
- whether a directory could be created or a file opened.

The same holds for the helpers whose code is not part of this model: URL decoding, `FileUtil.fixDirectoryNameAllowUnicode`, `FileUtil.getRelativePath`, `StringUtil.parseFileSize`, `decodeURIComponent`, and HTTP fetches.

**Behaviours of the code that the model keeps:**

- `_injectTorrentLinks` posts its request with only the buildId, also when the tree has no entries (torrentLinks.js lines 34-40).
- An empty response text leaves every entry as it was: none is marked handled, because the whole callback sits inside `if (text)` (torrentLinks.js line 43).
- The torrent-count default the configurator stores is its own `DEFAULT_MAX_NUMBER_OF_SEEDED_TORRENTS` (10000, TorrentConfigurator.java line 50), not the 2000 of `SeedSettings.DEFAULT_MAX_NUMBER_OF_SEEDED_TORRENTS` (common/src/main/java/jetbrains/buildServer/torrent/settings/SeedSettings.java line 11).
- An IOException while creating or loading the configuration file is only logged. The table then stays null, and the later getters and table setters throw (TorrentConfigurator.java lines 104-113 and 294-309).
- A negative torrent limit makes the `TorrentFilesDB` constructor throw, from `new LinkedHashMap` in createCache (TorrentFilesDB.java lines 31 and 271-282).

## Model

| member | source | states |
|---|---|---|
| TorrentFilesDb.LexLessStrictTotal | common/src/main/java/jetbrains/buildServer/torrent/seeder/TorrentFilesDB.java:173 | the `String.compareTo` tie-break is a strict total order: never both ways, and one way for any two distinct paths |
| TorrentFilesDb.NotAfterTotal | common/src/main/java/jetbrains/buildServer/torrent/seeder/TorrentFilesDB.java:163-175 | the comparator of getSortedKeys (last modified, then absolute path) relates any two entries one way or the other |
| TorrentFilesDb.InsertPermutation | common/src/main/java/jetbrains/buildServer/torrent/seeder/TorrentFilesDB.java:155-177 | inserting one entry into the sorted list adds exactly that entry to the multiset |
| TorrentFilesDb.InsertSorted | common/src/main/java/jetbrains/buildServer/torrent/seeder/TorrentFilesDB.java:155-177 | inserting into a sorted list keeps it sorted, and the new head is the inserted entry or the old head |
| TorrentFilesDb.SortedEntries | common/src/main/java/jetbrains/buildServer/torrent/seeder/TorrentFilesDB.java:155-177 | the entries sorted by insertion, oldest first by (last modified, absolute path) |
| TorrentFilesDb.SortedEntriesSpec | common/src/main/java/jetbrains/buildServer/torrent/seeder/TorrentFilesDB.java:155-177 | getSortedKeys returns a permutation of the map's entries, ordered oldest first by (last modified, absolute path) |
| TorrentFilesDb.SortedEntriesPermutation | common/src/main/java/jetbrains/buildServer/torrent/seeder/TorrentFilesDB.java:155-177 | the sorted list has the same multiset of entries as the map |
| TorrentFilesDb.SortedEntriesSorted | common/src/main/java/jetbrains/buildServer/torrent/seeder/TorrentFilesDB.java:163-175 | each entry of the sorted list is not after the next one under the comparator |
| TorrentFilesDb.SortedEntriesDistinct | common/src/main/java/jetbrains/buildServer/torrent/seeder/TorrentFilesDB.java:155-177 | sorting a map with distinct keys gives exactly its entries, once each, with keys still distinct |
| TorrentFilesDb.Lines | common/src/main/java/jetbrains/buildServer/torrent/seeder/TorrentFilesDB.java:136-147 | flush writes one line per entry |
| TorrentFilesDb.SeparatorAfterKey | common/src/main/java/jetbrains/buildServer/torrent/seeder/TorrentFilesDB.java:189-191 | in a written line, the first " \|\| " starts right after the source path when that path has no '\|' |
| TorrentFilesDb.NoSeparatorInValue | common/src/main/java/jetbrains/buildServer/torrent/seeder/TorrentFilesDB.java:189-191 | a torrent path without '\|' holds no further separator, so the split yields exactly two parts |
| TorrentFilesDb.ParseLine | common/src/main/java/jetbrains/buildServer/torrent/seeder/TorrentFilesDB.java:190-191 | a line is a pair iff splitting it on " \|\| " leaves exactly two non-empty tokens |
| TorrentFilesDb.ParseLineOfLine | common/src/main/java/jetbrains/buildServer/torrent/seeder/TorrentFilesDB.java:140-146 | a line written for a pair of non-empty, '\|'-free paths reads back as that pair |
| TorrentFilesDb.LoadStableLine | common/src/main/java/jetbrains/buildServer/torrent/seeder/TorrentFilesDB.java:189-198 | a written line whose paths the converter maps back to themselves loads as the same entry |
| TorrentFilesDb.LoadWrittenLines | common/src/main/java/jetbrains/buildServer/torrent/seeder/TorrentFilesDB.java:179-206 | loading the written lines of stable entries yields those entries in order |
| TorrentFilesDb.FlushThenReload | common/src/test/java/jetbrains/buildServer/torrent/seeder/TorrentFilesDBTest.java:60-76 | reopening a flushed database within the limit rebuilds exactly the sorted entries and evicts nothing |
| TorrentFilesDb.CleanupMembers | common/src/main/java/jetbrains/buildServer/torrent/seeder/TorrentFilesDB.java:74-84 | an entry is broken iff it is in the map and its source or torrent is not a regular file; every other entry is healthy |
| TorrentFilesDb.BrokenHealthyPartition | common/src/main/java/jetbrains/buildServer/torrent/seeder/TorrentFilesDB.java:74-84 | broken and healthy entries partition the map |
| TorrentFilesDb.RemoveBrokenKeys | common/src/main/java/jetbrains/buildServer/torrent/seeder/TorrentFilesDB.java:86-92 | removing the broken keys leaves exactly the healthy entries, in order |
| TorrentFilesDb.CleanupIdempotent | common/src/main/java/jetbrains/buildServer/torrent/seeder/TorrentFilesDB.java:62-100 | a second cleanup against the same files finds nothing broken and changes nothing |
| TorrentFilesDb.FileMapDomain | common/src/main/java/jetbrains/buildServer/torrent/seeder/TorrentFilesDB.java:102-116 | getFileAndTorrentMap's keys are exactly the source files of the entries |
| TorrentFilesDb.FileMapOfStable | common/src/main/java/jetbrains/buildServer/torrent/seeder/TorrentFilesDB.java:102-116 | with stable distinct paths, each source file maps to its own torrent file |
| TorrentFilesDb.ShrinkKeepsNewest | common/src/main/java/jetbrains/buildServer/torrent/seeder/TorrentFilesDB.java:39-51 | refilling a cache of limit n from a list keeps its last n entries and evicts the earlier ones in order |
| TorrentFilesDb.TorrentFilesDB.constructor | common/src/main/java/jetbrains/buildServer/torrent/seeder/TorrentFilesDB.java:27-37 | for a non-negative limit, the database starts with the given limit and converter (the default absolute-path converter when none is given), holds what loading the file gives, and is changed iff a line was loaded |
| TorrentFilesDb.Open | common/src/main/java/jetbrains/buildServer/torrent/seeder/TorrentFilesDB.java:27-37 | a negative limit throws from the cache constructor and makes no database; any other limit makes a fresh, valid database in the constructor's state |
| TorrentFilesDb.TorrentFilesDB.LoadDb | common/src/main/java/jetbrains/buildServer/torrent/seeder/TorrentFilesDB.java:179-206 | every well-formed line is put into the cache in file order; each eviction is notified, and the database is changed if any line loaded |
| TorrentFilesDb.TorrentFilesDB.AddFileAndTorrent | common/src/main/java/jetbrains/buildServer/torrent/seeder/TorrentFilesDB.java:53-60 | the converted pair is put into the cache, any evicted pair is notified, and the database is marked changed |
| TorrentFilesDb.TorrentFilesDB.NotifyOnRemove | common/src/main/java/jetbrains/buildServer/torrent/seeder/TorrentFilesDB.java:284-288 | a removal reaches the listener iff one is set, and nothing else changes |
| TorrentFilesDb.TorrentFilesDB.RemoveSrcFile | common/src/main/java/jetbrains/buildServer/torrent/seeder/TorrentFilesDB.java:208-221 | the key is gone, all other entries stay in order, and the listener is told iff the key was present, with its torrent file |
| TorrentFilesDb.TorrentFilesDB.RebuildCache | common/src/main/java/jetbrains/buildServer/torrent/seeder/TorrentFilesDB.java:43-47 | putting the sorted entries into a new cache of limit n keeps the newest n and notifies the dropped ones oldest first |
| TorrentFilesDb.TorrentFilesDB.SetMaxTorrents | common/src/main/java/jetbrains/buildServer/torrent/seeder/TorrentFilesDB.java:39-51 | a negative limit throws and changes nothing; otherwise the map becomes the newest n entries by (last modified, path), and each dropped one is notified |
| TorrentFilesDb.TorrentFilesDB.CleanupBrokenFiles | common/src/main/java/jetbrains/buildServer/torrent/seeder/TorrentFilesDB.java:62-100 | removes exactly the broken pairs, keeps the rest in order, notifies once per removed pair, returns their torrent files, and marks the database changed iff it removed something |
| TorrentFilesDb.TorrentFilesDB.NotifyRemovals | common/src/main/java/jetbrains/buildServer/torrent/seeder/TorrentFilesDB.java:95-97 | one notice per removed pair, in order, when a listener is set |
| TorrentFilesDb.TorrentFilesDB.HealthyValid | common/src/main/java/jetbrains/buildServer/torrent/seeder/TorrentFilesDB.java:86-92 | pruning keeps the keys distinct and the size within the limit |
| TorrentFilesDb.TorrentFilesDB.GetFileAndTorrentMap | common/src/main/java/jetbrains/buildServer/torrent/seeder/TorrentFilesDB.java:102-116 | the returned map converts every stored pair back to files |
| TorrentFilesDb.TorrentFilesDB.Flush | common/src/main/java/jetbrains/buildServer/torrent/seeder/TorrentFilesDB.java:118-153 | does nothing when unchanged; stops with the flag still set when the directory or the file cannot be made; otherwise writes one line per entry in sorted order, leaves the map in that order, and clears the flag |
| TorrentFilesDb.TorrentFilesDB.WriteSorted | common/src/main/java/jetbrains/buildServer/torrent/seeder/TorrentFilesDB.java:133-149 | the loop's `get` calls move each written entry to the end, so the access order becomes the sorted order |
| LinkedCache.Lookup | common/src/main/java/jetbrains/buildServer/torrent/seeder/TorrentFilesDB.java:212 | `get` finds a value iff the key is present, and then the pair is in the map |
| LinkedCache.LookupDistinct | common/src/main/java/jetbrains/buildServer/torrent/seeder/TorrentFilesDB.java:212 | with distinct keys, looking up a stored key gives its own value |
| LinkedCache.Without | common/src/main/java/jetbrains/buildServer/torrent/seeder/TorrentFilesDB.java:212 | removal never grows the map |
| LinkedCache.WithoutMembers | common/src/main/java/jetbrains/buildServer/torrent/seeder/TorrentFilesDB.java:212 | removal keeps exactly the pairs with another key |
| LinkedCache.WithoutKeys | common/src/main/java/jetbrains/buildServer/torrent/seeder/TorrentFilesDB.java:212 | after removal a key is present iff it was present and is not the removed one |
| LinkedCache.WithoutAbsent | common/src/main/java/jetbrains/buildServer/torrent/seeder/TorrentFilesDB.java:212 | removing an absent key changes nothing |
| LinkedCache.WithoutDistinct | common/src/main/java/jetbrains/buildServer/torrent/seeder/TorrentFilesDB.java:212 | removal keeps keys distinct and shrinks the map by one when the key was present |
| LinkedCache.Put | common/src/main/java/jetbrains/buildServer/torrent/seeder/TorrentFilesDB.java:271-282 | `put` on the access-ordered map: a present key moves last with its new value; a new key goes last, and the eldest pair is evicted once the size passes the limit |
| LinkedCache.PutSpec | common/src/main/java/jetbrains/buildServer/torrent/seeder/TorrentFilesDB.java:271-282 | a put keeps the size within the limit and the keys distinct; it evicts the eldest pair iff a new key meets a full cache, and notifies once; otherwise the pair comes last with its value; other keys keep their values |
| LinkedCache.PutAllKeepsNewest | common/src/test/java/jetbrains/buildServer/torrent/seeder/TorrentFilesDBTest.java:78-95 | after putting distinct keys into a cache of limit n, it holds exactly the last n pairs, and the earlier ones were evicted in order |
| LinkedCache.TouchAllReorders | common/src/main/java/jetbrains/buildServer/torrent/seeder/TorrentFilesDB.java:133-137 | getting every entry in sorted order leaves the access-ordered map in exactly that order |
| LinkedCache.RemoveSpec | common/src/main/java/jetbrains/buildServer/torrent/seeder/TorrentFilesDB.java:212 | `remove` deletes the key, shrinks the map by one iff the key was present, and leaves every other lookup unchanged |
| EntryLists.FilterMember | common/src/main/java/jetbrains/buildServer/torrent/seeder/TorrentFilesDB.java:74-84 | the kept pairs are exactly the pairs that pass the test |
| EntryLists.FilterAll | common/src/main/java/jetbrains/buildServer/torrent/seeder/TorrentFilesDB.java:74-84 | when every pair passes, nothing is dropped |
| EntryLists.FilterTwice | common/src/main/java/jetbrains/buildServer/torrent/seeder/TorrentFilesDB.java:74-84 | filtering twice is filtering once |
| EntryLists.FilterComplement | common/src/main/java/jetbrains/buildServer/torrent/seeder/TorrentFilesDB.java:74-84 | a test and its complement split the list between them |
| EntryLists.RemoveKeysFilter | common/src/main/java/jetbrains/buildServer/torrent/seeder/TorrentFilesDB.java:86-92 | removing the set of failing keys equals keeping the passing pairs |
| EntryLists.FilterKeysExact | common/src/main/java/jetbrains/buildServer/torrent/seeder/TorrentFilesDB.java:74-84 | with distinct keys, a key is among the kept keys iff its pair passes |
| EntryLists.FilterDistinct | common/src/main/java/jetbrains/buildServer/torrent/seeder/TorrentFilesDB.java:74-84 | filtering keeps keys distinct and never grows the list |
| EntryLists.PairMapDomain | common/src/main/java/jetbrains/buildServer/torrent/seeder/TorrentFilesDB.java:102-116 | the map built from the pairs has the converted keys as its domain |
| EntryLists.PairMapInjective | common/src/main/java/jetbrains/buildServer/torrent/seeder/TorrentFilesDB.java:102-116 | when the converted keys are distinct, each maps to its own converted value |
| ParentDirConverter.ConvertToFile | common/src/main/java/jetbrains/buildServer/torrent/seeder/ParentDirConverter.java:14-21 | an absolute path names itself; a relative one is resolved under the parent directory |
| ParentDirConverter.ConvertToPath | common/src/main/java/jetbrains/buildServer/torrent/seeder/ParentDirConverter.java:24-31 | a file under the parent directory is stored as the rest of its absolute path after "parent/"; any other file is stored as its absolute path |
| ParentDirConverter.ConvertAbsoluteUnchanged | common/src/main/java/jetbrains/buildServer/torrent/seeder/ParentDirConverter.java:16-17 | an absolute stored path names itself |
| ParentDirConverter.ConvertRelativeUnderParent | common/src/main/java/jetbrains/buildServer/torrent/seeder/ParentDirConverter.java:20 | a relative stored path names that path under the parent directory |
| ParentDirConverter.RoundTrip | common/src/main/java/jetbrains/buildServer/torrent/seeder/ParentDirConverter.java:14-31 | converting a file to its stored path and back gives its absolute file |
| ParentDirConverter.StoredPathStable | common/src/main/java/jetbrains/buildServer/torrent/seeder/ParentDirConverter.java:14-31 | a stored path converts back to itself |
| ParentDirConverter.StoredPathShape | common/src/main/java/jetbrains/buildServer/torrent/seeder/ParentDirConverter.java:24-31 | a stored path is never empty and holds no character the absolute path lacks |
| PathConverters.SimpleRoundTrip | common/src/main/java/jetbrains/buildServer/torrent/seeder/TorrentFilesDB.java:255-265 | the default converter stores the absolute path and reads back the absolute file |
| PathConverters.SimpleStoredPathIsStable | common/src/main/java/jetbrains/buildServer/torrent/seeder/TorrentFilesDB.java:255-265 | a path the default converter stores survives a write and reload unchanged |
| PathConverters.ParentDirStoredPathIsStable | common/src/test/java/jetbrains/buildServer/torrent/seeder/TorrentFilesDBTest.java:128-172 | a path the parent-directory converter stores survives a write and reload unchanged |
| ParsedArtifactPath.SegmentEnd | agent/src/main/java/jetbrains/buildServer/torrent/ParsedArtifactPath.java:31 | `[^/]+` stops at the first '/' or the end |
| ParsedArtifactPath.BranchStart | agent/src/main/java/jetbrains/buildServer/torrent/ParsedArtifactPath.java:31 | the lazy artifact group ends at the first position (after one character) where a "?branch=" group can match the rest |
| ParsedArtifactPath.ParseAtSpec | agent/src/main/java/jetbrains/buildServer/torrent/ParsedArtifactPath.java:31 | parsing with the server group fixed at i matches the pattern, and is the preferred match among all with that server group |
| ParsedArtifactPath.ParseFromSpec | agent/src/main/java/jetbrains/buildServer/torrent/ParsedArtifactPath.java:31 | the search over server-group lengths from i finds the preferred match, or shows none exists |
| ParsedArtifactPath.Parse | agent/src/main/java/jetbrains/buildServer/torrent/ParsedArtifactPath.java:44-53 | the groups of the pattern's preferred match, or none when the constructor throws |
| ParsedArtifactPath.ParseSpec | agent/src/main/java/jetbrains/buildServer/torrent/ParsedArtifactPath.java:44-48 | the constructor throws iff the URL does not match the pattern; otherwise its groups are a match, the one the regex's lazy groups prefer |
| ParsedArtifactPath.SameHead | agent/src/main/java/jetbrains/buildServer/torrent/ParsedArtifactPath.java:31 | two matches with the same server group agree on module, revision and the rest |
| ParsedArtifactPath.ParsedShape | agent/src/main/java/jetbrains/buildServer/torrent/ParsedArtifactPath.java:49-53 | the groups reassemble the URL; module and revision are non-empty and '/'-free; a branch is set only when the URL ends with "?branch=" and more |
| ParsedArtifactPath.TorrentPath | agent/src/main/java/jetbrains/buildServer/torrent/ParsedArtifactPath.java:77-79 | ".teamcity/torrents/" + artifact path + ".torrent" |
| ParsedArtifactPath.TorrentPathStrip | agent/src/main/java/jetbrains/buildServer/torrent/ParsedArtifactPath.java:77-79 | the torrent path is ".teamcity/torrents/" + artifact path + ".torrent", and the artifact path is recovered by stripping both |
| ParsedArtifactPath.TorrentUrl | agent/src/main/java/jetbrains/buildServer/torrent/ParsedArtifactPath.java:71-75 | getTorrentUrl as intended: server, marker, module, revision and torrent path, then the branch query once |
| ParsedArtifactPath.TorrentUrlMatches | agent/src/main/java/jetbrains/buildServer/torrent/ParsedArtifactPath.java:71-75 | the corrected torrent URL matches the pattern with the same server, module, revision and branch, and the torrent path as artifact |
| ParsedArtifactPath.TorrentPathNoLineTerminator | agent/src/main/java/jetbrains/buildServer/torrent/ParsedArtifactPath.java:77-79 | the torrent path is non-empty and stays free of line terminators |
| ParsedArtifactPath.TorrentUrlAsWritten | agent/src/main/java/jetbrains/buildServer/torrent/ParsedArtifactPath.java:71-75 | getTorrentUrl as written: the same, then "?branch=" + group 5, which already starts with "?branch=" |
| ParsedArtifactPath.AsWrittenDoublesBranch | agent/src/main/java/jetbrains/buildServer/torrent/ParsedArtifactPath.java:71-75 | for any URL with a branch, getTorrentUrl as written ends in "?branch=?branch=…" and differs from the corrected URL |
| ParsedArtifactPath.AsWrittenAgreesWithoutBranch | agent/src/main/java/jetbrains/buildServer/torrent/ParsedArtifactPath.java:71-75 | for any parsed URL, getTorrentUrl as written equals the corrected URL iff the URL has no branch |
| ParsedArtifactPath.DoubledBranchQuery | agent/src/main/java/jetbrains/buildServer/torrent/ParsedArtifactPath.java:53 | since group 5 keeps its "?branch=" prefix, prefixing it again doubles the query |
| ParsedArtifactPath.BranchExampleMatches | agent/src/main/java/jetbrains/buildServer/torrent/ParsedArtifactPath.java:31 | ".../a.zip?branch=dev" matches with branch group "?branch=dev" |
| ParsedArtifactPath.AsWrittenBranchExample | agent/src/main/java/jetbrains/buildServer/torrent/ParsedArtifactPath.java:71-75 | as written, that URL's torrent URL ends in "a.zip.torrent?branch=?branch=dev" |
| ParsedArtifactPath.TorrentUrlBranchExample | agent/src/main/java/jetbrains/buildServer/torrent/ParsedArtifactPath.java:71-75 | corrected, it ends in "a.zip.torrent?branch=dev" |
| ParsedArtifactPath.ParseFirstMarker | agent/src/main/java/jetbrains/buildServer/torrent/ParsedArtifactPath.java:31 | when no earlier "/repository/download/" occurs and the artifact has no '?', the constructor's groups are exactly that decomposition |
| ParsedArtifactPath.ParseFirstMarkerHead | agent/src/main/java/jetbrains/buildServer/torrent/ParsedArtifactPath.java:31 | without an earlier marker, the server group is the prefix before the first "/repository/download/" |
| ParsedArtifactPath.ShorterGroupFourMeetsQuery | agent/src/main/java/jetbrains/buildServer/torrent/ParsedArtifactPath.java:31 | when two matches differ only in the split between artifact and branch, the shorter artifact group stops at a '?' |
| ParsedArtifactPath.ParseSimple | agent/src/main/java/jetbrains/buildServer/torrent/ParsedArtifactPath.java:44-79 | a plain artifact URL parses into its parts, and its torrent URL puts the torrent path in place of the artifact |
| ParsedArtifactPath.TransportTestExample | agent/src/test/java/jetbrains/buildServer/torrent/TorrentTransportTest.java:175-176 | SERVER_PATH + "MyBuild.31.zip" maps to SERVER_PATH + ".teamcity/torrents/MyBuild.31.zip.torrent" |
| ParsedArtifactPath.TransportTestTorrentPath | agent/src/test/java/jetbrains/buildServer/torrent/TorrentTransportTest.java:175-176 | the test's torrent path is ".teamcity/torrents/MyBuild.31.zip.torrent" |
| StringUtils.StripProtocol | common/src/main/java/jetbrains/buildServer/torrent/util/StringUtils.java:35-42 | cuts through the first ":/" when it occurs past index 0, then one more '/' if there is one |
| StringUtils.StripProtocolSuffix | common/src/main/java/jetbrains/buildServer/torrent/util/StringUtils.java:35-42 | the result is a suffix of the URL; it is the URL itself iff ":/" does not occur past index 0, and otherwise at least the protocol and ":/" are gone |
| StringUtils.DirNames | common/src/main/java/jetbrains/buildServer/torrent/util/StringUtils.java:52-57 | the loop throws iff some segment fails to decode (URLDecoder's IllegalArgumentException on a malformed escape, which only UnsupportedEncodingException is caught for); otherwise each segment is decoded, then sanitised, position by position |
| StringUtils.ParseServerUrlToDirectoriesPath | common/src/main/java/jetbrains/buildServer/torrent/util/StringUtils.java:33-64 | the method computes the directory path of the URL (stripped, split on '/', mapped, joined by the separator), or throws when a segment's escape is malformed |
| StringUtils.DirectoriesPathThrows | common/src/main/java/jetbrains/buildServer/torrent/util/StringUtils.java:44-57 | the method throws exactly when the remainder after the protocol is non-empty and one of its '/'-separated segments fails to decode |
| StringUtils.MalformedEscapeExample | common/src/main/java/jetbrains/buildServer/torrent/util/StringUtils.java:52-56 | "http://host/a%zz" throws when "a%zz" is a malformed escape |
| StringUtils.JoinDirNames | common/src/main/java/jetbrains/buildServer/torrent/util/StringUtils.java:49-63 | the segment loop and the final delete give "emptyUrl.dat" for no segments, else the names joined with no trailing separator; it stops with the exception at the first segment that fails to decode |
| StringUtils.EmptyRemainder | common/src/main/java/jetbrains/buildServer/torrent/util/StringUtils.java:44-46 | an empty remainder gives "emptyUrl.dat" |
| StringUtils.SeparatorsOnly | common/src/main/java/jetbrains/buildServer/torrent/util/StringUtils.java:59-61 | a remainder made only of '/' gives "emptyUrl.dat" |
| StringUtils.JavaSplitJoin | common/src/main/java/jetbrains/buildServer/torrent/util/StringUtils.java:49 | `String.split("/")` of plain segments joined by '/' gives back those segments |
| StringUtils.PlainSegments | common/src/main/java/jetbrains/buildServer/torrent/util/StringUtils.java:49-63 | when every segment decodes and sanitises to itself, the result is the remainder without trailing '/', or "emptyUrl.dat" |
| StringUtils.SchemeStripped | common/src/main/java/jetbrains/buildServer/torrent/util/StringUtils.java:35-42 | "scheme://rest" loses exactly "scheme://" |
| StringUtils.ServerSegments | common/src/main/java/jetbrains/buildServer/torrent/util/StringUtils.java:33-64 | a URL of plain segments gives their mapped names joined by the separator, or the exception when one fails to decode |
| StringUtils.ThreeSegments | common/src/main/java/jetbrains/buildServer/torrent/util/StringUtils.java:33-64 | three plain segments that decode give a, separator, b, separator, c, each mapped |
| StringUtils.LocalhostExample | common/src/test/java/jetbrains/buildServer/torrent/util/StringUtilsTest.java:14-20 | "http://localhost:1234/bs/bs" gives "localhost_1234/bs/bs" |
| StringUtils.DomainOnlyExample | common/src/test/java/jetbrains/buildServer/torrent/util/StringUtilsTest.java:22-24 | "https://domain.com" gives "domain.com" |
| StringUtils.DomainExample | common/src/test/java/jetbrains/buildServer/torrent/util/StringUtilsTest.java:14-28 | "https://domain.com/m" gives "domain.com/m" |
| StringUtils.NoColon | common/src/main/java/jetbrains/buildServer/torrent/util/StringUtils.java:35-42 | a URL without ':' keeps its protocol part |
| StringUtils.EmptyExamples | common/src/test/java/jetbrains/buildServer/torrent/util/StringUtilsTest.java:35-43 | "/", "////" and "" give "emptyUrl.dat" |
| Text.IndexOfFrom | common/src/main/java/jetbrains/buildServer/torrent/seeder/TorrentFilesDB.java:190 | `indexOf(sub, from)` is the first occurrence at or after from, or -1 iff there is none |
| Text.IndexOf | server/src/main/resources/buildServerResources/torrentLinks.js:57 | `indexOf(sub)` is the first occurrence, or -1 iff there is none |
| Text.ReplaceChar | server/src/main/java/jetbrains/buildServer/torrent/web/AbstractLinksController.java:77 | `replace(c, d)` swaps exactly the occurrences of c and keeps the length |
| Text.SplitOn | server/src/main/resources/buildServerResources/torrentLinks.js:44 | `split('\n')` gives at least one piece, none holding the separator |
| Text.JoinSplit | server/src/main/resources/buildServerResources/torrentLinks.js:44 | joining the pieces of a split restores the string |
| Text.JavaSplitOfSeparatorsOnly | common/src/main/java/jetbrains/buildServer/torrent/util/StringUtils.java:49 | Java's split of a string made only of the separator yields no pieces |
| Text.SplitTokensFrom | common/src/main/java/jetbrains/buildServer/torrent/seeder/TorrentFilesDB.java:190 | `StringUtil.split` with a string separator yields no empty token |
| Text.TrimStartSpec | server/src/main/resources/buildServerResources/torrentLinks.js:47 | `trim` drops exactly the leading JavaScript white space |
| Text.TrimEndSpec | server/src/main/resources/buildServerResources/torrentLinks.js:47 | `trim` drops exactly the trailing JavaScript white space |
| JavaIo.CollapseSpec | common/src/main/java/jetbrains/buildServer/torrent/seeder/ParentDirConverter.java:15 | collapsing keeps the first and last character and leaves no "//" |
| JavaIo.NormalizeSpec | common/src/main/java/jetbrains/buildServer/torrent/seeder/ParentDirConverter.java:15 | `new File(path)` yields a normalised path, absolute iff the text was |
| JavaIo.NormalizeIdempotent | common/src/main/java/jetbrains/buildServer/torrent/seeder/ParentDirConverter.java:15 | a normalised path is its own file |
| JavaIo.ResolveRelativeNormalized | common/src/main/java/jetbrains/buildServer/torrent/seeder/ParentDirConverter.java:20 | `new File(parent, child)` of a relative child stays normalised |
| JavaIo.AbsolutePathNormalized | common/src/main/java/jetbrains/buildServer/torrent/seeder/ParentDirConverter.java:25 | `getAbsolutePath` gives a normalised absolute path |
| JavaNumbers.Wrap | common/src/main/java/jetbrains/buildServer/torrent/util/TorrentsDownloadStatistic.java:29-35 | a result in int range that agrees with the input modulo 2^32 |
| JavaNumbers.IncrementWraps | common/src/main/java/jetbrains/buildServer/torrent/util/TorrentsDownloadStatistic.java:29-35 | incrementing Integer.MAX_VALUE gives Integer.MIN_VALUE |
| JavaNumbers.ParseInt | common/src/jetbrains/buildServer/torrent/torrent/TorrentUtil.java:145 | `Integer.parseInt` accepts an optional sign and ASCII decimal digits whose value fits an int; every other string, non-ASCII digits included, is rejected |
| JavaNumbers.ParseLong | server/src/main/java/jetbrains/buildServer/torrent/web/AbstractLinksController.java:50 | `Long.parseLong` accepts an optional sign and ASCII decimal digits whose value fits a long; every other string, non-ASCII digits included, is rejected |
| JavaNumbers.DecimalRoundTrip | server/src/main/java/jetbrains/buildServer/torrent/TorrentConfigurator.java:153 | a number printed with `String.valueOf` parses back to itself |
| JavaNumbers.IntToStringRoundTrip | server/src/main/java/jetbrains/buildServer/torrent/TorrentConfigurator.java:153 | an int stored as text parses back with `Integer.parseInt` |
| JavaNumbers.LongToStringRoundTrip | server/src/main/java/jetbrains/buildServer/torrent/web/AbstractLinksController.java:50 | a long printed as text parses back with `Long.parseLong` |
| JavaNumbers.ParsePlusSign | common/src/jetbrains/buildServer/torrent/torrent/TorrentUtil.java:145 | a leading '+' is accepted |
| JavaNumbers.ParseOutOfRange | common/src/jetbrains/buildServer/torrent/torrent/TorrentUtil.java:145 | a value outside int range is rejected |
| JavaNumbers.ParseNoDigits | common/src/jetbrains/buildServer/torrent/torrent/TorrentUtil.java:145 | null, "", "-" and "+" are rejected |
| TorrentLinks.PathOf | server/src/main/resources/buildServerResources/torrentLinks.js:56-61 | the extracted path is a suffix of the href |
| TorrentLinks.PathOfArtifact | server/src/main/resources/buildServerResources/torrentLinks.js:56-61 | for ".../repository/download/bt/build/path" with no earlier marker, the extracted path is exactly "path" |
| TorrentLinks.PathOfTreeHref | server/src/main/resources/buildServerResources/torrentLinks.js:56-61 | the href of a tree entry yields the artifact path after buildType and build |
| TorrentLinks.BuildLookup | server/src/main/resources/buildServerResources/torrentLinks.js:44-48 | the lookup table holds the trimmed lines of the response |
| TorrentLinks.KeysOfSpec | server/src/main/resources/buildServerResources/torrentLinks.js:44-48 | a path is in the table iff some line of the response trims to it |
| TorrentLinks.TrimKeeps | server/src/main/resources/buildServerResources/torrentLinks.js:47 | a line without outer white space is stored as it is |
| TorrentLinks.InheritedNameCounts | server/src/main/resources/buildServerResources/torrentLinks.js:44-47 | with response "a.zip", the as-written lookup finds "toString" though no line names it |
| TorrentLinks.LookupAgrees | server/src/main/resources/buildServerResources/torrentLinks.js:62-64 | for any key that is not an Object.prototype name, the as-written and the corrected lookups agree |
| TorrentLinks.Matches | server/src/main/resources/buildServerResources/torrentLinks.js:61-64 | tries the path, the path with '+' read as a space, then the decoded path against the table; none when the first two miss and decoding throws |
| TorrentLinks.MatchesMonotone | server/src/main/resources/buildServerResources/torrentLinks.js:61-64 | listing more paths keeps every match and never makes decoding throw where it did not; a listed path matches without decoding; a path with no '+' that decodes to itself matches iff it is listed |
| TorrentLinks.Visited | server/src/main/resources/buildServerResources/torrentLinks.js:51-81 | one callback: a handled or "#" entry is left alone; otherwise the entry is marked handled and, on a match, gets the link to its path and the has-torrent class; none when it throws |
| TorrentLinks.VisitedSpec | server/src/main/resources/buildServerResources/torrentLinks.js:54-81 | handled and "#" entries are untouched; any other entry that does not throw becomes handled, and gains one link to its own path and the has-torrent class iff it matches |
| TorrentLinks.Reached | server/src/main/resources/buildServerResources/torrentLinks.js:64 | `each` visits entries in order until the first callback that throws a URIError |
| TorrentLinks.States | server/src/main/resources/buildServerResources/torrentLinks.js:36 | the page state lists every selected element's state, in order |
| TorrentLinks.TreeEntry.constructor | server/src/main/resources/buildServerResources/torrentLinks.js:36 | a fresh entry has its href, no classes and no links |
| TorrentLinks.TreeEntry.Visit | server/src/main/resources/buildServerResources/torrentLinks.js:51-81 | one callback changes the entry as that callback does, and leaves it as it was when it throws |
| TorrentLinks.VisitEntries | server/src/main/resources/buildServerResources/torrentLinks.js:50-82 | each entry the loop reached is changed as its callback says; the rest stay as they were |
| TorrentLinks.InjectTorrentLinks | server/src/main/resources/buildServerResources/torrentLinks.js:34-86 | an empty response changes nothing; otherwise the entries go through the loop against the trimmed lines |
| TorrentLinks.AfterUnchanged | server/src/main/resources/buildServerResources/torrentLinks.js:36-54 | an empty response, an already handled entry or a "#" entry leaves that entry unchanged |
| TorrentLinks.AfterMarks | server/src/main/resources/buildServerResources/torrentLinks.js:50-81 | if no callback up to and including its own throws, an entry ends up handled and has-torrent iff it already was or its path matches |
| UnusedTorrentFilesRemover.CommonPrefix | server/src/jetbrains/buildServer/torrent/UnusedTorrentFilesRemoverImpl.java:65 | the longest shared leading run of path names |
| UnusedTorrentFilesRemover.RelativizeUnder | server/src/jetbrains/buildServer/torrent/UnusedTorrentFilesRemoverImpl.java:65 | relativising a path under the torrents directory leaves the names below it |
| UnusedTorrentFilesRemover.UnusedSpec | server/src/jetbrains/buildServer/torrent/UnusedTorrentFilesRemoverImpl.java:63-73 | a visited file is collected for removal iff its '/'-separated relative path is not an expected torrent path |
| UnusedTorrentFilesRemover.PairedNeverRemoved | server/src/jetbrains/buildServer/torrent/UnusedTorrentFilesRemoverImpl.java:67-69 | the torrent of an artifact is never removed |
| UnusedTorrentFilesRemover.SucceededSpec | server/src/jetbrains/buildServer/torrent/UnusedTorrentFilesRemoverImpl.java:77-83 | the removed files are exactly those whose removal did not fail |
| UnusedTorrentFilesRemover.CollectUnused | server/src/jetbrains/buildServer/torrent/UnusedTorrentFilesRemoverImpl.java:63-73 | the visitor collects exactly the unused files, in visiting order |
| UnusedTorrentFilesRemover.RemoveEach | server/src/jetbrains/buildServer/torrent/UnusedTorrentFilesRemoverImpl.java:77-83 | every collected file is tried even after a failure, and the successful ones are removed |
| UnusedTorrentFilesRemover.RemoveUnusedTorrents | server/src/jetbrains/buildServer/torrent/UnusedTorrentFilesRemoverImpl.java:56-84 | removal is tried for exactly the unused visited files, and each one succeeds unless its own removal fails |
| UnusedTorrentFilesRemover.RelativeNameUnder | server/src/jetbrains/buildServer/torrent/UnusedTorrentFilesRemoverImpl.java:66 | the relative name of a file under the directory is its names below it joined by '/', whatever the platform separator |
| UnusedTorrentFilesRemover.PairedUnder | server/src/jetbrains/buildServer/torrent/UnusedTorrentFilesRemoverImpl.java:58-69 | a file at artifact + ".torrent" under the directory is kept |
| UnusedTorrentFilesRemover.UnpairedUnder | server/src/jetbrains/buildServer/torrent/UnusedTorrentFilesRemoverImpl.java:58-69 | a file below the directory whose '/'-joined names are no artifact's torrent path is removed |
| UnusedTorrentFilesRemover.UnusedOfFour | server/src/jetbrains/buildServer/torrent/UnusedTorrentFilesRemoverImpl.java:63-73 | four visited files are collected one by one, each iff it is unused |
| UnusedTorrentFilesRemover.SecondAndFourthUnused | server/src/jetbrains/buildServer/torrent/UnusedTorrentFilesRemoverImpl.java:63-73 | with the second and fourth unused, exactly those two are collected |
| UnusedTorrentFilesRemover.TestExistKept | server/src/test/java/jetbrains/buildServer/torrent/UnusedTorrentFilesRemoverImplTest.java:24-47 | exist.torrent is kept |
| UnusedTorrentFilesRemover.TestNotExistRemoved | server/src/test/java/jetbrains/buildServer/torrent/UnusedTorrentFilesRemoverImplTest.java:24-47 | notExist.torrent is removed |
| UnusedTorrentFilesRemover.TestDirExistKept | server/src/test/java/jetbrains/buildServer/torrent/UnusedTorrentFilesRemoverImplTest.java:24-47 | dir/exist.torrent is kept |
| UnusedTorrentFilesRemover.TestDirNotExistRemoved | server/src/test/java/jetbrains/buildServer/torrent/UnusedTorrentFilesRemoverImplTest.java:24-47 | dir/notExist.torrent is removed |
| UnusedTorrentFilesRemover.RemoverTestExample | server/src/test/java/jetbrains/buildServer/torrent/UnusedTorrentFilesRemoverImplTest.java:24-47 | with artifacts exist and dir/exist, exactly notExist.torrent and dir/notExist.torrent are collected |
| AbstractLinksController.ArtifactPathOf | server/src/main/java/jetbrains/buildServer/torrent/web/AbstractLinksController.java:77-78 | the artifact path exists iff the relative path is at least as long as ".torrent", and is that much shorter |
| AbstractLinksController.ArtifactPathOfTorrent | server/src/main/java/jetbrains/buildServer/torrent/web/AbstractLinksController.java:76-78 | artifact + ".torrent" reads back as the artifact with '\' turned into '/' |
| AbstractLinksController.ArtifactsWithTorrents | server/src/main/java/jetbrains/buildServer/torrent/web/AbstractLinksController.java:72-81 | the torrent-to-artifact map built in list order; none once a relative path is shorter than ".torrent" |
| AbstractLinksController.ArtifactsWithTorrentsSpec | server/src/main/java/jetbrains/buildServer/torrent/web/AbstractLinksController.java:72-81 | the map holds exactly the torrents with a relative path under the base directory, each with its artifact path; it exists iff no such path is too short |
| AbstractLinksController.ThrowStops | server/src/main/java/jetbrains/buildServer/torrent/web/AbstractLinksController.java:72-81 | once a path is too short, the whole call throws whatever follows |
| AbstractLinksController.GetArtifactsWithTorrents | server/src/main/java/jetbrains/buildServer/torrent/web/AbstractLinksController.java:72-81 | the loop builds exactly that map, or throws |
| AbstractLinksController.HandleSpec | server/src/main/java/jetbrains/buildServer/torrent/web/AbstractLinksController.java:43-65 | the answer: nothing for a missing or unparsable buildId, an unknown build, disabled downloading or a too-short torrent path; otherwise that build's map |
| AbstractLinksController.DoHandle | server/src/main/java/jetbrains/buildServer/torrent/web/AbstractLinksController.java:43-65 | the handler writes for a present, parsable buildId of an existing build with downloading enabled, and writes nothing on any failure |
| AbstractLinksController.HandleGuards | server/src/main/java/jetbrains/buildServer/torrent/web/AbstractLinksController.java:44-58 | no buildId, a buildId that is not a long, or disabled downloading writes nothing; a written answer is for that existing build and lists exactly its torrents under the base directory |
| AbstractLinksController.HandleWrittenForBuild | server/src/main/java/jetbrains/buildServer/torrent/web/AbstractLinksController.java:43-65 | an existing build's id, with downloading on and no short torrent path, gets an answer |
| TorrentUtil.GetBooleanValue | common/src/jetbrains/buildServer/torrent/torrent/TorrentUtil.java:131-140 | the stored value read case-insensitively as "true" or "false"; anything else, absence included, gives the default |
| TorrentUtil.BooleanDefaultOverride | common/src/jetbrains/buildServer/torrent/torrent/TorrentUtil.java:131-140 | the result differs from the default iff the stored value spells the opposite boolean in some case; a stored spelling of either boolean gives the same result whatever the default |
| TorrentUtil.BooleanRoundTrip | common/src/jetbrains/buildServer/torrent/torrent/TorrentUtil.java:131-140 | a boolean stored with `String.valueOf` reads back as itself |
| TorrentUtil.BooleanSpellings | common/src/jetbrains/buildServer/torrent/torrent/TorrentUtil.java:131-140 | "TRUE" is true, "False" is false, "yes" and absence give the default |
| TorrentUtil.GetIntegerValue | common/src/jetbrains/buildServer/torrent/torrent/TorrentUtil.java:142-149 | with an int default, the result is an int |
| TorrentUtil.IntegerRoundTrip | common/src/jetbrains/buildServer/torrent/torrent/TorrentUtil.java:142-149 | an int stored as text reads back as itself |
| TorrentUtil.IntegerDefault | common/src/jetbrains/buildServer/torrent/torrent/TorrentUtil.java:142-149 | an unparsable or absent value gives the default |
| TorrentUtil.ShouldCreateTorrentFor | common/src/jetbrains/buildServer/torrent/torrent/TorrentUtil.java:121-123 | a file qualifies iff its size is at least the threshold and an announce URL is set |
| TorrentUtil.ThresholdInclusive | common/src/jetbrains/buildServer/torrent/torrent/TorrentUtil.java:121-123 | with an announce URL, a file of exactly the threshold gets a torrent and one byte less does not |
| TorrentUtil.ThresholdMonotone | common/src/jetbrains/buildServer/torrent/torrent/TorrentUtil.java:121-123 | a larger file qualifies whenever a smaller one does, and nothing qualifies without an announce URL |
| TorrentUtil.TwoHundredMegabytes | server/tests/java/jetbrains/buildServer/torrent/TorrentTrackerConfiguratorTest.java:129-134 | 200 MB qualifies at a 200 MB threshold, and one byte less does not |
| TorrentConfigurator.Broadcast | server/src/main/java/jetbrains/buildServer/torrent/TorrentConfigurator.java:375-383 | every listener receives the event once, in list order |
| TorrentConfigurator.ThrowingListenerDoesNotStopOthers | server/src/main/java/jetbrains/buildServer/torrent/TorrentConfigurator.java:378-382 | listeners after a throwing one still receive the event |
| TorrentConfigurator.RemoveFirst | server/src/main/java/jetbrains/buildServer/torrent/TorrentConfigurator.java:371-373 | `List.remove` drops one occurrence when present and changes nothing otherwise |
| TorrentConfigurator.RemoveFirstAt | server/src/main/java/jetbrains/buildServer/torrent/TorrentConfigurator.java:371-373 | when the listener is present, exactly its first occurrence is removed and the rest keep their order |
| TorrentConfigurator.AddThenRemove | server/src/main/java/jetbrains/buildServer/torrent/TorrentConfigurator.java:367-373 | removing a listener just added restores the list |
| TorrentConfigurator.WithDownloadDefault | server/src/main/java/jetbrains/buildServer/torrent/TorrentConfigurator.java:300-302 | the loaded table always holds the download flag and keeps every stored key and value |
| TorrentConfigurator.LoadedDownloadFlag | server/src/main/java/jetbrains/buildServer/torrent/TorrentConfigurator.java:300-302 | the flag reads the same as before loading, and a missing flag is stored as "false" |
| TorrentConfigurator.BooleanSetSpec | server/src/main/java/jetbrains/buildServer/torrent/TorrentConfigurator.java:209-223 | a boolean setter stores its value, touches no other key, fires one event per listener iff the value changed, and a repeat changes nothing and fires nothing |
| TorrentConfigurator.IntegerSetSpec | server/src/main/java/jetbrains/buildServer/torrent/TorrentConfigurator.java:150-164 | an int setter stores its value, touches no other key, and a repeat changes nothing and fires nothing |
| TorrentConfigurator.Configurator.constructor | server/src/main/java/jetbrains/buildServer/torrent/TorrentConfigurator.java:61-70 | a missing file is written with the download flag off and then loaded; a stored one is loaded with that default; when the write or the read fails, the table stays null |
| TorrentConfigurator.Configurator.LoadConfiguration | server/src/main/java/jetbrains/buildServer/torrent/TorrentConfigurator.java:294-309 | a readable file replaces the table (with the download default); an unreadable one keeps what was there, null included |
| TorrentConfigurator.Configurator.IsDownloadEnabled | server/src/main/java/jetbrains/buildServer/torrent/TorrentConfigurator.java:225-227 | the stored download flag, false by default; none (a NullPointerException) on a null table |
| TorrentConfigurator.Configurator.IsSeedingEnabled | server/src/main/java/jetbrains/buildServer/torrent/TorrentConfigurator.java:312-314 | the stored seeding flag, false by default; none on a null table |
| TorrentConfigurator.Configurator.IsAgentSeedingEnabled | server/src/main/java/jetbrains/buildServer/torrent/TorrentConfigurator.java:316-318 | the stored agent seeding flag, false by default; none on a null table |
| TorrentConfigurator.Configurator.IsAgentDownloadingEnabled | server/src/main/java/jetbrains/buildServer/torrent/TorrentConfigurator.java:320-322 | the stored agent download flag, false by default; none on a null table |
| TorrentConfigurator.Configurator.AnnounceUrl | server/src/main/java/jetbrains/buildServer/torrent/TorrentConfigurator.java:324-330 | with the tracker off, there is no announce URL |
| TorrentConfigurator.Configurator.OwnTorrentAddress | server/src/main/java/jetbrains/buildServer/torrent/TorrentConfigurator.java:338-342 | the stored own address, "" when unset, and a NullPointerException on a null table |
| TorrentConfigurator.Configurator.AddPropertyChangeListener | server/src/main/java/jetbrains/buildServer/torrent/TorrentConfigurator.java:367-369 | the listener is appended and nothing else changes |
| TorrentConfigurator.Configurator.RemovePropertyChangeListener | server/src/main/java/jetbrains/buildServer/torrent/TorrentConfigurator.java:371-373 | the first occurrence is removed and nothing else changes |
| TorrentConfigurator.Configurator.PropertyChanged | server/src/main/java/jetbrains/buildServer/torrent/TorrentConfigurator.java:375-383 | the event is delivered to every listener in order, and nothing else changes |
| TorrentConfigurator.Configurator.SetAgentDownloadEnabled | server/src/main/java/jetbrains/buildServer/torrent/TorrentConfigurator.java:195-200 |  on a null table it throws and changes nothing; otherwise it stores the agent download flag with no event, and the getter then returns it |
| TorrentConfigurator.Configurator.SetAgentSeedingEnabled | server/src/main/java/jetbrains/buildServer/torrent/TorrentConfigurator.java:202-207 |  on a null table it throws and changes nothing; otherwise it stores the agent seeding flag with no event, and the getter then returns it |
| TorrentConfigurator.Configurator.SetDownloadEnabled | server/src/main/java/jetbrains/buildServer/torrent/TorrentConfigurator.java:209-215 |  on a null table it throws and changes nothing; otherwise it stores the download flag, notifies iff it changed, and isDownloadEnabled then returns it |
| TorrentConfigurator.Configurator.SetSeedingEnabled | server/src/main/java/jetbrains/buildServer/torrent/TorrentConfigurator.java:217-223 |  on a null table it throws and changes nothing; otherwise it stores the seeding flag, notifies iff it changed, and isSeedingEnabled then returns it |
| TorrentConfigurator.Configurator.SetTrackerEnabled | server/src/main/java/jetbrains/buildServer/torrent/TorrentConfigurator.java:115-121 |  on a null table it throws and changes nothing; otherwise it stores the tracker flag and notifies iff it changed |
| TorrentConfigurator.Configurator.SetTrackerUsesDedicatedPort | server/src/main/java/jetbrains/buildServer/torrent/TorrentConfigurator.java:187-193 |  on a null table it throws and changes nothing; otherwise it stores the dedicated-port flag and notifies iff it changed |
| TorrentConfigurator.Configurator.SetMaxNumberOfSeededTorrents | server/src/main/java/jetbrains/buildServer/torrent/TorrentConfigurator.java:150-156 |  on a null table it throws and changes nothing; otherwise it stores the torrent count against default 10000 and notifies iff it changed |
| TorrentConfigurator.Configurator.SetAnnounceIntervalSec | server/src/main/java/jetbrains/buildServer/torrent/TorrentConfigurator.java:158-164 |  on a null table it throws and changes nothing; otherwise it stores the announce interval and notifies iff it changed |
| TorrentConfigurator.Configurator.SetMaxConnectionsCount | server/src/main/java/jetbrains/buildServer/torrent/TorrentConfigurator.java:171-177 |  on a null table it throws and changes nothing; otherwise it stores the connection limit and notifies iff it changed |
| TorrentConfigurator.Configurator.SetTrackerTorrentExpireTimeoutSec | server/src/main/java/jetbrains/buildServer/torrent/TorrentConfigurator.java:179-185 |  on a null table it throws and changes nothing; otherwise it stores the expiry timeout and notifies iff it changed |
| TorrentConfigurator.Configurator.SetFileSizeThresholdMb | server/src/main/java/jetbrains/buildServer/torrent/TorrentConfigurator.java:138-148 |  on a null table it throws and changes nothing; otherwise it compares with the stored threshold (0 when unparsable) and, iff different, stores the new one and notifies with old and new |
| TorrentConfigurator.Configurator.SetReceiveBufferSize | server/src/main/java/jetbrains/buildServer/torrent/TorrentConfigurator.java:96-98 | always notifies, with -1 as the old value, and stores nothing |
| TorrentConfigurator.Configurator.SetSendBufferSize | server/src/main/java/jetbrains/buildServer/torrent/TorrentConfigurator.java:100-102 | always notifies, with -1 as the old value, and stores nothing |
| TorrentConfigurator.Configurator.SetAnnounceUrl | server/src/main/java/jetbrains/buildServer/torrent/TorrentConfigurator.java:332-336 | stores the URL, which an enabled tracker then announces, and always notifies with the old and new URL |
| TorrentConfigurator.RepeatedDownloadSetting | server/src/main/java/jetbrains/buildServer/torrent/TorrentConfigurator.java:210-214 | on a null table both calls throw and nothing changes; otherwise setting the download flag twice stores it, and the second call fires nothing |
| TorrentConfigurator.FreshConfiguratorExample | server/src/main/java/jetbrains/buildServer/torrent/TorrentConfigurator.java:104-113 | a fresh configurator whose file could be written and read has downloading off, and seeding on once set |
| TorrentConfigurator.UnloadedConfiguratorExample | server/src/main/java/jetbrains/buildServer/torrent/TorrentConfigurator.java:294-309 | when the file can be neither written nor found, the download getter and the seeding setter throw, while the announce URL is still set and read |
| TorrentTransportFactory.ShouldUseTorrentTransport | agent/src/main/java/jetbrains/buildServer/torrent/TorrentTransportFactory.java:124-130 | the shared transport parameter decides when it is set (used iff it is "TorrentTransport"); otherwise the agent's download flag does |
| TorrentTransportFactory.SharedParameterOverridesAgent | agent/src/main/java/jetbrains/buildServer/torrent/TorrentTransportFactory.java:124-130 | once the shared parameter is set, the agent's flag makes no difference; setting it to a value uses the transport iff the value is "TorrentTransport"; other parameters make no difference |
| TorrentTransportFactory.ArtifactId | agent/src/main/java/jetbrains/buildServer/torrent/TorrentTransportFactory.java:298-302 | the id is name + "." + ext when ext is non-empty, else the name |
| TorrentTransportFactory.CollectArtifactIds | agent/src/main/java/jetbrains/buildServer/torrent/TorrentTransportFactory.java:293-303 | the set of ids of the listed artifacts |
| TorrentTransportFactory.TorrentNameIsTorrentPath | agent/src/main/java/jetbrains/buildServer/torrent/TorrentTransportFactory.java:308 | the torrent name looked up for an artifact is the parser's torrent path |
| TorrentTransportFactory.TorrentMapping | agent/src/main/java/jetbrains/buildServer/torrent/TorrentTransportFactory.java:305-312 | an id is mapped iff it is not under ".teamcity" and its torrent name is listed too; it maps to that name |
| TorrentTransportFactory.TorrentsAreNotMapped | agent/src/main/java/jetbrains/buildServer/torrent/TorrentTransportFactory.java:306-307 | a mapped torrent name lies under ".teamcity" and so never gets a mapping of its own |
| TorrentTransportFactory.TransportTestMapping | agent/src/test/java/jetbrains/buildServer/torrent/TorrentTransportTest.java:163-203 | the test's ivy file maps MyBuild.31.zip to its torrent, and nothing else |
| TorrentTransportFactory.TransportTestIds | agent/src/test/java/jetbrains/buildServer/torrent/TorrentTransportTest.java:163-203 | the test's three artifacts have ids MyBuild.31.zip, its torrent path, and MyBuild.32.zip |
| TorrentTransportFactory.SumSizesBound | agent/src/main/java/jetbrains/buildServer/torrent/TorrentTransportFactory.java:203-206 | every file's size is at most the expected length |
| TorrentTransportFactory.SumSizesNonNegative | agent/src/main/java/jetbrains/buildServer/torrent/TorrentTransportFactory.java:203-206 | the expected length is never negative |
| TorrentTransportFactory.ExpectedSize | agent/src/main/java/jetbrains/buildServer/torrent/TorrentTransportFactory.java:203-206 | the loop sums the sizes of the torrent's files |
| TorrentTransportFactory.FetchedTorrent | agent/src/main/java/jetbrains/buildServer/torrent/TorrentTransportFactory.java:182-190 | the torrent fetched for the decoded, parsed URL of an artifact that has one; none when decoding or parsing throws, the artifact has no torrent, or the fetch fails |
| TorrentTransportFactory.DownloadSpec | agent/src/main/java/jetbrains/buildServer/torrent/TorrentTransportFactory.java:177-267 | every exit of downloadUrlTo: the ivy file's digest; a throw on a decode or parse failure; null for an unmapped artifact; null and one failure for a failed fetch; one failure and a throw when the peers fail; a throw with no count on interrupt; null and one failure for a file of the wrong length; a throw when the digest request throws; one success and null for a null digest; one success and the digest otherwise |
| TorrentTransportFactory.DownloadCounts | agent/src/main/java/jetbrains/buildServer/torrent/TorrentTransportFactory.java:177-267 | never both a failure and a success; a success iff the torrent was fetched, the peers delivered its total size and the digest request did not throw; a digest outside the ivy file is the server's and counts a success; a fetched torrent counts a failure iff the peers failed or the size is wrong; the ivy file counts nothing; at most one URL is requested |
| TorrentTransportFactory.TorrentTransport.constructor | agent/src/main/java/jetbrains/buildServer/torrent/TorrentTransportFactory.java:149-167 | a transport starts with no mapping and no requests |
| TorrentTransportFactory.TorrentTransport.MapTorrents | agent/src/main/java/jetbrains/buildServer/torrent/TorrentTransportFactory.java:305-312 | the loop adds the mapping of the ids to the map |
| TorrentTransportFactory.TorrentTransport.ParseArtifactsList | agent/src/main/java/jetbrains/buildServer/torrent/TorrentTransportFactory.java:287-329 | the ivy file is requested; if it parses, its mapping is added; the digest is "teamcity-ivy.xml_module_revision" iff the info query succeeds |
| TorrentTransportFactory.TorrentTransport.DownloadTorrent | agent/src/main/java/jetbrains/buildServer/torrent/TorrentTransportFactory.java:335-351 | an unmapped artifact returns null with no request; a mapped one fetches its torrent URL once and counts a failure iff the fetch fails |
| TorrentTransportFactory.TorrentTransport.DownloadUrlTo | agent/src/main/java/jetbrains/buildServer/torrent/TorrentTransportFactory.java:177-267 | the method takes exactly the exit DownloadSpec gives: its result, its requests, and one increment of each counter iff that exit counts it; only the ivy file changes the mapping |
| TorrentTransportFactory.TransportTestDownloads | agent/src/test/java/jetbrains/buildServer/torrent/TorrentTransportTest.java:201-202 | downloading both artifacts of the test requests only the torrent of MyBuild.31.zip |
| TorrentsDownloadStatistic.Increment | common/src/main/java/jetbrains/buildServer/torrent/util/TorrentsDownloadStatistic.java:29-35 | incrementAndGet adds one, wrapping Integer.MAX_VALUE to Integer.MIN_VALUE |
| TorrentsDownloadStatistic.CountAfter | common/src/main/java/jetbrains/buildServer/torrent/util/TorrentsDownloadStatistic.java:29-35 | a counter after n increments stays in int range |
| TorrentsDownloadStatistic.CountAfterSmall | common/src/main/java/jetbrains/buildServer/torrent/util/TorrentsDownloadStatistic.java:29-35 | up to Integer.MAX_VALUE increments count exactly |
| TorrentsDownloadStatistic.Statistic.constructor | common/src/main/java/jetbrains/buildServer/torrent/util/TorrentsDownloadStatistic.java:18-21 | both counters start at 0 |
| TorrentsDownloadStatistic.Statistic.Reset | common/src/main/java/jetbrains/buildServer/torrent/util/TorrentsDownloadStatistic.java:24-27 | reset zeroes both counters |
| TorrentsDownloadStatistic.Statistic.FileDownloaded | common/src/main/java/jetbrains/buildServer/torrent/util/TorrentsDownloadStatistic.java:29-31 | increments only the success count |
| TorrentsDownloadStatistic.Statistic.FileDownloadFailed | common/src/main/java/jetbrains/buildServer/torrent/util/TorrentsDownloadStatistic.java:33-35 | increments only the failure count |
| TorrentsDownloadStatistic.StatisticExample | common/src/test/java/jetbrains/buildServer/torrent/util/TorrentsDownloadStatisticTest.java:21-36 | both counters start at 0; three failures and two successes read back as 3 and 2; after reset both read 0 |

## Left out

- TeamCity's server and agent properties (`TeamCityProperties`, the configuration watcher of TorrentConfigurator.java lines 75-90, the getters that read those properties): these are platform calls. The tracker flag that `getAnnounceUrl` reads is a parameter.
- TorrentConfigurator's `persistConfiguration`, `getResolvedOwnAddress` and `getServerAddress`: file output, DNS and the server's URL holder.
- File and network I/O: the database file, the configuration file, and HTTP requests are inputs (their lines, their table, their results). Failure is modelled as the flags and `Option`s the code checks. Write errors part-way through flush are not modelled.
- The ttorrent peer download, its threads, the interrupt and timing logs: `downloadUrlTo` receives the peer's outcome (`PeerResult`) as an input.
- XML and XPath parsing of `teamcity-ivy.xml`: the listed artifacts and the info query are inputs. An exception in the info query after the mapping was written is modelled as the missing info.
- TorrentTransportFactory.TorrentTransport.DownloadUrlTo: `long` overflow in the size sum is not modelled, because sizes are unbounded integers here.
- TorrentTransportFactory.FetchedTorrent: fetches the corrected torrent URL (`ParsedArtifactPath.TorrentUrl`), not the one getTorrentUrl builds. The two differ only for an artifact URL with a branch (`ParsedArtifactPath.AsWrittenAgreesWithoutBranch`); there the code requests "?branch=?branch=…".
- TorrentTransportFactory.TorrentTransport.DownloadTorrent: requests and fetches the corrected torrent URL, so for an artifact with a branch it does not capture the doubled "?branch=" query the code sends; without a branch the URLs are the same.
- TorrentTransportFactory.TorrentTransport.DownloadUrlTo: the IOException that `getTorrentFile` or `saveTorrentToFile` may throw (TorrentTransportFactory.java lines 198-199) is not modelled; the torrent file it writes is outside the model, and so is that exit.
- TorrentTransportFactory.DownloadSpec: the same exit is missing there, and it fetches the corrected torrent URL, like DownloadTorrent.
- TorrentTransportFactory.TorrentTransport.DownloadUrlTo: goes through DownloadTorrent, so the same holds for the torrent URL it requests.
- TorrentLinks.Matches: matches against the corrected lookup (`TorrentLinks.Lookup`), so a path that is an Object.prototype name such as "toString" does not match unless the server listed it, as it does in the code. For every other path the two lookups agree (`TorrentLinks.LookupAgrees`).
- TorrentLinks.MatchesMonotone: states its properties of the corrected lookup, with the same gap for Object.prototype names.
- TorrentLinks.Visited: built on Matches, so it does not capture the link and has-torrent class the code adds to an entry whose path is an Object.prototype name.
- TorrentLinks.VisitedSpec: built on the corrected lookup of Matches, so it does not capture the link and has-torrent class the code adds to an entry whose path is an Object.prototype name.
- TorrentLinks.TreeEntry.Visit: uses the corrected lookup, with the same gap for Object.prototype names.
- TorrentLinks.VisitEntries: uses the corrected lookup, with the same gap for Object.prototype names.
- TorrentLinks.InjectTorrentLinks: uses the corrected lookup, with the same gap for Object.prototype names.
- TorrentLinks.AfterMarks: states has-torrent against the corrected lookup, with the same gap for Object.prototype names.
- JavaNumbers.ParseInt: digits outside ASCII, which `Character.digit` also accepts, are not modelled; such a string is rejected here.
- JavaNumbers.ParseLong: the same holds: a buildId of non-ASCII digits, such as Arabic-Indic ones, is rejected here, while `Long.parseLong` accepts it, so `DoHandle` writes nothing for it.
- TorrentFilesDb.LexLess: compares Unicode scalar values, while `String.compareTo` (TorrentFilesDB.java line 173) compares UTF-16 code units. The two orders differ only between a character above U+FFFF and one in U+E000..U+FFFF, so for such paths the sorted order, the flushed line order and the entries `setMaxTorrents` drops may differ from the code's.
- The foreign helpers are parameters, not definitions:
  - `URLDecoder.decode`, `decodeURIComponent`;
  - `FileUtil.fixDirectoryNameAllowUnicode`, `FileUtil.getRelativePath`;
  - `StringUtil.parseFileSize`.
- AbstractLinksController's `writeResponse`: it belongs to the subclasses. `DoHandle` returns what would be written.
- jQuery element selection in torrentLinks.js: the selector's `:not(.torrent-handled)` filter is modelled as the handled flag checked at the start of each callback. An href that is `undefined` is not modelled: hrefs are strings.
- The iteration order of the `HashMap` that cleanupBrokenFiles fills: the model keeps the access order of the cache. The source gives no other order.
- `synchronized` methods and other concurrency: by assumption every operation runs alone.
- java.io.File on Windows (drive letters, '\'): paths use '/', `user.dir` is a parameter, and `getAbsolutePath` is resolution plus normalisation of "//" and trailing '/'.

## Findings

| source | as written | input that shows it | evidently intended | confidence | as-written member | corrected member |
|---|---|---|---|---|---|---|
| agent/src/main/java/jetbrains/buildServer/torrent/ParsedArtifactPath.java:31,53,71-75 | group 5 of the pattern includes the "?branch=" text, and getTorrentUrl prefixes "?branch=" again | ".../a.zip?branch=dev" gives ".../.teamcity/torrents/a.zip.torrent?branch=?branch=dev" | the torrent URL carries the branch query once: "...a.zip.torrent?branch=dev" | not executed | ParsedArtifactPath.TorrentUrlAsWritten, with ParsedArtifactPath.AsWrittenDoublesBranch and ParsedArtifactPath.AsWrittenBranchExample | ParsedArtifactPath.TorrentUrl, with ParsedArtifactPath.TorrentUrlMatches and ParsedArtifactPath.TorrentUrlBranchExample |
| server/src/main/resources/buildServerResources/torrentLinks.js:44-47,62-64 | `filesWithTorrents` is a plain object, so a name inherited from Object.prototype also counts as a listed path | response "a.zip" and a tree entry whose path is "toString": the entry gets a torrent link | only the paths the server listed match | not executed | TorrentLinks.LookupAsWritten, with TorrentLinks.InheritedNameCounts | TorrentLinks.Lookup, with TorrentLinks.LookupAgrees and TorrentLinks.MatchesMonotone |
