/** The torrent database of the seeder: a bounded, access-ordered map from a
    source file to its torrent file. Adding past the limit evicts the least
    recently accessed pair and tells the cache listener; the map can be
    shrunk, pruned of pairs whose files are gone, and saved to and loaded
    from `src || torrent` lines. File system facts (which paths are regular
    files, their modification times) are inputs. */
module TorrentFilesDb {
  import opened Wrappers
  import opened Text
  import opened JavaIo
  import opened LinkedCache
  import opened EntryLists
  import opened PathConverters

  /** Separates the source path from the torrent path in a database line. */
  const Separator: string := " || "

  /** What the file system reports: the working directory relative paths
      are resolved against, the regular files and the modification times,
      both keyed by absolute path. */
  datatype FileSystem = FileSystem(userDir: File, regularFiles: set<string>, modified: map<string, int>)

  /** `file.isFile()`. */
  predicate IsFile(fs: FileSystem, f: File) {
    AbsolutePath(f, fs.userDir) in fs.regularFiles
  }

  /** `file.lastModified()`, which is 0 for a missing file. */
  function LastModified(fs: FileSystem, f: File): int {
    var p := AbsolutePath(f, fs.userDir);
    if p in fs.modified then fs.modified[p] else 0
  }

  /** `a.compareTo(b) < 0` for strings: the first differing character decides,
      and a proper prefix comes first. */
  predicate LexLess(a: string, b: string) {
    if a == [] then b != []
    else if b == [] then false
    else if a[0] != b[0] then a[0] < b[0]
    else LexLess(a[1..], b[1..])
  }

  /** The string order is a strict total order: never both ways, and one way
      for any two different strings. */
  lemma {:induction false} LexLessStrictTotal(a: string, b: string)
    ensures !(LexLess(a, b) && LexLess(b, a))
    ensures a != b ==> LexLess(a, b) || LexLess(b, a)
  {
    if a != [] && b != [] && a[0] == b[0] {
      LexLessStrictTotal(a[1..], b[1..]);
      assert a == [a[0]] + a[1..] && b == [b[0]] + b[1..];
    }
  }

  /** The sort comparator of getSortedKeys, as `compare(a, b) <= 0`: older
      modification time first, then the smaller absolute path. */
  predicate NotAfter(c: PathConverter, fs: FileSystem, a: Entry, b: Entry) {
    var fa, fb := c.toFile(a.key), c.toFile(b.key);
    var ta, tb := LastModified(fs, fa), LastModified(fs, fb);
    ta < tb || (ta == tb && !LexLess(AbsolutePath(fb, fs.userDir), AbsolutePath(fa, fs.userDir)))
  }

  lemma NotAfterTotal(c: PathConverter, fs: FileSystem, a: Entry, b: Entry)
    ensures NotAfter(c, fs, a, b) || NotAfter(c, fs, b, a)
  {
    LexLessStrictTotal(AbsolutePath(c.toFile(a.key), fs.userDir), AbsolutePath(c.toFile(b.key), fs.userDir));
  }

  predicate SortedBy(c: PathConverter, fs: FileSystem, s: seq<Entry>) {
    forall i :: 0 <= i < |s| - 1 ==> NotAfter(c, fs, s[i], s[i + 1])
  }

  /** Inserts `x` before the first entry it does not come after. */
  function Insert(c: PathConverter, fs: FileSystem, x: Entry, s: seq<Entry>): seq<Entry> {
    if s == [] then [x]
    else if NotAfter(c, fs, x, s[0]) then [x] + s
    else [s[0]] + Insert(c, fs, x, s[1..])
  }

  lemma MultisetCons<T>(s: seq<T>)
    requires s != []
    ensures multiset(s) == multiset(s[1..]) + multiset{s[0]}
  {
    assert s == [s[0]] + s[1..];
  }

  /** Insertion adds exactly `x`. */
  lemma {:induction false} InsertPermutation(c: PathConverter, fs: FileSystem, x: Entry, s: seq<Entry>)
    ensures multiset(Insert(c, fs, x, s)) == multiset(s) + multiset{x}
  {
    if s != [] && !NotAfter(c, fs, x, s[0]) {
      var r' := Insert(c, fs, x, s[1..]);
      assert Insert(c, fs, x, s) == [s[0]] + r';
      InsertPermutation(c, fs, x, s[1..]);
      MultisetCons(s);
      MultisetCons([s[0]] + r');
      assert ([s[0]] + r')[1..] == r';
    }
  }

  /** Insertion keeps a sorted list sorted, and starts the result with `x`
      or with the old first entry. */
  lemma {:induction false} InsertSorted(c: PathConverter, fs: FileSystem, x: Entry, s: seq<Entry>)
    ensures var r := Insert(c, fs, x, s);
            && (SortedBy(c, fs, s) ==> SortedBy(c, fs, r))
            && r != [] && (r[0] == x || (s != [] && r[0] == s[0]))
  {
    if s != [] && !NotAfter(c, fs, x, s[0]) {
      NotAfterTotal(c, fs, x, s[0]);
      InsertSorted(c, fs, x, s[1..]);
      var r' := Insert(c, fs, x, s[1..]);
      var r := [s[0]] + r';
      if SortedBy(c, fs, s) {
        forall i | 0 <= i < |r| - 1 ensures NotAfter(c, fs, r[i], r[i + 1]) {
          if i > 0 {
            assert r[i] == r'[i - 1] && r[i + 1] == r'[i];
          } else if r'[0] != x {
            assert r[1] == s[1];
          }
        }
      }
    }
  }

  /** getSortedKeys with the values attached: a stable sort by the
      comparator, so entries that compare equal keep their access order. */
  function SortedEntries(c: PathConverter, fs: FileSystem, es: seq<Entry>): seq<Entry> {
    if es == [] then []
    else Insert(c, fs, es[0], SortedEntries(c, fs, es[1..]))
  }

  /** The sorted list is a permutation of the entries, ordered by the
      comparator. */
  lemma SortedEntriesSpec(c: PathConverter, fs: FileSystem, es: seq<Entry>)
    ensures var r := SortedEntries(c, fs, es);
            multiset(r) == multiset(es) && |r| == |es| && SortedBy(c, fs, r)
  {
    SortedEntriesPermutation(c, fs, es);
    SortedEntriesSorted(c, fs, es);
    var r := SortedEntries(c, fs, es);
    assert |r| == |multiset(r)| == |multiset(es)| == |es|;
  }

  lemma {:induction false} SortedEntriesPermutation(c: PathConverter, fs: FileSystem, es: seq<Entry>)
    ensures multiset(SortedEntries(c, fs, es)) == multiset(es)
  {
    if es != [] {
      var rest := SortedEntries(c, fs, es[1..]);
      assert SortedEntries(c, fs, es) == Insert(c, fs, es[0], rest);
      SortedEntriesPermutation(c, fs, es[1..]);
      InsertPermutation(c, fs, es[0], rest);
      MultisetCons(es);
    }
  }

  lemma {:induction false} SortedEntriesSorted(c: PathConverter, fs: FileSystem, es: seq<Entry>)
    ensures SortedBy(c, fs, SortedEntries(c, fs, es))
  {
    if es != [] {
      SortedEntriesSorted(c, fs, es[1..]);
      InsertSorted(c, fs, es[0], SortedEntries(c, fs, es[1..]));
    }
  }

  lemma {:induction false} InsertDistinct(c: PathConverter, fs: FileSystem, x: Entry, s: seq<Entry>)
    requires DistinctKeys(s) && !HasKey(s, x.key)
    ensures DistinctKeys(Insert(c, fs, x, s))
  {
    if s == [] {
    } else if NotAfter(c, fs, x, s[0]) {
      ConsDistinct(x, s);
    } else {
      DistinctTail(s);
      KeysTail(s);
      InsertDistinct(c, fs, x, s[1..]);
      InsertPermutation(c, fs, x, s[1..]);
      var r := Insert(c, fs, x, s[1..]);
      if HasKey(r, s[0].key) {
        var i :| 0 <= i < |r| && Keys(r)[i] == s[0].key;
        assert r[i] in multiset(r);
        assert r[i] == x || r[i] in s[1..];
        if r[i] in s[1..] {
          HasKeyOfMember(s[1..], r[i]);
        }
      }
      ConsDistinct(s[0], r);
    }
  }

  /** Sorting keeps the keys distinct and the same entries. */
  lemma {:induction false} SortedEntriesDistinct(c: PathConverter, fs: FileSystem, es: seq<Entry>)
    requires DistinctKeys(es)
    ensures var r := SortedEntries(c, fs, es);
            DistinctKeys(r) && |r| == |es| && forall e :: e in r <==> e in es
  {
    SortedEntriesSpec(c, fs, es);
    var r := SortedEntries(c, fs, es);
    assert forall e :: e in r <==> e in multiset(r);
    if es != [] {
      DistinctTail(es);
      SortedEntriesDistinct(c, fs, es[1..]);
      var s := SortedEntries(c, fs, es[1..]);
      SortedEntriesSpec(c, fs, es[1..]);
      if HasKey(s, es[0].key) {
        var i :| 0 <= i < |s| && Keys(s)[i] == es[0].key;
        assert s[i] in multiset(s);
        HasKeyOfMember(es[1..], s[i]);
      }
      InsertDistinct(c, fs, es[0], s);
    }
  }

  /** The line flush writes for one pair. */
  function Line(e: Entry): string {
    e.key + Separator + e.value
  }

  function Lines(es: seq<Entry>): (r: seq<string>)
    ensures |r| == |es|
  {
    if es == [] then [] else Lines(es[..|es| - 1]) + [Line(es[|es| - 1])]
  }

  /** loadDb's reading of one line: exactly two tokens around the separator,
      or the line is skipped. */
  function ParseLine(line: string): Option<Entry> {
    var paths := SplitTokens(line, Separator);
    if |paths| == 2 then Some(Entry(paths[0], paths[1])) else None
  }

  /** The stored pair addFileAndTorrent makes of the files a line names. */
  function Reconverted(c: PathConverter, p: Entry): Entry {
    Entry(c.toPath(c.toFile(p.key)), c.toPath(c.toFile(p.value)))
  }

  /** The pair loadDb adds for each accepted line: both tokens are converted
      to files, and addFileAndTorrent converts them back to stored paths. */
  function LoadedEntries(c: PathConverter, lines: seq<string>): seq<Entry>
    decreases |lines|
  {
    if lines == [] then []
    else
      var front := LoadedEntries(c, lines[..|lines| - 1]);
      match ParseLine(lines[|lines| - 1])
      case None => front
      case Some(p) => front + [Reconverted(c, p)]
  }

  lemma LoadedEntriesSnoc(c: PathConverter, lines: seq<string>, line: string)
    ensures LoadedEntries(c, lines + [line]) ==
      match ParseLine(line)
      case None => LoadedEntries(c, lines)
      case Some(p) => LoadedEntries(c, lines) + [Reconverted(c, p)]
  {
    assert (lines + [line])[..|lines|] == lines;
  }

  lemma FirstOccurrence(s: string, sub: string, from: int, k: int)
    requires Max(from, 0) <= k && OccursAt(s, sub, k)
    requires forall j :: Max(from, 0) <= j < k ==> !OccursAt(s, sub, j)
    ensures IndexOfFrom(s, sub, from) == k
  {
  }

  /** In a written line the first separator is the one after the source. */
  lemma SeparatorAfterKey(e: Entry)
    requires e.key != "" && '|' !in e.key
    ensures IndexOfFrom(Line(e), Separator, 0) == |e.key|
  {
    var line := Line(e);
    var n := |e.key|;
    assert forall i :: 0 <= i < n ==> line[i] == e.key[i];
    assert line[n..n + 4] == Separator;
    forall j | 0 <= j < n ensures !OccursAt(line, Separator, j) {
      if j + 4 <= |line| {
        assert line[j..j + 4][1] == line[j + 1];
        if j + 1 < n {
          assert line[j + 1] == e.key[j + 1];
        } else {
          assert line[j + 1] == ' ';
        }
      }
    }
    FirstOccurrence(line, Separator, 0, n);
  }

  /** After that separator a written line holds no other. */
  lemma NoSeparatorInValue(e: Entry)
    requires '|' !in e.value
    ensures IndexOfFrom(Line(e), Separator, |e.key| + 4) == -1
  {
    var line := Line(e);
    var n := |e.key|;
    assert |line| == n + 4 + |e.value|;
    assert forall i :: 0 <= i < |e.value| ==> line[n + 4 + i] == e.value[i];
    assert Separator[1] == '|';
    forall j | n + 4 <= j ensures !OccursAt(line, Separator, j) {
      if j + 4 <= |line| {
        var k := j + 1 - n - 4;
        assert line[j + 1] == e.value[k] && e.value[k] != '|';
        assert line[j..j + 4][1] == line[j + 1];
      }
    }
  }

  /** A line written for two non-empty paths without '|' is read back as
      those two paths. */
  lemma ParseLineOfLine(e: Entry)
    requires e.key != "" && e.value != "" && '|' !in e.key && '|' !in e.value
    ensures ParseLine(Line(e)) == Some(e)
  {
    var line := Line(e);
    var n := |e.key|;
    SeparatorAfterKey(e);
    NoSeparatorInValue(e);
    assert line[0..n] == e.key;
    assert line[n + 4..] == e.value;
    assert SplitTokensFrom(line, Separator, n + 4) == [e.value];
    assert SplitTokens(line, Separator) == [e.key] + [e.value];
  }

  /** Reading back the line of a stable pair gives the pair. */
  lemma LoadStableLine(c: PathConverter, e: Entry)
    requires StablePath(c, e.key) && StablePath(c, e.value)
    ensures ParseLine(Line(e)) == Some(e) && Reconverted(c, e) == e
  {
    ParseLineOfLine(e);
  }

  /** Reading back the lines written for stable pairs gives the same pairs. */
  lemma {:induction false} LoadWrittenLines(c: PathConverter, es: seq<Entry>)
    requires forall e :: e in es ==> StablePath(c, e.key) && StablePath(c, e.value)
    ensures LoadedEntries(c, Lines(es)) == es
  {
    if es != [] {
      var init := es[..|es| - 1];
      var e := es[|es| - 1];
      assert es == init + [e];
      assert Lines(es) == Lines(init) + [Line(e)];
      assert forall x :: x in init ==> x in es;
      LoadWrittenLines(c, init);
      assert e in es;
      LoadStableLine(c, e);
      LoadedEntriesSnoc(c, Lines(init), Line(e));
    }
  }

  /** Flushing and reopening: the lines written for a database with stable
      paths and at most `max` pairs load, under the same limit, into exactly
      the flushed pairs in the flushed order, with nothing evicted. */
  lemma FlushThenReload(c: PathConverter, fs: FileSystem, es: seq<Entry>, max: nat)
    requires DistinctKeys(es) && |es| <= max
    requires forall e :: e in es ==> StablePath(c, e.key) && StablePath(c, e.value)
    ensures var s := SortedEntries(c, fs, es);
            PutAll([], max, LoadedEntries(c, Lines(s))) == PutOutcome(s, [])
  {
    var s := SortedEntries(c, fs, es);
    SortedEntriesDistinct(c, fs, es);
    LoadWrittenLines(c, s);
    PutAllKeepsNewest(max, s);
    assert s[0..] == s;
  }

  /** cleanupBrokenFiles' test: the source or the torrent is not a regular
      file (the torrent is never null: map values are never null). */
  predicate IsBroken(c: PathConverter, fs: FileSystem, e: Entry) {
    !IsFile(fs, c.toFile(e.key)) || !IsFile(fs, c.toFile(e.value))
  }

  function BrokenTest(c: PathConverter, fs: FileSystem): Entry -> bool {
    e => IsBroken(c, fs, e)
  }

  function HealthyTest(c: PathConverter, fs: FileSystem): Entry -> bool {
    e => !IsBroken(c, fs, e)
  }

  /** The pairs cleanupBrokenFiles removes, in the order it meets them. */
  function BrokenEntries(c: PathConverter, fs: FileSystem, es: seq<Entry>): seq<Entry> {
    Filter(es, BrokenTest(c, fs))
  }

  /** The pairs cleanupBrokenFiles keeps. */
  function HealthyEntries(c: PathConverter, fs: FileSystem, es: seq<Entry>): seq<Entry> {
    Filter(es, HealthyTest(c, fs))
  }

  /** The broken pairs are exactly the pairs that fail the test, and the
      healthy ones exactly those that pass it. */
  lemma CleanupMembers(c: PathConverter, fs: FileSystem, es: seq<Entry>, e: Entry)
    ensures e in BrokenEntries(c, fs, es) <==> e in es && IsBroken(c, fs, e)
    ensures e in HealthyEntries(c, fs, es) <==> e in es && !IsBroken(c, fs, e)
  {
    FilterMember(es, BrokenTest(c, fs), e);
    FilterMember(es, HealthyTest(c, fs), e);
  }

  /** Every pair is either broken or healthy, never both. */
  lemma BrokenHealthyPartition(c: PathConverter, fs: FileSystem, es: seq<Entry>)
    ensures |BrokenEntries(c, fs, es)| + |HealthyEntries(c, fs, es)| == |es|
  {
    FilterComplement(es, BrokenTest(c, fs), HealthyTest(c, fs));
  }

  /** Removing the keys of the broken pairs from a map with distinct keys
      leaves exactly the healthy pairs. */
  lemma RemoveBrokenKeys(c: PathConverter, fs: FileSystem, es: seq<Entry>)
    requires DistinctKeys(es)
    ensures RemoveKeys(es, KeySet(BrokenEntries(c, fs, es))) == HealthyEntries(c, fs, es)
  {
    var p := BrokenTest(c, fs);
    var q := HealthyTest(c, fs);
    FilterKeysExact(es, p);
    RemoveKeysFilter(es, KeySet(Filter(es, p)), q);
  }

  /** Cleaning twice removes nothing the second time. */
  lemma CleanupIdempotent(c: PathConverter, fs: FileSystem, es: seq<Entry>)
    ensures BrokenEntries(c, fs, HealthyEntries(c, fs, es)) == []
    ensures HealthyEntries(c, fs, HealthyEntries(c, fs, es)) == HealthyEntries(c, fs, es)
  {
    var h := HealthyEntries(c, fs, es);
    FilterTwice(es, HealthyTest(c, fs));
    BrokenHealthyPartition(c, fs, h);
  }

  function PathFile(c: PathConverter): string -> File {
    p => c.toFile(p)
  }

  /** getFileAndTorrentMap's result: the files of every pair, a later pair
      overriding an earlier one that names the same source file. */
  function FileMap(c: PathConverter, es: seq<Entry>): map<File, File> {
    PairMap(es, PathFile(c))
  }

  /** The map's keys are exactly the pairs' source files. */
  lemma FileMapDomain(c: PathConverter, es: seq<Entry>)
    ensures FileMap(c, es).Keys == set e | e in es :: c.toFile(e.key)
  {
    PairMapDomain(es, PathFile(c));
  }

  /** With distinct, stable stored paths, every pair's source file maps to
      its own torrent file: no two pairs name the same source file. */
  lemma FileMapOfStable(c: PathConverter, es: seq<Entry>)
    requires DistinctKeys(es)
    requires forall e :: e in es ==> StablePath(c, e.key)
    ensures forall e :: e in es ==>
              c.toFile(e.key) in FileMap(c, es) && FileMap(c, es)[c.toFile(e.key)] == c.toFile(e.value)
  {
    var f := PathFile(c);
    forall i, j | 0 <= i < j < |es| ensures f(es[i].key) != f(es[j].key) {
      assert es[i] in es && es[j] in es;
      StableInjective(c, es[i].key, es[j].key);
    }
    PairMapInjective(es, f);
  }

  /** Different stable paths name different files. */
  lemma StableInjective(c: PathConverter, a: string, b: string)
    requires StablePath(c, a) && StablePath(c, b) && a != b
    ensures c.toFile(a) != c.toFile(b)
  {
  }

  /** The files a removal notice carries. */
  datatype Removal = Removal(src: File, torrent: File)

  /** The listener's notices for evicted pairs, none without a listener. */
  function Notices(c: PathConverter, listening: bool, es: seq<Entry>): seq<Removal> {
    if !listening || es == [] then []
    else [Removal(c.toFile(es[0].key), c.toFile(es[0].value))] + Notices(c, listening, es[1..])
  }

  lemma {:induction false} NoticesAppend(c: PathConverter, listening: bool, a: seq<Entry>, b: seq<Entry>)
    ensures Notices(c, listening, a + b) == Notices(c, listening, a) + Notices(c, listening, b)
  {
    if a != [] && listening {
      assert (a + b)[0] == a[0];
      assert (a + b)[1..] == a[1..] + b;
      NoticesAppend(c, listening, a[1..], b);
    } else if a == [] {
      assert a + b == b;
    }
  }

  /** Putting distinct pairs into an empty cache of limit `n` leaves a valid
      cache of the newest ones. */
  lemma ShrinkKeepsNewest(s: seq<Entry>, n: nat)
    requires DistinctKeys(s)
    ensures var d := if |s| > n then |s| - n else 0;
            && PutAll([], n, s) == PutOutcome(s[d..], s[..d])
            && DistinctKeys(s[d..]) && |s[d..]| <= n
  {
    PutAllKeepsNewest(n, s);
    DistinctSuffix(s, if |s| > n then |s| - n else 0);
  }

  /** One more put, given the outcome of the puts before it. */
  lemma PutAllStep(es: seq<Entry>, max: nat, front: seq<Entry>, e: Entry, cur: seq<Entry>, ev: seq<Entry>)
    requires PutAll(es, max, front) == PutOutcome(cur, ev)
    ensures PutAll(es, max, front + [e]) == PutOutcome(Put(cur, max, e).entries, ev + Put(cur, max, e).evicted)
  {
    assert (front + [e])[..|front|] == front;
  }

  /** One pair more put into the new cache: its evictions are appended to
      those so far, and so are their notices. */
  lemma RebuildStep(c: PathConverter, listening: bool, max: nat, front: seq<Entry>, e: Entry,
                    cur: seq<Entry>, ev: seq<Entry>, before: seq<Removal>)
    requires PutAll([], max, front) == PutOutcome(cur, ev)
    ensures var step := Put(cur, max, e);
            && PutAll([], max, front + [e]) == PutOutcome(step.entries, ev + step.evicted)
            && before + Notices(c, listening, ev + step.evicted)
               == before + Notices(c, listening, ev) + Notices(c, listening, step.evicted)
  {
    var step := Put(cur, max, e);
    PutAllStep([], max, front, e, cur, ev);
    NoticesAppend(c, listening, ev, step.evicted);
    AppendAssoc(before, Notices(c, listening, ev), Notices(c, listening, step.evicted));
  }

  /** What flush did. */
  datatype FlushOutcome = NothingToFlush | DirectoryNotCreated | NotOpened | Written(lines: seq<string>)

  class TorrentFilesDB {
    /** The pairs in access order, least recently accessed first. */
    var entries: seq<Entry>
    var maxTorrents: nat
    /** myIsDBChanged. */
    var changed: bool
    /** The removal notices delivered to the cache listener so far. */
    var notified: seq<Removal>
    const converter: PathConverter
    /** Whether a cache listener was given. */
    const listening: bool

    ghost predicate Valid()
      reads this
    {
      DistinctKeys(entries) && |entries| <= maxTorrents
    }

    /** The constructor: the given converter or else the simple one, an empty
        cache of the given limit, then loadDb over the database lines (None
        when the database file does not exist). */
    constructor (dbLines: Option<seq<string>>, maxTorrents: nat, pathConverter: Option<PathConverter>, listening: bool, userDir: File)
      ensures Valid() && this.maxTorrents == maxTorrents && this.listening == listening
      ensures converter == if pathConverter.Some? then pathConverter.value else SimplePathConverter(userDir)
      ensures var loaded := if dbLines.Some? then LoadedEntries(converter, dbLines.value) else [];
              var r := PutAll([], maxTorrents, loaded);
              && entries == r.entries
              && notified == Notices(converter, listening, r.evicted)
              && changed == (loaded != [])
    {
      this.maxTorrents := maxTorrents;
      this.converter := if pathConverter.Some? then pathConverter.value else SimplePathConverter(userDir);
      this.listening := listening;
      entries := [];
      changed := false;
      notified := [];
      new;
      if dbLines.Some? {
        LoadDb(dbLines.value);
      }
    }

    /** loadDb: adds the pair of every line that splits into exactly two
        paths, in file order. */
    method LoadDb(lines: seq<string>)
      requires Valid()
      modifies this
      ensures Valid() && maxTorrents == old(maxTorrents)
      ensures var loaded := LoadedEntries(converter, lines);
              var r := PutAll(old(entries), maxTorrents, loaded);
              && entries == r.entries
              && notified == old(notified) + Notices(converter, listening, r.evicted)
              && changed == (old(changed) || loaded != [])
    {
      var i := 0;
      ghost var evicted: seq<Entry> := [];
      while i < |lines|
        invariant 0 <= i <= |lines| && Valid() && maxTorrents == old(maxTorrents)
        invariant PutAll(old(entries), maxTorrents, LoadedEntries(converter, lines[..i])) == PutOutcome(entries, evicted)
        invariant notified == old(notified) + Notices(converter, listening, evicted)
        invariant changed == (old(changed) || LoadedEntries(converter, lines[..i]) != [])
      {
        assert lines[..i + 1] == lines[..i] + [lines[i]];
        LoadedEntriesSnoc(converter, lines[..i], lines[i]);
        ghost var front := LoadedEntries(converter, lines[..i]);
        var paths := SplitTokens(lines[i], Separator);
        if |paths| == 2 {
          var srcFile := converter.toFile(paths[0]);
          var torrentFile := converter.toFile(paths[1]);
          ghost var e := Entry(converter.toPath(srcFile), converter.toPath(torrentFile));
          assert e == Reconverted(converter, Entry(paths[0], paths[1]));
          assert LoadedEntries(converter, lines[..i + 1]) == front + [e];
          ghost var step := Put(entries, maxTorrents, e);
          PutAllStep(old(entries), maxTorrents, front, e, entries, evicted);
          NoticesAppend(converter, listening, evicted, step.evicted);
          AppendAssoc(old(notified), Notices(converter, listening, evicted), Notices(converter, listening, step.evicted));
          AddFileAndTorrent(srcFile, torrentFile);
          evicted := evicted + step.evicted;
        } else {
          assert LoadedEntries(converter, lines[..i + 1]) == front;
        }
        i := i + 1;
      }
      assert lines[..|lines|] == lines;
    }

    /** addFileAndTorrent: both files are stored by their converted paths and
        the database is marked changed. */
    method AddFileAndTorrent(srcFile: File, torrentFile: File)
      requires Valid()
      modifies this
      ensures Valid() && maxTorrents == old(maxTorrents) && changed
      ensures var r := Put(old(entries), maxTorrents, Entry(converter.toPath(srcFile), converter.toPath(torrentFile)));
              entries == r.entries && notified == old(notified) + Notices(converter, listening, r.evicted)
    {
      var e := Entry(converter.toPath(srcFile), converter.toPath(torrentFile));
      changed := true;
      PutSpec(entries, maxTorrents, e);
      var r := Put(entries, maxTorrents, e);
      entries := r.entries;
      notified := notified + Notices(converter, listening, r.evicted);
    }

    /** notifyOnRemove: the notice reaches the listener when there is one. */
    method NotifyOnRemove(r: Removal)
      modifies this
      ensures notified == old(notified) + (if listening then [r] else [])
      ensures entries == old(entries) && maxTorrents == old(maxTorrents) && changed == old(changed)
    {
      if listening {
        notified := notified + [r];
      }
    }

    /** removeSrcFile: the pair of the file's stored path is dropped; only a
        pair that was there marks the database changed and is reported, with
        the given file and the torrent file it had. */
    method RemoveSrcFile(srcFile: File)
      requires Valid()
      modifies this
      ensures Valid() && maxTorrents == old(maxTorrents)
      ensures var key := converter.toPath(srcFile);
              var removed := Lookup(old(entries), key);
              && entries == Without(old(entries), key)
              && changed == (old(changed) || removed.Some?)
              && notified == old(notified)
                 + (if listening && removed.Some? then [Removal(srcFile, converter.toFile(removed.value))] else [])
    {
      var path := converter.toPath(srcFile);
      var removed := Lookup(entries, path);
      RemoveSpec(entries, path);
      entries := Without(entries, path);
      if removed.Some? {
        changed := true;
        NotifyOnRemove(Removal(srcFile, converter.toFile(removed.value)));
      }
    }

    /** The loop of setMaxTorrents: every pair of `sorted`, looked up in
        the current cache, is put in order into a fresh cache of capacity
        `n`, whose evictions are reported. The current cache is only read. */
    method RebuildCache(sorted: seq<Entry>, n: nat) returns (newCache: seq<Entry>)
      requires DistinctKeys(entries) && DistinctKeys(sorted)
      requires forall e :: e in sorted ==> e in entries
      modifies this
      ensures entries == old(entries) && maxTorrents == old(maxTorrents) && changed == old(changed)
      ensures var d := if |sorted| > n then |sorted| - n else 0;
              && newCache == sorted[d..] && DistinctKeys(newCache) && |newCache| <= n
              && notified == old(notified) + Notices(converter, listening, sorted[..d])
    {
      newCache := [];
      ghost var evicted: seq<Entry> := [];
      var i := 0;
      while i < |sorted|
        invariant 0 <= i <= |sorted|
        invariant entries == old(entries) && maxTorrents == old(maxTorrents) && changed == old(changed)
        invariant PutAll([], n, sorted[..i]) == PutOutcome(newCache, evicted)
        invariant notified == old(notified) + Notices(converter, listening, evicted)
      {
        var src := sorted[i].key;
        assert sorted[i] in sorted;
        LookupDistinct(entries, sorted[i]);
        var torrent := Lookup(entries, src).value;
        assert Entry(src, torrent) == sorted[i];
        var step := Put(newCache, n, Entry(src, torrent));
        TakeSnoc(sorted, i + 1);
        RebuildStep(converter, listening, n, sorted[..i], sorted[i], newCache, evicted, old(notified));
        newCache := step.entries;
        notified := notified + Notices(converter, listening, step.evicted);
        evicted := evicted + step.evicted;
        i := i + 1;
      }
      assert sorted[..|sorted|] == sorted;
      ShrinkKeepsNewest(sorted, n);
    }

    /** setMaxTorrents: a new cache of the new limit receives the pairs in
        sorted order, so it keeps the newest ones and evicts (and reports)
        the oldest. A negative limit makes the cache constructor throw, and
        nothing changes. */
    method SetMaxTorrents(n: int, fs: FileSystem) returns (ok: bool)
      requires Valid()
      modifies this
      ensures Valid() && ok == (n >= 0) && changed == old(changed)
      ensures !ok ==> entries == old(entries) && maxTorrents == old(maxTorrents) && notified == old(notified)
      ensures ok ==>
                var s := SortedEntries(converter, fs, old(entries));
                var d := if |s| > n then |s| - n else 0;
                && maxTorrents == n && entries == s[d..]
                && notified == old(notified) + Notices(converter, listening, s[..d])
    {
      if n < 0 {
        return false;
      }
      var sorted := SortedEntries(converter, fs, entries);
      SortedEntriesDistinct(converter, fs, entries);
      var newCache := RebuildCache(sorted, n);
      entries := newCache;
      maxTorrents := n;
      ok := true;
    }

    /** cleanupBrokenFiles: the pairs whose source or torrent is not a
        regular file are found on a snapshot, their keys removed, the
        database marked changed when there were any, and each reported; the
        broken pairs' torrent files are returned. */
    method CleanupBrokenFiles(fs: FileSystem) returns (broken: seq<File>)
      requires Valid()
      modifies this
      ensures Valid() && maxTorrents == old(maxTorrents)
      ensures var b := BrokenEntries(converter, fs, old(entries));
              && entries == HealthyEntries(converter, fs, old(entries))
              && changed == (old(changed) || b != [])
              && notified == old(notified) + Notices(converter, listening, b)
              && |broken| == |b|
              && forall i :: 0 <= i < |b| ==> broken[i] == converter.toFile(b[i].value)
    {
      var copy := entries;
      var toRemove: seq<Entry> := [];
      broken := [];
      var i := 0;
      while i < |copy|
        invariant 0 <= i <= |copy|
        invariant toRemove == BrokenEntries(converter, fs, copy[..i])
        invariant |broken| == |toRemove|
        invariant forall k :: 0 <= k < |toRemove| ==> broken[k] == converter.toFile(toRemove[k].value)
      {
        assert copy[..i + 1] == copy[..i] + [copy[i]];
        var e := copy[i];
        var srcFile := converter.toFile(e.key);
        var torrentFile := converter.toFile(e.value);
        if !IsFile(fs, srcFile) || !IsFile(fs, torrentFile) {
          toRemove := toRemove + [e];
          broken := broken + [torrentFile];
        }
        i := i + 1;
      }
      assert copy[..|copy|] == copy;
      if toRemove != [] {
        changed := true;
      }
      RemoveBrokenKeys(converter, fs, copy);
      entries := RemoveKeys(entries, KeySet(toRemove));
      HealthyValid(copy, fs);
      NotifyRemovals(toRemove);
    }

    /** The listener hears of each removed pair, in order. */
    method NotifyRemovals(removed: seq<Entry>)
      modifies this
      ensures notified == old(notified) + Notices(converter, listening, removed)
      ensures entries == old(entries) && maxTorrents == old(maxTorrents) && changed == old(changed)
    {
      var j := 0;
      while j < |removed|
        invariant 0 <= j <= |removed|
        invariant entries == old(entries) && maxTorrents == old(maxTorrents) && changed == old(changed)
        invariant notified == old(notified) + Notices(converter, listening, removed[..j])
      {
        assert removed[..j + 1] == removed[..j] + [removed[j]];
        var r := Removal(converter.toFile(removed[j].key), converter.toFile(removed[j].value));
        NoticesAppend(converter, listening, removed[..j], [removed[j]]);
        assert Notices(converter, listening, [removed[j]]) == if listening then [r] else [];
        AppendAssoc(old(notified), Notices(converter, listening, removed[..j]), Notices(converter, listening, [removed[j]]));
        NotifyOnRemove(r);
        j := j + 1;
      }
      assert removed[..|removed|] == removed;
    }

    /** The healthy pairs of a valid map form a valid map. */
    lemma HealthyValid(es: seq<Entry>, fs: FileSystem)
      requires DistinctKeys(es) && |es| <= maxTorrents
      ensures DistinctKeys(HealthyEntries(converter, fs, es))
      ensures |HealthyEntries(converter, fs, es)| <= maxTorrents
    {
      BrokenHealthyPartition(converter, fs, es);
      FilterDistinct(es, HealthyTest(converter, fs));
    }

    /** getFileAndTorrentMap: the files of every pair; the map itself is
        left as it is. */
    method GetFileAndTorrentMap() returns (m: map<File, File>)
      ensures m == FileMap(converter, entries)
    {
      m := map[];
      var i := 0;
      while i < |entries|
        invariant 0 <= i <= |entries|
        invariant m == FileMap(converter, entries[..i])
      {
        assert entries[..i + 1][..i] == entries[..i];
        m := m[converter.toFile(entries[i].key) := converter.toFile(entries[i].value)];
        i := i + 1;
      }
      assert entries[..|entries|] == entries;
    }

    /** flush: nothing happens when the database has not changed; otherwise
        the parent directory must exist or be created and the file must
        open, and then one line per pair is written in sorted order. Each
        pair is read with `get`, so the map ends up in sorted order, and the
        database is marked unchanged. */
    method Flush(dirReady: bool, canOpen: bool, fs: FileSystem) returns (outcome: FlushOutcome)
      requires Valid()
      modifies this
      ensures Valid() && maxTorrents == old(maxTorrents) && notified == old(notified)
      ensures !old(changed) ==> outcome == NothingToFlush && entries == old(entries) && !changed
      ensures old(changed) && !dirReady ==> outcome == DirectoryNotCreated && entries == old(entries) && changed
      ensures old(changed) && dirReady && !canOpen ==> outcome == NotOpened && entries == old(entries) && changed
      ensures old(changed) && dirReady && canOpen ==>
                var s := SortedEntries(converter, fs, old(entries));
                outcome == Written(Lines(s)) && entries == s && !changed
    {
      if !changed {
        return NothingToFlush;
      }
      if !dirReady {
        return DirectoryNotCreated;
      }
      if !canOpen {
        return NotOpened;
      }
      var sorted := SortedEntries(converter, fs, entries);
      SortedEntriesDistinct(converter, fs, entries);
      var lines := WriteSorted(sorted);
      changed := false;
      outcome := Written(lines);
    }

    /** flush's loop: one line per pair of `sorted`, each pair read with
        `get`, which moves it to the most recent end; `sorted` holds the
        cache's own entries in another order, so the cache ends up in that
        order. */
    method WriteSorted(sorted: seq<Entry>) returns (lines: seq<string>)
      requires Valid() && DistinctKeys(sorted)
      requires forall e :: e in sorted <==> e in entries
      modifies this
      ensures lines == Lines(sorted) && entries == sorted
      ensures maxTorrents == old(maxTorrents) && notified == old(notified) && changed == old(changed)
    {
      ghost var before := entries;
      lines := [];
      var i := 0;
      while i < |sorted|
        invariant 0 <= i <= |sorted|
        invariant entries == TouchAll(before, sorted[..i])
        invariant lines == Lines(sorted[..i])
        invariant maxTorrents == old(maxTorrents) && notified == old(notified) && changed == old(changed)
      {
        var src := sorted[i].key;
        TouchAllNextLookup(before, sorted, i);
        var torrent := Lookup(entries, src).value;
        assert torrent == sorted[i].value;
        ghost var next := sorted[..i + 1];
        assert next[..i] == sorted[..i] && next[i] == sorted[i];
        assert TouchAll(before, next) == Touch(entries, src);
        assert Lines(next) == lines + [Line(sorted[i])];
        entries := Touch(entries, src);
        lines := lines + [src + Separator + torrent];
        i := i + 1;
      }
      assert sorted[..|sorted|] == sorted;
      TouchAllReorders(before, sorted);
    }
  }

  /** `new TorrentFilesDB(file, maxTorrents, ...)` for any int limit: a
      negative one makes createCache's `new LinkedHashMap` throw
      IllegalArgumentException, so no database is made (None); any other
      builds it as the constructor does. */
  method Open(dbLines: Option<seq<string>>, maxTorrents: int, pathConverter: Option<PathConverter>, listening: bool, userDir: File)
    returns (db: Option<TorrentFilesDB>)
    ensures db.None? <==> maxTorrents < 0
    ensures db.Some? ==>
              var d := db.value;
              var loaded := if dbLines.Some? then LoadedEntries(d.converter, dbLines.value) else [];
              var r := PutAll([], maxTorrents, loaded);
              && fresh(d) && d.Valid() && d.maxTorrents == maxTorrents && d.listening == listening
              && d.converter == (if pathConverter.Some? then pathConverter.value else SimplePathConverter(userDir))
              && d.entries == r.entries
              && d.notified == Notices(d.converter, listening, r.evicted)
              && d.changed == (loaded != [])
  {
    if maxTorrents < 0 {
      return None;
    }
    var d := new TorrentFilesDB(dbLines, maxTorrents, pathConverter, listening, userDir);
    return Some(d);
  }
}
