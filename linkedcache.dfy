/** java.util.LinkedHashMap built with accessOrder = true and a
    removeEldestEntry that evicts once the size exceeds a limit, which is how
    the torrent database keeps its entries. The map is the sequence of its
    entries in access order, the least recently accessed first. */
module LinkedCache {
  import opened Wrappers
  import opened Text

  datatype Entry = Entry(key: string, value: string)

  /** The entries a put leaves, and the eldest entries it evicted (each
      eviction goes to the cache listener). */
  datatype PutOutcome = PutOutcome(entries: seq<Entry>, evicted: seq<Entry>)

  function Keys(es: seq<Entry>): (ks: seq<string>)
    ensures |ks| == |es|
  {
    seq(|es|, i requires 0 <= i < |es| => es[i].key)
  }

  predicate HasKey(es: seq<Entry>, k: string) {
    k in Keys(es)
  }

  predicate DistinctKeys(es: seq<Entry>) {
    forall i, j :: 0 <= i < j < |es| ==> es[i].key != es[j].key
  }

  lemma KeysAppend(a: seq<Entry>, b: seq<Entry>)
    ensures Keys(a + b) == Keys(a) + Keys(b)
  {
    assert forall i :: 0 <= i < |a| + |b| ==> Keys(a + b)[i] == (Keys(a) + Keys(b))[i];
  }

  lemma KeysTail(es: seq<Entry>)
    requires es != []
    ensures Keys(es) == [es[0].key] + Keys(es[1..])
  {
    assert forall i :: 0 <= i < |es| ==> Keys(es)[i] == ([es[0].key] + Keys(es[1..]))[i];
  }

  lemma HasKeyOfMember(es: seq<Entry>, e: Entry)
    requires e in es
    ensures HasKey(es, e.key)
  {
    var i :| 0 <= i < |es| && es[i] == e;
    assert Keys(es)[i] == e.key;
  }

  /** `map.get(k)`, leaving the order aside. */
  function Lookup(es: seq<Entry>, k: string): (r: Option<string>)
    ensures r.None? <==> !HasKey(es, k)
    ensures r.Some? ==> Entry(k, r.value) in es
  {
    if es == [] then None
    else
      KeysTail(es);
      if es[0].key == k then Some(es[0].value)
      else Lookup(es[1..], k)
  }

  /** In a map with distinct keys, the entry with key `k` gives the value. */
  lemma LookupDistinct(es: seq<Entry>, e: Entry)
    requires DistinctKeys(es) && e in es
    ensures Lookup(es, e.key) == Some(e.value)
  {
    HasKeyOfMember(es, e);
    var v := Lookup(es, e.key).value;
    var i :| 0 <= i < |es| && es[i] == e;
    var j :| 0 <= j < |es| && es[j] == Entry(e.key, v);
    assert i == j;
  }

  lemma DistinctTail(es: seq<Entry>)
    requires DistinctKeys(es) && es != []
    ensures DistinctKeys(es[1..]) && !HasKey(es[1..], es[0].key)
  {
  }

  lemma ConsDistinct(x: Entry, rest: seq<Entry>)
    requires DistinctKeys(rest) && !HasKey(rest, x.key)
    ensures DistinctKeys([x] + rest)
  {
    var s := [x] + rest;
    forall i, j | 0 <= i < j < |s| ensures s[i].key != s[j].key {
      assert s[j] == rest[j - 1];
      assert Keys(rest)[j - 1] == rest[j - 1].key;
      if i > 0 {
        assert s[i] == rest[i - 1];
      }
    }
  }

  /** The entries whose key is not `k`, in their order. */
  function Without(es: seq<Entry>, k: string): (r: seq<Entry>)
    ensures |r| <= |es|
  {
    if es == [] then []
    else (if es[0].key == k then [] else [es[0]]) + Without(es[1..], k)
  }

  lemma {:induction false} WithoutMembers(es: seq<Entry>, k: string, e: Entry)
    ensures e in Without(es, k) <==> e in es && e.key != k
  {
    if es != [] {
      WithoutMembers(es[1..], k, e);
    }
  }

  lemma {:induction false} WithoutKeys(es: seq<Entry>, k: string, k': string)
    ensures HasKey(Without(es, k), k') <==> HasKey(es, k') && k' != k
  {
    if es != [] {
      WithoutKeys(es[1..], k, k');
      KeysTail(es);
      var rest := Without(es[1..], k);
      if es[0].key != k {
        assert Without(es, k) == [es[0]] + rest;
        KeysAppend([es[0]], rest);
        assert Keys([es[0]]) == [es[0].key];
      } else {
        assert Without(es, k) == rest;
      }
    }
  }

  lemma {:induction false} WithoutAbsent(es: seq<Entry>, k: string)
    requires !HasKey(es, k)
    ensures Without(es, k) == es
  {
    if es != [] {
      KeysTail(es);
      WithoutAbsent(es[1..], k);
    }
  }

  lemma {:induction false} WithoutDistinct(es: seq<Entry>, k: string)
    requires DistinctKeys(es)
    ensures DistinctKeys(Without(es, k))
    ensures HasKey(es, k) ==> |Without(es, k)| == |es| - 1
  {
    if es != [] {
      DistinctTail(es);
      KeysTail(es);
      WithoutDistinct(es[1..], k);
      var rest := Without(es[1..], k);
      if es[0].key != k {
        WithoutKeys(es[1..], k, es[0].key);
        ConsDistinct(es[0], rest);
      } else {
        WithoutAbsent(es[1..], k);
      }
    }
  }

  /** `map.get(k)` on an access-ordered map: a present entry becomes the most
      recently accessed one. */
  function Touch(es: seq<Entry>, k: string): seq<Entry> {
    match Lookup(es, k)
    case None => es
    case Some(v) => Without(es, k) + [Entry(k, v)]
  }

  /** `map.put(e.key, e.value)`: an existing key gets the new value and becomes
      the most recent entry, with no eviction; a new key is appended, and when
      the size then exceeds `max` the eldest entry is removed. */
  function Put(es: seq<Entry>, max: nat, e: Entry): PutOutcome {
    if HasKey(es, e.key) then PutOutcome(Without(es, e.key) + [e], [])
    else
      var grown := es + [e];
      if |grown| > max then PutOutcome(grown[1..], [grown[0]]) else PutOutcome(grown, [])
  }

  /** Puts `list` in order. */
  function PutAll(es: seq<Entry>, max: nat, list: seq<Entry>): PutOutcome
    decreases |list|
  {
    if list == [] then PutOutcome(es, [])
    else
      var before := PutAll(es, max, list[..|list| - 1]);
      var last := Put(before.entries, max, list[|list| - 1]);
      PutOutcome(last.entries, before.evicted + last.evicted)
  }

  /** Gets the keys of `list` in order. */
  function TouchAll(es: seq<Entry>, list: seq<Entry>): seq<Entry>
    decreases |list|
  {
    if list == [] then es else Touch(TouchAll(es, list[..|list| - 1]), list[|list| - 1].key)
  }

  /** The entries of `es` whose key is not a key of `list`, in their order. */
  function WithoutKeysOf(es: seq<Entry>, list: seq<Entry>): seq<Entry> {
    if es == [] then []
    else (if HasKey(list, es[0].key) then [] else [es[0]]) + WithoutKeysOf(es[1..], list)
  }

  lemma {:induction false} WithoutKeysOfMembers(es: seq<Entry>, list: seq<Entry>, e: Entry)
    ensures e in WithoutKeysOf(es, list) <==> e in es && !HasKey(list, e.key)
  {
    if es != [] {
      WithoutKeysOfMembers(es[1..], list, e);
    }
  }

  lemma {:induction false} LookupAppendOther(es: seq<Entry>, e: Entry, k: string)
    requires k != e.key
    ensures Lookup(es + [e], k) == Lookup(es, k)
  {
    if es != [] {
      assert (es + [e])[1..] == es[1..] + [e];
      LookupAppendOther(es[1..], e, k);
    }
  }

  lemma {:induction false} LookupWithout(es: seq<Entry>, k: string, k': string)
    requires k' != k
    ensures Lookup(Without(es, k), k') == Lookup(es, k')
  {
    if es != [] {
      LookupWithout(es[1..], k, k');
      var rest := Without(es[1..], k);
      if es[0].key == k {
        assert Without(es, k) == rest;
      } else {
        var w := [es[0]] + rest;
        assert Without(es, k) == w;
        assert w[0] == es[0] && w[1..] == rest;
      }
    }
  }

  lemma {:induction false} WithoutAppend(a: seq<Entry>, b: seq<Entry>, k: string)
    ensures Without(a + b, k) == Without(a, k) + Without(b, k)
  {
    if a != [] {
      var h := if a[0].key == k then [] else [a[0]];
      assert (a + b)[0] == a[0];
      assert (a + b)[1..] == a[1..] + b;
      WithoutAppend(a[1..], b, k);
      assert Without(a + b, k) == h + Without(a[1..] + b, k);
      assert Without(a, k) == h + Without(a[1..], k);
    } else {
      assert a + b == b;
    }
  }

  lemma {:induction false} WithoutOfWithoutKeys(es: seq<Entry>, list: seq<Entry>, x: Entry)
    ensures Without(WithoutKeysOf(es, list), x.key) == WithoutKeysOf(es, list + [x])
  {
    if es != [] {
      WithoutOfWithoutKeys(es[1..], list, x);
      KeysAppend(list, [x]);
      assert Keys([x]) == [x.key];
      assert HasKey(list + [x], es[0].key) <==> HasKey(list, es[0].key) || es[0].key == x.key;
      var rest := WithoutKeysOf(es[1..], list);
      if HasKey(list, es[0].key) {
        assert WithoutKeysOf(es, list) == rest;
      } else {
        assert WithoutKeysOf(es, list) == [es[0]] + rest;
        WithoutAppend([es[0]], rest, x.key);
      }
    }
  }

  /** What a put does to the map: the size stays within the limit, at most
      the eldest entry is evicted and only when a new key meets a full cache,
      the put key then holds the new value as the most recent entry, and every
      other key keeps its value. */
  lemma PutSpec(es: seq<Entry>, max: nat, e: Entry)
    requires DistinctKeys(es) && |es| <= max
    ensures var r := Put(es, max, e);
            && DistinctKeys(r.entries) && |r.entries| <= max
            && (r.evicted == [] <==> HasKey(es, e.key) || |es| < max)
            && (r.evicted != [] ==> r.evicted == [(es + [e])[0]] && !HasKey(r.entries, r.evicted[0].key))
            && (r.evicted == [] ==> |r.entries| > 0 && r.entries[|r.entries| - 1] == e
                                    && Lookup(r.entries, e.key) == Some(e.value))
            && (forall k :: k != e.key && (forall x :: x in r.evicted ==> x.key != k) ==>
                  Lookup(r.entries, k) == Lookup(es, k))
  {
    var r := Put(es, max, e);
    if HasKey(es, e.key) {
      var w := Without(es, e.key);
      WithoutDistinct(es, e.key);
      WithoutKeys(es, e.key, e.key);
      ConsDistinctEnd(w, e);
      forall k | k != e.key
        ensures Lookup(r.entries, k) == Lookup(es, k)
      {
        LookupAppendOther(w, e, k);
        LookupWithout(es, e.key, k);
      }
      LastLookup(w, e);
    } else {
      var grown := es + [e];
      ConsDistinctEnd(es, e);
      forall k | k != e.key
        ensures Lookup(grown, k) == Lookup(es, k)
      {
        LookupAppendOther(es, e, k);
      }
      if |grown| > max {
        DistinctTail(grown);
        forall k | k != e.key && k != grown[0].key
          ensures Lookup(r.entries, k) == Lookup(es, k)
        {
          assert Lookup(grown, k) == Lookup(grown[1..], k);
        }
      } else {
        LastLookup(es, e);
      }
    }
  }

  lemma ConsDistinctEnd(es: seq<Entry>, e: Entry)
    requires DistinctKeys(es) && !HasKey(es, e.key)
    ensures DistinctKeys(es + [e])
  {
    var s := es + [e];
    forall i, j | 0 <= i < j < |s| ensures s[i].key != s[j].key {
      assert s[i] == es[i];
      assert Keys(es)[i] == es[i].key;
    }
  }

  lemma LastLookup(es: seq<Entry>, e: Entry)
    requires !HasKey(es, e.key)
    ensures Lookup(es + [e], e.key) == Some(e.value)
  {
    LookupAfterAbsent(es, [e], e.key);
  }

  lemma {:induction false} LookupAfterAbsent(a: seq<Entry>, b: seq<Entry>, k: string)
    requires !HasKey(a, k)
    ensures Lookup(a + b, k) == Lookup(b, k)
  {
    if a != [] {
      KeysTail(a);
      assert (a + b)[1..] == a[1..] + b;
      LookupAfterAbsent(a[1..], b, k);
    } else {
      assert a + b == b;
    }
  }

  /** Puts of distinct keys into an empty cache keep the newest `max`
      entries, in order, and evict the older ones oldest first. */
  lemma {:induction false} PutAllKeepsNewest(max: nat, list: seq<Entry>)
    requires DistinctKeys(list)
    ensures var d := if |list| > max then |list| - max else 0;
            PutAll([], max, list) == PutOutcome(list[d..], list[..d])
  {
    if list != [] {
      var init := list[..|list| - 1];
      var x := list[|list| - 1];
      assert DistinctKeys(init);
      PutAllKeepsNewest(max, init);
      var d0 := if |init| > max then |init| - max else 0;
      var before := init[d0..];
      assert !HasKey(before, x.key) by {
        forall i | 0 <= i < |before| ensures Keys(before)[i] != x.key {
          assert before[i] == list[d0 + i];
        }
      }
      PutNewestStep(list, max, d0);
    }
  }

  lemma PutNewestStep(list: seq<Entry>, max: nat, d0: nat)
    requires list != []
    requires d0 == if |list| - 1 > max then |list| - 1 - max else 0
    requires !HasKey(list[d0..|list| - 1], list[|list| - 1].key)
    ensures var d := if |list| > max then |list| - max else 0;
            var r := Put(list[d0..|list| - 1], max, list[|list| - 1]);
            r.entries == list[d..] && list[..d0] + r.evicted == list[..d]
  {
    var before := list[d0..|list| - 1];
    var x := list[|list| - 1];
    var grown := before + [x];
    assert grown == list[d0..];
    var d := if |list| > max then |list| - max else 0;
    if |grown| > max {
      assert d == d0 + 1;
      assert grown[1..] == list[d..];
      assert list[..d0] + [grown[0]] == list[..d];
    } else {
      assert d == 0 && d0 == 0;
    }
  }

  /** Getting the keys of a reordering of the entries, one by one, leaves the
      map in exactly that order: the entries not yet got keep their order
      ahead of the ones already got. */
  lemma {:induction false} TouchAllPrefix(es: seq<Entry>, s: seq<Entry>, n: nat)
    requires DistinctKeys(es) && DistinctKeys(s)
    requires forall e :: e in s ==> e in es
    requires n <= |s|
    ensures TouchAll(es, s[..n]) == WithoutKeysOf(es, s[..n]) + s[..n]
  {
    if n == 0 {
      WithoutKeysOfNothing(es);
      assert s[..n] == [];
      assert es + [] == es;
    } else {
      var t := s[..n - 1];
      var x := s[n - 1];
      assert s[..n][..n - 1] == t;
      TouchAllPrefix(es, s, n - 1);
      assert TouchAll(es, s[..n]) == Touch(WithoutKeysOf(es, t) + t, x.key);
      assert !HasKey(t, x.key) by {
        forall i | 0 <= i < |t| ensures Keys(t)[i] != x.key {
          assert t[i] == s[i];
        }
      }
      TouchNext(es, t, x);
      TakeSnoc(s, n);
    }
  }

  /** Getting one more key, of an entry not got yet, moves that entry from
      the ones not yet got to the end. */
  lemma TouchNext(es: seq<Entry>, t: seq<Entry>, x: Entry)
    requires DistinctKeys(es) && x in es && !HasKey(t, x.key)
    ensures Touch(WithoutKeysOf(es, t) + t, x.key) == WithoutKeysOf(es, t + [x]) + (t + [x])
  {
    var rem := WithoutKeysOf(es, t);
    var cur := rem + t;
    var w := WithoutKeysOf(es, t + [x]);
    WithoutKeysOfMembers(es, t, x);
    WithoutKeysOfDistinct(es, t);
    LookupDistinct(rem, x);
    HasKeyOfMember(rem, x);
    LookupInPrefix(rem, t, x.key);
    assert Lookup(cur, x.key) == Some(x.value);
    WithoutAppend(rem, t, x.key);
    WithoutOfWithoutKeys(es, t, x);
    WithoutAbsent(t, x.key);
    assert Without(cur, x.key) == w + t;
    assert Touch(cur, x.key) == (w + t) + [x];
    AppendAssoc(w, t, [x]);
  }

  lemma {:induction false} WithoutKeysOfDistinct(es: seq<Entry>, list: seq<Entry>)
    requires DistinctKeys(es)
    ensures DistinctKeys(WithoutKeysOf(es, list))
  {
    if es != [] {
      DistinctTail(es);
      WithoutKeysOfDistinct(es[1..], list);
      var rest := WithoutKeysOf(es[1..], list);
      if !HasKey(list, es[0].key) {
        assert !HasKey(rest, es[0].key) by {
          if HasKey(rest, es[0].key) {
            var i :| 0 <= i < |rest| && Keys(rest)[i] == es[0].key;
            WithoutKeysOfMembers(es[1..], list, rest[i]);
            HasKeyOfMember(es[1..], rest[i]);
          }
        }
        ConsDistinct(es[0], rest);
      }
    }
  }

  lemma {:induction false} WithoutKeysOfNothing(es: seq<Entry>)
    ensures WithoutKeysOf(es, []) == es
  {
    if es != [] {
      WithoutKeysOfNothing(es[1..]);
    }
  }

  lemma {:induction false} LookupInPrefix(a: seq<Entry>, b: seq<Entry>, k: string)
    requires HasKey(a, k)
    ensures Lookup(a + b, k) == Lookup(a, k)
  {
    KeysTail(a);
    if a[0].key != k {
      assert (a + b)[1..] == a[1..] + b;
      LookupInPrefix(a[1..], b, k);
    }
  }

  /** Getting, in order, each key of a reordering of all entries leaves the
      map in that order. */
  lemma TouchAllReorders(es: seq<Entry>, s: seq<Entry>)
    requires DistinctKeys(es) && DistinctKeys(s)
    requires forall e :: e in s <==> e in es
    ensures TouchAll(es, s) == s
  {
    TouchAllPrefix(es, s, |s|);
    assert s[..|s|] == s;
    var rem := WithoutKeysOf(es, s);
    if rem != [] {
      WithoutKeysOfMembers(es, s, rem[0]);
      HasKeyOfMember(s, rem[0]);
    }
  }

  /** While a reordering is got key by key, the next key still holds the
      value it has in the reordering. */
  lemma TouchAllNextLookup(es: seq<Entry>, s: seq<Entry>, n: nat)
    requires DistinctKeys(es) && DistinctKeys(s)
    requires forall e :: e in s ==> e in es
    requires n < |s|
    ensures Lookup(TouchAll(es, s[..n]), s[n].key) == Some(s[n].value)
  {
    var t := s[..n];
    var x := s[n];
    TouchAllPrefix(es, s, n);
    var rem := WithoutKeysOf(es, t);
    assert !HasKey(t, x.key) by {
      forall i | 0 <= i < |t| ensures Keys(t)[i] != x.key {
        assert t[i] == s[i];
      }
    }
    WithoutKeysOfMembers(es, t, x);
    WithoutKeysOfDistinct(es, t);
    LookupDistinct(rem, x);
    HasKeyOfMember(rem, x);
    LookupInPrefix(rem, t, x.key);
  }

  /** `map.remove(k)`: the key is gone, the size drops by one exactly when
      it was there, the other keys keep their values and the keys stay
      distinct. */
  lemma RemoveSpec(es: seq<Entry>, k: string)
    requires DistinctKeys(es)
    ensures var r := Without(es, k);
            && DistinctKeys(r) && !HasKey(r, k)
            && |r| == (if HasKey(es, k) then |es| - 1 else |es|)
            && forall k' :: k' != k ==> Lookup(r, k') == Lookup(es, k')
  {
    WithoutDistinct(es, k);
    WithoutKeys(es, k, k);
    if !HasKey(es, k) {
      WithoutAbsent(es, k);
    }
    forall k' | k' != k ensures Lookup(Without(es, k), k') == Lookup(es, k') {
      LookupWithout(es, k, k');
    }
  }

  lemma DistinctSuffix(es: seq<Entry>, d: nat)
    requires DistinctKeys(es) && d <= |es|
    ensures DistinctKeys(es[d..])
  {
    forall i, j | 0 <= i < j < |es| - d ensures es[d..][i].key != es[d..][j].key {
      assert es[d..][i] == es[d + i] && es[d..][j] == es[d + j];
    }
  }
}
