/** Views of a list of pairs that do not depend on what the pairs mean: the
    pairs passing a test, the pairs whose key is not in a set, and the map a
    list of pairs builds when a later pair overrides an earlier one. */
module EntryLists {
  import opened LinkedCache

  /** The pairs that pass `p`, in their order. */
  function Filter(es: seq<Entry>, p: Entry -> bool): seq<Entry>
    decreases |es|
  {
    if es == [] then []
    else
      var last := es[|es| - 1];
      Filter(es[..|es| - 1], p) + (if p(last) then [last] else [])
  }

  lemma {:induction false} FilterMember(es: seq<Entry>, p: Entry -> bool, e: Entry)
    ensures e in Filter(es, p) <==> e in es && p(e)
    decreases |es|
  {
    if es != [] {
      FilterMember(es[..|es| - 1], p, e);
      assert es == es[..|es| - 1] + [es[|es| - 1]];
    }
  }

  /** A list whose pairs all pass the test is its own filtering. */
  lemma {:induction false} FilterAll(es: seq<Entry>, p: Entry -> bool)
    requires forall e :: e in es ==> p(e)
    ensures Filter(es, p) == es
    decreases |es|
  {
    if es != [] {
      var init := es[..|es| - 1];
      assert es[|es| - 1] in es;
      assert forall e :: e in init ==> e in es;
      FilterAll(init, p);
      assert es == init + [es[|es| - 1]];
    }
  }

  /** Filtering twice by the same test changes nothing the second time. */
  lemma FilterTwice(es: seq<Entry>, p: Entry -> bool)
    ensures Filter(Filter(es, p), p) == Filter(es, p)
  {
    forall e | e in Filter(es, p) ensures p(e) {
      FilterMember(es, p, e);
    }
    FilterAll(Filter(es, p), p);
  }

  /** A test and its negation split the list: every pair lands on exactly
      one side. */
  lemma {:induction false} FilterComplement(es: seq<Entry>, p: Entry -> bool, q: Entry -> bool)
    requires forall e :: e in es ==> q(e) == !p(e)
    ensures |Filter(es, p)| + |Filter(es, q)| == |es|
    decreases |es|
  {
    if es != [] {
      var init := es[..|es| - 1];
      assert es[|es| - 1] in es;
      assert forall e :: e in init ==> e in es;
      FilterComplement(init, p, q);
    }
  }

  /** `keySet().removeAll(keys)`: the pairs whose key is not in `keys`, in
      their order. */
  function RemoveKeys(es: seq<Entry>, keys: set<string>): seq<Entry>
    decreases |es|
  {
    if es == [] then []
    else
      var last := es[|es| - 1];
      RemoveKeys(es[..|es| - 1], keys) + (if last.key in keys then [] else [last])
  }

  /** Removing the keys of the pairs that fail a test keeps exactly the pairs
      that pass it, provided no passing pair shares a key with a failing one. */
  lemma {:induction false} RemoveKeysFilter(es: seq<Entry>, keys: set<string>, p: Entry -> bool)
    requires forall e :: e in es ==> (e.key in keys <==> !p(e))
    ensures RemoveKeys(es, keys) == Filter(es, p)
    decreases |es|
  {
    if es != [] {
      var init := es[..|es| - 1];
      assert es[|es| - 1] in es;
      assert forall e :: e in init ==> e in es;
      RemoveKeysFilter(init, keys, p);
    }
  }

  function KeySet(es: seq<Entry>): set<string> {
    set e | e in es :: e.key
  }

  lemma KeySetSnoc(es: seq<Entry>, x: Entry)
    ensures KeySet(es + [x]) == KeySet(es) + {x.key}
  {
    assert forall e :: e in es + [x] <==> e in es || e == x;
  }

  /** With distinct keys, a pair's key is a key of the filtered pairs exactly
      when the pair passes the test. */
  lemma FilterKeysExact(es: seq<Entry>, p: Entry -> bool)
    requires DistinctKeys(es)
    ensures forall e :: e in es ==> (e.key in KeySet(Filter(es, p)) <==> p(e))
  {
    var kept := Filter(es, p);
    forall e | e in es
      ensures e.key in KeySet(kept) <==> p(e)
    {
      FilterMember(es, p, e);
      if e.key in KeySet(kept) {
        var b :| b in kept && b.key == e.key;
        FilterMember(es, p, b);
        var i :| 0 <= i < |es| && es[i] == e;
        var j :| 0 <= j < |es| && es[j] == b;
        assert i == j;
      }
    }
  }

  /** Filtering keeps the keys distinct and drops no more than it has. */
  lemma {:induction false} FilterDistinct(es: seq<Entry>, p: Entry -> bool)
    requires DistinctKeys(es)
    ensures DistinctKeys(Filter(es, p)) && |Filter(es, p)| <= |es|
    decreases |es|
  {
    if es != [] {
      var init := es[..|es| - 1];
      var last := es[|es| - 1];
      assert DistinctKeys(init);
      FilterDistinct(init, p);
      if p(last) {
        var f := Filter(init, p);
        assert !HasKey(f, last.key) by {
          forall k | 0 <= k < |f| ensures Keys(f)[k] != last.key {
            assert f[k] in f;
            FilterMember(init, p, f[k]);
            var m :| 0 <= m < |init| && init[m] == f[k];
            assert es[m] == f[k];
          }
        }
        ConsDistinctEnd(f, last);
      }
    }
  }

  /** The map built by putting `f(key) := f(value)` for every pair in order. */
  function PairMap(es: seq<Entry>, f: string -> string): map<string, string>
    decreases |es|
  {
    if es == [] then map[]
    else
      var last := es[|es| - 1];
      PairMap(es[..|es| - 1], f)[f(last.key) := f(last.value)]
  }

  /** The map's keys are exactly the images of the pairs' keys. */
  lemma {:induction false} PairMapDomain(es: seq<Entry>, f: string -> string)
    ensures PairMap(es, f).Keys == set e | e in es :: f(e.key)
    decreases |es|
  {
    if es != [] {
      var init := es[..|es| - 1];
      var last := es[|es| - 1];
      PairMapDomain(init, f);
      assert es == init + [last];
      assert forall e :: e in es <==> e in init || e == last;
    }
  }

  /** When no two pairs' keys have the same image, every pair's key image
      maps to its own value image. */
  lemma {:induction false} PairMapInjective(es: seq<Entry>, f: string -> string)
    requires forall i, j :: 0 <= i < j < |es| ==> f(es[i].key) != f(es[j].key)
    ensures forall e :: e in es ==> f(e.key) in PairMap(es, f) && PairMap(es, f)[f(e.key)] == f(e.value)
    decreases |es|
  {
    if es != [] {
      var init := es[..|es| - 1];
      var last := es[|es| - 1];
      assert forall e :: e in es <==> e in init || e == last by {
        assert es == init + [last];
      }
      PairMapInjective(init, f);
      forall e | e in init ensures f(e.key) != f(last.key) {
        var i :| 0 <= i < |init| && init[i] == e;
        assert es[i] == e;
      }
    }
  }
}
