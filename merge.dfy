/**
 * The merge of the stream buffer with the polled REST snapshot that the
 * Alerts and Activities pages perform (src/pages/Alerts.jsx:32-38,
 * src/pages/Activities.jsx:35-41): concatenate realtime then snapshot, keep
 * the entry at index i only when `findIndex` of its id is i, then sort by
 * timestamp, newest first.
 */
module Merge {
  import opened Seqs
  import opened StableSort

  /** `s.findIndex(y => id(y) === k)`: the first position holding id `k`, or -1. */
  function FindIndex<T, K(==)>(s: seq<T>, id: T -> K, k: K): (r: int)
    ensures -1 <= r < |s|
    ensures r == -1 ==> forall j :: 0 <= j < |s| ==> id(s[j]) != k
    ensures 0 <= r ==> id(s[r]) == k && forall j :: 0 <= j < r ==> id(s[j]) != k
  {
    if s == [] then -1
    else if id(s[0]) == k then 0
    else
      var r := FindIndex(s[1..], id, k);
      if r == -1 then -1 else r + 1
  }

  /** The first occurrence of an id in `a + b` is its first occurrence in `a`, if it has one. */
  lemma FindIndexInPrefix<T, K>(a: seq<T>, b: seq<T>, id: T -> K, k: K)
    requires FindIndex(a, id, k) >= 0
    ensures FindIndex(a + b, id, k) == FindIndex(a, id, k)
  {
    var f := FindIndex(a, id, k);
    var g := FindIndex(a + b, id, k);
    assert forall j :: 0 <= j < |a| ==> (a + b)[j] == a[j];
    assert g != -1;
  }

  /** The filter step of the merge, from index `i` on. */
  function KeepFirstFrom<T, K(==)>(s: seq<T>, id: T -> K, i: nat): (r: seq<T>)
    requires i <= |s|
    ensures |r| <= |s| - i
    decreases |s| - i
  {
    if i == |s| then []
    else
      var rest := KeepFirstFrom(s, id, i + 1);
      if FindIndex(s, id, id(s[i])) == i then [s[i]] + rest else rest
  }

  /**
   * From index `i` on, the filter keeps exactly the first occurrences: each kept
   * entry is the first with its id, and no two kept entries share an id.
   */
  lemma {:induction false} KeepFirstFromSpec<T, K>(s: seq<T>, id: T -> K, i: nat)
    requires i <= |s|
    ensures var r := KeepFirstFrom(s, id, i);
      && UniqueBy(r, id)
      && (forall y :: y in r ==> i <= FindIndex(s, id, id(y)) && s[FindIndex(s, id, id(y))] == y)
      && (forall j :: i <= j < |s| && FindIndex(s, id, id(s[j])) == j ==> s[j] in r)
    decreases |s| - i
  {
    if i < |s| {
      KeepFirstFromSpec(s, id, i + 1);
      var rest := KeepFirstFrom(s, id, i + 1);
      var r := KeepFirstFrom(s, id, i);
      if FindIndex(s, id, id(s[i])) == i {
        assert r == [s[i]] + rest;
        KeepFirstStep(s, id, i, rest);
        forall j | i < j < |s| && FindIndex(s, id, id(s[j])) == j ensures s[j] in r {
          assert s[j] in rest;
        }
      } else {
        assert r == rest;
        forall j | i <= j < |s| && FindIndex(s, id, id(s[j])) == j ensures s[j] in r {
          assert j != i;
        }
      }
    }
  }

  /** Keeping `s[i]`, the first with its id, in front of the entries kept after it. */
  lemma KeepFirstStep<T, K>(s: seq<T>, id: T -> K, i: nat, rest: seq<T>)
    requires i < |s| && FindIndex(s, id, id(s[i])) == i
    requires UniqueBy(rest, id)
    requires forall y :: y in rest ==> i + 1 <= FindIndex(s, id, id(y)) && s[FindIndex(s, id, id(y))] == y
    ensures UniqueBy([s[i]] + rest, id)
    ensures forall y :: y in [s[i]] + rest ==> i <= FindIndex(s, id, id(y)) && s[FindIndex(s, id, id(y))] == y
  {
    forall y | y in rest ensures id(y) != id(s[i]) {
      assert i + 1 <= FindIndex(s, id, id(y));
    }
    UniqueByCons(s[i], rest, id);
    assert forall y :: y in [s[i]] + rest <==> y == s[i] || y in rest;
  }

  /** `s.filter((x, i, self) => i === self.findIndex(y => y.id === x.id))` */
  function KeepFirst<T, K(==)>(s: seq<T>, id: T -> K): (r: seq<T>)
    ensures UniqueBy(r, id)
    ensures forall y :: y in r ==> 0 <= FindIndex(s, id, id(y)) && s[FindIndex(s, id, id(y))] == y
  {
    KeepFirstFromSpec(s, id, 0);
    KeepFirstFrom(s, id, 0)
  }

  /** The filter keeps the order of its input: from index `i` on, a subsequence of `s[i..]`. */
  lemma {:induction false} KeepFirstFromOrder<T, K>(s: seq<T>, id: T -> K, i: nat)
    requires i <= |s|
    ensures IsSubsequence(KeepFirstFrom(s, id, i), s[i..])
    decreases |s| - i
  {
    if i < |s| {
      KeepFirstFromOrder(s, id, i + 1);
      var rest := KeepFirstFrom(s, id, i + 1);
      assert s[i..][0] == s[i] && s[i..][1..] == s[i + 1..];
      if FindIndex(s, id, id(s[i])) == i {
        assert KeepFirstFrom(s, id, i) == [s[i]] + rest;
        assert ([s[i]] + rest)[1..] == rest;
      }
    }
  }

  /** The kept entries appear in the order they have in the input. */
  lemma KeepFirstKeepsOrder<T, K>(s: seq<T>, id: T -> K)
    ensures IsSubsequence(KeepFirst(s, id), s)
  {
    KeepFirstFromOrder(s, id, 0);
    assert s[0..] == s;
  }

  /** Every id present in the input survives the filter. */
  lemma KeepFirstCovers<T, K>(s: seq<T>, id: T -> K, x: T)
    requires x in s
    ensures exists y :: y in KeepFirst(s, id) && id(y) == id(x)
  {
    var j :| 0 <= j < |s| && s[j] == x;
    var f := FindIndex(s, id, id(x));
    assert 0 <= f;
    assert FindIndex(s, id, id(s[f])) == f;
    KeepFirstFromSpec(s, id, 0);
    assert s[f] in KeepFirst(s, id);
  }

  /**
   * `allAlerts` / `allActivities`: realtime entries first, duplicates by id
   * dropped keeping the first, the rest sorted newest first.
   */
  function MergeFeeds<T, K(==)>(realtime: seq<T>, api: seq<T>, id: T -> K, time: T -> int): seq<T>
  {
    SortDesc(KeepFirst(realtime + api, id), time)
  }

  lemma InMerge<T, K>(realtime: seq<T>, api: seq<T>, id: T -> K, time: T -> int, y: T)
    ensures y in MergeFeeds(realtime, api, id, time) <==> y in KeepFirst(realtime + api, id)
  {
    var kept := KeepFirst(realtime + api, id);
    assert y in MergeFeeds(realtime, api, id, time) <==> y in multiset(kept);
  }

  /** What the pages rely on from the merged view. */
  lemma MergeFeedsSpec<T, K>(realtime: seq<T>, api: seq<T>, id: T -> K, time: T -> int)
    ensures var r := MergeFeeds(realtime, api, id, time);
      && SortedDesc(r, time)
      && UniqueBy(r, id)
      && |r| <= |realtime| + |api|
      && (forall y :: y in r ==> y in realtime || y in api)
      && (forall x :: x in realtime || x in api ==> exists y :: y in r && id(y) == id(x))
      && (forall y :: y in r && FindIndex(realtime, id, id(y)) >= 0 ==>
            y == realtime[FindIndex(realtime, id, id(y))])
  {
    var c := realtime + api;
    var kept := KeepFirst(c, id);
    var r := MergeFeeds(realtime, api, id, time);
    SortDescUnique(kept, time, id);
    assert |r| == |kept| by {
      assert |multiset(r)| == |multiset(kept)|;
    }
    forall y | y in r ensures y in realtime || y in api {
      InMerge(realtime, api, id, time, y);
      assert y in c;
    }
    forall x | x in realtime || x in api ensures exists y :: y in r && id(y) == id(x) {
      assert x in c;
      KeepFirstCovers(c, id, x);
      var y :| y in kept && id(y) == id(x);
      InMerge(realtime, api, id, time, y);
    }
    forall y | y in r && FindIndex(realtime, id, id(y)) >= 0
      ensures y == realtime[FindIndex(realtime, id, id(y))]
    {
      InMerge(realtime, api, id, time, y);
      FindIndexInPrefix(realtime, api, id, id(y));
      var f := FindIndex(realtime, id, id(y));
      assert c[f] == realtime[f];
    }
  }

  /** Entries of the merged view that share a timestamp keep their concatenation order. */
  lemma MergeFeedsStable<T, K>(realtime: seq<T>, api: seq<T>, id: T -> K, time: T -> int, t: int)
    ensures Filter(MergeFeeds(realtime, api, id, time), (x: T) => time(x) == t)
         == Filter(KeepFirst(realtime + api, id), (x: T) => time(x) == t)
  {
    SortDescKeepsTieOrder(KeepFirst(realtime + api, id), time, t);
  }
}
