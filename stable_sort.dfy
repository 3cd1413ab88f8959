/**
 * `Array.prototype.sort` with a descending comparator `(a, b) => key(b) - key(a)`.
 * ECMAScript 2019 requires `sort` to be stable, so elements with equal keys keep
 * their input order. Modelled as an insertion sort on values, because every
 * call site sorts a freshly built array.
 */
module StableSort {
  import opened Seqs

  predicate SortedDesc<T>(s: seq<T>, key: T -> int) {
    forall i, j :: 0 <= i < j < |s| ==> key(s[i]) >= key(s[j])
  }

  /** Places `x` in front of the first element whose key does not exceed its own. */
  function Insert<T>(x: T, s: seq<T>, key: T -> int): (r: seq<T>)
    ensures |r| == |s| + 1
    ensures multiset(r) == multiset(s) + multiset{x}
  {
    if s == [] || key(s[0]) <= key(x) then [x] + s
    else
      assert s == [s[0]] + s[1..];
      [s[0]] + Insert(x, s[1..], key)
  }

  lemma {:induction false} InsertSorted<T>(x: T, s: seq<T>, key: T -> int)
    requires SortedDesc(s, key)
    ensures SortedDesc(Insert(x, s, key), key)
  {
    if s == [] || key(s[0]) <= key(x) {
      SortedCons(x, s, key);
    } else {
      InsertSorted(x, s[1..], key);
      var r := Insert(x, s[1..], key);
      forall y | y in r ensures key(y) <= key(s[0]) {
        assert y in multiset(r);
        if y != x {
          assert y in multiset(s[1..]);
        }
      }
      SortedCons(s[0], r, key);
    }
  }

  /** A head whose key is no smaller than any in a sorted tail keeps it sorted. */
  lemma SortedCons<T>(h: T, r: seq<T>, key: T -> int)
    requires SortedDesc(r, key)
    requires forall y :: y in r ==> key(y) <= key(h)
    ensures SortedDesc([h] + r, key)
  {
    var t := [h] + r;
    forall i, j | 0 <= i < j < |t| ensures key(t[i]) >= key(t[j]) {
      assert t[j] == r[j - 1];
      if i > 0 {
        assert t[i] == r[i - 1];
      } else {
        assert r[j - 1] in r;
      }
    }
  }

  function SortDesc<T>(s: seq<T>, key: T -> int): (r: seq<T>)
    ensures |r| == |s|
    ensures multiset(r) == multiset(s)
    ensures SortedDesc(r, key)
  {
    if s == [] then []
    else
      InsertSorted(s[0], SortDesc(s[1..], key), key);
      assert s == [s[0]] + s[1..];
      Insert(s[0], SortDesc(s[1..], key), key)
  }

  /**
   * Places `x` in front of the first element whose key is strictly smaller than
   * its own, so behind every element it ties with: one pass of an insertion sort
   * that takes the elements left to right.
   */
  function InsertBehindTies<T>(x: T, s: seq<T>, key: T -> int): (r: seq<T>)
    ensures |r| == |s| + 1
    ensures multiset(r) == multiset(s) + multiset{x}
  {
    if s == [] || key(s[0]) < key(x) then [x] + s
    else
      assert s == [s[0]] + s[1..];
      [s[0]] + InsertBehindTies(x, s[1..], key)
  }

  /** Where the keys split at `j` into those at least `x`'s and those below it, `x` lands at `j`. */
  lemma {:induction false} InsertBehindTiesAt<T>(x: T, s: seq<T>, key: T -> int, j: nat)
    requires j <= |s|
    requires forall q :: 0 <= q < j ==> key(s[q]) >= key(x)
    requires forall q :: j <= q < |s| ==> key(s[q]) < key(x)
    ensures InsertBehindTies(x, s, key) == s[..j] + [x] + s[j..]
  {
    if j == 0 {
      assert s[..0] == [] && s[0..] == s;
      if s != [] {
        assert key(s[0]) < key(x);
      }
    } else {
      TailSplits(x, s, key, j);
      InsertBehindTiesAt(x, s[1..], key, j - 1);
      BehindTiesStep(x, s, key, j);
    }
  }

  /** The split at `j` carries over to the tail, one place earlier. */
  lemma TailSplits<T>(x: T, s: seq<T>, key: T -> int, j: nat)
    requires 1 <= j <= |s|
    requires forall q :: 0 <= q < j ==> key(s[q]) >= key(x)
    requires forall q :: j <= q < |s| ==> key(s[q]) < key(x)
    ensures forall q :: 0 <= q < j - 1 ==> key(s[1..][q]) >= key(x)
    ensures forall q :: j - 1 <= q < |s| - 1 ==> key(s[1..][q]) < key(x)
  {
    forall q | 0 <= q < |s| - 1 ensures s[1..][q] == s[q + 1] {
    }
  }

  lemma BehindTiesStep<T>(x: T, s: seq<T>, key: T -> int, j: nat)
    requires 1 <= j <= |s| && key(s[0]) >= key(x)
    requires InsertBehindTies(x, s[1..], key) == s[1..][..j - 1] + [x] + s[1..][j - 1..]
    ensures InsertBehindTies(x, s, key) == s[..j] + [x] + s[j..]
  {
    var a, b := s[1..j], s[j..];
    ConsSlices(s, j);
    assert InsertBehindTies(x, s, key) == [s[0]] + InsertBehindTies(x, s[1..], key);
    ConsRegroup(s[0], a, x, b);
  }

  lemma ConsRegroup<T>(h: T, a: seq<T>, x: T, b: seq<T>)
    ensures [h] + (a + [x] + b) == ([h] + a) + [x] + b
  {
  }

  /** `s` split after its head and at `j`. */
  lemma ConsSlices<T>(s: seq<T>, j: nat)
    requires 1 <= j <= |s|
    ensures s[1..][..j - 1] == s[1..j] && s[1..][j - 1..] == s[j..]
    ensures s[..j] == [s[0]] + s[1..j]
  {
  }

  /** One step of `Insert` onto a non-empty sequence. */
  lemma InsertOnto<T>(x: T, h: T, r: seq<T>, key: T -> int)
    ensures Insert(x, [h] + r, key) == if key(h) <= key(x) then [x] + ([h] + r) else [h] + Insert(x, r, key)
  {
    assert ([h] + r)[1..] == r;
  }

  /** One step of `InsertBehindTies` onto a non-empty sequence. */
  lemma BehindOnto<T>(y: T, h: T, r: seq<T>, key: T -> int)
    ensures InsertBehindTies(y, [h] + r, key) == if key(h) < key(y) then [y] + ([h] + r) else [h] + InsertBehindTies(y, r, key)
  {
    assert ([h] + r)[1..] == r;
  }

  /** Inserting an element in front of its ties and another behind its ties can be done in either order. */
  lemma {:induction false} InsertsCommute<T>(x: T, y: T, s: seq<T>, key: T -> int)
    ensures Insert(x, InsertBehindTies(y, s, key), key) == InsertBehindTies(y, Insert(x, s, key), key)
  {
    if s == [] {
      assert [y] == [y] + [] && [x] == [x] + [];
      InsertOnto(x, y, [], key);
      BehindOnto(y, x, [], key);
    } else {
      var h, r := s[0], s[1..];
      assert s == [h] + r;
      BehindOnto(y, h, r, key);
      InsertOnto(x, h, r, key);
      if key(h) < key(y) {
        InsertOnto(x, y, s, key);
        if key(h) <= key(x) {
          BehindOnto(y, x, s, key);
        } else {
          BehindOnto(y, h, Insert(x, r, key), key);
        }
      } else {
        InsertOnto(x, h, InsertBehindTies(y, r, key), key);
        if key(h) <= key(x) {
          BehindOnto(y, x, s, key);
        } else {
          BehindOnto(y, h, Insert(x, r, key), key);
          InsertsCommute(x, y, r, key);
        }
      }
    }
  }

  /** Insertion sort taking the elements left to right, each behind its ties. */
  function InsertionSortDesc<T>(s: seq<T>, key: T -> int): (r: seq<T>)
    ensures |r| == |s|
  {
    if s == [] then [] else InsertBehindTies(s[|s| - 1], InsertionSortDesc(s[..|s| - 1], key), key)
  }

  /** Taking the elements left to right or right to left gives the same stable sort. */
  lemma {:induction false} InsertionSortIsSortDesc<T>(s: seq<T>, key: T -> int)
    ensures InsertionSortDesc(s, key) == SortDesc(s, key)
    decreases |s|
  {
    if |s| == 1 {
      assert s[..0] == [] && s[1..] == [];
    } else if |s| >= 2 {
      var n := |s|;
      InsertionSortIsSortDesc(s[1..], key);
      InsertionSortIsSortDesc(s[1..n - 1], key);
      InsertionSortIsSortDesc(s[..n - 1], key);
      RightToLeftStep(s, key);
      LeftToRightStep(s, key);
      InsertsCommute(s[0], s[n - 1], InsertionSortDesc(s[1..n - 1], key), key);
    }
  }

  /** Right to left, the first element goes in front of its ties in the sorted rest. */
  lemma RightToLeftStep<T>(s: seq<T>, key: T -> int)
    requires |s| >= 2
    requires InsertionSortDesc(s[1..], key) == SortDesc(s[1..], key)
    ensures SortDesc(s, key)
         == Insert(s[0], InsertBehindTies(s[|s| - 1], InsertionSortDesc(s[1..|s| - 1], key), key), key)
  {
    var tail, mid, last := s[1..], s[1..|s| - 1], s[|s| - 1];
    MiddleSlices(s);
    InsertionSortBack(tail, key);
    SortDescFront(s, key);
  }

  /** The middle of `s`, reached from either end. */
  lemma MiddleSlices<T>(s: seq<T>)
    requires |s| >= 2
    ensures s[1..][..|s| - 2] == s[1..|s| - 1] && s[1..][|s| - 2] == s[|s| - 1]
    ensures s[..|s| - 1][1..] == s[1..|s| - 1] && s[..|s| - 1][0] == s[0]
  {
  }

  /** Left to right, the last element goes behind its ties in the sorted front. */
  lemma LeftToRightStep<T>(s: seq<T>, key: T -> int)
    requires |s| >= 2
    requires InsertionSortDesc(s[1..|s| - 1], key) == SortDesc(s[1..|s| - 1], key)
    requires InsertionSortDesc(s[..|s| - 1], key) == SortDesc(s[..|s| - 1], key)
    ensures InsertionSortDesc(s, key)
         == InsertBehindTies(s[|s| - 1], Insert(s[0], InsertionSortDesc(s[1..|s| - 1], key), key), key)
  {
    MiddleSlices(s);
    SortDescFront(s[..|s| - 1], key);
    InsertionSortBack(s, key);
  }

  lemma SortDescFront<T>(s: seq<T>, key: T -> int)
    requires s != []
    ensures SortDesc(s, key) == Insert(s[0], SortDesc(s[1..], key), key)
  {
  }

  /** The insertion sort of one more element. */
  lemma InsertionSortSnoc<T>(s: seq<T>, i: nat, key: T -> int)
    requires i < |s|
    ensures InsertionSortDesc(s[..i + 1], key) == InsertBehindTies(s[i], InsertionSortDesc(s[..i], key), key)
  {
    assert s[..i + 1][..i] == s[..i] && s[..i + 1][i] == s[i];
    InsertionSortBack(s[..i + 1], key);
  }

  lemma InsertionSortBack<T>(s: seq<T>, key: T -> int)
    requires s != []
    ensures InsertionSortDesc(s, key) == InsertBehindTies(s[|s| - 1], InsertionSortDesc(s[..|s| - 1], key), key)
  {
  }

  /** A selection `p` whose members all share one key sees `x` in front of them. */
  lemma {:induction false} InsertTies<T>(x: T, s: seq<T>, key: T -> int, p: T -> bool)
    requires forall y :: y in s && p(x) && p(y) ==> key(x) == key(y)
    ensures Filter(Insert(x, s, key), p) == (if p(x) then [x] else []) + Filter(s, p)
  {
    if s == [] || key(s[0]) <= key(x) {
      FilterCons(x, s, p);
    } else {
      assert s == [s[0]] + s[1..];
      InsertTies(x, s[1..], key, p);
      var r := Insert(x, s[1..], key);
      assert Insert(x, s, key) == [s[0]] + r;
      if p(x) {
        assert s[0] in s && !p(s[0]);
        PassOverSelected(x, s[0], r, s[1..], p);
      } else {
        PassOverUnselected(s[0], r, s[1..], p);
      }
    }
  }

  /** A selected `x` passes over an unselected `y`. */
  lemma PassOverSelected<T>(x: T, y: T, r: seq<T>, t: seq<T>, p: T -> bool)
    requires p(x) && !p(y)
    requires Filter(r, p) == [x] + Filter(t, p)
    ensures Filter([y] + r, p) == [x] + Filter([y] + t, p)
  {
    FilterCons(y, r, p);
    FilterCons(y, t, p);
  }

  /** Sequences that select the same still do after a common head. */
  lemma PassOverUnselected<T>(y: T, r: seq<T>, t: seq<T>, p: T -> bool)
    requires Filter(r, p) == Filter(t, p)
    ensures Filter([y] + r, p) == Filter([y] + t, p)
  {
    FilterCons(y, r, p);
    FilterCons(y, t, p);
  }

  /**
   * Stability: restricted to any group of equal keys, the sorted sequence lists
   * the group in its input order.
   */
  lemma {:induction false} SortDescStable<T>(s: seq<T>, key: T -> int, p: T -> bool)
    requires forall a, b :: p(a) && p(b) ==> key(a) == key(b)
    ensures Filter(SortDesc(s, key), p) == Filter(s, p)
  {
    if s != [] {
      SortDescStable(s[1..], key, p);
      InsertTies(s[0], SortDesc(s[1..], key), key, p);
    }
  }

  /** Stability stated per key value. */
  lemma SortDescKeepsTieOrder<T>(s: seq<T>, key: T -> int, k: int)
    ensures Filter(SortDesc(s, key), (x: T) => key(x) == k) == Filter(s, (x: T) => key(x) == k)
  {
    SortDescStable(s, key, (x: T) => key(x) == k);
  }

  lemma {:induction false} InsertUnique<T, K>(x: T, s: seq<T>, key: T -> int, f: T -> K)
    requires UniqueBy(s, f)
    requires forall y :: y in s ==> f(y) != f(x)
    ensures UniqueBy(Insert(x, s, key), f)
  {
    if s != [] && key(s[0]) > key(x) {
      InsertUnique(x, s[1..], key, f);
      var r := Insert(x, s[1..], key);
      forall y | y in r ensures f(y) != f(s[0]) {
        assert y in multiset(r);
      }
    }
  }

  /** Sorting never makes two positions share a key. */
  lemma {:induction false} SortDescUnique<T, K>(s: seq<T>, key: T -> int, f: T -> K)
    requires UniqueBy(s, f)
    ensures UniqueBy(SortDesc(s, key), f)
  {
    if s != [] {
      SortDescUnique(s[1..], key, f);
      var r := SortDesc(s[1..], key);
      forall y | y in r ensures f(y) != f(s[0]) {
        assert y in multiset(s[1..]);
      }
      InsertUnique(s[0], r, key, f);
    }
  }

  lemma {:induction false} InsertSum<T>(x: T, s: seq<T>, key: T -> int, f: T -> int)
    ensures SumBy(Insert(x, s, key), f) == f(x) + SumBy(s, f)
  {
    if s == [] || key(s[0]) <= key(x) {
      assert ([x] + s)[1..] == s;
    } else {
      InsertSum(x, s[1..], key, f);
      assert ([s[0]] + Insert(x, s[1..], key))[1..] == Insert(x, s[1..], key);
    }
  }

  /** Sorting keeps every total. */
  lemma {:induction false} SortDescSum<T>(s: seq<T>, key: T -> int, f: T -> int)
    ensures SumBy(SortDesc(s, key), f) == SumBy(s, f)
  {
    if s != [] {
      SortDescSum(s[1..], key, f);
      InsertSum(s[0], SortDesc(s[1..], key), key, f);
    }
  }
}
