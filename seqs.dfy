/** Array searching, filtering and stable sorting with a numeric comparator, on sequences. */
module Seqs {
  import opened Wrappers

  /** The position of the first element that `p` selects, if any. */
  function FirstWhere<T>(s: seq<T>, p: T -> bool): (r: Option<nat>)
    ensures r.Some? ==> r.value < |s| && p(s[r.value])
    ensures r.Some? ==> forall j :: 0 <= j < r.value ==> !p(s[j])
    ensures r.None? <==> forall j :: 0 <= j < |s| ==> !p(s[j])
  {
    if s == [] then None
    else if p(s[0]) then Some(0)
    else match FirstWhere(s[1..], p)
      case None => None
      case Some(k) => Some(k + 1)
  }

  /** The elements of `s` that `keep` selects, in order. */
  function Filter<T>(s: seq<T>, keep: T -> bool): (r: seq<T>)
    ensures |r| <= |s|
    ensures forall i :: 0 <= i < |r| ==> keep(r[i]) && r[i] in s
    ensures forall i :: 0 <= i < |s| && keep(s[i]) ==> s[i] in r
  {
    if s == [] then []
    else (if keep(s[0]) then [s[0]] else []) + Filter(s[1..], keep)
  }

  /** Filtering keeps the relative order: it distributes over concatenation. */
  /** Filtering a concatenation whose first three parts it empties and whose last two it keeps whole. */
  lemma FilterSkipsParts<T>(s1: seq<T>, s2: seq<T>, s3: seq<T>, s4: seq<T>, s5: seq<T>, keep: T -> bool)
    requires Filter(s1, keep) == [] && Filter(s2, keep) == [] && Filter(s3, keep) == []
    requires Filter(s4, keep) == s4 && Filter(s5, keep) == s5
    ensures Filter(s1 + s2 + s3 + s4 + s5, keep) == s4 + s5
  {
    calc {
      Filter(s1 + s2 + s3 + s4 + s5, keep);
      { FilterConcat(s1 + s2 + s3 + s4, s5, keep); }
      Filter(s1 + s2 + s3 + s4, keep) + s5;
      { FilterConcat(s1 + s2 + s3, s4, keep); }
      Filter(s1 + s2 + s3, keep) + s4 + s5;
      { FilterConcat(s1 + s2, s3, keep); FilterConcat(s1, s2, keep); }
      [] + s4 + s5;
      { assert [] + s4 == s4; }
      s4 + s5;
    }
  }

  lemma {:induction false} FilterConcat<T>(a: seq<T>, b: seq<T>, keep: T -> bool)
    ensures Filter(a + b, keep) == Filter(a, keep) + Filter(b, keep)
  {
    if a == [] {
      assert a + b == b;
    } else {
      assert (a + b)[0] == a[0];
      assert (a + b)[1..] == a[1..] + b;
      FilterConcat(a[1..], b, keep);
    }
  }

  /** Each element occurs in the filtered sequence as often as in the input if `keep` selects it, and not at all otherwise. */
  lemma {:induction false} FilterCount<T>(s: seq<T>, keep: T -> bool, x: T)
    ensures multiset(Filter(s, keep))[x] == if keep(x) then multiset(s)[x] else 0
  {
    if s != [] {
      FilterCount(s[1..], keep, x);
      assert s == [s[0]] + s[1..];
      assert multiset(s) == multiset{s[0]} + multiset(s[1..]);
      var head := if keep(s[0]) then [s[0]] else [];
      assert multiset(Filter(s, keep)) == multiset(head) + multiset(Filter(s[1..], keep));
    }
  }

  /** `s` is ordered by non-decreasing `key`. */
  predicate SortedBy<T>(s: seq<T>, key: T -> int) {
    forall i, j :: 0 <= i < j < |s| ==> key(s[i]) <= key(s[j])
  }

  /** A sorted sequence stays sorted under any filter. */
  lemma {:induction false} FilterSorted<T>(s: seq<T>, key: T -> int, keep: T -> bool)
    requires SortedBy(s, key)
    ensures SortedBy(Filter(s, keep), key)
  {
    if s != [] {
      FilterSorted(s[1..], key, keep);
      var rest := Filter(s[1..], keep);
      assert forall i | 0 <= i < |rest| :: key(s[0]) <= key(rest[i]);
    }
  }

  /** Inserts `x` before the first element whose key is at least `key(x)`. */
  function Insert<T>(x: T, s: seq<T>, key: T -> int): (r: seq<T>)
    ensures |r| == |s| + 1
    ensures x in r
    ensures forall i :: 0 <= i < |r| ==> r[i] == x || r[i] in s
  {
    if s == [] || key(x) <= key(s[0]) then [x] + s
    else [s[0]] + Insert(x, s[1..], key)
  }

  lemma {:induction false} InsertPermutes<T>(x: T, s: seq<T>, key: T -> int)
    ensures multiset(Insert(x, s, key)) == multiset(s) + multiset{x}
  {
    if s != [] && key(x) > key(s[0]) {
      InsertPermutes(x, s[1..], key);
      assert s == [s[0]] + s[1..];
    }
  }

  lemma {:induction false} InsertSorted<T>(x: T, s: seq<T>, key: T -> int)
    requires SortedBy(s, key)
    ensures SortedBy(Insert(x, s, key), key)
  {
    if s != [] && key(x) > key(s[0]) {
      InsertSorted(x, s[1..], key);
      var rest := Insert(x, s[1..], key);
      assert forall y | y in rest :: key(s[0]) <= key(y);
    }
  }

  /** A stable sort by ascending key with a numeric-difference comparator, written as an insertion sort. */
  function SortBy<T>(s: seq<T>, key: T -> int): (r: seq<T>)
    ensures |r| == |s|
    ensures SortedBy(r, key)
  {
    if s == [] then []
    else
      var rest := SortBy(s[1..], key);
      InsertSorted(s[0], rest, key);
      Insert(s[0], rest, key)
  }

  /** The sort is a permutation of its input. */
  lemma {:induction false} SortByPermutes<T>(s: seq<T>, key: T -> int)
    ensures multiset(SortBy(s, key)) == multiset(s)
  {
    if s != [] {
      var rest := SortBy(s[1..], key);
      calc {
        multiset(SortBy(s, key));
        multiset(Insert(s[0], rest, key));
        { InsertPermutes(s[0], rest, key); }
        multiset(rest) + multiset{s[0]};
        { SortByPermutes(s[1..], key); }
        multiset(s[1..]) + multiset{s[0]};
        { assert s == [s[0]] + s[1..]; }
        multiset(s);
      }
    }
  }

  /** Inserting an element that `keep` rejects does not change what `keep` selects. */
  lemma {:induction false} FilterInsertRejected<T>(x: T, s: seq<T>, key: T -> int, keep: T -> bool)
    requires !keep(x)
    ensures Filter(Insert(x, s, key), keep) == Filter(s, keep)
  {
    if s == [] || key(x) <= key(s[0]) {
      FilterConcat([x], s, keep);
    } else {
      FilterInsertRejected(x, s[1..], key, keep);
      FilterConcat([s[0]], Insert(x, s[1..], key), keep);
      FilterConcat([s[0]], s[1..], keep);
      assert [s[0]] + s[1..] == s;
    }
  }

  /** An element that `keep` selects goes ahead of the other selected ones, when `keep` selects within one key. */
  lemma {:induction false} FilterInsertKept<T>(x: T, s: seq<T>, key: T -> int, keep: T -> bool)
    requires keep(x)
    requires forall y :: keep(y) ==> key(y) == key(x)
    ensures Filter(Insert(x, s, key), keep) == [x] + Filter(s, keep)
  {
    if s == [] || key(x) <= key(s[0]) {
      FilterConcat([x], s, keep);
    } else {
      FilterInsertKept(x, s[1..], key, keep);
      FilterConcat([s[0]], Insert(x, s[1..], key), keep);
      FilterConcat([s[0]], s[1..], keep);
      assert [s[0]] + s[1..] == s;
    }
  }

  /** Stability: among elements that share one key, the sort keeps the input order. */
  lemma {:induction false} SortByStable<T>(s: seq<T>, key: T -> int, keep: T -> bool, k: int)
    requires forall y :: keep(y) ==> key(y) == k
    ensures Filter(SortBy(s, key), keep) == Filter(s, keep)
  {
    if s != [] {
      SortByStable(s[1..], key, keep, k);
      if keep(s[0]) {
        FilterInsertKept(s[0], SortBy(s[1..], key), key, keep);
      } else {
        FilterInsertRejected(s[0], SortBy(s[1..], key), key, keep);
      }
      FilterConcat([s[0]], s[1..], keep);
      assert [s[0]] + s[1..] == s;
    }
  }

  /** Every key in `s` is below `k`. */
  predicate KeysBelow<T>(s: seq<T>, key: T -> int, k: int) {
    forall i :: 0 <= i < |s| ==> key(s[i]) < k
  }

  /** Every key in `s` is at least `k`. */
  predicate KeysAtLeast<T>(s: seq<T>, key: T -> int, k: int) {
    forall i :: 0 <= i < |s| ==> k <= key(s[i])
  }

  lemma KeysConcat<T>(a: seq<T>, b: seq<T>, key: T -> int, k: int)
    ensures KeysBelow(a, key, k) && KeysBelow(b, key, k) ==> KeysBelow(a + b, key, k)
    ensures KeysAtLeast(a, key, k) && KeysAtLeast(b, key, k) ==> KeysAtLeast(a + b, key, k)
  {
  }

  /** Insertion passes over a prefix of strictly smaller keys. */
  lemma {:induction false} InsertAfterSmaller<T>(x: T, a: seq<T>, b: seq<T>, key: T -> int)
    requires KeysBelow(a, key, key(x))
    ensures Insert(x, a + b, key) == a + Insert(x, b, key)
  {
    if a != [] {
      assert (a + b)[0] == a[0];
      assert (a + b)[1..] == a[1..] + b;
      InsertAfterSmaller(x, a[1..], b, key);
      assert Insert(x, a + b, key) == [a[0]] + Insert(x, a[1..] + b, key);
      assert a == [a[0]] + a[1..];
      assert [a[0]] + (a[1..] + Insert(x, b, key)) == a + Insert(x, b, key);
    } else {
      assert a + b == b;
    }
  }

  /** Insertion in front of keys that are all at least as large places `x` first. */
  lemma InsertAtFront<T>(x: T, b: seq<T>, key: T -> int)
    requires KeysAtLeast(b, key, key(x))
    ensures Insert(x, b, key) == [x] + b
  {
  }

  /** Inserting into runs `a + b + c` of increasing keys puts `x` in front of the run of its own key. */
  lemma InsertIntoFirstRun<T>(x: T, a: seq<T>, b: seq<T>, c: seq<T>, key: T -> int)
    requires KeysAtLeast(a, key, key(x)) && KeysAtLeast(b, key, key(x)) && KeysAtLeast(c, key, key(x))
    ensures Insert(x, a + b + c, key) == [x] + a + b + c
  {
    KeysConcat(a, b, key, key(x));
    assert KeysAtLeast(a + b, key, key(x));
    KeysConcat(a + b, c, key, key(x));
    assert KeysAtLeast(a + b + c, key, key(x));
    InsertAtFront(x, a + b + c, key);
  }

  lemma InsertIntoSecondRun<T>(x: T, a: seq<T>, b: seq<T>, c: seq<T>, key: T -> int)
    requires KeysBelow(a, key, key(x))
    requires KeysAtLeast(b, key, key(x)) && KeysAtLeast(c, key, key(x))
    ensures Insert(x, a + b + c, key) == a + ([x] + b) + c
  {
    assert a + b + c == a + (b + c);
    InsertAfterSmaller(x, a, b + c, key);
    KeysConcat(b, c, key, key(x));
    InsertAtFront(x, b + c, key);
    assert a + ([x] + b) + c == a + ([x] + (b + c));
  }

  lemma InsertIntoThirdRun<T>(x: T, a: seq<T>, b: seq<T>, c: seq<T>, key: T -> int)
    requires KeysBelow(a, key, key(x)) && KeysBelow(b, key, key(x))
    requires KeysAtLeast(c, key, key(x))
    ensures Insert(x, a + b + c, key) == a + b + ([x] + c)
  {
    KeysConcat(a, b, key, key(x));
    InsertAfterSmaller(x, a + b, c, key);
    InsertAtFront(x, c, key);
  }
}
