/**
 * `Array.prototype.sort` with a comparator of the form `key(a) - key(b)`:
 * an ascending sort by a real key that is stable, as ECMAScript requires,
 * so elements with equal keys keep their input order.
 */
module Sorting {

  ghost predicate SortedBy<T>(s: seq<T>, key: T -> real)
  {
    forall i, j {:trigger key(s[i]), key(s[j])} :: 0 <= i < j < |s| ==> key(s[i]) <= key(s[j])
  }

  /**
   * Inserts `x` into the key-sorted `t` after every element whose key is at
   * most `key(x)`, so `x` follows the elements it ties with.
   */
  function InsertBy<T>(t: seq<T>, x: T, key: T -> real): (r: seq<T>)
    requires SortedBy(t, key)
    ensures SortedBy(r, key)
    ensures multiset(r) == multiset(t) + multiset{x}
  {
    if t == [] then [x]
    else if key(t[|t| - 1]) <= key(x) then
      SortedSnoc(t, x, key);
      t + [x]
    else
      var init, last := t[..|t| - 1], t[|t| - 1];
      assert t == init + [last];
      var r' := InsertBy(init, x, key);
      BelowLast(t, r', x, key);
      SortedSnoc(r', last, key);
      r' + [last]
  }

  /** Appending an element whose key is at least the last key keeps the order. */
  lemma SortedSnoc<T>(s: seq<T>, y: T, key: T -> real)
    requires SortedBy(s, key)
    requires s != [] ==> key(s[|s| - 1]) <= key(y)
    ensures SortedBy(s + [y], key)
  {
    var s' := s + [y];
    forall i, j | 0 <= i < j < |s'| ensures key(s'[i]) <= key(s'[j]) {
      if j == |s| && i < |s| - 1 {
        assert key(s[i]) <= key(s[|s| - 1]);
      }
    }
  }

  /**
   * When `x` sorts before the last element of `t`, inserting it into the
   * rest gives keys no larger than that last element's.
   */
  lemma BelowLast<T>(t: seq<T>, r: seq<T>, x: T, key: T -> real)
    requires SortedBy(t, key) && t != [] && key(x) < key(t[|t| - 1])
    requires multiset(r) == multiset(t[..|t| - 1]) + multiset{x}
    ensures r != [] ==> key(r[|r| - 1]) <= key(t[|t| - 1])
  {
    if r != [] {
      var y := r[|r| - 1];
      assert y in multiset(r);
      if y != x {
        assert y in multiset(t[..|t| - 1]);
        var j :| 0 <= j < |t| - 1 && t[..|t| - 1][j] == y;
        assert key(t[j]) <= key(t[|t| - 1]);
      }
    }
  }

  /** Insertion sort: processes the input front to back, inserting each element after its ties. */
  function SortBy<T>(s: seq<T>, key: T -> real): (r: seq<T>)
    ensures SortedBy(r, key)
    ensures multiset(r) == multiset(s)
    ensures |r| == |s|
  {
    if s == [] then []
    else
      assert s == s[..|s| - 1] + [s[|s| - 1]];
      var r := InsertBy(SortBy(s[..|s| - 1], key), s[|s| - 1], key);
      assert |r| == |multiset(r)| == |multiset(s)| == |s|;
      r
  }

  /** The elements of `s` whose key is `v`, in their order in `s`. */
  function Filter<T>(s: seq<T>, key: T -> real, v: real): seq<T>
  {
    if s == [] then []
    else Filter(s[..|s| - 1], key, v) + (if key(s[|s| - 1]) == v then [s[|s| - 1]] else [])
  }

  lemma {:induction false} FilterConcat<T>(a: seq<T>, b: seq<T>, key: T -> real, v: real)
    ensures Filter(a + b, key, v) == Filter(a, key, v) + Filter(b, key, v)
  {
    if b == [] {
      assert a + b == a;
    } else {
      var init, last := b[..|b| - 1], b[|b| - 1];
      assert (a + b)[..|a + b| - 1] == a + init;
      assert (a + b)[|a + b| - 1] == last;
      FilterConcat(a, init, key, v);
    }
  }

  /** The elements with key `v` among the single element `x`. */
  lemma FilterSingle<T>(x: T, key: T -> real, v: real)
    ensures Filter([x], key, v) == if key(x) == v then [x] else []
  {
    assert [x][..0] == [];
  }

  /**
   * Inserting `x` leaves the elements of every key in their order and puts
   * `x` after those that share its key.
   */
  lemma {:induction false} InsertByStable<T>(t: seq<T>, x: T, key: T -> real, v: real)
    requires SortedBy(t, key)
    ensures Filter(InsertBy(t, x, key), key, v) == Filter(t, key, v) + Filter([x], key, v)
  {
    if t == [] {
      assert InsertBy(t, x, key) == [x];
    } else if key(t[|t| - 1]) <= key(x) {
      assert InsertBy(t, x, key) == t + [x];
      FilterConcat(t, [x], key, v);
    } else {
      var init, last := t[..|t| - 1], t[|t| - 1];
      assert t == init + [last];
      assert SortedBy(init, key) by {
        forall i, j | 0 <= i < j < |init| ensures key(init[i]) <= key(init[j]) {
          assert init[i] == t[i] && init[j] == t[j];
        }
      }
      InsertByStable(init, x, key, v);
      var r' := InsertBy(init, x, key);
      assert InsertBy(t, x, key) == r' + [last];
      FilterBehind(init, r', x, last, key, v);
    }
  }

  /**
   * The step of `InsertByStable` where `x` goes in before `last`: their keys
   * differ, so appending `last` after `x` keeps each key's order.
   */
  lemma FilterBehind<T>(init: seq<T>, r: seq<T>, x: T, last: T, key: T -> real, v: real)
    requires key(x) != key(last)
    requires Filter(r, key, v) == Filter(init, key, v) + Filter([x], key, v)
    ensures Filter(r + [last], key, v) == Filter(init + [last], key, v) + Filter([x], key, v)
  {
    var fx, fl := Filter([x], key, v), Filter([last], key, v);
    assert fx + fl == fl + fx by {
      FilterSingle(x, key, v);
      FilterSingle(last, key, v);
    }
    calc {
      Filter(r + [last], key, v);
    == { FilterConcat(r, [last], key, v); }
      Filter(r, key, v) + fl;
      Filter(init, key, v) + fx + fl;
      Filter(init, key, v) + fl + fx;
    == { FilterConcat(init, [last], key, v); }
      Filter(init + [last], key, v) + fx;
    }
  }

  /**
   * Stability: for every key value, the elements with that key come out of
   * the sort in the order they went in.
   */
  lemma {:induction false} SortByStable<T>(s: seq<T>, key: T -> real)
    ensures forall v :: Filter(SortBy(s, key), key, v) == Filter(s, key, v)
  {
    if s != [] {
      var init, last := s[..|s| - 1], s[|s| - 1];
      SortByStable(init, key);
      forall v ensures Filter(SortBy(s, key), key, v) == Filter(s, key, v) {
        InsertByStable(SortBy(init, key), last, key, v);
        FilterSingle(last, key, v);
      }
    }
  }

  ghost predicate StrictlyIncreasing(s: seq<real>)
  {
    forall i, j :: 0 <= i < j < |s| ==> s[i] < s[j]
  }

  /** Ordered by key, and among equal keys by value, smaller first. */
  ghost predicate LexSortedBy(s: seq<real>, key: real -> real)
  {
    forall i, j :: 0 <= i < j < |s| ==>
      key(s[i]) < key(s[j]) || (key(s[i]) == key(s[j]) && s[i] < s[j])
  }

  /** Inserting a value larger than every element keeps the order lexicographic. */
  lemma {:induction false} InsertByLex(t: seq<real>, x: real, key: real -> real)
    requires SortedBy(t, key) && LexSortedBy(t, key)
    requires forall i :: 0 <= i < |t| ==> t[i] < x
    ensures LexSortedBy(InsertBy(t, x, key), key)
  {
    if t == [] {
    } else if key(t[|t| - 1]) <= key(x) {
      forall i | 0 <= i < |t| ensures key(t[i]) < key(x) || (key(t[i]) == key(x) && t[i] < x) {
        if i < |t| - 1 {
          assert key(t[i]) <= key(t[|t| - 1]);
        }
      }
      LexSnoc(t, x, key);
    } else {
      var init, last := t[..|t| - 1], t[|t| - 1];
      InsertByLex(init, x, key);
      var r' := InsertBy(init, x, key);
      forall i | 0 <= i < |r'| ensures key(r'[i]) < key(last) || (key(r'[i]) == key(last) && r'[i] < last) {
        assert r'[i] in multiset(r');
        if r'[i] != x {
          assert r'[i] in multiset(init);
          var j :| 0 <= j < |init| && init[j] == r'[i];
          assert t[j] == init[j];
        }
      }
      LexSnoc(r', last, key);
    }
  }

  /** Appending an element that every element precedes keeps the order lexicographic. */
  lemma LexSnoc(s: seq<real>, y: real, key: real -> real)
    requires LexSortedBy(s, key)
    requires forall i :: 0 <= i < |s| ==> key(s[i]) < key(y) || (key(s[i]) == key(y) && s[i] < y)
    ensures LexSortedBy(s + [y], key)
  {
    var s' := s + [y];
    forall i, j | 0 <= i < j < |s'| ensures key(s'[i]) < key(s'[j]) || (key(s'[i]) == key(s'[j]) && s'[i] < s'[j]) {
      if j == |s| {
        assert s'[i] == s[i];
      }
    }
  }

  /**
   * Sorting a strictly increasing sequence by any key breaks key ties toward
   * the smaller value: stability keeps the input's ascending order among ties.
   */
  lemma {:induction false} SortByTiesAscending(s: seq<real>, key: real -> real)
    requires StrictlyIncreasing(s)
    ensures LexSortedBy(SortBy(s, key), key)
  {
    if s != [] {
      var init, last := s[..|s| - 1], s[|s| - 1];
      SortByTiesAscending(init, key);
      var r := SortBy(init, key);
      forall i | 0 <= i < |r| ensures r[i] < last {
        assert r[i] in multiset(r);
        assert r[i] in multiset(init);
        var j :| 0 <= j < |init| && init[j] == r[i];
        assert s[j] == init[j];
      }
      InsertByLex(r, last, key);
    }
  }
}
