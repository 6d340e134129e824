/**
 The sort `handleSort` performs: `Array.prototype.sort` over a copy of the current view,
 with a comparator built from the clicked key and the new direction.
 Array.prototype.sort is stable, so for a consistent comparator its result is the one
 stable sorted permutation; `SortUsers` computes it by stable insertion.
 */
module Sorting {
  import opened Users

  /** The non-null values of `sortConfig.direction`. */
  datatype Direction = Ascending | Descending

  /** The comparator handed to `sort`: 0 for the composite keys, otherwise -1, 0 or 1
      by JavaScript `<` and `>` on the key values, flipped for descending. */
  function Compare(key: SortKey, dir: Direction, a: User, b: User): (c: int)
    ensures c == -1 || c == 0 || c == 1
    ensures key.IsComposite() ==> c == 0
  {
    if key.IsComposite() then 0
    else if ValueLess(KeyValue(key, a), KeyValue(key, b)) then (if dir == Ascending then -1 else 1)
    else if ValueLess(KeyValue(key, b), KeyValue(key, a)) then (if dir == Ascending then 1 else -1)
    else 0
  }

  /** `a` and `b` sit at the same place in the order: equal key values, or a composite key. */
  predicate SameKey(key: SortKey, a: User, b: User)
  {
    key.IsComposite() || KeyValue(key, a) == KeyValue(key, b)
  }

  /** `a` may stand before `b` in a view sorted on `key` in direction `dir`:
      key values non-decreasing for ascending, non-increasing for descending. */
  predicate InOrder(key: SortKey, dir: Direction, a: User, b: User)
  {
    if key.IsComposite() then true
    else
      var va, vb := KeyValue(key, a), KeyValue(key, b);
      if dir == Ascending then va == vb || ValueLess(va, vb)
      else va == vb || ValueLess(vb, va)
  }

  predicate Sorted(key: SortKey, dir: Direction, s: seq<User>)
  {
    forall i, j :: 0 <= i < j < |s| ==> InOrder(key, dir, s[i], s[j])
  }

  lemma InOrderTransitive(key: SortKey, dir: Direction, a: User, b: User, c: User)
    ensures InOrder(key, dir, a, b) && InOrder(key, dir, b, c) ==> InOrder(key, dir, a, c)
  {
    if !key.IsComposite() {
      ValueLessStrictTotal(KeyValue(key, a), KeyValue(key, b), KeyValue(key, c));
      ValueLessStrictTotal(KeyValue(key, c), KeyValue(key, b), KeyValue(key, a));
    }
  }

  /** What the comparator's sign means. */
  lemma CompareMeaning(key: SortKey, dir: Direction, a: User, b: User)
    ensures Compare(key, dir, a, b) == 0 <==> SameKey(key, a, b)
    ensures Compare(key, dir, a, b) <= 0 <==> InOrder(key, dir, a, b)
    ensures Compare(key, dir, a, b) == -Compare(key, dir, b, a)
  {
    if !key.IsComposite() {
      ValueLessStrictTotal(KeyValue(key, a), KeyValue(key, b), KeyValue(key, a));
    }
  }

  /** The comparator is consistent in the sense `Array.prototype.sort` requires
      (section 23.1.3.30 of ECMA-262): a total preorder, so the sorted result is
      fully determined. */
  lemma CompareIsConsistent(key: SortKey, dir: Direction, a: User, b: User, c: User)
    ensures Compare(key, dir, a, a) == 0
    ensures Compare(key, dir, a, b) <= 0 || Compare(key, dir, b, a) <= 0
    ensures Compare(key, dir, a, b) <= 0 && Compare(key, dir, b, c) <= 0 ==> Compare(key, dir, a, c) <= 0
    ensures Compare(key, dir, a, b) == 0 && Compare(key, dir, b, c) == 0 ==> Compare(key, dir, a, c) == 0
  {
    if !key.IsComposite() {
      var va, vb, vc := KeyValue(key, a), KeyValue(key, b), KeyValue(key, c);
      ValueLessStrictTotal(va, vb, vc);
      ValueLessStrictTotal(vc, vb, va);
      ValueLessStrictTotal(va, vc, vb);
      ValueLessStrictTotal(vb, va, vc);
      ValueLessStrictTotal(va, va, va);
    }
  }

  /** Places `x` after every element of `t` that does not compare greater than it. */
  function Insert(key: SortKey, dir: Direction, t: seq<User>, x: User): (r: seq<User>)
    ensures multiset(r) == multiset(t) + multiset{x}
    decreases |t|
  {
    if |t| == 0 then [x]
    else if Compare(key, dir, t[|t| - 1], x) <= 0 then t + [x]
    else
      assert t == t[..|t| - 1] + [t[|t| - 1]];
      Insert(key, dir, t[..|t| - 1], x) + [t[|t| - 1]]
  }

  /** `[...view].sort(comparator)`. */
  function SortUsers(key: SortKey, dir: Direction, s: seq<User>): (r: seq<User>)
    ensures multiset(r) == multiset(s)
    decreases |s|
  {
    if |s| == 0 then []
    else
      assert s == s[..|s| - 1] + [s[|s| - 1]];
      Insert(key, dir, SortUsers(key, dir, s[..|s| - 1]), s[|s| - 1])
  }

  /** Appending an element that every element may precede keeps a view sorted. */
  lemma SortedAppend(key: SortKey, dir: Direction, s: seq<User>, y: User)
    requires Sorted(key, dir, s)
    requires forall i :: 0 <= i < |s| ==> InOrder(key, dir, s[i], y)
    ensures Sorted(key, dir, s + [y])
  {
    var r := s + [y];
    forall i, j | 0 <= i < j < |r|
      ensures InOrder(key, dir, r[i], r[j])
    {
      assert r[i] == s[i];
      if j < |s| {
        assert r[j] == s[j];
      }
    }
  }

  /** Every element of `Insert(t, x)` is `x` or an element of `t`. */
  lemma InsertElements(key: SortKey, dir: Direction, t: seq<User>, x: User, e: User)
    requires e in Insert(key, dir, t, x)
    ensures e == x || e in t
  {
    assert e in multiset(Insert(key, dir, t, x));
  }

  lemma {:induction false} InsertSorted(key: SortKey, dir: Direction, t: seq<User>, x: User)
    requires Sorted(key, dir, t)
    ensures Sorted(key, dir, Insert(key, dir, t, x))
    decreases |t|
  {
    if |t| > 0 {
      var last, p := t[|t| - 1], t[..|t| - 1];
      CompareMeaning(key, dir, last, x);
      CompareMeaning(key, dir, x, last);
      if Compare(key, dir, last, x) <= 0 {
        assert Insert(key, dir, t, x) == t + [x];
        forall i | 0 <= i < |t|
          ensures InOrder(key, dir, t[i], x)
        {
          if i < |t| - 1 {
            assert InOrder(key, dir, t[i], last);
          }
          InOrderTransitive(key, dir, t[i], last, x);
        }
        SortedAppend(key, dir, t, x);
      } else {
        var q := Insert(key, dir, p, x);
        assert Insert(key, dir, t, x) == q + [last];
        assert Sorted(key, dir, p);
        InsertSorted(key, dir, p, x);
        forall i | 0 <= i < |q|
          ensures InOrder(key, dir, q[i], last)
        {
          InsertElements(key, dir, p, x, q[i]);
          if q[i] != x {
            var k :| 0 <= k < |p| && p[k] == q[i];
            assert t[k] == q[i];
          }
        }
        SortedAppend(key, dir, q, last);
      }
    }
  }

  /** The sorted view is ordered on the key in the requested direction. */
  lemma {:induction false} SortUsersSorted(key: SortKey, dir: Direction, s: seq<User>)
    ensures Sorted(key, dir, SortUsers(key, dir, s))
    decreases |s|
  {
    if |s| > 0 {
      SortUsersSorted(key, dir, s[..|s| - 1]);
      InsertSorted(key, dir, SortUsers(key, dir, s[..|s| - 1]), s[|s| - 1]);
    }
  }

  /** The elements of `s` that share `z`'s key, in their order in `s`. */
  function SameKeyAs(key: SortKey, z: User, s: seq<User>): (r: seq<User>)
    ensures |r| <= |s|
    ensures forall i :: 0 <= i < |r| ==> SameKey(key, r[i], z)
    decreases |s|
  {
    if |s| == 0 then []
    else SameKeyAs(key, z, s[..|s| - 1]) + (if SameKey(key, s[|s| - 1], z) then [s[|s| - 1]] else [])
  }

  lemma {:induction false} SameKeyAsAppend(key: SortKey, z: User, s: seq<User>, x: User)
    ensures SameKeyAs(key, z, s + [x]) == SameKeyAs(key, z, s) + (if SameKey(key, x, z) then [x] else [])
  {
    assert (s + [x])[..|s|] == s;
  }

  lemma {:induction false} InsertStable(key: SortKey, dir: Direction, t: seq<User>, x: User, z: User)
    ensures SameKeyAs(key, z, Insert(key, dir, t, x))
         == SameKeyAs(key, z, t) + (if SameKey(key, x, z) then [x] else [])
    decreases |t|
  {
    if |t| == 0 {
      SameKeyAsAppend(key, z, [], x);
    } else if Compare(key, dir, t[|t| - 1], x) <= 0 {
      assert Insert(key, dir, t, x) == t + [x];
      SameKeyAsAppend(key, z, t, x);
    } else {
      var last, p := t[|t| - 1], t[..|t| - 1];
      assert Insert(key, dir, t, x) == Insert(key, dir, p, x) + [last];
      InsertStable(key, dir, p, x, z);
      InsertStableStep(key, dir, p, Insert(key, dir, p, x), last, x, z);
      assert t == p + [last];
    }
  }

  /** The step of `InsertStable` where `x` moves in front of the greater `last`; `q` is the
      result of inserting `x` into `p`. */
  lemma InsertStableStep(key: SortKey, dir: Direction, p: seq<User>, q: seq<User>, last: User, x: User, z: User)
    requires Compare(key, dir, last, x) > 0
    requires SameKeyAs(key, z, q) == SameKeyAs(key, z, p) + (if SameKey(key, x, z) then [x] else [])
    ensures SameKeyAs(key, z, q + [last])
         == SameKeyAs(key, z, p + [last]) + (if SameKey(key, x, z) then [x] else [])
  {
    var a, b := SameKeyAs(key, z, p), SameKeyAs(key, z, q);
    var xs := if SameKey(key, x, z) then [x] else [];
    var ls := if SameKey(key, last, z) then [last] else [];
    SameKeyAsAppend(key, z, q, last);
    SameKeyAsAppend(key, z, p, last);
    GreaterKeyDiffers(key, dir, last, x, z);
    CommuteWhenOneEmpty(a, xs, ls);
  }

  /** Of two users the comparator separates, at most one shares the key value of `z`. */
  lemma GreaterKeyDiffers(key: SortKey, dir: Direction, last: User, x: User, z: User)
    requires Compare(key, dir, last, x) > 0
    ensures !(SameKey(key, x, z) && SameKey(key, last, z))
  {
    CompareMeaning(key, dir, last, x);
  }

  lemma CommuteWhenOneEmpty<T>(a: seq<T>, xs: seq<T>, ls: seq<T>)
    requires xs == [] || ls == []
    ensures a + xs + ls == a + ls + xs
  {
    if xs == [] {
      assert a + xs == a;
    } else {
      assert a + ls == a;
    }
  }

  /** The sort is stable: the users sharing any one key value keep their relative order. */
  lemma {:induction false} SortUsersStable(key: SortKey, dir: Direction, s: seq<User>, z: User)
    ensures SameKeyAs(key, z, SortUsers(key, dir, s)) == SameKeyAs(key, z, s)
    decreases |s|
  {
    if |s| > 0 {
      var p, x := s[..|s| - 1], s[|s| - 1];
      var sp := SortUsers(key, dir, p);
      var xs := if SameKey(key, x, z) then [x] else [];
      assert SortUsers(key, dir, s) == Insert(key, dir, sp, x);
      assert SameKeyAs(key, z, s) == SameKeyAs(key, z, p) + xs;
      SortUsersStable(key, dir, p, z);
      InsertStable(key, dir, sp, x, z);
    }
  }

  lemma {:induction false} SameKeyAsComposite(key: SortKey, z: User, s: seq<User>)
    requires key.IsComposite()
    ensures SameKeyAs(key, z, s) == s
    decreases |s|
  {
    if |s| > 0 {
      SameKeyAsComposite(key, z, s[..|s| - 1]);
      assert s == s[..|s| - 1] + [s[|s| - 1]];
    }
  }

  /** Sorting on `address` or `company` leaves the view exactly as it was. */
  lemma SortCompositeIsIdentity(key: SortKey, dir: Direction, s: seq<User>)
    ensures key.IsComposite() ==> SortUsers(key, dir, s) == s
  {
    var r := SortUsers(key, dir, s);
    if key.IsComposite() {
      if |s| > 0 {
        SortUsersStable(key, dir, s, s[0]);
        SameKeyAsComposite(key, s[0], s);
        SameKeyAsComposite(key, s[0], r);
      } else {
        assert |multiset(r)| == 0;
      }
    }
  }
}
