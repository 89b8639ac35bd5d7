/** Python's `sorted(xs, key=...)` for keys that are tuples of booleans,
    integers and strings: each key is encoded as a sequence of integers and
    compared lexicographically, as Python compares tuples and strings. */
module Sorting {

  /** Lexicographic order; a proper prefix comes first. */
  predicate LexLeq(a: seq<int>, b: seq<int>)
    decreases |a|
  {
    |a| == 0 || (|b| > 0 && (a[0] < b[0] || (a[0] == b[0] && LexLeq(a[1..], b[1..]))))
  }

  lemma {:induction false} LexTotal(a: seq<int>, b: seq<int>)
    ensures LexLeq(a, b) || LexLeq(b, a)
    decreases |a|
  {
    if |a| > 0 && |b| > 0 && a[0] == b[0] {
      LexTotal(a[1..], b[1..]);
    }
  }

  lemma {:induction false} LexTrans(a: seq<int>, b: seq<int>, c: seq<int>)
    requires LexLeq(a, b) && LexLeq(b, c)
    ensures LexLeq(a, c)
    decreases |a|
  {
    if |a| > 0 && a[0] == b[0] && b[0] == c[0] {
      LexTrans(a[1..], b[1..], c[1..]);
    }
  }

  lemma {:induction false} LexAntisym(a: seq<int>, b: seq<int>)
    requires LexLeq(a, b) && LexLeq(b, a)
    ensures a == b
    decreases |a|
  {
    if |a| > 0 {
      LexAntisym(a[1..], b[1..]);
      assert a == [a[0]] + a[1..];
      assert b == [b[0]] + b[1..];
    }
  }

  /** One step of the order: the heads decide, and equal heads defer to the
      tails. */
  lemma LexCons(x: int, u: seq<int>, y: int, v: seq<int>)
    ensures LexLeq([x] + u, [y] + v) <==> x < y || (x == y && LexLeq(u, v))
  {
    assert ([x] + u)[1..] == u;
    assert ([y] + v)[1..] == v;
  }

  /** An item with its encoded sort key. */
  datatype Keyed<T> = Keyed(key: seq<int>, item: T)

  predicate Sorted<T>(s: seq<Keyed<T>>) {
    forall i, j :: 0 <= i < j < |s| ==> LexLeq(s[i].key, s[j].key)
  }

  /** Inserts `x` after every element whose key is not greater, which keeps
      equal keys in their input order. */
  function Insert<T>(x: Keyed<T>, s: seq<Keyed<T>>): (r: seq<Keyed<T>>)
    requires Sorted(s)
    ensures Sorted(r)
    ensures |r| == |s| + 1 && (r[0] == x || (s != [] && r[0] == s[0]))
    decreases |s|
  {
    if s == [] then [x]
    else if LexLeq(s[0].key, x.key) then
      var t := Insert(x, s[1..]);
      assert s == [s[0]] + s[1..];
      assert LexLeq(s[0].key, t[0].key);
      forall j | 1 <= j < |t|
        ensures LexLeq(s[0].key, t[j].key)
      {
        LexTrans(s[0].key, t[0].key, t[j].key);
      }
      [s[0]] + t
    else
      LexTotal(s[0].key, x.key);
      forall j | 1 <= j < |s|
        ensures LexLeq(x.key, s[j].key)
      {
        LexTrans(x.key, s[0].key, s[j].key);
      }
      [x] + s
  }

  /** `sorted(xs, key=...)`: stable, so equal keys keep their input order. */
  function SortByKey<T>(s: seq<Keyed<T>>): (r: seq<Keyed<T>>)
    ensures Sorted(r) && |r| == |s|
    decreases |s|
  {
    if s == [] then []
    else Insert(s[|s| - 1], SortByKey(s[..|s| - 1]))
  }

  /** Inserting adds `x` and nothing else. */
  lemma {:induction false} InsertMembers<T>(x: Keyed<T>, s: seq<Keyed<T>>)
    requires Sorted(s)
    ensures forall y :: y in Insert(x, s) ==> y == x || y in s
    decreases |s|
  {
    if s != [] && LexLeq(s[0].key, x.key) {
      InsertMembers(x, s[1..]);
      assert Insert(x, s) == [s[0]] + Insert(x, s[1..]);
    }
  }

  /** Every element of the sorted sequence comes from the input. */
  lemma {:induction false} SortedMembers<T>(s: seq<Keyed<T>>)
    ensures forall y :: y in SortByKey(s) ==> y in s
    decreases |s|
  {
    if s != [] {
      var p := s[..|s| - 1];
      SortedMembers(p);
      InsertMembers(s[|s| - 1], SortByKey(p));
    }
  }

  /** The items, keys dropped. */
  function Items<T>(s: seq<Keyed<T>>): (r: seq<T>)
    ensures |r| == |s|
    ensures forall i :: 0 <= i < |s| ==> r[i] == s[i].item
  {
    seq(|s|, i requires 0 <= i < |s| => s[i].item)
  }

  /** Inserting adds exactly the one item. */
  lemma {:induction false} InsertItems<T>(x: Keyed<T>, s: seq<Keyed<T>>)
    requires Sorted(s)
    ensures multiset(Items(Insert(x, s))) == multiset(Items(s)) + multiset{x.item}
    decreases |s|
  {
    var r := Insert(x, s);
    if s != [] && LexLeq(s[0].key, x.key) {
      var t := Insert(x, s[1..]);
      InsertItems(x, s[1..]);
      assert r == [s[0]] + t;
      ItemsCons(s[0], t);
      ItemsCons(s[0], s[1..]);
      assert s == [s[0]] + s[1..];
    } else {
      assert r == [x] + s;
      ItemsCons(x, s);
    }
  }

  lemma ItemsCons<T>(a: Keyed<T>, t: seq<Keyed<T>>)
    ensures Items([a] + t) == [a.item] + Items(t)
  {
  }

  /** Sorting keeps exactly the same items: a permutation. */
  lemma {:induction false} SortedItems<T>(s: seq<Keyed<T>>)
    ensures multiset(Items(SortByKey(s))) == multiset(Items(s))
    decreases |s|
  {
    if s != [] {
      var p := s[..|s| - 1];
      SortedItems(p);
      InsertItems(s[|s| - 1], SortByKey(p));
      ItemsSnoc(s);
    }
  }

  lemma ItemsSnoc<T>(s: seq<Keyed<T>>)
    requires s != []
    ensures Items(s) == Items(s[..|s| - 1]) + [s[|s| - 1].item]
  {
  }

  function Reverse<T>(s: seq<T>): (r: seq<T>)
    ensures |r| == |s|
    ensures forall i :: 0 <= i < |s| ==> r[i] == s[|s| - 1 - i]
  {
    seq(|s|, i requires 0 <= i < |s| => s[|s| - 1 - i])
  }

  lemma {:induction false} ReverseMultiset<T>(s: seq<T>)
    ensures multiset(Reverse(s)) == multiset(s)
    decreases |s|
  {
    if s != [] {
      var t := s[1..];
      ReverseMultiset(t);
      assert Reverse(s) == Reverse(t) + [s[0]];
      assert s == [s[0]] + t;
    }
  }

  lemma ItemsReverse<T>(s: seq<Keyed<T>>)
    ensures Items(Reverse(s)) == Reverse(Items(s))
  {
  }

  /** `sort(key=..., reverse=True)` as CPython performs it: reverse, sort
      stably in ascending order, reverse again; so equal keys, too, keep
      their input order. */
  function SortByKeyDescending<T>(s: seq<Keyed<T>>): (r: seq<Keyed<T>>)
    ensures |r| == |s|
  {
    Reverse(SortByKey(Reverse(s)))
  }

  /** The descending sort orders the keys from greatest to least. */
  lemma SortByKeyDescendingSorted<T>(s: seq<Keyed<T>>)
    ensures var r := SortByKeyDescending(s);
      forall i, j :: 0 <= i < j < |r| ==> LexLeq(r[j].key, r[i].key)
  {
    var sorted := SortByKey(Reverse(s));
    var r := SortByKeyDescending(s);
    forall i, j | 0 <= i < j < |r|
      ensures LexLeq(r[j].key, r[i].key)
    {
      assert r[i] == sorted[|r| - 1 - i] && r[j] == sorted[|r| - 1 - j];
    }
  }

  /** The descending sort keeps exactly the items it was given, and every
      element it returns was given to it. */
  lemma SortByKeyDescendingItems<T>(s: seq<Keyed<T>>)
    ensures multiset(Items(SortByKeyDescending(s))) == multiset(Items(s))
    ensures forall y :: y in SortByKeyDescending(s) ==> y in s
  {
    var sorted := SortByKey(Reverse(s));
    SortedItems(Reverse(s));
    ItemsReverse(s);
    ReverseMultiset(Items(s));
    ItemsReverse(sorted);
    ReverseMultiset(Items(sorted));
    SortedMembers(Reverse(s));
    forall y | y in SortByKeyDescending(s)
      ensures y in s
    {
      var i :| 0 <= i < |sorted| && Reverse(sorted)[i] == y;
      assert y == sorted[|sorted| - 1 - i];
      assert y in sorted;
      assert y in Reverse(s);
      var k :| 0 <= k < |s| && Reverse(s)[k] == y;
      assert y == s[|s| - 1 - k];
    }
  }
}
