/**
 * Python's `sorted(xs, key=..., reverse=...)` and `list.sort` on keys that are lists of simple
 * values: a stable sort, and the element-by-element comparison Python applies to two lists.
 */
module Sorting {
  import opened Wrappers

  /**
   * One component of a sort key: Python's `None`, a number (an `int`, a `float`, a `Decimal` or a
   * `bool`, which Python compares as 0 and 1), or a `str`. `Desc` is not a Python value: it marks
   * a component to be compared in the opposite direction.
   */
  datatype KeyValue = NoneValue | Num(n: real) | Str(s: string) | Desc(v: KeyValue)

  type Key = seq<KeyValue>

  /** `a < b` on `str`: code point by code point, a proper prefix first. */
  predicate StrLess(a: string, b: string) {
    if a == [] then b != []
    else if b == [] then false
    else if a[0] == b[0] then StrLess(a[1..], b[1..])
    else a[0] < b[0]
  }

  /** How many `Desc` wrap the value. */
  function Depth(v: KeyValue): nat {
    if v.Desc? then 1 + Depth(v.v) else 0
  }

  function Rank(v: KeyValue): nat {
    match v
    case NoneValue => 0
    case Num(_) => 1
    case Str(_) => 2
    case Desc(_) => 3
  }

  /**
   * A total order on key components: numbers and strings as Python orders them, `Desc` reversed,
   * and components of different kinds by kind.
   */
  predicate ValueLess(a: KeyValue, b: KeyValue)
    decreases Depth(a) + Depth(b)
  {
    match (a, b)
    case (Num(x), Num(y)) => x < y
    case (Str(x), Str(y)) => StrLess(x, y)
    case (Desc(x), Desc(y)) => ValueLess(y, x)
    case _ => Rank(a) < Rank(b)
  }

  /** Lexicographic order on keys, a proper prefix first: Python's `<` on two lists. */
  predicate KeyLess(a: Key, b: Key) {
    if a == [] then b != []
    else if b == [] then false
    else if a[0] == b[0] then KeyLess(a[1..], b[1..])
    else ValueLess(a[0], b[0])
  }

  lemma {:induction false} StrLessIrreflexive(a: string)
    ensures !StrLess(a, a)
  {
    if a != [] {
      StrLessIrreflexive(a[1..]);
    }
  }

  lemma {:induction false} StrLessTotal(a: string, b: string)
    ensures a != b ==> StrLess(a, b) || StrLess(b, a)
    ensures StrLess(a, b) ==> !StrLess(b, a)
  {
    if a != [] && b != [] && a[0] == b[0] {
      StrLessTotal(a[1..], b[1..]);
      if a[1..] == b[1..] {
        assert a == [a[0]] + a[1..] && b == [b[0]] + b[1..];
      }
    }
  }

  lemma {:induction false} StrLessTransitive(a: string, b: string, c: string)
    requires StrLess(a, b) && StrLess(b, c)
    ensures StrLess(a, c)
  {
    if a != [] && a[0] == b[0] && b[0] == c[0] {
      StrLessTransitive(a[1..], b[1..], c[1..]);
    }
  }

  lemma {:induction false} ValueLessIrreflexive(a: KeyValue)
    ensures !ValueLess(a, a)
  {
    match a
    case Str(x) => StrLessIrreflexive(x);
    case Desc(x) => ValueLessIrreflexive(x);
    case _ =>
  }

  lemma {:induction false} ValueLessTotal(a: KeyValue, b: KeyValue)
    ensures a != b ==> ValueLess(a, b) || ValueLess(b, a)
    ensures ValueLess(a, b) ==> !ValueLess(b, a)
    decreases Depth(a) + Depth(b)
  {
    match (a, b)
    case (Str(x), Str(y)) => StrLessTotal(x, y);
    case (Desc(x), Desc(y)) => ValueLessTotal(x, y);
    case _ =>
  }

  lemma {:induction false} ValueLessTransitive(a: KeyValue, b: KeyValue, c: KeyValue)
    requires ValueLess(a, b) && ValueLess(b, c)
    ensures ValueLess(a, c)
    decreases Depth(a) + Depth(b) + Depth(c)
  {
    match (a, b, c)
    case (Str(x), Str(y), Str(z)) => StrLessTransitive(x, y, z);
    case (Desc(x), Desc(y), Desc(z)) => ValueLessTransitive(z, y, x);
    case _ =>
  }

  lemma {:induction false} KeyLessIrreflexive(a: Key)
    ensures !KeyLess(a, a)
  {
    if a != [] {
      KeyLessIrreflexive(a[1..]);
    }
  }

  lemma {:induction false} KeyLessTotal(a: Key, b: Key)
    ensures a != b ==> KeyLess(a, b) || KeyLess(b, a)
    ensures KeyLess(a, b) ==> !KeyLess(b, a)
  {
    if a != [] && b != [] {
      if a[0] == b[0] {
        KeyLessTotal(a[1..], b[1..]);
        if a[1..] == b[1..] {
          assert a == [a[0]] + a[1..] && b == [b[0]] + b[1..];
        }
      } else {
        ValueLessTotal(a[0], b[0]);
      }
    }
  }

  lemma {:induction false} KeyLessTransitive(a: Key, b: Key, c: Key)
    requires KeyLess(a, b) && KeyLess(b, c)
    ensures KeyLess(a, c)
  {
    if a != [] {
      if a[0] == b[0] && b[0] == c[0] {
        KeyLessTransitive(a[1..], b[1..], c[1..]);
      } else if a[0] != b[0] && b[0] != c[0] {
        ValueLessTransitive(a[0], b[0], c[0]);
        ValueLessIrreflexive(a[0]);
      }
    }
  }

  /** `KeyLess` is a strict total order. */
  lemma KeyLessStrictTotal(a: Key, b: Key, c: Key)
    ensures !KeyLess(a, a)
    ensures a != b ==> KeyLess(a, b) || KeyLess(b, a)
    ensures KeyLess(a, b) ==> !KeyLess(b, a)
    ensures KeyLess(a, b) && KeyLess(b, c) ==> KeyLess(a, c)
  {
    KeyLessIrreflexive(a);
    KeyLessTotal(a, b);
    if KeyLess(a, b) && KeyLess(b, c) {
      KeyLessTransitive(a, b, c);
    }
  }

  /**
   * Python's `a < b` on two components that differ: numbers and strings among themselves;
   * anything else (`None` against a number, say) raises `TypeError`, here None.
   */
  function PyValueLess(a: KeyValue, b: KeyValue): Option<bool> {
    match (a, b)
    case (Num(x), Num(y)) => Some(x < y)
    case (Str(x), Str(y)) => Some(StrLess(x, y))
    case _ => None
  }

  /**
   * Python's `a < b` on two lists: the first position where they differ decides; a list that
   * is a prefix of the other is smaller. None where that comparison raises `TypeError`.
   */
  function PyKeyLess(a: Key, b: Key): Option<bool> {
    if a == [] then Some(b != [])
    else if b == [] then Some(false)
    else if a[0] == b[0] then PyKeyLess(a[1..], b[1..])
    else PyValueLess(a[0], b[0])
  }

  /** Wherever Python's list comparison succeeds, it agrees with `KeyLess`. */
  lemma {:induction false} PyKeyLessAgrees(a: Key, b: Key)
    requires PyKeyLess(a, b).Some?
    ensures PyKeyLess(a, b) == Some(KeyLess(a, b))
  {
    if a != [] && b != [] && a[0] == b[0] {
      PyKeyLessAgrees(a[1..], b[1..]);
    }
  }

  /** The order a sort establishes: ascending, or descending for `reverse=True`. */
  predicate Before(a: Key, b: Key, descending: bool) {
    if descending then KeyLess(b, a) else KeyLess(a, b)
  }

  /** Every element is at or after every earlier one in the sort order. */
  predicate SortedBy<T>(xs: seq<T>, key: T -> Key, descending: bool) {
    forall i, j :: 0 <= i < j < |xs| ==> !Before(key(xs[j]), key(xs[i]), descending)
  }

  /** The elements whose key is `k`, in their order. */
  function WithKey<T>(xs: seq<T>, key: T -> Key, k: Key): (r: seq<T>)
    ensures |r| <= |xs|
  {
    if xs == [] then []
    else (if key(xs[0]) == k then [xs[0]] else []) + WithKey(xs[1..], key, k)
  }

  /** `x` placed before the first element that does not sort strictly before it. */
  function Insert<T>(x: T, ys: seq<T>, key: T -> Key, descending: bool): (r: seq<T>)
    ensures |r| == |ys| + 1
  {
    if ys == [] then [x]
    else if Before(key(ys[0]), key(x), descending) then [ys[0]] + Insert(x, ys[1..], key, descending)
    else [x] + ys
  }

  /**
   * `sorted(xs, key=key, reverse=descending)`: stable, so elements whose keys are equal keep
   * their order (also under `reverse=True`, which Python implements without disturbing ties).
   */
  function SortBy<T>(xs: seq<T>, key: T -> Key, descending: bool): (r: seq<T>)
    ensures |r| == |xs|
  {
    if xs == [] then [] else Insert(xs[0], SortBy(xs[1..], key, descending), key, descending)
  }

  /** Two elements sorted: swapped exactly when the second goes strictly before the first. */
  lemma SortPair<T>(a: T, b: T, key: T -> Key, descending: bool)
    ensures SortBy([a, b], key, descending) == if Before(key(b), key(a), descending) then [b, a] else [a, b]
  {
    assert SortBy([b], key, descending) == [b] by {
      assert [b][1..] == [];
    }
    assert SortBy([a, b], key, descending) == Insert(a, [b], key, descending) by {
      assert [a, b][1..] == [b];
    }
    assert Insert(a, [], key, descending) == [a];
    assert [b][1..] == [];
  }

  lemma {:induction false} InsertPermutes<T>(x: T, ys: seq<T>, key: T -> Key, descending: bool)
    ensures multiset(Insert(x, ys, key, descending)) == multiset(ys) + multiset{x}
  {
    if ys != [] && Before(key(ys[0]), key(x), descending) {
      var rest := Insert(x, ys[1..], key, descending);
      assert Insert(x, ys, key, descending) == [ys[0]] + rest;
      InsertPermutes(x, ys[1..], key, descending);
      assert ys == [ys[0]] + ys[1..];
      assert multiset([ys[0]] + rest) == multiset{ys[0]} + multiset(rest);
    }
  }

  lemma {:induction false} SortPermutes<T>(xs: seq<T>, key: T -> Key, descending: bool)
    ensures multiset(SortBy(xs, key, descending)) == multiset(xs)
  {
    if xs != [] {
      SortPermutes(xs[1..], key, descending);
      InsertPermutes(xs[0], SortBy(xs[1..], key, descending), key, descending);
      assert xs == [xs[0]] + xs[1..];
    }
  }

  /** `Before` is a strict total order, in both directions. */
  lemma BeforeStrictTotal(a: Key, b: Key, c: Key, descending: bool)
    ensures !Before(a, a, descending)
    ensures a != b ==> Before(a, b, descending) || Before(b, a, descending)
    ensures Before(a, b, descending) ==> !Before(b, a, descending)
    ensures Before(a, b, descending) && Before(b, c, descending) ==> Before(a, c, descending)
  {
    KeyLessStrictTotal(a, b, c);
    KeyLessStrictTotal(c, b, a);
  }

  /** Not strictly after is transitive (it is "at or before"). */
  lemma NotBeforeTransitive(a: Key, b: Key, c: Key, descending: bool)
    requires !Before(b, a, descending) && !Before(c, b, descending)
    ensures !Before(c, a, descending)
  {
    BeforeStrictTotal(a, b, c, descending);
    BeforeStrictTotal(c, a, b, descending);
    BeforeStrictTotal(b, c, a, descending);
    BeforeStrictTotal(a, c, b, descending);
  }

  lemma {:induction false} InsertSorted<T>(x: T, ys: seq<T>, key: T -> Key, descending: bool)
    requires SortedBy(ys, key, descending)
    ensures SortedBy(Insert(x, ys, key, descending), key, descending)
  {
    if ys == [] {
    } else if Before(key(ys[0]), key(x), descending) {
      var rest := Insert(x, ys[1..], key, descending);
      assert Insert(x, ys, key, descending) == [ys[0]] + rest;
      InsertSorted(x, ys[1..], key, descending);
      HeadStaysFirst(x, ys, key, descending);
      ConsSorted(ys[0], rest, key, descending);
    } else {
      assert Insert(x, ys, key, descending) == [x] + ys;
      forall e | e in ys
        ensures !Before(key(e), key(x), descending)
      {
        var j :| 0 <= j < |ys| && ys[j] == e;
        if j > 0 {
          NotBeforeTransitive(key(x), key(ys[0]), key(ys[j]), descending);
        }
      }
      ConsSorted(x, ys, key, descending);
    }
  }

  /** The head of a sorted list that goes before `x` goes before everything `x` is inserted into. */
  lemma HeadStaysFirst<T>(x: T, ys: seq<T>, key: T -> Key, descending: bool)
    requires SortedBy(ys, key, descending) && ys != [] && Before(key(ys[0]), key(x), descending)
    ensures forall e | e in Insert(x, ys[1..], key, descending) :: !Before(key(e), key(ys[0]), descending)
  {
    InsertPermutes(x, ys[1..], key, descending);
    forall e | e in Insert(x, ys[1..], key, descending)
      ensures !Before(key(e), key(ys[0]), descending)
    {
      assert e in multiset(ys[1..]) + multiset{x};
      if e == x {
        BeforeStrictTotal(key(ys[0]), key(x), key(x), descending);
      } else {
        assert e in ys[1..];
        var k :| 0 <= k < |ys[1..]| && ys[1..][k] == e;
        assert ys[k + 1] == e;
      }
    }
  }

  /** A sorted list stays sorted behind an element that nothing in it goes before. */
  lemma ConsSorted<T>(h: T, xs: seq<T>, key: T -> Key, descending: bool)
    requires SortedBy(xs, key, descending)
    requires forall e | e in xs :: !Before(key(e), key(h), descending)
    ensures SortedBy([h] + xs, key, descending)
  {
    var r := [h] + xs;
    forall i, j | 0 <= i < j < |r|
      ensures !Before(key(r[j]), key(r[i]), descending)
    {
      assert r[j] == xs[j - 1];
      if i > 0 {
        assert r[i] == xs[i - 1];
      } else {
        assert xs[j - 1] in xs;
      }
    }
  }

  lemma {:induction false} SortSorted<T>(xs: seq<T>, key: T -> Key, descending: bool)
    ensures SortedBy(SortBy(xs, key, descending), key, descending)
  {
    if xs != [] {
      SortSorted(xs[1..], key, descending);
      InsertSorted(xs[0], SortBy(xs[1..], key, descending), key, descending);
    }
  }

  lemma {:induction false} InsertStable<T>(x: T, ys: seq<T>, key: T -> Key, descending: bool, k: Key)
    ensures WithKey(Insert(x, ys, key, descending), key, k)
            == (if key(x) == k then [x] else []) + WithKey(ys, key, k)
  {
    if ys == [] {
    } else if Before(key(ys[0]), key(x), descending) {
      var rest := Insert(x, ys[1..], key, descending);
      var first := if key(ys[0]) == k then [ys[0]] else [];
      var mine := if key(x) == k then [x] else [];
      assert key(ys[0]) != key(x) by {
        BeforeStrictTotal(key(x), key(x), key(x), descending);
      }
      InsertStable(x, ys[1..], key, descending, k);
      assert WithKey([ys[0]] + rest, key, k) == first + WithKey(rest, key, k) by {
        assert ([ys[0]] + rest)[1..] == rest;
      }
      assert WithKey(ys, key, k) == first + WithKey(ys[1..], key, k);
      SwapAroundEmpty(first, mine, WithKey(ys[1..], key, k));
    } else {
      assert ([x] + ys)[1..] == ys;
    }
  }

  lemma SwapAroundEmpty<T>(a: seq<T>, b: seq<T>, w: seq<T>)
    requires a == [] || b == []
    ensures a + (b + w) == b + (a + w)
  {
    if a == [] {
      assert a + (b + w) == b + w;
    } else {
      assert b + (a + w) == a + w;
    }
  }

  /** Stability: the elements with any one key appear in the result in their original order. */
  lemma {:induction false} SortStable<T>(xs: seq<T>, key: T -> Key, descending: bool, k: Key)
    ensures WithKey(SortBy(xs, key, descending), key, k) == WithKey(xs, key, k)
  {
    if xs != [] {
      SortStable(xs[1..], key, descending, k);
      InsertStable(xs[0], SortBy(xs[1..], key, descending), key, descending, k);
    }
  }

  /** Some two elements whose keys Python cannot compare. */
  predicate HasIncomparablePair<T>(xs: seq<T>, key: T -> Key) {
    exists i, j | 0 <= i < |xs| && 0 <= j < |xs| :: PyKeyLess(key(xs[i]), key(xs[j])).None?
  }

  /**
   * `list.sort(key=key, reverse=descending)` in Python: the stable sort, or None for the
   * `TypeError` raised when the sort compares two keys Python cannot order.
   */
  function PySort<T>(xs: seq<T>, key: T -> Key, descending: bool): (r: Option<seq<T>>)
    ensures r.None? <==> HasIncomparablePair(xs, key)
    ensures r.Some? ==> r.value == SortBy(xs, key, descending)
  {
    if HasIncomparablePair(xs, key) then None else Some(SortBy(xs, key, descending))
  }
}
