/** String orders: `localeCompare` and the default `Array.prototype.sort` order.

    Which collation a runtime uses is not fixed by the source, so every sorting member takes the
    order as a parameter and every theorem holds for all of them. */
module Collation {

  ghost predicate StrictTotal(less: (string, string) -> bool) {
    && (forall a :: !less(a, a))
    && (forall a, b, c :: less(a, b) && less(b, c) ==> less(a, c))
    && (forall a, b :: a == b || less(a, b) || less(b, a))
  }

  /** A strict total order on strings, such as the one of `localeCompare` or of the default sort. */
  type Order = less: (string, string) -> bool | StrictTotal(less) ghost witness CharOrder()

  /** Lexicographic order by character. */
  predicate CharLess(a: string, b: string) {
    if |a| == 0 || |b| == 0 then |a| < |b|
    else a[0] < b[0] || (a[0] == b[0] && CharLess(a[1..], b[1..]))
  }

  lemma {:induction false} CharLessTransitive(a: string, b: string, c: string)
    requires CharLess(a, b) && CharLess(b, c)
    ensures CharLess(a, c)
  {
    if |a| > 0 && a[0] == b[0] && b[0] == c[0] {
      CharLessTransitive(a[1..], b[1..], c[1..]);
    }
  }

  lemma {:induction false} CharLessTotal(a: string, b: string)
    ensures !CharLess(a, a)
    ensures a == b || CharLess(a, b) || CharLess(b, a)
  {
    if |a| > 0 {
      CharLessTotal(a[1..], if |b| > 0 then b[1..] else b);
      if |b| > 0 && a[0] == b[0] && a[1..] == b[1..] {
        assert a == [a[0]] + a[1..] && b == [b[0]] + b[1..];
      }
    }
  }

  ghost function CharOrder(): (less: (string, string) -> bool)
    ensures StrictTotal(less)
  {
    assert StrictTotal(CharLess) by {
      forall a, b, c | CharLess(a, b) && CharLess(b, c) ensures CharLess(a, c) {
        CharLessTransitive(a, b, c);
      }
      forall a, b ensures !CharLess(a, a) && (a == b || CharLess(a, b) || CharLess(b, a)) {
        CharLessTotal(a, b);
      }
    }
    CharLess
  }

  // ----- the keys of a map, sorted -----

  ghost predicate StrictlySorted(keys: seq<string>, less: Order) {
    forall i, j :: 0 <= i < j < |keys| ==> less(keys[i], keys[j])
  }

  predicate IsLeast(k: string, keys: set<string>, less: Order) {
    k in keys && forall x :: x in keys ==> x == k || less(k, x)
  }

  lemma {:induction false} LeastExists(keys: set<string>, less: Order)
    requires keys != {}
    ensures exists k :: IsLeast(k, keys, less)
  {
    var y :| y in keys;
    var rest := keys - {y};
    if rest == {} {
      forall x | x in keys ensures x == y {
        assert x != y ==> x in rest;
      }
      assert IsLeast(y, keys, less);
    } else {
      LeastExists(rest, less);
      var z :| IsLeast(z, rest, less);
      if less(z, y) {
        assert IsLeast(z, keys, less);
      } else {
        assert less(y, z);
        forall x | x in keys ensures x == y || less(y, x) {
          assert x == y || x == z || less(z, x);
        }
        assert IsLeast(y, keys, less);
      }
    }
  }

  /** The keys in increasing order. */
  function SortedKeys(keys: set<string>, less: Order): (s: seq<string>)
    ensures forall k :: k in s <==> k in keys
    ensures |s| == |keys|
  {
    if keys == {} then []
    else
      var k := Least(keys, less);
      [k] + SortedKeys(keys - {k}, less)
  }

  function Least(keys: set<string>, less: Order): (k: string)
    requires keys != {}
    ensures IsLeast(k, keys, less)
  {
    LeastExists(keys, less);
    var k :| k in keys && IsLeast(k, keys, less);
    k
  }

  lemma {:induction false} SortedKeysOrdered(keys: set<string>, less: Order)
    ensures StrictlySorted(SortedKeys(keys, less), less)
  {
    if keys != {} {
      var k := Least(keys, less);
      var rest := SortedKeys(keys - {k}, less);
      SortedKeysOrdered(keys - {k}, less);
      forall i | 0 <= i < |rest| ensures less(k, rest[i]) {
        assert rest[i] in rest;
      }
    }
  }

  lemma SortedKeysDistinct(keys: set<string>, less: Order)
    ensures forall i :: 0 <= i < |SortedKeys(keys, less)| ==> SortedKeys(keys, less)[i] in keys
    ensures forall i, j :: 0 <= i < j < |SortedKeys(keys, less)| ==>
      SortedKeys(keys, less)[i] != SortedKeys(keys, less)[j]
  {
  }

  /** Only one list has given keys in increasing order. */
  lemma {:induction false} SortedUnique(s: seq<string>, t: seq<string>, less: Order)
    requires StrictlySorted(s, less) && StrictlySorted(t, less)
    requires forall k :: k in s <==> k in t
    ensures s == t
  {
    assert |t| > 0 ==> t[0] in t;
    if |s| > 0 {
      assert s[0] in t;
      var i :| 0 <= i < |t| && t[i] == s[0];
      assert t[0] in s;
      var j :| 0 <= j < |s| && s[j] == t[0];
      assert s[0] == t[0];
      forall k ensures k in s[1..] <==> k in t[1..] {
        assert k in s <==> k in t;
        assert s == [s[0]] + s[1..] && t == [t[0]] + t[1..];
      }
      SortedUnique(s[1..], t[1..], less);
      assert s == [s[0]] + s[1..] && t == [t[0]] + t[1..];
    }
  }

  // ----- sorting a list with a comparator: stable insertion -----

  /** What `Array.prototype.sort` needs of a comparator: ties are an equivalence. */
  ghost predicate WeakOrder<T(!new)>(before: (T, T) -> bool) {
    && (forall a, b :: before(a, b) ==> !before(b, a))
    && (forall a, b, c :: !before(a, b) && !before(b, c) ==> !before(a, c))
  }

  ghost predicate SortedBy<T(!new)>(s: seq<T>, before: (T, T) -> bool) {
    forall i, j :: 0 <= i < j < |s| ==> !before(s[j], s[i])
  }

  function Insert<T>(x: T, s: seq<T>, before: (T, T) -> bool): seq<T> {
    if |s| == 0 then [x]
    else if before(x, s[|s| - 1]) then Insert(x, s[..|s| - 1], before) + [s[|s| - 1]]
    else s + [x]
  }

  /** Stable sort: equal elements keep their order. */
  function Sort<T>(s: seq<T>, before: (T, T) -> bool): seq<T> {
    if |s| == 0 then [] else Insert(s[|s| - 1], Sort(s[..|s| - 1], before), before)
  }

  lemma {:induction false} InsertKeepsElements<T>(x: T, s: seq<T>, before: (T, T) -> bool)
    ensures multiset(Insert(x, s, before)) == multiset(s) + multiset{x}
  {
    if |s| > 0 {
      assert s == s[..|s| - 1] + [s[|s| - 1]];
      InsertKeepsElements(x, s[..|s| - 1], before);
    }
  }

  lemma {:induction false} SortKeepsElements<T>(s: seq<T>, before: (T, T) -> bool)
    ensures multiset(Sort(s, before)) == multiset(s)
    ensures |Sort(s, before)| == |s|
  {
    if |s| > 0 {
      assert s == s[..|s| - 1] + [s[|s| - 1]];
      SortKeepsElements(s[..|s| - 1], before);
      InsertKeepsElements(s[|s| - 1], Sort(s[..|s| - 1], before), before);
    }
    assert |multiset(Sort(s, before))| == |multiset(s)|;
  }

  lemma {:induction false} InsertSorts<T(!new)>(x: T, s: seq<T>, before: (T, T) -> bool)
    requires WeakOrder(before) && SortedBy(s, before)
    ensures SortedBy(Insert(x, s, before), before)
  {
    if |s| > 0 && before(x, s[|s| - 1]) {
      var init, last := s[..|s| - 1], s[|s| - 1];
      InsertSorts(x, init, before);
      InsertKeepsElements(x, init, before);
      var r := Insert(x, init, before);
      forall i | 0 <= i < |r| ensures !before(last, r[i]) {
        assert r[i] in multiset(r);
        if r[i] != x {
          assert r[i] in init;
        }
      }
    }
  }

  lemma {:induction false} SortSorts<T(!new)>(s: seq<T>, before: (T, T) -> bool)
    requires WeakOrder(before)
    ensures SortedBy(Sort(s, before), before)
  {
    if |s| > 0 {
      SortSorts(s[..|s| - 1], before);
      InsertSorts(s[|s| - 1], Sort(s[..|s| - 1], before), before);
    }
  }

  /** Two arrangements of the same elements: taking the last element of one out of the other leaves
      two arrangements of the same elements again. */
  lemma TakeOut<T>(s: seq<T>, t: seq<T>) returns (before: seq<T>, after: seq<T>)
    requires multiset(s) == multiset(t) && |s| > 0
    ensures t == before + [s[|s| - 1]] + after
    ensures multiset(s[..|s| - 1]) == multiset(before + after)
  {
    var init, last := s[..|s| - 1], s[|s| - 1];
    assert s == init + [last];
    assert last in multiset(t);
    var j :| 0 <= j < |t| && t[j] == last;
    before, after := t[..j], t[j + 1..];
    assert t == before + [last] + after;
    assert multiset(init) == multiset(s) - multiset{last};
    assert multiset(before + after) == multiset(t) - multiset{last};
  }
}
