/** Grouping by key: the Maps in which the source adds up units. */
module Grouping {
  import opened Collation

  /** One contribution of `units` to `key`. */
  datatype Piece = Piece(key: string, units: int)

  /** All units contributed. */
  function Units(ps: seq<Piece>): int {
    if |ps| == 0 then 0 else Units(ps[..|ps| - 1]) + ps[|ps| - 1].units
  }

  /** The units contributed to one key. */
  function UnitsOf(ps: seq<Piece>, key: string): int {
    if |ps| == 0 then 0
    else UnitsOf(ps[..|ps| - 1], key) + if ps[|ps| - 1].key == key then ps[|ps| - 1].units else 0
  }

  function At(m: map<string, int>, key: string): int {
    if key in m then m[key] else 0
  }

  /** Add units to a key, which starts at zero. */
  function Bump(m: map<string, int>, key: string, units: int): map<string, int> {
    m[key := At(m, key) + units]
  }

  function Tally(ps: seq<Piece>): map<string, int> {
    if |ps| == 0 then map[] else Bump(Tally(ps[..|ps| - 1]), ps[|ps| - 1].key, ps[|ps| - 1].units)
  }

  ghost predicate Mentions(ps: seq<Piece>, key: string) {
    exists i :: 0 <= i < |ps| && ps[i].key == key
  }

  ghost function Total(m: map<string, int>): int {
    if m == map[] then 0 else var k :| k in m; m[k] + Total(m - {k})
  }

  lemma {:induction false} TotalRemove(m: map<string, int>, key: string)
    requires key in m
    ensures Total(m) == m[key] + Total(m - {key})
  {
    var k :| k in m && Total(m) == m[k] + Total(m - {k});
    if k != key {
      assert m - {k} - {key} == m - {key} - {k};
      TotalRemove(m - {k}, key);
      TotalRemove(m - {key}, k);
    }
  }

  lemma TotalBump(m: map<string, int>, key: string, units: int)
    ensures Total(Bump(m, key, units)) == Total(m) + units
  {
    var b := Bump(m, key, units);
    TotalRemove(b, key);
    assert b - {key} == m - {key};
    if key in m {
      TotalRemove(m, key);
    } else {
      assert m - {key} == m;
    }
  }

  /** Grouping conserves units. */
  lemma {:induction false} TallyConserves(ps: seq<Piece>)
    ensures Total(Tally(ps)) == Units(ps)
  {
    if |ps| > 0 {
      TallyConserves(ps[..|ps| - 1]);
      TotalBump(Tally(ps[..|ps| - 1]), ps[|ps| - 1].key, ps[|ps| - 1].units);
    }
  }

  /** The group of a key holds exactly what was contributed to that key. */
  lemma {:induction false} TallyAt(ps: seq<Piece>)
    ensures forall k :: At(Tally(ps), k) == UnitsOf(ps, k)
    ensures forall k :: k in Tally(ps) <==> Mentions(ps, k)
  {
    if |ps| > 0 {
      var init, last := ps[..|ps| - 1], ps[|ps| - 1];
      TallyAt(init);
      forall k ensures Mentions(ps, k) <==> Mentions(init, k) || k == last.key {
        if i :| 0 <= i < |ps| && ps[i].key == k {
          assert i < |init| ==> init[i].key == k;
        }
        if i :| 0 <= i < |init| && init[i].key == k {
          assert ps[i].key == k;
        }
      }
    }
  }

  lemma EmptyMentions(ps: seq<Piece>)
    ensures |ps| == 0 <==> forall k :: !Mentions(ps, k)
  {
    if |ps| > 0 {
      assert Mentions(ps, ps[0].key);
    }
  }

  lemma {:induction false} UnitsAppend(ps: seq<Piece>, qs: seq<Piece>, key: string)
    ensures Units(ps + qs) == Units(ps) + Units(qs)
    ensures UnitsOf(ps + qs, key) == UnitsOf(ps, key) + UnitsOf(qs, key)
  {
    if |qs| == 0 {
      assert ps + qs == ps;
    } else {
      assert (ps + qs)[..|ps + qs| - 1] == ps + qs[..|qs| - 1];
      UnitsAppend(ps, qs[..|qs| - 1], key);
    }
  }

  // ----- signs -----

  ghost predicate NonNegative(m: map<string, int>) {
    forall k :: k in m ==> m[k] >= 0
  }

  lemma {:induction false} PiecesNonNegative(ps: seq<Piece>, key: string)
    requires forall i :: 0 <= i < |ps| ==> ps[i].units >= 0
    ensures UnitsOf(ps, key) >= 0 && Units(ps) >= 0
  {
    if |ps| > 0 {
      PiecesNonNegative(ps[..|ps| - 1], key);
    }
  }

  lemma {:induction false} TotalNonNegative(m: map<string, int>)
    requires NonNegative(m)
    ensures Total(m) >= 0
    decreases |m|
  {
    if m != map[] {
      var k :| k in m && Total(m) == m[k] + Total(m - {k});
      TotalNonNegative(m - {k});
    }
  }

  lemma TallyNonNegative(ps: seq<Piece>)
    requires forall i :: 0 <= i < |ps| ==> ps[i].units >= 0
    ensures NonNegative(Tally(ps))
  {
  }

  // ----- pieces contributed source by source -----

  function FlatMap<T>(s: seq<T>, f: T -> seq<Piece>): seq<Piece> {
    if |s| == 0 then [] else FlatMap(s[..|s| - 1], f) + f(s[|s| - 1])
  }

  lemma {:induction false} FlatMapUnits<T>(s: seq<T>, t: seq<T>, f: T -> seq<Piece>, key: string)
    ensures Units(FlatMap(s + t, f)) == Units(FlatMap(s, f)) + Units(FlatMap(t, f))
    ensures UnitsOf(FlatMap(s + t, f), key) == UnitsOf(FlatMap(s, f), key) + UnitsOf(FlatMap(t, f), key)
  {
    if |t| == 0 {
      assert s + t == s;
    } else {
      var init, last := t[..|t| - 1], t[|t| - 1];
      assert (s + t)[..|s + t| - 1] == s + init;
      FlatMapUnits(s, init, f, key);
      UnitsAppend(FlatMap(s + init, f), f(last), key);
      UnitsAppend(FlatMap(init, f), f(last), key);
    }
  }

  /** What each key receives does not depend on the order of the sources. */
  lemma {:induction false} FlatMapPermute<T>(s: seq<T>, t: seq<T>, f: T -> seq<Piece>, key: string)
    requires multiset(s) == multiset(t)
    ensures Units(FlatMap(s, f)) == Units(FlatMap(t, f)) && UnitsOf(FlatMap(s, f), key) == UnitsOf(FlatMap(t, f), key)
  {
    if |s| == 0 {
      assert |multiset(t)| == 0;
    } else {
      var init, last := s[..|s| - 1], s[|s| - 1];
      var before, after := TakeOut(s, t);
      assert s == init + [last];
      FlatMapPermute(init, before + after, f, key);
      FlatMapUnits(init, [last], f, key);
      FlatMapUnits(before, after, f, key);
      FlatMapUnits(before + [last], after, f, key);
      FlatMapUnits(before, [last], f, key);
    }
  }

  lemma {:induction false} FlatMapMentions<T>(s: seq<T>, f: T -> seq<Piece>, key: string)
    ensures Mentions(FlatMap(s, f), key) <==> exists i :: 0 <= i < |s| && Mentions(f(s[i]), key)
  {
    if |s| > 0 {
      var init, last := s[..|s| - 1], s[|s| - 1];
      FlatMapMentions(init, f, key);
      AppendMentions(FlatMap(init, f), f(last), key);
      if i :| 0 <= i < |init| && Mentions(f(init[i]), key) {
        assert Mentions(f(s[i]), key);
      }
      if i :| 0 <= i < |s| && Mentions(f(s[i]), key) {
        assert i < |init| ==> Mentions(f(init[i]), key);
      }
    }
  }

  lemma AppendMentions(ps: seq<Piece>, qs: seq<Piece>, key: string)
    ensures Mentions(ps + qs, key) <==> Mentions(ps, key) || Mentions(qs, key)
  {
    if i :| 0 <= i < |ps| && ps[i].key == key {
      assert (ps + qs)[i].key == key;
    }
    if i :| 0 <= i < |qs| && qs[i].key == key {
      assert (ps + qs)[|ps| + i].key == key;
    }
  }

  lemma FlatMapMentionsPermute<T>(s: seq<T>, t: seq<T>, f: T -> seq<Piece>, key: string)
    requires multiset(s) == multiset(t)
    ensures Mentions(FlatMap(s, f), key) ==> Mentions(FlatMap(t, f), key)
  {
    FlatMapMentions(s, f, key);
    FlatMapMentions(t, f, key);
    if i :| 0 <= i < |s| && Mentions(f(s[i]), key) {
      assert s[i] in multiset(t);
      var k :| 0 <= k < |t| && t[k] == s[i];
      assert Mentions(f(t[k]), key);
    }
  }

  /** Grouping depends only on how much each key received: neither the order of the pieces nor how
      an amount was split between pieces of one key matters. */
  lemma TallyDeterminedByUnits(ps: seq<Piece>, qs: seq<Piece>)
    requires forall k :: Mentions(ps, k) <==> Mentions(qs, k)
    requires forall k :: UnitsOf(ps, k) == UnitsOf(qs, k)
    ensures Tally(ps) == Tally(qs)
  {
    TallyAt(ps);
    TallyAt(qs);
    var m, n := Tally(ps), Tally(qs);
    forall k ensures k in m <==> k in n {
      assert Mentions(ps, k) <==> Mentions(qs, k);
    }
    forall k | k in m ensures m[k] == n[k] {
      assert At(m, k) == At(n, k);
    }
  }

  // ----- a grouped map listed in key order -----

  function SumAlong(keys: seq<string>, m: map<string, int>): int
    requires forall k :: k in keys ==> k in m
  {
    if |keys| == 0 then 0 else SumAlong(keys[..|keys| - 1], m) + m[keys[|keys| - 1]]
  }

  lemma {:induction false} SumAlongTotal(keys: seq<string>, m: map<string, int>)
    requires forall k :: k in keys <==> k in m
    requires forall i, j :: 0 <= i < j < |keys| ==> keys[i] != keys[j]
    ensures SumAlong(keys, m) == Total(m)
  {
    if |keys| > 0 {
      var init, last := keys[..|keys| - 1], keys[|keys| - 1];
      TotalRemove(m, last);
      forall k ensures k in init <==> k in m - {last} {
        if k in m && k != last {
          var i :| 0 <= i < |keys| && keys[i] == k;
          assert init[i] == k;
        }
      }
      SumAlongTotal(init, m - {last});
      SumAlongSame(init, m, m - {last});
    } else {
      assert m == map[];
    }
  }

  lemma {:induction false} SumAlongSame(keys: seq<string>, m: map<string, int>, n: map<string, int>)
    requires forall k :: k in keys ==> k in m && k in n && m[k] == n[k]
    ensures SumAlong(keys, m) == SumAlong(keys, n)
  {
    if |keys| > 0 {
      SumAlongSame(keys[..|keys| - 1], m, n);
    }
  }

  /** A grouped map as one piece a key, in key order. */
  function KeyPieces(m: map<string, int>, less: Order): seq<Piece> {
    var keys := SortedKeys(m.Keys, less);
    seq(|keys|, i requires 0 <= i < |keys| => Piece(keys[i], m[keys[i]]))
  }

  lemma {:induction false} DistinctTally(keys: seq<string>, m: map<string, int>, ps: seq<Piece>)
    requires |ps| == |keys| && forall i :: 0 <= i < |keys| ==> keys[i] in m && ps[i] == Piece(keys[i], m[keys[i]])
    requires forall i, k :: 0 <= i < k < |keys| ==> keys[i] != keys[k]
    ensures forall i :: 0 <= i < |keys| ==> UnitsOf(ps, keys[i]) == m[keys[i]]
    ensures forall key :: key !in keys ==> UnitsOf(ps, key) == 0
  {
    if |keys| > 0 {
      var n := |keys| - 1;
      DistinctTally(keys[..n], m, ps[..n]);
      assert keys[n] !in keys[..n];
      forall i | 0 <= i < n ensures UnitsOf(ps, keys[i]) == m[keys[i]] {
        assert keys[..n][i] == keys[i];
      }
    }
  }

  lemma KeyPiecesAt(m: map<string, int>, less: Order, key: string)
    ensures UnitsOf(KeyPieces(m, less), key) == At(m, key)
    ensures Mentions(KeyPieces(m, less), key) <==> key in m
  {
    var keys, ps := SortedKeys(m.Keys, less), KeyPieces(m, less);
    SortedKeysDistinct(m.Keys, less);
    DistinctTally(keys, m, ps);
    assert key in keys <==> key in m;
    if key in keys {
      var i :| 0 <= i < |keys| && keys[i] == key;
      assert ps[i].key == key;
    }
  }

  /** Grouping the listed pieces gives the map back. */
  lemma KeyPiecesSpec(m: map<string, int>, less: Order)
    ensures Tally(KeyPieces(m, less)) == m && Units(KeyPieces(m, less)) == Total(m)
  {
    hide Tally, UnitsOf, KeyPieces, Mentions;
    var n := Tally(KeyPieces(m, less));
    TallyAt(KeyPieces(m, less));
    forall k ensures (k in m <==> k in n) && At(m, k) == At(n, k) {
      KeyPiecesAt(m, less, k);
    }
    forall k | k in m ensures m[k] == n[k] {
      assert At(m, k) == At(n, k);
    }
    TallyConserves(KeyPieces(m, less));
  }

  lemma {:induction false} DistinctUnits(ps: seq<Piece>, i: nat)
    requires i < |ps| && forall j, k :: 0 <= j < k < |ps| ==> ps[j].key != ps[k].key
    ensures UnitsOf(ps, ps[i].key) == ps[i].units
  {
    var n := |ps| - 1;
    if i < n {
      DistinctUnits(ps[..n], i);
      assert ps[..n][i] == ps[i];
    } else {
      AbsentUnits(ps[..n], ps[i].key);
    }
  }

  lemma {:induction false} AbsentUnits(ps: seq<Piece>, key: string)
    requires forall i :: 0 <= i < |ps| ==> ps[i].key != key
    ensures UnitsOf(ps, key) == 0
  {
    if |ps| > 0 {
      AbsentUnits(ps[..|ps| - 1], key);
    }
  }

  lemma OrderedKeys(ps: seq<Piece>, own: seq<string>, less: Order)
    requires |own| == |ps| && forall i :: 0 <= i < |ps| ==> own[i] == ps[i].key
    requires StrictlySorted(own, less)
    ensures own == SortedKeys(Tally(ps).Keys, less)
  {
    TallyAt(ps);
    var keys := SortedKeys(Tally(ps).Keys, less);
    forall k ensures k in own <==> k in keys {
      assert k in Tally(ps) <==> Mentions(ps, k);
      if i :| 0 <= i < |ps| && ps[i].key == k {
        assert own[i] == k;
      }
    }
    SortedKeysOrdered(Tally(ps).Keys, less);
    SortedUnique(own, keys, less);
  }

  lemma DistinctListed(ps: seq<Piece>)
    requires forall i, j :: 0 <= i < j < |ps| ==> ps[i].key != ps[j].key
    ensures forall i :: 0 <= i < |ps| ==> ps[i].key in Tally(ps) && Tally(ps)[ps[i].key] == ps[i].units
  {
    TallyAt(ps);
    forall i | 0 <= i < |ps| ensures ps[i].key in Tally(ps) && Tally(ps)[ps[i].key] == ps[i].units {
      DistinctUnits(ps, i);
      assert Mentions(ps, ps[i].key);
      assert At(Tally(ps), ps[i].key) == UnitsOf(ps, ps[i].key);
    }
  }

  ghost predicate OrderedByKey(ps: seq<Piece>, less: Order) {
    forall i, j :: 0 <= i < j < |ps| ==> less(ps[i].key, ps[j].key)
  }

  /** Pieces that are already in key order are the listing of their own grouping. */
  lemma OrderedPieces(ps: seq<Piece>, less: Order)
    requires OrderedByKey(ps, less)
    ensures ps == KeyPieces(Tally(ps), less)
  {
    var own := seq(|ps|, i requires 0 <= i < |ps| => ps[i].key);
    OrderedKeys(ps, own, less);
    hide OrderedByKey, Tally;
    SortedKeysDistinct(Tally(ps).Keys, less);
    forall i, j | 0 <= i < j < |ps| ensures ps[i].key != ps[j].key {
      assert own[i] != own[j];
    }
    DistinctListed(ps);
  }
}
