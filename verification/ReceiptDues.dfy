/** What a receipt owes each claimant, said without the splits: the reference that
    `explodeToClaimants` is proved to add up. */
module ReceiptDues {
  import opened Wrappers
  import opened Collation
  import opened Integers
  import opened Grouping
  import opened LargestRemainder
  import opened Claimants
  import opened Statements
  import opened Explode
  import opened ExplodeConservation

  // ----- explicit shares -----

  function ShareFraction(units: int, s: ClaimantShare): int {
    units * s.sharePpm % PPM
  }

  /** The claimants served before another when the left-over units are handed out: a larger fraction
      first, then the smaller key. */
  ghost function ServedBefore(units: int, shares: seq<ClaimantShare>, less: Order, s: ClaimantShare): set<string> {
    set x | x in shares && (
      ShareFraction(units, x) > ShareFraction(units, s)
      || (ShareFraction(units, x) == ShareFraction(units, s) && less(ClaimantKey(x.claimant), ClaimantKey(s.claimant))))
      :: ClaimantKey(x.claimant)
  }

  function WholeParts(units: int, shares: seq<ClaimantShare>): int {
    if |shares| == 0 then 0 else WholeParts(units, shares[..|shares| - 1]) + units * shares[|shares| - 1].sharePpm / PPM
  }

  /** The claimant's ppm of the units, rounded down, and one unit more while left-over units last. */
  ghost function PpmDue(units: int, shares: seq<ClaimantShare>, less: Order, s: ClaimantShare): int {
    units * s.sharePpm / PPM
      + if |ServedBefore(units, shares, less, s)| < units - WholeParts(units, shares) then 1 else 0
  }

  lemma {:induction false} WholePartsAre(units: int, shares: seq<ClaimantShare>)
    ensures QuotientSum(PpmItems(shares), units, PPM) == WholeParts(units, shares)
  {
    if |shares| > 0 {
      var items := PpmItems(shares);
      assert items[..|items| - 1] == PpmItems(shares[..|shares| - 1]);
      WholePartsAre(units, shares[..|shares| - 1]);
      assert items[|items| - 1].weight * units == units * shares[|shares| - 1].sharePpm;
    }
  }

  lemma ServedBeforeIs(units: int, shares: seq<ClaimantShare>, less: Order, i: nat)
    requires i < |shares|
    ensures Ahead(PpmItems(shares), units, PPM, less, PpmItems(shares)[i]) == ServedBefore(units, shares, less, shares[i])
  {
    var items := PpmItems(shares);
    var x, y := Ahead(items, units, PPM, less, items[i]), ServedBefore(units, shares, less, shares[i]);
    forall j | 0 <= j < |shares| ensures Fraction(items[j], units, PPM) == ShareFraction(units, shares[j]) {
    }
    hide Fraction, ShareFraction, ClaimantKey;
    forall k ensures k in x <==> k in y {
      if k in x {
        var item :| item in items && item.key == k && (
          Fraction(item, units, PPM) > Fraction(items[i], units, PPM)
          || (Fraction(item, units, PPM) == Fraction(items[i], units, PPM) && less(item.key, items[i].key)));
        var j :| 0 <= j < |items| && items[j] == item;
        assert shares[j] in shares;
      }
      if k in y {
        var s :| s in shares && ClaimantKey(s.claimant) == k && (
          ShareFraction(units, s) > ShareFraction(units, shares[i])
          || (ShareFraction(units, s) == ShareFraction(units, shares[i]) && less(ClaimantKey(s.claimant), ClaimantKey(shares[i].claimant))));
        var j :| 0 <= j < |shares| && shares[j] == s;
        assert items[j] in items;
      }
    }
  }

  /** The ppm split gives every claimant what it is due: its share rounded down or up, its exact
      share where that is whole; and it gives nobody else anything. */
  lemma PpmPartIs(units: int, shares: seq<ClaimantShare>, less: Order, i: nat)
    requires units >= 0 && SharesTotal(shares) && DistinctClaimants(shares) && i < |shares|
    ensures var part := UnitsOf(ToPieces(PpmParts(units, shares, less)), ClaimantKey(shares[i].claimant));
      var exact := units * shares[i].sharePpm;
      && part == PpmDue(units, shares, less, shares[i])
      && 0 <= part - exact / PPM <= 1
      && (exact % PPM == 0 ==> part == exact / PPM)
  {
    hide Apportion, QuotientSum, Ahead, ServedBefore, WholeParts, ClaimantKey, PpmParts, SharesTotal;
    var items := PpmItems(shares);
    assert Proportional(items, units, PPM) && DistinctKeys(items) by {
      SharesAreProportional(units, shares);
    }
    hide Proportional, DistinctKeys;
    PpmPartAt(units, shares, less, i);
    AmountIs(items, units, PPM, less, i);
    WholePartsAre(units, shares);
    ServedBeforeIs(units, shares, less, i);
    Quota(items, units, PPM, less, i);
    WholeShare(units * shares[i].sharePpm, UnitsOf(ToPieces(PpmParts(units, shares, less)), ClaimantKey(shares[i].claimant)));
  }

  lemma SharesAreProportional(units: int, shares: seq<ClaimantShare>)
    requires units >= 0 && SharesTotal(shares)
    ensures Proportional(PpmItems(shares), units, PPM)
  {
  }

  lemma WholeShare(exact: int, part: int)
    ensures part * PPM == exact ==> part == exact / PPM
  {
    ExactQuotient(part, PPM);
  }

  lemma PpmPartAt(units: int, shares: seq<ClaimantShare>, less: Order, i: nat)
    requires DistinctClaimants(shares) && i < |shares|
    ensures UnitsOf(ToPieces(PpmParts(units, shares, less)), ClaimantKey(shares[i].claimant))
         == Apportion(PpmItems(shares), units, PPM, less)[i]
  {
    hide Apportion, ClaimantKey;
    var items, ps := PpmItems(shares), ToPieces(PpmParts(units, shares, less));
    assert forall j, k :: 0 <= j < k < |ps| ==> items[j].key != items[k].key;
    DistinctUnits(ps, i);
  }

  lemma PpmNobodyElse(units: int, shares: seq<ClaimantShare>, less: Order, key: string)
    requires forall i :: 0 <= i < |shares| ==> ClaimantKey(shares[i].claimant) != key
    ensures UnitsOf(ToPieces(PpmParts(units, shares, less)), key) == 0
  {
    AbsentUnits(ToPieces(PpmParts(units, shares, less)), key);
  }

  // ----- equal parts -----

  function Is(key: string): string -> bool {
    (k: string) => k == key
  }

  function IsBefore(key: string, charLess: Order): string -> bool {
    (k: string) => charLess(k, key)
  }

  function Clamp(n: int, top: nat): nat {
    if n < 0 then 0 else if n > top then top else n
  }

  /** An equal part for every time the claimant is listed, and of the remainder one unit each in key
      order, after the claimants with smaller keys. */
  function EqualDue(units: int, keys: seq<string>, charLess: Order, key: string): int
    requires |keys| > 0
  {
    CountIf(keys, Is(key)) * (units / |keys|)
      + Clamp(units % |keys| - CountIf(keys, IsBefore(key, charLess)), CountIf(keys, Is(key)))
  }

  lemma {:induction false} BeforeOrEqual(s: seq<string>, key: string, charLess: Order)
    ensures CountIf(s, IsBefore(key, charLess)) + CountIf(s, Is(key)) <= |s|
    ensures (forall i :: 0 <= i < |s| ==> !charLess(key, s[i])) ==> CountIf(s, IsBefore(key, charLess)) + CountIf(s, Is(key)) == |s|
  {
    if |s| > 0 {
      BeforeOrEqual(s[..|s| - 1], key, charLess);
      assert !charLess(key, key);
    }
  }

  /** In sorted order, how many of the first `t` are a given key. */
  lemma {:induction false} SortedPrefixCount(s: seq<string>, t: nat, key: string, charLess: Order)
    requires SortedBy(s, charLess) && t <= |s|
    ensures CountIf(s[..t], Is(key)) == Clamp(t - CountIf(s, IsBefore(key, charLess)), CountIf(s, Is(key)))
  {
    BeforeOrEqual(s, key, charLess);
    if t == |s| {
      assert s[..t] == s;
    } else {
      var init, last := s[..|s| - 1], s[|s| - 1];
      assert init[..t] == s[..t];
      SortedPrefixCount(init, t, key, charLess);
      BeforeOrEqual(init, key, charLess);
      if charLess(last, key) || last == key {
        forall i | 0 <= i < |init| ensures !charLess(key, init[i]) && (charLess(last, key) ==> init[i] != key) {
          assert init[i] == s[i] && !charLess(last, s[i]);
        }
      }
      if charLess(last, key) {
        CountBounds(init, Is(key));
      }
    }
  }

  lemma {:induction false} AlignedUnits(ps: seq<Piece>, keys: seq<string>, per: int, remainder: int, key: string)
    requires |ps| == |keys|
    requires forall i :: 0 <= i < |ps| ==> ps[i] == Piece(keys[i], per + if i < remainder then 1 else 0)
    ensures UnitsOf(ps, key) == CountIf(keys, Is(key)) * per + CountIf(keys[..Cut(remainder, |keys|)], Is(key))
  {
    if |ps| > 0 {
      var n := |ps| - 1;
      AlignedUnits(ps[..n], keys[..n], per, remainder, key);
      CutStep(keys, remainder, key);
      hide UnitsOf, CountIf, Cut;
      OnceMore(CountIf(keys[..n], Is(key)), per);
    }
  }

  lemma OnceMore(c: int, per: int)
    ensures (c + 1) * per == c * per + per
  {
  }

  lemma CutStep(keys: seq<string>, remainder: int, key: string)
    requires |keys| > 0
    ensures var n := |keys| - 1;
      CountIf(keys[..Cut(remainder, n + 1)], Is(key))
      == CountIf(keys[..n][..Cut(remainder, n)], Is(key)) + if n < remainder && keys[n] == key then 1 else 0
  {
    var n, cut := |keys| - 1, Cut(remainder, |keys|);
    if cut == n + 1 {
      assert keys[..n + 1] == keys && keys[..n][..n] == keys[..n];
    } else {
      assert keys[..n][..cut] == keys[..cut];
    }
  }

  lemma EqualPieces(units: int, keys: seq<string>, charLess: Order)
    requires units >= 0 && |keys| > 0 && EqualParts(units, keys, charLess).Ok?
    ensures var ps, sorted := ToPieces(EqualParts(units, keys, charLess).value), Sort(keys, charLess);
      && |ps| == |sorted|
      && forall i :: 0 <= i < |ps| ==> ps[i] == Piece(sorted[i], units / |keys| + if i < units % |keys| then 1 else 0)
  {
    hide ParseAll, Sort;
    BigDivFloors(units, |keys|);
  }

  lemma KeysSorted(keys: seq<string>, charLess: Order)
    ensures SortedBy(Sort(keys, charLess), charLess)
  {
    SortSorts(keys, charLess);
  }

  lemma CutOfRemainder(units: int, n: nat)
    requires n > 0
    ensures Cut(units % n, n) == units % n < n
  {
  }

  /** The equal split gives every claimant what it is due. */
  lemma EqualPartIs(units: int, keys: seq<string>, charLess: Order, key: string)
    requires units >= 0 && |keys| > 0 && EqualParts(units, keys, charLess).Ok?
    ensures UnitsOf(ToPieces(EqualParts(units, keys, charLess).value), key) == EqualDue(units, keys, charLess, key)
  {
    hide Sort, EqualParts, ToPieces, CountIf, SortedBy, WeakOrder, Cut;
    var n, sorted := |keys|, Sort(keys, charLess);
    EqualPieces(units, keys, charLess);
    SortKeepsElements(keys, charLess);
    KeysSorted(keys, charLess);
    CutOfRemainder(units, n);
    AlignedUnits(ToPieces(EqualParts(units, keys, charLess).value), sorted, units / n, units % n, key);
    SortedPrefixCount(sorted, units % n, key, charLess);
    CountPermute(sorted, keys, Is(key));
    CountPermute(sorted, keys, IsBefore(key, charLess));
  }

  // ----- what the receipts owe together -----

  ghost predicate HasShare(shares: seq<ClaimantShare>, key: string) {
    exists i :: 0 <= i < |shares| && ClaimantKey(shares[i].claimant) == key
  }

  ghost function ShareDue(units: int, shares: seq<ClaimantShare>, less: Order, key: string): int {
    if HasShare(shares, key) then
      var i :| 0 <= i < |shares| && ClaimantKey(shares[i].claimant) == key;
      PpmDue(units, shares, less, shares[i])
    else 0
  }

  /** What one receipt owes a claimant: nothing without claimants, its part of the explicit shares
      where there are any, and an equal part otherwise. */
  ghost function Due(j: Join, w: Weight, key: string): int {
    if w.receiptId !in j.records || |j.records[w.receiptId]| == 0 then 0
    else if w.receiptId in j.shares && |j.shares[w.receiptId]| > 0 then ShareDue(w.units, j.shares[w.receiptId], j.less, key)
    else EqualDue(w.units, j.records[w.receiptId], j.charLess, key)
  }

  ghost function DueSum(j: Join, weights: seq<Weight>, key: string): int {
    if |weights| == 0 then 0 else DueSum(j, weights[..|weights| - 1], key) + Due(j, weights[|weights| - 1], key)
  }

  lemma ShareDueIs(units: int, shares: seq<ClaimantShare>, less: Order, key: string)
    requires units >= 0 && SharesTotal(shares) && DistinctClaimants(shares)
    ensures UnitsOf(ToPieces(PpmParts(units, shares, less)), key) == ShareDue(units, shares, less, key)
  {
    hide PpmParts, PpmDue, ClaimantKey;
    if HasShare(shares, key) {
      var i :| 0 <= i < |shares| && ClaimantKey(shares[i].claimant) == key && ShareDue(units, shares, less, key) == PpmDue(units, shares, less, shares[i]);
      PpmPartIs(units, shares, less, i);
    } else {
      PpmNobodyElse(units, shares, less, key);
    }
  }

  lemma DueIs(j: Join, w: Weight, key: string)
    requires ReceiptParts(j, w).Ok? && w.units >= 0 && ValidShares(j)
    ensures UnitsOf(PiecesFor(j, w), key) == Due(j, w, key)
  {
    hide PpmParts, EqualParts, ShareDue, EqualDue, SharesTotal, DistinctClaimants;
    var keys := j.records[w.receiptId];
    if |keys| > 0 {
      if w.receiptId in j.shares && |j.shares[w.receiptId]| > 0 {
        ShareDueIs(w.units, j.shares[w.receiptId], j.less, key);
      } else {
        EqualPartIs(w.units, keys, j.charLess, key);
      }
    }
  }

  lemma {:induction false} DuesAddUp(j: Join, weights: seq<Weight>, key: string)
    requires AllJoin(j, weights) && ValidShares(j) && forall i :: 0 <= i < |weights| ==> weights[i].units >= 0
    ensures UnitsOf(FlatMap(weights, Contribution(j)), key) == DueSum(j, weights, key)
  {
    hide ReceiptParts, Due, PiecesFor;
    if |weights| > 0 {
      var init, last := weights[..|weights| - 1], weights[|weights| - 1];
      DuesAddUp(j, init, key);
      DueIs(j, last, key);
      UnitsAppend(FlatMap(init, Contribution(j)), PiecesFor(j, last), key);
    }
  }

  /** Every claimant gets exactly what the receipts owe it, and the claimants of the output are those
      the receipts name. */
  lemma ExplodedDue(j: Join, weights: seq<Weight>, key: string)
    requires Exploded(j, weights).Ok? && ValidShares(j) && forall i :: 0 <= i < |weights| ==> weights[i].units >= 0
    ensures UnitsOf(Pieces(Exploded(j, weights).value), key) == DueSum(j, weights, key)
  {
    hide Exploded, Pieces, Due, DueSum;
    JoinsWhenExploded(j, weights);
    ExplodeUnits(j, weights, key);
    DuesAddUp(j, weights, key);
  }

  lemma JoinsWhenExploded(j: Join, weights: seq<Weight>)
    ensures Exploded(j, weights).Ok? <==> AllJoin(j, weights)
  {
    GroupWeightsIsTally(j, weights);
  }

  // ----- the receipts of a claimant -----

  /** The receipt has a part for the claimant, be it of zero units. */
  ghost predicate Concerns(j: Join, w: Weight, key: string) {
    && w.receiptId in j.records && |j.records[w.receiptId]| > 0
    && if w.receiptId in j.shares && |j.shares[w.receiptId]| > 0 then HasShare(j.shares[w.receiptId], key)
       else key in j.records[w.receiptId]
  }

  ghost predicate HasPart(parts: seq<Part>, key: string) {
    exists i :: 0 <= i < |parts| && parts[i].key == key
  }

  lemma PartsConcern(j: Join, w: Weight, key: string)
    requires ReceiptParts(j, w).Ok?
    ensures HasPart(ReceiptParts(j, w).value, key) <==> Concerns(j, w, key)
  {
    hide ParseAll, Apportion, ClaimantKey;
    var parts, keys := ReceiptParts(j, w).value, j.records[w.receiptId];
    if |keys| > 0 {
      if w.receiptId in j.shares && |j.shares[w.receiptId]| > 0 {
        var shares := j.shares[w.receiptId];
        assert |parts| == |shares| && forall i :: 0 <= i < |shares| ==> parts[i].key == ClaimantKey(shares[i].claimant);
      } else {
        var sorted := Sort(keys, j.charLess);
        SortKeepsElements(keys, j.charLess);
        assert |parts| == |sorted| && forall i :: 0 <= i < |sorted| ==> parts[i].key == sorted[i];
        assert key in keys <==> key in multiset(sorted);
      }
    }
  }

  lemma {:induction false} AddedReceipts(m: map<string, Entry>, parts: seq<Part>, receiptId: string, key: string)
    ensures var n := AddParts(m, parts, receiptId);
      && (key in n <==> key in m || HasPart(parts, key))
      && (key in n ==> n[key].receiptIds == (if key in m then m[key].receiptIds else {}) + if HasPart(parts, key) then {receiptId} else {})
  {
    if |parts| > 0 {
      var init, last := parts[..|parts| - 1], parts[|parts| - 1];
      AddedReceipts(m, init, receiptId, key);
      assert HasPart(parts, key) <==> HasPart(init, key) || last.key == key by {
        if i :| 0 <= i < |init| && init[i].key == key {
          assert parts[i].key == key;
        }
        if i :| 0 <= i < |parts| && parts[i].key == key {
          assert i < |init| ==> init[i].key == key;
        }
        if last.key == key {
          assert parts[|parts| - 1].key == key;
        }
      }
      hide HasPart;
    }
  }

  ghost predicate IsConcerned(j: Join, weights: seq<Weight>, key: string, receiptId: string) {
    exists i :: 0 <= i < |weights| && weights[i].receiptId == receiptId && Concerns(j, weights[i], key)
  }

  lemma ConcernedGrows(j: Join, weights: seq<Weight>, last: Weight, key: string, r: string)
    ensures IsConcerned(j, weights + [last], key, r) <==> IsConcerned(j, weights, key, r) || (last.receiptId == r && Concerns(j, last, key))
  {
    hide Concerns;
    var all := weights + [last];
    if i :| 0 <= i < |weights| && weights[i].receiptId == r && Concerns(j, weights[i], key) {
      assert all[i] == weights[i];
    }
    if last.receiptId == r && Concerns(j, last, key) {
      assert all[|weights|] == last;
    }
    if i :| 0 <= i < |all| && all[i].receiptId == r && Concerns(j, all[i], key) {
      assert i < |weights| ==> weights[i] == all[i];
    }
  }

  lemma {:induction false} GroupedReceipts(j: Join, weights: seq<Weight>, key: string)
    requires GroupWeights(j, weights).Ok?
    ensures var m := GroupWeights(j, weights).value;
      && (key in m <==> exists r :: IsConcerned(j, weights, key, r))
      && (key in m ==> forall r :: r in m[key].receiptIds <==> IsConcerned(j, weights, key, r))
  {
    hide ReceiptParts, AddParts, Concerns, HasPart;
    if |weights| > 0 {
      var init, last := weights[..|weights| - 1], weights[|weights| - 1];
      assert weights == init + [last];
      GroupedReceipts(j, init, key);
      PartsConcern(j, last, key);
      AddedReceipts(GroupWeights(j, init).value, ReceiptParts(j, last).value, last.receiptId, key);
      forall r ensures IsConcerned(j, weights, key, r) <==> IsConcerned(j, init, key, r) || (last.receiptId == r && Concerns(j, last, key)) {
        ConcernedGrows(j, init, last, key, r);
      }
      hide IsConcerned;
      assert Concerns(j, last, key) ==> IsConcerned(j, weights, key, last.receiptId);
    }
  }

  /** The claimants of the output are those the receipts concern, each with exactly its receipts. */
  lemma ExplodedReceipts(j: Join, weights: seq<Weight>, i: nat)
    requires Exploded(j, weights).Ok? && i < |Exploded(j, weights).value|
    ensures var a := Exploded(j, weights).value[i];
      forall r :: r in a.receiptIds <==> IsConcerned(j, weights, ClaimantKey(a.claimant), r)
  {
    hide GroupWeights, IsConcerned, ClaimantKey;
    var m := GroupWeights(j, weights).value;
    var keys := SortedKeys(m.Keys, j.less);
    assert keys[i] in keys;
    GroupWeightsKeyed(j, weights);
    GroupedReceipts(j, weights, keys[i]);
  }

  /** And every claimant some receipt concerns is in the output. */
  lemma ExplodedClaimants(j: Join, weights: seq<Weight>, key: string)
    requires Exploded(j, weights).Ok?
    ensures (exists r :: IsConcerned(j, weights, key, r))
       <==> exists i :: 0 <= i < |Exploded(j, weights).value| && ClaimantKey(Exploded(j, weights).value[i].claimant) == key
  {
    hide GroupWeights, IsConcerned, ClaimantKey;
    var m := GroupWeights(j, weights).value;
    var keys := SortedKeys(m.Keys, j.less);
    GroupWeightsKeyed(j, weights);
    GroupedReceipts(j, weights, key);
    forall i | 0 <= i < |keys| ensures keys[i] in m && ClaimantKey(m[keys[i]].claimant) == keys[i] {
      assert keys[i] in keys;
    }
    if key in m {
      assert key in keys;
      var i :| 0 <= i < |keys| && keys[i] == key;
      assert ClaimantKey(Exploded(j, weights).value[i].claimant) == key;
    }
  }

  // ----- when the join fails -----

  /** The receipt has a record, and its claimants need not be parsed or can be. */
  ghost predicate Joinable(j: Join, w: Weight) {
    && w.receiptId in j.records
    && ((w.receiptId in j.shares && |j.shares[w.receiptId]| > 0)
        || forall k :: k in j.records[w.receiptId] ==> ParseClaimantKey(k).Ok?)
  }

  lemma {:induction false} ParseAllIff(keys: seq<string>)
    ensures ParseAll(keys).Ok? <==> forall k :: k in keys ==> ParseClaimantKey(k).Ok?
    ensures ParseAll(keys).Err? ==>
      exists i :: 0 <= i < |keys| && ParseClaimantKey(keys[i]) == Err(ParseAll(keys).error) && forall m :: 0 <= m < i ==> ParseClaimantKey(keys[m]).Ok?
  {
    hide ParseClaimantKey;
    if |keys| > 0 {
      var init, last := keys[..|keys| - 1], keys[|keys| - 1];
      assert keys == init + [last];
      ParseAllIff(init);
      if ParseAll(init).Err? {
        var i :| 0 <= i < |init| && ParseClaimantKey(init[i]) == Err(ParseAll(init).error) && forall m :: 0 <= m < i ==> ParseClaimantKey(init[m]).Ok?;
        assert forall m :: 0 <= m < i ==> keys[m] == init[m];
        assert keys[i] == init[i];
      } else {
        assert forall m :: 0 <= m < |init| ==> keys[m] == init[m] && init[m] in init;
      }
    }
  }

  /** The first of the listed keys, in order, that does not parse. */
  ghost predicate FirstBadKey(keys: seq<string>, charLess: Order, e: KeyError) {
    exists k :: k in keys && ParseClaimantKey(k) == Err(e) && forall m :: m in keys && ParseClaimantKey(m).Err? ==> !charLess(m, k)
  }

  lemma EqualPartsFail(units: int, keys: seq<string>, charLess: Order)
    requires |keys| > 0
    ensures EqualParts(units, keys, charLess).Ok? <==> forall k :: k in keys ==> ParseClaimantKey(k).Ok?
    ensures EqualParts(units, keys, charLess).Err? ==> FirstBadKey(keys, charLess, EqualParts(units, keys, charLess).error)
  {
    hide ParseClaimantKey, ParseAll;
    var sorted := Sort(keys, charLess);
    SortKeepsElements(keys, charLess);
    SortSorts(keys, charLess);
    hide Sort;
    ParseAllIff(sorted);
    forall k ensures k in keys <==> k in sorted {
      assert k in multiset(keys) <==> k in multiset(sorted);
    }
    if ParseAll(sorted).Err? {
      FirstOfSorted(keys, sorted, charLess, ParseAll(sorted).error);
    }
    hide FirstBadKey;
  }

  lemma FirstOfSorted(keys: seq<string>, sorted: seq<string>, charLess: Order, e: KeyError)
    requires SortedBy(sorted, charLess) && forall k :: k in keys <==> k in sorted
    requires exists i :: 0 <= i < |sorted| && ParseClaimantKey(sorted[i]) == Err(e) && forall m :: 0 <= m < i ==> ParseClaimantKey(sorted[m]).Ok?
    ensures FirstBadKey(keys, charLess, e)
  {
    hide ParseClaimantKey;
    var i :| 0 <= i < |sorted| && ParseClaimantKey(sorted[i]) == Err(e) && forall m :: 0 <= m < i ==> ParseClaimantKey(sorted[m]).Ok?;
    assert sorted[i] in sorted && !charLess(sorted[i], sorted[i]);
    forall m | m in keys && ParseClaimantKey(m).Err? ensures !charLess(m, sorted[i]) {
      assert m in sorted;
      var x :| 0 <= x < |sorted| && sorted[x] == m;
    }
  }

  lemma JoinableIff(j: Join, w: Weight)
    ensures ReceiptParts(j, w).Ok? <==> Joinable(j, w)
    ensures ReceiptParts(j, w).Err? ==>
      match ReceiptParts(j, w).error
      case MissingRecord(id) => id == w.receiptId && id !in j.records
      case BadKey(e) => w.receiptId in j.records && FirstBadKey(j.records[w.receiptId], j.charLess, e)
  {
    hide PpmParts, ParseClaimantKey, EqualParts, FirstBadKey;
    if w.receiptId in j.records && |j.records[w.receiptId]| > 0 {
      EqualPartsFail(w.units, j.records[w.receiptId], j.charLess);
    }
  }

  /** The join fails exactly on a receipt without a record, or without explicit shares and with a
      claimant key that does not parse; it reports the first such receipt, and its first such key. */
  lemma ExplodeFailsIff(j: Join, weights: seq<Weight>)
    ensures Exploded(j, weights).Ok? <==> forall i :: 0 <= i < |weights| ==> Joinable(j, weights[i])
    ensures Exploded(j, weights).Err? ==>
      exists i :: 0 <= i < |weights| && (forall m :: 0 <= m < i ==> Joinable(j, weights[m]))
        && match Exploded(j, weights).error
           case MissingRecord(id) => id == weights[i].receiptId && id !in j.records
           case BadKey(e) => weights[i].receiptId in j.records && FirstBadKey(j.records[weights[i].receiptId], j.charLess, e)
  {
    hide ReceiptParts, Joinable, FirstBadKey, Listed;
    JoinsWhenExploded(j, weights);
    forall i | 0 <= i < |weights| ensures ReceiptParts(j, weights[i]).Ok? <==> Joinable(j, weights[i]) {
      JoinableIff(j, weights[i]);
    }
    if Exploded(j, weights).Err? {
      var i := FirstFailure(j, weights);
      JoinableIff(j, weights[i]);
    }
  }

  lemma {:induction false} FirstFailure(j: Join, weights: seq<Weight>) returns (i: nat)
    requires GroupWeights(j, weights).Err?
    ensures i < |weights| && ReceiptParts(j, weights[i]) == Err(GroupWeights(j, weights).error)
    ensures forall m :: 0 <= m < i ==> ReceiptParts(j, weights[m]).Ok?
  {
    hide ReceiptParts;
    var init := weights[..|weights| - 1];
    if GroupWeights(j, init).Err? {
      i := FirstFailure(j, init);
      assert forall m :: 0 <= m <= i ==> weights[m] == init[m];
    } else {
      i := |weights| - 1;
      GroupWeightsIsTally(j, init);
      assert forall m :: 0 <= m < i ==> weights[m] == init[m];
    }
  }

  // ----- the lookups: the last entry for an id stands -----

  lemma {:induction false} RecordOf(claimants: seq<ClaimantsRecord>, id: string)
    ensures id in RecordMap(claimants) <==> exists i :: 0 <= i < |claimants| && claimants[i].receiptId == id
    ensures id in RecordMap(claimants) ==>
      exists i :: 0 <= i < |claimants| && claimants[i] == ClaimantsRecord(id, RecordMap(claimants)[id])
        && forall m :: i < m < |claimants| ==> claimants[m].receiptId != id
  {
    if |claimants| > 0 {
      var init, last := claimants[..|claimants| - 1], claimants[|claimants| - 1];
      RecordOf(init, id);
      if last.receiptId == id {
        assert claimants[|claimants| - 1] == ClaimantsRecord(id, RecordMap(claimants)[id]);
      } else {
        if i :| 0 <= i < |init| && init[i].receiptId == id {
          assert claimants[i].receiptId == id;
        }
        if i :| 0 <= i < |claimants| && claimants[i].receiptId == id {
          assert init[i].receiptId == id;
        }
        if id in RecordMap(init) {
          var i :| 0 <= i < |init| && init[i] == ClaimantsRecord(id, RecordMap(init)[id]) && forall m :: i < m < |init| ==> init[m].receiptId != id;
          assert claimants[i] == ClaimantsRecord(id, RecordMap(claimants)[id]);
          forall m | i < m < |claimants| ensures claimants[m].receiptId != id {
            assert m < |init| ==> claimants[m] == init[m];
          }
        }
      }
    }
  }

  /** The last override of an id with explicit shares. */
  ghost predicate LastShares(overrides: seq<SubjectOverride>, id: string, shares: seq<ClaimantShare>) {
    exists i :: 0 <= i < |overrides| && overrides[i].subjectRef == id && overrides[i].overrideShares == Some(shares)
      && forall m :: i < m < |overrides| && overrides[m].subjectRef == id ==> overrides[m].overrideShares.None?
  }

  lemma {:induction false} SharesOf(overrides: seq<SubjectOverride>, id: string)
    ensures id in ShareMap(overrides) ==> LastShares(overrides, id, ShareMap(overrides)[id])
    ensures id !in ShareMap(overrides) ==> forall i :: 0 <= i < |overrides| && overrides[i].subjectRef == id ==> overrides[i].overrideShares.None?
  {
    if |overrides| > 0 {
      var init, last := overrides[..|overrides| - 1], overrides[|overrides| - 1];
      SharesOf(init, id);
      if last.subjectRef == id && last.overrideShares.Some? {
        assert overrides[|overrides| - 1].overrideShares == Some(ShareMap(overrides)[id]);
      } else if id in ShareMap(overrides) {
        var i :| 0 <= i < |init| && init[i].subjectRef == id && init[i].overrideShares == Some(ShareMap(init)[id])
          && forall m :: i < m < |init| && init[m].subjectRef == id ==> init[m].overrideShares.None?;
        assert overrides[i].overrideShares == Some(ShareMap(overrides)[id]);
        forall m | i < m < |overrides| && overrides[m].subjectRef == id ensures overrides[m].overrideShares.None? {
          assert m < |init| ==> overrides[m] == init[m];
        }
      } else {
        assert forall i :: 0 <= i < |init| ==> overrides[i] == init[i];
      }
    }
  }
}
