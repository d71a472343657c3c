/** What `explodeToClaimants` keeps, and the statement pipeline end to end. */
module ExplodeConservation {
  import opened Wrappers
  import opened Collation
  import opened Integers
  import opened Grouping
  import opened LargestRemainder
  import opened Claimants
  import opened Statements
  import opened Explode

  function ToPieces(parts: seq<Part>): seq<Piece> {
    seq(|parts|, i requires 0 <= i < |parts| => Piece(parts[i].key, parts[i].units))
  }

  /** What one receipt contributes to the claimants' units. */
  function PiecesFor(j: Join, w: Weight): seq<Piece> {
    match ReceiptParts(j, w)
    case Ok(parts) => ToPieces(parts)
    case Err(_) => []
  }

  function Contribution(j: Join): Weight -> seq<Piece> {
    (w: Weight) => PiecesFor(j, w)
  }

  lemma {:induction false} AddPartsIsTally(m: map<string, Entry>, parts: seq<Part>, receiptId: string, ps: seq<Piece>)
    requires EntryUnits(m) == Tally(ps)
    ensures EntryUnits(AddParts(m, parts, receiptId)) == Tally(ps + ToPieces(parts))
  {
    var qs := ps + ToPieces(parts);
    if |parts| == 0 {
      assert qs == ps;
    } else {
      var n := |parts| - 1;
      AddPartsIsTally(m, parts[..n], receiptId, ps);
      AccumulateBumps(AddParts(m, parts[..n], receiptId), parts[n].key, parts[n].claimant, parts[n].units, {receiptId});
      hide Accumulate, EntryUnits;
      assert qs[..|qs| - 1] == ps + ToPieces(parts[..n]);
      assert qs[|qs| - 1] == Piece(parts[n].key, parts[n].units);
    }
  }

  ghost predicate AllJoin(j: Join, weights: seq<Weight>) {
    forall i :: 0 <= i < |weights| ==> ReceiptParts(j, weights[i]).Ok?
  }

  lemma {:induction false} GroupWeightsIsTally(j: Join, weights: seq<Weight>)
    ensures GroupWeights(j, weights).Ok? <==> AllJoin(j, weights)
    ensures GroupWeights(j, weights).Ok? ==>
      EntryUnits(GroupWeights(j, weights).value) == Tally(FlatMap(weights, Contribution(j)))
  {
    hide ReceiptParts;
    if |weights| == 0 {
      assert EntryUnits(map[]) == map[];
    } else {
      var init, last := weights[..|weights| - 1], weights[|weights| - 1];
      GroupWeightsIsTally(j, init);
      if GroupWeights(j, init).Ok? && ReceiptParts(j, last).Ok? {
        AddPartsIsTally(GroupWeights(j, init).value, ReceiptParts(j, last).value, last.receiptId,
                        FlatMap(init, Contribution(j)));
        assert Contribution(j)(last) == ToPieces(ReceiptParts(j, last).value);
      }
      assert AllJoin(j, weights) ==> AllJoin(j, init);
    }
  }

  // ----- the equal split -----

  lemma {:induction false} EqualPartsSum(q: int, r: int, ps: seq<Piece>)
    requires forall i :: 0 <= i < |ps| ==> ps[i].units == q + if i < r then 1 else 0
    ensures Units(ps) == |ps| * q + Cut(r, |ps|)
  {
    if |ps| > 0 {
      EqualPartsSum(q, r, ps[..|ps| - 1]);
      assert |ps| * q == (|ps| - 1) * q + q;
    }
  }

  /** The equal split hands out exactly the receipt's units when they are non-negative; negative
      units survive it only if they divide evenly, since the remainder is then never handed out. */
  lemma EqualSplitConservesIff(units: int, keys: seq<string>, charLess: Order)
    requires |keys| > 0 && EqualParts(units, keys, charLess).Ok?
    ensures Units(ToPieces(EqualParts(units, keys, charLess).value)) == units <==> units >= 0 || units % |keys| == 0
  {
    var n := |keys|;
    SortKeepsElements(keys, charLess);
    EqualPartsSum(BigDiv(units, n), units - BigDiv(units, n) * n, ToPieces(EqualParts(units, keys, charLess).value));
    if units >= 0 {
      BigDivFloors(units, n);
    } else {
      BigDivFloors(-units, n);
      NegativeRemainder(units, n);
    }
  }

  lemma NegativeRemainder(units: int, n: int)
    requires units < 0 && n > 0
    ensures BigDiv(units, n) == -(-units / n)
    ensures units - BigDiv(units, n) * n <= 0
    ensures units - BigDiv(units, n) * n == 0 <==> units % n == 0
  {
    var q, r := -units / n, -units % n;
    assert -units == n * q + r;
    assert -q * n == -(n * q);
    if r == 0 {
      assert units == n * -q + 0;
      Remainder(units, n, -q, 0);
    } else {
      assert units == n * (-q - 1) + (n - r);
      Remainder(units, n, -q - 1, n - r);
    }
  }

  lemma Remainder(a: int, n: int, q: int, r: int)
    requires n > 0 && 0 <= r < n && a == n * q + r
    ensures a % n == r
  {
    var d := a / n - q;
    assert n * d == r - a % n;
    if d >= 1 {
      MulOrdered(1, d, n);
    } else if d <= -1 {
      MulOrdered(d, -1, n);
    }
  }

  // ----- the ppm split -----

  /** What the override route requires of explicit shares: non-negative, totalling one million. */
  ghost predicate SharesTotal(shares: seq<ClaimantShare>) {
    WeightSum(PpmItems(shares)) == PPM && forall i :: 0 <= i < |shares| ==> shares[i].sharePpm >= 0
  }

  ghost predicate DistinctClaimants(shares: seq<ClaimantShare>) {
    DistinctKeys(PpmItems(shares))
  }

  lemma {:induction false} PartsSum(ps: seq<Piece>, amounts: seq<int>)
    requires |ps| == |amounts| && forall i :: 0 <= i < |ps| ==> ps[i].units == amounts[i]
    ensures Units(ps) == Sum(amounts)
  {
    if |ps| > 0 {
      PartsSum(ps[..|ps| - 1], amounts[..|ps| - 1]);
    }
  }

  /** The ppm split hands out at least the receipt's units. It hands out exactly those if and only
      if, for non-negative units, no claimant is listed on both sides of the rounding cut, which
      distinct claimants never are, and for negative units, every share of them is a whole number. */
  lemma PpmSplitConservesIff(units: int, shares: seq<ClaimantShare>, less: Order)
    requires SharesTotal(shares)
    ensures Units(ToPieces(PpmParts(units, shares, less))) >= units
    ensures Units(ToPieces(PpmParts(units, shares, less))) == units <==>
      if units >= 0 then NoKeyStraddlesCut(PpmItems(shares), units, PPM, less)
      else forall i :: 0 <= i < |shares| ==> shares[i].sharePpm * units % PPM == 0
    ensures units >= 0 && DistinctClaimants(shares) ==> Units(ToPieces(PpmParts(units, shares, less))) == units
  {
    var items := PpmItems(shares);
    PartsSum(ToPieces(PpmParts(units, shares, less)), Apportion(items, units, PPM, less));
    hide Apportion;
    if units < 0 {
      NegativeConservesIff(items, units, PPM, less);
    } else {
      ConservesIff(items, units, PPM, less);
      if DistinctClaimants(shares) {
        Exact(items, units, PPM, less);
      }
    }
  }

  /** Why distinctness is asked for: one unit shared by the same claimant listed twice is paid twice. */
  lemma RepeatedClaimantOverpays(c: Claimant, less: Order)
    ensures var shares := [ClaimantShare(c, 500_000), ClaimantShare(c, 500_000)];
      SharesTotal(shares) && Units(ToPieces(PpmParts(1, shares, less))) == 2
  {
    var shares := [ClaimantShare(c, 500_000), ClaimantShare(c, 500_000)];
    var items := PpmItems(shares);
    assert items == [Item(ClaimantKey(c), 500_000), Item(ClaimantKey(c), 500_000)];
    assert items[..1] == [items[0]] && items[..1][..0] == [];
    assert WeightSum(items[..1]) == 500_000;
    TwoHalves(ClaimantKey(c), less);
    assert [1, 1][..1] == [1] && [1][..0] == [];
    assert Sum([1]) == 1;
    PartsSum(ToPieces(PpmParts(1, shares, less)), [1, 1]);
  }

  lemma TwoHalves(key: string, less: Order)
    ensures Apportion([Item(key, 500_000), Item(key, 500_000)], 1, PPM, less) == [1, 1]
  {
    var items := [Item(key, 500_000), Item(key, 500_000)];
    var ss, e := Shares(items, 1, PPM), Share(key, 0, 500_000);
    BigDivFloors(500_000, PPM);
    assert ss == [e, e];
    assert ss[..1] == [e] && [e][..0] == [];
    assert FloorSum([e]) == 0;
    assert FloorSum(ss) == 0;
    var ranked := ByRemainder(ss, less);
    RankedSpec(ss, less);
    assert ranked[0] in multiset(ss);
    assert ranked[..1][0] == e;
  }

  // ----- conservation and order -----

  /** Every explicit share list that the join will use is valid. */
  ghost predicate ValidShares(j: Join) {
    forall id :: id in j.shares && |j.shares[id]| > 0 ==> SharesTotal(j.shares[id]) && DistinctClaimants(j.shares[id])
  }

  /** The units of the receipts that have claimants. */
  function Surviving(j: Join, weights: seq<Weight>): int {
    if |weights| == 0 then 0
    else
      var w := weights[|weights| - 1];
      Surviving(j, weights[..|weights| - 1])
        + if w.receiptId in j.records && |j.records[w.receiptId]| > 0 then w.units else 0
  }

  lemma PpmPartsNonNegative(units: int, shares: seq<ClaimantShare>, less: Order)
    requires units >= 0 && SharesTotal(shares)
    ensures forall p :: p in ToPieces(PpmParts(units, shares, less)) ==> p.units >= 0
  {
  }

  lemma EqualPartsNonNegative(units: int, keys: seq<string>, charLess: Order)
    requires units >= 0 && |keys| > 0 && EqualParts(units, keys, charLess).Ok?
    ensures forall p :: p in ToPieces(EqualParts(units, keys, charLess).value) ==> p.units >= 0
  {
  }

  lemma ReceiptConserves(j: Join, w: Weight)
    requires ReceiptParts(j, w).Ok? && w.units >= 0 && ValidShares(j)
    ensures Units(PiecesFor(j, w)) == if |j.records[w.receiptId]| > 0 then w.units else 0
    ensures forall p :: p in PiecesFor(j, w) ==> p.units >= 0
  {
    hide PpmParts, EqualParts, SharesTotal, DistinctClaimants;
    var keys := j.records[w.receiptId];
    if |keys| > 0 {
      if w.receiptId in j.shares && |j.shares[w.receiptId]| > 0 {
        var shares := j.shares[w.receiptId];
        PpmSplitConservesIff(w.units, shares, j.less);
        PpmPartsNonNegative(w.units, shares, j.less);
      } else {
        EqualSplitConservesIff(w.units, keys, j.charLess);
        EqualPartsNonNegative(w.units, keys, j.charLess);
      }
    }
  }

  lemma {:induction false} AllReceiptsConserve(j: Join, weights: seq<Weight>)
    requires AllJoin(j, weights) && ValidShares(j)
    requires forall i :: 0 <= i < |weights| ==> weights[i].units >= 0
    ensures Units(FlatMap(weights, Contribution(j))) == Surviving(j, weights) >= 0
    ensures forall p :: p in FlatMap(weights, Contribution(j)) ==> p.units >= 0
  {
    hide ReceiptParts;
    if |weights| > 0 {
      var init, last := weights[..|weights| - 1], weights[|weights| - 1];
      AllReceiptsConserve(j, init);
      ReceiptConserves(j, last);
      JoinedRecord(j, last);
      UnitsAppend(FlatMap(init, Contribution(j)), PiecesFor(j, last), "");
    }
  }

  lemma JoinedRecord(j: Join, w: Weight)
    ensures ReceiptParts(j, w).Ok? ==> w.receiptId in j.records
  {
  }

  // ----- the output list -----

  lemma {:induction false} ParseAllSpec(keys: seq<string>)
    ensures ParseAll(keys).Ok? ==>
      |ParseAll(keys).value| == |keys| && forall i :: 0 <= i < |keys| ==> ClaimantKey(ParseAll(keys).value[i]) == keys[i]
  {
    hide ParseClaimantKey, ClaimantKey;
    if |keys| > 0 {
      ParseAllSpec(keys[..|keys| - 1]);
      ParseThenPrint(keys[|keys| - 1]);
    }
  }

  lemma PartsPrintTheirKeys(j: Join, w: Weight)
    ensures ReceiptParts(j, w).Ok? ==> forall p :: p in ReceiptParts(j, w).value ==> ClaimantKey(p.claimant) == p.key
  {
    if ReceiptParts(j, w).Ok? && |j.records[w.receiptId]| > 0 && !(w.receiptId in j.shares && |j.shares[w.receiptId]| > 0) {
      ParseAllSpec(Sort(j.records[w.receiptId], j.charLess));
    }
  }

  ghost predicate KeyedByClaimant(m: map<string, Entry>) {
    forall k :: k in m ==> ClaimantKey(m[k].claimant) == k
  }

  lemma {:induction false} AddPartsKeyed(m: map<string, Entry>, parts: seq<Part>, receiptId: string)
    requires KeyedByClaimant(m) && forall p :: p in parts ==> ClaimantKey(p.claimant) == p.key
    ensures KeyedByClaimant(AddParts(m, parts, receiptId))
  {
    if |parts| > 0 {
      assert parts[|parts| - 1] in parts;
      AddPartsKeyed(m, parts[..|parts| - 1], receiptId);
    }
  }

  lemma {:induction false} GroupWeightsKeyed(j: Join, weights: seq<Weight>)
    ensures GroupWeights(j, weights).Ok? ==> KeyedByClaimant(GroupWeights(j, weights).value)
  {
    hide ReceiptParts;
    if |weights| > 0 {
      GroupWeightsKeyed(j, weights[..|weights| - 1]);
      var w := weights[|weights| - 1];
      PartsPrintTheirKeys(j, w);
      if GroupWeights(j, weights).Ok? {
        AddPartsKeyed(GroupWeights(j, weights[..|weights| - 1]).value, ReceiptParts(j, w).value, w.receiptId);
      }
    }
  }

  lemma ListedPieces(m: map<string, Entry>, less: Order)
    requires KeyedByClaimant(m)
    ensures Pieces(Listed(m, less)) == KeyPieces(EntryUnits(m), less)
    ensures forall i, k :: 0 <= i < k < |Listed(m, less)| ==>
      less(ClaimantKey(Listed(m, less)[i].claimant), ClaimantKey(Listed(m, less)[k].claimant))
  {
    var keys := SortedKeys(m.Keys, less);
    SortedKeysOrdered(m.Keys, less);
    assert EntryUnits(m).Keys == m.Keys;
    forall i | 0 <= i < |keys| ensures keys[i] in m && ClaimantKey(m[keys[i]].claimant) == keys[i] {
      assert keys[i] in keys;
    }
  }

  /** Every output claimant prints to the key it was grouped under, so the output keys are distinct
      and in order, and its units are what the receipts contributed to that key. */
  lemma ExplodeOutput(j: Join, weights: seq<Weight>)
    requires Exploded(j, weights).Ok?
    ensures var out := Exploded(j, weights).value;
      && Pieces(out) == KeyPieces(Tally(FlatMap(weights, Contribution(j))), j.less)
      && (forall i, k :: 0 <= i < k < |out| ==> j.less(ClaimantKey(out[i].claimant), ClaimantKey(out[k].claimant)))
  {
    GroupWeightsIsTally(j, weights);
    GroupWeightsKeyed(j, weights);
    ListedPieces(GroupWeights(j, weights).value, j.less);
  }

  lemma ExplodeUnits(j: Join, weights: seq<Weight>, key: string)
    requires Exploded(j, weights).Ok?
    ensures var ps, flat := Pieces(Exploded(j, weights).value), FlatMap(weights, Contribution(j));
      && UnitsOf(ps, key) == UnitsOf(flat, key) && (Mentions(ps, key) <==> Mentions(flat, key)) && Units(ps) == Units(flat)
  {
    var ps, flat := Pieces(Exploded(j, weights).value), FlatMap(weights, Contribution(j));
    ExplodeOutput(j, weights);
    KeyPiecesSpec(Tally(flat), j.less);
    TallyAt(ps);
    TallyAt(flat);
    TallyConserves(flat);
    assert At(Tally(ps), key) == At(Tally(flat), key);
  }

  /** Conservation: the claimants' units sum to the units of every receipt that has claimants, for
      any mix of explicit shares and equal splits, and none is negative. */
  lemma ExplodeConserves(j: Join, weights: seq<Weight>)
    requires Exploded(j, weights).Ok? && ValidShares(j)
    requires forall i :: 0 <= i < |weights| ==> weights[i].units >= 0
    ensures Units(Pieces(Exploded(j, weights).value)) == Surviving(j, weights) >= 0
    ensures forall p :: p in Pieces(Exploded(j, weights).value) ==> p.units >= 0
  {
    var flat, out := FlatMap(weights, Contribution(j)), Exploded(j, weights).value;
    GroupWeightsIsTally(j, weights);
    AllReceiptsConserve(j, weights);
    ExplodeUnits(j, weights, "");
    ExplodeOutput(j, weights);
    TallyNonNegative(flat);
  }

  /** Order: rearranging the receipts changes neither whether the join succeeds nor any claimant's
      units, hence not the amounts of the statement either. */
  lemma ExplodeIgnoresReceiptOrder(j: Join, ws: seq<Weight>, vs: seq<Weight>)
    requires multiset(ws) == multiset(vs)
    ensures Exploded(j, ws).Ok? == Exploded(j, vs).Ok?
    ensures Exploded(j, ws).Ok? ==> Pieces(Exploded(j, ws).value) == Pieces(Exploded(j, vs).value)
  {
    hide ReceiptParts;
    GroupWeightsIsTally(j, ws);
    GroupWeightsIsTally(j, vs);
    SameJoins(j, ws, vs);
    SameJoins(j, vs, ws);
    if Exploded(j, ws).Ok? {
      var f := Contribution(j);
      forall key
        ensures UnitsOf(FlatMap(ws, f), key) == UnitsOf(FlatMap(vs, f), key)
        ensures Mentions(FlatMap(ws, f), key) <==> Mentions(FlatMap(vs, f), key)
      {
        FlatMapPermute(ws, vs, f, key);
        FlatMapMentionsPermute(ws, vs, f, key);
        FlatMapMentionsPermute(vs, ws, f, key);
      }
      TallyDeterminedByUnits(FlatMap(ws, f), FlatMap(vs, f));
      ExplodeOutput(j, ws);
      ExplodeOutput(j, vs);
    }
  }

  lemma SameJoins(j: Join, ws: seq<Weight>, vs: seq<Weight>)
    requires multiset(ws) == multiset(vs)
    ensures AllJoin(j, ws) ==> AllJoin(j, vs)
  {
    hide ReceiptParts;
    if AllJoin(j, ws) {
      forall i | 0 <= i < |vs| ensures ReceiptParts(j, vs[i]).Ok? {
        assert vs[i] in multiset(ws);
        var k :| 0 <= k < |ws| && ws[k] == vs[i];
      }
    }
  }
}
