/** What the cumulative distribution keeps: CUMULATIVE_CONSERVES_SUPPLY and the fold it rests on. */
module CumulativeBalances {
  import opened Wrappers
  import opened Collation
  import opened Grouping
  import opened LargestRemainder
  import opened TokenDistribution

  // ----- the fold as a tally by case-folded account -----

  function PriorPieces(priors: seq<Prior>): seq<Piece> {
    seq(|priors|, i requires 0 <= i < |priors| => Piece(Lower(priors[i].account), priors[i].cumulativeAmount))
  }

  function DeltaPieces(deltas: seq<Delta>): seq<Piece> {
    seq(|deltas|, i requires 0 <= i < |deltas| => Piece(Lower(deltas[i].account), deltas[i].deltaAmount))
  }

  function LeafPieces(leaves: seq<Leaf>): seq<Piece> {
    seq(|leaves|, i requires 0 <= i < |leaves| => Piece(Lower(leaves[i].account), leaves[i].cumulativeAmount))
  }

  /** Everything an account was ever allocated: prior balances and new deltas. */
  function Earned(priors: seq<Prior>, deltas: seq<Delta>): seq<Piece> {
    PriorPieces(priors) + DeltaPieces(deltas)
  }

  function Cumulated(m: map<string, Balance>): map<string, int> {
    map k | k in m :: m[k].prior + m[k].delta
  }

  function NewlyEarned(m: map<string, Balance>): map<string, int> {
    map k | k in m :: m[k].delta
  }

  ghost predicate WellFolded(host: Host, m: map<string, Balance>) {
    forall k :: k in m ==>
      Lower(m[k].account) == k && host.isAddress(m[k].account) && m[k].prior >= 0 && m[k].delta >= 0
  }

  lemma AddPriorBumps(host: Host, m: map<string, Balance>, p: Prior)
    requires AddPrior(host, m, p).Ok?
    ensures Cumulated(AddPrior(host, m, p).value) == Bump(Cumulated(m), Lower(p.account), p.cumulativeAmount)
    ensures forall k :: At(NewlyEarned(AddPrior(host, m, p).value), k) == At(NewlyEarned(m), k)
  {
  }

  lemma AddDeltaBumps(host: Host, m: map<string, Balance>, d: Delta)
    requires AddDelta(host, m, d).Ok? && d.deltaAmount != 0
    ensures Cumulated(AddDelta(host, m, d).value) == Bump(Cumulated(m), Lower(d.account), d.deltaAmount)
    ensures NewlyEarned(AddDelta(host, m, d).value) == Bump(NewlyEarned(m), Lower(d.account), d.deltaAmount)
  {
    hide Lower, Cumulated, NewlyEarned;
    var key, n := Lower(d.account), AddDelta(host, m, d).value;
    assert n == m[key := n[key]];
    BalanceSet(m, key, n[key]);
  }

  lemma BalanceSet(m: map<string, Balance>, key: string, b: Balance)
    ensures Cumulated(m[key := b]) == Cumulated(m)[key := b.prior + b.delta]
    ensures NewlyEarned(m[key := b]) == NewlyEarned(m)[key := b.delta]
    ensures At(Cumulated(m), key) == if key in m then m[key].prior + m[key].delta else 0
    ensures At(NewlyEarned(m), key) == if key in m then m[key].delta else 0
  {
  }

  lemma AddsKeepFold(host: Host, m: map<string, Balance>, p: Prior, d: Delta)
    requires WellFolded(host, m)
    ensures AddPrior(host, m, p).Ok? ==> WellFolded(host, AddPrior(host, m, p).value)
    ensures AddDelta(host, m, d).Ok? ==> WellFolded(host, AddDelta(host, m, d).value)
  {
    hide Lower;
  }

  lemma AddDeltaEffect(host: Host, m: map<string, Balance>, d: Delta, key: string)
    requires AddDelta(host, m, d).Ok?
    ensures var n, gain := AddDelta(host, m, d).value, if Lower(d.account) == key then d.deltaAmount else 0;
      && Total(Cumulated(n)) == Total(Cumulated(m)) + d.deltaAmount
      && At(Cumulated(n), key) == At(Cumulated(m), key) + gain
      && At(NewlyEarned(n), key) == At(NewlyEarned(m), key) + gain
  {
    if d.deltaAmount != 0 {
      AddDeltaBumps(host, m, d);
      TotalBump(Cumulated(m), Lower(d.account), d.deltaAmount);
      hide Cumulated, NewlyEarned, Lower, AddDelta;
    }
  }

  lemma {:induction false} PriorsFold(host: Host, priors: seq<Prior>, key: string)
    requires FoldPriors(host, priors).Ok?
    ensures var m := FoldPriors(host, priors).value;
      && WellFolded(host, m) && Total(Cumulated(m)) == PriorSum(priors)
      && At(Cumulated(m), key) == UnitsOf(PriorPieces(priors), key) && At(NewlyEarned(m), key) == 0
  {
    if |priors| == 0 {
      assert Cumulated(map[]) == map[] && NewlyEarned(map[]) == map[];
    } else {
      var n := |priors| - 1;
      PriorsFold(host, priors[..n], key);
      var m := FoldPriors(host, priors[..n]).value;
      AddPriorBumps(host, m, priors[n]);
      AddsKeepFold(host, m, priors[n], Delta("", "", 0, {}));
      TotalBump(Cumulated(m), Lower(priors[n].account), priors[n].cumulativeAmount);
      assert PriorPieces(priors)[..n] == PriorPieces(priors[..n]);
      hide AddPrior, Cumulated, NewlyEarned, Lower, WellFolded;
    }
  }

  lemma {:induction false} DeltasFold(host: Host, start: map<string, Balance>, deltas: seq<Delta>, key: string)
    requires WellFolded(host, start) && FoldDeltas(host, start, deltas).Ok?
    ensures var m := FoldDeltas(host, start, deltas).value;
      && WellFolded(host, m) && Total(Cumulated(m)) == Total(Cumulated(start)) + DeltaSum(deltas)
      && At(Cumulated(m), key) == At(Cumulated(start), key) + UnitsOf(DeltaPieces(deltas), key)
      && At(NewlyEarned(m), key) == At(NewlyEarned(start), key) + UnitsOf(DeltaPieces(deltas), key)
  {
    if |deltas| > 0 {
      var n := |deltas| - 1;
      DeltasFold(host, start, deltas[..n], key);
      var m := FoldDeltas(host, start, deltas[..n]).value;
      AddsKeepFold(host, m, Prior("", 0), deltas[n]);
      AddDeltaEffect(host, m, deltas[n], key);
      assert DeltaPieces(deltas)[..n] == DeltaPieces(deltas[..n]);
      hide Cumulated, NewlyEarned, Lower, WellFolded, AddDelta, At, Total;
    }
  }

  // ----- the leaves -----

  function PositivePart(m: map<string, int>): map<string, int> {
    map k | k in m && m[k] > 0 :: m[k]
  }

  /** The positive part only sees what each key holds. */
  lemma PositivePartDetermined(m: map<string, int>, n: map<string, int>)
    requires forall k :: At(m, k) == At(n, k)
    ensures PositivePart(m) == PositivePart(n)
  {
    forall k ensures k in PositivePart(m) <==> k in PositivePart(n) {
      assert At(m, k) == At(n, k);
    }
    forall k | k in PositivePart(m) ensures PositivePart(m)[k] == PositivePart(n)[k] {
      assert At(m, k) == At(n, k);
    }
  }

  lemma PositivePartWithout(m: map<string, int>, key: string)
    requires key in m
    ensures PositivePart(m) - {key} == PositivePart(m - {key})
    ensures m[key] <= 0 ==> PositivePart(m) == PositivePart(m - {key})
  {
  }

  lemma {:induction false} TotalPositivePart(m: map<string, int>)
    requires NonNegative(m)
    ensures Total(PositivePart(m)) == Total(m)
    decreases |m|
  {
    if m == map[] {
      assert PositivePart(m) == map[];
    } else {
      var k :| k in m;
      assert |m - {k}| < |m| by {
        assert (m - {k}).Keys == m.Keys - {k};
      }
      TotalRemove(m, k);
      TotalPositivePart(m - {k});
      PositivePartWithout(m, k);
      if m[k] > 0 {
        TotalRemove(PositivePart(m), k);
      }
    }
  }

  lemma {:induction false} LeafSumIsUnits(leaves: seq<Leaf>)
    ensures LeafSum(leaves) == Units(LeafPieces(leaves))
  {
    if |leaves| > 0 {
      LeafSumIsUnits(leaves[..|leaves| - 1]);
      assert LeafPieces(leaves)[..|leaves| - 1] == LeafPieces(leaves[..|leaves| - 1]);
    }
  }

  lemma LeafAt(host: Host, m: map<string, Balance>, less: Order, i: nat)
    requires WellFolded(host, m) && i < |Leaves(m, less)|
    ensures var leaf, key := Leaves(m, less)[i], Lower(Leaves(m, less)[i].account);
      && leaf.index == i && key in m && leaf.account == m[key].account
      && leaf.cumulativeAmount == m[key].prior + m[key].delta > 0 && leaf.deltaAmount == m[key].delta
      && key == SortedKeys((set k | k in m && m[k].prior + m[k].delta > 0), less)[i]
  {
    var keys := SortedKeys((set k | k in m && m[k].prior + m[k].delta > 0), less);
    assert keys[i] in keys;
    hide Lower;
  }

  /** The leaves list the positive balances by account, and carry each account's new delta. */
  lemma LeavesAre(host: Host, m: map<string, Balance>, less: Order)
    requires WellFolded(host, m)
    ensures LeafPieces(Leaves(m, less)) == KeyPieces(PositivePart(Cumulated(m)), less)
    ensures forall i :: 0 <= i < |Leaves(m, less)| ==>
      var leaf := Leaves(m, less)[i];
      && leaf.index == i && host.isAddress(leaf.account) && leaf.cumulativeAmount > 0
      && leaf.deltaAmount == At(NewlyEarned(m), Lower(leaf.account))
  {
    assert PositivePart(Cumulated(m)).Keys == set k | k in m && m[k].prior + m[k].delta > 0;
    assert |Leaves(m, less)| == |KeyPieces(PositivePart(Cumulated(m)), less)|;
    forall i | 0 <= i < |Leaves(m, less)|
      ensures LeafPieces(Leaves(m, less))[i] == KeyPieces(PositivePart(Cumulated(m)), less)[i]
      ensures var leaf := Leaves(m, less)[i];
        && leaf.index == i && host.isAddress(leaf.account) && leaf.cumulativeAmount > 0
        && leaf.deltaAmount == At(NewlyEarned(m), Lower(leaf.account))
    {
      LeafAt(host, m, less, i);
      hide Leaves, Lower;
    }
  }

  ghost predicate StrictlyByAccount(leaves: seq<Leaf>, less: Order) {
    forall i, j :: 0 <= i < j < |leaves| ==> less(Lower(leaves[i].account), Lower(leaves[j].account))
  }

  lemma KeyPiecesSorted(m: map<string, int>, less: Order)
    ensures var ps := KeyPieces(m, less);
      && (forall i, j :: 0 <= i < j < |ps| ==> less(ps[i].key, ps[j].key))
      && (forall i :: 0 <= i < |ps| ==> ps[i].key in m && ps[i].units == m[ps[i].key])
  {
    SortedKeysDistinct(m.Keys, less);
    SortedKeysOrdered(m.Keys, less);
  }

  /** The fold the build performs, whether or not its final checks pass. */
  lemma FoldSpec(host: Host, priors: seq<Prior>, deltas: seq<Delta>, key: string)
    requires FoldPriors(host, priors).Ok? && FoldDeltas(host, FoldPriors(host, priors).value, deltas).Ok?
    ensures var m := FoldDeltas(host, FoldPriors(host, priors).value, deltas).value;
      && WellFolded(host, m) && Total(Cumulated(m)) == PriorSum(priors) + DeltaSum(deltas)
      && At(Cumulated(m), key) == UnitsOf(Earned(priors, deltas), key)
      && At(NewlyEarned(m), key) == UnitsOf(DeltaPieces(deltas), key)
  {
    hide WellFolded, Cumulated, NewlyEarned;
    PriorsFold(host, priors, key);
    DeltasFold(host, FoldPriors(host, priors).value, deltas, key);
    UnitsAppend(PriorPieces(priors), DeltaPieces(deltas), key);
  }

  lemma FoldLeaves(host: Host, priors: seq<Prior>, deltas: seq<Delta>)
    requires FoldPriors(host, priors).Ok? && FoldDeltas(host, FoldPriors(host, priors).value, deltas).Ok?
    ensures var leaves := Leaves(FoldDeltas(host, FoldPriors(host, priors).value, deltas).value, host.less);
      && LeafPieces(leaves) == KeyPieces(PositivePart(Tally(Earned(priors, deltas))), host.less)
      && LeafSum(leaves) == PriorSum(priors) + DeltaSum(deltas)
      && (forall i :: 0 <= i < |leaves| ==>
            && leaves[i].index == i && host.isAddress(leaves[i].account) && leaves[i].cumulativeAmount > 0
            && leaves[i].deltaAmount == UnitsOf(DeltaPieces(deltas), Lower(leaves[i].account)))
  {
    hide WellFolded, Cumulated, NewlyEarned, Earned, KeyPieces, PositivePart, Leaves, Lower, FoldDeltas, FoldPriors;
    var m := FoldDeltas(host, FoldPriors(host, priors).value, deltas).value;
    var leaves := Leaves(m, host.less);
    FoldSpec(host, priors, deltas, "");
    LeavesAre(host, m, host.less);
    TallyAt(Earned(priors, deltas));
    forall k
      ensures At(Cumulated(m), k) == At(Tally(Earned(priors, deltas)), k)
      ensures At(NewlyEarned(m), k) == UnitsOf(DeltaPieces(deltas), k)
    {
      FoldSpec(host, priors, deltas, k);
    }
    PositivePartDetermined(Cumulated(m), Tally(Earned(priors, deltas)));
    CumulatedNonNegative(host, m);
    TotalPositivePart(Cumulated(m));
    KeyPiecesSpec(PositivePart(Cumulated(m)), host.less);
    LeafSumIsUnits(leaves);
  }

  lemma CumulatedNonNegative(host: Host, m: map<string, Balance>)
    requires WellFolded(host, m)
    ensures NonNegative(Cumulated(m))
  {
  }

  /** CUMULATIVE_CONSERVES_SUPPLY: the build lists one leaf per case-folded account, strictly in
      account order, holding the account's priors plus deltas; the mint is the sum of the deltas and
      the leaves sum to the prior supply plus the mint. */
  lemma CumulativeSpec(host: Host, manifest: Manifest, priors: seq<Prior>, deltas: seq<Delta>)
    requires Cumulative(host, manifest, priors, deltas).Ok?
    ensures var d := Cumulative(host, manifest, priors, deltas).value;
      && LeafPieces(d.leaves) == KeyPieces(PositivePart(Tally(Earned(priors, deltas))), host.less)
      && StrictlyByAccount(d.leaves, host.less)
      && d.mintDelta == DeltaSum(deltas)
      && d.cumulativeTotal == LeafSum(d.leaves) == PriorSum(priors) + d.mintDelta
      && (forall i :: 0 <= i < |d.leaves| ==>
            && d.leaves[i].index == i && host.isAddress(d.leaves[i].account) && d.leaves[i].cumulativeAmount > 0
            && d.leaves[i].deltaAmount == UnitsOf(DeltaPieces(deltas), Lower(d.leaves[i].account)))
  {
    FoldLeaves(host, priors, deltas);
    var leaves, m := Cumulative(host, manifest, priors, deltas).value.leaves, PositivePart(Tally(Earned(priors, deltas)));
    KeyPiecesSorted(m, host.less);
    hide Leaves, KeyPieces, PositivePart, Earned, FoldDeltas, FoldPriors;
    forall i, j | 0 <= i < j < |leaves| ensures host.less(Lower(leaves[i].account), Lower(leaves[j].account)) {
      assert LeafPieces(leaves)[i].key == Lower(leaves[i].account) && LeafPieces(leaves)[j].key == Lower(leaves[j].account);
    }
  }

  /** Read account by account: an account has a leaf exactly when it has earned something, and the
      leaf holds all it has earned. */
  lemma LeafPerAccount(host: Host, manifest: Manifest, priors: seq<Prior>, deltas: seq<Delta>, key: string)
    requires Cumulative(host, manifest, priors, deltas).Ok?
    ensures var leaves := Cumulative(host, manifest, priors, deltas).value.leaves;
      && (Mentions(LeafPieces(leaves), key) <==> UnitsOf(Earned(priors, deltas), key) > 0)
      && UnitsOf(LeafPieces(leaves), key) == UnitsOf(Earned(priors, deltas), key)
  {
    var earned := Tally(Earned(priors, deltas));
    CumulativeSpec(host, manifest, priors, deltas);
    KeyPiecesAt(PositivePart(earned), host.less, key);
    TallyAt(Earned(priors, deltas));
    assert At(earned, key) == UnitsOf(Earned(priors, deltas), key);
    EarnedNonNegative(host, priors, deltas, key);
  }

  ghost predicate ValidPriors(host: Host, priors: seq<Prior>) {
    forall i :: 0 <= i < |priors| ==> host.isAddress(priors[i].account) && priors[i].cumulativeAmount >= 0
  }

  ghost predicate ValidDeltas(host: Host, deltas: seq<Delta>) {
    forall i :: 0 <= i < |deltas| ==> host.isAddress(deltas[i].account) && deltas[i].deltaAmount >= 0
  }

  lemma {:induction false} FoldsSucceedIff(host: Host, start: map<string, Balance>, priors: seq<Prior>, deltas: seq<Delta>)
    ensures FoldPriors(host, priors).Ok? <==> ValidPriors(host, priors)
    ensures FoldDeltas(host, start, deltas).Ok? <==> ValidDeltas(host, deltas)
    decreases |priors| + |deltas|
  {
    if |priors| > 0 {
      var init := priors[..|priors| - 1];
      FoldsSucceedIff(host, start, init, deltas);
      assert ValidPriors(host, priors) <==> ValidPriors(host, init) && AddPrior(host, map[], priors[|priors| - 1]).Ok?;
    }
    if |deltas| > 0 {
      var init := deltas[..|deltas| - 1];
      FoldsSucceedIff(host, start, priors, init);
      assert ValidDeltas(host, deltas) <==> ValidDeltas(host, init) && AddDelta(host, map[], deltas[|deltas| - 1]).Ok?;
    }
  }

  lemma EarnedNonNegative(host: Host, priors: seq<Prior>, deltas: seq<Delta>, key: string)
    requires FoldPriors(host, priors).Ok? && FoldDeltas(host, FoldPriors(host, priors).value, deltas).Ok?
    ensures UnitsOf(Earned(priors, deltas), key) >= 0
  {
    FoldSpec(host, priors, deltas, key);
  }

  /** The build fails exactly on a bad manifest, a malformed entry, or nothing to distribute: the
      supply check at its end never fires. */
  lemma CumulativeFailsIff(host: Host, manifest: Manifest, priors: seq<Prior>, deltas: seq<Delta>)
    ensures Cumulative(host, manifest, priors, deltas).Ok? <==>
      && ValidManifest(host, manifest) && ValidPriors(host, priors) && ValidDeltas(host, deltas)
      && PriorSum(priors) + DeltaSum(deltas) > 0
    ensures Cumulative(host, manifest, priors, deltas) != Err(SupplyViolated)
  {
    hide ValidPriors, ValidDeltas, ValidManifest;
    FoldsSucceedIff(host, if FoldPriors(host, priors).Ok? then FoldPriors(host, priors).value else map[], priors, deltas);
    ErrorsOfFolds(host, map[], priors, deltas);
    if FoldPriors(host, priors).Ok? {
      ErrorsOfFolds(host, FoldPriors(host, priors).value, priors, deltas);
      if FoldDeltas(host, FoldPriors(host, priors).value, deltas).Ok? {
        FoldLeaves(host, priors, deltas);
        PositiveLeafSum(Leaves(FoldDeltas(host, FoldPriors(host, priors).value, deltas).value, host.less));
      }
    }
  }

  lemma {:induction false} PositiveLeafSum(leaves: seq<Leaf>)
    requires forall i :: 0 <= i < |leaves| ==> leaves[i].cumulativeAmount > 0
    ensures LeafSum(leaves) >= 0 && (LeafSum(leaves) > 0 <==> |leaves| > 0)
  {
    if |leaves| > 0 {
      PositiveLeafSum(leaves[..|leaves| - 1]);
    }
  }

  lemma {:induction false} ErrorsOfFolds(host: Host, start: map<string, Balance>, priors: seq<Prior>, deltas: seq<Delta>)
    ensures FoldPriors(host, priors) != Err(SupplyViolated) && FoldDeltas(host, start, deltas) != Err(SupplyViolated)
    decreases |priors| + |deltas|
  {
    if |priors| > 0 {
      ErrorsOfFolds(host, start, priors[..|priors| - 1], deltas);
    }
    if |deltas| > 0 {
      ErrorsOfFolds(host, start, priors, deltas[..|deltas| - 1]);
    }
  }

  /** Which error: a bad manifest before everything, then the first bad prior, then the first bad
      delta, and a lack of anything to distribute last. */
  lemma CumulativeError(host: Host, manifest: Manifest, priors: seq<Prior>, deltas: seq<Delta>)
    requires Cumulative(host, manifest, priors, deltas).Err?
    ensures var e := Cumulative(host, manifest, priors, deltas).error;
      if !ValidManifest(host, manifest) then e == BadManifest
      else if !ValidPriors(host, priors) then
        exists i :: 0 <= i < |priors| && ValidPriors(host, priors[..i])
          && if !host.isAddress(priors[i].account) then e == InvalidPrior(priors[i].account)
             else priors[i].cumulativeAmount < 0 && e == NegativePrior
      else if !ValidDeltas(host, deltas) then
        exists i :: 0 <= i < |deltas| && ValidDeltas(host, deltas[..i])
          && if !host.isAddress(deltas[i].account) then e == InvalidDelta(deltas[i].claimantKey)
             else deltas[i].deltaAmount < 0 && e == NegativeDelta(deltas[i].claimantKey)
      else e == NoPositiveBalance
  {
    hide ValidPriors, ValidDeltas, ValidManifest, Leaves;
    FoldsSucceedIff(host, if FoldPriors(host, priors).Ok? then FoldPriors(host, priors).value else map[], priors, deltas);
    CumulativeFailsIff(host, manifest, priors, deltas);
    if FoldPriors(host, priors).Err? {
      var i := FirstBadPrior(host, priors);
      assert ValidPriors(host, priors[..i]);
    } else if FoldDeltas(host, FoldPriors(host, priors).value, deltas).Err? {
      var i := FirstBadDelta(host, FoldPriors(host, priors).value, deltas);
      assert ValidDeltas(host, deltas[..i]);
    }
  }

  /** A manifest is bad when one of its four ids is blank or its token is no address. */
  lemma ManifestRejectedIff(host: Host, manifest: Manifest, priors: seq<Prior>, deltas: seq<Delta>)
    ensures Cumulative(host, manifest, priors, deltas) == Err(BadManifest) <==>
      || TrimEnd(TrimStart(manifest.distributionId)) == "" || TrimEnd(TrimStart(manifest.nodeId)) == ""
      || TrimEnd(TrimStart(manifest.scopeId)) == "" || TrimEnd(TrimStart(manifest.statementHash)) == ""
      || !host.isAddress(manifest.tokenAddress)
  {
    BlankIffTrimmedAway(manifest.distributionId);
    BlankIffTrimmedAway(manifest.nodeId);
    BlankIffTrimmedAway(manifest.scopeId);
    BlankIffTrimmedAway(manifest.statementHash);
    hide IsBlank, TrimStart, TrimEnd, Cumulative;
    RejectedIff(host, manifest, priors, deltas);
  }

  lemma RejectedIff(host: Host, manifest: Manifest, priors: seq<Prior>, deltas: seq<Delta>)
    ensures Cumulative(host, manifest, priors, deltas) == Err(BadManifest) <==> !ValidManifest(host, manifest)
  {
    if Cumulative(host, manifest, priors, deltas).Err? {
      CumulativeError(host, manifest, priors, deltas);
    }
    hide Cumulative;
  }

  lemma {:induction false} FirstBadPrior(host: Host, priors: seq<Prior>) returns (i: nat)
    requires FoldPriors(host, priors).Err?
    ensures i < |priors| && ValidPriors(host, priors[..i])
    ensures if !host.isAddress(priors[i].account) then FoldPriors(host, priors).error == InvalidPrior(priors[i].account)
            else priors[i].cumulativeAmount < 0 && FoldPriors(host, priors).error == NegativePrior
  {
    hide Lower;
    var n := |priors| - 1;
    FoldsSucceedIff(host, map[], priors[..n], []);
    if FoldPriors(host, priors[..n]).Err? {
      i := FirstBadPrior(host, priors[..n]);
      assert priors[..n][..i] == priors[..i] && priors[..n][i] == priors[i];
    } else {
      i := n;
    }
  }

  lemma {:induction false} FirstBadDelta(host: Host, start: map<string, Balance>, deltas: seq<Delta>) returns (i: nat)
    requires FoldDeltas(host, start, deltas).Err?
    ensures i < |deltas| && ValidDeltas(host, deltas[..i])
    ensures if !host.isAddress(deltas[i].account) then FoldDeltas(host, start, deltas).error == InvalidDelta(deltas[i].claimantKey)
            else deltas[i].deltaAmount < 0 && FoldDeltas(host, start, deltas).error == NegativeDelta(deltas[i].claimantKey)
  {
    hide Lower;
    var n := |deltas| - 1;
    FoldsSucceedIff(host, start, [], deltas[..n]);
    if FoldDeltas(host, start, deltas[..n]).Err? {
      i := FirstBadDelta(host, start, deltas[..n]);
      assert deltas[..n][..i] == deltas[..i] && deltas[..n][i] == deltas[i];
    } else {
      i := n;
    }
  }

  // ----- feeding a distribution back -----

  /** The persisted leaves, as the next epoch's prior balances. */
  function AsPriors(leaves: seq<Leaf>): seq<Prior> {
    seq(|leaves|, i requires 0 <= i < |leaves| => Prior(leaves[i].account, leaves[i].cumulativeAmount))
  }

  lemma {:induction false} PriorSumOfLeaves(leaves: seq<Leaf>)
    ensures PriorSum(AsPriors(leaves)) == LeafSum(leaves) && PriorPieces(AsPriors(leaves)) == LeafPieces(leaves)
  {
    if |leaves| > 0 {
      PriorSumOfLeaves(leaves[..|leaves| - 1]);
      assert AsPriors(leaves)[..|leaves| - 1] == AsPriors(leaves[..|leaves| - 1]);
    }
  }

  /** Building on a distribution is building on everything that went into it. */
  lemma EarnedAgain(host: Host, manifest: Manifest, priors: seq<Prior>, first: seq<Delta>, second: seq<Delta>, key: string)
    requires Cumulative(host, manifest, priors, first).Ok?
    ensures var leaves := Cumulative(host, manifest, priors, first).value.leaves;
      UnitsOf(Earned(AsPriors(leaves), second), key) == UnitsOf(Earned(priors, first + second), key)
  {
    hide Cumulative;
    var leaves := Cumulative(host, manifest, priors, first).value.leaves;
    LeafPerAccount(host, manifest, priors, first, key);
    PriorSumOfLeaves(leaves);
    UnitsAppend(LeafPieces(leaves), DeltaPieces(second), key);
    UnitsAppend(PriorPieces(priors), DeltaPieces(first), key);
    assert DeltaPieces(first + second) == DeltaPieces(first) + DeltaPieces(second);
    UnitsAppend(DeltaPieces(first), DeltaPieces(second), key);
    UnitsAppend(PriorPieces(priors), DeltaPieces(first + second), key);
  }

  lemma {:induction false} DeltaSumAppend(first: seq<Delta>, second: seq<Delta>)
    ensures DeltaSum(first + second) == DeltaSum(first) + DeltaSum(second)
  {
    if |second| == 0 {
      assert first + second == first;
    } else {
      assert (first + second)[..|first + second| - 1] == first + second[..|second| - 1];
      DeltaSumAppend(first, second[..|second| - 1]);
    }
  }

  /** Two builds in succession fail together with one build of all the deltas. */
  lemma TwoBuildsSucceedTogether(host: Host, manifest: Manifest, priors: seq<Prior>, first: seq<Delta>, second: seq<Delta>)
    requires Cumulative(host, manifest, priors, first).Ok?
    ensures var one := Cumulative(host, manifest, priors, first).value;
      Cumulative(host, manifest, AsPriors(one.leaves), second).Ok? == Cumulative(host, manifest, priors, first + second).Ok?
  {
    var one := Cumulative(host, manifest, priors, first).value;
    CumulativeSpec(host, manifest, priors, first);
    CumulativeFailsIff(host, manifest, priors, first);
    CumulativeFailsIff(host, manifest, AsPriors(one.leaves), second);
    CumulativeFailsIff(host, manifest, priors, first + second);
    PriorSumOfLeaves(one.leaves);
    DeltaSumAppend(first, second);
    ValidAppend(host, first, second);
    hide Cumulative, ValidDeltas, KeyPieces, PositivePart, Earned, LeafPieces, StrictlyByAccount, Tally, Lower, UnitsOf;
    assert ValidPriors(host, AsPriors(one.leaves));
  }

  /** Two builds in succession give the same balances, account by account and in the same order, as
      one build of all the deltas; they fail together, too. */
  lemma TwoBuildsAreOne(host: Host, manifest: Manifest, priors: seq<Prior>, first: seq<Delta>, second: seq<Delta>)
    requires Cumulative(host, manifest, priors, first).Ok?
    ensures var one := Cumulative(host, manifest, priors, first).value;
      var two, all := Cumulative(host, manifest, AsPriors(one.leaves), second), Cumulative(host, manifest, priors, first + second);
      && two.Ok? == all.Ok?
      && (two.Ok? ==> LeafPieces(two.value.leaves) == LeafPieces(all.value.leaves)
                      && one.mintDelta + two.value.mintDelta == all.value.mintDelta)
  {
    var one := Cumulative(host, manifest, priors, first).value;
    TwoBuildsSucceedTogether(host, manifest, priors, first, second);
    DeltaSumAppend(first, second);
    CumulativeSpec(host, manifest, priors, first);
    hide Cumulative, KeyPieces, PositivePart, Earned, LeafPieces, StrictlyByAccount, Tally, Lower, UnitsOf;
    if Cumulative(host, manifest, AsPriors(one.leaves), second).Ok? {
      CumulativeSpec(host, manifest, AsPriors(one.leaves), second);
      CumulativeSpec(host, manifest, priors, first + second);
      var e, f := Earned(AsPriors(one.leaves), second), Earned(priors, first + second);
      TallyAt(e);
      TallyAt(f);
      forall k ensures At(Tally(e), k) == At(Tally(f), k) {
        EarnedAgain(host, manifest, priors, first, second, k);
      }
      PositivePartDetermined(Tally(e), Tally(f));
    }
  }

  lemma ValidAppend(host: Host, first: seq<Delta>, second: seq<Delta>)
    ensures ValidDeltas(host, first + second) <==> ValidDeltas(host, first) && ValidDeltas(host, second)
  {
    var all := first + second;
    if ValidDeltas(host, all) {
      assert forall i :: 0 <= i < |first| ==> first[i] == all[i];
      assert forall i :: 0 <= i < |second| ==> second[i] == all[|first| + i];
    }
  }

  // ----- rebuilding without deltas -----

  ghost predicate FirstSeen(priors: seq<Prior>, m: map<string, Balance>) {
    forall i :: 0 <= i < |priors| ==> Lower(priors[i].account) in m && m[Lower(priors[i].account)].account == priors[i].account
  }

  lemma {:induction false} FoldedKeys(host: Host, priors: seq<Prior>, key: string)
    requires FoldPriors(host, priors).Ok?
    ensures key in FoldPriors(host, priors).value <==> exists i :: 0 <= i < |priors| && Lower(priors[i].account) == key
  {
    hide Lower;
    if |priors| > 0 {
      var n := |priors| - 1;
      FoldedKeys(host, priors[..n], key);
      if i :| 0 <= i < |priors| && Lower(priors[i].account) == key {
        assert i < n ==> Lower(priors[..n][i].account) == key;
      }
      if i :| 0 <= i < n && Lower(priors[..n][i].account) == key {
        assert Lower(priors[i].account) == key;
      }
    }
  }

  lemma {:induction false} FirstSeenAccount(host: Host, priors: seq<Prior>)
    requires FoldPriors(host, priors).Ok?
    requires forall i, j :: 0 <= i < j < |priors| ==> Lower(priors[i].account) != Lower(priors[j].account)
    ensures FirstSeen(priors, FoldPriors(host, priors).value)
  {
    hide Lower;
    if |priors| > 0 {
      var n := |priors| - 1;
      FirstSeenAccount(host, priors[..n]);
      var before, key := FoldPriors(host, priors[..n]).value, Lower(priors[n].account);
      FoldedKeys(host, priors[..n], key);
      assert key !in before;
      forall i | 0 <= i < n ensures Lower(priors[i].account) in before && before[Lower(priors[i].account)].account == priors[i].account {
        assert priors[i] == priors[..n][i];
      }
    }
  }

  /** Rebuilding a distribution from its own leaves with nothing new mints nothing and lists the
      same accounts, spelled the same way, with the same amounts in the same order: the same leaf
      preimages, hence the same root. */
  lemma RebuildIsStable(host: Host, manifest: Manifest, priors: seq<Prior>, deltas: seq<Delta>)
    requires Cumulative(host, manifest, priors, deltas).Ok?
    ensures var d := Cumulative(host, manifest, priors, deltas).value;
      var again := Cumulative(host, manifest, AsPriors(d.leaves), []);
      && again.Ok? && again.value.mintDelta == 0 && |again.value.leaves| == |d.leaves|
      && forall i :: 0 <= i < |d.leaves| ==>
           && again.value.leaves[i].account == d.leaves[i].account
           && again.value.leaves[i].cumulativeAmount == d.leaves[i].cumulativeAmount
  {
    hide Cumulative, Lower, LeafPieces, KeyPieces, Earned, AsPriors;
    var d := Cumulative(host, manifest, priors, deltas).value;
    TwoBuildsAreOne(host, manifest, priors, deltas, []);
    assert deltas + [] == deltas;
    CumulativeSpec(host, manifest, priors, deltas);
    var again := Cumulative(host, manifest, AsPriors(d.leaves), []).value;
    LeafAmounts(again.leaves, d.leaves);
    DistinctBack(d.leaves, host.less);
    forall i | 0 <= i < |d.leaves| ensures again.leaves[i].account == d.leaves[i].account {
      RebuiltAccount(host, manifest, d.leaves, i);
    }
  }

  lemma RebuiltAccount(host: Host, manifest: Manifest, leaves: seq<Leaf>, i: nat)
    requires forall j, k :: 0 <= j < k < |leaves| ==> Lower(AsPriors(leaves)[j].account) != Lower(AsPriors(leaves)[k].account)
    requires Cumulative(host, manifest, AsPriors(leaves), []).Ok?
    requires var again := Cumulative(host, manifest, AsPriors(leaves), []).value.leaves;
      i < |leaves| == |again| && Lower(again[i].account) == Lower(leaves[i].account)
    ensures Cumulative(host, manifest, AsPriors(leaves), []).value.leaves[i].account == leaves[i].account
  {
    hide Lower, Leaves, FoldPriors;
    var back := AsPriors(leaves);
    var start := FoldPriors(host, back).value;
    FirstSeenAccount(host, back);
    assert Cumulative(host, manifest, back, []).value.leaves == Leaves(start, host.less);
    PriorsFold(host, back, "");
    LeafAccount(host, start, i);
    assert back[i].account == leaves[i].account;
  }

  lemma LeafAmounts(a: seq<Leaf>, b: seq<Leaf>)
    requires LeafPieces(a) == LeafPieces(b)
    ensures |a| == |b|
    ensures forall i :: 0 <= i < |a| ==>
      Lower(a[i].account) == Lower(b[i].account) && a[i].cumulativeAmount == b[i].cumulativeAmount
  {
    hide Lower;
    assert |LeafPieces(a)| == |a| && |LeafPieces(b)| == |b|;
    forall i | 0 <= i < |a|
      ensures Lower(a[i].account) == Lower(b[i].account) && a[i].cumulativeAmount == b[i].cumulativeAmount
    {
      assert LeafPieces(a)[i] == LeafPieces(b)[i];
    }
  }

  lemma DistinctBack(leaves: seq<Leaf>, less: Order)
    requires StrictlyByAccount(leaves, less)
    ensures forall i, j :: 0 <= i < j < |leaves| ==>
      Lower(AsPriors(leaves)[i].account) != Lower(AsPriors(leaves)[j].account)
  {
  }

  lemma LeafAccount(host: Host, m: map<string, Balance>, i: nat)
    requires i < |Leaves(m, host.less)| && forall k :: k in m ==> Lower(m[k].account) == k
    ensures var a := Leaves(m, host.less)[i].account; Lower(a) in m && m[Lower(a)].account == a
  {
    var keys := SortedKeys((set k | k in m && m[k].prior + m[k].delta > 0), host.less);
    assert keys[i] in keys;
  }
}
