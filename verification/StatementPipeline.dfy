/** The signed statement of an epoch: overrides, then the join, then the statement lines. */
module StatementPipeline {
  import opened Wrappers
  import opened Collation
  import opened Grouping
  import opened Statements
  import opened Explode
  import opened ExplodeConservation

  datatype PipelineError = JoinFailed(join: ExplodeError) | BadUnits(units: NegativeUnits)

  function JoinOf(claimants: seq<ClaimantsRecord>, overrides: seq<SubjectOverride>, less: Order, charLess: Order): Join {
    Join(RecordMap(claimants), ShareMap(overrides), less, charLess)
  }

  function Statement(weights: seq<Weight>, overrides: seq<SubjectOverride>, j: Join, pool: int): Result<seq<Line>, PipelineError> {
    match Exploded(j, OverriddenWeights(weights, overrides, j.less))
    case Err(e) => Err(JoinFailed(e))
    case Ok(allocations) =>
      match StatementLines(allocations, pool, j.less)
      case Err(e) => Err(BadUnits(e))
      case Ok(lines) => Ok(lines)
  }

  method BuildStatement(
    weights: seq<Weight>, claimants: seq<ClaimantsRecord>, overrides: seq<SubjectOverride>, pool: int, less: Order, charLess: Order
  ) returns (r: Result<seq<Line>, PipelineError>)
    ensures r == Statement(weights, overrides, JoinOf(claimants, overrides, less, charLess), pool)
  {
    var overridden := ApplyReceiptWeightOverrides(weights, overrides, less);
    var allocations := ExplodeToClaimants(overridden, claimants, overrides, less, charLess);
    if allocations.Err? {
      return Err(JoinFailed(allocations.error));
    }
    var lines := ComputeAttributionStatementLines(allocations.value, pool, less);
    r := if lines.Err? then Err(BadUnits(lines.error)) else Ok(lines.value);
  }

  /** Non-negative receipt weights and override units, as the weighting and the override route give. */
  ghost predicate NonNegativeUnits(weights: seq<Weight>, overrides: seq<SubjectOverride>) {
    && (forall i :: 0 <= i < |weights| ==> weights[i].units >= 0)
    && (forall i :: 0 <= i < |overrides| && overrides[i].overrideUnits.Some? ==> overrides[i].overrideUnits.value >= 0)
  }

  lemma {:induction false} UnitsMapNonNegative(overrides: seq<SubjectOverride>)
    requires NonNegativeUnits([], overrides)
    ensures forall k :: k in UnitsMap(overrides) ==> UnitsMap(overrides)[k] >= 0
  {
    if |overrides| > 0 {
      UnitsMapNonNegative(overrides[..|overrides| - 1]);
    }
  }

  function OverrideAll(weights: seq<Weight>, units: map<string, int>): seq<Weight> {
    seq(|weights|, i requires 0 <= i < |weights| => Overridden(weights[i], units))
  }

  lemma OverriddenNonNegative(weights: seq<Weight>, overrides: seq<SubjectOverride>, less: Order)
    requires NonNegativeUnits(weights, overrides)
    ensures NonNegativeUnits(OverriddenWeights(weights, overrides, less), overrides)
  {
    UnitsMapNonNegative(overrides);
    var all, out := OverrideAll(weights, UnitsMap(overrides)), OverriddenWeights(weights, overrides, less);
    SortKeepsElements(all, ByReceipt(less));
    if UnitsMap(overrides) != map[] {
      forall i | 0 <= i < |out| ensures out[i].units >= 0 {
        assert out[i] in multiset(all);
        var k :| 0 <= k < |all| && all[k] == out[i];
      }
    }
  }

  /** End to end: with a positive pool and positive surviving units the credits sum to exactly the
      pool, otherwise the statement is empty; and only a failed join stops it. */
  lemma StatementPaysThePool(weights: seq<Weight>, overrides: seq<SubjectOverride>, j: Join, pool: int)
    requires NonNegativeUnits(weights, overrides) && ValidShares(j)
    ensures var overridden := OverriddenWeights(weights, overrides, j.less);
      && (Statement(weights, overrides, j, pool).Ok? <==> AllJoin(j, overridden))
      && (Statement(weights, overrides, j, pool).Ok? ==>
            var lines := Statement(weights, overrides, j, pool).value;
            if pool > 0 && Surviving(j, overridden) > 0 then LineCredits(lines) == pool else lines == [])
  {
    hide StatementLines, LineCredits;
    var overridden := OverriddenWeights(weights, overrides, j.less);
    OverriddenNonNegative(weights, overrides, j.less);
    GroupWeightsIsTally(j, overridden);
    if AllJoin(j, overridden) {
      var out := Exploded(j, overridden).value;
      ExplodeConserves(j, overridden);
      forall i | 0 <= i < |out| ensures out[i].finalUnits >= 0 {
        assert Pieces(out)[i] in Pieces(out);
      }
      StatementExact(out, pool, j.less);
    }
  }

  lemma OverrideAllAppend(ws: seq<Weight>, vs: seq<Weight>, units: map<string, int>)
    ensures OverrideAll(ws + vs, units) == OverrideAll(ws, units) + OverrideAll(vs, units)
  {
  }

  lemma {:induction false} OverrideAllPermutes(ws: seq<Weight>, vs: seq<Weight>, units: map<string, int>)
    requires multiset(ws) == multiset(vs)
    ensures multiset(OverrideAll(ws, units)) == multiset(OverrideAll(vs, units))
  {
    if |ws| == 0 {
      assert |multiset(vs)| == 0;
    } else {
      var init, last := ws[..|ws| - 1], ws[|ws| - 1];
      var before, after := TakeOut(ws, vs);
      OverrideAllPermutes(init, before + after, units);
      assert ws == init + [last];
      OverrideAllAppend(init, [last], units);
      OverrideAllAppend(before, after, units);
      OverrideAllAppend(before + [last], after, units);
      OverrideAllAppend(before, [last], units);
      hide OverrideAll;
    }
  }

  /** The order in which receipts are listed shows neither in whether there is a statement nor in
      its numbers. */
  lemma StatementIgnoresReceiptOrder(ws: seq<Weight>, vs: seq<Weight>, overrides: seq<SubjectOverride>, j: Join, pool: int)
    requires multiset(ws) == multiset(vs)
    ensures var x, y := Statement(ws, overrides, j, pool), Statement(vs, overrides, j, pool);
      && x.Ok? == y.Ok?
      && (x.Ok? ==> LineAmounts(x.value) == LineAmounts(y.value))
  {
    hide Exploded, StatementLines, LineAmounts, Pieces;
    var units := UnitsMap(overrides);
    var a, b := OverriddenWeights(ws, overrides, j.less), OverriddenWeights(vs, overrides, j.less);
    OverrideAllPermutes(ws, vs, units);
    SortKeepsElements(OverrideAll(ws, units), ByReceipt(j.less));
    SortKeepsElements(OverrideAll(vs, units), ByReceipt(j.less));
    assert multiset(a) == multiset(b);
    hide OverriddenWeights;
    ExplodeIgnoresReceiptOrder(j, a, b);
    if Exploded(j, a).Ok? {
      var x, y := Exploded(j, a).value, Exploded(j, b).value;
      SameNegatives(x, y, pool, j.less);
      if StatementLines(x, pool, j.less).Ok? {
        StatementDeterministic(x, y, pool, j.less);
      }
    }
  }

  lemma SameNegatives(a: seq<FinalAllocation>, b: seq<FinalAllocation>, pool: int, less: Order)
    requires Pieces(a) == Pieces(b)
    ensures StatementLines(a, pool, less).Ok? == StatementLines(b, pool, less).Ok?
  {
    StatementExact(a, pool, less);
    StatementExact(b, pool, less);
    hide StatementLines;
    assert |Pieces(a)| == |a| && |Pieces(b)| == |b|;
    forall i | 0 <= i < |a| ensures a[i].finalUnits == b[i].finalUnits {
      assert Pieces(a)[i] == Pieces(b)[i];
    }
  }
}
