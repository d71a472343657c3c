/** What `applyReceiptWeightOverrides` does to a list of weights, said on the list of overrides. */
module WeightOverrides {
  import opened Wrappers
  import opened Collation
  import opened Explode

  /** Some override gives the receipt units. */
  ghost predicate HasUnits(overrides: seq<SubjectOverride>, id: string) {
    exists i :: 0 <= i < |overrides| && overrides[i].subjectRef == id && overrides[i].overrideUnits.Some?
  }

  /** The last override that gives the receipt units gives it these. */
  ghost predicate LastUnits(overrides: seq<SubjectOverride>, id: string, units: int) {
    exists i :: 0 <= i < |overrides| && overrides[i].subjectRef == id && overrides[i].overrideUnits == Some(units)
      && forall m :: i < m < |overrides| && overrides[m].subjectRef == id ==> overrides[m].overrideUnits.None?
  }

  /** The same receipt, with the units of its last override where it has one, else unchanged. */
  ghost predicate Corrects(overrides: seq<SubjectOverride>, before: Weight, after: Weight) {
    && after.receiptId == before.receiptId
    && if HasUnits(overrides, before.receiptId) then LastUnits(overrides, before.receiptId, after.units) else after == before
  }

  lemma {:induction false} UnitsOfOverride(overrides: seq<SubjectOverride>, id: string)
    ensures id in UnitsMap(overrides) <==> HasUnits(overrides, id)
    ensures id in UnitsMap(overrides) ==> LastUnits(overrides, id, UnitsMap(overrides)[id])
  {
    if |overrides| > 0 {
      var init, last := overrides[..|overrides| - 1], overrides[|overrides| - 1];
      UnitsOfOverride(init, id);
      if last.subjectRef == id && last.overrideUnits.Some? {
        assert overrides[|overrides| - 1].overrideUnits == Some(UnitsMap(overrides)[id]);
      } else {
        if i :| 0 <= i < |init| && init[i].subjectRef == id && init[i].overrideUnits.Some? {
          assert overrides[i] == init[i];
        }
        if i :| 0 <= i < |overrides| && overrides[i].subjectRef == id && overrides[i].overrideUnits.Some? {
          assert init[i] == overrides[i];
        }
        if id in UnitsMap(init) {
          var i :| 0 <= i < |init| && init[i].subjectRef == id && init[i].overrideUnits == Some(UnitsMap(init)[id])
            && forall m :: i < m < |init| && init[m].subjectRef == id ==> init[m].overrideUnits.None?;
          assert overrides[i].overrideUnits == Some(UnitsMap(overrides)[id]);
          forall m | i < m < |overrides| && overrides[m].subjectRef == id ensures overrides[m].overrideUnits.None? {
            assert m < |init| ==> overrides[m] == init[m];
          }
        }
      }
    }
  }

  lemma ByReceiptIsWeakOrder(less: Order)
    ensures WeakOrder(ByReceipt(less))
  {
    var before := ByReceipt(less);
    forall a, b, c | !before(a, b) && !before(b, c) ensures !before(a, c) {
      assert !less(a.receiptId, b.receiptId) && !less(b.receiptId, c.receiptId);
    }
    forall a, b | before(a, b) ensures !before(b, a) {
      assert less(a.receiptId, b.receiptId);
    }
  }

  /** Receipt by receipt, the result is a correction of the input, and nothing is added or dropped;
      it is in order of receipt id when some override has units, and the input itself otherwise. */
  lemma OverridesCorrect(weights: seq<Weight>, overrides: seq<SubjectOverride>, less: Order) returns (corrected: seq<Weight>)
    ensures |corrected| == |weights| && forall i :: 0 <= i < |weights| ==> Corrects(overrides, weights[i], corrected[i])
    ensures var out := OverriddenWeights(weights, overrides, less);
      && multiset(out) == multiset(corrected)
      && if exists id :: HasUnits(overrides, id)
         then forall i, k :: 0 <= i < k < |out| ==> !less(out[k].receiptId, out[i].receiptId)
         else out == weights
  {
    var units := UnitsMap(overrides);
    corrected := seq(|weights|, i requires 0 <= i < |weights| => Overridden(weights[i], units));
    forall i | 0 <= i < |weights| ensures Corrects(overrides, weights[i], corrected[i]) {
      UnitsOfOverride(overrides, weights[i].receiptId);
    }
    forall id ensures id in units <==> HasUnits(overrides, id) {
      UnitsOfOverride(overrides, id);
    }
    hide HasUnits, LastUnits, UnitsMap;
    if units == map[] {
      assert corrected == weights;
    } else {
      assert exists id :: id in units by {
        assert units.Keys != {};
      }
      SortKeepsElements(corrected, ByReceipt(less));
      ByReceiptIsWeakOrder(less);
      SortSorts(corrected, ByReceipt(less));
      var out := OverriddenWeights(weights, overrides, less);
      forall i, k | 0 <= i < k < |out| ensures !less(out[k].receiptId, out[i].receiptId) {
        assert !ByReceipt(less)(out[k], out[i]);
      }
    }
  }

  /** So every weight of the result whose receipt is overridden carries the last override's units, and
      every other one is a weight of the input. */
  lemma OverriddenUnits(weights: seq<Weight>, overrides: seq<SubjectOverride>, less: Order, w: Weight)
    requires w in OverriddenWeights(weights, overrides, less)
    ensures if HasUnits(overrides, w.receiptId) then LastUnits(overrides, w.receiptId, w.units) else w in weights
  {
    var corrected := OverridesCorrect(weights, overrides, less);
    assert w in multiset(corrected);
    var i :| 0 <= i < |corrected| && corrected[i] == w;
    assert Corrects(overrides, weights[i], corrected[i]);
  }
}
