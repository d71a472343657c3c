/** Receipt weights to claimant units (claimant-shares.ts, `explodeToClaimants`). */
module Explode {
  import opened Wrappers
  import opened Collation
  import opened Integers
  import opened Grouping
  import opened LargestRemainder
  import opened Claimants
  import opened Statements

  const PPM := 1_000_000

  datatype Weight = Weight(receiptId: string, units: int)

  datatype ClaimantsRecord = ClaimantsRecord(receiptId: string, claimantKeys: seq<string>)

  datatype ClaimantShare = ClaimantShare(claimant: Claimant, sharePpm: int)

  datatype SubjectOverride = SubjectOverride(
    subjectRef: string, overrideUnits: Option<int>, overrideShares: Option<seq<ClaimantShare>>)

  datatype ExplodeError = MissingRecord(receiptId: string) | BadKey(error: KeyError)

  /** What is looked up for each receipt, and the two sort orders in use: `less` is `localeCompare`,
      `charLess` the default order of `sort()`. */
  datatype Join = Join(
    records: map<string, seq<string>>, shares: map<string, seq<ClaimantShare>>, less: Order, charLess: Order)

  function RecordMap(claimants: seq<ClaimantsRecord>): map<string, seq<string>> {
    if |claimants| == 0 then map[]
    else
      var last := claimants[|claimants| - 1];
      RecordMap(claimants[..|claimants| - 1])[last.receiptId := last.claimantKeys]
  }

  function ShareMap(overrides: seq<SubjectOverride>): map<string, seq<ClaimantShare>> {
    if |overrides| == 0 then map[]
    else
      var m, last := ShareMap(overrides[..|overrides| - 1]), overrides[|overrides| - 1];
      if last.overrideShares.Some? then m[last.subjectRef := last.overrideShares.value] else m
  }

  function UnitsMap(overrides: seq<SubjectOverride>): map<string, int> {
    if |overrides| == 0 then map[]
    else
      var m, last := UnitsMap(overrides[..|overrides| - 1]), overrides[|overrides| - 1];
      if last.overrideUnits.Some? then m[last.subjectRef := last.overrideUnits.value] else m
  }

  // ----- the two splits of one receipt -----

  datatype Part = Part(key: string, claimant: Claimant, units: int)

  function PpmItems(shares: seq<ClaimantShare>): seq<Item> {
    seq(|shares|, i requires 0 <= i < |shares| => Item(ClaimantKey(shares[i].claimant), shares[i].sharePpm))
  }

  function PpmParts(units: int, shares: seq<ClaimantShare>, less: Order): seq<Part> {
    var items := PpmItems(shares);
    var amounts := Apportion(items, units, PPM, less);
    seq(|shares|, i requires 0 <= i < |shares| => Part(items[i].key, shares[i].claimant, amounts[i]))
  }

  /** Every claimant gets `per` units, the first `remainder` of them one more. */
  function AlignedParts(keys: seq<string>, claimants: seq<Claimant>, per: int, remainder: int): seq<Part>
  {
    seq(|keys|, i requires 0 <= i < |keys| =>
      Part(keys[i], if i < |claimants| then claimants[i] else User(""), per + if i < remainder then 1 else 0))
  }

  function ParseAll(keys: seq<string>): Result<seq<Claimant>, KeyError> {
    if |keys| == 0 then Ok([])
    else
      match ParseAll(keys[..|keys| - 1])
      case Err(e) => Err(e)
      case Ok(cs) =>
        match ParseClaimantKey(keys[|keys| - 1])
        case Err(e) => Err(e)
        case Ok(c) => Ok(cs + [c])
  }

  function EqualParts(units: int, keys: seq<string>, charLess: Order): Result<seq<Part>, KeyError>
    requires |keys| > 0
  {
    var sorted := Sort(keys, charLess);
    match ParseAll(sorted)
    case Err(e) => Err(e)
    case Ok(cs) =>
      Ok(AlignedParts(sorted, cs, BigDiv(units, |keys|), units - BigDiv(units, |keys|) * |keys|))
  }

  function ReceiptParts(j: Join, w: Weight): Result<seq<Part>, ExplodeError> {
    if w.receiptId !in j.records then Err(MissingRecord(w.receiptId))
    else if |j.records[w.receiptId]| == 0 then Ok([])
    else if w.receiptId in j.shares && |j.shares[w.receiptId]| > 0 then
      Ok(PpmParts(w.units, j.shares[w.receiptId], j.less))
    else
      match EqualParts(w.units, j.records[w.receiptId], j.charLess)
      case Err(e) => Err(BadKey(e))
      case Ok(parts) => Ok(parts)
  }

  // ----- the fold over receipts -----

  function AddParts(m: map<string, Entry>, parts: seq<Part>, receiptId: string): map<string, Entry> {
    if |parts| == 0 then m
    else
      var last := parts[|parts| - 1];
      Accumulate(AddParts(m, parts[..|parts| - 1], receiptId), last.key, last.claimant, last.units, {receiptId})
  }

  function GroupWeights(j: Join, weights: seq<Weight>): Result<map<string, Entry>, ExplodeError> {
    if |weights| == 0 then Ok(map[])
    else
      match GroupWeights(j, weights[..|weights| - 1])
      case Err(e) => Err(e)
      case Ok(m) =>
        var w := weights[|weights| - 1];
        match ReceiptParts(j, w)
        case Err(e) => Err(e)
        case Ok(parts) => Ok(AddParts(m, parts, w.receiptId))
  }

  function Listed(m: map<string, Entry>, less: Order): seq<FinalAllocation> {
    var keys := SortedKeys(m.Keys, less);
    seq(|keys|, i requires 0 <= i < |keys| =>
      FinalAllocation(m[keys[i]].claimant, m[keys[i]].totalUnits, m[keys[i]].receiptIds))
  }

  function Exploded(j: Join, weights: seq<Weight>): Result<seq<FinalAllocation>, ExplodeError> {
    match GroupWeights(j, weights)
    case Err(e) => Err(e)
    case Ok(m) => Ok(Listed(m, j.less))
  }

  /** The `grouped` Map that the splits fill in place. */
  class ClaimantTally {
    var grouped: map<string, Entry>

    constructor ()
      ensures grouped == map[]
    {
      grouped := map[];
    }

    method AccumulateClaimant(ck: string, claimant: Claimant, units: int, receiptId: string)
      modifies this
      ensures grouped == Accumulate(old(grouped), ck, claimant, units, {receiptId})
    {
      if ck in grouped {
        var existing := grouped[ck];
        grouped := grouped[ck := Entry(existing.claimant, existing.totalUnits + units, existing.receiptIds + {receiptId})];
      } else {
        grouped := grouped[ck := Entry(claimant, units, {receiptId})];
      }
    }

    method SplitByPpm(weight: Weight, shares: seq<ClaimantShare>, less: Order)
      modifies this
      ensures grouped == AddParts(old(grouped), PpmParts(weight.units, shares, less), weight.receiptId)
    {
      var amounts := RoundShares(PpmItems(shares), weight.units, PPM, less);
      ghost var parts := PpmParts(weight.units, shares, less);
      for i := 0 to |shares|
        invariant grouped == AddParts(old(grouped), parts[..i], weight.receiptId)
      {
        assert parts[..i + 1][..i] == parts[..i];
        AccumulateClaimant(ClaimantKey(shares[i].claimant), shares[i].claimant, amounts[i], weight.receiptId);
      }
      assert parts[..|shares|] == parts;
    }

    /** Fails, part way, on a key that does not parse; the caller then discards the tally. */
    method SplitEqually(weight: Weight, keys: seq<string>, charLess: Order) returns (failure: Option<KeyError>)
      requires |keys| > 0
      modifies this
      ensures match EqualParts(weight.units, keys, charLess)
              case Err(e) => failure == Some(e)
              case Ok(parts) => failure == None && grouped == AddParts(old(grouped), parts, weight.receiptId)
    {
      var perClaimant := BigDiv(weight.units, |keys|);
      hide AddParts, ParseAll;
      failure := AddAligned(Sort(keys, charLess), perClaimant, weight.units - perClaimant * |keys|, weight.receiptId);
    }

    /** The loop of the equal split: `start` of the keys, in order, get one unit more. */
    method AddAligned(sortedKeys: seq<string>, perClaimant: int, start: int, receiptId: string) returns (failure: Option<KeyError>)
      modifies this
      ensures match ParseAll(sortedKeys)
              case Err(e) => failure == Some(e)
              case Ok(claimants) =>
                failure == None && grouped == AddParts(old(grouped), AlignedParts(sortedKeys, claimants, perClaimant, start), receiptId)
    {
      var remainder := start;
      ghost var parsed: seq<Claimant> := [];
      assert AlignedParts(sortedKeys[..0], parsed, perClaimant, start) == [];
      assert AddParts(old(grouped), [], receiptId) == grouped;
      assert ParseAll(sortedKeys[..0]) == Ok(parsed);
      hide AlignedParts, AddParts, Accumulate, ParseAll, ParseClaimantKey;
      var i := 0;
      while i < |sortedKeys|
        invariant 0 <= i <= |sortedKeys|
        invariant remainder == if i < start then start - i else if start < 0 then start else 0
        invariant ParseAll(sortedKeys[..i]) == Ok(parsed) && |parsed| == i
        invariant grouped == AddParts(old(grouped), AlignedParts(sortedKeys[..i], parsed, perClaimant, start), receiptId)
      {
        var extra := if remainder > 0 then 1 else 0;
        if remainder > 0 {
          remainder := remainder - 1;
        }
        var parsedKey := ParseClaimantKey(sortedKeys[i]);
        if parsedKey.Err? {
          ParseAllStops(sortedKeys, i, parsedKey.error);
          return Some(parsedKey.error);
        }
        AccumulateClaimant(sortedKeys[i], parsedKey.value, perClaimant + extra, receiptId);
        assert sortedKeys[..i + 1][..i] == sortedKeys[..i];
        EqualStep(old(grouped), sortedKeys[..i + 1], parsed, parsedKey.value, perClaimant, start, receiptId);
        parsed := parsed + [parsedKey.value];
        i := i + 1;
      }
      assert sortedKeys[..|sortedKeys|] == sortedKeys;
      failure := None;
    }
  }

  lemma AlignedStep(keys: seq<string>, claimants: seq<Claimant>, claimant: Claimant, per: int, remainder: int)
    requires |keys| == |claimants| + 1
    ensures var parts, n := AlignedParts(keys, claimants + [claimant], per, remainder), |claimants|;
      && |parts| == n + 1 && parts[..n] == AlignedParts(keys[..n], claimants, per, remainder)
      && parts[n] == Part(keys[n], claimant, per + if n < remainder then 1 else 0)
  {
  }

  /** One turn of the equal split's loop. */
  lemma EqualStep(
    m: map<string, Entry>, keys: seq<string>, claimants: seq<Claimant>, claimant: Claimant, per: int, remainder: int, receiptId: string)
    requires |keys| == |claimants| + 1
    requires ParseAll(keys[..|claimants|]) == Ok(claimants) && ParseClaimantKey(keys[|claimants|]) == Ok(claimant)
    ensures ParseAll(keys) == Ok(claimants + [claimant])
    ensures var n := |claimants|;
      AddParts(m, AlignedParts(keys, claimants + [claimant], per, remainder), receiptId)
      == Accumulate(AddParts(m, AlignedParts(keys[..n], claimants, per, remainder), receiptId), keys[n], claimant,
                    per + if n < remainder then 1 else 0, {receiptId})
  {
    AlignedStep(keys, claimants, claimant, per, remainder);
    hide AlignedParts, Accumulate, ParseClaimantKey;
  }

  lemma {:induction false} ParseAllStops(keys: seq<string>, i: nat, e: KeyError)
    requires i < |keys| && ParseAll(keys[..i]).Ok? && ParseClaimantKey(keys[i]) == Err(e)
    ensures ParseAll(keys) == Err(e)
  {
    if i == |keys| - 1 {
    } else {
      assert keys[..|keys| - 1][..i] == keys[..i];
      ParseAllStops(keys[..|keys| - 1], i, e);
    }
  }

  lemma {:induction false} GroupWeightsStops(j: Join, weights: seq<Weight>, i: nat, e: ExplodeError)
    requires i < |weights| && GroupWeights(j, weights[..i]).Ok? && ReceiptParts(j, weights[i]) == Err(e)
    ensures GroupWeights(j, weights) == Err(e)
  {
    if i == |weights| - 1 {
    } else {
      assert weights[..|weights| - 1][..i] == weights[..i];
      GroupWeightsStops(j, weights[..|weights| - 1], i, e);
    }
  }

  method ExplodeToClaimants(
    receiptWeights: seq<Weight>, claimants: seq<ClaimantsRecord>, overrides: seq<SubjectOverride>, less: Order, charLess: Order
  ) returns (r: Result<seq<FinalAllocation>, ExplodeError>)
    ensures r == Exploded(Join(RecordMap(claimants), ShareMap(overrides), less, charLess), receiptWeights)
  {
    var claimantsByReceipt: map<string, seq<string>> := map[];
    for i := 0 to |claimants|
      invariant claimantsByReceipt == RecordMap(claimants[..i])
    {
      assert claimants[..i + 1][..i] == claimants[..i];
      claimantsByReceipt := claimantsByReceipt[claimants[i].receiptId := claimants[i].claimantKeys];
    }
    assert claimants[..|claimants|] == claimants;
    var shareOverrideMap: map<string, seq<ClaimantShare>> := map[];
    for i := 0 to |overrides|
      invariant shareOverrideMap == ShareMap(overrides[..i])
    {
      assert overrides[..i + 1][..i] == overrides[..i];
      if overrides[i].overrideShares.Some? {
        shareOverrideMap := shareOverrideMap[overrides[i].subjectRef := overrides[i].overrideShares.value];
      }
    }
    assert overrides[..|overrides|] == overrides;
    var tally := new ClaimantTally();
    ghost var j := Join(claimantsByReceipt, shareOverrideMap, less, charLess);
    for i := 0 to |receiptWeights|
      invariant GroupWeights(j, receiptWeights[..i]) == Ok(tally.grouped)
    {
      var weight := receiptWeights[i];
      assert receiptWeights[..i + 1][..i] == receiptWeights[..i];
      if weight.receiptId !in claimantsByReceipt {
        GroupWeightsStops(j, receiptWeights, i, MissingRecord(weight.receiptId));
        return Err(MissingRecord(weight.receiptId));
      }
      var keys := claimantsByReceipt[weight.receiptId];
      if |keys| == 0 {
        continue;
      }
      if weight.receiptId in shareOverrideMap && |shareOverrideMap[weight.receiptId]| > 0 {
        tally.SplitByPpm(weight, shareOverrideMap[weight.receiptId], less);
      } else {
        var failure := tally.SplitEqually(weight, keys, charLess);
        if failure.Some? {
          GroupWeightsStops(j, receiptWeights, i, BadKey(failure.value));
          return Err(BadKey(failure.value));
        }
      }
    }
    assert receiptWeights[..|receiptWeights|] == receiptWeights;
    r := Ok(Listed(tally.grouped, less));
  }

  // ----- overrides of the weights -----

  function Overridden(w: Weight, units: map<string, int>): Weight {
    if w.receiptId in units then Weight(w.receiptId, units[w.receiptId]) else w
  }

  function ByReceipt(less: Order): (Weight, Weight) -> bool {
    (a: Weight, b: Weight) => less(a.receiptId, b.receiptId)
  }

  function OverriddenWeights(weights: seq<Weight>, overrides: seq<SubjectOverride>, less: Order): seq<Weight> {
    var units := UnitsMap(overrides);
    if units == map[] then weights
    else Sort(seq(|weights|, i requires 0 <= i < |weights| => Overridden(weights[i], units)), ByReceipt(less))
  }

  method ApplyReceiptWeightOverrides(weights: seq<Weight>, overrides: seq<SubjectOverride>, less: Order)
    returns (r: seq<Weight>)
    ensures r == OverriddenWeights(weights, overrides, less)
  {
    if |overrides| == 0 {
      return weights;
    }
    var overrideMap: map<string, int> := map[];
    for i := 0 to |overrides|
      invariant overrideMap == UnitsMap(overrides[..i])
    {
      assert overrides[..i + 1][..i] == overrides[..i];
      if overrides[i].overrideUnits.Some? {
        overrideMap := overrideMap[overrides[i].subjectRef := overrides[i].overrideUnits.value];
      }
    }
    assert overrides[..|overrides|] == overrides;
    if overrideMap == map[] {
      return weights;
    }
    r := Sort(seq(|weights|, i requires 0 <= i < |weights| => Overridden(weights[i], overrideMap)), ByReceipt(less));
  }
}
