/** Statement lines: claimant units to statement credits (claimant-shares.ts, rules.ts). */
module Statements {
  import opened Wrappers
  import opened Collation
  import opened Integers
  import opened Grouping
  import opened LargestRemainder
  import opened Claimants
  import Decimal

  datatype FinalAllocation = FinalAllocation(claimant: Claimant, finalUnits: int, receiptIds: set<string>)

  datatype Line = Line(
    claimantKey: string, claimant: Claimant, finalUnits: int, poolShare: string, creditAmount: int,
    receiptIds: set<string>)

  datatype NegativeUnits = NegativeUnits(key: string, units: int)

  // ----- grouping -----

  /** What the source's `grouped` Maps hold for one claimant key. */
  datatype Entry = Entry(claimant: Claimant, totalUnits: int, receiptIds: set<string>)

  /** Add units and receipts to a key, or start it; the first claimant seen is kept. */
  function Accumulate(
    m: map<string, Entry>, key: string, claimant: Claimant, units: int, receiptIds: set<string>
  ): map<string, Entry> {
    if key in m then
      m[key := Entry(m[key].claimant, m[key].totalUnits + units, m[key].receiptIds + receiptIds)]
    else
      m[key := Entry(claimant, units, receiptIds)]
  }

  function EntryUnits(m: map<string, Entry>): map<string, int> {
    map k | k in m :: m[k].totalUnits
  }

  function Group(allocations: seq<FinalAllocation>): map<string, Entry> {
    if |allocations| == 0 then map[]
    else
      var last := allocations[|allocations| - 1];
      Accumulate(Group(allocations[..|allocations| - 1]), ClaimantKey(last.claimant), last.claimant,
                 last.finalUnits, last.receiptIds)
  }

  function Pieces(allocations: seq<FinalAllocation>): seq<Piece> {
    seq(|allocations|, i requires 0 <= i < |allocations| =>
      Piece(ClaimantKey(allocations[i].claimant), allocations[i].finalUnits))
  }

  lemma AccumulateBumps(m: map<string, Entry>, key: string, claimant: Claimant, units: int, receiptIds: set<string>)
    ensures EntryUnits(Accumulate(m, key, claimant, units, receiptIds)) == Bump(EntryUnits(m), key, units)
  {
  }

  lemma {:induction false} GroupIsTally(allocations: seq<FinalAllocation>)
    ensures EntryUnits(Group(allocations)) == Tally(Pieces(allocations))
  {
    if |allocations| > 0 {
      var init, last := allocations[..|allocations| - 1], allocations[|allocations| - 1];
      GroupIsTally(init);
      AccumulateBumps(Group(init), ClaimantKey(last.claimant), last.claimant, last.finalUnits, last.receiptIds);
      assert Pieces(allocations)[..|allocations| - 1] == Pieces(init);
      hide Accumulate, EntryUnits, ClaimantKey;
    } else {
      assert EntryUnits(Group(allocations)) == map[];
    }
  }

  function FirstNegative(allocations: seq<FinalAllocation>): Option<NegativeUnits> {
    if |allocations| == 0 then None
    else if allocations[0].finalUnits < 0 then
      Some(NegativeUnits(ClaimantKey(allocations[0].claimant), allocations[0].finalUnits))
    else FirstNegative(allocations[1..])
  }

  /** A statement that fails reports its first negative allocation. */
  lemma {:induction false} FirstNegativeAt(allocations: seq<FinalAllocation>, i: nat)
    requires i < |allocations| && forall j :: 0 <= j < i ==> allocations[j].finalUnits >= 0
    requires allocations[i].finalUnits < 0
    ensures FirstNegative(allocations) == Some(NegativeUnits(ClaimantKey(allocations[i].claimant), allocations[i].finalUnits))
  {
    if i > 0 {
      FirstNegativeAt(allocations[1..], i - 1);
    }
  }

  lemma {:induction false} NoneNegative(allocations: seq<FinalAllocation>)
    ensures FirstNegative(allocations).None? <==> forall j :: 0 <= j < |allocations| ==> allocations[j].finalUnits >= 0
  {
    if |allocations| > 0 {
      NoneNegative(allocations[1..]);
      if forall j :: 0 <= j < |allocations[1..]| ==> allocations[1..][j].finalUnits >= 0 {
        forall j | 0 < j < |allocations| ensures allocations[j].finalUnits >= 0 {
          assert allocations[1..][j - 1] == allocations[j];
        }
      }
    }
  }

  // ----- the numbers of a statement, from the units of each key -----

  datatype Amounts = Amounts(key: string, units: int, share: string, credits: int)

  const SHARE_SCALE := 1_000_000

  /** `units / total` with six decimals, cut off. */
  function ShareText(units: int, total: int): string
    requires total != 0
  {
    var scaled := BigDiv(units * SHARE_SCALE, total);
    Decimal.ToString(BigDiv(scaled, SHARE_SCALE)) + "."
      + Decimal.PadSix(Decimal.ToString(BigMod(scaled, SHARE_SCALE)))
  }

  /** The share printed reads back as the exact share cut off after six decimals. */
  lemma ShareTextReadsBack(units: int, total: int) returns (whole: string, decimals: string)
    requires 0 <= units <= total && total > 0
    ensures ShareText(units, total) == whole + "." + decimals
    ensures Decimal.AllDigits(whole) && Decimal.AllDigits(decimals) && |decimals| == 6
    ensures Decimal.Value(whole) * SHARE_SCALE + Decimal.Value(decimals) == units * SHARE_SCALE / total
  {
    BigDivFloors(units * SHARE_SCALE, total);
    var scaled := BigDiv(units * SHARE_SCALE, total);
    LargerQuotient(scaled, units * SHARE_SCALE % total, 0, 0, total);
    BigDivFloors(scaled, SHARE_SCALE);
    whole, decimals := Decimal.ToString(BigDiv(scaled, SHARE_SCALE)), Decimal.PadSix(Decimal.ToString(BigMod(scaled, SHARE_SCALE)));
    Decimal.PrintsDigits(scaled / SHARE_SCALE);
    Decimal.ValueOfPrinted(scaled / SHARE_SCALE);
    Decimal.PaddedSix(scaled % SHARE_SCALE);
  }

  function StatementAmounts(units: map<string, int>, pool: int, less: Order): seq<Amounts> {
    var items := ItemsOf(units, less);
    var total := WeightSum(items);
    if total == 0 then []
    else
      var credits := Apportion(items, pool, total, less);
      seq(|items|, i requires 0 <= i < |items| =>
        Amounts(items[i].key, items[i].weight, ShareText(items[i].weight, total), credits[i]))
  }

  function CreditSum(amounts: seq<Amounts>): int {
    Sum(seq(|amounts|, i requires 0 <= i < |amounts| => amounts[i].credits))
  }

  lemma CreditsAreApportioned(units: map<string, int>, pool: int, less: Order)
    requires WeightSum(ItemsOf(units, less)) != 0
    ensures var items := ItemsOf(units, less);
      CreditSum(StatementAmounts(units, pool, less)) == Sum(Apportion(items, pool, WeightSum(items), less))
  {
    hide ShareText, ItemsOf, WeightSum, Sum, Bonuses, ShareOf;
    var items, amounts := ItemsOf(units, less), StatementAmounts(units, pool, less);
    assert seq(|amounts|, i requires 0 <= i < |amounts| => amounts[i].credits)
        == Apportion(items, pool, WeightSum(items), less);
  }

  /** Credits sum to exactly the pool. */
  lemma AmountsExact(units: map<string, int>, pool: int, less: Order)
    requires NonNegative(units) && pool >= 0
    ensures if Total(units) > 0 then CreditSum(StatementAmounts(units, pool, less)) == pool
            else StatementAmounts(units, pool, less) == []
  {
    ItemsOfTotal(units, less);
    TotalNonNegative(units);
    hide Apportion, CreditSum, ItemsOf;
    if Total(units) > 0 {
      assert Proportional(ItemsOf(units, less), pool, Total(units));
      Exact(ItemsOf(units, less), pool, Total(units), less);
      CreditsAreApportioned(units, pool, less);
    }
  }

  /** The exact share rounded down or up, and nothing for no units. */
  ghost predicate RoundedShare(credits: int, units: int, pool: int, total: int)
    requires total > 0
  {
    0 <= credits - units * pool / total <= 1 && (units == 0 ==> credits == 0)
  }

  lemma AmountsRounded(units: map<string, int>, pool: int, less: Order)
    requires NonNegative(units) && pool >= 0 && Total(units) > 0
    ensures forall i :: 0 <= i < |StatementAmounts(units, pool, less)| ==>
      var a := StatementAmounts(units, pool, less)[i]; RoundedShare(a.credits, a.units, pool, Total(units))
  {
    ItemsOfTotal(units, less);
    var items := ItemsOf(units, less);
    assert Proportional(items, pool, Total(units));
    forall i | 0 <= i < |StatementAmounts(units, pool, less)|
      ensures var a := StatementAmounts(units, pool, less)[i]; RoundedShare(a.credits, a.units, pool, Total(units))
    {
      Quota(items, pool, Total(units), less, i);
    }
  }

  /** More units never earn fewer credits, equal units earn credits at most one apart, and of equal
      units the smaller key is served first. */
  lemma AmountsFair(units: map<string, int>, pool: int, less: Order, i: nat, j: nat)
    requires NonNegative(units) && pool >= 0 && Total(units) > 0
    requires i < |StatementAmounts(units, pool, less)| && j < |StatementAmounts(units, pool, less)|
    ensures var amounts := StatementAmounts(units, pool, less);
      && (amounts[i].units > amounts[j].units ==> amounts[i].credits >= amounts[j].credits)
      && (amounts[i].units == amounts[j].units ==> Abs(amounts[i].credits - amounts[j].credits) <= 1)
      && (amounts[i].units == amounts[j].units && less(amounts[i].key, amounts[j].key) ==> amounts[i].credits >= amounts[j].credits)
  {
    var items := ItemsOf(units, less);
    ItemsOfTotal(units, less);
    assert Proportional(items, pool, Total(units));
    hide Apportion, ItemsOf, ShareText;
    Fair(items, pool, Total(units), less, i, j);
    if items[i].weight == items[j].weight && less(items[i].key, items[j].key) {
      TieByKey(items, pool, Total(units), less, i, j);
    }
  }

  /** The credits of every line, exactly. */
  lemma CreditsAre(units: map<string, int>, pool: int, less: Order, i: nat)
    requires NonNegative(units) && pool >= 0 && Total(units) > 0 && i < |StatementAmounts(units, pool, less)|
    ensures var a, total := StatementAmounts(units, pool, less)[i], Total(units);
      && a.key in units && a.units == units[a.key]
      && a.credits == a.units * pool / total
           + if |AheadIn(units, pool, total, less, a.key)| < pool - Total(Quotients(units, pool, total)) then 1 else 0
  {
    ItemsOfTotal(units, less);
    hide Apportion, ItemsOf, ShareText, AheadIn, Quotients;
    MapAmountIs(units, pool, less, i);
  }

  lemma AmountsItems(units: map<string, int>, pool: int, less: Order)
    requires WeightSum(ItemsOf(units, less)) != 0
    ensures var amounts, items := StatementAmounts(units, pool, less), ItemsOf(units, less);
      |amounts| == |items| && forall i :: 0 <= i < |items| ==> amounts[i].key == items[i].key && amounts[i].units == items[i].weight
  {
  }

  /** One line per key, in strict key order, with that key's units. */
  lemma AmountsListKeys(units: map<string, int>, pool: int, less: Order)
    requires NonNegative(units) && Total(units) > 0
    ensures var amounts := StatementAmounts(units, pool, less);
      && |amounts| == |units|
      && (forall i, j :: 0 <= i < j < |amounts| ==> less(amounts[i].key, amounts[j].key))
      && (forall i :: 0 <= i < |amounts| ==> amounts[i].key in units && amounts[i].units == units[amounts[i].key])
  {
    hide StatementAmounts, Total;
    ItemsOfTotal(units, less);
    AmountsItems(units, pool, less);
    SortedKeysDistinct(units.Keys, less);
    SortedKeysOrdered(units.Keys, less);
  }

  // ----- computeAttributionStatementLines -----

  function StatementLines(allocations: seq<FinalAllocation>, pool: int, less: Order): Result<seq<Line>, NegativeUnits> {
    if |allocations| == 0 || pool <= 0 then Ok([])
    else
      match FirstNegative(allocations)
      case Some(e) => Err(e)
      case None =>
        var g := Group(allocations);
        var amounts := StatementAmounts(EntryUnits(g), pool, less);
        Ok(seq(|amounts|, i requires 0 <= i < |amounts| => LineOf(g, amounts[i])))
  }

  function LineOf(g: map<string, Entry>, a: Amounts): Line {
    var e := if a.key in g then g[a.key] else Entry(User(a.key), 0, {});
    Line(a.key, e.claimant, a.units, a.share, a.credits, e.receiptIds)
  }

  method ComputeAttributionStatementLines(allocations: seq<FinalAllocation>, poolTotalCredits: int, less: Order)
    returns (r: Result<seq<Line>, NegativeUnits>)
    ensures r == StatementLines(allocations, poolTotalCredits, less)
  {
    if |allocations| == 0 || poolTotalCredits <= 0 {
      return Ok([]);
    }
    var grouped := GroupUnits(allocations);
    if grouped.Err? {
      return Err(grouped.error);
    }
    var amounts := RoundUnits(EntryUnits(grouped.value), poolTotalCredits, less);
    r := Ok(seq(|amounts|, i requires 0 <= i < |amounts| => LineOf(grouped.value, amounts[i])));
  }

  /** The grouping loop. */
  method GroupUnits(allocations: seq<FinalAllocation>) returns (r: Result<map<string, Entry>, NegativeUnits>)
    ensures r == match FirstNegative(allocations) case Some(e) => Err(e) case None => Ok(Group(allocations))
  {
    var claimantUnits: map<string, Entry> := map[];
    for i := 0 to |allocations|
      invariant forall j :: 0 <= j < i ==> allocations[j].finalUnits >= 0
      invariant claimantUnits == Group(allocations[..i])
    {
      var a := allocations[i];
      if a.finalUnits < 0 {
        FirstNegativeAt(allocations, i);
        return Err(NegativeUnits(ClaimantKey(a.claimant), a.finalUnits));
      }
      assert allocations[..i + 1][..i] == allocations[..i];
      claimantUnits := Accumulate(claimantUnits, ClaimantKey(a.claimant), a.claimant, a.finalUnits, a.receiptIds);
    }
    assert allocations[..|allocations|] == allocations;
    NoneNegative(allocations);
    r := Ok(claimantUnits);
  }

  /** What the two statement functions share word for word: the total, the rounding, the share text. */
  method RoundUnits(units: map<string, int>, pool: int, less: Order) returns (amounts: seq<Amounts>)
    ensures amounts == StatementAmounts(units, pool, less)
  {
    var items := ItemsOf(units, less);
    var totalUnits := 0;
    for i := 0 to |items|
      invariant totalUnits == WeightSum(items[..i])
    {
      assert items[..i + 1][..i] == items[..i];
      totalUnits := totalUnits + items[i].weight;
    }
    assert items[..|items|] == items;
    if totalUnits == 0 {
      return [];
    }
    var credits := RoundShares(items, pool, totalUnits, less);
    hide ShareText, Apportion;
    amounts := seq(|items|, i requires 0 <= i < |items| =>
      Amounts(items[i].key, items[i].weight, ShareText(items[i].weight, totalUnits), credits[i]));
  }

  function LineAmounts(lines: seq<Line>): seq<Amounts> {
    seq(|lines|, i requires 0 <= i < |lines| =>
      Amounts(lines[i].claimantKey, lines[i].finalUnits, lines[i].poolShare, lines[i].creditAmount))
  }

  function LineCredits(lines: seq<Line>): int {
    CreditSum(LineAmounts(lines))
  }

  /** STATEMENT_DETERMINISTIC, the sum: a statement of a positive pool over positive units pays out
      exactly the pool; without a pool or without units it is empty; it fails exactly when there is
      a pool and some units are negative. */
  lemma StatementExact(allocations: seq<FinalAllocation>, pool: int, less: Order)
    ensures StatementLines(allocations, pool, less).Err? <==>
            pool > 0 && exists i :: 0 <= i < |allocations| && allocations[i].finalUnits < 0
    ensures StatementLines(allocations, pool, less).Ok? ==>
            var lines := StatementLines(allocations, pool, less).value;
            if pool > 0 && Units(Pieces(allocations)) > 0 then LineCredits(lines) == pool else lines == []
  {
    hide StatementAmounts, Group, Tally, Pieces, CreditSum;
    NoneNegative(allocations);
    if |allocations| > 0 && pool > 0 && FirstNegative(allocations).None? {
      PaysThePool(allocations, pool, less);
      LinesOfAmounts(allocations, pool, less);
    } else {
      NothingToPay(allocations);
    }
  }

  lemma PaysThePool(allocations: seq<FinalAllocation>, pool: int, less: Order)
    requires pool > 0 && forall i :: 0 <= i < |allocations| ==> allocations[i].finalUnits >= 0
    ensures var amounts := StatementAmounts(EntryUnits(Group(allocations)), pool, less);
      if Units(Pieces(allocations)) > 0 then CreditSum(amounts) == pool else amounts == []
  {
    var ps := Pieces(allocations);
    hide StatementAmounts, Group, EntryUnits, Pieces, CreditSum;
    GroupIsTally(allocations);
    TallyConserves(ps);
    PieceUnits(allocations);
    TallyNonNegative(ps);
    AmountsExact(Tally(ps), pool, less);
  }

  lemma PieceUnits(allocations: seq<FinalAllocation>)
    ensures |Pieces(allocations)| == |allocations|
    ensures forall i :: 0 <= i < |allocations| ==> Pieces(allocations)[i].units == allocations[i].finalUnits
  {
  }

  lemma LinesOfAmounts(allocations: seq<FinalAllocation>, pool: int, less: Order)
    requires |allocations| > 0 && pool > 0 && FirstNegative(allocations).None?
    ensures StatementLines(allocations, pool, less).Ok?
    ensures var lines, amounts := StatementLines(allocations, pool, less).value, StatementAmounts(EntryUnits(Group(allocations)), pool, less);
      LineAmounts(lines) == amounts && |lines| == |amounts|
  {
    hide StatementAmounts, Group, EntryUnits;
  }

  lemma NothingToPay(allocations: seq<FinalAllocation>)
    ensures |allocations| == 0 ==> Units(Pieces(allocations)) == 0
  {
  }

  /** STATEMENT_DETERMINISTIC, the function: units, shares and credits depend only on how many
      units each claimant key has, not on the order of the allocations or on how they are split. */
  lemma StatementDeterministic(a: seq<FinalAllocation>, b: seq<FinalAllocation>, pool: int, less: Order)
    requires forall k :: Mentions(Pieces(a), k) <==> Mentions(Pieces(b), k)
    requires forall k :: UnitsOf(Pieces(a), k) == UnitsOf(Pieces(b), k)
    requires StatementLines(a, pool, less).Ok? && StatementLines(b, pool, less).Ok?
    ensures LineAmounts(StatementLines(a, pool, less).value) == LineAmounts(StatementLines(b, pool, less).value)
  {
    hide StatementAmounts, Group, Tally, Pieces, LineAmounts, Mentions, UnitsOf, EntryUnits;
    GroupIsTally(a);
    GroupIsTally(b);
    TallyDeterminedByUnits(Pieces(a), Pieces(b));
    EmptyMentions(Pieces(a));
    EmptyMentions(Pieces(b));
    PieceUnits(a);
    PieceUnits(b);
    if |a| > 0 && pool > 0 {
      LinesOfAmounts(a, pool, less);
      LinesOfAmounts(b, pool, less);
    }
  }

  // ----- who and what a line is about -----

  predicate IsFor(allocations: seq<FinalAllocation>, i: int, key: string) {
    0 <= i < |allocations| && ClaimantKey(allocations[i].claimant) == key
  }

  /** The claimant as the first allocation of its key gives it. */
  ghost predicate FirstClaimant(allocations: seq<FinalAllocation>, key: string, claimant: Claimant) {
    exists i :: IsFor(allocations, i, key) && allocations[i].claimant == claimant && forall m :: 0 <= m < i ==> !IsFor(allocations, m, key)
  }

  ghost predicate HasReceipt(allocations: seq<FinalAllocation>, key: string, receiptId: string) {
    exists i :: IsFor(allocations, i, key) && receiptId in allocations[i].receiptIds
  }

  lemma {:induction false} GroupEntry(allocations: seq<FinalAllocation>, key: string)
    ensures key in Group(allocations) <==> exists i :: IsFor(allocations, i, key)
    ensures key in Group(allocations) ==>
      && FirstClaimant(allocations, key, Group(allocations)[key].claimant)
      && forall r :: r in Group(allocations)[key].receiptIds <==> HasReceipt(allocations, key, r)
  {
    hide ClaimantKey;
    if |allocations| > 0 {
      var init, last := allocations[..|allocations| - 1], allocations[|allocations| - 1];
      GroupEntry(init, key);
      var m, g := Group(init), Group(allocations);
      forall i ensures IsFor(allocations, i, key) <==> IsFor(init, i, key) || (i == |init| && ClaimantKey(last.claimant) == key) {
        assert 0 <= i < |init| ==> init[i] == allocations[i];
      }
      if key in m {
        var i :| IsFor(init, i, key) && init[i].claimant == m[key].claimant && forall k :: 0 <= k < i ==> !IsFor(init, k, key);
        assert IsFor(allocations, i, key) && allocations[i].claimant == g[key].claimant;
      } else if key in g {
        assert IsFor(allocations, |init|, key) && allocations[|init|].claimant == g[key].claimant;
      }
      forall r ensures HasReceipt(allocations, key, r) <==> HasReceipt(init, key, r) || (ClaimantKey(last.claimant) == key && r in last.receiptIds) {
        ReceiptsGrow(init, last, key, r);
        assert init + [last] == allocations;
      }
      hide HasReceipt, FirstClaimant, IsFor;
    }
  }

  lemma ReceiptsGrow(init: seq<FinalAllocation>, last: FinalAllocation, key: string, r: string)
    ensures HasReceipt(init + [last], key, r) <==> HasReceipt(init, key, r) || (ClaimantKey(last.claimant) == key && r in last.receiptIds)
  {
    hide ClaimantKey;
    var all := init + [last];
    if i :| IsFor(init, i, key) && r in init[i].receiptIds {
      assert IsFor(all, i, key) && all[i] == init[i];
    }
    if ClaimantKey(last.claimant) == key && r in last.receiptIds {
      assert IsFor(all, |init|, key) && all[|init|] == last;
    }
    if i :| IsFor(all, i, key) && r in all[i].receiptIds {
      assert i < |init| ==> IsFor(init, i, key) && r in init[i].receiptIds;
    }
  }

  /** A line is for the claimant its key was first seen with, and carries exactly the receipts of the
      allocations of its key. */
  lemma LineCarries(allocations: seq<FinalAllocation>, pool: int, less: Order, i: nat)
    requires StatementLines(allocations, pool, less).Ok? && i < |StatementLines(allocations, pool, less).value|
    ensures var line := StatementLines(allocations, pool, less).value[i];
      && FirstClaimant(allocations, line.claimantKey, line.claimant)
      && forall r :: r in line.receiptIds <==> HasReceipt(allocations, line.claimantKey, r)
  {
    hide FirstClaimant, HasReceipt, Group, ShareText, Apportion, EntryUnits;
    var g := Group(allocations);
    AmountKey(EntryUnits(g), pool, less, i);
    UnitsKeys(g);
    hide StatementAmounts;
    GroupEntry(allocations, StatementLines(allocations, pool, less).value[i].claimantKey);
  }

  lemma UnitsKeys(m: map<string, Entry>)
    ensures EntryUnits(m).Keys == m.Keys
  {
  }

  lemma AmountKey(units: map<string, int>, pool: int, less: Order, i: nat)
    requires i < |StatementAmounts(units, pool, less)|
    ensures StatementAmounts(units, pool, less)[i].key in units
  {
    hide ShareText, Apportion;
    var keys := SortedKeys(units.Keys, less);
    assert keys[i] in keys;
  }
}
