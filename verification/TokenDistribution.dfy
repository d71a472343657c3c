/** Credits to token amounts, and the cumulative distribution (token-distribution.ts).

    Hashing and the Merkle tree are not modelled: a leaf stands for its hash preimage, and the root
    is a function of the list of leaves. */
module TokenDistribution {
  import opened Wrappers
  import opened Collation
  import opened Integers
  import opened Grouping
  import opened LargestRemainder

  /** `isAddress` and `localeCompare`, as the runtime provides them. */
  datatype Host = Host(isAddress: string -> bool, less: Order)

  datatype Allocation = Allocation(claimantKey: string, account: string, creditAmount: int, receiptIds: set<string>)

  datatype Manifest = Manifest(
    distributionId: string, nodeId: string, scopeId: string, statementHash: string, tokenAddress: string)

  datatype Prior = Prior(account: string, cumulativeAmount: int)

  datatype Delta = Delta(claimantKey: string, account: string, deltaAmount: int, receiptIds: set<string>)

  datatype TokenError =
    | BadManifest
    | EmptyClaimantKey
    | InvalidAccount(claimantKey: string)
    | NegativeCredit(claimantKey: string)
    | MultipleAccounts(claimantKey: string)
    | NonPositiveAmount
    | NoPositiveAllocation
    | NonPositiveTotal
    | InvalidPrior(account: string)
    | NegativePrior
    | InvalidDelta(claimantKey: string)
    | NegativeDelta(claimantKey: string)
    | NoPositiveBalance
    | SupplyViolated

  // ----- strings -----

  /** The characters that trimming removes. */
  predicate IsSpace(c: char) {
    var n := c as int;
    || 9 <= n <= 13 || n == 0x20 || n == 0xA0 || n == 0x1680 || 0x2000 <= n <= 0x200A
    || n == 0x2028 || n == 0x2029 || n == 0x202F || n == 0x205F || n == 0x3000 || n == 0xFEFF
  }

  /** Nothing is left after trimming. */
  predicate IsBlank(s: string) {
    forall i :: 0 <= i < |s| ==> IsSpace(s[i])
  }

  function TrimStart(s: string): string {
    if |s| > 0 && IsSpace(s[0]) then TrimStart(s[1..]) else s
  }

  function TrimEnd(s: string): string {
    if |s| > 0 && IsSpace(s[|s| - 1]) then TrimEnd(s[..|s| - 1]) else s
  }

  lemma {:induction false} BlankFromStart(s: string)
    ensures IsBlank(s) <==> TrimStart(s) == ""
    ensures IsBlank(s) ==> TrimEnd(s) == ""
  {
    hide IsSpace;
    if |s| > 0 {
      if IsSpace(s[0]) {
        BlankFromStart(s[1..]);
        assert forall i :: 0 < i < |s| ==> s[i] == s[1..][i - 1];
      }
      if IsBlank(s) {
        BlankFromEnd(s);
      }
    }
  }

  lemma {:induction false} BlankFromEnd(s: string)
    requires IsBlank(s)
    ensures TrimEnd(s) == ""
  {
    hide IsSpace;
    if |s| > 0 {
      BlankFromEnd(s[..|s| - 1]);
    }
  }

  /** Blank texts are those of which trimming leaves nothing. */
  lemma BlankIffTrimmedAway(s: string)
    ensures IsBlank(s) <==> TrimEnd(TrimStart(s)) == ""
  {
    hide IsSpace;
    BlankFromStart(s);
    TrimStartStops(s);
    TrimEndStops(TrimStart(s));
  }

  lemma {:induction false} TrimStartStops(s: string)
    ensures TrimStart(s) != "" ==> !IsSpace(TrimStart(s)[0])
  {
    hide IsSpace;
    if |s| > 0 && IsSpace(s[0]) {
      TrimStartStops(s[1..]);
    }
  }

  lemma {:induction false} TrimEndStops(s: string)
    requires s != "" ==> !IsSpace(s[0])
    ensures s != "" ==> TrimEnd(s) != ""
  {
    hide IsSpace;
    if |s| > 0 && IsSpace(s[|s| - 1]) {
      TrimEndStops(s[..|s| - 1]);
    }
  }

  function LowerChar(c: char): char {
    if 'A' <= c <= 'Z' then (c as int + 32) as char else c
  }

  /** `toLowerCase()`, on the hexadecimal text of an address. */
  function Lower(s: string): string {
    seq(|s|, i requires 0 <= i < |s| => LowerChar(s[i]))
  }

  /** Letters that differ at most in case. */
  predicate SameLetter(c: char, d: char) {
    || c == d
    || ('A' <= c <= 'Z' && d as int - c as int == 'a' as int - 'A' as int)
    || ('A' <= d <= 'Z' && c as int - d as int == 'a' as int - 'A' as int)
  }

  /** Two accounts fold together exactly when they differ in the case of letters only, and folding
      twice changes nothing more. */
  lemma LowerFolds(s: string, t: string)
    ensures Lower(s) == Lower(t) <==> |s| == |t| && forall i :: 0 <= i < |s| ==> SameLetter(s[i], t[i])
    ensures Lower(Lower(s)) == Lower(s)
  {
    if Lower(s) == Lower(t) {
      assert |s| == |Lower(s)| && |t| == |Lower(t)|;
      forall i | 0 <= i < |s| ensures SameLetter(s[i], t[i]) {
        assert Lower(s)[i] == Lower(t)[i];
      }
    }
  }

  predicate ValidManifest(host: Host, m: Manifest) {
    && !IsBlank(m.distributionId) && !IsBlank(m.nodeId) && !IsBlank(m.scopeId) && !IsBlank(m.statementHash)
    && host.isAddress(m.tokenAddress)
  }

  // ----- groupAllocations -----

  datatype Grouped = Grouped(account: string, creditAmount: int, receiptIds: set<string>)

  function GroupOne(host: Host, m: map<string, Grouped>, a: Allocation): Result<map<string, Grouped>, TokenError> {
    if IsBlank(a.claimantKey) then Err(EmptyClaimantKey)
    else if !host.isAddress(a.account) then Err(InvalidAccount(a.claimantKey))
    else if a.creditAmount < 0 then Err(NegativeCredit(a.claimantKey))
    else if a.creditAmount == 0 then Ok(m)
    else if a.claimantKey in m then
      var g := m[a.claimantKey];
      if Lower(g.account) != Lower(a.account) then Err(MultipleAccounts(a.claimantKey))
      else Ok(m[a.claimantKey := Grouped(g.account, g.creditAmount + a.creditAmount, g.receiptIds + a.receiptIds)])
    else Ok(m[a.claimantKey := Grouped(a.account, a.creditAmount, a.receiptIds)])
  }

  function GroupAllocations(host: Host, allocations: seq<Allocation>): Result<map<string, Grouped>, TokenError> {
    if |allocations| == 0 then Ok(map[])
    else
      match GroupAllocations(host, allocations[..|allocations| - 1])
      case Err(e) => Err(e)
      case Ok(m) => GroupOne(host, m, allocations[|allocations| - 1])
  }

  lemma {:induction false} GroupingStops(host: Host, allocations: seq<Allocation>, i: nat)
    requires i < |allocations| && GroupAllocations(host, allocations[..i + 1]).Err?
    ensures GroupAllocations(host, allocations) == GroupAllocations(host, allocations[..i + 1])
  {
    if i + 1 == |allocations| {
      assert allocations[..i + 1] == allocations;
    } else {
      assert allocations[..|allocations| - 1][..i + 1] == allocations[..i + 1];
      GroupingStops(host, allocations[..|allocations| - 1], i);
    }
  }

  method RunGroupAllocations(host: Host, allocations: seq<Allocation>) returns (r: Result<map<string, Grouped>, TokenError>)
    ensures r == GroupAllocations(host, allocations)
  {
    var grouped: map<string, Grouped> := map[];
    for i := 0 to |allocations|
      invariant GroupAllocations(host, allocations[..i]) == Ok(grouped)
    {
      assert allocations[..i + 1][..i] == allocations[..i];
      var step := GroupOne(host, grouped, allocations[i]);
      if step.Err? {
        GroupingStops(host, allocations, i);
        return step;
      }
      grouped := step.value;
    }
    assert allocations[..|allocations|] == allocations;
    r := Ok(grouped);
  }

  function Credits(m: map<string, Grouped>): map<string, int> {
    map k | k in m :: m[k].creditAmount
  }

  /** The positive credits, claimant by claimant. */
  function CreditPieces(allocations: seq<Allocation>): seq<Piece> {
    if |allocations| == 0 then []
    else
      var last := allocations[|allocations| - 1];
      CreditPieces(allocations[..|allocations| - 1])
        + if last.creditAmount == 0 then [] else [Piece(last.claimantKey, last.creditAmount)]
  }

  lemma GroupOneBumps(host: Host, m: map<string, Grouped>, a: Allocation)
    requires GroupOne(host, m, a).Ok?
    ensures var n := GroupOne(host, m, a).value;
      && a.creditAmount >= 0
      && Credits(n) == (if a.creditAmount == 0 then Credits(m) else Bump(Credits(m), a.claimantKey, a.creditAmount))
  {
  }

  /** Grouping adds up each claimant's positive credits. */
  lemma {:induction false} GroupedCredits(host: Host, allocations: seq<Allocation>)
    requires GroupAllocations(host, allocations).Ok?
    ensures Credits(GroupAllocations(host, allocations).value) == Tally(CreditPieces(allocations))
    ensures forall i :: 0 <= i < |CreditPieces(allocations)| ==> CreditPieces(allocations)[i].units > 0
  {
    if |allocations| == 0 {
      assert Credits(map[]) == map[];
    } else {
      var init, last := allocations[..|allocations| - 1], allocations[|allocations| - 1];
      GroupedCredits(host, init);
      GroupOneBumps(host, GroupAllocations(host, init).value, last);
      hide GroupOne, Credits;
      if last.creditAmount != 0 {
        var ps := CreditPieces(allocations);
        assert ps[..|ps| - 1] == CreditPieces(init);
      } else {
        assert CreditPieces(allocations) == CreditPieces(init);
      }
    }
  }

  // ----- allocateTokenAmounts -----

  function TokenAmounts(m: map<string, Grouped>, amount: int, less: Order): Result<seq<Delta>, TokenError> {
    var items := ItemsOf(Credits(m), less);
    var total := WeightSum(items);
    if total <= 0 then Err(NonPositiveTotal)
    else
      var amounts := Apportion(items, amount, total, less);
      Ok(seq(|items|, i requires 0 <= i < |items| => DeltaOf(m, items[i].key, amounts[i])))
  }

  function DeltaOf(m: map<string, Grouped>, key: string, amount: int): Delta {
    if key in m then Delta(key, m[key].account, amount, m[key].receiptIds) else Delta(key, "", amount, {})
  }

  method AllocateTokenAmounts(m: map<string, Grouped>, distributionAmount: int, less: Order)
    returns (r: Result<seq<Delta>, TokenError>)
    ensures r == TokenAmounts(m, distributionAmount, less)
  {
    var items := ItemsOf(Credits(m), less);
    var totalUnits := 0;
    for i := 0 to |items|
      invariant totalUnits == WeightSum(items[..i])
    {
      assert items[..i + 1][..i] == items[..i];
      totalUnits := totalUnits + items[i].weight;
    }
    assert items[..|items|] == items;
    if totalUnits <= 0 {
      return Err(NonPositiveTotal);
    }
    var amounts := RoundShares(items, distributionAmount, totalUnits, less);
    hide Apportion;
    r := Ok(seq(|items|, i requires 0 <= i < |items| => DeltaOf(m, items[i].key, amounts[i])));
  }

  function SplitEpochDelta(host: Host, allocations: seq<Allocation>, mintDelta: int): Result<seq<Delta>, TokenError> {
    if mintDelta <= 0 then Err(NonPositiveAmount)
    else
      match GroupAllocations(host, allocations)
      case Err(e) => Err(e)
      case Ok(m) => if m == map[] then Err(NoPositiveAllocation) else TokenAmounts(m, mintDelta, host.less)
  }

  method SplitEpochDeltaByCredits(host: Host, allocations: seq<Allocation>, mintDelta: int)
    returns (r: Result<seq<Delta>, TokenError>)
    ensures r == SplitEpochDelta(host, allocations, mintDelta)
  {
    if mintDelta <= 0 {
      return Err(NonPositiveAmount);
    }
    var grouped := RunGroupAllocations(host, allocations);
    if grouped.Err? {
      return Err(grouped.error);
    }
    if grouped.value == map[] {
      return Err(NoPositiveAllocation);
    }
    r := AllocateTokenAmounts(grouped.value, mintDelta, host.less);
  }

  function DeltaSum(deltas: seq<Delta>): int {
    if |deltas| == 0 then 0 else DeltaSum(deltas[..|deltas| - 1]) + deltas[|deltas| - 1].deltaAmount
  }

  // ----- the one-shot distribution: the amounts of buildDaoTokenMerkleDistribution -----

  datatype MerkleDistribution = MerkleDistribution(distributionAmount: int, totalAllocated: int, leaves: seq<Delta>)

  function MerkleAmounts(host: Host, manifest: Manifest, amount: int, allocations: seq<Allocation>): Result<MerkleDistribution, TokenError> {
    if !ValidManifest(host, manifest) then Err(BadManifest)
    else
      match SplitEpochDelta(host, allocations, amount)
      case Err(e) => Err(e)
      case Ok(leaves) => Ok(MerkleDistribution(amount, DeltaSum(leaves), leaves))
  }

  // ----- buildDaoTokenCumulativeDistribution -----

  datatype Balance = Balance(account: string, claimantKey: string, prior: int, delta: int, receiptIds: set<string>)

  datatype Leaf = Leaf(
    index: nat, claimantKey: string, account: string, cumulativeAmount: int, deltaAmount: int, receiptIds: set<string>)

  datatype Distribution = Distribution(mintDelta: int, cumulativeTotal: int, leaves: seq<Leaf>)

  function AddPrior(host: Host, m: map<string, Balance>, p: Prior): Result<map<string, Balance>, TokenError> {
    if !host.isAddress(p.account) then Err(InvalidPrior(p.account))
    else if p.cumulativeAmount < 0 then Err(NegativePrior)
    else
      var key := Lower(p.account);
      if key in m then Ok(m[key := m[key].(prior := m[key].prior + p.cumulativeAmount)])
      else Ok(m[key := Balance(p.account, "", p.cumulativeAmount, 0, {})])
  }

  function AddDelta(host: Host, m: map<string, Balance>, d: Delta): Result<map<string, Balance>, TokenError> {
    if !host.isAddress(d.account) then Err(InvalidDelta(d.claimantKey))
    else if d.deltaAmount < 0 then Err(NegativeDelta(d.claimantKey))
    else if d.deltaAmount == 0 then Ok(m)
    else
      var key := Lower(d.account);
      if key in m then
        var b := m[key];
        Ok(m[key := Balance(b.account, if b.claimantKey == "" then d.claimantKey else b.claimantKey, b.prior,
                            b.delta + d.deltaAmount, b.receiptIds + d.receiptIds)])
      else
        Ok(m[key := Balance(d.account, d.claimantKey, 0, d.deltaAmount, d.receiptIds)])
  }

  function FoldPriors(host: Host, priors: seq<Prior>): Result<map<string, Balance>, TokenError> {
    if |priors| == 0 then Ok(map[])
    else
      match FoldPriors(host, priors[..|priors| - 1])
      case Err(e) => Err(e)
      case Ok(m) => AddPrior(host, m, priors[|priors| - 1])
  }

  function FoldDeltas(host: Host, start: map<string, Balance>, deltas: seq<Delta>): Result<map<string, Balance>, TokenError> {
    if |deltas| == 0 then Ok(start)
    else
      match FoldDeltas(host, start, deltas[..|deltas| - 1])
      case Err(e) => Err(e)
      case Ok(m) => AddDelta(host, m, deltas[|deltas| - 1])
  }

  function PriorSum(priors: seq<Prior>): int {
    if |priors| == 0 then 0 else PriorSum(priors[..|priors| - 1]) + priors[|priors| - 1].cumulativeAmount
  }

  function LeafOf(b: Balance, index: nat): Leaf {
    Leaf(index, if b.claimantKey == "" then "account:" + Lower(b.account) else b.claimantKey, b.account,
         b.prior + b.delta, b.delta, b.receiptIds)
  }

  /** The accounts with a positive balance, in account order. */
  function Leaves(m: map<string, Balance>, less: Order): seq<Leaf> {
    var keys := SortedKeys((set k | k in m && m[k].prior + m[k].delta > 0), less);
    seq(|keys|, i requires 0 <= i < |keys| =>
      if keys[i] in m then LeafOf(m[keys[i]], i) else LeafOf(Balance("", "", 0, 0, {}), i))
  }

  function LeafSum(leaves: seq<Leaf>): int {
    if |leaves| == 0 then 0 else LeafSum(leaves[..|leaves| - 1]) + leaves[|leaves| - 1].cumulativeAmount
  }

  function Cumulative(host: Host, manifest: Manifest, priors: seq<Prior>, deltas: seq<Delta>): Result<Distribution, TokenError> {
    if !ValidManifest(host, manifest) then Err(BadManifest)
    else
      match FoldPriors(host, priors)
      case Err(e) => Err(e)
      case Ok(start) =>
        match FoldDeltas(host, start, deltas)
        case Err(e) => Err(e)
        case Ok(m) => Settle(Leaves(m, host.less), PriorSum(priors), DeltaSum(deltas))
  }

  /** The checks at the end of the build. */
  function Settle(leaves: seq<Leaf>, priorTotal: int, mintDelta: int): Result<Distribution, TokenError> {
    if |leaves| == 0 then Err(NoPositiveBalance)
    else if LeafSum(leaves) != priorTotal + mintDelta then Err(SupplyViolated)
    else Ok(Distribution(mintDelta, LeafSum(leaves), leaves))
  }

  lemma {:induction false} PriorsStop(host: Host, priors: seq<Prior>, i: nat)
    requires i < |priors| && FoldPriors(host, priors[..i + 1]).Err?
    ensures FoldPriors(host, priors) == FoldPriors(host, priors[..i + 1])
  {
    if i + 1 == |priors| {
      assert priors[..i + 1] == priors;
    } else {
      assert priors[..|priors| - 1][..i + 1] == priors[..i + 1];
      PriorsStop(host, priors[..|priors| - 1], i);
    }
  }

  lemma {:induction false} DeltasStop(host: Host, start: map<string, Balance>, deltas: seq<Delta>, i: nat)
    requires i < |deltas| && FoldDeltas(host, start, deltas[..i + 1]).Err?
    ensures FoldDeltas(host, start, deltas) == FoldDeltas(host, start, deltas[..i + 1])
  {
    if i + 1 == |deltas| {
      assert deltas[..i + 1] == deltas;
    } else {
      assert deltas[..|deltas| - 1][..i + 1] == deltas[..i + 1];
      DeltasStop(host, start, deltas[..|deltas| - 1], i);
    }
  }

  method FoldPriorBalances(host: Host, priors: seq<Prior>) returns (r: Result<map<string, Balance>, TokenError>, priorTotal: int)
    ensures r == FoldPriors(host, priors) && (r.Ok? ==> priorTotal == PriorSum(priors))
  {
    var byAccount: map<string, Balance> := map[];
    priorTotal := 0;
    for i := 0 to |priors|
      invariant FoldPriors(host, priors[..i]) == Ok(byAccount)
      invariant priorTotal == PriorSum(priors[..i])
    {
      assert priors[..i + 1][..i] == priors[..i];
      var step := AddPrior(host, byAccount, priors[i]);
      if step.Err? {
        PriorsStop(host, priors, i);
        return step, 0;
      }
      priorTotal := priorTotal + priors[i].cumulativeAmount;
      byAccount := step.value;
    }
    assert priors[..|priors|] == priors;
    r := Ok(byAccount);
  }

  method FoldEpochDeltas(host: Host, start: map<string, Balance>, deltas: seq<Delta>)
    returns (r: Result<map<string, Balance>, TokenError>, mintDelta: int)
    ensures r == FoldDeltas(host, start, deltas) && (r.Ok? ==> mintDelta == DeltaSum(deltas))
  {
    var byAccount := start;
    mintDelta := 0;
    for i := 0 to |deltas|
      invariant FoldDeltas(host, start, deltas[..i]) == Ok(byAccount)
      invariant mintDelta == DeltaSum(deltas[..i])
    {
      assert deltas[..i + 1][..i] == deltas[..i];
      var step := AddDelta(host, byAccount, deltas[i]);
      if step.Err? {
        DeltasStop(host, start, deltas, i);
        return step, 0;
      }
      if deltas[i].deltaAmount == 0 {
        continue;
      }
      mintDelta := mintDelta + deltas[i].deltaAmount;
      byAccount := step.value;
    }
    assert deltas[..|deltas|] == deltas;
    r := Ok(byAccount);
  }

  method BuildDaoTokenCumulativeDistribution(host: Host, manifest: Manifest, priors: seq<Prior>, deltas: seq<Delta>)
    returns (r: Result<Distribution, TokenError>)
    ensures r == Cumulative(host, manifest, priors, deltas)
  {
    if !ValidManifest(host, manifest) {
      return Err(BadManifest);
    }
    var start, priorCumulativeTotal := FoldPriorBalances(host, priors);
    if start.Err? {
      return Err(start.error);
    }
    var byAccount, mintDelta := FoldEpochDeltas(host, start.value, deltas);
    if byAccount.Err? {
      return Err(byAccount.error);
    }
    var leaves := Leaves(byAccount.value, host.less);
    if |leaves| == 0 {
      return Err(NoPositiveBalance);
    }
    var cumulativeTotal := 0;
    for i := 0 to |leaves|
      invariant cumulativeTotal == LeafSum(leaves[..i])
    {
      assert leaves[..i + 1][..i] == leaves[..i];
      cumulativeTotal := cumulativeTotal + leaves[i].cumulativeAmount;
    }
    assert leaves[..|leaves|] == leaves;
    if cumulativeTotal != priorCumulativeTotal + mintDelta {
      return Err(SupplyViolated);
    }
    r := Ok(Distribution(mintDelta, cumulativeTotal, leaves));
  }
}
