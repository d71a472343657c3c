/** Signed statements to distributions (epoch-distribution-service.ts). The wallet resolver's answer
    is a parameter. */
module EpochDistribution {
  import opened Wrappers
  import opened Collation
  import opened Integers
  import opened Grouping
  import opened LargestRemainder
  import opened TokenDistribution

  datatype StatementLine = StatementLine(claimantKey: string, creditAmount: int, receiptIds: set<string>)

  datatype Resolution = Resolution(claimantKey: string, wallet: Option<string>)

  datatype Blocker = FundingAmountMismatch | ManifestMissing | ClaimantsUnresolved

  /** `unresolved` is listed in sorted order by the source. */
  datatype Outcome<T> = Outcome(distribution: Option<T>, blockers: seq<Blocker>, unresolved: set<string>)

  function WalletMap(resolutions: seq<Resolution>): map<string, Option<string>> {
    if |resolutions| == 0 then map[]
    else
      var last := resolutions[|resolutions| - 1];
      WalletMap(resolutions[..|resolutions| - 1])[last.claimantKey := last.wallet]
  }

  function WalletOf(wallets: map<string, Option<string>>, key: string): Option<string> {
    if key in wallets then wallets[key] else None
  }

  /** The resolver's last answer for a claimant stands; without one there is no wallet. */
  lemma {:induction false} WalletIsLastAnswer(resolutions: seq<Resolution>, key: string)
    ensures var wallet := WalletOf(WalletMap(resolutions), key);
      || (wallet.None? && forall i :: 0 <= i < |resolutions| ==> resolutions[i].claimantKey != key)
      || exists i :: 0 <= i < |resolutions| && resolutions[i] == Resolution(key, wallet)
           && forall m :: i < m < |resolutions| ==> resolutions[m].claimantKey != key
  {
    if |resolutions| > 0 {
      var n := |resolutions| - 1;
      var init := resolutions[..n];
      var wallet := WalletOf(WalletMap(init), key);
      WalletIsLastAnswer(init, key);
      if resolutions[n].claimantKey == key {
        assert resolutions[n] == Resolution(key, WalletOf(WalletMap(resolutions), key));
      } else if i :| 0 <= i < n && init[i] == Resolution(key, wallet) && forall m :: i < m < n ==> init[m].claimantKey != key {
        assert resolutions[i] == Resolution(key, WalletOf(WalletMap(resolutions), key));
        forall m | i < m < |resolutions| ensures resolutions[m].claimantKey != key {
          assert m < n ==> init[m] == resolutions[m];
        }
      } else {
        assert forall i :: 0 <= i < n ==> init[i] == resolutions[i];
      }
    }
  }

  /** The lines with positive credits and a wallet. */
  function Resolved(wallets: map<string, Option<string>>, lines: seq<StatementLine>): seq<Allocation> {
    if |lines| == 0 then []
    else
      var rest, last := Resolved(wallets, lines[..|lines| - 1]), lines[|lines| - 1];
      match WalletOf(wallets, last.claimantKey)
      case None => rest
      case Some(wallet) =>
        if last.creditAmount <= 0 then rest
        else rest + [Allocation(last.claimantKey, wallet, last.creditAmount, last.receiptIds)]
  }

  function Unresolved(wallets: map<string, Option<string>>, lines: seq<StatementLine>): set<string> {
    set l | l in lines && l.creditAmount > 0 && WalletOf(wallets, l.claimantKey).None? :: l.claimantKey
  }

  function TotalCredits(lines: seq<StatementLine>): int {
    if |lines| == 0 then 0
    else
      var last := lines[|lines| - 1];
      TotalCredits(lines[..|lines| - 1]) + if last.creditAmount > 0 then last.creditAmount else 0
  }

  function AllocatedCredits(allocations: seq<Allocation>): int {
    if |allocations| == 0 then 0
    else AllocatedCredits(allocations[..|allocations| - 1]) + allocations[|allocations| - 1].creditAmount
  }

  /** The part of the mint that the resolved credits are worth. */
  function ResolvedMint(mintDelta: int, lines: seq<StatementLine>, allocations: seq<Allocation>): int {
    if TotalCredits(lines) > 0 then BigDiv(mintDelta * AllocatedCredits(allocations), TotalCredits(lines)) else 0
  }

  function EpochDeltas(host: Host, mintDelta: int, lines: seq<StatementLine>, allocations: seq<Allocation>): Result<seq<Delta>, TokenError> {
    if |allocations| > 0 && ResolvedMint(mintDelta, lines, allocations) > 0 then
      SplitEpochDelta(host, allocations, ResolvedMint(mintDelta, lines, allocations))
    else
      Ok([])
  }

  function UnresolvedBlockers(unresolved: set<string>): seq<Blocker> {
    if unresolved == {} then [] else [ClaimantsUnresolved]
  }

  /** Nothing wallet-backed remains: say why. */
  function NothingToDistribute<T>(unresolved: set<string>): Outcome<T> {
    Outcome(None, if unresolved == {} then [ManifestMissing] else [ClaimantsUnresolved], unresolved)
  }

  function CumulativeEpoch(
    host: Host, manifest: Manifest, lines: seq<StatementLine>, mintDelta: int, priors: seq<Prior>,
    wallets: map<string, Option<string>>
  ): Result<Outcome<Distribution>, TokenError> {
    if mintDelta < 0 then Ok(Outcome(None, [FundingAmountMismatch], {}))
    else if mintDelta == 0 && |priors| == 0 then Ok(Outcome(None, [ManifestMissing], {}))
    else
      var allocations, unresolved := Resolved(wallets, lines), Unresolved(wallets, lines);
      if |allocations| == 0 && |priors| == 0 then Ok(NothingToDistribute(unresolved))
      else
        match EpochDeltas(host, mintDelta, lines, allocations)
        case Err(e) => Err(e)
        case Ok(deltas) =>
          match Cumulative(host, manifest, priors, deltas)
          case Err(e) => Err(e)
          case Ok(d) => Ok(Outcome(Some(d), UnresolvedBlockers(unresolved), unresolved))
  }

  function OneShotEpoch(
    host: Host, manifest: Manifest, lines: seq<StatementLine>, budget: int, wallets: map<string, Option<string>>
  ): Result<Outcome<MerkleDistribution>, TokenError> {
    if budget <= 0 then Ok(Outcome(None, [FundingAmountMismatch], {}))
    else
      var allocations, unresolved := Resolved(wallets, lines), Unresolved(wallets, lines);
      if |allocations| == 0 then Ok(NothingToDistribute(unresolved))
      else
        match MerkleAmounts(host, manifest, budget, allocations)
        case Err(e) => Err(e)
        case Ok(d) => Ok(Outcome(Some(d), UnresolvedBlockers(unresolved), unresolved))
  }

  // ----- the loops -----

  method ResolveLines(resolutions: seq<Resolution>, lines: seq<StatementLine>)
    returns (allocations: seq<Allocation>, unresolved: set<string>)
    ensures allocations == Resolved(WalletMap(resolutions), lines)
    ensures unresolved == Unresolved(WalletMap(resolutions), lines)
  {
    var walletByKey: map<string, Option<string>> := map[];
    for i := 0 to |resolutions|
      invariant walletByKey == WalletMap(resolutions[..i])
    {
      assert resolutions[..i + 1][..i] == resolutions[..i];
      walletByKey := walletByKey[resolutions[i].claimantKey := resolutions[i].wallet];
    }
    assert resolutions[..|resolutions|] == resolutions;
    allocations, unresolved := [], {};
    for i := 0 to |lines|
      invariant allocations == Resolved(walletByKey, lines[..i])
      invariant unresolved == Unresolved(walletByKey, lines[..i])
    {
      var line := lines[i];
      assert lines[..i + 1] == lines[..i] + [line] && lines[..i + 1][..i] == lines[..i];
      if line.creditAmount <= 0 {
        continue;
      }
      var wallet := WalletOf(walletByKey, line.claimantKey);
      if wallet.None? {
        unresolved := unresolved + {line.claimantKey};
        continue;
      }
      allocations := allocations + [Allocation(line.claimantKey, wallet.value, line.creditAmount, line.receiptIds)];
    }
    assert lines[..|lines|] == lines;
  }

  method BuildCumulativeEpochDistribution(
    host: Host, manifest: Manifest, lines: seq<StatementLine>, mintDelta: int, priors: seq<Prior>, resolutions: seq<Resolution>
  ) returns (r: Result<Outcome<Distribution>, TokenError>)
    ensures r == CumulativeEpoch(host, manifest, lines, mintDelta, priors, WalletMap(resolutions))
  {
    if mintDelta < 0 {
      return Ok(Outcome(None, [FundingAmountMismatch], {}));
    }
    if mintDelta == 0 && |priors| == 0 {
      return Ok(Outcome(None, [ManifestMissing], {}));
    }
    var allocations, unresolved := ResolveLines(resolutions, lines);
    var blockers := UnresolvedBlockers(unresolved);
    if |allocations| == 0 && |priors| == 0 {
      assert unresolved != {} ==> blockers[0] == ClaimantsUnresolved;
      if ClaimantsUnresolved !in blockers {
        blockers := blockers + [ManifestMissing];
        assert blockers == [ManifestMissing];
      }
      return Ok(Outcome(None, blockers, unresolved));
    }
    var totalEpochCredits, resolvedCredits := TotalCredits(lines), AllocatedCredits(allocations);
    var resolvedMintDelta := if totalEpochCredits > 0 then BigDiv(mintDelta * resolvedCredits, totalEpochCredits) else 0;
    var epochDeltas: seq<Delta> := [];
    if |allocations| > 0 && resolvedMintDelta > 0 {
      var split := SplitEpochDeltaByCredits(host, allocations, resolvedMintDelta);
      if split.Err? {
        return Err(split.error);
      }
      epochDeltas := split.value;
    }
    var d := BuildDaoTokenCumulativeDistribution(host, manifest, priors, epochDeltas);
    r := if d.Err? then Err(d.error) else Ok(Outcome(Some(d.value), blockers, unresolved));
  }

  method BuildEpochDistribution(
    host: Host, manifest: Manifest, lines: seq<StatementLine>, budget: int, resolutions: seq<Resolution>
  ) returns (r: Result<Outcome<MerkleDistribution>, TokenError>)
    ensures r == OneShotEpoch(host, manifest, lines, budget, WalletMap(resolutions))
  {
    if budget <= 0 {
      return Ok(Outcome(None, [FundingAmountMismatch], {}));
    }
    var allocations, unresolved := ResolveLines(resolutions, lines);
    var blockers := UnresolvedBlockers(unresolved);
    if |allocations| == 0 {
      assert unresolved != {} ==> blockers[0] == ClaimantsUnresolved;
      if ClaimantsUnresolved !in blockers && ManifestMissing !in blockers {
        blockers := blockers + [ManifestMissing];
        assert blockers == [ManifestMissing];
      }
      return Ok(Outcome(None, blockers, unresolved));
    }
    if !ValidManifest(host, manifest) {
      return Err(BadManifest);
    }
    var split := SplitEpochDeltaByCredits(host, allocations, budget);
    if split.Err? {
      return Err(split.error);
    }
    r := Ok(Outcome(Some(MerkleDistribution(budget, DeltaSum(split.value), split.value)), blockers, unresolved));
  }
}
