/** EPOCH_DISTRIBUTION_NO_INVENTED_WALLET: who is paid by an epoch's distribution, and what is
    reported about those who are not (epoch-distribution-service.ts). */
module WalletBacking {
  import opened Wrappers
  import opened Collation
  import opened Integers
  import opened Grouping
  import opened LargestRemainder
  import opened TokenDistribution
  import opened TokenConservation
  import opened CumulativeBalances
  import opened LeafNames
  import opened EpochDistribution
  import opened LateLinking

  /** Some line gives the claimant positive credit, and the resolver gave it this wallet. */
  ghost predicate PaysLine(wallets: map<string, Option<string>>, lines: seq<StatementLine>, key: string, account: string) {
    WalletOf(wallets, key) == Some(account) && exists l :: l in lines && l.creditAmount > 0 && l.claimantKey == key
  }

  predicate Pending(wallets: map<string, Option<string>>, line: StatementLine) {
    line.creditAmount > 0 && WalletOf(wallets, line.claimantKey).None?
  }

  predicate IsLinked(wallets: map<string, Option<string>>, line: StatementLine) {
    line.creditAmount > 0 && WalletOf(wallets, line.claimantKey).Some?
  }

  /** The statement without the lines that pay nobody. */
  function Linked(wallets: map<string, Option<string>>, lines: seq<StatementLine>): seq<StatementLine> {
    if |lines| == 0 then []
    else
      var rest, last := Linked(wallets, lines[..|lines| - 1]), lines[|lines| - 1];
      if IsLinked(wallets, last) then rest + [last] else rest
  }

  // ----- the resolved lines -----

  /** The allocations are the linked lines, each with its claimant's wallet. */
  lemma {:induction false} ResolvedLines(wallets: map<string, Option<string>>, lines: seq<StatementLine>)
    ensures forall a :: a in Resolved(wallets, lines) ==> a.creditAmount > 0 && PaysLine(wallets, lines, a.claimantKey, a.account)
    ensures forall l :: l in lines && IsLinked(wallets, l) ==>
      Allocation(l.claimantKey, WalletOf(wallets, l.claimantKey).value, l.creditAmount, l.receiptIds) in Resolved(wallets, lines)
  {
    if |lines| > 0 {
      var init, last := lines[..|lines| - 1], lines[|lines| - 1];
      assert lines == init + [last];
      ResolvedLines(wallets, init);
      forall a | a in Resolved(wallets, lines) ensures a.creditAmount > 0 && PaysLine(wallets, lines, a.claimantKey, a.account) {
        if a in Resolved(wallets, init) {
          var l :| l in init && l.creditAmount > 0 && l.claimantKey == a.claimantKey;
          assert l in lines;
        } else {
          assert last in lines;
        }
      }
    }
  }

  lemma {:induction false} LinkedResolveAlike(wallets: map<string, Option<string>>, lines: seq<StatementLine>)
    ensures Resolved(wallets, Linked(wallets, lines)) == Resolved(wallets, lines)
    ensures TotalCredits(Linked(wallets, lines)) == AllocatedCredits(Resolved(wallets, lines))
  {
    if |lines| > 0 {
      var init, last := lines[..|lines| - 1], lines[|lines| - 1];
      LinkedResolveAlike(wallets, init);
      if IsLinked(wallets, last) {
        var all, linked := Resolved(wallets, lines), Linked(wallets, lines);
        assert linked[..|linked| - 1] == Linked(wallets, init);
        assert all[..|all| - 1] == Resolved(wallets, init);
      }
    }
  }

  lemma UnresolvedIff(wallets: map<string, Option<string>>, lines: seq<StatementLine>)
    ensures Unresolved(wallets, lines) != {} <==> exists l :: l in lines && Pending(wallets, l)
    ensures forall key :: key in Unresolved(wallets, lines) <==> exists l :: l in lines && Pending(wallets, l) && l.claimantKey == key
  {
    if l :| l in lines && Pending(wallets, l) {
      assert l.claimantKey in Unresolved(wallets, lines);
    }
    if Unresolved(wallets, lines) != {} {
      var key :| key in Unresolved(wallets, lines);
    }
  }

  lemma SomeResolvedIff(wallets: map<string, Option<string>>, lines: seq<StatementLine>)
    ensures |Resolved(wallets, lines)| > 0 <==> exists l :: l in lines && IsLinked(wallets, l)
  {
    ResolvedLines(wallets, lines);
    hide Resolved;
    if |Resolved(wallets, lines)| > 0 {
      var a := Resolved(wallets, lines)[0];
      assert a in Resolved(wallets, lines);
      var l :| l in lines && l.creditAmount > 0 && l.claimantKey == a.claimantKey;
      assert IsLinked(wallets, l);
    }
  }

  /** A split of the resolved lines pays exactly their claimants, into their wallets. */
  lemma SplitPaysLines(host: Host, wallets: map<string, Option<string>>, lines: seq<StatementLine>, amount: int)
    requires SplitEpochDelta(host, Resolved(wallets, lines), amount).Ok?
    ensures var deltas := SplitEpochDelta(host, Resolved(wallets, lines), amount).value;
      && (forall i :: 0 <= i < |deltas| ==> PaysLine(wallets, lines, deltas[i].claimantKey, deltas[i].account))
      && (forall l :: l in lines && IsLinked(wallets, l) ==> exists i :: 0 <= i < |deltas| && deltas[i].claimantKey == l.claimantKey)
  {
    hide SplitEpochDelta, Resolved, PaysLine, Credits, GroupOne;
    var allocations := Resolved(wallets, lines);
    var deltas := SplitEpochDelta(host, allocations, amount).value;
    GroupedSome(host, allocations, amount);
    GroupsIff(host, allocations);
    ResolvedLines(wallets, lines);
    var m := GroupAllocations(host, allocations).value;
    forall i | 0 <= i < |deltas| ensures PaysLine(wallets, lines, deltas[i].claimantKey, deltas[i].account) {
      DeltaAccounts(host, allocations, amount, i);
    }
    forall l | l in lines && IsLinked(wallets, l)
      ensures exists i :: 0 <= i < |deltas| && deltas[i].claimantKey == l.claimantKey
    {
      assert l.claimantKey in m;
      GroupIsPaid(host, allocations, amount, l.claimantKey);
    }
  }

  lemma GroupIsPaid(host: Host, allocations: seq<Allocation>, amount: int, key: string)
    requires SplitEpochDelta(host, allocations, amount).Ok? && key in GroupAllocations(host, allocations).value
    ensures exists i :: 0 <= i < |SplitEpochDelta(host, allocations, amount).value|
                        && SplitEpochDelta(host, allocations, amount).value[i].claimantKey == key
  {
    hide Apportion, TokenAmounts;
    var m := GroupAllocations(host, allocations).value;
    SplitIsApportion(host, allocations, amount);
    GroupedCredits(host, allocations);
    var keys := SortedKeys(Credits(m).Keys, host.less);
    assert key in keys;
    var i :| 0 <= i < |keys| && keys[i] == key;
    assert CreditItems(allocations, host.less)[i].key == key;
  }

  // ----- the one-shot distribution -----

  function LinkedCredits(wallets: map<string, Option<string>>, lines: seq<StatementLine>, key: string): int {
    if |lines| == 0 then 0
    else
      var last := lines[|lines| - 1];
      LinkedCredits(wallets, lines[..|lines| - 1], key)
        + if IsLinked(wallets, last) && last.claimantKey == key then last.creditAmount else 0
  }

  lemma {:induction false} LinkedCreditsAre(wallets: map<string, Option<string>>, lines: seq<StatementLine>, key: string)
    ensures UnitsOf(CreditPieces(Resolved(wallets, lines)), key) == LinkedCredits(wallets, lines, key)
    ensures Units(CreditPieces(Resolved(wallets, lines))) == TotalCredits(Linked(wallets, lines))
  {
    if |lines| > 0 {
      var init, last := lines[..|lines| - 1], lines[|lines| - 1];
      LinkedCreditsAre(wallets, init, key);
      if IsLinked(wallets, last) {
        var all, linked := Resolved(wallets, lines), Linked(wallets, lines);
        assert linked[..|linked| - 1] == Linked(wallets, init);
        assert all[..|all| - 1] == Resolved(wallets, init);
        var before, after := CreditPieces(Resolved(wallets, init)), CreditPieces(all);
        assert after == before + [Piece(last.claimantKey, last.creditAmount)];
        assert after[..|after| - 1] == before;
      }
    }
  }

  /** Who is paid: with a positive budget there is a distribution exactly when some positive line has
      a wallet; it pays out the budget, to exactly the claimants of those lines, into their wallets. */
  lemma OneShotPaysLinkedClaimants(
    host: Host, manifest: Manifest, lines: seq<StatementLine>, budget: int, wallets: map<string, Option<string>>)
    requires OneShotEpoch(host, manifest, lines, budget, wallets).Ok?
    ensures var outcome := OneShotEpoch(host, manifest, lines, budget, wallets).value;
      && (outcome.distribution.Some? <==> budget > 0 && exists l :: l in lines && IsLinked(wallets, l))
      && (outcome.distribution.Some? ==>
            var d := outcome.distribution.value;
            && d.totalAllocated == d.distributionAmount == budget == DeltaSum(d.leaves)
            && (forall i :: 0 <= i < |d.leaves| ==> PaysLine(wallets, lines, d.leaves[i].claimantKey, d.leaves[i].account))
            && (forall l :: l in lines && IsLinked(wallets, l) ==> exists i :: 0 <= i < |d.leaves| && d.leaves[i].claimantKey == l.claimantKey))
  {
    hide SplitEpochDelta, Resolved, Unresolved, PaysLine, IsLinked;
    SomeResolvedIff(wallets, lines);
    var allocations := Resolved(wallets, lines);
    if budget > 0 && |allocations| > 0 {
      SplitConservesAmount(host, allocations, budget);
      SplitPaysLines(host, wallets, lines, budget);
    }
  }

  /** And how much: each leaf is its claimant's share of the linked credits rounded down or up, more
      credits never getting less, and of equal credits the smaller key being served first. */
  lemma OneShotPaysShares(
    host: Host, manifest: Manifest, lines: seq<StatementLine>, budget: int, wallets: map<string, Option<string>>, i: nat, j: nat)
    requires var r := OneShotEpoch(host, manifest, lines, budget, wallets);
      r.Ok? && r.value.distribution.Some? && i < |r.value.distribution.value.leaves| && j < |r.value.distribution.value.leaves|
    ensures var leaves := OneShotEpoch(host, manifest, lines, budget, wallets).value.distribution.value.leaves;
      var total, ci, cj := TotalCredits(Linked(wallets, lines)),
                           LinkedCredits(wallets, lines, leaves[i].claimantKey), LinkedCredits(wallets, lines, leaves[j].claimantKey);
      && total > 0 && 0 <= leaves[i].deltaAmount - ci * budget / total <= 1
      && (ci > cj ==> leaves[i].deltaAmount >= leaves[j].deltaAmount)
      && (ci == cj && host.less(leaves[i].claimantKey, leaves[j].claimantKey) ==> leaves[i].deltaAmount >= leaves[j].deltaAmount)
  {
    hide SplitEpochDelta, Resolved, Unresolved, CreditPieces, Linked, LinkedCredits, TotalCredits;
    var allocations := Resolved(wallets, lines);
    var leaves := SplitEpochDelta(host, allocations, budget).value;
    assert OneShotEpoch(host, manifest, lines, budget, wallets).value.distribution.value.leaves == leaves;
    LinkedCreditsAre(wallets, lines, leaves[i].claimantKey);
    LinkedCreditsAre(wallets, lines, leaves[j].claimantKey);
    hide OneShotEpoch;
    SplitIsFair(host, allocations, budget, i, j);
  }

  /** What is reported: `FundingAmountMismatch` exactly without a budget; `ClaimantsUnresolved`, with
      the claimants meant, exactly when some positive line has no wallet; `ManifestMissing` exactly
      when no line is positive. */
  lemma OneShotReports(
    host: Host, manifest: Manifest, lines: seq<StatementLine>, budget: int, wallets: map<string, Option<string>>)
    requires OneShotEpoch(host, manifest, lines, budget, wallets).Ok?
    ensures var outcome := OneShotEpoch(host, manifest, lines, budget, wallets).value;
      && (FundingAmountMismatch in outcome.blockers <==> budget <= 0)
      && (budget <= 0 ==> outcome == Outcome(None, [FundingAmountMismatch], {}))
      && (budget > 0 ==>
            && (ClaimantsUnresolved in outcome.blockers <==> exists l :: l in lines && Pending(wallets, l))
            && (ManifestMissing in outcome.blockers <==> forall l :: l in lines ==> l.creditAmount <= 0)
            && (forall key :: key in outcome.unresolved <==> exists l :: l in lines && Pending(wallets, l) && l.claimantKey == key))
  {
    UnresolvedIff(wallets, lines);
    SomeResolvedIff(wallets, lines);
    PositiveIff(wallets, lines);
    hide MerkleAmounts, Resolved, Unresolved, Pending, IsLinked;
  }

  lemma PositiveIff(wallets: map<string, Option<string>>, lines: seq<StatementLine>)
    ensures (forall l :: l in lines ==> l.creditAmount <= 0)
       <==> !(exists l :: l in lines && Pending(wallets, l)) && !(exists l :: l in lines && IsLinked(wallets, l))
  {
    if l :| l in lines && l.creditAmount > 0 {
      assert Pending(wallets, l) || IsLinked(wallets, l);
    }
  }

  /** It fails only on a bad manifest, a blank claimant key or a wallet that is no address. */
  lemma OneShotSucceedsIff(
    host: Host, manifest: Manifest, lines: seq<StatementLine>, budget: int, wallets: map<string, Option<string>>)
    ensures OneShotEpoch(host, manifest, lines, budget, wallets).Ok? <==>
      || budget <= 0 || !(exists l :: l in lines && IsLinked(wallets, l))
      || (ValidManifest(host, manifest) && ValidWallets(host, wallets, lines))
  {
    hide SplitEpochDelta, Resolved, Unresolved, IsLinked, ValidManifest, ValidWallets;
    SomeResolvedIff(wallets, lines);
    if |Resolved(wallets, lines)| > 0 {
      ResolvedSplitsIff(host, wallets, lines, budget);
    }
  }

  /** The claimants that can be paid have proper keys and addresses. */
  ghost predicate ValidWallets(host: Host, wallets: map<string, Option<string>>, lines: seq<StatementLine>) {
    forall l :: l in lines && IsLinked(wallets, l) ==>
      !IsBlank(l.claimantKey) && host.isAddress(WalletOf(wallets, l.claimantKey).value)
  }

  lemma ResolvedSplitsIff(host: Host, wallets: map<string, Option<string>>, lines: seq<StatementLine>, amount: int)
    requires |Resolved(wallets, lines)| > 0
    ensures SplitEpochDelta(host, Resolved(wallets, lines), amount).Ok? <==> amount > 0 && ValidWallets(host, wallets, lines)
  {
    hide Resolved, IsBlank, Lower;
    var allocations := Resolved(wallets, lines);
    SplitSucceedsIff(host, allocations, amount);
    ResolvedLines(wallets, lines);
    assert OneAccountEach(allocations) by {
      hide WalletOf;
      forall a, b | a in allocations && b in allocations && a.claimantKey == b.claimantKey ensures a.account == b.account {
        assert PaysLine(wallets, lines, a.claimantKey, a.account) && PaysLine(wallets, lines, b.claimantKey, b.account);
      }
    }
    assert SomeCredit(allocations) by {
      assert allocations[0] in allocations;
    }
    assert WellFormed(host, allocations) <==> ValidWallets(host, wallets, lines) by {
    }
    hide WellFormed, OneAccountEach, SomeCredit, ValidWallets;
  }

  // ----- the cumulative distribution -----

  /** A cumulative build that succeeds was made from these deltas. */
  ghost predicate BuiltFrom(
    host: Host, manifest: Manifest, lines: seq<StatementLine>, mintDelta: int, priors: seq<Prior>, wallets: map<string, Option<string>>)
  {
    var r := CumulativeEpoch(host, manifest, lines, mintDelta, priors, wallets);
    r.Ok? && r.value.distribution.Some?
  }

  lemma EpochDeltasPayLines(host: Host, mintDelta: int, lines: seq<StatementLine>, wallets: map<string, Option<string>>)
    requires EpochDeltas(host, mintDelta, lines, Resolved(wallets, lines)).Ok?
    ensures var deltas := EpochDeltas(host, mintDelta, lines, Resolved(wallets, lines)).value;
      forall d :: d in deltas ==> d.claimantKey != "" && d.deltaAmount >= 0 && PaysLine(wallets, lines, d.claimantKey, d.account)
  {
    hide SplitEpochDelta, Resolved, PaysLine, ResolvedMint, IsBlank;
    if EpochDeltas(host, mintDelta, lines, Resolved(wallets, lines)).value != [] {
      var mint := ResolvedMint(mintDelta, lines, Resolved(wallets, lines));
      SplitPaysLines(host, wallets, lines, mint);
      SplitIsNonNegative(host, Resolved(wallets, lines), mint);
      SplitNames(host, Resolved(wallets, lines), mint);
    }
  }

  lemma SplitNames(host: Host, allocations: seq<Allocation>, amount: int)
    requires SplitEpochDelta(host, allocations, amount).Ok?
    ensures forall d :: d in SplitEpochDelta(host, allocations, amount).value ==> d.claimantKey != ""
  {
    hide SplitEpochDelta, Lower, GroupOne;
    var deltas := SplitEpochDelta(host, allocations, amount).value;
    SplitSucceedsIff(host, allocations, amount);
    GroupsIff(host, allocations);
    forall i | 0 <= i < |deltas| ensures deltas[i].claimantKey != "" {
      DeltaAccounts(host, allocations, amount, i);
      assert IsBlank("");
    }
  }

  /** No wallet is invented: every leaf is for a prior account or for the wallet of a positive line's
      claimant. A leaf with new tokens names such a claimant, into whose wallet they go; one without
      names its account. */
  lemma CumulativePaysLinkedClaimants(
    host: Host, manifest: Manifest, lines: seq<StatementLine>, mintDelta: int, priors: seq<Prior>,
    wallets: map<string, Option<string>>, i: nat)
    requires BuiltFrom(host, manifest, lines, mintDelta, priors, wallets)
    requires i < |CumulativeEpoch(host, manifest, lines, mintDelta, priors, wallets).value.distribution.value.leaves|
    ensures var leaf := CumulativeEpoch(host, manifest, lines, mintDelta, priors, wallets).value.distribution.value.leaves[i];
      && ((exists p :: p in priors && p.account == leaf.account) || (exists key :: PaysLine(wallets, lines, key, leaf.account)))
      && if leaf.deltaAmount != 0
         then exists account :: PaysLine(wallets, lines, leaf.claimantKey, account) && Lower(account) == Lower(leaf.account)
         else leaf.claimantKey == "account:" + Lower(leaf.account)
  {
    hide Cumulative, EpochDeltas, Resolved, Unresolved, PaysLine, Lower;
    var leaf := CumulativeEpoch(host, manifest, lines, mintDelta, priors, wallets).value.distribution.value.leaves[i];
    var deltas := EpochDeltas(host, mintDelta, lines, Resolved(wallets, lines)).value;
    EpochDeltasPayLines(host, mintDelta, lines, wallets);
    LeafIsNamed(host, manifest, priors, deltas, i);
    CumulativeSpec(host, manifest, priors, deltas);
    hide CumulativeEpoch;
    hide FirstName, FirstSpelling, Names;
    NameOfLeaf(wallets, lines, deltas, Lower(leaf.account), leaf.claimantKey);
  }

  lemma NameOfLeaf(wallets: map<string, Option<string>>, lines: seq<StatementLine>, deltas: seq<Delta>, account: string, claimantKey: string)
    requires forall d :: d in deltas ==> d.claimantKey != "" && d.deltaAmount >= 0 && PaysLine(wallets, lines, d.claimantKey, d.account)
    requires if exists k :: Names(deltas, k, account) then FirstName(deltas, account, claimantKey) else claimantKey == "account:" + account
    ensures if UnitsOf(DeltaPieces(deltas), account) != 0
            then exists into :: PaysLine(wallets, lines, claimantKey, into) && Lower(into) == account
            else claimantKey == "account:" + account
  {
    hide Lower, PaysLine, DeltaPieces, UnitsOf;
    if UnitsOf(DeltaPieces(deltas), account) != 0 {
      var j := SomeDelta(deltas, account);
      assert deltas[j] in deltas;
      assert Names(deltas, j, account);
      var k :| Names(deltas, k, account) && deltas[k].claimantKey == claimantKey;
      assert deltas[k] in deltas;
    } else {
      forall k ensures !Names(deltas, k, account) {
        if Brings(deltas, k, account) {
          SomeUnits(deltas, account, k);
        }
      }
    }
  }

  lemma {:induction false} SomeUnits(deltas: seq<Delta>, account: string, k: int)
    requires Brings(deltas, k, account) && forall d :: d in deltas ==> d.deltaAmount >= 0
    ensures UnitsOf(DeltaPieces(deltas), account) > 0
  {
    hide Lower;
    var n := |deltas| - 1;
    assert DeltaPieces(deltas)[..n] == DeltaPieces(deltas[..n]);
    assert deltas[n] in deltas;
    if k < n {
      SomeUnits(deltas[..n], account, k);
    } else {
      PiecesNonNegative(DeltaPieces(deltas[..n]), account);
    }
  }

  lemma {:induction false} SomeDelta(deltas: seq<Delta>, key: string) returns (i: nat)
    requires UnitsOf(DeltaPieces(deltas), key) != 0
    ensures Brings(deltas, i, key)
  {
    hide Lower;
    var n := |deltas| - 1;
    assert |deltas| > 0 && DeltaPieces(deltas)[..n] == DeltaPieces(deltas[..n]);
    if Lower(deltas[n].account) == key && deltas[n].deltaAmount != 0 {
      i := n;
    } else {
      i := SomeDelta(deltas[..n], key);
    }
  }

  /** What is reported, whenever the resolver is asked. */
  lemma CumulativeReports(
    host: Host, manifest: Manifest, lines: seq<StatementLine>, mintDelta: int, priors: seq<Prior>, wallets: map<string, Option<string>>)
    requires CumulativeEpoch(host, manifest, lines, mintDelta, priors, wallets).Ok?
    ensures var outcome := CumulativeEpoch(host, manifest, lines, mintDelta, priors, wallets).value;
      && (FundingAmountMismatch in outcome.blockers <==> mintDelta < 0)
      && (mintDelta < 0 ==> outcome == Outcome(None, [FundingAmountMismatch], {}))
      && (mintDelta == 0 && |priors| == 0 ==> outcome == Outcome(None, [ManifestMissing], {}))
      && (mintDelta > 0 || (mintDelta == 0 && |priors| > 0) ==>
            && (ClaimantsUnresolved in outcome.blockers <==> exists l :: l in lines && Pending(wallets, l))
            && (ManifestMissing in outcome.blockers <==> |priors| == 0 && forall l :: l in lines ==> l.creditAmount <= 0)
            && (outcome.distribution.Some? <==> |priors| > 0 || exists l :: l in lines && IsLinked(wallets, l))
            && (forall key :: key in outcome.unresolved <==> exists l :: l in lines && Pending(wallets, l) && l.claimantKey == key))
  {
    UnresolvedIff(wallets, lines);
    SomeResolvedIff(wallets, lines);
    PositiveIff(wallets, lines);
    hide Cumulative, EpochDeltas, Resolved, Unresolved, Pending, IsLinked;
  }

  /** The lines that pay nobody only scale the mint: the distribution is the one of the linked lines
      alone with the resolved mint, in amounts, accounts, claimants and receipts. */
  lemma PendingLinesOnlyScale(
    host: Host, manifest: Manifest, lines: seq<StatementLine>, mintDelta: int, priors: seq<Prior>, wallets: map<string, Option<string>>)
    requires BuiltFrom(host, manifest, lines, mintDelta, priors, wallets)
    ensures var mint := ResolvedMint(mintDelta, lines, Resolved(wallets, lines));
      var linked := CumulativeEpoch(host, manifest, Linked(wallets, lines), mint, priors, wallets);
      && linked.Ok?
      && linked.value.distribution == CumulativeEpoch(host, manifest, lines, mintDelta, priors, wallets).value.distribution
  {
    var allocations := Resolved(wallets, lines);
    var mint := ResolvedMint(mintDelta, lines, allocations);
    ResolvedMintBounds(mintDelta, lines, wallets);
    SameMint(mintDelta, lines, wallets);
    LinkedResolveAlike(wallets, lines);
    hide Resolved, Linked, ResolvedMint, Unresolved, SplitEpochDelta, Cumulative;
    if mint == 0 && |priors| == 0 {
      CumulativeFailsIff(host, manifest, priors, []);
      assert false;
    }
  }

  lemma SameMint(mintDelta: int, lines: seq<StatementLine>, wallets: map<string, Option<string>>)
    requires mintDelta >= 0
    ensures var mint := ResolvedMint(mintDelta, lines, Resolved(wallets, lines));
      ResolvedMint(mint, Linked(wallets, lines), Resolved(wallets, lines)) == mint
  {
    var allocations := Resolved(wallets, lines);
    var mint, credits := ResolvedMint(mintDelta, lines, allocations), AllocatedCredits(allocations);
    LinkedResolveAlike(wallets, lines);
    ResolvedMintBounds(mintDelta, lines, wallets);
    ZeroCredits(wallets, lines, "");
    if credits > 0 {
      MulOrdered(0, mint, credits);
      BigDivFloors(mint * credits, credits);
      ExactQuotient(mint, credits);
    }
  }
}
