/** The whole money path: from receipt weights, through the signed statement, to what every account
    is owed by the cumulative distribution of the epoch. */
module MoneyPath {
  import opened Wrappers
  import opened Collation
  import opened Integers
  import opened Grouping
  import opened Claimants
  import opened Statements
  import opened Explode
  import opened ExplodeConservation
  import opened StatementPipeline
  import opened TokenDistribution
  import opened TokenConservation
  import opened CumulativeBalances
  import opened EpochDistribution
  import opened LateLinking
  import opened WalletBacking

  /** The lines as they are signed and read back for the distribution. */
  function Signed(lines: seq<Line>): seq<StatementLine> {
    seq(|lines|, i requires 0 <= i < |lines| => StatementLine(lines[i].claimantKey, lines[i].creditAmount, lines[i].receiptIds))
  }

  ghost predicate NonNegativeCredits(lines: seq<Line>) {
    forall i :: 0 <= i < |lines| ==> lines[i].creditAmount >= 0
  }

  lemma {:induction false} SignedCredits(lines: seq<Line>)
    requires NonNegativeCredits(lines)
    ensures TotalCredits(Signed(lines)) == LineCredits(lines)
  {
    if |lines| > 0 {
      var n := |lines| - 1;
      SignedCredits(lines[..n]);
      assert Signed(lines)[..n] == Signed(lines[..n]);
      var all, init := LineAmounts(lines), LineAmounts(lines[..n]);
      assert seq(|all|, i requires 0 <= i < |all| => all[i].credits)[..n] == seq(|init|, i requires 0 <= i < |init| => init[i].credits);
    }
  }

  /** Credits are never negative, and every line is under a printed claimant key. */
  lemma StatementLinesSpec(allocations: seq<FinalAllocation>, pool: int, less: Order)
    requires pool > 0 && StatementLines(allocations, pool, less).Ok? && Units(Pieces(allocations)) > 0
    ensures var lines := StatementLines(allocations, pool, less).value;
      NonNegativeCredits(lines) && forall i :: 0 <= i < |lines| ==> exists c :: lines[i].claimantKey == ClaimantKey(c)
  {
    hide StatementAmounts, Group, Pieces, Tally, EntryUnits, ClaimantKey;
    StatementExact(allocations, pool, less);
    NoneNegative(allocations);
    var ps := Pieces(allocations);
    assert |allocations| > 0 by {
      NothingToPay(allocations);
    }
    LinesOfAmounts(allocations, pool, less);
    GroupIsTally(allocations);
    PieceUnits(allocations);
    TallyNonNegative(ps);
    TallyConserves(ps);
    TallyAt(ps);
    AmountsRounded(Tally(ps), pool, less);
    AmountsListKeys(Tally(ps), pool, less);
    hide StatementLines, RoundedShare;
    var lines, amounts := StatementLines(allocations, pool, less).value, StatementAmounts(Tally(ps), pool, less);
    forall i | 0 <= i < |lines|
      ensures lines[i].creditAmount >= 0 && exists c :: lines[i].claimantKey == ClaimantKey(c)
    {
      assert amounts[i] == LineAmounts(lines)[i];
      RoundedIsNonNegative(amounts[i].credits, amounts[i].units, pool, Total(Tally(ps)));
      MentionedIsPrinted(allocations, amounts[i].key);
    }
  }

  lemma RoundedIsNonNegative(credits: int, units: int, pool: int, total: int)
    requires total > 0 && units >= 0 && pool > 0 && RoundedShare(credits, units, pool, total)
    ensures credits >= 0
  {
    MulOrdered(0, units, pool);
    LargerQuotient(units * pool / total, units * pool % total, 0, 0, total);
  }

  lemma MentionedIsPrinted(allocations: seq<FinalAllocation>, key: string)
    requires Mentions(Pieces(allocations), key)
    ensures exists c :: key == ClaimantKey(c)
  {
    hide ClaimantKey;
    var i :| 0 <= i < |allocations| && Pieces(allocations)[i].key == key;
    assert key == ClaimantKey(allocations[i].claimant);
  }

  lemma PrintedIsNotBlank(c: Claimant)
    ensures !IsBlank(ClaimantKey(c))
  {
    assert ClaimantKey(c)[0] == 'u' || ClaimantKey(c)[0] == 'i';
  }

  /** A statement with something to pay, and its credits. */
  lemma SignedStatement(weights: seq<Weight>, overrides: seq<SubjectOverride>, j: Join, pool: int)
    requires NonNegativeUnits(weights, overrides) && ValidShares(j) && Statement(weights, overrides, j, pool).Ok?
    requires pool > 0 && Surviving(j, OverriddenWeights(weights, overrides, j.less)) > 0
    ensures var lines := Signed(Statement(weights, overrides, j, pool).value);
      && TotalCredits(lines) == pool
      && (forall l :: l in lines ==> l.creditAmount >= 0 && !IsBlank(l.claimantKey))
  {
    hide StatementLines, Exploded, LineCredits, Pieces, OverriddenWeights, IsBlank, ClaimantKey;
    var overridden := OverriddenWeights(weights, overrides, j.less);
    var allocations := Exploded(j, overridden).value;
    StatementPaysThePool(weights, overrides, j, pool);
    OverriddenNonNegative(weights, overrides, j.less);
    ExplodeConserves(j, overridden);
    var lines := Statement(weights, overrides, j, pool).value;
    StatementLinesSpec(allocations, pool, j.less);
    SignedCredits(lines);
    forall i | 0 <= i < |lines| ensures !IsBlank(lines[i].claimantKey) {
      var c :| lines[i].claimantKey == ClaimantKey(c);
      PrintedIsNotBlank(c);
    }
  }

  ghost predicate WalletsAreAddresses(host: Host, wallets: map<string, Option<string>>) {
    forall key :: key in wallets && wallets[key].Some? ==> host.isAddress(wallets[key].value)
  }

  /** An epoch whose mint is a positive multiple of its credits has a distribution as soon as one
      positive line has a wallet. */
  lemma MultipleIsDistributed(
    host: Host, manifest: Manifest, lines: seq<StatementLine>, k: int, priors: seq<Prior>, wallets: map<string, Option<string>>)
    requires k > 0 && ValidManifest(host, manifest) && ValidPriors(host, priors) && ValidWallets(host, wallets, lines)
    requires exists l :: l in lines && IsLinked(wallets, l)
    ensures BuiltFrom(host, manifest, lines, k * TotalCredits(lines), priors, wallets)
  {
    hide Resolved, Unresolved, SplitEpochDelta, Cumulative, ValidManifest, ValidWallets, TotalCredits, PaysLine, IsLinked, ResolvedMint;
    SomeResolvedIff(wallets, lines);
    MultipleMints(lines, k, wallets);
    var allocations, mint := Resolved(wallets, lines), ResolvedMint(k * TotalCredits(lines), lines, Resolved(wallets, lines));
    ResolvedSplitsIff(host, wallets, lines, mint);
    var deltas := SplitEpochDelta(host, allocations, mint).value;
    SplitDeltasAreValid(host, wallets, lines, mint);
    SplitConservesAmount(host, allocations, mint);
    NonNegativePriors(host, priors);
    hide ValidPriors, ValidDeltas;
    CumulativeFailsIff(host, manifest, priors, deltas);
  }

  lemma {:induction false} NonNegativePriors(host: Host, priors: seq<Prior>)
    requires ValidPriors(host, priors)
    ensures PriorSum(priors) >= 0
  {
    if |priors| > 0 {
      NonNegativePriors(host, priors[..|priors| - 1]);
    }
  }

  lemma MultipleMints(lines: seq<StatementLine>, k: int, wallets: map<string, Option<string>>)
    requires k > 0 && |Resolved(wallets, lines)| > 0
    ensures k * TotalCredits(lines) > 0 && ResolvedMint(k * TotalCredits(lines), lines, Resolved(wallets, lines)) > 0
  {
    ResolvedCredits(wallets, lines, "");
    ZeroCredits(wallets, lines, "");
    hide Resolved, CreditPieces, TotalCredits, AllocatedCredits;
    ScaledMultiple(k, TotalCredits(lines), AllocatedCredits(Resolved(wallets, lines)));
    MulOrdered(1, TotalCredits(lines), k);
  }

  lemma SplitDeltasAreValid(host: Host, wallets: map<string, Option<string>>, lines: seq<StatementLine>, amount: int)
    requires SplitEpochDelta(host, Resolved(wallets, lines), amount).Ok? && ValidWallets(host, wallets, lines)
    ensures ValidDeltas(host, SplitEpochDelta(host, Resolved(wallets, lines), amount).value)
  {
    hide Resolved, SplitEpochDelta, IsBlank;
    var deltas := SplitEpochDelta(host, Resolved(wallets, lines), amount).value;
    SplitPaysLines(host, wallets, lines, amount);
    SplitIsNonNegative(host, Resolved(wallets, lines), amount);
    forall i | 0 <= i < |deltas| ensures host.isAddress(deltas[i].account) && deltas[i].deltaAmount >= 0 {
      assert deltas[i] in deltas;
      assert PaysLine(wallets, lines, deltas[i].claimantKey, deltas[i].account);
      var l :| l in lines && l.creditAmount > 0 && l.claimantKey == deltas[i].claimantKey;
      assert IsLinked(wallets, l);
    }
  }

  /** With every positive line linked, nothing of the mint is held back. */
  lemma {:induction false} AllLinked(wallets: map<string, Option<string>>, lines: seq<StatementLine>)
    requires forall l :: l in lines ==> !Pending(wallets, l)
    ensures AllocatedCredits(Resolved(wallets, lines)) == TotalCredits(lines)
  {
    if |lines| > 0 {
      var init, last := lines[..|lines| - 1], lines[|lines| - 1];
      assert lines == init + [last] && last in lines;
      AllLinked(wallets, init);
      if last.creditAmount > 0 {
        var all := Resolved(wallets, lines);
        assert all[..|all| - 1] == Resolved(wallets, init);
      }
    }
  }

  /** The money path, end to end. An epoch with a positive pool and some surviving receipt units signs
      a statement of exactly the pool. When `k` base units are minted a credit and some positive line
      has a wallet, the epoch has a distribution; every account then holds what it held before plus
      `k` times the credits of the statement lines paid into it, whoever else is unlinked; the mint is
      `k` times the linked credits, and `k` times the pool exactly when nobody is unlinked. */
  lemma EveryoneIsPaid(
    host: Host, manifest: Manifest, weights: seq<Weight>, overrides: seq<SubjectOverride>, j: Join, pool: int, k: int,
    priors: seq<Prior>, wallets: map<string, Option<string>>, account: string)
    requires NonNegativeUnits(weights, overrides) && ValidShares(j) && Statement(weights, overrides, j, pool).Ok?
    requires pool > 0 && Surviving(j, OverriddenWeights(weights, overrides, j.less)) > 0
    requires k > 0 && ValidManifest(host, manifest) && ValidPriors(host, priors) && WalletsAreAddresses(host, wallets)
    requires exists l :: l in Signed(Statement(weights, overrides, j, pool).value) && IsLinked(wallets, l)
    ensures var lines := Signed(Statement(weights, overrides, j, pool).value);
      BuiltFrom(host, manifest, lines, k * pool, priors, wallets)
    ensures var lines := Signed(Statement(weights, overrides, j, pool).value);
      var d := CumulativeEpoch(host, manifest, lines, k * pool, priors, wallets).value.distribution.value;
      && UnitsOf(LeafPieces(d.leaves), account) == UnitsOf(PriorPieces(priors), account) + k * CreditsInto(wallets, lines, account)
      && 0 < d.mintDelta == k * AllocatedCredits(Resolved(wallets, lines)) <= k * pool
      && (d.mintDelta == k * pool <==> forall l :: l in lines ==> !Pending(wallets, l))
  {
    hide Statement, OverriddenWeights, ValidManifest, ValidPriors, CumulativeEpoch, LeafPieces, PriorPieces, CreditsInto, Resolved, IsBlank;
    var lines := Signed(Statement(weights, overrides, j, pool).value);
    SignedStatement(weights, overrides, j, pool);
    assert ValidWallets(host, wallets, lines);
    MultipleIsDistributed(host, manifest, lines, k, priors, wallets);
    AccountEarnsItsCredits(host, manifest, lines, k, priors, wallets, account);
    hide Signed, Surviving, ValidShares, WalletsAreAddresses, ValidWallets;
    SomeResolvedIff(wallets, lines);
    LinkedShare(wallets, lines);
    hide Pending, IsLinked;
    var linked := AllocatedCredits(Resolved(wallets, lines));
    MulOrdered(linked, pool, k);
    MulOrdered(0, linked, k);
  }

  lemma LinkedShare(wallets: map<string, Option<string>>, lines: seq<StatementLine>)
    ensures 0 <= AllocatedCredits(Resolved(wallets, lines)) <= TotalCredits(lines)
    ensures |Resolved(wallets, lines)| > 0 ==> AllocatedCredits(Resolved(wallets, lines)) > 0
    ensures AllocatedCredits(Resolved(wallets, lines)) == TotalCredits(lines) <==> forall l :: l in lines ==> !Pending(wallets, l)
  {
    ResolvedCredits(wallets, lines, "");
    ZeroCredits(wallets, lines, "");
    if l :| l in lines && Pending(wallets, l) {
      PendingCredits(wallets, lines, l);
    } else {
      AllLinked(wallets, lines);
    }
    hide Resolved, TotalCredits, AllocatedCredits;
  }

  lemma {:induction false} PendingCredits(wallets: map<string, Option<string>>, lines: seq<StatementLine>, l: StatementLine)
    requires l in lines && Pending(wallets, l)
    ensures AllocatedCredits(Resolved(wallets, lines)) < TotalCredits(lines)
  {
    var init, last := lines[..|lines| - 1], lines[|lines| - 1];
    assert lines == init + [last];
    ResolvedCredits(wallets, init, "");
    if l in init {
      PendingCredits(wallets, init, l);
    }
    var all := Resolved(wallets, lines);
    if IsLinked(wallets, last) {
      assert all[..|all| - 1] == Resolved(wallets, init);
    }
  }
}
