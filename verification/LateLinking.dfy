/** What an epoch mints and for whom: only the resolved credits' worth, and each claimant's part
    independent of which other claimants have linked a wallet yet. */
module LateLinking {
  import opened Wrappers
  import opened Collation
  import opened Integers
  import opened Grouping
  import opened LargestRemainder
  import opened TokenDistribution
  import opened TokenConservation
  import opened CumulativeBalances
  import opened EpochDistribution

  // ----- the resolved allocations -----

  ghost predicate WalletBacked(wallets: map<string, Option<string>>, a: Allocation) {
    a.creditAmount > 0 && WalletOf(wallets, a.claimantKey) == Some(a.account)
  }

  lemma {:induction false} ResolvedAreWalletBacked(wallets: map<string, Option<string>>, lines: seq<StatementLine>)
    ensures forall i :: 0 <= i < |Resolved(wallets, lines)| ==> WalletBacked(wallets, Resolved(wallets, lines)[i])
  {
    if |lines| > 0 {
      ResolvedAreWalletBacked(wallets, lines[..|lines| - 1]);
    }
  }

  /** The credits of the lines that pay into one account. */
  function CreditsInto(wallets: map<string, Option<string>>, lines: seq<StatementLine>, account: string): int {
    if |lines| == 0 then 0
    else
      var last := lines[|lines| - 1];
      CreditsInto(wallets, lines[..|lines| - 1], account)
        + if last.creditAmount > 0 && WalletOf(wallets, last.claimantKey).Some?
             && Lower(WalletOf(wallets, last.claimantKey).value) == account
          then last.creditAmount else 0
  }

  /** The account a claimant is paid into, or none. */
  function PaidInto(wallets: map<string, Option<string>>): string -> string {
    (key: string) => if WalletOf(wallets, key).Some? then Lower(WalletOf(wallets, key).value) else ""
  }

  // ----- regrouping claimants into accounts -----

  function MapKeys(ps: seq<Piece>, f: string -> string): seq<Piece> {
    seq(|ps|, i requires 0 <= i < |ps| => Piece(f(ps[i].key), ps[i].units))
  }

  function KeysInto(m: map<string, int>, f: string -> string, account: string): map<string, int> {
    map k | k in m && f(k) == account :: m[k]
  }

  lemma KeysIntoBump(m: map<string, int>, key: string, units: int, f: string -> string, account: string)
    ensures KeysInto(Bump(m, key, units), f, account)
         == if f(key) == account then Bump(KeysInto(m, f, account), key, units) else KeysInto(m, f, account)
  {
  }

  lemma {:induction false} RegroupedUnits(ps: seq<Piece>, f: string -> string, account: string)
    ensures UnitsOf(MapKeys(ps, f), account) == Total(KeysInto(Tally(ps), f, account))
  {
    if |ps| == 0 {
      assert KeysInto(map[], f, account) == map[];
    } else {
      var init, last := ps[..|ps| - 1], ps[|ps| - 1];
      RegroupedUnits(init, f, account);
      assert MapKeys(ps, f)[..|ps| - 1] == MapKeys(init, f);
      KeysIntoBump(Tally(init), last.key, last.units, f, account);
      TotalBump(KeysInto(Tally(init), f, account), last.key, last.units);
    }
  }

  /** Grouping by claimant first does not change what an account receives. */
  lemma GroupThenRegroup(ps: seq<Piece>, less: Order, f: string -> string, account: string)
    ensures UnitsOf(MapKeys(KeyPieces(Tally(ps), less), f), account) == UnitsOf(MapKeys(ps, f), account)
  {
    RegroupedUnits(ps, f, account);
    RegroupedUnits(KeyPieces(Tally(ps), less), f, account);
    KeyPiecesSpec(Tally(ps), less);
  }

  lemma {:induction false} ResolvedCredits(wallets: map<string, Option<string>>, lines: seq<StatementLine>, account: string)
    ensures UnitsOf(MapKeys(CreditPieces(Resolved(wallets, lines)), PaidInto(wallets)), account) == CreditsInto(wallets, lines, account)
    ensures Units(CreditPieces(Resolved(wallets, lines))) == AllocatedCredits(Resolved(wallets, lines)) <= TotalCredits(lines)
    ensures AllocatedCredits(Resolved(wallets, lines)) >= 0
  {
    if |lines| > 0 {
      var init, last := lines[..|lines| - 1], lines[|lines| - 1];
      ResolvedCredits(wallets, init, account);
      var before, after := CreditPieces(Resolved(wallets, init)), CreditPieces(Resolved(wallets, lines));
      if last.creditAmount > 0 && WalletOf(wallets, last.claimantKey).Some? {
        var all := Resolved(wallets, lines);
        assert all[..|all| - 1] == Resolved(wallets, init);
        assert after == before + [Piece(last.claimantKey, last.creditAmount)];
        assert MapKeys(after, PaidInto(wallets))[..|after| - 1] == MapKeys(before, PaidInto(wallets));
        assert after[..|after| - 1] == before;
      }
    }
  }

  // ----- exact multiples split exactly -----

  lemma ExactMultiple(k: int, weight: int, divisor: int, a: int)
    requires divisor > 0 && (weight * (k * divisor) % divisor == 0 ==> a * divisor == weight * (k * divisor))
    ensures a == k * weight
  {
    assert weight * (k * divisor) == (k * weight) * divisor;
    ExactQuotient(k * weight, divisor);
    MulOrdered(a, k * weight, divisor);
    if a < k * weight {
      MulOrdered(a, k * weight, divisor);
    } else {
      MulOrdered(k * weight, a, divisor);
    }
  }

  /** When the amount is `k` times the credits being split, every claimant gets exactly `k` times
      its credits: no rounding, hence no influence of one claimant on another. */
  lemma SplitOfMultiple(host: Host, allocations: seq<Allocation>, k: int, i: nat)
    requires var credits := Units(CreditPieces(allocations));
      SplitEpochDelta(host, allocations, k * credits).Ok? && i < |SplitEpochDelta(host, allocations, k * credits).value|
    ensures var deltas := SplitEpochDelta(host, allocations, k * Units(CreditPieces(allocations))).value;
      && i < |CreditItems(allocations, host.less)|
      && deltas[i].claimantKey == CreditItems(allocations, host.less)[i].key
      && deltas[i].deltaAmount == k * CreditItems(allocations, host.less)[i].weight
  {
    var credits, items := Units(CreditPieces(allocations)), CreditItems(allocations, host.less);
    SplitIsApportion(host, allocations, k * credits);
    ItemCredits(allocations, host.less, i);
    Quota(items, k * credits, credits, host.less, i);
    var deltas := SplitEpochDelta(host, allocations, k * credits).value;
    assert deltas[i].deltaAmount == AmountsOf(deltas)[i];
    ExactMultiple(k, items[i].weight, credits, deltas[i].deltaAmount);
  }

  // ----- each account's part of an epoch -----

  lemma {:induction false} GroupedAccounts(host: Host, wallets: map<string, Option<string>>, allocations: seq<Allocation>)
    requires forall i :: 0 <= i < |allocations| ==> WalletBacked(wallets, allocations[i])
    requires GroupAllocations(host, allocations).Ok?
    ensures forall k :: k in GroupAllocations(host, allocations).value ==>
      WalletOf(wallets, k) == Some(GroupAllocations(host, allocations).value[k].account)
  {
    if |allocations| > 0 {
      GroupedAccounts(host, wallets, allocations[..|allocations| - 1]);
      assert WalletBacked(wallets, allocations[|allocations| - 1]);
    }
  }

  /** A claimant of a statement never maps to two accounts. */
  lemma {:induction false} NoMultipleAccounts(host: Host, wallets: map<string, Option<string>>, allocations: seq<Allocation>)
    requires forall i :: 0 <= i < |allocations| ==> WalletBacked(wallets, allocations[i])
    ensures GroupAllocations(host, allocations).Err? ==>
      GroupAllocations(host, allocations).error.EmptyClaimantKey? || GroupAllocations(host, allocations).error.InvalidAccount?
  {
    if |allocations| > 0 {
      var init := allocations[..|allocations| - 1];
      NoMultipleAccounts(host, wallets, init);
      assert WalletBacked(wallets, allocations[|allocations| - 1]);
      if GroupAllocations(host, init).Ok? {
        GroupedAccounts(host, wallets, init);
      }
    }
  }

  ghost function Scaled(ps: seq<Piece>, k: int): seq<Piece> {
    seq(|ps|, i requires 0 <= i < |ps| => Piece(ps[i].key, k * ps[i].units))
  }

  lemma {:induction false} ScaledUnits(ps: seq<Piece>, k: int, key: string)
    ensures UnitsOf(Scaled(ps, k), key) == k * UnitsOf(ps, key)
  {
    if |ps| > 0 {
      ScaledUnits(ps[..|ps| - 1], k, key);
      assert Scaled(ps, k)[..|ps| - 1] == Scaled(ps[..|ps| - 1], k);
    }
  }

  lemma DeltaPiecesOfMultiple(host: Host, wallets: map<string, Option<string>>, lines: seq<StatementLine>, k: int)
    requires var allocations := Resolved(wallets, lines);
      SplitEpochDelta(host, allocations, k * Units(CreditPieces(allocations))).Ok?
    ensures var allocations := Resolved(wallets, lines);
      var credits := CreditPieces(allocations);
      DeltaPieces(SplitEpochDelta(host, allocations, k * Units(credits)).value)
        == Scaled(MapKeys(KeyPieces(Tally(credits), host.less), PaidInto(wallets)), k)
  {
    var allocations := Resolved(wallets, lines);
    var credits := CreditPieces(allocations);
    var deltas := SplitEpochDelta(host, allocations, k * Units(credits)).value;
    SplitIsApportion(host, allocations, k * Units(credits));
    ResolvedAreWalletBacked(wallets, lines);
    GroupedAccounts(host, wallets, allocations);
    GroupedCredits(host, allocations);
    forall i | 0 <= i < |deltas|
      ensures DeltaPieces(deltas)[i] == Scaled(MapKeys(KeyPieces(Tally(credits), host.less), PaidInto(wallets)), k)[i]
    {
      SplitOfMultiple(host, allocations, k, i);
      DeltaAccounts(host, allocations, k * Units(credits), i);
    }
  }

  lemma DeltaAccounts(host: Host, allocations: seq<Allocation>, amount: int, i: nat)
    requires SplitEpochDelta(host, allocations, amount).Ok? && i < |SplitEpochDelta(host, allocations, amount).value|
    ensures var d, m := SplitEpochDelta(host, allocations, amount).value[i], GroupAllocations(host, allocations).value;
      d.claimantKey in m && d.account == m[d.claimantKey].account
  {
    hide Apportion, ItemsOf, TokenAmounts, CreditPieces;
    var m := GroupAllocations(host, allocations).value;
    SplitIsApportion(host, allocations, amount);
    GroupedCredits(host, allocations);
    TokenAmountsAre(m, amount, host.less);
    ItemsOfAt(Credits(m), host.less, i);
  }

  /** Late linking. When the mint is `k` times the statement's credits, every account's new tokens
      are exactly `k` times the credits of its own lines, whichever other claimants are unresolved:
      its cumulative amount is what it had before plus those, its leaf, if it has one, shows them as
      the delta, and the epoch mints exactly `k` times the resolved credits. */
  lemma AccountEarnsItsCredits(
    host: Host, manifest: Manifest, lines: seq<StatementLine>, k: int, priors: seq<Prior>,
    wallets: map<string, Option<string>>, account: string)
    requires k > 0
    requires var r := CumulativeEpoch(host, manifest, lines, k * TotalCredits(lines), priors, wallets);
      r.Ok? && r.value.distribution.Some?
    ensures var d := CumulativeEpoch(host, manifest, lines, k * TotalCredits(lines), priors, wallets).value.distribution.value;
      && d.mintDelta == k * AllocatedCredits(Resolved(wallets, lines))
      && UnitsOf(LeafPieces(d.leaves), account) == UnitsOf(PriorPieces(priors), account) + k * CreditsInto(wallets, lines, account)
      && forall i :: 0 <= i < |d.leaves| && Lower(d.leaves[i].account) == account ==>
           d.leaves[i].deltaAmount == k * CreditsInto(wallets, lines, account)
  {
    hide Lower, Resolved, CreditPieces, SplitEpochDelta, Cumulative, LeafPieces;
    MintOfMultiple(host, lines, k, wallets);
    var deltas := EpochDeltas(host, k * TotalCredits(lines), lines, Resolved(wallets, lines)).value;
    DeltasOfMultiple(host, lines, k, wallets, account);
    hide EpochDeltas, DeltaPieces, PriorPieces;
    CumulativeSpec(host, manifest, priors, deltas);
    LeafPerAccount(host, manifest, priors, deltas, account);
    UnitsAppend(PriorPieces(priors), DeltaPieces(deltas), account);
  }

  lemma DeltasOfMultiple(host: Host, lines: seq<StatementLine>, k: int, wallets: map<string, Option<string>>, account: string)
    requires k > 0 && EpochDeltas(host, k * TotalCredits(lines), lines, Resolved(wallets, lines)).Ok?
    ensures var deltas := EpochDeltas(host, k * TotalCredits(lines), lines, Resolved(wallets, lines)).value;
      UnitsOf(DeltaPieces(deltas), account) == k * CreditsInto(wallets, lines, account)
  {
    hide Lower;
    var credits := CreditPieces(Resolved(wallets, lines));
    MintOfMultiple(host, lines, k, wallets);
    ResolvedCredits(wallets, lines, account);
    hide EpochDeltas;
    if EpochDeltas(host, k * TotalCredits(lines), lines, Resolved(wallets, lines)).value == [] {
      ZeroCredits(wallets, lines, account);
    } else {
      DeltaPiecesOfMultiple(host, wallets, lines, k);
      ScaledUnits(MapKeys(KeyPieces(Tally(credits), host.less), PaidInto(wallets)), k, account);
      GroupThenRegroup(credits, host.less, PaidInto(wallets), account);
    }
  }

  lemma {:induction false} ZeroCredits(wallets: map<string, Option<string>>, lines: seq<StatementLine>, account: string)
    ensures 0 <= CreditsInto(wallets, lines, account) <= AllocatedCredits(Resolved(wallets, lines))
    ensures AllocatedCredits(Resolved(wallets, lines)) > 0 <==> |Resolved(wallets, lines)| > 0
  {
    if |lines| > 0 {
      ZeroCredits(wallets, lines[..|lines| - 1], account);
      var all := Resolved(wallets, lines);
      if |all| > 0 && all != Resolved(wallets, lines[..|lines| - 1]) {
        assert all[..|all| - 1] == Resolved(wallets, lines[..|lines| - 1]);
      }
    }
  }

  /** The scaled mint of an exact multiple is exact. */
  lemma MintOfMultiple(host: Host, lines: seq<StatementLine>, k: int, wallets: map<string, Option<string>>)
    requires k > 0 && EpochDeltas(host, k * TotalCredits(lines), lines, Resolved(wallets, lines)).Ok?
    ensures var allocations := Resolved(wallets, lines);
      var r := EpochDeltas(host, k * TotalCredits(lines), lines, allocations);
      && DeltaSum(r.value) == k * AllocatedCredits(allocations)
      && (r == SplitEpochDelta(host, allocations, k * Units(CreditPieces(allocations)))
          || (r.value == [] && AllocatedCredits(allocations) == 0))
  {
    var allocations := Resolved(wallets, lines);
    var total, resolved := TotalCredits(lines), AllocatedCredits(allocations);
    ResolvedCredits(wallets, lines, "");
    ZeroCredits(wallets, lines, "");
    if total > 0 {
      ScaledMultiple(k, total, resolved);
      hide Resolved, TotalCredits, AllocatedCredits, CreditPieces, SplitEpochDelta;
      if resolved > 0 {
        SplitConservesAmount(host, allocations, k * resolved);
      }
    }
  }

  lemma ScaledMultiple(k: int, total: int, resolved: int)
    requires k > 0 && total > 0 && resolved >= 0
    ensures BigDiv(k * total * resolved, total) == k * resolved >= 0
    ensures resolved > 0 <==> k * resolved > 0
  {
    assert k * total * resolved == (k * resolved) * total;
    MulOrdered(0, resolved, k);
    MulOrdered(0, k * resolved, total);
    BigDivFloors(k * total * resolved, total);
    ExactQuotient(k * resolved, total);
  }

  lemma ScaledMint(mint: int, total: int, resolved: int)
    requires mint >= 0 && total > 0 && 0 <= resolved <= total
    ensures 0 <= BigDiv(mint * resolved, total) <= mint
  {
    MulOrdered(0, resolved, mint);
    BigDivFloors(mint * resolved, total);
    MulOrdered(resolved, total, mint);
    LargerQuotient(mint, 0, mint * resolved / total, mint * resolved % total, total);
  }

  lemma ResolvedMintBounds(mintDelta: int, lines: seq<StatementLine>, wallets: map<string, Option<string>>)
    requires mintDelta >= 0
    ensures var mint := ResolvedMint(mintDelta, lines, Resolved(wallets, lines));
      0 <= mint <= mintDelta && (|Resolved(wallets, lines)| == 0 ==> mint == 0)
  {
    ResolvedCredits(wallets, lines, "");
    ZeroCredits(wallets, lines, "");
    if TotalCredits(lines) > 0 {
      ScaledMint(mintDelta, TotalCredits(lines), AllocatedCredits(Resolved(wallets, lines)));
      assert mintDelta * 0 == 0;
    }
  }

  lemma DeltasSumToMint(host: Host, mintDelta: int, lines: seq<StatementLine>, wallets: map<string, Option<string>>)
    requires mintDelta >= 0 && EpochDeltas(host, mintDelta, lines, Resolved(wallets, lines)).Ok?
    ensures DeltaSum(EpochDeltas(host, mintDelta, lines, Resolved(wallets, lines)).value)
         == ResolvedMint(mintDelta, lines, Resolved(wallets, lines))
  {
    hide ResolvedMint, Resolved, SplitEpochDelta;
    var allocations := Resolved(wallets, lines);
    ResolvedMintBounds(mintDelta, lines, wallets);
    if |allocations| > 0 && ResolvedMint(mintDelta, lines, allocations) > 0 {
      SplitConservesAmount(host, allocations, ResolvedMint(mintDelta, lines, allocations));
    }
  }

  /** In general an epoch mints the resolved credits' share of the mint, rounded down, and so never
      more than the mint. */
  lemma MintNeverExceeds(
    host: Host, manifest: Manifest, lines: seq<StatementLine>, mintDelta: int, priors: seq<Prior>, wallets: map<string, Option<string>>)
    requires var r := CumulativeEpoch(host, manifest, lines, mintDelta, priors, wallets); r.Ok? && r.value.distribution.Some?
    ensures var d := CumulativeEpoch(host, manifest, lines, mintDelta, priors, wallets).value.distribution.value;
      var resolved, total := AllocatedCredits(Resolved(wallets, lines)), TotalCredits(lines);
      && 0 <= d.mintDelta <= mintDelta
      && (if total > 0 then d.mintDelta * total <= mintDelta * resolved < (d.mintDelta + 1) * total else d.mintDelta == 0)
      && d.cumulativeTotal == PriorSum(priors) + d.mintDelta
  {
    hide ResolvedMint, Resolved, EpochDeltas, Cumulative, TotalCredits, AllocatedCredits;
    CumulativeSpec(host, manifest, priors, EpochDeltas(host, mintDelta, lines, Resolved(wallets, lines)).value);
    DeltasSumToMint(host, mintDelta, lines, wallets);
    ResolvedMintBounds(mintDelta, lines, wallets);
    MintRounds(mintDelta, lines, wallets);
  }

  lemma MintRounds(mintDelta: int, lines: seq<StatementLine>, wallets: map<string, Option<string>>)
    requires mintDelta >= 0
    ensures var mint, resolved, total := ResolvedMint(mintDelta, lines, Resolved(wallets, lines)), AllocatedCredits(Resolved(wallets, lines)), TotalCredits(lines);
      if total > 0 then mint * total <= mintDelta * resolved < (mint + 1) * total else mint == 0
  {
    ResolvedCredits(wallets, lines, "");
    var resolved, total := AllocatedCredits(Resolved(wallets, lines)), TotalCredits(lines);
    hide Resolved, TotalCredits, AllocatedCredits, CreditPieces;
    if total > 0 {
      MulOrdered(0, resolved, mintDelta);
      BigDivFloors(mintDelta * resolved, total);
      RoundedDown(mintDelta * resolved, total);
    }
  }

  lemma RoundedDown(a: int, b: int)
    requires b > 0
    ensures (a / b) * b <= a < (a / b + 1) * b
  {
    assert a == b * (a / b) + a % b;
  }
}
