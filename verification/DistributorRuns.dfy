/** Whole runs of the cumulative distributor: epochs are finalized, their deltas minted, their roots
    published, and accounts claim, in any order the source allows.

    The distributor pays `cumulativeAmount - cumulativeClaimed` against the published root. A Merkle
    proof is modelled by what it proves, membership of the leaf in the published list. */
module DistributorRuns {
  import opened Wrappers
  import opened Collation
  import opened Grouping
  import opened TokenDistribution
  import opened TokenConservation
  import opened CumulativeBalances
  import opened EpochDistribution
  import opened LateLinking
  import opened WalletBacking

  datatype Ledger = Ledger(
    persisted: seq<Leaf>,        // leaves of the latest finalized manifest
    published: seq<Leaf>,        // leaves behind the distributor's current root
    owed: int,                   // deltas of finalized epochs not yet minted
    balance: int,                // tokens the distributor holds
    claimed: map<string, int>,   // cumulativeClaimed, by case-folded account
    received: map<string, int>)  // tokens the accounts hold

  datatype Action =
    | Finalize(manifest: Manifest, lines: seq<StatementLine>, mintDelta: int, wallets: map<string, Option<string>>)
    | Mint
    | Publish
    | Claim(account: string, cumulativeAmount: int)

  const GENESIS := Ledger([], [], 0, 0, map[], map[])

  /** Everything allocated to an account so far. */
  function Cumulated(leaves: seq<Leaf>, account: string): int {
    UnitsOf(LeafPieces(leaves), account)
  }

  predicate HasLeaf(leaves: seq<Leaf>, account: string, amount: int) {
    exists i :: 0 <= i < |leaves| && Lower(leaves[i].account) == Lower(account) && leaves[i].cumulativeAmount == amount
  }

  function Step(host: Host, s: Ledger, a: Action): Ledger {
    match a
    case Finalize(manifest, lines, mintDelta, wallets) =>
      (match CumulativeEpoch(host, manifest, lines, mintDelta, AsPriors(s.persisted), wallets)
       case Err(_) => s
       case Ok(outcome) =>
         match outcome.distribution
         case None => s
         case Some(d) => s.(persisted := d.leaves, owed := s.owed + d.mintDelta))
    // callers mint exactly the deltas, before or with the new root
    case Mint => s.(balance := s.balance + s.owed, owed := 0)
    case Publish => if s.owed == 0 then s.(published := s.persisted) else s
    case Claim(account, amount) =>
      var key := Lower(account);
      var pays := amount - At(s.claimed, key);
      if !HasLeaf(s.published, account, amount) then s          // InvalidProof
      else if pays <= 0 then s                                  // NothingToClaim
      else if s.balance < pays then s                           // the token transfer reverts
      else s.(claimed := s.claimed[key := amount], balance := s.balance - pays, received := Bump(s.received, key, pays))
  }

  function Run(host: Host, s: Ledger, actions: seq<Action>): Ledger {
    if |actions| == 0 then s else Step(host, Run(host, s, actions[..|actions| - 1]), actions[|actions| - 1])
  }

  // ----- the invariant -----

  ghost predicate OneLeafEach(leaves: seq<Leaf>) {
    && (forall i :: 0 <= i < |leaves| ==> leaves[i].cumulativeAmount > 0)
    && (forall i, j :: 0 <= i < j < |leaves| ==> Lower(leaves[i].account) != Lower(leaves[j].account))
  }

  /** Solvency: the tokens held and the tokens owed cover what is allocated and unclaimed, and the
      tokens held alone cover what the published root lets accounts claim. */
  ghost predicate Solvent(s: Ledger) {
    && s.balance + s.owed == LeafSum(s.persisted) - Total(s.claimed)
    && LeafSum(s.published) <= LeafSum(s.persisted) - s.owed
    && s.owed >= 0
  }

  ghost predicate Accounted(s: Ledger, account: string) {
    && 0 <= At(s.claimed, account) <= Cumulated(s.published, account) <= Cumulated(s.persisted, account)
    && At(s.received, account) == At(s.claimed, account)
  }

  ghost predicate Inv(s: Ledger) {
    && OneLeafEach(s.persisted) && OneLeafEach(s.published) && Solvent(s)
    && forall account :: Accounted(s, account)
  }

  lemma {:induction false} LeafAmount(leaves: seq<Leaf>, i: nat)
    requires OneLeafEach(leaves) && i < |leaves|
    ensures Cumulated(leaves, Lower(leaves[i].account)) == leaves[i].cumulativeAmount
  {
    var n := |leaves| - 1;
    assert LeafPieces(leaves)[..n] == LeafPieces(leaves[..n]);
    if i < n {
      LeafAmount(leaves[..n], i);
      assert leaves[..n][i] == leaves[i];
    } else {
      NoLeaf(leaves[..n], Lower(leaves[i].account));
    }
  }

  lemma {:induction false} NoLeaf(leaves: seq<Leaf>, account: string)
    requires forall i :: 0 <= i < |leaves| ==> Lower(leaves[i].account) != account
    ensures Cumulated(leaves, account) == 0
  {
    if |leaves| > 0 {
      var n := |leaves| - 1;
      assert LeafPieces(leaves)[..n] == LeafPieces(leaves[..n]);
      NoLeaf(leaves[..n], account);
    }
  }

  // ----- what each action keeps -----

  /** A successful epoch is a cumulative build on the prior balances. */
  lemma EpochBuilds(host: Host, manifest: Manifest, lines: seq<StatementLine>, mintDelta: int, priors: seq<Prior>, wallets: map<string, Option<string>>)
    requires var r := CumulativeEpoch(host, manifest, lines, mintDelta, priors, wallets); r.Ok? && r.value.distribution.Some?
    ensures var d, deltas := CumulativeEpoch(host, manifest, lines, mintDelta, priors, wallets).value.distribution.value,
                             EpochDeltas(host, mintDelta, lines, Resolved(wallets, lines));
      deltas.Ok? && Cumulative(host, manifest, priors, deltas.value) == Ok(d)
  {
  }

  lemma GrownLeaves(host: Host, manifest: Manifest, leaves: seq<Leaf>, deltas: seq<Delta>, account: string)
    requires Cumulative(host, manifest, AsPriors(leaves), deltas).Ok?
    ensures var d := Cumulative(host, manifest, AsPriors(leaves), deltas).value;
      && OneLeafEach(d.leaves) && d.mintDelta >= 0 && LeafSum(d.leaves) == LeafSum(leaves) + d.mintDelta
      && Cumulated(d.leaves, account) >= Cumulated(leaves, account)
  {
    hide Cumulative, Lower, KeyPieces, PositivePart, LeafPieces, UnitsOf, Tally;
    var d := Cumulative(host, manifest, AsPriors(leaves), deltas).value;
    CumulativeSpec(host, manifest, AsPriors(leaves), deltas);
    CumulativeFailsIff(host, manifest, AsPriors(leaves), deltas);
    PriorSumOfLeaves(leaves);
    LeafPerAccount(host, manifest, AsPriors(leaves), deltas, account);
    UnitsAppend(LeafPieces(leaves), DeltaPieces(deltas), account);
    PiecesNonNegative(DeltaPieces(deltas), account);
    NonNegativeDeltas(host, deltas);
    DistinctBack(d.leaves, host.less);
    hide StrictlyByAccount, DeltaPieces;
    assert forall i :: 0 <= i < |d.leaves| ==> AsPriors(d.leaves)[i].account == d.leaves[i].account;
  }

  lemma {:induction false} NonNegativeDeltas(host: Host, deltas: seq<Delta>)
    requires ValidDeltas(host, deltas)
    ensures DeltaSum(deltas) >= 0
  {
    if |deltas| > 0 {
      NonNegativeDeltas(host, deltas[..|deltas| - 1]);
    }
  }

  lemma FinalizeKeeps(host: Host, s: Ledger, a: Action, account: string)
    requires a.Finalize? && OneLeafEach(s.persisted) && Solvent(s) && Accounted(s, account)
    ensures var t := Step(host, s, a); OneLeafEach(t.persisted) && Solvent(t) && Accounted(t, account)
    ensures Cumulated(Step(host, s, a).persisted, account) >= Cumulated(s.persisted, account)
  {
    hide CumulativeEpoch, OneLeafEach, Cumulated, Cumulative, EpochDeltas, Resolved, AsPriors;
    var r := CumulativeEpoch(host, a.manifest, a.lines, a.mintDelta, AsPriors(s.persisted), a.wallets);
    if r.Ok? && r.value.distribution.Some? {
      EpochBuilds(host, a.manifest, a.lines, a.mintDelta, AsPriors(s.persisted), a.wallets);
      GrownLeaves(host, a.manifest, s.persisted, EpochDeltas(host, a.mintDelta, a.lines, Resolved(a.wallets, a.lines)).value, account);
    }
  }

  lemma ClaimKeeps(host: Host, s: Ledger, a: Action, account: string)
    requires a.Claim? && OneLeafEach(s.published) && Solvent(s) && Accounted(s, account)
    ensures var t := Step(host, s, a); Solvent(t) && Accounted(t, account)
  {
    var t, key := Step(host, s, a), Lower(a.account);
    if t != s {
      var i :| 0 <= i < |s.published| && Lower(s.published[i].account) == key && s.published[i].cumulativeAmount == a.cumulativeAmount;
      LeafAmount(s.published, i);
      TotalBump(s.claimed, key, a.cumulativeAmount - At(s.claimed, key));
      assert t.claimed == Bump(s.claimed, key, a.cumulativeAmount - At(s.claimed, key));
      hide Cumulated, Lower, OneLeafEach, HasLeaf;
    }
  }

  /** Every action keeps the ledger solvent and every account accounted for. */
  lemma StepKeepsInv(host: Host, s: Ledger, a: Action)
    requires Inv(s)
    ensures Inv(Step(host, s, a))
  {
    var t := Step(host, s, a);
    forall account ensures Accounted(t, account) && Solvent(t) && OneLeafEach(t.persisted) {
      assert Accounted(s, account);
      match a {
        case Finalize(_, _, _, _) => FinalizeKeeps(host, s, a, account);
        case Claim(_, _) => ClaimKeeps(host, s, a, account);
        case _ =>
      }
    }
    assert Accounted(t, "");
    hide CumulativeEpoch, OneLeafEach, Solvent, Accounted;
  }

  lemma {:induction false} RunKeepsInv(host: Host, s: Ledger, actions: seq<Action>)
    requires Inv(s)
    ensures Inv(Run(host, s, actions))
  {
    hide Inv, Step;
    if |actions| > 0 {
      RunKeepsInv(host, s, actions[..|actions| - 1]);
      StepKeepsInv(host, Run(host, s, actions[..|actions| - 1]), actions[|actions| - 1]);
    }
  }

  // ----- safety over whole runs -----

  ghost function Difference(m: map<string, int>, n: map<string, int>): map<string, int> {
    map k | k in m :: m[k] - At(n, k)
  }

  /** What each account can still claim against the published root. */
  ghost function Unclaimed(s: Ledger): map<string, int> {
    Difference(Tally(LeafPieces(s.published)), s.claimed)
  }

  lemma DifferenceWithout(m: map<string, int>, n: map<string, int>, key: string)
    ensures Difference(m - {key}, n - {key}) == Difference(m, n) - {key}
  {
  }

  lemma {:induction false} TotalDifference(m: map<string, int>, n: map<string, int>)
    requires forall k :: k in n && n[k] != 0 ==> k in m
    ensures Total(Difference(m, n)) == Total(m) - Total(n)
    decreases |m|
  {
    if m == map[] {
      assert Difference(m, n) == map[];
      AllZero(n);
    } else {
      var key :| key in m;
      assert (m - {key}).Keys == m.Keys - {key};
      TotalDifference(m - {key}, n - {key});
      DifferenceWithout(m, n, key);
      TotalRemove(m, key);
      TotalRemove(Difference(m, n), key);
      TotalWithout(n, key);
    }
  }

  lemma TotalWithout(n: map<string, int>, key: string)
    ensures Total(n) == At(n, key) + Total(n - {key})
  {
    if key in n {
      TotalRemove(n, key);
    } else {
      assert n - {key} == n;
    }
  }

  lemma {:induction false} AllZero(n: map<string, int>)
    requires forall k :: k in n ==> n[k] == 0
    ensures Total(n) == 0
    decreases |n|
  {
    if n != map[] {
      var k :| k in n;
      TotalRemove(n, k);
      assert (n - {k}).Keys == n.Keys - {k};
      AllZero(n - {k});
    }
  }

  /** In every reachable state the distributor holds at least what accounts can still claim, no
      account's claimable amount is negative, and once everything finalized is minted and published
      it holds exactly that. */
  lemma AlwaysSolvent(host: Host, actions: seq<Action>)
    ensures var s := Run(host, GENESIS, actions);
      && (forall k :: k in Unclaimed(s) ==> Unclaimed(s)[k] >= 0)
      && 0 <= Total(Unclaimed(s)) <= s.balance
      && (s.owed == 0 && s.published == s.persisted ==> s.balance == Total(Unclaimed(s)))
  {
    var s := Run(host, GENESIS, actions);
    RunKeepsInv(host, GENESIS, actions);
    var cumulated := Tally(LeafPieces(s.published));
    TallyAt(LeafPieces(s.published));
    TallyConserves(LeafPieces(s.published));
    LeafSumIsUnits(s.published);
    forall k
      ensures k in s.claimed && s.claimed[k] != 0 ==> k in cumulated
      ensures k in cumulated ==> cumulated[k] >= At(s.claimed, k)
    {
      assert Accounted(s, k) && At(cumulated, k) == Cumulated(s.published, k);
    }
    hide Run, Tally, Inv, Total;
    TotalDifference(cumulated, s.claimed);
    TotalNonNegative(Unclaimed(s));
  }

  /** Hence a claim of the published amount is never refused for lack of tokens: it pays out exactly
      what the account has earned and not yet received. */
  lemma ClaimAlwaysPays(host: Host, actions: seq<Action>, account: string, amount: int)
    requires HasLeaf(Run(host, GENESIS, actions).published, account, amount)
    ensures var s := Run(host, GENESIS, actions);
      var t, key := Step(host, s, Claim(account, amount)), Lower(account);
      && At(t.received, key) == At(t.claimed, key) == amount == Cumulated(s.published, key)
      && t.balance == s.balance - (amount - At(s.received, key))
  {
    var s := Run(host, GENESIS, actions);
    RunKeepsInv(host, GENESIS, actions);
    AlwaysSolvent(host, actions);
    ClaimableHeld(s, account, amount);
    hide Run, Unclaimed, Cumulated, Lower, HasLeaf;
    assert Accounted(s, Lower(account));
  }

  /** A published leaf is what its account has earned, and its unclaimed part is part of the total. */
  lemma ClaimableHeld(s: Ledger, account: string, amount: int)
    requires OneLeafEach(s.published) && HasLeaf(s.published, account, amount) && NonNegative(Unclaimed(s))
    ensures Cumulated(s.published, Lower(account)) == amount
    ensures amount - At(s.claimed, Lower(account)) <= Total(Unclaimed(s))
  {
    var key := Lower(account);
    var i :| 0 <= i < |s.published| && Lower(s.published[i].account) == key && s.published[i].cumulativeAmount == amount;
    LeafAmount(s.published, i);
    TallyAt(LeafPieces(s.published));
    assert LeafPieces(s.published)[i].key == key;
    assert Mentions(LeafPieces(s.published), key);
    assert At(Tally(LeafPieces(s.published)), key) == amount;
    TotalAtLeast(Unclaimed(s), key);
  }

  lemma TotalAtLeast(m: map<string, int>, key: string)
    requires NonNegative(m) && key in m
    ensures Total(m) >= m[key]
  {
    TotalRemove(m, key);
    TotalNonNegative(m - {key});
  }

  /** No account's cumulative amount ever falls, however a run continues. */
  lemma {:induction false} CumulativeNeverFalls(host: Host, s: Ledger, actions: seq<Action>, account: string)
    requires Inv(s)
    ensures Cumulated(Run(host, s, actions).persisted, account) >= Cumulated(s.persisted, account)
  {
    if |actions| > 0 {
      var init, a := actions[..|actions| - 1], actions[|actions| - 1];
      CumulativeNeverFalls(host, s, init, account);
      RunKeepsInv(host, s, init);
      var mid := Run(host, s, init);
      assert Accounted(mid, account);
      hide Cumulated, CumulativeEpoch, OneLeafEach;
      if a.Finalize? {
        FinalizeKeeps(host, mid, a, account);
      }
    }
  }

  // ----- what a run achieves -----

  /** A finalized epoch becomes claimable: once it is minted and its root published, the published
      leaves are the epoch's, the distributor has received exactly its mint and whatever was still
      owed, and nothing else has changed. Published too early, the root stays what it was. */
  lemma EpochBecomesClaimable(
    host: Host, s: Ledger, manifest: Manifest, lines: seq<StatementLine>, mintDelta: int, wallets: map<string, Option<string>>)
    requires BuiltFrom(host, manifest, lines, mintDelta, AsPriors(s.persisted), wallets)
    ensures var d := CumulativeEpoch(host, manifest, lines, mintDelta, AsPriors(s.persisted), wallets).value.distribution.value;
      var finalized := Step(host, s, Finalize(manifest, lines, mintDelta, wallets));
      && Step(host, Step(host, finalized, Mint), Publish)
         == s.(persisted := d.leaves, published := d.leaves, balance := s.balance + s.owed + d.mintDelta, owed := 0)
      && (finalized.owed != 0 ==> Step(host, finalized, Publish) == finalized)
  {
    hide CumulativeEpoch;
  }

  /** A claim pays exactly when it is for a published leaf that exceeds what was claimed and the
      tokens are there; it then pays the difference, and otherwise changes nothing. */
  lemma ClaimPaysIff(host: Host, s: Ledger, account: string, amount: int)
    ensures var key := Lower(account);
      var due := amount - At(s.claimed, key);
      Step(host, s, Claim(account, amount))
      == if (exists i :: 0 <= i < |s.published| && Lower(s.published[i].account) == key && s.published[i].cumulativeAmount == amount)
            && 0 < due <= s.balance
         then s.(claimed := s.claimed[key := amount], balance := s.balance - due, received := s.received[key := At(s.received, key) + due])
         else s
  {
    hide Lower;
  }

  // ----- claim schedules -----

  function WithoutClaims(actions: seq<Action>): seq<Action> {
    if |actions| == 0 then []
    else
      var rest, last := WithoutClaims(actions[..|actions| - 1]), actions[|actions| - 1];
      if last.Claim? then rest else rest + [last]
  }

  ghost predicate SameEpochs(s: Ledger, t: Ledger) {
    s.persisted == t.persisted && s.published == t.published && s.owed == t.owed
  }

  lemma EpochSteps(host: Host, s: Ledger, t: Ledger, a: Action)
    requires SameEpochs(s, t)
    ensures if a.Claim? then SameEpochs(Step(host, s, a), t) else SameEpochs(Step(host, s, a), Step(host, t, a))
  {
    hide CumulativeEpoch, HasLeaf;
  }

  lemma {:induction false} ClaimsDoNotSteer(host: Host, s: Ledger, actions: seq<Action>)
    ensures SameEpochs(Run(host, s, actions), Run(host, s, WithoutClaims(actions)))
  {
    hide Step;
    if |actions| > 0 {
      var init, last := actions[..|actions| - 1], actions[|actions| - 1];
      ClaimsDoNotSteer(host, s, init);
      EpochSteps(host, Run(host, s, init), Run(host, s, WithoutClaims(init)), last);
      assert !last.Claim? ==> WithoutClaims(actions)[..|WithoutClaims(init)|] == WithoutClaims(init);
    }
  }

  /** Schedule independence: two runs with the same epochs, whatever was claimed when, pay an
      account the same total once it has claimed its published amount. */
  lemma SchedulesPayTheSame(host: Host, p: seq<Action>, q: seq<Action>, account: string, amount: int)
    requires WithoutClaims(p) == WithoutClaims(q)
    requires HasLeaf(Run(host, GENESIS, p).published, account, amount)
    ensures var claim := Claim(account, amount);
      At(Run(host, GENESIS, p + [claim]).received, Lower(account)) == At(Run(host, GENESIS, q + [claim]).received, Lower(account)) == amount
  {
    ClaimsDoNotSteer(host, GENESIS, p);
    ClaimsDoNotSteer(host, GENESIS, q);
    ClaimAlwaysPays(host, p, account, amount);
    ClaimAlwaysPays(host, q, account, amount);
    var claim := Claim(account, amount);
    assert (p + [claim])[..|p + [claim]| - 1] == p && (q + [claim])[..|q + [claim]| - 1] == q;
  }
}
