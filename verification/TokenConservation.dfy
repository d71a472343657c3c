/** What the token package promises: TOKEN_DISTRIBUTION_CONSERVES_AMOUNT and
    TOKEN_DISTRIBUTION_DETERMINISTIC for the split by credits. */
module TokenConservation {
  import opened Wrappers
  import opened Collation
  import opened Integers
  import opened Grouping
  import opened LargestRemainder
  import opened TokenDistribution

  /** The claimants' credits, as the items to round. */
  function CreditItems(allocations: seq<Allocation>, less: Order): seq<Item> {
    ItemsOf(Tally(CreditPieces(allocations)), less)
  }

  function AmountsOf(deltas: seq<Delta>): seq<int> {
    seq(|deltas|, i requires 0 <= i < |deltas| => deltas[i].deltaAmount)
  }

  lemma {:induction false} DeltaSumIsSum(deltas: seq<Delta>)
    ensures DeltaSum(deltas) == Sum(AmountsOf(deltas))
  {
    if |deltas| > 0 {
      DeltaSumIsSum(deltas[..|deltas| - 1]);
      assert AmountsOf(deltas)[..|deltas| - 1] == AmountsOf(deltas[..|deltas| - 1]);
    }
  }

  lemma {:induction false} PositivePieces(ps: seq<Piece>, key: string)
    requires forall i :: 0 <= i < |ps| ==> ps[i].units > 0
    ensures UnitsOf(ps, key) >= 0 && (Mentions(ps, key) ==> UnitsOf(ps, key) > 0)
    ensures |ps| > 0 ==> Units(ps) > 0
  {
    if |ps| > 0 {
      var n := |ps| - 1;
      PositivePieces(ps[..n], key);
      if i :| 0 <= i < |ps| && ps[i].key == key {
        assert i < n ==> ps[..n][i].key == key;
      }
    }
  }

  /** Credits that group without error are positive, and there are some unless all were zero. */
  lemma CreditsArePositive(host: Host, allocations: seq<Allocation>)
    requires GroupAllocations(host, allocations).Ok?
    ensures NonNegative(Tally(CreditPieces(allocations)))
    ensures GroupAllocations(host, allocations).value != map[] ==> Total(Tally(CreditPieces(allocations))) > 0
  {
    var ps := CreditPieces(allocations);
    GroupedCredits(host, allocations);
    TallyConserves(ps);
    TallyAt(ps);
    PositivePieces(ps, "");
    forall k | k in Tally(ps) ensures Tally(ps)[k] >= 0 {
      PositivePieces(ps, k);
      assert At(Tally(ps), k) == UnitsOf(ps, k);
    }
    var m := GroupAllocations(host, allocations).value;
    if m != map[] {
      assert m.Keys != {};
      var k :| k in m;
      assert k in Credits(m);
      assert Mentions(ps, k);
    }
  }

  /** The split is the largest-remainder rounding of the claimants' credits, line by line; its only
      failures are a non-positive amount, a malformed allocation, or no positive credit at all. */
  lemma SplitIsApportion(host: Host, allocations: seq<Allocation>, mintDelta: int)
    requires mintDelta > 0 && GroupAllocations(host, allocations).Ok? && GroupAllocations(host, allocations).value != map[]
    ensures SplitEpochDelta(host, allocations, mintDelta).Ok?
    ensures var deltas, items := SplitEpochDelta(host, allocations, mintDelta).value, CreditItems(allocations, host.less);
      && Proportional(items, mintDelta, WeightSum(items)) && DistinctKeys(items)
      && |deltas| == |items| && AmountsOf(deltas) == Apportion(items, mintDelta, WeightSum(items), host.less)
      && (forall i :: 0 <= i < |items| ==> deltas[i].claimantKey == items[i].key)
  {
    GroupedCredits(host, allocations);
    CreditsArePositive(host, allocations);
    var credits := Tally(CreditPieces(allocations));
    ItemsOfTotal(credits, host.less);
    assert Proportional(ItemsOf(credits, host.less), mintDelta, Total(credits));
    hide Apportion, CreditPieces, Proportional, DistinctKeys;
    TokenAmountsAre(GroupAllocations(host, allocations).value, mintDelta, host.less);
  }

  lemma TokenAmountsAre(m: map<string, Grouped>, amount: int, less: Order)
    requires WeightSum(ItemsOf(Credits(m), less)) > 0
    ensures var items, r := ItemsOf(Credits(m), less), TokenAmounts(m, amount, less);
      && r.Ok? && |r.value| == |items| && AmountsOf(r.value) == Apportion(items, amount, WeightSum(items), less)
      && (forall i :: 0 <= i < |items| ==> r.value[i].claimantKey == items[i].key)
      && (forall i :: 0 <= i < |items| && items[i].key in m ==> r.value[i].account == m[items[i].key].account)
  {
    hide ItemsOf, WeightSum, ShareOf, Bonuses;
  }

  lemma SplitIsNonNegative(host: Host, allocations: seq<Allocation>, amount: int)
    requires SplitEpochDelta(host, allocations, amount).Ok?
    ensures forall d :: d in SplitEpochDelta(host, allocations, amount).value ==> d.deltaAmount >= 0
  {
    SplitIsApportion(host, allocations, amount);
    var items, deltas := CreditItems(allocations, host.less), SplitEpochDelta(host, allocations, amount).value;
    forall i | 0 <= i < |deltas| ensures deltas[i].deltaAmount >= 0 {
      assert deltas[i].deltaAmount == AmountsOf(deltas)[i];
      ShareBounds(items, amount, WeightSum(items), i);
    }
  }

  /** TOKEN_DISTRIBUTION_CONSERVES_AMOUNT: a split that succeeds hands out exactly the amount. */
  lemma SplitConservesAmount(host: Host, allocations: seq<Allocation>, amount: int)
    requires SplitEpochDelta(host, allocations, amount).Ok?
    ensures DeltaSum(SplitEpochDelta(host, allocations, amount).value) == amount
  {
    SplitIsApportion(host, allocations, amount);
    var items := CreditItems(allocations, host.less);
    DeltaSumIsSum(SplitEpochDelta(host, allocations, amount).value);
    Exact(items, amount, WeightSum(items), host.less);
  }

  /** The manifest's `totalAllocated` is its `distributionAmount`. */
  lemma MerkleAllocatesAll(host: Host, manifest: Manifest, amount: int, allocations: seq<Allocation>)
    requires MerkleAmounts(host, manifest, amount, allocations).Ok?
    ensures MerkleAmounts(host, manifest, amount, allocations).value.totalAllocated == amount
  {
    SplitConservesAmount(host, allocations, amount);
  }

  /** No split of the same amount into integers is closer to the exact proportional shares. */
  lemma SplitIsOptimal(host: Host, allocations: seq<Allocation>, amount: int, other: seq<int>)
    requires SplitEpochDelta(host, allocations, amount).Ok?
    requires |other| == |CreditItems(allocations, host.less)| && Sum(other) == amount
    ensures var items, deltas := CreditItems(allocations, host.less), SplitEpochDelta(host, allocations, amount).value;
      && |deltas| == |items|
      && Deviation(items, amount, WeightSum(items), AmountsOf(deltas)) <= Deviation(items, amount, WeightSum(items), other)
  {
    SplitIsApportion(host, allocations, amount);
    var items := CreditItems(allocations, host.less);
    Optimal(items, amount, WeightSum(items), host.less, other);
  }

  /** More credits never earn fewer tokens, equal credits earn amounts at most one unit apart, the
      smaller claimant key being served first, and every amount is the exact share rounded down or up. */
  lemma SplitIsFair(host: Host, allocations: seq<Allocation>, amount: int, i: nat, j: nat)
    requires SplitEpochDelta(host, allocations, amount).Ok?
    requires i < |SplitEpochDelta(host, allocations, amount).value| && j < |SplitEpochDelta(host, allocations, amount).value|
    ensures var deltas, ps := SplitEpochDelta(host, allocations, amount).value, CreditPieces(allocations);
      var ci, cj := UnitsOf(ps, deltas[i].claimantKey), UnitsOf(ps, deltas[j].claimantKey);
      && (ci > cj ==> deltas[i].deltaAmount >= deltas[j].deltaAmount)
      && (ci == cj ==> Abs(deltas[i].deltaAmount - deltas[j].deltaAmount) <= 1)
      && (ci == cj && host.less(deltas[i].claimantKey, deltas[j].claimantKey) ==> deltas[i].deltaAmount >= deltas[j].deltaAmount)
      && Units(ps) > 0 && 0 <= deltas[i].deltaAmount - ci * amount / Units(ps) <= 1
  {
    SplitIsApportion(host, allocations, amount);
    var items, deltas := CreditItems(allocations, host.less), SplitEpochDelta(host, allocations, amount).value;
    assert deltas[i].deltaAmount == AmountsOf(deltas)[i] && deltas[j].deltaAmount == AmountsOf(deltas)[j];
    hide Apportion, CreditItems, SplitEpochDelta, AmountsOf;
    ItemCredits(allocations, host.less, i);
    ItemCredits(allocations, host.less, j);
    Quota(items, amount, WeightSum(items), host.less, i);
    Fair(items, amount, WeightSum(items), host.less, i, j);
    if items[i].weight == items[j].weight && host.less(items[i].key, items[j].key) {
      TieByKey(items, amount, WeightSum(items), host.less, i, j);
    }
  }

  /** Every amount, exactly. */
  lemma SplitAmountIs(host: Host, allocations: seq<Allocation>, amount: int, i: nat)
    requires SplitEpochDelta(host, allocations, amount).Ok? && i < |SplitEpochDelta(host, allocations, amount).value|
    ensures var d, m := SplitEpochDelta(host, allocations, amount).value[i], Tally(CreditPieces(allocations));
      && Total(m) > 0 && d.claimantKey in m
      && d.deltaAmount == m[d.claimantKey] * amount / Total(m)
           + if |AheadIn(m, amount, Total(m), host.less, d.claimantKey)| < amount - Total(Quotients(m, amount, Total(m))) then 1 else 0
  {
    SplitIsApportion(host, allocations, amount);
    GroupedSome(host, allocations, amount);
    CreditsArePositive(host, allocations);
    var deltas := SplitEpochDelta(host, allocations, amount).value;
    assert deltas[i].deltaAmount == AmountsOf(deltas)[i];
    hide Apportion, SplitEpochDelta, AmountsOf, AheadIn, Quotients;
    MapAmountIs(Tally(CreditPieces(allocations)), amount, host.less, i);
  }

  lemma ItemCredits(allocations: seq<Allocation>, less: Order, i: nat)
    requires i < |CreditItems(allocations, less)|
    ensures CreditItems(allocations, less)[i].weight == UnitsOf(CreditPieces(allocations), CreditItems(allocations, less)[i].key)
    ensures WeightSum(CreditItems(allocations, less)) == Units(CreditPieces(allocations))
  {
    var ps := CreditPieces(allocations);
    TallyAt(ps);
    TallyConserves(ps);
    ItemsOfTotal(Tally(ps), less);
    var keys := SortedKeys(Tally(ps).Keys, less);
    assert keys[i] in keys;
    assert At(Tally(ps), keys[i]) == UnitsOf(ps, keys[i]);
  }

  // ----- when a split succeeds -----

  ghost predicate WellFormed(host: Host, allocations: seq<Allocation>) {
    forall a :: a in allocations ==> !IsBlank(a.claimantKey) && host.isAddress(a.account) && a.creditAmount >= 0
  }

  /** The lines of a claimant with positive credit agree on its account, up to case. */
  ghost predicate OneAccountEach(allocations: seq<Allocation>) {
    forall a, b :: a in allocations && b in allocations && a.creditAmount > 0 && b.creditAmount > 0 && a.claimantKey == b.claimantKey
      ==> Lower(a.account) == Lower(b.account)
  }

  ghost predicate SomeCredit(allocations: seq<Allocation>) {
    exists a :: a in allocations && a.creditAmount > 0
  }

  /** The groups are the claimants of the positive lines, with their accounts. */
  ghost predicate GroupsOf(m: map<string, Grouped>, allocations: seq<Allocation>) {
    && (forall a :: a in allocations && a.creditAmount > 0 ==>
          a.claimantKey in m && Lower(m[a.claimantKey].account) == Lower(a.account))
    && (forall k :: k in m ==> exists a :: a in allocations && a.creditAmount > 0 && a.claimantKey == k && a.account == m[k].account)
  }

  lemma GroupsGrow(host: Host, m: map<string, Grouped>, allocations: seq<Allocation>, a: Allocation)
    requires GroupsOf(m, allocations) && GroupOne(host, m, a).Ok?
    ensures GroupsOf(GroupOne(host, m, a).value, allocations + [a])
  {
    hide Lower, IsBlank;
    var n, all := GroupOne(host, m, a).value, allocations + [a];
    forall k | k in n ensures exists b :: b in all && b.creditAmount > 0 && b.claimantKey == k && b.account == n[k].account {
      if k in m {
        var b :| b in allocations && b.creditAmount > 0 && b.claimantKey == k && b.account == m[k].account;
        assert b in all;
      } else {
        assert a in all;
      }
    }
  }

  /** Grouping succeeds exactly on well-formed lines with one account per claimant. */
  lemma {:induction false} GroupsIff(host: Host, allocations: seq<Allocation>)
    ensures GroupAllocations(host, allocations).Ok? <==> WellFormed(host, allocations) && OneAccountEach(allocations)
    ensures GroupAllocations(host, allocations).Ok? ==> GroupsOf(GroupAllocations(host, allocations).value, allocations)
  {
    if |allocations| > 0 {
      var init, last := allocations[..|allocations| - 1], allocations[|allocations| - 1];
      assert allocations == init + [last];
      GroupsIff(host, init);
      if GroupAllocations(host, init).Ok? {
        if GroupAllocations(host, allocations).Ok? {
          GroupsGrow(host, GroupAllocations(host, init).value, init, last);
        }
      }
      hide GroupOne, Lower, IsBlank, GroupsOf;
    }
  }

  /** A split succeeds exactly for a positive amount and well-formed lines, one account per claimant,
      with some positive credit among them. */
  lemma SplitSucceedsIff(host: Host, allocations: seq<Allocation>, amount: int)
    ensures SplitEpochDelta(host, allocations, amount).Ok? <==>
      amount > 0 && WellFormed(host, allocations) && OneAccountEach(allocations) && SomeCredit(allocations)
  {
    hide WellFormed, OneAccountEach, GroupAllocations, TokenAmounts;
    GroupsIff(host, allocations);
    if GroupAllocations(host, allocations).Ok? {
      var m := GroupAllocations(host, allocations).value;
      assert m != map[] <==> SomeCredit(allocations) by {
        if m != map[] {
          assert m.Keys != {};
          var k :| k in m;
        }
      }
      if amount > 0 && m != map[] {
        SplitIsApportion(host, allocations, amount);
      }
    }
  }

  /** The error is the first bad line's, and says what is wrong with it. */
  lemma {:induction false} GroupingFails(host: Host, allocations: seq<Allocation>) returns (i: nat)
    requires GroupAllocations(host, allocations).Err?
    ensures i < |allocations| && WellFormed(host, allocations[..i]) && OneAccountEach(allocations[..i])
    ensures var a := allocations[i];
      match GroupAllocations(host, allocations).error
      case EmptyClaimantKey => IsBlank(a.claimantKey)
      case InvalidAccount(key) => key == a.claimantKey && !IsBlank(key) && !host.isAddress(a.account)
      case NegativeCredit(key) => key == a.claimantKey && !IsBlank(key) && host.isAddress(a.account) && a.creditAmount < 0
      case MultipleAccounts(key) =>
        && key == a.claimantKey && host.isAddress(a.account) && a.creditAmount > 0
        && exists b :: b in allocations[..i] && b.creditAmount > 0 && b.claimantKey == key && Lower(b.account) != Lower(a.account)
      case _ => false
  {
    hide Lower, IsBlank;
    var n := |allocations| - 1;
    var init := allocations[..n];
    GroupsIff(host, init);
    if GroupAllocations(host, init).Err? {
      hide WellFormed, OneAccountEach;
      i := GroupingFails(host, init);
      assert init[..i] == allocations[..i] && init[i] == allocations[i];
    } else {
      i := n;
      var m, a := GroupAllocations(host, init).value, allocations[n];
      if a.claimantKey in m {
        var b :| b in init && b.creditAmount > 0 && b.claimantKey == a.claimantKey && b.account == m[a.claimantKey].account;
      }
    }
  }

  // ----- what a split depends on -----

  /** TOKEN_DISTRIBUTION_DETERMINISTIC: which claimants are paid and how much, and whether the split
      succeeds at all, depends only on the credits of each claimant, not on the order of the lines
      or on how credits are split over them. */
  lemma SplitDependsOnCredits(host: Host, a: seq<Allocation>, b: seq<Allocation>, amount: int)
    requires WellFormed(host, a) && WellFormed(host, b) && OneAccountEach(a) && OneAccountEach(b)
    requires forall k :: Mentions(CreditPieces(a), k) <==> Mentions(CreditPieces(b), k)
    requires forall k :: UnitsOf(CreditPieces(a), k) == UnitsOf(CreditPieces(b), k)
    ensures var x, y := SplitEpochDelta(host, a, amount), SplitEpochDelta(host, b, amount);
      && x.Ok? == y.Ok?
      && (x.Ok? ==>
            && AmountsOf(x.value) == AmountsOf(y.value)
            && forall i :: 0 <= i < |x.value| ==> x.value[i].claimantKey == y.value[i].claimantKey)
  {
    hide SplitEpochDelta, CreditPieces, Apportion, Proportional, UnitsOf, Tally, WellFormed, OneAccountEach;
    SplitSucceedsIff(host, a, amount);
    SplitSucceedsIff(host, b, amount);
    CreditHasPieces(host, a);
    CreditHasPieces(host, b);
    EmptyMentions(CreditPieces(a));
    EmptyMentions(CreditPieces(b));
    if SplitEpochDelta(host, a, amount).Ok? {
      GroupsIff(host, a);
      GroupsIff(host, b);
      GroupedSome(host, a, amount);
      GroupedSome(host, b, amount);
      hide Mentions;
      SplitIsApportion(host, a, amount);
      SplitIsApportion(host, b, amount);
      TallyDeterminedByUnits(CreditPieces(a), CreditPieces(b));
    }
  }

  lemma GroupedSome(host: Host, allocations: seq<Allocation>, amount: int)
    requires SplitEpochDelta(host, allocations, amount).Ok?
    ensures amount > 0 && GroupAllocations(host, allocations).Ok? && GroupAllocations(host, allocations).value != map[]
  {
  }

  lemma {:induction false} CreditHasPieces(host: Host, allocations: seq<Allocation>)
    requires WellFormed(host, allocations)
    ensures SomeCredit(allocations) <==> |CreditPieces(allocations)| > 0
  {
    hide IsBlank;
    if |allocations| > 0 {
      var init, last := allocations[..|allocations| - 1], allocations[|allocations| - 1];
      assert allocations == init + [last] && last in allocations;
      CreditHasPieces(host, init);
      if a :| a in init && a.creditAmount > 0 {
        assert a in allocations;
      }
    }
  }

  function OneCredit(): Allocation -> seq<Piece> {
    (a: Allocation) => if a.creditAmount == 0 then [] else [Piece(a.claimantKey, a.creditAmount)]
  }

  lemma {:induction false} CreditPiecesFlat(allocations: seq<Allocation>)
    ensures CreditPieces(allocations) == FlatMap(allocations, OneCredit())
  {
    if |allocations| > 0 {
      CreditPiecesFlat(allocations[..|allocations| - 1]);
    }
  }

  /** In particular, the order of the lines does not matter: a rearrangement is split exactly when
      the original is, into the same amounts. */
  lemma SplitIgnoresOrder(host: Host, a: seq<Allocation>, b: seq<Allocation>, amount: int)
    requires multiset(a) == multiset(b)
    ensures var x, y := SplitEpochDelta(host, a, amount), SplitEpochDelta(host, b, amount);
      && x.Ok? == y.Ok?
      && (x.Ok? ==>
            && AmountsOf(x.value) == AmountsOf(y.value)
            && forall i :: 0 <= i < |x.value| ==> x.value[i].claimantKey == y.value[i].claimantKey)
  {
    hide SplitEpochDelta, CreditPieces, UnitsOf, AmountsOf;
    SplitSucceedsIff(host, a, amount);
    SplitSucceedsIff(host, b, amount);
    forall x ensures x in a <==> x in b {
      assert x in multiset(a) <==> x in multiset(b);
    }
    assert WellFormed(host, a) == WellFormed(host, b) && OneAccountEach(a) == OneAccountEach(b) && SomeCredit(a) == SomeCredit(b);
    CreditPiecesFlat(a);
    CreditPiecesFlat(b);
    forall k
      ensures UnitsOf(CreditPieces(a), k) == UnitsOf(CreditPieces(b), k)
      ensures Mentions(CreditPieces(a), k) <==> Mentions(CreditPieces(b), k)
    {
      FlatMapPermute(a, b, OneCredit(), k);
      FlatMapMentionsPermute(a, b, OneCredit(), k);
      FlatMapMentionsPermute(b, a, OneCredit(), k);
    }
    if WellFormed(host, a) && OneAccountEach(a) {
      hide WellFormed, OneAccountEach, SomeCredit, Mentions;
      SplitDependsOnCredits(host, a, b, amount);
    }
  }

  // ----- whose amount it is -----

  predicate HasCredit(allocations: seq<Allocation>, i: int, key: string) {
    0 <= i < |allocations| && allocations[i].claimantKey == key && allocations[i].creditAmount > 0
  }

  /** The account on the claimant's first positive line. */
  ghost predicate FirstAccount(allocations: seq<Allocation>, key: string, account: string) {
    exists i :: HasCredit(allocations, i, key) && allocations[i].account == account && forall m :: 0 <= m < i ==> !HasCredit(allocations, m, key)
  }

  ghost predicate FromLine(allocations: seq<Allocation>, key: string, receiptId: string) {
    exists i :: HasCredit(allocations, i, key) && receiptId in allocations[i].receiptIds
  }

  lemma LinesGrow(init: seq<Allocation>, last: Allocation, key: string, r: string)
    ensures FromLine(init + [last], key, r)
       <==> FromLine(init, key, r) || (last.claimantKey == key && last.creditAmount > 0 && r in last.receiptIds)
  {
    var all := init + [last];
    if i :| HasCredit(init, i, key) && r in init[i].receiptIds {
      assert HasCredit(all, i, key) && all[i] == init[i];
    }
    if last.claimantKey == key && last.creditAmount > 0 && r in last.receiptIds {
      assert HasCredit(all, |init|, key) && all[|init|] == last;
    }
    if i :| HasCredit(all, i, key) && r in all[i].receiptIds {
      assert i < |init| ==> HasCredit(init, i, key) && r in init[i].receiptIds;
    }
  }

  lemma FirstAccountGrows(init: seq<Allocation>, last: Allocation, key: string, account: string)
    ensures FirstAccount(init, key, account) ==> FirstAccount(init + [last], key, account)
    ensures (forall i :: !HasCredit(init, i, key)) && last.claimantKey == key && last.creditAmount > 0 ==> FirstAccount(init + [last], key, last.account)
  {
    var all := init + [last];
    forall i ensures HasCredit(all, i, key) <==> HasCredit(init, i, key) || (i == |init| && last.claimantKey == key && last.creditAmount > 0) {
      assert 0 <= i < |init| ==> all[i] == init[i];
    }
    if i :| HasCredit(init, i, key) && init[i].account == account && forall m :: 0 <= m < i ==> !HasCredit(init, m, key) {
      assert HasCredit(all, i, key) && all[i].account == account;
    }
    if (forall i :: !HasCredit(init, i, key)) && last.claimantKey == key && last.creditAmount > 0 {
      assert HasCredit(all, |init|, key) && all[|init|].account == last.account;
    }
  }

  /** What a claimant's group holds besides its credits. */
  lemma {:induction false} GroupCarries(host: Host, allocations: seq<Allocation>, key: string)
    requires GroupAllocations(host, allocations).Ok?
    ensures var m := GroupAllocations(host, allocations).value;
      && (key in m <==> exists i :: HasCredit(allocations, i, key))
      && (key in m ==>
            && FirstAccount(allocations, key, m[key].account)
            && forall r :: r in m[key].receiptIds <==> FromLine(allocations, key, r))
  {
    hide Lower, IsBlank;
    if |allocations| > 0 {
      var init, last := allocations[..|allocations| - 1], allocations[|allocations| - 1];
      assert allocations == init + [last];
      GroupCarries(host, init, key);
      forall r {
        LinesGrow(init, last, key, r);
      }
      forall i ensures HasCredit(allocations, i, key) <==> HasCredit(init, i, key) || (i == |init| && last.claimantKey == key && last.creditAmount > 0) {
        assert 0 <= i < |init| ==> init[i] == allocations[i];
      }
      var m := GroupAllocations(host, init).value;
      FirstAccountGrows(init, last, key, if key in m then m[key].account else "");
      hide FirstAccount, FromLine, HasCredit;
      hide GroupOne;
    }
  }

  /** A split pays into the account on the claimant's first positive line, for exactly the receipts of
      its positive lines. */
  lemma SplitCarries(host: Host, allocations: seq<Allocation>, amount: int, i: nat)
    requires SplitEpochDelta(host, allocations, amount).Ok? && i < |SplitEpochDelta(host, allocations, amount).value|
    ensures var d := SplitEpochDelta(host, allocations, amount).value[i];
      && FirstAccount(allocations, d.claimantKey, d.account)
      && forall r :: r in d.receiptIds <==> FromLine(allocations, d.claimantKey, r)
  {
    hide FirstAccount, FromLine, Credits, GroupAllocations, ItemsOf;
    GroupedSome(host, allocations, amount);
    var m := GroupAllocations(host, allocations).value;
    SplitKeys(m, amount, host.less, i);
    GroupCarries(host, allocations, SplitEpochDelta(host, allocations, amount).value[i].claimantKey);
  }

  lemma SplitKeys(m: map<string, Grouped>, amount: int, less: Order, i: nat)
    requires TokenAmounts(m, amount, less).Ok? && i < |TokenAmounts(m, amount, less).value|
    ensures var d := TokenAmounts(m, amount, less).value[i];
      d.claimantKey in m && d.account == m[d.claimantKey].account && d.receiptIds == m[d.claimantKey].receiptIds
  {
    hide Apportion, ItemsOf, WeightSum;
    ItemsOfAt(Credits(m), less, i);
  }
}
