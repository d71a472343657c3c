/** Whose leaf it is: the claimant, the spelling of the account and the receipts that the cumulative
    build puts on a leaf, said on its priors and deltas. */
module LeafNames {
  import opened Wrappers
  import opened Collation
  import opened Grouping
  import opened TokenDistribution
  import opened CumulativeBalances

  /** Delta `i` brings new tokens to a case-folded account. */
  predicate Brings(deltas: seq<Delta>, i: int, account: string) {
    0 <= i < |deltas| && deltas[i].deltaAmount != 0 && Lower(deltas[i].account) == account
  }

  /** And says for which claimant. */
  predicate Names(deltas: seq<Delta>, i: int, account: string) {
    Brings(deltas, i, account) && deltas[i].claimantKey != ""
  }

  ghost predicate FirstName(deltas: seq<Delta>, account: string, claimantKey: string) {
    exists i :: Names(deltas, i, account) && deltas[i].claimantKey == claimantKey && forall m :: 0 <= m < i ==> !Names(deltas, m, account)
  }

  ghost predicate FirstBringer(deltas: seq<Delta>, account: string, spelling: string) {
    exists i :: Brings(deltas, i, account) && deltas[i].account == spelling && forall m :: 0 <= m < i ==> !Brings(deltas, m, account)
  }

  predicate Holds(priors: seq<Prior>, i: int, account: string) {
    0 <= i < |priors| && Lower(priors[i].account) == account
  }

  ghost predicate FirstHolder(priors: seq<Prior>, account: string, spelling: string) {
    exists i :: Holds(priors, i, account) && priors[i].account == spelling && forall m :: 0 <= m < i ==> !Holds(priors, m, account)
  }

  /** The account as first spelled: by a prior, else by a delta that brings tokens. */
  ghost predicate FirstSpelling(priors: seq<Prior>, deltas: seq<Delta>, account: string, spelling: string) {
    if exists i :: Holds(priors, i, account) then FirstHolder(priors, account, spelling) else FirstBringer(deltas, account, spelling)
  }

  ghost predicate FromReceipt(deltas: seq<Delta>, account: string, receiptId: string) {
    exists i :: Brings(deltas, i, account) && receiptId in deltas[i].receiptIds
  }

  /** What the fold knows of an account. */
  ghost predicate Describes(b: Balance, priors: seq<Prior>, deltas: seq<Delta>, account: string) {
    && (if b.claimantKey == "" then forall i :: !Names(deltas, i, account) else FirstName(deltas, account, b.claimantKey))
    && FirstSpelling(priors, deltas, account, b.account)
    && forall r :: r in b.receiptIds <==> FromReceipt(deltas, account, r)
  }

  ghost predicate Known(m: map<string, Balance>, priors: seq<Prior>, deltas: seq<Delta>, account: string) {
    if account in m then Describes(m[account], priors, deltas, account)
    else (forall i :: !Holds(priors, i, account)) && (forall i :: !Brings(deltas, i, account))
  }

  // ----- one more prior -----

  lemma {:induction false} PriorsKnown(host: Host, priors: seq<Prior>, account: string)
    requires FoldPriors(host, priors).Ok?
    ensures Known(FoldPriors(host, priors).value, priors, [], account)
    ensures account in FoldPriors(host, priors).value ==> FoldPriors(host, priors).value[account].claimantKey == ""
  {
    hide Lower;
    if |priors| > 0 {
      var init, last := priors[..|priors| - 1], priors[|priors| - 1];
      var m, n := FoldPriors(host, init).value, FoldPriors(host, priors).value;
      PriorsKnown(host, init, account);
      forall i ensures Holds(priors, i, account) <==> Holds(init, i, account) || (i == |init| && Lower(last.account) == account) {
        assert 0 <= i < |init| ==> init[i] == priors[i];
      }
      if account in m {
        assert n[account].account == m[account].account;
        assert exists i :: Holds(init, i, account);
        var i :| Holds(init, i, account) && init[i].account == m[account].account && forall k :: 0 <= k < i ==> !Holds(init, k, account);
        assert Holds(priors, i, account) && priors[i].account == n[account].account;
      } else if account in n {
        assert Holds(priors, |init|, account) && priors[|init|].account == n[account].account;
      }
    }
  }

  // ----- one more delta -----

  lemma BringsGrow(deltas: seq<Delta>, last: Delta, account: string, i: int)
    ensures Brings(deltas + [last], i, account)
       <==> Brings(deltas, i, account) || (i == |deltas| && last.deltaAmount != 0 && Lower(last.account) == account)
    ensures Names(deltas + [last], i, account)
       <==> Names(deltas, i, account) || (i == |deltas| && last.deltaAmount != 0 && Lower(last.account) == account && last.claimantKey != "")
    ensures 0 <= i < |deltas| ==> (deltas + [last])[i] == deltas[i]
  {
  }

  lemma NameGrows(deltas: seq<Delta>, last: Delta, account: string, before: string)
    requires if before == "" then forall i :: !Names(deltas, i, account) else FirstName(deltas, account, before)
    ensures var brings := last.deltaAmount != 0 && Lower(last.account) == account;
      var after := if brings && before == "" then last.claimantKey else before;
      if after == "" then forall i :: !Names(deltas + [last], i, account) else FirstName(deltas + [last], account, after)
  {
    hide Lower;
    var all := deltas + [last];
    forall i
      ensures Names(all, i, account)
         <==> Names(deltas, i, account) || (i == |deltas| && last.deltaAmount != 0 && Lower(last.account) == account && last.claimantKey != "")
    {
      BringsGrow(deltas, last, account, i);
    }
    if before != "" {
      var i :| Names(deltas, i, account) && deltas[i].claimantKey == before && forall m :: 0 <= m < i ==> !Names(deltas, m, account);
      assert Names(all, i, account) && all[i].claimantKey == before;
    } else if last.deltaAmount != 0 && Lower(last.account) == account && last.claimantKey != "" {
      assert Names(all, |deltas|, account) && all[|deltas|].claimantKey == last.claimantKey;
    }
  }

  lemma SpellingGrows(priors: seq<Prior>, deltas: seq<Delta>, last: Delta, account: string, spelling: string)
    requires FirstSpelling(priors, deltas, account, spelling)
    ensures FirstSpelling(priors, deltas + [last], account, spelling)
  {
    hide Lower, Holds;
    var all := deltas + [last];
    if !exists i :: Holds(priors, i, account) {
      var i :| Brings(deltas, i, account) && deltas[i].account == spelling && forall m :: 0 <= m < i ==> !Brings(deltas, m, account);
      forall m | 0 <= m <= i ensures Brings(all, m, account) <==> Brings(deltas, m, account) {
        BringsGrow(deltas, last, account, m);
      }
      assert all[i].account == spelling;
    }
  }

  lemma ReceiptsGrow(deltas: seq<Delta>, last: Delta, account: string, receiptId: string)
    ensures FromReceipt(deltas + [last], account, receiptId)
       <==> FromReceipt(deltas, account, receiptId)
            || (last.deltaAmount != 0 && Lower(last.account) == account && receiptId in last.receiptIds)
  {
    hide Lower;
    var all := deltas + [last];
    if i :| Brings(deltas, i, account) && receiptId in deltas[i].receiptIds {
      assert Brings(all, i, account) && receiptId in all[i].receiptIds;
    }
    if last.deltaAmount != 0 && Lower(last.account) == account && receiptId in last.receiptIds {
      assert Brings(all, |deltas|, account) && receiptId in all[|deltas|].receiptIds;
    }
    if i :| Brings(all, i, account) && receiptId in all[i].receiptIds {
      assert i < |deltas| ==> Brings(deltas, i, account) && receiptId in deltas[i].receiptIds;
    }
  }

  lemma DeltaKnown(host: Host, m: map<string, Balance>, priors: seq<Prior>, deltas: seq<Delta>, last: Delta, account: string)
    requires Known(m, priors, deltas, account) && AddDelta(host, m, last).Ok?
    ensures Known(AddDelta(host, m, last).value, priors, deltas + [last], account)
  {
    var n, brings := AddDelta(host, m, last).value, last.deltaAmount != 0 && Lower(last.account) == account;
    hide Lower, FirstName, FirstSpelling, FromReceipt, Names;
    forall r {
      ReceiptsGrow(deltas, last, account, r);
    }
    if account in m {
      NameGrows(deltas, last, account, m[account].claimantKey);
      SpellingGrows(priors, deltas, last, account, m[account].account);
    } else {
      forall i ensures Brings(deltas + [last], i, account) <==> i == |deltas| && brings {
        BringsGrow(deltas, last, account, i);
      }
      if brings {
        NewlyKnown(priors, deltas, last, account);
      }
    }
  }

  lemma NewlyKnown(priors: seq<Prior>, deltas: seq<Delta>, last: Delta, account: string)
    requires (forall i :: !Holds(priors, i, account)) && (forall i :: !Brings(deltas, i, account))
    requires last.deltaAmount != 0 && Lower(last.account) == account
    ensures Describes(Balance(last.account, last.claimantKey, 0, last.deltaAmount, last.receiptIds), priors, deltas + [last], account)
  {
    hide Lower, Holds;
    var all := deltas + [last];
    forall i ensures Brings(all, i, account) <==> i == |deltas| {
      BringsGrow(deltas, last, account, i);
    }
    NameGrows(deltas, last, account, "");
    assert Brings(all, |deltas|, account) && all[|deltas|].account == last.account;
    forall r ensures r in last.receiptIds <==> FromReceipt(all, account, r) {
      ReceiptsGrow(deltas, last, account, r);
    }
  }

  lemma {:induction false} DeltasKnown(host: Host, start: map<string, Balance>, priors: seq<Prior>, deltas: seq<Delta>, account: string)
    requires Known(start, priors, [], account) && FoldDeltas(host, start, deltas).Ok?
    ensures Known(FoldDeltas(host, start, deltas).value, priors, deltas, account)
  {
    hide Lower, Known, AddDelta;
    if |deltas| > 0 {
      var init, last := deltas[..|deltas| - 1], deltas[|deltas| - 1];
      assert deltas == init + [last];
      DeltasKnown(host, start, priors, init, account);
      DeltaKnown(host, FoldDeltas(host, start, init).value, priors, init, last, account);
    }
  }

  // ----- the leaf -----

  /** A leaf names the claimant of the first delta that brought its account tokens and names one, and
      the account itself if there is none; it spells the account as it was first spelled; and its
      receipts are those of the deltas that brought it tokens. */
  lemma LeafIsNamed(host: Host, manifest: Manifest, priors: seq<Prior>, deltas: seq<Delta>, i: nat)
    requires Cumulative(host, manifest, priors, deltas).Ok? && i < |Cumulative(host, manifest, priors, deltas).value.leaves|
    ensures var leaf := Cumulative(host, manifest, priors, deltas).value.leaves[i];
      var account := Lower(leaf.account);
      && (if exists k :: Names(deltas, k, account) then FirstName(deltas, account, leaf.claimantKey)
          else leaf.claimantKey == "account:" + account)
      && FirstSpelling(priors, deltas, account, leaf.account)
      && forall r :: r in leaf.receiptIds <==> FromReceipt(deltas, account, r)
  {
    hide Lower, FirstName, FirstSpelling, FromReceipt, FoldPriors, FoldDeltas, Names, Brings;
    var start := FoldPriors(host, priors).value;
    var m := FoldDeltas(host, start, deltas).value;
    FoldSpec(host, priors, deltas, "");
    LeafAt(host, m, host.less, i);
    var leaf := Leaves(m, host.less)[i];
    var account := Lower(leaf.account);
    LeafFrom(host, m, host.less, i);
    PriorsKnown(host, priors, account);
    DeltasKnown(host, start, priors, deltas, account);
    hide Leaves;
    if m[account].claimantKey != "" {
      SomeName(deltas, account, m[account].claimantKey);
    }
  }

  lemma SomeName(deltas: seq<Delta>, account: string, claimantKey: string)
    requires FirstName(deltas, account, claimantKey)
    ensures exists k :: Names(deltas, k, account)
  {
    hide Names;
  }

  lemma LeafFrom(host: Host, m: map<string, Balance>, less: Order, i: nat)
    requires WellFolded(host, m) && i < |Leaves(m, less)|
    ensures var leaf, key := Leaves(m, less)[i], Lower(Leaves(m, less)[i].account);
      && key in m && leaf.account == m[key].account && leaf.receiptIds == m[key].receiptIds
      && leaf.claimantKey == if m[key].claimantKey == "" then "account:" + key else m[key].claimantKey
  {
    var keys := SortedKeys((set k | k in m && m[k].prior + m[k].delta > 0), less);
    assert keys[i] in keys;
    hide Lower;
  }
}
