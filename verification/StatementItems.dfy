/** The legacy per-user statement (rules.ts) and why the claimant statement refines it. */
module StatementItems {
  import opened Wrappers
  import opened Collation
  import opened Integers
  import opened Grouping
  import opened LargestRemainder
  import opened Claimants
  import opened Statements

  datatype UserAllocation = UserAllocation(userId: string, valuationUnits: int)

  datatype UserItem = UserItem(userId: string, totalUnits: int, share: string, amountCredits: int)

  function UserPieces(allocations: seq<UserAllocation>): seq<Piece> {
    seq(|allocations|, i requires 0 <= i < |allocations| => Piece(allocations[i].userId, allocations[i].valuationUnits))
  }

  function FirstNegativeUser(allocations: seq<UserAllocation>): Option<NegativeUnits> {
    if |allocations| == 0 then None
    else if allocations[0].valuationUnits < 0 then
      Some(NegativeUnits(allocations[0].userId, allocations[0].valuationUnits))
    else FirstNegativeUser(allocations[1..])
  }

  function ToItems(amounts: seq<Amounts>): seq<UserItem> {
    seq(|amounts|, i requires 0 <= i < |amounts| =>
      UserItem(amounts[i].key, amounts[i].units, amounts[i].share, amounts[i].credits))
  }

  function StatementItems(allocations: seq<UserAllocation>, pool: int, less: Order): Result<seq<UserItem>, NegativeUnits> {
    if |allocations| == 0 || pool <= 0 then Ok([])
    else
      match FirstNegativeUser(allocations)
      case Some(e) => Err(e)
      case None => Ok(ToItems(StatementAmounts(Tally(UserPieces(allocations)), pool, less)))
  }

  method ComputeStatementItems(allocations: seq<UserAllocation>, poolTotalCredits: int, less: Order)
    returns (r: Result<seq<UserItem>, NegativeUnits>)
    ensures r == StatementItems(allocations, poolTotalCredits, less)
  {
    if |allocations| == 0 || poolTotalCredits <= 0 {
      return Ok([]);
    }
    for i := 0 to |allocations|
      invariant FirstNegativeUser(allocations[i..]) == FirstNegativeUser(allocations)
    {
      assert allocations[i..][1..] == allocations[i + 1..];
      if allocations[i].valuationUnits < 0 {
        return Err(NegativeUnits(allocations[i].userId, allocations[i].valuationUnits));
      }
    }
    var userUnits: map<string, int> := map[];
    for i := 0 to |allocations|
      invariant userUnits == Tally(UserPieces(allocations[..i]))
    {
      assert UserPieces(allocations[..i + 1])[..i] == UserPieces(allocations[..i]);
      userUnits := Bump(userUnits, allocations[i].userId, allocations[i].valuationUnits);
    }
    assert allocations[..|allocations|] == allocations;
    var amounts := RoundUnits(userUnits, poolTotalCredits, less);
    r := Ok(ToItems(amounts));
  }

  // ----- the claimant statement on user claimants -----

  /** The order of two user claimants' keys is the order of their user ids. */
  ghost predicate PrefixCompatible(less: Order) {
    forall a, b {:trigger less(USER + a, USER + b)} :: less(USER + a, USER + b) <==> less(a, b)
  }

  /** The claimant allocations of a list of user allocations. */
  ghost predicate AsClaimants(users: seq<UserAllocation>, claimants: seq<FinalAllocation>) {
    && |claimants| == |users|
    && forall i :: 0 <= i < |users| ==>
         claimants[i].claimant == User(users[i].userId) && claimants[i].finalUnits == users[i].valuationUnits
  }

  ghost predicate RenamedMap(m: map<string, int>, n: map<string, int>) {
    && (forall k :: k in m ==> USER + k in n && n[USER + k] == m[k])
    && (forall k :: k in n ==> exists j :: j in m && k == USER + j)
  }

  lemma {:induction false} TallyRenamed(users: seq<UserAllocation>, claimants: seq<FinalAllocation>)
    requires AsClaimants(users, claimants)
    ensures RenamedMap(Tally(UserPieces(users)), Tally(Pieces(claimants)))
  {
    if |users| > 0 {
      var n := |users| - 1;
      TallyRenamed(users[..n], claimants[..n]);
      assert UserPieces(users)[..n] == UserPieces(users[..n]);
      assert Pieces(claimants)[..n] == Pieces(claimants[..n]);
      hide RenamedMap;
      BumpRenamed(Tally(UserPieces(users[..n])), Tally(Pieces(claimants[..n])), users[n].userId, users[n].valuationUnits);
    }
  }

  lemma BumpRenamed(m: map<string, int>, n: map<string, int>, id: string, units: int)
    requires RenamedMap(m, n)
    ensures RenamedMap(Bump(m, id, units), Bump(n, USER + id, units))
  {
    forall k ensures USER + k == USER + id <==> k == id {
      assert (USER + k)[5..] == k && (USER + id)[5..] == id;
    }
    assert id in m <==> USER + id in n;
  }

  ghost function Prefixed(keys: seq<string>): seq<string> {
    seq(|keys|, i requires 0 <= i < |keys| => USER + keys[i])
  }

  ghost function Rename(ss: seq<Share>): seq<Share> {
    seq(|ss|, i requires 0 <= i < |ss| => Share(USER + ss[i].key, ss[i].floor, ss[i].remainder))
  }

  lemma PrefixedMember(keys: seq<string>, key: string)
    ensures USER + key in Prefixed(keys) <==> key in keys
    ensures forall k :: k in Prefixed(keys) ==> exists j :: j in keys && k == USER + j
  {
    var p := Prefixed(keys);
    if USER + key in p {
      var i :| 0 <= i < |p| && p[i] == USER + key;
      assert p[i][5..] == keys[i];
    }
    if key in keys {
      var i :| 0 <= i < |keys| && keys[i] == key;
      assert p[i] == USER + key;
    }
  }

  lemma SortedKeysRenamed(m: map<string, int>, n: map<string, int>, less: Order)
    requires RenamedMap(m, n) && PrefixCompatible(less)
    ensures SortedKeys(n.Keys, less) == Prefixed(SortedKeys(m.Keys, less))
  {
    var s := SortedKeys(m.Keys, less);
    forall k ensures k in Prefixed(s) <==> k in n {
      PrefixedMember(s, "");
      if j :| j in m && k == USER + j {
        PrefixedMember(s, j);
      }
    }
    PrefixedOrdered(s, less) by {
      SortedKeysOrdered(m.Keys, less);
    }
    SortedKeysOrdered(n.Keys, less);
    SortedUnique(Prefixed(s), SortedKeys(n.Keys, less), less);
  }

  lemma PrefixedOrdered(keys: seq<string>, less: Order)
    requires StrictlySorted(keys, less) && PrefixCompatible(less)
    ensures StrictlySorted(Prefixed(keys), less)
  {
  }

  lemma {:induction false} InsertRenamed(x: Share, ss: seq<Share>, less: Order)
    requires PrefixCompatible(less)
    ensures Insert(Rename([x])[0], Rename(ss), Ranking(less)) == Rename(Insert(x, ss, Ranking(less)))
  {
    if |ss| > 0 {
      var init := ss[..|ss| - 1];
      InsertRenamed(x, init, less);
      assert Rename(ss)[..|ss| - 1] == Rename(init);
      assert RanksBefore(Rename([x])[0], Rename(ss)[|ss| - 1], less) == RanksBefore(x, ss[|ss| - 1], less);
    }
  }

  lemma {:induction false} RankedRenamed(ss: seq<Share>, less: Order)
    requires PrefixCompatible(less)
    ensures ByRemainder(Rename(ss), less) == Rename(ByRemainder(ss, less))
  {
    if |ss| > 0 {
      var init, last := ss[..|ss| - 1], ss[|ss| - 1];
      RankedRenamed(init, less);
      assert Rename(ss)[..|ss| - 1] == Rename(init);
      assert Rename([last])[0] == Rename(ss)[|ss| - 1];
      InsertRenamed(last, ByRemainder(init, less), less);
    }
  }

  lemma {:induction false} FloorSumRenamed(ss: seq<Share>)
    ensures FloorSum(Rename(ss)) == FloorSum(ss)
  {
    if |ss| > 0 {
      assert Rename(ss)[..|ss| - 1] == Rename(ss[..|ss| - 1]);
      FloorSumRenamed(ss[..|ss| - 1]);
    }
  }

  lemma BonusRenamed(ranked: seq<Share>, residual: int, key: string)
    ensures USER + key in BonusKeys(Rename(ranked), residual) <==> key in BonusKeys(ranked, residual)
  {
    var cut := Cut(residual, |ranked|);
    var a, b := ranked[..cut], Rename(ranked)[..cut];
    if key in KeySet(a) {
      var s :| s in a && s.key == key;
      var i :| 0 <= i < |a| && a[i] == s;
      assert b[i] in b && b[i].key == USER + key;
    }
    if USER + key in KeySet(b) {
      var s :| s in b && s.key == USER + key;
      var i :| 0 <= i < |b| && b[i] == s;
      assert (USER + key)[5..] == (USER + a[i].key)[5..];
      assert a[i] in a;
    }
  }

  ghost predicate SameItems(a: seq<Item>, b: seq<Item>) {
    |a| == |b| && forall i :: 0 <= i < |a| ==> b[i].key == USER + a[i].key && b[i].weight == a[i].weight
  }

  lemma ApportionRenamed(a: seq<Item>, b: seq<Item>, amount: int, divisor: int, less: Order)
    requires SameItems(a, b) && PrefixCompatible(less) && divisor != 0
    ensures Apportion(a, amount, divisor, less) == Apportion(b, amount, divisor, less)
  {
    var ss, tt := Shares(a, amount, divisor), Shares(b, amount, divisor);
    assert tt == Rename(ss);
    RankedRenamed(ss, less);
    FloorSumRenamed(ss);
    forall i | 0 <= i < |a|
      ensures Bonus(a[i].key, Bonuses(a, amount, divisor, less)) == Bonus(b[i].key, Bonuses(b, amount, divisor, less))
    {
      BonusRenamed(ByRemainder(ss, less), Residual(a, amount, divisor), a[i].key);
    }
  }

  lemma {:induction false} SameWeights(a: seq<Item>, b: seq<Item>)
    requires SameItems(a, b)
    ensures WeightSum(a) == WeightSum(b)
  {
    if |a| > 0 {
      SameWeights(a[..|a| - 1], b[..|b| - 1]);
    }
  }

  lemma AmountsRenamed(m: map<string, int>, n: map<string, int>, pool: int, less: Order)
    requires RenamedMap(m, n) && PrefixCompatible(less)
    ensures var x, y := StatementAmounts(m, pool, less), StatementAmounts(n, pool, less);
      |x| == |y| && forall i :: 0 <= i < |x| ==> y[i] == x[i].(key := USER + x[i].key)
  {
    hide ShareText, Apportion;
    SortedKeysRenamed(m, n, less);
    var a, b := ItemsOf(m, less), ItemsOf(n, less);
    var keys := SortedKeys(m.Keys, less);
    forall i | 0 <= i < |a| ensures b[i].key == USER + a[i].key && b[i].weight == a[i].weight {
      assert keys[i] in keys;
    }
    SameWeights(a, b);
    if WeightSum(a) != 0 {
      ApportionRenamed(a, b, pool, WeightSum(a), less);
    }
  }

  lemma {:induction false} GroupedUsers(claimants: seq<FinalAllocation>)
    requires forall i :: 0 <= i < |claimants| ==> claimants[i].claimant.User?
    ensures forall k :: k in Group(claimants) ==> USER <= k && Group(claimants)[k].claimant == User(k[5..])
  {
    if |claimants| > 0 {
      GroupedUsers(claimants[..|claimants| - 1]);
      var last := claimants[|claimants| - 1];
      assert ClaimantKey(last.claimant)[5..] == last.claimant.userId;
    }
  }

  lemma {:induction false} SameNegatives(users: seq<UserAllocation>, claimants: seq<FinalAllocation>)
    requires AsClaimants(users, claimants)
    ensures FirstNegative(claimants).Some? == FirstNegativeUser(users).Some?
    ensures FirstNegativeUser(users).Some? ==>
      FirstNegative(claimants).value == NegativeUnits(USER + FirstNegativeUser(users).value.key, FirstNegativeUser(users).value.units)
  {
    if |users| > 0 {
      SameNegatives(users[1..], claimants[1..]);
    }
  }

  /** On user claimants the two statement functions agree: the same users in the same order with the
      same units, printed shares and credits, and they fail on the same inputs for the same user. */
  lemma ClaimantStatementRefines(users: seq<UserAllocation>, claimants: seq<FinalAllocation>, pool: int, less: Order)
    requires AsClaimants(users, claimants) && PrefixCompatible(less)
    ensures StatementLines(claimants, pool, less).Ok? == StatementItems(users, pool, less).Ok?
    ensures StatementLines(claimants, pool, less).Err? ==>
      var e := StatementItems(users, pool, less).error;
      StatementLines(claimants, pool, less).error == NegativeUnits(USER + e.key, e.units)
    ensures StatementLines(claimants, pool, less).Ok? ==>
      var lines, items := StatementLines(claimants, pool, less).value, StatementItems(users, pool, less).value;
      |lines| == |items| && forall i :: 0 <= i < |lines| ==>
        && lines[i].claimant == User(items[i].userId) && lines[i].finalUnits == items[i].totalUnits
        && lines[i].poolShare == items[i].share && lines[i].creditAmount == items[i].amountCredits
  {
    hide StatementAmounts;
    SameNegatives(users, claimants);
    if |users| > 0 && pool > 0 && FirstNegativeUser(users).None? {
      var m, g := Tally(UserPieces(users)), Group(claimants);
      GroupIsTally(claimants);
      TallyRenamed(users, claimants);
      AmountsRenamed(m, EntryUnits(g), pool, less);
      GroupedUsers(claimants);
      var x, y := StatementAmounts(m, pool, less), StatementAmounts(EntryUnits(g), pool, less);
      forall i | 0 <= i < |x| ensures LineOf(g, y[i]).claimant == User(x[i].key) {
        AmountKey(EntryUnits(g), pool, less, i);
        assert (USER + x[i].key)[5..] == x[i].key;
      }
    }
  }
}
