/** Largest-remainder rounding: the one algorithm the ledger and the token package each spell out.

    Every item gets `weight * amount / divisor` rounded down; what is left of `amount` goes out one
    unit at a time in order of remainder, ties by key. The bonus set is a set of KEYS, so an item
    is rounded up exactly when some item with its key is among the first `residual`. */
module LargestRemainder {
  import opened Collation
  import opened Integers
  import opened Grouping

  datatype Item = Item(key: string, weight: int)

  datatype Share = Share(key: string, floor: int, remainder: int)

  function ShareOf(item: Item, amount: int, divisor: int): Share
    requires divisor != 0
  {
    Share(item.key, BigDiv(item.weight * amount, divisor), BigMod(item.weight * amount, divisor))
  }

  function Shares(items: seq<Item>, amount: int, divisor: int): seq<Share>
    requires divisor != 0
  {
    seq(|items|, i requires 0 <= i < |items| => ShareOf(items[i], amount, divisor))
  }

  function WeightSum(items: seq<Item>): int {
    if |items| == 0 then 0 else WeightSum(items[..|items| - 1]) + items[|items| - 1].weight
  }

  function FloorSum(ss: seq<Share>): int {
    if |ss| == 0 then 0 else FloorSum(ss[..|ss| - 1]) + ss[|ss| - 1].floor
  }

  function RemainderSum(ss: seq<Share>): int {
    if |ss| == 0 then 0 else RemainderSum(ss[..|ss| - 1]) + ss[|ss| - 1].remainder
  }

  /** The comparator of every `byRemainder` sort: larger remainder first, then key order. */
  predicate RanksBefore(a: Share, b: Share, less: Order) {
    if a.remainder != b.remainder then a.remainder > b.remainder else less(a.key, b.key)
  }

  function Ranking(less: Order): (Share, Share) -> bool {
    (a, b) => RanksBefore(a, b, less)
  }

  function ByRemainder(ss: seq<Share>, less: Order): seq<Share> {
    Sort(ss, Ranking(less))
  }

  /** How many of `n` ranked shares the bonus loop reaches. */
  function Cut(residual: int, n: nat): nat {
    if residual < 0 then 0 else if residual > n then n else residual
  }

  function KeySet(ss: seq<Share>): set<string> {
    set s | s in ss :: s.key
  }

  function BonusKeys(ranked: seq<Share>, residual: int): set<string> {
    KeySet(ranked[..Cut(residual, |ranked|)])
  }

  function Bonus(key: string, bonuses: set<string>): int {
    if key in bonuses then 1 else 0
  }

  function Residual(items: seq<Item>, amount: int, divisor: int): int
    requires divisor != 0
  {
    amount - FloorSum(Shares(items, amount, divisor))
  }

  function Bonuses(items: seq<Item>, amount: int, divisor: int, less: Order): set<string>
    requires divisor != 0
  {
    BonusKeys(ByRemainder(Shares(items, amount, divisor), less), Residual(items, amount, divisor))
  }

  /** The amounts, item by item. */
  function Apportion(items: seq<Item>, amount: int, divisor: int, less: Order): seq<int>
    requires divisor != 0
  {
    seq(|items|, i requires 0 <= i < |items| =>
      ShareOf(items[i], amount, divisor).floor + Bonus(items[i].key, Bonuses(items, amount, divisor, less)))
  }

  /** The loop that collects floors with their remainders and adds up the floors. */
  method FloorShares(items: seq<Item>, amount: int, divisor: int) returns (shares: seq<Share>, floorSum: int)
    requires divisor != 0
    ensures shares == Shares(items, amount, divisor) && floorSum == FloorSum(shares)
  {
    shares, floorSum := [], 0;
    for i := 0 to |items|
      invariant |shares| == i && forall j :: 0 <= j < i ==> shares[j] == ShareOf(items[j], amount, divisor)
      invariant floorSum == FloorSum(shares)
    {
      var share := ShareOf(items[i], amount, divisor);
      var grown := shares + [share];
      assert grown[..i] == shares;
      shares := grown;
      floorSum := floorSum + share.floor;
    }
  }

  /** The loop that rewards keys in rank order until the residual is used up. */
  method AwardBonuses(ranked: seq<Share>, toAward: int) returns (bonuses: set<string>)
    ensures bonuses == BonusKeys(ranked, toAward)
  {
    var residual := toAward;
    bonuses := {};
    var i := 0;
    while i < |ranked|
      invariant 0 <= i <= |ranked|
      invariant residual == toAward - i && (residual >= 0 || i == 0)
      invariant bonuses == KeySet(ranked[..i])
    {
      if residual <= 0 {
        break;
      }
      bonuses := bonuses + {ranked[i].key};
      assert ranked[..i + 1] == ranked[..i] + [ranked[i]];
      residual := residual - 1;
      i := i + 1;
    }
  }

  /** Floors, ranking, bonuses, amounts: the rounding each allocator performs. */
  method RoundShares(items: seq<Item>, amount: int, divisor: int, less: Order) returns (amounts: seq<int>)
    requires divisor != 0
    ensures amounts == Apportion(items, amount, divisor, less)
  {
    var shares, floorSum := FloorShares(items, amount, divisor);
    var bonuses := AwardBonuses(ByRemainder(shares, less), amount - floorSum);
    assert bonuses == Bonuses(items, amount, divisor, less);
    amounts := seq(|shares|, i requires 0 <= i < |shares| => shares[i].floor + Bonus(shares[i].key, bonuses));
  }

  // ----- the ranking -----

  lemma RankingIsWeakOrder(less: Order)
    ensures WeakOrder(Ranking(less))
  {
  }

  ghost predicate Distinct(ss: seq<Share>) {
    forall i, j :: 0 <= i < j < |ss| ==> ss[i].key != ss[j].key
  }

  ghost predicate DistinctKeys(items: seq<Item>) {
    forall i, j :: 0 <= i < j < |items| ==> items[i].key != items[j].key
  }

  lemma RankedSpec(ss: seq<Share>, less: Order)
    ensures |ByRemainder(ss, less)| == |ss|
    ensures multiset(ByRemainder(ss, less)) == multiset(ss)
    ensures forall i, j :: 0 <= i < j < |ss| ==> !RanksBefore(ByRemainder(ss, less)[j], ByRemainder(ss, less)[i], less)
  {
    SortKeepsElements(ss, Ranking(less));
    RankingIsWeakOrder(less);
    SortSorts(ss, Ranking(less));
    var r := ByRemainder(ss, less);
    forall i, j | 0 <= i < j < |ss| ensures !RanksBefore(r[j], r[i], less) {
      assert !Ranking(less)(r[j], r[i]);
    }
  }

  function HasKey(key: string): Share -> bool {
    (s: Share) => s.key == key
  }

  lemma {:induction false} KeyOccursOnce(ss: seq<Share>, key: string)
    requires Distinct(ss)
    ensures CountIf(ss, HasKey(key)) <= 1
  {
    if |ss| > 0 {
      KeyOccursOnce(ss[..|ss| - 1], key);
      CountBounds(ss[..|ss| - 1], HasKey(key));
    }
  }

  lemma KeyOccursTwice(ss: seq<Share>, i: nat, j: nat)
    requires i < j < |ss|
    ensures ss[i].key == ss[j].key ==> CountIf(ss, HasKey(ss[i].key)) >= 2
  {
    var test := HasKey(ss[i].key);
    assert ss == ss[..j] + ss[j..];
    CountAppend(ss[..j], ss[j..], test);
    CountBounds(ss[..j], test);
    CountBounds(ss[j..], test);
    assert ss[..j][i] == ss[i] && ss[j..][0] == ss[j];
  }

  lemma DistinctPermute(ss: seq<Share>, tt: seq<Share>)
    requires Distinct(ss) && multiset(ss) == multiset(tt)
    ensures Distinct(tt)
  {
    forall i, j | 0 <= i < j < |tt| ensures tt[i].key != tt[j].key {
      KeyOccursOnce(ss, tt[i].key);
      CountPermute(ss, tt, HasKey(tt[i].key));
      KeyOccursTwice(tt, i, j);
    }
  }

  /** With distinct keys a share is rounded up exactly when its rank is below the cut. */
  lemma BonusIsRank(ss: seq<Share>, less: Order, residual: int, p: nat)
    requires Distinct(ss) && p < |ss|
    ensures |ByRemainder(ss, less)| == |ss|
    ensures ByRemainder(ss, less)[p].key in BonusKeys(ByRemainder(ss, less), residual) <==> p < residual
  {
    var r := ByRemainder(ss, less);
    RankedSpec(ss, less);
    DistinctPermute(ss, r);
    var cut := Cut(residual, |r|);
    if p < residual {
      assert r[..cut][p] == r[p];
    } else {
      forall s | s in r[..cut] ensures s.key != r[p].key {
        var q :| 0 <= q < cut && r[..cut][q] == s;
        assert r[q] == s;
      }
    }
  }

  lemma RankOf(ss: seq<Share>, less: Order, i: nat) returns (p: nat)
    requires i < |ss|
    ensures |ByRemainder(ss, less)| == |ss| && p < |ss| && ByRemainder(ss, less)[p] == ss[i]
  {
    RankedSpec(ss, less);
    assert ss[i] in multiset(ByRemainder(ss, less));
    p :| 0 <= p < |ss| && ByRemainder(ss, less)[p] == ss[i];
  }

  // ----- conservation -----

  function InBonus(bonuses: set<string>): Share -> bool {
    (s: Share) => s.key in bonuses
  }

  lemma {:induction false} ApportionSum(items: seq<Item>, amount: int, divisor: int, bonuses: set<string>, a: seq<int>)
    requires divisor != 0 && |a| == |items|
    requires forall i :: 0 <= i < |a| ==> a[i] == ShareOf(items[i], amount, divisor).floor + Bonus(items[i].key, bonuses)
    ensures Sum(a) == FloorSum(Shares(items, amount, divisor)) + CountIf(Shares(items, amount, divisor), InBonus(bonuses))
  {
    if |items| > 0 {
      var ss := Shares(items, amount, divisor);
      assert ss[..|ss| - 1] == Shares(items[..|items| - 1], amount, divisor);
      ApportionSum(items[..|items| - 1], amount, divisor, bonuses, a[..|a| - 1]);
    }
  }

  /** The shares ranked past the cut that carry the key of a share ranked before it. */
  ghost function Surplus(items: seq<Item>, amount: int, divisor: int, less: Order): nat
    requires divisor != 0
  {
    var ranked := ByRemainder(Shares(items, amount, divisor), less);
    var cut := Cut(Residual(items, amount, divisor), |ranked|);
    CountIf(ranked[cut..], InBonus(KeySet(ranked[..cut])))
  }

  lemma ApportionCounts(items: seq<Item>, amount: int, divisor: int, less: Order)
    requires divisor != 0
    ensures var ss := Shares(items, amount, divisor);
      Sum(Apportion(items, amount, divisor, less)) == FloorSum(ss) + CountIf(ss, InBonus(Bonuses(items, amount, divisor, less)))
  {
    hide Bonuses, ShareOf;
    ApportionSum(items, amount, divisor, Bonuses(items, amount, divisor, less), Apportion(items, amount, divisor, less));
  }

  /** Whatever the weights and keys: the amounts sum to the floors, one unit for every share the
      bonus loop reaches, and one more for every later share that repeats a rewarded key. */
  lemma ApportionTotal(items: seq<Item>, amount: int, divisor: int, less: Order)
    requires divisor != 0
    ensures Sum(Apportion(items, amount, divisor, less))
         == FloorSum(Shares(items, amount, divisor)) + Cut(Residual(items, amount, divisor), |items|)
          + Surplus(items, amount, divisor, less)
  {
    hide Apportion, ByRemainder, FloorSum, CountIf, Sum, ShareOf;
    var ss := Shares(items, amount, divisor);
    var ranked := ByRemainder(ss, less);
    var cut := Cut(Residual(items, amount, divisor), |ranked|);
    var bonuses := KeySet(ranked[..cut]);
    RankedSpec(ss, less);
    ApportionCounts(items, amount, divisor, less);
    CountPermute(ss, ranked, InBonus(bonuses));
    CountParts(ranked, cut, InBonus(bonuses));
  }

  lemma CountParts(ss: seq<Share>, cut: nat, test: Share -> bool)
    requires cut <= |ss| && forall s :: s in ss[..cut] ==> test(s)
    ensures CountIf(ss, test) == cut + CountIf(ss[cut..], test)
  {
    hide CountIf;
    assert ss == ss[..cut] + ss[cut..];
    CountAppend(ss[..cut], ss[cut..], test);
    CountBounds(ss[..cut], test);
  }

  lemma {:induction false} ScaledSums(items: seq<Item>, amount: int, divisor: int)
    requires divisor > 0
    ensures FloorSum(Shares(items, amount, divisor)) * divisor + RemainderSum(Shares(items, amount, divisor))
         == WeightSum(items) * amount
  {
    var ss := Shares(items, amount, divisor);
    if |items| > 0 {
      var init, last := items[..|items| - 1], items[|items| - 1];
      assert ss[..|ss| - 1] == Shares(init, amount, divisor);
      ScaledSums(init, amount, divisor);
      ShareScaled(last, amount, divisor);
      hide ShareOf;
      ScaledStep(FloorSum(ss[..|ss| - 1]), ss[|ss| - 1].floor, divisor, WeightSum(init), last.weight, amount);
    }
  }

  lemma ShareScaled(item: Item, amount: int, divisor: int)
    requires divisor != 0
    ensures var s := ShareOf(item, amount, divisor); s.floor * divisor + s.remainder == item.weight * amount
  {
    hide BigDiv;
  }

  lemma ScaledStep(floors: int, floor: int, divisor: int, weights: int, weight: int, amount: int)
    ensures (floors + floor) * divisor == floors * divisor + floor * divisor
    ensures (weights + weight) * amount == weights * amount + weight * amount
  {
  }

  function HasRemainder(): Share -> bool {
    (s: Share) => s.remainder > 0
  }

  lemma {:induction false} RemainderBound(ss: seq<Share>, divisor: int)
    requires divisor > 0 && forall i :: 0 <= i < |ss| ==> 0 <= ss[i].remainder < divisor
    ensures 0 <= RemainderSum(ss) <= CountIf(ss, HasRemainder()) * (divisor - 1)
  {
    if |ss| > 0 {
      RemainderBound(ss[..|ss| - 1], divisor);
      var c := CountIf(ss[..|ss| - 1], HasRemainder());
      assert (c + 1) * (divisor - 1) == c * (divisor - 1) + (divisor - 1);
    }
  }

  /** The weights are shares of `divisor`: what every caller that conserves establishes. */
  ghost predicate Proportional(items: seq<Item>, amount: int, divisor: int) {
    && divisor > 0 && amount >= 0 && WeightSum(items) == divisor
    && forall i :: 0 <= i < |items| ==> items[i].weight >= 0
  }

  lemma ShareBounds(items: seq<Item>, amount: int, divisor: int, i: nat)
    requires Proportional(items, amount, divisor) && i < |items|
    ensures var s := ShareOf(items[i], amount, divisor);
            0 <= s.remainder < divisor && 0 <= s.floor && items[i].weight * amount == s.floor * divisor + s.remainder
  {
    MulOrdered(0, items[i].weight, amount);
    BigDivFloors(items[i].weight * amount, divisor);
  }

  lemma ResidualArithmetic(amount: int, floors: int, remainders: int, n: nat, divisor: int)
    requires divisor > 0
    requires floors * divisor + remainders == divisor * amount
    requires 0 <= remainders <= n * (divisor - 1)
    ensures 0 <= amount - floors <= n && (n > 0 ==> amount - floors < n)
  {
  }

  /** The residual is never negative and is below the number of items with a nonzero remainder,
      hence below the number of items; it is zero when nothing was rounded. */
  lemma ResidualBounds(items: seq<Item>, amount: int, divisor: int)
    requires Proportional(items, amount, divisor)
    ensures var n := CountIf(Shares(items, amount, divisor), HasRemainder());
            var residual := Residual(items, amount, divisor);
            && 0 <= residual < |items|
            && (residual < n || residual == n == 0)
  {
    var ss := Shares(items, amount, divisor);
    var n, residual := CountIf(ss, HasRemainder()), Residual(items, amount, divisor);
    ScaledSums(items, amount, divisor);
    forall i | 0 <= i < |ss| ensures 0 <= ss[i].remainder < divisor {
      ShareBounds(items, amount, divisor, i);
    }
    RemainderBound(ss, divisor);
    CountBounds(ss, HasRemainder());
    ResidualArithmetic(amount, FloorSum(ss), RemainderSum(ss), n, divisor);
    assert |items| > 0;
  }

  /** No key is ranked both before and after the point where the bonuses run out. */
  ghost predicate NoKeyStraddlesCut(items: seq<Item>, amount: int, divisor: int, less: Order)
    requires divisor != 0
  {
    var ranked := ByRemainder(Shares(items, amount, divisor), less);
    forall p, q :: 0 <= p < Residual(items, amount, divisor) <= q < |ranked| ==> ranked[p].key != ranked[q].key
  }

  /** No ranked share past the cut has a key from before it. */
  ghost predicate CutSeparates(ranked: seq<Share>, residual: int) {
    forall p, q :: 0 <= p < residual <= q < |ranked| ==> ranked[p].key != ranked[q].key
  }

  lemma SeparatedIfNoneCounted(ranked: seq<Share>, residual: int)
    requires var cut := Cut(residual, |ranked|); CountIf(ranked[cut..], InBonus(KeySet(ranked[..cut]))) == 0
    ensures CutSeparates(ranked, residual)
  {
    var cut := Cut(residual, |ranked|);
    var past, test := ranked[cut..], InBonus(KeySet(ranked[..cut]));
    CountBounds(past, test);
    hide CountIf;
    forall p, q | 0 <= p < residual <= q < |ranked| ensures ranked[p].key != ranked[q].key {
      assert ranked[..cut][p] == ranked[p];
      assert !test(past[q - cut]);
    }
  }

  lemma NoneCountedIfSeparated(ranked: seq<Share>, residual: int)
    requires CutSeparates(ranked, residual)
    ensures var cut := Cut(residual, |ranked|); CountIf(ranked[cut..], InBonus(KeySet(ranked[..cut]))) == 0
  {
    var cut := Cut(residual, |ranked|);
    var past, test := ranked[cut..], InBonus(KeySet(ranked[..cut]));
    CountBounds(past, test);
    hide CountIf;
    forall i | 0 <= i < |past| ensures !test(past[i]) {
      assert past[i] == ranked[cut + i];
      forall s | s in ranked[..cut] ensures s.key != past[i].key {
        var p :| 0 <= p < cut && ranked[..cut][p] == s;
        assert ranked[p] == s;
      }
    }
  }

  lemma SurplusZeroIff(items: seq<Item>, amount: int, divisor: int, less: Order)
    requires divisor != 0
    ensures Surplus(items, amount, divisor, less) == 0 <==> NoKeyStraddlesCut(items, amount, divisor, less)
  {
    hide CountIf, ByRemainder, Residual;
    var ranked, residual := ByRemainder(Shares(items, amount, divisor), less), Residual(items, amount, divisor);
    if Surplus(items, amount, divisor, less) == 0 {
      SeparatedIfNoneCounted(ranked, residual);
    } else if CutSeparates(ranked, residual) {
      NoneCountedIfSeparated(ranked, residual);
    }
  }

  /** Exactness, in general: nothing is ever lost, and the amounts sum to exactly `amount` if and
      only if no key is ranked on both sides of the cut. */
  lemma ConservesIff(items: seq<Item>, amount: int, divisor: int, less: Order)
    requires Proportional(items, amount, divisor)
    ensures Sum(Apportion(items, amount, divisor, less)) >= amount
    ensures Sum(Apportion(items, amount, divisor, less)) == amount <==> NoKeyStraddlesCut(items, amount, divisor, less)
  {
    ResidualBounds(items, amount, divisor);
    ApportionTotal(items, amount, divisor, less);
    SurplusZeroIff(items, amount, divisor, less);
  }

  // ----- negative amounts -----

  lemma {:induction false} NegativeRemainders(ss: seq<Share>)
    requires forall i :: 0 <= i < |ss| ==> ss[i].remainder <= 0
    ensures RemainderSum(ss) <= 0
    ensures RemainderSum(ss) == 0 <==> forall i :: 0 <= i < |ss| ==> ss[i].remainder == 0
  {
    if |ss| > 0 {
      NegativeRemainders(ss[..|ss| - 1]);
      assert forall i :: 0 <= i < |ss| - 1 ==> ss[..|ss| - 1][i] == ss[i];
    }
  }

  lemma NegativeMod(a: int, b: int)
    requires a <= 0 && b > 0
    ensures BigMod(a, b) <= 0 && (BigMod(a, b) == 0 <==> a % b == 0)
  {
    BigDivFloors(-a, b);
    var q, r := -a / b, -a % b;
    assert BigMod(a, b) == -r;
    if r == 0 {
      ExactQuotient(-q, b);
      assert a == -q * b;
    } else if a % b == 0 {
      var p := a / b;
      assert -a == -p * b;
      ExactQuotient(-p, b);
    }
  }

  lemma NoBonuses(items: seq<Item>, amount: int, divisor: int, less: Order)
    requires divisor != 0 && Residual(items, amount, divisor) <= 0
    ensures Sum(Apportion(items, amount, divisor, less)) == FloorSum(Shares(items, amount, divisor))
  {
    ApportionTotal(items, amount, divisor, less);
    var ranked := ByRemainder(Shares(items, amount, divisor), less);
    CountBounds(ranked[0..], InBonus({}));
    assert KeySet(ranked[..0]) == {};
  }

  /** Of a negative amount the truncated shares take no more than there is, and exactly all of it if
      and only if every share is exact: the bonus loop never hands out a negative residual. */
  lemma NegativeConservesIff(items: seq<Item>, amount: int, divisor: int, less: Order)
    requires amount < 0 && Proportional(items, -amount, divisor)
    ensures Sum(Apportion(items, amount, divisor, less)) >= amount
    ensures Sum(Apportion(items, amount, divisor, less)) == amount
       <==> forall i :: 0 <= i < |items| ==> items[i].weight * amount % divisor == 0
  {
    var ss := Shares(items, amount, divisor);
    forall i | 0 <= i < |items|
      ensures ss[i].remainder <= 0 && (ss[i].remainder == 0 <==> items[i].weight * amount % divisor == 0)
    {
      MulOrdered(0, items[i].weight, -amount);
      assert items[i].weight * amount == -(items[i].weight * -amount);
      NegativeMod(items[i].weight * amount, divisor);
    }
    NegativeRemainders(ss);
    ScaledSums(items, amount, divisor);
    hide Apportion, FloorSum, ShareOf, RemainderSum, Sum;
    NegativeTotal(amount, FloorSum(ss), RemainderSum(ss), divisor);
    NoBonuses(items, amount, divisor, less);
  }

  lemma NegativeTotal(amount: int, floors: int, remainders: int, divisor: int)
    requires divisor > 0 && remainders <= 0 && floors * divisor + remainders == divisor * amount
    ensures floors >= amount && (floors == amount <==> remainders == 0)
  {
    if floors < amount {
      MulOrdered(floors, amount, divisor);
    } else {
      MulOrdered(amount, floors, divisor);
    }
  }

  /** Exactness: with distinct keys the amounts sum to exactly the requested total. */
  lemma Exact(items: seq<Item>, amount: int, divisor: int, less: Order)
    requires Proportional(items, amount, divisor) && DistinctKeys(items)
    ensures Sum(Apportion(items, amount, divisor, less)) == amount
  {
    var ss := Shares(items, amount, divisor);
    assert Distinct(ss);
    RankedSpec(ss, less);
    DistinctPermute(ss, ByRemainder(ss, less));
    ConservesIff(items, amount, divisor, less);
  }

  // ----- quota -----

  /** A bonus goes only to a share with a nonzero remainder, and never past a larger remainder. */
  lemma Threshold(items: seq<Item>, amount: int, divisor: int, less: Order) returns (rho: int)
    requires Proportional(items, amount, divisor) && DistinctKeys(items)
    ensures 0 < rho <= divisor
    ensures forall i :: 0 <= i < |items| ==>
              var s := ShareOf(items[i], amount, divisor);
              if s.key in Bonuses(items, amount, divisor, less) then s.remainder >= rho else s.remainder <= rho
  {
    var ss, residual := Shares(items, amount, divisor), Residual(items, amount, divisor);
    var ranked := ByRemainder(ss, less);
    RankedSpec(ss, less);
    ResidualBounds(items, amount, divisor);
    if residual == 0 {
      rho := divisor;
    } else {
      rho := ranked[residual - 1].remainder;
      LastBonusHasRemainder(items, amount, divisor, less);
    }
    forall i | 0 <= i < |items|
      ensures var s := ShareOf(items[i], amount, divisor);
              if s.key in Bonuses(items, amount, divisor, less) then s.remainder >= rho else s.remainder <= rho
    {
      ShareBounds(items, amount, divisor, i);
      assert Distinct(ss);
      BesideTheCut(ss, less, residual, i);
    }
    if residual != 0 {
      var s := ranked[residual - 1];
      assert s in multiset(ss);
      var i :| 0 <= i < |ss| && ss[i] == s;
      ShareBounds(items, amount, divisor, i);
    }
  }

  /** Ranked shares on the two sides of the cut, compared with the last one that gets a bonus. */
  lemma BesideTheCut(ss: seq<Share>, less: Order, residual: int, i: nat)
    requires Distinct(ss) && i < |ss| && 0 <= residual <= |ss|
    ensures |ByRemainder(ss, less)| == |ss|
    ensures ss[i].key in BonusKeys(ByRemainder(ss, less), residual) ==>
      residual > 0 && ss[i].remainder >= ByRemainder(ss, less)[residual - 1].remainder
    ensures residual > 0 && ss[i].key !in BonusKeys(ByRemainder(ss, less), residual) ==>
      ss[i].remainder <= ByRemainder(ss, less)[residual - 1].remainder
  {
    var ranked := ByRemainder(ss, less);
    RankedSpec(ss, less);
    var p := RankOf(ss, less, i);
    BonusIsRank(ss, less, residual, p);
    hide ByRemainder, BonusKeys;
    if p < residual - 1 {
      assert !RanksBefore(ranked[residual - 1], ranked[p], less);
    } else if 0 < residual <= p {
      assert !RanksBefore(ranked[p], ranked[residual - 1], less);
    }
  }

  lemma LastBonusHasRemainder(items: seq<Item>, amount: int, divisor: int, less: Order)
    requires Proportional(items, amount, divisor) && Residual(items, amount, divisor) > 0
    ensures |ByRemainder(Shares(items, amount, divisor), less)| == |items|
    ensures 0 < Residual(items, amount, divisor) <= |items|
    ensures ByRemainder(Shares(items, amount, divisor), less)[Residual(items, amount, divisor) - 1].remainder > 0
  {
    var ss, residual := Shares(items, amount, divisor), Residual(items, amount, divisor);
    var ranked := ByRemainder(ss, less);
    RankedSpec(ss, less);
    ResidualBounds(items, amount, divisor);
    CountPermute(ss, ranked, HasRemainder());
    if ranked[residual - 1].remainder <= 0 {
      var tail := ranked[residual - 1..];
      forall i | 0 <= i < |tail| ensures !HasRemainder()(tail[i]) {
        if i > 0 {
          assert !RanksBefore(ranked[residual - 1 + i], ranked[residual - 1], less);
        }
      }
      assert ranked == ranked[..residual - 1] + tail;
      CountAppend(ranked[..residual - 1], tail, HasRemainder());
      CountBounds(tail, HasRemainder());
      CountBounds(ranked[..residual - 1], HasRemainder());
      assert false;
    }
  }

  /** Quota: every amount is its exact share rounded down or up, and a share that needs no
      rounding, a zero weight among them, gets exactly that share. */
  lemma Quota(items: seq<Item>, amount: int, divisor: int, less: Order, i: nat)
    requires Proportional(items, amount, divisor) && DistinctKeys(items) && i < |items|
    ensures var a := Apportion(items, amount, divisor, less)[i];
            var exact := items[i].weight * amount;
            && exact / divisor <= a <= exact / divisor + 1
            && (exact % divisor == 0 ==> a * divisor == exact)
            && (items[i].weight == 0 ==> a == 0)
  {
    var rho := Threshold(items, amount, divisor, less);
    assert items[i].weight * amount >= 0;
    BigDivFloors(items[i].weight * amount, divisor);
    assert ShareOf(items[i], amount, divisor).key == items[i].key;
    if items[i].weight == 0 {
      assert items[i].weight * amount == 0;
    }
  }

  // ----- every amount, without the ranking -----

  /** What the division leaves of an item's exact share. */
  function Fraction(item: Item, amount: int, divisor: int): int
    requires divisor != 0
  {
    item.weight * amount % divisor
  }

  /** The keys that come before an item's when units are handed out one by one: those with a larger
      fraction, and among equal fractions those with a smaller key. */
  ghost function Ahead(items: seq<Item>, amount: int, divisor: int, less: Order, item: Item): set<string>
    requires divisor != 0
  {
    set x | x in items && (
      Fraction(x, amount, divisor) > Fraction(item, amount, divisor)
      || (Fraction(x, amount, divisor) == Fraction(item, amount, divisor) && less(x.key, item.key))) :: x.key
  }

  function QuotientSum(items: seq<Item>, amount: int, divisor: int): int
    requires divisor != 0
  {
    if |items| == 0 then 0
    else QuotientSum(items[..|items| - 1], amount, divisor) + items[|items| - 1].weight * amount / divisor
  }

  lemma {:induction false} QuotientsAreFloors(items: seq<Item>, amount: int, divisor: int)
    requires divisor > 0 && amount >= 0 && forall i :: 0 <= i < |items| ==> items[i].weight >= 0
    ensures FloorSum(Shares(items, amount, divisor)) == QuotientSum(items, amount, divisor)
  {
    if |items| > 0 {
      var ss, last := Shares(items, amount, divisor), items[|items| - 1];
      assert ss[..|ss| - 1] == Shares(items[..|items| - 1], amount, divisor);
      QuotientsAreFloors(items[..|items| - 1], amount, divisor);
      MulOrdered(0, last.weight, amount);
      BigDivFloors(last.weight * amount, divisor);
    }
  }

  /** The keys of the shares that pass a test. */
  ghost function KeysWhere(ss: seq<Share>, test: Share -> bool): set<string> {
    set s | s in ss && test(s) :: s.key
  }

  lemma {:induction false} CountKeys(ss: seq<Share>, test: Share -> bool)
    requires Distinct(ss)
    ensures CountIf(ss, test) == |KeysWhere(ss, test)|
  {
    if |ss| > 0 {
      var init, last := ss[..|ss| - 1], ss[|ss| - 1];
      CountKeys(init, test);
      assert ss == init + [last];
      assert KeysWhere(ss, test) == KeysWhere(init, test) + if test(last) then {last.key} else {};
      assert last.key !in KeysWhere(init, test);
    } else {
      assert KeysWhere(ss, test) == {};
    }
  }

  function Before(s: Share, less: Order): Share -> bool {
    (x: Share) => RanksBefore(x, s, less)
  }

  /** The rank of a share is the number of shares ahead of it. */
  lemma RankCounts(ss: seq<Share>, less: Order, p: nat)
    requires Distinct(ss) && p < |ss|
    ensures |ByRemainder(ss, less)| == |ss|
    ensures CountIf(ss, Before(ByRemainder(ss, less)[p], less)) == p
  {
    var ranked := ByRemainder(ss, less);
    RankedSpec(ss, less);
    DistinctPermute(ss, ranked);
    CountPermute(ss, ranked, Before(ranked[p], less));
    hide CountIf, ByRemainder;
    RankedSplit(ranked, less, p);
  }

  lemma RankedSplit(ranked: seq<Share>, less: Order, p: nat)
    requires Distinct(ranked) && p < |ranked|
    requires forall i, j :: 0 <= i < j < |ranked| ==> !RanksBefore(ranked[j], ranked[i], less)
    ensures CountIf(ranked, Before(ranked[p], less)) == p
  {
    hide CountIf;
    var front, tail, test := ranked[..p], ranked[p..], Before(ranked[p], less);
    assert ranked == front + tail;
    CountAppend(front, tail, test);
    forall q | 0 <= q < p ensures test(front[q]) {
      assert !RanksBefore(ranked[p], ranked[q], less) && ranked[q].key != ranked[p].key;
    }
    forall q | 0 <= q < |tail| ensures !test(tail[q]) {
      assert tail[q] == ranked[p + q];
      assert q > 0 ==> !RanksBefore(ranked[p + q], ranked[p], less);
    }
    CountBounds(front, test);
    CountBounds(tail, test);
  }

  lemma AheadAreBefore(items: seq<Item>, amount: int, divisor: int, less: Order, i: nat)
    requires Proportional(items, amount, divisor) && i < |items|
    ensures KeysWhere(Shares(items, amount, divisor), Before(ShareOf(items[i], amount, divisor), less))
         == Ahead(items, amount, divisor, less, items[i])
  {
    var ss := Shares(items, amount, divisor);
    var before, ahead := KeysWhere(ss, Before(ss[i], less)), Ahead(items, amount, divisor, less, items[i]);
    forall j | 0 <= j < |items| ensures ss[j].key == items[j].key && ss[j].remainder == Fraction(items[j], amount, divisor) {
      MulOrdered(0, items[j].weight, amount);
      BigDivFloors(items[j].weight * amount, divisor);
    }
    hide ShareOf, Fraction;
    forall k ensures k in before <==> k in ahead {
      if k in before {
        var s :| s in ss && RanksBefore(s, ss[i], less) && s.key == k;
        var j :| 0 <= j < |ss| && ss[j] == s;
        assert items[j] in items;
      }
      if k in ahead {
        var x :| x in items && x.key == k && (
          Fraction(x, amount, divisor) > Fraction(items[i], amount, divisor)
          || (Fraction(x, amount, divisor) == Fraction(items[i], amount, divisor) && less(x.key, items[i].key)));
        var j :| 0 <= j < |items| && items[j] == x;
        assert ss[j] in ss && Before(ss[i], less)(ss[j]);
      }
    }
  }

  /** The allocation, exactly: an item gets its share rounded down, and one unit more if and only if
      fewer items are ahead of it than units are left over. */
  lemma AmountIs(items: seq<Item>, amount: int, divisor: int, less: Order, i: nat)
    requires Proportional(items, amount, divisor) && DistinctKeys(items) && i < |items|
    ensures Apportion(items, amount, divisor, less)[i]
         == items[i].weight * amount / divisor
            + if |Ahead(items, amount, divisor, less, items[i])| < amount - QuotientSum(items, amount, divisor) then 1 else 0
  {
    var ss, residual := Shares(items, amount, divisor), Residual(items, amount, divisor);
    assert Distinct(ss);
    var p := RankOf(ss, less, i);
    BonusIsRank(ss, less, residual, p);
    RankCounts(ss, less, p);
    CountKeys(ss, Before(ss[i], less));
    AheadAreBefore(items, amount, divisor, less, i);
    QuotientsAreFloors(items, amount, divisor);
    hide CountIf, ByRemainder, BonusKeys, KeysWhere, Ahead, FloorSum, QuotientSum;
    MulOrdered(0, items[i].weight, amount);
    BigDivFloors(items[i].weight * amount, divisor);
  }

  lemma FewerAhead(items: seq<Item>, amount: int, divisor: int, less: Order, x: Item, y: Item)
    requires divisor != 0
    requires Fraction(x, amount, divisor) > Fraction(y, amount, divisor)
             || (Fraction(x, amount, divisor) == Fraction(y, amount, divisor) && less(x.key, y.key))
    ensures |Ahead(items, amount, divisor, less, x)| <= |Ahead(items, amount, divisor, less, y)|
  {
    hide Fraction;
    SubsetSize(Ahead(items, amount, divisor, less, x), Ahead(items, amount, divisor, less, y));
  }

  lemma {:induction false} SubsetSize(x: set<string>, y: set<string>)
    requires x <= y
    ensures |x| <= |y|
  {
    if x != {} {
      var k :| k in x;
      SubsetSize(x - {k}, y - {k});
    }
  }

  /** So a tie goes to the smaller key. */
  lemma TieByKey(items: seq<Item>, amount: int, divisor: int, less: Order, i: nat, j: nat)
    requires Proportional(items, amount, divisor) && DistinctKeys(items) && i < |items| && j < |items|
    requires Fraction(items[i], amount, divisor) == Fraction(items[j], amount, divisor) && less(items[i].key, items[j].key)
    ensures var a := Apportion(items, amount, divisor, less);
      && (a[j] > items[j].weight * amount / divisor ==> a[i] > items[i].weight * amount / divisor)
      && (items[i].weight == items[j].weight ==> a[i] >= a[j])
  {
    AmountIs(items, amount, divisor, less, i);
    AmountIs(items, amount, divisor, less, j);
    hide Apportion, QuotientSum, Ahead;
    FewerAhead(items, amount, divisor, less, items[i], items[j]);
  }

  /** Fairness: a larger weight never receives less, and equal weights differ by at most one. */
  lemma Fair(items: seq<Item>, amount: int, divisor: int, less: Order, i: nat, j: nat)
    requires Proportional(items, amount, divisor) && DistinctKeys(items) && i < |items| && j < |items|
    ensures var a := Apportion(items, amount, divisor, less);
            && (items[i].weight > items[j].weight ==> a[i] >= a[j])
            && (items[i].weight == items[j].weight ==> Abs(a[i] - a[j]) <= 1)
  {
    assert divisor > 0;
    hide Apportion, QuotientSum, Ahead, Proportional, DistinctKeys;
    AmountIs(items, amount, divisor, less, i);
    AmountIs(items, amount, divisor, less, j);
    if items[i].weight > items[j].weight {
      if amount > 0 {
        LargerShare(items, amount, divisor, i, j);
        hide Fraction;
        if items[i].weight * amount / divisor == items[j].weight * amount / divisor {
          FewerAhead(items, amount, divisor, less, items[i], items[j]);
        }
      } else {
        NothingOfZero(items, amount, divisor, less, i);
        NothingOfZero(items, amount, divisor, less, j);
      }
    }
  }

  lemma LargerShare(items: seq<Item>, amount: int, divisor: int, i: nat, j: nat)
    requires Proportional(items, amount, divisor) && i < |items| && j < |items|
    requires items[i].weight > items[j].weight && amount > 0
    ensures var x, y := items[i].weight * amount, items[j].weight * amount;
      x / divisor > y / divisor
      || (x / divisor == y / divisor && Fraction(items[i], amount, divisor) > Fraction(items[j], amount, divisor))
  {
    var x, y := items[i].weight * amount, items[j].weight * amount;
    MulOrdered(items[j].weight, items[i].weight, amount);
    QuotientOrder(x, y, divisor);
  }

  lemma QuotientOrder(x: int, y: int, divisor: int)
    requires divisor > 0 && x > y
    ensures x / divisor > y / divisor || (x / divisor == y / divisor && x % divisor > y % divisor)
  {
    LargerQuotient(x / divisor, x % divisor, y / divisor, y % divisor, divisor);
    assert x == divisor * (x / divisor) + x % divisor && y == divisor * (y / divisor) + y % divisor;
  }

  lemma NothingOfZero(items: seq<Item>, amount: int, divisor: int, less: Order, i: nat)
    requires Proportional(items, amount, divisor) && DistinctKeys(items) && i < |items| && amount <= 0
    ensures Apportion(items, amount, divisor, less)[i] == 0
  {
    hide Apportion;
    Quota(items, amount, divisor, less, i);
    assert amount == 0 && items[i].weight * amount == 0;
  }

  // ----- optimality -----

  /** The distance, scaled by the divisor, of an item's amount from its exact share. */
  function Cost(item: Item, amount: int, divisor: int, a: int): int {
    Abs(a * divisor - item.weight * amount)
  }

  /** The distance, scaled by the divisor, of an allocation from the exact proportional shares. */
  function Deviation(items: seq<Item>, amount: int, divisor: int, a: seq<int>): int
    requires |a| == |items|
  {
    if |a| == 0 then
      0
    else
      var n := |a| - 1;
      Deviation(items[..n], amount, divisor, a[..n]) + Cost(items[n], amount, divisor, a[n])
  }

  /** One item's part of the optimality argument: charging `divisor - 2 * rho` for every unit, no
      integer does better than rounding by the threshold. */
  lemma PerItem(exact: int, floor: int, remainder: int, divisor: int, rho: int, a: int, b: int)
    requires divisor > 0 && 0 <= remainder < divisor && exact == floor * divisor + remainder
    requires 0 <= rho <= divisor
    requires (a == floor && remainder <= rho) || (a == floor + 1 && remainder >= rho)
    ensures Abs(a * divisor - exact) - (divisor - 2 * rho) * a <= Abs(b * divisor - exact) - (divisor - 2 * rho) * b
  {
    ChargedUnits(exact, floor, remainder, divisor, rho, a);
    ChargedUnits(exact, floor, remainder, divisor, rho, b);
    UnitCharge(remainder, divisor, rho, b - floor);
    UnitCharge(remainder, divisor, rho, a - floor);
  }

  lemma ChargedUnits(exact: int, floor: int, remainder: int, divisor: int, rho: int, a: int)
    requires exact == floor * divisor + remainder
    ensures Abs(a * divisor - exact) - (divisor - 2 * rho) * a
         == Abs((a - floor) * divisor - remainder) - (divisor - 2 * rho) * (a - floor) - (divisor - 2 * rho) * floor
  {
    assert a * divisor - exact == (a - floor) * divisor - remainder;
    Distribute(divisor - 2 * rho, floor, a - floor);
  }

  /** `d` units above the floor cost at least as much as the cheaper of none and one, and none
      and one cost `remainder` and `2 * rho - remainder`. */
  lemma UnitCharge(remainder: int, divisor: int, rho: int, d: int)
    requires divisor > 0 && 0 <= remainder < divisor && 0 <= rho <= divisor
    ensures var cost := Abs(d * divisor - remainder) - (divisor - 2 * rho) * d;
            && (cost >= remainder || cost >= 2 * rho - remainder)
            && (d == 0 ==> cost == remainder) && (d == 1 ==> cost == 2 * rho - remainder)
  {
  }

  lemma {:induction false} Charged(items: seq<Item>, amount: int, divisor: int, charge: int, a: seq<int>, b: seq<int>)
    requires |a| == |items| == |b|
    requires forall i :: 0 <= i < |items| ==>
      Cost(items[i], amount, divisor, a[i]) - charge * a[i] <= Cost(items[i], amount, divisor, b[i]) - charge * b[i]
    ensures Deviation(items, amount, divisor, a) - charge * Sum(a) <= Deviation(items, amount, divisor, b) - charge * Sum(b)
  {
    hide Cost;
    if |a| > 0 {
      var n := |a| - 1;
      Charged(items[..n], amount, divisor, charge, a[..n], b[..n]);
      Distribute(charge, Sum(a[..n]), a[n]);
      Distribute(charge, Sum(b[..n]), b[n]);
    }
  }

  lemma Distribute(c: int, x: int, y: int)
    ensures c * (x + y) == c * x + c * y
  {
  }

  /** Optimality: no integer allocation of the same total is closer to the exact shares. */
  lemma Optimal(items: seq<Item>, amount: int, divisor: int, less: Order, b: seq<int>)
    requires Proportional(items, amount, divisor) && DistinctKeys(items)
    requires |b| == |items| && Sum(b) == amount
    ensures Deviation(items, amount, divisor, Apportion(items, amount, divisor, less))
         <= Deviation(items, amount, divisor, b)
  {
    var a := Apportion(items, amount, divisor, less);
    Exact(items, amount, divisor, less);
    var rho := Threshold(items, amount, divisor, less);
    var charge := divisor - 2 * rho;
    forall i | 0 <= i < |items|
      ensures Cost(items[i], amount, divisor, a[i]) - charge * a[i] <= Cost(items[i], amount, divisor, b[i]) - charge * b[i]
    {
      var s := ShareOf(items[i], amount, divisor);
      ShareBounds(items, amount, divisor, i);
      PerItem(items[i].weight * amount, s.floor, s.remainder, divisor, rho, a[i], b[i]);
    }
    Charged(items, amount, divisor, charge, a, b);
  }

  // ----- a grouped map as the list of items to round -----

  /** The groups in key order. */
  function ItemsOf(m: map<string, int>, less: Order): seq<Item> {
    var keys := SortedKeys(m.Keys, less);
    seq(|keys|, i requires 0 <= i < |keys| => Item(keys[i], m[keys[i]]))
  }

  lemma ItemsOfAt(m: map<string, int>, less: Order, i: nat)
    requires i < |ItemsOf(m, less)|
    ensures ItemsOf(m, less)[i].key in m && ItemsOf(m, less)[i].weight == m[ItemsOf(m, less)[i].key]
  {
  }

  lemma {:induction false} WeightsAlong(keys: seq<string>, m: map<string, int>, items: seq<Item>)
    requires |items| == |keys| && forall k :: k in keys ==> k in m
    requires forall i :: 0 <= i < |keys| ==> items[i] == Item(keys[i], m[keys[i]])
    ensures WeightSum(items) == SumAlong(keys, m)
  {
    if |keys| > 0 {
      WeightsAlong(keys[..|keys| - 1], m, items[..|items| - 1]);
    }
  }

  /** Listing a map loses nothing, and gives distinct keys: every group can be rounded. */
  lemma ItemsOfTotal(m: map<string, int>, less: Order)
    ensures WeightSum(ItemsOf(m, less)) == Total(m)
    ensures DistinctKeys(ItemsOf(m, less))
    ensures NonNegative(m) ==> forall i :: 0 <= i < |ItemsOf(m, less)| ==> ItemsOf(m, less)[i].weight >= 0
  {
    var keys := SortedKeys(m.Keys, less);
    SortedKeysDistinct(m.Keys, less);
    WeightsAlong(keys, m, ItemsOf(m, less));
    SumAlongTotal(keys, m);
  }

  // ----- the amounts of a grouped map -----

  /** The keys of a map ahead of one of them. */
  ghost function AheadIn(m: map<string, int>, amount: int, divisor: int, less: Order, key: string): set<string>
    requires divisor != 0 && key in m
  {
    set k | k in m && (
      m[k] * amount % divisor > m[key] * amount % divisor
      || (m[k] * amount % divisor == m[key] * amount % divisor && less(k, key)))
  }

  ghost function Quotients(m: map<string, int>, amount: int, divisor: int): map<string, int>
    requires divisor != 0
  {
    map k | k in m :: m[k] * amount / divisor
  }

  lemma {:induction false} QuotientsAlong(keys: seq<string>, m: map<string, int>, items: seq<Item>, amount: int, divisor: int)
    requires divisor != 0 && |items| == |keys| && forall k :: k in keys ==> k in m
    requires forall i :: 0 <= i < |keys| ==> items[i] == Item(keys[i], m[keys[i]])
    ensures QuotientSum(items, amount, divisor) == SumAlong(keys, Quotients(m, amount, divisor))
  {
    if |keys| > 0 {
      QuotientsAlong(keys[..|keys| - 1], m, items[..|items| - 1], amount, divisor);
    }
  }

  lemma AheadOfItem(m: map<string, int>, amount: int, divisor: int, less: Order, i: nat)
    requires divisor != 0 && i < |ItemsOf(m, less)|
    ensures var item := ItemsOf(m, less)[i];
      item.key in m && Ahead(ItemsOf(m, less), amount, divisor, less, item) == AheadIn(m, amount, divisor, less, item.key)
  {
    var keys, items := SortedKeys(m.Keys, less), ItemsOf(m, less);
    assert keys[i] in keys;
    var x, y := Ahead(items, amount, divisor, less, items[i]), AheadIn(m, amount, divisor, less, items[i].key);
    forall k ensures k in x <==> k in y {
      if k in x {
        var item :| item in items && item.key == k && (
          Fraction(item, amount, divisor) > Fraction(items[i], amount, divisor)
          || (Fraction(item, amount, divisor) == Fraction(items[i], amount, divisor) && less(item.key, items[i].key)));
        var j :| 0 <= j < |items| && items[j] == item;
        assert keys[j] in keys;
      }
      if k in y {
        assert k in keys;
        var j :| 0 <= j < |keys| && keys[j] == k;
        assert items[j] in items && items[j].key == k;
      }
    }
  }

  /** Rounding a grouped map, exactly: each key gets its share rounded down, and one unit more if and
      only if fewer keys are ahead of it than units are left over. */
  lemma MapAmountIs(m: map<string, int>, amount: int, less: Order, i: nat)
    requires NonNegative(m) && Total(m) > 0 && amount >= 0 && i < |ItemsOf(m, less)|
    ensures var items, total := ItemsOf(m, less), Total(m);
      var key := items[i].key;
      && WeightSum(items) == total && key in m && items[i].weight == m[key]
      && Apportion(items, amount, total, less)[i]
         == m[key] * amount / total
            + if |AheadIn(m, amount, total, less, key)| < amount - Total(Quotients(m, amount, total)) then 1 else 0
  {
    var items := ItemsOf(m, less);
    ItemsOfTotal(m, less);
    ItemsOfAt(m, less, i);
    hide ItemsOf, Apportion, QuotientSum, Ahead, AheadIn, Quotients;
    assert Proportional(items, amount, Total(m));
    AmountIs(items, amount, Total(m), less, i);
    AheadOfItem(m, amount, Total(m), less, i);
    QuotientsTotal(m, amount, Total(m), less);
  }

  lemma QuotientsTotal(m: map<string, int>, amount: int, divisor: int, less: Order)
    requires divisor != 0
    ensures QuotientSum(ItemsOf(m, less), amount, divisor) == Total(Quotients(m, amount, divisor))
  {
    var keys := SortedKeys(m.Keys, less);
    SortedKeysDistinct(m.Keys, less);
    QuotientsAlong(keys, m, ItemsOf(m, less), amount, divisor);
    assert Quotients(m, amount, divisor).Keys == m.Keys;
    SumAlongTotal(keys, Quotients(m, amount, divisor));
  }
}
