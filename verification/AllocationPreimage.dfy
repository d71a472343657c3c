/** The text that `computeFinalClaimantAllocationSetHash` hashes (hashing.ts). */
module AllocationPreimage {
  import opened Wrappers
  import opened Collation
  import opened Integers
  import opened Grouping
  import opened Claimants
  import opened Texts
  import Decimal

  datatype ClaimantUnits = ClaimantUnits(claimant: Claimant, finalUnits: int)

  /** User claimants keep their bare user id. */
  function AllocationKey(c: Claimant): string {
    if c.User? then c.userId else ClaimantKey(c)
  }

  function ByKey(less: Order): (ClaimantUnits, ClaimantUnits) -> bool {
    (a: ClaimantUnits, b: ClaimantUnits) => less(AllocationKey(a.claimant), AllocationKey(b.claimant))
  }

  function Pairs(allocations: seq<ClaimantUnits>): seq<Piece> {
    seq(|allocations|, i requires 0 <= i < |allocations| =>
      Piece(AllocationKey(allocations[i].claimant), allocations[i].finalUnits))
  }

  function LineText(p: Piece): string {
    p.key + ":" + Decimal.ToString(p.units)
  }

  /** The lines after the first, each behind a newline. */
  function MoreLines(ps: seq<Piece>): string {
    if |ps| == 0 then "" else "\n" + LineText(ps[0]) + MoreLines(ps[1..])
  }

  function Joined(ps: seq<Piece>): string {
    if |ps| == 0 then "" else LineText(ps[0]) + MoreLines(ps[1..])
  }

  function Preimage(allocations: seq<ClaimantUnits>, less: Order): string {
    Joined(Pairs(Sort(allocations, ByKey(less))))
  }

  ghost predicate DistinctAllocations(allocations: seq<ClaimantUnits>) {
    forall i, j :: 0 <= i < j < |allocations| ==> AllocationKey(allocations[i].claimant) != AllocationKey(allocations[j].claimant)
  }

  predicate NotNewline(c: char) {
    c != '\n'
  }

  predicate NotColon(c: char) {
    c != ':'
  }

  predicate NotDigit(c: char) {
    !Decimal.IsDigit(c)
  }

  predicate NumberChar(c: char) {
    Decimal.IsDigit(c) || c == '-'
  }

  /** All keys are written in the allowed characters. */
  ghost predicate WrittenIn(allocations: seq<ClaimantUnits>, allowed: char -> bool) {
    forall i :: 0 <= i < |allocations| ==> All(AllocationKey(allocations[i].claimant), allowed)
  }

  /** Keys cannot imitate the end of a line: they lack the newline, the colon, or every digit. */
  ghost predicate Separable(allowed: char -> bool) {
    !allowed('\n') || !allowed(':') || forall d :: Decimal.IsDigit(d) ==> !allowed(d)
  }

  /** The allocation set as a map from key to units. */
  function UnitsByKey(allocations: seq<ClaimantUnits>): map<string, int> {
    Tally(Pairs(allocations))
  }

  // ----- sorting -----

  lemma ByKeyIsWeakOrder(less: Order)
    ensures WeakOrder(ByKey(less))
  {
    hide AllocationKey;
    var before := ByKey(less);
    forall a, b, c | !before(a, b) && !before(b, c) ensures !before(a, c) {
      var x, y, z := AllocationKey(a.claimant), AllocationKey(b.claimant), AllocationKey(c.claimant);
      assert !less(x, y) && !less(y, z);
    }
    forall a, b | before(a, b) ensures !before(b, a) {
      assert less(AllocationKey(a.claimant), AllocationKey(b.claimant));
    }
  }

  lemma SortedByKey(allocations: seq<ClaimantUnits>, less: Order)
    requires DistinctAllocations(allocations)
    ensures var s := Sort(allocations, ByKey(less));
      && DistinctAllocations(s)
      && (forall i, j :: 0 <= i < j < |s| ==> less(AllocationKey(s[i].claimant), AllocationKey(s[j].claimant)))
  {
    hide AllocationKey;
    var s := Sort(allocations, ByKey(less));
    SortKeepsElements(allocations, ByKey(less));
    ByKeyIsWeakOrder(less);
    SortSorts(allocations, ByKey(less));
    DistinctArrangement(allocations, s);
    forall i, j | 0 <= i < j < |s| ensures less(AllocationKey(s[i].claimant), AllocationKey(s[j].claimant)) {
      assert !ByKey(less)(s[j], s[i]);
    }
  }

  lemma {:induction false} DistinctArrangement(a: seq<ClaimantUnits>, b: seq<ClaimantUnits>)
    requires DistinctAllocations(a) && multiset(a) == multiset(b)
    ensures DistinctAllocations(b)
  {
    hide AllocationKey;
    if |a| == 0 {
      assert |multiset(b)| == 0;
    } else {
      var init, last := a[..|a| - 1], a[|a| - 1];
      var before, after := TakeOut(a, b);
      DistinctArrangement(init, before + after);
      forall x: ClaimantUnits | x in before + after ensures AllocationKey(x.claimant) != AllocationKey(last.claimant) {
        assert x in multiset(init);
        var i :| 0 <= i < |init| && init[i] == x;
        assert a[i] == x;
      }
      forall i, j | 0 <= i < j < |b| ensures AllocationKey(b[i].claimant) != AllocationKey(b[j].claimant) {
        RestIndex(before, last, after, i);
        RestIndex(before, last, after, j);
      }
    }
  }

  lemma RestIndex(before: seq<ClaimantUnits>, x: ClaimantUnits, after: seq<ClaimantUnits>, i: nat)
    requires i < |before + [x] + after|
    ensures var all, rest := before + [x] + after, before + after;
      && (i < |before| ==> all[i] == rest[i]) && (i == |before| ==> all[i] == x)
      && (i > |before| ==> all[i] == rest[i - 1])
      && (i != |before| ==> all[i] in rest)
  {
  }

  /** The sorted lines are the map listed in key order: the order of the allocations is gone. */
  lemma PreimageOfMap(allocations: seq<ClaimantUnits>, less: Order)
    requires DistinctAllocations(allocations)
    ensures Preimage(allocations, less) == Joined(KeyPieces(UnitsByKey(allocations), less))
  {
    hide AllocationKey, Joined;
    var s := Sort(allocations, ByKey(less));
    SortedByKey(allocations, less);
    SortKeepsElements(allocations, ByKey(less));
    SameTally(allocations, s);
    OrderedPieces(Pairs(s), less);
  }

  function OnePair(): ClaimantUnits -> seq<Piece> {
    (a: ClaimantUnits) => [Piece(AllocationKey(a.claimant), a.finalUnits)]
  }

  lemma {:induction false} PairsFlat(a: seq<ClaimantUnits>)
    ensures Pairs(a) == FlatMap(a, OnePair())
  {
    hide AllocationKey;
    if |a| > 0 {
      PairsFlat(a[..|a| - 1]);
      assert Pairs(a) == Pairs(a[..|a| - 1]) + OnePair()(a[|a| - 1]);
    }
  }

  lemma SameTally(a: seq<ClaimantUnits>, b: seq<ClaimantUnits>)
    requires multiset(a) == multiset(b)
    ensures Tally(Pairs(a)) == Tally(Pairs(b))
  {
    hide AllocationKey;
    PairsFlat(a);
    PairsFlat(b);
    forall k
      ensures UnitsOf(Pairs(a), k) == UnitsOf(Pairs(b), k) && (Mentions(Pairs(a), k) <==> Mentions(Pairs(b), k))
    {
      FlatMapPermute(a, b, OnePair(), k);
      FlatMapMentionsPermute(a, b, OnePair(), k);
      FlatMapMentionsPermute(b, a, OnePair(), k);
    }
    TallyDeterminedByUnits(Pairs(a), Pairs(b));
  }

  // ----- reading the text back -----

  ghost predicate KeysWrittenIn(ps: seq<Piece>, allowed: char -> bool) {
    forall i :: 0 <= i < |ps| ==> All(ps[i].key, allowed)
  }

  lemma NumberText(n: int)
    ensures var d := Decimal.ToString(n);
      |d| > 0 && All(d, NumberChar) && All(d, NotColon) && All(d, NotNewline)
  {
    Decimal.PrintedCharacters(n);
  }

  /** The rest of the text after a line: nothing, or a newline and more. */
  ghost predicate LineEnds(rest: string) {
    |rest| > 0 ==> rest[0] == '\n'
  }

  /** No newline in keys: the line ends at the first one, and its last colon ends the key. */
  lemma SplitAtNewline(p: Piece, r: string, o: Piece, q: string)
    requires All(p.key, NotNewline) && All(o.key, NotNewline) && LineEnds(r) && LineEnds(q)
    requires LineText(p) + r == LineText(o) + q
    ensures p == o && r == q
  {
    NumberText(p.units);
    NumberText(o.units);
    hide Decimal.ToString;
    SpanSplits(LineText(p), r, LineText(o), q, NotNewline);
    TailSplits(p.key + ":", Decimal.ToString(p.units), o.key + ":", Decimal.ToString(o.units), NotColon);
    assert (p.key + ":")[..|p.key|] == p.key && (o.key + ":")[..|o.key|] == o.key;
    Decimal.PrintedIntegers(p.units, o.units);
  }

  /** No colon in keys: the first one ends the key, and the number is what follows. */
  lemma SplitAtColon(p: Piece, r: string, o: Piece, q: string)
    requires All(p.key, NotColon) && All(o.key, NotColon) && LineEnds(r) && LineEnds(q)
    requires LineText(p) + r == LineText(o) + q
    ensures p == o && r == q
  {
    NumberText(p.units);
    NumberText(o.units);
    var d, e := Decimal.ToString(p.units), Decimal.ToString(o.units);
    hide Decimal.ToString;
    assert LineText(p) + r == p.key + ([':'] + (d + r)) && LineText(o) + q == o.key + ([':'] + (e + q));
    SpanSplits(p.key, [':'] + (d + r), o.key, [':'] + (e + q), NotColon);
    HeadAndTail(':', d + r, ':', e + q);
    SpanSplits(d, r, e, q, NumberChar);
    Decimal.PrintedIntegers(p.units, o.units);
  }

  ghost function Sign(n: int): string {
    if n < 0 then "-" else ""
  }

  /** A line up to its digits. */
  ghost function BeforeDigits(p: Piece): string {
    p.key + ":" + Sign(p.units)
  }

  lemma LineDigits(p: Piece, r: string) returns (digits: string)
    requires All(p.key, NotDigit) && LineEnds(r)
    ensures LineText(p) + r == BeforeDigits(p) + (digits + r) && All(BeforeDigits(p), NotDigit)
    ensures |digits| > 0 && All(digits, Decimal.IsDigit) && Decimal.Value(digits) == Abs(p.units)
  {
    Decimal.PrintsDigits(Abs(p.units));
    Decimal.ValueOfPrinted(Abs(p.units));
    digits := Decimal.NatToString(Abs(p.units));
  }

  lemma BeforeDigitsInjective(p: Piece, o: Piece)
    requires BeforeDigits(p) == BeforeDigits(o)
    ensures p.key == o.key && (p.units < 0 <==> o.units < 0)
  {
    var x, y := BeforeDigits(p), BeforeDigits(o);
    assert x[|x| - 1] == '-' <==> p.units < 0;
    assert y[|y| - 1] == '-' <==> o.units < 0;
    assert x[..|p.key|] == p.key && y[..|o.key|] == o.key;
  }

  /** No digit in keys: the first one starts the number, which ends with its digits. */
  lemma SplitAtDigit(p: Piece, r: string, o: Piece, q: string)
    requires All(p.key, NotDigit) && All(o.key, NotDigit) && LineEnds(r) && LineEnds(q)
    requires LineText(p) + r == LineText(o) + q
    ensures p == o && r == q
  {
    var d := LineDigits(p, r);
    var e := LineDigits(o, q);
    hide LineText, BeforeDigits;
    SpanSplits(BeforeDigits(p), d + r, BeforeDigits(o), e + q, NotDigit);
    SpanSplits(d, r, e, q, Decimal.IsDigit);
    BeforeDigitsInjective(p, o);
  }

  lemma LineSplits(p: Piece, r: string, o: Piece, q: string, allowed: char -> bool)
    requires Separable(allowed) && All(p.key, allowed) && All(o.key, allowed) && LineEnds(r) && LineEnds(q)
    requires LineText(p) + r == LineText(o) + q
    ensures p == o && r == q
  {
    hide LineText;
    if !allowed('\n') {
      SplitAtNewline(p, r, o, q);
    } else if !allowed(':') {
      SplitAtColon(p, r, o, q);
    } else {
      SplitAtDigit(p, r, o, q);
    }
  }

  lemma {:induction false} MoreLinesInjective(ps: seq<Piece>, qs: seq<Piece>, allowed: char -> bool)
    requires Separable(allowed) && KeysWrittenIn(ps, allowed) && KeysWrittenIn(qs, allowed)
    requires MoreLines(ps) == MoreLines(qs)
    ensures ps == qs
  {
    hide LineText, Separable;
    if |ps| > 0 && |qs| > 0 {
      assert MoreLines(ps) == ['\n'] + (LineText(ps[0]) + MoreLines(ps[1..]));
      assert MoreLines(qs) == ['\n'] + (LineText(qs[0]) + MoreLines(qs[1..]));
      HeadAndTail('\n', LineText(ps[0]) + MoreLines(ps[1..]), '\n', LineText(qs[0]) + MoreLines(qs[1..]));
      LineSplits(ps[0], MoreLines(ps[1..]), qs[0], MoreLines(qs[1..]), allowed);
      MoreLinesInjective(ps[1..], qs[1..], allowed);
      assert ps == [ps[0]] + ps[1..] && qs == [qs[0]] + qs[1..];
    }
  }

  lemma LineHasText(p: Piece, rest: string)
    ensures LineText(p) + rest != ""
  {
  }

  lemma JoinedInjective(ps: seq<Piece>, qs: seq<Piece>, allowed: char -> bool)
    requires Separable(allowed) && KeysWrittenIn(ps, allowed) && KeysWrittenIn(qs, allowed)
    requires Joined(ps) == Joined(qs)
    ensures ps == qs
  {
    hide LineText, Separable, MoreLines;
    if |ps| > 0 {
      LineHasText(ps[0], MoreLines(ps[1..]));
    }
    if |qs| > 0 {
      LineHasText(qs[0], MoreLines(qs[1..]));
    }
    if |ps| > 0 && |qs| > 0 {
      MoreLinesEnd(ps[1..]);
      MoreLinesEnd(qs[1..]);
      LineSplits(ps[0], MoreLines(ps[1..]), qs[0], MoreLines(qs[1..]), allowed);
      MoreLinesInjective(ps[1..], qs[1..], allowed);
      assert ps == [ps[0]] + ps[1..] && qs == [qs[0]] + qs[1..];
    }
  }

  lemma MoreLinesEnd(ps: seq<Piece>)
    ensures LineEnds(MoreLines(ps))
  {
  }

  lemma ListedKeysWrittenIn(allocations: seq<ClaimantUnits>, allowed: char -> bool, less: Order)
    requires WrittenIn(allocations, allowed)
    ensures KeysWrittenIn(KeyPieces(UnitsByKey(allocations), less), allowed)
  {
    hide AllocationKey;
    var m := UnitsByKey(allocations);
    SortedKeysDistinct(m.Keys, less);
    TallyAt(Pairs(allocations));
    forall k | k in m ensures All(k, allowed) {
      assert Mentions(Pairs(allocations), k);
      var i :| 0 <= i < |allocations| && Pairs(allocations)[i].key == k;
    }
  }

  /** The signed preimage: for distinct keys that lack the newline, the colon or every digit, two
      allocation sets give the same text exactly when they are the same map from keys to units, in
      whatever order they are listed. */
  lemma PreimageIff(a: seq<ClaimantUnits>, b: seq<ClaimantUnits>, allowed: char -> bool, less: Order)
    requires DistinctAllocations(a) && DistinctAllocations(b)
    requires WrittenIn(a, allowed) && WrittenIn(b, allowed) && Separable(allowed)
    ensures Preimage(a, less) == Preimage(b, less) <==> UnitsByKey(a) == UnitsByKey(b)
  {
    hide Preimage, UnitsByKey, Joined, Separable;
    PreimageOfMap(a, less);
    PreimageOfMap(b, less);
    if Preimage(a, less) == Preimage(b, less) {
      ListedKeysWrittenIn(a, allowed, less);
      ListedKeysWrittenIn(b, allowed, less);
      JoinedInjective(KeyPieces(UnitsByKey(a), less), KeyPieces(UnitsByKey(b), less), allowed);
      KeyPiecesSpec(UnitsByKey(a), less);
      KeyPiecesSpec(UnitsByKey(b), less);
    }
  }

  /** The text identifies every allocation set whose keys are written in the allowed characters. */
  ghost predicate Identifies(allowed: char -> bool, less: Order) {
    forall a, b ::
      && DistinctAllocations(a) && DistinctAllocations(b) && WrittenIn(a, allowed) && WrittenIn(b, allowed)
      && Preimage(a, less) == Preimage(b, less)
      ==> UnitsByKey(a) == UnitsByKey(b)
  }

  /** It does exactly when those characters lack the newline, the colon or every digit. */
  lemma IdentifiesIff(allowed: char -> bool, less: Order)
    ensures Identifies(allowed, less) <==> Separable(allowed)
  {
    hide Preimage, UnitsByKey, DistinctAllocations, WrittenIn;
    if Separable(allowed) {
      forall a, b
        | DistinctAllocations(a) && DistinctAllocations(b) && WrittenIn(a, allowed) && WrittenIn(b, allowed)
          && Preimage(a, less) == Preimage(b, less)
        ensures UnitsByKey(a) == UnitsByKey(b)
      {
        PreimageIff(a, b, allowed, less);
      }
    } else {
      var d :| Decimal.IsDigit(d) && allowed(d);
      var single, pair := KeysCollide(d, allowed, less);
    }
  }

  /** A key names one claimant, up to the login, when user ids do not look like identity keys and
      providers have no colon. */
  lemma AllocationKeyNamesClaimant(c: Claimant, d: Claimant)
    requires (c.User? ==> !(IDENTITY <= c.userId)) && (d.User? ==> !(IDENTITY <= d.userId))
    requires ColonFreeProvider(c) && ColonFreeProvider(d)
    ensures AllocationKey(c) == AllocationKey(d) <==> c.WithoutLogin() == d.WithoutLogin()
  {
    KeyNamesClaimant(c, d);
    assert c.Identity? ==> IDENTITY <= AllocationKey(c);
    assert d.Identity? ==> IDENTITY <= AllocationKey(d);
  }

  /** With a newline, a colon and a digit, one user id can spell the first line and the second key
      of two other users, under any collation. */
  lemma KeysCollide(d: char, allowed: char -> bool, less: Order) returns (single: seq<ClaimantUnits>, pair: seq<ClaimantUnits>)
    requires Decimal.IsDigit(d) && allowed(d) && allowed(':') && allowed('\n')
    ensures DistinctAllocations(single) && DistinctAllocations(pair)
    ensures WrittenIn(single, allowed) && WrittenIn(pair, allowed)
    ensures Preimage(single, less) == Preimage(pair, less) && UnitsByKey(single) != UnitsByKey(pair)
  {
    hide Preimage, UnitsByKey, Decimal.ToString, WrittenIn, DistinctAllocations, All;
    var m := d as int - '0' as int;
    if less([d], [d, d]) {
      single, pair := KeysCollideOn([d], [d, d], d, m, allowed, less);
    } else {
      assert [d] != [d, d];
      single, pair := KeysCollideOn([d, d], [d], d, m, allowed, less);
    }
  }

  lemma KeysCollideOn(first: string, second: string, d: char, m: int, allowed: char -> bool, less: Order)
    returns (single: seq<ClaimantUnits>, pair: seq<ClaimantUnits>)
    requires Decimal.IsDigit(d) && allowed(d) && allowed(':') && allowed('\n') && m == d as int - '0' as int
    requires less(first, second) && first != second && |first| <= 2 && |second| <= 2
    requires (forall i :: 0 <= i < |first| ==> first[i] == d) && (forall i :: 0 <= i < |second| ==> second[i] == d)
    ensures DistinctAllocations(single) && DistinctAllocations(pair)
    ensures WrittenIn(single, allowed) && WrittenIn(pair, allowed)
    ensures Preimage(single, less) == Preimage(pair, less) && UnitsByKey(single) != UnitsByKey(pair)
  {
    hide Preimage, UnitsByKey, Decimal.ToString, WrittenIn, DistinctAllocations;
    var key := first + ":" + [d] + "\n" + second;
    single, pair := [ClaimantUnits(User(key), m)], [ClaimantUnits(User(first), m), ClaimantUnits(User(second), m)];
    DifferentMaps(key, first, second, m);
    DigitPrints(d);
    CollidingTexts(first, [d], second, m, less);
    UserSets(single, pair, key, first, second, m, allowed);
  }

  lemma DigitPrints(d: char)
    requires Decimal.IsDigit(d)
    ensures Decimal.ToString(d as int - '0' as int) == [d]
  {
  }

  lemma UserSets(
    single: seq<ClaimantUnits>, pair: seq<ClaimantUnits>, key: string, first: string, second: string, units: int, allowed: char -> bool)
    requires single == [ClaimantUnits(User(key), units)] && first != second
    requires pair == [ClaimantUnits(User(first), units), ClaimantUnits(User(second), units)]
    requires All(key, allowed) && All(first, allowed) && All(second, allowed)
    ensures DistinctAllocations(single) && DistinctAllocations(pair)
    ensures WrittenIn(single, allowed) && WrittenIn(pair, allowed)
  {
  }

  lemma DifferentMaps(key: string, first: string, second: string, units: int)
    requires |first| <= 2 && |second| <= 2 < |key|
    ensures UnitsByKey([ClaimantUnits(User(key), units)]) != UnitsByKey([ClaimantUnits(User(first), units), ClaimantUnits(User(second), units)])
  {
    var single, pair := [ClaimantUnits(User(key), units)], [ClaimantUnits(User(first), units), ClaimantUnits(User(second), units)];
    TallyAt(Pairs(single));
    TallyAt(Pairs(pair));
    assert Pairs(single)[0].key == key && Pairs(pair)[0].key == first && Pairs(pair)[1].key == second;
    assert Mentions(Pairs(single), key) && !Mentions(Pairs(pair), key);
    hide Tally;
  }

  lemma CollidingTexts(first: string, digits: string, second: string, units: int, less: Order)
    requires less(first, second) && Decimal.ToString(units) == digits
    ensures Preimage([ClaimantUnits(User(first + ":" + digits + "\n" + second), units)], less)
         == Preimage([ClaimantUnits(User(first), units), ClaimantUnits(User(second), units)], less)
  {
    OneLineOrTwo(first, digits, second, units);
    assert LineText(Piece(first, units)) == first + ":" + digits;
    hide LineText, Preimage;
    OneUser(first + ":" + digits + "\n" + second, units, less);
    TwoUsers(first, units, second, units, less);
  }

  lemma OneLineOrTwo(x: string, m: string, y: string, n: int)
    ensures x + ":" + m + "\n" + LineText(Piece(y, n)) == LineText(Piece(x + ":" + m + "\n" + y, n))
  {
  }

  lemma OneUser(key: string, units: int, less: Order)
    ensures Preimage([ClaimantUnits(User(key), units)], less) == LineText(Piece(key, units))
  {
    hide LineText;
    var single := [ClaimantUnits(User(key), units)];
    SortOne(single[0], ByKey(less));
    assert Pairs(single) == [Piece(key, units)];
    TwoLines(Piece(key, units), Piece(key, units));
  }

  lemma TwoUsers(first: string, m: int, second: string, n: int, less: Order)
    requires less(first, second)
    ensures Preimage([ClaimantUnits(User(first), m), ClaimantUnits(User(second), n)], less)
         == LineText(Piece(first, m)) + "\n" + LineText(Piece(second, n))
  {
    hide LineText;
    var a, b, before := ClaimantUnits(User(first), m), ClaimantUnits(User(second), n), ByKey(less);
    assert less(second, first) ==> less(first, first);
    assert AllocationKey(a.claimant) == first && AllocationKey(b.claimant) == second;
    SortTwo(a, b, before);
    assert Pairs([a, b]) == [Piece(first, m), Piece(second, n)];
    TwoLines(Piece(first, m), Piece(second, n));
  }

  lemma SortTwo<T>(a: T, b: T, before: (T, T) -> bool)
    requires before(a, b) && !before(b, a)
    ensures Sort([a, b], before) == [a, b]
  {
    assert [a, b][..1] == [a];
    SortOne(a, before);
  }

  lemma SortOne<T>(a: T, before: (T, T) -> bool)
    ensures Sort([a], before) == [a] && Insert(a, [], before) == [a]
  {
  }

  lemma TwoLines(p: Piece, o: Piece)
    ensures Joined([p, o]) == LineText(p) + "\n" + LineText(o)
    ensures Joined([p]) == LineText(p)
  {
    hide LineText;
    assert [p, o][1..] == [o] && [o][1..] == [] && [p][1..] == [];
    assert MoreLines([o]) == "\n" + LineText(o);
    assert LineText(p) + ("\n" + LineText(o)) == LineText(p) + "\n" + LineText(o);
  }
}
