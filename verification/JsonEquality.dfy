/** Which values canonical JSON identifies: CANONICAL_JSON is insensitive to object key order and
    otherwise injective. */
module JsonEquality {
  import opened Collation
  import opened CanonicalJson
  import Decimal

  /** A BigInt prints as its decimal string. */
  function AsText(v: Json): Json {
    if v.BigInt? then Str(Decimal.ToString(v.n)) else v
  }

  /** Equal up to the order of object keys at every depth and the identification of a BigInt with
      its decimal string; properties under a dropped key are not looked at. */
  ghost predicate Same(v: Json, w: Json, dropped: set<string>)
    decreases v
  {
    match v
    case Arr(items) =>
      w.Arr? && |w.items| == |items| && forall i :: 0 <= i < |items| ==> Same(items[i], w.items[i], dropped)
    case Obj(props) =>
      && w.Obj?
      && (forall i :: 0 <= i < |props| && props[i].key !in dropped ==>
            exists j :: 0 <= j < |w.props| && w.props[j].key == props[i].key && Same(props[i].value, w.props[j].value, dropped))
      && (forall j :: 0 <= j < |w.props| && w.props[j].key !in dropped ==> w.props[j].key in Keys(props))
    case _ => AsText(v) == AsText(w)
  }

  // ----- rebuilt objects -----

  lemma {:induction false} LookupAt(props: seq<Prop>, i: nat)
    requires DistinctKeys(props) && i < |props|
    ensures props[i].key in Keys(props) && Lookup(props, props[i].key) == props[i].value
  {
  }

  lemma KeyIndex(props: seq<Prop>, key: string) returns (i: nat)
    requires key in Keys(props)
    ensures i < |props| && props[i].key == key
  {
    var p :| p in props && p.key == key;
    i :| 0 <= i < |props| && props[i] == p;
  }

  lemma {:induction false} SortPropsEqualIff(a: seq<Prop>, b: seq<Prop>, less: Order)
    ensures SortProps(a, less) == SortProps(b, less) <==> SameLookups(a, b)
  {
    hide Lookup, Keys;
    var ka, kb := SortedKeys(Keys(a) - {PROTO}, less), SortedKeys(Keys(b) - {PROTO}, less);
    var sa, sb := SortProps(a, less), SortProps(b, less);
    if sa == sb {
      assert |ka| == |kb| by {
        assert |sa| == |ka| && |sb| == |kb|;
      }
      forall i | 0 <= i < |ka| ensures ka[i] == kb[i] && Lookup(a, ka[i]) == Lookup(b, ka[i]) {
        assert sa[i] == sb[i];
      }
      assert ka == kb;
      forall k ensures k in Keys(a) - {PROTO} <==> k in Keys(b) - {PROTO} {
        assert k in ka <==> k in kb;
      }
      forall k | k in Keys(a) - {PROTO} ensures Lookup(a, k) == Lookup(b, k) {
        assert k in ka;
        var i :| 0 <= i < |ka| && ka[i] == k;
      }
    } else if Keys(a) - {PROTO} == Keys(b) - {PROTO} {
      assert ka == kb && |sa| == |sb|;
      var i :| 0 <= i < |sa| && sa[i] != sb[i];
      assert ka[i] in ka && Lookup(a, ka[i]) != Lookup(b, ka[i]);
    }
  }

  function CanonValues(props: seq<Prop>, less: Order): seq<Prop> {
    seq(|props|, i requires 0 <= i < |props| => Prop(props[i].key, Canon(props[i].value, less)))
  }

  lemma CanonValuesKeys(props: seq<Prop>, less: Order)
    ensures Keys(CanonValues(props, less)) == Keys(props)
    ensures DistinctKeys(props) ==> DistinctKeys(CanonValues(props, less))
  {
    hide Canon;
    var c := CanonValues(props, less);
    forall k ensures k in Keys(c) <==> k in Keys(props) {
      if k in Keys(props) {
        var i := KeyIndex(props, k);
        assert c[i] in c;
      }
      if k in Keys(c) {
        var i := KeyIndex(c, k);
        assert props[i] in props;
      }
    }
  }

  lemma CanonUnfold(v: Json, less: Order)
    ensures v.Obj? ==> Canon(v, less) == Obj(SortProps(CanonValues(v.props, less), less))
    ensures v.Arr? ==> Canon(v, less).Arr? && |Canon(v, less).items| == |v.items|
    ensures v.Arr? ==> forall i :: 0 <= i < |v.items| ==> Canon(v, less).items[i] == Canon(v.items[i], less)
    ensures !v.Obj? && !v.Arr? ==> Canon(v, less) == AsText(v)
  {
  }

  /** Two values canonicalize alike exactly when they are the same up to key order. */
  lemma {:induction false} CanonEqualIff(v: Json, w: Json, less: Order)
    requires WellFormed(v) && WellFormed(w)
    ensures Canon(v, less) == Canon(w, less) <==> Same(v, w, {PROTO})
    decreases v
  {
    hide Keys, Lookup, SortProps;
    CanonUnfold(v, less);
    CanonUnfold(w, less);
    if v.Arr? && w.Arr? {
      if |v.items| == |w.items| {
        forall i | 0 <= i < |v.items|
          ensures Canon(v, less).items[i] == Canon(w, less).items[i] <==> Same(v.items[i], w.items[i], {PROTO})
        {
          CanonEqualIff(v.items[i], w.items[i], less);
        }
        hide Canon;
      }
    } else if v.Obj? && w.Obj? {
      forall i, j | 0 <= i < |v.props| && 0 <= j < |w.props|
        ensures Canon(v.props[i].value, less) == Canon(w.props[j].value, less) <==> Same(v.props[i].value, w.props[j].value, {PROTO})
      {
        CanonEqualIff(v.props[i].value, w.props[j].value, less);
      }
      hide Canon, Same;
      ObjectsEqualIff(v, w, less);
    }
  }

  lemma {:induction false} ObjectsEqualIff(v: Json, w: Json, less: Order)
    requires v.Obj? && w.Obj? && DistinctKeys(v.props) && DistinctKeys(w.props) && ValuesCanonAlike(v, w, less)
    ensures Canon(v, less) == Canon(w, less) <==> Same(v, w, {PROTO})
  {
    hide Canon, Same, SameLookups;
    CanonUnfold(v, less);
    CanonUnfold(w, less);
    SortPropsEqualIff(CanonValues(v.props, less), CanonValues(w.props, less), less);
    if Same(v, w, {PROTO}) {
      SameGivesLookups(v, w, less);
    } else if SameLookups(CanonValues(v.props, less), CanonValues(w.props, less)) {
      LookupsGiveSame(v, w, less);
    }
  }

  /** The same keys, other than the dropped one, with the same values. */
  ghost predicate SameLookups(a: seq<Prop>, b: seq<Prop>) {
    Keys(a) - {PROTO} == Keys(b) - {PROTO} && forall k :: k in Keys(a) - {PROTO} ==> Lookup(a, k) == Lookup(b, k)
  }

  ghost predicate ValuesCanonAlike(v: Json, w: Json, less: Order)
    requires v.Obj? && w.Obj?
  {
    forall i, j :: 0 <= i < |v.props| && 0 <= j < |w.props| ==>
      (Canon(v.props[i].value, less) == Canon(w.props[j].value, less) <==> Same(v.props[i].value, w.props[j].value, {PROTO}))
  }

  /** The object case, property by property. */
  lemma {:induction false} LookupsGiveSame(v: Json, w: Json, less: Order)
    requires v.Obj? && w.Obj? && DistinctKeys(v.props) && DistinctKeys(w.props) && ValuesCanonAlike(v, w, less)
    requires SameLookups(CanonValues(v.props, less), CanonValues(w.props, less))
    ensures Same(v, w, {PROTO})
  {
    hide Canon, Keys, Lookup;
    var a, b := CanonValues(v.props, less), CanonValues(w.props, less);
    CanonValuesKeys(v.props, less);
    CanonValuesKeys(w.props, less);
    forall i | 0 <= i < |v.props| && v.props[i].key != PROTO
      ensures exists j :: 0 <= j < |w.props| && w.props[j].key == v.props[i].key && Same(v.props[i].value, w.props[j].value, {PROTO})
    {
      LookupAt(a, i);
      assert a[i].key in Keys(b);
      var j := KeyIndex(b, a[i].key);
      LookupAt(b, j);
      assert Same(v.props[i].value, w.props[j].value, {PROTO});
    }
    forall j | 0 <= j < |w.props| && w.props[j].key != PROTO ensures w.props[j].key in Keys(v.props) {
      LookupAt(b, j);
      assert b[j].key in Keys(a);
    }
  }

  lemma {:induction false} SameGivesLookups(v: Json, w: Json, less: Order)
    requires v.Obj? && w.Obj? && DistinctKeys(v.props) && DistinctKeys(w.props) && ValuesCanonAlike(v, w, less)
    requires Same(v, w, {PROTO})
    ensures SameLookups(CanonValues(v.props, less), CanonValues(w.props, less))
  {
    var a, b := CanonValues(v.props, less), CanonValues(w.props, less);
    hide Canon, Keys, Lookup, Same;
    forall k | k in Keys(a) - {PROTO} ensures k in Keys(b) && Lookup(a, k) == Lookup(b, k) {
      var i := KeyIndex(a, k);
      MatchedLookup(v, w, less, i);
    }
    forall k | k in Keys(b) - {PROTO} ensures k in Keys(a) {
      var j := KeyIndex(b, k);
      MatchedKey(v, w, less, j);
    }
  }

  lemma {:induction false} MatchedLookup(v: Json, w: Json, less: Order, i: nat)
    requires v.Obj? && w.Obj? && DistinctKeys(v.props) && DistinctKeys(w.props) && ValuesCanonAlike(v, w, less)
    requires Same(v, w, {PROTO}) && i < |v.props| && v.props[i].key != PROTO
    ensures var a, b, key := CanonValues(v.props, less), CanonValues(w.props, less), v.props[i].key;
      key in Keys(b) && Lookup(a, key) == Lookup(b, key)
  {
    hide Canon, Keys, Lookup, Same;
    var a, b := CanonValues(v.props, less), CanonValues(w.props, less);
    var j := SameFinds(v, w, i);
    assert a[i].key == b[j].key == v.props[i].key && a[i].value == b[j].value;
    CanonValuesKeys(v.props, less);
    CanonValuesKeys(w.props, less);
    hide CanonValues, ValuesCanonAlike;
    LookupAt(a, i);
    LookupAt(b, j);
  }

  lemma {:induction false} SameFinds(v: Json, w: Json, i: nat) returns (j: nat)
    requires v.Obj? && w.Obj? && Same(v, w, {PROTO}) && i < |v.props| && v.props[i].key != PROTO
    ensures j < |w.props| && w.props[j].key == v.props[i].key && Same(v.props[i].value, w.props[j].value, {PROTO})
  {
    j :| 0 <= j < |w.props| && w.props[j].key == v.props[i].key && Same(v.props[i].value, w.props[j].value, {PROTO});
  }

  lemma {:induction false} MatchedKey(v: Json, w: Json, less: Order, j: nat)
    requires v.Obj? && w.Obj? && DistinctKeys(v.props)
    requires Same(v, w, {PROTO}) && j < |w.props| && w.props[j].key != PROTO
    ensures w.props[j].key in Keys(CanonValues(v.props, less))
  {
    hide Canon, Keys, Lookup;
    CanonValuesKeys(v.props, less);
  }

  /** The keys of every object, at every depth, are in strict order, and none is `__proto__`. */
  ghost predicate KeysSorted(v: Json, less: Order) {
    match v
    case Arr(items) => forall i :: 0 <= i < |items| ==> KeysSorted(items[i], less)
    case Obj(props) =>
      && (forall i, j :: 0 <= i < j < |props| ==> less(props[i].key, props[j].key))
      && (forall i :: 0 <= i < |props| ==> props[i].key != PROTO && KeysSorted(props[i].value, less))
    case _ => true
  }

  ghost predicate AllValuesSorted(props: seq<Prop>, less: Order) {
    forall i :: 0 <= i < |props| ==> KeysSorted(props[i].value, less)
  }

  lemma RebuiltSorted(props: seq<Prop>, less: Order)
    requires AllValuesSorted(props, less)
    ensures KeysSorted(Obj(SortProps(props, less)), less)
  {
    hide Lookup, Keys;
    var keys, sorted := SortedKeys(Keys(props) - {PROTO}, less), SortProps(props, less);
    SortedKeysOrdered(Keys(props) - {PROTO}, less);
    forall i | 0 <= i < |sorted| ensures sorted[i].key != PROTO && KeysSorted(sorted[i].value, less) {
      assert keys[i] in keys;
      var p := Prop(keys[i], Lookup(props, keys[i]));
      assert p in props;
      var j :| 0 <= j < |props| && props[j] == p;
    }
  }

  /** Sorted keys at every depth, as CANONICAL_JSON promises. */
  lemma {:induction false} CanonIsSorted(v: Json, less: Order)
    ensures KeysSorted(Canon(v, less), less)
    decreases v
  {
    CanonUnfold(v, less);
    hide Canon, SortProps, Keys, Lookup;
    match v
    case Arr(items) =>
      forall i | 0 <= i < |items| ensures KeysSorted(Canon(v, less).items[i], less) {
        CanonIsSorted(items[i], less);
      }
    case Obj(props) =>
      var c := CanonValues(props, less);
      forall i | 0 <= i < |c| ensures KeysSorted(c[i].value, less) {
        CanonIsSorted(props[i].value, less);
      }
      hide KeysSorted;
      RebuiltSorted(c, less);
    case _ =>
  }

  /** The replacer leaves a printable value. */
  lemma {:induction false} CanonIsPlain(v: Json, less: Order)
    requires WellFormed(v)
    ensures Plain(Canon(v, less))
    decreases v
  {
    CanonUnfold(v, less);
    match v
    case Arr(items) =>
      forall i | 0 <= i < |items| ensures Plain(Canon(v, less).items[i]) {
        CanonIsPlain(items[i], less);
      }
    case Obj(props) =>
      var c := CanonValues(props, less);
      forall i | 0 <= i < |c| ensures Plain(c[i].value) {
        CanonIsPlain(props[i].value, less);
      }
      SortedPlain(c, less);
    case _ =>
  }

  lemma SortedPlain(props: seq<Prop>, less: Order)
    requires AllPlainProps(props)
    ensures AllPlainProps(SortProps(props, less))
  {
    hide Plain, Lookup, Keys;
    var keys := SortedKeys(Keys(props) - {PROTO}, less);
    forall i | 0 <= i < |keys| ensures Plain(SortProps(props, less)[i].value) {
      assert keys[i] in keys;
      var p := Prop(keys[i], Lookup(props, keys[i]));
      assert p in props;
      var j :| 0 <= j < |props| && props[j] == p;
    }
  }

  /** CANONICAL_JSON: two values print the same text exactly when they are equal up to object key
      order at every depth, a BigInt counting as its decimal string and `__proto__` not counting. */
  lemma {:induction false} CanonicalTextIff(v: Json, w: Json, less: Order)
    requires WellFormed(v) && WellFormed(w)
    ensures CanonicalJsonStringify(v, less) == CanonicalJsonStringify(w, less) <==> Same(v, w, {PROTO})
  {
    CanonEqualIff(v, w, less);
    CanonIsPlain(v, less);
    CanonIsPlain(w, less);
    if CanonicalJsonStringify(v, less) == CanonicalJsonStringify(w, less) {
      hide Print, Canon;
      assert Print(Canon(v, less)) + "" == Print(Canon(w, less)) + "";
      PrintInjective(Canon(v, less), Canon(w, less), "", "");
    }
  }

  // ----- the dropped key -----

  ghost predicate NoProto(v: Json)
    decreases v
  {
    match v
    case Arr(items) => forall i :: 0 <= i < |items| ==> NoProto(items[i])
    case Obj(props) => forall i :: 0 <= i < |props| ==> props[i].key != PROTO && NoProto(props[i].value)
    case _ => true
  }

  lemma {:induction false} NothingDropped(v: Json, w: Json)
    requires NoProto(v) && NoProto(w)
    ensures Same(v, w, {PROTO}) <==> Same(v, w, {})
    decreases v
  {
    if v.Arr? && w.Arr? && |v.items| == |w.items| {
      forall i | 0 <= i < |v.items| ensures Same(v.items[i], w.items[i], {PROTO}) <==> Same(v.items[i], w.items[i], {}) {
        NothingDropped(v.items[i], w.items[i]);
      }
    } else if v.Obj? && w.Obj? {
      forall i, j | 0 <= i < |v.props| && 0 <= j < |w.props|
        ensures Same(v.props[i].value, w.props[j].value, {PROTO}) <==> Same(v.props[i].value, w.props[j].value, {})
      {
        NothingDropped(v.props[i].value, w.props[j].value);
      }
      SameObjectNarrower(v, w, {PROTO}, {});
      SameObjectNarrower(v, w, {}, {PROTO});
    }
  }

  lemma SameObjectNarrower(v: Json, w: Json, from: set<string>, to: set<string>)
    requires v.Obj? && w.Obj?
    requires forall i :: 0 <= i < |v.props| ==> v.props[i].key !in from && v.props[i].key !in to
    requires forall j :: 0 <= j < |w.props| ==> w.props[j].key !in from && w.props[j].key !in to
    requires forall i, j :: 0 <= i < |v.props| && 0 <= j < |w.props| ==>
      (Same(v.props[i].value, w.props[j].value, from) <==> Same(v.props[i].value, w.props[j].value, to))
    ensures Same(v, w, from) ==> Same(v, w, to)
  {
  }

  /** Without a `__proto__` key the text identifies a value exactly up to key order. */
  lemma {:induction false} CanonicalTextIdentifies(v: Json, w: Json, less: Order)
    requires WellFormed(v) && WellFormed(w) && NoProto(v) && NoProto(w)
    ensures CanonicalJsonStringify(v, less) == CanonicalJsonStringify(w, less) <==> Same(v, w, {})
  {
    CanonicalTextIff(v, w, less);
    NothingDropped(v, w);
  }

  /** With one it does not: the property is not in the text. */
  lemma {:induction false} ProtoPropertyIsNotPrinted(less: Order)
    ensures var v, w := Obj([Prop(PROTO, Num("1"))]), Obj([]);
      && WellFormed(v) && WellFormed(w) && !Same(v, w, {})
      && CanonicalJsonStringify(v, less) == CanonicalJsonStringify(w, less)
  {
    var v, w := Obj([Prop(PROTO, Num("1"))]), Obj([]);
    assert v.props[0].key == PROTO;
    assert Same(v, w, {PROTO});
    CanonicalTextIff(v, w, less);
  }
}
