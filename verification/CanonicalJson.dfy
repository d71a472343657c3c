/** Canonical JSON (hashing.ts, `canonicalJsonStringify`): the text that is hashed and signed.

    Text grammar as in sections 3 to 7 of RFC 8259. A number stands for the text the runtime
    prints for it. `less` is the order in which the runtime lists the keys of the rebuilt object. */
module CanonicalJson {
  import opened Wrappers
  import opened Collation
  import opened Texts
  import Decimal

  datatype Json =
    | Null
    | Bool(b: bool)
    | Num(text: string)
    | BigInt(n: int)
    | Str(s: string)
    | Arr(items: seq<Json>)
    | Obj(props: seq<Prop>)

  datatype Prop = Prop(key: string, value: Json)

  /** Assigning this key on a plain object sets its prototype and creates no property. */
  const PROTO := "__proto__"

  // ----- well-formed values -----

  predicate NumberChar(c: char) {
    '0' <= c <= '9' || c == '-' || c == '+' || c == '.' || c == 'e' || c == 'E'
  }

  /** What injectivity needs of a printed number; every number of RFC 8259 section 6 qualifies. */
  ghost predicate NumberText(s: string) {
    && |s| > 0 && ('0' <= s[0] <= '9' || s[0] == '-')
    && forall i :: 0 <= i < |s| ==> NumberChar(s[i])
  }

  ghost predicate DistinctKeys(props: seq<Prop>) {
    forall i, j :: 0 <= i < j < |props| ==> props[i].key != props[j].key
  }

  ghost predicate WellFormed(v: Json) {
    match v
    case Num(text) => NumberText(text)
    case Arr(items) => forall i :: 0 <= i < |items| ==> WellFormed(items[i])
    case Obj(props) => DistinctKeys(props) && forall i :: 0 <= i < |props| ==> WellFormed(props[i].value)
    case _ => true
  }

  // ----- the replacer -----

  function Keys(props: seq<Prop>): set<string> {
    set p | p in props :: p.key
  }

  function Lookup(props: seq<Prop>, key: string): (v: Json)
    ensures key in Keys(props) ==> Prop(key, v) in props
  {
    if |props| == 0 then Null
    else if props[0].key == key then props[0].value
    else
      assert key in Keys(props) ==> key in Keys(props[1..]);
      Lookup(props[1..], key)
  }

  function ListProps(keys: seq<string>, props: seq<Prop>): seq<Prop> {
    seq(|keys|, i requires 0 <= i < |keys| => Prop(keys[i], Lookup(props, keys[i])))
  }

  /** The properties of the rebuilt object, as the runtime lists them. */
  function SortProps(props: seq<Prop>, less: Order): seq<Prop> {
    ListProps(SortedKeys(Keys(props) - {PROTO}, less), props)
  }

  /** The replacer on an object: assign its properties to an empty object in key order. */
  method RebuildObject(props: seq<Prop>, less: Order) returns (sorted: seq<Prop>)
    ensures sorted == SortProps(props, less)
  {
    var keys := SortedKeys(Keys(props), less);
    SortedKeysOrdered(Keys(props), less);
    sorted := [];
    ghost var kept: seq<string> := [];
    for i := 0 to |keys|
      invariant sorted == ListProps(kept, props)
      invariant forall k :: k in kept <==> k in keys[..i] && k != PROTO
      invariant StrictlySorted(kept, less)
    {
      assert keys[..i + 1] == keys[..i] + [keys[i]];
      if keys[i] != PROTO {
        forall j | 0 <= j < |kept| ensures less(kept[j], keys[i]) {
          assert kept[j] in kept;
          var m :| 0 <= m < i && keys[..i][m] == kept[j];
        }
        sorted := sorted + [Prop(keys[i], Lookup(props, keys[i]))];
        kept := kept + [keys[i]];
      }
    }
    assert keys[..|keys|] == keys;
    SortedKeysOrdered(Keys(props) - {PROTO}, less);
    SortedUnique(kept, SortedKeys(Keys(props) - {PROTO}, less), less);
  }

  /** The value the replacer leaves to be printed, at every depth. */
  function Canon(v: Json, less: Order): Json {
    match v
    case BigInt(n) => Str(Decimal.ToString(n))
    case Arr(items) => Arr(seq(|items|, i requires 0 <= i < |items| => Canon(items[i], less)))
    case Obj(props) =>
      Obj(SortProps(seq(|props|, i requires 0 <= i < |props| => Prop(props[i].key, Canon(props[i].value, less))), less))
    case _ => v
  }

  // ----- the printer -----

  function HexDigit(d: nat): char
    requires d < 16
  {
    if d < 10 then ('0' as int + d) as char else ('a' as int + d - 10) as char
  }

  function EscapeChar(c: char): string {
    if c == '\"' then "\\\""
    else if c == '\\' then "\\\\"
    else if c as int == 8 then "\\b"
    else if c as int == 9 then "\\t"
    else if c as int == 10 then "\\n"
    else if c as int == 12 then "\\f"
    else if c as int == 13 then "\\r"
    else if c as int < 0x20 then "\\u00" + [HexDigit(c as int / 16), HexDigit(c as int % 16)]
    else [c]
  }

  function Escape(s: string): string {
    if |s| == 0 then "" else EscapeChar(s[0]) + Escape(s[1..])
  }

  function Quote(s: string): string {
    "\"" + Escape(s) + "\""
  }

  function Print(v: Json): string
    decreases v, 1
  {
    match v
    case Null => "null"
    case Bool(b) => if b then "true" else "false"
    case Num(text) => text
    case BigInt(_) => ""
    case Str(s) => Quote(s)
    case Arr(items) => "[" + (if |items| == 0 then "" else Print(items[0]) + PrintMore(items[1..])) + "]"
    case Obj(props) => "{" + (if |props| == 0 then "" else PrintProp(props[0]) + PrintMoreProps(props[1..])) + "}"
  }

  function PrintMore(items: seq<Json>): string
    decreases items, 0
  {
    if |items| == 0 then "" else "," + Print(items[0]) + PrintMore(items[1..])
  }

  function PrintProp(p: Prop): string
    decreases p, 2
  {
    Quote(p.key) + ":" + Print(p.value)
  }

  function PrintMoreProps(props: seq<Prop>): string
    decreases props, 0
  {
    if |props| == 0 then "" else "," + PrintProp(props[0]) + PrintMoreProps(props[1..])
  }

  /** The text that is hashed. */
  function CanonicalJsonStringify(v: Json, less: Order): string {
    Print(Canon(v, less))
  }

  // ----- a reader, after sections 3 to 7 of RFC 8259 -----
  //
  // It reads the texts without white space; numbers are read as far as number characters go.

  function HexValue(c: char): (d: int)
    ensures -1 <= d < 16
  {
    if '0' <= c <= '9' then c as int - '0' as int
    else if 'a' <= c <= 'f' then c as int - 'a' as int + 10
    else if 'A' <= c <= 'F' then c as int - 'A' as int + 10
    else -1
  }

  /** The character of four hexadecimal digits; surrogates are not read. */
  function ReadHex(t: string): Option<char> {
    if |t| < 4 || HexValue(t[0]) < 0 || HexValue(t[1]) < 0 || HexValue(t[2]) < 0 || HexValue(t[3]) < 0 then None
    else
      var code := ((HexValue(t[0]) * 16 + HexValue(t[1])) * 16 + HexValue(t[2])) * 16 + HexValue(t[3]);
      if 0xD800 <= code < 0xE000 then None else Some(code as char)
  }

  /** One character of a string, and how much text it takes. */
  function ReadChar(t: string): (r: Option<(char, nat)>)
    ensures r.Some? ==> 0 < r.value.1 <= |t|
  {
    if |t| == 0 || t[0] == '\"' || t[0] as int < 0x20 then None
    else if t[0] != '\\' then Some((t[0], 1))
    else if |t| < 2 then None
    else
      match t[1]
      case '\"' => Some(('\"', 2))
      case '\\' => Some(('\\', 2))
      case '/' => Some(('/', 2))
      case 'b' => Some((8 as char, 2))
      case 'f' => Some((12 as char, 2))
      case 'n' => Some((10 as char, 2))
      case 'r' => Some((13 as char, 2))
      case 't' => Some((9 as char, 2))
      case 'u' => (match ReadHex(t[2..]) case None => None case Some(c) => Some((c, 6)))
      case _ => None
  }

  /** The rest of a string and its closing quotation mark. */
  function ReadString(t: string): (r: Option<(string, string)>)
    ensures r.Some? ==> |r.value.1| < |t|
  {
    if |t| == 0 then None
    else if t[0] == '\"' then Some(("", t[1..]))
    else
      match ReadChar(t)
      case None => None
      case Some((c, n)) =>
        match ReadString(t[n..])
        case None => None
        case Some((s, rest)) => Some(([c] + s, rest))
  }

  function ReadWord(word: string, v: Json, t: string): (r: Option<(Json, string)>)
    requires |word| > 0
    ensures r.Some? ==> |r.value.1| < |t|
  {
    if word <= t then Some((v, t[|word|..])) else None
  }

  function ReadValue(t: string): (r: Option<(Json, string)>)
    ensures r.Some? ==> |r.value.1| < |t|
    decreases |t|, 1
  {
    if |t| == 0 then None
    else if t[0] == 'n' then ReadWord("null", Null, t)
    else if t[0] == 't' then ReadWord("true", Bool(true), t)
    else if t[0] == 'f' then ReadWord("false", Bool(false), t)
    else if '0' <= t[0] <= '9' || t[0] == '-' then
      var n := SpanLength(t, NumberChar);
      Some((Num(t[..n]), t[n..]))
    else if t[0] == '\"' then
      match ReadString(t[1..])
      case None => None
      case Some((s, rest)) => Some((Str(s), rest))
    else if t[0] == '[' then ReadArray(t[1..])
    else if t[0] == '{' then ReadObject(t[1..])
    else None
  }

  /** An array from its opening bracket on. */
  function ReadArray(t: string): (r: Option<(Json, string)>)
    ensures r.Some? ==> |r.value.1| < |t|
    decreases |t|, 3
  {
    if |t| > 0 && t[0] == ']' then Some((Arr([]), t[1..]))
    else
      match ReadItems(t)
      case None => None
      case Some((items, rest)) => Some((Arr(items), rest))
  }

  /** An object from its opening brace on. */
  function ReadObject(t: string): (r: Option<(Json, string)>)
    ensures r.Some? ==> |r.value.1| < |t|
    decreases |t|, 3
  {
    if |t| > 0 && t[0] == '}' then Some((Obj([]), t[1..]))
    else
      match ReadProps(t)
      case None => None
      case Some((props, rest)) => Some((Obj(props), rest))
  }

  /** Values with commas between them, up to the closing bracket. */
  function ReadItems(t: string): (r: Option<(seq<Json>, string)>)
    ensures r.Some? ==> |r.value.1| < |t|
    decreases |t|, 2
  {
    match ReadValue(t)
    case None => None
    case Some((v, rest)) =>
      if |rest| == 0 then None
      else if rest[0] == ']' then Some(([v], rest[1..]))
      else if rest[0] != ',' then None
      else
        match ReadItems(rest[1..])
        case None => None
        case Some((items, end)) => Some(([v] + items, end))
  }

  /** Members with commas between them, up to the closing brace. */
  function ReadProps(t: string): (r: Option<(seq<Prop>, string)>)
    ensures r.Some? ==> |r.value.1| < |t|
    decreases |t|, 2
  {
    match ReadProp(t)
    case None => None
    case Some((p, rest)) =>
      if |rest| == 0 then None
      else if rest[0] == '}' then Some(([p], rest[1..]))
      else if rest[0] != ',' then None
      else
        match ReadProps(rest[1..])
        case None => None
        case Some((props, end)) => Some(([p] + props, end))
  }

  function ReadProp(t: string): (r: Option<(Prop, string)>)
    ensures r.Some? ==> |r.value.1| < |t|
    decreases |t|, 1
  {
    if |t| == 0 || t[0] != '\"' then None
    else
      match ReadString(t[1..])
      case None => None
      case Some((key, rest)) =>
        if |rest| == 0 || rest[0] != ':' then None
        else
          match ReadValue(rest[1..])
          case None => None
          case Some((v, end)) => Some((Prop(key, v), end))
  }

  // ----- what is printed is read back -----

  /** Which characters are escaped, and how briefly. */
  lemma EscapeShape(c: char)
    ensures EscapeChar(c) == [c] <==> c as int >= 0x20 && c != '\"' && c != '\\'
    ensures |EscapeChar(c)| == if c as int >= 0x20 && c != '\"' && c != '\\' then 1
                               else if c as int < 0x20 && c as int !in {8, 9, 10, 12, 13} then 6 else 2
    ensures |EscapeChar(c)| == 6 ==> forall i :: 0 <= i < 6 ==> !('A' <= EscapeChar(c)[i] <= 'Z')
  {
  }

  lemma EscapedIsRead(c: char, rest: string)
    ensures ReadChar(EscapeChar(c) + rest) == Some((c, |EscapeChar(c)|))
    ensures EscapeChar(c)[0] != '\"'
  {
    var e := EscapeChar(c);
    var t := e + rest;
    if |e| == 6 {
      assert t[2..] == e[2..] + rest;
      assert ReadHex(t[2..]) == Some(c);
    }
  }

  lemma {:induction false} StringIsRead(s: string, rest: string)
    ensures ReadString(Escape(s) + "\"" + rest) == Some((s, rest))
  {
    hide EscapeChar, ReadChar;
    var t := Escape(s) + "\"" + rest;
    if |s| == 0 {
      assert t == ['\"'] + rest;
    } else {
      var e, more := EscapeChar(s[0]), Escape(s[1..]) + "\"" + rest;
      assert t == e + more;
      EscapedIsRead(s[0], more);
      StringIsRead(s[1..], rest);
      assert t[|e|..] == more;
      assert s == [s[0]] + s[1..];
    }
  }

  /** A value ready to print. */
  ghost predicate Plain(v: Json) {
    match v
    case Num(text) => NumberText(text)
    case BigInt(_) => false
    case Arr(items) => forall i :: 0 <= i < |items| ==> Plain(items[i])
    case Obj(props) => forall i :: 0 <= i < |props| ==> Plain(props[i].value)
    case _ => true
  }

  ghost predicate AllPlain(items: seq<Json>) {
    forall i :: 0 <= i < |items| ==> Plain(items[i])
  }

  ghost predicate AllPlainProps(props: seq<Prop>) {
    forall i :: 0 <= i < |props| ==> Plain(props[i].value)
  }

  /** What may follow a value: the end of the text or a structural character. */
  ghost predicate Follows(r: string) {
    |r| == 0 || r[0] == ',' || r[0] == ']' || r[0] == '}'
  }

  lemma NumberIsRead(text: string, r: string)
    requires NumberText(text) && Follows(r)
    ensures ReadValue(text + r) == Some((Num(text), r))
  {
    var t := text + r;
    SpanEnds(text, r, NumberChar);
    assert t[..|text|] == text && t[|text|..] == r;
  }

  /** Round trip: reading the text of a value gives the value back, and leaves what follows it. */
  lemma {:induction false} PrintedIsRead(v: Json, r: string)
    requires Plain(v) && Follows(r)
    ensures ReadValue(Print(v) + r) == Some((v, r))
    decreases v, 1
  {
    hide ReadValue, ReadArray, ReadObject, ReadItems, ReadProps;
    match v
    case Null => WordIsRead("null", Null, r);
    case Bool(b) => WordIsRead(if b then "true" else "false", v, r);
    case Num(text) => NumberIsRead(text, r);
    case BigInt(_) =>
    case Str(s) => QuotedIsRead(s, r);
    case Arr(items) =>
      if |items| > 0 {
        ItemsAreRead(items, r);
      }
      ArrayIsRead(items, r);
    case Obj(props) =>
      if |props| > 0 {
        PropsAreRead(props, r);
      }
      ObjectIsRead(props, r);
  }

  lemma WordIsRead(word: string, v: Json, r: string)
    requires (word == "null" && v == Null) || (word == "true" && v == Bool(true)) || (word == "false" && v == Bool(false))
    ensures ReadValue(word + r) == Some((v, r))
  {
    hide ReadArray, ReadObject, ReadString, NumberChar;
    assert (word + r)[|word|..] == r;
  }

  lemma QuotedIsRead(s: string, r: string)
    ensures ReadValue(Quote(s) + r) == Some((Str(s), r))
  {
    StringIsRead(s, r);
    hide ReadString, Escape, ReadArray, ReadObject, ReadWord;
    assert (Quote(s) + r)[1..] == Escape(s) + "\"" + r;
  }

  lemma OpenedIsRead(inner: string)
    ensures ReadValue("[" + inner) == ReadArray(inner) && ReadValue("{" + inner) == ReadObject(inner)
  {
    hide ReadString, ReadArray, ReadObject, ReadWord;
    assert ("[" + inner)[1..] == inner && ("{" + inner)[1..] == inner;
  }

  lemma ArrayIsRead(items: seq<Json>, r: string)
    requires AllPlain(items)
    requires |items| > 0 ==> ReadItems(Print(items[0]) + PrintMore(items[1..]) + "]" + r) == Some((items, r))
    ensures ReadValue(Print(Arr(items)) + r) == Some((Arr(items), r))
  {
    hide ReadItems, ReadValue, PrintMore;
    var inner := (if |items| == 0 then "" else Print(items[0]) + PrintMore(items[1..])) + "]" + r;
    assert Print(Arr(items)) + r == "[" + inner;
    OpenedIsRead(inner);
    if |items| == 0 {
      assert inner == "]" + r && inner[1..] == r;
    } else {
    }
  }

  lemma ObjectIsRead(props: seq<Prop>, r: string)
    requires |props| > 0 ==> ReadProps(PrintProp(props[0]) + PrintMoreProps(props[1..]) + "}" + r) == Some((props, r))
    ensures ReadValue(Print(Obj(props)) + r) == Some((Obj(props), r))
  {
    hide ReadProps, ReadValue, PrintMoreProps;
    var inner := (if |props| == 0 then "" else PrintProp(props[0]) + PrintMoreProps(props[1..])) + "}" + r;
    assert Print(Obj(props)) + r == "{" + inner;
    OpenedIsRead(inner);
    if |props| == 0 {
      assert inner == "}" + r && inner[1..] == r;
    } else {
      assert inner[0] == '\"';
    }
  }

  lemma {:induction false} ItemsAreRead(items: seq<Json>, r: string)
    requires |items| > 0 && AllPlain(items)
    ensures ReadItems(Print(items[0]) + PrintMore(items[1..]) + "]" + r) == Some((items, r))
    decreases items, 0
  {
    hide ReadValue, ReadArray, ReadObject, Print;
    var rest := PrintMore(items[1..]) + "]" + r;
    assert Print(items[0]) + PrintMore(items[1..]) + "]" + r == Print(items[0]) + rest;
    if |items| == 1 {
      assert rest == "]" + r;
      PrintedIsRead(items[0], rest);
      assert items == [items[0]];
    } else {
      assert items[1..][0] == items[1] && items[1..][1..] == items[2..];
      var more := Print(items[1]) + PrintMore(items[2..]) + "]" + r;
      assert rest == "," + more;
      PrintedIsRead(items[0], rest);
      ItemsAreRead(items[1..], r);
      assert items == [items[0]] + items[1..];
    }
  }

  lemma {:induction false} PropIsRead(p: Prop, r: string)
    requires Plain(p.value) && Follows(r)
    ensures ReadProp(PrintProp(p) + r) == Some((p, r))
    decreases p, 2
  {
    hide ReadString, ReadValue, ReadArray, ReadObject, ReadItems, ReadProps, Print, Escape;
    var t, value := PrintProp(p) + r, Print(p.value) + r;
    StringIsRead(p.key, ":" + value);
    PrintedIsRead(p.value, r);
    assert t[0] == '\"' && t[1..] == Escape(p.key) + "\"" + (":" + value);
    assert (":" + value)[1..] == value;
  }

  lemma {:induction false} PropsAreRead(props: seq<Prop>, r: string)
    requires |props| > 0 && AllPlainProps(props)
    ensures ReadProps(PrintProp(props[0]) + PrintMoreProps(props[1..]) + "}" + r) == Some((props, r))
    decreases props, 0
  {
    hide ReadValue, ReadArray, ReadObject, ReadProp, PrintProp;
    var rest := PrintMoreProps(props[1..]) + "}" + r;
    assert PrintProp(props[0]) + PrintMoreProps(props[1..]) + "}" + r == PrintProp(props[0]) + rest;
    if |props| == 1 {
      assert rest == "}" + r;
      PropIsRead(props[0], rest);
      assert props == [props[0]];
    } else {
      assert props[1..][0] == props[1] && props[1..][1..] == props[2..];
      var more := PrintProp(props[1]) + PrintMoreProps(props[2..]) + "}" + r;
      assert rest == "," + more;
      PropIsRead(props[0], rest);
      PropsAreRead(props[1..], r);
      assert props == [props[0]] + props[1..];
    }
  }

  /** So the text of a value followed by anything structural determines both. */
  lemma PrintInjective(v: Json, w: Json, r: string, q: string)
    requires Plain(v) && Plain(w) && Follows(r) && Follows(q)
    requires Print(v) + r == Print(w) + q
    ensures v == w && r == q
  {
    hide Print, ReadValue;
    PrintedIsRead(v, r);
    PrintedIsRead(w, q);
  }
}
