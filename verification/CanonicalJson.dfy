/** apps/api/src/modules/quotation/quotation.service.ts: canonicalJson, the text two drafts are
    compared by. Strings are sequences of UTF-16 code units, as they are in the program. */
module CanonicalJson {
  import opened Wrappers

  type Unit = u: int | 0 <= u < 0x10000
  type Text = seq<Unit>

  const QUOTE: Unit := 34
  const COMMA: Unit := 44
  const COLON: Unit := 58
  const BACKSLASH: Unit := 92
  const OPEN_ARRAY: Unit := 91
  const CLOSE_ARRAY: Unit := 93
  const OPEN_OBJECT: Unit := 123
  const CLOSE_OBJECT: Unit := 125
  const NULL_TEXT: Text := [110, 117, 108, 108]
  const TRUE_TEXT: Text := [116, 114, 117, 101]
  const FALSE_TEXT: Text := [102, 97, 108, 115, 101]

  predicate IsDigit(u: Unit) {
    48 <= u <= 57
  }

  /** Digits, `+`, `-`, `.`, `e`. */
  predicate NumeralUnit(u: Unit) {
    IsDigit(u) || u == 43 || u == 45 || u == 46 || u == 101
  }

  /** The numeral JSON.stringify writes for a finite number; equal numbers have equal numerals. */
  type Numeral = t: Text | t != [] && (IsDigit(t[0]) || t[0] == 45) && forall i :: 0 <= i < |t| ==> NumeralUnit(t[i])
    witness [48]

  datatype Field = Field(key: Text, value: Value)

  /** A value the program may hand over. Other is anything that is not JSON: a Date, a class
      instance, a bigint, a function. */
  datatype Value =
    | Null
    | Undefined
    | NonFinite
    | Other
    | Bool(b: bool)
    | Num(numeral: Numeral)
    | Str(s: Text)
    | Arr(items: seq<Value>)
    | Obj(fields: seq<Field>)

  // JSON.stringify of a string.

  predicate High(u: Unit) {
    0xD800 <= u <= 0xDBFF
  }

  predicate Low(u: Unit) {
    0xDC00 <= u <= 0xDFFF
  }

  function Hex(d: int): Unit
    requires 0 <= d < 16
  {
    if d < 10 then 48 + d else 87 + d
  }

  function Hex4(u: Unit): Text {
    [Hex(u / 4096), Hex(u / 256 % 16), Hex(u / 16 % 16), Hex(u % 16)]
  }

  /** One code unit; a surrogate is written as it is only inside a pair. */
  function EscapeUnit(u: Unit, paired: bool): Text {
    if u == QUOTE || u == BACKSLASH then [BACKSLASH, u]
    else if u == 8 then [BACKSLASH, 98]
    else if u == 9 then [BACKSLASH, 116]
    else if u == 10 then [BACKSLASH, 110]
    else if u == 12 then [BACKSLASH, 102]
    else if u == 13 then [BACKSLASH, 114]
    else if u < 32 || ((High(u) || Low(u)) && !paired) then [BACKSLASH, 117] + Hex4(u)
    else [u]
  }

  predicate LeadsPair(s: Text)
    requires s != []
  {
    High(s[0]) && |s| > 1 && Low(s[1])
  }

  /** `paired` says the first unit is the second half of a surrogate pair. */
  function EscapeText(s: Text, paired: bool): Text {
    if s == [] then []
    else EscapeUnit(s[0], paired || LeadsPair(s)) + EscapeText(s[1..], !paired && LeadsPair(s))
  }

  function Quoted(s: Text): Text {
    [QUOTE] + EscapeText(s, false) + [QUOTE]
  }

  // Key order.

  /** `a < b` on strings. */
  predicate Before(a: Text, b: Text) {
    if b == [] then false
    else if a == [] then true
    else a[0] < b[0] || (a[0] == b[0] && Before(a[1..], b[1..]))
  }

  function Size(v: Value): (n: nat)
    ensures n >= 1
    decreases v
  {
    match v
    case Arr(items) => 1 + SizeItems(items)
    case Obj(fields) => 1 + SizeFields(fields)
    case _ => 1
  }

  function SizeItems(items: seq<Value>): nat
    decreases items
  {
    if items == [] then 0 else Size(items[0]) + SizeItems(items[1..])
  }

  function SizeField(f: Field): (n: nat)
    ensures n >= 1
    decreases f
  {
    Size(f.value)
  }

  function SizeFields(fields: seq<Field>): nat
    decreases fields
  {
    if fields == [] then 0 else SizeField(fields[0]) + SizeFields(fields[1..])
  }

  /** The fields that hold something. */
  function Defined(fields: seq<Field>): (defined: seq<Field>)
    ensures forall f :: f in defined <==> f in fields && !f.value.Undefined?
    ensures SizeFields(defined) <= SizeFields(fields)
  {
    if fields == [] then []
    else if fields[0].value.Undefined? then Defined(fields[1..])
    else
      var rest := Defined(fields[1..]);
      assert ([fields[0]] + rest)[1..] == rest;
      [fields[0]] + rest
  }

  function Insert(f: Field, sorted: seq<Field>): (r: seq<Field>)
    ensures forall g :: g in r <==> g == f || g in sorted
    ensures SizeFields(r) == SizeField(f) + SizeFields(sorted) && |r| == |sorted| + 1
  {
    if sorted == [] || Before(f.key, sorted[0].key) then
      assert ([f] + sorted)[1..] == sorted;
      [f] + sorted
    else
      var rest := Insert(f, sorted[1..]);
      assert ([sorted[0]] + rest)[1..] == rest;
      [sorted[0]] + rest
  }

  function SortFields(fields: seq<Field>): (r: seq<Field>)
    ensures forall f :: f in r <==> f in fields
    ensures SizeFields(r) == SizeFields(fields) && |r| == |fields|
  {
    if fields == [] then [] else Insert(fields[0], SortFields(fields[1..]))
  }

  // The canonical text.

  /** The parts after the first, each behind a comma. */
  function Tail(parts: seq<Text>): Text {
    if parts == [] then [] else [COMMA] + parts[0] + Tail(parts[1..])
  }

  function Join(parts: seq<Text>): Text {
    if parts == [] then [] else parts[0] + Tail(parts[1..])
  }

  /** None when the value holds anything that cannot be compared this way. */
  function Canon(v: Value): Option<Text>
    decreases Size(v), 0
  {
    match v
    case Null => Some(NULL_TEXT)
    case Bool(b) => Some(if b then TRUE_TEXT else FALSE_TEXT)
    case Str(s) => Some(Quoted(s))
    case Num(numeral) => Some(numeral)
    case Arr(items) =>
      var parts := CanonItems(items);
      if parts.None? then None else Some([OPEN_ARRAY] + Join(parts.value) + [CLOSE_ARRAY])
    case Obj(fields) =>
      var parts := CanonFields(SortFields(Defined(fields)));
      if parts.None? then None else Some([OPEN_OBJECT] + Join(parts.value) + [CLOSE_OBJECT])
    case _ => None
  }

  function CanonItems(items: seq<Value>): (parts: Option<seq<Text>>)
    ensures parts.Some? ==> |parts.value| == |items|
    decreases SizeItems(items), |items|
  {
    if items == [] then Some([])
    else
      var first, rest := Canon(items[0]), CanonItems(items[1..]);
      if first.None? || rest.None? then None else Some([first.value] + rest.value)
  }

  function CanonFields(fields: seq<Field>): (parts: Option<seq<Text>>)
    ensures parts.Some? ==> |parts.value| == |fields|
    decreases SizeFields(fields), |fields|
  {
    if fields == [] then Some([])
    else
      assert SizeField(fields[0]) == Size(fields[0].value);
      var first, rest := Canon(fields[0].value), CanonFields(fields[1..]);
      if first.None? || rest.None? then None
      else Some([Quoted(fields[0].key) + [COLON] + first.value] + rest.value)
  }

  /** The recursive walk, giving up at the first part that cannot be compared. */
  method CanonicalText(v: Value) returns (text: Option<Text>)
    ensures text == Canon(v)
    decreases Size(v), 0
  {
    match v {
      case Null => text := Some(NULL_TEXT);
      case Bool(b) => text := Some(if b then TRUE_TEXT else FALSE_TEXT);
      case Str(s) => text := Some(Quoted(s));
      case Num(numeral) => text := Some(numeral);
      case Undefined => text := None;
      case NonFinite => text := None;
      case Other => text := None;
      case Arr(items) =>
        var parts := ItemTexts(items);
        text := if parts.None? then None else Some([OPEN_ARRAY] + Join(parts.value) + [CLOSE_ARRAY]);
      case Obj(fields) =>
        var parts := FieldTexts(SortFields(Defined(fields)));
        text := if parts.None? then None else Some([OPEN_OBJECT] + Join(parts.value) + [CLOSE_OBJECT]);
    }
  }

  /** The loop over the items of an array, in their order. */
  method ItemTexts(items: seq<Value>) returns (texts: Option<seq<Text>>)
    ensures texts == CanonItems(items)
    decreases SizeItems(items), 1
  {
    var parts: seq<Text> := [];
    PrependNone(CanonItems(items));
    assert items[0..] == items;
    for i := 0 to |items|
      invariant CanonItems(items) == Prepend(parts, CanonItems(items[i..]))
    {
      SizeOfItem(items, i);
      assert items[i..][0] == items[i] && items[i..][1..] == items[i + 1..];
      var part := CanonicalText(items[i]);
      if part.None? {
        return None;
      }
      PrependOne(parts, part.value, CanonItems(items[i + 1..]));
      parts := parts + [part.value];
    }
    PrependNothing(parts);
    texts := Some(parts);
  }

  /** The loop over the sorted entries of an object. */
  method FieldTexts(entries: seq<Field>) returns (texts: Option<seq<Text>>)
    ensures texts == CanonFields(entries)
    decreases SizeFields(entries), 1
  {
    var parts: seq<Text> := [];
    PrependNone(CanonFields(entries));
    assert entries[0..] == entries;
    for i := 0 to |entries|
      invariant CanonFields(entries) == Prepend(parts, CanonFields(entries[i..]))
    {
      SizeOfField(entries, i);
      assert entries[i..][0] == entries[i] && entries[i..][1..] == entries[i + 1..];
      var part := CanonicalText(entries[i].value);
      if part.None? {
        return None;
      }
      var text := Quoted(entries[i].key) + [COLON] + part.value;
      PrependOne(parts, text, CanonFields(entries[i + 1..]));
      parts := parts + [text];
    }
    PrependNothing(parts);
    texts := Some(parts);
  }

  lemma PrependNone(rest: Option<seq<Text>>)
    ensures Prepend([], rest) == rest
  {
    if rest.Some? {
      assert [] + rest.value == rest.value;
    }
  }

  lemma PrependNothing(parts: seq<Text>)
    ensures Prepend(parts, Some([])) == Some(parts)
  {
    assert parts + [] == parts;
  }

  function Prepend(parts: seq<Text>, rest: Option<seq<Text>>): Option<seq<Text>> {
    if rest.None? then None else Some(parts + rest.value)
  }

  lemma PrependOne(parts: seq<Text>, part: Text, rest: Option<seq<Text>>)
    ensures rest.Some? ==> Prepend(parts, Some([part] + rest.value)) == Prepend(parts + [part], rest)
  {
    if rest.Some? {
      assert parts + ([part] + rest.value) == (parts + [part]) + rest.value;
    }
  }

  lemma {:induction false} SizeOfItem(items: seq<Value>, i: nat)
    requires i < |items|
    ensures Size(items[i]) <= SizeItems(items)
  {
    if i > 0 {
      SizeOfItem(items[1..], i - 1);
    }
  }

  lemma {:induction false} SizeOfField(fields: seq<Field>, i: nat)
    requires i < |fields|
    ensures Size(fields[i].value) <= SizeFields(fields)
  {
    if i > 0 {
      SizeOfField(fields[1..], i - 1);
    }
  }

  // What a value means as JSON: objects are maps, so the order of their keys is gone.

  datatype Json =
    | JNull
    | JBool(b: bool)
    | JNum(numeral: Numeral)
    | JStr(s: Text)
    | JArr(items: seq<Json>)
    | JObj(fields: map<Text, Json>)

  /** None for a value that is not JSON all the way down; undefined fields do not count. */
  function Meaning(v: Value): Option<Json>
    decreases v
  {
    match v
    case Null => Some(JNull)
    case Bool(b) => Some(JBool(b))
    case Num(numeral) => Some(JNum(numeral))
    case Str(s) => Some(JStr(s))
    case Arr(items) => var m := MeaningItems(items); if m.None? then None else Some(JArr(m.value))
    case Obj(fields) => var m := MeaningFields(fields); if m.None? then None else Some(JObj(m.value))
    case _ => None
  }

  function MeaningItems(items: seq<Value>): Option<seq<Json>>
    decreases items
  {
    if items == [] then Some([])
    else
      var first, rest := Meaning(items[0]), MeaningItems(items[1..]);
      if first.None? || rest.None? then None else Some([first.value] + rest.value)
  }

  function MeaningField(f: Field): Option<Json>
    decreases f
  {
    Meaning(f.value)
  }

  function MeaningFields(fields: seq<Field>): Option<map<Text, Json>>
    decreases fields
  {
    if fields == [] then Some(map[])
    else
      var rest := MeaningFields(fields[1..]);
      if fields[0].value.Undefined? then rest
      else
        var first := MeaningField(fields[0]);
        if first.None? || rest.None? then None else Some(rest.value[fields[0].key := first.value])
  }

  predicate DistinctKeys(fields: seq<Field>) {
    forall i, j :: 0 <= i < j < |fields| ==> fields[i].key != fields[j].key
  }

  /** Objects have each key once, at every level. */
  predicate WellFormed(v: Value)
    decreases v
  {
    match v
    case Arr(items) => forall i :: 0 <= i < |items| ==> WellFormed(items[i])
    case Obj(fields) => DistinctKeys(fields) && forall i :: 0 <= i < |fields| ==> WellFormedField(fields[i])
    case _ => true
  }

  predicate WellFormedField(f: Field)
    decreases f
  {
    WellFormed(f.value)
  }
}
