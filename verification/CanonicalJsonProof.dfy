/** Two comparable values have the same canonical text exactly when they mean the same JSON. */
module CanonicalJsonProof {
  import opened Wrappers
  import opened CanonicalJson

  // Reading a string back.

  lemma HexInjective(c: int, d: int)
    requires 0 <= c < 16 && 0 <= d < 16 && Hex(c) == Hex(d)
    ensures c == d
  {
  }

  lemma HexDigits(u: Unit)
    ensures u == 4096 * (u / 4096) + 256 * (u / 256 % 16) + 16 * (u / 16 % 16) + u % 16
  {
    assert u / 16 / 16 == u / 256 && u / 256 / 16 == u / 4096;
    assert u == 16 * (u / 16) + u % 16 && u / 16 == 16 * (u / 256) + u / 16 % 16;
  }

  lemma Hex4Injective(u: Unit, w: Unit)
    requires Hex4(u) == Hex4(w)
    ensures u == w
  {
    var a, b := Hex4(u), Hex4(w);
    assert a[0] == b[0] && a[1] == b[1] && a[2] == b[2] && a[3] == b[3];
    SameHexDigits(u, w);
  }

  lemma SameHexDigits(u: Unit, w: Unit)
    requires Hex(u / 4096) == Hex(w / 4096) && Hex(u / 256 % 16) == Hex(w / 256 % 16)
    requires Hex(u / 16 % 16) == Hex(w / 16 % 16) && Hex(u % 16) == Hex(w % 16)
    ensures u == w
  {
    HexInjective(u / 4096, w / 4096);
    HexInjective(u / 256 % 16, w / 256 % 16);
    HexInjective(u / 16 % 16, w / 16 % 16);
    HexInjective(u % 16, w % 16);
    HexDigits(u);
    HexDigits(w);
  }

  /** The text of a unit says how long it is. */
  lemma UnitLength(u: Unit, p: bool)
    ensures var c := EscapeUnit(u, p);
      |c| == (if c[0] != BACKSLASH then 1 else if c[1] == 117 then 6 else 2) && c[0] != QUOTE
  {
  }

  lemma SameUnit(u: Unit, p: bool, w: Unit, q: bool)
    requires EscapeUnit(u, p) == EscapeUnit(w, q)
    ensures u == w
  {
    var a, b := EscapeUnit(u, p), EscapeUnit(w, q);
    if |a| == 6 {
      assert a[2..] == Hex4(u) && b[2..] == Hex4(w);
      Hex4Injective(u, w);
    } else if |a| == 2 {
      assert a[1] == b[1];
    } else {
      assert a[0] == b[0];
    }
  }

  /** Equal texts that start with a unit start with the same one. */
  lemma UnitReadBack(u: Unit, p: bool, w: Unit, q: bool, r1: Text, r2: Text)
    requires EscapeUnit(u, p) + r1 == EscapeUnit(w, q) + r2
    ensures u == w && r1 == r2
  {
    var a, b := EscapeUnit(u, p), EscapeUnit(w, q);
    UnitLength(u, p);
    UnitLength(w, q);
    SamePrefixLength(a, b, r1, r2);
    SplitEqual(a, r1, b, r2);
    SameUnit(u, p, w, q);
  }

  lemma SamePrefixLength(a: Text, b: Text, r1: Text, r2: Text)
    requires a + r1 == b + r2 && a != [] && b != []
    requires |a| == (if a[0] != BACKSLASH then 1 else if |a| > 1 && a[1] == 117 then 6 else 2)
    requires |b| == (if b[0] != BACKSLASH then 1 else if |b| > 1 && b[1] == 117 then 6 else 2)
    ensures |a| == |b|
  {
    assert (a + r1)[0] == a[0] && (b + r2)[0] == b[0];
    if a[0] == BACKSLASH {
      assert (a + r1)[1] == a[1] && (b + r2)[1] == b[1];
    }
  }

  lemma SplitEqual(a: Text, r1: Text, b: Text, r2: Text)
    requires a + r1 == b + r2 && |a| == |b|
    ensures a == b && r1 == r2
  {
    assert (a + r1)[..|a|] == a && (b + r2)[..|b|] == b;
    assert (a + r1)[|a|..] == r1 && (b + r2)[|b|..] == r2;
  }

  lemma Associate(a: Text, b: Text, c: Text)
    ensures (a + b) + c == a + (b + c)
  {
  }

  lemma HeadOf(a: Text, r: Text)
    requires a != []
    ensures (a + r)[0] == a[0]
  {
  }

  /** A closing quote cannot be confused with a unit of the string. */
  lemma EscapedHead(s: Text, p: bool, r: Text)
    ensures (EscapeText(s, p) + ([QUOTE] + r))[0] == QUOTE <==> s == []
  {
    if s != [] {
      var q, n := p || LeadsPair(s), !p && LeadsPair(s);
      UnitLength(s[0], q);
      HeadOf(EscapeUnit(s[0], q), EscapeText(s[1..], n));
      HeadOf(EscapeText(s, p), [QUOTE] + r);
    }
  }

  lemma {:induction false} EscapedReadBack(s1: Text, p1: bool, s2: Text, p2: bool, r1: Text, r2: Text)
    requires EscapeText(s1, p1) + ([QUOTE] + r1) == EscapeText(s2, p2) + ([QUOTE] + r2)
    ensures s1 == s2 && r1 == r2
  {
    EscapedHead(s1, p1, r1);
    EscapedHead(s2, p2, r2);
    if s1 == [] {
      assert EscapeText(s1, p1) + ([QUOTE] + r1) == [QUOTE] + r1 && EscapeText(s2, p2) + ([QUOTE] + r2) == [QUOTE] + r2;
      SplitEqual([QUOTE], r1, [QUOTE], r2);
    } else {
      var q1, q2 := p1 || LeadsPair(s1), p2 || LeadsPair(s2);
      var n1, n2 := !p1 && LeadsPair(s1), !p2 && LeadsPair(s2);
      Associate(EscapeUnit(s1[0], q1), EscapeText(s1[1..], n1), [QUOTE] + r1);
      Associate(EscapeUnit(s2[0], q2), EscapeText(s2[1..], n2), [QUOTE] + r2);
      UnitReadBack(s1[0], q1, s2[0], q2, EscapeText(s1[1..], n1) + ([QUOTE] + r1), EscapeText(s2[1..], n2) + ([QUOTE] + r2));
      EscapedReadBack(s1[1..], n1, s2[1..], n2, r1, r2);
      assert s1 == [s1[0]] + s1[1..] && s2 == [s2[0]] + s2[1..];
    }
  }

  lemma QuotedReadBack(s1: Text, s2: Text, r1: Text, r2: Text)
    requires Quoted(s1) + r1 == Quoted(s2) + r2
    ensures s1 == s2 && r1 == r2
  {
    var a, b := EscapeText(s1, false), EscapeText(s2, false);
    assert Quoted(s1) + r1 == [QUOTE] + (a + ([QUOTE] + r1));
    assert Quoted(s2) + r2 == [QUOTE] + (b + ([QUOTE] + r2));
    SplitEqual([QUOTE], a + ([QUOTE] + r1), [QUOTE], b + ([QUOTE] + r2));
    EscapedReadBack(s1, false, s2, false, r1, r2);
  }

  // Reading a numeral back.

  /** What may follow a value: nothing, a comma or a closing bracket. */
  predicate Delimited(r: Text) {
    r == [] || r[0] == COMMA || r[0] == CLOSE_ARRAY || r[0] == CLOSE_OBJECT
  }

  lemma NumeralUnits(a: Numeral, r: Text)
    ensures forall i :: 0 <= i < |a| ==> NumeralUnit((a + r)[i])
  {
    forall i | 0 <= i < |a|
      ensures NumeralUnit((a + r)[i])
    {
      assert (a + r)[i] == a[i];
    }
  }

  lemma NumeralEnds(a: Numeral, r: Text)
    requires Delimited(r)
    ensures |a + r| > |a| ==> !NumeralUnit((a + r)[|a|])
  {
    if r != [] {
      assert (a + r)[|a|] == r[0];
    }
  }

  lemma NumeralIsNotLonger(a: Numeral, b: Numeral, r1: Text, r2: Text)
    requires (a + r1) == (b + r2) && Delimited(r1)
    ensures |b| <= |a|
  {
    NumeralEnds(a, r1);
    NumeralUnits(b, r2);
  }

  lemma NumeralReadBack(a: Numeral, b: Numeral, r1: Text, r2: Text)
    requires a + r1 == b + r2 && Delimited(r1) && Delimited(r2)
    ensures a == b && r1 == r2
  {
    NumeralIsNotLonger(a, b, r1, r2);
    NumeralIsNotLonger(b, a, r2, r1);
    SplitEqual(a, r1, b, r2);
  }

  // Reading a value back.

  /** The first unit of a text tells the kind of value. */
  predicate StartsAs(v: Value, u: Unit) {
    match v
    case Null => u == 110
    case Bool(b) => u == if b then 116 else 102
    case Str(_) => u == QUOTE
    case Num(_) => IsDigit(u) || u == 45
    case Arr(_) => u == OPEN_ARRAY
    case Obj(_) => u == OPEN_OBJECT
    case _ => false
  }

  lemma FirstUnit(v: Value)
    requires Canon(v).Some?
    ensures Canon(v).value != [] && StartsAs(v, Canon(v).value[0])
  {
  }

  lemma SameKind(a: Value, b: Value, ta: Text, tb: Text, r1: Text, r2: Text)
    requires Canon(a) == Some(ta) && Canon(b) == Some(tb) && ta + r1 == tb + r2
    ensures StartsAs(a, tb[0])
  {
    FirstUnit(a);
    FirstUnit(b);
    assert (ta + r1)[0] == ta[0] && (tb + r2)[0] == tb[0];
  }

  /** The texts of two values, each followed by a delimiter, are the same only if the values mean the
      same. */
  lemma {:induction false} ReadBack(a: Value, b: Value, ta: Text, tb: Text, r1: Text, r2: Text)
    requires WellFormed(a) && WellFormed(b) && Canon(a) == Some(ta) && Canon(b) == Some(tb)
    requires ta + r1 == tb + r2 && Delimited(r1) && Delimited(r2)
    ensures Meaning(a) == Meaning(b) && r1 == r2
    decreases Size(a), 0
  {
    SameKind(a, b, ta, tb, r1, r2);
    FirstUnit(b);
    match a {
      case Null => SplitEqual(ta, r1, tb, r2);
      case Bool(_) => SplitEqual(ta, r1, tb, r2);
      case Str(s) => QuotedReadBack(s, b.s, r1, r2);
      case Num(numeral) => NumeralReadBack(numeral, b.numeral, r1, r2);
      case Arr(items) => ArrayReadBack(items, b.items, r1, r2);
      case Obj(fields) => ObjectReadBack(fields, b.fields, r1, r2);
    }
  }

  ghost predicate ObjectOk(fields: seq<Field>) {
    WellFormed(Obj(fields)) && CanonFields(SortFields(Defined(fields))).Some?
  }

  lemma ObjectFieldsOk(fields: seq<Field>)
    requires ObjectOk(fields)
    ensures FieldsOk(SortFields(Defined(fields))) && MeaningFields(fields).Some?
  {
    var sorted := SortFields(Defined(fields));
    forall f | f in sorted
      ensures WellFormed(f.value)
    {
      var i :| 0 <= i < |fields| && fields[i] == f;
      assert WellFormedField(fields[i]);
    }
    forall f | f in fields && !f.value.Undefined?
      ensures Meaning(f.value).Some?
    {
      assert f in sorted;
      var i: nat :| i < |sorted| && sorted[i] == f;
      CanonOfField(sorted, i);
      CanonMeans(f.value);
    }
    FieldsMean(fields);
  }

  lemma {:induction false} CanonOfField(fields: seq<Field>, i: nat)
    requires CanonFields(fields).Some? && i < |fields|
    ensures Canon(fields[i].value).Some?
  {
    if i > 0 {
      CanonOfField(fields[1..], i - 1);
    }
  }

  lemma {:induction false} ObjectReadBack(f1: seq<Field>, f2: seq<Field>, r1: Text, r2: Text)
    requires ObjectOk(f1) && ObjectOk(f2)
    requires Canon(Obj(f1)).value + r1 == Canon(Obj(f2)).value + r2
    ensures MeaningFields(f1) == MeaningFields(f2) && r1 == r2
    decreases SizeFields(f1), 3
  {
    ObjectFieldsOk(f1);
    ObjectFieldsOk(f2);
    SortedReadBack(SortFields(Defined(f1)), SortFields(Defined(f2)), r1, r2);
    SameSortedSameMeaning(f1, f2, SortFields(Defined(f1)), SortFields(Defined(f2)));
  }

  // What can be compared.

  lemma {:induction false} CanonMeans(v: Value)
    requires WellFormed(v)
    ensures Canon(v).Some? <==> Meaning(v).Some?
    decreases Size(v), 0
  {
    match v {
      case Arr(items) => CanonItemsMean(items);
      case Obj(fields) => CanonFieldsMean(fields);
      case _ =>
    }
  }

  lemma {:induction false} CanonFieldsAll(fields: seq<Field>)
    ensures CanonFields(fields).Some? <==> forall f :: f in fields ==> Canon(f.value).Some?
  {
    if fields != [] {
      CanonFieldsAll(fields[1..]);
      assert forall f :: f in fields <==> f == fields[0] || f in fields[1..];
    }
  }

  lemma {:induction false} CanonFieldsMean(fields: seq<Field>)
    requires WellFormed(Obj(fields))
    ensures CanonFields(SortFields(Defined(fields))).Some? <==> MeaningFields(fields).Some?
    decreases SizeFields(fields), 1
  {
    var sorted := SortFields(Defined(fields));
    CanonFieldsAll(sorted);
    FieldsMean(fields);
    forall f | f in sorted
      ensures Canon(f.value).Some? <==> Meaning(f.value).Some?
    {
      var i :| 0 <= i < |fields| && fields[i] == f;
      assert WellFormedField(fields[i]);
      SizeOfField(fields, i);
      CanonMeans(f.value);
    }
  }

  lemma {:induction false} CanonItemsMean(items: seq<Value>)
    requires forall i :: 0 <= i < |items| ==> WellFormed(items[i])
    ensures CanonItems(items).Some? <==> MeaningItems(items).Some?
    decreases SizeItems(items), |items|
  {
    if items != [] {
      CanonMeans(items[0]);
      CanonItemsMean(items[1..]);
    }
  }

  lemma RegroupItem(first: Text, rest: Text, tail: Text)
    ensures ([COMMA] + first + rest) + tail == [COMMA] + (first + (rest + tail))
  {
  }

  lemma RegroupField(k: Text, t: Text, rest: Text, tail: Text)
    ensures ((k + [COLON] + t) + rest) + tail == k + ([COLON] + (t + (rest + tail)))
  {
  }

  lemma RegroupEnclosed(open: Unit, inside: Text, close: Unit, r: Text)
    ensures ([open] + inside + [close]) + r == [open] + (inside + ([close] + r))
  {
  }

  lemma TailOfCons(first: Text, rest: seq<Text>)
    ensures Tail([first] + rest) == [COMMA] + first + Tail(rest)
  {
    assert ([first] + rest)[1..] == rest;
  }

  lemma JoinOfCons(first: Text, rest: seq<Text>)
    ensures Join([first] + rest) == first + Tail(rest)
  {
    assert ([first] + rest)[1..] == rest;
  }

  ghost predicate ItemsOk(items: seq<Value>) {
    CanonItems(items).Some? && forall i :: 0 <= i < |items| ==> WellFormed(items[i])
  }

  function ItemsTail(items: seq<Value>, close: Unit, r: Text): Text
    requires CanonItems(items).Some?
  {
    Tail(CanonItems(items).value) + ([close] + r)
  }

  /** What follows the text of an item, item by item. */
  lemma ItemsTailStep(items: seq<Value>, close: Unit, r: Text)
    requires ItemsOk(items) && items != []
    ensures ItemsOk(items[1..]) && Canon(items[0]).Some? && WellFormed(items[0])
    ensures ItemsTail(items, close, r) == [COMMA] + (Canon(items[0]).value + ItemsTail(items[1..], close, r))
  {
    var first, rest := Canon(items[0]).value, CanonItems(items[1..]).value;
    assert CanonItems(items).value == [first] + rest;
    TailOfCons(first, rest);
    RegroupItem(first, Tail(rest), [close] + r);
  }

  lemma ItemsTailDelimits(items: seq<Value>, r: Text)
    requires CanonItems(items).Some?
    ensures Delimited(ItemsTail(items, CLOSE_ARRAY, r)) && ItemsTail(items, CLOSE_ARRAY, r) != []
    ensures ItemsTail(items, CLOSE_ARRAY, r)[0] == if items == [] then CLOSE_ARRAY else COMMA
  {
    if items == [] {
      assert ItemsTail(items, CLOSE_ARRAY, r) == [CLOSE_ARRAY] + r;
    }
  }

  lemma {:induction false} ItemsTailReadBack(items1: seq<Value>, items2: seq<Value>, r1: Text, r2: Text)
    requires ItemsOk(items1) && ItemsOk(items2)
    requires ItemsTail(items1, CLOSE_ARRAY, r1) == ItemsTail(items2, CLOSE_ARRAY, r2)
    ensures MeaningItems(items1) == MeaningItems(items2) && r1 == r2
    decreases SizeItems(items1), 1, |items1|
  {
    ItemsTailDelimits(items1, r1);
    ItemsTailDelimits(items2, r2);
    if items1 == [] {
      assert ItemsTail(items1, CLOSE_ARRAY, r1) == [CLOSE_ARRAY] + r1 && ItemsTail(items2, CLOSE_ARRAY, r2) == [CLOSE_ARRAY] + r2;
      SplitEqual([CLOSE_ARRAY], r1, [CLOSE_ARRAY], r2);
    } else {
      ItemsTailStep(items1, CLOSE_ARRAY, r1);
      ItemsTailStep(items2, CLOSE_ARRAY, r2);
      var x1, x2 := Canon(items1[0]).value + ItemsTail(items1[1..], CLOSE_ARRAY, r1), Canon(items2[0]).value + ItemsTail(items2[1..], CLOSE_ARRAY, r2);
      SplitEqual([COMMA], x1, [COMMA], x2);
      FirstItemReadBack(items1, items2, r1, r2);
    }
  }

  lemma {:induction false} FirstItemReadBack(items1: seq<Value>, items2: seq<Value>, r1: Text, r2: Text)
    requires items1 != [] && items2 != [] && ItemsOk(items1) && ItemsOk(items2)
    requires Canon(items1[0]).Some? && Canon(items2[0]).Some? && ItemsOk(items1[1..]) && ItemsOk(items2[1..])
    requires Canon(items1[0]).value + ItemsTail(items1[1..], CLOSE_ARRAY, r1) == Canon(items2[0]).value + ItemsTail(items2[1..], CLOSE_ARRAY, r2)
    ensures MeaningItems(items1) == MeaningItems(items2) && r1 == r2
    decreases SizeItems(items1), 1, 0
  {
    ItemsTailDelimits(items1[1..], r1);
    ItemsTailDelimits(items2[1..], r2);
    SizeOfItem(items1, 0);
    ReadBack(items1[0], items2[0], Canon(items1[0]).value, Canon(items2[0]).value,
             ItemsTail(items1[1..], CLOSE_ARRAY, r1), ItemsTail(items2[1..], CLOSE_ARRAY, r2));
    ItemsTailReadBack(items1[1..], items2[1..], r1, r2);
  }

  /** The text after the opening bracket: the first item without a comma, then the tail. */
  lemma ArrayText(items: seq<Value>, r: Text)
    requires ItemsOk(items)
    ensures Canon(Arr(items)).Some?
    ensures items == [] ==> Canon(Arr(items)).value + r == [OPEN_ARRAY] + ([CLOSE_ARRAY] + r)
    ensures items != [] ==> ItemsOk(items[1..]) && Canon(items[0]).Some?
    ensures items != [] ==> Canon(Arr(items)).value + r == [OPEN_ARRAY] + (Canon(items[0]).value + ItemsTail(items[1..], CLOSE_ARRAY, r))
  {
    var parts := CanonItems(items).value;
    var tail := [CLOSE_ARRAY] + r;
    RegroupEnclosed(OPEN_ARRAY, Join(parts), CLOSE_ARRAY, r);
    if items != [] {
      ItemsTailStep(items, CLOSE_ARRAY, r);
      var first, rest := Canon(items[0]).value, CanonItems(items[1..]).value;
      JoinOfCons(first, rest);
      Associate(first, Tail(rest), tail);
    } else {
      assert Join(parts) + tail == tail;
    }
  }

  function ArrayRest(items: seq<Value>, r: Text): Text
    requires ItemsOk(items) && (items != [] ==> Canon(items[0]).Some? && ItemsOk(items[1..]))
  {
    if items == [] then [CLOSE_ARRAY] + r else Canon(items[0]).value + ItemsTail(items[1..], CLOSE_ARRAY, r)
  }

  lemma ArrayRestHead(items: seq<Value>, r: Text)
    requires ItemsOk(items) && (items != [] ==> Canon(items[0]).Some? && ItemsOk(items[1..]))
    ensures ArrayRest(items, r) != [] && (ArrayRest(items, r)[0] == CLOSE_ARRAY <==> items == [])
  {
    if items != [] {
      FirstUnit(items[0]);
      HeadOf(Canon(items[0]).value, ItemsTail(items[1..], CLOSE_ARRAY, r));
    }
  }

  lemma {:induction false} ArrayReadBack(items1: seq<Value>, items2: seq<Value>, r1: Text, r2: Text)
    requires ItemsOk(items1) && ItemsOk(items2) && Canon(Arr(items1)).Some? && Canon(Arr(items2)).Some?
    requires Canon(Arr(items1)).value + r1 == Canon(Arr(items2)).value + r2
    ensures MeaningItems(items1) == MeaningItems(items2) && r1 == r2
    decreases SizeItems(items1), 2
  {
    ArrayText(items1, r1);
    ArrayText(items2, r2);
    SplitEqual([OPEN_ARRAY], ArrayRest(items1, r1), [OPEN_ARRAY], ArrayRest(items2, r2));
    ArrayRestHead(items1, r1);
    ArrayRestHead(items2, r2);
    if items1 == [] {
      SplitEqual([CLOSE_ARRAY], r1, [CLOSE_ARRAY], r2);
    } else {
      FirstItemReadBack(items1, items2, r1, r2);
    }
  }

  // Objects.

  ghost predicate FieldsOk(fields: seq<Field>) {
    CanonFields(fields).Some? && forall i :: 0 <= i < |fields| ==> WellFormed(fields[i].value)
  }

  /** The same keys in the same order, with values that mean the same. */
  ghost predicate SameFields(f1: seq<Field>, f2: seq<Field>) {
    && |f1| == |f2|
    && forall i :: 0 <= i < |f1| ==> f1[i].key == f2[i].key && Meaning(f1[i].value) == Meaning(f2[i].value)
  }

  function FieldsTail(fields: seq<Field>, r: Text): Text
    requires CanonFields(fields).Some?
  {
    Tail(CanonFields(fields).value) + ([CLOSE_OBJECT] + r)
  }

  /** A field's text with what follows it. */
  function FieldText(fields: seq<Field>, r: Text): Text
    requires fields != [] && Canon(fields[0].value).Some? && CanonFields(fields[1..]).Some?
  {
    Quoted(fields[0].key) + ([COLON] + (Canon(fields[0].value).value + FieldsTail(fields[1..], r)))
  }

  lemma FieldsTailStep(fields: seq<Field>, r: Text)
    requires FieldsOk(fields) && fields != []
    ensures FieldsOk(fields[1..]) && Canon(fields[0].value).Some? && WellFormed(fields[0].value)
    ensures FieldsTail(fields, r) == [COMMA] + FieldText(fields, r)
  {
    var k, t, rest := Quoted(fields[0].key), Canon(fields[0].value).value, CanonFields(fields[1..]).value;
    var first := k + [COLON] + t;
    assert CanonFields(fields).value == [first] + rest;
    TailOfCons(first, rest);
    var tail := [CLOSE_OBJECT] + r;
    RegroupItem(first, Tail(rest), tail);
    RegroupField(k, t, Tail(rest), tail);
    Associate(first, Tail(rest), tail);
  }

  lemma FieldsTailDelimits(fields: seq<Field>, r: Text)
    requires CanonFields(fields).Some?
    ensures Delimited(FieldsTail(fields, r)) && FieldsTail(fields, r) != []
    ensures FieldsTail(fields, r)[0] == if fields == [] then CLOSE_OBJECT else COMMA
  {
    if fields == [] {
      assert FieldsTail(fields, r) == [CLOSE_OBJECT] + r;
    }
  }

  lemma {:induction false} FieldsTailReadBack(f1: seq<Field>, f2: seq<Field>, r1: Text, r2: Text)
    requires FieldsOk(f1) && FieldsOk(f2) && FieldsTail(f1, r1) == FieldsTail(f2, r2)
    ensures SameFields(f1, f2) && r1 == r2
    decreases SizeFields(f1), 1, |f1|
  {
    FieldsTailDelimits(f1, r1);
    FieldsTailDelimits(f2, r2);
    if f1 == [] {
      assert FieldsTail(f1, r1) == [CLOSE_OBJECT] + r1 && FieldsTail(f2, r2) == [CLOSE_OBJECT] + r2;
      SplitEqual([CLOSE_OBJECT], r1, [CLOSE_OBJECT], r2);
    } else {
      FieldsTailStep(f1, r1);
      FieldsTailStep(f2, r2);
      SplitEqual([COMMA], FieldText(f1, r1), [COMMA], FieldText(f2, r2));
      FirstFieldReadBack(f1, f2, r1, r2);
    }
  }

  lemma {:induction false} FirstFieldReadBack(f1: seq<Field>, f2: seq<Field>, r1: Text, r2: Text)
    requires f1 != [] && f2 != [] && FieldsOk(f1) && FieldsOk(f2) && FieldsOk(f1[1..]) && FieldsOk(f2[1..])
    requires Canon(f1[0].value).Some? && Canon(f2[0].value).Some?
    requires FieldText(f1, r1) == FieldText(f2, r2)
    ensures SameFields(f1, f2) && r1 == r2
    decreases SizeFields(f1), 1, 0
  {
    var t1, t2 := Canon(f1[0].value).value, Canon(f2[0].value).value;
    var x1, x2 := t1 + FieldsTail(f1[1..], r1), t2 + FieldsTail(f2[1..], r2);
    QuotedReadBack(f1[0].key, f2[0].key, [COLON] + x1, [COLON] + x2);
    SplitEqual([COLON], x1, [COLON], x2);
    FieldsTailDelimits(f1[1..], r1);
    FieldsTailDelimits(f2[1..], r2);
    SizeOfField(f1, 0);
    assert SizeField(f1[0]) >= 1;
    ReadBack(f1[0].value, f2[0].value, t1, t2, FieldsTail(f1[1..], r1), FieldsTail(f2[1..], r2));
    FieldsTailReadBack(f1[1..], f2[1..], r1, r2);
    SameFieldsCons(f1, f2);
  }

  lemma SameFieldsCons(f1: seq<Field>, f2: seq<Field>)
    requires f1 != [] && f2 != [] && f1[0].key == f2[0].key && Meaning(f1[0].value) == Meaning(f2[0].value)
    requires SameFields(f1[1..], f2[1..])
    ensures SameFields(f1, f2)
  {
    forall i | 0 <= i < |f1|
      ensures f1[i].key == f2[i].key && Meaning(f1[i].value) == Meaning(f2[i].value)
    {
      if i > 0 {
        assert f1[i] == f1[1..][i - 1] && f2[i] == f2[1..][i - 1];
      }
    }
  }

  lemma ObjectText(sorted: seq<Field>, r: Text)
    requires FieldsOk(sorted)
    ensures var text := [OPEN_OBJECT] + Join(CanonFields(sorted).value) + [CLOSE_OBJECT];
      && (sorted == [] ==> text + r == [OPEN_OBJECT] + ([CLOSE_OBJECT] + r))
      && (sorted != [] ==> FieldsOk(sorted[1..]) && Canon(sorted[0].value).Some? && text + r == [OPEN_OBJECT] + FieldText(sorted, r))
  {
    var parts, tail := CanonFields(sorted).value, [CLOSE_OBJECT] + r;
    RegroupEnclosed(OPEN_OBJECT, Join(parts), CLOSE_OBJECT, r);
    if sorted != [] {
      FieldsTailStep(sorted, r);
      var k, t, rest := Quoted(sorted[0].key), Canon(sorted[0].value).value, CanonFields(sorted[1..]).value;
      var first := k + [COLON] + t;
      JoinOfCons(first, rest);
      RegroupField(k, t, Tail(rest), tail);
    } else {
      assert Join(parts) + tail == tail;
    }
  }

  function ObjectRest(sorted: seq<Field>, r: Text): Text
    requires FieldsOk(sorted) && (sorted != [] ==> Canon(sorted[0].value).Some? && FieldsOk(sorted[1..]))
  {
    if sorted == [] then [CLOSE_OBJECT] + r else FieldText(sorted, r)
  }

  lemma ObjectRestHead(sorted: seq<Field>, r: Text)
    requires FieldsOk(sorted) && (sorted != [] ==> Canon(sorted[0].value).Some? && FieldsOk(sorted[1..]))
    ensures ObjectRest(sorted, r) != [] && (ObjectRest(sorted, r)[0] == CLOSE_OBJECT <==> sorted == [])
  {
    if sorted != [] {
      HeadOf(Quoted(sorted[0].key), [COLON] + (Canon(sorted[0].value).value + FieldsTail(sorted[1..], r)));
    }
  }

  lemma {:induction false} SortedReadBack(s1: seq<Field>, s2: seq<Field>, r1: Text, r2: Text)
    requires FieldsOk(s1) && FieldsOk(s2)
    requires [OPEN_OBJECT] + Join(CanonFields(s1).value) + [CLOSE_OBJECT] + r1
          == [OPEN_OBJECT] + Join(CanonFields(s2).value) + [CLOSE_OBJECT] + r2
    ensures SameFields(s1, s2) && r1 == r2
    decreases SizeFields(s1), 2
  {
    ObjectText(s1, r1);
    ObjectText(s2, r2);
    SplitEqual([OPEN_OBJECT], ObjectRest(s1, r1), [OPEN_OBJECT], ObjectRest(s2, r2));
    ObjectRestHead(s1, r1);
    ObjectRestHead(s2, r2);
    if s1 == [] {
      SplitEqual([CLOSE_OBJECT], r1, [CLOSE_OBJECT], r2);
    } else {
      FirstFieldReadBack(s1, s2, r1, r2);
    }
  }

  /** What an object means, field by field. */
  lemma {:induction false} FieldsMean(fields: seq<Field>)
    requires DistinctKeys(fields)
    ensures MeaningFields(fields).Some? <==> forall f :: f in fields && !f.value.Undefined? ==> Meaning(f.value).Some?
    ensures MeaningFields(fields).Some? ==>
      && (forall f :: f in fields && !f.value.Undefined? ==> f.key in MeaningFields(fields).value && Meaning(f.value) == Some(MeaningFields(fields).value[f.key]))
      && (forall k :: k in MeaningFields(fields).value ==> exists f :: f in fields && !f.value.Undefined? && f.key == k)
  {
    if fields != [] {
      var rest := fields[1..];
      FieldsMean(rest);
      assert forall f :: f in fields <==> f == fields[0] || f in rest;
      assert MeaningField(fields[0]) == Meaning(fields[0].value);
      FirstKeyIsNew(fields);
    }
  }

  lemma FirstKeyIsNew(fields: seq<Field>)
    requires DistinctKeys(fields) && fields != []
    ensures forall f :: f in fields[1..] ==> f.key != fields[0].key
  {
    forall f | f in fields[1..]
      ensures f.key != fields[0].key
    {
      var i :| 0 <= i < |fields[1..]| && fields[1..][i] == f;
      assert fields[i + 1] == f;
    }
  }

  lemma KeyCarriesOver(f1: seq<Field>, f2: seq<Field>, s1: seq<Field>, s2: seq<Field>, k: Text)
    requires DistinctKeys(f1) && DistinctKeys(f2) && MeaningFields(f1).Some? && MeaningFields(f2).Some?
    requires forall f :: f in s1 <==> f in f1 && !f.value.Undefined?
    requires forall f :: f in s2 <==> f in f2 && !f.value.Undefined?
    requires SameFields(s1, s2) && k in MeaningFields(f1).value
    ensures k in MeaningFields(f2).value && MeaningFields(f1).value[k] == MeaningFields(f2).value[k]
  {
    FieldsMean(f1);
    FieldsMean(f2);
    var f :| f in f1 && !f.value.Undefined? && f.key == k;
    assert f in s1;
    var i :| 0 <= i < |s1| && s1[i] == f;
    var g := s2[i];
    assert g in s2;
  }

  /** Objects whose defined fields agree, key by key, mean the same. */
  lemma SameSortedSameMeaning(f1: seq<Field>, f2: seq<Field>, s1: seq<Field>, s2: seq<Field>)
    requires DistinctKeys(f1) && DistinctKeys(f2) && MeaningFields(f1).Some? && MeaningFields(f2).Some?
    requires forall f :: f in s1 <==> f in f1 && !f.value.Undefined?
    requires forall f :: f in s2 <==> f in f2 && !f.value.Undefined?
    requires SameFields(s1, s2)
    ensures MeaningFields(f1) == MeaningFields(f2)
  {
    var m1, m2 := MeaningFields(f1).value, MeaningFields(f2).value;
    forall k | k in m1
      ensures k in m2 && m1[k] == m2[k]
    {
      KeyCarriesOver(f1, f2, s1, s2, k);
    }
    forall k | k in m2
      ensures k in m1
    {
      KeyCarriesOver(f2, f1, s2, s1, k);
    }
    assert m1 == m2;
  }

  // The order of keys.

  lemma {:induction false} BeforeIsTransitive(a: Text, b: Text, c: Text)
    requires Before(a, b) && Before(b, c)
    ensures Before(a, c)
  {
    if a != [] && a[0] == b[0] == c[0] {
      BeforeIsTransitive(a[1..], b[1..], c[1..]);
    }
  }

  lemma {:induction false} BeforeIsIrreflexive(a: Text)
    ensures !Before(a, a)
  {
    if a != [] {
      BeforeIsIrreflexive(a[1..]);
    }
  }

  lemma {:induction false} BeforeIsTotal(a: Text, b: Text)
    ensures a == b || Before(a, b) || Before(b, a)
  {
    if a != [] && b != [] && a[0] == b[0] {
      BeforeIsTotal(a[1..], b[1..]);
      if a[1..] == b[1..] {
        assert a == [a[0]] + a[1..] && b == [b[0]] + b[1..];
      }
    }
  }

  ghost predicate KeySorted(s: seq<Field>) {
    forall i, j :: 0 <= i < j < |s| ==> Before(s[i].key, s[j].key)
  }

  ghost predicate AllAfter(key: Text, s: seq<Field>) {
    forall f :: f in s ==> Before(key, f.key)
  }

  lemma SortedCons(f: Field, s: seq<Field>)
    requires KeySorted(s) && AllAfter(f.key, s)
    ensures KeySorted([f] + s)
  {
    var r := [f] + s;
    forall i, j | 0 <= i < j < |r|
      ensures Before(r[i].key, r[j].key)
    {
      if i == 0 {
        assert r[j] in s;
      }
    }
  }

  lemma SortedUncons(s: seq<Field>)
    requires KeySorted(s) && s != []
    ensures KeySorted(s[1..]) && AllAfter(s[0].key, s[1..])
  {
    forall f | f in s[1..]
      ensures Before(s[0].key, f.key)
    {
      var i :| 0 <= i < |s[1..]| && s[1..][i] == f;
      assert s[i + 1] == f;
    }
  }

  lemma {:induction false} InsertKeepsSorted(f: Field, s: seq<Field>)
    requires KeySorted(s) && forall g :: g in s ==> g.key != f.key
    ensures KeySorted(Insert(f, s))
  {
    if s == [] {
    } else if Before(f.key, s[0].key) {
      SortedUncons(s);
      forall g | g in s
        ensures Before(f.key, g.key)
      {
        if g != s[0] {
          assert g in s[1..];
          BeforeIsTransitive(f.key, s[0].key, g.key);
        }
      }
      SortedCons(f, s);
    } else {
      BeforeIsTotal(f.key, s[0].key);
      SortedUncons(s);
      InsertKeepsSorted(f, s[1..]);
      SortedCons(s[0], Insert(f, s[1..]));
    }
  }

  lemma {:induction false} SortFieldsSorts(fields: seq<Field>)
    requires DistinctKeys(fields)
    ensures KeySorted(SortFields(fields))
  {
    if fields != [] {
      SortFieldsSorts(fields[1..]);
      forall g | g in SortFields(fields[1..])
        ensures g.key != fields[0].key
      {
        var i :| 0 <= i < |fields[1..]| && fields[1..][i] == g;
        assert fields[i + 1] == g;
      }
      InsertKeepsSorted(fields[0], SortFields(fields[1..]));
    }
  }

  lemma {:induction false} DefinedKeepsDistinct(fields: seq<Field>)
    requires DistinctKeys(fields)
    ensures DistinctKeys(Defined(fields))
  {
    if fields != [] {
      DefinedKeepsDistinct(fields[1..]);
      var rest := Defined(fields[1..]);
      forall g | g in rest
        ensures g.key != fields[0].key
      {
        var i :| 0 <= i < |fields[1..]| && fields[1..][i] == g;
        assert fields[i + 1] == g;
      }
      assert forall i :: 0 <= i < |rest| ==> rest[i] in rest;
    }
  }

  ghost predicate HasKey(s: seq<Field>, k: Text) {
    exists f :: f in s && f.key == k
  }

  lemma FirstKeysAgree(s1: seq<Field>, s2: seq<Field>)
    requires KeySorted(s1) && KeySorted(s2) && s1 != [] && s2 != []
    requires HasKey(s2, s1[0].key) && HasKey(s1, s2[0].key)
    ensures s1[0].key == s2[0].key
  {
    SortedUncons(s1);
    SortedUncons(s2);
    var f :| f in s2 && f.key == s1[0].key;
    var g :| g in s1 && g.key == s2[0].key;
    if f != s2[0] && g != s1[0] {
      assert f in s2[1..] && g in s1[1..];
      BeforeIsTransitive(s1[0].key, s2[0].key, s1[0].key);
      BeforeIsIrreflexive(s1[0].key);
    }
  }

  lemma TailHasKey(s: seq<Field>, t: seq<Field>, k: Text)
    requires s != [] && t != [] && KeySorted(s) && s[0].key == t[0].key
    requires HasKey(s[1..], k) && HasKey(t, k)
    ensures HasKey(t[1..], k)
  {
    SortedUncons(s);
    var f :| f in s[1..] && f.key == k;
    BeforeIsIrreflexive(k);
    var g :| g in t && g.key == k;
    assert g != t[0];
    assert g in t[1..];
  }

  /** Sorted fields with the same keys list them in the same order. */
  lemma {:induction false} SameKeyOrder(s1: seq<Field>, s2: seq<Field>)
    requires KeySorted(s1) && KeySorted(s2) && forall k :: HasKey(s1, k) <==> HasKey(s2, k)
    ensures |s1| == |s2| && forall i :: 0 <= i < |s1| ==> s1[i].key == s2[i].key
  {
    if s1 == [] {
      assert s2 != [] ==> HasKey(s2, s2[0].key);
    } else if s2 == [] {
      assert HasKey(s1, s1[0].key);
    } else {
      assert HasKey(s1, s1[0].key) && HasKey(s2, s2[0].key);
      FirstKeysAgree(s1, s2);
      SortedUncons(s1);
      SortedUncons(s2);
      forall k
        ensures HasKey(s1[1..], k) <==> HasKey(s2[1..], k)
      {
        if HasKey(s1[1..], k) {
          HasKeyOfTail(s1, k);
          TailHasKey(s1, s2, k);
        }
        if HasKey(s2[1..], k) {
          HasKeyOfTail(s2, k);
          TailHasKey(s2, s1, k);
        }
      }
      SameKeyOrder(s1[1..], s2[1..]);
      forall i | 0 <= i < |s1|
        ensures s1[i].key == s2[i].key
      {
        if i > 0 {
          assert s1[1..][i - 1].key == s2[1..][i - 1].key;
        }
      }
    }
  }

  lemma HasKeyOfTail(s: seq<Field>, k: Text)
    requires s != [] && HasKey(s[1..], k)
    ensures HasKey(s, k)
  {
    var f :| f in s[1..] && f.key == k;
    assert f in s;
  }

  // The same meaning gives the same text.

  lemma {:induction false} SameMeaningSameText(a: Value, b: Value)
    requires WellFormed(a) && WellFormed(b) && Meaning(a).Some? && Meaning(a) == Meaning(b)
    ensures Canon(a) == Canon(b)
    decreases Size(a), 0
  {
    match a {
      case Arr(items) => SameItemsSameText(items, b.items);
      case Obj(fields) => SameObjectSameText(fields, b.fields);
      case _ =>
    }
  }

  lemma {:induction false} SameItemsSameText(items1: seq<Value>, items2: seq<Value>)
    requires forall i :: 0 <= i < |items1| ==> WellFormed(items1[i])
    requires forall i :: 0 <= i < |items2| ==> WellFormed(items2[i])
    requires MeaningItems(items1).Some? && MeaningItems(items1) == MeaningItems(items2)
    ensures CanonItems(items1) == CanonItems(items2)
    decreases SizeItems(items1), |items1|
  {
    if items1 != [] && items2 != [] {
      var m1, m2 := MeaningItems(items1).value, MeaningItems(items2).value;
      assert m1[0] == m2[0] && m1[1..] == MeaningItems(items1[1..]).value && m2[1..] == MeaningItems(items2[1..]).value;
      SameMeaningSameText(items1[0], items2[0]);
      SameItemsSameText(items1[1..], items2[1..]);
    }
  }

  lemma SortedKeys(fields: seq<Field>, k: Text)
    requires DistinctKeys(fields) && MeaningFields(fields).Some?
    ensures KeySorted(SortFields(Defined(fields)))
    ensures HasKey(SortFields(Defined(fields)), k) <==> k in MeaningFields(fields).value
  {
    FieldsMean(fields);
    DefinedKeepsDistinct(fields);
    SortFieldsSorts(Defined(fields));
    if k in MeaningFields(fields).value {
      var f :| f in fields && !f.value.Undefined? && f.key == k;
      assert f in SortFields(Defined(fields));
    }
  }

  lemma SameMeaningSameFields(f1: seq<Field>, f2: seq<Field>)
    requires DistinctKeys(f1) && DistinctKeys(f2) && MeaningFields(f1).Some? && MeaningFields(f1) == MeaningFields(f2)
    ensures SameFields(SortFields(Defined(f1)), SortFields(Defined(f2)))
    ensures forall f :: f in SortFields(Defined(f1)) ==> Meaning(f.value).Some?
  {
    var s1, s2 := SortFields(Defined(f1)), SortFields(Defined(f2));
    forall k
      ensures HasKey(s1, k) <==> HasKey(s2, k)
    {
      SortedKeys(f1, k);
      SortedKeys(f2, k);
    }
    SortedKeys(f1, []);
    SortedKeys(f2, []);
    SameKeyOrder(s1, s2);
    FieldsMean(f1);
    FieldsMean(f2);
    forall i | 0 <= i < |s1|
      ensures s1[i].key == s2[i].key && Meaning(s1[i].value) == Meaning(s2[i].value)
    {
      assert s1[i] in s1 && s2[i] in s2;
    }
  }

  lemma {:induction false} SameObjectSameText(f1: seq<Field>, f2: seq<Field>)
    requires WellFormed(Obj(f1)) && WellFormed(Obj(f2))
    requires MeaningFields(f1).Some? && MeaningFields(f1) == MeaningFields(f2)
    ensures CanonFields(SortFields(Defined(f1))) == CanonFields(SortFields(Defined(f2)))
    decreases SizeFields(f1), 1, 1
  {
    SameMeaningSameFields(f1, f2);
    var s1, s2 := SortFields(Defined(f1)), SortFields(Defined(f2));
    SortedWellFormed(f1);
    SortedWellFormed(f2);
    SameFieldsSameText(s1, s2);
  }

  lemma SortedWellFormed(fields: seq<Field>)
    requires WellFormed(Obj(fields))
    ensures forall f :: f in SortFields(Defined(fields)) ==> WellFormed(f.value)
  {
    forall f | f in SortFields(Defined(fields))
      ensures WellFormed(f.value)
    {
      var i :| 0 <= i < |fields| && fields[i] == f;
      assert WellFormedField(fields[i]);
    }
  }

  lemma {:induction false} SameFieldsSameText(s1: seq<Field>, s2: seq<Field>)
    requires SameFields(s1, s2) && forall f :: f in s1 ==> Meaning(f.value).Some? && WellFormed(f.value)
    requires forall f :: f in s2 ==> WellFormed(f.value)
    ensures CanonFields(s1) == CanonFields(s2)
    decreases SizeFields(s1), 1, 0
  {
    if s1 != [] {
      assert s1[0] in s1 && s2[0] in s2;
      assert SizeField(s1[0]) == Size(s1[0].value);
      SameMeaningSameText(s1[0].value, s2[0].value);
      assert forall i :: 0 <= i < |s1| - 1 ==> s1[1..][i] == s1[i + 1] && s2[1..][i] == s2[i + 1];
      SameFieldsSameText(s1[1..], s2[1..]);
    }
  }

  /** canonicalJson compares values exactly: a value has a text precisely when it is JSON all the way
      down, and two such values have the same text precisely when they are equal as JSON, ignoring
      the order of object keys and undefined fields but not the order of arrays. */
  lemma CanonicalTextDecides(a: Value, b: Value)
    requires WellFormed(a) && WellFormed(b)
    ensures Canon(a).Some? <==> Meaning(a).Some?
    ensures Canon(a).Some? && Canon(b).Some? ==> (Canon(a) == Canon(b) <==> Meaning(a) == Meaning(b))
  {
    CanonMeans(a);
    CanonMeans(b);
    if Canon(a).Some? && Canon(b).Some? {
      if Canon(a) == Canon(b) {
        ReadBack(a, b, Canon(a).value, Canon(b).value, [], []);
      }
      if Meaning(a) == Meaning(b) {
        SameMeaningSameText(a, b);
      }
    }
  }
}
