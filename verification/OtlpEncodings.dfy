/**
 The JSON texts that encode a trace export by the OTLP/HTTP mapping, where a field with its default value may be
 left out or written as null, and what the two decoders make of the two forms of one export.
 */
module OtlpEncodings {
  import opened Numerals
  import opened Options
  import opened Otlp

  /** The predicate holds of each element and its counterpart. */
  ghost predicate Pairwise<A(!new), B(!new)>(p: (A, B) -> bool, xs: seq<A>, ys: seq<B>) {
    |xs| == |ys| && forall i :: 0 <= i < |xs| ==> p(xs[i], ys[i])
  }

  lemma PairwiseLast<A(!new), B(!new)>(p: (A, B) -> bool, xs: seq<A>, ys: seq<B>)
    requires |xs| == |ys| > 0
    ensures var n := |xs| - 1;
            Pairwise(p, xs, ys) <==> Pairwise(p, xs[..n], ys[..n]) && p(xs[n], ys[n])
  {
    var n := |xs| - 1;
    if Pairwise(p, xs[..n], ys[..n]) && p(xs[n], ys[n]) {
      forall i | 0 <= i < |xs| ensures p(xs[i], ys[i]) {
        if i < n {
          assert xs[..n][i] == xs[i] && ys[..n][i] == ys[i];
        }
      }
    }
  }

  ghost predicate Every<A(!new)>(p: A -> bool, xs: seq<A>) {
    forall i :: 0 <= i < |xs| ==> p(xs[i])
  }

  lemma EveryLast<A(!new)>(p: A -> bool, xs: seq<A>)
    requires xs != []
    ensures Every(p, xs) <==> Every(p, xs[..|xs| - 1]) && p(xs[|xs| - 1])
  {
    var n := |xs| - 1;
    if Every(p, xs[..n]) && p(xs[n]) {
      forall i | 0 <= i < |xs| ensures p(xs[i]) {
        if i < n {
          assert xs[..n][i] == xs[i];
        }
      }
    }
  }

  // ---------------------------------------------------------------- fields

  /** Absent or null: the field has its default value. */
  predicate Unset(fields: seq<Entry>, name: string) {
    var at := Lookup(fields, name);
    at.None? || at.value == Null
  }

  predicate NotNull(v: Py, name: string) {
    v.Dict? ==> Lookup(v.fields, name) != Some(Null)
  }

  /** The field encodes a list. */
  predicate Repeated(v: Py, name: string) {
    v.Dict? && (Unset(v.fields, name) || Lookup(v.fields, name).value.List?)
  }

  function ListAt(v: Py, name: string): seq<Py> {
    if Repeated(v, name) && !Unset(v.fields, name) then Lookup(v.fields, name).value.items else []
  }

  /** A loop over a list field raises exactly on null. */
  lemma ItemsAtIs(v: Py, name: string)
    requires Repeated(v, name)
    ensures ItemsAt(v, name) == if NotNull(v, name) then Some(ListAt(v, name)) else None
  {}

  // ---------------------------------------------------------------- JSON texts that encode a tree

  function Base64Digit(d: int): char
    requires 0 <= d < 64
  {
    if d < 26 then ('A' as int + d) as char
    else if d < 52 then ('a' as int + d - 26) as char
    else if d < 62 then ('0' as int + d - 52) as char
    else if d == 62 then '+' else '/'
  }

  function Base64(b: Bytes): string {
    if b == [] then ""
    else if |b| == 1 then [Base64Digit(b[0] / 4), Base64Digit(b[0] % 4 * 16), '=', '=']
    else if |b| == 2 then
      [Base64Digit(b[0] / 4), Base64Digit(b[0] % 4 * 16 + b[1] / 16), Base64Digit(b[1] % 16 * 4), '=']
    else
      [Base64Digit(b[0] / 4), Base64Digit(b[0] % 4 * 16 + b[1] / 16),
       Base64Digit(b[1] % 16 * 4 + b[2] / 64), Base64Digit(b[2] % 64)]
      + Base64(b[3..])
  }

  /** Test vectors of section 10 of RFC 4648. */
  lemma Base64Vectors()
    ensures Base64([102]) == "Zg==" && Base64([102, 111]) == "Zm8=" && Base64([102, 111, 111]) == "Zm9v"
  {}

  /** Each group of three bytes is encoded by itself. */
  lemma Base64Groups(x: byte, y: byte, z: byte, rest: Bytes)
    ensures Base64([x, y, z] + rest) == Base64([x, y, z]) + Base64(rest)
  {
    var all := [x, y, z] + rest;
    assert all[3..] == rest && all[0] == x && all[1] == y && all[2] == z;
    assert [x, y, z][3..] == [];
    assert Base64([]) == "";
  }

  function KindOf(v: AnyValue): string {
    match v
    case NoValue => ""
    case StringValue(_) => "stringValue"
    case BoolValue(_) => "boolValue"
    case IntValue(_) => "intValue"
    case DoubleValue(_) => "doubleValue"
    case ArrayValue(_) => "arrayValue"
    case KvListValue(_) => "kvlistValue"
    case BytesValue(_) => "bytesValue"
  }

  /** At most the field of the value's own kind is set. */
  predicate OnlyKind(fields: seq<Entry>, kind: string) {
    && (kind != "stringValue" ==> Unset(fields, "stringValue"))
    && (kind != "boolValue" ==> Unset(fields, "boolValue"))
    && (kind != "intValue" ==> Unset(fields, "intValue"))
    && (kind != "doubleValue" ==> Unset(fields, "doubleValue"))
    && (kind != "arrayValue" ==> Unset(fields, "arrayValue"))
    && (kind != "kvlistValue" ==> Unset(fields, "kvlistValue"))
    && (kind != "bytesValue" ==> Unset(fields, "bytesValue"))
  }

  /** A 64-bit integer is written as a decimal string or as a number. */
  predicate IntJson(v: Py, i: int) {
    v == Str(DecimalOf(i)) || v == Int(i)
  }

  ghost predicate ValueJson(j: Py, v: AnyValue)
    decreases v, 0
  {
    && j.Dict? && OnlyKind(j.fields, KindOf(v))
    && (!v.NoValue? ==>
          var at := Lookup(j.fields, KindOf(v));
          at.Some? &&
          match v
          case NoValue => true
          case StringValue(s) => at.value == Str(s)
          case BoolValue(b) => at.value == Bool(b)
          case IntValue(i) => IntJson(at.value, i)
          case DoubleValue(r) => at.value == Float(r) || (at.value.Int? && at.value.i as real == r)
          case ArrayValue(vs) =>
            var items := ListAt(at.value, "values");
            && Repeated(at.value, "values") && |items| == |vs|
            && forall i :: 0 <= i < |vs| ==> ValueJson(items[i], vs[i])
          case KvListValue(es) =>
            var items := ListAt(at.value, "values");
            && Repeated(at.value, "values") && |items| == |es|
            && forall i :: 0 <= i < |es| ==> EntryJson(items[i], es[i])
          case BytesValue(b) => at.value == Str(Base64(b)))
  }

  ghost predicate EntryJson(j: Py, e: KeyValue)
    decreases e, 0
  {
    && j.Dict?
    && (Lookup(j.fields, "key") == Some(Str(e.key)) || (Unset(j.fields, "key") && e.key == ""))
    && if Unset(j.fields, "value") then e.value.NoValue? else ValueJson(Lookup(j.fields, "value").value, e.value)
  }

  // ---------------------------------------------------------------- which values decode

  /** The field the decoder looks at: the first that is present, in the order of its branches. */
  function Leading(fields: seq<Entry>): (kind: string)
    ensures kind != "" ==> Lookup(fields, kind).Some?
  {
    if Lookup(fields, "stringValue").Some? then "stringValue"
    else if Lookup(fields, "boolValue").Some? then "boolValue"
    else if Lookup(fields, "intValue").Some? then "intValue"
    else if Lookup(fields, "doubleValue").Some? then "doubleValue"
    else if Lookup(fields, "arrayValue").Some? then "arrayValue"
    else if Lookup(fields, "kvlistValue").Some? then "kvlistValue"
    else if Lookup(fields, "bytesValue").Some? then "bytesValue"
    else ""
  }

  /** No null where the decoder converts a number, takes a value apart or iterates, at any depth. */
  ghost predicate Readable(j: Py, v: AnyValue)
    decreases v, 0
  {
    && j.Dict?
    && var kind := Leading(j.fields);
       kind == "" ||
       var at := Lookup(j.fields, kind).value;
       if at == Null then kind !in ["doubleValue", "arrayValue", "kvlistValue"]
       else match v
         case ArrayValue(vs) =>
           var items := ListAt(at, "values");
           NotNull(at, "values") && forall i :: 0 <= i < |vs| && i < |items| ==> Readable(items[i], vs[i])
         case KvListValue(es) =>
           var items := ListAt(at, "values");
           NotNull(at, "values") && forall i :: 0 <= i < |es| && i < |items| ==> EntryReadable(items[i], es[i])
         case _ => true
  }

  ghost predicate EntryReadable(j: Py, e: KeyValue)
    decreases e, 0
  {
    && j.Dict? && NotNull(j, "value")
    && (Lookup(j.fields, "value").Some? ==> Readable(Lookup(j.fields, "value").value, e.value))
  }

  lemma ArrayDecodes(j: Py, at: Py)
    requires j.Dict? && Leading(j.fields) == "arrayValue" && Lookup(j.fields, "arrayValue") == Some(at)
    requires Repeated(at, "values")
    ensures var items := DecodeJsonItems(ListAt(at, "values"));
            DecodeJson(j) == if NotNull(at, "values") && items.Some? then Some(List(items.value)) else None
  {
    ItemsAtIs(at, "values");
    LeadingArray(j.fields);
  }

  lemma LeadingArray(fields: seq<Entry>)
    requires Leading(fields) == "arrayValue"
    ensures Lookup(fields, "stringValue").None? && Lookup(fields, "boolValue").None?
    ensures Lookup(fields, "intValue").None? && Lookup(fields, "doubleValue").None?
  {}

  lemma LeadingKvList(fields: seq<Entry>)
    requires Leading(fields) == "kvlistValue"
    ensures Lookup(fields, "stringValue").None? && Lookup(fields, "boolValue").None?
    ensures Lookup(fields, "intValue").None? && Lookup(fields, "doubleValue").None?
    ensures Lookup(fields, "arrayValue").None?
  {}

  lemma KvListDecodes(j: Py, at: Py)
    requires j.Dict? && Leading(j.fields) == "kvlistValue" && Lookup(j.fields, "kvlistValue") == Some(at)
    requires Repeated(at, "values")
    ensures var entries := DecodeJsonEntries(ListAt(at, "values"));
            DecodeJson(j) == if NotNull(at, "values") && entries.Some? then Some(Dict(entries.value)) else None
  {
    LeadingKvList(j.fields);
    ItemsAtIs(at, "values");
  }

  predicate IsScalar(v: AnyValue) {
    !v.ArrayValue? && !v.KvListValue?
  }

  lemma ScalarDecodesIff(j: Py, v: AnyValue)
    requires ValueJson(j, v) && IsScalar(v) && Leading(j.fields) == KindOf(v)
    ensures DecodeJson(j).Some? <==> Readable(j, v)
  {
    if v.IntValue? {
      ParseIntOfDecimal(v.int64);
    }
  }

  /** What the decoder makes of a null field. */
  lemma NullDecodesIff(j: Py)
    requires j.Dict? && Leading(j.fields) != "" && Lookup(j.fields, Leading(j.fields)) == Some(Null)
    ensures DecodeJson(j).Some? <==> Leading(j.fields) !in ["doubleValue", "arrayValue", "kvlistValue"]
  {}

  lemma LeadingIsPresent(j: Py, v: AnyValue)
    requires ValueJson(j, v) && Leading(j.fields) != KindOf(v)
    ensures Leading(j.fields) != "" && Lookup(j.fields, Leading(j.fields)) == Some(Null)
  {}

  /** A null field of another kind is read in place of the value. */
  lemma MisreadDecodesIff(j: Py, v: AnyValue)
    requires ValueJson(j, v) && Leading(j.fields) != KindOf(v)
    ensures DecodeJson(j).Some? <==> Readable(j, v)
  {
    LeadingIsPresent(j, v);
    NullDecodesIff(j);
  }

  lemma {:induction false} ArrayDecodesIff(j: Py, v: AnyValue)
    requires v.ArrayValue? && ValueJson(j, v) && Leading(j.fields) == KindOf(v)
    ensures DecodeJson(j).Some? <==> Readable(j, v)
    decreases v, 1
  {
    var at := Lookup(j.fields, "arrayValue").value;
    ArrayDecodes(j, at);
    ItemsDecodeIff(ListAt(at, "values"), v.values);
  }

  lemma {:induction false} KvListDecodesIff(j: Py, v: AnyValue)
    requires v.KvListValue? && ValueJson(j, v) && Leading(j.fields) == KindOf(v)
    ensures DecodeJson(j).Some? <==> Readable(j, v)
    decreases v, 1
  {
    var at := Lookup(j.fields, "kvlistValue").value;
    KvListDecodes(j, at);
    EntriesDecodeIff(ListAt(at, "values"), v.entries);
  }

  /** Nested to any depth, a value decodes iff it is readable. */
  lemma {:induction false} ValueDecodesIff(j: Py, v: AnyValue)
    requires ValueJson(j, v)
    ensures DecodeJson(j).Some? <==> Readable(j, v)
    decreases v, 2
  {
    if Leading(j.fields) != KindOf(v) {
      MisreadDecodesIff(j, v);
    } else if IsScalar(v) {
      ScalarDecodesIff(j, v);
    } else if v.ArrayValue? {
      ArrayDecodesIff(j, v);
    } else {
      KvListDecodesIff(j, v);
    }
  }

  lemma {:induction false} ItemsDecodeIff(items: seq<Py>, vs: seq<AnyValue>)
    requires Pairwise(ValueJson, items, vs)
    ensures DecodeJsonItems(items).Some? <==> Pairwise(Readable, items, vs)
    decreases vs, 0
  {
    if vs != [] {
      PairwiseLast(ValueJson, items, vs);
      PairwiseLast(Readable, items, vs);
      ItemsDecodeIff(items[..|items| - 1], vs[..|vs| - 1]);
      ValueDecodesIff(items[|items| - 1], vs[|vs| - 1]);
    }
  }

  lemma EntryDecodesIff(item: Py, e: KeyValue)
    requires EntryJson(item, e)
    ensures EntryReadable(item, e) <==>
            Lookup(item.fields, "value").None? || DecodeJson(Lookup(item.fields, "value").value).Some?
    decreases e, 3
  {
    if !Unset(item.fields, "value") {
      ValueDecodesIff(Lookup(item.fields, "value").value, e.value);
    }
  }

  lemma {:induction false} EntriesDecodeIff(items: seq<Py>, es: seq<KeyValue>)
    requires Pairwise(EntryJson, items, es)
    ensures DecodeJsonEntries(items).Some? <==> Pairwise(EntryReadable, items, es)
    decreases es, 0
  {
    if es != [] {
      PairwiseLast(EntryJson, items, es);
      PairwiseLast(EntryReadable, items, es);
      EntriesDecodeIff(items[..|items| - 1], es[..|es| - 1]);
      EntryDecodesIff(items[|items| - 1], es[|es| - 1]);
    }
  }

  // ---------------------------------------------------------------- values agree

  /**
   What keeps a readable value from changing its meaning: no null field of another kind is read in its place,
   unless that reads as no value, no key is null, and no byte string is other than empty.
   */
  ghost predicate Faithful(j: Py, v: AnyValue)
    decreases v, 0
  {
    && j.Dict?
    && (Leading(j.fields) == KindOf(v) || (v.NoValue? && Leading(j.fields) in ["stringValue", "boolValue"]))
    && match v
       case ArrayValue(vs) =>
         var items := ListAt(Lookup(j.fields, "arrayValue").value, "values");
         forall i :: 0 <= i < |vs| && i < |items| ==> Faithful(items[i], vs[i])
       case KvListValue(es) =>
         var items := ListAt(Lookup(j.fields, "kvlistValue").value, "values");
         forall i :: 0 <= i < |es| && i < |items| ==> EntryFaithful(items[i], es[i])
       case BytesValue(b) => b == []
       case _ => true
  }

  ghost predicate EntryFaithful(j: Py, e: KeyValue)
    decreases e, 0
  {
    && j.Dict? && NotNull(j, "key")
    && (Lookup(j.fields, "value").Some? ==> Faithful(Lookup(j.fields, "value").value, e.value))
  }

  lemma ScalarAgrees(j: Py, v: AnyValue)
    requires IsScalar(v) && ValueJson(j, v) && Readable(j, v) && Faithful(j, v)
    ensures DecodeJson(j) == Some(DecodeProto(v))
  {
    if v.IntValue? {
      ParseIntOfDecimal(v.int64);
    }
  }

  lemma {:induction false} ArrayAgrees(j: Py, v: AnyValue)
    requires v.ArrayValue? && ValueJson(j, v) && Readable(j, v) && Faithful(j, v)
    ensures DecodeJson(j) == Some(DecodeProto(v))
    decreases v, 1
  {
    var at := Lookup(j.fields, "arrayValue").value;
    ArrayDecodes(j, at);
    ItemsAgree(ListAt(at, "values"), v.values);
  }

  lemma {:induction false} KvListAgrees(j: Py, v: AnyValue)
    requires v.KvListValue? && ValueJson(j, v) && Readable(j, v) && Faithful(j, v)
    ensures DecodeJson(j) == Some(DecodeProto(v))
    decreases v, 1
  {
    var at := Lookup(j.fields, "kvlistValue").value;
    KvListDecodes(j, at);
    EntriesAgree(ListAt(at, "values"), v.entries);
  }

  /** Nested to any depth, a readable and faithful value decodes the same from JSON as from protobuf. */
  lemma {:induction false} ValuesAgree(j: Py, v: AnyValue)
    requires ValueJson(j, v) && Readable(j, v) && Faithful(j, v)
    ensures DecodeJson(j) == Some(DecodeProto(v))
    decreases v, 2
  {
    if v.ArrayValue? {
      ArrayAgrees(j, v);
    } else if v.KvListValue? {
      KvListAgrees(j, v);
    } else {
      ScalarAgrees(j, v);
    }
  }

  lemma {:induction false} ItemsAgree(items: seq<Py>, vs: seq<AnyValue>)
    requires |items| == |vs|
    requires forall i :: 0 <= i < |vs| ==>
             ValueJson(items[i], vs[i]) && Readable(items[i], vs[i]) && Faithful(items[i], vs[i])
    ensures DecodeJsonItems(items) == Some(DecodeProtoItems(vs))
    decreases vs, 0
  {
    if vs != [] {
      ItemsAgree(items[..|items| - 1], vs[..|vs| - 1]);
      ValuesAgree(items[|items| - 1], vs[|vs| - 1]);
    }
  }

  ghost predicate EntryOk(j: Py, e: KeyValue) {
    EntryJson(j, e) && EntryReadable(j, e) && EntryFaithful(j, e)
  }

  lemma {:induction false} EntriesAgree(items: seq<Py>, es: seq<KeyValue>)
    requires |items| == |es| && forall i :: 0 <= i < |es| ==> EntryOk(items[i], es[i])
    ensures DecodeJsonEntries(items) == Some(DecodeProtoEntries(es))
    decreases es, 0
  {
    if es != [] {
      var item, e := items[|items| - 1], es[|es| - 1];
      EntriesAgree(items[..|items| - 1], es[..|es| - 1]);
      assert EntryOk(item, e);
      var at := Lookup(item.fields, "value");
      if at.Some? {
        ValuesAgree(at.value, e.value);
      }
    }
  }

  lemma {:induction false} HexLength(b: Bytes)
    ensures |Hex(b)| == 2 * |b| && '=' !in Hex(b)
  {
    if b != [] {
      HexLength(b[1..]);
    }
  }

  lemma Base64Step(b: Bytes)
    requires |b| >= 3
    ensures |Base64(b)| == 4 + |Base64(b[3..])|
    ensures '=' in Base64(b[3..]) ==> '=' in Base64(b)
  {}

  /** Base64 text is padded, or four characters for every three bytes. */
  lemma {:induction false} Base64Shape(b: Bytes)
    ensures '=' in Base64(b) || 3 * |Base64(b)| == 4 * |b|
  {
    if |b| >= 3 {
      Base64Step(b);
      Base64Shape(b[3..]);
    }
  }

  lemma HexIsBase64IffEmpty(b: Bytes)
    ensures Hex(b) == Base64(b) <==> b == []
  {
    HexLength(b);
    Base64Shape(b);
  }

  /**
   For a value without parts the two conditions are exact: JSON and protobuf give the same if and only if it is
   readable and faithful. So a byte string agrees iff it is empty: JSON keeps its base64 text, protobuf gives
   hexadecimal.
   */
  lemma ScalarAgreesIff(j: Py, v: AnyValue)
    requires ValueJson(j, v) && IsScalar(v)
    ensures DecodeJson(j) == Some(DecodeProto(v)) <==> Readable(j, v) && Faithful(j, v)
  {
    ValueDecodesIff(j, v);
    if v.BytesValue? {
      HexIsBase64IffEmpty(v.bytes);
    }
    if Readable(j, v) && Faithful(j, v) {
      ValuesAgree(j, v);
    }
  }

  // ---------------------------------------------------------------- exactness under unique keys

  ghost predicate DistinctKeys(es: seq<KeyValue>) {
    forall i, j :: 0 <= i < j < |es| ==> es[i].key != es[j].key
  }

  /** No list of entries, at any depth, has one key twice, as the OTLP specification demands. */
  ghost predicate Unique(v: AnyValue)
    decreases v
  {
    match v
    case ArrayValue(vs) => forall i :: 0 <= i < |vs| ==> Unique(vs[i])
    case KvListValue(es) => DistinctKeys(es) && forall i :: 0 <= i < |es| ==> Unique(es[i].value)
    case _ => true
  }

  ghost predicate UniqueEntries(es: seq<KeyValue>) {
    DistinctKeys(es) && forall i :: 0 <= i < |es| ==> Unique(es[i].value)
  }

  ghost predicate Decoded(j: Py, v: AnyValue) {
    DecodeJson(j) == Some(DecodeProto(v))
  }

  /** The entry a JSON item puts into the dictionary. */
  function EntryOf(item: Py): Option<Entry> {
    if !item.Dict? then None
    else
      var at := Lookup(item.fields, "value");
      var value := if at.None? then Some(Null) else DecodeJson(at.value);
      if value.None? then None else Some(Entry(NameOf(Lookup(item.fields, "key")), value.value))
  }

  function ProtoEntry(e: KeyValue): Entry {
    Entry(Some(e.key), DecodeProto(e.value))
  }

  ghost predicate EntryDecoded(item: Py, e: KeyValue) {
    EntryOf(item) == Some(ProtoEntry(e))
  }

  function ProtoEntries(es: seq<KeyValue>): seq<Entry> {
    if es == [] then [] else ProtoEntries(es[..|es| - 1]) + [ProtoEntry(es[|es| - 1])]
  }

  lemma {:induction false} ProtoNames(es: seq<KeyValue>)
    ensures |ProtoEntries(es)| == |es| && forall i :: 0 <= i < |es| ==> ProtoEntries(es)[i] == ProtoEntry(es[i])
  {
    if es != [] {
      ProtoNames(es[..|es| - 1]);
    }
  }

  /** With unique keys a protobuf dictionary lists its entries one by one. */
  lemma {:induction false} ProtoDictionary(es: seq<KeyValue>)
    requires DistinctKeys(es)
    ensures DecodeProtoEntries(es) == ProtoEntries(es)
  {
    if es != [] {
      var init, e := es[..|es| - 1], es[|es| - 1];
      ProtoDictionary(init);
      ProtoNames(init);
      forall f | f in ProtoEntries(init) ensures f.name != Some(e.key) {
        var i :| 0 <= i < |init| && ProtoEntries(init)[i] == f;
        assert es[i].key != e.key;
      }
      PutNew(ProtoEntries(init), Some(e.key), DecodeProto(e.value));
    }
  }

  /** A JSON item is named as its entry, or, when its key is null, by Python's None in place of the empty string. */
  lemma NameIs(item: Py, e: KeyValue)
    requires EntryJson(item, e)
    ensures var name := NameOf(Lookup(item.fields, "key"));
            (name == Some(e.key) || (name == None && e.key == "")) && (name == Some(e.key) <==> NotNull(item, "key"))
  {}

  /** The dictionary lists the items one by one, and fails if one of them does. */
  ghost predicate Lists(entries: Option<seq<Entry>>, items: seq<Py>) {
    && (entries.Some? <==> forall i :: 0 <= i < |items| ==> EntryOf(items[i]).Some?)
    && (entries.Some? ==>
          |entries.value| == |items| && forall i :: 0 <= i < |items| ==> EntryOf(items[i]) == Some(entries.value[i]))
  }

  lemma ListsLast(before: Option<seq<Entry>>, items: seq<Py>)
    requires items != [] && Lists(before, items[..|items| - 1])
    ensures var last := EntryOf(items[|items| - 1]);
            Lists(if before.None? || last.None? then None else Some(before.value + [last.value]), items)
  {
    var n := |items| - 1;
    assert forall i :: 0 <= i < n ==> items[..n][i] == items[i];
  }

  /** Nor do two of its JSON items share a name, so the JSON dictionary lists its items one by one too. */
  lemma {:induction false} JsonDictionary(items: seq<Py>, es: seq<KeyValue>)
    requires Pairwise(EntryJson, items, es) && DistinctKeys(es)
    ensures Lists(DecodeJsonEntries(items), items)
  {
    if es != [] {
      var n := |es| - 1;
      PairwiseLast(EntryJson, items, es);
      JsonDictionary(items[..n], es[..n]);
      ListsLast(DecodeJsonEntries(items[..n]), items);
      JsonStep(items, es);
    }
  }

  lemma NamesDiffer(items: seq<Py>, es: seq<KeyValue>, i: nat, j: nat)
    requires Pairwise(EntryJson, items, es) && DistinctKeys(es) && i < j < |es|
    requires EntryOf(items[i]).Some? && EntryOf(items[j]).Some?
    ensures EntryOf(items[i]).value.name != EntryOf(items[j]).value.name
  {
    NameIs(items[i], es[i]);
    NameIs(items[j], es[j]);
    assert es[i].key != es[j].key;
  }

  lemma DecodeLast(items: seq<Py>, e: KeyValue)
    requires items != [] && EntryJson(items[|items| - 1], e)
    ensures var before, last := DecodeJsonEntries(items[..|items| - 1]), EntryOf(items[|items| - 1]);
            DecodeJsonEntries(items)
            == if before.None? || last.None? then None else Some(Put(before.value, last.value.name, last.value.value))
  {}

  lemma JsonStep(items: seq<Py>, es: seq<KeyValue>)
    requires Pairwise(EntryJson, items, es) && DistinctKeys(es) && es != []
    requires Lists(DecodeJsonEntries(items[..|items| - 1]), items[..|items| - 1])
    ensures var before, last := DecodeJsonEntries(items[..|items| - 1]), EntryOf(items[|items| - 1]);
            DecodeJsonEntries(items)
            == if before.None? || last.None? then None else Some(before.value + [last.value])
  {
    var n := |es| - 1;
    var before, last := DecodeJsonEntries(items[..n]), EntryOf(items[n]);
    DecodeLast(items, es[n]);
    if before.Some? && last.Some? {
      forall f | f in before.value ensures f.name != last.value.name {
        var i :| 0 <= i < n && before.value[i] == f;
        assert EntryOf(items[..n][i]) == Some(f);
        NamesDiffer(items, es, i, n);
      }
      PutNew(before.value, last.value.name, last.value.value);
    }
  }

  /** Dictionaries with unique keys agree iff their entries do, one by one. */
  lemma DictionariesAgreeIff(items: seq<Py>, es: seq<KeyValue>)
    requires Pairwise(EntryJson, items, es) && DistinctKeys(es)
    ensures DecodeJsonEntries(items) == Some(DecodeProtoEntries(es)) <==> Pairwise(EntryDecoded, items, es)
  {
    ProtoDictionary(es);
    ProtoNames(es);
    JsonDictionary(items, es);
    var entries := DecodeJsonEntries(items);
    if Pairwise(EntryDecoded, items, es) {
      forall i | 0 <= i < |items| ensures entries.Some? && entries.value[i] == ProtoEntry(es[i]) {
        assert EntryDecoded(items[i], es[i]);
        assert forall k :: 0 <= k < |items| ==> EntryDecoded(items[k], es[k]);
      }
      if items != [] {
        assert entries.value == ProtoEntries(es);
      }
    }
    if entries == Some(ProtoEntries(es)) {
      forall i | 0 <= i < |items| ensures EntryDecoded(items[i], es[i]) {
        assert EntryJson(items[i], es[i]);
      }
    }
  }

  lemma {:induction false} ListsAgreeIff(items: seq<Py>, vs: seq<AnyValue>)
    requires |items| == |vs|
    ensures DecodeJsonItems(items) == Some(DecodeProtoItems(vs)) <==> Pairwise(Decoded, items, vs)
    ensures |DecodeProtoItems(vs)| == |vs|
    ensures DecodeJsonItems(items).Some? ==> |DecodeJsonItems(items).value| == |items|
  {
    if vs != [] {
      var n := |vs| - 1;
      ListsAgreeIff(items[..n], vs[..n]);
      PairwiseLast(Decoded, items, vs);
      var before, last := DecodeJsonItems(items[..n]), DecodeJson(items[n]);
      if before.Some? && last.Some? {
        AppendEqual(before.value, last.value, DecodeProtoItems(vs[..n]), DecodeProto(vs[n]));
      }
    }
  }

  lemma AppendEqual<T>(a: seq<T>, x: T, b: seq<T>, y: T)
    requires |a| == |b|
    ensures a + [x] == b + [y] <==> a == b && x == y
  {
    if a + [x] == b + [y] {
      assert (a + [x])[..|a|] == a && (b + [y])[..|b|] == b;
      assert (a + [x])[|a|] == x && (b + [y])[|b|] == y;
    }
  }

  /** A list whose decoder reads some other, null field in its place does not decode to a list. */
  lemma MisreadList(j: Py, v: AnyValue)
    requires ValueJson(j, v) && !IsScalar(v) && Leading(j.fields) != KindOf(v)
    ensures !Decoded(j, v) && !Faithful(j, v)
  {}

  ghost predicate ReadableAndFaithful(j: Py, v: AnyValue) {
    Readable(j, v) && Faithful(j, v)
  }

  ghost predicate EntryReadableAndFaithful(j: Py, e: KeyValue) {
    EntryReadable(j, e) && EntryFaithful(j, e)
  }

  lemma {:induction false} ArrayAgreesIff(j: Py, v: AnyValue)
    requires v.ArrayValue? && ValueJson(j, v) && Unique(v) && Leading(j.fields) == KindOf(v)
    ensures Decoded(j, v) <==> ReadableAndFaithful(j, v)
    decreases v, 1
  {
    var at := Lookup(j.fields, "arrayValue").value;
    var items := ListAt(at, "values");
    ArrayDecodes(j, at);
    ListsAgreeIff(items, v.values);
    forall i | 0 <= i < |items| ensures Decoded(items[i], v.values[i]) <==> ReadableAndFaithful(items[i], v.values[i]) {
      ValuesAgreeIff(items[i], v.values[i]);
    }
    SamePairs(Decoded, ReadableAndFaithful, items, v.values);
    ArrayConditions(j, v);
  }

  lemma SamePairs<A(!new), B(!new)>(p: (A, B) -> bool, q: (A, B) -> bool, xs: seq<A>, ys: seq<B>)
    requires |xs| == |ys| && forall i :: 0 <= i < |xs| ==> (p(xs[i], ys[i]) <==> q(xs[i], ys[i]))
    ensures Pairwise(p, xs, ys) <==> Pairwise(q, xs, ys)
  {}

  lemma ArrayConditions(j: Py, v: AnyValue)
    requires v.ArrayValue? && ValueJson(j, v) && Leading(j.fields) == KindOf(v)
    ensures var at := Lookup(j.fields, "arrayValue").value;
            ReadableAndFaithful(j, v)
            <==> NotNull(at, "values") && Pairwise(ReadableAndFaithful, ListAt(at, "values"), v.values)
  {
    var items := ListAt(Lookup(j.fields, "arrayValue").value, "values");
    if Pairwise(ReadableAndFaithful, items, v.values) {
      assert forall i :: 0 <= i < |items| ==> ReadableAndFaithful(items[i], v.values[i]);
    }
  }

  lemma KvListConditions(j: Py, v: AnyValue)
    requires v.KvListValue? && ValueJson(j, v) && Leading(j.fields) == KindOf(v)
    ensures var at := Lookup(j.fields, "kvlistValue").value;
            ReadableAndFaithful(j, v)
            <==> NotNull(at, "values") && Pairwise(EntryReadableAndFaithful, ListAt(at, "values"), v.entries)
  {
    var items := ListAt(Lookup(j.fields, "kvlistValue").value, "values");
    if Pairwise(EntryReadableAndFaithful, items, v.entries) {
      assert forall i :: 0 <= i < |items| ==> EntryReadableAndFaithful(items[i], v.entries[i]);
    }
  }

  lemma EntryAgreesIff(item: Py, e: KeyValue)
    requires EntryJson(item, e) && Unique(e.value)
    ensures EntryDecoded(item, e) <==> EntryReadableAndFaithful(item, e)
    decreases e, 3
  {
    NameIs(item, e);
    if !Unset(item.fields, "value") {
      ValuesAgreeIff(Lookup(item.fields, "value").value, e.value);
    }
  }

  lemma {:induction false} EntriesAgreeIff(items: seq<Py>, es: seq<KeyValue>)
    requires Pairwise(EntryJson, items, es) && UniqueEntries(es)
    ensures DecodeJsonEntries(items) == Some(DecodeProtoEntries(es)) <==> Pairwise(EntryReadableAndFaithful, items, es)
    decreases es, 4
  {
    DictionariesAgreeIff(items, es);
    forall i | 0 <= i < |items| ensures EntryDecoded(items[i], es[i]) <==> EntryReadableAndFaithful(items[i], es[i]) {
      assert EntryJson(items[i], es[i]);
      EntryAgreesIff(items[i], es[i]);
    }
    SamePairs(EntryDecoded, EntryReadableAndFaithful, items, es);
  }

  lemma {:induction false} KvListAgreesIff(j: Py, v: AnyValue)
    requires v.KvListValue? && ValueJson(j, v) && Unique(v) && Leading(j.fields) == KindOf(v)
    ensures Decoded(j, v) <==> ReadableAndFaithful(j, v)
    decreases v, 1
  {
    var at := Lookup(j.fields, "kvlistValue").value;
    KvListDecodes(j, at);
    EntriesAgreeIff(ListAt(at, "values"), v.entries);
    KvListConditions(j, v);
  }

  /**
   Nested to any depth, with unique keys: a value decodes the same from JSON as from protobuf if and only if it is
   readable and faithful.
   */
  lemma {:induction false} ValuesAgreeIff(j: Py, v: AnyValue)
    requires ValueJson(j, v) && Unique(v)
    ensures Decoded(j, v) <==> ReadableAndFaithful(j, v)
    decreases v, 2
  {
    if IsScalar(v) {
      ScalarAgreesIff(j, v);
    } else if Leading(j.fields) != KindOf(v) {
      MisreadList(j, v);
    } else if v.ArrayValue? {
      ArrayAgreesIff(j, v);
    } else {
      KvListAgreesIff(j, v);
    }
  }

  // ---------------------------------------------------------------- spans

  function LowerChar(c: char): char {
    if 'A' <= c <= 'Z' then (c as int + 32) as char else c
  }

  function Lower(s: string): string {
    seq(|s|, i requires 0 <= i < |s| => LowerChar(s[i]))
  }

  /** Ids are hexadecimal text in JSON, of either letter case. */
  predicate IdJson(j: Py, camel: string, snake: string, id: Bytes)
    requires j.Dict?
  {
    var at := Lookup(j.fields, camel);
    if Unset(j.fields, camel) then Lookup(j.fields, snake).None? && id == []
    else at.value.Str? && Lower(at.value.text) == Hex(id)
  }

  predicate NanosJson(j: Py, camel: string, snake: string, nanos: nat)
    requires j.Dict?
  {
    if Unset(j.fields, camel) then Lookup(j.fields, snake).None? && nanos == 0
    else IntJson(Lookup(j.fields, camel).value, nanos)
  }

  predicate TextJson(j: Py, name: string, text: string)
    requires j.Dict?
  {
    if Unset(j.fields, name) then text == "" else Lookup(j.fields, name).value == Str(text)
  }

  predicate StatusJson(j: Py, status: Status)
    requires j.Dict?
  {
    var at := Lookup(j.fields, "status");
    if Unset(j.fields, "status") then status == Status(0, "")
    else
      && at.value.Dict? && TextJson(at.value, "message", status.message)
      && if Unset(at.value.fields, "code") then status.code == 0
         else Lookup(at.value.fields, "code").value == Int(status.code)
  }

  ghost predicate AttributesJson(j: Py, attributes: seq<KeyValue>) {
    Repeated(j, "attributes") && Pairwise(EntryJson, ListAt(j, "attributes"), attributes)
  }

  ghost predicate SpanJson(j: Py, s: Span) {
    && j.Dict?
    && IdJson(j, "spanId", "span_id", s.spanId)
    && IdJson(j, "traceId", "trace_id", s.traceId)
    && IdJson(j, "parentSpanId", "parent_span_id", s.parentSpanId)
    && TextJson(j, "name", s.name)
    && NanosJson(j, "startTimeUnixNano", "start_time_unix_nano", s.startNanos)
    && NanosJson(j, "endTimeUnixNano", "end_time_unix_nano", s.endNanos)
    && StatusJson(j, s.status)
    && AttributesJson(j, s.attributes)
  }

  ghost predicate SpanReadable(j: Py, s: Span) {
    NotNull(j, "attributes") && Pairwise(EntryReadable, ListAt(j, "attributes"), s.attributes)
  }

  ghost predicate SpanFaithful(j: Py, s: Span) {
    Pairwise(EntryFaithful, ListAt(j, "attributes"), s.attributes)
  }

  predicate SameId(json: Text, proto: Text) {
    json.Plain? && proto.Plain? && Lower(json.text) == proto.text
  }

  /** Equal up to the letter case of the three ids. */
  predicate RowsAgree(json: Row, proto: Row) {
    && SameId(json.spanId, proto.spanId) && SameId(json.traceId, proto.traceId)
    && json.parentSpanId.Some? == proto.parentSpanId.Some?
    && (json.parentSpanId.Some? ==> SameId(json.parentSpanId.value, proto.parentSpanId.value))
    && json.(spanId := proto.spanId, traceId := proto.traceId, parentSpanId := proto.parentSpanId) == proto
  }

  ghost predicate AllAgree(json: seq<Row>, proto: seq<Row>) {
    |json| == |proto| && forall i :: 0 <= i < |json| ==> RowsAgree(json[i], proto[i])
  }

  /** Both forms give rows, and these agree. */
  ghost predicate Matches(json: Option<seq<Row>>, proto: Option<seq<Row>>) {
    json.Some? && proto.Some? && AllAgree(json.value, proto.value)
  }

  lemma IdAgrees(j: Py, camel: string, snake: string, id: Bytes)
    requires j.Dict? && IdJson(j, camel, snake, id)
    ensures var text := JsonStr(JsonField(j, camel, snake));
            SameId(text, Plain(Hex(id))) && (text == Plain("") <==> Hex(id) == "")
  {}

  lemma NanosAgree(j: Py, camel: string, snake: string, nanos: nat)
    requires j.Dict? && NanosJson(j, camel, snake, nanos)
    ensures JsonNanos(j, camel, snake) == Some(nanos)
  {
    ParseIntOfDecimal(nanos);
  }

  lemma StatusAgrees(j: Py, status: Status)
    requires j.Dict? && StatusJson(j, status)
    ensures JsonStatusError(j) == StatusError(status.code, Plain(status.message))
  {}

  lemma NameAgrees(j: Py, name: string)
    requires j.Dict? && TextJson(j, "name", name)
    ensures JsonStr(JsonField(j, "name", "name")) == Plain(name)
  {}

  lemma AttributesParseIff(j: Py, s: Span)
    requires AttributesJson(j, s.attributes)
    ensures JsonAttrs(j).Some? <==> SpanReadable(j, s)
    ensures SpanReadable(j, s) && SpanFaithful(j, s) ==> JsonAttrs(j) == Some(DecodeProtoEntries(s.attributes))
  {
    var items := ListAt(j, "attributes");
    ItemsAtIs(j, "attributes");
    EntriesDecodeIff(items, s.attributes);
    if SpanReadable(j, s) && SpanFaithful(j, s) {
      EntriesAgree(items, s.attributes);
    }
  }

  lemma AttributesAgreeIff(j: Py, s: Span)
    requires AttributesJson(j, s.attributes) && UniqueEntries(s.attributes)
    ensures JsonAttrs(j) == Some(DecodeProtoEntries(s.attributes)) <==> SpanReadable(j, s) && SpanFaithful(j, s)
  {
    var items := ListAt(j, "attributes");
    ItemsAtIs(j, "attributes");
    EntriesAgreeIff(items, s.attributes);
    EntriesDecodeIff(items, s.attributes);
    if Pairwise(EntryReadableAndFaithful, items, s.attributes) {
      assert forall i :: 0 <= i < |items| ==> EntryReadableAndFaithful(items[i], s.attributes[i]);
    }
    if SpanReadable(j, s) && SpanFaithful(j, s) {
      AttributesParseIff(j, s);
    }
  }

  /** All of a JSON span but its attributes. */
  lemma JsonRowIs(j: Py, s: Span)
    requires SpanJson(j, s)
    ensures var span := JsonStr(JsonField(j, "spanId", "span_id"));
            var trace := JsonStr(JsonField(j, "traceId", "trace_id"));
            var parent := JsonStr(JsonField(j, "parentSpanId", "parent_span_id"));
            JsonRow(j) == if JsonAttrs(j).None? then None else Some(
                            RowOf(span, trace, parent, Plain(s.name),
                                  StatusError(s.status.code, Plain(s.status.message)), s.startNanos, s.endNanos,
                                  JsonAttrs(j).value))
  {
    NanosAgree(j, "startTimeUnixNano", "start_time_unix_nano", s.startNanos);
    NanosAgree(j, "endTimeUnixNano", "end_time_unix_nano", s.endNanos);
    StatusAgrees(j, s.status);
    NameAgrees(j, s.name);
  }

  lemma RowOfAgrees(
    span0: Text, span1: Text, trace0: Text, trace1: Text, parent0: Text, parent1: Text,
    name: Text, error: Option<Text>, start: int, end: int, attrs: seq<Entry>)
    requires SameId(span0, span1) && SameId(trace0, trace1) && SameId(parent0, parent1)
    requires parent0 == Plain("") <==> parent1 == Plain("")
    ensures RowsAgree(RowOf(span0, trace0, parent0, name, error, start, end, attrs),
                      RowOf(span1, trace1, parent1, name, error, start, end, attrs))
  {}

  lemma IdsAgree(j: Py, s: Span, span: Text, trace: Text, parent: Text)
    requires j.Dict? && IdJson(j, "spanId", "span_id", s.spanId) && IdJson(j, "traceId", "trace_id", s.traceId)
    requires IdJson(j, "parentSpanId", "parent_span_id", s.parentSpanId)
    requires span == JsonStr(JsonField(j, "spanId", "span_id")) && trace == JsonStr(JsonField(j, "traceId", "trace_id"))
    requires parent == JsonStr(JsonField(j, "parentSpanId", "parent_span_id"))
    ensures SameId(span, Plain(Hex(s.spanId))) && SameId(trace, Plain(Hex(s.traceId)))
    ensures SameId(parent, Plain(Hex(s.parentSpanId))) && (parent == Plain("") <==> Hex(s.parentSpanId) == "")
  {
    IdAgrees(j, "spanId", "span_id", s.spanId);
    IdAgrees(j, "traceId", "trace_id", s.traceId);
    IdAgrees(j, "parentSpanId", "parent_span_id", s.parentSpanId);
  }

  lemma SingleAgrees(
    s: Span, json: Option<Row>, span: Text, trace: Text, parent: Text, error: Option<Text>, attrs: seq<Entry>)
    requires SameId(span, Plain(Hex(s.spanId))) && SameId(trace, Plain(Hex(s.traceId)))
    requires SameId(parent, Plain(Hex(s.parentSpanId))) && (parent == Plain("") <==> Hex(s.parentSpanId) == "")
    requires error == StatusError(s.status.code, Plain(s.status.message)) && attrs == DecodeProtoEntries(s.attributes)
    requires json == Some(RowOf(span, trace, parent, Plain(s.name), error, s.startNanos, s.endNanos, attrs))
    requires s.attributes != []
    ensures Matches(Single(json), Single(ProtoRow(s)))
  {
    RowOfAgrees(span, Plain(Hex(s.spanId)), trace, Plain(Hex(s.traceId)), parent, Plain(Hex(s.parentSpanId)),
                Plain(s.name), error, s.startNanos, s.endNanos, attrs);
  }

  /** No key twice among the attributes of the span, nor anywhere in their values. */
  ghost predicate SpanUnique(s: Span) {
    UniqueEntries(s.attributes)
  }

  /** Nothing about the span is lost or changed on either way. */
  ghost predicate SpanOk(j: Py, s: Span) {
    SpanReadable(j, s) && SpanFaithful(j, s) && s.attributes != []
  }

  lemma OkSpanMatches(j: Py, s: Span)
    requires SpanJson(j, s) && SpanOk(j, s)
    ensures Matches(Single(JsonRow(j)), Single(ProtoRow(s)))
  {
    var span := JsonStr(JsonField(j, "spanId", "span_id"));
    var trace := JsonStr(JsonField(j, "traceId", "trace_id"));
    var parent := JsonStr(JsonField(j, "parentSpanId", "parent_span_id"));
    JsonRowIs(j, s);
    AttributesParseIff(j, s);
    IdsAgree(j, s, span, trace, parent);
    SingleAgrees(s, JsonRow(j), span, trace, parent, StatusError(s.status.code, Plain(s.status.message)),
                 DecodeProtoEntries(s.attributes));
  }

  lemma MatchingSpanIsOk(j: Py, s: Span)
    requires SpanJson(j, s) && UniqueEntries(s.attributes)
    requires Matches(Single(JsonRow(j)), Single(ProtoRow(s)))
    ensures SpanOk(j, s)
  {
    JsonRowIs(j, s);
    AttributesAgreeIff(j, s);
    assert RowsAgree([JsonRow(j).value][0], [ProtoRow(s).value][0]);
    assert JsonRow(j).value.metadata == JsonAttrs(j).value;
  }

  /**
   What one part of the JSON body and its counterpart give: as many rows, agreeing rows when the part is `ok`, and,
   when its keys are unique, only then.
   */
  ghost predicate Related(json: Option<seq<Row>>, proto: Option<seq<Row>>, ok: bool, unique: bool) {
    && (json.Some? && proto.Some? ==> |json.value| == |proto.value|)
    && (ok ==> Matches(json, proto))
    && (unique && Matches(json, proto) ==> ok)
  }

  /**
   A span extracts from JSON iff its attributes are readable, and from protobuf iff it has an attribute. With
   faithful attributes the two rows agree; and, when their keys are unique, only then.
   */
  lemma SpanAgrees(j: Py, s: Span)
    requires SpanJson(j, s)
    ensures JsonRow(j).Some? <==> SpanReadable(j, s)
    ensures ProtoRow(s).Some? <==> s.attributes != []
    ensures Related(Single(JsonRow(j)), Single(ProtoRow(s)), SpanOk(j, s), SpanUnique(s))
  {
    JsonRowIs(j, s);
    AttributesParseIff(j, s);
    if SpanOk(j, s) {
      OkSpanMatches(j, s);
    }
    if UniqueEntries(s.attributes) && Matches(Single(JsonRow(j)), Single(ProtoRow(s))) {
      MatchingSpanIsOk(j, s);
    }
  }

  // ---------------------------------------------------------------- whole bodies

  ghost predicate ScopeJson(j: Py, scope: Scope) {
    Repeated(j, "spans") && Pairwise(SpanJson, ListAt(j, "spans"), scope.spans)
  }

  ghost predicate ScopeReadable(j: Py, scope: Scope) {
    NotNull(j, "spans") && Pairwise(SpanReadable, ListAt(j, "spans"), scope.spans)
  }

  ghost predicate ScopeOk(j: Py, scope: Scope) {
    NotNull(j, "spans") && Pairwise(SpanOk, ListAt(j, "spans"), scope.spans)
  }

  ghost predicate ScopeUnique(scope: Scope) {
    Every(SpanUnique, scope.spans)
  }


  ghost predicate ResourceJson(j: Py, r: Resource) {
    Repeated(j, "scopeSpans") && Pairwise(ScopeJson, ListAt(j, "scopeSpans"), r.scopes)
  }

  ghost predicate ResourceReadable(j: Py, r: Resource) {
    NotNull(j, "scopeSpans") && Pairwise(ScopeReadable, ListAt(j, "scopeSpans"), r.scopes)
  }

  ghost predicate ResourceOk(j: Py, r: Resource) {
    NotNull(j, "scopeSpans") && Pairwise(ScopeOk, ListAt(j, "scopeSpans"), r.scopes)
  }

  ghost predicate ResourceUnique(r: Resource) {
    Every(ScopeUnique, r.scopes)
  }

  ghost predicate BodyJson(j: Py, resources: seq<Resource>) {
    Repeated(j, "resourceSpans") && Pairwise(ResourceJson, ListAt(j, "resourceSpans"), resources)
  }

  /** No null stands where the decoder iterates or takes a value apart, anywhere in the body. */
  ghost predicate BodyReadable(j: Py, resources: seq<Resource>) {
    NotNull(j, "resourceSpans") && Pairwise(ResourceReadable, ListAt(j, "resourceSpans"), resources)
  }

  /** The body is readable, its attributes are faithful, and each span has one. */
  ghost predicate BodyOk(j: Py, resources: seq<Resource>) {
    NotNull(j, "resourceSpans") && Pairwise(ResourceOk, ListAt(j, "resourceSpans"), resources)
  }

  /** No span has one attribute key twice, nor any value in it. */
  ghost predicate BodyUnique(resources: seq<Resource>) {
    Every(ResourceUnique, resources)
  }

  lemma AllAgreeConcat(a: seq<Row>, b: seq<Row>, c: seq<Row>, d: seq<Row>)
    requires |a| == |b|
    ensures AllAgree(a + c, b + d) <==> AllAgree(a, b) && AllAgree(c, d)
  {
    if AllAgree(a + c, b + d) {
      forall i | 0 <= i < |a| ensures RowsAgree(a[i], b[i]) {
        assert RowsAgree((a + c)[i], (b + d)[i]);
      }
      forall i | 0 <= i < |c| ensures RowsAgree(c[i], d[i]) {
        assert RowsAgree((a + c)[|a| + i], (b + d)[|a| + i]);
      }
    }
  }

  lemma RelatedConcat(
    json0: Option<seq<Row>>, proto0: Option<seq<Row>>, ok0: bool, unique0: bool,
    json1: Option<seq<Row>>, proto1: Option<seq<Row>>, ok1: bool, unique1: bool)
    requires Related(json0, proto0, ok0, unique0) && Related(json1, proto1, ok1, unique1)
    ensures Related(Concat(json0, json1), Concat(proto0, proto1), ok0 && ok1, unique0 && unique1)
  {
    if json0.Some? && proto0.Some? && json1.Some? && proto1.Some? {
      AllAgreeConcat(json0.value, proto0.value, json1.value, proto1.value);
    }
  }

  lemma SplitSpans(items: seq<Py>, spans: seq<Span>, n: nat)
    requires |items| == |spans| == n + 1
    ensures SpanRows(JsonNodes(items)) == Concat(SpanRows(JsonNodes(items[..n])), Single(JsonRow(items[n])))
    ensures SpanRows(SpanNodes(spans)) == Concat(SpanRows(SpanNodes(spans[..n])), Single(ProtoRow(spans[n])))
  {
    assert JsonNodes(items)[..n] == JsonNodes(items[..n]) && SpanNodes(spans)[..n] == SpanNodes(spans[..n]);
  }

  lemma {:induction false} SpansAgree(items: seq<Py>, spans: seq<Span>)
    requires Pairwise(SpanJson, items, spans)
    ensures SpanRows(JsonNodes(items)).Some? <==> Pairwise(SpanReadable, items, spans)
    ensures Related(SpanRows(JsonNodes(items)), SpanRows(SpanNodes(spans)),
                    Pairwise(SpanOk, items, spans), Every(SpanUnique, spans))
  {
    if spans != [] {
      var n := |spans| - 1;
      PairwiseLast(SpanJson, items, spans);
      PairwiseLast(SpanReadable, items, spans);
      PairwiseLast(SpanOk, items, spans);
      EveryLast(SpanUnique, spans);
      SpansAgree(items[..n], spans[..n]);
      SpanAgrees(items[n], spans[n]);
      SplitSpans(items, spans, n);
      RelatedConcat(SpanRows(JsonNodes(items[..n])), SpanRows(SpanNodes(spans[..n])),
                    Pairwise(SpanOk, items[..n], spans[..n]), Every(SpanUnique, spans[..n]),
                    Single(JsonRow(items[n])), Single(ProtoRow(spans[n])),
                    SpanOk(items[n], spans[n]), SpanUnique(spans[n]));
    }
  }

  lemma ScopeAgrees(j: Py, scope: Scope)
    requires ScopeJson(j, scope)
    ensures RowsOfScope(JsonNode(j)).Some? <==> ScopeReadable(j, scope)
    ensures Related(RowsOfScope(JsonNode(j)), RowsOfScope(ScopeNode(scope)),
                    ScopeOk(j, scope), ScopeUnique(scope))
  {
    ItemsAtIs(j, "spans");
    SpansAgree(ListAt(j, "spans"), scope.spans);
  }

  lemma SplitScopes(items: seq<Py>, scopes: seq<Scope>, n: nat)
    requires |items| == |scopes| == n + 1
    ensures ScopeRows(JsonNodes(items)) == Concat(ScopeRows(JsonNodes(items[..n])), RowsOfScope(JsonNode(items[n])))
    ensures ScopeRows(ScopeNodes(scopes))
            == Concat(ScopeRows(ScopeNodes(scopes[..n])), RowsOfScope(ScopeNode(scopes[n])))
  {
    assert JsonNodes(items)[..n] == JsonNodes(items[..n]) && ScopeNodes(scopes)[..n] == ScopeNodes(scopes[..n]);
  }

  lemma {:induction false} ScopesAgree(items: seq<Py>, scopes: seq<Scope>)
    requires Pairwise(ScopeJson, items, scopes)
    ensures ScopeRows(JsonNodes(items)).Some? <==> Pairwise(ScopeReadable, items, scopes)
    ensures Related(ScopeRows(JsonNodes(items)), ScopeRows(ScopeNodes(scopes)),
                    Pairwise(ScopeOk, items, scopes), Every(ScopeUnique, scopes))
  {
    if scopes != [] {
      var n := |scopes| - 1;
      PairwiseLast(ScopeJson, items, scopes);
      PairwiseLast(ScopeReadable, items, scopes);
      PairwiseLast(ScopeOk, items, scopes);
      EveryLast(ScopeUnique, scopes);
      ScopesAgree(items[..n], scopes[..n]);
      ScopeAgrees(items[n], scopes[n]);
      SplitScopes(items, scopes, n);
      RelatedConcat(ScopeRows(JsonNodes(items[..n])), ScopeRows(ScopeNodes(scopes[..n])),
                    Pairwise(ScopeOk, items[..n], scopes[..n]), Every(ScopeUnique, scopes[..n]),
                    RowsOfScope(JsonNode(items[n])), RowsOfScope(ScopeNode(scopes[n])),
                    ScopeOk(items[n], scopes[n]), ScopeUnique(scopes[n]));
    }
  }

  lemma ResourceAgrees(j: Py, r: Resource)
    requires ResourceJson(j, r)
    ensures RowsOfResource(JsonNode(j)).Some? <==> ResourceReadable(j, r)
    ensures Related(RowsOfResource(JsonNode(j)), RowsOfResource(ResourceNode(r)),
                    ResourceOk(j, r), ResourceUnique(r))
  {
    ItemsAtIs(j, "scopeSpans");
    ScopesAgree(ListAt(j, "scopeSpans"), r.scopes);
  }

  lemma SplitResources(items: seq<Py>, resources: seq<Resource>, n: nat)
    requires |items| == |resources| == n + 1
    ensures ResourceRows(JsonNodes(items))
            == Concat(ResourceRows(JsonNodes(items[..n])), RowsOfResource(JsonNode(items[n])))
    ensures ParseProto(resources) == Concat(ParseProto(resources[..n]), RowsOfResource(ResourceNode(resources[n])))
  {
    assert JsonNodes(items)[..n] == JsonNodes(items[..n]);
    assert ResourceNodes(resources)[..n] == ResourceNodes(resources[..n]);
  }

  lemma {:induction false} ResourcesAgree(items: seq<Py>, resources: seq<Resource>)
    requires Pairwise(ResourceJson, items, resources)
    ensures ResourceRows(JsonNodes(items)).Some? <==> Pairwise(ResourceReadable, items, resources)
    ensures Related(ResourceRows(JsonNodes(items)), ParseProto(resources),
                    Pairwise(ResourceOk, items, resources), Every(ResourceUnique, resources))
  {
    if resources != [] {
      var n := |resources| - 1;
      PairwiseLast(ResourceJson, items, resources);
      PairwiseLast(ResourceReadable, items, resources);
      PairwiseLast(ResourceOk, items, resources);
      EveryLast(ResourceUnique, resources);
      ResourcesAgree(items[..n], resources[..n]);
      ResourceAgrees(items[n], resources[n]);
      SplitResources(items, resources, n);
      RelatedConcat(ResourceRows(JsonNodes(items[..n])), ParseProto(resources[..n]),
                    Pairwise(ResourceOk, items[..n], resources[..n]), Every(ResourceUnique, resources[..n]),
                    RowsOfResource(JsonNode(items[n])), RowsOfResource(ResourceNode(resources[n])),
                    ResourceOk(items[n], resources[n]), ResourceUnique(resources[n]));
    }
  }

  /** A JSON body that encodes an export parses iff no null stands where the decoder iterates or takes apart. */
  lemma JsonParsesIff(body: Py, resources: seq<Resource>)
    requires BodyJson(body, resources)
    ensures ParseJson(body).Some? <==> BodyReadable(body, resources)
  {
    ItemsAtIs(body, "resourceSpans");
    ResourcesAgree(ListAt(body, "resourceSpans"), resources);
  }

  /**
   Both bodies parse and give the same rows, up to the letter case of ids, when no null is in the way of the one
   decoder, no span without attributes in the way of the other, and all attributes are faithful; and, for exports
   with unique attribute keys, only then.
   */
  lemma EncodingsAgreeIff(body: Py, resources: seq<Resource>)
    requires BodyJson(body, resources)
    ensures BodyOk(body, resources) ==> Matches(ParseJson(body), ParseProto(resources))
    ensures BodyUnique(resources) ==>
              (Matches(ParseJson(body), ParseProto(resources)) <==> BodyOk(body, resources))
  {
    ItemsAtIs(body, "resourceSpans");
    ResourcesAgree(ListAt(body, "resourceSpans"), resources);
  }

  /** `{name: [item]}` */
  function Nest(name: string, item: Py): Py {
    Dict([Entry(Some(name), List([item]))])
  }

  lemma PairwiseOne<A(!new), B(!new)>(p: (A, B) -> bool, x: A, y: B)
    ensures Pairwise(p, [x], [y]) <==> p(x, y)
  {
    if Pairwise(p, [x], [y]) {
      assert p([x][0], [y][0]);
    }
  }

  /** `{"attributes": null}` encodes the span whose fields all have their defaults. */
  const NULL_ATTRIBUTES := Dict([Entry(Some("attributes"), Null)])
  const DEFAULT_SPAN := Span([], [], [], "", 0, 0, [], Status(0, ""))

  lemma NullAttributesLoseSpan()
    ensures SpanJson(NULL_ATTRIBUTES, DEFAULT_SPAN) && !SpanReadable(NULL_ATTRIBUTES, DEFAULT_SPAN)
  {}

  lemma NullAttributesLoseScope()
    ensures var j, scope := Nest("spans", NULL_ATTRIBUTES), Scope([DEFAULT_SPAN]);
            ScopeJson(j, scope) && !ScopeReadable(j, scope)
  {
    NullAttributesLoseSpan();
    assert ListAt(Nest("spans", NULL_ATTRIBUTES), "spans") == [NULL_ATTRIBUTES];
    PairwiseOne(SpanJson, NULL_ATTRIBUTES, DEFAULT_SPAN);
    PairwiseOne(SpanReadable, NULL_ATTRIBUTES, DEFAULT_SPAN);
  }

  lemma NullAttributesLoseResource()
    ensures var j, r := Nest("scopeSpans", Nest("spans", NULL_ATTRIBUTES)), Resource([Scope([DEFAULT_SPAN])]);
            ResourceJson(j, r) && !ResourceReadable(j, r)
  {
    var j, scope := Nest("spans", NULL_ATTRIBUTES), Scope([DEFAULT_SPAN]);
    NullAttributesLoseScope();
    assert ListAt(Nest("scopeSpans", j), "scopeSpans") == [j];
    PairwiseOne(ScopeJson, j, scope);
    PairwiseOne(ScopeReadable, j, scope);
  }

  /** A null in the concrete: one span with `"attributes": null` loses its whole body. */
  lemma NullAttributesLoseBody()
    ensures var body := Nest("resourceSpans", Nest("scopeSpans", Nest("spans", NULL_ATTRIBUTES)));
            BodyJson(body, [Resource([Scope([DEFAULT_SPAN])])]) && ParseJson(body).None?
  {
    var j, r := Nest("scopeSpans", Nest("spans", NULL_ATTRIBUTES)), Resource([Scope([DEFAULT_SPAN])]);
    NullAttributesLoseResource();
    assert ListAt(Nest("resourceSpans", j), "resourceSpans") == [j];
    PairwiseOne(ResourceJson, j, r);
    PairwiseOne(ResourceReadable, j, r);
    JsonParsesIff(Nest("resourceSpans", j), [r]);
  }
}
