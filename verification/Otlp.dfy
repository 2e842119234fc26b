/**
 The two OTLP trace decoders. A trace export is a tree of resources, scopes and spans, which a protobuf body is;
 a JSON body is what `json.loads` makes of its text. One extraction walks both.
 */
module Otlp {
  import opened Numerals
  import opened Options

  // ---------------------------------------------------------------- protobuf

  type byte = x: int | 0 <= x < 256

  type Bytes = seq<byte>

  datatype AnyValue =
    | NoValue | StringValue(text: string) | BoolValue(bit: bool) | IntValue(int64: int) | DoubleValue(double: real)
    | ArrayValue(values: seq<AnyValue>) | KvListValue(entries: seq<KeyValue>) | BytesValue(bytes: Bytes)

  datatype KeyValue = KeyValue(key: string, value: AnyValue)

  datatype Status = Status(code: int, message: string)

  /** Unset fields read as their defaults. */
  datatype Span = Span(
    traceId: Bytes, spanId: Bytes, parentSpanId: Bytes, name: string,
    startNanos: nat, endNanos: nat, attributes: seq<KeyValue>, status: Status)

  datatype Scope = Scope(spans: seq<Span>)

  datatype Resource = Resource(scopes: seq<Scope>)

  const STATUS_CODE_ERROR := 2

  // ---------------------------------------------------------------- Python values

  /** What `json.loads` returns, and what attributes decode to; a dictionary keeps insertion order. */
  datatype Py =
    | Null | Bool(bit: bool) | Int(i: int) | Float(r: real) | Str(text: string)
    | List(items: seq<Py>) | Dict(fields: seq<Entry>)

  /** The key of a decoded dictionary may be Python's `None`, here the name `None`. */
  datatype Entry = Entry(name: Option<string>, value: Py)

  /** `str(value)`, kept symbolic for anything that is not a string. */
  datatype Text = Plain(text: string) | Rendered(value: Py)

  function Lookup(fields: seq<Entry>, name: string): (r: Option<Py>)
    ensures r.Some? ==> exists i :: 0 <= i < |fields| && fields[i].value == r.value
  {
    if fields == [] then None
    else if fields[|fields| - 1].name == Some(name) then Some(fields[|fields| - 1].value)
    else Lookup(fields[..|fields| - 1], name)
  }

  /** `d[name] = value`: a known key keeps its place, a new one goes to the end. */
  function Put(fields: seq<Entry>, name: Option<string>, value: Py): seq<Entry> {
    if fields == [] then [Entry(name, value)]
    else if fields[0].name == name then [Entry(name, value)] + fields[1..]
    else [fields[0]] + Put(fields[1..], name, value)
  }

  lemma {:induction false} PutNew(fields: seq<Entry>, name: Option<string>, value: Py)
    requires forall f :: f in fields ==> f.name != name
    ensures Put(fields, name, value) == fields + [Entry(name, value)]
  {
    if fields != [] {
      assert fields[0] in fields && forall f :: f in fields[1..] ==> f in fields;
      PutNew(fields[1..], name, value);
      assert fields == [fields[0]] + fields[1..];
    }
  }

  function StrOf(v: Py): Text {
    if v.Str? then Plain(v.text) else Rendered(v)
  }

  predicate Truthy(v: Py) {
    match v
    case Null => false
    case Bool(b) => b
    case Int(i) => i != 0
    case Float(r) => r != 0.0
    case Str(s) => s != ""
    case List(xs) => xs != []
    case Dict(fs) => fs != []
  }

  function Truncate(r: real): int {
    if r < 0.0 then -((-r).Floor) else r.Floor
  }

  /** `int(value)`; none when it raises. */
  function IntOf(v: Py): Option<int> {
    match v
    case Bool(b) => Some(if b then 1 else 0)
    case Int(i) => Some(i)
    case Float(r) => Some(Truncate(r))
    case Str(s) => ParseInt(s)
    case _ => None
  }

  function IntOrZero(v: Py): int {
    var i := IntOf(v);
    if i.Some? then i.value else 0
  }

  /**
   The objects a `for` loop over `v` hands to code that reads fields of them; none when an exception is raised.
   A non-empty string or dictionary yields strings, which have no fields.
   */
  function Iterate(v: Py): Option<seq<Py>> {
    if v.List? then Some(v.items)
    else if v == Str("") || v == Dict([]) then Some([])
    else None
  }

  /** `v.get(name, [])`, iterated; none when an exception is raised. */
  function ItemsAt(v: Py, name: string): (r: Option<seq<Py>>)
    ensures r.Some? && r.value != [] ==>
            v.Dict? && exists i :: 0 <= i < |v.fields| && v.fields[i].value == List(r.value)
  {
    if !v.Dict? then None
    else
      var at := Lookup(v.fields, name);
      if at.None? then Some([]) else Iterate(at.value)
  }

  // ---------------------------------------------------------------- attribute values

  function Hex(b: Bytes): string {
    if b == [] then "" else [HexDigit(b[0] / 16), HexDigit(b[0] % 16)] + Hex(b[1..])
  }

  function DecodeProto(v: AnyValue): Py
    decreases v
  {
    match v
    case NoValue => Null
    case StringValue(s) => Str(s)
    case BoolValue(b) => Bool(b)
    case IntValue(i) => Int(i)
    case DoubleValue(r) => Float(r)
    case ArrayValue(vs) => List(DecodeProtoItems(vs))
    case KvListValue(es) => Dict(DecodeProtoEntries(es))
    case BytesValue(b) => Str(Hex(b))
  }

  function DecodeProtoItems(values: seq<AnyValue>): seq<Py>
    decreases values
  {
    if values == [] then [] else DecodeProtoItems(values[..|values| - 1]) + [DecodeProto(values[|values| - 1])]
  }

  function DecodeProtoEntries(entries: seq<KeyValue>): seq<Entry>
    decreases entries
  {
    if entries == [] then []
    else
      var e := entries[|entries| - 1];
      Put(DecodeProtoEntries(entries[..|entries| - 1]), Some(e.key), DecodeProto(e.value))
  }

  /** The branches of the JSON decoder in their order; none when an exception is raised. */
  function DecodeJson(v: Py): Option<Py>
    decreases v, 1
  {
    if !v.Dict? then None
    else if Lookup(v.fields, "stringValue").Some? then Lookup(v.fields, "stringValue")
    else if Lookup(v.fields, "boolValue").Some? then Lookup(v.fields, "boolValue")
    else if Lookup(v.fields, "intValue").Some? then Some(Int(IntOrZero(Lookup(v.fields, "intValue").value)))
    else if Lookup(v.fields, "doubleValue").Some? then FloatOf(Lookup(v.fields, "doubleValue").value)
    else if Lookup(v.fields, "arrayValue").Some? then
      var items := ItemsAt(Lookup(v.fields, "arrayValue").value, "values");
      if items.None? then None
      else
        var decoded := if items.value == [] then Some([]) else DecodeJsonItems(items.value);
        if decoded.None? then None else Some(List(decoded.value))
    else if Lookup(v.fields, "kvlistValue").Some? then
      var items := ItemsAt(Lookup(v.fields, "kvlistValue").value, "values");
      if items.None? then None
      else
        var decoded := if items.value == [] then Some([]) else DecodeJsonEntries(items.value);
        if decoded.None? then None else Some(Dict(decoded.value))
    else if Lookup(v.fields, "bytesValue").Some? then
      var at := Lookup(v.fields, "bytesValue").value;
      if at.Str? then Some(at) else if at == Null then Some(Str("None")) else None
    else Some(Null)
  }

  function FloatOf(v: Py): Option<Py> {
    match v
    case Bool(b) => Some(Float(if b then 1.0 else 0.0))
    case Int(i) => Some(Float(i as real))
    case Float(r) => Some(v)
    case _ => None
  }

  function DecodeJsonItems(items: seq<Py>): Option<seq<Py>>
    decreases items, 0
  {
    if items == [] then Some([])
    else
      var before := DecodeJsonItems(items[..|items| - 1]);
      var last := DecodeJson(items[|items| - 1]);
      if before.None? || last.None? then None else Some(before.value + [last.value])
  }

  /** `a.get("key", "")` as a dictionary key. */
  function NameOf(key: Option<Py>): Option<string> {
    if key.None? then Some("") else if key.value.Str? then Some(key.value.text) else None
  }

  function DecodeJsonEntries(items: seq<Py>): Option<seq<Entry>>
    decreases items, 0
  {
    if items == [] then Some([])
    else
      var item := items[|items| - 1];
      var before := DecodeJsonEntries(items[..|items| - 1]);
      if before.None? || !item.Dict? then None
      else
        var key := Lookup(item.fields, "key");
        var at := Lookup(item.fields, "value");
        var value := if at.None? then Some(Null) else DecodeJson(at.value);
        if value.None? || (key.Some? && !key.value.Str? && key.value != Null) then None
        else Some(Put(before.value, NameOf(key), value.value))
  }

  // ---------------------------------------------------------------- attributes to columns

  const PROVIDER_ATTRIBUTES := ["gen_ai.provider.name", "gen_ai.system"]
  const MODEL_ATTRIBUTES := ["gen_ai.response.model", "gen_ai.request.model"]
  const INPUT_TOKEN_ATTRIBUTES := ["gen_ai.usage.input_tokens", "gen_ai.usage.prompt_tokens"]
  const OUTPUT_TOKEN_ATTRIBUTES := ["gen_ai.usage.output_tokens", "gen_ai.usage.completion_tokens"]

  /** The first named attribute that is neither absent, null nor the empty string. */
  function AttrStr(attrs: seq<Entry>, names: seq<string>, default: string): Text {
    if names == [] then Plain(default)
    else
      var at := Lookup(attrs, names[0]);
      if at.None? || at.value == Null || at.value == Str("") then AttrStr(attrs, names[1..], default)
      else StrOf(at.value)
  }

  /** The first named attribute that is present, 0 when it is no number. */
  function AttrInt(attrs: seq<Entry>, names: seq<string>): int {
    if names == [] then 0
    else
      var at := Lookup(attrs, names[0]);
      if at.None? then AttrInt(attrs, names[1..]) else IntOrZero(at.value)
  }

  predicate IsBlank(attrs: seq<Entry>, name: string) {
    var at := Lookup(attrs, name);
    at.None? || at.value == Null || at.value == Str("")
  }

  /** A text column comes from the first name with a value; blank attributes are passed over. */
  lemma {:induction false} AttrStrIs(attrs: seq<Entry>, names: seq<string>, default: string)
    ensures (forall n :: n in names ==> IsBlank(attrs, n)) ==> AttrStr(attrs, names, default) == Plain(default)
    ensures forall k :: 0 <= k < |names| && !IsBlank(attrs, names[k])
                        && (forall j :: 0 <= j < k ==> IsBlank(attrs, names[j])) ==>
              AttrStr(attrs, names, default) == StrOf(Lookup(attrs, names[k]).value)
  {
    if names != [] {
      AttrStrIs(attrs, names[1..], default);
      assert names[0] in names && forall n :: n in names[1..] ==> n in names;
      forall k | 0 <= k < |names| && !IsBlank(attrs, names[k]) && (forall j :: 0 <= j < k ==> IsBlank(attrs, names[j]))
        ensures AttrStr(attrs, names, default) == StrOf(Lookup(attrs, names[k]).value)
      {
        if k > 0 {
          assert names[1..][k - 1] == names[k] && IsBlank(attrs, names[0]);
        }
      }
    }
  }

  /** A token column comes from the first name that is present, even when its value is no number and counts as 0. */
  lemma {:induction false} AttrIntIs(attrs: seq<Entry>, names: seq<string>)
    ensures (forall n :: n in names ==> Lookup(attrs, n).None?) ==> AttrInt(attrs, names) == 0
    ensures forall k :: 0 <= k < |names| && Lookup(attrs, names[k]).Some?
                        && (forall j :: 0 <= j < k ==> Lookup(attrs, names[j]).None?) ==>
              AttrInt(attrs, names) == IntOrZero(Lookup(attrs, names[k]).value)
  {
    if names != [] {
      AttrIntIs(attrs, names[1..]);
      assert names[0] in names && forall n :: n in names[1..] ==> n in names;
      forall k | 0 <= k < |names| && Lookup(attrs, names[k]).Some?
          && (forall j :: 0 <= j < k ==> Lookup(attrs, names[j]).None?)
        ensures AttrInt(attrs, names) == IntOrZero(Lookup(attrs, names[k]).value)
      {
        if k > 0 {
          assert names[1..][k - 1] == names[k] && Lookup(attrs, names[0]).None?;
        }
      }
    }
  }

  function StripText(t: Text): Text {
    if t.Plain? then Plain(Strip(t.text)) else t
  }

  function StatusError(code: int, message: Text): Option<Text> {
    if code != STATUS_CODE_ERROR then None
    else if StripText(message) == Plain("") then Some(Plain("OTLP span status ERROR"))
    else Some(StripText(message))
  }

  // ---------------------------------------------------------------- one span

  /** The extracted span; `started_at` is kept in nanoseconds, and latency is the exact quotient. */
  datatype Row = Row(
    spanId: Text, traceId: Text, parentSpanId: Option<Text>, name: Text, provider: Text, model: Text,
    inputTokens: int, outputTokens: int, error: Option<Text>, latencyMs: real, startedNanos: int, metadata: seq<Entry>)

  function RowOf(
    spanId: Text, traceId: Text, parent: Text, name: Text, error: Option<Text>,
    start: int, end: int, attrs: seq<Entry>): Row
  {
    Row(spanId, traceId, if parent == Plain("") then None else Some(parent), name,
        AttrStr(attrs, PROVIDER_ATTRIBUTES, "custom"), AttrStr(attrs, MODEL_ATTRIBUTES, "unknown"),
        AttrInt(attrs, INPUT_TOKEN_ATTRIBUTES), AttrInt(attrs, OUTPUT_TOKEN_ATTRIBUTES),
        error, (end - start) as real / 1_000_000.0, start, attrs)
  }

  /** An empty attribute list is falsy, so the code goes on to `span.get`, which a protobuf message does not have. */
  function ProtoRow(s: Span): Option<Row> {
    if s.attributes == [] then None
    else
      Some(RowOf(Plain(Hex(s.spanId)), Plain(Hex(s.traceId)), Plain(Hex(s.parentSpanId)), Plain(s.name),
                 StatusError(s.status.code, Plain(s.status.message)), s.startNanos, s.endNanos,
                 DecodeProtoEntries(s.attributes)))
  }

  /** The camel-case field, else the field under its snake-case name, else `None`. */
  function JsonField(v: Py, camel: string, snake: string): Py {
    if !v.Dict? then Null
    else if Lookup(v.fields, camel).Some? then Lookup(v.fields, camel).value
    else if Lookup(v.fields, snake).Some? then Lookup(v.fields, snake).value
    else Null
  }

  function JsonStr(v: Py): Text {
    if v == Null then Plain("") else StrOf(v)
  }

  function JsonStatusError(v: Py): Option<Text> {
    var status := JsonField(v, "status", "status");
    if status == Null then None
    else StatusError(IntOrZero(JsonField(status, "code", "code")), JsonStr(JsonField(status, "message", "message")))
  }

  /** `int(field or 0)` */
  function JsonNanos(v: Py, camel: string, snake: string): Option<int> {
    var at := JsonField(v, camel, snake);
    if Truthy(at) then IntOf(at) else Some(0)
  }

  function JsonAttrs(v: Py): Option<seq<Entry>> {
    var items := ItemsAt(v, "attributes");
    if items.None? then None else DecodeJsonEntries(items.value)
  }

  function JsonRow(v: Py): Option<Row> {
    var attrs := JsonAttrs(v);
    var start := JsonNanos(v, "startTimeUnixNano", "start_time_unix_nano");
    var end := JsonNanos(v, "endTimeUnixNano", "end_time_unix_nano");
    if attrs.None? || start.None? || end.None? then None
    else
      Some(RowOf(JsonStr(JsonField(v, "spanId", "span_id")), JsonStr(JsonField(v, "traceId", "trace_id")),
                 JsonStr(JsonField(v, "parentSpanId", "parent_span_id")), JsonStr(JsonField(v, "name", "name")),
                 JsonStatusError(v), start.value, end.value, attrs.value))
  }

  // ---------------------------------------------------------------- what a row says of its span

  ghost predicate UniqueNames(fields: seq<Entry>) {
    forall i, j :: 0 <= i < j < |fields| ==> fields[i].name != fields[j].name
  }

  lemma {:induction false} LookupFinds(fields: seq<Entry>, name: string)
    ensures Lookup(fields, name).None? <==> forall i :: 0 <= i < |fields| ==> fields[i].name != Some(name)
    ensures UniqueNames(fields) ==>
              forall i :: 0 <= i < |fields| && fields[i].name == Some(name) ==>
                Lookup(fields, name) == Some(fields[i].value)
  {
    if fields != [] {
      LookupFinds(fields[..|fields| - 1], name);
    }
  }

  /** Storing under a name changes what is stored there and nothing else. */
  lemma {:induction false} PutKeepsOthers(fields: seq<Entry>, name: Option<string>, value: Py)
    requires UniqueNames(fields)
    ensures var after := Put(fields, name, value);
            && UniqueNames(after) && Entry(name, value) in after
            && (forall f :: f in after && f.name != name ==> f in fields)
            && (forall f :: f in fields && f.name != name ==> f in after)
  {
    if fields != [] && fields[0].name != name {
      var rest := fields[1..];
      assert fields == [fields[0]] + rest;
      PutKeepsOthers(rest, name, value);
      var after := Put(rest, name, value);
      forall j | 0 <= j < |after| ensures after[j].name != fields[0].name {
        assert after[j] in after;
      }
    } else if fields != [] {
      forall f | f in fields && f.name != name ensures f in fields[1..] {}
    }
  }

  lemma LookupAfterPut(fields: seq<Entry>, key: string, value: Py, name: string)
    requires UniqueNames(fields)
    ensures Lookup(Put(fields, Some(key), value), name) == if name == key then Some(value) else Lookup(fields, name)
  {
    var after := Put(fields, Some(key), value);
    PutKeepsOthers(fields, Some(key), value);
    LookupFinds(fields, name);
    LookupFinds(after, name);
    if name == key {
      assert Entry(Some(key), value) in after;
    } else if Lookup(after, name).Some? {
      var i :| 0 <= i < |after| && after[i].name == Some(name);
      assert after[i] in after && after[i] in fields;
    }
  }

  lemma {:induction false} DecodedNamesAreUnique(es: seq<KeyValue>)
    ensures UniqueNames(DecodeProtoEntries(es))
  {
    if es != [] {
      var e := es[|es| - 1];
      DecodedNamesAreUnique(es[..|es| - 1]);
      PutKeepsOthers(DecodeProtoEntries(es[..|es| - 1]), Some(e.key), DecodeProto(e.value));
    }
  }

  lemma AttributeStep(es: seq<KeyValue>, name: string)
    requires es != []
    ensures var e := es[|es| - 1];
            Lookup(DecodeProtoEntries(es), name)
            == if name == e.key then Some(DecodeProto(e.value)) else Lookup(DecodeProtoEntries(es[..|es| - 1]), name)
  {
    var e := es[|es| - 1];
    DecodedNamesAreUnique(es[..|es| - 1]);
    LookupAfterPut(DecodeProtoEntries(es[..|es| - 1]), e.key, DecodeProto(e.value), name);
  }

  /** An attribute is the last one with its key. */
  lemma {:induction false} LastAttributeCounts(es: seq<KeyValue>, i: nat)
    requires i < |es| && forall j :: i < j < |es| ==> es[j].key != es[i].key
    ensures Lookup(DecodeProtoEntries(es), es[i].key) == Some(DecodeProto(es[i].value))
  {
    AttributeStep(es, es[i].key);
    if i < |es| - 1 {
      LastAttributeCounts(es[..|es| - 1], i);
    }
  }

  lemma {:induction false} NoSuchAttribute(es: seq<KeyValue>, name: string)
    requires forall i :: 0 <= i < |es| ==> es[i].key != name
    ensures Lookup(DecodeProtoEntries(es), name) == None
  {
    if es != [] {
      AttributeStep(es, name);
      NoSuchAttribute(es[..|es| - 1], name);
    }
  }

  /** Two lower-case hexadecimal digits for each byte, the high one first. */
  lemma {:induction false} HexIs(b: Bytes, i: nat)
    requires i < |b|
    ensures |Hex(b)| == 2 * |b|
    ensures Hex(b)[2 * i] == "0123456789abcdef"[b[i] / 16] && Hex(b)[2 * i + 1] == "0123456789abcdef"[b[i] % 16]
  {
    var rest := b[1..];
    if i > 0 {
      HexIs(rest, i - 1);
      assert Hex(b)[2 * i] == Hex(rest)[2 * (i - 1)] && Hex(b)[2 * i + 1] == Hex(rest)[2 * (i - 1) + 1];
    } else if rest != [] {
      HexIs(rest, 0);
    }
  }

  predicate Has(attrs: seq<Entry>, name: string) {
    Lookup(attrs, name).Some?
  }

  /** A text column: the first attribute, else the second, else the default; blank ones are passed over. */
  predicate TextColumn(t: Text, attrs: seq<Entry>, first: string, second: string, default: string) {
    && (!IsBlank(attrs, first) ==> t == StrOf(Lookup(attrs, first).value))
    && (IsBlank(attrs, first) && !IsBlank(attrs, second) ==> t == StrOf(Lookup(attrs, second).value))
    && (IsBlank(attrs, first) && IsBlank(attrs, second) ==> t == Plain(default))
  }

  /** A token column: the first attribute, else the second, else 0; one that is no number counts as 0. */
  predicate CountColumn(n: int, attrs: seq<Entry>, first: string, second: string) {
    && (Has(attrs, first) ==> n == IntOrZero(Lookup(attrs, first).value))
    && (!Has(attrs, first) && Has(attrs, second) ==> n == IntOrZero(Lookup(attrs, second).value))
    && (!Has(attrs, first) && !Has(attrs, second) ==> n == 0)
  }

  /** The columns that come from attributes, by the names of the attributes. */
  predicate AttributeColumns(r: Row, attrs: seq<Entry>) {
    && r.metadata == attrs
    && TextColumn(r.provider, attrs, "gen_ai.provider.name", "gen_ai.system", "custom")
    && TextColumn(r.model, attrs, "gen_ai.response.model", "gen_ai.request.model", "unknown")
    && CountColumn(r.inputTokens, attrs, "gen_ai.usage.input_tokens", "gen_ai.usage.prompt_tokens")
    && CountColumn(r.outputTokens, attrs, "gen_ai.usage.output_tokens", "gen_ai.usage.completion_tokens")
  }

  /** What an integer column makes of a value: numbers are truncated, text is read, anything else is 0. */
  lemma IntOrZeroIs(v: Py)
    ensures v.Int? ==> IntOrZero(v) == v.i
    ensures v.Bool? ==> IntOrZero(v) == if v.bit then 1 else 0
    ensures v.Float? ==> var i := IntOrZero(v) as real;
                         if v.r >= 0.0 then 0.0 <= i <= v.r < i + 1.0 else i - 1.0 < v.r <= i <= 0.0
    ensures forall i :: v == Str(DecimalOf(i)) ==> IntOrZero(v) == i
    ensures v.Null? || v.List? || v.Dict? ==> IntOrZero(v) == 0
  {
    forall i | v == Str(DecimalOf(i)) ensures IntOrZero(v) == i {
      ParseIntOfDecimal(i);
    }
  }

  /** A span fails iff its status code is 2; the error is the status message, or a fixed text when that is blank. */
  lemma StatusErrorIs(code: int, message: string)
    ensures StatusError(code, Plain(message)).Some? <==> code == 2
    ensures code == 2 && Strip(message) == "" ==>
              StatusError(code, Plain(message)) == Some(Plain("OTLP span status ERROR"))
    ensures code == 2 && Strip(message) != "" ==> StatusError(code, Plain(message)) == Some(Plain(Strip(message)))
  {}

  predicate SpansTime(r: Row, start: int, end: int) {
    r.startedNanos == start && r.latencyMs * 1_000_000.0 == (end - start) as real
  }

  lemma AttributeColumnsAre(
    spanId: Text, traceId: Text, parent: Text, name: Text, error: Option<Text>,
    start: int, end: int, attrs: seq<Entry>)
    ensures var r := RowOf(spanId, traceId, parent, name, error, start, end, attrs);
            AttributeColumns(r, attrs) && SpansTime(r, start, end)
  {
    AttrStrIs(attrs, PROVIDER_ATTRIBUTES, "custom");
    AttrStrIs(attrs, MODEL_ATTRIBUTES, "unknown");
    AttrIntIs(attrs, INPUT_TOKEN_ATTRIBUTES);
    AttrIntIs(attrs, OUTPUT_TOKEN_ATTRIBUTES);
  }

  /** Every column of the row of a protobuf span, from the fields of the span and the names of its attributes. */
  lemma ProtoColumnsAre(s: Span)
    requires s.attributes != []
    ensures ProtoRow(s).Some?
    ensures var r := ProtoRow(s).value;
            && r.spanId == Plain(Hex(s.spanId)) && r.traceId == Plain(Hex(s.traceId)) && r.name == Plain(s.name)
            && r.parentSpanId == (if s.parentSpanId == [] then None else Some(Plain(Hex(s.parentSpanId))))
            && r.error == StatusError(s.status.code, Plain(s.status.message))
            && SpansTime(r, s.startNanos, s.endNanos)
            && AttributeColumns(r, DecodeProtoEntries(s.attributes))
  {
    AttributeColumnsAre(
      Plain(Hex(s.spanId)), Plain(Hex(s.traceId)), Plain(Hex(s.parentSpanId)), Plain(s.name),
      StatusError(s.status.code, Plain(s.status.message)), s.startNanos, s.endNanos, DecodeProtoEntries(s.attributes));
    if s.parentSpanId != [] {
      HexIs(s.parentSpanId, 0);
    }
  }

  /** The value of a field: under its camel-case name if that is present, even as null, else under the other. */
  predicate FieldIs(value: Py, fields: seq<Entry>, camel: string, snake: string) {
    && (Has(fields, camel) ==> Lookup(fields, camel) == Some(value))
    && (!Has(fields, camel) && Has(fields, snake) ==> Lookup(fields, snake) == Some(value))
    && (!Has(fields, camel) && !Has(fields, snake) ==> value == Null)
  }

  predicate IsTextOf(t: Text, value: Py) {
    && (value == Null ==> t == Plain(""))
    && (value.Str? ==> t == Plain(value.text))
    && (value != Null && !value.Str? ==> t == Rendered(value))
  }

  predicate TextField(t: Text, fields: seq<Entry>, camel: string, snake: string) {
    var value := JsonField(Dict(fields), camel, snake);
    FieldIs(value, fields, camel, snake) && IsTextOf(t, value)
  }

  predicate NanosField(n: int, fields: seq<Entry>, camel: string, snake: string) {
    var value := JsonField(Dict(fields), camel, snake);
    && FieldIs(value, fields, camel, snake)
    && (value == Null || value == Str("") ==> n == 0)
    && (value.Int? ==> n == value.i)
    && (value.Str? && value != Str("") ==> ParseInt(value.text) == Some(n))
  }

  /** The columns of the row of a JSON span that are text, by the names of their fields. */
  lemma JsonTextsAre(fields: seq<Entry>)
    requires JsonRow(Dict(fields)).Some?
    ensures var r := JsonRow(Dict(fields)).value;
            && TextField(r.spanId, fields, "spanId", "span_id")
            && TextField(r.traceId, fields, "traceId", "trace_id")
            && TextField(r.name, fields, "name", "name")
            && r.parentSpanId != Some(Plain(""))
            && TextField(if r.parentSpanId.Some? then r.parentSpanId.value else Plain(""),
                         fields, "parentSpanId", "parent_span_id")
  {}

  /** The times of a JSON span, by the names of their fields. */
  lemma JsonTimesAre(fields: seq<Entry>)
    requires JsonRow(Dict(fields)).Some?
    ensures var r := JsonRow(Dict(fields)).value;
            && NanosField(r.startedNanos, fields, "startTimeUnixNano", "start_time_unix_nano")
            && exists end :: NanosField(end, fields, "endTimeUnixNano", "end_time_unix_nano")
                             && SpansTime(r, r.startedNanos, end)
  {
    var end := JsonNanos(Dict(fields), "endTimeUnixNano", "end_time_unix_nano").value;
    assert NanosField(end, fields, "endTimeUnixNano", "end_time_unix_nano");
  }

  /** The columns of a JSON span that come from its attributes, an absent list being an empty one. */
  lemma JsonAttributesAre(fields: seq<Entry>)
    requires JsonRow(Dict(fields)).Some?
    ensures var r := JsonRow(Dict(fields)).value;
            && AttributeColumns(r, r.metadata)
            && (!Has(fields, "attributes") ==> r.metadata == [])
            && forall items :: Lookup(fields, "attributes") == Some(List(items)) ==>
                 DecodeJsonEntries(items) == Some(r.metadata)
  {
    var v := Dict(fields);
    var r := JsonRow(v).value;
    AttributeColumnsAre(
      r.spanId, r.traceId, JsonStr(JsonField(v, "parentSpanId", "parent_span_id")), r.name, r.error,
      r.startedNanos, JsonNanos(v, "endTimeUnixNano", "end_time_unix_nano").value, r.metadata);
  }

  /** The error of a JSON span: its status is null or absent, or is an object with a code and a message. */
  lemma JsonErrorIs(fields: seq<Entry>)
    requires JsonRow(Dict(fields)).Some?
    ensures var r := JsonRow(Dict(fields)).value;
            && (!Has(fields, "status") || Lookup(fields, "status") == Some(Null) ==> r.error == None)
            && forall status, code, message ::
                 Lookup(fields, "status") == Some(Dict(status)) && FieldIs(code, status, "code", "code")
                 && FieldIs(Str(message), status, "message", "message") ==>
                   r.error == StatusError(IntOrZero(code), Plain(message))
  {}

  // ---------------------------------------------------------------- the whole body

  /** What the extraction loops over: decoded JSON or a protobuf message. */
  datatype Node = JsonNode(json: Py) | ResourceNode(resource: Resource) | ScopeNode(scope: Scope) | SpanNode(span: Span)

  function JsonNodes(items: seq<Py>): seq<Node> {
    seq(|items|, i requires 0 <= i < |items| => JsonNode(items[i]))
  }

  function SpanNodes(spans: seq<Span>): seq<Node> {
    seq(|spans|, i requires 0 <= i < |spans| => SpanNode(spans[i]))
  }

  function ScopeNodes(scopes: seq<Scope>): seq<Node> {
    seq(|scopes|, i requires 0 <= i < |scopes| => ScopeNode(scopes[i]))
  }

  function ResourceNodes(resources: seq<Resource>): seq<Node> {
    seq(|resources|, i requires 0 <= i < |resources| => ResourceNode(resources[i]))
  }

  function JsonNodesAt(v: Py, name: string): Option<seq<Node>> {
    var items := ItemsAt(v, name);
    if items.None? then None else Some(JsonNodes(items.value))
  }

  function ScopesOf(n: Node): Option<seq<Node>> {
    match n
    case JsonNode(v) => JsonNodesAt(v, "scopeSpans")
    case ResourceNode(r) => Some(ScopeNodes(r.scopes))
    case _ => None
  }

  function SpansOf(n: Node): Option<seq<Node>> {
    match n
    case JsonNode(v) => JsonNodesAt(v, "spans")
    case ScopeNode(s) => Some(SpanNodes(s.spans))
    case _ => None
  }

  function NodeRow(n: Node): Option<Row> {
    match n
    case JsonNode(v) => JsonRow(v)
    case SpanNode(s) => ProtoRow(s)
    case _ => None
  }

  function Concat(a: Option<seq<Row>>, b: Option<seq<Row>>): Option<seq<Row>> {
    if a.None? || b.None? then None else Some(a.value + b.value)
  }

  function Single(r: Option<Row>): Option<seq<Row>> {
    if r.None? then None else Some([r.value])
  }

  /** Every span's row in order, or none as soon as one raises. */
  function SpanRows(spans: seq<Node>): Option<seq<Row>> {
    if spans == [] then Some([]) else Concat(SpanRows(spans[..|spans| - 1]), Single(NodeRow(spans[|spans| - 1])))
  }

  function RowsOfScope(scope: Node): Option<seq<Row>> {
    var spans := SpansOf(scope);
    if spans.None? then None else SpanRows(spans.value)
  }

  function ScopeRows(scopes: seq<Node>): Option<seq<Row>> {
    if scopes == [] then Some([])
    else
      Concat(ScopeRows(scopes[..|scopes| - 1]), RowsOfScope(scopes[|scopes| - 1]))
  }

  function RowsOfResource(resource: Node): Option<seq<Row>> {
    var scopes := ScopesOf(resource);
    if scopes.None? then None else ScopeRows(scopes.value)
  }

  function ResourceRows(resources: seq<Node>): Option<seq<Row>> {
    if resources == [] then Some([])
    else
      Concat(ResourceRows(resources[..|resources| - 1]), RowsOfResource(resources[|resources| - 1]))
  }

  function ParseProto(resources: seq<Resource>): Option<seq<Row>> {
    ResourceRows(ResourceNodes(resources))
  }

  function ParseJson(body: Py): Option<seq<Row>> {
    var items := JsonNodesAt(body, "resourceSpans");
    if items.None? then None else ResourceRows(items.value)
  }

  method ExtractSpans(resources: seq<Node>) returns (rows: Option<seq<Row>>)
    ensures rows == ResourceRows(resources)
  {
    var spans := [];
    for i := 0 to |resources|
      invariant ResourceRows(resources[..i]) == Some(spans)
    {
      assert resources[..i + 1][..i] == resources[..i];
      var extended := AppendResource(resources[i], spans);
      if extended.None? {
        PrefixFails(resources, i + 1);
        return None;
      }
      spans := extended.value;
    }
    assert resources[..|resources|] == resources;
    return Some(spans);
  }

  lemma Associative(a: seq<Row>, b: seq<Row>, c: seq<Row>)
    ensures (a + b) + c == a + (b + c)
  {}

  lemma LastScope(scopes: seq<Node>, j: nat)
    requires j < |scopes|
    ensures ScopeRows(scopes[..j + 1]) == Concat(ScopeRows(scopes[..j]), RowsOfScope(scopes[j]))
  {
    assert scopes[..j + 1][..j] == scopes[..j];
  }

  /** The middle loop. */
  method AppendResource(resource: Node, spans: seq<Row>) returns (rows: Option<seq<Row>>)
    ensures rows == Concat(Some(spans), RowsOfResource(resource))
  {
    var nodes := ScopesOf(resource);
    if nodes.None? {
      return None;
    }
    var scopes, all := nodes.value, spans;
    ghost var done: seq<Row> := [];
    for j := 0 to |scopes|
      invariant ScopeRows(scopes[..j]) == Some(done) && all == spans + done
    {
      LastScope(scopes, j);
      var extended := AppendScope(scopes[j], all);
      if extended.None? {
        ScopePrefixFails(scopes, j + 1);
        return None;
      }
      ghost var more := RowsOfScope(scopes[j]).value;
      Associative(spans, done, more);
      all := extended.value;
      done := done + more;
    }
    assert scopes[..|scopes|] == scopes;
    return Some(all);
  }

  lemma LastSpan(nodes: seq<Node>, k: nat)
    requires k < |nodes|
    ensures SpanRows(nodes[..k + 1]) == Concat(SpanRows(nodes[..k]), Single(NodeRow(nodes[k])))
  {
    assert nodes[..k + 1][..k] == nodes[..k];
  }

  lemma NextSpan(nodes: seq<Node>, k: nat, done: seq<Row>, row: Option<Row>)
    requires k < |nodes| && SpanRows(nodes[..k]) == Some(done) && row == NodeRow(nodes[k])
    ensures SpanRows(nodes[..k + 1]) == if row.None? then None else Some(done + [row.value])
  {
    LastSpan(nodes, k);
  }

  /** The innermost loop. */
  method AppendScope(scope: Node, spans: seq<Row>) returns (rows: Option<seq<Row>>)
    ensures rows == Concat(Some(spans), RowsOfScope(scope))
  {
    var nodes := SpansOf(scope);
    if nodes.None? {
      return None;
    }
    var group, all := nodes.value, spans;
    ghost var done: seq<Row> := [];
    for k := 0 to |group|
      invariant SpanRows(group[..k]) == Some(done) && all == spans + done
    {
      var row := NodeRow(group[k]);
      NextSpan(group, k, done, row);
      if row.None? {
        SpanPrefixFails(group, k + 1);
        return None;
      }
      Associative(spans, done, [row.value]);
      all := all + [row.value];
      done := done + [row.value];
    }
    assert group[..|group|] == group;
    return Some(all);
  }

  lemma {:induction false} SpanPrefixFails(nodes: seq<Node>, n: nat)
    requires n <= |nodes| && SpanRows(nodes[..n]).None?
    ensures SpanRows(nodes).None?
  {
    if n < |nodes| {
      assert nodes[..|nodes| - 1][..n] == nodes[..n];
      SpanPrefixFails(nodes[..|nodes| - 1], n);
    } else {
      assert nodes[..n] == nodes;
    }
  }

  lemma {:induction false} ScopePrefixFails(nodes: seq<Node>, n: nat)
    requires n <= |nodes| && ScopeRows(nodes[..n]).None?
    ensures ScopeRows(nodes).None?
  {
    if n < |nodes| {
      assert nodes[..|nodes| - 1][..n] == nodes[..n];
      ScopePrefixFails(nodes[..|nodes| - 1], n);
    } else {
      assert nodes[..n] == nodes;
    }
  }

  lemma {:induction false} PrefixFails(nodes: seq<Node>, n: nat)
    requires n <= |nodes| && ResourceRows(nodes[..n]).None?
    ensures ResourceRows(nodes).None?
  {
    if n < |nodes| {
      assert nodes[..|nodes| - 1][..n] == nodes[..n];
      PrefixFails(nodes[..|nodes| - 1], n);
    } else {
      assert nodes[..n] == nodes;
    }
  }

  // ---------------------------------------------------------------- protobuf bodies that parse

  predicate HasAttributes(spans: seq<Span>) {
    forall s :: s in spans ==> s.attributes != []
  }

  predicate ScopesHaveAttributes(scopes: seq<Scope>) {
    forall s :: s in scopes ==> HasAttributes(s.spans)
  }

  predicate EverySpanHasAttributes(resources: seq<Resource>) {
    forall r :: r in resources ==> ScopesHaveAttributes(r.scopes)
  }

  lemma {:induction false} SpansParseIff(spans: seq<Span>)
    ensures SpanRows(SpanNodes(spans)).Some? <==> HasAttributes(spans)
  {
    if spans != [] {
      var init, last := spans[..|spans| - 1], spans[|spans| - 1];
      assert spans == init + [last];
      assert SpanNodes(spans)[..|spans| - 1] == SpanNodes(init);
      SpansParseIff(init);
    }
  }

  lemma {:induction false} ScopesParseIff(scopes: seq<Scope>)
    ensures ScopeRows(ScopeNodes(scopes)).Some? <==> ScopesHaveAttributes(scopes)
  {
    if scopes != [] {
      var init, last := scopes[..|scopes| - 1], scopes[|scopes| - 1];
      assert scopes == init + [last];
      assert ScopeNodes(scopes)[..|scopes| - 1] == ScopeNodes(init);
      ScopesParseIff(init);
      SpansParseIff(last.spans);
    }
  }

  /** A protobuf body parses iff each of its spans has an attribute; one span without loses the whole body. */
  lemma {:induction false} ProtoParsesIff(resources: seq<Resource>)
    ensures ParseProto(resources).Some? <==> EverySpanHasAttributes(resources)
  {
    if resources != [] {
      var init, last := resources[..|resources| - 1], resources[|resources| - 1];
      assert resources == init + [last];
      assert ResourceNodes(resources)[..|resources| - 1] == ResourceNodes(init);
      ProtoParsesIff(init);
      ScopesParseIff(last.scopes);
    }
  }
}
