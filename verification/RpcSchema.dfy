/** Messages described by a schema, and the code that event_rpcgen.py emits for them, as functions over
    the schema. */
module RpcSchema {
  import opened Basics
  import opened Tagging
  import opened TaggedData

  datatype Kind = Int | Int64 | Fixed(size: nat) | VarBytes | Text | Nested(name: string)

  /** An array is never required; it may be of integers, strings or structures. */
  datatype Mode = Required | Optional | Array

  datatype Entry = Entry(name: string, tag: nat, kind: Kind, mode: Mode)

  type Schema = map<string, seq<Entry>>

  datatype Value = Number(n: nat) | Data(bytes: seq<byte>) | Message(fields: seq<Field>)

  /** A member of a structure: name_set is zero, or there is one value, or those of an array. */
  datatype Field = Unset | One(value: Value) | Many(values: seq<Value>)

  /** No two entries of a structure have the same tag. */
  ghost predicate DistinctTags(entries: seq<Entry>) {
    forall i, j :: 0 <= i < j < |entries| ==> entries[i].tag != entries[j].tag
  }

  ghost predicate EntryOk(schema: Schema, e: Entry) {
    && e.tag < TWO32
    && (e.kind.Nested? ==> e.kind.name in schema)
    && (e.mode == Array ==> !e.kind.Fixed? && !e.kind.VarBytes?)
  }

  ghost predicate StructOk(schema: Schema, entries: seq<Entry>) {
    DistinctTags(entries) && forall e <- entries :: EntryOk(schema, e)
  }

  ghost predicate SchemaOk(schema: Schema) { forall name <- schema :: StructOk(schema, schema[name]) }

  /** A value fits its kind. A string has no zero, and a nested structure is complete. */
  ghost predicate Typed(schema: Schema, kind: Kind, v: Value)
    decreases v, 1, 0
  {
    match kind
    case Int => v.Number? && v.n < TWO32
    case Int64 => v.Number? && v.n < TWO64
    case Fixed(size) => v.Data? && |v.bytes| == size
    case VarBytes => v.Data?
    case Text => v.Data? && 0 !in v.bytes
    case Nested(name) => name in schema && v.Message? && Complete(schema, schema[name], v)
  }

  /** Each required member is set; an array is set just when it has elements. */
  ghost predicate Complete(schema: Schema, entries: seq<Entry>, m: Value)
    requires m.Message?
    decreases m, 0, 0
  {
    |m.fields| == |entries| && forall i :: 0 <= i < |entries| ==> FieldOk(schema, entries[i], m.fields[i])
  }

  ghost predicate FieldOk(schema: Schema, e: Entry, f: Field)
    decreases f, 0, 0
  {
    match f
    case Unset => e.mode != Required
    case One(v) => e.mode != Array && Typed(schema, e.kind, v)
    case Many(vs) => e.mode == Array && vs != [] && forall v <- vs :: Typed(schema, e.kind, v)
  }

  /** CodeMarshal of one value. */
  function MarshalValue(schema: Schema, tag: nat, kind: Kind, v: Value): seq<byte>
    requires Typed(schema, kind, v)
    decreases v, 1, 0
  {
    match kind
    case Int => IntBlock(tag, v.n)
    case Int64 => IntBlock(tag, v.n)
    case Fixed(_) => Block(tag, v.bytes)
    case VarBytes => Block(tag, v.bytes)
    case Text => Block(tag, v.bytes)
    case Nested(name) => Block(tag, MarshalFrom(schema, schema[name], v, 0))
  }

  /** The marshal function of a structure, from its member k on. */
  function MarshalFrom(schema: Schema, entries: seq<Entry>, m: Value, k: nat): seq<byte>
    requires m.Message? && Complete(schema, entries, m) && k <= |entries|
    decreases m, 0, |entries| - k
  {
    if k == |entries| then []
    else
      assert FieldOk(schema, entries[k], m.fields[k]);
      MarshalField(schema, entries[k], m.fields[k]) + MarshalFrom(schema, entries, m, k + 1)
  }

  function MarshalField(schema: Schema, e: Entry, f: Field): seq<byte>
    requires FieldOk(schema, e, f)
    decreases f, 1, 0
  {
    match f
    case Unset => []
    case One(v) => MarshalValue(schema, e.tag, e.kind, v)
    case Many(vs) => MarshalMany(schema, e, f, 0)
  }

  function MarshalMany(schema: Schema, e: Entry, f: Field, j: nat): seq<byte>
    requires FieldOk(schema, e, f) && f.Many? && j <= |f.values|
    decreases f, 0, |f.values| - j
  {
    if j == |f.values| then []
    else MarshalValue(schema, e.tag, e.kind, f.values[j]) + MarshalMany(schema, e, f, j + 1)
  }

  function Blank(n: nat): seq<Field> { seq(n, _ => Unset) }

  /** CodeUnmarshal of one value: the value, and what follows. */
  function ReadValue(schema: Schema, tag: nat, kind: Kind, b: seq<byte>): (r: Option<(Value, seq<byte>)>)
    ensures r.Some? ==> |r.value.1| < |b|
    decreases |b|, 0
  {
    match kind
    case Int => var r := ReadInt(b, tag, 8); if r.None? then None else Some((Number(r.value.0), r.value.1))
    case Int64 => var r := ReadInt(b, tag, 16); if r.None? then None else Some((Number(r.value.0), r.value.1))
    case Fixed(size) => var r := ReadFixed(b, tag, size); if r.None? then None else Some((Data(r.value.0), r.value.1))
    case VarBytes =>
      var l := PayloadLength(b);
      if l.None? || l.value > |b| then None else
        var r := ReadFixed(b, tag, l.value);
        if r.None? then None else Some((Data(r.value.0), r.value.1))
    case Text => var r := ReadString(b, tag); if r.None? then None else Some((Data(r.value.0), r.value.1))
    case Nested(name) =>
      var k := ReadBlock(b);
      if k.None? || k.value.0 != tag || name !in schema then None else
        var m := Unmarshal(schema, schema[name], k.value.1);
        if m.None? then None else Some((m.value, k.value.2))
  }

  /** The place of the entry with this tag, from k on: the switch. */
  function Case(entries: seq<Entry>, tag: nat, k: nat): (r: Option<nat>)
    requires k <= |entries|
    ensures r.Some? ==> k <= r.value < |entries| && entries[r.value].tag == tag
    ensures r.None? ==> forall i :: k <= i < |entries| ==> entries[i].tag != tag
    decreases |entries| - k
  {
    if k == |entries| then None else if entries[k].tag == tag then Some(k) else Case(entries, tag, k + 1)
  }

  /** A member takes one more value: an array any number of times, the others once. */
  function Put(mode: Mode, f: Field, v: Value): Option<Field> {
    match f
    case Unset => Some(if mode == Array then Many([v]) else One(v))
    case One(_) => None
    case Many(vs) => if mode == Array then Some(Many(vs + [v])) else None
  }

  /** The loop of the unmarshal function of a structure. */
  function UnmarshalLoop(schema: Schema, entries: seq<Entry>, state: seq<Field>, b: seq<byte>): (r: Option<seq<Field>>)
    requires |state| == |entries|
    ensures r.Some? ==> |r.value| == |entries|
    decreases |b|, 1
  {
    if b == [] then Some(state) else
      var t := DecodeTag(b, 0);
      if t.None? then None else
        var i := Case(entries, t.value.0, 0);
        if i.None? || (entries[i.value].mode != Array && state[i.value] != Unset) then None else
          var v := ReadValue(schema, t.value.0, entries[i.value].kind, b);
          if v.None? then None else
            var f := Put(entries[i.value].mode, state[i.value], v.value.0);
            if f.None? then None else
              UnmarshalLoop(schema, entries, state[i.value := f.value], v.value.1)
  }

  /** The unmarshal function of a structure, on a new one, with its call of the complete function. */
  function Unmarshal(schema: Schema, entries: seq<Entry>, b: seq<byte>): (r: Option<Value>)
    ensures r.Some? ==> r.value.Message? && |r.value.fields| == |entries|
    decreases |b|, 2
  {
    var r := UnmarshalLoop(schema, entries, Blank(|entries|), b);
    if r.None? || !AllSet(schema, entries, Message(r.value)) then None else Some(Message(r.value))
  }

  /** The complete function: every required member is set, and nested structures are complete. */
  predicate AllSet(schema: Schema, entries: seq<Entry>, m: Value)
    decreases m, 0
  {
    && m.Message? && |m.fields| == |entries|
    && forall i :: 0 <= i < |entries| ==> SetField(schema, entries[i], m.fields[i])
  }

  predicate SetField(schema: Schema, e: Entry, f: Field)
    decreases f, 0
  {
    match f
    case Unset => e.mode != Required
    case One(v) => SetValue(schema, e.kind, v)
    case Many(vs) => forall v <- vs :: SetValue(schema, e.kind, v)
  }

  predicate SetValue(schema: Schema, kind: Kind, v: Value)
    decreases v, 1
  {
    kind.Nested? ==> kind.name in schema && AllSet(schema, schema[kind.name], v)
  }
}
