/** What the emitted code writes for a complete message, it reads back as the same message. */
module RpcRoundTrip {
  import opened Basics
  import opened Tagging
  import opened TaggedData
  import opened RpcSchema

  /** No payload is longer than the lengths of the wire format can say. */
  ghost predicate Small(schema: Schema, kind: Kind, v: Value)
    requires Typed(schema, kind, v)
    decreases v, 1
  {
    match kind
    case Int => true
    case Int64 => true
    case Fixed(_) => |v.bytes| <= INT_MAX
    case VarBytes => |v.bytes| <= INT_MAX
    case Text => |v.bytes| <= INT_MAX
    case Nested(name) =>
      && |MarshalFrom(schema, schema[name], v, 0)| <= INT_MAX
      && SmallFields(schema, schema[name], v)
  }

  ghost predicate SmallFields(schema: Schema, entries: seq<Entry>, m: Value)
    requires m.Message? && Complete(schema, entries, m)
    decreases m, 0
  {
    forall k :: 0 <= k < |entries| ==>
      assert FieldOk(schema, entries[k], m.fields[k]);
      SmallField(schema, entries[k], m.fields[k])
  }

  ghost predicate SmallField(schema: Schema, e: Entry, f: Field)
    requires FieldOk(schema, e, f)
    decreases f, 0
  {
    match f
    case Unset => true
    case One(v) => Small(schema, e.kind, v)
    case Many(vs) => forall v <- vs :: Small(schema, e.kind, v)
  }

  /** A value that is written begins with its tag. */
  lemma {:induction false} ValueTag(schema: Schema, tag: nat, kind: Kind, v: Value, rest: seq<byte>)
    requires Typed(schema, kind, v) && tag < TWO32
    ensures
      var b := MarshalValue(schema, tag, kind, v) + rest;
      b != [] && DecodeTag(b, 0) == Some((tag, |TagBytes(tag)|))
  {
    var data := match kind
      case Int => IntBytes(v.n)
      case Int64 => IntBytes(v.n)
      case Fixed(_) => v.bytes
      case VarBytes => v.bytes
      case Text => v.bytes
      case Nested(name) => MarshalFrom(schema, schema[name], v, 0);
    assert MarshalValue(schema, tag, kind, v) == Block(tag, data);
    assert Block(tag, data) + rest == TagBytes(tag) + (IntBytes(|data|) + data + rest);
    TagFirst(tag, IntBytes(|data|) + data + rest);
  }

  lemma {:induction false} ValueBack(schema: Schema, tag: nat, kind: Kind, v: Value, rest: seq<byte>)
    requires SchemaOk(schema) && Typed(schema, kind, v) && Small(schema, kind, v) && tag < TWO32
    ensures ReadValue(schema, tag, kind, MarshalValue(schema, tag, kind, v) + rest) == Some((v, rest))
    decreases v, 1, 0, 0, 0
  {
    match kind
    case Int =>
      Count32(v.n);
      IntBlockBack(tag, v.n, 8, rest);
    case Int64 =>
      Powers();
      CountUp(v.n, 16);
      IntBlockBack(tag, v.n, 16, rest);
    case Fixed(_) => BlockBack(tag, v.bytes, rest);
    case VarBytes => BlockBack(tag, v.bytes, rest);
    case Text =>
      CStringWhole(v.bytes);
      BlockBack(tag, v.bytes, rest);
    case Nested(name) =>
      BlockBack(tag, MarshalFrom(schema, schema[name], v, 0), rest);
      assert StructOk(schema, schema[name]);
      UnmarshalBack(schema, schema[name], v);
  }

  /** The members once the first k have been read. */
  function Upto(m: Value, k: nat): seq<Field>
    requires m.Message? && k <= |m.fields|
  {
    m.fields[..k] + Blank(|m.fields| - k)
  }

  lemma {:induction false} LoopBack(schema: Schema, entries: seq<Entry>, m: Value, k: nat)
    requires SchemaOk(schema) && StructOk(schema, entries) && m.Message? && Complete(schema, entries, m)
    requires SmallFields(schema, entries, m) && k <= |entries|
    ensures UnmarshalLoop(schema, entries, Upto(m, k), MarshalFrom(schema, entries, m, k)) == Some(m.fields)
    decreases m, 0, |entries| - k, 1, 0
  {
    if k == |entries| {
      assert Upto(m, k) == m.fields;
    } else {
      var e, f := entries[k], m.fields[k];
      var rest := MarshalFrom(schema, entries, m, k + 1);
      assert FieldOk(schema, e, f) && EntryOk(schema, e);
      match f
      case Unset =>
        assert Upto(m, k + 1) == Upto(m, k);
        assert [] + rest == rest;
        LoopBack(schema, entries, m, k + 1);
      case One(v) =>
        OneStep(schema, entries, m, k, v);
        LoopBack(schema, entries, m, k + 1);
      case Many(vs) =>
        assert Upto(m, k) == ManyUpto(m, k, 0);
        ManyBack(schema, entries, m, k, 0);
    }
  }

  /** The place of a tag is that of its entry. */
  lemma {:induction false} CaseFinds(entries: seq<Entry>, k: nat, from: nat)
    requires DistinctTags(entries) && from <= k < |entries|
    ensures Case(entries, entries[k].tag, from) == Some(k)
    decreases k - from
  {
    if from < k {
      CaseFinds(entries, k, from + 1);
    }
  }

  /** One turn of the loop reads one value, and puts it into the member that has its tag. */
  lemma {:induction false} LoopTurn(
    schema: Schema, entries: seq<Entry>, state: seq<Field>, k: nat, v: Value, f: Field, b: seq<byte>, rest: seq<byte>)
    requires DistinctTags(entries) && |state| == |entries| && k < |entries|
    requires b != [] && DecodeTag(b, 0).Some? && DecodeTag(b, 0).value.0 == entries[k].tag
    requires ReadValue(schema, entries[k].tag, entries[k].kind, b) == Some((v, rest))
    requires (entries[k].mode != Array ==> state[k] == Unset) && Put(entries[k].mode, state[k], v) == Some(f)
    ensures UnmarshalLoop(schema, entries, state, b) == UnmarshalLoop(schema, entries, state[k := f], rest)
  {
    CaseFinds(entries, k, 0);
  }

  /** One turn of the loop, for a member with one value. */
  lemma {:induction false} OneStep(schema: Schema, entries: seq<Entry>, m: Value, k: nat, v: Value)
    requires SchemaOk(schema) && StructOk(schema, entries) && m.Message? && Complete(schema, entries, m)
    requires SmallFields(schema, entries, m) && k < |entries| && m.fields[k] == One(v)
    ensures
      UnmarshalLoop(schema, entries, Upto(m, k), MarshalFrom(schema, entries, m, k)) ==
      UnmarshalLoop(schema, entries, Upto(m, k + 1), MarshalFrom(schema, entries, m, k + 1))
    decreases m, 0, |entries| - k, 0, 0
  {
    HeadOne(schema, entries, m, k, v);
    UptoNext(m, k);
    hide DecodeTag, UnmarshalLoop, ReadValue, MarshalValue, MarshalFrom, MarshalField, Complete, SmallFields, Upto,
         TagBytes;
    var e, b, rest := entries[k], MarshalFrom(schema, entries, m, k), MarshalFrom(schema, entries, m, k + 1);
    ValueTag(schema, e.tag, e.kind, v, rest);
    ValueBack(schema, e.tag, e.kind, v, rest);
    LoopTurn(schema, entries, Upto(m, k), k, v, One(v), b, rest);
  }

  lemma {:induction false} HeadOne(schema: Schema, entries: seq<Entry>, m: Value, k: nat, v: Value)
    requires StructOk(schema, entries) && m.Message? && Complete(schema, entries, m)
    requires SmallFields(schema, entries, m) && k < |entries| && m.fields[k] == One(v)
    ensures entries[k].tag < TWO32 && entries[k].mode != Array
    ensures Typed(schema, entries[k].kind, v) && Small(schema, entries[k].kind, v)
    ensures
      MarshalFrom(schema, entries, m, k) ==
      MarshalValue(schema, entries[k].tag, entries[k].kind, v) + MarshalFrom(schema, entries, m, k + 1)
  {
    var e := entries[k];
    assert FieldOk(schema, e, m.fields[k]) && EntryOk(schema, e);
    assert SmallField(schema, e, m.fields[k]);
  }

  lemma {:induction false} UptoNext(m: Value, k: nat)
    requires m.Message? && k < |m.fields|
    ensures |Upto(m, k)| == |m.fields| && Upto(m, k)[k] == Unset && Upto(m, k)[k := m.fields[k]] == Upto(m, k + 1)
  {
  }

  /** The members once the first k, and j elements of the next, have been read. */
  function ManyUpto(m: Value, k: nat, j: nat): seq<Field>
    requires m.Message? && k < |m.fields| && m.fields[k].Many? && j <= |m.fields[k].values|
  {
    Upto(m, k)[k := if j == 0 then Unset else Many(m.fields[k].values[..j])]
  }

  lemma {:induction false} ManyBack(schema: Schema, entries: seq<Entry>, m: Value, k: nat, j: nat)
    requires SchemaOk(schema) && StructOk(schema, entries) && m.Message? && Complete(schema, entries, m)
    requires SmallFields(schema, entries, m) && k < |entries| && m.fields[k].Many? && j <= |m.fields[k].values|
    requires FieldOk(schema, entries[k], m.fields[k])
    ensures
      UnmarshalLoop(schema, entries, ManyUpto(m, k, j),
                    MarshalMany(schema, entries[k], m.fields[k], j) + MarshalFrom(schema, entries, m,
                                                                                  k + 1)) == Some(m.fields)
    decreases m, 0, |entries| - k, 0, 2 * (|m.fields[k].values| - j) + 1
  {
    var e, f, rest := entries[k], m.fields[k], MarshalFrom(schema, entries, m, k + 1);
    if j == |f.values| {
      assert f.values[..j] == f.values;
      assert ManyUpto(m, k, j) == Upto(m, k + 1);
      assert [] + rest == rest;
      LoopBack(schema, entries, m, k + 1);
    } else {
      ManyStep(schema, entries, m, k, j);
      ManyBack(schema, entries, m, k, j + 1);
    }
  }

  lemma {:induction false} ManyStep(schema: Schema, entries: seq<Entry>, m: Value, k: nat, j: nat)
    requires SchemaOk(schema) && StructOk(schema, entries) && m.Message? && Complete(schema, entries, m)
    requires SmallFields(schema, entries, m) && k < |entries| && m.fields[k].Many? && j < |m.fields[k].values|
    requires FieldOk(schema, entries[k], m.fields[k])
    ensures
      var e, f, rest := entries[k], m.fields[k], MarshalFrom(schema, entries, m, k + 1);
      UnmarshalLoop(schema, entries, ManyUpto(m, k, j), MarshalMany(schema, e, f, j) + rest) ==
      UnmarshalLoop(schema, entries, ManyUpto(m, k, j + 1), MarshalMany(schema, e, f, j + 1) + rest)
    decreases m, 0, |entries| - k, 0, 2 * (|m.fields[k].values| - j)
  {
    var e, f, rest := entries[k], m.fields[k], MarshalFrom(schema, entries, m, k + 1);
    HeadMany(schema, entries, m, k, j);
    ManyNext(m, k, j);
    hide DecodeTag, UnmarshalLoop, ReadValue, MarshalValue, MarshalMany, MarshalFrom, Complete, SmallFields, Upto,
         ManyUpto, TagBytes;
    var v, b, tail := f.values[j], MarshalMany(schema, e, f, j) + rest, MarshalMany(schema, e, f, j + 1) + rest;
    ValueTag(schema, e.tag, e.kind, v, tail);
    ValueBack(schema, e.tag, e.kind, v, tail);
    LoopTurn(schema, entries, ManyUpto(m, k, j), k, v, Many(f.values[..j + 1]), b, tail);
  }

  lemma {:induction false} HeadMany(schema: Schema, entries: seq<Entry>, m: Value, k: nat, j: nat)
    requires StructOk(schema, entries) && m.Message? && Complete(schema, entries, m)
    requires SmallFields(schema, entries, m) && k < |entries| && m.fields[k].Many? && j < |m.fields[k].values|
    requires FieldOk(schema, entries[k], m.fields[k])
    ensures entries[k].tag < TWO32 && entries[k].mode == Array
    ensures Typed(schema, entries[k].kind, m.fields[k].values[j]) &&
            Small(schema, entries[k].kind, m.fields[k].values[j])
    ensures
      var e, f, rest := entries[k], m.fields[k], MarshalFrom(schema, entries, m, k + 1);
      MarshalMany(schema, e, f, j) + rest ==
      MarshalValue(schema, e.tag, e.kind, f.values[j]) + (MarshalMany(schema, e, f, j + 1) + rest)
  {
    assert EntryOk(schema, entries[k]) && SmallField(schema, entries[k], m.fields[k]);
    assert m.fields[k].values[j] in m.fields[k].values;
  }

  lemma {:induction false} ManyNext(m: Value, k: nat, j: nat)
    requires m.Message? && k < |m.fields| && m.fields[k].Many? && j < |m.fields[k].values|
    ensures |ManyUpto(m, k, j)| == |m.fields|
    ensures Put(Array, ManyUpto(m, k, j)[k], m.fields[k].values[j]) == Some(Many(m.fields[k].values[..j + 1]))
    ensures ManyUpto(m, k, j)[k := Many(m.fields[k].values[..j + 1])] == ManyUpto(m, k, j + 1)
  {
    var vs := m.fields[k].values;
    assert vs[..j + 1] == vs[..j] + [vs[j]];
    if j == 0 {
      assert vs[..1] == [vs[0]];
    }
  }

  /** A complete message passes the complete function. */
  lemma {:induction false} CompleteSet(schema: Schema, entries: seq<Entry>, m: Value)
    requires m.Message? && Complete(schema, entries, m)
    ensures AllSet(schema, entries, m)
    decreases m, 0
  {
    forall i | 0 <= i < |entries| ensures SetField(schema, entries[i], m.fields[i]) {
      assert FieldOk(schema, entries[i], m.fields[i]);
      CompleteField(schema, entries[i], m.fields[i]);
    }
  }

  lemma {:induction false} CompleteField(schema: Schema, e: Entry, f: Field)
    requires FieldOk(schema, e, f)
    ensures SetField(schema, e, f)
    decreases f, 0
  {
    match f
    case Unset =>
    case One(v) => CompleteValue(schema, e.kind, v);
    case Many(vs) =>
      forall v | v in vs ensures SetValue(schema, e.kind, v) {
        CompleteValue(schema, e.kind, v);
      }
  }

  lemma {:induction false} CompleteValue(schema: Schema, kind: Kind, v: Value)
    requires Typed(schema, kind, v)
    ensures SetValue(schema, kind, v)
    decreases v, 1
  {
    if kind.Nested? {
      CompleteSet(schema, schema[kind.name], v);
    }
  }

  /** The round trip: all bytes are read, and the message is the same. */
  lemma {:induction false} UnmarshalBack(schema: Schema, entries: seq<Entry>, m: Value)
    requires SchemaOk(schema) && StructOk(schema, entries) && m.Message? && Complete(schema, entries, m)
    requires SmallFields(schema, entries, m)
    ensures Unmarshal(schema, entries, MarshalFrom(schema, entries, m, 0)) == Some(m)
    decreases m, 0, |entries| + 1, 0, 0
  {
    assert Upto(m, 0) == Blank(|entries|);
    LoopBack(schema, entries, m, 0);
    CompleteSet(schema, entries, m);
  }

  /** Two values for a member that is no array are refused, whatever stands in front of them or follows. */
  lemma {:induction false} TwiceRefused(schema: Schema, entries: seq<Entry>, state: seq<Field>, k: nat, v: Value,
                                        w: Value, rest: seq<byte>)
    requires SchemaOk(schema) && StructOk(schema, entries) && |state| == |entries| && k < |entries|
    requires entries[k].mode != Array
    requires Typed(schema, entries[k].kind, v) && Small(schema, entries[k].kind, v)
    requires Typed(schema, entries[k].kind, w)
    ensures
      var tag, kind := entries[k].tag, entries[k].kind;
      UnmarshalLoop(schema, entries, state,
                    MarshalValue(schema, tag, kind, v) + MarshalValue(schema, tag, kind, w) + rest)
      == None
  {
    var tag, kind := entries[k].tag, entries[k].kind;
    assert EntryOk(schema, entries[k]);
    var first, second := MarshalValue(schema, tag, kind, v), MarshalValue(schema, tag, kind, w);
    assert first + second + rest == first + (second + rest);
    ValueTag(schema, tag, kind, v, second + rest);
    CaseFinds(entries, k, 0);
    if state[k] == Unset {
      ValueBack(schema, tag, kind, v, second + rest);
      LoopTurn(schema, entries, state, k, v, One(v), first + (second + rest), second + rest);
      ValueTag(schema, tag, kind, w, rest);
    }
  }

  /** A value with a tag that no member has is refused. */
  lemma {:induction false} UnknownRefused(schema: Schema, entries: seq<Entry>, state: seq<Field>, tag: nat,
                                          data: seq<byte>, rest: seq<byte>)
    requires |state| == |entries| && tag < TWO32 && forall i | 0 <= i < |entries| :: entries[i].tag != tag
    ensures UnmarshalLoop(schema, entries, state, Block(tag, data) + rest) == None
  {
    var tail := IntBytes(|data|) + data + rest;
    assert Block(tag, data) + rest == TagBytes(tag) + tail;
    TagFirst(tag, tail);
  }

  /** What has been read stays: a member that is no array is set at most once. */
  lemma {:induction false} ReadStays(schema: Schema, entries: seq<Entry>, state: seq<Field>, b: seq<byte>, k: nat)
    requires |state| == |entries| && k < |entries| && state[k] != Unset
    requires UnmarshalLoop(schema, entries, state, b).Some?
    ensures var f := UnmarshalLoop(schema, entries, state, b).value[k];
      if entries[k].mode == Array && state[k].Many? then f.Many? && state[k].values <= f.values else f == state[k]
    decreases |b|
  {
    if b != [] {
      var t := DecodeTag(b, 0).value.0;
      var i := Case(entries, t, 0).value;
      var v := ReadValue(schema, t, entries[i].kind, b).value;
      var f := Put(entries[i].mode, state[i], v.0).value;
      ReadStays(schema, entries, state[i := f], v.1, k);
    }
  }

  lemma {:induction false} DecodeBound(b: seq<byte>, most: nat)
    requires DecodeInt(b, most).Some?
    ensures DecodeInt(b, most).value.0 < Power16(most)
  {
    var nibbles := b[0] / 16 + 1;
    DigitsBound(b, 1, nibbles);
    Power16Grows(nibbles, most);
  }

  lemma {:induction false} CStringNoZero(b: seq<byte>)
    ensures 0 !in CString(b)
    decreases |b|
  {
    if b != [] && b[0] != 0 {
      CStringNoZero(b[1..]);
    }
  }

  lemma {:induction false} IntTyped(b: seq<byte>, tag: nat, most: nat)
    requires ReadInt(b, tag, most).Some?
    ensures ReadInt(b, tag, most).value.0 < Power16(most)
  {
    var rest := b[DecodeTag(b, 0).value.1..];
    DecodeBound(rest[DecodeInt(rest, 8).value.1..], most);
  }

  /** What is read fits its kind, whatever the bytes. */
  lemma {:induction false} ReadTyped(schema: Schema, tag: nat, kind: Kind, b: seq<byte>)
    requires ReadValue(schema, tag, kind, b).Some?
    ensures Typed(schema, kind, ReadValue(schema, tag, kind, b).value.0)
    decreases |b|, 0
  {
    Powers();
    match kind
    case Int => IntTyped(b, tag, 8);
    case Int64 => IntTyped(b, tag, 16);
    case Fixed(_) =>
    case VarBytes =>
    case Text => CStringNoZero(ReadBlock(b).value.1);
    case Nested(name) => UnmarshalTyped(schema, schema[name], ReadBlock(b).value.1);
  }

  ghost predicate StateOk(schema: Schema, entries: seq<Entry>, state: seq<Field>) {
    |state| == |entries| && forall i :: 0 <= i < |entries| ==> HeldOk(schema, entries[i], state[i])
  }

  ghost predicate HeldOk(schema: Schema, e: Entry, f: Field) { f == Unset || FieldOk(schema, e, f) }

  lemma {:induction false} LoopTyped(schema: Schema, entries: seq<Entry>, state: seq<Field>, b: seq<byte>)
    requires StateOk(schema, entries, state) && UnmarshalLoop(schema, entries, state, b).Some?
    ensures StateOk(schema, entries, UnmarshalLoop(schema, entries, state, b).value)
    decreases |b|, 1
  {
    if b != [] {
      var tag := DecodeTag(b, 0).value.0;
      var i := Case(entries, tag, 0).value;
      var (v, rest) := ReadValue(schema, tag, entries[i].kind, b).value;
      ReadTyped(schema, tag, entries[i].kind, b);
      var f := Put(entries[i].mode, state[i], v).value;
      assert HeldOk(schema, entries[i], state[i]);
      assert FieldOk(schema, entries[i], f);
      LoopTyped(schema, entries, state[i := f], rest);
    }
  }

  /** What the unmarshal function accepts is a complete message, whatever the bytes. */
  lemma {:induction false} UnmarshalTyped(schema: Schema, entries: seq<Entry>, b: seq<byte>)
    requires Unmarshal(schema, entries, b).Some?
    ensures Complete(schema, entries, Unmarshal(schema, entries, b).value)
    decreases |b|, 2
  {
    var m := Unmarshal(schema, entries, b).value;
    LoopTyped(schema, entries, Blank(|entries|), b);
    forall i | 0 <= i < |entries| ensures FieldOk(schema, entries[i], m.fields[i]) {
      assert HeldOk(schema, entries[i], m.fields[i]) && SetField(schema, entries[i], m.fields[i]);
    }
  }
}
