/** The structures of event_rpcgen.py, and the code that it emits for them, over an evbuffer. */
module RpcCode {
  import opened Basics
  import opened TaggedData
  import opened RpcSchema
  import opened RpcRoundTrip

  /** class Struct: the entries, and the names by tag. */
  class Struct {
    var entries: seq<Entry>
    var tags: map<nat, string>

    ghost predicate Valid()
      reads this
    {
      && DistinctTags(entries)
      && (forall i :: 0 <= i < |entries| ==> entries[i].tag in tags && tags[entries[i].tag] == entries[i].name)
      && (forall t <- tags :: exists i :: 0 <= i < |entries| && entries[i].tag == t)
    }

    constructor ()
      ensures Valid() && entries == []
    {
      entries, tags := [], map[];
    }

    /** AddEntry: an error, and nothing else, when the tag is in use. */
    method AddEntry(e: Entry) returns (ok: bool)
      requires Valid()
      modifies this
      ensures Valid()
      ensures ok <==> forall i :: 0 <= i < |old(entries)| ==> old(entries)[i].tag != e.tag
      ensures entries == if ok then old(entries) + [e] else old(entries)
    {
      if e.tag in tags {
        return false;
      }
      forall i | 0 <= i < |entries| ensures entries[i].tag != e.tag {
        assert entries[i].tag in tags;
      }
      entries := entries + [e];
      tags := tags[e.tag := e.name];
      forall t | t in tags ensures exists i :: 0 <= i < |entries| && entries[i].tag == t {
        if t == e.tag {
          assert entries[|entries| - 1].tag == t;
        } else {
          var i :| 0 <= i < |old(entries)| && old(entries)[i].tag == t;
          assert entries[i].tag == t;
        }
      }
      return true;
    }
  }

  /** The marshal function of a structure. */
  method Marshal(s: Stream, schema: Schema, entries: seq<Entry>, m: Value)
    requires SchemaOk(schema) && StructOk(schema, entries) && m.Message? && Complete(schema, entries, m)
    requires SmallFields(schema, entries, m)
    modifies s
    ensures s.bytes == old(s.bytes) + MarshalFrom(schema, entries, m, 0)
    decreases m, 0, 0
  {
    for k := 0 to |entries|
      invariant s.bytes + MarshalFrom(schema, entries, m, k) == old(s.bytes) + MarshalFrom(schema, entries, m, 0)
    {
      ghost var before := s.bytes;
      MarshalEntry(s, schema, entries, m, k);
      assert s.bytes + MarshalFrom(schema, entries, m, k + 1) == before + MarshalFrom(schema, entries, m, k);
    }
  }

  /** The code for one entry: nothing for a member that is not set. */
  method MarshalEntry(s: Stream, schema: Schema, entries: seq<Entry>, m: Value, k: nat)
    requires SchemaOk(schema) && StructOk(schema, entries) && m.Message? && Complete(schema, entries, m)
    requires SmallFields(schema, entries, m) && k < |entries|
    modifies s
    ensures FieldOk(schema, entries[k], m.fields[k])
    ensures s.bytes == old(s.bytes) + MarshalField(schema, entries[k], m.fields[k])
    decreases m.fields[k], 1, 0
  {
    var e, f := entries[k], m.fields[k];
    assert FieldOk(schema, e, f) && EntryOk(schema, e) && SmallField(schema, e, f);
    match f {
      case Unset =>
      case One(v) => MarshalOne(s, schema, e.tag, e.kind, v);
      case Many(vs) => MarshalAll(s, schema, e, f);
    }
  }

  lemma {:induction false} ElementOk(schema: Schema, e: Entry, f: Field, j: nat)
    requires FieldOk(schema, e, f) && f.Many? && j < |f.values| && SmallField(schema, e, f)
    ensures Typed(schema, e.kind, f.values[j]) && Small(schema, e.kind, f.values[j])
    ensures MarshalMany(schema, e, f, j) ==
              MarshalValue(schema, e.tag, e.kind, f.values[j]) + MarshalMany(schema, e, f, j + 1)
  {
    assert f.values[j] in f.values;
  }

  method MarshalAll(s: Stream, schema: Schema, e: Entry, f: Field)
    requires SchemaOk(schema) && FieldOk(schema, e, f) && f.Many? && EntryOk(schema, e) && SmallField(schema, e, f)
    modifies s
    ensures s.bytes == old(s.bytes) + MarshalMany(schema, e, f, 0)
    decreases f, 0, 1
  {
    ManyEnds(schema, e, f);
    hide MarshalMany;
    for j := 0 to |f.values|
      invariant s.bytes + MarshalMany(schema, e, f, j) == old(s.bytes) + MarshalMany(schema, e, f, 0)
    {
      MarshalElement(s, schema, e, f, j);
    }
    assert s.bytes + [] == s.bytes;
  }

  lemma ManyEnds(schema: Schema, e: Entry, f: Field)
    requires FieldOk(schema, e, f) && f.Many?
    ensures MarshalMany(schema, e, f, |f.values|) == []
  {
  }

  method MarshalElement(s: Stream, schema: Schema, e: Entry, f: Field, j: nat)
    requires SchemaOk(schema) && FieldOk(schema, e, f) && f.Many? && EntryOk(schema, e) && SmallField(schema, e, f)
    requires j < |f.values|
    modifies s
    ensures s.bytes + MarshalMany(schema, e, f, j + 1) == old(s.bytes) + MarshalMany(schema, e, f, j)
    decreases f, 0, 0
  {
    ghost var before, rest := s.bytes, MarshalMany(schema, e, f, j + 1);
    ElementOk(schema, e, f, j);
    hide MarshalMany, MarshalValue, FieldOk, Typed, Small, SmallField, SchemaOk;
    MarshalOne(s, schema, e.tag, e.kind, f.values[j]);
    Regrouped(before, MarshalValue(schema, e.tag, e.kind, f.values[j]), rest);
  }

  lemma Regrouped(a: seq<byte>, b: seq<byte>, c: seq<byte>)
    ensures a + b + c == a + (b + c)
  {
  }

  method MarshalOne(s: Stream, schema: Schema, tag: nat, kind: Kind, v: Value)
    requires SchemaOk(schema) && Typed(schema, kind, v) && Small(schema, kind, v) && tag < TWO32
    modifies s
    ensures s.bytes == old(s.bytes) + MarshalValue(schema, tag, kind, v)
    decreases v, 1, 0
  {
    match kind {
      case Int => s.MarshalInt(tag, v.n, false);
      case Int64 => s.MarshalInt(tag, v.n, true);
      case Fixed(_) => s.Marshal(tag, v.bytes);
      case VarBytes => s.Marshal(tag, v.bytes);
      case Text => s.Marshal(tag, v.bytes);
      case Nested(name) =>
        assert StructOk(schema, schema[name]);
        var buf := new Stream();
        Marshal(buf, schema, schema[name], v);
        s.Marshal(tag, buf.bytes);
    }
  }

  /** The unmarshal function of a structure. */
  method UnmarshalMessage(s: Stream, schema: Schema, entries: seq<Entry>) returns (r: Option<Value>)
    modifies s
    ensures r == RpcSchema.Unmarshal(schema, entries, old(s.bytes))
    ensures r.Some? ==> s.bytes == []
    decreases |s.bytes|, 2
  {
    var fields := Blank(|entries|);
    ghost var all := UnmarshalLoop(schema, entries, fields, s.bytes);
    while |s.bytes| > 0
      invariant |fields| == |entries| && |s.bytes| <= |old(s.bytes)|
      invariant UnmarshalLoop(schema, entries, fields, s.bytes) == all
      decreases |s.bytes|
    {
      var tag := s.Peek();
      if tag.None? {
        return None;
      }
      var i := Case(entries, tag.value, 0);
      if i.None? {
        return None;
      }
      var e := entries[i.value];
      if e.mode != Array && fields[i.value] != Unset {
        return None;
      }
      var v := UnmarshalOne(s, schema, e.tag, e.kind);
      if v.None? {
        return None;
      }
      var f := Put(e.mode, fields[i.value], v.value);
      if f.None? {
        return None;
      }
      fields := fields[i.value := f.value];
    }
    if !AllSet(schema, entries, Message(fields)) {
      return None;
    }
    return Some(Message(fields));
  }

  method UnmarshalOne(s: Stream, schema: Schema, tag: nat, kind: Kind) returns (r: Option<Value>)
    modifies s
    ensures
      var k := ReadValue(schema, tag, kind, old(s.bytes));
      if k.None? then r.None? else r == Some(k.value.0) && s.bytes == k.value.1
    decreases |s.bytes|, 0
  {
    match kind {
      case Int =>
        var n := s.UnmarshalInt(tag, false);
        return if n.None? then None else Some(Number(n.value));
      case Int64 =>
        var n := s.UnmarshalInt(tag, true);
        return if n.None? then None else Some(Number(n.value));
      case Fixed(size) =>
        var d := s.UnmarshalFixed(tag, size);
        return if d.None? then None else Some(Data(d.value));
      case VarBytes =>
        var l := s.GetPayloadLength();
        if l.None? || l.value > |s.bytes| {
          return None;
        }
        var d := s.UnmarshalFixed(tag, l.value);
        return if d.None? then None else Some(Data(d.value));
      case Text =>
        var d := s.UnmarshalString(tag);
        return if d.None? then None else Some(Data(d.value));
      case Nested(name) =>
        r := UnmarshalNested(s, schema, tag, name);
    }
  }

  /** evtag_unmarshal_ and the name of the structure. */
  method UnmarshalNested(s: Stream, schema: Schema, tag: nat, name: string) returns (r: Option<Value>)
    modifies s
    ensures
      var k := ReadValue(schema, tag, Nested(name), old(s.bytes));
      if k.None? then r.None? else r == Some(k.value.0) && s.bytes == k.value.1
    decreases |s.bytes|, 0, 0
  {
    var k := s.Unmarshal();
    if k.None? || k.value.0 != tag || name !in schema {
      return None;
    }
    var tmp := new Stream();
    tmp.Add(k.value.1);
    assert tmp.bytes == k.value.1;
    r := UnmarshalMessage(tmp, schema, schema[name]);
  }

  /** A message that is written to an evbuffer is read from it whole. */
  method RoundTrip(schema: Schema, entries: seq<Entry>, m: Value) returns (r: Option<Value>)
    requires SchemaOk(schema) && StructOk(schema, entries) && m.Message? && Complete(schema, entries, m)
    requires SmallFields(schema, entries, m)
    ensures r == Some(m)
  {
    var s := new Stream();
    Marshal(s, schema, entries, m);
    assert s.bytes == MarshalFrom(schema, entries, m, 0);
    UnmarshalBack(schema, entries, m);
    r := UnmarshalMessage(s, schema, entries);
  }
}
