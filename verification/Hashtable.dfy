/** The hash table: open addressing with double hashing, where a slot that has been emptied keeps a mark
    so that the probes for other keys go on. */
module Hashtable {
  import opened Basics
  import opened Primes

  datatype Status = Empty | Used | Removed

  /** A key, with what GetHashCode gives for it: 32 bits. */
  datatype Key = Key(id: nat, code: nat)

  /** The increment of ToIndex, between one and the number of slots less one. */
  function Increment(key: Key, count: nat): (d: nat)
    requires count >= 2
    ensures 0 < d && (count > 2 ==> d < count)
  {
    1 + (key.code % 0x8000_0000 / 32 + 1) % (count - 1)
  }

  function Start(key: Key, count: nat): (c: nat)
    requires count >= 2
    ensures c < count
  {
    key.code % 0x8000_0000 % count
  }

  /** The slot of probe i for a key. */
  function Path(key: Key, count: nat, i: nat): (s: nat)
    requires count >= 2
    ensures s < count
  {
    Probe(Start(key, count), Increment(key, count), count, i)
  }

  lemma PathStarts(key: Key, count: nat)
    requires count >= 2
    ensures Path(key, count, 0) == Start(key, count)
  {
  }

  lemma PathNext(key: Key, count: nat, i: nat)
    requires count >= 2
    ensures Path(key, count, i + 1) == (Path(key, count, i) + Increment(key, count)) % count
  {
  }

  class Table {
    var status: array<Status>
    var keys: array<Key>
    var values: array<int>
    /** What the table holds, the slot of each key, and the probe on which each slot was found. */
    ghost var contents: map<Key, int>
    ghost var slots: map<Key, nat>
    ghost var depth: seq<nat>

    ghost predicate Shape()
      reads this
    {
      && status.Length == keys.Length == values.Length == |depth| && status.Length != 1
      && status.Length <= 0x8000_0000
    }

    /** A slot in use is where the map says, and every probe for its key before it met a slot that had
        been used. */
    ghost predicate SlotOk(s: nat)
      requires Shape() && s < status.Length
      reads this, status, keys, values
    {
      status[s] == Used ==>
        && keys[s] in contents && values[s] == contents[keys[s]]
        && keys[s] in slots && slots[keys[s]] == s
        && depth[s] < status.Length && Path(keys[s], status.Length, depth[s]) == s
        && forall j: nat :: j < depth[s] ==> Passed(keys[s], j)
    }

    ghost predicate Passed(key: Key, j: nat)
      requires Shape() && status.Length >= 2
      reads this, status
    {
      status[Path(key, status.Length, j)] != Empty
    }

    ghost predicate KeyOk(key: Key)
      requires Shape()
      reads this, status, keys
    {
      key in contents ==>
        key in slots && slots[key] < status.Length && status[slots[key]] == Used && keys[slots[key]] == key
    }

    ghost predicate Valid()
      reads this, status, keys, values
    {
      && Shape()
      && (forall s: nat :: s < status.Length ==> SlotOk(s))
      && (forall key :: KeyOk(key))
    }

    constructor (count: nat)
      requires count != 1 && count <= 0x8000_0000
      ensures Valid() && contents == map[] && status.Length == count
      ensures fresh(status) && fresh(keys) && fresh(values)
    {
      status := new Status[count](_ => Empty);
      keys := new Key[count](_ => Key(0, 0));
      values := new int[count](_ => 0);
      contents, slots, depth := map[], map[], seq(count, _ => 0);
    }

    /** Find: the slot of a key. */
    method Find(key: Key) returns (c: Option<nat>)
      requires Valid()
      ensures c.Some? <==> key in contents
      ensures c.Some? ==> key in slots && c.value == slots[key] < status.Length
      ensures c.Some? ==> status[c.value] == Used && keys[c.value] == key
    {
      var count := status.Length;
      if count == 0 {
        assert KeyOk(key);
        return None;
      }
      var incr, s := Increment(key, count), Start(key, count);
      PathStarts(key, count);
      hide Path, SlotOk, KeyOk, Increment, Start;
      for i := 0 to count
        invariant s == Path(key, count, i)
        invariant forall j: nat :: j < i ==> NotHere(key, j)
      {
        if status[s] == Empty {
          Missing(key, i);
          return None;
        }
        if status[s] == Used && keys[s] == key {
          Here(s);
          return Some(s);
        }
        assert NotHere(key, i);
        s := (s + incr) % count;
        PathNext(key, count, i);
      }
      Missing(key, count);
      return None;
    }

    lemma Here(s: nat)
      requires Valid() && s < status.Length && status[s] == Used
      ensures keys[s] in contents && keys[s] in slots && slots[keys[s]] == s && values[s] == contents[keys[s]]
    {
      assert SlotOk(s);
    }

    /** Probe j goes on to the next slot. */
    ghost predicate NotHere(key: Key, j: nat)
      requires Shape() && status.Length >= 2
      reads this, status, keys
    {
      var s := Path(key, status.Length, j);
      status[s] != Empty && !(status[s] == Used && keys[s] == key)
    }

    /** The probes that met no such key, and then an empty slot or the end: it is not there. */
    lemma Missing(key: Key, i: nat)
      requires Valid() && 2 <= status.Length && i <= status.Length
      requires forall j: nat :: j < i ==> NotHere(key, j)
      requires i == status.Length || status[Path(key, status.Length, i)] == Empty
      ensures key !in contents
    {
      assert i < status.Length ==> !Passed(key, i);
      if key in contents {
        assert KeyOk(key) && SlotOk(slots[key]);
        var contradiction := NotHere(key, depth[slots[key]]);
      }
    }

    /** The probe i for the key is the first that meets a slot not in use. */
    ghost predicate FirstFree(key: Key, i: nat, c: nat)
      requires Shape() && status.Length >= 2 && c < status.Length
      reads this, status
    {
      && i < status.Length && Path(key, status.Length, i) == c && status[c] != Used
      && forall j: nat :: j < i ==> Taken(key, j)
    }

    ghost predicate Taken(key: Key, j: nat)
      requires Shape() && status.Length >= 2
      reads this, status
    {
      status[Path(key, status.Length, j)] == Used
    }

    /** All is well but for slot c, which no key has yet. */
    ghost predicate ValidBut(c: nat)
      reads this, status, keys, values
    {
      && Shape()
      && (forall s: nat :: s < status.Length && s != c ==> SlotOk(s))
      && (forall key :: KeyOk(key))
      && (forall key <- contents :: key in slots && slots[key] != c)
    }

    /** PrepareAddIndex: the slot for a new key, from now on in use; it is the first on the key's path
        that was not. */
    method PrepareAddIndex(key: Key) returns (c: Option<nat>, ghost i: nat)
      requires Valid()
      modifies status
      ensures c.None? ==> unchanged(status)
      ensures c.None? && status.Length > 0 ==> forall j: nat :: j < status.Length ==> Taken(key, j)
      ensures c.Some? ==> c.value < status.Length && old(FirstFree(key, i, c.value))
      ensures c.Some? ==> status[..] == old(status[..])[c.value := Used] && ValidBut(c.value)
    {
      i := 0;
      var count := status.Length;
      if count == 0 {
        return None, 0;
      }
      var incr, s := Increment(key, count), Start(key, count);
      PathStarts(key, count);
      hide Path, Increment, Start, SlotOk, KeyOk;
      for k := 0 to count
        invariant s == Path(key, count, k) && unchanged(status)
        invariant forall j: nat :: j < k ==> Taken(key, j)
      {
        if status[s] == Used {
          assert Taken(key, k);
          s := (s + incr) % count;
          PathNext(key, count, k);
          continue;
        }
        i := k;
        assert FirstFree(key, k, s);
        SetUsed(s);
        return Some(s), i;
      }
      return None, 0;
    }

    /** SetStatus(IDTS_USED) */
    method SetUsed(c: nat)
      requires Valid() && c < status.Length && status[c] != Used
      modifies status
      ensures status[..] == old(status[..])[c := Used] && ValidBut(c)
    {
      status[c] := Used;
      forall s: nat | s < status.Length && s != c ensures SlotOk(s) {
        assert old(SlotOk(s));
        forall j: nat | status[s] == Used && j < depth[s] ensures Passed(keys[s], j) {
          assert old(Passed(keys[s], j));
        }
      }
      forall key ensures KeyOk(key) && (key in contents ==> slots[key] != c) {
        assert old(KeyOk(key));
      }
    }

    ghost predicate Full()
      requires Shape()
      reads this, status
    {
      forall s: nat :: s < status.Length ==> status[s] == Used
    }

    /** With a prime number of slots, the probes for any key go through all of them. */
    lemma AllTaken(key: Key)
      requires Shape() && status.Length > 2 && Prime(status.Length)
      requires forall j: nat :: j < status.Length ==> Taken(key, j)
      ensures Full()
    {
      forall s: nat | s < status.Length ensures status[s] == Used {
        VisitsAll(Start(key, status.Length), Increment(key, status.Length), status.Length, s);
        var j :| 0 <= j < status.Length &&
                 Probe(Start(key, status.Length), Increment(key, status.Length), status.Length, j) == s;
        assert Taken(key, j);
      }
    }

    /** Add: a fresh key gets a slot, unless its probes meet none that is free; if the number of slots is
        prime, that is only when the table is full. */
    method Add(key: Key, value: int) returns (ok: bool)
      requires Valid()
      modifies this`contents, this`slots, this`depth, status, keys, values
      ensures Valid()
      ensures contents == if ok then old(contents)[key := value] else old(contents)
      ensures ok ==> key !in old(contents)
      ensures !ok && key !in contents ==> status.Length == 0 || forall j: nat :: j < status.Length ==> Taken(key, j)
      ensures status.Length > 2 && Prime(status.Length) ==> (ok <==> key !in old(contents) && !old(Full()))
    {
      var found := Find(key);
      if found.Some? {
        return false;
      }
      var c, i := PrepareAddIndex(key);
      if c.None? {
        if status.Length > 2 && Prime(status.Length) {
          AllTaken(key);
        }
        return false;
      }
      forall j: nat | j < i ensures Passed(key, j) {
        assert old(Taken(key, j));
      }
      assert old(status[c.value]) != Used;
      Store(c.value, key, value, i);
      return true;
    }

    /** The key and the value go into the slot that was found for them. */
    method Store(c: nat, key: Key, value: int, ghost i: nat)
      requires ValidBut(c) && c < status.Length && status[c] == Used && key !in contents
      requires i < status.Length && Path(key, status.Length, i) == c
      requires forall j: nat :: j < i ==> Passed(key, j)
      modifies this`contents, this`slots, this`depth, keys, values
      ensures Valid() && contents == old(contents)[key := value]
    {
      keys[c] := key;
      values[c] := value;
      contents := contents[key := value];
      slots := slots[key := c];
      depth := depth[c := i];
      forall s: nat | s < status.Length ensures SlotOk(s) {
        if s != c {
          assert old(SlotOk(s));
          forall j: nat | status[s] == Used && j < depth[s] ensures Passed(keys[s], j) {
            assert old(Passed(keys[s], j));
          }
        } else {
          forall j: nat | j < i ensures Passed(key, j) {
            assert old(Passed(key, j));
          }
        }
      }
      forall k ensures KeyOk(k) {
        assert old(KeyOk(k));
      }
    }

    /** Remove: the slot is cleaned, and keeps the mark that it has been used. */
    method Remove(key: Key) returns (c: Option<nat>)
      requires Valid()
      modifies this`contents, this`slots, status, keys, values
      ensures Valid()
      ensures c.Some? <==> key in old(contents)
      ensures contents == old(contents) - {key}
      ensures c.Some? ==> c.value < status.Length && status[c.value] == Removed
    {
      c := Find(key);
      if c.None? {
        assert contents - {key} == contents;
        return;
      }
      Erase(key, c.value);
    }

    method Erase(key: Key, c: nat)
      requires Valid() && c < status.Length && key in contents && key in slots && slots[key] == c
      requires status[c] == Used && keys[c] == key
      modifies this`contents, this`slots, status, keys, values
      ensures Valid() && contents == old(contents) - {key} && status[c] == Removed
    {
      status[c] := Empty;
      keys[c] := Key(0, 0);
      values[c] := 0;
      status[c] := Removed;
      contents := contents - {key};
      slots := slots - {key};
      forall s: nat | s < status.Length ensures SlotOk(s) {
        assert old(SlotOk(s));
        forall j: nat | status[s] == Used && j < depth[s] ensures Passed(keys[s], j) {
          assert old(Passed(keys[s], j));
        }
      }
      forall k ensures KeyOk(k) {
        assert old(KeyOk(k));
      }
    }

    /** Get: the value of a key, or none. */
    method Get(key: Key) returns (v: Option<int>)
      requires Valid()
      ensures v == if key in contents then Some(contents[key]) else None
    {
      var c := Find(key);
      if c.None? {
        return None;
      }
      Here(c.value);
      return Some(values[c.value]);
    }

    /** Cleanup: all the slots are empty, and so is the table. */
    method Cleanup()
      requires Valid()
      modifies this`contents, this`slots, status, keys, values
      ensures Valid() && contents == map[]
    {
      for i := 0 to status.Length
        invariant Shape() && contents == old(contents) && slots == old(slots)
        invariant forall s :: 0 <= s < i ==> status[s] == Empty
      {
        status[i] := Empty;
        keys[i] := Key(0, 0);
        values[i] := 0;
      }
      contents, slots := map[], map[];
    }
  }

  /** The table that is set up for a number of keys: with a prime number of slots in the range of the list. */
  method SetUp(maxItem: nat) returns (t: Table)
    requires maxItem <= 0x8000_0000
    ensures fresh(t) && t.Valid() && t.contents == map[] && t.status.Length >= maxItem
    ensures fresh(t.status) && fresh(t.keys) && fresh(t.values)
    ensures maxItem < 0x6dda89 ==> t.status.Length > 2 && Prime(t.status.Length)
  {
    var count := GetPrime(maxItem);
    if maxItem < 0x6dda89 {
      ListedSmall(maxItem, count);
    }
    t := new Table(count);
  }

  lemma ListedSmall(code: nat, r: nat)
    requires LeastOf(PRIMES, code, r)
    ensures 2 < r <= 0x6dda89
  {
    TableRises();
    var i :| 0 <= i < |PRIMES| && PRIMES[i] == r;
    Around(PRIMES, 71);
    Around(PRIMES, 0);
    assert PRIMES[0] == SMALL[0] == 3;
  }

  /** Different keys have different values, so there are as many values as keys. */
  lemma {:induction false} ImageSize(keys: set<Key>, f: map<Key, nat>, image: set<nat>)
    requires forall k <- keys :: k in f
    requires forall a, b | a in keys && b in keys && a != b :: f[a] != f[b]
    requires image == set k | k in keys :: f[k]
    ensures |image| == |keys|
  {
    if keys != {} {
      var k :| k in keys;
      var rest := keys - {k};
      var left := set x | x in rest :: f[x];
      ImageSize(rest, f, left);
      assert image == left + {f[k]} && f[k] !in left;
    }
  }

  /** A table is full just when it holds as many keys as it has slots. */
  lemma {:induction false} FullSize(t: Table)
    requires t.Valid()
    ensures t.Full() <==> |t.contents| == t.status.Length
    ensures |t.contents| <= t.status.Length
  {
    var count := t.status.Length;
    forall k | k in t.contents ensures k in t.slots && t.slots[k] < count && t.keys[t.slots[k]] == k {
      assert t.KeyOk(k);
    }
    var used := set k | k in t.contents.Keys :: t.slots[k];
    ImageSize(t.contents.Keys, t.slots, used);
    var all := Slots(count);
    SubsetSize(used, all);
    if |t.contents| == count {
      forall s: nat | s < count ensures t.status[s] == Used {
        if s !in used { SubsetSize(used, all - {s}); }
        var k :| k in t.contents && t.slots[k] == s;
        assert t.KeyOk(k);
      }
    }
    if t.Full() {
      forall s | s in all ensures s in used { assert t.SlotOk(s); }
      SubsetSize(all, used);
    }
  }

  datatype Op = Puts(key: Key, value: int) | Takes(key: Key)

  /** What an operation does to a map that has room for count keys: a key that is there keeps its value. */
  function Effect(m: map<Key, int>, op: Op, count: nat): map<Key, int> {
    match op
    case Puts(key, value) => if key in m || |m| == count then m else m[key := value]
    case Takes(key) => m - {key}
  }

  /** What a run leaves in such a map. */
  function Plain(ops: seq<Op>, count: nat): map<Key, int> {
    if ops == [] then map[] else Effect(Plain(ops[..|ops| - 1], count), ops[|ops| - 1], count)
  }

  /** Over any run of adds and removes the table holds what a map would. Only a full table turns a fresh key
      away. */
  method Run(count: nat, ops: seq<Op>) returns (t: Table)
    requires 2 < count <= 0x8000_0000 && Prime(count)
    ensures fresh(t) && t.Valid() && t.status.Length == count
    ensures t.contents == Plain(ops, count)
  {
    t := new Table(count);
    assert ops[..0] == [];
    for i := 0 to |ops|
      invariant fresh(t) && fresh(t.status) && fresh(t.keys) && fresh(t.values)
      invariant t.Valid() && t.status.Length == count
      invariant t.contents == Plain(ops[..i], count)
    {
      assert ops[..i + 1][..i] == ops[..i];
      FullSize(t);
      match ops[i] {
        case Puts(key, value) => var ok := t.Add(key, value);
        case Takes(key) => var c := t.Remove(key);
      }
    }
    assert ops[..|ops|] == ops;
  }
}
