/** Filling Lua tables from a JSON value (script/json.go), and the round trip through both directions. */
module JsonDecode {
  import opened LuaJson

  /** Storing under a key that the table does not have; storing nil leaves no cell. */
  function Stored(t: Table, key: Value, v: Value): Table {
    if v.LNil? then t else Table(t.cells[key := v], t.order + [key])
  }

  /** What keeps every representation above lo: no table from lo on is lost or changes its cells. */
  ghost predicate KeepsFrom(heap: Heap, heap': Heap, lo: Ref) {
    forall r {:trigger heap[r]} {:trigger heap'[r]} :: r in heap && r >= lo ==> r in heap' && heap'[r] == heap[r]
  }

  /** No table but t is lost or changes. */
  ghost predicate KeepsBut(heap: Heap, heap': Heap, t: Ref) {
    forall r {:trigger heap[r]} {:trigger heap'[r]} :: r in heap && r != t ==> r in heap' && heap'[r] == heap[r]
  }

  lemma {:induction false} StillRepresents(heap: Heap, heap': Heap, lo: Ref, lo': Ref, v: Value, j: JSON)
    requires KeepsFrom(heap, heap', lo) && lo' <= lo && Represents(heap, lo, v, j)
    ensures Represents(heap', lo', v, j)
    decreases j
  {
    match j
    case JArray(items) =>
      var cells := heap[v.ref].cells;
      forall i {:trigger items[i]} | 0 <= i < |items| && items[i] != JNull
        ensures Represents(heap', lo', cells[Ordinal(i + 1)], items[i])
      {
        StillRepresents(heap, heap', lo, lo', cells[Ordinal(i + 1)], items[i]);
      }
    case JObject(fields) =>
      var cells := heap[v.ref].cells;
      forall k {:trigger fields[k]} | k in fields && fields[k] != JNull
        ensures Represents(heap', lo', cells[LString(k)], fields[k])
      {
        StillRepresents(heap, heap', lo, lo', cells[LString(k)], fields[k]);
      }
    case _ =>
  }

  /** Table t has the cell that this item leaves, made of tables newer than t. */
  ghost predicate ItemDone(heap: Heap, t: Ref, key: Value, item: JSON) {
    && t in heap && ItemCell(heap[t].cells, key, item)
    && (item != JNull ==> Represents(heap, t + 1, heap[t].cells[key], item))
  }

  /** Storing an item elsewhere keeps those stored before. */
  lemma DoneStays(heap: Heap, heap1: Heap, heap2: Heap, t: Ref, key: Value, item: JSON, other: Value, v: Value)
    requires KeepsFrom(heap, heap1, 0) && ItemDone(heap, t, key, item) && key != other
    requires heap2 == heap1[t := Stored(heap1[t], other, v)]
    ensures ItemDone(heap2, t, key, item)
  {
    if item != JNull {
      StillRepresents(heap, heap1, t + 1, t + 1, heap[t].cells[key], item);
      StillRepresents(heap1, heap2, t + 1, t + 1, heap[t].cells[key], item);
    }
  }

  lemma DoneNew(heap1: Heap, heap2: Heap, t: Ref, lo: Ref, key: Value, item: JSON, v: Value)
    requires t in heap1 && key !in heap1[t].cells && lo > t && Represents(heap1, lo, v, item)
    requires heap2 == heap1[t := Stored(heap1[t], key, v)]
    ensures ItemDone(heap2, t, key, item)
  {
    if item != JNull {
      StillRepresents(heap1, heap2, lo, t + 1, v, item);
    }
  }

  /** The first i items of an array are stored in t, and nothing else is. */
  ghost predicate ArrayDone(heap: Heap, t: Ref, items: seq<JSON>, i: nat) {
    && t in heap && i <= |items|
    && (forall k :: k in heap[t].cells ==> k in Ordinals(i))
    && (forall k {:trigger items[k]} :: 0 <= k < i ==> ItemDone(heap, t, Ordinal(k + 1), items[k]))
  }

  lemma ItemStored(heap: Heap, heap1: Heap, heap2: Heap, t: Ref, items: seq<JSON>, i: nat, lo: Ref, v: Value)
    requires ArrayDone(heap, t, items, i) && i < |items| && KeepsFrom(heap, heap1, 0)
    requires lo > t && Represents(heap1, lo, v, items[i])
    requires heap2 == heap1[t := Stored(heap1[t], Ordinal(i + 1), v)]
    ensures ArrayDone(heap2, t, items, i + 1)
  {
    forall k {:trigger items[k]} | 0 <= k < i ensures ItemDone(heap2, t, Ordinal(k + 1), items[k]) {
      DoneStays(heap, heap1, heap2, t, Ordinal(k + 1), items[k], Ordinal(i + 1), v);
    }
    DoneNew(heap1, heap2, t, lo, Ordinal(i + 1), items[i], v);
    assert Ordinals(i + 1) == Ordinals(i) + {Ordinal(i + 1)};
  }

  lemma ArrayRepresented(heap: Heap, t: Ref, items: seq<JSON>)
    requires ArrayDone(heap, t, items, |items|)
    ensures Represents(heap, t, LTable(t), JArray(items))
  {
    forall i {:trigger items[i]} | 0 <= i < |items| && items[i] != JNull
      ensures Represents(heap, t, heap[t].cells[Ordinal(i + 1)], items[i])
    {
      assert ItemDone(heap, t, Ordinal(i + 1), items[i]);
      StillRepresents(heap, heap, t + 1, t, heap[t].cells[Ordinal(i + 1)], items[i]);
    }
  }

  /** The fields with these names are stored in t, and nothing else is. */
  ghost predicate ObjectDone(heap: Heap, t: Ref, fields: map<string, JSON>, done: set<string>) {
    && t in heap && done <= fields.Keys
    && (forall k :: k in heap[t].cells ==> k.LString? && k.s in done)
    && (forall k {:trigger fields[k]} :: k in done ==> ItemDone(heap, t, LString(k), fields[k]))
  }

  lemma FieldStored(heap: Heap, heap1: Heap, heap2: Heap, t: Ref, fields: map<string, JSON>, done: set<string>,
                   name: string, lo: Ref, v: Value)
    requires ObjectDone(heap, t, fields, done) && name in fields && name !in done && KeepsFrom(heap, heap1, 0)
    requires lo > t && Represents(heap1, lo, v, fields[name])
    requires heap2 == heap1[t := Stored(heap1[t], LString(name), v)]
    ensures ObjectDone(heap2, t, fields, done + {name})
  {
    forall k {:trigger fields[k]} | k in done ensures ItemDone(heap2, t, LString(k), fields[k]) {
      DoneStays(heap, heap1, heap2, t, LString(k), fields[k], LString(name), v);
    }
    DoneNew(heap1, heap2, t, lo, LString(name), fields[name], v);
  }

  lemma ObjectRepresented(heap: Heap, t: Ref, fields: map<string, JSON>)
    requires ObjectDone(heap, t, fields, fields.Keys)
    ensures Represents(heap, t, LTable(t), JObject(fields))
  {
    forall k {:trigger fields[k]} | k in fields && fields[k] != JNull
      ensures Represents(heap, t, heap[t].cells[LString(k)], fields[k])
    {
      assert ItemDone(heap, t, LString(k), fields[k]);
      StillRepresents(heap, heap, t + 1, t, heap[t].cells[LString(k)], fields[k]);
    }
  }

  lemma WholeRoundTrip(heap: Heap, text: Printer, lo: Ref, v: Value, j: JSON)
    requires WellFormed(heap) && Represents(heap, lo, v, j)
    ensures ToJSON(heap, text, v, 0) == Ok(j) <==> Survives(j, 64)
  {
    RoundTripIff(heap, text, lo, v, j, 0);
  }

  /** The tables of a Lua state. */
  class LuaState {
    var heap: Heap
    var next: Ref

    ghost predicate Valid()
      reads this
    {
      WellFormed(heap) && forall r :: r in heap ==> r < next
    }

    constructor ()
      ensures Valid() && heap == map[]
    {
      heap, next := map[], 0;
    }

    method NewTable() returns (t: Ref)
      requires Valid()
      modifies this
      ensures Valid() && t == old(next) && next == t + 1 && heap == old(heap)[t := Table(map[], [])]
    {
      t, next := next, next + 1;
      heap := heap[t := Table(map[], [])];
    }

    /** RawSetInt and RawSetString, on a key that is not there yet. */
    method RawSet(t: Ref, key: Value, v: Value)
      requires Valid() && t in heap && key !in heap[t].cells && Grounded(heap, v)
      modifies this`heap
      ensures Valid() && heap == old(heap)[t := Stored(old(heap[t]), key, v)]
    {
      heap := heap[t := Stored(heap[t], key, v)];
    }

    /** The result represents j in tables of its own, and all tables there were stay as they were. */
    method FromJSONValue(j: JSON) returns (v: Value)
      requires Valid()
      modifies this
      ensures Valid() && Grounded(heap, v) && Represents(heap, old(next), v, j)
      ensures old(next) <= next && KeepsFrom(old(heap), heap, 0)
      decreases j, 1
    {
      match j {
        case JBool(b) => v := LBool(b);
        case JNumber(n) => v := LNumber(n);
        case JString(s) => v := LString(s);
        case JArray(items) => v := FromArray(j, items);
        case JObject(fields) => v := FromObject(j, fields);
        case JNull => v := LNil;
      }
    }

    /** One turn of the loop over an array, ... */
    method StoreItem(t: Ref, items: seq<JSON>, i: nat)
      requires Valid() && t < next && i < |items| && ArrayDone(heap, t, items, i)
      modifies this
      ensures Valid() && t < next && old(next) <= next
      ensures KeepsBut(old(heap), heap, t) && ArrayDone(heap, t, items, i + 1)
      decreases items[i], 2
    {
      ghost var lo, before := next, heap;
      var item := FromJSONValue(items[i]);
      ghost var after := heap;
      RawSet(t, Ordinal(i + 1), item);
      ItemStored(before, after, heap, t, items, i, lo, item);
    }

    /** ... and of the loop over an object. */
    method StoreField(t: Ref, fields: map<string, JSON>, name: string, ghost done: set<string>)
      requires Valid() && t < next && name in fields && name !in done && ObjectDone(heap, t, fields, done)
      modifies this
      ensures Valid() && t < next && old(next) <= next
      ensures KeepsBut(old(heap), heap, t) && ObjectDone(heap, t, fields, done + {name})
      decreases fields[name], 2
    {
      ghost var lo, before := next, heap;
      var item := FromJSONValue(fields[name]);
      ghost var after := heap;
      RawSet(t, LString(name), item);
      FieldStored(before, after, heap, t, fields, done, name, lo, item);
    }

    method FromArray(ghost j: JSON, items: seq<JSON>) returns (v: Value)
      requires Valid() && j == JArray(items)
      modifies this
      ensures Valid() && Grounded(heap, v) && Represents(heap, old(next), v, j)
      ensures old(next) <= next && KeepsFrom(old(heap), heap, 0)
      decreases j, 0
    {
      var t := NewTable();
      for i := 0 to |items|
        invariant Valid() && t < next
        invariant KeepsBut(old(heap), heap, t) && ArrayDone(heap, t, items, i)
      {
        StoreItem(t, items, i);
      }
      ArrayRepresented(heap, t, items);
      v := LTable(t);
    }

    method FromObject(ghost j: JSON, fields: map<string, JSON>) returns (v: Value)
      requires Valid() && j == JObject(fields)
      modifies this
      ensures Valid() && Grounded(heap, v) && Represents(heap, old(next), v, j)
      ensures old(next) <= next && KeepsFrom(old(heap), heap, 0)
      decreases j, 0
    {
      var t := NewTable();
      var rest := fields.Keys;
      while rest != {}
        invariant rest <= fields.Keys && Valid() && t < next
        invariant KeepsBut(old(heap), heap, t) && ObjectDone(heap, t, fields, fields.Keys - rest)
      {
        var name :| name in rest;
        StoreField(t, fields, name, fields.Keys - rest);
        assert fields.Keys - (rest - {name}) == fields.Keys - rest + {name};
        rest := rest - {name};
      }
      assert fields.Keys - rest == fields.Keys;
      ObjectRepresented(heap, t, fields);
      v := LTable(t);
    }

    /** Decoding and then encoding: the value comes back exactly where it has at most MAX_DEPTH
        containers inside each other, no null inside a container and no empty array. */
    method RoundTrip(text: Printer, j: JSON) returns (r: Result<JSON>)
      requires Valid()
      modifies this
      ensures r == Ok(j) <==> Survives(j, 64)
    {
      var v := FromJSONValue(j);
      r := ToJSONValue(heap, text, v, 0);
      WholeRoundTrip(heap, text, old(next), v, j);
    }
  }
}
