/** Lua values to JSON values and back (script/json.go). */
module LuaJson {
  type Ref = nat

  /** A Lua value; Opaque stands for functions, userdata and the like. */
  datatype Value =
    | LNil | LBool(b: bool) | LNumber(n: real) | LString(s: string) | LTable(ref: Ref) | Opaque(kind: string)

  /** A table: its cells, none of them nil, and the order in which ForEach visits them. */
  datatype Table = Table(cells: map<Value, Value>, order: seq<Value>)
  {
    ghost predicate Ordered() {
      && (forall k :: k in order <==> k in cells)
      && (forall i, j {:trigger order[i], order[j]} :: 0 <= i < j < |order| ==> order[i] != order[j])
    }
  }

  type Heap = map<Ref, Table>

  /** Every table visits each of its keys once, and every reference leads somewhere. */
  ghost predicate WellFormed(heap: Heap) {
    && (forall r :: r in heap ==> heap[r].Ordered())
    && (forall r, k :: r in heap && k in heap[r].cells ==> Grounded(heap, heap[r].cells[k]))
  }

  predicate Grounded(heap: Heap, v: Value) {
    v.LTable? ==> v.ref in heap
  }

  datatype JSON =
    | JNull | JBool(b: bool) | JNumber(n: real) | JString(s: string)
    | JArray(items: seq<JSON>) | JObject(fields: map<string, JSON>)

  datatype EncodeError = TooDeep | BadValue | BadKey
  datatype Result<T> = Ok(value: T) | Err(error: EncodeError)

  const MAX_DEPTH := 64

  /** How numbers print as object keys. */
  type Printer = real -> string

  function KeyText(text: Printer, key: Value): string {
    match key
    case LString(s) => s
    case LNumber(n) => text(n)
    case _ => ""
  }

  function Ordinal(i: nat): Value {
    LNumber(i as real)
  }

  /** The keys of an array of n elements. */
  function Ordinals(n: nat): set<Value> {
    set i: nat | 1 <= i <= n :: Ordinal(i)
  }

  /** The keys are exactly 1..n for some n > 0. */
  predicate IsArray(keys: set<Value>) {
    keys != {} && keys == Ordinals(|keys|)
  }

  /** The object that writing the values key by key leaves. */
  function ObjectOf(text: Printer, keys: seq<Value>, m: map<Value, JSON>): map<string, JSON>
    requires forall k :: k in keys ==> k in m
  {
    if keys == [] then map[]
    else
      var last := keys[|keys| - 1];
      ObjectOf(text, keys[..|keys| - 1], m)[KeyText(text, last) := m[last]]
  }

  /** An array where the keys allow one, an object otherwise. */
  function Shape(text: Printer, keys: seq<Value>, m: map<Value, JSON>): JSON
    requires forall k :: k in keys ==> k in m
  {
    if IsArray(m.Keys) then JArray(seq(|m|, i requires 0 <= i < |m| => Element(m, i)))
    else JObject(ObjectOf(text, keys, m))
  }

  function Element(m: map<Value, JSON>, i: nat): JSON {
    if Ordinal(i + 1) in m then m[Ordinal(i + 1)] else JNull
  }

  function ToJSON(heap: Heap, text: Printer, v: Value, depth: nat): Result<JSON>
    decreases MAX_DEPTH - depth, 0
  {
    match v
    case LNil => Ok(JNull)
    case LBool(b) => Ok(JBool(b))
    case LNumber(n) => Ok(JNumber(n))
    case LString(s) => Ok(JString(s))
    case Opaque(_) => Err(BadValue)
    case LTable(r) =>
      if depth >= MAX_DEPTH then Err(TooDeep)
      else if r !in heap then Err(BadValue)
      else
        match EncodeKeys(heap, text, heap[r], heap[r].order, depth)
        case Err(e) => Err(e)
        case Ok(m) => Ok(Shape(text, heap[r].order, m))
  }

  /** The encoded cells of t under these keys, or the first error on the way. */
  function EncodeKeys(heap: Heap, text: Printer, t: Table, keys: seq<Value>, depth: nat): (r: Result<map<Value, JSON>>)
    requires depth < MAX_DEPTH
    ensures r.Ok? ==> forall k :: k in r.value <==> k in keys
    decreases MAX_DEPTH - depth - 1, 2 + |keys|
  {
    if keys == [] then Ok(map[])
    else
      var key := keys[|keys| - 1];
      assert keys == keys[..|keys| - 1] + [key];
      match EncodeKeys(heap, text, t, keys[..|keys| - 1], depth)
      case Err(e) => Err(e)
      case Ok(m) =>
        match Encoded(heap, text, key, if key in t.cells then t.cells[key] else LNil, depth)
        case Err(e) => Err(e)
        case Ok(j) => Ok(m[key := j])
  }

  /** What one cell encodes to: only strings and numbers are keys. */
  function Encoded(heap: Heap, text: Printer, key: Value, v: Value, depth: nat): Result<JSON>
    requires depth < MAX_DEPTH
    decreases MAX_DEPTH - depth - 1, 1
  {
    if !key.LString? && !key.LNumber? then Err(BadKey) else ToJSON(heap, text, v, depth + 1)
  }

  // ---------------------------------------------------------------------- pigeonholes

  lemma {:induction false} OrdinalsSize(n: nat)
    ensures |Ordinals(n)| == n
  {
    if n > 0 {
      OrdinalsSize(n - 1);
      assert Ordinals(n) == Ordinals(n - 1) + {Ordinal(n)};
    } else {
      assert Ordinals(n) == {};
    }
  }

  lemma SameSize<T>(a: set<T>, b: set<T>)
    requires a <= b && |a| == |b|
    ensures a == b
  {
    if b - a != {} {
      var x :| x in b - a;
      assert a <= b - {x};
      SubsetSize(a, b - {x});
    }
  }

  lemma {:induction false} SubsetSize<T>(a: set<T>, b: set<T>)
    requires a <= b
    ensures |a| <= |b|
  {
    if a != {} {
      var x :| x in a;
      SubsetSize(a - {x}, b - {x});
    }
  }

  lemma {:induction false} KeysSize(keys: seq<Value>)
    requires forall i, j {:trigger keys[i], keys[j]} :: 0 <= i < j < |keys| ==> keys[i] != keys[j]
    ensures |set k | k in keys| == |keys|
  {
    if keys != [] {
      var n := |keys| - 1;
      KeysSize(keys[..n]);
      assert keys == keys[..n] + [keys[n]];
      assert keys[n] !in keys[..n];
      assert (set k | k in keys) == (set k | k in keys[..n]) + {keys[n]};
    }
  }

  /** The test of the loop on one key: a whole number between 1 and the size. */
  predicate IsIndex(key: Value, size: nat) {
    key.LNumber? && key.n >= 1.0 && key.n.Floor <= size && key.n.Floor as real == key.n
  }

  lemma IndexIsOrdinal(key: Value, size: nat)
    ensures IsIndex(key, size) <==> key in Ordinals(size)
  {
    if IsIndex(key, size) {
      assert key == Ordinal(key.n.Floor);
    }
  }

  /** Distinct keys that are all indexes fill 1..n, and no other keys do: the flag that the
      loop computes key by key says exactly that the key set is {1..n}. */
  lemma AllIndexesIffArray(keys: seq<Value>)
    requires forall i, j {:trigger keys[i], keys[j]} :: 0 <= i < j < |keys| ==> keys[i] != keys[j]
    ensures |keys| > 0 && (forall k :: k in keys ==> IsIndex(k, |keys|)) <==> IsArray(set k | k in keys)
  {
    var all := set k | k in keys;
    KeysSize(keys);
    OrdinalsSize(|keys|);
    forall k ensures IsIndex(k, |keys|) <==> k in Ordinals(|keys|) { IndexIsOrdinal(k, |keys|); }
    if |keys| > 0 && forall k :: k in keys ==> IsIndex(k, |keys|) {
      assert all <= Ordinals(|keys|);
      SameSize(all, Ordinals(|keys|));
    }
    if |keys| > 0 { assert keys[0] in all; }
  }

  // -------------------------------------------------------------------------- encoding

  method ToJSONValue(heap: Heap, text: Printer, v: Value, depth: nat) returns (r: Result<JSON>)
    requires WellFormed(heap) && Grounded(heap, v)
    ensures r == ToJSON(heap, text, v, depth)
    decreases MAX_DEPTH - depth, 1
  {
    match v {
      case LNil => return Ok(JNull);
      case LBool(b) => return Ok(JBool(b));
      case LNumber(n) => return Ok(JNumber(n));
      case LString(s) => return Ok(JString(s));
      case LTable(ref) =>
        if depth >= MAX_DEPTH {
          return Err(TooDeep);
        }
        r := TableToJSONValue(heap, text, heap[ref], depth);
        return r;
      case Opaque(_) => return Err(BadValue);
    }
  }

  /** The outcome for a table whose cells gave m, or an error. */
  function Finish(text: Printer, t: Table, m: Result<map<Value, JSON>>): Result<JSON>
    requires m.Ok? ==> forall k :: k in t.order ==> k in m.value
  {
    match m
    case Err(e) => Err(e)
    case Ok(values) => Ok(Shape(text, t.order, values))
  }

  /** The first error ends the encoding, whatever keys follow. */
  lemma {:induction false} ErrorStays(heap: Heap, text: Printer, t: Table, keys: seq<Value>, i: nat, depth: nat)
    requires depth < MAX_DEPTH && i <= |keys| && EncodeKeys(heap, text, t, keys[..i], depth).Err?
    ensures EncodeKeys(heap, text, t, keys, depth) == EncodeKeys(heap, text, t, keys[..i], depth)
    decreases |keys|
  {
    var n := |keys| - 1;
    if i == |keys| {
      assert keys[..i] == keys;
    } else {
      assert keys[..n][..i] == keys[..i];
      ErrorStays(heap, text, t, keys[..n], i, depth);
    }
  }

  lemma {:induction false} ObjectSame(text: Printer, keys: seq<Value>, m: map<Value, JSON>, m': map<Value, JSON>)
    requires forall k :: k in keys ==> k in m && k in m' && m[k] == m'[k]
    ensures ObjectOf(text, keys, m) == ObjectOf(text, keys, m')
  {
    if keys != [] {
      ObjectSame(text, keys[..|keys| - 1], m, m');
    }
  }

  /** The cells of the array hold the values of the index keys visited. */
  ghost predicate Filled(items: seq<JSON>, keys: seq<Value>, m: map<Value, JSON>) {
    forall k {:trigger m[k]} :: k in keys && k in m && IsIndex(k, |items|) ==> items[k.n.Floor - 1] == m[k]
  }

  /** The array with this value in the cell of its key, where the key has a cell. */
  function PlacedAt(items: seq<JSON>, key: Value, value: JSON): seq<JSON> {
    if IsIndex(key, |items|) then items[key.n.Floor - 1 := value] else items
  }

  lemma FilledStep(items: seq<JSON>, keys: seq<Value>, m: map<Value, JSON>, key: Value, value: JSON)
    requires Filled(items, keys, m) && key !in keys
    ensures Filled(PlacedAt(items, key, value), keys + [key], m[key := value])
  {
    if IsIndex(key, |items|) {
      var next := items[key.n.Floor - 1 := value];
      forall k | k in keys && k in m && IsIndex(k, |items|) ensures next[k.n.Floor - 1] == m[k] {
        assert k != key && k.n.Floor != key.n.Floor;
      }
    }
  }

  lemma FilledArray(items: seq<JSON>, keys: seq<Value>, m: map<Value, JSON>)
    requires Filled(items, keys, m) && |items| == |keys| && IsArray(m.Keys)
    requires forall k :: k in keys <==> k in m
    requires forall i, j {:trigger keys[i], keys[j]} :: 0 <= i < j < |keys| ==> keys[i] != keys[j]
    ensures items == seq(|m|, i requires 0 <= i < |m| => Element(m, i))
  {
    KeysSize(keys);
    assert m.Keys == set k | k in keys;
    forall i | 0 <= i < |items| ensures items[i] == Element(m, i) {
      assert Ordinal(i + 1) in Ordinals(|m.Keys|);
      IndexIsOrdinal(Ordinal(i + 1), |items|);
      assert Ordinal(i + 1) in m && m[Ordinal(i + 1)] == items[i];
    }
  }

  /** The locals of tableToJSONValue in the middle of a visit. */
  datatype Progress = Progress(items: seq<JSON>, fields: map<string, JSON>, isArray: bool)

  /** The flag says whether all keys visited so far are indexes. */
  predicate Flagged(keys: seq<Value>, size: nat, isArray: bool) {
    isArray <==> size > 0 && forall k :: k in keys ==> IsIndex(k, size)
  }

  lemma FlaggedStep(keys: seq<Value>, key: Value, size: nat, isArray: bool)
    requires Flagged(keys, size, isArray) && size > 0
    ensures Flagged(keys + [key], size, isArray && IsIndex(key, size))
  {
    assert forall k :: k in keys + [key] <==> k in keys || k == key;
  }

  /** p is where the visit stands after these keys of t, whose values are m. */
  ghost predicate Visited(heap: Heap, text: Printer, t: Table, depth: nat, keys: seq<Value>, m: map<Value, JSON>,
                          p: Progress)
    requires depth < MAX_DEPTH
  {
    match EncodeKeys(heap, text, t, keys, depth)
    case Err(_) => false
    case Ok(values) =>
      && values == m && p.fields == ObjectOf(text, keys, m)
      && |p.items| == |t.order| && Filled(p.items, keys, m) && Flagged(keys, |p.items|, p.isArray)
  }

  function Visit(text: Printer, p: Progress, key: Value, value: JSON): Progress {
    Progress(PlacedAt(p.items, key, value), p.fields[KeyText(text, key) := value], p.isArray && IsIndex(key, |p.items|))
  }

  lemma TakeNext<T>(s: seq<T>, i: nat)
    requires i < |s|
    ensures s[..i + 1] == s[..i] + [s[i]] && (s[..i] + [s[i]])[..i] == s[..i]
  {
  }

  /** A key whose value encodes takes the encoding one key further. */
  lemma EncodeStep(heap: Heap, text: Printer, t: Table, depth: nat, keys: seq<Value>, key: Value, value: JSON,
                   m: map<Value, JSON>)
    requires depth < MAX_DEPTH && EncodeKeys(heap, text, t, keys, depth) == Ok(m)
    requires key in t.cells && Encoded(heap, text, key, t.cells[key], depth) == Ok(value)
    ensures EncodeKeys(heap, text, t, keys + [key], depth) == Ok(m[key := value])
  {
    TakeNext(keys + [key], |keys|);
  }

  lemma ObjectStep(text: Printer, keys: seq<Value>, key: Value, value: JSON, m: map<Value, JSON>)
    requires key !in keys && forall k :: k in keys ==> k in m
    ensures ObjectOf(text, keys + [key], m[key := value]) == ObjectOf(text, keys, m)[KeyText(text, key) := value]
  {
    TakeNext(keys + [key], |keys|);
    ObjectSame(text, keys, m, m[key := value]);
  }

  /** The same for everything the loop keeps. */
  lemma VisitedStep(heap: Heap, text: Printer, t: Table, depth: nat, keys: seq<Value>, key: Value, value: JSON,
                    m: map<Value, JSON>, p: Progress)
    requires depth < MAX_DEPTH && Visited(heap, text, t, depth, keys, m, p) && |t.order| > 0
    requires key !in keys && key in t.cells && Encoded(heap, text, key, t.cells[key], depth) == Ok(value)
    ensures Visited(heap, text, t, depth, keys + [key], m[key := value], Visit(text, p, key, value))
  {
    EncodeStep(heap, text, t, depth, keys, key, value, m);
    ObjectStep(text, keys, key, value, m);
    FilledStep(p.items, keys, m, key, value);
    FlaggedStep(keys, key, |p.items|, p.isArray);
  }

  /** A cell that cannot be encoded ends the encoding. */
  lemma VisitedError(heap: Heap, text: Printer, t: Table, depth: nat, i: nat, m: map<Value, JSON>)
    requires depth < MAX_DEPTH && i < |t.order| && t.order[i] in t.cells
    requires EncodeKeys(heap, text, t, t.order[..i], depth) == Ok(m)
    requires Encoded(heap, text, t.order[i], t.cells[t.order[i]], depth).Err?
    ensures EncodeKeys(heap, text, t, t.order, depth)
         == Err(Encoded(heap, text, t.order[i], t.cells[t.order[i]], depth).error)
  {
    TakeNext(t.order, i);
    ErrorStays(heap, text, t, t.order, i + 1, depth);
  }

  lemma VisitedEnd(heap: Heap, text: Printer, t: Table, depth: nat, m: map<Value, JSON>, p: Progress)
    requires depth < MAX_DEPTH && t.Ordered() && Visited(heap, text, t, depth, t.order, m, p)
    ensures Finish(text, t, EncodeKeys(heap, text, t, t.order, depth))
         == Ok(if p.isArray then JArray(p.items) else JObject(p.fields))
  {
    AllIndexesIffArray(t.order);
    assert m.Keys == set k | k in t.order;
    if p.isArray {
      FilledArray(p.items, t.order, m);
    }
  }

  /** What the loop does with one cell: the error, or the value written into the array and the object. */
  method VisitCell(heap: Heap, text: Printer, key: Value, v: Value, depth: nat,
                   items: array<JSON>, fields: map<string, JSON>, isArray: bool)
    returns (cell: Result<JSON>, fields': map<string, JSON>, isArray': bool)
    requires WellFormed(heap) && Grounded(heap, v) && depth < MAX_DEPTH
    modifies items
    ensures cell == Encoded(heap, text, key, v, depth)
    ensures cell.Ok? ==>
      Progress(items[..], fields', isArray') == Visit(text, Progress(old(items[..]), fields, isArray), key, cell.value)
    decreases MAX_DEPTH - depth - 1, 2
  {
    fields', isArray' := fields, isArray;
    if !key.LString? && !key.LNumber? {
      return Err(BadKey), fields, isArray;
    }
    cell := ToJSONValue(heap, text, v, depth + 1);
    if cell.Err? {
      return;
    }
    fields' := fields[KeyText(text, key) := cell.value];
    if IsIndex(key, items.Length) {
      items[key.n.Floor - 1] := cell.value;
    } else {
      isArray' := false;
    }
  }

  method TableToJSONValue(heap: Heap, text: Printer, t: Table, depth: nat) returns (r: Result<JSON>)
    requires WellFormed(heap) && t.Ordered() && depth < MAX_DEPTH
    requires forall k :: k in t.cells ==> Grounded(heap, t.cells[k])
    ensures r == Finish(text, t, EncodeKeys(heap, text, t, t.order, depth))
    decreases MAX_DEPTH - depth, 0
  {
    var size := |t.order|;
    var items := new JSON[size](_ => JNull);
    var fields: map<string, JSON> := map[];
    var isArray := size > 0;
    ghost var m: map<Value, JSON>, p := map[], Progress(items[..], fields, isArray);
    for i := 0 to size
      invariant p == Progress(items[..], fields, isArray)
      invariant Visited(heap, text, t, depth, t.order[..i], m, p)
    {
      var key, cell := t.order[i], Err(BadKey);
      cell, fields, isArray := VisitCell(heap, text, key, t.cells[key], depth, items, fields, isArray);
      if cell.Err? {
        VisitedError(heap, text, t, depth, i, m);
        return Err(cell.error);
      }
      TakeNext(t.order, i);
      VisitedStep(heap, text, t, depth, t.order[..i], key, cell.value, m, p);
      m, p := m[key := cell.value], Visit(text, p, key, cell.value);
    }
    assert t.order[..size] == t.order;
    VisitedEnd(heap, text, t, depth, m, p);
    if isArray {
      return Ok(JArray(items[..]));
    }
    return Ok(JObject(fields));
  }

  // ------------------------------------------------------------------ what becomes of a table

  /** The name of a field is the text of its key, be it a string or a number. */
  predicate Named(text: Printer, key: Value, name: string) {
    key == LString(name) || (key.LNumber? && text(key.n) == name)
  }

  predicate Nameable(keys: seq<Value>) {
    forall k :: k in keys ==> k.LString? || k.LNumber?
  }

  /** The last of these keys that has this name. */
  ghost predicate IsLastNamed(text: Printer, keys: seq<Value>, i: int, name: string) {
    && 0 <= i < |keys| && Named(text, keys[i], name)
    && forall j {:trigger keys[j]} :: i < j < |keys| ==> !Named(text, keys[j], name)
  }

  lemma {:induction false} ObjectNames(text: Printer, keys: seq<Value>, m: map<Value, JSON>, name: string)
    returns (i: int)
    requires Nameable(keys) && forall k :: k in keys ==> k in m
    ensures name in ObjectOf(text, keys, m) <==> exists k :: k in keys && Named(text, k, name)
    ensures name in ObjectOf(text, keys, m) ==>
      IsLastNamed(text, keys, i, name) && ObjectOf(text, keys, m)[name] == m[keys[i]]
  {
    i := 0;
    if keys != [] {
      var n := |keys| - 1;
      assert keys == keys[..n] + [keys[n]];
      i := ObjectNames(text, keys[..n], m, name);
      assert keys[n] in keys;
      assert Named(text, keys[n], name) <==> KeyText(text, keys[n]) == name;
      if Named(text, keys[n], name) {
        i := n;
      }
    }
  }

  /** A whole number from 1 to n. */
  predicate IsWhole(key: Value, n: nat) {
    key.LNumber? && 1.0 <= key.n <= n as real && key.n == key.n.Floor as real
  }

  ghost predicate Numbered(keys: set<Value>, n: nat) {
    forall k :: k in keys <==> IsWhole(k, n)
  }

  /** The array of a table with keys 1..n: each element encodes the cell of its index. */
  ghost predicate EncodesArray(heap: Heap, text: Printer, t: Table, depth: nat, items: seq<JSON>) {
    && items != [] && Numbered(t.cells.Keys, |items|)
    && forall i {:trigger items[i]} :: 0 <= i < |items| ==>
         var key := LNumber((i + 1) as real);
         key in t.cells && ToJSON(heap, text, t.cells[key], depth + 1) == Ok(items[i])
  }

  /** The object of any other table: a field for the name of each key, which encodes the cell of the
      last key visited that has it. */
  ghost predicate EncodesObject(heap: Heap, text: Printer, t: Table, depth: nat, fields: map<string, JSON>) {
    && !(exists n: nat :: n > 0 && Numbered(t.cells.Keys, n))
    && (forall name :: name in fields <==> exists k :: k in t.cells && Named(text, k, name))
    && forall name :: name in fields ==> exists i ::
         && IsLastNamed(text, t.order, i, name) && t.order[i] in t.cells
         && ToJSON(heap, text, t.cells[t.order[i]], depth + 1) == Ok(fields[name])
  }

  lemma OrdinalsIff(keys: set<Value>, n: nat)
    ensures keys == Ordinals(n) <==> Numbered(keys, n)
    ensures IsArray(keys) <==> exists m: nat :: m > 0 && Numbered(keys, m)
  {
    forall m: nat ensures keys == Ordinals(m) <==> Numbered(keys, m) {
      forall k ensures k in Ordinals(m) <==> IsWhole(k, m) { IndexIsOrdinal(k, m); }
    }
    if IsArray(keys) {
      assert |keys| > 0 && Numbered(keys, |keys|);
    }
    if m: nat :| m > 0 && Numbered(keys, m) {
      OrdinalsSize(m);
      assert IsWhole(Ordinal(1), m);
    }
  }

  ghost predicate EncodesTable(heap: Heap, text: Printer, t: Table, depth: nat, j: JSON) {
    match j
    case JArray(items) => EncodesArray(heap, text, t, depth, items)
    case JObject(fields) => EncodesObject(heap, text, t, depth, fields)
    case _ => false
  }

  /** A table that encodes becomes the array of its cells or the object of its fields. */
  lemma TableEncodes(heap: Heap, text: Printer, r: Ref, depth: nat)
    requires r in heap && heap[r].Ordered() && ToJSON(heap, text, LTable(r), depth).Ok?
    ensures EncodesTable(heap, text, heap[r], depth, ToJSON(heap, text, LTable(r), depth).value)
  {
    var t := heap[r];
    var m := EncodeKeys(heap, text, t, t.order, depth).value;
    assert m.Keys == t.cells.Keys;
    forall k | k in t.cells
      ensures Encoded(heap, text, k, t.cells[k], depth) == Ok(m[k])
    {
      EncodedCells(heap, text, t, t.order, depth, k);
    }
    if IsArray(m.Keys) {
      ArrayEncoded(heap, text, t, depth, m);
    } else {
      ObjectEncoded(heap, text, t, depth, m);
    }
  }

  lemma ArrayEncoded(heap: Heap, text: Printer, t: Table, depth: nat, m: map<Value, JSON>)
    requires depth < MAX_DEPTH && m.Keys == t.cells.Keys && IsArray(m.Keys)
    requires forall k :: k in t.cells ==> Encoded(heap, text, k, t.cells[k], depth) == Ok(m[k])
    ensures EncodesArray(heap, text, t, depth, seq(|m|, i requires 0 <= i < |m| => Element(m, i)))
  {
    var n := |m.Keys|;
    OrdinalsIff(m.Keys, n);
    forall i | 0 <= i < n
      ensures var key := LNumber((i + 1) as real);
        key in t.cells && ToJSON(heap, text, t.cells[key], depth + 1) == Ok(Element(m, i))
    {
      assert Ordinal(i + 1) in Ordinals(n);
    }
  }

  lemma ObjectEncoded(heap: Heap, text: Printer, t: Table, depth: nat, m: map<Value, JSON>)
    requires depth < MAX_DEPTH && t.Ordered() && m.Keys == t.cells.Keys && !IsArray(m.Keys)
    requires forall k :: k in t.cells ==> Encoded(heap, text, k, t.cells[k], depth) == Ok(m[k])
    ensures EncodesObject(heap, text, t, depth, ObjectOf(text, t.order, m))
  {
    OrdinalsIff(m.Keys, 0);
    assert Nameable(t.order);
    forall name
      ensures name in ObjectOf(text, t.order, m) <==> exists k :: k in t.cells && Named(text, k, name)
      ensures name in ObjectOf(text, t.order, m) ==> exists i ::
        && IsLastNamed(text, t.order, i, name) && t.order[i] in t.cells
        && ToJSON(heap, text, t.cells[t.order[i]], depth + 1) == Ok(ObjectOf(text, t.order, m)[name])
    {
      var i := ObjectNames(text, t.order, m, name);
    }
  }

  // ------------------------------------------------------------------- what is rejected

  /** A key that is neither string nor number, or a value that does not encode. */
  predicate BadCell(heap: Heap, text: Printer, t: Table, k: Value, depth: nat) {
    k in t.cells && (!(k.LString? || k.LNumber?) || ToJSON(heap, text, t.cells[k], depth + 1).Err?)
  }

  /** Nothing is rejected but functions and the like, a table inside 64 others, and a table with a bad
      cell. */
  lemma RejectedIff(heap: Heap, text: Printer, v: Value, depth: nat)
    requires WellFormed(heap) && Grounded(heap, v)
    ensures ToJSON(heap, text, v, depth).Err? <==>
      v.Opaque? || (v.LTable? && (depth >= 64 || exists k :: BadCell(heap, text, heap[v.ref], k, depth)))
    ensures v.Opaque? ==> ToJSON(heap, text, v, depth) == Err(BadValue)
    ensures v.LTable? && depth >= 64 ==> ToJSON(heap, text, v, depth) == Err(TooDeep)
  {
    if v.LTable? && depth < 64 {
      var t := heap[v.ref];
      if k :| BadCell(heap, text, t, k, depth) {
        if EncodeKeys(heap, text, t, t.order, depth).Ok? {
          EncodedCells(heap, text, t, t.order, depth, k);
          assert false;
        }
      } else {
        forall k | k in t.order ensures Encoded(heap, text, k, t.cells[k], depth).Ok? {
          assert !BadCell(heap, text, t, k, depth);
        }
        AllCellsEncode(heap, text, t, t.order, depth);
      }
    }
  }

  /** An encoding of cells holds the encoding of each cell. */
  lemma {:induction false} EncodedCells(heap: Heap, text: Printer, t: Table, keys: seq<Value>, depth: nat, k: Value)
    requires depth < MAX_DEPTH && k in keys && (forall k' :: k' in keys ==> k' in t.cells)
    requires EncodeKeys(heap, text, t, keys, depth).Ok?
    ensures Encoded(heap, text, k, t.cells[k], depth) == Ok(EncodeKeys(heap, text, t, keys, depth).value[k])
  {
    var n := |keys| - 1;
    assert keys == keys[..n] + [keys[n]];
    if k != keys[n] {
      EncodedCells(heap, text, t, keys[..n], depth, k);
    }
  }

  /** Cells that each encode encode together. */
  lemma {:induction false} AllCellsEncode(heap: Heap, text: Printer, t: Table, keys: seq<Value>, depth: nat)
    requires depth < MAX_DEPTH && (forall k :: k in keys ==> k in t.cells)
    requires forall k :: k in keys ==> Encoded(heap, text, k, t.cells[k], depth).Ok?
    ensures EncodeKeys(heap, text, t, keys, depth).Ok?
  {
    if keys != [] {
      AllCellsEncode(heap, text, t, keys[..|keys| - 1], depth);
    }
  }

  predicate Holds(t: Table, key: Value, r: Ref) {
    key in t.cells && t.cells[key] == LTable(r)
  }

  ghost predicate HoldsOneOf(heap: Heap, r: Ref, tables: set<Ref>) {
    r in heap && exists key, r' :: r' in tables && Holds(heap[r], key, r')
  }

  /** Tables each of which holds a table of the same set, as the tables of a cycle do. */
  ghost predicate Circular(heap: Heap, tables: set<Ref>) {
    forall r {:trigger HoldsOneOf(heap, r, tables)} :: r in tables ==> HoldsOneOf(heap, r, tables)
  }

  /** A table that contains itself, at whatever distance, is rejected wherever it is met. */
  lemma {:induction false} CyclesRejected(heap: Heap, text: Printer, tables: set<Ref>, r: Ref, depth: nat)
    requires WellFormed(heap) && Circular(heap, tables) && r in tables
    ensures ToJSON(heap, text, LTable(r), depth).Err?
    decreases MAX_DEPTH - depth
  {
    if depth < MAX_DEPTH {
      assert HoldsOneOf(heap, r, tables);
      var key, r' :| r' in tables && Holds(heap[r], key, r');
      CyclesRejected(heap, text, tables, r', depth + 1);
      CellRejected(heap, text, heap[r], depth, key);
    }
  }

  lemma CellRejected(heap: Heap, text: Printer, t: Table, depth: nat, key: Value)
    requires depth < MAX_DEPTH && t.Ordered() && key in t.cells && ToJSON(heap, text, t.cells[key], depth + 1).Err?
    ensures EncodeKeys(heap, text, t, t.order, depth).Err?
  {
    if EncodeKeys(heap, text, t, t.order, depth).Ok? {
      EncodedCells(heap, text, t, t.order, depth, key);
      assert false;
    }
  }

  // -------------------------------------------------------------------------- decoding

  /** v is what decoding j leaves in the heap, all its tables being numbered lo or more: a null
      leaves no cell, and the order in which the cells are visited is open. */
  ghost predicate Represents(heap: Heap, lo: Ref, v: Value, j: JSON)
    decreases j
  {
    match j
    case JNull => v == LNil
    case JBool(b) => v == LBool(b)
    case JNumber(n) => v == LNumber(n)
    case JString(s) => v == LString(s)
    case JArray(items) =>
      && v.LTable? && v.ref >= lo && v.ref in heap
      && (forall k :: k in heap[v.ref].cells ==> k in Ordinals(|items|))
      && (forall i {:trigger items[i]} :: 0 <= i < |items| ==>
           ItemCell(heap[v.ref].cells, Ordinal(i + 1), items[i])
           && (items[i] != JNull ==> Represents(heap, lo, heap[v.ref].cells[Ordinal(i + 1)], items[i])))
    case JObject(fields) =>
      && v.LTable? && v.ref >= lo && v.ref in heap
      && (forall k :: k in heap[v.ref].cells ==> k.LString? && k.s in fields)
      && (forall k {:trigger fields[k]} :: k in fields ==>
           ItemCell(heap[v.ref].cells, LString(k), fields[k])
           && (fields[k] != JNull ==> Represents(heap, lo, heap[v.ref].cells[LString(k)], fields[k])))
  }

  predicate ItemCell(cells: map<Value, Value>, key: Value, item: JSON) {
    key in cells <==> item != JNull
  }

  /** What survives decoding and encoding: at most room containers inside each other, no null
      inside a container and no empty array. */
  ghost predicate Survives(j: JSON, room: nat)
    decreases j
  {
    match j
    case JArray(items) =>
      room > 0 && items != []
      && forall i {:trigger items[i]} :: 0 <= i < |items| ==> items[i] != JNull && Survives(items[i], room - 1)
    case JObject(fields) =>
      room > 0 && forall k {:trigger fields[k]} :: k in fields ==> fields[k] != JNull && Survives(fields[k], room - 1)
    case _ => true
  }

  /** The cells of a decoded array. */
  ghost predicate ArrayCells(cells: map<Value, Value>, items: seq<JSON>) {
    && (forall k :: k in cells ==> k in Ordinals(|items|))
    && (forall i {:trigger items[i]} :: 0 <= i < |items| ==> ItemCell(cells, Ordinal(i + 1), items[i]))
  }

  /** The cells of a decoded object. */
  ghost predicate ObjectCells(cells: map<Value, Value>, fields: map<string, JSON>) {
    && (forall k :: k in cells ==> k.LString? && k.s in fields)
    && (forall k {:trigger fields[k]} :: k in fields ==> ItemCell(cells, LString(k), fields[k]))
  }

  predicate Back(heap: Heap, text: Printer, v: Value, j: JSON, depth: nat) {
    ToJSON(heap, text, v, depth) == Ok(j)
  }

  /** Every cell of an array whose elements all come back encodes, and the keys are 1..n. */
  lemma ArrayEncodes(heap: Heap, text: Printer, t: Table, items: seq<JSON>, depth: nat)
    requires depth < MAX_DEPTH && t.Ordered() && ArrayCells(t.cells, items)
    requires forall i {:trigger items[i]} :: 0 <= i < |items| ==>
      items[i] != JNull && Back(heap, text, t.cells[Ordinal(i + 1)], items[i], depth + 1)
    ensures EncodeKeys(heap, text, t, t.order, depth).Ok?
    ensures t.cells.Keys == Ordinals(|items|)
  {
    forall k | k in t.order ensures Encoded(heap, text, k, t.cells[k], depth).Ok? {
      var i: nat :| 1 <= i <= |items| && k == Ordinal(i);
      assert Back(heap, text, t.cells[Ordinal(i - 1 + 1)], items[i - 1], depth + 1);
    }
    AllCellsEncode(heap, text, t, t.order, depth);
    forall k | k in Ordinals(|items|) ensures k in t.cells {
      var i: nat :| 1 <= i <= |items| && k == Ordinal(i);
      assert ItemCell(t.cells, Ordinal(i - 1 + 1), items[i - 1]);
    }
  }

  lemma ArrayShape(text: Printer, keys: seq<Value>, m: map<Value, JSON>, items: seq<JSON>)
    requires (forall k :: k in keys ==> k in m) && m.Keys == Ordinals(|items|) && items != []
    requires forall i {:trigger items[i]} :: 0 <= i < |items| ==> Element(m, i) == items[i]
    ensures Shape(text, keys, m) == JArray(items)
  {
    OrdinalsSize(|items|);
    assert Ordinal(1) in m.Keys;
    assert seq(|m|, i requires 0 <= i < |m| => Element(m, i)) == items;
  }

  lemma ArrayBack(heap: Heap, text: Printer, t: Table, items: seq<JSON>, depth: nat)
    requires depth < MAX_DEPTH && t.Ordered() && ArrayCells(t.cells, items) && items != []
    requires forall i {:trigger items[i]} :: 0 <= i < |items| ==>
      items[i] != JNull && Back(heap, text, t.cells[Ordinal(i + 1)], items[i], depth + 1)
    ensures Finish(text, t, EncodeKeys(heap, text, t, t.order, depth)) == Ok(JArray(items))
  {
    ArrayEncodes(heap, text, t, items, depth);
    var m := EncodeKeys(heap, text, t, t.order, depth).value;
    assert m.Keys == t.cells.Keys;
    forall i | 0 <= i < |items| ensures Element(m, i) == items[i] {
      assert items[i] != JNull;
      EncodedCells(heap, text, t, t.order, depth, Ordinal(i + 1));
    }
    ArrayShape(text, t.order, m, items);
  }

  lemma ArrayOnlyBack(heap: Heap, text: Printer, t: Table, items: seq<JSON>, depth: nat, i: nat)
    requires depth < MAX_DEPTH && t.Ordered() && ArrayCells(t.cells, items)
    requires Finish(text, t, EncodeKeys(heap, text, t, t.order, depth)) == Ok(JArray(items))
    requires i < |items|
    ensures items[i] != JNull && Back(heap, text, t.cells[Ordinal(i + 1)], items[i], depth + 1)
  {
    var m := EncodeKeys(heap, text, t, t.order, depth).value;
    assert Ordinal(i + 1) in Ordinals(|items|);
    assert Ordinal(i + 1) in m;
    EncodedCells(heap, text, t, t.order, depth, Ordinal(i + 1));
    assert Element(m, i) == items[i];
    assert ItemCell(t.cells, Ordinal(i + 1), items[i]);
  }

  /** Where all keys are strings the object has one field for each, whatever their order. */
  lemma {:induction false} ObjectFields(text: Printer, keys: seq<Value>, m: map<Value, JSON>)
    requires forall k :: k in keys ==> k in m && k.LString?
    ensures forall f {:trigger ObjectOf(text, keys, m)[f]} :: f in ObjectOf(text, keys, m) <==> LString(f) in keys
    ensures forall f :: LString(f) in keys ==> ObjectOf(text, keys, m)[f] == m[LString(f)]
  {
    if keys != [] {
      var n := |keys| - 1;
      assert keys == keys[..n] + [keys[n]];
      ObjectFields(text, keys[..n], m);
      var last := keys[n];
      assert ObjectOf(text, keys, m) == ObjectOf(text, keys[..n], m)[last.s := m[last]];
      forall f ensures LString(f) in keys <==> LString(f) in keys[..n] || f == last.s {}
    }
  }

  /** A table whose keys are strings never looks like an array. */
  lemma StringKeysNoArray(keys: set<Value>)
    requires forall k :: k in keys ==> k.LString?
    ensures !IsArray(keys)
  {
    if keys != {} {
      var k :| k in keys;
      assert k !in Ordinals(|keys|);
    }
  }

  /** Every cell of an object whose fields all come back encodes, and the keys are its fields. */
  lemma ObjectEncodes(heap: Heap, text: Printer, t: Table, fields: map<string, JSON>, depth: nat)
    requires depth < MAX_DEPTH && t.Ordered() && ObjectCells(t.cells, fields)
    requires forall k {:trigger fields[k]} :: k in fields ==>
      fields[k] != JNull && Back(heap, text, t.cells[LString(k)], fields[k], depth + 1)
    ensures EncodeKeys(heap, text, t, t.order, depth).Ok?
    ensures forall k :: k in fields <==> LString(k) in t.cells
  {
    forall k | k in t.order ensures Encoded(heap, text, k, t.cells[k], depth).Ok? {
      assert fields[k.s] != JNull;
    }
    AllCellsEncode(heap, text, t, t.order, depth);
    forall k | k in fields ensures LString(k) in t.cells {
      assert ItemCell(t.cells, LString(k), fields[k]);
    }
  }

  lemma ObjectBack(heap: Heap, text: Printer, t: Table, fields: map<string, JSON>, depth: nat)
    requires depth < MAX_DEPTH && t.Ordered() && ObjectCells(t.cells, fields)
    requires forall k {:trigger fields[k]} :: k in fields ==>
      fields[k] != JNull && Back(heap, text, t.cells[LString(k)], fields[k], depth + 1)
    ensures Finish(text, t, EncodeKeys(heap, text, t, t.order, depth)) == Ok(JObject(fields))
  {
    ObjectEncodes(heap, text, t, fields, depth);
    var m := EncodeKeys(heap, text, t, t.order, depth).value;
    StringKeysNoArray(m.Keys);
    ObjectFields(text, t.order, m);
    var o := ObjectOf(text, t.order, m);
    forall k | k in o ensures k in fields && o[k] == fields[k] {
      assert fields[k] != JNull;
      EncodedCells(heap, text, t, t.order, depth, LString(k));
    }
    assert o == fields;
  }

  lemma ObjectOnlyBack(heap: Heap, text: Printer, t: Table, fields: map<string, JSON>, depth: nat, k: string)
    requires depth < MAX_DEPTH && t.Ordered() && ObjectCells(t.cells, fields)
    requires Finish(text, t, EncodeKeys(heap, text, t, t.order, depth)) == Ok(JObject(fields))
    requires k in fields
    ensures fields[k] != JNull && Back(heap, text, t.cells[LString(k)], fields[k], depth + 1)
  {
    var m := EncodeKeys(heap, text, t, t.order, depth).value;
    ObjectFields(text, t.order, m);
    assert k in ObjectOf(text, t.order, m);
    EncodedCells(heap, text, t, t.order, depth, LString(k));
    assert ItemCell(t.cells, LString(k), fields[k]);
  }

  /** An array comes back exactly when it is not empty and holds no null and each element comes back. */
  lemma ArrayIff(heap: Heap, text: Printer, t: Table, items: seq<JSON>, depth: nat)
    requires depth < MAX_DEPTH && t.Ordered() && ArrayCells(t.cells, items)
    requires forall i {:trigger items[i]} :: 0 <= i < |items| && items[i] != JNull ==>
      (Back(heap, text, t.cells[Ordinal(i + 1)], items[i], depth + 1) <==> Survives(items[i], MAX_DEPTH - depth - 1))
    ensures Finish(text, t, EncodeKeys(heap, text, t, t.order, depth)) == Ok(JArray(items))
      <==> Survives(JArray(items), MAX_DEPTH - depth)
  {
    var r := Finish(text, t, EncodeKeys(heap, text, t, t.order, depth));
    if Survives(JArray(items), MAX_DEPTH - depth) {
      ArrayBack(heap, text, t, items, depth);
    }
    if r == Ok(JArray(items)) {
      forall i | 0 <= i < |items| ensures items[i] != JNull && Survives(items[i], MAX_DEPTH - depth - 1) {
        ArrayOnlyBack(heap, text, t, items, depth, i);
      }
    }
  }

  /** An object comes back exactly when it holds no null and each field comes back. */
  lemma ObjectIff(heap: Heap, text: Printer, t: Table, fields: map<string, JSON>, depth: nat)
    requires depth < MAX_DEPTH && t.Ordered() && ObjectCells(t.cells, fields)
    requires forall k {:trigger fields[k]} :: k in fields && fields[k] != JNull ==>
      (Back(heap, text, t.cells[LString(k)], fields[k], depth + 1) <==> Survives(fields[k], MAX_DEPTH - depth - 1))
    ensures Finish(text, t, EncodeKeys(heap, text, t, t.order, depth)) == Ok(JObject(fields))
      <==> Survives(JObject(fields), MAX_DEPTH - depth)
  {
    var r := Finish(text, t, EncodeKeys(heap, text, t, t.order, depth));
    if Survives(JObject(fields), MAX_DEPTH - depth) {
      ObjectBack(heap, text, t, fields, depth);
    }
    if r == Ok(JObject(fields)) {
      forall k | k in fields ensures fields[k] != JNull && Survives(fields[k], MAX_DEPTH - depth - 1) {
        ObjectOnlyBack(heap, text, t, fields, depth, k);
      }
    }
  }

  /** Decoding and then encoding gives the same value back, inside depth other containers,
      exactly where the value survives. */
  lemma {:induction false} RoundTripIff(heap: Heap, text: Printer, lo: Ref, v: Value, j: JSON, depth: nat)
    requires WellFormed(heap) && depth <= 64 && Represents(heap, lo, v, j)
    ensures ToJSON(heap, text, v, depth) == Ok(j) <==> Survives(j, 64 - depth)
    decreases j, 1
  {
    if depth < MAX_DEPTH && j.JArray? {
      RoundTripArray(heap, text, lo, v, j, depth);
    } else if depth < MAX_DEPTH && j.JObject? {
      RoundTripObject(heap, text, lo, v, j, depth);
    }
  }

  lemma TableEncoding(heap: Heap, text: Printer, r: Ref, depth: nat)
    requires r in heap && depth < MAX_DEPTH
    ensures ToJSON(heap, text, LTable(r), depth)
         == Finish(text, heap[r], EncodeKeys(heap, text, heap[r], heap[r].order, depth))
  {
  }

  /** The table of a decoded array, and that of a decoded object. */
  lemma ArrayTable(heap: Heap, lo: Ref, v: Value, items: seq<JSON>)
    requires WellFormed(heap) && Represents(heap, lo, v, JArray(items))
    ensures v.LTable? && v.ref in heap && heap[v.ref].Ordered() && ArrayCells(heap[v.ref].cells, items)
    ensures forall i {:trigger items[i]} :: 0 <= i < |items| && items[i] != JNull ==>
      Represents(heap, lo, heap[v.ref].cells[Ordinal(i + 1)], items[i])
  {
  }

  lemma ObjectTable(heap: Heap, lo: Ref, v: Value, fields: map<string, JSON>)
    requires WellFormed(heap) && Represents(heap, lo, v, JObject(fields))
    ensures v.LTable? && v.ref in heap && heap[v.ref].Ordered() && ObjectCells(heap[v.ref].cells, fields)
    ensures forall k {:trigger fields[k]} :: k in fields && fields[k] != JNull ==>
      Represents(heap, lo, heap[v.ref].cells[LString(k)], fields[k])
  {
  }

  lemma {:induction false} RoundTripArray(heap: Heap, text: Printer, lo: Ref, v: Value, j: JSON, depth: nat)
    requires WellFormed(heap) && depth < MAX_DEPTH && Represents(heap, lo, v, j) && j.JArray?
    ensures ToJSON(heap, text, v, depth) == Ok(j) <==> Survives(j, MAX_DEPTH - depth)
    decreases j, 0
  {
    var items := j.items;
    ArrayTable(heap, lo, v, items);
    TableEncoding(heap, text, v.ref, depth);
    var t := heap[v.ref];
    forall i {:trigger items[i]} | 0 <= i < |items| && items[i] != JNull
      ensures Back(heap, text, t.cells[Ordinal(i + 1)], items[i], depth + 1)
        <==> Survives(items[i], MAX_DEPTH - depth - 1)
    {
      RoundTripIff(heap, text, lo, t.cells[Ordinal(i + 1)], items[i], depth + 1);
    }
    ArrayIff(heap, text, t, items, depth);
  }

  lemma {:induction false} RoundTripObject(heap: Heap, text: Printer, lo: Ref, v: Value, j: JSON, depth: nat)
    requires WellFormed(heap) && depth < MAX_DEPTH && Represents(heap, lo, v, j) && j.JObject?
    ensures ToJSON(heap, text, v, depth) == Ok(j) <==> Survives(j, MAX_DEPTH - depth)
    decreases j, 0
  {
    var fields := j.fields;
    ObjectTable(heap, lo, v, fields);
    TableEncoding(heap, text, v.ref, depth);
    var t := heap[v.ref];
    forall k {:trigger fields[k]} | k in fields && fields[k] != JNull
      ensures Back(heap, text, t.cells[LString(k)], fields[k], depth + 1)
        <==> Survives(fields[k], MAX_DEPTH - depth - 1)
    {
      RoundTripIff(heap, text, lo, t.cells[LString(k)], fields[k], depth + 1);
    }
    ObjectIff(heap, text, t, fields, depth);
  }
}
