/** One named bind source with its secondary indexes (clientdb/bindindex.go). */
module BindIndexes {
  import opened Prelude
  import opened Text

  /** A bind; `ip` is None where the program holds a nil address. */
  datatype Bind = Bind(id: string, ip: Option<seq<byte>>, clientMac: string, deviceMac: string, port: int)

  datatype Kind = ByMac | ByMacDevice | ByMacDevicePort | ByDevicePort

  type KeyFunction = Bind -> Option<string>

  /** The key of b in the index of this kind, if b belongs to it. */
  function KeyOf(kind: Kind, b: Bind): Option<string> {
    match kind
    case ByMac => Some(b.clientMac)
    case ByMacDevice =>
      if b.deviceMac == "" then None else Some(b.clientMac + "|" + b.deviceMac)
    case ByMacDevicePort =>
      if b.deviceMac == "" || b.port == 0 then None
      else Some(b.clientMac + "|" + b.deviceMac + "|" + Itoa(b.port))
    case ByDevicePort =>
      if b.deviceMac == "" || b.port == 0 then None else Some(b.deviceMac + "|" + Itoa(b.port))
  }

  function Key(kind: Kind): KeyFunction {
    (b: Bind) => KeyOf(kind, b)
  }

  // ---------------------------------------------------------------- one list of binds

  function OtherThan(id: string): Bind -> bool {
    (b: Bind) => b.id != id
  }

  function FiledUnder(keyOf: KeyFunction, key: string): Bind -> bool {
    (b: Bind) => keyOf(b) == Some(key)
  }

  function Removed(live: seq<Bind>, id: string): seq<Bind> {
    Filter(live, OtherThan(id))
  }

  function Placed(live: seq<Bind>, b: Bind): seq<Bind> {
    Removed(live, b.id) + [b]
  }

  /** The linear scan: the binds filed under `key`. */
  function With(live: seq<Bind>, keyOf: KeyFunction, key: string): seq<Bind> {
    Filter(live, FiledUnder(keyOf, key))
  }

  predicate HasID(live: seq<Bind>, id: string) {
    exists i :: 0 <= i < |live| && live[i].id == id
  }

  ghost predicate DistinctIDs(live: seq<Bind>) {
    forall i, j {:trigger live[i], live[j]} :: 0 <= i < j < |live| ==> live[i].id != live[j].id
  }

  lemma RemovedMembers(live: seq<Bind>, id: string)
    ensures forall b :: b in Removed(live, id) <==> b in live && b.id != id
  {
    FilterMembers(live, OtherThan(id));
  }

  lemma {:induction false} RemovedDistinct(live: seq<Bind>, id: string)
    requires DistinctIDs(live)
    ensures DistinctIDs(Removed(live, id))
  {
    if live != [] {
      var front, last := live[..|live| - 1], live[|live| - 1];
      RemovedDistinct(front, id);
      RemovedMembers(front, id);
      forall i | 0 <= i < |Removed(front, id)| ensures Removed(front, id)[i].id != last.id {
        assert Removed(front, id)[i] in front;
      }
    }
  }

  function OtherIDs(live: seq<Bind>, id: string): nat -> bool {
    (i: nat) => i < |live| && live[i].id != id
  }

  /** `rest` is what live holds under other ids, in the same order. */
  ghost predicate OthersOf(rest: seq<Bind>, live: seq<Bind>, id: string) {
    exists at {:trigger Positions(at, |live|, OtherIDs(live, id))} ::
      && Positions(at, |live|, OtherIDs(live, id)) && Picked(rest, live, at)
  }

  lemma RemovedIsOthers(live: seq<Bind>, id: string)
    ensures OthersOf(Removed(live, id), live, id)
  {
    var at := FilterPositions(live, OtherThan(id));
    forall i: nat ensures Where(live, OtherThan(id))(i) == OtherIDs(live, id)(i) {}
    assert Positions(at, |live|, OtherIDs(live, id));
  }

  lemma RemovedAbsent(live: seq<Bind>, id: string)
    requires !HasID(live, id)
    ensures Removed(live, id) == live
  {
    FilterAll(live, OtherThan(id));
  }

  lemma IDsAfterPut(rest: seq<Bind>, b: Bind, id: string)
    ensures HasID(rest + [b], id) <==> HasID(rest, id) || id == b.id
  {
    assert (rest + [b])[|rest|] == b;
    if HasID(rest, id) {
      var i :| 0 <= i < |rest| && rest[i].id == id;
      assert (rest + [b])[i].id == id;
    }
  }

  lemma IDsAfterRemove(live: seq<Bind>, gone: string, id: string)
    ensures HasID(Removed(live, gone), id) <==> HasID(live, id) && id != gone
  {
    RemovedMembers(live, gone);
    if HasID(live, id) && id != gone {
      var i :| 0 <= i < |live| && live[i].id == id;
      assert live[i] in Removed(live, gone);
    }
    if HasID(Removed(live, gone), id) {
      var i :| 0 <= i < |Removed(live, gone)| && Removed(live, gone)[i].id == id;
      assert Removed(live, gone)[i] in live;
    }
  }

  datatype Op = PutOp(b: Bind) | RemoveOp(target: string)
  {
    function ID(): string {
      if PutOp? then b.id else target
    }
  }

  function Step(live: seq<Bind>, op: Op): seq<Bind> {
    match op
    case PutOp(b) => Placed(live, b)
    case RemoveOp(id) => Removed(live, id)
  }

  // ---------------------------------------------------------------- the maps of a source

  /** byID holds exactly the binds present, under their ids. */
  ghost predicate Tabled(byID: map<string, Bind>, live: seq<Bind>) {
    && DistinctIDs(live)
    && (forall id {:trigger HasID(live, id)} :: id in byID <==> HasID(live, id))
    && (forall i {:trigger live[i]} :: 0 <= i < |live| ==> live[i].id in byID && byID[live[i].id] == live[i])
  }

  lemma TabledAfterPut(byID: map<string, Bind>, rest: seq<Bind>, b: Bind)
    requires Tabled(byID, rest) && !HasID(rest, b.id)
    ensures Tabled(byID[b.id := b], rest + [b])
  {
    forall id ensures HasID(rest + [b], id) <==> id in byID[b.id := b] {
      assert id in byID <==> HasID(rest, id);
      IDsAfterPut(rest, b, id);
    }
    forall i | 0 <= i < |rest| ensures rest[i].id != b.id {
      assert HasID(rest, rest[i].id);
    }
  }

  lemma TabledAfterRemove(byID: map<string, Bind>, live: seq<Bind>, gone: string)
    requires Tabled(byID, live)
    ensures Tabled(byID - {gone}, Removed(live, gone))
  {
    RemovedDistinct(live, gone);
    RemovedMembers(live, gone);
    forall id ensures HasID(Removed(live, gone), id) <==> id in byID - {gone} {
      assert id in byID <==> HasID(live, id);
      IDsAfterRemove(live, gone, id);
    }
    forall i | 0 <= i < |Removed(live, gone)|
      ensures var b := Removed(live, gone)[i]; b.id in byID && b.id != gone && byID[b.id] == b
    {
      assert Removed(live, gone)[i] in live;
    }
  }

  type Index = map<string, seq<Bind>>

  function Entry(index: Index, key: string): seq<Bind> {
    if key in index then index[key] else []
  }

  /** Under every key the index holds what the scan finds, and no empty list. */
  ghost predicate Agrees(index: Index, live: seq<Bind>, keyOf: KeyFunction) {
    && (forall key {:trigger Entry(index, key)} :: Entry(index, key) == With(live, keyOf, key))
    && (forall key {:trigger index[key]} :: key in index ==> index[key] != [])
  }

  function Appended(index: Index, key: string, b: Bind): Index {
    index[key := Entry(index, key) + [b]]
  }

  function DeletedFrom(index: Index, key: string, id: string): Index {
    var rest := Removed(Entry(index, key), id);
    if |rest| > 0 then index[key := rest] else index - {key}
  }

  lemma AppendedAgrees(index: Index, live: seq<Bind>, keyOf: KeyFunction, b: Bind)
    requires Agrees(index, live, keyOf)
    ensures Agrees(if keyOf(b).Some? then Appended(index, keyOf(b).value, b) else index, live + [b], keyOf)
  {
    forall key ensures With(live + [b], keyOf, key)
                    == Entry(index, key) + if keyOf(b) == Some(key) then [b] else []
    {
      FilterSnoc(live, b, FiledUnder(keyOf, key));
    }
  }

  lemma WithAfterRemove(live: seq<Bind>, keyOf: KeyFunction, key: string, b: Bind)
    requires DistinctIDs(live) && b in live
    ensures With(Removed(live, b.id), keyOf, key)
         == if keyOf(b) == Some(key) then Removed(With(live, keyOf, key), b.id)
            else With(live, keyOf, key)
  {
    FilterCommutes(live, OtherThan(b.id), FiledUnder(keyOf, key));
    if keyOf(b) != Some(key) {
      FilterMembers(live, FiledUnder(keyOf, key));
      FilterAll(With(live, keyOf, key), OtherThan(b.id));
    }
  }

  lemma DeletedAgrees(index: Index, live: seq<Bind>, keyOf: KeyFunction, b: Bind)
    requires Agrees(index, live, keyOf) && DistinctIDs(live) && b in live
    ensures Agrees(if keyOf(b).Some? then DeletedFrom(index, keyOf(b).value, b.id) else index,
                   Removed(live, b.id), keyOf)
  {
    forall key ensures With(Removed(live, b.id), keyOf, key)
                    == if keyOf(b) == Some(key) then Removed(Entry(index, key), b.id)
                       else Entry(index, key)
    {
      WithAfterRemove(live, keyOf, key, b);
    }
  }

  /** `index` after the append of put was called for it, if b belongs to it. */
  function Filed(index: Index, kind: Kind, b: Bind): Index {
    var key := KeyOf(kind, b);
    if key.Some? then Appended(index, key.value, b) else index
  }

  function Unfiled(index: Index, kind: Kind, b: Bind): Index {
    var key := KeyOf(kind, b);
    if key.Some? then DeletedFrom(index, key.value, b.id) else index
  }

  /** The five maps of one source. */
  datatype Tables = Tables(byID: map<string, Bind>, byMac: Index, byMacDevice: Index,
                           byMacDevicePort: Index, byDevicePort: Index)

  /** The maps describe one list of binds: the table by id and every secondary index. */
  ghost predicate Describe(t: Tables, live: seq<Bind>) {
    match t
    case Tables(byID, byMac, byMacDevice, byMacDevicePort, byDevicePort) =>
      && Tabled(byID, live)
      && Agrees(byMac, live, Key(ByMac))
      && Agrees(byMacDevice, live, Key(ByMacDevice))
      && Agrees(byMacDevicePort, live, Key(ByMacDevicePort))
      && Agrees(byDevicePort, live, Key(ByDevicePort))
  }

  lemma DescribeAfterPut(t: Tables, live: seq<Bind>, b: Bind)
    requires Describe(t, live) && !HasID(live, b.id)
    ensures Describe(Tables(t.byID[b.id := b], Filed(t.byMac, ByMac, b), Filed(t.byMacDevice, ByMacDevice, b),
                            Filed(t.byMacDevicePort, ByMacDevicePort, b), Filed(t.byDevicePort, ByDevicePort, b)),
                     live + [b])
  {
    TabledAfterPut(t.byID, live, b);
    AppendedAgrees(t.byMac, live, Key(ByMac), b);
    AppendedAgrees(t.byMacDevice, live, Key(ByMacDevice), b);
    AppendedAgrees(t.byMacDevicePort, live, Key(ByMacDevicePort), b);
    AppendedAgrees(t.byDevicePort, live, Key(ByDevicePort), b);
  }

  lemma DescribeAfterRemove(t: Tables, live: seq<Bind>, id: string)
    requires Describe(t, live) && id in t.byID
    ensures var b := t.byID[id];
      Describe(Tables(t.byID - {id}, Unfiled(t.byMac, ByMac, b), Unfiled(t.byMacDevice, ByMacDevice, b),
                      Unfiled(t.byMacDevicePort, ByMacDevicePort, b), Unfiled(t.byDevicePort, ByDevicePort, b)),
               Removed(live, id))
  {
    var b := t.byID[id];
    TabledAt(t.byID, live, id);
    TabledAfterRemove(t.byID, live, id);
    DeletedAgrees(t.byMac, live, Key(ByMac), b);
    DeletedAgrees(t.byMacDevice, live, Key(ByMacDevice), b);
    DeletedAgrees(t.byMacDevicePort, live, Key(ByMacDevicePort), b);
    DeletedAgrees(t.byDevicePort, live, Key(ByDevicePort), b);
  }

  lemma TabledAt(byID: map<string, Bind>, live: seq<Bind>, id: string)
    requires Tabled(byID, live)
    ensures id in byID <==> HasID(live, id)
    ensures id in byID ==> byID[id] in live && byID[id].id == id
  {
    assert id in byID <==> HasID(live, id);
  }

  class BindIndex {
    var byID: map<string, Bind>
    var byMac: Index
    var byMacDevice: Index
    var byMacDevicePort: Index
    var byDevicePort: Index
    /** The binds present, ordered by their last put. */
    ghost var live: seq<Bind>

    function Maps(): Tables
      reads this
    {
      Tables(byID, byMac, byMacDevice, byMacDevicePort, byDevicePort)
    }

    ghost predicate Valid()
      reads this
    {
      Describe(Maps(), live)
    }

    /** The index is valid and holds these binds. */
    ghost predicate Lists(binds: seq<Bind>)
      reads this
    {
      Valid() && live == binds
    }

    constructor ()
      ensures Valid() && live == []
    {
      byID, byMac, byMacDevice, byMacDevicePort, byDevicePort := map[], map[], map[], map[], map[];
      live := [];
    }

    /** eachKey with the callback of put: append b under each of its keys. */
    method AppendEachKey(b: Bind)
      modifies this
      ensures byID == old(byID) && live == old(live)
      ensures byMac == Filed(old(byMac), ByMac, b)
      ensures byMacDevice == Filed(old(byMacDevice), ByMacDevice, b)
      ensures byMacDevicePort == Filed(old(byMacDevicePort), ByMacDevicePort, b)
      ensures byDevicePort == Filed(old(byDevicePort), ByDevicePort, b)
    {
      byMac := Appended(byMac, b.clientMac, b);
      if b.deviceMac == "" {
        return;
      }
      byMacDevice := Appended(byMacDevice, b.clientMac + "|" + b.deviceMac, b);
      if b.port == 0 {
        return;
      }
      var port := Itoa(b.port);
      byMacDevicePort := Appended(byMacDevicePort, b.clientMac + "|" + b.deviceMac + "|" + port, b);
      byDevicePort := Appended(byDevicePort, b.deviceMac + "|" + port, b);
    }

    /** eachKey with the callback of remove: delete b's id under each of its keys. */
    method DeleteEachKey(b: Bind)
      modifies this
      ensures byID == old(byID) && live == old(live)
      ensures byMac == Unfiled(old(byMac), ByMac, b)
      ensures byMacDevice == Unfiled(old(byMacDevice), ByMacDevice, b)
      ensures byMacDevicePort == Unfiled(old(byMacDevicePort), ByMacDevicePort, b)
      ensures byDevicePort == Unfiled(old(byDevicePort), ByDevicePort, b)
    {
      byMac := DeletedFrom(byMac, b.clientMac, b.id);
      if b.deviceMac == "" {
        return;
      }
      byMacDevice := DeletedFrom(byMacDevice, b.clientMac + "|" + b.deviceMac, b.id);
      if b.port == 0 {
        return;
      }
      var port := Itoa(b.port);
      byMacDevicePort := DeletedFrom(byMacDevicePort, b.clientMac + "|" + b.deviceMac + "|" + port, b.id);
      byDevicePort := DeletedFrom(byDevicePort, b.deviceMac + "|" + port, b.id);
    }

    method Put(b: Bind) returns (existed: bool)
      requires Valid()
      modifies this
      ensures Valid() && live == Placed(old(live), b)
      ensures existed == HasID(old(live), b.id)
    {
      existed := Remove(b.id);
      DescribeAfterPut(Maps(), live, b);
      byID := byID[b.id := b];
      AppendEachKey(b);
      live := live + [b];
    }

    method Remove(id: string) returns (existed: bool)
      requires Valid()
      modifies this
      ensures Valid() && live == Removed(old(live), id)
      ensures !HasID(live, id)
      ensures existed == HasID(old(live), id)
    {
      TabledAt(byID, live, id);
      IDsAfterRemove(live, id, id);
      if id !in byID {
        RemovedAbsent(live, id);
        return false;
      }
      DescribeAfterRemove(Maps(), live, id);
      var b := byID[id];
      byID := byID - {id};
      DeleteEachKey(b);
      live := Removed(live, id);
      existed := true;
    }

    method Perform(op: Op)
      requires Valid()
      modifies this
      ensures Valid() && live == Step(old(live), op)
    {
      match op {
        case PutOp(b) => var _ := Put(b);
        case RemoveOp(id) => var _ := Remove(id);
      }
    }

    method Count() returns (n: nat)
      requires Valid()
      ensures n == |live|
    {
      n := |byID|;
      CountIDs(byID, live);
    }
  }

  lemma {:induction false} CountIDs(byID: map<string, Bind>, live: seq<Bind>)
    requires Tabled(byID, live)
    ensures |byID| == |live|
  {
    if live == [] {
      forall id ensures id !in byID {
        assert !HasID(live, id);
      }
      assert byID == map[];
    } else {
      var front, last := live[..|live| - 1], live[|live| - 1];
      assert live == front + [last];
      TabledAfterRemove(byID, live, last.id);
      assert Removed(live, last.id) == front by {
        FilterSnoc(front, last, OtherThan(last.id));
        FilterAll(front, OtherThan(last.id));
      }
      CountIDs(byID - {last.id}, front);
      assert last.id in byID;
      assert (byID - {last.id}).Keys == byID.Keys - {last.id};
    }
  }

  // ------------------------------------------------- any sequence of puts and removes

  function Run(live: seq<Bind>, ops: seq<Op>): seq<Bind> {
    if ops == [] then live else Step(Run(live, ops[..|ops| - 1]), ops[|ops| - 1])
  }

  lemma {:induction false} RunConcat(live: seq<Bind>, a: seq<Op>, b: seq<Op>)
    ensures Run(live, a + b) == Run(Run(live, a), b)
  {
    if b == [] {
      assert a + b == a;
    } else {
      assert (a + b)[..|a + b| - 1] == a + b[..|b| - 1];
      RunConcat(live, a, b[..|b| - 1]);
    }
  }

  /** ops[k] is the last operation on its id. */
  ghost predicate IsLastOn(ops: seq<Op>, k: int) {
    0 <= k < |ops| && forall j {:trigger ops[j]} :: k < j < |ops| ==> ops[j].ID() != ops[k].ID()
  }

  /** `live` is what the last operation on each id leaves: the binds whose last operation
      is a put, in the order of those puts; from[i] is the position of the put of live[i]. */
  ghost predicate LeftBy(live: seq<Bind>, ops: seq<Op>, from: seq<int>) {
    && |from| == |live|
    && (forall i {:trigger from[i]} :: 0 <= i < |from| ==> IsLastOn(ops, from[i]) && ops[from[i]] == PutOp(live[i]))
    && (forall i, j {:trigger from[i], from[j]} :: 0 <= i < j < |from| ==> from[i] < from[j])
    && (forall k :: IsLastOn(ops, k) && ops[k].PutOp? ==> k in from)
  }

  /** The entries of `was` whose bind survives the removal of id. */
  function Surviving(live: seq<Bind>, was: seq<int>, id: string): (kept: seq<int>)
    requires |was| == |live|
    ensures |kept| == |Removed(live, id)|
  {
    if live == [] then []
    else
      var n := |live| - 1;
      var front := Surviving(live[..n], was[..n], id);
      if live[n].id != id then front + [was[n]] else front
  }

  lemma {:induction false} SurvivingFacts(live: seq<Bind>, was: seq<int>, id: string, i: nat) returns (k: nat)
    requires |was| == |live| && i < |Removed(live, id)|
    requires forall a, b {:trigger was[a], was[b]} :: 0 <= a < b < |was| ==> was[a] < was[b]
    ensures k < |live| && was[k] == Surviving(live, was, id)[i]
    ensures live[k] == Removed(live, id)[i] && live[k].id != id
    ensures forall j :: 0 <= j < i ==> Surviving(live, was, id)[j] < was[k]
    decreases |live|
  {
    var n := |live| - 1;
    var front := Surviving(live[..n], was[..n], id);
    if i < |front| {
      k := SurvivingFacts(live[..n], was[..n], id, i);
    } else {
      k := n;
      forall j | 0 <= j < i ensures front[j] < was[n] {
        var m := SurvivingFacts(live[..n], was[..n], id, j);
        assert was[..n][m] == was[m];
      }
    }
  }

  lemma {:induction false} SurvivingAll(live: seq<Bind>, was: seq<int>, id: string, k: nat)
    requires |was| == |live| && k < |live| && live[k].id != id
    ensures was[k] in Surviving(live, was, id)
  {
    var n := |live| - 1;
    if k < n {
      SurvivingAll(live[..n], was[..n], id, k);
      assert was[..n][k] == was[k];
    }
  }

  lemma LastOnKept(before: seq<Op>, op: Op, k: int)
    requires 0 <= k < |before|
    ensures IsLastOn(before + [op], k) <==> IsLastOn(before, k) && before[k].ID() != op.ID()
  {
    var ops := before + [op];
    assert ops[|before|] == op && ops[k] == before[k];
    if IsLastOn(ops, k) {
      forall j | k < j < |before| ensures before[j].ID() != before[k].ID() { assert ops[j] == before[j]; }
    }
  }

  lemma KeptPosition(live: seq<Bind>, before: seq<Op>, was: seq<int>, op: Op, i: nat)
    requires LeftBy(live, before, was) && i < |Removed(live, op.ID())|
    ensures var kept := Surviving(live, was, op.ID());
      && 0 <= kept[i] < |before| && IsLastOn(before + [op], kept[i])
      && before[kept[i]] == PutOp(Removed(live, op.ID())[i])
      && forall j :: 0 <= j < i ==> kept[j] < kept[i]
  {
    var k := SurvivingFacts(live, was, op.ID(), i);
    assert IsLastOn(before, was[k]) && before[was[k]] == PutOp(live[k]);
    LastOnKept(before, op, was[k]);
  }

  lemma EveryPutKept(live: seq<Bind>, before: seq<Op>, was: seq<int>, op: Op, k: int)
    requires LeftBy(live, before, was)
    requires 0 <= k < |before| && IsLastOn(before + [op], k) && before[k].PutOp?
    ensures k in Surviving(live, was, op.ID())
  {
    LastOnKept(before, op, k);
    assert k in was;
    var i :| 0 <= i < |was| && was[i] == k;
    assert before[was[i]] == PutOp(live[i]);
    SurvivingAll(live, was, op.ID(), i);
  }

  lemma LeftAfterStep(live: seq<Bind>, before: seq<Op>, was: seq<int>, op: Op)
    requires LeftBy(live, before, was)
    ensures var kept := Surviving(live, was, op.ID());
      LeftBy(Step(live, op), before + [op], if op.PutOp? then kept + [|before|] else kept)
  {
    var n, ops, kept := |before|, before + [op], Surviving(live, was, op.ID());
    var from := if op.PutOp? then kept + [n] else kept;
    assert ops[n] == op;
    forall i | 0 <= i < |from|
      ensures IsLastOn(ops, from[i]) && ops[from[i]] == PutOp(Step(live, op)[i])
      ensures forall j :: 0 <= j < i ==> from[j] < from[i]
    {
      if i < |kept| {
        KeptPosition(live, before, was, op, i);
      } else {
        forall j | 0 <= j < i ensures from[j] < n { KeptPosition(live, before, was, op, j); }
      }
    }
    forall k | IsLastOn(ops, k) && ops[k].PutOp? ensures k in from {
      if k < n {
        EveryPutKept(live, before, was, op, k);
      } else {
        assert from[|kept|] == k;
      }
    }
  }

  /** After any sequence of puts and removes, the last operation on an id decides. */
  lemma {:induction false} LastOpDecides(ops: seq<Op>)
    ensures exists from :: LeftBy(Run([], ops), ops, from)
  {
    if ops == [] {
      assert LeftBy(Run([], ops), ops, []);
    } else {
      var before, op := ops[..|ops| - 1], ops[|ops| - 1];
      LastOpDecides(before);
      var was :| LeftBy(Run([], before), before, was);
      LeftAfterStep(Run([], before), before, was, op);
      var kept := Surviving(Run([], before), was, op.ID());
      assert ops == before + [op];
      assert LeftBy(Run([], ops), ops, if op.PutOp? then kept + [|before|] else kept);
    }
  }
}
