/** The live store (clientdb/store.go and clientdb/live.go): whole reloads, events
    queued while one runs, and lookups. The reload is split where the program gives up
    its lock, so that events can arrive in between. */
module Stores {
  import opened Prelude
  import opened Text
  import opened MacAddr
  import opened BindIndexes
  import opened ClientDb
  import opened ReloadProtocol

  // ---------------------------------------------------------------------------- loads

  /** What a source answered: its lines, or a failed request, status or read. */
  datatype Fetched = Lines(lines: seq<string>) | Failed

  datatype Feed = Feed(devices: Fetched, binds: map<string, Fetched>)
  {
    function Binds(name: string): Fetched {
      if name in binds then binds[name] else Failed
    }
  }

  /** The devices on the lines; of lines with one MAC the last counts. */
  function DevicesOf(lines: seq<string>): map<string, Device> {
    DevicesFrom(ParsedDevices(lines))
  }

  function ParsedDevices(lines: seq<string>): seq<Option<Device>> {
    seq(|lines|, i requires 0 <= i < |lines| => ParseDevice(lines[i]))
  }

  function DevicesFrom(parsed: seq<Option<Device>>): map<string, Device> {
    if parsed == [] then map[]
    else
      var front, last := DevicesFrom(parsed[..|parsed| - 1]), parsed[|parsed| - 1];
      if last.Some? then front[last.value.mac := last.value] else front
  }

  lemma DevicesNext(lines: seq<string>, i: nat)
    requires i < |lines|
    ensures DevicesOf(lines[..i + 1]) == match ParseDevice(lines[i])
                                         case None => DevicesOf(lines[..i])
                                         case Some(d) => DevicesOf(lines[..i])[d.mac := d]
  {
    assert ParsedDevices(lines[..i + 1]) == ParsedDevices(lines[..i]) + [ParseDevice(lines[i])];
    assert ParsedDevices(lines[..i + 1])[..i] == ParsedDevices(lines[..i]);
  }

  /** A load may be published: every source answered and none came out empty. */
  predicate Loadable(sources: set<string>, feed: Feed) {
    && feed.devices.Lines? && DevicesOf(feed.devices.lines) != map[]
    && forall name :: name in sources ==> feed.Binds(name).Lines? && Loaded(feed.Binds(name).lines) != []
  }

  function LoadedContents(sources: set<string>, feed: Feed): Contents
    requires Loadable(sources, feed)
  {
    map name | name in sources :: Loaded(feed.Binds(name).lines)
  }

  predicate IsDeviceLine(parsed: seq<Option<Device>>, k: int, mac: string) {
    0 <= k < |parsed| && parsed[k].Some? && parsed[k].value.mac == mac
  }

  /** A device is found under a MAC exactly if a line has it, and is then that of the last such line. */
  lemma LastDeviceWins(lines: seq<string>, mac: string) returns (k: nat)
    ensures mac in DevicesOf(lines) <==> exists i :: IsDeviceLine(ParsedDevices(lines), i, mac)
    ensures mac in DevicesOf(lines) ==>
      && IsDeviceLine(ParsedDevices(lines), k, mac) && ParseDevice(lines[k]) == Some(DevicesOf(lines)[mac])
      && forall j :: k < j < |lines| ==> !IsDeviceLine(ParsedDevices(lines), j, mac)
  {
    k := LastDeviceFrom(ParsedDevices(lines), mac);
  }

  lemma {:induction false} LastDeviceFrom(parsed: seq<Option<Device>>, mac: string) returns (k: nat)
    ensures mac in DevicesFrom(parsed) <==> exists i :: IsDeviceLine(parsed, i, mac)
    ensures mac in DevicesFrom(parsed) ==>
      && IsDeviceLine(parsed, k, mac) && parsed[k] == Some(DevicesFrom(parsed)[mac])
      && forall j :: k < j < |parsed| ==> !IsDeviceLine(parsed, j, mac)
  {
    k := 0;
    if parsed != [] {
      var n := |parsed| - 1;
      k := LastDeviceFrom(parsed[..n], mac);
      assert forall i :: 0 <= i < n ==> (IsDeviceLine(parsed[..n], i, mac) <==> IsDeviceLine(parsed, i, mac));
      assert forall i :: IsDeviceLine(parsed[..n], i, mac) ==> IsDeviceLine(parsed, i, mac);
      if IsDeviceLine(parsed, n, mac) {
        k := n;
      }
    }
  }

  lemma {:induction false} LoadedSome(lines: seq<string>)
    ensures Loaded(lines) != [] <==> exists i :: 0 <= i < |lines| && ParseBind(lines[i]).Some?
  {
    if lines != [] {
      var n := |lines| - 1;
      LoadedSome(lines[..n]);
      assert lines == lines[..n] + [lines[n]];
      LoadedSnoc(lines[..n], lines[n]);
      assert forall i :: 0 <= i < n ==> lines[..n][i] == lines[i];
    }
  }

  /** A load goes through exactly if the devices and every source answered, each with at least one
      line that can be used. */
  lemma LoadableIff(sources: set<string>, feed: Feed)
    ensures Loadable(sources, feed) <==>
      && feed.devices.Lines? && (exists i :: 0 <= i < |feed.devices.lines| && ParseDevice(feed.devices.lines[i]).Some?)
      && forall name :: name in sources ==>
           && name in feed.binds && feed.binds[name].Lines?
           && exists i :: 0 <= i < |feed.binds[name].lines| && ParseBind(feed.binds[name].lines[i]).Some?
  {
    if feed.devices.Lines? {
      DevicesSome(feed.devices.lines);
    }
    forall name | name in sources && name in feed.binds && feed.binds[name].Lines?
      ensures Loaded(feed.binds[name].lines) != []
        <==> exists i :: 0 <= i < |feed.binds[name].lines| && ParseBind(feed.binds[name].lines[i]).Some?
    {
      LoadedSome(feed.binds[name].lines);
    }
  }

  lemma DevicesSome(lines: seq<string>)
    ensures DevicesOf(lines) != map[] <==> exists i :: 0 <= i < |lines| && ParseDevice(lines[i]).Some?
  {
    if i :| 0 <= i < |lines| && ParseDevice(lines[i]).Some? {
      var k := LastDeviceWins(lines, ParseDevice(lines[i]).value.mac);
      assert IsDeviceLine(ParsedDevices(lines), i, ParseDevice(lines[i]).value.mac);
    }
    if DevicesOf(lines) != map[] {
      var mac :| mac in DevicesOf(lines);
      var k := LastDeviceWins(lines, mac);
    }
  }

  method LoadDevices(source: Fetched) returns (devices: Option<map<string, Device>>)
    ensures devices == match source case Lines(lines) => Some(DevicesOf(lines)) case Failed => None
  {
    if source.Failed? {
      return None;
    }
    var lines := source.lines;
    var found := map[];
    for i := 0 to |lines|
      invariant found == DevicesOf(lines[..i])
    {
      DevicesNext(lines, i);
      var fields := Fields(lines[i]);
      if |fields| < 3 {
        continue;
      }
      var mac := Normalize(fields[1]);
      if mac == "" {
        continue;
      }
      found := found[mac := Device(IntToIP(fields[0]), mac, TrimSpace(fields[2]))];
    }
    assert lines[..|lines|] == lines;
    return Some(found);
  }

  /** What the loop of loadBinds does with one line. */
  method PutLine(index: BindIndex, line: string)
    requires index.Valid()
    modifies index
    ensures index.Valid()
    ensures index.live == match ParseBind(line)
                          case None => old(index.live)
                          case Some(b) => BindIndexes.Step(old(index.live), PutOp(b))
  {
    var fields := Fields(line);
    if |fields| < 3 {
      return;
    }
    var id := TrimSpace(fields[0]);
    var clientMac := Normalize(fields[2]);
    if id == "" || clientMac == "" {
      return;
    }
    var b := Bind(id, IntToIP(fields[1]), clientMac, "", 0);
    if |fields| >= 5 {
      var deviceMac := Normalize(fields[3]);
      b := b.(deviceMac := deviceMac, port := Atoi(TrimSpace(fields[4])).value);
    }
    var _ := index.Put(b);
  }

  method LoadBinds(source: Fetched) returns (idx: BindIndex?)
    ensures idx == null <==> source.Failed?
    ensures idx != null ==> fresh(idx) && idx.Valid() && idx.live == Loaded(source.lines)
  {
    if source.Failed? {
      return null;
    }
    var lines := source.lines;
    var index := new BindIndex();
    for i := 0 to |lines|
      invariant index.Valid() && index.live == Loaded(lines[..i])
    {
      LoadedNext(lines, i);
      PutLine(index, lines[i]);
    }
    assert lines[..|lines|] == lines;
    return index;
  }

  datatype Snapshot = Snapshot(devices: map<string, Device>, binds: map<string, BindIndex>)

  /** Indexes of different sources are different objects. */
  ghost predicate Apart(binds: map<string, BindIndex>) {
    forall n, m {:trigger binds[n], binds[m]} :: n in binds && m in binds && n != m ==> binds[n] != binds[m]
  }

  /** `contents` is what the indexes hold, each valid on its own. */
  ghost predicate Hold(binds: map<string, BindIndex>, contents: Contents)
    reads binds.Values
  {
    && contents.Keys == binds.Keys
    && (forall name {:trigger binds[name].Lists(contents[name])} :: name in binds ==> binds[name].Lists(contents[name]))
  }

  method LoadAll(sources: set<string>, feed: Feed) returns (snap: Option<Snapshot>)
    ensures snap.Some? <==> Loadable(sources, feed)
    ensures snap.Some? ==>
      && snap.value.devices == DevicesOf(feed.devices.lines)
      && (forall name :: name in snap.value.binds ==> fresh(snap.value.binds[name]))
      && Apart(snap.value.binds) && Hold(snap.value.binds, LoadedContents(sources, feed))
  {
    var devices := LoadDevices(feed.devices);
    if devices == None || |devices.value| == 0 {
      return None;
    }
    var binds: map<string, BindIndex> := map[];
    var rest := sources;
    while rest != {}
      invariant rest <= sources && binds.Keys == sources - rest
      invariant forall name :: name in binds ==>
        && fresh(binds[name]) && binds[name].Valid()
        && feed.Binds(name).Lines? && binds[name].live == Loaded(feed.Binds(name).lines) != []
      invariant Apart(binds)
    {
      var name :| name in rest;
      var idx := LoadBinds(feed.Binds(name));
      if idx == null {
        return None;
      }
      var count := idx.Count();
      if count == 0 {
        return None;
      }
      binds := binds[name := idx];
      rest := rest - {name};
    }
    return Some(Snapshot(devices.value, binds));
  }

  // --------------------------------------------------------------------------- events

  /** What applyBindEvent makes of an event, given whether the lookup found its source. */
  method Decide(ev: BindEvent, known: bool) returns (verdict: Verdict)
    ensures verdict == Judge(ev, if known then {ev.dbType} else {})
    ensures VerdictFits(ev, known, verdict)
  {
    JudgeFits(ev, if known then {ev.dbType} else {});
    if !known {
      return Rejected(UnknownSource);
    }
    var id := ev.record.id;
    if id == "" {
      return Rejected(NoID);
    }
    if ev.action == "delete" {
      return Accepted(RemoveOp(id));
    }
    if ev.action == "add" || ev.action == "update" {
      var mac := Normalize(ev.record.mac);
      if mac == "" {
        return Rejected(NoMac);
      }
      var ip := IntToIP(ev.record.ip);
      if ip == None {
        return Rejected(BadIP);
      }
      var b := Bind(id, ip, mac, "", 0);
      var deviceMac := Normalize(ev.record.deviceMac);
      if deviceMac != "" {
        b := b.(deviceMac := deviceMac, port := Atoi(ev.record.port).value);
      }
      return Accepted(PutOp(b));
    }
    return Rejected(UnknownAction);
  }

  // ---------------------------------------------------------------------------- store

  class Store {
    const sources: set<string>
    var devices: map<string, Device>
    var binds: map<string, BindIndex>
    var reloading: bool
    var pending: seq<BindEvent>
    /** What the indexes hold, source by source. */
    ghost var contents: Contents

    /** The indexes are the configured sources and hold `contents`. */
    ghost predicate Sound()
      reads this`binds, this`contents, binds.Values
    {
      && binds.Keys == sources && Apart(binds) && Hold(binds, contents)
      && NormalContents(contents)
    }

    ghost predicate Valid()
      reads this, binds.Values
    {
      Sound() && (!reloading ==> pending == [])
    }

    ghost function View(): State
      reads this
    {
      State(contents, reloading, pending)
    }

    constructor (sources: set<string>, snap: Snapshot, ghost loaded: Contents)
      requires snap.binds.Keys == sources && Apart(snap.binds)
      requires Hold(snap.binds, loaded) && NormalContents(loaded)
      ensures Valid() && this.sources == sources && devices == snap.devices
      ensures View() == Started(loaded)
    {
      this.sources := sources;
      devices, binds := snap.devices, snap.binds;
      reloading, pending := false, [];
      contents := loaded;
    }

    /** The locked section of applyBindEvent, on an index that was looked up before: one put or
        remove. An index that is no longer current takes the change too, but nobody sees it. */
    method PatchIndex(name: string, idx: BindIndex, op: Op)
      requires Sound() && idx.Valid() && (op.PutOp? ==> NormalBind(op.b))
      requires forall n :: n in binds && binds[n] == idx ==> n == name
      modifies idx, this`contents
      ensures Sound() && idx.Valid()
      ensures contents == if name in binds && binds[name] == idx then Changed(old(contents), name, op)
                          else old(contents)
    {
      assert name in binds && binds[name] == idx ==> idx.Lists(contents[name]);
      idx.Perform(op);
      if name in binds && binds[name] == idx {
        PatchedNormal(contents, name, op);
        contents := Changed(contents, name, op);
      }
      forall n | n in binds && binds[n] != idx ensures binds[n].Lists(contents[n]) {
        assert old(binds[n].Lists(contents[n]));
      }
      HoldAllBut(binds, contents, idx, idx.live);
    }

    /** The same on the current index. */
    method Patch(name: string, op: Op)
      requires Sound() && name in binds
      requires op.PutOp? ==> NormalBind(op.b)
      modifies binds[name], this`contents
      ensures Sound() && contents == Changed(old(contents), name, op)
    {
      assert binds[name].Lists(contents[name]);
      PatchIndex(name, binds[name], op);
    }

    /** applyBindEvent: the lookup in the current snapshot, then the patch. */
    method ApplyNow(ev: BindEvent) returns (error: Option<EventError>)
      requires Sound()
      modifies binds.Values, this`contents
      ensures Sound() && contents == Applied(old(contents), ev)
      ensures EventDone(old(contents), ev, contents, error)
    {
      EventIsDone(contents, ev);
      var verdict := Decide(ev, ev.dbType in binds);
      match verdict {
        case Rejected(e) =>
          return Some(e);
        case Accepted(op) =>
          AcceptedNormal(ev, contents.Keys);
          assert binds[ev.dbType] in binds.Values;
          Patch(ev.dbType, op);
          return None;
      }
    }

    /** A live event: queued while a reload runs, applied at once otherwise. */
    method ApplyBindEvent(ev: BindEvent) returns (error: Option<EventError>)
      requires Valid()
      modifies this`pending, this`contents, binds.Values
      ensures Valid()
      ensures View() == Next(old(View()), Event(ev))
      ensures if old(reloading) then error == None && contents == old(contents)
              else EventDone(old(contents), ev, contents, error)
    {
      if reloading {
        pending := pending + [ev];
        return None;
      }
      error := ApplyNow(ev);
    }

    method BeginReload()
      requires Valid()
      modifies this`reloading
      ensures Valid() && View() == Next(old(View()), Begin)
    {
      reloading := true;
    }

    /** The swap of the snapshot. */
    method StoreSnapshot(snap: Snapshot, ghost loaded: Contents)
      requires snap.binds.Keys == sources && Apart(snap.binds)
      requires Hold(snap.binds, loaded) && NormalContents(loaded)
      modifies this`devices, this`binds, this`contents
      ensures Sound() && devices == snap.devices && binds == snap.binds && contents == loaded
    {
      devices, binds, contents := snap.devices, snap.binds, loaded;
    }

    /** The loads of a reload and, if they all came in, the swap of the snapshot. */
    method LoadAndPublish(feed: Feed) returns (ok: bool)
      requires Valid() && reloading
      modifies this`devices, this`binds, this`contents
      ensures Valid() && ok == Loadable(sources, feed)
      ensures !ok ==> View() == old(View()) && devices == old(devices) && binds == old(binds)
      ensures ok ==> View() == Next(old(View()), Publish(LoadedContents(sources, feed)))
      ensures ok ==> GoodLoad(sources, LoadedContents(sources, feed))
      ensures ok ==> devices == DevicesOf(feed.devices.lines) != map[]
      ensures ok ==> forall name :: name in binds ==> fresh(binds[name])
    {
      var snap := LoadAll(sources, feed);
      if snap == None {
        return false;
      }
      LoadedContentsNormal(sources, feed);
      StoreSnapshot(snap.value, LoadedContents(sources, feed));
      return true;
    }

    method Replay(queue: seq<BindEvent>)
      requires Sound()
      modifies binds.Values, this`contents
      ensures Sound() && contents == Replayed(old(contents), queue)
    {
      for i := 0 to |queue|
        invariant Sound() && contents == Replayed(old(contents), queue[..i])
      {
        assert queue[..i + 1][..i] == queue[..i];
        var _ := ApplyNow(queue[i]);
      }
      assert queue[..|queue|] == queue;
    }

    /** The deferred end of a reload: take the queue, then replay it in order. */
    method FinishReload()
      requires Valid() && reloading
      modifies this`pending, this`reloading, this`contents, binds.Values
      ensures Valid() && View() == Next(old(View()), Finish)
    {
      var queue := pending;
      pending := [];
      reloading := false;
      Replay(queue);
    }

    method GetDeviceByMac(mac: string) returns (d: Option<Device>)
      requires Valid()
      ensures d == if Canonical(mac) in devices then Some(devices[Canonical(mac)]) else None
    {
      var key := Normalize(mac);
      d := if key in devices then Some(devices[key]) else None;
    }

    method FindBinds(dbName: string, mac: string, deviceMac: string, port: string) returns (found: seq<Bind>)
      requires Valid()
      ensures if dbName in contents then FoundBy(found, contents[dbName], mac, deviceMac, port) else found == []
    {
      if dbName !in binds {
        return [];
      }
      var idx := binds[dbName];
      assert idx.Lists(contents[dbName]);
      LookupIsScan(idx.live, mac, deviceMac, port);
      ScanFinds(idx.live, mac, deviceMac, port);
      var m := Normalize(mac);
      var d := Normalize(deviceMac);
      var p := TrimSpace(port);
      if Atoi(p).ok {
        p := Itoa(Atoi(p).value);
      }
      if m != "" && d != "" && p != "" {
        found := Entry(idx.byMacDevicePort, m + "|" + d + "|" + p);
      } else if m != "" && d != "" {
        found := Entry(idx.byMacDevice, m + "|" + d);
      } else if m != "" {
        found := Entry(idx.byMac, m);
      } else if d != "" && p != "" {
        found := Entry(idx.byDevicePort, d + "|" + p);
      } else {
        found := [];
      }
    }

    method GetBindByID(dbName: string, id: string) returns (b: Option<Bind>)
      requires Valid()
      ensures b.Some? <==> dbName in contents && HasID(contents[dbName], id)
      ensures b.Some? ==> b.value in contents[dbName] && b.value.id == id
    {
      if dbName !in binds {
        return None;
      }
      var idx := binds[dbName];
      assert idx.Lists(contents[dbName]);
      TabledAt(idx.byID, idx.live, id);
      b := if id in idx.byID then Some(idx.byID[id]) else None;
    }
  }

  function Changed(c: Contents, name: string, op: Op): Contents {
    if name in c then c[name := Step(c[name], op)] else c
  }

  /** What the indexes hold, all but idx being known. */
  lemma HoldAllBut(binds: map<string, BindIndex>, c: Contents, idx: BindIndex, live: seq<Bind>)
    requires c.Keys == binds.Keys && idx.Lists(live)
    requires forall n :: n in binds ==> if binds[n] == idx then c[n] == live else binds[n].Lists(c[n])
    ensures Hold(binds, c)
  {
  }

  lemma PatchedNormal(c: Contents, name: string, op: Op)
    requires NormalContents(c) && (op.PutOp? ==> NormalBind(op.b))
    ensures NormalContents(Changed(c, name, op))
  {
    if name in c {
      StepNormal(c[name], op);
    }
  }

  lemma LoadedContentsNormal(sources: set<string>, feed: Feed)
    requires Loadable(sources, feed)
    ensures NormalContents(LoadedContents(sources, feed)) && LoadedContents(sources, feed).Keys == sources
  {
    forall name | name in sources ensures AllNormal(Loaded(feed.Binds(name).lines)) {
      LoadedNormal(feed.Binds(name).lines);
    }
  }

  /** Starting up: there is a store if the devices have a URL, the first load succeeds and so does
      the subscription to live events, if one is configured. */
  method New(devicesURL: string, sources: set<string>, feed: Feed, subscribed: bool) returns (s: Store?)
    ensures s != null <==> devicesURL != "" && Loadable(sources, feed) && subscribed
    ensures s != null ==> fresh(s) && s.Valid() && s.sources == sources
    ensures s != null ==> s.View() == Started(LoadedContents(sources, feed))
    ensures s != null ==> GoodLoad(sources, LoadedContents(sources, feed))
  {
    if devicesURL == "" {
      return null;
    }
    var snap := LoadAll(sources, feed);
    if snap == None || !subscribed {
      return null;
    }
    LoadedContentsNormal(sources, feed);
    s := new Store(sources, snap.value, LoadedContents(sources, feed));
  }
}
