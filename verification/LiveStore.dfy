/** The store's operations cut where they release their locks (clientdb/live.go:125-172,
    clientdb/store.go:115-134): each piece is one step of FineReload, on the real maps. */
module LiveStore {
  import opened Prelude
  import opened BindIndexes
  import opened ClientDb
  import opened Stores
  import opened FineReload
  import ReloadProtocol

  /** The lookup of applyBindEvent; null stands for a source that is not there. */
  function Current(binds: map<string, BindIndex>, name: string): BindIndex? {
    if name in binds then binds[name] else null
  }

  ghost predicate Outdated(idx: BindIndex?, binds: map<string, BindIndex>) {
    forall n :: n in binds ==> binds[n] != idx
  }

  ghost predicate Among(binds: map<string, BindIndex>, indexes: set<BindIndex>) {
    forall n :: n in binds ==> binds[n] in indexes
  }

  /** What a goroutine has looked up, if it has, is the index of its event's source, or was before
      the last publication; it is one of `indexes` in any case. */
  ghost predicate LookedUp(s: Fine, h: Held, idx: BindIndex?, binds: map<string, BindIndex>, indexes: set<BindIndex>) {
    && h.ticket < |s.accepted|
    && match h.seen
       case None => true
       case Some(n) =>
         && n <= s.snapshot && (idx != null ==> idx in indexes)
         && if n == s.snapshot then idx == Current(binds, s.accepted[h.ticket].dbType) else Outdated(idx, binds)
  }

  /** What the goroutines have done, and the index that each of those between their lookup and
      their patch holds on to, which a reload may have replaced since. */
  datatype Log = Log(fine: Fine, looked: seq<BindIndex?>)

  /** What the store and the reload hold; `indexes` are all that were ever current. */
  datatype Shown = Shown(contents: Contents, reloading: bool, pending: seq<BindEvent>, queue: seq<BindEvent>,
                         binds: map<string, BindIndex>, indexes: set<BindIndex>)

  ghost predicate AllLookedUp(log: Log, v: Shown) {
    && |log.looked| == |log.fine.held|
    && forall i {:trigger log.looked[i]} :: 0 <= i < |log.looked| ==>
         LookedUp(log.fine, log.fine.held[i], log.looked[i], v.binds, v.indexes)
  }

  /** The log agrees with what is there. */
  ghost predicate Logged(log: Log, v: Shown) {
    match v
    case Shown(contents, reloading, pending, queue, binds, indexes) =>
      && contents.Keys == binds.Keys && Apart(binds) && Among(binds, indexes) && AllLookedUp(log, v)
      && log.fine.contents == contents && log.fine.reloading == reloading
      && Known(log.fine.accepted, log.fine.pending) && pending == EventsOf(log.fine.accepted, log.fine.pending)
      && Known(log.fine.accepted, log.fine.replay) && queue == EventsOf(log.fine.accepted, log.fine.replay)
  }

  /** The event that goroutine i is at. */
  function EventAt(s: Fine, i: nat): Option<BindEvent> {
    if i < |s.held| && s.held[i].ticket < |s.accepted| then Some(s.accepted[s.held[i].ticket]) else None
  }

  lemma TakenLogged(log: Log, v: Shown, ev: BindEvent)
    requires Logged(log, v)
    ensures Logged(Log(Taken(log.fine, ev), if v.reloading then log.looked else log.looked + [null]),
                   v.(pending := if v.reloading then v.pending + [ev] else v.pending))
  {
    EventsGrow(log.fine.accepted, ev, log.fine.pending);
    EventsGrow(log.fine.accepted, ev, log.fine.replay);
  }

  function Looking(s: Fine, i: nat): Fine {
    if i < |s.held| then s.(held := s.held[i := s.held[i].(seen := Some(s.snapshot))]) else s
  }

  lemma LookLogged(log: Log, v: Shown, i: nat, ev: BindEvent)
    requires Logged(log, v) && EventAt(log.fine, i) == Some(ev) && log.fine.held[i].seen == None
    ensures Logged(Log(Looking(log.fine, i), log.looked[i := Current(v.binds, ev.dbType)]), v)
    ensures forall sources :: Looking(log.fine, i) == Next(sources, log.fine, Look(i))
  {
  }

  /** What an event does to the current contents through this index. */
  function Outcome(c: Contents, ev: BindEvent, idx: BindIndex?, binds: map<string, BindIndex>): Contents {
    match Judge(ev, if idx == null then {} else {ev.dbType})
    case Rejected(_) => c
    case Accepted(op) => if ev.dbType in binds && binds[ev.dbType] == idx then Changed(c, ev.dbType, op) else c
  }

  /** Goroutine i may patch the index it holds: it is the one of its source, or no longer one at all,
      and the contents change only in the first case. */
  lemma PatchLogged(log: Log, v: Shown, i: nat, ev: BindEvent)
    requires Logged(log, v) && EventAt(log.fine, i) == Some(ev) && log.fine.held[i].seen.Some?
    ensures var idx := log.looked[i];
      && (idx != null ==> idx in v.indexes)
      && (forall n :: n in v.binds && v.binds[n] == idx ==> n == ev.dbType)
      && Logged(Log(Patched(log.fine, i), Without(log.looked, i)),
                v.(contents := Outcome(v.contents, ev, idx, v.binds)))
  {
    var h := log.fine.held[i];
    assert LookedUp(log.fine, h, log.looked[i], v.binds, v.indexes);
    PatchOutcome(log, v, i, ev);
    RestLookedUp(log, v, i);
  }

  /** The event is done where the index is the current one of its source. */
  lemma OutcomeDone(c: Contents, ev: BindEvent, idx: BindIndex?, binds: map<string, BindIndex>)
    requires c.Keys == binds.Keys && (forall n :: n in binds && binds[n] == idx ==> n == ev.dbType)
    ensures ErrorFits(ev, idx != null, ErrorOf(Judge(ev, if idx == null then {} else {ev.dbType})))
    ensures Performed(c, ev, idx, binds, Outcome(c, ev, idx, binds),
                      ErrorOf(Judge(ev, if idx == null then {} else {ev.dbType})))
  {
    JudgeFits(ev, if idx == null then {} else {ev.dbType});
    EventIsDone(c, ev);
  }

  ghost predicate Performed(c: Contents, ev: BindEvent, idx: BindIndex?, binds: map<string, BindIndex>, after: Contents,
                            error: Option<EventError>) {
    if idx == Current(binds, ev.dbType) then EventDone(c, ev, after, error) else after == c
  }

  lemma PatchOutcome(log: Log, v: Shown, i: nat, ev: BindEvent)
    requires Logged(log, v) && EventAt(log.fine, i) == Some(ev) && log.fine.held[i].seen.Some?
    ensures Patched(log.fine, i).contents == Outcome(v.contents, ev, log.looked[i], v.binds)
    ensures Outcome(v.contents, ev, log.looked[i], v.binds).Keys == v.contents.Keys
  {
    assert LookedUp(log.fine, log.fine.held[i], log.looked[i], v.binds, v.indexes);
  }

  lemma RestLookedUp(log: Log, v: Shown, i: nat)
    requires AllLookedUp(log, v) && EventAt(log.fine, i).Some? && log.fine.held[i].seen.Some?
    ensures AllLookedUp(Log(Patched(log.fine, i), Without(log.looked, i)), v)
  {
  }

  function Republished(s: Fine, load: Contents): Fine {
    s.(contents := load, snapshot := s.snapshot + 1)
  }

  /** After a publication, what was looked up before is no longer current. */
  lemma PublishLogged(log: Log, v: Shown, load: Contents, newer: map<string, BindIndex>)
    requires Logged(log, v) && load.Keys == newer.Keys && Apart(newer)
    requires forall n :: n in newer ==> newer[n] !in v.indexes
    ensures Logged(Log(Republished(log.fine, load), log.looked),
                   v.(contents := load, binds := newer, indexes := v.indexes + newer.Values))
  {
  }

  function Drained(s: Fine): Fine {
    s.(replay := s.pending, pending := [], reloading := false)
  }

  lemma DrainLogged(log: Log, v: Shown)
    requires Logged(log, v)
    ensures Logged(Log(Drained(log.fine), log.looked), v.(pending := [], reloading := false, queue := v.pending))
  {
  }

  function Replaying(s: Fine, contents: Contents): Fine
    requires s.replay != []
  {
    s.(contents := contents, replay := s.replay[1..], done := s.done + [s.replay[0]])
  }

  /** The head of the drained queue is the event that the replay takes next. */
  lemma ReplayLogged(sources: set<string>, log: Log, v: Shown)
    requires Logged(log, v) && v.queue != []
    ensures Enabled(sources, log.fine, ReplayNext)
    ensures Replaying(log.fine, Applied(v.contents, v.queue[0])) == Next(sources, log.fine, ReplayNext)
    ensures Logged(Log(Replaying(log.fine, Applied(v.contents, v.queue[0])), log.looked),
                   v.(contents := Applied(v.contents, v.queue[0]), queue := v.queue[1..]))
  {
    var replay := log.fine.replay;
    assert replay[0] in replay;
    assert forall t :: t in replay[1..] ==> t in replay;
  }

  ghost predicate AllValid(indexes: set<BindIndex>)
    reads indexes
  {
    forall idx {:trigger idx.Valid()} :: idx in indexes ==> idx.Valid()
  }

  lemma HoldValid(binds: map<string, BindIndex>, c: Contents)
    requires Hold(binds, c)
    ensures AllValid(binds.Values)
  {
    forall idx | idx in binds.Values ensures idx.Valid() {
      var n :| n in binds && binds[n] == idx;
      assert idx.Lists(c[n]);
    }
  }

  lemma AllValidBut(indexes: set<BindIndex>, some: set<BindIndex>)
    requires forall idx :: idx in some ==> idx.Valid()
    requires forall idx :: idx in indexes && idx !in some ==> idx.Valid()
    ensures AllValid(indexes)
  {
  }

  lemma MoreValid(indexes: set<BindIndex>, binds: map<string, BindIndex>, c: Contents)
    requires AllValid(indexes) && Hold(binds, c)
    ensures AllValid(indexes + binds.Values) && Among(binds, indexes + binds.Values)
  {
    HoldValid(binds, c);
  }

  /** A store under use by any number of goroutines. */
  class Live {
    const store: Store
    /** The drained queue, as far as the reload still has to replay it. */
    var queue: seq<BindEvent>
    ghost var indexes: set<BindIndex>
    ghost var log: Log

    /** The store is sound, and so is every index that somebody may still hold. */
    ghost predicate Sound()
      reads this`indexes, store, store.binds.Values, indexes
    {
      store.Valid() && Among(store.binds, indexes) && AllValid(indexes)
    }

    ghost function Show(): Shown
      reads this`queue, this`indexes, store
    {
      Shown(store.contents, store.reloading, store.pending, queue, store.binds, indexes)
    }

    ghost predicate Valid()
      reads this, store, store.binds.Values, indexes
    {
      Sound() && Logged(log, Show())
    }

    constructor (store: Store)
      requires store.Valid() && !store.reloading
      ensures Valid() && this.store == store && log == Log(Started(store.contents), [])
    {
      HoldValid(store.binds, store.contents);
      this.store := store;
      queue, indexes := [], store.binds.Values;
      log := Log(Started(store.contents), []);
    }

    // The pieces of work on the maps.

    /** The patch, on any index ever looked up. */
    method PatchAny(ev: BindEvent, idx: BindIndex?) returns (error: Option<EventError>)
      requires Sound() && (idx != null ==> idx in indexes)
      requires forall n :: n in store.binds && store.binds[n] == idx ==> n == ev.dbType
      modifies store`contents, if idx == null then {} else {idx}
      ensures Sound() && store.contents == Outcome(old(store.contents), ev, idx, store.binds)
      ensures ErrorFits(ev, idx != null, error)
      ensures Performed(old(store.contents), ev, idx, store.binds, store.contents, error)
    {
      OutcomeDone(store.contents, ev, idx, store.binds);
      var verdict := Decide(ev, idx != null);
      match verdict {
        case Rejected(e) =>
          return Some(e);
        case Accepted(op) =>
          AcceptedNormal(ev, {ev.dbType});
          store.PatchIndex(ev.dbType, idx, op);
          AllValidBut(indexes, {idx});
          return None;
      }
    }

    method ApplyCurrent(ev: BindEvent)
      requires Sound()
      modifies store`contents, store.binds.Values
      ensures Sound() && store.contents == Applied(old(store.contents), ev)
    {
      var _ := store.ApplyNow(ev);
      HoldValid(store.binds, store.contents);
      AllValidBut(indexes, store.binds.Values);
    }

    method Swap(snap: Snapshot, ghost loaded: Contents)
      requires Sound() && snap.binds.Keys == store.sources && Apart(snap.binds)
      requires Hold(snap.binds, loaded) && NormalContents(loaded)
      modifies this`indexes, store`devices, store`binds, store`contents
      ensures Sound()
      ensures Show() == old(Show()).(contents := loaded, binds := snap.binds,
                                     indexes := old(indexes) + snap.binds.Values)
    {
      MoreValid(indexes, snap.binds, loaded);
      indexes := indexes + snap.binds.Values;
      store.StoreSnapshot(snap, loaded);
      assert AllValid(indexes);
    }

    // The steps.

    /** ApplyBindEvent up to its unlock: whether the event is let past the queue. */
    method Accept(ev: BindEvent) returns (direct: bool)
      requires Valid()
      modifies this`log, store`pending
      ensures Valid() && log.fine == Taken(old(log.fine), ev) && direct == !store.reloading
    {
      TakenLogged(log, Show(), ev);
      direct := !store.reloading;
      log := Log(Taken(log.fine, ev), if store.reloading then log.looked else log.looked + [null]);
      if store.reloading {
        store.pending := store.pending + [ev];
      }
    }

    /** applyBindEvent up to its lookup, by the i-th of the goroutines under way. */
    method LookUp(ghost i: nat, ev: BindEvent) returns (idx: BindIndex?)
      requires Valid() && EventAt(log.fine, i) == Some(ev) && log.fine.held[i].seen == None
      modifies this`log
      ensures Valid() && log == Log(Next(store.sources, old(log.fine), Look(i)), old(log.looked)[i := idx])
    {
      LookLogged(log, Show(), i, ev);
      idx := Current(store.binds, ev.dbType);
      log := Log(Looking(log.fine, i), log.looked[i := idx]);
    }

    /** The rest of applyBindEvent, on the index looked up then, be it current or not. */
    method Apply(ghost i: nat, ev: BindEvent, idx: BindIndex?) returns (error: Option<EventError>)
      requires Valid() && EventAt(log.fine, i) == Some(ev) && log.fine.held[i].seen.Some? && idx == log.looked[i]
      modifies this`log, store`contents, if idx == null then {} else {idx}
      ensures Valid() && log == Log(Patched(old(log.fine), i), Without(old(log.looked), i))
      ensures ErrorFits(ev, idx != null, error)
      ensures Performed(old(store.contents), ev, idx, store.binds, store.contents, error)
    {
      PatchLogged(log, Show(), i, ev);
      log := Log(Patched(log.fine, i), Without(log.looked, i));
      error := PatchAny(ev, idx);
    }

    method BeginReload()
      requires Valid() && !store.reloading && queue == []
      modifies this`log, store`reloading
      ensures Valid() && Enabled(store.sources, old(log.fine), Begin)
      ensures log == Log(Next(store.sources, old(log.fine), Begin), old(log.looked))
    {
      log := log.(fine := log.fine.(reloading := true));
      store.BeginReload();
    }

    /** The swap of the snapshot; the indexes that it replaces live on with those who hold them. */
    method PublishSnapshot(snap: Snapshot, ghost loaded: Contents)
      requires Valid() && store.reloading && snap.binds.Keys == store.sources && Apart(snap.binds)
      requires Hold(snap.binds, loaded) && NormalContents(loaded) && ReloadProtocol.GoodLoad(store.sources, loaded)
      requires forall n :: n in snap.binds ==> snap.binds[n] !in indexes
      modifies this`log, this`indexes, store`devices, store`binds, store`contents
      ensures Valid() && Enabled(store.sources, old(log.fine), Publish(loaded))
      ensures log == Log(Next(store.sources, old(log.fine), Publish(loaded)), old(log.looked))
    {
      ghost var before := Show();
      Swap(snap, loaded);
      PublishLogged(log, before, loaded, snap.binds);
      log := Log(Republished(log.fine, loaded), log.looked);
    }

    /** The loads of a reload, which touch nothing, and the swap if they are complete. */
    method LoadAndPublish(feed: Feed) returns (ok: bool)
      requires Valid() && store.reloading
      modifies this`log, this`indexes, store`devices, store`binds, store`contents
      ensures Valid() && ok == Loadable(store.sources, feed)
      ensures !ok ==> log == old(log)
      ensures ok ==> var publish := Publish(LoadedContents(store.sources, feed));
        && Enabled(store.sources, old(log.fine), publish)
        && log == Log(Next(store.sources, old(log.fine), publish), old(log.looked))
    {
      var snap := LoadAll(store.sources, feed);
      if snap == None {
        return false;
      }
      LoadedContentsNormal(store.sources, feed);
      PublishSnapshot(snap.value, LoadedContents(store.sources, feed));
      return true;
    }

    /** The first locked part of the deferred end of a reload. */
    method DrainQueue()
      requires Valid() && store.reloading && queue == []
      modifies this`log, this`queue, store`pending, store`reloading
      ensures Valid() && log == Log(Next(store.sources, old(log.fine), Drain), old(log.looked))
    {
      DrainLogged(log, Show());
      queue := store.pending;
      store.pending := [];
      store.reloading := false;
      log := Log(Drained(log.fine), log.looked);
    }

    /** One turn of its replay loop. */
    method ReplayOne()
      requires Valid() && queue != []
      modifies this`log, this`queue, store`contents, store.binds.Values
      ensures Valid() && Enabled(store.sources, old(log.fine), ReplayNext)
      ensures log == Log(Next(store.sources, old(log.fine), ReplayNext), old(log.looked))
    {
      ReplayLogged(store.sources, log, Show());
      var ev := queue[0];
      log := Log(Replaying(log.fine, Applied(store.contents, ev)), log.looked);
      queue := queue[1..];
      ApplyCurrent(ev);
    }
  }
}
