/** The HTTP sources that answer auth requests (api/api.go): the least loaded alive one is asked,
    and a failing one rests for a while. */
module AuthSources {
  import opened Prelude

  type Time = int

  datatype Source = Source(alive: bool, requests: nat, disabledAt: Time)

  type Table = map<string, Source>

  /** What happens under the lock, each with the time on the clock then. */
  datatype Event =
    | Chosen(addr: string, at: Time)
    | NoneAlive(at: Time)
    | Failed(addr: string, at: Time)
    | Tick(at: Time)

  predicate Least(table: Table, addr: string) {
    && addr in table && table[addr].alive
    && forall other :: other in table && table[other].alive ==> table[addr].requests <= table[other].requests
  }

  predicate Enabled(table: Table, e: Event) {
    match e
    case Chosen(addr, _) => Least(table, addr)
    case NoneAlive(_) => forall addr :: addr in table ==> !table[addr].alive
    case Failed(addr, _) => addr in table
    case Tick(_) => true
  }

  function Revived(s: Source, timeout: Time, now: Time): Source {
    if !s.alive && now - s.disabledAt > timeout then s.(alive := true) else s
  }

  function Next(timeout: Time, table: Table, e: Event): Table
    requires Enabled(table, e)
  {
    match e
    case Chosen(addr, _) => table[addr := table[addr].(requests := table[addr].requests + 1)]
    case NoneAlive(_) => table
    case Failed(addr, at) => table[addr := table[addr].(alive := false, disabledAt := at)]
    case Tick(at) => map addr | addr in table :: Revived(table[addr], timeout, at)
  }

  function Started(addresses: set<string>): Table {
    map addr | addr in addresses :: Source(true, 0, 0)
  }

  /** Every event happened when it could, at its own time or later than the one before. */
  ghost predicate Legal(timeout: Time, addresses: set<string>, trace: seq<Event>)
    decreases |trace|, 0
  {
    trace != [] ==>
      var n := |trace| - 1;
      && Legal(timeout, addresses, trace[..n])
      && Enabled(After(timeout, addresses, trace[..n]), trace[n])
      && (n > 0 ==> trace[n - 1].at <= trace[n].at)
  }

  ghost function After(timeout: Time, addresses: set<string>, trace: seq<Event>): Table
    requires Legal(timeout, addresses, trace)
    decreases |trace|, 1
  {
    if trace == [] then Started(addresses)
    else
      var n := |trace| - 1;
      Next(timeout, After(timeout, addresses, trace[..n]), trace[n])
  }

  lemma {:induction false} SameAddresses(timeout: Time, addresses: set<string>, trace: seq<Event>)
    requires Legal(timeout, addresses, trace)
    ensures After(timeout, addresses, trace).Keys == addresses
  {
    if trace != [] {
      SameAddresses(timeout, addresses, trace[..|trace| - 1]);
    }
  }

  // -------------------------------------------------------------------------- balance

  ghost predicate NeverFailed(trace: seq<Event>, addr: string) {
    forall e :: e in trace && e.Failed? ==> e.addr != addr
  }

  lemma {:induction false} StillAlive(timeout: Time, addresses: set<string>, trace: seq<Event>, addr: string)
    requires Legal(timeout, addresses, trace) && addr in addresses && NeverFailed(trace, addr)
    ensures addr in After(timeout, addresses, trace) && After(timeout, addresses, trace)[addr].alive
  {
    if trace != [] {
      StillAlive(timeout, addresses, trace[..|trace| - 1], addr);
    }
  }

  /** Two sources that never failed have been asked equally often, give or take one. */
  lemma {:induction false} Balanced(timeout: Time, addresses: set<string>, trace: seq<Event>, a: string, b: string)
    requires Legal(timeout, addresses, trace) && a in addresses && b in addresses
    requires NeverFailed(trace, a) && NeverFailed(trace, b)
    ensures a in After(timeout, addresses, trace) && b in After(timeout, addresses, trace)
    ensures -1 <= After(timeout, addresses, trace)[a].requests - After(timeout, addresses, trace)[b].requests <= 1
  {
    if trace != [] {
      var before := trace[..|trace| - 1];
      StillAlive(timeout, addresses, before, a);
      StillAlive(timeout, addresses, before, b);
      Balanced(timeout, addresses, before, a, b);
    }
  }

  // --------------------------------------------------------------------------- totals

  function Choices(trace: seq<Event>, addr: string): nat {
    if trace == [] then 0
    else
      var e := trace[|trace| - 1];
      Choices(trace[..|trace| - 1], addr) + if e.Chosen? && e.addr == addr then 1 else 0
  }

  /** The request counter of a source is the number of times it was chosen. */
  lemma {:induction false} RequestsAreChoices(timeout: Time, addresses: set<string>, trace: seq<Event>, addr: string)
    requires Legal(timeout, addresses, trace) && addr in addresses
    ensures addr in After(timeout, addresses, trace)
    ensures After(timeout, addresses, trace)[addr].requests == Choices(trace, addr)
  {
    if trace != [] {
      RequestsAreChoices(timeout, addresses, trace[..|trace| - 1], addr);
    }
  }

  function AllChoices(trace: seq<Event>): nat {
    if trace == [] then 0 else AllChoices(trace[..|trace| - 1]) + if trace[|trace| - 1].Chosen? then 1 else 0
  }

  function Total(order: seq<string>, table: Table): nat {
    if order == [] then 0
    else
      var addr := order[|order| - 1];
      Total(order[..|order| - 1], table) + if addr in table then table[addr].requests else 0
  }

  /** Each of these addresses once, in some order. */
  ghost predicate Lists(order: seq<string>, addresses: set<string>) {
    && (forall addr :: addr in order <==> addr in addresses)
    && (forall i, j {:trigger order[i], order[j]} :: 0 <= i < j < |order| ==> order[i] != order[j])
  }

  lemma {:induction false} TotalSame(order: seq<string>, t: Table, u: Table)
    requires t.Keys == u.Keys && forall addr :: addr in t ==> t[addr].requests == u[addr].requests
    ensures Total(order, t) == Total(order, u)
  {
    if order != [] {
      TotalSame(order[..|order| - 1], t, u);
    }
  }

  lemma {:induction false} TotalBump(order: seq<string>, t: Table, addr: string)
    requires addr in t
    requires forall i, j {:trigger order[i], order[j]} :: 0 <= i < j < |order| ==> order[i] != order[j]
    ensures Total(order, t[addr := t[addr].(requests := t[addr].requests + 1)])
         == Total(order, t) + if addr in order then 1 else 0
  {
    if order != [] {
      var n := |order| - 1;
      assert order == order[..n] + [order[n]];
      TotalBump(order[..n], t, addr);
    }
  }

  /** However the sources are listed, their counters add up to the choices made. */
  lemma {:induction false} TotalIsChoices(timeout: Time, addresses: set<string>, trace: seq<Event>, order: seq<string>)
    requires Legal(timeout, addresses, trace) && Lists(order, addresses)
    ensures Total(order, After(timeout, addresses, trace)) == AllChoices(trace)
  {
    if trace == [] {
      NothingYet(order, addresses);
    } else {
      var n := |trace| - 1;
      var before, e := After(timeout, addresses, trace[..n]), trace[n];
      SameAddresses(timeout, addresses, trace[..n]);
      TotalIsChoices(timeout, addresses, trace[..n], order);
      if e.Chosen? {
        TotalBump(order, before, e.addr);
      } else {
        TotalSame(order, before, Next(timeout, before, e));
      }
    }
  }

  lemma {:induction false} NothingYet(order: seq<string>, addresses: set<string>)
    ensures Total(order, Started(addresses)) == 0
  {
    if order != [] {
      NothingYet(order[..|order| - 1], addresses);
    }
  }

  // ----------------------------------------------------------------------- quarantine

  lemma LegalPrefix(timeout: Time, addresses: set<string>, trace: seq<Event>, n: nat)
    requires Legal(timeout, addresses, trace) && n <= |trace|
    ensures Legal(timeout, addresses, trace[..n])
    decreases |trace|
  {
    if n == |trace| {
      assert trace[..n] == trace;
    } else {
      assert trace[..|trace| - 1][..n] == trace[..n];
      LegalPrefix(timeout, addresses, trace[..|trace| - 1], n);
    }
  }

  /** The source rests since then or later, or the rest is over. */
  ghost predicate Resting(timeout: Time, table: Table, addr: string, since: Time, now: Time) {
    addr in table && ((!table[addr].alive && table[addr].disabledAt >= since) || now > since + timeout)
  }

  lemma RestStep(timeout: Time, table: Table, e: Event, addr: string, since: Time, now: Time)
    requires Enabled(table, e) && Resting(timeout, table, addr, since, now) && since <= now <= e.at
    ensures Resting(timeout, Next(timeout, table, e), addr, since, e.at)
  {
  }

  lemma {:induction false} RestsUntil(timeout: Time, addresses: set<string>, trace: seq<Event>, i: nat)
    requires Legal(timeout, addresses, trace) && i < |trace| && trace[i].Failed?
    ensures trace[i].at <= trace[|trace| - 1].at
    ensures Resting(timeout, After(timeout, addresses, trace), trace[i].addr, trace[i].at, trace[|trace| - 1].at)
  {
    var n := |trace| - 1;
    if i < n {
      RestsUntil(timeout, addresses, trace[..n], i);
      RestStep(timeout, After(timeout, addresses, trace[..n]), trace[n], trace[i].addr, trace[i].at, trace[n - 1].at);
    }
  }

  /** A source that failed at time t is not asked again until later than t + timeout. */
  lemma Quarantine(timeout: Time, addresses: set<string>, trace: seq<Event>, i: nat, j: nat)
    requires Legal(timeout, addresses, trace) && i < j < |trace|
    requires trace[i].Failed? && trace[j].Chosen? && trace[i].addr == trace[j].addr
    ensures trace[j].at > trace[i].at + timeout
  {
    LegalPrefix(timeout, addresses, trace, j + 1);
    assert trace[..j + 1][..j] == trace[..j];
    RestsUntil(timeout, addresses, trace[..j], i);
  }

  /** The last failure of this source. */
  ghost predicate IsLastFailure(trace: seq<Event>, addr: string, i: nat) {
    && i < |trace| && trace[i].Failed? && trace[i].addr == addr
    && forall j {:trigger trace[j]} :: i < j < |trace| && trace[j].Failed? ==> trace[j].addr != addr
  }

  predicate Revives(trace: seq<Event>, i: nat, j: nat, timeout: Time) {
    i < j < |trace| && trace[j].Tick? && trace[j].at - trace[i].at > timeout
  }

  /** Some tick since then came later than the timeout. */
  ghost predicate RestOver(trace: seq<Event>, i: nat, timeout: Time) {
    exists j: nat :: Revives(trace, i, j, timeout)
  }

  lemma RestOverNext(trace: seq<Event>, i: nat, timeout: Time)
    requires i < |trace| - 1
    ensures RestOver(trace, i, timeout)
       <==> RestOver(trace[..|trace| - 1], i, timeout) || Revives(trace, i, |trace| - 1, timeout)
  {
    var before := trace[..|trace| - 1];
    if j: nat :| Revives(before, i, j, timeout) {
      assert Revives(trace, i, j, timeout);
    }
    if j: nat :| Revives(trace, i, j, timeout) && j < |trace| - 1 {
      assert Revives(before, i, j, timeout);
    }
  }

  /** The other half: after its last failure a source rests exactly until the first tick later than
      the timeout, and is alive from then on. */
  lemma {:induction false} RevivedIff(timeout: Time, addresses: set<string>, trace: seq<Event>, addr: string, i: nat)
    requires Legal(timeout, addresses, trace) && IsLastFailure(trace, addr, i)
    ensures addr in After(timeout, addresses, trace) && After(timeout, addresses, trace)[addr].disabledAt == trace[i].at
    ensures After(timeout, addresses, trace)[addr].alive <==> RestOver(trace, i, timeout)
  {
    var n := |trace| - 1;
    if i < n {
      RevivedIff(timeout, addresses, trace[..n], addr, i);
      RestOverNext(trace, i, timeout);
    }
  }

  // --------------------------------------------------------------------------- the API

  datatype Posted = Posted(statusCode: int) | PostError

  datatype FetchResult = Answered | NoSource | SourceFailed | BadStatus

  const STATUS_OK := 200

  /** These events, one after the other, take the first table to the second. */
  ghost predicate Leads(timeout: Time, table: Table, events: seq<Event>, table': Table) {
    if events == [] then table' == table
    else Enabled(table, events[0]) && Leads(timeout, Next(timeout, table, events[0]), events[1..], table')
  }

  class Api {
    const timeout: Time
    var sources: Table

    constructor (addresses: set<string>, timeout: Time)
      ensures this.timeout == timeout && sources == Started(addresses)
    {
      this.timeout := timeout;
      sources := Started(addresses);
    }

    /** The first locked part of fetch; the sources are looked at in any order. */
    method Choose(ghost now: Time) returns (addr: Option<string>)
      modifies this`sources
      ensures addr.None? ==> Enabled(old(sources), NoneAlive(now)) && sources == old(sources)
      ensures addr.Some? ==> Enabled(old(sources), Chosen(addr.value, now))
      ensures addr.Some? ==> sources == Next(timeout, old(sources), Chosen(addr.value, now))
    {
      var rest := sources.Keys;
      addr := None;
      while rest != {}
        invariant rest <= sources.Keys
        invariant addr.Some? ==> addr.value in sources && sources[addr.value].alive
        invariant forall other :: other in sources && other !in rest && sources[other].alive ==>
          addr.Some? && sources[addr.value].requests <= sources[other].requests
      {
        var candidate :| candidate in rest;
        if sources[candidate].alive && (addr.None? || sources[candidate].requests < sources[addr.value].requests) {
          addr := Some(candidate);
        }
        rest := rest - {candidate};
      }
      if addr.None? {
        return;
      }
      sources := sources[addr.value := sources[addr.value].(requests := sources[addr.value].requests + 1)];
    }

    method Disable(addr: string, now: Time)
      requires addr in sources
      modifies this`sources
      ensures sources == Next(timeout, old(sources), Failed(addr, now))
    {
      sources := sources[addr := sources[addr].(alive := false, disabledAt := now)];
    }

    /** One run of the loop that New starts. */
    method Revive(now: Time)
      modifies this`sources
      ensures sources == Next(timeout, old(sources), Tick(now))
    {
      var rest := sources.Keys;
      while rest != {}
        invariant rest <= sources.Keys && sources.Keys == old(sources.Keys)
        invariant forall addr :: addr in sources ==>
          sources[addr] == if addr in rest then old(sources)[addr] else Revived(old(sources)[addr], timeout, now)
      {
        var addr :| addr in rest;
        var src := sources[addr];
        if !src.alive && now - src.disabledAt > timeout {
          sources := sources[addr := src.(alive := true)];
        }
        rest := rest - {addr};
      }
    }

    /** fetch, when nothing else happens meanwhile. Only a failed post disables the source: an
        answer with another status does not. */
    method Fetch(posted: Posted, ghost now: Time, done: Time) returns (r: FetchResult, ghost events: seq<Event>)
      modifies this`sources
      ensures r.NoSource? <==> forall addr :: addr in old(sources) ==> !old(sources)[addr].alive
      ensures !r.NoSource? ==> r == match posted
        case PostError => SourceFailed
        case Posted(code) => if code == 200 then Answered else BadStatus
      ensures Leads(timeout, old(sources), events, sources) && (r.NoSource? || (events != [] && events[0].Chosen?))
      ensures events == match r
        case NoSource => [NoneAlive(now)]
        case SourceFailed => [Chosen(events[0].addr, now), Failed(events[0].addr, done)]
        case _ => [Chosen(events[0].addr, now)]
    {
      var addr := Choose(now);
      if addr.None? {
        return NoSource, [NoneAlive(now)];
      }
      events := [Chosen(addr.value, now)];
      match posted {
        case PostError =>
          Disable(addr.value, done);
          return SourceFailed, events + [Failed(addr.value, done)];
        case Posted(code) =>
          return if code != STATUS_OK then BadStatus else Answered, events;
      }
    }
  }
}
