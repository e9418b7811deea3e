/** The answer cache in front of the auth backend (api/api.go), with any number of requests under
    way at once. */
module AnswerCache {
  import opened Prelude

  type Time = int

  /** A request is its class and everything else; the cache leaves the class out. */
  datatype Request = Request(class_: string, rest: string)
  {
    function Key(): Request {
      this.(class_ := "")
    }
  }

  /** An answer; validUntil is the source's Time field. */
  datatype Response = Response(validUntil: Time, leaseSec: int, class_: string, body: string)

  const SECOND := 1_000_000_000

  /** The value that 64-bit arithmetic leaves. */
  function Wrap64(n: int): int {
    (n + 0x8000_0000_0000_0000) % 0x1_0000_0000_0000_0000 - 0x8000_0000_0000_0000
  }

  function Lease(r: Response): Time {
    Wrap64(r.leaseSec * SECOND)
  }

  /** How long an answer stays fresh. */
  function FreshFor(r: Response, actualize: Time): Time {
    Min(Lease(r), actualize)
  }

  function Stamped(r: Response, actualize: Time, now: Time): Response {
    r.(validUntil := now + FreshFor(r, actualize))
  }

  /** Caching in the configuration. */
  datatype Config = Config(enabled: bool, actualize: Time)

  /** What an answer of the backend becomes before it is given and stored. */
  function Given(config: Config, r: Response, now: Time): Response {
    if config.enabled then Stamped(r, config.actualize, now) else r
  }

  /** A request that was sent to the backend, and what the cache held for it. */
  datatype Flight = Flight(request: Request, cached: Option<Response>)

  /** The cache, the requests under way, and the answers given so far, as their receivers hold them. */
  datatype State = State(cache: map<Request, Response>, flights: map<nat, Flight>, given: seq<Response>)

  datatype Event =
    | Hit(request: Request, at: Time)
    | Ask(id: nat, request: Request, at: Time)
    | Fetched(id: nat, response: Response, at: Time)
    | Failed(id: nat, at: Time)
    | Evict(key: Request, at: Time)
    | Write(n: nat, class_: string, at: Time)   // the receiver of the n-th answer sets its class

  function Cached(config: Config, s: State, r: Request): Option<Response> {
    if config.enabled && r.Key() in s.cache then Some(s.cache[r.Key()]) else None
  }

  predicate IsFresh(cached: Option<Response>, now: Time) {
    cached.Some? && cached.value.validUntil > now
  }

  predicate Enabled(config: Config, s: State, e: Event) {
    match e
    case Hit(request, at) => IsFresh(Cached(config, s, request), at)
    case Ask(id, request, at) => id !in s.flights && !IsFresh(Cached(config, s, request), at)
    case Fetched(id, _, _) => id in s.flights
    case Failed(id, _) => id in s.flights
    case Evict(_, _) => true
    case Write(n, _, _) => n < |s.given|
  }

  function Next(config: Config, s: State, e: Event): State
    requires Enabled(config, s, e)
  {
    match e
    case Hit(request, _) => Giving(s, Cached(config, s, request))
    case Ask(id, request, _) => s.(flights := s.flights[id := Flight(request, Cached(config, s, request))])
    case Fetched(id, response, at) =>
      var key, answer := s.flights[id].request.Key(), Given(config, response, at);
      Giving(State(if config.enabled then s.cache[key := answer] else s.cache, s.flights - {id}, s.given), Some(answer))
    case Failed(id, _) => Giving(s.(flights := s.flights - {id}), s.flights[id].cached)
    case Evict(key, _) => s.(cache := s.cache - {key})
    case Write(n, class_, _) => s.(given := s.given[n := s.given[n].(class_ := class_)])
  }

  function Giving(s: State, answer: Option<Response>): State {
    match answer
    case None => s
    case Some(r) => s.(given := s.given + [r])
  }

  /** The answer that an event gives, if it ends a request with one, and to which request. */
  function Served(config: Config, s: State, e: Event): Option<(Request, Response)>
    requires Enabled(config, s, e)
  {
    match e
    case Hit(request, _) => Some((request, Cached(config, s, request).value))
    case Fetched(id, response, at) => Some((s.flights[id].request, Given(config, response, at)))
    case Failed(id, _) =>
      (match s.flights[id].cached
       case Some(stale) => Some((s.flights[id].request, stale))
       case None => None)
    case _ => None
  }

  ghost predicate Legal(config: Config, trace: seq<Event>)
    decreases |trace|, 0
  {
    trace != [] ==>
      var n := |trace| - 1;
      && Legal(config, trace[..n])
      && Enabled(config, After(config, trace[..n]), trace[n])
      && (n > 0 ==> trace[n - 1].at <= trace[n].at)
  }

  ghost function After(config: Config, trace: seq<Event>): State
    requires Legal(config, trace)
    decreases |trace|, 1
  {
    if trace == [] then State(map[], map[], [])
    else Next(config, After(config, trace[..|trace| - 1]), trace[|trace| - 1])
  }

  /** The answer came from the backend at this event, for a request with this key. */
  ghost predicate Origin(config: Config, trace: seq<Event>, m: nat, key: Request, answer: Response)
    requires Legal(config, trace) && m < |trace|
  {
    && trace[m].Fetched? && Legal(config, trace[..m])
    && trace[m].id in After(config, trace[..m]).flights
    && After(config, trace[..m]).flights[trace[m].id].request.Key() == key
    && answer == Given(config, trace[m].response, trace[m].at)
  }

  ghost predicate HasOrigin(config: Config, trace: seq<Event>, key: Request, answer: Response)
    requires Legal(config, trace)
  {
    exists m: nat :: m < |trace| && Origin(config, trace, m, key, answer)
  }

  lemma OriginStays(config: Config, trace: seq<Event>, key: Request, answer: Response)
    requires Legal(config, trace) && trace != [] && HasOrigin(config, trace[..|trace| - 1], key, answer)
    ensures HasOrigin(config, trace, key, answer)
  {
    var before := trace[..|trace| - 1];
    var m: nat :| m < |before| && Origin(config, before, m, key, answer);
    assert before[..m] == trace[..m];
    assert Origin(config, trace, m, key, answer);
  }

  /** Whatever the cache and the requests under way hold came from the backend for the same key. */
  ghost predicate Accounted(config: Config, trace: seq<Event>)
    requires Legal(config, trace)
  {
    var s := After(config, trace);
    && (forall key :: key in s.cache ==> HasOrigin(config, trace, key, s.cache[key]))
    && (forall id :: id in s.flights && s.flights[id].cached.Some? ==>
         HasOrigin(config, trace, s.flights[id].request.Key(), s.flights[id].cached.value))
  }

  lemma {:induction false} AllAccounted(config: Config, trace: seq<Event>)
    requires Legal(config, trace)
    ensures Accounted(config, trace)
  {
    if trace != [] {
      var n := |trace| - 1;
      AllAccounted(config, trace[..n]);
      AccountedStep(config, trace);
    }
  }

  lemma AccountedStep(config: Config, trace: seq<Event>)
    requires Legal(config, trace) && trace != [] && Accounted(config, trace[..|trace| - 1])
    ensures Accounted(config, trace)
  {
    var n := |trace| - 1;
    var e, before, s := trace[n], After(config, trace[..n]), After(config, trace);
    forall key | key in s.cache ensures HasOrigin(config, trace, key, s.cache[key]) {
      if e.Fetched? && config.enabled && key == before.flights[e.id].request.Key() {
        assert Origin(config, trace, n, key, s.cache[key]);
      } else {
        OriginStays(config, trace, key, s.cache[key]);
      }
    }
    forall id | id in s.flights && s.flights[id].cached.Some?
      ensures HasOrigin(config, trace, s.flights[id].request.Key(), s.flights[id].cached.value)
    {
      OriginStays(config, trace, s.flights[id].request.Key(), s.flights[id].cached.value);
    }
  }

  lemma {:induction false} TimesGrow(config: Config, trace: seq<Event>, m: nat)
    requires Legal(config, trace) && m < |trace|
    ensures trace[m].at <= trace[|trace| - 1].at
  {
    if m < |trace| - 1 {
      TimesGrow(config, trace[..|trace| - 1], m);
    }
  }

  /** The answer that the last event of a run gave. */
  ghost function LastServed(config: Config, trace: seq<Event>): Option<(Request, Response)>
    requires Legal(config, trace) && trace != []
  {
    var n := |trace| - 1;
    Served(config, After(config, trace[..n]), trace[n])
  }

  lemma KeptHasOrigin(config: Config, trace: seq<Event>)
    requires Legal(config, trace) && trace != [] && LastServed(config, trace).Some?
    requires !trace[|trace| - 1].Fetched?
    ensures HasOrigin(config, trace, LastServed(config, trace).value.0.Key(), LastServed(config, trace).value.1)
  {
    var (request, answer) := LastServed(config, trace).value;
    AllAccounted(config, trace[..|trace| - 1]);
    OriginStays(config, trace, request.Key(), answer);
  }

  /** The lease in nanoseconds, as far as 64 bits hold it. */
  predicate IsLease(lease: int, seconds: int) {
    && -0x8000_0000_0000_0000 <= lease < 0x8000_0000_0000_0000
    && (seconds * 1_000_000_000 - lease) % 0x1_0000_0000_0000_0000 == 0
  }

  lemma LeaseIs(r: Response)
    ensures IsLease(Lease(r), r.leaseSec)
    ensures -9_223_372_036 <= r.leaseSec <= 9_223_372_036 ==> Lease(r) == r.leaseSec * 1_000_000_000
  {
    WrapIs(r.leaseSec * 1_000_000_000);
  }

  lemma WrapIs(n: int)
    ensures -0x8000_0000_0000_0000 <= Wrap64(n) < 0x8000_0000_0000_0000
    ensures (n - Wrap64(n)) % 0x1_0000_0000_0000_0000 == 0
    ensures -0x8000_0000_0000_0000 <= n < 0x8000_0000_0000_0000 ==> Wrap64(n) == n
  {
    var m, shifted := 0x1_0000_0000_0000_0000, n + 0x8000_0000_0000_0000;
    var q := shifted / m;
    assert shifted == q * m + shifted % m;
    assert n - Wrap64(n) == q * m;
  }

  /** The answer is what the backend sent, but for its validity: with caching it is stamped with the
      shorter of the lease and the time to actualize, without it stays. */
  ghost predicate Delivered(config: Config, fetch: Event, answer: Response)
    requires fetch.Fetched?
  {
    && answer.body == fetch.response.body && answer.class_ == fetch.response.class_
    && answer.leaseSec == fetch.response.leaseSec
    && (!config.enabled ==> answer.validUntil == fetch.response.validUntil)
    && (config.enabled ==>
          exists lease: int :: IsLease(lease, fetch.response.leaseSec)
            && answer.validUntil == fetch.at + if lease < config.actualize then lease else config.actualize)
  }

  lemma GivenIsDelivered(config: Config, fetch: Event)
    requires fetch.Fetched?
    ensures Delivered(config, fetch, Given(config, fetch.response, fetch.at))
  {
    LeaseIs(fetch.response);
  }

  /** Every answer ever given was fetched, then or before, for a request that differs in its class
      at most: just then if the fetch of its own request succeeded, less than its validity ago if
      there was no such fetch, and at any time before only if that fetch failed. */
  lemma EveryAnswerAccounted(config: Config, trace: seq<Event>) returns (m: nat, asker: Request)
    requires Legal(config, trace) && trace != [] && LastServed(config, trace).Some?
    ensures m < |trace| && trace[m].Fetched? && Legal(config, trace[..m])
    ensures trace[m].id in After(config, trace[..m]).flights
    ensures After(config, trace[..m]).flights[trace[m].id].request == asker
    ensures var (fetch, now, (request, answer)) := (trace[m], trace[|trace| - 1], LastServed(config, trace).value);
      && asker.rest == request.rest && Delivered(config, fetch, answer) && fetch.at <= now.at
      && match now
         case Fetched(id, _, _) => m == |trace| - 1 && request == asker
         case Hit(_, _) => config.enabled && now.at < answer.validUntil
         case Failed(_, _) => config.enabled
         case _ => false
  {
    var (request, answer) := LastServed(config, trace).value;
    if trace[|trace| - 1].Fetched? {
      m := |trace| - 1;
    } else {
      KeptHasOrigin(config, trace);
      m :| m < |trace| && Origin(config, trace, m, request.Key(), answer);
      TimesGrow(config, trace, m);
      if trace[|trace| - 1].Failed? {
        CarriedOnlyIfEnabled(config, trace[..|trace| - 1], trace[|trace| - 1].id);
      }
    }
    asker := After(config, trace[..m]).flights[trace[m].id].request;
    GivenIsDelivered(config, trace[m]);
  }

  /** Without caching no request carries an answer. */
  lemma {:induction false} CarriedOnlyIfEnabled(config: Config, trace: seq<Event>, id: nat)
    requires Legal(config, trace) && id in After(config, trace).flights
    ensures After(config, trace).flights[id].cached.Some? ==> config.enabled
  {
    var before := After(config, trace[..|trace| - 1]);
    if id in before.flights && !trace[|trace| - 1].Ask? {
      CarriedOnlyIfEnabled(config, trace[..|trace| - 1], id);
    } else if id in before.flights {
      CarriedOnlyIfEnabled(config, trace[..|trace| - 1], id);
    }
  }

  // ------------------------------------------------------- what is stored is found again

  /** Between the two positions no event drops or replaces what is stored for this request. */
  ghost predicate Untouched(config: Config, trace: seq<Event>, rest: string, from: nat, to: nat)
    requires Legal(config, trace) && to <= |trace|
  {
    forall k {:trigger trace[k]} :: from <= k < to ==>
      match trace[k]
      case Evict(key, _) => key.rest != rest
      case Fetched(_, _, _) => !FetchedFor(config, trace, k, rest)
      case _ => true
  }

  /** Event k is the answer of the backend to a request that differs in its class at most. */
  ghost predicate FetchedFor(config: Config, trace: seq<Event>, k: nat, rest: string)
    requires Legal(config, trace) && k < |trace|
  {
    && trace[k].Fetched? && Legal(config, trace[..k])
    && trace[k].id in After(config, trace[..k]).flights
    && After(config, trace[..k]).flights[trace[k].id].request.rest == rest
  }

  lemma FetchedForPrefix(config: Config, trace: seq<Event>, k: nat, rest: string)
    requires Legal(config, trace) && k < |trace| - 1
    ensures FetchedFor(config, trace, k, rest) <==> FetchedFor(config, trace[..|trace| - 1], k, rest)
  {
    assert trace[..|trace| - 1][..k] == trace[..k];
  }

  /** An answer fetched at m stays stored for every request that differs in its class at most. */
  lemma {:induction false} StaysStored(config: Config, trace: seq<Event>, m: nat, request: Request)
    requires Legal(config, trace) && config.enabled && m < |trace| && FetchedFor(config, trace, m, request.rest)
    requires Untouched(config, trace, request.rest, m + 1, |trace|)
    ensures request.Key() in After(config, trace).cache
    ensures After(config, trace).cache[request.Key()] == Given(config, trace[m].response, trace[m].at)
  {
    var n := |trace| - 1;
    if m < n {
      FetchedForPrefix(config, trace, m, request.rest);
      forall k {:trigger trace[..n][k]} | m < k < n && trace[k].Fetched?
        ensures !FetchedFor(config, trace[..n], k, request.rest)
      {
        FetchedForPrefix(config, trace, k, request.rest);
      }
      StaysStored(config, trace[..n], m, request);
      assert trace[n].Evict? ==> trace[n].key.rest != request.rest;
      assert trace[n].Fetched? ==> !FetchedFor(config, trace, n, request.rest);
    }
  }

  /** So the cache is of use: until the answer runs out every such request is served it, and from then
      on it goes with the question to the backend. */
  lemma FoundAgain(config: Config, trace: seq<Event>, m: nat, request: Request, at: Time) returns (answer: Response)
    requires Legal(config, trace) && config.enabled && m < |trace| && FetchedFor(config, trace, m, request.rest)
    requires Untouched(config, trace, request.rest, m + 1, |trace|)
    ensures Delivered(config, trace[m], answer)
    ensures var s := After(config, trace);
      && (Enabled(config, s, Hit(request, at)) <==> at < answer.validUntil)
      && (at < answer.validUntil ==> Served(config, s, Hit(request, at)) == Some((request, answer)))
      && forall id :: id !in s.flights ==>
           && (Enabled(config, s, Ask(id, request, at)) <==> at >= answer.validUntil)
           && (at >= answer.validUntil ==>
                 Next(config, s, Ask(id, request, at)).flights[id] == Flight(request, Some(answer)))
  {
    StaysStored(config, trace, m, request);
    answer := Given(config, trace[m].response, trace[m].at);
    GivenIsDelivered(config, trace[m]);
  }

  ghost predicate NotEnded(trace: seq<Event>, id: nat, from: nat, to: nat)
    requires to <= |trace|
  {
    forall k {:trigger trace[k]} :: from <= k < to && (trace[k].Fetched? || trace[k].Failed?) ==> trace[k].id != id
  }

  lemma {:induction false} StillCarried(config: Config, trace: seq<Event>, q: nat)
    requires Legal(config, trace) && q < |trace| && trace[q].Ask? && NotEnded(trace, trace[q].id, q + 1, |trace|)
    ensures Legal(config, trace[..q]) && trace[q].id in After(config, trace).flights
    ensures After(config, trace).flights[trace[q].id]
         == Flight(trace[q].request, Cached(config, After(config, trace[..q]), trace[q].request))
  {
    var n := |trace| - 1;
    if q < n {
      assert trace[..n][..q] == trace[..q];
      StillCarried(config, trace[..n], q);
      assert trace[n].Fetched? || trace[n].Failed? ==> trace[n].id != trace[q].id;
    }
  }

  /** A request whose fetch fails is still served an answer fetched before it asked, however old. */
  lemma StaleServed(config: Config, trace: seq<Event>, m: nat, q: nat) returns (answer: Response)
    requires Legal(config, trace) && config.enabled && m < q < |trace| - 1 && trace[q].Ask?
    requires trace[|trace| - 1].Failed? && trace[|trace| - 1].id == trace[q].id
    requires NotEnded(trace, trace[q].id, q + 1, |trace| - 1)
    requires FetchedFor(config, trace, m, trace[q].request.rest)
    requires Untouched(config, trace, trace[q].request.rest, m + 1, q)
    ensures trace[m].Fetched? && Delivered(config, trace[m], answer)
    ensures LastServed(config, trace) == Some((trace[q].request, answer))
  {
    var n, rest := |trace| - 1, trace[q].request.rest;
    assert trace[..n][..q] == trace[..q];
    StillCarried(config, trace[..n], q);
    assert trace[..q][..m] == trace[..m];
    forall k | m < k < q && trace[k].Fetched? ensures !FetchedFor(config, trace[..q], k, rest) {
      assert trace[..q][..k] == trace[..k];
      LegalUpTo(config, trace, k);
      assert !FetchedFor(config, trace, k, rest);
    }
    assert forall k {:trigger trace[..q][k]} :: 0 <= k < q ==> trace[..q][k] == trace[k];
    StaysStored(config, trace[..q], m, trace[q].request);
    answer := Given(config, trace[m].response, trace[m].at);
    GivenIsDelivered(config, trace[m]);
  }

  lemma {:induction false} LegalUpTo(config: Config, trace: seq<Event>, k: nat)
    requires Legal(config, trace) && k <= |trace|
    ensures Legal(config, trace[..k])
  {
    if k == |trace| {
      assert trace[..k] == trace;
    } else {
      assert trace[..|trace| - 1][..k] == trace[..k];
      LegalUpTo(config, trace[..|trace| - 1], k);
    }
  }

  // ------------------------------------------------------------- writes to the answers

  function NoWrite(): Event -> bool {
    (e: Event) => !e.Write?
  }

  /** The run without the writes. */
  function Unwritten(trace: seq<Event>): seq<Event> {
    Filter(trace, NoWrite())
  }

  ghost predicate SameStore(s: State, t: State) {
    s.cache == t.cache && s.flights == t.flights
  }

  lemma SameStep(config: Config, s: State, t: State, e: Event)
    requires SameStore(s, t) && Enabled(config, s, e) && !e.Write?
    ensures Enabled(config, t, e) && SameStore(Next(config, s, e), Next(config, t, e))
    ensures Served(config, s, e) == Served(config, t, e)
  {
  }

  lemma UnwrittenTimes(config: Config, before: seq<Event>)
    requires Legal(config, before) && Unwritten(before) != []
    ensures before != [] && Unwritten(before)[|Unwritten(before)| - 1].at <= before[|before| - 1].at
  {
    var last := Unwritten(before)[|Unwritten(before)| - 1];
    FilterMembers(before, NoWrite());
    assert last in Unwritten(before);
    var m :| 0 <= m < |before| && before[m] == last;
    TimesGrow(config, before, m);
  }

  lemma LegalMore(config: Config, trace: seq<Event>, e: Event)
    requires Legal(config, trace) && Enabled(config, After(config, trace), e)
    requires trace != [] ==> trace[|trace| - 1].at <= e.at
    ensures Legal(config, trace + [e]) && After(config, trace + [e]) == Next(config, After(config, trace), e)
  {
    assert (trace + [e])[..|trace|] == trace;
  }

  /** Whatever the receivers of answers write to them, in every run the stored answers and those
      carried by requests are the ones of the run without the writes. */
  lemma {:induction false} WritesStayOutside(config: Config, trace: seq<Event>)
    requires Legal(config, trace)
    ensures Legal(config, Unwritten(trace))
    ensures SameStore(After(config, trace), After(config, Unwritten(trace)))
  {
    if trace != [] {
      var n := |trace| - 1;
      var before, e := trace[..n], trace[n];
      WritesStayOutside(config, before);
      if !e.Write? {
        SameStep(config, After(config, before), After(config, Unwritten(before)), e);
        if Unwritten(before) != [] { UnwrittenTimes(config, before); }
        LegalMore(config, Unwritten(before), e);
      }
    }
  }

  /** So every answer is given as if nobody had ever written to an earlier one. */
  lemma AnswersUnaffected(config: Config, trace: seq<Event>)
    requires Legal(config, trace) && trace != [] && !trace[|trace| - 1].Write?
    ensures Legal(config, Unwritten(trace)) && Unwritten(trace) != []
    ensures LastServed(config, trace) == LastServed(config, Unwritten(trace))
  {
    var n := |trace| - 1;
    var before, e := trace[..n], trace[n];
    WritesStayOutside(config, trace);
    WritesStayOutside(config, before);
    assert Unwritten(trace) == Unwritten(before) + [e];
    assert Unwritten(trace)[..|Unwritten(before)|] == Unwritten(before);
    SameStep(config, After(config, before), After(config, Unwritten(before)), e);
  }

  // -------------------------------------------------------------------------- the API

  /** A response that its caller may write to. */
  class Answer {
    var value: Response

    constructor (value: Response)
      ensures this.value == value
    {
      this.value := value;
    }
  }

  /** How a request that asked the backend ends. */
  function End(id: nat, backend: Option<Response>, done: Time): Event {
    if backend.Some? then Fetched(id, backend.value, done) else Failed(id, done)
  }

  ghost function ValueOf(answer: Answer?): Option<Response>
    reads answer
  {
    if answer == null then None else Some(answer.value)
  }

  /** The event takes s to s' and gives this answer to the request. */
  ghost predicate Gives(config: Config, s: State, e: Event, s': State, request: Request, answer: Option<Response>) {
    && Enabled(config, s, e) && s' == Next(config, s, e)
    && Served(config, s, e) == (if answer.Some? then Some((request, answer.value)) else None)
  }

  lemma HitGives(config: Config, s: State, request: Request, at: Time)
    requires IsFresh(Cached(config, s, request), at)
    ensures var r := Cached(config, s, request).value;
      Gives(config, s, Hit(request, at), s.(given := s.given + [r]), request, Some(r))
  {
  }

  lemma AskGives(config: Config, s: State, request: Request, at: Time, id: nat)
    requires id !in s.flights && !IsFresh(Cached(config, s, request), at)
    ensures Gives(config, s, Ask(id, request, at),
                  s.(flights := s.flights[id := Flight(request, Cached(config, s, request))]), request, None)
  {
  }

  /** What a request that asked comes away with. */
  function Outcome(config: Config, flight: Flight, backend: Option<Response>, done: Time): Option<Response> {
    if backend.Some? then Some(Given(config, backend.value, done)) else flight.cached
  }

  function Ended(config: Config, s: State, id: nat, backend: Option<Response>, done: Time): State
    requires id in s.flights
  {
    var answer := Outcome(config, s.flights[id], backend, done);
    State(if backend.Some? && config.enabled then s.cache[s.flights[id].request.Key() := answer.value] else s.cache,
          s.flights - {id}, if answer.Some? then s.given + [answer.value] else s.given)
  }

  lemma EndGives(config: Config, s: State, id: nat, backend: Option<Response>, done: Time)
    requires id in s.flights
    ensures Gives(config, s, End(id, backend, done), Ended(config, s, id, backend, done), s.flights[id].request,
                  Outcome(config, s.flights[id], backend, done))
  {
  }

  /** One request from s to s': a hit, or a question to the backend that leads to `asked` and then
      this end. */
  ghost predicate Gets(config: Config, s: State, request: Request, at: Time, asked: State, end: Event, s': State,
                       answer: Option<Response>)
    requires end.Fetched? || end.Failed?
  {
    if Enabled(config, s, Hit(request, at)) then answer.Some? && Gives(config, s, Hit(request, at), s', request, answer)
    else Gives(config, s, Ask(end.id, request, at), asked, request, None) && Gives(config, asked, end, s', request, answer)
  }

  ghost predicate Distinct(answers: seq<Answer>) {
    forall i, j {:trigger answers[i], answers[j]} :: 0 <= i < j < |answers| ==> answers[i] != answers[j]
  }

  /** The receivers of these answers hold these values. */
  ghost predicate Hold(answers: seq<Answer>, held: seq<Response>)
    reads answers
  {
    |held| == |answers| && forall i {:trigger answers[i]} {:trigger held[i]} :: 0 <= i < |held| ==> answers[i].value == held[i]
  }

  class Api {
    const config: Config
    var cache: map<Request, Response>
    ghost var flights: map<nat, Flight>
    /** Every answer given, as the object that its receiver has. */
    ghost var answers: seq<Answer>
    ghost var held: seq<Response>

    ghost predicate Valid()
      reads this`answers, this`held, answers
    {
      Distinct(answers) && Hold(answers, held)
    }

    ghost function View(): State
      reads this
    {
      State(cache, flights, held)
    }

    constructor (config: Config)
      ensures Valid() && this.config == config && View() == State(map[], map[], [])
    {
      this.config := config;
      cache, flights, answers, held := map[], map[], [], [];
    }

    /** An answer for one receiver, unlike any given before. */
    method Give(r: Response) returns (answer: Answer)
      requires Valid()
      modifies this`answers, this`held
      ensures Valid() && fresh(answer) && answer.value == r && answers == old(answers) + [answer]
      ensures View() == old(View()).(given := old(View()).given + [r])
    {
      answer := new Answer(r);
      answers, held := answers + [answer], held + [r];
    }

    /** Get up to the question whether to ask the backend. */
    method Lookup(request: Request, at: Time, ghost id: nat) returns (answer: Answer?, cached: Option<Response>)
      requires Valid() && id !in flights
      modifies this
      ensures Valid() && answers == old(answers) + (if answer == null then [] else [answer])
      ensures answer != null ==>
        fresh(answer) && Gives(config, old(View()), Hit(request, at), View(), request, ValueOf(answer))
      ensures answer == null ==>
        && Gives(config, old(View()), Ask(id, request, at), View(), request, None)
        && flights[id] == Flight(request, cached)
    {
      var key := request.Key();
      answer, cached := null, None;
      ghost var before := View();
      if config.enabled && key in cache {
        if cache[key].validUntil > at {
          HitGives(config, before, request, at);
          answer := Give(cache[key]);
          return;
        }
        cached := Some(cache[key]);
      }
      AskGives(config, before, request, at, id);
      flights := flights[id := Flight(request, cached)];
    }

    /** Get from the answer of the backend on, whatever has happened since the lookup. */
    method Finish(request: Request, cached: Option<Response>, backend: Option<Response>, done: Time, ghost id: nat)
      returns (answer: Answer?)
      requires Valid() && id in flights && flights[id] == Flight(request, cached)
      modifies this
      ensures Valid() && answers == old(answers) + (if answer == null then [] else [answer])
      ensures answer != null ==> fresh(answer)
      ensures Gives(config, old(View()), End(id, backend, done), View(), request, ValueOf(answer))
    {
      EndGives(config, View(), id, backend, done);
      var given := cached;
      if backend.Some? {
        var resp := backend.value;
        if config.enabled {
          if config.actualize > Lease(resp) {
            resp := resp.(validUntil := done + Lease(resp));
          } else {
            resp := resp.(validUntil := done + config.actualize);
          }
          cache := cache[request.Key() := resp];
        }
        given := Some(resp);
      }
      flights := flights - {id};
      answer := null;
      if given.Some? {
        answer := Give(given.value);
      }
    }

    /** The two one after the other: the backend is asked only where no fresh answer is stored. */
    method Get(request: Request, at: Time, backend: Option<Response>, done: Time, ghost id: nat)
      returns (answer: Answer?, ghost asked: State)
      requires Valid() && id !in flights
      modifies this
      ensures Valid() && answers == old(answers) + (if answer == null then [] else [answer])
      ensures answer != null ==> fresh(answer)
      ensures Gets(config, old(View()), request, at, asked, End(id, backend, done), View(), ValueOf(answer))
    {
      var cached;
      answer, cached := Lookup(request, at, id);
      asked := View();
      if answer == null {
        answer := Finish(request, cached, backend, done, id);
      }
    }

    /** The handler puts the class of its own request on an answer it was given: the write step. It
        changes this one object; the cache and all other answers stay as they are. */
    method Relabel(answer: Answer, request: Request, ghost n: nat, ghost now: Time)
      requires Valid() && n < |answers| && answers[n] == answer
      modifies answer, this`held
      ensures Valid() && answers == old(answers)
      ensures answer.value == old(answer.value).(class_ := request.class_)
      ensures Enabled(config, old(View()), Write(n, request.class_, now))
      ensures View() == Next(config, old(View()), Write(n, request.class_, now))
    {
      answer.value := answer.value.(class_ := request.class_);
      held := held[n := answer.value];
    }

    /** The two in sequence; got is the state in between. */
    method Answered(request: Request, at: Time, backend: Option<Response>, done: Time, ghost id: nat)
      returns (answer: Answer?, ghost asked: State, ghost got: State)
      requires Valid() && id !in flights
      modifies this
      ensures Valid() && |answers| == |got.given|
      ensures answer == null ==>
        View() == got && Gets(config, old(View()), request, at, asked, End(id, backend, done), got, None)
      ensures answer != null ==>
        && answer.value.class_ == request.class_ && got.given != [] && answers[|answers| - 1] == answer
        && Gets(config, old(View()), request, at, asked, End(id, backend, done), got, Some(got.given[|got.given| - 1]))
        && View() == Next(config, got, Write(|got.given| - 1, request.class_, done))
    {
      answer, asked := Get(request, at, backend, done, id);
      got := View();
      if answer != null {
        Relabel(answer, request, |answers| - 1, done);
      }
    }
  }
}
