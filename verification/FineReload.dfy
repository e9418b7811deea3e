/** The same protocol with its steps split where the locks are released: after an event
    has been let past the queue (clientdb/live.go:132-133), between looking up the
    current index and patching it (live.go:137-171), and between draining the queue and
    each replayed event (clientdb/store.go:128-133). Events are named by their tickets:
    the positions in which ApplyBindEvent accepted them. */
module FineReload {
  import opened Prelude
  import opened ClientDb
  import ReloadProtocol

  /** A goroutine between ApplyBindEvent's unlock and its patch; `seen` is the snapshot
      it looked up, once it has. */
  datatype Held = Held(ticket: nat, seen: Option<nat>)

  datatype Fine = Fine(
    contents: Contents,        // the current snapshot
    snapshot: nat,             // its number
    reloading: bool,
    pending: seq<nat>,         // the queue
    replay: seq<nat>,          // drained, not yet replayed
    held: seq<Held>,           // let past the queue, not yet applied
    done: seq<nat>,            // processed, in order
    accepted: seq<BindEvent>)

  datatype Action =
    | Accept(ev: BindEvent)
    | Look(i: nat)
    | ApplyHeld(i: nat)
    | Begin
    | Publish(load: Contents)
    | Drain
    | ReplayNext

  ghost predicate Enabled(sources: set<string>, s: Fine, a: Action) {
    match a
    case Accept(_) => true
    case Look(i) => i < |s.held| && s.held[i].seen == None
    case ApplyHeld(i) => i < |s.held| && s.held[i].seen.Some? && s.held[i].ticket < |s.accepted|
    case Begin => !s.reloading && s.replay == []
    case Publish(load) => s.reloading && ReloadProtocol.GoodLoad(sources, load)
    case Drain => s.reloading
    case ReplayNext => s.replay != [] && s.replay[0] < |s.accepted|
  }

  function Without<T>(s: seq<T>, i: nat): seq<T>
    requires i < |s|
  {
    s[..i] + s[i + 1..]
  }

  /** ApplyBindEvent up to its unlock: the event is queued or let past. */
  function Taken(s: Fine, ev: BindEvent): Fine {
    var t := |s.accepted|;
    if s.reloading then s.(accepted := s.accepted + [ev], pending := s.pending + [t])
    else s.(accepted := s.accepted + [ev], held := s.held + [Held(t, None)])
  }

  /** The patch of an event let past: it shows only if the snapshot it saw is current. */
  function Patched(s: Fine, i: nat): Fine
    requires i < |s.held| && s.held[i].seen.Some? && s.held[i].ticket < |s.accepted|
  {
    var h := s.held[i];
    s.(held := Without(s.held, i), done := s.done + [h.ticket],
       contents := if h.seen.value == s.snapshot then Applied(s.contents, s.accepted[h.ticket]) else s.contents)
  }

  ghost function Next(sources: set<string>, s: Fine, a: Action): Fine
    requires Enabled(sources, s, a)
  {
    match a
    case Accept(ev) => Taken(s, ev)
    case Look(i) => s.(held := s.held[i := s.held[i].(seen := Some(s.snapshot))])
    case ApplyHeld(i) => Patched(s, i)
    case Begin => s.(reloading := true)
    case Publish(load) => s.(contents := load, snapshot := s.snapshot + 1)
    case Drain => s.(replay := s.pending, pending := [], reloading := false)
    case ReplayNext =>
      s.(contents := Applied(s.contents, s.accepted[s.replay[0]]),
         replay := s.replay[1..], done := s.done + [s.replay[0]])
  }

  function Started(load: Contents): Fine {
    Fine(load, 0, false, [], [], [], [], [])
  }

  /** The states of a run: run[k + 1] follows run[k] by trace[k]. */
  ghost predicate IsRun(sources: set<string>, load: Contents, run: seq<Fine>, trace: seq<Action>) {
    && |run| == |trace| + 1 && run[0] == Started(load)
    && forall k {:trigger trace[k]} :: 0 <= k < |trace| ==>
         Enabled(sources, run[k], trace[k]) && run[k + 1] == Next(sources, run[k], trace[k])
  }

  // --------------------------------------------------------------------- conservation

  function Tickets(held: seq<Held>): seq<nat> {
    if held == [] then [] else Tickets(held[..|held| - 1]) + [held[|held| - 1].ticket]
  }

  function UpTo(n: nat): seq<nat> {
    seq(n, i => i)
  }

  /** Where every accepted event is. */
  function Places(s: Fine): multiset<nat> {
    multiset(s.done) + multiset(s.replay) + multiset(s.pending) + multiset(Tickets(s.held))
  }

  /** Each accepted event is in exactly one place, and the queue is empty unless a
      reload is running. */
  ghost predicate Conserved(s: Fine) {
    match s
    case Fine(_, _, reloading, pending, replay, _, _, accepted) =>
      && Places(s) == multiset(UpTo(|accepted|))
      && (!reloading ==> pending == []) && (reloading ==> replay == [])
  }

  lemma TicketsSnoc(held: seq<Held>, h: Held)
    ensures Tickets(held + [h]) == Tickets(held) + [h.ticket]
  {
    assert (held + [h])[..|held|] == held;
  }

  lemma {:induction false} TicketsConcat(a: seq<Held>, b: seq<Held>)
    ensures Tickets(a + b) == Tickets(a) + Tickets(b)
  {
    if b == [] {
      assert a + b == a;
    } else {
      var n := |b| - 1;
      TicketsConcat(a, b[..n]);
      TicketsSnoc(a + b[..n], b[n]);
      assert a + b == (a + b[..n]) + [b[n]];
    }
  }

  lemma TakenOut<T>(a: seq<T>, x: T, b: seq<T>)
    ensures multiset(a + [x] + b) == multiset(a + b) + multiset{x}
  {
  }

  lemma TicketsAround(held: seq<Held>, i: nat) returns (before: seq<nat>, after: seq<nat>)
    requires i < |held|
    ensures Tickets(held) == before + [held[i].ticket] + after && Tickets(Without(held, i)) == before + after
  {
    var a, b := held[..i], held[i + 1..];
    assert held == a + [held[i]] + b;
    TicketsConcat(a + [held[i]], b);
    TicketsSnoc(a, held[i]);
    TicketsConcat(a, b);
    before, after := Tickets(a), Tickets(b);
  }

  lemma TicketsWithout(held: seq<Held>, i: nat)
    requires i < |held|
    ensures multiset(Tickets(held)) == multiset(Tickets(Without(held, i))) + multiset{held[i].ticket}
  {
    var before, after := TicketsAround(held, i);
    TakenOut(before, held[i].ticket, after);
  }

  lemma {:induction false} TicketsLooked(held: seq<Held>, i: nat, seen: Option<nat>)
    requires i < |held|
    ensures Tickets(held[i := held[i].(seen := seen)]) == Tickets(held)
  {
    var n := |held| - 1;
    var changed := held[i := held[i].(seen := seen)];
    if i < n {
      TicketsLooked(held[..n], i, seen);
      assert changed[..n] == held[..n][i := held[i].(seen := seen)];
    } else {
      assert changed[..n] == held[..n];
    }
  }

  lemma UpToNext(n: nat)
    ensures multiset(UpTo(n + 1)) == multiset(UpTo(n)) + multiset{n}
  {
    assert UpTo(n + 1) == UpTo(n) + [n];
  }

  /** Where every event is, after t joined the queue or the events let past. */
  lemma PlacesWith(done: seq<nat>, replay: seq<nat>, pending: seq<nat>, held: seq<nat>, t: nat)
    ensures multiset(done) + multiset(replay) + multiset(pending + [t]) + multiset(held)
         == multiset(done) + multiset(replay) + multiset(pending) + multiset(held) + multiset{t}
    ensures multiset(done) + multiset(replay) + multiset(pending) + multiset(held + [t])
         == multiset(done) + multiset(replay) + multiset(pending) + multiset(held) + multiset{t}
  {
  }

  /** The same for t, replayed ahead of the rest. */
  lemma PlacesReplayed(done: seq<nat>, t: nat, rest: seq<nat>)
    ensures multiset(done + [t]) + multiset(rest) == multiset(done) + multiset([t] + rest)
  {
  }

  lemma AcceptConserves(s: Fine, ev: BindEvent)
    requires Conserved(s)
    ensures Conserved(Taken(s, ev))
  {
    var t := |s.accepted|;
    UpToNext(t);
    TicketsSnoc(s.held, Held(t, None));
    PlacesWith(s.done, s.replay, s.pending, Tickets(s.held), t);
  }

  lemma ApplyConserves(s: Fine, i: nat)
    requires Conserved(s)
    requires i < |s.held| && s.held[i].seen.Some? && s.held[i].ticket < |s.accepted|
    ensures Conserved(Patched(s, i))
  {
    TicketsWithout(s.held, i);
  }

  lemma ReplayConserves(sources: set<string>, s: Fine)
    requires Conserved(s) && Enabled(sources, s, ReplayNext)
    ensures Conserved(Next(sources, s, ReplayNext))
  {
    assert s.replay == [s.replay[0]] + s.replay[1..];
    PlacesReplayed(s.done, s.replay[0], s.replay[1..]);
  }

  lemma StepConserves(sources: set<string>, s: Fine, a: Action)
    requires Conserved(s) && Enabled(sources, s, a)
    ensures Conserved(Next(sources, s, a))
  {
    match a {
      case Accept(ev) => AcceptConserves(s, ev);
      case Look(i) => TicketsLooked(s.held, i, Some(s.snapshot));
      case ApplyHeld(i) => ApplyConserves(s, i);
      case Begin =>
      case Publish(_) =>
      case Drain =>
      case ReplayNext => ReplayConserves(sources, s);
    }
  }

  /** In every run, with any number of goroutines applying events: no event is dropped
      or taken twice. */
  lemma {:induction false} EveryEventInOnePlace(sources: set<string>, load: Contents, run: seq<Fine>, trace: seq<Action>,
                                                k: nat)
    requires IsRun(sources, load, run, trace) && k < |run|
    ensures Conserved(run[k])
  {
    if k > 0 {
      EveryEventInOnePlace(sources, load, run, trace, k - 1);
      var a := trace[k - 1];
      StepConserves(sources, run[k - 1], a);
    }
  }

  predicate Known(accepted: seq<BindEvent>, tickets: seq<nat>) {
    forall t :: t in tickets ==> t < |accepted|
  }

  function EventsOf(accepted: seq<BindEvent>, tickets: seq<nat>): seq<BindEvent>
    requires Known(accepted, tickets)
  {
    seq(|tickets|, i requires 0 <= i < |tickets| => assert tickets[i] in tickets; accepted[tickets[i]])
  }

  lemma EventsGrow(accepted: seq<BindEvent>, ev: BindEvent, tickets: seq<nat>)
    requires Known(accepted, tickets)
    ensures Known(accepted + [ev], tickets) && Known(accepted + [ev], tickets + [|accepted|])
    ensures EventsOf(accepted + [ev], tickets) == EventsOf(accepted, tickets)
    ensures EventsOf(accepted + [ev], tickets + [|accepted|]) == EventsOf(accepted, tickets) + [ev]
  {
    forall i | 0 <= i < |tickets| ensures tickets[i] < |accepted| {
      assert tickets[i] in tickets;
    }
  }

  // ------------------------------------------------------------------ order of arrival

  /** ApplyBindEvent is called by one subscriber, which waits for it to return. */
  ghost predicate OneSubscriber(run: seq<Fine>, trace: seq<Action>)
    requires |run| == |trace| + 1
  {
    forall k {:trigger trace[k]} :: 0 <= k < |trace| && trace[k].Accept? ==> run[k].held == []
  }

  /** In the first n steps, no event let past the queue is applied while a replay is
      unfinished. */
  ghost predicate NoOvertaking(run: seq<Fine>, trace: seq<Action>, n: nat)
    requires |run| == |trace| + 1 && n <= |trace|
  {
    forall k {:trigger trace[k]} :: 0 <= k < n && trace[k].ApplyHeld? ==> run[k].replay == []
  }

  predicate Quiescent(s: Fine) {
    s.pending == [] && s.replay == [] && s.held == []
  }

  ghost predicate InOrder(s: Fine) {
    match s
    case Fine(_, _, reloading, pending, replay, held, done, accepted) =>
      && done + replay + Tickets(held) + pending == UpTo(|accepted|)
      && |held| <= 1 && (held != [] ==> pending == [])
      && (reloading ==> replay == []) && (!reloading ==> pending == [])
  }

  /** Some event was processed before one that had arrived earlier, which has been
      processed since or is still to be replayed. */
  ghost predicate Overtaken(s: Fine) {
    exists i: nat, b: nat {:trigger s.done[i], OvertakenBy(s, i, b)} :: OvertakenBy(s, i, b)
  }

  ghost predicate OvertakenBy(s: Fine, i: nat, b: nat) {
    i < |s.done| && b < s.done[i] && (b in s.replay || b in s.done[i + 1..])
  }

  lemma Regrouped<T>(a: seq<T>, b: seq<T>, c: seq<T>, d: seq<T>, x: T)
    ensures a + b + c + (d + [x]) == (a + b + c + d) + [x]
    ensures (a + [x]) + b == a + ([x] + b)
  {
  }

  lemma AcceptInOrder(s: Fine, ev: BindEvent)
    requires InOrder(s) && s.held == []
    ensures InOrder(Taken(s, ev))
  {
    var t := |s.accepted|;
    assert UpTo(t + 1) == UpTo(t) + [t];
    if s.reloading {
      Regrouped(s.done, s.replay, Tickets(s.held), s.pending, t);
    } else {
      TicketsSnoc(s.held, Held(t, None));
      assert s.done + s.replay + [] + [] == s.done + s.replay;
      assert s.done + s.replay + ([] + [t]) + [] == (s.done + s.replay) + [t];
    }
  }

  lemma ApplyInOrder(s: Fine, i: nat)
    requires InOrder(s) && s.replay == []
    requires i < |s.held| && s.held[i].seen.Some? && s.held[i].ticket < |s.accepted|
    ensures InOrder(Patched(s, i))
  {
    var t := s.held[0].ticket;
    assert s.held[..0] == [] && Without(s.held, 0) == [];
    assert Tickets(s.held) == [t];
    assert s.done + [] + [t] + s.pending == (s.done + [t]) + [] + [] + s.pending;
  }

  lemma ReplayInOrder(sources: set<string>, s: Fine)
    requires InOrder(s) && Enabled(sources, s, ReplayNext)
    ensures InOrder(Next(sources, s, ReplayNext))
  {
    var x, rest := s.replay[0], s.replay[1..];
    assert s.replay == [x] + rest;
    Regrouped(s.done, rest, [], [], x);
  }

  lemma StepInOrder(sources: set<string>, s: Fine, a: Action)
    requires InOrder(s) && Enabled(sources, s, a)
    requires (a.Accept? ==> s.held == []) && (a.ApplyHeld? ==> s.replay == [])
    ensures InOrder(Next(sources, s, a))
  {
    match a {
      case Accept(ev) => AcceptInOrder(s, ev);
      case Look(i) => TicketsLooked(s.held, i, Some(s.snapshot));
      case ApplyHeld(i) => ApplyInOrder(s, i);
      case Begin =>
      case Publish(_) =>
      case Drain => DrainInOrder(sources, s);
      case ReplayNext => ReplayInOrder(sources, s);
    }
  }

  lemma DrainInOrder(sources: set<string>, s: Fine)
    requires InOrder(s) && Enabled(sources, s, Drain)
    ensures InOrder(Next(sources, s, Drain))
  {
    if s.held == [] {
      assert s.done + [] + [] + s.pending == s.done + s.pending + [] + [];
    } else {
      assert s.done + [] + Tickets(s.held) + [] == s.done + s.pending + Tickets(s.held) + [];
    }
  }

  lemma OvertakingStep(sources: set<string>, s: Fine, i: nat)
    requires InOrder(s) && Enabled(sources, s, ApplyHeld(i)) && s.replay != []
    ensures Overtaken(Next(sources, s, ApplyHeld(i)))
  {
    var n, after := |s.done|, Next(sources, s, ApplyHeld(i));
    var all := s.done + s.replay + Tickets(s.held) + s.pending;
    assert s.held == [s.held[0]] && s.held[..0] == [];
    assert Tickets(s.held) == [s.held[0].ticket];
    assert all[n] == s.replay[0] && all[n + |s.replay|] == s.held[0].ticket;
    assert UpTo(|s.accepted|)[n] == n && UpTo(|s.accepted|)[n + |s.replay|] == n + |s.replay|;
    assert OvertakenBy(after, n, s.replay[0]) by { assert after.done[n] == s.held[0].ticket; }
    assert after.done[n] == s.held[0].ticket;
  }

  lemma StepOvertaken(sources: set<string>, s: Fine, a: Action)
    requires Overtaken(s) && Conserved(s) && Enabled(sources, s, a)
    ensures Overtaken(Next(sources, s, a))
  {
    var i: nat, b: nat :| OvertakenBy(s, i, b);
    var after := Next(sources, s, a);
    assert after.done[i] == s.done[i];
    if a.ApplyHeld? || a.ReplayNext? {
      assert after.done[i + 1..] == s.done[i + 1..] + [after.done[|s.done|]];
    }
    assert OvertakenBy(after, i, b);
  }

  /** What is known of the order so far, given whether the run was free of overtaking. */
  ghost predicate Ordered(clean: bool, s: Fine) {
    if clean then InOrder(s) else Overtaken(s)
  }

  lemma OrderStep(sources: set<string>, s: Fine, a: Action, clean: bool)
    requires Ordered(clean, s) && Conserved(s) && Enabled(sources, s, a) && (a.Accept? ==> s.held == [])
    ensures Ordered(clean && (a.ApplyHeld? ==> s.replay == []), Next(sources, s, a))
  {
    if !clean {
      StepOvertaken(sources, s, a);
    } else if a.ApplyHeld? && s.replay != [] {
      OvertakingStep(sources, s, a.i);
    } else {
      StepInOrder(sources, s, a);
    }
  }

  lemma {:induction false} OrderSoFar(sources: set<string>, load: Contents, run: seq<Fine>, trace: seq<Action>, k: nat)
    requires IsRun(sources, load, run, trace) && OneSubscriber(run, trace) && k <= |trace|
    ensures Ordered(NoOvertaking(run, trace, k), run[k])
  {
    if k == 0 {
      assert InOrder(Started(load));
    } else {
      var a, s := trace[k - 1], run[k - 1];
      OrderSoFar(sources, load, run, trace, k - 1);
      EveryEventInOnePlace(sources, load, run, trace, k - 1);
      OrderStep(sources, s, a, NoOvertaking(run, trace, k - 1));
      assert NoOvertaking(run, trace, k)
        == (NoOvertaking(run, trace, k - 1) && (a.ApplyHeld? ==> s.replay == []));
    }
  }

  lemma OvertakenUnsorted(s: Fine)
    requires Overtaken(s) && s.replay == []
    ensures s.done != UpTo(|s.accepted|)
  {
    var i: nat, b: nat :| OvertakenBy(s, i, b);
    var later := s.done[i + 1..];
    var j :| 0 <= j < |later| && later[j] == b;
    assert s.done[i + 1 + j] == b < s.done[i];
  }

  /** Once nothing is under way, the events were processed in order of arrival exactly
      when no direct event was applied while a replay was unfinished. The program does
      not wait for that: see OvertakenReplay. */
  lemma ArrivalOrderIff(sources: set<string>, load: Contents, run: seq<Fine>, trace: seq<Action>)
    requires IsRun(sources, load, run, trace) && OneSubscriber(run, trace)
    requires Quiescent(run[|trace|])
    ensures var s := run[|trace|];
      s.done == UpTo(|s.accepted|) <==> NoOvertaking(run, trace, |trace|)
  {
    var s, n := run[|trace|], |trace|;
    OrderSoFar(sources, load, run, trace, n);
    if !NoOvertaking(run, trace, n) {
      OvertakenUnsorted(s);
    }
  }
}
