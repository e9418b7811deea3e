/** When the fine steps keep the promise of the coarse ones, and when they do not. */
module FineRefinement {
  import opened Prelude
  import opened Text
  import opened MacAddr
  import opened BindIndexes
  import opened ClientDb
  import opened FineReload
  import opened FineContents
  import Coarse = ReloadProtocol

  /** The coarse step that a fine step stands for, if any: an event counts as it is
      accepted, a reload ends as its queue is drained. */
  function AbstractStep(a: Action): Option<Coarse.Action> {
    match a
    case Accept(ev) => Some(Coarse.Event(ev))
    case Begin => Some(Coarse.Begin)
    case Publish(load) => Some(Coarse.Publish(load))
    case Drain => Some(Coarse.Finish)
    case _ => None
  }

  function Abstract(trace: seq<Action>): seq<Coarse.Action> {
    if trace == [] then []
    else
      var front, step := Abstract(trace[..|trace| - 1]), AbstractStep(trace[|trace| - 1]);
      if step.Some? then front + [step.value] else front
  }

  /** No reload begins while an event let past the queue is still unapplied. */
  ghost predicate NoneLeftBehind(run: seq<Fine>, trace: seq<Action>)
    requires |run| == |trace| + 1
  {
    forall k {:trigger trace[k]} :: 0 <= k < |trace| && trace[k].Begin? ==> run[k].held == []
  }

  /** The tickets that count as applied already. */
  function Underway(s: Fine): seq<nat> {
    s.replay + Tickets(s.held)
  }

  /** s stands for c: what is drained or let past counts as applied. */
  ghost predicate StandsFor(s: Fine, c: Coarse.State) {
    match c
    case State(contents, reloading, pending) =>
      && |s.held| <= 1 && (s.held != [] ==> s.held[0].seen in {None, Some(s.snapshot)})
      && (s.reloading ==> s.replay == [] && s.held == []) && (!s.reloading ==> s.pending == [])
      && Known(s.accepted, Underway(s)) && Known(s.accepted, s.pending)
      && reloading == s.reloading
      && pending == EventsOf(s.accepted, s.pending)
      && contents == Replayed(s.contents, EventsOf(s.accepted, Underway(s)))
  }

  /** c takes this step, if it is one, and ends in c'. */
  ghost predicate Takes(sources: set<string>, c: Coarse.State, step: Option<Coarse.Action>, c': Coarse.State) {
    match step
    case None => c' == c
    case Some(a) => Coarse.Enabled(sources, c, a) && c' == Coarse.Next(c, a)
  }

  lemma QueuedStandsFor(s: Fine, c: Coarse.State, ev: BindEvent)
    requires StandsFor(s, c) && s.held == [] && s.reloading
    ensures StandsFor(Taken(s, ev), Coarse.Next(c, Coarse.Event(ev)))
  {
    assert Underway(s) == [] && Underway(Taken(s, ev)) == [];
    EventsGrow(s.accepted, ev, s.pending);
    EventsGrow(s.accepted, ev, []);
  }

  lemma PassedStandsFor(s: Fine, c: Coarse.State, ev: BindEvent)
    requires StandsFor(s, c) && s.held == [] && !s.reloading
    ensures StandsFor(Taken(s, ev), Coarse.Next(c, Coarse.Event(ev)))
  {
    var t := |s.accepted|;
    TicketsSnoc([], Held(t, None));
    assert s.held + [Held(t, None)] == [Held(t, None)];
    assert Underway(s) == s.replay && Underway(Taken(s, ev)) == s.replay + [t];
    EventsGrow(s.accepted, ev, s.replay);
    EventsGrow(s.accepted, ev, []);
    ReplayedSnoc(s.contents, EventsOf(s.accepted, s.replay), ev);
  }

  lemma AcceptStandsFor(s: Fine, c: Coarse.State, ev: BindEvent)
    requires StandsFor(s, c) && s.held == []
    ensures StandsFor(Taken(s, ev), Coarse.Next(c, Coarse.Event(ev)))
  {
    if s.reloading {
      QueuedStandsFor(s, c, ev);
    } else {
      PassedStandsFor(s, c, ev);
    }
  }

  lemma ReplayOne(c: Contents, ev: BindEvent, rest: seq<BindEvent>)
    ensures Replayed(c, [ev] + rest) == Replayed(Applied(c, ev), rest)
  {
    ReplayedConcat(c, [ev], rest);
    assert [ev][..0] == [];
  }

  lemma PatchStandsFor(s: Fine, c: Coarse.State)
    requires StandsFor(s, c) && |s.held| == 1 && s.replay == [] && s.held[0].seen.Some?
    requires s.held[0].ticket < |s.accepted|
    ensures StandsFor(Patched(s, 0), c)
  {
    var t := s.held[0].ticket;
    assert s.held == [s.held[0]] && s.held[..0] == [] && s.held[1..] == [];
    assert Without(s.held, 0) == [];
    assert Tickets(s.held) == [t];
    assert Underway(s) == [t] && Underway(Patched(s, 0)) == [];
    assert EventsOf(s.accepted, [t]) == [s.accepted[t]] + [];
    ReplayOne(s.contents, s.accepted[t], []);
  }

  lemma ReplayStandsFor(sources: set<string>, s: Fine, c: Coarse.State)
    requires StandsFor(s, c) && Enabled(sources, s, ReplayNext)
    ensures StandsFor(Next(sources, s, ReplayNext), c)
  {
    var t, rest := s.replay[0], s.replay[1..] + Tickets(s.held);
    assert Underway(s) == [t] + rest;
    assert forall x :: x in rest ==> x in Underway(s);
    assert EventsOf(s.accepted, Underway(s)) == [s.accepted[t]] + EventsOf(s.accepted, rest);
    ReplayOne(s.contents, s.accepted[t], EventsOf(s.accepted, rest));
  }

  lemma ReloadStandsFor(sources: set<string>, s: Fine, c: Coarse.State, a: Action) returns (c': Coarse.State)
    requires StandsFor(s, c) && Enabled(sources, s, a) && s.held == []
    requires a.Begin? || a.Publish? || a.Drain?
    ensures Takes(sources, c, AbstractStep(a), c') && StandsFor(Next(sources, s, a), c')
  {
    c' := Coarse.Next(c, AbstractStep(a).value);
    assert Underway(s) == s.replay && Underway(Next(sources, s, a)) == Next(sources, s, a).replay;
  }

  lemma LookStandsFor(sources: set<string>, s: Fine, c: Coarse.State, i: nat)
    requires StandsFor(s, c) && Enabled(sources, s, Look(i))
    ensures StandsFor(Next(sources, s, Look(i)), c)
  {
    TicketsLooked(s.held, i, Some(s.snapshot));
  }

  lemma StepStandsFor(sources: set<string>, s: Fine, c: Coarse.State, a: Action) returns (c': Coarse.State)
    requires StandsFor(s, c) && Enabled(sources, s, a)
    requires (a.Accept? || a.Begin? ==> s.held == []) && (a.ApplyHeld? ==> s.replay == [])
    ensures Takes(sources, c, AbstractStep(a), c') && StandsFor(Next(sources, s, a), c')
  {
    match a {
      case Accept(ev) =>
        c' := Coarse.Next(c, Coarse.Event(ev));
        AcceptStandsFor(s, c, ev);
      case Look(i) =>
        c' := c;
        LookStandsFor(sources, s, c, i);
      case ApplyHeld(i) =>
        c' := c;
        PatchStandsFor(s, c);
      case ReplayNext =>
        c' := c;
        ReplayStandsFor(sources, s, c);
      case _ =>
        c' := ReloadStandsFor(sources, s, c, a);
    }
  }

  lemma TakesExtends(sources: set<string>, start: Coarse.State, trace: seq<Action>, a: Action, c': Coarse.State)
    requires Coarse.Legal(sources, start, Abstract(trace))
    requires Takes(sources, Coarse.Run(start, Abstract(trace)), AbstractStep(a), c')
    ensures Coarse.Legal(sources, start, Abstract(trace + [a])) && Coarse.Run(start, Abstract(trace + [a])) == c'
  {
    var before := Abstract(trace);
    assert (trace + [a])[..|trace|] == trace;
    match AbstractStep(a) {
      case None =>
      case Some(step) => assert (before + [step])[..|before|] == before;
    }
  }

  /** With one subscriber, no overtaking, and no event left behind at the beginning of a
      reload, every fine run stands for a legal coarse run. */
  lemma {:induction false} GuardedRunRefines(sources: set<string>, load: Contents, run: seq<Fine>, trace: seq<Action>,
                                             k: nat)
    requires IsRun(sources, load, run, trace) && k <= |trace|
    requires OneSubscriber(run, trace) && NoOvertaking(run, trace, |trace|) && NoneLeftBehind(run, trace)
    ensures Coarse.Legal(sources, Coarse.Started(load), Abstract(trace[..k]))
    ensures StandsFor(run[k], Coarse.Run(Coarse.Started(load), Abstract(trace[..k])))
  {
    if k > 0 {
      GuardedRunRefines(sources, load, run, trace, k - 1);
      assert trace[..k] == trace[..k - 1] + [trace[k - 1]];
      RefinesFurther(sources, load, run[k - 1], trace[..k - 1], trace[k - 1]);
    }
  }

  lemma RefinesFurther(sources: set<string>, load: Contents, s: Fine, before: seq<Action>, a: Action)
    requires Coarse.Legal(sources, Coarse.Started(load), Abstract(before))
    requires StandsFor(s, Coarse.Run(Coarse.Started(load), Abstract(before))) && Enabled(sources, s, a)
    requires (a.Accept? || a.Begin? ==> s.held == []) && (a.ApplyHeld? ==> s.replay == [])
    ensures Coarse.Legal(sources, Coarse.Started(load), Abstract(before + [a]))
    ensures StandsFor(Next(sources, s, a), Coarse.Run(Coarse.Started(load), Abstract(before + [a])))
  {
    var start := Coarse.Started(load);
    var c' := StepStandsFor(sources, s, Coarse.Run(start, Abstract(before)), a);
    TakesExtends(sources, start, before, a, c');
  }

  lemma {:induction false} HeldSinceBegin(sources: set<string>, load: Contents, run: seq<Fine>, trace: seq<Action>,
                                          b: nat, k: nat)
    requires IsRun(sources, load, run, trace) && b <= k <= |trace| && run[b].held == []
    ensures forall h :: h in run[k].held ==> h.ticket >= |run[b].accepted|
  {
    if k > b {
      HeldSinceBegin(sources, load, run, trace, b, k - 1);
      AcceptedGrows(sources, load, run, trace, b, k - 1);
      var a := trace[k - 1];
    }
  }

  /** The guards leave no step that disturbs: so in such a run, once nothing is under way, the
      store holds the last load with exactly the events accepted since its reload began. */
  lemma GuardedNothingLost(sources: set<string>, load: Contents, run: seq<Fine>, trace: seq<Action>, b: nat, p: nat)
    requires IsRun(sources, load, run, trace)
    requires OneSubscriber(run, trace) && NoOvertaking(run, trace, |trace|) && NoneLeftBehind(run, trace)
    requires Quiescent(run[|trace|]) && IsLastPublish(trace, p) && IsBeginOf(trace, b, p)
    ensures run[|trace|].contents == Replayed(trace[p].load, Since(run[b], run[|trace|]))
  {
    var lo := |run[b].accepted|;
    forall j | p < j < |trace| ensures !Disturbs(run[j], trace[j], lo) {
      HeldSinceBegin(sources, load, run, trace, b, j);
    }
    EffectsInOrderIff(sources, load, run, trace, b, p);
  }

  // ------------------------------------------------------------------- without the guards

  /** A run of the program, and the state it has reached. */
  ghost predicate Reaches(sources: set<string>, load: Contents, run: seq<Fine>, trace: seq<Action>, last: Fine) {
    IsRun(sources, load, run, trace) && OneSubscriber(run, trace) && run[|trace|] == last
  }

  lemma OneMore(sources: set<string>, load: Contents, run: seq<Fine>, trace: seq<Action>, s: Fine, a: Action, next: Fine)
    returns (longer: seq<Fine>)
    requires Reaches(sources, load, run, trace, s) && Enabled(sources, s, a) && next == Next(sources, s, a)
    requires a.Accept? ==> s.held == []
    ensures Reaches(sources, load, longer, trace + [a], next)
  {
    longer := run + [next];
  }

  function OvertakingTrace(load: Contents, add: BindEvent, delete: BindEvent): seq<Action> {
    [Begin] + [Accept(add)] + [Publish(load)] + [Drain] + [Accept(delete)] + [Look(0)] + [ApplyHeld(0)] + [ReplayNext]
  }

  /** Up to the publication: a reload during which add was queued. */
  lemma QueuedRun(load: Contents, add: BindEvent) returns (run: seq<Fine>)
    requires Coarse.GoodLoad({"c"}, load)
    ensures Reaches({"c"}, load, run, [Begin] + [Accept(add)] + [Publish(load)], Fine(load, 1, true, [0], [], [], [], [add]))
  {
    var start, begun := Started(load), Fine(load, 0, true, [], [], [], [], []);
    var queued := Fine(load, 0, true, [0], [], [], [], [add]);
    run := OneMore({"c"}, load, [start], [], start, Begin, begun);
    assert [] + [Begin] == [Begin];
    run := OneMore({"c"}, load, run, [Begin], begun, Accept(add), queued);
    run := OneMore({"c"}, load, run, [Begin] + [Accept(add)], queued, Publish(load), queued.(snapshot := 1));
  }

  /** On to a delete that arrives after the queue was drained. */
  lemma DrainedRun(load: Contents, add: BindEvent, delete: BindEvent) returns (run: seq<Fine>)
    requires Coarse.GoodLoad({"c"}, load)
    ensures Reaches({"c"}, load, run, [Begin] + [Accept(add)] + [Publish(load)] + [Drain] + [Accept(delete)],
                    Fine(load, 1, false, [], [0], [Held(1, None)], [], [add, delete]))
  {
    var trace := [Begin] + [Accept(add)] + [Publish(load)];
    var published, drained := Fine(load, 1, true, [0], [], [], [], [add]), Fine(load, 1, false, [], [0], [], [], [add]);
    var passed := Fine(load, 1, false, [], [0], [Held(1, None)], [], [add, delete]);
    run := QueuedRun(load, add);
    run := OneMore({"c"}, load, run, trace, published, Drain, drained);
    run := OneMore({"c"}, load, run, trace + [Drain], drained, Accept(delete), passed);
  }

  lemma OvertakingRun(load: Contents, add: BindEvent, delete: BindEvent) returns (run: seq<Fine>)
    requires Coarse.GoodLoad({"c"}, load)
    ensures Reaches({"c"}, load, run, OvertakingTrace(load, add, delete),
                    Fine(Applied(Applied(load, delete), add), 1, false, [], [], [], [1, 0], [add, delete]))
  {
    var trace := [Begin] + [Accept(add)] + [Publish(load)] + [Drain] + [Accept(delete)];
    var passed := Fine(load, 1, false, [], [0], [Held(1, None)], [], [add, delete]);
    var seen := passed.(held := [Held(1, Some(1))]);
    var overtaken := Fine(Applied(load, delete), 1, false, [], [0], [], [1], [add, delete]);
    var last := Fine(Applied(Applied(load, delete), add), 1, false, [], [], [], [1, 0], [add, delete]);
    run := DrainedRun(load, add, delete);
    run := OneMore({"c"}, load, run, trace, passed, Look(0), seen);
    run := OneMore({"c"}, load, run, trace + [Look(0)], seen, ApplyHeld(0), overtaken);
    run := OneMore({"c"}, load, run, trace + [Look(0)] + [ApplyHeld(0)], overtaken, ReplayNext, last);
  }

  /** An event queued during a reload is overtaken by one that arrives after the queue
      was drained: id 7 is added, then deleted, and stays. */
  lemma OvertakenReplay(load: Contents, add: BindEvent, delete: BindEvent) returns (run: seq<Fine>)
    requires add == BindEvent("c", "add", EventObject("7", "1", "A", "", ""))
    requires delete == BindEvent("c", "delete", EventObject("7", "", "", "", ""))
    requires Coarse.GoodLoad({"c"}, load)
    ensures var trace := OvertakingTrace(load, add, delete);
      IsRun({"c"}, load, run, trace) && OneSubscriber(run, trace)
    ensures Quiescent(run[8]) && run[8].accepted == [add, delete] && run[8].done == [1, 0]
    ensures Present(run[8].contents, "7") && !Present(Replayed(load, [add, delete]), "7")
  {
    run := OvertakingRun(load, add, delete);
    AddOrDelete(load, add, delete);
    AddOrDelete(Applied(load, delete), add, delete);
    AddOrDelete(Applied(load, add), add, delete);
    ReplayOne(load, add, [delete]);
    ReplayOne(Applied(load, add), delete, []);
    assert [add] + [delete] == [add, delete] && [delete] + [] == [delete];
  }

  predicate Present(c: Contents, id: string) {
    "c" in c && HasID(c["c"], id)
  }

  lemma AddOrDelete(c: Contents, add: BindEvent, delete: BindEvent)
    requires add == BindEvent("c", "add", EventObject("7", "1", "A", "", ""))
    requires delete == BindEvent("c", "delete", EventObject("7", "", "", "", ""))
    requires "c" in c
    ensures Present(Applied(c, add), "7") && !Present(Applied(c, delete), "7")
    ensures "c" in Applied(c, delete)
  {
    AddShows(c, add);
    IDsAfterRemove(c["c"], "7", "7");
  }

  lemma AddShows(c: Contents, add: BindEvent)
    requires add == BindEvent("c", "add", EventObject("7", "1", "A", "", "")) && "c" in c
    ensures Present(Applied(c, add), "7")
  {
    HexDigitsOfHex("A");
    EmptyNormal();
    IPRoundTrip(0, 0, 0, 1);
    assert NatText(1) == "1";
    var b := Judge(add, c.Keys).op.b;
    IDsAfterPut(Removed(c["c"], "7"), b, "7");
  }

  function LeftBehindTrace(newer: Contents, delete: BindEvent): seq<Action> {
    [Accept(delete)] + [Begin] + [Publish(newer)] + [Look(0)] + [ApplyHeld(0)] + [Drain]
  }

  /** Up to the publication: an event was let past just before the reload began. */
  lemma PassedRun(load: Contents, newer: Contents, delete: BindEvent) returns (run: seq<Fine>)
    requires Coarse.GoodLoad({"c"}, newer)
    ensures Reaches({"c"}, load, run, [Accept(delete)] + [Begin] + [Publish(newer)],
                    Fine(newer, 1, true, [], [], [Held(0, None)], [], [delete]))
  {
    var start, passed := Started(load), Fine(load, 0, false, [], [], [Held(0, None)], [], [delete]);
    var begun := passed.(reloading := true);
    run := OneMore({"c"}, load, [start], [], start, Accept(delete), passed);
    assert [] + [Accept(delete)] == [Accept(delete)];
    run := OneMore({"c"}, load, run, [Accept(delete)], passed, Begin, begun);
    run := OneMore({"c"}, load, run, [Accept(delete)] + [Begin], begun, Publish(newer),
                   begun.(contents := newer, snapshot := 1));
  }

  lemma LeftBehindRun(load: Contents, newer: Contents, delete: BindEvent) returns (run: seq<Fine>)
    requires Coarse.GoodLoad({"c"}, newer)
    ensures Reaches({"c"}, load, run, LeftBehindTrace(newer, delete),
                    Fine(Applied(newer, delete), 1, false, [], [], [], [0], [delete]))
  {
    var trace := [Accept(delete)] + [Begin] + [Publish(newer)];
    var published := Fine(newer, 1, true, [], [], [Held(0, None)], [], [delete]);
    var seen := published.(held := [Held(0, Some(1))]);
    var patched := Fine(Applied(newer, delete), 1, true, [], [], [], [0], [delete]);
    run := PassedRun(load, newer, delete);
    run := OneMore({"c"}, load, run, trace, published, Look(0), seen);
    run := OneMore({"c"}, load, run, trace + [Look(0)], seen, ApplyHeld(0), patched);
    run := OneMore({"c"}, load, run, trace + [Look(0)] + [ApplyHeld(0)], patched, Drain, patched.(reloading := false));
  }

  /** An event let past just before a reload begins, and looking up its index just after that
      reload has published, lands on the newer load although it arrived before the load was
      asked for. */
  lemma LeftBehindEvent(load: Contents, newer: Contents, delete: BindEvent) returns (run: seq<Fine>)
    requires delete == BindEvent("c", "delete", EventObject("7", "", "", "", ""))
    requires Coarse.GoodLoad({"c"}, newer) && Present(newer, "7")
    ensures var trace := LeftBehindTrace(newer, delete); IsRun({"c"}, load, run, trace) && OneSubscriber(run, trace)
    ensures Quiescent(run[6]) && !run[6].reloading
    ensures !Present(run[6].contents, "7") && run[6].contents != Replayed(newer, [])
  {
    run := LeftBehindRun(load, newer, delete);
    IDsAfterRemove(newer["c"], "7", "7");
  }
}
