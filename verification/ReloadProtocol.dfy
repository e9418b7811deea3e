/** Reloads against live events (clientdb/store.go:115-167, clientdb/live.go:125-134),
    with ApplyBindEvent and the end of a reload (drain and replay) each taken as one
    step. Module FineReload splits them where the lock is released. */
module ReloadProtocol {
  import opened ClientDb

  /** What a store amounts to: its binds, whether a reload runs, and the events queued. */
  datatype State = State(contents: Contents, reloading: bool, pending: seq<BindEvent>)

  datatype Action =
    | Event(ev: BindEvent)
    | Begin
    | Publish(load: Contents)
    | Finish

  /** A load fit to be published has every configured source, none of them empty. */
  ghost predicate GoodLoad(sources: set<string>, load: Contents) {
    load.Keys == sources && forall name :: name in load ==> load[name] != []
  }

  ghost predicate Enabled(sources: set<string>, s: State, a: Action) {
    match a
    case Event(_) => true
    case Begin => !s.reloading
    case Publish(load) => s.reloading && GoodLoad(sources, load)
    case Finish => s.reloading
  }

  function Next(s: State, a: Action): State {
    match a
    case Event(ev) =>
      if s.reloading then s.(pending := s.pending + [ev]) else s.(contents := Applied(s.contents, ev))
    case Begin => s.(reloading := true)
    case Publish(load) => s.(contents := load)
    case Finish => State(Replayed(s.contents, s.pending), false, [])
  }

  function Run(s: State, trace: seq<Action>): State {
    if trace == [] then s else Next(Run(s, trace[..|trace| - 1]), trace[|trace| - 1])
  }

  ghost predicate Legal(sources: set<string>, s: State, trace: seq<Action>) {
    trace == [] || (
      var before := trace[..|trace| - 1];
      Legal(sources, s, before) && Enabled(sources, Run(s, before), trace[|trace| - 1]))
  }

  /** The store just after New. */
  function Started(load: Contents): State {
    State(load, false, [])
  }

  // -------------------------------------------------- what the trace says about events

  function Events(trace: seq<Action>): seq<BindEvent> {
    if trace == [] then []
    else
      var a, front := trace[|trace| - 1], Events(trace[..|trace| - 1]);
      if a.Event? then front + [a.ev] else front
  }

  /** p is the last publication of the trace. */
  ghost predicate IsLastPublish(trace: seq<Action>, p: nat) {
    p < |trace| && trace[p].Publish? && forall q {:trigger trace[q]} :: p < q < |trace| ==> !trace[q].Publish?
  }

  /** b is the beginning of the reload that is under way at p. */
  ghost predicate IsBeginOf(trace: seq<Action>, b: nat, p: nat) {
    b < p <= |trace| && trace[b].Begin? && forall q {:trigger trace[q]} :: b < q < p ==> !trace[q].Begin?
  }

  // -------------------------------------------- the same, kept up to date step by step

  function Base(load: Contents, trace: seq<Action>): Contents {
    if trace == [] then load
    else if trace[|trace| - 1].Publish? then trace[|trace| - 1].load
    else Base(load, trace[..|trace| - 1])
  }

  /** The events since the last begin. */
  function SinceBegin(trace: seq<Action>): seq<BindEvent> {
    if trace == [] then []
    else
      var a, front := trace[|trace| - 1], SinceBegin(trace[..|trace| - 1]);
      if a.Event? then front + [a.ev] else if a.Begin? then [] else front
  }

  /** The events since the reload of the last publication began. */
  function SinceBase(trace: seq<Action>): seq<BindEvent> {
    if trace == [] then []
    else
      var a, front := trace[|trace| - 1], trace[..|trace| - 1];
      if a.Event? then SinceBase(front) + [a.ev]
      else if a.Publish? then SinceBegin(front)
      else SinceBase(front)
  }

  lemma {:induction false} SinceBeginIs(trace: seq<Action>, b: nat)
    requires IsBeginOf(trace, b, |trace|)
    ensures SinceBegin(trace) == Events(trace[b..])
  {
    var n := |trace| - 1;
    var front := trace[..n];
    if b < n {
      assert forall q :: 0 <= q < n ==> front[q] == trace[q];
      SinceBeginIs(front, b);
      assert trace[b..][..n - b] == front[b..];
    } else {
      assert trace[b..] == [Begin];
    }
  }

  lemma {:induction false} SinceBaseIs(trace: seq<Action>, b: nat, p: nat)
    requires IsLastPublish(trace, p) && IsBeginOf(trace, b, p)
    ensures SinceBase(trace) == Events(trace[b..])
  {
    var n := |trace| - 1;
    var front := trace[..n];
    assert forall q :: 0 <= q < n ==> front[q] == trace[q];
    assert trace[b..][..n - b] == front[b..];
    if p < n {
      SinceBaseIs(front, b, p);
    } else {
      SinceBeginIs(front, b);
    }
  }

  lemma {:induction false} SinceStartIs(load: Contents, trace: seq<Action>)
    requires forall q :: 0 <= q < |trace| ==> !trace[q].Publish?
    ensures Base(load, trace) == load && SinceBase(trace) == Events(trace)
  {
    if trace != [] {
      SinceStartIs(load, trace[..|trace| - 1]);
    }
  }

  lemma {:induction false} BaseIs(load: Contents, trace: seq<Action>, p: nat)
    requires IsLastPublish(trace, p)
    ensures Base(load, trace) == trace[p].load
  {
    var front := trace[..|trace| - 1];
    if p < |front| {
      assert forall q :: 0 <= q < |front| ==> front[q] == trace[q];
      BaseIs(load, front, p);
    }
  }

  /** One step, from the load, the events since its reload began and those since the last begin. */
  lemma BalanceStep(sources: set<string>, s: State, a: Action, base: Contents, since: seq<BindEvent>, begun: seq<BindEvent>)
    requires Enabled(sources, s, a) && s.contents.Keys == sources
    requires Replayed(s.contents, s.pending) == Replayed(base, since)
    requires s.pending == if s.reloading then begun else []
    ensures var next := Next(s, a);
      && next.contents.Keys == sources
      && next.pending == (if !next.reloading || a.Begin? then [] else if a.Event? then begun + [a.ev] else begun)
      && Replayed(next.contents, next.pending)
         == (if a.Publish? then Replayed(a.load, begun)
             else Replayed(base, if a.Event? then since + [a.ev] else since))
  {
    match a {
      case Event(ev) =>
        ReplayedSnoc(s.contents, s.pending, ev);
        ReplayedSnoc(base, since, ev);
      case Begin =>
      case Publish(_) =>
      case Finish =>
        ReplayedKeys(s.contents, s.pending);
    }
  }

  /** Kept by every step: replaying the queue on the current contents gives the last
      load with exactly the events since its reload began. */
  lemma {:induction false} Balance(sources: set<string>, load: Contents, trace: seq<Action>)
    requires GoodLoad(sources, load) && Legal(sources, Started(load), trace)
    ensures var s := Run(Started(load), trace);
      && Replayed(s.contents, s.pending) == Replayed(Base(load, trace), SinceBase(trace))
      && s.pending == (if s.reloading then SinceBegin(trace) else [])
      && s.contents.Keys == sources
  {
    if trace != [] {
      var before, a := trace[..|trace| - 1], trace[|trace| - 1];
      Balance(sources, load, before);
      BalanceStep(sources, Run(Started(load), before), a, Base(load, before), SinceBase(before), SinceBegin(before));
    }
  }

  // ------------------------------------------------------------------- the guarantee

  /** After any run whose last publication is at p, by a reload begun at b: the current
      contents followed by the queue are that load followed by exactly the events from
      b on, each once and in order of arrival. Outside a reload the queue is empty. */
  lemma NothingLost(sources: set<string>, load: Contents, trace: seq<Action>, b: nat, p: nat)
    requires GoodLoad(sources, load) && Legal(sources, Started(load), trace)
    requires IsLastPublish(trace, p) && IsBeginOf(trace, b, p)
    ensures var s := Run(Started(load), trace);
      && Replayed(s.contents, s.pending) == Replayed(trace[p].load, Events(trace[b..]))
      && (!s.reloading ==> s.pending == [] && s.contents == Replayed(trace[p].load, Events(trace[b..])))
  {
    Balance(sources, load, trace);
    BaseIs(load, trace, p);
    SinceBaseIs(trace, b, p);
  }

  /** The same before any reload has published: then everything since the start counts. */
  lemma NothingLostSinceStart(sources: set<string>, load: Contents, trace: seq<Action>)
    requires GoodLoad(sources, load) && Legal(sources, Started(load), trace)
    requires forall q :: 0 <= q < |trace| ==> !trace[q].Publish?
    ensures var s := Run(Started(load), trace);
      && Replayed(s.contents, s.pending) == Replayed(load, Events(trace))
      && (!s.reloading ==> s.pending == [] && s.contents == Replayed(load, Events(trace)))
  {
    Balance(sources, load, trace);
    SinceStartIs(load, trace);
  }

  /** Every publication has a reload that began before it, so one of the two lemmas
      above covers every run; every load published is good, and the sources stay. */
  lemma {:induction false} EveryPublishHasBegin(sources: set<string>, load: Contents, trace: seq<Action>, p: nat)
    returns (b: nat)
    requires GoodLoad(sources, load) && Legal(sources, Started(load), trace)
    requires p < |trace| && trace[p].Publish?
    ensures IsBeginOf(trace, b, p)
    ensures trace[p].load.Keys == sources && forall name :: name in sources ==> trace[p].load[name] != []
    ensures Run(Started(load), trace).contents.Keys == sources
  {
    Balance(sources, load, trace);
    var front := trace[..|trace| - 1];
    if p < |front| {
      b := EveryPublishHasBegin(sources, load, front, p);
      assert forall q :: 0 <= q < |front| ==> front[q] == trace[q];
    } else {
      b := ReloadingHasBegin(sources, Started(load), front);
      assert forall q :: 0 <= q < |front| ==> front[q] == trace[q];
    }
  }

  lemma {:induction false} ReloadingHasBegin(sources: set<string>, s: State, trace: seq<Action>) returns (b: nat)
    requires Legal(sources, s, trace) && !s.reloading && Run(s, trace).reloading
    ensures IsBeginOf(trace, b, |trace|)
  {
    var front := trace[..|trace| - 1];
    if trace[|front|].Begin? {
      b := |front|;
    } else {
      b := ReloadingHasBegin(sources, s, front);
      assert forall q :: 0 <= q < |front| ==> front[q] == trace[q];
    }
  }

  // ----------------------------------------------------------------- failed reloads

  function AllEvents(evs: seq<BindEvent>): seq<Action> {
    seq(|evs|, i requires 0 <= i < |evs| => Event(evs[i]))
  }

  lemma {:induction false} EventsApply(s: State, evs: seq<BindEvent>)
    ensures Run(s, AllEvents(evs)) == if s.reloading then s.(pending := s.pending + evs)
                                      else s.(contents := Replayed(s.contents, evs))
  {
    if evs == [] {
      assert s.pending + evs == s.pending;
    } else {
      var front := evs[..|evs| - 1];
      assert AllEvents(evs)[..|front|] == AllEvents(front);
      EventsApply(s, front);
      assert s.pending + evs == s.pending + front + [evs[|front|]];
    }
  }

  /** A reload that fails leaves no trace: the events that came meanwhile have the same
      effect as if it had never run. */
  lemma FailedReloadInvisible(s: State, evs: seq<BindEvent>)
    requires !s.reloading && s.pending == []
    ensures Run(s, [Begin] + AllEvents(evs) + [Finish]) == Run(s, AllEvents(evs))
  {
    FailedReloadEnds(s, evs);
    EventsApply(s, evs);
  }

  lemma FailedReloadEnds(s: State, evs: seq<BindEvent>)
    requires !s.reloading && s.pending == []
    ensures Run(s, [Begin] + AllEvents(evs) + [Finish]) == s.(contents := Replayed(s.contents, evs))
  {
    QueuedSinceBegin(s, evs);
    RunMore(s, [Begin] + AllEvents(evs), Finish);
  }

  lemma QueuedSinceBegin(s: State, evs: seq<BindEvent>)
    requires !s.reloading && s.pending == []
    ensures Run(s, [Begin] + AllEvents(evs)) == State(s.contents, true, evs)
  {
    RunAfterBegin(s, AllEvents(evs));
    EventsApply(Next(s, Begin), evs);
    assert s.pending + evs == evs;
  }

  lemma RunMore(s: State, trace: seq<Action>, a: Action)
    ensures Run(s, trace + [a]) == Next(Run(s, trace), a)
  {
    assert (trace + [a])[..|trace|] == trace;
  }

  lemma {:induction false} RunAfterBegin(s: State, trace: seq<Action>)
    ensures Run(s, [Begin] + trace) == Run(Next(s, Begin), trace)
  {
    if trace == [] {
      assert [Begin] + trace == [] + [Begin];
      RunMore(s, [], Begin);
    } else {
      var front, last := trace[..|trace| - 1], trace[|trace| - 1];
      RunAfterBegin(s, front);
      RunMore(s, [Begin] + front, last);
      assert [Begin] + trace == [Begin] + front + [last];
    }
  }
}
