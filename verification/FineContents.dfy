/** What the store holds in a run of the fine steps, with any number of reloads: the last load with
    the events that took effect on it. */
module FineContents {
  import opened Prelude
  import opened ClientDb
  import opened FineReload

  // ------------------------------------------------------------------ what took effect

  /** The ticket, if any, that a step applies to the current snapshot: a replayed event always, an
      event let past the queue only if it saw this snapshot. */
  function Effective(s: Fine, a: Action): seq<nat> {
    match a
    case ReplayNext => s.replay[..Min(1, |s.replay|)]
    case ApplyHeld(i) => if i < |s.held| && s.held[i].seen == Some(s.snapshot) then [s.held[i].ticket] else []
    case _ => []
  }

  /** The tickets applied to the current snapshot in the first k steps, in the order of their effects. */
  function Effects(run: seq<Fine>, trace: seq<Action>, k: nat): seq<nat>
    requires |run| == |trace| + 1 && k <= |trace|
  {
    if k == 0 || trace[k - 1].Publish? then []
    else Effects(run, trace, k - 1) + Effective(run[k - 1], trace[k - 1])
  }

  function LastLoad(load: Contents, trace: seq<Action>, k: nat): Contents
    requires k <= |trace|
  {
    if k == 0 then load
    else match trace[k - 1]
      case Publish(newer) => newer
      case _ => LastLoad(load, trace, k - 1)
  }

  /** The contents are this load with these events. */
  ghost predicate Holds(s: Fine, load: Contents, effects: seq<nat>) {
    Known(s.accepted, effects) && s.contents == Replayed(load, EventsOf(s.accepted, effects))
  }

  lemma EffectAdded(s: Fine, load: Contents, effects: seq<nat>, t: nat)
    requires Holds(s, load, effects) && t < |s.accepted|
    ensures Known(s.accepted, effects + [t])
    ensures Replayed(load, EventsOf(s.accepted, effects + [t])) == Applied(s.contents, s.accepted[t])
  {
    assert EventsOf(s.accepted, effects + [t]) == EventsOf(s.accepted, effects) + [s.accepted[t]];
    ReplayedSnoc(load, EventsOf(s.accepted, effects), s.accepted[t]);
  }

  lemma EffectStep(sources: set<string>, s: Fine, a: Action, load: Contents, effects: seq<nat>)
    requires Holds(s, load, effects) && Enabled(sources, s, a) && !a.Publish?
    ensures Holds(Next(sources, s, a), load, effects + Effective(s, a))
  {
    assert effects + [] == effects && (s.replay != [] ==> s.replay[..1] == [s.replay[0]]);
    match a {
      case Accept(ev) => EventsGrow(s.accepted, ev, effects);
      case ApplyHeld(i) => EffectAdded(s, load, effects, s.held[i].ticket);
      case ReplayNext => EffectAdded(s, load, effects, s.replay[0]);
      case _ =>
    }
  }

  /** In every run, with any number of goroutines: the store holds the last published load with
      exactly the events that took effect on it, in the order of their effects. */
  lemma {:induction false} ContentsAreEffects(sources: set<string>, load: Contents, run: seq<Fine>, trace: seq<Action>,
                                              k: nat)
    requires IsRun(sources, load, run, trace) && k <= |trace|
    ensures Holds(run[k], LastLoad(load, trace, k), Effects(run, trace, k))
  {
    if k > 0 {
      ContentsAreEffects(sources, load, run, trace, k - 1);
      var a := trace[k - 1];
      if !a.Publish? {
        EffectStep(sources, run[k - 1], a, LastLoad(load, trace, k - 1), Effects(run, trace, k - 1));
      }
    }
  }

  // --------------------------------------------------- when exactly the newer events did

  /** The tickets from lo up to hi. */
  function Range(lo: nat, hi: nat): (r: seq<nat>)
    ensures |r| == if lo <= hi then hi - lo else 0
  {
    UpTo(hi)[Min(lo, hi)..]
  }

  /** The step applies to the current snapshot an event accepted before the first lo, or ahead of a
      replay. */
  predicate Disturbs(s: Fine, a: Action, lo: nat) {
    && a.ApplyHeld? && a.i < |s.held| && s.held[a.i].seen == Some(s.snapshot)
    && (s.held[a.i].ticket < lo || s.replay != [])
  }

  ghost predicate Undisturbed(run: seq<Fine>, trace: seq<Action>, lo: nat, from: nat, k: nat)
    requires |run| == |trace| + 1 && k <= |trace|
  {
    forall j {:trigger Disturbs(run[j], trace[j], lo)} :: from <= j < k ==> !Disturbs(run[j], trace[j], lo)
  }

  /** What one subscriber guarantees at any time. */
  ghost predicate OneHeld(s: Fine) {
    match s
    case Fine(_, _, reloading, pending, replay, held, _, accepted) =>
      && |held| <= 1 && (held != [] ==> pending == [] && held[0].ticket < |accepted|)
      && (reloading ==> replay == []) && (!reloading ==> pending == [])
  }

  lemma OneHeldStep(sources: set<string>, s: Fine, a: Action)
    requires OneHeld(s) && Enabled(sources, s, a) && (a.Accept? ==> s.held == [])
    ensures OneHeld(Next(sources, s, a))
  {
  }

  lemma {:induction false} OneHeldSoFar(sources: set<string>, load: Contents, run: seq<Fine>, trace: seq<Action>, k: nat)
    requires IsRun(sources, load, run, trace) && OneSubscriber(run, trace) && k <= |trace|
    ensures OneHeld(run[k])
  {
    if k > 0 {
      OneHeldSoFar(sources, load, run, trace, k - 1);
      var a := trace[k - 1];
      OneHeldStep(sources, run[k - 1], a);
    }
  }

  /** The ticket held, if it is not older than lo. */
  function Recent(held: seq<Held>, lo: nat): seq<nat> {
    if |held| == 1 && held[0].ticket >= lo then [held[0].ticket] else []
  }

  /** All tickets from lo on are in line: in effect, to be replayed, held or queued; and one held
      saw the current snapshot, if it looked. */
  ghost predicate InLine(s: Fine, effects: seq<nat>, lo: nat) {
    match s
    case Fine(_, snapshot, _, pending, replay, held, _, accepted) =>
      && OneHeld(s) && lo <= |accepted|
      && effects + replay + Recent(held, lo) + pending == Range(lo, |accepted|)
      && (held != [] && held[0].ticket >= lo ==> held[0].seen in {None, Some(snapshot)})
  }

  /** The i-th effect is older than lo, or an older one comes after it. */
  ghost predicate SpoiledBy(s: Fine, effects: seq<nat>, lo: nat, i: nat, b: nat) {
    i < |effects| && (effects[i] < lo || (b < effects[i] && (b in s.replay || b in effects[i + 1..])))
  }

  ghost predicate Spoiled(s: Fine, effects: seq<nat>, lo: nat) {
    exists i: nat, b: nat :: SpoiledBy(s, effects, lo, i, b)
  }

  lemma AcceptInLine(s: Fine, effects: seq<nat>, lo: nat, ev: BindEvent)
    requires InLine(s, effects, lo) && s.held == []
    ensures InLine(Taken(s, ev), effects, lo)
  {
    var t := |s.accepted|;
    assert Range(lo, t + 1) == Range(lo, t) + [t];
    if s.reloading {
      Regrouped(effects, s.replay, [], s.pending, t);
    } else {
      assert effects + s.replay + [] + [] == effects + s.replay;
      assert effects + s.replay + [t] + [] == (effects + s.replay) + [t];
    }
  }

  lemma ApplyInLine(s: Fine, effects: seq<nat>, lo: nat)
    requires InLine(s, effects, lo) && |s.held| == 1 && s.held[0].seen.Some?
    requires !Disturbs(s, ApplyHeld(0), lo)
    ensures InLine(Patched(s, 0), effects + Effective(s, ApplyHeld(0)), lo)
  {
    var t := s.held[0].ticket;
    assert Without(s.held, 0) == [];
    if s.held[0].seen == Some(s.snapshot) {
      assert effects + [] + [t] + [] == (effects + [t]) + [] + [] + [];
    } else {
      assert effects + [] == effects;
    }
  }

  lemma ReplayInLine(sources: set<string>, s: Fine, effects: seq<nat>, lo: nat)
    requires InLine(s, effects, lo) && Enabled(sources, s, ReplayNext)
    ensures InLine(Next(sources, s, ReplayNext), effects + Effective(s, ReplayNext), lo)
  {
    var x, rest := s.replay[0], s.replay[1..];
    assert s.replay == [x] + rest && Effective(s, ReplayNext) == [x];
    Regrouped(effects, rest, [], [], x);
  }

  lemma DrainInLine(sources: set<string>, s: Fine, effects: seq<nat>, lo: nat)
    requires InLine(s, effects, lo) && Enabled(sources, s, Drain)
    ensures InLine(Next(sources, s, Drain), effects, lo)
  {
    if s.held == [] {
      assert effects + [] + [] + s.pending == effects + s.pending + [] + [];
    } else {
      assert effects + [] + Recent(s.held, lo) + [] == effects + s.pending + Recent(s.held, lo) + [];
    }
  }

  lemma StepInLine(sources: set<string>, s: Fine, a: Action, effects: seq<nat>, lo: nat)
    requires InLine(s, effects, lo) && Enabled(sources, s, a) && !a.Publish? && !Disturbs(s, a, lo)
    requires a.Accept? ==> s.held == []
    ensures InLine(Next(sources, s, a), effects + Effective(s, a), lo)
  {
    assert effects + [] == effects;
    match a {
      case Accept(ev) => AcceptInLine(s, effects, lo, ev);
      case ApplyHeld(i) => ApplyInLine(s, effects, lo);
      case ReplayNext => ReplayInLine(sources, s, effects, lo);
      case Drain => DrainInLine(sources, s, effects, lo);
      case _ =>
    }
  }

  /** A step that disturbs the line spoils it ... */
  lemma DisturbedSpoils(sources: set<string>, s: Fine, a: Action, effects: seq<nat>, lo: nat)
    requires InLine(s, effects, lo) && Enabled(sources, s, a) && Disturbs(s, a, lo)
    ensures Spoiled(Next(sources, s, a), effects + Effective(s, a), lo)
  {
    var t, n, after := s.held[0].ticket, |effects|, Next(sources, s, a);
    var all := effects + Effective(s, a);
    assert all[n] == t;
    if t < lo {
      assert SpoiledBy(after, all, lo, n, 0);
    } else {
      var line := effects + s.replay + [t] + [];
      assert line[n] == s.replay[0] && line[n + |s.replay|] == t;
      assert line == Range(lo, |s.accepted|);
      assert line[n] == lo + n && line[n + |s.replay|] == lo + n + |s.replay|;
      assert SpoiledBy(after, all, lo, n, s.replay[0]);
    }
  }

  /** ... for as long as the snapshot stays. */
  lemma StepSpoiled(sources: set<string>, s: Fine, a: Action, effects: seq<nat>, lo: nat)
    requires Spoiled(s, effects, lo) && OneHeld(s) && Enabled(sources, s, a) && !a.Publish?
    ensures Spoiled(Next(sources, s, a), effects + Effective(s, a), lo)
  {
    var i: nat, b: nat :| SpoiledBy(s, effects, lo, i, b);
    var after, all := Next(sources, s, a), effects + Effective(s, a);
    assert all[i] == effects[i] && all[i + 1..] == effects[i + 1..] + Effective(s, a);
    assert SpoiledBy(after, all, lo, i, b);
  }

  /** What is known of the line, given whether it was disturbed. */
  ghost predicate Lined(clean: bool, s: Fine, effects: seq<nat>, lo: nat) {
    if clean then InLine(s, effects, lo) else Spoiled(s, effects, lo)
  }

  lemma LineStep(sources: set<string>, s: Fine, a: Action, effects: seq<nat>, lo: nat, clean: bool)
    requires Lined(clean, s, effects, lo) && OneHeld(s) && Enabled(sources, s, a) && !a.Publish?
    requires a.Accept? ==> s.held == []
    ensures Lined(clean && !Disturbs(s, a, lo), Next(sources, s, a), effects + Effective(s, a), lo)
  {
    if !clean {
      StepSpoiled(sources, s, a, effects, lo);
    } else if Disturbs(s, a, lo) {
      DisturbedSpoils(sources, s, a, effects, lo);
    } else {
      StepInLine(sources, s, a, effects, lo);
    }
  }

  lemma UndisturbedNext(run: seq<Fine>, trace: seq<Action>, lo: nat, from: nat, k: nat)
    requires |run| == |trace| + 1 && from < k <= |trace|
    ensures Undisturbed(run, trace, lo, from, k)
      <==> Undisturbed(run, trace, lo, from, k - 1) && !Disturbs(run[k - 1], trace[k - 1], lo)
  {
  }

  ghost predicate NonePublished(trace: seq<Action>, from: nat, k: nat)
    requires k <= |trace|
  {
    forall j {:trigger trace[j]} :: from <= j < k ==> !trace[j].Publish?
  }

  /** Step k is one that one subscriber allows and that keeps the snapshot. */
  ghost predicate Keeps(sources: set<string>, run: seq<Fine>, trace: seq<Action>, k: nat)
    requires |run| == |trace| + 1
  {
    && k < |trace| && !trace[k].Publish? && (trace[k].Accept? ==> run[k].held == [])
    && OneHeld(run[k]) && Enabled(sources, run[k], trace[k]) && run[k + 1] == Next(sources, run[k], trace[k])
  }

  lemma RunKeeps(sources: set<string>, load: Contents, run: seq<Fine>, trace: seq<Action>, from: nat)
    requires IsRun(sources, load, run, trace) && OneSubscriber(run, trace) && NonePublished(trace, from, |trace|)
    ensures forall k :: from <= k < |trace| ==> Keeps(sources, run, trace, k)
  {
    forall k | from <= k < |trace| ensures Keeps(sources, run, trace, k) {
      OneHeldSoFar(sources, load, run, trace, k);
      var a := trace[k];
    }
  }

  lemma LineNext(sources: set<string>, run: seq<Fine>, trace: seq<Action>, lo: nat, from: nat, k: nat)
    requires |run| == |trace| + 1 && from < k <= |trace| && Keeps(sources, run, trace, k - 1)
    requires Lined(Undisturbed(run, trace, lo, from, k - 1), run[k - 1], Effects(run, trace, k - 1), lo)
    ensures Lined(Undisturbed(run, trace, lo, from, k), run[k], Effects(run, trace, k), lo)
  {
    UndisturbedNext(run, trace, lo, from, k);
    LineStep(sources, run[k - 1], trace[k - 1], Effects(run, trace, k - 1), lo,
             Undisturbed(run, trace, lo, from, k - 1));
  }

  lemma {:induction false} LineSoFar(sources: set<string>, run: seq<Fine>, trace: seq<Action>, lo: nat, from: nat, k: nat)
    requires |run| == |trace| + 1 && from <= k <= |trace|
    requires forall j :: from <= j < |trace| ==> Keeps(sources, run, trace, j)
    requires Effects(run, trace, from) == [] && InLine(run[from], [], lo)
    ensures Lined(Undisturbed(run, trace, lo, from, k), run[k], Effects(run, trace, k), lo)
  {
    if k == from {
      assert Undisturbed(run, trace, lo, from, from);
    } else {
      LineSoFar(sources, run, trace, lo, from, k - 1);
      LineNext(sources, run, trace, lo, from, k);
    }
  }

  // ----------------------------------------------------------- the last reload of a run

  /** p is the last publication of the run. */
  ghost predicate IsLastPublish(trace: seq<Action>, p: nat) {
    p < |trace| && trace[p].Publish? && NonePublished(trace, p + 1, |trace|)
  }

  /** b is the beginning of the reload that is under way at p. */
  ghost predicate IsBeginOf(trace: seq<Action>, b: nat, p: nat) {
    b < p <= |trace| && trace[b].Begin? && forall q {:trigger trace[q]} :: b < q < p ==> !trace[q].Begin?
  }

  lemma {:induction false} ReloadHasBegin(sources: set<string>, load: Contents, run: seq<Fine>, trace: seq<Action>, k: nat)
    returns (b: nat)
    requires IsRun(sources, load, run, trace) && k <= |trace| && run[k].reloading
    ensures IsBeginOf(trace, b, k)
  {
    if trace[k - 1].Begin? {
      b := k - 1;
    } else {
      b := ReloadHasBegin(sources, load, run, trace, k - 1);
    }
  }

  /** A run has no publication, or a last one, which a reload made that began before it: so one of
      the two lemmas below covers it. */
  lemma EveryRunCovered(sources: set<string>, load: Contents, run: seq<Fine>, trace: seq<Action>)
    requires IsRun(sources, load, run, trace)
    ensures NonePublished(trace, 0, |trace|)
      || exists b: nat, p: nat :: IsLastPublish(trace, p) && IsBeginOf(trace, b, p)
  {
    if !NonePublished(trace, 0, |trace|) {
      var p := LastPublish(trace, |trace|);
      var b := ReloadHasBegin(sources, load, run, trace, p);
    }
  }

  lemma {:induction false} LastPublish(trace: seq<Action>, k: nat) returns (p: nat)
    requires k <= |trace| && !NonePublished(trace, 0, k)
    ensures p < k && trace[p].Publish? && NonePublished(trace, p + 1, k)
  {
    if trace[k - 1].Publish? {
      p := k - 1;
    } else {
      p := LastPublish(trace, k - 1);
    }
  }

  /** The queue holds everything accepted from lo on, and nothing of it was let past. */
  ghost predicate QueuedSince(s: Fine, lo: nat) {
    && lo <= |s.accepted| && s.pending == Range(lo, |s.accepted|)
    && forall h :: h in s.held ==> h.ticket < lo
  }

  lemma {:induction false} QueueSoFar(sources: set<string>, load: Contents, run: seq<Fine>, trace: seq<Action>,
                                      b: nat, k: nat)
    requires IsRun(sources, load, run, trace) && OneSubscriber(run, trace) && IsBeginOf(trace, b, k)
    ensures run[k].reloading ==> QueuedSince(run[k], |run[b].accepted|)
  {
    var a := trace[k - 1];
    OneHeldSoFar(sources, load, run, trace, b);
    if k > b + 1 {
      QueueSoFar(sources, load, run, trace, b, k - 1);
    }
  }

  lemma {:induction false} LastLoadIs(load: Contents, trace: seq<Action>, p: nat, k: nat)
    requires p < k <= |trace| && trace[p].Publish?
    requires NonePublished(trace, p + 1, k)
    ensures LastLoad(load, trace, k) == trace[p].load
  {
    if k > p + 1 {
      LastLoadIs(load, trace, p, k - 1);
    }
  }

  lemma {:induction false} LastLoadIsFirst(load: Contents, trace: seq<Action>, k: nat)
    requires k <= |trace| && NonePublished(trace, 0, k)
    ensures LastLoad(load, trace, k) == load
  {
    if k > 0 {
      LastLoadIsFirst(load, trace, k - 1);
    }
  }

  /** The events accepted between two states of a run. */
  function Since(earlier: Fine, later: Fine): seq<BindEvent> {
    later.accepted[Min(|earlier.accepted|, |later.accepted|)..]
  }

  lemma EventsOfRange(accepted: seq<BindEvent>, lo: nat)
    requires lo <= |accepted|
    ensures Known(accepted, Range(lo, |accepted|)) && EventsOf(accepted, Range(lo, |accepted|)) == accepted[lo..]
  {
  }

  lemma SpoiledIsNoRange(s: Fine, effects: seq<nat>, lo: nat)
    requires Spoiled(s, effects, lo) && s.replay == []
    ensures effects != Range(lo, |s.accepted|)
  {
    var i: nat, b: nat :| SpoiledBy(s, effects, lo, i, b);
    if effects[i] >= lo {
      var j :| i < j < |effects| && effects[j] == b;
    }
  }

  /** At rest the line decides: exactly the events from lo on took effect, in order, if and only if
      nothing disturbed them. */
  lemma RestDecides(s: Fine, effects: seq<nat>, lo: nat, clean: bool)
    requires Lined(clean, s, effects, lo) && Quiescent(s)
    ensures effects == Range(lo, |s.accepted|) <==> clean
  {
    if clean {
      assert effects + [] + [] + [] == effects;
    } else {
      SpoiledIsNoRange(s, effects, lo);
    }
  }

  /** The last publication of a run is at p, by a reload begun at b. Once nothing is under way, the
      store holds that load with the tickets in effect; these are the ones accepted from b on, in
      order, if and only if no step after p applied to the published snapshot an event accepted
      before b, or one that overtook a replay. */
  lemma EffectsInOrderIff(sources: set<string>, load: Contents, run: seq<Fine>, trace: seq<Action>, b: nat, p: nat)
    requires IsRun(sources, load, run, trace) && OneSubscriber(run, trace) && Quiescent(run[|trace|])
    requires IsLastPublish(trace, p) && IsBeginOf(trace, b, p)
    ensures var (s, effects, lo) := (run[|trace|], Effects(run, trace, |trace|), |run[b].accepted|);
      && Holds(s, trace[p].load, effects)
      && (effects == Range(lo, |s.accepted|) <==> Undisturbed(run, trace, lo, p + 1, |trace|))
      && (Undisturbed(run, trace, lo, p + 1, |trace|) ==> s.contents == Replayed(trace[p].load, Since(run[b], s)))
  {
    EffectsDecided(sources, load, run, trace, b, p);
    EffectsHeld(sources, load, run, trace, b, p);
  }

  lemma EffectsDecided(sources: set<string>, load: Contents, run: seq<Fine>, trace: seq<Action>, b: nat, p: nat)
    requires IsRun(sources, load, run, trace) && OneSubscriber(run, trace) && Quiescent(run[|trace|])
    requires IsLastPublish(trace, p) && IsBeginOf(trace, b, p)
    ensures Effects(run, trace, |trace|) == Range(|run[b].accepted|, |run[|trace|].accepted|)
       <==> Undisturbed(run, trace, |run[b].accepted|, p + 1, |trace|)
  {
    var n, lo := |trace|, |run[b].accepted|;
    LinedSincePublish(sources, load, run, trace, b, p);
    RestDecides(run[n], Effects(run, trace, n), lo, Undisturbed(run, trace, lo, p + 1, n));
  }

  lemma LinedSincePublish(sources: set<string>, load: Contents, run: seq<Fine>, trace: seq<Action>, b: nat, p: nat)
    requires IsRun(sources, load, run, trace) && OneSubscriber(run, trace)
    requires IsLastPublish(trace, p) && IsBeginOf(trace, b, p)
    ensures var (n, lo) := (|trace|, |run[b].accepted|);
      Lined(Undisturbed(run, trace, lo, p + 1, n), run[n], Effects(run, trace, n), lo)
  {
    PublishedInLine(sources, load, run, trace, b, p);
    RunKeeps(sources, load, run, trace, p + 1);
    LineSoFar(sources, run, trace, |run[b].accepted|, p + 1, |trace|);
  }

  lemma EffectsHeld(sources: set<string>, load: Contents, run: seq<Fine>, trace: seq<Action>, b: nat, p: nat)
    requires IsRun(sources, load, run, trace) && IsLastPublish(trace, p) && b < p
    ensures var (s, effects) := (run[|trace|], Effects(run, trace, |trace|));
      && Holds(s, trace[p].load, effects)
      && (effects == Range(|run[b].accepted|, |s.accepted|) ==>
            s.contents == Replayed(trace[p].load, Since(run[b], s)))
  {
    var n, lo := |trace|, |run[b].accepted|;
    ContentsAreEffects(sources, load, run, trace, n);
    LastLoadIs(load, trace, p, n);
    AcceptedGrows(sources, load, run, trace, b, n);
    EventsOfRange(run[n].accepted, lo);
  }

  lemma PublishedInLine(sources: set<string>, load: Contents, run: seq<Fine>, trace: seq<Action>, b: nat, p: nat)
    requires IsRun(sources, load, run, trace) && OneSubscriber(run, trace)
    requires p < |trace| && trace[p].Publish? && IsBeginOf(trace, b, p)
    ensures InLine(run[p + 1], [], |run[b].accepted|)
  {
    var lo := |run[b].accepted|;
    QueueSoFar(sources, load, run, trace, b, p);
    OneHeldSoFar(sources, load, run, trace, p);
    assert Recent(run[p].held, lo) == [];
    assert [] + [] + [] + run[p].pending == run[p].pending;
  }

  lemma {:induction false} AcceptedGrows(sources: set<string>, load: Contents, run: seq<Fine>, trace: seq<Action>,
                                         b: nat, k: nat)
    requires IsRun(sources, load, run, trace) && b <= k <= |trace|
    ensures |run[b].accepted| <= |run[k].accepted|
  {
    if k > b {
      AcceptedGrows(sources, load, run, trace, b, k - 1);
      var a := trace[k - 1];
    }
  }

  /** The same before any reload has published: then all events count. */
  lemma EffectsInOrderIffSinceStart(sources: set<string>, load: Contents, run: seq<Fine>, trace: seq<Action>)
    requires IsRun(sources, load, run, trace) && OneSubscriber(run, trace) && Quiescent(run[|trace|])
    requires NonePublished(trace, 0, |trace|)
    ensures var (s, effects) := (run[|trace|], Effects(run, trace, |trace|));
      && Holds(s, load, effects)
      && (effects == Range(0, |s.accepted|) <==> Undisturbed(run, trace, 0, 0, |trace|))
      && (Undisturbed(run, trace, 0, 0, |trace|) ==> s.contents == Replayed(load, s.accepted))
  {
    var n := |trace|;
    RunKeeps(sources, load, run, trace, 0);
    LineSoFar(sources, run, trace, 0, 0, n);
    RestDecides(run[n], Effects(run, trace, n), 0, Undisturbed(run, trace, 0, 0, n));
    ContentsAreEffects(sources, load, run, trace, n);
    LastLoadIsFirst(load, trace, n);
    EventsOfRange(run[n].accepted, 0);
  }
}
