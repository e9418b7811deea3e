/** The in-flight table of one radbench socket (tools/radbench/main.go:58-177): 256 slots
    under byte identifiers, with sends, write failures, timers and replies racing. Each
    section under the lock is one step. A flight is named by its serial number, which
    stands for the identity of the allocated record. */
module InFlight {
  import opened Prelude

  const SLOTS := 256

  type Slots = s: seq<Option<nat>> | |s| == SLOTS witness seq(SLOTS, i => None)

  datatype How = Answered | TimedOut | Cleared
  datatype Release = Release(flight: nat, how: How)

  datatype Counters = Counters(sent: nat, sendErr: nat, timeout: nat, answers: nat, badResp: nat)

  datatype State = State(
    slots: Slots,
    nextID: byte,
    claims: seq<byte>,        // the slot each flight was given, by serial
    armed: set<nat>,          // flights whose timer is set
    fired: set<nat>,          // flights whose timer has gone off and waits for the lock
    writing: set<nat>,        // flights whose write has not returned
    released: seq<Release>,
    counts: Counters)

  datatype Event =
    | Send(encodes: bool)
    | Written(flight: nat, failed: bool)
    | Fire(flight: nat)
    | Expire(flight: nat)
    | Short                                   // a datagram too short to be a reply
    | Reply(id: byte, answers: Option<nat>)   // `answers`: the flight whose request it authenticates

  // --------------------------------------------------------------- identifiers in a ring

  function Ahead(start: byte, k: nat): byte {
    (start + k) % SLOTS
  }

  lemma AheadNext(start: byte, k: nat)
    ensures (Ahead(start, k) + 1) % SLOTS == Ahead(start, k + 1) == Ahead(Ahead(start, k), 1)
  {
  }

  lemma FullCircle(start: byte)
    ensures Ahead(start, 0) == start == Ahead(start, SLOTS)
  {
  }

  /** The first free identifier among `tries` from `start`. */
  function FirstFree(slots: Slots, start: byte, tries: nat): Option<byte>
    decreases tries
  {
    if tries == 0 then None
    else if slots[start] == None then Some(start)
    else FirstFree(slots, Ahead(start, 1), tries - 1)
  }

  /** k is how far ahead of start the identifier lies: it is the first free one in cyclic
      byte order, and there is none exactly when all 256 are taken. */
  lemma {:induction false} FirstFreeIsFirst(slots: Slots, start: byte, tries: nat) returns (k: nat)
    ensures match FirstFree(slots, start, tries)
            case Some(id) =>
              k < tries && id == Ahead(start, k) && slots[id] == None
              && forall j :: 0 <= j < k ==> slots[Ahead(start, j)] != None
            case None => forall j :: 0 <= j < tries ==> slots[Ahead(start, j)] != None
    decreases tries
  {
    k := 0;
    if tries > 0 && slots[start] != None {
      k := FirstFreeIsFirst(slots, Ahead(start, 1), tries - 1);
      TakenFrom(slots, start, if FirstFree(slots, start, tries).Some? then k else tries - 1);
      AheadBack(start, k);
      k := k + 1;
    }
  }

  lemma AheadBack(start: byte, j: nat)
    ensures Ahead(Ahead(start, 1), j) == Ahead(start, j + 1)
  {
  }

  /** A taken slot and n more taken ones behind it. */
  lemma TakenFrom(slots: Slots, start: byte, n: nat)
    requires slots[start] != None && forall j :: 0 <= j < n ==> slots[Ahead(Ahead(start, 1), j)] != None
    ensures forall j :: 0 <= j < n + 1 ==> slots[Ahead(start, j)] != None
  {
    forall j | 0 <= j < n + 1 ensures slots[Ahead(start, j)] != None {
      if j == 0 { FullCircle(start); } else { AheadBack(start, j - 1); }
    }
  }

  lemma StepsTo(start: byte, id: byte) returns (j: nat)
    ensures j < SLOTS && Ahead(start, j) == id
  {
    j := if start <= id then id - start else id - start + SLOTS;
    assert start + j == id || start + j == id + SLOTS;
  }

  lemma NoneFreeIffAllTaken(slots: Slots, start: byte)
    ensures FirstFree(slots, start, SLOTS) == None <==> forall id: byte :: slots[id] != None
  {
    var k := FirstFreeIsFirst(slots, start, SLOTS);
    if FirstFree(slots, start, SLOTS) == None {
      forall id: byte ensures slots[id] != None {
        var j := StepsTo(start, id);
        assert slots[Ahead(start, j)] != None;
      }
    }
  }

  // ------------------------------------------------------------------------------- steps

  predicate Holds(s: State, f: nat) {
    f < |s.claims| && s.slots[s.claims[f]] == Some(f)
  }

  /** Slot id is freed and the release of f booked. */
  function Freed(s: State, id: byte, f: nat, how: How): State {
    s.(slots := s.slots[id := None], released := s.released + [Release(f, how)])
  }

  ghost predicate Enabled(s: State, e: Event) {
    match e
    case Send(_) => true
    case Written(f, _) => f in s.writing
    case Fire(f) => f in s.armed
    case Expire(f) => f in s.fired
    case Short => true
    case Reply(_, _) => true
  }

  function Next(s: State, e: Event): State {
    match e
    case Send(encodes) => Sent(s, encodes)
    case Written(f, failed) =>
      var done := s.(writing := s.writing - {f});
      if !failed then done
      else
        var counted := done.(counts := s.counts.(sendErr := s.counts.sendErr + 1));
        if Holds(s, f) then Freed(counted, s.claims[f], f, Cleared).(armed := s.armed - {f}) else counted
    case Fire(f) => s.(armed := s.armed - {f}, fired := s.fired + {f})
    case Expire(f) =>
      var run := s.(fired := s.fired - {f});
      if Holds(s, f)
      then Freed(run, s.claims[f], f, TimedOut).(counts := s.counts.(timeout := s.counts.timeout + 1))
      else run
    case Short => s.(counts := s.counts.(badResp := s.counts.badResp + 1))
    case Reply(id, to) =>
      match s.slots[id]
      case None => s
      case Some(f) =>
        if to != Some(f) then s.(counts := s.counts.(badResp := s.counts.badResp + 1))
        else Freed(s, id, f, Answered).(armed := s.armed - {f}, counts := s.counts.(answers := s.counts.answers + 1))
  }

  function Sent(s: State, encodes: bool): State {
    match FirstFree(s.slots, s.nextID, SLOTS)
    case None => s
    case Some(id) =>
      var turned := s.(nextID := Ahead(id, 1));
      if !encodes then turned.(counts := s.counts.(sendErr := s.counts.sendErr + 1))
      else
        var f := |s.claims|;
        turned.(slots := s.slots[id := Some(f)], claims := s.claims + [id],
                armed := s.armed + {f}, writing := s.writing + {f},
                counts := s.counts.(sent := s.counts.sent + 1))
  }

  function Fresh(): State {
    State(seq(SLOTS, i => None), 0, [], {}, {}, {}, [], Counters(0, 0, 0, 0, 0))
  }

  function Run(events: seq<Event>): State {
    if events == [] then Fresh() else Next(Run(events[..|events| - 1]), events[|events| - 1])
  }

  ghost predicate Legal(events: seq<Event>) {
    events != [] ==>
      && Legal(events[..|events| - 1])
      && Enabled(Run(events[..|events| - 1]), events[|events| - 1])
  }

  // -------------------------------------------------------------------------- accounting

  function Occupied(slots: seq<Option<nat>>): nat {
    if slots == [] then 0
    else Occupied(slots[..|slots| - 1]) + if slots[|slots| - 1].Some? then 1 else 0
  }

  function Tally(released: seq<Release>, how: How): nat {
    if released == [] then 0
    else Tally(released[..|released| - 1], how) + if released[|released| - 1].how == how then 1 else 0
  }

  predicate IsReleased(released: seq<Release>, f: nat) {
    exists i :: 0 <= i < |released| && released[i].flight == f
  }

  ghost predicate ReleasedOnce(released: seq<Release>) {
    forall i, j {:trigger released[i], released[j]} ::
      0 <= i < j < |released| ==> released[i].flight != released[j].flight
  }

  /** What is in a slot is a flight that was given that slot, is not released, and has a
      timer to come. */
  ghost predicate SlotSound(s: State, id: byte) {
    match s.slots[id]
    case None => true
    case Some(f) => f < |s.claims| && s.claims[f] == id && f in s.armed + s.fired && !IsReleased(s.released, f)
  }

  ghost predicate Sound(s: State) {
    && (forall id: byte :: SlotSound(s, id))
    && ReleasedOnce(s.released)
    && (forall i {:trigger s.released[i]} :: 0 <= i < |s.released| ==> s.released[i].flight < |s.claims|)
    && (forall f :: f in s.armed || f in s.fired || f in s.writing ==> f < |s.claims|)
  }

  /** The counters add up. */
  ghost predicate Balanced(s: State) {
    match s
    case State(slots, _, claims, _, _, _, released, counts) =>
      && |claims| == |released| + Occupied(slots)
      && counts.sent == |claims|
      && counts.answers == Tally(released, Answered)
      && counts.timeout == Tally(released, TimedOut)
      && |released| == counts.answers + counts.timeout + Tally(released, Cleared)
  }

  lemma {:induction false} OccupiedUpdate(slots: seq<Option<nat>>, id: nat, v: Option<nat>)
    requires id < |slots|
    ensures Occupied(slots[id := v]) + (if slots[id].Some? then 1 else 0)
         == Occupied(slots) + (if v.Some? then 1 else 0)
  {
    var n := |slots| - 1;
    if id < n {
      OccupiedUpdate(slots[..n], id, v);
      assert slots[id := v][..n] == slots[..n][id := v];
    } else {
      assert slots[id := v][..n] == slots[..n];
    }
  }

  lemma TallySnoc(released: seq<Release>, r: Release, how: How)
    ensures Tally(released + [r], how) == Tally(released, how) + if r.how == how then 1 else 0
  {
    assert (released + [r])[..|released|] == released;
  }

  lemma FreedBooks(s: State, id: byte, f: nat, how: How)
    requires s.slots[id] == Some(f)
    ensures var after := Freed(s, id, f, how);
      && |after.released| + Occupied(after.slots) == |s.released| + Occupied(s.slots)
      && forall h :: Tally(after.released, h) == Tally(s.released, h) + if h == how then 1 else 0
  {
    OccupiedUpdate(s.slots, id, None);
    forall h ensures Tally(s.released + [Release(f, how)], h) == Tally(s.released, h) + if h == how then 1 else 0 {
      TallySnoc(s.released, Release(f, how), h);
    }
  }

  lemma SentBalanced(s: State, encodes: bool)
    requires Balanced(s)
    ensures Balanced(Sent(s, encodes))
  {
    var k := FirstFreeIsFirst(s.slots, s.nextID, SLOTS);
    match FirstFree(s.slots, s.nextID, SLOTS) {
      case None =>
      case Some(id) => OccupiedUpdate(s.slots, id, Some(|s.claims|));
    }
  }

  /** A release is booked where its kind is counted. */
  lemma FreedBalanced(s: State, id: byte, f: nat, how: How, after: State)
    requires Balanced(s) && s.slots[id] == Some(f)
    requires after.slots == Freed(s, id, f, how).slots && after.released == Freed(s, id, f, how).released
    requires after.claims == s.claims && after.counts.sent == s.counts.sent
    requires after.counts.answers == s.counts.answers + (if how == Answered then 1 else 0)
    requires after.counts.timeout == s.counts.timeout + (if how == TimedOut then 1 else 0)
    ensures Balanced(after)
  {
    FreedBooks(s, id, f, how);
  }

  lemma StepBalanced(s: State, e: Event)
    requires Balanced(s)
    ensures Balanced(Next(s, e))
  {
    var after := Next(s, e);
    match e {
      case Send(encodes) => SentBalanced(s, encodes);
      case Written(f, failed) => if failed && Holds(s, f) { FreedBalanced(s, s.claims[f], f, Cleared, after); }
      case Expire(f) => if Holds(s, f) { FreedBalanced(s, s.claims[f], f, TimedOut, after); }
      case Reply(id, to) =>
        if s.slots[id].Some? && to == s.slots[id] { FreedBalanced(s, id, to.value, Answered, after); }
      case _ =>
    }
  }

  lemma ReleasedSnoc(released: seq<Release>, r: Release, f: nat)
    ensures IsReleased(released + [r], f) <==> IsReleased(released, f) || r.flight == f
  {
    assert (released + [r])[|released|] == r;
    if IsReleased(released, f) {
      var i :| 0 <= i < |released| && released[i].flight == f;
      assert (released + [r])[i].flight == f;
    }
  }

  /** Freeing the slot a flight holds is sound, whatever becomes of its own timer. */
  lemma FreedSound(s: State, id: byte, f: nat, how: How, after: State)
    requires Sound(s) && s.slots[id] == Some(f)
    requires after.slots == Freed(s, id, f, how).slots && after.released == Freed(s, id, f, how).released
    requires after.claims == s.claims && after.writing <= s.writing
    requires after.armed <= s.armed && after.fired <= s.fired
    requires forall g :: g in s.armed + s.fired && g != f ==> g in after.armed + after.fired
    ensures Sound(after)
  {
    assert SlotSound(s, id);
    forall other: byte ensures SlotSound(after, other) {
      assert SlotSound(s, other);
      if s.slots[other].Some? {
        ReleasedSnoc(s.released, Release(f, how), s.slots[other].value);
      }
    }
    forall i | 0 <= i < |s.released| ensures s.released[i].flight != f {
      assert s.released[i].flight == f ==> IsReleased(s.released, f);
    }
  }

  lemma SentSound(s: State, encodes: bool)
    requires Sound(s)
    ensures Sound(Sent(s, encodes))
  {
    var k := FirstFreeIsFirst(s.slots, s.nextID, SLOTS);
    var n := |s.claims|;
    assert !IsReleased(s.released, n);
    forall id: byte ensures SlotSound(Sent(s, encodes), id) {
      assert SlotSound(s, id);
    }
  }

  /** Steps that leave the slots and releases alone, and drop no timer but one of a
      flight that holds no slot. */
  lemma IdleSound(s: State, after: State)
    requires Sound(s) && after.slots == s.slots && after.released == s.released && after.claims == s.claims
    requires forall f :: f in s.armed + s.fired && Holds(s, f) ==> f in after.armed + after.fired
    requires forall f :: f in after.armed || f in after.fired || f in after.writing ==> f < |s.claims|
    ensures Sound(after)
  {
    forall id: byte ensures SlotSound(after, id) {
      assert SlotSound(s, id);
    }
  }

  lemma StepSound(s: State, e: Event)
    requires Sound(s) && Enabled(s, e)
    ensures Sound(Next(s, e))
  {
    var after := Next(s, e);
    match e {
      case Send(encodes) => SentSound(s, encodes);
      case Written(f, failed) =>
        if failed && Holds(s, f) { FreedSound(s, s.claims[f], f, Cleared, after); } else { IdleSound(s, after); }
      case Expire(f) =>
        if Holds(s, f) { FreedSound(s, s.claims[f], f, TimedOut, after); } else { IdleSound(s, after); }
      case Reply(id, to) =>
        if s.slots[id].Some? && to == s.slots[id] {
          FreedSound(s, id, to.value, Answered, after);
        } else {
          IdleSound(s, after);
        }
      case _ => IdleSound(s, after);
    }
  }

  // ------------------------------------------------------------------------ every run

  lemma {:induction false} AllFree(slots: seq<Option<nat>>)
    requires forall i :: 0 <= i < |slots| ==> slots[i] == None
    ensures Occupied(slots) == 0
  {
    if slots != [] {
      AllFree(slots[..|slots| - 1]);
    }
  }

  lemma {:induction false} RunSound(events: seq<Event>)
    requires Legal(events)
    ensures Sound(Run(events)) && Balanced(Run(events))
  {
    if events == [] {
      AllFree(Fresh().slots);
      forall id: byte ensures SlotSound(Fresh(), id) {}
    } else {
      var before := events[..|events| - 1];
      RunSound(before);
      StepSound(Run(before), events[|events| - 1]);
      StepBalanced(Run(before), events[|events| - 1]);
    }
  }

  /** A flight is in its slot or has been released. */
  predicate Kept(s: State, f: nat) {
    f < |s.claims| ==> Holds(s, f) || IsReleased(s.released, f)
  }

  lemma FreedKeeps(s: State, id: byte, g: nat, how: How, f: nat)
    requires Kept(s, f) && s.slots[id] == Some(g)
    ensures Kept(Freed(s, id, g, how), f)
  {
    ReleasedSnoc(s.released, Release(g, how), f);
  }

  lemma StepKeeps(s: State, e: Event, f: nat)
    requires Kept(s, f)
    ensures Kept(Next(s, e), f)
  {
    match e {
      case Send(_) => var k := FirstFreeIsFirst(s.slots, s.nextID, SLOTS);
      case Written(g, failed) => if failed && Holds(s, g) { FreedKeeps(s, s.claims[g], g, Cleared, f); }
      case Expire(g) => if Holds(s, g) { FreedKeeps(s, s.claims[g], g, TimedOut, f); }
      case Reply(id, to) => if s.slots[id].Some? && to == s.slots[id] { FreedKeeps(s, id, to.value, Answered, f); }
      case _ =>
    }
  }

  lemma {:induction false} RunKeeps(events: seq<Event>, f: nat)
    ensures Kept(Run(events), f)
  {
    if events != [] {
      RunKeeps(events[..|events| - 1], f);
      StepKeeps(Run(events[..|events| - 1]), events[|events| - 1], f);
    }
  }

  /** In every interleaving: a flight is in its slot or released, exactly once; and claims
      = answered + timed out + cleared by a write failure + still in a slot. */
  lemma EveryFlightAccounted(events: seq<Event>, f: nat)
    requires Legal(events)
    ensures var s := Run(events);
      && ReleasedOnce(s.released)
      && (f < |s.claims| ==> Holds(s, f) != IsReleased(s.released, f))
      && |s.claims| == s.counts.answers + s.counts.timeout + Tally(s.released, Cleared) + Occupied(s.slots)
  {
    RunSound(events);
    RunKeeps(events, f);
    var s := Run(events);
    if Holds(s, f) {
      assert SlotSound(s, s.claims[f]);
    }
  }

  /** The events that release flight f, and how. */
  function Releases(e: Event, f: nat): Option<How> {
    match e
    case Written(g, true) => if g == f then Some(Cleared) else None
    case Expire(g) => if g == f then Some(TimedOut) else None
    case Reply(_, to) => if to == Some(f) then Some(Answered) else None
    case _ => None
  }

  /** The occupant of a slot changes only by its own release: no timer, reply or write
      failure of another flight, however late, touches it. */
  lemma OnlyOwnRelease(events: seq<Event>, e: Event, id: byte, f: nat)
    requires Legal(events + [e]) && Run(events).slots[id] == Some(f)
    ensures var s, after := Run(events), Run(events + [e]);
      && (after.slots[id] == Some(f) || after.slots[id] == None)
      && (after.slots[id] == None ==>
            Releases(e, f).Some? && after.released == s.released + [Release(f, Releases(e, f).value)])
  {
    assert (events + [e])[..|events|] == events;
    RunSound(events);
    StepOnlyOwn(Run(events), e, id, f);
  }

  lemma StepOnlyOwn(s: State, e: Event, id: byte, f: nat)
    requires Sound(s) && s.slots[id] == Some(f)
    ensures var after := Next(s, e);
      && (after.slots[id] == Some(f) || after.slots[id] == None)
      && (after.slots[id] == None ==>
            Releases(e, f).Some? && after.released == s.released + [Release(f, Releases(e, f).value)])
  {
    assert SlotSound(s, id);
    if e.Send? {
      var k := FirstFreeIsFirst(s.slots, s.nextID, SLOTS);
    }
  }

  /** And it does so whenever one comes: a failed write of the occupant, its timer's callback, or an
      authentic reply under its identifier frees the slot, with just this release. */
  lemma EveryReleaseFrees(events: seq<Event>, e: Event, f: nat, how: How)
    requires Legal(events + [e]) && Holds(Run(events), f)
    requires match how
             case Cleared => e == Written(f, true)
             case TimedOut => e == Expire(f)
             case Answered => e == Reply(Run(events).claims[f], Some(f))
    ensures var s, after := Run(events), Run(events + [e]);
      && after.slots == s.slots[s.claims[f] := None] && after.claims == s.claims
      && after.released == s.released + [Release(f, how)] && f !in after.armed
      && (how != TimedOut ==> after.armed == s.armed - {f})
  {
    assert (events + [e])[..|events|] == events;
    ArmedHolds(events, f);
  }

  /** A timer that is set belongs to a flight in its slot, and has not gone off. */
  lemma {:induction false} ArmedHolds(events: seq<Event>, f: nat)
    requires Legal(events)
    ensures f in Run(events).armed ==> Holds(Run(events), f) && f !in Run(events).fired
  {
    if events != [] {
      var before, e := events[..|events| - 1], events[|events| - 1];
      ArmedHolds(before, f);
      RunSound(before);
      if e.Send? { var k := FirstFreeIsFirst(Run(before).slots, Run(before).nextID, SLOTS); }
      if e.Expire? { ArmedHolds(before, e.flight); }
    }
  }

  /** Everything else but a send leaves the table alone. */
  lemma OthersFreeNothing(events: seq<Event>, e: Event)
    requires Legal(events + [e]) && !e.Send?
    requires forall f: nat :: Holds(Run(events), f) ==>
      e != Written(f, true) && e != Expire(f) && e != Reply(Run(events).claims[f], Some(f))
    ensures var s, after := Run(events), Run(events + [e]);
      && after.slots == s.slots && after.claims == s.claims && after.released == s.released
      && (!e.Fire? ==> after.armed == s.armed)
  {
    assert (events + [e])[..|events|] == events;
    RunSound(events);
    if e.Reply? && Run(events).slots[e.id].Some? {
      assert SlotSound(Run(events), e.id);
      assert Holds(Run(events), Run(events).slots[e.id].value);
    }
  }

  /** A send that fails to encode after it has found an identifier, or a failed write. */
  predicate IsSendError(s: State, e: Event) {
    match e
    case Send(encodes) => !encodes && exists id: byte :: s.slots[id] == None
    case Written(_, failed) => failed
    case _ => false
  }

  /** A datagram that is too short, or does not answer what is in the slot it names. */
  predicate IsBadResponse(s: State, e: Event) {
    match e
    case Short => true
    case Reply(id, to) => s.slots[id].Some? && to != s.slots[id]
    case _ => false
  }

  function SendErrors(events: seq<Event>): nat {
    if events == [] then 0
    else
      var before := events[..|events| - 1];
      SendErrors(before) + if IsSendError(Run(before), events[|events| - 1]) then 1 else 0
  }

  function BadResponses(events: seq<Event>): nat {
    if events == [] then 0
    else
      var before := events[..|events| - 1];
      BadResponses(before) + if IsBadResponse(Run(before), events[|events| - 1]) then 1 else 0
  }

  lemma ErrorStep(s: State, e: Event)
    ensures Next(s, e).counts.sendErr == s.counts.sendErr + if IsSendError(s, e) then 1 else 0
    ensures Next(s, e).counts.badResp == s.counts.badResp + if IsBadResponse(s, e) then 1 else 0
  {
    if e.Send? {
      NoneFreeIffAllTaken(s.slots, s.nextID);
      assert FirstFree(s.slots, s.nextID, SLOTS) == None <==> !exists id: byte :: s.slots[id] == None;
    }
  }

  /** The two counters that no release goes into. */
  lemma {:induction false} ErrorsCounted(events: seq<Event>)
    ensures Run(events).counts.sendErr == SendErrors(events)
    ensures Run(events).counts.badResp == BadResponses(events)
  {
    if events != [] {
      ErrorsCounted(events[..|events| - 1]);
      ErrorStep(Run(events[..|events| - 1]), events[|events| - 1]);
    }
  }

  /** Once every timer has run or been stopped, every flight has been released. */
  lemma NoTimerNoFlight(events: seq<Event>)
    requires Legal(events) && Run(events).armed == {} && Run(events).fired == {}
    ensures var s := Run(events);
      |s.claims| == s.counts.answers + s.counts.timeout + Tally(s.released, Cleared)
  {
    RunSound(events);
    var s := Run(events);
    forall i | 0 <= i < SLOTS ensures s.slots[i] == None {
      assert SlotSound(s, i);
    }
    AllFree(s.slots);
  }

  /** A send is refused exactly when all 256 slots are taken, and otherwise gets the first
      free identifier in cyclic order. */
  lemma SendClaims(s: State)
    ensures Sent(s, true) == s <==> forall id: byte :: s.slots[id] != None
    ensures Sent(s, true) != s ==>
      exists k: nat :: k < SLOTS && var id := Ahead(s.nextID, k);
        && s.slots[id] == None && (forall j :: 0 <= j < k ==> s.slots[Ahead(s.nextID, j)] != None)
        && Sent(s, true).slots == s.slots[id := Some(|s.claims|)] && Sent(s, true).nextID == Ahead(id, 1)
        && Sent(s, true).claims == s.claims + [id]
    ensures Sent(s, true) != s ==> var f := |s.claims|;
      && Sent(s, true).armed == s.armed + {f} && Sent(s, true).writing == s.writing + {f}
      && Sent(s, true).fired == s.fired && Sent(s, true).released == s.released
    ensures Sent(s, false).slots == s.slots && Sent(s, false).claims == s.claims && Sent(s, false).armed == s.armed
  {
    NoneFreeIffAllTaken(s.slots, s.nextID);
    var k := FirstFreeIsFirst(s.slots, s.nextID, SLOTS);
    match FirstFree(s.slots, s.nextID, SLOTS) {
      case None =>
      case Some(id) =>
        assert |Sent(s, true).claims| == |s.claims| + 1;
        assert id == Ahead(s.nextID, k);
    }
  }

  lemma RunMore(events: seq<Event>, e: Event)
    ensures Run(events + [e]) == Next(Run(events), e)
    ensures Legal(events) && Enabled(Run(events), e) ==> Legal(events + [e])
  {
    assert (events + [e])[..|events|] == events;
  }

  /** sendErr is no release counter: a write may fail after its reply was taken. */
  lemma SendErrIsNotARelease() returns (events: seq<Event>)
    ensures events == [Send(true), Reply(0, Some(0)), Written(0, true)] && Legal(events)
    ensures var s := Run(events); s.counts.sendErr == 1 && Tally(s.released, Cleared) == 0 && |s.released| == 1
  {
    events := [Send(true), Reply(0, Some(0)), Written(0, true)];
    RunMore([], Send(true));
    RunMore([Send(true)], Reply(0, Some(0)));
    RunMore([Send(true), Reply(0, Some(0))], Written(0, true));
    assert [] + [Send(true)] == [Send(true)];
    assert [Send(true)] + [Reply(0, Some(0))] == [Send(true), Reply(0, Some(0))];
    assert [Send(true), Reply(0, Some(0))] + [Written(0, true)] == events;
    var s1, s2 := Run([Send(true)]), Run([Send(true), Reply(0, Some(0))]);
    assert s1.slots[0] == Some(0) && s1.claims == [0] && s1.writing == {0};
    assert s2.released == [Release(0, Answered)] && s2.slots[0] == None;
    assert s2.released[..0] == [];
  }

  // ---------------------------------------------------------------------- the socket

  class Conn {
    var pending: array<Option<nat>>
    var nextID: byte
    var counts: Counters
    ghost var claims: seq<byte>
    ghost var armed: set<nat>
    ghost var fired: set<nat>
    ghost var writing: set<nat>
    ghost var released: seq<Release>
    /** The serial of the next flight allocated. */
    var serial: nat

    ghost predicate Valid()
      reads this
    {
      pending.Length == SLOTS && serial == |claims|
    }

    ghost function View(): State
      requires Valid()
      reads this, pending
    {
      State(pending[..], nextID, claims, armed, fired, writing, released, counts)
    }

    constructor ()
      ensures Valid() && fresh(pending) && View() == Fresh()
    {
      pending := new Option<nat>[SLOTS](i => None);
      nextID, serial, counts := 0, 0, Counters(0, 0, 0, 0, 0);
      claims, armed, fired, writing, released := [], {}, {}, {}, [];
      new;
      assert pending[..] == seq(SLOTS, i => None);
    }

    /** Tries the 256 identifiers in a ring; a failed round trip leaves nextID as it was. */
    method FreeID() returns (id: Option<byte>)
      requires Valid()
      modifies this`nextID
      ensures Valid() && id == FirstFree(pending[..], old(nextID), SLOTS)
      ensures nextID == if id.Some? then Ahead(id.value, 1) else old(nextID)
    {
      FullCircle(nextID);
      var left: nat := SLOTS;
      ghost var slots, start, tried: nat := pending[..], nextID, 0;
      while left > 0
        invariant tried + left == SLOTS && nextID == Ahead(start, tried)
        invariant FirstFree(slots, start, SLOTS) == FirstFree(slots, nextID, left)
      {
        var candidate := nextID;
        AheadNext(start, tried);
        nextID := Ahead(nextID, 1);
        left, tried := left - 1, tried + 1;
        if pending[candidate] == None {
          return Some(candidate);
        }
      }
      return None;
    }

    method Send(encodes: bool) returns (ok: bool, flight: Option<nat>)
      requires Valid()
      modifies this, pending
      ensures Valid() && pending == old(pending) && View() == Next(old(View()), Event.Send(encodes))
      ensures ok <==> exists id: byte :: old(pending[..])[id] == None
    {
      NoneFreeIffAllTaken(pending[..], nextID);
      var id := FreeID();
      if id == None {
        return false, None;
      }
      ok := true;
      if !encodes {
        counts := counts.(sendErr := counts.sendErr + 1);
        return true, None;
      }
      pending[id.value] := Some(serial);
      flight := Some(serial);
      claims, armed, writing := claims + [id.value], armed + {serial}, writing + {serial};
      serial := serial + 1;
      counts := counts.(sent := counts.sent + 1);
    }

    /** The write of a request has returned. */
    method WriteReturned(id: byte, flight: nat, failed: bool)
      requires Valid() && flight < |claims| && claims[flight] == id && flight in writing
      modifies this, pending
      ensures Valid() && pending == old(pending) && View() == Next(old(View()), Written(flight, failed))
    {
      writing := writing - {flight};
      if !failed {
        return;
      }
      if pending[id] == Some(flight) {
        pending[id] := None;
        armed := armed - {flight};
        released := released + [Release(flight, Cleared)];
      }
      counts := counts.(sendErr := counts.sendErr + 1);
    }

    /** The callback of a flight's timer, once it has the lock. */
    method Expire(id: byte, flight: nat)
      requires Valid() && flight < |claims| && claims[flight] == id && flight in fired
      modifies this, pending
      ensures Valid() && pending == old(pending) && View() == Next(old(View()), Event.Expire(flight))
    {
      fired := fired - {flight};
      if pending[id] != Some(flight) {
        return;
      }
      pending[id] := None;
      released := released + [Release(flight, TimedOut)];
      counts := counts.(timeout := counts.timeout + 1);
    }

    /** One datagram of the read loop. */
    method Read(length: nat, id: byte, answers: Option<nat>)
      requires Valid()
      modifies this, pending
      ensures Valid() && pending == old(pending)
      ensures View() == Next(old(View()), if length < 20 then Short else Reply(id, answers))
    {
      if length < 20 {
        counts := counts.(badResp := counts.badResp + 1);
        return;
      }
      var f := pending[id];
      if f == None {
        return;
      }
      if answers != f {
        counts := counts.(badResp := counts.badResp + 1);
        return;
      }
      pending[id] := None;
      armed := armed - {f.value};
      released := released + [Release(f.value, Answered)];
      counts := counts.(answers := counts.answers + 1);
    }
  }
}
