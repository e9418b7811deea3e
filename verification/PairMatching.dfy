/** First-in first-out matching of requests and responses in a capture
    (tools/pcapreplay/main.go:37-55 and 110-144). */
module PairMatching {
  import opened Prelude
  import opened Radius
  import Capture

  type UdpPacket = Capture.UdpPacket

  datatype ReqKey = ReqKey(clientIP: seq<byte>, clientPort: nat, serverIP: seq<byte>, id: byte)

  /** What a datagram is to the matcher. */
  datatype Role = Request(key: ReqKey) | Response(key: ReqKey) | Other

  function RoleOf(u: UdpPacket): Role {
    match Parse(u.payload)
    case None => Other
    case Some(p) =>
      if p.code == ACCESS_REQUEST then Request(ReqKey(u.srcIP, u.srcPort, u.dstIP, p.id))
      else if p.code == ACCESS_ACCEPT || p.code == ACCESS_REJECT then
        Response(ReqKey(u.dstIP, u.dstPort, u.srcIP, p.id))
      else Other
  }

  function Roles(pkts: seq<UdpPacket>): seq<Role> {
    seq(|pkts|, i requires 0 <= i < |pkts| => RoleOf(pkts[i]))
  }

  /** A request and its response, by their positions in the trace. */
  datatype Match = Match(req: nat, resp: nat)

  // ------------------------------------------------------------- what a matching is

  predicate Used(ms: seq<Match>, i: nat) {
    exists a :: 0 <= a < |ms| && ms[a].req == i
  }

  predicate UsedBefore(ms: seq<Match>, i: nat, j: nat) {
    exists a :: 0 <= a < |ms| && ms[a].req == i && ms[a].resp < j
  }

  predicate Answers(ms: seq<Match>, j: nat) {
    exists a :: 0 <= a < |ms| && ms[a].resp == j
  }

  /** A pair shares a key and its request comes first. */
  predicate IsPair(trace: seq<Role>, m: Match) {
    m.req < m.resp < |trace| && trace[m.req].Request? && trace[m.resp] == Response(trace[m.req].key)
  }

  function RoleAt(trace: seq<Role>, i: nat): Role {
    if i < |trace| then trace[i] else Other
  }

  /** Per key, the requests are used in order and none twice. */
  ghost predicate InOrder(trace: seq<Role>, ms: seq<Match>)
  {
    forall a, b {:trigger ms[a], ms[b]} ::
      0 <= a < b < |ms| && RoleAt(trace, ms[a].req) == RoleAt(trace, ms[b].req) ==> ms[a].req < ms[b].req
  }

  /** No request is passed over for a later one with its key. */
  ghost predicate NonePassedOver(trace: seq<Role>, ms: seq<Match>)
  {
    forall a, i {:trigger ms[a], trace[i]} ::
      (0 <= a < |ms| && 0 <= i < ms[a].req && i < |trace| && trace[i] == RoleAt(trace, ms[a].req))
      ==> UsedBefore(ms, i, ms[a].resp)
  }

  /** A response is left out only if every request before it with its key was used by then. */
  ghost predicate NoneLeftOut(trace: seq<Role>, ms: seq<Match>) {
    forall i, j {:trigger trace[i], Answers(ms, j)} ::
      (0 <= i < j < |trace| && trace[j].Response? && trace[i] == Request(trace[j].key) && !Answers(ms, j))
      ==> UsedBefore(ms, i, j)
  }

  /** The first-in first-out matchings, with the pairs in the order of their responses. */
  ghost predicate Fifo(trace: seq<Role>, ms: seq<Match>) {
    && (forall a {:trigger ms[a]} :: 0 <= a < |ms| ==> IsPair(trace, ms[a]))
    && (forall a, b {:trigger ms[a], ms[b]} :: 0 <= a < b < |ms| ==> ms[a].resp < ms[b].resp)
    && InOrder(trace, ms) && NonePassedOver(trace, ms) && NoneLeftOut(trace, ms)
  }

  // --------------------------------------------------------------------- the matcher

  type Queues = map<ReqKey, seq<nat>>

  function Queue(queues: Queues, key: ReqKey): seq<nat> {
    if key in queues then queues[key] else []
  }

  datatype Matcher = Matcher(queues: Queues, matches: seq<Match>)

  function Seen(m: Matcher, at: nat, role: Role): Matcher {
    match role
    case Other => m
    case Request(key) => m.(queues := m.queues[key := Queue(m.queues, key) + [at]])
    case Response(key) =>
      var q := Queue(m.queues, key);
      if q == [] then m
      else Matcher(m.queues[key := q[1..]], m.matches + [Match(q[0], at)])
  }

  function Run(trace: seq<Role>): Matcher {
    if trace == [] then Matcher(map[], [])
    else Seen(Run(trace[..|trace| - 1]), |trace| - 1, trace[|trace| - 1])
  }

  /** q holds, in order, the unused requests with this key. */
  ghost predicate Waiting(trace: seq<Role>, ms: seq<Match>, key: ReqKey, q: seq<nat>) {
    && (forall a, b {:trigger q[a], q[b]} :: 0 <= a < b < |q| ==> q[a] < q[b])
    && (forall i: nat {:trigger i in q} {:trigger Used(ms, i)} ::
          i in q <==> i < |trace| && trace[i] == Request(key) && !Used(ms, i))
  }

  ghost predicate AllWaiting(trace: seq<Role>, m: Matcher) {
    forall key {:trigger Queue(m.queues, key)} :: Waiting(trace, m.matches, key, Queue(m.queues, key))
  }

  lemma UsedSnoc(ms: seq<Match>, m: Match, i: nat, j: nat)
    ensures Used(ms + [m], i) <==> Used(ms, i) || m.req == i
    ensures UsedBefore(ms + [m], i, j) <==> UsedBefore(ms, i, j) || (m.req == i && m.resp < j)
    ensures Answers(ms + [m], j) <==> Answers(ms, j) || m.resp == j
  {
    var all := ms + [m];
    assert all[|ms|] == m;
    if Used(ms, i) { var a :| 0 <= a < |ms| && ms[a].req == i; assert all[a].req == i; }
    if UsedBefore(ms, i, j) { var a :| 0 <= a < |ms| && ms[a].req == i && ms[a].resp < j; assert all[a].req == i; }
    if Answers(ms, j) { var a :| 0 <= a < |ms| && ms[a].resp == j; assert all[a].resp == j; }
  }

  /** Requests and other datagrams: the matching stays first-in first-out. */
  lemma FifoExtend(front: seq<Role>, role: Role, ms: seq<Match>)
    requires Fifo(front, ms)
    requires role.Response? ==> forall i :: 0 <= i < |front| && front[i] == Request(role.key) ==> Used(ms, i)
    ensures Fifo(front + [role], ms)
  {
    var trace, n := front + [role], |front|;
    assert forall i {:trigger trace[i]} :: 0 <= i < n ==> trace[i] == front[i];
    forall i, j | 0 <= i < j < |trace| && trace[j].Response? && trace[i] == Request(trace[j].key) && !Answers(ms, j)
      ensures UsedBefore(ms, i, j)
    {
      if j == n {
        assert Used(ms, i);
        var a :| 0 <= a < |ms| && ms[a].req == i;
        assert IsPair(front, ms[a]);
      } else {
        assert front[i] == Request(front[j].key);
      }
    }
  }

  lemma UsedBeforeGrows(ms: seq<Match>, m: Match)
    ensures forall i: nat, j: nat :: UsedBefore(ms, i, j) ==> UsedBefore(ms + [m], i, j)
  {
    forall i: nat, j: nat | UsedBefore(ms, i, j) ensures UsedBefore(ms + [m], i, j) { UsedSnoc(ms, m, i, j); }
  }

  lemma BeforeIsUsed(ms: seq<Match>, i: nat, j: nat)
    ensures UsedBefore(ms, i, j) ==> Used(ms, i)
  {
  }

  /** The used requests with a key are all older than the oldest waiting one. */
  lemma UsedAreOlder(front: seq<Role>, key: ReqKey, ms: seq<Match>, q: seq<nat>, a: nat)
    requires Fifo(front, ms) && Waiting(front, ms, key, q) && q != []
    requires a < |ms| && RoleAt(front, ms[a].req) == Request(key)
    ensures ms[a].req < q[0]
  {
    assert q[0] in q && front[q[0]] == Request(key);
    assert Used(ms, ms[a].req) && !Used(ms, q[0]);
    BeforeIsUsed(ms, q[0], ms[a].resp);
  }

  lemma PairInOrder(front: seq<Role>, key: ReqKey, ms: seq<Match>, q: seq<nat>)
    requires Fifo(front, ms) && Waiting(front, ms, key, q) && q != []
    ensures InOrder(front + [Response(key)], ms + [Match(q[0], |front|)])
  {
    var trace, all := front + [Response(key)], ms + [Match(q[0], |front|)];
    assert q[0] in q;
    forall a, b | 0 <= a < b < |all| && RoleAt(trace, all[a].req) == RoleAt(trace, all[b].req)
      ensures all[a].req < all[b].req
    {
      assert all[a] == ms[a] && IsPair(front, ms[a]);
      if b < |ms| {
        assert all[b] == ms[b] && IsPair(front, ms[b]);
        assert RoleAt(front, ms[a].req) == RoleAt(front, ms[b].req);
      } else {
        UsedAreOlder(front, key, ms, q, a);
      }
    }
  }

  lemma PairNonePassedOver(front: seq<Role>, key: ReqKey, ms: seq<Match>, q: seq<nat>)
    requires Fifo(front, ms) && Waiting(front, ms, key, q) && q != []
    ensures NonePassedOver(front + [Response(key)], ms + [Match(q[0], |front|)])
  {
    var trace, all, n := front + [Response(key)], ms + [Match(q[0], |front|)], |front|;
    assert q[0] in q;
    UsedBeforeGrows(ms, Match(q[0], n));
    forall a, i: nat | 0 <= a < |all| && i < all[a].req && i < |trace| && trace[i] == RoleAt(trace, all[a].req)
      ensures UsedBefore(all, i, all[a].resp)
    {
      if a < |ms| {
        assert all[a] == ms[a] && IsPair(front, ms[a]) && front[i] == RoleAt(front, ms[a].req);
        assert UsedBefore(ms, i, ms[a].resp);
      } else {
        assert front[i] == Request(key) && i !in q;
        assert Used(ms, i);
        var b :| 0 <= b < |ms| && ms[b].req == i;
        assert IsPair(front, ms[b]) && all[b] == ms[b];
      }
    }
  }

  lemma PairNoneLeftOut(front: seq<Role>, key: ReqKey, ms: seq<Match>, i0: nat)
    requires NoneLeftOut(front, ms)
    ensures NoneLeftOut(front + [Response(key)], ms + [Match(i0, |front|)])
  {
    var trace, all := front + [Response(key)], ms + [Match(i0, |front|)];
    forall i, j | 0 <= i < j < |trace| && trace[j].Response? && trace[i] == Request(trace[j].key) && !Answers(all, j)
      ensures UsedBefore(all, i, j)
    {
      UsedSnoc(ms, Match(i0, |front|), i, j);
      assert j < |front| && front[i] == trace[i] && front[j] == trace[j];
      assert UsedBefore(ms, i, j);
    }
  }

  /** A response takes the oldest waiting request with its key. */
  lemma FifoPair(front: seq<Role>, key: ReqKey, ms: seq<Match>, q: seq<nat>)
    requires Fifo(front, ms) && Waiting(front, ms, key, q) && q != []
    ensures Fifo(front + [Response(key)], ms + [Match(q[0], |front|)])
  {
    var all := ms + [Match(q[0], |front|)];
    assert q[0] in q;
    forall a | 0 <= a < |ms| ensures IsPair(front, ms[a]) && all[a] == ms[a] {}
    PairInOrder(front, key, ms, q);
    PairNonePassedOver(front, key, ms, q);
    PairNoneLeftOut(front, key, ms, q[0]);
  }

  lemma UsedEarlier(trace: seq<Role>, ms: seq<Match>, i: nat)
    requires Fifo(trace, ms) && Used(ms, i)
    ensures i < |trace|
  {
    var a :| 0 <= a < |ms| && ms[a].req == i;
    assert IsPair(trace, ms[a]);
  }

  lemma WaitingSame(front: seq<Role>, ms: seq<Match>, key: ReqKey, q: seq<nat>, role: Role)
    requires Fifo(front, ms) && Waiting(front, ms, key, q) && role != Request(key)
    ensures Waiting(front + [role], ms, key, q)
  {
    var trace := front + [role];
    forall i: nat ensures i in q <==> i < |trace| && trace[i] == Request(key) && !Used(ms, i) {}
  }

  lemma WaitingMore(front: seq<Role>, ms: seq<Match>, key: ReqKey, q: seq<nat>)
    requires Fifo(front, ms) && Waiting(front, ms, key, q)
    ensures Waiting(front + [Request(key)], ms, key, q + [|front|])
  {
    var n, trace := |front|, front + [Request(key)];
    assert Used(ms, n) ==> false by { if Used(ms, n) { UsedEarlier(front, ms, n); } }
    forall a | 0 <= a < |q| ensures q[a] < n { assert q[a] in q; }
    forall i: nat ensures i in q + [n] <==> i < |trace| && trace[i] == Request(key) && !Used(ms, i) {
      if i < n { assert trace[i] == front[i]; }
    }
  }

  lemma WaitingLess(front: seq<Role>, ms: seq<Match>, key: ReqKey, q: seq<nat>, from: ReqKey, head: nat)
    requires Fifo(front, ms) && Waiting(front, ms, key, q) && head < |front| && front[head] == Request(from)
    requires key == from ==> q != [] && q[0] == head
    ensures Waiting(front + [Response(from)], ms + [Match(head, |front|)], key, if key == from then q[1..] else q)
  {
    var trace, all := front + [Response(from)], ms + [Match(head, |front|)];
    var rest := if key == from then q[1..] else q;
    forall i: nat ensures i in rest <==> i < |trace| && trace[i] == Request(key) && !Used(all, i) {
      UsedSnoc(ms, Match(head, |front|), i, 0);
      if key == from { assert q == [head] + rest; }
      if i < |front| { assert trace[i] == front[i]; }
    }
  }

  /** Kept by every datagram: the matching so far is first-in first-out, and the queues
      hold the unused requests. */
  lemma SeenKeeps(front: seq<Role>, m: Matcher, role: Role)
    requires Fifo(front, m.matches) && AllWaiting(front, m)
    ensures var next := Seen(m, |front|, role);
      Fifo(front + [role], next.matches) && AllWaiting(front + [role], next)
  {
    var n, trace, next, ms := |front|, front + [role], Seen(m, |front|, role), m.matches;
    match role {
      case Other =>
        FifoExtend(front, role, ms);
        forall k ensures Waiting(trace, ms, k, Queue(next.queues, k)) {
          WaitingSame(front, ms, k, Queue(m.queues, k), role);
        }
      case Request(key) =>
        FifoExtend(front, role, ms);
        forall k ensures Waiting(trace, ms, k, Queue(next.queues, k)) {
          var q := Queue(m.queues, k);
          if k == key { WaitingMore(front, ms, k, q); } else { WaitingSame(front, ms, k, q, role); }
        }
      case Response(key) =>
        ResponseKeeps(front, m, key);
    }
  }

  lemma ResponseKeeps(front: seq<Role>, m: Matcher, key: ReqKey)
    requires Fifo(front, m.matches) && AllWaiting(front, m)
    ensures var next := Seen(m, |front|, Response(key));
      Fifo(front + [Response(key)], next.matches) && AllWaiting(front + [Response(key)], next)
  {
    var n, trace, next, ms := |front|, front + [Response(key)], Seen(m, |front|, Response(key)), m.matches;
    var q := Queue(m.queues, key);
    assert Waiting(front, ms, key, q);
    if q == [] {
      forall i | 0 <= i < n && front[i] == Request(key) ensures Used(ms, i) { assert i !in q; }
      FifoExtend(front, Response(key), ms);
      forall k ensures Waiting(trace, ms, k, Queue(next.queues, k)) {
        WaitingSame(front, ms, k, Queue(m.queues, k), Response(key));
      }
    } else {
      assert q[0] in q;
      FifoPair(front, key, ms, q);
      forall k ensures Waiting(trace, next.matches, k, Queue(next.queues, k)) {
        WaitingLess(front, ms, k, Queue(m.queues, k), key, q[0]);
      }
    }
  }

  lemma {:induction false} RunIsFifo(trace: seq<Role>)
    ensures Fifo(trace, Run(trace).matches) && AllWaiting(trace, Run(trace))
  {
    if trace != [] {
      var n := |trace| - 1;
      RunIsFifo(trace[..n]);
      SeenKeeps(trace[..n], Run(trace[..n]), trace[n]);
      assert trace == trace[..n] + [trace[n]];
    }
  }

  // ------------------------------------------------------------ it is the only matching

  lemma NewPairUnused(trace: seq<Role>, before: seq<Match>, m: Match)
    requires Fifo(trace, before + [m])
    ensures !Used(before, m.req)
  {
    var all := before + [m];
    assert all[|before|] == m;
    forall a | 0 <= a < |before| ensures before[a].req != m.req {
      assert all[a] == before[a];
      assert RoleAt(trace, all[a].req) == RoleAt(trace, m.req) ==> all[a].req < m.req;
    }
  }

  /** ms is `before`, with or without one pair more for the response at n. */
  ghost predicate LastPair(ms: seq<Match>, before: seq<Match>, n: nat) {
    (ms == before && !Answers(ms, n)) || exists i: nat :: ms == before + [Match(i, n)]
  }

  function WithoutLast(ms: seq<Match>, n: nat): seq<Match> {
    if |ms| > 0 && ms[|ms| - 1].resp == n then ms[..|ms| - 1] else ms
  }

  lemma ShorterPairs(front: seq<Role>, role: Role, ms: seq<Match>)
    requires Fifo(front + [role], ms)
    ensures var before := WithoutLast(ms, |front|);
      && LastPair(ms, before, |front|) && before <= ms
      && forall a {:trigger before[a]} :: 0 <= a < |before| ==> IsPair(front, before[a])
  {
    var n, trace, before := |front|, front + [role], WithoutLast(ms, |front|);
    forall a | 0 <= a < |before| ensures before[a] == ms[a] && IsPair(front, before[a]) {
      assert IsPair(trace, ms[a]);
      if a < |ms| - 1 { assert ms[a].resp < ms[|ms| - 1].resp && IsPair(trace, ms[|ms| - 1]); }
    }
    if before != ms {
      assert ms == before + [Match(ms[|ms| - 1].req, n)];
    }
  }

  lemma ShorterUsed(ms: seq<Match>, n: nat, i: nat, j: nat)
    requires j <= n && UsedBefore(ms, i, j)
    ensures UsedBefore(WithoutLast(ms, n), i, j)
  {
    var a :| 0 <= a < |ms| && ms[a].req == i && ms[a].resp < j;
    assert WithoutLast(ms, n)[a] == ms[a];
  }

  lemma ShorterInOrder(front: seq<Role>, role: Role, ms: seq<Match>)
    requires Fifo(front + [role], ms)
    ensures InOrder(front, WithoutLast(ms, |front|))
  {
    var trace, before := front + [role], WithoutLast(ms, |front|);
    ShorterPairs(front, role, ms);
    forall a, b | 0 <= a < b < |before| && RoleAt(front, before[a].req) == RoleAt(front, before[b].req)
      ensures before[a].req < before[b].req
    {
      assert before[a] == ms[a] && before[b] == ms[b] && IsPair(front, before[a]) && IsPair(front, before[b]);
      assert RoleAt(trace, ms[a].req) == RoleAt(trace, ms[b].req);
    }
  }

  lemma ShorterNonePassedOver(front: seq<Role>, role: Role, ms: seq<Match>)
    requires Fifo(front + [role], ms)
    ensures NonePassedOver(front, WithoutLast(ms, |front|))
  {
    var n, trace, before := |front|, front + [role], WithoutLast(ms, |front|);
    ShorterPairs(front, role, ms);
    forall a, i: nat | 0 <= a < |before| && i < before[a].req && i < n && front[i] == RoleAt(front, before[a].req)
      ensures UsedBefore(before, i, before[a].resp)
    {
      assert before[a] == ms[a] && IsPair(front, ms[a]) && trace[i] == RoleAt(trace, ms[a].req);
      ShorterUsed(ms, n, i, ms[a].resp);
    }
  }

  lemma ShorterNoneLeftOut(front: seq<Role>, role: Role, ms: seq<Match>)
    requires Fifo(front + [role], ms)
    ensures NoneLeftOut(front, WithoutLast(ms, |front|))
  {
    var n, trace, before := |front|, front + [role], WithoutLast(ms, |front|);
    forall i: nat, j: nat | i < j < n && front[j].Response? && front[i] == Request(front[j].key) && !Answers(before, j)
      ensures UsedBefore(before, i, j)
    {
      if Answers(ms, j) { ShorterAnswers(ms, n, j); }
      assert trace[i] == front[i] && trace[j] == front[j];
      ShorterUsed(ms, n, i, j);
    }
  }

  /** Without its pair for the last position, a matching is one of the shorter trace. */
  lemma FifoShorter(front: seq<Role>, role: Role, ms: seq<Match>)
    requires Fifo(front + [role], ms)
    ensures Fifo(front, WithoutLast(ms, |front|)) && LastPair(ms, WithoutLast(ms, |front|), |front|)
  {
    ShorterPairs(front, role, ms);
    ShorterInOrder(front, role, ms);
    ShorterNonePassedOver(front, role, ms);
    ShorterNoneLeftOut(front, role, ms);
  }

  lemma ShorterAnswers(ms: seq<Match>, n: nat, j: nat)
    requires j < n && Answers(ms, j)
    ensures Answers(WithoutLast(ms, n), j)
  {
    var a :| 0 <= a < |ms| && ms[a].resp == j;
    assert WithoutLast(ms, n)[a] == ms[a];
  }

  /** The first-in first-out matching of a trace is unique: it is what the matcher finds. */
  lemma {:induction false} FifoUnique(trace: seq<Role>, ms: seq<Match>)
    requires Fifo(trace, ms)
    ensures ms == Run(trace).matches
  {
    if trace == [] {
      assert ms == [] || IsPair(trace, ms[0]);
    } else {
      var n := |trace| - 1;
      var front, role := trace[..n], trace[n];
      assert trace == front + [role];
      var before := WithoutLast(ms, n);
      FifoShorter(front, role, ms);
      FifoUnique(front, before);
      RunIsFifo(front);
      LastPairForced(front, role, before, ms, Run(front));
    }
  }

  lemma LastPairForced(front: seq<Role>, role: Role, before: seq<Match>, ms: seq<Match>, m: Matcher)
    requires Fifo(front + [role], ms) && Fifo(front, before) && before == m.matches && AllWaiting(front, m)
    requires LastPair(ms, before, |front|)
    ensures ms == Seen(m, |front|, role).matches
  {
    var n, trace := |front|, front + [role];
    var key := if role.Response? then role.key else ReqKey([], 0, [], 0);
    var q := Queue(m.queues, key);
    assert Waiting(front, before, key, q);
    if ms == before {
      assert q == [] || (q[0] in q && trace[q[0]] == Request(key));
    } else {
      var i: nat :| ms == before + [Match(i, n)];
      assert ms[|before|] == Match(i, n) && IsPair(trace, Match(i, n));
      assert trace[i] == Request(key) && front[i] == trace[i];
      NewPairUnused(trace, before, Match(i, n));
      assert i in q;
      HeadForced(front, role, before, ms, i, q, key);
    }
  }

  /** No waiting request is older than the one a new pair uses. */
  lemma HeadForced(front: seq<Role>, role: Role, before: seq<Match>, ms: seq<Match>, i: nat, q: seq<nat>, key: ReqKey)
    requires Fifo(front + [role], ms) && ms == before + [Match(i, |front|)] && i < |front|
    requires Waiting(front, before, key, q) && i in q && role == Response(key)
    ensures i == q[0]
  {
    var n, trace := |front|, front + [role];
    if q[0] < i {
      assert q[0] in q && trace[q[0]] == front[q[0]] && trace[i] == front[i];
      assert ms[|before|] == Match(i, n) && trace[q[0]] == RoleAt(trace, ms[|before|].req);
      assert UsedBefore(ms, q[0], n);
      UsedSnoc(before, Match(i, n), q[0], n);
      assert UsedBefore(before, q[0], n);
      assert Used(before, q[0]);
    }
  }

  /** So the two descriptions of the matching agree. */
  lemma MatchesIffFifo(trace: seq<Role>, ms: seq<Match>)
    ensures ms == Run(trace).matches <==> Fifo(trace, ms)
  {
    RunIsFifo(trace);
    if Fifo(trace, ms) {
      FifoUnique(trace, ms);
    }
  }

  // ------------------------------------------------------- what this means for datagrams

  predicate IsRequest(u: UdpPacket) {
    Parse(u.payload).Some? && u.payload[0] == 1
  }

  /** An accept or a reject. */
  predicate IsReply(u: UdpPacket) {
    Parse(u.payload).Some? && (u.payload[0] == 2 || u.payload[0] == 3)
  }

  /** r goes back from the address that q was sent to, to the address and port that q came from, under
      the identifier of q. */
  predicate Mirrors(r: UdpPacket, q: UdpPacket) {
    && IsRequest(q) && IsReply(r)
    && r.srcIP == q.dstIP && r.dstIP == q.srcIP && r.dstPort == q.srcPort && r.payload[1] == q.payload[1]
  }

  /** Datagram i is the oldest request that j mirrors and no earlier reply has used. */
  ghost predicate OldestUnused(pkts: seq<UdpPacket>, ms: seq<Match>, i: nat, j: nat) {
    && i < j < |pkts| && Mirrors(pkts[j], pkts[i]) && !UsedBefore(ms, i, j)
    && forall k: nat :: k < i && Mirrors(pkts[j], pkts[k]) ==> UsedBefore(ms, k, j)
  }

  lemma MirrorsIffRoles(r: UdpPacket, q: UdpPacket)
    ensures IsRequest(q) <==> RoleOf(q).Request?
    ensures Mirrors(r, q) <==> RoleOf(q).Request? && RoleOf(r) == Response(RoleOf(q).key)
  {
    ParseIff(q.payload);
    ParseIff(r.payload);
  }

  lemma PairIsOldest(pkts: seq<UdpPacket>, ms: seq<Match>, a: nat)
    requires Fifo(Roles(pkts), ms) && a < |ms|
    ensures OldestUnused(pkts, ms, ms[a].req, ms[a].resp)
  {
    var trace, i, j := Roles(pkts), ms[a].req, ms[a].resp;
    assert IsPair(trace, ms[a]);
    MirrorsIffRoles(pkts[j], pkts[i]);
    forall b | 0 <= b < |ms| && b != a ensures ms[b].req != i {
      assert RoleAt(trace, ms[b].req) == RoleAt(trace, ms[a].req) ==> ms[b].req != ms[a].req;
    }
    forall k: nat | k < i && Mirrors(pkts[j], pkts[k]) ensures UsedBefore(ms, k, j) {
      MirrorsIffRoles(pkts[j], pkts[k]);
      assert trace[k] == RoleAt(trace, ms[a].req);
    }
  }

  /** A request and a reply are paired exactly if it is the oldest request that the reply mirrors and
      that no earlier reply has used: so a reply is paired whenever there is such a request. */
  lemma PairedIffOldest(pkts: seq<UdpPacket>, ms: seq<Match>, i: nat, j: nat)
    requires Fifo(Roles(pkts), ms)
    ensures Match(i, j) in ms <==> OldestUnused(pkts, ms, i, j)
  {
    var trace := Roles(pkts);
    if Match(i, j) in ms {
      var a :| 0 <= a < |ms| && ms[a] == Match(i, j);
      PairIsOldest(pkts, ms, a);
    }
    if OldestUnused(pkts, ms, i, j) {
      MirrorsIffRoles(pkts[j], pkts[i]);
      assert trace[i] == Request(trace[j].key) && trace[j].Response?;
      assert Answers(ms, j);
      var a :| 0 <= a < |ms| && ms[a].resp == j;
      PairIsOldest(pkts, ms, a);
      assert ms[a] == Match(i, j);
    }
  }

  /** What the tool makes of a capture: its pairs in the order of the replies, and how many requests
      are left. */
  ghost predicate Matched(pkts: seq<UdpPacket>, ms: seq<Match>, unmatched: nat) {
    && (forall i: nat, j: nat :: Match(i, j) in ms <==> OldestUnused(pkts, ms, i, j))
    && (forall a, b {:trigger ms[a], ms[b]} :: 0 <= a < b < |ms| ==> ms[a].resp < ms[b].resp)
    && unmatched == |set i: nat | i < |pkts| && IsRequest(pkts[i]) && !Used(ms, i)|
  }

  lemma FifoIsMatched(pkts: seq<UdpPacket>, ms: seq<Match>)
    requires Fifo(Roles(pkts), ms)
    ensures Matched(pkts, ms, |Unused(Roles(pkts), ms)|)
  {
    forall i: nat, j: nat ensures Match(i, j) in ms <==> OldestUnused(pkts, ms, i, j) {
      PairedIffOldest(pkts, ms, i, j);
    }
    forall i | 0 <= i < |pkts| ensures IsRequest(pkts[i]) <==> Roles(pkts)[i].Request? {
      MirrorsIffRoles(pkts[i], pkts[i]);
    }
    assert Unused(Roles(pkts), ms) == set i: nat | i < |pkts| && IsRequest(pkts[i]) && !Used(ms, i);
  }

  // -------------------------------------------------------------------------- counting

  /** The requests that no pair uses. */
  function Unused(trace: seq<Role>, ms: seq<Match>): set<nat> {
    set i: nat | i < |trace| && trace[i].Request? && !Used(ms, i)
  }

  function Requests(trace: seq<Role>): nat {
    if trace == [] then 0
    else Requests(trace[..|trace| - 1]) + if trace[|trace| - 1].Request? then 1 else 0
  }

  lemma UnusedSame(front: seq<Role>, ms: seq<Match>, role: Role)
    requires !role.Request?
    ensures Unused(front + [role], ms) == Unused(front, ms)
  {
  }

  lemma UnusedMore(front: seq<Role>, ms: seq<Match>, role: Role)
    requires Fifo(front, ms) && role.Request?
    ensures |Unused(front + [role], ms)| == |Unused(front, ms)| + 1
  {
    if Used(ms, |front|) { UsedEarlier(front, ms, |front|); }
    assert Unused(front + [role], ms) == Unused(front, ms) + {|front|};
  }

  lemma UnusedLess(front: seq<Role>, ms: seq<Match>, key: ReqKey, q: seq<nat>)
    requires Fifo(front, ms) && Waiting(front, ms, key, q) && q != []
    ensures |Unused(front, ms)| == |Unused(front, ms + [Match(q[0], |front|)])| + 1
  {
    var next := ms + [Match(q[0], |front|)];
    assert q[0] in q;
    forall i: nat ensures Used(next, i) <==> Used(ms, i) || i == q[0] {
      UsedSnoc(ms, Match(q[0], |front|), i, 0);
    }
    assert Unused(front, ms) == Unused(front, next) + {q[0]};
  }

  lemma UnusedAfter(front: seq<Role>, m: Matcher, role: Role)
    requires Fifo(front, m.matches) && AllWaiting(front, m)
    ensures var next := Seen(m, |front|, role);
      |next.matches| + |Unused(front + [role], next.matches)|
        == |m.matches| + |Unused(front, m.matches)| + if role.Request? then 1 else 0
  {
    match role {
      case Request(_) => UnusedMore(front, m.matches, role);
      case Other => UnusedSame(front, m.matches, role);
      case Response(key) =>
        var q := Queue(m.queues, key);
        assert Waiting(front, m.matches, key, q);
        UnusedSame(front, Seen(m, |front|, role).matches, role);
        if q != [] { UnusedLess(front, m.matches, key, q); }
    }
  }

  /** Requests = pairs + unmatched requests, for every trace. */
  lemma {:induction false} RequestsConserved(trace: seq<Role>)
    ensures Requests(trace) == |Run(trace).matches| + |Unused(trace, Run(trace).matches)|
  {
    if trace == [] {
      assert Unused(trace, Run(trace).matches) == {};
    } else {
      var n := |trace| - 1;
      RequestsConserved(trace[..n]);
      RunIsFifo(trace[..n]);
      UnusedAfter(trace[..n], Run(trace[..n]), trace[n]);
      assert trace == trace[..n] + [trace[n]];
    }
  }

  function Members(q: seq<nat>): set<nat> {
    set i | i in q
  }

  /** A strictly increasing queue has as many members as entries. */
  lemma {:induction false} QueueSize(q: seq<nat>)
    requires forall a, b {:trigger q[a], q[b]} :: 0 <= a < b < |q| ==> q[a] < q[b]
    ensures |Members(q)| == |q|
  {
    if q != [] {
      var n := |q| - 1;
      var front, last := q[..n], q[n];
      QueueSize(front);
      assert forall a :: 0 <= a < n ==> front[a] < last;
      assert q == front + [last];
      assert Members(q) == Members(front) + {last};
    }
  }

  // -------------------------------------------------------------------------- the tool

  datatype Pair = Pair(req: Attributes, reply: Packet)

  /** These are the attributes of the packet in u. */
  predicate HasAttributes(u: UdpPacket, attributes: Attributes) {
    Parse(u.payload).Some? && Parse(u.payload).value.attributes == attributes
  }

  /** pairs[a] holds the attributes of the request and the packet of the response of ms[a]. */
  ghost predicate PairsOf(pkts: seq<UdpPacket>, ms: seq<Match>, pairs: seq<Pair>) {
    && |pairs| == |ms|
    && forall a {:trigger ms[a]} :: 0 <= a < |ms| ==>
         && ms[a].req < |pkts| && ms[a].resp < |pkts|
         && Some(pairs[a].reply) == Parse(pkts[ms[a].resp].payload)
         && HasAttributes(pkts[ms[a].req], pairs[a].req)
  }

  ghost predicate QueuesOf(pkts: seq<UdpPacket>, queues: Queues, waiting: map<ReqKey, seq<Attributes>>) {
    && waiting.Keys == queues.Keys
    && forall key :: key in queues ==>
         |waiting[key]| == |queues[key]| &&
         forall a {:trigger queues[key][a]} :: 0 <= a < |queues[key]| ==>
           queues[key][a] < |pkts| && HasAttributes(pkts[queues[key][a]], waiting[key][a])
  }

  lemma QueuesAppend(pkts: seq<UdpPacket>, queues: Queues, waiting: map<ReqKey, seq<Attributes>>, key: ReqKey, at: nat,
                     attributes: Attributes)
    requires QueuesOf(pkts, queues, waiting) && at < |pkts| && HasAttributes(pkts[at], attributes)
    ensures QueuesOf(pkts, queues[key := Queue(queues, key) + [at]],
                     waiting[key := (if key in waiting then waiting[key] else []) + [attributes]])
  {
  }

  lemma QueuesPop(pkts: seq<UdpPacket>, queues: Queues, waiting: map<ReqKey, seq<Attributes>>, key: ReqKey)
    requires QueuesOf(pkts, queues, waiting) && key in queues && queues[key] != []
    ensures |waiting[key]| == |queues[key]| && HasAttributes(pkts[queues[key][0]], waiting[key][0])
    ensures QueuesOf(pkts, queues[key := queues[key][1..]], waiting[key := waiting[key][1..]])
  {
    var next, left := queues[key := queues[key][1..]], waiting[key := waiting[key][1..]];
    forall k, a | k in next && 0 <= a < |next[k]|
      ensures next[k][a] < |pkts| && HasAttributes(pkts[next[k][a]], left[k][a])
    {
      assert next[k][a] == queues[k][if k == key then a + 1 else a];
    }
  }

  lemma PairsAppend(pkts: seq<UdpPacket>, ms: seq<Match>, pairs: seq<Pair>, m: Match, pair: Pair)
    requires PairsOf(pkts, ms, pairs) && m.req < |pkts| && m.resp < |pkts|
    requires Some(pair.reply) == Parse(pkts[m.resp].payload) && HasAttributes(pkts[m.req], pair.req)
    ensures PairsOf(pkts, ms + [m], pairs + [pair])
  {
  }

  lemma RunNext(trace: seq<Role>, i: nat)
    requires i < |trace|
    ensures Run(trace[..i + 1]) == Seen(Run(trace[..i]), i, trace[i])
  {
    assert trace[..i + 1][..i] == trace[..i];
  }

  method MatchPairs(pkts: seq<UdpPacket>) returns (pairs: seq<Pair>, unmatched: nat)
    ensures PairsOf(pkts, Run(Roles(pkts)).matches, pairs)
    ensures Fifo(Roles(pkts), Run(Roles(pkts)).matches)
    ensures Matched(pkts, Run(Roles(pkts)).matches, unmatched)
    ensures Requests(Roles(pkts)) == |pairs| + unmatched
  {
    var queues: map<ReqKey, seq<Attributes>> := map[];
    ghost var trace, m := Roles(pkts), Matcher(map[], []);
    pairs := [];
    for i := 0 to |pkts|
      invariant m == Run(trace[..i])
      invariant PairsOf(pkts, m.matches, pairs) && QueuesOf(pkts, m.queues, queues)
    {
      RunNext(trace, i);
      var u := pkts[i];
      ghost var before := m;
      m := Seen(m, i, trace[i]);
      var p := Parse(u.payload);
      if p == None {
        continue;
      }
      if p.value.code == ACCESS_REQUEST {
        var key := ReqKey(u.srcIP, u.srcPort, u.dstIP, p.value.id);
        QueuesAppend(pkts, before.queues, queues, key, i, p.value.attributes);
        queues := queues[key := (if key in queues then queues[key] else []) + [p.value.attributes]];
      } else if p.value.code == ACCESS_ACCEPT || p.value.code == ACCESS_REJECT {
        var key := ReqKey(u.dstIP, u.dstPort, u.srcIP, p.value.id);
        var q := if key in queues then queues[key] else [];
        if |q| == 0 {
          continue;
        }
        QueuesPop(pkts, before.queues, queues, key);
        PairsAppend(pkts, before.matches, pairs, Match(before.queues[key][0], i), Pair(q[0], p.value));
        pairs := pairs + [Pair(q[0], p.value)];
        queues := queues[key := q[1..]];
      }
    }
    assert trace[..|pkts|] == trace;
    RunIsFifo(trace);
    RequestsConserved(trace);
    FifoIsMatched(pkts, m.matches);
    unmatched := CountWaiting(pkts, trace, m, queues);
  }

  /** The unused requests whose key is not among `rest`. */
  function Counted(trace: seq<Role>, ms: seq<Match>, rest: set<ReqKey>): set<nat> {
    set i | i in Unused(trace, ms) && trace[i].key !in rest
  }

  lemma CountedMore(trace: seq<Role>, m: Matcher, rest: set<ReqKey>, key: ReqKey)
    requires AllWaiting(trace, m) && key in rest
    ensures Counted(trace, m.matches, rest - {key})
         == Counted(trace, m.matches, rest) + Members(Queue(m.queues, key))
    ensures Counted(trace, m.matches, rest) !! Members(Queue(m.queues, key))
    ensures |Members(Queue(m.queues, key))| == |Queue(m.queues, key)|
  {
    assert Waiting(trace, m.matches, key, Queue(m.queues, key));
    QueueSize(Queue(m.queues, key));
  }

  lemma CountedNone(trace: seq<Role>, m: Matcher)
    requires AllWaiting(trace, m)
    ensures Counted(trace, m.matches, m.queues.Keys) == {}
  {
    forall i | i in Unused(trace, m.matches) ensures trace[i].key in m.queues {
      assert Waiting(trace, m.matches, trace[i].key, Queue(m.queues, trace[i].key));
      assert i in Queue(m.queues, trace[i].key);
    }
  }

  /** Adds up the queues, in whatever order the map yields its keys. */
  method CountWaiting(ghost pkts: seq<UdpPacket>, ghost trace: seq<Role>, ghost m: Matcher,
                      queues: map<ReqKey, seq<Attributes>>) returns (n: nat)
    requires AllWaiting(trace, m) && QueuesOf(pkts, m.queues, queues)
    ensures n == |Unused(trace, m.matches)|
  {
    n := 0;
    var rest := queues.Keys;
    CountedNone(trace, m);
    while rest != {}
      invariant rest <= queues.Keys && n == |Counted(trace, m.matches, rest)|
    {
      var key :| key in rest;
      CountedMore(trace, m, rest, key);
      n := n + |queues[key]|;
      rest := rest - {key};
    }
    assert Counted(trace, m.matches, {}) == Unused(trace, m.matches);
  }
}
