/** Records, live events and lookups of the client database (clientdb/store.go and
    clientdb/live.go), as functions on the list of binds of each source. */
module ClientDb {
  import opened Prelude
  import opened Text
  import opened MacAddr
  import opened BindIndexes

  // ------------------------------------------------------------------------ addresses

  const MAX_IP := 0xffff_ffff

  /** intToIP: None stands for the nil address. */
  function IntToIP(s: string): Option<seq<byte>> {
    var digits := TrimSpace(s);
    if digits == "" then None
    else match ScanDigits(digits, 0, MAX_IP)
      case Number(n) => Some(BigEndian(n))
      case _ => None
  }

  /** An address a.b.c.d is read back from its one decimal number. */
  lemma IPRoundTrip(a: byte, b: byte, c: byte, d: byte)
    ensures IntToIP(NatText(((a * 256 + b) * 256 + c) * 256 + d)) == Some([a, b, c, d])
  {
    var n := ((a * 256 + b) * 256 + c) * 256 + d;
    FourParts(a, b, c, d);
    TrimNatText(n);
    ScanNatText(n, MAX_IP);
  }

  lemma FourParts(a: byte, b: byte, c: byte, d: byte)
    ensures BigEndian(((a * 256 + b) * 256 + c) * 256 + d) == [a, b, c, d]
  {
    var n := ((a * 256 + b) * 256 + c) * 256 + d;
    assert n / 0x100 == (a * 256 + b) * 256 + c;
    assert n / 0x1_0000 == n / 0x100 / 0x100 == a * 256 + b;
    assert n / 0x100_0000 == n / 0x1_0000 / 0x100 == a;
  }

  predicate ReadableIP(s: string) {
    NonemptyDigits(TrimSpace(s)) && Decimal(TrimSpace(s)) < 0x1_0000_0000
  }

  /** These are the four bytes of the number in the text, the highest first. */
  predicate IsAddress(ip: seq<byte>, s: string) {
    |ip| == 4 && Decimal(TrimSpace(s)) == ip[0] as int * 0x100_0000 + ip[1] as int * 0x1_0000 + ip[2] as int * 0x100 + ip[3]
  }

  /** An address is read from exactly the decimal numbers of 32 bits, with spaces around or not. */
  lemma IPIff(s: string)
    ensures IntToIP(s).Some? <==> ReadableIP(s)
    ensures IntToIP(s).Some? ==> IsAddress(IntToIP(s).value, s)
  {
    var t := TrimSpace(s);
    ScanIs(t, 0xffff_ffff);
    assert t[..|t|] == t;
    if AllDigits(t) { BeyondIsLarge(t, 0xffff_ffff); }
    if IntToIP(s).Some? { BigEndianRead(Decimal(t), []); }
  }

  lemma TrimNatText(n: nat)
    ensures NatText(n) != "" && TrimSpace(NatText(n)) == NatText(n)
  {
    NatTextDigits(n);
    assert IsDigit(NatText(n)[0]) && IsDigit(NatText(n)[|NatText(n)| - 1]);
  }

  // --------------------------------------------------------------------- loaded lines

  datatype Device = Device(ip: Option<seq<byte>>, mac: string, parseType: string)

  function Fields(line: string): seq<string> {
    Split(TrimSpace(line), ';')
  }

  function ParseDevice(line: string): Option<Device> {
    DeviceFrom(Fields(line))
  }

  function DeviceFrom(fields: seq<string>): Option<Device> {
    if |fields| < 3 || Canonical(fields[1]) == "" then None
    else Some(Device(IntToIP(fields[0]), Canonical(fields[1]), TrimSpace(fields[2])))
  }

  function ParseBind(line: string): Option<Bind> {
    BindFrom(Fields(line))
  }

  function BindFrom(fields: seq<string>): Option<Bind> {
    if |fields| < 3 || TrimSpace(fields[0]) == "" || Canonical(fields[2]) == "" then None
    else
      var id, ip, mac := TrimSpace(fields[0]), IntToIP(fields[1]), Canonical(fields[2]);
      if |fields| >= 5
      then Some(Bind(id, ip, mac, Canonical(fields[3]), Atoi(TrimSpace(fields[4])).value))
      else Some(Bind(id, ip, mac, "", 0))
  }

  // What a line is, from the fields it was joined from.

  ghost predicate AllWithout(fields: seq<string>, c: char) {
    forall i :: 0 <= i < |fields| ==> c !in fields[i]
  }

  /** The same fields but for the spaces around them. */
  ghost predicate Alike(fields: seq<string>, others: seq<string>) {
    |fields| == |others| && forall i {:trigger fields[i]} {:trigger others[i]} :: 0 <= i < |fields| ==>
      TrimSpace(fields[i]) == TrimSpace(others[i]) && Canonical(fields[i]) == Canonical(others[i])
  }

  lemma SpaceIgnored(s: string, c: char)
    requires IsSpace(c)
    ensures TrimSpace(s + [c]) == TrimSpace(s) == TrimSpace([c] + s)
    ensures Canonical(s + [c]) == Canonical(s) == Canonical([c] + s)
  {
    TrimBehind(s, c);
    assert UpperText([c]) == [c];
    assert Filter([c], IsHex) == [];
    HexDigitsConcat(s, [c]);
    HexDigitsConcat([c], s);
    assert HexDigits(s) + [] == HexDigits(s) == [] + HexDigits(s);
  }

  /** The first character of a line is that of its first field, ... */
  lemma JoinFront(fields: seq<string>, c: char)
    requires fields != [] && Join(fields, ';') != "" && Join(fields, ';')[0] == c != ';'
    ensures fields[0] != "" && fields[0] == [c] + fields[0][1..]
    ensures Join(fields[0 := fields[0][1..]], ';') == Join(fields, ';')[1..]
  {
    var rest := fields[0 := fields[0][if fields[0] == "" then 0 else 1..]];
    assert rest[1..] == fields[1..];
  }

  /** ... and the last one that of its last. */
  lemma {:induction false} JoinBack(fields: seq<string>, c: char)
    requires fields != [] && Join(fields, ';') != "" && Join(fields, ';')[|Join(fields, ';')| - 1] == c != ';'
    ensures var n := |fields| - 1; var last := fields[n];
      && last != "" && last == last[..|last| - 1] + [c]
      && Join(fields[n := last[..|last| - 1]], ';') == Join(fields, ';')[..|Join(fields, ';')| - 1]
  {
    var n, line := |fields| - 1, Join(fields, ';');
    if n > 0 {
      var more := Join(fields[1..], ';');
      assert line == fields[0] + ";" + more;
      assert more != "";
      assert more[|more| - 1] == line[|line| - 1];
      JoinBack(fields[1..], c);
      var shorter := fields[n][..|fields[n]| - 1];
      assert fields[n := shorter][1..] == fields[1..][n - 1 := shorter];
      assert fields[0] + ";" + more[..|more| - 1] == line[..|line| - 1];
    }
  }

  /** Dropping a space at the end of one field. */
  lemma OneLess(fields: seq<string>, k: nat, shorter: string, c: char)
    requires k < |fields| && AllWithout(fields, ';') && IsSpace(c)
    requires fields[k] == [c] + shorter || fields[k] == shorter + [c]
    ensures AllWithout(fields[k := shorter], ';') && Alike(fields[k := shorter], fields)
  {
    SpaceIgnored(shorter, c);
  }

  lemma AlikeTwice(a: seq<string>, b: seq<string>, c: seq<string>)
    requires Alike(a, b) && Alike(b, c)
    ensures Alike(a, c)
  {
  }

  /** A trimmed line has the same fields, up to the spaces around them. */
  lemma {:induction false} TrimJoin(fields: seq<string>) returns (trimmed: seq<string>)
    requires fields != [] && AllWithout(fields, ';')
    ensures trimmed != [] && AllWithout(trimmed, ';') && Alike(trimmed, fields)
    ensures TrimSpace(Join(fields, ';')) == Join(trimmed, ';')
    decreases |Join(fields, ';')|
  {
    var n, line := |fields| - 1, Join(fields, ';');
    if line == "" || (!IsSpace(line[0]) && !IsSpace(line[|line| - 1])) {
      trimmed := fields;
      return;
    }
    var k, shorter := 0, "";
    if IsSpace(line[0]) {
      JoinFront(fields, line[0]);
      shorter := fields[0][1..];
      OneLess(fields, k, shorter, line[0]);
    } else {
      JoinBack(fields, line[|line| - 1]);
      k, shorter := n, fields[n][..|fields[n]| - 1];
      OneLess(fields, k, shorter, line[|line| - 1]);
    }
    trimmed := TrimJoin(fields[k := shorter]);
    AlikeTwice(trimmed, fields[k := shorter], fields);
  }

  lemma FieldsAlike(fields: seq<string>)
    requires fields != [] && AllWithout(fields, ';')
    ensures Alike(Fields(Join(fields, ';')), fields)
  {
    var trimmed := TrimJoin(fields);
    SplitJoin(trimmed, ';');
  }

  lemma AddressAlike(s: string, t: string)
    requires TrimSpace(s) == TrimSpace(t)
    ensures IntToIP(s) == IntToIP(t)
  {
  }

  lemma DeviceAlike(fields: seq<string>, others: seq<string>)
    requires Alike(fields, others)
    ensures DeviceFrom(fields) == DeviceFrom(others)
  {
    if |fields| >= 3 {
      AddressAlike(fields[0], others[0]);
      assert Canonical(fields[1]) == Canonical(others[1]);
    }
  }

  lemma BindAlike(fields: seq<string>, others: seq<string>)
    requires Alike(fields, others)
    ensures BindFrom(fields) == BindFrom(others)
  {
    if |fields| >= 3 {
      assert TrimSpace(fields[0]) == TrimSpace(others[0]) && Canonical(fields[2]) == Canonical(others[2]);
      AddressAlike(fields[1], others[1]);
      if |fields| >= 5 {
        assert Canonical(fields[3]) == Canonical(others[3]) && TrimSpace(fields[4]) == TrimSpace(others[4]);
      }
    }
  }

  lemma LineFields(fields: seq<string>)
    requires fields != [] && AllWithout(fields, ';')
    ensures ParseBind(Join(fields, ';')) == BindFrom(fields) && ParseDevice(Join(fields, ';')) == DeviceFrom(fields)
  {
    FieldsAlike(fields);
    BindAlike(Fields(Join(fields, ';')), fields);
    DeviceAlike(Fields(Join(fields, ';')), fields);
  }

  /** A bind line, from its fields: id, address and client MAC, and with at least five of them device
      MAC and port. Spaces around a field do not matter. */
  lemma BindLine(fields: seq<string>)
    requires fields != [] && AllWithout(fields, ';')
    ensures var b := ParseBind(Join(fields, ';'));
      && (b.Some? <==> |fields| >= 3 && TrimSpace(fields[0]) != "" && HasHexDigit(fields[2]))
      && (b.Some? ==>
            && b.value.id == TrimSpace(fields[0]) && b.value.ip == IntToIP(fields[1])
            && b.value.clientMac == Canonical(fields[2])
            && b.value.deviceMac == (if |fields| < 5 then "" else Canonical(fields[3]))
            && b.value.port == (if |fields| < 5 then 0 else Atoi(TrimSpace(fields[4])).value))
  {
    LineFields(fields);
    BindParts(fields, ParseBind(Join(fields, ';')));
  }

  lemma BindParts(fields: seq<string>, b: Option<Bind>)
    requires b == BindFrom(fields)
    ensures b.Some? <==> |fields| >= 3 && TrimSpace(fields[0]) != "" && HasHexDigit(fields[2])
    ensures b.Some? ==>
      && b.value.id == TrimSpace(fields[0]) && b.value.ip == IntToIP(fields[1])
      && b.value.clientMac == Canonical(fields[2])
      && b.value.deviceMac == (if |fields| < 5 then "" else Canonical(fields[3]))
      && b.value.port == (if |fields| < 5 then 0 else Atoi(TrimSpace(fields[4])).value)
  {
    if |fields| >= 3 { CanonicalEmptyIff(fields[2]); }
  }

  /** A device line: address, MAC and parse type. */
  lemma DeviceLine(fields: seq<string>)
    requires fields != [] && AllWithout(fields, ';')
    ensures var d := ParseDevice(Join(fields, ';'));
      && (d.Some? <==> |fields| >= 3 && HasHexDigit(fields[1]))
      && (d.Some? ==> d.value.ip == IntToIP(fields[0]) && d.value.mac == Canonical(fields[1])
                      && d.value.parseType == TrimSpace(fields[2]))
  {
    LineFields(fields);
    if |fields| >= 3 { CanonicalEmptyIff(fields[1]); }
  }

  function ParsedLines(lines: seq<string>): seq<Option<Bind>> {
    seq(|lines|, i requires 0 <= i < |lines| => ParseBind(lines[i]))
  }

  /** The puts of the lines that are binds, in order. */
  function Puts(parsed: seq<Option<Bind>>): seq<Op> {
    if parsed == [] then []
    else
      var front, last := Puts(parsed[..|parsed| - 1]), parsed[|parsed| - 1];
      if last.Some? then front + [PutOp(last.value)] else front
  }

  function Loaded(lines: seq<string>): seq<Bind> {
    Run([], Puts(ParsedLines(lines)))
  }

  /** What every stored bind satisfies: its MACs are normal and its port fits an int. */
  predicate NormalBind(b: Bind) {
    && b.id != "" && b.clientMac != ""
    && Canonical(b.clientMac) == b.clientMac && Canonical(b.deviceMac) == b.deviceMac
    && MIN_INT <= b.port <= MAX_INT
  }

  predicate AllNormal(live: seq<Bind>) {
    forall b :: b in live ==> NormalBind(b)
  }

  lemma EmptyNormal()
    ensures Canonical("") == ""
  {
    assert UpperText("") == "";
  }

  lemma ParsedNormal(line: string)
    requires ParseBind(line).Some?
    ensures NormalBind(ParseBind(line).value)
  {
    var fields, b := Fields(line), ParseBind(line).value;
    CanonicalIdempotent(fields[2]);
    assert b.id != "" && b.clientMac != "" && Canonical(b.clientMac) == b.clientMac;
    if |fields| >= 5 {
      CanonicalIdempotent(fields[3]);
      AtoiRange(TrimSpace(fields[4]));
      assert Canonical(b.deviceMac) == b.deviceMac;
    } else {
      EmptyNormal();
    }
  }

  lemma StepNormal(live: seq<Bind>, op: Op)
    requires AllNormal(live) && (op.PutOp? ==> NormalBind(op.b))
    ensures AllNormal(Step(live, op))
  {
    RemovedMembers(live, op.ID());
  }

  lemma LoadedSnoc(front: seq<string>, line: string)
    ensures Loaded(front + [line]) == match ParseBind(line)
                                      case None => Loaded(front)
                                      case Some(b) => Step(Loaded(front), PutOp(b))
  {
    var parsed, b := ParsedLines(front), ParseBind(line);
    assert ParsedLines(front + [line]) == parsed + [b];
    LoadedMore(parsed, b);
  }

  lemma LoadedMore(parsed: seq<Option<Bind>>, b: Option<Bind>)
    ensures Run([], Puts(parsed + [b])) == match b
                                           case None => Run([], Puts(parsed))
                                           case Some(b) => Step(Run([], Puts(parsed)), PutOp(b))
  {
    assert (parsed + [b])[..|parsed|] == parsed;
    match b {
      case None =>
      case Some(b) => assert (Puts(parsed) + [PutOp(b)])[..|Puts(parsed)|] == Puts(parsed);
    }
  }

  lemma LoadedNext(lines: seq<string>, i: nat)
    requires i < |lines|
    ensures Loaded(lines[..i + 1]) == match ParseBind(lines[i])
                                      case None => Loaded(lines[..i])
                                      case Some(b) => Step(Loaded(lines[..i]), PutOp(b))
  {
    assert lines[..i + 1] == lines[..i] + [lines[i]];
    LoadedSnoc(lines[..i], lines[i]);
  }

  lemma {:induction false} LoadedNormal(lines: seq<string>)
    ensures AllNormal(Loaded(lines))
  {
    if lines != [] {
      var front, line := lines[..|lines| - 1], lines[|lines| - 1];
      assert lines == front + [line];
      LoadedNormal(front);
      LoadedSnoc(front, line);
      if ParseBind(line).Some? {
        ParsedNormal(line);
        StepNormal(Loaded(front), PutOp(ParseBind(line).value));
      }
    }
  }

  function Stored(parsed: seq<Option<Bind>>): nat -> bool {
    (i: nat) => i < |parsed| && parsed[i].Some?
  }

  /** at[j] is the position of the line that made the j-th put. */
  ghost predicate PutAt(parsed: seq<Option<Bind>>, at: seq<nat>) {
    && Positions(at, |parsed|, Stored(parsed)) && |Puts(parsed)| == |at|
    && forall j {:trigger at[j]} :: 0 <= j < |at| ==>
         parsed[at[j]].Some? && Puts(parsed)[j] == PutOp(parsed[at[j]].value)
  }

  lemma PutsNext(front: seq<Option<Bind>>, b: Option<Bind>)
    ensures Puts(front + [b]) == if b.Some? then Puts(front) + [PutOp(b.value)] else Puts(front)
  {
    assert (front + [b])[..|front|] == front;
  }

  lemma PutAtNext(front: seq<Option<Bind>>, b: Option<Bind>, at: seq<nat>)
    requires PutAt(front, at)
    ensures PutAt(front + [b], if b.Some? then at + [|front|] else at)
  {
    var n, parsed := |front|, front + [b];
    var next := if b.Some? then at + [n] else at;
    PutsNext(front, b);
    PositionsNext(at, n, Stored(front), Stored(parsed));
    assert Stored(parsed)(n) == b.Some?;
    forall j | 0 <= j < |next| ensures parsed[next[j]].Some? && Puts(parsed)[j] == PutOp(parsed[next[j]].value) {
      if j < |at| {
        assert next[j] == at[j] && Stored(front)(at[j]);
        assert parsed[at[j]] == front[at[j]] && Puts(front)[j] == PutOp(front[at[j]].value);
      }
    }
  }

  lemma {:induction false} PutPositions(parsed: seq<Option<Bind>>) returns (at: seq<nat>)
    ensures PutAt(parsed, at)
  {
    if parsed == [] {
      at := [];
    } else {
      var front, b := parsed[..|parsed| - 1], parsed[|parsed| - 1];
      assert parsed == front + [b];
      var before := PutPositions(front);
      PutAtNext(front, b, before);
      at := if b.Some? then before + [|front|] else before;
    }
  }

  /** Line k is a bind and no later line is one with its id. */
  ghost predicate IsLast(parsed: seq<Option<Bind>>, k: nat) {
    && k < |parsed| && parsed[k].Some?
    && forall j {:trigger parsed[j]} :: k < j < |parsed| && parsed[j].Some? ==> parsed[j].value.id != parsed[k].value.id
  }

  lemma LastPutIsLast(parsed: seq<Option<Bind>>, at: seq<nat>, m: int)
    requires PutAt(parsed, at) && 0 <= m < |at|
    ensures IsLastOn(Puts(parsed), m) <==> IsLast(parsed, at[m])
  {
    var ops := Puts(parsed);
    assert Stored(parsed)(at[m]);
    if IsLastOn(ops, m) {
      forall j | at[m] < j < |parsed| && parsed[j].Some? ensures parsed[j].value.id != parsed[at[m]].value.id {
        assert Stored(parsed)(j);
        var i :| 0 <= i < |at| && at[i] == j;
        assert i > m && ops[i].ID() != ops[m].ID();
      }
    }
    if IsLast(parsed, at[m]) {
      forall i | m < i < |ops| ensures ops[i].ID() != ops[m].ID() {
        assert at[i] > at[m] && Stored(parsed)(at[i]);
        assert parsed[at[i]].Some?;
      }
    }
  }

  /** What is loaded is the last line of each id, in the order of those lines. */
  lemma LastLineWins(lines: seq<string>) returns (from: seq<nat>)
    ensures |from| == |Loaded(lines)|
    ensures forall i {:trigger from[i]} :: 0 <= i < |from| ==>
      IsLast(ParsedLines(lines), from[i]) && ParseBind(lines[from[i]]) == Some(Loaded(lines)[i])
    ensures forall i, j {:trigger from[i], from[j]} :: 0 <= i < j < |from| ==> from[i] < from[j]
    ensures forall k: nat :: IsLast(ParsedLines(lines), k) ==> k in from
  {
    from := LastParsedWins(ParsedLines(lines));
    forall i | 0 <= i < |from| ensures ParseBind(lines[from[i]]) == Some(Loaded(lines)[i]) {
      assert IsLast(ParsedLines(lines), from[i]);
    }
  }

  lemma LastParsedWins(parsed: seq<Option<Bind>>) returns (from: seq<nat>)
    ensures |from| == |Run([], Puts(parsed))|
    ensures forall i {:trigger from[i]} :: 0 <= i < |from| ==>
      IsLast(parsed, from[i]) && parsed[from[i]] == Some(Run([], Puts(parsed))[i])
    ensures forall i, j {:trigger from[i], from[j]} :: 0 <= i < j < |from| ==> from[i] < from[j]
    ensures forall k: nat :: IsLast(parsed, k) ==> k in from
  {
    var live, ops := Run([], Puts(parsed)), Puts(parsed);
    var at := PutPositions(parsed);
    LastOpDecides(ops);
    var last :| LeftBy(live, ops, last);
    LastPutsHold(parsed, at, last, live);
    from := seq(|last|, i requires 0 <= i < |last| => at[last[i]]);
    forall i, j | 0 <= i < j < |from| ensures from[i] < from[j] {
      assert last[i] < last[j];
    }
    forall k: nat | IsLast(parsed, k) ensures k in from {
      var i := LastPutFound(parsed, at, last, live, k);
      assert from[i] == k;
    }
  }

  lemma LastPutsHold(parsed: seq<Option<Bind>>, at: seq<nat>, last: seq<int>, live: seq<Bind>)
    requires PutAt(parsed, at) && LeftBy(live, Puts(parsed), last)
    ensures forall i {:trigger last[i]} :: 0 <= i < |last| ==>
      0 <= last[i] < |at| && IsLast(parsed, at[last[i]]) && parsed[at[last[i]]] == Some(live[i])
  {
    forall i {:trigger last[i]} | 0 <= i < |last|
      ensures 0 <= last[i] < |at| && IsLast(parsed, at[last[i]]) && parsed[at[last[i]]] == Some(live[i])
    {
      assert IsLastOn(Puts(parsed), last[i]) && Puts(parsed)[last[i]] == PutOp(live[i]);
      LastPutIsLast(parsed, at, last[i]);
    }
  }

  lemma LastPutFound(parsed: seq<Option<Bind>>, at: seq<nat>, last: seq<int>, live: seq<Bind>, k: nat) returns (i: nat)
    requires PutAt(parsed, at) && LeftBy(live, Puts(parsed), last) && IsLast(parsed, k)
    ensures i < |last| && 0 <= last[i] < |at| && at[last[i]] == k
  {
    assert Stored(parsed)(k);
    var m :| 0 <= m < |at| && at[m] == k;
    LastPutIsLast(parsed, at, m);
    assert Puts(parsed)[m].PutOp? && m in last;
    i :| 0 <= i < |last| && last[i] == m;
  }

  // ---------------------------------------------------------------------- live events

  datatype BindEvent = BindEvent(dbType: string, action: string, record: EventObject)
  datatype EventObject = EventObject(id: string, ip: string, mac: string, deviceMac: string, port: string)

  datatype EventError = UnknownSource | NoID | NoMac | BadIP | UnknownAction
  datatype Verdict = Rejected(error: EventError) | Accepted(op: Op)

  /** What applyBindEvent does with an event, given the sources it knows. */
  function Judge(ev: BindEvent, sources: set<string>): Verdict {
    if ev.dbType !in sources then Rejected(UnknownSource)
    else if ev.record.id == "" then Rejected(NoID)
    else if ev.action == "delete" then Accepted(RemoveOp(ev.record.id))
    else if ev.action == "add" || ev.action == "update" then
      var mac, ip, deviceMac := Canonical(ev.record.mac), IntToIP(ev.record.ip), Canonical(ev.record.deviceMac);
      if mac == "" then Rejected(NoMac)
      else if ip == None then Rejected(BadIP)
      else
        var port := if deviceMac == "" then 0 else Atoi(ev.record.port).value;
        Accepted(PutOp(Bind(ev.record.id, ip, mac, deviceMac, port)))
    else Rejected(UnknownAction)
  }

  /** The binds of every source. */
  type Contents = map<string, seq<Bind>>

  function Applied(c: Contents, ev: BindEvent): Contents {
    match Judge(ev, c.Keys)
    case Rejected(_) => c
    case Accepted(op) => c[ev.dbType := Step(c[ev.dbType], op)]
  }

  function Replayed(c: Contents, evs: seq<BindEvent>): Contents {
    if evs == [] then c else Applied(Replayed(c, evs[..|evs| - 1]), evs[|evs| - 1])
  }

  lemma {:induction false} ReplayedConcat(c: Contents, a: seq<BindEvent>, b: seq<BindEvent>)
    ensures Replayed(c, a + b) == Replayed(Replayed(c, a), b)
  {
    if b == [] {
      assert a + b == a;
    } else {
      assert (a + b)[..|a + b| - 1] == a + b[..|b| - 1];
      ReplayedConcat(c, a, b[..|b| - 1]);
    }
  }

  lemma {:induction false} ReplayedKeys(c: Contents, evs: seq<BindEvent>)
    ensures Replayed(c, evs).Keys == c.Keys
  {
    if evs != [] {
      ReplayedKeys(c, evs[..|evs| - 1]);
    }
  }

  ghost predicate NormalContents(c: Contents) {
    forall name :: name in c ==> AllNormal(c[name])
  }

  lemma AcceptedNormal(ev: BindEvent, sources: set<string>)
    ensures var v := Judge(ev, sources); v.Accepted? && v.op.PutOp? ==> NormalBind(v.op.b)
  {
    CanonicalIdempotent(ev.record.mac);
    CanonicalIdempotent(ev.record.deviceMac);
    EmptyNormal();
  }

  // ------------------------------------------------------ what an event means for a source

  /** Why an event is refused, if it is. */
  ghost predicate ErrorFits(ev: BindEvent, known: bool, error: Option<EventError>) {
    var puts := ev.action == "add" || ev.action == "update";
    match error
    case None =>
      known && ev.record.id != ""
      && (ev.action == "delete" || (puts && HasHexDigit(ev.record.mac) && ReadableIP(ev.record.ip)))
    case Some(UnknownSource) => !known
    case Some(NoID) => known && ev.record.id == ""
    case Some(UnknownAction) => known && ev.record.id != "" && ev.action != "delete" && !puts
    case Some(NoMac) => known && ev.record.id != "" && puts && !HasHexDigit(ev.record.mac)
    case Some(BadIP) =>
      known && ev.record.id != "" && puts && HasHexDigit(ev.record.mac) && !ReadableIP(ev.record.ip)
  }

  /** The bind that a record describes; its port counts only with a device. */
  ghost predicate Describes(record: EventObject, b: Bind) {
    && b.id == record.id && b.clientMac == Canonical(record.mac) && b.deviceMac == Canonical(record.deviceMac)
    && b.ip.Some? && IsAddress(b.ip.value, record.ip)
    && b.port == if HasHexDigit(record.deviceMac) then Atoi(record.port).value else 0
  }

  /** An "add" or "update" leaves one bind of the id, at the end, a "delete" none; the binds of all
      other ids stay as they were, in their order. */
  ghost predicate Followed(live: seq<Bind>, ev: BindEvent, after: seq<Bind>) {
    if ev.action == "delete" then OthersOf(after, live, ev.record.id)
    else
      && (ev.action == "add" || ev.action == "update")
      && after != [] && OthersOf(after[..|after| - 1], live, ev.record.id)
      && Describes(ev.record, after[|after| - 1])
  }

  /** What an event makes of the binds of all sources: nothing where it is refused, and otherwise a
      change of its own source. */
  ghost predicate EventDone(c: Contents, ev: BindEvent, after: Contents, error: Option<EventError>) {
    && ErrorFits(ev, ev.dbType in c, error) && after.Keys == c.Keys
    && (forall name :: name in c && (error.Some? || name != ev.dbType) ==> after[name] == c[name])
    && (error == None ==> ev.dbType in c && Followed(c[ev.dbType], ev, after[ev.dbType]))
  }

  function ErrorOf(v: Verdict): Option<EventError> {
    match v
    case Rejected(e) => Some(e)
    case Accepted(_) => None
  }

  /** What the verdict has to do with the event. */
  ghost predicate VerdictFits(ev: BindEvent, known: bool, v: Verdict) {
    && ErrorFits(ev, known, ErrorOf(v))
    && match v
       case Rejected(_) => true
       case Accepted(RemoveOp(id)) => ev.action == "delete" && id == ev.record.id
       case Accepted(PutOp(b)) => (ev.action == "add" || ev.action == "update") && Describes(ev.record, b)
  }

  lemma JudgeFits(ev: BindEvent, sources: set<string>)
    ensures VerdictFits(ev, ev.dbType in sources, Judge(ev, sources))
  {
    CanonicalEmptyIff(ev.record.mac);
    CanonicalEmptyIff(ev.record.deviceMac);
    IPIff(ev.record.ip);
  }

  lemma StepFollows(live: seq<Bind>, ev: BindEvent, op: Op)
    requires VerdictFits(ev, true, Accepted(op))
    ensures Followed(live, ev, Step(live, op))
  {
    RemovedIsOthers(live, ev.record.id);
    if op.PutOp? {
      assert Step(live, op)[..|Removed(live, op.b.id)|] == Removed(live, op.b.id);
    }
  }

  /** Every event does to the sources what its action, its record and the source it names call for. */
  lemma EventIsDone(c: Contents, ev: BindEvent)
    ensures EventDone(c, ev, Applied(c, ev), ErrorOf(Judge(ev, c.Keys)))
  {
    JudgeFits(ev, c.Keys);
    match Judge(ev, c.Keys) {
      case Rejected(_) =>
      case Accepted(op) => StepFollows(c[ev.dbType], ev, op);
    }
  }

  // --------------------------------------------------- a load against a series of adds

  /** The "add" event for the record on a line. */
  function AddEvent(db: string, line: string): BindEvent {
    var fields := Fields(line);
    var full := |fields| >= 5;
    BindEvent(db, "add", EventObject(
      if |fields| >= 1 then TrimSpace(fields[0]) else "",
      if |fields| >= 2 then fields[1] else "",
      if |fields| >= 3 then fields[2] else "",
      if full then fields[3] else "",
      if full then TrimSpace(fields[4]) else ""))
  }

  /** The record has a readable address, and no port without a device. */
  predicate Publishable(line: string) {
    var b := ParseBind(line);
    b.Some? ==> b.value.ip.Some? && (b.value.deviceMac == "" ==> b.value.port == 0)
  }

  /** A line is skipped only where its event is rejected; a line that is stored has an
      event with the same effect exactly when its record is publishable. */
  lemma LineAgreesWithEvent(db: string, line: string)
    ensures ParseBind(line) == None ==> Judge(AddEvent(db, line), {db}).Rejected?
    ensures forall b :: ParseBind(line) == Some(b) ==>
              (Judge(AddEvent(db, line), {db}) == Accepted(PutOp(b)) <==> Publishable(line))
  {
    EmptyNormal();
  }

  function AddEvents(db: string, lines: seq<string>): seq<BindEvent> {
    seq(|lines|, i requires 0 <= i < |lines| => AddEvent(db, lines[i]))
  }

  lemma ReplayedSnoc(c: Contents, events: seq<BindEvent>, ev: BindEvent)
    ensures Replayed(c, events + [ev]) == Applied(Replayed(c, events), ev)
  {
    assert (events + [ev])[..|events|] == events;
  }

  lemma OneAdd(db: string, live: seq<Bind>, line: string)
    requires Publishable(line)
    ensures Applied(map[db := live], AddEvent(db, line))
         == map[db := match ParseBind(line) case None => live case Some(b) => Step(live, PutOp(b))]
  {
    LineAgreesWithEvent(db, line);
    assert (map[db := live]).Keys == {db};
  }

  ghost predicate AllPublishable(lines: seq<string>) {
    forall line :: line in lines ==> Publishable(line)
  }

  lemma PublishableLast(lines: seq<string>)
    requires lines != [] && AllPublishable(lines)
    ensures AllPublishable(lines[..|lines| - 1]) && Publishable(lines[|lines| - 1])
  {
  }

  /** What the last line adds, as an event and as a line. */
  lemma LastLine(c: Contents, db: string, lines: seq<string>)
    requires lines != [] && Publishable(lines[|lines| - 1])
    ensures var front, line := lines[..|lines| - 1], lines[|lines| - 1];
      && Replayed(c, AddEvents(db, lines)) == Applied(Replayed(c, AddEvents(db, front)), AddEvent(db, line))
      && Applied(map[db := Loaded(front)], AddEvent(db, line)) == map[db := Loaded(lines)]
  {
    var front, line := lines[..|lines| - 1], lines[|lines| - 1];
    assert lines == front + [line];
    assert AddEvents(db, lines) == AddEvents(db, front) + [AddEvent(db, line)];
    ReplayedSnoc(c, AddEvents(db, front), AddEvent(db, line));
    OneAdd(db, Loaded(front), line);
    LoadedSnoc(front, line);
  }

  /** Loading records is the same as publishing them as "add" events to an empty source. */
  lemma {:induction false} LoadIsReplayOfAdds(db: string, lines: seq<string>)
    requires AllPublishable(lines)
    ensures Replayed(map[db := []], AddEvents(db, lines)) == map[db := Loaded(lines)]
  {
    if lines == [] {
      assert AddEvents(db, lines) == [];
    } else {
      PublishableLast(lines);
      LoadIsReplayOfAdds(db, lines[..|lines| - 1]);
      LastLine(map[db := []], db, lines);
    }
  }

  // -------------------------------------------------------------------------- lookups

  /** The port text of a query as FindBinds compares it. */
  function PortText(port: string): string {
    var trimmed := TrimSpace(port);
    if Atoi(trimmed).ok then Itoa(Atoi(trimmed).value) else trimmed
  }

  /** Whether FindBinds should return b: the client MAC, if given, is its own; a device
      MAC, if given, too; and a port given with a device MAC is the number of its port,
      which is then not zero. */
  predicate Wanted(mac: string, deviceMac: string, port: string, b: Bind) {
    && (mac != "" ==> b.clientMac == mac)
    && (deviceMac != "" ==> b.deviceMac == deviceMac)
    && (deviceMac != "" && TrimSpace(port) != "" ==>
          b.port != 0 && Atoi(TrimSpace(port)) == ParsedInt(b.port, true))
  }

  function WantedBy(mac: string, deviceMac: string, port: string): Bind -> bool {
    (b: Bind) => Wanted(mac, deviceMac, port, b)
  }

  /** The linear scan that FindBinds stands for; a query without a client MAC needs
      a device MAC and a port. */
  function Scan(live: seq<Bind>, mac: string, deviceMac: string, port: string): seq<Bind> {
    var m, d := Canonical(mac), Canonical(deviceMac);
    if m == "" && (d == "" || TrimSpace(port) == "") then []
    else Filter(live, WantedBy(m, d, port))
  }

  /** The bind answers the query: a MAC counts if it has a hex digit, and a port if there is a device. */
  predicate Answers(b: Bind, mac: string, deviceMac: string, port: string) {
    && (HasHexDigit(mac) || (HasHexDigit(deviceMac) && TrimSpace(port) != ""))
    && (HasHexDigit(mac) ==> b.clientMac == Canonical(mac))
    && (HasHexDigit(deviceMac) ==>
          && b.deviceMac == Canonical(deviceMac)
          && (TrimSpace(port) != "" ==> b.port != 0 && Atoi(TrimSpace(port)) == ParsedInt(b.port, true)))
  }

  function AnswersAt(live: seq<Bind>, mac: string, deviceMac: string, port: string): nat -> bool {
    (i: nat) => i < |live| && Answers(live[i], mac, deviceMac, port)
  }

  /** `found` are exactly the binds that answer the query, in their order. */
  ghost predicate FoundBy(found: seq<Bind>, live: seq<Bind>, mac: string, deviceMac: string, port: string) {
    exists at {:trigger Positions(at, |live|, AnswersAt(live, mac, deviceMac, port))} ::
      && Positions(at, |live|, AnswersAt(live, mac, deviceMac, port))
      && Picked(found, live, at)
  }

  lemma ScanFinds(live: seq<Bind>, mac: string, deviceMac: string, port: string)
    ensures FoundBy(Scan(live, mac, deviceMac, port), live, mac, deviceMac, port)
  {
    var m, d := Canonical(mac), Canonical(deviceMac);
    CanonicalEmptyIff(mac);
    CanonicalEmptyIff(deviceMac);
    if m == "" && (d == "" || TrimSpace(port) == "") {
      assert Positions([], |live|, AnswersAt(live, mac, deviceMac, port));
    } else {
      var at := FilterPositions(live, WantedBy(m, d, port));
      forall i: nat ensures Where(live, WantedBy(m, d, port))(i) == AnswersAt(live, mac, deviceMac, port)(i) {}
      assert Positions(at, |live|, AnswersAt(live, mac, deviceMac, port));
    }
  }

  /** The index and key that FindBinds looks up. */
  function LookupKey(mac: string, deviceMac: string, port: string): Option<(Kind, string)> {
    var m, d, p := Canonical(mac), Canonical(deviceMac), PortText(port);
    if m != "" && d != "" && p != "" then Some((ByMacDevicePort, m + "|" + d + "|" + p))
    else if m != "" && d != "" then Some((ByMacDevice, m + "|" + d))
    else if m != "" then Some((ByMac, m))
    else if d != "" && p != "" then Some((ByDevicePort, d + "|" + p))
    else None
  }

  lemma PortTextFacts(port: string, b: Bind)
    requires NormalBind(b)
    ensures PortText(port) == "" <==> TrimSpace(port) == ""
    ensures PortText(port) == Itoa(b.port) <==> Atoi(TrimSpace(port)) == ParsedInt(b.port, true)
  {
    var p := Atoi(TrimSpace(port));
    AtoiItoa(b.port);
    NatTextDigits(if b.port < 0 then -b.port else b.port);
    if p.ok {
      NatTextDigits(if p.value < 0 then -p.value else p.value);
      if Itoa(p.value) == Itoa(b.port) {
        ItoaInjective(p.value, b.port);
      }
    }
  }

  lemma NoBar(s: string)
    ensures '|' !in Canonical(s)
  {
    if '|' in Canonical(s) {
      CanonicalAlphabet(s, '|');
    }
  }

  /** Joined keys are equal exactly when their parts are. */
  lemma PairKey(a: string, b: string, c: string, d: string)
    requires '|' !in a && '|' !in c
    ensures a + "|" + b == c + "|" + d <==> a == c && b == d
  {
    if a + "|" + b == c + "|" + d {
      JoinInjective(a, b, c, d, '|');
    }
  }

  lemma TripleKey(a: string, b: string, c: string, a': string, b': string, c': string)
    requires '|' !in a && '|' !in a' && '|' !in b && '|' !in b'
    ensures a + "|" + b + "|" + c == a' + "|" + b' + "|" + c' <==> a == a' && b == b' && c == c'
  {
    assert a + "|" + b + "|" + c == a + "|" + (b + "|" + c);
    assert a' + "|" + b' + "|" + c' == a' + "|" + (b' + "|" + c');
    PairKey(a, b + "|" + c, a', b' + "|" + c');
    PairKey(b, c, b', c');
  }

  lemma KeyIffWanted(mac: string, deviceMac: string, port: string, b: Bind)
    requires NormalBind(b) && LookupKey(mac, deviceMac, port).Some?
    ensures var (kind, key) := LookupKey(mac, deviceMac, port).value;
      KeyOf(kind, b) == Some(key) <==> Wanted(Canonical(mac), Canonical(deviceMac), port, b)
  {
    var m, d, p := Canonical(mac), Canonical(deviceMac), PortText(port);
    PortTextFacts(port, b);
    NoBar(mac);
    NoBar(deviceMac);
    NoBar(b.clientMac);
    NoBar(b.deviceMac);
    PairKey(d, p, b.deviceMac, Itoa(b.port));
    PairKey(m, d, b.clientMac, b.deviceMac);
    TripleKey(m, d, p, b.clientMac, b.deviceMac, Itoa(b.port));
  }

  /** Looking up the joined key finds what the linear scan finds. */
  lemma LookupIsScan(live: seq<Bind>, mac: string, deviceMac: string, port: string)
    requires AllNormal(live)
    ensures Scan(live, mac, deviceMac, port)
         == match LookupKey(mac, deviceMac, port)
            case None => []
            case Some((kind, key)) => With(live, Key(kind), key)
  {
    var anyone := Bind("1", None, "A", "", 1);
    assert NormalBind(anyone) by {
      HexDigitsOfHex("A");
      EmptyNormal();
    }
    PortTextFacts(port, anyone);
    match LookupKey(mac, deviceMac, port) {
      case None =>
      case Some((kind, key)) =>
        forall b | b in live
          ensures FiledUnder(Key(kind), key)(b) == WantedBy(Canonical(mac), Canonical(deviceMac), port)(b)
        {
          KeyIffWanted(mac, deviceMac, port, b);
        }
        FilterSame(live, FiledUnder(Key(kind), key), WantedBy(Canonical(mac), Canonical(deviceMac), port));
    }
  }
}
