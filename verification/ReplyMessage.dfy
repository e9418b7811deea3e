/** The Reply-Message text: its printer (script/examples/auth.lua) and its parser
    (tools/pcapreplay/replymessage.go). */
module ReplyMessage {
  import opened Prelude
  import opened Text
  import opened MacAddr
  import opened ClientDb
  import opened VendorAttributes
  import Radius
  import Stores

  /** What the authorization script knows of a request; a number that it could not read is nil. */
  datatype Report = Report(vlan: Option<int>, stack: Option<int>, port: Option<int>, macSw: string, parseType: string)

  datatype ReplyInfo = ReplyInfo(vlan: int, port: int, haveVlan: bool, havePort: bool, macSw: string, parseType: string)

  const BLANK := ReplyInfo(0, 0, false, false, "", "")

  function NumberText(n: Option<int>): string {
    match n
    case None => ""
    case Some(v) => Itoa(v)
  }

  function Field(key: string, value: string): string {
    key + "=" + value
  }

  function Print(r: Report): string {
    Field("vlan", NumberText(r.vlan)) + ";" + Field("stack", NumberText(r.stack)) + ";"
    + Field("port", NumberText(r.port)) + ";" + Field("macSw", r.macSw) + ";" + Field("parse-type", r.parseType)
  }

  /** The text up to the first '=' and the text after it, as SplitN cuts it. */
  function Cut(f: string): Option<(string, string)> {
    if f == "" then None
    else if f[0] == '=' then Some(("", f[1..]))
    else match Cut(f[1..])
      case None => None
      case Some(kv) => Some(([f[0]] + kv.0, kv.1))
  }

  lemma {:induction false} CutAt(key: string, value: string)
    requires '=' !in key
    ensures Cut(Field(key, value)) == Some((key, value))
  {
    var f := Field(key, value);
    if key == "" {
      assert f[1..] == value;
    } else {
      CutAt(key[1..], value);
      assert f[1..] == Field(key[1..], value);
      assert [key[0]] + key[1..] == key;
    }
  }

  lemma {:induction false} CutKeepsOut(f: string, c: char)
    requires c !in f && Cut(f).Some?
    ensures c !in Cut(f).value.1
  {
    if f[0] != '=' {
      CutKeepsOut(f[1..], c);
    }
  }

  /** What one field adds to what was read before. */
  function Read(r: ReplyInfo, f: string): ReplyInfo {
    match Cut(f)
    case None => r
    case Some(kv) => ReadPair(r, kv.0, kv.1)
  }

  function ReadPair(r: ReplyInfo, key: string, value: string): ReplyInfo {
    if key == "vlan" then (if Atoi(value).ok then r.(vlan := Atoi(value).value, haveVlan := true) else r)
    else if key == "port" then (if Atoi(value).ok then r.(port := Atoi(value).value, havePort := true) else r)
    else if key == "macSw" then r.(macSw := value)
    else if key == "parse-type" then r.(parseType := value)
    else r
  }

  function ReadAll(fields: seq<string>): ReplyInfo {
    if fields == [] then BLANK else Read(ReadAll(fields[..|fields| - 1]), fields[|fields| - 1])
  }

  function Parse(msg: string): Option<ReplyInfo> {
    if "vlan=" <= msg then Some(ReadAll(Split(msg, ';'))) else None
  }

  method ParseReplyMessage(msg: string) returns (r: ReplyInfo, ok: bool)
    ensures Parse(msg) == if ok then Some(r) else None
  {
    r := BLANK;
    if !("vlan=" <= msg) {
      return r, false;
    }
    var fields := Split(msg, ';');
    for i := 0 to |fields|
      invariant r == ReadAll(fields[..i])
    {
      assert fields[..i + 1][..i] == fields[..i];
      var kv := Cut(fields[i]);
      if kv.None? {
        continue;
      }
      var (key, value) := kv.value;
      match key {
        case "vlan" =>
          var v := Atoi(value);
          if v.ok { r := r.(vlan := v.value, haveVlan := true); }
        case "port" =>
          var v := Atoi(value);
          if v.ok { r := r.(port := v.value, havePort := true); }
        case "macSw" =>
          r := r.(macSw := value);
        case "parse-type" =>
          r := r.(parseType := value);
        case _ =>
      }
    }
    assert fields[..|fields|] == fields;
    return r, true;
  }

  // --------------------------------------------------------------- what is read from a text

  /** What follows this beginning in the last field that has it. */
  function LastValue(fields: seq<string>, start: string): Option<string> {
    if fields == [] then None
    else
      var last := fields[|fields| - 1];
      if start <= last then Some(last[|start|..]) else LastValue(fields[..|fields| - 1], start)
  }

  /** The same for the last one that is followed by a number. */
  function LastNumber(fields: seq<string>, start: string): Option<int> {
    if fields == [] then None
    else
      var last := fields[|fields| - 1];
      if start <= last && Atoi(last[|start|..]).ok then Some(Atoi(last[|start|..]).value)
      else LastNumber(fields[..|fields| - 1], start)
  }

  function OrElse<T>(o: Option<T>, other: T): T {
    if o.Some? then o.value else other
  }

  /** A field has a key exactly if it begins with it and a '='. */
  lemma {:induction false} CutIff(f: string, key: string)
    requires '=' !in key
    ensures key + "=" <= f <==> Cut(f).Some? && Cut(f).value.0 == key
    ensures key + "=" <= f ==> Cut(f).value.1 == f[|key| + 1..]
  {
    if key + "=" <= f {
      assert f == Field(key, f[|key| + 1..]);
      CutAt(key, f[|key| + 1..]);
    }
    if Cut(f).Some? {
      CutParts(f);
    }
  }

  lemma {:induction false} CutParts(f: string)
    requires Cut(f).Some?
    ensures f == Cut(f).value.0 + "=" + Cut(f).value.1
  {
    if f[0] != '=' {
      CutParts(f[1..]);
      assert f == [f[0]] + f[1..];
    }
  }

  /** In whatever order the fields come, the last one of each kind counts, fields of other kinds and
      numbers that do not parse are passed over, and what is not there is zero or empty. */
  lemma {:induction false} LastFieldsCount(fields: seq<string>)
    ensures var r, vlan, port := ReadAll(fields), LastNumber(fields, "vlan="), LastNumber(fields, "port=");
      && r.haveVlan == vlan.Some? && r.vlan == OrElse(vlan, 0)
      && r.havePort == port.Some? && r.port == OrElse(port, 0)
      && r.macSw == OrElse(LastValue(fields, "macSw="), "")
      && r.parseType == OrElse(LastValue(fields, "parse-type="), "")
  {
    if fields != [] {
      LastFieldsCount(fields[..|fields| - 1]);
      var last := fields[|fields| - 1];
      ReadByStart(ReadAll(fields[..|fields| - 1]), last);
      assert "port=" <= last ==> last[1] == 'o';
      assert "parse-type=" <= last ==> last[1] == 'a';
    }
  }

  /** A text is read exactly if it begins like a report. */
  lemma ParseIff(msg: string)
    ensures Parse(msg).Some? <==> "vlan=" <= msg
    ensures Parse(msg).Some? ==> var r, fields := Parse(msg).value, Split(msg, ';');
      && r == ReplyInfo(OrElse(LastNumber(fields, "vlan="), 0), OrElse(LastNumber(fields, "port="), 0),
                        LastNumber(fields, "vlan=").Some?, LastNumber(fields, "port=").Some?,
                        OrElse(LastValue(fields, "macSw="), ""), OrElse(LastValue(fields, "parse-type="), ""))
  {
    LastFieldsCount(Split(msg, ';'));
  }

  lemma ReadByStart(r: ReplyInfo, f: string)
    ensures Read(r, f) ==
      if "vlan=" <= f then (if Atoi(f[5..]).ok then r.(vlan := Atoi(f[5..]).value, haveVlan := true) else r)
      else if "port=" <= f then (if Atoi(f[5..]).ok then r.(port := Atoi(f[5..]).value, havePort := true) else r)
      else if "macSw=" <= f then r.(macSw := f[6..])
      else if "parse-type=" <= f then r.(parseType := f[11..])
      else r
  {
    CutIff(f, "vlan");
    CutIff(f, "port");
    CutIff(f, "macSw");
    CutIff(f, "parse-type");
    assert "vlan" + "=" == "vlan=" && "port" + "=" == "port=" && "macSw" + "=" == "macSw=";
    assert "parse-type" + "=" == "parse-type=";
  }

  lemma FieldBehind(before: string, start: string, key: string, value: string)
    requires start == ";" + key + "="
    ensures before + ";" + Field(key, value) == before + start + value
  {
  }

  /** The text of a report, with nothing where a number is missing. */
  lemma PrintText(r: Report)
    ensures var text := (n: Option<int>) => if n.Some? then Itoa(n.value) else "";
      Print(r) == "vlan=" + text(r.vlan) + ";stack=" + text(r.stack) + ";port=" + text(r.port)
                  + ";macSw=" + r.macSw + ";parse-type=" + r.parseType
  {
    var vlan, stack, port := NumberText(r.vlan), NumberText(r.stack), NumberText(r.port);
    var one := "vlan=" + vlan;
    var two := one + ";stack=" + stack;
    var three := two + ";port=" + port;
    var four := three + ";macSw=" + r.macSw;
    assert Field("vlan", vlan) == one;
    FieldBehind(one, ";stack=", "stack", stack);
    FieldBehind(two, ";port=", "port", port);
    FieldBehind(three, ";macSw=", "macSw", r.macSw);
    FieldBehind(four, ";parse-type=", "parse-type", r.parseType);
    assert Print(r) == one + ";" + Field("stack", stack) + ";" + Field("port", port)
                       + ";" + Field("macSw", r.macSw) + ";" + Field("parse-type", r.parseType);
  }

  // ----------------------------------------------------------------------- round trip

  /** The parser's view of a report: all of it but the stack number. */
  function InfoOf(r: Report): ReplyInfo {
    ReplyInfo(if r.vlan.Some? then r.vlan.value else 0, if r.port.Some? then r.port.value else 0,
              r.vlan.Some?, r.port.Some?, r.macSw, r.parseType)
  }

  predicate Fits(n: Option<int>) {
    n.Some? ==> MIN_INT <= n.value <= MAX_INT
  }

  lemma NumberKeepsOut(n: Option<int>, c: char)
    requires !IsDigit(c) && c != '-'
    ensures c !in NumberText(n)
  {
    if n.Some? && c in Itoa(n.value) {
      ItoaAlphabet(n.value, c);
    }
  }

  function FieldsOf(r: Report): seq<string> {
    [Field("vlan", NumberText(r.vlan)), Field("stack", NumberText(r.stack)), Field("port", NumberText(r.port)),
     Field("macSw", r.macSw), Field("parse-type", r.parseType)]
  }

  predicate NoSemicolon(r: Report) {
    ';' !in r.macSw && ';' !in r.parseType
  }

  lemma JoinFive(a: string, b: string, c: string, d: string, e: string)
    ensures a + ";" + b + ";" + c + ";" + d + ";" + e == Join([a, b, c, d, e], ';')
  {
    assert Join([d, e], ';') == d + ";" + e;
    assert Join([c, d, e], ';') == c + ";" + (d + ";" + e);
    assert Join([b, c, d, e], ';') == b + ";" + (c + ";" + (d + ";" + e));
  }

  lemma PrintIsJoin(r: Report)
    ensures Print(r) == Join(FieldsOf(r), ';') && "vlan=" <= Print(r)
  {
    var f := FieldsOf(r);
    JoinFive(f[0], f[1], f[2], f[3], f[4]);
    assert "vlan=" <= f[0];
  }

  lemma PrintSplits(r: Report)
    requires NoSemicolon(r)
    ensures Split(Print(r), ';') == FieldsOf(r)
  {
    PrintIsJoin(r);
    NumberKeepsOut(r.vlan, ';');
    NumberKeepsOut(r.stack, ';');
    NumberKeepsOut(r.port, ';');
    SplitJoin(FieldsOf(r), ';');
  }

  lemma NumberReads(n: Option<int>)
    requires Fits(n)
    ensures Atoi(NumberText(n)).ok == n.Some?
    ensures n.Some? ==> Atoi(NumberText(n)).value == n.value
  {
    if n.Some? {
      AtoiItoa(n.value);
    }
  }

  lemma ReadNext(fields: seq<string>, f: string)
    ensures ReadAll(fields + [f]) == Read(ReadAll(fields), f)
  {
    assert (fields + [f])[..|fields|] == fields;
  }

  lemma ReadFive(a: string, b: string, c: string, d: string, e: string)
    ensures ReadAll([a, b, c, d, e]) == Read(Read(Read(Read(Read(BLANK, a), b), c), d), e)
  {
    ReadNext([], a);
    ReadNext([a], b);
    ReadNext([a, b], c);
    ReadNext([a, b, c], d);
    ReadNext([a, b, c, d], e);
    assert [] + [a] == [a] && [a] + [b] == [a, b] && [a, b] + [c] == [a, b, c];
    assert [a, b, c] + [d] == [a, b, c, d] && [a, b, c, d] + [e] == [a, b, c, d, e];
  }

  lemma ReadKey(r: ReplyInfo, key: string, value: string)
    requires '=' !in key
    ensures Read(r, Field(key, value)) == ReadPair(r, key, value)
  {
    CutAt(key, value);
  }

  lemma ReadReport(r: Report)
    requires Fits(r.vlan) && Fits(r.port)
    ensures ReadAll(FieldsOf(r)) == InfoOf(r)
  {
    var f := FieldsOf(r);
    var vlan, stack, port := NumberText(r.vlan), NumberText(r.stack), NumberText(r.port);
    var r1 := ReadPair(BLANK, "vlan", vlan);
    var r3 := ReadPair(r1, "port", port);
    ReadFive(f[0], f[1], f[2], f[3], f[4]);
    ReadKey(BLANK, "vlan", vlan);
    ReadKey(r1, "stack", stack);
    ReadKey(r1, "port", port);
    ReadKey(r3, "macSw", r.macSw);
    ReadKey(ReadPair(r3, "macSw", r.macSw), "parse-type", r.parseType);
    NumberReads(r.vlan);
    NumberReads(r.port);
  }

  lemma RoundTrip(r: Report)
    requires NoSemicolon(r) && Fits(r.vlan) && Fits(r.port)
    ensures Parse(Print(r)) == Some(InfoOf(r))
  {
    PrintIsJoin(r);
    PrintSplits(r);
    ReadReport(r);
  }

  /** Whatever was read came out of one field each, and numbers fit the machine. */
  predicate Readable(r: ReplyInfo) {
    && ';' !in r.macSw && ';' !in r.parseType
    && MIN_INT <= r.vlan <= MAX_INT && MIN_INT <= r.port <= MAX_INT
  }

  lemma ReadStaysReadable(r: ReplyInfo, f: string)
    requires Readable(r) && ';' !in f
    ensures Readable(Read(r, f))
  {
    if Cut(f).Some? {
      CutKeepsOut(f, ';');
    }
  }

  lemma {:induction false} ReadAllReadable(fields: seq<string>)
    requires forall i :: 0 <= i < |fields| ==> ';' !in fields[i]
    ensures Readable(ReadAll(fields))
  {
    if fields != [] {
      ReadAllReadable(fields[..|fields| - 1]);
      ReadStaysReadable(ReadAll(fields[..|fields| - 1]), fields[|fields| - 1]);
    }
  }

  /** The parser undoes the printer exactly for the reports whose texts hold no ';' and whose
      numbers fit the machine. */
  lemma RoundTripIff(r: Report)
    ensures Parse(Print(r)) == Some(InfoOf(r)) <==> NoSemicolon(r) && Fits(r.vlan) && Fits(r.port)
  {
    if NoSemicolon(r) && Fits(r.vlan) && Fits(r.port) {
      RoundTrip(r);
    }
    PrintIsJoin(r);
    var fields := Split(Print(r), ';');
    forall i | 0 <= i < |fields| ensures ';' !in fields[i] {
      SplitFields(Print(r), ';', i);
    }
    ReadAllReadable(fields);
  }

  // --------------------------------------------------- where the texts of a report come from

  lemma LoadedParseTypes(lines: seq<string>, mac: string)
    requires mac in Stores.DevicesOf(lines)
    ensures ';' !in Stores.DevicesOf(lines)[mac].parseType
  {
    var k := Stores.LastDeviceWins(lines, mac);
    SplitFields(TrimSpace(lines[k]), ';', 2);
    TrimKeepsOut(Fields(lines[k])[2], ';');
  }

  /** The report is about a loaded device, which the request named by its remote id. */
  ghost predicate Served(r: Report, remoteID: seq<byte>, lines: seq<string>) {
    && r.macSw == FromRemoteID(remoteID) && r.macSw in Stores.DevicesOf(lines)
    && r.parseType == Stores.DevicesOf(lines)[r.macSw].parseType
  }

  lemma ServedTexts(r: Report, remoteID: seq<byte>, lines: seq<string>)
    requires Served(r, remoteID, lines)
    ensures NoSemicolon(r)
  {
    RemoteIDNormal(remoteID);
    if ';' in r.macSw {
      CanonicalAlphabet(r.macSw, ';');
    }
    LoadedParseTypes(lines, r.macSw);
  }

  /** The text of such a report parses back exactly where its numbers fit the machine, whatever
      the request and the device file were. */
  lemma ServedReportsRoundTrip(r: Report, remoteID: seq<byte>, lines: seq<string>)
    requires Served(r, remoteID, lines)
    ensures Parse(Print(r)) == Some(InfoOf(r)) <==> Fits(r.vlan) && Fits(r.port)
  {
    ServedTexts(r, remoteID, lines);
    RoundTripIff(r);
  }

  // ------------------------------------------------------------ on the way in a packet

  const ATTRIBUTE := "Reply-Message"

  /** What the tool reads off a packet; a packet without the attribute reads as an empty text. */
  function Received(attributes: Radius.Attributes, decode: seq<byte> -> string): Option<ReplyInfo> {
    var values := Radius.Values(attributes, 18);
    Parse(if values == [] then "" else decode(values[0]))
  }

  /** The report comes back from the packet exactly where its text would and is short enough for
      an attribute; a longer text is dropped on the way. */
  method Deliver(p: Packet, names: map<string, AttrInfo>, r: Report, encode: string -> seq<byte>,
                 decode: seq<byte> -> string) returns (back: Option<ReplyInfo>)
    requires "Reply-Message" in names && names["Reply-Message"] == AttrInfo(0, 18)
    requires Radius.Values(p.attributes, 18) == []
    requires decode(encode(Print(r))) == Print(r)
    modifies p
    ensures back == Received(p.attributes, decode)
    ensures back == Some(InfoOf(r))
       <==> NoSemicolon(r) && Fits(r.vlan) && Fits(r.port) && |encode(Print(r))| <= 253
  {
    var _ := p.SetExtraAttribute(names, ATTRIBUTE, encode(Print(r)));
    RoundTripIff(r);
    back := Received(p.attributes, decode);
  }

  /** So a report about a loaded device comes back exactly where its text has at most 253 bytes and
      its numbers fit. */
  method DeliverServed(p: Packet, names: map<string, AttrInfo>, r: Report, encode: string -> seq<byte>,
                       decode: seq<byte> -> string, ghost remoteID: seq<byte>, ghost lines: seq<string>)
    returns (back: Option<ReplyInfo>)
    requires "Reply-Message" in names && names["Reply-Message"] == AttrInfo(0, 18)
    requires Radius.Values(p.attributes, 18) == []
    requires decode(encode(Print(r))) == Print(r) && Served(r, remoteID, lines)
    modifies p
    ensures back == Some(InfoOf(r)) <==> Fits(r.vlan) && Fits(r.port) && |encode(Print(r))| <= 253
  {
    ServedTexts(r, remoteID, lines);
    back := Deliver(p, names, r, encode, decode);
  }
}
