/** RADIUS packets on the wire (third_party/layeh-radius/attributes.go and packet.go). */
module Radius {
  import opened Prelude

  type Attribute = seq<byte>
  type Attributes = map<byte, seq<Attribute>>

  const ACCESS_REQUEST: byte := 1
  const ACCESS_ACCEPT: byte := 2
  const ACCESS_REJECT: byte := 3

  function Values(attrs: Attributes, typ: byte): seq<Attribute> {
    if typ in attrs then attrs[typ] else []
  }

  /** Attributes.Add */
  function Added(attrs: Attributes, typ: byte, value: Attribute): Attributes {
    attrs[typ := Values(attrs, typ) + [value]]
  }

  /** ParseAttributes, after the attributes already read. */
  function ParseAttributes(b: seq<byte>, attrs: Attributes): Option<Attributes>
    decreases |b|
  {
    if b == [] then Some(attrs)
    else if |b| < 2 then None
    else
      var length := b[1];
      if length > |b| || length < 2 then None
      else ParseAttributes(b[length..], Added(attrs, b[0], b[2..length]))
  }

  const HEADER := 20
  const MAX_PACKET := 4095

  datatype Packet = Packet(code: byte, id: byte, authenticator: seq<byte>, attributes: Attributes)

  function Parse(b: seq<byte>): Option<Packet> {
    if |b| < HEADER then None
    else
      var length := U16(b[2], b[3]);
      if length < HEADER || length > MAX_PACKET || |b| != length then None
      else match ParseAttributes(b[HEADER..], map[])
        case None => None
        case Some(attrs) => Some(Packet(b[0], b[1], b[4..HEADER], attrs))
  }

  // -------------------------------------------------------------- what was on the wire

  /** A type, a length and a value, as attributes and the parts of vendor attributes are written. */
  datatype Tlv = Tlv(typ: byte, value: seq<byte>)
  {
    predicate Fits() {
      |value| <= 253
    }

    function Wire(): seq<byte>
      requires Fits()
    {
      [typ, |value| + 2] + value
    }
  }

  type WireTlv = t: Tlv | t.Fits() witness Tlv(0, [])

  function WireOf(records: seq<WireTlv>): seq<byte> {
    if records == [] then [] else records[0].Wire() + WireOf(records[1..])
  }

  /** The values of one type among these records. */
  function OfType(records: seq<Tlv>, typ: byte): seq<seq<byte>> {
    if records == [] then []
    else (if records[0].typ == typ then [records[0].value] else []) + OfType(records[1..], typ)
  }

  function HasType(records: seq<Tlv>, typ: byte): nat -> bool {
    (i: nat) => i < |records| && records[i].typ == typ
  }

  function AllValues(records: seq<Tlv>): seq<seq<byte>> {
    seq(|records|, i requires 0 <= i < |records| => records[i].value)
  }

  lemma AllValuesSnoc(front: seq<Tlv>, last: Tlv)
    ensures AllValues(front + [last]) == AllValues(front) + [last.value]
  {
  }

  /** They are the values at exactly the positions of that type, in order. */
  lemma {:induction false} OfTypePositions(records: seq<Tlv>, typ: byte) returns (at: seq<nat>)
    ensures Positions(at, |records|, HasType(records, typ))
    ensures Picked(OfType(records, typ), AllValues(records), at)
  {
    if records == [] {
      at := [];
    } else {
      var front, last := records[..|records| - 1], records[|records| - 1];
      assert records == front + [last];
      var before := OfTypePositions(front, typ);
      at := PositionsOfMore(front, last, typ, before);
    }
  }

  lemma PositionsOfMore(front: seq<Tlv>, last: Tlv, typ: byte, before: seq<nat>) returns (at: seq<nat>)
    requires Positions(before, |front|, HasType(front, typ))
    requires Picked(OfType(front, typ), AllValues(front), before)
    ensures Positions(at, |front| + 1, HasType(front + [last], typ))
    ensures Picked(OfType(front + [last], typ), AllValues(front + [last]), at)
  {
    var take := last.typ == typ;
    at := if take then before + [|front|] else before;
    PositionsNext(before, |front|, HasType(front, typ), HasType(front + [last], typ));
    assert HasType(front + [last], typ)(|front|) == take;
    AllValuesSnoc(front, last);
    OfTypeSnoc(front, last, typ);
    PickedNext(OfType(front, typ), AllValues(front), before, last.value, take);
  }

  lemma {:induction false} OfTypeSnoc(front: seq<Tlv>, last: Tlv, typ: byte)
    ensures OfType(front + [last], typ) == if last.typ == typ then OfType(front, typ) + [last.value] else OfType(front, typ)
  {
    var all := front + [last];
    if front != [] {
      assert all[0] == front[0] && all[1..] == front[1..] + [last];
      OfTypeSnoc(front[1..], last, typ);
    }
  }

  lemma WireFront(first: WireTlv, rest: seq<byte>, attrs: Attributes)
    ensures ParseAttributes(first.Wire() + rest, attrs) == ParseAttributes(rest, Added(attrs, first.typ, first.value))
  {
    var b, n := first.Wire() + rest, |first.value| + 2;
    assert b[2..n] == first.value && b[n..] == rest;
  }

  /** Written attributes are read back, each type in the order of its values. */
  lemma {:induction false} AttributesRead(records: seq<WireTlv>, attrs: Attributes)
    ensures ParseAttributes(WireOf(records), attrs).Some?
    ensures forall t: byte ::
      Values(ParseAttributes(WireOf(records), attrs).value, t) == Values(attrs, t) + OfType(records, t)
  {
    if records != [] {
      var first := records[0];
      WireFront(first, WireOf(records[1..]), attrs);
      AttributesRead(records[1..], Added(attrs, first.typ, first.value));
    }
  }

  /** And nothing but written attributes is. */
  lemma {:induction false} AttributesWritten(b: seq<byte>, attrs: Attributes) returns (records: seq<WireTlv>)
    requires ParseAttributes(b, attrs).Some?
    ensures WireOf(records) == b
    decreases |b|
  {
    records := [];
    if b != [] {
      var n := b[1];
      var first := Tlv(b[0], b[2..n]);
      assert first.Wire() + b[n..] == b;
      var rest := AttributesWritten(b[n..], Added(attrs, b[0], b[2..n]));
      records := [first] + rest;
      assert records[1..] == rest;
    }
  }

  /** A packet is read exactly if its length is what it says, from 20 to 4095 bytes, and its attributes
      fill it; code and identifier are its first two bytes. */
  lemma ParseIff(b: seq<byte>)
    ensures Parse(b).Some? <==>
      && 20 <= |b| <= 4095 && |b| == b[2] as int * 256 + b[3] as int
      && exists records: seq<WireTlv> :: WireOf(records) == b[20..]
    ensures Parse(b).Some? ==>
      Parse(b).value.code == b[0] && Parse(b).value.id == b[1] && Parse(b).value.authenticator == b[4..20]
  {
    if |b| >= 20 {
      if ParseAttributes(b[20..], map[]).Some? {
        var records := AttributesWritten(b[20..], map[]);
      }
      if records: seq<WireTlv> :| WireOf(records) == b[20..] {
        AttributesRead(records, map[]);
      }
    }
  }

  lemma ParsedValues(b: seq<byte>, records: seq<WireTlv>, typ: byte)
    requires Parse(b).Some? && WireOf(records) == b[20..]
    ensures Values(Parse(b).value.attributes, typ) == OfType(records, typ)
  {
    AttributesRead(records, map[]);
    assert Values(map[], typ) + OfType(records, typ) == OfType(records, typ);
  }
}
