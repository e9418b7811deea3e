/** Vendor-specific attributes (section 5.26 of RFC 2865): radius/redback/generated.go,
    radius/dump.go, radius/extraattr.go, over third_party/layeh-radius/attribute.go. */
module VendorAttributes {
  import opened Prelude
  import opened Radius

  const VENDOR_SPECIFIC: byte := 26
  const REDBACK: nat := 2352
  const MIKROTIK: nat := 14988
  const MAX_TEXT := 253

  type Vendor = v: nat | v < 0x1_0000_0000

  datatype Payload = Payload(vendor: Vendor, vsa: seq<byte>)

  function VendorSpecific(a: Attribute): Option<Payload> {
    if |a| < 5 then None else Some(Payload(FromBigEndian(a), a[4..]))
  }

  function NewVendorSpecific(vendor: Vendor, value: seq<byte>): Option<Attribute> {
    if |value| > 249 then None else Some(BigEndian(vendor) + value)
  }

  lemma VendorRoundTrip(vendor: Vendor, value: seq<byte>)
    requires 1 <= |value| <= 249
    ensures VendorSpecific(NewVendorSpecific(vendor, value).value) == Some(Payload(vendor, value))
  {
    BigEndianRead(vendor, value);
    assert (BigEndian(vendor) + value)[4..] == value;
  }

  // ------------------------------------------------------------------------- the walk

  type WireSub = t: Tlv | t.Fits() && t.value != [] witness Tlv(0, [0])

  datatype Walked = Walked(records: seq<WireSub>, tail: seq<byte>)

  /** No further record can be taken off the front. */
  predicate Stuck(vsa: seq<byte>) {
    |vsa| < 3 || vsa[1] < 3 || vsa[1] > |vsa|
  }

  function Walk(vsa: seq<byte>): Walked
    decreases |vsa|
  {
    if Stuck(vsa) then Walked([], vsa)
    else
      var rest := Walk(vsa[vsa[1]..]);
      Walked([Tlv(vsa[0], vsa[2..vsa[1]])] + rest.records, rest.tail)
  }

  lemma FrontRecord(vsa: seq<byte>)
    requires !Stuck(vsa)
    ensures Tlv(vsa[0], vsa[2..vsa[1]]).Wire() + vsa[vsa[1]..] == vsa
  {
  }

  lemma WireOfCons(first: WireSub, rest: seq<WireSub>, tail: seq<byte>)
    ensures WireOf([first] + rest) + tail == first.Wire() + (WireOf(rest) + tail)
  {
    assert ([first] + rest)[1..] == rest;
  }

  lemma WalkCons(first: WireSub, rest: seq<byte>)
    ensures Walk(first.Wire() + rest) == Walked([first] + Walk(rest).records, Walk(rest).tail)
  {
    var whole, n := first.Wire() + rest, |first.value| + 2;
    assert whole[0] == first.typ && whole[1] == n && |whole| >= n;
    assert whole[2..n] == first.value && whole[n..] == rest;
  }

  /** The walk takes a payload apart into records and a tail without losing a byte, ... */
  lemma {:induction false} WalkSplits(vsa: seq<byte>)
    ensures WireOf(Walk(vsa).records) + Walk(vsa).tail == vsa && Stuck(Walk(vsa).tail)
    decreases |vsa|
  {
    if !Stuck(vsa) {
      var first, rest := Tlv(vsa[0], vsa[2..vsa[1]]), Walk(vsa[vsa[1]..]);
      WalkSplits(vsa[vsa[1]..]);
      FrontRecord(vsa);
      WireOfCons(first, rest.records, rest.tail);
    }
  }

  /** ... and it is the only way to take it apart. */
  lemma {:induction false} WalkUnique(records: seq<WireSub>, tail: seq<byte>)
    requires Stuck(tail)
    ensures Walk(WireOf(records) + tail) == Walked(records, tail)
    decreases |records|
  {
    if records == [] {
      assert WireOf(records) + tail == tail;
    } else {
      WalkUnique(records[1..], tail);
      assert [records[0]] + records[1..] == records;
      WireOfCons(records[0], records[1..], tail);
      WalkCons(records[0], WireOf(records[1..]) + tail);
    }
  }

  /** No record can be taken off a text exactly where it begins with none. */
  lemma StuckIff(vsa: seq<byte>)
    ensures Stuck(vsa) <==> !exists first: WireSub :: first.Wire() <= vsa
  {
    if !Stuck(vsa) {
      FrontRecord(vsa);
      var first: WireSub := Tlv(vsa[0], vsa[2..vsa[1]]);
      assert first.Wire() <= vsa;
    }
    if first: WireSub :| first.Wire() <= vsa {
      assert vsa[1] == first.Wire()[1];
    }
  }

  lemma OfTypeFront(vsa: seq<byte>, typ: byte)
    requires !Stuck(vsa)
    ensures OfType(Walk(vsa).records, typ)
         == (if vsa[0] == typ then [vsa[2..vsa[1]]] else []) + OfType(Walk(vsa[vsa[1]..]).records, typ)
  {
    assert Walk(vsa).records[1..] == Walk(vsa[vsa[1]..]).records;
  }

  lemma TakeFront(values: seq<Attribute>, vsa: seq<byte>, typ: byte)
    requires !Stuck(vsa)
    ensures values + OfType(Walk(vsa).records, typ)
         == (if vsa[0] == typ then values + [vsa[2..vsa[1]]] else values) + OfType(Walk(vsa[vsa[1]..]).records, typ)
  {
    OfTypeFront(vsa, typ);
  }

  /** What one attribute holds for this vendor and type. */
  function Held(a: Attribute, vendor: Vendor, typ: byte): seq<Attribute> {
    match VendorSpecific(a)
    case None => []
    case Some(p) => if p.vendor != vendor then [] else OfType(Walk(p.vsa).records, typ)
  }

  /** What all vendor attributes of a packet hold for this vendor and type, in their order. */
  function AllHeld(attrs: seq<Attribute>, vendor: Vendor, typ: byte): seq<Attribute> {
    if attrs == [] then [] else AllHeld(attrs[..|attrs| - 1], vendor, typ) + Held(attrs[|attrs| - 1], vendor, typ)
  }

  function VendorValues(attributes: Attributes, vendor: Vendor, typ: byte): seq<Attribute> {
    AllHeld(Values(attributes, 26), vendor, typ)
  }

  lemma HeldAfterAdd(attrs: seq<Attribute>, a: Attribute, vendor: Vendor, typ: byte)
    ensures AllHeld(attrs + [a], vendor, typ) == AllHeld(attrs, vendor, typ) + Held(a, vendor, typ)
  {
    assert (attrs + [a])[..|attrs|] == attrs;
  }

  lemma HeldNext(attrs: seq<Attribute>, i: nat, vendor: Vendor, typ: byte)
    requires i < |attrs|
    ensures AllHeld(attrs[..i + 1], vendor, typ) == AllHeld(attrs[..i], vendor, typ) + Held(attrs[i], vendor, typ)
  {
    assert attrs[..i + 1] == attrs[..i] + [attrs[i]];
    HeldAfterAdd(attrs[..i], attrs[i], vendor, typ);
  }

  lemma {:induction false} HeldPrefix(attrs: seq<Attribute>, i: nat, vendor: Vendor, typ: byte)
    requires i <= |attrs|
    ensures AllHeld(attrs[..i], vendor, typ) <= AllHeld(attrs, vendor, typ)
    decreases |attrs| - i
  {
    if i == |attrs| {
      assert attrs[..i] == attrs;
    } else {
      HeldPrefix(attrs, i + 1, vendor, typ);
      HeldNext(attrs, i, vendor, typ);
    }
  }

  /** What an attribute holds that was written as records and a tail which begins with none. */
  lemma HeldOfMany(vendor: Vendor, records: seq<WireSub>, tail: seq<byte>, v: Vendor, t: byte)
    requires Stuck(tail) && WireOf(records) + tail != []
    ensures Held(BigEndian(vendor) + (WireOf(records) + tail), v, t) == if v == vendor then OfType(records, t) else []
  {
    BigEndianRead(vendor, WireOf(records) + tail);
    WalkUnique(records, tail);
    assert (BigEndian(vendor) + (WireOf(records) + tail))[4..] == WireOf(records) + tail;
  }

  /** The one record that an added value becomes: an empty value becomes two bytes that no walk
      reads. */
  lemma HeldOfOne(vendor: Vendor, typ: byte, value: seq<byte>, v: Vendor, t: byte)
    requires |value| <= 247
    ensures Held(NewVendorSpecific(vendor, [typ, |value| + 2] + value).value, v, t)
         == Gain(vendor, typ, value, v, t)
  {
    var wire := [typ, |value| + 2] + value;
    VendorRoundTrip(vendor, wire);
    if value != [] {
      var s: WireSub := Tlv(typ, value);
      WalkUnique([s], []);
      assert WireOf([s]) + [] == wire;
      assert [s][1..] == [];
      assert OfType([s], t) == if t == typ then [value] else [];
    }
  }

  /** What the addition of a value contributes to each vendor and type. */
  function Gain(vendor: Vendor, typ: byte, value: seq<byte>, v: Vendor, t: byte): seq<Attribute> {
    if v == vendor && t == typ && value != [] then [value] else []
  }

  /** Where the value is short enough the packet gained exactly it, for this vendor and type
      only; otherwise the packet is as it was. */
  ghost predicate Gained(before: Attributes, after: Attributes, vendor: Vendor, typ: byte, value: seq<byte>) {
    if |value| > 247 then after == before
    else
      && (forall v: Vendor, t: byte ::
           VendorValues(after, v, t) == VendorValues(before, v, t) + Gain(vendor, typ, value, v, t))
      && (forall t: byte :: t != 26 ==> Values(after, t) == Values(before, t))
  }

  lemma AddedGains(before: Attributes, vendor: Vendor, typ: byte, value: seq<byte>, a: Attribute)
    requires |value| <= 247 && Some(a) == NewVendorSpecific(vendor, [typ, |value| + 2] + value)
    ensures Gained(before, Added(before, VENDOR_SPECIFIC, a), vendor, typ, value)
  {
    forall v: Vendor, t: byte
      ensures VendorValues(Added(before, VENDOR_SPECIFIC, a), v, t)
           == VendorValues(before, v, t) + Gain(vendor, typ, value, v, t)
    {
      HeldAfterAdd(Values(before, VENDOR_SPECIFIC), a, v, t);
      HeldOfOne(vendor, typ, value, v, t);
    }
  }

  datatype AttrInfo = AttrInfo(vendor: Vendor, typ: byte)

  datatype SetError = UnknownName | TooLong

  /** The inner loop of GetsVendor: the values of one type in one payload, after those found before. */
  method AppendValues(found: seq<Attribute>, payload: seq<byte>, typ: byte) returns (values: seq<Attribute>)
    ensures values == found + OfType(Walk(payload).records, typ)
  {
    var vsa := payload;
    values := found;
    while !Stuck(vsa)
      invariant values + OfType(Walk(vsa).records, typ) == found + OfType(Walk(payload).records, typ)
      decreases |vsa|
    {
      var len := vsa[1];
      TakeFront(values, vsa, typ);
      if vsa[0] == typ {
        values := values + [vsa[2..len]];
      }
      vsa := vsa[len..];
    }
  }

  class Packet {
    var attributes: Attributes

    constructor ()
      ensures attributes == map[]
    {
      attributes := map[];
    }

    /** The byte buffer that AddVendor and setExtraAttribute build: the length byte wraps, but
        then the buffer is too long for an attribute. */
    method AddVendor(vendor: Vendor, typ: byte, attr: Attribute) returns (ok: bool)
      modifies this
      ensures ok <==> |attr| <= 247
      ensures Gained(old(attributes), attributes, vendor, typ, attr)
    {
      var buffer := new byte[2 + |attr|](_ => 0);
      buffer[0] := typ;
      buffer[1] := buffer.Length % 256;
      forall i | 0 <= i < |attr| {
        buffer[2 + i] := attr[i];
      }
      assert buffer[..] == [typ, buffer.Length % 256] + attr;
      match NewVendorSpecific(vendor, buffer[..]) {
        case None =>
          return false;
        case Some(vsa) =>
          AddedGains(attributes, vendor, typ, attr, vsa);
          attributes := Added(attributes, VENDOR_SPECIFIC, vsa);
          return true;
      }
    }

    method GetsVendor(vendor: Vendor, typ: byte) returns (values: seq<Attribute>)
      ensures values == VendorValues(attributes, vendor, typ)
    {
      var attrs := Values(attributes, VENDOR_SPECIFIC);
      values := [];
      for i := 0 to |attrs|
        invariant values == AllHeld(attrs[..i], vendor, typ)
      {
        HeldNext(attrs, i, vendor, typ);
        match VendorSpecific(attrs[i]) {
          case None =>
          case Some(p) =>
            if p.vendor == vendor {
              values := AppendValues(values, p.vsa, typ);
            }
        }
      }
      assert attrs[..|attrs|] == attrs;
    }

    /** The first of the values that GetsVendor gives, and false where it gives none. */
    method LookupVendor(vendor: Vendor, typ: byte) returns (attr: Attribute, ok: bool)
      ensures ok <==> VendorValues(attributes, vendor, typ) != []
      ensures attr == if ok then VendorValues(attributes, vendor, typ)[0] else []
    {
      var attrs := Values(attributes, VENDOR_SPECIFIC);
      for i := 0 to |attrs|
        invariant AllHeld(attrs[..i], vendor, typ) == []
      {
        HeldNext(attrs, i, vendor, typ);
        match VendorSpecific(attrs[i]) {
          case None =>
          case Some(p) =>
            if p.vendor == vendor {
              var vsa := p.vsa;
              while !Stuck(vsa)
                invariant OfType(Walk(p.vsa).records, typ) == OfType(Walk(vsa).records, typ)
                decreases |vsa|
              {
                var len := vsa[1];
                OfTypeFront(vsa, typ);
                if vsa[0] == typ {
                  HeldPrefix(attrs, i + 1, vendor, typ);
                  return vsa[2..len], true;
                }
                vsa := vsa[len..];
              }
            }
        }
      }
      assert attrs[..|attrs|] == attrs;
      return [], false;
    }

    /** A string attribute by name: a standard one replaces those of its type, a vendor one is
        added, and whatever fails leaves the packet as it was. */
    method SetExtraAttribute(attrTypes: map<string, AttrInfo>, name: string, value: seq<byte>)
      returns (r: Option<SetError>)
      modifies this
      ensures r == if name !in attrTypes then Some(UnknownName)
                   else if |value| > (if attrTypes[name].vendor == 0 then 253 else 247) then Some(TooLong)
                   else None
      ensures r.Some? ==> attributes == old(attributes)
      ensures r.None? ==>
        var AttrInfo(vendor, t) := attrTypes[name];
        if vendor == 0 then attributes == old(attributes)[t := [value]]
        else Gained(old(attributes), attributes, vendor, t, value)
    {
      if name !in attrTypes {
        return Some(UnknownName);
      }
      var info := attrTypes[name];
      if |value| > MAX_TEXT {
        return Some(TooLong);
      }
      if info.vendor == 0 {
        attributes := attributes[info.typ := [value]];
        return None;
      }
      var ok := AddVendor(info.vendor, info.typ, value);
      return if ok then None else Some(TooLong);
    }
  }
}
