/** How vendor attributes are printed (radius/dump.go): nothing is lost, not even an
    undecodable tail, so a dump can be read back. */
module PacketDump {
  import opened Prelude
  import opened Text
  import opened Radius
  import opened VendorAttributes

  function HexDigit(d: nat): char
    requires d < 16
  {
    if d < 10 then '0' + d as char else 'A' + (d - 10) as char
  }

  /** The %X format. */
  function UpperHex(b: seq<byte>): string {
    if b == [] then "" else [HexDigit(b[0] / 16), HexDigit(b[0] % 16)] + UpperHex(b[1..])
  }

  /** The %q format on printable bytes, without the outer quotes. */
  function Escaped(b: seq<byte>): string {
    if b == [] then ""
    else (if b[0] == 0x22 || b[0] == 0x5c then ['\\', b[0] as char] else [b[0] as char]) + Escaped(b[1..])
  }

  predicate Printable(b: seq<byte>) {
    forall i :: 0 <= i < |b| ==> 0x20 <= b[i] <= 0x7e
  }

  function ValueText(b: seq<byte>): string {
    if Printable(b) then "\"" + Escaped(b) + "\"" else "0x" + UpperHex(b)
  }

  lemma {:induction false} UpperHexInjective(a: seq<byte>, b: seq<byte>)
    requires UpperHex(a) == UpperHex(b)
    ensures a == b
  {
    if a != [] && b != [] {
      assert UpperHex(a)[0] == UpperHex(b)[0] && UpperHex(a)[1] == UpperHex(b)[1];
      assert UpperHex(a)[2..] == UpperHex(a[1..]) && UpperHex(b)[2..] == UpperHex(b[1..]);
      UpperHexInjective(a[1..], b[1..]);
      assert a == [a[0]] + a[1..] && b == [b[0]] + b[1..];
    }
  }

  lemma {:induction false} EscapedInjective(a: seq<byte>, b: seq<byte>)
    requires Escaped(a) == Escaped(b)
    ensures a == b
  {
    if a != [] && b != [] {
      assert Escaped(a)[0] == Escaped(b)[0];
      EscapedRest(a);
      EscapedRest(b);
      EscapedInjective(a[1..], b[1..]);
      assert a == [a[0]] + a[1..] && b == [b[0]] + b[1..];
    }
  }

  /** How the first byte is read off an escaped text. */
  lemma EscapedRest(b: seq<byte>)
    requires b != []
    ensures var s := Escaped(b);
      && s != "" && (s[0] == '\\' <==> b[0] == 0x22 || b[0] == 0x5c)
      && (if s[0] == '\\' then |s| >= 2 && s[1] as int == b[0] && s[2..] == Escaped(b[1..])
          else s[0] as int == b[0] && s[1..] == Escaped(b[1..]))
  {
  }

  /** A printed value stands for one value only. */
  lemma ValueTextInjective(a: seq<byte>, b: seq<byte>)
    requires ValueText(a) == ValueText(b)
    ensures a == b
  {
    var s, t := ValueText(a), ValueText(b);
    assert s[0] == t[0];
    if Printable(a) {
      assert Escaped(a) == s[1..|s| - 1] && Escaped(b) == t[1..|t| - 1];
      EscapedInjective(a, b);
    } else {
      assert UpperHex(a) == s[2..] && UpperHex(b) == t[2..];
      UpperHexInjective(a, b);
    }
  }

  // --------------------------------------------------------------------------- names

  function VendorName(v: Vendor): string {
    if v == REDBACK then "Redback"
    else if v == MIKROTIK then "Mikrotik"
    else if v == 9 then "Cisco"
    else "Vendor-" + NatText(v)
  }

  function SubName(v: Vendor, typ: byte): string {
    if v == REDBACK && typ == 96 then "Agent-Remote-Id"
    else if v == REDBACK && typ == 97 then "Agent-Circuit-Id"
    else NatText(typ)
  }

  function Part(v: Vendor, name: string, value: seq<byte>): string {
    VendorName(v) + "." + name + "=" + ValueText(value)
  }

  function RecordParts(v: Vendor, records: seq<WireSub>): seq<string> {
    if records == [] then []
    else [Part(v, SubName(v, records[0].typ), records[0].value)] + RecordParts(v, records[1..])
  }

  function TailPart(v: Vendor, tail: seq<byte>): seq<string> {
    if tail == [] then [] else [Part(v, "raw", tail)]
  }

  function Parts(v: Vendor, w: Walked): seq<string> {
    RecordParts(v, w.records) + TailPart(v, w.tail)
  }

  function Dump(a: Attribute): seq<string> {
    match VendorSpecific(a)
    case None => ["Vendor-Specific=" + ValueText(a)]
    case Some(p) => Parts(p.vendor, Walk(p.vsa))
  }

  lemma PartsFront(v: Vendor, vsa: seq<byte>, parts: seq<string>)
    requires !Stuck(vsa)
    ensures parts + Parts(v, Walk(vsa))
         == (parts + [Part(v, SubName(v, vsa[0]), vsa[2..vsa[1]])]) + Parts(v, Walk(vsa[vsa[1]..]))
  {
    assert Walk(vsa).records[1..] == Walk(vsa[vsa[1]..]).records;
  }

  method DumpVSA(a: Attribute) returns (parts: seq<string>)
    ensures parts == Dump(a)
  {
    match VendorSpecific(a) {
      case None =>
        return ["Vendor-Specific=" + ValueText(a)];
      case Some(p) =>
        var vsa := p.vsa;
        parts := [];
        while !Stuck(vsa)
          invariant Dump(a) == parts + Parts(p.vendor, Walk(vsa))
          decreases |vsa|
        {
          var l := vsa[1];
          PartsFront(p.vendor, vsa, parts);
          parts := parts + [Part(p.vendor, SubName(p.vendor, vsa[0]), vsa[2..l])];
          vsa := vsa[l..];
        }
        if |vsa| > 0 {
          parts := parts + [Part(p.vendor, "raw", vsa)];
        }
    }
  }

  // ------------------------------------------------------------------------ what it says

  /** The vendors and the two Redback types that have names. */
  const VENDORS: map<nat, string> := map[9 := "Cisco", 2352 := "Redback", 14988 := "Mikrotik"]
  const REDBACK_TYPES: map<nat, string> := map[96 := "Agent-Remote-Id", 97 := "Agent-Circuit-Id"]

  function Title(v: Vendor): string {
    if v in VENDORS then VENDORS[v] else "Vendor-" + NatText(v)
  }

  function TypeTitle(v: Vendor, typ: byte): string {
    if v == 2352 && typ in REDBACK_TYPES then REDBACK_TYPES[typ] else NatText(typ)
  }

  lemma TitlesAre(v: Vendor, typ: byte)
    ensures VendorName(v) == Title(v) && SubName(v, typ) == TypeTitle(v, typ)
  {
  }

  /** How a record prints. */
  function RecordText(v: Vendor, r: Tlv): string {
    Title(v) + "." + TypeTitle(v, r.typ) + "=" + ValueText(r.value)
  }

  lemma PartIsText(v: Vendor, r: Tlv)
    ensures Part(v, SubName(v, r.typ), r.value) == RecordText(v, r)
  {
    TitlesAre(v, r.typ);
  }

  lemma RecordPartsCons(v: Vendor, records: seq<WireSub>)
    requires records != []
    ensures RecordParts(v, records) == [RecordText(v, records[0])] + RecordParts(v, records[1..])
  {
    PartIsText(v, records[0]);
  }

  function RecordTexts(v: Vendor, records: seq<Tlv>): seq<string> {
    seq(|records|, i requires 0 <= i < |records| => RecordText(v, records[i]))
  }

  lemma {:induction false} RecordPartsAre(v: Vendor, records: seq<WireSub>)
    ensures RecordParts(v, records) == RecordTexts(v, records)
  {
    if records != [] {
      RecordPartsCons(v, records);
      RecordPartsAre(v, records[1..]);
      assert RecordTexts(v, records) == [RecordText(v, records[0])] + RecordTexts(v, records[1..]);
    }
  }

  /** Every record prints in its place under its names, and what is left over behind them, raw. */
  lemma DumpText(v: Vendor, records: seq<WireSub>, tail: seq<byte>)
    requires Stuck(tail) && WireOf(records) + tail != []
    ensures var parts := Dump(BigEndian(v) + (WireOf(records) + tail));
      && |parts| == |records| + (if tail == [] then 0 else 1)
      && (forall i {:trigger records[i]} :: 0 <= i < |records| ==> parts[i] == RecordText(v, records[i]))
      && (tail != [] ==> parts[|records|] == Title(v) + ".raw=" + ValueText(tail))
  {
    DumpIsParts(v, records, tail);
    RecordPartsAre(v, records);
    RawText(v, tail);
  }

  lemma RawText(v: Vendor, tail: seq<byte>)
    ensures tail != [] ==> TailPart(v, tail) == [Title(v) + ".raw=" + ValueText(tail)]
  {
    TitlesAre(v, 0);
    assert Title(v) + "." + "raw" + "=" + ValueText(tail) == Title(v) + ".raw=" + ValueText(tail);
  }

  lemma DumpIsParts(v: Vendor, records: seq<WireSub>, tail: seq<byte>)
    requires Stuck(tail) && WireOf(records) + tail != []
    ensures Dump(BigEndian(v) + (WireOf(records) + tail)) == RecordParts(v, records) + TailPart(v, tail)
  {
    BigEndianRead(v, WireOf(records) + tail);
    WalkUnique(records, tail);
    assert (BigEndian(v) + (WireOf(records) + tail))[4..] == WireOf(records) + tail;
  }

  /** An attribute too short to have a vendor prints as a whole. */
  lemma DumpShort(a: Attribute)
    requires |a| < 5
    ensures Dump(a) == ["Vendor-Specific=" + ValueText(a)]
  {
  }

  lemma {:induction false} UpperHexAt(b: seq<byte>, i: nat)
    requires i < |b|
    ensures |UpperHex(b)| == 2 * |b|
    ensures UpperHex(b)[2 * i] == "0123456789ABCDEF"[b[i] / 16]
    ensures UpperHex(b)[2 * i + 1] == "0123456789ABCDEF"[b[i] % 16]
  {
    var d := "0123456789ABCDEF";
    assert forall k: nat | k < 16 :: HexDigit(k) == d[k];
    assert UpperHex(b) == [HexDigit(b[0] / 16), HexDigit(b[0] % 16)] + UpperHex(b[1..]);
    if |b| > 1 {
      UpperHexAt(b[1..], if i == 0 then 0 else i - 1);
    }
  }

  /** A value prints between quotes if all its bytes are printable ASCII, and otherwise byte by byte in
      upper-case hex. */
  lemma ValueTextIs(b: seq<byte>)
    ensures ValueText(b)[..1] == "\"" <==> forall i :: 0 <= i < |b| ==> 32 <= b[i] <= 126
    ensures ValueText(b)[..1] == "\"" ==> ValueText(b)[|ValueText(b)| - 1] == '\"'
    ensures ValueText(b)[..1] != "\"" ==>
      && |ValueText(b)| == 2 + 2 * |b| && ValueText(b)[..2] == "0x"
      && forall i :: 0 <= i < |b| ==>
           && ValueText(b)[2 + 2 * i] == "0123456789ABCDEF"[b[i] / 16]
           && ValueText(b)[3 + 2 * i] == "0123456789ABCDEF"[b[i] % 16]
  {
    if !Printable(b) {
      forall i | 0 <= i < |b|
        ensures |UpperHex(b)| == 2 * |b|
        ensures UpperHex(b)[2 * i] == "0123456789ABCDEF"[b[i] / 16]
        ensures UpperHex(b)[2 * i + 1] == "0123456789ABCDEF"[b[i] % 16]
      {
        UpperHexAt(b, i);
      }
    }
  }

  // --------------------------------------------------------------------- reading back

  lemma JoinKeepsOut(a: string, b: string, c: char)
    requires c !in a && c !in b
    ensures c !in a + b
  {
  }

  lemma VendorNameKeepsOut(v: Vendor, c: char)
    requires c == '.' || c == '='
    ensures c !in VendorName(v)
  {
    NatTextDigits(v);
    assert c !in "Vendor-";
    JoinKeepsOut("Vendor-", NatText(v), c);
  }

  lemma NamesKeepOut(v: Vendor, typ: byte)
    ensures '.' !in VendorName(v) && '=' !in VendorName(v) && '=' !in SubName(v, typ)
  {
    VendorNameKeepsOut(v, '.');
    VendorNameKeepsOut(v, '=');
    NatTextDigits(typ);
  }

  lemma NatTextInjective(m: nat, n: nat)
    requires NatText(m) == NatText(n)
    ensures m == n
  {
    ItoaInjective(m, n);
  }

  lemma VendorNameInjective(v: Vendor, w: Vendor)
    requires VendorName(v) == VendorName(w)
    ensures v == w
  {
    assert VendorName(v)[0] == VendorName(w)[0];
    if v !in {REDBACK, MIKROTIK, 9} && w !in {REDBACK, MIKROTIK, 9} {
      assert NatText(v) == VendorName(v)[7..] && NatText(w) == VendorName(w)[7..];
      NatTextInjective(v, w);
    }
  }

  lemma SubNameInjective(v: Vendor, t: byte, u: byte)
    requires SubName(v, t) == SubName(v, u)
    ensures t == u
  {
    NatTextDigits(t);
    NatTextDigits(u);
    assert SubName(v, t)[0] == SubName(v, u)[0] && (SubName(v, t)[0] == 'A' ==> SubName(v, t)[6] == SubName(v, u)[6]);
    if NatText(t) == NatText(u) {
      NatTextInjective(t, u);
    }
  }

  /** A part names its vendor, its record type or the tail, and its value. */
  lemma PartInjective(v: Vendor, name: string, a: seq<byte>, w: Vendor, name': string, b: seq<byte>)
    requires Part(v, name, a) == Part(w, name', b) && '=' !in name && '=' !in name'
    ensures v == w && name == name' && a == b
  {
    NamesKeepOut(v, 0);
    NamesKeepOut(w, 0);
    JoinInjective(VendorName(v) + "." + name, ValueText(a), VendorName(w) + "." + name', ValueText(b), '=');
    JoinInjective(VendorName(v), name, VendorName(w), name', '.');
    VendorNameInjective(v, w);
    ValueTextInjective(a, b);
  }

  lemma RawIsNoName(v: Vendor, typ: byte)
    ensures SubName(v, typ) != "raw"
  {
    NatTextDigits(typ);
    assert SubName(v, typ)[0] != 'r';
  }

  lemma TailIsNoRecord(v: Vendor, typ: byte, value: seq<byte>, tail: seq<byte>)
    ensures Part(v, SubName(v, typ), value) != Part(v, "raw", tail)
  {
    NamesKeepOut(v, typ);
    RawIsNoName(v, typ);
    if Part(v, SubName(v, typ), value) == Part(v, "raw", tail) {
      PartInjective(v, SubName(v, typ), value, v, "raw", tail);
      assert false;
    }
  }

  lemma PartsCons(v: Vendor, w: Walked)
    requires w.records != []
    ensures var r := w.records[0];
      Parts(v, w) == [Part(v, SubName(v, r.typ), r.value)] + Parts(v, Walked(w.records[1..], w.tail))
  {
  }

  /** A tail alone prints differently from anything that starts with a record. */
  lemma RecordFirst(v: Vendor, tail: seq<byte>, w: Walked)
    requires w.records != []
    ensures Parts(v, Walked([], tail)) != Parts(v, w)
  {
    var r := w.records[0];
    PartsCons(v, w);
    TailIsNoRecord(v, r.typ, r.value, tail);
    assert Parts(v, w)[0] == Part(v, SubName(v, r.typ), r.value);
    assert tail != [] ==> Parts(v, Walked([], tail))[0] == Part(v, "raw", tail);
  }

  lemma TailInjective(v: Vendor, a: seq<byte>, b: seq<byte>)
    requires TailPart(v, a) == TailPart(v, b)
    ensures a == b
  {
    if a != [] && b != [] {
      assert TailPart(v, a)[0] == TailPart(v, b)[0];
      PartInjective(v, "raw", a, v, "raw", b);
    }
  }

  lemma TailOnly(v: Vendor, w: Walked)
    requires w.records == []
    ensures Parts(v, w) == TailPart(v, w.tail)
  {
  }

  lemma SameWalked(a: Walked, b: Walked)
    requires a.records != [] && b.records != [] && a.records[0] == b.records[0]
    requires Walked(a.records[1..], a.tail) == Walked(b.records[1..], b.tail)
    ensures a == b
  {
    assert a.records == [a.records[0]] + a.records[1..] && b.records == [b.records[0]] + b.records[1..];
  }

  lemma FirstRecords(v: Vendor, a: Walked, b: Walked)
    requires Parts(v, a) == Parts(v, b) && a.records != [] && b.records != []
    ensures a.records[0] == b.records[0]
    ensures Parts(v, Walked(a.records[1..], a.tail)) == Parts(v, Walked(b.records[1..], b.tail))
  {
    var r, q := a.records[0], b.records[0];
    PartsCons(v, a);
    PartsCons(v, b);
    NamesKeepOut(v, r.typ);
    NamesKeepOut(v, q.typ);
    assert Parts(v, a)[0] == Parts(v, b)[0] && Parts(v, a)[1..] == Parts(v, b)[1..];
    PartInjective(v, SubName(v, r.typ), r.value, v, SubName(v, q.typ), q.value);
    SubNameInjective(v, r.typ, q.typ);
  }

  lemma {:induction false} PartsInjective(v: Vendor, a: Walked, b: Walked)
    requires Parts(v, a) == Parts(v, b)
    ensures a == b
    decreases |a.records|
  {
    if a.records == [] && b.records == [] {
      TailOnly(v, a);
      TailOnly(v, b);
      TailInjective(v, a.tail, b.tail);
    } else if a.records == [] {
      RecordFirst(v, a.tail, b);
    } else if b.records == [] {
      RecordFirst(v, b.tail, a);
    } else {
      FirstRecords(v, a, b);
      PartsInjective(v, Walked(a.records[1..], a.tail), Walked(b.records[1..], b.tail));
      SameWalked(a, b);
    }
  }

  lemma U16Injective(a: byte, b: byte, c: byte, d: byte)
    ensures U16(a, b) == U16(c, d) ==> a == c && b == d
  {
  }

  lemma VendorBytesInjective(a: seq<byte>, b: seq<byte>)
    requires |a| >= 4 && |b| >= 4 && FromBigEndian(a) == FromBigEndian(b)
    ensures a[..4] == b[..4]
  {
    U16Injective(a[0], a[1], b[0], b[1]);
    U16Injective(a[2], a[3], b[2], b[3]);
    assert a[..4] == [a[0], a[1], a[2], a[3]] && b[..4] == [b[0], b[1], b[2], b[3]];
  }

  /** The first part of a readable attribute names its vendor, ... */
  lemma FirstPart(v: Vendor, vsa: seq<byte>) returns (name: string, value: seq<byte>)
    requires vsa != []
    ensures |Parts(v, Walk(vsa))| > 0 && Parts(v, Walk(vsa))[0] == Part(v, name, value) && '=' !in name
  {
    if Stuck(vsa) {
      name, value := "raw", vsa;
    } else {
      name, value := SubName(v, vsa[0]), vsa[2..vsa[1]];
      NamesKeepOut(v, vsa[0]);
    }
  }

  /** ... which an unreadable one does not. */
  lemma UnreadableIsNoPart(v: Vendor, name: string, value: seq<byte>, a: seq<byte>)
    requires '=' !in name
    ensures "Vendor-Specific=" + ValueText(a) != Part(v, name, value)
  {
    NamesKeepOut(v, 0);
    var title := "Vendor-Specific";
    assert title + "=" == "Vendor-Specific=";
    assert '.' !in title && (VendorName(v) + "." + name)[|VendorName(v)|] == '.';
    if title + "=" + ValueText(a) == Part(v, name, value) {
      JoinInjective(title, ValueText(a), VendorName(v) + "." + name, ValueText(value), '=');
      assert false;
    }
  }

  /** Two attributes that print alike are the same bytes: a dump keeps every record, every
      value and the undecodable tail. */
  lemma DumpInjective(a: Attribute, b: Attribute)
    requires Dump(a) == Dump(b)
    ensures a == b
  {
    match (VendorSpecific(a), VendorSpecific(b))
    case (None, None) =>
      var s, t := "Vendor-Specific=" + ValueText(a), "Vendor-Specific=" + ValueText(b);
      assert Dump(a)[0] == s && Dump(b)[0] == t;
      assert s[16..] == ValueText(a) && t[16..] == ValueText(b);
      ValueTextInjective(a, b);
    case (None, Some(q)) =>
      var name, value := FirstPart(q.vendor, q.vsa);
      UnreadableIsNoPart(q.vendor, name, value, a);
      assert false;
    case (Some(p), None) =>
      var name, value := FirstPart(p.vendor, p.vsa);
      UnreadableIsNoPart(p.vendor, name, value, b);
      assert false;
    case (Some(p), Some(q)) =>
      var name, value := FirstPart(p.vendor, p.vsa);
      var name', value' := FirstPart(q.vendor, q.vsa);
      PartInjective(p.vendor, name, value, q.vendor, name', value');
      PartsInjective(p.vendor, Walk(p.vsa), Walk(q.vsa));
      WalkSplits(p.vsa);
      WalkSplits(q.vsa);
      VendorBytesInjective(a, b);
      assert a == a[..4] + a[4..] && b == b[..4] + b[4..];
  }
}
