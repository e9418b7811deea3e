/** Classic pcap files of UDP traffic (tools/pcapreplay/pcap.go), with the printer that
    the tests use (tools/pcapreplay/pcap_test.go:15-69). */
module Capture {
  import opened Prelude

  datatype UdpPacket = UdpPacket(time: nat, srcIP: seq<byte>, srcPort: nat, dstIP: seq<byte>, dstPort: nat,
                                 payload: seq<byte>)

  datatype Reason =
    | ShortEthernet | ShortVlan | NonIPv4Ethertype | ShortSLL | NonIPv4SLL | UnsupportedLinktype(network: nat)
    | ShortIP | NonIPv4 | BadIHL | NonUDP | ShortUDP | BadUDPLength

  /** Panics stands for a slice expression out of bounds. */
  datatype Decoded = Udp(p: UdpPacket) | Skipped(reason: Reason) | Panics

  const ETHERNET := 1
  const RAW := 101
  const LINUX_SLL := 113

  const IPV4 := 0x0800
  const VLAN := 0x8100
  const QINQ := 0x88a8

  function DecodeIPv4(data: seq<byte>): Decoded {
    if |data| < 20 then Skipped(ShortIP)
    else if data[0] / 16 != 4 then Skipped(NonIPv4)
    else
      var ihl := data[0] % 16 * 4;
      if ihl < 20 || |data| < ihl then Skipped(BadIHL)
      else if data[9] != 17 then Skipped(NonUDP)
      else
        var end := Min(U16(data[2], data[3]), |data|);
        if end < ihl then Panics
        else DecodeSegment(data[12..16], data[16..20], data[ihl..end])
  }

  function DecodeSegment(srcIP: seq<byte>, dstIP: seq<byte>, udp: seq<byte>): Decoded {
    if |udp| < 8 then Skipped(ShortUDP)
    else
      var udpLen := U16(udp[4], udp[5]);
      if udpLen < 8 then Skipped(BadUDPLength)
      else Udp(UdpPacket(0, srcIP, U16(udp[0], udp[1]), dstIP, U16(udp[2], udp[3]), udp[8..Min(udpLen, |udp|)]))
  }

  /** The tag loop from the state it is in after i tags: the ethertype that follows them
      and where its payload starts, or None for a frame that ends inside a tag. */
  function StripTags(data: seq<byte>, ethertype: nat, off: nat, i: nat): Option<(nat, nat)>
    decreases |data| - off
  {
    if (i < 2 && ethertype == VLAN) || ethertype == QINQ then
      if |data| < off + 4 then None
      else StripTags(data, U16(data[off + 2], data[off + 3]), off + 4, i + 1)
    else Some((ethertype, off))
  }

  lemma {:induction false} StripStaysInside(data: seq<byte>, ethertype: nat, off: nat, i: nat)
    requires off <= |data|
    ensures StripTags(data, ethertype, off, i).Some? ==> StripTags(data, ethertype, off, i).value.1 <= |data|
    decreases |data| - off
  {
    if ((i < 2 && ethertype == VLAN) || ethertype == QINQ) && off + 4 <= |data| {
      StripStaysInside(data, U16(data[off + 2], data[off + 3]), off + 4, i + 1);
    }
  }

  function DecodeEthernet(data: seq<byte>): Decoded {
    if |data| < 14 then Skipped(ShortEthernet)
    else match StripTags(data, U16(data[12], data[13]), 14, 0)
      case None => Skipped(ShortVlan)
      case Some((ethertype, off)) =>
        if ethertype != IPV4 then Skipped(NonIPv4Ethertype)
        else if off > |data| then Panics
        else DecodeIPv4(data[off..])
  }

  function Decode(data: seq<byte>, network: nat): Decoded {
    if network == ETHERNET then DecodeEthernet(data)
    else if network == LINUX_SLL then
      if |data| < 16 then Skipped(ShortSLL)
      else if U16(data[14], data[15]) != IPV4 then Skipped(NonIPv4SLL)
      else DecodeIPv4(data[16..])
    else if network == RAW then DecodeIPv4(data)
    else Skipped(UnsupportedLinktype(network))
  }

  method DecodeUDP(data: seq<byte>, network: nat) returns (d: Decoded)
    ensures d == Decode(data, network)
  {
    if network == ETHERNET {
      if |data| < 14 {
        return Skipped(ShortEthernet);
      }
      var ethertype: nat, off := U16(data[12], data[13]), 14;
      var i := 0;
      while (i < 2 && ethertype == VLAN) || ethertype == QINQ
        invariant 14 <= off <= |data| && i >= 0
        invariant StripTags(data, ethertype, off, i) == StripTags(data, U16(data[12], data[13]), 14, 0)
        decreases |data| - off
      {
        if |data| < off + 4 {
          return Skipped(ShortVlan);
        }
        ethertype := U16(data[off + 2], data[off + 3]);
        off := off + 4;
        i := i + 1;
      }
      if ethertype != IPV4 {
        return Skipped(NonIPv4Ethertype);
      }
      return DecodeIPv4(data[off..]);
    } else if network == LINUX_SLL {
      if |data| < 16 {
        return Skipped(ShortSLL);
      }
      if U16(data[14], data[15]) != IPV4 {
        return Skipped(NonIPv4SLL);
      }
      return DecodeIPv4(data[16..]);
    } else if network == RAW {
      return DecodeIPv4(data);
    }
    return Skipped(UnsupportedLinktype(network));
  }

  // ------------------------------------------------------------------------ whole files

  datatype ByteOrder = Little | Big

  function U32(bo: ByteOrder, b: seq<byte>): nat
    requires |b| == 4
  {
    if bo == Big then U16(b[0], b[1]) * 0x1_0000 + U16(b[2], b[3])
    else U16(b[3], b[2]) * 0x1_0000 + U16(b[1], b[0])
  }

  datatype FileResult = Packets(ps: seq<UdpPacket>) | ReadError | Panicked

  function Stamp(sec: nat, usec: nat): nat {
    sec * 1_000_000_000 + usec * 1000
  }

  function OnPort(u: UdpPacket, port: int): bool {
    u.srcPort == port || u.dstPort == port
  }

  function Decoder(network: nat): seq<byte> -> Decoded {
    (data: seq<byte>) => Decode(data, network)
  }

  /** What a decoded frame adds to the packets read. */
  function Kept(d: Decoded, time: nat, port: int): seq<UdpPacket> {
    if d.Udp? && OnPort(d.p, port) then [d.p.(time := time)] else []
  }

  /** The records of a file after those that gave `ps`. */
  function Records(bo: ByteOrder, rest: seq<byte>, decode: seq<byte> -> Decoded, port: int, ps: seq<UdpPacket>): FileResult
    decreases |rest|
  {
    if rest == [] then Packets(ps)
    else if |rest| < 16 then ReadError
    else
      var length := U32(bo, rest[8..12]);
      if |rest| - 16 < length then ReadError
      else
        var d := decode(rest[16..16 + length]);
        var time := Stamp(U32(bo, rest[0..4]), U32(bo, rest[4..8]));
        if d == Panics then Panicked
        else Records(bo, rest[16 + length..], decode, port, ps + Kept(d, time, port))
  }

  function Magic(bo: ByteOrder): seq<byte> {
    if bo == Little then [0xd4, 0xc3, 0xb2, 0xa1] else [0xa1, 0xb2, 0xc3, 0xd4]
  }

  function ReadFile(file: seq<byte>, port: int): FileResult {
    if |file| < 4 then ReadError
    else if file[..4] != Magic(Little) && file[..4] != Magic(Big) then ReadError
    else if |file| < 24 then ReadError
    else
      var bo := if file[..4] == Magic(Little) then Little else Big;
      Records(bo, file[24..], Decoder(U32(bo, file[20..24])), port, [])
  }

  method ReadUDPPackets(file: seq<byte>, port: int) returns (r: FileResult)
    ensures r == ReadFile(file, port)
  {
    if |file| < 4 {
      return ReadError;
    }
    var bo;
    if file[..4] == Magic(Little) {
      bo := Little;
    } else if file[..4] == Magic(Big) {
      bo := Big;
    } else {
      return ReadError;
    }
    if |file| < 24 {
      return ReadError;
    }
    var network := U32(bo, file[20..24]);
    var out: seq<UdpPacket> := [];
    var rest := file[24..];
    while rest != []
      invariant Records(bo, rest, Decoder(network), port, out) == ReadFile(file, port)
      decreases |rest|
    {
      if |rest| < 16 {
        return ReadError;
      }
      var sec, usec, length := U32(bo, rest[0..4]), U32(bo, rest[4..8]), U32(bo, rest[8..12]);
      if |rest| - 16 < length {
        return ReadError;
      }
      var d := DecodeUDP(rest[16..16 + length], network);
      if d.Panics? {
        return Panicked;
      }
      assert out + [] == out;
      if d.Udp? && OnPort(d.p, port) {
        out := out + [d.p.(time := Stamp(sec, usec))];
      }
      rest := rest[16 + length..];
    }
    return Packets(out);
  }

  // ---------------------------------------------------------------------------- printer

  function PutU16(n: nat): seq<byte>
    requires n < 0x1_0000
  {
    [n / 0x100, n % 0x100]
  }

  function PutU32(bo: ByteOrder, n: nat): (b: seq<byte>)
    requires n < 0x1_0000_0000
    ensures |b| == 4 && U32(bo, b) == n
  {
    var hi, lo := PutU16(n / 0x1_0000), PutU16(n % 0x1_0000);
    if bo == Big then [hi[0], hi[1], lo[0], lo[1]] else [lo[1], lo[0], hi[1], hi[0]]
  }

  datatype Datagram = Datagram(srcMAC: seq<byte>, dstMAC: seq<byte>, srcIP: seq<byte>, dstIP: seq<byte>,
                               srcPort: nat, dstPort: nat, payload: seq<byte>)
  {
    /** What UDP over IPv4 can carry. */
    predicate Fits() {
      && |srcMAC| == |dstMAC| == 6 && |srcIP| == |dstIP| == 4
      && srcPort < 0x1_0000 && dstPort < 0x1_0000 && |payload| <= 0xffff - 28
    }

    function Packet(time: nat): UdpPacket {
      UdpPacket(time, srcIP, srcPort, dstIP, dstPort, payload)
    }
  }

  /** The rest of a frame: the header fields that the reader ignores, options of the IPv4 header, bytes
      of the packet behind the datagram and of the frame behind the packet. */
  datatype Extra = Extra(tos: byte, ident: seq<byte>, ttl: byte, ipSum: seq<byte>, options: seq<byte>,
                         udpSum: seq<byte>, trailer: seq<byte>, padding: seq<byte>)
  {
    predicate Fits() {
      && |ident| == 4 && |ipSum| == |udpSum| == 2 && |options| % 4 == 0 && |options| <= 40
      && |trailer| <= 0xffff && |padding| <= 0xffff
    }
  }

  predicate Packs(d: Datagram, x: Extra) {
    d.Fits() && x.Fits() && |x.options| + |d.payload| + |x.trailer| <= 0xffff - 28
  }

  function HeaderLength(x: Extra): nat {
    20 + |x.options|
  }

  function TotalLength(d: Datagram, x: Extra): nat {
    HeaderLength(x) + 8 + |d.payload| + |x.trailer|
  }

  function Segment(d: Datagram, x: Extra): seq<byte>
    requires Packs(d, x)
  {
    PutU16(d.srcPort) + PutU16(d.dstPort) + PutU16(8 + |d.payload|) + x.udpSum + d.payload + x.trailer
  }

  function IPHeader(d: Datagram, x: Extra): seq<byte>
    requires Packs(d, x)
  {
    [0x45 + |x.options| / 4, x.tos] + PutU16(TotalLength(d, x)) + x.ident + [x.ttl, 17] + x.ipSum
    + d.srcIP + d.dstIP + x.options
  }

  function IPPacket(d: Datagram, x: Extra): seq<byte>
    requires Packs(d, x)
  {
    IPHeader(d, x) + Segment(d, x) + x.padding
  }

  datatype Tag = Tag(tpid: nat, tci: nat)

  function TagBytes(tags: seq<Tag>): seq<byte>
    requires forall i :: 0 <= i < |tags| ==> tags[i].tpid < 0x1_0000 && tags[i].tci < 0x1_0000
  {
    if tags == [] then [] else PutU16(tags[0].tpid) + PutU16(tags[0].tci) + TagBytes(tags[1..])
  }

  /** A frame with VLAN tags between the addresses and the ethertype of IPv4. */
  function TaggedFrame(macs: seq<byte>, tags: seq<Tag>, ip: seq<byte>): seq<byte>
    requires forall i :: 0 <= i < |tags| ==> tags[i].tpid < 0x1_0000 && tags[i].tci < 0x1_0000
  {
    macs + TagBytes(tags) + PutU16(0x0800) + ip
  }

  function Frame(d: Datagram, x: Extra): seq<byte>
    requires Packs(d, x)
  {
    TaggedFrame(d.dstMAC + d.srcMAC, [], IPPacket(d, x))
  }

  /** The same packet as a capture on any interface frames it ("Linux cooked"). */
  function CookedFrame(d: Datagram, x: Extra): seq<byte>
    requires Packs(d, x)
  {
    [0, 0, 0, 1, 0, 6] + d.srcMAC + [0, 0] + PutU16(0x0800) + IPPacket(d, x)
  }

  /** The link types of Ethernet, of bare IP packets and of Linux cooked captures. */
  predicate Supported(network: nat) {
    network == 1 || network == 101 || network == 113
  }

  function FrameOn(network: nat, d: Datagram, x: Extra): seq<byte>
    requires Packs(d, x)
  {
    if network == 1 then Frame(d, x) else if network == 113 then CookedFrame(d, x) else IPPacket(d, x)
  }

  // ------------------------------------------------------------------- decoding a frame

  lemma DecodeCutSegment(d: Datagram, x: Extra, k: nat)
    requires Packs(d, x) && 8 <= k <= 8 + |d.payload| + |x.trailer|
    ensures |Segment(d, x)| == 8 + |d.payload| + |x.trailer|
    ensures DecodeSegment(d.srcIP, d.dstIP, Segment(d, x)[..k])
         == Udp(d.(payload := d.payload[..Min(k - 8, |d.payload|)]).Packet(0))
  {
    var udp, n := Segment(d, x)[..k], Min(k - 8, |d.payload|);
    SegmentParts(d, x);
    assert udp[8..8 + n] == Segment(d, x)[8..][..n] == d.payload[..n];
    assert Min(8 + |d.payload|, k) == 8 + n;
  }

  lemma SegmentParts(d: Datagram, x: Extra)
    requires Packs(d, x)
    ensures |Segment(d, x)| == 8 + |d.payload| + |x.trailer|
    ensures var udp := Segment(d, x);
      && U16(udp[0], udp[1]) == d.srcPort && U16(udp[2], udp[3]) == d.dstPort
      && U16(udp[4], udp[5]) == 8 + |d.payload| && udp[8..] == d.payload + x.trailer
  {
    var head := PutU16(d.srcPort) + PutU16(d.dstPort) + PutU16(8 + |d.payload|) + x.udpSum;
    assert Segment(d, x) == head + (d.payload + x.trailer);
    assert |head| == 8;
  }

  lemma HeaderParts(d: Datagram, x: Extra)
    requires Packs(d, x)
    ensures |IPHeader(d, x)| == HeaderLength(x)
    ensures var ip := IPHeader(d, x);
      && ip[0] / 16 == 4 && ip[0] % 16 * 4 == HeaderLength(x) && ip[9] == 17
      && U16(ip[2], ip[3]) == TotalLength(d, x)
      && ip[12..16] == d.srcIP && ip[16..20] == d.dstIP
  {
    var ip := IPHeader(d, x);
    assert ip[2..4] == PutU16(TotalLength(d, x));
    assert ip[2] == ip[2..4][0] && ip[3] == ip[2..4][1];
  }

  /** A packet that is cut after its header. */
  lemma CutParts(header: seq<byte>, segment: seq<byte>, padding: seq<byte>, k: nat, end: nat)
    requires |header| <= end <= k <= |header| + |segment| + |padding| && end - |header| <= |segment| && |header| >= 20
    ensures var ip := (header + segment + padding)[..k];
      && ip[0] == header[0] && ip[2] == header[2] && ip[3] == header[3] && ip[9] == header[9]
      && ip[12..16] == header[12..16] && ip[16..20] == header[16..20]
      && ip[|header|..end] == segment[..end - |header|]
  {
  }

  lemma DecodeCutHeader(d: Datagram, x: Extra, k: nat)
    requires Packs(d, x) && k < HeaderLength(x)
    ensures |IPHeader(d, x)| == HeaderLength(x)
    ensures DecodeIPv4(IPPacket(d, x)[..k]) == Skipped(if k < 20 then ShortIP else BadIHL)
  {
    HeaderParts(d, x);
    assert IPPacket(d, x)[..k] == IPHeader(d, x)[..k];
  }

  /** A packet cut short anywhere gives the payload as far as it was captured, whatever options, padding
      and other fields it has. */
  lemma DecodeCutPacket(d: Datagram, x: Extra, k: nat)
    requires Packs(d, x) && k <= TotalLength(d, x) + |x.padding|
    ensures |IPPacket(d, x)| == TotalLength(d, x) + |x.padding|
    ensures var header := HeaderLength(x);
      DecodeIPv4(IPPacket(d, x)[..k])
         == if k < 20 then Skipped(ShortIP)
            else if k < header then Skipped(BadIHL)
            else if k < header + 8 then Skipped(ShortUDP)
            else Udp(d.(payload := d.payload[..Min(k - header - 8, |d.payload|)]).Packet(0))
  {
    var header := HeaderLength(x);
    HeaderParts(d, x);
    if k < header {
      DecodeCutHeader(d, x, k);
    } else {
      var end := Min(TotalLength(d, x), k);
      CutParts(IPHeader(d, x), Segment(d, x), x.padding, k, end);
      assert DecodeIPv4(IPPacket(d, x)[..k]) == DecodeSegment(d.srcIP, d.dstIP, Segment(d, x)[..end - header]);
      if end - header >= 8 {
        DecodeCutSegment(d, x, end - header);
      }
    }
  }

  // ------------------------------------------------------------------------ VLAN tags

  ghost predicate VlanTags(tags: seq<Tag>) {
    forall i :: 0 <= i < |tags| ==> tags[i].tpid in {0x8100, 0x88a8} && tags[i].tci < 0x1_0000
  }

  /** The tags the loop takes off when i are off already: any 0x88a8, but 0x8100 only as
      one of the first two. */
  predicate Strippable(tags: seq<Tag>, i: nat) {
    forall j :: 0 <= j < |tags| ==> tags[j].tpid == 0x88a8 || i + j < 2
  }

  lemma StrippableCons(tags: seq<Tag>, i: nat)
    requires tags != []
    ensures Strippable(tags, i) <==> (tags[0].tpid == QINQ || i < 2) && Strippable(tags[1..], i + 1)
  {
    if Strippable(tags[1..], i + 1) {
      forall j | 0 < j < |tags| ensures tags[j].tpid == QINQ || i + j < 2 { assert tags[j] == tags[1..][j - 1]; }
    }
  }

  lemma {:induction false} TagBytesLength(tags: seq<Tag>)
    requires VlanTags(tags)
    ensures |TagBytes(tags)| == 4 * |tags|
  {
    if tags != [] {
      TagBytesLength(tags[1..]);
    }
  }

  /** From any point of the tag list on: the loop ends behind the tags at the ethertype
      of IPv4, or stops before them at the first tag it does not take off. */
  lemma {:induction false} StripFrom(data: seq<byte>, off: nat, tags: seq<Tag>, ip: seq<byte>, i: nat)
    requires VlanTags(tags) && 2 <= off <= |data|
    requires data[off - 2..] == TagBytes(tags) + PutU16(IPV4) + ip
    ensures var ethertype := StripTags(data, U16(data[off - 2], data[off - 1]), off, i);
      if Strippable(tags, i)
      then ethertype == Some((IPV4, off + 4 * |tags|)) && off + 4 * |tags| <= |data|
           && data[off + 4 * |tags|..] == ip
      else ethertype.Some? && ethertype.value.0 == VLAN
    decreases |tags|
  {
    var rest := data[off - 2..];
    assert data[off - 2] == rest[0] && data[off - 1] == rest[1];
    if tags == [] {
      assert rest == PutU16(IPV4) + ip;
      assert data[off..] == rest[2..] == ip;
    } else {
      TagBytesLength(tags);
      StrippableCons(tags, i);
      var more := TagBytes(tags[1..]) + PutU16(IPV4) + ip;
      assert rest == PutU16(tags[0].tpid) + PutU16(tags[0].tci) + more;
      assert data[off + 2..] == rest[4..] == more;
      if tags[0].tpid == QINQ || i < 2 {
        StripFrom(data, off + 4, tags[1..], ip, i + 1);
      }
    }
  }

  /** A tagged frame decodes like the untagged one exactly when its tags can all be taken
      off; otherwise it is skipped. So any number of 0x88a8 tags goes, not just two. */
  lemma TaggedDecodesLikePlain(macs: seq<byte>, tags: seq<Tag>, ip: seq<byte>)
    requires |macs| == 12 && VlanTags(tags)
    ensures Decode(TaggedFrame(macs, tags, ip), 1)
         == if Strippable(tags, 0) then DecodeIPv4(ip) else Skipped(NonIPv4Ethertype)
  {
    var data := TaggedFrame(macs, tags, ip);
    TagBytesLength(tags);
    assert data[12..] == TagBytes(tags) + PutU16(IPV4) + ip;
    StripFrom(data, 14, tags, ip, 0);
  }

  /** Three 0x88a8 tags are taken off, three 0x8100 tags are not. */
  lemma StrippableExamples()
    ensures Strippable([Tag(0x88a8, 1), Tag(0x88a8, 2), Tag(0x88a8, 3)], 0)
    ensures !Strippable([Tag(0x8100, 1), Tag(0x8100, 2), Tag(0x8100, 3)], 0)
  {
    var v := [Tag(VLAN, 1), Tag(VLAN, 2), Tag(VLAN, 3)];
    assert v[2].tpid == VLAN;
  }

  // ---------------------------------------------------------------------- whole files

  datatype Record = Record(sec: nat, usec: nat, original: nat, data: seq<byte>)
  {
    predicate Fits() {
      sec < 0x1_0000_0000 && usec < 0x1_0000_0000 && original < 0x1_0000_0000 && |data| < 0x1_0000_0000
    }
  }

  ghost predicate AllFit(rs: seq<Record>) {
    forall i :: 0 <= i < |rs| ==> rs[i].Fits()
  }

  function RecordBytes(bo: ByteOrder, r: Record): seq<byte>
    requires r.Fits()
  {
    PutU32(bo, r.sec) + PutU32(bo, r.usec) + PutU32(bo, |r.data|) + PutU32(bo, r.original) + r.data
  }

  function Concat(chunks: seq<seq<byte>>): seq<byte> {
    if chunks == [] then [] else chunks[0] + Concat(chunks[1..])
  }

  function Chunks(bo: ByteOrder, rs: seq<Record>): (chunks: seq<seq<byte>>)
    requires AllFit(rs)
    ensures |chunks| == |rs|
  {
    seq(|rs|, i requires 0 <= i < |rs| => RecordBytes(bo, rs[i]))
  }

  /** A capture file; `fill` is the part of the global header that is not read. */
  function WritePcap(bo: ByteOrder, fill: seq<byte>, network: nat, rs: seq<Record>): seq<byte>
    requires |fill| == 16 && network < 0x1_0000_0000 && AllFit(rs)
  {
    Magic(bo) + fill + PutU32(bo, network) + Concat(Chunks(bo, rs))
  }

  /** What the records hold for this port, in order, if none of them panics. */
  function Wanted(rs: seq<Record>, decode: seq<byte> -> Decoded, port: int): seq<UdpPacket> {
    if rs == [] then []
    else Kept(decode(rs[0].data), Stamp(rs[0].sec, rs[0].usec), port) + Wanted(rs[1..], decode, port)
  }

  predicate AnyPanics(rs: seq<Record>, decode: seq<byte> -> Decoded) {
    exists i :: 0 <= i < |rs| && decode(rs[i].data) == Panics
  }

  /** The reader finds r in these bytes. */
  ghost predicate Reads(bo: ByteOrder, bytes: seq<byte>, r: Record) {
    && |bytes| == 16 + |r.data|
    && U32(bo, bytes[0..4]) == r.sec && U32(bo, bytes[4..8]) == r.usec && U32(bo, bytes[8..12]) == |r.data|
    && bytes[16..] == r.data
  }

  lemma RecordReads(bo: ByteOrder, r: Record)
    requires r.Fits()
    ensures Reads(bo, RecordBytes(bo, r), r)
  {
    var bytes := RecordBytes(bo, r);
    assert bytes[0..4] == PutU32(bo, r.sec) && bytes[4..8] == PutU32(bo, r.usec);
    assert bytes[8..12] == PutU32(bo, |r.data|);
  }

  lemma OneRecord(bo: ByteOrder, bytes: seq<byte>, r: Record, tail: seq<byte>, decode: seq<byte> -> Decoded, port: int,
                  ps: seq<UdpPacket>)
    requires Reads(bo, bytes, r)
    ensures Records(bo, bytes + tail, decode, port, ps)
         == if decode(r.data) == Panics then Panicked
            else Records(bo, tail, decode, port, ps + Kept(decode(r.data), Stamp(r.sec, r.usec), port))
  {
    var rest := bytes + tail;
    assert rest[0..4] == bytes[0..4] && rest[4..8] == bytes[4..8] && rest[8..12] == bytes[8..12];
    assert rest[16..16 + |r.data|] == r.data && rest[16 + |r.data|..] == tail;
  }

  lemma PanicsCons(rs: seq<Record>, decode: seq<byte> -> Decoded)
    requires rs != []
    ensures AnyPanics(rs, decode) <==> decode(rs[0].data) == Panics || AnyPanics(rs[1..], decode)
  {
    if AnyPanics(rs[1..], decode) {
      var i :| 0 <= i < |rs[1..]| && decode(rs[1..][i].data) == Panics;
      assert rs[i + 1] == rs[1..][i];
    }
  }

  lemma Associative<T>(a: seq<T>, b: seq<T>, c: seq<T>)
    ensures a + b + c == a + (b + c) && [] + a == a && a + [] == a && [] + c == c && b + [] == b
  {
  }

  /** Reading well-framed records, whatever their frames hold, and then some more bytes. */
  lemma {:induction false} RecordsOfChunks(bo: ByteOrder, chunks: seq<seq<byte>>, rs: seq<Record>, tail: seq<byte>,
                                           decode: seq<byte> -> Decoded, port: int, ps: seq<UdpPacket>)
    requires |chunks| == |rs| && forall i :: 0 <= i < |rs| ==> Reads(bo, chunks[i], rs[i])
    ensures Records(bo, Concat(chunks) + tail, decode, port, ps)
         == if AnyPanics(rs, decode) then Panicked
            else Records(bo, tail, decode, port, ps + Wanted(rs, decode, port))
    decreases |rs|
  {
    if rs == [] {
      Associative([], [], tail);
      Associative([], ps, []);
    } else {
      var kept := Kept(decode(rs[0].data), Stamp(rs[0].sec, rs[0].usec), port);
      Associative(chunks[0], Concat(chunks[1..]), tail);
      OneRecord(bo, chunks[0], rs[0], Concat(chunks[1..]) + tail, decode, port, ps);
      PanicsCons(rs, decode);
      RecordsOfChunks(bo, chunks[1..], rs[1..], tail, decode, port, ps + kept);
      Associative(ps, kept, Wanted(rs[1..], decode, port));
    }
  }

  lemma ChunksRead(bo: ByteOrder, rs: seq<Record>)
    requires AllFit(rs)
    ensures forall i :: 0 <= i < |rs| ==> Reads(bo, Chunks(bo, rs)[i], rs[i])
  {
    forall i | 0 <= i < |rs| ensures Reads(bo, Chunks(bo, rs)[i], rs[i]) {
      RecordReads(bo, rs[i]);
    }
  }

  /** The magic is one number, written in the byte order of the file; ... */
  lemma MagicIsNumber()
    ensures PutU32(Big, 0xa1b2c3d4) == [0xa1, 0xb2, 0xc3, 0xd4] == Magic(Big)
    ensures PutU32(Little, 0xa1b2c3d4) == [0xd4, 0xc3, 0xb2, 0xa1] == Magic(Little)
  {
    assert 0xa1b2c3d4 / 0x1_0000 == 0xa1b2 && 0xa1b2c3d4 % 0x1_0000 == 0xc3d4;
    assert PutU16(0xa1b2) == [0xa1, 0xb2] && PutU16(0xc3d4) == [0xc3, 0xd4];
  }

  /** ... without it, or with less than a global header, there is nothing to read. */
  lemma NoCapture(file: seq<byte>, port: int)
    requires |file| < 24 || !([0xa1, 0xb2, 0xc3, 0xd4] <= file || [0xd4, 0xc3, 0xb2, 0xa1] <= file)
    ensures ReadFile(file, port) == ReadError
  {
    if |file| >= 4 && (file[..4] == Magic(Big) || file[..4] == Magic(Little)) {
      assert file[..4] <= file;
    }
  }

  lemma WrittenFileHeader(bo: ByteOrder, fill: seq<byte>, network: nat, body: seq<byte>, port: int)
    requires |fill| == 16 && network < 0x1_0000_0000
    ensures ReadFile(Magic(bo) + fill + PutU32(bo, network) + body, port) == Records(bo, body, Decoder(network), port, [])
  {
    var file := Magic(bo) + fill + PutU32(bo, network) + body;
    assert file[..4] == Magic(bo) && file[20..24] == PutU32(bo, network) && file[24..] == body;
    assert Magic(Little)[0] != Magic(Big)[0];
  }

  /** A well-framed file is never an error: it panics exactly when one of its frames
      does, and otherwise gives what the frames hold, skipping those that do not decode. */
  lemma ReadWritten(bo: ByteOrder, fill: seq<byte>, network: nat, rs: seq<Record>, port: int)
    requires |fill| == 16 && network < 0x1_0000_0000 && AllFit(rs)
    ensures ReadFile(WritePcap(bo, fill, network, rs), port)
         == if AnyPanics(rs, Decoder(network)) then Panicked else Packets(Wanted(rs, Decoder(network), port))
  {
    var chunks := Chunks(bo, rs);
    ChunksRead(bo, rs);
    WrittenFileHeader(bo, fill, network, Concat(chunks), port);
    RecordsOfChunks(bo, chunks, rs, [], Decoder(network), port, []);
    assert Concat(chunks) + [] == Concat(chunks);
    assert [] + Wanted(rs, Decoder(network), port) == Wanted(rs, Decoder(network), port);
  }

  lemma CutRecord(bo: ByteOrder, bytes: seq<byte>, r: Record, k: nat, decode: seq<byte> -> Decoded, port: int,
                  ps: seq<UdpPacket>)
    requires Reads(bo, bytes, r) && 0 < k < |bytes|
    ensures Records(bo, bytes[..k], decode, port, ps) == ReadError
  {
    if k >= 16 {
      assert bytes[..k][8..12] == bytes[8..12];
    }
  }

  /** A file cut off inside a record is an error as a whole, if reading gets that far. */
  lemma ReadCut(bo: ByteOrder, fill: seq<byte>, network: nat, rs: seq<Record>, r: Record, k: nat, port: int)
    requires |fill| == 16 && network < 0x1_0000_0000 && AllFit(rs) && r.Fits()
    requires 0 < k < |RecordBytes(bo, r)|
    ensures ReadFile(WritePcap(bo, fill, network, rs) + RecordBytes(bo, r)[..k], port)
         == if AnyPanics(rs, Decoder(network)) then Panicked else ReadError
  {
    var part, decode, chunks := RecordBytes(bo, r)[..k], Decoder(network), Chunks(bo, rs);
    RecordReads(bo, r);
    ChunksRead(bo, rs);
    CutRecord(bo, RecordBytes(bo, r), r, k, decode, port, [] + Wanted(rs, decode, port));
    RecordsOfChunks(bo, chunks, rs, part, decode, port, []);
    WrittenFileHeader(bo, fill, network, Concat(chunks) + part, port);
    assert Magic(bo) + fill + PutU32(bo, network) + Concat(chunks) + part
        == Magic(bo) + fill + PutU32(bo, network) + (Concat(chunks) + part);
  }

  // --------------------------------------------------------------------- the round trip

  datatype Captured = Captured(sec: nat, usec: nat, d: Datagram, x: Extra)
  {
    predicate Fits() {
      sec < 0x1_0000_0000 && usec < 0x1_0000_0000 && Packs(d, x)
    }
  }

  ghost predicate AllCaptured(cs: seq<Captured>) {
    forall i :: 0 <= i < |cs| ==> cs[i].Fits()
  }

  lemma DecodeWhole(d: Datagram, x: Extra)
    requires Packs(d, x)
    ensures DecodeIPv4(IPPacket(d, x)) == Udp(d.Packet(0)) && |IPPacket(d, x)| == TotalLength(d, x) + |x.padding|
  {
    var n := TotalLength(d, x) + |x.padding|;
    DecodeCutPacket(d, x, n);
    assert IPPacket(d, x)[..n] == IPPacket(d, x);
    assert d.payload[..|d.payload|] == d.payload && d.(payload := d.payload) == d;
  }

  lemma DecodeCooked(d: Datagram, x: Extra)
    requires Packs(d, x)
    ensures Decode(CookedFrame(d, x), 113) == DecodeIPv4(IPPacket(d, x))
    ensures |CookedFrame(d, x)| == 16 + |IPPacket(d, x)|
  {
    var frame := CookedFrame(d, x);
    assert frame[14] == 8 && frame[15] == 0 && frame[16..] == IPPacket(d, x);
  }

  lemma DecodeFrame(network: nat, d: Datagram, x: Extra)
    requires Supported(network) && Packs(d, x)
    ensures Decode(FrameOn(network, d, x), network) == Udp(d.Packet(0))
    ensures |FrameOn(network, d, x)| < 0x1_0000_0000
  {
    DecodeWhole(d, x);
    if network == 1 {
      TaggedDecodesLikePlain(d.dstMAC + d.srcMAC, [], IPPacket(d, x));
    } else if network == 113 {
      DecodeCooked(d, x);
    }
  }

  function Framed(network: nat, cs: seq<Captured>): (rs: seq<Record>)
    requires AllCaptured(cs)
    ensures |rs| == |cs|
  {
    seq(|cs|, i requires 0 <= i < |cs| =>
      Record(cs[i].sec, cs[i].usec, |FrameOn(network, cs[i].d, cs[i].x)|, FrameOn(network, cs[i].d, cs[i].x)))
  }

  /** The datagrams to or from the port, with the times in nanoseconds that they were captured at. */
  function OnWire(cs: seq<Captured>, port: int): seq<UdpPacket> {
    if cs == [] then []
    else
      var Captured(sec, usec, d, _) := cs[0];
      (if d.srcPort == port || d.dstPort == port
       then [UdpPacket(sec * 1_000_000_000 + usec * 1000, d.srcIP, d.srcPort, d.dstIP, d.dstPort, d.payload)]
       else [])
      + OnWire(cs[1..], port)
  }

  /** Each record was captured when it says and decodes to its datagram. */
  ghost predicate Carry(rs: seq<Record>, cs: seq<Captured>, decode: seq<byte> -> Decoded) {
    && |rs| == |cs|
    && forall i {:trigger rs[i]} :: 0 <= i < |rs| ==>
         rs[i].sec == cs[i].sec && rs[i].usec == cs[i].usec && decode(rs[i].data) == Udp(cs[i].d.Packet(0))
  }

  lemma FramedCarry(network: nat, cs: seq<Captured>)
    requires Supported(network) && AllCaptured(cs)
    ensures AllFit(Framed(network, cs)) && Carry(Framed(network, cs), cs, Decoder(network))
    ensures !AnyPanics(Framed(network, cs), Decoder(network))
  {
    var rs := Framed(network, cs);
    forall i | 0 <= i < |cs| ensures rs[i].Fits() && Decoder(network)(rs[i].data) == Udp(cs[i].d.Packet(0)) {
      DecodeFrame(network, cs[i].d, cs[i].x);
    }
  }

  lemma {:induction false} CarriedOnWire(rs: seq<Record>, cs: seq<Captured>, decode: seq<byte> -> Decoded, port: int)
    requires Carry(rs, cs, decode)
    ensures Wanted(rs, decode, port) == OnWire(cs, port)
  {
    if cs != [] {
      CarriedOnWire(rs[1..], cs[1..], decode, port);
      assert rs[0].sec == cs[0].sec;
    }
  }

  /** Reading a capture of any list of UDP datagrams, on each kind of link and in frames of any shape,
      gives back exactly those on the wanted port, in order and unchanged, in either byte order. */
  lemma CaptureRoundTrip(bo: ByteOrder, fill: seq<byte>, network: nat, cs: seq<Captured>, port: int)
    requires |fill| == 16 && Supported(network) && AllCaptured(cs)
    ensures AllFit(Framed(network, cs))
    ensures ReadFile(WritePcap(bo, fill, network, Framed(network, cs)), port) == Packets(OnWire(cs, port))
  {
    FramedCarry(network, cs);
    ReadWritten(bo, fill, network, Framed(network, cs), port);
    CarriedOnWire(Framed(network, cs), cs, Decoder(network), port);
  }

  /** An otherwise plain UDP packet whose total length is less than its own header. */
  predicate TotalTooShort(data: seq<byte>) {
    && |data| >= 20 && data[0] / 16 == 4 && 20 <= data[0] % 16 * 4 <= |data| && data[9] == 17
    && U16(data[2], data[3]) < data[0] % 16 * 4
  }

  /** The IPv4 packet that a frame carries: what follows the link header, if that announces one. */
  function Carried(network: nat, data: seq<byte>): Option<seq<byte>> {
    if network == ETHERNET then
      if |data| < 14 then None
      else match StripTags(data, U16(data[12], data[13]), 14, 0)
        case None => None
        case Some((ethertype, off)) => if ethertype == IPV4 && off <= |data| then Some(data[off..]) else None
    else if network == LINUX_SLL then
      if |data| >= 16 && U16(data[14], data[15]) == IPV4 then Some(data[16..]) else None
    else if network == RAW then Some(data)
    else None
  }

  /** A frame whose packet is of that kind. */
  predicate CarriesTooShort(network: nat, data: seq<byte>) {
    Carried(network, data).Some? && TotalTooShort(Carried(network, data).value)
  }

  lemma DecodePanicsIff(network: nat, data: seq<byte>)
    ensures Decode(data, network) == Panics <==> CarriesTooShort(network, data)
  {
    if network == ETHERNET && |data| >= 14 {
      StripStaysInside(data, U16(data[12], data[13]), 14, 0);
    }
  }

  /** Damaged packets are meant to be skipped, but one kind stops the whole run: reading a capture
      of any link type panics exactly when one of its frames carries a packet of that kind. */
  lemma ReadPanicsIff(bo: ByteOrder, fill: seq<byte>, network: nat, rs: seq<Record>, port: int)
    requires |fill| == 16 && network < 0x1_0000_0000 && AllFit(rs)
    ensures ReadFile(WritePcap(bo, fill, network, rs), port) == Panicked
       <==> exists i :: 0 <= i < |rs| && CarriesTooShort(network, rs[i].data)
  {
    ReadWritten(bo, fill, network, rs, port);
    PanicsIffCarried(network, rs);
  }

  lemma PanicsIffCarried(network: nat, rs: seq<Record>)
    ensures AnyPanics(rs, Decoder(network)) <==> exists i :: 0 <= i < |rs| && CarriesTooShort(network, rs[i].data)
  {
    forall i | 0 <= i < |rs| ensures Decoder(network)(rs[i].data) == Panics <==> CarriesTooShort(network, rs[i].data) {
      DecodePanicsIff(network, rs[i].data);
    }
  }

  /** Such a packet exists, here in an Ethernet frame. */
  lemma TotalTooShortExample(macs: seq<byte>) returns (frame: seq<byte>)
    requires |macs| == 12
    ensures frame == macs + [8, 0] + [0x45, 0, 0, 19, 0, 0, 0, 0, 64, 17, 0, 0, 10, 0, 0, 1, 10, 0, 0, 2]
    ensures CarriesTooShort(ETHERNET, frame) && Decode(frame, ETHERNET) == Panics
  {
    var ip: seq<byte> := [0x45, 0, 0, 19, 0, 0, 0, 0, 64, 17, 0, 0, 10, 0, 0, 1, 10, 0, 0, 2];
    frame := macs + [8, 0] + ip;
    assert frame == TaggedFrame(macs, [], ip);
    TaggedDecodesLikePlain(macs, [], ip);
    DecodePanicsIff(ETHERNET, frame);
  }
}
