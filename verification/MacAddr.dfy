/** One MAC format across the program (package macaddr). */
module MacAddr {
  import opened Prelude

  /** unicode.ToUpper, as far as it can yield a hex digit: no character outside
      ASCII has an upper case among 0-9 and A-F. */
  function Upper(c: char): char {
    if 'a' <= c <= 'z' then (c as int - 32) as char else c
  }

  function UpperText(s: string): string {
    seq(|s|, i requires 0 <= i < |s| => Upper(s[i]))
  }

  predicate IsHex(c: char) {
    '0' <= c <= '9' || 'A' <= c <= 'F'
  }

  predicate AllHex(s: string) {
    forall i :: 0 <= i < |s| ==> IsHex(s[i])
  }

  /** The hex digits of s in upper case, everything else dropped. */
  function HexDigits(s: string): string {
    Filter(UpperText(s), IsHex)
  }

  /** A colon after every second character but the last. */
  function Colons(h: string): string {
    if |h| <= 2 then h else h[..2] + ":" + Colons(h[2..])
  }

  function Canonical(s: string): string {
    var h := HexDigits(s);
    if |h| == 12 then Colons(h) else h
  }

  lemma {:induction false} ColonsSnoc(h: string, p: string)
    requires h != "" && |h| % 2 == 0 && |p| == 2
    ensures Colons(h + p) == Colons(h) + ":" + p
  {
    assert (h + p)[..2] == h[..2] && (h + p)[2..] == h[2..] + p;
    if |h| == 2 {
      assert h[2..] + p == p;
    } else {
      ColonsSnoc(h[2..], p);
    }
  }

  method Normalize(mac: string) returns (r: string)
    ensures r == Canonical(mac)
  {
    var hexStr := "";
    ghost var upper := UpperText(mac);
    for i := 0 to |mac|
      invariant hexStr == Filter(upper[..i], IsHex)
    {
      assert upper[..i + 1][..i] == upper[..i];
      if IsHex(Upper(mac[i])) {
        hexStr := hexStr + [Upper(mac[i])];
      }
    }
    assert upper[..|mac|] == upper;
    if |hexStr| != 12 {
      return hexStr;
    }
    r := "";
    var i := 0;
    while i < 12
      invariant 0 <= i <= 12 && i % 2 == 0
      invariant r == Colons(hexStr[..i])
    {
      assert hexStr[..i + 2] == hexStr[..i] + hexStr[i..i + 2];
      if i > 0 {
        ColonsSnoc(hexStr[..i], hexStr[i..i + 2]);
        r := r + ":";
      }
      r := r + hexStr[i..i + 2];
      i := i + 2;
    }
    assert hexStr[..12] == hexStr;
  }

  lemma UpperTextConcat(s: string, t: string)
    ensures UpperText(s + t) == UpperText(s) + UpperText(t)
  {
  }

  lemma HexDigitsConcat(s: string, t: string)
    ensures HexDigits(s + t) == HexDigits(s) + HexDigits(t)
  {
    UpperTextConcat(s, t);
    FilterConcat(UpperText(s), UpperText(t), IsHex);
  }

  lemma HexDigitsAreHex(s: string)
    ensures AllHex(HexDigits(s))
  {
    FilterMembers(UpperText(s), IsHex);
    forall i | 0 <= i < |HexDigits(s)| ensures IsHex(HexDigits(s)[i]) {
      assert HexDigits(s)[i] in HexDigits(s);
    }
  }

  lemma HexDigitsOfHex(h: string)
    requires AllHex(h)
    ensures HexDigits(h) == h
  {
    assert UpperText(h) == h;
    FilterAll(h, IsHex);
  }

  lemma {:induction false} HexDigitsOfColons(h: string)
    requires AllHex(h)
    ensures HexDigits(Colons(h)) == h
  {
    HexDigitsOfHex(h[..if |h| <= 2 then |h| else 2]);
    if |h| <= 2 {
      assert h[..|h|] == h;
    } else {
      HexDigitsConcat(h[..2] + ":", Colons(h[2..]));
      HexDigitsConcat(h[..2], ":");
      assert HexDigits(":") == "" by { assert UpperText(":") == ":"; }
      HexDigitsOfColons(h[2..]);
    }
  }

  /** Normalizing keeps every hex digit, and nothing else of the input. */
  lemma CanonicalKeepsDigits(s: string)
    ensures HexDigits(Canonical(s)) == HexDigits(s)
  {
    HexDigitsAreHex(s);
    HexDigitsOfColons(HexDigits(s));
    HexDigitsOfHex(HexDigits(s));
  }

  lemma CanonicalIdempotent(s: string)
    ensures Canonical(Canonical(s)) == Canonical(s)
  {
    CanonicalKeepsDigits(s);
  }

  /** Two notations normalize alike exactly when their hex digits agree. */
  lemma AlikeIffSameDigits(a: string, b: string)
    ensures Canonical(a) == Canonical(b) <==> HexDigits(a) == HexDigits(b)
  {
    CanonicalKeepsDigits(a);
    CanonicalKeepsDigits(b);
  }

  // ---------------------------------------------------- what the normal form consists of

  type Hex = d: nat | d < 16

  const LOWER_HEX := "0123456789abcdef"
  const UPPER_HEX := "0123456789ABCDEF"

  /** c is the hex digit for d, in either case. */
  predicate DigitFor(c: char, d: Hex) {
    c == LOWER_HEX[d] || c == UPPER_HEX[d]
  }

  predicate IsHexDigit(c: char) {
    c in LOWER_HEX || c in UPPER_HEX
  }

  /** What a hex digit of either case counts. */
  function HexValue(c: char): Hex {
    if '0' <= c <= '9' then c as int - 48
    else if 'a' <= c <= 'f' then c as int - 87
    else if 'A' <= c <= 'F' then c as int - 55
    else 0
  }

  lemma HexDigitIs(c: char)
    ensures IsHexDigit(c) <==> IsHex(Upper(c))
    ensures IsHexDigit(c) ==> DigitFor(c, HexValue(c)) && Upper(c) == UPPER_HEX[HexValue(c)]
  {
    assert IsHex(Upper(c)) ==> DigitFor(c, HexValue(c)) && Upper(c) == UPPER_HEX[HexValue(c)];
    forall e: Hex ensures IsHex(Upper(LOWER_HEX[e])) && IsHex(Upper(UPPER_HEX[e])) {}
  }

  /** Where the k-th digit of twelve stands in the colon form. */
  lemma {:induction false} ColonsAt(h: string, k: nat)
    requires k < |h| && |h| % 2 == 0
    ensures |Colons(h)| == |h| + |h| / 2 - 1 && Colons(h)[k + k / 2] == h[k]
    ensures k % 2 == 1 && k + 1 < |h| ==> Colons(h)[k + k / 2 + 1] == ':'
  {
    if |h| > 2 {
      assert Colons(h) == h[..2] + ":" + Colons(h[2..]);
      ColonsAt(h[2..], if k < 2 then 0 else k - 2);
      if k >= 2 {
        assert k + k / 2 == 3 + (k - 2) + (k - 2) / 2;
      }
    }
  }

  function HexIn(s: string): nat -> bool {
    (i: nat) => i < |s| && IsHexDigit(s[i])
  }

  lemma HexPositions(s: string) returns (at: seq<nat>)
    ensures Positions(at, |s|, HexIn(s)) && |HexDigits(s)| == |at|
    ensures forall k {:trigger at[k]} :: 0 <= k < |at| ==> HexDigits(s)[k] == Upper(s[at[k]])
  {
    var u := UpperText(s);
    at := FilterPositions(u, IsHex);
    forall i: nat ensures Where(u, IsHex)(i) == HexIn(s)(i) {
      if i < |s| { HexDigitIs(s[i]); }
    }
  }

  /** The digits at these positions, in upper case. */
  function DigitsAt(s: string, at: seq<nat>): string
    requires forall k :: 0 <= k < |at| ==> at[k] < |s|
  {
    seq(|at|, k requires 0 <= k < |at| => UPPER_HEX[HexValue(s[at[k]])])
  }

  /** What a text normalizes to is made of its hex digits in either case, whatever lies between them:
      twelve digits in pairs with colons, any other number of them bare. */
  lemma CanonicalText(s: string) returns (at: seq<nat>)
    ensures Positions(at, |s|, HexIn(s))
    ensures var h := DigitsAt(s, at);
      Canonical(s) == if |at| != 12 then h
                      else h[0..2] + ":" + (h[2..4] + ":" + (h[4..6] + ":" + (h[6..8] + ":" + (h[8..10] + ":" + h[10..12]))))
  {
    at := HexPositions(s);
    var h := DigitsAt(s, at);
    forall k | 0 <= k < |at| ensures HexDigits(s)[k] == h[k] {
      assert HexIn(s)(at[k]);
      HexDigitIs(s[at[k]]);
    }
    assert HexDigits(s) == h;
    if |at| == 12 {
      ColonsOfTwelve(h);
    }
  }

  lemma ColonsOfTwelve(h: string)
    requires |h| == 12
    ensures Colons(h)
         == h[0..2] + ":" + (h[2..4] + ":" + (h[4..6] + ":" + (h[6..8] + ":" + (h[8..10] + ":" + h[10..12]))))
  {
    var t2, t4, t6, t8, t10 := h[2..], h[4..], h[6..], h[8..], h[10..];
    assert t2[2..] == t4 && t4[2..] == t6 && t6[2..] == t8 && t8[2..] == t10;
    assert t2[..2] == h[2..4] && t4[..2] == h[4..6] && t6[..2] == h[6..8] && t8[..2] == h[8..10] && t10 == h[10..12];
    assert Colons(t8) == h[8..10] + ":" + h[10..12];
    assert Colons(t6) == h[6..8] + ":" + Colons(t8);
    assert Colons(t4) == h[4..6] + ":" + Colons(t6);
    assert Colons(t2) == h[2..4] + ":" + Colons(t4);
    assert Colons(h) == h[0..2] + ":" + Colons(t2);
  }

  predicate HasHexDigit(s: string) {
    exists i :: 0 <= i < |s| && IsHexDigit(s[i])
  }

  /** A text normalizes to nothing exactly if it holds no hex digit. */
  lemma CanonicalEmptyIff(s: string)
    ensures Canonical(s) == "" <==> !HasHexDigit(s)
  {
    var at := CanonicalText(s);
    if at != [] { assert HexIn(s)(at[0]); }
    if i :| 0 <= i < |s| && IsHexDigit(s[i]) { assert HexIn(s)(i); assert i in at; }
  }

  /** Keys are built with '|' and records with ';': neither occurs in a normal MAC. */
  lemma CanonicalAlphabet(s: string, c: char)
    requires c in Canonical(s)
    ensures IsHex(c) || c == ':'
  {
    HexDigitsAreHex(s);
    ColonsAlphabet(HexDigits(s), c);
  }

  lemma {:induction false} ColonsAlphabet(h: string, c: char)
    ensures c in Colons(h) ==> c in h || c == ':'
    ensures |h| % 2 == 0 && h != "" ==> |Colons(h)| == |h| / 2 * 3 - 1
  {
    if |h| > 2 {
      ColonsAlphabet(h[2..], c);
    }
  }

  lemma ColonsHasColon(h: string)
    requires AllHex(h) && |h| > 2
    ensures ':' in Colons(h)
  {
    assert Colons(h)[2] == ':';
  }

  /** string(bytes), one character a byte: a byte that is not ASCII is no hex digit
      either way, which is all that matters here. */
  function Chars(bytes: seq<byte>): string {
    seq(|bytes|, i requires 0 <= i < |bytes| => bytes[i] as char)
  }

  function HexChar(d: nat): char
    requires d < 16
  {
    if d < 10 then ('0' as int + d) as char else ('a' as int + d - 10) as char
  }

  /** hex.EncodeToString */
  function HexText(bytes: seq<byte>): string {
    if bytes == [] then ""
    else [HexChar(bytes[0] / 16), HexChar(bytes[0] % 16)] + HexText(bytes[1..])
  }

  function FromRemoteID(remoteID: seq<byte>): string {
    if |remoteID| == 17 && Canonical(Chars(remoteID)) == UpperText(Chars(remoteID)) then
      Canonical(Chars(remoteID))
    else if |remoteID| == 8 then Canonical(HexText(remoteID[2..8]))
    else if |remoteID| == 6 || |remoteID| == 18 then Canonical(HexText(remoteID[0..6]))
    else ""
  }

  /** A MAC in the one printed form: six pairs of upper-case digits. */
  ghost predicate IsColonMac(s: string) {
    exists h: string :: AllHex(h) && |h| == 12 && s == Colons(h)
  }

  lemma {:induction false} HexTextDigits(bytes: seq<byte>)
    ensures |HexText(bytes)| == 2 * |bytes|
    ensures AllHex(UpperText(HexText(bytes)))
  {
    if bytes != [] {
      HexTextDigits(bytes[1..]);
      var pair := [HexChar(bytes[0] / 16), HexChar(bytes[0] % 16)];
      UpperTextConcat(pair, HexText(bytes[1..]));
    }
  }

  /** These bytes spell the MAC in ASCII, in either case, with colons. */
  ghost predicate TextOf(text: seq<byte>, mac: seq<byte>)
    requires |text| == 17 && |mac| == 6
  {
    && (forall i :: 0 <= i < 6 ==>
         DigitFor(text[3 * i] as char, mac[i] / 16) && DigitFor(text[3 * i + 1] as char, mac[i] % 16))
    && (forall i :: 0 <= i < 5 ==> text[3 * i + 2] == 58)
  }

  lemma UpperOfDigit(c: char, d: Hex)
    requires DigitFor(c, d)
    ensures Upper(c) == UPPER_HEX[d]
  {
  }

  lemma TextTriple(text: seq<byte>, mac: seq<byte>, i: nat)
    requires |text| == 17 && |mac| == 6 && TextOf(text, mac) && i < 6
    ensures |FromRemoteID(mac)| == 17
    ensures Upper(text[3 * i] as char) == FromRemoteID(mac)[3 * i]
    ensures Upper(text[3 * i + 1] as char) == FromRemoteID(mac)[3 * i + 1]
    ensures i < 5 ==> Upper(text[3 * i + 2] as char) == FromRemoteID(mac)[3 * i + 2]
  {
    RawDigits(mac, i);
    UpperOfDigit(text[3 * i] as char, mac[i] / 16);
    UpperOfDigit(text[3 * i + 1] as char, mac[i] % 16);
  }

  lemma TextUpper(text: seq<byte>, mac: seq<byte>)
    requires |text| == 17 && |mac| == 6 && TextOf(text, mac)
    ensures UpperText(Chars(text)) == FromRemoteID(mac)
  {
    TextTriple(text, mac, 0);
    forall j | 0 <= j < 17 ensures Upper(text[j] as char) == FromRemoteID(mac)[j] {
      TextTriple(text, mac, j / 3);
      assert j == 3 * (j / 3) || j == 3 * (j / 3) + 1 || j == 3 * (j / 3) + 2;
    }
  }

  lemma TextForm(text: seq<byte>, mac: seq<byte>)
    requires |text| == 17 && |mac| == 6 && TextOf(text, mac)
    ensures FromRemoteID(text) == FromRemoteID(mac)
  {
    var t := Chars(text);
    RawForm(mac);
    TextUpper(text, mac);
    assert UpperText(UpperText(t)) == UpperText(t);
    assert HexDigits(t) == HexDigits(UpperText(t));
    CanonicalIdempotent(HexText(mac));
    assert Canonical(t) == Canonical(UpperText(t));
  }

  /** The raw, the headed, the padded and the text form of one MAC all give the
      same colon MAC. */
  lemma RemoteIDFormsAgree(mac: seq<byte>, head: seq<byte>, garbage: seq<byte>, text: seq<byte>)
    requires |mac| == 6 && |head| == 2 && |garbage| == 12
    requires |text| == 17 && TextOf(text, mac)
    ensures IsColonMac(FromRemoteID(mac))
    ensures FromRemoteID(head + mac) == FromRemoteID(mac)
    ensures FromRemoteID(mac + garbage) == FromRemoteID(mac)
    ensures FromRemoteID(text) == FromRemoteID(mac)
  {
    assert mac[0..6] == mac && (head + mac)[2..8] == mac && (mac + garbage)[0..6] == mac;
    RawIsColonMac(mac);
    TextForm(text, mac);
  }

  lemma {:induction false} HexTextAt(bytes: seq<byte>, i: nat)
    requires i < |bytes|
    ensures |HexText(bytes)| == 2 * |bytes|
    ensures HexText(bytes)[2 * i] == LOWER_HEX[bytes[i] / 16] && HexText(bytes)[2 * i + 1] == LOWER_HEX[bytes[i] % 16]
  {
    HexTextDigits(bytes);
    if i > 0 { HexTextAt(bytes[1..], i - 1); }
  }

  lemma UpperOfLower(d: Hex)
    ensures Upper(LOWER_HEX[d]) == UPPER_HEX[d]
  {
  }

  lemma RawForm(mac: seq<byte>)
    requires |mac| == 6
    ensures FromRemoteID(mac) == Canonical(HexText(mac)) == Colons(UpperText(HexText(mac)))
    ensures AllHex(UpperText(HexText(mac))) && |HexText(mac)| == 12
  {
    var h := UpperText(HexText(mac));
    assert mac[0..6] == mac;
    HexTextDigits(mac);
    forall c | c in h ensures IsHex(c) {}
    FilterAll(h, IsHex);
  }

  /** Byte i of a raw MAC becomes its two digits, the high one first. */
  lemma RawDigits(mac: seq<byte>, i: nat)
    requires |mac| == 6 && i < 6
    ensures |FromRemoteID(mac)| == 17
    ensures FromRemoteID(mac)[3 * i] == UPPER_HEX[mac[i] / 16] && FromRemoteID(mac)[3 * i + 1] == UPPER_HEX[mac[i] % 16]
    ensures i < 5 ==> FromRemoteID(mac)[3 * i + 2] == ':'
  {
    var t := HexText(mac);
    HexTextAt(mac, i);
    RawForm(mac);
    UpperOfLower(mac[i] / 16);
    UpperOfLower(mac[i] % 16);
    ColonsAt(UpperText(t), 2 * i);
    ColonsAt(UpperText(t), 2 * i + 1);
    assert 2 * i + 2 * i / 2 == 3 * i && 2 * i + 1 + (2 * i + 1) / 2 == 3 * i + 1;
    assert UpperText(t)[2 * i] == UPPER_HEX[mac[i] / 16] && UpperText(t)[2 * i + 1] == UPPER_HEX[mac[i] % 16];
  }

  lemma RawIsColonMac(mac: seq<byte>)
    requires |mac| == 6
    ensures IsColonMac(Canonical(HexText(mac)))
  {
    RawForm(mac);
  }

  /** What FromRemoteID yields is empty or already normal, ... */
  lemma RemoteIDNormal(remoteID: seq<byte>)
    ensures Canonical(FromRemoteID(remoteID)) == FromRemoteID(remoteID)
  {
    CanonicalIdempotent(Chars(remoteID));
    if |remoteID| == 8 { CanonicalIdempotent(HexText(remoteID[2..8])); }
    if |remoteID| == 6 || |remoteID| == 18 { CanonicalIdempotent(HexText(remoteID[0..6])); }
    assert HexDigits("") == "";
  }

  /** ... but it is not always a colon MAC: 17 bare hex digits come back as they are. */
  lemma RemoteIDColonMacIff(remoteID: seq<byte>)
    ensures FromRemoteID(remoteID) == "" || IsColonMac(FromRemoteID(remoteID))
       <==> !(|remoteID| == 17 && AllHex(UpperText(Chars(remoteID))))
  {
    var t := Chars(remoteID);
    if |remoteID| == 17 {
      HexDigitsAreHex(t);
      if AllHex(UpperText(t)) {
        FilterAll(UpperText(t), IsHex);
        forall h: string | AllHex(h) && |h| == 12 ensures UpperText(t) != Colons(h) {
          ColonsHasColon(h);
        }
      } else if Canonical(t) == UpperText(t) {
        assert |HexDigits(t)| == 12 && Canonical(t) == Colons(HexDigits(t));
      }
    } else if |remoteID| == 8 {
      RawIsColonMac(remoteID[2..8]);
    } else if |remoteID| == 6 || |remoteID| == 18 {
      RawIsColonMac(remoteID[0..6]);
    }
  }

  /** Nothing comes of any other length. */
  lemma RemoteIDEmptyIff(remoteID: seq<byte>)
    ensures FromRemoteID(remoteID) == "" <==>
      |remoteID| !in {6, 8, 17, 18}
      || (|remoteID| == 17 && var upper := UpperText(Chars(remoteID)); !IsColonMac(upper) && !AllHex(upper))
  {
    if |remoteID| == 17 {
      RemoteIDTextAccepted(remoteID);
    } else if |remoteID| == 8 {
      RawIsColonMac(remoteID[2..8]);
    } else if |remoteID| == 6 || |remoteID| == 18 {
      RawIsColonMac(remoteID[0..6]);
    }
  }

  /** A 17-byte text is accepted exactly when it is a colon MAC in either case, or
      17 bare digits. */
  lemma RemoteIDTextAccepted(remoteID: seq<byte>)
    requires |remoteID| == 17
    ensures FromRemoteID(remoteID) != ""
       <==> var upper := UpperText(Chars(remoteID)); IsColonMac(upper) || AllHex(upper)
  {
    var upper := UpperText(Chars(remoteID));
    HexDigitsAreHex(Chars(remoteID));
    if AllHex(upper) {
      FilterAll(upper, IsHex);
    }
    forall h: string | AllHex(h) && |h| == 12 && upper == Colons(h)
      ensures Canonical(Chars(remoteID)) == upper
    {
      HexDigitsOfColons(h);
      assert UpperText(upper) == upper;
    }
  }
}
