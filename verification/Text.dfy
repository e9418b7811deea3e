/** The text functions of the Go library that the program leans on: decimal
    numbers, trimming, and splitting at a separator. */
module Text {
  const MAX_INT: int := 0x7fff_ffff_ffff_ffff
  const MIN_INT: int := -0x8000_0000_0000_0000
  const MAX_UINT: int := 0xffff_ffff_ffff_ffff

  predicate IsDigit(c: char) {
    '0' <= c <= '9'
  }

  function DigitOf(c: char): nat
    requires IsDigit(c)
  {
    c as int - '0' as int
  }

  function DigitChar(d: nat): char
    requires d < 10
  {
    ('0' as int + d) as char
  }

  function NatText(n: nat): string {
    if n < 10 then [DigitChar(n)] else NatText(n / 10) + [DigitChar(n % 10)]
  }

  /** strconv.Itoa */
  function Itoa(n: int): string {
    if n < 0 then "-" + NatText(-n) else NatText(n)
  }

  datatype Digits = Number(n: int) | BadSyntax | OutOfRange

  /** Reads decimal digits after the value `acc`, left to right. The library stops
      at the first digit that passes `max`, even when a later character is no digit. */
  function ScanDigits(s: string, acc: int, max: int): (r: Digits)
    requires 0 <= acc <= max
    ensures r.Number? ==> acc <= r.n <= max
  {
    if s == "" then Number(acc)
    else if !IsDigit(s[0]) then BadSyntax
    else
      var n := acc * 10 + DigitOf(s[0]);
      if n > max then OutOfRange else ScanDigits(s[1..], n, max)
  }

  datatype ParsedInt = ParsedInt(value: int, ok: bool)

  /** strconv.Atoi on a 64-bit machine: on a range error the value is the nearest
      limit, on a syntax error it is 0. */
  function Atoi(s: string): ParsedInt {
    var signed := s != "" && (s[0] == '-' || s[0] == '+');
    var digits := if signed then s[1..] else s;
    var negative := signed && s[0] == '-';
    if digits == "" then ParsedInt(0, false)
    else match ScanDigits(digits, 0, MAX_UINT)
      case BadSyntax => ParsedInt(0, false)
      case OutOfRange => ParsedInt(if negative then MIN_INT else MAX_INT, false)
      case Number(n) =>
        if negative then (if n > -MIN_INT then ParsedInt(MIN_INT, false) else ParsedInt(-n, true))
        else (if n > MAX_INT then ParsedInt(MAX_INT, false) else ParsedInt(n, true))
  }

  lemma AtoiRange(s: string)
    ensures MIN_INT <= Atoi(s).value <= MAX_INT
  {
  }

  lemma {:induction false} ScanConcat(s: string, t: string, acc: int, max: int)
    requires 0 <= acc <= max
    ensures ScanDigits(s + t, acc, max)
         == match ScanDigits(s, acc, max)
            case Number(n) => ScanDigits(t, n, max)
            case other => other
  {
    if s == "" {
      assert s + t == t;
    } else {
      assert (s + t)[1..] == s[1..] + t;
      if IsDigit(s[0]) && acc * 10 + DigitOf(s[0]) <= max {
        ScanConcat(s[1..], t, acc * 10 + DigitOf(s[0]), max);
      }
    }
  }

  lemma {:induction false} ScanNatText(n: nat, max: int)
    requires n <= max
    ensures ScanDigits(NatText(n), 0, max) == Number(n)
  {
    if n >= 10 {
      ScanNatText(n / 10, max);
      ScanConcat(NatText(n / 10), [DigitChar(n % 10)], 0, max);
    }
  }

  lemma NatTextDigits(n: nat)
    ensures NatText(n) != ""
    ensures forall i :: 0 <= i < |NatText(n)| ==> IsDigit(NatText(n)[i])
  {
  }

  lemma AtoiItoa(n: int)
    requires MIN_INT <= n <= MAX_INT
    ensures Atoi(Itoa(n)) == ParsedInt(n, true)
  {
    var m: nat := if n < 0 then -n else n;
    ScanNatText(m, MAX_UINT);
    NatTextDigits(m);
    if n < 0 {
      assert Itoa(n)[1..] == NatText(m);
    }
  }

  lemma ItoaInjective(m: int, n: int)
    requires Itoa(m) == Itoa(n)
    ensures m == n
  {
    var a: nat := if m < 0 then -m else m;
    var b: nat := if n < 0 then -n else n;
    NatTextDigits(a);
    NatTextDigits(b);
    assert (m < 0) == (n < 0) by {
      assert Itoa(m)[0] == Itoa(n)[0];
    }
    if m < 0 {
      assert Itoa(m)[1..] == NatText(a) && Itoa(n)[1..] == NatText(b);
    }
    ScanNatText(a, a + b);
    ScanNatText(b, a + b);
  }

  lemma ItoaAlphabet(n: int, c: char)
    requires c in Itoa(n)
    ensures IsDigit(c) || c == '-'
  {
    NatTextDigits(if n < 0 then -n else n);
  }

  // ------------------------------------------------------- what a row of digits stands for

  predicate AllDigits(s: string) {
    forall i :: 0 <= i < |s| ==> s[i] in "0123456789"
  }

  /** The number written in decimal, the last digit counting once. */
  function Decimal(s: string): int {
    if s == "" then 0 else Decimal(s[..|s| - 1]) * 10 + (s[|s| - 1] as int - 48)
  }

  /** Some of the leading characters are digits of a number beyond max. */
  ghost predicate Beyond(s: string, max: int) {
    exists k :: 0 <= k <= |s| && AllDigits(s[..k]) && Decimal(s[..k]) > max
  }

  lemma DigitChars(c: char)
    ensures IsDigit(c) <==> c in "0123456789"
    ensures IsDigit(c) ==> 0 <= c as int - 48 == DigitOf(c) <= 9
  {
    assert "0123456789"[0] == '0' && "0123456789"[1] == '1' && "0123456789"[2] == '2' && "0123456789"[3] == '3';
    assert "0123456789"[4] == '4' && "0123456789"[5] == '5' && "0123456789"[6] == '6' && "0123456789"[7] == '7';
    assert "0123456789"[8] == '8' && "0123456789"[9] == '9';
  }

  lemma AllDigitsNext(front: string, c: char)
    ensures AllDigits(front + [c]) <==> AllDigits(front) && IsDigit(c)
    ensures Decimal(front + [c]) == Decimal(front) * 10 + (c as int - 48)
  {
    DigitChars(c);
    var s := front + [c];
    assert s[..|front|] == front && s[|front|] == c;
    if AllDigits(s) {
      forall i | 0 <= i < |front| ensures front[i] in "0123456789" { assert s[i] == front[i]; }
    }
  }

  lemma BeyondNext(front: string, c: char, max: int)
    ensures Beyond(front + [c], max)
       <==> Beyond(front, max) || (AllDigits(front + [c]) && Decimal(front + [c]) > max)
  {
    var s := front + [c];
    forall k | 0 <= k <= |front| ensures s[..k] == front[..k] {}
    assert s[..|s|] == s;
    if Beyond(front, max) {
      var k :| 0 <= k <= |front| && AllDigits(front[..k]) && Decimal(front[..k]) > max;
      assert s[..k] == front[..k];
    }
  }

  lemma {:induction false} DecimalRange(s: string)
    requires AllDigits(s)
    ensures Decimal(s) >= 0
  {
    if s != "" {
      assert s == s[..|s| - 1] + [s[|s| - 1]];
      AllDigitsNext(s[..|s| - 1], s[|s| - 1]);
      DigitChars(s[|s| - 1]);
      DecimalRange(s[..|s| - 1]);
    }
  }

  /** What the scan finds: the number, unless some leading digits pass the limit first. */
  lemma {:induction false} ScanIs(s: string, max: int)
    requires 0 <= max
    ensures ScanDigits(s, 0, max)
         == if Beyond(s, max) then OutOfRange else if AllDigits(s) then Number(Decimal(s)) else BadSyntax
  {
    if s == "" {
      assert s[..0] == "";
    } else {
      var front, c := s[..|s| - 1], s[|s| - 1];
      assert s == front + [c];
      ScanIs(front, max);
      ScanConcat(front, [c], 0, max);
      AllDigitsNext(front, c);
      BeyondNext(front, c, max);
      DigitChars(c);
      if AllDigits(front) { DecimalRange(front); }
      assert [c][1..] == "";
    }
  }

  /** Digits behind a number make it no smaller. */
  lemma {:induction false} BeyondIsLarge(s: string, max: int)
    requires AllDigits(s)
    ensures Beyond(s, max) && max >= 0 ==> Decimal(s) > max
  {
    if s != "" {
      var front, c := s[..|s| - 1], s[|s| - 1];
      assert s == front + [c];
      AllDigitsNext(front, c);
      BeyondNext(front, c, max);
      DigitChars(c);
      BeyondIsLarge(front, max);
    } else {
      assert s[..0] == "";
    }
  }

  predicate NonemptyDigits(s: string) {
    s != "" && AllDigits(s)
  }

  /** A text without its sign, if it has one. */
  function Unsigned(s: string): string {
    if s != "" && s[0] in "+-" then s[1..] else s
  }

  /** The number that a signed row of digits stands for. */
  function Signed(s: string): int {
    if s != "" && s[0] == '-' then -Decimal(Unsigned(s)) else Decimal(Unsigned(s))
  }

  /** A text reads as a number exactly if it is one: digits, with a sign or not, that stand for an
      integer of 64 bits. Any other text reads as 0, or as the nearest limit if it is too large. */
  lemma AtoiIff(s: string)
    ensures Atoi(s).ok
       <==> NonemptyDigits(Unsigned(s)) && -0x8000_0000_0000_0000 <= Signed(s) < 0x8000_0000_0000_0000
    ensures Atoi(s).ok ==> Atoi(s).value == Signed(s)
    ensures !Atoi(s).ok ==>
      Atoi(s).value == (if !Beyond(Unsigned(s), 0xffff_ffff_ffff_ffff) && !NonemptyDigits(Unsigned(s)) then 0
                        else if s[0] == '-' then -0x8000_0000_0000_0000 else 0x7fff_ffff_ffff_ffff)
  {
    assert "+-"[0] == '+' && "+-"[1] == '-';
    var t := Unsigned(s);
    ScanIs(t, 0xffff_ffff_ffff_ffff);
    assert t[..|t|] == t;
    if AllDigits(t) {
      DecimalRange(t);
      BeyondIsLarge(t, 0xffff_ffff_ffff_ffff);
    }
  }

  // ------------------------------------------------------------------ spaces and fields

  /** unicode.IsSpace */
  predicate IsSpace(c: char) {
    || '\t' <= c <= '\r' || c == ' ' || c == '\U{85}' || c == '\U{A0}' || c == '\U{1680}'
    || '\U{2000}' <= c <= '\U{200A}' || c == '\U{2028}' || c == '\U{2029}'
    || c == '\U{202F}' || c == '\U{205F}' || c == '\U{3000}'
  }

  /** strings.TrimSpace */
  function TrimSpace(s: string): string {
    if s == "" then ""
    else if IsSpace(s[0]) then TrimSpace(s[1..])
    else if IsSpace(s[|s|-1]) then TrimSpace(s[..|s|-1])
    else s
  }

  lemma SpaceIff(c: char)
    ensures IsSpace(c) <==>
      c as int in {9, 10, 11, 12, 13, 32, 0x85, 0xa0, 0x1680, 0x2000, 0x2001, 0x2002, 0x2003, 0x2004, 0x2005, 0x2006,
                   0x2007, 0x2008, 0x2009, 0x200a, 0x2028, 0x2029, 0x202f, 0x205f, 0x3000}
  {
  }

  /** Trimming keeps the middle of a text, takes nothing but spaces off its ends, and all of these. */
  lemma {:induction false} TrimIs(s: string) returns (from: nat, to: nat)
    ensures from <= to <= |s| && TrimSpace(s) == s[from..to]
    ensures forall i :: 0 <= i < from || to <= i < |s| ==> IsSpace(s[i])
    ensures from < to ==> !IsSpace(s[from]) && !IsSpace(s[to - 1])
  {
    if s == "" {
      from, to := 0, 0;
    } else if IsSpace(s[0]) {
      var rest := s[1..];
      var f, t := TrimIs(rest);
      from, to := f + 1, t + 1;
      assert rest[f..t] == s[from..to];
      forall i | 0 <= i < from || to <= i < |s| ensures IsSpace(s[i]) {
        if i > 0 { assert s[i] == rest[i - 1]; }
      }
    } else if IsSpace(s[|s| - 1]) {
      var rest := s[..|s| - 1];
      from, to := TrimIs(rest);
      assert rest[from..to] == s[from..to];
    } else {
      from, to := 0, |s|;
    }
  }

  /** A space behind a text does not matter to trimming, nor one before it. */
  lemma {:induction false} TrimBehind(s: string, c: char)
    requires IsSpace(c)
    ensures TrimSpace(s + [c]) == TrimSpace(s) && TrimSpace([c] + s) == TrimSpace(s)
  {
    assert ([c] + s)[1..] == s;
    if s != "" {
      assert (s + [c])[1..] == s[1..] + [c] && (s + [c])[..|s|] == s;
      if IsSpace(s[0]) { TrimBehind(s[1..], c); }
    } else {
      assert (s + [c])[1..] == "";
    }
  }

  lemma TrimKeepsOut(s: string, c: char)
    requires c !in s
    ensures c !in TrimSpace(s)
  {
  }

  /** strings.Split for a separator of one character. */
  function Split(s: string, sep: char): (r: seq<string>)
    ensures r != []
  {
    if s == "" then [""]
    else
      var rest := Split(s[1..], sep);
      if s[0] == sep then [""] + rest else [[s[0]] + rest[0]] + rest[1..]
  }

  lemma {:induction false} SplitAt(a: string, b: string, sep: char)
    requires sep !in a
    ensures Split(a + [sep] + b, sep) == [a] + Split(b, sep)
  {
    var s := a + [sep] + b;
    if a == "" {
      assert s[1..] == b;
    } else {
      assert s[1..] == a[1..] + [sep] + b;
      SplitAt(a[1..], b, sep);
      assert s[0] == a[0];
      assert [a[0]] + a[1..] == a;
    }
  }

  lemma {:induction false} SplitNone(a: string, sep: char)
    requires sep !in a
    ensures Split(a, sep) == [a]
  {
    if a != "" {
      SplitNone(a[1..], sep);
      assert [a[0]] + a[1..] == a;
    }
  }

  lemma {:induction false} SplitFields(s: string, sep: char, i: nat)
    requires i < |Split(s, sep)|
    ensures sep !in Split(s, sep)[i]
  {
    if s != "" {
      var rest := Split(s[1..], sep);
      if s[0] == sep {
        if i > 0 { SplitFields(s[1..], sep, i - 1); }
      } else {
        SplitFields(s[1..], sep, i);
      }
    }
  }

  /** strings.Join, with a separator of one character. */
  function Join(fields: seq<string>, sep: char): string
    requires fields != []
  {
    if |fields| == 1 then fields[0] else fields[0] + [sep] + Join(fields[1..], sep)
  }

  /** Splitting and joining undo each other. */
  lemma {:induction false} SplitJoin(fields: seq<string>, sep: char)
    requires fields != [] && forall i :: 0 <= i < |fields| ==> sep !in fields[i]
    ensures Split(Join(fields, sep), sep) == fields
  {
    if |fields| == 1 {
      SplitNone(fields[0], sep);
    } else {
      SplitJoin(fields[1..], sep);
      SplitAt(fields[0], Join(fields[1..], sep), sep);
      assert fields == [fields[0]] + fields[1..];
    }
  }

  lemma {:induction false} JoinSplit(s: string, sep: char)
    ensures Join(Split(s, sep), sep) == s
  {
    if s != "" {
      var rest := Split(s[1..], sep);
      JoinSplit(s[1..], sep);
      if s[0] == sep {
        assert ([""] + rest)[1..] == rest;
      } else {
        assert ([[s[0]] + rest[0]] + rest[1..])[1..] == rest[1..];
      }
      assert s == [s[0]] + s[1..];
    }
  }

  /** Two texts joined by a separator that the first part cannot hold: the parts
      can be read back. */
  lemma JoinInjective(a: string, b: string, c: string, d: string, sep: char)
    requires sep !in a && sep !in c
    requires a + [sep] + b == c + [sep] + d
    ensures a == c && b == d
  {
    var s := a + [sep] + b;
    assert s[|a|] == sep && s[|c|] == sep;
    assert a == s[..|a|] && b == s[|a| + 1..];
    assert c == s[..|a|] && d == s[|a| + 1..];
  }
}
