/** Options, bytes and filters shared by the other modules. */
module Prelude {
  datatype Option<+T> = None | Some(value: T)

  type byte = x: int | 0 <= x < 256

  function U16(hi: byte, lo: byte): nat {
    hi * 0x100 + lo
  }

  /** The four bytes of a 32-bit number, the highest first. */
  function BigEndian(n: nat): seq<byte>
    requires n < 0x1_0000_0000
  {
    [n / 0x100_0000, n / 0x1_0000 % 0x100, n / 0x100 % 0x100, n % 0x100]
  }

  function FromBigEndian(b: seq<byte>): (n: nat)
    requires |b| >= 4
    ensures n < 0x1_0000_0000
  {
    U16(b[0], b[1]) * 0x1_0000 + U16(b[2], b[3])
  }

  lemma BigEndianRead(n: nat, rest: seq<byte>)
    requires n < 0x1_0000_0000
    ensures FromBigEndian(BigEndian(n) + rest) == n
  {
    var a, b, c := n / 0x100, n / 0x1_0000, n / 0x100_0000;
    assert n == a * 0x100 + n % 0x100;
    assert a == b * 0x100 + a % 0x100;
    assert b == c * 0x100 + b % 0x100;
  }

  function Min(a: int, b: int): int {
    if a < b then a else b
  }

  /** The elements of s that satisfy p, in order. */
  function Filter<T>(s: seq<T>, p: T -> bool): seq<T> {
    if s == [] then []
    else if p(s[|s|-1]) then Filter(s[..|s|-1], p) + [s[|s|-1]]
    else Filter(s[..|s|-1], p)
  }

  lemma {:induction false} FilterConcat<T>(s: seq<T>, t: seq<T>, p: T -> bool)
    ensures Filter(s + t, p) == Filter(s, p) + Filter(t, p)
  {
    if t == [] {
      assert s + t == s;
    } else {
      var last := |t| - 1;
      assert (s + t)[..|s + t| - 1] == s + t[..last];
      FilterConcat(s, t[..last], p);
    }
  }

  lemma FilterSnoc<T>(s: seq<T>, x: T, p: T -> bool)
    ensures Filter(s + [x], p) == if p(x) then Filter(s, p) + [x] else Filter(s, p)
  {
    assert (s + [x])[..|s|] == s;
  }

  lemma {:induction false} FilterCommutes<T>(s: seq<T>, p: T -> bool, q: T -> bool)
    ensures Filter(Filter(s, p), q) == Filter(Filter(s, q), p)
  {
    if s != [] {
      var front, x := s[..|s| - 1], s[|s| - 1];
      FilterCommutes(front, p, q);
      FilterSnoc(Filter(front, p), x, q);
      FilterSnoc(Filter(front, q), x, p);
    }
  }

  lemma FilterMembers<T>(s: seq<T>, p: T -> bool)
    ensures forall x :: x in Filter(s, p) <==> x in s && p(x)
  {
    if s != [] {
      FilterMembers(s[..|s|-1], p);
      assert s == s[..|s|-1] + [s[|s|-1]];
    }
  }

  /** `at` lists, in order, exactly the positions of s that are wanted. */
  ghost predicate Positions(at: seq<nat>, n: nat, wanted: nat -> bool) {
    && (forall k {:trigger at[k]} :: 0 <= k < |at| ==> at[k] < n && wanted(at[k]))
    && (forall j, k {:trigger at[j], at[k]} :: 0 <= j < k < |at| ==> at[j] < at[k])
    && (forall i: nat {:trigger wanted(i)} :: i < n && wanted(i) ==> i in at)
  }

  /** One position more, the test being the same on the earlier ones. */
  lemma PositionsNext(at: seq<nat>, n: nat, before: nat -> bool, wanted: nat -> bool)
    requires Positions(at, n, before) && forall i: nat :: i < n ==> before(i) == wanted(i)
    ensures Positions(if wanted(n) then at + [n] else at, n + 1, wanted)
  {
    var next := if wanted(n) then at + [n] else at;
    forall k {:trigger next[k]} | 0 <= k < |next| ensures next[k] < n + 1 && wanted(next[k]) {
      if k < |at| { assert next[k] == at[k]; }
    }
    forall i: nat | i < n + 1 && wanted(i) ensures i in next {
      if i < n {
        assert before(i);
        assert i in at;
      }
    }
  }

  /** Positions of a sequence by a test on its elements. */
  function Where<T>(s: seq<T>, p: T -> bool): nat -> bool {
    (i: nat) => i < |s| && p(s[i])
  }

  /** r are the elements of s at these positions. */
  ghost predicate Picked<T>(r: seq<T>, s: seq<T>, at: seq<nat>) {
    |r| == |at| && forall k {:trigger at[k]} :: 0 <= k < |at| ==> at[k] < |s| && r[k] == s[at[k]]
  }

  lemma PickedNext<T>(r: seq<T>, s: seq<T>, at: seq<nat>, x: T, take: bool)
    requires Picked(r, s, at)
    ensures Picked(if take then r + [x] else r, s + [x], if take then at + [|s|] else at)
  {
    forall k {:trigger at[k]} | 0 <= k < |at| ensures (s + [x])[at[k]] == r[k] {}
  }

  /** A filter keeps the elements at the positions that satisfy it. */
  lemma {:induction false} FilterPositions<T>(s: seq<T>, p: T -> bool) returns (at: seq<nat>)
    ensures Positions(at, |s|, Where(s, p)) && Picked(Filter(s, p), s, at)
  {
    if s == [] {
      at := [];
    } else {
      var front, x := s[..|s| - 1], s[|s| - 1];
      assert s == front + [x];
      var before := FilterPositions(front, p);
      PositionsNext(before, |front|, Where(front, p), Where(s, p));
      PickedNext(Filter(front, p), front, before, x, p(x));
      at := if p(x) then before + [|front|] else before;
    }
  }

  lemma FilterSame<T>(s: seq<T>, p: T -> bool, q: T -> bool)
    requires forall x :: x in s ==> p(x) == q(x)
    ensures Filter(s, p) == Filter(s, q)
  {
    if s != [] {
      FilterSame(s[..|s|-1], p, q);
    }
  }

  lemma FilterAll<T>(s: seq<T>, p: T -> bool)
    requires forall x :: x in s ==> p(x)
    ensures Filter(s, p) == s
  {
    if s != [] {
      FilterAll(s[..|s|-1], p);
      assert s == s[..|s|-1] + [s[|s|-1]];
    }
  }
}
