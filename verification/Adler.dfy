/** The Adler-32 checksum (section 8.2 of RFC 1950), with the remainders put off to the end of each
    block of 5552 bytes. */
module Adler {
  import opened Bits

  const BASE: nat := 65521
  const BLOCK: nat := 5552
  const TWO32: nat := 0x1_0000_0000

  datatype Sums = Sums(s1: nat, s2: nat)

  predicate Reduced(s: Sums) {
    s.s1 < BASE && s.s2 < BASE
  }

  const START: Sums := Sums(1, 0)

  /** The definition: both sums are reduced at every byte. */
  function Sum(s: Sums, data: seq<byte>): (r: Sums)
    requires Reduced(s)
    ensures Reduced(r)
  {
    if data == [] then s else
      var t := Sum(s, data[..|data| - 1]);
      var s1 := (t.s1 + data[|data| - 1]) % BASE;
      Sums(s1, (t.s2 + s1) % BASE)
  }

  /** Checksums of pieces follow one another. */
  lemma {:induction false} SumConcat(s: Sums, a: seq<byte>, b: seq<byte>)
    requires Reduced(s)
    ensures Sum(s, a + b) == Sum(Sum(s, a), b)
    decreases |b|
  {
    if b == [] {
      assert a + b == a;
    } else {
      var n := |b| - 1;
      SumConcat(s, a, b[..n]);
      assert (a + b)[..|a + b| - 1] == a + b[..n];
    }
  }

  function Value(s: Sums): (v: nat)
    requires Reduced(s)
    ensures v < TWO32 && v % 65536 == s.s1 && v / 65536 == s.s2
  {
    s.s2 * 65536 + s.s1
  }

  /** How large the sums can be after `n` bytes of a block. */
  function Limit(n: nat): nat {
    65520 + 65520 * n + 255 * (n * (n + 1) / 2)
  }

  lemma {:induction false} LimitStep(n: nat)
    ensures Limit(n + 1) == Limit(n) + 65520 + 255 * (n + 1)
  {
    var q := n * (n + 1) / 2;
    assert (n + 1) * (n + 2) == n * (n + 1) + 2 * (n + 1);
  }

  lemma {:induction false} LimitMono(a: nat, b: nat)
    requires a <= b
    ensures Limit(a) <= Limit(b)
  {
    if a < b {
      LimitMono(a, b - 1);
      LimitStep(b - 1);
    }
  }

  lemma BlockFits(n: nat)
    requires n <= BLOCK
    ensures Limit(n) < TWO32
  {
    LimitMono(n, BLOCK);
  }

  /** The running sums of a block: congruent to the checksum, and below the limit. */
  ghost predicate Deferred(s: Sums, data: seq<byte>, n: nat, s1: nat, s2: nat)
    requires Reduced(s) && n <= |data|
  {
    && s1 % BASE == Sum(s, data[..n]).s1 && s2 % BASE == Sum(s, data[..n]).s2
    && s1 <= 65520 + 255 * n && s2 <= Limit(n)
  }

  /** One byte, without a remainder and without overflow. */
  method AddByte(ghost s: Sums, data: seq<byte>, n: nat, s1: nat, s2: nat) returns (t1: nat, t2: nat)
    requires Reduced(s) && n < |data| && n < BLOCK && Deferred(s, data, n, s1, s2)
    ensures Deferred(s, data, n + 1, t1, t2)
    ensures t1 == s1 + data[n] < TWO32 && t2 == s2 + t1 < TWO32
  {
    hide Limit, Sum;
    LimitStep(n);
    BlockFits(n + 1);
    SumMore(s, data, n);
    Remainders(s1, s2, data[n]);
    Unwrapped(s1 + data[n]);
    Unwrapped(s2 + s1 + data[n]);
    t1 := (s1 + data[n]) % TWO32;
    t2 := (s2 + t1) % TWO32;
  }

  lemma Unwrapped(x: nat)
    ensures x < TWO32 ==> x % TWO32 == x
  {
  }

  lemma SumMore(s: Sums, data: seq<byte>, n: nat)
    requires Reduced(s) && n < |data|
    ensures var t := Sum(s, data[..n]);
      var s1 := (t.s1 + data[n]) % BASE;
      Sum(s, data[..n + 1]) == Sums(s1, (t.s2 + s1) % BASE)
  {
    assert data[..n + 1][..n] == data[..n];
  }

  lemma Remainders(s1: nat, s2: nat, c: byte)
    ensures (s1 + c) % BASE == (s1 % BASE + c) % BASE
    ensures (s2 + (s1 + c)) % BASE == (s2 % BASE + (s1 % BASE + c) % BASE) % BASE
  {
    Reduces(s1, c);
    Reduces(s2, s1 + c);
    Reduces(s1 + c, s2 % BASE);
  }

  lemma Reduces(x: nat, y: nat)
    ensures (x + y) % BASE == (x % BASE + y) % BASE
  {
    var q, z := x / BASE, x % BASE + y;
    assert x + y == BASE * (q + z / BASE) + z % BASE;
  }

  /** One block, eight bytes at a time. */
  method SumBlock(s: Sums, data: seq<byte>) returns (t: Sums)
    requires Reduced(s) && |data| <= BLOCK
    ensures t == Sum(s, data)
  {
    hide Sum, Limit;
    var s1: nat, s2: nat, i: nat := s.s1, s.s2, 0;
    NoBytes(s, data);
    while i + 7 < |data|
      invariant 0 <= i <= |data| && Deferred(s, data, i, s1, s2)
    {
      s1, s2 := AddByte(s, data, i, s1, s2);
      s1, s2 := AddByte(s, data, i + 1, s1, s2);
      s1, s2 := AddByte(s, data, i + 2, s1, s2);
      s1, s2 := AddByte(s, data, i + 3, s1, s2);
      s1, s2 := AddByte(s, data, i + 4, s1, s2);
      s1, s2 := AddByte(s, data, i + 5, s1, s2);
      s1, s2 := AddByte(s, data, i + 6, s1, s2);
      s1, s2 := AddByte(s, data, i + 7, s1, s2);
      i := i + 8;
    }
    while i < |data|
      invariant 0 <= i <= |data| && Deferred(s, data, i, s1, s2)
    {
      s1, s2 := AddByte(s, data, i, s1, s2);
      i := i + 1;
    }
    assert data[..i] == data;
    t := Sums(s1 % BASE, s2 % BASE);
  }

  lemma NoBytes(s: Sums, data: seq<byte>)
    requires Reduced(s)
    ensures Deferred(s, data, 0, s.s1, s.s2)
  {
  }

  /** The checksum part of `tinfl_decompress`: a short block first, then full ones. */
  method Update(check: nat, data: seq<byte>, ghost s: Sums) returns (r: nat)
    requires Reduced(s) && check == Value(s)
    ensures r == Value(Sum(s, data))
  {
    hide Sum;
    var t := Sums(check % 65536, check / 65536);
    var at, blockLen := 0, |data| % BLOCK;
    NoSum(s, data);
    while at < |data|
      invariant 0 <= at <= |data| && Reduced(t) && t == Sum(s, data[..at])
      invariant at < |data| ==> at + blockLen <= |data|
      invariant (|data| - at) % BLOCK == if blockLen == BLOCK then 0 else blockLen
      invariant blockLen <= BLOCK && (blockLen == 0 ==> at == 0)
      decreases |data| - at, BLOCK - blockLen
    {
      SumConcat(s, data[..at], data[at..at + blockLen]);
      assert data[..at] + data[at..at + blockLen] == data[..at + blockLen];
      t := SumBlock(t, data[at..at + blockLen]);
      NextBlock(|data| - at, blockLen);
      at := at + blockLen;
      blockLen := BLOCK;
    }
    assert data[..at] == data;
    r := Value(t);
  }

  lemma NextBlock(left: nat, n: nat)
    requires n <= left && n <= BLOCK && left % BLOCK == if n == BLOCK then 0 else n
    ensures (left - n) % BLOCK == 0 && (left > n ==> left - n >= BLOCK)
  {
  }

  lemma NoSum(s: Sums, data: seq<byte>)
    requires Reduced(s)
    ensures Sum(s, data[..0]) == s
  {
  }

  // ----- what the two sums are -----

  /** All bytes added, and all values that this sum takes, from 1 on: numbers without any remainder. */
  function Added(data: seq<byte>): nat {
    if data == [] then 1 else Added(data[..|data| - 1]) + data[|data| - 1]
  }

  function Totals(data: seq<byte>): nat {
    if data == [] then 0 else Totals(data[..|data| - 1]) + Added(data)
  }

  /** The checksum of a stream is these two numbers modulo 65521. */
  lemma {:induction false} SumIsTotals(data: seq<byte>)
    ensures Sum(START, data) == Sums(Added(data) % 65521, Totals(data) % 65521)
  {
    if data != [] {
      var d := data[..|data| - 1];
      SumIsTotals(d);
      Remainders(Added(d), Totals(d), data[|data| - 1]);
    }
  }

  function Same(c: byte, n: nat): (s: seq<byte>)
    ensures |s| == n
  {
    seq(n, _ => c)
  }

  lemma {:induction false} TotalsOfSame(c: byte, n: nat)
    ensures Added(Same(c, n)) == 1 + c * n && 2 * Totals(Same(c, n)) == 2 * n + c * (n * (n + 1))
  {
    if n > 0 {
      TotalsOfSame(c, n - 1);
      assert Same(c, n)[..n - 1] == Same(c, n - 1);
      OneMore(c, n, Totals(Same(c, n - 1)));
    }
  }

  lemma OneMore(c: nat, n: nat, total: nat)
    requires n > 0 && 2 * total == 2 * (n - 1) + c * ((n - 1) * n)
    ensures c * (n - 1) + c == c * n
    ensures 2 * (total + 1 + c * n) == 2 * n + c * (n * (n + 1))
  {
    assert n * (n + 1) == (n - 1) * n + 2 * n;
    assert c * (n * (n + 1)) == c * ((n - 1) * n) + c * (2 * n);
  }

  /** 300 bytes 0xff, whose sums pass the modulus. */
  lemma LongExample()
    ensures Value(Sum(START, Same(255, 300))) == 0xb90f2ae4
  {
    hide Sum, Added, Totals, Same;
    SumIsTotals(Same(255, 300));
    TotalsOfSame(255, 300);
  }
}
