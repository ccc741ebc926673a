/** Bit strings and the numbers they stand for.

    A stream is a sequence of bits, first bit first.  `FromBits` reads a bit string with its first
    bit least significant (the order of Vorbis and deflate streams); `Pos` reads it with its first
    bit most significant inside a window of `w` bits, which turns "is a prefix of" into "lies in
    the interval of". */
module Bits {

  type byte = b: nat | b < 256

  function Pow2(n: nat): (p: nat)
    ensures p >= 1
  {
    if n == 0 then 1 else 2 * Pow2(n - 1)
  }

  function Bit(b: bool): (r: nat)
    ensures r <= 1
  {
    if b then 1 else 0
  }

  function ToBits(x: nat, n: nat): (b: seq<bool>)
    ensures |b| == n
  {
    if n == 0 then [] else [x % 2 == 1] + ToBits(x / 2, n - 1)
  }

  function FromBits(b: seq<bool>): (x: nat)
    ensures x < Pow2(|b|)
  {
    if b == [] then 0 else Bit(b[0]) + 2 * FromBits(b[1..])
  }

  /** The value of `b` as the leading bits of a `w`-bit word, zeros following. */
  function Pos(b: seq<bool>, w: nat): (x: nat)
    requires |b| <= w
    ensures x + Pow2(w - |b|) <= Pow2(w)
  {
    if b == [] then 0 else Bit(b[0]) * Pow2(w - 1) + Pos(b[1..], w - 1)
  }

  function Zeros(n: nat): (b: seq<bool>)
    ensures |b| == n
  {
    seq(n, _ => false)
  }

  /** `b` cut or zero-padded to exactly `n` bits: what a register holding `b` shows. */
  function Pad(b: seq<bool>, n: nat): (r: seq<bool>)
    ensures |r| == n
    ensures forall i :: 0 <= i < n ==> r[i] == (i < |b| && b[i])
  {
    if |b| >= n then b[..n] else b + Zeros(n - |b|)
  }

  function BytesToBits(s: seq<byte>): (b: seq<bool>)
    ensures |b| == 8 * |s|
  {
    if s == [] then [] else ToBits(s[0], 8) + BytesToBits(s[1..])
  }

  lemma {:induction false} Pow2Add(a: nat, b: nat)
    ensures Pow2(a + b) == Pow2(a) * Pow2(b)
  {
    if a > 0 {
      Pow2Add(a - 1, b);
    }
  }

  lemma {:induction false} Pow2Mono(a: nat, b: nat)
    requires a <= b
    ensures Pow2(a) <= Pow2(b)
  {
    if a < b {
      Pow2Mono(a, b - 1);
    }
  }

  lemma {:induction false} ToFromBits(x: nat, n: nat)
    requires x < Pow2(n)
    ensures FromBits(ToBits(x, n)) == x
  {
    if n > 0 {
      ToFromBits(x / 2, n - 1);
    }
  }

  lemma {:induction false} FromToBits(b: seq<bool>)
    ensures ToBits(FromBits(b), |b|) == b
  {
    if b != [] {
      FromToBits(b[1..]);
    }
  }

  lemma ConcatStep(e: nat, x: nat, p: nat, v: nat, y: nat)
    requires y == x + p * v
    ensures e + 2 * y == e + 2 * x + (2 * p) * v
  {
  }

  lemma {:induction false} FromBitsConcat(a: seq<bool>, b: seq<bool>)
    ensures FromBits(a + b) == FromBits(a) + Pow2(|a|) * FromBits(b)
  {
    if a == [] {
      assert a + b == b;
    } else {
      var ab := a + b;
      assert ab[1..] == a[1..] + b;
      FromBitsConcat(a[1..], b);
      ConcatStep(Bit(a[0]), FromBits(a[1..]), Pow2(|a| - 1), FromBits(b), FromBits(ab[1..]));
    }
  }

  lemma DoubleProduct(p: nat, v: nat)
    ensures (2 * p) * v == 2 * (p * v)
  {
  }

  lemma {:induction false} ToBitsConcat(x: nat, m: nat, y: nat, n: nat)
    requires x < Pow2(m)
    ensures ToBits(x + Pow2(m) * y, m + n) == ToBits(x, m) + ToBits(y, n)
  {
    if m > 0 {
      DoubleProduct(Pow2(m - 1), y);
      ToBitsConcat(x / 2, m - 1, y, n);
    }
  }

  lemma DivMod(x: nat, p: nat)
    requires p > 0
    ensures x == x % p + p * (x / p) && x % p < p && x / p <= x
  {
    TimesAtLeast(p, x / p);
  }

  lemma TimesAtLeast(p: nat, q: nat)
    requires p > 0
    ensures q <= p * q
  {
  }

  lemma QuotientBound(p: nat, q: nat, r: nat, m: nat)
    requires p > 0 && r + p * q < p * m
    ensures q < m
  {
    assert p * (q - m) < 0;
  }

  /** Masking keeps the first `n` bits, shifting right drops them. */
  lemma FromBitsSplit(b: seq<bool>, n: nat)
    requires n <= |b|
    ensures FromBits(b) % Pow2(n) == FromBits(b[..n])
    ensures FromBits(b) / Pow2(n) == FromBits(b[n..])
  {
    assert b == b[..n] + b[n..];
    FromBitsConcat(b[..n], b[n..]);
    DivModUnique(FromBits(b), Pow2(n), FromBits(b[n..]), FromBits(b[..n]));
  }

  lemma DivModUnique(x: nat, d: nat, q: nat, r: nat)
    requires d > 0 && r < d && x == r + d * q
    ensures x / d == q && x % d == r
  {
    var k := x / d - q;
    assert d * k == d * (x / d) - d * q;
    SmallMultiple(d, k);
  }

  lemma ModSmall(x: nat, p: nat)
    requires x < p
    ensures x % p == x
  {
    DivModUnique(x, p, 0, x);
  }

  lemma SmallMultiple(d: int, k: int)
    requires d > 0 && -d < d * k < d
    ensures k == 0
  {
  }

  lemma ZeroProduct(p: nat)
    ensures p * 0 == 0
  {
  }

  lemma {:induction false} ZerosValue(n: nat)
    ensures FromBits(Zeros(n)) == 0
  {
    if n > 0 {
      assert Zeros(n)[1..] == Zeros(n - 1);
      ZerosValue(n - 1);
    }
  }

  /** Padding with zeros does not change the value. */
  lemma PadValue(b: seq<bool>, n: nat)
    requires |b| <= n
    ensures FromBits(Pad(b, n)) == FromBits(b)
  {
    if |b| == n {
      assert Pad(b, n) == b;
    } else {
      var z := Zeros(n - |b|);
      FromBitsConcat(b, z);
      ZerosValue(n - |b|);
      ZeroProduct(Pow2(|b|));
    }
  }

  lemma {:induction false} PosConcat(a: seq<bool>, b: seq<bool>, w: nat)
    requires |a| + |b| <= w
    ensures Pos(a + b, w) == Pos(a, w) + Pos(b, w - |a|)
  {
    if a == [] {
      assert a + b == b;
    } else {
      assert (a + b)[1..] == a[1..] + b;
      PosConcat(a[1..], b, w - 1);
    }
  }

  lemma {:induction false} PosZeros(n: nat, w: nat)
    requires n <= w
    ensures Pos(Zeros(n), w) == 0
  {
    if n > 0 {
      assert Zeros(n)[1..] == Zeros(n - 1);
      PosZeros(n - 1, w - 1);
    }
  }

  lemma {:induction false} PosAligned(b: seq<bool>, w: nat)
    requires |b| <= w
    ensures Pos(b, w) % Pow2(w - |b|) == 0
  {
    var s := Pow2(w - |b|);
    if b == [] {
      DivModUnique(0, s, 0, 0);
    } else {
      PosAligned(b[1..], w - 1);
      Pow2Add(|b| - 1, w - |b|);
      var q, k := Pos(b[1..], w - 1) / s, Pow2(|b| - 1);
      MultipleSum(s, k, q, Bit(b[0]), Pos(b[1..], w - 1));
    }
  }

  lemma MultipleSum(s: nat, k: nat, q: nat, e: nat, x: nat)
    requires s > 0 && x % s == 0 && q == x / s
    ensures (e * (k * s) + x) % s == 0
  {
    var m := e * k + q;
    assert x == s * q;
    assert e * (k * s) == s * (e * k);
    assert e * (k * s) + s * q == s * m;
    DivModUnique(s * m, s, m, 0);
  }

  /** A bit string is a prefix of a longer one exactly when the longer one's position falls into
      the aligned interval the shorter one owns. */
  lemma {:induction false} PrefixIffInterval(c: seq<bool>, b: seq<bool>, w: nat)
    requires |c| <= |b| <= w
    ensures c <= b <==> Pos(c, w) <= Pos(b, w) < Pos(c, w) + Pow2(w - |c|)
  {
    hide Pow2;
    if c != [] {
      PrefixIffInterval(c[1..], b[1..], w - 1);
      assert c <= b <==> c[0] == b[0] && c[1..] <= b[1..];
      SameHalf(c[0], b[0], Pos(c[1..], w - 1), Pos(b[1..], w - 1), Pow2(w - 1), Pow2(w - |c|));
    }
  }

  lemma SameHalf(e: bool, f: bool, x: nat, y: nat, half: nat, s: nat)
    requires x + s <= half && y < half && s > 0
    ensures Bit(e) * half + x <= Bit(f) * half + y < Bit(e) * half + x + s <==> e == f && x <= y < x + s
  {
  }

  lemma {:induction false} BytesToBitsConcat(s: seq<byte>, t: seq<byte>)
    ensures BytesToBits(s + t) == BytesToBits(s) + BytesToBits(t)
  {
    if s == [] {
      assert s + t == t;
    } else {
      assert (s + t)[1..] == s[1..] + t;
      BytesToBitsConcat(s[1..], t);
    }
  }

  lemma TimesMono(a: nat, b: nat, c: nat)
    requires b <= c
    ensures a * b <= a * c
  {
  }

  lemma HalfQuotient(p: nat, m: nat)
    requires m > 0
    ensures p / 2 / m == p / (2 * m)
  {
    var h, q := p / 2, p / 2 / m;
    DivMod(h, m);
    assert p == 2 * h + p % 2;
    assert 2 * (m * q) == (2 * m) * q;
    DivModUnique(p, 2 * m, q, 2 * (h % m) + p % 2);
  }
}
