/** Canonical Huffman codes (section 3.2.2 of RFC 1951): what the code lengths alone determine. */
module InflateCode {
  import opened Bits

  const MAX_BITS: nat := 15

  predicate Lengths(sizes: seq<nat>) {
    |sizes| <= 288 && forall i :: 0 <= i < |sizes| ==> sizes[i] <= MAX_BITS
  }

  /** How many of the first `n` symbols have codes of length `l`. */
  function Count(sizes: seq<nat>, n: nat, l: nat): (c: nat)
    requires n <= |sizes|
    ensures c <= n
  {
    if n == 0 then 0 else Count(sizes, n - 1, l) + if sizes[n - 1] == l then 1 else 0
  }

  /** The first code of length `l`. */
  function NextCode(sizes: seq<nat>, l: nat): nat
    requires l >= 1
    decreases l, 0
  {
    if l == 1 then 0 else 2 * After(sizes, l - 1)
  }

  /** The code after the last one of length `l`. */
  function After(sizes: seq<nat>, l: nat): nat
    requires l >= 1
    decreases l, 1
  {
    NextCode(sizes, l) + Count(sizes, |sizes|, l)
  }

  /** The symbols that have a code. */
  function Used(sizes: seq<nat>, n: nat): (c: nat)
    requires n <= |sizes|
    ensures c <= n
  {
    if n == 0 then 0 else Used(sizes, n - 1) + if sizes[n - 1] > 0 then 1 else 0
  }

  /** The lengths leave nothing over, or there is at most one code. */
  predicate Accepted(sizes: seq<nat>) {
    Lengths(sizes) && (NextCode(sizes, 16) == 65536 || Used(sizes, |sizes|) <= 1)
  }

  function CodeValue(sizes: seq<nat>, s: nat): nat
    requires s < |sizes| && sizes[s] > 0
  {
    NextCode(sizes, sizes[s]) + Count(sizes, s, sizes[s])
  }

  /** A number in `n` bits, most significant first. */
  function MsbBits(c: nat, n: nat): (b: seq<bool>)
    ensures |b| == n
  {
    if n == 0 then [] else MsbBits(c / 2, n - 1) + [c % 2 == 1]
  }

  /** The codeword of a symbol, in the order of the stream. */
  function Codeword(sizes: seq<nat>, s: nat): (b: seq<bool>)
    requires s < |sizes| && sizes[s] > 0
    ensures |b| == sizes[s]
  {
    MsbBits(CodeValue(sizes, s), sizes[s])
  }

  // ----- numbers and their leading bits -----

  lemma {:induction false} MsbPrefix(c: nat, n: nat, d: nat)
    requires d <= n
    ensures MsbBits(c, n)[..d] == MsbBits(c / Pow2(n - d), d)
  {
    if d < n {
      MsbPrefix(c / 2, n - 1, d);
      assert MsbBits(c, n)[..d] == MsbBits(c / 2, n - 1)[..d];
      HalfQuotient(c, Pow2(n - 1 - d));
    } else {
      assert c / 1 == c;
    }
  }

  lemma {:induction false} MsbInjective(c: nat, e: nat, n: nat)
    requires c < Pow2(n) && e < Pow2(n) && MsbBits(c, n) == MsbBits(e, n)
    ensures c == e
  {
    if n > 0 {
      var a, b := MsbBits(c, n), MsbBits(e, n);
      assert a[..n - 1] == MsbBits(c / 2, n - 1) && b[..n - 1] == MsbBits(e / 2, n - 1);
      assert a[n - 1] == b[n - 1];
      MsbInjective(c / 2, e / 2, n - 1);
    }
  }

  lemma {:induction false} MsbOf(b: seq<bool>) returns (c: nat)
    ensures c < Pow2(|b|) && MsbBits(c, |b|) == b
  {
    if b == [] {
      c := 0;
    } else {
      var n := |b| - 1;
      var h := MsbOf(b[..n]);
      c := 2 * h + Bit(b[n]);
      assert c / 2 == h && (c % 2 == 1) == b[n];
      assert b == b[..n] + [b[n]];
    }
  }

  // ----- the codes fit -----

  lemma {:induction false} Fits(sizes: seq<nat>, l: nat)
    requires 1 <= l <= MAX_BITS && NextCode(sizes, 16) <= 65536
    ensures After(sizes, l) <= Pow2(l)
    decreases MAX_BITS - l
  {
    hide Count, After, NextCode, Pow2;
    FitsStep(sizes, l);
    if l == MAX_BITS {
      Pow15();
    } else {
      Fits(sizes, l + 1);
    }
  }

  lemma Pow15()
    ensures Pow2(15) == 32768
  {
    assert Pow2(8) == 256;
    Pow2Add(8, 7);
  }

  lemma FitsStep(sizes: seq<nat>, l: nat)
    requires 1 <= l
    ensures NextCode(sizes, l + 1) == 2 * After(sizes, l) && Pow2(l + 1) == 2 * Pow2(l)
    ensures NextCode(sizes, l + 1) <= After(sizes, l + 1)
  {
    hide Count;
  }

  lemma {:induction false} CountMono(sizes: seq<nat>, a: nat, b: nat, l: nat)
    requires a <= b <= |sizes|
    ensures Count(sizes, a, l) <= Count(sizes, b, l)
    ensures a < b && sizes[a] == l ==> Count(sizes, a, l) < Count(sizes, b, l)
    decreases b
  {
    if a < b {
      CountMono(sizes, a, b - 1, l);
    }
  }

  /** A code lies among those of its length. */
  lemma CodeInRange(sizes: seq<nat>, s: nat)
    requires s < |sizes| && sizes[s] > 0
    ensures NextCode(sizes, sizes[s]) <= CodeValue(sizes, s) < After(sizes, sizes[s])
  {
    CountMono(sizes, s, |sizes|, sizes[s]);
  }

  /** Longer codes come after shorter ones. */
  lemma {:induction false} LongerAfter(sizes: seq<nat>, d: nat, l: nat)
    requires 1 <= d < l
    ensures Pow2(l - d) * After(sizes, d) <= NextCode(sizes, l)
  {
    hide Count;
    if l == d + 1 {
      assert Pow2(1) == 2;
    } else {
      LongerAfter(sizes, d, l - 1);
      var p, a := Pow2(l - 1 - d), After(sizes, d);
      assert (2 * p) * a == 2 * (p * a);
    }
  }

  /** The leading bits of a codeword, as a number, are past all codes of their own length. */
  lemma PrefixPast(sizes: seq<nat>, s: nat, d: nat)
    requires s < |sizes| && 1 <= d < sizes[s] <= MAX_BITS && NextCode(sizes, 16) <= 65536
    ensures var v := CodeValue(sizes, s) / Pow2(sizes[s] - d);
      After(sizes, d) <= v < Pow2(d) && Codeword(sizes, s)[..d] == MsbBits(v, d)
  {
    hide CodeValue, After, NextCode;
    var l := sizes[s];
    var c, p := CodeValue(sizes, s), Pow2(l - d);
    CodeInRange(sizes, s);
    Fits(sizes, l);
    LongerAfter(sizes, d, l);
    MsbPrefix(c, l, d);
    Pow2Add(l - d, d);
    DivMod(c, p);
    Between(c, p, After(sizes, d), Pow2(d));
  }

  lemma Between(c: nat, p: nat, a: nat, b: nat)
    requires p > 0 && p * a <= c < p * b
    ensures a <= c / p < b
  {
    DivMod(c, p);
    var q := c / p;
    assert p * (q - b) < 0;
    assert p * (a - q) < p;
    SignOf(p, q - b, a - q);
  }

  lemma SignOf(p: nat, x: int, y: int)
    requires p > 0 && p * x < 0 && p * y < p
    ensures x < 0 && y < 1
  {
  }

  /** No codeword begins another: at most one symbol's codeword begins any bit string. */
  lemma PrefixFree(sizes: seq<nat>, s: nat, t: nat, b: seq<bool>)
    requires Lengths(sizes) && NextCode(sizes, 16) <= 65536
    requires s < |sizes| && t < |sizes| && sizes[s] > 0 && sizes[t] > 0
    requires Codeword(sizes, s) <= b && Codeword(sizes, t) <= b
    ensures s == t
  {
    hide Codeword;
    ShorterApart(sizes, s, t, b);
    ShorterApart(sizes, t, s, b);
    SameLength(sizes, s, t, b);
  }

  lemma ShorterApart(sizes: seq<nat>, s: nat, t: nat, b: seq<bool>)
    requires Lengths(sizes) && NextCode(sizes, 16) <= 65536
    requires s < |sizes| && t < |sizes| && sizes[s] > 0 && sizes[t] > 0
    ensures sizes[s] < sizes[t] && Codeword(sizes, t) <= b ==> !(Codeword(sizes, s) <= b)
  {
    hide CodeValue, After, NextCode, MsbBits;
    if sizes[s] < sizes[t] {
      PrefixPast(sizes, t, sizes[s]);
      CodeInRange(sizes, s);
      Fits(sizes, sizes[s]);
      var v := CodeValue(sizes, t) / Pow2(sizes[t] - sizes[s]);
      if MsbBits(v, sizes[s]) == MsbBits(CodeValue(sizes, s), sizes[s]) {
        MsbInjective(v, CodeValue(sizes, s), sizes[s]);
      }
      assert Codeword(sizes, t) <= b ==> b[..sizes[s]] == Codeword(sizes, t)[..sizes[s]];
    }
  }

  lemma SameLength(sizes: seq<nat>, s: nat, t: nat, b: seq<bool>)
    requires Lengths(sizes) && NextCode(sizes, 16) <= 65536
    requires s < |sizes| && t < |sizes| && sizes[s] > 0 && sizes[t] > 0
    ensures sizes[s] == sizes[t] && Codeword(sizes, s) <= b && Codeword(sizes, t) <= b ==> s == t
  {
    hide After, NextCode, MsbBits;
    if sizes[s] == sizes[t] && Codeword(sizes, s) == Codeword(sizes, t) {
      var l := sizes[s];
      Fits(sizes, l);
      CodeInRange(sizes, s);
      CodeInRange(sizes, t);
      MsbInjective(CodeValue(sizes, s), CodeValue(sizes, t), l);
      CountMono(sizes, if s < t then s else t, if s < t then t else s, l);
    }
  }

  // ----- a complete code leaves no bit string without a symbol -----

  lemma {:induction false} CountHit(sizes: seq<nat>, n: nat, l: nat, k: nat) returns (s: nat)
    requires n <= |sizes| && k < Count(sizes, n, l)
    ensures s < n && sizes[s] == l && Count(sizes, s, l) == k
  {
    if sizes[n - 1] == l && Count(sizes, n - 1, l) == k {
      s := n - 1;
    } else {
      s := CountHit(sizes, n - 1, l, k);
    }
  }

  /** In a complete code every bit string of 15 bits begins with a codeword. */
  lemma CompleteCovers(sizes: seq<nat>, b: seq<bool>) returns (s: nat)
    requires Lengths(sizes) && NextCode(sizes, 16) == 65536 && |b| >= MAX_BITS
    ensures s < |sizes| && sizes[s] > 0 && Codeword(sizes, s) <= b
  {
    hide After, MsbBits;
    var c := MsbOf(b[..15]);
    CompleteEnds(sizes);
    s := CoverFrom(sizes, b, c, 15);
  }

  lemma CompleteEnds(sizes: seq<nat>)
    requires NextCode(sizes, 16) == 65536
    ensures After(sizes, 15) == Pow2(15) && Pow2(0) == 1
  {
    assert Pow2(8) == 256;
    Pow2Add(8, 7);
  }

  lemma {:induction false} CoverFrom(sizes: seq<nat>, b: seq<bool>, c: nat, l: nat) returns (s: nat)
    requires Lengths(sizes) && |b| >= MAX_BITS && MsbBits(c, 15) == b[..15]
    requires 1 <= l <= 15 && c / Pow2(15 - l) < After(sizes, l)
    ensures s < |sizes| && sizes[s] > 0 && Codeword(sizes, s) <= b
    decreases l
  {
    hide Count, MsbBits;
    var v := c / Pow2(15 - l);
    if v >= NextCode(sizes, l) {
      s := CountHit(sizes, |sizes|, l, v - NextCode(sizes, l));
      MsbPrefix(c, 15, l);
      assert b[..15][..l] == b[..l];
    } else {
      assert Pow2(15 - (l - 1)) == 2 * Pow2(15 - l);
      HalfOfQuotient(c, Pow2(15 - l));
      s := CoverFrom(sizes, b, c, l - 1);
    }
  }

  lemma HalfOfQuotient(c: nat, p: nat)
    requires p > 0
    ensures c / (2 * p) == c / p / 2
  {
    var q := c / p;
    DivMod(c, p);
    var r := c % p + p * (q % 2);
    assert q == 2 * (q / 2) + q % 2;
    assert p * q == 2 * p * (q / 2) + p * (q % 2);
    assert r < 2 * p by {
      assert q % 2 == 0 || q % 2 == 1;
    }
    DivModUnique(c, 2 * p, q / 2, r);
  }

  // ----- at most one code -----

  lemma {:induction false} SingleUse(sizes: seq<nat>, n: nat, s: nat, t: nat)
    requires n <= |sizes| && s < t < n && sizes[s] > 0 && sizes[t] > 0
    ensures Used(sizes, n) >= 2
  {
    if t < n - 1 {
      SingleUse(sizes, n - 1, s, t);
    } else {
      SomeUse(sizes, n - 1, s);
    }
  }

  lemma {:induction false} SomeUse(sizes: seq<nat>, n: nat, s: nat)
    requires n <= |sizes| && s < n && sizes[s] > 0
    ensures Used(sizes, n) >= 1
  {
    if s < n - 1 {
      SomeUse(sizes, n - 1, s);
    }
  }

  /** Accepted lengths never ask for more room than there is. */
  lemma AcceptedFits(sizes: seq<nat>)
    requires Accepted(sizes)
    ensures NextCode(sizes, 16) <= 65536
  {
    if NextCode(sizes, 16) != 65536 {
      FewCodes(sizes, 16);
      assert Pow2(8) == 256;
      Pow2Add(8, 8);
    }
  }

  lemma {:induction false} FewCodes(sizes: seq<nat>, l: nat)
    requires Used(sizes, |sizes|) <= 1 && 1 <= l
    ensures NextCode(sizes, l) <= Pow2(l - 1)
    ensures (exists s :: 0 <= s < |sizes| && 0 < sizes[s] < l) || NextCode(sizes, l) == 0
  {
    if l > 1 {
      FewCodes(sizes, l - 1);
      AtMostOne(sizes, l - 1);
      assert Pow2(l - 1) == 2 * Pow2(l - 2);
    }
  }

  lemma AtMostOne(sizes: seq<nat>, l: nat)
    requires Used(sizes, |sizes|) <= 1 && l >= 1
    ensures Count(sizes, |sizes|, l) <= 1
    ensures Count(sizes, |sizes|, l) == 1 ==> exists s :: 0 <= s < |sizes| && sizes[s] == l
    ensures (exists s :: 0 <= s < |sizes| && 0 < sizes[s] < l) ==> Count(sizes, |sizes|, l) == 0
  {
    if Count(sizes, |sizes|, l) >= 2 {
      var s := CountHit(sizes, |sizes|, l, 0);
      var t := CountHit(sizes, |sizes|, l, 1);
      SingleUse(sizes, |sizes|, if s < t then s else t, if s < t then t else s);
    }
    if Count(sizes, |sizes|, l) >= 1 {
      var s := CountHit(sizes, |sizes|, l, 0);
      if t :| 0 <= t < |sizes| && 0 < sizes[t] < l {
        SingleUse(sizes, |sizes|, if s < t then s else t, if s < t then t else s);
      }
    }
  }
}
