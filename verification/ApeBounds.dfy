/** How large residuals can become: those of 16-bit samples fit the 31 bits that the value format
    before version 3990 has room for. */
module ApeBounds {
  import opened Bits
  import opened ApeWords
  import opened Integers
  import opened ApeLossless
  import C = ApeCoding
  import E = ApeEntropy
  import F = ApeFilter
  import P = ApePredictor

  predicate Within(s: seq<int>, b: int) {
    forall i :: 0 <= i < |s| ==> -b <= s[i] <= b
  }

  predicate PairsWithin(s: seq<(int, int)>, b: int) {
    forall i :: 0 <= i < |s| ==> -b <= s[i].0 <= b && -b <= s[i].1 <= b
  }

  /** 16-bit samples are those that clipping leaves alone. */
  predicate Sixteen(s: seq<(int, int)>) {
    forall i :: 0 <= i < |s| ==> ClipInt16(s[i].0) == s[i].0 && ClipInt16(s[i].1) == s[i].1
  }

  predicate MonoSixteen(s: seq<int>) {
    forall i :: 0 <= i < |s| ==> ClipInt16(s[i]) == s[i]
  }

  // ----- the filters -----

  /** A prediction is at most this far from zero. */
  const PREDICTION: int := 0x20_0001

  lemma DotInt32(a: seq<int>, b: seq<int>, n: nat)
    requires n <= |a| && n <= |b|
    ensures Int32(F.Dot(a, b, n))
  {
  }

  lemma FracbitsUsed(fset: nat, level: nat)
    requires FilterSet(fset) && level < LEVELS && Order(fset, level) > 0
    ensures var f := Fracbits(fset, level); f == 10 || f == 11 || f == 13 || f == 15
  {
  }

  lemma ScaleSmall(sum: int, f: nat)
    requires Int32(sum) && (f == 10 || f == 11 || f == 13 || f == 15)
    ensures -PREDICTION <= F.Scale(sum, f) <= PREDICTION
  {
    assert Pow2(9) == 512;
    assert Pow2(12) == 4096 && Pow2(10) == 1024 && Pow2(11) == 2048 && Pow2(13) == 8192;
    assert Pow2(14) == 16384 && Pow2(15) == 32768;
  }

  lemma PredictSmall(s: F.FilterState, f: nat)
    requires |s.coeffs| == |s.delays| && (f == 10 || f == 11 || f == 13 || f == 15)
    ensures -PREDICTION <= F.Predict(s, f) <= PREDICTION
  {
    hide F.Scale, F.Dot;
    DotInt32(s.coeffs, s.delays, |s.coeffs|);
    ScaleSmall(F.Dot(s.coeffs, s.delays, |s.coeffs|), f);
  }

  /** Undoing a filter moves no value further than that. */
  lemma {:induction false} UnrunWithin(s: F.FilterState, ys: seq<int>, f: nat, b: int)
    requires F.Shaped(s, |s.coeffs|) && |s.coeffs| >= 16 && (f == 10 || f == 11 || f == 13 || f == 15)
    requires 0 <= b < 0x4000_0000 && Within(ys, b)
    ensures Within(F.Unrun(s, ys, f).1, b + PREDICTION)
  {
    hide F.Advance, F.Predict, Wrap32;
    if ys != [] {
      var n := |ys| - 1;
      UnrunWithin(s, ys[..n], f, b);
      var (t, xs) := F.Unrun(s, ys[..n], f);
      PredictSmall(t, f);
      Wrap32Id(ys[n] - F.Predict(t, f));
    }
  }

  lemma {:induction false} UncascadeWithin(fset: nat, level: nat, ys: seq<int>, b: int)
    requires FilterSet(fset) && level <= LEVELS && 0 <= b < 0x3F00_0000 && Within(ys, b)
    ensures Within(Uncascade(fset, level, ys), b + (LEVELS - level) * PREDICTION)
    decreases LEVELS - level
  {
    hide F.Unrun, F.Zero, Order, Fracbits;
    if level < LEVELS && Order(fset, level) != 0 {
      UncascadeWithin(fset, level + 1, ys, b);
      FracbitsUsed(fset, level);
      ZeroOrder(fset, level);
      UnrunWithin(F.Zero(Order(fset, level)), Uncascade(fset, level + 1, ys), Fracbits(fset, level),
        b + (LEVELS - level - 1) * PREDICTION);
    }
  }

  lemma ZeroOrder(fset: nat, level: nat)
    requires FilterSet(fset) && level < LEVELS && Order(fset, level) != 0
    ensures |F.Zero(Order(fset, level)).coeffs| >= 16
  {
  }

  // ----- the stereo predictor -----

  const SMALL: int := 0x2_0000
  const RESIDUAL: int := 0x24_0000

  lemma LeakSmall(x: int)
    requires -SMALL <= x <= SMALL
    ensures -SMALL <= P.Leak(x) <= SMALL
  {
  }

  lemma PredictionSmall(p: P.Channel)
    requires P.Shaped(p)
    ensures -0x20_0000 <= P.Prediction(p) <= 0x20_0000
  {
    hide P.SumA, P.SumB;
  }

  lemma Wrap64Id(x: int)
    requires -TWO63 <= x < TWO63
    ensures Wrap64(x) == x
  {
  }

  /** On small samples nothing wraps: the residual is small, and the filter holds the sample itself. */
  lemma ResidualSmall(c: P.Channel, out: int, other: int)
    requires P.Shaped(c) && -SMALL <= c.filterA <= SMALL && -SMALL <= out <= SMALL
    ensures -RESIDUAL <= P.Residual(c, out, other) <= RESIDUAL
    ensures P.Update(c, P.Residual(c, out, other), other).filterA == out
  {
    hide P.Prediction, P.Leak, P.Push, P.Nudged, Wrap32, Wrap64;
    var p := P.Primed(c, other);
    var l, q := P.Leak(p.filterA), P.Prediction(p);
    LeakSmall(p.filterA);
    PredictionSmall(p);
    Wrap32Id(out - l);
    Wrap32Id(out - l - q);
    Wrap64Id(out);
  }

  lemma {:induction false} UnrunPairsWithin(s: P.Stereo, out: seq<(int, int)>)
    requires P.BothShaped(s) && -SMALL <= s.y.filterA <= SMALL && -SMALL <= s.x.filterA <= SMALL
    requires PairsWithin(out, SMALL)
    ensures var (t, d) := P.Unrun(s, out);
      && PairsWithin(d, RESIDUAL)
      && -SMALL <= t.y.filterA <= SMALL && -SMALL <= t.x.filterA <= SMALL
  {
    hide P.Update, P.Residual;
    if out != [] {
      var n := |out| - 1;
      UnrunPairsWithin(s, out[..n]);
      var (t, d) := P.Unrun(s, out[..n]);
      ResidualSmall(t.y, out[n].0, t.x.filterA);
      var y := P.Update(t.y, P.Residual(t.y, out[n].0, t.x.filterA), t.x.filterA);
      ResidualSmall(t.x, out[n].1, y.filterA);
    }
  }

  lemma SeparateSmall(lr: (int, int))
    requires ClipInt16(lr.0) == lr.0 && ClipInt16(lr.1) == lr.1
    ensures -SMALL <= Separate(lr).0 <= SMALL && -SMALL <= Separate(lr).1 <= SMALL
  {
  }

  lemma PairsApart(d: seq<(int, int)>, b: int)
    ensures PairsWithin(d, b) <==> Within(Firsts(d), b) && Within(Seconds(d), b)
  {
    var x, y := Firsts(d), Seconds(d);
    assert forall i :: 0 <= i < |d| ==> x[i] == d[i].0 && y[i] == d[i].1;
  }

  /** The residuals of 16-bit stereo samples stay below 2^24, whatever the filter set and the length. */
  lemma StereoSmall(fset: nat, samples: seq<(int, int)>)
    requires FilterSet(fset) && Sixteen(samples)
    ensures PairsInt32(samples) && PairsWithin(StereoResiduals(fset, samples), 0x100_0000)
  {
    hide P.Unrun, Uncascade, Separate, Firsts, Seconds, PairsWithin;
    var sep := SeparateAll(samples);
    assert PairsWithin(sep, SMALL) by {
      SeparateAllSmall(samples);
    }
    UnrunPairsWithin(BEGIN, sep);
    var d := P.Unrun(BEGIN, sep).1;
    PairsApart(d, RESIDUAL);
    UncascadeWithin(fset, 0, Firsts(d), RESIDUAL);
    UncascadeWithin(fset, 0, Seconds(d), RESIDUAL);
    var e := UncascadePairs(fset, d);
    Wider(Firsts(e), RESIDUAL + 3 * PREDICTION, 0x100_0000);
    Wider(Seconds(e), RESIDUAL + 3 * PREDICTION, 0x100_0000);
    PairsApart(e, 0x100_0000);
  }

  lemma Wider(s: seq<int>, a: int, b: int)
    requires Within(s, a) && a <= b
    ensures Within(s, b)
  {
  }

  lemma SeparateAllSmall(samples: seq<(int, int)>)
    requires Sixteen(samples)
    ensures PairsInt32(samples) && PairsWithin(SeparateAll(samples), SMALL)
  {
    hide Separate;
    forall i | 0 <= i < |samples|
      ensures var d := SeparateAll(samples)[i]; -SMALL <= d.0 <= SMALL && -SMALL <= d.1 <= SMALL
    {
      SeparateSmall(samples[i]);
    }
  }

  // ----- the mono predictor -----

  /** Mono predictions are not cut to 32 bits; they grow with the coefficients, by one a sample. */
  const LONGEST: nat := 0x20_0000

  predicate MonoTame(c: P.Channel, n: nat)
  {
    && P.Shaped(c) && -0x8000 <= c.filterA <= 0x8000 && -0x1_0000 <= c.lastA <= 0x1_0000
    && Within(c.coeffsA, 360 + n)
    && -0x1_0000 <= c.histA[0] <= 0x1_0000 && Within(c.histA, SMALL)
  }

  lemma ProductSmall(h: int, c: int, a: int, b: int)
    requires -a <= h <= a && -b <= c <= b
    ensures -(a * b) <= h * c <= a * b
  {
    if 0 <= h && 0 <= c {
      Monotone(h, a, c, b);
    } else if 0 <= h {
      Monotone(h, a, -c, b);
      assert h * -c == -(h * c);
    } else if 0 <= c {
      Monotone(-h, a, c, b);
      assert -h * c == -(h * c);
    } else {
      Monotone(-h, a, -c, b);
      assert -h * -c == h * c;
    }
  }

  lemma Monotone(x: nat, a: nat, y: nat, b: nat)
    requires x <= a && y <= b
    ensures 0 <= x * y <= a * b
  {
    TimesMono(x, y, b);
    TimesMono(b, x, a);
    assert b * x == x * b && b * a == a * b;
  }

  lemma MonoPredictionSmall(p: P.Channel, n: nat)
    requires P.Shaped(p) && n <= LONGEST && Within(p.coeffsA, 360 + n)
    requires -0x1_0000 <= p.histA[0] <= 0x1_0000 && Within(p.histA, SMALL)
    ensures -0x3900_0000 <= P.MonoPrediction(p) <= 0x3900_0000
  {
    hide Wrap64;
    var c, h := p.coeffsA, p.histA;
    FourSmall(h[0], h[1], h[2], h[3], c[0], c[1], c[2], c[3], 360 + n);
    Quotient1024(h[0] * c[0] + h[1] * c[1] + h[2] * c[2] + h[3] * c[3]);
  }

  lemma FourSmall(h0: int, h1: int, h2: int, h3: int, c0: int, c1: int, c2: int, c3: int, k: int)
    requires k >= 0
    requires -0x1_0000 <= h0 <= 0x1_0000 && -SMALL <= h1 <= SMALL && -SMALL <= h2 <= SMALL && -SMALL <= h3 <= SMALL
    requires -k <= c0 <= k && -k <= c1 <= k && -k <= c2 <= k && -k <= c3 <= k
    ensures -(0x7_0000 * k) <= h0 * c0 + h1 * c1 + h2 * c2 + h3 * c3 <= 0x7_0000 * k
  {
    ProductSmall(h0, c0, 0x1_0000, k);
    ProductSmall(h1, c1, SMALL, k);
    ProductSmall(h2, c2, SMALL, k);
    ProductSmall(h3, c3, SMALL, k);
  }

  lemma Quotient1024(x: int)
    ensures -0xE4_0000_0000 <= x <= 0xE4_0000_0000 ==> -0x3900_0000 <= Wrap64(x) / 1024 <= 0x3900_0000
  {
    if -0xE4_0000_0000 <= x <= 0xE4_0000_0000 {
      Wrap64Id(x);
    }
  }

  lemma MonoPrimedTame(c: P.Channel, n: nat)
    requires MonoTame(c, n)
    ensures var p := P.MonoPrimed(c);
      Within(p.coeffsA, 360 + n) && -0x1_0000 <= p.histA[0] <= 0x1_0000 && Within(p.histA, SMALL)
  {
    hide Wrap64;
    Wrap64Id(c.lastA - c.histA[0]);
  }

  lemma NudgedSmall(c: seq<int>, h: seq<int>, decoded: int, n: nat)
    requires |c| == |h| && Within(c, 360 + n) && n <= LONGEST
    ensures Within(P.Nudged(c, h, decoded), 360 + n + 1)
  {
    hide Wrap64, ApeSign;
    forall i | 0 <= i < |c|
      ensures -(360 + n + 1) <= P.Nudged(c, h, decoded)[i] <= 360 + n + 1
    {
      SignProduct(ApeSign(h[i]), ApeSign(decoded));
      Wrap64Id(c[i] + ApeSign(h[i]) * ApeSign(decoded));
    }
  }

  lemma SignProduct(a: int, b: int)
    requires -1 <= a <= 1 && -1 <= b <= 1
    ensures -1 <= a * b <= 1
  {
  }

  lemma MonoLeakSmall(x: int)
    requires -0x8000 <= x <= 0x8000
    ensures -0x8000 <= P.Leak(x) <= 0x8000
  {
  }

  const MONO_RESIDUAL: int := 0x3A00_0000

  lemma MonoResidualSmall(c: P.Channel, out: int, n: nat)
    requires MonoTame(c, n) && n < LONGEST && -0x8000 <= out <= 0x8000
    ensures -MONO_RESIDUAL <= P.MonoResidual(c, out) <= MONO_RESIDUAL
    ensures MonoTame(P.MonoUpdate(c, P.MonoResidual(c, out)), n + 1)
  {
    hide P.MonoPrediction, P.Leak, P.Push, P.Nudged, Wrap32, Wrap64;
    var p := P.MonoPrimed(c);
    var l, q, d := P.Leak(p.filterA), P.MonoPrediction(p), P.MonoResidual(c, out);
    MonoPrimedTame(c, n);
    MonoLeakSmall(p.filterA);
    MonoPredictionSmall(p, n);
    Wrap32Id(out - l);
    Wrap32Id(out - l - q);
    Wrap64Id(out - l);
    Wrap64Id(out);
    NudgedSmall(p.coeffsA, p.histA, d, n);
  }

  lemma {:induction false} MonoUnrunWithin(c: P.Channel, out: seq<int>)
    requires MonoTame(c, 0) && |out| <= LONGEST && Within(out, 0x8000)
    ensures var (t, d) := P.MonoUnrun(c, out); Within(d, MONO_RESIDUAL) && MonoTame(t, |out|)
  {
    hide P.MonoUpdate, P.MonoResidual, MonoTame;
    if out != [] {
      var n := |out| - 1;
      MonoUnrunWithin(c, out[..n]);
      TameShaped(c, 0);
      var (t, d) := P.MonoUnrun(c, out[..n]);
      MonoResidualSmall(t, out[n], n);
    }
  }

  lemma TameShaped(c: P.Channel, n: nat)
    requires MonoTame(c, n)
    ensures P.Shaped(c)
  {
  }

  /** The residuals of 16-bit mono samples stay below 2^30, for blocks of up to 2^21 samples. */
  lemma MonoSmall(fset: nat, samples: seq<int>)
    requires FilterSet(fset) && MonoSixteen(samples) && |samples| <= LONGEST
    ensures AllInt32(samples) && Within(MonoResiduals(fset, samples), 0x3FFF_FFFF)
  {
    hide P.MonoUnrun, Uncascade;
    assert MonoTame(P.Start(), 0);
    MonoUnrunWithin(P.Start(), samples);
    var d := P.MonoUnrun(P.Start(), samples).1;
    UncascadeWithin(fset, 0, d, MONO_RESIDUAL);
    Wider(MonoResiduals(fset, samples), MONO_RESIDUAL + 3 * PREDICTION, 0x3FFF_FFFF);
  }
}
