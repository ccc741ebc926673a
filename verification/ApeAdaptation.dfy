/** What the filters and the predictor of the APE decoder adapt to: both are sign-LMS, so that a
    prediction that was too low is higher the next time, and the other way round. */
module ApeAdaptation {
  import opened Bits
  import opened ApeWords
  import opened Integers
  import opened ApeFilter
  import P = ApePredictor

  // ----- the filter: rounding, steps and the mean -----

  /** The sum is divided by 2^f and rounded to the nearest number, halves upwards. */
  lemma ScaleNearest(sum: int, f: nat)
    requires f > 0
    ensures var p: int := Pow2(f); -p < 2 * (Scale(sum, f) * p - sum) <= p
  {
    Nearest(sum, Pow2(f - 1), Scale(sum, f));
  }

  lemma Nearest(sum: int, h: int, q: int)
    requires h > 0 && q == (sum + h) / (2 * h)
    ensures -2 * h < 2 * (q * (2 * h) - sum) <= 2 * h
  {
    var d := 2 * h;
    assert 0 <= (sum + h) - d * ((sum + h) / d) < d;
    assert q * d == d * q;
  }

  /** The size of the step that is recorded: none for zero, 8 up to 4/3 of the mean, 16 up to three
      times the mean, and 32 beyond.  Its sign is opposite to the output's. */
  lemma StepSize(res: int, avg: nat)
    requires avg < 0x8000_0000
    ensures Abs(NewAdapt(res, avg)) ==
      if res == 0 then 0 else if 3 * Abs(res) <= 4 * avg then 8 else if Abs(res) <= 3 * avg then 16 else 32
    ensures (res > 0 ==> NewAdapt(res, avg) < 0) && (res < 0 ==> NewAdapt(res, avg) > 0)
  {
  }

  /** Larger outputs never take smaller steps. */
  lemma StepMonotone(a: int, b: int, avg: nat)
    requires avg < 0x8000_0000 && Abs(a) <= Abs(b)
    ensures Abs(NewAdapt(a, avg)) <= Abs(NewAdapt(b, avg))
  {
  }

  /** The mean moves by a sixteenth of the way to the new size, rounded towards where it was. */
  lemma MeanMoves(res: int, avg: nat)
    requires Abs(res) < 0x8000_0000 && avg < 0x8000_0000
    ensures var move := NewAvg(res, avg) - avg;
      if Abs(res) >= avg then 16 * move <= Abs(res) - avg < 16 * move + 16
      else -16 * move <= avg - Abs(res) < -16 * move + 16
  {
    hide Abs;
    Wrap32Id(Abs(res) - avg);
  }

  // ----- the filter: what is in the windows -----

  /** How often the step of an output has been halved when `age` more have come. */
  function Halvings(age: nat): (h: nat) {
    if age == 0 then 0 else if age == 1 then 1 else if age < 8 then 2 else 3
  }

  function Halved(v: int, h: nat): (w: int) {
    if h == 0 then v else Halved(v, h - 1) / 2
  }

  /** The outputs of a block so far. */
  function Outputs(order: nat, f: nat, xs: seq<int>): (ys: seq<int>)
    requires order >= 16 && f > 0
    ensures |ys| == |xs|
  {
    Run(Zero(order), xs, f).1
  }

  function After(order: nat, f: nat, xs: seq<int>): (s: FilterState)
    requires order >= 16 && f > 0
    ensures Shaped(s, order)
  {
    Run(Zero(order), xs, f).0
  }

  /** The step recorded for output `i`. */
  function StepOf(order: nat, f: nat, xs: seq<int>, i: nat): int
    requires order >= 16 && f > 0 && i < |xs|
  {
    NewAdapt(Outputs(order, f, xs)[i], After(order, f, xs[..i]).avg)
  }

  /** The windows: the latest `order` outputs, cut to 16 bits, and the steps recorded for them, halved
      after one, two and eight more; zeros before the block begins. */
  predicate WindowAt(order: nat, f: nat, xs: seq<int>, age: nat)
    requires order >= 16 && f > 0 && age < order
  {
    var s, n := After(order, f, xs), |xs|;
    if age < n then
      && s.delays[order - 1 - age] == ClipInt16(Outputs(order, f, xs)[n - 1 - age])
      && s.adapts[order - 1 - age] == Halved(StepOf(order, f, xs, n - 1 - age), Halvings(age))
    else s.delays[order - 1 - age] == s.adapts[order - 1 - age] == 0
  }

  lemma {:induction false} Windows(order: nat, f: nat, xs: seq<int>)
    requires order >= 16 && f > 0
    ensures forall age :: 0 <= age < order ==> WindowAt(order, f, xs, age)
    decreases |xs|
  {
    hide Run, NewAdapt, NewAvg, Adapted, Predict, ClipInt16;
    if xs == [] {
      NothingYet(order, f);
    } else {
      Windows(order, f, xs[..|xs| - 1]);
      forall age | 0 <= age < order
        ensures WindowAt(order, f, xs, age)
      {
        if age > 0 {
          assert WindowAt(order, f, xs[..|xs| - 1], age - 1);
        }
        WindowMoves(order, f, xs, age);
      }
    }
  }

  lemma NothingYet(order: nat, f: nat)
    requires order >= 16 && f > 0
    ensures forall age :: 0 <= age < order ==> WindowAt(order, f, [], age)
  {
  }

  /** The last sample of a block. */
  lemma LastSample(order: nat, f: nat, xs: seq<int>)
    requires order >= 16 && f > 0 && xs != []
    ensures var n := |xs| - 1;
      var s := After(order, f, xs[..n]);
      var res := Filter(s, xs[n], f);
      After(order, f, xs) == Advance(s, xs[n], res) && Outputs(order, f, xs) == Outputs(order, f, xs[..n]) + [res]
  {
    hide Advance, Filter;
  }

  lemma WindowMoves(order: nat, f: nat, xs: seq<int>, age: nat)
    requires order >= 16 && f > 0 && xs != [] && age < order
    requires age > 0 ==> WindowAt(order, f, xs[..|xs| - 1], age - 1)
    ensures WindowAt(order, f, xs, age)
  {
    hide Run, NewAdapt, NewAvg, Adapted, Predict, ClipInt16, After, Outputs;
    LastSample(order, f, xs);
    if 0 < age < |xs| {
      SameStep(order, f, xs, |xs| - 1 - age);
      Aging(StepOf(order, f, xs, |xs| - 1 - age), age);
    }
  }

  lemma SameStep(order: nat, f: nat, xs: seq<int>, i: nat)
    requires order >= 16 && f > 0 && i < |xs| - 1
    ensures StepOf(order, f, xs[..|xs| - 1], i) == StepOf(order, f, xs, i)
    ensures Outputs(order, f, xs[..|xs| - 1])[i] == Outputs(order, f, xs)[i]
  {
    hide Run, NewAdapt, After, Outputs;
    LastSample(order, f, xs);
    assert xs[..|xs| - 1][..i] == xs[..i];
  }

  lemma Aging(v: int, age: nat)
    requires age > 0
    ensures Halved(v, Halvings(age)) == (var w := Halved(v, Halvings(age - 1)); if age == 1 || age == 2 || age == 8 then w / 2 else w)
    ensures 0 / 2 == 0
  {
    assert Halved(v, 1) == Halved(v, 0) / 2;
    assert Halved(v, 2) == Halved(v, 1) / 2;
    assert Halved(v, 3) == Halved(v, 2) / 2;
  }

  // ----- the filter: what adapting does to the prediction -----

  /** The sum of products without wrap-around. */
  function Plain(a: seq<int>, b: seq<int>, n: nat): int
    requires n <= |a| && n <= |b|
  {
    if n == 0 then 0 else Plain(a, b, n - 1) + a[n - 1] * b[n - 1]
  }

  /** The decoder's sum is that one, cut to 32 bits. */
  lemma {:induction false} DotIsPlain(a: seq<int>, b: seq<int>, n: nat)
    requires n <= |a| && n <= |b|
    ensures Dot(a, b, n) == Wrap32(Plain(a, b, n))
  {
    if n > 0 {
      DotIsPlain(a, b, n - 1);
      Wrap32Sum(Plain(a, b, n - 1), a[n - 1] * b[n - 1]);
    }
  }

  ghost predicate NoWrap(c: seq<int>, a: seq<int>, sign: int)
    requires |c| == |a|
  {
    forall i :: 0 <= i < |c| ==> -TWO15 <= c[i] + a[i] * sign < TWO15
  }

  /** Each recorded step is opposed to the output beside it. */
  ghost predicate Opposed(s: FilterState) {
    |s.delays| == |s.adapts| && forall i :: 0 <= i < |s.delays| ==> Opposite(s.adapts[i], s.delays[i])
  }

  predicate Opposite(a: int, d: int) {
    (d > 0 ==> a <= 0) && (d < 0 ==> a >= 0) && (d == 0 ==> a == 0)
  }

  lemma HalvedSign(v: int, h: nat)
    ensures v <= 0 ==> Halved(v, h) <= 0
    ensures v >= 0 ==> Halved(v, h) >= 0
  {
  }

  /** In the windows of every block they are. */
  lemma StepsOpposed(order: nat, f: nat, xs: seq<int>)
    requires order >= 16 && f > 0
    ensures Opposed(After(order, f, xs))
  {
    hide Run, NewAdapt, After, Outputs, ClipInt16;
    Windows(order, f, xs);
    var s, n := After(order, f, xs), |xs|;
    forall i | 0 <= i < order
      ensures Opposite(s.adapts[i], s.delays[i])
    {
      var age := order - 1 - i;
      assert WindowAt(order, f, xs, age);
      if age < n {
        var res, avg := Outputs(order, f, xs)[n - 1 - age], After(order, f, xs[..n - 1 - age]).avg;
        StepOpposes(res, avg);
        HalvedSign(NewAdapt(res, avg), Halvings(age));
        NoneHalved(Halvings(age));
      }
    }
  }

  lemma NoneHalved(h: nat)
    ensures Halved(0, h) == 0
  {
  }

  lemma StepOpposes(res: int, avg: nat)
    ensures Opposite(NewAdapt(res, avg), res)
    ensures ClipInt16(res) > 0 <==> res > 0
    ensures ClipInt16(res) < 0 <==> res < 0
  {
  }

  lemma {:induction false} AdaptedMoves(c: seq<int>, a: seq<int>, d: seq<int>, sign: int, n: nat)
    requires n <= |c| == |a| == |d| && NoWrap(c, a, sign)
    ensures Plain(Adapted(c, a, sign), d, n) == Plain(c, d, n) + sign * Plain(a, d, n)
  {
    hide Wrap16;
    if n > 0 {
      AdaptedMoves(c, a, d, sign, n - 1);
      assert Adapted(c, a, sign)[n - 1] == Wrap16(c[n - 1] + a[n - 1] * sign);
      Wrap16Id(c[n - 1] + a[n - 1] * sign);
      Distribute(c[n - 1], a[n - 1], sign, d[n - 1], Plain(a, d, n - 1));
    }
  }

  lemma Wrap16Id(x: int)
    requires -TWO15 <= x < TWO15
    ensures Wrap16(x) == x
  {
  }

  lemma Distribute(c: int, a: int, s: int, d: int, p: int)
    ensures (c + a * s) * d == c * d + s * (a * d)
    ensures s * (p + a * d) == s * p + s * (a * d)
  {
    assert (a * s) * d == s * (a * d);
  }

  lemma {:induction false} OpposedSum(s: FilterState, n: nat)
    requires Opposed(s) && n <= |s.delays|
    ensures Plain(s.adapts, s.delays, n) <= 0
  {
    if n > 0 {
      OpposedSum(s, n - 1);
      assert Opposite(s.adapts[n - 1], s.delays[n - 1]);
      OppositeProduct(s.adapts[n - 1], s.delays[n - 1]);
    }
  }

  lemma OppositeProduct(a: int, d: int)
    requires Opposite(a, d)
    ensures a * d <= 0
  {
  }

  /** Sign-LMS: after any block, adapting to an input moves what the same window predicts in the
      direction of that input, by the steps times the outputs. */
  lemma FilterLearns(order: nat, f: nat, xs: seq<int>, x: int)
    requires order >= 16 && f > 0
    requires var s := After(order, f, xs); NoWrap(s.coeffs, s.adapts, ApeSign(x))
    ensures var s := After(order, f, xs);
      var before, after := Plain(s.coeffs, s.delays, order), Plain(Adapted(s.coeffs, s.adapts, ApeSign(x)), s.delays, order);
      && after - before == ApeSign(x) * Plain(s.adapts, s.delays, order)
      && (x > 0 ==> after >= before) && (x < 0 ==> after <= before) && (x == 0 ==> after == before)
  {
    hide After, Adapted, Plain;
    StepsOpposed(order, f, xs);
    var s := After(order, f, xs);
    AdaptedMoves(s.coeffs, s.adapts, s.delays, ApeSign(x), order);
    OpposedSum(s, order);
  }

  // ----- the predictor -----

  function Sgn(x: int): int {
    if x > 0 then 1 else if x < 0 then -1 else 0
  }

  predicate Fits(c: seq<int>, h: seq<int>) {
    && |c| == |h| && (forall i :: 0 <= i < |c| ==> -TWO63 < c[i] < TWO63 - 1)
  }

  lemma NudgedAt(c: seq<int>, h: seq<int>, d: int, i: nat)
    requires Fits(c, h) && i < |c|
    ensures P.Nudged(c, h, d)[i] == c[i] + Sgn(h[i]) * Sgn(d)
    ensures h[i] * P.Nudged(c, h, d)[i] == h[i] * c[i] + Sgn(d) * Abs(h[i])
  {
    var n := c[i] + ApeSign(h[i]) * ApeSign(d);
    Wrap64Id(n);
    assert ApeSign(h[i]) * ApeSign(d) == Sgn(h[i]) * Sgn(d);
    assert h[i] * (c[i] + Sgn(h[i]) * Sgn(d)) == h[i] * c[i] + h[i] * (Sgn(h[i]) * Sgn(d));
  }

  lemma Wrap64Id(x: int)
    requires -TWO63 <= x < TWO63
    ensures Wrap64(x) == x
  {
  }

  /** The stages' sums of products, and how far a coefficient step moves them. */
  function PlainA(h: seq<int>, c: seq<int>): int
    requires |h| == |c| == 4
  {
    h[0] * c[0] + h[1] * c[1] + h[2] * c[2] + h[3] * c[3]
  }

  function PlainB(h: seq<int>, c: seq<int>): int
    requires |h| == |c| == 5
  {
    h[0] * c[0] + h[1] * c[1] + h[2] * c[2] + h[3] * c[3] + h[4] * c[4]
  }

  /** Every coefficient moves by one, so that the sum moves by the sizes of its inputs, in the
      direction of the residual. */
  lemma SumsMove(p: P.Channel, d: int)
    requires P.Shaped(p) && Fits(p.coeffsA, p.histA) && Fits(p.coeffsB, p.histB)
    ensures var a, b := p.histA, p.histB;
      && PlainA(a, P.Nudged(p.coeffsA, a, d)) == PlainA(a, p.coeffsA) + Sgn(d) * (Abs(a[0]) + Abs(a[1]) + Abs(a[2]) + Abs(a[3]))
      && PlainB(b, P.Nudged(p.coeffsB, b, d))
         == PlainB(b, p.coeffsB) + Sgn(d) * (Abs(b[0]) + Abs(b[1]) + Abs(b[2]) + Abs(b[3]) + Abs(b[4]))
  {
    hide P.Nudged, Fits, Abs;
    forall i | 0 <= i < 5
      ensures i < 4 ==> p.histA[i] * P.Nudged(p.coeffsA, p.histA, d)[i] == p.histA[i] * p.coeffsA[i] + Sgn(d) * Abs(p.histA[i])
      ensures p.histB[i] * P.Nudged(p.coeffsB, p.histB, d)[i] == p.histB[i] * p.coeffsB[i] + Sgn(d) * Abs(p.histB[i])
    {
      if i < 4 {
        NudgedAt(p.coeffsA, p.histA, d, i);
      }
      NudgedAt(p.coeffsB, p.histB, d, i);
    }
  }

  /** Sums that nothing wraps. */
  predicate Tame(p: P.Channel)
    requires P.Shaped(p)
  {
    var a, b := PlainA(p.histA, p.coeffsA), PlainB(p.histB, p.coeffsB);
    Int32(a) && Int32(b) && Int32(a + b / 2)
  }

  /** The prediction is the A stage's sum and half of the B stage's, with ten bits of fraction cut off. */
  lemma PredictionIs(p: P.Channel)
    requires P.Shaped(p) && Tame(p)
    ensures P.Prediction(p) == (2 * PlainA(p.histA, p.coeffsA) + PlainB(p.histB, p.coeffsB)) / 2048
  {
    hide Wrap32, Wrap64, PlainA, PlainB;
    var a, b := PlainA(p.histA, p.coeffsA), PlainB(p.histB, p.coeffsB);
    SumsArePlain(p);
    Wrap64Id(a);
    Wrap64Id(b);
    Wrap32Id(a);
    Wrap32Id(b);
    Wrap32Id(a + b / 2);
    HalfInside(a, b);
  }

  lemma SumsArePlain(p: P.Channel)
    requires P.Shaped(p)
    ensures P.SumA(p.histA, p.coeffsA) == Wrap64(PlainA(p.histA, p.coeffsA))
    ensures P.SumB(p.histB, p.coeffsB) == Wrap64(PlainB(p.histB, p.coeffsB))
  {
    hide Wrap64;
  }

  lemma HalfInside(a: int, b: int)
    ensures (a + b / 2) / 1024 == (2 * a + b) / 2048
  {
  }

  /** Sign-LMS: with the coefficients that a residual leaves, the same histories predict no less if it
      was positive, no more if it was negative, and the same if it was zero. */
  lemma PredictorLearns(p: P.Channel, d: int)
    requires P.Shaped(p) && Fits(p.coeffsA, p.histA) && Fits(p.coeffsB, p.histB)
    requires var n := p.(coeffsA := P.Nudged(p.coeffsA, p.histA, d), coeffsB := P.Nudged(p.coeffsB, p.histB, d));
      Tame(p) && Tame(n)
    ensures var n := p.(coeffsA := P.Nudged(p.coeffsA, p.histA, d), coeffsB := P.Nudged(p.coeffsB, p.histB, d));
      && (d > 0 ==> P.Prediction(n) >= P.Prediction(p))
      && (d < 0 ==> P.Prediction(n) <= P.Prediction(p))
      && (d == 0 ==> P.Prediction(n) == P.Prediction(p))
  {
    hide P.Nudged, P.Prediction, PlainA, PlainB, Tame, Fits;
    var n := p.(coeffsA := P.Nudged(p.coeffsA, p.histA, d), coeffsB := P.Nudged(p.coeffsB, p.histB, d));
    SumsMove(p, d);
    PredictionIs(p);
    PredictionIs(n);
    var a, b := PlainA(p.histA, p.coeffsA), PlainB(p.histB, p.coeffsB);
    var u, v := PlainA(n.histA, n.coeffsA), PlainB(n.histB, n.coeffsB);
    Quotients(2 * a + b, 2 * u + v);
    Quotients(2 * u + v, 2 * a + b);
  }

  lemma Quotients(a: int, b: int)
    ensures a <= b ==> a / 2048 <= b / 2048
  {
  }

  /** A channel, and a value from the other one, far from the limits of 64 bits. */
  predicate Modest(c: P.Channel, other: int)
    requires P.Shaped(c)
  {
    && Mild(c.lastA) && Mild(c.filterA) && Mild(c.filterB) && Mild(other)
    && (forall i :: 0 <= i < 4 ==> Mild(c.histA[i]) && Mild(c.coeffsA[i]))
    && (forall i :: 0 <= i < 5 ==> Mild(c.histB[i]) && Mild(c.coeffsB[i]))
  }

  predicate Mild(x: int) {
    -0x100_0000_0000 < x < 0x100_0000_0000
  }

  /** The histories once the new values are in: each value, its difference to the one before, and the
      differences before that. */
  function NewA(c: P.Channel): (a: seq<int>)
    requires P.Shaped(c)
    ensures |a| == 4
  {
    [c.lastA, c.lastA - c.histA[0], c.histA[1], c.histA[2]]
  }

  function NewB(c: P.Channel, other: int): (b: seq<int>)
    requires P.Shaped(c)
    ensures |b| == 5
  {
    var v := other - 31 * c.filterB / 32;
    [v, v - c.histB[0], c.histB[1], c.histB[2], c.histB[3]]
  }

  /** A coefficient moves by one, up if its input and the residual agree in sign. */
  function Moved(c: int, h: int, d: int): int {
    c + Sgn(h) * Sgn(d)
  }

  /** The predictor on plain numbers. */
  function Learned(c: P.Channel, d: int, other: int): (n: P.Channel)
    requires P.Shaped(c)
  {
    var a, b := NewA(c), NewB(c, other);
    var last := d + (2 * PlainA(a, c.coeffsA) + PlainB(b, c.coeffsB)) / 2048;
    var m, n := c.coeffsA, c.coeffsB;
    P.Channel(last, last + 31 * c.filterA / 32, other,
      [Moved(m[0], a[0], d), Moved(m[1], a[1], d), Moved(m[2], a[2], d), Moved(m[3], a[3], d)],
      [Moved(n[0], b[0], d), Moved(n[1], b[1], d), Moved(n[2], b[2], d), Moved(n[3], b[3], d), Moved(n[4], b[4], d)],
      a, b)
  }

  /** Where nothing wraps, that is what the decoder computes. */
  lemma UpdateIs(c: P.Channel, d: int, other: int)
    requires P.Shaped(c) && Modest(c, other)
    requires Tame(c.(histA := NewA(c), histB := NewB(c, other))) && Int32(Learned(c, d, other).lastA)
    ensures P.Update(c, d, other) == Learned(c, d, other)
  {
    hide P.Prediction, P.Nudged, PlainA, PlainB, Wrap32, Wrap64, Mild, Moved;
    PrimedIs(c, other);
    var p := P.Primed(c, other);
    PredictionIs(p);
    Wrap32Id(Learned(c, d, other).lastA);
    MildLeak(c.filterA, Learned(c, d, other).lastA);
    MovedAre(p.coeffsA, p.histA, d);
    MovedAre(p.coeffsB, p.histB, d);
  }

  lemma PrimedIs(c: P.Channel, other: int)
    requires P.Shaped(c) && Modest(c, other)
    ensures P.Primed(c, other) == c.(histA := NewA(c), histB := NewB(c, other), filterB := other)
  {
    hide Wrap64;
    Wrap64Id(c.lastA - c.histA[0]);
    Wrap64Id(c.filterB * 31);
    var v := other - 31 * c.filterB / 32;
    Wrap64Id(v);
    Wrap64Id(v - c.histB[0]);
  }

  lemma MildLeak(x: int, last: int)
    requires Mild(x) && Int32(last)
    ensures Wrap64(last + P.Leak(x)) == last + 31 * x / 32
  {
    hide Wrap64;
    Wrap64Id(x * 31);
    Wrap64Id(last + 31 * x / 32);
  }

  lemma MovedAre(c: seq<int>, h: seq<int>, d: int)
    requires |c| == |h| && forall i :: 0 <= i < |c| ==> Mild(c[i])
    ensures forall i :: 0 <= i < |c| ==> P.Nudged(c, h, d)[i] == Moved(c[i], h[i], d)
  {
    forall i | 0 <= i < |c|
      ensures P.Nudged(c, h, d)[i] == Moved(c[i], h[i], d)
    {
      NudgedAt(c, h, d, i);
    }
  }
}
