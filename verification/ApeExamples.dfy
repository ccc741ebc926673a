/** The filter and the predictor on given numbers. */
module ApeExamples {
  import opened Bits
  import opened ApeWords
  import opened Integers
  import F = ApeFilter
  import P = ApePredictor
  import L = ApeLossless
  import opened ApeAdaptation

  // ----- the predictor -----

  lemma NoWrap()
    ensures forall x :: -TWO63 <= x < TWO63 ==> Wrap64(x) == x
    ensures forall x :: Int32(x) ==> Wrap32(x) == x
  {
  }

  /** One value, with everything the predictor keeps at work in it. */
  lemma OneUpdate()
    ensures P.Update(
        P.Channel(5000, -7001, 3333, [360, 317, -109, 98], [11, -23, 37, -41, 53], [4100, -900, 777, -1234],
                  [2500, -600, 450, -333, 222]), -77, 6543)
      == P.Channel(2109, -4674, 6543, [359, 316, -108, 97], [10, -24, 38, -42, 54], [5000, 900, -900, 777],
                   [3315, 815, -600, 450, -333])
  {
    hide Wrap64, Wrap32;
    NoWrap();
  }

  /** Another one, large enough for the first sum to be cut to 32 bits. */
  lemma WrappingUpdate()
    ensures P.Update(WRAPPING, 7, -65430)
      == P.Channel(-1353052, -1285239, -65430, [3599, 3169, 1091, -981], [-11001, 2299, -36999, 40999, 53001],
                   [-2000000, -1959000, 90000, -77700], [-33138, -58138, 60000, -45000, 33300])
  {
    hide Wrap64, Wrap32, P.Primed, P.Prediction;
    WrappingHistories();
    WrappingPrediction();
    NoWrap();
  }

  const WRAPPING: P.Channel := P.Channel(-2000000, 70001, -33333, [3600, 3170, 1090, -980],
    [-11000, 2300, -37000, 41000, 53000], [-41000, 90000, -77700, 123400], [25000, 60000, -45000, 33300, -22200])
  const WRAPPING_PRIMED: P.Channel := WRAPPING.(filterB := -65430, histA := [-2000000, -1959000, 90000, -77700],
    histB := [-33138, -58138, 60000, -45000, 33300])

  lemma WrappingHistories()
    ensures P.Primed(WRAPPING, -65430) == WRAPPING_PRIMED
  {
    hide Wrap64;
    NoWrap();
  }

  lemma WrappingPrediction()
    ensures P.Prediction(WRAPPING_PRIMED) == -1353059
  {
    hide Wrap64, Wrap32;
    NoWrap();
    CutSum();
  }

  lemma CutSum()
    ensures Wrap32(-13235784000) == -350882112
  {
  }

  /** The channels after a pair, and after another one. */
  const Y1: P.Channel := P.Channel(1000, 1000, 0, [360, 317, -109, 98], [0, 0, 0, 0, 0], [0, 0, 0, 0], [0, 0, 0, 0, 0])
  const X1: P.Channel := P.Channel(1000, 1000, 1000, [360, 317, -109, 98], [1, 1, 0, 0, 0], [0, 0, 0, 0], [1000, 1000, 0, 0, 0])
  const Y2: P.Channel := P.Channel(1661, 2629, 1000, [361, 318, -109, 98], [1, 1, 0, 0, 0], [1000, 1000, 0, 0], [1000, 1000, 0, 0, 0])
  const X2: P.Channel := P.Channel(1662, 2630, 2629, [361, 318, -109, 98], [2, 2, 1, 0, 0], [1000, 1000, 0, 0], [1661, 661, 1000, 0, 0])

  lemma FirstY()
    ensures P.Update(P.Start(), 1000, 0) == Y1
  {
    hide P.Update;
    UpdateIs(P.Start(), 1000, 0);
  }

  lemma FirstX()
    ensures P.Update(P.Start(), 1000, 1000) == X1
  {
    hide P.Update;
    UpdateIs(P.Start(), 1000, 1000);
  }

  lemma SecondY()
    ensures P.Update(Y1, 1000, 1000) == Y2
  {
    hide P.Update, Learned, Tame, Modest, NewA, NewB;
    SecondYSums();
    SecondYLearned();
    UpdateIs(Y1, 1000, 1000);
  }

  lemma SecondYSums()
    ensures P.Shaped(Y1) && Modest(Y1, 1000) && NewA(Y1) == [1000, 1000, 0, 0] && NewB(Y1, 1000) == [1000, 1000, 0, 0, 0]
    ensures Tame(Y1.(histA := NewA(Y1), histB := NewB(Y1, 1000)))
  {
    hide NewA, NewB, PlainA, PlainB, Mild;
    SecondYHistories();
    assert PlainA([1000, 1000, 0, 0], [360, 317, -109, 98]) == 677000 by { SecondYProducts(); }
    assert PlainB([1000, 1000, 0, 0, 0], [0, 0, 0, 0, 0]) == 0 by { SecondYProducts(); }
    Milds();
  }

  lemma SecondYHistories()
    ensures NewA(Y1) == [1000, 1000, 0, 0] && NewB(Y1, 1000) == [1000, 1000, 0, 0, 0]
  {
  }

  lemma SecondYProducts()
    ensures PlainA([1000, 1000, 0, 0], [360, 317, -109, 98]) == 677000
    ensures PlainB([1000, 1000, 0, 0, 0], [0, 0, 0, 0, 0]) == 0
  {
  }

  lemma Milds()
    ensures forall x :: -10000 <= x <= 10000 ==> Mild(x)
  {
  }

  lemma SecondYLearned()
    ensures Learned(Y1, 1000, 1000) == Y2 && Int32(Y2.lastA)
  {
    hide NewA, NewB, Tame, Modest;
    SecondYSums();
  }

  lemma SecondX()
    ensures P.Update(X1, 1000, 2629) == X2
  {
    hide P.Update;
    UpdateIs(X1, 1000, 2629);
  }

  lemma TwoSteps()
    ensures P.BothShaped(P.Stereo(Y1, X1)) && P.BothShaped(P.Stereo(Y2, X2))
    ensures P.Step(P.Stereo(P.Start(), P.Start()), 1000, 1000) == P.Stereo(Y1, X1)
    ensures P.Step(P.Stereo(Y1, X1), 1000, 1000) == P.Stereo(Y2, X2)
    ensures P.Sample(Y1) == P.Sample(X1) == 1000 && P.Sample(Y2) == 2629 && P.Sample(X2) == 2630
  {
    hide P.Update;
    FirstY();
    FirstX();
    SecondY();
    SecondX();
  }

  /** Two residual pairs, and the left and right samples they stand for: the second pair is predicted
      from the first by both stages. */
  lemma StereoBlock()
    ensures L.StereoSamples(0, [(1000, 1000), (1000, 1000)]) == [(500, 1500), (1316, 3945)]
  {
    hide P.Step, P.Start, P.Sample, P.Run, Y1, X1, Y2, X2, L.Recombine;
    var d: seq<(int, int)> := [(1000, 1000), (1000, 1000)];
    NoFilter(d);
    Predicted();
    Recombined();
    assert L.RecombineAll([(1000, 1000), (2629, 2630)]) == [(500, 1500), (1316, 3945)];
  }

  lemma NoFilter(d: seq<(int, int)>)
    ensures L.CascadePairs(0, d) == d
  {
    hide Zip, Firsts, Seconds;
    ZipBack(d);
    assert L.Cascade(0, 0, Firsts(d)) == Firsts(d) && L.Cascade(0, 0, Seconds(d)) == Seconds(d);
  }

  lemma Recombined()
    ensures L.Recombine((1000, 1000)) == (500, 1500) && L.Recombine((2629, 2630)) == (1316, 3945)
  {
  }

  lemma Predicted()
    ensures P.Run(L.BEGIN, [(1000, 1000), (1000, 1000)]).1 == [(1000, 1000), (2629, 2630)]
  {
    hide P.Step, P.Start, P.Sample, Y1, X1, Y2, X2;
    var s, d: seq<(int, int)> := L.BEGIN, [(1000, 1000), (1000, 1000)];
    TwoSteps();
    assert d[..1] == [(1000, 1000)] && [(1000, 1000)][..0] == [];
    assert P.Run(s, []) == (s, []);
    assert P.Run(s, [(1000, 1000)]).1 == [(1000, 1000)];
  }

  // ----- the filter -----

  /** A filter of order 16 of which only the last four places are in use. */
  function Late(c: seq<int>, d: seq<int>, a: seq<int>, avg: nat): (s: F.FilterState)
    requires |c| == |d| == |a| == 4 && avg < TWO32
    ensures F.Shaped(s, 16)
  {
    F.FilterState(F.NoHistory(12) + c, F.NoHistory(12) + d, F.NoHistory(12) + a, avg)
  }

  lemma {:induction false} NothingEarly(c: seq<int>, d: seq<int>, n: nat)
    requires n <= |c| && n <= |d| && forall i :: 0 <= i < n ==> c[i] == 0
    ensures Plain(c, d, n) == 0
  {
    if n > 0 {
      NothingEarly(c, d, n - 1);
    }
  }

  lemma LateSum(c: seq<int>, d: seq<int>, a: seq<int>, avg: nat)
    requires |c| == |d| == |a| == 4 && avg < TWO32
    ensures var s := Late(c, d, a, avg);
      Plain(s.coeffs, s.delays, 16) == c[0] * d[0] + c[1] * d[1] + c[2] * d[2] + c[3] * d[3]
  {
    var s := Late(c, d, a, avg);
    NothingEarly(s.coeffs, s.delays, 12);
    assert Plain(s.coeffs, s.delays, 13) == c[0] * d[0];
    assert Plain(s.coeffs, s.delays, 14) == c[0] * d[0] + c[1] * d[1];
    assert Plain(s.coeffs, s.delays, 15) == c[0] * d[0] + c[1] * d[1] + c[2] * d[2];
  }

  /** A sample, while the places before the last four stay zero. */
  lemma LateStep(c: seq<int>, d: seq<int>, a: seq<int>, avg: nat, x: int, res: int, m: seq<int>, avg': nat)
    requires |c| == |d| == |a| == |m| == 4 && avg < TWO32 && avg' < TWO32 && d[0] == a[0] == 0
    requires forall i :: 0 <= i < 4 ==> m[i] == Wrap16(c[i] + a[i] * ApeSign(x))
    requires F.NewAvg(res, avg) == avg'
    requires Int32(c[0] * d[0] + c[1] * d[1] + c[2] * d[2] + c[3] * d[3])
    requires res == Wrap32(F.Scale(c[0] * d[0] + c[1] * d[1] + c[2] * d[2] + c[3] * d[3], 11) + x)
    ensures F.Filter(Late(c, d, a, avg), x, 11) == res
    ensures F.Advance(Late(c, d, a, avg), x, res)
      == Late(m, d[1..] + [ClipInt16(res)], [a[1], a[2] / 2, a[3] / 2, F.NewAdapt(res, avg)], avg')
  {
    hide Wrap16, Wrap32, F.NewAdapt, F.NewAvg, ClipInt16, F.Scale, ApeSign;
    var s := Late(c, d, a, avg);
    LateSum(c, d, a, avg);
    DotIsPlain(s.coeffs, s.delays, 16);
    Wrap32Id(c[0] * d[0] + c[1] * d[1] + c[2] * d[2] + c[3] * d[3]);
    LateAdapted(c, d, a, avg, x, m);
    LateFaded(c, d, a, avg, F.NewAdapt(res, avg));
    assert s.delays[1..] + [ClipInt16(res)] == F.NoHistory(12) + (d[1..] + [ClipInt16(res)]);
  }

  lemma LateAdapted(c: seq<int>, d: seq<int>, a: seq<int>, avg: nat, x: int, m: seq<int>)
    requires |c| == |d| == |a| == |m| == 4 && avg < TWO32
    requires forall i :: 0 <= i < 4 ==> m[i] == Wrap16(c[i] + a[i] * ApeSign(x))
    ensures var s := Late(c, d, a, avg); F.Adapted(s.coeffs, s.adapts, ApeSign(x)) == F.NoHistory(12) + m
  {
    hide ApeSign;
    var s := Late(c, d, a, avg);
    forall i | 0 <= i < 16
      ensures F.Adapted(s.coeffs, s.adapts, ApeSign(x))[i] == (F.NoHistory(12) + m)[i]
    {
      if i < 12 {
        assert Wrap16(0 + 0 * ApeSign(x)) == 0;
      } else {
        assert m[i - 12] == Wrap16(c[i - 12] + a[i - 12] * ApeSign(x));
      }
    }
  }

  lemma LateFaded(c: seq<int>, d: seq<int>, a: seq<int>, avg: nat, new': int)
    requires |c| == |d| == |a| == 4 && avg < TWO32 && a[0] == 0
    ensures var s := Late(c, d, a, avg);
      F.Faded(s.adapts)[1..] + [new'] == F.NoHistory(12) + [a[1], a[2] / 2, a[3] / 2, new']
  {
  }

  const S1: F.FilterState := Late([0, 0, 0, 0], [0, 0, 0, 100], [0, 0, 0, -32], 6)
  const S2: F.FilterState := Late([0, 0, 0, 32], [0, 0, 100, 100], [0, 0, -16, -32], 11)
  const S3: F.FilterState := Late([0, 0, 16, 64], [0, 100, 100, 102], [0, -8, -16, -32], 16)

  /** Numbers that no conversion changes, and the scaled sums of this block. */
  lemma Small()
    ensures forall x :: 0 <= x < 1000 ==> Wrap16(x) == x && Wrap32(x) == x && ClipInt16(x) == x
    ensures ApeSign(100) == -1
  {
  }

  lemma Steps()
    ensures F.Scale(0, 11) == 0 && F.Scale(3200, 11) == 2 && F.Scale(8128, 11) == 4
    ensures F.NewAdapt(100, 0) == F.NewAdapt(100, 6) == F.NewAdapt(102, 11) == -32
    ensures F.NewAvg(100, 0) == 6 && F.NewAvg(100, 6) == 11 && F.NewAvg(102, 11) == 16 && F.NewAvg(104, 16) == 21
  {
    hide F.Scale, F.NewAdapt, F.NewAvg;
    Scales();
    Adapts();
    Means();
  }

  lemma Scales()
    ensures F.Scale(0, 11) == 0 && F.Scale(3200, 11) == 2 && F.Scale(8128, 11) == 4
  {
    hide Pow2;
    TwoToTheTen();
  }

  lemma Adapts()
    ensures F.NewAdapt(100, 0) == F.NewAdapt(100, 6) == F.NewAdapt(102, 11) == -32
  {
  }

  lemma Means()
    ensures F.NewAvg(100, 0) == 6 && F.NewAvg(100, 6) == 11 && F.NewAvg(102, 11) == 16 && F.NewAvg(104, 16) == 21
  {
    hide F.NewAvg;
    MeanMoves(100, 0);
    MeanMoves(100, 6);
    MeanMoves(102, 11);
    MeanMoves(104, 16);
  }

  lemma Sample1()
    ensures F.Filter(F.Zero(16), 100, 11) == 100 && F.Advance(F.Zero(16), 100, 100) == S1
  {
    hide F.Filter, F.Advance, F.Scale, Late, Wrap16, Wrap32, F.NewAvg, F.NewAdapt, ClipInt16, ApeSign;
    Small();
    Steps();
    FirstIsLate();
    LateStep([0, 0, 0, 0], [0, 0, 0, 0], [0, 0, 0, 0], 0, 100, 100, [0, 0, 0, 0], 6);
    assert [0, 0, 0, 0][1..] + [100] == [0, 0, 0, 100];
  }

  lemma Sample2()
    ensures F.Filter(S1, 100, 11) == 100 && F.Advance(S1, 100, 100) == S2
  {
    hide F.Filter, F.Advance, F.Scale, Late, Wrap16, Wrap32, F.NewAvg, F.NewAdapt, ClipInt16, ApeSign;
    Small();
    Steps();
    LateStep([0, 0, 0, 0], [0, 0, 0, 100], [0, 0, 0, -32], 6, 100, 100, [0, 0, 0, 32], 11);
    assert [0, 0, 0, 100][1..] + [100] == [0, 0, 100, 100];
  }

  lemma Sample3()
    ensures F.Filter(S2, 100, 11) == 102 && F.Advance(S2, 100, 102) == S3
  {
    hide F.Filter, F.Advance, F.Scale, Late, Wrap16, Wrap32, F.NewAvg, F.NewAdapt, ClipInt16, ApeSign;
    Small();
    Steps();
    LateStep([0, 0, 0, 32], [0, 0, 100, 100], [0, 0, -16, -32], 11, 100, 102, [0, 0, 16, 64], 16);
    assert [0, 0, 100, 100][1..] + [102] == [0, 100, 100, 102];
  }

  lemma Sample4()
    ensures F.Filter(S3, 100, 11) == 104
  {
    hide F.Filter, F.Advance, F.Scale, Late, Wrap16, Wrap32, F.NewAvg, F.NewAdapt, ClipInt16, ApeSign;
    Small();
    Steps();
    LateStep([0, 0, 16, 64], [0, 100, 100, 102], [0, -8, -16, -32], 16, 100, 104, [0, 8, 32, 96], 21);
  }

  lemma FirstIsLate()
    ensures F.Zero(16) == Late([0, 0, 0, 0], [0, 0, 0, 0], [0, 0, 0, 0], 0)
  {
  }

  lemma TwoToTheTen()
    ensures Pow2(10) == 1024 && Pow2(11) == 2048
  {
  }

  lemma Shapes()
    ensures F.Shaped(F.Zero(16), 16) && F.Shaped(S1, 16) && F.Shaped(S2, 16) && F.Shaped(S3, 16)
  {
  }

  /** Four equal samples: from the third on the filter predicts a part of them. */
  lemma FilterBlock()
    ensures L.Cascade(1, 0, [100, 100, 100, 100]) == [100, 100, 102, 104]
  {
    hide F.Filter, F.Advance, S1, S2, S3, F.Zero;
    Sample1();
    Sample2();
    Sample3();
    Sample4();
    Shapes();
    var z := F.Zero(16);
    var x0: seq<int>, x1: seq<int>, x2: seq<int> := [], [100], [100, 100];
    var x3: seq<int>, x4: seq<int> := [100, 100, 100], [100, 100, 100, 100];
    assert x0 + [100] == x1 && x1 + [100] == x2 && x2 + [100] == x3 && x3 + [100] == x4;
    assert F.Run(z, x0, 11) == (z, x0);
    RunNext(z, x0, 100);
    RunNext(z, x1, 100);
    RunNext(z, x2, 100);
    RunNext(z, x3, 100);
    assert F.Run(z, x4, 11).1 == [100, 100, 102, 104];
    L.FilterSets(x4);
  }

  lemma RunNext(z: F.FilterState, xs: seq<int>, x: int)
    requires F.Shaped(z, 16)
    ensures var (s, ys) := F.Run(z, xs, 11);
      F.Run(z, xs + [x], 11) == (F.Advance(s, x, F.Filter(s, x, 11)), ys + [F.Filter(s, x, 11)])
  {
    assert (xs + [x])[..|xs|] == xs;
  }
}
