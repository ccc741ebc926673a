/** Floor type 1: the coded values of the points become amplitudes, each relative to the line
    through two neighbours decoded before it. */
module Floor1 {
  import opened Bits
  import opened Integers

  /** `predict_point`: the line from (x0, y0) to (x1, y1), rounded toward y0. */
  function Predict(x: int, x0: int, x1: int, y0: int, y1: int): (y: int)
    requires x0 < x1 && x0 <= x
  {
    var dy := y1 - y0;
    NonNegative(Abs(dy), x - x0);
    var off := Abs(dy) * (x - x0) / (x1 - x0);
    if dy < 0 then y0 - off else y0 + off
  }

  lemma NonNegative(a: nat, b: nat)
    ensures a * b >= 0
  {
  }

  lemma PredictBetween(x: int, x0: int, x1: int, y0: int, y1: int)
    requires x0 < x1 && x0 <= x <= x1
    ensures y0 <= y1 ==> y0 <= Predict(x, x0, x1, y0, y1) <= y1
    ensures y1 <= y0 ==> y1 <= Predict(x, x0, x1, y0, y1) <= y0
  {
    var ady, adx, dx := Abs(y1 - y0), x1 - x0, x - x0;
    TimesMono(ady, dx, adx);
    NonNegative(ady, dx);
    QuotientAtMost(ady * dx, adx, ady);
  }

  lemma QuotientAtMost(a: nat, d: nat, q: nat)
    requires d > 0 && a <= q * d
    ensures 0 <= a / d <= q
  {
    DivMod(a, d);
    FarMultiple(d, q, a / d);
  }

  lemma FarMultiple(d: nat, q: nat, k: nat)
    ensures k > q ==> d * k >= q * d + d
  {
    if k > q {
      TimesMono(d, q + 1, k);
      assert d * (q + 1) == q * d + d;
    }
  }

  // ----- one amplitude -----

  const RANGES: seq<nat> := [256, 128, 86, 64]

  function Room(range: int, pred: int): int {
    if range - pred < pred then (range - pred) * 2 else pred * 2
  }

  /** A coded value around a prediction: small values alternate above and below it, and once one
      side is used up the others fill the rest of the other side. */
  function Unwrap(range: int, pred: int, val: nat): (y: int) {
    var highroom, lowroom := range - pred, pred;
    if val == 0 then pred
    else if val >= Room(range, pred) then
      if highroom > lowroom then val - lowroom + pred else pred - val + highroom - 1
    else if val % 2 == 1 then pred - (val + 1) / 2 else pred + val / 2
  }

  /** The value that codes an amplitude. */
  function Wrap(range: int, pred: int, y: int): (val: nat)
    requires 0 <= pred < range && 0 <= y < range
  {
    var d, room := y - pred, Room(range, pred);
    var near := if d < 0 then -2 * d - 1 else 2 * d;
    if near < room || d == 0 then near
    else if range - pred > pred then y else range - 1 - y
  }

  /** The amplitude is in range exactly if the coded value is. */
  lemma UnwrapInRange(range: int, pred: int, val: nat)
    requires 0 <= pred < range
    ensures 0 <= Unwrap(range, pred, val) < range <==> val < range
  {
  }

  /** For every prediction, values and amplitudes in range correspond one to one. */
  lemma WrapUnwrap(range: int, pred: int, val: nat)
    requires 0 <= pred < range && val < range
    ensures 0 <= Unwrap(range, pred, val) < range && Wrap(range, pred, Unwrap(range, pred, val)) == val
  {
    if val < Room(range, pred) {
      WrapNear(range, pred, val);
    } else {
      WrapFar(range, pred, val);
    }
  }

  lemma WrapNear(range: int, pred: int, val: nat)
    requires 0 <= pred < range && val < Room(range, pred)
    ensures 0 <= Unwrap(range, pred, val) < range && Wrap(range, pred, Unwrap(range, pred, val)) == val
  {
    var h := val / 2;
    assert val == 2 * h || val == 2 * h + 1;
    assert val % 2 == 1 ==> (val + 1) / 2 == h + 1;
  }

  lemma WrapFar(range: int, pred: int, val: nat)
    requires 0 <= pred < range && Room(range, pred) <= val < range
    ensures 0 <= Unwrap(range, pred, val) < range && Wrap(range, pred, Unwrap(range, pred, val)) == val
  {
  }

  lemma UnwrapWrap(range: int, pred: int, y: int)
    requires 0 <= pred < range && 0 <= y < range
    ensures Wrap(range, pred, y) < range && Unwrap(range, pred, Wrap(range, pred, y)) == y
  {
  }

  /** Which of the amplitudes a value names: no change is the prediction itself, ... */
  lemma ZeroIsPrediction(range: int, pred: int)
    ensures Unwrap(range, pred, 0) == pred
  {
  }

  /** ... and larger values name amplitudes further away; of two that are equally far, the lower one
      comes first.  There is only one correspondence like that. */
  lemma Outward(range: int, pred: int, v: nat, w: nat)
    requires 0 <= pred < range && v < w < range
    ensures var a, b := Unwrap(range, pred, v) - pred, Unwrap(range, pred, w) - pred;
      Abs(a) < Abs(b) || (a < 0 < b && a == -b)
  {
    var h, k := v / 2, w / 2;
    assert v == 2 * h || v == 2 * h + 1;
    assert w == 2 * k || w == 2 * k + 1;
  }

  /** Amplitude `y` is named before `z`. */
  predicate Before(pred: int, y: int, z: int) {
    Abs(y - pred) < Abs(z - pred) || (y < pred < z && pred - y == z - pred)
  }

  /** How many of the first `n` amplitudes are named before `y`. */
  function Rank(pred: int, y: int, n: nat): (r: nat) {
    if n == 0 then 0 else Rank(pred, y, n - 1) + if Before(pred, n - 1, y) then 1 else 0
  }

  /** They fill the places around the prediction. */
  lemma {:induction false} RankIs(pred: int, y: int, n: nat)
    ensures var d := Abs(y - pred);
      var lo, hi := if y >= pred then pred - d else pred - d + 1, pred + d;
      var a, b := if lo < 0 then 0 else lo, if hi < n then hi else n;
      Rank(pred, y, n) == if a < b then b - a else 0
  {
    if n > 0 {
      RankIs(pred, y, n - 1);
    }
  }

  /** The value that codes an amplitude is its rank among all amplitudes: nearest to the prediction
      first, and below before above. */
  lemma WrapIsRank(range: int, pred: int, y: int)
    requires 0 <= pred < range && 0 <= y < range
    ensures Wrap(range, pred, y) == Rank(pred, y, range)
  {
    RankIs(pred, y, range);
  }

  /** The points of a floor carry values from 0 to 255, scaled by the multiplier: the range is the
      largest for which they do. */
  lemma LargestRange(m: nat)
    requires 1 <= m <= 4
    ensures |RANGES| == 4 && (RANGES[m - 1] - 1) * m <= 255 < RANGES[m - 1] * m
  {
  }

  // ----- the points of a floor -----

  /** `Xlist`, the multiplier, and each point's neighbours among the points before it. */
  datatype Floor = Floor(xs: seq<nat>, multiplier: nat, low: seq<nat>, high: seq<nat>)

  predicate Below(f: Floor, j: nat, i: nat)
    requires i < |f.xs| && j < |f.xs|
  {
    f.xs[i] < f.xs[j]
  }

  predicate Above(f: Floor, j: nat, i: nat)
    requires i < |f.xs| && j < |f.xs|
  {
    f.xs[i] > f.xs[j]
  }

  /** Point `j` lies between its neighbours, and no point before it lies closer. */
  predicate Bracketed(f: Floor, j: nat)
    requires 2 <= j < |f.xs| == |f.low| == |f.high|
  {
    && f.low[j] < j && f.high[j] < j
    && f.xs[f.low[j]] < f.xs[j] < f.xs[f.high[j]]
    && (forall i :: 0 <= i < j && Below(f, j, i) ==> f.xs[i] <= f.xs[f.low[j]])
    && (forall i :: 0 <= i < j && Above(f, j, i) ==> f.xs[i] >= f.xs[f.high[j]])
  }

  predicate Config(f: Floor) {
    && |f.xs| == |f.low| == |f.high| >= 2 && 1 <= f.multiplier <= 4
    && forall j :: 2 <= j < |f.xs| ==> Bracketed(f, j)
  }

  function Range(f: Floor): (r: nat)
    requires Config(f)
    ensures 64 <= r <= 256 && (r - 1) * f.multiplier <= 255
  {
    RANGES[f.multiplier - 1]
  }

  function Prediction(f: Floor, ys: seq<int>, j: nat): (pred: int)
    requires Config(f) && 2 <= j < |f.xs| && j <= |ys|
  {
    assert Bracketed(f, j);
    Predict(f.xs[j], f.xs[f.low[j]], f.xs[f.high[j]], ys[f.low[j]], ys[f.high[j]])
  }

  predicate InRange(range: int, ys: seq<int>) {
    forall i :: 0 <= i < |ys| ==> 0 <= ys[i] < range
  }

  lemma PredictionInRange(f: Floor, ys: seq<int>, j: nat)
    requires Config(f) && 2 <= j < |f.xs| && j <= |ys| && InRange(Range(f), ys[..j])
    ensures 0 <= Prediction(f, ys, j) < Range(f)
  {
    hide Predict, Range;
    assert Bracketed(f, j);
    var l, h := f.low[j], f.high[j];
    assert ys[..j][l] == ys[l] && ys[..j][h] == ys[h];
    PredictBetween(f.xs[j], f.xs[l], f.xs[h], ys[l], ys[h]);
  }

  /** The amplitudes of the first `n` points. */
  function Amplitudes(f: Floor, vals: seq<nat>, n: nat): (ys: seq<int>)
    requires Config(f) && n <= |vals| == |f.xs|
    ensures |ys| == n
  {
    if n == 0 then []
    else
      var ys := Amplitudes(f, vals, n - 1);
      ys + [if n <= 2 then vals[n - 1] else Unwrap(Range(f), Prediction(f, ys, n - 1), vals[n - 1])]
  }

  /** The values that code amplitudes, for the first `n` points. */
  function Coded(f: Floor, ys: seq<int>, n: nat): (vals: seq<nat>)
    requires Config(f) && n <= |ys| == |f.xs| && InRange(Range(f), ys)
    ensures |vals| == n
  {
    if n == 0 then []
    else
      var j := n - 1;
      Coded(f, ys, j) + [if j < 2 then ys[j] else
        PredictionInRange(f, ys, j);
        Wrap(Range(f), Prediction(f, ys, j), ys[j])]
  }

  /** Every amplitude is in range exactly if every coded value is. */
  lemma {:induction false} AmplitudesInRange(f: Floor, vals: seq<nat>, n: nat)
    requires Config(f) && n <= |vals| == |f.xs|
    ensures InRange(Range(f), Amplitudes(f, vals, n)) <==> forall i :: 0 <= i < n ==> vals[i] < Range(f)
  {
    hide Prediction, Unwrap, Range, InRange, Bracketed, Config;
    if n > 0 {
      AmplitudesInRange(f, vals, n - 1);
      var ys, y := Amplitudes(f, vals, n - 1), Amplitudes(f, vals, n)[n - 1];
      InRangeMore(Range(f), ys, y);
      if n > 2 && InRange(Range(f), ys) {
        assert ys[..n - 1] == ys;
        PredictionInRange(f, ys, n - 1);
        UnwrapInRange(Range(f), Prediction(f, ys, n - 1), vals[n - 1]);
      }
    } else {
      InRangeNone(Range(f));
    }
  }

  lemma InRangeNone(range: int)
    ensures InRange(range, [])
  {
  }

  lemma InRangeMore(range: int, ys: seq<int>, y: int)
    ensures InRange(range, ys + [y]) <==> InRange(range, ys) && 0 <= y < range
  {
    var zs := ys + [y];
    assert zs[|ys|] == y && forall i :: 0 <= i < |ys| ==> zs[i] == ys[i];
  }

  /** Whole lists of values and of amplitudes correspond one to one. */
  lemma {:induction false} CodedAmplitudes(f: Floor, vals: seq<nat>)
    requires Config(f) && |vals| == |f.xs| && forall i :: 0 <= i < |vals| ==> vals[i] < Range(f)
    ensures InRange(Range(f), Amplitudes(f, vals, |vals|))
    ensures Coded(f, Amplitudes(f, vals, |vals|), |vals|) == vals
  {
    AmplitudesInRange(f, vals, |vals|);
    CodedPrefix(f, vals, |vals|);
  }

  lemma {:induction false} CodedPrefix(f: Floor, vals: seq<nat>, n: nat)
    requires Config(f) && n <= |vals| == |f.xs| && forall i :: 0 <= i < |vals| ==> vals[i] < Range(f)
    ensures InRange(Range(f), Amplitudes(f, vals, |vals|))
    ensures Coded(f, Amplitudes(f, vals, |vals|), n) == vals[..n]
  {
    hide Unwrap, Wrap, Range, Prediction;
    var ys := Amplitudes(f, vals, |vals|);
    AmplitudesInRange(f, vals, |vals|);
    if n > 0 {
      CodedPrefix(f, vals, n - 1);
      AmplitudesPrefix(f, vals, n, |vals|);
      AmplitudesPrefix(f, vals, n - 1, |vals|);
      if n > 2 {
        PredictionInRange(f, ys, n - 1);
        PredictionPrefix(f, ys, n - 1);
        WrapUnwrap(Range(f), Prediction(f, ys, n - 1), vals[n - 1]);
        assert ys[n - 1] == ys[..n][n - 1];
      } else {
        assert ys[n - 1] == ys[..n][n - 1];
      }
    }
  }

  /** A prediction looks only at the points before its own. */
  lemma PredictionPrefix(f: Floor, ys: seq<int>, j: nat)
    requires Config(f) && 2 <= j < |f.xs| && j <= |ys|
    ensures Prediction(f, ys, j) == Prediction(f, ys[..j], j)
  {
    hide Predict;
    assert Bracketed(f, j);
  }

  lemma {:induction false} AmplitudesPrefix(f: Floor, vals: seq<nat>, n: nat, m: nat)
    requires Config(f) && n <= m <= |vals| == |f.xs|
    ensures Amplitudes(f, vals, m)[..n] == Amplitudes(f, vals, n)
  {
    hide Prediction, Unwrap, Range;
    if n < m {
      AmplitudesPrefix(f, vals, n, m - 1);
      assert Amplitudes(f, vals, m)[..n] == Amplitudes(f, vals, m - 1)[..n];
    } else {
      assert Amplitudes(f, vals, m)[..n] == Amplitudes(f, vals, m);
    }
  }

  lemma {:induction false} AmplitudesCoded(f: Floor, ys: seq<int>, n: nat)
    requires Config(f) && n <= |ys| == |f.xs| && InRange(Range(f), ys)
    ensures Amplitudes(f, Coded(f, ys, |ys|), n) == ys[..n]
    ensures forall i :: 0 <= i < |ys| ==> Coded(f, ys, |ys|)[i] < Range(f)
  {
    hide Unwrap, Wrap, Range, Prediction;
    var vals := Coded(f, ys, |ys|);
    CodedBelow(f, ys, |ys|);
    if n > 0 {
      AmplitudesCoded(f, ys, n - 1);
      CodedAt(f, ys, n - 1, |ys|);
      if n > 2 {
        PredictionInRange(f, ys, n - 1);
        PredictionPrefix(f, ys, n - 1);
        UnwrapWrap(Range(f), Prediction(f, ys, n - 1), ys[n - 1]);
      }
    }
  }

  lemma {:induction false} CodedBelow(f: Floor, ys: seq<int>, n: nat)
    requires Config(f) && n <= |ys| == |f.xs| && InRange(Range(f), ys)
    ensures forall i :: 0 <= i < n ==> Coded(f, ys, n)[i] < Range(f)
  {
    hide Unwrap, Wrap, Range, Prediction;
    if n > 0 {
      CodedBelow(f, ys, n - 1);
      if n > 2 {
        PredictionInRange(f, ys, n - 1);
        UnwrapWrap(Range(f), Prediction(f, ys, n - 1), ys[n - 1]);
      }
    }
  }

  lemma {:induction false} CodedAt(f: Floor, ys: seq<int>, j: nat, n: nat)
    requires Config(f) && j < n <= |ys| == |f.xs| && InRange(Range(f), ys)
    ensures j >= 2 ==> 0 <= Prediction(f, ys, j) < Range(f)
    ensures Coded(f, ys, n)[j] == if j < 2 then ys[j] else Wrap(Range(f), Prediction(f, ys, j), ys[j])
  {
    hide Wrap, Range, Prediction;
    if j >= 2 {
      PredictionInRange(f, ys, j);
    }
    if j < n - 1 {
      CodedAt(f, ys, j, n - 1);
    }
  }

  // ----- the loop of `vorbis_decode_packet_rest` -----

  /** A point is drawn if its value is not zero or it is a neighbour of such a point; the two ends always are. */
  ghost predicate Used(f: Floor, vals: seq<nat>, n: nat, j: nat)
    requires Config(f) && n <= |vals| == |f.xs|
  {
    j < 2 || (j < n && vals[j] != 0) || exists k :: 2 <= k < n && Uses(f, vals, k, j)
  }

  predicate Uses(f: Floor, vals: seq<nat>, k: nat, j: nat)
    requires Config(f) && k < |vals| == |f.xs|
  {
    vals[k] != 0 && (f.low[k] == j || f.high[k] == j)
  }

  /** A point that departs from its prediction is drawn, and so are both points that it was predicted
      from; a point that is not drawn has the amplitude predicted for it, and no such point leans on it. */
  lemma DrawnPoints(f: Floor, vals: seq<nat>, k: nat)
    requires Config(f) && 2 <= k < |vals| == |f.xs|
    ensures var y, pred := Amplitudes(f, vals, |vals|)[k], Prediction(f, Amplitudes(f, vals, k), k);
      && f.low[k] < k && f.high[k] < k
      && (y != pred ==> Used(f, vals, |vals|, k))
      && (y != pred ==> Used(f, vals, |vals|, f.low[k]) && Used(f, vals, |vals|, f.high[k]))
      && (!Used(f, vals, |vals|, k) ==>
        y == pred && forall j :: k < j < |vals| && (f.low[j] == k || f.high[j] == k) ==> vals[j] == 0)
  {
    hide Prediction, Unwrap, Range, Predict;
    assert Bracketed(f, k);
    AmplitudeKept(f, vals, k, |vals|);
    AmplitudesMore(f, vals, k);
    ZeroIsPrediction(Range(f), Prediction(f, Amplitudes(f, vals, k), k));
    assert Uses(f, vals, k, f.low[k]) == Uses(f, vals, k, f.high[k]) == (vals[k] != 0);
    forall j | k < j < |vals| && vals[j] != 0 && (f.low[j] == k || f.high[j] == k)
      ensures Used(f, vals, |vals|, k)
    {
      assert Uses(f, vals, j, k);
    }
  }

  lemma {:induction false} AmplitudeKept(f: Floor, vals: seq<nat>, k: nat, n: nat)
    requires Config(f) && k < n <= |vals| == |f.xs|
    ensures Amplitudes(f, vals, n)[k] == Amplitudes(f, vals, k + 1)[k]
  {
    hide Prediction, Unwrap, Range;
    if k + 1 < n {
      AmplitudeKept(f, vals, k, n - 1);
    }
  }

  /** The amplitudes replace the coded values in place. */
  method UnwrapAll(f: Floor, finalY: array<int>, step2Flag: array<bool>)
    requires Config(f) && finalY.Length >= |f.xs| && step2Flag.Length >= |f.xs|
    requires forall i :: 0 <= i < |f.xs| ==> finalY[i] >= 0
    modifies finalY, step2Flag
    ensures var vals: seq<nat> := old(finalY[..|f.xs|]);
      && finalY[..|f.xs|] == Amplitudes(f, vals, |f.xs|)
      && forall j :: 0 <= j < |f.xs| ==> step2Flag[j] == Used(f, vals, |f.xs|, j)
  {
    hide Prediction, Unwrap, Range, Used, Bracketed, Amplitudes, Predict;
    ghost var vals: seq<nat> := finalY[..|f.xs|];
    var range := Range(f);
    step2Flag[0], step2Flag[1] := true, true;
    TwoAmplitudes(f, vals);
    for j := 2 to |f.xs|
      invariant finalY[..j] == Amplitudes(f, vals, j)
      invariant forall i :: j <= i < |f.xs| ==> finalY[i] == vals[i]
      invariant forall i :: 0 <= i < j ==> step2Flag[i] == Used(f, vals, j, i)
    {
      ghost var ys, flags := finalY[..j], step2Flag[..j];
      UsedMore(f, vals, j);
      var low, high := f.low[j], f.high[j];
      NeighboursBefore(f, j);
      var pred := Predict(f.xs[j], f.xs[low], f.xs[high], finalY[low], finalY[high]);
      PredictionIs(f, ys, j);
      var val := finalY[j];
      finalY[j] := UnwrapOne(range, pred, val);
      if val != 0 {
        step2Flag[low], step2Flag[high] := true, true;
        step2Flag[j] := true;
      } else {
        step2Flag[j] := false;
      }
      forall i | 0 <= i < j + 1
        ensures step2Flag[i] == Used(f, vals, j + 1, i)
      {
        assert i < j ==> step2Flag[i] == (flags[i] || Uses(f, vals, j, i));
      }
      AmplitudesMore(f, vals, j);
      assert finalY[..j + 1] == ys + [finalY[j]];
    }
  }

  method UnwrapOne(range: int, pred: int, val: nat) returns (y: int)
    ensures y == Unwrap(range, pred, val)
  {
    var highroom, lowroom := range - pred, pred;
    var room := if highroom < lowroom then highroom * 2 else lowroom * 2;
    if val != 0 {
      if val >= room {
        if highroom > lowroom {
          y := val - lowroom + pred;
        } else {
          y := pred - val + highroom - 1;
        }
      } else if val % 2 == 1 {
        y := pred - (val + 1) / 2;
      } else {
        y := pred + val / 2;
      }
    } else {
      y := pred;
    }
  }

  lemma AmplitudesMore(f: Floor, vals: seq<nat>, j: nat)
    requires Config(f) && 2 <= j < |vals| == |f.xs|
    ensures var ys := Amplitudes(f, vals, j);
      Amplitudes(f, vals, j + 1) == ys + [Unwrap(Range(f), Prediction(f, ys, j), vals[j])]
  {
    hide Prediction, Unwrap, Range;
  }

  lemma NeighboursBefore(f: Floor, j: nat)
    requires Config(f) && 2 <= j < |f.xs|
    ensures f.low[j] < j && f.high[j] < j && f.xs[f.low[j]] < f.xs[j] < f.xs[f.high[j]] && f.low[j] != f.high[j]
  {
    assert Bracketed(f, j);
  }

  lemma PredictionIs(f: Floor, ys: seq<int>, j: nat)
    requires Config(f) && 2 <= j < |f.xs| && j <= |ys|
    requires f.low[j] < j && f.high[j] < j && f.xs[f.low[j]] < f.xs[j] < f.xs[f.high[j]]
    ensures Prediction(f, ys, j) == Predict(f.xs[j], f.xs[f.low[j]], f.xs[f.high[j]], ys[f.low[j]], ys[f.high[j]])
  {
  }

  lemma TwoAmplitudes(f: Floor, vals: seq<nat>)
    requires Config(f) && |vals| == |f.xs|
    ensures Amplitudes(f, vals, 2) == vals[..2]
    ensures Used(f, vals, 2, 0) && Used(f, vals, 2, 1)
  {
    assert Amplitudes(f, vals, 1) == [vals[0]];
  }

  lemma UsedMore(f: Floor, vals: seq<nat>, j: nat)
    requires Config(f) && 2 <= j < |vals| == |f.xs|
    ensures forall i :: 0 <= i < j ==> Used(f, vals, j + 1, i) == (Used(f, vals, j, i) || Uses(f, vals, j, i))
    ensures Used(f, vals, j + 1, j) == (vals[j] != 0)
  {
    forall k | 2 <= k <= j
      ensures !Uses(f, vals, k, j)
    {
      assert Bracketed(f, k);
    }
  }
}
