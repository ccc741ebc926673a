/** Everything after the entropy decoder: the cascade of filters, the predictor, and the two
    channels put together again.  Whatever the filter set and the length of the block, residuals
    and samples correspond one to one. */
module ApeLossless {
  import opened ApeWords
  import opened Integers
  import F = ApeFilter
  import P = ApePredictor

  /** `ape_filter_orders` and `ape_filter_fracbits`; a zero ends the cascade. */
  const ORDERS: seq<seq<nat>> := [[0, 0, 0], [16, 0, 0], [64, 0, 0], [32, 256, 0], [16, 256, 1280]]
  const FRACBITS: seq<seq<nat>> := [[0, 0, 0], [11, 0, 0], [11, 0, 0], [10, 13, 0], [11, 13, 15]]
  const LEVELS: nat := 3

  predicate FilterSet(fset: nat) {
    fset < 5
  }

  /** The filter of a level, or order zero if the cascade has ended. */
  function Order(fset: nat, level: nat): (n: nat)
    requires FilterSet(fset) && level < LEVELS
    ensures n == 0 || n >= 16
  {
    ORDERS[fset][level]
  }

  function Fracbits(fset: nat, level: nat): (n: nat)
    requires FilterSet(fset) && level < LEVELS
    ensures Order(fset, level) > 0 ==> n > 0
  {
    FRACBITS[fset][level]
  }

  /** A block through the filters from `level` on, each freshly cleared. */
  function Cascade(fset: nat, level: nat, xs: seq<int>): (ys: seq<int>)
    requires FilterSet(fset) && level <= LEVELS
    ensures |ys| == |xs|
    decreases LEVELS - level
  {
    if level == LEVELS || Order(fset, level) == 0 then xs
    else Cascade(fset, level + 1, F.Run(F.Zero(Order(fset, level)), xs, Fracbits(fset, level)).1)
  }

  function Uncascade(fset: nat, level: nat, ys: seq<int>): (xs: seq<int>)
    requires FilterSet(fset) && level <= LEVELS
    ensures |xs| == |ys|
    decreases LEVELS - level
  {
    if level == LEVELS || Order(fset, level) == 0 then ys
    else F.Unrun(F.Zero(Order(fset, level)), Uncascade(fset, level + 1, ys), Fracbits(fset, level)).1
  }

  /** The five sets: none, one filter of order 16 or 64, order 32 and then 256, or 16, 256 and 1280. */
  lemma FilterSets(xs: seq<int>)
    ensures Cascade(0, 0, xs) == xs
    ensures Cascade(1, 0, xs) == F.Run(F.Zero(16), xs, 11).1
    ensures Cascade(2, 0, xs) == F.Run(F.Zero(64), xs, 11).1
    ensures Cascade(3, 0, xs) == F.Run(F.Zero(256), F.Run(F.Zero(32), xs, 10).1, 13).1
    ensures var ys := F.Run(F.Zero(256), F.Run(F.Zero(16), xs, 11).1, 13).1;
      Cascade(4, 0, xs) == F.Run(F.Zero(1280), ys, 15).1
  {
    hide F.Run, F.Zero;
    assert Order(0, 0) == Order(1, 1) == Order(2, 1) == Order(3, 2) == 0;
    assert Order(1, 0) == Order(4, 0) == 16 && Order(2, 0) == 64 && Fracbits(1, 0) == Fracbits(2, 0) == 11;
    assert Order(3, 0) == 32 && Order(3, 1) == Order(4, 1) == 256 && Order(4, 2) == 1280;
    assert Fracbits(3, 0) == 10 && Fracbits(4, 0) == 11 && Fracbits(3, 1) == Fracbits(4, 1) == 13 && Fracbits(4, 2) == 15;
    var ys := F.Run(F.Zero(256), F.Run(F.Zero(16), xs, 11).1, 13).1;
    assert Cascade(4, 3, F.Run(F.Zero(1280), ys, 15).1) == F.Run(F.Zero(1280), ys, 15).1;
    assert Cascade(4, 2, ys) == F.Run(F.Zero(1280), ys, 15).1;
  }

  lemma {:induction false} UncascadeCascade(fset: nat, level: nat, xs: seq<int>)
    requires FilterSet(fset) && level <= LEVELS && AllInt32(xs)
    ensures AllInt32(Cascade(fset, level, xs)) && Uncascade(fset, level, Cascade(fset, level, xs)) == xs
    decreases LEVELS - level
  {
    hide F.Run, F.Unrun, F.Zero, Order, Fracbits;
    if level < LEVELS && Order(fset, level) != 0 {
      var s, n := F.Zero(Order(fset, level)), Fracbits(fset, level);
      F.UnrunRun(s, xs, n);
      UncascadeCascade(fset, level + 1, F.Run(s, xs, n).1);
    }
  }

  lemma {:induction false} CascadeUncascade(fset: nat, level: nat, ys: seq<int>)
    requires FilterSet(fset) && level <= LEVELS && AllInt32(ys)
    ensures AllInt32(Uncascade(fset, level, ys)) && Cascade(fset, level, Uncascade(fset, level, ys)) == ys
    decreases LEVELS - level
  {
    hide F.Run, F.Unrun, F.Zero, Order, Fracbits;
    if level < LEVELS && Order(fset, level) != 0 {
      CascadeUncascade(fset, level + 1, ys);
      F.RunUnrun(F.Zero(Order(fset, level)), Uncascade(fset, level + 1, ys), Fracbits(fset, level));
    }
  }

  // ----- mono -----

  function MonoSamples(fset: nat, residuals: seq<int>): (samples: seq<int>)
    requires FilterSet(fset)
    ensures |samples| == |residuals|
  {
    P.MonoRun(P.Start(), Cascade(fset, 0, residuals)).1
  }

  function MonoResiduals(fset: nat, samples: seq<int>): (residuals: seq<int>)
    requires FilterSet(fset)
    ensures |residuals| == |samples|
  {
    Uncascade(fset, 0, P.MonoUnrun(P.Start(), samples).1)
  }

  lemma MonoLossless(fset: nat, samples: seq<int>)
    requires FilterSet(fset) && AllInt32(samples)
    ensures AllInt32(MonoResiduals(fset, samples))
    ensures MonoSamples(fset, MonoResiduals(fset, samples)) == samples
  {
    hide P.MonoRun, P.MonoUnrun, Cascade, Uncascade;
    P.MonoRunUnrun(P.Start(), samples);
    CascadeUncascade(fset, 0, P.MonoUnrun(P.Start(), samples).1);
  }

  lemma MonoFaithful(fset: nat, residuals: seq<int>)
    requires FilterSet(fset) && AllInt32(residuals)
    ensures AllInt32(MonoSamples(fset, residuals))
    ensures MonoResiduals(fset, MonoSamples(fset, residuals)) == residuals
  {
    hide P.MonoRun, P.MonoUnrun, Cascade, Uncascade;
    UncascadeCascade(fset, 0, residuals);
    P.MonoUnrunRun(P.Start(), Cascade(fset, 0, residuals));
  }

  // ----- stereo -----

  /** The end of `ape_unpack_stereo`: difference and mean become left and right. */
  function Recombine(d: (int, int)): (lr: (int, int))
    ensures Int32(lr.0) && Int32(lr.1)
  {
    var left := Wrap32(d.1 - TruncDiv(d.0, 2));
    (left, Wrap32(left + d.0))
  }

  function Separate(lr: (int, int)): (d: (int, int))
    ensures Int32(d.0) && Int32(d.1)
  {
    var difference := Wrap32(lr.1 - lr.0);
    (difference, Wrap32(lr.0 + TruncDiv(difference, 2)))
  }

  lemma RecombineSeparate(lr: (int, int))
    requires Int32(lr.0) && Int32(lr.1)
    ensures Recombine(Separate(lr)) == lr
  {
    hide Wrap32, TruncDiv;
    var d := Separate(lr);
    Wrap32Undo(lr.0, TruncDiv(d.0, 2));
    Wrap32Undo(lr.1, -lr.0);
  }

  lemma SeparateRecombine(d: (int, int))
    requires Int32(d.0) && Int32(d.1)
    ensures Separate(Recombine(d)) == d
  {
    hide Wrap32, TruncDiv;
    var left := Wrap32(d.1 - TruncDiv(d.0, 2));
    Wrap32Undo(d.0, left);
    Wrap32Undo(d.1, -TruncDiv(d.0, 2));
  }

  /** What the two numbers mean, where nothing wraps: the right sample minus the left one, and their
      mean, so that both samples together are twice the mean, and one more or less if the difference is odd. */
  lemma DifferenceAndMean(d: (int, int))
    requires Int32(d.1 - TruncDiv(d.0, 2)) && Int32(d.1 - TruncDiv(d.0, 2) + d.0)
    ensures var (left, right) := Recombine(d);
      && right - left == d.0
      && left + right - 2 * d.1 == if d.0 % 2 == 0 then 0 else if d.0 > 0 then 1 else -1
  {
    Wrap32Id(d.1 - TruncDiv(d.0, 2));
    Wrap32Id(d.1 - TruncDiv(d.0, 2) + d.0);
  }

  function RecombineAll(d: seq<(int, int)>): (lr: seq<(int, int)>)
    ensures |lr| == |d| && PairsInt32(lr)
  {
    seq(|d|, i requires 0 <= i < |d| => Recombine(d[i]))
  }

  function SeparateAll(lr: seq<(int, int)>): (d: seq<(int, int)>)
    ensures |d| == |lr| && PairsInt32(d)
  {
    seq(|lr|, i requires 0 <= i < |lr| => Separate(lr[i]))
  }

  lemma RecombineSeparateAll(lr: seq<(int, int)>)
    requires PairsInt32(lr)
    ensures RecombineAll(SeparateAll(lr)) == lr
  {
    hide Recombine, Separate;
    forall i | 0 <= i < |lr|
      ensures RecombineAll(SeparateAll(lr))[i] == lr[i]
    {
      RecombineSeparate(lr[i]);
    }
  }

  lemma SeparateRecombineAll(d: seq<(int, int)>)
    requires PairsInt32(d)
    ensures SeparateAll(RecombineAll(d)) == d
  {
    hide Recombine, Separate;
    forall i | 0 <= i < |d|
      ensures SeparateAll(RecombineAll(d))[i] == d[i]
    {
      SeparateRecombine(d[i]);
    }
  }

  function CascadePairs(fset: nat, d: seq<(int, int)>): (e: seq<(int, int)>)
    requires FilterSet(fset)
    ensures |e| == |d|
  {
    Zip(Cascade(fset, 0, Firsts(d)), Cascade(fset, 0, Seconds(d)))
  }

  function UncascadePairs(fset: nat, e: seq<(int, int)>): (d: seq<(int, int)>)
    requires FilterSet(fset)
    ensures |d| == |e|
  {
    Zip(Uncascade(fset, 0, Firsts(e)), Uncascade(fset, 0, Seconds(e)))
  }

  lemma CascadePairsInverse(fset: nat, d: seq<(int, int)>)
    requires FilterSet(fset) && PairsInt32(d)
    ensures PairsInt32(CascadePairs(fset, d)) && UncascadePairs(fset, CascadePairs(fset, d)) == d
    ensures PairsInt32(UncascadePairs(fset, d)) && CascadePairs(fset, UncascadePairs(fset, d)) == d
  {
    hide Cascade, Uncascade, Firsts, Seconds, Zip, AllInt32, PairsInt32;
    ZipBack(d);
    ZipBack(CascadePairs(fset, d));
    ZipBack(UncascadePairs(fset, d));
    UncascadeCascade(fset, 0, Firsts(d));
    UncascadeCascade(fset, 0, Seconds(d));
    CascadeUncascade(fset, 0, Firsts(d));
    CascadeUncascade(fset, 0, Seconds(d));
  }

  const BEGIN: P.Stereo := P.Stereo(P.Start(), P.Start())

  /** From residuals to left and right samples. */
  function StereoSamples(fset: nat, residuals: seq<(int, int)>): (samples: seq<(int, int)>)
    requires FilterSet(fset)
    ensures |samples| == |residuals|
  {
    RecombineAll(P.Run(BEGIN, CascadePairs(fset, residuals)).1)
  }

  function StereoResiduals(fset: nat, samples: seq<(int, int)>): (residuals: seq<(int, int)>)
    requires FilterSet(fset)
    ensures |residuals| == |samples|
  {
    UncascadePairs(fset, P.Unrun(BEGIN, SeparateAll(samples)).1)
  }

  lemma StereoLossless(fset: nat, samples: seq<(int, int)>)
    requires FilterSet(fset) && PairsInt32(samples)
    ensures PairsInt32(StereoResiduals(fset, samples))
    ensures StereoSamples(fset, StereoResiduals(fset, samples)) == samples
  {
    hide P.Run, P.Unrun, CascadePairs, UncascadePairs, SeparateAll, RecombineAll;
    RecombineSeparateAll(samples);
    P.RunUnrun(BEGIN, SeparateAll(samples));
    CascadePairsInverse(fset, P.Unrun(BEGIN, SeparateAll(samples)).1);
  }

  lemma StereoFaithful(fset: nat, residuals: seq<(int, int)>)
    requires FilterSet(fset) && PairsInt32(residuals)
    ensures PairsInt32(StereoSamples(fset, residuals))
    ensures StereoResiduals(fset, StereoSamples(fset, residuals)) == residuals
  {
    hide P.Run, P.Unrun, CascadePairs, UncascadePairs, SeparateAll, RecombineAll;
    CascadePairsInverse(fset, residuals);
    P.UnrunRun(BEGIN, CascadePairs(fset, residuals));
    SeparateRecombineAll(P.Run(BEGIN, CascadePairs(fset, residuals)).1);
  }
}
