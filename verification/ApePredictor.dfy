/** The adaptive predictor of the APE decoder.

    Each channel keeps the four latest values of its A stage and the five latest of its B stage,
    together with their signs, in a buffer that slides one place per sample.  `Channel` is the
    predictor on those short lists; `Predictor` is the sliding buffer, proved to be the same. */
module ApePredictor {
  import opened ApeWords

  const HISTORY_SIZE: nat := 512
  const PREDICTOR_SIZE: nat := 50
  const YDELAYA: nat := 50
  const YDELAYB: nat := 42
  const XDELAYA: nat := 34
  const XDELAYB: nat := 26
  const YADAPTCOEFFSA: nat := 18
  const XADAPTCOEFFSA: nat := 14
  const YADAPTCOEFFSB: nat := 10
  const XADAPTCOEFFSB: nat := 5

  /** `histA` and `histB` are newest first: a value, then its successive differences. */
  datatype Channel = Channel(
    lastA: int,
    filterA: int,
    filterB: int,
    coeffsA: seq<int>,
    coeffsB: seq<int>,
    histA: seq<int>,
    histB: seq<int>)

  predicate Shaped(c: Channel) {
    |c.coeffsA| == |c.histA| == 4 && |c.coeffsB| == |c.histB| == 5
  }

  function Start(): (c: Channel)
    ensures Shaped(c)
  {
    Channel(0, 0, 0, [360, 317, -109, 98], [0, 0, 0, 0, 0], [0, 0, 0, 0], [0, 0, 0, 0, 0])
  }

  /** The leaky factor 31/32, computed on 64 bits. */
  function Leak(x: int): int {
    Wrap64(x * 31) / 32
  }

  /** A new value enters: it replaces the newest, the difference to the old newest follows. */
  function Push(hist: seq<int>, v: int): (h: seq<int>)
    requires |hist| >= 3
    ensures |h| == |hist|
  {
    [v, Wrap64(v - hist[0])] + hist[1..|hist| - 1]
  }

  function SumA(h: seq<int>, c: seq<int>): int
    requires |h| == |c| == 4
  {
    Wrap64(h[0] * c[0] + h[1] * c[1] + h[2] * c[2] + h[3] * c[3])
  }

  function SumB(h: seq<int>, c: seq<int>): int
    requires |h| == |c| == 5
  {
    Wrap64(h[0] * c[0] + h[1] * c[1] + h[2] * c[2] + h[3] * c[3] + h[4] * c[4])
  }

  /** Every coefficient moves by the product of its input's sign and the residual's sign. */
  function Nudged(coeffs: seq<int>, hist: seq<int>, decoded: int): (c: seq<int>)
    requires |coeffs| == |hist|
    ensures |c| == |coeffs|
  {
    seq(|coeffs|, i requires 0 <= i < |coeffs| =>
      Wrap64(coeffs[i] + ApeSign(hist[i]) * ApeSign(decoded)))
  }

  /** The channel after its histories took in `lastA` and the other channel's `filterA`. */
  function Primed(c: Channel, other: int): (p: Channel)
    requires Shaped(c)
    ensures Shaped(p)
  {
    c.(histA := Push(c.histA, c.lastA), histB := Push(c.histB, Wrap64(other - Leak(c.filterB))), filterB := other)
  }

  /** The prediction added to a residual (16-bit mode: 32-bit intermediate results). */
  function Prediction(p: Channel): int
    requires Shaped(p)
  {
    Wrap32(Wrap32(SumA(p.histA, p.coeffsA)) + Wrap32(SumB(p.histB, p.coeffsB)) / 2) / 1024
  }

  /** `predictor_update_filter` for one channel; the returned value is the new `filterA`. */
  function Update(c: Channel, decoded: int, other: int): (n: Channel)
    requires Shaped(c)
    ensures Shaped(n)
  {
    var p := Primed(c, other);
    var last := Wrap32(decoded + Prediction(p));
    p.(lastA := last,
       filterA := Wrap64(last + Leak(p.filterA)),
       coeffsA := Nudged(p.coeffsA, p.histA, decoded),
       coeffsB := Nudged(p.coeffsB, p.histB, decoded))
  }

  /** The encoder's side: the residual that makes `Update` produce the sample `out`. */
  function Residual(c: Channel, out: int, other: int): (d: int)
    requires Shaped(c)
    ensures Int32(d)
  {
    var p := Primed(c, other);
    Wrap32(Wrap32(out - Leak(p.filterA)) - Prediction(p))
  }

  /** The sample a channel state gives out. */
  function Sample(c: Channel): int {
    Wrap32(c.filterA)
  }

  lemma SampleOf(last: int, leak: int)
    ensures Wrap32(Wrap64(last + leak)) == Wrap32(last + leak)
  {
    Wrap64Mod32(last + leak);
  }

  lemma ResidualUpdate(c: Channel, decoded: int, other: int)
    requires Shaped(c) && Int32(decoded)
    ensures Residual(c, Sample(Update(c, decoded, other)), other) == decoded
  {
    hide SumA, SumB, Push, Leak, Wrap32, Wrap64, Prediction, Nudged;
    var p := Primed(c, other);
    var q, l := Prediction(p), Leak(p.filterA);
    var last := Wrap32(decoded + q);
    SampleOf(last, l);
    Wrap32Undo(last, l);
    Wrap32Undo(decoded, q);
  }

  lemma UpdateResidual(c: Channel, out: int, other: int)
    requires Shaped(c) && Int32(out)
    ensures Sample(Update(c, Residual(c, out, other), other)) == out
  {
    hide SumA, SumB, Push, Leak, Wrap32, Wrap64, Prediction, Nudged;
    var p := Primed(c, other);
    var q, l := Prediction(p), Leak(p.filterA);
    var last := Wrap32(out - l);
    Wrap32Undo(last, -q);
    SampleOf(last, l);
    Wrap32Undo(out, -l);
  }

  // ----- stereo: the Y channel sees the X channel's last sample and the other way round -----

  datatype Stereo = Stereo(y: Channel, x: Channel)

  predicate BothShaped(s: Stereo) {
    Shaped(s.y) && Shaped(s.x)
  }

  function Step(s: Stereo, d0: int, d1: int): (t: Stereo)
    requires BothShaped(s)
    ensures BothShaped(t)
  {
    var y := Update(s.y, d0, s.x.filterA);
    Stereo(y, Update(s.x, d1, y.filterA))
  }

  /** `predictor_decode_stereo_3950` in 16-bit mode, over a block of pairs. */
  function Run(s: Stereo, d: seq<(int, int)>): (r: (Stereo, seq<(int, int)>))
    requires BothShaped(s)
    ensures BothShaped(r.0) && |r.1| == |d|
  {
    if d == [] then (s, [])
    else
      var n := |d| - 1;
      var (t, out) := Run(s, d[..n]);
      var u := Step(t, d[n].0, d[n].1);
      (u, out + [(Sample(u.y), Sample(u.x))])
  }

  function Unrun(s: Stereo, out: seq<(int, int)>): (r: (Stereo, seq<(int, int)>))
    requires BothShaped(s)
    ensures BothShaped(r.0) && |r.1| == |out|
  {
    if out == [] then (s, [])
    else
      var n := |out| - 1;
      var (t, d) := Unrun(s, out[..n]);
      var d0 := Residual(t.y, out[n].0, t.x.filterA);
      var d1 := Residual(t.x, out[n].1, Update(t.y, d0, t.x.filterA).filterA);
      (Step(t, d0, d1), d + [(d0, d1)])
  }

  lemma {:induction false} UnrunRun(s: Stereo, d: seq<(int, int)>)
    requires BothShaped(s) && PairsInt32(d)
    ensures PairsInt32(Run(s, d).1) && Unrun(s, Run(s, d).1) == (Run(s, d).0, d)
  {
    hide Update, Residual, Wrap32;
    if d != [] {
      var n := |d| - 1;
      UnrunRun(s, d[..n]);
      var (t, out) := Run(s, d[..n]);
      var u := Step(t, d[n].0, d[n].1);
      assert (out + [(Sample(u.y), Sample(u.x))])[..n] == out && d[..n] + [d[n]] == d;
      ResidualUpdate(t.y, d[n].0, t.x.filterA);
      ResidualUpdate(t.x, d[n].1, u.y.filterA);
    }
  }

  lemma {:induction false} RunUnrun(s: Stereo, out: seq<(int, int)>)
    requires BothShaped(s) && PairsInt32(out)
    ensures PairsInt32(Unrun(s, out).1) && Run(s, Unrun(s, out).1) == (Unrun(s, out).0, out)
  {
    hide Update, Residual, Wrap32;
    if out != [] {
      var n := |out| - 1;
      RunUnrun(s, out[..n]);
      var (t, d) := Unrun(s, out[..n]);
      var d0 := Residual(t.y, out[n].0, t.x.filterA);
      var y := Update(t.y, d0, t.x.filterA);
      var d1 := Residual(t.x, out[n].1, y.filterA);
      assert (d + [(d0, d1)])[..n] == d && out[..n] + [out[n]] == out;
      UpdateResidual(t.y, out[n].0, t.x.filterA);
      UpdateResidual(t.x, out[n].1, y.filterA);
    }
  }

  // ----- mono -----

  /** `predictor_decode_mono_3950`, one sample: the A stage alone, on 64 bits throughout. */
  function MonoPrimed(c: Channel): (p: Channel)
    requires Shaped(c)
    ensures Shaped(p)
  {
    c.(histA := Push(c.histA, c.lastA))
  }

  function MonoPrediction(p: Channel): int
    requires Shaped(p)
  {
    SumA(p.histA, p.coeffsA) / 1024
  }

  function MonoUpdate(c: Channel, decoded: int): (n: Channel)
    requires Shaped(c)
    ensures Shaped(n)
  {
    var p := MonoPrimed(c);
    var current := Wrap64(decoded + MonoPrediction(p));
    p.(lastA := current,
       filterA := Wrap64(current + Leak(p.filterA)),
       coeffsA := Nudged(p.coeffsA, p.histA, decoded))
  }

  function MonoResidual(c: Channel, out: int): (d: int)
    requires Shaped(c)
    ensures Int32(d)
  {
    var p := MonoPrimed(c);
    Wrap32(Wrap32(out - Leak(p.filterA)) - MonoPrediction(p))
  }

  lemma MonoSample(decoded: int, prediction: int, leak: int)
    ensures Wrap32(Wrap64(Wrap64(decoded + prediction) + leak)) == Wrap32(Wrap32(decoded + prediction) + leak)
  {
    var v := Wrap64(decoded + prediction);
    Wrap64Mod32(v + leak);
    Wrap32Sum(v, leak);
    Wrap64Mod32(decoded + prediction);
    Wrap32Sum(decoded + prediction, leak);
  }

  lemma MonoResidualUpdate(c: Channel, decoded: int)
    requires Shaped(c) && Int32(decoded)
    ensures MonoResidual(c, Sample(MonoUpdate(c, decoded))) == decoded
  {
    hide SumA, Push, Leak, Wrap32, Wrap64, MonoPrediction, Nudged;
    var p := MonoPrimed(c);
    var q, l := MonoPrediction(p), Leak(p.filterA);
    MonoSample(decoded, q, l);
    Wrap32Undo(Wrap32(decoded + q), l);
    Wrap32Undo(decoded, q);
  }

  lemma MonoUpdateResidual(c: Channel, out: int)
    requires Shaped(c) && Int32(out)
    ensures Sample(MonoUpdate(c, MonoResidual(c, out))) == out
  {
    hide SumA, Push, Leak, Wrap32, Wrap64, MonoPrediction, Nudged;
    var p := MonoPrimed(c);
    var q, l := MonoPrediction(p), Leak(p.filterA);
    MonoSample(MonoResidual(c, out), q, l);
    Wrap32Undo(Wrap32(out - l), -q);
    Wrap32Undo(out, -l);
  }

  function MonoRun(c: Channel, d: seq<int>): (r: (Channel, seq<int>))
    requires Shaped(c)
    ensures Shaped(r.0) && |r.1| == |d|
  {
    if d == [] then (c, [])
    else
      var n := |d| - 1;
      var (t, out) := MonoRun(c, d[..n]);
      var u := MonoUpdate(t, d[n]);
      (u, out + [Sample(u)])
  }

  function MonoUnrun(c: Channel, out: seq<int>): (r: (Channel, seq<int>))
    requires Shaped(c)
    ensures Shaped(r.0) && |r.1| == |out|
  {
    if out == [] then (c, [])
    else
      var n := |out| - 1;
      var (t, d) := MonoUnrun(c, out[..n]);
      var x := MonoResidual(t, out[n]);
      (MonoUpdate(t, x), d + [x])
  }

  lemma {:induction false} MonoUnrunRun(c: Channel, d: seq<int>)
    requires Shaped(c) && AllInt32(d)
    ensures AllInt32(MonoRun(c, d).1) && MonoUnrun(c, MonoRun(c, d).1) == (MonoRun(c, d).0, d)
  {
    hide MonoUpdate, MonoResidual, Wrap32;
    if d != [] {
      var n := |d| - 1;
      MonoUnrunRun(c, d[..n]);
      var (t, out) := MonoRun(c, d[..n]);
      var u := MonoUpdate(t, d[n]);
      assert (out + [Sample(u)])[..n] == out && d[..n] + [d[n]] == d;
      MonoResidualUpdate(t, d[n]);
    }
  }

  lemma {:induction false} MonoRunUnrun(c: Channel, out: seq<int>)
    requires Shaped(c) && AllInt32(out)
    ensures AllInt32(MonoUnrun(c, out).1) && MonoRun(c, MonoUnrun(c, out).1) == (MonoUnrun(c, out).0, out)
  {
    hide MonoUpdate, MonoResidual, Wrap32;
    if out != [] {
      var n := |out| - 1;
      MonoRunUnrun(c, out[..n]);
      var (t, d) := MonoUnrun(c, out[..n]);
      assert (d + [MonoResidual(t, out[n])])[..n] == d && out[..n] + [out[n]] == out;
      MonoUpdateResidual(t, out[n]);
    }
  }
}
