/** The sign-LMS filters of the APE decoder.

    A filter keeps its last `order` clipped outputs and its last `order` adaption signs.  The
    decoder stores both in one array, the outputs exactly `order` places ahead of the signs, so
    that every sign overwrites the output that has just left its window.  `FilterState` is the
    filter on two queues; `APEFilter` is the sliding buffer, proved to be the same filter. */
module ApeFilter {
  import opened Bits
  import opened ApeWords
  import opened Integers

  const HISTORY_SIZE: nat := 512

  datatype FilterState = FilterState(coeffs: seq<int>, delays: seq<int>, adapts: seq<int>, avg: nat)

  predicate Shaped(s: FilterState, order: nat) {
    |s.coeffs| == |s.delays| == |s.adapts| == order && s.avg < TWO32
  }

  /** The sum of products of `scalarproduct_and_madd_int16`, over the first `n` terms. */
  function Dot(a: seq<int>, b: seq<int>, n: nat): int
    requires n <= |a| && n <= |b|
  {
    if n == 0 then 0 else Wrap32(Dot(a, b, n - 1) + a[n - 1] * b[n - 1])
  }

  /** The coefficients after the update half of `scalarproduct_and_madd_int16`. */
  function Adapted(coeffs: seq<int>, adapts: seq<int>, sign: int): (c: seq<int>)
    requires |coeffs| == |adapts|
    ensures |c| == |coeffs|
  {
    seq(|coeffs|, i requires 0 <= i < |coeffs| => Wrap16(coeffs[i] + adapts[i] * sign))
  }

  /** Rounding and scaling of the sum. */
  function Scale(sum: int, fracbits: nat): int
    requires fracbits > 0
  {
    (sum + Pow2(fracbits - 1)) / Pow2(fracbits)
  }

  /** The prediction: the rounded, scaled sum.  It looks only at the past. */
  function Predict(s: FilterState, fracbits: nat): int
    requires |s.coeffs| == |s.delays| && fracbits > 0
  {
    Scale(Dot(s.coeffs, s.delays, |s.coeffs|), fracbits)
  }

  /** The adaption sign recorded for an output. */
  function NewAdapt(res: int, avg: nat): int {
    var absres := Abs(res);
    if absres == 0 then 0
    else
      var steps := (if absres > avg * 3 then 1 else 0) + (if absres > Unsigned32(avg + avg / 3) then 1 else 0);
      Wrap16(ApeSign(res) * (if steps == 0 then 8 else if steps == 1 then 16 else 32))
  }

  function NewAvg(res: int, avg: nat): (a: nat)
    ensures a < TWO32
  {
    Unsigned32(avg + TruncDiv(Wrap32(Abs(res) - avg), 16))
  }

  /** The last, last but one and eighth last signs are halved before the new one is appended. */
  function Faded(adapts: seq<int>): (a: seq<int>)
    requires |adapts| >= 16
    ensures |a| == |adapts|
  {
    var n := |adapts|;
    adapts[n - 1 := adapts[n - 1] / 2][n - 2 := adapts[n - 2] / 2][n - 8 := adapts[n - 8] / 2]
  }

  /** The state after a sample: `x` went in, `res` came out. */
  function Advance(s: FilterState, x: int, res: int): (t: FilterState)
    requires |s.coeffs| == |s.delays| == |s.adapts| >= 16
    ensures Shaped(t, |s.coeffs|)
  {
    FilterState(
      Adapted(s.coeffs, s.adapts, ApeSign(x)),
      s.delays[1..] + [ClipInt16(res)],
      Faded(s.adapts)[1..] + [NewAdapt(res, s.avg)],
      NewAvg(res, s.avg))
  }

  /** One sample through the filter. */
  function Filter(s: FilterState, x: int, fracbits: nat): int
    requires |s.coeffs| == |s.delays| && fracbits > 0
  {
    Wrap32(Predict(s, fracbits) + x)
  }

  /** A block through the filter: the outputs, and the state left behind. */
  function Run(s: FilterState, xs: seq<int>, fracbits: nat): (r: (FilterState, seq<int>))
    requires Shaped(s, |s.coeffs|) && |s.coeffs| >= 16 && fracbits > 0
    ensures Shaped(r.0, |s.coeffs|) && |r.1| == |xs|
  {
    if xs == [] then (s, [])
    else
      var n := |xs| - 1;
      var (t, ys) := Run(s, xs[..n], fracbits);
      var res := Filter(t, xs[n], fracbits);
      (Advance(t, xs[n], res), ys + [res])
  }

  /** The encoder's side: from the outputs back to what went in. */
  function Unrun(s: FilterState, ys: seq<int>, fracbits: nat): (r: (FilterState, seq<int>))
    requires Shaped(s, |s.coeffs|) && |s.coeffs| >= 16 && fracbits > 0
    ensures Shaped(r.0, |s.coeffs|) && |r.1| == |ys|
  {
    if ys == [] then (s, [])
    else
      var n := |ys| - 1;
      var (t, xs) := Unrun(s, ys[..n], fracbits);
      var x := Wrap32(ys[n] - Predict(t, fracbits));
      (Advance(t, x, ys[n]), xs + [x])
  }

  /** Filtering is invertible: `Unrun` recovers every block from its outputs, ... */
  lemma {:induction false} UnrunRun(s: FilterState, xs: seq<int>, fracbits: nat)
    requires Shaped(s, |s.coeffs|) && |s.coeffs| >= 16 && fracbits > 0 && AllInt32(xs)
    ensures AllInt32(Run(s, xs, fracbits).1)
    ensures Unrun(s, Run(s, xs, fracbits).1, fracbits) == (Run(s, xs, fracbits).0, xs)
  {
    hide Advance, Predict;
    if xs != [] {
      var n := |xs| - 1;
      UnrunRun(s, xs[..n], fracbits);
      var (t, ys) := Run(s, xs[..n], fracbits);
      var p := Predict(t, fracbits);
      assert (ys + [Filter(t, xs[n], fracbits)])[..n] == ys && xs[..n] + [xs[n]] == xs;
      Wrap32Undo(xs[n], p);
      assert Filter(t, xs[n], fracbits) == Wrap32(xs[n] + p);
    }
  }

  /** ... and every block of outputs is reached. */
  lemma {:induction false} RunUnrun(s: FilterState, ys: seq<int>, fracbits: nat)
    requires Shaped(s, |s.coeffs|) && |s.coeffs| >= 16 && fracbits > 0 && AllInt32(ys)
    ensures AllInt32(Unrun(s, ys, fracbits).1)
    ensures Run(s, Unrun(s, ys, fracbits).1, fracbits) == (Unrun(s, ys, fracbits).0, ys)
  {
    hide Advance, Predict;
    if ys != [] {
      var n := |ys| - 1;
      RunUnrun(s, ys[..n], fracbits);
      var (t, xs) := Unrun(s, ys[..n], fracbits);
      var p := Predict(t, fracbits);
      assert (xs + [Wrap32(ys[n] - p)])[..n] == xs && ys[..n] + [ys[n]] == ys;
      Wrap32Undo(ys[n], -p);
      assert Filter(t, Wrap32(ys[n] - p), fracbits) == ys[n];
    }
  }

  function Zero(order: nat): (s: FilterState)
    ensures Shaped(s, order)
  {
    FilterState(NoHistory(order), NoHistory(order), NoHistory(order), 0)
  }

  function NoHistory(n: nat): (z: seq<int>)
    ensures |z| == n
  {
    seq(n, _ => 0)
  }

  predicate ZeroFront(s: seq<int>, n: nat) {
    n <= |s| && forall i :: 0 <= i < n ==> s[i] == 0
  }

  lemma ZeroState(c: seq<int>, h: seq<int>, n: nat)
    requires |c| == n && ZeroFront(c, n) && ZeroFront(h, n * 2)
    ensures FilterState(c, h[n..n * 2], h[0..n], 0) == Zero(n)
  {
  }

  class APEFilter {
    const order: nat
    const coeffs: array<int>
    const history: array<int>
    var delay: nat
    var adaptcoeffs: nat
    var avg: nat

    predicate Allocated()
      reads this
    {
      && order >= 16 && coeffs != history
      && coeffs.Length == order && history.Length == 2 * order + HISTORY_SIZE
    }

    ghost predicate Valid()
      reads this
    {
      && Allocated()
      && adaptcoeffs + order == delay
      && 2 * order <= delay < 2 * order + HISTORY_SIZE
      && avg < TWO32
    }

    /** The two queues hidden in the buffer. */
    ghost function State(): (s: FilterState)
      requires Valid()
      reads this, coeffs, history
      ensures Shaped(s, order)
    {
      FilterState(coeffs[..], history[delay - order..delay], history[adaptcoeffs - order..adaptcoeffs], avg)
    }

    constructor (n: nat)
      requires n >= 16
      ensures Allocated() && order == n && fresh(coeffs) && fresh(history)
    {
      order := n;
      coeffs, history := new int[n], new int[2 * n + HISTORY_SIZE];
    }

    /** `do_init_filter`: only the part of the buffer that is read before it is written is cleared. */
    method Init()
      requires Allocated()
      modifies this, coeffs, history
      ensures Valid() && State() == Zero(order)
    {
      hide NoHistory, Zero, ZeroFront;
      delay := order * 2;
      adaptcoeffs := order;
      ClearFront(history, order * 2);
      ghost var h := history[..];
      ClearFront(coeffs, order);
      assert history[..] == h;
      avg := 0;
      ZeroState(coeffs[..], h, order);
    }

    /** One `memset`. */
    static method ClearFront(a: array<int>, n: nat)
      requires n <= a.Length
      modifies a
      ensures ZeroFront(a[..], n)
    {
      for i := 0 to n
        modifies a
        invariant forall j :: 0 <= j < i ==> a[j] == 0
      {
        a[i] := 0;
      }
    }

    /** `scalarproduct_and_madd_int16` on the two windows. */
    method ScalarProductAndMadd(sign: int) returns (res: int)
      requires Valid()
      modifies coeffs
      ensures res == Dot(old(State()).coeffs, old(State()).delays, order)
      ensures coeffs[..] == Adapted(old(State()).coeffs, old(State()).adapts, sign)
    {
      hide Dot, Wrap16, Wrap32, Adapted;
      ghost var c, d, a := coeffs[..], history[delay - order..delay], history[adaptcoeffs - order..adaptcoeffs];
      res := 0;
      DotNone(c, d);
      for i := 0 to order
        modifies coeffs
        invariant res == Dot(c, d, i)
        invariant forall j :: 0 <= j < i ==> coeffs[j] == Wrap16(c[j] + a[j] * sign)
        invariant forall j :: i <= j < order ==> coeffs[j] == c[j]
      {
        DotMore(c, d, i);
        var v2, v3 := history[delay - order + i], history[adaptcoeffs - order + i];
        assert v2 == d[i] && v3 == a[i];
        res := Wrap32(res + coeffs[i] * v2);
        coeffs[i] := Wrap16(coeffs[i] + v3 * sign);
      }
      AdaptedIs(coeffs[..], c, a, sign);
    }

    /** Recording an output: the round of `do_apply_filter` after the sample is computed. */
    method Record(res: int)
      requires Valid()
      modifies this, history
      ensures Valid()
      ensures State() == old(State()).(
        delays := old(State()).delays[1..] + [ClipInt16(res)],
        adapts := Faded(old(State()).adapts)[1..] + [NewAdapt(res, old(avg))],
        avg := NewAvg(res, old(avg)))
    {
      hide NewAdapt, NewAvg, ClipInt16, Faded, Recorded;
      RecordWindows(history[..], order, delay, ClipInt16(res), NewAdapt(res, avg));
      Write(ClipInt16(res), NewAdapt(res, avg));
      avg := NewAvg(res, avg);
      MoveOn();
    }

    /** Both pointers move on by one place. */
    method MoveOn()
      requires Valid()
      modifies this`delay, this`adaptcoeffs, history
      ensures Valid()
      ensures history[delay - order..delay] == old(history[delay + 1 - order..delay + 1])
      ensures history[adaptcoeffs - order..adaptcoeffs] == old(history[adaptcoeffs + 1 - order..adaptcoeffs + 1])
    {
      ghost var d, a := history[delay + 1 - order..delay + 1], history[adaptcoeffs + 1 - order..adaptcoeffs + 1];
      delay := delay + 1;
      adaptcoeffs := adaptcoeffs + 1;
      assert history[delay - order..delay] == d && history[adaptcoeffs - order..adaptcoeffs] == a;
      if delay == HISTORY_SIZE + order * 2 {
        Rewind();
        assert history[delay - order..delay] == d && history[adaptcoeffs - order..adaptcoeffs] == a;
      }
    }

    /** The writes through the two pointers. */
    method Write(clipped: int, adapt: int)
      requires Valid()
      modifies history
      ensures history[..] == Recorded(old(history[..]), order, delay, clipped, adapt)
    {
      history[delay] := clipped;
      history[adaptcoeffs] := adapt;
      history[adaptcoeffs - 1] := history[adaptcoeffs - 1] / 2;
      history[adaptcoeffs - 2] := history[adaptcoeffs - 2] / 2;
      history[adaptcoeffs - 8] := history[adaptcoeffs - 8] / 2;
    }

    /** The `memmove` at the end of the buffer: both windows move to the front. */
    method Rewind()
      requires Allocated() && delay == 2 * order + HISTORY_SIZE && adaptcoeffs + order == delay
      modifies this`delay, this`adaptcoeffs, history
      ensures delay == 2 * order && adaptcoeffs == order
      ensures history[delay - order..delay] == old(history[delay - order..delay])
      ensures history[adaptcoeffs - order..adaptcoeffs] == old(history[adaptcoeffs - order..adaptcoeffs])
    {
      ghost var h := history[..];
      var from := delay - order * 2;
      for i := 0 to order * 2
        invariant forall j :: 0 <= j < i ==> history[j] == h[from + j]
        invariant forall j :: i <= j < history.Length ==> history[j] == h[j]
      {
        history[i] := history[from + i];
      }
      delay := order * 2;
      adaptcoeffs := order;
    }

    /** One round of `do_apply_filter`. */
    method Sample(x: int, fracbits: nat) returns (res: int)
      requires Valid() && fracbits > 0
      modifies this, coeffs, history
      ensures Valid()
      ensures res == Filter(old(State()), x, fracbits)
      ensures State() == Advance(old(State()), x, res)
    {
      hide Dot, Adapted, Faded, NewAdapt, NewAvg, ClipInt16, Scale;
      ghost var s := State();
      res := ScalarProductAndMadd(ApeSign(x));
      assert State() == s.(coeffs := Adapted(s.coeffs, s.adapts, ApeSign(x)));
      res := Wrap32(Scale(res, fracbits) + x);
      Record(res);
    }

    /** `do_apply_filter`: the block is rewritten in place. */
    method Apply(data: array<int>, count: nat, fracbits: nat)
      requires Valid() && fracbits > 0 && count <= data.Length && data != coeffs && data != history
      modifies this, coeffs, history, data
      ensures Valid()
      ensures (State(), data[..count]) == Run(old(State()), old(data[..count]), fracbits)
      ensures forall j :: count <= j < data.Length ==> data[j] == old(data[j])
    {
      hide Filter, Advance;
      ghost var s, xs := State(), data[..count];
      for i := 0 to count
        invariant Valid()
        invariant (State(), data[..i]) == Run(s, xs[..i], fracbits)
        invariant forall j :: i <= j < count ==> data[j] == xs[j]
        invariant forall j :: count <= j < data.Length ==> data[j] == old(data[j])
      {
        ghost var ys := data[..i];
        RunStep(s, xs, i, fracbits);
        data[i] := Sample(data[i], fracbits);
        assert data[..i + 1] == ys + [data[i]];
      }
      assert xs[..count] == xs;
    }
  }

  /** The buffer after an output was recorded at `n`, before the pointers move. */
  function Recorded(h: seq<int>, order: nat, n: nat, clipped: int, adapt: int): (r: seq<int>)
    requires order >= 16 && 2 * order <= n < |h|
    ensures |r| == |h|
  {
    var a := n - order;
    h[n := clipped][a := adapt][a - 1 := h[a - 1] / 2][a - 2 := h[a - 2] / 2][a - 8 := h[a - 8] / 2]
  }

  /** The windows do not disturb each other: the sign lands on the output that just expired. */
  lemma RecordWindows(h: seq<int>, order: nat, n: nat, clipped: int, adapt: int)
    requires order >= 16 && 2 * order <= n < |h|
    ensures var r, a := Recorded(h, order, n, clipped, adapt), n - order;
      && r[n + 1 - order..n + 1] == h[n - order..n][1..] + [clipped]
      && r[a + 1 - order..a + 1] == Faded(h[a - order..a])[1..] + [adapt]
  {
    var r, a := Recorded(h, order, n, clipped, adapt), n - order;
    var w, f := h[a - order..a], Faded(h[a - order..a]);
    forall k | 0 <= k < order
      ensures r[a + 1 - order..a + 1][k] == (f[1..] + [adapt])[k]
    {
      assert k < order - 1 ==> w[k + 1] == h[a + 1 - order + k];
    }
  }

  lemma RunStep(s: FilterState, xs: seq<int>, i: nat, fracbits: nat)
    requires Shaped(s, |s.coeffs|) && |s.coeffs| >= 16 && fracbits > 0 && i < |xs|
    ensures var (t, ys) := Run(s, xs[..i], fracbits);
      var res := Filter(t, xs[i], fracbits);
      Run(s, xs[..i + 1], fracbits) == (Advance(t, xs[i], res), ys + [res])
  {
    hide Filter, Advance;
    assert xs[..i + 1][..i] == xs[..i];
  }

  lemma AdaptedIs(s: seq<int>, c: seq<int>, a: seq<int>, sign: int)
    requires |s| == |c| == |a| && forall j :: 0 <= j < |c| ==> s[j] == Wrap16(c[j] + a[j] * sign)
    ensures s == Adapted(c, a, sign)
  {
    hide Wrap16;
  }

  lemma DotNone(c: seq<int>, d: seq<int>)
    ensures Dot(c, d, 0) == 0
  {
  }

  lemma DotMore(c: seq<int>, d: seq<int>, i: nat)
    requires i < |c| && i < |d|
    ensures Dot(c, d, i + 1) == Wrap32(Dot(c, d, i) + c[i] * d[i])
  {
  }
}
