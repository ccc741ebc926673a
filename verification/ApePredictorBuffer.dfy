/** The sliding history buffer of the APE predictor. */
module ApePredictorBuffer {
  import opened ApeWords
  import opened ApePredictor

  /** A history, newest first, at `top` and downwards; `skip` newest places are not in use yet. */
  ghost predicate Values(h: seq<int>, top: nat, hist: seq<int>) {
    |hist| <= top + 1 && top < |h| && forall i :: 0 <= i < |hist| ==> h[top - i] == hist[i]
  }

  /** The signs of the `n` newest values of a history, at `top` and downwards. */
  ghost predicate Signs(h: seq<int>, top: nat, hist: seq<int>, n: nat) {
    n <= |hist| && n <= top + 1 && top < |h| && forall i :: 0 <= i < n ==> h[top - i] == ApeSign(hist[i])
  }

  /** A stage before its new value enters: everything sits one place lower than it will be. */
  ghost predicate Waiting(h: seq<int>, delay: nat, adapt: nat, hist: seq<int>) {
    delay > 0 && adapt > 0 && |hist| > 0
    && Values(h, delay - 1, hist) && Signs(h, adapt - 1, hist, |hist| - 1)
  }

  ghost predicate Pushed(h: seq<int>, delay: nat, adapt: nat, hist: seq<int>) {
    Values(h, delay, hist) && Signs(h, adapt, hist, |hist|)
  }

  /** The four writes that push a value into a stage. */
  function PushInto(h: seq<int>, delay: nat, adapt: nat, v: int): (r: seq<int>)
    requires 0 < adapt < delay < |h|
    ensures |r| == |h|
  {
    var d := Wrap64(v - h[delay - 1]);
    h[delay := v][adapt := ApeSign(v)][delay - 1 := d][adapt - 1 := ApeSign(d)]
  }

  lemma PushWorks(h: seq<int>, delay: nat, adapt: nat, hist: seq<int>, v: int)
    requires |hist| >= 3 && Waiting(h, delay, adapt, hist)
    requires adapt + |hist| < delay < |h|
    ensures Pushed(PushInto(h, delay, adapt, v), delay, adapt, Push(hist, v))
  {
    hide Wrap64, ApeSign;
    var r, p := PushInto(h, delay, adapt, v), Push(hist, v);
    forall i | 0 <= i < |p|
      ensures r[delay - i] == p[i] && r[adapt - i] == ApeSign(p[i])
    {
      if i >= 2 {
        assert p[i] == hist[i - 1];
        assert h[delay - 1 - (i - 1)] == hist[i - 1] && h[adapt - 1 - (i - 1)] == ApeSign(hist[i - 1]);
      }
    }
  }

  /** Pushing into one stage leaves a stage elsewhere alone. */
  lemma PushAway(h: seq<int>, delay: nat, adapt: nat, v: int, top: nat, hist: seq<int>, atop: nat, n: nat)
    requires 0 < adapt < delay < |h|
    requires Values(h, top, hist) && Signs(h, atop, hist, n)
    requires top < delay - 1 || delay < top + 1 - |hist|
    requires top < adapt - 1 || adapt < top + 1 - |hist|
    requires atop < adapt - 1 || adapt < atop + 1 - n
    requires atop < delay - 1
    ensures Values(PushInto(h, delay, adapt, v), top, hist) && Signs(PushInto(h, delay, adapt, v), atop, hist, n)
  {
    hide Wrap64, ApeSign;
  }

  /** The two stages of a channel. */
  ghost predicate AllWaiting(h: seq<int>, delayA: nat, adaptA: nat, delayB: nat, adaptB: nat, a: seq<int>, b: seq<int>) {
    Waiting(h, delayA, adaptA, a) && Waiting(h, delayB, adaptB, b)
  }

  ghost predicate AllPushed(h: seq<int>, delayA: nat, adaptA: nat, delayB: nat, adaptB: nat, a: seq<int>, b: seq<int>) {
    Pushed(h, delayA, adaptA, a) && Pushed(h, delayB, adaptB, b)
  }

  lemma WaitingAway(h: seq<int>, delay: nat, adapt: nat, v: int, d: nat, a: nat, hist: seq<int>)
    requires 0 < adapt && adapt + 1 < delay < |h| && Waiting(h, d, a, hist)
    requires d < delay || delay + |hist| < d
    requires d < adapt || adapt + |hist| < d
    requires a < adapt || adapt + |hist| <= a
    requires a < delay
    ensures Waiting(PushInto(h, delay, adapt, v), d, a, hist)
  {
    hide PushInto;
    PushAway(h, delay, adapt, v, d - 1, hist, a - 1, |hist| - 1);
  }

  lemma PushedAway(h: seq<int>, delay: nat, adapt: nat, v: int, d: nat, a: nat, hist: seq<int>)
    requires 0 < adapt && adapt + 1 < delay < |h| && Pushed(h, d, a, hist)
    requires d + 1 < delay || delay + |hist| <= d
    requires d + 1 < adapt || adapt + |hist| <= d
    requires a + 1 < adapt || adapt + |hist| <= a
    requires a + 1 < delay
    ensures Pushed(PushInto(h, delay, adapt, v), d, a, hist)
  {
    hide PushInto;
    PushAway(h, delay, adapt, v, d, hist, a, |hist|);
  }

  /** Channel Y is updated first: both its stages move up while channel X waits. */
  lemma PushY(h: seq<int>, b: nat, y: Channel, x: Channel, va: int, vb: int)
    requires Shaped(y) && Shaped(x) && b + YDELAYA < |h|
    requires AllWaiting(h, b + YDELAYA, b + YADAPTCOEFFSA, b + YDELAYB, b + YADAPTCOEFFSB, y.histA, y.histB)
    requires AllWaiting(h, b + XDELAYA, b + XADAPTCOEFFSA, b + XDELAYB, b + XADAPTCOEFFSB, x.histA, x.histB)
    ensures var g := PushInto(PushInto(h, b + YDELAYA, b + YADAPTCOEFFSA, va), b + YDELAYB, b + YADAPTCOEFFSB, vb);
      && AllPushed(g, b + YDELAYA, b + YADAPTCOEFFSA, b + YDELAYB, b + YADAPTCOEFFSB,
                   Push(y.histA, va), Push(y.histB, vb))
      && AllWaiting(g, b + XDELAYA, b + XADAPTCOEFFSA, b + XDELAYB, b + XADAPTCOEFFSB, x.histA, x.histB)
  {
    hide Waiting, Pushed, PushInto, Push;
    var dA, aA, dB, aB := b + YDELAYA, b + YADAPTCOEFFSA, b + YDELAYB, b + YADAPTCOEFFSB;
    var e := PushInto(h, dA, aA, va);
    PushWorks(h, dA, aA, y.histA, va);
    WaitingAway(h, dA, aA, va, dB, aB, y.histB);
    WaitingAway(h, dA, aA, va, b + XDELAYA, b + XADAPTCOEFFSA, x.histA);
    WaitingAway(h, dA, aA, va, b + XDELAYB, b + XADAPTCOEFFSB, x.histB);
    PushWorks(e, dB, aB, y.histB, vb);
    PushedAway(e, dB, aB, vb, dA, aA, Push(y.histA, va));
    WaitingAway(e, dB, aB, vb, b + XDELAYA, b + XADAPTCOEFFSA, x.histA);
    WaitingAway(e, dB, aB, vb, b + XDELAYB, b + XADAPTCOEFFSB, x.histB);
  }

  /** Then channel X moves up, below channel Y's places. */
  lemma PushX(h: seq<int>, b: nat, y: Channel, x: Channel, va: int, vb: int)
    requires Shaped(y) && Shaped(x) && b + YDELAYA < |h|
    requires AllPushed(h, b + YDELAYA, b + YADAPTCOEFFSA, b + YDELAYB, b + YADAPTCOEFFSB, y.histA, y.histB)
    requires AllWaiting(h, b + XDELAYA, b + XADAPTCOEFFSA, b + XDELAYB, b + XADAPTCOEFFSB, x.histA, x.histB)
    ensures var g := PushInto(PushInto(h, b + XDELAYA, b + XADAPTCOEFFSA, va), b + XDELAYB, b + XADAPTCOEFFSB, vb);
      && AllPushed(g, b + YDELAYA, b + YADAPTCOEFFSA, b + YDELAYB, b + YADAPTCOEFFSB, y.histA, y.histB)
      && AllPushed(g, b + XDELAYA, b + XADAPTCOEFFSA, b + XDELAYB, b + XADAPTCOEFFSB,
                   Push(x.histA, va), Push(x.histB, vb))
  {
    hide Waiting, Pushed, PushInto, Push;
    var dA, aA, dB, aB := b + XDELAYA, b + XADAPTCOEFFSA, b + XDELAYB, b + XADAPTCOEFFSB;
    var e := PushInto(h, dA, aA, va);
    PushWorks(h, dA, aA, x.histA, va);
    WaitingAway(h, dA, aA, va, dB, aB, x.histB);
    PushedAway(h, dA, aA, va, b + YDELAYA, b + YADAPTCOEFFSA, y.histA);
    PushedAway(h, dA, aA, va, b + YDELAYB, b + YADAPTCOEFFSB, y.histB);
    PushWorks(e, dB, aB, x.histB, vb);
    PushedAway(e, dB, aB, vb, dA, aA, Push(x.histA, va));
    PushedAway(e, dB, aB, vb, b + YDELAYA, b + YADAPTCOEFFSA, y.histA);
    PushedAway(e, dB, aB, vb, b + YDELAYB, b + YADAPTCOEFFSB, y.histB);
  }

  /** Fifty zeros hold the histories of both channels at the start. */
  lemma ClearedWaits(h: seq<int>)
    requires |h| > PREDICTOR_SIZE && forall j :: 0 <= j < PREDICTOR_SIZE ==> h[j] == 0
    ensures AllWaiting(h, YDELAYA, YADAPTCOEFFSA, YDELAYB, YADAPTCOEFFSB, Start().histA, Start().histB)
    ensures AllWaiting(h, XDELAYA, XADAPTCOEFFSA, XDELAYB, XADAPTCOEFFSB, Start().histA, Start().histB)
  {
    hide Waiting;
    ZerosWait(h, YDELAYA, YADAPTCOEFFSA, Start().histA);
    ZerosWait(h, YDELAYB, YADAPTCOEFFSB, Start().histB);
    ZerosWait(h, XDELAYA, XADAPTCOEFFSA, Start().histA);
    ZerosWait(h, XDELAYB, XADAPTCOEFFSB, Start().histB);
  }

  lemma ZerosWait(h: seq<int>, delay: nat, adapt: nat, hist: seq<int>)
    requires |h| > PREDICTOR_SIZE && forall j :: 0 <= j < PREDICTOR_SIZE ==> h[j] == 0
    requires 0 < |hist| <= delay <= PREDICTOR_SIZE && |hist| <= adapt + 1 && 0 < adapt <= PREDICTOR_SIZE
    requires forall i :: 0 <= i < |hist| ==> hist[i] == 0
    ensures Waiting(h, delay, adapt, hist)
  {
  }

  class Predictor {
    const historybuffer: array<int>
    var buf: nat
    var lastA: seq<int>
    var filterA: seq<int>
    var filterB: seq<int>
    var coeffsA: seq<seq<int>>
    var coeffsB: seq<seq<int>>
    ghost var y: Channel
    ghost var x: Channel

    predicate Allocated()
      reads this
    {
      && historybuffer.Length == HISTORY_SIZE + PREDICTOR_SIZE
      && |lastA| == |filterA| == |filterB| == |coeffsA| == |coeffsB| == 2
    }

    /** The registers of channel `f` are those of `c`. */
    ghost predicate Regs(f: nat, c: Channel)
      requires Allocated() && f < 2
      reads this
    {
      && Shaped(c)
      && lastA[f] == c.lastA && filterA[f] == c.filterA && filterB[f] == c.filterB
      && coeffsA[f] == c.coeffsA && coeffsB[f] == c.coeffsB
    }

    ghost predicate Valid()
      reads this, historybuffer
    {
      && Allocated() && buf < HISTORY_SIZE
      && Regs(0, y) && Regs(1, x)
      && AllWaiting(historybuffer[..], buf + YDELAYA, buf + YADAPTCOEFFSA, buf + YDELAYB, buf + YADAPTCOEFFSB, y.histA, y.histB)
      && AllWaiting(historybuffer[..], buf + XDELAYA, buf + XADAPTCOEFFSA, buf + XDELAYB, buf + XADAPTCOEFFSB, x.histA, x.histB)
    }

    /** Between the two channels' updates. */
    ghost predicate Halfway()
      reads this, historybuffer
    {
      && Allocated() && buf < HISTORY_SIZE
      && Regs(0, y) && Regs(1, x)
      && AllPushed(historybuffer[..], buf + YDELAYA, buf + YADAPTCOEFFSA, buf + YDELAYB, buf + YADAPTCOEFFSB, y.histA, y.histB)
      && AllWaiting(historybuffer[..], buf + XDELAYA, buf + XADAPTCOEFFSA, buf + XDELAYB, buf + XADAPTCOEFFSB, x.histA, x.histB)
    }

    /** Both channels updated, the buffer not moved on yet. */
    ghost predicate Done()
      reads this, historybuffer
    {
      && Allocated() && buf < HISTORY_SIZE
      && Regs(0, y) && Regs(1, x)
      && AllPushed(historybuffer[..], buf + YDELAYA, buf + YADAPTCOEFFSA, buf + YDELAYB, buf + YADAPTCOEFFSB, y.histA, y.histB)
      && AllPushed(historybuffer[..], buf + XDELAYA, buf + XADAPTCOEFFSA, buf + XDELAYB, buf + XADAPTCOEFFSB, x.histA, x.histB)
    }

    constructor ()
      ensures Allocated() && fresh(historybuffer)
    {
      historybuffer := new int[HISTORY_SIZE + PREDICTOR_SIZE];
      lastA, filterA, filterB := [0, 0], [0, 0], [0, 0];
      coeffsA, coeffsB := [[], []], [[], []];
      y, x := Start(), Start();
    }

    /** `init_predictor_decoder`: only the first 50 places of the buffer are cleared. */
    method Init()
      requires Allocated()
      modifies this, historybuffer
      ensures Valid() && y == Start() && x == Start()
    {
      hide AllWaiting;
      for i := 0 to PREDICTOR_SIZE
        modifies historybuffer
        invariant forall j :: 0 <= j < i ==> historybuffer[j] == 0
      {
        historybuffer[i] := 0;
      }
      ClearedWaits(historybuffer[..]);
      buf := 0;
      lastA, filterA, filterB := [0, 0], [0, 0], [0, 0];
      var a, b := [360, 317, -109, 98], [0, 0, 0, 0, 0];
      coeffsA, coeffsB := [a, a], [b, b];
      y, x := Start(), Start();
    }

    /** The writes of one stage. */
    method PushStage(delay: nat, adapt: nat, v: int)
      requires Allocated() && 0 < adapt && adapt + 1 < delay && buf + delay < historybuffer.Length
      modifies historybuffer
      ensures historybuffer[..] == PushInto(old(historybuffer[..]), buf + delay, buf + adapt, v)
    {
      hide Wrap64, ApeSign;
      ghost var h, r := historybuffer[..], PushInto(historybuffer[..], buf + delay, buf + adapt, v);
      historybuffer[buf + delay] := v;
      historybuffer[buf + adapt] := ApeSign(historybuffer[buf + delay]);
      historybuffer[buf + delay - 1] := Wrap64(historybuffer[buf + delay] - historybuffer[buf + delay - 1]);
      historybuffer[buf + adapt - 1] := ApeSign(historybuffer[buf + delay - 1]);
      assert forall i :: 0 <= i < |r| ==> historybuffer[i] == r[i];
    }
  
    /** The update half of `predictor_update_filter` for channel `f`, its stages already pushed. */
    method Adapt(f: nat, decoded: int, delayA: nat, delayB: nat, adaptA: nat, adaptB: nat, ghost p: Channel)
      requires Allocated() && f < 2 && Regs(f, p)
      requires Pushed(historybuffer[..], buf + delayA, buf + adaptA, p.histA)
      requires Pushed(historybuffer[..], buf + delayB, buf + adaptB, p.histB)
      modifies this`lastA, this`filterA, this`coeffsA, this`coeffsB
      ensures Allocated()
      ensures var last := Wrap32(decoded + Prediction(p));
        Regs(f, p.(lastA := last, filterA := Wrap64(last + Leak(p.filterA)),
                   coeffsA := Nudged(p.coeffsA, p.histA, decoded), coeffsB := Nudged(p.coeffsB, p.histB, decoded)))
      ensures lastA[1 - f] == old(lastA[1 - f]) && filterA[1 - f] == old(filterA[1 - f])
      ensures coeffsA[1 - f] == old(coeffsA[1 - f]) && coeffsB[1 - f] == old(coeffsB[1 - f])
    {
      hide Wrap32, Wrap64, ApeSign, Leak, Pushed, SumA, SumB, Nudged;
      var predictionA, predictionB := Predictions(f, delayA, delayB, adaptA, adaptB, p);
      lastA := lastA[f := Wrap32(decoded + Wrap32(predictionA + predictionB / 2) / 1024)];
      filterA := filterA[f := Wrap64(lastA[f] + Leak(filterA[f]))];
      var cA := NudgedA(f, decoded, delayA, adaptA, p);
      var cB := NudgedB(f, decoded, delayB, adaptB, p);
      coeffsA := coeffsA[f := cA];
      coeffsB := coeffsB[f := cB];
    }

    /** The two sums of products over the histories in the buffer. */
    method Predictions(f: nat, delayA: nat, delayB: nat, adaptA: nat, adaptB: nat, ghost p: Channel)
      returns (predictionA: int, predictionB: int)
      requires Allocated() && f < 2 && Shaped(p) && coeffsA[f] == p.coeffsA && coeffsB[f] == p.coeffsB
      requires Pushed(historybuffer[..], buf + delayA, buf + adaptA, p.histA)
      requires Pushed(historybuffer[..], buf + delayB, buf + adaptB, p.histB)
      ensures predictionA == Wrap32(SumA(p.histA, p.coeffsA))
      ensures predictionB == Wrap32(SumB(p.histB, p.coeffsB))
    {
      hide Wrap32, Wrap64, ApeSign;
      var h, a, b := historybuffer, buf + delayA, buf + delayB;
      var cA, cB := coeffsA[f], coeffsB[f];
      predictionA := Wrap64(h[a] * cA[0] + h[a - 1] * cA[1] + h[a - 2] * cA[2] + h[a - 3] * cA[3]);
      predictionB :=
        Wrap64(h[b] * cB[0] + h[b - 1] * cB[1] + h[b - 2] * cB[2] + h[b - 3] * cB[3] + h[b - 4] * cB[4]);
      predictionA := Wrap32(predictionA);
      predictionB := Wrap32(predictionB);
      assert h[a - 0] == p.histA[0] && h[a - 1] == p.histA[1] && h[a - 2] == p.histA[2] && h[a - 3] == p.histA[3];
      assert h[b - 0] == p.histB[0] && h[b - 1] == p.histB[1] && h[b - 2] == p.histB[2] && h[b - 3] == p.histB[3];
      assert h[b - 4] == p.histB[4];
    }

    method NudgedA(f: nat, decoded: int, delay: nat, adapt: nat, ghost p: Channel) returns (c: seq<int>)
      requires Allocated() && f < 2 && Shaped(p) && coeffsA[f] == p.coeffsA
      requires Pushed(historybuffer[..], buf + delay, buf + adapt, p.histA)
      ensures c == Nudged(p.coeffsA, p.histA, decoded)
    {
      hide Wrap64, ApeSign;
      var h, s, cA, sign := historybuffer, buf + adapt, coeffsA[f], ApeSign(decoded);
      c := [Wrap64(cA[0] + h[s] * sign), Wrap64(cA[1] + h[s - 1] * sign),
            Wrap64(cA[2] + h[s - 2] * sign), Wrap64(cA[3] + h[s - 3] * sign)];
      assert h[s - 0] == ApeSign(p.histA[0]) && h[s - 1] == ApeSign(p.histA[1]);
      assert h[s - 2] == ApeSign(p.histA[2]) && h[s - 3] == ApeSign(p.histA[3]);
    }

    method NudgedB(f: nat, decoded: int, delay: nat, adapt: nat, ghost p: Channel) returns (c: seq<int>)
      requires Allocated() && f < 2 && Shaped(p) && coeffsB[f] == p.coeffsB
      requires Pushed(historybuffer[..], buf + delay, buf + adapt, p.histB)
      ensures c == Nudged(p.coeffsB, p.histB, decoded)
    {
      hide Wrap64, ApeSign;
      var h, s, cB, sign := historybuffer, buf + adapt, coeffsB[f], ApeSign(decoded);
      c := [Wrap64(cB[0] + h[s] * sign), Wrap64(cB[1] + h[s - 1] * sign), Wrap64(cB[2] + h[s - 2] * sign),
            Wrap64(cB[3] + h[s - 3] * sign), Wrap64(cB[4] + h[s - 4] * sign)];
      assert h[s - 0] == ApeSign(p.histB[0]) && h[s - 1] == ApeSign(p.histB[1]);
      assert h[s - 2] == ApeSign(p.histB[2]) && h[s - 3] == ApeSign(p.histB[3]) && h[s - 4] == ApeSign(p.histB[4]);
    }
  
    /** `predictor_update_filter` for channel Y. */
    method UpdateY(decoded: int) returns (a: int)
      requires Valid()
      modifies this, historybuffer
      ensures Halfway() && buf == old(buf)
      ensures y == Update(old(y), decoded, old(x).filterA) && x == old(x) && a == y.filterA
    {
      hide AllPushed, AllWaiting, Push, Leak, Wrap64, Wrap32, PushInto, Prediction, Nudged;
      ghost var p := Primed(y, x.filterA);
      var vb := Wrap64(filterA[1] - Leak(filterB[0]));
      PushY(historybuffer[..], buf, y, x, lastA[0], vb);
      PushStage(YDELAYA, YADAPTCOEFFSA, lastA[0]);
      PushStage(YDELAYB, YADAPTCOEFFSB, vb);
      filterB := filterB[0 := filterA[1]];
      PushedStages(historybuffer[..], buf + YDELAYA, buf + YADAPTCOEFFSA, buf + YDELAYB, buf + YADAPTCOEFFSB, p.histA, p.histB);
      y := p;
      Adapt(0, decoded, YDELAYA, YDELAYB, YADAPTCOEFFSA, YADAPTCOEFFSB, p);
      y := Update(old(y), decoded, x.filterA);
      return filterA[0];
    }

    /** `predictor_update_filter` for channel X, which sees channel Y's new value. */
    method UpdateX(decoded: int) returns (a: int)
      requires Halfway()
      modifies this, historybuffer
      ensures Done() && buf == old(buf)
      ensures x == Update(old(x), decoded, old(y).filterA) && y == old(y) && a == x.filterA
    {
      hide AllPushed, AllWaiting, Push, Leak, Wrap64, Wrap32, PushInto, Prediction, Nudged;
      ghost var p := Primed(x, y.filterA);
      var vb := Wrap64(filterA[0] - Leak(filterB[1]));
      PushX(historybuffer[..], buf, y, x, lastA[1], vb);
      PushStage(XDELAYA, XADAPTCOEFFSA, lastA[1]);
      PushStage(XDELAYB, XADAPTCOEFFSB, vb);
      filterB := filterB[1 := filterA[0]];
      PushedStages(historybuffer[..], buf + XDELAYA, buf + XADAPTCOEFFSA, buf + XDELAYB, buf + XADAPTCOEFFSB, p.histA, p.histB);
      x := p;
      Adapt(1, decoded, XDELAYA, XDELAYB, XADAPTCOEFFSA, XADAPTCOEFFSB, p);
      x := Update(old(x), decoded, y.filterA);
      return filterA[1];
    }

    /** `p->buf++`, with the `memmove` when the end of the buffer is reached: the next 50 places
        of the buffer, from one on, are where the pointer now is. */
    method SlideBuffer()
      requires Allocated() && buf < HISTORY_SIZE
      modifies this`buf, historybuffer
      ensures buf < HISTORY_SIZE
      ensures historybuffer[buf..buf + PREDICTOR_SIZE] == old(historybuffer[buf + 1..buf + 1 + PREDICTOR_SIZE])
    {
      ghost var h := historybuffer[..];
      buf := buf + 1;
      if buf == HISTORY_SIZE {
        for i := 0 to PREDICTOR_SIZE
          modifies historybuffer
          invariant forall j :: 0 <= j < i ==> historybuffer[j] == h[HISTORY_SIZE + j]
          invariant forall j :: i <= j < |h| ==> historybuffer[j] == h[j]
        {
          historybuffer[i] := historybuffer[HISTORY_SIZE + i];
        }
        buf := 0;
      }
    }

    method Slide()
      requires Done()
      modifies this`buf, historybuffer
      ensures Valid()
    {
      hide AllPushed, AllWaiting;
      ghost var h, b := historybuffer[..], buf;
      SlideBuffer();
      assert historybuffer[..][buf..buf + PREDICTOR_SIZE] == historybuffer[buf..buf + PREDICTOR_SIZE];
      assert h[b + 1..b + 1 + PREDICTOR_SIZE] == old(historybuffer[buf + 1..buf + 1 + PREDICTOR_SIZE]);
      MovedOn(h, historybuffer[..], b, buf, YDELAYA, YADAPTCOEFFSA, YDELAYB, YADAPTCOEFFSB, y);
      MovedOn(h, historybuffer[..], b, buf, XDELAYA, XADAPTCOEFFSA, XDELAYB, XADAPTCOEFFSB, x);
    }

    /** Only the A stage of channel Y is in use; `current` stands in for `lastA[0]`. */
    ghost predicate MonoValid(current: int, c: Channel)
      reads this, historybuffer
    {
      && Allocated() && buf < HISTORY_SIZE && Shaped(c)
      && current == c.lastA && filterA[0] == c.filterA && coeffsA[0] == c.coeffsA
      && Waiting(historybuffer[..], buf + YDELAYA, buf + YADAPTCOEFFSA, c.histA)
    }

    /** One round of `predictor_decode_mono_3950`. */
    method MonoSample(decoded: int, current: int, ghost c: Channel) returns (next: int, out: int)
      requires MonoValid(current, c)
      modifies this, historybuffer
      ensures MonoValid(next, MonoUpdate(c, decoded)) && out == Sample(MonoUpdate(c, decoded))
    {
      hide Wrap32, Wrap64, ApeSign, Leak, SumA, Nudged, PushInto, Push, Waiting, Pushed;
      ghost var p := MonoPrimed(c);
      PushWorks(historybuffer[..], buf + YDELAYA, buf + YADAPTCOEFFSA, c.histA, current);
      PushStage(YDELAYA, YADAPTCOEFFSA, current);
      var sum := MonoSum(p);
      next := Wrap64(decoded + sum / 1024);
      var cA := NudgedA(0, decoded, YDELAYA, YADAPTCOEFFSA, p);
      coeffsA := coeffsA[0 := cA];
      ghost var h, b := historybuffer[..], buf;
      SlideBuffer();
      assert historybuffer[..][buf..buf + PREDICTOR_SIZE] == historybuffer[buf..buf + PREDICTOR_SIZE];
      assert h[b + 1..b + 1 + PREDICTOR_SIZE] == historybuffer[buf..buf + PREDICTOR_SIZE];
      StageMovedOn(h, historybuffer[..], b, buf, YDELAYA, YADAPTCOEFFSA, p.histA);
      filterA := filterA[0 := Wrap64(next + Leak(filterA[0]))];
      out := Wrap32(filterA[0]);
    }

    method MonoSum(ghost p: Channel) returns (sum: int)
      requires Allocated() && buf < HISTORY_SIZE && Shaped(p) && coeffsA[0] == p.coeffsA
      requires Pushed(historybuffer[..], buf + YDELAYA, buf + YADAPTCOEFFSA, p.histA)
      ensures sum == SumA(p.histA, p.coeffsA)
    {
      hide Wrap64, ApeSign;
      var h, a, cA := historybuffer, buf + YDELAYA, coeffsA[0];
      sum := Wrap64(h[a] * cA[0] + h[a - 1] * cA[1] + h[a - 2] * cA[2] + h[a - 3] * cA[3]);
      assert h[a - 0] == p.histA[0] && h[a - 1] == p.histA[1] && h[a - 2] == p.histA[2] && h[a - 3] == p.histA[3];
    }

    /** `predictor_decode_mono_3950` after the filters. */
    method DecodeMono(decoded0: array<int>, count: nat)
      requires Valid() && count <= decoded0.Length && decoded0 != historybuffer
      modifies this, historybuffer, decoded0
      ensures Allocated()
      ensures decoded0[..count] == MonoRun(old(y), old(decoded0[..count])).1
      ensures forall j :: count <= j < decoded0.Length ==> decoded0[j] == old(decoded0[j])
    {
      hide MonoUpdate, Sample, Waiting;
      ghost var y0, c, d := y, y, decoded0[..count];
      WaitingStage(historybuffer[..], buf + YDELAYA, buf + YADAPTCOEFFSA, buf + YDELAYB, buf + YADAPTCOEFFSB, y.histA, y.histB);
      var current := lastA[0];
      for i := 0 to count
        invariant c == MonoRun(y0, d[..i]).0 && MonoValid(current, c)
        invariant decoded0[..i] == MonoRun(y0, d[..i]).1
        invariant forall j :: i <= j < decoded0.Length ==> decoded0[j] == old(decoded0[j])
      {
        ghost var out := decoded0[..i];
        MonoRunStep(y0, d, i);
        var next, sample := MonoSample(decoded0[i], current, c);
        c := MonoUpdate(c, d[i]);
        current := next;
        decoded0[i] := sample;
        assert decoded0[..i + 1] == out + [sample];
      }
      assert d[..count] == d;
      lastA := lastA[0 := current];
    }

    /** `predictor_decode_stereo_3950` after the filters, in 16-bit mode. */
    method DecodeStereo(decoded0: array<int>, decoded1: array<int>, count: nat)
      requires Valid() && count <= decoded0.Length && count <= decoded1.Length
      requires decoded0 != decoded1 && decoded0 != historybuffer && decoded1 != historybuffer
      modifies this, historybuffer, decoded0, decoded1
      ensures Valid()
      ensures (Stereo(y, x), Zip(decoded0[..count], decoded1[..count])) ==
        Run(old(Stereo(y, x)), old(Zip(decoded0[..count], decoded1[..count])))
      ensures forall j :: count <= j < decoded0.Length ==> decoded0[j] == old(decoded0[j])
      ensures forall j :: count <= j < decoded1.Length ==> decoded1[j] == old(decoded1[j])
    {
      hide AllWaiting, AllPushed, Update;
      ghost var s, d := Stereo(y, x), Zip(decoded0[..count], decoded1[..count]);
      for i := 0 to count
        invariant Valid()
        invariant (Stereo(y, x), Zip(decoded0[..i], decoded1[..i])) == Run(s, d[..i])
        invariant forall j :: i <= j < decoded0.Length ==> decoded0[j] == old(decoded0[j])
        invariant forall j :: i <= j < decoded1.Length ==> decoded1[j] == old(decoded1[j])
      {
        ghost var out := Zip(decoded0[..i], decoded1[..i]);
        RunStep(s, d, i);
        var a0 := UpdateY(decoded0[i]);
        var a1 := UpdateX(decoded1[i]);
        decoded0[i] := Wrap32(a0);
        decoded1[i] := Wrap32(a1);
        Slide();
        assert Zip(decoded0[..i + 1], decoded1[..i + 1]) == out + [(decoded0[i], decoded1[i])];
      }
      assert d[..count] == d;
    }
  }

  lemma RunStep(s: Stereo, d: seq<(int, int)>, i: nat)
    requires BothShaped(s) && i < |d|
    ensures var (t, out) := Run(s, d[..i]);
      var u := Step(t, d[i].0, d[i].1);
      Run(s, d[..i + 1]) == (u, out + [(Sample(u.y), Sample(u.x))])
  {
    hide Step, Sample;
    assert d[..i + 1][..i] == d[..i];
  }

  lemma PushedStages(h: seq<int>, dA: nat, aA: nat, dB: nat, aB: nat, a: seq<int>, b: seq<int>)
    requires AllPushed(h, dA, aA, dB, aB, a, b)
    ensures Pushed(h, dA, aA, a) && Pushed(h, dB, aB, b)
  {
  }

  /** One place further on (or back at the front), what was pushed is waiting again. */
  lemma MovedOn(h: seq<int>, g: seq<int>, b: nat, b': nat, dA: nat, aA: nat, dB: nat, aB: nat, c: Channel)
    requires Shaped(c) && AllPushed(h, b + dA, b + aA, b + dB, b + aB, c.histA, c.histB) && |g| == |h|
    requires 0 < aB < aA < dB < dA <= PREDICTOR_SIZE && aA >= 3 && aB >= 4
    requires b' + dA < |g| && b' + aA < |g|
    requires b' + PREDICTOR_SIZE <= |g| && b + 1 + PREDICTOR_SIZE <= |h|
    requires g[b'..b' + PREDICTOR_SIZE] == h[b + 1..b + 1 + PREDICTOR_SIZE]
    ensures AllWaiting(g, b' + dA, b' + aA, b' + dB, b' + aB, c.histA, c.histB)
  {
    StageMovedOn(h, g, b, b', dA, aA, c.histA);
    StageMovedOn(h, g, b, b', dB, aB, c.histB);
  }

  lemma StageMovedOn(h: seq<int>, g: seq<int>, b: nat, b': nat, d: nat, a: nat, hist: seq<int>)
    requires Pushed(h, b + d, b + a, hist) && |g| == |h| && |hist| > 0
    requires |hist| <= d <= PREDICTOR_SIZE && |hist| - 1 <= a <= d && 0 < a
    requires b' + d < |g|
    requires b' + PREDICTOR_SIZE <= |g| && b + 1 + PREDICTOR_SIZE <= |h|
    requires g[b'..b' + PREDICTOR_SIZE] == h[b + 1..b + 1 + PREDICTOR_SIZE]
    ensures Waiting(g, b' + d, b' + a, hist)
  {
    forall i | 0 <= i < |hist|
      ensures g[b' + d - 1 - i] == hist[i]
    {
      assert g[b'..b' + PREDICTOR_SIZE][d - 1 - i] == h[b + 1..b + 1 + PREDICTOR_SIZE][d - 1 - i];
      assert h[b + d - i] == hist[i];
    }
    forall i | 0 <= i < |hist| - 1
      ensures g[b' + a - 1 - i] == ApeSign(hist[i])
    {
      assert g[b'..b' + PREDICTOR_SIZE][a - 1 - i] == h[b + 1..b + 1 + PREDICTOR_SIZE][a - 1 - i];
      assert h[b + a - i] == ApeSign(hist[i]);
    }
  }

  lemma WaitingStage(h: seq<int>, dA: nat, aA: nat, dB: nat, aB: nat, a: seq<int>, b: seq<int>)
    requires AllWaiting(h, dA, aA, dB, aB, a, b)
    ensures Waiting(h, dA, aA, a)
  {
  }

  lemma MonoRunStep(c: Channel, d: seq<int>, i: nat)
    requires Shaped(c) && i < |d|
    ensures var (t, out) := MonoRun(c, d[..i]);
      MonoRun(c, d[..i + 1]) == (MonoUpdate(t, d[i]), out + [Sample(MonoUpdate(t, d[i]))])
  {
    hide MonoUpdate, Sample;
    assert d[..i + 1][..i] == d[..i];
  }
}
