/** Where the older format before 3990 has no room: in mono, predictions are not cut to 32 bits, and
    the coefficients can drift for as long as a frame lasts.  On the recording below they do, so that
    the residuals grow without end although every sample has 16 bits. */
module ApeMonoDrift {
  import opened ApeWords
  import opened ApeBounds
  import opened ApeFrame
  import opened ApeLossless
  import C = ApeCoding
  import E = ApeEntropy
  import P = ApePredictor
  import R = ApeRange
  import ApeReach
  import opened Bits
  import opened Options

  const PATTERN: seq<int> := [-11729, -32768, -10364, 11424, 32511, 10060]

  function Recording(n: nat): (s: seq<int>)
    ensures |s| == n
  {
    seq(n, i requires 0 <= i < n => PATTERN[i % 6])
  }

  function State(last: int, fa: int, c0: int, c1: int, c2: int, c3: int, h0: int, h1: int, h2: int, h3: int)
    : (c: P.Channel)
    ensures P.Shaped(c)
  {
    P.Channel(last, fa, 0, [c0, c1, c2, c3], [0, 0, 0, 0, 0], [h0, h1, h2, h3], [0, 0, 0, 0, 0])
  }

  /** The predictor's state after the first `t` samples. */
  function At(t: nat): (c: P.Channel)
    ensures P.Shaped(c)
  {
    P.MonoUnrun(P.Start(), Recording(t)).0
  }

  function Value(fa: int, out: int): int {
    out - 31 * fa / 32
  }

  /** The sum of products that the prediction is made of, once the last value is pushed. */
  function Sum(last: int, c0: int, c1: int, c2: int, c3: int, h0: int, h1: int, h2: int): int {
    last * c0 + (last - h0) * c1 + h1 * c2 + h2 * c3
  }

  lemma PrimedIs(last: int, fa: int, c0: int, c1: int, c2: int, c3: int, h0: int, h1: int, h2: int, h3: int)
    requires -0x1_0000 <= last <= 0x1_0000 && -0x1_0000 <= h0 <= 0x1_0000
    ensures P.MonoPrimed(State(last, fa, c0, c1, c2, c3, h0, h1, h2, h3))
      == State(last, fa, c0, c1, c2, c3, last, last - h0, h1, h2)
  {
    hide Wrap64;
    Wrap64Id(last - h0);
  }

  lemma PredictionIs(fa: int, c0: int, c1: int, c2: int, c3: int, h0: int, h1: int, h2: int, h3: int)
    requires -TWO63 <= h0 * c0 + h1 * c1 + h2 * c2 + h3 * c3 < TWO63
    ensures P.MonoPrediction(State(h0, fa, c0, c1, c2, c3, h0, h1, h2, h3))
      == (h0 * c0 + h1 * c1 + h2 * c2 + h3 * c3) / 1024
  {
    hide Wrap64;
    Wrap64Id(h0 * c0 + h1 * c1 + h2 * c2 + h3 * c3);
  }

  lemma NudgedIs(c0: int, c1: int, c2: int, c3: int, h0: int, h1: int, h2: int, h3: int, d: int)
    requires -0x200_0000 <= c0 <= 0x200_0000 && -0x200_0000 <= c1 <= 0x200_0000
    requires -0x200_0000 <= c2 <= 0x200_0000 && -0x200_0000 <= c3 <= 0x200_0000
    ensures P.Nudged([c0, c1, c2, c3], [h0, h1, h2, h3], d) == [
      c0 + ApeSign(h0) * ApeSign(d), c1 + ApeSign(h1) * ApeSign(d),
      c2 + ApeSign(h2) * ApeSign(d), c3 + ApeSign(h3) * ApeSign(d)]
  {
    hide Wrap64, ApeSign;
    Nudge(h0, d, c0);
    Nudge(h1, d, c1);
    Nudge(h2, d, c2);
    Nudge(h3, d, c3);
  }

  lemma Nudge(h: int, d: int, c: int)
    requires -0x200_0000 <= c <= 0x200_0000
    ensures Wrap64(c + ApeSign(h) * ApeSign(d)) == c + ApeSign(h) * ApeSign(d)
  {
    SignProduct(ApeSign(h), ApeSign(d));
    Wrap64Id(c + ApeSign(h) * ApeSign(d));
  }

  /** One sample, where nothing wraps. */
  lemma StepIs(last: int, fa: int, c0: int, c1: int, c2: int, c3: int, h0: int, h1: int, h2: int, h3: int, out: int)
    requires -0x1_0000 <= last <= 0x1_0000 && -0x1_0000 <= h0 <= 0x1_0000
    requires -0x8000 <= fa <= 0x8000 && -0x8000 <= out <= 0x8000
    requires -0x200_0000 <= c0 <= 0x200_0000 && -0x200_0000 <= c1 <= 0x200_0000
    requires -0x200_0000 <= c2 <= 0x200_0000 && -0x200_0000 <= c3 <= 0x200_0000
    requires -0x1C0_0000_0000 <= Sum(last, c0, c1, c2, c3, h0, h1, h2) <= 0x1C0_0000_0000
    ensures var s := State(last, fa, c0, c1, c2, c3, h0, h1, h2, h3);
      var d := Value(fa, out) - Sum(last, c0, c1, c2, c3, h0, h1, h2) / 1024;
      && P.MonoResidual(s, out) == d
      && P.MonoUpdate(s, d) == State(Value(fa, out), out,
        c0 + ApeSign(last) * ApeSign(d), c1 + ApeSign(last - h0) * ApeSign(d),
        c2 + ApeSign(h1) * ApeSign(d), c3 + ApeSign(h2) * ApeSign(d), last, last - h0, h1, h2)
  {
    hide Wrap64, Wrap32, ApeSign, P.MonoPrediction, P.Nudged, P.MonoPrimed;
    var q, v := Sum(last, c0, c1, c2, c3, h0, h1, h2) / 1024, Value(fa, out);
    PrimedIs(last, fa, c0, c1, c2, c3, h0, h1, h2, h3);
    PredictionIs(fa, c0, c1, c2, c3, last, last - h0, h1, h2);
    LeakIs(fa);
    Wrap32Id(v);
    Wrap32Id(v - q);
    Wrap64Id(v);
    Wrap64Id(out);
    NudgedIs(c0, c1, c2, c3, last, last - h0, h1, h2, v - q);
  }

  lemma LeakIs(fa: int)
    requires -0x8000 <= fa <= 0x8000
    ensures P.Leak(fa) == 31 * fa / 32 && -0x8000 <= P.Leak(fa) <= 0x8000
  {
    hide Wrap64;
    Wrap64Id(fa * 31);
  }

  lemma AtNext(t: nat)
    ensures At(t + 1) == P.MonoUpdate(At(t), P.MonoResidual(At(t), PATTERN[t % 6]))
    ensures P.MonoUnrun(P.Start(), Recording(t + 1)).1[t] == P.MonoResidual(At(t), PATTERN[t % 6])
  {
    hide P.MonoUpdate, P.MonoResidual, PATTERN;
    assert |PATTERN| == 6 by {
      PatternLength();
    }
    assert Recording(t + 1)[..t] == Recording(t);
  }

  lemma PatternLength()
    ensures |PATTERN| == 6
  {
  }

  /** `s` is the sign of the residual that a prediction from `sum` leaves. */
  predicate Leaves(v: int, sum: int, s: int) {
    && -0x1C0_0000_0000 <= sum <= 0x1C0_0000_0000
    && if sum < 1024 * v then s == -1 else sum >= 1024 * (v + 1) && s == 1
  }

  lemma LeavesSign(v: int, sum: int, s: int)
    requires Leaves(v, sum, s)
    ensures ApeSign(v - sum / 1024) == s
  {
  }

  /** The step of sample `t`, from a known state, with a residual of known sign. */
  lemma StepAt(t: nat, last: int, fa: int, c0: int, c1: int, c2: int, c3: int, h0: int, h1: int, h2: int, h3: int,
               s: int)
    requires At(t) == State(last, fa, c0, c1, c2, c3, h0, h1, h2, h3)
    requires -0x1_0000 <= last <= 0x1_0000 && -0x1_0000 <= h0 <= 0x1_0000 && -0x8000 <= fa <= 0x8000
    requires -0x200_0000 <= c0 <= 0x200_0000 && -0x200_0000 <= c1 <= 0x200_0000
    requires -0x200_0000 <= c2 <= 0x200_0000 && -0x200_0000 <= c3 <= 0x200_0000
    requires Leaves(Value(fa, PATTERN[t % 6]), Sum(last, c0, c1, c2, c3, h0, h1, h2), s)
    ensures P.MonoUnrun(P.Start(), Recording(t + 1)).1[t]
      == Value(fa, PATTERN[t % 6]) - Sum(last, c0, c1, c2, c3, h0, h1, h2) / 1024
    ensures At(t + 1) == State(Value(fa, PATTERN[t % 6]), PATTERN[t % 6],
      c0 + ApeSign(last) * s, c1 + ApeSign(last - h0) * s, c2 + ApeSign(h1) * s, c3 + ApeSign(h2) * s,
      last, last - h0, h1, h2)
  {
    hide P.MonoUpdate, P.MonoResidual, PATTERN, At, State, Sum, Value, ApeSign, P.MonoUnrun;
    PatternSmall(t);
    AtNext(t);
    StepIs(last, fa, c0, c1, c2, c3, h0, h1, h2, h3, PATTERN[t % 6]);
    LeavesSign(Value(fa, PATTERN[t % 6]), Sum(last, c0, c1, c2, c3, h0, h1, h2), s);
  }

  lemma PatternSmall(t: nat)
    ensures |PATTERN| == 6 && -0x8000 <= PATTERN[t % 6] <= 0x8000
  {
  }

  /** With nothing in the past, nothing is predicted and no coefficient moves. */
  lemma First(t: nat, c0: int, c1: int, c2: int, c3: int)
    requires At(t) == State(0, 0, c0, c1, c2, c3, 0, 0, 0, 0) && PATTERN[t % 6] < 0
    requires -0x200_0000 <= c0 <= 0x200_0000 && -0x200_0000 <= c1 <= 0x200_0000
    requires -0x200_0000 <= c2 <= 0x200_0000 && -0x200_0000 <= c3 <= 0x200_0000
    ensures At(t + 1) == State(PATTERN[t % 6], PATTERN[t % 6], c0, c1, c2, c3, 0, 0, 0, 0)
  {
    hide At, P.MonoUnrun, PATTERN, State, Sum;
    NoSum(c0, c1, c2, c3);
    StepAt(t, 0, 0, c0, c1, c2, c3, 0, 0, 0, 0, 1);
  }

  lemma NoSum(c0: int, c1: int, c2: int, c3: int)
    ensures Sum(0, c0, c1, c2, c3, 0, 0, 0) == 0
  {
  }

  lemma Early3()
    ensures At(3) == State(21380, -10364, 360, 317, -110, 98, -21405, -9676, -11729, 0)
  {
    hide At, P.MonoUnrun;
    AtStart();
    First(0, 360, 317, -109, 98);
    StepAt(1, -11729, -11729, 360, 317, -109, 98, 0, 0, 0, 0, 1);
    StepAt(2, -21405, -32768, 361, 318, -109, 98, -11729, -11729, 0, 0, -1);
  }

  lemma Early6()
    ensures At(6) == State(-21435, 10060, 361, 320, -111, 95, 21444, -21, 85, 42785)
  {
    hide At, P.MonoUnrun;
    Early3();
    StepAt(3, 21380, -10364, 360, 317, -110, 98, -21405, -9676, -11729, 0, -1);
    StepAt(4, 21465, 11424, 361, 318, -111, 97, 21380, 42785, -9676, -11729, -1);
    StepAt(5, 21444, 32511, 362, 319, -110, 96, 21465, 85, 42785, -9676, 1);
  }

  lemma Early9()
    ensures At(9) == State(21380, -10364, 362, 323, -110, 94, -21405, 69, -39, -42879)
  {
    hide At, P.MonoUnrun;
    Early6();
    StepAt(6, -21435, 10060, 361, 320, -111, 95, 21444, -21, 85, 42785, 1);
    StepAt(7, -21474, -11729, 362, 321, -110, 94, -21435, -42879, -21, 85, 1);
    StepAt(8, -21405, -32768, 363, 322, -109, 95, -21474, -39, -42879, -21, -1);
  }

  lemma Early12()
    ensures At(12) == State(-21435, 10060, 363, 326, -109, 93, 21444, -21, 85, 42785)
  {
    hide At, P.MonoUnrun;
    Early9();
    StepAt(9, 21380, -10364, 362, 323, -110, 94, -21405, 69, -39, -42879, -1);
    StepAt(10, 21465, 11424, 363, 324, -109, 93, 21380, 42785, 69, -39, -1);
    StepAt(11, 21444, 32511, 364, 325, -108, 94, 21465, 85, 42785, 69, 1);
  }

  lemma Early15()
    ensures At(15) == State(21380, -10364, 364, 329, -108, 92, -21405, 69, -39, -42879)
  {
    hide At, P.MonoUnrun;
    Early12();
    StepAt(12, -21435, 10060, 363, 326, -109, 93, 21444, -21, 85, 42785, 1);
    StepAt(13, -21474, -11729, 364, 327, -108, 92, -21435, -42879, -21, 85, 1);
    StepAt(14, -21405, -32768, 365, 328, -107, 93, -21474, -39, -42879, -21, -1);
  }

  lemma Early18()
    ensures At(18) == Drifted(0)
  {
    hide At, P.MonoUnrun;
    Early15();
    StepAt(15, 21380, -10364, 364, 329, -108, 92, -21405, 69, -39, -42879, -1);
    StepAt(16, 21465, 11424, 365, 330, -107, 91, 21380, 42785, 69, -39, -1);
    StepAt(17, 21444, 32511, 366, 331, -106, 92, 21465, 85, 42785, 69, 1);
  }

  lemma AtStart()
    ensures At(0) == State(0, 0, 360, 317, -109, 98, 0, 0, 0, 0)
  {
    assert Recording(0) == [];
  }

  function Drifted(m: nat): (c: P.Channel) {
    State(-21435, 10060, 365 - 2 * m, 332 + 2 * m, -107 - 2 * m, 91 + 2 * m, 21444, -21, 85, 42785)
  }

  const ROUNDS: nat := 8_720_000

  /** Each further round moves every coefficient by two, always the same way. */
  lemma Round0(m: nat, t: nat)
    requires m <= ROUNDS && t % 6 == 0
    requires At(t) == Drifted(m)
    ensures At(t + 1)
      == State(-21474, -11729, 364 - 2 * m, 331 + 2 * m, -108 - 2 * m, 92 + 2 * m, -21435, -42879, -21, 85)
  {
    hide At, P.MonoUnrun;
    StepAt(t, -21435, 10060, 365 - 2 * m, 332 + 2 * m, -107 - 2 * m, 91 + 2 * m, 21444, -21, 85, 42785, -1);
  }

  lemma Round1(m: nat, t: nat)
    requires m <= ROUNDS && t % 6 == 1
    requires At(t) == State(-21474, -11729, 364 - 2 * m, 331 + 2 * m, -108 - 2 * m, 92 + 2 * m, -21435, -42879, -21, 85)
    ensures At(t + 1)
      == State(-21405, -32768, 365 - 2 * m, 332 + 2 * m, -107 - 2 * m, 93 + 2 * m, -21474, -39, -42879, -21)
  {
    hide At, P.MonoUnrun;
    StepAt(t, -21474, -11729, 364 - 2 * m, 331 + 2 * m, -108 - 2 * m, 92 + 2 * m, -21435, -42879, -21, 85, 1);
  }

  lemma Round2(m: nat, t: nat)
    requires m <= ROUNDS && t % 6 == 2
    requires At(t) == State(-21405, -32768, 365 - 2 * m, 332 + 2 * m, -107 - 2 * m, 93 + 2 * m, -21474, -39, -42879, -21)
    ensures At(t + 1)
      == State(21380, -10364, 364 - 2 * m, 333 + 2 * m, -108 - 2 * m, 92 + 2 * m, -21405, 69, -39, -42879)
  {
    hide At, P.MonoUnrun;
    StepAt(t, -21405, -32768, 365 - 2 * m, 332 + 2 * m, -107 - 2 * m, 93 + 2 * m, -21474, -39, -42879, -21, -1);
  }

  lemma Round3(m: nat, t: nat)
    requires m <= ROUNDS && t % 6 == 3
    requires At(t) == State(21380, -10364, 364 - 2 * m, 333 + 2 * m, -108 - 2 * m, 92 + 2 * m, -21405, 69, -39, -42879)
    ensures At(t + 1)
      == State(21465, 11424, 363 - 2 * m, 332 + 2 * m, -109 - 2 * m, 93 + 2 * m, 21380, 42785, 69, -39)
  {
    hide At, P.MonoUnrun;
    StepAt(t, 21380, -10364, 364 - 2 * m, 333 + 2 * m, -108 - 2 * m, 92 + 2 * m, -21405, 69, -39, -42879, 1);
  }

  lemma Round4(m: nat, t: nat)
    requires m <= ROUNDS && t % 6 == 4
    requires At(t) == State(21465, 11424, 363 - 2 * m, 332 + 2 * m, -109 - 2 * m, 93 + 2 * m, 21380, 42785, 69, -39)
    ensures At(t + 1)
      == State(21444, 32511, 364 - 2 * m, 333 + 2 * m, -108 - 2 * m, 94 + 2 * m, 21465, 85, 42785, 69)
  {
    hide At, P.MonoUnrun;
    StepAt(t, 21465, 11424, 363 - 2 * m, 332 + 2 * m, -109 - 2 * m, 93 + 2 * m, 21380, 42785, 69, -39, -1);
  }

  lemma Round5(m: nat, t: nat)
    requires m <= ROUNDS && t % 6 == 5
    requires At(t) == State(21444, 32511, 364 - 2 * m, 333 + 2 * m, -108 - 2 * m, 94 + 2 * m, 21465, 85, 42785, 69)
    ensures At(t + 1) == Drifted(m + 1)
  {
    hide At, P.MonoUnrun;
    StepAt(t, 21444, 32511, 364 - 2 * m, 333 + 2 * m, -108 - 2 * m, 94 + 2 * m, 21465, 85, 42785, 69, 1);
  }

  lemma Round(m: nat)
    requires m <= ROUNDS && At(18 + 6 * m) == Drifted(m)
    ensures At(18 + 6 * (m + 1)) == Drifted(m + 1)
  {
    hide At, State, Drifted;
    var t := 18 + 6 * m;
    Sixths(m);
    Round0(m, t);
    Round1(m, t + 1);
    Round2(m, t + 2);
    Round3(m, t + 3);
    Round4(m, t + 4);
    Round5(m, t + 5);
  }

  lemma Sixths(m: nat)
    ensures var t := 18 + 6 * m; t % 6 == 0 && (t + 1) % 6 == 1 && (t + 2) % 6 == 2
    ensures var t := 18 + 6 * m; (t + 3) % 6 == 3 && (t + 4) % 6 == 4 && (t + 5) % 6 == 5
  {
  }

  lemma {:induction false} Rounds(m: nat)
    requires m <= ROUNDS
    ensures At(18 + 6 * m) == Drifted(m)
  {
    hide At, Drifted;
    if m == 0 {
      Early18();
    } else {
      Rounds(m - 1);
      Round(m - 1);
    }
  }

  const LENGTH: nat := 20 + 6 * ROUNDS

  /** The residual of the last sample of a recording that is long enough. */
  lemma LastResidual()
    ensures P.MonoUnrun(P.Start(), Recording(LENGTH)).1[LENGTH - 1] < -0x4101_0000
  {
    hide At, P.MonoUnrun;
    var m: nat, k: int := ROUNDS, ROUNDS;
    Rounds(m);
    Sixths(m);
    Round0(m, 18 + 6 * m);
    StepAt(19 + 6 * m, -21474, -11729, 364 - 2 * k, 331 + 2 * k, -108 - 2 * k, 92 + 2 * k, -21435, -42879, -21, 85, 1);
  }

  /** A 16-bit mono recording that the older format cannot hold in one frame. */
  lemma NotCodable()
    ensures MonoSixteen(Recording(LENGTH)) && LENGTH <= 0xFFFF_FFF8
    ensures !MonoCodable(Params(1, E.Before3990, 0), Recording(LENGTH))
  {
    hide P.MonoUnrun;
    LastResidual();
    forall i: nat | i < LENGTH
      ensures ClipInt16(Recording(LENGTH)[i]) == Recording(LENGTH)[i]
    {
      PatternSixteen(i);
    }
    assert MonoResiduals(0, Recording(LENGTH)) == P.MonoUnrun(P.Start(), Recording(LENGTH)).1;
  }

  /** And that no bytes decode to, whatever a frame is made of. */
  lemma NotDecodable(raw: seq<byte>, skip: nat)
    ensures |Recording(LENGTH)| == LENGTH
    ensures DecodeFrame(Params(1, E.Before3990, 0), raw, skip, LENGTH) != Some(Zip(Recording(LENGTH), Recording(LENGTH)))
  {
    hide C.Singles, SwapWords, ReadHeader, Recording, P.MonoUnrun, MonoSamples, Silence, R.Begin;
    var p := Params(1, E.Before3990, 0);
    var data := SwapWords(raw);
    if skip <= 3 && skip <= |raw| && ReadHeader(data, skip).Some? {
      var h := ReadHeader(data, skip).value;
      NotSilent();
      NotUnpacked(R.Begin(data, h.start));
    }
  }

  lemma NotSilent()
    ensures Zip(Recording(LENGTH), Recording(LENGTH)) != Silence(LENGTH)
  {
    var s := Recording(LENGTH);
    assert s[0] == PATTERN[0] == -11729;
    assert Zip(s, s)[0] == (-11729, -11729);
  }

  lemma NotUnpacked(r: R.Rc)
    requires R.Safe(r)
    ensures var (s, residuals) := C.Singles(E.Before3990, r, E.START, LENGTH);
      !s.error ==> MonoSamples(0, residuals) != Recording(LENGTH)
  {
    hide C.Singles, P.MonoUnrun, MonoSamples, Recording;
    var (s, residuals) := C.Singles(E.Before3990, r, E.START, LENGTH);
    if !s.error {
      ApeReach.BlockSmall(r, E.START, LENGTH);
      MonoFaithful(0, residuals);
      LastResidual();
      assert MonoResiduals(0, Recording(LENGTH)) == P.MonoUnrun(P.Start(), Recording(LENGTH)).1;
    }
  }

  lemma PatternSixteen(t: nat)
    ensures |PATTERN| == 6 && ClipInt16(PATTERN[t % 6]) == PATTERN[t % 6]
  {
  }
}
