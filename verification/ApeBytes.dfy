/** The entropy decoder on given bytes. */
module ApeBytes {
  import opened Bits
  import opened ApeWords
  import R = ApeRange
  import E = ApeEntropy
  import C = ApeCoding

  /** A byte is shifted in; `q` are the bits that leave the buffer, `u` those above the eight that
      come in. */
  lemma ShiftIs(r: R.Rc, b: byte, buffer: nat, low: nat, q: nat, u: nat)
    requires R.Safe(r) && r.range <= R.BOTTOM_VALUE && r.ptr < |r.data| && r.data[r.ptr] == b
    requires r.buffer * 256 == q * 0x1_0000_0000 + buffer - b && b <= buffer < 0x1_0000_0000 + b
    requires 512 * u + 2 * (low - 256 * r.low) <= buffer <= 512 * u + 2 * (low - 256 * r.low) + 1
    requires 256 * r.low <= low < 256 * r.low + 256
    ensures R.Shift(r) == r.(ptr := r.ptr + 1, buffer := buffer, low := low, range := r.range * 256)
  {
    DivModUnique(r.buffer * 256, 0x1_0000_0000, q, buffer - b);
    DivModUnique(buffer / 2, 256, u, low - 256 * r.low);
  }

  /** The number that a normalized coder stands for. */
  lemma CulIs(r: R.Rc, total: nat, n: R.Rc, help: nat, v: nat)
    requires R.Safe(r) && 0 < total <= 0x1_0000 && R.Normalize(r) == n && help == n.range / total && help > 0
    requires help * v <= n.low < help * v + help
    ensures R.Cul(r, total) == (n.(help := help), v)
  {
    hide R.Normalize;
    DivModUnique(n.low, help, v, n.low - help * v);
  }

  lemma TakeIs(r: R.Rc, total: nat, n: R.Rc, help: nat, v: nat)
    requires R.Safe(r) && 0 < total <= 0x1_0000 && R.Normalize(r) == n && help == n.range / total && help > 0
    requires help * v <= n.low < help * v + help
    ensures R.Take(r, total) == (n.(help := help, low := n.low - help * v, range := help), v)
  {
    hide R.Normalize, R.Cul, R.Update, R.Holds;
    CulIs(r, total, n, help, v);
    R.OneHolds(r, total);
    UpdateIs(n.(help := help), 1, v, n.low - help * v, help);
  }

  predicate Shared(f: E.Format, s: nat, sy: nat, lt: nat) {
    s <= 20 && E.ShareStart(f, s) == lt && E.ShareStart(f, s + 1) == lt + sy
  }

  /** A symbol likewise. */
  lemma SymbolIs(r: R.Rc, f: E.Format, n: R.Rc, help: nat, cf: nat, s: nat, sy: nat, lt: nat,
                 low: nat, range: nat)
    requires R.Safe(r) && R.Normalize(r) == n && help == n.range / 0x1_0000 && help > 0
    requires help * cf <= n.low < help * cf + help && Shared(f, s, sy, lt) && lt <= cf < lt + sy
    requires low + help * lt == n.low && range == help * sy
    ensures E.GetSymbol(r, f) == (n.(help := help, low := low, range := range), s)
  {
    hide R.Normalize, R.Cul, R.Update, E.Counts, E.Diff, E.FindSymbol;
    CulIs(r, 0x1_0000, n, help, cf);
    E.Tables(f);
    E.CountsMono(f, s + 1, 21);
    E.ShareOfSymbol(r, f, s);
    E.ShareHolds(r, sy, lt);
    UpdateIs(n.(help := help), sy, lt, low, range);
  }

  lemma UpdateIs(r: R.Rc, sy: nat, lt: nat, low: nat, range: nat)
    requires R.Safe(r) && R.Holds(r, sy, lt) && low + r.help * lt == r.low && range == r.help * sy
    ensures R.Update(r, sy, lt) == r.(low := low, range := range)
  {
  }

  /** The symbols with a single number each; 63 says that an escaped value follows. */
  lemma RareIs(r: R.Rc, f: E.Format, n: R.Rc, help: nat, cf: nat)
    requires R.Safe(r) && R.Normalize(r) == n && help == n.range / 0x1_0000 && help > 0
    requires help * cf <= n.low < help * cf + help && 65493 <= cf <= 65535
    ensures E.GetSymbol(r, f) == (n.(help := help, low := n.low - help * cf, range := help), cf - 65472)
  {
    hide R.Normalize, R.Cul, R.Update, R.Holds, E.Counts, E.Diff, E.FindSymbol;
    CulIs(r, 0x1_0000, n, help, cf);
    R.OneHolds(r, 0x1_0000);
    UpdateIs(n.(help := help), 1, cf, n.low - help * cf, help);
  }

  /** The parameters after a value. */
  lemma RiceIs(rice: E.Rice, x: nat, ksum: nat)
    requires 9 <= rice.k <= 10 && rice.ksum < 0x8000_0000 && x < 0x8000_0000
    requires ksum == rice.ksum + (x + 1) / 2 - (rice.ksum + 16) / 32 && 8192 <= ksum < 32768
    ensures E.UpdateRice(rice, x) == E.Rice(if ksum < 16384 then 9 else 10, ksum)
  {
    hide E.UpdateRice, Pow2;
    E.RiceSum(rice, x);
    E.LevelFollows(rice, x);
    TwoTo13();
  }

  lemma TwoTo13()
    ensures Pow2(13) == 8192 && Pow2(14) == 16384 && Pow2(15) == 32768
  {
    assert Pow2(8) == 256;
    Pow2Add(8, 5);
    Pow2Add(8, 6);
    Pow2Add(8, 7);
  }

  const STEREO: seq<byte> := [130, 183, 14, 238, 127, 26, 80, 57]
  const LARGE: seq<byte> := [255, 255, 148, 11, 213, 51, 95, 151, 61, 170, 216]
  const OLD: seq<byte> := [255, 255, 162, 57, 149, 141, 219, 5]
  const SHORT: seq<byte> := [197, 179, 208, 118]

  // ----- two pairs in the newer format -----

  const S0: R.Rc := R.Rc(STEREO, 1, 65, 128, 0, 130, false)
  const S0N: R.Rc := R.Rc(STEREO, 4, 1096517495, 2147483648, 0, 2193034990, false)
  const S1: R.Rc := R.Rc(STEREO, 4, 454985591, 543358976, 32768, 2193034990, false)
  const S2: R.Rc := R.Rc(STEREO, 4, 771447, 1061248, 1061248, 2193034990, false)
  const S2N: R.Rc := R.Rc(STEREO, 5, 197490495, 271679488, 1061248, 3071209087, false)
  const S3: R.Rc := R.Rc(STEREO, 5, 47607295, 50805265, 4145, 3071209087, false)
  const S4: R.Rc := R.Rc(STEREO, 5, 76604, 99229, 99229, 3071209087, false)
  const S4N: R.Rc := R.Rc(STEREO, 6, 19610765, 25402624, 99229, 250511130, false)
  const S5: R.Rc := R.Rc(STEREO, 6, 873386, 3059622, 387, 250511130, false)
  const S5N: R.Rc := R.Rc(STEREO, 7, 223586856, 783263232, 387, 4001307216, false)
  const S6: R.Rc := R.Rc(STEREO, 7, 894406, 1535810, 1535810, 4001307216, false)
  const S6N: R.Rc := R.Rc(STEREO, 8, 228967964, 393167360, 1535810, 2132430905, false)
  const S7: R.Rc := R.Rc(STEREO, 8, 12044124, 73529743, 5999, 2132430905, false)
  const S8: R.Rc := R.Rc(STEREO, 8, 1749, 141675, 141675, 2132430905, false)

  lemma StereoShifts1()
    ensures R.Safe(S0) && R.Normalize(S0) == S0N
  {
    hide R.Shift;
    ShiftIs(S0, 183, 33463, 16731, 0, 65);
    ShiftIs(R.Shift(S0), 14, 8566542, 4283271, 0, 16731);
    ShiftIs(R.Shift(R.Shift(S0)), 238, 2193034990, 1096517495, 0, 4283271);
    assert R.Normalize(R.Shift(R.Shift(R.Shift(S0)))) == S0N;
    assert R.Normalize(R.Shift(R.Shift(S0))) == S0N;
    assert R.Normalize(R.Shift(S0)) == S0N;
  }

  lemma Stereo1()
    ensures R.Safe(S0) && E.GetSymbol(S0, E.From3990) == (S1, 1)
  {
    hide R.Normalize;
    StereoShifts1();
    SymbolIs(S0, E.From3990, S0N, 32768, 33463, 1, 16582, 19578, 454985591, 543358976);
  }

  lemma Stereo2()
    ensures R.Safe(S1) && R.Take(S1, 512) == (S2, 428)
  {
    TakeIs(S1, 512, S1, 1061248, 428);
  }

  lemma StereoShifts3()
    ensures R.Safe(S2) && R.Normalize(S2) == S2N
  {
    hide R.Shift;
    ShiftIs(S2, 127, 3071209087, 197490495, 130, 5998455);
    assert R.Normalize(R.Shift(S2)) == S2N;
  }

  lemma Stereo3()
    ensures R.Safe(S2) && E.GetSymbol(S2, E.From3990) == (S3, 2)
  {
    hide R.Normalize;
    StereoShifts3();
    SymbolIs(S2, E.From3990, S2N, 4145, 47645, 2, 12257, 36160, 47607295, 50805265);
  }

  lemma Stereo4()
    ensures R.Safe(S3) && R.Take(S3, 512) == (S4, 479)
  {
    TakeIs(S3, 512, S3, 99229, 479);
  }

  lemma StereoShifts5()
    ensures R.Safe(S4) && R.Normalize(S4) == S4N
  {
    hide R.Shift;
    ShiftIs(S4, 26, 250511130, 19610765, 183, 489279);
    assert R.Normalize(R.Shift(S4)) == S4N;
  }

  lemma Stereo5()
    ensures R.Safe(S4) && E.GetSymbol(S4, E.From3990) == (S5, 3)
  {
    hide R.Normalize;
    StereoShifts5();
    SymbolIs(S4, E.From3990, S4N, 387, 50673, 3, 7906, 48417, 873386, 3059622);
  }

  lemma StereoShifts6()
    ensures R.Safe(S5) && R.Normalize(S5) == S5N
  {
    hide R.Shift;
    ShiftIs(S5, 80, 4001307216, 223586856, 14, 7815053);
    assert R.Normalize(R.Shift(S5)) == S5N;
  }

  lemma Stereo6()
    ensures R.Safe(S5) && R.Take(S5, 510) == (S6, 145)
  {
    hide R.Normalize;
    StereoShifts6();
    TakeIs(S5, 510, S5N, 1535810, 145);
  }

  lemma StereoShifts7()
    ensures R.Safe(S6) && R.Normalize(S6) == S6N
  {
    hide R.Shift;
    ShiftIs(S6, 57, 2132430905, 228967964, 238, 4164904);
    assert R.Normalize(R.Shift(S6)) == S6N;
  }

  lemma Stereo7()
    ensures R.Safe(S6) && E.GetSymbol(S6, E.From3990) == (S7, 2)
  {
    hide R.Normalize;
    StereoShifts7();
    SymbolIs(S6, E.From3990, S6N, 5999, 38167, 2, 12257, 36160, 12044124, 73529743);
  }

  lemma Stereo8()
    ensures R.Safe(S7) && R.Take(S7, 519) == (S8, 85)
  {
    TakeIs(S7, 519, S7, 141675, 85);
  }

  lemma Value1()
    ensures E.RiceOk(E.Rice(10, 16384)) && R.Safe(S0)
    ensures E.Value3990(S0, E.Rice(10, 16384)) == (S2, E.Rice(9, 16342), -470)
  {
    hide R.Take, E.GetSymbol, E.UpdateRice, STEREO;
    Stereo1();
    Stereo2();
    RiceIs(E.Rice(10, 16384), 940, 16342);
  }

  lemma Value2()
    ensures E.RiceOk(E.Rice(10, 16384)) && R.Safe(S2)
    ensures E.Value3990(S2, E.Rice(10, 16384)) == (S4, E.Rice(10, 16624), 752)
  {
    hide R.Take, E.GetSymbol, E.UpdateRice, STEREO;
    Stereo3();
    Stereo4();
    RiceIs(E.Rice(10, 16384), 1503, 16624);
  }

  lemma Value3()
    ensures E.RiceOk(E.Rice(9, 16342)) && R.Safe(S4)
    ensures E.Value3990(S4, E.Rice(9, 16342)) == (S6, E.Rice(10, 16669), 838)
  {
    hide R.Take, E.GetSymbol, E.UpdateRice, STEREO;
    Stereo5();
    Stereo6();
    RiceIs(E.Rice(9, 16342), 1675, 16669);
  }

  lemma Value4()
    ensures E.RiceOk(E.Rice(10, 16624)) && R.Safe(S6)
    ensures E.Value3990(S6, E.Rice(10, 16624)) == (S8, E.Rice(10, 16666), 562)
  {
    hide R.Take, E.GetSymbol, E.UpdateRice, STEREO;
    Stereo7();
    Stereo8();
    RiceIs(E.Rice(10, 16624), 1123, 16666);
  }

  /** The first value of a pair is the difference, and each channel has its own parameter. */
  lemma StereoBytes()
    ensures E.RiceOk(E.START) && C.EntropyOk(C.Entropy(R.Begin(STEREO, 0), E.START, E.START))
    ensures C.Pairs(E.From3990, C.Entropy(R.Begin(STEREO, 0), E.START, E.START), 2).1 == [(-470, 752), (838, 562)]
  {
    hide E.Value3990, C.Pairs, STEREO;
    StereoBegins();
    Value1();
    Value2();
    Value3();
    Value4();
    var s := C.Entropy(R.Begin(STEREO, 0), E.START, E.START);
    TwoPairs(s);
  }

  lemma TwoPairs(s: C.Entropy)
    requires C.EntropyOk(s)
    ensures var (t, d) := C.Pair(E.From3990, s); C.Pairs(E.From3990, s, 2).1 == [d, C.Pair(E.From3990, t).1]
  {
    hide C.Pair;
    var (t, d) := C.Pair(E.From3990, s);
    var (u, e) := C.Pair(E.From3990, t);
    assert C.Pairs(E.From3990, u, 0).1 == [];
    assert C.Pairs(E.From3990, t, 1).1 == [e];
  }


  lemma StereoBegins()
    ensures R.Begin(STEREO, 0) == S0
  {
  }

  // ----- an escaped value with a pivot of more than 16 bits -----

  const L0: R.Rc := R.Rc(LARGE, 1, 127, 128, 0, 255, false)
  const L0N: R.Rc := R.Rc(LARGE, 4, 2147469829, 2147483648, 0, 4294939659, false)
  const L1: R.Rc := R.Rc(LARGE, 4, 18949, 32768, 32768, 4294939659, false)
  const L1N: R.Rc := R.Rc(LARGE, 6, 1241901721, 2147483648, 32768, 2483803443, false)
  const L2: R.Rc := R.Rc(LARGE, 6, 27289, 32768, 32768, 2483803443, false)
  const L2N: R.Rc := R.Rc(LARGE, 8, 1788456907, 2147483648, 32768, 3576913815, false)
  const L3: R.Rc := R.Rc(LARGE, 8, 12235, 32768, 32768, 3576913815, false)
  const L3N: R.Rc := R.Rc(LARGE, 10, 801873621, 2147483648, 32768, 1603747242, false)
  const L4: R.Rc := R.Rc(LARGE, 10, 26185, 45812, 45812, 1603747242, false)
  const L4N: R.Rc := R.Rc(LARGE, 11, 6703468, 11727872, 45812, 2537401048, false)
  const L5: R.Rc := R.Rc(LARGE, 11, 839532, 5863936, 5863936, 2537401048, false)

  lemma LargeShifts1()
    ensures R.Safe(L0) && R.Normalize(L0) == L0N
  {
    hide R.Shift;
    ShiftIs(L0, 255, 65535, 32767, 0, 127);
    ShiftIs(R.Shift(L0), 148, 16777108, 8388554, 0, 32767);
    ShiftIs(R.Shift(R.Shift(L0)), 11, 4294939659, 2147469829, 0, 8388554);
    assert R.Normalize(R.Shift(R.Shift(R.Shift(L0)))) == L0N;
    assert R.Normalize(R.Shift(R.Shift(L0))) == L0N;
    assert R.Normalize(R.Shift(L0)) == L0N;
  }

  lemma Large1()
    ensures R.Safe(L0) && E.GetSymbol(L0, E.From3990) == (L1, 63)
  {
    hide R.Normalize;
    LargeShifts1();
    RareIs(L0, E.From3990, L0N, 32768, 65535);
  }

  lemma LargeShifts2()
    ensures R.Safe(L1) && R.Normalize(L1) == L1N
  {
    hide R.Shift;
    ShiftIs(L1, 213, 4287892437, 4851178, 255, 8374789);
    ShiftIs(R.Shift(L1), 51, 2483803443, 1241901721, 255, 4851178);
    assert R.Normalize(R.Shift(R.Shift(L1))) == L1N;
    assert R.Normalize(R.Shift(L1)) == L1N;
  }

  lemma Large2()
    ensures R.Safe(L1) && R.Take(L1, 65536) == (L2, 37899)
  {
    hide R.Normalize;
    LargeShifts2();
    TakeIs(L1, 65536, L1N, 32768, 37899);
  }

  lemma LargeShifts3()
    ensures R.Safe(L2) && R.Normalize(L2) == L2N
  {
    hide R.Shift;
    ShiftIs(L2, 95, 198521695, 6986159, 148, 387737);
    ShiftIs(R.Shift(L2), 151, 3576913815, 1788456907, 11, 6986159);
    assert R.Normalize(R.Shift(R.Shift(L2))) == L2N;
    assert R.Normalize(R.Shift(L2)) == L2N;
  }

  lemma Large3()
    ensures R.Safe(L2) && R.Take(L2, 65536) == (L3, 54579)
  {
    hide R.Normalize;
    LargeShifts3();
    TakeIs(L2, 65536, L2N, 32768, 54579);
  }

  lemma LargeShifts4()
    ensures R.Safe(L3) && R.Normalize(L3) == L3N
  {
    hide R.Shift;
    ShiftIs(L3, 61, 861902653, 3132318, 213, 1683403);
    ShiftIs(R.Shift(L3), 170, 1603747242, 801873621, 51, 3132318);
    assert R.Normalize(R.Shift(R.Shift(L3))) == L3N;
    assert R.Normalize(R.Shift(L3)) == L3N;
  }

  lemma Large4()
    ensures R.Safe(L3) && R.Take(L3, 46876) == (L4, 17503)
  {
    hide R.Normalize;
    LargeShifts4();
    TakeIs(L3, 46876, L3N, 45812, 17503);
  }

  lemma LargeShifts5()
    ensures R.Safe(L4) && R.Normalize(L4) == L4N
  {
    hide R.Shift;
    ShiftIs(L4, 216, 2537401048, 6703468, 95, 4955861);
    assert R.Normalize(R.Shift(L4)) == L4N;
  }

  lemma Large5()
    ensures R.Safe(L4) && R.Take(L4, 2) == (L5, 1)
  {
    hide R.Normalize;
    LargeShifts5();
    TakeIs(L4, 2, L4N, 5863936, 1);
  }

  /** The overflow is read in two halves, the high one first, and the rest below the pivot in two parts. */
  lemma LargeValue()
    ensures R.Safe(R.Begin(LARGE, 0)) && E.RiceOk(E.Rice(17, 3000000))
    ensures var (r, rice, v) := E.Value3990(R.Begin(LARGE, 0), E.Rice(17, 3000000)); !r.error && v == 312948161
  {
    hide R.Take, E.GetSymbol, E.UpdateRice, R.Begin, LARGE, E.Reduce, E.Combine, Unsigned32, E.ToSigned, Pow2;
    LargeBegins();
    Large1();
    Large2();
    Large3();
    Large4();
    Large5();
    LargeNumbers();
  }

  lemma LargeBegins()
    ensures R.Begin(LARGE, 0) == L0
  {
  }

  lemma LargeNumbers()
    ensures E.Reduce(93750) == (46875, 1) && Pow2(1) == 2
    ensures E.Combine(37899, 54579) == 2483803443
    ensures Unsigned32(17503 * 2 + 1 + 2483803443 * 93750) == 625896321
    ensures E.ToSigned(625896321) == 312948161
  {
    assert E.Reduce(46875) == (46875, 0);
    Sum32();
  }

  lemma Sum32()
    ensures 17503 * 2 + 1 + 2483803443 * 93750 == 54216 * 0x1_0000_0000 + 625896321
  {
  }

  // ----- the older format: an escaped value, and one with nine low bits -----

  const O0: R.Rc := R.Rc(OLD, 1, 127, 128, 0, 255, false)
  const O0N: R.Rc := R.Rc(OLD, 4, 2147471644, 2147483648, 0, 4294943289, false)
  const O1: R.Rc := R.Rc(OLD, 4, 20764, 32768, 32768, 4294943289, false)
  const O1N: R.Rc := R.Rc(OLD, 6, 1360841414, 2147483648, 32768, 2721682829, false)
  const O2: R.Rc := R.Rc(OLD, 6, 18664134, 67108864, 67108864, 2721682829, false)
  const O3: R.Rc := R.Rc(OLD, 6, 710, 1024, 1024, 2721682829, false)
  const O3N: R.Rc := R.Rc(OLD, 8, 46591362, 67108864, 1024, 2509101829, false)
  const O4: R.Rc := R.Rc(OLD, 8, 454018, 4194304, 4194304, 2509101829, false)

  lemma OldShifts1()
    ensures R.Safe(O0) && R.Normalize(O0) == O0N
  {
    hide R.Shift;
    ShiftIs(O0, 255, 65535, 32767, 0, 127);
    ShiftIs(R.Shift(O0), 162, 16777122, 8388561, 0, 32767);
    ShiftIs(R.Shift(R.Shift(O0)), 57, 4294943289, 2147471644, 0, 8388561);
    assert R.Normalize(R.Shift(R.Shift(R.Shift(O0)))) == O0N;
    assert R.Normalize(R.Shift(R.Shift(O0))) == O0N;
    assert R.Normalize(R.Shift(O0)) == O0N;
  }

  lemma Old1()
    ensures R.Safe(O0) && E.GetSymbol(O0, E.Before3990) == (O1, 63)
  {
    hide R.Normalize;
    OldShifts1();
    RareIs(O0, E.Before3990, O0N, 32768, 65535);
  }

  lemma OldShifts2()
    ensures R.Safe(O1) && R.Normalize(O1) == O1N
  {
    hide R.Shift;
    ShiftIs(O1, 149, 4288821653, 5315786, 255, 8376604);
    ShiftIs(R.Shift(O1), 141, 2721682829, 1360841414, 255, 5315786);
    assert R.Normalize(R.Shift(R.Shift(O1))) == O1N;
    assert R.Normalize(R.Shift(O1)) == O1N;
  }

  lemma Old2()
    ensures R.Safe(O1) && R.Take(O1, 32) == (O2, 20)
  {
    hide R.Normalize;
    OldShifts2();
    TakeIs(O1, 32, O1N, 67108864, 20);
  }

  lemma Old3()
    ensures R.Safe(O2) && R.Take(O2, 65536) == (O3, 18226)
  {
    TakeIs(O2, 65536, O2, 1024, 18226);
  }

  lemma OldShifts4()
    ensures R.Safe(O3) && R.Normalize(O3) == O3N
  {
    hide R.Shift;
    ShiftIs(O3, 219, 966102491, 181997, 162, 1886918);
    ShiftIs(R.Shift(O3), 5, 2509101829, 46591362, 57, 4900589);
    assert R.Normalize(R.Shift(R.Shift(O3))) == O3N;
    assert R.Normalize(R.Shift(O3)) == O3N;
  }

  lemma Old4()
    ensures R.Safe(O3) && R.Take(O3, 16) == (O4, 11)
  {
    hide R.Normalize;
    OldShifts4();
    TakeIs(O3, 16, O3N, 4194304, 11);
  }

  /** Twenty bits, the low sixteen of them first. */
  lemma OldValue()
    ensures R.Safe(R.Begin(OLD, 0)) && E.RiceOk(E.START)
    ensures var (r, rice, v) := E.Value3900(R.Begin(OLD, 0), E.START); !r.error && v == -369561
  {
    hide R.Take, E.GetSymbol, E.UpdateRice, R.Begin, OLD;
    OldBegins();
    Old1();
    Old2();
    Old3();
    Old4();
    assert Pow2(4) == 16;
  }

  lemma OldBegins()
    ensures R.Begin(OLD, 0) == O0
  {
  }

  const H0: R.Rc := R.Rc(SHORT, 1, 98, 128, 0, 197, false)
  const H0N: R.Rc := R.Rc(SHORT, 4, 1658447931, 2147483648, 0, 3316895862, false)
  const H1: R.Rc := R.Rc(SHORT, 4, 90335291, 201162752, 32768, 3316895862, false)
  const H2: R.Rc := R.Rc(SHORT, 4, 362107, 392896, 392896, 3316895862, false)

  lemma ShortShifts1()
    ensures R.Safe(H0) && R.Normalize(H0) == H0N
  {
    hide R.Shift;
    ShiftIs(H0, 179, 50611, 25305, 0, 98);
    ShiftIs(R.Shift(H0), 208, 12956624, 6478312, 0, 25305);
    ShiftIs(R.Shift(R.Shift(H0)), 118, 3316895862, 1658447931, 0, 6478312);
    assert R.Normalize(R.Shift(R.Shift(R.Shift(H0)))) == H0N;
    assert R.Normalize(R.Shift(R.Shift(H0))) == H0N;
    assert R.Normalize(R.Shift(H0)) == H0N;
  }

  lemma Short1()
    ensures R.Safe(H0) && E.GetSymbol(H0, E.Before3990) == (H1, 4)
  {
    hide R.Normalize;
    ShortShifts1();
    SymbolIs(H0, E.Before3990, H0N, 32768, 50611, 4, 6139, 47855, 90335291, 201162752);
  }

  lemma Short2()
    ensures R.Safe(H1) && R.Take(H1, 512) == (H2, 229)
  {
    TakeIs(H1, 512, H1, 392896, 229);
  }

  /** A symbol, and nine low bits. */
  lemma ShortValue()
    ensures R.Safe(R.Begin(SHORT, 0)) && E.RiceOk(E.START)
    ensures var (r, rice, v) := E.Value3900(R.Begin(SHORT, 0), E.START); !r.error && v == 1139
  {
    hide R.Take, E.GetSymbol, E.UpdateRice, R.Begin, SHORT;
    ShortBegins();
    Short1();
    Short2();
    assert Pow2(9) == 512;
  }

  lemma ShortBegins()
    ensures R.Begin(SHORT, 0) == H0
  {
  }
}
