/** Which values the format before 3990 can carry: those of 31 bits, and no others. */
module ApeReach {
  import opened Bits
  import opened ApeWords
  import opened ApeRange
  import opened ApeEntropy
  import opened ApeCoding

  // ----- what an encoder can do -----

  /** All an encoder can choose: a symbol below the escape and the low bits that the Rice parameter
      asks for, or the escape, a number of bits, and so many bits. */
  datatype Choice = Short(o: nat, low: nat) | Long(bits: nat, low: nat)

  predicate Possible(rice: Rice, c: Choice)
    requires RiceOk(rice)
  {
    match c
    case Short(o, low) => o < ESCAPE && low < Pow2(LowBits(rice))
    case Long(bits, low) => bits <= 31 && low < Pow2(bits)
  }

  function ChoiceOps(rice: Rice, c: Choice): (ops: seq<Op>)
    requires RiceOk(rice) && Possible(rice, c)
    ensures AllLegal(ops)
  {
    hide SymbolOp, LowOps, NumberOp;
    match c
    case Short(o, low) => [SymbolOp(Before3990, o)] + LowOps(LowBits(rice), low)
    case Long(bits, low) => [SymbolOp(Before3990, ESCAPE), NumberOp(32, bits)] + LowOps(bits, low)
  }

  function Meant(rice: Rice, c: Choice): (x: nat)
    requires RiceOk(rice)
  {
    match c
    case Short(o, low) => o * Pow2(LowBits(rice)) + low
    case Long(bits, low) => low
  }

  lemma MeantSmall(rice: Rice, c: Choice)
    requires RiceOk(rice) && Possible(rice, c)
    ensures Meant(rice, c) < 0x8000_0000
  {
    hide Pow2;
    Pow31();
    Pow23();
    match c
    case Short(o, low) =>
      var p := Pow2(LowBits(rice));
      Pow2Mono(LowBits(rice), 23);
      TimesMono(p, o, 62);
      assert o * p == p * o;
    case Long(bits, low) =>
      Pow2Mono(bits, 31);
  }

  lemma Pow23()
    ensures Pow2(23) == 0x80_0000
  {
    assert Pow2(8) == 256;
    assert Pow2(7) == 128;
    Pow2Add(8, 8);
    Pow2Add(16, 7);
  }

  lemma LongFollows(r: Rc, e: Enc, from: nat, bits: nat, x: nat, rest: seq<Op>)
    requires bits <= 31 && x < Pow2(bits)
    requires Ready(r, e, from, [SymbolOp(Before3990, ESCAPE), NumberOp(32, bits)] + LowOps(bits, x) + rest)
    ensures Safe(r)
    ensures var (r1, sym) := GetSymbol(r, Before3990);
      var (r2, n) := Take(r1, 32);
      sym == ESCAPE && n == bits && LowPart(r2, bits).1 == x
  {
    hide Narrow, NarrowAll, Take, Ready, GetSymbol, SymbolOp, LowOps, LowPart, Pow2;
    var op, five, low := SymbolOp(Before3990, ESCAPE), NumberOp(32, bits), LowOps(bits, x);
    assert [op, five] + low + rest == [op] + ([five] + (low + rest));
    ReadyRunning(r, e, from, [op] + ([five] + (low + rest)));
    SymbolFollows(r, e, from, Before3990, ESCAPE, [five] + (low + rest));
    TakeFollows(GetSymbol(r, Before3990).0, Narrow(e, op), from, 32, bits, low + rest);
    LowFollows(Take(GetSymbol(r, Before3990).0, 32).0, Narrow(Narrow(e, op), five), from, bits, x, rest);
  }

  lemma LongValue(r: Rc, rice: Rice, bits: nat, low: nat)
    requires Safe(r) && RiceOk(rice) && low < TWO32 && bits <= 31
    requires var (r1, sym) := GetSymbol(r, Before3990); var (r2, n) := Take(r1, 32);
      sym == ESCAPE && n == bits && LowPart(r2, bits).1 == low
    ensures Value3900(r, rice).2 == ToSigned(low)
  {
    hide GetSymbol, LowPart, UpdateRice, Pow2, ToSigned, Take;
  }

  /** Whatever the encoder chooses, the decoder reads what was meant. */
  lemma ChoiceFollows(r: Rc, e: Enc, from: nat, rice: Rice, c: Choice, rest: seq<Op>)
    requires RiceOk(rice) && Possible(rice, c) && Ready(r, e, from, ChoiceOps(rice, c) + rest)
    ensures Safe(r) && Value3900(r, rice).2 == ToSigned(Meant(rice, c))
  {
    hide Narrow, NarrowAll, Take, Ready, GetSymbol, SymbolOp, LowOps, LowPart, UpdateRice, Pow2, ToSigned, Value3900;
    MeantSmall(rice, c);
    match c
    case Short(o, low) =>
      ShortFollows(r, e, from, LowBits(rice), o, low, rest);
      ShortValue(r, rice, low);
      Rebuilt(Meant(rice, c), o, Pow2(LowBits(rice)));
    case Long(bits, low) =>
      LongFollows(r, e, from, bits, low, rest);
      LongValue(r, rice, bits, low);
  }

  /** An encoder can produce exactly the values in (-2^30, 2^30], whatever the Rice parameter. */
  lemma Reach3900(rice: Rice, v: int)
    requires RiceOk(rice) && Int32(v)
    ensures (exists c :: Possible(rice, c) && ToSigned(Meant(rice, c)) == v) <==> Codable(Before3990, v)
  {
    hide Pow2, ToSigned, Meant;
    Pow31();
    forall c | Possible(rice, c)
      ensures Codable(Before3990, ToSigned(Meant(rice, c)))
    {
      MeantSmall(rice, c);
      SignedSmall(Meant(rice, c));
    }
    if Codable(Before3990, v) {
      SignedRoundTrip(v);
      SmallCode(v);
      LongMeans(rice, FromSigned(v));
    }
  }

  lemma SignedSmall(x: nat)
    requires x < 0x8000_0000
    ensures -0x4000_0000 < ToSigned(x) <= 0x4000_0000
  {
  }

  lemma LongMeans(rice: Rice, x: nat)
    requires RiceOk(rice) && x < Pow2(31)
    ensures Possible(rice, Long(31, x)) && Meant(rice, Long(31, x)) == x
  {
  }

  // ----- what no bytes can do -----

  lemma {:induction false} NormalizeKeepsError(r: Rc)
    requires Safe(r) && r.error
    ensures Normalize(r).error
    decreases TOP_VALUE - r.range
  {
    if r.range <= BOTTOM_VALUE {
      NormalizeKeepsError(Shift(r));
    }
  }

  lemma TakeKeepsError(r: Rc, total: nat)
    requires Safe(r) && 0 < total <= 0x1_0000 && r.error
    ensures Take(r, total).0.error
  {
    hide Normalize;
    NormalizeKeepsError(r);
  }

  lemma LowKeepsError(r: Rc, bits: nat)
    requires Safe(r) && bits <= 31 && r.error
    ensures LowPart(r, bits).0.error
  {
    hide Take, Pow2;
    BitCounts(bits);
    if bits <= 16 {
      TakeKeepsError(r, Pow2(bits));
    } else {
      TakeKeepsError(r, 0x1_0000);
      TakeKeepsError(Take(r, 0x1_0000).0, Pow2(bits - 16));
    }
  }

  lemma SymbolSmall(r: Rc)
    requires Safe(r) && !GetSymbol(r, Before3990).0.error
    ensures GetSymbol(r, Before3990).1 <= ESCAPE
  {
    hide Cul, Counts, Diff, Update;
  }

  /** The low part can exceed its bits a little, since a number read can exceed its total. */
  lemma LowSmall(r: Rc, bits: nat)
    requires Safe(r) && bits <= 31
    ensures LowPart(r, bits).1 < 0x8202_0000 && (bits <= 23 ==> LowPart(r, bits).1 < 0x281_0000)
  {
    hide Take, Pow2;
    BitCounts(bits);
    Pow15And7();
    if bits > 16 {
      Pow2Mono(bits - 16, 15);
      if bits <= 23 {
        Pow2Mono(bits - 16, 7);
      }
    }
  }

  lemma Pow15And7()
    ensures Pow2(15) == 0x8000 && Pow2(7) == 128
  {
    assert Pow2(8) == 256;
    assert Pow2(7) == 128;
    Pow2Add(8, 7);
  }

  lemma ShortSmall(o: nat, low: nat, bits: nat)
    requires o < ESCAPE && low < 0x281_0000 && bits <= 23
    ensures Unsigned32(low + Unsigned32(o * Pow2(bits))) < 0x8202_0000
  {
    hide Pow2, Unsigned32;
    Pow23();
    Pow2Mono(bits, 23);
    TimesMono(Pow2(bits), o, 62);
    assert o * Pow2(bits) == Pow2(bits) * o;
    NotCut(o * Pow2(bits));
    NotCut(low + o * Pow2(bits));
  }

  lemma NotCut(x: nat)
    requires x < TWO32
    ensures Unsigned32(x) == x
  {
  }

  /** Whatever the bytes are, and wherever the decoder stands in them: a value that is decoded without
      error is far from using 32 bits. */
  lemma DecodedSmall(r: Rc, rice: Rice)
    requires Safe(r) && RiceOk(rice) && !Value3900(r, rice).0.error
    ensures -0x4101_0000 <= Value3900(r, rice).2 <= 0x4101_0000
  {
    hide GetSymbol, Take, LowPart, UpdateRice, Pow2, ToSigned, Unsigned32;
    var (r1, sym) := GetSymbol(r, Before3990);
    var (r2, bits) := if sym == 63 then Take(r1, 32) else (r1, LowBits(rice));
    if bits <= 31 {
      if r1.error {
        TakeKeepsError(r1, 32);
        LowKeepsError(r2, bits);
      }
      SymbolSmall(r);
      LowSmall(r2, bits);
      var low := LowPart(r2, bits).1;
      if sym == 63 {
        NoOverflow(low, bits);
      } else {
        ShortSmall(sym, low, bits);
      }
      SignedBound(Unsigned32(low + Unsigned32((if sym == 63 then 0 else sym) * Pow2(bits))));
    }
  }

  lemma NoOverflow(low: nat, bits: nat)
    requires low < 0x8202_0000
    ensures Unsigned32(low + Unsigned32(0 * Pow2(bits))) == low
  {
  }

  lemma SignedBound(x: nat)
    requires x < 0x8202_0000
    ensures -0x4101_0000 <= ToSigned(x) <= 0x4101_0000
  {
  }

  /** So there are 32-bit values that no bytes decode to. */
  lemma NeverDecoded(r: Rc, rice: Rice)
    requires Safe(r) && RiceOk(rice) && !Value3900(r, rice).0.error
    ensures Value3900(r, rice).2 != -0x8000_0000 && Value3900(r, rice).2 != 0x7FFF_FFFF
  {
    hide Value3900;
    DecodedSmall(r, rice);
  }

  lemma SymbolKeepsError(r: Rc)
    requires Safe(r) && r.error
    ensures GetSymbol(r, Before3990).0.error
  {
    hide Normalize, Counts, Diff;
    NormalizeKeepsError(r);
  }

  lemma ValueKeepsError(r: Rc, rice: Rice)
    requires Safe(r) && RiceOk(rice) && r.error
    ensures Value3900(r, rice).0.error
  {
    hide GetSymbol, Take, LowPart, UpdateRice, Pow2, ToSigned, Unsigned32;
    SymbolKeepsError(r);
    var (r1, sym) := GetSymbol(r, Before3990);
    TakeKeepsError(r1, 32);
    var (r2, bits) := if sym == 63 then Take(r1, 32) else (r1, LowBits(rice));
    if bits <= 31 {
      LowKeepsError(r2, bits);
    }
  }

  lemma {:induction false} SinglesKeepError(r: Rc, rice: Rice, n: nat)
    requires Safe(r) && RiceOk(rice) && r.error
    ensures Singles(Before3990, r, rice, n).0.error
    decreases n
  {
    hide Value3900;
    if n > 0 {
      ValueKeepsError(r, rice);
      var (s, next, d) := Value3900(r, rice);
      SinglesKeepError(s, next, n - 1);
    }
  }

  /** A whole mono block that is decoded without error. */
  lemma {:induction false} BlockSmall(r: Rc, rice: Rice, n: nat)
    requires Safe(r) && RiceOk(rice) && !Singles(Before3990, r, rice, n).0.error
    ensures forall i :: 0 <= i < n ==> -0x4101_0000 <= Singles(Before3990, r, rice, n).1[i] <= 0x4101_0000
    decreases n
  {
    hide Value3900;
    if n > 0 {
      var (s, next, d) := Value3900(r, rice);
      if s.error {
        SinglesKeepError(s, next, n - 1);
      }
      DecodedSmall(r, rice);
      BlockSmall(s, next, n - 1);
    }
  }
}
