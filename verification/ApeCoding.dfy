/** The entropy coder's round trip: for every sequence of values there are bytes that the decoder
    turns into exactly that sequence. */
module ApeCoding {
  import opened Bits
  import opened ApeWords
  import opened ApeRange
  import opened ApeEntropy

  const ESCAPE: nat := 63

  /** The step that codes an overflow symbol. */
  function SymbolOp(f: Format, s: nat): (op: Op)
    requires s <= ESCAPE
    ensures Legal(op) && op.total == 0x1_0000
  {
    hide Counts, Diff;
    Tables(f);
    CountsMono(f, if s <= 20 then s + 1 else 21, 21);
    if s <= 20 then Op(0x1_0000, Diff(f)[s], Counts(f)[s]) else Op(0x1_0000, 1, s + 65472)
  }

  /** The step that codes number `v` out of `total`. */
  function NumberOp(total: nat, v: nat): (op: Op)
    requires 0 < total <= 0x1_0000 && v < total
    ensures Legal(op)
  {
    Op(total, 1, v)
  }

  /** A decoder `r` in step with `e`, whose data lead into the interval after `ops`. */
  ghost predicate Ready(r: Rc, e: Enc, from: nat, ops: seq<Op>) {
    Tracks(r, e, from) && AllLegal(ops) && Leads(r.data[from..], NarrowAll(e, ops))
  }

  lemma TakeFollows(r: Rc, e: Enc, from: nat, total: nat, v: nat, rest: seq<Op>)
    requires 0 < total <= 0x1_0000 && v < total && Ready(r, e, from, [NumberOp(total, v)] + rest)
    ensures Take(r, total).1 == v
    ensures Ready(Take(r, total).0, Narrow(e, NumberOp(total, v)), from, rest)
  {
    hide Narrow, Cul, Tracks;
    FirstOp(r, e, from, NumberOp(total, v), rest);
    StepTracks(r, e, from, NumberOp(total, v));
  }

  lemma FirstOp(r: Rc, e: Enc, from: nat, op: Op, rest: seq<Op>)
    requires Ready(r, e, from, [op] + rest)
    ensures Running(e) && Legal(op) && AllLegal(rest)
    ensures Leads(r.data[from..], Narrow(e, op))
    ensures Leads(r.data[from..], NarrowAll(Narrow(e, op), rest))
  {
    hide Narrow, Leads, Legal;
    var ops := [op] + rest;
    assert ops[0] == op && ops[1..] == rest;
    assert forall i :: 0 <= i < |rest| ==> rest[i] == ops[i + 1];
    LeadsAll(r.data[from..], Narrow(e, op), rest);
  }

  lemma SymbolFollows(r: Rc, e: Enc, from: nat, f: Format, s: nat, rest: seq<Op>)
    requires s <= ESCAPE && Ready(r, e, from, [SymbolOp(f, s)] + rest)
    ensures GetSymbol(r, f).1 == s
    ensures Ready(GetSymbol(r, f).0, Narrow(e, SymbolOp(f, s)), from, rest)
  {
    hide Narrow, Cul, Counts, Diff, Tracks;
    var op := SymbolOp(f, s);
    Tables(f);
    ReadyRunning(r, e, from, [op] + rest);
    FirstOp(r, e, from, op, rest);
    StepTracks(r, e, from, op);
    var (n, cf) := Cul(r, 0x1_0000);
    if s <= 20 {
      CountsMono(f, s + 1, 21);
      FoundSymbol(f, cf, s);
    }
  }

  lemma FoundSymbol(f: Format, cf: nat, s: nat)
    requires s <= 20 && |Counts(f)| == 22 && Counts(f)[21] == 65493 && Counts(f)[0] == 0
    requires Counts(f)[s] <= cf < Counts(f)[s + 1] <= 65493
    ensures FindSymbol(Counts(f), cf, 0) == s
  {
    hide Counts;
    var t := FindSymbol(Counts(f), cf, 0);
    if t < s {
      CountsMono(f, t + 1, s);
    } else if s < t {
      CountsMono(f, s + 1, t);
    }
  }

  /** The steps for the number below the pivot. */
  function BaseOps(pivot: nat, base: nat): (ops: seq<Op>)
    requires 1 <= pivot < TWO32 && base < pivot
    ensures AllLegal(ops)
  {
    hide Reduce, Pow2;
    if pivot < 0x1_0000 then [NumberOp(pivot, base)]
    else
      var (h, bits) := Reduce(pivot);
      ReduceBits(pivot);
      BaseSplits(pivot, base);
      [NumberOp(h + 1, base / Pow2(bits)), NumberOp(Pow2(bits), base % Pow2(bits))]
  }

  lemma BaseSplits(pivot: nat, base: nat)
    requires 1 <= pivot < TWO32 && base < pivot
    ensures var (h, bits) := Reduce(pivot);
      var m := Pow2(bits);
      base / m <= h && base % m < m && base / m * m + base % m == base
  {
    var (h, bits) := Reduce(pivot);
    ReduceIsQuotient(pivot);
    QuotientMono(base, pivot, Pow2(bits));
    DivMod(base, Pow2(bits));
    assert base / Pow2(bits) * Pow2(bits) == Pow2(bits) * (base / Pow2(bits));
  }

  lemma QuotientMono(a: nat, b: nat, m: nat)
    requires m > 0 && a <= b
    ensures a / m <= b / m
  {
    DivMod(a, m);
    DivMod(b, m);
    assert m * (a / m - b / m) < m;
    Below(m, a / m - b / m, 1);
  }

  lemma BaseFollows(r: Rc, e: Enc, from: nat, pivot: nat, base: nat, rest: seq<Op>)
    requires 1 <= pivot < TWO32 && base < pivot && Ready(r, e, from, BaseOps(pivot, base) + rest)
    ensures Base(r, pivot).1 == base
    ensures Running(e) && Ready(Base(r, pivot).0, NarrowAll(e, BaseOps(pivot, base)), from, rest)
  {
    hide Narrow, Take, Ready, Pow2;
    var ops := BaseOps(pivot, base);
    if pivot < 0x1_0000 {
      OneStep(e, ops[0]);
      ReadyRunning(r, e, from, ops + rest);
      TakeFollows(r, e, from, pivot, base, rest);
    } else {
      var (h, bits) := Reduce(pivot);
      ReduceBits(pivot);
      BaseSplits(pivot, base);
      ReadyRunning(r, e, from, ops + rest);
      assert ops + rest == [ops[0]] + ([ops[1]] + rest);
      TakeFollows(r, e, from, h + 1, base / Pow2(bits), [ops[1]] + rest);
      var r1, e1 := Take(r, h + 1).0, Narrow(e, ops[0]);
      TakeFollows(r1, e1, from, Pow2(bits), base % Pow2(bits), rest);
      TwoSteps(e, ops[0], ops[1]);
      assert ops == [ops[0], ops[1]];
    }
  }

  lemma ReadyRunning(r: Rc, e: Enc, from: nat, ops: seq<Op>)
    requires Ready(r, e, from, ops)
    ensures Running(e) && Safe(r)
  {
  }

  lemma OneStep(e: Enc, op: Op)
    requires Legal(op)
    ensures Running(e) ==> NarrowAll(e, [op]) == Narrow(e, op)
  {
    if Running(e) {
      assert [op][1..] == [];
    }
  }

  lemma TwoSteps(e: Enc, a: Op, b: Op)
    requires Legal(a) && Legal(b) && Running(e)
    ensures NarrowAll(e, [a, b]) == Narrow(Narrow(e, a), b)
  {
    hide Narrow;
    assert [a, b][1..] == [b];
    OneStep(Narrow(e, a), b);
  }

  /** How many pivots a value holds: escaped when there are 63 or more. */
  function OverflowOps(overflow: nat): (ops: seq<Op>)
    requires overflow < TWO32
    ensures AllLegal(ops)
  {
    if overflow < ESCAPE then [SymbolOp(From3990, overflow)]
    else [SymbolOp(From3990, ESCAPE),
          NumberOp(0x1_0000, overflow / 0x1_0000), NumberOp(0x1_0000, overflow % 0x1_0000)]
  }

  /** The encoding of a value from version 3990 on. */
  function Ops3990(rice: Rice, v: int): (ops: seq<Op>)
    requires RiceOk(rice) && Int32(v)
    ensures AllLegal(ops)
  {
    hide OverflowOps, BaseOps, Pivot, FromSigned;
    var pivot, x := Pivot(rice), FromSigned(v);
    QuotientSmall(x, pivot);
    OverflowOps(x / pivot) + BaseOps(pivot, x % pivot)
  }

  lemma QuotientSmall(x: nat, p: nat)
    requires p > 0
    ensures x / p <= x && x % p < p
  {
    QuotientAtMost(x, p);
  }

  lemma QuotientAtMost(x: nat, p: nat)
    requires p > 0
    ensures x / p <= x && x % p < p && x % p + x / p * p == x
  {
    DivMod(x, p);
    assert x / p * p == p * (x / p);
  }

  /** The overflow read by `ape_decode_value_3990`. */
  function ReadOverflow(r: Rc): (s: (Rc, nat))
    requires Safe(r)
    ensures Safe(s.0) && s.0.data == r.data
  {
    var (r1, sym) := GetSymbol(r, From3990);
    if sym == 63 then
      var (ra, hi) := Take(r1, 0x1_0000);
      var (rb, lo) := Take(ra, 0x1_0000);
      (rb, Combine(hi, lo))
    else (r1, sym)
  }

  lemma OverflowFollows(r: Rc, e: Enc, from: nat, overflow: nat, rest: seq<Op>)
    requires overflow < TWO32 && Ready(r, e, from, OverflowOps(overflow) + rest)
    ensures ReadOverflow(r).1 == overflow
    ensures Running(e) && Ready(ReadOverflow(r).0, NarrowAll(e, OverflowOps(overflow)), from, rest)
  {
    hide Narrow, Take, Ready, GetSymbol, SymbolOp;
    var ops := OverflowOps(overflow);
    ReadyRunning(r, e, from, ops + rest);
    if overflow < ESCAPE {
      OneStep(e, ops[0]);
      SymbolFollows(r, e, from, From3990, overflow, rest);
    } else {
      var hi, lo := overflow / 0x1_0000, overflow % 0x1_0000;
      assert ops + rest == [ops[0]] + ([ops[1]] + ([ops[2]] + rest));
      SymbolFollows(r, e, from, From3990, ESCAPE, [ops[1]] + ([ops[2]] + rest));
      var r1, e1 := GetSymbol(r, From3990).0, Narrow(e, ops[0]);
      TakeFollows(r1, e1, from, 0x1_0000, hi, [ops[2]] + rest);
      var r2, e2 := Take(r1, 0x1_0000).0, Narrow(e1, ops[1]);
      TakeFollows(r2, e2, from, 0x1_0000, lo, rest);
      assert ops == [ops[0]] + [ops[1], ops[2]] && [ops[0]][1..] == [];
      NarrowAllConcat(e, [ops[0]], [ops[1], ops[2]]);
      OneStep(e, ops[0]);
      TwoSteps(e1, ops[1], ops[2]);
    }
  }

  lemma Follows3990(r: Rc, e: Enc, from: nat, rice: Rice, v: int, rest: seq<Op>)
    requires RiceOk(rice) && Int32(v) && Ready(r, e, from, Ops3990(rice, v) + rest)
    ensures Value3990(r, rice).1 == UpdateRice(rice, FromSigned(v)) && Value3990(r, rice).2 == v
    ensures Running(e) && Ready(Value3990(r, rice).0, NarrowAll(e, Ops3990(rice, v)), from, rest)
  {
    hide Narrow, NarrowAll, Take, Ready, GetSymbol, SymbolOp, OverflowOps, BaseOps, Base, UpdateRice, Pivot;
    var pivot, x := Pivot(rice), FromSigned(v);
    var o, b := x / pivot, x % pivot;
    QuotientAtMost(x, pivot);
    ReadyRunning(r, e, from, Ops3990(rice, v) + rest);
    assert Ops3990(rice, v) + rest == OverflowOps(o) + (BaseOps(pivot, b) + rest);
    OverflowFollows(r, e, from, o, BaseOps(pivot, b) + rest);
    var r1, e1 := ReadOverflow(r).0, NarrowAll(e, OverflowOps(o));
    BaseFollows(r1, e1, from, pivot, b, rest);
    NarrowAllConcat(e, OverflowOps(o), BaseOps(pivot, b));
    SignedRoundTrip(v);
    assert Unsigned32(b + o * pivot) == x;
  }

  // ----- before version 3990 -----

  /** The old format has room for 31 bits. */
  predicate Codable(f: Format, v: int) {
    Int32(v) && (f.Before3990? ==> -0x4000_0000 < v <= 0x4000_0000)
  }

  lemma BitCounts(bits: nat)
    requires bits <= 31
    ensures bits <= 16 ==> Pow2(bits) <= 0x1_0000
    ensures bits > 16 ==> Pow2(bits - 16) <= 0x1_0000 && Pow2(bits) == 0x1_0000 * Pow2(bits - 16)
  {
    assert Pow2(8) == 256;
    Pow2Add(8, 8);
    Pow2Mono(if bits <= 16 then bits else bits - 16, 16);
    if bits > 16 {
      Pow2Add(16, bits - 16);
    }
  }

  function LowOps(bits: nat, low: nat): (ops: seq<Op>)
    requires bits <= 31 && low < Pow2(bits)
    ensures AllLegal(ops)
  {
    BitCounts(bits);
    if bits <= 16 then [NumberOp(Pow2(bits), low)]
    else [NumberOp(0x1_0000, low % 0x1_0000), NumberOp(Pow2(bits - 16), low / 0x1_0000)]
  }

  lemma LowFollows(r: Rc, e: Enc, from: nat, bits: nat, low: nat, rest: seq<Op>)
    requires bits <= 31 && low < Pow2(bits) && Ready(r, e, from, LowOps(bits, low) + rest)
    ensures LowPart(r, bits).1 == low
    ensures Running(e) && Ready(LowPart(r, bits).0, NarrowAll(e, LowOps(bits, low)), from, rest)
  {
    hide Narrow, Take, Ready, Pow2;
    var ops := LowOps(bits, low);
    BitCounts(bits);
    ReadyRunning(r, e, from, ops + rest);
    if bits <= 16 {
      OneStep(e, ops[0]);
      TakeFollows(r, e, from, Pow2(bits), low, rest);
    } else {
      assert ops + rest == [ops[0]] + ([ops[1]] + rest);
      TakeFollows(r, e, from, 0x1_0000, low % 0x1_0000, [ops[1]] + rest);
      var r1, e1 := Take(r, 0x1_0000).0, Narrow(e, ops[0]);
      TakeFollows(r1, e1, from, Pow2(bits - 16), low / 0x1_0000, rest);
      TwoSteps(e, ops[0], ops[1]);
      assert ops == [ops[0], ops[1]];
    }
  }

  /** The Rice parameter in use. */
  function LowBits(rice: Rice): (b: nat)
    requires RiceOk(rice)
    ensures b <= 23
  {
    if rice.k < 1 then 0 else rice.k - 1
  }

  /** On its level, `k` gives low bits enough for the mean that the sum stands for, and no more. */
  lemma LowBitsFollow(rice: Rice)
    requires RiceOk(rice) && 0 < rice.k < 24 && Level(rice.k, rice.ksum)
    ensures Pow2(LowBits(rice)) <= rice.ksum / 32 < 2 * Pow2(LowBits(rice))
  {
    var p := Pow2(rice.k - 1);
    assert Pow2(rice.k + 4) == 32 * p && Pow2(rice.k + 5) == 64 * p by {
      Pow2Add(rice.k - 1, 5);
      Pow2Add(rice.k - 1, 6);
      assert Pow2(5) == 32 && Pow2(6) == 64;
    }
  }

  function Ops3900(rice: Rice, v: int): (ops: seq<Op>)
    requires RiceOk(rice) && Codable(Before3990, v)
    ensures AllLegal(ops)
  {
    hide Pow2, SymbolOp, LowOps, NumberOp;
    var bits, x := LowBits(rice), FromSigned(v);
    QuotientAtMost(x, Pow2(bits));
    Pow31();
    if x / Pow2(bits) < ESCAPE then [SymbolOp(Before3990, x / Pow2(bits))] + LowOps(bits, x % Pow2(bits))
    else [SymbolOp(Before3990, ESCAPE), NumberOp(32, 31)] + LowOps(31, x)
  }

  lemma Pow31()
    ensures Pow2(31) == 0x8000_0000
  {
    assert Pow2(8) == 256;
    assert Pow2(7) == 128;
    Pow2Add(8, 8);
    Pow2Add(16, 8);
    Pow2Add(24, 7);
  }

  lemma Follows3900(r: Rc, e: Enc, from: nat, rice: Rice, v: int, rest: seq<Op>)
    requires RiceOk(rice) && Codable(Before3990, v) && Ready(r, e, from, Ops3900(rice, v) + rest)
    ensures Value3900(r, rice).1 == UpdateRice(rice, FromSigned(v)) && Value3900(r, rice).2 == v
    ensures Running(e) && Ready(Value3900(r, rice).0, NarrowAll(e, Ops3900(rice, v)), from, rest)
  {
    hide Narrow, NarrowAll, Take, Ready, GetSymbol, SymbolOp, LowOps, LowPart, UpdateRice, Pow2, FromSigned, ToSigned,
      Value3900;
    var bits, x := LowBits(rice), FromSigned(v);
    var p := Pow2(bits);
    QuotientAtMost(x, p);
    SignedRoundTrip(v);
    ReadyRunning(r, e, from, Ops3900(rice, v) + rest);
    if x / p < ESCAPE {
      ShortFollows(r, e, from, bits, x / p, x % p, rest);
      ShortValue(r, rice, x % p);
      Rebuilt(x, x / p, p);
    } else {
      SmallCode(v);
      EscapeFollows(r, e, from, x, rest);
      EscapeValue(r, rice, x);
    }
  }

  lemma SmallCode(v: int)
    requires Codable(Before3990, v)
    ensures FromSigned(v) < Pow2(31)
  {
    Pow31();
  }

  /** The old format's value when its symbol is not the escape. */
  lemma ShortValue(r: Rc, rice: Rice, low: nat)
    requires Safe(r) && RiceOk(rice)
    requires var (r1, sym) := GetSymbol(r, Before3990); sym < ESCAPE && LowPart(r1, LowBits(rice)).1 == low
    ensures var (r1, sym) := GetSymbol(r, Before3990);
      var x := Unsigned32(low + Unsigned32(sym * Pow2(LowBits(rice))));
      Value3900(r, rice) == (LowPart(r1, LowBits(rice)).0, UpdateRice(rice, x), ToSigned(x))
  {
    hide GetSymbol, LowPart, UpdateRice, Pow2, ToSigned, Unsigned32;
  }

  lemma EscapeValue(r: Rc, rice: Rice, low: nat)
    requires Safe(r) && RiceOk(rice) && low < TWO32
    requires var (r1, sym) := GetSymbol(r, Before3990); var (r2, bits) := Take(r1, 32);
      sym == ESCAPE && bits == 31 && LowPart(r2, 31).1 == low
    ensures Value3900(r, rice) ==
      (LowPart(Take(GetSymbol(r, Before3990).0, 32).0, 31).0, UpdateRice(rice, low), ToSigned(low))
  {
    hide GetSymbol, LowPart, UpdateRice, Pow2, ToSigned, Take;
  }

  lemma Rebuilt(x: nat, o: nat, p: nat)
    requires x < TWO32 && o * p <= x
    ensures Unsigned32(x - o * p + Unsigned32(o * p)) == x
  {
  }

  /** A symbol below the escape, then its low bits. */
  lemma ShortFollows(r: Rc, e: Enc, from: nat, bits: nat, o: nat, low: nat, rest: seq<Op>)
    requires bits <= 31 && o < ESCAPE && low < Pow2(bits)
    requires Ready(r, e, from, [SymbolOp(Before3990, o)] + LowOps(bits, low) + rest)
    ensures Safe(r) && Running(e)
    ensures var (r1, sym) := GetSymbol(r, Before3990);
      sym == o && LowPart(r1, bits).1 == low
      && Ready(LowPart(r1, bits).0, NarrowAll(e, [SymbolOp(Before3990, o)] + LowOps(bits, low)), from, rest)
  {
    hide Narrow, NarrowAll, Take, Ready, GetSymbol, SymbolOp, LowOps, LowPart, Pow2;
    var op, lows := SymbolOp(Before3990, o), LowOps(bits, low);
    assert [op] + lows + rest == [op] + (lows + rest);
    ReadyRunning(r, e, from, [op] + (lows + rest));
    SymbolFollows(r, e, from, Before3990, o, lows + rest);
    LowFollows(GetSymbol(r, Before3990).0, Narrow(e, op), from, bits, low, rest);
    NarrowAllConcat(e, [op], lows);
    OneStep(e, op);
  }

  /** The escape, the number of bits, then all of them. */
  lemma EscapeFollows(r: Rc, e: Enc, from: nat, x: nat, rest: seq<Op>)
    requires x < Pow2(31)
    requires Ready(r, e, from, [SymbolOp(Before3990, ESCAPE), NumberOp(32, 31)] + LowOps(31, x) + rest)
    ensures Safe(r) && Running(e)
    ensures var (r1, sym) := GetSymbol(r, Before3990);
      var (r2, bits) := Take(r1, 32);
      sym == ESCAPE && bits == 31 && LowPart(r2, 31).1 == x
      && Ready(LowPart(r2, 31).0, NarrowAll(e, [SymbolOp(Before3990, ESCAPE), NumberOp(32, 31)] + LowOps(31, x)),
               from, rest)
  {
    hide Narrow, NarrowAll, Take, Ready, GetSymbol, SymbolOp, LowOps, LowPart, Pow2;
    var op, five, low := SymbolOp(Before3990, ESCAPE), NumberOp(32, 31), LowOps(31, x);
    assert [op, five] + low + rest == [op] + ([five] + (low + rest));
    ReadyRunning(r, e, from, [op] + ([five] + (low + rest)));
    SymbolFollows(r, e, from, Before3990, ESCAPE, [five] + (low + rest));
    var r1, e1 := GetSymbol(r, Before3990).0, Narrow(e, op);
    TakeFollows(r1, e1, from, 32, 31, low + rest);
    LowFollows(Take(r1, 32).0, Narrow(e1, five), from, 31, x, rest);
    NarrowAllConcat(e, [op, five], low);
    TwoSteps(e, op, five);
  }

  // ----- blocks -----

  function ValueOps(f: Format, rice: Rice, v: int): (ops: seq<Op>)
    requires RiceOk(rice) && Codable(f, v)
    ensures AllLegal(ops)
  {
    if f.Before3990? then Ops3900(rice, v) else Ops3990(rice, v)
  }

  lemma ValueFollows(r: Rc, e: Enc, from: nat, f: Format, rice: Rice, v: int, rest: seq<Op>)
    requires RiceOk(rice) && Codable(f, v) && Ready(r, e, from, ValueOps(f, rice, v) + rest)
    ensures Value(f, r, rice).1 == UpdateRice(rice, FromSigned(v)) && Value(f, r, rice).2 == v
    ensures Running(e) && Ready(Value(f, r, rice).0, NarrowAll(e, ValueOps(f, rice, v)), from, rest)
  {
    hide Ready, Value3900, Value3990, Ops3900, Ops3990;
    if f.Before3990? {
      Follows3900(r, e, from, rice, v, rest);
    } else {
      Follows3990(r, e, from, rice, v, rest);
    }
  }

  /** The entropy decoder's state across a stereo block. */
  datatype Entropy = Entropy(rc: Rc, y: Rice, x: Rice)

  predicate EntropyOk(s: Entropy) {
    Safe(s.rc) && RiceOk(s.y) && RiceOk(s.x)
  }

  /** `entropy_decode_stereo_3930` / `_3990`: the Y value of each pair first. */
  function Pair(f: Format, s: Entropy): (t: (Entropy, (int, int)))
    requires EntropyOk(s)
    ensures EntropyOk(t.0) && t.0.rc.data == s.rc.data && Int32(t.1.0) && Int32(t.1.1)
  {
    var (r1, y, d0) := Value(f, s.rc, s.y);
    var (r2, x, d1) := Value(f, r1, s.x);
    (Entropy(r2, y, x), (d0, d1))
  }

  function PairOps(f: Format, y: Rice, x: Rice, d: (int, int)): (ops: seq<Op>)
    requires RiceOk(y) && RiceOk(x) && Codable(f, d.0) && Codable(f, d.1)
    ensures AllLegal(ops)
  {
    ValueOps(f, y, d.0) + ValueOps(f, x, d.1)
  }

  lemma PairFollows(s: Entropy, e: Enc, from: nat, f: Format, d: (int, int), rest: seq<Op>)
    requires EntropyOk(s) && Codable(f, d.0) && Codable(f, d.1)
    requires Ready(s.rc, e, from, PairOps(f, s.y, s.x, d) + rest)
    ensures Running(e) && Pair(f, s).1 == d
    ensures Pair(f, s).0.y == UpdateRice(s.y, FromSigned(d.0)) && Pair(f, s).0.x == UpdateRice(s.x, FromSigned(d.1))
    ensures Ready(Pair(f, s).0.rc, NarrowAll(e, PairOps(f, s.y, s.x, d)), from, rest)
  {
    hide Ready, Value, ValueOps, UpdateRice, Narrow, NarrowAll;
    var a, b := ValueOps(f, s.y, d.0), ValueOps(f, s.x, d.1);
    assert PairOps(f, s.y, s.x, d) + rest == a + (b + rest);
    ValueFollows(s.rc, e, from, f, s.y, d.0, b + rest);
    ValueFollows(Value(f, s.rc, s.y).0, NarrowAll(e, a), from, f, s.x, d.1, rest);
    NarrowAllConcat(e, a, b);
  }

  function Pairs(f: Format, s: Entropy, n: nat): (t: (Entropy, seq<(int, int)>))
    requires EntropyOk(s)
    ensures EntropyOk(t.0) && t.0.rc.data == s.rc.data && |t.1| == n && PairsInt32(t.1)
    decreases n
  {
    hide Pair, EntropyOk, PairsInt32;
    NoPairs();
    if n == 0 then (s, []) else
      var (t, d) := Pair(f, s);
      var (u, ds) := Pairs(f, t, n - 1);
      MorePairs(d, ds);
      (u, [d] + ds)
  }

  lemma NoPairs()
    ensures PairsInt32([])
  {
  }

  lemma MorePairs(d: (int, int), ds: seq<(int, int)>)
    requires Int32(d.0) && Int32(d.1) && PairsInt32(ds)
    ensures PairsInt32([d] + ds)
  {
  }

  ghost predicate AllCodable(f: Format, ds: seq<(int, int)>) {
    forall i :: 0 <= i < |ds| ==> Codable(f, ds[i].0) && Codable(f, ds[i].1)
  }

  function PairsOps(f: Format, y: Rice, x: Rice, ds: seq<(int, int)>): (ops: seq<Op>)
    requires RiceOk(y) && RiceOk(x) && AllCodable(f, ds)
    ensures AllLegal(ops)
    decreases |ds|
  {
    if ds == [] then [] else
      PairOps(f, y, x, ds[0]) +
      PairsOps(f, UpdateRice(y, FromSigned(ds[0].0)), UpdateRice(x, FromSigned(ds[0].1)), ds[1..])
  }

  lemma {:induction false} PairsFollow(s: Entropy, e: Enc, from: nat, f: Format, ds: seq<(int, int)>)
    requires EntropyOk(s) && AllCodable(f, ds)
    requires Ready(s.rc, e, from, PairsOps(f, s.y, s.x, ds))
    ensures Pairs(f, s, |ds|).1 == ds && !Pairs(f, s, |ds|).0.rc.error
    decreases |ds|
  {
    hide Ready, Pair, PairOps, UpdateRice, NarrowAll;
    if ds == [] {
      ReadyNoError(s.rc, e, from, []);
    } else {
      var y, x := UpdateRice(s.y, FromSigned(ds[0].0)), UpdateRice(s.x, FromSigned(ds[0].1));
      PairFollows(s, e, from, f, ds[0], PairsOps(f, y, x, ds[1..]));
      PairsFollow(Pair(f, s).0, NarrowAll(e, PairOps(f, s.y, s.x, ds[0])), from, f, ds[1..]);
    }
  }

  lemma ReadyNoError(r: Rc, e: Enc, from: nat, ops: seq<Op>)
    requires Ready(r, e, from, ops)
    ensures !r.error
  {
  }

  /** The Y decoder alone, as used for mono and pseudo-stereo frames. */
  function Singles(f: Format, r: Rc, rice: Rice, n: nat): (t: (Rc, seq<int>))
    requires Safe(r) && RiceOk(rice)
    ensures Safe(t.0) && t.0.data == r.data && |t.1| == n && AllInt32(t.1)
    decreases n
  {
    hide Value, Safe, RiceOk;
    if n == 0 then (r, []) else
      var (r1, rice1, d) := Value(f, r, rice);
      var (r2, ds) := Singles(f, r1, rice1, n - 1);
      (r2, [d] + ds)
  }

  function SinglesOps(f: Format, rice: Rice, ds: seq<int>): (ops: seq<Op>)
    requires RiceOk(rice) && (forall i :: 0 <= i < |ds| ==> Codable(f, ds[i]))
    ensures AllLegal(ops)
    decreases |ds|
  {
    hide ValueOps;
    if ds == [] then [] else
      ValueOps(f, rice, ds[0]) + SinglesOps(f, UpdateRice(rice, FromSigned(ds[0])), ds[1..])
  }

  lemma {:induction false} SinglesFollow(r: Rc, e: Enc, from: nat, f: Format, rice: Rice, ds: seq<int>)
    requires Safe(r) && RiceOk(rice) && forall i :: 0 <= i < |ds| ==> Codable(f, ds[i])
    requires Ready(r, e, from, SinglesOps(f, rice, ds))
    ensures Singles(f, r, rice, |ds|).1 == ds && !Singles(f, r, rice, |ds|).0.error
    decreases |ds|
  {
    hide Ready, Value, ValueOps, UpdateRice, NarrowAll;
    if ds == [] {
      ReadyNoError(r, e, from, []);
    } else {
      var next := UpdateRice(rice, FromSigned(ds[0]));
      ValueFollows(r, e, from, f, rice, ds[0], SinglesOps(f, next, ds[1..]));
      SinglesFollow(Value(f, r, rice).0, NarrowAll(e, ValueOps(f, rice, ds[0])), from, f, next, ds[1..]);
    }
  }

  // ----- the bytes -----

  const FRESH: Enc := Enc(0, 128, 0)

  /** All code numbers there are after so many shifts. */
  function Room(shifts: nat): (n: nat)
    ensures n >= 128
  {
    if shifts == 0 then 128 else 256 * Room(shifts - 1)
  }

  predicate Inside(e: Enc) {
    e.low + e.range <= Room(e.shifts)
  }

  lemma {:induction false} NormalizeInside(e: Enc)
    requires Running(e) && Inside(e)
    ensures Inside(EncNormalize(e))
    decreases TOP_VALUE - e.range
  {
    if e.range <= BOTTOM_VALUE {
      NormalizeInside(Enc(e.low * 256, e.range * 256, e.shifts + 1));
    }
  }

  lemma {:induction false} NarrowAllInside(e: Enc, ops: seq<Op>)
    requires Running(e) && Inside(e) && AllLegal(ops)
    ensures Inside(NarrowAll(e, ops))
    decreases |ops|
  {
    hide Narrow, Legal;
    if ops != [] {
      NormalizeInside(e);
      NarrowInside(e, ops[0]);
      NarrowAllInside(Narrow(e, ops[0]), ops[1..]);
    }
  }

  /** The low `n` bytes of a number, most significant first. */
  function BigEndian(v: nat, n: nat): (b: seq<byte>)
    ensures |b| == n
  {
    if n == 0 then [] else BigEndian(v / 256, n - 1) + [v % 256]
  }

  lemma {:induction false} PrefixIgnoresTail(a: seq<byte>, b: seq<byte>, n: nat)
    requires n <= |a|
    ensures Prefix(a + b, n) == Prefix(a, n)
  {
    if n > 0 {
      PrefixIgnoresTail(a, b, n - 1);
    }
  }

  lemma {:induction false} BigEndianPrefix(v: nat, k: nat)
    requires v < 2 * Room(k)
    ensures Prefix(BigEndian(v, k + 1), k + 1) == v
  {
    var head := BigEndian(v / 256, k);
    if k == 0 {
      assert Prefix(BigEndian(v, 1), 0) == 0;
    } else {
      BigEndianPrefix(v / 256, k - 1);
      PrefixIgnoresTail(head, [v % 256], k);
    }
  }

  /** The bytes of a coded sequence: the lower end of the final interval. */
  function Written(ops: seq<Op>): (data: seq<byte>)
    requires AllLegal(ops)
    ensures |data| > 0
  {
    var e := NarrowAll(FRESH, ops);
    BigEndian(2 * e.low, e.shifts + 1)
  }

  /** Whatever follows them, the bytes lead into the interval. */
  lemma WrittenLeads(ops: seq<Op>, tail: seq<byte>)
    requires AllLegal(ops)
    ensures Leads(Written(ops) + tail, NarrowAll(FRESH, ops))
  {
    hide NarrowAll, BigEndian;
    var e := NarrowAll(FRESH, ops);
    NarrowAllInside(FRESH, ops);
    BigEndianPrefix(2 * e.low, e.shifts);
    PrefixIgnoresTail(Written(ops), tail, e.shifts + 1);
  }

  lemma BeginReady(head: seq<byte>, ops: seq<Op>, tail: seq<byte>)
    requires AllLegal(ops)
    ensures Ready(Begin(head + Written(ops) + tail, |head|), FRESH, |head|, ops)
  {
    hide Written, NarrowAll;
    var all, w := head + Written(ops) + tail, Written(ops) + tail;
    assert all[|head|..] == w;
    WrittenLeads(ops, tail);
    assert Prefix(w, 1) == 256 * Prefix(w, 0) + w[0];
  }

  /** Every codable block of pairs has bytes, at any place in the data, that decode to it. */
  lemma PairsRoundTrip(f: Format, y: Rice, x: Rice, ds: seq<(int, int)>, head: seq<byte>, tail: seq<byte>)
    requires RiceOk(y) && RiceOk(x) && AllCodable(f, ds)
    ensures var r := Begin(head + Written(PairsOps(f, y, x, ds)) + tail, |head|);
      var (s, out) := Pairs(f, Entropy(r, y, x), |ds|);
      out == ds && !s.rc.error
  {
    hide Pairs, PairsOps, Written, Ready, AllCodable;
    var ops := PairsOps(f, y, x, ds);
    BeginReady(head, ops, tail);
    PairsFollow(Entropy(Begin(head + Written(ops) + tail, |head|), y, x), FRESH, |head|, f, ds);
  }

  lemma SinglesRoundTrip(f: Format, rice: Rice, ds: seq<int>, head: seq<byte>, tail: seq<byte>)
    requires RiceOk(rice) && forall i :: 0 <= i < |ds| ==> Codable(f, ds[i])
    ensures var r := Begin(head + Written(SinglesOps(f, rice, ds)) + tail, |head|);
      var (s, out) := Singles(f, r, rice, |ds|);
      out == ds && !s.error
  {
    hide Singles, SinglesOps, Written, Ready;
    var ops := SinglesOps(f, rice, ds);
    BeginReady(head, ops, tail);
    SinglesFollow(Begin(head + Written(ops) + tail, |head|), FRESH, |head|, f, rice, ds);
  }
}
