/** The entropy decoder of Monkey's Audio: overflow symbols, adaptive Rice parameters, and the two
    value formats (before and from file version 3990) on top of the range decoder. */
module ApeEntropy {
  import opened Bits
  import opened ApeWords
  import opened ApeRange

  datatype Format = Before3990 | From3990

  const COUNTS_3970: seq<nat> := [
    0, 14824, 28224, 39348, 47855, 53994, 58171, 60926, 62682, 63786, 64463, 64878, 65126, 65276,
    65365, 65419, 65450, 65469, 65480, 65487, 65491, 65493]
  const DIFF_3970: seq<nat> := [
    14824, 13400, 11124, 8507, 6139, 4177, 2755, 1756, 1104, 677, 415, 248, 150, 89, 54, 31, 19, 11, 7, 4, 2]
  const COUNTS_3980: seq<nat> := [
    0, 19578, 36160, 48417, 56323, 60899, 63265, 64435, 64971, 65232, 65351, 65416, 65447, 65466,
    65476, 65482, 65485, 65488, 65490, 65491, 65492, 65493]
  const DIFF_3980: seq<nat> := [
    19578, 16582, 12257, 7906, 4576, 2366, 1170, 536, 261, 119, 65, 31, 19, 10, 6, 3, 3, 2, 1, 1, 1]

  function Counts(f: Format): seq<nat> {
    if f.Before3990? then COUNTS_3970 else COUNTS_3980
  }

  function Diff(f: Format): seq<nat> {
    if f.Before3990? then DIFF_3970 else DIFF_3980
  }

  /** The symbols' shares follow one another and end at 65493. */
  lemma Tables(f: Format)
    ensures |Counts(f)| == 22 && |Diff(f)| == 21 && Counts(f)[0] == 0 && Counts(f)[21] == 65493
    ensures forall s :: 0 <= s < 21 ==> Diff(f)[s] > 0 && Counts(f)[s] + Diff(f)[s] == Counts(f)[s + 1]
  {
  }

  lemma {:induction false} CountsMono(f: Format, s: nat, t: nat)
    requires s <= t <= 21
    ensures |Counts(f)| == 22 && Counts(f)[s] <= Counts(f)[t]
    decreases t - s
  {
    hide Counts, Diff;
    Tables(f);
    if s < t {
      assert Counts(f)[t - 1] + Diff(f)[t - 1] == Counts(f)[t - 1 + 1];
      CountsMono(f, s, t - 1);
    }
  }

  /** The table search of `range_get_symbol`. */
  function FindSymbol(counts: seq<nat>, cf: nat, s: nat): (r: nat)
    requires cf <= 65492 && s <= 20 && |counts| == 22 && counts[21] == 65493 && counts[s] <= cf
    ensures s <= r <= 20 && counts[r] <= cf < counts[r + 1]
    decreases 21 - s
  {
    if counts[s + 1] <= cf then FindSymbol(counts, cf, s + 1) else s
  }

  lemma ShareHolds(r: Rc, sy: nat, lt: nat)
    requires Safe(r)
    requires var (n, cf) := Cul(r, 0x1_0000); lt <= cf < lt + sy <= 0x1_0000
    ensures Holds(Cul(r, 0x1_0000).0, sy, lt)
  {
    hide Normalize;
    var (n, cf) := Cul(r, 0x1_0000);
    DivMod(n.low, n.help);
    ShareBounds(n.low, n.help, cf, n.low % n.help, sy, lt);
    DivMod(n.range, 0x1_0000);
    TimesMono(n.help, sy, 0x1_0000);
  }

  lemma ShareBounds(low: nat, help: nat, cf: nat, rest: nat, sy: nat, lt: nat)
    requires low == rest + help * cf && rest < help && lt <= cf < lt + sy
    ensures help * lt <= low < help * lt + help * sy
  {
    TimesMono(help, lt, cf);
    TimesMono(help, cf + 1, lt + sy);
    assert help * (cf + 1) == help * cf + help;
    assert help * (lt + sy) == help * lt + help * sy;
  }

  /** `range_get_symbol` */
  function GetSymbol(r: Rc, f: Format): (s: (Rc, nat))
    requires Safe(r)
    ensures Safe(s.0) && s.0.data == r.data
  {
    hide Counts, Diff;
    Tables(f);
    var (n, cf) := Cul(r, 0x1_0000);
    if cf > 65492 then
      OneHolds(r, 0x1_0000);
      var u := Update(n, 1, cf);
      (if cf > 65535 then u.(error := true) else u, cf - 65472)
    else
      var s := FindSymbol(Counts(f), cf, 0);
      CountsMono(f, s + 1, 21);
      ShareHolds(r, Diff(f)[s], Counts(f)[s]);
      (Update(n, Diff(f)[s], Counts(f)[s]), s)
  }

  /** Where the share of a symbol begins: 21 symbols have the shares of the table, the other 43 one
      number each, and together they use up all 65536. */
  function ShareStart(f: Format, s: nat): (n: nat)
    requires s <= 64
  {
    Tables(f);
    if s <= 21 then Counts(f)[s] else 65493 + (s - 21)
  }

  lemma AllShares(f: Format, s: nat)
    requires s < 64
    ensures ShareStart(f, 0) == 0 && ShareStart(f, s) < ShareStart(f, s + 1) && ShareStart(f, 64) == 65536
    ensures 0 < s < 64 ==> ShareStart(f, s + 1) - ShareStart(f, s) <= ShareStart(f, s) - ShareStart(f, s - 1)
  {
  }

  /** The symbol found is the one in whose share the number lies. */
  lemma ShareOfSymbol(r: Rc, f: Format, s: nat)
    requires Safe(r) && s < 64 && ShareStart(f, s) <= Cul(r, 0x1_0000).1 < ShareStart(f, s + 1)
    ensures GetSymbol(r, f).1 == s
  {
    hide Cul, Counts, Diff, Update;
    Tables(f);
    var cf := Cul(r, 0x1_0000).1;
    if cf > 65492 {
      CountsMono(f, if s < 21 then s + 1 else 21, 21);
    } else {
      assert s <= 20;
      var t := FindSymbol(Counts(f), cf, 0);
      if s < t {
        CountsMono(f, s + 1, t);
      } else if t < s {
        CountsMono(f, t + 1, s);
      }
    }
  }

  datatype Rice = Rice(k: nat, ksum: nat)

  const START: Rice := Rice(10, 16384)

  predicate RiceOk(r: Rice) {
    r.k <= 24 && r.ksum < TWO32
  }

  /** `update_rice` */
  function UpdateRice(rice: Rice, x: nat): (r: Rice)
    requires RiceOk(rice)
    ensures RiceOk(r)
  {
    var lim := if rice.k > 0 then Pow2(rice.k + 4) else 0;
    var ksum := Unsigned32(rice.ksum + Unsigned32(x + 1) / 2 - Unsigned32(rice.ksum + 16) / 32);
    if ksum < lim then Rice(rice.k - 1, ksum)
    else if ksum >= Pow2(rice.k + 5) && rice.k < 24 then Rice(rice.k + 1, ksum)
    else Rice(rice.k, ksum)
  }

  /** What the sum settles on: while coded values are 2m - 1 or 2m, it stays in [32m - 16, 32m + 15]
      once it is there, and from anywhere else it moves towards that, never past it. */
  lemma RiceFollows(rice: Rice, x: nat, m: nat)
    requires RiceOk(rice) && x < TWO32 - 1 && (x + 1) / 2 == m && m < 0x400_0000 && rice.ksum < 0x8000_0000
    ensures var ksum := UpdateRice(rice, x).ksum;
      if rice.ksum > 32 * m + 15 then 32 * m - 16 <= ksum < rice.ksum
      else if rice.ksum < 32 * m - 16 then rice.ksum < ksum <= 32 * m + 15
      else ksum == rice.ksum
  {
    RiceSum(rice, x);
    Decay(rice.ksum, m);
  }

  /** Nothing wraps while sums and values are below 2^31. */
  lemma RiceSum(rice: Rice, x: nat)
    requires RiceOk(rice) && rice.ksum < 0x8000_0000 && x < TWO32 - 1
    ensures UpdateRice(rice, x).ksum == rice.ksum + (x + 1) / 2 - (rice.ksum + 16) / 32
  {
    hide Pow2;
  }

  lemma Decay(k: nat, m: nat)
    ensures var d := (k + 16) / 32;
      if k > 32 * m + 15 then d > m && 32 * m - 16 <= k + m - d
      else if k < 32 * m - 16 then d < m && k + m - d <= 32 * m + 15
      else d == m
  {
  }

  /** So the parameters never grow beyond the values, nor fall behind them. */
  lemma RiceBounded(rice: Rice, x: nat, m: nat)
    requires RiceOk(rice) && rice.ksum < 0x8000_0000 && x < TWO32 - 1
    ensures x <= 2 * m && rice.ksum <= 32 * m + 15 ==> UpdateRice(rice, x).ksum <= 32 * m + 15
    ensures x >= 2 * m - 1 && 32 * m - 16 <= rice.ksum ==> UpdateRice(rice, x).ksum >= 32 * m - 16
  {
    hide UpdateRice;
    RiceSum(rice, x);
  }

  /** The level of `k`: sums from 2^(k+4) up to 2^(k+5), from zero on for `k` 0. */
  predicate Level(k: nat, ksum: nat) {
    (k > 0 ==> Pow2(k + 4) <= ksum) && (k < 24 ==> ksum < Pow2(k + 5))
  }

  /** `k` stays while the new sum is on its level, and otherwise moves by one towards it. */
  lemma LevelFollows(rice: Rice, x: nat)
    requires RiceOk(rice)
    ensures var r := UpdateRice(rice, x);
      && (Level(rice.k, r.ksum) <==> r.k == rice.k)
      && (r.k < rice.k ==> r.k == rice.k - 1 && r.ksum < Pow2(r.k + 5))
      && (r.k > rice.k ==> r.k == rice.k + 1 && Pow2(r.k + 4) <= r.ksum)
  {
    hide Unsigned32;
    Pow2Mono(rice.k + 4, rice.k + 5);
  }

  /** `(x >> 1) ^ ((x & 1) - 1)`, plus one, as a signed number. */
  function ToSigned(x: nat): (v: int)
    ensures Int32(v)
  {
    if x % 2 == 1 then Wrap32(x / 2 + 1) else Wrap32(-(x / 2))
  }

  /** Codes stand for 0, 1, -1, 2, -2 and so on. */
  lemma SignedOrder(m: nat)
    requires 0 < m < TWO31
    ensures ToSigned(0) == 0 && ToSigned(m + m - 1) == m && ToSigned(m + m) == -(m as int)
  {
  }

  /** The code of a signed value. */
  function FromSigned(v: int): (x: nat)
    requires Int32(v)
    ensures x < TWO32
  {
    if v == -TWO31 then TWO32 - 1 else if v > 0 then 2 * v - 1 else -2 * v
  }

  lemma SignedRoundTrip(v: int)
    requires Int32(v)
    ensures ToSigned(FromSigned(v)) == v
  {
  }

  lemma SignedRoundTripBack(x: nat)
    requires x < TWO32
    ensures FromSigned(ToSigned(x)) == x
  {
  }

  /** `(high << 16) | low` in 32 bits, where `low` may spill one bit over. */
  function Combine(high: nat, low: nat): (x: nat)
    requires low < 0x2_0000
    ensures x < TWO32
  {
    Unsigned32(high * 0x1_0000) + low % 0x1_0000 + if low >= 0x1_0000 && high % 2 == 0 then 0x1_0000 else 0
  }

  /** Halving until 16 bits suffice; the halvings are counted. */
  function Reduce(p: nat): (r: (nat, nat))
    requires p < TWO32
    ensures r.0 < 0x1_0000
    ensures p < 0x1_0000 * Pow2(r.1) && (r.1 > 0 ==> p >= 0x8000 * Pow2(r.1))
  {
    if p < 0x1_0000 then (p, 0) else
      var (h, b) := Reduce(p / 2);
      (h, b + 1)
  }

  lemma {:induction false} ReduceBits(p: nat)
    requires p < TWO32
    ensures Reduce(p).1 <= 16 && Pow2(Reduce(p).1) <= 0x1_0000
  {
    var b := Reduce(p).1;
    assert Pow2(8) == 256;
    Pow2Add(8, 8);
    if b > 16 {
      Pow2Mono(17, b);
    }
    Pow2Mono(if b <= 16 then b else 16, 16);
  }

  lemma {:induction false} ReduceIsQuotient(p: nat)
    requires p < TWO32
    ensures Reduce(p).0 == p / Pow2(Reduce(p).1)
  {
    if p >= 0x1_0000 {
      ReduceIsQuotient(p / 2);
      HalfQuotient(p, Pow2(Reduce(p / 2).1));
    }
  }

  function Pivot(rice: Rice): (p: nat)
    requires RiceOk(rice)
    ensures 1 <= p < 0x800_0000
  {
    if rice.ksum / 32 < 1 then 1 else rice.ksum / 32
  }

  /** The pivot is the mean that the sum stands for, within one. */
  lemma PivotFollows(rice: Rice, m: nat)
    requires RiceOk(rice) && 32 * m - 16 <= rice.ksum <= 32 * m + 15
    ensures m - 1 <= Pivot(rice) <= m || (m == 0 && Pivot(rice) == 1)
    ensures rice.ksum >= 32 * m ==> Pivot(rice) == if m == 0 then 1 else m
  {
  }

  /** The number below the pivot. */
  function Base(r: Rc, pivot: nat): (s: (Rc, nat))
    requires Safe(r) && 1 <= pivot < TWO32
    ensures Safe(s.0) && s.0.data == r.data
  {
    if pivot < 0x1_0000 then Take(r, pivot)
    else
      var (h, bits) := Reduce(pivot);
      ReduceBits(pivot);
      var (r1, hi) := Take(r, h + 1);
      var (r2, lo) := Take(r1, Pow2(bits));
      (r2, hi * Pow2(bits) + lo)
  }

  /** `ape_decode_value_3990` */
  function Value3990(r: Rc, rice: Rice): (s: (Rc, Rice, int))
    requires Safe(r) && RiceOk(rice)
    ensures Safe(s.0) && s.0.data == r.data && RiceOk(s.1) && Int32(s.2)
  {
    var pivot := Pivot(rice);
    var (r1, sym) := GetSymbol(r, From3990);
    var (r2, overflow) :=
      if sym == 63 then
        var (ra, hi) := Take(r1, 0x1_0000);
        var (rb, lo) := Take(ra, 0x1_0000);
        (rb, Combine(hi, lo))
      else (r1, sym);
    var (r3, base) := Base(r2, pivot);
    var x := Unsigned32(base + overflow * pivot);
    (r3, UpdateRice(rice, x), ToSigned(x))
  }

  /** The low part of an old-format value: `bits` of it, or `None` if there cannot be that many. */
  function LowPart(r: Rc, bits: nat): (s: (Rc, nat))
    requires Safe(r) && bits <= 31
    ensures Safe(s.0) && s.0.data == r.data
  {
    assert Pow2(8) == 256;
    Pow2Add(8, 8);
    Pow2Mono(if bits <= 16 then bits else bits - 16, 16);
    if bits <= 16 then Take(r, Pow2(bits))
    else
      var (r1, lo) := Take(r, 0x1_0000);
      var (r2, hi) := Take(r1, Pow2(bits - 16));
      (r2, Combine(hi, lo))
  }

  /** `ape_decode_value_3900` */
  function Value3900(r: Rc, rice: Rice): (s: (Rc, Rice, int))
    requires Safe(r) && RiceOk(rice)
    ensures Safe(s.0) && s.0.data == r.data && RiceOk(s.1) && Int32(s.2)
  {
    var (r1, sym) := GetSymbol(r, Before3990);
    var (r2, bits) := if sym == 63 then Take(r1, 32) else (r1, if rice.k < 1 then 0 else rice.k - 1);
    var overflow := if sym == 63 then 0 else sym;
    if bits > 31 then (r2.(error := true), rice, 0)
    else
      var (r3, low) := LowPart(r2, bits);
      var x := Unsigned32(low + Unsigned32(overflow * Pow2(bits)));
      (r3, UpdateRice(rice, x), ToSigned(x))
  }

  function Value(f: Format, r: Rc, rice: Rice): (s: (Rc, Rice, int))
    requires Safe(r) && RiceOk(rice)
    ensures Safe(s.0) && s.0.data == r.data && RiceOk(s.1) && Int32(s.2)
  {
    if f.Before3990? then Value3900(r, rice) else Value3990(r, rice)
  }
}
