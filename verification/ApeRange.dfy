/** The range decoder of Monkey's Audio, and the encoder it undoes.

    The decoder's `low` is the distance of the code number read so far from the lower end of the
    encoder's current interval.  All arithmetic stays inside 32 bits (`Safe`), so the C code's
    unsigned operations never wrap except for the shifting of `buffer`. */
module ApeRange {
  import opened Bits
  import opened ApeWords

  const BOTTOM_VALUE: nat := 0x80_0000
  const TOP_VALUE: nat := 0x8000_0000

  datatype Rc = Rc(data: seq<byte>, ptr: nat, low: nat, range: nat, help: nat, buffer: nat, error: bool)

  predicate Safe(r: Rc) {
    && r.ptr <= |r.data|
    && r.low < r.range <= TOP_VALUE
    && r.buffer < TWO32
  }

  /** `range_start_decoding`, on at least one byte. */
  function Begin(data: seq<byte>, ptr: nat): (r: Rc)
    requires ptr < |data|
    ensures Safe(r)
  {
    Rc(data, ptr + 1, data[ptr] / 2, 128, 0, data[ptr], false)
  }

  /** One byte is taken in; at the end of the data nothing is, and the error flag goes up. */
  function Shift(r: Rc): (s: Rc)
    requires Safe(r) && r.range <= BOTTOM_VALUE
    ensures Safe(s) && s.range == 256 * r.range && s.data == r.data
  {
    var eof := r.ptr >= |r.data|;
    var buffer := Unsigned32(r.buffer * 256) + if eof then 0 else r.data[r.ptr];
    r.(ptr := if eof then r.ptr else r.ptr + 1,
       error := r.error || eof,
       buffer := buffer,
       low := r.low * 256 + buffer / 2 % 256,
       range := r.range * 256)
  }

  /** `range_dec_normalize`: afterwards more than 23 bits of range are there. */
  function Normalize(r: Rc): (s: Rc)
    requires Safe(r)
    ensures Safe(s) && s.range > BOTTOM_VALUE && s.data == r.data
    decreases TOP_VALUE - r.range
  {
    if r.range <= BOTTOM_VALUE then Normalize(Shift(r)) else r
  }

  /** `range_decode_culfreq` / `range_decode_culshift` with `total` = tot_f or 2^shift. */
  function Cul(r: Rc, total: nat): (s: (Rc, nat))
    requires Safe(r) && 0 < total <= 0x1_0000
    ensures Safe(s.0) && s.0.range > BOTTOM_VALUE && s.0.data == r.data
    ensures s.0.help == s.0.range / total && s.0.help >= 128
    ensures s.1 == s.0.low / s.0.help
  {
    var n := Normalize(r);
    HelpPositive(n.range, total);
    var help := n.range / total;
    (n.(help := help), n.low / help)
  }

  lemma HelpPositive(range: nat, total: nat)
    requires BOTTOM_VALUE < range && 0 < total <= 0x1_0000
    ensures range / total >= 128
  {
    DivMod(range, total);
    SmallProduct(total, range / total);
  }

  lemma SmallProduct(total: nat, q: nat)
    ensures total <= 0x1_0000 && q < 128 ==> total * q <= 0x1_0000 * 127
  {
    if total <= 0x1_0000 && q < 128 {
      TimesMono(total, q, 127);
    }
  }

  /** The number found stays close to the total: at most 511 above it, because of the remainder. */
  lemma CulBound(r: Rc, total: nat)
    requires Safe(r) && 0 < total <= 0x1_0000
    ensures Cul(r, total).1 <= total + 511
  {
    var (n, cf) := Cul(r, total);
    DivMod(n.range, total);
    DivMod(n.low, n.help);
    FarProduct(n.help, total, cf);
  }

  lemma FarProduct(help: nat, total: nat, cf: nat)
    ensures cf > total + 511 ==> help * cf >= total * help + 512 * help
  {
    if cf > total + 511 {
      TimesMono(help, total + 512, cf);
      assert help * (total + 512) == total * help + 512 * help;
    }
  }

  /** The symbol's share of the interval holds `low`. */
  ghost predicate Holds(r: Rc, sy: nat, lt: nat) {
    r.help > 0 && sy > 0 && r.help * lt <= r.low < r.help * lt + r.help * sy
    && r.help * sy <= TOP_VALUE
  }

  /** `range_decode_update` */
  function Update(r: Rc, sy: nat, lt: nat): (s: Rc)
    requires Safe(r) && Holds(r, sy, lt)
    ensures Safe(s) && s.data == r.data
  {
    TimesPositive(r.help, sy);
    r.(low := r.low - r.help * lt, range := r.help * sy)
  }

  lemma TimesPositive(a: nat, b: nat)
    requires a > 0 && b > 0
    ensures a * b > 0
  {
  }

  /** Updating with the very number found, share 1, is always legal. */
  lemma OneHolds(r: Rc, total: nat)
    requires Safe(r) && 0 < total <= 0x1_0000
    ensures Holds(Cul(r, total).0, 1, Cul(r, total).1)
  {
    var (n, cf) := Cul(r, total);
    DivMod(n.low, n.help);
    DivMod(n.range, total);
    TimesAtLeast(total, n.help);
  }

  /** `range_decode_bits`: a number below `total` plus the remainder's share. */
  function Take(r: Rc, total: nat): (s: (Rc, nat))
    requires Safe(r) && 0 < total <= 0x1_0000
    ensures Safe(s.0) && s.0.data == r.data && s.1 <= total + 511
  {
    OneHolds(r, total);
    CulBound(r, total);
    var (n, v) := Cul(r, total);
    (Update(n, 1, v), v)
  }

  // ----- the encoder -----

  /** The encoder's interval [low, low + range) after `shifts` byte shifts, on unbounded numbers. */
  datatype Enc = Enc(low: nat, range: nat, shifts: nat)

  /** One coding step: share `sy` out of `total`, starting at `lt`. */
  datatype Op = Op(total: nat, sy: nat, lt: nat)

  predicate Legal(op: Op) {
    0 < op.total <= 0x1_0000 && op.sy > 0 && op.lt + op.sy <= op.total
  }

  predicate Running(e: Enc) {
    0 < e.range <= TOP_VALUE
  }

  function EncNormalize(e: Enc): (n: Enc)
    requires Running(e)
    ensures Running(n) && n.range > BOTTOM_VALUE && n.shifts >= e.shifts
    decreases TOP_VALUE - e.range
  {
    if e.range <= BOTTOM_VALUE then EncNormalize(Enc(e.low * 256, e.range * 256, e.shifts + 1)) else e
  }

  function Narrow(e: Enc, op: Op): (n: Enc)
    requires Running(e) && Legal(op)
    ensures Running(n) && n.shifts >= e.shifts
  {
    hide EncNormalize;
    var w := EncNormalize(e);
    ShareFits(w.range, op);
    Enc(w.low + Portion(w.range, op.total, op.lt), Portion(w.range, op.total, op.sy), w.shifts)
  }

  /** `amount` parts of the range, of which there are `total`. */
  function Portion(range: nat, total: nat, amount: nat): nat
    requires total > 0
  {
    range / total * amount
  }

  lemma ShareFits(range: nat, op: Op)
    requires BOTTOM_VALUE < range && Legal(op)
    ensures 0 < Portion(range, op.total, op.sy)
    ensures Portion(range, op.total, op.lt) + Portion(range, op.total, op.sy) <= range
  {
    var help := range / op.total;
    HelpPositive(range, op.total);
    DivMod(range, op.total);
    TimesMono(help, op.lt + op.sy, op.total);
    TimesPositive(help, op.sy);
    assert help * (op.lt + op.sy) == help * op.lt + help * op.sy;
    assert help * op.total == op.total * help;
  }

  predicate AllLegal(ops: seq<Op>) {
    forall i :: 0 <= i < |ops| ==> Legal(ops[i])
  }

  function NarrowAll(e: Enc, ops: seq<Op>): (n: Enc)
    requires Running(e) && AllLegal(ops)
    ensures Running(n) && n.shifts >= e.shifts
    decreases |ops|
  {
    hide Narrow, Legal, Running;
    if ops == [] then e else NarrowAll(Narrow(e, ops[0]), ops[1..])
  }

  lemma {:induction false} NarrowAllConcat(e: Enc, a: seq<Op>, b: seq<Op>)
    requires Running(e) && AllLegal(a) && AllLegal(b)
    ensures AllLegal(a + b) && NarrowAll(e, a + b) == NarrowAll(NarrowAll(e, a), b)
    decreases |a|
  {
    hide Narrow, Legal;
    if a == [] {
      assert a + b == b;
    } else {
      assert (a + b)[1..] == a[1..] + b;
      NarrowAllConcat(Narrow(e, a[0]), a[1..], b);
    }
  }

  /** The number formed by the first `n` bytes. */
  function Prefix(data: seq<byte>, n: nat): nat
    requires n <= |data|
  {
    if n == 0 then 0 else 256 * Prefix(data, n - 1) + data[n - 1]
  }

  /** The code number after `shifts` shifts: all bits read so far but the last. */
  function Code(data: seq<byte>, shifts: nat): nat
    requires shifts < |data|
  {
    Prefix(data, shifts + 1) / 2
  }

  /** The data lead into the interval. */
  predicate Leads(data: seq<byte>, e: Enc) {
    e.shifts < |data| && e.low <= Code(data, e.shifts) < e.low + e.range
  }

  /** The decoder, reading `data` from byte `from` on, is in step with the encoder. */
  ghost predicate Tracks(r: Rc, e: Enc, from: nat)
  {
    && Safe(r) && !r.error && Running(e)
    && from + e.shifts < |r.data| && r.ptr == from + e.shifts + 1
    && r.range == e.range
    && r.low + e.low == Code(r.data[from..], e.shifts)
    && r.buffer % 256 == r.data[from + e.shifts]
  }

  lemma CodeShifts(data: seq<byte>, k: nat)
    requires k + 1 < |data|
    ensures Code(data, k + 1) == 256 * Code(data, k) + data[k] % 2 * 128 + data[k + 1] / 2
    ensures Code(data, k + 1) / 256 == Code(data, k)
  {
    var p := Prefix(data, k);
    assert Prefix(data, k + 1) == 256 * p + data[k];
    assert Prefix(data, k + 2) == 256 * Prefix(data, k + 1) + data[k + 1];
  }

  lemma {:induction false} LeadsNormalized(data: seq<byte>, e: Enc)
    requires Running(e) && Leads(data, EncNormalize(e))
    ensures Leads(data, e)
    decreases TOP_VALUE - e.range
  {
    if e.range <= BOTTOM_VALUE {
      var f := Enc(e.low * 256, e.range * 256, e.shifts + 1);
      LeadsNormalized(data, f);
      CodeShifts(data, e.shifts);
    }
  }

  lemma LeadsNarrowed(data: seq<byte>, e: Enc, op: Op)
    requires Running(e) && Legal(op) && Leads(data, Narrow(e, op))
    ensures Leads(data, EncNormalize(e)) && Leads(data, e)
  {
    hide EncNormalize, Narrow, Prefix, Legal;
    NarrowInside(e, op);
    LeadsNormalized(data, e);
  }

  lemma NarrowInside(e: Enc, op: Op)
    requires Running(e) && Legal(op)
    ensures var w, n := EncNormalize(e), Narrow(e, op);
      w.low <= n.low && n.low + n.range <= w.low + w.range && n.shifts == w.shifts
  {
    hide EncNormalize, Portion;
    ShareFits(EncNormalize(e).range, op);
  }

  lemma {:induction false} LeadsAll(data: seq<byte>, e: Enc, ops: seq<Op>)
    requires Running(e) && AllLegal(ops) && Leads(data, NarrowAll(e, ops))
    ensures Leads(data, e)
    decreases |ops|
  {
    hide Narrow, Legal, Leads;
    if ops != [] {
      LeadsAll(data, Narrow(e, ops[0]), ops[1..]);
      LeadsNarrowed(data, e, ops[0]);
    }
  }

  lemma {:induction false} NormalizeTracks(r: Rc, e: Enc, from: nat)
    requires Tracks(r, e, from) && Leads(r.data[from..], EncNormalize(e))
    ensures Tracks(Normalize(r), EncNormalize(e), from)
    decreases TOP_VALUE - e.range
  {
    if e.range <= BOTTOM_VALUE {
      var f := Enc(e.low * 256, e.range * 256, e.shifts + 1);
      var d := r.data[from..];
      LeadsNormalized(d, f);
      CodeShifts(d, e.shifts);
      ShiftedBuffer(r.buffer, d[e.shifts], d[e.shifts + 1]);
      NormalizeTracks(Shift(r), f, from);
    }
  }

  lemma ShiftedBuffer(buffer: nat, last: byte, next: byte)
    requires buffer % 256 == last
    ensures var b := Unsigned32(buffer * 256) + next;
      b % 256 == next && b / 2 % 256 == last % 2 * 128 + next / 2
  {
    hide Unsigned32;
    ByteShift(buffer);
    var m := buffer % 0x100_0000;
    LowBit(buffer);
    Halves(m, next);
  }

  lemma LowBit(buffer: nat)
    ensures buffer % 0x100_0000 % 2 == buffer % 256 % 2
  {
    var m := buffer % 0x100_0000;
    DivMod(buffer, 0x100_0000);
    DivMod(m, 256);
    DivModUnique(buffer, 256, 0x1_0000 * (buffer / 0x100_0000) + m / 256, m % 256);
    ByteParity(m);
  }

  lemma ByteParity(m: nat)
    ensures m % 2 == m % 256 % 2
  {
    var a, b := m / 256, m % 256;
    assert m == 256 * a + b;
    DivModUnique(m, 2, 128 * a + b / 2, b % 2);
  }

  lemma ByteShift(buffer: nat)
    ensures Unsigned32(buffer * 256) == 256 * (buffer % 0x100_0000)
  {
    DivMod(buffer, 0x100_0000);
    DivModUnique(buffer * 256, TWO32, buffer / 0x100_0000, 256 * (buffer % 0x100_0000));
  }

  lemma Halves(m: nat, next: byte)
    ensures (256 * m + next) % 256 == next && (256 * m + next) / 2 % 256 == m % 2 * 128 + next / 2
  {
    DivModUnique(256 * m + next, 256, m, next);
    var h := m / 2;
    assert m == 2 * h + m % 2;
    assert (256 * m + next) / 2 == 256 * h + (m % 2 * 128 + next / 2);
    DivModUnique(256 * h + (m % 2 * 128 + next / 2), 256, h, m % 2 * 128 + next / 2);
  }

  /** A decoding step finds a number inside the encoded share and stays in step. */
  lemma StepTracks(r: Rc, e: Enc, from: nat, op: Op)
    requires Tracks(r, e, from) && Legal(op) && Leads(r.data[from..], Narrow(e, op))
    ensures var (n, cf) := Cul(r, op.total);
      && op.lt <= cf < op.lt + op.sy && Holds(n, op.sy, op.lt)
      && Tracks(Update(n, op.sy, op.lt), Narrow(e, op), from)
  {
    hide EncNormalize, Normalize, Code;
    LeadsNarrowed(r.data[from..], e, op);
    NormalizeTracks(r, e, from);
    var (n, cf) := Cul(r, op.total);
    var w := EncNormalize(e);
    ShareFits(w.range, op);
    InShare(n.low, n.help, op.lt, op.sy);
  }

  lemma InShare(low: nat, help: nat, lt: nat, sy: nat)
    requires help > 0 && help * lt <= low < help * lt + help * sy
    ensures lt <= low / help < lt + sy
  {
    DivMod(low, help);
    var q := low / help;
    assert help * lt <= help * q + low % help;
    assert help * (lt - q) < help;
    Below(help, lt - q, 1);
    assert help * (q - (lt + sy)) < 0 by {
      assert help * (lt + sy) == help * lt + help * sy;
    }
    Below(help, q - (lt + sy), 0);
  }

  lemma Below(a: nat, x: int, y: int)
    requires a > 0 && a * x < a * y
    ensures x < y
  {
  }
}
