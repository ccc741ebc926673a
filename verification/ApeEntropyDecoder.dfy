/** The entropy decoder as the program runs it: one record whose fields every operation updates.
    Each method is shown to do what its counterpart on values does. */
module ApeEntropyDecoder {
  import opened Bits
  import opened ApeWords
  import R = ApeRange
  import E = ApeEntropy
  import C = ApeCoding

  /** `riceX` and `riceY`. */
  class AdaptiveRice {
    var k: nat
    var ksum: nat

    ghost function State(): (r: E.Rice)
      reads this
    {
      E.Rice(k, ksum)
    }

    constructor ()
      ensures fresh(this) && State() == E.Rice(0, 0)
    {
      k, ksum := 0, 0;
    }

    method Reset()
      modifies this
      ensures State() == E.START
    {
      k := 10;
      ksum := 1024 * 16;
    }

    /** `update_rice` */
    method Update(x: nat)
      requires E.RiceOk(State())
      modifies this
      ensures State() == E.UpdateRice(old(State()), x) && E.RiceOk(State())
    {
      var lim := if k > 0 then Pow2(k + 4) else 0;
      ksum := Unsigned32(ksum + Unsigned32(x + 1) / 2 - Unsigned32(ksum + 16) / 32);
      if ksum < lim {
        k := k - 1;
      } else if ksum >= Pow2(k + 5) && k < 24 {
        k := k + 1;
      }
    }
  }

  class EntropyDecoder {
    var data: seq<byte>
    var ptr: nat
    var low: nat
    var range: nat
    var help: nat
    var buffer: nat
    var error: bool
    const riceX: AdaptiveRice
    const riceY: AdaptiveRice

    ghost function Coder(): (r: R.Rc)
      reads this
    {
      R.Rc(data, ptr, low, range, help, buffer, error)
    }

    ghost predicate Running()
      reads this
    {
      R.Safe(Coder())
    }

    ghost predicate Valid()
      reads this, riceX, riceY
    {
      Running() && riceX != riceY && E.RiceOk(riceX.State()) && E.RiceOk(riceY.State())
    }

    ghost function State(): (s: C.Entropy)
      reads this, riceX, riceY
    {
      C.Entropy(Coder(), riceY.State(), riceX.State())
    }

    constructor ()
      ensures riceX != riceY && fresh(riceX) && fresh(riceY)
    {
      data, ptr, low, range, help, buffer, error := [], 0, 0, 0, 0, 0, false;
      riceX := new AdaptiveRice();
      riceY := new AdaptiveRice();
    }

    /** `range_start_decoding` */
    method Begin()
      requires ptr < |data|
      modifies this
      ensures Coder() == R.Begin(old(data), old(ptr)).(help := old(help), error := old(error))
    {
      buffer := data[ptr];
      ptr := ptr + 1;
      low := buffer / 2;
      range := 128;
    }

    /** `range_dec_normalize` */
    method Normalize()
      requires Running()
      modifies this
      ensures Coder() == R.Normalize(old(Coder())) && Running()
    {
      hide R.Shift, R.Normalize;
      while range <= R.BOTTOM_VALUE
        invariant Running()
        invariant R.Normalize(Coder()) == R.Normalize(old(Coder()))
        decreases R.TOP_VALUE - range
      {
        ghost var before := Coder();
        NormalizeMore(before);
        buffer := Unsigned32(buffer * 256);
        var b: byte := 0;
        if ptr < |data| {
          b := data[ptr];
          ptr := ptr + 1;
        } else {
          error := true;
        }
        ShiftIs(before, b);
        buffer := buffer + b;
        low := low * 256 + buffer / 2 % 256;
        range := range * 256;
      }
      NormalizeMore(Coder());
    }

    /** `range_decode_culfreq`; `range_decode_culshift` is the same with a power of two. */
    method CulFreq(total: nat) returns (cf: nat)
      requires Running() && 0 < total <= 0x1_0000
      modifies this
      ensures (Coder(), cf) == R.Cul(old(Coder()), total) && Running()
    {
      hide R.Normalize;
      Normalize();
      R.HelpPositive(range, total);
      help := range / total;
      cf := low / help;
    }

    /** `range_decode_update` */
    method Update(sy: nat, lt: nat)
      requires Running() && R.Holds(Coder(), sy, lt)
      modifies this
      ensures Coder() == R.Update(old(Coder()), sy, lt) && Running()
    {
      R.TimesPositive(help, sy);
      low := low - help * lt;
      range := help * sy;
    }

    /** `range_decode_bits`, and the two calls in a row that `ape_decode_value_3990` makes. */
    method Take(total: nat) returns (v: nat)
      requires Running() && 0 < total <= 0x1_0000
      modifies this
      ensures (Coder(), v) == R.Take(old(Coder()), total) && Running() && v <= total + 511
    {
      hide R.Cul, R.Update;
      R.OneHolds(Coder(), total);
      R.CulBound(Coder(), total);
      v := CulFreq(total);
      Update(1, v);
    }

    /** `range_get_symbol` */
    method GetSymbol(f: E.Format) returns (symbol: nat)
      requires Running()
      modifies this
      ensures (Coder(), symbol) == E.GetSymbol(old(Coder()), f) && Running()
    {
      hide R.Cul, R.Update, E.Counts, E.Diff;
      E.Tables(f);
      ghost var before := Coder();
      var cf := CulFreq(0x1_0000);
      if cf > 65492 {
        symbol := cf - 65472;
        R.OneHolds(before, 0x1_0000);
        Update(1, cf);
        if cf > 65535 {
          error := true;
        }
        return;
      }
      symbol := 0;
      while E.Counts(f)[symbol + 1] <= cf
        invariant symbol <= 20 && E.Counts(f)[symbol] <= cf
        invariant E.FindSymbol(E.Counts(f), cf, symbol) == E.FindSymbol(E.Counts(f), cf, 0)
        decreases 20 - symbol
      {
        symbol := symbol + 1;
      }
      E.CountsMono(f, symbol + 1, 21);
      E.ShareHolds(before, E.Diff(f)[symbol], E.Counts(f)[symbol]);
      Update(E.Diff(f)[symbol], E.Counts(f)[symbol]);
    }

    /** `ape_decode_value_3900` */
    method Value3900(rice: AdaptiveRice) returns (v: int)
      requires Running() && E.RiceOk(rice.State())
      modifies this, rice
      ensures (Coder(), rice.State(), v) == E.Value3900(old(Coder()), old(rice.State()))
      ensures Running() && E.RiceOk(rice.State())
    {
      hide E.GetSymbol, R.Take, E.UpdateRice, E.ToSigned, E.LowPart, Pow2;
      var overflow := GetSymbol(E.Before3990);
      var tmpk;
      if overflow == 63 {
        tmpk := Take(32);
        overflow := 0;
      } else {
        tmpk := if rice.k < 1 then 0 else rice.k - 1;
      }
      if tmpk > 31 {
        error := true;
        return 0;
      }
      var x := LowPart(tmpk);
      x := Unsigned32(x + Unsigned32(overflow * Pow2(tmpk)));
      rice.Update(x);
      v := E.ToSigned(x);
    }

    method LowPart(bits: nat) returns (x: nat)
      requires Running() && bits <= 31
      modifies this
      ensures (Coder(), x) == E.LowPart(old(Coder()), bits) && Running()
    {
      hide R.Take, Pow2, E.Combine;
      C.BitCounts(bits);
      if bits <= 16 {
        x := Take(Pow2(bits));
      } else {
        x := Take(0x1_0000);
        var high := Take(Pow2(bits - 16));
        x := E.Combine(high, x);
      }
    }

    /** `ape_decode_value_3990` */
    method Value3990(rice: AdaptiveRice) returns (v: int)
      requires Running() && E.RiceOk(rice.State())
      modifies this, rice
      ensures (Coder(), rice.State(), v) == E.Value3990(old(Coder()), old(rice.State()))
      ensures Running() && E.RiceOk(rice.State())
    {
      hide E.GetSymbol, R.Take, E.UpdateRice, E.ToSigned, E.Base, E.Combine;
      var pivot := rice.ksum / 32;
      if pivot < 1 {
        pivot := 1;
      }
      var overflow := GetSymbol(E.From3990);
      if overflow == 63 {
        var high := Take(0x1_0000);
        var low := Take(0x1_0000);
        overflow := E.Combine(high, low);
      }
      var base := Base(pivot);
      var x := Unsigned32(base + overflow * pivot);
      rice.Update(x);
      v := E.ToSigned(x);
    }

    method Base(pivot: nat) returns (base: nat)
      requires Running() && 1 <= pivot < TWO32
      modifies this
      ensures (Coder(), base) == E.Base(old(Coder()), pivot) && Running()
    {
      hide R.Take, Pow2;
      if pivot < 0x1_0000 {
        base := Take(pivot);
      } else {
        var high, bits := Halve(pivot);
        E.ReduceBits(pivot);
        high := Take(high + 1);
        var low := Take(Pow2(bits));
        base := high * Pow2(bits) + low;
      }
    }

    /** The loop that shortens a large pivot to 16 bits. */
    static method Halve(pivot: nat) returns (high: nat, bits: nat)
      requires pivot < TWO32
      ensures (high, bits) == E.Reduce(pivot)
    {
      high, bits := pivot, 0;
      while high >= 0x1_0000
        invariant high <= pivot
        invariant E.Reduce(pivot) == (E.Reduce(high).0, E.Reduce(high).1 + bits)
      {
        high := high / 2;
        bits := bits + 1;
      }
    }

    method Value(f: E.Format, rice: AdaptiveRice) returns (v: int)
      requires Running() && E.RiceOk(rice.State())
      modifies this, rice
      ensures (Coder(), rice.State(), v) == E.Value(f, old(Coder()), old(rice.State()))
      ensures Running() && E.RiceOk(rice.State())
    {
      if f.Before3990? {
        v := Value3900(rice);
      } else {
        v := Value3990(rice);
      }
    }

    /** `entropy_decode_stereo_3930` and `entropy_decode_stereo_3990` */
    method DecodeStereo(f: E.Format, decoded0: array<int>, decoded1: array<int>, count: nat)
      requires Valid() && decoded0 != decoded1 && count <= decoded0.Length && count <= decoded1.Length
      modifies this, riceX, riceY, decoded0, decoded1
      ensures Valid()
      ensures State() == C.Pairs(f, old(State()), count).0
      ensures Zip(decoded0[..count], decoded1[..count]) == C.Pairs(f, old(State()), count).1
      ensures decoded0[count..] == old(decoded0[count..]) && decoded1[count..] == old(decoded1[count..])
    {
      hide E.Value, C.Pairs;
      for i := 0 to count
        invariant Valid()
        invariant decoded0[count..] == old(decoded0[count..]) && decoded1[count..] == old(decoded1[count..])
        invariant C.Pairs(f, old(State()), count).0 == C.Pairs(f, State(), count - i).0
        invariant C.Pairs(f, old(State()), count).1
          == Zip(decoded0[..i], decoded1[..i]) + C.Pairs(f, State(), count - i).1
      {
        ghost var s, out := State(), Zip(decoded0[..i], decoded1[..i]);
        decoded0[i] := Value(f, riceY);
        decoded1[i] := Value(f, riceX);
        NextPair(f, s, count - i);
        assert Zip(decoded0[..i + 1], decoded1[..i + 1]) == out + [(decoded0[i], decoded1[i])];
      }
      NoPairsLeft(f, State());
    }

    /** `entropy_decode_mono_3900` and `entropy_decode_mono_3990` */
    method DecodeMono(f: E.Format, decoded0: array<int>, count: nat)
      requires Valid() && count <= decoded0.Length
      modifies this, riceY, decoded0
      ensures Valid()
      ensures (Coder(), decoded0[..count]) == C.Singles(f, old(Coder()), old(riceY.State()), count)
      ensures decoded0[count..] == old(decoded0[count..])
    {
      hide E.Value, C.Singles;
      for i := 0 to count
        invariant Valid() && decoded0[count..] == old(decoded0[count..])
        invariant C.Singles(f, old(Coder()), old(riceY.State()), count).0
          == C.Singles(f, Coder(), riceY.State(), count - i).0
        invariant C.Singles(f, old(Coder()), old(riceY.State()), count).1
          == decoded0[..i] + C.Singles(f, Coder(), riceY.State(), count - i).1
      {
        ghost var r, y, out := Coder(), riceY.State(), decoded0[..i];
        decoded0[i] := Value(f, riceY);
        NextSingle(f, r, y, count - i);
        assert decoded0[..i + 1] == out + [decoded0[i]];
      }
      NoSinglesLeft(f, Coder(), riceY.State());
      assert decoded0[..count] + [] == decoded0[..count];
    }
  }

  lemma NormalizeMore(r: R.Rc)
    requires R.Safe(r)
    ensures R.Normalize(r) == if r.range <= R.BOTTOM_VALUE then R.Normalize(R.Shift(r)) else r
  {
  }

  lemma ShiftIs(r: R.Rc, b: byte)
    requires R.Safe(r) && r.range <= R.BOTTOM_VALUE
    requires b == if r.ptr < |r.data| then r.data[r.ptr] else 0
    ensures var buffer := Unsigned32(r.buffer * 256) + b;
      R.Shift(r) == R.Rc(r.data, if r.ptr < |r.data| then r.ptr + 1 else r.ptr,
        r.low * 256 + buffer / 2 % 256, r.range * 256, r.help, buffer, r.error || r.ptr >= |r.data|)
  {
  }

  lemma NextPair(f: E.Format, s: C.Entropy, n: nat)
    requires C.EntropyOk(s) && n > 0
    ensures var (r1, y, d0) := E.Value(f, s.rc, s.y);
      var (r2, x, d1) := E.Value(f, r1, s.x);
      var rest := C.Pairs(f, C.Entropy(r2, y, x), n - 1);
      C.Pairs(f, s, n) == (rest.0, [(d0, d1)] + rest.1)
  {
    hide E.Value;
  }

  lemma NoPairsLeft(f: E.Format, s: C.Entropy)
    requires C.EntropyOk(s)
    ensures C.Pairs(f, s, 0) == (s, [])
  {
  }

  lemma NoSinglesLeft(f: E.Format, r: R.Rc, rice: E.Rice)
    requires R.Safe(r) && E.RiceOk(rice)
    ensures C.Singles(f, r, rice, 0) == (r, [])
  {
  }

  lemma NextSingle(f: E.Format, r: R.Rc, rice: E.Rice, n: nat)
    requires R.Safe(r) && E.RiceOk(rice) && n > 0
    ensures var (r1, y, d) := E.Value(f, r, rice);
      var rest := C.Singles(f, r1, y, n - 1);
      C.Singles(f, r, rice, n) == (rest.0, [d] + rest.1)
  {
    hide E.Value;
  }
}
