/** `decode_physical_frame` on the decoder's own storage: whatever the previous frame left in the
    range coder, the filters, the predictor and the sample arrays, the outcome is the function
    `DecodeFrame` of this frame's bytes. */
module ApeFrameDecoder {
  import opened Bits
  import opened Options
  import opened ApeWords
  import opened Integers
  import opened ApeFrame
  import opened ApeLossless
  import B = ApeFilterBank
  import C = ApeCoding
  import D = ApeEntropyDecoder
  import E = ApeEntropy
  import P = ApePredictor
  import Q = ApePredictorBuffer
  import R = ApeRange

  // ----- the sample buffer -----

  /** Both channels share one allocation, the second channel's part after the first one's; its parts
      are rounded up to eight samples, in 32 bits. */
  function Part(blocks: nat): (n: nat) {
    Unsigned32(blocks + 7) / 8 * 8
  }

  /** Where sample `k` of channel `c` is written. */
  function Place(blocks: nat, c: nat, k: nat): (p: nat) {
    c * Part(blocks) + k
  }

  /** How far channel `c` may go: to where the next channel's samples begin, or to the end. */
  function PartEnd(channels: nat, blocks: nat, c: nat): (e: nat) {
    if c + 1 < channels then (c + 1) * Part(blocks) else 2 * Part(blocks)
  }

  /** The room of a channel: a mono file has both parts. */
  function Room(channels: nat, blocks: nat): (n: nat) {
    if channels == 1 then 2 * Part(blocks) else Part(blocks)
  }

  /** The count that the decoding loops get is an `int`. */
  predicate FitsRoom(channels: nat, blocks: nat, n: nat) {
    n <= 0x7FFF_FFFF && n <= Room(channels, blocks)
  }

  /** Every write of a frame of `n` blocks goes to its own channel's part, and the count is one that the
      loops can run through, if and only if the frame is no longer than an `int` and the room. */
  lemma FitsIffInside(channels: nat, blocks: nat, n: nat)
    requires (channels == 1 || channels == 2) && n < TWO32
    ensures FitsRoom(channels, blocks, n) <==>
      Wrap32(n) >= 0 && forall c: nat, k: nat :: c < channels && k < n ==>
        Place(blocks, c, k) < PartEnd(channels, blocks, c)
  {
    hide Part;
    if n > 0 && n > Room(channels, blocks) {
      assert Place(blocks, 0, n - 1) >= PartEnd(channels, blocks, 0);
    }
  }

  class FrameDecoder {
    const params: Params
    const entropy: D.EntropyDecoder
    const predictor: Q.Predictor
    const filters: B.FilterBank
    const swapbuf: array<byte>
    const decoded0: array<int>
    const decoded1: array<int>
    var frameflags: nat

    ghost function EntropyParts(): set<object> {
      {entropy, entropy.riceX, entropy.riceY}
    }

    ghost function PredictorParts(): set<object> {
      {predictor, predictor.historybuffer}
    }

    ghost function Samples(): set<object> {
      {decoded0, decoded1}
    }

    ghost function Repr(): set<object> {
      {this, swapbuf} + EntropyParts() + PredictorParts() + filters.Repr + Samples()
    }

    /** The parts exist and are kept apart. */
    ghost predicate Valid()
      reads Repr()
    {
      && Supported(params) && filters.fset == params.fset
      && filters.Allocated() && predictor.Allocated() && entropy.riceX != entropy.riceY
      && decoded0 != decoded1 && decoded0.Length == decoded1.Length
      && this !in EntropyParts() + PredictorParts() + filters.Repr + Samples() + {swapbuf}
      && swapbuf !in EntropyParts() + PredictorParts() + filters.Repr + Samples()
      && EntropyParts() !! PredictorParts() + filters.Repr + Samples()
      && PredictorParts() !! filters.Repr + Samples()
      && filters.Repr !! Samples()
    }

    /** The buffers of a file with `blocks` blocks to a frame. */
    constructor (params: Params, blocks: nat)
      requires Supported(params)
      ensures Valid() && fresh(Repr()) && this.params == params
      ensures decoded0.Length == Room(params.channels, blocks) && swapbuf.Length == Unsigned32(blocks * 8 + 64)
    {
      hide Room;
      this.params := params;
      entropy := new D.EntropyDecoder();
      predictor := new Q.Predictor();
      filters := new B.FilterBank(params.fset);
      swapbuf := new byte[Unsigned32(blocks * 8 + 64)];
      decoded0, decoded1 := new int[Room(params.channels, blocks)], new int[Room(params.channels, blocks)];
      frameflags := 0;
    }

    /** The samples of the frame just decoded; a mono file has no second channel. */
    ghost predicate Holds(out: seq<(int, int)>)
      reads decoded0, decoded1
    {
      && |out| <= decoded0.Length && |out| <= decoded1.Length
      && decoded0[..|out|] == Firsts(out)
      && (params.channels == 2 ==> decoded1[..|out|] == Seconds(out))
    }

    /** What the sample buffers hold. */
    ghost function Buffers(): (b: (seq<int>, seq<int>))
      reads decoded0, decoded1
    {
      (decoded0[..], decoded1[..])
    }

    /** The bytes read from the file, swapped in place word by word. */
    method Load(raw: seq<byte>)
      requires Valid() && |raw| <= swapbuf.Length
      modifies swapbuf
      ensures Valid() && swapbuf[..|raw|] == SwapWords(raw)
    {
      hide SwapWords;
      for i := 0 to |raw|
        modifies swapbuf
        invariant swapbuf[..i] == raw[..i]
      {
        swapbuf[i] := raw[i];
      }
      SwapBuffer(|raw|, raw);
    }

    method SwapBuffer(rawSize: nat, ghost raw: seq<byte>)
      requires rawSize == |raw| <= swapbuf.Length && swapbuf[..|raw|] == raw
      modifies swapbuf
      ensures swapbuf[..|raw|] == SwapWords(raw)
    {
      hide Swapped;
      for i := 0 to rawSize / 4
        invariant forall j :: 0 <= j < 4 * i ==> swapbuf[j] == raw[Swapped(j, |raw|)]
        invariant forall j :: 4 * i <= j < |raw| ==> swapbuf[j] == raw[j]
      {
        var at := 4 * i;
        SwappedWord(at, rawSize);
        swapbuf[at], swapbuf[at + 1], swapbuf[at + 2], swapbuf[at + 3] :=
          swapbuf[at + 3], swapbuf[at + 2], swapbuf[at + 1], swapbuf[at];
      }
      SwappedRest(|raw|);
    }

    /** `init_entropy_decoder` */
    method InitEntropy() returns (ok: bool)
      requires Valid() && entropy.ptr <= |entropy.data|
      modifies this`frameflags, EntropyParts()
      ensures Valid() && entropy.data == old(entropy.data)
      ensures var h := ReadHeader(old(entropy.data), old(entropy.ptr));
        && ok == h.Some?
        && (ok ==> frameflags == h.value.flags)
        && (ok ==> entropy.riceX.State() == E.START && entropy.riceY.State() == E.START)
        && (ok ==> entropy.Coder() == R.Begin(entropy.data, h.value.start).(
          help := old(entropy.help), error := old(entropy.error)))
    {
      if |entropy.data| - entropy.ptr < 6 {
        return false;
      }
      var crc := Word(entropy.data, entropy.ptr);
      entropy.ptr := entropy.ptr + 4;
      frameflags := 0;
      if crc >= 0x8000_0000 {
        if |entropy.data| - entropy.ptr < 6 {
          return false;
        }
        frameflags := Word(entropy.data, entropy.ptr);
        entropy.ptr := entropy.ptr + 4;
      }
      entropy.riceX.Reset();
      entropy.riceY.Reset();
      entropy.ptr := entropy.ptr + 1;
      entropy.Begin();
      return true;
    }

    /** `ape_unpack_mono` */
    method UnpackMono(count: nat)
      requires Valid() && count <= decoded0.Length
      requires entropy.Valid() && !entropy.error && entropy.riceY.State() == E.START
      requires predictor.Valid() && predictor.y == P.Start() && filters.Cleared(0, |filters.filters|)
      modifies Repr()
      ensures Valid()
      ensures var s := ApeFrame.UnpackMono(params, old(entropy.Coder()), old(frameflags), count);
        !entropy.error == s.Some? && (s.Some? ==> Holds(s.value))
      ensures entropy.error ==>
        Buffers() == Spoiled(One(C.Singles(params.format, old(entropy.Coder()), E.START, count).1), old(Buffers()))
    {
      hide C.Singles, Cascade, P.MonoRun, R.Safe, E.RiceOk;
      if frameflags % 4 != 0 {
        Clear(decoded0, count);
        if params.channels == 2 {
          Clear(decoded1, count);
        }
        return;
      }
      ghost var r := entropy.Coder();
      ghost var was := Buffers();
      entropy.DecodeMono(params.format, decoded0, count);
      if entropy.error {
        assert decoded0[..] == decoded0[..count] + decoded0[count..];
        assert was.0[count..] == old(decoded0[count..]);
        return;
      }
      filters.ApplyMono(decoded0, count);
      predictor.DecodeMono(decoded0, count);
      if params.channels == 2 {
        for i := 0 to count
          modifies decoded1
          invariant decoded1[..i] == decoded0[..i]
        {
          decoded1[i] := decoded0[i];
        }
      }
    }

    /** `ape_unpack_stereo` */
    method UnpackStereo(count: nat)
      requires Valid() && count <= decoded0.Length
      requires entropy.Valid() && !entropy.error
      requires entropy.riceX.State() == E.START && entropy.riceY.State() == E.START
      requires predictor.Valid() && predictor.y == predictor.x == P.Start() && filters.Cleared(0, |filters.filters|)
      modifies Repr()
      ensures Valid()
      ensures var s := ApeFrame.UnpackStereo(params, old(entropy.Coder()), old(frameflags), count);
        !entropy.error == s.Some? && (s.Some? ==> Holds(s.value))
      ensures var ds := C.Pairs(params.format, C.Entropy(old(entropy.Coder()), E.START, E.START), count).1;
        entropy.error ==> Buffers() == Spoiled(Two(ds), old(Buffers()))
    {
      hide C.Pairs, Cascade, P.Run, R.Safe, E.RiceOk;
      if frameflags % 4 == 3 {
        Clear(decoded0, count);
        Clear(decoded1, count);
        return;
      }
      ghost var was := Buffers();
      entropy.DecodeStereo(params.format, decoded0, decoded1, count);
      if entropy.error {
        assert decoded0[..] == decoded0[..count] + decoded0[count..];
        assert decoded1[..] == decoded1[..count] + decoded1[count..];
        assert was.0[count..] == old(decoded0[count..]) && was.1[count..] == old(decoded1[count..]);
        return;
      }
      filters.ApplyStereo(decoded0, decoded1, count);
      predictor.DecodeStereo(decoded0, decoded1, count);
      Recombine(count);
    }

    /** The loop that turns differences and means into left and right. */
    method Recombine(count: nat)
      requires Valid() && count <= decoded0.Length
      modifies decoded0, decoded1
      ensures Zip(decoded0[..count], decoded1[..count])
        == RecombineAll(old(Zip(decoded0[..count], decoded1[..count])))
    {
      hide Wrap32, TruncDiv;
      for i := 0 to count
        invariant forall j :: 0 <= j < i ==>
          (decoded0[j], decoded1[j]) == ApeLossless.Recombine((old(decoded0[j]), old(decoded1[j])))
        invariant forall j :: i <= j < count ==> decoded0[j] == old(decoded0[j]) && decoded1[j] == old(decoded1[j])
      {
        var left := Wrap32(decoded1[i] - TruncDiv(decoded0[i], 2));
        var right := Wrap32(left + decoded0[i]);
        decoded0[i], decoded1[i] := left, right;
      }
    }

    /** `init_frame_decoder` */
    method InitFrame() returns (ok: bool)
      requires Valid() && entropy.ptr <= |entropy.data|
      modifies Repr()
      ensures Valid() && entropy.data == old(entropy.data)
      ensures var h := ReadHeader(old(entropy.data), old(entropy.ptr));
        && ok == h.Some?
        && (ok ==> frameflags == h.value.flags && Ready())
        && (ok ==> entropy.Coder() == R.Begin(entropy.data, h.value.start).(
          help := old(entropy.help), error := old(entropy.error)))
      ensures Buffers() == old(Buffers())
    {
      hide R.Begin, ReadHeader;
      ok := InitEntropy();
      if ok {
        predictor.Init();
        filters.Init();
      }
    }

    /** Everything a frame's decoding starts from, but for the range coder. */
    ghost predicate Ready()
      requires Valid()
      reads Repr()
    {
      && entropy.riceX.State() == E.START && entropy.riceY.State() == E.START
      && predictor.Valid() && predictor.y == predictor.x == P.Start()
      && filters.Cleared(0, |filters.filters|)
    }

    /** The choice between mono and stereo, once the frame is ready. */
    method Unpack(nblocks: nat)
      requires Valid() && Ready() && R.Safe(entropy.Coder()) && nblocks <= decoded0.Length
      modifies Repr()
      ensures Valid()
      ensures var r := old(entropy.Coder()).(error := false);
        var s := ApeFrame.Unpack(params, r, old(frameflags), nblocks);
        && !entropy.error == s.Some? && (s.Some? ==> Holds(s.value))
        && (entropy.error ==> Buffers() == Spoiled(Coded(params, r, old(frameflags), nblocks), old(Buffers())))
    {
      hide ApeFrame.UnpackMono, ApeFrame.UnpackStereo;
      entropy.error := false;
      assert entropy.Valid() by {
        assert E.RiceOk(E.START);
      }
      if params.channels == 1 || frameflags / 4 % 2 == 1 {
        UnpackMono(nblocks);
      } else {
        UnpackStereo(nblocks);
      }
    }

    /** `decode_physical_frame`, on the bytes of the frame. */
    method Decode(raw: seq<byte>, skip: nat, nblocks: nat) returns (ok: bool)
      requires Valid() && |raw| <= swapbuf.Length && nblocks <= decoded0.Length
      modifies Repr()
      ensures Valid()
      ensures var s := DecodeFrame(params, raw, skip, nblocks);
        && ok == s.Some? && (s.Some? ==> Holds(s.value))
        && (!ok ==> Buffers() == Spoiled(Left(params, raw, skip, nblocks), old(Buffers())))
    {
      hide ApeFrame.Unpack, Coded, ReadHeader, Ready, SwapWords;
      Load(raw);
      entropy.data, entropy.ptr := swapbuf[..|raw|], 0;
      if skip > 3 || |raw| < skip {
        return false;
      }
      entropy.ptr := entropy.ptr + skip;
      ok := InitFrame();
      if ok {
        HelpIrrelevant(params, R.Begin(entropy.data, ReadHeader(entropy.data, skip).value.start),
          frameflags, nblocks, entropy.help);
        Unpack(nblocks);
        ok := !entropy.error;
      }
    }

    method Clear(a: array<int>, count: nat)
      requires count <= a.Length
      modifies a
      ensures forall i :: 0 <= i < count ==> a[i] == 0
    {
      for i := 0 to count
        modifies a
        invariant forall j :: 0 <= j < i ==> a[j] == 0
      {
        a[i] := 0;
      }
    }
  }

  lemma SwappedWord(at: nat, n: nat)
    requires at % 4 == 0 && at + 4 <= n
    ensures Swapped(at, n) == at + 3 && Swapped(at + 1, n) == at + 2
    ensures Swapped(at + 2, n) == at + 1 && Swapped(at + 3, n) == at
  {
    var k := at / 4;
    assert at == 4 * k && at + 4 <= n / 4 * 4;
    assert (at + 1) / 4 == k && (at + 2) / 4 == k && (at + 3) / 4 == k;
  }

  lemma SwappedRest(n: nat)
    ensures forall i :: n / 4 * 4 <= i < n ==> Swapped(i, n) == i
  {
  }

  // ----- the divisor left over from the previous frame does not matter -----

  lemma {:induction false} NormalizeHelp(r: R.Rc, help: nat)
    requires R.Safe(r)
    ensures R.Normalize(r.(help := help)) == R.Normalize(r).(help := help)
    decreases R.TOP_VALUE - r.range
  {
    hide R.Shift;
    if r.range <= R.BOTTOM_VALUE {
      assert R.Shift(r.(help := help)) == R.Shift(r).(help := help) by {
        ShiftHelp(r, help);
      }
      NormalizeHelp(R.Shift(r), help);
    }
  }

  lemma ShiftHelp(r: R.Rc, help: nat)
    requires R.Safe(r) && r.range <= R.BOTTOM_VALUE
    ensures R.Shift(r.(help := help)) == R.Shift(r).(help := help)
  {
  }

  /** The first division replaces it. */
  lemma ValueHelp(f: E.Format, r: R.Rc, rice: E.Rice, help: nat)
    requires R.Safe(r) && E.RiceOk(rice)
    ensures R.Safe(r.(help := help)) && E.Value(f, r.(help := help), rice) == E.Value(f, r, rice)
  {
    hide R.Normalize, R.Take, E.UpdateRice, E.ToSigned, E.Base, E.Combine, E.LowPart, Pow2;
    NormalizeHelp(r, help);
    assert R.Cul(r.(help := help), 0x1_0000) == R.Cul(r, 0x1_0000);
    GetSymbolHelp(f, r, help);
  }

  lemma GetSymbolHelp(f: E.Format, r: R.Rc, help: nat)
    requires R.Safe(r) && R.Safe(r.(help := help)) && R.Cul(r.(help := help), 0x1_0000) == R.Cul(r, 0x1_0000)
    ensures E.GetSymbol(r.(help := help), f) == E.GetSymbol(r, f)
  {
    hide R.Cul, E.Counts, E.Diff;
  }

  lemma HelpIrrelevant(p: Params, r: R.Rc, flags: nat, n: nat, help: nat)
    requires Supported(p) && R.Safe(r)
    ensures var h := r.(help := help);
      R.Safe(h) && Unpack(p, h, flags, n) == Unpack(p, r, flags, n) && Coded(p, h, flags, n) == Coded(p, r, flags, n)
  {
    hide E.Value, MonoSamples, StereoSamples;
    ValueHelp(p.format, r, E.START, help);
  }
}
