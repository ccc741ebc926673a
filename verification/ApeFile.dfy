/** Files that hold a given recording: the coder's output is bounded, so that a frame table with room
    enough for it can be laid out. */
module ApeFile {
  import opened Bits
  import opened Options
  import opened ApeWords
  import opened ApeRange
  import opened ApeEntropy
  import opened ApeCoding
  import opened ApeLossless
  import opened ApeBounds
  import opened ApeFrame
  import opened ApeFrameDecoder
  import opened ApeDecoder
  import D = ApeDemux

  // ----- how long an encoding is -----

  /** Three bytes bring any range above the bottom. */
  lemma NormalizeShifts(e: Enc)
    requires Running(e)
    ensures EncNormalize(e).shifts <= e.shifts + 3
  {
    var e1 := Enc(e.low * 256, e.range * 256, e.shifts + 1);
    if e.range <= BOTTOM_VALUE && e1.range <= BOTTOM_VALUE {
      var e2 := Enc(e1.low * 256, e1.range * 256, e1.shifts + 1);
      if e2.range <= BOTTOM_VALUE {
        var e3 := Enc(e2.low * 256, e2.range * 256, e2.shifts + 1);
        assert EncNormalize(e3) == e3;
        assert EncNormalize(e2) == e3;
      } else {
        assert EncNormalize(e2) == e2;
      }
      assert EncNormalize(e1) == EncNormalize(e2);
    }
  }

  lemma {:induction false} NarrowShifts(e: Enc, ops: seq<Op>)
    requires Running(e) && AllLegal(ops)
    ensures NarrowAll(e, ops).shifts <= e.shifts + 3 * |ops|
    decreases |ops|
  {
    hide EncNormalize, Portion;
    if ops != [] {
      NormalizeShifts(e);
      NarrowShifts(Narrow(e, ops[0]), ops[1..]);
    }
  }

  lemma WrittenShort(ops: seq<Op>)
    requires AllLegal(ops)
    ensures |Written(ops)| <= 3 * |ops| + 1
  {
    hide NarrowAll;
    NarrowShifts(FRESH, ops);
  }

  /** A value takes five coding steps at most. */
  lemma ValueSteps(f: Format, rice: Rice, v: int)
    requires RiceOk(rice) && Codable(f, v)
    ensures |ValueOps(f, rice, v)| <= 5
  {
    hide Pow2, NumberOp, SymbolOp, Pivot;
  }

  lemma {:induction false} PairsSteps(f: Format, y: Rice, x: Rice, ds: seq<(int, int)>)
    requires RiceOk(y) && RiceOk(x) && AllCodable(f, ds)
    ensures |PairsOps(f, y, x, ds)| <= 10 * |ds|
    decreases |ds|
  {
    hide ValueOps, UpdateRice;
    if ds != [] {
      ValueSteps(f, y, ds[0].0);
      ValueSteps(f, x, ds[0].1);
      PairsSteps(f, UpdateRice(y, FromSigned(ds[0].0)), UpdateRice(x, FromSigned(ds[0].1)), ds[1..]);
    }
  }

  lemma {:induction false} SinglesSteps(f: Format, rice: Rice, ds: seq<int>)
    requires RiceOk(rice) && forall i :: 0 <= i < |ds| ==> Codable(f, ds[i])
    ensures |SinglesOps(f, rice, ds)| <= 5 * |ds|
    decreases |ds|
  {
    hide ValueOps, UpdateRice;
    if ds != [] {
      ValueSteps(f, rice, ds[0]);
      SinglesSteps(f, UpdateRice(rice, FromSigned(ds[0])), ds[1..]);
    }
  }

  /** A stereo frame of `n` samples takes at most 30 bytes for each, whatever they are. */
  lemma StereoShort(p: Params, samples: seq<(int, int)>, skipped: seq<byte>, crc: seq<byte>, tail: seq<byte>)
    requires Supported(p) && StereoCodable(p, samples) && Head(skipped, crc)
    ensures |EncodeStereo(p, samples, skipped, crc, tail)| <= |skipped| + 30 * |samples| + 6 + |tail|
    ensures |EncodeStereo(p, samples, skipped, crc, tail)| >= 5
    ensures |EncodeStereo(p, samples, skipped, crc, tail)| == |EncodeStereo(p, samples, skipped, crc, [])| + |tail|
  {
    hide PairsOps, Written, SwapWords, StereoResiduals, AllCodable, PairsInt32;
    var residuals := StereoResiduals(p.fset, samples);
    PairsSteps(p.format, START, START, residuals);
    WrittenShort(PairsOps(p.format, START, START, residuals));
  }

  lemma MonoShort(p: Params, samples: seq<int>, skipped: seq<byte>, crc: seq<byte>, tail: seq<byte>)
    requires Supported(p) && MonoCodable(p, samples) && Head(skipped, crc)
    ensures |EncodeMono(p, samples, skipped, crc, tail)| <= |skipped| + 15 * |samples| + 6 + |tail|
    ensures |EncodeMono(p, samples, skipped, crc, tail)| >= 5
    ensures |EncodeMono(p, samples, skipped, crc, tail)| == |EncodeMono(p, samples, skipped, crc, [])| + |tail|
  {
    hide SinglesOps, Written, SwapWords, MonoResiduals, AllInt32, Codable;
    var residuals := MonoResiduals(p.fset, samples);
    SinglesSteps(p.format, START, residuals);
    WrittenShort(SinglesOps(p.format, START, residuals));
  }

  // ----- a file with one frame -----

  const HEADERS: nat := 80
  const CRC: seq<byte> := [0, 0, 0, 0]

  function Zeroes(n: nat): (s: seq<byte>)
    ensures |s| == n
  {
    seq(n, _ => 0)
  }

  /** What is missing to a whole number of words. */
  function Missing(n: nat): (k: nat)
    ensures k < 4 && (n + k) % 4 == 0
  {
    (4 - n % 4) % 4
  }

  /** Frames could hold `room` samples, but the only one is a last one of `n`. */
  function Layout(raw: seq<byte>, room: nat, n: nat): D.Layout {
    D.Layout(HEADERS, [HEADERS], room, n, 0, HEADERS + |raw|)
  }

  function OneFrame(p: Params, raw: seq<byte>, room: nat, n: nat): File {
    File(Zeroes(HEADERS) + raw, [D.FrameAt(Layout(raw, room, n), 0)], p, room, n)
  }

  lemma OneFrameTable(p: Params, raw: seq<byte>, room: nat, n: nat)
    requires Supported(p) && n <= room < 0x1000_0000 && 0 < |raw| <= 8 * room + 64 && |raw| % 4 == 0
    ensures D.Readable(Layout(raw, room, n)) && Playable(OneFrame(p, raw, room, n))
    ensures var f := OneFrame(p, raw, room, n);
      f.frames[0].skip == 0 && FrameBytes(f, 0) == Some(raw) && Total(f) == FrameBlocks(f, 0) == n
  {
    var f := OneFrame(p, raw, room, n);
    assert f.frames[0] == D.Frame(HEADERS, |raw|, n, 0);
    assert f.bytes[HEADERS..HEADERS + |raw|] == raw;
  }

  /** Every 16-bit stereo recording of less than 2^26 samples is held by some file, in either format
      and with every filter set. */
  lemma StereoFileExists(p: Params, pcm: seq<(int, int)>) returns (l: D.Layout, f: File)
    requires Supported(p) && p.channels == 2 && Sixteen(pcm) && |pcm| < 0x400_0000
    ensures D.Readable(l) && f.params == p && f.frames == [D.FrameAt(l, 0)]
    ensures Playable(f) && Total(f) == |pcm| && Encodes(f, 0, pcm) && Ahead(f, 0) == Plain(pcm)
  {
    hide DecodeFrame, EncodeStereo, StereoCodable, Sixteen, Playable, Ahead, Plain, FrameBytes, Encodes;
    SixteenCodable(p, pcm);
    var n := |pcm|;
    var tail := Zeroes(Missing(|EncodeStereo(p, pcm, [], CRC, [])|));
    var raw := EncodeStereo(p, pcm, [], CRC, tail);
    StereoShort(p, pcm, [], CRC, tail);
    l, f := Layout(raw, 4 * n, n), OneFrame(p, raw, 4 * n, n);
    OneFrameTable(p, raw, 4 * n, n);
    Holds(f, pcm, tail);
    assert Share(f, pcm, 0) == pcm;
    LosslessFile(f, pcm, 0);
    assert pcm[Start(f, 0)..] == pcm;
  }

  lemma Holds(f: File, pcm: seq<(int, int)>, tail: seq<byte>)
    requires Openable(f) && |f.frames| == 1 && f.frames[0].skip == 0 && Sixteen(pcm) && StereoCodable(f.params, pcm)
    requires FrameBytes(f, 0) == Some(EncodeStereo(f.params, pcm, [], CRC, tail))
    ensures Encodes(f, 0, pcm)
  {
    hide EncodeStereo, StereoCodable, Sixteen, FrameBytes;
    var skipped: seq<byte> := [];
    assert Head(skipped, CRC) && |skipped| == f.frames[0].skip;
  }

  /** The same for mono: in the newer format, and in the older one for less than 2^20 samples. */
  lemma MonoFileExists(p: Params, pcm: seq<int>) returns (l: D.Layout, f: File)
    requires Supported(p) && p.channels == 1 && MonoSixteen(pcm)
    requires |pcm| < if p.format.From3990? then 0x400_0000 else 0x10_0000
    ensures D.Readable(l) && f.params == p && f.frames == [D.FrameAt(l, 0)]
    ensures Playable(f) && MonoPlayable(f) && Total(f) == |pcm|
    ensures EncodesMono(f, 0, pcm) && Ahead(f, 0) == PlainMono(pcm)
  {
    hide DecodeFrame, EncodeMono, MonoCodable, MonoSixteen, Playable, Ahead, PlainMono, FrameBytes, EncodesMono;
    MonoSixteenCodable(p, pcm);
    var n := |pcm|;
    var tail := Zeroes(Missing(|EncodeMono(p, pcm, [], CRC, [])|));
    var raw := EncodeMono(p, pcm, [], CRC, tail);
    MonoShort(p, pcm, [], CRC, tail);
    l, f := Layout(raw, 2 * n, n), OneFrame(p, raw, 2 * n, n);
    OneFrameTable(p, raw, 2 * n, n);
    HoldsMono(f, pcm, tail);
    assert Share(f, pcm, 0) == pcm;
    LosslessMonoFile(f, pcm, 0);
    assert pcm[Start(f, 0)..] == pcm;
  }

  lemma HoldsMono(f: File, pcm: seq<int>, tail: seq<byte>)
    requires MonoPlayable(f) && |f.frames| == 1 && f.frames[0].skip == 0 && |pcm| == FrameBlocks(f, 0)
    requires MonoSixteen(pcm) && MonoCodable(f.params, pcm)
    requires FrameBytes(f, 0) == Some(EncodeMono(f.params, pcm, [], CRC, tail))
    ensures EncodesMono(f, 0, pcm)
  {
    hide EncodeMono, MonoCodable, MonoSixteen, FrameBytes;
    var skipped: seq<byte> := [];
    assert Head(skipped, CRC) && |skipped| == f.frames[0].skip;
  }
}
