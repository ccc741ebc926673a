/** Frames whose first word has its top bit set: a word of flags follows it.  Bit 2 says that both
    channels are the same, bits 0 and 1 that there is nothing to hear. */
module ApeFlags {
  import opened Bits
  import opened Options
  import opened ApeWords
  import opened ApeRange
  import opened ApeEntropy
  import opened ApeCoding
  import opened ApeLossless
  import opened ApeFrame

  predicate FlaggedHead(skipped: seq<byte>, crc: seq<byte>) {
    |skipped| <= 3 && |crc| == 4 && crc[0] >= 128
  }

  /** A word, its first bits first. */
  function WordBytes(w: nat): (b: seq<byte>)
    requires w < TWO32
    ensures |b| == 4
  {
    [w / 0x100_0000, w / 0x1_0000 % 256, w / 256 % 256, w % 256]
  }

  lemma WordOf(w: nat, a: seq<byte>, c: seq<byte>)
    requires w < TWO32
    ensures Word(a + WordBytes(w) + c, |a|) == w
  {
    hide WordBytes;
    var d, b := a + WordBytes(w) + c, WordBytes(w);
    assert d[|a|] == b[0] && d[|a| + 1] == b[1] && d[|a| + 2] == b[2] && d[|a| + 3] == b[3];
    BytesOf(w);
  }

  lemma BytesOf(w: nat)
    requires w < TWO32
    ensures var b := WordBytes(w);
      var c: nat, d: nat, e: nat, f: nat := b[0], b[1], b[2], b[3];
      ((c * 256 + d) * 256 + e) * 256 + f == w
  {
  }

  /** The words of the file have their last byte first. */
  lemma WordSwapped(raw: seq<byte>, k: nat)
    requires 4 * k + 4 <= |raw|
    ensures var a: nat, b: nat, c: nat, d: nat := raw[4 * k], raw[4 * k + 1], raw[4 * k + 2], raw[4 * k + 3];
      Word(SwapWords(raw), 4 * k) == a + 0x100 * b + 0x1_0000 * c + 0x100_0000 * d
  {
  }

  /** A frame with flags around coded residuals. */
  function Contents(skipped: seq<byte>, crc: seq<byte>, flags: nat, coded: seq<byte>, tail: seq<byte>): (d: seq<byte>)
    requires flags < TWO32
  {
    skipped + crc + WordBytes(flags) + [0] + coded + tail
  }

  function Flagged(skipped: seq<byte>, crc: seq<byte>, flags: nat, coded: seq<byte>, tail: seq<byte>)
    : (raw: seq<byte>)
    requires flags < TWO32
  {
    SwapWords(Contents(skipped, crc, flags, coded, tail))
  }

  lemma FlaggedHeader(skipped: seq<byte>, crc: seq<byte>, flags: nat, coded: seq<byte>, tail: seq<byte>)
    requires FlaggedHead(skipped, crc) && flags < TWO32 && |coded| > 0
    ensures var d := Contents(skipped, crc, flags, coded, tail);
      && ReadHeader(d, |skipped|) == Some(Header(flags, |skipped| + 9))
      && d == (skipped + crc + WordBytes(flags) + [0]) + coded + tail
  {
    hide WordBytes;
    var d, n := Contents(skipped, crc, flags, coded, tail), |skipped|;
    assert d == (skipped + crc) + WordBytes(flags) + ([0] + coded + tail);
    WordOf(flags, skipped + crc, [0] + coded + tail);
    assert d[n] == crc[0];
  }

  predicate AsMono(p: Params, flags: nat) {
    p.channels == 1 || ToBits(flags, 32)[2]
  }

  /** One bit is enough where one channel is coded, otherwise it takes both. */
  predicate Silent(p: Params, flags: nat) {
    var b := ToBits(flags, 32);
    if AsMono(p, flags) then b[0] || b[1] else b[0] && b[1]
  }

  lemma FlagBits(flags: nat)
    ensures var b := ToBits(flags, 32);
      && (flags % 4 == 3 <==> b[0] && b[1]) && (flags % 4 == 0 <==> !b[0] && !b[1])
      && (flags / 4 % 2 == 1 <==> b[2])
  {
    assert ToBits(flags, 32)[1] == ToBits(flags / 2, 31)[0];
    assert ToBits(flags, 32)[2] == ToBits(flags / 2 / 2, 30)[0] && flags / 2 / 2 == flags / 4;
    assert flags % 4 == flags % 2 + 2 * (flags / 2 % 2);
  }

  /** A silent frame of any length is all zeros, whatever else is in it. */
  lemma SilentFrame(p: Params, skipped: seq<byte>, crc: seq<byte>, flags: nat, rest: seq<byte>, n: nat)
    requires Supported(p) && FlaggedHead(skipped, crc) && flags < TWO32 && |rest| > 0 && Silent(p, flags)
    ensures var s := DecodeFrame(p, Flagged(skipped, crc, flags, rest, []), |skipped|, n);
      s.Some? && |s.value| == n && forall i :: 0 <= i < n ==> s.value[i] == (0, 0)
  {
    hide SwapWords, Begin, ReadHeader, ToBits;
    FlaggedHeader(skipped, crc, flags, rest, []);
    SwapSwap(Contents(skipped, crc, flags, rest, []));
    FlagBits(flags);
  }

  /** With the other flags, a stereo frame decodes to what it encodes ... */
  lemma StereoFlagged(p: Params, samples: seq<(int, int)>, skipped: seq<byte>, crc: seq<byte>, flags: nat, tail: seq<byte>)
    requires Supported(p) && FlaggedHead(skipped, crc) && flags < TWO32 && !AsMono(p, flags) && !Silent(p, flags)
    requires StereoCodable(p, samples)
    ensures
      var coded := Written(PairsOps(p.format, START, START, StereoResiduals(p.fset, samples)));
      DecodeFrame(p, Flagged(skipped, crc, flags, coded, tail), |skipped|, |samples|) == Some(samples)
  {
    hide Pairs, PairsOps, Written, StereoSamples, StereoResiduals, SwapWords, AllCodable, PairsInt32, Begin, ReadHeader,
      ToBits;
    var residuals := StereoResiduals(p.fset, samples);
    var coded := Written(PairsOps(p.format, START, START, residuals));
    SwapSwap(Contents(skipped, crc, flags, coded, tail));
    FlaggedHeader(skipped, crc, flags, coded, tail);
    FlagBits(flags);
    PairsRoundTrip(p.format, START, START, residuals, skipped + crc + WordBytes(flags) + [0], tail);
    StereoLossless(p.fset, samples);
  }

  /** ... and one channel, coded once, comes out on both. */
  lemma MonoFlagged(p: Params, samples: seq<int>, skipped: seq<byte>, crc: seq<byte>, flags: nat, tail: seq<byte>)
    requires Supported(p) && FlaggedHead(skipped, crc) && flags < TWO32 && AsMono(p, flags) && !Silent(p, flags)
    requires MonoCodable(p, samples)
    ensures
      var coded := Written(SinglesOps(p.format, START, MonoResiduals(p.fset, samples)));
      DecodeFrame(p, Flagged(skipped, crc, flags, coded, tail), |skipped|, |samples|) == Some(Zip(samples, samples))
  {
    hide Singles, SinglesOps, Written, MonoSamples, MonoResiduals, SwapWords, AllInt32, Begin, ReadHeader, Codable,
      ToBits;
    var residuals := MonoResiduals(p.fset, samples);
    var coded := Written(SinglesOps(p.format, START, residuals));
    SwapSwap(Contents(skipped, crc, flags, coded, tail));
    FlaggedHeader(skipped, crc, flags, coded, tail);
    FlagBits(flags);
    SinglesRoundTrip(p.format, START, residuals, skipped + crc + WordBytes(flags) + [0], tail);
    MonoLossless(p.fset, samples);
  }
}
