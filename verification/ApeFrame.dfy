/** One physical frame of a Monkey's Audio file: from its bytes to its samples, and the encoder
    whose frames decode to exactly the samples they were made from. */
module ApeFrame {
  import opened Bits
  import opened Options
  import opened ApeWords
  import opened ApeRange
  import opened ApeEntropy
  import opened ApeCoding
  import opened ApeLossless
  import opened ApeBounds

  /** What a frame needs to know of the file: channels, the value format, the filter set. */
  datatype Params = Params(channels: nat, format: Format, fset: nat)

  predicate Supported(p: Params) {
    (p.channels == 1 || p.channels == 2) && FilterSet(p.fset)
  }

  // ----- the byte order -----

  /** Where byte `i` of the swapped data comes from: whole words are reversed, a rest is left. */
  function Swapped(i: nat, n: nat): (j: nat)
    requires i < n
    ensures j < n
  {
    if i < n / 4 * 4 then i / 4 * 4 + (3 - i % 4) else i
  }

  function SwapWords(raw: seq<byte>): (data: seq<byte>)
    ensures |data| == |raw|
  {
    seq(|raw|, i requires 0 <= i < |raw| => raw[Swapped(i, |raw|)])
  }

  lemma SwappedTwice(i: nat, n: nat)
    requires i < n
    ensures Swapped(Swapped(i, n), n) == i
  {
  }

  lemma SwapSwap(raw: seq<byte>)
    ensures SwapWords(SwapWords(raw)) == raw
  {
    hide Swapped;
    forall i | 0 <= i < |raw|
      ensures SwapWords(SwapWords(raw))[i] == raw[i]
    {
      SwappedTwice(i, |raw|);
    }
  }

  // ----- decoding -----

  /** The frame flags, and where the range coder's bytes begin. */
  datatype Header = Header(flags: nat, start: nat)

  function Word(data: seq<byte>, at: nat): (w: nat)
    requires at + 4 <= |data|
  {
    var a: nat, b: nat, c: nat, d: nat := data[at], data[at + 1], data[at + 2], data[at + 3];
    ((a * 256 + b) * 256 + c) * 256 + d
  }

  /** `init_entropy_decoder`: the CRC, the flags if its top bit is set, and an ignored byte. */
  function ReadHeader(data: seq<byte>, ptr: nat): (h: Option<Header>)
    requires ptr <= |data|
    ensures h.Some? ==> h.value.start < |data|
  {
    if |data| - ptr < 6 then None
    else if Word(data, ptr) < 0x8000_0000 then Some(Header(0, ptr + 5))
    else if |data| - (ptr + 4) < 6 then None
    else Some(Header(Word(data, ptr + 4), ptr + 9))
  }

  function Silence(n: nat): (s: seq<(int, int)>)
    ensures |s| == n
  {
    seq(n, _ => (0, 0))
  }

  /** `ape_unpack_mono`; both channels get the samples. */
  function UnpackMono(p: Params, r: Rc, flags: nat, n: nat): (s: Option<seq<(int, int)>>)
    requires Supported(p) && Safe(r)
    ensures s.Some? ==> |s.value| == n
  {
    if flags % 4 != 0 then Some(Silence(n)) else
      var (r', residuals) := Singles(p.format, r, START, n);
      if r'.error then None else
        var samples := MonoSamples(p.fset, residuals);
        Some(Zip(samples, samples))
  }

  /** `ape_unpack_stereo` */
  function UnpackStereo(p: Params, r: Rc, flags: nat, n: nat): (s: Option<seq<(int, int)>>)
    requires Supported(p) && Safe(r)
    ensures s.Some? ==> |s.value| == n
  {
    if flags % 4 == 3 then Some(Silence(n)) else
      var (t, residuals) := Pairs(p.format, Entropy(r, START, START), n);
      if t.rc.error then None else Some(StereoSamples(p.fset, residuals))
  }

  function Unpack(p: Params, r: Rc, flags: nat, n: nat): (s: Option<seq<(int, int)>>)
    requires Supported(p) && Safe(r)
    ensures s.Some? ==> |s.value| == n
  {
    if p.channels == 1 || flags / 4 % 2 == 1 then UnpackMono(p, r, flags, n) else UnpackStereo(p, r, flags, n)
  }

  /** What a frame that fails leaves in the sample buffers: nothing of its own, what the entropy
      decoder wrote for one channel, or for both. */
  datatype Leftover = Untouched | One(ys: seq<int>) | Two(ds: seq<(int, int)>)

  function Coded(p: Params, r: Rc, flags: nat, n: nat): (l: Leftover)
    requires Supported(p) && Safe(r)
    ensures match l case Untouched => false case One(ys) => |ys| == n case Two(ds) => |ds| == n
  {
    if p.channels == 1 || flags / 4 % 2 == 1 then One(Singles(p.format, r, START, n).1)
    else Two(Pairs(p.format, Entropy(r, START, START), n).1)
  }

  /** The header is read: from here on the sample buffers are written. */
  predicate Begun(raw: seq<byte>, skip: nat) {
    skip <= 3 && skip <= |raw| && ReadHeader(SwapWords(raw), skip).Some?
  }

  function Left(p: Params, raw: seq<byte>, skip: nat, nblocks: nat): (l: Leftover)
    requires Supported(p)
    ensures l.Untouched? <==> !Begun(raw, skip)
    ensures match l case Untouched => true case One(ys) => |ys| == nblocks case Two(ds) => |ds| == nblocks
  {
    if !Begun(raw, skip) then Untouched else
      var data := SwapWords(raw);
      var h := ReadHeader(data, skip).value;
      Coded(p, Begin(data, h.start), h.flags, nblocks)
  }

  /** `s` written over the front of `a`. */
  function Over(a: seq<int>, s: seq<int>): (b: seq<int>)
    requires |s| <= |a|
    ensures |b| == |a|
  {
    s + a[|s|..]
  }

  predicate Fits(l: Leftover, n: nat) {
    match l case Untouched => true case One(ys) => |ys| <= n case Two(ds) => |ds| <= n
  }

  /** The two sample buffers afterwards. */
  function Spoiled(l: Leftover, a: (seq<int>, seq<int>)): (b: (seq<int>, seq<int>))
    requires |a.0| == |a.1| && Fits(l, |a.0|)
    ensures |b.0| == |b.1| == |a.0|
  {
    match l
    case Untouched => a
    case One(ys) => (Over(a.0, ys), a.1)
    case Two(ds) => (Over(a.0, Firsts(ds)), Over(a.1, Seconds(ds)))
  }

  /** `decode_physical_frame`: the samples are a function of this frame's bytes alone. */
  function DecodeFrame(p: Params, raw: seq<byte>, skip: nat, nblocks: nat): (s: Option<seq<(int, int)>>)
    requires Supported(p)
    ensures s.Some? ==> |s.value| == nblocks
  {
    if skip > 3 || |raw| < skip then None else
      var data := SwapWords(raw);
      var h := ReadHeader(data, skip);
      if h.None? then None else
        Unpack(p, Begin(data, h.value.start), h.value.flags, nblocks)
  }

  // ----- encoding -----

  /** What comes before the coded residuals: skipped bytes, the CRC, and the ignored byte. */
  predicate Head(skipped: seq<byte>, crc: seq<byte>) {
    |skipped| <= 3 && |crc| == 4 && crc[0] < 128
  }

  /** A frame around coded residuals.  `tail` is what is left of the last words. */
  function Wrapped(skipped: seq<byte>, crc: seq<byte>, coded: seq<byte>, tail: seq<byte>): (raw: seq<byte>)
    requires Head(skipped, crc)
  {
    SwapWords(skipped + crc + [0] + coded + tail)
  }

  lemma HeaderOf(skipped: seq<byte>, crc: seq<byte>, coded: seq<byte>, tail: seq<byte>)
    requires Head(skipped, crc) && |coded| > 0
    ensures ReadHeader(skipped + crc + [0] + coded + tail, |skipped|) == Some(Header(0, |skipped| + 5))
    ensures skipped + crc + [0] + coded + tail == (skipped + crc + [0]) + coded + tail
  {
    var d, n := skipped + crc + [0] + coded + tail, |skipped|;
    assert d[n] == crc[0] && d[n + 1] == crc[1] && d[n + 2] == crc[2] && d[n + 3] == crc[3];
  }

  ghost predicate StereoCodable(p: Params, samples: seq<(int, int)>)
    requires Supported(p)
  {
    PairsInt32(samples) && AllCodable(p.format, StereoResiduals(p.fset, samples))
  }

  function EncodeStereo(p: Params, samples: seq<(int, int)>, skipped: seq<byte>, crc: seq<byte>, tail: seq<byte>)
    : (raw: seq<byte>)
    requires Supported(p) && StereoCodable(p, samples) && Head(skipped, crc)
  {
    var residuals := StereoResiduals(p.fset, samples);
    Wrapped(skipped, crc, Written(PairsOps(p.format, START, START, residuals)), tail)
  }

  /** Losslessness from samples to bytes and back. */
  lemma StereoFrameRoundTrip(p: Params, samples: seq<(int, int)>, skipped: seq<byte>, crc: seq<byte>, tail: seq<byte>)
    requires Supported(p) && p.channels == 2 && StereoCodable(p, samples) && Head(skipped, crc)
    ensures DecodeFrame(p, EncodeStereo(p, samples, skipped, crc, tail), |skipped|, |samples|) == Some(samples)
  {
    hide Pairs, PairsOps, Written, StereoSamples, StereoResiduals, SwapWords, AllCodable, PairsInt32, Begin, ReadHeader;
    var residuals := StereoResiduals(p.fset, samples);
    var coded := Written(PairsOps(p.format, START, START, residuals));
    SwapSwap(skipped + crc + [0] + coded + tail);
    HeaderOf(skipped, crc, coded, tail);
    PairsRoundTrip(p.format, START, START, residuals, skipped + crc + [0], tail);
    StereoLossless(p.fset, samples);
  }

  /** From version 3990 on, every pair of 32-bit samples can be coded. */
  lemma EverythingCodable(p: Params, samples: seq<(int, int)>)
    requires Supported(p) && p.format.From3990? && PairsInt32(samples)
    ensures StereoCodable(p, samples)
  {
    hide StereoResiduals;
    StereoLossless(p.fset, samples);
  }

  /** 16-bit samples can be coded in either format, with every filter set and at every length. */
  lemma SixteenCodable(p: Params, samples: seq<(int, int)>)
    requires Supported(p) && Sixteen(samples)
    ensures StereoCodable(p, samples)
  {
    hide StereoResiduals, Sixteen;
    StereoSmall(p.fset, samples);
  }

  /** A frame encoding any 16-bit stereo block decodes to that block. */
  lemma SixteenFrameRoundTrip(p: Params, samples: seq<(int, int)>, skipped: seq<byte>, crc: seq<byte>, tail: seq<byte>)
    requires Supported(p) && p.channels == 2 && Sixteen(samples) && Head(skipped, crc)
    ensures StereoCodable(p, samples)
    ensures DecodeFrame(p, EncodeStereo(p, samples, skipped, crc, tail), |skipped|, |samples|) == Some(samples)
  {
    hide StereoCodable, Sixteen, DecodeFrame, EncodeStereo;
    SixteenCodable(p, samples);
    StereoFrameRoundTrip(p, samples, skipped, crc, tail);
  }

  ghost predicate MonoCodable(p: Params, samples: seq<int>)
    requires Supported(p)
  {
    AllInt32(samples)
    && forall i :: 0 <= i < |samples| ==> Codable(p.format, MonoResiduals(p.fset, samples)[i])
  }

  function EncodeMono(p: Params, samples: seq<int>, skipped: seq<byte>, crc: seq<byte>, tail: seq<byte>)
    : (raw: seq<byte>)
    requires Supported(p) && MonoCodable(p, samples) && Head(skipped, crc)
  {
    Wrapped(skipped, crc, Written(SinglesOps(p.format, START, MonoResiduals(p.fset, samples))), tail)
  }

  lemma MonoFrameRoundTrip(p: Params, samples: seq<int>, skipped: seq<byte>, crc: seq<byte>, tail: seq<byte>)
    requires Supported(p) && p.channels == 1 && MonoCodable(p, samples) && Head(skipped, crc)
    ensures DecodeFrame(p, EncodeMono(p, samples, skipped, crc, tail), |skipped|, |samples|)
      == Some(Zip(samples, samples))
  {
    hide Singles, SinglesOps, Written, MonoSamples, MonoResiduals, SwapWords, AllInt32, Begin, ReadHeader, Codable;
    var residuals := MonoResiduals(p.fset, samples);
    var coded := Written(SinglesOps(p.format, START, residuals));
    SwapSwap(skipped + crc + [0] + coded + tail);
    HeaderOf(skipped, crc, coded, tail);
    SinglesRoundTrip(p.format, START, residuals, skipped + crc + [0], tail);
    MonoLossless(p.fset, samples);
  }

  /** Mono samples can be coded in the newer format whatever they are, and in the older one if they
      have 16 bits and the block is not longer than 2^21. */
  lemma MonoSixteenCodable(p: Params, samples: seq<int>)
    requires Supported(p) && MonoSixteen(samples) && (p.format.From3990? || |samples| <= LONGEST)
    ensures MonoCodable(p, samples)
  {
    hide MonoResiduals;
    MonoLossless(p.fset, samples);
    if p.format.Before3990? {
      MonoSmall(p.fset, samples);
    }
  }
}
