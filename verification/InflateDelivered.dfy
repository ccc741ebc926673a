/** Streams that are written are handed over by `tinfl_decompress_mem_to_callback` in full. */
module InflateDelivered {
  import opened Bits
  import opened InflateStream
  import opened InflateLogic
  import opened InflateDecompress
  import opened InflateFormat
  import opened InflateBlocks
  import opened InflateCallback

  /** The bytes that blocks stand for, after the zeros of the window. */
  function Plain(zlib: bool, bs: seq<Block>): seq<byte>
    requires StreamOk(Mode(zlib), Before(), bs)
  {
    var e := Meant(Mode(zlib), Before(), bs);
    if |e| >= DICT_SIZE then e[DICT_SIZE..] else []
  }

  /** A raw stream that begins with any blocks: the call succeeds if and only if the callback takes as
      many pieces as the output needs; then it has been given all of it, and the bytes used are those
      of the blocks. */
  lemma WrittenIsDelivered(stream: seq<byte>, accepts: nat, result: bool, pieces: seq<seq<byte>>, used: nat,
                           steps: nat, lost: bool, bs: seq<Block>)
    requires Reports(stream, false, accepts, result, pieces, used, steps, lost)
    requires bs != [] && StreamOk(Mode(false), Before(), bs)
    requires StreamBits(Mode(false), Before(), 0, bs) <= BytesToBits(stream)
    ensures Joined(pieces) <= Plain(false, bs)
    ensures result <==> |Plain(false, bs)| <= accepts * DICT_SIZE
    ensures result ==> Joined(pieces) == Plain(false, bs)
    ensures result ==> 8 * used == Aligned(|StreamBits(Mode(false), Before(), 0, bs)|)
  {
    hide Step, BytesToBits, Run, Sound, Joined, Content, StreamBits, StreamOk, Meant, Reports, Aligned;
    var cfg, bits, m := Mode(false), BytesToBits(stream), First(false);
    StreamRoundTrip(cfg, bits, m, bs);
    var n: nat :| Run(cfg, bits, m, n) == m.(
      ctl := AfterTrailer(cfg), pos := Aligned(|StreamBits(cfg, m.out, 0, bs)|), out := Meant(cfg, m.out, bs));
    Delivered(stream, false, accepts, result, pieces, used, steps, lost, n);
    ContentIs(false, bs, Content(stream, false, n));
    Refused(stream, false, accepts, result, pieces, used, steps, lost);
    ByteEnds(|StreamBits(cfg, m.out, 0, bs)|, used);
  }

  lemma ContentIs(zlib: bool, bs: seq<Block>, c: seq<byte>)
    requires StreamOk(Mode(zlib), Before(), bs) && Meant(Mode(zlib), Before(), bs) == Before() + c
    ensures Plain(zlib, bs) == c
  {
    hide Meant, StreamOk;
  }

  lemma ByteEnds(n: nat, used: nat)
    ensures Aligned(n) <= 8 * used < Aligned(n) + 8 ==> 8 * used == Aligned(n)
  {
  }

  /** The same for a zlib stream, which must end with the checksum of the output. */
  lemma ZlibIsDelivered(stream: seq<byte>, accepts: nat, result: bool, pieces: seq<seq<byte>>, used: nat,
                        steps: nat, lost: bool, cmf: byte, flg: byte, bs: seq<Block>, sum: seq<byte>)
    requires Reports(stream, true, accepts, result, pieces, used, steps, lost)
    requires bs != [] && StreamOk(Mode(true), Before(), bs)
    requires Enveloped(Mode(true), Before(), BytesToBits(stream), cmf, flg, bs, sum)
    ensures Joined(pieces) <= Plain(true, bs)
    ensures result <==> |Plain(true, bs)| <= accepts * DICT_SIZE && Matches(true, sum, Plain(true, bs))
    ensures |pieces| <= accepts <==> |Plain(true, bs)| <= accepts * DICT_SIZE
    ensures |pieces| <= accepts ==> Joined(pieces) == Plain(true, bs)
    ensures |pieces| <= accepts ==> 8 * used == Aligned(16 + |StreamBits(Mode(true), Before(), 16, bs)|) + 32
  {
    hide Step, BytesToBits, Run, Sound, Joined, Content, StreamBits, StreamOk, Meant, Reports, Aligned, Enveloped, Matches;
    var cfg, bits, m := Mode(true), BytesToBits(stream), First(true);
    ZlibRoundTrip(cfg, bits, m, cmf, flg, bs, sum);
    var n: nat :| Run(cfg, bits, m, n) == m.(
      ctl := Done(sum), pos := Aligned(16 + |StreamBits(cfg, m.out, 16, bs)|) + 32, out := Meant(cfg, m.out, bs));
    Delivered(stream, true, accepts, result, pieces, used, steps, lost, n);
    ContentIs(true, bs, Content(stream, true, n));
    Refused(stream, true, accepts, result, pieces, used, steps, lost);
    ByteEnds(16 + |StreamBits(cfg, m.out, 16, bs)|, used - if used >= 4 then 4 else 0);
  }
}
