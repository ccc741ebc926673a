/** Whole deflate streams: blocks of the three kinds in any order, raw or in a zlib envelope. */
module InflateBlocks {
  import opened Bits
  import opened Options
  import A = Adler
  import opened InflateCode
  import opened InflateTables
  import opened InflateStream
  import opened InflateLogic
  import opened InflateWindow
  import opened InflateDecompress
  import opened InflateFormat
  import opened InflateDynamic

  datatype Block = AsIs(bytes: seq<byte>) | WithFixed(ts: seq<Token>) | WithOwn(h: Tables, ts: seq<Token>)

  predicate BlockOk(cfg: Config, out: nat, b: Block) {
    match b
    case AsIs(bytes) => |bytes| < 65536
    case WithFixed(ts) => (forall i :: 0 <= i < |ts| ==> TokenOk(ts[i])) && Within(cfg, out, ts)
    case WithOwn(h, ts) => HeaderOk(h) && AllCodable(h.lit, h.dist, ts) && HasCode(h.lit, 256) && Within(cfg, out, ts)
  }

  /** The output after a block. */
  function Grow(cfg: Config, out: seq<byte>, b: Block): (e: seq<byte>)
    requires BlockOk(cfg, |out|, b)
  {
    match b
    case AsIs(bytes) => out + bytes
    case WithFixed(ts) => Expand(cfg, out, ts)
    case WithOwn(h, ts) => Expand(cfg, out, ts)
  }

  /** The bits of a block that begins at `pos`: a stored block is filled up to a byte boundary. */
  function BitsOf(cfg: Config, out: nat, final: bool, pos: nat, b: Block): (r: seq<bool>)
    requires BlockOk(cfg, out, b)
  {
    match b
    case AsIs(bytes) =>
      ToBits(Bit(final), 3)
      + (Zeros(Aligned(pos + 3) - (pos + 3)) + (BytesToBits(Lengths4(|bytes|)) + BytesToBits(bytes)))
    case WithFixed(ts) =>
      FixedCodesAll(ts);
      ToBits(2 + Bit(final), 3) + BlockBits(FIXED_LIT, FIXED_DIST, ts)
    case WithOwn(h, ts) => HeaderBits(final, h) + BlockBits(h.lit, h.dist, ts)
  }

  /** A length, and its complement. */
  function Lengths4(n: nat): (h: seq<byte>)
    requires n < 65536
    ensures |h| == 4
  {
    [n % 256, n / 256, (65535 - n) % 256, (65535 - n) / 256]
  }

  // ----- stored blocks -----

  lemma ByteRead(cfg: Config, bits: seq<bool>, m: Machine, c: byte)
    requires Sound(cfg, m) && Reached(m.ctl) && NumberBits(m.ctl) == 8 && Next(bits, m.pos, ToBits(c, 8))
    ensures c < Pow2(8)
    ensures Step(cfg, bits, m) == m.(ctl := TakeNumber(cfg, |m.out|, m.ctl, c), pos := m.pos + 8)
  {
    hide Step, TakeNumber, NumberBits, Reached, Next, ToBits;
    SmallPowers();
    NumberRead(cfg, bits, m, c);
  }

  /** The four bytes before a stored block's contents. */
  lemma {:induction false} LengthsRead(cfg: Config, bits: seq<bool>, m: Machine, final: bool, got: seq<nat>,
                                       more: seq<byte>)
    requires Sound(cfg, m) && m.ctl == StoredHeader(final, got) && |got| + |more| == 4 && more != []
    requires Next(bits, m.pos, BytesToBits(more))
    ensures Small(got + more, 4)
    ensures Leads(cfg, bits, m, m.(ctl := AfterStoredHeader(final, got + more), pos := m.pos + 8 * |more|))
    decreases |more|
  {
    hide Step, Leads, Next, ToBits, AfterStoredHeader, Run, Accepted, Codes, Pow2;
    NextSplit(bits, m.pos, ToBits(more[0], 8), BytesToBits(more[1..]));
    ByteRead(cfg, bits, m, more[0]);
    OneLeads(cfg, bits, m);
    if |more| == 1 {
      assert got + more == got + [more[0]];
    } else {
      var n := m.(ctl := StoredHeader(final, got + [more[0]]), pos := m.pos + 8);
      LengthsRead(cfg, bits, n, final, got + [more[0]], more[1..]);
      assert got + [more[0]] + more[1..] == got + more;
      LeadsOn(cfg, bits, m, n, n.(ctl := AfterStoredHeader(final, got + more), pos := n.pos + 8 * |more[1..]|));
    }
  }

  lemma LengthsAgree(final: bool, n: nat)
    requires n < 65536
    ensures Small(Lengths4(n), 4) && AfterStoredHeader(final, Lengths4(n)) == Stored(final, n)
  {
  }

  /** The contents of a stored block. */
  lemma {:induction false} StoredRead(cfg: Config, bits: seq<bool>, m: Machine, bytes: seq<byte>)
    requires Sound(cfg, m) && m.ctl.Stored? && m.ctl.left == |bytes| && Next(bits, m.pos, BytesToBits(bytes))
    ensures Leads(cfg, bits, m, m.(
      ctl := AfterBlock(m.ctl.final), pos := m.pos + 8 * |bytes|, out := m.out + bytes))
    decreases |bytes|
  {
    hide Step, Leads, Next, ToBits, Run;
    if bytes == [] {
      StoredEnds(cfg, bits, m);
      OneLeads(cfg, bits, m);
      assert m.out + bytes == m.out;
    } else {
      NextSplit(bits, m.pos, ToBits(bytes[0], 8), BytesToBits(bytes[1..]));
      StoredOne(cfg, bits, m, bytes[0]);
      var n := m.(ctl := Stored(m.ctl.final, m.ctl.left - 1), pos := m.pos + 8, out := m.out + [bytes[0]]);
      LeadsSound(cfg, bits, m, n);
      StoredRead(cfg, bits, n, bytes[1..]);
      assert m.out + [bytes[0]] + bytes[1..] == m.out + bytes;
      LeadsOn(cfg, bits, m, n, n.(
        ctl := AfterBlock(m.ctl.final), pos := n.pos + 8 * |bytes[1..]|, out := m.out + bytes));
    }
  }

  lemma StoredEnds(cfg: Config, bits: seq<bool>, m: Machine)
    requires Sound(cfg, m) && m.ctl.Stored? && m.ctl.left == 0
    ensures Step(cfg, bits, m) == m.(ctl := AfterBlock(m.ctl.final))
  {
    hide Accepted;
  }

  lemma StoredOne(cfg: Config, bits: seq<bool>, m: Machine, c: byte)
    requires Sound(cfg, m) && m.ctl.Stored? && m.ctl.left > 0 && Next(bits, m.pos, ToBits(c, 8))
    ensures Leads(cfg, bits, m, m.(ctl := Stored(m.ctl.final, m.ctl.left - 1), pos := m.pos + 8, out := m.out + [c]))
  {
    hide Step, Leads, Next, ToBits, Run, Accepted;
    ByteRead(cfg, bits, m, c);
    OneLeads(cfg, bits, m);
    var n := m.(ctl := StoredByte(m.ctl.final, m.ctl.left, c), pos := m.pos + 8);
    EmitPlace(cfg, bits, n);
    OneLeads(cfg, bits, n);
    LeadsOn(cfg, bits, m, n, Step(cfg, bits, n));
  }

  /** A stored block's header, up to the byte boundary. */
  lemma StoredHeaderRead(cfg: Config, bits: seq<bool>, m: Machine, final: bool)
    requires Sound(cfg, m) && m.ctl.BlockHeader? && Next(bits, m.pos, ToBits(Bit(final), 3))
    ensures Leads(cfg, bits, m, m.(ctl := StoredHeader(final, []), pos := Aligned(m.pos + 3)))
  {
    hide Leads, Next, ToBits, Run, Accepted, Aligned;
    SmallPowers();
    NumberRead(cfg, bits, m, Bit(final));
    OneLeads(cfg, bits, m);
    var n := m.(ctl := StoredStart(final), pos := m.pos + 3);
    OneLeads(cfg, bits, n);
    LeadsOn(cfg, bits, m, n, Step(cfg, bits, n));
  }

  lemma AsIsBits(cfg: Config, out: nat, final: bool, pos: nat, bytes: seq<byte>)
    requires |bytes| < 65536
    ensures BitsOf(cfg, out, final, pos, AsIs(bytes))
      == ToBits(Bit(final), 3)
      + (Zeros(Aligned(pos + 3) - (pos + 3)) + (BytesToBits(Lengths4(|bytes|)) + BytesToBits(bytes)))
  {
    hide ToBits, Zeros, Aligned, BytesToBits, Lengths4;
  }

  lemma AsIsRead(cfg: Config, bits: seq<bool>, m: Machine, final: bool, bytes: seq<byte>)
    requires Sound(cfg, m) && m.ctl.BlockHeader? && |bytes| < 65536
    requires Next(bits, m.pos, BitsOf(cfg, |m.out|, final, m.pos, AsIs(bytes)))
    ensures Leads(cfg, bits, m, m.(
      ctl := AfterBlock(final), pos := m.pos + |BitsOf(cfg, |m.out|, final, m.pos, AsIs(bytes))|, out := m.out + bytes))
  {
    hide Leads, Next, ToBits, Run, Accepted, Aligned, Lengths4, BytesToBits, Sound, BitsOf, AfterStoredHeader, Zeros;
    var at := Aligned(m.pos + 3);
    var fill, l, c := Zeros(at - (m.pos + 3)), BytesToBits(Lengths4(|bytes|)), BytesToBits(bytes);
    AsIsBits(cfg, |m.out|, final, m.pos, bytes);
    NextSplit(bits, m.pos, ToBits(Bit(final), 3), fill + (l + c));
    NextSplit(bits, m.pos + 3, fill, l + c);
    NextSplit(bits, at, l, c);
    StoredHeaderRead(cfg, bits, m, final);
    var n := m.(ctl := StoredHeader(final, []), pos := at);
    LeadsSound(cfg, bits, m, n);
    LengthsRead(cfg, bits, n, final, [], Lengths4(|bytes|));
    assert [] + Lengths4(|bytes|) == Lengths4(|bytes|);
    LengthsAgree(final, |bytes|);
    var o := n.(ctl := Stored(final, |bytes|), pos := at + 32);
    LeadsOn(cfg, bits, m, n, o);
    LeadsSound(cfg, bits, m, o);
    StoredRead(cfg, bits, o, bytes);
    LeadsOn(cfg, bits, m, o, o.(ctl := AfterBlock(final), pos := o.pos + 8 * |bytes|, out := m.out + bytes));
  }

  // ----- blocks with codes -----

  lemma FixedBuilt(cfg: Config, bits: seq<bool>, k: Machine)
    requires Sound(cfg, k) && k.ctl.BuildTables? && k.ctl.lit == FIXED_LIT && k.ctl.dist == FIXED_DIST
    ensures Step(cfg, bits, k) == k.(ctl := Symbols(k.ctl.final, FIXED_LIT, FIXED_DIST))
  {
    hide Accepted, FIXED_LIT, FIXED_DIST;
    FixedComplete();
  }

  lemma FixedStart(cfg: Config, bits: seq<bool>, m: Machine, final: bool)
    requires Sound(cfg, m) && m.ctl.BlockHeader? && Next(bits, m.pos, ToBits(2 + Bit(final), 3))
    ensures Leads(cfg, bits, m, m.(ctl := Symbols(final, FIXED_LIT, FIXED_DIST), pos := m.pos + 3))
  {
    hide Accepted, Leads, Run, ToBits, FIXED_LIT, FIXED_DIST, Next, Step, Sound;
    SmallPowers();
    NumberRead(cfg, bits, m, 2 + Bit(final));
    OneLeads(cfg, bits, m);
    var k := m.(ctl := BuildTables(final, FIXED_LIT, FIXED_DIST), pos := m.pos + 3);
    assert Step(cfg, bits, m) == k;
    LeadsSound(cfg, bits, m, k);
    FixedBuilt(cfg, bits, k);
    OneLeads(cfg, bits, k);
    LeadsOn(cfg, bits, m, k, Step(cfg, bits, k));
  }

  lemma FixedRead(cfg: Config, bits: seq<bool>, m: Machine, final: bool, ts: seq<Token>)
    requires Sound(cfg, m) && m.ctl.BlockHeader? && BlockOk(cfg, |m.out|, WithFixed(ts))
    requires Next(bits, m.pos, BitsOf(cfg, |m.out|, final, m.pos, WithFixed(ts)))
    ensures Leads(cfg, bits, m, m.(
      ctl := AfterBlock(final), pos := m.pos + |BitsOf(cfg, |m.out|, final, m.pos, WithFixed(ts))|,
      out := Expand(cfg, m.out, ts)))
  {
    hide Codeword, Accepted, Leads, BlockBits, Step, Run, Expand, Within, ToBits, FIXED_LIT, FIXED_DIST, AllCodable,
      HasCode, Sound, TokenOk, Next;
    FixedCodesAll(ts);
    var b := BlockBits(FIXED_LIT, FIXED_DIST, ts);
    NextSplit(bits, m.pos, ToBits(2 + Bit(final), 3), b);
    FixedStart(cfg, bits, m, final);
    var n := m.(ctl := Symbols(final, FIXED_LIT, FIXED_DIST), pos := m.pos + 3);
    LeadsSound(cfg, bits, m, n);
    BlockRead(cfg, bits, n, ts);
    LeadsOn(cfg, bits, m, n, n.(ctl := AfterBlock(final), pos := n.pos + |b|, out := Expand(cfg, m.out, ts)));
  }

  /** A block of any kind. */
  lemma AnyRead(cfg: Config, bits: seq<bool>, m: Machine, final: bool, b: Block)
    requires Sound(cfg, m) && m.ctl.BlockHeader? && BlockOk(cfg, |m.out|, b)
    requires Next(bits, m.pos, BitsOf(cfg, |m.out|, final, m.pos, b))
    ensures var n := m.(
        ctl := AfterBlock(final), pos := m.pos + |BitsOf(cfg, |m.out|, final, m.pos, b)|, out := Grow(cfg, m.out, b));
      Leads(cfg, bits, m, n) && Sound(cfg, n)
  {
    hide Accepted, Leads, BlockBits, Step, Run, Expand, Within, ToBits, AllCodable, HasCode, Sound, TokenOk, Next,
      HeaderBits, HeaderOk, FIXED_LIT, FIXED_DIST, BytesToBits, Aligned;
    match b {
      case AsIs(bytes) => AsIsRead(cfg, bits, m, final, bytes);
      case WithFixed(ts) => FixedRead(cfg, bits, m, final, ts);
      case WithOwn(h, ts) => DynamicRoundTrip(cfg, bits, m, final, h, ts);
    }
    LeadsSound(cfg, bits, m, m.(
      ctl := AfterBlock(final), pos := m.pos + |BitsOf(cfg, |m.out|, final, m.pos, b)|, out := Grow(cfg, m.out, b)));
  }

  // ----- streams -----

  predicate StreamOk(cfg: Config, out: seq<byte>, bs: seq<Block>)
    decreases |bs|
  {
    bs != [] ==> BlockOk(cfg, |out|, bs[0]) && StreamOk(cfg, Grow(cfg, out, bs[0]), bs[1..])
  }

  /** What a sequence of blocks means. */
  function Meant(cfg: Config, out: seq<byte>, bs: seq<Block>): (e: seq<byte>)
    requires StreamOk(cfg, out, bs)
    decreases |bs|
  {
    if bs == [] then out else Meant(cfg, Grow(cfg, out, bs[0]), bs[1..])
  }

  /** The blocks as they are written from `pos` on; the last one is marked. */
  function StreamBits(cfg: Config, out: seq<byte>, pos: nat, bs: seq<Block>): (r: seq<bool>)
    requires StreamOk(cfg, out, bs)
    decreases |bs|
  {
    if bs == [] then [] else
      var b := BitsOf(cfg, |out|, |bs| == 1, pos, bs[0]);
      b + StreamBits(cfg, Grow(cfg, out, bs[0]), pos + |b|, bs[1..])
  }

  /** Every sequence of blocks is inflated to what it means. */
  lemma {:induction false} StreamRoundTrip(cfg: Config, bits: seq<bool>, m: Machine, bs: seq<Block>)
    requires Sound(cfg, m) && m.ctl.BlockHeader? && bs != [] && StreamOk(cfg, m.out, bs)
    requires Next(bits, m.pos, StreamBits(cfg, m.out, m.pos, bs))
    ensures Leads(cfg, bits, m, m.(
      ctl := AfterTrailer(cfg), pos := Aligned(m.pos + |StreamBits(cfg, m.out, m.pos, bs)|),
      out := Meant(cfg, m.out, bs)))
    decreases |bs|
  {
    hide Leads, Step, Run, Sound, Next, BitsOf, Grow, BlockOk, Aligned, AfterTrailer;
    var b := BitsOf(cfg, |m.out|, |bs| == 1, m.pos, bs[0]);
    var rest := StreamBits(cfg, Grow(cfg, m.out, bs[0]), m.pos + |b|, bs[1..]);
    NextSplit(bits, m.pos, b, rest);
    AnyRead(cfg, bits, m, |bs| == 1, bs[0]);
    var n := m.(ctl := AfterBlock(|bs| == 1), pos := m.pos + |b|, out := Grow(cfg, m.out, bs[0]));
    if |bs| == 1 {
      assert bs[1..] == [];
      TrailerRead(cfg, bits, n);
      LeadsOn(cfg, bits, m, n, n.(ctl := AfterTrailer(cfg), pos := Aligned(n.pos)));
    } else {
      StreamRoundTrip(cfg, bits, n, bs[1..]);
      LeadsOn(cfg, bits, m, n, n.(
        ctl := AfterTrailer(cfg), pos := Aligned(n.pos + |rest|), out := Meant(cfg, n.out, bs[1..])));
    }
  }

  /** Whatever calls are made on a raw stream that begins with these blocks: the output is always a
      part of what they mean, and all of it once the calls have come to an end. */
  lemma DecodesStream(d: Decompressor, bs: seq<Block>)
    requires d.Idle() && !d.core.cfg.zlib && d.start.ctl == BlockHeader && d.start.pos == 0
    requires bs != [] && StreamOk(d.core.cfg, d.start.out, bs)
    requires StreamBits(d.core.cfg, d.start.out, 0, bs) <= BytesToBits(d.core.reader.stream)
    ensures var e := Meant(d.core.cfg, d.start.out, bs);
      !d.lost && d.core.out.hist <= e && (d.Ended() ==> d.core.ctl.Done? && d.core.out.hist == e)
  {
    hide Step, BytesToBits, Run, StreamBits, StreamOk, Meant, Decompressor.Ended, Decompressor.Idle, Sound, Aligned;
    var cfg, bits := d.core.cfg, d.core.reader.All();
    d.StartSound();
    StreamRoundTrip(cfg, bits, d.start, bs);
    var n: nat :| Run(cfg, bits, d.start, n) == d.start.(
      ctl := AfterTrailer(cfg), pos := Aligned(|StreamBits(cfg, d.start.out, 0, bs)|),
      out := Meant(cfg, d.start.out, bs));
    LeadsToDone(d, n);
  }

  // ----- the zlib envelope (RFC 1950) -----

  /** A two-byte header, the blocks, bits up to the byte boundary, and four bytes of checksum. */
  ghost predicate Enveloped(cfg: Config, out: seq<byte>, bits: seq<bool>, cmf: byte, flg: byte, bs: seq<Block>,
                            sum: seq<byte>)
    requires StreamOk(cfg, out, bs)
  {
    && |sum| == 4 && AfterZlib(cfg, cmf, flg).BlockHeader?
    && Next(bits, 0, ToBits(cmf, 8)) && Next(bits, 8, ToBits(flg, 8)) && Next(bits, 16, StreamBits(cfg, out, 16, bs))
    && Next(bits, Aligned(16 + |StreamBits(cfg, out, 16, bs)|), BytesToBits(sum))
  }

  lemma ZlibHeaderRead(cfg: Config, bits: seq<bool>, m: Machine, cmf: byte, flg: byte)
    requires Sound(cfg, m) && m.ctl == ZlibHeader([]) && AfterZlib(cfg, cmf, flg).BlockHeader?
    requires Next(bits, m.pos, ToBits(cmf, 8)) && Next(bits, m.pos + 8, ToBits(flg, 8))
    ensures Leads(cfg, bits, m, m.(ctl := BlockHeader, pos := m.pos + 16))
  {
    hide Step, Leads, Next, ToBits, Run, AfterZlib;
    ByteRead(cfg, bits, m, cmf);
    OneLeads(cfg, bits, m);
    var n := m.(ctl := ZlibHeader([cmf]), pos := m.pos + 8);
    ByteRead(cfg, bits, n, flg);
    OneLeads(cfg, bits, n);
    LeadsOn(cfg, bits, m, n, Step(cfg, bits, n));
  }

  lemma {:induction false} SumRead(cfg: Config, bits: seq<bool>, m: Machine, got: seq<nat>, more: seq<byte>)
    requires Sound(cfg, m) && m.ctl == Checksum(got) && |got| + |more| == 4 && more != []
    requires Next(bits, m.pos, BytesToBits(more))
    ensures Leads(cfg, bits, m, m.(ctl := Done(got + more), pos := m.pos + 8 * |more|))
    decreases |more|
  {
    hide Step, Leads, Next, ToBits, Run;
    NextSplit(bits, m.pos, ToBits(more[0], 8), BytesToBits(more[1..]));
    ByteRead(cfg, bits, m, more[0]);
    OneLeads(cfg, bits, m);
    if |more| == 1 {
      assert got + more == got + [more[0]];
    } else {
      var n := m.(ctl := Checksum(got + [more[0]]), pos := m.pos + 8);
      SumRead(cfg, bits, n, got + [more[0]], more[1..]);
      assert got + [more[0]] + more[1..] == got + more;
      LeadsOn(cfg, bits, m, n, n.(ctl := Done(got + more), pos := n.pos + 8 * |more[1..]|));
    }
  }

  /** The machine ends with the output and the checksum of the stream. */
  lemma ZlibRoundTrip(cfg: Config, bits: seq<bool>, m: Machine, cmf: byte, flg: byte, bs: seq<Block>, sum: seq<byte>)
    requires Sound(cfg, m) && cfg.zlib && m.ctl == ZlibHeader([]) && m.pos == 0 && bs != [] && StreamOk(cfg, m.out, bs)
    requires Enveloped(cfg, m.out, bits, cmf, flg, bs, sum)
    ensures Leads(cfg, bits, m, m.(
      ctl := Done(sum), pos := Aligned(16 + |StreamBits(cfg, m.out, 16, bs)|) + 32, out := Meant(cfg, m.out, bs)))
  {
    hide Leads, Step, Run, Sound, Next, StreamBits, StreamOk, Meant, Aligned, AfterZlib, ToBits, BytesToBits;
    ZlibHeaderRead(cfg, bits, m, cmf, flg);
    var n := m.(ctl := BlockHeader, pos := 16);
    LeadsSound(cfg, bits, m, n);
    StreamRoundTrip(cfg, bits, n, bs);
    var o := n.(ctl := Checksum([]), pos := Aligned(16 + |StreamBits(cfg, m.out, 16, bs)|), out := Meant(cfg, m.out, bs));
    LeadsSound(cfg, bits, n, o);
    LeadsOn(cfg, bits, m, n, o);
    SumRead(cfg, bits, o, [], sum);
    assert [] + sum == sum;
    LeadsOn(cfg, bits, m, o, o.(ctl := Done(sum), pos := o.pos + 32));
  }

  /** Whatever calls are made on a zlib stream that begins so: the output is always a part of what the
      blocks mean; once the calls have come to an end it is all of it, the four bytes have been read,
      and, if no call failed on the way, the checksum kept is that of the whole output. */
  lemma DecodesZlib(d: Decompressor, cmf: byte, flg: byte, bs: seq<Block>, sum: seq<byte>)
    requires d.Idle() && d.core.cfg.zlib && d.start.ctl == ZlibHeader([]) && d.start.pos == 0
    requires bs != [] && StreamOk(d.core.cfg, d.start.out, bs)
    requires Enveloped(d.core.cfg, d.start.out, d.core.reader.All(), cmf, flg, bs, sum)
    ensures var e := Meant(d.core.cfg, d.start.out, bs);
      !d.lost && d.core.out.hist <= e && (d.Ended() ==> d.core.ctl == Done(sum) && d.core.out.hist == e)
    ensures d.Ended() && !d.skipped ==>
      d.start.out <= d.core.out.hist && d.checkAdler == A.Value(A.Sum(A.START, d.core.out.hist[|d.start.out|..]))
  {
    hide Step, BytesToBits, Run, StreamBits, StreamOk, Meant, Decompressor.Ended, Decompressor.Idle, Sound, Aligned,
      Enveloped;
    if !d.skipped {
      Checksummed(d);
    }
    var cfg, bits := d.core.cfg, d.core.reader.All();
    d.StartSound();
    ZlibRoundTrip(cfg, bits, d.start, cmf, flg, bs, sum);
    var n: nat :| Run(cfg, bits, d.start, n) == d.start.(
      ctl := Done(sum), pos := Aligned(16 + |StreamBits(cfg, d.start.out, 16, bs)|) + 32,
      out := Meant(cfg, d.start.out, bs));
    LeadsToDone(d, n);
  }

  lemma Checksummed(d: Decompressor)
    requires d.Idle() && d.core.cfg.zlib && !d.skipped
    ensures d.start.out <= d.core.out.hist && d.checkAdler == A.Value(A.Sum(A.START, d.core.out.hist[|d.start.out|..]))
  {
    hide A.Sum, A.Value;
  }
}
