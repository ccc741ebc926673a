/** The frame table of a Monkey's Audio file: where each frame's bytes are, how many of them to
    skip, and how many blocks they hold. */
module ApeDemux {
  import opened Bits
  import opened ApeWords

  datatype Frame = Frame(pos: nat, size: nat, nblocks: nat, skip: nat)

  /** The header fields the table is made from.  `seektable[0]` is read but not used. */
  datatype Layout = Layout(
    firstframe: nat,
    seektable: seq<nat>,
    blocksperframe: nat,
    finalframeblocks: nat,
    wavtaillength: nat,
    filesize: nat)

  predicate Readable(l: Layout) {
    && 0 < |l.seektable| < TWO32 && l.firstframe < 4 * TWO32 && l.wavtaillength < TWO32 && l.filesize < TWO63
    && l.blocksperframe < TWO32 && l.finalframeblocks < TWO32
    && forall i :: 0 <= i < |l.seektable| ==> l.seektable[i] < TWO32
  }

  function Unsigned64(x: int): (r: nat)
    ensures r < TWO64
  {
    x % TWO64
  }

  /** Where frame `i` begins, to the byte. */
  function Entry(l: Layout, i: nat): nat
    requires i < |l.seektable|
  {
    if i == 0 then l.firstframe else l.seektable[i]
  }

  /** How many bytes the frame begins after a word boundary counted from the first frame. */
  function Skip(l: Layout, i: nat): (s: nat)
    requires i < |l.seektable|
    ensures s <= 3
  {
    if i == 0 then 0 else Unsigned64(Entry(l, i) - l.firstframe) % 4
  }

  /** The last frame reaches to the end of the audio data, in whole words. */
  function FinalSize(l: Layout): (s: nat)
    requires |l.seektable| > 0
  {
    var left := l.filesize - Entry(l, |l.seektable| - 1) - l.wavtaillength;
    if l.filesize == 0 || left - left % 4 <= 0 then l.finalframeblocks * 8 else left - left % 4
  }

  function RawSize(l: Layout, i: nat): nat
    requires i < |l.seektable|
  {
    if i == |l.seektable| - 1 then FinalSize(l) else Unsigned64(Entry(l, i + 1) - Entry(l, i))
  }

  function RoundUp4(x: nat): (r: nat) {
    Unsigned64(x + 3) / 4 * 4
  }

  function FrameAt(l: Layout, i: nat): (f: Frame)
    requires i < |l.seektable|
  {
    Frame(
      Unsigned64(Entry(l, i) - Skip(l, i)),
      RoundUp4(Unsigned64(RawSize(l, i) + Skip(l, i))),
      if i == |l.seektable| - 1 then l.finalframeblocks else l.blocksperframe,
      Skip(l, i))
  }

  /** The table built by `ape_demux_open`: one pass over the seek table, then one that aligns. */
  method Build(l: Layout) returns (frames: array<Frame>, totalSamples: nat)
    requires Readable(l)
    ensures fresh(frames) && frames.Length == |l.seektable|
    ensures forall i :: 0 <= i < frames.Length ==> frames[i] == FrameAt(l, i)
    ensures totalSamples == Blocks(l, |l.seektable|) < TWO64
  {
    hide Unsigned64, RoundUp4, Blocks, FrameAt;
    var n := |l.seektable|;
    totalSamples := Total(l);
    frames := ReadTable(l);
    frames[n - 1] := frames[n - 1].(nblocks := l.finalframeblocks);
    var final := 0;
    if l.filesize > 0 {
      final := l.filesize - frames[n - 1].pos - l.wavtaillength;
      final := final - final % 4;
    }
    if l.filesize == 0 || final <= 0 {
      final := l.finalframeblocks * 8;
    }
    frames[n - 1] := frames[n - 1].(size := final);
    Align(l, frames);
  }

  method Total(l: Layout) returns (totalSamples: nat)
    requires Readable(l)
    ensures totalSamples == Blocks(l, |l.seektable|) < TWO64
  {
    hide Blocks;
    totalSamples := l.finalframeblocks;
    if |l.seektable| > 1 {
      totalSamples := totalSamples + l.blocksperframe * (|l.seektable| - 1);
    }
    TotalFits(l);
  }

  /** A frame before it is aligned. */
  function Unaligned(l: Layout, i: nat): (f: Frame)
    requires i < |l.seektable|
  {
    Frame(Entry(l, i), RawSize(l, i), if i == |l.seektable| - 1 then l.finalframeblocks else l.blocksperframe, Skip(l, i))
  }

  /** The pass over the seek table; the last frame's size and blocks are set afterwards. */
  method ReadTable(l: Layout) returns (frames: array<Frame>)
    requires Readable(l)
    ensures fresh(frames) && frames.Length == |l.seektable|
    ensures forall i :: 0 <= i < frames.Length - 1 ==> frames[i] == Unaligned(l, i)
    ensures frames[frames.Length - 1].pos == Entry(l, frames.Length - 1)
    ensures frames[frames.Length - 1].skip == Skip(l, frames.Length - 1)
  {
    hide Unsigned64;
    var n := |l.seektable|;
    frames := new Frame[n](_ => Frame(0, 0, 0, 0));
    frames[0] := Frame(l.firstframe, 0, l.blocksperframe, 0);
    for i := 1 to n
      invariant frames[i - 1].pos == Entry(l, i - 1) && frames[i - 1].skip == Skip(l, i - 1)
      invariant frames[0].pos == l.firstframe && frames[i - 1].nblocks == l.blocksperframe
      invariant forall j :: 0 <= j < i - 1 ==> frames[j] == Unaligned(l, j)
    {
      var entry := l.seektable[i];
      frames[i] := Frame(entry, 0, l.blocksperframe, Unsigned64(entry - frames[0].pos) % 4);
      frames[i - 1] := frames[i - 1].(size := Unsigned64(frames[i].pos - frames[i - 1].pos));
    }
  }

  /** The second pass: frames begin and end at word boundaries. */
  method Align(l: Layout, frames: array<Frame>)
    requires Readable(l) && frames.Length == |l.seektable|
    requires forall i :: 0 <= i < frames.Length ==> frames[i] == Unaligned(l, i)
    modifies frames
    ensures forall i :: 0 <= i < frames.Length ==> frames[i] == FrameAt(l, i)
  {
    hide Unaligned, FrameAt, Unsigned64, RoundUp4;
    for i := 0 to frames.Length
      invariant forall j :: i <= j < frames.Length ==> frames[j] == Unaligned(l, j)
      invariant forall j :: 0 <= j < i ==> frames[j] == FrameAt(l, j)
    {
      AlignedFrame(l, i);
      if frames[i].skip > 0 {
        frames[i] := frames[i].(pos := Unsigned64(frames[i].pos - frames[i].skip),
                                size := Unsigned64(frames[i].size + frames[i].skip));
      }
      frames[i] := frames[i].(size := RoundUp4(frames[i].size));
    }
  }

  lemma AlignedFrame(l: Layout, i: nat)
    requires Readable(l) && i < |l.seektable|
    ensures var u := Unaligned(l, i);
      FrameAt(l, i) ==
        if u.skip > 0 then Frame(Unsigned64(u.pos - u.skip), RoundUp4(Unsigned64(u.size + u.skip)), u.nblocks, u.skip)
        else u.(size := RoundUp4(u.size))
  {
    hide RoundUp4, Unsigned64, RawSize, Entry, Skip;
    InRange(l, i);
  }

  /** Numbers that need no reduction. */
  lemma InRange(l: Layout, i: nat)
    requires Readable(l) && i < |l.seektable|
    ensures Unsigned64(Entry(l, i)) == Entry(l, i)
    ensures Unsigned64(RawSize(l, i)) == RawSize(l, i)
  {
  }

  /** The blocks of the first `n` frames. */
  function Blocks(l: Layout, n: nat): nat
    requires n <= |l.seektable|
  {
    if n == 0 then 0 else Blocks(l, n - 1) + FrameAt(l, n - 1).nblocks
  }

  /** Every frame but the last holds `blocksperframe`: frame `n` begins at sample `n * blocksperframe`. */
  lemma {:induction false} BlocksBefore(l: Layout, n: nat)
    requires n < |l.seektable|
    ensures Blocks(l, n) == n * l.blocksperframe
    ensures Blocks(l, |l.seektable|) == (|l.seektable| - 1) * l.blocksperframe + l.finalframeblocks
    decreases |l.seektable| - 1 - n, n
  {
    hide FrameAt;
    BlocksUpTo(l, n);
    BlocksUpTo(l, |l.seektable| - 1);
    BlocksOf(l, |l.seektable| - 1);
  }

  lemma BlocksOf(l: Layout, i: nat)
    requires i < |l.seektable|
    ensures FrameAt(l, i).nblocks == if i == |l.seektable| - 1 then l.finalframeblocks else l.blocksperframe
  {
    hide Unsigned64, RoundUp4, RawSize, Entry, Skip;
  }

  lemma {:induction false} BlocksUpTo(l: Layout, n: nat)
    requires n < |l.seektable|
    ensures Blocks(l, n) == n * l.blocksperframe
  {
    hide FrameAt;
    if n > 0 {
      BlocksUpTo(l, n - 1);
      BlocksOf(l, n - 1);
    }
  }

  /** A seek table lists its frames in the order of the file. */
  predicate Ordered(l: Layout) {
    forall i :: 0 <= i < |l.seektable| - 1 ==> Entry(l, i) <= Entry(l, i + 1)
  }

  /** In whole words counted from the first frame, each frame's bytes begin with the word that
      holds its first byte and end with the word that holds the last byte before the next frame:
      neighbours share one word exactly when the second begins inside it. */
  lemma FramesTile(l: Layout, i: nat)
    requires Readable(l) && Ordered(l) && i < |l.seektable|
    ensures var f := FrameAt(l, i);
      && f.pos + f.skip == Entry(l, i) && f.skip <= 3
      && l.firstframe <= f.pos && (f.pos - l.firstframe) % 4 == 0 && f.size % 4 == 0
      && (i + 1 < |l.seektable| ==>
        f.pos + f.size == FrameAt(l, i + 1).pos + if FrameAt(l, i + 1).skip == 0 then 0 else 4)
      && (i + 1 == |l.seektable| && Entry(l, i) + l.wavtaillength + 4 <= l.filesize ==>
        l.filesize - l.wavtaillength - 4 < f.pos + f.size <= l.filesize - l.wavtaillength + 3)
  {
    hide FrameAt, Skip, RawSize, Entry, RoundUp4;
    Aligned(l, i);
    SizeOf(l, i);
    var f := FrameAt(l, i);
    if i + 1 < |l.seektable| {
      assert Entry(l, i) <= Entry(l, i + 1);
      Aligned(l, i + 1);
      var g := FrameAt(l, i + 1);
      RoundUpParts(f.pos - l.firstframe, g.pos - l.firstframe, g.skip);
    } else if Entry(l, i) + l.wavtaillength + 4 <= l.filesize {
      LastSize(l);
    }
  }

  /** Where the end of the audio data is unknown, or no word of it is left, the last frame gets eight
      bytes for each block. */
  lemma LastUnknown(l: Layout)
    requires Readable(l)
    requires l.filesize == 0 || l.filesize < Entry(l, |l.seektable| - 1) + l.wavtaillength + 4
    ensures var f := FrameAt(l, |l.seektable| - 1);
      f.size % 4 == 0 && 8 * l.finalframeblocks + f.skip <= f.size <= 8 * l.finalframeblocks + f.skip + 3
  {
    hide Skip, Entry, RoundUp4;
    var i := |l.seektable| - 1;
    assert RawSize(l, i) == l.finalframeblocks * 8 by {
      var left := l.filesize - Entry(l, i) - l.wavtaillength;
      assert l.filesize == 0 || left - left % 4 <= 0;
    }
    RoundUpNear(l.finalframeblocks * 8 + Skip(l, i));
  }

  lemma RoundUpNear(x: nat)
    requires x + 3 < TWO64
    ensures Unsigned64(x) == x && RoundUp4(x) % 4 == 0 && x <= RoundUp4(x) <= x + 3
  {
  }

  /** Rounding up a whole number of words and a bit. */
  lemma RoundUpParts(a: nat, b: nat, rest: nat)
    requires a % 4 == 0 && b % 4 == 0 && a <= b + rest && rest <= 3 && b + 8 < TWO64
    ensures RoundUp4(b + rest - a) == b - a + if rest == 0 then 0 else 4
  {
  }

  lemma Aligned(l: Layout, i: nat)
    requires Readable(l) && Ordered(l) && i < |l.seektable|
    ensures var f := FrameAt(l, i);
      f.pos == Entry(l, i) - Skip(l, i) && l.firstframe <= f.pos <= 4 * TWO32
      && (f.pos - l.firstframe) % 4 == 0 && f.skip == Skip(l, i)
  {
    hide RawSize, RoundUp4;
    OrderedFromFirst(l, i);
  }

  lemma SizeOf(l: Layout, i: nat)
    requires Readable(l) && Ordered(l) && i < |l.seektable|
    ensures FrameAt(l, i).size == RoundUp4(RawSize(l, i) + Skip(l, i)) && FrameAt(l, i).size % 4 == 0
    ensures i + 1 < |l.seektable| ==> RawSize(l, i) == Entry(l, i + 1) - Entry(l, i)
  {
    hide Skip, RawSize, RoundUp4;
    RawSizeOf(l, i);
    RoundUpIsWords(RawSize(l, i) + Skip(l, i));
  }

  lemma RoundUpIsWords(x: nat)
    ensures RoundUp4(x) % 4 == 0
  {
  }

  lemma RawSizeOf(l: Layout, i: nat)
    requires Readable(l) && Ordered(l) && i < |l.seektable|
    ensures RawSize(l, i) + 3 < TWO64
    ensures i + 1 < |l.seektable| ==> RawSize(l, i) == Entry(l, i + 1) - Entry(l, i)
  {
    assert i + 1 < |l.seektable| ==> Entry(l, i) <= Entry(l, i + 1);
  }

  lemma LastSize(l: Layout)
    requires Readable(l) && Entry(l, |l.seektable| - 1) + l.wavtaillength + 4 <= l.filesize
    ensures var i := |l.seektable| - 1;
      var left := l.filesize - Entry(l, i) - l.wavtaillength;
      var size := RoundUp4(RawSize(l, i) + Skip(l, i));
      left - 4 < RawSize(l, i) <= left && size == RawSize(l, i) + if Skip(l, i) == 0 then 0 else 4
  {
  }

  /** In an ordered table no frame begins before the first. */
  lemma {:induction false} OrderedFromFirst(l: Layout, i: nat)
    requires Ordered(l) && i < |l.seektable|
    ensures l.firstframe <= Entry(l, i)
  {
    if i > 0 {
      OrderedFromFirst(l, i - 1);
      assert Entry(l, i - 1) <= Entry(l, i - 1 + 1);
    }
  }

  lemma TotalFits(l: Layout)
    requires Readable(l)
    ensures Blocks(l, |l.seektable|) == (|l.seektable| - 1) * l.blocksperframe + l.finalframeblocks
      < TWO64
  {
    BlocksBefore(l, |l.seektable| - 1);
    Product(|l.seektable| - 1, l.blocksperframe);
  }

  lemma Product(a: nat, b: nat)
    requires a < TWO32 && b < TWO32
    ensures a * b <= (TWO32 - 1) * (TWO32 - 1)
  {
    TimesMono(a, b, TWO32 - 1);
    TimesMono(TWO32 - 1, a, TWO32 - 1);
  }
}
