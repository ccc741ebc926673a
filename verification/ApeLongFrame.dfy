/** A file that is opened although its last frame does not fit the sample buffer: one block to a frame,
    and nine in the last one. */
module ApeLongFrame {
  import opened Bits
  import opened Options
  import opened ApeWords
  import opened ApeFrame
  import opened ApeFrameDecoder
  import opened ApeDecoder
  import D = ApeDemux
  import E = ApeEntropy
  import R = ApeRange

  const STEREO: Params := Params(2, E.From3990, 0)
  /** A frame of silence on both channels. */
  const QUIET: seq<byte> := [0, 0, 0, 128, 3, 0, 0, 0, 0, 0, 0, 0]
  /** Descriptor, header and seek table take 84 bytes. */
  const LAYOUT: D.Layout := D.Layout(84, [84, 96], 1, 9, 0, 108)
  const BEFORE: seq<byte> := seq(84, _ => 0)
  const LONG: File := File(BEFORE + QUIET + QUIET, [D.FrameAt(LAYOUT, 0), D.FrameAt(LAYOUT, 1)], STEREO, 1, 9)

  lemma QuietFrame(n: nat)
    ensures DecodeFrame(STEREO, QUIET, 0, n) == Some(Silence(n))
  {
    hide R.Begin, UnpackMono;
    var data := SwapWords(QUIET);
    assert data == [128, 0, 0, 0, 0, 0, 0, 3, 0, 0, 0, 0];
    assert Word(data, 0) == 0x8000_0000 && Word(data, 4) == 3;
  }

  lemma LongTable()
    ensures D.Readable(LAYOUT) && D.FrameAt(LAYOUT, 0) == D.Frame(84, 12, 1, 0) && D.FrameAt(LAYOUT, 1) == D.Frame(96, 12, 9, 0)
  {
  }

  lemma LongBytes()
    ensures Openable(LONG) && FrameBytes(LONG, 0) == FrameBytes(LONG, 1) == Some(QUIET)
    ensures FrameBlocks(LONG, 0) == 1 && FrameBlocks(LONG, 1) == 9
  {
    hide QUIET;
    LongTable();
    QuietLength();
    assert LONG.bytes[84..96] == QUIET && LONG.bytes[96..108] == QUIET;
  }

  lemma QuietLength()
    ensures |QUIET| == 12
  {
  }

  /** The table is read and both frames decode, so that nothing is refused; but the ninth sample of the
      first channel goes where the second channel's first one is, and the ninth sample of the second
      channel to the end of the allocation. */
  lemma LastFrameTooLong()
    ensures D.Readable(LAYOUT) && Openable(LONG) && Good(LONG, 0) && Decoded(LONG, 1) == Some(Silence(9))
    ensures !FitsRoom(2, 1, 9) && !Playable(LONG)
    ensures Place(1, 0, 8) == Place(1, 1, 0) && Place(1, 1, 8) == PartEnd(2, 1, 1) == 2 * Part(1)
  {
    hide DecodeFrame, QUIET, FrameBytes;
    LongTable();
    LongBytes();
    QuietFrame(1);
    QuietFrame(9);
    assert FrameBlocks(LONG, 1) == 9;
  }
}
