/** A seek that fails can change what is read next: a file with a silent frame and a frame that ends
    one byte too early. */
module ApeSeekExample {
  import opened Bits
  import opened Options
  import opened ApeWords
  import opened ApeFrame
  import opened ApeDecoder
  import D = ApeDemux
  import N = ApeEntropyDecoder
  import C = ApeCoding
  import E = ApeEntropy
  import R = ApeRange

  const MONO: Params := Params(1, E.From3990, 0)
  const SILENT: seq<byte> := [0, 0, 0, 128, 1, 0, 0, 0, 0, 0, 0, 0]
  const BROKEN: seq<byte> := [0, 0, 0, 0, 0, 0, 2, 0]
  /** Descriptor, header and seek table take 84 bytes. */
  const LAYOUT: D.Layout := D.Layout(84, [84, 96], 1, 1, 0, 104)
  const BEFORE: seq<byte> := seq(84, _ => 0)
  const FILE: File := File(BEFORE + SILENT + BROKEN, [D.FrameAt(LAYOUT, 0), D.FrameAt(LAYOUT, 1)], MONO, 1, 1)

  lemma SilentFrame()
    ensures DecodeFrame(MONO, SILENT, 0, 1) == Some([(0, 0)])
  {
    hide R.Begin, UnpackStereo;
    var data := SwapWords(SILENT);
    assert data == [128, 0, 0, 0, 0, 0, 0, 1, 0, 0, 0, 0];
    assert Word(data, 0) == 0x8000_0000 && Word(data, 4) == 1;
    assert Silence(1) == [(0, 0)];
  }

  /** The byte that is missing counts as zero, and raises the error flag. */
  lemma Starved()
    ensures R.Normalize(R.Begin([0, 0, 0, 0, 0, 2, 0, 0], 5))
      == R.Rc([0, 0, 0, 0, 0, 2, 0, 0], 8, 0x100_0000, 0x8000_0000, 0, 0x200_0000, true)
  {
    var r := R.Begin([0, 0, 0, 0, 0, 2, 0, 0], 5);
    assert r == R.Rc([0, 0, 0, 0, 0, 2, 0, 0], 6, 1, 128, 0, 2, false);
    var s := R.Shift(r);
    assert s == R.Rc(r.data, 7, 256, 0x8000, 0, 0x200, false);
    var t := R.Shift(s);
    assert t == R.Rc(r.data, 8, 0x1_0000, 0x80_0000, 0, 0x2_0000, false);
    var u := R.Shift(t);
    assert u == R.Rc(r.data, 8, 0x100_0000, 0x8000_0000, 0, 0x200_0000, true);
    assert R.Normalize(u) == u;
    assert R.Normalize(t) == u;
    assert R.Normalize(s) == u;
  }

  /** The coder after the symbol 0 is read. */
  const AFTER: R.Rc := R.Rc([0, 0, 0, 0, 0, 2, 0, 0], 8, 0x100_0000, 19578 * 0x8000, 0x8000, 0x200_0000, true)

  lemma BrokenSymbol()
    ensures E.GetSymbol(R.Begin([0, 0, 0, 0, 0, 2, 0, 0], 5), E.From3990) == (AFTER, 0)
  {
    hide R.Normalize, R.Begin, E.Counts, E.Diff;
    Starved();
    var r := R.Begin([0, 0, 0, 0, 0, 2, 0, 0], 5);
    var (n, cf) := R.Cul(r, 0x1_0000);
    assert n.help == 0x8000 && cf == 512;
    E.Tables(E.From3990);
    FirstShare();
    assert E.FindSymbol(E.Counts(E.From3990), 512, 0) == 0;
  }

  lemma FirstShare()
    ensures |E.Counts(E.From3990)| == 22 && E.Counts(E.From3990)[1] == 19578 && E.Diff(E.From3990)[0] == 19578
  {
  }

  lemma BrokenBase()
    ensures R.Safe(AFTER) && R.Take(AFTER, 512).0.error && R.Take(AFTER, 512).1 == 13
  {
    hide R.Normalize;
    Enough(AFTER);
    var (n, v) := R.Cul(AFTER, 512);
    assert n.help == 1252992 && v == 13;
  }

  lemma BrokenValue()
    ensures E.RiceOk(E.START)
    ensures var (r, rice, v) := E.Value3990(R.Begin([0, 0, 0, 0, 0, 2, 0, 0], 5), E.START); r.error && v == 7
  {
    hide R.Take, R.Begin, E.GetSymbol, E.UpdateRice;
    BrokenSymbol();
    BrokenBase();
    assert E.Pivot(E.START) == 512;
    assert E.Base(AFTER, 512) == R.Take(AFTER, 512);
    assert E.ToSigned(13) == 7;
  }

  lemma Enough(r: R.Rc)
    requires R.Safe(r) && r.range > R.BOTTOM_VALUE
    ensures R.Normalize(r) == r
  {
  }

  lemma BrokenHeader()
    ensures SwapWords(BROKEN) == [0, 0, 0, 0, 0, 2, 0, 0] && ReadHeader(SwapWords(BROKEN), 0) == Some(Header(0, 5))
    ensures |BROKEN| == 8
  {
    var data := SwapWords(BROKEN);
    assert data == [0, 0, 0, 0, 0, 2, 0, 0];
    assert Word(data, 0) == 0;
  }

  lemma BrokenFrame()
    ensures DecodeFrame(MONO, BROKEN, 0, 1) == None
    ensures Left(MONO, BROKEN, 0, 1) == One([7])
  {
    hide R.Begin, E.Value3990, C.Pairs, C.Singles, SwapWords, BROKEN;
    BrokenHeader();
    BrokenValue();
    OneSingle(R.Begin(SwapWords(BROKEN), 5));
  }

  lemma OneSingle(r: R.Rc)
    requires R.Safe(r)
    ensures E.RiceOk(E.START)
    ensures var (s, rice, v) := E.Value3990(r, E.START);
      C.Singles(E.From3990, r, E.START, 1) == (s, [v])
  {
    hide E.Value3990, C.Singles;
    var (s, rice, v) := E.Value3990(r, E.START);
    N.NextSingle(E.From3990, r, E.START, 1);
    N.NoSinglesLeft(E.From3990, s, rice);
    assert E.Value(E.From3990, r, E.START) == (s, rice, v) && [v] + [] == [v];
  }

  lemma Table()
    ensures D.Readable(LAYOUT) && D.FrameAt(LAYOUT, 0) == D.Frame(84, 12, 1, 0) && D.FrameAt(LAYOUT, 1) == D.Frame(96, 8, 1, 0)
  {
  }

  lemma Frames()
    ensures Playable(FILE) && FrameBytes(FILE, 0) == Some(SILENT) && FrameBytes(FILE, 1) == Some(BROKEN)
    ensures FrameBlocks(FILE, 0) == FrameBlocks(FILE, 1) == 1 && Target(FILE, 1) == 1
    ensures |FILE.frames| == 2 && FILE.frames[0].skip == FILE.frames[1].skip == 0 && FILE.params == MONO
  {
    hide SILENT, BROKEN;
    Table();
    Sizes();
    assert FILE.bytes[84..96] == SILENT && FILE.bytes[96..104] == BROKEN;
  }

  lemma MonoChannels()
    ensures MONO.channels == 1
  {
  }

  lemma Sizes()
    ensures |SILENT| == 12 && |BROKEN| == 8
  {
  }

  lemma Opened()
    ensures Playable(FILE) && Good(FILE, 0) && !Good(FILE, 1) && LeftBy(FILE, 1) == One([7])
    ensures Ahead(FILE, 0) == FramePcm(FILE, 0) == [[0]] && Ahead(FILE, 1) == []
  {
    hide DecodeFrame, Left, FrameBytes, SILENT, BROKEN, FILE, LAYOUT, BEFORE, MONO, Zip;
    Frames();
    SilentFrame();
    BrokenFrame();
    assert Decoded(FILE, 0) == Some([(0, 0)]) && Decoded(FILE, 1) == None;
    assert Ahead(FILE, 1) == [];
    MonoChannels();
    assert Pcm(1, (0, 0)) == [0];
    assert FramePcm(FILE, 0) == [[0]];
  }

  /** What is left after the seek. */
  lemma SpoiledCarry(d: ApeDecoder, was: (seq<int>, seq<int>))
    requires d.Valid() && d.file == FILE && d.carryReadPos == 0 && d.carryFrames == 1
    requires |was.0| == |was.1| == d.frame.decoded0.Length && d.frame.Buffers() == Spoiled(One([7]), was)
    ensures d.Carry() == [[7]]
  {
    hide Zip;
    assert d.frame.decoded0[..][0] == 7;
    assert d.frame.decoded0[0..1] == [7];
    assert Zip([7], d.frame.decoded1[0..1]) == [(7, d.frame.decoded1[0])] by {
      ZipOne(7, d.frame.decoded1[0]);
      assert d.frame.decoded1[0..1] == [d.frame.decoded1[0]];
    }
    assert Pcm(1, (7, d.frame.decoded1[0])) == [7];
  }

  lemma ZipOne(a: int, b: int)
    ensures Zip([a], [b]) == [(a, b)]
  {
  }

  method OpenAndRead() returns (out: seq<seq<int>>)
    ensures out == [[0]]
  {
    hide Good, FramePcm, Ahead, LeftBy, Stop, Zip, PcmAll;
    Opened();
    var ok, d := ApeDecoder.Open(FILE);
    var status;
    out, status := d.Read(1);
  }

  method OpenSeekAndRead() returns (sought: bool, out: seq<seq<int>>)
    ensures !sought && out == [[7]]
  {
    hide Good, FramePcm, Ahead, LeftBy, Stop, Zip, PcmAll, Full, AllGood, Spoiled;
    Opened();
    Frames();
    var ok, d := ApeDecoder.Open(FILE);
    ghost var was := d.frame.Buffers();
    assert d.Carry() == [[0]];
    sought := d.Seek(1);
    SpoiledCarry(d, was);
    var status;
    out, status := d.Read(1);
  }

  /** One sample read after opening, and after opening and a seek that fails: a silent sample in the
      first case, in the second the first value that the failing frame's entropy decoder wrote. */
  method Compare() returns (plain: seq<seq<int>>, sought: bool, after: seq<seq<int>>)
    ensures D.Readable(LAYOUT) && plain == [[0]] && !sought && after == [[7]]
  {
    Table();
    plain := OpenAndRead();
    sought, after := OpenSeekAndRead();
  }
}
