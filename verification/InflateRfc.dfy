/** The constants of deflate against what RFC 1951 says about them, its example of a code, and a stream
    byte by byte. */
module InflateRfc {
  import opened Bits
  import opened InflateCode
  import opened InflateTables
  import opened InflateStream
  import opened InflateLogic
  import opened InflateWindow
  import opened InflateEngine
  import opened InflateDecompress
  import opened InflateFormat
  import opened InflateBlocks
  import InflateCallback

  // ----- lengths and distances (section 3.2.5) -----

  /** Symbols 265 to 284 have one extra bit for the first four of them, two for the next four, and so
      on; the others have none.  Their lengths follow one another without gap or overlap; 285 is 258. */
  lemma LengthTable(i: nat)
    requires i <= 28
    ensures |LENGTH_BASE| == |LENGTH_EXTRA| == 31
    ensures LENGTH_EXTRA[i] == if i < 8 || i == 28 then 0 else i / 4 - 1
    ensures LENGTH_BASE[0] == 3 && LENGTH_BASE[28] == 258
    ensures i < 27 ==> LENGTH_BASE[i + 1] == LENGTH_BASE[i] + Pow2(LENGTH_EXTRA[i])
    ensures i == 27 ==> LENGTH_BASE[i] + Pow2(LENGTH_EXTRA[i]) == 259
  {
    hide Pow2;
    PowersTo5();
  }

  /** Distance symbols have one extra bit for 4 and 5, two for 6 and 7, and so on, and their distances
      follow one another up to 32768. */
  lemma DistanceTable(i: nat)
    requires i <= 29
    ensures |DIST_BASE| == |DIST_EXTRA| == 32
    ensures DIST_EXTRA[i] == if i < 4 then 0 else i / 2 - 1
    ensures DIST_BASE[0] == 1
    ensures i < 29 ==> DIST_BASE[i + 1] == DIST_BASE[i] + Pow2(DIST_EXTRA[i])
    ensures i == 29 ==> DIST_BASE[i] + Pow2(DIST_EXTRA[i]) == 32769
  {
    hide Pow2;
    PowersTo5();
    PowersTo13();
  }

  /** The window that the callback gets its pieces from holds the longest distance, and nothing more. */
  lemma LongestDistance()
    ensures |DIST_BASE| == |DIST_EXTRA| == 32
    ensures DIST_BASE[29] + Pow2(DIST_EXTRA[29]) - 1 == InflateCallback.DICT_SIZE
    ensures InflateCallback.Mode(true) == InflateCallback.Mode(false).(zlib := true)
    ensures InflateCallback.Mode(true).wrap && InflateCallback.Mode(true).window == InflateCallback.DICT_SIZE
  {
    DistanceTable(29);
  }

  lemma {:induction false} LengthsRise(i: nat, j: nat)
    requires i < j <= 27
    ensures |LENGTH_BASE| == |LENGTH_EXTRA| == 31 && LENGTH_BASE[i] + Pow2(LENGTH_EXTRA[i]) <= LENGTH_BASE[j]
    decreases j - i
  {
    hide LENGTH_BASE, LENGTH_EXTRA, Pow2;
    LengthTable(i);
    if i + 1 < j {
      LengthsRise(i + 1, j);
    }
  }

  /** So every length has one symbol and one number of extra bits, but for 258, which has two. */
  lemma OneLengthSymbol(i: nat, x: nat, j: nat, y: nat)
    requires i <= j <= 28 && |LENGTH_BASE| == |LENGTH_EXTRA| == 31
    requires x < Pow2(LENGTH_EXTRA[i]) && y < Pow2(LENGTH_EXTRA[j]) && LENGTH_BASE[i] + x == LENGTH_BASE[j] + y
    ensures (i == j && x == y) || (i == 27 && x == 31 && j == 28)
  {
    hide LENGTH_BASE, LENGTH_EXTRA, Pow2;
    if i < j <= 27 {
      LengthsRise(i, j);
    } else if i < j {
      LengthTable(i);
      LengthTable(27);
      LengthTable(28);
      if i < 27 {
        LengthsRise(i, 27);
      }
      PowersTo5();
    }
  }

  // ----- block headers (sections 3.2.3 and 3.2.4) -----

  /** The first bit says that the block is the last one, the next two, low bit first, which kind it is:
      stored, with the fixed code, with its own tables, or none. */
  lemma BlockKinds(header: nat)
    requires header < 8
    ensures var b := ToBits(header, 3);
      AfterHeader(header) ==
        if b[1..] == [false, false] then StoredStart(b[0])
        else if b[1..] == [true, false] then BuildTables(b[0], FIXED_LIT, FIXED_DIST)
        else if b[1..] == [false, true] then TableSizes(b[0], [])
        else Failed
  {
    hide FIXED_LIT, FIXED_DIST;
    assert ToBits(header, 3) == [header % 2 == 1, header / 2 % 2 == 1, header / 2 / 2 % 2 == 1];
  }

  /** A stored block begins with its length, low byte first, and the same with all bits turned over;
      anything else is refused. */
  lemma StoredHeaders(final: bool, h: seq<byte>)
    requires |h| == 4
    ensures Small(h, 4)
    ensures var a, b := BytesToBits(h[..2]), BytesToBits(h[2..]);
      AfterStoredHeader(final, h) ==
        if |a| == |b| == 16 && forall i :: 0 <= i < 16 ==> a[i] != b[i] then Stored(final, FromBits(a)) else Failed
  {
    hide FromBits;
    var a, b := BytesToBits(h[..2]), BytesToBits(h[2..]);
    PairBits(h[0], h[1]);
    PairBits(h[2], h[3]);
    assert h[..2] == [h[0], h[1]] && h[2..] == [h[2], h[3]];
    ComplementIs(a, b);
    assert Pow2(16) == 65536 by {
      assert Pow2(8) == 256;
      Pow2Add(8, 8);
    }
  }

  lemma PairBits(c: byte, d: byte)
    ensures var b := BytesToBits([c, d]); |b| == 16 && FromBits(b) == c as nat + 256 * d as nat
  {
    hide ToBits, FromBits;
    var b := BytesToBits([c, d]);
    assert [c, d][1..] == [d] && BytesToBits([d]) == ToBits(d, 8) + BytesToBits([]) == ToBits(d, 8);
    ToFromByte(c);
    ToFromByte(d);
    FromBitsConcat(ToBits(c, 8), ToBits(d, 8));
    SmallPowers();
  }

  /** Two numbers of which one has all bits of the other turned over. */
  lemma {:induction false} ComplementIs(a: seq<bool>, b: seq<bool>)
    requires |a| == |b|
    ensures (forall i :: 0 <= i < |a| ==> a[i] != b[i]) <==> FromBits(a) + FromBits(b) == Pow2(|a|) - 1
  {
    if a != [] {
      ComplementIs(a[1..], b[1..]);
      var rest := FromBits(a[1..]) + FromBits(b[1..]);
      assert FromBits(a) + FromBits(b) == Bit(a[0]) + Bit(b[0]) + 2 * rest;
    }
  }

  // ----- the header of a block with its own tables (section 3.2.7) -----

  /** 257 to 288 literal/length codes, 1 to 32 distance codes, 4 to 19 code-length codes. */
  lemma TableSizeRanges(i: nat)
    requires i < 3
    ensures |MIN_TABLE_SIZES| == |TABLE_SIZE_BITS| == 3
    ensures MIN_TABLE_SIZES[i] == [257, 1, 4][i]
    ensures MIN_TABLE_SIZES[i] + Pow2(TABLE_SIZE_BITS[i]) - 1 == [288, 32, 19][i]
  {
    hide Pow2;
    PowersTo5();
  }

  /** Symbol 16 copies the last length 3 to 6 times, 17 writes 3 to 10 zeros and 18 another 11 to 138. */
  lemma RepeatRanges(sym: nat)
    requires 16 <= sym <= 18
    ensures |REPEAT_BASE| == |REPEAT_BITS| == 3
    ensures REPEAT_BASE[sym - 16] == [3, 3, 11][sym - 16]
    ensures REPEAT_BASE[sym - 16] + Pow2(REPEAT_BITS[sym - 16]) - 1 == [6, 10, 138][sym - 16]
  {
    hide Pow2;
    PowersTo5();
    PowersTo13();
  }

  /** The code lengths come with the repetitions and zero first; then 8, and outwards from it 7 and 9,
      6 and 10, to 1 and 15. */
  lemma CodeLengthOrder(k: nat)
    requires k < 8
    ensures |DEZIGZAG| == 19 && DEZIGZAG[..4] == [16, 17, 18, 0]
    ensures DEZIGZAG[4 + 2 * k] == 8 + k && (k < 7 ==> DEZIGZAG[5 + 2 * k] == 7 - k)
  {
  }

  /** What a repetition leads to: more symbols are read while lengths are missing, the tables are built
      when they are all there, and lengths beyond those asked for are refused, as is a copy of the
      last length where there is none. */
  lemma Repetitions(final: bool, counts: seq<nat>, clen: seq<nat>, lens: seq<nat>, sym: nat, extra: nat)
    requires Counts(counts) && |clen| == 19 && Accepted(clen) && AtMost(lens, 15) && |lens| < counts[0] + counts[1]
    requires 16 <= sym <= 18
    ensures sym == 16 && lens == [] ==> AfterLength(final, counts, clen, lens, sym) == Failed
    ensures sym > 16 || lens != [] ==>
      var total, c := counts[0] + counts[1], AfterRepeat(final, counts, clen, lens, sym, extra);
      var n := |lens| + extra + (if sym == 18 then 11 else 3);
      && AfterLength(final, counts, clen, lens, sym) == Repeat(final, counts, clen, lens, sym)
      && (n > total ==> c == Failed)
      && (n < total ==> c.LenCodes? && |c.lens| == n && Repeats(lens, sym == 16, c.lens))
      && (n == total ==> c.BuildTables? && |c.lit| == counts[0] && Repeats(lens, sym == 16, c.lit + c.dist))
  {
    hide Accepted;
  }

  /** `more` are the lengths `lens` with zeros, or the last length, after them. */
  predicate Repeats(lens: seq<nat>, last: bool, more: seq<nat>)
    requires last ==> lens != []
  {
    && lens <= more
    && forall i :: |lens| <= i < |more| ==> more[i] == if last then lens[|lens| - 1] else 0
  }

  // ----- symbols that never occur (section 3.2.6) -----

  /** Literal/length symbols 286 and 287 are let through, as matches without a byte; distance symbols 30
      and 31 mean distance 0, which is refused without a window and a whole window back with one. */
  lemma NeverOccur(cfg: Config, out: nat, final: bool, lit: seq<nat>, dist: seq<nat>, length: nat, sym: nat)
    requires Codes(lit, dist)
    ensures 286 <= sym <= 287 ==> AfterSymbol(final, lit, dist, sym) == DistSymbol(final, lit, dist, 0)
    ensures 30 <= sym <= 31 ==>
      AfterDistSymbol(cfg, out, final, lit, dist, length, sym)
        == if cfg.wrap then Copy(final, lit, dist, length, 0) else Failed
    ensures cfg.wrap && cfg.window > 0 ==> Back(cfg, 0) == cfg.window
  {
    hide Codes;
    if cfg.wrap && cfg.window > 0 {
      DivModUnique(cfg.window - 1, cfg.window, 0, cfg.window - 1);
    }
  }

  // ----- codes (section 3.2.2) -----

  /** Symbols of one length have consecutive codes. */
  lemma {:induction false} Consecutive(sizes: seq<nat>, s: nat, t: nat)
    requires s < t < |sizes| && sizes[s] == sizes[t] > 0
    requires forall u :: s < u < t ==> sizes[u] != sizes[s]
    ensures CodeValue(sizes, t) == CodeValue(sizes, s) + 1
  {
    hide NextCode;
    NoneBetween(sizes, s + 1, t, sizes[s]);
  }

  lemma {:induction false} NoneBetween(sizes: seq<nat>, m: nat, n: nat, l: nat)
    requires m <= n <= |sizes| && forall u :: m <= u < n ==> sizes[u] != l
    ensures Count(sizes, n, l) == Count(sizes, m, l)
  {
    if m < n {
      NoneBetween(sizes, m, n - 1, l);
    }
  }

  /** The example: lengths for the letters A to H. */
  const EXAMPLE: seq<nat> := [3, 3, 3, 3, 3, 2, 4, 4]

  lemma ExampleCounts(l: nat)
    requires 1 <= l <= 3
    ensures Count(EXAMPLE, 8, l) == [0, 1, 5][l - 1]
    ensures Count(EXAMPLE, 5, 2) == 0 && Count(EXAMPLE, 0, 3) == 0 && Count(EXAMPLE, 6, 4) == 0
  {
    ExampleCount3();
  }

  lemma ExampleCount3()
    ensures Count(EXAMPLE, 5, 3) == 5 && Count(EXAMPLE, 5, 2) == 0 && Count(EXAMPLE, 5, 1) == 0 && Count(EXAMPLE, 5, 4) == 0
  {
    assert Count(EXAMPLE, 2, 3) == 2 && Count(EXAMPLE, 4, 3) == 4;
    assert Count(EXAMPLE, 3, 2) == 0 && Count(EXAMPLE, 3, 1) == 0 && Count(EXAMPLE, 3, 4) == 0;
  }

  /** 010, 011, 100, 101, 110, 00, 1110 and 1111. */
  lemma ExampleCodes()
    ensures CodeValue(EXAMPLE, 0) == 2 && CodeValue(EXAMPLE, 1) == 3 && CodeValue(EXAMPLE, 2) == 4
    ensures CodeValue(EXAMPLE, 3) == 5 && CodeValue(EXAMPLE, 4) == 6 && CodeValue(EXAMPLE, 5) == 0
    ensures CodeValue(EXAMPLE, 6) == 14 && CodeValue(EXAMPLE, 7) == 15
    ensures Codeword(EXAMPLE, 0) == [false, true, false] && Codeword(EXAMPLE, 6) == [true, true, true, false]
  {
    hide Count;
    ExampleCounts(1);
    ExampleCounts(2);
    ExampleCounts(3);
    assert NextCode(EXAMPLE, 2) == 0 && NextCode(EXAMPLE, 3) == 2 && NextCode(EXAMPLE, 4) == 14;
    forall s | s in {0, 1, 2, 3, 6}
      ensures CodeValue(EXAMPLE, s + 1) == CodeValue(EXAMPLE, s) + 1 || s == 4
    {
      if s != 4 {
        Consecutive(EXAMPLE, s, s + 1);
      }
    }
    assert MsbBits(2, 3) == [false, true, false] && MsbBits(14, 4) == [true, true, true, false];
  }

  // ----- the fixed code (section 3.2.6) -----

  /** The lengths, in four ranges. */
  lemma FixedLengths(s: nat)
    ensures |FIXED_LIT| == 288 && |FIXED_DIST| == 32
    ensures s < 288 ==> FIXED_LIT[s] == if s < 144 then 8 else if s < 256 then 9 else if s < 280 then 7 else 8
    ensures s < 32 ==> FIXED_DIST[s] == 5
  {
  }

  lemma {:induction false} FixedCountsTo(n: nat)
    requires n <= 288
    ensures |FIXED_LIT| == 288 && |FIXED_DIST| == 32
    ensures Count(FIXED_LIT, n, 8) == if n <= 144 then n else if n <= 280 then 144 else n - 136
    ensures Count(FIXED_LIT, n, 9) == if n <= 144 then 0 else if n <= 256 then n - 144 else 112
    ensures Count(FIXED_LIT, n, 7) == if n <= 256 then 0 else if n <= 280 then n - 256 else 24
    ensures n <= 32 ==> Count(FIXED_DIST, n, 5) == n
  {
    hide FIXED_LIT, FIXED_DIST;
    FixedLengths(0);
    if n > 0 {
      FixedCountsTo(n - 1);
      FixedLengths(n - 1);
    }
  }

  /** 0 to 143 are 00110000 to 10111111, 144 to 255 are 110010000 to 111111111, 256 to 279 are 0000000 to
      0010111, 280 to 287 are 11000000 to 11000111; distances are five bits as they stand. */
  lemma FixedCodes(s: nat)
    requires s < 288
    ensures |FIXED_LIT| == 288 && |FIXED_DIST| == 32 && FIXED_LIT[s] > 0 && (s < 32 ==> FIXED_DIST[s] > 0)
    ensures CodeValue(FIXED_LIT, s) ==
      if s < 144 then 0x30 + s else if s < 256 then 0x190 + (s - 144) else if s < 280 then s - 256 else 0xC0 + (s - 280)
    ensures s < 32 ==> CodeValue(FIXED_DIST, s) == s
  {
    hide FIXED_LIT, FIXED_DIST, Count, NextCode;
    FixedLengths(s);
    FixedCountsTo(s);
    FixedFirst();
  }

  lemma FixedFirst()
    ensures NextCode(FIXED_LIT, 7) == 0 && NextCode(FIXED_LIT, 8) == 0x30 && NextCode(FIXED_LIT, 9) == 0x190
    ensures NextCode(FIXED_DIST, 5) == 0
  {
    hide Count, FIXED_LIT, FIXED_DIST;
    FixedLengths(0);
    FixedEmpty(7);
    FixedEmpty(5);
    FixedCounts(7);
    FixedCounts(8);
  }

  // ----- a stream -----

  lemma {:induction false} DistancesRise(i: nat, j: nat)
    requires i < j <= 29
    ensures |DIST_BASE| == |DIST_EXTRA| == 32 && DIST_BASE[i] + Pow2(DIST_EXTRA[i]) <= DIST_BASE[j]
    decreases j - i
  {
    hide DIST_BASE, DIST_EXTRA, Pow2;
    DistanceTable(i);
    if i + 1 < j {
      DistancesRise(i + 1, j);
    }
  }

  lemma OneDistanceSymbol(i: nat, x: nat, j: nat, y: nat)
    requires i <= j <= 29 && |DIST_BASE| == |DIST_EXTRA| == 32
    requires x < Pow2(DIST_EXTRA[i]) && y < Pow2(DIST_EXTRA[j]) && DIST_BASE[i] + x == DIST_BASE[j] + y
    ensures i == j && x == y
  {
    hide DIST_BASE, DIST_EXTRA, Pow2;
    if i < j {
      DistancesRise(i, j);
    }
  }

  /** The letters abcd, and four bytes from four back, as a block with the fixed code. */
  const TOKENS: seq<Token> := [Token.Plain(97), Token.Plain(98), Token.Plain(99), Token.Plain(100), Match(4, 4)]
  const ABCD: seq<byte> := [75, 76, 74, 78, 1, 97, 0]

  lemma FourFound()
    ensures FindLength(4, 28) == (1, 0) && FindDistance(4, 29) == (3, 0)
    ensures |LENGTH_EXTRA| == 31 && |DIST_EXTRA| == 32 && LENGTH_EXTRA[1] == DIST_EXTRA[3] == 0
  {
    hide FindLength, FindDistance;
    LengthTable(0);
    LengthTable(1);
    LengthTable(27);
    DistanceTable(0);
    DistanceTable(1);
    DistanceTable(2);
    DistanceTable(3);
    PowersTo5();
    FourIs(FindLength(4, 28), FindDistance(4, 29));
  }

  lemma FourIs(l: (nat, nat), d: (nat, nat))
    requires l.0 <= 28 && d.0 <= 29 && |LENGTH_BASE| == |LENGTH_EXTRA| == 31 && |DIST_BASE| == |DIST_EXTRA| == 32
    requires LENGTH_BASE[l.0] + l.1 == 4 && l.1 < Pow2(LENGTH_EXTRA[l.0])
    requires DIST_BASE[d.0] + d.1 == 4 && d.1 < Pow2(DIST_EXTRA[d.0])
    ensures l == (1, 0) && d == (3, 0)
  {
    hide LENGTH_BASE, LENGTH_EXTRA, DIST_BASE, DIST_EXTRA, Pow2;
    FourInTables();
    if l.0 <= 1 {
      OneLengthSymbol(l.0, l.1, 1, 0);
    } else {
      OneLengthSymbol(1, 0, l.0, l.1);
    }
    if d.0 <= 3 {
      OneDistanceSymbol(d.0, d.1, 3, 0);
    } else {
      OneDistanceSymbol(3, 0, d.0, d.1);
    }
  }

  lemma FourInTables()
    ensures |LENGTH_BASE| == |LENGTH_EXTRA| == 31 && |DIST_BASE| == |DIST_EXTRA| == 32
    ensures LENGTH_BASE[1] == DIST_BASE[3] == 4 && Pow2(LENGTH_EXTRA[1]) == Pow2(DIST_EXTRA[3]) == 1
  {
    assert Pow2(0) == 1;
  }

  /** The words of the block. */
  lemma Words()
    ensures HasCode(FIXED_LIT, 97) && Codeword(FIXED_LIT, 97) == [true, false, false, true, false, false, false, true]
    ensures HasCode(FIXED_LIT, 98) && Codeword(FIXED_LIT, 98) == [true, false, false, true, false, false, true, false]
    ensures HasCode(FIXED_LIT, 99) && Codeword(FIXED_LIT, 99) == [true, false, false, true, false, false, true, true]
    ensures HasCode(FIXED_LIT, 100) && Codeword(FIXED_LIT, 100) == [true, false, false, true, false, true, false, false]
    ensures HasCode(FIXED_LIT, 258) && Codeword(FIXED_LIT, 258) == [false, false, false, false, false, true, false]
    ensures HasCode(FIXED_DIST, 3) && Codeword(FIXED_DIST, 3) == [false, false, false, true, true]
    ensures HasCode(FIXED_LIT, 256) && Codeword(FIXED_LIT, 256) == [false, false, false, false, false, false, false]
  {
    hide FIXED_LIT, FIXED_DIST, CodeValue, MsbBits;
    FixedCodes(97);
    FixedCodes(98);
    FixedCodes(99);
    FixedCodes(100);
    FixedCodes(258);
    FixedCodes(256);
    FixedCodes(3);
    FixedLengths(97);
    FixedLengths(98);
    FixedLengths(99);
    FixedLengths(100);
    FixedLengths(258);
    FixedLengths(256);
    FixedLengths(3);
    Spelled();
  }

  lemma Spelled()
    ensures MsbBits(0x91, 8) == [true, false, false, true, false, false, false, true]
    ensures MsbBits(0x92, 8) == [true, false, false, true, false, false, true, false]
    ensures MsbBits(0x93, 8) == [true, false, false, true, false, false, true, true]
    ensures MsbBits(0x94, 8) == [true, false, false, true, false, true, false, false]
    ensures MsbBits(2, 7) == [false, false, false, false, false, true, false]
    ensures MsbBits(3, 5) == [false, false, false, true, true]
    ensures MsbBits(0, 7) == [false, false, false, false, false, false, false]
  {
    hide MsbBits;
    MsbFour(9);
    MsbFour(1);
    MsbFour(2);
    MsbFour(3);
    MsbFour(4);
    MsbJoined(9, 1, 4);
    MsbJoined(9, 2, 4);
    MsbJoined(9, 3, 4);
    MsbJoined(9, 4, 4);
    MsbFour(0);
    MsbZero(3);
    MsbZero(7);
    MsbJoined(0, 2, 3);
    MsbJoined(0, 3, 1);
    MsbZero(1);
  }

  /** A number of four bits, and others before it. */
  lemma MsbFour(c: nat)
    requires c < 16
    ensures MsbBits(c, 4) == [c >= 8, c % 8 >= 4, c % 4 >= 2, c % 2 == 1]
  {
    assert MsbBits(c, 4) == MsbBits(c / 2 / 2 / 2, 1) + [c / 2 / 2 % 2 == 1] + [c / 2 % 2 == 1] + [c % 2 == 1];
  }

  lemma MsbJoined(a: nat, b: nat, n: nat)
    requires b < 16
    ensures MsbBits(16 * a + b, n + 4) == MsbBits(a, n) + MsbBits(b, 4)
  {
    hide MsbBits;
    assert Pow2(4) == 16;
    MsbConcat(a, b, n, 4);
  }

  lemma {:induction false} MsbConcat(a: nat, b: nat, n: nat, m: nat)
    requires b < Pow2(m)
    ensures MsbBits(Pow2(m) * a + b, n + m) == MsbBits(a, n) + MsbBits(b, m)
  {
    if m > 0 {
      var c := Pow2(m) * a + b;
      DoubleProduct(Pow2(m - 1), a);
      assert c == 2 * (Pow2(m - 1) * a) + b;
      HalfSum(Pow2(m - 1) * a, b);
      MsbConcat(a, b / 2, n, m - 1);
    } else {
      assert 1 * a == a;
    }
  }

  lemma HalfSum(x: nat, b: nat)
    ensures (2 * x + b) / 2 == x + b / 2 && (2 * x + b) % 2 == b % 2
  {
  }

  lemma {:induction false} MsbZero(n: nat)
    ensures MsbBits(0, n) == Zeros(n)
  {
    if n > 0 {
      MsbZero(n - 1);
    }
  }

  lemma LsbFour(c: nat)
    requires c < 16
    ensures ToBits(c, 4) == [c % 2 == 1, c % 4 >= 2, c % 8 >= 4, c >= 8]
  {
    assert ToBits(c, 4) == [c % 2 == 1, c / 2 % 2 == 1, c / 2 / 2 % 2 == 1, c / 2 / 2 / 2 % 2 == 1];
  }

  lemma LsbByte(lo: nat, hi: nat)
    requires lo < 16 && hi < 16
    ensures ToBits(lo + 16 * hi, 8) == ToBits(lo, 4) + ToBits(hi, 4)
  {
    hide ToBits;
    assert Pow2(4) == 16;
    ToBitsConcat(lo, 4, hi, 4);
  }

  lemma EachByte()
    ensures ToBits(75, 8) == [true, true, false, true, false, false, true, false]
    ensures ToBits(76, 8) == [false, false, true, true, false, false, true, false]
    ensures ToBits(74, 8) == [false, true, false, true, false, false, true, false]
    ensures ToBits(78, 8) == [false, true, true, true, false, false, true, false]
    ensures ToBits(1, 8) == [true, false, false, false, false, false, false, false]
    ensures ToBits(97, 8) == [true, false, false, false, false, true, true, false]
    ensures ToBits(0, 8) == [false, false, false, false, false, false, false, false]
  {
    hide ToBits;
    LsbFour(0);
    LsbFour(1);
    LsbFour(4);
    LsbFour(6);
    LsbFour(10);
    LsbFour(11);
    LsbFour(12);
    LsbFour(14);
    LsbByte(11, 4);
    LsbByte(12, 4);
    LsbByte(10, 4);
    LsbByte(14, 4);
    LsbByte(1, 0);
    LsbByte(1, 6);
    LsbByte(0, 0);
  }

  lemma SevenBytes(a: byte, b: byte, c: byte, d: byte, e: byte, f: byte, g: byte)
    ensures BytesToBits([a, b, c, d, e, f, g])
      == ToBits(a, 8) + ToBits(b, 8) + ToBits(c, 8) + ToBits(d, 8) + ToBits(e, 8) + ToBits(f, 8) + ToBits(g, 8)
  {
    hide ToBits;
    assert BytesToBits([f, g]) == ToBits(f, 8) + ToBits(g, 8);
    assert BytesToBits([d, e, f, g]) == ToBits(d, 8) + (ToBits(e, 8) + BytesToBits([f, g]));
    assert BytesToBits([b, c, d, e, f, g]) == ToBits(b, 8) + (ToBits(c, 8) + BytesToBits([d, e, f, g]));
  }

  const PLAIN: Config := Config(false, false, 0)

  /** The tokens from each one on. */
  lemma TokenLists()
    ensures TOKENS == [Token.Plain(97)] + TOKENS[1..] && TOKENS[1..] == [Token.Plain(98)] + TOKENS[2..]
    ensures TOKENS[2..] == [Token.Plain(99)] + TOKENS[3..] && TOKENS[3..] == [Token.Plain(100)] + TOKENS[4..]
    ensures TOKENS[4..] == [Match(4, 4)] && |TOKENS| == 5 && TOKENS[4..][1..] == []
  {
  }

  lemma FourAgain()
    ensures Extended([97, 98, 99, 100], 4, 4) == [97, 98, 99, 100, 97, 98, 99, 100]
  {
    var h: seq<byte> := [97, 98, 99, 100];
    assert Extended(h, 4, 1) == [97, 98, 99, 100, 97];
    assert Extended(h, 4, 2) == [97, 98, 99, 100, 97, 98];
    assert Extended(h, 4, 3) == [97, 98, 99, 100, 97, 98, 99];
  }

  lemma Expanded()
    ensures Within(PLAIN, 0, TOKENS) && Expand(PLAIN, [], TOKENS) == [97, 98, 99, 100, 97, 98, 99, 100]
  {
    hide Extended, TOKENS;
    TokenLists();
    FourAgain();
    var x: seq<byte>, y: seq<byte>, z: seq<byte>, w: seq<byte> := [97], [97, 98], [97, 98, 99], [97, 98, 99, 100];
    assert [] + [97] == x && x + [98] == y && y + [99] == z && z + [100] == w;
    assert Within(PLAIN, 8, []);
    assert Within(PLAIN, 4, TOKENS[4..]);
    assert Within(PLAIN, 3, TOKENS[3..]);
    assert Within(PLAIN, 2, TOKENS[2..]);
    assert Within(PLAIN, 1, TOKENS[1..]);
    assert Expand(PLAIN, w, TOKENS[4..]) == [97, 98, 99, 100, 97, 98, 99, 100];
    assert Expand(PLAIN, z, TOKENS[3..]) == [97, 98, 99, 100, 97, 98, 99, 100];
    assert Expand(PLAIN, y, TOKENS[2..]) == [97, 98, 99, 100, 97, 98, 99, 100];
    assert Expand(PLAIN, x, TOKENS[1..]) == [97, 98, 99, 100, 97, 98, 99, 100];
  }

  lemma TokensFit()
    ensures StreamOk(PLAIN, [], [WithFixed(TOKENS)])
    ensures Meant(PLAIN, [], [WithFixed(TOKENS)]) == [97, 98, 99, 100, 97, 98, 99, 100]
  {
    hide Expand, Within, TOKENS;
    TokenLists();
    Expanded();
    var b := WithFixed(TOKENS);
    assert BlockOk(PLAIN, 0, b);
    assert [b][1..] == [];
    assert Meant(PLAIN, Grow(PLAIN, [], b), []) == Grow(PLAIN, [], b);
  }

  /** The bits of each token. */
  lemma TokenWords(c: byte)
    requires HasCode(FIXED_LIT, c)
    ensures Codable(FIXED_LIT, FIXED_DIST, Token.Plain(c)) && TokenBits(FIXED_LIT, FIXED_DIST, Token.Plain(c)) == Codeword(FIXED_LIT, c)
  {
  }

  lemma MatchWord()
    ensures Codable(FIXED_LIT, FIXED_DIST, Match(4, 4))
    ensures TokenBits(FIXED_LIT, FIXED_DIST, Match(4, 4))
      == [false, false, false, false, false, true, false] + [false, false, false, true, true]
  {
    hide FIXED_LIT, FIXED_DIST, Codeword, FindLength, FindDistance, LENGTH_EXTRA, DIST_EXTRA;
    FourFound();
    Words();
    assert ToBits(0, 0) == [];
  }

  lemma BlockWritten()
    ensures AllCodable(FIXED_LIT, FIXED_DIST, TOKENS) && HasCode(FIXED_LIT, 256)
    ensures BlockBits(FIXED_LIT, FIXED_DIST, TOKENS) == Codeword(FIXED_LIT, 97) + (Codeword(FIXED_LIT, 98)
      + (Codeword(FIXED_LIT, 99) + (Codeword(FIXED_LIT, 100)
      + (TokenBits(FIXED_LIT, FIXED_DIST, Match(4, 4)) + Codeword(FIXED_LIT, 256)))))
  {
    hide FIXED_LIT, FIXED_DIST, TokenBits, Codeword, TOKENS, Codable;
    TokenLists();
    Words();
    TokenWords(97);
    TokenWords(98);
    TokenWords(99);
    TokenWords(100);
    MatchWord();
    assert BlockBits(FIXED_LIT, FIXED_DIST, []) == Codeword(FIXED_LIT, 256);
    assert BlockBits(FIXED_LIT, FIXED_DIST, TOKENS[4..]) == TokenBits(FIXED_LIT, FIXED_DIST, Match(4, 4)) + Codeword(FIXED_LIT, 256);
    assert BlockBits(FIXED_LIT, FIXED_DIST, TOKENS[3..]) == Codeword(FIXED_LIT, 100) + BlockBits(FIXED_LIT, FIXED_DIST, TOKENS[4..]);
    assert BlockBits(FIXED_LIT, FIXED_DIST, TOKENS[2..]) == Codeword(FIXED_LIT, 99) + BlockBits(FIXED_LIT, FIXED_DIST, TOKENS[3..]);
    assert BlockBits(FIXED_LIT, FIXED_DIST, TOKENS[1..]) == Codeword(FIXED_LIT, 98) + BlockBits(FIXED_LIT, FIXED_DIST, TOKENS[2..]);
  }

  lemma TokensWritten()
    ensures StreamOk(PLAIN, [], [WithFixed(TOKENS)])
    ensures StreamBits(PLAIN, [], 0, [WithFixed(TOKENS)]) <= BytesToBits(ABCD)
  {
    hide BlockBits, BytesToBits, TOKENS, FIXED_LIT, FIXED_DIST, Codeword, TokenBits, Within, Expand;
    TokensFit();
    BlockWritten();
    BlockIsBytes();
    var b := WithFixed(TOKENS);
    assert [b][1..] == [];
    assert ToBits(3, 3) == [true, true, false];
    var written := [true, true, false] + BlockBits(FIXED_LIT, FIXED_DIST, TOKENS);
    assert StreamBits(PLAIN, [], 0, [b]) == written + [] == written;
  }

  lemma BlockIsBytes()
    ensures AllCodable(FIXED_LIT, FIXED_DIST, TOKENS) && HasCode(FIXED_LIT, 256)
    ensures [true, true, false] + BlockBits(FIXED_LIT, FIXED_DIST, TOKENS) <= BytesToBits(ABCD)
  {
    hide BlockBits, BytesToBits, ToBits, TOKENS, ABCD, FIXED_LIT, FIXED_DIST, Codeword, TokenBits;
    BlockWritten();
    Words();
    MatchWord();
    var h, m, e := [true, true, false], TokenBits(FIXED_LIT, FIXED_DIST, Match(4, 4)), Codeword(FIXED_LIT, 256);
    var a, b, c, d := Codeword(FIXED_LIT, 97), Codeword(FIXED_LIT, 98), Codeword(FIXED_LIT, 99), Codeword(FIXED_LIT, 100);
    Joined(h, a, b, c, d, m, e);
    AbcdBytes();
  }

  lemma Joined(h: seq<bool>, a: seq<bool>, b: seq<bool>, c: seq<bool>, d: seq<bool>, m: seq<bool>, e: seq<bool>)
    requires h == [true, true, false]
    requires a == [true, false, false, true, false, false, false, true]
    requires b == [true, false, false, true, false, false, true, false]
    requires c == [true, false, false, true, false, false, true, true]
    requires d == [true, false, false, true, false, true, false, false]
    requires m == [false, false, false, false, false, true, false] + [false, false, false, true, true]
    requires e == [false, false, false, false, false, false, false]
    ensures h + (a + (b + (c + (d + (m + e)))))
      <= ToBits(75, 8) + ToBits(76, 8) + ToBits(74, 8) + ToBits(78, 8) + ToBits(1, 8) + ToBits(97, 8) + ToBits(0, 8)
  {
    hide ToBits;
    Regrouped(h, a, b, c, d, m + e);
    Straddling(h, a, b, c, d);
    LastBytes(d, m, e);
    PrefixOf(ToBits(75, 8), ToBits(76, 8), ToBits(74, 8), ToBits(78, 8), ToBits(1, 8) + ToBits(97, 8), ToBits(0, 8));
  }

  lemma AbcdBytes()
    ensures BytesToBits(ABCD)
      == ToBits(75, 8) + ToBits(76, 8) + ToBits(74, 8) + ToBits(78, 8) + ToBits(1, 8) + ToBits(97, 8) + ToBits(0, 8)
  {
    hide ToBits, BytesToBits;
    SevenBytes(75, 76, 74, 78, 1, 97, 0);
  }

  lemma Straddling(h: seq<bool>, a: seq<bool>, b: seq<bool>, c: seq<bool>, d: seq<bool>)
    requires h == [true, true, false]
    requires a == [true, false, false, true, false, false, false, true]
    requires b == [true, false, false, true, false, false, true, false]
    requires c == [true, false, false, true, false, false, true, true]
    requires d == [true, false, false, true, false, true, false, false]
    ensures h + a[..5] == ToBits(75, 8) && a[5..] + b[..5] == ToBits(76, 8)
    ensures b[5..] + c[..5] == ToBits(74, 8) && c[5..] + d[..5] == ToBits(78, 8)
  {
    hide ToBits;
    EachByte();
  }

  lemma LastBytes(d: seq<bool>, m: seq<bool>, e: seq<bool>)
    requires d == [true, false, false, true, false, true, false, false]
    requires m == [false, false, false, false, false, true, false] + [false, false, false, true, true]
    requires e == [false, false, false, false, false, false, false]
    ensures d[5..] + (m + e) == ToBits(1, 8) + ToBits(97, 8) + ToBits(0, 8)[..6]
  {
    hide ToBits;
    EachByte();
  }

  lemma PrefixOf(a: seq<bool>, b: seq<bool>, c: seq<bool>, d: seq<bool>, e: seq<bool>, f: seq<bool>)
    requires |f| == 8
    ensures a + b + c + d + (e + f[..6]) <= a + b + c + d + e + f
  {
    assert f == f[..6] + f[6..];
  }

  /** Words that straddle bytes. */
  lemma Regrouped(h: seq<bool>, a: seq<bool>, b: seq<bool>, c: seq<bool>, d: seq<bool>, e: seq<bool>)
    requires |a| == |b| == |c| == |d| == 8
    ensures h + (a + (b + (c + (d + e))))
      == (h + a[..5]) + (a[5..] + b[..5]) + (b[5..] + c[..5]) + (c[5..] + d[..5]) + (d[5..] + e)
  {
    assert a == a[..5] + a[5..] && b == b[..5] + b[5..] && c == c[..5] + c[5..] && d == d[..5] + d[5..];
  }

  /** However these seven bytes are inflated, they are abcdabcd. */
  lemma AbcdInflated(d: Decompressor)
    requires d.Idle() && d.core.cfg == PLAIN && d.start == Machine(BlockHeader, 0, [], false)
    requires d.core.reader.stream == ABCD
    ensures d.core.out.hist <= [97, 98, 99, 100, 97, 98, 99, 100]
    ensures d.Ended() ==> d.core.ctl.Done? && d.core.out.hist == [97, 98, 99, 100, 97, 98, 99, 100]
  {
    hide BytesToBits, StreamBits, StreamOk, Meant, Decompressor.Ended, Decompressor.Idle, TOKENS, ABCD;
    TokensFit();
    TokensWritten();
    DecodesStream(d, [WithFixed(TOKENS)]);
  }
}
