/** Three codebooks that are accepted: in one a symbol is never found, in one a symbol is lost where it
    stands at the wrong place, and one has no symbols. */
module VorbisLost {
  import opened Bits
  import opened VorbisTree
  import opened VorbisMatch
  import opened VorbisCodewords
  import opened VorbisCodebook
  import opened VorbisSetup
  import opened VorbisPages
  import opened VorbisPacket
  import opened Options
  import opened VorbisDecode

  /** 32767 codewords of 20 bits, and then one of a single bit. */
  const LOST: seq<nat> := seq(FAST_LIMIT, _ => 20) + [1]

  lemma LostLengths(i: nat)
    ensures |LOST| == 32768 && ValidLengths(LOST)
    ensures i < 32768 ==> LOST[i] == if i == 32767 then 1 else 20
  {
  }

  lemma {:induction false} LostKraft(n: nat)
    requires n <= 32767
    ensures |LOST| == 32768 && Kraft(LOST, n) == 4096 * n
  {
    hide LOST;
    LostLengths(0);
    assert Size(20) == 4096;
    if n > 0 {
      LostKraft(n - 1);
      LostLengths(n - 1);
    }
  }

  /** The lengths fit: the book is accepted. */
  lemma LostFits()
    ensures ValidLengths(LOST) && Kraft(LOST, |LOST|) <= WORD
  {
    hide LOST;
    LostLengths(32767);
    LostKraft(32767);
    WordSize();
    assert Size(1) == Pow2(31);
  }

  /** However its tables were built, the one-bit codeword of its last symbol is in none of them. */
  lemma LostUnreachable(c: Codebook, codes: seq<nat>)
    requires Correct(c, LOST, codes) && !c.sparse
    ensures |LOST| == 32768 && Used(LOST, 32767) && !Reachable(c, LOST, 32767)
  {
    hide LOST, SpecCode, Indexed, FastUpTo;
    LostLengths(32767);
    LostLengths(0);
  }

  /** Such a book is set up without complaint, and no packet that goes on with that symbol's codeword
      decodes to it. */
  method DecodeLost(f: PacketReader) returns (ok: bool, sym: Option<int>, ghost codes: seq<nat>)
    requires f.Valid()
    modifies f
    ensures ok && |LOST| == |codes| == 32768 && ValidLengths(LOST)
    ensures old(f.Sound()) && old(f.valid_bits) >= 0 && Next(LOST, codes, 32767, old(f.Unread())) ==> sym != Some(32767)
  {
    hide LOST, SpecCode, Correct, Reachable, Next;
    LostFits();
    LostLengths(0);
    var c;
    ok, c, codes := Setup(LOST, false);
    SpecOf(c, LOST, codes);
    LostUnreachable(c, codes);
    var defined;
    defined, sym := Decode(f, c, LOST, codes);
  }

  /** One codeword of each length up to 26, and one more of 26 bits: the code is complete. */
  const LADDER: seq<nat> := seq(27, i requires i >= 0 => if i < 26 then i + 1 else 26)

  lemma LadderAt(i: nat)
    ensures |LADDER| == 27 && ValidLengths(LADDER)
    ensures i < 26 ==> LADDER[i] == i + 1
    ensures LADDER[26] == 26
  {
  }

  lemma {:induction false} LadderKraft(n: nat)
    requires n <= 26
    ensures |LADDER| == 27 && Kraft(LADDER, n) == Pow2(32) - Pow2(32 - n)
  {
    hide LADDER;
    LadderAt(0);
    if n > 0 {
      LadderKraft(n - 1);
      LadderAt(n - 1);
      assert Pow2(32 - (n - 1)) == 2 * Pow2(32 - n);
      assert Size(n) == Pow2(32 - n);
    }
  }

  lemma LadderFits()
    ensures ValidLengths(LADDER) && Kraft(LADDER, |LADDER|) == WORD
  {
    hide LADDER;
    LadderAt(26);
    LadderKraft(26);
    WordSize();
    assert Size(26) == Pow2(6);
  }

  /** Symbol 6 has 7 bits and symbol 25 has 26.  Written to a packet one after the other, the first one
      comes back; then 25 bits are held, no more are loaded, and the second one is lost. */
  method DecodeLadder(f: PacketReader, ghost tail: seq<bool>)
    returns (ok: bool, first: Option<int>, second: Option<int>, ghost codes: seq<nat>)
    requires f.Valid()
    modifies f
    ensures ok && Writable(LADDER, codes, [6, 25])
    ensures old(f.Sound()) && old(f.valid_bits) == 0 && old(f.Unread()) == Encode(LADDER, codes, [6, 25]) + tail ==>
      first == Some(6) && second != Some(25)
  {
    hide LADDER, SpecCode, Correct, Next, Encode, Writable, PacketReader.Sound;
    LadderFits();
    LadderAt(6);
    LadderAt(25);
    var c;
    ok, c, codes := Setup(LADDER, false);
    SpecOf(c, LADDER, codes);
    LadderWritable(c, codes);
    LadderNext(codes, tail);
    ghost var written := Encode(LADDER, codes, [6, 25]) + tail;
    LadderLoads(|written|);
    LadderReachable(c, codes);
    var defined;
    defined, first := Decode(f, c, LADDER, codes);
    defined, second := Decode(f, c, LADDER, codes);
  }

  lemma LadderReachable(c: Codebook, codes: seq<nat>)
    requires Correct(c, LADDER, codes)
    ensures |LADDER| == 27 && Reachable(c, LADDER, 6)
  {
    hide LADDER;
    LadderAt(0);
  }

  lemma LadderWritable(c: Codebook, codes: seq<nat>)
    requires Correct(c, LADDER, codes)
    ensures Writable(LADDER, codes, [6, 25])
  {
    hide LADDER, Correct, CodeBits, Lowest;
    SpecOf(c, LADDER, codes);
    LadderAt(6);
    LadderAt(25);
    BlockFacts(LADDER, codes, 6);
    BlockFacts(LADDER, codes, 25);
  }

  lemma LadderNext(codes: seq<nat>, tail: seq<bool>)
    requires Writable(LADDER, codes, [6, 25])
    ensures |LADDER| == 27 && |codes| > 25 && ValidLengths(LADDER)
    ensures var b := Encode(LADDER, codes, [6, 25]) + tail;
      |b| >= 33 && Next(LADDER, codes, 6, b) && Next(LADDER, codes, 25, b[7..])
  {
    hide LADDER, CodeBits;
    LadderAt(6);
    LadderAt(25);
    var syms: seq<nat> := [6, 25];
    assert HasCode(LADDER, codes, syms[0]) && HasCode(LADDER, codes, syms[1]);
    assert syms[1..] == [25] && [25][1..] == [];
    var k, l := Codeword(LADDER, codes, 6), Codeword(LADDER, codes, 25);
    assert Encode(LADDER, codes, [25]) == l + Encode(LADDER, codes, []);
    assert Encode(LADDER, codes, syms) == k + l;
    assert (k + l + tail)[7..] == l + tail;
  }

  lemma LadderLoads(n: nat)
    ensures n >= 33 ==> Loaded(0, n) == 32 && Loaded(25, n - 7) == 25
  {
    if n >= 33 {
      assert Loaded(24, n) == 32 && Loaded(16, n) == 32 && Loaded(8, n) == 32;
    }
  }

  /** Four entries, and none of them used. */
  const EMPTY: seq<nat> := [NO_CODE, NO_CODE, NO_CODE, NO_CODE]

  lemma EmptyUnused()
    ensures ValidLengths(EMPTY) && Kraft(EMPTY, |EMPTY|) == 0 && forall i :: 0 <= i < |EMPTY| ==> !Used(EMPTY, i)
  {
    assert Kraft(EMPTY, 1) == 0;
    assert Kraft(EMPTY, 2) == 0;
    assert Kraft(EMPTY, 3) == 0;
  }

  lemma {:induction false} NoSymbolUsed(lens: seq<nat>, n: nat)
    requires n <= |lens| && forall i :: 0 <= i < n ==> !Used(lens, i)
    ensures Symbols(lens, n) == []
  {
    if n > 0 {
      NoSymbolUsed(lens, n - 1);
    }
  }

  /** Marked as sparse, such a book is set up without complaint too; but every decode reads an element
      of a table that is not there. */
  method DecodeEmpty(f: PacketReader) returns (ok: bool, sym: Option<int>)
    requires f.Valid()
    modifies f
    ensures ok && sym == None
  {
    hide EMPTY, Correct;
    EmptyUnused();
    NoSymbolUsed(EMPTY, |EMPTY|);
    WordSize();
    var c;
    ghost var codes;
    ok, c, codes := Setup(EMPTY, true);
    assert |EMPTY| / 4 == 1 by { EmptyLength(); }
    var defined;
    defined, sym := Decode(f, c, EMPTY, codes);
  }

  lemma EmptyLength()
    ensures |EMPTY| == 4
  {
  }
}
