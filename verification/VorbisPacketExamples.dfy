/** Packets that are read as they were written, and three files on which they are not. */
module VorbisPacketExamples {
  import opened Bits
  import opened Options
  import opened VorbisPages
  import opened VorbisPacket

  /** The bytes of a full segment. */
  function Segment(): (s: seq<byte>)
    ensures |s| == 255
  {
    seq(255, _ => 0)
  }

  /** A packet of 256 bytes: its first page holds 255 of them, the second one continues it without a
      single lacing value, the third one holds the last byte. */
  function BareFile(): seq<byte> {
    Header(false, [255]) + (Segment() + (Header(true, []) + LastPart()))
  }

  function LastPart(): seq<byte> {
    Header(true, [1]) + [7]
  }

  /** A packet of 255 bytes that is not continued, and a packet with the byte 9. */
  function UnmarkedFile(): seq<byte> {
    Header(false, [255]) + (Segment() + NextPacket())
  }

  function NextPacket(): seq<byte> {
    Header(false, [1]) + [9]
  }

  /** A packet of three bytes. */
  function ShortFile(): seq<byte> {
    Header(false, [3]) + [0x01, 0x02, 0x03]
  }

  /** A page with one packet that ends on it. */
  lemma OneSegment(b: seq<byte>, more: seq<seq<byte>>)
    requires |b| < 255
    ensures Packet(Segments([|b|], b) + more) == b
    ensures Remaining(b, [|b|], 0, false) == b && EndsAt(b, [|b|], 0, false) == Proper
  {
    hide ParsePage, Continued, Packet, Segments;
    DropNone(b);
    assert Lacing(b) + [] == Lacing(b) == [|b|] && b + [] == b;
    LastPage(b, [], [], more);
    LastPage(b, [], [], Continued(Drop(b, Sum([|b|]))));
  }

  lemma FullSegment(after: seq<byte>)
    ensures Remaining(Segment() + after, [255], 0, false) == Segment() + Remaining(after, [], 0, false)
  {
    hide ParsePage, Continued, Packet, Segments;
    assert Full(0) == [] && Full(1) == [255];
    DropNone(Segment() + after);
    FullPage(1, Segment(), after, Continued(after));
    Boundary(after);
  }

  lemma {:induction false} LittleEndian(z: byte, s: seq<byte>)
    ensures FromBits(BytesToBits([z] + s)) == z + 256 * FromBits(BytesToBits(s))
  {
    assert Pow2(8) == 256;
    ToFromBits(z, 8);
    assert ([z] + s)[1..] == s;
    FromBitsConcat(ToBits(z, 8), BytesToBits(s));
  }

  lemma ThreeBytes()
    ensures var b := BytesToBits([0x01, 0x02, 0x03]);
      |b| == 24 && FromBits(b[..24]) == 0x03_02_01 && forall acc: nat :: ToBits(acc, 0) + b == b
  {
    hide FromBits, BytesToBits;
    var s: seq<byte> := [];
    LittleEndian(0x03, s);
    LittleEndian(0x02, [0x03]);
    LittleEndian(0x01, [0x02, 0x03]);
    assert FromBits(BytesToBits(s)) == 0 by { NoBytes(); }
    assert [0x03] + s == [0x03] && [0x02] + [0x03] == [0x02, 0x03] && [0x01] + [0x02, 0x03] == [0x01, 0x02, 0x03];
    var b := BytesToBits([0x01, 0x02, 0x03]);
    assert b[..24] == b;
  }

  lemma NoBytes()
    ensures var s: seq<byte> := []; FromBits(BytesToBits(s)) == 0
  {
  }

  /** Eight bits held that are those of one byte. */
  lemma OneByte(z: byte, acc: nat, rest: seq<byte>)
    ensures forall x: nat :: |ToBits(x, 0) + BytesToBits([z])| == 8
    ensures forall x: nat :: acc < Pow2(8) && ToBits(x, 0) + BytesToBits([z]) == ToBits(acc, 8) + BytesToBits(rest) ==> acc == z
    ensures Loaded(0, 8) == 8
  {
    assert Pow2(8) == 256;
    assert BytesToBits([z]) == ToBits(z, 8);
    ToFromBits(z, 8);
    if acc < Pow2(8) {
      ToFromBits(acc, 8);
    }
    forall x: nat | ToBits(x, 0) + BytesToBits([z]) == ToBits(acc, 8) + BytesToBits(rest)
      ensures ToBits(acc, 8) == ToBits(z, 8)
    {
      assert (ToBits(acc, 8) + BytesToBits(rest))[..8] == ToBits(acc, 8);
    }
  }

  lemma FirstByte()
    ensures At(LastPart(), 0) == 0x4f
  {
  }

  lemma BareEnds(s: seq<byte>)
    requires s == Header(true, []) + LastPart()
    ensures Remaining(s, [], 0, false) == [7] && Ends(s) == Bare
  {
    hide ParsePage, Header;
    HeaderRead(true, [], LastPart());
    HeaderRead(true, [1], [7]);
    Boundary(s);
    DropNone(LastPart());
    assert Continued(s) == Continued(LastPart());
    OneSegment([7], Continued(Drop([7], 1)));
    assert Sum([1]) == 1;
  }

  lemma UnmarkedEnds(s: seq<byte>)
    requires s == NextPacket()
    ensures ParsePage(s) == Some(Page(false, [1], [9])) && Ends(s) == Unmarked
    ensures Remaining(s, [], 0, false) == [] && Remaining([9], [1], 0, false) == [9]
  {
    hide ParsePage, Header;
    HeaderRead(false, [1], [9]);
    Boundary(s);
    OneSegment([9], []);
  }

  /** Reads the first page of a packet that goes on after it. */
  method ReadFirstPage(f: PacketReader, ghost after: seq<byte>) returns (ghost packet: seq<byte>, got: seq<int>)
    requires f.Valid() && f.next_seg == -1 && f.stream == Header(false, [255]) + (Segment() + after)
    modifies f
    ensures f.Valid() && f.stream == after && f.bytes_in_seg == 0 && f.next_seg == -1 && !f.last_seg
    ensures f.valid_bits == 0 && f.segments[0] == 255
    ensures packet == Segment() + Remaining(after, [], 0, false) && f.Rest() == Remaining(after, [], 0, false)
    ensures got == Segment()
  {
    hide ParsePage, Header, Pow2, EndsAt, BeyondAt, Remaining, Continued, Segments;
    HeaderRead(false, [255], Segment() + after);
    FullSegment(after);
    var ok := f.StartPacket();
    assert f.segments[0] == f.segments[..f.segment_count][0];
    packet := f.Rest();
    var len := f.NextSegment();
    got := ReadSegment(f, Segment() + after);
    assert Drop(Segment() + after, 255) == after;
  }

  /** Reads a full segment, byte by byte. */
  method ReadSegment(f: PacketReader, ghost s: seq<byte>) returns (got: seq<int>)
    requires f.Valid() && f.bytes_in_seg == 255 && f.stream == s && |s| >= 255
    modifies f`stream, f`segments, f`segment_count, f`continued, f`next_seg, f`last_seg, f`bytes_in_seg
    ensures f.Valid() && f.bytes_in_seg == 0 && f.stream == Drop(s, 255) && got == s[..255]
    ensures f.next_seg == old(f.next_seg) && f.last_seg == old(f.last_seg) && f.segments == old(f.segments)
  {
    hide Pow2, PacketReader.Rest, PacketReader.Ending, PacketReader.Left, PacketReader.Stale;
    got := [];
    while f.bytes_in_seg > 0
      invariant f.Valid() && |got| + f.bytes_in_seg == 255 && f.stream == Drop(s, |got|) && got == s[..|got|]
      invariant f.next_seg == old(f.next_seg) && f.last_seg == old(f.last_seg) && f.segments == old(f.segments)
    {
      var z := f.Get8PacketRaw();
      DropAt(s, |got|, 0);
      DropDrop(s, |got|, 1);
      got := got + [z];
    }
  }

  /** The 256th byte of the packet is 7; but what is read there is the first byte of the third page's
      header. */
  method ReadBare(f: PacketReader) returns (ghost packet: seq<byte>, got: seq<int>)
    requires f.Valid() && f.next_seg == -1 && f.stream == BareFile()
    modifies f
    ensures packet == Segment() + [7] && got == Segment() + [0x4f]
  {
    hide ParsePage, Header, Pow2, EndsAt, BeyondAt, Remaining;
    packet, got := ReadFirstPage(f, Header(true, []) + LastPart());
    BareEnds(f.stream);
    HeaderRead(true, [], LastPart());
    FirstByte();
    var z := f.Get8PacketRaw();
    got := got + [z];
  }

  /** The packet is over after 255 bytes, and the next read says so; but then `prep_huffman` loads the
      byte of the packet that follows. */
  method ReadUnmarked(f: PacketReader) returns (ghost packet: seq<byte>, z: int)
    requires f.Valid() && f.next_seg == -1 && f.stream == UnmarkedFile()
    modifies f
    ensures packet == Segment() && z == EOP && f.valid_bits == 8 && f.acc == 9
  {
    hide ParsePage, Header, Pow2, EndsAt, BeyondAt, Remaining, ToBits, FromBits, BytesToBits, Loaded;
    var got;
    packet, got := ReadFirstPage(f, NextPacket());
    UnmarkedEnds(f.stream);
    z := f.Get8PacketRaw();
    OneSegment([9], []);
    assert f.Rest() == [9] && f.Sound();
    var held := f.PrepHuffman();
    OneByte(9, f.acc, f.Rest());
  }

  /** In the same file: a read of eight bits finds the packet over.  Then the accumulator is in no state
      for `prep_huffman`, which shifts the next packet's byte by -1. */
  method ReadCut(f: PacketReader) returns (z: nat, defined: bool)
    requires f.Valid() && f.next_seg == -1 && f.stream == UnmarkedFile()
    modifies f
    ensures z == 0 && f.valid_bits == INVALID_BITS && !defined
  {
    hide ParsePage, Header, Pow2, EndsAt, BeyondAt, Remaining, ToBits, FromBits, BytesToBits, Loaded;
    var packet, got := ReadFirstPage(f, NextPacket());
    UnmarkedEnds(f.stream);
    NothingFollows(f.stream);
    OneSegment([9], []);
    NoBytes();
    var ok;
    ok, z := f.GetBits(8);
    assert f.Rest() == [9] && !f.TakesStale();
    defined := f.PrepHuffman();
  }

  /** A read of 32 bits from a packet of three bytes returns its 24 bits, and the packet is over. */
  method ReadShort(f: PacketReader) returns (z: nat)
    requires f.Valid() && f.next_seg == -1 && f.stream == ShortFile()
    modifies f
    ensures z == 0x03_02_01 && f.valid_bits == INVALID_BITS
  {
    hide ParsePage, Header, Pow2, EndsAt, BeyondAt, Remaining;
    HeaderRead(false, [3], [0x01, 0x02, 0x03]);
    OneSegment([0x01, 0x02, 0x03], []);
    ThreeBytes();
    var ok := f.StartPacket();
    ok, z := f.GetBits(32);
  }

  /** A packet that begins on a page of its own, or after others on a page: it is read in full, and the
      reader is left at the packet that follows. */
  method ReadWritten(f: PacketReader, ghost packet: seq<byte>, ghost cuts: seq<nat>, ghost later: seq<byte>,
                     ghost tail: seq<byte>)
    returns (ok: bool, ghost bytes: seq<byte>)
    requires f.Valid() && Fits(packet, cuts, later)
    requires var lacing, body := PageLacing(packet, cuts, later), Body(packet, cuts, later) + tail;
      if f.next_seg == -1 then f.stream == Header(false, lacing) + body
      else f.Ahead() == lacing && f.stream == body
    modifies f
    ensures f.Valid() && ok && bytes == packet && f.last_seg && f.bytes_in_seg == 0
    ensures f.stream == tail && f.Ahead() == later
  {
    hide ParsePage, Header, Pow2, EndsAt, BeyondAt, Remaining, Fits, PageLacing, Body;
    ghost var lacing, body := PageLacing(packet, cuts, later), Body(packet, cuts, later) + tail;
    HeaderRead(false, lacing, body);
    PacketRoundTrip(packet, cuts, later, tail);
    ok := f.StartPacket();
    ghost var stale;
    bytes, stale := f.FlushPacket();
  }
}
