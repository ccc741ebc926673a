/** Reading a Vorbis packet: bytes joined across lacing segments and continued Ogg pages, and the
    least-significant-bit-first accumulator on top of them. */
module VorbisPacket {
  import opened Bits
  import opened Options
  import opened VorbisPages

  const EOP: int := -1
  const INVALID_BITS: int := -1

  /** How many bits `prep_huffman` leaves in the accumulator when `v` are held and `n` remain. */
  function Loaded(v: nat, n: nat): (r: nat)
    ensures v <= r && (v <= n ==> r <= n) && (v <= 24 ==> r <= 32)
    ensures r <= 24 ==> n < r + 8
    decreases 32 - v
  {
    if v > 24 || n < v + 8 then v else Loaded(v + 8, n)
  }

  /** Either everything left is loaded or at least 25 bits are. */
  lemma {:induction false} LoadedEnough(v: nat, n: nat)
    requires v <= n && (n - v) % 8 == 0
    ensures Loaded(v, n) == n || Loaded(v, n) >= 25
    decreases 32 - v
  {
    if v <= 24 && v + 8 <= n {
      LoadedEnough(v + 8, n);
    }
  }

  class PacketReader {
    var stream: seq<byte>
    var segments: seq<byte>
    var segment_count: nat
    var continued: bool
    var next_seg: int
    var last_seg: bool
    var bytes_in_seg: nat
    var acc: nat
    var valid_bits: int

    /** `stream` is the unread rest of the file, `continued` the flag of the current page.  The table
        `segments` keeps what it held beyond the current page's `segment_count` lacing values. */
    ghost predicate Valid()
      reads this
    {
      && OnPage()
      && -1 <= valid_bits <= 32
      && acc < Pow2(32)
      && (valid_bits > 0 ==> acc < Pow2(valid_bits))
    }

    ghost predicate OnPage()
      reads this`segments, this`segment_count, this`next_seg
    {
      && |segments| == 255 && segment_count <= 255
      && -1 <= next_seg && (next_seg <= 0 || next_seg < segment_count)
    }

    /** The lacing values still to come on this page. */
    ghost function Ahead(): seq<byte>
      reads this`segments, this`segment_count, this`next_seg
      requires OnPage()
    {
      if 0 <= next_seg < segment_count then segments[next_seg..segment_count] else []
    }

    /** The next lacing value is taken from a page that has none. */
    ghost predicate Stale()
      reads this`stream, this`segments, this`segment_count, this`next_seg, this`last_seg, this`bytes_in_seg
      requires OnPage()
    {
      !last_seg && if next_seg == -1 then BarePage(ParsePage(stream)) else segment_count == 0
    }

    ghost predicate BarePage(p: Option<Page>) {
      p.Some? && p.value.continued && p.value.lacing == []
    }

    /** The page that follows does not continue the packet. */
    ghost predicate CutShort()
      reads this`stream, this`next_seg, this`last_seg
    {
      !last_seg && next_seg == -1 && ParsePage(stream).Some? && !ParsePage(stream).value.continued
    }

    /** At the first lacing value of this page. */
    ghost predicate StartOf(p: Page)
      reads this`stream, this`segments, this`segment_count, this`continued, this`next_seg
    {
      OnPage() && next_seg == 0 && Page(continued, segments[..segment_count], stream) == p
    }

    /** What the current packet runs into. */
    ghost function Ending(): Ending
      reads this`stream, this`segments, this`segment_count, this`next_seg, this`last_seg, this`bytes_in_seg
      requires OnPage()
    {
      if !last_seg && next_seg == 0 && segment_count == 0 then Bare
      else EndsAt(stream, Ahead(), bytes_in_seg, last_seg)
    }

    /** The next read takes such a lacing value. */
    ghost predicate TakesStale()
      reads this`stream, this`segments, this`segment_count, this`next_seg, this`last_seg, this`bytes_in_seg
      requires OnPage()
    {
      bytes_in_seg == 0 && Stale()
    }

    lemma StaleIsBare()
      requires OnPage() && TakesStale()
      ensures Ending() == Bare
    {
      if next_seg == -1 {
        TurnPage(stream);
      }
    }

    /** Where the current packet leaves the reader. */
    ghost function Left(): (seq<byte>, seq<byte>)
      reads this`stream, this`segments, this`segment_count, this`next_seg, this`last_seg, this`bytes_in_seg
      requires OnPage()
    {
      BeyondAt(stream, Ahead(), bytes_in_seg, last_seg)
    }

    /** The current packet ends properly. */
    ghost predicate Sound()
      reads this`stream, this`segments, this`segment_count, this`next_seg, this`last_seg, this`bytes_in_seg
      requires OnPage()
    {
      Ending() == Proper
    }

    /** No page inside the current packet is without lacing values. */
    ghost predicate Whole()
      reads this`stream, this`segments, this`segment_count, this`next_seg, this`last_seg, this`bytes_in_seg
      requires OnPage()
    {
      Ending() != Bare
    }

    /** The bytes of the current packet not yet read. */
    ghost function Rest(): seq<byte>
      reads this`stream, this`segments, this`segment_count, this`next_seg, this`last_seg, this`bytes_in_seg
      requires OnPage()
    {
      Remaining(stream, Ahead(), bytes_in_seg, last_seg)
    }

    /** The bits of the current packet not yet read. */
    ghost function Unread(): seq<bool>
      reads this
      requires Valid()
    {
      if valid_bits < 0 then [] else ToBits(acc, valid_bits) + BytesToBits(Rest())
    }

    /** How many lacing values can still be taken before the next page. */
    ghost function Slots(): nat
      reads this`segment_count, this`next_seg
    {
      if 0 <= next_seg < segment_count then segment_count - next_seg else if next_seg == 0 then 1 else 0
    }

    /** `get8` */
    method Get8() returns (b: byte)
      modifies this`stream
      ensures b == At(old(stream), 0) && stream == Drop(old(stream), 1)
    {
      if stream == [] {
        b := 0;
      } else {
        b := stream[0];
        stream := stream[1..];
      }
    }

    /** `capture_pattern` */
    method CapturePattern() returns (ok: bool)
      modifies this`stream
      ensures ok == (Captured(old(stream)) == 4)
      ensures stream == Drop(old(stream), if ok then 4 else Captured(old(stream)) + 1)
    {
      hide Drop, At;
      ghost var s := stream;
      DropAt(s, 1, 0);
      DropAt(s, 2, 0);
      DropAt(s, 3, 0);
      DropDrop(s, 1, 1);
      DropDrop(s, 2, 1);
      DropDrop(s, 3, 1);
      var b := Get8();
      if b != 0x4f { return false; }
      b := Get8();
      if b != 0x67 { return false; }
      b := Get8();
      if b != 0x67 { return false; }
      b := Get8();
      return b == 0x53;
    }

    /** `get32`, of a number the packet layer does not look at. */
    method Get32()
      modifies this`stream
      ensures stream == Drop(old(stream), 4)
    {
      hide Drop;
      ghost var s := stream;
      DropDrop(s, 1, 1);
      DropDrop(s, 2, 1);
      DropDrop(s, 3, 1);
      var _ := Get8();
      var _ := Get8();
      var _ := Get8();
      var _ := Get8();
    }

    /** `getn`, of the `n` lacing values. */
    method GetLacing(n: byte) returns (ok: bool)
      requires |segments| == 255
      modifies this`stream, this`segments
      ensures ok == (n <= |old(stream)|) && |segments| == 255
      ensures if ok then stream == old(stream)[n..] && segments == old(stream)[..n] + old(segments)[n..]
              else stream == old(stream) && segments == old(segments)
    {
      ok := n <= |stream|;
      if ok {
        segments, stream := stream[..n] + segments[n..], stream[n..];
      }
    }

    /** `start_page`: a page is parsed, or as much of a header is used up as was looked at. */
    method StartPage() returns (ok: bool)
      requires Valid() && next_seg <= 0
      modifies this`stream, this`segments, this`segment_count, this`continued, this`next_seg
      ensures Valid()
      ensures ok == ParsePage(old(stream)).Some?
      ensures ok ==> Page(continued, segments[..segment_count], stream) == ParsePage(old(stream)).value
      ensures ok ==> next_seg == 0 && segments[segment_count..] == old(segments)[segment_count..]
      ensures !ok ==> next_seg == old(next_seg) && segments == old(segments) && stream == Drop(old(stream), Wasted(old(stream)))
    {
      hide Drop, At, Pow2;
      ghost var s := stream;
      ok := CapturePattern();
      if !ok {
        return false;
      }
      ok := StartPageNoCapturePattern(s);
    }

    /** `start_page_no_capturepattern` */
    method StartPageNoCapturePattern(ghost s: seq<byte>) returns (ok: bool)
      requires Valid() && next_seg <= 0 && Captured(s) == 4 && stream == Drop(s, 4)
      modifies this`stream, this`segments, this`segment_count, this`continued, this`next_seg
      ensures Valid()
      ensures ok == ParsePage(s).Some?
      ensures ok ==> Page(continued, segments[..segment_count], stream) == ParsePage(s).value
      ensures ok ==> next_seg == 0 && segments[segment_count..] == old(segments)[segment_count..]
      ensures !ok ==> next_seg == old(next_seg) && segments == old(segments) && stream == Drop(s, Wasted(s))
    {
      hide Drop, At, Pow2;
      DropAt(s, 4, 0);
      DropDrop(s, 4, 1);
      var version := Get8();
      if version != 0 {
        return false;
      }
      DropAt(s, 5, 0);
      DropDrop(s, 5, 1);
      var flag := Get8();
      continued := flag % 2 == 1;
      SkipNumbers(s);
      DropAt(s, 26, 0);
      DropDrop(s, 26, 1);
      var count := Get8();
      segment_count := count;
      ok := GetLacing(count);
      if ok {
        next_seg := 0;
      }
    }

    /** Granule position, serial number, page number and checksum. */
    method SkipNumbers(ghost s: seq<byte>)
      requires stream == Drop(s, 6)
      modifies this`stream
      ensures stream == Drop(s, 26)
    {
      hide Drop;
      DropDrop(s, 6, 4);
      DropDrop(s, 10, 4);
      DropDrop(s, 14, 4);
      DropDrop(s, 18, 4);
      DropDrop(s, 22, 4);
      Get32();
      Get32();
      Get32();
      Get32();
      Get32();
    }

    /** `start_packet` */
    method StartPacket() returns (ok: bool)
      requires Valid()
      modifies this
      ensures Valid()
      ensures var p := ParsePage(old(stream));
        if old(next_seg) == -1 then
          ok == (p.Some? && !p.value.continued)
          && (ok ==> StartOf(p.value))
        else ok && next_seg == old(next_seg) && stream == old(stream)
                && segments == old(segments) && segment_count == old(segment_count)
      ensures ok ==> next_seg >= 0 && !last_seg && valid_bits == 0 && bytes_in_seg == 0
    {
      hide ParsePage, Pow2;
      if next_seg == -1 {
        ok := StartPage();
        if !ok || continued {
          return false;
        }
      }
      last_seg, valid_bits, bytes_in_seg := false, 0, 0;
      ok := true;
    }

    /** `next_segment`: the packet's bytes stay the same, and if there are none left it either ends for
        good or is cut short by a page that does not continue it.  But the lacing value taken from a
        page without any is the one that an earlier page has left in the table. */
    method NextSegment() returns (len: nat)
      requires Valid() && bytes_in_seg == 0
      modifies this`stream, this`segments, this`segment_count, this`continued,
               this`next_seg, this`last_seg, this`bytes_in_seg
      ensures Valid() && len == bytes_in_seg
      ensures !old(Stale()) && (len != 0 || last_seg) ==>
        Rest() == old(Rest()) && Ending() == old(Ending()) && Left() == old(Left())
      ensures !old(Stale()) && len == 0 ==>
        old(Rest()) == [] && (stream, Ahead()) == old(Left()) && old(Ending()) == if last_seg then Proper else Unmarked
      ensures old(CutShort()) ==> len == 0 && !last_seg && StartOf(ParsePage(old(stream)).value)
      ensures !old(last_seg) && 0 <= old(next_seg) < old(segment_count) ==>
        len == old(segments)[old(next_seg)] && last_seg == (len < 255) && stream == old(stream) && segments == old(segments)
        && next_seg == if old(next_seg) + 1 < old(segment_count) then old(next_seg) + 1 else -1
      ensures old(Stale()) ==> len == old(segments)[0] && next_seg == -1 && last_seg == (len < 255)
      ensures old(Stale()) ==> stream == if old(next_seg) == -1 then ParsePage(old(stream)).value.rest else old(stream)
      ensures len > 0 ==> |stream| < |old(stream)| || (|stream| == |old(stream)| && Slots() < old(Slots()))
    {
      hide ParsePage, EndsAt, Remaining, BeyondAt, Pow2;
      if last_seg {
        PacketOver(stream, Ahead());
        return 0;
      }
      if next_seg == -1 {
        ghost var s := stream;
        var ok := StartPage();
        if !ok || !continued {
          NothingFollows(s);
          if !ok {
            last_seg := true;
            PacketOver(stream, Ahead());
          }
          return 0;
        }
        TurnPage(s);
      }
      len := TakeLacing();
    }

    /** The next lacing value of the table. */
    method TakeLacing() returns (len: nat)
      requires Valid() && bytes_in_seg == 0 && !last_seg && next_seg >= 0
      modifies this`next_seg, this`last_seg, this`bytes_in_seg
      ensures Valid() && len == bytes_in_seg
      ensures segment_count > 0 ==> Rest() == old(Rest()) && Ending() == EndsAt(stream, old(Ahead()), 0, false)
      ensures segment_count > 0 ==> Left() == old(Left()) && (len == 0 ==> (stream, Ahead()) == Left())
      ensures segment_count > 0 && len == 0 ==> old(Rest()) == [] && last_seg && Sound()
      ensures len == segments[old(next_seg)] && last_seg == (len < 255)
      ensures next_seg == if old(next_seg) + 1 < segment_count then old(next_seg) + 1 else -1
      ensures Slots() < old(Slots())
    {
      hide ParsePage, EndsAt, Remaining, BeyondAt, Pow2;
      ghost var ahead := Ahead();
      if segment_count > 0 {
        EnterSegment(stream, ahead);
      }
      len := segments[next_seg];
      next_seg := next_seg + 1;
      if len < 255 {
        last_seg := true;
      }
      if next_seg >= segment_count {
        next_seg := -1;
      }
      bytes_in_seg := len;
      PacketOver(stream, Ahead());
      assert segment_count > 0 ==> Ahead() == ahead[1..];
    }

    /** `get8_packet_raw` */
    method Get8PacketRaw() returns (z: int)
      requires Valid()
      modifies this`stream, this`segments, this`segment_count, this`continued,
               this`next_seg, this`last_seg, this`bytes_in_seg
      ensures Valid() && -1 <= z < 256
      ensures old(Whole()) ==> !old(TakesStale())
      ensures !old(TakesStale()) && old(Rest()) != [] ==>
        z == old(Rest())[0] && Rest() == old(Rest())[1..] && Ending() == old(Ending()) && Left() == old(Left())
      ensures !old(TakesStale()) && old(Rest()) == [] ==>
        old(Whole()) && z == EOP && bytes_in_seg == 0 && last_seg == old(Sound()) && (stream, Ahead()) == old(Left())
      ensures old(bytes_in_seg) > 0 ==>
        z == At(old(stream), 0) && stream == Drop(old(stream), 1) && bytes_in_seg == old(bytes_in_seg) - 1
        && next_seg == old(next_seg) && last_seg == old(last_seg) && segments == old(segments)
      ensures old(bytes_in_seg) == 0 && old(CutShort()) ==>
        z == EOP && bytes_in_seg == 0 && !last_seg && StartOf(ParsePage(old(stream)).value)
      ensures old(TakesStale()) && old(segments)[0] > 0 ==>
        z == At(if old(next_seg) == -1 then ParsePage(old(stream)).value.rest else old(stream), 0)
      ensures last_seg && bytes_in_seg == 0 ==> Rest() == [] && Sound()
      ensures z != EOP ==> Shorter(old(stream), old(Slots()), old(bytes_in_seg))
    {
      hide ParsePage, EndsAt, Remaining, BeyondAt, Take, Drop, At, Pow2;
      if bytes_in_seg == 0 {
        PacketOver(stream, Ahead());
        if last_seg {
          return EOP;
        }
        if Stale() {
          StaleIsBare();
        }
        var len := NextSegment();
        if len == 0 {
          PacketOver(stream, Ahead());
          return EOP;
        }
      }
      z := TakeByte();
      PacketOver(stream, Ahead());
    }

    /** Fewer bytes of the file are left than before, or no more but fewer lacing values, or neither
        more but fewer bytes of the segment. */
    ghost predicate Shorter(was: seq<byte>, slots: nat, inSeg: nat)
      reads this`stream, this`segment_count, this`next_seg, this`bytes_in_seg
    {
      || |stream| < |was|
      || (|stream| == |was| && (Slots() < slots || (Slots() == slots && bytes_in_seg < inSeg)))
    }

    /** The next byte of the segment. */
    method TakeByte() returns (z: byte)
      requires Valid() && bytes_in_seg > 0
      modifies this`stream, this`bytes_in_seg
      ensures Valid() && bytes_in_seg == old(bytes_in_seg) - 1
      ensures old(Rest()) == [z] + Rest() && Ending() == old(Ending()) && Left() == old(Left())
      ensures z == At(old(stream), 0) && stream == Drop(old(stream), 1)
    {
      hide ParsePage, EndsAt, Remaining, BeyondAt, Take, At, Pow2;
      ReadByte(stream, Ahead(), bytes_in_seg, last_seg);
      bytes_in_seg := bytes_in_seg - 1;
      z := Get8();
    }

    /** `flush_packet`: it takes a lacing value from a page without any if and only if the packet runs
        into one.  Otherwise the bytes passed over are the rest of the packet, the reader is left behind
        them, and the packet is over for good if and only if it ends properly. */
    method FlushPacket() returns (ghost bytes: seq<byte>, ghost stale: bool)
      requires Valid()
      modifies this`stream, this`segments, this`segment_count, this`continued,
               this`next_seg, this`last_seg, this`bytes_in_seg
      ensures Valid()
      ensures stale <==> old(Ending()) == Bare
      ensures !stale ==> bytes == old(Rest()) && bytes_in_seg == 0 && last_seg == (old(Ending()) == Proper)
      ensures !stale ==> (stream, Ahead()) == old(Left())
    {
      hide ParsePage, EndsAt, Remaining, BeyondAt, Take, Drop, At, Pow2, Rest, Ending, Left, OnPage, Slots, Stale;
      bytes, stale := [], false;
      ghost var rest := Rest();
      while true
        invariant Valid()
        invariant stale ==> old(Ending()) == Bare
        invariant !stale ==> Ending() == old(Ending()) && Left() == old(Left())
        invariant !stale ==> old(Rest()) == bytes + rest && rest == Rest()
        decreases |stream|, Slots(), bytes_in_seg
      {
        stale := stale || TakesStale();
        if TakesStale() {
          StaleIsBare();
        }
        var z := Get8PacketRaw();
        if z == EOP {
          break;
        }
        if rest != [] {
          bytes, rest := bytes + [z], rest[1..];
        }
      }
    }

    /** `prep_huffman`: bytes are added while at most 24 bits are held and the packet lasts.  `ok` is
        false where the source would shift by a negative count: a packet that get_bits has found to be
        over, and that is not over. */
    method PrepHuffman() returns (ok: bool)
      requires Valid()
      modifies this
      ensures Valid() && (old(valid_bits) < 0 <==> valid_bits < 0)
      ensures old(valid_bits) >= 0 ==> ok
      ensures old(valid_bits) < 0 && !old(TakesStale()) ==> (ok <==> old(Rest()) == [])
      ensures old(Sound()) ==> !old(TakesStale()) && (old(valid_bits) < 0 && ok ==> Rest() == [])
      ensures old(valid_bits) < 0 && old(last_seg) && old(bytes_in_seg) == 0 ==> unchanged(this)
      ensures old(Sound()) ==> Sound()
      ensures old(Sound()) && 0 <= old(valid_bits) ==>
        Unread() == old(Unread()) && valid_bits == Loaded(old(valid_bits), old(|Unread()|)) && acc < Pow2(valid_bits)
    {
      hide Rest, Ending, Left, Pow2, FromBits, ToBits, BytesToBits, Stale;
      if TakesStale() {
        StaleIsBare();
      }
      if valid_bits < 0 {
        ok := NothingToLoad();
        return;
      }
      ok := true;
      NoBits(acc);
      if valid_bits <= 24 {
        if valid_bits == 0 {
          acc := 0;
          NoBits(0);
        }
        ghost var was, v := Unread(), valid_bits;
        while true
          invariant Valid() && 0 <= valid_bits <= 24 && acc < Pow2(valid_bits)
          invariant old(Sound()) ==> Sound() && Unread() == was
          invariant old(Sound()) ==> Loaded(valid_bits, |was|) == Loaded(v, |was|)
          decreases 25 - valid_bits
        {
          var loaded := LoadNext();
          if !loaded || valid_bits > 24 {
            break;
          }
        }
      }
    }

    /** The first round of the loop with no accumulator to shift into. */
    method NothingToLoad() returns (ok: bool)
      requires Valid() && valid_bits < 0
      modifies this
      ensures Valid() && valid_bits == old(valid_bits) && (old(Sound()) ==> Sound())
      ensures !old(TakesStale()) ==> (ok <==> old(Rest()) == [])
      ensures old(Sound()) && ok ==> Rest() == []
      ensures old(last_seg) && old(bytes_in_seg) == 0 ==> unchanged(this)
    {
      hide Rest, Ending, Left, Pow2;
      if last_seg && bytes_in_seg == 0 {
        RestOver();
        return true;
      }
      var z := Get8PacketRaw();
      ok := z == EOP;
    }

    /** One round of the loop of `prep_huffman`. */
    method LoadNext() returns (loaded: bool)
      requires Valid() && 0 <= valid_bits <= 24 && acc < Pow2(valid_bits)
      modifies this
      ensures Valid() && acc < Pow2(32)
      ensures !loaded ==> valid_bits == old(valid_bits) && acc == old(acc)
      ensures loaded ==> valid_bits == old(valid_bits) + 8 && acc < Pow2(valid_bits)
      ensures old(Sound()) ==> Sound() && Unread() == old(Unread())
      ensures old(Sound()) ==> if loaded then valid_bits <= |Unread()| else |Unread()| == valid_bits
    {
      hide Rest, Ending, Left, Pow2, FromBits, ToBits, BytesToBits;
      if last_seg && bytes_in_seg == 0 {
        RestOver();
        return false;
      }
      ghost var rest := Rest();
      var z := Get8PacketRaw();
      if z == EOP {
        return false;
      }
      AddByte(z);
      assert old(Sound()) ==> [z] + rest[1..] == rest;
      return true;
    }

    /** A byte goes in above the bits held. */
    method AddByte(z: byte)
      requires Valid() && 0 <= valid_bits <= 24 && acc < Pow2(valid_bits)
      modifies this`acc, this`valid_bits
      ensures Valid() && valid_bits == old(valid_bits) + 8 && acc < Pow2(valid_bits)
      ensures Unread() == ToBits(old(acc), old(valid_bits)) + BytesToBits([z] + Rest())
    {
      hide Rest, Ending, Left, Pow2, FromBits, ToBits, BytesToBits, OnPage;
      Pow2Mono(valid_bits + 8, 32);
      LoadByte(acc, valid_bits, z, Rest());
      acc := acc + z * Pow2(valid_bits);
      valid_bits := valid_bits + 8;
    }

    /** Shifting a codeword of `n` held bits out of the accumulator. */
    method Consume(n: nat)
      requires Valid() && 0 < n <= valid_bits
      modifies this`acc, this`valid_bits
      ensures Valid() && valid_bits == old(valid_bits) - n
      ensures Unread() == old(Unread())[n..]
    {
      hide Rest, Ending, Left, Pow2, FromBits, ToBits, BytesToBits;
      TakeBits(acc, valid_bits, n, BytesToBits(Rest()));
      acc := acc / Pow2(n);
      valid_bits := valid_bits - n;
    }

    /** Shifting out more bits than are held empties the accumulator. */
    method Discard(n: nat)
      requires Valid() && valid_bits < n
      modifies this`acc, this`valid_bits
      ensures Valid() && valid_bits == 0
    {
      hide Rest, Ending, Left, Pow2;
      DivMod(acc, Pow2(n));
      acc := acc / Pow2(n);
      valid_bits := valid_bits - n;
      if valid_bits < 0 {
        valid_bits := 0;
      }
    }

    lemma RestOver()
      requires OnPage() && last_seg && bytes_in_seg == 0
      ensures Rest() == []
    {
    }

    /** `get_bits`: with too few bits left the packet is over, and a read of more than 24 bits may
        still return its first 24.  `ok` is false where the source would shift by the width of the word. */
    method GetBits(n: nat) returns (ok: bool, z: nat)
      requires Valid() && n <= 32
      modifies this
      ensures Valid() && (ok <==> !(n == 32 == old(valid_bits)))
      ensures old(valid_bits) < 0 || !ok ==> z == 0 && unchanged(this)
      ensures ok && old(Whole()) && 0 <= old(valid_bits) && n <= old(|Unread()|) ==>
        z == FromBits(old(Unread())[..n]) && Unread() == old(Unread())[n..] && Ending() == old(Ending())
        && Left() == old(Left()) && valid_bits >= 0
      ensures old(Whole()) && 0 <= old(valid_bits) && old(|Unread()|) < n ==>
        valid_bits == INVALID_BITS && bytes_in_seg == 0 && last_seg == old(Sound()) && (stream, Ahead()) == old(Left())
        && z == if n <= 24 || old(|Unread()|) < 24 then 0 else FromBits(old(Unread())[..24])
      ensures ok ==> valid_bits <= 7 || valid_bits == old(valid_bits) - n
      decreases n, 1
    {
      hide Rest, Ending, Left, Pow2, FromBits, ToBits, BytesToBits;
      if valid_bits < 0 {
        return true, 0;
      }
      if n == 32 == valid_bits {
        return false, 0;
      }
      if valid_bits < n {
        if n > 24 {
          z := GetLong(n);
          return true, z;
        }
        Fill(n);
        if valid_bits < 0 {
          return true, 0;
        }
      }
      z := TakeHeld(n);
      ok := true;
    }

    /** Masking and shifting out bits that are held. */
    method TakeHeld(n: nat) returns (z: nat)
      requires Valid() && n <= valid_bits
      modifies this`acc, this`valid_bits
      ensures Valid() && valid_bits == old(valid_bits) - n
      ensures n <= |old(Unread())| && z == FromBits(old(Unread())[..n]) && Unread() == old(Unread())[n..]
    {
      hide Rest, Ending, Left, Pow2, FromBits, ToBits, BytesToBits, OnPage;
      if valid_bits == 0 {
        TakeNone(acc, BytesToBits(Rest()));
      } else {
        TakeBits(acc, valid_bits, n, BytesToBits(Rest()));
      }
      z := acc % Pow2(n);
      acc := acc / Pow2(n);
      valid_bits := valid_bits - n;
    }

    /** The branch of `get_bits` for reads the accumulator cannot hold: 24 bits, then the rest. */
    method GetLong(n: nat) returns (z: nat)
      requires Valid() && 24 < n <= 32 && 0 <= valid_bits < n
      modifies this
      ensures Valid()
      ensures old(Whole()) && n <= old(|Unread()|) ==>
        z == FromBits(old(Unread())[..n]) && Unread() == old(Unread())[n..] && Ending() == old(Ending())
        && Left() == old(Left()) && valid_bits >= 0
      ensures old(Whole()) && old(|Unread()|) < n ==>
        valid_bits == INVALID_BITS && bytes_in_seg == 0 && last_seg == old(Sound()) && (stream, Ahead()) == old(Left())
        && z == if old(|Unread()|) < 24 then 0 else FromBits(old(Unread())[..24])
      ensures valid_bits <= 7
      decreases n, 0
    {
      hide Rest, Ending, Left, Pow2, FromBits, ToBits, BytesToBits, Unread, OnPage;
      ghost var was := Unread();
      var _, low := GetBits(24);
      var _, high := GetBits(n - 24);
      z := low + high * 0x100_0000;
      if old(Whole()) && n <= |was| {
        JoinReads(was, n);
      }
    }

    /** The byte loop of `get_bits`. */
    method Fill(n: nat)
      requires Valid() && 0 <= valid_bits < n <= 24
      modifies this
      ensures Valid()
      ensures old(Whole()) && n <= old(|Unread()|) ==>
        n <= valid_bits && Unread() == old(Unread()) && Ending() == old(Ending()) && Left() == old(Left())
      ensures old(Whole()) && old(|Unread()|) < n ==>
        valid_bits == INVALID_BITS && bytes_in_seg == 0 && last_seg == old(Sound()) && (stream, Ahead()) == old(Left())
      ensures valid_bits == INVALID_BITS || n <= valid_bits <= n + 7
    {
      hide Rest, Ending, Left, Pow2, FromBits, ToBits, BytesToBits;
      NoBits(acc);
      if valid_bits == 0 {
        acc := 0;
        NoBits(0);
      }
      while valid_bits < n
        invariant Valid() && 0 <= valid_bits <= n + 7 && acc < Pow2(valid_bits)
        invariant old(Whole()) ==> Ending() == old(Ending()) && Left() == old(Left()) && Unread() == old(Unread())
        decreases n - valid_bits
      {
        var over := FillOne();
        if over {
          return;
        }
      }
    }

    /** One byte more, or the end of the packet. */
    method FillOne() returns (over: bool)
      requires Valid() && 0 <= valid_bits <= 24 && acc < Pow2(valid_bits)
      modifies this
      ensures Valid()
      ensures over ==> valid_bits == INVALID_BITS
      ensures over && old(Whole()) ==>
        bytes_in_seg == 0 && last_seg == old(Sound()) && (stream, Ahead()) == old(Left()) && |old(Unread())| == old(valid_bits)
      ensures !over ==> valid_bits == old(valid_bits) + 8 && acc < Pow2(valid_bits)
      ensures !over && old(Whole()) ==> Unread() == old(Unread()) && Ending() == old(Ending()) && Left() == old(Left())
    {
      hide Rest, Ending, Left, Pow2, FromBits, ToBits, BytesToBits;
      ghost var rest := Rest();
      var z := Get8PacketRaw();
      if z == EOP {
        valid_bits := INVALID_BITS;
        return true;
      }
      AddByte(z);
      assert old(Whole()) ==> [z] + rest[1..] == rest;
      over := false;
    }
  }

  /** A loaded byte moves from the unread bytes to the top of the accumulator. */
  lemma LoadByte(acc: nat, v: nat, z: byte, rest: seq<byte>)
    requires acc < Pow2(v)
    ensures acc + z * Pow2(v) < Pow2(v + 8)
    ensures ToBits(acc, v) + BytesToBits([z] + rest) == ToBits(acc + z * Pow2(v), v + 8) + BytesToBits(rest)
  {
    assert Pow2(8) == 256;
    Pow2Add(v, 8);
    ByteOnTop(acc, Pow2(v), z);
    ToBitsConcat(acc, v, z, 8);
    assert ([z] + rest)[1..] == rest;
    assert Pow2(v) * z == z * Pow2(v);
  }

  lemma ByteOnTop(acc: nat, p: nat, z: byte)
    requires acc < p
    ensures acc + z * p < p * 256
  {
    assert z * p <= 255 * p;
  }

  /** Masking and shifting take the first `n` bits off. */
  lemma TakeBits(acc: nat, v: nat, n: nat, tail: seq<bool>)
    requires n <= v && acc < Pow2(v)
    ensures var b := ToBits(acc, v) + tail;
      FromBits(b[..n]) == acc % Pow2(n) && b[n..] == ToBits(acc / Pow2(n), v - n) + tail
    ensures acc / Pow2(n) < Pow2(v - n) && acc / Pow2(n) <= acc
  {
    hide FromBits, ToBits, Pow2;
    var p, q, r := Pow2(n), acc / Pow2(n), acc % Pow2(n);
    DivMod(acc, p);
    ToBitsConcat(r, n, q, v - n);
    ToFromBits(r, n);
    var b := ToBits(acc, v) + tail;
    assert b[..n] == ToBits(r, n);
    Pow2Add(n, v - n);
    QuotientBound(p, q, r, Pow2(v - n));
  }

  lemma NoBits(acc: nat)
    ensures ToBits(acc, 0) == [] && 0 < Pow2(0)
  {
  }

  lemma TakeNone(acc: nat, tail: seq<bool>)
    ensures acc % Pow2(0) == 0 && acc / Pow2(0) == acc && ToBits(acc, 0) + tail == tail
    ensures FromBits(tail[..0]) == 0 && tail[0..] == tail
  {
  }

  lemma JoinReads(b: seq<bool>, n: nat)
    requires 24 < n <= |b|
    ensures FromBits(b[..n]) == FromBits(b[..24]) + FromBits(b[24..][..n - 24]) * 0x100_0000
    ensures b[24..][n - 24..] == b[n..]
  {
    assert b[..n] == b[..24] + b[24..][..n - 24];
    FromBitsConcat(b[..24], b[24..][..n - 24]);
    Pow24();
  }

  lemma Pow24()
    ensures Pow2(24) == 0x100_0000
  {
    assert Pow2(8) == 256;
    Pow2Add(8, 8);
    Pow2Add(16, 8);
  }
}
