/** Ogg pages as stb_vorbis parses them, and the packets that lie across them. */
module VorbisPages {
  import opened Bits
  import opened Options

  /** A page header that was accepted: the continued flag, the lacing values and what follows them. */
  datatype Page = Page(continued: bool, lacing: seq<byte>, rest: seq<byte>)

  /** A read past the end of the file delivers zero bytes. */
  function At(s: seq<byte>, i: nat): byte {
    if i < |s| then s[i] else 0
  }

  function Take(s: seq<byte>, n: nat): (r: seq<byte>)
    ensures |r| == n
  {
    if n <= |s| then s[..n] else s + seq(n - |s|, _ => 0)
  }

  function Drop(s: seq<byte>, n: nat): (r: seq<byte>)
    ensures |r| == if n <= |s| then |s| - n else 0
  {
    if n <= |s| then s[n..] else []
  }

  /** How many of the four bytes "OggS" are there. */
  function Captured(s: seq<byte>): nat {
    if At(s, 0) != 0x4f then 0 else
    if At(s, 1) != 0x67 then 1 else
    if At(s, 2) != 0x67 then 2 else
    if At(s, 3) != 0x53 then 3 else 4
  }

  /** A page header is 27 bytes, the last one the number of lacing values that follow. */
  const HEADER := 27

  function ParsePage(s: seq<byte>): (r: Option<Page>)
    ensures r.Some? ==> |r.value.lacing| < 256 && |r.value.rest| < |s|
  {
    var body := Drop(s, HEADER);
    if Captured(s) < 4 || At(s, 4) != 0 || |body| < At(s, 26) then None
    else Some(Page(At(s, 5) % 2 == 1, body[..At(s, 26)], body[At(s, 26)..]))
  }

  /** The bytes taken from a header that is not accepted. */
  function Wasted(s: seq<byte>): nat {
    if Captured(s) < 4 then Captured(s) + 1 else if At(s, 4) != 0 then 5 else HEADER
  }

  function Sum(lacing: seq<byte>): nat {
    if lacing == [] then 0 else lacing[0] + Sum(lacing[1..])
  }

  /** The segments of a page, each cut from the body by its lacing value. */
  function Segments(lacing: seq<byte>, body: seq<byte>): (segs: seq<seq<byte>>)
    ensures |segs| == |lacing|
  {
    if lacing == [] then [] else [Take(body, lacing[0])] + Segments(lacing[1..], Drop(body, lacing[0]))
  }

  /** The segments that continue a packet on the following pages. */
  function Continued(s: seq<byte>): seq<seq<byte>>
    decreases |s|
  {
    match ParsePage(s)
    case None => []
    case Some(p) => if !p.continued then [] else Segments(p.lacing, p.rest) + Continued(Drop(p.rest, Sum(p.lacing)))
  }

  /** A packet is its segments up to and including the first one shorter than 255 bytes. */
  function Packet(segs: seq<seq<byte>>): seq<byte> {
    if segs == [] then [] else if |segs[0]| < 255 then segs[0] else segs[0] + Packet(segs[1..])
  }

  /** No packet ends among these segments. */
  predicate Open(lacing: seq<byte>) {
    lacing == [] || (lacing[0] == 255 && Open(lacing[1..]))
  }

  /** What a packet that is still open at the end of a page runs into, sooner or later: its last
      segment or a place where no page can be parsed, a page that does not continue it, or a page
      that continues it without a single lacing value. */
  datatype Ending = Proper | Unmarked | Bare

  function Ends(s: seq<byte>): Ending
    decreases |s|
  {
    match ParsePage(s)
    case None => Proper
    case Some(p) =>
      if !p.continued then Unmarked else
      if p.lacing == [] then Bare else
      if Open(p.lacing) then Ends(Drop(p.rest, Sum(p.lacing))) else Proper
  }

  /** The same from the middle of a page: `inSeg` bytes are left of the current segment, `ahead` are
      the lacing values to come, `last` tells whether the packet's last segment was entered. */
  function EndsAt(stream: seq<byte>, ahead: seq<byte>, inSeg: nat, last: bool): Ending {
    if last || !Open(ahead) then Proper else Ends(Drop(Drop(stream, inSeg), Sum(ahead)))
  }

  /** The bytes of the packet not yet read. */
  function Remaining(stream: seq<byte>, ahead: seq<byte>, inSeg: nat, last: bool): seq<byte> {
    var after := Drop(stream, inSeg);
    Take(stream, inSeg) + if last then [] else Packet(Segments(ahead, after) + Continued(Drop(after, Sum(ahead))))
  }

  /** Where the packet's last byte leaves the reader: the rest of the file, and the lacing values that
      are still to come on the page. */
  function Beyond(stream: seq<byte>, ahead: seq<byte>): (r: (seq<byte>, seq<byte>))
    decreases |stream|, |ahead| + 1
  {
    if ahead == [] then BeyondPage(stream) else
    if ahead[0] < 255 then (Drop(stream, ahead[0]), ahead[1..])
    else Beyond(Drop(stream, 255), ahead[1..])
  }

  /** The same at the end of a page: a page that does not continue the packet has been entered, and so
      much of a header used up as was looked at. */
  function BeyondPage(s: seq<byte>): (r: (seq<byte>, seq<byte>))
    decreases |s|, 0
  {
    match ParsePage(s)
    case None => (Drop(s, Wasted(s)), [])
    case Some(p) => if p.continued then Beyond(p.rest, p.lacing) else (p.rest, p.lacing)
  }

  function BeyondAt(stream: seq<byte>, ahead: seq<byte>, inSeg: nat, last: bool): (seq<byte>, seq<byte>) {
    if last then (Drop(stream, inSeg), ahead) else Beyond(Drop(stream, inSeg), ahead)
  }

  lemma DropDrop(s: seq<byte>, m: nat, n: nat)
    ensures Drop(Drop(s, m), n) == Drop(s, m + n)
  {
  }

  lemma DropAt(s: seq<byte>, n: nat, i: nat)
    ensures At(Drop(s, n), i) == At(s, n + i)
  {
  }

  lemma DropNone(s: seq<byte>)
    ensures Drop(s, 0) == s
  {
  }

  lemma PacketOver(stream: seq<byte>, ahead: seq<byte>)
    ensures Remaining(stream, ahead, 0, true) == [] && EndsAt(stream, ahead, 0, true) == Proper
    ensures BeyondAt(stream, ahead, 0, true) == (stream, ahead)
  {
    DropNone(stream);
  }

  /** At the end of a page, with no page to follow, the packet is over; so it is before a page that
      does not continue it. */
  lemma NothingFollows(stream: seq<byte>)
    requires ParsePage(stream) == None || !ParsePage(stream).value.continued
    ensures Remaining(stream, [], 0, false) == []
    ensures EndsAt(stream, [], 0, false) == if ParsePage(stream) == None then Proper else Unmarked
    ensures BeyondAt(stream, [], 0, false)
      == if ParsePage(stream) == None then (Drop(stream, Wasted(stream)), [])
         else (ParsePage(stream).value.rest, ParsePage(stream).value.lacing)
  {
    AtPageEnd(stream);
    DropNone(stream);
  }

  lemma AtPageEnd(stream: seq<byte>)
    ensures BeyondAt(stream, [], 0, false) == BeyondPage(stream)
  {
    hide BeyondPage;
    DropNone(stream);
  }

  lemma TurnPage(stream: seq<byte>)
    requires ParsePage(stream).Some? && ParsePage(stream).value.continued
    ensures var p := ParsePage(stream).value;
      && Remaining(stream, [], 0, false) == Remaining(p.rest, p.lacing, 0, false)
      && EndsAt(stream, [], 0, false) == (if p.lacing == [] then Bare else EndsAt(p.rest, p.lacing, 0, false))
      && BeyondAt(stream, [], 0, false) == BeyondAt(p.rest, p.lacing, 0, false)
  {
    hide Drop, ParsePage;
    AtPageEnd(stream);
    DropNone(stream);
    DropNone(ParsePage(stream).value.rest);
    assert Segments([], stream) + Continued(stream) == Continued(stream);
  }

  lemma EnterSegment(stream: seq<byte>, ahead: seq<byte>)
    requires ahead != []
    ensures Remaining(stream, ahead, 0, false) == Remaining(stream, ahead[1..], ahead[0], ahead[0] < 255)
    ensures EndsAt(stream, ahead, 0, false) == EndsAt(stream, ahead[1..], ahead[0], ahead[0] < 255)
    ensures BeyondAt(stream, ahead, 0, false) == BeyondAt(stream, ahead[1..], ahead[0], ahead[0] < 255)
  {
    hide Drop, ParsePage, Ends, Continued, Take, BeyondPage;
    DropNone(stream);
    DropDrop(stream, ahead[0], Sum(ahead[1..]));
    var segs, tail := Segments(ahead, stream), Continued(Drop(stream, Sum(ahead)));
    assert (segs + tail)[1..] == segs[1..] + tail;
  }

  lemma ReadByte(stream: seq<byte>, ahead: seq<byte>, inSeg: nat, last: bool)
    requires inSeg > 0
    ensures Remaining(stream, ahead, inSeg, last)
         == [At(stream, 0)] + Remaining(Drop(stream, 1), ahead, inSeg - 1, last)
    ensures EndsAt(stream, ahead, inSeg, last) == EndsAt(Drop(stream, 1), ahead, inSeg - 1, last)
    ensures BeyondAt(stream, ahead, inSeg, last) == BeyondAt(Drop(stream, 1), ahead, inSeg - 1, last)
  {
    hide ParsePage, Ends, Continued, Packet, Segments, Open, Sum, Beyond;
    assert Take(stream, inSeg) == [At(stream, 0)] + Take(Drop(stream, 1), inSeg - 1);
    DropDrop(stream, 1, inSeg - 1);
  }

  /** A page header, with everything the packet layer does not look at left zero. */
  function Header(continued: bool, lacing: seq<byte>): seq<byte>
    requires |lacing| < 256
  {
    [0x4f, 0x67, 0x67, 0x53, 0, if continued then 1 else 0] + seq(20, _ => 0) + [|lacing|] + lacing
  }

  lemma HeaderRead(continued: bool, lacing: seq<byte>, rest: seq<byte>)
    requires |lacing| < 256
    ensures ParsePage(Header(continued, lacing) + rest) == Some(Page(continued, lacing, rest))
  {
    var s := Header(continued, lacing) + rest;
    assert s[HEADER..] == lacing + rest;
    assert Captured(s) == 4 && At(s, 4) == 0 && At(s, 26) == |lacing|;
    assert At(s, 5) % 2 == 1 <==> continued;
    assert (lacing + rest)[..|lacing|] == lacing && (lacing + rest)[|lacing|..] == rest;
  }

  /** The lacing values of a packet. */
  function Lacing(packet: seq<byte>): (lacing: seq<byte>)
    ensures lacing != []
  {
    if |packet| < 255 then [|packet|] else [255] + Lacing(packet[255..])
  }

  /** A packet that is followed by others on its last page, `later` being their lacing values there:
      `cuts` tells how many full segments each page takes of it, the one where it begins included,
      before it goes over to the next one; the last page takes the rest. */
  ghost predicate Fits(packet: seq<byte>, cuts: seq<nat>, later: seq<byte>) {
    if cuts == [] then |Lacing(packet) + later| < 256
    else 0 < cuts[0] < 256 && 255 * cuts[0] <= |packet| && Fits(packet[255 * cuts[0]..], cuts[1..], later)
  }

  /** The lacing values of the page where the packet begins, from its own first one on. */
  ghost function PageLacing(packet: seq<byte>, cuts: seq<nat>, later: seq<byte>): (lacing: seq<byte>)
    requires Fits(packet, cuts, later)
    ensures 0 < |lacing| < 256
  {
    if cuts == [] then Lacing(packet) + later else Full(cuts[0])
  }

  /** What follows in the file, from the packet's first byte to its last: the rest of the page's body,
      and the pages that continue the packet. */
  ghost function Body(packet: seq<byte>, cuts: seq<nat>, later: seq<byte>): seq<byte>
    requires Fits(packet, cuts, later)
    decreases cuts
  {
    if cuts == [] then packet
    else
      var n := 255 * cuts[0];
      packet[..n] + Header(true, PageLacing(packet[n..], cuts[1..], later)) + Body(packet[n..], cuts[1..], later)
  }

  function Full(n: nat): (lacing: seq<byte>)
    ensures |lacing| == n
  {
    if n == 0 then [] else [255] + Full(n - 1)
  }

  /** Whatever the packet, its length a multiple of 255 included, wherever it begins and is cut, and
      whatever follows it: it is read back, it ends properly, and the reader is left behind its last
      byte, with the lacing values of the packets that follow. */
  lemma {:induction false} PacketRoundTrip(packet: seq<byte>, cuts: seq<nat>, later: seq<byte>, tail: seq<byte>)
    requires Fits(packet, cuts, later)
    ensures var s, lacing := Body(packet, cuts, later) + tail, PageLacing(packet, cuts, later);
      && Remaining(s, lacing, 0, false) == packet && EndsAt(s, lacing, 0, false) == Proper
      && BeyondAt(s, lacing, 0, false) == (tail, later)
    decreases cuts
  {
    hide ParsePage, Header, Drop, Segments, Packet, Open, Sum, Beyond, BeyondPage, Ends, Continued;
    var s, lacing := Body(packet, cuts, later) + tail, PageLacing(packet, cuts, later);
    DropNone(s);
    if cuts == [] {
      LastPage(packet, later, tail, Continued(Drop(s, Sum(lacing))));
      assert Take(s, 0) == [];
    } else {
      var n := 255 * cuts[0];
      var next, body := PageLacing(packet[n..], cuts[1..], later), Body(packet[n..], cuts[1..], later);
      var rest := Header(true, next) + (body + tail);
      assert s == packet[..n] + rest;
      HeaderRead(true, next, body + tail);
      FullPage(cuts[0], packet[..n], rest, Continued(rest));
      PacketRoundTrip(packet[n..], cuts[1..], later, tail);
      TurnPage(rest);
      NextPage(s, cuts[0], rest);
      assert packet[..n] + packet[n..] == packet;
    }
  }

  /** Over full segments to the end of their page. */
  lemma NextPage(s: seq<byte>, k: nat, rest: seq<byte>)
    requires Open(Full(k)) && Drop(s, Sum(Full(k))) == rest && Beyond(s, Full(k)) == Beyond(rest, [])
    ensures EndsAt(s, Full(k), 0, false) == EndsAt(rest, [], 0, false)
    ensures BeyondAt(s, Full(k), 0, false) == BeyondAt(rest, [], 0, false)
    ensures Remaining(s, Full(k), 0, false) == Packet(Segments(Full(k), s) + Continued(rest))
    ensures Remaining(rest, [], 0, false) == Packet(Continued(rest))
  {
    hide ParsePage, Drop, Segments, Beyond, BeyondPage, Ends, Continued;
    DropNone(s);
    DropNone(rest);
    Boundary(rest);
  }

  lemma Boundary(s: seq<byte>)
    ensures Remaining(s, [], 0, false) == Packet(Continued(s))
  {
    hide ParsePage;
    DropNone(s);
    assert Segments([], s) + Continued(s) == Continued(s);
  }

  /** The first segment, cut off a body of which it is a part. */
  lemma FirstSegment(lacing: seq<byte>, body: seq<byte>, rest: seq<byte>, more: seq<seq<byte>>)
    requires lacing != [] && lacing[0] <= |body|
    ensures var n: nat := lacing[0];
      && Drop(body + rest, n) == body[n..] + rest
      && Packet(Segments(lacing, body + rest) + more)
         == body[..n] + if n < 255 then [] else Packet(Segments(lacing[1..], body[n..] + rest) + more)
  {
    hide Segments;
    var n: nat := lacing[0];
    assert Drop(body + rest, n) == body[n..] + rest;
    assert Take(body + rest, n) == body[..n];
    var segs := Segments(lacing[1..], body[n..] + rest);
    Cut(lacing, body + rest);
    assert ([body[..n]] + segs) + more == [body[..n]] + (segs + more);
  }

  lemma Cut(lacing: seq<byte>, body: seq<byte>)
    requires lacing != []
    ensures Segments(lacing, body) == [Take(body, lacing[0])] + Segments(lacing[1..], Drop(body, lacing[0]))
  {
  }

  lemma {:induction false} LastPage(packet: seq<byte>, later: seq<byte>, tail: seq<byte>, more: seq<seq<byte>>)
    ensures var lacing := Lacing(packet) + later;
      && !Open(lacing) && Packet(Segments(lacing, packet + tail) + more) == packet
      && Beyond(packet + tail, lacing) == (tail, later)
  {
    hide Packet, Segments, BeyondPage, Drop;
    var lacing := Lacing(packet) + later;
    FirstSegment(lacing, packet, tail, more);
    if |packet| >= 255 {
      assert lacing[1..] == Lacing(packet[255..]) + later;
      LastPage(packet[255..], later, tail, more);
      assert packet[..255] + packet[255..] == packet;
    } else {
      assert lacing[1..] == later;
      assert packet[|packet|..] + tail == tail;
    }
  }

  lemma {:induction false} FullPage(k: nat, body: seq<byte>, rest: seq<byte>, more: seq<seq<byte>>)
    requires |body| == 255 * k
    ensures Open(Full(k)) && Drop(body + rest, Sum(Full(k))) == rest
    ensures Beyond(body + rest, Full(k)) == Beyond(rest, [])
    ensures Packet(Segments(Full(k), body + rest) + more) == body + Packet(more)
  {
    hide Packet, Drop, BeyondPage;
    if k == 0 {
      assert Segments(Full(0), body + rest) + more == more;
      DropNone(rest);
      assert body + rest == rest;
    } else {
      hide Segments;
      FirstSegment(Full(k), body, rest, more);
      FullPage(k - 1, body[255..], rest, more);
      DropDrop(body + rest, 255, Sum(Full(k - 1)));
      assert body[..255] + body[255..] == body;
    }
  }
}
