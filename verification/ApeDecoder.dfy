/** Reading and seeking in a 16-bit Monkey's Audio file. */
module ApeDecoder {
  import opened Bits
  import opened Options
  import opened ApeWords
  import opened Integers
  import opened ApeFrame
  import D = ApeDemux
  import opened ApeFrameDecoder
  import opened ApeLossless
  import opened ApeBounds

  datatype Status = Ok | Eof | RecoverableError | FatalError

  const MAX_CONSECUTIVE_ERRORS: nat := 5

  /** An opened file: its bytes, its frame table, and its header fields. */
  datatype File = File(bytes: seq<byte>, frames: seq<D.Frame>, params: Params, blocksperframe: nat, finalframeblocks: nat)

  /** What opening lets through. */
  predicate Openable(f: File) {
    Supported(f.params) && |f.frames| > 0 && f.blocksperframe < TWO32 && f.finalframeblocks < TWO32
  }

  /** The sample buffers are sized for `blocksperframe`, but the last frame may be longer: no frame may
      be longer than its room. */
  predicate Playable(f: File) {
    Openable(f)
    && forall i :: 0 <= i < |f.frames| ==> FitsRoom(f.params.channels, f.blocksperframe, FrameBlocks(f, i))
  }

  function Total(f: File): nat
    requires Openable(f)
  {
    (|f.frames| - 1) * f.blocksperframe + f.finalframeblocks
  }

  function FrameBlocks(f: File, i: nat): (n: nat)
    requires Openable(f)
  {
    if i == |f.frames| - 1 then f.finalframeblocks else f.blocksperframe
  }

  /** `ape_demux_read_frame`: a frame too big for the buffer, or cut off by the end, is not read. */
  function FrameBytes(f: File, i: nat): (b: Option<seq<byte>>)
    requires i < |f.frames|
    ensures b.Some? ==> |b.value| <= Unsigned32(f.blocksperframe * 8 + 64)
  {
    var fr := f.frames[i];
    if fr.size > Unsigned32(f.blocksperframe * 8 + 64) || fr.pos + fr.size > |f.bytes| then None
    else Some(f.bytes[fr.pos..fr.pos + fr.size])
  }

  /** What the caller gets for a sample: one value for each channel, clipped to 16 bits. */
  function Pcm(channels: nat, s: (int, int)): (v: seq<int>) {
    if channels == 1 then [ClipInt16(s.0)] else [ClipInt16(s.0), ClipInt16(s.1)]
  }

  /** Of the 16-bit numbers, each value is the one nearest to the decoded sample. */
  lemma PcmNearest(channels: nat, s: (int, int), w: int)
    requires -TWO15 <= w < TWO15
    ensures var v := Pcm(channels, s);
      && |v| == (if channels == 1 then 1 else 2)
      && -TWO15 <= v[0] < TWO15 && Abs(v[0] - s.0) <= Abs(w - s.0)
      && (channels != 1 ==> -TWO15 <= v[1] < TWO15 && Abs(v[1] - s.1) <= Abs(w - s.1))
  {
  }

  function PcmAll(channels: nat, s: seq<(int, int)>): (v: seq<seq<int>>)
    ensures |v| == |s|
  {
    seq(|s|, i requires 0 <= i < |s| => Pcm(channels, s[i]))
  }

  /** The samples of frame `i`, decoded on its own; `None` if it fails. */
  function Decoded(f: File, i: nat): (s: Option<seq<(int, int)>>)
    requires Openable(f) && i < |f.frames|
    ensures s.Some? ==> |s.value| == FrameBlocks(f, i)
  {
    if FrameBytes(f, i).None? then None
    else DecodeFrame(f.params, FrameBytes(f, i).value, f.frames[i].skip, FrameBlocks(f, i))
  }

  /** What frame `i` leaves in the sample buffers if it fails: nothing, unless its bytes are there, are
      skipped by less than a word, and hold a header. */
  function LeftBy(f: File, i: nat): (l: Leftover)
    requires Openable(f) && i < |f.frames|
    ensures Fits(l, FrameBlocks(f, i))
    ensures l.Untouched? <==> FrameBytes(f, i).None? || !Begun(FrameBytes(f, i).value, f.frames[i].skip)
  {
    if FrameBytes(f, i).None? then Untouched
    else Left(f.params, FrameBytes(f, i).value, f.frames[i].skip, FrameBlocks(f, i))
  }

  predicate Good(f: File, i: nat)
    requires Openable(f) && i < |f.frames|
  {
    Decoded(f, i).Some?
  }

  function FramePcm(f: File, i: nat): (v: seq<seq<int>>)
    requires Openable(f) && i < |f.frames| && Good(f, i)
    ensures |v| == FrameBlocks(f, i)
  {
    PcmAll(f.params.channels, Decoded(f, i).value)
  }

  /** The output of frame `j` and those after it, up to the first that fails. */
  function Ahead(f: File, j: nat): (v: seq<seq<int>>)
    requires Openable(f) && j <= |f.frames|
    decreases |f.frames| - j
  {
    if j == |f.frames| || !Good(f, j) then [] else FramePcm(f, j) + Ahead(f, j + 1)
  }

  /** The first frame from `j` on that fails, or the number of frames. */
  function Stop(f: File, j: nat): (k: nat)
    requires Openable(f) && j <= |f.frames|
    ensures j <= k <= |f.frames| && (k < |f.frames| ==> !Good(f, k))
    decreases |f.frames| - j
  {
    if j == |f.frames| || !Good(f, j) then j else Stop(f, j + 1)
  }

  predicate AllGood(f: File)
    requires Openable(f)
  {
    forall i :: 0 <= i < |f.frames| ==> Good(f, i)
  }

  class ApeDecoder {
    const file: File
    const frame: FrameDecoder
    var current: nat
    var consecutiveErrors: nat
    var carryFrames: nat
    var carryReadPos: nat

    ghost predicate Valid()
      reads this, frame.Repr()
    {
      && Playable(file) && frame.Valid() && frame.params == file.params && this !in frame.Repr()
      && frame.decoded0.Length == Room(file.params.channels, file.blocksperframe)
      && frame.swapbuf.Length == Unsigned32(file.blocksperframe * 8 + 64)
      && current < |file.frames|
      && carryReadPos <= carryFrames <= frame.decoded0.Length
    }

    /** What is left in the sample buffers. */
    ghost function Carry(): (v: seq<seq<int>>)
      requires Valid()
      reads this, frame.Repr()
    {
      PcmAll(file.params.channels,
        Zip(frame.decoded0[carryReadPos..carryFrames], frame.decoded1[carryReadPos..carryFrames]))
    }

    /** What reading can still give before a frame fails. */
    ghost function Available(): (v: seq<seq<int>>)
      requires Valid()
      reads this, frame.Repr()
    {
      Carry() + Ahead(file, current + 1)
    }

    constructor (file: File)
      requires Playable(file)
      ensures Valid() && this.file == file && current == 0 && consecutiveErrors == 0 && fresh(frame.Repr())
      ensures carryFrames == 0 && Carry() == []
    {
      this.file := file;
      frame := new FrameDecoder(file.params, file.blocksperframe);
      current, consecutiveErrors, carryFrames, carryReadPos := 0, 0, 0, 0;
    }

    /** `decode_physical_frame` */
    method DecodePhysicalFrame(i: nat) returns (ok: bool)
      requires Valid() && i < |file.frames|
      modifies this, frame.Repr()
      ensures Valid() && consecutiveErrors == old(consecutiveErrors)
      ensures ok == Good(file, i)
      ensures ok ==> current == i && carryReadPos == 0 && Carry() == FramePcm(file, i)
      ensures !ok ==> current == old(current) && carryFrames == old(carryFrames) && carryReadPos == old(carryReadPos)
      ensures !ok ==> frame.Buffers() == Spoiled(LeftBy(file, i), old(frame.Buffers()))
      ensures !ok && LeftBy(file, i).Untouched? ==> frame.Buffers() == old(frame.Buffers())
    {
      hide DecodeFrame, Pcm, Left;
      var raw := FrameBytes(file, i);
      if raw.None? {
        return false;
      }
      var nblocks := FrameBlocks(file, i);
      ok := frame.Decode(raw.value, file.frames[i].skip, nblocks);
      if ok {
        carryFrames, carryReadPos, current := nblocks, 0, i;
        CarryIs(Decoded(file, i).value);
      }
    }

    lemma CarryIs(s: seq<(int, int)>)
      requires Valid() && carryReadPos == 0 && carryFrames == |s| && frame.Holds(s)
      ensures Carry() == PcmAll(file.params.channels, s)
    {
      hide ClipInt16;
      forall i | 0 <= i < |s|
        ensures Carry()[i] == Pcm(file.params.channels, s[i])
      {
        assert frame.decoded0[..|s|][i] == Firsts(s)[i];
        if file.params.channels == 2 {
          assert frame.decoded1[..|s|][i] == Seconds(s)[i];
        }
      }
    }

    /** Up to `n` samples out of the buffers. */
    method TakeCarry(n: nat) returns (out: seq<seq<int>>)
      requires Valid()
      modifies this`carryReadPos
      ensures Valid() && out == old(Carry())[..if n <= |old(Carry())| then n else |old(Carry())|]
      ensures Carry() == old(Carry())[|out|..]
    {
      hide Pcm;
      var toCopy := if n <= carryFrames - carryReadPos then n else carryFrames - carryReadPos;
      out := [];
      for i := 0 to toCopy
        invariant out == Carry()[..i]
      {
        out := out + [Pcm(file.params.channels, (frame.decoded0[carryReadPos + i], frame.decoded1[carryReadPos + i]))];
      }
      carryReadPos := carryReadPos + toCopy;
    }

    method TakeAvailable(n: nat) returns (out: seq<seq<int>>)
      requires Valid()
      modifies this`carryReadPos
      ensures Valid() && out + Available() == old(Available()) && |out| <= n
      ensures n > 0 && old(carryReadPos < carryFrames) ==> out != []
    {
      hide Ahead, PcmAll, Zip;
      out := TakeCarry(n);
      assert out + Carry() == old(Carry());
      assert out + Available() == old(Available());
    }

    lemma NothingCarried()
      requires Valid() && carryReadPos >= carryFrames
      ensures Carry() == []
    {
    }

    /** The next frame is decoded when the buffers are used up. */
    method Refill() returns (r: Refilled)
      requires Valid() && carryReadPos >= carryFrames
      modifies this, frame.Repr()
      ensures Valid()
      ensures match r
        case AtEnd =>
          && old(current) + 1 == |file.frames| == Stop(file, old(current) + 1)
          && current == old(current) && consecutiveErrors == old(consecutiveErrors)
          && old(Available()) == [] && Carry() == []
        case Failed =>
          && Stop(file, old(current) + 1) == old(current) + 1 == current
          && consecutiveErrors == old(consecutiveErrors) + 1
          && old(Available()) == [] && Carry() == []
        case Ready =>
          && Stop(file, old(current) + 1) == Stop(file, current + 1)
          && current == old(current) + 1 && consecutiveErrors == 0
          && Available() == old(Available())
    {
      hide Good, FramePcm, PcmAll, Zip, FrameBlocks, Total, Supported, FrameDecoder.Valid, FrameDecoder.Repr, LeftBy,
        Spoiled;
      NothingCarried();
      var next := current + 1;
      if next >= |file.frames| {
        return AtEnd;
      }
      var ok := DecodePhysicalFrame(next);
      if !ok {
        consecutiveErrors := consecutiveErrors + 1;
        current := next;
        carryFrames := 0;
        carryReadPos := 0;
        NothingCarried();
        return Failed;
      }
      consecutiveErrors := 0;
      return Ready;
    }

    /** `ape_read_pcm_frames_s16`: reading never skips or repeats a sample.  It gives what was asked
        for, or all there is before the next failing frame or the end of the file; a failing frame
        is passed over once it has been met. */
    method Read(n: nat) returns (out: seq<seq<int>>, status: Status)
      requires Valid()
      modifies this, frame.Repr()
      ensures Valid()
      ensures var avail, stop := old(Available()), Stop(file, old(current) + 1);
        if n <= |avail| then
          && out == avail[..n] && status == Ok && Available() == avail[n..] && Stop(file, current + 1) == stop
        else
          && out == avail && Carry() == []
          && current == (if stop < |file.frames| then stop else |file.frames| - 1)
          && (stop < |file.frames| ==>
            consecutiveErrors == 1 + if stop == old(current) + 1 then old(consecutiveErrors) else 0)
          && status ==
            if avail != [] then Ok
            else if stop == |file.frames| then Eof
            else if consecutiveErrors >= MAX_CONSECUTIVE_ERRORS then FatalError else RecoverableError
    {
      hide Ahead, Stop, PcmAll, Zip, Supported, FrameDecoder.Valid, FrameDecoder.Repr;
      out, status := [], Ok;
      ghost var avail, stop := Available(), Stop(file, current + 1);
      while |out| < n
        invariant Valid() && |out| <= n && status == Ok
        invariant out + Available() == avail && Stop(file, current + 1) == stop && old(current) <= current
        invariant consecutiveErrors == if current == old(current) then old(consecutiveErrors) else 0
        decreases |file.frames| - current, n - |out|
      {
        if carryReadPos >= carryFrames {
          var r := Refill();
          if r.AtEnd? {
            if |out| == 0 {
              status := Eof;
            }
            return;
          }
          if r.Failed? {
            if |out| == 0 {
              status := if consecutiveErrors >= MAX_CONSECUTIVE_ERRORS then FatalError else RecoverableError;
            }
            return;
          }
        }
        ghost var sofar, left := out, Available();
        var more := TakeAvailable(n - |out|);
        out := out + more;
        assert out + Available() == sofar + left;
      }
    }

    /** `ape_open_file`, once the header is read: the first frame must decode. */
    static method Open(file: File) returns (ok: bool, d: ApeDecoder)
      requires Playable(file)
      ensures fresh(d) && fresh(d.frame.Repr()) && d.file == file && d.Valid()
      ensures ok == Good(file, 0)
      ensures d.current == 0 && d.consecutiveErrors == 0 && d.carryReadPos == 0
      ensures ok ==> d.Available() == Ahead(file, 0) && d.Carry() == FramePcm(file, 0)
    {
      hide Good, FramePcm;
      d := new ApeDecoder(file);
      ok := d.DecodePhysicalFrame(0);
    }

    /** `ape_seek_to_pcm_frame`.  After a failure the position is where it was, but what is left in the
        buffers is what the failing frame has not written over: all of it, if the frame's bytes or
        its header are missing. */
    method Seek(position: nat) returns (ok: bool)
      requires Valid()
      modifies this, frame.Repr()
      ensures Valid()
      ensures var p, t := Clamped(file, position), Target(file, position);
        && ok == Good(file, t)
        && (ok ==> current == t && consecutiveErrors == 0)
        && (ok ==> 0 <= p - Start(file, t) <= FrameBlocks(file, t))
        && (ok ==> Available() == FramePcm(file, t)[p - Start(file, t)..] + Ahead(file, t + 1))
        && (!ok ==> frame.Buffers() == Spoiled(LeftBy(file, t), old(frame.Buffers())))
        && (!ok && LeftBy(file, t).Untouched? ==> Carry() == old(Carry()))
      ensures ok && AllGood(file) ==>
        Clamped(file, position) <= |Full(file)| && Available() == Full(file)[Clamped(file, position)..]
      ensures !ok ==> current == old(current) && consecutiveErrors == old(consecutiveErrors)
      ensures !ok ==> carryFrames == old(carryFrames) && carryReadPos == old(carryReadPos)
    {
      hide Good, FramePcm, PcmAll, Zip, Ahead, FrameDecoder.Valid, FrameDecoder.Repr, FrameDecoder.Buffers, Supported,
        Start, Total, FrameAt, FrameBlocks, LeftBy, Spoiled, Carry, AllGood, Full, Valid, Available;
      ValidPlayable();
      var frameIndex := if position > Total(file) then Total(file) else position;
      var target := FrameAt(frameIndex, file.blocksperframe);
      if target >= |file.frames| {
        target := |file.frames| - 1;
      }
      SeekTarget(file, position, frameIndex, target);
      ok := SeekInto(frameIndex, target);
      if ok && AllGood(file) {
        SeekPosition(file, position);
      }
    }

    lemma ValidPlayable()
      requires Valid()
      ensures Playable(file)
    {
    }

    /** The target frame is decoded, and left at the wanted place. */
    method SeekInto(frameIndex: nat, target: nat) returns (ok: bool)
      requires Valid() && target < |file.frames|
      requires Start(file, target) <= frameIndex <= Start(file, target) + FrameBlocks(file, target)
      modifies this, frame.Repr()
      ensures Valid() && ok == Good(file, target)
      ensures ok ==> current == target && consecutiveErrors == 0
      ensures ok ==> Available() == FramePcm(file, target)[frameIndex - Start(file, target)..] + Ahead(file, target + 1)
      ensures !ok ==> frame.Buffers() == Spoiled(LeftBy(file, target), old(frame.Buffers()))
      ensures !ok && LeftBy(file, target).Untouched? ==> Carry() == old(Carry())
      ensures !ok ==> current == old(current) && consecutiveErrors == old(consecutiveErrors)
      ensures !ok ==> carryFrames == old(carryFrames) && carryReadPos == old(carryReadPos)
    {
      hide Good, FramePcm, PcmAll, Zip, Ahead, FrameDecoder.Valid, FrameDecoder.Repr, FrameDecoder.Buffers, Supported,
        Start, Total, FrameBlocks, LeftBy, Spoiled, Carry;
      ok := DecodePhysicalFrame(target);
      if ok {
        StartWithin(frameIndex, target);
      } else {
        SameCarry();
      }
    }

    /** The rest of the frame just decoded, from the wanted position on. */
    method StartWithin(frameIndex: nat, target: nat)
      requires Valid() && target < |file.frames| && carryReadPos == 0 && |Carry()| == FrameBlocks(file, target)
      requires Start(file, target) <= frameIndex <= Start(file, target) + FrameBlocks(file, target)
      modifies this`carryReadPos, this`consecutiveErrors
      ensures Valid() && consecutiveErrors == 0 && Carry() == old(Carry())[frameIndex - Start(file, target)..]
    {
      hide Total, FrameBlocks, Supported, FrameDecoder.Repr, Pcm;
      consecutiveErrors := 0;
      var start := target * file.blocksperframe;
      var within := if frameIndex > start then frameIndex - start else 0;
      if within > carryFrames {
        within := carryFrames;
      }
      carryReadPos := within;
    }

    /** The same buffers and the same positions hold the same carry. */
    twostate lemma SameCarry()
      requires old(Valid()) && Valid()
      requires carryFrames == old(carryFrames) && carryReadPos == old(carryReadPos)
      ensures frame.Buffers() == old(frame.Buffers()) ==> Carry() == old(Carry())
    {
      hide PcmAll, Zip, FrameDecoder.Repr, Supported;
      if frame.Buffers() == old(frame.Buffers()) {
        var a, b := frame.decoded0[..], frame.decoded1[..];
        assert frame.decoded0[carryReadPos..carryFrames] == a[carryReadPos..carryFrames];
        assert frame.decoded1[carryReadPos..carryFrames] == b[carryReadPos..carryFrames];
      }
    }
  }

  datatype Refilled = Ready | AtEnd | Failed

  /** Where nothing is left in the buffers and the next five frames fail, four reads can be recovered
      from and the fifth can not. */
  method FiveFailures(d: ApeDecoder, n: nat) returns (s: seq<Status>)
    requires d.Valid() && n > 0 && d.Carry() == [] && d.consecutiveErrors == 0
    requires d.current + 5 < |d.file.frames| && forall i :: d.current < i <= d.current + 5 ==> !Good(d.file, i)
    modifies d, d.frame.Repr()
    ensures s == [RecoverableError, RecoverableError, RecoverableError, RecoverableError, FatalError]
  {
    hide Good, ApeDecoder.Valid, ApeDecoder.Carry, Ahead, Stop, FrameDecoder.Repr;
    s := [];
    for i := 0 to 5
      invariant d.Valid() && d.Carry() == [] && d.consecutiveErrors == i && d.current == old(d.current) + i
      invariant |s| == i && forall k :: 0 <= k < i ==> s[k] == if k < 4 then RecoverableError else FatalError
    {
      d.ValidPlayable();
      assert !Good(d.file, d.current + 1);
      StopsHere(d.file, d.current + 1);
      assert d.Available() == [];
      var out, status := d.Read(n);
      s := s + [status];
    }
  }

  lemma StopsHere(f: File, j: nat)
    requires Openable(f) && j < |f.frames| && !Good(f, j)
    ensures Stop(f, j) == j && Ahead(f, j) == []
  {
  }

  // ----- seeking -----

  /** Positions beyond the end count as the end. */
  function Clamped(f: File, position: nat): (p: nat)
    requires Openable(f)
  {
    if position > Total(f) then Total(f) else position
  }

  function FrameAt(position: nat, blocksperframe: nat): nat {
    if blocksperframe > 0 then position / blocksperframe else 0
  }

  /** The frame that `ape_seek_to_pcm_frame` decodes. */
  function Target(f: File, position: nat): (t: nat)
    requires Openable(f)
    ensures t < |f.frames|
  {
    var t := FrameAt(Clamped(f, position), f.blocksperframe);
    if t >= |f.frames| then |f.frames| - 1 else t
  }

  /** The target holds the position; only the last frame may end exactly there. */
  lemma TargetHolds(f: File, position: nat)
    requires Playable(f)
    ensures var p, t := Clamped(f, position), Target(f, position);
      && Start(f, t) <= p <= Start(f, t) + FrameBlocks(f, t)
      && (f.blocksperframe > 0 && t + 1 < |f.frames| ==> p < Start(f, t + 1))
  {
    hide FitsRoom, Supported;
    var b, last := f.blocksperframe, |f.frames| - 1;
    if b == 0 {
      NoRoom(f.params.channels, FrameBlocks(f, last));
      assert FitsRoom(f.params.channels, 0, FrameBlocks(f, last));
    } else {
      QuotientHolds(Clamped(f, position), b, last, f.finalframeblocks);
    }
  }

  lemma NoRoom(channels: nat, n: nat)
    ensures FitsRoom(channels, 0, n) ==> n == 0
  {
  }

  lemma QuotientHolds(p: nat, b: nat, last: nat, final: nat)
    requires b > 0 && p <= last * b + final
    ensures var t := if p / b > last then last else p / b;
      t * b <= p <= (t * b + if t == last then final else b) && (t < last ==> p < (t + 1) * b)
  {
    DivMod(p, b);
    var q := p / b;
    assert b * q == q * b && (q + 1) * b == q * b + b;
    if q > last {
      TimesMono(b, last + 1, q);
      assert b * (last + 1) == last * b + b;
    }
  }

  /** The arithmetic of a seek: no sample of the target frame is clamped away. */
  lemma SeekTarget(f: File, position: nat, frameIndex: nat, target: nat)
    requires Playable(f) && frameIndex == if position > Total(f) then Total(f) else position
    requires var t := FrameAt(frameIndex, f.blocksperframe);
      target == if t >= |f.frames| then |f.frames| - 1 else t
    ensures frameIndex == Clamped(f, position) && target == Target(f, position)
    ensures Start(f, target) <= frameIndex <= Start(f, target) + FrameBlocks(f, target)
  {
    hide Total, FrameBlocks;
    TargetHolds(f, position);
  }

  /** The whole file's output, when every frame decodes. */
  function Full(f: File): (v: seq<seq<int>>)
    requires Openable(f)
  {
    Ahead(f, 0)
  }

  /** Where frame `i` begins. */
  function Start(f: File, i: nat): (s: nat)
    requires Openable(f) && i < |f.frames|
    ensures s + FrameBlocks(f, i) <= Total(f)
    ensures i + 1 < |f.frames| ==> (i + 1) * f.blocksperframe == s + FrameBlocks(f, i)
  {
    TimesMono(f.blocksperframe, i, |f.frames| - 1);
    NextMultiple(i, f.blocksperframe);
    if i + 1 < |f.frames| then
      TimesMono(f.blocksperframe, i + 1, |f.frames| - 1);
      i * f.blocksperframe
    else i * f.blocksperframe
  }

  lemma NextMultiple(i: nat, b: nat)
    ensures (i + 1) * b == i * b + b
  {
  }

  lemma StartNext(f: File, i: nat)
    requires Openable(f) && i + 1 < |f.frames|
    ensures Start(f, i + 1) == Start(f, i) + f.blocksperframe && FrameBlocks(f, i) == f.blocksperframe
  {
    NextMultiple(i, f.blocksperframe);
  }

  lemma {:induction false} AheadIsSuffix(f: File, j: nat)
    requires Openable(f) && AllGood(f) && j < |f.frames|
    ensures |Full(f)| == Total(f) && Ahead(f, j) == Full(f)[Start(f, j)..]
  {
    hide Good, FramePcm, Start, Total;
    AheadLength(f, 0);
    assert Start(f, 0) == 0 by {
      StartZero(f);
    }
    if j > 0 {
      AheadIsSuffix(f, j - 1);
      StartNext(f, j - 1);
      assert Good(f, j - 1);
      assert Ahead(f, j - 1) == FramePcm(f, j - 1) + Ahead(f, j);
      assert Full(f)[Start(f, j)..] == Full(f)[Start(f, j - 1)..][f.blocksperframe..];
    }
  }

  lemma StartZero(f: File)
    requires Openable(f)
    ensures Start(f, 0) == 0
  {
  }

  lemma {:induction false} AheadLength(f: File, j: nat)
    requires Openable(f) && AllGood(f) && j < |f.frames|
    ensures |Ahead(f, j)| == Total(f) - Start(f, j)
    decreases |f.frames| - j
  {
    hide Good, FramePcm, Start, Total;
    assert Good(f, j);
    if j + 1 < |f.frames| {
      AheadLength(f, j + 1);
      StartNext(f, j);
    } else {
      StartLast(f);
    }
  }

  lemma StartLast(f: File)
    requires Openable(f)
    ensures Total(f) == Start(f, |f.frames| - 1) + f.finalframeblocks
  {
  }

  /** After a successful seek, what can be read is exactly the full output from that position on. */
  lemma SeekPosition(f: File, position: nat)
    requires Playable(f) && AllGood(f)
    ensures Target(f, position) < |f.frames| && |Full(f)| == Total(f)
    ensures var p, t := Clamped(f, position), Target(f, position);
      && 0 <= p - Start(f, t) <= |FramePcm(f, t)|
      && FramePcm(f, t)[p - Start(f, t)..] + Ahead(f, t + 1) == Full(f)[p..]
  {
    hide Good, FramePcm, Target, Clamped;
    var p, t := Clamped(f, position), Target(f, position);
    TargetHolds(f, position);
    AheadIsSuffix(f, t);
    assert Good(f, t);
    assert Full(f)[p..] == Full(f)[Start(f, t)..][p - Start(f, t)..];
    assert Clamped(f, position) <= Total(f) by {
      ClampedInFile(f, position);
    }
  }

  lemma ClampedInFile(f: File, position: nat)
    requires Openable(f)
    ensures Clamped(f, position) <= Total(f)
  {
  }

  // ----- losslessness of a whole file -----

  /** Frame `i` of `f` is an encoding of the 16-bit samples `chunk`. */
  ghost predicate Encodes(f: File, i: nat, chunk: seq<(int, int)>)
    requires Openable(f) && i < |f.frames|
  {
    Sixteen(chunk) && (
      SixteenCodable(f.params, chunk);
      exists skipped, crc, tail ::
        Head(skipped, crc) && |skipped| == f.frames[i].skip
        && FrameBytes(f, i) == Some(EncodeStereo(f.params, chunk, skipped, crc, tail)))
  }

  /** If every frame encodes its share of a 16-bit recording, playing the file gives the recording. */
  lemma {:induction false} LosslessFile(f: File, pcm: seq<(int, int)>, j: nat)
    requires Openable(f) && f.params.channels == 2 && |pcm| == Total(f) && j < |f.frames|
    requires forall i :: 0 <= i < |f.frames| ==> Encodes(f, i, Share(f, pcm, i))
    ensures Ahead(f, j) == Plain(pcm[Start(f, j)..])
    decreases |f.frames| - j
  {
    hide Encodes, FramePcm, Good, ClipInt16, Start, Total;
    FrameDecodes(f, j, Share(f, pcm, j));
    if j + 1 < |f.frames| {
      LosslessFile(f, pcm, j + 1);
      StartNext(f, j);
    } else {
      StartLast(f);
    }
  }

  /** The recording as the caller sees it: left and right, unchanged. */
  function Plain(s: seq<(int, int)>): (v: seq<seq<int>>)
    ensures |v| == |s|
  {
    seq(|s|, i requires 0 <= i < |s| => [s[i].0, s[i].1])
  }

  function Share<T>(f: File, pcm: seq<T>, i: nat): (s: seq<T>)
    requires Openable(f) && |pcm| == Total(f) && i < |f.frames|
    ensures |s| == FrameBlocks(f, i)
  {
    pcm[Start(f, i)..Start(f, i) + FrameBlocks(f, i)]
  }

  lemma FrameDecodes(f: File, i: nat, chunk: seq<(int, int)>)
    requires Openable(f) && f.params.channels == 2 && i < |f.frames|
    requires |chunk| == FrameBlocks(f, i) && Encodes(f, i, chunk)
    ensures Good(f, i)
    ensures FramePcm(f, i) == Plain(chunk)
  {
    hide ClipInt16, DecodeFrame, EncodeStereo, StereoCodable, FrameBytes;
    SixteenCodable(f.params, chunk);
    var skipped, crc, tail :|
      Head(skipped, crc) && |skipped| == f.frames[i].skip
      && FrameBytes(f, i) == Some(EncodeStereo(f.params, chunk, skipped, crc, tail));
    StereoFrameRoundTrip(f.params, chunk, skipped, crc, tail);
  }

  // ----- the same for mono -----

  /** Frames of the older format are taken to be no longer than 2^21 samples. */
  predicate MonoPlayable(f: File) {
    Openable(f) && f.params.channels == 1 && (f.params.format.From3990? || (f.blocksperframe <= LONGEST && f.finalframeblocks <= LONGEST))
  }

  ghost predicate EncodesMono(f: File, i: nat, chunk: seq<int>)
    requires MonoPlayable(f) && i < |f.frames| && |chunk| == FrameBlocks(f, i)
  {
    MonoSixteen(chunk) && (
      MonoSixteenCodable(f.params, chunk);
      exists skipped, crc, tail ::
        Head(skipped, crc) && |skipped| == f.frames[i].skip
        && FrameBytes(f, i) == Some(EncodeMono(f.params, chunk, skipped, crc, tail)))
  }

  function PlainMono(s: seq<int>): (v: seq<seq<int>>)
    ensures |v| == |s|
  {
    seq(|s|, i requires 0 <= i < |s| => [s[i]])
  }

  lemma {:induction false} LosslessMonoFile(f: File, pcm: seq<int>, j: nat)
    requires MonoPlayable(f) && |pcm| == Total(f) && j < |f.frames|
    requires forall i :: 0 <= i < |f.frames| ==> EncodesMono(f, i, Share(f, pcm, i))
    ensures Ahead(f, j) == PlainMono(pcm[Start(f, j)..])
    decreases |f.frames| - j
  {
    hide EncodesMono, FramePcm, Good, ClipInt16, Start, Total;
    MonoFrameDecodes(f, j, Share(f, pcm, j));
    if j + 1 < |f.frames| {
      LosslessMonoFile(f, pcm, j + 1);
      StartNext(f, j);
    } else {
      StartLast(f);
    }
  }

  lemma MonoFrameDecodes(f: File, i: nat, chunk: seq<int>)
    requires MonoPlayable(f) && i < |f.frames| && |chunk| == FrameBlocks(f, i) && EncodesMono(f, i, chunk)
    ensures Good(f, i)
    ensures FramePcm(f, i) == PlainMono(chunk)
  {
    hide ClipInt16, DecodeFrame, EncodeMono, MonoCodable, FrameBytes, Zip;
    MonoSixteenCodable(f.params, chunk);
    var skipped, crc, tail :|
      Head(skipped, crc) && |skipped| == f.frames[i].skip
      && FrameBytes(f, i) == Some(EncodeMono(f.params, chunk, skipped, crc, tail));
    MonoFrameRoundTrip(f.params, chunk, skipped, crc, tail);
    var z := Zip(chunk, chunk);
    assert forall k :: 0 <= k < |z| ==> z[k].0 == Firsts(z)[k];
  }
}
