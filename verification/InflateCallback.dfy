/** `tinfl_decompress_mem_to_callback`: inflating through a 32 KiB window that is handed over piece
    by piece. */
module InflateCallback {
  import opened Bits
  import A = Adler
  import opened InflateCode
  import opened InflateStream
  import opened InflateLogic
  import opened InflateWindow
  import opened InflateEngine
  import opened InflateDecompress

  const DICT_SIZE: nat := 32768

  /** The window begins with zeros, as if that many zeros had come before the output. */
  function Before(): (z: seq<byte>)
    ensures |z| == DICT_SIZE && forall i :: 0 <= i < |z| ==> z[i] == 0
  {
    seq(DICT_SIZE, _ => 0)
  }

  function Mode(zlib: bool): Config {
    Config(zlib, true, DICT_SIZE)
  }

  function First(zlib: bool): (m: Machine)
    ensures Sound(Mode(zlib), m)
  {
    Machine(if zlib then ZlibHeader([]) else BlockHeader, 0, Before(), false)
  }

  lemma ZeroWindow(buf: array<byte>, zlib: bool)
    requires buf.Length == DICT_SIZE && forall i :: 0 <= i < DICT_SIZE ==> buf[i] == 0
    ensures Output.Holds(Mode(zlib), buf, 0, DICT_SIZE, Before())
  {
  }

  /** At the end of the window, writing goes on at its beginning. */
  lemma WindowAgain(buf: array<byte>, zlib: bool, at: nat, hist: seq<byte>)
    requires buf.Length == DICT_SIZE && Output.Holds(Mode(zlib), buf, at, DICT_SIZE, hist)
    ensures Output.Holds(Mode(zlib), buf, at % DICT_SIZE, DICT_SIZE, hist)
  {
  }

  lemma DictSize()
    ensures PowerOfTwo(DICT_SIZE)
  {
    assert PowerOfTwo(1) && PowerOfTwo(2) && PowerOfTwo(4) && PowerOfTwo(8) && PowerOfTwo(16) && PowerOfTwo(32);
    assert PowerOfTwo(64) && PowerOfTwo(128) && PowerOfTwo(256) && PowerOfTwo(512) && PowerOfTwo(1024);
    assert PowerOfTwo(2048) && PowerOfTwo(4096) && PowerOfTwo(8192) && PowerOfTwo(16384);
  }

  // ----- what the caller sees -----

  function Joined(pieces: seq<seq<byte>>): seq<byte> {
    if pieces == [] then [] else Joined(pieces[..|pieces| - 1]) + pieces[|pieces| - 1]
  }

  /** Whole windows, and at the end what is left. */
  predicate Windows(pieces: seq<seq<byte>>) {
    forall i :: 0 <= i < |pieces| ==> 0 < |pieces[i]| <= DICT_SIZE && (i + 1 < |pieces| ==> |pieces[i]| == DICT_SIZE)
  }

  /** The checksum that was read is that of the output. */
  predicate Matches(zlib: bool, checksum: seq<nat>, out: seq<byte>) {
    zlib ==> BigEndian(checksum) == A.Value(A.Sum(A.START, out))
  }

  /** The machine is at `m`, with `out` put out, and can go no further, whatever is called. */
  ghost predicate AtEnd(stream: seq<byte>, zlib: bool, m: Machine, out: seq<byte>)
    requires Sound(Mode(zlib), m)
  {
    m.out == Before() + out && Step(Mode(zlib), BytesToBits(stream), m) == m
  }

  /** The account of a call: it hands the output over in windows, until the callback refuses one or
      nothing more can come.  The callback takes `accepts` pieces and refuses the next.  If it does not
      come to that, the pieces are all of the machine's output, unless bits were met that no code
      begins; and the call succeeds if and only if the machine is done and the checksum matches. */
  ghost predicate Reports(stream: seq<byte>, zlib: bool, accepts: nat, result: bool, pieces: seq<seq<byte>>,
                          used: nat, steps: nat, lost: bool) {
    var m := Run(Mode(zlib), BytesToBits(stream), First(zlib), steps);
    var refused := |pieces| > accepts;
    && Windows(pieces) && |pieces| <= accepts + 1 && used <= |stream|
    && (lost ==> m.ctl.Hole? && !result)
    && (refused ==> !result && (!lost ==> m.out == Before() + Joined(pieces)))
    && (!refused && !lost ==> AtEnd(stream, zlib, m, Joined(pieces)))
    && (!refused && !lost ==> (result <==> m.ctl.Done? && Matches(zlib, m.ctl.checksum, Joined(pieces))))
    && (!refused && !lost && m.ctl.Done? && !m.holed ==> m.pos <= 8 * used < m.pos + 8)
  }

  /** What the machine has put out after `n` steps. */
  ghost function Content(stream: seq<byte>, zlib: bool, n: nat): (c: seq<byte>)
    ensures Run(Mode(zlib), BytesToBits(stream), First(zlib), n).out == Before() + c
  {
    hide Step, BytesToBits, Run;
    OutputGrows(Mode(zlib), BytesToBits(stream), First(zlib), 0, n);
    NoSteps(Mode(zlib), BytesToBits(stream), First(zlib));
    Run(Mode(zlib), BytesToBits(stream), First(zlib), n).out[DICT_SIZE..]
  }

  lemma {:induction false} JoinedLength(pieces: seq<seq<byte>>)
    requires Windows(pieces)
    ensures |Joined(pieces)| <= |pieces| * DICT_SIZE
    ensures pieces != [] ==> |Joined(pieces)| > (|pieces| - 1) * DICT_SIZE
    ensures (forall i :: 0 <= i < |pieces| ==> |pieces[i]| == DICT_SIZE) ==> |Joined(pieces)| == |pieces| * DICT_SIZE
  {
    if pieces != [] {
      var before := pieces[..|pieces| - 1];
      assert forall i :: 0 <= i < |before| ==> |pieces[i]| == DICT_SIZE;
      JoinedLength(before);
    }
  }

  /** On a stream that the machine decompresses: what is handed over is a part of its output, and all
      of it if and only if the callback takes as many pieces as it needs; then the call succeeds if and
      only if the checksum matches, and it has used the stream up to the byte where it ends. */
  lemma Delivered(stream: seq<byte>, zlib: bool, accepts: nat, result: bool, pieces: seq<seq<byte>>, used: nat,
                  steps: nat, lost: bool, n: nat)
    requires Reports(stream, zlib, accepts, result, pieces, used, steps, lost)
    requires Run(Mode(zlib), BytesToBits(stream), First(zlib), n).ctl.Done?
    ensures var t, c := Run(Mode(zlib), BytesToBits(stream), First(zlib), n), Content(stream, zlib, n);
      && !lost && Joined(pieces) <= c
      && (|pieces| <= accepts <==> |c| <= accepts * DICT_SIZE)
      && (|pieces| <= accepts ==> Joined(pieces) == c && (result <==> Matches(zlib, t.ctl.checksum, c)))
      && (|pieces| <= accepts && !t.holed ==> t.pos <= 8 * used < t.pos + 8)
  {
    hide Step, BytesToBits, Run, Sound, Matches, Joined, Content;
    var cfg, bits, m := Mode(zlib), BytesToBits(stream), First(zlib);
    var t := Run(cfg, bits, m, n);
    StoppedStuck(cfg, bits, t);
    if lost {
      HoleEnds(cfg, bits, m, n, steps);
    }
    SameResult(cfg, bits, m, n, steps);
    JoinedLength(pieces);
    AfterFront(Before(), Joined(pieces), Content(stream, zlib, n));
    if |pieces| <= accepts {
      Multiples(|pieces|, accepts);
    }
  }

  lemma AfterFront(z: seq<byte>, a: seq<byte>, b: seq<byte>)
    ensures z + a <= z + b ==> a <= b
    ensures z + a == z + b ==> a == b
  {
    if z + a <= z + b {
      assert (z + b)[..|z + a|] == z + a;
      assert b[..|a|] == (z + b)[|z|..|z + a|] == (z + a)[|z|..] == a;
    }
  }

  lemma Multiples(a: nat, b: nat)
    requires a <= b
    ensures a * DICT_SIZE <= b * DICT_SIZE
  {
  }

  /** The stream is decompressed after `n` steps, with a checksum that matches, and the callback takes
      all of the output. */
  ghost predicate Inflates(stream: seq<byte>, zlib: bool, accepts: nat, n: nat) {
    var t := Run(Mode(zlib), BytesToBits(stream), First(zlib), n);
    && t.ctl.Done? && Matches(zlib, t.ctl.checksum, Content(stream, zlib, n))
    && |Content(stream, zlib, n)| <= accepts * DICT_SIZE
  }

  /** Success means exactly that. */
  lemma SucceedsIff(stream: seq<byte>, zlib: bool, accepts: nat, result: bool, pieces: seq<seq<byte>>, used: nat,
                    steps: nat, lost: bool)
    requires Reports(stream, zlib, accepts, result, pieces, used, steps, lost)
    ensures result <==> exists n: nat :: Inflates(stream, zlib, accepts, n)
    ensures forall n: nat :: Inflates(stream, zlib, accepts, n) ==> Joined(pieces) == Content(stream, zlib, n)
  {
    hide Step, BytesToBits, Run, Sound, Matches, Joined, Content;
    if result {
      Delivered(stream, zlib, accepts, result, pieces, used, steps, lost, steps);
      assert Inflates(stream, zlib, accepts, steps);
    }
    forall n: nat | Inflates(stream, zlib, accepts, n)
      ensures result && Joined(pieces) == Content(stream, zlib, n)
    {
      Delivered(stream, zlib, accepts, result, pieces, used, steps, lost, n);
    }
  }

  lemma Refused(stream: seq<byte>, zlib: bool, accepts: nat, result: bool, pieces: seq<seq<byte>>, used: nat,
                steps: nat, lost: bool)
    requires Reports(stream, zlib, accepts, result, pieces, used, steps, lost)
    ensures Windows(pieces) && |pieces| <= accepts + 1 && used <= |stream| && (result ==> |pieces| <= accepts)
  {
  }

  // ----- the loop -----

  /** The state between two calls of the loop. */
  ghost predicate Going(d: Decompressor, stream: seq<byte>, zlib: bool, flushed: seq<byte>, used: nat)
    reads d.Repr()
  {
    && d.Idle() && d.core.cfg == Mode(zlib) && d.start == First(zlib) && !d.skipped
    && d.core.reader.stream == stream && d.core.reader.base + d.core.reader.cur == used <= |stream|
    && d.core.out.hist == Before() + flushed
  }

  /** `tinfl_decompress_mem_to_callback`: it succeeds if and only if the stream is decompressed, with a
      checksum that matches, and the callback takes all of the output; then that is what it has been given. */
  method MemToCallback(stream: seq<byte>, zlib: bool, accepts: nat)
    returns (result: bool, pieces: seq<seq<byte>>, used: nat, ghost steps: nat, ghost lost: bool)
    ensures Windows(pieces) && |pieces| <= accepts + 1 && used <= |stream| && (result ==> |pieces| <= accepts)
    ensures result <==> exists n: nat :: Inflates(stream, zlib, accepts, n)
    ensures forall n: nat :: Inflates(stream, zlib, accepts, n) ==> Joined(pieces) == Content(stream, zlib, n)
    ensures Reports(stream, zlib, accepts, result, pieces, used, steps, lost)
  {
    hide Reports, Inflates;
    result, pieces, used, steps, lost := Flush(stream, zlib, accepts);
    Refused(stream, zlib, accepts, result, pieces, used, steps, lost);
    SucceedsIff(stream, zlib, accepts, result, pieces, used, steps, lost);
  }

  /** Its loop. */
  method Flush(stream: seq<byte>, zlib: bool, accepts: nat)
    returns (result: bool, pieces: seq<seq<byte>>, used: nat, ghost steps: nat, ghost lost: bool)
    ensures Reports(stream, zlib, accepts, result, pieces, used, steps, lost)
  {
    hide BytesToBits, Step, Run, Decompressor.Idle, Output.Holds, AtEnd, Matches, Joined, BigEndian, Sound;
    var buf := new byte[DICT_SIZE](_ => 0);
    ZeroWindow(buf, zlib);
    var d := new Decompressor(Mode(zlib), false, stream, buf, 0, DICT_SIZE, Before());
    var dictOfs := 0;
    used, pieces := 0, [];
    Nothing();
    while true
      invariant Going(d, stream, zlib, Joined(pieces), used) && fresh(d.Repr()) && buf !in d.Repr()
      invariant dictOfs == 0 && Output.Holds(Mode(zlib), buf, dictOfs, DICT_SIZE, d.core.out.hist)
      invariant |pieces| <= accepts && forall i :: 0 <= i < |pieces| ==> |pieces[i]| == DICT_SIZE
      decreases accepts - |pieces|
    {
      var status, consumed, produced := OnePiece(d, stream, zlib, buf, dictOfs, used, Joined(pieces));
      used := used + consumed;
      steps, lost := d.steps, d.lost;
      var piece := buf[dictOfs..dictOfs + produced];
      ghost var before := pieces;
      if produced > 0 {
        pieces := pieces + [piece];
      }
      JoinedMore(before, piece);
      Account(d, stream, zlib, Joined(pieces), used);
      if |pieces| > accepts {
        return false, pieces, used, steps, lost;
      }
      if !status.HasMoreOutput? {
        return status.Finished?, pieces, used, steps, lost;
      }
      dictOfs := (dictOfs + produced) % DICT_SIZE;
    }
  }

  lemma Nothing()
    ensures Joined([]) == [] && Before() + [] == Before()
  {
  }

  lemma JoinedMore(pieces: seq<seq<byte>>, piece: seq<byte>)
    ensures Joined(pieces + [piece]) == Joined(pieces) + piece
    ensures piece == [] ==> Joined(pieces) == Joined(pieces) + piece
  {
    assert (pieces + [piece])[..|pieces|] == pieces;
  }

  /** One call of `tinfl_decompress`: with more output to come it has filled the window, so that the
      next piece begins where this one did; and otherwise nothing can follow. */
  method OnePiece(d: Decompressor, stream: seq<byte>, zlib: bool, buf: array<byte>, dictOfs: nat, inOfs: nat,
                  ghost flushed: seq<byte>)
    returns (status: Status, consumed: nat, produced: nat)
    requires Going(d, stream, zlib, flushed, inOfs) && buf !in d.Repr() && buf.Length == DICT_SIZE && dictOfs == 0
    requires Output.Holds(Mode(zlib), buf, dictOfs, DICT_SIZE, d.core.out.hist)
    modifies d.Repr(), buf
    ensures produced <= DICT_SIZE && d.Idle() && d.core.cfg == Mode(zlib) && d.start == First(zlib)
    ensures d.core.reader.stream == stream && d.core.reader.base + d.core.reader.cur == inOfs + consumed <= |stream|
    ensures d.core.out.hist == Before() + (flushed + buf[..produced])
    ensures status.HasMoreOutput? ==>
      produced == DICT_SIZE && !d.skipped && Output.Holds(Mode(zlib), buf, 0, DICT_SIZE, d.core.out.hist)
    ensures !status.HasMoreOutput? ==> d.Ended()
    ensures status.Finished? || status.ChecksumMismatch? ==> d.core.ctl.Done? && !d.lost && !d.skipped
    ensures status.Finished? && zlib ==> d.checkAdler == BigEndian(d.core.ctl.checksum)
    ensures status.ChecksumMismatch? ==> zlib && d.checkAdler != BigEndian(d.core.ctl.checksum)
    ensures d.core.ctl.Done? && !status.HasMoreOutput? ==> status.Finished? || status.ChecksumMismatch?
  {
    hide BytesToBits, Output.Holds, Step, Run, PowerOfTwo, BigEndian, Decompressor.Idle, Inflator.Core, Inflator.Starved;
    DictSize();
    status, consumed, produced := d.Decompress(stream[inOfs..], buf, dictOfs, DICT_SIZE - dictOfs, false);
    Closed(d);
    assert Before() + flushed + buf[..produced] == Before() + (flushed + buf[..produced]);
    if status.HasMoreOutput? {
      WindowAgain(buf, zlib, dictOfs + produced, d.core.out.hist);
    }
  }

  lemma Closed(d: Decompressor)
    requires d.Idle()
    ensures d.core.Core() && !d.core.ctl.Hole? && (d.core.Starved() ==> !d.core.ctl.Done?)
  {
  }

  /** What the decoder's account says about its output, and about where it stands. */
  lemma Account(d: Decompressor, stream: seq<byte>, zlib: bool, flushed: seq<byte>, used: nat)
    requires d.Idle() && d.core.cfg == Mode(zlib) && d.start == First(zlib) && d.core.out.hist == Before() + flushed
    requires d.core.reader.stream == stream && d.core.reader.base + d.core.reader.cur == used
    ensures var m := Run(Mode(zlib), BytesToBits(stream), First(zlib), d.steps);
      && (d.lost ==> m.ctl.Hole?)
      && (!d.lost ==> m.out == Before() + flushed && m.ctl == d.core.ctl)
      && (!d.lost && d.Ended() ==> AtEnd(stream, zlib, m, flushed))
      && (!d.lost && m.ctl.Done? && !m.holed ==> m.pos <= 8 * used < m.pos + 8)
    ensures d.core.ctl.Done? && !d.skipped ==>
      (Matches(zlib, d.core.ctl.checksum, flushed) <==> !zlib || d.checkAdler == BigEndian(d.core.ctl.checksum))
  {
    hide Step, BytesToBits, Run, A.Sum, A.Value, Decompressor.Ended, BigEndian, Inflator.Core, Decompressor.Doomed;
    if zlib && !d.skipped {
      SameTail(Before(), d.summed, flushed);
    }
    if d.Ended() {
      d.EndedStuck();
    }
    DoneHolds(d);
    d.core.HeldBits();
  }

  lemma DoneHolds(d: Decompressor)
    requires d.Idle()
    ensures d.core.Core() && (d.core.ctl.Done? ==> d.core.holed || d.core.reader.numBits < 8)
  {
    hide BytesToBits, Run, Sound, Accepted, Decompressor.Doomed, Decompressor.Summed;
  }

  lemma SameTail(z: seq<byte>, a: seq<byte>, b: seq<byte>)
    requires z + a == z + b
    ensures a == b
  {
    assert (z + a)[|z|..] == a && (z + b)[|z|..] == b;
  }
}
