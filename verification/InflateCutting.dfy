/** Where the result depends on how the input is cut into calls: the streams on which a table with at
    most one code is met by bits that no code begins. */
module InflateCutting {
  import opened Bits
  import opened InflateCode
  import opened InflateStream
  import opened InflateLogic
  import opened InflateWindow
  import opened InflateEngine
  import opened InflateFormat
  import opened InflateDynamic
  import opened InflateHoles
  import opened InflateDecompress

  const FIRST: Machine := Machine(BlockHeader, 0, [], false)

  /** The machine meets the hole, with nothing put out. */
  lemma MeetsHole(lit: seq<nat>, dist: seq<nat>) returns (n: nat)
    requires Pair(lit, dist) && NextCode(lit, 16) != 65536
    ensures Sound(RAW, FIRST)
    ensures Run(RAW, BytesToBits(HoleStream(lit, dist)), FIRST, n) == Machine(Hole, HoleAt(lit, dist), [], true)
  {
    hide BytesToBits, Step, Run, HeaderBits, HoleStream, NextCode, HeaderOk, Resolve, Accepted;
    HoleStreamBits(lit, dist);
    var bits := BytesToBits(HoleStream(lit, dist));
    var h := HeaderBits(true, PlainTables(lit, dist));
    HoleInside(bits, h, |bits|);
    assert bits[..|bits|] == bits;
    HeaderRead(RAW, bits, FIRST, true, PlainTables(lit, dist));
    n :| Run(RAW, bits, FIRST, n) == FIRST.(ctl := Symbols(true, lit, dist), pos := |h|) && AllCalm(RAW, bits, FIRST, n);
    var m := Run(RAW, bits, FIRST, n);
    HoleStep(RAW, bits, m);
    RunAdd(RAW, bits, FIRST, n, 1);
    OneStep(RAW, bits, m);
    n := n + 1;
  }

  /** A machine that meets a hole stops nowhere else, and puts out no more than it has put out there. */
  lemma OnlyHole(cfg: Config, bits: seq<bool>, m: Machine, n: nat, k: nat)
    requires Sound(cfg, m) && Run(cfg, bits, m, n).ctl.Hole?
    ensures var t := Run(cfg, bits, m, k);
      && t.out <= Run(cfg, bits, m, n).out && !t.ctl.Failed? && !t.ctl.Done?
      && (t.ctl.Hole? ==> t == Run(cfg, bits, m, n))
  {
    hide Step, Run, Sound;
    NeverFails(cfg, bits, m, n, k);
    if k <= n {
      OutputGrows(cfg, bits, m, k, n);
      RunAdd(cfg, bits, m, k, n - k);
      if Stopped(Run(cfg, bits, m, k).ctl) {
        StoppedStays(cfg, bits, Run(cfg, bits, m, k), n - k);
      }
    } else {
      RunAdd(cfg, bits, m, n, k - n);
      StoppedStays(cfg, bits, Run(cfg, bits, m, n), k - n);
    }
  }

  /** A way of calling on such a stream has not decompressed all of it, and it ends with a failure or
      not at all. */
  lemma NoOtherEnd(d: Decompressor, n: nat)
    requires d.Idle() && Run(d.core.cfg, d.core.reader.All(), d.start, n).ctl.Hole?
    ensures !d.core.ctl.Done? && !d.core.ctl.Hole?
    ensures d.core.ctl.Failed? ==> d.lost
    ensures !d.lost ==> d.core.out.hist <= Run(d.core.cfg, d.core.reader.All(), d.start, n).out
    ensures d.lost ==>
      Run(d.core.cfg, d.core.reader.All(), d.start, d.steps) == Run(d.core.cfg, d.core.reader.All(), d.start, n)
    ensures d.Ended() ==> d.core.ctl.Failed?
  {
    hide Step, Run, Sound, BytesToBits, Decompressor.Summed, Decompressor.Ended, Inflator.Core;
    d.core.IsSound();
    OnlyHole(d.core.cfg, d.core.reader.All(), d.start, n, d.steps);
    if d.core.ctl.Done? {
      d.NotLost();
    }
    if d.Ended() {
      d.EndedStuck();
      if d.lost && !d.core.ctl.Failed? {
        NoSteps(d.core.cfg, d.core.reader.All(), d.core.View());
        HoleEnds(d.core.cfg, d.core.reader.All(), d.core.View(), 0, d.doom);
      } else if !d.lost {
        HoleEnds(d.core.cfg, d.core.reader.All(), d.start, d.steps, n);
      }
    }
  }

  lemma GoesOn(d: Decompressor)
    requires d.Idle()
    ensures d.core.Core() && (d.core.Starved() ==> !d.core.ctl.Failed?)
  {
  }

  /** What two ways of calling have in common here. */
  ghost predicate OnHoleStream(d: Decompressor, lit: seq<nat>, dist: seq<nat>)
    requires Pair(lit, dist)
    reads d.Repr()
  {
    d.Idle() && d.core.cfg == RAW && d.start == FIRST && d.core.reader.stream == HoleStream(lit, dist)
  }

  method Begin(lit: seq<nat>, dist: seq<nat>, buf: array<byte>) returns (d: Decompressor)
    requires Pair(lit, dist)
    ensures OnHoleStream(d, lit, dist) && fresh(d.Repr()) && !d.lost && !d.core.inside && !d.core.ctl.Failed?
    ensures d.core.reader.base + d.core.reader.cur == 0 && d.core.out.hist == []
  {
    hide HoleStream, Decompressor.Idle;
    assert buf[..0] == [];
    d := new Decompressor(RAW, false, HoleStream(lit, dist), buf, 0, 0, []);
  }

  /** A call with one byte, and room for one. */
  method OneByte(d: Decompressor, lit: seq<nat>, dist: seq<nat>, i: nat, buf: array<byte>, ghost n: nat)
    returns (status: Status, consumed: nat, produced: nat)
    requires Pair(lit, dist) && OnHoleStream(d, lit, dist) && buf !in d.Repr() && buf.Length == 1
    requires Run(RAW, BytesToBits(HoleStream(lit, dist)), FIRST, n).ctl.Hole?
    requires i <= |HoleStream(lit, dist)| && d.core.reader.base + d.core.reader.cur == i
    requires d.core.out.hist == [] && !d.core.ctl.Failed? && (i == |HoleStream(lit, dist)| ==> d.Ended())
    modifies d.Repr(), buf
    ensures OnHoleStream(d, lit, dist) && !d.core.ctl.Failed? && |d.core.out.hist| == produced <= 1
    ensures i + consumed <= |HoleStream(lit, dist)| && d.core.reader.base + d.core.reader.cur == i + consumed
    ensures status.NeedsMoreInput? || status.HasMoreOutput?
    ensures produced == 0 ==> consumed == 1 && (i + 1 == |HoleStream(lit, dist)| ==> d.Ended())
  {
    hide BytesToBits, Step, Run, HoleStream, NextCode, Decompressor.Idle, Inflator.Core, Sound, Pair;
    NoOtherEnd(d, n);
    var s := HoleStream(lit, dist);
    assert buf[..0] == [];
    status, consumed, produced := d.Decompress(s[i..i + 1], buf, 0, 1, true);
    NoOtherEnd(d, n);
  }

  /** One byte to a call: a byte comes out, and the caller is asked to go on. */
  method ByteByByte(lit: seq<nat>, dist: seq<nat>) returns (d: Decompressor, status: Status)
    requires Pair(lit, dist) && NextCode(lit, 16) != 65536
    ensures OnHoleStream(d, lit, dist) && fresh(d.Repr())
    ensures (status.NeedsMoreInput? || status.HasMoreOutput?) && |d.core.out.hist| == 1 && !d.core.ctl.Failed?
  {
    hide BytesToBits, Step, Run, HoleStream, NextCode, Decompressor.Idle, Decompressor.Ended, Inflator.Core, Sound,
      Pair;
    var s, buf := HoleStream(lit, dist), new byte[1];
    ghost var n := MeetsHole(lit, dist);
    HoleStreamBits(lit, dist);
    d := Begin(lit, dist, buf);
    var i, got := 0, 0;
    status := NeedsMoreInput;
    while got == 0
      invariant OnHoleStream(d, lit, dist) && fresh(d.Repr()) && buf !in d.Repr() && !d.core.ctl.Failed?
      invariant i <= |s| && d.core.reader.base + d.core.reader.cur == i && (i == |s| && got == 0 ==> d.Ended())
      invariant got == |d.core.out.hist| <= 1 && (status.NeedsMoreInput? || status.HasMoreOutput?)
      decreases 1 - got, |s| - i
    {
      var consumed, produced;
      status, consumed, produced := OneByte(d, lit, dist, i, buf, n);
      i, got := i + consumed, got + produced;
    }
  }

  /** A call with all of the stream, and room for two bytes. */
  method AllBytes(d: Decompressor, lit: seq<nat>, dist: seq<nat>, buf: array<byte>, ghost n: nat) returns (status: Status)
    requires Pair(lit, dist) && OnHoleStream(d, lit, dist) && buf !in d.Repr() && buf.Length == 2
    requires Run(RAW, BytesToBits(HoleStream(lit, dist)), FIRST, n) == Machine(Hole, HoleAt(lit, dist), [], true)
    requires d.core.reader.base + d.core.reader.cur == 0 && d.core.out.hist == []
    requires 8 * |HoleStream(lit, dist)| >= HoleAt(lit, dist) + 96 && !d.lost && !d.core.inside
    modifies d.Repr(), buf
    ensures OnHoleStream(d, lit, dist) && status.Bad? && d.core.out.hist == [] && d.core.ctl.Failed?
  {
    hide BytesToBits, Step, Run, HoleStream, NextCode, Decompressor.Idle, Inflator.Core, Inflator.Starved, Sound, Pair;
    var s := HoleStream(lit, dist);
    assert buf[..0] == [];
    assert s[..|s|] == s;
    var consumed, produced;
    status, consumed, produced := d.Decompress(s, buf, 0, 2, true);
    NoOtherEnd(d, n);
    GoesOn(d);
  }

  /** All of it in one call: a failure, and nothing comes out. */
  method AtOnce(lit: seq<nat>, dist: seq<nat>) returns (d: Decompressor, status: Status)
    requires Pair(lit, dist) && NextCode(lit, 16) != 65536
    ensures OnHoleStream(d, lit, dist) && fresh(d.Repr())
    ensures status.Bad? && d.core.out.hist == [] && d.core.ctl.Failed?
  {
    hide BytesToBits, Run, HoleStream, NextCode, Decompressor.Idle, Inflator.Core, Sound, Pair;
    var buf := new byte[2];
    ghost var n := MeetsHole(lit, dist);
    HoleStreamBits(lit, dist);
    d := Begin(lit, dist, buf);
    status := AllBytes(d, lit, dist, buf, n);
  }

  /** For every incomplete table there is a stream on which the cutting of the input into calls decides
      the result: one way of calling has put out a byte and goes on, the other one has failed. */
  method CuttingMatters(lit: seq<nat>, dist: seq<nat>)
    returns (slow: Decompressor, goesOn: Status, fast: Decompressor, fails: Status)
    requires Pair(lit, dist) && NextCode(lit, 16) != 65536
    ensures OnHoleStream(slow, lit, dist) && OnHoleStream(fast, lit, dist)
    ensures (goesOn.NeedsMoreInput? || goesOn.HasMoreOutput?) && |slow.core.out.hist| == 1
    ensures fails.Bad? && fast.core.out.hist == []
  {
    hide OnHoleStream, Decompressor.Idle, HoleStream, NextCode, Inflator.Core;
    slow, goesOn := ByteByByte(lit, dist);
    fast, fails := AtOnce(lit, dist);
  }

  /** One code, of length 1, for the byte 0. */
  method OneCodeExample() returns (slow: Decompressor, goesOn: Status, fast: Decompressor, fails: Status)
    ensures Pair(ONE_CODE, NO_DIST)
    ensures OnHoleStream(slow, ONE_CODE, NO_DIST) && OnHoleStream(fast, ONE_CODE, NO_DIST)
    ensures (goesOn.NeedsMoreInput? || goesOn.HasMoreOutput?) && |slow.core.out.hist| == 1
    ensures fails.Bad? && fast.core.out.hist == []
  {
    hide ONE_CODE, HoleStream;
    OneCode();
    slow, goesOn, fast, fails := CuttingMatters(ONE_CODE, NO_DIST);
  }
}
