/** Calls of `tinfl_decompress`: the input comes in pieces, the output goes to buffers of any size,
    and the result is that of the machine on the whole stream. */
module InflateDecompress {
  import opened Bits
  import opened Options
  import A = Adler
  import opened InflateCode
  import opened InflateTables
  import opened InflateStream
  import opened InflateLogic
  import opened InflateWindow
  import opened InflateEngine

  datatype Status =
    | Finished | NeedsMoreInput | HasMoreOutput
    | Bad | CannotMakeProgress | BadParameter | ChecksumMismatch

  /** Status codes that are not failures. */
  predicate Good(s: Status) {
    s.Finished? || s.NeedsMoreInput? || s.HasMoreOutput?
  }

  predicate PowerOfTwo(n: nat)
  {
    n == 1 || (n > 0 && n % 2 == 0 && PowerOfTwo(n / 2))
  }

  /** The four bytes of a zlib trailer, most significant first. */
  function BigEndian(got: seq<nat>): (v: nat)
  {
    if got == [] then 0 else 256 * BigEndian(got[..|got| - 1]) + got[|got| - 1]
  }

  class Decompressor {
    const core: Inflator
    /** `TINFL_FLAG_COMPUTE_ADLER32` */
    const sumOutput: bool
    var checkAdler: nat
    /** The machine before the first call, and how far it has come. */
    ghost const start: Machine
    ghost var steps: nat
    /** The machine met bits where no literal/length code begins. */
    ghost var lost: bool
    ghost var doom: nat
    /** The bytes in the checksum, and whether some were left out. */
    ghost var summed: seq<byte>
    ghost var skipped: bool

    ghost function Repr(): set<object> {
      {this} + core.Repr()
    }

    ghost predicate Checked() {
      core.cfg.zlib || sumOutput
    }

    /** Past a hole the decoder has failed, or it is on the way to a hole again. */
    ghost predicate Doomed()
      requires core.Core()
      reads this`doom, core.Repr()
    {
      core.ctl.Failed? || InflateLogic.Run(core.cfg, core.reader.All(), core.View(), doom).ctl.Hole?
    }

    ghost predicate Agrees()
      reads this`steps, this`lost, this`doom, core.Repr()
    {
      && core.Core() && Sound(core.cfg, start) && !core.ctl.Hole?
      && (if lost then InflateLogic.Run(core.cfg, core.reader.All(), start, steps).ctl.Hole? && Doomed()
          else core.View() == InflateLogic.Run(core.cfg, core.reader.All(), start, steps))
    }

    /** The checksum covers the output `h`, but for what calls left out that failed. */
    ghost predicate Summed(h: seq<byte>)
      reads this`checkAdler, this`summed, this`skipped
    {
      && checkAdler == A.Value(A.Sum(A.START, summed))
      && (Checked() && !skipped ==> h == start.out + summed)
    }

    /** Between two calls. */
    ghost predicate Idle()
      reads Repr()
    {
      Settled() && Summed(core.out.hist)
    }

    /** The same but for the checksum. */
    ghost predicate Settled()
      reads Repr()
    {
      && this !in core.Repr() && Agrees()
      && (core.holed || core.reader.numBits < 8 || core.Waiting())
    }

    constructor (cfg: Config, sumOutput: bool, ghost stream: seq<byte>, buf: array<byte>, cur: nat, end: nat,
                 ghost hist: seq<byte>)
      requires Output.Holds(cfg, buf, cur, end, hist)
      ensures Idle() && fresh(Repr()) && core.cfg == cfg && !lost && !skipped && this.sumOutput == sumOutput
      ensures core.reader.stream == stream && core.reader.base == 0 && core.reader.cur == 0 && core.out.hist == hist
      ensures start == Machine(if cfg.zlib then ZlibHeader([]) else BlockHeader, 0, hist, false)
      ensures core.ctl == start.ctl && !core.inside
    {
      hide Inflator.Core, Output.Holds, BytesToBits, Agrees, Summed, Sound;
      core := new Inflator(cfg, stream, buf, cur, end, hist);
      this.sumOutput := sumOutput;
      checkAdler := 1;
      start := Machine(if cfg.zlib then ZlibHeader([]) else BlockHeader, 0, hist, false);
      steps, lost, doom, summed, skipped := 0, false, 0, [], false;
      new;
      core.IsSound();
      NothingRun();
      NothingSummed();
    }

    lemma NothingRun()
      requires core.Core() && Sound(core.cfg, start) && core.View() == start && steps == 0 && !lost && !core.ctl.Hole?
      ensures Agrees()
    {
      hide Inflator.Core, BytesToBits, Sound, Step;
    }

    lemma NothingSummed()
      requires checkAdler == 1 && summed == []
      ensures Summed(start.out)
    {
      assert start.out == start.out + [];
      assert A.Sum(A.START, summed) == A.START;
    }

    /** The arguments of a call are taken over; what was read ahead before stays in the bit buffer. */
    method Begin(input: seq<byte>, buf: array<byte>, next: nat, end: nat)
      requires Idle() && Supplied(input)
      requires Output.Holds(core.cfg, buf, next, end, core.out.hist) && buf !in Repr()
      modifies core.reader, core.out
      ensures Settled() && Summed(core.out.hist) && core.Valid() && core.View() == old(core.View())
      ensures core.reader.stream == old(core.reader.stream) && core.reader.input == input && core.reader.cur == 0
      ensures core.reader.base == old(core.reader.base + core.reader.cur)
      ensures core.out.buf == buf && core.out.cur == next && core.out.end == end && core.out.hist == old(core.out.hist)
    {
      hide BytesToBits, Output.Holds, InflateLogic.Run, Inflator.Core, Sound;
      core.IsSound();
      core.Restart(input, buf, next, end);
    }

    /** The next piece of the stream. */
    ghost predicate Supplied(input: seq<byte>)
      reads core.reader
    {
      var at := core.reader.base + core.reader.cur;
      at + |input| <= |core.reader.stream| && core.reader.stream[at..at + |input|] == input
    }

    /** With less than four bytes of input, nothing fails for the lack of a code. */
    twostate predicate Slowly()
      reads this`lost, core, core.reader
    {
      |core.reader.input| < 4 && lost && !old(core.ctl).Failed? ==> !core.ctl.Failed?
    }

    /** With input well beyond the place of the hole, and room, meeting it is a failure. */
    twostate predicate Fast()
      requires Agrees()
      reads this`steps, this`lost, this`doom, core.Repr()
    {
      var m := InflateLogic.Run(core.cfg, core.reader.All(), start, steps);
      !old(lost) && !old(core.inside) && lost && 8 * (core.reader.base + |core.reader.input|) >= m.pos + 96
        && core.out.end + |core.out.hist| >= core.out.cur + |m.out| + 2
      ==> core.ctl.Failed? && core.out.hist <= m.out
    }

    /** Four bytes are left to read where the input goes on well beyond the place `far`. */
    static lemma FarOff(pos: nat, far: nat, base: nat, cur: nat, held: int, size: nat)
      requires held <= 64 && pos == 8 * (base + cur) - held && pos <= far
      ensures 8 * (base + size) >= far + 96 ==> size >= cur + 4
    {
    }

    /** One action, on the machine's account. */
    method Act() returns (r: Outcome)
      requires this !in core.Repr() && Agrees() && core.Valid() && core.out.buf !in Repr()
      modifies this`steps, this`lost, this`doom, core.Repr(), core.out.buf
      ensures Agrees() && core.Valid() && core.Steady() && old(steps) <= steps && (old(lost) ==> lost)
      ensures (r.Going? ==> !core.inside) && Slowly() && Fast() && (old(lost) ==> steps == old(steps))
      ensures old(core.ctl).Failed? ==> r.Over? && core.View() == old(core.View()) && lost == old(lost)
      ensures r.Going? ==> core.Nearer()
      ensures r.Over? <==> Stopped(core.ctl) && !r.Going?
      ensures r.NeedsInput? ==> core.reader.cur == |core.reader.input| && core.Starved() && core.Waiting()
      ensures r.NeedsRoom? ==> core.out.cur == core.out.end
      ensures r.NeedsRoom? || r.Over? ==> core.reader.numBits == 0 || !core.Waiting()
    {
      hide BytesToBits, Output.Holds, Step, InflateLogic.Run, Inflator.Core, Sound, Stopped, Inflator.Starved,
        Inflator.Waiting, Inflator.Nearer, Inflator.Valid, Inflator.View, Doomed;
      core.IsSound();
      core.HeldBits();
      ghost var bits, before := core.reader.All(), core.View();
      ghost var k, gone, was, cur, held := 0, false, doom, core.reader.cur, core.reader.numBits;
      OldDoom();
      r, k, gone := Perform();
      if gone {
        OnTheWay(core.cfg, bits, before, k);
        FarOff(before.pos, InflateLogic.Run(core.cfg, bits, before, k).pos, core.reader.base, cur, held, |core.reader.input|);
      }
      if old(lost) && !old(core.ctl).Failed? {
        NeverFails(core.cfg, bits, before, was, k);
      }
      AtView();
    }

    lemma OldDoom()
      requires Agrees()
      ensures core.Core() && core.View().ctl == core.ctl && core.View().pos == core.reader.Position()
      ensures core.View().out == core.out.hist
      ensures lost && !core.ctl.Failed? ==> InflateLogic.Run(core.cfg, core.reader.All(), core.View(), doom).ctl.Hole?
    {
    }

    lemma AtView()
      requires core.Core()
      ensures core.View().ctl == core.ctl && core.View().out == core.out.hist
    {
    }

    /** The action itself: `gone` if it met a hole, which the machine is at after `k` steps, while
        otherwise both have made `k` steps. */
    method Perform() returns (r: Outcome, ghost k: nat, ghost gone: bool)
      requires this !in core.Repr() && Agrees() && core.Valid() && core.out.buf !in Repr()
      modifies this`steps, this`lost, this`doom, core.Repr(), core.out.buf
      ensures Agrees() && core.Valid() && core.Steady() && old(steps) <= steps && (r.Going? ==> !core.inside)
      ensures old(lost) ==> lost && steps == old(steps)
      ensures (lost ==> old(lost) || gone) && core.Picked(gone) && Sound(core.cfg, old(core.View()))
      ensures var bits := core.reader.All();
        lost && !old(lost) ==>
          InflateLogic.Run(core.cfg, bits, start, steps) == InflateLogic.Run(core.cfg, bits, old(core.View()), k)
      ensures gone ==> InflateLogic.Run(core.cfg, core.reader.All(), old(core.View()), k).ctl.Hole?
      ensures !gone ==> core.View() == InflateLogic.Run(core.cfg, core.reader.All(), old(core.View()), k)
      ensures old(core.ctl).Failed? ==> r.Over? && core.View() == old(core.View()) && !gone
      ensures r.Going? ==> core.Nearer()
      ensures r.Over? <==> Stopped(core.ctl) && !r.Going?
      ensures r.NeedsInput? ==> core.reader.cur == |core.reader.input| && core.Starved() && core.Waiting()
      ensures r.NeedsRoom? ==> core.out.cur == core.out.end
      ensures r.NeedsRoom? || r.Over? ==> core.reader.numBits == 0 || !core.Waiting()
    {
      hide BytesToBits, Output.Holds, Step, InflateLogic.Run, Rank, Inflator.Core, Sound, Stopped, Inflator.Starved,
        Inflator.Waiting, Inflator.Nearer, Inflator.Picked;
      core.IsSound();
      ghost var bits, before := core.reader.All(), core.View();
      r, k, gone := core.Advance();
      Account(bits, before, k, gone);
    }

    ghost method Account(bits: seq<bool>, before: Machine, k: nat, gone: bool)
      requires this !in core.Repr() && core.Core() && !core.ctl.Hole? && bits == core.reader.All()
      requires Sound(core.cfg, start) && Sound(core.cfg, before)
      requires if lost
        then InflateLogic.Run(core.cfg, bits, start, steps).ctl.Hole?
          && (before.ctl.Failed? || InflateLogic.Run(core.cfg, bits, before, doom).ctl.Hole?)
        else before == InflateLogic.Run(core.cfg, bits, start, steps)
      requires gone ==> InflateLogic.Run(core.cfg, bits, before, k).ctl.Hole?
      requires gone ==> core.ctl.Failed? || InflateLogic.Run(core.cfg, bits, core.View(), 2).ctl.Hole?
      requires !gone ==> core.View() == InflateLogic.Run(core.cfg, bits, before, k)
      requires before.ctl.Failed? ==> core.ctl.Failed?
      modifies this`steps, this`lost, this`doom
      ensures Agrees() && old(steps) <= steps && (old(lost) ==> lost && steps == old(steps)) && (lost ==> old(lost) || gone)
      ensures lost && !old(lost) ==>
        InflateLogic.Run(core.cfg, bits, start, steps) == InflateLogic.Run(core.cfg, bits, before, k)
    {
      hide BytesToBits, Step, InflateLogic.Run, Inflator.Core, Sound;
      if !lost {
        RunAdd(core.cfg, bits, start, steps, k);
        steps := steps + k;
        lost, doom := gone, 2;
      } else if gone {
        doom := 2;
      } else if !core.ctl.Failed? {
        StillDoomed(core.cfg, bits, before, k, doom);
        doom := if doom >= k then doom - k else 0;
      }
    }

    /** Actions until one of them cannot go on. */
    method RunOn() returns (r: Outcome)
      requires this !in core.Repr() && Agrees() && core.Valid() && core.out.buf !in Repr()
      modifies this`steps, this`lost, this`doom, core.Repr(), core.out.buf
      ensures Agrees() && core.Valid() && core.Steady() && !r.Going? && old(steps) <= steps && (old(lost) ==> lost)
      ensures Slowly() && Fast()
      ensures r.Over? <==> Stopped(core.ctl) && !r.Going?
      ensures r.NeedsInput? ==> core.reader.cur == |core.reader.input| && core.Starved() && core.Waiting()
      ensures r.NeedsRoom? ==> core.out.cur == core.out.end
      ensures r.NeedsRoom? || r.Over? ==> core.reader.numBits == 0 || !core.Waiting()
    {
      hide BytesToBits, Output.Holds, Step, InflateLogic.Run, Rank, Inflator.Core, Sound, Stopped, Agrees;
      while true
        invariant Agrees() && core.Valid() && core.Steady() && old(steps) <= steps && (old(lost) ==> lost)
        invariant Slowly() && Fast() && (core.inside ==> old(core.inside))
        decreases core.reader.Limit() - core.reader.Position(), core.out.end - core.out.cur, Rank(core.ctl)
      {
        core.Bounds();
        r := Act();
        if !r.Going? {
          return;
        }
      }
    }

    /** What a call's end gives back: read-ahead bytes, unless the machine waits for more of them. */
    method GiveBack()
      requires this !in core.Repr() && Agrees() && core.Valid() && (core.reader.numBits == 0 || !core.Waiting())
      modifies core.reader
      ensures Agrees() && core.Valid() && core.View() == old(core.View()) && core.reader.Advanced()
      ensures core.reader.cur <= old(core.reader.cur) && core.reader.cur <= |core.reader.input|
      ensures core.holed || core.reader.numBits < 8
    {
      hide BytesToBits, Resolve, Output.Holds, Reached, Step, InflateLogic.Run, BitReader.Valid, Inflator.TablesHold,
        SymbolSizes, NumberBits, Inside;
      core.Bounds();
      core.reader.PushBack();
    }

    method AddToSum(produced: seq<byte>, ghost before: seq<byte>)
      requires Summed(before)
      modifies this`checkAdler, this`summed
      ensures Summed(before + produced)
    {
      hide A.Sum, A.Value;
      A.SumConcat(A.START, summed, produced);
      checkAdler := A.Update(checkAdler, produced, A.Sum(A.START, summed));
      summed := summed + produced;
      assert start.out + (old(summed) + produced) == start.out + old(summed) + produced;
    }

    /** The output of the call goes into the checksum. */
    method Check(status: Status, produced: seq<byte>, ghost before: seq<byte>) returns (s: Status)
      requires Settled() && Summed(before) && core.out.hist == before + produced
      modifies this`checkAdler, this`summed, this`skipped
      ensures Idle() && (old(core.Starved()) ==> core.Starved())
      ensures skipped == (old(skipped) || (!Good(status) && produced != []))
      ensures core.cfg.zlib && status.Finished? && core.ctl.Done? ==>
        s == (if checkAdler == BigEndian(core.ctl.checksum) then Finished else ChecksumMismatch)
      ensures !(core.cfg.zlib && status.Finished? && core.ctl.Done?) ==> s == status
    {
      hide BytesToBits, Output.Holds, Step, InflateLogic.Run, Inflator.Core, Inflator.Starved, Inflator.Waiting,
        Sound, BigEndian;
      s := status;
      if (core.cfg.zlib || sumOutput) && Good(status) {
        AddToSum(produced, before);
        if status.Finished? && core.cfg.zlib && core.ctl.Done? && checkAdler != BigEndian(core.ctl.checksum) {
          s := ChecksumMismatch;
        }
      } else if !Good(status) && produced != [] {
        skipped := true;
      }
    }

    /** `tinfl_decompress` */
    method Decompress(input: seq<byte>, buf: array<byte>, next: nat, size: nat, hasMore: bool)
      returns (status: Status, consumed: nat, produced: nat)
      requires Idle() && Supplied(input)
      requires Output.Holds(core.cfg, buf, next, next + size, core.out.hist) && buf !in Repr()
      modifies Repr(), buf
      ensures Idle() && consumed <= |input| && produced <= size && old(steps) <= steps && (old(lost) ==> lost)
      ensures core.reader.stream == old(core.reader.stream)
      ensures core.reader.base + core.reader.cur == old(core.reader.base + core.reader.cur) + consumed
      ensures core.out.hist == old(core.out.hist) + buf[next..next + produced]
      ensures Output.Holds(core.cfg, buf, next + produced, next + size, core.out.hist)
      ensures status.BadParameter? <==> core.cfg.wrap && !PowerOfTwo(next + size)
      ensures status.BadParameter? ==> consumed == produced == 0 && core.ctl == old(core.ctl) && steps == old(steps)
      ensures status.NeedsMoreInput? || status.CannotMakeProgress? ==>
        consumed == |input| && core.Starved() && status.NeedsMoreInput? == hasMore
      ensures status.HasMoreOutput? ==> produced == size
      ensures status.Finished? || status.ChecksumMismatch? ==> core.ctl.Done? && !lost
      ensures status.Finished? && core.cfg.zlib ==> checkAdler == BigEndian(core.ctl.checksum)
      ensures status.ChecksumMismatch? ==> core.cfg.zlib && checkAdler != BigEndian(core.ctl.checksum)
      ensures status.Bad? ==> Stopped(core.ctl) && !core.ctl.Done?
      ensures skipped == (old(skipped) || ((status.CannotMakeProgress? || status.Bad?) && produced > 0))
      ensures |input| < 4 && lost && !old(core.ctl).Failed? ==> !core.ctl.Failed?
      ensures var m := InflateLogic.Run(core.cfg, core.reader.All(), start, steps);
        !old(lost) && !old(core.inside) && lost && 8 * (old(core.reader.base + core.reader.cur) + |input|) >= m.pos + 96
          && size + |old(core.out.hist)| >= |m.out| + 2
        ==> core.ctl.Failed? && core.out.hist <= m.out
    {
      hide BytesToBits, Output.Holds, Step, InflateLogic.Run, Inflator.Core, Inflator.Starved, Inflator.Waiting,
        Sound, Agrees, Settled, Summed, PowerOfTwo, Stopped, BigEndian, Inflator.Apart, InflateEngine.Rank,
        Inflator.Nearer;
      Begin(input, buf, next, next + size);
      status := Serve(hasMore);
      consumed := core.reader.cur;
      produced := core.out.cur - next;
    }

    /** A call whose arguments are in place. */
    method Serve(hasMore: bool) returns (status: Status)
      requires Settled() && Summed(core.out.hist) && core.Valid() && core.out.buf !in Repr() && core.reader.cur == 0
      modifies this`steps, this`lost, this`doom, this`checkAdler, this`summed, this`skipped, core.Repr(), core.out.buf
      ensures Idle() && old(steps) <= steps && (old(lost) ==> lost)
      ensures core.reader.Advanced() && core.reader.cur <= |core.reader.input|
      ensures core.out.buf == old(core.out.buf) && old(core.out.cur) <= core.out.cur <= core.out.end == old(core.out.end)
      ensures core.out.end <= core.out.buf.Length
      ensures core.out.hist == old(core.out.hist) + core.out.buf[old(core.out.cur)..core.out.cur]
      ensures Output.Holds(core.cfg, core.out.buf, core.out.cur, core.out.end, core.out.hist)
      ensures status.BadParameter? <==> core.cfg.wrap && !PowerOfTwo(core.out.end)
      ensures status.BadParameter? ==> core.ctl == old(core.ctl) && steps == old(steps)
      ensures status.BadParameter? ==> core.reader.cur == 0 && core.out.cur == old(core.out.cur)
      ensures status.NeedsMoreInput? || status.CannotMakeProgress? ==>
        core.reader.cur == |core.reader.input| && core.Starved() && status.NeedsMoreInput? == hasMore
      ensures status.HasMoreOutput? ==> core.out.cur == core.out.end
      ensures status.Finished? || status.ChecksumMismatch? ==> core.ctl.Done? && !lost
      ensures status.Finished? && core.cfg.zlib ==> checkAdler == BigEndian(core.ctl.checksum)
      ensures status.ChecksumMismatch? ==> core.cfg.zlib && checkAdler != BigEndian(core.ctl.checksum)
      ensures status.Bad? ==> Stopped(core.ctl) && !core.ctl.Done?
      ensures skipped ==
        (old(skipped) || ((status.CannotMakeProgress? || status.Bad?) && core.out.cur > old(core.out.cur)))
      ensures Slowly() && Fast()
    {
      hide BytesToBits, Output.Holds, Step, InflateLogic.Run, Inflator.Core, Inflator.Starved, Inflator.Waiting,
        Sound, Agrees, Settled, Summed, PowerOfTwo, Stopped, BigEndian, Inflator.Apart, InflateEngine.Rank,
        Inflator.Nearer;
      ghost var before := core.out.hist;
      var next := core.out.cur;
      status := Work(hasMore);
      status := Check(status, core.out.buf[next..core.out.cur], before);
    }

    lemma NotLost()
      requires Agrees() && core.ctl.Done?
      ensures !lost
    {
      hide Step, BytesToBits;
      core.IsSound();
      DoneIsNotDoomed(core.cfg, core.reader.All(), core.View(), doom);
    }

    /** Nothing can follow: the machine has stopped, or the whole stream is taken and is too short. */
    ghost predicate Ended()
      requires Idle()
      reads Repr()
    {
      || core.ctl.Done? || core.ctl.Failed?
      || (core.Starved() && core.reader.base + core.reader.cur == |core.reader.stream|)
    }

    lemma StartSound()
      requires Idle()
      ensures Sound(core.cfg, start)
    {
    }

    lemma EndedStuck()
      requires Idle() && Ended()
      ensures Sound(core.cfg, core.View()) && Step(core.cfg, core.reader.All(), core.View()) == core.View()
    {
      hide Step, BytesToBits, Sound, Summed, Decompressor.Doomed, InflateLogic.Run, Inflator.Core, Inflator.Starved;
      core.IsSound();
      if core.ctl.Done? || core.ctl.Failed? {
        StoppedStuck(core.cfg, core.reader.All(), core.View());
      } else {
        core.StarvedForGood();
      }
    }

    /** The coroutine's part of a call. */
    method Work(hasMore: bool) returns (status: Status)
      requires Settled() && core.Valid() && core.out.buf !in Repr() && core.reader.cur == 0
      modifies this`steps, this`lost, this`doom, core.Repr(), core.out.buf
      ensures Settled() && old(steps) <= steps && (old(lost) ==> lost)
      ensures core.reader.Advanced() && core.reader.cur <= |core.reader.input|
      ensures core.out.buf == old(core.out.buf) && old(core.out.cur) <= core.out.cur <= core.out.end == old(core.out.end)
      ensures core.out.end <= core.out.buf.Length
      ensures core.out.hist == old(core.out.hist) + core.out.buf[old(core.out.cur)..core.out.cur]
      ensures Output.Holds(core.cfg, core.out.buf, core.out.cur, core.out.end, core.out.hist)
      ensures !status.ChecksumMismatch?
      ensures status.BadParameter? <==> core.cfg.wrap && !PowerOfTwo(core.out.end)
      ensures status.BadParameter? ==> core.ctl == old(core.ctl) && steps == old(steps)
      ensures status.BadParameter? ==> core.reader.cur == 0 && core.out.cur == old(core.out.cur)
      ensures status.NeedsMoreInput? || status.CannotMakeProgress? ==>
        core.reader.cur == |core.reader.input| && core.Starved() && status.NeedsMoreInput? == hasMore
      ensures status.HasMoreOutput? ==> core.out.cur == core.out.end
      ensures status.Finished? ==> core.ctl.Done? && !lost
      ensures status.Bad? ==> Stopped(core.ctl) && !core.ctl.Done?
      ensures Slowly() && Fast()
    {
      hide BytesToBits, Output.Holds, InflateLogic.Run, Inflator.Core, Inflator.Waiting, Sound, Agrees, Stopped,
        Inflator.Starved, PowerOfTwo;
      core.Buffer();
      Output.Lengths(core.cfg, core.out.buf, core.out.cur, core.out.end, core.out.hist);
      core.Bounds();
      if core.cfg.wrap && !PowerOfTwo(core.out.end) {
        assert core.out.hist + core.out.buf[core.out.cur..core.out.cur] == core.out.hist;
        return BadParameter;
      }
      status := WorkOn(hasMore);
    }

    method WorkOn(hasMore: bool) returns (status: Status)
      requires this !in core.Repr() && Agrees() && core.Valid() && core.out.buf !in Repr() && core.reader.cur == 0
      modifies this`steps, this`lost, this`doom, core.Repr(), core.out.buf
      ensures Agrees() && old(steps) <= steps && (old(lost) ==> lost)
      ensures core.holed || core.reader.numBits < 8 || core.Waiting()
      ensures core.reader.Advanced() && core.reader.cur <= |core.reader.input|
      ensures core.out.buf == old(core.out.buf) && old(core.out.cur) <= core.out.cur <= core.out.end == old(core.out.end)
      ensures core.out.end <= core.out.buf.Length
      ensures core.out.hist == old(core.out.hist) + core.out.buf[old(core.out.cur)..core.out.cur]
      ensures Output.Holds(core.cfg, core.out.buf, core.out.cur, core.out.end, core.out.hist)
      ensures !status.ChecksumMismatch? && !status.BadParameter?
      ensures status.NeedsMoreInput? || status.CannotMakeProgress? ==>
        core.reader.cur == |core.reader.input| && core.Starved() && status.NeedsMoreInput? == hasMore
      ensures status.HasMoreOutput? ==> core.out.cur == core.out.end
      ensures status.Finished? ==> core.ctl.Done? && !lost
      ensures status.Bad? ==> Stopped(core.ctl) && !core.ctl.Done?
      ensures Slowly() && Fast()
    {
      hide BytesToBits, Output.Holds, Step, InflateLogic.Run, Inflator.Core, Inflator.Waiting, Sound, Agrees, Stopped,
        Inflator.Starved, Inflator.Tables, Reached, BitReader.Valid, Decompressor.Doomed, Inflator.Nearer;
      ghost var buf, next, end, before := core.out.buf, core.out.cur, core.out.end, core.out.hist;
      core.Buffer();
      Output.Lengths(core.cfg, buf, next, end, before);
      var r := RunOn();
      core.Buffer();
      Output.Lengths(core.cfg, buf, core.out.cur, end, core.out.hist);
      Output.Produced(core.cfg, buf, next, core.out.cur, end, before, core.out.hist);
      core.Bounds();
      assert core.Valid();
      status := Conclude(r, hasMore);
    }

    /** What the coroutine's last action means for the caller. */
    method Conclude(r: Outcome, hasMore: bool) returns (status: Status)
      requires this !in core.Repr() && Agrees() && core.Valid() && !r.Going?
      requires r.Over? <==> Stopped(core.ctl)
      requires r.NeedsInput? ==> core.reader.cur == |core.reader.input| && core.Starved() && core.Waiting()
      requires r.NeedsRoom? ==> core.out.cur == core.out.end
      requires r.NeedsRoom? || r.Over? ==> core.reader.numBits == 0 || !core.Waiting()
      modifies core.reader
      ensures Agrees() && core.Valid() && core.reader.Advanced()
      ensures core.holed || core.reader.numBits < 8 || core.Waiting()
      ensures core.reader.cur <= |core.reader.input|
      ensures !status.ChecksumMismatch? && !status.BadParameter?
      ensures status.NeedsMoreInput? || status.CannotMakeProgress? ==>
        core.reader.cur == |core.reader.input| && core.Starved() && status.NeedsMoreInput? == hasMore
      ensures status.HasMoreOutput? ==> core.out.cur == core.out.end
      ensures status.Finished? ==> core.ctl.Done? && !lost
      ensures status.Bad? ==> Stopped(core.ctl) && !core.ctl.Done?
    {
      hide BytesToBits, Output.Holds, Step, InflateLogic.Run, Inflator.Core, Inflator.Waiting, Sound, Agrees, Stopped,
        Inflator.Starved;
      if r.NeedsInput? {
        return if hasMore then NeedsMoreInput else CannotMakeProgress;
      }
      status := if r.NeedsRoom? then HasMoreOutput else if core.ctl.Done? then Finished else Bad;
      if core.ctl.Done? {
        NotLost();
      }
      GiveBack();
    }
  }

  /** A machine that meets a hole never fails. */
  lemma NeverFails(cfg: Config, bits: seq<bool>, m: Machine, a: nat, b: nat)
    requires Sound(cfg, m) && InflateLogic.Run(cfg, bits, m, a).ctl.Hole?
    ensures !InflateLogic.Run(cfg, bits, m, b).ctl.Failed?
  {
    hide Step, InflateLogic.Run, Sound;
    if a <= b {
      RunAdd(cfg, bits, m, a, b - a);
      StoppedStays(cfg, bits, InflateLogic.Run(cfg, bits, m, a), b - a);
    } else {
      RunAdd(cfg, bits, m, b, a - b);
      if InflateLogic.Run(cfg, bits, m, b).ctl.Failed? {
        StoppedStays(cfg, bits, InflateLogic.Run(cfg, bits, m, b), a - b);
      }
    }
  }

  lemma StillDoomed(cfg: Config, bits: seq<bool>, m: Machine, k: nat, doom: nat)
    requires Sound(cfg, m) && InflateLogic.Run(cfg, bits, m, doom).ctl.Hole?
    ensures InflateLogic.Run(cfg, bits, InflateLogic.Run(cfg, bits, m, k), if doom >= k then doom - k else 0).ctl.Hole?
  {
    hide Step, InflateLogic.Run, Sound;
    if doom >= k {
      RunAdd(cfg, bits, m, k, doom - k);
    } else {
      RunAdd(cfg, bits, m, doom, k - doom);
      StoppedStays(cfg, bits, InflateLogic.Run(cfg, bits, m, doom), k - doom);
      NoSteps(cfg, bits, InflateLogic.Run(cfg, bits, m, k));
    }
  }

  /** A machine that is done never met a hole. */
  lemma DoneIsNotDoomed(cfg: Config, bits: seq<bool>, m: Machine, doom: nat)
    requires Sound(cfg, m) && m.ctl.Done?
    ensures !InflateLogic.Run(cfg, bits, m, doom).ctl.Hole?
  {
    StoppedStays(cfg, bits, m, doom);
  }

  // ----- the cutting does not matter -----

  /** Neither of the two machines can have met a hole, and they agree. */
  lemma NoHoleAgrees(a: Decompressor, b: Decompressor)
    requires a.Idle() && b.Idle() && a.core.cfg == b.core.cfg && a.start == b.start
    requires a.core.reader.stream == b.core.reader.stream
    requires a.Ended() && !a.lost
    ensures !b.lost && b.core.out.hist <= a.core.out.hist
    ensures b.Ended() ==> b.core.View() == a.core.View()
  {
    hide Step, BytesToBits, Inflator.Core, Decompressor.Ended;
    var cfg, bits := a.core.cfg, a.core.reader.All();
    a.core.IsSound();
    b.core.IsSound();
    a.EndedStuck();
    if b.lost {
      HoleEnds(cfg, bits, a.start, a.steps, b.steps);
    } else {
      SameResult(cfg, bits, a.start, a.steps, b.steps);
      if b.Ended() {
        b.EndedStuck();
      }
    }
  }

  /** Where the machine is done after some steps, every way of calling leads there. */
  lemma LeadsToDone(d: Decompressor, n: nat)
    requires d.Idle() && Sound(d.core.cfg, d.start)
    requires InflateLogic.Run(d.core.cfg, d.core.reader.All(), d.start, n).ctl.Done?
    ensures var t := InflateLogic.Run(d.core.cfg, d.core.reader.All(), d.start, n);
      !d.lost && d.core.out.hist <= t.out && (d.Ended() ==> d.core.View() == t)
  {
    hide Step, BytesToBits, Inflator.Core, Sound, Decompressor.Ended;
    var cfg, bits := d.core.cfg, d.core.reader.All();
    StoppedStuck(cfg, bits, InflateLogic.Run(cfg, bits, d.start, n));
    if d.lost {
      HoleEnds(cfg, bits, d.start, n, d.steps);
    } else {
      SameResult(cfg, bits, d.start, n, d.steps);
      if d.Ended() {
        d.EndedStuck();
      }
    }
  }

  /** Every literal/length table accepted on the stream leaves no bits without a code; the fixed
      tables never do. */
  ghost predicate CompleteTables(cfg: Config, bits: seq<bool>, m: Machine)
    requires Sound(cfg, m)
  {
    forall n: nat ::
      var c := InflateLogic.Run(cfg, bits, m, n).ctl;
      c.BuildTables? && Accepted(c.lit) ==> c.lit == FIXED_LIT || NextCode(c.lit, 16) == 65536
  }

  /** The tables in use are complete. */
  predicate Complete(c: Control) {
    LitSizes(c) != [] ==> NextCode(LitSizes(c), 16) == 65536
  }

  lemma StepComplete(cfg: Config, bits: seq<bool>, m: Machine)
    requires Sound(cfg, m) && Complete(m.ctl)
    requires m.ctl.BuildTables? && Accepted(m.ctl.lit) ==> m.ctl.lit == FIXED_LIT || NextCode(m.ctl.lit, 16) == 65536
    ensures Complete(Step(cfg, bits, m).ctl) && (Step(cfg, bits, m).ctl.Hole? ==> m.ctl.Hole?)
  {
    hide TakeNumber, TakeSymbol, Accepted, NextCode, Resolve, FIXED_LIT;
    if NumberBits(m.ctl) > 0 {
      NumberComplete(cfg, bits, m);
    } else if SymbolSizes(m.ctl) != [] {
      SymbolComplete(cfg, bits, m);
    } else {
      FixedComplete();
    }
  }

  lemma NumberComplete(cfg: Config, bits: seq<bool>, m: Machine)
    requires Sound(cfg, m) && NumberBits(m.ctl) > 0 && Complete(m.ctl)
    ensures Complete(Step(cfg, bits, m).ctl) && !Step(cfg, bits, m).ctl.Hole?
  {
    hide Accepted, NextCode, TakeNumber, Reached;
    var v := Number(bits, m.pos, NumberBits(m.ctl));
    NotInHole(m.ctl);
    if v.Some? {
      NumberPlace(cfg, bits, m, v.value);
      NumberKeepsTables(cfg, |m.out|, m.ctl, v.value);
      NumberNoHole(cfg, |m.out|, m.ctl, v.value);
    }
  }

  lemma NotInHole(c: Control)
    requires Reached(c) && (NumberBits(c) > 0 || SymbolSizes(c) != [])
    ensures !c.Hole?
  {
  }

  lemma NumberNoHole(cfg: Config, out: nat, c: Control, v: nat)
    requires Reached(c) && NumberBits(c) > 0 && v < Pow2(NumberBits(c))
    ensures !TakeNumber(cfg, out, c, v).Hole?
  {
    hide Accepted, Placed, Pow2, Same;
  }

  lemma SymbolComplete(cfg: Config, bits: seq<bool>, m: Machine)
    requires Sound(cfg, m) && SymbolSizes(m.ctl) != [] && Complete(m.ctl)
    ensures Complete(Step(cfg, bits, m).ctl) && !Step(cfg, bits, m).ctl.Hole?
  {
    hide Accepted, NextCode, TakeSymbol, Resolve, Reached, SymbolSizes;
    var a := Symbol(SymbolSizes(m.ctl), bits, m.pos);
    NotInHole(m.ctl);
    if a.Some? {
      var (sym, len) := a.value;
      SymbolPlace(cfg, bits, m, sym, len);
      SymbolKeepsTables(cfg, |m.out|, m.ctl, sym, len);
      SymbolTakesBits(bits, m, sym, len);
      NotHole(cfg, |m.out|, m.ctl, sym, len);
    }
  }

  lemma SymbolTakesBits(bits: seq<bool>, m: Machine, sym: nat, len: nat)
    requires Reached(m.ctl) && Complete(m.ctl) && m.pos <= |bits|
    requires Resolve(SymbolSizes(m.ctl), bits[m.pos..]) == Some((sym, len))
    ensures len > 0 || !m.ctl.Symbols?
  {
    hide NextCode, Resolve;
    if m.ctl.Symbols? {
      CompleteResolves(m.ctl.lit, bits[m.pos..]);
    }
  }

  lemma CompleteResolves(sizes: seq<nat>, r: seq<bool>)
    requires Lengths(sizes) && NextCode(sizes, 16) == 65536 && Resolve(sizes, r).Some?
    ensures Resolve(sizes, r).value.1 > 0
  {
    hide Meaning, NextCode;
    CompleteHasNoHoles(sizes, Pad(r, MAX_BITS));
  }

  /** With complete tables a run never meets a hole. */
  lemma {:induction false} CompleteRuns(cfg: Config, bits: seq<bool>, m: Machine, n: nat)
    requires Sound(cfg, m) && CompleteTables(cfg, bits, m) && (m.ctl.ZlibHeader? || m.ctl.BlockHeader?)
    ensures Complete(InflateLogic.Run(cfg, bits, m, n).ctl) && !InflateLogic.Run(cfg, bits, m, n).ctl.Hole?
  {
    hide Step, Complete, FIXED_LIT, Accepted, NextCode;
    if n == 0 {
      NoTables(m.ctl);
    } else {
      CompleteRuns(cfg, bits, m, n - 1);
      StepComplete(cfg, bits, InflateLogic.Run(cfg, bits, m, n - 1));
    }
  }

  lemma NoTables(c: Control)
    requires c.ZlibHeader? || c.BlockHeader?
    ensures Complete(c)
  {
  }

  /** The result does not depend on how the input and the output were cut into pieces.  Let every
      literal/length table on the stream be complete, and let one way of calling have come to an end:
      done, failed, or at the end of a stream that is too short.  Then every other way has made a part
      of the same output, and if it has come to an end as well, it is in the same state. */
  lemma ChunkIndependent(a: Decompressor, b: Decompressor)
    requires a.Idle() && b.Idle() && a.core.cfg == b.core.cfg && a.start == b.start
    requires a.core.reader.stream == b.core.reader.stream
    requires a.start.ctl.ZlibHeader? || a.start.ctl.BlockHeader?
    requires CompleteTables(a.core.cfg, a.core.reader.All(), a.start)
    requires a.Ended()
    ensures !a.lost && !b.lost && b.core.out.hist <= a.core.out.hist
    ensures b.Ended() ==> b.core.View() == a.core.View()
  {
    hide Step, BytesToBits, Inflator.Core, Decompressor.Ended, CompleteTables;
    CompleteRuns(a.core.cfg, a.core.reader.All(), a.start, a.steps);
    NoHoleAgrees(a, b);
  }

  /** Success needs no condition: where one way of calling has decompressed the whole stream, every
      other way that has come to an end has decompressed it too, to the same output. */
  lemma DoneIsIndependent(a: Decompressor, b: Decompressor)
    requires a.Idle() && b.Idle() && a.core.cfg == b.core.cfg && a.start == b.start
    requires a.core.reader.stream == b.core.reader.stream
    requires a.core.ctl.Done?
    ensures !b.lost && b.core.out.hist <= a.core.out.hist
    ensures b.Ended() ==> b.core.View() == a.core.View()
  {
    hide Step, BytesToBits, Inflator.Core;
    a.NotLost();
    NoHoleAgrees(a, b);
  }
}
