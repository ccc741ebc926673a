/** The writing side of blocks with their own tables (BTYPE 10, section 3.2.7 of RFC 1951). */
module InflateDynamic {
  import opened Bits
  import opened Options
  import opened InflateCode
  import opened InflateTables
  import opened InflateStream
  import opened InflateLogic
  import opened InflateWindow
  import opened InflateFormat

  // ----- runs without output -----

  /** Places that ask for bits, and put nothing out. */
  predicate Calm(c: Control)
    requires Reached(c)
  {
    !c.Stored? && (NumberBits(c) > 0 || c.LenCodes? || c.BuildCode? || c.BuildTables?)
  }

  ghost predicate AllCalm(cfg: Config, bits: seq<bool>, m: Machine, n: nat)
    requires Sound(cfg, m)
  {
    forall i: nat :: i < n ==> Calm(Run(cfg, bits, m, i).ctl)
  }

  ghost predicate Calmly(cfg: Config, bits: seq<bool>, m: Machine, t: Machine)
    requires Sound(cfg, m)
  {
    exists n: nat :: Run(cfg, bits, m, n) == t && AllCalm(cfg, bits, m, n)
  }

  lemma CalmNone(cfg: Config, bits: seq<bool>, m: Machine)
    requires Sound(cfg, m)
    ensures Calmly(cfg, bits, m, m)
  {
    hide Step, Sound, Calm;
    NoSteps(cfg, bits, m);
    assert AllCalm(cfg, bits, m, 0);
  }

  lemma CalmOne(cfg: Config, bits: seq<bool>, m: Machine)
    requires Sound(cfg, m) && Calm(m.ctl)
    ensures Calmly(cfg, bits, m, Step(cfg, bits, m))
  {
    hide Step, Sound, Calm;
    OneStep(cfg, bits, m);
    NoSteps(cfg, bits, m);
    assert AllCalm(cfg, bits, m, 1);
  }

  lemma CalmOn(cfg: Config, bits: seq<bool>, m: Machine, n: Machine, t: Machine)
    requires Sound(cfg, m) && Sound(cfg, n) && Calmly(cfg, bits, m, n) && Calmly(cfg, bits, n, t)
    ensures Calmly(cfg, bits, m, t)
  {
    hide Step, Calm, Run;
    var a: nat :| Run(cfg, bits, m, a) == n && AllCalm(cfg, bits, m, a);
    var b: nat :| Run(cfg, bits, n, b) == t && AllCalm(cfg, bits, n, b);
    RunAdd(cfg, bits, m, a, b);
    forall i: nat | i < a + b
      ensures Calm(Run(cfg, bits, m, i).ctl)
    {
      if i >= a {
        RunAdd(cfg, bits, m, a, i - a);
      }
    }
    assert AllCalm(cfg, bits, m, a + b);
  }

  lemma CalmLeads(cfg: Config, bits: seq<bool>, m: Machine, t: Machine)
    requires Sound(cfg, m) && Calmly(cfg, bits, m, t)
    ensures Leads(cfg, bits, m, t) && Sound(cfg, t)
  {
    hide Step, Sound, Calm, Run;
  }

  // ----- the numbers of codes -----

  lemma SizeRead(cfg: Config, bits: seq<bool>, m: Machine, width: nat, least: nat, c: nat)
    requires Sound(cfg, m) && m.ctl.TableSizes? && |m.ctl.got| < 3
    requires width == TABLE_SIZE_BITS[|m.ctl.got|] && least == MIN_TABLE_SIZES[|m.ctl.got|]
    requires least <= c < least + Pow2(width) && Next(bits, m.pos, ToBits(c - least, width))
    ensures |m.ctl.got| == 2 ==> Counts(m.ctl.got + [c])
    ensures var next := m.ctl.got + [c];
      Calmly(cfg, bits, m, m.(
        ctl := if |next| < 3 then TableSizes(m.ctl.final, next) else CodeSizes(m.ctl.final, next, []),
        pos := m.pos + width))
  {
    hide Step, Calmly, Next, ToBits, Pow2;
    SmallPowers();
    NumberRead(cfg, bits, m, c - least);
    CalmOne(cfg, bits, m);
  }

  /** The three of them: the machine is then to read the lengths of the code-length code. */
  lemma SizesRead(cfg: Config, bits: seq<bool>, m: Machine, counts: seq<nat>)
    requires Sound(cfg, m) && m.ctl.TableSizes? && m.ctl.got == [] && Counts(counts)
    requires Next(bits, m.pos, SizesBits(counts))
    ensures Calmly(cfg, bits, m, m.(ctl := CodeSizes(m.ctl.final, counts, []), pos := m.pos + 14))
  {
    hide Step, Calmly, Next, ToBits, Run, Pow2, Calm, Sound;
    SmallPowers();
    var final, x, y, z := m.ctl.final, counts[0], counts[1], counts[2];
    var a, b, c := ToBits(x - 257, 5), ToBits(y - 1, 5), ToBits(z - 4, 4);
    NextSplit(bits, m.pos, a, b + c);
    NextSplit(bits, m.pos + 5, b, c);
    SizeRead(cfg, bits, m, 5, 257, x);
    assert [] + [x] == [x] && [x] + [y] == [x, y] && [x, y] + [z] == counts;
    var n := m.(ctl := TableSizes(final, [x]), pos := m.pos + 5);
    CalmLeads(cfg, bits, m, n);
    SizeRead(cfg, bits, n, 5, 1, y);
    var o := n.(ctl := TableSizes(final, [x, y]), pos := n.pos + 5);
    CalmLeads(cfg, bits, n, o);
    CalmOn(cfg, bits, m, n, o);
    SizeRead(cfg, bits, o, 4, 4, z);
    CalmOn(cfg, bits, m, o, o.(ctl := CodeSizes(final, counts, []), pos := o.pos + 4));
  }

  function SizesBits(counts: seq<nat>): (b: seq<bool>)
    requires Counts(counts)
    ensures |b| == 14
  {
    ToBits(counts[0] - 257, 5) + (ToBits(counts[1] - 1, 5) + ToBits(counts[2] - 4, 4))
  }

  // ----- the code-length code -----

  function GotBits(got: seq<nat>): (b: seq<bool>)
    ensures |b| == 3 * |got|
  {
    if got == [] then [] else ToBits(got[0], 3) + GotBits(got[1..])
  }

  lemma {:induction false} GotRead(cfg: Config, bits: seq<bool>, m: Machine, final: bool, counts: seq<nat>,
                                   got: seq<nat>, more: seq<nat>)
    requires Sound(cfg, m) && Counts(counts) && |got| + |more| == counts[2] && AtMost(got, 7) && AtMost(more, 7)
    requires m.ctl == AfterCodeSizes(final, counts, got)
    requires Next(bits, m.pos, GotBits(more))
    ensures Calmly(cfg, bits, m, m.(
      ctl := BuildCode(final, counts, Placed(got + more, |got + more|)), pos := m.pos + 3 * |more|))
    decreases |more|
  {
    hide Step, Calmly, Next, ToBits, Run, Pow2, Calm, Placed, Sound;
    if more == [] {
      assert got + more == got;
      CalmNone(cfg, bits, m);
    } else {
      NextSplit(bits, m.pos, ToBits(more[0], 3), GotBits(more[1..]));
      GotOne(cfg, bits, m, more[0]);
      var n := m.(ctl := AfterCodeSizes(final, counts, got + [more[0]]), pos := m.pos + 3);
      GotRead(cfg, bits, n, final, counts, got + [more[0]], more[1..]);
      assert got + [more[0]] + more[1..] == got + more;
      CalmOn(cfg, bits, m, n, n.(
        ctl := BuildCode(final, counts, Placed(got + more, |got + more|)), pos := n.pos + 3 * |more[1..]|));
    }
  }

  lemma GotOne(cfg: Config, bits: seq<bool>, m: Machine, l: nat)
    requires Sound(cfg, m) && m.ctl.CodeSizes? && l <= 7 && Next(bits, m.pos, ToBits(l, 3))
    ensures Reached(m.ctl) && |m.ctl.got| < m.ctl.counts[2]
    ensures var n := m.(ctl := AfterCodeSizes(m.ctl.final, m.ctl.counts, m.ctl.got + [l]), pos := m.pos + 3);
      Sound(cfg, n) && Calmly(cfg, bits, m, n)
  {
    hide Step, Calmly, Next, ToBits, AfterCodeSizes, Pow2;
    SmallPowers();
    NumberRead(cfg, bits, m, l);
    CalmOne(cfg, bits, m);
  }

  // ----- the lengths -----

  /** One length; the last one 3 to 6 times again; 3 to 138 zeros. */
  datatype LenToken = Len(l: nat) | Again(n: nat) | Blanks(n: nat)

  predicate LenOk(clen: seq<nat>, lens: seq<nat>, t: LenToken)
    requires |clen| == 19
  {
    match t
    case Len(l) => l <= 15 && clen[l] > 0
    case Again(n) => 3 <= n <= 6 && lens != [] && clen[16] > 0
    case Blanks(n) => 3 <= n <= 138 && clen[if n <= 10 then 17 else 18] > 0
  }

  function LenBits(clen: seq<nat>, lens: seq<nat>, t: LenToken): (b: seq<bool>)
    requires |clen| == 19 && LenOk(clen, lens, t)
  {
    match t
    case Len(l) => Codeword(clen, l)
    case Again(n) => Codeword(clen, 16) + ToBits(n - 3, 2)
    case Blanks(n) => if n <= 10 then Codeword(clen, 17) + ToBits(n - 3, 3) else Codeword(clen, 18) + ToBits(n - 11, 7)
  }

  function Grown(lens: seq<nat>, t: LenToken): (more: seq<nat>)
    requires t.Again? ==> lens != []
  {
    match t
    case Len(l) => lens + [l]
    case Again(n) => lens + Same(lens[|lens| - 1], n)
    case Blanks(n) => lens + Same(0, n)
  }

  /** The tokens complete `lens` to `goal`. */
  predicate Spells(clen: seq<nat>, lens: seq<nat>, ts: seq<LenToken>, goal: seq<nat>)
    requires |clen| == 19
    decreases |ts|
  {
    if ts == [] then lens == goal
    else |lens| < |goal| && LenOk(clen, lens, ts[0]) && Spells(clen, Grown(lens, ts[0]), ts[1..], goal)
  }

  function LensBits(clen: seq<nat>, lens: seq<nat>, ts: seq<LenToken>, goal: seq<nat>): (b: seq<bool>)
    requires |clen| == 19 && Spells(clen, lens, ts, goal)
    decreases |ts|
  {
    if ts == [] then []
    else LenBits(clen, lens, ts[0]) + LensBits(clen, Grown(lens, ts[0]), ts[1..], goal)
  }

  lemma RepeatRead(cfg: Config, bits: seq<bool>, m: Machine, sym: nat, x: nat)
    requires Sound(cfg, m) && m.ctl.LenCodes? && 16 <= sym <= 18 && |m.ctl.clen| == 19 && m.ctl.clen[sym] > 0
    requires (sym == 16 ==> m.ctl.lens != []) && x < Pow2(REPEAT_BITS[sym - 16])
    requires Next(bits, m.pos, Codeword(m.ctl.clen, sym) + ToBits(x, REPEAT_BITS[sym - 16]))
    ensures Reached(m.ctl)
    ensures Calmly(cfg, bits, m, m.(
      ctl := AfterRepeat(m.ctl.final, m.ctl.counts, m.ctl.clen, m.ctl.lens, sym, x),
      pos := m.pos + m.ctl.clen[sym] + REPEAT_BITS[sym - 16]))
  {
    hide Step, Calmly, Next, ToBits, Codeword, Accepted, AfterRepeat, Pow2;
    NextSplit(bits, m.pos, Codeword(m.ctl.clen, sym), ToBits(x, REPEAT_BITS[sym - 16]));
    SymbolRead(cfg, bits, m, sym);
    CalmOne(cfg, bits, m);
    var n := m.(ctl := Repeat(m.ctl.final, m.ctl.counts, m.ctl.clen, m.ctl.lens, sym), pos := m.pos + m.ctl.clen[sym]);
    NumberRead(cfg, bits, n, x);
    CalmOne(cfg, bits, n);
    CalmOn(cfg, bits, m, n, Step(cfg, bits, n));
  }

  lemma LenRead(cfg: Config, bits: seq<bool>, m: Machine, l: nat)
    requires Sound(cfg, m) && m.ctl.LenCodes? && l <= 15 && |m.ctl.clen| == 19 && m.ctl.clen[l] > 0
    requires Next(bits, m.pos, Codeword(m.ctl.clen, l))
    ensures Reached(m.ctl) && AtMost(m.ctl.lens + [l], 15)
    ensures Calmly(cfg, bits, m, m.(
      ctl := AfterLengths(m.ctl.final, m.ctl.counts, m.ctl.clen, m.ctl.lens + [l]), pos := m.pos + m.ctl.clen[l]))
  {
    hide Step, Calmly, Next, ToBits, Codeword, Accepted, AfterLengths;
    SymbolRead(cfg, bits, m, l);
    CalmOne(cfg, bits, m);
  }

  lemma GrownSmall(clen: seq<nat>, lens: seq<nat>, t: LenToken)
    requires |clen| == 19 && AtMost(lens, 15) && LenOk(clen, lens, t)
    ensures AtMost(Grown(lens, t), 15)
  {
  }

  lemma RepeatPowers()
    ensures REPEAT_BITS == [2, 3, 7] && Pow2(2) == 4 && Pow2(3) == 8 && Pow2(7) == 128
  {
  }

  lemma TokenRead(cfg: Config, bits: seq<bool>, m: Machine, t: LenToken)
    requires Sound(cfg, m) && m.ctl.LenCodes? && |m.ctl.clen| == 19 && LenOk(m.ctl.clen, m.ctl.lens, t)
    requires Next(bits, m.pos, LenBits(m.ctl.clen, m.ctl.lens, t))
    ensures Reached(m.ctl) && AtMost(Grown(m.ctl.lens, t), 15)
    ensures var n := m.(
        ctl := AfterLengths(m.ctl.final, m.ctl.counts, m.ctl.clen, Grown(m.ctl.lens, t)),
        pos := m.pos + |LenBits(m.ctl.clen, m.ctl.lens, t)|);
      Calmly(cfg, bits, m, n)
  {
    hide Step, Calmly, Next, ToBits, Codeword, Accepted, AfterLengths, Pow2, Sound, REPEAT_BITS;
    LenPlace(cfg, m);
    GrownSmall(m.ctl.clen, m.ctl.lens, t);
    RepeatPowers();
    match t
    case Len(l) => LenRead(cfg, bits, m, l);
    case Again(n) => RepeatRead(cfg, bits, m, 16, n - 3);
    case Blanks(n) =>
      if n <= 10 {
        RepeatRead(cfg, bits, m, 17, n - 3);
      } else {
        RepeatRead(cfg, bits, m, 18, n - 11);
      }
  }

  lemma LenPlace(cfg: Config, m: Machine)
    requires Sound(cfg, m) && m.ctl.LenCodes?
    ensures Reached(m.ctl) && AtMost(m.ctl.lens, 15) && Counts(m.ctl.counts) && Accepted(m.ctl.clen)
  {
    hide Accepted;
  }

  /** Whatever way the lengths are written, they are read. */
  lemma {:induction false} LensRead(cfg: Config, bits: seq<bool>, m: Machine, final: bool, counts: seq<nat>,
                                    clen: seq<nat>, lens: seq<nat>, ts: seq<LenToken>, goal: seq<nat>)
    requires Sound(cfg, m) && Counts(counts) && |clen| == 19 && Accepted(clen) && AtMost(lens, 15)
    requires m.ctl == AfterLengths(final, counts, clen, lens) && |goal| == counts[0] + counts[1]
    requires Spells(clen, lens, ts, goal) && Next(bits, m.pos, LensBits(clen, lens, ts, goal))
    ensures AtMost(goal, 15)
    ensures Calmly(cfg, bits, m, m.(
      ctl := AfterLengths(final, counts, clen, goal), pos := m.pos + |LensBits(clen, lens, ts, goal)|))
    decreases |ts|
  {
    hide Step, Calmly, Next, LenBits, Accepted, Sound, Grown, Codeword;
    if ts == [] {
      CalmNone(cfg, bits, m);
    } else {
      NextSplit(bits, m.pos, LenBits(clen, lens, ts[0]), LensBits(clen, Grown(lens, ts[0]), ts[1..], goal));
      TokenRead(cfg, bits, m, ts[0]);
      var n := m.(
        ctl := AfterLengths(final, counts, clen, Grown(lens, ts[0])), pos := m.pos + |LenBits(clen, lens, ts[0])|);
      CalmLeads(cfg, bits, m, n);
      LensRead(cfg, bits, n, final, counts, clen, Grown(lens, ts[0]), ts[1..], goal);
      CalmOn(cfg, bits, m, n, n.(
        ctl := AfterLengths(final, counts, clen, goal),
        pos := n.pos + |LensBits(clen, Grown(lens, ts[0]), ts[1..], goal)|));
    }
  }

  // ----- the whole header -----

  /** What a block's header says: the lengths of the code-length code in the order they are sent,
      and the lengths of the two codes with the way they are written. */
  datatype Tables = Tables(got: seq<nat>, lit: seq<nat>, dist: seq<nat>, ts: seq<LenToken>)

  function CodeCode(h: Tables): (clen: seq<nat>)
    requires |h.got| <= 19
    ensures |clen| == 19
  {
    Placed(h.got, |h.got|)
  }

  predicate HeaderOk(h: Tables) {
    && 4 <= |h.got| <= 19 && AtMost(h.got, 7) && Accepted(CodeCode(h))
    && 257 <= |h.lit| <= 288 && 1 <= |h.dist| <= 32 && Accepted(h.lit) && Accepted(h.dist)
    && Spells(CodeCode(h), [], h.ts, h.lit + h.dist)
  }

  function CountsOf(h: Tables): (c: seq<nat>)
    requires HeaderOk(h)
    ensures Counts(c)
  {
    hide Spells, Accepted, Placed;
    [|h.lit|, |h.dist|, |h.got|]
  }

  function HeaderBits(final: bool, h: Tables): (b: seq<bool>)
    requires HeaderOk(h)
  {
    ToBits(if final then 5 else 4, 3)
    + (SizesBits(CountsOf(h)) + (GotBits(h.got) + LensBits(CodeCode(h), [], h.ts, h.lit + h.dist)))
  }

  /** A header with any tables, written in any way, leads to their symbols. */
  lemma HeaderRead(cfg: Config, bits: seq<bool>, m: Machine, final: bool, h: Tables)
    requires Sound(cfg, m) && m.ctl.BlockHeader? && HeaderOk(h) && Next(bits, m.pos, HeaderBits(final, h))
    ensures Calmly(cfg, bits, m, m.(
      ctl := Symbols(final, h.lit, h.dist), pos := m.pos + |HeaderBits(final, h)|))
  {
    hide Step, Calmly, Next, ToBits, SizesBits, LensBits, Spells, Accepted, Sound, Placed, Run;
    var c, clen, goal := CountsOf(h), CodeCode(h), h.lit + h.dist;
    var a, b, g, l := ToBits(if final then 5 else 4, 3), SizesBits(c), GotBits(h.got), LensBits(clen, [], h.ts, goal);
    NextSplit(bits, m.pos, a, b + (g + l));
    NextSplit(bits, m.pos + 3, b, g + l);
    NextSplit(bits, m.pos + 17, g, l);
    StartRead(cfg, bits, m, final);
    var n := m.(ctl := TableSizes(final, []), pos := m.pos + 3);
    CalmLeads(cfg, bits, m, n);
    SizesRead(cfg, bits, n, c);
    var o := n.(ctl := CodeSizes(final, c, []), pos := n.pos + 14);
    CalmLeads(cfg, bits, n, o);
    CalmOn(cfg, bits, m, n, o);
    GotRead(cfg, bits, o, final, c, [], h.got);
    assert [] + h.got == h.got;
    var p := o.(ctl := BuildCode(final, c, clen), pos := o.pos + |g|);
    CalmLeads(cfg, bits, o, p);
    CalmOn(cfg, bits, m, o, p);
    TablesRead(cfg, bits, p, h);
    CalmOn(cfg, bits, m, p, p.(ctl := Symbols(final, h.lit, h.dist), pos := p.pos + |l|));
  }

  /** From the code-length code on. */
  lemma TablesRead(cfg: Config, bits: seq<bool>, m: Machine, h: Tables)
    requires Sound(cfg, m) && HeaderOk(h) && m.ctl.BuildCode? && m.ctl == BuildCode(m.ctl.final, CountsOf(h), CodeCode(h))
    requires Next(bits, m.pos, LensBits(CodeCode(h), [], h.ts, h.lit + h.dist))
    ensures Calmly(cfg, bits, m, m.(
      ctl := Symbols(m.ctl.final, h.lit, h.dist), pos := m.pos + |LensBits(CodeCode(h), [], h.ts, h.lit + h.dist)|))
  {
    hide Step, Calmly, Next, LensBits, Spells, Accepted, Sound, Placed, Run;
    var final, c, clen, goal := m.ctl.final, CountsOf(h), CodeCode(h), h.lit + h.dist;
    CodeBuilt(cfg, bits, m);
    var q := m.(ctl := LenCodes(final, c, clen, []));
    CalmLeads(cfg, bits, m, q);
    LensRead(cfg, bits, q, final, c, clen, [], h.ts, goal);
    assert goal[..c[0]] == h.lit && goal[c[0]..] == h.dist;
    var r := q.(ctl := BuildTables(final, h.lit, h.dist), pos := q.pos + |LensBits(clen, [], h.ts, goal)|);
    CalmLeads(cfg, bits, q, r);
    CalmOn(cfg, bits, m, q, r);
    TablesBuilt(cfg, bits, r);
    CalmOn(cfg, bits, m, r, r.(ctl := Symbols(final, h.lit, h.dist)));
  }

  lemma StartRead(cfg: Config, bits: seq<bool>, m: Machine, final: bool)
    requires Sound(cfg, m) && m.ctl.BlockHeader? && Next(bits, m.pos, ToBits(if final then 5 else 4, 3))
    ensures Calmly(cfg, bits, m, m.(ctl := TableSizes(final, []), pos := m.pos + 3))
  {
    hide Step, Calmly, Next, ToBits;
    SmallPowers();
    NumberRead(cfg, bits, m, if final then 5 else 4);
    CalmOne(cfg, bits, m);
  }

  lemma CodeBuilt(cfg: Config, bits: seq<bool>, m: Machine)
    requires Sound(cfg, m) && m.ctl.BuildCode? && Accepted(m.ctl.clen)
    ensures Calmly(cfg, bits, m, m.(ctl := LenCodes(m.ctl.final, m.ctl.counts, m.ctl.clen, [])))
  {
    hide Calmly, Accepted;
    CalmOne(cfg, bits, m);
  }

  lemma TablesBuilt(cfg: Config, bits: seq<bool>, m: Machine)
    requires Sound(cfg, m) && m.ctl.BuildTables? && Accepted(m.ctl.lit) && Accepted(m.ctl.dist)
    ensures Calmly(cfg, bits, m, m.(ctl := Symbols(m.ctl.final, m.ctl.lit, m.ctl.dist)))
  {
    hide Calmly, Accepted;
    CalmOne(cfg, bits, m);
  }

  /** Every token sequence, written as a block with any tables that have words for it, puts out what
      it means. */
  lemma DynamicRoundTrip(cfg: Config, bits: seq<bool>, m: Machine, final: bool, h: Tables, ts: seq<Token>)
    requires Sound(cfg, m) && m.ctl.BlockHeader? && HeaderOk(h)
    requires AllCodable(h.lit, h.dist, ts) && HasCode(h.lit, 256) && Within(cfg, |m.out|, ts)
    requires Next(bits, m.pos, HeaderBits(final, h) + BlockBits(h.lit, h.dist, ts))
    ensures Leads(cfg, bits, m, m.(
      ctl := AfterBlock(final), pos := m.pos + |HeaderBits(final, h) + BlockBits(h.lit, h.dist, ts)|,
      out := Expand(cfg, m.out, ts)))
  {
    hide Step, Calmly, Next, HeaderBits, BlockBits, HeaderOk, Sound, Run, Leads, AllCodable, HasCode, Within, Expand;
    NextSplit(bits, m.pos, HeaderBits(final, h), BlockBits(h.lit, h.dist, ts));
    HeaderRead(cfg, bits, m, final, h);
    var n := m.(ctl := Symbols(final, h.lit, h.dist), pos := m.pos + |HeaderBits(final, h)|);
    CalmLeads(cfg, bits, m, n);
    BlockRead(cfg, bits, n, ts);
    LeadsOn(cfg, bits, m, n, n.(
      ctl := AfterBlock(final), pos := n.pos + |BlockBits(h.lit, h.dist, ts)|, out := Expand(cfg, m.out, ts)));
  }
}
