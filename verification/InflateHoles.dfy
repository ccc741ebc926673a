/** Tables of at most one code, which the inflater accepts, and which leave bits without a code: what
    its two paths make of such bits, and an assertion that fails after them. */
module InflateHoles {
  import opened Bits
  import opened Options
  import opened InflateCode
  import opened InflateTables
  import opened InflateStream
  import opened InflateLogic
  import opened InflateWindow
  import opened InflateEngine
  import opened InflateFormat
  import opened InflateDynamic

  // ----- incomplete tables -----

  function Ones(n: nat): (b: seq<bool>)
    ensures |b| == n
  {
    seq(n, _ => true)
  }

  /** The only code of a table is made of zeros. */
  lemma OnlyCode(sizes: seq<nat>, s: nat)
    requires Used(sizes, |sizes|) <= 1 && s < |sizes| && sizes[s] > 0
    ensures CodeValue(sizes, s) == 0
  {
    var l := sizes[s];
    FewCodes(sizes, l);
    if t :| 0 <= t < |sizes| && 0 < sizes[t] < l {
      SingleUse(sizes, |sizes|, if s < t then s else t, if s < t then t else s);
    }
    if Count(sizes, s, l) > 0 {
      var t := CountHit(sizes, s, l, 0);
      SingleUse(sizes, |sizes|, t, s);
    }
  }

  lemma {:induction false} ZeroWord(n: nat)
    requires n > 0
    ensures !MsbBits(0, n)[0]
  {
    if n > 1 {
      ZeroWord(n - 1);
    }
  }

  lemma FirstDiffers(c: seq<bool>, b: seq<bool>)
    requires c != [] && b != [] && c[0] != b[0]
    ensures !(c <= b) && !(b <= c)
  {
  }

  /** Accepted lengths that do not fill the code space give no meaning to a row of ones. */
  lemma IncompleteHasHole(sizes: seq<nat>, b: seq<bool>)
    requires Accepted(sizes) && NextCode(sizes, 16) != 65536 && |b| == MAX_BITS && forall i :: 0 <= i < |b| ==> b[i]
    ensures Meaning(sizes, b) == (0, 0)
  {
    hide NextCode, CodeValue, MsbBits;
    forall s: nat | s < |sizes| && sizes[s] > 0
      ensures !Codeword(sizes, s)[0]
    {
      OnlyCode(sizes, s);
      ZeroWord(sizes[s]);
    }
    forall s: nat
      ensures !Begins(sizes, s, b)
    {
      if s < |sizes| && sizes[s] > 0 {
        FirstDiffers(Codeword(sizes, s), b);
      }
    }
    var q := b[..LOOKUP_BITS];
    forall s: nat | s < |sizes|
      ensures !InnerOf(sizes, s, q)
    {
      if sizes[s] > 0 {
        FirstDiffers(Codeword(sizes, s), q);
      }
    }
  }

  /** Among the tables that are accepted, exactly the complete ones leave no bits without a code. */
  lemma HolesIffIncomplete(sizes: seq<nat>)
    requires Accepted(sizes)
    ensures (exists b :: |b| == MAX_BITS && Meaning(sizes, b).1 == 0) <==> NextCode(sizes, 16) != 65536
  {
    hide Meaning, NextCode;
    if NextCode(sizes, 16) == 65536 {
      forall b: seq<bool> | |b| == MAX_BITS
        ensures Meaning(sizes, b).1 > 0
      {
        CompleteHasNoHoles(sizes, b);
      }
    } else {
      IncompleteHasHole(sizes, Ones(MAX_BITS));
    }
  }

  /** The incomplete ones are those with at most one code. */
  lemma IncompleteIffFew(sizes: seq<nat>)
    requires Accepted(sizes)
    ensures NextCode(sizes, 16) != 65536 <==> Used(sizes, |sizes|) <= 1
  {
    if Used(sizes, |sizes|) <= 1 {
      FewCodes(sizes, 16);
      Pow15();
    }
  }

  lemma IncompleteResolves(sizes: seq<nat>, r: seq<bool>)
    requires Accepted(sizes) && NextCode(sizes, 16) != 65536
    requires |r| >= MAX_BITS && forall i :: 0 <= i < MAX_BITS ==> r[i]
    ensures Resolve(sizes, r) == Some((0, 0))
  {
    hide NextCode, Meaning;
    IncompleteHasHole(sizes, Pad(r, MAX_BITS));
  }

  /** A table without codes waits for fifteen bits and then uses none of them. */
  lemma NoCodeResolves(sizes: seq<nat>, r: seq<bool>)
    requires forall i :: 0 <= i < |sizes| ==> sizes[i] == 0
    ensures Resolve(sizes, r) == if |r| >= MAX_BITS then Some((0, 0)) else None
  {
    var b := Pad(r, MAX_BITS);
    assert forall s: nat :: !Begins(sizes, s, b);
    assert !Inner(sizes, |sizes|, b[..LOOKUP_BITS]);
  }

  // ----- a header for any tables -----

  /** All sixteen lengths take four bits, and no repetition is used. */
  const FLAT: seq<nat> := Same(4, 16) + Same(0, 3)
  const FLAT_SENT: seq<nat> := Same(0, 3) + Same(4, 16)

  lemma FlatCounts(l: nat)
    ensures Count(FLAT, 19, l) == (if l == 4 then 16 else 0) + if l == 0 then 3 else 0
  {
    CountRun(4, 16, 16, l);
    CountRun(0, 3, 3, l);
    CountConcat(Same(4, 16), Same(0, 3), 3, l);
  }

  lemma {:induction false} FlatNext(k: nat)
    requires k <= 11
    ensures NextCode(FLAT, 5 + k) == 32 * Pow2(k)
  {
    hide Count;
    if k > 0 {
      FlatNext(k - 1);
      FlatCounts(4 + k);
    } else {
      FlatCounts(1);
      FlatCounts(2);
      FlatCounts(3);
      FlatCounts(4);
      assert NextCode(FLAT, 2) == 0 && NextCode(FLAT, 3) == 0 && NextCode(FLAT, 4) == 0;
    }
  }

  lemma FlatAccepted()
    ensures Accepted(FLAT)
  {
    FlatNext(11);
    assert Pow2(8) == 256;
    Pow2Add(8, 3);
  }

  /** The place of a length in the order in which lengths are sent. */
  const ZIGZAG: seq<nat> := [3, 17, 15, 13, 11, 9, 7, 5, 4, 6, 8, 10, 12, 14, 16, 18, 0, 1, 2]

  lemma ZigzagBack()
    ensures |ZIGZAG| == |DEZIGZAG| == 19
    ensures forall i :: 0 <= i < 19 ==> 0 <= DEZIGZAG[i] < 19 && ZIGZAG[DEZIGZAG[i]] == i
    ensures forall j :: 0 <= j < 19 ==> 0 <= ZIGZAG[j] < 19 && DEZIGZAG[ZIGZAG[j]] == j
    ensures forall j :: 0 <= j < 19 ==> (ZIGZAG[j] < 3 <==> j >= 16)
  {
  }

  lemma {:induction false} PlacedAt(got: seq<nat>, n: nat, j: nat)
    requires n <= |got| <= 19 && j < 19
    ensures |ZIGZAG| == 19 && Placed(got, n)[j] == if ZIGZAG[j] < n then got[ZIGZAG[j]] else 0
  {
    hide DEZIGZAG, ZIGZAG;
    ZigzagBack();
    if n > 0 {
      PlacedAt(got, n - 1, j);
    }
  }

  lemma FlatPlaced()
    ensures Placed(FLAT_SENT, 19) == FLAT
  {
    hide Placed, ZIGZAG;
    ZigzagBack();
    forall j: nat | j < 19
      ensures Placed(FLAT_SENT, 19)[j] == FLAT[j]
    {
      PlacedAt(FLAT_SENT, 19, j);
    }
  }

  function PlainTokens(lens: seq<nat>): (ts: seq<LenToken>)
    ensures |ts| == |lens|
  {
    seq(|lens|, i requires 0 <= i < |lens| => Len(lens[i]))
  }

  lemma {:induction false} PlainSpells(done: seq<nat>, rest: seq<nat>)
    requires AtMost(rest, 15)
    ensures Spells(FLAT, done, PlainTokens(rest), done + rest)
    ensures |LensBits(FLAT, done, PlainTokens(rest), done + rest)| == 4 * |rest|
    decreases |rest|
  {
    if rest == [] {
      assert done + rest == done;
    } else {
      PlainSpells(done + [rest[0]], rest[1..]);
      assert PlainTokens(rest)[1..] == PlainTokens(rest[1..]);
      assert done + [rest[0]] + rest[1..] == done + rest;
    }
  }

  predicate Pair(lit: seq<nat>, dist: seq<nat>) {
    257 <= |lit| <= 288 && 1 <= |dist| <= 32 && Accepted(lit) && Accepted(dist)
  }

  function PlainTables(lit: seq<nat>, dist: seq<nat>): (h: Tables) {
    Tables(FLAT_SENT, lit, dist, PlainTokens(lit + dist))
  }

  /** Every pair of tables that is accepted has a header. */
  lemma PlainHeader(lit: seq<nat>, dist: seq<nat>)
    requires Pair(lit, dist)
    ensures HeaderOk(PlainTables(lit, dist))
    ensures |HeaderBits(true, PlainTables(lit, dist))| == 74 + 4 * |lit + dist|
  {
    hide Spells, LensBits, ToBits, Placed, GotBits, SizesBits, NextCode;
    FlatAccepted();
    FlatPlaced();
    PlainSpells([], lit + dist);
    assert [] + (lit + dist) == lit + dist;
  }

  // ----- a run of the engine up to the first symbol -----

  /** What the machine does on the part of the stream that a call has been given. */
  ghost function Given(d: Inflator): (b: seq<bool>)
    requires d.reader.Valid()
    reads d.reader
  {
    d.reader.All()[..d.reader.Limit()]
  }

  lemma GivenNumber(cfg: Config, bits: seq<bool>, limit: nat, m: Machine)
    requires Sound(cfg, m) && NumberBits(m.ctl) > 0 && m.pos + NumberBits(m.ctl) <= limit <= |bits|
    ensures Step(cfg, bits[..limit], m) == Step(cfg, bits, m)
  {
    hide TakeNumber, Accepted, NumberBits, Reached;
    NumberReached(cfg, m);
    var n := NumberBits(m.ctl);
    assert bits[..limit][m.pos..m.pos + n] == bits[m.pos..m.pos + n];
    var v := FromBits(bits[m.pos..m.pos + n]);
    NumberPlace(cfg, bits, m, v);
    NumberPlace(cfg, bits[..limit], m, v);
  }

  lemma NumberReached(cfg: Config, m: Machine)
    requires Sound(cfg, m)
    ensures Reached(m.ctl)
  {
  }

  lemma GivenSymbol(cfg: Config, bits: seq<bool>, to: nat, limit: nat, m: Machine)
    requires Sound(cfg, m) && SymbolSizes(m.ctl) != [] && m.pos <= to <= limit <= |bits|
    requires Resolve(SymbolSizes(m.ctl), bits[m.pos..to]).Some?
    ensures Step(cfg, bits[..limit], m) == Step(cfg, bits, m)
  {
    hide TakeSymbol, Accepted, SymbolSizes, Reached, Resolve, NextCode;
    NumberReached(cfg, m);
    var sizes := SymbolSizes(m.ctl);
    AcceptedLengths(sizes);
    AcceptedFits(sizes);
    var (sym, len) := Resolve(sizes, bits[m.pos..to]).value;
    ResolveMore(sizes, bits[m.pos..to], bits[to..]);
    ResolveMore(sizes, bits[m.pos..to], bits[to..limit]);
    assert bits[m.pos..to] + bits[to..] == bits[m.pos..];
    assert bits[m.pos..to] + bits[to..limit] == bits[..limit][m.pos..];
    SymbolPlace(cfg, bits, m, sym, len);
    SymbolPlace(cfg, bits[..limit], m, sym, len);
  }

  lemma AcceptedLengths(sizes: seq<nat>)
    requires Accepted(sizes)
    ensures Lengths(sizes)
  {
  }

  lemma GivenMove(cfg: Config, a: seq<bool>, b: seq<bool>, m: Machine)
    requires Sound(cfg, m) && NumberBits(m.ctl) == 0 && SymbolSizes(m.ctl) == []
    ensures Step(cfg, a, m) == Step(cfg, b, m)
  {
    hide Accepted;
  }

  method CalmNumber(d: Inflator)
    requires d.Valid() && Calm(d.ctl) && NumberBits(d.ctl) > 0
    modifies d, d.reader
    ensures d.Valid() && d.Steady() && (d.ctl.Symbols? ==> !d.inside)
    ensures d.View() == Step(d.cfg, Given(d), old(d.View()))
  {
    hide Accepted, Output.Holds, BytesToBits, Step, Resolve, Inflator.Core, Sound, Reached, NumberBits,
      Inflator.Starved;
    d.IsSound();
    NumberNotSymbols(d.ctl);
    ghost var before, bits := d.View(), d.reader.All();
    var ok := d.NumberStep();
    d.IsSound();
    d.Bounds();
    if ok {
      GivenNumber(d.cfg, bits, d.reader.Limit(), before);
    } else {
      d.StarvedNumber();
      StarvedGiven(d);
    }
  }

  lemma NumberNotSymbols(c: Control)
    requires Reached(c) && NumberBits(c) > 0
    ensures !c.Symbols?
  {
  }

  lemma StarvedGiven(d: Inflator)
    requires d.Core() && d.Starved() && d.reader.cur == |d.reader.input|
    ensures d.View() == Step(d.cfg, Given(d), d.View())
  {
    hide Accepted, BytesToBits, Step, Resolve, Sound;
  }

  method CalmSymbol(d: Inflator)
    requires d.Valid() && d.ctl.LenCodes?
    modifies d, d.reader
    ensures d.Valid() && d.Steady() && (d.ctl.Symbols? ==> !d.inside)
    ensures d.View() == Step(d.cfg, Given(d), old(d.View()))
  {
    hide Accepted, Output.Holds, BytesToBits, Step, Resolve, Inflator.Core, Sound, Reached, SymbolSizes,
      Inflator.Starved;
    d.IsSound();
    LenPlaceSizes(d.ctl);
    ghost var before, bits := d.View(), d.reader.All();
    var ok, gone := d.SymbolStep();
    d.IsSound();
    d.Bounds();
    if ok {
      GivenSymbol(d.cfg, bits, 8 * (d.reader.base + d.reader.cur), d.reader.Limit(), before);
    } else {
      d.StarvedSymbol();
      StarvedGiven(d);
    }
  }

  lemma LenPlaceSizes(c: Control)
    requires Reached(c) && c.LenCodes?
    ensures SymbolSizes(c) != []
  {
    hide Accepted;
  }

  method CalmMove(d: Inflator)
    requires d.Valid() && (d.ctl.BuildCode? || d.ctl.BuildTables?)
    modifies d.Repr()
    ensures d.Valid() && d.Steady() && !d.inside
    ensures d.View() == Step(d.cfg, Given(d), old(d.View()))
  {
    hide Accepted, Output.Holds, BytesToBits, Step, Resolve, Inflator.Core, Sound, Reached;
    d.IsSound();
    ghost var before := d.View();
    d.MoveStep();
    d.IsSound();
    MoveAsksNothing(before.ctl);
    GivenMove(d.cfg, d.reader.All(), Given(d), before);
  }

  lemma MoveAsksNothing(c: Control)
    requires Reached(c) && (c.BuildCode? || c.BuildTables?)
    ensures NumberBits(c) == 0 && SymbolSizes(c) == []
  {
  }

  /** One step of a calm place on what the call was given; it may be to stay. */
  method CalmAct(d: Inflator)
    requires d.Valid() && Reached(d.ctl) && Calm(d.ctl)
    modifies d.Repr()
    ensures d.Valid() && d.Steady() && (d.ctl.Symbols? ==> !d.inside)
    ensures d.View() == Step(d.cfg, Given(d), old(d.View()))
  {
    hide Accepted, Output.Holds, BytesToBits, Step, Resolve, Inflator.Core, Sound, Reached, Calm, Given,
      Inflator.Steady;
    CalmPlaces(d.ctl);
    if d.ctl.BuildCode? || d.ctl.BuildTables? {
      CalmMove(d);
    } else if d.ctl.LenCodes? {
      CalmSymbol(d);
    } else {
      CalmNumber(d);
    }
  }

  /** Steps until a symbol of a block is wanted, all of them calm. */
  method ToSymbols(d: Inflator, ghost n: nat)
    requires d.Valid() && AllCalm(d.cfg, Given(d), d.View(), n) && Run(d.cfg, Given(d), d.View(), n).ctl.Symbols?
    requires !d.inside
    modifies d.Repr()
    ensures d.Valid() && d.Steady() && !d.inside && d.View() == Run(d.cfg, old(Given(d)), old(d.View()), n)
  {
    hide Accepted, Output.Holds, BytesToBits, Step, Resolve, Inflator.Core, Sound, Reached, Calm, Run, Given;
    d.IsSound();
    SameGiven(d);
    ghost var bits, before, i := Given(d), d.View(), 0;
    NoSteps(d.cfg, bits, before);
    while !d.ctl.Symbols?
      invariant d.Valid() && d.reader.Valid() && d.Steady() && Given(d) == bits
      invariant i <= n && d.View() == Run(d.cfg, bits, before, i) && (d.ctl.Symbols? ==> !d.inside)
      decreases n - i
    {
      d.IsSound();
      assert i < n && Calm(d.ctl);
      CalmAct(d);
      d.IsSound();
      SameGiven(d);
      OneMore(d.cfg, bits, before, i);
      i := i + 1;
    }
    d.IsSound();
    CalmNotSymbols(d.ctl);
  }

  lemma SameGiven(d: Inflator)
    requires d.reader.Valid()
    ensures Given(d) == BytesToBits(d.reader.stream)[..8 * (d.reader.base + |d.reader.input|)]
  {
  }

  lemma CalmPlaces(c: Control)
    requires Reached(c) && Calm(c)
    ensures !c.BuildCode? && !c.BuildTables? && !c.LenCodes? ==> NumberBits(c) > 0
  {
  }

  lemma CalmNotSymbols(c: Control)
    requires Reached(c) && c.Symbols?
    ensures !Calm(c)
  {
  }

  lemma OneMore(cfg: Config, bits: seq<bool>, m: Machine, i: nat)
    requires Sound(cfg, m)
    ensures Run(cfg, bits, m, i + 1) == Step(cfg, bits, Run(cfg, bits, m, i))
  {
  }

  // ----- bytes for any bits -----

  /** Bits in bytes, the last byte filled up with zeros. */
  function Packed(b: seq<bool>): (s: seq<byte>)
    ensures |s| == (|b| + 7) / 8
    decreases |b|
  {
    if b == [] then [] else
      ByteOf(Pad(b, 8));
      [FromBits(Pad(b, 8))] + Packed(if |b| <= 8 then [] else b[8..])
  }

  lemma ByteOf(b: seq<bool>)
    requires |b| == 8
    ensures FromBits(b) < 256 && ToBits(FromBits(b), 8) == b
  {
    FromToBits(b);
    assert Pow2(8) == 256;
  }

  lemma {:induction false} PackedBits(b: seq<bool>)
    ensures b <= BytesToBits(Packed(b))
    decreases |b|
  {
    hide ToBits, FromBits;
    if b != [] {
      var rest := if |b| <= 8 then [] else b[8..];
      PackedBits(rest);
      ByteOf(Pad(b, 8));
      assert BytesToBits(Packed(b)) == Pad(b, 8) + BytesToBits(Packed(rest));
    }
  }

  // ----- two ways of calling that differ -----

  /** In an incomplete table, ones lead into a hole and stay there. */
  lemma HoleStep(cfg: Config, bits: seq<bool>, m: Machine)
    requires Sound(cfg, m) && m.ctl.Symbols? && NextCode(m.ctl.lit, 16) != 65536
    requires Next(bits, m.pos, Ones(MAX_BITS))
    ensures Step(cfg, bits, m) == m.(ctl := Hole, holed := true)
  {
    hide Resolve, NextCode, Accepted;
    LitAccepted(cfg, m);
    assert forall i :: 0 <= i < MAX_BITS ==> bits[m.pos..][i] == bits[m.pos..m.pos + MAX_BITS][i];
    IncompleteResolves(m.ctl.lit, bits[m.pos..]);
    SymbolPlace(cfg, bits, m, 0, 0);
  }

  lemma LitAccepted(cfg: Config, m: Machine)
    requires Sound(cfg, m) && m.ctl.Symbols?
    ensures Reached(m.ctl) && Codes(m.ctl.lit, m.ctl.dist) && SymbolSizes(m.ctl) == m.ctl.lit != []
  {
    hide Accepted;
  }

  lemma HoleRun(cfg: Config, bits: seq<bool>, m: Machine, k: nat)
    requires Sound(cfg, m) && Step(cfg, bits, m) == m.(ctl := Hole, holed := true)
    ensures Run(cfg, bits, m, k).pos == m.pos
  {
    hide Step;
    if k > 0 {
      RunAdd(cfg, bits, m, 1, k - 1);
      OneStep(cfg, bits, m);
      StoppedStays(cfg, bits, Run(cfg, bits, m, 1), k - 1);
    }
  }

  const RAW: Config := Config(false, false, 0)

  /** A header for the tables, and then ones. */
  function HoleStream(lit: seq<nat>, dist: seq<nat>): (s: seq<byte>)
    requires Pair(lit, dist)
  {
    PlainHeader(lit, dist);
    Packed(HeaderBits(true, PlainTables(lit, dist)) + Ones(120))
  }

  function HoleAt(lit: seq<nat>, dist: seq<nat>): nat {
    74 + 4 * |lit + dist|
  }

  lemma HoleStreamBits(lit: seq<nat>, dist: seq<nat>)
    requires Pair(lit, dist)
    ensures HeaderOk(PlainTables(lit, dist))
    ensures |HeaderBits(true, PlainTables(lit, dist))| == HoleAt(lit, dist)
    ensures |HoleStream(lit, dist)| == (HoleAt(lit, dist) + 127) / 8
    ensures HeaderBits(true, PlainTables(lit, dist)) + Ones(120) <= BytesToBits(HoleStream(lit, dist))
  {
    hide HeaderBits, BytesToBits, Packed, HeaderOk;
    PlainHeader(lit, dist);
    PackedBits(HeaderBits(true, PlainTables(lit, dist)) + Ones(120));
  }

  lemma HoleInside(b: seq<bool>, h: seq<bool>, limit: nat)
    requires h + Ones(120) <= b && |h| + MAX_BITS <= limit <= |b|
    ensures Next(b[..limit], 0, h) && Next(b[..limit], |h|, Ones(MAX_BITS)) && Next(b, |h|, Ones(MAX_BITS))
  {
    assert b[..limit][..|h|] == h;
    assert (h + Ones(120))[|h|..|h| + MAX_BITS] == Ones(MAX_BITS);
    assert b[|h|..|h| + MAX_BITS] == (h + Ones(120))[|h|..|h| + MAX_BITS];
  }

  /** A new inflater, with the first `k` bytes of a stream, at the first symbol. */
  method AtSymbols(cfg: Config, h: Tables, s: seq<byte>, k: nat, buf: array<byte>, ghost hist: seq<byte>)
    returns (d: Inflator)
    requires HeaderOk(h) && !cfg.zlib && Output.Holds(cfg, buf, 0, buf.Length, hist)
    requires k <= |s| && Next(BytesToBits(s)[..8 * k], 0, HeaderBits(true, h))
    ensures fresh(d.Repr()) && d.Valid() && !d.inside && d.cfg == cfg
    ensures d.reader.stream == s && d.reader.base == 0 && d.reader.input == s[..k]
    ensures d.View() == Machine(Symbols(true, h.lit, h.dist), |HeaderBits(true, h)|, hist, false)
    ensures d.out.buf == buf && d.out.cur == 0 && d.out.end == buf.Length
  {
    hide Accepted, BytesToBits, Step, Resolve, Inflator.Core, Sound, Reached, Calm, Run, Given, HeaderBits, HeaderOk,
      Output.Holds;
    d := new Inflator(cfg, s, buf, 0, buf.Length, hist);
    d.Restart(s[..k], buf, 0, buf.Length);
    d.IsSound();
    SameGiven(d);
    ghost var m, bits := d.View(), Given(d);
    HeaderRead(cfg, bits, m, true, h);
    ghost var n: nat :| Run(cfg, bits, m, n) == m.(ctl := Symbols(true, h.lit, h.dist), pos := |HeaderBits(true, h)|)
      && AllCalm(cfg, bits, m, n);
    ToSymbols(d, n);
  }

  method AtHole(lit: seq<nat>, dist: seq<nat>, k: nat) returns (d: Inflator)
    requires Pair(lit, dist) && HoleAt(lit, dist) + MAX_BITS <= 8 * k && k <= |HoleStream(lit, dist)|
    ensures d.Valid() && !d.inside && d.cfg == RAW && fresh(d.Repr()) && fresh(d.out.buf)
    ensures d.reader.stream == HoleStream(lit, dist) && d.reader.base == 0 && d.reader.input == d.reader.stream[..k]
    ensures d.View() == Machine(Symbols(true, lit, dist), HoleAt(lit, dist), [], false)
    ensures d.out.cur == 0 && d.out.end == 4
  {
    hide Accepted, BytesToBits, Inflator.Core, HeaderBits, HoleStream, HeaderOk, Next;
    HoleStreamBits(lit, dist);
    var s := HoleStream(lit, dist);
    HoleInside(BytesToBits(s), HeaderBits(true, PlainTables(lit, dist)), 8 * k);
    var buf := new byte[4];
    assert buf[..0] == [];
    d := AtSymbols(RAW, PlainTables(lit, dist), s, k, buf, []);
  }

  /** The careful path: so little input is left that symbols are read one at a time.  A zero is put
      out, and the inflater is back at the same bits. */
  method CarefulAtHole(lit: seq<nat>, dist: seq<nat>) returns (d: Inflator)
    requires Pair(lit, dist) && NextCode(lit, 16) != 65536
    ensures d.Valid() && d.cfg == RAW && d.reader.stream == HoleStream(lit, dist)
    ensures d.View() == Machine(Symbols(true, lit, dist), HoleAt(lit, dist), [0], true)
  {
    hide Accepted, BytesToBits, Step, Resolve, Inflator.Core, Sound, Reached, Run, HeaderBits, HoleStream, NextCode,
      HeaderOk, Output.Holds, Inflator.Starved, SymbolSizes;
    HoleStreamBits(lit, dist);
    var k := (HoleAt(lit, dist) + 22) / 8;
    d := AtHole(lit, dist, k);
    d.IsSound();
    assert |d.reader.input| - d.reader.cur < 4;
    ghost var m, bits := d.View(), d.reader.All();
    HoleInside(bits, HeaderBits(true, PlainTables(lit, dist)), 8 * k);
    LitAccepted(RAW, m);
    HoleStep(RAW, bits, m);
    HoleStep(RAW, bits[..8 * k], m);
    var ok, gone := d.SymbolStep();
    d.IsSound();
    if !ok {
      d.StarvedSymbol();
      StarvedGiven(d);
      assert false;
    }
    m := d.View();
    EmitPlace(RAW, bits, m);
    ok := d.EmitStep();
  }

  /** The fast path: with plenty of input, two symbols at a time.  It fails. */
  method FastAtHole(lit: seq<nat>, dist: seq<nat>) returns (d: Inflator)
    requires Pair(lit, dist) && NextCode(lit, 16) != 65536
    ensures d.Valid() && d.cfg == RAW && d.reader.stream == HoleStream(lit, dist)
    ensures d.ctl.Failed? && d.out.hist == []
  {
    hide Accepted, BytesToBits, Step, Resolve, Inflator.Core, Sound, Reached, Run, HeaderBits, HoleStream, NextCode,
      HeaderOk, Output.Holds, Inflator.Starved, SymbolSizes;
    HoleStreamBits(lit, dist);
    d := AtHole(lit, dist, (HoleAt(lit, dist) + 127) / 8);
    d.IsSound();
    d.HeldBits();
    assert |d.reader.input| - d.reader.cur >= 4;
    ghost var m, bits := d.View(), d.reader.All();
    HoleInside(bits, HeaderBits(true, PlainTables(lit, dist)), |bits|);
    HoleStep(RAW, bits, m);
    ghost var k, gone := d.FastStep();
    d.IsSound();
    HoleRun(RAW, bits, m, k);
  }

  /** One code, of length 1, for the byte 0. */
  const ONE_CODE: seq<nat> := [1] + Same(0, 256)

  lemma {:induction false} OneUsed(sizes: seq<nat>, s: nat, n: nat)
    requires n <= |sizes| && forall i :: 0 <= i < |sizes| && i != s ==> sizes[i] == 0
    ensures Used(sizes, n) <= if s < n then 1 else 0
  {
    if n > 0 {
      OneUsed(sizes, s, n - 1);
    }
  }

  lemma OneCode()
    ensures Pair(ONE_CODE, NO_DIST) && NextCode(ONE_CODE, 16) != 65536
  {
    hide NextCode;
    OneUsed(ONE_CODE, 0, 257);
    IncompleteIffFew(ONE_CODE);
    assert Used(NO_DIST, 1) == Used(NO_DIST, 0);
  }

  // ----- an assertion that fails -----

  /** Codes for the end of the block and for matches of length 3, and none for distances. */
  const NO_DIST: seq<nat> := [0]
  const TWO_CODES: seq<nat> := Same(0, 256) + [1, 1]
  const WRAP: Config := Config(false, true, 8)

  lemma TwoCounts(l: nat)
    requires l >= 1
    ensures Count(TWO_CODES, 258, l) == if l == 1 then 2 else 0
  {
    CountRun(0, 256, 256, l);
    CountConcat(Same(0, 256), [1, 1], 2, l);
    assert Count([1, 1], 1, l) == (if l == 1 then 1 else 0) + Count([1, 1], 0, l);
    assert Count([1, 1], 2, l) == (if l == 1 then 1 else 0) + Count([1, 1], 1, l);
  }

  lemma {:induction false} TwoNext(k: nat)
    requires k <= 14
    ensures NextCode(TWO_CODES, 2 + k) == 4 * Pow2(k)
  {
    hide Count, TWO_CODES;
    assert |TWO_CODES| == 258 by {
      TwoLength();
    }
    TwoCounts(1 + k);
    if k > 0 {
      TwoNext(k - 1);
    }
  }

  lemma TwoLength()
    ensures |TWO_CODES| == 258
  {
  }

  lemma TwoPair()
    ensures Pair(TWO_CODES, NO_DIST) && HasCode(TWO_CODES, 256) && HasCode(TWO_CODES, 257)
    ensures HoleAt(TWO_CODES, NO_DIST) == 1110
  {
    TwoNext(14);
    assert Pow2(8) == 256;
    Pow2Add(8, 6);
    assert Used(NO_DIST, 1) == Used(NO_DIST, 0);
  }

  /** A symbol that the call's input has in full. */
  method TakeWritten(d: Inflator, ghost s: nat)
    requires d.Valid() && SymbolSizes(d.ctl) != [] && HasCode(SymbolSizes(d.ctl), s)
    requires Next(Given(d), d.reader.Position(), Codeword(SymbolSizes(d.ctl), s))
    modifies d, d.reader
    ensures d.Valid() && d.Steady() && !d.inside && d.out.cur == old(d.out.cur)
    ensures old(d.ctl).LenCodes? || old(d.ctl).Symbols? || old(d.ctl).DistSymbol?
    ensures d.View() == old(d.View()).(
      ctl := TakeSymbol(d.cfg, |d.out.hist|, old(d.ctl), s, old(SymbolSizes(d.ctl))[s]),
      pos := old(d.View()).pos + old(SymbolSizes(d.ctl))[s])
  {
    hide Accepted, BytesToBits, Step, Resolve, Inflator.Core, Sound, Reached, Output.Holds, Inflator.Starved,
      SymbolSizes, Codeword, TakeSymbol;
    d.IsSound();
    ghost var m, bits := d.View(), d.reader.All();
    GivenNext(bits, d.reader.Limit(), m.pos, Codeword(SymbolSizes(d.ctl), s));
    SymbolRead(d.cfg, bits, m, s);
    SymbolRead(d.cfg, Given(d), m, s);
    NotHole(d.cfg, |m.out|, m.ctl, s, SymbolSizes(m.ctl)[s]);
    var ok, gone := d.SymbolStep();
    d.IsSound();
    if !ok {
      d.StarvedSymbol();
      StarvedGiven(d);
      assert false;
    }
  }

  lemma GivenNext(bits: seq<bool>, limit: nat, pos: nat, b: seq<bool>)
    requires limit <= |bits| && Next(bits[..limit], pos, b)
    ensures Next(bits, pos, b)
  {
    assert bits[..limit][pos..pos + |b|] == bits[pos..pos + |b|];
  }

  /** The symbols of the block: a match of length 3, and the end; two bytes follow. */
  function MatchStream(): (s: seq<byte>)
  {
    TwoPair();
    PlainHeader(TWO_CODES, NO_DIST);
    Packed(HeaderBits(true, PlainTables(TWO_CODES, NO_DIST)) + Codeword(TWO_CODES, 257) + Codeword(TWO_CODES, 256)
      + Zeros(16))
  }

  lemma MatchStreamBits()
    ensures HeaderOk(PlainTables(TWO_CODES, NO_DIST)) && |HeaderBits(true, PlainTables(TWO_CODES, NO_DIST))| == 1110
    ensures |MatchStream()| == 141
    ensures Next(BytesToBits(MatchStream())[..1120], 0, HeaderBits(true, PlainTables(TWO_CODES, NO_DIST)))
    ensures HasCode(TWO_CODES, 256) && HasCode(TWO_CODES, 257)
    ensures Next(BytesToBits(MatchStream())[..1120], 1110, Codeword(TWO_CODES, 257))
    ensures Next(BytesToBits(MatchStream()), 1111, Codeword(TWO_CODES, 256))
  {
    hide HeaderBits, BytesToBits, Packed, HeaderOk, Pair, TWO_CODES, Codeword;
    TwoPair();
    TwoWords();
    PlainHeader(TWO_CODES, NO_DIST);
    var h, c, e := HeaderBits(true, PlainTables(TWO_CODES, NO_DIST)), Codeword(TWO_CODES, 257), Codeword(TWO_CODES, 256);
    PackedBits(h + c + e + Zeros(16));
    MatchPlaces(BytesToBits(MatchStream()), h, c, e);
  }

  lemma TwoWords()
    ensures HasCode(TWO_CODES, 256) && HasCode(TWO_CODES, 257)
    ensures |Codeword(TWO_CODES, 256)| == |Codeword(TWO_CODES, 257)| == 1
  {
  }

  lemma MatchPlaces(b: seq<bool>, h: seq<bool>, c: seq<bool>, e: seq<bool>)
    requires |h| == 1110 && |c| == |e| == 1 && |b| >= 1128 && h + c + e + Zeros(16) <= b
    ensures Next(b[..1120], 0, h) && Next(b[..1120], 1110, c) && Next(b, 1111, e)
  {
    var t := h + c + e + Zeros(16);
    assert b[..|t|] == t;
    assert b[..1120][0..1110] == t[0..1110] == h;
    assert b[..1120][1110..1111] == t[1110..1111] == c;
    assert b[1111..1112] == t[1111..1112] == e;
  }

  lemma DistancePlaceOne(cfg: Config, out: nat, c: Control)
    requires Reached(c) && c.DistSymbol? && |c.dist| >= 1 && cfg.wrap
    ensures TakeSymbol(cfg, out, c, 0, 0) == Copy(c.final, c.lit, c.dist, c.length, 1)
  {
    hide Accepted;
  }

  /** The first call is given 140 bytes, and reads the match's length. */
  method MatchLength() returns (d: Inflator)
    ensures d.Valid() && d.cfg == WRAP && fresh(d.Repr()) && fresh(d.out.buf) && !d.inside
    ensures d.reader.stream == MatchStream() && d.reader.base == 0 && |d.reader.input| == 140
    ensures d.ctl == DistSymbol(true, TWO_CODES, NO_DIST, 3) && d.reader.Position() == 1111
    ensures d.out.cur == 0 && d.out.end == 8 && |d.out.hist| == 8
  {
    hide Accepted, BytesToBits, Step, Resolve, Inflator.Core, Sound, Run, HeaderBits, HeaderOk, Output.Holds,
      TWO_CODES, MatchStream, Codeword, TakeSymbol, Next;
    MatchStreamBits();
    var s := MatchStream();
    var buf := new byte[8](_ => 0);
    NewWindow(buf);
    d := AtSymbols(WRAP, PlainTables(TWO_CODES, NO_DIST), s, 140, buf, buf[..]);
    d.IsSound();
    SameGiven(d);
    d.HeldBits();
    assert |d.reader.input| - d.reader.cur < 4;
    LitAccepted(WRAP, d.View());
    TwoLengths();
    LengthPlace(WRAP, 8, d.ctl, 0, 1);
    TakeWritten(d, 257);
  }

  /** Then it waits, since no distance has a code and nine bits do not show it. */
  method FirstCall() returns (d: Inflator)
    ensures d.Valid() && d.cfg == WRAP && fresh(d.Repr()) && fresh(d.out.buf) && d.inside
    ensures d.reader.stream == MatchStream() && d.reader.base + d.reader.cur == 140
    ensures d.ctl == DistSymbol(true, TWO_CODES, NO_DIST, 3) && d.reader.Position() == 1111
    ensures d.out.cur == 0 && d.out.end == 8 && |d.out.hist| == 8
  {
    hide Accepted, BytesToBits, Step, Resolve, Inflator.Core, Sound, Run, Output.Holds, TWO_CODES, MatchStream,
      TakeSymbol, BitReader.Since, BitReader.Valid, Inflator.Waiting;
    d := MatchLength();
    d.IsSound();
    var ok, gone := d.SymbolStep();
    d.IsSound();
    d.HeldBits();
    d.Bounds();
    d.SinceLength(1111);
    NoCodeResolves(NO_DIST, d.reader.Since(1111));
  }

  lemma TwoLengths()
    ensures |TWO_CODES| == 258 && TWO_CODES[256] == TWO_CODES[257] == 1
    ensures |LENGTH_EXTRA| == |LENGTH_BASE| == 31 && LENGTH_EXTRA[0] == 0 && LENGTH_BASE[0] == 3
  {
  }

  lemma NewWindow(buf: array<byte>)
    requires buf.Length == 8
    ensures Output.Holds(WRAP, buf, 0, 8, buf[..])
  {
  }

  /** The second call brings one more byte. */
  method OneMoreByte() returns (d: Inflator)
    ensures d.Valid() && d.cfg == WRAP && fresh(d.Repr()) && fresh(d.out.buf)
    ensures d.reader.stream == MatchStream() && d.reader.base == 140 && |d.reader.input| == 1
    ensures d.ctl == DistSymbol(true, TWO_CODES, NO_DIST, 3) && d.reader.Position() == 1111
    ensures d.out.cur == 0 && d.out.end == 8
  {
    hide Accepted, BytesToBits, Step, Resolve, Inflator.Core, Sound, Run, Output.Holds, TWO_CODES, NO_DIST,
      MatchStream, BitReader.Valid, Codeword, HeaderBits, HeaderOk, Next;
    MatchStreamBits();
    d := FirstCall();
    d.IsSound();
    d.Buffer();
    DistWaits(d);
    var s := MatchStream();
    d.Restart(s[140..141], d.out.buf, 0, 8);
    d.IsSound();
  }

  lemma DistWaits(d: Inflator)
    requires d.Core() && d.ctl.DistSymbol? && d.inside
    ensures d.Waiting()
  {
    hide Accepted;
  }

  /** Fifteen bits without a code are distance 1, and take no bits. */
  method SecondCall() returns (d: Inflator)
    ensures d.Valid() && d.cfg == WRAP && fresh(d.Repr()) && fresh(d.out.buf)
    ensures d.reader.stream == MatchStream() && d.reader.base == 140 && |d.reader.input| == 1
    ensures d.ctl == Copy(true, TWO_CODES, NO_DIST, 3, 1) && d.reader.Position() == 1111 && d.holed
    ensures d.out.cur == 0 && d.out.end == 8
  {
    hide Accepted, BytesToBits, Step, Resolve, Inflator.Core, Sound, Run, Output.Holds, TWO_CODES, NO_DIST,
      MatchStream, TakeSymbol, BitReader.Since, BitReader.Valid, Inflator.Starved, SymbolSizes, HeaderBits, HeaderOk,
      Next, Codeword;
    d := OneMoreByte();
    d.IsSound();
    ghost var m := d.View();
    MatchStreamBits();
    AllGiven(d);
    DistHole(d);
    var ok, gone := d.SymbolStep();
    d.IsSound();
    if !ok {
      d.StarvedSymbol();
      StarvedGiven(d);
      assert false;
    }
  }

  lemma AllGiven(d: Inflator)
    requires d.reader.Valid() && d.reader.base + |d.reader.input| == |d.reader.stream|
    ensures Given(d) == d.reader.All()
  {
    hide BytesToBits;
    assert d.reader.All()[..8 * |d.reader.stream|] == d.reader.All();
  }

  lemma DistHole(d: Inflator)
    requires d.Core() && d.cfg.wrap && d.ctl.DistSymbol? && d.ctl.dist == NO_DIST
    requires d.reader.Position() + MAX_BITS <= |d.reader.All()|
    ensures Reached(d.ctl) && SymbolSizes(d.ctl) == NO_DIST != []
    ensures Sound(d.cfg, d.View()) && Step(d.cfg, d.reader.All(), d.View())
      == d.View().(ctl := Copy(d.ctl.final, d.ctl.lit, d.ctl.dist, d.ctl.length, 1), holed := true)
  {
    hide Accepted, BytesToBits, Step, Resolve, TakeSymbol;
    d.IsSound();
    var m, bits := d.View(), d.reader.All();
    NoCodeResolves(NO_DIST, bits[m.pos..]);
    SymbolPlace(d.cfg, bits, m, 0, 0);
    DistancePlaceOne(d.cfg, |m.out|, m.ctl);
  }

  /** After the copy the block ends. */
  method AtTrailer() returns (d: Inflator)
    ensures d.Valid() && d.cfg == WRAP && fresh(d.Repr())
    ensures d.reader.stream == MatchStream() && d.reader.base == 140 && |d.reader.input| == 1
    ensures d.ctl == Trailer && d.reader.Position() == 1112 && d.holed
  {
    hide Accepted, BytesToBits, Step, Resolve, Inflator.Core, Sound, Run, Output.Holds, TWO_CODES, NO_DIST,
      MatchStream, TakeSymbol, BitReader.Valid, Codeword, Next, HeaderBits, HeaderOk;
    MatchStreamBits();
    d := SecondCall();
    CopyDoneSteps(d);
    d.IsSound();
    AllGiven(d);
    d.HeldBits();
    assert |d.reader.input| - d.reader.cur < 4;
    LitAccepted(d.cfg, d.View());
    TwoLengths();
    EndPlace(d.cfg, |d.out.hist|, d.ctl);
    TakeWritten(d, 256);
  }

  /** `MZ_ASSERT(!num_bits)` fails: the first call took 140 bytes of the stream and the second one has
      its last; the block ends with bit 1112, so that a byte of the first call's input is left in the
      bit buffer, where this call cannot give it back. */
  method AssertionFails() returns (d: Inflator)
    ensures d.reader.Valid() && d.cfg == WRAP && d.reader.stream == MatchStream()
    ensures d.reader.base == 140 && |d.reader.input| == 1 && d.reader.cur == 0
    ensures d.ctl == Trailer && d.reader.Position() == 1112 && d.reader.numBits == 8
  {
    hide Inflator.Core, BitReader.Valid;
    d := AtTrailer();
    d.IsSound();
    d.HeldOrTight();
    d.AlignAndGiveBack();
  }

  /** The copy, and back to symbols. */
  method CopyDoneSteps(d: Inflator)
    requires d.Valid() && d.ctl.Copy? && d.ctl.left == 3 && d.out.cur + 3 < d.out.end
    modifies d.Repr(), d.out.buf
    ensures d.Valid() && d.Steady()
    ensures d.ctl == Symbols(old(d.ctl).final, old(d.ctl).lit, old(d.ctl).dist)
    ensures d.reader.Position() == old(d.reader.Position()) && d.holed == old(d.holed)
  {
    hide Accepted, BytesToBits, Step, Resolve, Inflator.Core, Sound, Run, Output.Holds, Extended, Back;
    d.IsSound();
    ghost var m, bits := d.View(), d.reader.All();
    var ok, k := d.CopyStep();
    CopyRuns(d.cfg, bits, m, k);
    d.IsSound();
    NothingLeft(d.cfg, bits, d.View());
    d.MoveStep();
  }

  lemma EndPlace(cfg: Config, out: nat, c: Control)
    requires Reached(c) && c.Symbols? && c.final && |c.lit| > 256
    ensures TakeSymbol(cfg, out, c, 256, 1) == Trailer
  {
    hide Accepted;
  }
}
