/** The writing side of deflate: streams that say what to put out, and the machine's answer. */
module InflateFormat {
  import opened Bits
  import opened Options
  import opened InflateCode
  import opened InflateTables
  import opened InflateStream
  import opened InflateLogic
  import opened InflateWindow

  /** LZ77: a byte, or a match of 3 to 258 bytes at a distance of 1 to 32768. */
  datatype Token = Plain(c: byte) | Match(length: nat, distance: nat)

  predicate TokenOk(t: Token) {
    t.Match? ==> 3 <= t.length <= 258 && 1 <= t.distance <= 32768
  }

  // ----- symbols and extra bits (section 3.2.5 of RFC 1951) -----

  lemma PowersTo5()
    ensures Pow2(0) == 1 && Pow2(1) == 2 && Pow2(2) == 4 && Pow2(3) == 8 && Pow2(4) == 16 && Pow2(5) == 32
  {
  }

  lemma PowersTo13()
    ensures Pow2(6) == 64 && Pow2(7) == 128 && Pow2(8) == 256 && Pow2(9) == 512 && Pow2(10) == 1024
    ensures Pow2(11) == 2048 && Pow2(12) == 4096 && Pow2(13) == 8192
  {
    PowersTo5();
    assert Pow2(9) == 512;
  }

  /** The extra bits of a length symbol reach up to the next one. */
  lemma LengthRows()
    ensures forall i :: 0 <= i < 28 ==> LENGTH_BASE[i + 1] <= LENGTH_BASE[i] + Pow2(LENGTH_EXTRA[i])
    ensures LENGTH_BASE[28] == 258 && LENGTH_EXTRA[28] == 0 && LENGTH_BASE[0] == 3
  {
    hide Pow2;
    PowersTo5();
  }

  lemma DistanceRows()
    ensures forall i :: 0 <= i < 29 ==> DIST_BASE[i + 1] <= DIST_BASE[i] + Pow2(DIST_EXTRA[i])
    ensures DIST_BASE[29] == 24577 && DIST_EXTRA[29] == 13 && DIST_BASE[0] == 1
  {
    hide Pow2;
    PowersTo5();
    PowersTo13();
  }

  function FindLength(length: nat, i: nat): (r: (nat, nat))
    requires i <= 28 && 3 <= length <= 258 && (i < 28 ==> length < LENGTH_BASE[i + 1])
    ensures r.0 <= i && LENGTH_BASE[r.0] + r.1 == length && r.1 < Pow2(LENGTH_EXTRA[r.0])
  {
    hide Pow2, LENGTH_BASE, LENGTH_EXTRA;
    LengthRows();
    PowersTo5();
    if LENGTH_BASE[i] <= length then (i, length - LENGTH_BASE[i]) else FindLength(length, i - 1)
  }

  function FindDistance(distance: nat, i: nat): (r: (nat, nat))
    requires i <= 29 && 1 <= distance <= 32768 && (i < 29 ==> distance < DIST_BASE[i + 1])
    ensures r.0 <= i && DIST_BASE[r.0] + r.1 == distance && r.1 < Pow2(DIST_EXTRA[r.0])
  {
    hide Pow2, DIST_BASE, DIST_EXTRA;
    DistanceRows();
    PowersTo13();
    if DIST_BASE[i] <= distance then (i, distance - DIST_BASE[i]) else FindDistance(distance, i - 1)
  }

  /** The code has words for all symbols of the token. */
  predicate Codable(lit: seq<nat>, dist: seq<nat>, t: Token) {
    && TokenOk(t)
    && match t
       case Plain(c) => HasCode(lit, c)
       case Match(length, distance) =>
         HasCode(lit, 257 + FindLength(length, 28).0) && HasCode(dist, FindDistance(distance, 29).0)
  }

  predicate HasCode(sizes: seq<nat>, s: nat) {
    s < |sizes| && sizes[s] > 0
  }

  function TokenBits(lit: seq<nat>, dist: seq<nat>, t: Token): (b: seq<bool>)
    requires Codable(lit, dist, t)
  {
    match t
    case Plain(c) => Codeword(lit, c)
    case Match(length, distance) =>
      var (l, x) := FindLength(length, 28);
      var (d, y) := FindDistance(distance, 29);
      PartsBits(lit, dist, l, x, d, y)
  }

  function PartsBits(lit: seq<nat>, dist: seq<nat>, l: nat, x: nat, d: nat, y: nat): (b: seq<bool>)
    requires l <= 28 && d <= 29 && HasCode(lit, 257 + l) && HasCode(dist, d)
  {
    Codeword(lit, 257 + l) + ToBits(x, LENGTH_EXTRA[l]) + (Codeword(dist, d) + ToBits(y, DIST_EXTRA[d]))
  }

  predicate AllCodable(lit: seq<nat>, dist: seq<nat>, ts: seq<Token>) {
    forall i :: 0 <= i < |ts| ==> Codable(lit, dist, ts[i])
  }

  /** A block's symbols, the end of the block included. */
  function BlockBits(lit: seq<nat>, dist: seq<nat>, ts: seq<Token>): (b: seq<bool>)
    requires AllCodable(lit, dist, ts) && HasCode(lit, 256)
    decreases |ts|
  {
    if ts == [] then Codeword(lit, 256) else TokenBits(lit, dist, ts[0]) + BlockBits(lit, dist, ts[1..])
  }

  // ----- what the tokens mean -----

  /** No match reaches back before the output (or, with a window, before the window). */
  predicate Within(cfg: Config, out: nat, ts: seq<Token>)
    decreases |ts|
  {
    ts == [] ||
    match ts[0]
    case Plain(_) => Within(cfg, out + 1, ts[1..])
    case Match(length, distance) =>
      1 <= Back(cfg, distance) <= out && (cfg.wrap || 1 <= distance <= out) && Within(cfg, out + length, ts[1..])
  }

  function Expand(cfg: Config, out: seq<byte>, ts: seq<Token>): (e: seq<byte>)
    requires Within(cfg, |out|, ts)
    decreases |ts|
  {
    if ts == [] then out else
      match ts[0]
      case Plain(c) => Expand(cfg, out + [c], ts[1..])
      case Match(length, distance) => Expand(cfg, Extended(out, Back(cfg, distance), length), ts[1..])
  }

  // ----- the machine reads what was written -----

  ghost predicate Leads(cfg: Config, bits: seq<bool>, m: Machine, t: Machine)
    requires Sound(cfg, m)
  {
    exists n: nat :: Run(cfg, bits, m, n) == t
  }

  lemma LeadsOn(cfg: Config, bits: seq<bool>, m: Machine, n: Machine, t: Machine)
    requires Sound(cfg, m) && Sound(cfg, n) && Leads(cfg, bits, m, n) && Leads(cfg, bits, n, t)
    ensures Leads(cfg, bits, m, t)
  {
    hide Run, Sound;
    var a: nat :| Run(cfg, bits, m, a) == n;
    var b: nat :| Run(cfg, bits, n, b) == t;
    RunAdd(cfg, bits, m, a, b);
  }

  lemma LeadsSound(cfg: Config, bits: seq<bool>, m: Machine, t: Machine)
    requires Sound(cfg, m) && Leads(cfg, bits, m, t)
    ensures Sound(cfg, t)
  {
    hide Sound;
  }

  lemma OneLeads(cfg: Config, bits: seq<bool>, m: Machine)
    requires Sound(cfg, m)
    ensures Leads(cfg, bits, m, Step(cfg, bits, m))
  {
    hide Step;
    OneStep(cfg, bits, m);
  }

  /** The bits at the machine's position. */
  predicate Next(bits: seq<bool>, pos: nat, b: seq<bool>) {
    pos + |b| <= |bits| && bits[pos..pos + |b|] == b
  }

  lemma NextSplit(bits: seq<bool>, pos: nat, a: seq<bool>, b: seq<bool>)
    requires Next(bits, pos, a + b)
    ensures Next(bits, pos, a) && Next(bits, pos + |a|, b)
  {
    assert bits[pos..pos + |a + b|][..|a|] == a && bits[pos..pos + |a + b|][|a|..] == b;
  }

  /** A written symbol is read. */
  lemma SymbolRead(cfg: Config, bits: seq<bool>, m: Machine, s: nat)
    requires Sound(cfg, m) && SymbolSizes(m.ctl) != [] && HasCode(SymbolSizes(m.ctl), s)
    requires Next(bits, m.pos, Codeword(SymbolSizes(m.ctl), s))
    ensures m.ctl.LenCodes? || m.ctl.Symbols? || m.ctl.DistSymbol?
    ensures var sizes := SymbolSizes(m.ctl);
      Step(cfg, bits, m) == m.(ctl := TakeSymbol(cfg, |m.out|, m.ctl, s, sizes[s]), pos := m.pos + sizes[s])
  {
    hide Codeword, TakeSymbol, Meaning, Step, SymbolSizes, Accepted;
    var sizes := SymbolSizes(m.ctl);
    WrittenSymbol(sizes, s, bits[m.pos..]);
    SymbolPlace(cfg, bits, m, s, sizes[s]);
  }

  lemma WrittenSymbol(sizes: seq<nat>, s: nat, r: seq<bool>)
    requires Accepted(sizes) && HasCode(sizes, s) && |r| >= sizes[s] && r[..sizes[s]] == Codeword(sizes, s)
    ensures Resolve(sizes, r) == Some((s, sizes[s]))
  {
    hide Codeword, Meaning;
    AcceptedFits(sizes);
    var b := Pad(r, MAX_BITS);
    assert b[..sizes[s]] == r[..sizes[s]];
    assert Begins(sizes, s, b);
    BeginsOnce(sizes, s, b);
  }

  /** A written number is read. */
  lemma NumberRead(cfg: Config, bits: seq<bool>, m: Machine, v: nat)
    requires Sound(cfg, m) && NumberBits(m.ctl) > 0 && v < Pow2(NumberBits(m.ctl))
    requires Next(bits, m.pos, ToBits(v, NumberBits(m.ctl)))
    ensures Step(cfg, bits, m)
      == m.(ctl := TakeNumber(cfg, |m.out|, m.ctl, v), pos := m.pos + NumberBits(m.ctl))
  {
    hide TakeNumber, Step, NumberBits;
    ToFromBits(v, NumberBits(m.ctl));
    NumberPlace(cfg, bits, m, v);
  }

  lemma PlainRead(cfg: Config, bits: seq<bool>, m: Machine, c: byte)
    requires Sound(cfg, m) && m.ctl.Symbols? && HasCode(m.ctl.lit, c) && Next(bits, m.pos, Codeword(m.ctl.lit, c))
    ensures Leads(cfg, bits, m, m.(pos := m.pos + m.ctl.lit[c], out := m.out + [c]))
  {
    hide Codeword, Step, Accepted, Leads;
    SymbolRead(cfg, bits, m, c);
    OneLeads(cfg, bits, m);
    var n := Step(cfg, bits, m);
    EmitPlace(cfg, bits, n);
    OneLeads(cfg, bits, n);
    LeadsOn(cfg, bits, m, n, Step(cfg, bits, n));
  }

  lemma LengthPlace(cfg: Config, out: nat, c: Control, l: nat, n: nat)
    requires Reached(c) && c.Symbols? && l <= 28 && 257 + l < |c.lit| && n > 0
    ensures |LENGTH_BASE| == |LENGTH_EXTRA| == 31
    ensures TakeSymbol(cfg, out, c, 257 + l, n) ==
      if LENGTH_EXTRA[l] > 0 then LengthExtra(c.final, c.lit, c.dist, LENGTH_BASE[l], LENGTH_EXTRA[l])
      else DistSymbol(c.final, c.lit, c.dist, LENGTH_BASE[l])
  {
    hide Accepted, LENGTH_BASE, LENGTH_EXTRA;
    Rows();
  }

  /** The length symbol and its extra bits. */
  lemma LengthRead(cfg: Config, bits: seq<bool>, m: Machine, l: nat, x: nat)
    requires Sound(cfg, m) && m.ctl.Symbols? && l <= 28 && HasCode(m.ctl.lit, 257 + l) && x < Pow2(LENGTH_EXTRA[l])
    requires Next(bits, m.pos, Codeword(m.ctl.lit, 257 + l) + ToBits(x, LENGTH_EXTRA[l]))
    ensures Leads(cfg, bits, m, m.(
      ctl := DistSymbol(m.ctl.final, m.ctl.lit, m.ctl.dist, LENGTH_BASE[l] + x),
      pos := m.pos + m.ctl.lit[257 + l] + LENGTH_EXTRA[l]))
  {
    hide Codeword, Step, Accepted, Leads, ToBits, LENGTH_BASE, LENGTH_EXTRA, TakeSymbol, Pow2, Resolve;
    Rows();
    PowersTo5();
    LengthPlace(cfg, |m.out|, m.ctl, l, m.ctl.lit[257 + l]);
    NextSplit(bits, m.pos, Codeword(m.ctl.lit, 257 + l), ToBits(x, LENGTH_EXTRA[l]));
    SymbolRead(cfg, bits, m, 257 + l);
    OneLeads(cfg, bits, m);
    var n := Step(cfg, bits, m);
    if LENGTH_EXTRA[l] > 0 {
      NumberRead(cfg, bits, n, x);
      OneLeads(cfg, bits, n);
      LeadsOn(cfg, bits, m, n, Step(cfg, bits, n));
    }
  }

  lemma DistancePlace(cfg: Config, out: nat, c: Control, d: nat, n: nat)
    requires Reached(c) && c.DistSymbol? && d <= 29 && d < |c.dist|
    ensures |DIST_BASE| == |DIST_EXTRA| == 32
    ensures TakeSymbol(cfg, out, c, d, n) ==
      if DIST_EXTRA[d] > 0 then DistExtra(c.final, c.lit, c.dist, c.length, DIST_BASE[d], DIST_EXTRA[d])
      else AfterDistance(cfg, out, c.final, c.lit, c.dist, c.length, DIST_BASE[d])
  {
    hide Accepted, DIST_BASE, DIST_EXTRA;
    Rows();
  }

  /** The distance symbol and its extra bits. */
  lemma DistanceRead(cfg: Config, bits: seq<bool>, m: Machine, d: nat, y: nat)
    requires Sound(cfg, m) && m.ctl.DistSymbol? && d <= 29 && HasCode(m.ctl.dist, d) && y < Pow2(DIST_EXTRA[d])
    requires Next(bits, m.pos, Codeword(m.ctl.dist, d) + ToBits(y, DIST_EXTRA[d]))
    requires cfg.wrap || 1 <= DIST_BASE[d] + y <= |m.out|
    ensures Leads(cfg, bits, m, m.(
      ctl := Copy(m.ctl.final, m.ctl.lit, m.ctl.dist, m.ctl.length, DIST_BASE[d] + y),
      pos := m.pos + m.ctl.dist[d] + DIST_EXTRA[d]))
  {
    hide Codeword, Step, Accepted, Leads, ToBits, DIST_BASE, DIST_EXTRA, TakeSymbol, Pow2, Resolve;
    Rows();
    PowersTo5();
    DistancePlace(cfg, |m.out|, m.ctl, d, m.ctl.dist[d]);
    NextSplit(bits, m.pos, Codeword(m.ctl.dist, d), ToBits(y, DIST_EXTRA[d]));
    SymbolRead(cfg, bits, m, d);
    OneLeads(cfg, bits, m);
    var n := Step(cfg, bits, m);
    if DIST_EXTRA[d] > 0 {
      NumberRead(cfg, bits, n, y);
      OneLeads(cfg, bits, n);
      LeadsOn(cfg, bits, m, n, Step(cfg, bits, n));
    }
  }

  /** The copy, and back to symbols. */
  lemma CopyDone(cfg: Config, bits: seq<bool>, m: Machine)
    requires Sound(cfg, m) && m.ctl.Copy?
    ensures 1 <= Back(cfg, m.ctl.distance) <= |m.out|
    ensures Leads(cfg, bits, m, m.(
      ctl := Symbols(m.ctl.final, m.ctl.lit, m.ctl.dist),
      out := Extended(m.out, Back(cfg, m.ctl.distance), m.ctl.left)))
  {
    hide Step, Accepted, Back, Extended;
    BackInside(cfg, m);
    CopyRuns(cfg, bits, m, m.ctl.left);
    var n := Run(cfg, bits, m, m.ctl.left);
    assert Leads(cfg, bits, m, n);
    NothingLeft(cfg, bits, n);
    OneLeads(cfg, bits, n);
    LeadsOn(cfg, bits, m, n, Step(cfg, bits, n));
  }

  lemma NothingLeft(cfg: Config, bits: seq<bool>, m: Machine)
    requires Sound(cfg, m) && m.ctl.Copy? && m.ctl.left == 0
    ensures Step(cfg, bits, m) == m.(ctl := Symbols(m.ctl.final, m.ctl.lit, m.ctl.dist))
  {
    hide Accepted;
  }

  lemma SymbolsReached(cfg: Config, m: Machine)
    requires Sound(cfg, m) && m.ctl.Symbols?
    ensures Reached(m.ctl)
  {
  }

  /** Both symbols of a match, with their extra bits. */
  lemma PartsRead(cfg: Config, bits: seq<bool>, m: Machine, l: nat, x: nat, d: nat, y: nat)
    requires Sound(cfg, m) && m.ctl.Symbols? && l <= 28 && x < Pow2(LENGTH_EXTRA[l]) && d <= 29 && y < Pow2(DIST_EXTRA[d])
    requires HasCode(m.ctl.lit, 257 + l) && HasCode(m.ctl.dist, d)
    requires Next(bits, m.pos, PartsBits(m.ctl.lit, m.ctl.dist, l, x, d, y))
    requires cfg.wrap || 1 <= DIST_BASE[d] + y <= |m.out|
    ensures Leads(cfg, bits, m, m.(
      ctl := Copy(m.ctl.final, m.ctl.lit, m.ctl.dist, LENGTH_BASE[l] + x, DIST_BASE[d] + y),
      pos := m.pos + |PartsBits(m.ctl.lit, m.ctl.dist, l, x, d, y)|))
  {
    hide Codeword, Accepted, Leads, ToBits, Run, Step, LENGTH_BASE, LENGTH_EXTRA, DIST_BASE, DIST_EXTRA, Pow2, Sound, Next;
    Rows();
    var a := Codeword(m.ctl.lit, 257 + l) + ToBits(x, LENGTH_EXTRA[l]);
    var b := Codeword(m.ctl.dist, d) + ToBits(y, DIST_EXTRA[d]);
    NextSplit(bits, m.pos, a, b);
    LengthRead(cfg, bits, m, l, x);
    var n := m.(ctl := DistSymbol(m.ctl.final, m.ctl.lit, m.ctl.dist, LENGTH_BASE[l] + x), pos := m.pos + |a|);
    LeadsSound(cfg, bits, m, n);
    DistanceRead(cfg, bits, n, d, y);
    LeadsOn(cfg, bits, m, n, n.(
      ctl := Copy(m.ctl.final, m.ctl.lit, m.ctl.dist, LENGTH_BASE[l] + x, DIST_BASE[d] + y), pos := n.pos + |b|));
  }

  lemma MatchRead(cfg: Config, bits: seq<bool>, m: Machine, length: nat, distance: nat)
    requires Sound(cfg, m) && m.ctl.Symbols? && Codable(m.ctl.lit, m.ctl.dist, Match(length, distance))
    requires Next(bits, m.pos, TokenBits(m.ctl.lit, m.ctl.dist, Match(length, distance)))
    requires cfg.wrap || 1 <= distance <= |m.out|
    ensures 1 <= Back(cfg, distance) <= |m.out|
    ensures Leads(cfg, bits, m, m.(
      pos := m.pos + |TokenBits(m.ctl.lit, m.ctl.dist, Match(length, distance))|,
      out := Extended(m.out, Back(cfg, distance), length)))
  {
    hide Accepted, Leads, Extended, Back, Run, Step, LENGTH_BASE, LENGTH_EXTRA, DIST_BASE, DIST_EXTRA, FindLength,
      FindDistance, Pow2, Sound, Next, PartsBits;
    SymbolsReached(cfg, m);
    Rows();
    var (l, x) := FindLength(length, 28);
    var (d, y) := FindDistance(distance, 29);
    PartsRead(cfg, bits, m, l, x, d, y);
    var o := m.(ctl := Copy(m.ctl.final, m.ctl.lit, m.ctl.dist, length, distance),
      pos := m.pos + |PartsBits(m.ctl.lit, m.ctl.dist, l, x, d, y)|);
    LeadsSound(cfg, bits, m, o);
    CopyDone(cfg, bits, o);
    LeadsOn(cfg, bits, m, o, o.(ctl := m.ctl, out := Extended(m.out, Back(cfg, distance), length)));
  }

  /** A block of any tokens, coded with any tables that have words for them, puts out what the
      tokens mean. */
  lemma {:induction false} BlockRead(cfg: Config, bits: seq<bool>, m: Machine, ts: seq<Token>)
    requires Sound(cfg, m) && m.ctl.Symbols? && AllCodable(m.ctl.lit, m.ctl.dist, ts) && HasCode(m.ctl.lit, 256)
    requires Within(cfg, |m.out|, ts) && Next(bits, m.pos, BlockBits(m.ctl.lit, m.ctl.dist, ts))
    ensures Leads(cfg, bits, m, m.(
      ctl := AfterBlock(m.ctl.final),
      pos := m.pos + |BlockBits(m.ctl.lit, m.ctl.dist, ts)|,
      out := Expand(cfg, m.out, ts)))
    decreases |ts|
  {
    hide Codeword, Accepted, Leads, TokenBits, Extended, Back, Step, Run, Resolve, Next, Pow2, Codable, NumberBits;
    var lit, dist := m.ctl.lit, m.ctl.dist;
    if ts == [] {
      SymbolRead(cfg, bits, m, 256);
      OneLeads(cfg, bits, m);
    } else {
      var t := ts[0];
      NextSplit(bits, m.pos, TokenBits(lit, dist, t), BlockBits(lit, dist, ts[1..]));
      var n := TokenRead(cfg, bits, m, t);
      BlockRead(cfg, bits, n, ts[1..]);
      LeadsOn(cfg, bits, m, n, n.(
        ctl := AfterBlock(m.ctl.final),
        pos := n.pos + |BlockBits(lit, dist, ts[1..])|,
        out := Expand(cfg, n.out, ts[1..])));
    }
  }

  lemma TokenRead(cfg: Config, bits: seq<bool>, m: Machine, t: Token) returns (n: Machine)
    requires Sound(cfg, m) && m.ctl.Symbols? && Codable(m.ctl.lit, m.ctl.dist, t)
    requires Next(bits, m.pos, TokenBits(m.ctl.lit, m.ctl.dist, t))
    requires t.Match? ==> cfg.wrap || 1 <= t.distance <= |m.out|
    ensures t.Match? ==> 1 <= Back(cfg, t.distance) <= |m.out|
    ensures n == m.(pos := m.pos + |TokenBits(m.ctl.lit, m.ctl.dist, t)|,
      out := if t.Plain? then m.out + [t.c] else Extended(m.out, Back(cfg, t.distance), t.length))
    ensures Sound(cfg, n) && Leads(cfg, bits, m, n)
  {
    hide Codeword, Accepted, Leads, Extended, Back, Run, Step, Resolve, Next, Pow2, FindLength, FindDistance;
    match t
    case Plain(c) =>
      PlainRead(cfg, bits, m, c);
      n := m.(pos := m.pos + m.ctl.lit[c], out := m.out + [c]);
    case Match(length, distance) =>
      MatchRead(cfg, bits, m, length, distance);
      n := m.(pos := m.pos + |TokenBits(m.ctl.lit, m.ctl.dist, t)|, out := Extended(m.out, Back(cfg, distance), length));
  }

  // ----- the fixed code has words for all tokens -----

  lemma FixedHasAll(s: nat)
    ensures s < 288 ==> HasCode(FIXED_LIT, s)
    ensures s < 32 ==> HasCode(FIXED_DIST, s)
  {
  }

  lemma FixedCodesAll(ts: seq<Token>)
    requires forall i :: 0 <= i < |ts| ==> TokenOk(ts[i])
    ensures AllCodable(FIXED_LIT, FIXED_DIST, ts) && HasCode(FIXED_LIT, 256)
  {
    FixedHasAll(256);
    forall i | 0 <= i < |ts|
      ensures Codable(FIXED_LIT, FIXED_DIST, ts[i])
    {
      match ts[i]
      case Plain(c) => FixedHasAll(c);
      case Match(length, distance) =>
        FixedHasAll(257 + FindLength(length, 28).0);
        FixedHasAll(FindDistance(distance, 29).0);
    }
  }

  lemma TrailerRead(cfg: Config, bits: seq<bool>, m: Machine)
    requires Sound(cfg, m) && m.ctl.Trailer?
    ensures Leads(cfg, bits, m, m.(ctl := AfterTrailer(cfg), pos := Aligned(m.pos)))
  {
    hide Leads, Run;
    OneLeads(cfg, bits, m);
  }
}
