/** Inflating as a machine on the whole bit stream and the whole output.

    Nothing here knows about input pieces, look-ahead, tables or windows: a step takes the bits it
    needs from the stream at `pos`, or appends to the output. */
module InflateLogic {
  import opened Bits
  import opened Options
  import opened InflateCode
  import opened InflateTables
  import opened InflateStream

  /** The flags that matter: a zlib stream, and an output window of `window` bytes that wraps. */
  datatype Config = Config(zlib: bool, wrap: bool, window: nat)

  /** Where `tinfl_decompress` is, with the variables that are live there. */
  datatype Control =
    | ZlibHeader(got: seq<nat>)
    | BlockHeader
    | StoredStart(final: bool)
    | StoredHeader(final: bool, got: seq<nat>)
    | Stored(final: bool, left: nat)
    | StoredByte(final: bool, left: nat, c: byte)
    | TableSizes(final: bool, got: seq<nat>)
    | CodeSizes(final: bool, counts: seq<nat>, got: seq<nat>)
    | BuildCode(final: bool, counts: seq<nat>, clen: seq<nat>)
    | LenCodes(final: bool, counts: seq<nat>, clen: seq<nat>, lens: seq<nat>)
    | Repeat(final: bool, counts: seq<nat>, clen: seq<nat>, lens: seq<nat>, sym: nat)
    | BuildTables(final: bool, lit: seq<nat>, dist: seq<nat>)
    | Symbols(final: bool, lit: seq<nat>, dist: seq<nat>)
    | Literal(final: bool, lit: seq<nat>, dist: seq<nat>, c: byte)
    | LengthExtra(final: bool, lit: seq<nat>, dist: seq<nat>, length: nat, extra: nat)
    | DistSymbol(final: bool, lit: seq<nat>, dist: seq<nat>, length: nat)
    | DistExtra(final: bool, lit: seq<nat>, dist: seq<nat>, length: nat, distance: nat, extra: nat)
    | Copy(final: bool, lit: seq<nat>, dist: seq<nat>, left: nat, distance: nat)
    | Trailer
    | Checksum(got: seq<nat>)
    | Done(checksum: seq<nat>)
    | Failed
    | Hole   // bits within ten of which no literal/length code begins

  /** `holed` is set once a symbol was read where no code begins. */
  datatype Machine = Machine(ctl: Control, pos: nat, out: seq<byte>, holed: bool)

  const LENGTH_BASE: seq<nat> := [
    3, 4, 5, 6, 7, 8, 9, 10, 11, 13, 15, 17, 19, 23, 27, 31, 35, 43, 51, 59, 67, 83, 99, 115, 131, 163, 195, 227,
    258, 0, 0]
  const LENGTH_EXTRA: seq<nat> := [
    0, 0, 0, 0, 0, 0, 0, 0, 1, 1, 1, 1, 2, 2, 2, 2, 3, 3, 3, 3, 4, 4, 4, 4, 5, 5, 5, 5, 0, 0, 0]
  const DIST_BASE: seq<nat> := [
    1, 2, 3, 4, 5, 7, 9, 13, 17, 25, 33, 49, 65, 97, 129, 193, 257, 385, 513, 769, 1025, 1537, 2049, 3073, 4097,
    6145, 8193, 12289, 16385, 24577, 0, 0]
  const DIST_EXTRA: seq<nat> := [
    0, 0, 0, 0, 1, 1, 2, 2, 3, 3, 4, 4, 5, 5, 6, 6, 7, 7, 8, 8, 9, 9, 10, 10, 11, 11, 12, 12, 13, 13, 0, 0]
  const DEZIGZAG: seq<nat> := [16, 17, 18, 0, 8, 7, 9, 6, 10, 5, 11, 4, 12, 3, 13, 2, 14, 1, 15]
  const MIN_TABLE_SIZES: seq<nat> := [257, 1, 4]
  const TABLE_SIZE_BITS: seq<nat> := [5, 5, 4]
  const REPEAT_BITS: seq<nat> := [2, 3, 7]
  const REPEAT_BASE: seq<nat> := [3, 3, 11]

  lemma Rows()
    ensures |LENGTH_BASE| == |LENGTH_EXTRA| == 31 && |DIST_BASE| == |DIST_EXTRA| == 32
    ensures forall i :: 0 <= i < 31 ==> LENGTH_EXTRA[i] <= 5
    ensures forall i :: 0 <= i < 32 ==> DIST_EXTRA[i] <= 13
  {
  }

  function Same(l: nat, n: nat): (s: seq<nat>)
    ensures |s| == n && forall i :: 0 <= i < n ==> s[i] == l
  {
    seq(n, _ => l)
  }

  /** The fixed code of section 3.2.6 of RFC 1951. */
  const FIXED_LIT: seq<nat> := Same(8, 144) + Same(9, 112) + Same(7, 24) + Same(8, 8)
  const FIXED_DIST: seq<nat> := Same(5, 32)

  // ----- well-formed control -----

  predicate Small(got: seq<nat>, n: nat) {
    |got| <= n && forall i :: 0 <= i < |got| ==> got[i] < 256
  }

  predicate Counts(c: seq<nat>) {
    |c| == 3 && 257 <= c[0] <= 288 && 1 <= c[1] <= 32 && 4 <= c[2] <= 19
  }

  predicate AtMost(s: seq<nat>, m: nat) {
    forall i :: 0 <= i < |s| ==> s[i] <= m
  }

  predicate Codes(lit: seq<nat>, dist: seq<nat>) {
    Accepted(lit) && Accepted(dist) && 1 <= |lit| <= 288 && 1 <= |dist| <= 32
  }

  predicate Reached(c: Control) {
    match c
    case ZlibHeader(got) => Small(got, 1)
    case StoredHeader(_, got) => Small(got, 3)
    case Stored(_, left) => left < 65536
    case StoredByte(_, left, _) => 0 < left < 65536
    case TableSizes(_, got) => |got| < 3 && forall i :: 0 <= i < |got| ==>
      MIN_TABLE_SIZES[i] <= got[i] < MIN_TABLE_SIZES[i] + Pow2(TABLE_SIZE_BITS[i])
    case CodeSizes(_, counts, got) => Counts(counts) && |got| < counts[2] && AtMost(got, 7)
    case BuildCode(_, counts, clen) => Counts(counts) && |clen| == 19 && AtMost(clen, 7)
    case LenCodes(_, counts, clen, lens) =>
      Counts(counts) && |clen| == 19 && Accepted(clen) && AtMost(lens, 15) && |lens| < counts[0] + counts[1]
    case Repeat(_, counts, clen, lens, sym) =>
      Counts(counts) && |clen| == 19 && Accepted(clen) && AtMost(lens, 15) && |lens| < counts[0] + counts[1]
      && 16 <= sym <= 18 && (sym == 16 ==> lens != [])
    case BuildTables(_, lit, dist) => 1 <= |lit| <= 288 && 1 <= |dist| <= 32 && AtMost(lit, 15) && AtMost(dist, 15)
    case Symbols(_, lit, dist) => Codes(lit, dist)
    case Literal(_, lit, dist, _) => Codes(lit, dist)
    case LengthExtra(_, lit, dist, length, extra) => Codes(lit, dist) && 0 < extra <= 5
    case DistSymbol(_, lit, dist, length) => Codes(lit, dist)
    case DistExtra(_, lit, dist, length, distance, extra) => Codes(lit, dist) && 0 < extra <= 13
    case Copy(_, lit, dist, left, distance) => Codes(lit, dist)
    case Checksum(got) => Small(got, 3)
    case Done(checksum) => Small(checksum, 4)
    case _ => true
  }

  /** A match without a window begins inside the output. */
  predicate Inside(cfg: Config, out: nat, c: Control) {
    c.Copy? && !cfg.wrap ==> 1 <= c.distance <= out
  }

  // ----- what follows what -----

  /** Both header bytes are there: the checks of a zlib header. */
  function AfterZlib(cfg: Config, cmf: nat, flg: nat): (c: Control)
    ensures Reached(c) && !c.Copy? && !c.Hole?
  {
    var bad := (cmf * 256 + flg) % 31 != 0 || flg / 32 % 2 == 1 || cmf % 16 != 8;
    var size := Pow2(8 + cmf / 16);
    if bad || (cfg.wrap && (size > 32768 || cfg.window < size)) then Failed else BlockHeader
  }

  /** Section 2.2 of RFC 1950: which headers are let through.  CM, the low four bits of the first byte,
      is 8; FDICT, bit 5 of the second, is off; both bytes together are a multiple of 31; and with a
      window that wraps, CINFO, the high four bits of the first byte, is at most 7 and asks for no more
      than there is. */
  lemma ZlibHeaders(cfg: Config, cmf: byte, flg: byte)
    ensures var cinfo := FromBits(ToBits(cmf, 8)[4..]);
      AfterZlib(cfg, cmf, flg) ==
        if FromBits(ToBits(cmf, 8)[..4]) == 8 && !ToBits(flg, 8)[5] && (256 * cmf + flg) % 31 == 0
           && (cfg.wrap ==> cinfo <= 7 && Pow2(8 + cinfo) <= cfg.window)
        then BlockHeader else Failed
  {
    hide FromBits, ToBits, Pow2;
    var a, b := ToBits(cmf, 8), ToBits(flg, 8);
    ToFromByte(cmf);
    ToFromByte(flg);
    FromBitsSplit(a, 4);
    FromBitsSplit(b, 5);
    FirstBit(b[5..]);
    SmallPowers();
    WindowSizes(FromBits(a[4..]));
  }

  lemma WindowSizes(cinfo: nat)
    ensures Pow2(5) == 32 && (cinfo <= 15 ==> (Pow2(8 + cinfo) <= 32768 <==> cinfo <= 7))
  {
    hide Pow2;
    Pow15();
    SmallPowers();
    if cinfo <= 7 {
      Pow2Mono(8 + cinfo, 15);
    } else if cinfo <= 15 {
      Pow2Add(15, 1);
      assert Pow2(1) == 2 by {
        OnePower();
      }
      Pow2Mono(16, 8 + cinfo);
    }
  }

  lemma OnePower()
    ensures Pow2(1) == 2
  {
  }

  function AfterHeader(header: nat): (c: Control)
    requires header < 8
    ensures Reached(c) && !c.Copy? && !c.Hole?
  {
    var final, kind := header % 2 == 1, header / 2;
    if kind == 0 then StoredStart(final)
    else if kind == 1 then BuildTables(final, FIXED_LIT, FIXED_DIST)
    else if kind == 2 then TableSizes(final, [])
    else Failed
  }

  /** The tables are built, the distance table first. */
  function AfterTables(final: bool, lit: seq<nat>, dist: seq<nat>): (c: Control)
    requires 1 <= |lit| <= 288 && 1 <= |dist| <= 32
    ensures Reached(c) && !c.Copy? && !c.Hole?
  {
    if Accepted(dist) && Accepted(lit) then Symbols(final, lit, dist) else Failed
  }

  /** The table of the code-length code is built. */
  function AfterCode(final: bool, counts: seq<nat>, clen: seq<nat>): (c: Control)
    requires Counts(counts) && |clen| == 19 && AtMost(clen, 7)
    ensures Reached(c) && !c.Copy? && !c.Hole?
  {
    if Accepted(clen) then LenCodes(final, counts, clen, []) else Failed
  }

  /** All four bytes of a stored block's header are there. */
  function AfterStoredHeader(final: bool, h: seq<nat>): (c: Control)
    requires |h| == 4 && Small(h, 4)
    ensures Reached(c) && !c.Copy? && !c.Hole?
  {
    var len, nlen := h[0] + 256 * h[1], h[2] + 256 * h[3];
    if len != 65535 - nlen then Failed else Stored(final, len)
  }

  function AfterBlock(final: bool): (c: Control)
    ensures Reached(c) && !c.Copy? && !c.Hole?
  {
    if final then Trailer else BlockHeader
  }

  /** The lengths of the code-length code, put in their places. */
  function Placed(got: seq<nat>, n: nat): (sizes: seq<nat>)
    requires n <= |got| <= 19
    ensures |sizes| == 19 && (AtMost(got, 7) ==> AtMost(sizes, 7))
  {
    if n == 0 then Same(0, 19) else Placed(got, n - 1)[DEZIGZAG[n - 1] := got[n - 1]]
  }

  /** One of the three numbers of codes. */
  function AfterTableSize(final: bool, got: seq<nat>, v: nat): (c: Control)
    requires Reached(TableSizes(final, got)) && v < Pow2(TABLE_SIZE_BITS[|got|])
    ensures Reached(c) && !c.Copy? && !c.Hole?
  {
    SmallPowers();
    var more := got + [v + MIN_TABLE_SIZES[|got|]];
    if |more| < 3 then TableSizes(final, more) else AfterCodeSizes(final, more, [])
  }

  function AfterCodeSizes(final: bool, counts: seq<nat>, got: seq<nat>): (c: Control)
    requires Counts(counts) && |got| <= counts[2] && AtMost(got, 7)
    ensures Reached(c) && !c.Copy? && !c.Hole?
  {
    if |got| < counts[2] then CodeSizes(final, counts, got)
    else BuildCode(final, counts, Placed(got, |got|))
  }

  function AfterLengths(final: bool, counts: seq<nat>, clen: seq<nat>, lens: seq<nat>): (c: Control)
    requires Counts(counts) && |clen| == 19 && Accepted(clen) && AtMost(lens, 15)
    ensures Reached(c) && !c.Copy? && !c.Hole?
  {
    var total := counts[0] + counts[1];
    if |lens| < total then LenCodes(final, counts, clen, lens)
    else if |lens| > total then Failed
    else BuildTables(final, lens[..counts[0]], lens[counts[0]..])
  }

  function AfterLength(final: bool, counts: seq<nat>, clen: seq<nat>, lens: seq<nat>, sym: nat): (c: Control)
    requires Counts(counts) && |clen| == 19 && Accepted(clen) && AtMost(lens, 15) && |lens| < counts[0] + counts[1]
    requires sym < 19
    ensures Reached(c) && !c.Copy? && !c.Hole?
  {
    if sym < 16 then AfterLengths(final, counts, clen, lens + [sym])
    else if sym == 16 && lens == [] then Failed
    else Repeat(final, counts, clen, lens, sym)
  }

  function AfterRepeat(final: bool, counts: seq<nat>, clen: seq<nat>, lens: seq<nat>, sym: nat, extra: nat): (c: Control)
    requires Counts(counts) && |clen| == 19 && Accepted(clen) && AtMost(lens, 15)
    requires 16 <= sym <= 18 && (sym == 16 ==> lens != [])
    ensures Reached(c) && !c.Copy? && !c.Hole?
  {
    var n := extra + REPEAT_BASE[sym - 16];
    AfterLengths(final, counts, clen, lens + Same(if sym == 16 then lens[|lens| - 1] else 0, n))
  }

  /** A literal, the end of the block, or the first part of a match. */
  function AfterSymbol(final: bool, lit: seq<nat>, dist: seq<nat>, sym: nat): (c: Control)
    requires Codes(lit, dist) && sym < 288
    ensures Reached(c) && !c.Copy? && !c.Hole?
  {
    hide LENGTH_BASE, LENGTH_EXTRA, Codes;
    Rows();
    if sym < 256 then Literal(final, lit, dist, sym)
    else if sym == 256 then AfterBlock(final)
    else
      var extra, base := LENGTH_EXTRA[sym - 257], LENGTH_BASE[sym - 257];
      if extra > 0 then LengthExtra(final, lit, dist, base, extra) else DistSymbol(final, lit, dist, base)
  }

  function AfterDistSymbol(cfg: Config, out: nat, final: bool, lit: seq<nat>, dist: seq<nat>, length: nat, sym: nat)
    : (c: Control)
    requires Codes(lit, dist) && sym < 32
    ensures Reached(c) && Inside(cfg, out, c) && !c.Hole?
  {
    hide DIST_BASE, DIST_EXTRA, Codes;
    Rows();
    var extra, base := DIST_EXTRA[sym], DIST_BASE[sym];
    if extra > 0 then DistExtra(final, lit, dist, length, base, extra)
    else AfterDistance(cfg, out, final, lit, dist, length, base)
  }

  /** Without a window, a match must begin inside the output. */
  function AfterDistance(cfg: Config, out: nat, final: bool, lit: seq<nat>, dist: seq<nat>, length: nat, distance: nat)
    : (c: Control)
    requires Codes(lit, dist)
    ensures Reached(c) && Inside(cfg, out, c) && !c.Hole?
  {
    if !cfg.wrap && (distance == 0 || distance > out) then Failed else Copy(final, lit, dist, length, distance)
  }

  /** How far back a distance reaches: within a window it wraps. */
  function Back(cfg: Config, distance: nat): (d: int)
  {
    if cfg.wrap && cfg.window > 0 then (distance - 1) % cfg.window + 1 else distance
  }

  function AfterTrailer(cfg: Config): (c: Control)
    ensures Reached(c) && !c.Copy? && !c.Hole?
  {
    if cfg.zlib then Checksum([]) else Done([])
  }

  function AfterChecksum(got: seq<nat>): (c: Control)
    requires Small(got, 4)
    ensures Reached(c) && !c.Copy? && !c.Hole?
  {
    if |got| < 4 then Checksum(got) else Done(got)
  }

  /** A match with `left` bytes to go. */
  function Leaving(c: Control, left: nat): (d: Control)
    requires c.Copy?
    ensures d.Copy? && d.left == left && d.distance == c.distance
  {
    Copy(c.final, c.lit, c.dist, left, c.distance)
  }

  // ----- steps -----

  /** `n` bits as a number, or none if the stream ends before. */
  function Number(bits: seq<bool>, pos: nat, n: nat): (v: Option<nat>)
    ensures v.Some? ==> v.value < Pow2(n)
  {
    if pos + n <= |bits| then Some(FromBits(bits[pos..pos + n])) else None
  }

  ghost function Symbol(sizes: seq<nat>, bits: seq<bool>, pos: nat): (a: Option<(nat, nat)>) {
    if pos <= |bits| then Resolve(sizes, bits[pos..]) else None
  }

  predicate Sound(cfg: Config, m: Machine) {
    && Reached(m.ctl)
    && (cfg.wrap ==> 0 < cfg.window <= |m.out|)
    && Inside(cfg, |m.out|, m.ctl)
  }

  lemma SmallPowers()
    ensures Pow2(8) == 256 && Pow2(5) == 32 && Pow2(4) == 16 && Pow2(3) == 8
  {
  }

  /** A number read at a place that asks for one. */
  function TakeNumber(cfg: Config, out: nat, c: Control, v: nat): (d: Control)
    requires Reached(c) && NumberBits(c) > 0 && v < Pow2(NumberBits(c))
    ensures Reached(d) && Inside(cfg, out, d) && !d.Hole?
  {
    hide AfterZlib, AfterHeader, AfterStoredHeader, TakeTableNumber, AfterDistance, AfterChecksum, Accepted, Pow2,
      Codes;
    SmallPowers();
    match c
    case ZlibHeader(got) => if got == [] then ZlibHeader([v]) else AfterZlib(cfg, got[0], v)
    case BlockHeader => AfterHeader(v)
    case StoredHeader(final, got) =>
      if |got| < 3 then StoredHeader(final, got + [v]) else AfterStoredHeader(final, got + [v])
    case Stored(final, left) => StoredByte(final, left, v)
    case LengthExtra(final, lit, dist, length, extra) => DistSymbol(final, lit, dist, length + v)
    case DistExtra(final, lit, dist, length, distance, extra) =>
      AfterDistance(cfg, out, final, lit, dist, length, distance + v)
    case Checksum(got) => AfterChecksum(got + [v])
    case TableSizes(_, _) => TakeTableNumber(c, v)
    case CodeSizes(_, _, _) => TakeTableNumber(c, v)
    case Repeat(_, _, _, _, _) => TakeTableNumber(c, v)
  }

  /** The same inside the header of a block with its own tables. */
  function TakeTableNumber(c: Control, v: nat): (d: Control)
    requires Reached(c) && (c.TableSizes? || c.CodeSizes? || c.Repeat?) && v < Pow2(NumberBits(c))
    ensures Reached(d) && !d.Copy? && !d.Hole?
  {
    hide AfterTableSize, AfterCodeSizes, AfterRepeat, Accepted, Pow2;
    SmallPowers();
    match c
    case TableSizes(final, got) => AfterTableSize(final, got, v)
    case CodeSizes(final, counts, got) => AfterCodeSizes(final, counts, got + [v])
    case Repeat(final, counts, clen, lens, sym) => AfterRepeat(final, counts, clen, lens, sym, v)
  }

  /** How many bits the place asks for; 0 if it asks for none. */
  function NumberBits(c: Control): (n: nat)
    requires Reached(c)
    ensures n <= 16
  {
    match c
    case ZlibHeader(_) => 8
    case BlockHeader => 3
    case StoredHeader(_, _) => 8
    case Stored(_, left) => if left > 0 then 8 else 0
    case TableSizes(_, got) => TABLE_SIZE_BITS[|got|]
    case CodeSizes(_, _, _) => 3
    case Repeat(_, _, _, _, sym) => REPEAT_BITS[sym - 16]
    case LengthExtra(_, _, _, _, extra) => extra
    case DistExtra(_, _, _, _, _, extra) => extra
    case Checksum(_) => 8
    case _ => 0
  }

  function Aligned(pos: nat): (p: nat)
    ensures pos <= p < pos + 8 && p % 8 == 0
  {
    (pos + 7) / 8 * 8
  }

  /** A symbol read at a place that asks for one. */
  function TakeSymbol(cfg: Config, out: nat, c: Control, sym: nat, len: nat): (d: Control)
    requires Reached(c) && (c.LenCodes? || c.Symbols? || c.DistSymbol?)
    requires (sym == 0 || sym < |SymbolSizes(c)|)
    ensures Reached(d) && Inside(cfg, out, d)
  {
    hide AfterLength, AfterSymbol, AfterDistSymbol, Accepted;
    match c
    case LenCodes(final, counts, clen, lens) => AfterLength(final, counts, clen, lens, sym)
    case Symbols(final, lit, dist) => if len == 0 then Hole else AfterSymbol(final, lit, dist, sym)
    case DistSymbol(final, lit, dist, length) => AfterDistSymbol(cfg, out, final, lit, dist, length, sym)
  }

  /** The code whose symbol the place asks for; none if it asks for none. */
  function SymbolSizes(c: Control): (sizes: seq<nat>)
    requires Reached(c)
    ensures sizes != [] ==> Accepted(sizes)
  {
    match c
    case LenCodes(_, _, clen, _) => clen
    case Symbols(_, lit, _) => lit
    case DistSymbol(_, _, dist, _) => dist
    case _ => []
  }

  /** The byte that a place puts out, and what follows it. */
  function Emits(cfg: Config, m: Machine): (e: Option<(byte, Control)>)
    requires Sound(cfg, m)
    ensures e.Some? ==> Reached(e.value.1) && Inside(cfg, |m.out| + 1, e.value.1)
  {
    match m.ctl
    case StoredByte(final, left, c) => Some((c, Stored(final, left - 1)))
    case Literal(final, lit, dist, c) => Some((c, Symbols(final, lit, dist)))
    case Copy(final, lit, dist, left, distance) =>
      if left == 0 then None
      else
        BackInside(cfg, m);
        Some((m.out[|m.out| - Back(cfg, distance)], Copy(final, lit, dist, left - 1, distance)))
    case _ => None
  }

  lemma BackInside(cfg: Config, m: Machine)
    requires Sound(cfg, m) && m.ctl.Copy?
    ensures 1 <= Back(cfg, m.ctl.distance) <= |m.out|
    ensures cfg.wrap ==> Back(cfg, m.ctl.distance) <= cfg.window
  {
  }

  /** Places that need neither bits nor room. */
  function Moves(cfg: Config, c: Control, pos: nat): (d: (Control, nat))
    requires Reached(c)
    ensures Reached(d.0) && (!c.Copy? ==> !d.0.Copy?)
  {
    match c
    case StoredStart(final) => (StoredHeader(final, []), Aligned(pos))
    case BuildCode(final, counts, clen) => (AfterCode(final, counts, clen), pos)
    case BuildTables(final, lit, dist) => (AfterTables(final, lit, dist), pos)
    case Stored(final, left) => if left == 0 then (AfterBlock(final), pos) else (c, pos)
    case Copy(final, lit, dist, left, _) => if left == 0 then (Symbols(final, lit, dist), pos) else (c, pos)
    case Trailer => (AfterTrailer(cfg), Aligned(pos))
    case _ => (c, pos)
  }

  /** One step.  A machine that lacks bits stays where it is. */
  ghost function Step(cfg: Config, bits: seq<bool>, m: Machine): (t: Machine)
    requires Sound(cfg, m)
    ensures Sound(cfg, t) && m.out <= t.out
  {
    if NumberBits(m.ctl) > 0 then
      match Number(bits, m.pos, NumberBits(m.ctl))
      case None => m
      case Some(v) => m.(ctl := TakeNumber(cfg, |m.out|, m.ctl, v), pos := m.pos + NumberBits(m.ctl))
    else if SymbolSizes(m.ctl) != [] then
      match Symbol(SymbolSizes(m.ctl), bits, m.pos)
      case None => m
      case Some((sym, len)) =>
        MeaningAtMost15(SymbolSizes(m.ctl), Pad(bits[m.pos..], MAX_BITS));
        m.(ctl := TakeSymbol(cfg, |m.out|, m.ctl, sym, len), pos := m.pos + len, holed := m.holed || len == 0)
    else if Emits(cfg, m).Some? then
      m.(ctl := Emits(cfg, m).value.1, out := m.out + [Emits(cfg, m).value.0])
    else
      m.(ctl := Moves(cfg, m.ctl, m.pos).0, pos := Moves(cfg, m.ctl, m.pos).1)
  }

  ghost function Run(cfg: Config, bits: seq<bool>, m: Machine, n: nat): (t: Machine)
    requires Sound(cfg, m)
    ensures Sound(cfg, t)
  {
    if n == 0 then m else Step(cfg, bits, Run(cfg, bits, m, n - 1))
  }

  lemma {:induction false} RunAdd(cfg: Config, bits: seq<bool>, m: Machine, a: nat, b: nat)
    requires Sound(cfg, m)
    ensures Run(cfg, bits, Run(cfg, bits, m, a), b) == Run(cfg, bits, m, a + b)
  {
    hide Step;
    if b > 0 {
      RunAdd(cfg, bits, m, a, b - 1);
    }
  }

  /** A place that asks for bits asks for no symbol and no room. */
  lemma NumberPlace(cfg: Config, bits: seq<bool>, m: Machine, v: nat)
    requires Sound(cfg, m) && NumberBits(m.ctl) > 0 && Number(bits, m.pos, NumberBits(m.ctl)) == Some(v)
    ensures SymbolSizes(m.ctl) == [] && !m.ctl.Copy?
    ensures Step(cfg, bits, m) == m.(ctl := TakeNumber(cfg, |m.out|, m.ctl, v), pos := m.pos + NumberBits(m.ctl))
  {
    hide TakeNumber, Accepted;
  }

  /** The same for a place that asks for a symbol. */
  lemma SymbolPlace(cfg: Config, bits: seq<bool>, m: Machine, sym: nat, len: nat)
    requires Sound(cfg, m) && SymbolSizes(m.ctl) != [] && m.pos <= |bits|
    requires Resolve(SymbolSizes(m.ctl), bits[m.pos..]) == Some((sym, len))
    ensures m.ctl.LenCodes? || m.ctl.Symbols? || m.ctl.DistSymbol?
    ensures (sym == 0 || sym < |SymbolSizes(m.ctl)|) && (len == 0 ==> sym == 0)
    ensures Step(cfg, bits, m)
      == m.(ctl := TakeSymbol(cfg, |m.out|, m.ctl, sym, len), pos := m.pos + len, holed := m.holed || len == 0)
  {
    hide TakeSymbol, Meaning;
    MeaningAtMost15(SymbolSizes(m.ctl), Pad(bits[m.pos..], MAX_BITS));
  }

  lemma EmitPlace(cfg: Config, bits: seq<bool>, m: Machine)
    requires Sound(cfg, m) && (m.ctl.StoredByte? || m.ctl.Literal?)
    ensures var d :=
        if m.ctl.StoredByte? then Stored(m.ctl.final, m.ctl.left - 1) else Symbols(m.ctl.final, m.ctl.lit, m.ctl.dist);
      Step(cfg, bits, m) == m.(ctl := d, out := m.out + [m.ctl.c])
  {
    hide Accepted;
  }

  lemma NoSteps(cfg: Config, bits: seq<bool>, m: Machine)
    requires Sound(cfg, m)
    ensures Run(cfg, bits, m, 0) == m
  {
  }

  lemma OneStep(cfg: Config, bits: seq<bool>, m: Machine)
    requires Sound(cfg, m)
    ensures Run(cfg, bits, m, 1) == Step(cfg, bits, m)
  {
    assert Run(cfg, bits, m, 0) == m;
  }

  predicate Stopped(c: Control) {
    c.Done? || c.Failed? || c.Hole?
  }

  lemma StoppedStays(cfg: Config, bits: seq<bool>, m: Machine, n: nat)
    requires Sound(cfg, m) && Stopped(m.ctl)
    ensures Run(cfg, bits, m, n) == m
  {
    hide Step;
    StoppedStuck(cfg, bits, m);
    StuckStays(cfg, bits, m, n);
  }

  /** A machine that stays where it is for lack of bits stays for good. */
  lemma {:induction false} StuckStays(cfg: Config, bits: seq<bool>, m: Machine, n: nat)
    requires Sound(cfg, m) && Step(cfg, bits, m) == m
    ensures Run(cfg, bits, m, n) == m
  {
    hide Step;
    if n > 0 {
      StuckStays(cfg, bits, m, n - 1);
    }
  }

  /** A machine that has stopped is one that stays where it is. */
  lemma StoppedStuck(cfg: Config, bits: seq<bool>, m: Machine)
    requires Sound(cfg, m) && Stopped(m.ctl)
    ensures Step(cfg, bits, m) == m
  {
  }

  /** What was put out stays, whatever follows. */
  lemma {:induction false} OutputGrows(cfg: Config, bits: seq<bool>, m: Machine, a: nat, b: nat)
    requires Sound(cfg, m) && a <= b
    ensures Run(cfg, bits, m, a).out <= Run(cfg, bits, m, b).out
    decreases b - a
  {
    hide Step;
    if a < b {
      OutputGrows(cfg, bits, m, a, b - 1);
    }
  }

  lemma PlaceGrows(cfg: Config, bits: seq<bool>, m: Machine)
    requires Sound(cfg, m)
    ensures m.pos <= Step(cfg, bits, m).pos
  {
    hide TakeNumber, TakeSymbol, Accepted, Resolve, Meaning, Emits;
  }

  lemma {:induction false} OnTheWay(cfg: Config, bits: seq<bool>, m: Machine, k: nat)
    requires Sound(cfg, m)
    ensures m.pos <= Run(cfg, bits, m, k).pos && m.out <= Run(cfg, bits, m, k).out
    decreases k
  {
    hide Step;
    OutputGrows(cfg, bits, m, 0, k);
    if k > 0 {
      PlaceGrows(cfg, bits, Run(cfg, bits, m, k - 1));
      OnTheWay(cfg, bits, m, k - 1);
    }
  }

  /** Two ways of going through the same stream agree: on all output that both have made, and on
      everything once neither can go on, because it has stopped or because the stream is too short. */
  lemma SameResult(cfg: Config, bits: seq<bool>, m: Machine, a: nat, b: nat)
    requires Sound(cfg, m)
    ensures Run(cfg, bits, m, a).out <= Run(cfg, bits, m, b).out || Run(cfg, bits, m, b).out <= Run(cfg, bits, m, a).out
    ensures Step(cfg, bits, Run(cfg, bits, m, a)) == Run(cfg, bits, m, a) ==>
      Run(cfg, bits, m, b).out <= Run(cfg, bits, m, a).out
      && (Step(cfg, bits, Run(cfg, bits, m, b)) == Run(cfg, bits, m, b) ==> Run(cfg, bits, m, b) == Run(cfg, bits, m, a))
  {
    hide Step;
    if a <= b {
      SameFrom(cfg, bits, m, a, b);
    } else {
      SameFrom(cfg, bits, m, b, a);
    }
  }

  lemma SameFrom(cfg: Config, bits: seq<bool>, m: Machine, a: nat, b: nat)
    requires Sound(cfg, m) && a <= b
    ensures Run(cfg, bits, m, a).out <= Run(cfg, bits, m, b).out
    ensures Step(cfg, bits, Run(cfg, bits, m, a)) == Run(cfg, bits, m, a) ==> Run(cfg, bits, m, a) == Run(cfg, bits, m, b)
  {
    hide Step;
    OutputGrows(cfg, bits, m, a, b);
    if Step(cfg, bits, Run(cfg, bits, m, a)) == Run(cfg, bits, m, a) {
      RunAdd(cfg, bits, m, a, b - a);
      StuckStays(cfg, bits, Run(cfg, bits, m, a), b - a);
    }
  }

  /** A run that meets a hole sooner or later has met it wherever it cannot go on. */
  lemma HoleEnds(cfg: Config, bits: seq<bool>, m: Machine, a: nat, b: nat)
    requires Sound(cfg, m) && Run(cfg, bits, m, b).ctl.Hole?
    requires Step(cfg, bits, Run(cfg, bits, m, a)) == Run(cfg, bits, m, a)
    ensures Run(cfg, bits, m, a).ctl.Hole?
  {
    hide Step;
    StoppedStuck(cfg, bits, Run(cfg, bits, m, b));
    SameResult(cfg, bits, m, a, b);
  }

  // ----- the fixed code -----

  lemma {:induction false} CountConcat(a: seq<nat>, b: seq<nat>, n: nat, l: nat)
    requires n <= |b|
    ensures Count(a + b, |a| + n, l) == Count(a, |a|, l) + Count(b, n, l)
  {
    if n > 0 {
      CountConcat(a, b, n - 1, l);
    } else {
      CountPrefix(a, b, |a|, l);
    }
  }

  lemma {:induction false} CountPrefix(a: seq<nat>, b: seq<nat>, n: nat, l: nat)
    requires n <= |a|
    ensures Count(a + b, n, l) == Count(a, n, l)
  {
    if n > 0 {
      CountPrefix(a, b, n - 1, l);
    }
  }

  lemma {:induction false} CountRun(k: nat, n: nat, m: nat, l: nat)
    requires m <= n
    ensures Count(Same(k, n), m, l) == if k == l then m else 0
  {
    if m > 0 {
      CountRun(k, n, m - 1, l);
    }
  }

  lemma FixedCounts(l: nat)
    ensures Count(FIXED_LIT, 288, l) == if l == 7 then 24 else if l == 8 then 152 else if l == 9 then 112 else 0
    ensures Count(FIXED_DIST, 32, l) == if l == 5 then 32 else 0
  {
    CountRun(8, 144, 144, l);
    CountRun(9, 112, 112, l);
    CountRun(7, 24, 24, l);
    CountRun(8, 8, 8, l);
    CountRun(5, 32, 32, l);
    var a, b, c := Same(8, 144), Same(9, 112), Same(7, 24);
    CountConcat(a, b, 112, l);
    CountConcat(a + b, c, 24, l);
    CountConcat(a + b + c, Same(8, 8), 8, l);
  }

  /** The fixed code is complete. */
  lemma FixedComplete()
    ensures Codes(FIXED_LIT, FIXED_DIST)
    ensures NextCode(FIXED_LIT, 16) == NextCode(FIXED_DIST, 16) == 65536
  {
    hide Count;
    FixedEmpty(5);
    FixedEmpty(7);
    FixedCounts(7);
    FixedCounts(8);
    FixedCounts(9);
    FixedCounts(5);
    FixedCounts(6);
    assert NextCode(FIXED_LIT, 8) == 48 && NextCode(FIXED_LIT, 9) == 400 && NextCode(FIXED_LIT, 10) == 1024;
    assert NextCode(FIXED_DIST, 6) == 64;
    FixedRest(6);
  }

  lemma {:induction false} FixedEmpty(l: nat)
    requires 1 <= l <= 7
    ensures NextCode(FIXED_LIT, l) == 0 && (l <= 5 ==> NextCode(FIXED_DIST, l) == 0)
  {
    hide Count;
    if l > 1 {
      FixedEmpty(l - 1);
      FixedCounts(l - 1);
    }
  }

  lemma {:induction false} FixedRest(k: nat)
    requires k <= 6 && NextCode(FIXED_LIT, 10) == 1024 && NextCode(FIXED_DIST, 6) == 64
    ensures NextCode(FIXED_LIT, 10 + k) == 1024 * Pow2(k) && NextCode(FIXED_DIST, 10 + k) == 1024 * Pow2(k)
  {
    hide Count;
    if k > 0 {
      FixedRest(k - 1);
      FixedCounts(9 + k);
    } else {
      FixedCounts(6);
      FixedCounts(7);
      FixedCounts(8);
      FixedCounts(9);
    }
  }
}
