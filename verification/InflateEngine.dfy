/** `tinfl_decompress` on its own state: a bit buffer that reads ahead, tables, and a window.  Every
    action is shown to be some steps of the machine on the whole stream and the whole output. */
module InflateEngine {
  import opened Bits
  import opened Options
  import opened InflateCode
  import opened InflateTables
  import opened InflateBuild
  import opened InflateStream
  import opened InflateLogic
  import opened InflateWindow

  /** How an action ended: it can go on, it waits for a byte or for room, or it is over. */
  datatype Outcome = Going | NeedsInput | NeedsRoom | Over

  // ----- which tables a place uses -----

  function LenSizes(c: Control): seq<nat> {
    match c
    case LenCodes(_, _, clen, _) => clen
    case Repeat(_, _, clen, _, _) => clen
    case _ => []
  }

  function LitSizes(c: Control): seq<nat> {
    match c
    case Symbols(_, lit, _) => lit
    case Literal(_, lit, _, _) => lit
    case LengthExtra(_, lit, _, _, _) => lit
    case DistSymbol(_, lit, _, _) => lit
    case DistExtra(_, lit, _, _, _, _) => lit
    case Copy(_, lit, _, _, _) => lit
    case _ => []
  }

  function DistSizes(c: Control): seq<nat> {
    match c
    case Symbols(_, _, dist) => dist
    case Literal(_, _, dist, _) => dist
    case LengthExtra(_, _, dist, _, _) => dist
    case DistSymbol(_, _, dist, _) => dist
    case DistExtra(_, _, dist, _, _, _) => dist
    case Copy(_, _, dist, _, _) => dist
    case _ => []
  }

  /** `d` needs no table that `c` does not have. */
  predicate SameTables(c: Control, d: Control) {
    && (LenSizes(d) == [] || LenSizes(d) == LenSizes(c))
    && (LitSizes(d) == [] || LitSizes(d) == LitSizes(c))
    && (DistSizes(d) == [] || DistSizes(d) == DistSizes(c))
  }

  lemma NumberKeepsTables(cfg: Config, out: nat, c: Control, v: nat)
    requires Reached(c) && NumberBits(c) > 0 && v < Pow2(NumberBits(c))
    ensures SameTables(c, TakeNumber(cfg, out, c, v))
    ensures !TakeNumber(cfg, out, c, v).ZlibHeader? || c.ZlibHeader?
  {
    hide Accepted, Placed, Pow2, Same;
  }

  lemma SymbolKeepsTables(cfg: Config, out: nat, c: Control, sym: nat, len: nat)
    requires Reached(c) && (c.LenCodes? || c.Symbols? || c.DistSymbol?) && (sym == 0 || sym < |SymbolSizes(c)|)
    ensures SameTables(c, TakeSymbol(cfg, out, c, sym, len))
    ensures !TakeSymbol(cfg, out, c, sym, len).ZlibHeader?
  {
    hide Accepted, Placed, Pow2, Same;
  }

  /** Where the output is one buffer, its length is known; where it wraps, it does not matter. */
  lemma NumberOut(cfg: Config, a: nat, b: nat, c: Control, v: nat)
    requires Reached(c) && NumberBits(c) > 0 && v < Pow2(NumberBits(c)) && (cfg.wrap || a == b)
    ensures TakeNumber(cfg, a, c, v) == TakeNumber(cfg, b, c, v)
  {
    hide Accepted, Placed, Pow2, Same;
  }

  lemma SymbolOut(cfg: Config, a: nat, b: nat, c: Control, sym: nat, len: nat)
    requires Reached(c) && (c.LenCodes? || c.Symbols? || c.DistSymbol?) && (sym == 0 || sym < |SymbolSizes(c)|)
    requires cfg.wrap || a == b
    ensures TakeSymbol(cfg, a, c, sym, len) == TakeSymbol(cfg, b, c, sym, len)
  {
    hide Accepted, Placed, Pow2, Same;
  }

  /** How many places can follow one another without bits and without output. */
  function Rank(c: Control): (r: nat) {
    match c
    case StoredStart(_) => 2
    case Stored(_, _) => 3
    case BuildCode(_, _, _) => 900
    case LenCodes(_, _, _, lens) => if |lens| > 400 then 8 else 808 - |lens|
    case BuildTables(_, _, _) => 7
    case Symbols(_, _, _) => 4
    case Copy(_, _, _, _, _) => 5
    case DistSymbol(_, _, _, _) => 6
    case Trailer => 2
    case Done(_) => 0
    case Failed => 0
    case Hole => 0
    case _ => 1
  }

  lemma HoleRank(cfg: Config, out: nat, c: Control)
    requires Reached(c) && (c.LenCodes? || c.Symbols? || c.DistSymbol?)
    ensures Rank(TakeSymbol(cfg, out, c, 0, 0)) < Rank(c)
  {
    hide Accepted;
  }

  lemma NoSymbolPlace(c: Control)
    requires Reached(c) && NumberBits(c) > 0
    ensures SymbolSizes(c) == [] && !c.Copy?
    ensures c.ZlibHeader? || c.StoredHeader? || c.Checksum? ==> NumberBits(c) == 8
  {
    hide Accepted;
  }

  class Inflator {
    const cfg: Config
    const reader: BitReader
    const out: Output
    const litTable: HuffTable
    const distTable: HuffTable
    const lenTable: HuffTable
    var ctl: Control
    /** The last call ended inside a symbol, or inside a match. */
    var inside: bool
    ghost var holed: bool

    /** `tinfl_init`, for a stream and an output buffer; a window begins with what is in it. */
    constructor (cfg: Config, ghost stream: seq<byte>, buf: array<byte>, cur: nat, end: nat, ghost hist: seq<byte>)
      requires Output.Holds(cfg, buf, cur, end, hist)
      ensures Valid() && fresh(Repr()) && this.cfg == cfg && !inside
      ensures reader.stream == stream && reader.base == 0 && reader.input == [] && reader.cur == 0 && reader.numBits == 0
      ensures ctl == (if cfg.zlib then ZlibHeader([]) else BlockHeader) && reader.Position() == 0 && !holed
      ensures out.buf == buf && out.cur == cur && out.end == end && out.hist == hist
    {
      hide Accepted, Resolve, Output.Holds, BytesToBits, FromBits, Pow2, Step, BitReader.Valid, TablesHold, Reading,
        Sound, Reached, Inside, Waiting, View, Separate, Core;
      Output.Lengths(cfg, buf, cur, end, hist);
      this.cfg := cfg;
      reader := new BitReader(stream);
      out := new Output(cfg, buf, cur, end, hist);
      var lit, dist, len := NewTables();
      litTable, distTable, lenTable := lit, dist, len;
      ctl := if cfg.zlib then ZlibHeader([]) else BlockHeader;
      inside := false;
      holed := false;
      new;
      Begun();
    }

    /** Before the first bit. */
    lemma Begun()
      requires Apart() && reader.Valid() && out.cfg == cfg && reader.numBits == 0 && !inside
      requires ctl == if cfg.zlib then ZlibHeader([]) else BlockHeader
      requires cfg.wrap ==> 0 < cfg.window <= |out.hist|
      ensures Core()
    {
      hide Accepted, Resolve;
    }

    static ghost function Parts(t: HuffTable): set<object> {
      {t, t.lookup, t.tree}
    }

    ghost function Repr(): set<object> {
      {this, reader, out} + Tables()
    }

    ghost predicate Apart()
    {
      Separate(litTable, distTable, lenTable) && {this, reader, out} !! Tables()
    }

    /** Three tables of the right sizes that share nothing. */
    static ghost predicate Separate(lit: HuffTable, dist: HuffTable, len: HuffTable)
    {
      && lit.Allocated() && dist.Allocated() && len.Allocated()
      && lit.tree.Length == 576 && dist.tree.Length == 64 && len.tree.Length == 38
      && Parts(lit) !! Parts(dist) && Parts(lit) !! Parts(len) && Parts(dist) !! Parts(len)
    }

    static method NewTables() returns (lit: HuffTable, dist: HuffTable, len: HuffTable)
      ensures Separate(lit, dist, len) && fresh(Parts(lit) + Parts(dist) + Parts(len))
    {
      lit := new HuffTable(288);
      dist := new HuffTable(32);
      len := new HuffTable(19);
    }

    /** The state as the machine on whole streams sees it. */
    ghost function View(): (m: Machine)
      requires reader.Valid()
      reads this, reader, out
    {
      Machine(ctl, reader.Position(), out.hist, holed)
    }

    ghost function Tables(): set<object> {
      Parts(litTable) + Parts(distTable) + Parts(lenTable)
    }

    ghost predicate TablesHold()
      requires Apart()
      reads this`ctl, Tables()
    {
      Provided(ctl)
    }

    /** The place waits for more bits than are held. */
    ghost predicate Waiting()
      requires reader.Valid() && Reached(ctl)
      reads this, reader
    {
      || reader.numBits < NumberBits(ctl)
      || (inside && SymbolSizes(ctl) != [])
    }

    /** How far the bits held agree with the place. */
    ghost predicate Reading()
      requires reader.Valid() && Reached(ctl)
      reads this, reader, out
    {
      && (ctl.ZlibHeader? ==> reader.numBits == 0)
      && (inside && SymbolSizes(ctl) != [] ==>
        reader.numBits < MAX_BITS && Resolve(SymbolSizes(ctl), reader.Held()).None?)
      && (inside ==> SymbolSizes(ctl) != [] || (ctl.Copy? && out.At()))
      && (holed || reader.Tight() || Waiting())
    }

    /** All that holds between two actions, but for the output buffer. */
    ghost predicate Core()
      reads Repr()
    {
      Apart() && reader.Valid() && out.cfg == cfg && Sound(cfg, View()) && TablesHold() && Reading()
    }

    ghost predicate Valid()
      reads Repr(), out.buf
    {
      Core() && out.Valid() && out.buf !in Repr()
    }

    /** The call's arguments stay what they are. */
    twostate predicate Steady()
      reads this, reader, out
    {
      && reader.Advanced() && out.buf == old(out.buf) && out.end == old(out.end)
      && old(out.hist) <= out.hist && |out.hist| - out.cur == |old(out.hist)| - old(out.cur)
    }

    /** The tables that `c` uses are there. */
    ghost predicate Provided(c: Control)
      requires Apart()
      reads Tables()
    {
      && (LenSizes(c) != [] ==> lenTable.Holds(LenSizes(c)))
      && (LitSizes(c) != [] ==> litTable.Holds(LitSizes(c)))
      && (DistSizes(c) != [] ==> distTable.Holds(DistSizes(c)))
    }

    /** A new call: input and output buffers change, the state does not. */
    method Restart(input: seq<byte>, buf: array<byte>, next: nat, end: nat)
      requires Core() && (holed || reader.numBits < 8 || Waiting())
      requires reader.base + reader.cur + |input| <= |reader.stream|
      requires reader.stream[reader.base + reader.cur..reader.base + reader.cur + |input|] == input
      requires Output.Holds(cfg, buf, next, end, out.hist) && buf !in Repr()
      modifies reader, out
      ensures Valid() && View() == old(View()) && reader.stream == old(reader.stream)
      ensures reader.input == input && reader.cur == 0 && reader.base == old(reader.base + reader.cur)
      ensures out.buf == buf && out.cur == next && out.end == end && out.hist == old(out.hist)
      ensures holed || reader.numBits < 8 || Waiting()
    {
      hide BytesToBits, Resolve, Output.Holds, Reached, SymbolSizes, NumberBits, Sound, TablesHold;
      reader.NextInput(input);
      out.buf, out.cur, out.end := buf, next, end;
    }

    /** The next place, when the bits held are no more than can be given back. */
    method Enter(c: Control)
      requires Apart() && reader.Valid() && out.cfg == cfg && Provided(c)
      requires Sound(cfg, View().(ctl := c)) && (c.ZlibHeader? ==> reader.numBits == 0) && (holed || reader.Tight())
      modifies this`ctl, this`inside
      ensures Core() && View() == old(View()).(ctl := c) && !inside
    {
      hide HuffTable.Holds, Resolve, BitReader.Valid, Reached, SymbolSizes, NumberBits, LenSizes, LitSizes, DistSizes;
      ctl := c;
      inside := false;
    }

    /** The same, when no other tables are needed. */
    method Continue(c: Control)
      requires Apart() && reader.Valid() && out.cfg == cfg && TablesHold() && SameTables(ctl, c)
      requires Sound(cfg, View().(ctl := c)) && (c.ZlibHeader? ==> reader.numBits == 0) && (holed || reader.Tight())
      modifies this`ctl, this`inside
      ensures Core() && View() == old(View()).(ctl := c) && !inside
    {
      hide HuffTable.Holds, Resolve, BitReader.Valid, Sound, LenSizes, LitSizes, DistSizes, Core;
      Enter(c);
    }

    /** The bits of a number: bytes of a header come straight from the input if the buffer is empty. */
    method ReadNumber(n: nat) returns (ok: bool, v: nat)
      requires Core() && n == NumberBits(ctl) > 0 && !(ctl.Stored? && reader.numBits == 0)
      modifies reader
      ensures reader.Valid() && reader.Advanced() && reader.Position() >= 0
      ensures ok ==> Number(reader.All(), old(reader.Position()), n) == Some(v) && v < Pow2(n)
      ensures ok ==> reader.Position() == old(reader.Position()) + n && (holed || reader.Tight())
      ensures ok && ctl.ZlibHeader? ==> reader.numBits == 0
      ensures !ok ==> Core() && reader.Position() == old(reader.Position())
      ensures !ok ==> reader.cur == |reader.input| && reader.numBits < n
    {
      hide Accepted, Resolve, BytesToBits, FromBits, Pow2, Reached, NumberBits, SymbolSizes, TablesHold, Inside;
      NoSymbolPlace(ctl);
      if reader.numBits == 0 && (ctl.ZlibHeader? || ctl.StoredHeader? || ctl.Checksum?) {
        ok, v := reader.GetByte();
      } else {
        ok, v := reader.GetBits(n);
      }
    }

    /** A number: header fields, extra bits, stored bytes from the bit buffer, the checksum. */
    method NumberStep() returns (ok: bool)
      requires Valid() && NumberBits(ctl) > 0 && !(ctl.Stored? && reader.numBits == 0)
      modifies this`ctl, this`inside, reader
      ensures Valid() && Steady()
      ensures ok ==> View() == Step(cfg, reader.All(), old(View()))
      ensures ok ==> reader.Position() == old(reader.Position() + NumberBits(ctl)) && !inside && !ctl.Hole?
      ensures !ok ==> View() == old(View()) && reader.cur == |reader.input| && reader.numBits < NumberBits(ctl)
    {
      hide Accepted, TakeNumber, Output.Holds, BytesToBits, Pow2, Step, Reached, NumberBits, SameTables, TablesHold,
        BitReader.Valid, Inside, Reading;
      ghost var before := View();
      Output.Lengths(cfg, out.buf, out.cur, out.end, out.hist);
      var v;
      ok, v := ReadNumber(NumberBits(ctl));
      if ok {
        NumberPlace(cfg, reader.All(), before, v);
        NumberKeepsTables(cfg, out.cur, ctl, v);
        NumberOut(cfg, out.cur, |out.hist|, ctl, v);
        Continue(TakeNumber(cfg, out.cur, ctl, v));
      }
    }

    /** The table for the symbol the place asks for. */
    method CurrentTable() returns (t: HuffTable)
      requires Core() && SymbolSizes(ctl) != []
      ensures t.Allocated() && t.Holds(SymbolSizes(ctl)) && (t == litTable || t == distTable || t == lenTable)
      ensures InflateCode.Lengths(SymbolSizes(ctl)) && NextCode(SymbolSizes(ctl), 16) <= 65536
    {
      hide HuffTable.Holds, Reading, BitReader.Valid;
      AcceptedFits(SymbolSizes(ctl));
      match ctl
      case LenCodes(_, _, _, _) => t := lenTable;
      case Symbols(_, _, _) => t := litTable;
      case DistSymbol(_, _, _, _) => t := distTable;
    }

    /** The bits of a symbol; without enough of them, the next call goes on inside. */
    method ReadSymbol() returns (ok: bool, sym: nat, len: nat)
      requires Core() && SymbolSizes(ctl) != []
      modifies this`inside, reader
      ensures reader.Valid() && reader.Advanced() && reader.Position() >= 0
      ensures ok ==> old(reader.Position()) <= |reader.All()|
      ensures ok ==> Resolve(SymbolSizes(ctl), reader.All()[old(reader.Position())..]) == Some((sym, len))
      ensures ok ==> Resolve(SymbolSizes(ctl), reader.Since(old(reader.Position()))) == Some((sym, len))
      ensures ok ==> reader.Position() == old(reader.Position()) + len && (holed || len == 0 || reader.Tight())
      ensures !ok ==> Core() && reader.Position() == old(reader.Position()) && reader.cur == |reader.input| && inside
    {
      hide BitReader.Since, Accepted, Resolve, BytesToBits, Reached, SymbolSizes, TablesHold, HuffTable.Holds,
        InflateCode.Lengths, NextCode, NumberBits;
      var t := CurrentTable();
      SymbolNoNumber(ctl);
      ok, sym, len := reader.HuffDecode(t, SymbolSizes(ctl), inside);
      if !ok {
        inside := true;
      }
    }

    /** A symbol.  `gone`: no literal/length code begins here, and a literal 0 was made of it. */
    method SymbolStep() returns (ok: bool, ghost gone: bool)
      requires Valid() && SymbolSizes(ctl) != []
      modifies this`ctl, this`inside, this`holed, reader
      ensures Valid() && Steady()
      ensures ok && !gone ==> View() == Step(cfg, reader.All(), old(View()))
      ensures ok ==> gone == Step(cfg, reader.All(), old(View())).ctl.Hole? && !inside && !ctl.Hole?
      ensures ok ==> Resolve(old(SymbolSizes(ctl)), reader.Since(old(reader.Position()))).Some?
      ensures gone ==> ok && old(ctl).Symbols?
      ensures gone ==>
        View() == old(View()).(ctl := Literal(old(ctl).final, old(ctl).lit, old(ctl).dist, 0), holed := true)
      ensures gone ==> InflateLogic.Run(cfg, reader.All(), View(), 2).ctl.Hole?
      ensures ok ==>
        (reader.Position() > old(reader.Position())
         || (reader.Position() == old(reader.Position()) && Rank(ctl) < Rank(old(ctl))))
      ensures !ok ==> View() == old(View()) && reader.cur == |reader.input| && inside
    {
      hide Accepted, Output.Holds, BytesToBits, Step, Reached, SymbolSizes, SameTables, TablesHold, BitReader.Valid,
        BitReader.Since, Inside, Resolve, Rank, Reading, Apart, Sound;
      IsSound();
      ghost var before := View();
      gone := false;
      var sym, len;
      ok, sym, len := ReadSymbol();
      if ok {
        gone := EnterSymbol(before, sym, len);
      }
    }

    /** On from a symbol that has been read. */
    method EnterSymbol(ghost before: Machine, sym: nat, len: nat) returns (ghost gone: bool)
      requires Apart() && reader.Valid() && out.cfg == cfg && TablesHold() && out.Valid() && out.buf !in Repr()
      requires Sound(cfg, before) && SymbolSizes(before.ctl) != [] && before.pos <= |reader.All()|
      requires View() == before.(pos := before.pos + len)
      requires Resolve(SymbolSizes(ctl), reader.All()[before.pos..]) == Some((sym, len))
      requires holed || len == 0 || reader.Tight()
      modifies this`ctl, this`inside, this`holed
      ensures Valid() && !inside && gone == Step(cfg, reader.All(), before).ctl.Hole?
      ensures !gone ==> View() == Step(cfg, reader.All(), before)
      ensures gone ==> before.ctl.Symbols?
      ensures gone ==>
        View() == before.(ctl := Literal(before.ctl.final, before.ctl.lit, before.ctl.dist, 0), holed := true)
      ensures gone ==> InflateLogic.Run(cfg, reader.All(), View(), 2).ctl.Hole?
      ensures len > 0 || Rank(ctl) < Rank(before.ctl)
    {
      hide Accepted, TakeSymbol, Output.Holds, BytesToBits, Step, Reached, SymbolSizes, SameTables, TablesHold,
        BitReader.Valid, Inside, Resolve, Rank, Reading;
      Output.Lengths(cfg, out.buf, out.cur, out.end, out.hist);
      SymbolPlace(cfg, reader.All(), before, sym, len);
      SymbolKeepsTables(cfg, out.cur, ctl, sym, len);
      SymbolOut(cfg, out.cur, |out.hist|, ctl, sym, len);
      holed := holed || len == 0;
      if len == 0 {
        HoleRank(cfg, out.cur, ctl);
      }
      gone := len == 0 && ctl.Symbols?;
      if len == 0 && ctl.Symbols? {
        HoleLiteral(cfg, before);
        Continue(Literal(ctl.final, ctl.lit, ctl.dist, 0));
        HoleAgain(cfg, reader.All(), before, View());
      } else {
        NotHole(cfg, |out.hist|, ctl, sym, len);
        Continue(TakeSymbol(cfg, out.cur, ctl, sym, len));
      }
    }

    /** A byte for the output: a literal, or one of a stored block that was in the bit buffer. */
    method EmitStep() returns (ok: bool)
      requires Valid() && (ctl.StoredByte? || ctl.Literal?)
      modifies this`ctl, this`inside, out, out.buf
      ensures Valid() && Steady() && ok == (old(out.cur) < out.end)
      ensures ok ==> View() == Step(cfg, reader.All(), old(View())) && out.cur == old(out.cur) + 1 && !inside
      ensures !ctl.Hole?
      ensures !ok ==> View() == old(View()) && out.cur == out.end
    {
      hide Accepted, Output.Holds, BytesToBits, Step, TablesHold, BitReader.Valid, Codes, Pow2, Resolve;
      ghost var before := View();
      Output.Lengths(cfg, out.buf, out.cur, out.end, out.hist);
      ok := out.cur < out.end;
      if ok {
        EmitPlace(cfg, reader.All(), before);
        out.Put(ctl.c);
        Continue(if ctl.StoredByte? then Stored(ctl.final, ctl.left - 1) else Symbols(ctl.final, ctl.lit, ctl.dist));
      }
    }

    /** A match, or what is left of it. */
    method CopyStep() returns (ok: bool, ghost k: nat)
      requires Valid() && ctl.Copy? && ctl.left > 0
      modifies this`ctl, this`inside, out, out.buf
      ensures Valid() && Steady()
      ensures View() == InflateLogic.Run(cfg, reader.All(), old(View()), k) && out.cur == old(out.cur) + k
      ensures ok ==> k > 0 && !inside
      ensures k <= old(ctl).left && ctl == Leaving(old(ctl), old(ctl).left - k) && ok == (ctl.left == 0)
      ensures !ok ==> out.cur == out.end
    {
      hide Accepted, Output.Holds, BytesToBits, Step, TablesHold, BitReader.Valid, Codes, Pow2, Resolve, Back,
        Extended, NumberBits, SymbolSizes, SameTables, Output.At, Sound, Apart, Reached;
      IsSound();
      ghost var before := View();
      CopyPlace(ctl);
      var left := CopySome();
      k := ctl.left - left;
      CopyRuns(cfg, reader.All(), before, k);
      OutputGrows(cfg, reader.All(), before, 0, k);
      ok := left == 0;
      if ok {
        Continue(Leaving(ctl, 0));
      } else {
        Suspend(left);
      }
    }

    /** The bytes of the match that fit. */
    method CopySome() returns (left: nat)
      requires Valid() && ctl.Copy? && ctl.left > 0
      modifies out, out.buf
      ensures out.Valid() && out.buf == old(out.buf) && out.end == old(out.end)
      ensures left <= ctl.left && (left > 0 ==> out.cur == out.end && out.At())
      ensures 1 <= Back(cfg, ctl.distance) <= |old(out.hist)|
      ensures out.hist == Extended(old(out.hist), Back(cfg, ctl.distance), ctl.left - left)
      ensures out.cur == old(out.cur) + (ctl.left - left)
    {
      hide Accepted, Output.Holds, BytesToBits, TablesHold, BitReader.Valid, Codes, Pow2, Resolve, Back, Extended,
        NumberBits, Apart;
      if inside {
        left := out.CopyMasked(ctl.left, ctl.distance);
      } else {
        left := out.CopyMatch(ctl.left, ctl.distance);
      }
    }

    /** The call ends inside a match. */
    method Suspend(left: nat)
      requires Apart() && reader.Valid() && out.cfg == cfg && TablesHold() && ctl.Copy? && out.At()
      requires Sound(cfg, View().(ctl := Leaving(ctl, left))) && (holed || reader.Tight())
      modifies this`ctl, this`inside
      ensures Core() && View() == old(View()).(ctl := Leaving(old(ctl), left)) && inside
    {
      hide HuffTable.Holds, Resolve, BitReader.Valid, Reached, NumberBits;
      ctl := Leaving(ctl, left);
      inside := true;
    }

    /** What needs neither bits nor room. */
    method MoveStep()
      requires Valid() && (ctl.StoredStart? || ctl.BuildCode? || ctl.BuildTables? || ctl.Trailer?
        || (ctl.Stored? && ctl.left == 0) || (ctl.Copy? && ctl.left == 0))
      modifies this, reader, Tables()
      ensures Valid() && Steady() && holed == old(holed) && !inside
      ensures View() == Step(cfg, reader.All(), old(View())) && !ctl.Hole?
      ensures reader.Position() > old(reader.Position())
        || (reader.Position() == old(reader.Position()) && Rank(ctl) < Rank(old(ctl)))
    {
      hide Accepted, Output.Holds, BytesToBits, Step, TablesHold, BitReader.Valid, Codes, Pow2, Resolve, Back, Rank,
        NumberBits, SymbolSizes, BitReader.Tight, Sound, Reached, Apart, Inside;
      IsSound();
      ghost var before := View();
      MovePlace(cfg, reader.All(), before);
      if ctl.StoredStart? || ctl.Trailer? {
        ToByteBoundary();
      } else if ctl.BuildCode? {
        BuildCodeTable();
      } else if ctl.BuildTables? {
        BuildBlockTables();
      } else {
        Continue(Moves(cfg, ctl, 0).0);
      }
    }

    method ToByteBoundary()
      requires Core() && (ctl.StoredStart? || ctl.Trailer?) && SameTables(ctl, Moves(cfg, ctl, 0).0)
      modifies this`ctl, this`inside, reader
      ensures Core() && reader.Advanced()
      ensures View() == old(View()).(ctl := Moves(cfg, old(ctl), 0).0, pos := Aligned(old(reader.Position()))) && !inside
    {
      hide Accepted, BytesToBits, TablesHold, BitReader.Valid, Resolve, BitReader.Tight;
      var next := Moves(cfg, ctl, 0).0;
      if ctl.StoredStart? {
        reader.Align();
      } else {
        AlignAndGiveBack();
      }
      Continue(next);
    }

    /** After the last block, what was read ahead is given back.  `MZ_ASSERT(!num_bits)` holds if and
        only if the block does not end a whole byte or more before this call's input begins, and then
        only can it fail if bits were asked for where no code begins. */
    method AlignAndGiveBack()
      requires reader.Valid() && (holed || reader.Tight())
      modifies reader
      ensures reader.Valid() && reader.Advanced() && (holed || reader.Tight())
      ensures reader.Position() == Aligned(old(reader.Position()))
      ensures reader.numBits == 0 <==> 8 * reader.base <= reader.Position()
      ensures reader.numBits != 0 ==> reader.cur == 0
      ensures holed || reader.numBits == 0
    {
      hide BytesToBits, FromBits;
      reader.Align();
      ghost var n, c := reader.numBits, reader.cur;
      reader.PushBack();
      EightsApart(n, c, reader.numBits, reader.cur);
      LeftOver(reader.Position(), reader.base, reader.cur, reader.numBits);
    }

    static method BuildInto(t: HuffTable, sizes: seq<nat>) returns (ok: bool)
      requires t.Allocated() && InflateCode.Lengths(sizes) && t.tree.Length >= 2 * |sizes|
      modifies t, t.lookup, t.tree
      ensures ok <==> Accepted(sizes)
      ensures ok ==> t.Holds(sizes)
    {
      hide Accepted, Inv;
      ghost var paths;
      ok, paths := BuildTable(sizes, t.lookup, t.tree);
      t.paths := paths;
    }

    method BuildCodeTable()
      requires Core() && ctl.BuildCode?
      modifies this`ctl, this`inside, lenTable, lenTable.lookup, lenTable.tree
      ensures Core() && View() == old(View()).(ctl := AfterCode(old(ctl).final, old(ctl).counts, old(ctl).clen)) && !inside
    {
      hide Accepted, BytesToBits, BitReader.Valid, Resolve, HuffTable.Holds, Pow2;
      var ok := BuildInto(lenTable, ctl.clen);
      Enter(if ok then LenCodes(ctl.final, ctl.counts, ctl.clen, []) else Failed);
    }

    method BuildBlockTables()
      requires Core() && ctl.BuildTables?
      modifies this`ctl, this`inside, litTable, litTable.lookup, litTable.tree, distTable, distTable.lookup, distTable.tree
      ensures Core() && View() == old(View()).(ctl := AfterTables(old(ctl).final, old(ctl).lit, old(ctl).dist)) && !inside
    {
      hide Accepted, BytesToBits, BitReader.Valid, Resolve, HuffTable.Holds, Pow2;
      var ok := BuildInto(distTable, ctl.dist);
      if ok {
        ok := BuildInto(litTable, ctl.lit);
      }
      Enter(if ok then Symbols(ctl.final, ctl.lit, ctl.dist) else Failed);
    }

    /** One byte of a stored block, from the input to the output. */
    method StoredOne()
      requires Valid() && ctl.Stored? && ctl.left > 0 && reader.numBits == 0
      requires out.cur < out.end && reader.cur < |reader.input|
      modifies this`ctl, this`inside, reader, out, out.buf
      ensures Valid() && Steady() && reader.numBits == 0 && ctl == Stored(old(ctl).final, old(ctl).left - 1)
      ensures View() == InflateLogic.Run(cfg, reader.All(), old(View()), 2)
      ensures reader.Position() == old(reader.Position()) + 8
      ensures reader.cur == old(reader.cur) + 1 && out.cur == old(out.cur) + 1
    {
      hide Accepted, Output.Holds, BytesToBits, FromBits, Step, TablesHold, BitReader.Valid, Pow2, Resolve,
        InflateLogic.Run, SameTables, Apart, Sound, Reached, Inside, SymbolSizes, Reading;
      IsSound();
      StoredNoSymbol(ctl);
      ghost var before := View();
      Output.Lengths(cfg, out.buf, out.cur, out.end, out.hist);
      var ok, c := reader.GetByte();
      StoredPlace(cfg, reader.All(), before, c);
      PutAndGo(c, Stored(ctl.final, ctl.left - 1), InflateLogic.Run(cfg, reader.All(), before, 2));
    }

    /** A byte is put out, and on to `next`, where the machine is at `after`. */
    method PutAndGo(c: byte, next: Control, ghost after: Machine)
      requires Apart() && reader.Valid() && out.cfg == cfg && TablesHold() && SameTables(ctl, next) && !next.ZlibHeader?
      requires out.Valid() && out.buf !in Repr() && out.cur < out.end && (holed || reader.Tight())
      requires Sound(cfg, after) && after == View().(ctl := next, out := out.hist + [c])
      modifies this`ctl, this`inside, out`cur, out`hist, out.buf
      ensures Valid() && View() == after && !inside && out.cur == old(out.cur) + 1
    {
      hide Output.Holds, Sound, TablesHold, BitReader.Valid, Apart, SameTables, Reading, Reached, NumberBits,
        SymbolSizes;
      out.Put(c);
      Continue(next);
    }

    /** The bytes of a stored block, as many as the input and the output allow. */
    method StoredStep() returns (r: Outcome, ghost k: nat)
      requires Valid() && ctl.Stored? && ctl.left > 0 && reader.numBits == 0
      modifies this`ctl, this`inside, reader, out, out.buf
      ensures Valid() && Steady() && !r.Over? && (r.Going? ==> !inside) && ctl.Stored?
      ensures View() == InflateLogic.Run(cfg, reader.All(), old(View()), k)
      ensures r.Going? ==> reader.Position() > old(reader.Position())
      ensures r.NeedsRoom? ==> out.cur == out.end && View() == old(View()) && reader.numBits == 0
      ensures r.NeedsInput? ==> reader.cur == |reader.input| && View() == old(View()) && reader.numBits == 0
    {
      hide Accepted, Output.Holds, BytesToBits, Step, TablesHold, BitReader.Valid, Pow2, Resolve, Reading, Sound,
        Apart;
      Output.Lengths(cfg, out.buf, out.cur, out.end, out.hist);
      k := 0;
      if out.cur >= out.end {
        return NeedsRoom, 0;
      }
      if reader.cur >= |reader.input| {
        InputUsed();
        return NeedsInput, 0;
      }
      var n := out.end - out.cur;
      if |reader.input| - reader.cur < n {
        n := |reader.input| - reader.cur;
      }
      if ctl.left < n {
        n := ctl.left;
      }
      k := StoredMany(n);
      Outside();
      r := Going;
    }

    lemma Outside()
      requires Core() && ctl.Stored?
      ensures !inside
    {
    }

    method StoredMany(n: nat) returns (ghost k: nat)
      requires Valid() && ctl.Stored? && n <= ctl.left && reader.numBits == 0
      requires out.cur + n <= out.end && reader.cur + n <= |reader.input|
      modifies this`ctl, this`inside, reader, out, out.buf
      ensures Valid() && Steady()
      ensures View() == InflateLogic.Run(cfg, reader.All(), old(View()), k)
      ensures reader.Position() == old(reader.Position()) + 8 * n && ctl.Stored?
    {
      hide Accepted, Output.Holds, BytesToBits, Step, TablesHold, BitReader.Valid, Resolve, Reading, Sound, Apart,
        InflateLogic.Run, Core, Reached, Tables;
      IsSound();
      k := 0;
      NoSteps(cfg, reader.All(), View());
      for i := 0 to n
        invariant Valid() && Steady() && reader.Valid() && Sound(cfg, View()) && reader.numBits == 0
        invariant ctl == Stored(old(ctl).final, old(ctl).left - i)
        invariant View() == InflateLogic.Run(cfg, reader.All(), old(View()), k)
        invariant reader.cur == old(reader.cur) + i && out.cur == old(out.cur) + i
        invariant reader.Position() == old(reader.Position()) + 8 * i
      {
        RunAdd(cfg, reader.All(), old(View()), k, 2);
        StoredOne();
        IsSound();
        k := k + 2;
      }
    }

    lemma InputUsed()
      requires reader.Valid() && reader.cur >= |reader.input|
      ensures reader.cur == |reader.input|
    {
    }

    /** Two symbols at once, when there are four bytes to read and two places to write. */
    method FastStep() returns (ghost k: nat, ghost gone: bool)
      requires Valid() && ctl.Symbols? && !inside
      requires |reader.input| - reader.cur >= 4 && out.end - out.cur >= 2
      modifies this`ctl, this`inside, this`holed, reader, out, out.buf
      ensures Valid() && Steady()
      ensures !gone ==> View() == InflateLogic.Run(cfg, reader.All(), old(View()), k)
      ensures gone ==> InflateLogic.Run(cfg, reader.All(), old(View()), k).ctl.Hole?
      ensures reader.Position() >= old(reader.Position())
      ensures gone ==> ctl.Failed? && out.cur == old(out.cur)
      ensures !gone ==> reader.Position() > old(reader.Position())
      ensures !inside && !ctl.Hole?
    {
      hide Accepted, Output.Holds, BytesToBits, Step, TablesHold, BitReader.Valid, Codes, Pow2, Resolve,
        InflateCode.Lengths, NextCode, HuffTable.Holds, AfterSymbol, NumberBits, SymbolSizes, SameTables, Provided,
        Sound, Reached, InflateLogic.Run;
      IsSound();
      ghost var before := View();
      var sym, len := FirstSymbol();
      SymbolIs(cfg, reader.All(), before, sym, len);
      if len == 0 {
        gone, k := true, 1;
        GiveUp(before);
      } else if sym >= 256 {
        gone, k := false, 1;
        Continue(AfterSymbol(ctl.final, ctl.lit, ctl.dist, sym));
      } else {
        k, gone := FastSecond(before, sym, len);
      }
    }

    method FirstSymbol() returns (sym: nat, len: nat)
      requires Core() && ctl.Symbols? && !inside && |reader.input| - reader.cur >= 4
      modifies reader
      ensures reader.Valid() && reader.Advanced() && reader.numBits >= MAX_BITS
      ensures old(reader.Position()) <= |reader.All()|
      ensures Resolve(ctl.lit, reader.All()[old(reader.Position())..]) == Some((sym, len))
      ensures reader.Position() == old(reader.Position()) + len && (holed || reader.Tight())
      ensures litTable.Allocated() && litTable.Holds(ctl.lit)
      ensures InflateCode.Lengths(ctl.lit) && NextCode(ctl.lit, 16) <= 65536
    {
      hide Accepted, BytesToBits, TablesHold, BitReader.Valid, Resolve, InflateCode.Lengths, NextCode,
        HuffTable.Holds, NumberBits, SymbolSizes, Sound;
      LiteralTable();
      FillFour();
      sym, len := reader.DecodeHeld(litTable, ctl.lit);
    }

    /** The second symbol; only then is the first one written. */
    method FastSecond(ghost before: Machine, sym: nat, ghost len: nat) returns (ghost k: nat, ghost gone: bool)
      requires Apart() && reader.Valid() && out.cfg == cfg && TablesHold() && (holed || reader.Tight())
      requires out.Valid() && out.buf !in Repr() && reader.numBits >= MAX_BITS && out.end - out.cur >= 2
      requires Sound(cfg, before) && before.ctl.Symbols? && before.ctl == ctl && sym < 256 && len > 0
      requires litTable.Allocated()
      requires View() == before.(pos := before.pos + len) && litTable.Holds(ctl.lit)
      requires InflateCode.Lengths(ctl.lit) && NextCode(ctl.lit, 16) <= 65536
      requires InflateLogic.Run(cfg, reader.All(), before, 1)
        == before.(ctl := Literal(ctl.final, ctl.lit, ctl.dist, sym), pos := before.pos + len)
      modifies this`ctl, this`inside, this`holed, reader, out, out.buf
      ensures Valid() && Steady()
      ensures !gone ==> View() == InflateLogic.Run(cfg, reader.All(), before, k)
      ensures gone ==> InflateLogic.Run(cfg, reader.All(), before, k).ctl.Hole? && ctl.Failed? && out.cur == old(out.cur)
      ensures reader.Position() >= old(reader.Position()) && !inside && !ctl.Hole?
    {
      hide Accepted, Output.Holds, BytesToBits, Step, TablesHold, BitReader.Valid, Codes, Pow2, Resolve,
        InflateCode.Lengths, NextCode, HuffTable.Holds, AfterSymbol, NumberBits, SymbolSizes, Sound, Reading, Apart,
        SameTables, Provided, Reached, InflateLogic.Run;
      var sym2, len2 := reader.DecodeHeld(litTable, ctl.lit);
      SecondIs(cfg, reader.All(), before, sym, len, sym2, len2);
      gone := len2 == 0;
      if len2 == 0 {
        k := 3;
        GiveUp(before);
      } else {
        k := if sym2 >= 256 then 3 else 4;
        WriteTwo(sym, sym2);
        GoOn(if sym2 >= 256 then AfterSymbol(ctl.final, ctl.lit, ctl.dist, sym2) else ctl,
          InflateLogic.Run(cfg, reader.All(), before, k));
      }
    }

    /** Where no code begins, the fast path fails. */
    method GiveUp(ghost before: Machine)
      requires Apart() && reader.Valid() && out.cfg == cfg && TablesHold() && SameTables(ctl, Failed)
      requires out.Valid() && out.buf !in Repr() && Sound(cfg, before) && |out.hist| >= |before.out|
      modifies this`ctl, this`inside, this`holed
      ensures Valid() && ctl.Failed? && !inside
    {
      hide Output.Holds, Sound, TablesHold, BitReader.Valid, Apart, SameTables, Reading, Reached, NumberBits,
        SymbolSizes;
      holed := true;
      FailedSound(cfg, before, View().(ctl := Failed));
      Continue(Failed);
    }

    /** On to `c`, where the machine is at `after`. */
    method GoOn(c: Control, ghost after: Machine)
      requires Apart() && reader.Valid() && out.cfg == cfg && TablesHold() && SameTables(ctl, c) && !c.ZlibHeader?
      requires out.Valid() && out.buf !in Repr() && Sound(cfg, after) && after == View().(ctl := c)
      requires holed || reader.Tight()
      modifies this`ctl, this`inside
      ensures Valid() && View() == after && !inside
    {
      hide Output.Holds, Sound, TablesHold, BitReader.Valid, Apart, SameTables, Reading, Reached, NumberBits,
        SymbolSizes;
      Continue(c);
    }

    method WriteTwo(c: byte, sym: nat)
      requires out.Valid() && out.end - out.cur >= 2
      modifies out`cur, out`hist, out.buf
      ensures out.Valid() && out.hist == old(out.hist) + [c] + (if sym < 256 then [sym] else [])
      ensures out.cur == old(out.cur) + if sym < 256 then 2 else 1
    {
      hide Output.Holds;
      out.Put(c);
      if sym < 256 {
        out.Put(sym);
      }
    }

    lemma LiteralTable()
      requires Core() && ctl.Symbols?
      ensures litTable.Allocated() && litTable.Holds(ctl.lit)
      ensures InflateCode.Lengths(ctl.lit) && NextCode(ctl.lit, 16) <= 65536
    {
      hide HuffTable.Holds, Reading, BitReader.Valid;
      AcceptedFits(ctl.lit);
    }

    method FillFour()
      requires Core() && ctl.Symbols? && |reader.input| - reader.cur >= 4
      modifies reader
      ensures reader.Valid() && reader.Advanced() && reader.Position() == old(reader.Position())
      ensures reader.numBits >= 30 && (holed || inside || reader.Tight())
      ensures reader.Tight() == old(reader.Tight())
    {
      hide Accepted, BytesToBits, BitReader.Valid, TablesHold, Resolve;
      if reader.numBits < 30 {
        reader.Fetch();
        reader.Fetch();
        reader.Fetch();
        reader.Fetch();
      }
    }

    /** Every action uses bits, or uses room, or goes on to a place of lower rank. */
    twostate predicate Nearer()
      reads this, reader, out
    {
      || reader.Position() > old(reader.Position())
      || (reader.Position() == old(reader.Position()) && out.cur > old(out.cur))
      || (reader.Position() == old(reader.Position()) && out.cur == old(out.cur) && Rank(ctl) < old(Rank(ctl)))
    }

    lemma IsSound()
      requires Core()
      ensures reader.Valid() && Sound(cfg, View()) && Reached(ctl)
    {
      hide Accepted, BytesToBits;
    }

    lemma HeldBits()
      requires Core()
      ensures 0 <= reader.numBits <= 64 && reader.Position() == 8 * (reader.base + reader.cur) - reader.numBits
    {
    }

    lemma HeldOrTight()
      requires Core() && ctl.Trailer?
      ensures holed || reader.Tight()
    {
    }

    lemma SinceLength(p: nat)
      requires Core() && p <= 8 * (reader.base + reader.cur)
      ensures |reader.Since(p)| == 8 * (reader.base + reader.cur) - p
    {
    }

    lemma Buffer()
      requires Valid()
      ensures Output.Holds(cfg, out.buf, out.cur, out.end, out.hist)
    {
    }

    lemma Bounds()
      requires Valid()
      ensures reader.Position() <= reader.Limit() && out.cur <= out.end && reader.cur <= |reader.input|
    {
    }

    /** The input so far does not let the machine make its next step. */
    ghost predicate Starved()
      requires Core()
      reads Repr()
    {
      Step(cfg, reader.All()[..8 * (reader.base + reader.cur)], View()) == View() && !Stopped(ctl)
    }

    lemma StarvedForGood()
      requires Core() && Starved() && reader.base + reader.cur == |reader.stream|
      ensures Step(cfg, reader.All(), View()) == View()
    {
      hide Step, BytesToBits, Sound, TablesHold, Reading, Apart;
      assert reader.All()[..8 * |reader.stream|] == reader.All();
    }

    /** Which path meets a hole: the fast one, which fails, only with four bytes to read; the other one
        only in the middle of a symbol, with less to read, or without room for two bytes. */
    twostate predicate Picked(gone: bool)
      reads this, reader, out
    {
      gone ==>
        if ctl.Failed? then |reader.input| - old(reader.cur) >= 4 && out.hist == old(out.hist)
        else old(inside) || |reader.input| - old(reader.cur) < 4 || old(out.end - out.cur) < 2
    }

    /** One action of the coroutine. */
    method Advance() returns (r: Outcome, ghost k: nat, ghost gone: bool)
      requires Valid()
      modifies Repr(), out.buf
      ensures Valid() && Steady()
      ensures !gone ==> View() == InflateLogic.Run(cfg, reader.All(), old(View()), k)
      ensures gone ==> r.Going? && InflateLogic.Run(cfg, reader.All(), old(View()), k).ctl.Hole?
      ensures gone ==> ctl.Failed? || InflateLogic.Run(cfg, reader.All(), View(), 2).ctl.Hole?
      ensures Picked(gone) && (r.Going? ==> !inside) && (ctl.Hole? ==> old(ctl).Hole?)
      ensures old(ctl).Failed? ==> r.Over? && View() == old(View())
      ensures r.Going? ==> Nearer()
      ensures r.Over? <==> Stopped(ctl) && !r.Going?
      ensures r.NeedsInput? ==> reader.cur == |reader.input| && Starved() && Waiting()
      ensures r.NeedsRoom? ==> out.cur == out.end
      ensures r.NeedsRoom? || r.Over? ==> reader.numBits == 0 || !Waiting()
    {
      hide Accepted, Output.Holds, BytesToBits, Step, TablesHold, BitReader.Valid, Codes, Pow2, Resolve, Rank, Inside,
        Reading, Apart, Reached, NumberBits, SymbolSizes;
      ghost var before := View();
      gone, k := false, 0;
      if Stopped(ctl) {
        NothingAsked(ctl);
        return Over, 0, false;
      }
      OneStep(cfg, reader.All(), before);
      Places(ctl);
      if ctl.Stored? && ctl.left > 0 && reader.numBits == 0 {
        r, k := StoredStep();
        if r.NeedsInput? {
          StarvedNumber();
        }
      } else if NumberBits(ctl) > 0 {
        var ok := NumberStep();
        if ok {
          return Going, 1, false;
        }
        StarvedNumber();
        return NeedsInput, 0, false;
      } else if ctl.Symbols? && !inside && |reader.input| - reader.cur >= 4 && out.end - out.cur >= 2 {
        k, gone := FastStep();
        FailedRank(before.ctl);
        r := Going;
      } else if SymbolSizes(ctl) != [] {
        var ok;
        ok, gone := SymbolStep();
        if ok {
          return Going, 1, gone;
        }
        StarvedSymbol();
        return NeedsInput, 0, false;
      } else if ctl.Copy? && ctl.left > 0 {
        var ok;
        ok, k := CopyStep();
        if !ok {
          NothingAsked(ctl);
        }
        r := if ok then Going else NeedsRoom;
      } else if ctl.StoredByte? || ctl.Literal? {
        var ok := EmitStep();
        if ok {
          return Going, 1, false;
        }
        NothingAsked(ctl);
        return NeedsRoom, 0, false;
      } else {
        MoveStep();
        return Going, 1, false;
      }
    }

    lemma StarvedNumber()
      requires Core() && NumberBits(ctl) > 0 && reader.numBits < NumberBits(ctl) && reader.cur == |reader.input|
      ensures Starved() && Waiting()
    {
      hide Accepted, TakeNumber, BytesToBits, Resolve;
    }

    lemma StarvedSymbol()
      requires Core() && SymbolSizes(ctl) != [] && inside && reader.cur == |reader.input|
      ensures Starved() && Waiting()
    {
      hide Accepted, TakeSymbol, BytesToBits, Resolve;
      SymbolNoNumber(ctl);
      var bits := reader.All()[..8 * (reader.base + reader.cur)];
      assert bits[reader.Position()..] == reader.Held();
    }
  }

  lemma SymbolNoNumber(c: Control)
    requires Reached(c) && SymbolSizes(c) != []
    ensures NumberBits(c) == 0 && !c.Copy? && !c.ZlibHeader?
  {
    hide Accepted;
  }

  lemma HoleLiteral(cfg: Config, m: Machine)
    requires Sound(cfg, m) && m.ctl.Symbols?
    ensures var d := Literal(m.ctl.final, m.ctl.lit, m.ctl.dist, 0);
      Reached(d) && SameTables(m.ctl, d) && Rank(d) < Rank(m.ctl) && Inside(cfg, |m.out|, d)
    ensures TakeSymbol(cfg, |m.out|, m.ctl, 0, 0).Hole?
  {
    hide Accepted;
  }

  /** Only a literal/length symbol made of no bits leads to a hole. */
  lemma NotHole(cfg: Config, out: nat, c: Control, sym: nat, len: nat)
    requires Reached(c) && (c.LenCodes? || c.Symbols? || c.DistSymbol?) && (sym == 0 || sym < |SymbolSizes(c)|)
    requires len > 0 || !c.Symbols?
    ensures !TakeSymbol(cfg, out, c, sym, len).Hole?
  {
    hide Accepted, Placed, Same;
  }

  lemma CopyPlace(c: Control)
    requires c.Copy? && Reached(c)
    ensures SymbolSizes(c) == [] && NumberBits(c) == 0 && SameTables(c, Leaving(c, 0))
  {
  }

  lemma MovePlace(cfg: Config, bits: seq<bool>, m: Machine)
    requires Sound(cfg, m) && (m.ctl.StoredStart? || m.ctl.BuildCode? || m.ctl.BuildTables? || m.ctl.Trailer?
        || (m.ctl.Stored? && m.ctl.left == 0) || (m.ctl.Copy? && m.ctl.left == 0))
    ensures var (c, p) := Moves(cfg, m.ctl, m.pos);
      Step(cfg, bits, m) == m.(ctl := c, pos := p) && Rank(c) < Rank(m.ctl) && SymbolSizes(m.ctl) == [] && p >= m.pos
      && NumberBits(m.ctl) == 0 && !c.ZlibHeader? && (m.ctl.BuildCode? || m.ctl.BuildTables? || SameTables(m.ctl, c))
      && (!m.ctl.StoredStart? && !m.ctl.Trailer? ==> p == m.pos) && c == Moves(cfg, m.ctl, 0).0
  {
    hide Accepted;
  }

  lemma StoredNoSymbol(c: Control)
    requires Reached(c) && c.Stored? && c.left > 0
    ensures SymbolSizes(c) == [] && SameTables(c, Stored(c.final, c.left - 1))
  {
  }

  lemma LeftOver(pos: int, base: nat, cur: nat, numBits: nat)
    requires pos == 8 * (base + cur) - numBits && numBits % 8 == 0 && (numBits < 8 || cur == 0)
    ensures numBits == 0 <==> 8 * base <= pos
  {
  }

  lemma EightsApart(n: nat, c: nat, m: nat, d: nat)
    requires n % 8 == 0 && m - 8 * d == n - 8 * c
    ensures m % 8 == 0
  {
  }

  lemma StoredPlace(cfg: Config, bits: seq<bool>, m: Machine, c: byte)
    requires Sound(cfg, m) && m.ctl.Stored? && m.ctl.left > 0 && m.pos + 8 <= |bits|
    requires c == FromBits(bits[m.pos..m.pos + 8])
    ensures Run(cfg, bits, m, 2)
      == m.(ctl := Stored(m.ctl.final, m.ctl.left - 1), pos := m.pos + 8, out := m.out + [c])
  {
    hide Accepted, FromBits;
    var n := Run(cfg, bits, m, 1);
    assert n == Step(cfg, bits, Run(cfg, bits, m, 0));
    assert n == m.(ctl := StoredByte(m.ctl.final, m.ctl.left, c), pos := m.pos + 8);
    EmitPlace(cfg, bits, n);
  }

  /** A literal/length symbol. */
  lemma SymbolIs(cfg: Config, bits: seq<bool>, m: Machine, sym: nat, len: nat)
    requires Sound(cfg, m) && m.ctl.Symbols? && m.pos <= |bits| && Resolve(m.ctl.lit, bits[m.pos..]) == Some((sym, len))
    ensures Codes(m.ctl.lit, m.ctl.dist) && sym < 288
    ensures Run(cfg, bits, m, 1) == m.(
      ctl := if len == 0 then Hole else AfterSymbol(m.ctl.final, m.ctl.lit, m.ctl.dist, sym),
      pos := m.pos + len, holed := m.holed || len == 0)
    ensures var d := AfterSymbol(m.ctl.final, m.ctl.lit, m.ctl.dist, sym);
      SameTables(m.ctl, d) && !d.ZlibHeader? && !d.Copy? && SameTables(m.ctl, Failed)
    ensures sym < 256 ==>
      AfterSymbol(m.ctl.final, m.ctl.lit, m.ctl.dist, sym) == Literal(m.ctl.final, m.ctl.lit, m.ctl.dist, sym)
  {
    hide Accepted, Resolve, Step;
    SymbolPlace(cfg, bits, m, sym, len);
    OneStep(cfg, bits, m);
  }

  /** A literal made of nothing leads back to where no code begins. */
  lemma HoleAgain(cfg: Config, bits: seq<bool>, m: Machine, n: Machine)
    requires Sound(cfg, m) && m.ctl.Symbols? && m.pos <= |bits| && Step(cfg, bits, m).ctl.Hole? && Sound(cfg, n)
    requires n == m.(ctl := Literal(m.ctl.final, m.ctl.lit, m.ctl.dist, 0), holed := true)
    ensures Run(cfg, bits, n, 2).ctl.Hole?
  {
    hide Accepted, Resolve;
    EmitPlace(cfg, bits, n);
    assert Run(cfg, bits, n, 0) == n;
    assert Run(cfg, bits, n, 1) == n.(ctl := m.ctl, out := n.out + [0]);
  }

  lemma FailedSound(cfg: Config, m: Machine, n: Machine)
    requires Sound(cfg, m) && n.ctl.Failed? && |n.out| >= |m.out|
    ensures Sound(cfg, n)
  {
  }

  /** What follows a literal/length symbol needs no other tables. */
  predicate AfterSymbolTables(c: Control, sym: nat) {
    && c.Symbols? && Codes(c.lit, c.dist) && sym < 288
    && var d := AfterSymbol(c.final, c.lit, c.dist, sym);
       SameTables(c, d) && !d.ZlibHeader? && !d.Copy? && SameTables(c, c) && SameTables(c, Failed)
  }

  /** Where the machine is after a literal and the symbol that follows it. */
  function Second(m: Machine, sym: byte, len: nat, sym2: nat, len2: nat): (t: Machine)
    requires AfterSymbolTables(m.ctl, sym2)
  {
    m.(ctl := if len2 == 0 then Hole else AfterSymbol(m.ctl.final, m.ctl.lit, m.ctl.dist, sym2),
       pos := m.pos + len + len2, out := m.out + [sym], holed := m.holed || len2 == 0)
  }

  /** The symbol after a literal. */
  lemma SecondIs(cfg: Config, bits: seq<bool>, m: Machine, sym: byte, len: nat, sym2: nat, len2: nat)
    requires Sound(cfg, m) && m.ctl.Symbols? && m.pos + len <= |bits|
    requires Run(cfg, bits, m, 1)
      == m.(ctl := Literal(m.ctl.final, m.ctl.lit, m.ctl.dist, sym), pos := m.pos + len)
    requires Resolve(m.ctl.lit, bits[m.pos + len..]) == Some((sym2, len2))
    ensures AfterSymbolTables(m.ctl, sym2) && Run(cfg, bits, m, 3) == Second(m, sym, len, sym2, len2)
    ensures sym2 < 256 && len2 > 0 ==>
      Run(cfg, bits, m, 4) == m.(pos := m.pos + len + len2, out := m.out + [sym] + [sym2])
  {
    hide Accepted, Resolve, Step, AfterSymbol;
    var n := Run(cfg, bits, m, 1);
    EmitPlace(cfg, bits, n);
    var p := Run(cfg, bits, m, 2);
    SymbolIs(cfg, bits, p, sym2, len2);
    RunAdd(cfg, bits, m, 2, 1);
    if sym2 < 256 && len2 > 0 {
      EmitPlace(cfg, bits, Run(cfg, bits, m, 3));
    }
  }

  /** Every place that has not stopped asks for bits, a symbol or room, or moves on. */
  lemma Places(c: Control)
    requires Reached(c) && !Stopped(c)
    ensures NumberBits(c) > 0 || SymbolSizes(c) != [] || (c.Copy? && c.left > 0) || c.StoredByte? || c.Literal?
      || c.StoredStart? || c.BuildCode? || c.BuildTables? || c.Trailer?
      || (c.Stored? && c.left == 0) || (c.Copy? && c.left == 0)
    ensures c.Stored? && c.left > 0 ==> NumberBits(c) == 8
    ensures c.Stored? || c.Copy? || c.StoredByte? || c.Literal? ==> SymbolSizes(c) == []
    ensures (c.Stored? && c.left == 0) || c.Copy? || c.StoredByte? || c.Literal? ==> NumberBits(c) == 0
  {
    hide Accepted;
  }

  lemma NothingAsked(c: Control)
    requires Reached(c) && (Stopped(c) || c.Copy? || c.StoredByte? || c.Literal?)
    ensures NumberBits(c) == 0 && SymbolSizes(c) == []
  {
  }

  lemma FailedRank(c: Control)
    requires c.Symbols?
    ensures Rank(Failed) < Rank(c)
  {
  }
}
