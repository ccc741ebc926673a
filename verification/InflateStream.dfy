/** The bit buffer of the inflater: what it holds is always the next bits of the whole input, no
    matter in which pieces the input arrives and how far it was read ahead. */
module InflateStream {
  import opened Bits
  import opened Options
  import opened InflateCode
  import opened InflateTables

  // ----- symbols from bits that may not be all there yet -----

  /** The symbol the next bits stand for, if the bits that are there decide it; where no code
      begins, fifteen bits are asked for. */
  ghost function Resolve(sizes: seq<nat>, r: seq<bool>): (a: Option<(nat, nat)>) {
    var (s, d) := Meaning(sizes, Pad(r, MAX_BITS));
    if 0 < d <= |r| || |r| >= MAX_BITS then Some((s, d)) else None
  }

  /** A meaning depends on no bit after its own. */
  lemma MeaningDetermined(sizes: seq<nat>, b: seq<bool>, c: seq<bool>)
    requires Lengths(sizes) && NextCode(sizes, 16) <= 65536 && |b| == |c| == MAX_BITS
    requires var d := Meaning(sizes, b).1; 0 < d <= MAX_BITS && b[..d] == c[..d]
    ensures Meaning(sizes, c) == Meaning(sizes, b)
  {
    hide Codeword;
    var (s, d) := Meaning(sizes, b);
    if t: nat :| Begins(sizes, t, b) {
      BeginsOnce(sizes, t, b);
      assert Codeword(sizes, t) == b[..d];
      assert Begins(sizes, t, c);
      BeginsOnce(sizes, t, c);
    } else {
      HoleBounds(sizes, b, LOOKUP_BITS);
      assert forall e :: 0 <= e <= d ==> c[..e] == b[..d][..e] == b[..e];
      forall t: nat
        ensures !Begins(sizes, t, c)
      {
        if t < |sizes| && sizes[t] > 0 {
          HoleHasNone(sizes, b, c, d, t);
        }
      }
      HoleHere(sizes, c, d - 1, LOOKUP_BITS);
    }
  }

  /** A hole lies right after the last place inside the code. */
  lemma {:induction false} HoleBounds(sizes: seq<nat>, b: seq<bool>, c: nat)
    requires Lengths(sizes) && LOOKUP_BITS <= c <= |b| == MAX_BITS
    requires c == LOOKUP_BITS || Inner(sizes, |sizes|, b[..c - 1])
    ensures var d := HoleLength(sizes, b, c);
      d <= MAX_BITS && (d > 0 ==>
        d > LOOKUP_BITS && Inner(sizes, |sizes|, b[..d - 1]) && !Inner(sizes, |sizes|, b[..d]))
    decreases |b| - c
  {
    hide Codeword;
    NoneAtEnd(sizes, b);
    if Inner(sizes, |sizes|, b[..c]) {
      HoleBounds(sizes, b, c + 1);
    }
  }

  lemma NoneAtEnd(sizes: seq<nat>, b: seq<bool>)
    requires Lengths(sizes) && |b| == MAX_BITS
    ensures !Inner(sizes, |sizes|, b[..MAX_BITS])
  {
  }

  lemma HoleHasNone(sizes: seq<nat>, b: seq<bool>, c: seq<bool>, d: nat, t: nat)
    requires Lengths(sizes) && NextCode(sizes, 16) <= 65536 && |b| == |c| == MAX_BITS && 0 < d <= MAX_BITS
    requires Inner(sizes, |sizes|, b[..d - 1]) && !Inner(sizes, |sizes|, b[..d])
    requires b[..d] == c[..d] && b[..d - 1] == c[..d - 1]
    requires t < |sizes| && sizes[t] > 0 && !Begins(sizes, t, b)
    ensures !(Codeword(sizes, t) <= c)
  {
    hide Codeword;
    NoneBelow(sizes, t, c[..d - 1]);
    PlacesOf(sizes, t, c, d - 1);
    IsBegins(sizes, t, b, d);
  }

  lemma IsBegins(sizes: seq<nat>, t: nat, b: seq<bool>, d: nat)
    requires t < |sizes| && d <= |b|
    ensures Is(sizes, t, b[..d]) ==> Begins(sizes, t, b)
  {
    hide Codeword;
  }

  /** What fewer bits decide, more bits do not change. */
  lemma ResolveMore(sizes: seq<nat>, r: seq<bool>, more: seq<bool>)
    requires Lengths(sizes) && NextCode(sizes, 16) <= 65536 && Resolve(sizes, r).Some?
    ensures Resolve(sizes, r + more) == Resolve(sizes, r)
  {
    hide Meaning;
    var b, c := Pad(r, MAX_BITS), Pad(r + more, MAX_BITS);
    var d := Meaning(sizes, b).1;
    if |r| >= MAX_BITS {
      assert b == c;
    } else {
      assert b[..d] == c[..d];
      MeaningDetermined(sizes, b, c);
    }
  }

  lemma MeaningAtMost15(sizes: seq<nat>, b: seq<bool>)
    requires Lengths(sizes) && |b| == MAX_BITS
    ensures Meaning(sizes, b).1 <= MAX_BITS && (Meaning(sizes, b).0 < |sizes| || Meaning(sizes, b).0 == 0)
    ensures Meaning(sizes, b).1 == 0 ==> Meaning(sizes, b).0 == 0
  {
    hide Codeword;
    HoleBounds(sizes, b, LOOKUP_BITS);
  }

  // ----- the bit buffer -----

  class HuffTable {
    const lookup: array<int>
    const tree: array<int>
    ghost var paths: seq<seq<bool>>

    ghost predicate Allocated()
    {
      lookup != tree && lookup.Length == LOOKUP_SIZE && tree.Length >= 10
    }

    /** The tables are those of the code with these lengths. */
    ghost predicate Holds(sizes: seq<nat>)
      requires Allocated()
      reads this, lookup, tree
    {
      Inv(sizes, |sizes|, 0, lookup[..], tree[..], paths)
    }

    constructor (symbols: nat)
      requires symbols >= 5
      ensures Allocated() && tree.Length == 2 * symbols && fresh(lookup) && fresh(tree)
    {
      lookup, tree := new int[LOOKUP_SIZE], new int[2 * symbols];
      paths := [];
    }
  }

  class BitReader {
    /** The input of the current call, and how far it is read. */
    var input: seq<byte>
    var cur: nat
    var bitBuf: nat
    var numBits: nat
    /** All input there will be, and where the current call's begins in it. */
    ghost var stream: seq<byte>
    ghost var base: nat

    ghost function All(): (b: seq<bool>)
      reads this`stream
    {
      BytesToBits(stream)
    }

    /** Where the bits not used yet begin. */
    ghost function Position(): int
      reads this
    {
      8 * (base + cur) - numBits
    }

    /** Where the bits of the current call's input end. */
    ghost function Limit(): nat
      reads this
    {
      8 * (base + |input|)
    }

    /** The bits from place `p` on, as far as they are taken from the input. */
    ghost function Since(p: int): (b: seq<bool>)
      reads this`stream, this`base, this`cur
    {
      if 0 <= p <= 8 * (base + cur) <= |All()| then All()[p..8 * (base + cur)] else []
    }

    /** 8 times the bytes taken, less the bits held, is the number of bits used; and the bits held
        are the stream's next ones, with zeros above. */
    ghost predicate Valid()
      reads this
    {
      && cur <= |input| && base + |input| <= |stream| && stream[base..base + |input|] == input
      && numBits <= 64 && 0 <= Position()
      && bitBuf == FromBits(All()[Position()..8 * (base + cur)])
    }

    /** Giving back whole bytes of this call's input can leave no more than seven bits. */
    predicate Tight()
      reads this
    {
      numBits < 8 * cur + 8
    }

    /** Only the reading has gone on. */
    twostate predicate Advanced()
      reads this
    {
      stream == old(stream) && base == old(base) && input == old(input)
    }

    constructor (ghost s: seq<byte>)
      ensures Valid() && stream == s && base == 0 && input == [] && Position() == 0 && numBits == 0
    {
      input, cur, bitBuf, numBits, base := [], 0, 0, 0, 0;
      stream := s;
      new;
      assert All()[0..0] == [];
    }

    /** A new call: its input follows what was taken before, and the bits held stay. */
    method NextInput(more: seq<byte>)
      requires Valid() && base + cur + |more| <= |stream| && stream[base + cur..base + cur + |more|] == more
      modifies this
      ensures Valid() && stream == old(stream) && input == more && cur == 0 && base == old(base + cur)
      ensures numBits == old(numBits) && Position() == old(Position()) && Held() == old(Held())
    {
      hide BytesToBits, FromBits;
      base := base + cur;
      input, cur := more, 0;
    }

    /** `TINFL_GET_BYTE` into the bit buffer */
    method Fetch()
      requires Valid() && cur < |input| && numBits <= 56
      modifies this
      ensures Valid() && Advanced() && Position() == old(Position())
      ensures cur == old(cur) + 1 && numBits == old(numBits) + 8
    {
      hide BytesToBits, FromBits, ToBits, Pow2;
      ghost var p, e := Position(), 8 * (base + cur);
      ByteInStream(stream, base + cur);
      BitsAppend(All(), p, e, e + 8);
      ToFromByte(input[cur]);
      assert stream[base + cur] == input[cur];
      bitBuf := bitBuf + Pow2(numBits) * input[cur];
      cur := cur + 1;
      numBits := numBits + 8;
    }

    /** `n` bits off the buffer */
    method Take(n: nat) returns (v: nat)
      requires Valid() && n <= numBits
      modifies this
      ensures Valid() && Advanced() && Position() == old(Position()) + n
      ensures cur == old(cur) && numBits == old(numBits) - n
      ensures v == FromBits(All()[old(Position())..old(Position()) + n])
    {
      hide FromBits, BytesToBits, Pow2;
      ghost var p, held := Position(), All()[Position()..8 * (base + cur)];
      FromBitsSplit(held, n);
      assert held[..n] == All()[p..p + n] && held[n..] == All()[p + n..8 * (base + cur)];
      v := bitBuf % Pow2(n);
      bitBuf := bitBuf / Pow2(n);
      numBits := numBits - n;
    }

    /** `TINFL_GET_BITS`: fails only at the end of this call's input, with too few bits held. */
    method GetBits(n: nat) returns (ok: bool, v: nat)
      requires Valid() && n <= 16
      modifies this
      ensures Valid() && Advanced()
      ensures ok ==> Position() == old(Position()) + n <= Limit() <= |All()|
      ensures ok && (old(Tight()) || old(numBits) < n) ==> Tight()
      ensures ok ==> v == FromBits(All()[old(Position())..old(Position()) + n])
      ensures !ok ==> Position() == old(Position()) && cur == |input| && numBits < n
    {
      while numBits < n
        invariant Valid() && Advanced() && Position() == old(Position())
        invariant (cur == old(cur) && numBits == old(numBits)) || numBits < n + 8
      {
        if cur >= |input| {
          return false, 0;
        }
        Fetch();
      }
      v := Take(n);
      ok := true;
    }

    /** `TINFL_GET_BYTE` past an empty bit buffer */
    method GetByte() returns (ok: bool, c: byte)
      requires Valid() && numBits == 0
      modifies this
      ensures Valid() && Advanced() && Tight() && numBits == 0
      ensures ok ==> Position() == old(Position()) + 8 <= Limit() <= |All()|
      ensures ok ==> c == FromBits(All()[old(Position())..old(Position()) + 8])
      ensures !ok ==> Position() == old(Position()) && cur == |input|
    {
      if cur >= |input| {
        return false, 0;
      }
      ByteInStream(stream, base + cur);
      ToFromByte(input[cur]);
      assert stream[base + cur] == input[cur];
      c := input[cur];
      cur := cur + 1;
      ok := true;
      assert All()[Position()..8 * (base + cur)] == [];
    }

    /** `TINFL_SKIP_BITS` up to the next whole byte */
    method Align()
      requires Valid()
      modifies this
      ensures Valid() && Advanced() && cur == old(cur)
      ensures Position() == (old(Position()) + 7) / 8 * 8 && numBits % 8 == 0 && numBits <= old(numBits)
      ensures old(Tight()) ==> Tight()
    {
      hide BytesToBits, FromBits;
      RoundUp(base + cur, numBits);
      var v := Take(numBits % 8);
    }

    /** Whole bytes of this call's input that were read ahead are given back. */
    method PushBack()
      requires Valid()
      modifies this
      ensures Valid() && Advanced() && Position() == old(Position()) && cur <= old(cur)
      ensures numBits < 8 || cur == 0
      ensures numBits - 8 * cur == old(numBits) - 8 * old(cur)
      ensures old(Tight()) ==> numBits < 8
    {
      hide BytesToBits, FromBits, Pow2;
      ghost var p, e := Position(), 8 * (base + cur);
      ghost var held := All()[p..e];
      while cur > 0 && numBits >= 8
        invariant cur <= old(cur) && Advanced()
        invariant numBits - 8 * cur == old(numBits) - 8 * old(cur) && numBits <= old(numBits)
        invariant bitBuf == old(bitBuf)
      {
        cur := cur - 1;
        numBits := numBits - 8;
      }
      FromBitsSplit(held, numBits);
      assert held[..numBits] == All()[p..p + numBits];
      bitBuf := bitBuf % Pow2(numBits);
    }

    /** The bits in the buffer. */
    ghost function Held(): (b: seq<bool>)
      requires Valid()
      reads this
      ensures |b| == numBits && FromBits(b) == bitBuf
    {
      All()[Position()..8 * (base + cur)]
    }

    /** The bits from here on, as far as they will ever come. */
    ghost function Ahead(): (b: seq<bool>)
      requires Valid()
      reads this
      ensures numBits <= |b| && Held() == b[..numBits]
    {
      All()[Position()..]
    }

    /** The table walk of `TINFL_HUFF_DECODE`, on the buffer with zeros above. */
    method Lookup(t: HuffTable, ghost sizes: seq<nat>) returns (sym: nat, codeLen: nat)
      requires Valid() && t.Allocated() && t.Holds(sizes)
      ensures (sym, codeLen) == Meaning(sizes, Pad(Held(), MAX_BITS))
    {
      hide Inv, Meaning, Pow2, Pad;
      ghost var b := Pad(Held(), MAX_BITS);
      ReadMeaning(sizes, t.lookup[..], t.tree[..], t.paths, b);
      IndexOfHeld(Held());
      var temp := t.lookup[bitBuf % LOOKUP_SIZE];
      if temp >= 0 {
        return temp % 512, temp / 512;
      }
      ghost var m := RootPair(sizes, t.lookup[..], t.tree[..], t.paths, b);
      codeLen := LOOKUP_BITS;
      while temp < 0
        invariant LOOKUP_BITS <= codeLen <= MAX_BITS
        invariant temp < 0 ==> codeLen < MAX_BITS && 0 <= m < |t.paths| && t.paths[m] == b[..codeLen] && temp == Link(m)
        invariant Meaning(sizes, b) == if temp < 0 then Walk(t.tree[..], temp, b, codeLen) else (temp, codeLen)
        decreases MAX_BITS - codeLen, if temp < 0 then 1 else 0
      {
        temp, m := NextPair(t, sizes, temp, codeLen, b, m);
        codeLen := codeLen + 1;
      }
      sym := temp;
    }

    /** One step of the walk. */
    method NextPair(t: HuffTable, ghost sizes: seq<nat>, temp: int, codeLen: nat, ghost b: seq<bool>, ghost m: nat)
      returns (next: int, ghost n: nat)
      requires Valid() && t.Allocated() && t.Holds(sizes) && b == Pad(Held(), MAX_BITS)
      requires LOOKUP_BITS <= codeLen < MAX_BITS && m < |t.paths| && t.paths[m] == b[..codeLen] && temp == Link(m)
      ensures next < 0 ==> codeLen + 1 < MAX_BITS && n < |t.paths| && t.paths[n] == b[..codeLen + 1] && next == Link(n)
      ensures Walk(t.tree[..], temp, b, codeLen)
        == if next < 0 then Walk(t.tree[..], next, b, codeLen + 1) else (next, codeLen + 1)
    {
      hide Inv, Pad, TreeCell, Pow2;
      n := NextCell(sizes, t.lookup[..], t.tree[..], t.paths, m, b, codeLen);
      BitOfHeld(Held(), codeLen);
      next := t.tree[-1 - temp + bitBuf / Pow2(codeLen) % 2];
    }

    /** The test of `TINFL_HUFF_BITBUF_FILL`: do the bits held decide the symbol? */
    method Decided(t: HuffTable, ghost sizes: seq<nat>) returns (done: bool)
      requires Valid() && t.Allocated() && t.Holds(sizes) && numBits < MAX_BITS
      ensures done <==> Resolve(sizes, Held()).Some?
    {
      hide Inv, Meaning, Pow2, Pad, Walk;
      ghost var b := Pad(Held(), MAX_BITS);
      ReadMeaning(sizes, t.lookup[..], t.tree[..], t.paths, b);
      IndexOfHeld(Held());
      var temp := t.lookup[bitBuf % LOOKUP_SIZE];
      var codeLen;
      if temp >= 0 {
        codeLen := temp / 512;
        return codeLen != 0 && numBits >= codeLen;
      }
      ghost var m := RootPair(sizes, t.lookup[..], t.tree[..], t.paths, b);
      codeLen := LOOKUP_BITS;
      WalkAtLeast(t.tree[..], temp, b, codeLen);
      if numBits <= LOOKUP_BITS {
        PairIsFurther(sizes, t.lookup[..], t.tree[..], t.paths, m, b, codeLen);
        return false;
      }
      while temp < 0 && numBits >= codeLen + 1
        invariant LOOKUP_BITS <= codeLen <= numBits
        invariant temp < 0 ==> codeLen < MAX_BITS && 0 <= m < |t.paths| && t.paths[m] == b[..codeLen] && temp == Link(m)
        invariant Meaning(sizes, b) == if temp < 0 then Walk(t.tree[..], temp, b, codeLen) else (temp, codeLen)
        decreases MAX_BITS - codeLen, if temp < 0 then 1 else 0
      {
        temp, m := NextPair(t, sizes, temp, codeLen, b, m);
        codeLen := codeLen + 1;
      }
      if temp < 0 {
        PairIsFurther(sizes, t.lookup[..], t.tree[..], t.paths, m, b, codeLen);
      }
      done := temp >= 0;
    }

    /** The bits held are no more than the symbol they decide needs, and at most seven over. */
    ghost predicate Lean(sizes: seq<nat>)
      requires Valid()
      reads this
    {
      Resolve(sizes, Held()).Some? ==>
        Resolve(sizes, Held()).value.1 == 0 || numBits < Resolve(sizes, Held()).value.1 + 8
    }

    /** A byte that is really needed. */
    method FetchNeeded(ghost sizes: seq<nat>)
      requires Valid() && cur < |input| && numBits <= 56
      requires Lengths(sizes) && NextCode(sizes, 16) <= 65536 && Resolve(sizes, Held()).None?
      modifies this
      ensures Valid() && Advanced() && Position() == old(Position())
      ensures cur == old(cur) + 1 && numBits == old(numBits) + 8 && Lean(sizes)
    {
      hide Resolve, Lengths, NextCode;
      ghost var before := Held();
      Fetch();
      HeldMore(before);
      ghost var byte := Held()[|before|..];
      assert Held() == before + byte;
      if Resolve(sizes, Held()).Some? {
        NeedsMore(sizes, before, byte);
      }
    }

    /** `TINFL_HUFF_BITBUF_FILL`: single bytes until the bits decide the symbol, and no byte more.
        `resumed` is set when the last call ended inside, waiting for a byte. */
    method Fill(t: HuffTable, ghost sizes: seq<nat>, resumed: bool) returns (ok: bool)
      requires Valid() && Lengths(sizes) && NextCode(sizes, 16) <= 65536 && t.Allocated() && t.Holds(sizes)
      requires numBits < MAX_BITS && (resumed ==> Resolve(sizes, Held()).None?)
      modifies this
      ensures Valid() && Advanced() && Position() == old(Position()) && numBits <= 22
      ensures ok <==> Resolve(sizes, Held()).Some?
      ensures (numBits == old(numBits) && cur == old(cur)) || Lean(sizes)
      ensures !ok ==> cur == |input| && numBits < MAX_BITS
    {
      hide Resolve, Lengths, NextCode, HuffTable.Holds, Lean;
      var fetch := resumed;
      while true
        invariant Valid() && Advanced() && Position() == old(Position()) && numBits < MAX_BITS
        invariant fetch ==> Resolve(sizes, Held()).None?
        invariant (numBits == old(numBits) && cur == old(cur)) || Lean(sizes)
        decreases |input| - cur, fetch
      {
        if !fetch {
          var done := Decided(t, sizes);
          if done {
            return true;
          }
        }
        if cur >= |input| {
          return false;
        }
        FetchNeeded(sizes);
        fetch := false;
        if numBits >= MAX_BITS {
          FullyDecided(sizes, Held());
          return true;
        }
      }
    }

    /** After a byte was fetched, what was held is still first. */
    lemma HeldMore(before: seq<bool>)
      requires Valid() && |before| <= numBits && Position() + |before| <= |All()|
      requires before == All()[Position()..Position() + |before|]
      ensures before == Held()[..|before|]
    {
    }

    /** A symbol from a buffer that holds enough bits for any. */
    method DecodeHeld(t: HuffTable, ghost sizes: seq<nat>) returns (sym: nat, codeLen: nat)
      requires Valid() && Lengths(sizes) && NextCode(sizes, 16) <= 65536 && t.Allocated() && t.Holds(sizes)
      requires numBits >= MAX_BITS
      modifies this
      ensures Valid() && Advanced() && cur == old(cur) && numBits == old(numBits) - codeLen
      ensures Resolve(sizes, old(Ahead())) == Some((sym, codeLen)) && Position() == old(Position()) + codeLen <= Limit() <= |All()|
      ensures codeLen <= MAX_BITS
    {
      hide Resolve, Lengths, NextCode, HuffTable.Holds;
      sym, codeLen := Lookup(t, sizes);
      HeldSince();
      LookupResolves(sizes, Held(), Ahead(), sym, codeLen);
      var bits := Take(codeLen);
    }

    /** Enough bits for the symbol: two bytes at once where there are two, else what is needed. */
    method Prepare(t: HuffTable, ghost sizes: seq<nat>, resumed: bool) returns (ok: bool)
      requires Valid() && Lengths(sizes) && NextCode(sizes, 16) <= 65536 && t.Allocated() && t.Holds(sizes)
      requires resumed ==> numBits < MAX_BITS && Resolve(sizes, Held()).None?
      modifies this
      ensures Valid() && Advanced() && Position() == old(Position())
      ensures ok ==> numBits >= MAX_BITS || Resolve(sizes, Held()).Some?
      ensures ok ==> Lean(sizes) || (old(Tight()) && !resumed ==> Tight())
      ensures ok && resumed ==> Lean(sizes)
      ensures !ok ==> cur == |input| && numBits < MAX_BITS && Resolve(sizes, Held()).None?
    {
      hide HuffTable.Holds, Resolve, Lengths, NextCode, BytesToBits, Lean;
      ok := true;
      if numBits < MAX_BITS {
        if resumed || |input| - cur < 2 {
          ok := Fill(t, sizes, resumed);
        } else {
          Fetch();
          Fetch();
        }
      }
    }

    lemma HeldSince()
      requires Valid()
      ensures Since(Position()) == Held()
    {
      hide BytesToBits, FromBits;
    }

    /** `TINFL_HUFF_DECODE`: the symbol the stream's next bits stand for. */
    method HuffDecode(t: HuffTable, ghost sizes: seq<nat>, resumed: bool) returns (ok: bool, sym: nat, codeLen: nat)
      requires Valid() && Lengths(sizes) && NextCode(sizes, 16) <= 65536 && t.Allocated() && t.Holds(sizes)
      requires resumed ==> numBits < MAX_BITS && Resolve(sizes, Held()).None?
      modifies this
      ensures Valid() && Advanced()
      ensures ok ==> Resolve(sizes, old(Ahead())) == Some((sym, codeLen)) && Position() == old(Position()) + codeLen <= Limit() <= |All()|
      ensures ok ==> Resolve(sizes, Since(old(Position()))) == Some((sym, codeLen))
      ensures ok ==> codeLen <= MAX_BITS && (codeLen > 0 && (old(Tight()) || resumed) ==> Tight())
      ensures !ok ==> Position() == old(Position()) && cur == |input| && numBits < MAX_BITS
      ensures !ok ==> Resolve(sizes, Held()).None?
    {
      hide HuffTable.Holds, Resolve, Lengths, NextCode, BytesToBits, Since;
      ghost var ahead := Ahead();
      ok := Prepare(t, sizes, resumed);
      if !ok {
        return false, 0, 0;
      }
      sym, codeLen := Lookup(t, sizes);
      HeldSince();
      LookupResolves(sizes, Held(), ahead, sym, codeLen);
      var bits := Take(codeLen);
    }
  }

  lemma {:induction false} ByteInStream(s: seq<byte>, i: nat)
    requires i < |s|
    ensures BytesToBits(s)[8 * i..8 * i + 8] == ToBits(s[i], 8)
  {
    assert s == s[..i] + ([s[i]] + s[i + 1..]);
    BytesToBitsConcat(s[..i], [s[i]] + s[i + 1..]);
    assert ([s[i]] + s[i + 1..])[1..] == s[i + 1..];
  }

  lemma RoundUp(x: nat, n: nat)
    ensures (8 * x - n + 7) / 8 * 8 == 8 * x - n + n % 8 && (n - n % 8) % 8 == 0
  {
    var q := n / 8;
    assert n == 8 * q + n % 8;
  }

  /** A complete code has no holes; only tables of at most one code do. */
  lemma CompleteHasNoHoles(sizes: seq<nat>, b: seq<bool>)
    requires Lengths(sizes) && NextCode(sizes, 16) == 65536 && |b| == MAX_BITS
    ensures Meaning(sizes, b).1 > 0 && Begins(sizes, Meaning(sizes, b).0, b)
  {
    hide Codeword, NextCode;
    var s := CompleteCovers(sizes, b);
    BeginsOnce(sizes, s, b);
  }

  /** The low bits of the buffer index the table. */
  lemma IndexOfHeld(held: seq<bool>)
    ensures FromBits(held) % LOOKUP_SIZE == Index(Pad(held, MAX_BITS)[..LOOKUP_BITS])
  {
    Pow10();
    if |held| >= MAX_BITS {
      FromBitsSplit(held, LOOKUP_BITS);
      assert held[..LOOKUP_BITS] == Pad(held, MAX_BITS)[..LOOKUP_BITS];
    } else {
      PadValue(held, MAX_BITS);
      FromBitsSplit(Pad(held, MAX_BITS), LOOKUP_BITS);
    }
  }

  lemma BitOfHeld(held: seq<bool>, i: nat)
    requires i < MAX_BITS
    ensures FromBits(held) / Pow2(i) % 2 == Bit(Pad(held, MAX_BITS)[i])
  {
    hide FromBits, Pow2;
    var b := if |held| >= MAX_BITS then held else Pad(held, MAX_BITS);
    if |held| < MAX_BITS {
      PadValue(held, MAX_BITS);
    }
    FromBitsSplit(b, i);
    FirstBit(b[i..]);
  }

  lemma FirstBit(b: seq<bool>)
    requires b != []
    ensures FromBits(b) % 2 == Bit(b[0])
  {
  }

  lemma RootPair(sizes: seq<nat>, lookup: seq<int>, tree: seq<int>, paths: seq<seq<bool>>, b: seq<bool>) returns (m: nat)
    requires Inv(sizes, |sizes|, 0, lookup, tree, paths) && |b| == MAX_BITS && lookup[Index(b[..LOOKUP_BITS])] < 0
    ensures m < |paths| && paths[m] == b[..LOOKUP_BITS] && lookup[Index(b[..LOOKUP_BITS])] == Link(m)
  {
    hide Codeword, Inner;
    var q := b[..LOOKUP_BITS];
    assert LookCell(sizes, |sizes|, paths, lookup[Index(q)], q);
    m :| m < |paths| && paths[m] == q && lookup[Index(q)] == Link(m);
  }

  lemma {:induction false} WalkAtLeast(tree: seq<int>, e: int, b: seq<bool>, d: nat)
    requires d <= |b|
    ensures Walk(tree, e, b, d).1 >= d
    decreases |b| - d
  {
    var at := -1 - e;
    if !(d >= |b| || at < 0 || at + 1 >= |tree|) && tree[at + Bit(b[d])] < 0 {
      WalkAtLeast(tree, tree[at + Bit(b[d])], b, d + 1);
    }
  }

  /** A symbol below a pair takes more bits than lead to the pair. */
  lemma PairIsFurther(sizes: seq<nat>, lookup: seq<int>, tree: seq<int>, paths: seq<seq<bool>>, m: nat, b: seq<bool>, d: nat)
    requires Inv(sizes, |sizes|, 0, lookup, tree, paths) && |b| == MAX_BITS
    requires m < |paths| && LOOKUP_BITS <= d < MAX_BITS && paths[m] == b[..d]
    ensures Walk(tree, Link(m), b, d).1 > d
  {
    hide Inv, TreeCell;
    var n := NextCell(sizes, lookup, tree, paths, m, b, d);
    WalkAtLeast(tree, tree[2 * m + Bit(b[d])], b, d + 1);
  }

  lemma FullyDecided(sizes: seq<nat>, r: seq<bool>)
    requires |r| >= MAX_BITS
    ensures Resolve(sizes, r).Some?
  {
  }

  /** What the bits held decide is what the whole rest of the stream says. */
  lemma LookupResolves(sizes: seq<nat>, held: seq<bool>, ahead: seq<bool>, sym: nat, d: nat)
    requires Lengths(sizes) && NextCode(sizes, 16) <= 65536 && held <= ahead
    requires (sym, d) == Meaning(sizes, Pad(held, MAX_BITS)) && (|held| >= MAX_BITS || Resolve(sizes, held).Some?)
    ensures Resolve(sizes, held) == Some((sym, d)) && d <= |held| && d <= MAX_BITS
    ensures Resolve(sizes, ahead) == Some((sym, d))
  {
    hide Meaning;
    MeaningAtMost15(sizes, Pad(held, MAX_BITS));
    ResolveMore(sizes, held, ahead[|held|..]);
    assert held + ahead[|held|..] == ahead;
  }

  /** If a byte more decides the symbol, the symbol takes bits of that byte. */
  lemma NeedsMore(sizes: seq<nat>, r: seq<bool>, more: seq<bool>)
    requires Lengths(sizes) && NextCode(sizes, 16) <= 65536
    requires Resolve(sizes, r).None? && Resolve(sizes, r + more).Some?
    ensures var d := Resolve(sizes, r + more).value.1; d == 0 || d > |r|
  {
    hide Meaning;
    var b, c := Pad(r, MAX_BITS), Pad(r + more, MAX_BITS);
    var d := Meaning(sizes, c).1;
    if 0 < d <= |r| {
      assert b[..d] == c[..d];
      MeaningDetermined(sizes, c, b);
    }
  }

  lemma ToFromByte(c: byte)
    ensures FromBits(ToBits(c, 8)) == c
  {
    assert Pow2(8) == 256;
    ToFromBits(c, 8);
  }

  lemma BitsAppend(b: seq<bool>, p: nat, e: nat, f: nat)
    requires p <= e <= f <= |b|
    ensures FromBits(b[p..f]) == FromBits(b[p..e]) + Pow2(e - p) * FromBits(b[e..f])
  {
    assert b[p..f] == b[p..e] + b[e..f];
    FromBitsConcat(b[p..e], b[e..f]);
  }
}
