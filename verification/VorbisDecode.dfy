/** The two-stage Huffman decoder, and the round trip it completes. */
module VorbisDecode {
  import opened Bits
  import opened Words
  import opened VorbisTree
  import opened VorbisMatch
  import opened VorbisCodewords
  import opened VorbisCodebook
  import opened VorbisSetup
  import opened VorbisPages
  import opened VorbisPacket
  import opened Options

  /** The accumulator starts with the codeword of symbol `s`. */
  ghost predicate Starts(lens: seq<nat>, codes: seq<nat>, s: nat, acc: nat)
    requires ValidLengths(lens) && s < |lens| && s < |codes|
  {
    Used(lens, s) && acc % Pow2(lens[s]) == BitReverse(codes[s])
  }

  lemma LowBits(acc: nat, d: nat)
    requires d <= FAST_LENGTH
    ensures acc % FAST_SIZE % Pow2(d) == acc % Pow2(d)
  {
    var p, q := Pow2(d), Pow2(10 - d);
    Pow2Add(d, 10 - d);
    assert Pow2(10) == FAST_SIZE;
    ModMod(acc, p, q);
  }

  lemma ModMod(x: nat, p: nat, q: nat)
    requires p > 0 && q > 0
    ensures p * q > 0 && x % (p * q) % p == x % p
  {
    TimesAtLeast(p, q);
    var m := p * q;
    var a, y := x / m, x % m;
    DivMod(x, m);
    var c, r := y / p, y % p;
    DivMod(y, p);
    Regroup(p, q, a, c);
    DivModUnique(x, p, q * a + c, r);
  }

  lemma Regroup(p: nat, q: nat, a: nat, c: nat)
    ensures (p * q) * a + p * c == p * (q * a + c)
  {
    assert (p * q) * a == p * (q * a);
  }

  /** Two codewords cannot both start the accumulator. */
  lemma StartsOnce(lens: seq<nat>, codes: seq<nat>, s: nat, t: nat, acc: nat)
    requires ValidLengths(lens) && |codes| == |lens| && SpecCode(lens, codes, |lens|)
    requires s < |lens| && t < |lens| && acc < WORD
    requires Starts(lens, codes, s, acc) && Starts(lens, codes, t, acc)
    ensures s == t
  {
    hide BitReverse, Lowest;
    BlockFacts(lens, codes, s);
    BlockFacts(lens, codes, t);
    MaskIffInterval(acc, codes[s], lens[s]);
    MaskIffInterval(acc, codes[t], lens[t]);
    if s != t {
      CodesApart(lens, codes, |lens|, s, t);
    }
  }

  /** A slot found in the accelerator starts the accumulator. */
  lemma FastHit(c: Codebook, lens: seq<nat>, codes: seq<nat>, acc: nat)
    requires Correct(c, lens, codes) && c.fast[acc % FAST_SIZE] >= 0
    ensures var i := c.fast[acc % FAST_SIZE];
      i < c.Slots() && c.Symbol(i) < |lens| && 0 < c.lengths[i] == lens[c.Symbol(i)] <= FAST_LENGTH && Starts(lens, codes, c.Symbol(i), acc)
  {
    hide BitReverse, Indexed, SpecCode;
    var i := c.fast[acc % FAST_SIZE];
    assert ShortHit(c.lengths, KeysOf(c), i, acc % FAST_SIZE);
    assert SlotHolds(c, lens, codes, i);
    LowBits(acc, c.lengths[i]);
  }

  /** Slot `i` is in the accelerator. */
  predicate Listed(c: Codebook, i: nat) {
    i < c.FastSlots()
  }

  /** A listed short codeword is found there. */
  lemma FastComplete(c: Codebook, lens: seq<nat>, codes: seq<nat>, i: nat, acc: nat)
    requires Correct(c, lens, codes) && Listed(c, i) && acc < WORD && c.Symbol(i) < |lens|
    requires c.lengths[i] <= FAST_LENGTH && Starts(lens, codes, c.Symbol(i), acc)
    ensures c.fast[acc % FAST_SIZE] >= 0 && c.Symbol(c.fast[acc % FAST_SIZE]) == c.Symbol(i)
  {
    hide Correct, BitReverse, SpecCode;
    ListedFound(c, lens, codes, i, acc);
    FastHit(c, lens, codes, acc);
    SpecOf(c, lens, codes);
    StartsOnce(lens, codes, c.Symbol(c.fast[acc % FAST_SIZE]), c.Symbol(i), acc);
  }

  lemma ListedFound(c: Codebook, lens: seq<nat>, codes: seq<nat>, i: nat, acc: nat)
    requires Correct(c, lens, codes) && Listed(c, i) && c.Symbol(i) < |lens|
    requires c.lengths[i] <= FAST_LENGTH && Starts(lens, codes, c.Symbol(i), acc)
    ensures i <= c.fast[acc % FAST_SIZE]
  {
    hide BitReverse, Indexed, SpecCode;
    assert SlotHolds(c, lens, codes, i);
    LowBits(acc, c.lengths[i]);
    assert ShortHit(c.lengths, KeysOf(c), i, acc % FAST_SIZE);
  }

  lemma SpecOf(c: Codebook, lens: seq<nat>, codes: seq<nat>)
    requires Correct(c, lens, codes)
    ensures c.Shaped() && ValidLengths(lens) && |codes| == |lens| == c.entries && SpecCode(lens, codes, |lens|)
    ensures forall i :: 0 <= i < c.Slots() ==> c.Symbol(i) < |lens| && c.lengths[i] == lens[c.Symbol(i)]
  {
    forall i | 0 <= i < c.Slots()
      ensures c.Symbol(i) < |lens| && c.lengths[i] == lens[c.Symbol(i)]
    {
      assert SlotHolds(c, lens, codes, i);
    }
  }

  /** The binary search lands on the slot whose codeword starts the accumulator. */
  lemma SearchHit(c: Codebook, lens: seq<nat>, codes: seq<nat>, acc: nat, x: nat, s: nat)
    requires Correct(c, lens, codes) && c.sortedEntries > 0 && acc < WORD
    requires s < |lens| && Starts(lens, codes, s, acc) && Included(c.sparse, lens[s])
    requires x < c.sortedEntries
    requires forall y :: 0 < y <= x ==> c.sortedCodewords[y] <= BitReverse(acc)
    requires forall y :: x < y < c.sortedEntries ==> BitReverse(acc) < c.sortedCodewords[y]
    ensures c.sortedValues[x] == s
  {
    hide BitReverse, FastUpTo;
    var y :| 0 <= y < c.sortedEntries && c.sortedValues[y] == s;
    var t := c.sortedValues[x];
    BlockFacts(lens, codes, s);
    BlockFacts(lens, codes, t);
    MaskIffInterval(acc, codes[s], lens[s]);
    assert y <= x;
    if s != t {
      CodesApart(lens, codes, |lens|, s, t);
    }
  }

  /** Which second stage `codebook_decode_scalar_raw` picks. */
  predicate UsesSearch(c: Codebook) {
    if c.entries > 8 then c.sortedEntries > 0 else c.sparse
  }

  /** The value of the accumulator when the first `v` bits of `b` are loaded. */
  function Held(b: seq<bool>, v: nat): nat
    requires v <= |b|
  {
    FromBits(b[..v])
  }

  /** What both stages promise about a symbol whose codeword starts the accumulator `a` of `v` bits:
      it is returned if all its bits are held, and nothing is if they are not. */
  ghost predicate Answers(c: Codebook, lens: seq<nat>, codes: seq<nat>, a: nat, v: nat, s: nat, r: int)
    requires c.Shaped() && ValidLengths(lens) && |codes| == |lens| && s < |lens|
    requires r < c.Slots()
  {
    Starts(lens, codes, s, a) ==> if lens[s] <= v then r >= 0 && c.Symbol(r) == s else r == -1
  }

  /** The linear search over a small dense book. */
  method LinearSearch(c: Codebook, acc: nat, ghost lens: seq<nat>, ghost codes: seq<nat>) returns (r: int)
    requires Correct(c, lens, codes) && !c.sparse && acc < WORD
    ensures -1 <= r < c.Slots()
    ensures r >= 0 ==> Starts(lens, codes, r, acc)
    ensures r == -1 ==> forall s :: 0 <= s < |lens| ==> !Starts(lens, codes, s, acc)
  {
    hide BitReverse, Indexed, FastUpTo, SpecCode;
    var i := 0;
    while i < c.entries
      invariant 0 <= i <= c.entries
      invariant forall s :: 0 <= s < i ==> !Starts(lens, codes, s, acc)
    {
      assert SlotHolds(c, lens, codes, i);
      if c.lengths[i] != NO_CODE && c.codewords[i] == acc % Pow2(c.lengths[i]) {
        return i;
      }
      i := i + 1;
    }
    return -1;
  }

  /** `codebook_decode_scalar_raw` */
  method DecodeScalarRaw(f: PacketReader, c: Codebook, ghost lens: seq<nat>, ghost codes: seq<nat>)
    returns (ok: bool, r: int)
    requires f.Valid() && Correct(c, lens, codes)
    modifies f
    ensures f.Valid() && -1 <= r < c.Slots() && (old(f.valid_bits) >= 0 ==> ok)
    ensures old(f.valid_bits) < 0 && !old(f.TakesStale()) ==> (ok <==> old(f.Rest()) == [])
    ensures old(f.valid_bits) < 0 && old(f.Sound()) ==> (ok <==> old(f.Rest()) == [])
    ensures old(f.Sound()) ==> f.Sound()
    ensures old(f.Sound()) && old(f.valid_bits) >= 0 ==>
      var b := old(f.Unread());
      var v := Loaded(old(f.valid_bits), |b|);
      && v <= |b|
      && (r >= 0 ==> 0 < c.lengths[r] <= v && f.valid_bits == v - c.lengths[r] && f.Unread() == b[c.lengths[r]..])
      && (r >= 0 && UsesSearch(c) ==> c.Symbol(r) < |lens| && Included(c.sparse, lens[c.Symbol(r)]))
      && (forall s :: 0 <= s < |lens| && (UsesSearch(c) ==> Included(c.sparse, lens[s])) ==>
            Answers(c, lens, codes, Held(b, v), v, s, r))
    ensures ok && r == -1 ==> f.valid_bits == 0 || (c.sparse && c.sortedEntries == 0)
    ensures old(f.valid_bits) < 0 ==> r == -1
  {
    hide BitReverse, Correct, SpecCode, Starts, PacketReader.Rest, PacketReader.Ending, PacketReader.Left, Pow2, UsesSearch, Included, ValidLengths;
    SpecOf(c, lens, codes);
    ok := f.PrepHuffman();
    if !ok {
      return false, -1;
    }
    if c.sparse && c.sortedEntries == 0 {
      NoSymbols(c, lens, codes);
      return true, -1;
    }
    WordSize();
    ghost var a, v := f.acc, f.valid_bits;
    if old(f.Sound()) && v >= 0 {
      HeldIs(f);
    }
    r := FindSlot(c, f.acc, lens, codes);
    if r >= 0 && f.valid_bits >= c.lengths[r] {
      f.Consume(c.lengths[r]);
      return true, r;
    }
    f.valid_bits := 0;
    return true, -1;
  }

  /** The second stage: binary search over the sorted codewords or linear search over all. */
  method FindSlot(c: Codebook, acc: nat, ghost lens: seq<nat>, ghost codes: seq<nat>) returns (r: int)
    requires Correct(c, lens, codes) && acc < WORD && (c.sparse ==> c.sortedEntries > 0)
    ensures -1 <= r < c.Slots() && (r >= 0 ==> c.lengths[r] > 0)
    ensures r >= 0 && UsesSearch(c) ==> c.Symbol(r) < |lens| && Included(c.sparse, lens[c.Symbol(r)])
    ensures forall s :: 0 <= s < |lens| && (UsesSearch(c) ==> Included(c.sparse, lens[s])) && Starts(lens, codes, s, acc) ==>
      r >= 0 && c.Symbol(r) == s
  {
    hide BitReverse, Correct, Included, Indexed;
    SpecOf(c, lens, codes);
    if UsesSearch(c) {
      r := SearchSlot(c, acc, lens, codes);
    } else {
      r := LinearSearch(c, acc, lens, codes);
      if r >= 0 {
        forall s | 0 <= s < |lens| && Starts(lens, codes, s, acc)
          ensures r == s
        {
          StartsOnce(lens, codes, r, s, acc);
        }
      }
    }
  }

  lemma HeldIs(f: PacketReader)
    requires f.Valid() && f.valid_bits >= 0 && f.acc < Pow2(f.valid_bits)
    ensures f.valid_bits <= |f.Unread()| && Held(f.Unread(), f.valid_bits) == f.acc
  {
    hide FromBits, ToBits, Pow2, BytesToBits, PacketReader.Rest;
    ToFromBits(f.acc, f.valid_bits);
    assert f.Unread()[..f.valid_bits] == ToBits(f.acc, f.valid_bits);
  }

  /** The binary search over the sorted codewords, from the reversed accumulator to a slot. */
  method SearchSlot(c: Codebook, acc: nat, ghost lens: seq<nat>, ghost codes: seq<nat>) returns (r: int)
    requires Correct(c, lens, codes) && c.sortedEntries > 0 && acc < WORD
    ensures 0 <= r < c.Slots() && c.lengths[r] > 0
    ensures c.Symbol(r) < |lens| && Included(c.sparse, lens[c.Symbol(r)])
    ensures forall s :: 0 <= s < |lens| && Included(c.sparse, lens[s]) && Starts(lens, codes, s, acc) ==> c.Symbol(r) == s
  {
    hide BitReverse, FastUpTo, SpecCode;
    var x := BinarySearch(c.sortedCodewords, c.sortedEntries, BitReverse(acc));
    r := if c.sparse then x else c.sortedValues[x];
    assert SlotHolds(c, lens, codes, r);
    forall s | 0 <= s < |lens| && Included(c.sparse, lens[s]) && Starts(lens, codes, s, acc)
      ensures c.Symbol(r) == s
    {
      SearchHit(c, lens, codes, acc, x, s);
    }
  }

  lemma NoSymbols(c: Codebook, lens: seq<nat>, codes: seq<nat>)
    requires Correct(c, lens, codes) && c.sparse && c.sortedEntries == 0
    ensures forall s, a :: 0 <= s < |lens| ==> !Starts(lens, codes, s, a)
  {
  }

  /** Symbol `s` can be reached: a short codeword of a dense book is left out of the sorted index,
      so past the accelerator's 16-bit limit nothing finds it. */
  predicate Reachable(c: Codebook, lens: seq<nat>, s: nat)
    requires s < |lens|
  {
    !UsesSearch(c) || Included(c.sparse, lens[s]) || s < FAST_LIMIT
  }

  /** The packet continues with the codeword of `s`. */
  ghost predicate Next(lens: seq<nat>, codes: seq<nat>, s: nat, b: seq<bool>)
    requires ValidLengths(lens) && s < |lens| && s < |codes|
  {
    Used(lens, s) && codes[s] < WORD && Codeword(lens, codes, s) <= b
  }

  lemma NextStarts(lens: seq<nat>, codes: seq<nat>, s: nat, b: seq<bool>, v: nat)
    requires ValidLengths(lens) && |codes| == |lens| && SpecCode(lens, codes, |lens|) && s < |lens|
    requires v <= |b| && Used(lens, s) && lens[s] <= v
    ensures Next(lens, codes, s, b) <==> Starts(lens, codes, s, Held(b, v))
  {
    hide BitReverse, Lowest, FromBits, Pow2, CodeBits;
    BlockFacts(lens, codes, s);
    StoredCode(codes[s], lens[s]);
    var d := lens[s];
    FromBitsSplit(b[..v], d);
    assert b[..v][..d] == b[..d];
    var k := CodeBits(codes[s], d);
    if FromBits(b[..d]) == FromBits(k) {
      FromBitsInjective(b[..d], k);
    }
    assert k <= b <==> k == b[..d];
  }

  /** The accelerator's slot, all its bits held: it is the next symbol. */
  lemma FastAnswer(c: Codebook, lens: seq<nat>, codes: seq<nat>, b: seq<bool>, v: nat, s: nat)
    requires Correct(c, lens, codes) && v <= |b| && v <= 32 && s < |lens| && Next(lens, codes, s, b)
    requires var i := c.fast[Held(b, v) % FAST_SIZE]; i >= 0 && c.lengths[i] <= v
    ensures c.Symbol(c.fast[Held(b, v) % FAST_SIZE]) == s && Reachable(c, lens, s) && lens[s] <= v
  {
    hide BitReverse, CodeBits, Lowest, FromBits, Pow2, Indexed;
    var i := c.fast[Held(b, v) % FAST_SIZE];
    var t := c.Symbol(i);
    SpecOf(c, lens, codes);
    HeldFits(b, v);
    FastHit(c, lens, codes, Held(b, v));
    NextStarts(lens, codes, t, b, v);
    PrefixFree(lens, codes, s, t, b);
  }

  /** The accelerator's slot, but not all its bits held: the packet ends before any codeword does. */
  lemma FastShort(c: Codebook, lens: seq<nat>, codes: seq<nat>, b: seq<bool>, v: nat, s: nat)
    requires Correct(c, lens, codes) && v == |b| && v <= 32 && s < |lens|
    requires var i := c.fast[Held(b, v) % FAST_SIZE]; i >= 0 && v < c.lengths[i]
    ensures !Next(lens, codes, s, b)
  {
    hide BitReverse, CodeBits, Lowest, FromBits, Pow2, Indexed;
    SpecOf(c, lens, codes);
    HeldFits(b, v);
    FastHit(c, lens, codes, Held(b, v));
    if Next(lens, codes, s, b) {
      NextStarts(lens, codes, s, b, v);
      StartsOnce(lens, codes, s, c.Symbol(c.fast[Held(b, v) % FAST_SIZE]), Held(b, v));
    }
  }

  /** Nothing in the accelerator: the second stage answers for every reachable symbol. */
  lemma SlowAnswer(c: Codebook, lens: seq<nat>, codes: seq<nat>, b: seq<bool>, v1: nat, v: nat, s: nat, r: int)
    requires Correct(c, lens, codes) && v1 <= v <= |b| && v <= 32 && -1 <= r < c.Slots()
    requires s < |lens| && Next(lens, codes, s, b)
    requires v1 >= FAST_LENGTH || v1 == |b|
    requires c.fast[Held(b, v1) % FAST_SIZE] < 0
    requires r >= 0 ==> c.lengths[r] <= v
    requires r >= 0 && UsesSearch(c) ==> c.Symbol(r) < |lens| && Included(c.sparse, lens[c.Symbol(r)])
    requires (UsesSearch(c) ==> Included(c.sparse, lens[s])) ==> Answers(c, lens, codes, Held(b, v), v, s, r)
    ensures r >= 0 && c.Symbol(r) == s <==> Reachable(c, lens, s) && lens[s] <= v
  {
    hide BitReverse, CodeBits, FromBits, Pow2, Correct, SpecCode;
    SpecOf(c, lens, codes);
    if lens[s] <= v {
      NextStarts(lens, codes, s, b, v);
      if UsesSearch(c) && !Included(c.sparse, lens[s]) && s < FAST_LIMIT {
        HeldFits(b, v1);
        NextStarts(lens, codes, s, b, v1);
        FastComplete(c, lens, codes, s, Held(b, v1));
      }
    }
  }

  lemma HeldFits(b: seq<bool>, v: nat)
    requires v <= |b| && v <= 32
    ensures Held(b, v) < WORD
  {
    Pow2Mono(v, 32);
    WordSize();
  }

  lemma {:induction false} LoadedTwice(v: nat, n: nat)
    ensures Loaded(Loaded(v, n), n) == Loaded(v, n)
    decreases 32 - v
  {
    if v <= 24 && v + 8 <= n {
      LoadedTwice(v + 8, n);
    }
  }

  lemma LoadedFacts(f: PacketReader)
    requires f.Valid() && f.valid_bits >= 0
    ensures var n := |f.Unread()|;
      var v := Loaded(f.valid_bits, n);
      f.valid_bits <= v <= n && v <= 32 && (v >= 25 || v == n) && Loaded(v, n) == v
  {
    hide PacketReader.Rest, Pow2, ToBits, BytesToBits;
    LoadedEnough(f.valid_bits, |f.Unread()|);
    LoadedTwice(f.valid_bits, |f.Unread()|);
  }

  /** The accelerator answered: what that means for whatever symbol the packet continues with. */
  lemma FastFound(c: Codebook, lens: seq<nat>, codes: seq<nat>, b: seq<bool>, v1: nat, v: nat)
    requires Correct(c, lens, codes) && v1 <= v <= |b| && v <= 32 && (v1 < FAST_LENGTH ==> v1 == |b|)
    requires c.fast[Held(b, v1) % FAST_SIZE] >= 0
    ensures var i := c.fast[Held(b, v1) % FAST_SIZE];
      forall s :: 0 <= s < |lens| && Next(lens, codes, s, b) ==>
        c.lengths[i] <= v1 && c.Symbol(i) == s && Reachable(c, lens, s) && lens[s] <= v
  {
    hide BitReverse, CodeBits, FromBits, Pow2, Correct, Reachable, Next;
    SpecOf(c, lens, codes);
    var i := c.fast[Held(b, v1) % FAST_SIZE];
    HeldFits(b, v1);
    FastHit(c, lens, codes, Held(b, v1));
    forall s | 0 <= s < |lens| && Next(lens, codes, s, b)
      ensures c.lengths[i] <= v1 && c.Symbol(i) == s && Reachable(c, lens, s) && lens[s] <= v
    {
      if c.lengths[i] <= v1 {
        FastAnswer(c, lens, codes, b, v1, s);
      } else {
        FastShort(c, lens, codes, b, v1, s);
      }
    }
  }

  lemma SlowFound(c: Codebook, lens: seq<nat>, codes: seq<nat>, b: seq<bool>, v1: nat, v: nat, r: int)
    requires Correct(c, lens, codes) && v1 <= v <= |b| && v <= 32 && -1 <= r < c.Slots()
    requires v1 >= FAST_LENGTH || v1 == |b|
    requires c.fast[Held(b, v1) % FAST_SIZE] < 0
    requires r >= 0 ==> c.lengths[r] <= v
    requires r >= 0 && UsesSearch(c) ==> c.Symbol(r) < |lens| && Included(c.sparse, lens[c.Symbol(r)])
    requires forall s :: 0 <= s < |lens| && (UsesSearch(c) ==> Included(c.sparse, lens[s])) ==>
      Answers(c, lens, codes, Held(b, v), v, s, r)
    ensures forall s :: 0 <= s < |lens| && Next(lens, codes, s, b) ==>
      (r >= 0 && c.Symbol(r) == s <==> Reachable(c, lens, s) && lens[s] <= v)
  {
    hide BitReverse, CodeBits, FromBits, Pow2, Correct, Reachable, Next, Answers;
    SpecOf(c, lens, codes);
    forall s | 0 <= s < |lens| && Next(lens, codes, s, b)
      ensures r >= 0 && c.Symbol(r) == s <==> Reachable(c, lens, s) && lens[s] <= v
    {
      SlowAnswer(c, lens, codes, b, v1, v, s, r);
    }
  }

  /** Slot `i`, with a codeword of `n` bits, was found in the accelerator: its bits are used if all of
      them are held. */
  method TakeFast(f: PacketReader, i: nat, n: nat) returns (r: int)
    requires f.Valid() && n > 0
    modifies f`acc, f`valid_bits
    ensures f.Valid() && r == (if n <= old(f.valid_bits) then i else -1)
    ensures r >= 0 ==> f.valid_bits == old(f.valid_bits) - n
    ensures r >= 0 ==> n <= |old(f.Unread())| && f.Unread() == old(f.Unread())[n..]
  {
    hide PacketReader.Rest, Pow2, ToBits, BytesToBits;
    r := i;
    if f.valid_bits < n {
      f.Discard(n);
      r := -1;
    } else {
      f.Consume(n);
    }
  }

  /** `DECODE_RAW`: the accelerator first, then the second stage.  Symbol `s` comes out exactly when
      it can be reached and its whole codeword fits into the bits loaded; then its bits are gone. */
  method DecodeRaw(f: PacketReader, c: Codebook, ghost lens: seq<nat>, ghost codes: seq<nat>)
    returns (ok: bool, r: int)
    requires f.Valid() && Correct(c, lens, codes)
    modifies f
    ensures f.Valid() && -1 <= r < c.Slots() && (old(f.valid_bits) >= 0 ==> ok)
    ensures old(f.valid_bits) < 0 && old(f.Sound()) ==> (ok <==> old(f.Rest()) == [])
    ensures old(f.Sound()) ==> f.Sound()
    ensures old(f.Sound()) && old(f.valid_bits) >= 0 ==>
      var b := old(f.Unread());
      var v := Loaded(old(f.valid_bits), |b|);
      && (r >= 0 ==> f.valid_bits >= 0 && 0 < c.lengths[r] <= |b| && f.Unread() == b[c.lengths[r]..])
      && (r >= 0 && old(f.valid_bits) < FAST_LENGTH ==> f.valid_bits == v - c.lengths[r])
      && (forall s :: 0 <= s < |lens| && Next(lens, codes, s, b) ==>
            (r >= 0 && c.Symbol(r) == s <==> Reachable(c, lens, s) && lens[s] <= v))
    ensures old(f.valid_bits) < 0 ==> r == -1
  {
    hide BitReverse, Correct, SpecCode, Starts, PacketReader.Rest, PacketReader.Ending, PacketReader.Left, Pow2,
      UsesSearch, Included, ValidLengths, CodeBits, FromBits, ToBits, BytesToBits, Reachable;
    SpecOf(c, lens, codes);
    ghost var good := f.Sound() && f.valid_bits >= 0;
    ghost var b := f.Unread();
    ghost var v := if good then Loaded(f.valid_bits, |b|) else 0;
    if good {
      LoadedFacts(f);
    }
    if f.valid_bits < FAST_LENGTH {
      ok := f.PrepHuffman();
      if !ok {
        return false, -1;
      }
    }
    ghost var v1 := f.valid_bits;
    if good {
      HeldIs(f);
    }
    ok, r := true, c.fast[f.acc % FAST_SIZE];
    if r >= 0 {
      FastHit(c, lens, codes, f.acc);
      if good {
        FastFound(c, lens, codes, b, v1, v);
      }
      r := TakeFast(f, r, c.lengths[r]);
    } else {
      ok, r := DecodeScalarRaw(f, c, lens, codes);
      if good {
        SlowFound(c, lens, codes, b, v1, v, r);
      }
    }
  }

  /** The element of `sorted_values` at an index, if there is one: the table has an extra slot at the
      front, but it is only allocated when the book has sorted entries. */
  function SortedValue(c: Codebook, i: int): Option<int> {
    if c.sortedEntries == 0 then None else
    if i == -1 then Some(-1) else
    if 0 <= i < |c.sortedValues| then Some(c.sortedValues[i]) else None
  }

  /** `DECODE`: a slot of a sparse book is turned into its symbol.  The read of the table succeeds if
      and only if the book is dense or has a used entry. */
  method Decode(f: PacketReader, c: Codebook, ghost lens: seq<nat>, ghost codes: seq<nat>)
    returns (ok: bool, sym: Option<int>)
    requires f.Valid() && Correct(c, lens, codes)
    modifies f
    ensures f.Valid() && (sym.Some? ==> -1 <= sym.value < |lens|) && (old(f.valid_bits) >= 0 ==> ok)
    ensures old(f.valid_bits) < 0 && old(f.Sound()) ==> (ok <==> old(f.Rest()) == [])
    ensures sym == None <==> c.sparse && forall i :: 0 <= i < |lens| ==> !Used(lens, i)
    ensures old(f.Sound()) ==> f.Sound()
    ensures old(f.Sound()) && old(f.valid_bits) >= 0 && sym.Some? ==>
      var b := old(f.Unread());
      var v := Loaded(old(f.valid_bits), |b|);
      var s := sym.value;
      && (s >= 0 ==> f.valid_bits >= 0 && 0 < lens[s] <= |b| && f.Unread() == b[lens[s]..])
      && (s >= 0 && old(f.valid_bits) < FAST_LENGTH ==> f.valid_bits == v - lens[s])
      && (forall t :: 0 <= t < |lens| && Next(lens, codes, t, b) ==>
            (s == t <==> Reachable(c, lens, t) && lens[t] <= v))
    ensures old(f.valid_bits) < 0 ==> sym == None || sym == Some(-1)
  {
    hide Correct, SpecCode, Next, Reachable;
    SpecOf(c, lens, codes);
    SparseEmpty(c, lens, codes);
    var r;
    ok, r := DecodeRaw(f, c, lens, codes);
    sym := if c.sparse then SortedValue(c, r) else Some(r);
  }

  /** A sparse book has no sorted entries exactly when it has no used ones. */
  lemma SparseEmpty(c: Codebook, lens: seq<nat>, codes: seq<nat>)
    requires Correct(c, lens, codes)
    ensures c.sparse ==> (c.sortedEntries == 0 <==> forall i :: 0 <= i < |lens| ==> !Used(lens, i))
  {
    hide SpecCode, FastUpTo;
    if c.sortedEntries > 0 {
      assert Used(lens, c.sortedValues[0]);
    }
  }

  /** Symbols that have a codeword. */
  ghost predicate Writable(lens: seq<nat>, codes: seq<nat>, syms: seq<nat>) {
    && ValidLengths(lens)
    && forall i :: 0 <= i < |syms| ==> HasCode(lens, codes, syms[i])
  }

  predicate HasCode(lens: seq<nat>, codes: seq<nat>, s: nat) {
    s < |lens| && s < |codes| && Used(lens, s) && codes[s] < WORD
  }

  /** Writing symbols: their codewords one after the other. */
  ghost function Encode(lens: seq<nat>, codes: seq<nat>, syms: seq<nat>): seq<bool>
    requires Writable(lens, codes, syms)
  {
    if syms == [] then [] else
      assert HasCode(lens, codes, syms[0]);
      Codeword(lens, codes, syms[0]) + Encode(lens, codes, syms[1..])
  }

  /** Symbols that every decoder state can return: reachable, with codewords of at most 25 bits. */
  ghost predicate Decodable(c: Codebook, lens: seq<nat>, codes: seq<nat>, syms: seq<nat>) {
    && Writable(lens, codes, syms)
    && forall i :: 0 <= i < |syms| ==> syms[i] < |lens| && Reachable(c, lens, syms[i]) && lens[syms[i]] <= 25
  }

  /** The round trip: any run of symbols written to a packet comes back, bit for bit. */
  method DecodeRun(f: PacketReader, c: Codebook, ghost lens: seq<nat>, ghost codes: seq<nat>,
                   ghost syms: seq<nat>, ghost tail: seq<bool>, n: nat) returns (out: seq<int>)
    requires f.Valid() && f.Sound() && f.valid_bits >= 0 && Correct(c, lens, codes)
    requires Decodable(c, lens, codes, syms) && n == |syms|
    requires f.Unread() == Encode(lens, codes, syms) + tail
    modifies f
    ensures f.Valid() && f.Sound() && f.valid_bits >= 0
    ensures out == syms
    ensures f.Unread() == tail
  {
    hide Correct, PacketReader.Rest, PacketReader.Ending, PacketReader.Left, CodeBits, ToBits, BytesToBits, Pow2, Encode, Reachable;
    out := [];
    SpecOf(c, lens, codes);
    ghost var done, todo := [], syms;
    while |out| < n
      invariant |todo| == n - |out| && Decodable(c, lens, codes, todo) && Writable(lens, codes, todo)
      invariant f.Valid() && f.Sound() && f.valid_bits >= 0
      invariant out == done && done + todo == syms
      invariant f.Unread() == Encode(lens, codes, todo) + tail
      decreases |todo|
    {
      var sym := DecodeFirst(f, c, lens, codes, todo, tail);
      out := out + [sym];
      done, todo := done + [todo[0]], todo[1..];
    }
    NothingLeft(lens, codes, todo, tail);
  }

  /** One symbol of the run. */
  method DecodeFirst(f: PacketReader, c: Codebook, ghost lens: seq<nat>, ghost codes: seq<nat>,
                     ghost todo: seq<nat>, ghost tail: seq<bool>) returns (sym: int)
    requires f.Valid() && f.Sound() && f.valid_bits >= 0 && Correct(c, lens, codes)
    requires todo != [] && Decodable(c, lens, codes, todo)
    requires f.Unread() == Encode(lens, codes, todo) + tail
    modifies f
    ensures f.Valid() && f.Sound() && f.valid_bits >= 0
    ensures sym == todo[0] && Decodable(c, lens, codes, todo[1..])
    ensures f.Unread() == Encode(lens, codes, todo[1..]) + tail
  {
    hide Correct, PacketReader.Rest, PacketReader.Ending, PacketReader.Left, Reachable, CodeBits, ToBits, BytesToBits, Pow2, Encode, Next;
    SpecOf(c, lens, codes);
    NextOf(c, lens, codes, todo, tail);
    DecodeNext(f, c, lens, codes, todo[0]);
    assert HasCode(lens, codes, todo[0]);
    var _, r := Decode(f, c, lens, codes);
    sym := r.value;
  }

  lemma NothingLeft(lens: seq<nat>, codes: seq<nat>, todo: seq<nat>, tail: seq<bool>)
    requires todo == [] && Writable(lens, codes, todo)
    ensures Encode(lens, codes, todo) + tail == tail
  {
  }

  /** A reachable symbol of at most 25 bits always has its codeword loaded. */
  lemma DecodeNext(f: PacketReader, c: Codebook, lens: seq<nat>, codes: seq<nat>, s: nat)
    requires f.Valid() && f.valid_bits >= 0 && s < |lens| && lens[s] <= 25 && lens[s] <= |f.Unread()|
    ensures lens[s] <= Loaded(f.valid_bits, |f.Unread()|)
  {
    LoadedFacts(f);
  }

  lemma SplitFront(k: seq<bool>, rest: seq<bool>, tail: seq<bool>)
    ensures k <= (k + rest) + tail && ((k + rest) + tail)[|k|..] == rest + tail
  {
  }

  lemma NextOf(c: Codebook, lens: seq<nat>, codes: seq<nat>, syms: seq<nat>, tail: seq<bool>)
    requires Decodable(c, lens, codes, syms) && syms != []
    ensures var b := Encode(lens, codes, syms) + tail;
      && Next(lens, codes, syms[0], b) && lens[syms[0]] <= |b|
      && Reachable(c, lens, syms[0]) && lens[syms[0]] <= 25
      && Decodable(c, lens, codes, syms[1..]) && Writable(lens, codes, syms[1..])
      && b[lens[syms[0]]..] == Encode(lens, codes, syms[1..]) + tail
  {
    hide CodeBits, Reachable;
    assert HasCode(lens, codes, syms[0]);
    SplitFront(Codeword(lens, codes, syms[0]), Encode(lens, codes, syms[1..]), tail);
  }

  /** A codeword longer than 25 bits can be lost: whether it is depends on how many bits happened to
      be loaded.  No such accident is possible exactly for lengths up to 25. */
  lemma LongCodewordsDependOnPhase(len: nat)
    requires len <= 31
    ensures (forall v: nat, n: nat :: v <= 32 && v <= n && (n - v) % 8 == 0 && len <= n ==> len <= Loaded(v, n))
            <==> len <= 25
  {
    forall v: nat, n: nat | v <= 32 && v <= n && (n - v) % 8 == 0 && len <= n && len <= 25
      ensures len <= Loaded(v, n)
    {
      LoadedEnough(v, n);
    }
    assert Loaded(25, 33) == 25;
  }

  /** In a complete code every 32-bit window starts with some codeword, so nothing the decoder reads
      can be unassigned. */
  lemma CompleteCovers(lens: seq<nat>, codes: seq<nat>, acc: nat)
    requires ValidLengths(lens) && |codes| == |lens| && SpecCode(lens, codes, |lens|)
    requires Kraft(lens, |lens|) == WORD && acc < WORD
    ensures exists s :: 0 <= s < |lens| && Starts(lens, codes, s, acc)
  {
    hide BitReverse, SpecCode;
    var p := BitReverse(acc);
    ReverseFits(acc);
    var s := OwnerOf(lens, codes, p);
    BlockOf(lens, codes, s);
    MaskIffInterval(acc, codes[s], lens[s]);
    assert Starts(lens, codes, s, acc);
  }

  lemma BlockOf(lens: seq<nat>, codes: seq<nat>, s: nat)
    requires ValidLengths(lens) && |codes| == |lens| && SpecCode(lens, codes, |lens|)
    requires s < |lens| && Used(lens, s)
    ensures 1 <= lens[s] < 32 && Aligned(codes[s], lens[s]) && codes[s] + Size(lens[s]) <= WORD
  {
    BlockFacts(lens, codes, s);
  }

  lemma ReverseFits(acc: nat)
    requires acc < WORD
    ensures BitReverse(acc) < WORD
  {
    hide BitReverse;
    WordSize();
    ToFromBits(acc, 32);
    BitReverseIsPos(ToBits(acc, 32));
  }

  /** A full code leaves no free leaf, so every address has an owner. */
  lemma OwnerOf(lens: seq<nat>, codes: seq<nat>, p: nat) returns (s: nat)
    requires ValidLengths(lens) && |codes| == |lens| && SpecCode(lens, codes, |lens|)
    requires Kraft(lens, |lens|) == WORD && p < WORD
    ensures s < |lens| && UsedAt(lens, codes, s, p)
  {
    hide SpecCode, Lowest;
    FirstOrNone(lens, |lens|);
    if forall j :: 0 <= j < |lens| ==> !Used(lens, j) {
      KraftUnused(lens, |lens|);
    }
    var k :| 0 <= k < |lens| && FirstUsed(lens, k);
    var ok, built, av := Construct(lens, k, |lens|);
    FullMeansNoSlots(av, 1);
    assert Tiled(lens, built, |lens|, av, p);
    s :| 0 <= s < |lens| && UsedAt(lens, built, s, p);
    SpecCodeUnique(lens, codes, built, |lens|);
  }

  lemma {:induction false} FullMeansNoSlots(av: seq<nat>, k: nat)
    requires |av| == 32 && 1 <= k <= 32 && FreeSum(av, k) == 0
    ensures forall z :: k <= z < 32 ==> av[z] == 0
    decreases 32 - k
  {
    if k < 32 {
      FullMeansNoSlots(av, k + 1);
    }
  }
}
