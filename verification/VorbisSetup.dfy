/** Codebook setup: from codeword lengths to the tables the decoder reads. */
module VorbisSetup {
  import opened Bits
  import opened Words
  import opened VorbisTree
  import opened VorbisMatch
  import opened VorbisCodewords
  import opened VorbisCodebook

  /** The decoding part of `Codebook`.  Absent arrays are empty; a dense book keeps one slot per
      entry, a sparse book one per used entry, in code order. */
  datatype Codebook = Codebook(
    entries: nat,
    sparse: bool,
    lengths: seq<nat>,
    codewords: seq<nat>,
    fast: seq<int>,
    sortedCodewords: seq<nat>,
    sortedValues: seq<nat>,
    sortedEntries: nat)
  {
    /** Slots of the book: what the accelerator and `DECODE_RAW` number. */
    function Slots(): nat {
      if sparse then sortedEntries else entries
    }

    /** Slots the accelerator may name: the 16-bit table stops at 32767. */
    function FastSlots(): nat {
      if Slots() > FAST_LIMIT then FAST_LIMIT else Slots()
    }

    predicate Shaped() {
      && |fast| == FAST_SIZE
      && |lengths| == Slots()
      && (if sparse then codewords == [] else |codewords| == entries)
      && |sortedValues| == sortedEntries
      && |sortedCodewords| == if sortedEntries > 0 then sortedEntries + 1 else 0
    }

    /** The codeword of slot `i`, first bit least significant. */
    function Key(i: nat): nat
      requires Shaped() && i < Slots()
    {
      if sparse then BitReverse(sortedCodewords[i]) else codewords[i]
    }

    function Symbol(i: nat): nat
      requires Shaped() && i < Slots()
    {
      if sparse then sortedValues[i] else i
    }
  }

  /** Accumulator value `z` starts with the codeword of slot `i`, and that codeword is short. */
  ghost predicate ShortHit(lengths: seq<nat>, keys: seq<nat>, i: nat, z: nat)
    requires i < |lengths| && i < |keys|
  {
    lengths[i] <= FAST_LENGTH && z % Pow2(lengths[i]) == keys[i]
  }

  /** The table after the first `n` slots: the last short slot that starts `z`, or -1. */
  ghost predicate FastUpTo(lengths: seq<nat>, keys: seq<nat>, fast: seq<int>, n: nat)
    requires n <= |lengths| && n <= |keys|
  {
    && |fast| == FAST_SIZE
    && (forall z :: 0 <= z < FAST_SIZE ==>
          -1 <= fast[z] < n && (fast[z] >= 0 ==> ShortHit(lengths, keys, fast[z], z)))
    && (forall z, i :: 0 <= z < FAST_SIZE && 0 <= i < n && ShortHit(lengths, keys, i, z) ==> i <= fast[z])
  }

  lemma NextHit(z: nat, p: nat, y: nat)
    requires p > 0 && z < y < z + p
    ensures (z + p) % p == z % p && y % p != z % p
  {
    DivModUnique(z + p, p, z / p + 1, z % p);
    if y % p == z % p {
      assert y - z == p * (y / p - z / p);
      SmallMultiple(p, y / p - z / p);
    }
  }

  /** The inner loop of `compute_accelerated_huffman`: every index whose low bits are the codeword. */
  method MarkSlot(fast: array<int>, key: nat, len: nat, i: int)
    requires fast.Length == FAST_SIZE && key < Pow2(len)
    modifies fast
    ensures forall z :: 0 <= z < FAST_SIZE ==> fast[z] == if z % Pow2(len) == key then i else old(fast[z])
  {
    var p := Pow2(len);
    var z := key;
    ModSmall(key, p);
    forall y | 0 <= y < key
      ensures y % p != key
    {
      ModSmall(y, p);
    }
    while z < FAST_SIZE
      invariant 0 <= z && z % p == key
      invariant forall y :: 0 <= y < FAST_SIZE ==>
        fast[y] == if y < z && y % p == key then i else old(fast[y])
    {
      fast[z] := i;
      forall y | z < y < z + p
        ensures y % p != key
      {
        NextHit(z, p, y);
      }
      assert (z + p) % p == key by { DivModUnique(z + p, p, z / p + 1, z % p); }
      z := z + p;
    }
  }

  /** `compute_accelerated_huffman` */
  method ComputeAccelerated(lengths: seq<nat>, keys: seq<nat>) returns (fast: array<int>)
    requires |lengths| == |keys|
    requires forall i :: 0 <= i < |lengths| && lengths[i] <= FAST_LENGTH ==> keys[i] < Pow2(lengths[i])
    ensures fast.Length == FAST_SIZE
    ensures FastUpTo(lengths, keys, fast[..], if |lengths| > FAST_LIMIT then FAST_LIMIT else |lengths|)
  {
    fast := new int[FAST_SIZE](_ => -1);
    var len := |lengths|;
    if len > FAST_LIMIT {
      len := FAST_LIMIT;
    }
    var i := 0;
    while i < len
      invariant 0 <= i <= len
      invariant FastUpTo(lengths, keys, fast[..], i)
    {
      if lengths[i] <= FAST_LENGTH {
        ghost var was := fast[..];
        MarkSlot(fast, keys[i], lengths[i], i);
        MarkKeeps(lengths, keys, was, fast[..], i);
      }
      i := i + 1;
    }
  }

  lemma MarkKeeps(lengths: seq<nat>, keys: seq<nat>, was: seq<int>, now: seq<int>, i: nat)
    requires i < |lengths| && i < |keys| && lengths[i] <= FAST_LENGTH && FastUpTo(lengths, keys, was, i)
    requires |now| == FAST_SIZE
    requires forall z :: 0 <= z < FAST_SIZE ==> now[z] == if z % Pow2(lengths[i]) == keys[i] then i else was[z]
    ensures FastUpTo(lengths, keys, now, i + 1)
  {
  }

  /** The keys of all slots. */
  function KeysOf(c: Codebook): (k: seq<nat>)
    requires c.Shaped()
    ensures |k| == c.Slots()
  {
    seq(c.Slots(), i requires 0 <= i < c.Slots() => c.Key(i))
  }

  /** Slot `i` carries the length and the codeword of its symbol. */
  ghost predicate SlotHolds(c: Codebook, lens: seq<nat>, codes: seq<nat>, i: nat)
    requires c.Shaped() && i < c.Slots() && |codes| == |lens|
  {
    var s := c.Symbol(i);
    && s < |lens| && c.lengths[i] == lens[s]
    && (Used(lens, s) ==> c.Key(i) == BitReverse(codes[s]))
    && (c.sparse ==> Used(lens, s))
  }

  /** The tables describe exactly the specification's code for `lens`. */
  ghost predicate Correct(c: Codebook, lens: seq<nat>, codes: seq<nat>) {
    && c.Shaped() && ValidLengths(lens)
    && |codes| == |lens| == c.entries && SpecCode(lens, codes, |lens|)
    && (forall i :: 0 <= i < c.Slots() ==> SlotHolds(c, lens, codes, i))
    && (c.sortedEntries > 0 ==>
          Indexed(lens, codes, c.sparse, c.sortedEntries, c.sortedCodewords, c.sortedValues))
    && (c.sortedEntries == 0 ==>
          forall i :: 0 <= i < |lens| && Used(lens, i) ==> !Included(c.sparse, lens[i]))
    && FastUpTo(c.lengths, KeysOf(c), c.fast, c.FastSlots())
  }

  /** Counting the entries that have a codeword, and the ones too long for the accelerator. */
  method CountEntries(lens: seq<nat>) returns (total: nat, long: nat)
    ensures total == |Symbols(lens, |lens|)| && long == |Positions(lens, false, |lens|)|
  {
    total, long := 0, 0;
    for j := 0 to |lens|
      invariant total == |Symbols(lens, j)| && long == |Positions(lens, false, j)|
    {
      if lens[j] != NO_CODE {
        total := total + 1;
      }
      if lens[j] > FAST_LENGTH && lens[j] != NO_CODE {
        long := long + 1;
      }
    }
  }

  lemma {:induction false} SymbolsComplete(lens: seq<nat>, n: nat, i: nat)
    requires i < n <= |lens| && Used(lens, i)
    ensures i in Symbols(lens, n)
  {
    if i < n - 1 {
      SymbolsComplete(lens, n - 1, i);
    }
  }

  lemma {:induction false} SymbolsDistinct(lens: seq<nat>, n: nat)
    requires n <= |lens|
    ensures forall t, u :: 0 <= t < u < |Symbols(lens, n)| ==> Symbols(lens, n)[t] < Symbols(lens, n)[u]
  {
    if n > 0 {
      SymbolsDistinct(lens, n - 1);
    }
  }

  /** The arrays filled by `compute_codewords` are the sort's input. */
  lemma StoredKeys(lens: seq<nat>, codes: seq<nat>, sparse: bool, cw: seq<nat>, ln: seq<nat>, vl: seq<nat>)
    requires ValidLengths(lens) && |codes| == |lens| && SpecCode(lens, codes, |lens|)
    requires Stored(lens, codes, |lens|, sparse, cw, ln, vl)
    requires if sparse then |vl| == |Symbols(lens, |lens|)| else |cw| == |lens|
    ensures KeysAre(lens, codes, sparse, cw, vl)
  {
    hide BitReverse, Lowest;
    forall i | 0 <= i < |lens| && Used(lens, i)
      ensures BitReverse(BitReverse(codes[i])) == codes[i]
    {
      BlockFacts(lens, codes, i);
      StoredCode(codes[i], lens[i]);
    }
    if sparse {
      SymbolsDistinct(lens, |lens|);
      forall i | 0 <= i < |lens| && Used(lens, i)
        ensures i in vl
      {
        SymbolsComplete(lens, |lens|, i);
        var t :| 0 <= t < |Symbols(lens, |lens|)| && Symbols(lens, |lens|)[t] == i;
        assert vl[t] == i;
      }
    }
  }

  lemma KeyFits(c: nat, d: nat)
    requires d <= 32 && c < WORD && Aligned(c, d)
    ensures BitReverse(c) < Pow2(d)
  {
    hide BitReverse;
    StoredCode(c, d);
  }

  /** A book whose slots are right is a legal input of the accelerator. */
  lemma ShortKeysFit(c: Codebook, lens: seq<nat>, codes: seq<nat>)
    requires c.Shaped() && ValidLengths(lens) && |codes| == |lens| && SpecCode(lens, codes, |lens|)
    requires forall i :: 0 <= i < c.Slots() ==> SlotHolds(c, lens, codes, i)
    ensures forall i :: 0 <= i < c.Slots() && c.lengths[i] <= FAST_LENGTH ==> KeysOf(c)[i] < Pow2(c.lengths[i])
  {
    hide BitReverse, Lowest;
    forall i | 0 <= i < c.Slots() && c.lengths[i] <= FAST_LENGTH
      ensures KeysOf(c)[i] < Pow2(c.lengths[i])
    {
      assert SlotHolds(c, lens, codes, i);
      BlockFacts(lens, codes, c.Symbol(i));
      KeyFits(codes[c.Symbol(i)], lens[c.Symbol(i)]);
    }
  }

  /** Sorted slots carry the length and codeword of their symbol. */
  lemma SparseSlots(c: Codebook, lens: seq<nat>, codes: seq<nat>)
    requires c.Shaped() && c.sparse && ValidLengths(lens)
    requires |codes| == |lens| && c.sortedEntries > 0
    requires Indexed(lens, codes, true, c.sortedEntries, c.sortedCodewords, c.sortedValues)
    requires forall x :: 0 <= x < c.sortedEntries ==>
      c.sortedValues[x] < |lens| && c.lengths[x] == lens[c.sortedValues[x]]
    ensures forall i :: 0 <= i < c.Slots() ==> SlotHolds(c, lens, codes, i)
  {
    hide BitReverse;
  }

  /** Codebook setup: the sparse-to-dense decision, the three table builders, and the arrays kept
      afterwards. */
  method Setup(lens: seq<nat>, sparseFlag: bool) returns (ok: bool, c: Codebook, ghost codes: seq<nat>)
    requires ValidLengths(lens)
    ensures ok <==> Kraft(lens, |lens|) <= WORD
    ensures ok ==> Correct(c, lens, codes)
    ensures ok ==> (c.sparse <==> sparseFlag && |Symbols(lens, |lens|)| < |lens| / 4)
    ensures ok ==>
      c.sortedEntries == if c.sparse then |Symbols(lens, |lens|)| else |Positions(lens, false, |lens|)|
  {
    hide BitReverse, SpecCode, Kraft, Positions, Stored, KeysAre;
    var entries := |lens|;
    var total, long := CountEntries(lens);
    var sparse := sparseFlag && !(total >= entries / 4);
    var count := if sparse then total else long;
    var room := if sparse then count else entries;
    var codewords, lengths, values := new nat[room], new nat[room], new nat[room];
    ok, codes := ComputeCodewords(lens, sparse, codewords, lengths, values);
    if !ok {
      return false, Codebook(0, false, [], [], [], [], [], 0), codes;
    }
    var cw, vl := codewords[..], values[..];
    StoredKeys(lens, codes, sparse, cw, lengths[..], vl);
    CountIsPositions(lens, sparse, room);
    c := Codebook(entries, sparse, if sparse then [] else lens, if sparse then [] else cw, [], [], [], count);
    if count > 0 {
      c := WithIndex(c, lens, codes, cw, vl);
    } else {
      NoneIncluded(lens, codes, sparse, cw, vl);
    }
    ghost var e := c.(fast := seq(FAST_SIZE, _ => -1));
    if sparse {
      if count > 0 {
        SparseSlots(e, lens, codes);
      }
    } else {
      DenseSlots(e, lens, codes, vl, lengths[..]);
    }
    c := WithAccelerator(c, lens, codes);
  }

  lemma CountIsPositions(lens: seq<nat>, sparse: bool, room: nat)
    requires if sparse then room == |Symbols(lens, |lens|)| else room == |lens|
    ensures |Positions(lens, sparse, room)|
         == if sparse then |Symbols(lens, |lens|)| else |Positions(lens, false, |lens|)|
  {
  }

  lemma NoneIncluded(lens: seq<nat>, codes: seq<nat>, sparse: bool, cw: seq<nat>, vl: seq<nat>)
    requires |codes| == |lens| && KeysAre(lens, codes, sparse, cw, vl)
    requires Positions(lens, sparse, |cw|) == []
    ensures forall i :: 0 <= i < |lens| && Used(lens, i) ==> !Included(sparse, lens[i])
  {
    hide BitReverse;
    forall i | 0 <= i < |lens| && Used(lens, i)
      ensures !Included(sparse, lens[i])
    {
      if !sparse && Included(sparse, lens[i]) {
        PositionsComplete(lens, sparse, |cw|, i);
      }
    }
  }

  /** The sorted tables, when there is anything to sort. */
  method WithIndex(c: Codebook, lens: seq<nat>, ghost codes: seq<nat>, cw: seq<nat>, vl: seq<nat>) returns (r: Codebook)
    requires ValidLengths(lens) && |codes| == |lens| == c.entries && SpecCode(lens, codes, |lens|)
    requires KeysAre(lens, codes, c.sparse, cw, vl)
    requires c.sortedEntries == |Positions(lens, c.sparse, |cw|)| && c.sortedEntries > 0
    ensures r == c.(lengths := r.lengths, sortedCodewords := r.sortedCodewords, sortedValues := r.sortedValues)
    ensures !c.sparse ==> r.lengths == c.lengths
    ensures |r.sortedCodewords| == c.sortedEntries + 1 && |r.sortedValues| == c.sortedEntries
    ensures Indexed(lens, codes, c.sparse, c.sortedEntries, r.sortedCodewords, r.sortedValues)
    ensures c.sparse ==> |r.lengths| == c.sortedEntries && forall x :: 0 <= x < c.sortedEntries ==>
      r.sortedValues[x] < |lens| && r.lengths[x] == lens[r.sortedValues[x]]
  {
    hide BitReverse, SpecCode, Positions, Placed, Increasing;
    KeysDistinct(lens, codes, c.sparse, cw, vl);
    var sc, sv, cl, p := ComputeSorted(lens, c.sparse, cw, vl, c.sortedEntries);
    assert sc[..c.sortedEntries] == sc[..][..c.sortedEntries];
    PlacedIsIndexed(lens, codes, c.sparse, cw, vl, sc[..], c.sortedEntries, sv[..], cl[..]);
    r := c.(lengths := if c.sparse then cl[..] else c.lengths, sortedCodewords := sc[..], sortedValues := sv[..]);
  }

  lemma DenseSlots(c: Codebook, lens: seq<nat>, codes: seq<nat>, vl: seq<nat>, ln: seq<nat>)
    requires c.Shaped() && !c.sparse && ValidLengths(lens) && |codes| == |lens| == c.entries && c.lengths == lens
    requires Stored(lens, codes, |lens|, false, c.codewords, ln, vl)
    ensures forall i :: 0 <= i < c.Slots() ==> SlotHolds(c, lens, codes, i)
  {
    hide BitReverse;
  }

  /** The accelerator over the finished slots: the codewords of a dense book, the reversed sorted
      codewords of a sparse one. */
  method WithAccelerator(c: Codebook, lens: seq<nat>, ghost codes: seq<nat>) returns (r: Codebook)
    requires c.fast == [] && c.(fast := seq(FAST_SIZE, _ => -1)).Shaped()
    requires ValidLengths(lens) && |codes| == |lens| == c.entries && SpecCode(lens, codes, |lens|)
    requires var e := c.(fast := seq(FAST_SIZE, _ => -1));
      forall i :: 0 <= i < e.Slots() ==> SlotHolds(e, lens, codes, i)
    ensures r == c.(fast := r.fast) && r.Shaped()
    ensures forall i :: 0 <= i < r.Slots() ==> SlotHolds(r, lens, codes, i)
    ensures FastUpTo(r.lengths, KeysOf(r), r.fast, r.FastSlots())
  {
    hide BitReverse, SpecCode, SlotHolds;
    var e := c.(fast := seq(FAST_SIZE, _ => -1));
    ShortKeysFit(e, lens, codes);
    var keys := KeysOf(e);
    var fast := ComputeAccelerated(c.lengths, keys);
    r := c.(fast := fast[..]);
    SameSlots(e, r, lens, codes);
  }

  lemma SameSlots(e: Codebook, r: Codebook, lens: seq<nat>, codes: seq<nat>)
    requires e.Shaped() && |r.fast| == FAST_SIZE && r == e.(fast := r.fast) && |codes| == |lens|
    requires forall i :: 0 <= i < e.Slots() ==> SlotHolds(e, lens, codes, i)
    ensures KeysOf(r) == KeysOf(e) && forall i :: 0 <= i < r.Slots() ==> SlotHolds(r, lens, codes, i)
  {
    hide BitReverse;
    forall i | 0 <= i < r.Slots()
      ensures SlotHolds(r, lens, codes, i)
    {
      assert SlotHolds(e, lens, codes, i);
    }
  }
}
