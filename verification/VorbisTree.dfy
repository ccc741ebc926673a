/** Huffman codes from unsorted codeword lengths (Vorbis I specification, section 3.2.1).

    A codeword of length L is an aligned block of 2^(32-L) addresses in the 32-bit code space,
    named by its lowest address.  The specification gives every entry the lowest block of its
    size that is still free; `compute_codewords` reaches the same blocks with one free-leaf slot
    per depth. */
module VorbisTree {
  import opened Bits

  const NO_CODE: nat := 255
  const WORD: nat := 0x1_0000_0000

  predicate Used(lens: seq<nat>, i: nat)
    requires i < |lens|
  {
    lens[i] != NO_CODE
  }

  /** What the code reading a codebook header lets through. */
  predicate ValidLengths(lens: seq<nat>) {
    forall i :: 0 <= i < |lens| && Used(lens, i) ==> 1 <= lens[i] < 32
  }

  function Size(depth: nat): (s: nat)
    requires depth <= 32
    ensures s >= 1
  {
    Pow2(32 - depth)
  }

  /** `c` is a multiple of 2^n: its low `n` bits are zero. */
  predicate Multiple(c: nat, n: nat) {
    n == 0 || (c % 2 == 0 && Multiple(c / 2, n - 1))
  }

  predicate Aligned(c: nat, depth: nat)
    requires depth <= 32
  {
    Multiple(c, 32 - depth)
  }

  predicate Apart(a: nat, s: nat, b: nat, t: nat) {
    a + s <= b || b + t <= a
  }

  /** Block `c` of depth `d` meets no codeword among the first `n` entries. */
  ghost predicate FreeOf(lens: seq<nat>, codes: seq<nat>, n: nat, c: nat, d: nat)
    requires n <= |lens| && n <= |codes| && ValidLengths(lens) && d <= 32
  {
    forall j :: 0 <= j < n && Used(lens, j) ==> Apart(codes[j], Size(lens[j]), c, Size(d))
  }

  /** Entry `i` owns the lowest aligned block of its depth left free by the entries before it. */
  ghost predicate Lowest(lens: seq<nat>, codes: seq<nat>, i: nat)
    requires i < |lens| && i < |codes| && ValidLengths(lens) && Used(lens, i)
  {
    var c, d := codes[i], lens[i];
    && Aligned(c, d)
    && c + Size(d) <= WORD
    && FreeOf(lens, codes, i, c, d)
    && forall c': nat :: c' < c && Aligned(c', d) ==> !FreeOf(lens, codes, i, c', d)
  }

  /** The specification's code for the first `n` entries. */
  ghost predicate SpecCode(lens: seq<nat>, codes: seq<nat>, n: nat)
    requires n <= |lens| && ValidLengths(lens)
  {
    && n <= |codes|
    && forall i :: 0 <= i < n && Used(lens, i) ==> Lowest(lens, codes, i)
  }

  /** The Kraft sum of the first `n` lengths, in units of 2^-32. */
  function Kraft(lens: seq<nat>, n: nat): nat
    requires n <= |lens| && ValidLengths(lens)
  {
    if n == 0 then 0 else Kraft(lens, n - 1) + if Used(lens, n - 1) then Size(lens[n - 1]) else 0
  }

  // ----- the free-leaf slots -----

  ghost predicate FreeAt(av: seq<nat>, z: nat, p: nat)
    requires |av| == 32 && 1 <= z < 32
  {
    av[z] != 0 && av[z] <= p < av[z] + Size(z)
  }

  /** Some free leaf deeper than `d` holds address `p`. */
  ghost predicate FreeBelow(av: seq<nat>, d: nat, p: nat)
    requires |av| == 32
  {
    exists z :: 1 <= z < 32 && d < z && FreeAt(av, z, p)
  }

  ghost predicate UsedAt(lens: seq<nat>, codes: seq<nat>, j: nat, p: nat)
    requires j < |lens| && j < |codes| && ValidLengths(lens)
  {
    Used(lens, j) && codes[j] <= p < codes[j] + Size(lens[j])
  }

  ghost predicate Tiled(lens: seq<nat>, codes: seq<nat>, n: nat, av: seq<nat>, p: nat)
    requires n <= |lens| && n <= |codes| && ValidLengths(lens) && |av| == 32
  {
    || (exists j :: 0 <= j < n && UsedAt(lens, codes, j, p))
    || (exists z :: 1 <= z < 32 && FreeAt(av, z, p))
  }

  function FreeSum(av: seq<nat>, k: nat): nat
    requires |av| == 32 && 1 <= k <= 32
    decreases 32 - k
  {
    if k == 32 then 0 else (if av[k] != 0 then Size(k) else 0) + FreeSum(av, k + 1)
  }

  ghost predicate Ordered(av: seq<nat>)
    requires |av| == 32
  {
    forall y, z :: 1 <= z < y < 32 && av[y] != 0 && av[z] != 0 ==> av[y] + Size(y) <= av[z]
  }

  ghost predicate SlotOk(lens: seq<nat>, codes: seq<nat>, n: nat, av: seq<nat>, z: nat)
    requires n <= |lens| && n <= |codes| && ValidLengths(lens) && |av| == 32 && 1 <= z < 32
  {
    Aligned(av[z], z) && av[z] + Size(z) <= WORD && FreeOf(lens, codes, n, av[z], z)
  }

  /** The slots are exactly the free space: aligned, one per depth, deeper ones strictly lower,
      tiling with the assigned codewords the whole code space. */
  ghost predicate Slots(lens: seq<nat>, codes: seq<nat>, n: nat, av: seq<nat>)
    requires n <= |lens| && ValidLengths(lens)
  {
    && n <= |codes|
    && |av| == 32
    && (forall z :: 1 <= z < 32 && av[z] != 0 ==> SlotOk(lens, codes, n, av, z))
    && Ordered(av)
    && (forall p :: 0 <= p < WORD ==> Tiled(lens, codes, n, av, p))
  }

  /** The search `while (z > 0 && !available[z]) --z`. */
  function Deepest(av: seq<nat>, d: nat): (z: nat)
    requires |av| == 32 && d < 32
    ensures z <= d
    ensures forall y :: z < y <= d ==> av[y] == 0
    ensures z > 0 ==> av[z] != 0
  {
    if d == 0 || av[d] != 0 then d else Deepest(av, d - 1)
  }

  /** The slots after the leaf at depth `z` gave its lowest block of depth `d` away. */
  function Split(av: seq<nat>, z: nat, d: nat): (av': seq<nat>)
    requires |av| == 32 && 1 <= z <= d < 32
    ensures |av'| == 32
  {
    seq(32, y requires 0 <= y < 32 => if y == z then 0 else if z < y <= d then av[z] + Size(y) else av[y])
  }

  lemma SizeHalves(d: nat)
    requires d < 32
    ensures Size(d) == 2 * Size(d + 1)
  {
  }

  lemma {:induction false} SizeMono(a: nat, b: nat)
    requires a <= b <= 32
    ensures Size(b) <= Size(a)
  {
    Pow2Mono(32 - b, 32 - a);
  }

  lemma {:induction false} WordSize()
    ensures Size(0) == WORD
  {
    assert Pow2(8) == 256;
    Pow2Add(8, 8);
    Pow2Add(16, 16);
  }

  lemma {:induction false} MultipleWeaker(c: nat, m: nat, n: nat)
    requires n <= m && Multiple(c, m)
    ensures Multiple(c, n)
  {
    if n > 0 {
      MultipleWeaker(c / 2, m - 1, n - 1);
    }
  }

  /** Multiples of 2^n closer than 2^n are equal. */
  lemma {:induction false} MultipleGap(a: nat, b: nat, n: nat)
    requires Multiple(a, n) && Multiple(b, n) && a <= b < a + Pow2(n)
    ensures a == b
  {
    if n > 0 {
      MultipleGap(a / 2, b / 2, n - 1);
    }
  }

  lemma {:induction false} MultipleSum(a: nat, n: nat)
    requires Multiple(a, n)
    ensures Multiple(a + Pow2(n), n)
  {
    if n > 0 {
      MultipleSum(a / 2, n - 1);
      assert (a + Pow2(n)) / 2 == a / 2 + Pow2(n - 1);
    }
  }

  /** Alignment survives going deeper. */
  lemma AlignedDeeper(c: nat, z: nat, d: nat)
    requires z <= d <= 32 && Aligned(c, z)
    ensures Aligned(c, d)
  {
    MultipleWeaker(c, 32 - z, 32 - d);
  }

  lemma {:induction false} FreeSumBound(av: seq<nat>, k: nat)
    requires |av| == 32 && 1 <= k <= 32
    ensures FreeSum(av, k) < Size(k - 1)
    decreases 32 - k
  {
    if k < 32 {
      FreeSumBound(av, k + 1);
    }
  }

  /** When no slot at or above the wanted depth is free, the rest is too small. */
  lemma {:induction false} NoRoom(av: seq<nat>, k: nat, d: nat)
    requires |av| == 32 && 1 <= k <= d + 1 <= 32
    requires forall y :: k <= y <= d ==> av[y] == 0
    ensures FreeSum(av, k) < Size(d)
    decreases 32 - k
  {
    if k == d + 1 {
      FreeSumBound(av, k);
    } else {
      NoRoom(av, k + 1, d);
    }
  }

  /** Free leaves deeper than `y` cannot cover a whole block of depth `y`: its last address lies
      in some deeper leaf, which ends there, and the part before it is left to leaves deeper still. */
  lemma {:induction false} DeepCannotCover(av: seq<nat>, y: nat, e: nat)
    requires |av| == 32 && y < 32 && Ordered(av)
    requires forall z :: 1 <= z < 32 && av[z] != 0 ==> Aligned(av[z], z)
    requires Size(y) <= e && Aligned(e, y)
    requires forall p :: e - Size(y) <= p < e ==> FreeBelow(av, y, p)
    ensures false
    decreases 32 - y
  {
    assert FreeBelow(av, y, e - 1);
    var z :| 1 <= z < 32 && y < z && FreeAt(av, z, e - 1);
    AlignedDeeper(e, y, z);
    MultipleSum(av[z], 32 - z);
    MultipleGap(e, av[z] + Size(z), 32 - z);
    SizeMono(y + 1, z);
    SizeHalves(y);
    var e' := av[z];
    forall p | e' - Size(z) <= p < e'
      ensures FreeBelow(av, z, p)
    {
      assert FreeBelow(av, y, p);
      var w :| 1 <= w < 32 && y < w && FreeAt(av, w, p);
    }
    DeepCannotCover(av, z, e');
  }

  lemma ShallowerAbove(av: seq<nat>, d: nat)
    requires |av| == 32 && Ordered(av) && 1 <= d < 32 && Deepest(av, d) > 0
    ensures forall y :: 1 <= y <= d && av[y] != 0 ==> av[Deepest(av, d)] <= av[y]
  {
  }

  /** An address of an unassigned block below the deepest usable leaf lies in a deeper leaf. */
  lemma FreePointIsDeep(lens: seq<nat>, codes: seq<nat>, n: nat, av: seq<nat>, d: nat, c: nat, p: nat)
    requires n <= |lens| && ValidLengths(lens) && n <= |codes| && |av| == 32 && Ordered(av)
    requires 1 <= d < 32 && Deepest(av, d) > 0
    requires FreeOf(lens, codes, n, c, d) && c <= p < c + Size(d) <= av[Deepest(av, d)]
    requires Tiled(lens, codes, n, av, p)
    ensures FreeBelow(av, d, p)
  {
    forall j | 0 <= j < n
      ensures !UsedAt(lens, codes, j, p)
    {
      assert Used(lens, j) ==> Apart(codes[j], Size(lens[j]), c, Size(d));
    }
    var y :| 1 <= y < 32 && FreeAt(av, y, p);
    ShallowerAbove(av, d);
  }

  /** The deepest usable slot holds the lowest free block of the wanted depth. */
  lemma DeepestIsLowest(lens: seq<nat>, codes: seq<nat>, n: nat, av: seq<nat>, d: nat, c: nat)
    requires n <= |lens| && ValidLengths(lens) && Slots(lens, codes, n, av)
    requires 1 <= d < 32 && Deepest(av, d) > 0
    requires c < av[Deepest(av, d)] && Aligned(c, d)
    ensures !FreeOf(lens, codes, n, c, d)
  {
    assert SlotOk(lens, codes, n, av, Deepest(av, d));
    BelowAligned(c, av, d);
    if FreeOf(lens, codes, n, c, d) {
      FreeBlockIsDeep(lens, codes, n, av, d, c);
      SlotsAligned(lens, codes, n, av);
      DeepCannotCover(av, d, c + Size(d));
    }
  }

  lemma FreeBlockIsDeep(lens: seq<nat>, codes: seq<nat>, n: nat, av: seq<nat>, d: nat, c: nat)
    requires n <= |lens| && ValidLengths(lens) && n <= |codes| && |av| == 32 && Ordered(av)
    requires 1 <= d < 32 && Deepest(av, d) > 0
    requires FreeOf(lens, codes, n, c, d) && c + Size(d) <= av[Deepest(av, d)] <= WORD
    requires forall p :: 0 <= p < WORD ==> Tiled(lens, codes, n, av, p)
    ensures forall p :: c <= p < c + Size(d) ==> FreeBelow(av, d, p)
  {
    forall p | c <= p < c + Size(d)
      ensures FreeBelow(av, d, p)
    {
      FreePointIsDeep(lens, codes, n, av, d, c, p);
    }
  }

  lemma BelowAligned(c: nat, av: seq<nat>, d: nat)
    requires |av| == 32 && 1 <= d < 32 && Deepest(av, d) > 0 && Aligned(c, d)
    requires Aligned(av[Deepest(av, d)], Deepest(av, d)) && c < av[Deepest(av, d)]
    ensures c + Size(d) <= av[Deepest(av, d)] && Aligned(c + Size(d), d)
  {
    var res := av[Deepest(av, d)];
    AlignedDeeper(res, Deepest(av, d), d);
    MultipleSum(c, 32 - d);
    if res < c + Size(d) {
      MultipleGap(c, res, 32 - d);
    }
  }

  lemma SlotsAligned(lens: seq<nat>, codes: seq<nat>, n: nat, av: seq<nat>)
    requires n <= |lens| && ValidLengths(lens) && Slots(lens, codes, n, av)
    ensures forall z :: 1 <= z < 32 && av[z] != 0 ==> Aligned(av[z], z)
  {
    forall z | 1 <= z < 32 && av[z] != 0
      ensures Aligned(av[z], z)
    {
      assert SlotOk(lens, codes, n, av, z);
    }
  }

  // ----- giving a leaf away -----

  lemma SplitOrdered(av: seq<nat>, z: nat, d: nat)
    requires |av| == 32 && 1 <= z <= d < 32 && av[z] != 0 && z == Deepest(av, d) && Ordered(av)
    ensures Ordered(Split(av, z, d))
  {
    var av' := Split(av, z, d);
    forall y, w | 1 <= w < y < 32 && av'[y] != 0 && av'[w] != 0
      ensures av'[y] + Size(y) <= av'[w]
    {
      SizeHalves(y - 1);
      if z < y <= d {
        SizeMono(z, y - 1);
        SizeMono(w, y - 1);
      }
    }
  }

  /** Every address of the split leaf goes to the new codeword or to exactly one new leaf. */
  lemma {:induction false} SplitCovers(av: seq<nat>, z: nat, d: nat, y: nat, p: nat)
    requires |av| == 32 && 1 <= z <= y <= d < 32 && av[z] != 0
    requires av[z] + Size(d) <= p < av[z] + Size(y)
    ensures exists w :: 1 <= w < 32 && FreeAt(Split(av, z, d), w, p)
    decreases d - y
  {
    if y < d {
      SizeHalves(y);
      if p < av[z] + Size(y + 1) {
        SplitCovers(av, z, d, y + 1, p);
      } else {
        assert FreeAt(Split(av, z, d), y + 1, p);
      }
    }
  }

  lemma SplitTiled(lens: seq<nat>, codes: seq<nat>, n: nat, av: seq<nat>, z: nat, p: nat)
    requires n < |lens| && ValidLengths(lens) && Used(lens, n) && |codes| == n && |av| == 32
    requires 1 <= z <= lens[n] && av[z] != 0 && z == Deepest(av, lens[n])
    requires Tiled(lens, codes, n, av, p)
    ensures Tiled(lens, codes + [av[z]], n + 1, Split(av, z, lens[n]), p)
  {
    var codes', av' := codes + [av[z]], Split(av, z, lens[n]);
    if j :| 0 <= j < n && UsedAt(lens, codes, j, p) {
      assert UsedAt(lens, codes', j, p);
    } else {
      var w :| 1 <= w < 32 && FreeAt(av, w, p);
      if w == z {
        if p < av[z] + Size(lens[n]) {
          assert UsedAt(lens, codes', n, p);
        } else {
          SplitCovers(av, z, lens[n], z, p);
        }
      } else {
        assert FreeAt(av', w, p);
      }
    }
  }

  lemma SplitSlotOk(lens: seq<nat>, codes: seq<nat>, n: nat, av: seq<nat>, z: nat, y: nat)
    requires n < |lens| && ValidLengths(lens) && Used(lens, n) && |codes| == n && |av| == 32
    requires 1 <= z <= lens[n] && av[z] != 0 && z == Deepest(av, lens[n]) && Ordered(av)
    requires 1 <= y < 32 && Split(av, z, lens[n])[y] != 0
    requires SlotOk(lens, codes, n, av, z) && (av[y] != 0 ==> SlotOk(lens, codes, n, av, y))
    ensures SlotOk(lens, codes + [av[z]], n + 1, Split(av, z, lens[n]), y)
  {
    var codes', av', d := codes + [av[z]], Split(av, z, lens[n]), lens[n];
    if z < y <= d {
      NewLeafInside(av, z, y, d);
    }
    SizeMono(z, d);
    forall j | 0 <= j < n + 1 && Used(lens, j)
      ensures Apart(codes'[j], Size(lens[j]), av'[y], Size(y))
    {
      assert j < n ==> Apart(codes[j], Size(lens[j]), av[z], Size(z));
      assert j < n && y != z && av[y] != 0 ==> Apart(codes[j], Size(lens[j]), av[y], Size(y));
    }
  }

  /** A new leaf is aligned, inside the split leaf, and above the new codeword. */
  lemma NewLeafInside(av: seq<nat>, z: nat, y: nat, d: nat)
    requires |av| == 32 && 1 <= z < y <= d < 32 && Aligned(av[z], z)
    ensures Aligned(av[z] + Size(y), y)
    ensures Size(d) <= Size(y) && 2 * Size(y) <= Size(z)
  {
    SizeMono(z, y - 1);
    SizeHalves(y - 1);
    SizeMono(y, d);
    AlignedDeeper(av[z], z, y);
    MultipleSum(av[z], 32 - y);
  }

  lemma SplitSlots(lens: seq<nat>, codes: seq<nat>, n: nat, av: seq<nat>)
    requires n < |lens| && ValidLengths(lens) && Used(lens, n) && |codes| == n
    requires Slots(lens, codes, n, av) && Deepest(av, lens[n]) > 0
    ensures var z := Deepest(av, lens[n]);
      Slots(lens, codes + [av[z]], n + 1, Split(av, z, lens[n]))
  {
    var z := Deepest(av, lens[n]);
    var codes', av' := codes + [av[z]], Split(av, z, lens[n]);
    SplitOrdered(av, z, lens[n]);
    forall y | 1 <= y < 32 && av'[y] != 0
      ensures SlotOk(lens, codes', n + 1, av', y)
    {
      SplitSlotOk(lens, codes, n, av, z, y);
    }
    var n' := n + 1;
    forall p | 0 <= p < WORD
      ensures Tiled(lens, codes', n', av', p)
    {
      SplitTiled(lens, codes, n, av, z, p);
    }
  }

  lemma SplitLowest(lens: seq<nat>, codes: seq<nat>, n: nat, av: seq<nat>)
    requires n < |lens| && ValidLengths(lens) && Used(lens, n) && |codes| == n
    requires Slots(lens, codes, n, av) && Deepest(av, lens[n]) > 0
    ensures Lowest(lens, codes + [av[Deepest(av, lens[n])]], n)
  {
    var d := lens[n];
    var z := Deepest(av, d);
    var codes' := codes + [av[z]];
    assert SlotOk(lens, codes, n, av, z);
    AlignedDeeper(av[z], z, d);
    SizeMono(z, d);
    forall j | 0 <= j < n && Used(lens, j)
      ensures Apart(codes'[j], Size(lens[j]), av[z], Size(d))
    {
      assert Apart(codes[j], Size(lens[j]), av[z], Size(z));
    }
    forall c: nat | c < av[z] && Aligned(c, d)
      ensures !FreeOf(lens, codes', n, c, d)
    {
      DeepestIsLowest(lens, codes, n, av, d, c);
      FreeOfPrefix(lens, codes, codes', n, c, d);
    }
  }

  lemma FreeOfPrefix(lens: seq<nat>, codes: seq<nat>, codes': seq<nat>, n: nat, c: nat, d: nat)
    requires n <= |lens| && n <= |codes| && codes <= codes' && ValidLengths(lens) && d <= 32
    ensures FreeOf(lens, codes, n, c, d) == FreeOf(lens, codes', n, c, d)
  {
    assert forall j :: 0 <= j < n ==> codes[j] == codes'[j];
  }

  // ----- conservation of the code space -----

  lemma {:induction false} FreeSumAgree(a: seq<nat>, b: seq<nat>, k: nat)
    requires |a| == |b| == 32 && 1 <= k <= 32
    requires forall y :: k <= y < 32 ==> (a[y] == 0) == (b[y] == 0)
    ensures FreeSum(a, k) == FreeSum(b, k)
    decreases 32 - k
  {
    if k < 32 {
      FreeSumAgree(a, b, k + 1);
    }
  }

  /** Below the split leaf: the new leaves are worth Size(k-1) - Size(d). */
  lemma {:induction false} SplitSumBelow(av: seq<nat>, z: nat, d: nat, k: nat)
    requires |av| == 32 && 1 <= z < k <= d + 1 <= 32 && av[z] != 0 && z == Deepest(av, d)
    ensures FreeSum(Split(av, z, d), k) + Size(d) == FreeSum(av, k) + Size(k - 1)
    decreases 32 - k
  {
    if k == d + 1 {
      FreeSumAgree(Split(av, z, d), av, k);
    } else {
      SizeHalves(k - 1);
      SplitSumBelow(av, z, d, k + 1);
    }
  }

  /** A split hands over exactly the codeword's block. */
  lemma {:induction false} SplitSum(av: seq<nat>, z: nat, d: nat, k: nat)
    requires |av| == 32 && 1 <= k <= z <= d < 32 && av[z] != 0 && z == Deepest(av, d)
    ensures FreeSum(Split(av, z, d), k) + Size(d) == FreeSum(av, k)
    decreases 32 - k
  {
    if k == z {
      SplitSumBelow(av, z, d, z + 1);
    } else {
      SplitSum(av, z, d, k + 1);
    }
  }

  // ----- the first codeword -----

  function FirstSlots(d: nat): (av: seq<nat>)
    requires d < 32
    ensures |av| == 32
  {
    seq(32, y requires 0 <= y < 32 => if 1 <= y <= d then Size(y) else 0)
  }

  lemma {:induction false} FirstTiled(d: nat, y: nat, p: nat)
    requires y <= d < 32 && Size(d) <= p < Size(y)
    ensures exists w :: 1 <= w < 32 && FreeAt(FirstSlots(d), w, p)
    decreases d - y
  {
    if y < d {
      SizeHalves(y);
      if p < Size(y + 1) {
        FirstTiled(d, y + 1, p);
      } else {
        assert FreeAt(FirstSlots(d), y + 1, p);
      }
    }
  }

  lemma {:induction false} FirstSum(d: nat, k: nat)
    requires 1 <= k <= d + 1 <= 32
    ensures FreeSum(FirstSlots(d), k) + Size(d) == Size(k - 1)
    decreases 32 - k
  {
    if k == d + 1 {
      FirstSumZero(d, k);
    } else {
      FirstSum(d, k + 1);
    }
  }

  lemma {:induction false} FirstSumZero(d: nat, k: nat)
    requires d < k <= 32
    ensures FreeSum(FirstSlots(d), k) == 0
    decreases 32 - k
  {
    if k < 32 {
      FirstSumZero(d, k + 1);
    }
  }

  lemma {:induction false} MultipleOfPow2(n: nat, m: nat)
    requires n <= m
    ensures Multiple(Pow2(m), n) && Multiple(0, n)
  {
    if n > 0 {
      MultipleOfPow2(n - 1, m - 1);
      assert Pow2(m) / 2 == Pow2(m - 1);
    }
  }

  /** After the first used entry `k`: code 0, and one leaf at each depth down to its own. */
  lemma FirstCode(lens: seq<nat>, codes: seq<nat>, k: nat)
    requires ValidLengths(lens) && k < |lens| && Used(lens, k) && |codes| == k + 1 && codes[k] == 0
    requires forall j :: 0 <= j < k ==> !Used(lens, j)
    ensures Slots(lens, codes, k + 1, FirstSlots(lens[k])) && Lowest(lens, codes, k)
  {
    var d, av := lens[k], FirstSlots(lens[k]);
    forall y | 1 <= y < 32 && av[y] != 0
      ensures SlotOk(lens, codes, k + 1, av, y)
    {
      MultipleOfPow2(32 - y, 32 - y);
      SizeHalves(y - 1);
      SizeMono(0, y - 1);
      SizeMono(y, d);
      WordSize();
    }
    forall y, z | 1 <= z < y < 32 && av[y] != 0 && av[z] != 0
      ensures av[y] + Size(y) <= av[z]
    {
      SizeHalves(y - 1);
      SizeMono(z, y - 1);
    }
    var n := k + 1;
    forall p | 0 <= p < WORD
      ensures Tiled(lens, codes, n, av, p)
    {
      WordSize();
      if p < Size(d) {
        assert UsedAt(lens, codes, k, p);
      } else {
        FirstTiled(d, 0, p);
      }
    }
    MultipleOfPow2(32 - d, 32 - d);
    SizeMono(0, d);
    WordSize();
  }

  // ----- what the construction proves about the code -----

  lemma {:induction false} KraftMono(lens: seq<nat>, n: nat, m: nat)
    requires n <= m <= |lens| && ValidLengths(lens)
    ensures Kraft(lens, n) <= Kraft(lens, m)
  {
    if n < m {
      KraftMono(lens, n, m - 1);
    }
  }

  lemma {:induction false} KraftUnused(lens: seq<nat>, k: nat)
    requires k <= |lens| && ValidLengths(lens)
    requires forall j :: 0 <= j < k ==> !Used(lens, j)
    ensures Kraft(lens, k) == 0
  {
    if k > 0 {
      KraftUnused(lens, k - 1);
    }
  }

  ghost predicate FirstUsed(lens: seq<nat>, k: nat) {
    k < |lens| && Used(lens, k) && forall j :: 0 <= j < k ==> !Used(lens, j)
  }

  /** Slots and Kraft sum together: the state between two rounds of the construction. */
  ghost predicate Building(lens: seq<nat>, codes: seq<nat>, n: nat, av: seq<nat>)
    requires n <= |lens| && ValidLengths(lens)
  {
    && |codes| == n
    && SpecCode(lens, codes, n)
    && Slots(lens, codes, n, av)
    && Kraft(lens, n) + FreeSum(av, 1) == WORD
  }

  lemma SpecCodeGrows(lens: seq<nat>, codes: seq<nat>, n: nat, c: nat)
    requires n < |lens| && ValidLengths(lens) && |codes| == n && SpecCode(lens, codes, n)
    requires Used(lens, n) ==> Lowest(lens, codes + [c], n)
    ensures SpecCode(lens, codes + [c], n + 1)
  {
    var codes' := codes + [c];
    forall i | 0 <= i < n + 1 && Used(lens, i)
      ensures Lowest(lens, codes', i)
    {
      if i < n {
        LowestPrefix(lens, codes, codes', i);
      }
    }
  }

  lemma LowestPrefix(lens: seq<nat>, codes: seq<nat>, codes': seq<nat>, i: nat)
    requires i < |lens| && i < |codes| && codes <= codes' && ValidLengths(lens) && Used(lens, i)
    requires Lowest(lens, codes, i)
    ensures Lowest(lens, codes', i)
  {
    var d := lens[i];
    FreeOfPrefix(lens, codes, codes', i, codes[i], d);
    forall c: nat | c < codes'[i] && Aligned(c, d)
      ensures !FreeOf(lens, codes', i, c, d)
    {
      FreeOfPrefix(lens, codes, codes', i, c, d);
    }
  }

  lemma StartBuilding(lens: seq<nat>, k: nat)
    requires ValidLengths(lens) && FirstUsed(lens, k)
    ensures Building(lens, seq(k + 1, _ => 0), k + 1, FirstSlots(lens[k]))
  {
    hide Slots, FreeSum, Kraft;
    FirstCode(lens, seq(k + 1, _ => 0), k);
    FirstKraft(lens, k);
  }

  lemma FirstKraft(lens: seq<nat>, k: nat)
    requires ValidLengths(lens) && FirstUsed(lens, k)
    ensures Kraft(lens, k + 1) + FreeSum(FirstSlots(lens[k]), 1) == WORD
  {
    KraftUnused(lens, k);
    FirstSum(lens[k], 1);
    WordSize();
  }

  /** An unused entry changes nothing. */
  lemma SkipEntry(lens: seq<nat>, codes: seq<nat>, n: nat, av: seq<nat>)
    requires n < |lens| && ValidLengths(lens) && !Used(lens, n) && Building(lens, codes, n, av)
    ensures Building(lens, codes + [0], n + 1, av)
  {
    hide Lowest, Kraft, FreeSum;
    var codes', n' := codes + [0], n + 1;
    SpecCodeGrows(lens, codes, n, 0);
    KraftSkip(lens, n);
    SkipSlots(lens, codes, n, av);
  }

  lemma KraftSkip(lens: seq<nat>, n: nat)
    requires n < |lens| && ValidLengths(lens) && !Used(lens, n)
    ensures Kraft(lens, n + 1) == Kraft(lens, n)
  {
  }

  lemma SkipSlots(lens: seq<nat>, codes: seq<nat>, n: nat, av: seq<nat>)
    requires n < |lens| && ValidLengths(lens) && !Used(lens, n) && |codes| == n && Slots(lens, codes, n, av)
    ensures Slots(lens, codes + [0], n + 1, av)
  {
    var codes', n' := codes + [0], n + 1;
    forall z | 1 <= z < 32 && av[z] != 0
      ensures SlotOk(lens, codes', n', av, z)
    {
      assert SlotOk(lens, codes, n, av, z);
      FreeOfPrefix(lens, codes, codes', n, av[z], z);
    }
    forall p | 0 <= p < WORD
      ensures Tiled(lens, codes', n', av, p)
    {
      assert Tiled(lens, codes, n, av, p);
      if j :| 0 <= j < n && UsedAt(lens, codes, j, p) {
        assert UsedAt(lens, codes', j, p);
      }
    }
  }

  /** A used entry takes its block from the deepest usable leaf. */
  lemma TakeEntry(lens: seq<nat>, codes: seq<nat>, n: nat, av: seq<nat>)
    requires n < |lens| && ValidLengths(lens) && Used(lens, n) && Building(lens, codes, n, av)
    requires Deepest(av, lens[n]) > 0
    ensures var z := Deepest(av, lens[n]);
      Building(lens, codes + [av[z]], n + 1, Split(av, z, lens[n]))
  {
    var z := Deepest(av, lens[n]);
    SplitLowest(lens, codes, n, av);
    SpecCodeGrows(lens, codes, n, av[z]);
    SplitSlots(lens, codes, n, av);
    SplitSum(av, z, lens[n], 1);
  }

  /** With no usable leaf the lengths are oversubscribed. */
  lemma NoLeafOverflows(lens: seq<nat>, codes: seq<nat>, n: nat, av: seq<nat>)
    requires n < |lens| && ValidLengths(lens) && Used(lens, n) && Building(lens, codes, n, av)
    requires Deepest(av, lens[n]) == 0
    ensures Kraft(lens, n + 1) > WORD
  {
    NoRoom(av, 1, lens[n]);
  }

  lemma BuildingFits(lens: seq<nat>, codes: seq<nat>, av: seq<nat>)
    requires ValidLengths(lens) && Building(lens, codes, |lens|, av)
    ensures Kraft(lens, |lens|) <= WORD
  {
  }

  /** The same state computed entry by entry from the first used entry `k`, without the arrays. */
  lemma {:induction false} Construct(lens: seq<nat>, k: nat, n: nat) returns (ok: bool, codes: seq<nat>, av: seq<nat>)
    requires k < n <= |lens| && ValidLengths(lens) && FirstUsed(lens, k)
    ensures if ok then Building(lens, codes, n, av) else Kraft(lens, n) > WORD
  {
    hide Slots, SpecCode, FreeSum;
    if n == k + 1 {
      StartBuilding(lens, k);
      return true, seq(n, _ => 0), FirstSlots(lens[k]);
    }
    ok, codes, av := Construct(lens, k, n - 1);
    if ok {
      ok, codes, av := ConstructStep(lens, codes, n - 1, av);
    } else {
      KraftMono(lens, n - 1, n);
    }
  }

  lemma ConstructStep(lens: seq<nat>, codes: seq<nat>, n: nat, av: seq<nat>)
    returns (ok: bool, codes': seq<nat>, av': seq<nat>)
    requires n < |lens| && ValidLengths(lens) && Building(lens, codes, n, av)
    ensures if ok then Building(lens, codes', n + 1, av') else Kraft(lens, n + 1) > WORD
  {
    if !Used(lens, n) {
      SkipEntry(lens, codes, n, av);
      return true, codes + [0], av;
    }
    var z := Deepest(av, lens[n]);
    if z == 0 {
      NoLeafOverflows(lens, codes, n, av);
      return false, codes, av;
    }
    TakeEntry(lens, codes, n, av);
    return true, codes + [av[z]], Split(av, z, lens[n]);
  }

  /** The lengths determine the code: two codes built to the specification agree. */
  lemma {:induction false} SpecCodeUnique(lens: seq<nat>, a: seq<nat>, b: seq<nat>, n: nat)
    requires n <= |lens| && ValidLengths(lens) && SpecCode(lens, a, n) && SpecCode(lens, b, n)
    ensures forall i :: 0 <= i < n && Used(lens, i) ==> a[i] == b[i]
  {
    if n > 0 {
      SpecCodeUnique(lens, a, b, n - 1);
      var i := n - 1;
      if Used(lens, i) {
        FreeOfAgree(lens, a, b, i, a[i], lens[i]);
        FreeOfAgree(lens, a, b, i, b[i], lens[i]);
      }
    }
  }

  lemma FreeOfAgree(lens: seq<nat>, a: seq<nat>, b: seq<nat>, n: nat, c: nat, d: nat)
    requires n <= |lens| && n <= |a| && n <= |b| && ValidLengths(lens) && d <= 32
    requires forall i :: 0 <= i < n && Used(lens, i) ==> a[i] == b[i]
    ensures FreeOf(lens, a, n, c, d) == FreeOf(lens, b, n, c, d)
  {
  }

  /** With no usable leaf there is no free block of the wanted depth at all. */
  lemma NoLeafNoBlock(lens: seq<nat>, codes: seq<nat>, n: nat, av: seq<nat>, d: nat, c: nat)
    requires n <= |lens| && ValidLengths(lens) && Slots(lens, codes, n, av)
    requires 1 <= d < 32 && Deepest(av, d) == 0 && Aligned(c, d) && c + Size(d) <= WORD
    ensures !FreeOf(lens, codes, n, c, d)
  {
    if FreeOf(lens, codes, n, c, d) {
      forall p | c <= p < c + Size(d)
        ensures FreeBelow(av, d, p)
      {
        assert Tiled(lens, codes, n, av, p);
        FreePointIsFree(lens, codes, n, av, d, c, p);
      }
      SlotsAligned(lens, codes, n, av);
      MultipleSum(c, 32 - d);
      DeepCannotCover(av, d, c + Size(d));
    }
  }

  lemma FreePointIsFree(lens: seq<nat>, codes: seq<nat>, n: nat, av: seq<nat>, d: nat, c: nat, p: nat)
    requires n <= |lens| && ValidLengths(lens) && n <= |codes| && |av| == 32
    requires 1 <= d < 32 && Deepest(av, d) == 0
    requires FreeOf(lens, codes, n, c, d) && c <= p < c + Size(d)
    requires Tiled(lens, codes, n, av, p)
    ensures FreeBelow(av, d, p)
  {
    forall j | 0 <= j < n
      ensures !UsedAt(lens, codes, j, p)
    {
      assert Used(lens, j) ==> Apart(codes[j], Size(lens[j]), c, Size(d));
    }
    var y :| 1 <= y < 32 && FreeAt(av, y, p);
  }

  lemma {:induction false} CodeFits(lens: seq<nat>, codes: seq<nat>, n: nat)
    requires n <= |lens| && ValidLengths(lens) && SpecCode(lens, codes, n)
    ensures Kraft(lens, n) <= WORD
  {
    hide Building, Lowest;
    if n > 0 {
      CodeFits(lens, codes, n - 1);
      if Used(lens, n - 1) {
        if k :| 0 <= k < n - 1 && FirstUsed(lens, k) {
          var ok, built, av := Construct(lens, k, n - 1);
          CodeFitsStep(lens, codes, built, n - 1, av);
        } else {
          FirstOrNone(lens, n - 1);
          KraftUnused(lens, n - 1);
          SizeMono(0, lens[n - 1]);
          WordSize();
        }
      }
    }
  }

  lemma {:induction false} FirstOrNone(lens: seq<nat>, n: nat)
    requires n <= |lens|
    ensures (exists k :: 0 <= k < n && FirstUsed(lens, k)) || (forall j :: 0 <= j < n ==> !Used(lens, j))
  {
    if n > 0 {
      FirstOrNone(lens, n - 1);
      assert FirstUsed(lens, n - 1) || !Used(lens, n - 1) || exists j :: 0 <= j < n - 1 && Used(lens, j);
    }
  }

  lemma CodeFitsStep(lens: seq<nat>, codes: seq<nat>, built: seq<nat>, n: nat, av: seq<nat>)
    requires n < |lens| && ValidLengths(lens) && SpecCode(lens, codes, n + 1)
    requires Used(lens, n) && Building(lens, built, n, av)
    ensures Kraft(lens, n + 1) <= WORD
  {
    var d := lens[n];
    if Deepest(av, d) == 0 {
      SpecCodeUnique(lens, codes, built, n);
      assert Lowest(lens, codes, n);
      NoLeafNoBlock(lens, built, n, av, d, codes[n]);
      FreeOfAgree(lens, codes, built, n, codes[n], d);
    } else {
      TakeEntry(lens, built, n, av);
    }
  }

  /** A code built to the specification exists exactly when the Kraft sum does not exceed 1. */
  lemma {:induction false} SpecCodeIffKraft(lens: seq<nat>)
    requires ValidLengths(lens)
    ensures (exists codes :: SpecCode(lens, codes, |lens|)) <==> Kraft(lens, |lens|) <= WORD
  {
    forall codes | SpecCode(lens, codes, |lens|)
      ensures Kraft(lens, |lens|) <= WORD
    {
      CodeFits(lens, codes, |lens|);
    }
    if k :| 0 <= k < |lens| && FirstUsed(lens, k) {
      var ok, codes, av := Construct(lens, k, |lens|);
      assert ok ==> SpecCode(lens, codes, |lens|);
    } else {
      FirstOrNone(lens, |lens|);
      KraftUnused(lens, |lens|);
      assert SpecCode(lens, lens, |lens|);
    }
  }

  /** The blocks of a code never overlap: no codeword is a prefix of another. */
  lemma CodesApart(lens: seq<nat>, codes: seq<nat>, n: nat, i: nat, j: nat)
    requires n <= |lens| && ValidLengths(lens) && SpecCode(lens, codes, n)
    requires i < n && j < n && i != j && Used(lens, i) && Used(lens, j)
    ensures Apart(codes[i], Size(lens[i]), codes[j], Size(lens[j]))
  {
    var lo, hi := if i < j then i else j, if i < j then j else i;
    assert Lowest(lens, codes, hi);
  }
}
