/** The decoder's form of a Huffman code: a table of 1024 entries for the first ten bits, and a
    tree, stored as pairs of cells, for what is longer.

    A cell holds a symbol, or the negative number of the pair that continues it.  `paths` gives
    each pair the bits that lead to it; with it, the invariant says of every cell which bits lead
    there and what the code says about them. */
module InflateTables {
  import opened Bits
  import opened InflateCode

  const LOOKUP_BITS: nat := 10
  const LOOKUP_SIZE: nat := 1024

  // ----- what a bit string means under a code -----

  ghost predicate Begins(sizes: seq<nat>, s: nat, b: seq<bool>) {
    s < |sizes| && sizes[s] > 0 && Codeword(sizes, s) <= b
  }

  /** Some codeword among the first `n` symbols' is longer and begins with `p`. */
  ghost predicate Inner(sizes: seq<nat>, n: nat, p: seq<bool>)
    requires n <= |sizes|
  {
    exists s :: 0 <= s < n && InnerOf(sizes, s, p)
  }

  ghost predicate InnerOf(sizes: seq<nat>, s: nat, p: seq<bool>)
    requires s < |sizes|
  {
    |p| < sizes[s] && p <= Codeword(sizes, s)
  }

  /** Where bits that begin with no codeword leave the code; none at all, if within ten bits. */
  ghost function HoleLength(sizes: seq<nat>, b: seq<bool>, d: nat): (h: nat)
    requires LOOKUP_BITS <= d <= |b|
    decreases |b| - d
  {
    if Inner(sizes, |sizes|, b[..d]) then if d < |b| then HoleLength(sizes, b, d + 1) else d
    else if d == LOOKUP_BITS then 0 else d
  }

  /** The symbol and the number of bits it takes. */
  ghost function Meaning(sizes: seq<nat>, b: seq<bool>): (r: (nat, nat))
    requires |b| >= MAX_BITS
  {
    if exists s: nat :: Begins(sizes, s, b) then
      var s: nat :| Begins(sizes, s, b); (s, sizes[s])
    else (0, HoleLength(sizes, b, LOOKUP_BITS))
  }

  // ----- the tables -----

  lemma Pow10()
    ensures Pow2(10) == 1024
  {
    assert Pow2(8) == 256;
  }

  function Index(q: seq<bool>): (r: nat)
    requires |q| == LOOKUP_BITS
    ensures r < LOOKUP_SIZE
  {
    Pow10();
    FromBits(q)
  }

  function Link(m: nat): (e: int)
    ensures e < 0
  {
    -1 - 2 * m
  }

  ghost predicate Linked(paths: seq<seq<bool>>, e: int, q: seq<bool>) {
    && (e < 0 ==> exists m :: 0 <= m < |paths| && paths[m] == q && e == Link(m))
    && (forall m :: 0 <= m < |paths| && paths[m] == q ==> e == Link(m))
  }

  /** A cell of the lookup table: ten bits lead to it. */
  ghost predicate LookCell(sizes: seq<nat>, k: nat, paths: seq<seq<bool>>, e: int, q: seq<bool>)
    requires k <= |sizes|
  {
    && Linked(paths, e, q)
    && (e > 0 ==> e % 512 < k && Short(sizes, e % 512, q) && e / 512 == sizes[e % 512])
    && (forall i :: 0 <= i < k && Short(sizes, i, q) ==> e == 512 * sizes[i] + i)
  }

  ghost predicate Short(sizes: seq<nat>, i: nat, q: seq<bool>)
    requires i < |sizes|
  {
    0 < sizes[i] <= LOOKUP_BITS && Codeword(sizes, i) <= q
  }

  /** A cell of the tree. */
  ghost predicate TreeCell(sizes: seq<nat>, k: nat, paths: seq<seq<bool>>, e: int, q: seq<bool>)
    requires k <= |sizes|
  {
    && Linked(paths, e, q)
    && (e > 0 ==> e < k && Is(sizes, e, q))
    && (forall i :: 0 <= i < k && Is(sizes, i, q) ==> e == i)
  }

  ghost predicate Is(sizes: seq<nat>, i: nat, q: seq<bool>)
    requires i < |sizes|
  {
    sizes[i] > 0 && Codeword(sizes, i) == q
  }

  ghost predicate Has(paths: seq<seq<bool>>, q: seq<bool>) {
    exists m :: 0 <= m < |paths| && paths[m] == q
  }

  /** A path is inside the codeword of one of the first `k` symbols, or among the first `d` bits
      of the one that is being entered. */
  ghost predicate Grown(sizes: seq<nat>, k: nat, d: nat, p: seq<bool>)
    requires k <= |sizes|
  {
    Inner(sizes, k, p) || (k < |sizes| && |p| <= d && InnerOf(sizes, k, p))
  }

  ghost predicate Paths(sizes: seq<nat>, k: nat, d: nat, paths: seq<seq<bool>>)
    requires k <= |sizes|
  {
    && (forall m :: 0 <= m < |paths| ==> LOOKUP_BITS <= |paths[m]| < MAX_BITS && Grown(sizes, k, d, paths[m]))
    && (forall m, n :: 0 <= m < n < |paths| ==> paths[m] != paths[n])
  }

  /** Every place inside an entered codeword, from the tenth bit on, has its pair of cells. */
  ghost predicate Closed(sizes: seq<nat>, k: nat, d: nat, paths: seq<seq<bool>>)
    requires k <= |sizes|
  {
    && (forall q: seq<bool> :: |q| >= LOOKUP_BITS && Inner(sizes, k, q) ==> Has(paths, q))
    && (k < |sizes| ==>
      forall q: seq<bool> :: LOOKUP_BITS <= |q| <= d && InnerOf(sizes, k, q) ==> Has(paths, q))
  }

  ghost predicate Cells(sizes: seq<nat>, k: nat, lookup: seq<int>, tree: seq<int>, paths: seq<seq<bool>>)
    requires k <= |sizes|
  {
    && |lookup| == LOOKUP_SIZE && 2 * |paths| <= |tree|
    && (forall q: seq<bool> :: |q| == LOOKUP_BITS ==> LookCell(sizes, k, paths, lookup[Index(q)], q))
    && (forall m, b :: 0 <= m < |paths| ==> TreeCell(sizes, k, paths, tree[2 * m + Bit(b)], paths[m] + [b]))
    && (forall j :: 2 * |paths| <= j < |tree| ==> tree[j] == 0)
  }

  ghost predicate Inv(sizes: seq<nat>, k: nat, d: nat, lookup: seq<int>, tree: seq<int>, paths: seq<seq<bool>>) {
    && Lengths(sizes) && NextCode(sizes, 16) <= 65536 && k <= |sizes|
    && Paths(sizes, k, d, paths) && Closed(sizes, k, d, paths) && Cells(sizes, k, lookup, tree, paths)
  }

  // ----- reading the tables -----

  /** The walk of `TINFL_HUFF_DECODE`: from the pair that `e` names, along the bits from `d` on. */
  function Walk(tree: seq<int>, e: int, b: seq<bool>, d: nat): (r: (int, nat))
    decreases |b| - d
  {
    var at := -1 - e;
    if d >= |b| || at < 0 || at + 1 >= |tree| then (0, d)
    else
      var next := tree[at + Bit(b[d])];
      if next < 0 then Walk(tree, next, b, d + 1) else (next, d + 1)
  }

  function Read(lookup: seq<int>, tree: seq<int>, b: seq<bool>): (r: (int, nat))
    requires |lookup| == LOOKUP_SIZE && |b| >= MAX_BITS
  {
    var e := lookup[Index(b[..LOOKUP_BITS])];
    if e >= 0 then (e % 512, e / 512) else Walk(tree, e, b, LOOKUP_BITS)
  }

  lemma BeginsOnce(sizes: seq<nat>, s: nat, b: seq<bool>)
    requires Lengths(sizes) && NextCode(sizes, 16) <= 65536 && Begins(sizes, s, b) && |b| >= MAX_BITS
    ensures Meaning(sizes, b) == (s, sizes[s])
  {
    hide Codeword;
    var t := Meaning(sizes, b).0;
    assert Begins(sizes, t, b) by {
      assert exists t: nat :: Begins(sizes, t, b);
    }
    PrefixFree(sizes, s, t, b);
  }

  /** No codeword begins a place inside another codeword. */
  lemma NoneBelow(sizes: seq<nat>, s: nat, p: seq<bool>)
    requires Lengths(sizes) && NextCode(sizes, 16) <= 65536 && s < |sizes| && sizes[s] > 0
    ensures Inner(sizes, |sizes|, p) ==> !(Codeword(sizes, s) <= p)
  {
    hide Codeword;
    if Inner(sizes, |sizes|, p) && Codeword(sizes, s) <= p {
      var i :| 0 <= i < |sizes| && InnerOf(sizes, i, p);
      PrefixFree(sizes, s, i, Codeword(sizes, i));
    }
  }

  lemma GrownInner(sizes: seq<nat>, k: nat, d: nat, p: seq<bool>)
    requires k <= |sizes|
    ensures Grown(sizes, k, d, p) ==> Inner(sizes, |sizes|, p)
    ensures Inner(sizes, k, p) ==> Inner(sizes, |sizes|, p)
  {
  }

  /** The walk through finished tables finds what the bits mean. */
  lemma {:induction false} WalkMeaning(sizes: seq<nat>, lookup: seq<int>, tree: seq<int>, paths: seq<seq<bool>>,
                                      m: nat, b: seq<bool>, d: nat)
    requires Inv(sizes, |sizes|, 0, lookup, tree, paths) && |b| == MAX_BITS
    requires m < |paths| && LOOKUP_BITS <= d < MAX_BITS && paths[m] == b[..d]
    ensures Walk(tree, Link(m), b, d) == Meaning(sizes, b)
    decreases |b| - d
  {
    hide Meaning, TreeCell, Cells, Closed, Paths;
    var n := NextCell(sizes, lookup, tree, paths, m, b, d);
    var e := tree[2 * m + Bit(b[d])];
    if e < 0 {
      WalkMeaning(sizes, lookup, tree, paths, n, b, d + 1);
    } else {
      LeafMeaning(sizes, paths, m, b, d, e);
    }
  }

  /** The cell after a pair, along the bits, and the pair it names if it names one. */
  lemma NextCell(sizes: seq<nat>, lookup: seq<int>, tree: seq<int>, paths: seq<seq<bool>>, m: nat, b: seq<bool>, d: nat)
    returns (n: nat)
    requires Inv(sizes, |sizes|, 0, lookup, tree, paths) && |b| == MAX_BITS
    requires m < |paths| && LOOKUP_BITS <= d < MAX_BITS && paths[m] == b[..d]
    ensures 2 * m + 1 < |tree| && TreeCell(sizes, |sizes|, paths, tree[2 * m + Bit(b[d])], b[..d + 1])
    ensures tree[2 * m + Bit(b[d])] < 0 ==>
      n < |paths| && d + 1 < MAX_BITS && paths[n] == b[..d + 1] && tree[2 * m + Bit(b[d])] == Link(n)
  {
    hide Codeword, Closed, Inner;
    assert paths[m] + [b[d]] == b[..d + 1];
    var e := tree[2 * m + Bit(b[d])];
    n := 0;
    if e < 0 {
      n :| n < |paths| && paths[n] == b[..d + 1] && e == Link(n);
    }
  }

  lemma LeafMeaning(sizes: seq<nat>, paths: seq<seq<bool>>, m: nat, b: seq<bool>, d: nat, e: nat)
    requires Lengths(sizes) && NextCode(sizes, 16) <= 65536 && |b| == MAX_BITS
    requires Paths(sizes, |sizes|, 0, paths) && Closed(sizes, |sizes|, 0, paths)
    requires m < |paths| && LOOKUP_BITS <= d < MAX_BITS && paths[m] == b[..d]
    requires TreeCell(sizes, |sizes|, paths, e, b[..d + 1])
    ensures Meaning(sizes, b) == (e, d + 1)
  {
    hide Codeword, HoleLength, Inner;
    var q := b[..d + 1];
    assert Grown(sizes, |sizes|, 0, paths[m]);
    GrownInner(sizes, |sizes|, 0, paths[m]);
    assert !Has(paths, q);
    if e < |sizes| && Is(sizes, e, q) {
      assert Begins(sizes, e, b);
      BeginsOnce(sizes, e, b);
    } else {
      forall s: nat
        ensures !Begins(sizes, s, b)
      {
        if s < |sizes| && sizes[s] > 0 {
          NoneBelow(sizes, s, paths[m]);
          PlacesOf(sizes, s, b, d);
        }
      }
      HoleHere(sizes, b, d, LOOKUP_BITS);
    }
  }

  /** A codeword that begins `b` ends at or before bit `d`, right after it, or later. */
  lemma PlacesOf(sizes: seq<nat>, s: nat, b: seq<bool>, d: nat)
    requires s < |sizes| && sizes[s] > 0 && d < |b|
    ensures Codeword(sizes, s) <= b ==>
      Codeword(sizes, s) <= b[..d] || Is(sizes, s, b[..d + 1]) || InnerOf(sizes, s, b[..d + 1])
    ensures InnerOf(sizes, s, b[..d + 1]) ==> Inner(sizes, |sizes|, b[..d + 1])
  {
    hide Codeword;
  }

  lemma {:induction false} HoleHere(sizes: seq<nat>, b: seq<bool>, d: nat, c: nat)
    requires LOOKUP_BITS <= c <= d < |b| && Inner(sizes, |sizes|, b[..d]) && !Inner(sizes, |sizes|, b[..d + 1])
    ensures HoleLength(sizes, b, c) == d + 1
    decreases d - c
  {
    hide Codeword;
    InnerPrefix(sizes, b, c, d);
    if c < d {
      HoleHere(sizes, b, d, c + 1);
    }
  }

  lemma InnerPrefix(sizes: seq<nat>, b: seq<bool>, c: nat, d: nat)
    requires c <= d <= |b| && Inner(sizes, |sizes|, b[..d])
    ensures Inner(sizes, |sizes|, b[..c])
  {
    hide Codeword;
    var s :| 0 <= s < |sizes| && InnerOf(sizes, s, b[..d]);
    assert b[..c] == b[..d][..c];
    assert InnerOf(sizes, s, b[..c]);
  }

  /** Finished tables read as the code says, for whatever bits. */
  lemma ReadMeaning(sizes: seq<nat>, lookup: seq<int>, tree: seq<int>, paths: seq<seq<bool>>, b: seq<bool>)
    requires Inv(sizes, |sizes|, 0, lookup, tree, paths) && |b| == MAX_BITS
    ensures Read(lookup, tree, b) == Meaning(sizes, b)
  {
    hide Codeword, Inner, Walk;
    var q := b[..LOOKUP_BITS];
    var e := lookup[Index(q)];
    assert LookCell(sizes, |sizes|, paths, e, q);
    if e < 0 {
      var m :| 0 <= m < |paths| && paths[m] == q && e == Link(m);
      WalkMeaning(sizes, lookup, tree, paths, m, b, LOOKUP_BITS);
    } else if e > 0 {
      assert Begins(sizes, e % 512, b);
      BeginsOnce(sizes, e % 512, b);
    } else {
      ShortHole(sizes, paths, b);
    }
  }

  lemma PlacesShort(sizes: seq<nat>, s: nat, b: seq<bool>)
    requires s < |sizes| && sizes[s] > 0 && LOOKUP_BITS <= |b|
    ensures Codeword(sizes, s) <= b ==> Short(sizes, s, b[..LOOKUP_BITS]) || InnerOf(sizes, s, b[..LOOKUP_BITS])
  {
    hide Codeword;
  }

  lemma ShortHole(sizes: seq<nat>, paths: seq<seq<bool>>, b: seq<bool>)
    requires Lengths(sizes) && |b| == MAX_BITS && Closed(sizes, |sizes|, 0, paths)
    requires LookCell(sizes, |sizes|, paths, 0, b[..LOOKUP_BITS])
    ensures Meaning(sizes, b) == (0, 0)
  {
    hide Codeword;
    var q := b[..LOOKUP_BITS];
    assert !Has(paths, q);
    assert !Inner(sizes, |sizes|, q);
    forall s: nat
      ensures !Begins(sizes, s, b)
    {
      if s < |sizes| && sizes[s] > 0 {
        PlacesShort(sizes, s, b);
      }
    }
  }
}
