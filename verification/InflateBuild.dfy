/** Building the tables of a Huffman code, symbol by symbol. */
module InflateBuild {
  import opened Bits
  import opened InflateCode
  import opened InflateTables
  import opened InflateNodes

  lemma NothingYet(sizes: seq<nat>, lookup: seq<int>, tree: seq<int>)
    requires Lengths(sizes) && NextCode(sizes, 16) <= 65536
    requires |lookup| == LOOKUP_SIZE && (forall i :: 0 <= i < |lookup| ==> lookup[i] == 0)
    requires forall i :: 0 <= i < |tree| ==> tree[i] == 0
    ensures Inv(sizes, 0, 0, lookup, tree, [])
  {
  }

  lemma {:induction false} IndexInjective(p: seq<bool>, q: seq<bool>)
    requires |p| == |q| == LOOKUP_BITS && Index(p) == Index(q)
    ensures p == q
  {
    FromToBits(p);
    FromToBits(q);
  }

  // ----- one symbol more -----

  /** Whose codeword is past `p`, with the next symbol counted in. */
  lemma InnerMore(sizes: seq<nat>, k: nat, p: seq<bool>)
    requires k < |sizes|
    ensures Inner(sizes, k + 1, p) <==> Inner(sizes, k, p) || InnerOf(sizes, k, p)
  {
    hide InnerOf;
  }

  /** A symbol without a code changes nothing. */
  lemma SkipSymbol(sizes: seq<nat>, k: nat, lookup: seq<int>, tree: seq<int>, paths: seq<seq<bool>>)
    requires k < |sizes| && sizes[k] == 0 && Inv(sizes, k, 0, lookup, tree, paths)
    ensures Inv(sizes, k + 1, 0, lookup, tree, paths)
  {
    hide Linked, Codeword, Inner;
    forall q: seq<bool>
      ensures Inner(sizes, k + 1, q) <==> Inner(sizes, k, q)
    {
      InnerMore(sizes, k, q);
    }
    assert forall q: seq<bool> :: |q| == LOOKUP_BITS && LookCell(sizes, k, paths, lookup[Index(q)], q) ==>
      LookCell(sizes, k + 1, paths, lookup[Index(q)], q);
  }

  /** No earlier codeword, and no path, is past a place where the codeword of symbol `k` already ended. */
  lemma NonePast(sizes: seq<nat>, k: nat, p: seq<bool>)
    requires Lengths(sizes) && NextCode(sizes, 16) <= 65536 && k < |sizes| && sizes[k] > 0 && Codeword(sizes, k) <= p
    ensures !Inner(sizes, |sizes|, p)
  {
    hide Codeword;
    NoneBelow(sizes, k, p);
  }

  /** Of two symbols, at most one has a codeword that begins `p`. */
  lemma OneBegins(sizes: seq<nat>, i: nat, k: nat, p: seq<bool>)
    requires Lengths(sizes) && NextCode(sizes, 16) <= 65536
    requires i < |sizes| && k < |sizes| && sizes[i] > 0 && sizes[k] > 0
    ensures i != k && Codeword(sizes, i) <= p ==> !(Codeword(sizes, k) <= p)
  {
    hide Codeword;
    if i != k && Codeword(sizes, i) <= p && Codeword(sizes, k) <= p {
      PrefixFree(sizes, i, k, p);
    }
  }

  // ----- a short code -----

  lemma ShortCell(sizes: seq<nat>, k: nat, paths: seq<seq<bool>>, e: int, q: seq<bool>)
    requires Lengths(sizes) && NextCode(sizes, 16) <= 65536 && k < |sizes| && 0 < sizes[k] <= LOOKUP_BITS
    requires |q| == LOOKUP_BITS && Paths(sizes, k, 0, paths) && LookCell(sizes, k, paths, e, q)
    ensures LookCell(sizes, k + 1, paths, if Codeword(sizes, k) <= q then 512 * sizes[k] + k else e, q)
  {
    hide Codeword, Inner;
    var v := 512 * sizes[k] + k;
    if Codeword(sizes, k) <= q {
      NonePast(sizes, k, q);
      forall m | 0 <= m < |paths|
        ensures paths[m] != q
      {
        assert Grown(sizes, k, 0, paths[m]);
        GrownInner(sizes, k, 0, paths[m]);
      }
      assert v % 512 == k && v / 512 == sizes[k];
      forall i | 0 <= i < k
        ensures !Short(sizes, i, q)
      {
        if sizes[i] > 0 {
          OneBegins(sizes, i, k, q);
        }
      }
    }
  }

  lemma ShortInner(sizes: seq<nat>, k: nat, q: seq<bool>)
    requires k < |sizes| && sizes[k] <= LOOKUP_BITS <= |q|
    ensures Inner(sizes, k + 1, q) <==> Inner(sizes, k, q)
  {
    InnerMore(sizes, k, q);
  }

  /** The entries that begin with a short codeword get its symbol and length. */
  lemma ShortInsert(sizes: seq<nat>, k: nat, lookup: seq<int>, tree: seq<int>, paths: seq<seq<bool>>, after: seq<int>)
    requires k < |sizes| && 0 < sizes[k] <= LOOKUP_BITS && Inv(sizes, k, 0, lookup, tree, paths)
    requires |after| == LOOKUP_SIZE && forall q: seq<bool> :: |q| == LOOKUP_BITS ==>
      after[Index(q)] == if Codeword(sizes, k) <= q then 512 * sizes[k] + k else lookup[Index(q)]
    ensures Inv(sizes, k + 1, 0, after, tree, paths)
  {
    hide Linked, Codeword, Inner, LookCell, Index, NextCode;
    forall q: seq<bool> | |q| == LOOKUP_BITS
      ensures LookCell(sizes, k + 1, paths, after[Index(q)], q)
    {
      ShortCell(sizes, k, paths, lookup[Index(q)], q);
    }
    forall q: seq<bool> | |q| >= LOOKUP_BITS
      ensures Inner(sizes, k + 1, q) <==> Inner(sizes, k, q)
    {
      ShortInner(sizes, k, q);
    }
    forall m, b | 0 <= m < |paths|
      ensures TreeCell(sizes, k + 1, paths, tree[2 * m + Bit(b)], paths[m] + [b])
    {
      assert TreeCell(sizes, k, paths, tree[2 * m + Bit(b)], paths[m] + [b]);
    }
  }

  // ----- a long code: its places are entered from the tenth bit on -----

  ghost predicate Long(sizes: seq<nat>, k: nat) {
    k < |sizes| && LOOKUP_BITS < sizes[k] <= MAX_BITS
  }

  lemma PlacesInside(sizes: seq<nat>, k: nat, d: nat, q: seq<bool>)
    requires Long(sizes, k) && |q| == d < sizes[k]
    ensures InnerOf(sizes, k, q) <==> q == Codeword(sizes, k)[..d]
  {
    hide Codeword;
  }

  lemma BeforeFirst(sizes: seq<nat>, k: nat, lookup: seq<int>, tree: seq<int>, paths: seq<seq<bool>>)
    requires Long(sizes, k) && Inv(sizes, k, 0, lookup, tree, paths)
    ensures Inv(sizes, k, LOOKUP_BITS - 1, lookup, tree, paths)
  {
    hide Cells, Codeword, Inner;
    assert forall p: seq<bool> :: Grown(sizes, k, 0, p) ==> Grown(sizes, k, LOOKUP_BITS - 1, p);
  }

  /** The next place already has its pair. */
  lemma OldPlace(sizes: seq<nat>, k: nat, d: nat, lookup: seq<int>, tree: seq<int>, paths: seq<seq<bool>>)
    requires Long(sizes, k) && LOOKUP_BITS - 1 <= d && d + 1 < sizes[k] && Inv(sizes, k, d, lookup, tree, paths)
    requires Has(paths, Codeword(sizes, k)[..d + 1])
    ensures Inv(sizes, k, d + 1, lookup, tree, paths)
  {
    hide Cells, Codeword, Inner, InnerOf, Has;
    assert forall p: seq<bool> :: Grown(sizes, k, d, p) ==> Grown(sizes, k, d + 1, p);
    forall q: seq<bool> | LOOKUP_BITS <= |q| <= d + 1 && InnerOf(sizes, k, q)
      ensures Has(paths, q)
    {
      if |q| == d + 1 {
        PlacesInside(sizes, k, d + 1, q);
      }
    }
  }

  /** What a cell on the way of a long codeword can hold. */
  lemma CellOnTheWay(sizes: seq<nat>, k: nat, q: seq<bool>)
    requires Lengths(sizes) && NextCode(sizes, 16) <= 65536 && Long(sizes, k) && |q| < sizes[k] && q <= Codeword(sizes, k)
    ensures forall i :: 0 <= i < k ==> !Short(sizes, i, q) && !Is(sizes, i, q)
  {
    hide Codeword;
    forall i | 0 <= i < k
      ensures !Short(sizes, i, q) && !Is(sizes, i, q)
    {
      if sizes[i] > 0 {
        OneBegins(sizes, i, k, Codeword(sizes, k));
      }
    }
  }

  /** A new pair: no path below it exists, and no codeword below it has been entered. */
  lemma NothingBelow(sizes: seq<nat>, k: nat, d: nat, paths: seq<seq<bool>>, q: seq<bool>, b: bool)
    requires k < |sizes| && Paths(sizes, k, d, paths) && Closed(sizes, k, d, paths)
    requires |q| == d + 1 >= LOOKUP_BITS && !Has(paths, q)
    ensures TreeCell(sizes, k, paths + [q], 0, q + [b])
  {
    hide Codeword;
    var qb := q + [b];
    assert !Inner(sizes, k, q);
    forall i | 0 <= i < k
      ensures !InnerOf(sizes, i, q) && !InnerOf(sizes, i, qb) && !Is(sizes, i, qb)
    {
      assert InnerOf(sizes, i, qb) || Is(sizes, i, qb) ==> InnerOf(sizes, i, q);
    }
    forall m | 0 <= m < |paths| + 1
      ensures (paths + [q])[m] != qb
    {
      if m < |paths| {
        assert Grown(sizes, k, d, paths[m]);
      }
    }
  }

  lemma LinkedMore(paths: seq<seq<bool>>, e: int, p: seq<bool>, q: seq<bool>)
    requires Linked(paths, e, p) && p != q
    ensures Linked(paths + [q], e, p)
  {
    var more := paths + [q];
    if e < 0 {
      var m :| 0 <= m < |paths| && paths[m] == p && e == Link(m);
      assert more[m] == p;
    }
  }

  lemma LinkedNew(paths: seq<seq<bool>>, q: seq<bool>)
    requires !Has(paths, q)
    ensures Linked(paths + [q], Link(|paths|), q)
  {
    var more := paths + [q];
    assert more[|paths|] == q;
    assert forall m :: 0 <= m < |paths| ==> more[m] == paths[m];
  }

  /** The paths stay in order when the next place of the codeword joins them. */
  lemma PathsMore(sizes: seq<nat>, k: nat, d: nat, paths: seq<seq<bool>>, q: seq<bool>)
    requires Long(sizes, k) && LOOKUP_BITS - 1 <= d && d + 1 < sizes[k] && q == Codeword(sizes, k)[..d + 1]
    requires Paths(sizes, k, d, paths) && Closed(sizes, k, d, paths) && !Has(paths, q)
    ensures Paths(sizes, k, d + 1, paths + [q]) && Closed(sizes, k, d + 1, paths + [q])
  {
    hide Codeword, Inner, InnerOf;
    var more := paths + [q];
    PlacesInside(sizes, k, d + 1, q);
    assert more[|paths|] == q && forall m :: 0 <= m < |paths| ==> more[m] == paths[m];
    assert forall p: seq<bool> :: Grown(sizes, k, d, p) ==> Grown(sizes, k, d + 1, p);
    assert Grown(sizes, k, d + 1, q);
    forall p: seq<bool> | Has(paths, p)
      ensures Has(more, p)
    {
      var m :| 0 <= m < |paths| && paths[m] == p;
      assert more[m] == p;
    }
    forall p: seq<bool> | LOOKUP_BITS <= |p| <= d + 1 && InnerOf(sizes, k, p)
      ensures Has(more, p)
    {
      if |p| == d + 1 {
        PlacesInside(sizes, k, d + 1, p);
      }
    }
  }

  /** The first place of a long codeword: its pair hangs from the lookup table. */
  lemma NewRoot(sizes: seq<nat>, k: nat, lookup: seq<int>, tree: seq<int>, paths: seq<seq<bool>>, q: seq<bool>)
    requires Long(sizes, k) && Inv(sizes, k, LOOKUP_BITS - 1, lookup, tree, paths)
    requires q == Codeword(sizes, k)[..LOOKUP_BITS] && !Has(paths, q) && 2 * |paths| + 2 <= |tree|
    ensures Inv(sizes, k, LOOKUP_BITS, lookup[Index(q) := Link(|paths|)], tree, paths + [q])
  {
    hide Codeword, Inner, Linked, Has, Index;
    PathsMore(sizes, k, LOOKUP_BITS - 1, paths, q);
    var after, more := lookup[Index(q) := Link(|paths|)], paths + [q];
    LinkedNew(paths, q);
    CellOnTheWay(sizes, k, q);
    forall p: seq<bool> | |p| == LOOKUP_BITS
      ensures LookCell(sizes, k, more, after[Index(p)], p)
    {
      assert LookCell(sizes, k, paths, lookup[Index(p)], p);
      if p != q {
        if Index(p) == Index(q) {
          IndexInjective(p, q);
        }
        LinkedMore(paths, lookup[Index(p)], p, q);
      }
    }
    forall m, b | 0 <= m < |more|
      ensures TreeCell(sizes, k, more, tree[2 * m + Bit(b)], more[m] + [b])
    {
      TreeCellMore(sizes, k, LOOKUP_BITS - 1, tree, paths, q, m, b);
    }
  }

  /** Cells of the tree under a new pair: the old ones, and two empty ones. */
  lemma TreeCellMore(sizes: seq<nat>, k: nat, d: nat, tree: seq<int>, paths: seq<seq<bool>>, q: seq<bool>, m: nat, b: bool)
    requires k < |sizes| && Paths(sizes, k, d, paths) && Closed(sizes, k, d, paths) && |q| == d + 1 >= LOOKUP_BITS
    requires !Has(paths, q) && 2 * |paths| + 2 <= |tree| && m <= |paths|
    requires m < |paths| ==> TreeCell(sizes, k, paths, tree[2 * m + Bit(b)], paths[m] + [b])
    requires m == |paths| ==> tree[2 * m + Bit(b)] == 0
    ensures m == |paths| || paths[m] + [b] != q ==>
      TreeCell(sizes, k, paths + [q], tree[2 * m + Bit(b)], (paths + [q])[m] + [b])
  {
    hide Codeword, Inner, Linked, Has, Closed, Paths;
    if m == |paths| {
      NothingBelow(sizes, k, d, paths, q, b);
    } else if paths[m] + [b] != q {
      LinkedMore(paths, tree[2 * m + Bit(b)], paths[m] + [b], q);
    }
  }

  /** A further place: its pair hangs from a cell of the tree. */
  lemma NewBranch(sizes: seq<nat>, k: nat, d: nat, lookup: seq<int>, tree: seq<int>, paths: seq<seq<bool>>,
                  q: seq<bool>, m: nat, b: bool)
    requires Long(sizes, k) && LOOKUP_BITS <= d && d + 1 < sizes[k] && Inv(sizes, k, d, lookup, tree, paths)
    requires q == Codeword(sizes, k)[..d + 1] && !Has(paths, q) && 2 * |paths| + 2 <= |tree|
    requires m < |paths| && paths[m] + [b] == q
    ensures Inv(sizes, k, d + 1, lookup, tree[2 * m + Bit(b) := Link(|paths|)], paths + [q])
  {
    hide Codeword, Inner, Linked, Has, Index;
    PathsMore(sizes, k, d, paths, q);
    var after, more := tree[2 * m + Bit(b) := Link(|paths|)], paths + [q];
    LinkedNew(paths, q);
    CellOnTheWay(sizes, k, q);
    forall p: seq<bool> | |p| == LOOKUP_BITS
      ensures LookCell(sizes, k, more, lookup[Index(p)], p)
    {
      assert LookCell(sizes, k, paths, lookup[Index(p)], p);
      LinkedMore(paths, lookup[Index(p)], p, q);
    }
    forall n, c | 0 <= n < |more|
      ensures TreeCell(sizes, k, more, after[2 * n + Bit(c)], more[n] + [c])
    {
      TreeCellMore(sizes, k, d, tree, paths, q, n, c);
      if n < |paths| && (n != m || c != b) {
        SamePlace(paths, m, b, n, c);
      }
    }
  }

  /** Different cells have different places. */
  lemma SamePlace(paths: seq<seq<bool>>, m: nat, b: bool, n: nat, c: bool)
    requires m < |paths| && n < |paths| && (m != n || b != c) && NoPathTwice(paths)
    ensures paths[m] + [b] != paths[n] + [c] && 2 * m + Bit(b) != 2 * n + Bit(c)
  {
    var p, q := paths[m] + [b], paths[n] + [c];
    assert p[..|p| - 1] == paths[m] && q[..|q| - 1] == paths[n];
    assert p[|p| - 1] == b && q[|q| - 1] == c;
  }

  /** The last bit of a long codeword: its cell gets the symbol. */
  lemma LeafInsert(sizes: seq<nat>, k: nat, lookup: seq<int>, tree: seq<int>, paths: seq<seq<bool>>, m: nat, b: bool)
    requires Long(sizes, k) && Inv(sizes, k, sizes[k] - 1, lookup, tree, paths)
    requires m < |paths| && paths[m] + [b] == Codeword(sizes, k)
    ensures Inv(sizes, k + 1, 0, lookup, tree[2 * m + Bit(b) := k], paths)
  {
    hide Codeword, Inner, InnerOf, Linked, Has, Index;
    var after := tree[2 * m + Bit(b) := k];
    LeafPaths(sizes, k, paths);
    forall p: seq<bool> | |p| == LOOKUP_BITS
      ensures LookCell(sizes, k + 1, paths, lookup[Index(p)], p)
    {
      assert LookCell(sizes, k, paths, lookup[Index(p)], p);
    }
    forall n, c | 0 <= n < |paths|
      ensures TreeCell(sizes, k + 1, paths, after[2 * n + Bit(c)], paths[n] + [c])
    {
      assert TreeCell(sizes, k, paths, tree[2 * n + Bit(c)], paths[n] + [c]);
      if n != m || c != b {
        SamePlace(paths, m, b, n, c);
      } else {
        LeafCell(sizes, k, paths, m, b);
      }
    }
  }

  lemma LeafCell(sizes: seq<nat>, k: nat, paths: seq<seq<bool>>, m: nat, b: bool)
    requires Lengths(sizes) && NextCode(sizes, 16) <= 65536 && Long(sizes, k)
    requires Paths(sizes, k, sizes[k] - 1, paths) && m < |paths| && paths[m] + [b] == Codeword(sizes, k)
    ensures TreeCell(sizes, k + 1, paths, k, paths[m] + [b])
  {
    hide Codeword, Inner;
    var q := Codeword(sizes, k);
    NonePast(sizes, k, q);
    forall n | 0 <= n < |paths|
      ensures paths[n] != q
    {
      assert Grown(sizes, k, sizes[k] - 1, paths[n]);
      GrownInner(sizes, k, sizes[k] - 1, paths[n]);
    }
    forall i | 0 <= i < k + 1 && Is(sizes, i, q)
      ensures k == i
    {
      OneBegins(sizes, i, k, q);
    }
  }

  lemma LeafPaths(sizes: seq<nat>, k: nat, paths: seq<seq<bool>>)
    requires Long(sizes, k) && Paths(sizes, k, sizes[k] - 1, paths) && Closed(sizes, k, sizes[k] - 1, paths)
    ensures Paths(sizes, k + 1, 0, paths) && Closed(sizes, k + 1, 0, paths)
  {
    hide Codeword, Inner, Has;
    forall p: seq<bool>
      ensures Inner(sizes, k + 1, p) <==> Inner(sizes, k, p) || InnerOf(sizes, k, p)
    {
      InnerMore(sizes, k, p);
    }
    forall m | 0 <= m < |paths|
      ensures Grown(sizes, k + 1, 0, paths[m])
    {
      assert Grown(sizes, k, sizes[k] - 1, paths[m]);
    }
  }

  /** There is always room for one pair more. */
  lemma Room(sizes: seq<nat>, k: nat, d: nat, lookup: seq<int>, tree: seq<int>, paths: seq<seq<bool>>, q: seq<bool>)
    requires Accepted(sizes) && Long(sizes, k) && LOOKUP_BITS - 1 <= d && d + 1 < sizes[k]
    requires q == Codeword(sizes, k)[..d + 1]
    requires Inv(sizes, k, d, lookup, tree, paths) && !Has(paths, q)
    requires |tree| >= 2 * |sizes| && |tree| >= 10
    ensures 2 * |paths| + 2 <= |tree|
  {
    hide Codeword, Inner, Has, InnerOf, Cells;
    PathsMore(sizes, k, d, paths, q);
    var more := paths + [q];
    forall m | 0 <= m < |more|
      ensures Inner(sizes, |sizes|, more[m])
    {
      assert Grown(sizes, k, d + 1, more[m]);
      GrownInner(sizes, k, d + 1, more[m]);
    }
    NodeBound(sizes, more);
  }

  // ----- the numbers the builder works with -----

  /** Codes of length 1 to `l`, among the first `n` symbols. */
  function CountUpTo(sizes: seq<nat>, n: nat, l: nat): (c: nat)
    requires n <= |sizes|
  {
    if l == 0 then 0 else CountUpTo(sizes, n, l - 1) + Count(sizes, n, l)
  }

  lemma {:induction false} CountUpToMore(sizes: seq<nat>, n: nat, l: nat)
    requires n < |sizes|
    ensures CountUpTo(sizes, n + 1, l) == CountUpTo(sizes, n, l) + if 0 < sizes[n] <= l then 1 else 0
  {
    if l > 0 {
      CountUpToMore(sizes, n, l - 1);
    }
  }

  lemma {:induction false} CountUpToNone(sizes: seq<nat>, l: nat)
    ensures CountUpTo(sizes, 0, l) == 0
  {
    if l > 0 {
      CountUpToNone(sizes, l - 1);
    }
  }

  lemma {:induction false} UsedIsCount(sizes: seq<nat>, n: nat)
    requires Lengths(sizes) && n <= |sizes|
    ensures CountUpTo(sizes, n, MAX_BITS) == Used(sizes, n)
  {
    if n > 0 {
      UsedIsCount(sizes, n - 1);
      CountUpToMore(sizes, n - 1, MAX_BITS);
    } else {
      CountUpToNone(sizes, MAX_BITS);
    }
  }

  /** The lengths are counted, and the first code of each length computed. */
  method FirstCodes(sizes: seq<nat>) returns (nextCode: array<nat>, used: nat)
    requires Lengths(sizes)
    ensures fresh(nextCode) && nextCode.Length == 17
    ensures forall l :: 1 <= l <= 16 ==> nextCode[l] == NextCode(sizes, l)
    ensures used == Used(sizes, |sizes|)
  {
    hide Count, NextCode, After;
    var totalSyms := CountLengths(sizes);
    nextCode := new nat[17](_ => 0);
    var total := 0;
    used := 0;
    NextCodeIs(sizes, 1);
    for i := 1 to 16
      modifies nextCode
      invariant used == CountUpTo(sizes, |sizes|, i - 1) && total == nextCode[i]
      invariant forall l :: 1 <= l <= i ==> nextCode[l] == NextCode(sizes, l)
    {
      used := used + totalSyms[i];
      total := (total + totalSyms[i]) * 2;
      nextCode[i + 1] := total;
      NextCodeIs(sizes, i + 1);
      assert CountUpTo(sizes, |sizes|, i) == CountUpTo(sizes, |sizes|, i - 1) + Count(sizes, |sizes|, i);
    }
    UsedIsCount(sizes, |sizes|);
  }

  lemma NextCodeIs(sizes: seq<nat>, l: nat)
    requires l >= 1
    ensures NextCode(sizes, l) == if l == 1 then 0 else 2 * (NextCode(sizes, l - 1) + Count(sizes, |sizes|, l - 1))
  {
  }

  method CountLengths(sizes: seq<nat>) returns (totalSyms: array<nat>)
    requires Lengths(sizes)
    ensures fresh(totalSyms) && totalSyms.Length == 16
    ensures forall l :: 0 <= l < 16 ==> totalSyms[l] == Count(sizes, |sizes|, l)
  {
    totalSyms := new nat[16](_ => 0);
    for i := 0 to |sizes|
      invariant forall l :: 0 <= l < 16 ==> totalSyms[l] == Count(sizes, i, l)
    {
      totalSyms[sizes[i]] := totalSyms[sizes[i]] + 1;
    }
  }

  /** A code is mirrored: its first bit becomes the least significant. */
  method Reverse(code: nat, size: nat) returns (rev: nat)
    requires code < Pow2(size)
    ensures rev == FromBits(MsbBits(code, size))
  {
    ghost var w := MsbBits(code, size);
    rev := 0;
    var cur: nat, l: nat := code, size;
    while l > 0
      invariant 0 <= l <= size && w[..l] == MsbBits(cur, l) && rev == FromBits(w[l..])
    {
      assert w[l - 1..] == [w[l - 1]] + w[l..];
      assert w[l - 1] == w[..l][l - 1] && w[..l - 1] == w[..l][..l - 1];
      rev := 2 * rev + cur % 2;
      cur := cur / 2;
      l := l - 1;
    }
    assert w[0..] == w;
  }

  lemma NextSame(x: nat, r: nat, p: nat, rev: nat)
    requires p > 0 && r % p == rev && r <= x < r + p
    ensures x % p == rev <==> x == r
    ensures (r + p) % p == rev
  {
    var q := r / p;
    DivMod(r, p);
    assert p * (q + 1) == p * q + p;
    if x < p * q + p {
      DivModUnique(x, p, q, x - p * q);
    } else {
      DivModUnique(x, p, q + 1, x - (p * q + p));
    }
    DivModUnique(r + p, p, q + 1, rev);
  }

  /** Every entry whose low bits are the mirrored code gets the value. */
  method FillEntries(lookup: array<int>, revCode: nat, size: nat, value: int)
    requires lookup.Length == LOOKUP_SIZE && revCode < Pow2(size)
    modifies lookup
    ensures forall x :: 0 <= x < LOOKUP_SIZE ==>
      lookup[x] == if x % Pow2(size) == revCode then value else old(lookup[x])
  {
    var r, p := revCode, Pow2(size);
    FirstSame(revCode, p);
    while r < LOOKUP_SIZE
      invariant r % p == revCode
      invariant forall x :: 0 <= x < r && x < LOOKUP_SIZE ==> lookup[x] == if x % p == revCode then value else old(lookup[x])
      invariant forall x :: r <= x < LOOKUP_SIZE ==> lookup[x] == old(lookup[x])
    {
      ghost var before := lookup[..];
      lookup[r] := value;
      forall x | r <= x < r + p
        ensures x % p == revCode <==> x == r
      {
        NextSame(x, r, p, revCode);
      }
      NextSame(r, r, p, revCode);
      r := r + p;
    }
  }

  lemma FirstSame(rev: nat, p: nat)
    requires rev < p
    ensures rev % p == rev && forall x :: 0 <= x < rev ==> x % p != rev
  {
    DivModUnique(rev, p, 0, rev);
    forall x | 0 <= x < rev
      ensures x % p != rev
    {
      DivModUnique(x, p, 0, x);
    }
  }

  lemma EntriesAreShort(c: seq<bool>, q: seq<bool>)
    requires |c| <= LOOKUP_BITS == |q|
    ensures Index(q) % Pow2(|c|) == FromBits(c) <==> c <= q
  {
    FromBitsSplit(q, |c|);
    FromToBits(c);
    FromToBits(q[..|c|]);
    assert c <= q <==> c == q[..|c|];
  }

  /** The bits of a mirrored code, one after the other. */
  lemma NextBit(w: seq<bool>, d: nat)
    requires d < |w|
    ensures FromBits(w[d..]) % 2 == Bit(w[d]) && FromBits(w[d..]) / 2 == FromBits(w[d + 1..])
  {
    assert w[d..][1..] == w[d + 1..];
  }

  // ----- the builder -----

  /** The cell for the first ten bits of a long code; afterwards it names the pair of that place. */
  method EnterRoot(sizes: seq<nat>, k: nat, at: nat, lookup: array<int>, tree: array<int>, treeNext: int,
                   ghost paths: seq<seq<bool>>)
    returns (cur: int, next: int, ghost m: nat, ghost more: seq<seq<bool>>)
    requires Accepted(sizes) && Long(sizes, k) && Inv(sizes, k, 0, lookup[..], tree[..], paths)
    requires tree.Length >= 2 * |sizes| && tree.Length >= 10
    requires lookup != tree && treeNext == Link(|paths|) && at == Index(Codeword(sizes, k)[..LOOKUP_BITS])
    modifies lookup
    ensures Inv(sizes, k, LOOKUP_BITS, lookup[..], tree[..], more) && next == Link(|more|)
    ensures m < |more| && cur == Link(m) && more[m] == Codeword(sizes, k)[..LOOKUP_BITS]
  {
    hide Codeword, Has, Inv, Linked;
    ghost var q := Codeword(sizes, k)[..LOOKUP_BITS];
    BeforeFirst(sizes, k, lookup[..], tree[..], paths);
    RootCell(sizes, k, lookup[..], tree[..], paths, q);
    cur, next, more := lookup[at], treeNext, paths;
    if cur == 0 {
      NotHeld(paths, 0, q);
      Room(sizes, k, LOOKUP_BITS - 1, lookup[..], tree[..], paths, q);
      NewRoot(sizes, k, lookup[..], tree[..], paths, q);
      lookup[at] := next;
      cur, m, more := next, |paths|, paths + [q];
      next := next - 2;
    } else {
      m := Held(paths, cur, q);
      OldPlace(sizes, k, LOOKUP_BITS - 1, lookup[..], tree[..], paths);
    }
  }

  /** On the way of a long codeword a cell is empty or names the pair of its place. */
  lemma RootCell(sizes: seq<nat>, k: nat, lookup: seq<int>, tree: seq<int>, paths: seq<seq<bool>>, q: seq<bool>)
    requires Long(sizes, k) && Inv(sizes, k, LOOKUP_BITS - 1, lookup, tree, paths)
    requires q == Codeword(sizes, k)[..LOOKUP_BITS]
    ensures |lookup| == LOOKUP_SIZE && lookup[Index(q)] <= 0 && Linked(paths, lookup[Index(q)], q)
  {
    hide Codeword, Inner, Has, Paths, Closed, Linked;
    CellOnTheWay(sizes, k, q);
    assert LookCell(sizes, k, paths, lookup[Index(q)], q);
  }

  lemma BranchCell(sizes: seq<nat>, k: nat, d: nat, lookup: seq<int>, tree: seq<int>, paths: seq<seq<bool>>, m: nat, b: bool)
    requires Long(sizes, k) && Inv(sizes, k, d, lookup, tree, paths) && LOOKUP_BITS <= d && d + 1 < sizes[k]
    requires m < |paths| && paths[m] + [b] == Codeword(sizes, k)[..d + 1]
    ensures 2 * m + 1 < |tree| && tree[2 * m + Bit(b)] <= 0 && Linked(paths, tree[2 * m + Bit(b)], paths[m] + [b])
  {
    hide Codeword, Inner, Has, Paths, Closed, Linked;
    CellOnTheWay(sizes, k, paths[m] + [b]);
    assert TreeCell(sizes, k, paths, tree[2 * m + Bit(b)], paths[m] + [b]);
  }

  lemma NotHeld(paths: seq<seq<bool>>, e: int, q: seq<bool>)
    requires Linked(paths, e, q) && e >= 0
    ensures !Has(paths, q)
  {
  }

  lemma Held(paths: seq<seq<bool>>, e: int, q: seq<bool>) returns (m: nat)
    requires Linked(paths, e, q) && e < 0
    ensures m < |paths| && paths[m] == q && e == Link(m) && Has(paths, q)
  {
    m :| m < |paths| && paths[m] == q && e == Link(m);
  }

  /** One bit further down the tree: `cell` is the cell the bit chooses. */
  method EnterBranch(sizes: seq<nat>, k: nat, ghost d: nat, lookup: array<int>, tree: array<int>, treeNext: int,
                     cell: nat, ghost paths: seq<seq<bool>>, ghost m: nat)
    returns (cur: int, next: int, ghost n: nat, ghost more: seq<seq<bool>>)
    requires Accepted(sizes) && Long(sizes, k) && LOOKUP_BITS <= d && d + 1 < sizes[k]
    requires Inv(sizes, k, d, lookup[..], tree[..], paths)
    requires tree.Length >= 2 * |sizes| && tree.Length >= 10
    requires lookup != tree && treeNext == Link(|paths|) && m < |paths| && paths[m] == Codeword(sizes, k)[..d]
    requires cell == 2 * m + Bit(Codeword(sizes, k)[d])
    modifies tree
    ensures Inv(sizes, k, d + 1, lookup[..], tree[..], more) && next == Link(|more|)
    ensures n < |more| && cur == Link(n) && more[n] == Codeword(sizes, k)[..d + 1]
  {
    hide Codeword, Has, Inv, Linked;
    ghost var w := Codeword(sizes, k);
    ghost var q, b := w[..d + 1], w[d];
    assert paths[m] + [b] == q;
    BranchCell(sizes, k, d, lookup[..], tree[..], paths, m, b);
    cur, next, more := tree[cell], treeNext, paths;
    if cur == 0 {
      NotHeld(paths, 0, q);
      Room(sizes, k, d, lookup[..], tree[..], paths, q);
      NewBranch(sizes, k, d, lookup[..], tree[..], paths, q, m, b);
      tree[cell] := next;
      cur, n, more := next, |paths|, paths + [q];
      next := next - 2;
    } else {
      n := Held(paths, cur, q);
      OldPlace(sizes, k, d, lookup[..], tree[..], paths);
    }
  }

  /** A code of more than ten bits is entered into the tree. */
  method InsertLong(sizes: seq<nat>, k: nat, revCode: nat, lookup: array<int>, tree: array<int>, treeNext: int,
                    ghost paths: seq<seq<bool>>)
    returns (next: int, ghost more: seq<seq<bool>>)
    requires Accepted(sizes) && Long(sizes, k) && Inv(sizes, k, 0, lookup[..], tree[..], paths)
    requires tree.Length >= 2 * |sizes| && tree.Length >= 10 && revCode == FromBits(Codeword(sizes, k))
    requires lookup != tree && treeNext == Link(|paths|)
    modifies lookup, tree
    ensures Inv(sizes, k + 1, 0, lookup[..], tree[..], more) && next == Link(|more|)
  {
    hide Codeword, Inv, Accepted;
    ghost var w := Codeword(sizes, k);
    FirstTen(w);
    var cur;
    ghost var m;
    cur, next, m, more := EnterRoot(sizes, k, revCode % LOOKUP_SIZE, lookup, tree, treeNext, paths);
    var rev := revCode / 512;
    var j := sizes[k];
    ghost var d := LOOKUP_BITS;
    while j > LOOKUP_BITS + 1
      invariant LOOKUP_BITS < j <= sizes[k] && j + d == sizes[k] + LOOKUP_BITS
      invariant Inv(sizes, k, d, lookup[..], tree[..], more) && next == Link(|more|)
      invariant 0 <= m < |more| && cur == Link(m) && more[m] == w[..d]
      invariant rev / 2 == FromBits(w[d..])
    {
      rev := rev / 2;
      NextBit(w, d);
      cur := cur - rev % 2;
      PairsInTree(sizes, k, d, lookup[..], tree[..], more, m);
      cur, next, m, more := EnterBranch(sizes, k, d, lookup, tree, next, -cur - 1, more, m);
      j := j - 1;
      d := d + 1;
    }
    rev := rev / 2;
    NextBit(w, d);
    cur := cur - rev % 2;
    PairsInTree(sizes, k, d, lookup[..], tree[..], more, m);
    assert w[..d] + [w[d]] == w;
    LeafInsert(sizes, k, lookup[..], tree[..], more, m, w[d]);
    tree[-cur - 1] := k;
  }

  lemma PairsInTree(sizes: seq<nat>, k: nat, d: nat, lookup: seq<int>, tree: seq<int>, paths: seq<seq<bool>>, m: nat)
    requires Inv(sizes, k, d, lookup, tree, paths) && m < |paths|
    ensures 2 * m + 1 < |tree|
  {
  }

  /** The first ten bits index the table; what follows starts at the tenth. */
  lemma FirstTen(w: seq<bool>)
    requires |w| > LOOKUP_BITS
    ensures FromBits(w) % LOOKUP_SIZE == Index(w[..LOOKUP_BITS])
    ensures FromBits(w) / 512 / 2 == FromBits(w[LOOKUP_BITS..])
  {
    Pow10();
    FromBitsSplit(w, 10);
    FromBitsSplit(w, 9);
    assert Pow2(9) == 512;
    NextBit(w, 9);
  }

  /** The table part of `tinfl_decompress`: lengths are refused exactly if they neither fill the
      code space nor leave at most one code; otherwise the tables read as the code says, and the
      tree stays inside its array. */
  method BuildTable(sizes: seq<nat>, lookup: array<int>, tree: array<int>)
    returns (ok: bool, ghost paths: seq<seq<bool>>)
    requires Lengths(sizes) && lookup.Length == LOOKUP_SIZE && lookup != tree
    requires tree.Length >= 2 * |sizes| && tree.Length >= 10
    modifies lookup, tree
    ensures ok <==> Accepted(sizes)
    ensures ok ==> Inv(sizes, |sizes|, 0, lookup[..], tree[..], paths)
  {
    hide Inv, Count, NextCode, Codeword;
    paths := [];
    Clear(lookup);
    Clear(tree);
    var nextCode, used := FirstCodes(sizes);
    if nextCode[16] != 65536 && used > 1 {
      return false, paths;
    }
    AcceptedFits(sizes);
    NothingYet(sizes, lookup[..], tree[..]);
    var treeNext := -1;
    NoneCounted(sizes);
    for k := 0 to |sizes|
      invariant Inv(sizes, k, 0, lookup[..], tree[..], paths) && treeNext == Link(|paths|)
      invariant forall l :: 1 <= l <= MAX_BITS ==> nextCode[l] == NextCode(sizes, l) + Count(sizes, k, l)
    {
      OneCounted(sizes, k);
      var size := sizes[k];
      if size == 0 {
        SkipSymbol(sizes, k, lookup[..], tree[..], paths);
      } else {
        var code := nextCode[size];
        nextCode[size] := nextCode[size] + 1;
        ghost var before := lookup[..];
        CodeFits(sizes, k);
        var rev := Reverse(code, size);
        if size <= LOOKUP_BITS {
          FillEntries(lookup, rev, size, size * 512 + k);
          ShortEntries(sizes, k, before, lookup[..], rev);
          ShortInsert(sizes, k, before, tree[..], paths, lookup[..]);
        } else {
          treeNext, paths := InsertLong(sizes, k, rev, lookup, tree, treeNext, paths);
        }
      }
    }
    ok := true;
  }

  method Clear(a: array<int>)
    modifies a
    ensures forall i :: 0 <= i < a.Length ==> a[i] == 0
  {
    for i := 0 to a.Length
      invariant forall j :: 0 <= j < i ==> a[j] == 0
    {
      a[i] := 0;
    }
  }

  lemma NoneCounted(sizes: seq<nat>)
    ensures forall l :: 1 <= l <= MAX_BITS ==> Count(sizes, 0, l) == 0
  {
  }

  lemma OneCounted(sizes: seq<nat>, k: nat)
    requires k < |sizes|
    ensures forall l :: 1 <= l <= MAX_BITS ==> Count(sizes, k + 1, l) == Count(sizes, k, l) + if sizes[k] == l then 1 else 0
  {
  }

  lemma CodeFits(sizes: seq<nat>, k: nat)
    requires Lengths(sizes) && NextCode(sizes, 16) <= 65536 && k < |sizes| && sizes[k] > 0
    ensures var code := NextCode(sizes, sizes[k]) + Count(sizes, k, sizes[k]);
      code < Pow2(sizes[k]) && MsbBits(code, sizes[k]) == Codeword(sizes, k)
  {
    Fits(sizes, sizes[k]);
    CodeInRange(sizes, k);
  }

  lemma ShortEntries(sizes: seq<nat>, k: nat, before: seq<int>, after: seq<int>, rev: nat)
    requires k < |sizes| && 0 < sizes[k] <= LOOKUP_BITS && rev == FromBits(Codeword(sizes, k))
    requires |before| == |after| == LOOKUP_SIZE
    requires forall x :: 0 <= x < LOOKUP_SIZE ==>
      after[x] == if x % Pow2(sizes[k]) == rev then sizes[k] * 512 + k else before[x]
    ensures forall q: seq<bool> :: |q| == LOOKUP_BITS ==>
      after[Index(q)] == if Codeword(sizes, k) <= q then 512 * sizes[k] + k else before[Index(q)]
  {
    hide Codeword, Index;
    forall q: seq<bool> | |q| == LOOKUP_BITS
      ensures after[Index(q)] == if Codeword(sizes, k) <= q then 512 * sizes[k] + k else before[Index(q)]
    {
      EntriesAreShort(Codeword(sizes, k), q);
    }
  }
}
