/** The decoder's memory when the caller supplies it: one buffer with what stays growing from the
    front and what is temporary growing from the back.

    Callers compute sizes as `size_t` products, the allocators take an `int`, and their sums are sums
    of `int`s.  The offsets below do what the program's do, wrapping included; the blocks that callers
    believe to have are kept beside them, and the lemmas say exactly when the two agree. */
module VorbisArena {
  import opened Bits
  import opened Options
  import opened ApeWords
  import opened VorbisTree
  import opened VorbisCodewords
  import opened VorbisCodebook
  import opened VorbisSetup

  const MAX_INT: int := 0x7FFF_FFFF
  /** The largest size whose rounding is an `int`. */
  const MAX_SIZE: int := 0x7FFF_FFF8

  /** A size rounded up for alignment. */
  function Round(n: nat): (r: nat)
    ensures r >= n && r < n + 8 && r % 8 == 0 && (r == 0 <==> n == 0)
  {
    (n + 7) / 8 * 8
  }

  /** What the allocators make of it: `(sz + 7) & ~7` on a size converted to `int`. */
  function Rounded(n: nat): (sz: int)
    ensures Int32(sz)
  {
    var x := Wrap32(Wrap32(n) + 7);
    x - x % 8
  }

  lemma RoundedIs(n: nat)
    ensures n <= MAX_SIZE ==> Rounded(n) == Round(n) <= MAX_SIZE
    ensures MAX_SIZE < n <= TWO32 - 8 ==> Rounded(n) < 0
    ensures n > MAX_SIZE ==> Round(n) > MAX_INT
  {
  }

  // ----- the offsets -----

  datatype Offsets = Offsets(setup: int, temp: int)

  predicate Ints(o: Offsets) {
    Int32(o.setup) && Int32(o.temp)
  }

  predicate InBounds(o: Offsets, length: int) {
    0 <= o.setup <= o.temp <= length <= MAX_INT
  }

  /** What a caller asks for: a block to keep, a temporary one, and the latest temporary one back. */
  datatype Request = Keep(n: nat) | Borrow(n: nat) | Return(n: nat)

  /** `setup_malloc`, `setup_temp_malloc` and `setup_temp_free`. */
  function Serve(o: Offsets, r: Request): (p: Option<Offsets>)
    ensures Ints(o) && p.Some? ==> Ints(p.value)
  {
    match r
    case Keep(n) =>
      var end := Wrap32(o.setup + Rounded(n));
      if end > o.temp then None else Some(o.(setup := end))
    case Borrow(n) =>
      var start := Wrap32(o.temp - Rounded(n));
      if start < o.setup then None else Some(o.(temp := start))
    case Return(n) => Some(o.(temp := Wrap32(o.temp + Rounded(n))))
  }

  /** A granted block to keep begins at the old offset and ends at or after it, inside the free part,
      if and only if size and sum are `int`s that are not negative. */
  lemma KeepInside(o: Offsets, length: int, n: nat)
    requires InBounds(o, length) && Serve(o, Keep(n)).Some?
    ensures var p := Serve(o, Keep(n)).value;
      InBounds(p, length) && o.setup <= p.setup <==> Rounded(n) >= 0 && o.setup + Rounded(n) <= MAX_INT
  {
    hide Rounded;
  }

  /** The same for a temporary block. */
  lemma BorrowInside(o: Offsets, length: int, n: nat)
    requires InBounds(o, length) && Serve(o, Borrow(n)).Some?
    ensures var p := Serve(o, Borrow(n)).value;
      InBounds(p, length) && p.temp <= o.temp <==> Rounded(n) >= 0
  {
    hide Rounded;
  }

  /** A granted block is as large as the caller believes if and only if its size is small enough and,
      for a block to keep, the end is an `int`.  A refusal is always right: there is no room. */
  lemma KeepRight(o: Offsets, length: int, n: nat)
    requires InBounds(o, length)
    ensures var p := Serve(o, Keep(n));
      && (p.Some? ==> (p.value.setup == o.setup + Round(n) <==> o.setup + Round(n) <= MAX_INT))
      && (p.None? ==> o.setup + Round(n) > o.temp)
  {
    hide Rounded, Round;
    RoundedIs(n);
  }

  lemma BorrowRight(o: Offsets, length: int, n: nat)
    requires InBounds(o, length)
    ensures var p := Serve(o, Borrow(n));
      && (p.Some? ==> (p.value.temp == o.temp - Round(n) <==> n <= MAX_SIZE))
      && (p.None? ==> o.temp - Round(n) < o.setup)
  {
    hide Rounded, Round;
    RoundedIs(n);
  }

  /** Giving back what was taken restores the offset, whatever the size. */
  lemma ReturnUndoes(o: Offsets, n: nat)
    requires Ints(o) && Serve(o, Borrow(n)).Some?
    ensures Serve(Serve(o, Borrow(n)).value, Return(n)) == Some(o)
  {
    hide Rounded, Wrap32;
    Wrap32Undo(o.temp, -Rounded(n));
  }

  // ----- several requests -----

  function ServeAll(o: Offsets, rs: seq<Request>): (p: Option<Offsets>)
    ensures Ints(o) && p.Some? ==> Ints(p.value)
  {
    if rs == [] then Some(o) else
      var p := ServeAll(o, rs[..|rs| - 1]);
      if p.None? then None else Serve(p.value, rs[|rs| - 1])
  }

  lemma ServeMore(o: Offsets, rs: seq<Request>, r: Request)
    ensures ServeAll(o, rs + [r]) == if ServeAll(o, rs).None? then None else Serve(ServeAll(o, rs).value, r)
  {
    assert (rs + [r])[..|rs|] == rs;
  }

  /** After a refusal nothing is granted. */
  lemma {:induction false} RefusedStays(o: Offsets, rs: seq<Request>, more: seq<Request>)
    requires ServeAll(o, rs).None?
    ensures ServeAll(o, rs + more).None?
  {
    if more == [] {
      assert rs + more == rs;
    } else {
      RefusedStays(o, rs, more[..|more| - 1]);
      assert rs + more == (rs + more[..|more| - 1]) + [more[|more| - 1]];
      ServeMore(o, rs + more[..|more| - 1], more[|more| - 1]);
    }
  }

  function Kept(rs: seq<Request>): (n: nat)
  {
    if rs == [] then 0 else
      var r := rs[|rs| - 1];
      Kept(rs[..|rs| - 1]) + if r.Keep? then Round(r.n) else 0
  }

  /** The temporary blocks still out, oldest first; none if a block is returned that is not the latest. */
  function Out(rs: seq<Request>): (ns: Option<seq<nat>>)
  {
    if rs == [] then Some([]) else
      var ns, r := Out(rs[..|rs| - 1]), rs[|rs| - 1];
      if ns.None? || r.Keep? then ns
      else if r.Borrow? then Some(ns.value + [r.n])
      else if ns.value != [] && ns.value[|ns.value| - 1] == r.n then Some(ns.value[..|ns.value| - 1])
      else None
  }

  function Borrowed(ns: seq<nat>): (n: nat)
  {
    if ns == [] then 0 else Borrowed(ns[..|ns| - 1]) + Round(ns[|ns| - 1])
  }

  lemma KeptMore(rs: seq<Request>, r: Request)
    ensures Kept(rs + [r]) == Kept(rs) + if r.Keep? then Round(r.n) else 0
  {
    assert (rs + [r])[..|rs|] == rs;
  }

  predicate BorrowsFit(rs: seq<Request>) {
    forall i :: 0 <= i < |rs| && rs[i].Borrow? ==> rs[i].n <= MAX_SIZE
  }

  /** While everything fits an `int`, the offsets are the sums that callers believe in. */
  lemma {:induction false} AllRight(o: Offsets, length: int, rs: seq<Request>)
    requires InBounds(o, length) && ServeAll(o, rs).Some? && Out(rs).Some? && BorrowsFit(rs)
    requires o.setup + Kept(rs) <= MAX_INT
    ensures var p := ServeAll(o, rs).value;
      && p == Offsets(o.setup + Kept(rs), o.temp - Borrowed(Out(rs).value))
      && InBounds(p, length) && p.temp <= o.temp
    ensures forall i :: 0 <= i < |Out(rs).value| ==> Out(rs).value[i] <= MAX_SIZE
  {
    hide Round, Rounded, Serve;
    if rs != [] {
      var before, r := rs[..|rs| - 1], rs[|rs| - 1];
      AllRight(o, length, before);
      var q := ServeAll(o, before).value;
      RightStep(q, length, r, o.temp - q.temp);
      assert r.Borrow? ==> Out(rs).value[..|Out(rs).value| - 1] == Out(before).value;
    }
  }

  /** One request on offsets that are right so far; `out` bytes are lent. */
  lemma RightStep(q: Offsets, length: int, r: Request, out: int)
    requires InBounds(q, length) && Serve(q, r).Some? && r.n <= MAX_SIZE
    requires r.Keep? ==> q.setup + Round(r.n) <= MAX_INT
    requires r.Return? ==> q.temp + Round(r.n) <= length
    ensures Serve(q, r).value == match r
      case Keep(n) => q.(setup := q.setup + Round(n))
      case Borrow(n) => q.(temp := q.temp - Round(n))
      case Return(n) => q.(temp := q.temp + Round(n))
    ensures InBounds(Serve(q, r).value, length)
  {
    hide Round, Rounded;
    RoundedIs(r.n);
  }

  lemma {:induction false} ServeConcat(o: Offsets, rs: seq<Request>, more: seq<Request>)
    requires ServeAll(o, rs).Some?
    ensures ServeAll(o, rs + more) == ServeAll(ServeAll(o, rs).value, more)
  {
    if more == [] {
      assert rs + more == rs;
    } else {
      ServeConcat(o, rs, more[..|more| - 1]);
      assert rs + more == (rs + more[..|more| - 1]) + [more[|more| - 1]];
      ServeMore(o, rs + more[..|more| - 1], more[|more| - 1]);
    }
  }

  // ----- live blocks -----

  datatype Block = Block(start: int, size: nat)

  predicate Disjoint(a: Block, b: Block) {
    a.start + a.size <= b.start || b.start + b.size <= a.start
  }

  /** What has been granted is what callers believe to have. */
  predicate Right(rs: seq<Request>) {
    Out(rs).Some? && BorrowsFit(rs) && Kept(rs) <= MAX_INT
  }

  function KeptBlock(rs: seq<Request>, i: nat): Block
    requires i < |rs|
  {
    Block(Kept(rs[..i]), if rs[i].Keep? then Round(rs[i].n) else 0)
  }

  function OutBlock(length: int, ns: seq<nat>, i: nat): Block
    requires i < |ns|
  {
    Block(length - Borrowed(ns[..i]) - Round(ns[i]), Round(ns[i]))
  }

  lemma {:induction false} KeptPrefix(rs: seq<Request>, i: nat, j: nat)
    requires i <= j <= |rs|
    ensures Kept(rs[..i]) <= Kept(rs[..j])
    ensures i < j ==> KeptBlock(rs, i).start + KeptBlock(rs, i).size <= Kept(rs[..j])
    decreases j
  {
    if i < j {
      KeptPrefix(rs, i, j - 1);
      KeptMore(rs[..j - 1], rs[j - 1]);
      assert rs[..j] == rs[..j - 1] + [rs[j - 1]];
    }
  }

  lemma {:induction false} BorrowedPrefix(ns: seq<nat>, i: nat, j: nat)
    requires i <= j <= |ns|
    ensures Borrowed(ns[..i]) <= Borrowed(ns[..j])
    ensures i < j ==> Borrowed(ns[..i]) + Round(ns[i]) <= Borrowed(ns[..j])
    decreases j
  {
    hide Round;
    if i < j {
      BorrowedPrefix(ns, i, j - 1);
      assert ns[..j][..j - 1] == ns[..j - 1];
    }
  }

  /** Live blocks lie in the buffer and never overlap. */
  lemma BlocksApart(length: int, rs: seq<Request>)
    requires 0 <= length <= MAX_INT && Right(rs) && ServeAll(Offsets(0, length), rs).Some?
    ensures var o, ns := ServeAll(Offsets(0, length), rs).value, Out(rs).value;
      && 0 <= o.setup <= o.temp <= length
      && (forall i :: 0 <= i < |rs| ==>
            0 <= KeptBlock(rs, i).start && KeptBlock(rs, i).start + KeptBlock(rs, i).size <= o.setup)
      && (forall i :: 0 <= i < |ns| ==>
            o.temp <= OutBlock(length, ns, i).start
            && OutBlock(length, ns, i).start + OutBlock(length, ns, i).size <= length)
      && (forall i, j :: 0 <= i < j < |rs| ==> Disjoint(KeptBlock(rs, i), KeptBlock(rs, j)))
      && (forall i, j :: 0 <= i < j < |ns| ==> Disjoint(OutBlock(length, ns, i), OutBlock(length, ns, j)))
      && (forall i, j :: 0 <= i < |rs| && 0 <= j < |ns| ==> Disjoint(KeptBlock(rs, i), OutBlock(length, ns, j)))
  {
    hide Round, Serve, Kept, Borrowed, Out, BorrowsFit;
    AllRight(Offsets(0, length), length, rs);
    var ns := Out(rs).value;
    assert rs[..|rs|] == rs && ns[..|ns|] == ns;
    forall i, j | 0 <= i < j <= |rs|
      ensures 0 <= KeptBlock(rs, i).start && KeptBlock(rs, i).start + KeptBlock(rs, i).size <= Kept(rs[..j])
    {
      KeptPrefix(rs, i, j);
    }
    forall i, j | 0 <= i < j <= |ns|
      ensures Borrowed(ns[..i]) + Round(ns[i]) <= Borrowed(ns[..j])
    {
      BorrowedPrefix(ns, i, j);
    }
  }

  // ----- a codebook -----

  /** What `start_decoder` reads of a codebook, as far as sizes depend on it: `total` used entries,
      `long` ones with more than ten bits, and whether the lengths fit.  `lookup1` is the value of the
      floating-point function `lookup1_values`. */
  datatype Book = Book(entries: nat, sparse: bool, total: nat, long: nat, dimensions: nat, fits: bool,
                       lookupType: nat, lookup1: int)

  /** The widths of the fields. */
  predicate Header(b: Book) {
    && b.entries < 0x100_0000 && b.dimensions < 0x1_0000 && b.lookupType < 16
    && b.total <= b.entries && b.long <= b.entries && b.lookup1 <= b.entries
  }

  function BookOf(lens: seq<nat>, sparse: bool, dimensions: nat, lookupType: nat, lookup1: int): (b: Book)
    requires ValidLengths(lens)
    ensures b.total <= b.entries && b.long <= b.entries
  {
    Book(|lens|, sparse, |Symbols(lens, |lens|)|, |Positions(lens, false, |lens|)|, dimensions,
      Kraft(lens, |lens|) <= WORD, lookupType, lookup1)
  }

  /** Whether the book stays sparse. */
  predicate Sparse(b: Book) {
    b.sparse && b.total < b.entries / 4
  }

  function Sorted(b: Book): (n: nat) {
    if Sparse(b) then b.total else b.long
  }

  /** How many entries are expanded for the first kind of lookup. */
  function Expanded(b: Book): nat {
    if Sparse(b) then Sorted(b) else b.entries
  }

  /** `lookup_values`, an unsigned 32-bit number. */
  function LookupValues(b: Book): (n: nat) {
    if b.lookupType == 1 then Unsigned32(b.lookup1) else Unsigned32(b.entries * b.dimensions)
  }

  /** The divisors of the expansion stay in 32 bits. */
  predicate Divides(div: nat, values: nat, steps: nat)
    requires values > 0
    decreases steps
  {
    steps == 0 || (div <= 0xFFFF_FFFF / values && Divides(div * values, values, steps - 1))
  }

  predicate Accepts(b: Book) {
    && !(b.dimensions == 0 && b.entries != 0) && b.fits && b.lookupType <= 2
    && (b.lookupType == 1 ==> b.lookup1 >= 0)
    && (b.lookupType > 0 ==> LookupValues(b) > 0)
    && (b.lookupType == 1 && Expanded(b) > 0 && b.dimensions > 0 ==>
          Divides(1, LookupValues(b), b.dimensions - 1))
  }

  function LengthRequests(b: Book): (rs: seq<Request>) {
    if !b.sparse then [Keep(b.entries)]
    else if Sparse(b) then [Borrow(b.entries)]
    else [Borrow(b.entries), Keep(b.entries), Return(b.entries)]
  }

  function CodeRequests(b: Book): (rs: seq<Request>) {
    if !Sparse(b) then [Keep(4 * b.entries)]
    else if Sorted(b) > 0 then [Keep(Sorted(b)), Borrow(4 * Sorted(b)), Borrow(4 * Sorted(b))]
    else []
  }

  function SortRequests(b: Book): (rs: seq<Request>) {
    if Sorted(b) > 0 then [Keep(4 * (Sorted(b) + 1)), Keep(4 * (Sorted(b) + 1))] else []
  }

  function ReturnRequests(b: Book): (rs: seq<Request>) {
    if !Sparse(b) then []
    else if Sorted(b) > 0 then [Return(4 * Sorted(b)), Return(4 * Sorted(b)), Return(b.entries)]
    else [Return(b.entries)]
  }

  /** The multiplicands; an empty sparse codebook of the first kind has none. */
  function LookupRequests(b: Book): (rs: seq<Request>) {
    if b.lookupType == 0 then []
    else [Borrow(2 * LookupValues(b))] + MultiplicandRequests(b) + [Return(2 * LookupValues(b))]
  }

  function MultiplicandRequests(b: Book): (rs: seq<Request>) {
    if b.lookupType != 1 then [Keep(4 * LookupValues(b))]
    else if Sparse(b) && Sorted(b) == 0 then []
    else [Keep(4 * Expanded(b) * b.dimensions)]
  }

  function TablesOf(b: Book): (rs: seq<Request>) {
    LengthRequests(b) + CodeRequests(b) + SortRequests(b) + ReturnRequests(b)
  }

  function Requests(b: Book): (rs: seq<Request>) {
    TablesOf(b) + LookupRequests(b)
  }

  /** The bytes that an accepted book keeps. */
  function BookBytes(b: Book): (n: nat) {
    var tables :=
      if Sparse(b) then Round(Sorted(b)) else Round(b.entries) + Round(4 * b.entries);
    var index := if Sorted(b) > 0 then 2 * Round(4 * (Sorted(b) + 1)) else 0;
    tables + index + LookupBytes(b)
  }

  /** They are room for the very tables that a book is set up with: a byte for each length, four for
      each codeword, sorted codeword and sorted value, with one value more for the place before the
      first. */
  lemma TablesFit(lens: seq<nat>, sparse: bool, c: Codebook, dimensions: nat)
    requires ValidLengths(lens) && c.Shaped() && c.entries == |lens|
    requires c.sparse <==> sparse && |Symbols(lens, |lens|)| < |lens| / 4
    requires c.sortedEntries == if c.sparse then |Symbols(lens, |lens|)| else |Positions(lens, false, |lens|)|
    ensures BookBytes(BookOf(lens, sparse, dimensions, 0, 0)) ==
      Round(|c.lengths|) + Round(4 * |c.codewords|) + Round(4 * |c.sortedCodewords|)
      + if c.sortedValues == [] then 0 else Round(4 * (1 + |c.sortedValues|))
  {
    hide Round, Symbols, Positions, Kraft;
    NothingRounded();
  }

  // ----- what a codebook asks for -----

  lemma OutMore(rs: seq<Request>, r: Request)
    requires Out(rs).Some?
    ensures var ns := Out(rs).value;
      Out(rs + [r]) ==
        if r.Keep? then Some(ns)
        else if r.Borrow? then Some(ns + [r.n])
        else if ns != [] && ns[|ns| - 1] == r.n then Some(ns[..|ns| - 1])
        else None
  {
    assert (rs + [r])[..|rs|] == rs;
  }

  /** What a further request does to the three sums. */
  lemma More(rs: seq<Request>, r: Request)
    requires Out(rs).Some?
    ensures Kept(rs + [r]) == Kept(rs) + if r.Keep? then Round(r.n) else 0
    ensures BorrowsFit(rs + [r]) <==> BorrowsFit(rs) && (r.Borrow? ==> r.n <= MAX_SIZE)
    ensures r.Keep? ==> Out(rs + [r]) == Out(rs)
    ensures r.Borrow? ==> Out(rs + [r]) == Some(Out(rs).value + [r.n])
    ensures r.Return? && Out(rs).value != [] && Out(rs).value[|Out(rs).value| - 1] == r.n ==>
      Out(rs + [r]) == Some(Out(rs).value[..|Out(rs).value| - 1])
  {
    hide Round, Kept, Out;
    KeptMore(rs, r);
    OutMore(rs, r);
    assert forall i :: 0 <= i < |rs| ==> (rs + [r])[i] == rs[i];
    assert (rs + [r])[|rs|] == r;
  }

  /** The sums of `rs`: the bytes kept, the blocks lent, whether these fit. */
  predicate Sums(rs: seq<Request>, kept: nat, ns: seq<nat>, fit: bool) {
    Out(rs) == Some(ns) && Kept(rs) == kept && (BorrowsFit(rs) <==> fit)
  }

  lemma SumsKeep(rs: seq<Request>, kept: nat, ns: seq<nat>, fit: bool, n: nat)
    requires Sums(rs, kept, ns, fit)
    ensures Sums(rs + [Keep(n)], kept + Round(n), ns, fit)
  {
    hide Round, Kept, Out, BorrowsFit;
    More(rs, Keep(n));
  }

  lemma SumsBorrow(rs: seq<Request>, kept: nat, ns: seq<nat>, fit: bool, n: nat)
    requires Sums(rs, kept, ns, fit)
    ensures Sums(rs + [Borrow(n)], kept, ns + [n], fit && n <= MAX_SIZE)
  {
    hide Round, Kept, Out, BorrowsFit;
    More(rs, Borrow(n));
  }

  lemma SumsReturn(rs: seq<Request>, kept: nat, ns: seq<nat>, fit: bool, n: nat)
    requires Sums(rs, kept, ns + [n], fit)
    ensures Sums(rs + [Return(n)], kept, ns, fit)
  {
    hide Round, Kept, Out, BorrowsFit;
    More(rs, Return(n));
    assert (ns + [n])[..|ns|] == ns;
  }

  /** The block of lengths that a sparse book has lent. */
  function Lent(b: Book): (ns: seq<nat>) {
    if Sparse(b) then [b.entries] else []
  }

  lemma LengthSums(rs: seq<Request>, kept: nat, ns: seq<nat>, fit: bool, b: Book)
    requires Sums(rs, kept, ns, fit) && Header(b)
    ensures Sums(rs + LengthRequests(b), kept + if Sparse(b) then 0 else Round(b.entries), ns + Lent(b), fit)
  {
    hide Round, Sums;
    if !b.sparse {
      SumsKeep(rs, kept, ns, fit, b.entries);
      assert ns + [] == ns;
    } else {
      SumsBorrow(rs, kept, ns, fit, b.entries);
      if !Sparse(b) {
        var more := rs + [Borrow(b.entries)];
        SumsKeep(more, kept, ns + [b.entries], fit, b.entries);
        SumsReturn(more + [Keep(b.entries)], kept + Round(b.entries), ns, fit, b.entries);
        assert more + [Keep(b.entries)] + [Return(b.entries)] == rs + LengthRequests(b);
        assert ns + [] == ns;
      }
    }
  }

  lemma CodeSums(rs: seq<Request>, kept: nat, ns: seq<nat>, fit: bool, b: Book)
    requires Sums(rs, kept, ns, fit) && Header(b)
    ensures Sums(rs + CodeRequests(b),
      kept + if Sparse(b) then Round(Sorted(b)) else Round(4 * b.entries),
      ns + if Sparse(b) && Sorted(b) > 0 then [4 * Sorted(b), 4 * Sorted(b)] else [], fit)
  {
    hide Round, Sums;
    if !Sparse(b) {
      SumsKeep(rs, kept, ns, fit, 4 * b.entries);
      assert ns + [] == ns;
    } else if Sorted(b) > 0 {
      var n := 4 * Sorted(b);
      var more, k := rs + [Keep(Sorted(b))], kept + Round(Sorted(b));
      SumsKeep(rs, kept, ns, fit, Sorted(b));
      SumsBorrow(more, k, ns, fit, n);
      SumsBorrow(more + [Borrow(n)], k, ns + [n], fit, n);
      assert more + [Borrow(n)] + [Borrow(n)] == rs + CodeRequests(b);
      assert ns + [n] + [n] == ns + [n, n];
    } else {
      NothingRounded();
      assert rs + [] == rs && ns + [] == ns;
    }
  }

  lemma NothingRounded()
    ensures Round(0) == 0
  {
  }

  lemma SortSums(rs: seq<Request>, kept: nat, ns: seq<nat>, fit: bool, b: Book)
    requires Sums(rs, kept, ns, fit)
    ensures Sums(rs + SortRequests(b), kept + if Sorted(b) > 0 then 2 * Round(4 * (Sorted(b) + 1)) else 0, ns, fit)
  {
    hide Round, Sums;
    if Sorted(b) > 0 {
      var n := 4 * (Sorted(b) + 1);
      SumsKeep(rs, kept, ns, fit, n);
      SumsKeep(rs + [Keep(n)], kept + Round(n), ns, fit, n);
      assert rs + [Keep(n)] + [Keep(n)] == rs + SortRequests(b);
    } else {
      assert rs + [] == rs;
    }
  }

  lemma ReturnSums(rs: seq<Request>, kept: nat, ns: seq<nat>, fit: bool, b: Book)
    requires Sums(rs, kept, ns + Lent(b) + if Sparse(b) && Sorted(b) > 0 then [4 * Sorted(b), 4 * Sorted(b)] else [], fit)
    ensures Sums(rs + ReturnRequests(b), kept, ns, fit)
  {
    hide Round, Sums;
    if Sparse(b) {
      if Sorted(b) > 0 {
        var n, e := 4 * Sorted(b), b.entries;
        assert ns + [e] + [n, n] == ns + [e] + [n] + [n];
        SumsReturn(rs, kept, ns + [e] + [n], fit, n);
        SumsReturn(rs + [Return(n)], kept, ns + [e], fit, n);
        SumsReturn(rs + [Return(n)] + [Return(n)], kept, ns, fit, e);
        assert rs + [Return(n)] + [Return(n)] + [Return(e)] == rs + ReturnRequests(b);
      } else {
        assert ns + [b.entries] + [] == ns + [b.entries];
        SumsReturn(rs, kept, ns, fit, b.entries);
      }
    } else {
      assert ns + [] + [] == ns && rs + [] == rs;
    }
  }

  function LookupBytes(b: Book): (n: nat) {
    if b.lookupType == 0 then 0
    else if b.lookupType != 1 then Round(4 * LookupValues(b))
    else Round(4 * Expanded(b) * b.dimensions)
  }

  lemma LookupSums(rs: seq<Request>, kept: nat, ns: seq<nat>, fit: bool, b: Book)
    requires Sums(rs, kept, ns, fit)
    ensures Sums(rs + LookupRequests(b), kept + LookupBytes(b), ns,
      fit && (b.lookupType > 0 ==> 2 * LookupValues(b) <= MAX_SIZE))
  {
    hide Round, Sums, LookupValues;
    if b.lookupType == 0 {
      assert rs + [] == rs;
    } else {
      var n := 2 * LookupValues(b);
      var fits, more := fit && n <= MAX_SIZE, rs + [Borrow(n)];
      SumsBorrow(rs, kept, ns, fit, n);
      if MultiplicandRequests(b) == [] {
        NothingRounded();
        assert more + [] == more;
      } else {
        SumsKeep(more, kept, ns + [n], fits, MultiplicandRequests(b)[0].n);
      }
      SumsReturn(more + MultiplicandRequests(b), kept + LookupBytes(b), ns, fits, n);
      assert more + MultiplicandRequests(b) + [Return(n)] == rs + LookupRequests(b);
    }
  }

  /** A codebook gives back all that is temporary, and keeps `BookBytes`. */
  lemma BookSums(rs: seq<Request>, kept: nat, ns: seq<nat>, fit: bool, b: Book)
    requires Sums(rs, kept, ns, fit) && Header(b)
    ensures Sums(rs + Requests(b), kept + BookBytes(b), ns,
      fit && (b.lookupType > 0 ==> 2 * LookupValues(b) <= MAX_SIZE))
  {
    hide Round, Sums, LengthRequests, CodeRequests, SortRequests, ReturnRequests, LookupRequests, LookupValues;
    LengthSums(rs, kept, ns, fit, b);
    var r1, k1 := rs + LengthRequests(b), kept + if Sparse(b) then 0 else Round(b.entries);
    CodeSums(r1, k1, ns + Lent(b), fit, b);
    var r2, k2 := r1 + CodeRequests(b), k1 + if Sparse(b) then Round(Sorted(b)) else Round(4 * b.entries);
    var lent := if Sparse(b) && Sorted(b) > 0 then [4 * Sorted(b), 4 * Sorted(b)] else [];
    SortSums(r2, k2, ns + Lent(b) + lent, fit, b);
    var r3, k3 := r2 + SortRequests(b), k2 + if Sorted(b) > 0 then 2 * Round(4 * (Sorted(b) + 1)) else 0;
    ReturnSums(r3, k3, ns, fit, b);
    var r4 := r3 + ReturnRequests(b);
    LookupSums(r4, k3, ns, fit, b);
    assert r4 + LookupRequests(b) == rs + Requests(b);
  }

  /** A book that is accepted gets what it asks for, and leaves the memory as it should be, if and only
      if the bytes kept so far and the bytes that it keeps are an `int` together. */
  lemma BookRight(rs: seq<Request>, b: Book)
    requires Right(rs) && Header(b) && Accepts(b)
    ensures Right(rs + Requests(b)) <==> Kept(rs) + BookBytes(b) <= MAX_INT
    ensures Out(rs + Requests(b)) == Out(rs) && Kept(rs + Requests(b)) == Kept(rs) + BookBytes(b)
  {
    hide Requests, Out, Kept, BorrowsFit, Divides;
    BookSums(rs, Kept(rs), Out(rs).value, true, b);
  }

  /** The same said of the offsets. */
  lemma BookOffsets(length: int, rs: seq<Request>, b: Book)
    requires 0 <= length <= MAX_INT && Right(rs) && Header(b) && Accepts(b)
    requires ServeAll(Offsets(0, length), rs).Some? && ServeAll(Offsets(0, length), rs + Requests(b)).Some?
    ensures var o, p := ServeAll(Offsets(0, length), rs).value, ServeAll(Offsets(0, length), rs + Requests(b)).value;
      && (p.setup == o.setup + BookBytes(b) <==> o.setup + BookBytes(b) <= MAX_INT)
      && (o.setup + BookBytes(b) <= MAX_INT ==> InBounds(p, length) && p.temp == o.temp)
  {
    hide Requests, Out, Kept, BorrowsFit, Accepts, BookBytes, Serve, ServeAll;
    BookRight(rs, b);
    AllRight(Offsets(0, length), length, rs);
    ServedInts(Offsets(0, length), rs + Requests(b));
    if Kept(rs) + BookBytes(b) <= MAX_INT {
      AllRight(Offsets(0, length), length, rs + Requests(b));
    }
  }

  lemma ServedInts(o: Offsets, rs: seq<Request>)
    requires Ints(o) && ServeAll(o, rs).Some?
    ensures Ints(ServeAll(o, rs).value)
  {
  }

  /** A condition on the header alone: 2^27 values, and a buffer of at most 2^30 bytes. */
  lemma SmallBook(length: int, rs: seq<Request>, b: Book)
    requires 0 <= length <= 0x4000_0000 && Right(rs) && ServeAll(Offsets(0, length), rs).Some? && Header(b)
    requires b.entries * b.dimensions <= 0x800_0000
    ensures Kept(rs) + BookBytes(b) <= MAX_INT
  {
    hide Round, Out, BorrowsFit, Kept, ServeAll, LookupBytes, Right, BookBytes;
    KeptSmall(length, rs);
    BookSmall(b);
    LookupSmall(b);
  }

  lemma KeptSmall(length: int, rs: seq<Request>)
    requires 0 <= length <= MAX_INT && Right(rs) && ServeAll(Offsets(0, length), rs).Some?
    ensures Kept(rs) <= length
  {
    hide Round, Out, BorrowsFit, Kept, ServeAll;
    AllRight(Offsets(0, length), length, rs);
  }

  lemma BookSmall(b: Book)
    requires Header(b)
    ensures BookBytes(b) <= LookupBytes(b) + 0xE00_0000
  {
    hide LookupBytes;
  }

  lemma LookupSmall(b: Book)
    requires Header(b) && b.entries * b.dimensions <= 0x800_0000
    ensures LookupBytes(b) <= 0x2000_0008
  {
    hide Round;
    var p := Expanded(b) * b.dimensions;
    assert p <= b.entries * b.dimensions by {
      TimesMono(b.dimensions, Expanded(b), b.entries);
      assert b.dimensions * b.entries == b.entries * b.dimensions;
      assert b.dimensions * Expanded(b) == p;
    }
    FourTimes(Expanded(b), b.dimensions);
    SmallUnsigned(b.entries * b.dimensions);
  }

  lemma FourTimes(x: nat, y: nat)
    ensures 4 * x * y == 4 * (x * y)
  {
  }

  lemma SmallUnsigned(x: nat)
    ensures x < TWO32 ==> Unsigned32(x) == x
  {
  }

  // ----- a book that does not fit -----

  /** 917504 entries with codewords of 20 bits, 4096 dimensions, a value for each: 2^32 - 2^29 values. */
  const WIDE_LENGTHS: seq<nat> := seq(917504, _ => 20)
  const WIDE: Book := Book(917504, false, 917504, 917504, 4096, true, 2, 0)

  lemma WideAt(i: nat)
    ensures |WIDE_LENGTHS| == 917504 && ValidLengths(WIDE_LENGTHS)
    ensures i < 917504 ==> WIDE_LENGTHS[i] == 20
  {
  }

  lemma {:induction false} WideCounts(n: nat)
    requires n <= 917504
    ensures |WIDE_LENGTHS| == 917504 && ValidLengths(WIDE_LENGTHS)
    ensures Kraft(WIDE_LENGTHS, n) == 4096 * n
    ensures |Symbols(WIDE_LENGTHS, n)| == |Positions(WIDE_LENGTHS, false, n)| == n
  {
    hide WIDE_LENGTHS;
    WideAt(0);
    assert Size(20) == 4096;
    if n > 0 {
      WideCounts(n - 1);
      WideAt(n - 1);
    }
  }

  /** Its lengths fit: it is accepted. */
  lemma WideAccepted()
    ensures ValidLengths(WIDE_LENGTHS) && BookOf(WIDE_LENGTHS, false, 4096, 2, 0) == WIDE
    ensures Header(WIDE) && Accepts(WIDE)
  {
    hide WIDE_LENGTHS;
    WideCounts(917504);
    WordSize();
  }

  lemma WideRequests()
    ensures Requests(WIDE) == [
      Keep(917504), Keep(3670016), Keep(3670020), Keep(3670020),
      Borrow(7516192768), Keep(15032385536), Return(7516192768)]
  {
  }

  /** In a buffer of twelve million bytes it gets all it asks for, and the next block to keep begins
      before the buffer. */
  lemma WideServed()
    ensures ServeAll(Offsets(0, 12_000_000), Requests(WIDE)) == Some(Offsets(11_927_568 - 0x8000_0000, 12_000_000))
  {
    hide Requests, Serve, Rounded, Wrap32;
    WideRequests();
    WideTables();
    WideLookup();
    var o := Offsets(0, 12_000_000);
    var r1, r2, r3 := [Keep(917504)], [Keep(917504), Keep(3670016)], [Keep(917504), Keep(3670016), Keep(3670020)];
    var r4 := r3 + [Keep(3670020)];
    var r5 := r4 + [Borrow(7516192768)];
    var r6 := r5 + [Keep(15032385536)];
    ServeMore(o, [], Keep(917504));
    assert [] + [Keep(917504)] == r1;
    ServeMore(o, r1, Keep(3670016));
    ServeMore(o, r2, Keep(3670020));
    ServeMore(o, r3, Keep(3670020));
    ServeMore(o, r4, Borrow(7516192768));
    ServeMore(o, r5, Keep(15032385536));
    ServeMore(o, r6, Return(7516192768));
    assert r6 + [Return(7516192768)] == Requests(WIDE);
  }

  lemma WideTables()
    ensures Serve(Offsets(0, 12_000_000), Keep(917504)) == Some(Offsets(917504, 12_000_000))
    ensures Serve(Offsets(917504, 12_000_000), Keep(3670016)) == Some(Offsets(4587520, 12_000_000))
    ensures Serve(Offsets(4587520, 12_000_000), Keep(3670020)) == Some(Offsets(8257544, 12_000_000))
    ensures Serve(Offsets(8257544, 12_000_000), Keep(3670020)) == Some(Offsets(11_927_568, 12_000_000))
  {
    hide Rounded;
    RoundedWrapped(917504, 0, 917504);
    RoundedWrapped(3670016, 0, 3670016);
    RoundedIs(3670020);
  }

  lemma WideLookup()
    ensures Serve(Offsets(11_927_568, 12_000_000), Borrow(7516192768))
      == Some(Offsets(11_927_568, 1_085_741_824))
    ensures Serve(Offsets(11_927_568, 1_085_741_824), Keep(15032385536))
      == Some(Offsets(11_927_568 - 0x8000_0000, 1_085_741_824))
    ensures Serve(Offsets(11_927_568 - 0x8000_0000, 1_085_741_824), Return(7516192768))
      == Some(Offsets(11_927_568 - 0x8000_0000, 12_000_000))
  {
    hide Rounded;
    RoundedWrapped(7516192768, 2, -0x4000_0000);
    RoundedWrapped(15032385536, 4, -0x8000_0000);
  }

  lemma RoundedWrapped(n: nat, k: int, v: int)
    requires n == v + k * TWO32 && -TWO31 <= v <= MAX_INT - 7 && v % 8 == 0
    ensures Rounded(n) == v
  {
    hide Wrap32;
    Wrap32Cong(n, v, k);
    Wrap32Id(v);
    Wrap32Id(v + 7);
  }

  /** What follows for any memory: the book is set up, and the next block would begin before the
      buffer. */
  method SetupWide() returns (a: Arena, ok: bool)
    ensures ok && a.Valid() && a.length == 12_000_000 && a.setupOffset < 0 && a.tempOffset == a.length
  {
    hide ServeAll, Requests, WIDE_LENGTHS;
    WideAccepted();
    WideServed();
    a := new Arena(12_000_000);
    assert [] + Requests(WIDE) == Requests(WIDE);
    ok := a.SetupCodebook(WIDE);
  }

  // ----- the memory itself -----

  class Arena {
    const length: int
    var setupOffset: int
    var tempOffset: int
    /** What has been granted so far. */
    ghost var asked: seq<Request>

    ghost function State(): Offsets
      reads this
    {
      Offsets(setupOffset, tempOffset)
    }

    ghost predicate Valid()
      reads this
    {
      0 <= length <= MAX_INT && ServeAll(Offsets(0, length), asked) == Some(State())
    }

    constructor (bytes: nat)
      requires bytes <= MAX_INT
      ensures Valid() && length == bytes - bytes % 8 && asked == []
    {
      length := bytes - bytes % 8;
      setupOffset, tempOffset := 0, bytes - bytes % 8;
      asked := [];
    }

    /** `setup_malloc` */
    method SetupMalloc(n: nat) returns (ok: bool, p: int)
      requires Valid()
      modifies this`setupOffset, this`asked
      ensures Valid() && p == old(setupOffset) && ok == Serve(old(State()), Keep(n)).Some?
      ensures asked == if ok then old(asked) + [Keep(n)] else old(asked)
    {
      hide ServeAll;
      var sz := Wrap32(Wrap32(n) + 7);
      sz := sz - sz % 8;
      p := setupOffset;
      ServeMore(Offsets(0, length), asked, Keep(n));
      if Wrap32(setupOffset + sz) > tempOffset {
        return false, p;
      }
      setupOffset := Wrap32(setupOffset + sz);
      asked := asked + [Keep(n)];
      ok := true;
    }

    /** `setup_temp_malloc` */
    method TempMalloc(n: nat) returns (ok: bool, p: int)
      requires Valid()
      modifies this`tempOffset, this`asked
      ensures Valid() && ok == Serve(old(State()), Borrow(n)).Some? && (ok ==> p == tempOffset)
      ensures asked == if ok then old(asked) + [Borrow(n)] else old(asked)
    {
      hide ServeAll;
      var sz := Wrap32(Wrap32(n) + 7);
      sz := sz - sz % 8;
      ServeMore(Offsets(0, length), asked, Borrow(n));
      if Wrap32(tempOffset - sz) < setupOffset {
        return false, 0;
      }
      tempOffset := Wrap32(tempOffset - sz);
      asked := asked + [Borrow(n)];
      return true, tempOffset;
    }

    /** `setup_temp_free` */
    method TempFree(n: nat)
      requires Valid()
      modifies this`tempOffset, this`asked
      ensures Valid() && asked == old(asked) + [Return(n)]
    {
      hide ServeAll;
      var sz := Wrap32(Wrap32(n) + 7);
      sz := sz - sz % 8;
      ServeMore(Offsets(0, length), asked, Return(n));
      tempOffset := Wrap32(tempOffset + sz);
      asked := asked + [Return(n)];
    }

    /** All of `rs` was granted, or something among it was refused. */
    ghost predicate Answered(before: seq<Request>, rs: seq<Request>, ok: bool)
      reads this
    {
      if ok then asked == before + rs else ServeAll(Offsets(0, length), before + rs).None?
    }

    /** The arrays of lengths, of codewords, of sorted codes, and what is given back. */
    method Lengths(b: Book) returns (ok: bool)
      requires Valid()
      modifies this
      ensures Valid() && Answered(old(asked), LengthRequests(b), ok)
    {
      hide ServeAll, Serve;
      ghost var o, rs := Offsets(0, length), asked;
      var p;
      if !b.sparse {
        ok, p := SetupMalloc(b.entries);
        ServeMore(o, rs, Keep(b.entries));
        return;
      }
      ok, p := TempMalloc(b.entries);
      ServeMore(o, rs, Borrow(b.entries));
      if b.total >= b.entries / 4 {
        if !ok {
          RefusedStays(o, rs + [Borrow(b.entries)], [Keep(b.entries), Return(b.entries)]);
          assert rs + LengthRequests(b) == rs + [Borrow(b.entries)] + [Keep(b.entries), Return(b.entries)];
          return;
        }
        ok, p := SetupMalloc(b.entries);
        ServeMore(o, rs + [Borrow(b.entries)], Keep(b.entries));
        assert rs + LengthRequests(b) == rs + [Borrow(b.entries)] + [Keep(b.entries)] + [Return(b.entries)];
        if !ok {
          RefusedStays(o, rs + [Borrow(b.entries)] + [Keep(b.entries)], [Return(b.entries)]);
          return;
        }
        TempFree(b.entries);
      }
    }

    method Codes(b: Book) returns (ok: bool)
      requires Valid()
      modifies this
      ensures Valid() && Answered(old(asked), CodeRequests(b), ok)
    {
      hide ServeAll, Serve;
      ghost var o, rs := Offsets(0, length), asked;
      var p;
      if !Sparse(b) {
        ok, p := SetupMalloc(4 * b.entries);
        ServeMore(o, rs, Keep(4 * b.entries));
      } else if Sorted(b) > 0 {
        var n := 4 * Sorted(b);
        ok, p := SetupMalloc(Sorted(b));
        ServeMore(o, rs, Keep(Sorted(b)));
        ghost var r1 := rs + [Keep(Sorted(b))];
        assert rs + CodeRequests(b) == r1 + [Borrow(n), Borrow(n)] == r1 + [Borrow(n)] + [Borrow(n)];
        if !ok {
          RefusedStays(o, r1, [Borrow(n), Borrow(n)]);
          return;
        }
        ok, p := TempMalloc(n);
        ServeMore(o, r1, Borrow(n));
        if !ok {
          RefusedStays(o, r1 + [Borrow(n)], [Borrow(n)]);
          return;
        }
        ok, p := TempMalloc(n);
        ServeMore(o, r1 + [Borrow(n)], Borrow(n));
      } else {
        ok := true;
        assert rs + [] == rs;
      }
    }

    method SortedTables(b: Book) returns (ok: bool)
      requires Valid()
      modifies this
      ensures Valid() && Answered(old(asked), SortRequests(b), ok)
    {
      hide ServeAll, Serve;
      ghost var o, rs := Offsets(0, length), asked;
      if Sorted(b) > 0 {
        var n, p := 4 * (Sorted(b) + 1), 0;
        ok, p := SetupMalloc(n);
        ServeMore(o, rs, Keep(n));
        assert rs + SortRequests(b) == rs + [Keep(n)] + [Keep(n)];
        if !ok {
          RefusedStays(o, rs + [Keep(n)], [Keep(n)]);
          return;
        }
        ok, p := SetupMalloc(n);
        ServeMore(o, rs + [Keep(n)], Keep(n));
      } else {
        ok := true;
        assert rs + [] == rs;
      }
    }

    /** Giving back nothing would do nothing. */
    method GiveBack(b: Book)
      requires Valid()
      modifies this
      ensures Valid() && asked == old(asked) + ReturnRequests(b)
    {
      hide ServeAll, Serve;
      ghost var rs := asked;
      if Sparse(b) {
        if Sorted(b) > 0 {
          TempFree(4 * Sorted(b));
          TempFree(4 * Sorted(b));
        }
        TempFree(b.entries);
      }
      assert asked == rs + ReturnRequests(b);
    }

    method Lookup(b: Book) returns (ok: bool)
      requires Valid()
      modifies this
      ensures Valid() && Answered(old(asked), LookupRequests(b), ok)
    {
      hide ServeAll, Serve, LookupValues;
      ghost var o, rs := Offsets(0, length), asked;
      if b.lookupType == 0 {
        assert rs + [] == rs;
        return true;
      }
      var n, p := 2 * LookupValues(b), 0;
      ghost var ms := MultiplicandRequests(b);
      ok, p := TempMalloc(n);
      ServeMore(o, rs, Borrow(n));
      assert rs + LookupRequests(b) == rs + [Borrow(n)] + (ms + [Return(n)]) == rs + [Borrow(n)] + ms + [Return(n)];
      if !ok {
        RefusedStays(o, rs + [Borrow(n)], ms + [Return(n)]);
        return;
      }
      if !(b.lookupType == 1 && Sparse(b) && Sorted(b) == 0) {
        var m := if b.lookupType == 1 then 4 * Expanded(b) * b.dimensions else 4 * LookupValues(b);
        ok, p := SetupMalloc(m);
        assert ms == [Keep(m)];
        ServeMore(o, rs + [Borrow(n)], Keep(m));
        if !ok {
          RefusedStays(o, rs + [Borrow(n)] + ms, [Return(n)]);
        }
      }
      ghost var granted := asked;
      TempFree(n);
      assert ok ==> granted == rs + [Borrow(n)] + ms;
    }

    /** The allocations of one codebook of `start_decoder`: it is set up if and only if its data are
        accepted and everything it asks for is granted.  If the memory was as callers believe, it still
        is if and only if what is kept stays an `int`. */
    method SetupCodebook(b: Book) returns (ok: bool)
      requires Valid() && Header(b)
      modifies this
      ensures Valid()
      ensures ok <==> Accepts(b) && ServeAll(Offsets(0, length), old(asked) + Requests(b)).Some?
      ensures ok ==> asked == old(asked) + Requests(b)
      ensures ok && Right(old(asked)) ==> (Right(asked) <==> Kept(old(asked)) + BookBytes(b) <= MAX_INT)
    {
      hide ServeAll, Serve, LengthRequests, CodeRequests, SortRequests, ReturnRequests, LookupRequests, Divides, Right,
        BookBytes;
      ghost var before, t := asked, TablesOf(b);
      if b.dimensions == 0 && b.entries != 0 {
        return false;
      }
      ok := Tables(b);
      assert before + Requests(b) == before + t + LookupRequests(b);
      if !ok {
        if b.fits {
          RefusedStays(Offsets(0, length), before + t, LookupRequests(b));
        }
        return;
      }
      if b.lookupType > 2 || (b.lookupType == 1 && b.lookup1 < 0) || (b.lookupType > 0 && LookupValues(b) == 0) {
        return false;
      }
      ok := Lookup(b);
      if b.lookupType == 1 && Expanded(b) > 0 && b.dimensions > 0 && !Divides(1, LookupValues(b), b.dimensions - 1) {
        return false;
      }
      if ok && Right(before) {
        BookRight(before, b);
      }
    }

    /** Everything before the lookup values. */
    method Tables(b: Book) returns (ok: bool)
      requires Valid()
      modifies this
      ensures Valid() && (ok ==> b.fits && asked == old(asked) + TablesOf(b))
      ensures !ok && b.fits ==> ServeAll(Offsets(0, length), old(asked) + TablesOf(b)).None?
    {
      hide ServeAll, Serve, LengthRequests, CodeRequests, SortRequests, ReturnRequests;
      ghost var o, rs := Offsets(0, length), asked;
      ghost var l, c, t, r := LengthRequests(b), CodeRequests(b), SortRequests(b), ReturnRequests(b);
      assert rs + TablesOf(b) == rs + l + (c + t + r) == rs + l + c + (t + r) == rs + l + c + t + r;
      ok := Lengths(b);
      if !ok {
        RefusedStays(o, rs + l, c + t + r);
        return;
      }
      ok := Codes(b);
      if !ok {
        RefusedStays(o, rs + l + c, t + r);
        return;
      }
      if !b.fits {
        return false;
      }
      ok := SortedTables(b);
      if !ok {
        RefusedStays(o, rs + l + c + t, r);
        return;
      }
      GiveBack(b);
    }
  }
}
