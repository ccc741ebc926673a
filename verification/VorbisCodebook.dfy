/** The decoding tables of a codebook: the sorted codewords with their values, the accelerator
    table, and the setup that decides between a dense and a sparse book. */
module VorbisCodebook {
  import opened Bits
  import opened Words
  import opened VorbisTree
  import opened VorbisMatch
  import opened VorbisCodewords

  const FAST_LENGTH: nat := 10
  const FAST_SIZE: nat := 1024
  const FAST_LIMIT: nat := 32767

  // ----- sorting -----

  ghost predicate Ascending(s: seq<nat>) {
    forall i, j :: 0 <= i < j < |s| ==> s[i] <= s[j]
  }

  ghost predicate Increasing(s: seq<nat>, n: nat)
    requires n <= |s|
  {
    forall i, j :: 0 <= i < j < n ==> s[i] < s[j]
  }

  function Insert(x: nat, s: seq<nat>): (r: seq<nat>)
    ensures multiset(r) == multiset(s) + multiset{x}
    ensures |r| == |s| + 1
  {
    if s == [] || x <= s[0] then [x] + s
    else
      assert s == [s[0]] + s[1..];
      [s[0]] + Insert(x, s[1..])
  }

  lemma {:induction false} InsertAscending(x: nat, s: seq<nat>)
    requires Ascending(s)
    ensures Ascending(Insert(x, s)) && (s != [] && s[0] < x ==> Insert(x, s)[0] == s[0])
    ensures s == [] || x <= s[0] ==> Insert(x, s)[0] == x
  {
    if s != [] && s[0] < x {
      InsertAscending(x, s[1..]);
      AscendingCons(s[0], Insert(x, s[1..]));
    }
  }

  lemma AscendingCons(h: nat, t: seq<nat>)
    requires Ascending(t) && (t != [] ==> h <= t[0])
    ensures Ascending([h] + t)
  {
  }

  /** What `qsort` with `uint32_compare` leaves in the array. */
  function Sort(s: seq<nat>): (r: seq<nat>)
    ensures Ascending(r) && multiset(r) == multiset(s) && |r| == |s|
  {
    if s == [] then [] else
      assert s == [s[0]] + s[1..];
      InsertAscending(s[0], Sort(s[1..]));
      Insert(s[0], Sort(s[1..]))
  }

  lemma SortDistinct(s: seq<nat>, keys: seq<nat>)
    requires Ascending(s) && multiset(s) == multiset(keys)
    requires forall i, j :: 0 <= i < j < |keys| ==> keys[i] != keys[j]
    ensures Increasing(s, |s|)
  {
    forall i, j | 0 <= i < j < |s|
      ensures s[i] < s[j]
    {
      if s[i] == s[j] {
        Twice(s, i, j);
        Once(keys, s[i]);
      }
    }
  }

  lemma Twice(s: seq<nat>, i: nat, j: nat)
    requires i < j < |s| && s[i] == s[j]
    ensures multiset(s)[s[i]] >= 2
  {
    assert s == s[..j] + [s[j]] + s[j + 1..];
    assert s[..j][i] == s[i];
    assert s[i] in multiset(s[..j]);
  }

  lemma {:induction false} Once(keys: seq<nat>, k: nat)
    requires forall i, j :: 0 <= i < j < |keys| ==> keys[i] != keys[j]
    ensures multiset(keys)[k] <= 1
  {
    if keys != [] {
      assert keys == [keys[0]] + keys[1..];
      Once(keys[1..], k);
      if k == keys[0] {
        assert k !in keys[1..];
      }
    }
  }

  /** The binary search of the table builder and of the decoder. */
  method BinarySearch(sorted: seq<nat>, count: nat, code: nat) returns (x: nat)
    requires 1 <= count <= |sorted| && Increasing(sorted, count)
    ensures x < count
    ensures forall y :: 0 < y <= x ==> sorted[y] <= code
    ensures forall y :: x < y < count ==> code < sorted[y]
  {
    x := 0;
    var n := count;
    while n > 1
      invariant 1 <= n && x + n <= count
      invariant x > 0 ==> sorted[x] <= code
      invariant x + n < count ==> code < sorted[x + n]
      decreases n
    {
      var m := x + n / 2;
      if sorted[m] <= code {
        x := m;
        n := n - n / 2;
      } else {
        n := n / 2;
      }
    }
  }

  // ----- the sorted index -----

  /** `include_in_sort` */
  predicate Included(sparse: bool, len: nat) {
    sparse || (len != NO_CODE && len > FAST_LENGTH)
  }

  /** The sorted index holds every included symbol exactly once, in code order. */
  ghost predicate Indexed(lens: seq<nat>, codes: seq<nat>, sparse: bool, count: nat, sc: seq<nat>, sv: seq<nat>)
    requires |codes| == |lens|
  {
    && |sc| == count + 1 && |sv| == count && sc[count] == 0xffffffff
    && Increasing(sc, count)
    && (forall x :: 0 <= x < count ==>
          sv[x] < |lens| && Used(lens, sv[x]) && Included(sparse, lens[sv[x]]) && sc[x] == codes[sv[x]])
    && (forall i :: 0 <= i < |lens| && Used(lens, i) && Included(sparse, lens[i]) ==> i in sv)
  }

  /** The positions of `codewords` that enter the sort. */
  function Positions(lens: seq<nat>, sparse: bool, n: nat): (p: seq<nat>)
    requires !sparse ==> n <= |lens|
    ensures |p| <= n
    ensures forall t :: 0 <= t < |p| ==> p[t] < n && (!sparse ==> Included(sparse, lens[p[t]]))
    ensures forall t, u :: 0 <= t < u < |p| ==> p[t] < p[u]
    ensures sparse ==> |p| == n && forall t :: 0 <= t < n ==> p[t] == t
  {
    if n == 0 then []
    else Positions(lens, sparse, n - 1) +
         if sparse || Included(sparse, lens[n - 1]) then [n - 1] else []
  }

  lemma {:induction false} PositionsComplete(lens: seq<nat>, sparse: bool, n: nat, i: nat)
    requires (!sparse ==> n <= |lens|) && i < n && (sparse || Included(sparse, lens[i]))
    ensures i in Positions(lens, sparse, n)
  {
    if i < n - 1 {
      PositionsComplete(lens, sparse, n - 1, i);
    }
  }

  lemma {:induction false} PositionsMono(lens: seq<nat>, sparse: bool, m: nat, n: nat)
    requires m <= n && (!sparse ==> n <= |lens|)
    ensures Positions(lens, sparse, m) <= Positions(lens, sparse, n)
  {
    if m < n {
      PositionsMono(lens, sparse, m, n - 1);
    }
  }

  /** The sort keys: the codes of the included entries, in table order. */
  function Keys(codewords: seq<nat>, p: seq<nat>): (k: seq<nat>)
    requires forall t :: 0 <= t < |p| ==> p[t] < |codewords|
    ensures |k| == |p|
  {
    seq(|p|, t requires 0 <= t < |p| => BitReverse(codewords[p[t]]))
  }

  /** The first `t` keys have their symbol (and, in a sparse book, length) beside them. */
  ghost predicate Placed(lens: seq<nat>, sparse: bool, values: seq<nat>, p: seq<nat>, keys: seq<nat>,
                         sorted: seq<nat>, count: nat, sv: seq<nat>, cl: seq<nat>, t: nat)
    requires sparse ==> forall u :: 0 <= u < |p| ==> p[u] < |values|
    requires sparse ==> forall v :: 0 <= v < |values| ==> values[v] < |lens|
  {
    && t <= |p| == |keys|
    && count == |sv| <= |sorted| && (sparse ==> |cl| == count)
    && forall u, x :: 0 <= u < t && 0 <= x < count && sorted[x] == keys[u] ==>
         sv[x] == (if sparse then values[p[u]] else p[u]) && (sparse ==> cl[x] == lens[values[p[u]]])
  }

  lemma PlaceNone(lens: seq<nat>, sparse: bool, values: seq<nat>, p: seq<nat>, keys: seq<nat>,
                  sorted: seq<nat>, count: nat, sv: seq<nat>, cl: seq<nat>)
    requires sparse ==> forall u :: 0 <= u < |p| ==> p[u] < |values|
    requires sparse ==> forall v :: 0 <= v < |values| ==> values[v] < |lens|
    requires |p| == |keys| && count == |sv| <= |sorted| && (sparse ==> |cl| == count)
    ensures Placed(lens, sparse, values, p, keys, sorted, count, sv, cl, 0)
  {
  }

  lemma PlaceOne(lens: seq<nat>, sparse: bool, values: seq<nat>, p: seq<nat>, keys: seq<nat>,
                 sorted: seq<nat>, count: nat, sv: seq<nat>, cl: seq<nat>, t: nat, x: nat)
    requires sparse ==> forall u :: 0 <= u < |p| ==> p[u] < |values|
    requires sparse ==> forall v :: 0 <= v < |values| ==> values[v] < |lens|
    requires Placed(lens, sparse, values, p, keys, sorted, count, sv, cl, t) && t < |p| && x < count
    requires forall u, v :: 0 <= u < v < |keys| ==> keys[u] != keys[v]
    requires sorted[x] == keys[t] && forall y :: 0 <= y < count && sorted[y] == keys[t] ==> y == x
    ensures Placed(lens, sparse, values, p, keys, sorted, count,
                   sv[x := if sparse then values[p[t]] else p[t]],
                   if sparse then cl[x := lens[values[p[t]]]] else cl, t + 1)
  {
  }

  /** `compute_sorted_huffman`: `len` entries of `codewords` (all of a dense book, the packed used
      ones of a sparse book, whose symbols are `values`). */
  method ComputeSorted(lens: seq<nat>, sparse: bool, codewords: seq<nat>, values: seq<nat>, count: nat)
    returns (sc: array<nat>, sv: array<nat>, cl: array<nat>, ghost p: seq<nat>)
    requires if sparse then |values| == |codewords| && forall t :: 0 <= t < |values| ==> values[t] < |lens|
             else |codewords| == |lens|
    requires count == |Positions(lens, sparse, |codewords|)|
    requires var k := Keys(codewords, Positions(lens, sparse, |codewords|));
      forall t, u :: 0 <= t < u < |k| ==> k[t] != k[u]
    ensures p == Positions(lens, sparse, |codewords|)
    ensures sc.Length == count + 1 && sv.Length == count && sc[count] == 0xffffffff
    ensures sparse ==> cl.Length == count
    ensures Increasing(sc[..], count) && multiset(sc[..count]) == multiset(Keys(codewords, p))
    ensures Placed(lens, sparse, values, p, Keys(codewords, p), sc[..], count, sv[..], cl[..], |p|)
  {
    hide BitReverse, Positions, Increasing, Placed;
    PositionsMono(lens, sparse, 0, |codewords|);
    var n := |codewords|;
    p := Positions(lens, sparse, n);
    ghost var keys := Keys(codewords, p);
    sc := SortedKeys(lens, sparse, codewords, count);
    ghost var sorted := sc[..];
    sv, cl := new nat[count], new nat[if sparse then count else 0];
    var i, t := 0, 0;
    PlaceNone(lens, sparse, values, p, keys, sorted, count, sv[..], cl[..]);
    while i < n
      modifies sv, cl
      invariant 0 <= i <= n && t == |Positions(lens, sparse, i)| && t <= |p|
      invariant sc[..] == sorted
      invariant Placed(lens, sparse, values, p, keys, sorted, count, sv[..], cl[..], t)
    {
      NextPosition(lens, sparse, i, n);
      if Included(sparse, if sparse then lens[values[i]] else lens[i]) {
        PlaceEntry(lens, sparse, codewords, values, i, p, keys, sc, count, sv, cl, t);
        t := t + 1;
      }
      i := i + 1;
    }
  }

  /** The symbol of an included entry goes beside the entry's key. */
  method PlaceEntry(lens: seq<nat>, sparse: bool, codewords: seq<nat>, values: seq<nat>, i: nat, ghost p: seq<nat>,
                    ghost keys: seq<nat>, sc: array<nat>, count: nat, sv: array<nat>, cl: array<nat>, ghost t: nat)
    requires i < |codewords| && t < |p| && p[t] == i && |keys| == |p| && keys[t] == BitReverse(codewords[i])
    requires sparse ==> |values| == |codewords| && forall v :: 0 <= v < |values| ==> values[v] < |lens|
    requires sparse ==> forall u :: 0 <= u < |p| ==> p[u] < |values|
    requires forall u, v :: 0 <= u < v < |keys| ==> keys[u] != keys[v]
    requires count <= sc.Length && sv.Length == count && (sparse ==> cl.Length == count)
    requires sc != sv && sc != cl && sv != cl
    requires Increasing(sc[..], count) && multiset(sc[..count]) == multiset(keys)
    requires Placed(lens, sparse, values, p, keys, sc[..], count, sv[..], cl[..], t)
    modifies sv, cl
    ensures Placed(lens, sparse, values, p, keys, sc[..], count, sv[..], cl[..], t + 1)
  {
    hide BitReverse, Increasing, Placed;
    var x := Locate(sc[..], count, BitReverse(codewords[i]), keys);
    PlaceOne(lens, sparse, values, p, keys, sc[..], count, sv[..], cl[..], t, x);
    sv[x] := if sparse then values[i] else i;
    if sparse {
      cl[x] := lens[values[i]];
    }
  }

  lemma NextPosition(lens: seq<nat>, sparse: bool, i: nat, n: nat)
    requires i < n && (!sparse ==> n <= |lens|)
    ensures var t := |Positions(lens, sparse, i)|;
      if sparse || Included(sparse, lens[i]) then
        t < |Positions(lens, sparse, n)| && Positions(lens, sparse, n)[t] == i
        && |Positions(lens, sparse, i + 1)| == t + 1
      else |Positions(lens, sparse, i + 1)| == t
  {
    PositionsMono(lens, sparse, i + 1, n);
  }

  /** The search for an entry's own place: it is always found. */
  method Locate(sorted: seq<nat>, count: nat, code: nat, ghost keys: seq<nat>) returns (x: nat)
    requires count <= |sorted| && Increasing(sorted, count)
    requires multiset(sorted[..count]) == multiset(keys) && code in keys
    ensures x < count && sorted[x] == code
    ensures forall y :: 0 <= y < count && sorted[y] == code ==> y == x
  {
    assert code in multiset(keys);
    var s := sorted[..count];
    ghost var y :| 0 <= y < count && s[y] == code;
    assert sorted[y] == code;
    x := BinarySearch(sorted, count, code);
    assert x > 0 ==> sorted[x] <= code;
    assert y == x;
  }

  lemma IncreasingPrefix(s: seq<nat>, t: seq<nat>)
    requires s <= t && Increasing(s, |s|)
    ensures Increasing(t, |s|)
  {
  }

  /** Filling in the keys, sorting them, and the sentinel. */
  method SortedKeys(lens: seq<nat>, sparse: bool, codewords: seq<nat>, count: nat) returns (sc: array<nat>)
    requires !sparse ==> |codewords| == |lens|
    requires count == |Positions(lens, sparse, |codewords|)|
    requires var k := Keys(codewords, Positions(lens, sparse, |codewords|));
      forall t, u :: 0 <= t < u < |k| ==> k[t] != k[u]
    ensures fresh(sc) && sc.Length == count + 1 && sc[count] == 0xffffffff
    ensures Increasing(sc[..], count)
    ensures multiset(sc[..count]) == multiset(Keys(codewords, Positions(lens, sparse, |codewords|)))
  {
    hide BitReverse, Positions, Sort, Ascending, Keys;
    ghost var keys := Keys(codewords, Positions(lens, sparse, |codewords|));
    sc := new nat[count + 1];
    FillKeys(lens, sparse, codewords, sc);
    Qsort(sc, count);
    SortDistinct(sc[..count], keys);
    sc[count] := 0xffffffff;
    IncreasingPrefix(sc[..count], sc[..]);
  }

  /** The list of keys, before sorting. */
  method FillKeys(lens: seq<nat>, sparse: bool, codewords: seq<nat>, sc: array<nat>)
    requires !sparse ==> |codewords| == |lens|
    requires sc.Length == |Positions(lens, sparse, |codewords|)| + 1
    modifies sc
    ensures sc[..sc.Length - 1] == Keys(codewords, Positions(lens, sparse, |codewords|))
  {
    hide BitReverse, Positions;
    ghost var p := Positions(lens, sparse, |codewords|);
    PositionsMono(lens, sparse, 0, |codewords|);
    var i, k := 0, 0;
    while i < |codewords|
      invariant 0 <= i <= |codewords| && k == |Positions(lens, sparse, i)| <= |p|
      invariant forall t :: 0 <= t < k ==> sc[t] == BitReverse(codewords[p[t]])
    {
      NextPosition(lens, sparse, i, |codewords|);
      if sparse || Included(sparse, lens[i]) {
        sc[k] := BitReverse(codewords[i]);
        k := k + 1;
      }
      i := i + 1;
    }
  }

  /** `qsort` on the first `count` elements. */
  method Qsort(a: array<nat>, count: nat)
    requires count <= a.Length
    modifies a
    ensures Ascending(a[..count]) && multiset(a[..count]) == multiset(old(a[..count]))
    ensures a[count..] == old(a[count..])
  {
    hide Sort, Ascending;
    var s := Sort(a[..count]);
    for x := 0 to count
      invariant a[..x] == s[..x] && a[count..] == old(a[count..])
    {
      a[x] := s[x];
    }
    assert a[..count] == s;
  }

  lemma InMultiset(k: nat, a: seq<nat>, b: seq<nat>)
    requires multiset(a) == multiset(b) && k in a
    ensures k in b
  {
    assert k in multiset(a);
  }

  /** The codes under the sort keys: what the entries of `codewords` stand for. */
  ghost predicate KeysAre(lens: seq<nat>, codes: seq<nat>, sparse: bool, codewords: seq<nat>, values: seq<nat>)
    requires |codes| == |lens|
  {
    if sparse then
      && |values| == |codewords|
      && (forall t :: 0 <= t < |values| ==>
            values[t] < |lens| && Used(lens, values[t]) && BitReverse(codewords[t]) == codes[values[t]])
      && (forall t, u :: 0 <= t < u < |values| ==> values[t] != values[u])
      && (forall i :: 0 <= i < |lens| && Used(lens, i) ==> i in values)
    else
      && |codewords| == |lens|
      && forall i :: 0 <= i < |lens| && Used(lens, i) ==> BitReverse(codewords[i]) == codes[i]
  }

  /** The symbol at position `q` of the unsorted list. */
  function SymbolAt(sparse: bool, values: seq<nat>, q: nat): nat
    requires sparse ==> q < |values|
  {
    if sparse then values[q] else q
  }

  lemma KeyOf(lens: seq<nat>, codes: seq<nat>, sparse: bool, codewords: seq<nat>, values: seq<nat>, t: nat)
    requires |codes| == |lens| && KeysAre(lens, codes, sparse, codewords, values)
    requires t < |Positions(lens, sparse, |codewords|)|
    ensures var p := Positions(lens, sparse, |codewords|);
      var i := SymbolAt(sparse, values, p[t]);
      i < |lens| && Used(lens, i) && Included(sparse, lens[i]) && Keys(codewords, p)[t] == codes[i]
  {
    hide BitReverse;
  }

  lemma KeysDistinct(lens: seq<nat>, codes: seq<nat>, sparse: bool, codewords: seq<nat>, values: seq<nat>)
    requires ValidLengths(lens) && |codes| == |lens| && SpecCode(lens, codes, |lens|)
    requires KeysAre(lens, codes, sparse, codewords, values)
    ensures var k := Keys(codewords, Positions(lens, sparse, |codewords|));
      forall t, u :: 0 <= t < u < |k| ==> k[t] != k[u]
  {
    hide SpecCode, Keys, Positions;
    var p := Positions(lens, sparse, |codewords|);
    var k := Keys(codewords, p);
    forall t, u | 0 <= t < u < |k|
      ensures k[t] != k[u]
    {
      KeyOf(lens, codes, sparse, codewords, values, t);
      KeyOf(lens, codes, sparse, codewords, values, u);
      CodesApart(lens, codes, |lens|, SymbolAt(sparse, values, p[t]), SymbolAt(sparse, values, p[u]));
    }
  }

  /** What the sorting phase and the placing phase leave behind. */
  ghost predicate SortedAndPlaced(lens: seq<nat>, codes: seq<nat>, sparse: bool, codewords: seq<nat>, values: seq<nat>,
                                  sc: seq<nat>, count: nat, sv: seq<nat>, cl: seq<nat>)
    requires |codes| == |lens| && KeysAre(lens, codes, sparse, codewords, values)
  {
    var p := Positions(lens, sparse, |codewords|);
    && count == |p| && |sc| == count + 1 && |sv| == count
    && multiset(sc[..count]) == multiset(Keys(codewords, p))
    && Placed(lens, sparse, values, p, Keys(codewords, p), sc, count, sv, cl, |p|)
  }

  lemma IndexSound(lens: seq<nat>, codes: seq<nat>, sparse: bool, codewords: seq<nat>, values: seq<nat>,
                   sc: seq<nat>, count: nat, sv: seq<nat>, cl: seq<nat>, x: nat)
    requires |codes| == |lens| && KeysAre(lens, codes, sparse, codewords, values)
    requires SortedAndPlaced(lens, codes, sparse, codewords, values, sc, count, sv, cl) && x < count
    ensures sv[x] < |lens| && Used(lens, sv[x]) && Included(sparse, lens[sv[x]]) && sc[x] == codes[sv[x]]
    ensures sparse ==> |cl| == count && cl[x] == lens[sv[x]]
  {
    hide Keys, Positions, BitReverse;
    var p := Positions(lens, sparse, |codewords|);
    var k := Keys(codewords, p);
    assert sc[..count][x] == sc[x];
    InMultiset(sc[x], sc[..count], k);
    var t :| 0 <= t < |k| && k[t] == sc[x];
    KeyOf(lens, codes, sparse, codewords, values, t);
  }

  /** A key is somewhere among the sorted ones. */
  lemma KeyAt(keys: seq<nat>, sorted: seq<nat>, count: nat, t: nat) returns (x: nat)
    requires count <= |sorted| && multiset(sorted[..count]) == multiset(keys) && t < |keys|
    ensures x < count && sorted[x] == keys[t]
  {
    InMultiset(keys[t], keys, sorted[..count]);
    x :| 0 <= x < count && sorted[..count][x] == keys[t];
  }

  lemma PlacedAt(lens: seq<nat>, sparse: bool, values: seq<nat>, p: seq<nat>, keys: seq<nat>,
                 sorted: seq<nat>, count: nat, sv: seq<nat>, cl: seq<nat>, t: nat, x: nat)
    requires sparse ==> forall u :: 0 <= u < |p| ==> p[u] < |values|
    requires sparse ==> forall v :: 0 <= v < |values| ==> values[v] < |lens|
    requires Placed(lens, sparse, values, p, keys, sorted, count, sv, cl, |p|)
    requires t < |p| && x < count && |keys| == |p| && count == |sv| <= |sorted| && sorted[x] == keys[t]
    ensures sv[x] == if sparse then values[p[t]] else p[t]
  {
  }

  lemma IndexComplete(lens: seq<nat>, codes: seq<nat>, sparse: bool, codewords: seq<nat>, values: seq<nat>,
                      sc: seq<nat>, count: nat, sv: seq<nat>, cl: seq<nat>, i: nat)
    requires |codes| == |lens| && KeysAre(lens, codes, sparse, codewords, values)
    requires SortedAndPlaced(lens, codes, sparse, codewords, values, sc, count, sv, cl)
    requires i < |lens| && Used(lens, i) && Included(sparse, lens[i])
    ensures i in sv
  {
    hide Keys, Positions, BitReverse, Placed;
    var p := Positions(lens, sparse, |codewords|);
    var k := Keys(codewords, p);
    var q: nat := i;
    if sparse {
      q :| q < |values| && values[q] == i;
    }
    PositionsComplete(lens, sparse, |codewords|, q);
    var t :| 0 <= t < |p| && p[t] == q;
    var x := KeyAt(k, sc, count, t);
    PlacedAt(lens, sparse, values, p, k, sc, count, sv, cl, t, x);
  }

  /** From sorted keys with their symbols beside them to the index the decoder relies on. */
  lemma PlacedIsIndexed(lens: seq<nat>, codes: seq<nat>, sparse: bool, codewords: seq<nat>, values: seq<nat>,
                        sc: seq<nat>, count: nat, sv: seq<nat>, cl: seq<nat>)
    requires |codes| == |lens| && KeysAre(lens, codes, sparse, codewords, values)
    requires |sc| == count + 1 && sc[count] == 0xffffffff && Increasing(sc, count)
    requires SortedAndPlaced(lens, codes, sparse, codewords, values, sc, count, sv, cl)
    ensures Indexed(lens, codes, sparse, count, sc, sv)
    ensures sparse ==> |cl| == count && forall x :: 0 <= x < count ==> sv[x] < |lens| && cl[x] == lens[sv[x]]
  {
    assert |sv| == count && (sparse ==> |cl| == count);
    hide SortedAndPlaced, KeysAre;
    forall x | 0 <= x < count
      ensures sv[x] < |lens| && Used(lens, sv[x]) && Included(sparse, lens[sv[x]]) && sc[x] == codes[sv[x]]
      ensures sparse ==> cl[x] == lens[sv[x]]
    {
      IndexSound(lens, codes, sparse, codewords, values, sc, count, sv, cl, x);
    }
    forall i | 0 <= i < |lens| && Used(lens, i) && Included(sparse, lens[i])
      ensures i in sv
    {
      IndexComplete(lens, codes, sparse, codewords, values, sc, count, sv, cl, i);
    }
  }
}
