/** `compute_codewords`: the free-leaf construction on its arrays. */
module VorbisCodewords {
  import opened Bits
  import opened Words
  import opened VorbisTree
  import opened VorbisMatch

  /** The used entries among the first `n`, in order. */
  function Symbols(lens: seq<nat>, n: nat): (s: seq<nat>)
    requires n <= |lens|
    ensures |s| <= n
    ensures forall t :: 0 <= t < |s| ==> s[t] < n && Used(lens, s[t])
  {
    if n == 0 then [] else Symbols(lens, n - 1) + if Used(lens, n - 1) then [n - 1] else []
  }

  lemma {:induction false} SymbolsMono(lens: seq<nat>, m: nat, n: nat)
    requires m <= n <= |lens|
    ensures |Symbols(lens, m)| <= |Symbols(lens, n)|
  {
    if m < n {
      SymbolsMono(lens, m, n - 1);
    }
  }

  /** What the arrays hold once the first `n` entries are done: one slot per entry in a dense book,
      the used entries packed together in a sparse one. */
  ghost predicate Stored(lens: seq<nat>, codes: seq<nat>, n: nat, sparse: bool,
                         codewords: seq<nat>, lengths: seq<nat>, values: seq<nat>)
    requires n <= |lens| && n <= |codes|
  {
    if sparse then
      var s := Symbols(lens, n);
      && |s| <= |codewords| == |lengths| == |values|
      && forall t :: 0 <= t < |s| ==>
           values[t] == s[t] && codewords[t] == BitReverse(codes[s[t]]) && lengths[t] == lens[s[t]]
    else
      && n <= |codewords|
      && forall i :: 0 <= i < n && Used(lens, i) ==> codewords[i] == BitReverse(codes[i])
  }

  /** `add_entry` */
  method AddEntry(sparse: bool, codewords: array<nat>, lengths: array<nat>, values: array<nat>,
                  code: nat, symbol: nat, count: nat, len: nat)
    requires codewords != lengths && codewords != values && lengths != values
    requires if sparse then count < codewords.Length == lengths.Length == values.Length else symbol < codewords.Length
    modifies codewords, lengths, values
    ensures codewords[..] == old(codewords[..])[(if sparse then count else symbol) := code]
    ensures lengths[..] == if sparse then old(lengths[..])[count := len] else old(lengths[..])
    ensures values[..] == if sparse then old(values[..])[count := symbol] else old(values[..])
  {
    if !sparse {
      codewords[symbol] := code;
    } else {
      codewords[count] := code;
      lengths[count] := len;
      values[count] := symbol;
    }
  }

  lemma StoredEntry(lens: seq<nat>, codes: seq<nat>, n: nat, sparse: bool,
                    cw: seq<nat>, ln: seq<nat>, vl: seq<nat>, c: nat)
    requires n < |lens| && |codes| == n && Used(lens, n) && Stored(lens, codes, n, sparse, cw, ln, vl)
    requires if sparse then |Symbols(lens, n)| < |cw| else n < |cw|
    ensures var m := |Symbols(lens, n)|;
      Stored(lens, codes + [c], n + 1, sparse, cw[(if sparse then m else n) := BitReverse(c)],
             if sparse then ln[m := lens[n]] else ln, if sparse then vl[m := n] else vl)
  {
    hide BitReverse;
    if sparse {
      var s := Symbols(lens, n);
      assert Symbols(lens, n + 1) == s + [n];
    }
  }

  lemma StoredSkip(lens: seq<nat>, codes: seq<nat>, n: nat, sparse: bool,
                   cw: seq<nat>, ln: seq<nat>, vl: seq<nat>)
    requires n < |lens| && |codes| == n && !Used(lens, n) && Stored(lens, codes, n, sparse, cw, ln, vl)
    requires !sparse ==> n < |cw|
    ensures Stored(lens, codes + [0], n + 1, sparse, cw, ln, vl)
  {
    hide BitReverse;
    assert Symbols(lens, n + 1) == Symbols(lens, n);
  }

  /** The propagation loop: the split leaf's slots from `d` up to `z + 1` are filled in. */
  method Propagate(available: array<nat>, res: nat, z: nat, d: nat)
    requires available.Length == 32 && 1 <= z <= d < 32
    requires z == Deepest(available[..], d) && available[z] == res && res != 0
    modifies available
    ensures available[..] == Split(old(available[..]), z, d)
  {
    available[z] := 0;
    if z != d {
      var y := d;
      while y > z
        invariant z <= y <= d
        invariant forall w :: 0 <= w < 32 ==>
          available[w] == if w == z then 0 else if y < w <= d then res + Size(w) else old(available[w])
      {
        assert available[y] == 0;
        available[y] := res + Size(y);
        y := y - 1;
      }
    }
  }

  /** One round of the main loop for a used entry: the deepest usable leaf is found, given away and
      its remaining leaves handed down. */
  method TakeLeaf(lens: seq<nat>, sparse: bool, codewords: array<nat>, lengths: array<nat>, values: array<nat>,
                  available: array<nat>, i: nat, m: nat, ghost codes: seq<nat>) returns (ok: bool, ghost res: nat)
    requires ValidLengths(lens) && i < |lens| && Used(lens, i) && m == |Symbols(lens, i)|
    requires codewords != lengths && codewords != values && lengths != values
    requires available != codewords && available != lengths && available != values
    requires sparse ==> codewords.Length == lengths.Length == values.Length == |Symbols(lens, |lens|)|
    requires !sparse ==> codewords.Length == |lens|
    requires available.Length == 32 && Building(lens, codes, i, available[..])
    requires Stored(lens, codes, i, sparse, codewords[..], lengths[..], values[..])
    modifies codewords, lengths, values, available
    ensures !ok ==> Kraft(lens, i + 1) > WORD
    ensures ok ==> Building(lens, codes + [res], i + 1, available[..])
    ensures ok ==> Stored(lens, codes + [res], i + 1, sparse, codewords[..], lengths[..], values[..])
    ensures !sparse ==> lengths[..] == old(lengths[..])
  {
    hide Slots, FreeSum, Kraft, SpecCode, BitReverse, Stored;
    ghost var av, cw, ln, vl := available[..], codewords[..], lengths[..], values[..];
    var z := lens[i];
    while z > 0 && available[z] == 0
      invariant 0 <= z <= lens[i] && Deepest(av, lens[i]) == Deepest(av, z)
    {
      z := z - 1;
    }
    if z == 0 {
      NoLeafOverflows(lens, codes, i, av);
      return false, 0;
    }
    res := available[z];
    var code := BitReverse(available[z]);
    TakeEntry(lens, codes, i, av);
    RoomFor(lens, i);
    StoredEntry(lens, codes, i, sparse, cw, ln, vl, res);
    AddEntry(sparse, codewords, lengths, values, code, i, m, lens[i]);
    Propagate(available, available[z], z, lens[i]);
    return true, res;
  }

  method ComputeCodewords(lens: seq<nat>, sparse: bool, codewords: array<nat>, lengths: array<nat>, values: array<nat>)
    returns (ok: bool, ghost codes: seq<nat>)
    requires ValidLengths(lens)
    requires codewords != lengths && codewords != values && lengths != values
    requires sparse ==> codewords.Length == lengths.Length == values.Length == |Symbols(lens, |lens|)|
    requires !sparse ==> codewords.Length == |lens|
    modifies codewords, lengths, values
    ensures ok <==> Kraft(lens, |lens|) <= WORD
    ensures ok ==> SpecCode(lens, codes, |lens|) && |codes| == |lens|
    ensures ok ==> Stored(lens, codes, |lens|, sparse, codewords[..], lengths[..], values[..])
    ensures !sparse ==> lengths[..] == old(lengths[..])
  {
    hide Slots, FreeSum, Kraft, SpecCode, BitReverse, Stored;
    var n := |lens|;
    var available := new nat[32](_ => 0);
    var k: nat := 0;
    while k < n && lens[k] == NO_CODE
      invariant k <= n && forall j :: 0 <= j < k ==> !Used(lens, j)
    {
      k := k + 1;
    }
    if k == n {
      KraftUnused(lens, n);
      codes := seq(n, _ => 0);
      EmptyCode(lens, codes, n, sparse, codewords[..], lengths[..], values[..]);
      return true, codes;
    }
    codes := seq(k, _ => 0);
    EmptyCode(lens, codes, k, sparse, codewords[..], lengths[..], values[..]);
    RoomFor(lens, k);
    StoredEntry(lens, codes, k, sparse, codewords[..], lengths[..], values[..], 0);
    ReverseZero();
    AddEntry(sparse, codewords, lengths, values, 0, k, 0, lens[k]);
    codes := codes + [0];
    var m := 1;
    var i := 1;
    while i <= lens[k]
      modifies available
      invariant 1 <= i <= lens[k] + 1
      invariant Stored(lens, codes, k + 1, sparse, codewords[..], lengths[..], values[..])
      invariant !sparse ==> lengths[..] == old(lengths[..])
      invariant available[..] == FirstSlots(i - 1)
    {
      available[i] := Size(i);
      i := i + 1;
    }
    StartBuilding(lens, k);
    assert codes == seq(k + 1, _ => 0);
    i := k + 1;
    while i < n
      invariant k + 1 <= i <= n
      invariant m == |Symbols(lens, i)|
      invariant Building(lens, codes, i, available[..])
      invariant Stored(lens, codes, i, sparse, codewords[..], lengths[..], values[..])
      invariant !sparse ==> lengths[..] == old(lengths[..])
    {
      if lens[i] == NO_CODE {
        SkipEntry(lens, codes, i, available[..]);
        StoredSkip(lens, codes, i, sparse, codewords[..], lengths[..], values[..]);
        codes := codes + [0];
      } else {
        ghost var res;
        ok, res := TakeLeaf(lens, sparse, codewords, lengths, values, available, i, m, codes);
        if !ok {
          KraftMono(lens, i + 1, n);
          return false, codes;
        }
        m := m + 1;
        codes := codes + [res];
      }
      i := i + 1;
    }
    BuildingFits(lens, codes, available[..]);
    return true, codes;
  }

  lemma {:induction false} EmptyCode(lens: seq<nat>, codes: seq<nat>, n: nat, sparse: bool,
                                     cw: seq<nat>, ln: seq<nat>, vl: seq<nat>)
    requires n <= |lens| && n == |codes| && ValidLengths(lens)
    requires forall j :: 0 <= j < n ==> !Used(lens, j)
    requires if sparse then |cw| == |ln| == |vl| else n <= |cw|
    ensures Symbols(lens, n) == [] && SpecCode(lens, codes, n) && Stored(lens, codes, n, sparse, cw, ln, vl)
  {
    if n > 0 {
      EmptyCode(lens, codes[..n - 1], n - 1, sparse, cw, ln, vl);
    }
  }

  lemma RoomFor(lens: seq<nat>, i: nat)
    requires i < |lens| && Used(lens, i)
    ensures Symbols(lens, i + 1) == Symbols(lens, i) + [i]
    ensures |Symbols(lens, i)| < |Symbols(lens, |lens|)|
  {
    SymbolsMono(lens, i + 1, |lens|);
  }

  lemma ReverseZero()
    ensures BitReverse(0) == 0
  {
    hide BitReverse;
    ZerosValue(32);
    PosZeros(32, 32);
    BitReverseIsPos(Zeros(32));
  }
}
