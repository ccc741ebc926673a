/** The tree of a Huffman table fits its array: there are never more pairs of cells than symbols. */
module InflateNodes {
  import opened Bits
  import opened InflateCode
  import opened InflateTables

  lemma {:induction false} SubsetSize<T>(a: set<T>, b: set<T>)
    requires a <= b
    ensures |a| <= |b|
  {
    if a != {} {
      var x :| x in a;
      SubsetSize(a - {x}, b - {x});
    }
  }

  /** The numbers from `lo` below `hi` as bit strings. */
  function Strings(lo: nat, hi: nat, d: nat): (s: set<seq<bool>>)
    requires lo <= hi
    decreases hi - lo
  {
    if lo == hi then {} else Strings(lo, hi - 1, d) + {MsbBits(hi - 1, d)}
  }

  lemma {:induction false} StringsSize(lo: nat, hi: nat, d: nat)
    requires lo <= hi
    ensures |Strings(lo, hi, d)| <= hi - lo
    decreases hi - lo
  {
    if lo < hi {
      StringsSize(lo, hi - 1, d);
    }
  }

  lemma {:induction false} InStrings(lo: nat, hi: nat, d: nat, v: nat)
    requires lo <= v < hi
    ensures MsbBits(v, d) in Strings(lo, hi, d)
    decreases hi - lo
  {
    if v < hi - 1 {
      InStrings(lo, hi - 1, d, v);
    }
  }

  /** The paths of length `d` among the first `n`. */
  function AtDepth(paths: seq<seq<bool>>, n: nat, d: nat): (s: set<seq<bool>>)
    requires n <= |paths|
    ensures forall p :: p in s <==> p in paths[..n] && |p| == d
  {
    if n == 0 then {}
    else
      assert paths[..n] == paths[..n - 1] + [paths[n - 1]];
      AtDepth(paths, n - 1, d) + if |paths[n - 1]| == d then {paths[n - 1]} else {}
  }

  ghost predicate NoPathTwice(paths: seq<seq<bool>>) {
    forall m, n :: 0 <= m < n < |paths| ==> paths[m] != paths[n]
  }

  lemma {:induction false} DepthsAddUp(paths: seq<seq<bool>>, n: nat)
    requires n <= |paths| && NoPathTwice(paths) && forall m :: 0 <= m < |paths| ==> 10 <= |paths[m]| < 15
    ensures n == |AtDepth(paths, n, 10)| + |AtDepth(paths, n, 11)| + |AtDepth(paths, n, 12)|
      + |AtDepth(paths, n, 13)| + |AtDepth(paths, n, 14)|
  {
    if n > 0 {
      DepthsAddUp(paths, n - 1);
      var p := paths[n - 1];
      assert p !in paths[..n - 1];
      AddPath(paths, n, 10);
      AddPath(paths, n, 11);
      AddPath(paths, n, 12);
      AddPath(paths, n, 13);
      AddPath(paths, n, 14);
    }
  }

  lemma AddPath(paths: seq<seq<bool>>, n: nat, d: nat)
    requires 0 < n <= |paths| && paths[n - 1] !in paths[..n - 1]
    ensures |AtDepth(paths, n, d)| == |AtDepth(paths, n - 1, d)| + if |paths[n - 1]| == d then 1 else 0
  {
  }

  ghost predicate AllInner(sizes: seq<nat>, paths: seq<seq<bool>>) {
    forall m :: 0 <= m < |paths| ==> Inner(sizes, |sizes|, paths[m])
  }

  lemma PathPast(sizes: seq<nat>, paths: seq<seq<bool>>, p: seq<bool>, d: nat)
    requires Lengths(sizes) && NextCode(sizes, 16) <= 65536 && 1 <= d <= 15 && AllInner(sizes, paths)
    requires p in AtDepth(paths, |paths|, d) && After(sizes, d) <= Pow2(d)
    ensures p in Strings(After(sizes, d), Pow2(d), d)
  {
    hide NextCode, After, MsbBits, Strings, InnerOf, Pow2;
    var m :| 0 <= m < |paths| && paths[m] == p;
    var s :| 0 <= s < |sizes| && InnerOf(sizes, s, p);
    var v := InnerValue(sizes, s, p);
    InStrings(After(sizes, d), Pow2(d), d, v);
  }

  lemma InnerValue(sizes: seq<nat>, s: nat, p: seq<bool>) returns (v: nat)
    requires Lengths(sizes) && NextCode(sizes, 16) <= 65536 && s < |sizes| && |p| >= 1 && InnerOf(sizes, s, p)
    ensures After(sizes, |p|) <= v < Pow2(|p|) && p == MsbBits(v, |p|)
  {
    hide NextCode, After, MsbBits, CodeValue, Pow2, Codeword;
    PrefixPast(sizes, s, |p|);
    v := CodeValue(sizes, s) / Pow2(sizes[s] - |p|);
  }

  /** At one depth: no more paths than numbers past the codes of that length. */
  lemma DepthBound(sizes: seq<nat>, paths: seq<seq<bool>>, d: nat)
    requires Lengths(sizes) && NextCode(sizes, 16) <= 65536 && 1 <= d <= 15 && AllInner(sizes, paths)
    ensures After(sizes, d) <= Pow2(d) && |AtDepth(paths, |paths|, d)| <= Pow2(d) - After(sizes, d)
  {
    hide NextCode, After, Strings, Inner;
    Fits(sizes, d);
    var all := Strings(After(sizes, d), Pow2(d), d);
    forall p | p in AtDepth(paths, |paths|, d)
      ensures p in all
    {
      PathPast(sizes, paths, p, d);
    }
    SubsetSize(AtDepth(paths, |paths|, d), all);
    StringsSize(After(sizes, d), Pow2(d), d);
  }

  /** A single code has one place at each depth. */
  lemma DepthOne(sizes: seq<nat>, paths: seq<seq<bool>>, d: nat)
    requires Used(sizes, |sizes|) <= 1 && AllInner(sizes, paths)
    ensures |AtDepth(paths, |paths|, d)| <= 1
  {
    hide Codeword;
    var a := AtDepth(paths, |paths|, d);
    if a != {} {
      var p :| p in a;
      forall q | q in a
        ensures q == p
      {
        OnePlace(sizes, paths, d, p, q);
      }
      SubsetSize(a, {p});
    }
  }

  lemma OnePlace(sizes: seq<nat>, paths: seq<seq<bool>>, d: nat, p: seq<bool>, q: seq<bool>)
    requires Used(sizes, |sizes|) <= 1 && AllInner(sizes, paths)
    requires p in AtDepth(paths, |paths|, d) && q in AtDepth(paths, |paths|, d)
    ensures p == q
  {
    hide Codeword;
    var m :| 0 <= m < |paths| && paths[m] == p;
    var n :| 0 <= n < |paths| && paths[n] == q;
    var s :| 0 <= s < |sizes| && InnerOf(sizes, s, p);
    var t :| 0 <= t < |sizes| && InnerOf(sizes, t, q);
    if s != t {
      SingleUse(sizes, |sizes|, if s < t then s else t, if s < t then t else s);
    }
    assert p == Codeword(sizes, s)[..d] && q == Codeword(sizes, t)[..d];
  }

  lemma {:induction false} CountsFit(sizes: seq<nat>, n: nat)
    requires n <= |sizes|
    ensures Count(sizes, n, 11) + Count(sizes, n, 12) + Count(sizes, n, 13) + Count(sizes, n, 14)
      + Count(sizes, n, 15) <= n
  {
    if n > 0 {
      CountsFit(sizes, n - 1);
    }
  }

  /** What is left at each depth, from the code lengths. */
  lemma Leftover(sizes: seq<nat>, d: nat)
    requires 1 <= d
    ensures Pow2(d + 1) - After(sizes, d + 1) == 2 * (Pow2(d) - After(sizes, d)) - Count(sizes, |sizes|, d + 1)
  {
    hide Count;
  }

  /** The number of pairs is bounded by the number of symbols, or by five for a single code. */
  lemma NodeBound(sizes: seq<nat>, paths: seq<seq<bool>>)
    requires Accepted(sizes) && NoPathTwice(paths) && AllInner(sizes, paths)
    requires forall m :: 0 <= m < |paths| ==> 10 <= |paths[m]| < 15
    ensures |paths| <= |sizes| || |paths| <= 5
  {
    hide NextCode, After, Inner, AtDepth;
    AcceptedFits(sizes);
    DepthsAddUp(paths, |paths|);
    if Used(sizes, |sizes|) <= 1 {
      DepthOne(sizes, paths, 10);
      DepthOne(sizes, paths, 11);
      DepthOne(sizes, paths, 12);
      DepthOne(sizes, paths, 13);
      DepthOne(sizes, paths, 14);
    } else {
      DepthBound(sizes, paths, 10);
      DepthBound(sizes, paths, 11);
      DepthBound(sizes, paths, 12);
      DepthBound(sizes, paths, 13);
      DepthBound(sizes, paths, 14);
      Leftover(sizes, 10);
      Leftover(sizes, 11);
      Leftover(sizes, 12);
      Leftover(sizes, 13);
      Leftover(sizes, 14);
      CompleteEnds(sizes);
      CountsFit(sizes, |sizes|);
    }
  }
}
