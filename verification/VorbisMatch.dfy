/** Codewords as they appear in the packet.

    The decoder sees the next bits as a number with the first bit least significant, while codes
    are ordered with the first bit most significant.  The lemmas here let every search in the
    decoder (masking, table lookup, binary search) be judged by one test: does the codeword's
    interval hold the bit-reversed input? */
module VorbisMatch {
  import opened Bits
  import opened Words
  import opened VorbisTree

  /** The `d` leading bits of code `c`, in the order they are written. */
  function TopBits(c: nat, w: nat, d: nat): (b: seq<bool>)
    requires d <= w && c < Pow2(w)
    ensures |b| == d
  {
    if d == 0 then [] else
      var top := c >= Pow2(w - 1);
      [top] + TopBits(if top then c - Pow2(w - 1) else c, w - 1, d - 1)
  }

  function CodeBits(c: nat, d: nat): (b: seq<bool>)
    requires d <= 32 && c < WORD
    ensures |b| == d
  {
    WordSize();
    TopBits(c, 32, d)
  }

  /** The codeword of entry `i` as written to the packet. */
  function Codeword(lens: seq<nat>, codes: seq<nat>, i: nat): (b: seq<bool>)
    requires i < |lens| && i < |codes| && ValidLengths(lens) && Used(lens, i) && codes[i] < WORD
    ensures |b| == lens[i]
  {
    CodeBits(codes[i], lens[i])
  }

  lemma {:induction false} MultipleSmall(c: nat, n: nat)
    requires Multiple(c, n) && c < Pow2(n)
    ensures c == 0
  {
    if n > 0 {
      MultipleSmall(c / 2, n - 1);
    }
  }

  lemma HalfDiff(a: nat, p: nat)
    requires 2 * p <= a && a % 2 == 0
    ensures (a - 2 * p) % 2 == 0 && (a - 2 * p) / 2 == a / 2 - p
  {
  }

  lemma {:induction false} MultipleDiff(a: nat, m: nat, n: nat)
    requires n <= m && Multiple(a, n) && Pow2(m) <= a
    ensures Multiple(a - Pow2(m), n)
  {
    if n > 0 {
      var p := Pow2(m - 1);
      assert Pow2(m) == 2 * p;
      MultipleDiff(a / 2, m - 1, n - 1);
      HalfDiff(a, p);
    }
  }

  lemma {:induction false} TopBitsPos(c: nat, w: nat, d: nat)
    requires d <= w && c < Pow2(w) && Multiple(c, w - d)
    ensures Pos(TopBits(c, w, d), w) == c
  {
    if d == 0 {
      MultipleSmall(c, w);
    } else if c >= Pow2(w - 1) {
      MultipleDiff(c, w - 1, w - d);
      TopBitsPos(c - Pow2(w - 1), w - 1, d - 1);
    } else {
      TopBitsPos(c, w - 1, d - 1);
    }
  }

  lemma CodeBitsPos(c: nat, d: nat)
    requires d <= 32 && c < WORD && Aligned(c, d)
    ensures Pos(CodeBits(c, d), 32) == c
  {
    WordSize();
    TopBitsPos(c, 32, d);
  }

  /** The stored form of a code is its codeword read with the first bit least significant. */
  lemma StoredCode(c: nat, d: nat)
    requires d <= 32 && c < WORD && Aligned(c, d)
    ensures BitReverse(c) == FromBits(CodeBits(c, d))
    ensures BitReverse(BitReverse(c)) == c
  {
    hide BitReverse, CodeBits, Pow2, FromBits, ToBits, Pos, Aligned;
    WordSize();
    var k := CodeBits(c, d);
    CodeBitsPos(c, d);
    PosConcat(k, Zeros(32 - d), 32);
    PosZeros(32 - d, 32 - d);
    var w := k + Zeros(32 - d);
    BitReverseIsPos(w);
    FromBitsConcat(k, Zeros(32 - d));
    ZerosValue(32 - d);
    ZeroProduct(Pow2(d));
  }

  lemma FromBitsInjective(a: seq<bool>, b: seq<bool>)
    requires |a| == |b| && FromBits(a) == FromBits(b)
    ensures a == b
  {
    FromToBits(a);
    FromToBits(b);
  }

  /** Masking the accumulator finds a codeword exactly when it is a prefix of the input bits. */
  lemma MaskIffPrefix(w: word, c: nat, d: nat)
    requires d <= 32 && c < WORD && Aligned(c, d)
    ensures FromBits(w) % Pow2(d) == BitReverse(c) <==> CodeBits(c, d) <= w
  {
    hide BitReverse, CodeBits, FromBits, Pow2;
    StoredCode(c, d);
    FromBitsSplit(w, d);
    var k := CodeBits(c, d);
    if FromBits(w[..d]) == FromBits(k) {
      FromBitsInjective(w[..d], k);
    }
    assert k <= w <==> k == w[..d];
  }

  /** ... and exactly when the codeword's block holds the bit-reversed accumulator. */
  lemma MaskIffInterval(acc: nat, c: nat, d: nat)
    requires acc < WORD && d <= 32 && c < WORD && Aligned(c, d)
    ensures acc % Pow2(d) == BitReverse(c) <==> c <= BitReverse(acc) < c + Size(d)
  {
    hide BitReverse, CodeBits;
    WordSize();
    var w := ToBits(acc, 32);
    ToFromBits(acc, 32);
    MaskIffPrefix(w, c, d);
    BitReverseIsPos(w);
    CodeBitsPos(c, d);
    PrefixIffInterval(CodeBits(c, d), w, 32);
  }

  /** The codewords of a code built to the specification are prefix-free. */
  lemma PrefixFree(lens: seq<nat>, codes: seq<nat>, i: nat, j: nat, b: seq<bool>)
    requires ValidLengths(lens) && SpecCode(lens, codes, |lens|)
    requires i < |lens| && j < |lens| && Used(lens, i) && Used(lens, j)
    requires Codeword(lens, codes, i) <= b && Codeword(lens, codes, j) <= b
    ensures i == j
  {
    hide CodeBits, Lowest, Pos, Pad, Pow2, Aligned;
    BlockFacts(lens, codes, i);
    BlockFacts(lens, codes, j);
    var w := Pad(b, 32);
    assert Codeword(lens, codes, i) <= w && Codeword(lens, codes, j) <= w;
    CodeBitsPos(codes[i], lens[i]);
    CodeBitsPos(codes[j], lens[j]);
    PrefixIffInterval(Codeword(lens, codes, i), w, 32);
    PrefixIffInterval(Codeword(lens, codes, j), w, 32);
    if i != j {
      CodesApart(lens, codes, |lens|, i, j);
    }
  }

  lemma BlockFacts(lens: seq<nat>, codes: seq<nat>, i: nat)
    requires ValidLengths(lens) && i < |lens| && i < |codes| && Used(lens, i) && Lowest(lens, codes, i)
    ensures 1 <= lens[i] < 32 && Aligned(codes[i], lens[i]) && codes[i] + Size(lens[i]) <= WORD
  {
  }
}
