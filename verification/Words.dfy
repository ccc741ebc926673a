/** 32-bit words as bit strings, and the masked-swap bit reversal built on them. */
module Words {
  import opened Bits

  type word = b: seq<bool> | |b| == 32 witness Zeros(32)

  function And(a: word, b: word): word {
    seq(32, i requires 0 <= i < 32 => a[i] && b[i])
  }

  function Or(a: word, b: word): word {
    seq(32, i requires 0 <= i < 32 => a[i] || b[i])
  }

  function ShiftRight(a: word, k: nat): word {
    seq(32, i requires 0 <= i < 32 => i + k < 32 && a[i + k])
  }

  function ShiftLeft(a: word, k: nat): word {
    seq(32, i requires 0 <= i < 32 => k <= i && a[i - k])
  }

  /** The mask whose bytes are `low`, `high`, `low`, `high`: 0xFF00FF00 is `Mask(0x00, 0xFF)`. */
  function Mask(low: byte, high: byte): word {
    ToBits(low, 8) + ToBits(high, 8) + ToBits(low, 8) + ToBits(high, 8)
  }

  /** One line of the reversal: the bits under `high` move down by `k`, those under `low` up. */
  function Swap(a: word, high: word, low: word, k: nat): word {
    Or(ShiftRight(And(a, high), k), ShiftLeft(And(a, low), k))
  }

  function ReverseWord(w: word): word {
    var a := Swap(w, Mask(0xAA, 0xAA), Mask(0x55, 0x55), 1);
    var b := Swap(a, Mask(0xCC, 0xCC), Mask(0x33, 0x33), 2);
    var c := Swap(b, Mask(0xF0, 0xF0), Mask(0x0F, 0x0F), 4);
    var d := Swap(c, Mask(0x00, 0xFF), Mask(0xFF, 0x00), 8);
    Or(ShiftRight(d, 16), ShiftLeft(d, 16))
  }

  function BitReverse(n: nat): nat {
    FromBits(ReverseWord(ToBits(n, 32)))
  }

  /** Bit `i` lies in the upper half of its group of 2k bits. */
  ghost predicate Upper(i: nat, k: nat)
    requires k > 0
  {
    i % (2 * k) >= k
  }

  /** The mask that picks the upper (`high`) or lower half of every group of 2k bits. */
  ghost predicate Halves(m: word, k: nat, high: bool)
    requires k > 0
  {
    forall i :: 0 <= i < 32 ==> m[i] == (Upper(i, k) == high)
  }

  /** Where bit `i` comes from when neighbouring groups of `k` bits change places. */
  function Partner(i: nat, k: nat): int
    requires k > 0
  {
    if i % (2 * k) < k then i + k else i - k
  }

  /** Partners lie in opposite halves, on either side. */
  ghost predicate Opposite(i: nat, k: nat)
    requires k > 0
  {
    if i % (2 * k) < k then
      i + k < 32 && (i + k) % (2 * k) >= k && (k <= i ==> (i - k) % (2 * k) >= k)
    else
      k <= i && (i - k) % (2 * k) < k && (i + k) % (2 * k) < k
  }

  lemma SwapMoves(a: word, high: word, low: word, k: nat, i: nat)
    requires 0 < k && i < 32 && Opposite(i, k)
    requires Halves(high, k, true) && Halves(low, k, false)
    ensures 0 <= Partner(i, k) < 32 && Swap(a, high, low, k)[i] == a[Partner(i, k)]
  {
    SwapAt(a, high, low, k, i);
  }

  lemma Across1(i: nat)
    requires i < 32
    ensures Opposite(i, 1)
  {
  }

  lemma Across2(i: nat)
    requires i < 32
    ensures Opposite(i, 2)
  {
  }

  lemma Across4(i: nat)
    requires i < 32
    ensures Opposite(i, 4)
  {
  }

  lemma Across8(i: nat)
    requires i < 32
    ensures Opposite(i, 8)
  {
  }

  lemma SwapAt(a: word, high: word, low: word, k: nat, i: nat)
    requires i < 32
    ensures Swap(a, high, low, k)[i]
         == ((i + k < 32 && a[i + k] && high[i + k]) || (k <= i && a[i - k] && low[i - k]))
  {
  }

  /** The eight bits of a mask byte that covers word bits `from`, `from` + 1, ... */
  ghost predicate MaskByte(b: seq<bool>, from: nat, k: nat, up: bool)
    requires |b| == 8 && k > 0
  {
    && b[0] == (Upper(from, k) == up) && b[1] == (Upper(from + 1, k) == up)
    && b[2] == (Upper(from + 2, k) == up) && b[3] == (Upper(from + 3, k) == up)
    && b[4] == (Upper(from + 4, k) == up) && b[5] == (Upper(from + 5, k) == up)
    && b[6] == (Upper(from + 6, k) == up) && b[7] == (Upper(from + 7, k) == up)
  }

  lemma MaskByteAt(b: seq<bool>, from: nat, k: nat, up: bool, i: nat)
    requires |b| == 8 && k > 0 && MaskByte(b, from, k, up) && i < 8
    ensures b[i] == (Upper(from + i, k) == up)
  {
    hide Upper;
  }

  lemma MaskHalves(low: byte, high: byte, k: nat, up: bool)
    requires k > 0 && MaskByte(ToBits(low, 8), 0, k, up) && MaskByte(ToBits(high, 8), 8, k, up)
    requires forall i :: 16 <= i < 32 ==> Upper(i, k) == Upper(i - 16, k)
    ensures Halves(Mask(low, high), k, up)
  {
    hide Upper, ToBits, MaskByte;
    var l, h := ToBits(low, 8), ToBits(high, 8);
    FourParts(l, h);
    forall i | 0 <= i < 32
      ensures Mask(low, high)[i] == (Upper(i, k) == up)
    {
      var j := if i < 16 then i else i - 16;
      assert Upper(i, k) == Upper(j, k);
      if j < 8 {
        MaskByteAt(l, 0, k, up, j);
      } else {
        MaskByteAt(h, 8, k, up, j - 8);
      }
    }
  }

  lemma FourParts(l: seq<bool>, h: seq<bool>)
    requires |l| == |h| == 8
    ensures forall i :: 0 <= i < 8 ==> (l + h + l + h)[i] == l[i]
    ensures forall i :: 8 <= i < 16 ==> (l + h + l + h)[i] == h[i - 8]
    ensures forall i :: 16 <= i < 24 ==> (l + h + l + h)[i] == l[i - 16]
    ensures forall i :: 24 <= i < 32 ==> (l + h + l + h)[i] == h[i - 24]
  {
  }

  lemma HighMask1()
    ensures Halves(Mask(0xAA, 0xAA), 1, true)
  {
    MaskHalves(0xAA, 0xAA, 1, true);
  }

  lemma LowMask1()
    ensures Halves(Mask(0x55, 0x55), 1, false)
  {
    MaskHalves(0x55, 0x55, 1, false);
  }

  lemma HighMask2()
    ensures Halves(Mask(0xCC, 0xCC), 2, true)
  {
    MaskHalves(0xCC, 0xCC, 2, true);
  }

  lemma LowMask2()
    ensures Halves(Mask(0x33, 0x33), 2, false)
  {
    MaskHalves(0x33, 0x33, 2, false);
  }

  lemma HighMask4()
    ensures Halves(Mask(0xF0, 0xF0), 4, true)
  {
    MaskHalves(0xF0, 0xF0, 4, true);
  }

  lemma LowMask4()
    ensures Halves(Mask(0x0F, 0x0F), 4, false)
  {
    MaskHalves(0x0F, 0x0F, 4, false);
  }

  lemma HighMask8()
    ensures Halves(Mask(0x00, 0xFF), 8, true)
  {
    MaskHalves(0x00, 0xFF, 8, true);
  }

  lemma LowMask8()
    ensures Halves(Mask(0xFF, 0x00), 8, false)
  {
    MaskHalves(0xFF, 0x00, 8, false);
  }

  lemma Stage1(w: word, i: nat)
    requires i < 32
    ensures 0 <= Partner(i, 1) < 32 && Swap(w, Mask(0xAA, 0xAA), Mask(0x55, 0x55), 1)[i] == w[Partner(i, 1)]
  {
    HighMask1();
    LowMask1();
    Across1(i);
    SwapMoves(w, Mask(0xAA, 0xAA), Mask(0x55, 0x55), 1, i);
  }

  lemma Stage2(w: word, i: nat)
    requires i < 32
    ensures 0 <= Partner(i, 2) < 32 && Swap(w, Mask(0xCC, 0xCC), Mask(0x33, 0x33), 2)[i] == w[Partner(i, 2)]
  {
    HighMask2();
    LowMask2();
    Across2(i);
    SwapMoves(w, Mask(0xCC, 0xCC), Mask(0x33, 0x33), 2, i);
  }

  lemma Stage4(w: word, i: nat)
    requires i < 32
    ensures 0 <= Partner(i, 4) < 32 && Swap(w, Mask(0xF0, 0xF0), Mask(0x0F, 0x0F), 4)[i] == w[Partner(i, 4)]
  {
    HighMask4();
    LowMask4();
    Across4(i);
    SwapMoves(w, Mask(0xF0, 0xF0), Mask(0x0F, 0x0F), 4, i);
  }

  lemma Stage8(w: word, i: nat)
    requires i < 32
    ensures 0 <= Partner(i, 8) < 32 && Swap(w, Mask(0x00, 0xFF), Mask(0xFF, 0x00), 8)[i] == w[Partner(i, 8)]
  {
    HighMask8();
    LowMask8();
    Across8(i);
    SwapMoves(w, Mask(0x00, 0xFF), Mask(0xFF, 0x00), 8, i);
  }

  /** `x` has the bits of `i` below the place of `k`, and the opposite ones from there on. */
  predicate Turned(x: int, i: nat, k: nat)
    requires k > 0
  {
    0 <= x < 32 && x / k == 32 / k - 1 - i / k && x % k == i % k
  }

  lemma Turn8(x: int, i: nat)
    requires i < 32 && Turned(x, i, 16)
    ensures Turned(Partner(x, 8), i, 8)
  {
    assert i == 16 * (i / 16) + i % 16 && x == 16 * (1 - i / 16) + i % 16;
  }

  lemma Turn4(x: int, i: nat)
    requires i < 32 && Turned(x, i, 8)
    ensures Turned(Partner(x, 4), i, 4)
  {
  }

  lemma Turn2(x: int, i: nat)
    requires i < 32 && Turned(x, i, 4)
    ensures Turned(Partner(x, 2), i, 2)
  {
  }

  lemma Turn1(x: int, i: nat)
    requires i < 32 && Turned(x, i, 2)
    ensures Turned(Partner(x, 1), i, 1)
  {
  }

  lemma PartnerChain(i: nat)
    requires i < 32
    ensures Partner(Partner(Partner(Partner(if i < 16 then i + 16 else i - 16, 8), 4), 2), 1) == 31 - i
  {
    hide Partner;
    var x := if i < 16 then i + 16 else i - 16;
    Turn8(x, i);
    Turn4(Partner(x, 8), i);
    Turn2(Partner(Partner(x, 8), 4), i);
    Turn1(Partner(Partner(Partner(x, 8), 4), 2), i);
  }

  lemma HalfSwap(d: word, i: nat)
    requires i < 32
    ensures Or(ShiftRight(d, 16), ShiftLeft(d, 16))[i] == d[if i < 16 then i + 16 else i - 16]
  {
  }

  /** The masked swaps turn the word end for end. */
  lemma ReverseWordAt(w: word, i: nat)
    requires i < 32
    ensures ReverseWord(w)[i] == w[31 - i]
  {
    hide Swap, Mask, Partner, Or, ShiftRight, ShiftLeft;
    var a := Swap(w, Mask(0xAA, 0xAA), Mask(0x55, 0x55), 1);
    var b := Swap(a, Mask(0xCC, 0xCC), Mask(0x33, 0x33), 2);
    var c := Swap(b, Mask(0xF0, 0xF0), Mask(0x0F, 0x0F), 4);
    var i16 := if i < 16 then i + 16 else i - 16;
    HalfSwap(Swap(c, Mask(0x00, 0xFF), Mask(0xFF, 0x00), 8), i);
    Stage8(c, i16);
    Stage4(b, Partner(i16, 8));
    Stage2(a, Partner(Partner(i16, 8), 4));
    Stage1(w, Partner(Partner(Partner(i16, 8), 4), 2));
    PartnerChain(i);
  }

  function Rev(b: seq<bool>): (r: seq<bool>)
    ensures |r| == |b|
  {
    seq(|b|, i requires 0 <= i < |b| => b[|b| - 1 - i])
  }

  lemma {:induction false} RevIsPos(b: seq<bool>)
    ensures FromBits(Rev(b)) == Pos(b, |b|)
  {
    if b != [] {
      assert Rev(b) == Rev(b[1..]) + [b[0]];
      RevIsPos(b[1..]);
      FromBitsConcat(Rev(b[1..]), [b[0]]);
      assert FromBits([b[0]]) == Bit(b[0]);
      BitTimes(b[0], Pow2(|b| - 1));
    }
  }

  lemma BitTimes(b: bool, p: nat)
    ensures p * Bit(b) == Bit(b) * p
  {
  }

  lemma ReverseWordIsRev(w: word)
    ensures ReverseWord(w) == Rev(w)
  {
    var r := ReverseWord(w);
    forall i: nat | i < 32
      ensures r[i] == w[31 - i]
    {
      ReverseWordAt(w, i);
    }
    EndForEnd(r, w);
  }

  lemma EndForEnd(r: word, w: word)
    requires forall i: nat :: i < 32 ==> r[i] == w[31 - i]
    ensures r == Rev(w)
  {
  }

  lemma BitReverseOf(b: word, n: nat)
    requires n == FromBits(b)
    ensures BitReverse(n) == Pos(b, 32)
  {
    FromToBits(b);
    ReverseWordIsRev(b);
    RevIsPos(b);
  }

  /** `bit_reverse` carries the stream order of 32 bits over to their position, and back. */
  lemma BitReverseIsPos(b: word)
    ensures BitReverse(FromBits(b)) == Pos(b, 32)
    ensures BitReverse(Pos(b, 32)) == FromBits(b)
  {
    BitReverseOf(b, FromBits(b));
    RevIsPos(b);
    BitReverseOf(Rev(b), Pos(b, 32));
    RevIsPos(Rev(b));
    assert Rev(Rev(b)) == b;
  }
}
