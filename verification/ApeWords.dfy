/** The C integer arithmetic the APE decoder relies on: two's-complement wrap-around, arithmetic
    shifts and truncating division. */
module ApeWords {

  const TWO15: int := 0x8000
  const TWO16: int := 0x1_0000
  const TWO31: int := 0x8000_0000
  const TWO32: int := 0x1_0000_0000
  const TWO63: int := 0x8000_0000_0000_0000
  const TWO64: int := 0x1_0000_0000_0000_0000

  predicate Int32(x: int) {
    -TWO31 <= x < TWO31
  }

  predicate AllInt32(s: seq<int>) {
    forall i :: 0 <= i < |s| ==> Int32(s[i])
  }

  predicate PairsInt32(d: seq<(int, int)>) {
    forall i :: 0 <= i < |d| ==> Int32(d[i].0) && Int32(d[i].1)
  }

  function Firsts(d: seq<(int, int)>): (a: seq<int>)
    ensures |a| == |d|
  {
    seq(|d|, i requires 0 <= i < |d| => d[i].0)
  }

  function Seconds(d: seq<(int, int)>): (b: seq<int>)
    ensures |b| == |d|
  {
    seq(|d|, i requires 0 <= i < |d| => d[i].1)
  }

  function Zip(a: seq<int>, b: seq<int>): (d: seq<(int, int)>)
    requires |a| == |b|
    ensures |d| == |a| && Firsts(d) == a && Seconds(d) == b
  {
    seq(|a|, i requires 0 <= i < |a| => (a[i], b[i]))
  }

  lemma ZipBack(d: seq<(int, int)>)
    ensures Zip(Firsts(d), Seconds(d)) == d
    ensures PairsInt32(d) <==> AllInt32(Firsts(d)) && AllInt32(Seconds(d))
  {
    var a, b := Firsts(d), Seconds(d);
    assert forall i :: 0 <= i < |d| ==> a[i] == d[i].0;
    assert forall i :: 0 <= i < |d| ==> b[i] == d[i].1;
  }

  /** Conversion to `int16_t`. */
  function Wrap16(x: int): (r: int)
    ensures -TWO15 <= r < TWO15
  {
    (x + TWO15) % TWO16 - TWO15
  }

  /** Conversion to `int32_t`. */
  function Wrap32(x: int): (r: int)
    ensures Int32(r)
  {
    (x + TWO31) % TWO32 - TWO31
  }

  /** Conversion to `int64_t`. */
  function Wrap64(x: int): (r: int)
    ensures -TWO63 <= r < TWO63
  {
    (x + TWO63) % TWO64 - TWO63
  }

  /** Conversion to `uint32_t`. */
  function Unsigned32(x: int): (r: nat)
    ensures r < TWO32
  {
    x % TWO32
  }

  /** `APESIGN`: minus the sign. */
  function ApeSign(x: int): (r: int)
    ensures -1 <= r <= 1
  {
    if x < 0 then 1 else if x > 0 then -1 else 0
  }

  function ClipInt16(v: int): (r: int)
    ensures -TWO15 <= r < TWO15
  {
    if v < -TWO15 then -TWO15 else if v >= TWO15 then TWO15 - 1 else v
  }

  /** Numbers that agree modulo 2^32 convert alike. */
  lemma Wrap32Cong(a: int, b: int, k: int)
    requires a == b + k * TWO32
    ensures Wrap32(a) == Wrap32(b)
  {
  }

  lemma Wrap32Id(x: int)
    requires Int32(x)
    ensures Wrap32(x) == x
  {
  }

  /** What was added can be taken away again. */
  lemma Wrap32Undo(x: int, p: int)
    requires Int32(x)
    ensures Wrap32(Wrap32(x + p) - p) == x
  {
    var k := (x + p + TWO31) / TWO32;
    assert Wrap32(x + p) == x + p - k * TWO32;
    Wrap32Cong(Wrap32(x + p) - p, x, -k);
    Wrap32Id(x);
  }

  lemma Wrap64Mod32(x: int)
    ensures Wrap32(Wrap64(x)) == Wrap32(x)
  {
    var k := (x + TWO63) / TWO64;
    assert Wrap64(x) == x - k * TWO64;
    Wrap32Cong(Wrap64(x), x, -k * TWO32);
  }

  lemma Wrap32Sum(a: int, b: int)
    ensures Wrap32(Wrap32(a) + b) == Wrap32(a + b)
  {
    var k := (a + TWO31) / TWO32;
    assert Wrap32(a) == a - k * TWO32;
    Wrap32Cong(Wrap32(a) + b, a + b, -k);
  }
}
