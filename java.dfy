/** The bits of Java's `int` arithmetic and of `java.util.List` the model relies on. */
module Java {

  const TwoTo32: int := 0x1_0000_0000
  const MinInt: int := -0x8000_0000
  const MaxInt: int := 0x7fff_ffff

  predicate InInt32(x: int) {
    MinInt <= x <= MaxInt
  }

  /** The value a Java `int` holds after an arithmetic result `x` wraps around. */
  function Wrap32(x: int): (r: int)
    ensures InInt32(r)
    ensures (r - x) % TwoTo32 == 0
    ensures InInt32(x) ==> r == x
  {
    (x - MinInt) % TwoTo32 + MinInt
  }

  /** Adding whole multiples of 2^32 does not change the wrapped value. */
  lemma WrapShift(x: int, q: int)
    ensures Wrap32(x + q * TwoTo32) == Wrap32(x)
  {
    var a := x - MinInt;
    var r := a % TwoTo32;
    assert a == (a / TwoTo32) * TwoTo32 + r;
    assert a + q * TwoTo32 == (a / TwoTo32 + q) * TwoTo32 + r;
  }

  /** Java's `31 * h + c` over wrapped values agrees with wrapping once at the end. */
  lemma WrapMulAdd(x: int, y: int)
    ensures Wrap32(31 * Wrap32(x) + y) == Wrap32(31 * x + y)
  {
    var w := Wrap32(x);
    var q := (w - x) / TwoTo32;
    assert w - x == q * TwoTo32;
    assert 31 * w + y == (31 * x + y) + (31 * q) * TwoTo32;
    WrapShift(31 * x + y, 31 * q);
  }

  /**
   * Java's `%` by a positive divisor: it agrees with Dafny's `%` on non-negative
   * dividends and truncates toward zero otherwise, so that negating the dividend
   * negates the remainder.
   */
  function JavaRem(a: int, n: int): (r: int)
    requires n > 0
    ensures 0 <= a ==> r == a % n
    ensures -n < r < n && (r < 0 ==> a < 0)
    ensures a < 0 ==> r == -((-a) % n)
  {
    if 0 <= a then a % n else -((-a) % n)
  }

  /** `List.indexOf`: the first position holding `x`, or -1 when there is none. */
  function IndexOf<T(==)>(s: seq<T>, x: T): (k: int)
    ensures -1 <= k < |s|
    ensures k == -1 <==> x !in s
    ensures 0 <= k ==> s[k] == x && forall j :: 0 <= j < k ==> s[j] != x
  {
    if s == [] then -1
    else if s[0] == x then 0
    else
      var k := IndexOf(s[1..], x);
      if k == -1 then -1 else k + 1
  }
}
