/** Machine integers of libndtypes: the checked int64 operations of
    overflow.h (ADDi64, MULi64, ABSi64, DIVi64), which return the two's
    complement result and raise a sticky overflow flag, and the static
    helpers max, ispower2 and round_up of ndtypes.c. */
module Int64 {

  const INT64_MIN: int := -0x8000_0000_0000_0000
  const INT64_MAX: int := 0x7fff_ffff_ffff_ffff
  const UINT16_MAX: int := 0xffff
  const INT_MAX: int := 0x7fff_ffff

  type u16 = x: int | 0 <= x <= 0xffff

  predicate InInt64(x: int) {
    INT64_MIN <= x <= INT64_MAX
  }

  /** Two's complement reduction to 64 bits. */
  function Wrap64(x: int): (r: int)
    ensures InInt64(r)
    ensures InInt64(x) ==> r == x
  {
    (x - INT64_MIN) % 0x1_0000_0000_0000_0000 + INT64_MIN
  }

  /** A result together with the overflow flag of the operation that made it. */
  datatype Checked = Checked(value: int, overflow: bool)

  function AddI64(a: int, b: int): (r: Checked)
    ensures r.overflow <==> !InInt64(a + b)
    ensures !r.overflow ==> r.value == a + b
  {
    Checked(Wrap64(a + b), !InInt64(a + b))
  }

  function MulI64(a: int, b: int): (r: Checked)
    ensures r.overflow <==> !InInt64(a * b)
    ensures !r.overflow ==> r.value == a * b
  {
    Checked(Wrap64(a * b), !InInt64(a * b))
  }

  function Abs(x: int): nat {
    if x < 0 then -x else x
  }

  /** ABSi64 overflows only for INT64_MIN. */
  function AbsI64(x: int): (r: Checked)
    ensures r.overflow <==> !InInt64(Abs(x))
    ensures !r.overflow ==> r.value == Abs(x)
  {
    Checked(Wrap64(Abs(x)), !InInt64(Abs(x)))
  }

  /** C division of int64 values: the quotient is truncated toward zero. */
  function DivTrunc(a: int, b: int): int
    requires b != 0
  {
    if (a >= 0) == (b > 0) then Abs(a) / Abs(b) else -(Abs(a) / Abs(b))
  }

  /** DIVi64 flags division by zero and the one quotient that does not fit. */
  function DivI64(a: int, b: int): (r: Checked)
    ensures r.overflow <==> b == 0 || !InInt64(DivTrunc(a, b))
    ensures !r.overflow ==> r.value == DivTrunc(a, b)
  {
    if b == 0 then Checked(0, true)
    else Checked(Wrap64(DivTrunc(a, b)), !InInt64(DivTrunc(a, b)))
  }

  /** max() on uint16_t values. */
  function Max16(x: u16, y: u16): (r: u16)
    ensures r >= x && r >= y && (r == x || r == y)
  {
    if x >= y then x else y
  }

  /** ispower2: `n != 0 && (n & (n-1)) == 0` on a uint16_t, which holds
      exactly for the powers of two; stated here arithmetically. */
  predicate IsPower2(n: int)
    decreases if n < 0 then 0 else n
  {
    n == 1 || (n > 1 && n % 2 == 0 && IsPower2(n / 2))
  }

  /** 2^k. */
  function Pow2(k: nat): (r: nat)
    ensures r >= 1
  {
    if k == 0 then 1 else 2 * Pow2(k - 1)
  }

  lemma {:induction false} Pow2IsPower2(k: nat)
    ensures IsPower2(Pow2(k))
  {
    if k > 0 {
      Pow2IsPower2(k - 1);
    }
  }

  /** The numbers ispower2 accepts are exactly the powers 2^k. */
  lemma {:induction false} IsPower2Exactly(n: int)
    ensures IsPower2(n) <==> exists k: nat :: n == Pow2(k)
    decreases if n < 0 then 0 else n
  {
    if IsPower2(n) {
      if n == 1 {
        assert n == Pow2(0);
      } else {
        IsPower2Exactly(n / 2);
        var k: nat :| n / 2 == Pow2(k);
        assert n == Pow2(k + 1);
      }
    } else if exists k: nat :: n == Pow2(k) {
      var k: nat :| n == Pow2(k);
      Pow2IsPower2(k);
    }
  }

  predicate MultipleOf(m: int, a: int)
    requires a > 0
  {
    m % a == 0
  }

  /** round_up(offset, align, &overflow): (offset + align - 1) / align * align. */
  function RoundUp(offset: int, align: int): (r: Checked)
    requires align > 0
    ensures r.overflow <==> !InInt64(offset + align - 1)
    ensures MultipleOf(r.value, align)
  {
    var size := AddI64(offset, align - 1);
    MultipleOfProduct(DivTrunc(size.value, align), align);
    Checked(DivTrunc(size.value, align) * align, size.overflow)
  }

  /** For a non-negative offset, round_up yields the least multiple of align
      at or above the offset, unless the addition overflowed. */
  lemma RoundUpLeastMultiple(offset: int, align: int)
    requires 0 <= offset && 0 < align
    requires !RoundUp(offset, align).overflow
    ensures var r := RoundUp(offset, align).value;
      && MultipleOf(r, align)
      && offset <= r < offset + align
      && forall m {:trigger MultipleOf(m, align)} :: MultipleOf(m, align) && m >= offset ==> r <= m
  {
    var s := offset + align - 1;
    var q := s / align;
    var r := q * align;
    assert RoundUp(offset, align).value == r;
    assert s == q * align + s % align && 0 <= s % align < align;
    assert offset <= r <= s;
    MultipleOfProduct(q, align);
    forall m | MultipleOf(m, align) && m >= offset
      ensures r <= m
    {
      var k := m / align;
      assert m == k * align;
      if k < q {
        MulMonotone(k + 1, q, align);
        assert false;
      }
      MulMonotone(q, k, align);
    }
  }

  lemma MultipleOfProduct(q: int, a: int)
    requires a > 0
    ensures MultipleOf(q * a, a)
  {
    var n := q * a;
    var d := q - n / a;
    assert n == (n / a) * a + n % a;
    assert d * a == q * a - (n / a) * a;
    assert d * a == n % a;
    SmallProduct(d, a, n % a);
  }

  /** A multiple of a that lies in [0, a) is zero. */
  lemma SmallProduct(d: int, a: int, r: int)
    requires a > 0 && d * a == r && 0 <= r < a
    ensures r == 0
  {
    if d >= 1 {
      MulMonotone(1, d, a);
    } else if d <= -1 {
      MulMonotone(d, -1, a);
    }
  }

  lemma MulMonotone(x: int, y: int, a: int)
    requires x <= y && a >= 0
    ensures x * a <= y * a
  {
    assert y * a - x * a == (y - x) * a;
  }

  lemma MulAssoc(a: int, b: int, c: int)
    ensures (a * b) * c == a * (b * c)
  {
  }

  lemma MulNonNegative(a: int, b: int)
    requires a >= 0 && b >= 0
    ensures a * b >= 0
  {
  }
}
