/** Small value wrappers shared by the whole model. */
module Wrappers {
  datatype Option<T> = None | Some(value: T)

  /** The outcome of a call that can throw: its value, or the exception's message. */
  datatype Result<T> = Ok(value: T) | Failure(message: string)

  /** An unsigned 8-bit value, as the C++ code's uint8_t. */
  type byte = b: int | 0 <= b < 0x100

  /** Moduli of the unsigned integer widths the C++ code uses. */
  const U16: int := 0x1_0000
  const U32: int := 0x1_0000_0000
  const U64: int := 0x1_0000_0000_0000_0000

  function Min(a: int, b: int): (m: int)
    ensures m <= a && m <= b && (m == a || m == b)
  {
    if a <= b then a else b
  }

  function Max(a: int, b: int): (m: int)
    ensures m >= a && m >= b && (m == a || m == b)
  {
    if a >= b then a else b
  }

  /** Division truncating toward zero, as C++ integer division and duration_cast do. */
  function TruncDiv(x: int, d: nat): (q: int)
    requires d > 0
    ensures x >= 0 ==> q * d <= x < (q + 1) * d
    ensures x < 0 ==> (q - 1) * d < x <= q * d
    ensures (x >= 0) == (q >= 0) || q == 0
  {
    if x >= 0 then x / d else -((-x) / d)
  }

  /** Euclidean division is unique: a quotient and remainder in range are the ones `/` and `%` give. */
  lemma DivModUnique(x: int, d: int, q: int, r: int)
    requires d > 0 && 0 <= r < d && x == q * d + r
    ensures x / d == q && x % d == r
  {
    var k := x / d - q;
    assert k * d == (x / d) * d - q * d;
    if k > 0 {
      MulAtLeast(k, d);
    } else if k < 0 {
      MulAtLeast(-k, d);
    }
  }

  lemma MulAtLeast(a: int, d: int)
    requires a >= 1 && d > 0
    ensures a * d >= d
  {
  }

  lemma MulLe(a: nat, b: nat, c: nat)
    requires a <= b
    ensures a * c <= b * c
  {
  }

  /** x / d is at least q when q * d <= x. */
  lemma QuotientAtLeast(x: nat, d: nat, q: nat)
    requires d > 0 && q * d <= x
    ensures x / d >= q
  {
    assert x < (x / d + 1) * d;
    MulCancelLt(q, x / d + 1, d);
  }

  /** Division by a positive divisor is monotone. */
  lemma DivLe(x: nat, y: nat, d: nat)
    requires x <= y && d > 0
    ensures x / d <= y / d
  {
    assert (x / d) * d <= x && y < (y / d + 1) * d;
    MulCancelLt(x / d, y / d + 1, d);
  }

  lemma MulCancelLt(a: int, b: int, d: int)
    requires d > 0 && a * d < b * d
    ensures a < b
  {
    assert (b - a) * d > 0;
  }

}
