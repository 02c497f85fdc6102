/** Shared wrappers and small facts about powers of two. */
module Base {

  datatype Option<+T> = None | Some(value: T)

  datatype Result<+T> = Ok(value: T) | Err(error: string) {
    predicate IsFailure() {
      Err?
    }

    function PropagateFailure<U>(): Result<U>
      requires Err?
    {
      Err(error)
    }

    function Extract(): T
      requires Ok?
    {
      value
    }
  }

  /** A byte string: every character stands for one byte. Text is its UTF-8 bytes. */
  type Bytes = string

  const U64_MAX: nat := 0xFFFF_FFFF_FFFF_FFFF
  const U128_MAX: nat := 0xFFFF_FFFF_FFFF_FFFF_FFFF_FFFF_FFFF_FFFF

  type U8 = n: nat | n < 256
  type U64 = n: nat | n <= U64_MAX
  type U128 = n: nat | n <= U128_MAX

  /** A plain u128 result in a release build: reduced modulo 2^128. */
  function Wrap(x: nat): (w: nat)
    ensures w <= x && w <= U128_MAX && (x <= U128_MAX ==> w == x)
  {
    x % (U128_MAX + 1)
  }

  lemma WrapSum(x: nat, y: nat)
    ensures Wrap(Wrap(x) + y) == Wrap(x + y)
  {
  }

  /** A plain u128 product. */
  function Mul128(x: nat, y: nat): (p: nat)
    ensures p <= x * y && p <= U128_MAX && (x * y <= U128_MAX ==> p == x * y)
  {
    Wrap(x * y)
  }

  function Pow2(n: nat): (p: nat)
    ensures p >= 1
  {
    if n == 0 then 1 else 2 * Pow2(n - 1)
  }

  lemma MulMonotone(a: nat, b: nat, x: nat, y: nat)
    requires a <= b && x <= y
    ensures a * x <= b * y
  {
    assert (b - a) * x >= 0;
    assert b * (y - x) >= 0;
  }
}
