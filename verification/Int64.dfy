/** intmax_t as a range of Dafny's integers, with the wrap-around of two's complement. */
module Int64 {
  const TWO_TO_64: int := 0x1_0000_0000_0000_0000
  const INTMAX_MAX: int := 0x7FFF_FFFF_FFFF_FFFF
  const INTMAX_MIN: int := -0x8000_0000_0000_0000
  const INT_MAX: int := 0x7FFF_FFFF

  predicate InRange(x: int) {
    INTMAX_MIN <= x <= INTMAX_MAX
  }

  function PowerOfTwo(n: nat): (p: nat)
    ensures p > 0
  {
    if n == 0 then 1 else 2 * PowerOfTwo(n - 1)
  }

  /** The value a 64-bit two's-complement register holds after a computation whose exact result is x. */
  function Wrap(x: int): (r: int)
    ensures InRange(r)
    ensures InRange(x) ==> r == x
    ensures exists k :: r == x + k * TWO_TO_64
  {
    var m := x % TWO_TO_64;
    var r := if m > INTMAX_MAX then m - TWO_TO_64 else m;
    WrapWitness(x, r);
    r
  }

  lemma WrapWitness(x: int, r: int)
    requires r == x % TWO_TO_64 || r == x % TWO_TO_64 - TWO_TO_64
    ensures exists k :: r == x + k * TWO_TO_64
  {
    var q := x / TWO_TO_64;
    assert x == q * TWO_TO_64 + x % TWO_TO_64;
    if r == x % TWO_TO_64 {
      assert r == x + (-q) * TWO_TO_64;
    } else {
      assert r == x + (-q - 1) * TWO_TO_64;
    }
  }

  /** Numbers that differ by a multiple of 2^64 are the same intmax_t. */
  lemma WrapPeriodic(x: int, k: int)
    ensures Wrap(x + k * TWO_TO_64) == Wrap(x)
  {
    assert (x + k * TWO_TO_64) % TWO_TO_64 == x % TWO_TO_64;
  }

  /** Wrapping an operand first does not change a wrapped product plus a term. */
  lemma WrapMulAdd(x: int, b: int, d: int)
    ensures Wrap(Wrap(x) * b + d) == Wrap(x * b + d)
  {
    var k :| Wrap(x) == x + k * TWO_TO_64;
    assert Wrap(x) * b + d == (x * b + d) + (k * b) * TWO_TO_64;
    WrapPeriodic(x * b + d, k * b);
  }

  function Abs(x: int): nat {
    if x < 0 then -x else x
  }

  /** C's division: the quotient is rounded toward zero. */
  function TruncDiv(a: int, b: int): int
    requires b != 0
  {
    var q := Abs(a) / Abs(b);
    if (a < 0) == (b < 0) then q else -q
  }

  function TruncMod(a: int, b: int): int
    requires b != 0
  {
    a - b * TruncDiv(a, b)
  }

  // ----- bits -----

  datatype BitOp = And | Or | Xor

  /** A bitwise operation on the lowest bits of two numbers. */
  function Bitwise(op: BitOp, bits: nat, a: nat, b: nat): nat {
    if bits == 0 then 0
    else
      var x, y := a % 2, b % 2;
      var bit := match op
        case And => x * y
        case Or => if x + y > 0 then 1 else 0
        case Xor => (x + y) % 2;
      2 * Bitwise(op, bits - 1, a / 2, b / 2) + bit
  }

  /** Bit k of a number in two's complement. */
  predicate Bit(x: int, k: nat)
    decreases k
  {
    if k == 0 then x % 2 == 1 else Bit(x / 2, k - 1)
  }

  lemma {:induction false} BitOfBitwise(op: BitOp, bits: nat, a: nat, b: nat, k: nat)
    requires k < bits
    ensures Bit(Bitwise(op, bits, a, b), k)
         == match op case And => Bit(a, k) && Bit(b, k) case Or => Bit(a, k) || Bit(b, k) case Xor => Bit(a, k) != Bit(b, k)
  {
    if k > 0 {
      BitOfBitwise(op, bits - 1, a / 2, b / 2, k - 1);
      assert Bitwise(op, bits, a, b) / 2 == Bitwise(op, bits - 1, a / 2, b / 2);
    }
  }

  /** Adding a multiple of a higher power of two does not change a bit. */
  lemma {:induction false} BitOfSum(x: int, c: int, n: nat, k: nat)
    requires k < n
    ensures Bit(x + c * PowerOfTwo(n), k) == Bit(x, k)
    decreases k
  {
    var p := PowerOfTwo(n - 1);
    assert c * PowerOfTwo(n) == 2 * (c * p);
    if k > 0 {
      BitOfSum(x / 2, c, n - 1, k - 1);
      assert (x + 2 * (c * p)) / 2 == x / 2 + c * p;
    }
  }
}
