// Shared vocabulary: bytes, results and powers.

module Basics {

  // One octet of a payload, a context state or a transition table entry.
  type byte = n: int | 0 <= n < 256

  // The error classes of the codec's status type; messages and locations are not modelled.
  datatype ErrorCode =
    | InvalidArgument
    | InvalidState
    | SyntaxError
    | UnsupportedFeature
    | ResourceExhausted
    | CrcMismatch
    | InternalError

  datatype Option<+T> = None | Some(value: T)

  datatype Result<+T> = Ok(value: T) | Err(error: ErrorCode) {
    predicate IsFailure() {
      Err?
    }
    function PropagateFailure<U>(): Result<U>
      requires Err?
    {
      Err(error)
    }
    function Extract(): T
      requires Ok?
    {
      value
    }
  }

  type Status = Result<()>

  function Min(a: int, b: int): int {
    if a <= b then a else b
  }

  function Max(a: int, b: int): int {
    if a <= b then b else a
  }

  function Abs(a: int): nat {
    if a < 0 then -a else a
  }

  function Pow2(n: nat): (r: nat)
    ensures 1 <= r
  {
    if n == 0 then 1 else 2 * Pow2(n - 1)
  }

  lemma {:induction false} Pow2Monotone(m: nat, n: nat)
    requires m <= n
    ensures Pow2(m) <= Pow2(n)
    decreases n
  {
    if m < n {
      Pow2Monotone(m, n - 1);
    }
  }

  lemma Pow2Of63()
    ensures Pow2(63) == 0x8000_0000_0000_0000
  {
    assert Pow2(8) == 256;
    assert Pow2(16) == 0x1_0000;
    assert Pow2(24) == 0x100_0000;
    assert Pow2(32) == 0x1_0000_0000;
    assert Pow2(40) == 0x100_0000_0000;
    assert Pow2(48) == 0x1_0000_0000_0000;
    assert Pow2(56) == 0x100_0000_0000_0000;
  }

  lemma MulMonotone(q: nat, a: int, b: int)
    requires a <= b
    ensures q * a <= q * b
  {
  }

  lemma DivUnique(m: int, q: nat, a: int, b: int)
    requires 0 < q && m == q * a + b && 0 <= b < q
    ensures m / q == a && m % q == b
  {
    var a' := m / q;
    assert m == q * a' + m % q;
    assert q * (a + 1) == q * a + q && q * (a' + 1) == q * a' + q;
    if a + 1 <= a' {
      MulMonotone(q, a + 1, a');
    } else if a' + 1 <= a {
      MulMonotone(q, a' + 1, a);
    }
  }

  lemma AppendAssoc<T>(a: seq<T>, b: seq<T>, c: seq<T>)
    ensures a + b + c == a + (b + c)
  {
  }

  /** value * 2^n. */
  function ShiftLeft(value: int, n: nat): (r: int)
    ensures 0 <= value ==> value <= r
    decreases n
  {
    if n == 0 then value else 2 * ShiftLeft(value, n - 1)
  }

  /** Arithmetic right shift: floor(value / 2^n). */
  function ShiftRight(value: int, n: nat): (r: int)
    ensures 0 <= value ==> 0 <= r
    decreases n
  {
    if n == 0 then value else ShiftRight(value / 2, n - 1)
  }

  /** The low n bits of the two's complement representation: value modulo 2^n. */
  function LowBits(value: int, n: nat): (r: nat)
    ensures r < Pow2(n)
    decreases n
  {
    if n == 0 then 0 else 2 * LowBits(value / 2, n - 1) + value % 2
  }

  lemma {:induction false} ShiftLeftOne(n: nat)
    ensures ShiftLeft(1, n) == Pow2(n)
  {
    if n > 0 {
      ShiftLeftOne(n - 1);
    }
  }

  lemma {:induction false} ShiftLeftAdds(a: int, b: int, n: nat)
    ensures ShiftLeft(a + b, n) == ShiftLeft(a, n) + ShiftLeft(b, n)
    decreases n
  {
    if n > 0 {
      ShiftLeftAdds(a, b, n - 1);
    }
  }

  lemma {:induction false} ShiftLeftMonotone(a: int, b: int, n: nat)
    requires a <= b
    ensures ShiftLeft(a, n) <= ShiftLeft(b, n)
    decreases n
  {
    if n > 0 {
      ShiftLeftMonotone(a, b, n - 1);
    }
  }

  lemma {:induction false} ShiftNext(value: int, n: nat)
    ensures ShiftRight(value, n) == 2 * ShiftRight(value, n + 1) + ShiftRight(value, n) % 2
    decreases n
  {
    if n > 0 {
      ShiftNext(value / 2, n - 1);
    }
  }

  /** High part and low part make up the value. */
  lemma {:induction false} ShiftSplit(value: int, n: nat)
    ensures ShiftLeft(ShiftRight(value, n), n) + LowBits(value, n) == value
    decreases n
  {
    if n > 0 {
      ShiftSplit(value / 2, n - 1);
    }
  }

  lemma {:induction false} ShiftRightBelow(value: int, m: int, n: nat)
    requires value < ShiftLeft(m, n)
    ensures ShiftRight(value, n) < m
    decreases n
  {
    if n > 0 {
      ShiftRightBelow(value / 2, m, n - 1);
    }
  }

  lemma HalfOfSum(value: int, p: int)
    ensures (value + 2 * p) / 2 == value / 2 + p && (value + 2 * p) % 2 == value % 2
  {
  }

  /** Multiples of 2^n do not reach the low n bits. */
  lemma {:induction false} LowBitsShifted(value: int, n: nat, k: int)
    ensures LowBits(value + ShiftLeft(k, n), n) == LowBits(value, n)
    decreases n
  {
    if n > 0 {
      var p := ShiftLeft(k, n - 1);
      assert ShiftLeft(k, n) == 2 * p;
      HalfOfSum(value, p);
      LowBitsShifted(value / 2, n - 1, k);
    }
  }

  lemma {:induction false} LowBitsSmall(value: nat, n: nat)
    requires value < Pow2(n)
    ensures LowBits(value, n) == value && ShiftRight(value, n) == 0
    decreases n
  {
    if n > 0 {
      LowBitsSmall(value / 2, n - 1);
    }
  }
}
