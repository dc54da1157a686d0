/** Bit operations on unbounded non-negative integers. They stand for the
    source's JavaScript `BigInt` masks and its small 32-bit masks alike (the
    masks there never reach the sign bit). Every operation is characterised
    bit by bit, and two masks with the same bits are equal. */
module Bits {

  /** `1 << k` */
  function Pow2(k: nat): (r: nat)
    ensures r >= 1
  {
    if k == 0 then 1 else 2 * Pow2(k - 1)
  }

  /** `((m >> i) & 1) === 1` */
  predicate Bit(m: nat, i: nat)
  {
    if i == 0 then m % 2 == 1 else Bit(m / 2, i - 1)
  }

  /** `a | b` */
  function Or(a: nat, b: nat): nat
    decreases a + b
  {
    if a == 0 then b
    else if b == 0 then a
    else 2 * Or(a / 2, b / 2) + (if a % 2 == 1 || b % 2 == 1 then 1 else 0)
  }

  /** `a & b` */
  function And(a: nat, b: nat): nat
    decreases a + b
  {
    if a == 0 || b == 0 then 0
    else 2 * And(a / 2, b / 2) + (if a % 2 == 1 && b % 2 == 1 then 1 else 0)
  }

  /** `a ^ b` */
  function Xor(a: nat, b: nat): nat
    decreases a + b
  {
    if a == 0 then b
    else if b == 0 then a
    else 2 * Xor(a / 2, b / 2) + (if a % 2 != b % 2 then 1 else 0)
  }

  /** `a & ~b` for a non-negative `a`: the bits of `a` with those of `b` cleared. */
  function AndNot(a: nat, b: nat): nat
    decreases a + b
  {
    if a == 0 then 0
    else if b == 0 then a
    else 2 * AndNot(a / 2, b / 2) + (if a % 2 == 1 && b % 2 == 0 then 1 else 0)
  }

  /** The number of set bits among bits `0..n-1`. */
  function PopCount(m: nat, n: nat): (r: nat)
    ensures r <= n
  {
    if n == 0 then 0 else PopCount(m, n - 1) + (if Bit(m, n - 1) then 1 else 0)
  }

  lemma {:induction false} BitOfZero(i: nat)
    ensures !Bit(0, i)
  {
    if i > 0 { BitOfZero(i - 1); }
  }

  lemma {:induction false} BitOfPow2(k: nat, i: nat)
    ensures Bit(Pow2(k), i) <==> i == k
  {
    if i == 0 {
    } else if k == 0 {
      BitOfZero(i - 1);
    } else {
      BitOfPow2(k - 1, i - 1);
    }
  }

  lemma {:induction false} BitOfOr(a: nat, b: nat, i: nat)
    ensures Bit(Or(a, b), i) <==> Bit(a, i) || Bit(b, i)
    decreases a + b
  {
    if a == 0 {
      BitOfZero(i);
    } else if b == 0 {
      BitOfZero(i);
    } else if i > 0 {
      BitOfOr(a / 2, b / 2, i - 1);
    }
  }

  lemma {:induction false} BitOfAnd(a: nat, b: nat, i: nat)
    ensures Bit(And(a, b), i) <==> Bit(a, i) && Bit(b, i)
    decreases a + b
  {
    if a == 0 || b == 0 {
      BitOfZero(i);
    } else if i > 0 {
      BitOfAnd(a / 2, b / 2, i - 1);
    }
  }

  lemma {:induction false} BitOfXor(a: nat, b: nat, i: nat)
    ensures Bit(Xor(a, b), i) <==> Bit(a, i) != Bit(b, i)
    decreases a + b
  {
    if a == 0 {
      BitOfZero(i);
    } else if b == 0 {
      BitOfZero(i);
    } else if i > 0 {
      BitOfXor(a / 2, b / 2, i - 1);
    }
  }

  lemma {:induction false} BitOfAndNot(a: nat, b: nat, i: nat)
    ensures Bit(AndNot(a, b), i) <==> Bit(a, i) && !Bit(b, i)
    decreases a + b
  {
    if a == 0 {
      BitOfZero(i);
    } else if b == 0 {
      BitOfZero(i);
    } else if i > 0 {
      BitOfAndNot(a / 2, b / 2, i - 1);
    }
  }

  /** Two masks with the same bits are the same number. */
  lemma {:induction false} BitsEqual(a: nat, b: nat)
    requires forall i: nat :: Bit(a, i) == Bit(b, i)
    ensures a == b
    decreases a + b
  {
    assert Bit(a, 0) == Bit(b, 0);
    if a != 0 || b != 0 {
      forall i: nat ensures Bit(a / 2, i) == Bit(b / 2, i) {
        assert Bit(a, i + 1) == Bit(b, i + 1);
      }
      BitsEqual(a / 2, b / 2);
    }
  }

  /** A mask below `2^n` has no bit at or above `n`. */
  lemma {:induction false} NoBitAbove(m: nat, n: nat, i: nat)
    requires m < Pow2(n) && i >= n
    ensures !Bit(m, i)
  {
    if n == 0 {
      BitOfZero(i);
    } else if i > 0 {
      NoBitAbove(m / 2, n - 1, i - 1);
    }
  }

  /** A mask with no bit at or above `n` is below `2^n`. */
  lemma {:induction false} BelowPow2(m: nat, n: nat)
    requires forall i: nat :: i >= n ==> !Bit(m, i)
    ensures m < Pow2(n)
  {
    if n == 0 {
      forall i: nat ensures Bit(m, i) == Bit(0, i) {
        BitOfZero(i);
      }
      BitsEqual(m, 0);
    } else {
      forall i: nat | i >= n - 1 ensures !Bit(m / 2, i) {
        assert !Bit(m, i + 1);
      }
      BelowPow2(m / 2, n - 1);
    }
  }

  lemma XorBelow(a: nat, b: nat, n: nat)
    requires a < Pow2(n) && b < Pow2(n)
    ensures Xor(a, b) < Pow2(n)
  {
    forall i: nat | i >= n ensures !Bit(Xor(a, b), i) {
      BitOfXor(a, b, i);
      NoBitAbove(a, n, i);
      NoBitAbove(b, n, i);
    }
    BelowPow2(Xor(a, b), n);
  }

  lemma OrBelow(a: nat, b: nat, n: nat)
    requires a < Pow2(n) && b < Pow2(n)
    ensures Or(a, b) < Pow2(n)
  {
    forall i: nat | i >= n ensures !Bit(Or(a, b), i) {
      BitOfOr(a, b, i);
      NoBitAbove(a, n, i);
      NoBitAbove(b, n, i);
    }
    BelowPow2(Or(a, b), n);
  }

  lemma Pow2Monotone(k: nat, n: nat)
    requires k <= n
    ensures Pow2(k) <= Pow2(n)
    decreases n - k
  {
    if k < n { Pow2Monotone(k, n - 1); }
  }

  /** Clearing bits that were just set restores a mask that had none of them. */
  lemma SetThenClear(a: nat, b: nat)
    requires And(a, b) == 0
    ensures AndNot(Or(a, b), b) == a
  {
    forall i: nat ensures Bit(AndNot(Or(a, b), b), i) == Bit(a, i) {
      BitOfAndNot(Or(a, b), b, i);
      BitOfOr(a, b, i);
      BitOfAnd(a, b, i);
      BitOfZero(i);
    }
    BitsEqual(AndNot(Or(a, b), b), a);
  }

  /** `x ^ x ^ y == y`: toggling the same bits twice cancels. */
  lemma XorCancel(a: nat, b: nat)
    ensures Xor(Xor(a, b), b) == a
  {
    forall i: nat ensures Bit(Xor(Xor(a, b), b), i) == Bit(a, i) {
      BitOfXor(Xor(a, b), b, i);
      BitOfXor(a, b, i);
    }
    BitsEqual(Xor(Xor(a, b), b), a);
  }

  /** 0 is the identity of `|`, the zero of `&` and the identity of `& ~`.
      A proof step for the callers, so that the solver need not unfold the
      operations at large call sites. */
  lemma OrZero(a: nat)
    ensures Or(a, 0) == a && Or(0, a) == a
  {
  }

  lemma AndNotZero(a: nat)
    ensures AndNot(a, 0) == a
  {
  }

  lemma AndZero(a: nat)
    ensures And(a, 0) == 0
  {
  }

  /** A mask shares no bit with `b | c` exactly when it shares none with either. */
  lemma AndOfOr(a: nat, b: nat, c: nat)
    ensures And(Or(a, b), c) == 0 <==> And(a, c) == 0 && And(b, c) == 0
  {
    forall i: nat ensures Bit(And(Or(a, b), c), i) <==> (Bit(a, i) || Bit(b, i)) && Bit(c, i) {
      BitOfAnd(Or(a, b), c, i);
      BitOfOr(a, b, i);
    }
    NoCommonBit(Or(a, b), c);
    NoCommonBit(a, c);
    NoCommonBit(b, c);
  }

  /** `a & b` is 0 exactly when no bit is set in both. */
  lemma NoCommonBit(a: nat, b: nat)
    ensures And(a, b) == 0 <==> forall i: nat :: !(Bit(a, i) && Bit(b, i))
  {
    forall i: nat ensures Bit(And(a, b), i) <==> Bit(a, i) && Bit(b, i) {
      BitOfAnd(a, b, i);
    }
    forall i: nat ensures !Bit(0, i) {
      BitOfZero(i);
    }
    if forall i: nat :: !(Bit(a, i) && Bit(b, i)) {
      BitsEqual(And(a, b), 0);
    } else {
      var i: nat :| Bit(a, i) && Bit(b, i);
      BitOfAnd(a, b, i);
      BitOfZero(i);
      assert And(a, b) != 0;
    }
  }

  /** `|` is associative. */
  lemma OrAssoc(a: nat, b: nat, c: nat)
    ensures Or(Or(a, b), c) == Or(a, Or(b, c))
  {
    forall i: nat ensures Bit(Or(Or(a, b), c), i) == Bit(Or(a, Or(b, c)), i) {
      BitOfOr(Or(a, b), c, i);
      BitOfOr(a, b, i);
      BitOfOr(a, Or(b, c), i);
      BitOfOr(b, c, i);
    }
    BitsEqual(Or(Or(a, b), c), Or(a, Or(b, c)));
  }
}
