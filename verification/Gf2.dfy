/** Exclusive or on natural numbers, and what the proofs about check bytes need of it.
    A number is also a polynomial over GF(2): bit i is its coefficient of x^i. */
module Gf2 {

  function Xor(a: nat, b: nat): nat
    decreases a + b
  {
    if a == 0 && b == 0 then 0 else 2 * Xor(a / 2, b / 2) + (if a % 2 == b % 2 then 0 else 1)
  }

  /** x^n. */
  function Pow2(n: nat): (p: nat)
    ensures p > 0
  {
    if n == 0 then 1 else 2 * Pow2(n - 1)
  }

  lemma {:induction false} XorZero(a: nat)
    ensures Xor(a, 0) == a
  {
    if a > 0 {
      XorZero(a / 2);
    }
  }

  lemma {:induction false} XorComm(a: nat, b: nat)
    ensures Xor(a, b) == Xor(b, a)
    decreases a + b
  {
    if a + b > 0 {
      XorComm(a / 2, b / 2);
    }
  }

  lemma {:induction false} XorSelf(a: nat)
    ensures Xor(a, a) == 0
  {
    if a > 0 {
      XorSelf(a / 2);
    }
  }

  /** The two parts of a result, which the inductions below go by. */
  lemma XorParts(a: nat, b: nat)
    ensures Xor(a, b) / 2 == Xor(a / 2, b / 2)
    ensures Xor(a, b) % 2 == if a % 2 == b % 2 then 0 else 1
  {
  }

  /** The low bits of the two groupings agree. */
  lemma GroupedBits(a: nat, b: nat, c: nat, ab: nat, bc: nat, l: nat, r: nat)
    requires ab % 2 == (if a % 2 == b % 2 then 0 else 1) && bc % 2 == (if b % 2 == c % 2 then 0 else 1)
    requires l % 2 == (if ab % 2 == c % 2 then 0 else 1) && r % 2 == (if a % 2 == bc % 2 then 0 else 1)
    requires l / 2 == r / 2
    ensures l == r
  {
  }

  lemma {:induction false} XorAssoc(a: nat, b: nat, c: nat)
    ensures Xor(Xor(a, b), c) == Xor(a, Xor(b, c))
    decreases a + b + c
  {
    if a + b + c > 0 {
      XorAssoc(a / 2, b / 2, c / 2);
      AssocStep(a, b, c, Xor(a, b), Xor(b, c));
    }
  }

  lemma AssocStep(a: nat, b: nat, c: nat, ab: nat, bc: nat)
    requires ab == Xor(a, b) && bc == Xor(b, c)
    requires Xor(Xor(a / 2, b / 2), c / 2) == Xor(a / 2, Xor(b / 2, c / 2))
    ensures Xor(ab, c) == Xor(a, bc)
  {
    XorParts(a, b);
    XorParts(b, c);
    XorParts(ab, c);
    XorParts(a, bc);
    GroupedBits(a, b, c, ab, bc, Xor(ab, c), Xor(a, bc));
  }

  /** Exclusive or with b undoes itself. */
  lemma XorCancel(a: nat, b: nat)
    ensures Xor(Xor(a, b), b) == a
  {
    XorAssoc(a, b, b);
    XorSelf(b);
    XorZero(a);
  }

  lemma XorInjective(a: nat, b: nat, c: nat)
    requires Xor(a, c) == Xor(b, c)
    ensures a == b
  {
    XorCancel(a, c);
    XorCancel(b, c);
  }

  lemma XorZeroMeansEqual(a: nat, b: nat)
    ensures Xor(a, b) == 0 <==> a == b
  {
    XorSelf(b);
    if Xor(a, b) == 0 {
      XorInjective(a, b, b);
    }
  }

  /** (a + b) + (c + d) regrouped. */
  lemma XorSwap(a: nat, b: nat, c: nat, d: nat)
    ensures Xor(Xor(a, b), Xor(c, d)) == Xor(Xor(a, c), Xor(b, d))
  {
    XorAssoc(a, b, Xor(c, d));
    XorAssoc(b, c, d);
    XorComm(b, c);
    XorAssoc(c, b, d);
    XorAssoc(a, c, Xor(b, d));
  }

  lemma XorDouble(a: nat, b: nat)
    ensures Xor(2 * a, 2 * b) == 2 * Xor(a, b)
  {
  }

  lemma XorSplit(x: nat)
    ensures Xor(2 * (x / 2), x % 2) == x
  {
    XorZero(x / 2);
    XorParts(2 * (x / 2), x % 2);
  }

  lemma {:induction false} XorBelow(a: nat, b: nat, n: nat)
    requires a < Pow2(n) && b < Pow2(n)
    ensures Xor(a, b) < Pow2(n)
  {
    if n > 0 {
      XorBelow(a / 2, b / 2, n - 1);
    }
  }

  /** Equal leading terms cancel. */
  lemma {:induction false} XorTopCancels(a: nat, b: nat, n: nat)
    requires Pow2(n) <= a < Pow2(n + 1) && Pow2(n) <= b < Pow2(n + 1)
    ensures Xor(a, b) < Pow2(n)
  {
    if n > 0 {
      XorTopCancels(a / 2, b / 2, n - 1);
    }
  }

  /** A lower term leaves the leading term alone. */
  lemma {:induction false} XorTopStays(a: nat, b: nat, n: nat)
    requires Pow2(n) <= a < Pow2(n + 1) && b < Pow2(n)
    ensures Pow2(n) <= Xor(a, b) < Pow2(n + 1)
  {
    if n > 0 {
      XorTopStays(a / 2, b / 2, n - 1);
    }
  }

  /** True if the number of terms is odd. */
  predicate OddTerms(a: nat) {
    if a == 0 then false else (a % 2 == 1) != OddTerms(a / 2)
  }

  lemma OddTermsParts(a: nat)
    ensures OddTerms(a) == ((a % 2 == 1) != OddTerms(a / 2))
  {
  }

  lemma {:induction false} OddTermsXor(a: nat, b: nat)
    ensures OddTerms(Xor(a, b)) == (OddTerms(a) != OddTerms(b))
    decreases a + b
  {
    if a + b > 0 {
      OddTermsXor(a / 2, b / 2);
      XorParts(a, b);
      OddTermsParts(a);
      OddTermsParts(b);
      OddTermsParts(Xor(a, b));
    }
  }

  /** b times x^s. */
  function ShiftLeft(b: nat, s: nat): nat {
    if s == 0 then b else 2 * ShiftLeft(b, s - 1)
  }

  /** Numbers whose bits do not meet add up. */
  lemma {:induction false} AddIsXor(a: nat, b: nat, n: nat)
    requires b < Pow2(n)
    ensures Xor(ShiftLeft(a, n), b) == ShiftLeft(a, n) + b
  {
    if n == 0 {
      XorZero(a);
    } else {
      AddIsXor(a, b / 2, n - 1);
      JoinParts(ShiftLeft(a, n - 1), b);
    }
  }

  lemma JoinParts(a: nat, b: nat)
    requires Xor(a, b / 2) == a + b / 2
    ensures Xor(2 * a, b) == 2 * a + b
  {
    XorParts(2 * a, b);
  }

  lemma ShiftLeftTable(a: nat)
    ensures ShiftLeft(a, 4) == 16 * a && ShiftLeft(a, 5) == 32 * a && ShiftLeft(a, 8) == 256 * a
  {
    assert ShiftLeft(a, 1) == 2 * a;
    assert ShiftLeft(a, 2) == 4 * a;
    assert ShiftLeft(a, 3) == 8 * a;
    assert ShiftLeft(a, 6) == 64 * a by { assert ShiftLeft(a, 5) == 32 * a; }
    assert ShiftLeft(a, 7) == 128 * a;
  }

  lemma Pow2Table()
    ensures Pow2(0) == 1 && Pow2(1) == 2 && Pow2(4) == 16 && Pow2(5) == 32
    ensures Pow2(8) == 256 && Pow2(9) == 512 && Pow2(15) == 0x8000 && Pow2(24) == 0x100_0000
  {
    assert Pow2(2) == 4 && Pow2(6) == 64 && Pow2(10) == 1024 && Pow2(12) == 4096 && Pow2(14) == 0x4000;
    assert Pow2(16) == 0x1_0000 && Pow2(18) == 0x4_0000 && Pow2(20) == 0x10_0000 && Pow2(22) == 0x40_0000;
  }

  lemma {:induction false} Pow2Grows(m: nat, n: nat)
    requires m <= n
    ensures Pow2(m) <= Pow2(n)
  {
    if m < n {
      Pow2Grows(m, n - 1);
    }
  }

  lemma {:induction false} HasDegree(q: nat) returns (n: nat)
    requires q > 0
    ensures Pow2(n) <= q < Pow2(n + 1)
  {
    if q == 1 {
      n := 0;
    } else {
      n := HasDegree(q / 2);
      n := n + 1;
    }
  }
}
