/** Bitwise exclusive-or and inclusive-or on unsigned integers, digit by digit in base two. */
module Bits {
  import opened Arithmetic
  function Xor(a: nat, b: nat): nat
    decreases a + b
  {
    if a == 0 && b == 0 then 0 else 2 * Xor(a / 2, b / 2) + (a + b) % 2
  }

  function Or(a: nat, b: nat): nat
    decreases a + b
  {
    if a == 0 && b == 0 then 0
    else 2 * Or(a / 2, b / 2) + (if a % 2 == 1 || b % 2 == 1 then 1 else 0)
  }

  function Pow2(k: nat): (p: nat)
    ensures p > 0
  {
    if k == 0 then 1 else 2 * Pow2(k - 1)
  }

  /** One digit of an exclusive-or and of an inclusive-or. */
  lemma XorStep(a: nat, b: nat)
    ensures Xor(a, b) / 2 == Xor(a / 2, b / 2) && Xor(a, b) % 2 == (a + b) % 2
  {
  }

  lemma OrStep(a: nat, b: nat)
    ensures Or(a, b) / 2 == Or(a / 2, b / 2)
    ensures Or(a, b) % 2 == if a % 2 == 1 || b % 2 == 1 then 1 else 0
  {
  }

  /** Exclusive-or with a fixed mask is its own inverse, hence one-to-one. */
  lemma {:induction false} XorInvolution(a: nat, m: nat)
    ensures Xor(Xor(a, m), m) == a
    decreases a + m
  {
    if a != 0 || m != 0 {
      XorInvolution(a / 2, m / 2);
      XorStep(a, m);
      XorStep(Xor(a, m), m);
      RestoredDigit(a, m, Xor(a, m), Xor(Xor(a, m), m));
    }
  }

  lemma RestoredDigit(a: nat, m: nat, x: nat, y: nat)
    requires x % 2 == (a + m) % 2 && y % 2 == (x + m) % 2 && y / 2 == a / 2
    ensures y == a
  {
  }

  lemma XorParity(a: nat, b: nat)
    ensures Xor(a, b) % 2 == (a + b) % 2
  {
  }

  lemma {:induction false} XorZero(a: nat)
    ensures Xor(a, 0) == a && Xor(0, a) == a
  {
    if a != 0 {
      XorZero(a / 2);
    }
  }

  lemma XorOne(a: nat)
    ensures Xor(1, a) == if a % 2 == 0 then a + 1 else a - 1
  {
    XorZero(a / 2);
  }

  lemma {:induction false} OrZero(a: nat)
    ensures Or(a, 0) == a && Or(0, a) == a
  {
    if a != 0 {
      OrZero(a / 2);
    }
  }

  /** The last `k` binary digits, and what is left of them. */
  function Low(x: nat, k: nat): nat {
    if k == 0 then 0 else 2 * Low(x / 2, k - 1) + x % 2
  }

  function High(x: nat, k: nat): nat {
    if k == 0 then x else High(x / 2, k - 1)
  }

  lemma {:induction false} LowHighAreModDiv(x: nat, k: nat)
    ensures Low(x, k) == x % Pow2(k) && High(x, k) == x / Pow2(k)
    decreases k
  {
    if k > 0 {
      LowHighAreModDiv(x / 2, k - 1);
      ModTwice(x, Pow2(k - 1));
    }
  }

  /** Dropping the last digit commutes with taking the low or the high part. */
  lemma ModTwice(x: nat, p: nat)
    requires p > 0
    ensures x / (2 * p) == (x / 2) / p
    ensures x % (2 * p) == 2 * ((x / 2) % p) + x % 2
  {
    var h := x / 2;
    var q, r := h / p, h % p;
    assert h == q * p + r;
    var low := 2 * r + x % 2;
    assert q * (2 * p) == 2 * (q * p);
    assert x == q * (2 * p) + low;
    QuotientUnique(x, 2 * p, q);
  }

  /** Inclusive-or works on the low and the high digits separately. */
  lemma {:induction false} OrSplits(a: nat, b: nat, k: nat)
    ensures Low(Or(a, b), k) == Or(Low(a, k), Low(b, k))
    ensures High(Or(a, b), k) == Or(High(a, k), High(b, k))
    decreases k
  {
    if k > 0 {
      OrSplits(a / 2, b / 2, k - 1);
      OrStep(a, b);
      OrStep(Low(a, k), Low(b, k));
    }
  }

  lemma Powers()
    ensures Pow2(12) == 4096
    ensures Pow2(32) == 0x1_0000_0000
  {
    assert Pow2(4) == 16;
    assert Pow2(8) == 256;
    assert Pow2(12) == 4096;
    assert Pow2(16) == 65536;
    assert Pow2(20) == 0x10_0000;
    assert Pow2(24) == 0x100_0000;
    assert Pow2(28) == 0x1000_0000;
    assert Pow2(32) == 0x1_0000_0000;
  }
}
