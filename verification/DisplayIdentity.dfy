/**
 The identity a temporary display presents in its EDID: a 16-bit product code
 and a 32-bit serial number, both derived from a 64-bit display id.
 */
module DisplayIdentity {
  import opened Arithmetic
  import opened Bits

  const WORD32: nat := 0x1_0000_0000
  const WORD64: nat := 0x1_0000_0000_0000_0000
  const EPHEMERAL_BASE: nat := 0x6000_0000_0000_0000
  const EPHEMERAL_BASE_HIGH: nat := 0x6000_0000
  const TEMPORARY_PRODUCT_BASE: nat := 0x5000

  datatype Identity = Identity(product: nat, serial: nat)

  function SerialNumber(displayId: nat): nat {
    var folded := Xor(displayId % WORD32, (displayId / WORD32) % WORD32);
    if folded == 0 then 1 else folded
  }

  function ProductCode(displayId: nat): nat {
    Or(TEMPORARY_PRODUCT_BASE, displayId % 4096)
  }

  function IdentityOf(displayId: nat): Identity {
    Identity(ProductCode(displayId), SerialNumber(displayId))
  }

  /** The candidate id tried when the ephemeral counter stands `k` past `counter`. */
  function EphemeralId(counter: nat, k: nat): nat {
    Or(EPHEMERAL_BASE, (counter + k) % WORD64)
  }

  lemma OrHighWord(c: nat)
    ensures Or(EPHEMERAL_BASE, c) % WORD32 == c % WORD32
    ensures Or(EPHEMERAL_BASE, c) / WORD32 == Or(EPHEMERAL_BASE_HIGH, c / WORD32)
  {
    Powers();
    OrSplits(EPHEMERAL_BASE, c, 32);
    LowHighAreModDiv(EPHEMERAL_BASE, 32);
    LowHighAreModDiv(c, 32);
    LowHighAreModDiv(Or(EPHEMERAL_BASE, c), 32);
    OrZero(c % WORD32);
  }

  /** The high word keeps its low twelve bits. */
  lemma OrBaseHigh(h: nat)
    ensures Or(EPHEMERAL_BASE_HIGH, h) % 4096 == h % 4096
    ensures Or(EPHEMERAL_BASE_HIGH, h) % 2 == h % 2
  {
    Powers();
    OrSplits(EPHEMERAL_BASE_HIGH, h, 12);
    LowHighAreModDiv(EPHEMERAL_BASE_HIGH, 12);
    LowHighAreModDiv(h, 12);
    LowHighAreModDiv(Or(EPHEMERAL_BASE_HIGH, h), 12);
    OrZero(h % 4096);
    SameTail(Or(EPHEMERAL_BASE_HIGH, h), h);
  }

  lemma OrBaseHighNext(h: nat)
    requires h % 2 == 0
    ensures Or(EPHEMERAL_BASE_HIGH, h + 1) == Or(EPHEMERAL_BASE_HIGH, h) + 1
  {
    OrStep(EPHEMERAL_BASE_HIGH, h);
    OrStep(EPHEMERAL_BASE_HIGH, h + 1);
  }

  lemma {:induction false} OrBelow(a: nat, b: nat, k: nat)
    requires a < Pow2(k) && b < Pow2(k)
    ensures Or(a, b) < Pow2(k)
    decreases k
  {
    if k > 0 {
      OrBelow(a / 2, b / 2, k - 1);
    }
  }

  lemma ProductCodesDiffer(a: nat, b: nat)
    requires a % 4096 != b % 4096
    ensures ProductCode(a) != ProductCode(b)
  {
    ProductCodeLow(a);
    ProductCodeLow(b);
  }

  lemma ProductCodeLow(a: nat)
    ensures ProductCode(a) % 4096 == a % 4096
  {
    hide Or, Low, High, Pow2;
    Powers();
    OrSplits(TEMPORARY_PRODUCT_BASE, a % 4096, 12);
    LowHighAreModDiv(TEMPORARY_PRODUCT_BASE, 12);
    LowHighAreModDiv(a % 4096, 12);
    LowHighAreModDiv(ProductCode(a), 12);
    OrZero(a % 4096);
  }

  /**
   The product code is the temporary base with the low twelve bits of the id in the place of its
   zeros; the serial is never zero, and with the high word it gives back the low word, except
   that two equal words give one.
   */
  lemma IdentityExact(id: nat)
    requires id < WORD64
    ensures ProductCode(id) == 0x5000 + id % 4096
    ensures var low, high, serial := id % WORD32, id / WORD32, SerialNumber(id);
            serial > 0 && if low == high then serial == 1 else Xor(serial, high) == low
  {
    hide Xor, Or, Low, High, Pow2;
    Powers();
    ProductCodeLow(id);
    OrSplits(TEMPORARY_PRODUCT_BASE, id % 4096, 12);
    LowHighAreModDiv(TEMPORARY_PRODUCT_BASE, 12);
    LowHighAreModDiv(id % 4096, 12);
    LowHighAreModDiv(ProductCode(id), 12);
    OrZero(5);
    assert ProductCode(id) == 4096 * (ProductCode(id) / 4096) + ProductCode(id) % 4096;
    FoldFacts(id % WORD32, id / WORD32);
    XorSelf(id % WORD32);
  }

  lemma {:induction false} XorSelf(a: nat)
    ensures Xor(a, a) == 0
  {
    if a != 0 {
      XorSelf(a / 2);
      XorStep(a, a);
    }
  }

  /** The low word and the (base-merged) high word of a candidate. */
  lemma EphemeralWords(c: nat)
    requires c < WORD64
    ensures var id := Or(EPHEMERAL_BASE, c);
            && id % WORD32 == c % WORD32
            && (id / WORD32) % WORD32 == Or(EPHEMERAL_BASE_HIGH, c / WORD32)
            && id % 4096 == c % 4096
  {
    OrHighWord(c);
    Powers();
    assert c / WORD32 < Pow2(32);
    OrBelow(EPHEMERAL_BASE_HIGH, c / WORD32, 32);
    var id := Or(EPHEMERAL_BASE, c);
    TailOfLowWord(id);
    TailOfLowWord(c);
  }

  lemma ParityOfSum(a: nat, b: nat, x: nat, y: nat)
    requires a % 2 == x % 2 && b % 2 == y % 2
    ensures (a + b) % 2 == (x + y) % 2
  {
  }

  lemma SameTail(a: nat, b: nat)
    requires a % 4096 == b % 4096
    ensures a % 2 == b % 2
  {
    LastBit(a);
    LastBit(b);
  }

  lemma LastBit(a: nat)
    ensures a % 2 == (a % 4096) % 2
  {
    assert a == 2 * (2048 * (a / 4096)) + a % 4096;
  }

  /** The folded exclusive-or: its parity, and how it determines the low word. */
  lemma FoldFacts(low: nat, high: nat)
    ensures var x := Xor(low, high);
            && x % 2 == (low + high) % 2
            && Xor(x, high) == low
            && (x == 0 ==> low == high)
            && (x == 1 ==> low == if high % 2 == 0 then high + 1 else high - 1)
  {
    XorInvolution(low, high);
    XorParity(low, high);
    XorZero(high);
    XorOne(high);
  }

  /** Same high word: distinct low words give distinct identities. */
  lemma SameBlockDiffers(low1: nat, low2: nat, high: nat)
    requires low1 != low2 && low1 % 4096 == low2 % 4096
    ensures var x1, x2 := Xor(low1, high), Xor(low2, high);
            (if x1 == 0 then 1 else x1) != (if x2 == 0 then 1 else x2)
  {
    FoldFacts(low1, high);
    FoldFacts(low2, high);
    SameTail(low1, low2);
    ParityOfSum(low1, high, low2, high);
  }

  /**
   Neighbouring high words: the folded serials have opposite parity, and the one
   collision the zero-to-one rule could cause lies exactly one block away.
   */
  lemma NextBlockDiffers(low1: nat, low2: nat, h1: nat, h2: nat, high1: nat, high2: nat)
    requires h1 < WORD32 && h2 == (h1 + 1) % WORD32
    requires low1 % 4096 == low2 % 4096 && low1 != low2
    requires high1 % 4096 == h1 % 4096 && high2 % 4096 == h2 % 4096
    requires high1 % 2 == h1 % 2 && high2 % 2 == h2 % 2
    requires h1 % 2 == 0 ==> high2 == high1 + 1
    ensures var x1, x2 := Xor(low1, high1), Xor(low2, high2);
            (if x1 == 0 then 1 else x1) != (if x2 == 0 then 1 else x2)
  {
    FoldFacts(low1, high1);
    FoldFacts(low2, high2);
    SameTail(low1, low2);
    OppositeParity(low1, low2, high1, high2, h1, h2);
    if h1 % 2 == 1 {
      ZeroOneCase(high1, high2, h1, h2);
    }
  }

  lemma OppositeParity(low1: nat, low2: nat, high1: nat, high2: nat, h1: nat, h2: nat)
    requires low1 % 2 == low2 % 2 && h1 < WORD32 && h2 == (h1 + 1) % WORD32
    requires high1 % 2 == h1 % 2 && high2 % 2 == h2 % 2
    ensures (low1 + high1) % 2 != (low2 + high2) % 2
  {
  }

  lemma ZeroOneCase(high1: nat, high2: nat, h1: nat, h2: nat)
    requires h1 < WORD32 && h2 == (h1 + 1) % WORD32 && h1 % 2 == 1
    requires high1 % 4096 == h1 % 4096 && high2 % 4096 == h2 % 4096
    ensures high1 % 4096 != (high2 + 1) % 4096 && high2 % 4096 != (high1 - 1) % 4096
  {
  }

  /**
   Any window of fewer than 2^32 consecutive counter values yields pairwise
   different identities, wherever the 64-bit counter stands and even when it
   wraps around inside the window.
   */
  lemma EphemeralWindowDistinct(counter: nat, j: nat, k: nat)
    requires j < k && k - j < WORD32
    ensures IdentityOf(EphemeralId(counter, j)) != IdentityOf(EphemeralId(counter, k))
  {
    WindowShape(counter + j, k - j);
    CandidatesDiffer((counter + j) % WORD64, (counter + k) % WORD64);
  }

  lemma CandidatesDiffer(c1: nat, c2: nat)
    requires c1 < WORD64 && c2 < WORD64 && c1 % WORD32 != c2 % WORD32
    requires c2 / WORD32 == c1 / WORD32 || c2 / WORD32 == (c1 / WORD32 + 1) % WORD32
    ensures IdentityOf(Or(EPHEMERAL_BASE, c1)) != IdentityOf(Or(EPHEMERAL_BASE, c2))
  {
    EphemeralWords(c1);
    EphemeralWords(c2);
    var low1, low2 := c1 % WORD32, c2 % WORD32;
    var h1, h2 := c1 / WORD32, c2 / WORD32;
    TailOfLowWord(c1);
    TailOfLowWord(c2);
    if low1 % 4096 != low2 % 4096 {
      ProductCodesDiffer(Or(EPHEMERAL_BASE, c1), Or(EPHEMERAL_BASE, c2));
    } else if h1 == h2 {
      SameBlockDiffers(low1, low2, Or(EPHEMERAL_BASE_HIGH, h1));
    } else {
      NextWords(h1, h2);
      NextBlockDiffers(low1, low2, h1, h2, Or(EPHEMERAL_BASE_HIGH, h1), Or(EPHEMERAL_BASE_HIGH, h2));
    }
  }

  lemma NextIndex(h: nat)
    requires h < WORD32 && h % 2 == 0
    ensures (h + 1) % WORD32 == h + 1
  {
  }

  lemma NextWords(h1: nat, h2: nat)
    requires h1 < WORD32 && h2 == (h1 + 1) % WORD32
    ensures var high1, high2 := Or(EPHEMERAL_BASE_HIGH, h1), Or(EPHEMERAL_BASE_HIGH, h2);
            && high1 % 4096 == h1 % 4096 && high2 % 4096 == h2 % 4096
            && high1 % 2 == h1 % 2 && high2 % 2 == h2 % 2
            && (h1 % 2 == 0 ==> high2 == high1 + 1)
  {
    OrBaseHigh(h1);
    OrBaseHigh(h2);
    if h1 % 2 == 0 {
      NextIndex(h1);
      OrBaseHighNext(h1);
    }
  }

  lemma TailOfLowWord(c: nat)
    ensures c % 4096 == (c % WORD32) % 4096
  {
  }

  lemma InBlock(high: nat, low: nat)
    requires low < WORD32
    ensures (high * WORD32 + low) / WORD32 == high && (high * WORD32 + low) % WORD32 == low
  {
    QuotientUnique(high * WORD32 + low, WORD32, high);
  }

  lemma WrapsTwice(c: nat, gap: nat)
    ensures (c + gap) % WORD64 == (c % WORD64 + gap) % WORD64
  {
    var q, x := c / WORD64, c % WORD64 + gap;
    assert c + gap == WORD64 * q + x;
    assert x == WORD64 * (x / WORD64) + x % WORD64;
    QuotientUnique(c + gap, WORD64, q + x / WORD64);
  }

  /** A step of less than one block stays in the block or enters the next one. */
  lemma WindowShape(c: nat, gap: nat)
    requires 0 < gap < WORD32
    ensures var c1, c2 := c % WORD64, (c + gap) % WORD64;
            && c1 % WORD32 != c2 % WORD32
            && (c2 / WORD32 == c1 / WORD32 || c2 / WORD32 == (c1 / WORD32 + 1) % WORD32)
  {
    var c1 := c % WORD64;
    var low, high := c1 % WORD32, c1 / WORD32;
    WrapsTwice(c, gap);
    if low + gap < WORD32 {
      InBlock(high, low + gap);
    } else if high + 1 < WORD32 {
      InBlock(high + 1, low + gap - WORD32);
    } else {
      InBlock(0, low + gap - WORD32);
    }
  }
}
