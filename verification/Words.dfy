/** Bitwise or on numbers, as C applies it to addresses and permission bits. */
module Words {
  import opened Layout

  /** a | b */
  function Or(a: nat, b: nat): nat {
    if a == 0 then b else if b == 0 then a
    else 2 * Or(a / 2, b / 2) + (if a % 2 == 1 || b % 2 == 1 then 1 else 0)
  }

  /** Every bit of a is set in b. */
  predicate Within(a: nat, b: nat) { a == 0 || (a % 2 <= b % 2 && Within(a / 2, b / 2)) }

  lemma {:induction false} WithinZero(a: nat)
    ensures Within(a, 0) <==> a == 0
  {
    if a != 0 { WithinZero(a / 2); }
  }

  /** a adds no bit to b exactly if b has them all. */
  lemma {:induction false} OrWithin(a: nat, b: nat)
    ensures Or(b, a) == b <==> Within(a, b)
  {
    if b == 0 { WithinZero(a); }
    if a != 0 && b != 0 { OrWithin(a / 2, b / 2); }
  }

  function Pow2(k: nat): nat { if k == 0 then 1 else 2 * Pow2(k - 1) }

  lemma {:induction false} OrBound(a: nat, b: nat, k: nat)
    requires a < Pow2(k) && b < Pow2(k)
    ensures Or(a, b) < Pow2(k)
  {
    if a != 0 && b != 0 { OrBound(a / 2, b / 2, k - 1); }
  }

  lemma PageNumbers()
    ensures Pow2(20) == 0x10_0000
  {
    assert Pow2(5) == 0x20;
    assert Pow2(10) == 0x400;
    assert Pow2(15) == 0x8000;
  }

  lemma OneOrTwo()
    ensures Or(1, 2) == 3
  {}

  // ---------------------------------------------------------------- shifts

  /** x << k */
  function Shl(x: nat, k: nat): nat
    decreases k
  {
    if k == 0 then x else 2 * Shl(x, k - 1)
  }

  /** x >> k */
  function Shr(x: nat, k: nat): nat
    decreases k
  {
    if k == 0 then x else Shr(x / 2, k - 1)
  }

  /** The low k bits. */
  function Low(x: nat, k: nat): nat
    decreases k
  {
    if k == 0 then 0 else 2 * Low(x / 2, k - 1) + x % 2
  }

  lemma {:induction false} Split(x: nat, k: nat)
    ensures x == Shl(Shr(x, k), k) + Low(x, k) && Low(x, k) < Pow2(k)
    decreases k
  {
    if k > 0 { Split(x / 2, k - 1); }
  }

  lemma OrDouble(a: nat, b: nat)
    ensures Or(2 * a, b) == 2 * Or(a, b / 2) + b % 2
  {}

  /** A number shifted up leaves the low bits of another alone. */
  lemma {:induction false} OrShl(x: nat, b: nat, k: nat)
    ensures Or(Shl(x, k), b) == Shl(Or(x, Shr(b, k)), k) + Low(b, k)
    decreases k
  {
    if k > 0 {
      OrDouble(Shl(x, k - 1), b);
      OrShl(x, b / 2, k - 1);
    }
  }

  lemma PageShift(x: nat)
    ensures Shl(x, 12) == x * PGSIZE && Shr(x, 12) == x / PGSIZE && Low(x, 12) == x % PGSIZE
  {
    Split(x, 12);
    assert Pow2(12) == PGSIZE;
    assert forall y: nat :: Shl(y, 12) == y * PGSIZE;
  }

  /** A page's address and the bits of b. */
  lemma OrPage(f: nat, b: nat)
    ensures Or(f * PGSIZE, b) == Or(f, b / PGSIZE) * PGSIZE + b % PGSIZE
  {
    PageShift(f);
    PageShift(b);
    PageShift(Or(f, b / PGSIZE));
    OrShl(f, b, 12);
  }

  lemma OrOne(b: nat)
    ensures Or(1, b) == Odd(b)
  {
    if b > 0 { assert Or(0, b / 2) == b / 2; }
  }

  /** b with its lowest bit set. */
  function Odd(b: nat): (c: nat)
    ensures c % 2 == 1
  {
    if b % 2 == 1 then b else b + 1
  }

  lemma PageAndRest(x: nat, a: nat, b: nat)
    requires x == a * PGSIZE + b && b < PGSIZE
    ensures x / PGSIZE == a && x % PGSIZE == b && x % 2 == b % 2
  {}

  lemma OddPage(b: nat)
    ensures Odd(b) / PGSIZE == b / PGSIZE && Odd(b) % PGSIZE % 2 == 1
  {
    var q, r := b / PGSIZE, b % PGSIZE;
    PageAndRest(b, q, r);
    PageAndRest(Odd(b), q, Odd(r));
  }

  lemma OddLow(b: nat)
    ensures Odd(b) % PGSIZE / 2 == b % PGSIZE / 2
  {
    var q, r := b / PGSIZE, b % PGSIZE;
    PageAndRest(b, q, r);
    PageAndRest(Odd(b), q, Odd(r));
  }

  lemma LowBits(w: nat)
    ensures w % PGSIZE / 2 % 2 == w / 2 % 2 && w % PGSIZE / 4 % 2 == w / 4 % 2
  {
    var q, r := w / PGSIZE, w % PGSIZE;
    assert w / 2 == 2 * (q * 1024) + r / 2 && w / 4 == 2 * (q * 512) + r / 4;
    EvenPlus(q * 1024, r / 2);
    EvenPlus(q * 512, r / 4);
  }

  lemma EvenPlus(a: nat, b: nat)
    ensures (2 * a + b) % 2 == b % 2
  {}

  /** The W and U bits are among the low 12. */
  lemma RightsOf(w: nat, perm: nat)
    requires w % PGSIZE / 2 == perm % PGSIZE / 2
    ensures HasW(w) == HasW(perm) && HasU(w) == HasU(perm)
  {
    LowBits(w);
    LowBits(perm);
    assert w % PGSIZE / 4 == w % PGSIZE / 2 / 2 && perm % PGSIZE / 4 == perm % PGSIZE / 2 / 2;
  }

  lemma FrameBound(f: nat, b: nat)
    requires f < 0x10_0000 && b < 0x1_0000_0000
    ensures Or(f, b / PGSIZE) < 0x10_0000
  {
    PageNumbers();
    OrBound(f, b / PGSIZE, 20);
  }

  /** A page's address, the lowest bit, and a 32-bit number together. */
  lemma OrEntry(f: nat, b: nat)
    requires f < 0x10_0000 && b < 0x1_0000_0000
    ensures Or(f * PGSIZE, Or(1, b)) == Or(f, b / PGSIZE) * PGSIZE + Odd(b) % PGSIZE
    ensures Or(f, b / PGSIZE) < 0x10_0000
  {
    OrOne(b);
    OddPage(b);
    OrPage(f, Odd(b));
    FrameBound(f, b);
  }
}
