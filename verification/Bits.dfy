/** Reversing the low bits of an index, as the census order does to spread its visits:
    reversal undoes itself, sends exactly the multiples of a power of two below the
    opposite power, and reversing a wider word and shifting down gives the same.
    Everything is by induction on the number of bits. */
module Bits {

  function Pow2(k: nat): (p: nat)
    ensures p >= 1
  {
    if k == 0 then 1 else 2 * Pow2(k - 1)
  }

  /** The low k bits of i, reversed. */
  function Reverse(i: nat, k: nat): nat {
    if k == 0 then 0 else (if i % 2 == 1 then Pow2(k - 1) else 0) + Reverse(i / 2, k - 1)
  }

  /** The number of bits n needs. */
  function BitLen(n: nat): nat {
    if n == 0 then 0 else 1 + BitLen(n / 2)
  }

  lemma {:induction false} BitLenBounds(n: nat)
    ensures n < Pow2(BitLen(n))
    ensures n > 0 ==> BitLen(n) > 0 && Pow2(BitLen(n) - 1) <= n
  {
    if n > 0 { BitLenBounds(n / 2); }
  }

  lemma {:induction false} Pow2Monotone(a: nat, b: nat)
    requires a <= b
    ensures Pow2(a) <= Pow2(b)
    decreases b
  {
    if a < b { Pow2Monotone(a, b - 1); }
  }

  lemma {:induction false} Pow2Add(a: nat, b: nat)
    ensures Pow2(a + b) == Pow2(a) * Pow2(b)
  {
    if a > 0 {
      Pow2Add(a - 1, b);
      assert Pow2(a + b) == 2 * Pow2(a - 1 + b);
      assert 2 * (Pow2(a - 1) * Pow2(b)) == (2 * Pow2(a - 1)) * Pow2(b);
    }
  }

  lemma {:induction false} ReverseBound(i: nat, k: nat)
    ensures Reverse(i, k) < Pow2(k)
  {
    if k > 0 { ReverseBound(i / 2, k - 1); }
  }

  /** The top bit becomes the bottom bit. */
  lemma {:induction false} ReverseTop(r: nat, top: bool, k: nat)
    requires r < Pow2(k)
    ensures Reverse(r + (if top then Pow2(k) else 0), k + 1) == 2 * Reverse(r, k) + if top then 1 else 0
  {
    var i := r + if top then Pow2(k) else 0;
    if k > 0 {
      assert i % 2 == r % 2;
      assert i / 2 == r / 2 + if top then Pow2(k - 1) else 0;
      ReverseTop(r / 2, top, k - 1);
    } else {
      assert Reverse(i, 1) == (if i % 2 == 1 then Pow2(0) else 0) + Reverse(i / 2, 0);
    }
  }

  /** Reversing twice gives the index back: the loop visits a permutation. */
  lemma {:induction false} ReverseInvolutive(i: nat, k: nat)
    requires i < Pow2(k)
    ensures Reverse(Reverse(i, k), k) == i
  {
    if k > 0 {
      ReverseInvolutive(i / 2, k - 1);
      ReverseBound(i / 2, k - 1);
      ReverseTop(Reverse(i / 2, k - 1), i % 2 == 1, k - 1);
    }
  }

  /** The low j bits of f are zero. */
  predicate LowZeros(f: nat, j: nat) {
    j == 0 || (f % 2 == 0 && LowZeros(f / 2, j - 1))
  }

  /** An index is reversed below 2^j exactly when its low k-j bits are zero. */
  lemma {:induction false} ReverseOfMultiples(f: nat, k: nat, j: nat)
    requires j <= k && f < Pow2(k)
    ensures Reverse(f, k) < Pow2(j) <==> LowZeros(f, k - j)
    decreases k
  {
    ReverseBound(f, k);
    if j < k {
      Pow2Monotone(j, k - 1);
      if f % 2 == 0 {
        ReverseOfMultiples(f / 2, k - 1, j);
      } else {
        assert Reverse(f, k) >= Pow2(k - 1);
      }
    }
  }

  /** Shifting down by m bits. */
  function ShiftRight(x: nat, m: nat): nat {
    if m == 0 then x else ShiftRight(x / 2, m - 1)
  }

  /** Reversing a wider word and shifting down reverses the low k bits. */
  lemma {:induction false} WiderReverse(i: nat, k: nat, m: nat)
    requires i < Pow2(k)
    ensures ShiftRight(Reverse(i, k + m), m) == Reverse(i, k)
  {
    if m > 0 {
      Pow2Monotone(k, k + m - 1);
      ReverseTop(i, false, k + m - 1);
      WiderReverse(i, k, m - 1);
    }
  }

  // ---------------------------------------------------------------------------
  // Multiples of a power of two

  lemma OnlyZeroIsSmall(a: nat, d: nat)
    requires a * d < d
    ensures a == 0
  {
  }

  lemma SameQuotient(q: nat, q': nat, d: nat, r: nat, r': nat)
    requires q * d + r == q' * d + r' && r < d && r' < d
    ensures q == q' && r == r'
  {
    if q <= q' {
      assert (q' - q) * d == q' * d - q * d;
      OnlyZeroIsSmall(q' - q, d);
    } else {
      assert (q - q') * d == q * d - q' * d;
      OnlyZeroIsSmall(q - q', d);
    }
  }

  lemma DivisionIsUnique(x: nat, d: nat, q: nat, r: nat)
    requires x == q * d + r && r < d
    ensures x / d == q && x % d == r
  {
    var q', r' := x / d, x % d;
    assert x == q' * d + r';
    SameQuotient(q, q', d, r, r');
  }

  lemma Doubled(x: nat, d: nat)
    requires d >= 1
    ensures (2 * x) / (2 * d) == x / d
    ensures (2 * x) % (2 * d) == 2 * (x % d)
  {
    var q, r := x / d, x % d;
    assert 2 * x == q * (2 * d) + 2 * r;
    DivisionIsUnique(2 * x, 2 * d, q, 2 * r);
  }

  lemma EvenMultiple(f: nat, half: nat)
    requires f % 2 == 0 && half >= 1
    ensures (f / 2) % half == 0 <==> f % (2 * half) == 0
  {
    Doubled(f / 2, half);
  }

  lemma OddIsNoMultiple(f: nat, half: nat)
    requires f % 2 == 1 && half >= 1
    ensures f % (2 * half) != 0
  {
    var q := f / (2 * half);
    assert f == 2 * (q * half) + f % (2 * half);
  }

  /** The low j bits are zero exactly in the multiples of 2^j. */
  lemma {:induction false} LowZerosIsMultiple(f: nat, j: nat)
    ensures LowZeros(f, j) <==> f % Pow2(j) == 0
  {
    if j > 0 {
      if f % 2 == 0 {
        LowZerosIsMultiple(f / 2, j - 1);
        EvenMultiple(f, Pow2(j - 1));
      } else {
        OddIsNoMultiple(f, Pow2(j - 1));
      }
    } else {
      assert Pow2(0) == 1;
    }
  }

  lemma TwiceIsEven(n: nat)
    ensures (2 * n) % 2 == 0 && (2 * n) / 2 == n
  {
  }

  /** Among any 2^j numbers in a row, one has its low j bits zero. */
  lemma {:induction false} LowZerosNearby(a: nat, j: nat) returns (f: nat)
    ensures a <= f < a + Pow2(j) && LowZeros(f, j)
  {
    f := a;
    if j > 0 {
      var up := (a + 1) / 2;
      assert a <= 2 * up <= a + 1;
      var half := LowZerosNearby(up, j - 1);
      f := 2 * half;
      TwiceIsEven(half);
    }
  }
}
