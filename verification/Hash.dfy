/** internal/hll/hll.go: hash64, the 64-bit hash behind every sketch. Go's uint64 words are
    natural numbers below 2^64; multiplication wraps, `^` and `>>` work bit by bit. */
module Hash {
  import opened Words

  const TWO64: nat := 0x1_0000_0000_0000_0000

  type uint64 = x: nat | x < TWO64

  function Pow2(k: nat): (p: nat)
    ensures p >= 1
  {
    if k == 0 then 1 else 2 * Pow2(k - 1)
  }

  /** `x >> k`. */
  function ShiftRight(x: nat, k: nat): nat
    decreases k
  {
    if k == 0 then x else ShiftRight(x / 2, k - 1)
  }

  /** `a ^ b`, from the lowest bit up. */
  function Xor(a: nat, b: nat): nat
    decreases a + b
  {
    if a == 0 && b == 0 then 0 else 2 * Xor(a / 2, b / 2) + (a + b) % 2
  }

  function Multiply(x: nat, c: nat): uint64 {
    x * c % TWO64
  }

  lemma {:induction false} XorBound(a: nat, b: nat, n: nat)
    requires a < Pow2(n) && b < Pow2(n)
    ensures Xor(a, b) < Pow2(n)
    decreases n
  {
    if n > 0 {
      XorBound(a / 2, b / 2, n - 1);
    }
  }

  lemma {:induction false} XorZero(a: nat)
    ensures Xor(a, 0) == a
    decreases a
  {
    if a > 0 {
      XorZero(a / 2);
    }
  }

  lemma {:induction false} XorSelf(a: nat)
    ensures Xor(a, a) == 0
    decreases a
  {
    if a > 0 {
      XorSelf(a / 2);
    }
  }

  lemma XorBits(a: nat, b: nat)
    ensures Xor(a, b) / 2 == Xor(a / 2, b / 2)
    ensures Xor(a, b) % 2 == (a + b) % 2
  {
  }

  lemma SameParity(u: nat, v: nat, a: nat, b: nat, c: nat)
    requires u % 2 == (a + b) % 2 && v % 2 == (b + c) % 2
    ensures (u + c) % 2 == (a + v) % 2
  {
  }

  lemma {:induction false} XorAssociative(a: nat, b: nat, c: nat)
    ensures Xor(Xor(a, b), c) == Xor(a, Xor(b, c))
    decreases a + b + c
  {
    var u, v := Xor(a, b), Xor(b, c);
    if a + b + c == 0 {
      assert u == 0 && v == 0;
    } else {
      XorAssociative(a / 2, b / 2, c / 2);
      XorBits(a, b);
      XorBits(b, c);
      SameParity(u, v, a, b, c);
      SameXor(u, c, a, v);
    }
  }

  lemma SameXor(a: nat, b: nat, c: nat, d: nat)
    requires Xor(a / 2, b / 2) == Xor(c / 2, d / 2) && (a + b) % 2 == (c + d) % 2
    ensures Xor(a, b) == Xor(c, d)
  {
  }

  lemma {:induction false} ShiftOfXor(a: nat, b: nat, k: nat)
    ensures ShiftRight(Xor(a, b), k) == Xor(ShiftRight(a, k), ShiftRight(b, k))
    decreases k
  {
    if k > 0 {
      ShiftOfXor(a / 2, b / 2, k - 1);
    }
  }

  lemma {:induction false} ShiftTwice(x: nat, j: nat, k: nat)
    ensures ShiftRight(ShiftRight(x, j), k) == ShiftRight(x, j + k)
    decreases j
  {
    if j > 0 {
      ShiftTwice(x / 2, j - 1, k);
    }
  }

  lemma {:induction false} ShiftedOut(x: nat, n: nat, k: nat)
    requires x < Pow2(n) && n <= k
    ensures ShiftRight(x, k) == 0
    decreases k
  {
    if n > 0 {
      ShiftedOut(x / 2, n - 1, k - 1);
    } else if k > 0 {
      ShiftedOut(x / 2, 0, k - 1);
    }
  }

  lemma ShiftShrinks(x: nat, k: nat)
    ensures ShiftRight(x, k) <= x
    decreases k
  {
  }

  lemma {:induction false} Pow2Add(j: nat, k: nat)
    ensures Pow2(j + k) == Pow2(j) * Pow2(k)
    decreases j
  {
    if j > 0 {
      Pow2Add(j - 1, k);
      assert Pow2(j + k) == 2 * Pow2(j - 1 + k);
    }
  }

  lemma Pow2Plus4(k: nat)
    ensures Pow2(k + 4) == 16 * Pow2(k)
  {
    assert Pow2(k + 4) == 2 * Pow2(k + 3) == 4 * Pow2(k + 2) == 8 * Pow2(k + 1);
  }

  lemma Pow2Plus8(k: nat)
    ensures Pow2(k + 8) == 256 * Pow2(k)
  {
    Pow2Plus4(k);
    Pow2Plus4(k + 4);
  }

  lemma Pow2Plus16(k: nat)
    ensures Pow2(k + 16) == 0x10000 * Pow2(k)
  {
    Pow2Plus8(k);
    Pow2Plus8(k + 8);
  }

  lemma Pow2At64()
    ensures Pow2(14) == 0x4000 && Pow2(50) == 0x4_0000_0000_0000 && Pow2(64) == TWO64
  {
    assert Pow2(0) == 1 && Pow2(2) == 4;
    Pow2Plus4(2);
    Pow2Plus8(6);
    Pow2Plus16(0);
    Pow2Plus16(16);
    Pow2Plus16(32);
    Pow2Plus16(48);
    Pow2Plus16(2);
    Pow2Plus16(18);
    Pow2Plus16(34);
  }

  lemma HalveTwice(x: nat, p: nat)
    requires p > 0
    ensures x / 2 / p == x / (2 * p)
  {
    var q, r := x / 2 / p, x / 2 % p;
    assert x == 2 * (q * p + r) + x % 2;
    QuotientIsUnique(x, 2 * p, q, 2 * r + x % 2);
  }

  lemma QuotientIsUnique(x: int, d: int, q: int, r: int)
    requires x == q * d + r && 0 <= r < d
    ensures x / d == q && x % d == r
  {
    var q', r' := x / d, x % d;
    assert (q - q') * d == r' - r && (q' - q) * d == r - r';
    if q' < q {
      MultipleIsLarge(q - q', d);
    } else if q < q' {
      MultipleIsLarge(q' - q, d);
    }
  }

  lemma MultipleIsLarge(k: int, d: int)
    requires k >= 1 && d > 0
    ensures k * d >= d
  {
  }

  lemma {:induction false} ShiftIsDivision(x: nat, k: nat)
    ensures ShiftRight(x, k) == x / Pow2(k)
    decreases k
  {
    if k > 0 {
      ShiftIsDivision(x / 2, k - 1);
      HalveTwice(x, Pow2(k - 1));
    }
  }

  /** `x ^= x >> k`. */
  function XorShift(x: uint64, k: nat): (y: uint64) {
    Pow2At64();
    ShiftShrinks(x, k);
    XorBound(x, ShiftRight(x, k), 64);
    Xor(x, ShiftRight(x, k))
  }

  /** `y ^ y >> k ^ y >> 2k`, which undoes `x ^= x >> k` once 3k >= 64. */
  function UndoXorShift(y: uint64, k: nat): (x: uint64) {
    Pow2At64();
    ShiftShrinks(y, k);
    ShiftShrinks(y, 2 * k);
    XorBound(y, ShiftRight(y, k), 64);
    XorBound(Xor(y, ShiftRight(y, k)), ShiftRight(y, 2 * k), 64);
    Xor(Xor(y, ShiftRight(y, k)), ShiftRight(y, 2 * k))
  }

  lemma XorCancel(a: nat, b: nat)
    ensures Xor(Xor(a, b), b) == a
  {
    XorAssociative(a, b, b);
    XorSelf(b);
    XorZero(a);
  }

  lemma XorShiftUndone(x: uint64, k: nat)
    requires 3 * k >= 64
    ensures UndoXorShift(XorShift(x, k), k) == x
  {
    var s1, s2, s3 := ShiftRight(x, k), ShiftRight(x, 2 * k), ShiftRight(x, 3 * k);
    var y := Xor(x, s1);
    ShiftOfXor(x, s1, k);
    ShiftTwice(x, k, k);
    assert ShiftRight(y, k) == Xor(s1, s2);
    ShiftOfXor(x, s1, 2 * k);
    ShiftTwice(x, k, 2 * k);
    assert ShiftRight(y, 2 * k) == Xor(s2, s3);
    Pow2At64();
    ShiftedOut(x, 64, 3 * k);
    XorZero(s2);
    XorAssociative(y, s1, s2);
    XorCancel(x, s1);
    XorCancel(x, s2);
  }

  lemma UndoXorShiftUndone(y: uint64, k: nat)
    requires 3 * k >= 64
    ensures XorShift(UndoXorShift(y, k), k) == y
  {
    var s1, s2, s3 := ShiftRight(y, k), ShiftRight(y, 2 * k), ShiftRight(y, 3 * k);
    ShiftOfXor(Xor(y, s1), s2, k);
    ShiftOfXor(y, s1, k);
    ShiftTwice(y, k, k);
    ShiftTwice(y, 2 * k, k);
    Pow2At64();
    ShiftedOut(y, 64, 3 * k);
    XorZero(Xor(s1, s2));
    XorAssociative(Xor(y, s1), s2, Xor(s1, s2));
    XorAssociative(y, s1, s2);
    XorCancel(y, Xor(s1, s2));
  }

  const FIRST: nat := 0xbf58476d1ce4e5b9
  const SECOND: nat := 0x94d049bb133111eb

  /** The inverses of the two odd multipliers modulo 2^64. */
  const FIRST_INVERSE: nat := 0x96de1b173f119089
  const SECOND_INVERSE: nat := 0x319642b2d24d8ec3

  lemma MultiplyUndone(x: uint64, c: nat, d: nat, q: nat)
    requires c * d == 1 + q * TWO64
    ensures Multiply(Multiply(x, c), d) == x
  {
    var a, r := x * c / TWO64, x * c % TWO64;
    calc {
      r * d;
      (x * c - a * TWO64) * d;
      x * (c * d) - a * d * TWO64;
      x + (x * q - a * d) * TWO64;
    }
    RemainderIsUnique(r * d, x * q - a * d, x);
  }

  lemma RemainderIsUnique(n: int, q: int, r: nat)
    requires n == r + q * TWO64 && r < TWO64
    ensures n % TWO64 == r
  {
  }

  /** The splitmix64-style finalizer of hash64. */
  function Mix(x: uint64): uint64 {
    XorShift(Multiply(XorShift(Multiply(XorShift(x, 30), FIRST), 27), SECOND), 31)
  }

  /** The explicit inverse of Mix. */
  function Unmix(y: uint64): uint64 {
    UndoXorShift(
      Multiply(UndoXorShift(Multiply(UndoXorShift(y, 31), SECOND_INVERSE), 27), FIRST_INVERSE), 30)
  }

  lemma MultipliersUndone(x: uint64)
    ensures Multiply(Multiply(x, FIRST), FIRST_INVERSE) == x
    ensures Multiply(Multiply(x, FIRST_INVERSE), FIRST) == x
    ensures Multiply(Multiply(x, SECOND), SECOND_INVERSE) == x
    ensures Multiply(Multiply(x, SECOND_INVERSE), SECOND) == x
  {
    var q1 := FIRST * FIRST_INVERSE / TWO64;
    var q2 := SECOND * SECOND_INVERSE / TWO64;
    MultiplyUndone(x, FIRST, FIRST_INVERSE, q1);
    MultiplyUndone(x, FIRST_INVERSE, FIRST, q1);
    MultiplyUndone(x, SECOND, SECOND_INVERSE, q2);
    MultiplyUndone(x, SECOND_INVERSE, SECOND, q2);
  }

  lemma MixThenUnmix(x: uint64)
    ensures Unmix(Mix(x)) == x
  {
    var x1 := XorShift(x, 30);
    var x2 := Multiply(x1, FIRST);
    var x3 := XorShift(x2, 27);
    var x4 := Multiply(x3, SECOND);
    XorShiftUndone(x4, 31);
    MultipliersUndone(x3);
    XorShiftUndone(x2, 27);
    MultipliersUndone(x1);
    XorShiftUndone(x, 30);
  }

  lemma UnmixThenMix(y: uint64)
    ensures Mix(Unmix(y)) == y
  {
    var y1 := UndoXorShift(y, 31);
    var y2 := Multiply(y1, SECOND_INVERSE);
    var y3 := UndoXorShift(y2, 27);
    var y4 := Multiply(y3, FIRST_INVERSE);
    UndoXorShiftUndone(y4, 30);
    MultipliersUndone(y3);
    UndoXorShiftUndone(y2, 27);
    MultipliersUndone(y1);
    UndoXorShiftUndone(y, 31);
  }

  /** The finalizer is a bijection on 64-bit words: it adds no collision to FNV-1a's. */
  lemma MixIsBijective(x: uint64, y: uint64)
    ensures Mix(x) == Mix(y) <==> x == y
    ensures exists z: uint64 :: Mix(z) == y
  {
    MixThenUnmix(x);
    MixThenUnmix(y);
    UnmixThenMix(y);
  }

  const FNV_OFFSET: uint64 := 0xcbf29ce484222325
  const FNV_PRIME: nat := 0x100000001b3

  /** One step of FNV-1a. */
  function FnvStep(h: uint64, byte: uint8): uint64 {
    Multiply(Xor(h, byte as nat), FNV_PRIME)
  }

  /** hash/fnv's 64-bit FNV-1a. */
  function Fnv1a(value: GoString): uint64 {
    if value == [] then FNV_OFFSET
    else FnvStep(Fnv1a(Front(value)), Last(value))
  }

  /** The inverse of the prime modulo 2^64. */
  const FNV_PRIME_INVERSE: nat := 0xce965057aff6957b

  lemma {:induction false} XorCommutes(a: nat, b: nat)
    ensures Xor(a, b) == Xor(b, a)
    decreases a + b
  {
    if a + b > 0 {
      XorCommutes(a / 2, b / 2);
    }
  }

  lemma PrimeUndone(x: uint64)
    ensures Multiply(Multiply(x, FNV_PRIME), FNV_PRIME_INVERSE) == x
  {
    MultiplyUndone(x, FNV_PRIME, FNV_PRIME_INVERSE, FNV_PRIME * FNV_PRIME_INVERSE / TWO64);
  }

  lemma XorFits(h: uint64, byte: uint8)
    ensures Xor(h, byte as nat) < TWO64
  {
    Pow2At64();
    XorBound(h, byte as nat, 64);
  }

  /** A step is injective in the state and in the byte. */
  lemma FnvStepIsInjective(g: uint64, h: uint64, b: uint8, c: uint8)
    requires g == h || b == c
    ensures FnvStep(g, b) == FnvStep(h, c) <==> g == h && b == c
  {
    XorFits(g, b);
    XorFits(h, c);
    PrimeUndone(Xor(g, b as nat));
    PrimeUndone(Xor(h, c as nat));
    XorCancel(g, b as nat);
    XorCancel(h, c as nat);
    XorCommutes(g, b as nat);
    XorCommutes(h, c as nat);
    XorCancel(b as nat, g);
    XorCancel(c as nat, h);
  }

  /** The strings have the same length and differ at `i` and nowhere else. */
  ghost predicate DifferAt(v: GoString, w: GoString, i: nat) {
    |v| == |w| && i < |v| && v[i] != w[i] && forall j :: 0 <= j < |v| && j != i ==> v[j] == w[j]
  }

  lemma {:induction false} FnvTellsApart(v: GoString, w: GoString, i: nat)
    requires DifferAt(v, w, i)
    ensures Fnv1a(v) != Fnv1a(w)
  {
    if i == |v| - 1 {
      assert Front(v) == Front(w);
    } else {
      FnvTellsApart(Front(v), Front(w), i);
    }
    FnvStepIsInjective(Fnv1a(Front(v)), Fnv1a(Front(w)), Last(v), Last(w));
  }

  function Hash64(value: GoString): uint64 {
    Mix(Fnv1a(value))
  }

  /** Two values share a hash exactly when FNV-1a already gave them the same word. */
  lemma HashCollidesWithFnv(v: GoString, w: GoString)
    ensures Hash64(v) == Hash64(w) <==> Fnv1a(v) == Fnv1a(w)
  {
    MixIsBijective(Fnv1a(v), Fnv1a(w));
  }

  /** Changing one byte of a string always changes its hash. */
  lemma HashTellsApart(v: GoString, w: GoString, i: nat)
    requires DifferAt(v, w, i)
    ensures Hash64(v) != Hash64(w)
  {
    FnvTellsApart(v, w, i);
    HashCollidesWithFnv(v, w);
  }
}
