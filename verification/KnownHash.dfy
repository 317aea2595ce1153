/** internal/hll/hll.go: the published FNV-1a value of "a", and its hash64, worked out digit by
    digit. They fix the constants of module Hash. */
module KnownHash {
  import opened Words
  import opened Hash

  /** The two halves of a word. */
  predicate Is(x: nat, high: nat, low: nat) {
    x / 0x1_0000_0000 == high && x % 0x1_0000_0000 == low
  }

  // ---- Exclusive or, digit by digit ----

  datatype Bits = End | Bit(high: Bits, on: bool)

  function Value(l: Bits): nat {
    match l
    case End => 0
    case Bit(high, on) => 2 * Value(high) + Of(on)
  }

  function Of(on: bool): nat {
    if on then 1 else 0
  }

  predicate SameLength(l: Bits, m: Bits) {
    match l
    case End => m.End?
    case Bit(high, _) => m.Bit? && SameLength(high, m.high)
  }

  function XorBits(l: Bits, m: Bits): Bits
    requires SameLength(l, m)
  {
    match l
    case End => End
    case Bit(high, on) => Bit(XorBits(high, m.high), on != m.on)
  }

  lemma HalfOf(a: nat, p: nat)
    requires p < 2
    ensures (2 * a + p) / 2 == a
  {
  }

  lemma ParityOf(a: nat, b: nat, p: nat, q: nat)
    ensures (2 * a + p + (2 * b + q)) % 2 == (p + q) % 2
  {
  }

  lemma FromHalf(x: nat, h: nat, z: nat)
    requires x / 2 == h && x % 2 == z
    ensures x == 2 * h + z
  {
  }

  lemma XorBit(a: nat, b: nat, p: nat, q: nat, z: nat)
    requires p < 2 && q < 2 && z == (p + q) % 2
    ensures Xor(2 * a + p, 2 * b + q) == 2 * Xor(a, b) + z
  {
    HalfOf(a, p);
    HalfOf(b, q);
    ParityOf(a, b, p, q);
    Hash.XorBits(2 * a + p, 2 * b + q);
    FromHalf(Xor(2 * a + p, 2 * b + q), Xor(a, b), z);
  }

  lemma {:induction false} XorOfBits(l: Bits, m: Bits)
    requires SameLength(l, m)
    ensures Xor(Value(l), Value(m)) == Value(XorBits(l, m))
  {
    match l
    case End =>
    case Bit(high, on) =>
      XorOfBits(high, m.high);
      XorBit(Value(high), Value(m.high), Of(on), Of(m.on), Of(on != m.on));
  }

  /** `r` is the exclusive or of `x` and `y`, by their bits. */
  ghost predicate IsXor(x: nat, y: nat, r: nat) {
    exists l, m :: SameLength(l, m) && Value(l) == x && Value(m) == y && Value(XorBits(l, m)) == r
  }

  lemma XorIs(x: nat, y: nat, r: nat)
    requires IsXor(x, y, r)
    ensures Xor(x, y) == r
  {
    var l, m :| SameLength(l, m) && Value(l) == x && Value(m) == y && Value(XorBits(l, m)) == r;
    XorOfBits(l, m);
  }

  lemma XorStart()
    ensures IsXor(0, 0, 0)
  {
    assert SameLength(End, End) && Value(End) == 0 && XorBits(End, End) == End;
  }

  lemma OneBit(x: nat, y: nat, r: nat, p: bool, q: bool)
    requires IsXor(x, y, r)
    ensures IsXor(2 * x + Of(p), 2 * y + Of(q), 2 * r + Of(p != q))
  {
    var l, m :| SameLength(l, m) && Value(l) == x && Value(m) == y && Value(XorBits(l, m)) == r;
    assert SameLength(Bit(l, p), Bit(m, q)) && XorBits(Bit(l, p), Bit(m, q)) == Bit(XorBits(l, m), p != q);
  }

  lemma TwoBits(x: nat, y: nat, r: nat, p1: bool, p0: bool, q1: bool, q0: bool)
    requires IsXor(x, y, r)
    ensures IsXor(4 * x + 2 * Of(p1) + Of(p0), 4 * y + 2 * Of(q1) + Of(q0), 4 * r + 2 * Of(p1 != q1) + Of(p0 != q0))
  {
    OneBit(x, y, r, p1, q1);
    OneBit(2 * x + Of(p1), 2 * y + Of(q1), 2 * r + Of(p1 != q1), p0, q0);
  }

  function XorDigit(d: nat, e: nat): nat {
    8 * Of((d >= 8) != (e >= 8)) + 4 * Of((d % 8 >= 4) != (e % 8 >= 4)) + 2 * Of((d % 4 >= 2) != (e % 4 >= 2))
    + Of((d % 2 == 1) != (e % 2 == 1))
  }

  lemma BitsOfDigit(d: nat)
    requires d < 16
    ensures d == 8 * Of(d >= 8) + 4 * Of(d % 8 >= 4) + 2 * Of(d % 4 >= 2) + Of(d % 2 == 1)
  {
  }

  lemma FourBits(x: nat, y: nat, r: nat, p3: bool, p2: bool, p1: bool, p0: bool, q3: bool, q2: bool, q1: bool, q0: bool)
    requires IsXor(x, y, r)
    ensures IsXor(16 * x + (8 * Of(p3) + 4 * Of(p2) + 2 * Of(p1) + Of(p0)),
                  16 * y + (8 * Of(q3) + 4 * Of(q2) + 2 * Of(q1) + Of(q0)),
                  16 * r + (8 * Of(p3 != q3) + 4 * Of(p2 != q2) + 2 * Of(p1 != q1) + Of(p0 != q0)))
  {
    TwoBits(x, y, r, p3, p2, q3, q2);
    TwoBits(4 * x + 2 * Of(p3) + Of(p2), 4 * y + 2 * Of(q3) + Of(q2), 4 * r + 2 * Of(p3 != q3) + Of(p2 != q2),
            p1, p0, q1, q0);
  }

  lemma OneDigit(x: nat, y: nat, r: nat, d: nat, e: nat, z: nat)
    requires IsXor(x, y, r) && d < 16 && e < 16 && z == XorDigit(d, e)
    ensures IsXor(16 * x + d, 16 * y + e, 16 * r + z)
  {
    BitsOfDigit(d);
    BitsOfDigit(e);
    FourBits(x, y, r, d >= 8, d % 8 >= 4, d % 4 >= 2, d % 2 == 1, e >= 8, e % 8 >= 4, e % 4 >= 2, e % 2 == 1);
  }

  lemma FourDigits(x: nat, y: nat, r: nat, d3: nat, d2: nat, d1: nat, d0: nat, e3: nat, e2: nat, e1: nat, e0: nat,
                   z3: nat, z2: nat, z1: nat, z0: nat, x': nat, y': nat, r': nat)
    requires IsXor(x, y, r) && d3 < 16 && d2 < 16 && d1 < 16 && d0 < 16 && e3 < 16 && e2 < 16 && e1 < 16 && e0 < 16
    requires z3 == XorDigit(d3, e3) && z2 == XorDigit(d2, e2) && z1 == XorDigit(d1, e1) && z0 == XorDigit(d0, e0)
    requires x' == 0x10000 * x + 0x1000 * d3 + 0x100 * d2 + 0x10 * d1 + d0
    requires y' == 0x10000 * y + 0x1000 * e3 + 0x100 * e2 + 0x10 * e1 + e0
    requires r' == 0x10000 * r + 0x1000 * z3 + 0x100 * z2 + 0x10 * z1 + z0
    ensures IsXor(x', y', r')
  {
    OneDigit(x, y, r, d3, e3, z3);
    OneDigit(16 * x + d3, 16 * y + e3, 16 * r + z3, d2, e2, z2);
    OneDigit(16 * (16 * x + d3) + d2, 16 * (16 * y + e3) + e2, 16 * (16 * r + z3) + z2, d1, e1, z1);
    OneDigit(16 * (16 * (16 * x + d3) + d2) + d1, 16 * (16 * (16 * y + e3) + e2) + e1,
             16 * (16 * (16 * r + z3) + z2) + z1, d0, e0, z0);
  }

  // ---- FNV-1a of "a" ----

  lemma FnvDigits(x: nat, y: nat, r: nat)
    requires Is(x, 0xcbf29ce4, 0x84222325) && Is(y, 0x0, 0x61) && Is(r, 0xcbf29ce4, 0x84222344)
    ensures IsXor(x, y, r)
  {
    XorStart();
    FourDigits(0x0, 0x0, 0x0, 0xc, 0xb, 0xf, 0x2, 0x0, 0x0, 0x0, 0x0, 0xc, 0xb, 0xf, 0x2,
               0xcbf2, 0x0, 0xcbf2);
    FourDigits(0xcbf2, 0x0, 0xcbf2, 0x9, 0xc, 0xe, 0x4, 0x0, 0x0, 0x0, 0x0, 0x9, 0xc, 0xe, 0x4,
               0xcbf29ce4, 0x0, 0xcbf29ce4);
    FourDigits(0xcbf29ce4, 0x0, 0xcbf29ce4, 0x8, 0x4, 0x2, 0x2, 0x0, 0x0, 0x0, 0x0, 0x8, 0x4, 0x2, 0x2,
               0xcbf29ce48422, 0x0, 0xcbf29ce48422);
    FourDigits(0xcbf29ce48422, 0x0, 0xcbf29ce48422, 0x2, 0x3, 0x2, 0x5, 0x0, 0x0, 0x6, 0x1, 0x2, 0x3, 0x4, 0x4,
               0xcbf29ce484222325, 0x61, 0xcbf29ce484222344);
  }

  lemma FnvXor(h: uint64, byte: uint8)
    requires Is(h, 0xcbf29ce4, 0x84222325) && byte == 97
    ensures Is(Xor(h, byte as nat), 0xcbf29ce4, 0x84222344)
  {
    FnvDigits(h, byte as nat, 0xcbf29ce484222344);
    XorIs(h, byte as nat, 0xcbf29ce484222344);
  }

  lemma FnvProduct(x: nat)
    requires Is(x, 0xcbf29ce4, 0x84222344)
    ensures Is(Multiply(x, FNV_PRIME), 0xaf63dc4c, 0x8601ec8c)
  {
  }

  lemma FnvOfOne(value: GoString, h: uint64)
    requires |value| == 1 && h == FNV_OFFSET
    ensures Fnv1a(value) == FnvStep(h, value[0])
  {
    assert Front(value) == [];
  }

  /** The value of the empty string. */
  lemma FnvOfEmpty(h: uint64)
    requires h == Fnv1a([])
    ensures Is(h, 0xcbf29ce4, 0x84222325)
  {
  }

  /** The value of "a" is 0xaf63dc4c8601ec8c. */
  lemma FnvOfA(value: GoString)
    requires |value| == 1 && value[0] == 97
    ensures Is(Fnv1a(value), 0xaf63dc4c, 0x8601ec8c)
  {
    var h := FNV_OFFSET;
    FnvOfOne(value, h);
    FnvOfEmpty(h);
    FnvXor(h, value[0]);
    FnvProduct(Xor(h, value[0] as nat));
  }

  // ---- hash64 of "a" ----

  lemma Pow2Of31()
    ensures Pow2(27) == 0x800_0000 && Pow2(30) == 0x4000_0000 && Pow2(31) == 0x8000_0000
  {
    assert Pow2(0) == 1 && Pow2(1) == 2 && Pow2(2) == 4 && Pow2(3) == 8;
    Pow2Plus8(3);
    Pow2Plus16(11);
    assert Pow2(28) == 2 * Pow2(27) && Pow2(29) == 2 * Pow2(28) && Pow2(30) == 2 * Pow2(29);
    assert Pow2(31) == 2 * Pow2(30);
  }

  lemma FirstDigits(x: nat, y: nat, r: nat)
    requires Is(x, 0xaf63dc4c, 0x8601ec8c) && Is(y, 0x2, 0xbd8f7132) && Is(r, 0xaf63dc4e, 0x3b8e9dbe)
    ensures IsXor(x, y, r)
  {
    XorStart();
    FourDigits(0x0, 0x0, 0x0, 0xa, 0xf, 0x6, 0x3, 0x0, 0x0, 0x0, 0x0, 0xa, 0xf, 0x6, 0x3,
               0xaf63, 0x0, 0xaf63);
    FourDigits(0xaf63, 0x0, 0xaf63, 0xd, 0xc, 0x4, 0xc, 0x0, 0x0, 0x0, 0x2, 0xd, 0xc, 0x4, 0xe,
               0xaf63dc4c, 0x2, 0xaf63dc4e);
    FourDigits(0xaf63dc4c, 0x2, 0xaf63dc4e, 0x8, 0x6, 0x0, 0x1, 0xb, 0xd, 0x8, 0xf, 0x3, 0xb, 0x8, 0xe,
               0xaf63dc4c8601, 0x2bd8f, 0xaf63dc4e3b8e);
    FourDigits(0xaf63dc4c8601, 0x2bd8f, 0xaf63dc4e3b8e, 0xe, 0xc, 0x8, 0xc, 0x7, 0x1, 0x3, 0x2, 0x9, 0xd, 0xb, 0xe,
               0xaf63dc4c8601ec8c, 0x2bd8f7132, 0xaf63dc4e3b8e9dbe);
  }

  lemma FirstShift(x: uint64, k: nat)
    requires Is(x, 0xaf63dc4c, 0x8601ec8c) && k == 30
    ensures Is(XorShift(x, k), 0xaf63dc4e, 0x3b8e9dbe)
  {
    Pow2Of31();
    ShiftIsDivision(x, k);
    FirstDigits(x, x / 0x4000_0000, 0xaf63dc4e3b8e9dbe);
    XorIs(x, x / 0x4000_0000, 0xaf63dc4e3b8e9dbe);
  }

  lemma FirstProduct(x: uint64)
    requires Is(x, 0xaf63dc4e, 0x3b8e9dbe)
    ensures Is(Multiply(x, FIRST), 0xbc35affa, 0xe262f44e)
  {
  }

  lemma SecondStart()
    ensures IsXor(0xbc35affa, 0x17, 0xbc35afed)
  {
    XorStart();
    FourDigits(0x0, 0x0, 0x0, 0xb, 0xc, 0x3, 0x5, 0x0, 0x0, 0x0, 0x0, 0xb, 0xc, 0x3, 0x5,
               0xbc35, 0x0, 0xbc35);
    FourDigits(0xbc35, 0x0, 0xbc35, 0xa, 0xf, 0xf, 0xa, 0x0, 0x0, 0x1, 0x7, 0xa, 0xf, 0xe, 0xd,
               0xbc35affa, 0x17, 0xbc35afed);
  }

  lemma SecondDigits(x: nat, y: nat, r: nat)
    requires Is(x, 0xbc35affa, 0xe262f44e) && Is(y, 0x17, 0x86b5ff5c) && Is(r, 0xbc35afed, 0x64d70b12)
    ensures IsXor(x, y, r)
  {
    SecondStart();
    FourDigits(0xbc35affa, 0x17, 0xbc35afed, 0xe, 0x2, 0x6, 0x2, 0x8, 0x6, 0xb, 0x5, 0x6, 0x4, 0xd, 0x7,
               0xbc35affae262, 0x1786b5, 0xbc35afed64d7);
    FourDigits(0xbc35affae262, 0x1786b5, 0xbc35afed64d7, 0xf, 0x4, 0x4, 0xe, 0xf, 0xf, 0x5, 0xc, 0x0, 0xb, 0x1, 0x2,
               0xbc35affae262f44e, 0x1786b5ff5c, 0xbc35afed64d70b12);
  }

  lemma SecondShift(x: uint64, k: nat)
    requires Is(x, 0xbc35affa, 0xe262f44e) && k == 27
    ensures Is(XorShift(x, k), 0xbc35afed, 0x64d70b12)
  {
    Pow2Of31();
    ShiftIsDivision(x, k);
    SecondDigits(x, x / 0x800_0000, 0xbc35afed64d70b12);
    XorIs(x, x / 0x800_0000, 0xbc35afed64d70b12);
  }

  lemma SecondProduct(x: uint64)
    requires Is(x, 0xbc35afed, 0x64d70b12)
    ensures Is(Multiply(x, SECOND), 0x2c0bdbf, 0x4d955b86)
  {
  }

  lemma ThirdStart()
    ensures IsXor(0x2c0bdbf, 0x0, 0x2c0bdbf)
  {
    XorStart();
    FourDigits(0x0, 0x0, 0x0, 0x0, 0x2, 0xc, 0x0, 0x0, 0x0, 0x0, 0x0, 0x0, 0x2, 0xc, 0x0,
               0x2c0, 0x0, 0x2c0);
    FourDigits(0x2c0, 0x0, 0x2c0, 0xb, 0xd, 0xb, 0xf, 0x0, 0x0, 0x0, 0x0, 0xb, 0xd, 0xb, 0xf,
               0x2c0bdbf, 0x0, 0x2c0bdbf);
  }

  lemma ThirdDigits(x: nat, y: nat, r: nat)
    requires Is(x, 0x2c0bdbf, 0x4d955b86) && Is(y, 0x0, 0x5817b7e) && Is(r, 0x2c0bdbf, 0x481420f8)
    ensures IsXor(x, y, r)
  {
    ThirdStart();
    FourDigits(0x2c0bdbf, 0x0, 0x2c0bdbf, 0x4, 0xd, 0x9, 0x5, 0x0, 0x5, 0x8, 0x1, 0x4, 0x8, 0x1, 0x4,
               0x2c0bdbf4d95, 0x581, 0x2c0bdbf4814);
    FourDigits(0x2c0bdbf4d95, 0x581, 0x2c0bdbf4814, 0x5, 0xb, 0x8, 0x6, 0x7, 0xb, 0x7, 0xe, 0x2, 0x0, 0xf, 0x8,
               0x2c0bdbf4d955b86, 0x5817b7e, 0x2c0bdbf481420f8);
  }

  lemma ThirdShift(x: uint64, k: nat)
    requires Is(x, 0x2c0bdbf, 0x4d955b86) && k == 31
    ensures Is(XorShift(x, k), 0x2c0bdbf, 0x481420f8)
  {
    Pow2Of31();
    ShiftIsDivision(x, k);
    ThirdDigits(x, x / 0x8000_0000, 0x2c0bdbf481420f8);
    XorIs(x, x / 0x8000_0000, 0x2c0bdbf481420f8);
  }

  /** The hash of "a" is 0x02c0bdbf481420f8. */
  lemma HashOfA(value: GoString)
    requires |value| == 1 && value[0] == 97
    ensures Is(Hash64(value), 0x2c0bdbf, 0x481420f8)
  {
    FnvOfA(value);
    var x1 := XorShift(Fnv1a(value), 30);
    FirstShift(Fnv1a(value), 30);
    FirstProduct(x1);
    var x2 := XorShift(Multiply(x1, FIRST), 27);
    SecondShift(Multiply(x1, FIRST), 27);
    SecondProduct(x2);
    ThirdShift(Multiply(x2, SECOND), 31);
  }
}
