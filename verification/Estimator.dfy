/** internal/hll/hll.go: the arithmetic of Estimate in exact reals. The natural logarithm is a
    parameter of which only elementary facts are used. */
module Estimator {
  import opened Words
  import opened Hash
  import opened HyperLogLog

  const MR: real := 16384.0
  const ALPHA: real := 0.7213 / (1.0 + 1.079 / MR)

  /** What the proofs need of math.Log on [1, ...). */
  ghost predicate IsLog(ln: real -> real) {
    && ln(1.0) == 0.0
    && (forall x, y :: 1.0 <= x <= y ==> ln(x) <= ln(y))
    && (forall x :: 1.0 <= x ==> ln(x) <= x - 1.0)
  }

  /** `1 / float64(uint64(1) << r)`. */
  function InversePower(r: nat): (x: real)
    ensures 0.0 < x <= 1.0
  {
    if r == 0 then 1.0 else InversePower(r - 1) / 2.0
  }

  function PowerSum(regs: seq<uint8>): real {
    if regs == [] then 0.0 else PowerSum(Front(regs)) + InversePower(Last(regs) as nat)
  }

  function ZeroCount(regs: seq<uint8>): nat {
    if regs == [] then 0 else ZeroCount(Front(regs)) + if Last(regs) == 0 then 1 else 0
  }

  lemma {:induction false} SumBounds(regs: seq<uint8>, top: nat)
    requires forall i :: 0 <= i < |regs| ==> regs[i] as nat <= top
    ensures |regs| as real * InversePower(top) <= PowerSum(regs) <= |regs| as real
    ensures ZeroCount(regs) <= |regs|
  {
    if regs != [] {
      SumBounds(Front(regs), top);
      InverseAntitone(Last(regs) as nat, top);
      assert |regs| as real * InversePower(top) == |Front(regs)| as real * InversePower(top) + InversePower(top);
    }
  }

  lemma {:induction false} InverseAntitone(r: nat, s: nat)
    requires r <= s
    ensures InversePower(s) <= InversePower(r)
  {
    if r < s {
      InverseAntitone(r, s - 1);
    }
  }

  lemma PositiveSum(regs: Registers)
    ensures 0.0 < PowerSum(regs)
  {
    SumBounds(regs, 255);
    assert MR * InversePower(255) > 0.0;
  }

  /** The raw HyperLogLog formula. */
  function Raw(regs: Registers): real {
    PositiveSum(regs);
    ALPHA * MR * MR / PowerSum(regs)
  }

  /** The small-range branch of Estimate. */
  predicate UsesLinear(regs: Registers) {
    Raw(regs) <= 2.5 * MR && ZeroCount(regs) > 0
  }

  function Linear(ln: real -> real, zeros: nat): real
    requires zeros > 0
  {
    MR * ln(MR / zeros as real)
  }

  function Value(ln: real -> real, regs: Registers): real {
    if UsesLinear(regs) then Linear(ln, ZeroCount(regs)) else Raw(regs)
  }

  function Rounded(x: real): int {
    (x + 0.5).Floor
  }

  /** `uint64(e + 0.5)`, before it is cut to 64 bits. */
  function Estimate(ln: real -> real, regs: Registers): int {
    Rounded(Value(ln, regs))
  }

  /** Some shift of Estimate's loop is 64 or more: Go's `1 << r` is then 0 and the float sum
      infinite. */
  predicate SumIsInfinite(regs: seq<uint8>) {
    exists i :: 0 <= i < |regs| && regs[i] >= 64
  }

  /** What Estimate returns on any registers: an infinite sum makes the raw value 0. */
  function Returned(ln: real -> real, regs: Registers): int {
    if !SumIsInfinite(regs) then Estimate(ln, regs)
    else if ZeroCount(regs) > 0 then Rounded(Linear(ln, ZeroCount(regs)))
    else 0
  }

  /** Below 64, and so on all registers that Add, Merge and FromBytes of such build, that case
      does not arise; a single register at 64 or above brings it about. */
  lemma ReturnedIsEstimate(ln: real -> real, regs: Registers)
    ensures (forall i :: 0 <= i < M ==> regs[i] < 64) ==> Returned(ln, regs) == Estimate(ln, regs)
    ensures RanksBounded(regs) ==> Returned(ln, regs) == Estimate(ln, regs)
    ensures (exists i :: 0 <= i < M && regs[i] >= 64) && ZeroCount(regs) == 0 ==> Returned(ln, regs) == 0
  {
    assert RanksBounded(regs) ==> forall i :: 0 <= i < M ==> regs[i] as nat <= MAX_RANK;
  }

  // ---- The empty sketch ----

  lemma {:induction false} SumOfZeros(regs: seq<uint8>)
    requires forall i :: 0 <= i < |regs| ==> regs[i] == 0
    ensures PowerSum(regs) == |regs| as real && ZeroCount(regs) == |regs|
  {
    if regs != [] {
      SumOfZeros(Front(regs));
    }
  }

  lemma EmptyEstimatesZero(ln: real -> real)
    requires IsLog(ln)
    ensures Estimate(ln, EMPTY) == 0
  {
    SumOfZeros(EMPTY);
    assert PowerSum(EMPTY) == MR;
    assert Raw(EMPTY) == ALPHA * MR;
    assert MR / (M as real) == 1.0;
  }

  // ---- Monotonicity ----

  ghost predicate BelowEach(a: seq<uint8>, b: seq<uint8>) {
    |a| == |b| && forall i :: 0 <= i < |a| ==> a[i] <= b[i]
  }

  lemma {:induction false} SumsAreMonotone(a: seq<uint8>, b: seq<uint8>)
    requires BelowEach(a, b)
    ensures PowerSum(b) <= PowerSum(a) && ZeroCount(b) <= ZeroCount(a)
  {
    if a != [] {
      SumsAreMonotone(Front(a), Front(b));
      InverseAntitone(Last(a) as nat, Last(b) as nat);
    }
  }

  lemma QuotientIsAntitone(c: real, x: real, y: real)
    requires 0.0 <= c && 0.0 < x <= y
    ensures c / y <= c / x
  {
  }

  lemma RawIsMonotone(a: Registers, b: Registers)
    requires Below(a, b)
    ensures Raw(a) <= Raw(b)
  {
    SumsAreMonotone(a, b);
    PositiveSum(a);
    PositiveSum(b);
    QuotientIsAntitone(ALPHA * MR * MR, PowerSum(b), PowerSum(a));
  }

  lemma LinearIsMonotone(ln: real -> real, zeros: nat, fewer: nat)
    requires IsLog(ln) && 0 < fewer <= zeros <= M
    ensures Linear(ln, zeros) <= Linear(ln, fewer)
  {
    QuotientIsAntitone(MR, fewer as real, zeros as real);
    QuotientIsAntitone(zeros as real, zeros as real, MR);
    assert MR / zeros as real >= 1.0;
  }

  /** Raising registers never leads back to linear counting, and within one of the two
      formulas it never lowers the estimate. */
  lemma EstimateIsMonotone(ln: real -> real, a: Registers, b: Registers)
    requires IsLog(ln) && Below(a, b)
    ensures UsesLinear(b) ==> UsesLinear(a)
    ensures UsesLinear(a) == UsesLinear(b) ==> Estimate(ln, a) <= Estimate(ln, b)
  {
    RawIsMonotone(a, b);
    SumsAreMonotone(a, b);
    SumBounds(a, 255);
    if UsesLinear(b) {
      LinearIsMonotone(ln, ZeroCount(a), ZeroCount(b));
    }
  }

  // ---- What linear counting computes ----

  /** The law that makes a function a logarithm. */
  ghost predicate Multiplies(ln: real -> real) {
    forall x, y {:trigger ln(x * y)} :: 1.0 <= x && 1.0 <= y ==> ln(x * y) == ln(x) + ln(y)
  }

  lemma QuotientsMultiply(a: real, b: real, c: real)
    requires 0.0 < a <= MR && 0.0 < b <= MR && 0.0 < c && a * b == c * MR
    ensures MR / a >= 1.0 && MR / b >= 1.0 && MR / a * (MR / b) == MR / c
  {
    QuotientIsAntitone(MR, a, MR);
    QuotientIsAntitone(MR, b, MR);
    var x, y := MR / a, MR / b;
    assert x * a == MR && y * b == MR;
    assert x * y * (a * b) == MR * MR by {
      assert x * y * (a * b) == x * a * (y * b);
    }
    assert x * y * c * MR == MR * MR;
    assert x * y * c == MR;
    QuotientOf(MR, c, x * y);
  }

  lemma ProductOf(a: nat, b: nat, c: nat)
    requires a * b == c * M
    ensures a as real * b as real == c as real * MR
  {
    assert (a * b) as real == a as real * b as real && (c * M) as real == c as real * MR;
  }

  lemma LogOfProduct(ln: real -> real, x: real, y: real, z: real)
    requires Multiplies(ln) && 1.0 <= x && 1.0 <= y && x * y == z
    ensures MR * ln(x) + MR * ln(y) == MR * ln(z)
  {
    assert ln(x * y) == ln(x) + ln(y);
  }

  /** Linear counting turns products of occupancies into sums: with a of M registers empty after
      some values and b of M after others, it adds up to what a b / M empty registers give. */
  lemma LinearAdds(ln: real -> real, a: nat, b: nat, c: nat)
    requires Multiplies(ln) && 0 < a <= M && 0 < b <= M && 0 < c && a * b == c * M
    ensures Linear(ln, a) + Linear(ln, b) == Linear(ln, c)
  {
    ProductOf(a, b, c);
    QuotientsMultiply(a as real, b as real, c as real);
    LogOfProduct(ln, MR / a as real, MR / b as real, MR / c as real);
  }

  /** A half-empty sketch in linear counting is estimated as 16384 ln 2, which is 11357. */
  lemma HalfEmpty(ln: real -> real, regs: Registers)
    requires ZeroCount(regs) == 8192 && PowerSum(regs) >= 8192.0 && 0.693147 <= ln(2.0) <= 0.693148
    ensures UsesLinear(regs) && Estimate(ln, regs) == 11357
  {
    PositiveSum(regs);
    QuotientIsAntitone(ALPHA * MR * MR, 8192.0, PowerSum(regs));
    assert ALPHA <= 0.7213;
    assert MR / 8192.0 == 2.0;
  }

  // ---- What the loop sums up ----

  /** The sum splits like the registers, and one register of rank r adds 1 / 2^r. */
  lemma {:induction false} SumOfBoth(a: seq<uint8>, b: seq<uint8>)
    ensures PowerSum(a + b) == PowerSum(a) + PowerSum(b)
    ensures ZeroCount(a + b) == ZeroCount(a) + ZeroCount(b)
  {
    if b == [] {
      assert a + b == a;
    } else {
      SumOfBoth(a, Front(b));
      assert Front(a + b) == a + Front(b);
    }
  }

  lemma SumOfOne(r: uint8)
    ensures PowerSum([r]) * Pow2(r as nat) as real == 1.0
    ensures ZeroCount([r]) == if r == 0 then 1 else 0
  {
    assert Front([r]) == [];
    InverseTimesPower(r as nat);
  }

  /** With every register at rank r the raw value is alpha m 2^r. */
  lemma RawOfUniform(r: uint8)
    ensures Raw(Repeat(r, M)) == ALPHA * MR * Pow2(r as nat) as real
    ensures ALPHA * (1.0 + 1.079 / 16384.0) == 0.7213
  {
    var regs: Registers := Repeat(r, M);
    var p, x := Pow2(r as nat) as real, InversePower(r as nat);
    SumOfRepeat(r, M);
    InverseTimesPower(r as nat);
    assert PowerSum(regs) == MR * x;
    assert ALPHA * MR * MR == ALPHA * MR * p * (MR * x) by {
      assert p * x == 1.0;
      assert ALPHA * MR * p * (MR * x) == ALPHA * MR * MR * (p * x);
    }
    PositiveSum(regs);
    QuotientOf(ALPHA * MR * MR, PowerSum(regs), ALPHA * MR * p);
  }

  // ---- Where it is not monotone ----

  lemma OnceMore(n: nat, x: real)
    requires n > 0
    ensures n as real * x == (n - 1) as real * x + x
  {
  }

  lemma {:induction false} SumOfRepeat(r: uint8, n: nat)
    ensures PowerSum(Repeat(r, n)) == n as real * InversePower(r as nat)
    ensures ZeroCount(Repeat(r, n)) == if r == 0 then n else 0
  {
    if n > 0 {
      SumOfRepeat(r, n - 1);
      assert Front(Repeat(r, n)) == Repeat(r, n - 1) && Last(Repeat(r, n)) == r;
      OnceMore(n, InversePower(r as nat));
    }
  }

  /** One register empty, every other at rank 1: linear counting answers m ln m. Filling the
      last register switches to the raw formula, and the estimate drops, more than sixfold
      with the natural logarithm of 16384, about 9.7. */
  lemma EstimateCanDrop(ln: real -> real)
    requires IsLog(ln) && ln(MR) >= 9.0
    ensures var before: Registers := Repeat(1, M - 1) + [0];
            var after: Registers := Repeat(1, M - 1) + [1];
            && Below(before, after) && UsesLinear(before) && !UsesLinear(after)
            && Estimate(ln, before) > 6 * Estimate(ln, after)
  {
    var before: Registers := Repeat(1, M - 1) + [0];
    var after: Registers := Repeat(1, M - 1) + [1];
    SumOfRepeat(1, M - 1);
    assert Front(before) == Repeat(1, M - 1) == Front(after);
    assert InversePower(1) == 0.5 && InversePower(0) == 1.0;
    assert PowerSum(before) == 16383.0 * 0.5 + 1.0 && ZeroCount(before) == 1;
    assert PowerSum(after) == 8192.0 && ZeroCount(after) == 0;
    assert Raw(after) == ALPHA * 32768.0;
    assert ALPHA <= 0.7213;
    assert Raw(before) <= ALPHA * MR * MR / 8192.0 by {
      QuotientIsAntitone(ALPHA * MR * MR, 8192.0, PowerSum(before));
    }
    assert MR / 1.0 == MR;
  }

  // ---- Range ----

  lemma {:induction false} InverseTimesPower(r: nat)
    ensures InversePower(r) * Pow2(r) as real == 1.0
  {
    if r > 0 {
      InverseTimesPower(r - 1);
      assert InversePower(r) * Pow2(r) as real == InversePower(r - 1) / 2.0 * (2.0 * Pow2(r - 1) as real);
    }
  }

  lemma InverseOf50()
    ensures InversePower(50) * 1125899906842624.0 == 1.0
    ensures InversePower(51) == InversePower(50) / 2.0
  {
    InverseTimesPower(50);
    Pow2At64();
  }

  const TWO64R: real := 18446744073709551616.0

  lemma LinearFits(ln: real -> real, zeros: nat)
    requires IsLog(ln) && 0 < zeros <= M
    ensures 0.0 <= Linear(ln, zeros) <= MR * MR
  {
  }

  lemma RawFits(regs: Registers)
    requires forall i :: 0 <= i < M ==> regs[i] as nat <= 50
    ensures 0.0 <= Raw(regs) <= 0.7213 * TWO64R
  {
    SumBounds(regs, 50);
    InverseOf50();
    var least := MR * InversePower(50);
    PositiveSum(regs);
    QuotientIsAntitone(ALPHA * MR * MR, least, PowerSum(regs));
    QuotientOf(ALPHA * MR * MR, least, ALPHA * TWO64R);
    assert 0.0 <= ALPHA <= 0.7213;
  }

  lemma QuotientOf(c: real, d: real, q: real)
    requires d > 0.0 && c == q * d
    ensures c / d == q
  {
  }

  /** With every register at most 50 the result fits 64 bits. */
  lemma EstimateFits(ln: real -> real, regs: Registers)
    requires IsLog(ln) && forall i :: 0 <= i < M ==> regs[i] as nat <= 50
    ensures 0 <= Estimate(ln, regs) < TWO64
  {
    RawFits(regs);
    SumBounds(regs, 50);
    if UsesLinear(regs) {
      LinearFits(ln, ZeroCount(regs));
    }
  }

  /** With every register at 51, the largest rank, it does not. */
  lemma EstimateOverflows(ln: real -> real)
    ensures Estimate(ln, Repeat(51, M)) >= TWO64
  {
    var regs: Registers := Repeat(51, M);
    SumOfRepeat(51, M);
    InverseOf50();
    assert PowerSum(regs) == MR * InversePower(51);
    QuotientOf(ALPHA * MR * MR, PowerSum(regs), ALPHA * 2.0 * TWO64R);
    assert ALPHA >= 0.72;
  }

  lemma QuotientBelow(c: real, d: real, bound: real)
    requires d > 0.0
    ensures c / d < bound <==> c < bound * d
  {
  }

  lemma RoundsBelow(x: real)
    ensures Rounded(x) < TWO64 <==> x < TWO64R - 0.5
  {
  }

  /** Exactly: the result fits when the sum that Estimate accumulates is large enough. */
  lemma EstimateFitsExactly(ln: real -> real, regs: Registers)
    requires IsLog(ln)
    ensures Estimate(ln, regs) < TWO64 <==> ALPHA * MR * MR < (TWO64R - 0.5) * PowerSum(regs)
  {
    PositiveSum(regs);
    QuotientBelow(ALPHA * MR * MR, PowerSum(regs), TWO64R - 0.5);
    RoundsBelow(Value(ln, regs));
    if UsesLinear(regs) {
      SumBounds(regs, 255);
      LinearFits(ln, ZeroCount(regs));
    }
  }

  // ---- Exactly where it can drop ----

  /** The raw value up to which linear counting is used. */
  const SWITCH: int := 40960

  /** Every empty register filled, with the least rank. */
  function Raised(regs: Registers): Registers {
    seq(M, i requires 0 <= i < M => if regs[i] == 0 then 1 else regs[i])
  }

  /** Some further Adds or Merges can lower the estimate. */
  ghost predicate CanDrop(ln: real -> real, a: Registers) {
    exists b: Registers ::
      Below(a, b) && (RanksBounded(a) ==> RanksBounded(b)) && Estimate(ln, b) < Estimate(ln, a)
  }

  /** Linear counting is in use and already answers more than the raw formula will say right
      after the switch, with all registers filled or with one still empty. */
  predicate AtRisk(ln: real -> real, a: Registers) {
    UsesLinear(a) &&
    var linear := Rounded(Linear(ln, ZeroCount(a)));
    linear > SWITCH || linear > Rounded(Raw(Raised(a)))
  }

  lemma {:induction false} NoZeros(regs: seq<uint8>)
    ensures ZeroCount(regs) == 0 <==> forall i :: 0 <= i < |regs| ==> regs[i] != 0
  {
    if regs != [] {
      NoZeros(Front(regs));
      assert regs == Front(regs) + [Last(regs)];
    }
  }

  lemma RaisedIsLeast(a: Registers, b: Registers)
    requires Below(a, b) && ZeroCount(b) == 0
    ensures Below(Raised(a), b)
  {
    NoZeros(b);
  }

  lemma RaisedIsAbove(a: Registers)
    ensures Below(a, Raised(a)) && ZeroCount(Raised(a)) == 0
    ensures RanksBounded(a) ==> RanksBounded(Raised(a))
  {
    NoZeros(Raised(a));
  }

  lemma RoundedIsMonotone(x: real, y: real)
    requires x <= y
    ensures Rounded(x) <= Rounded(y)
  {
  }

  lemma DropMeansRisk(ln: real -> real, a: Registers, b: Registers)
    requires IsLog(ln) && Below(a, b) && Estimate(ln, b) < Estimate(ln, a)
    ensures AtRisk(ln, a)
  {
    EstimateIsMonotone(ln, a, b);
    if ZeroCount(b) == 0 {
      RaisedIsLeast(a, b);
      RawIsMonotone(Raised(a), b);
      RoundedIsMonotone(Raw(Raised(a)), Raw(b));
    } else {
      RoundedIsMonotone(2.5 * MR, Raw(b));
    }
  }

  // A register below the top rank weighs 2^-r. The sum of these weights, in units of 2^-v, is
  // an integer once v is at least every such r.

  function Weight(r: uint8, v: nat): nat {
    if r as nat < MAX_RANK && r as nat <= v then Pow2(v - r as nat) else 0
  }

  function Units(regs: seq<uint8>, v: nat): nat {
    if regs == [] then 0 else Units(Front(regs), v) + Weight(Last(regs), v)
  }

  ghost predicate UpTo(regs: seq<uint8>, v: nat) {
    forall i :: 0 <= i < |regs| && regs[i] as nat < MAX_RANK ==> regs[i] as nat <= v
  }

  lemma {:induction false} UnitsUpdate(regs: seq<uint8>, i: nat, r: uint8, v: nat)
    requires i < |regs|
    ensures Units(regs[i := r], v) == Units(regs, v) - Weight(regs[i], v) + Weight(r, v)
  {
    var updated := regs[i := r];
    if i == |regs| - 1 {
      assert Front(updated) == Front(regs);
    } else {
      UnitsUpdate(Front(regs), i, r, v);
      assert Front(updated) == Front(regs)[i := r];
    }
  }

  lemma {:induction false} UnitsDouble(regs: seq<uint8>, v: nat)
    requires UpTo(regs, v)
    ensures UpTo(regs, v + 1) && Units(regs, v + 1) == 2 * Units(regs, v)
  {
    if regs != [] {
      assert UpTo(Front(regs), v);
      UnitsDouble(Front(regs), v);
      assert regs[|regs| - 1] == Last(regs);
    }
  }

  lemma {:induction false} OnlyZerosLeft(regs: seq<uint8>, v: nat)
    requires UpTo(regs, 0)
    ensures Units(regs, v) == ZeroCount(regs) * Pow2(v)
  {
    if regs != [] {
      assert UpTo(Front(regs), 0) && regs[|regs| - 1] == Last(regs);
      OnlyZerosLeft(Front(regs), v);
    }
  }

  /** `out` raises some non-empty registers of `regs`, none past the top rank. */
  ghost predicate Thinned(regs: seq<uint8>, out: seq<uint8>) {
    && |out| == |regs|
    && forall i :: 0 <= i < |regs| ==>
         out[i] == regs[i] || (regs[i] != 0 && regs[i] <= out[i] && out[i] as nat <= MAX_RANK)
  }

  lemma {:induction false} ThinnedKeepsZeros(regs: seq<uint8>, out: seq<uint8>)
    requires Thinned(regs, out)
    ensures ZeroCount(out) == ZeroCount(regs)
  {
    if regs != [] {
      ThinnedKeepsZeros(Front(regs), Front(out));
    }
  }

  /** The sum that Thin steers for, in quarters: 4726.75. */
  const QUARTERS: nat := 18907

  lemma ThinOne(regs: seq<uint8>, i: nat, r: uint8, v: nat)
    requires i < |regs| && UpTo(regs, v) && regs[i] != 0 && regs[i] as nat < MAX_RANK
    requires regs[i] <= r && r as nat <= MAX_RANK && (r as nat <= v || r as nat == MAX_RANK)
    ensures Thinned(regs, regs[i := r]) && UpTo(regs[i := r], v)
    ensures Units(regs[i := r], v) == Units(regs, v) - Pow2(v - regs[i] as nat) + Weight(r, v)
  {
    UnitsUpdate(regs, i, r, v);
  }

  lemma ThinnedTwice(regs: seq<uint8>, middle: seq<uint8>, out: seq<uint8>)
    requires Thinned(regs, middle) && Thinned(middle, out)
    ensures Thinned(regs, out)
  {
  }

  lemma ZerosAreTooFew(regs: seq<uint8>)
    requires UpTo(regs, 0) && ZeroCount(regs) <= 4681
    ensures Units(regs, 2) < QUARTERS
  {
    OnlyZerosLeft(regs, 2);
    assert Pow2(2) == 4;
  }

  lemma SomeOne(regs: seq<uint8>) returns (i: nat)
    requires UpTo(regs, 1) && Units(regs, 2) >= QUARTERS && ZeroCount(regs) <= 4681
    ensures i < |regs| && regs[i] == 1
  {
    if UpTo(regs, 0) {
      ZerosAreTooFew(regs);
    }
    i :| 0 <= i < |regs| && regs[i] as nat < MAX_RANK && regs[i] != 0;
  }

  /** Raising the highest registers first reaches any quarter exactly: each removes one unit
      while the sum is a whole number of them. */
  lemma {:induction false} Thin(regs: seq<uint8>, v: nat) returns (out: seq<uint8>)
    requires 2 <= v < MAX_RANK && UpTo(regs, v) && ZeroCount(regs) <= 4681
    requires Units(regs, v) >= QUARTERS * Pow2(v - 2)
    ensures Thinned(regs, out) && UpTo(out, v) && Units(out, v) == QUARTERS * Pow2(v - 2)
    decreases v, Units(regs, v), 0
  {
    if Units(regs, v) == QUARTERS * Pow2(v - 2) {
      out := regs;
    } else if exists i :: 0 <= i < |regs| && regs[i] as nat == v {
      var i :| 0 <= i < |regs| && regs[i] as nat == v;
      ThinOne(regs, i, MAX_RANK as uint8, v);
      out := ThinFrom(regs, regs[i := MAX_RANK as uint8], v);
    } else if v > 2 {
      UnitsDouble(regs, v - 1);
      out := Thin(regs, v - 1);
      UnitsDouble(out, v - 1);
    } else {
      var i := SomeOne(regs);
      if Units(regs, 2) == QUARTERS + 1 {
        ThinOne(regs, i, 2, 2);
        out := regs[i := 2];
      } else {
        ThinOne(regs, i, MAX_RANK as uint8, 2);
        out := ThinFrom(regs, regs[i := MAX_RANK as uint8], 2);
      }
    }
  }

  lemma {:induction false} ThinFrom(regs: seq<uint8>, middle: seq<uint8>, v: nat) returns (out: seq<uint8>)
    requires 2 <= v < MAX_RANK && Thinned(regs, middle) && UpTo(middle, v) && ZeroCount(regs) <= 4681
    requires QUARTERS * Pow2(v - 2) <= Units(middle, v) < Units(regs, v)
    ensures Thinned(regs, out) && UpTo(out, v) && Units(out, v) == QUARTERS * Pow2(v - 2)
    decreases v, Units(middle, v), 1
  {
    ThinnedKeepsZeros(regs, middle);
    out := Thin(middle, v);
    ThinnedTwice(regs, middle, out);
  }

  function Times(n: nat, x: real): real {
    n as real * x
  }

  lemma TimesAdds(m: nat, n: nat, x: real)
    ensures Times(m + n, x) == Times(m, x) + Times(n, x)
  {
  }

  lemma TimesDouble(n: nat, x: real)
    ensures Times(2 * n, x / 2.0) == Times(n, x)
  {
  }

  lemma TimesMonotone(m: nat, n: nat, x: real)
    requires m <= n && x >= 0.0
    ensures Times(m, x) <= Times(n, x)
  {
    var d := n - m;
    assert d as real * x >= 0.0;
    TimesAdds(m, d, x);
  }

  lemma {:induction false} InverseSplit(r: nat, v: nat)
    requires r <= v
    ensures InversePower(r) == Times(Pow2(v - r), InversePower(v))
    decreases v
  {
    if r < v {
      InverseSplit(r, v - 1);
      TimesDouble(Pow2(v - 1 - r), InversePower(v - 1));
    }
  }

  lemma WeightOfOne(r: uint8, v: nat)
    requires r as nat < MAX_RANK ==> r as nat <= v
    ensures Times(Weight(r, v), InversePower(v)) <= InversePower(r as nat)
    ensures InversePower(r as nat) <= Times(Weight(r, v), InversePower(v)) + InversePower(MAX_RANK)
  {
    if r as nat < MAX_RANK {
      InverseSplit(r as nat, v);
    } else {
      InverseAntitone(MAX_RANK, r as nat);
    }
  }

  /** The sum that Estimate accumulates, in units; the registers at the top rank and above
      add next to nothing. */
  lemma {:induction false} SumInUnits(regs: seq<uint8>, v: nat, unit: real, light: real)
    requires UpTo(regs, v) && unit == InversePower(v) && light == InversePower(MAX_RANK)
    ensures Times(Units(regs, v), unit) <= PowerSum(regs) <= Times(Units(regs, v), unit) + Times(|regs|, light)
  {
    if regs != [] {
      assert UpTo(Front(regs), v) && regs[|regs| - 1] == Last(regs);
      SumInUnits(Front(regs), v, unit, light);
      WeightOfOne(Last(regs), v);
      TimesAdds(Units(Front(regs), v), Weight(Last(regs), v), unit);
      TimesAdds(|Front(regs)|, 1, light);
    }
  }

  lemma TopRanksAreLight()
    ensures 0.0 < Times(M, InversePower(MAX_RANK)) < 0.001
  {
    InverseOf50();
  }

  lemma SumAtSwitch(regs: Registers)
    requires Raw(regs) <= 2.5 * MR
    ensures PowerSum(regs) > 4726.8
  {
    PositiveSum(regs);
    if PowerSum(regs) <= 4726.8 {
      QuotientIsAntitone(ALPHA * MR * MR, PowerSum(regs), 4726.8);
    }
  }

  lemma RawNearSwitch(regs: Registers)
    requires 4726.75 <= PowerSum(regs) <= 4726.751
    ensures 2.5 * MR < Raw(regs) < 2.5 * MR + 0.5
  {
    QuotientIsAntitone(ALPHA * MR * MR, 4726.75, PowerSum(regs));
    QuotientIsAntitone(ALPHA * MR * MR, PowerSum(regs), 4726.751);
  }

  lemma QuarterUnits(v: nat)
    requires v >= 2
    ensures Times(QUARTERS * Pow2(v - 2), InversePower(v)) == 4726.75
  {
    InverseSplit(2, v);
    assert InversePower(2) == 0.25;
    TimesTimes(QUARTERS, Pow2(v - 2), InversePower(v));
  }

  lemma TimesTimes(m: nat, n: nat, x: real)
    ensures Times(m * n, x) == Times(m, Times(n, x))
  {
    assert (m * n) as real == m as real * n as real;
  }

  lemma UnitsAtSwitch(regs: Registers, v: nat)
    requires v >= 2 && UpTo(regs, v) && Raw(regs) <= 2.5 * MR
    ensures Units(regs, v) >= QUARTERS * Pow2(v - 2)
  {
    SumAtSwitch(regs);
    SumInUnits(regs, v, InversePower(v), InversePower(MAX_RANK));
    TopRanksAreLight();
    QuarterUnits(v);
    if Units(regs, v) < QUARTERS * Pow2(v - 2) {
      TimesMonotone(Units(regs, v), QUARTERS * Pow2(v - 2), InversePower(v));
    }
  }

  lemma SumOfThinned(b: Registers, v: nat)
    requires v >= 2 && UpTo(b, v) && Units(b, v) == QUARTERS * Pow2(v - 2)
    ensures 4726.75 <= PowerSum(b) <= 4726.751
  {
    SumInUnits(b, v, InversePower(v), InversePower(MAX_RANK));
    TopRanksAreLight();
    QuarterUnits(v);
  }

  /** From linear counting, with not too many empty registers, the raw value can be brought
      just past the switch without filling any of them. */
  lemma JustPastSwitch(a: Registers, v: nat) returns (b: Registers)
    requires 2 <= v < MAX_RANK && UpTo(a, v) && Raw(a) <= 2.5 * MR && ZeroCount(a) <= 4681
    ensures Thinned(a, b) && ZeroCount(b) == ZeroCount(a) && 2.5 * MR < Raw(b) < 2.5 * MR + 0.5
  {
    UnitsAtSwitch(a, v);
    var out := Thin(a, v);
    b := out;
    ThinnedKeepsZeros(a, b);
    SumOfThinned(b, v);
    RawNearSwitch(b);
  }

  lemma FewZeros(ln: real -> real, zeros: nat)
    requires IsLog(ln) && 0 < zeros <= M && Rounded(Linear(ln, zeros)) > SWITCH
    ensures zeros <= 4681
  {
    var x := MR / zeros as real;
    assert x * zeros as real == MR;
    QuotientIsAntitone(zeros as real, zeros as real, MR);
    assert ln(x) <= x - 1.0;
    assert MR * ln(x) >= SWITCH as real + 0.5;
    assert x > 3.5;
    assert 3.5 * zeros as real <= x * zeros as real;
  }

  lemma RiskMeansDrop(ln: real -> real, a: Registers)
    requires IsLog(ln) && AtRisk(ln, a)
    ensures CanDrop(ln, a)
  {
    SumBounds(a, 255);
    if Rounded(Linear(ln, ZeroCount(a))) > SWITCH {
      FewZeros(ln, ZeroCount(a));
      var b := JustPastSwitch(a, MAX_RANK - 1);
      assert Below(a, b) && (RanksBounded(a) ==> RanksBounded(b));
      assert Rounded(Raw(b)) == SWITCH;
    } else {
      RaisedIsAbove(a);
    }
  }

  /** The estimate can drop from here if and only if the registers are at risk. */
  lemma DropsExactly(ln: real -> real, a: Registers)
    requires IsLog(ln)
    ensures CanDrop(ln, a) <==> AtRisk(ln, a)
  {
    if AtRisk(ln, a) {
      RiskMeansDrop(ln, a);
    }
    forall b: Registers | Below(a, b) && Estimate(ln, b) < Estimate(ln, a)
      ensures AtRisk(ln, a)
    {
      DropMeansRisk(ln, a, b);
    }
  }
}
