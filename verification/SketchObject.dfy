/** internal/hll/hll.go: Sketch as the object it is, with a register array updated in place. */
module SketchObject {
  import opened Words
  import opened HyperLogLog
  import opened Estimator

  class Sketch {
    const regs: array<uint8>

    ghost predicate Valid() {
      regs.Length == M
    }

    ghost function Contents(): Registers
      reads regs
      requires Valid()
    {
      regs[..]
    }

    /** New. */
    constructor ()
      ensures Valid() && fresh(regs) && Contents() == EMPTY
    {
      regs := new uint8[M](_ => 0);
      new;
      assert regs[..] == EMPTY;
    }

    method AddValue(value: GoString)
      requires Valid()
      modifies regs
      ensures Contents() == Add(old(Contents()), value)
    {
      var i, rank := Index(value), Rank(value);
      if rank > regs[i] {
        regs[i] := rank;
      }
    }

    /** Merge in place. Merging a sketch with itself is allowed. */
    method MergeFrom(other: Sketch)
      requires Valid() && other.Valid()
      modifies regs
      ensures Contents() == Merge(old(Contents()), old(other.Contents()))
    {
      ghost var mine, theirs := Contents(), other.Contents();
      var i := 0;
      while i < M
        invariant 0 <= i <= M
        invariant forall k :: 0 <= k < i ==> regs[k] == Max(mine[k], theirs[k])
        invariant forall k :: i <= k < M ==> regs[k] == mine[k] && other.regs[k] == theirs[k]
      {
        var r := other.regs[i];
        if r > regs[i] {
          regs[i] := r;
        }
        i := i + 1;
      }
      assert regs[..] == Merge(mine, theirs);
    }

    /** Bytes: a fresh buffer that does not change with the sketch. */
    method Bytes() returns (out: array<uint8>)
      requires Valid()
      ensures fresh(out) && out[..] == Encode(Contents())
      ensures out.Length == 16386 && out[0] == 1 && out[1] == 14
      ensures forall i :: 0 <= i < 16384 ==> out[2 + i] == regs[i]
    {
      out := new uint8[2 + M](_ => 0);
      out[0], out[1] := FORMAT_VERSION, PRECISION as uint8;
      var i := 0;
      while i < M
        invariant 0 <= i <= M
        invariant out[0] == FORMAT_VERSION && out[1] == PRECISION as uint8
        invariant forall k :: 0 <= k < i ==> out[2 + k] == regs[k]
      {
        out[2 + i] := regs[i];
        i := i + 1;
      }
      assert out[..] == Encode(Contents());
    }

    /** The loop of Estimate and the two formulas after it. Go's shift is 0 from 64 on, and
        dividing by it makes the float sum infinite for good. */
    method EstimateCount(ln: real -> real) returns (n: int)
      requires Valid()
      ensures n == Returned(ln, Contents())
    {
      var sum, infinite, zeros := 0.0, false, 0;
      var i := 0;
      while i < M
        invariant 0 <= i <= M
        invariant sum == PowerSum(regs[..i]) && zeros == ZeroCount(regs[..i])
        invariant infinite <==> exists k :: 0 <= k < i && regs[k] >= 64
      {
        assert Front(regs[..i + 1]) == regs[..i];
        sum, infinite := sum + InversePower(regs[i] as nat), infinite || regs[i] >= 64;
        if regs[i] == 0 {
          zeros := zeros + 1;
        }
        i := i + 1;
      }
      assert regs[..M] == regs[..] && infinite == SumIsInfinite(regs[..]);
      PositiveSum(regs[..]);
      var e := if infinite then 0.0 else ALPHA * MR * MR / sum;
      if e <= 2.5 * MR && zeros > 0 {
        e := MR * ln(MR / zeros as real);
      }
      n := (e + 0.5).Floor;
    }
  }

  /** FromBytes: null for an encoding it does not accept; the sketch gets its own registers. */
  method FromBytes(b: array<uint8>) returns (s: Sketch?)
    ensures s == null <==> Decode(b[..]).BadEncoding?
    ensures s != null ==> fresh(s) && fresh(s.regs) && s.Valid() && s.Contents() == Decode(b[..]).regs
    ensures b[..] == old(b[..])
  {
    if b.Length != 2 + M || b[0] != FORMAT_VERSION || b[1] != PRECISION as uint8 {
      return null;
    }
    var sketch := new Sketch();
    var i := 0;
    while i < M
      invariant 0 <= i <= M && fresh(sketch.regs) && sketch.Valid()
      invariant forall k :: 0 <= k < i ==> sketch.regs[k] == b[2 + k]
      invariant b[..] == old(b[..])
    {
      sketch.regs[i] := b[2 + i];
      i := i + 1;
    }
    assert sketch.Contents() == b[..][2..];
    return sketch;
  }
}
