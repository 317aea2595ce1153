/** internal/hll/hll.go on values: where a string lands, what a register records, and the
    set of strings that a sketch stands for. */
module HyperLogLog {
  import opened Words
  import opened Hash

  const PRECISION: nat := 14
  const M: nat := 0x4000
  const MAX_RANK: nat := 51
  const FORMAT_VERSION: uint8 := 1

  datatype Decoded = BadEncoding | Sketch(regs: Registers)

  type Registers = regs: seq<uint8> | |regs| == M witness Repeat(0, M)

  /** The sketch that New returns. */
  const EMPTY: Registers := Repeat(0, M)

  // ---- Where a value lands ----

  /** The register picked by the top 14 bits. */
  function Index(value: GoString): (i: nat)
    ensures i < M
    ensures i == Hash64(value) / Pow2(50)
  {
    var h := Hash64(value);
    ShiftIsDivision(h, 50);
    Pow2At64();
    ShiftRight(h, 64 - PRECISION)
  }

  /** bits.LeadingZeros64, for a word of the given width. */
  function LeadingZeros(w: nat, width: nat): nat {
    if width == 0 || w >= Pow2(width - 1) then 0 else 1 + LeadingZeros(w, width - 1)
  }

  lemma {:induction false} LeadingZerosMeaning(w: nat, width: nat)
    requires w < Pow2(width)
    ensures LeadingZeros(w, width) <= width
    ensures w < Pow2(width - LeadingZeros(w, width))
    ensures w == 0 <==> LeadingZeros(w, width) == width
    ensures w > 0 ==> Pow2(width - LeadingZeros(w, width) - 1) <= w
  {
    if width > 0 && w < Pow2(width - 1) {
      LeadingZerosMeaning(w, width - 1);
    }
  }

  lemma Pow2Monotone(j: nat, k: nat)
    requires j <= k
    ensures Pow2(j) <= Pow2(k)
    decreases k
  {
  }

  /** One more than the leading zeros of a word whose low 14 bits are zero, capped. */
  function RankOf(rest: nat, width: nat): (r: nat)
    requires width >= PRECISION
    ensures 1 <= r <= width - PRECISION + 1
  {
    var rank := LeadingZeros(rest, width) + 1;
    if rank > width - PRECISION + 1 then width - PRECISION + 1 else rank
  }

  /** The evidence Add keeps, from the bits of `h << 14`. */
  function Rank(value: GoString): uint8 {
    RankOf(Multiply(Hash64(value), M), 64) as uint8
  }

  lemma ShiftLeftKeepsLowBits(h: uint64)
    ensures Multiply(h, M) == h % Pow2(50) * M
  {
    Pow2At64();
    var q, low := h / Pow2(50), h % Pow2(50);
    assert h * M == low * M + q * TWO64;
    RemainderIsUnique(h * M, q, low * M);
  }

  lemma Pow2Plus14(k: nat)
    ensures Pow2(k + 14) == Pow2(k) * M
  {
    Pow2Plus8(k);
    Pow2Plus4(k + 8);
    assert Pow2(k + 14) == 2 * Pow2(k + 13) == 4 * Pow2(k + 12);
  }

  /** Leading zeros of a word whose low 14 bits are zero, from its high bits. */
  lemma ShiftedZeros(low: nat, z: nat, width: nat)
    requires width >= 14 && 0 < low < Pow2(width - 14) && z == LeadingZeros(low * M, width)
    ensures z < width - 14 && Pow2(width - 15 - z) <= low < Pow2(width - 14 - z)
  {
    Pow2Plus14(width - 14);
    LeadingZerosMeaning(low * M, width);
    Pow2Plus14(0);
    if z >= width - 14 {
      Pow2Monotone(width - z, 14);
      assert false;
    }
    Pow2Plus14(width - 14 - z);
    Pow2Plus14(width - 15 - z);
  }

  lemma RankOfMeaning(low: nat, width: nat, r: nat)
    requires width >= 15 && low < Pow2(width - 14) && r == RankOf(low * M, width)
    ensures r == width - 13 <==> low == 0
    ensures low < Pow2(width - 13 - r)
    ensures low > 0 ==> Pow2(width - 14 - r) <= low
  {
    if low > 0 {
      ShiftedZeros(low, LeadingZeros(low * M, width), width);
    } else {
      Pow2Monotone(0, width);
      LeadingZerosMeaning(0, width);
    }
  }

  /** A rank is the position of the highest set bit among the low 50, and 51 when there
      is none: rank r says exactly that the low bits lie in [2^(50-r), 2^(51-r)). */
  lemma RankMeaning(value: GoString)
    ensures 1 <= Rank(value) as nat <= MAX_RANK
    ensures var low := Hash64(value) % Pow2(50); Rank(value) as nat == MAX_RANK <==> low == 0
    ensures var low := Hash64(value) % Pow2(50); low < Pow2(MAX_RANK - Rank(value) as nat)
    ensures var low := Hash64(value) % Pow2(50);
            low > 0 ==> Pow2(MAX_RANK - 1 - Rank(value) as nat) <= low
  {
    ShiftLeftKeepsLowBits(Hash64(value));
    RankOfMeaning(Hash64(value) % Pow2(50), 64, Rank(value) as nat);
  }

  // ---- Adding and merging ----

  /** Sketch.Add: raise one register to the value's rank. */
  function Add(regs: Registers, value: GoString): Registers {
    if Rank(value) > regs[Index(value)] then regs[Index(value) := Rank(value)] else regs
  }

  /** Adding every element of a sequence, first to last. */
  function AddAll(regs: Registers, values: seq<GoString>): Registers {
    if values == [] then regs else Add(AddAll(regs, Front(values)), Last(values))
  }

  function Max(a: uint8, b: uint8): uint8 {
    if b > a then b else a
  }

  /** Sketch.Merge: the register-wise maximum. */
  function Merge(a: Registers, b: Registers): Registers {
    seq(M, i requires 0 <= i < M => Max(a[i], b[i]))
  }

  /** `r` is the largest rank among the values placed at `i`, 0 when there is none. */
  ghost predicate IsLargest(
      index: GoString -> nat, rank: GoString -> uint8, r: uint8, i: nat, values: set<GoString>)
  {
    && (forall v :: v in values && index(v) == i ==> rank(v) <= r)
    && (r == 0 || exists v :: v in values && index(v) == i && rank(v) == r)
  }

  ghost predicate IsRegister(r: uint8, i: nat, values: set<GoString>) {
    IsLargest(Index, Rank, r, i, values)
  }

  /** The meaning of a sketch, with no mention of how it was built: each register holds
      the largest rank among the values that land there, 0 when none does. */
  ghost predicate IsSketchOf(regs: Registers, values: set<GoString>) {
    forall i :: 0 <= i < M ==> IsRegister(regs[i], i, values)
  }

  lemma RegisterIsUnique(r: uint8, s: uint8, i: nat, values: set<GoString>)
    requires IsRegister(r, i, values) && IsRegister(s, i, values)
    ensures r == s
  {
  }

  /** A set of values has exactly one sketch. */
  lemma SketchIsUnique(a: Registers, b: Registers, values: set<GoString>)
    requires IsSketchOf(a, values) && IsSketchOf(b, values)
    ensures a == b
  {
    forall i | 0 <= i < M
      ensures a[i] == b[i]
    {
      RegisterIsUnique(a[i], b[i], i, values);
    }
  }

  lemma EmptySketch()
    ensures IsSketchOf(EMPTY, {})
  {
  }

  lemma LargestWithOneMore(
      index: GoString -> nat, rank: GoString -> uint8, r: uint8, i: nat, values: set<GoString>, value: GoString)
    requires IsLargest(index, rank, r, i, values)
    ensures IsLargest(index, rank, if index(value) == i then Max(r, rank(value)) else r, i, values + {value})
  {
  }

  lemma LargestOfBoth(index: GoString -> nat, rank: GoString -> uint8, q: uint8, r: uint8, i: nat,
                      s: set<GoString>, t: set<GoString>)
    requires IsLargest(index, rank, q, i, s) && IsLargest(index, rank, r, i, t)
    ensures IsLargest(index, rank, Max(q, r), i, s + t)
  {
  }

  lemma AddedAt(regs: Registers, index: nat, rank: uint8, i: nat, added: Registers)
    requires index < M && i < M && added == if rank > regs[index] then regs[index := rank] else regs
    ensures added[i] == if index == i then Max(regs[i], rank) else regs[i]
  {
  }

  lemma AddedRegister(regs: Registers, values: set<GoString>, value: GoString, i: nat)
    requires i < M && IsRegister(regs[i], i, values)
    ensures IsRegister(Add(regs, value)[i], i, values + {value})
  {
    LargestWithOneMore(Index, Rank, regs[i], i, values, value);
    AddedAt(regs, Index(value), Rank(value), i, Add(regs, value));
  }

  lemma AddIsSketch(regs: Registers, values: set<GoString>, value: GoString)
    requires IsSketchOf(regs, values)
    ensures IsSketchOf(Add(regs, value), values + {value})
  {
    forall i | 0 <= i < M
      ensures IsRegister(Add(regs, value)[i], i, values + {value})
    {
      AddedRegister(regs, values, value, i);
    }
  }

  lemma {:induction false} AddAllIsSketch(regs: Registers, seen: set<GoString>, values: seq<GoString>)
    requires IsSketchOf(regs, seen)
    ensures IsSketchOf(AddAll(regs, values), seen + SetOf(values))
  {
    if values == [] {
      assert seen + SetOf(values) == seen;
    } else {
      FrontLast(values);
      AddAllIsSketch(regs, seen, Front(values));
      AddIsSketch(AddAll(regs, Front(values)), seen + SetOf(Front(values)), Last(values));
      assert seen + SetOf(values) == seen + SetOf(Front(values)) + {Last(values)};
    }
  }

  lemma MergeIsSketch(a: Registers, b: Registers, s: set<GoString>, t: set<GoString>)
    requires IsSketchOf(a, s) && IsSketchOf(b, t)
    ensures IsSketchOf(Merge(a, b), s + t)
  {
    forall i | 0 <= i < M
      ensures IsRegister(Merge(a, b)[i], i, s + t)
    {
      assert IsRegister(a[i], i, s) && IsRegister(b[i], i, t);
      LargestOfBoth(Index, Rank, a[i], b[i], i, s, t);
    }
  }

  /** Neither the order of the Adds nor repeated Adds matter: only the set of values. */
  lemma OnlyTheSetMatters(v: seq<GoString>, w: seq<GoString>)
    requires SetOf(v) == SetOf(w)
    ensures AddAll(EMPTY, v) == AddAll(EMPTY, w)
  {
    EmptySketch();
    AddAllIsSketch(EMPTY, {}, v);
    AddAllIsSketch(EMPTY, {}, w);
    assert {} + SetOf(v) == {} + SetOf(w);
    SketchIsUnique(AddAll(EMPTY, v), AddAll(EMPTY, w), {} + SetOf(v));
  }

  /** Merging two sketches gives the sketch of the union. */
  lemma MergeIsUnion(v: seq<GoString>, w: seq<GoString>)
    ensures Merge(AddAll(EMPTY, v), AddAll(EMPTY, w)) == AddAll(EMPTY, v + w)
  {
    EmptySketch();
    AddAllIsSketch(EMPTY, {}, v);
    AddAllIsSketch(EMPTY, {}, w);
    AddAllIsSketch(EMPTY, {}, v + w);
    MergeIsSketch(AddAll(EMPTY, v), AddAll(EMPTY, w), {} + SetOf(v), {} + SetOf(w));
    assert {} + SetOf(v) + ({} + SetOf(w)) == {} + SetOf(v + w);
    SketchIsUnique(Merge(AddAll(EMPTY, v), AddAll(EMPTY, w)), AddAll(EMPTY, v + w), {} + SetOf(v + w));
  }

  /** Merge is a semilattice operation on all registers, reachable or not. */
  lemma MergeIsSemilattice(a: Registers, b: Registers, c: Registers)
    ensures Merge(a, b) == Merge(b, a)
    ensures Merge(Merge(a, b), c) == Merge(a, Merge(b, c))
    ensures Merge(a, a) == a
    ensures Merge(a, EMPTY) == a
  {
  }

  ghost predicate Below(a: Registers, b: Registers) {
    forall i :: 0 <= i < M ==> a[i] <= b[i]
  }

  /** The sketch of a smaller set lies below, register by register. */
  lemma SketchIsMonotone(a: Registers, b: Registers, s: set<GoString>, t: set<GoString>)
    requires IsSketchOf(a, s) && IsSketchOf(b, t) && s <= t
    ensures Below(a, b)
  {
  }

  // ---- Serialization ----

  /** Sketch.Bytes: [version][precision][registers...]. */
  function Encode(regs: Registers): seq<uint8> {
    [FORMAT_VERSION, PRECISION as uint8] + regs
  }

  /** FromBytes. */
  function Decode(b: seq<uint8>): Decoded {
    if |b| != 2 + M || b[0] != FORMAT_VERSION || b[1] != PRECISION as uint8 then BadEncoding else Sketch(b[2..])
  }

  /** The layout: version 1, precision 14, then the 16384 registers in order. */
  lemma EncodeLayout(regs: Registers)
    ensures |Encode(regs)| == 16386 && Encode(regs)[0] == 1 && Encode(regs)[1] == 14
    ensures forall i :: 0 <= i < 16384 ==> Encode(regs)[2 + i] == regs[i]
  {
  }

  lemma DecodeOfEncode(regs: Registers)
    ensures Decode(Encode(regs)) == Sketch(regs)
  {
  }

  /** FromBytes accepts exactly the images of Bytes, and re-encoding restores them. */
  lemma EncodeOfDecode(b: seq<uint8>)
    ensures Decode(b).Sketch? ==> Encode(Decode(b).regs) == b
    ensures Decode(b).Sketch? <==> exists regs: Registers :: b == Encode(regs)
  {
  }

  /** FromBytes of Bytes, as updateUniques reads back what an earlier batch stored. */
  function Reload(regs: Registers): Registers {
    if Decode(Encode(regs)).Sketch? then Decode(Encode(regs)).regs else EMPTY
  }

  // ---- Every way to build a sketch ----

  datatype History =
    | New
    | Added(h: History, value: GoString)
    | Merged(left: History, right: History)
    | Reloaded(saved: History)

  function Build(h: History): Registers {
    match h
    case New => EMPTY
    case Added(g, value) => Add(Build(g), value)
    case Merged(left, right) => Merge(Build(left), Build(right))
    case Reloaded(saved) => Reload(Build(saved))
  }

  function Values(h: History): set<GoString> {
    match h
    case New => {}
    case Added(g, value) => Values(g) + {value}
    case Merged(left, right) => Values(left) + Values(right)
    case Reloaded(saved) => Values(saved)
  }

  /** However a sketch was built, it is the sketch of the values that went in. */
  lemma {:induction false} HistoryIsSketch(h: History)
    ensures IsSketchOf(Build(h), Values(h))
  {
    match h
    case New => EmptySketch();
    case Added(g, value) =>
      HistoryIsSketch(g);
      AddIsSketch(Build(g), Values(g), value);
    case Merged(left, right) =>
      HistoryIsSketch(left);
      HistoryIsSketch(right);
      MergeIsSketch(Build(left), Build(right), Values(left), Values(right));
    case Reloaded(saved) =>
      HistoryIsSketch(saved);
      DecodeOfEncode(Build(saved));
  }

  ghost predicate RanksBounded(regs: Registers) {
    forall i :: 0 <= i < M ==> regs[i] as nat <= MAX_RANK
  }

  lemma SketchRanksBounded(regs: Registers, values: set<GoString>)
    requires IsSketchOf(regs, values)
    ensures RanksBounded(regs)
  {
  }

  /** No history takes a register past 51, so Estimate's `1 << r` stays inside 64 bits. */
  lemma HistoryRanksBounded(h: History)
    ensures RanksBounded(Build(h))
    ensures forall i :: 0 <= i < M ==> Pow2(Build(h)[i] as nat) < TWO64
  {
    HistoryIsSketch(h);
    SketchRanksBounded(Build(h), Values(h));
    Pow2At64();
    forall i | 0 <= i < M
      ensures Pow2(Build(h)[i] as nat) < TWO64
    {
      Pow2Monotone(Build(h)[i] as nat, 51);
      Pow2Add(51, 13);
    }
  }
}
