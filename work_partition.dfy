/**
 * Block partitioning of `nwork` items over `size` MPI ranks, as done by
 * `assign_work_to_rank` in the h5boss query/read client.  Each rank gets a
 * contiguous slice [start, start + count); the last `nwork % size` ranks get
 * one item more than the others.
 */
module WorkPartition {

  /** Range of a C `int` (32-bit two's complement). */
  const INT_MIN: int := -0x8000_0000
  const INT_MAX: int := 0x7FFF_FFFF

  predicate IsCInt(x: int) { INT_MIN <= x <= INT_MAX }

  function Abs(x: int): nat { if x < 0 then -x else x }

  /** C's `/` on `int`: the quotient is truncated toward zero. */
  function CDiv(a: int, b: int): (q: int)
    requires b != 0
    ensures 0 <= a && 0 < b ==> q == a / b
    ensures a < 0 && b < 0 ==> q == (-a) / (-b)
    ensures ((a < 0) != (b < 0)) ==> q <= 0
  {
    if a >= 0 && b > 0 then a / b
    else if a >= 0 then -(a / -b)
    else if b > 0 then -((-a) / b)
    else (-a) / (-b)
  }

  /** C's `%` on `int`: the remainder takes the sign of the dividend. */
  function CMod(a: int, b: int): (r: int)
    requires b != 0
    ensures a == b * CDiv(a, b) + r
    ensures Abs(r) < Abs(b)
    ensures r != 0 ==> (r < 0) == (a < 0)
    ensures 0 <= a && 0 < b ==> r == a % b
  {
    CDivRemainder(a, b);
    a - b * CDiv(a, b)
  }

  lemma CDivRemainder(a: int, b: int)
    requires b != 0
    ensures Abs(a - b * CDiv(a, b)) < Abs(b)
    ensures a - b * CDiv(a, b) != 0 ==> (a - b * CDiv(a, b) < 0) == (a < 0)
    ensures 0 <= a && 0 < b ==> a - b * CDiv(a, b) == a % b
  {
    if a >= 0 && b > 0 {
    } else if a >= 0 {
      RemainderOverNegative(a, b);
    } else if b > 0 {
      RemainderOfNegative(a, b);
    } else {
      RemainderOfNegativeOverNegative(a, b);
    }
  }

  /** A non-negative dividend over a negative divisor keeps the remainder of the magnitudes. */
  lemma RemainderOverNegative(a: int, b: int)
    requires a >= 0 && b < 0
    ensures a - b * CDiv(a, b) == a % (-b)
  {
    var m := a / (-b);
    NegatedProducts(-b, m);
    assert b * CDiv(a, b) == (-b) * m;
  }

  /** A negative dividend over a positive divisor negates the remainder of the magnitudes. */
  lemma RemainderOfNegative(a: int, b: int)
    requires a < 0 && b > 0
    ensures a - b * CDiv(a, b) == -((-a) % b)
  {
    var m := (-a) / b;
    NegatedProducts(b, m);
    assert b * CDiv(a, b) == -(b * m);
  }

  /** Two negative operands negate the remainder of the magnitudes. */
  lemma RemainderOfNegativeOverNegative(a: int, b: int)
    requires a < 0 && b < 0
    ensures a - b * CDiv(a, b) == -((-a) % (-b))
  {
    var m := (-a) / (-b);
    NegatedProducts(-b, m);
    assert b * CDiv(a, b) == -((-b) * m);
  }

  /** How negating the factors of a product changes it. */
  lemma NegatedProducts(u: int, v: int)
    ensures u * (-v) == -(u * v) && (-u) * v == -(u * v) && (-u) * (-v) == u * v
  {
  }

  /**
   * What one call produces: either the input is rejected (return value -1,
   * neither output written) or both outputs are written (return value 1).
   */
  datatype Assignment = Rejected | Assigned(count: int, start: int)

  function ReturnCode(a: Assignment): int
  {
    if a.Rejected? then -1 else 1
  }

  /**
   * The input check: `rank` may not exceed `size` and both output pointers
   * must be non-null.  `hasCount` and `hasStart` say whether `my_count` and
   * `my_start` are non-null.  Note that `rank == size` passes.
   */
  predicate PassesGuard(rank: int, size: int, hasCount: bool, hasStart: bool)
  {
    !(rank > size || !hasCount || !hasStart)
  }

  /**
   * `assign_work_to_rank` as written.  The precondition excludes the one
   * path with undefined behaviour that the arguments alone can reach: the
   * division by `size == 0` when `nwork >= size`.
   */
  function AssignWork(rank: int, size: int, nwork: int, hasCount: bool, hasStart: bool): (a: Assignment)
    requires PassesGuard(rank, size, hasCount, hasStart) && nwork >= size ==> size != 0
    ensures a.Rejected? <==> !PassesGuard(rank, size, hasCount, hasStart)
    ensures ReturnCode(a) == 1 <==> PassesGuard(rank, size, hasCount, hasStart)
    ensures a.Assigned? && nwork < size ==> a.count in {0, 1} && (a.count == 1 <==> rank < nwork)
    ensures a.Assigned? && nwork < size ==> a.start == (if rank < nwork then rank else 0)
  {
    if rank > size || !hasCount || !hasStart then
      Rejected
    else if nwork < size then
      var count := if rank < nwork then 1 else 0;
      Assigned(count, rank * count)
    else
      var count := CDiv(nwork, size);
      var start := rank * count;
      // ranks from firstExtra on take one item more than the base share
      var firstExtra := size - CMod(nwork, size);
      if rank >= firstExtra then Assigned(count + 1, start + (rank - firstExtra))
      else Assigned(count, start)
  }

  /** The setting in which the partition is meant to hold. */
  predicate Sane(size: int, nwork: int)
  {
    size > 0 && nwork >= 0
  }

  /** The slice a rank in [0, size] receives when both outputs are given. */
  function CountOf(rank: int, size: int, nwork: int): int
    requires Sane(size, nwork) && 0 <= rank <= size
  {
    AssignWork(rank, size, nwork, true, true).count
  }

  function StartOf(rank: int, size: int, nwork: int): int
    requires Sane(size, nwork) && 0 <= rank <= size
  {
    AssignWork(rank, size, nwork, true, true).start
  }

  /** The number of items given to ranks 0 .. k-1 together. */
  function PrefixCount(k: int, size: int, nwork: int): int
    requires Sane(size, nwork) && 0 <= k <= size
    decreases k
  {
    if k == 0 then 0 else PrefixCount(k - 1, size, nwork) + CountOf(k - 1, size, nwork)
  }

  /** A rank's share is the base share `nwork / size`, or one more for the last `nwork % size` ranks. */
  lemma CountIsBaseShare(rank: int, size: int, nwork: int)
    requires Sane(size, nwork) && 0 <= rank < size && nwork >= size
    ensures CountOf(rank, size, nwork) == nwork / size + (if rank >= size - nwork % size then 1 else 0)
  {
  }

  /** Any two ranks' counts differ by at most one, and no count is negative. */
  lemma CountsBalanced(r1: int, r2: int, size: int, nwork: int)
    requires Sane(size, nwork) && 0 <= r1 < size && 0 <= r2 < size
    ensures 0 <= CountOf(r1, size, nwork) && 0 <= CountOf(r2, size, nwork)
    ensures -1 <= CountOf(r1, size, nwork) - CountOf(r2, size, nwork) <= 1
  {
  }

  /** A closed form of the prefix sums, from which everything else follows. */
  ghost function PrefixClosedForm(k: int, size: int, nwork: int): int
    requires Sane(size, nwork)
  {
    if nwork < size then (if k < nwork then k else nwork)
    else
      var firstExtra := size - nwork % size;
      k * (nwork / size) + (if k >= firstExtra then k - firstExtra else 0)
  }

  lemma {:induction false} PrefixCountClosedForm(k: int, size: int, nwork: int)
    requires Sane(size, nwork) && 0 <= k <= size
    ensures PrefixCount(k, size, nwork) == PrefixClosedForm(k, size, nwork)
    decreases k
  {
    if k > 0 {
      PrefixCountClosedForm(k - 1, size, nwork);
      assert k * (nwork / size) == (k - 1) * (nwork / size) + nwork / size;
    }
  }

  /** The counts of ranks 0 .. size-1 add up to exactly `nwork`. */
  lemma CountsSumToWork(size: int, nwork: int)
    requires Sane(size, nwork)
    ensures PrefixCount(size, size, nwork) == nwork
  {
    PrefixCountClosedForm(size, size, nwork);
    assert nwork == size * (nwork / size) + nwork % size;
  }

  /** A rank with work starts right after the items of all lower ranks. */
  lemma StartIsPrefixCount(rank: int, size: int, nwork: int)
    requires Sane(size, nwork) && 0 <= rank < size
    requires CountOf(rank, size, nwork) > 0
    ensures StartOf(rank, size, nwork) == PrefixCount(rank, size, nwork)
  {
    PrefixCountClosedForm(rank, size, nwork);
  }

  lemma {:induction false} PrefixCountMonotone(j: int, k: int, size: int, nwork: int)
    requires Sane(size, nwork) && 0 <= j <= k <= size
    ensures 0 <= PrefixCount(j, size, nwork) <= PrefixCount(k, size, nwork)
    decreases k
  {
    if k > 0 {
      PrefixCountMonotone(if j < k then j else k - 1, k - 1, size, nwork);
      CountsBalanced(k - 1, k - 1, size, nwork);
    }
  }

  /** Every non-empty slice lies inside [0, nwork). */
  lemma SliceInRange(rank: int, size: int, nwork: int)
    requires Sane(size, nwork) && 0 <= rank < size
    requires CountOf(rank, size, nwork) > 0
    ensures 0 <= StartOf(rank, size, nwork)
    ensures StartOf(rank, size, nwork) + CountOf(rank, size, nwork) <= nwork
  {
    StartIsPrefixCount(rank, size, nwork);
    PrefixCountMonotone(0, rank, size, nwork);
    PrefixCountMonotone(rank + 1, size, size, nwork);
    CountsSumToWork(size, nwork);
  }

  /** Non-empty slices of distinct ranks do not overlap; the lower rank's comes first. */
  lemma SlicesDisjoint(r1: int, r2: int, size: int, nwork: int)
    requires Sane(size, nwork) && 0 <= r1 < r2 < size
    requires CountOf(r1, size, nwork) > 0 && CountOf(r2, size, nwork) > 0
    ensures StartOf(r1, size, nwork) + CountOf(r1, size, nwork) <= StartOf(r2, size, nwork)
  {
    StartIsPrefixCount(r1, size, nwork);
    StartIsPrefixCount(r2, size, nwork);
    PrefixCountMonotone(r1 + 1, r2, size, nwork);
  }

  /**
   * The rank whose slice holds item `w`, searching from rank `from` on;
   * every item of [0, nwork) has one.
   */
  function OwnerFrom(w: int, from: int, size: int, nwork: int): (r: int)
    requires Sane(size, nwork) && 0 <= from < size
    requires PrefixCount(from, size, nwork) <= w < nwork
    ensures from <= r < size
    ensures CountOf(r, size, nwork) > 0
    ensures StartOf(r, size, nwork) <= w < StartOf(r, size, nwork) + CountOf(r, size, nwork)
    decreases size - from
  {
    CountsSumToWork(size, nwork);
    if w < PrefixCount(from + 1, size, nwork) then
      StartIsPrefixCount(from, size, nwork);
      from
    else
      if from + 1 == size then assert false; from
      else OwnerFrom(w, from + 1, size, nwork)
  }

  /** Every item is assigned to exactly one rank. */
  lemma EveryItemOwnedOnce(w: int, size: int, nwork: int)
    requires Sane(size, nwork) && 0 <= w < nwork
    ensures exists r :: 0 <= r < size && StartOf(r, size, nwork) <= w < StartOf(r, size, nwork) + CountOf(r, size, nwork)
    ensures forall r1, r2 ::
      0 <= r1 < size && 0 <= r2 < size &&
      StartOf(r1, size, nwork) <= w < StartOf(r1, size, nwork) + CountOf(r1, size, nwork) &&
      StartOf(r2, size, nwork) <= w < StartOf(r2, size, nwork) + CountOf(r2, size, nwork)
      ==> r1 == r2
  {
    var r := OwnerFrom(w, 0, size, nwork);
    forall r1, r2 |
      0 <= r1 < size && 0 <= r2 < size &&
      StartOf(r1, size, nwork) <= w < StartOf(r1, size, nwork) + CountOf(r1, size, nwork) &&
      StartOf(r2, size, nwork) <= w < StartOf(r2, size, nwork) + CountOf(r2, size, nwork)
      ensures r1 == r2
    {
      if r1 < r2 { SlicesDisjoint(r1, r2, size, nwork); }
      else if r2 < r1 { SlicesDisjoint(r2, r1, size, nwork); }
    }
  }

  /** For in-range ranks and non-negative `nwork`, no `int` arithmetic in the routine overflows. */
  lemma NoOverflow(rank: int, size: int, nwork: int)
    requires Sane(size, nwork) && 0 <= rank < size
    requires IsCInt(size) && IsCInt(nwork)
    ensures IsCInt(CountOf(rank, size, nwork)) && IsCInt(StartOf(rank, size, nwork))
    ensures nwork >= size ==> IsCInt(rank * (nwork / size))
  {
    CountsBalanced(rank, rank, size, nwork);
    if CountOf(rank, size, nwork) > 0 {
      SliceInRange(rank, size, nwork);
    }
    if nwork >= size {
      BaseShareProductBounded(rank, size, nwork);
    }
  }

  /** The product `rank * (nwork/size)` computed before the extras are added stays within `[0, nwork]`. */
  lemma BaseShareProductBounded(rank: int, size: int, nwork: int)
    requires Sane(size, nwork) && 0 <= rank < size && nwork >= size
    ensures 0 <= rank * (nwork / size) <= nwork
  {
    var q := nwork / size;
    assert 0 <= q;
    assert rank * q <= size * q;
    assert size * q <= nwork;
  }

  /**
   * The guard lets `rank == size` through.  With `nwork >= size` that rank
   * is handed a non-empty slice that starts at `nwork`, wholly past the end.
   */
  lemma RankEqualsSizeOverruns(size: int, nwork: int)
    requires Sane(size, nwork) && nwork >= size
    ensures AssignWork(size, size, nwork, true, true) == Assigned(nwork / size + 1, nwork)
  {
    assert size * (nwork / size) + nwork % size == nwork;
  }

  /** A concrete instance: one rank, five items, asked for rank 1. */
  lemma RankEqualsSizeExample()
    ensures AssignWork(1, 1, 5, true, true) == Assigned(6, 5)
  {
    RankEqualsSizeOverruns(1, 5);
  }

  /**
   * The guard has no lower bound either: a negative rank passes and, with
   * `nwork >= size`, is handed a full share that starts before item 0.
   */
  lemma NegativeRankUnderruns(rank: int, size: int, nwork: int)
    requires Sane(size, nwork) && nwork >= size && rank < 0
    ensures AssignWork(rank, size, nwork, true, true) == Assigned(nwork / size, rank * (nwork / size))
    ensures AssignWork(rank, size, nwork, true, true).start < 0
  {
  }

  /** A concrete instance: one rank, five items, asked for rank -1. */
  lemma NegativeRankExample()
    ensures AssignWork(-1, 1, 5, true, true) == Assigned(5, -5)
  {
    NegativeRankUnderruns(-1, 1, 5);
  }

  /**
   * The evidently intended routine: a rank outside [0, size) is rejected
   * like a null output pointer.  A zero or negative `size` then admits no
   * rank, so the division by zero cannot be reached.
   */
  function AssignWorkChecked(rank: int, size: int, nwork: int, hasCount: bool, hasStart: bool): (a: Assignment)
    ensures a.Assigned? ==> 0 <= rank < size
    ensures a.Rejected? <==> (rank < 0 || rank >= size || !hasCount || !hasStart)
    ensures a.Assigned? ==> a == AssignWork(rank, size, nwork, hasCount, hasStart)
  {
    if rank < 0 || rank >= size || !hasCount || !hasStart then Rejected
    else AssignWork(rank, size, nwork, hasCount, hasStart)
  }

  /** Every slice the corrected routine hands out is inside [0, nwork) when non-empty. */
  lemma CheckedSliceInRange(rank: int, size: int, nwork: int)
    requires nwork >= 0
    ensures match AssignWorkChecked(rank, size, nwork, true, true)
      case Rejected => rank < 0 || rank >= size
      case Assigned(count, start) => 0 <= count && (count > 0 ==> 0 <= start && start + count <= nwork)
  {
    if 0 <= rank < size {
      CountsBalanced(rank, rank, size, nwork);
      if CountOf(rank, size, nwork) > 0 {
        SliceInRange(rank, size, nwork);
      }
    }
  }
}
