/** `generate_hex_ticks`: snaps the axis ticks a plotting library proposes
    to round hexadecimal steps. Nibble masks are tried widest first; the first
    that keeps enough distinct values replaces the ticks by an evenly spaced
    range; too few ticks are then doubled; finally ticks at or above the
    axis maximum are dropped. */
module HexTicks {
  import opened Common

  // ---------------------------------------------------------------------------
  // Conversions and masks
  // ---------------------------------------------------------------------------

  /** Python's `int(x)` on a float: truncation toward zero. */
  function Trunc(x: real): (r: int)
    ensures x >= 0.0 ==> 0 <= r && r as real <= x < r as real + 1.0
    ensures x < 0.0 ==> r <= 0 && r as real - 1.0 < x <= r as real
  {
    if x >= 0.0 then x.Floor else -((-x).Floor)
  }

  /** `map(int, ticks)`. */
  function Truncate(ticks: seq<real>): seq<int>
  {
    seq(|ticks|, k requires 0 <= k < |ticks| => Trunc(ticks[k]))
  }

  /** The mask tried in round i: 0xfffffff, shifted right by four bits per round. */
  function MaskAt(i: nat): nat
  {
    if i == 0 then 0xfffffff else MaskAt(i - 1) / 16
  }

  /** The mask reaches 0 after exactly seven shifts. */
  lemma {:induction false} MaskZero(i: nat)
    ensures MaskAt(i) == 0 <==> i >= 7
  {
    assert MaskAt(6) == 0xf;
    assert MaskAt(7) == 0;
    if i > 7 {
      MaskZero(i - 1);
    }
  }

  /** The masks tried are 0xfffffff, 0xffffff, ..., 0xf: each is one less
      than a power of sixteen, so that clearing it rounds down to a multiple
      of that power. */
  lemma MasksTried(i: nat)
    requires i < 7
    ensures MaskAt(0) == 0xfffffff && MaskAt(6) == 0xf
    ensures MaskAt(i) + 1 == Pow16(7 - i)
  {
    assert MaskAt(1) == 0xffffff;
    assert MaskAt(2) == 0xfffff;
    assert MaskAt(3) == 0xffff;
    assert MaskAt(4) == 0xfff;
    assert MaskAt(5) == 0xff;
    assert MaskAt(6) == 0xf;
    assert Pow16(1) == 16;
    assert Pow16(2) == 0x100;
    assert Pow16(3) == 0x1000;
    assert Pow16(4) == 0x10000;
    assert Pow16(5) == 0x100000;
    assert Pow16(6) == 0x1000000;
    assert Pow16(7) == 0x10000000;
  }

  function Pow16(k: nat): nat
  {
    if k == 0 then 1 else 16 * Pow16(k - 1)
  }

  /** `t & ~mask` for a mask of low one bits: t rounded down to a multiple of mask+1. */
  function ClearMask(t: int, mask: nat): int
  {
    (t / (mask + 1)) * (mask + 1)
  }

  /** Masking rounds down: the result is the largest multiple of mask+1 not above t. */
  lemma ClearMaskRoundsDown(t: int, mask: nat)
    ensures ClearMask(t, mask) <= t < ClearMask(t, mask) + mask + 1
    ensures ClearMask(t, mask) % (mask + 1) == 0
  {
    var d := mask + 1;
    var q := t / d;
    assert t == q * d + t % d;
    DivIs(q * d, d, q);
  }

  /** `[t & ~mask for t in ticks]`. */
  function Masked(ticks: seq<int>, mask: nat): seq<int>
  {
    seq(|ticks|, k requires 0 <= k < |ticks| => ClearMask(ticks[k], mask))
  }

  /** `set(s)`. */
  function Distinct(s: seq<int>): set<int>
  {
    set x | x in s
  }

  /** The acceptance test `len(set(tnew)) >= 0.45*len(ticks)`, in integers. */
  predicate Accepts(ticks: seq<int>, mask: nat)
  {
    20 * |Distinct(Masked(ticks, mask))| >= 9 * |ticks|
  }

  // ---------------------------------------------------------------------------
  // Second-smallest distinct value and Python 2 ranges
  // ---------------------------------------------------------------------------

  function MinOf(s: seq<int>): (m: int)
    requires |s| > 0
    ensures m in s && forall x :: x in s ==> m <= x
  {
    if |s| == 1 then s[0]
    else
      var m := MinOf(s[1..]);
      assert forall x :: x in s[1..] ==> x in s;
      assert forall x :: x in s ==> x == s[0] || x in s[1..];
      if s[0] <= m then s[0] else m
  }

  /** The smallest element of s above b, if any. */
  function MinAbove(s: seq<int>, b: int): (r: Option<int>)
    ensures r.Some? <==> exists x :: x in s && x > b
    ensures r.Some? ==> r.value in s && r.value > b && forall x :: x in s && x > b ==> r.value <= x
  {
    if s == [] then None
    else
      var rest := MinAbove(s[1..], b);
      assert forall x :: x in s[1..] ==> x in s;
      assert forall x :: x in s ==> x == s[0] || x in s[1..];
      if s[0] <= b then rest
      else if rest.Some? && rest.value < s[0] then rest
      else assert s[0] in s; Some(s[0])
  }

  /** `sorted(set(s))[1]` exists exactly when s has at least two distinct
      values, and it is then the smallest value above the minimum. */
  lemma DistinctCount(s: seq<int>)
    requires |s| > 0
    ensures |Distinct(s)| >= 2 <==> MinAbove(s, MinOf(s)).Some?
  {
    var m := MinOf(s);
    var above := MinAbove(s, m);
    if above.Some? {
      var v := above.value;
      assert {m, v} <= Distinct(s);
      assert |{m, v}| == 2;
      SubsetCard({m, v}, Distinct(s));
    } else {
      assert Distinct(s) == {m};
    }
  }

  lemma SubsetCard(a: set<int>, b: set<int>)
    requires a <= b
    ensures |a| <= |b|
  {
    assert b == a + (b - a);
  }

  /** Python 2 `range(start, stop, step)`: start, start+step, ... while on the
      near side of stop. */
  function PyRange(start: int, stop: int, step: int): seq<int>
    requires step != 0
    decreases if step > 0 then stop - start else start - stop
  {
    if (step > 0 && start >= stop) || (step < 0 && start <= stop) then []
    else [start] + PyRange(start + step, stop, step)
  }

  /** The range is the arithmetic progression from start, every element on the
      near side of stop, and the next element would no longer be. */
  lemma {:induction false} PyRangeShape(start: int, stop: int, step: int)
    requires step != 0
    ensures var r := PyRange(start, stop, step);
            && (forall k :: 0 <= k < |r| ==> r[k] == start + k * step)
            && (step > 0 ==> (forall k :: 0 <= k < |r| ==> r[k] < stop) && start + |r| * step >= stop)
            && (step < 0 ==> (forall k :: 0 <= k < |r| ==> r[k] > stop) && start + |r| * step <= stop)
    decreases if step > 0 then stop - start else start - stop
  {
    var r := PyRange(start, stop, step);
    if r != [] {
      PyRangeShape(start + step, stop, step);
      var r' := PyRange(start + step, stop, step);
      assert r == [start] + r';
      forall k | 1 <= k < |r|
        ensures r[k] == start + k * step
      {
        assert r[k] == r'[k - 1];
        DistributeMul(k - 1, 1, step);
      }
      DistributeMul(|r'|, 1, step);
    }
  }

  // ---------------------------------------------------------------------------
  // The phases
  // ---------------------------------------------------------------------------

  /** What happens once mask `mask` is accepted: the ticks become
      `range(0, ticks[-1], sorted(set(tnew))[1])`. An empty tick list or a
      single distinct masked value raises IndexError, a zero step ValueError. */
  function Regenerate(ticks: seq<int>, mask: nat): Result<seq<int>>
  {
    var tnew := Masked(ticks, mask);
    if |ticks| == 0 then Err(IndexError)
    else
      match MinAbove(tnew, MinOf(tnew))
      case None => Err(IndexError)
      case Some(step) => if step == 0 then Err(ValueError) else Ok(PyRange(0, ticks[|ticks| - 1], step))
  }

  /** The mask loop from round i on: the first accepted mask decides, and when
      none is, the ticks stay as they are. */
  function MaskPhase(ticks: seq<int>, i: nat): Result<seq<int>>
    decreases 7 - i
  {
    if i >= 7 then Ok(ticks)
    else if Accepts(ticks, MaskAt(i)) then Regenerate(ticks, MaskAt(i))
    else MaskPhase(ticks, i + 1)
  }

  function Snap(ticks: seq<int>): Result<seq<int>>
  {
    MaskPhase(ticks, 0)
  }

  /** `reduce(add, [[t, t+half] for t in ticks])`. */
  function Double(ticks: seq<int>, half: int): (r: seq<int>)
    ensures |r| == 2 * |ticks|
  {
    if ticks == [] then [] else [ticks[0], ticks[0] + half] + Double(ticks[1..], half)
  }

  /** The doubling loop: below six ticks, each tick is followed by itself plus
      half the second tick; fewer than two ticks raise IndexError. */
  function Densify(ticks: seq<int>): Result<seq<int>>
    decreases 6 - |ticks|
  {
    if |ticks| >= 6 then Ok(ticks)
    else if |ticks| < 2 then Err(IndexError)
    else Densify(Double(ticks, ticks[1] / 2))
  }

  /** `filter(lambda x: x < max, ticks)`. */
  function FilterBelow(ticks: seq<int>, max: real): (r: seq<int>)
    ensures |r| <= |ticks|
    ensures forall k :: 0 <= k < |r| ==> r[k] as real < max
    ensures forall x :: x in r <==> x in ticks && x as real < max
  {
    if ticks == [] then []
    else
      var rest := FilterBelow(ticks[1..], max);
      assert forall x :: x in ticks <==> x == ticks[0] || x in ticks[1..];
      if ticks[0] as real < max then [ticks[0]] + rest else rest
  }

  /** The whole of `generate_hex_ticks`. */
  function HexTicks(ticks: seq<real>, max: real): Result<seq<int>>
  {
    match Snap(Truncate(ticks))
    case Err(e) => Err(e)
    case Ok(snapped) =>
      match Densify(snapped)
      case Err(e) => Err(e)
      case Ok(dense) => Ok(FilterBelow(dense, max))
  }

  // ---------------------------------------------------------------------------
  // The operation
  // ---------------------------------------------------------------------------

  /** The body of the accepted branch: `range(0, ticks[-1], sorted(set(tnew))[1])`.
      It works from the `tnew` the mask loop has already built, and stands
      apart from `SnapTicks` so that the proof of that loop stays small. */
  method RegenerateTicks(ticks: seq<int>, tnew: seq<int>, ghost mask: nat) returns (r: Result<seq<int>>)
    requires tnew == Masked(ticks, mask)
    ensures r == Regenerate(ticks, mask)
  {
    if |ticks| == 0 {
      return Err(IndexError);
    }
    DistinctCount(tnew);
    if |Distinct(tnew)| < 2 {
      return Err(IndexError);
    }
    var step := MinAbove(tnew, MinOf(tnew)).value;  // sorted(set(tnew))[1]
    if step == 0 {
      return Err(ValueError);
    }
    r := Ok(PyRange(0, ticks[|ticks| - 1], step));
  }

  /** The `while mask:` loop: at most seven masks, the first accepted one
      regenerates the ticks. */
  method SnapTicks(ticks: seq<int>) returns (r: Result<seq<int>>)
    ensures r == Snap(ticks)
  {
    var mask := 0xfffffff;
    ghost var i: nat := 0;
    while mask != 0
      invariant mask == MaskAt(i) && i <= 7
      invariant MaskPhase(ticks, i) == Snap(ticks)
      decreases mask
    {
      MaskZero(i);
      var tnew := Masked(ticks, mask);
      if 20 * |Distinct(tnew)| >= 9 * |ticks| {
        assert Accepts(ticks, mask);
        r := RegenerateTicks(ticks, tnew, mask);
        return;
      }
      mask := mask / 16;
      i := i + 1;
    }
    MaskZero(i);
    r := Ok(ticks);
  }

  /** The `while len(ticks) < 6:` loop. */
  method DensifyTicks(snapped: seq<int>) returns (r: Result<seq<int>>)
    ensures r == Densify(snapped)
  {
    var ticks := snapped;
    while |ticks| < 6
      invariant Densify(ticks) == Densify(snapped)
      decreases 6 - |ticks|
    {
      if |ticks| < 2 {
        return Err(IndexError);
      }
      var half := ticks[1] / 2;
      ticks := Double(ticks, half);
    }
    r := Ok(ticks);
  }

  method GenerateHexTicks(ticks: seq<real>, max: real) returns (r: Result<seq<int>>)
    ensures r == HexTicks(ticks, max)
    ensures r.Ok? ==> forall k :: 0 <= k < |r.value| ==> r.value[k] as real < max
  {
    var snapped := SnapTicks(Truncate(ticks));
    if snapped.Err? {
      return Err(snapped.error);
    }
    var dense := DensifyTicks(snapped.value);
    if dense.Err? {
      return Err(dense.error);
    }
    r := Ok(FilterBelow(dense.value, max));
  }

  // ---------------------------------------------------------------------------
  // Properties
  // ---------------------------------------------------------------------------

  /** No mask from round i up to round j is accepted. */
  ghost predicate RejectedBetween(ticks: seq<int>, i: nat, j: nat)
  {
    forall l :: i <= l < j ==> !Accepts(ticks, MaskAt(l))
  }

  /** Rounds whose mask is rejected pass the decision on. */
  lemma {:induction false} RejectedSkip(ticks: seq<int>, i: nat, j: nat)
    requires i <= j <= 7
    requires RejectedBetween(ticks, i, j)
    ensures MaskPhase(ticks, i) == MaskPhase(ticks, j)
    decreases j - i
  {
    if i < j {
      assert !Accepts(ticks, MaskAt(i));
      MaskRejected(ticks, i);
      RejectedSkip(ticks, i + 1, j);
    }
  }

  /** When no mask from round i on is accepted, the ticks stay as they are. */
  lemma NoMaskAccepted(ticks: seq<int>, i: nat)
    requires i <= 7
    requires RejectedBetween(ticks, i, 7)
    ensures MaskPhase(ticks, i) == Ok(ticks)
  {
    RejectedSkip(ticks, i, 7);
  }

  /** The first accepted mask from round i on decides the outcome. */
  lemma FirstMaskAccepted(ticks: seq<int>, i: nat, j: nat)
    requires i <= j < 7
    requires Accepts(ticks, MaskAt(j))
    requires RejectedBetween(ticks, i, j)
    ensures MaskPhase(ticks, i) == Regenerate(ticks, MaskAt(j))
  {
    RejectedSkip(ticks, i, j);
    MaskAccepted(ticks, j);
  }

  lemma MaskRejected(ticks: seq<int>, i: nat)
    requires i < 7 && !Accepts(ticks, MaskAt(i))
    ensures MaskPhase(ticks, i) == MaskPhase(ticks, i + 1)
  {
  }

  lemma MaskAccepted(ticks: seq<int>, i: nat)
    requires i < 7 && Accepts(ticks, MaskAt(i))
    ensures MaskPhase(ticks, i) == Regenerate(ticks, MaskAt(i))
  {
  }

  /** The regeneration step, the second-smallest distinct masked value, is
      itself a masked value and so a multiple of mask+1. */
  lemma RegenerationStepAligned(ticks: seq<int>, mask: nat)
    requires |ticks| > 0
    requires MinAbove(Masked(ticks, mask), MinOf(Masked(ticks, mask))).Some?
    ensures MinAbove(Masked(ticks, mask), MinOf(Masked(ticks, mask))).value % (mask + 1) == 0
  {
    var tnew := Masked(ticks, mask);
    var s := MinAbove(tnew, MinOf(tnew)).value;
    var j :| 0 <= j < |tnew| && tnew[j] == s;
    ClearMaskRoundsDown(ticks[j], mask);
  }

  /** Multiples of a multiple of d are multiples of d. */
  lemma MultipleOfMultiple(k: int, s: int, d: int)
    requires d > 0 && s % d == 0
    ensures (k * s) % d == 0
  {
    var q := s / d;
    assert s == q * d;
    MulAssoc(k, q, d);
    DivIs(k * s, d, k * q);
  }

  /** A range from 0 by a multiple of d holds only multiples of d. */
  lemma RangeAligned(stop: int, step: int, d: int)
    requires step != 0 && d > 0 && step % d == 0
    ensures var r := PyRange(0, stop, step);
            forall k :: 0 <= k < |r| ==> r[k] == k * step && r[k] % d == 0
  {
    var r := PyRange(0, stop, step);
    PyRangeShape(0, stop, step);
    forall k | 0 <= k < |r|
      ensures r[k] % d == 0
    {
      MultipleOfMultiple(k, step, d);
    }
  }

  /** Regenerated ticks are 0, s, 2s, ... on the near side of the old last
      tick, where the step s is the second-smallest distinct masked value;
      every regenerated tick is a multiple of mask+1. */
  lemma RegeneratedTicks(ticks: seq<int>, mask: nat, r: seq<int>)
    requires Regenerate(ticks, mask) == Ok(r)
    ensures |ticks| > 0 && |Distinct(Masked(ticks, mask))| >= 2
    ensures MinAbove(Masked(ticks, mask), MinOf(Masked(ticks, mask))).Some?
    ensures var s := MinAbove(Masked(ticks, mask), MinOf(Masked(ticks, mask))).value;
            && s != 0
            && (forall k :: 0 <= k < |r| ==> r[k] == k * s && r[k] % (mask + 1) == 0)
            && (s > 0 ==> forall k :: 0 <= k < |r| ==> r[k] < ticks[|ticks| - 1])
            && (s < 0 ==> forall k :: 0 <= k < |r| ==> r[k] > ticks[|ticks| - 1])
  {
    var tnew := Masked(ticks, mask);
    var s := MinAbove(tnew, MinOf(tnew)).value;
    var last := ticks[|ticks| - 1];
    DistinctCount(tnew);
    RegenerationStepAligned(ticks, mask);
    assert r == PyRange(0, last, s);
    PyRangeShape(0, last, s);
    RangeAligned(last, s, mask + 1);
  }

  /** Doubling interleaves each tick with itself plus half. */
  lemma {:induction false} DoubleShape(ticks: seq<int>, half: int)
    ensures forall k :: 0 <= k < |ticks| ==>
              Double(ticks, half)[2 * k] == ticks[k] && Double(ticks, half)[2 * k + 1] == ticks[k] + half
  {
    if ticks != [] {
      DoubleShape(ticks[1..], half);
      var rest := Double(ticks[1..], half);
      assert Double(ticks, half) == [ticks[0], ticks[0] + half] + rest;
      forall k | 1 <= k < |ticks|
        ensures Double(ticks, half)[2 * k] == ticks[k] && Double(ticks, half)[2 * k + 1] == ticks[k] + half
      {
        assert ticks[1..][k - 1] == ticks[k];
        assert Double(ticks, half)[2 * k] == rest[2 * (k - 1)];
        assert Double(ticks, half)[2 * k + 1] == rest[2 * (k - 1) + 1];
      }
    }
  }

  /** The doubling loop needs two ticks; given them it ends with six to
      eleven ticks and keeps every tick it started with. */
  lemma {:induction false} DensifyOutcome(ticks: seq<int>)
    ensures |ticks| >= 6 ==> Densify(ticks) == Ok(ticks)
    ensures |ticks| < 2 ==> Densify(ticks) == Err(IndexError)
    ensures 2 <= |ticks| ==>
              && Densify(ticks).Ok?
              && 6 <= |Densify(ticks).value|
              && (|ticks| < 6 ==> |Densify(ticks).value| < 12)
              && forall x :: x in ticks ==> x in Densify(ticks).value
    decreases 6 - |ticks|
  {
    if 2 <= |ticks| < 6 {
      var d := Double(ticks, ticks[1] / 2);
      DensifyOutcome(d);
      DoubleShape(ticks, ticks[1] / 2);
      forall x | x in ticks
        ensures x in d
      {
        var k :| 0 <= k < |ticks| && ticks[k] == x;
        assert d[2 * k] == x;
      }
    }
  }

  /** `generate_hex_ticks` fails exactly when snapping fails or leaves fewer
      than two ticks; otherwise every snapped tick below max is returned,
      and nothing at or above max is. */
  lemma HexTicksOutcome(ticks: seq<real>, max: real)
    ensures HexTicks(ticks, max).Err? <==> Snap(Truncate(ticks)).Err? || |Snap(Truncate(ticks)).value| < 2
    ensures HexTicks(ticks, max).Ok? ==>
              && (forall x :: x in HexTicks(ticks, max).value ==> x as real < max)
              && (forall x :: x in Snap(Truncate(ticks)).value && x as real < max ==> x in HexTicks(ticks, max).value)
  {
    if Snap(Truncate(ticks)).Ok? {
      DensifyOutcome(Snap(Truncate(ticks)).value);
    }
  }

  /** Ticks 0, 1, 2: every mask folds them onto 0, so none is accepted, and
      doubling steps by half of 1, which floors to 0, so every tick appears
      twice and the result is not strictly increasing. */
  lemma SmallTicksRepeat()
    ensures HexTicks([0.0, 1.0, 2.0], 10.0) == Ok([0, 0, 1, 1, 2, 2])
  {
    var t := [0, 1, 2];
    var d := [0, 0, 1, 1, 2, 2];
    assert Truncate([0.0, 1.0, 2.0]) == t;
    SmallTicksSnap();
    SmallTicksDouble();
    FilterKeepsAllBelow(d, 10.0);
  }

  lemma SmallTicksSnap()
    ensures Snap([0, 1, 2]) == Ok([0, 1, 2])
  {
    forall i | 0 <= i < 7
      ensures !Accepts([0, 1, 2], MaskAt(i))
    {
      SmallTicksFold(i);
    }
    NoMaskAccepted([0, 1, 2], 0);
  }

  lemma SmallTicksDouble()
    ensures Densify([0, 1, 2]) == Ok([0, 0, 1, 1, 2, 2])
  {
    var t := [0, 1, 2];
    assert t[1] / 2 == 0;
    assert Double(t, 0) == [0, 0, 1, 1, 2, 2];
  }

  /** Ticks already below max all survive the filter, in order. */
  lemma {:induction false} FilterKeepsAllBelow(ticks: seq<int>, max: real)
    requires forall k :: 0 <= k < |ticks| ==> ticks[k] as real < max
    ensures FilterBelow(ticks, max) == ticks
  {
    if ticks != [] {
      FilterKeepsAllBelow(ticks[1..], max);
      assert [ticks[0]] + ticks[1..] == ticks;
    }
  }

  lemma SmallTicksFold(i: nat)
    requires i < 7
    ensures !Accepts([0, 1, 2], MaskAt(i))
  {
    MasksTried(6);
    MaskDecreasing(i, 6);
    var m := MaskAt(i);
    DivIs(0, m + 1, 0);
    DivIs(1, m + 1, 0);
    DivIs(2, m + 1, 0);
    assert ClearMask(0, m) == 0 && ClearMask(1, m) == 0 && ClearMask(2, m) == 0;
    assert Masked([0, 1, 2], m) == [0, 0, 0];
    assert Distinct([0, 0, 0]) == {0};
  }

  lemma {:induction false} MaskDecreasing(i: nat, j: nat)
    requires i <= j
    ensures MaskAt(j) <= MaskAt(i)
    decreases j - i
  {
    if i < j {
      MaskDecreasing(i, j - 1);
    }
  }
}
