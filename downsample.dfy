/** `scale_down`: reduces a series of `len` values to `num` averages, spreading
    the samples over the bins like an antialiased line: bin n covers the sample
    range from n*len/num to (n+1)*len/num, and the sample straddling a bin end
    is shared between the two bins it touches.

    The specification is written per sample: `Weight(len, num, n, j, …)` is the
    share of sample j that bin n takes, and an output is the weighted mean of its
    bin. The flag `intended` selects how the share of a straddling sample is
    computed: `false` is the code as written, `true` the exact share. */
module Downsample {
  import opened Common

  // ---------------------------------------------------------------------------
  // Bin geometry
  // ---------------------------------------------------------------------------

  /** Index of the sample in which bin n ends (bin n ends at (n+1)*len/num,
      strictly inside or at the right edge of this sample); Edge(-1) is -1. */
  function Edge(len: nat, num: int, n: int): int
    requires num > 0
  {
    ((n + 1) * len - 1) / num
  }

  /** The fractional part of k*len/num in units of 1/num, taken in (0, 1]. */
  function FracWeight(len: nat, num: int, k: int): real
    requires num > 0
  {
    ((k * len - 1) % num + 1) as real / num as real
  }

  /** Share of the straddling sample Edge(n) that bin n takes; bin n+1 takes the
      rest. The exact share is the fraction of bin n's own end (k = n+1); the
      code as written adds the width's fraction before using it, and so takes
      the fraction of the next bin's end (k = n+2). */
  function Split(len: nat, num: int, n: int, intended: bool): real
    requires num > 0
  {
    FracWeight(len, num, if intended then n + 1 else n + 2)
  }

  /** Share of sample j that bin n takes. */
  function Weight(len: nat, num: int, n: int, j: int, intended: bool): real
    requires num > 0
  {
    if j == Edge(len, num, n - 1) then 1.0 - Split(len, num, n - 1, intended)
    else if Edge(len, num, n - 1) < j < Edge(len, num, n) then 1.0
    else if j == Edge(len, num, n) then Split(len, num, n, intended)
    else 0.0
  }

  /** First sample bin n touches. */
  function Lo(len: nat, num: int, n: int): nat
    requires num > 0
  {
    if Edge(len, num, n - 1) < 0 then 0 else Edge(len, num, n - 1)
  }

  /** Weighted sum of the samples of bin n below index hi. */
  function BinTotal(values: seq<real>, num: int, n: int, hi: int, intended: bool): real
    requires num > 0 && hi <= |values|
    decreases hi
  {
    if hi <= Lo(|values|, num, n) then 0.0
    else BinTotal(values, num, n, hi - 1, intended) + Weight(|values|, num, n, hi - 1, intended) * values[hi - 1]
  }

  /** Sum of the weights of the samples of bin n below index hi. */
  function BinCount(len: nat, num: int, n: int, hi: int, intended: bool): real
    requires num > 0
    decreases hi
  {
    if hi <= Lo(len, num, n) then 0.0
    else BinCount(len, num, n, hi - 1, intended) + Weight(len, num, n, hi - 1, intended)
  }

  /** The average that bin n reports. */
  function BinMean(values: seq<real>, num: int, n: int, intended: bool): real
    requires 0 <= n < num <= |values|
  {
    EdgeBelowLen(|values|, num, n);
    BinCountPositive(|values|, num, n, intended);
    BinTotal(values, num, n, Edge(|values|, num, n) + 1, intended)
      / BinCount(|values|, num, n, Edge(|values|, num, n) + 1, intended)
  }

  // ---------------------------------------------------------------------------
  // Facts about the geometry
  // ---------------------------------------------------------------------------

  lemma EdgeFirst(len: nat, num: int)
    requires num > 0
    ensures Edge(len, num, -1) == -1
  {
    DivIs(-1, num, -1);
  }

  /** Consecutive bins end in different samples, each at least one further. */
  lemma EdgeStep(len: nat, num: int, n: int)
    requires 0 < num <= len && n >= 0
    ensures Edge(len, num, n - 1) + 1 <= Edge(len, num, n)
    ensures Edge(len, num, n) >= 0
  {
    var e := Edge(len, num, n - 1);
    assert e * num <= n * len - 1;
    assert (e + 1) * num == e * num + num;
    assert (n + 1) * len == n * len + len;
    DivLowerBound((n + 1) * len - 1, num, e + 1);
    MulSign(n + 1, len);
  }

  /** q*d <= a gives q <= a/d. */
  lemma DivLowerBound(a: int, d: int, q: int)
    requires d > 0 && q * d <= a
    ensures q <= a / d
  {
    var r := a / d;
    assert r * d <= a < r * d + d;
    assert (q - r) * d == q * d - r * d;
    MulSign(q - r, d);
  }

  /** The last bin ends in the last sample, so every sample is read. */
  lemma EdgeLast(len: nat, num: int)
    requires 0 < num <= len
    ensures Edge(len, num, num - 1) == len - 1
  {
    assert (len - 1) * num == num * len - num;
    DivIs(num * len - 1, num, len - 1);
  }

  lemma {:induction false} EdgeBelowLen(len: nat, num: int, n: int)
    requires 0 <= n < num <= len
    ensures 0 <= Edge(len, num, n) <= len - 1
    decreases num - n
  {
    EdgeStep(len, num, n);
    if n == num - 1 {
      EdgeLast(len, num);
    } else {
      EdgeBelowLen(len, num, n + 1);
      EdgeStep(len, num, n + 1);
    }
  }

  lemma FracWeightRange(len: nat, num: int, k: int)
    requires num > 0
    ensures 0.0 < FracWeight(len, num, k) <= 1.0
  {
    var f := (k * len - 1) % num + 1;
    assert 1 <= f <= num;
    RatioRange(f, num);
  }

  lemma RatioRange(f: int, d: int)
    requires 1 <= f <= d
    ensures 0.0 < f as real / d as real <= 1.0
  {
    assert f as real <= d as real;
  }

  lemma WeightRange(len: nat, num: int, n: int, j: int, intended: bool)
    requires num > 0
    ensures 0.0 <= Weight(len, num, n, j, intended) <= 1.0
  {
    FracWeightRange(len, num, n + 1);
    FracWeightRange(len, num, n + 2);
    FracWeightRange(len, num, n);
  }

  lemma {:induction false} BinCountNonNegative(len: nat, num: int, n: int, hi: int, intended: bool)
    requires num > 0
    ensures BinCount(len, num, n, hi, intended) >= 0.0
    decreases hi
  {
    if hi > Lo(len, num, n) {
      BinCountNonNegative(len, num, n, hi - 1, intended);
      WeightRange(len, num, n, hi - 1, intended);
    }
  }

  /** Every bin has a positive weight: its own straddling sample. */
  lemma BinCountPositive(len: nat, num: int, n: int, intended: bool)
    requires 0 <= n < num <= len
    ensures BinCount(len, num, n, Edge(len, num, n) + 1, intended) > 0.0
  {
    EdgeStep(len, num, n);
    BinCountNonNegative(len, num, n, Edge(len, num, n), intended);
    FracWeightRange(len, num, if intended then n + 1 else n + 2);
  }

  /** With a width that divides evenly, every straddling sample belongs wholly
      to its bin. */
  lemma SplitWhole(len: nat, num: int, k: int)
    requires num > 0 && len % num == 0
    ensures FracWeight(len, num, k) == 1.0
  {
    var w := len / num;
    assert len == w * num;
    MulAssoc(k, w, num);
    assert k * len - 1 == (k * w - 1) * num + (num - 1);
    DivIs(k * len - 1, num, k * w - 1);
    assert FracWeight(len, num, k) == num as real / num as real;
    RatioOne(num);
  }

  // ---------------------------------------------------------------------------
  // Steps of the loop
  // ---------------------------------------------------------------------------

  /** The generator position t plus frac/num is k*len/num: where the k-th bin
      boundary lies on the sample scale. */
  ghost predicate Position(len: nat, num: int, k: int, t: int, frac: int)
  {
    t * num + frac == k * len
  }

  /** The running position and the fraction pin down the sample a bin ends in. */
  lemma IterationEdge(len: nat, num: int, n: int, t: int, frac: int)
    requires 0 < num <= len && n >= 0
    requires Position(len, num, n + 1, t, frac)
    requires len % num == 0 ==> frac == 0
    requires len % num > 0 ==> 1 <= frac <= num
    ensures len % num > 0 ==> t == Edge(len, num, n)
    ensures len % num == 0 ==> t == Edge(len, num, n) + 1
  {
    if len % num > 0 {
      DivIs((n + 1) * len - 1, num, t);
    } else {
      assert (n + 1) * len - 1 == (t - 1) * num + (num - 1);
      DivIs((n + 1) * len - 1, num, t - 1);
    }
  }

  /** At the top of pass n the generator's position, counting the whole
      samples still owed, is at bin n's last sample or just past it. */
  lemma PassStart(len: nat, num: int, n: int, p: int, intg: int, frac: int)
    requires 0 <= n < num <= len
    requires p == Edge(len, num, n - 1) + 1
    requires Position(len, num, n + 1, intg + p, frac)
    requires len % num == 0 ==> frac == 0
    requires len % num > 0 ==> 1 <= frac <= num
    ensures 0 <= intg && p + intg <= len
    ensures 0 <= Edge(len, num, n) < len
    ensures len % num > 0 ==> p + intg == Edge(len, num, n)
    ensures len % num == 0 ==> p + intg == Edge(len, num, n) + 1
  {
    IterationEdge(len, num, n, intg + p, frac);
    EdgeStep(len, num, n);
    EdgeBelowLen(len, num, n);
  }

  /** Adding the width moves the running position to the next bin's end. */
  lemma Advance(len: nat, num: int, n: int, p: int, frac: int)
    requires num > 0
    requires Position(len, num, n + 1, p, frac)
    ensures Position(len, num, n + 2, len / num + p, frac + len % num)
  {
    DistributeMul(len / num, p, num);
    DistributeMul(n + 1, 1, len);
  }

  /** Carrying a whole unit from the fraction to the integral part. */
  lemma Carry(len: nat, num: int, k: int, t: int, frac: int)
    requires Position(len, num, k, t, frac)
    ensures Position(len, num, k, t + 1, frac - num)
  {
    DistributeMul(t, 1, num);
  }

  /** The code's weight, frac/num, is the as-written share of the straddling sample. */
  lemma SplitIs(len: nat, num: int, n: int, t: int, frac: int)
    requires num > 0 && 1 <= frac <= num
    requires Position(len, num, n + 2, t, frac)
    ensures frac as real / num as real == Split(len, num, n, false)
  {
    DivIs((n + 2) * len - 1, num, t);
  }

  /** The straddling sample enters bin n with its share. */
  lemma ShareStep(values: seq<real>, num: int, n: int, bin: real, w: real, x: real, bin': real)
    requires 0 <= n < num <= |values|
    requires 0 <= Edge(|values|, num, n) < |values|
    requires bin == BinTotal(values, num, n, Edge(|values|, num, n), false)
    requires w == Split(|values|, num, n, false) && x == values[Edge(|values|, num, n)]
    requires bin' == bin + w * x
    ensures bin' == BinTotal(values, num, n, Edge(|values|, num, n) + 1, false)
  {
    EdgeStep(|values|, num, n);
    assert Weight(|values|, num, n, Edge(|values|, num, n), false) == w;
  }

  lemma ShareCountStep(len: nat, num: int, n: int, count: real, w: real, count': real)
    requires 0 <= n < num <= len
    requires count == BinCount(len, num, n, Edge(len, num, n), false)
    requires w == Split(len, num, n, false)
    requires count' == count + w
    ensures count' == BinCount(len, num, n, Edge(len, num, n) + 1, false)
    ensures count' > 0.0
  {
    EdgeStep(len, num, n);
    BinCountPositive(len, num, n, false);
  }

  /** Once bin n has taken its last sample, the running totals divided give its mean. */
  lemma MeanStep(values: seq<real>, num: int, n: int, bin: real, count: real)
    requires 0 <= n < num <= |values| && Edge(|values|, num, n) < |values|
    requires bin == BinTotal(values, num, n, Edge(|values|, num, n) + 1, false)
    requires count == BinCount(|values|, num, n, Edge(|values|, num, n) + 1, false) && count > 0.0
    ensures bin / count == BinMean(values, num, n, false)
  {
  }

  lemma NoShareLeft(w: real, x: real)
    requires w == 1.0
    ensures (1.0 - w) * x == 0.0
  {
  }

  /** A sample strictly inside bin n (or the last one when it is not shared)
      enters with weight one. */
  lemma WholeStep(values: seq<real>, num: int, n: int, p: int, intended: bool)
    requires 0 < num <= |values| && n >= 0 && 0 <= p < |values|
    requires Edge(|values|, num, n - 1) < p
    requires p < Edge(|values|, num, n) || (p == Edge(|values|, num, n) && Split(|values|, num, n, intended) == 1.0)
    ensures BinTotal(values, num, n, p + 1, intended) == BinTotal(values, num, n, p, intended) + values[p]
    ensures BinCount(|values|, num, n, p + 1, intended) == BinCount(|values|, num, n, p, intended) + 1.0
  {
  }

  /** A run of samples strictly inside bin n enters whole. */
  lemma {:induction false} WholeRun(values: seq<real>, num: int, n: int, p: int, q: int, intended: bool)
    requires 0 < num <= |values| && n >= 0 && 0 <= p
    requires Edge(|values|, num, n - 1) < p <= q <= |values|
    requires q <= Edge(|values|, num, n) || (q == Edge(|values|, num, n) + 1 && Split(|values|, num, n, intended) == 1.0)
    ensures BinTotal(values, num, n, q, intended) == BinTotal(values, num, n, p, intended) + Sum(values[p..q])
    ensures BinCount(|values|, num, n, q, intended) == BinCount(|values|, num, n, p, intended) + (q - p) as real
    decreases q
  {
    if q == p {
      assert values[p..q] == [];
    } else {
      WholeRun(values, num, n, p, q - 1, intended);
      WholeStep(values, num, n, q - 1, intended);
      SumSliceStep(values, p, q);
    }
  }

  /** Bin n+1 starts with the rest of bin n's straddling sample. */
  lemma BinStart(values: seq<real>, num: int, n: int, intended: bool, w: real, x: real, bin: real, count: real)
    requires 0 <= n < num <= |values|
    requires 0 <= Edge(|values|, num, n) < |values|
    requires w == Split(|values|, num, n, intended) && x == values[Edge(|values|, num, n)]
    requires bin == (1.0 - w) * x && count == 1.0 - w
    ensures bin == BinTotal(values, num, n + 1, Edge(|values|, num, n) + 1, intended)
    ensures count == BinCount(|values|, num, n + 1, Edge(|values|, num, n) + 1, intended)
  {
    EdgeStep(|values|, num, n);
  }

  // ---------------------------------------------------------------------------
  // The operation
  // ---------------------------------------------------------------------------

  /** The state at the top of pass n of the bin loop: `p` values have been
      handed out, exactly those of bins before n; the `intg` whole samples
      still owed and the fraction place bin n's end; `bin` and `count` hold
      what bin n has received so far. */
  ghost predicate PassState(values: seq<real>, num: int, n: int, intg: int, frac: int, p: int, bin: real, count: real)
    requires 0 < num <= |values|
  {
    var len := |values|;
    && 0 <= n <= num
    && p == Edge(len, num, n - 1) + 1 && p <= len
    && Position(len, num, n + 1, intg + p, frac)
    && (len % num == 0 ==> frac == 0)
    && (len % num > 0 ==> 1 <= frac <= num)
    && bin == BinTotal(values, num, n, p, false)
    && count == BinCount(len, num, n, p, false)
  }

  /** The state just before bin n is closed: every sample wholly inside it has
      been added, and `frac` is nonzero exactly when the next sample
      straddles the boundary to bin n+1, with frac/num its share in bin n. */
  ghost predicate ClosingState(values: seq<real>, num: int, n: int, intg: int, frac: int, p: int, bin: real, count: real)
    requires 0 < num <= |values|
  {
    var len := |values|;
    && 0 <= n < num && p <= len && Edge(len, num, n) < len
    && Position(len, num, n + 2, intg + p, frac)
    && (len % num == 0 ==> frac == 0)
    && (len % num > 0 ==> 1 <= frac <= num)
    && bin == BinTotal(values, num, n, p, false)
    && count == BinCount(len, num, n, p, false)
    && (frac != 0 ==> p == Edge(len, num, n) && frac as real / num as real == Split(len, num, n, false))
    && (frac == 0 ==> p == Edge(len, num, n) + 1 && Split(len, num, n, false) == 1.0)
  }

  /** The `while intg` loop: the next intg values are added whole to the bin. */
  method TakeWhole(values: seq<real>, p: nat, intg: int, bin: real, count: real) returns (p': nat, bin': real, count': real)
    requires 0 <= intg && p + intg <= |values|
    ensures p' == p + intg
    ensures bin' == bin + Sum(values[p..p'])
    ensures count' == count + intg as real
  {
    p', bin', count' := p, bin, count;
    var left := intg;
    while left != 0
      invariant 0 <= left && p' + left == p + intg
      invariant bin' == bin + Sum(values[p..p'])
      invariant count' == count + (p' - p) as real
    {
      SumSliceStep(values, p, p' + 1);
      bin' := bin' + values[p'];
      count' := count' + 1.0;
      p' := p' + 1;
      left := left - 1;
    }
  }

  /** The first half of one pass of the bin loop: the `while intg` loop adds
      the owed samples whole, then the width is added to the running
      position, a fraction above num carrying one whole sample. */
  method Gather(values: seq<real>, num: int, n: int, intg: int, frac: int, p: nat, bin: real, count: real)
    returns (intg': int, frac': int, p': nat, bin': real, count': real)
    requires 0 < num <= |values| && n < num
    requires PassState(values, num, n, intg, frac, p, bin, count)
    ensures ClosingState(values, num, n, intg', frac', p', bin', count')
  {
    var len := |values|;
    var widthIntg := len / num;
    var widthFrac := len % num;
    PassStart(len, num, n, p, intg, frac);
    if widthFrac == 0 {
      SplitWhole(len, num, n + 2);
    }
    p', bin', count' := TakeWhole(values, p, intg, bin, count);
    WholeRun(values, num, n, p, p', false);
    Advance(len, num, n, p', frac);
    intg' := widthIntg;  // the `while intg` loop left intg at 0
    frac' := frac + widthFrac;
    if frac' > num {
      Carry(len, num, n + 2, intg' + p', frac');
      frac' := frac' - num;
      intg' := intg' + 1;
    }
    if frac' != 0 {
      SplitIs(len, num, n, intg' + p', frac');
    }
  }

  /** The `if frac` tail of one pass of the bin loop: bin n is closed and its
      mean appended; a nonzero fraction means the next sample straddles the
      boundary, so it is shared between bin n and bin n+1. */
  method EmitBin(values: seq<real>, num: int, n: int, intg: int, frac: int, p: nat, bin: real, count: real,
                 output: seq<real>)
    returns (output': seq<real>, intg': int, p': nat, bin': real, count': real)
    requires 0 < num <= |values|
    requires ClosingState(values, num, n, intg, frac, p, bin, count)
    ensures output' == output + [BinMean(values, num, n, false)]
    ensures PassState(values, num, n + 1, intg', frac, p', bin', count')
  {
    var len := |values|;
    ghost var e := Edge(len, num, n);
    EdgeStep(len, num, n);
    if frac != 0 {
      var weight := frac as real / num as real;
      var x := values[p];
      bin' := bin + weight * x;
      count' := count + weight;
      ShareStep(values, num, n, bin, weight, x, bin');
      ShareCountStep(len, num, n, count, weight, count');
      MeanStep(values, num, n, bin', count');
      output' := output + [bin' / count'];
      bin' := (1.0 - weight) * x;
      intg' := intg - 1;
      count' := 1.0 - weight;
      p' := p + 1;
      BinStart(values, num, n, false, weight, x, bin', count');
    } else {
      BinCountPositive(len, num, n, false);
      MeanStep(values, num, n, bin, count);
      output' := output + [bin / count];
      NoShareLeft(Split(len, num, n, false), values[e]);
      count' := 0.0;
      bin' := 0.0;
      intg', p' := intg, p;
      BinStart(values, num, n, false, Split(len, num, n, false), values[e], bin', count');
    }
    assert intg' + p' == intg + p;
  }

  /** `scale_down(values, num)`. A series shorter than `num` is returned
      unchanged; `num == 0` divides by zero; a negative `num` gives no bins;
      otherwise output n is the weighted mean of bin n as the code weighs it. */
  method ScaleDown(values: seq<real>, num: int) returns (r: Result<seq<real>>)
    ensures |values| < num ==> r == Ok(values)
    ensures num == 0 ==> r == Err(ZeroDivisionError)
    ensures num < 0 ==> r == Ok([])
    ensures 0 < num <= |values| ==>
              r.Ok? && |r.value| == num &&
              forall n :: 0 <= n < num ==> r.value[n] == BinMean(values, num, n, false)
  {
    if |values| < num {
      return Ok(values);
    }
    if num == 0 {
      return Err(ZeroDivisionError);
    }
    if num < 0 {
      return Ok([]);
    }
    var len := |values|;
    var widthIntg := len / num;
    var widthFrac := len % num;
    var intg := widthIntg;
    var frac := widthFrac;
    var bin := 0.0;
    var count := 0.0;
    var output: seq<real> := [];
    var p := 0;  // how many values the generator has handed out
    EdgeFirst(len, num);
    for n := 0 to num
      invariant PassState(values, num, n, intg, frac, p, bin, count)
      invariant |output| == n
      invariant forall k :: 0 <= k < n ==> output[k] == BinMean(values, num, k, false)
    {
      intg, frac, p, bin, count := Gather(values, num, n, intg, frac, p, bin, count);
      output, intg, p, bin, count := EmitBin(values, num, n, intg, frac, p, bin, count, output);
    }
    return Ok(output);
  }

  // ---------------------------------------------------------------------------
  // Properties
  // ---------------------------------------------------------------------------

  /** The weighted sum of a bin lies between its weight times the smallest and
      its weight times the largest value. */
  lemma {:induction false} BinTotalBounds(values: seq<real>, num: int, n: int, hi: int, intended: bool, lo: real, up: real)
    requires num > 0 && hi <= |values|
    requires forall j :: 0 <= j < |values| ==> lo <= values[j] <= up
    ensures ScaledWithin(BinTotal(values, num, n, hi, intended), BinCount(|values|, num, n, hi, intended), lo, up)
    decreases hi
  {
    if hi > Lo(|values|, num, n) {
      BinTotalBounds(values, num, n, hi - 1, intended, lo, up);
      BoundsAt(values, num, n, hi, intended, lo, up);
    }
  }

  lemma BoundsAt(values: seq<real>, num: int, n: int, hi: int, intended: bool, lo: real, up: real)
    requires num > 0 && Lo(|values|, num, n) < hi <= |values|
    requires lo <= values[hi - 1] <= up
    requires ScaledWithin(BinTotal(values, num, n, hi - 1, intended), BinCount(|values|, num, n, hi - 1, intended), lo, up)
    ensures ScaledWithin(BinTotal(values, num, n, hi, intended), BinCount(|values|, num, n, hi, intended), lo, up)
  {
    WeightRange(|values|, num, n, hi - 1, intended);
    BoundsStep(BinCount(|values|, num, n, hi - 1, intended), BinTotal(values, num, n, hi - 1, intended),
               Weight(|values|, num, n, hi - 1, intended), values[hi - 1], lo, up,
               BinCount(|values|, num, n, hi, intended), BinTotal(values, num, n, hi, intended));
  }

  /** t lies between lo and up times the weight c. */
  ghost predicate ScaledWithin(t: real, c: real, lo: real, up: real)
  {
    lo * c <= t <= up * c
  }

  lemma BoundsStep(c: real, t: real, w: real, x: real, lo: real, up: real, c': real, t': real)
    requires ScaledWithin(t, c, lo, up) && w >= 0.0 && lo <= x <= up
    requires c' == c + w && t' == t + w * x
    ensures ScaledWithin(t', c', lo, up)
  {
    assert w * lo <= w * x <= w * up;
  }

  lemma MeanBetween(total: real, count: real, lo: real, up: real)
    requires count > 0.0 && ScaledWithin(total, count, lo, up)
    ensures lo <= total / count <= up
  {
    var m := total / count;
    assert m * count == total;
    assert (m - lo) * count == total - lo * count;
    assert (up - m) * count == up * count - total;
  }

  /** Every output lies between the smallest and the largest input value. */
  lemma MeansWithinRange(values: seq<real>, num: int, n: int, lo: real, up: real)
    requires 0 <= n < num <= |values|
    requires forall j :: 0 <= j < |values| ==> lo <= values[j] <= up
    ensures lo <= BinMean(values, num, n, false) <= up
  {
    var hi := Edge(|values|, num, n) + 1;
    EdgeBelowLen(|values|, num, n);
    BinCountPositive(|values|, num, n, false);
    BinTotalBounds(values, num, n, hi, false, lo, up);
    MeanBetween(BinTotal(values, num, n, hi, false), BinCount(|values|, num, n, hi, false), lo, up);
  }

  /** With as many bins as samples, bin n ends at sample n. */
  lemma SameLengthEdges(len: nat, n: int)
    requires 0 <= n < len
    ensures Edge(len, len, n) == n && Edge(len, len, n - 1) == n - 1
  {
    DistributeMul(n, 1, len);
    DivIs((n + 1) * len - 1, len, n);
    DistributeMul(n - 1, 1, len);
    DivIs(n * len - 1, len, n - 1);
  }

  /** Scaling a series to its own length returns it unchanged. */
  lemma ScaleToSameLength(values: seq<real>, n: int)
    requires 0 <= n < |values|
    ensures BinMean(values, |values|, n, false) == values[n]
  {
    var len := |values|;
    SameLengthEdges(len, n);
    SplitWhole(len, len, n + 2);
    SplitWhole(len, len, n + 1);
    assert BinTotal(values, len, n, n, false) == 0.0;
    assert BinCount(len, len, n, n, false) == 0.0;
  }

  // ---------------------------------------------------------------------------
  // The exact share
  // ---------------------------------------------------------------------------

  /** The weights of bin n's samples before its straddling sample. */
  lemma {:induction false} CountBeforeSplit(len: nat, num: int, n: int, hi: int)
    requires 0 <= n < num <= len
    requires Edge(len, num, n - 1) + 1 <= hi <= Edge(len, num, n)
    ensures BinCount(len, num, n, hi, true)
            == 1.0 - Split(len, num, n - 1, true) + (hi - Edge(len, num, n - 1) - 1) as real
    decreases hi
  {
    var e0 := Edge(len, num, n - 1);
    if n == 0 {
      EdgeFirst(len, num);
      SplitBeforeFirst(len, num);
    } else {
      EdgeStep(len, num, n - 1);
    }
    if hi > e0 + 1 {
      CountBeforeSplit(len, num, n, hi - 1);
    }
  }

  lemma SplitBeforeFirst(len: nat, num: int)
    requires num > 0
    ensures Split(len, num, -1, true) == 1.0
  {
    DivIs(-1, num, -1);
    assert FracWeight(len, num, 0) == num as real / num as real;
    RatioOne(num);
  }

  /** With the exact share every bin weighs exactly len/num samples: the
      averaging the code sets out to do. */
  lemma IntendedBinWidth(len: nat, num: int, n: int)
    requires 0 <= n < num <= len
    ensures BinCount(len, num, n, Edge(len, num, n) + 1, true) == len as real / num as real
  {
    var e0, e1 := Edge(len, num, n - 1), Edge(len, num, n);
    EdgeStep(len, num, n);
    CountBeforeSplit(len, num, n, e1);
    var a := n * len;
    assert (n + 1) * len == a + len;
    WidthArith(a, len, num);
    CountIdentity(num, (a - 1) % num + 1, (a + len - 1) % num + 1, e1 - e0 - 1, len);
  }

  lemma WidthArith(a: int, len: int, num: int)
    requires num > 0
    ensures (num - ((a - 1) % num + 1)) + ((a + len - 1) / num - (a - 1) / num - 1) * num + ((a + len - 1) % num + 1) == len
  {
    var q0, r0 := (a - 1) / num, (a - 1) % num;
    var q1, r1 := (a + len - 1) / num, (a + len - 1) % num;
    assert a - 1 == q0 * num + r0;
    assert a + len - 1 == q1 * num + r1;
    assert (q1 - q0 - 1) * num == q1 * num - q0 * num - num;
  }

  lemma CountIdentity(d: int, a: int, b: int, k: int, total: int)
    requires d > 0 && (d - a) + k * d + b == total
    ensures 1.0 - a as real / d as real + k as real + b as real / d as real == total as real / d as real
  {
    var D := d as real;
    var A, B, K := a as real, b as real, k as real;
    var L := 1.0 - A / D + K + B / D;
    assert (A / D) * D == A;
    assert (B / D) * D == B;
    assert L * D == D - (A / D) * D + K * D + (B / D) * D;
    assert (k * d) as real == K * D;
    QuotientIs(L, total as real, D);
  }

  /** With the exact share the series [0, 0, 3] scaled to two bins averages
      1.5 samples per bin and gives [0, 2]. */
  lemma IntendedExample()
    ensures BinCount(3, 2, 0, Edge(3, 2, 0) + 1, true) == 1.5
    ensures BinMean([0.0, 0.0, 3.0], 2, 1, true) == 2.0
  {
    IntendedBinWidth(3, 2, 0);
    var v := [0.0, 0.0, 3.0];
    assert Edge(3, 2, 0) == 1 && Edge(3, 2, 1) == 2;
    assert Split(3, 2, 0, true) == 0.5 && Split(3, 2, 1, true) == 1.0;
    assert BinTotal(v, 2, 1, 1, true) == 0.0;
    assert BinTotal(v, 2, 1, 2, true) == 0.0;
    assert BinTotal(v, 2, 1, 3, true) == 3.0;
    assert BinCount(3, 2, 1, 1, true) == 0.0;
    assert BinCount(3, 2, 1, 2, true) == 0.5;
    assert BinCount(3, 2, 1, 3, true) == 1.5;
  }

  /** As written, [0, 0, 3] scaled to two bins gives [0, 3]: the first bin takes
      both zeros whole (weight 2 instead of 1.5) and the second weighs the 3
      against only half a zero. */
  lemma AsWrittenExample()
    ensures BinCount(3, 2, 0, Edge(3, 2, 0) + 1, false) == 2.0
    ensures BinMean([0.0, 0.0, 3.0], 2, 1, false) == 3.0
  {
    var v := [0.0, 0.0, 3.0];
    assert Edge(3, 2, -1) == -1 && Edge(3, 2, 0) == 1 && Edge(3, 2, 1) == 2;
    assert Split(3, 2, 0, false) == 1.0 && Split(3, 2, 1, false) == 0.5;
    assert BinCount(3, 2, 0, 1, false) == 1.0;
    assert BinCount(3, 2, 0, 2, false) == 2.0;
    assert BinTotal(v, 2, 1, 1, false) == 0.0;
    assert BinTotal(v, 2, 1, 2, false) == 0.0;
    assert BinTotal(v, 2, 1, 3, false) == 1.5;
    assert BinCount(3, 2, 1, 1, false) == 0.0;
    assert BinCount(3, 2, 1, 2, false) == 0.0;
    assert BinCount(3, 2, 1, 3, false) == 0.5;
  }
}
