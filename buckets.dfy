/** Bucket aggregation shared by the PE and raw-binary plugins: per-block
    values are folded into buckets `factor` blocks wide, keyed in a
    defaultdict by the bucket's starting byte offset, and then read back as a
    gap-free list of bucket values divided by the block length. */
module Buckets {
  import opened Common

  /** Byte offset at which bucket k starts: k * BLOCK_LEN * factor. */
  function BucketOffset(k: int, blockLen: int, factor: int): int
  {
    k * (blockLen * factor)
  }

  lemma BucketOffsetStrictMono(a: int, b: int, blockLen: int, factor: int)
    requires blockLen > 0 && factor > 0 && a < b
    ensures BucketOffset(a, blockLen, factor) < BucketOffset(b, blockLen, factor)
  {
    MulStrictMono(a, b, blockLen * factor);
  }

  lemma BucketOffsetNext(k: int, blockLen: int, factor: int)
    ensures BucketOffset(k + 1, blockLen, factor) == BucketOffset(k, blockLen, factor) + blockLen * factor
  {
    DistributeMul(k, 1, blockLen * factor);
  }

  /** The bucket a byte offset falls in, as `int(off/BLOCK_LEN/factor)` computes it
      for a non-negative offset: the bucket whose byte range contains the offset. */
  function BucketOf(off: nat, blockLen: int, factor: int): (k: nat)
    requires blockLen > 0 && factor > 0
    ensures BucketOffset(k, blockLen, factor) <= off < BucketOffset(k + 1, blockLen, factor)
  {
    DivDiv(off, blockLen, factor);
    BucketOffsetNext(off / (blockLen * factor), blockLen, factor);
    off / blockLen / factor
  }

  /** A read of a `defaultdict(float)`: a key never written reads as zero. */
  function Lookup(m: map<int, real>, q: int): real
  {
    if q in m then m[q] else 0.0
  }

  function Min(a: int, b: int): int
  {
    if a <= b then a else b
  }

  /** Number of buckets the condensed series has for n blocks: one per started
      group of `factor` blocks, and a single (empty) bucket when there are none. */
  function NumBlockBuckets(n: nat, factor: int): nat
    requires factor > 0
  {
    if n == 0 then 1 else (n - 1) / factor + 1
  }

  /** Total of the values of blocks k*factor .. k*factor+factor-1, as far as they exist. */
  function BlockBucketSum(values: seq<real>, factor: int, k: nat): real
    requires factor > 0
  {
    Sum(values[Min(k * factor, |values|)..Min(k * factor + factor, |values|)])
  }

  /** Appending x to a series changes the sum of its clipped window [lo, hi)
      only when the new position lies inside the window. */
  lemma ClippedSumExtend(values: seq<real>, x: real, lo: int, hi: int)
    requires 0 <= lo <= hi
    ensures Sum((values + [x])[Min(lo, |values| + 1)..Min(hi, |values| + 1)])
            == Sum(values[Min(lo, |values|)..Min(hi, |values|)]) + (if lo <= |values| < hi then x else 0.0)
  {
    var s := values + [x];
    var n := |values|;
    if lo <= n < hi {
      SumSliceStep(s, lo, n + 1);
      assert s[lo..n] == values[lo..n];
    } else if n < lo {
      assert s[Min(lo, n + 1)..Min(hi, n + 1)] == [];
    } else {
      assert s[lo..hi] == values[lo..hi];
    }
  }

  /** Appending one block adds its value to exactly one bucket: number |values| / factor. */
  lemma BlockBucketSumExtend(values: seq<real>, x: real, factor: int, k: nat)
    requires factor > 0
    ensures BlockBucketSum(values + [x], factor, k)
            == BlockBucketSum(values, factor, k) + (if |values| / factor == k then x else 0.0)
  {
    var n := |values|;
    var lo := k * factor;
    assert 0 <= lo by {
      MulSign(k, factor);
    }
    ClippedSumExtend(values, x, lo, lo + factor);
    if n / factor == k {
      DivIs(n, factor, k);
    } else if lo <= n < lo + factor {
      DivIs(n, factor, k);
    }
  }

  /** The bucket totals of buckets 0 .. count-1, in order. */
  function BucketTotals(values: seq<real>, factor: int, count: nat): (r: seq<real>)
    requires factor > 0
    ensures |r| == count
  {
    if count == 0 then [] else BucketTotals(values, factor, count - 1) + [BlockBucketSum(values, factor, count - 1)]
  }

  /** The first `count` buckets together hold exactly the first count*factor blocks. */
  lemma {:induction false} BucketTotalsSum(values: seq<real>, factor: int, count: nat)
    requires factor > 0
    ensures Sum(BucketTotals(values, factor, count)) == Sum(values[..Min(count * factor, |values|)])
  {
    if count > 0 {
      var k := count - 1;
      BucketTotalsSum(values, factor, k);
      var t := BucketTotals(values, factor, k);
      SumAppend(t, [BlockBucketSum(values, factor, k)]);
      assert Sum([BlockBucketSum(values, factor, k)]) == BlockBucketSum(values, factor, k) by {
        assert [BlockBucketSum(values, factor, k)][..0] == [];
      }
      DistributeMul(k, 1, factor);
      var a, b := Min(k * factor, |values|), Min(count * factor, |values|);
      SumSplit(values, 0, a, b);
      assert values[..b][..a] == values[..a];
      assert values[0..a] == values[..a] && values[0..b] == values[..b];
    }
  }

  /** Reads the bucket map back as the source's `xrange(0, m+1, BLOCK_LEN*factor)`
      loop does: one entry per bucket offset up to and including m, missing
      buckets reading as zero, every entry divided by the block length. */
  method EmitBuckets(counts: map<int, real>, m: int, blockLen: int, factor: int) returns (out: seq<real>)
    requires blockLen > 0 && factor > 0 && m >= 0
    ensures |out| == m / (blockLen * factor) + 1
    ensures forall k :: 0 <= k < |out| ==>
              out[k] == Lookup(counts, BucketOffset(k, blockLen, factor)) / blockLen as real
  {
    var step := blockLen * factor;
    out := [];
    var q := 0;
    while q < m + 1
      invariant q == BucketOffset(|out|, blockLen, factor)
      invariant |out| > 0 ==> BucketOffset(|out| - 1, blockLen, factor) <= m
      invariant forall k :: 0 <= k < |out| ==>
                  out[k] == Lookup(counts, BucketOffset(k, blockLen, factor)) / blockLen as real
      decreases m + 1 - q
    {
      var val := if q !in counts then 0.0 else counts[q];
      out := out + [val / blockLen as real];
      BucketOffsetNext(|out| - 1, blockLen, factor);
      q := q + step;
    }
    BucketOffsetNext(|out| - 1, blockLen, factor);
    DivIs(m, step, |out| - 1);
  }

  /** `_condense_pointers`: folds a per-block series into buckets of `factor`
      blocks and returns each bucket's total divided by the block length. */
  method CondensePointers(pointers: seq<real>, factor: int, blockLen: int) returns (ptrcounts: seq<real>)
    requires blockLen > 0 && factor > 0
    ensures |ptrcounts| == NumBlockBuckets(|pointers|, factor)
    ensures forall k :: 0 <= k < |ptrcounts| ==>
              ptrcounts[k] == BlockBucketSum(pointers, factor, k) / blockLen as real
  {
    var ptrs: map<int, real> := map[];
    var m := 0;
    var offset := 0;
    var i := 0;
    while i < |pointers|
      invariant 0 <= i <= |pointers|
      invariant offset == i * blockLen
      invariant m == BucketOffset(NumBlockBuckets(i, factor) - 1, blockLen, factor)
      invariant forall k: nat :: Lookup(ptrs, BucketOffset(k, blockLen, factor))
                                 == BlockBucketSum(pointers[..i], factor, k)
    {
      var temp := pointers[i];
      MulDiv(i, blockLen);
      var q := BucketOffset(offset / blockLen / factor, blockLen, factor);
      assert pointers[..i + 1] == pointers[..i] + [temp];
      AddToBucket(ptrs, pointers[..i], temp, factor, blockLen);
      ptrs := ptrs[q := Lookup(ptrs, q) + temp];
      DistributeMul(i, 1, blockLen);
      offset := offset + blockLen;
      MaxBucketStep(i, factor, blockLen);
      if q > m {
        m := q;
      }
      i := i + 1;
    }
    assert pointers[..i] == pointers;
    ptrcounts := EmitBuckets(ptrs, m, blockLen, factor);
    MulDiv(NumBlockBuckets(|pointers|, factor) - 1, blockLen * factor);
  }

  /** Adding a block's value under its bucket key keeps the map equal, bucket
      by bucket, to the bucket totals of the blocks seen so far. */
  lemma AddToBucket(ptrs: map<int, real>, values: seq<real>, x: real, factor: int, blockLen: int)
    requires blockLen > 0 && factor > 0
    requires forall k: nat :: Lookup(ptrs, BucketOffset(k, blockLen, factor)) == BlockBucketSum(values, factor, k)
    ensures var q := BucketOffset(|values| / factor, blockLen, factor);
            forall k: nat :: Lookup(ptrs[q := Lookup(ptrs, q) + x], BucketOffset(k, blockLen, factor))
                             == BlockBucketSum(values + [x], factor, k)
  {
    var b := |values| / factor;
    var q := BucketOffset(b, blockLen, factor);
    var ptrs' := ptrs[q := Lookup(ptrs, q) + x];
    forall k: nat
      ensures Lookup(ptrs', BucketOffset(k, blockLen, factor)) == BlockBucketSum(values + [x], factor, k)
    {
      BlockBucketSumExtend(values, x, factor, k);
      if k < b {
        BucketOffsetStrictMono(k, b, blockLen, factor);
      } else if k > b {
        BucketOffsetStrictMono(b, k, blockLen, factor);
      }
    }
  }

  /** The largest bucket key after i+1 blocks is that of block i's bucket, and
      it is never smaller than the largest key after i blocks. */
  lemma MaxBucketStep(i: nat, factor: int, blockLen: int)
    requires blockLen > 0 && factor > 0
    ensures BucketOffset(NumBlockBuckets(i + 1, factor) - 1, blockLen, factor) == BucketOffset(i / factor, blockLen, factor)
    ensures BucketOffset(NumBlockBuckets(i, factor) - 1, blockLen, factor) <= BucketOffset(i / factor, blockLen, factor)
  {
    if i > 0 {
      DivMono(i - 1, i, factor);
      if (i - 1) / factor < i / factor {
        BucketOffsetStrictMono((i - 1) / factor, i / factor, blockLen, factor);
      }
    }
  }

  /** Condensing conserves the total: the outputs times the block length add up
      to the sum of the inputs, nothing lost and nothing counted twice. */
  lemma CondenseConserves(pointers: seq<real>, factor: int, blockLen: int, ptrcounts: seq<real>)
    requires blockLen > 0 && factor > 0
    requires |ptrcounts| == NumBlockBuckets(|pointers|, factor)
    requires forall k :: 0 <= k < |ptrcounts| ==>
               ptrcounts[k] == BlockBucketSum(pointers, factor, k) / blockLen as real
    ensures Sum(ptrcounts) * blockLen as real == Sum(pointers)
  {
    var totals := BucketTotals(pointers, factor, |ptrcounts|);
    forall k | 0 <= k < |ptrcounts|
      ensures ptrcounts[k] == totals[k] / blockLen as real
    {
      BucketTotalsAt(pointers, factor, |ptrcounts|, k);
    }
    ScaledBack(totals, blockLen, ptrcounts);
    AllBucketsTotal(pointers, factor);
  }

  lemma ScaledBack(totals: seq<real>, blockLen: int, ptrcounts: seq<real>)
    requires blockLen > 0 && |totals| == |ptrcounts|
    requires forall k :: 0 <= k < |ptrcounts| ==> ptrcounts[k] == totals[k] / blockLen as real
    ensures Sum(ptrcounts) * blockLen as real == Sum(totals)
  {
    SumScaled(totals, ptrcounts, blockLen as real);
  }

  lemma {:induction false} BucketTotalsAt(values: seq<real>, factor: int, count: nat, k: nat)
    requires factor > 0 && k < count
    ensures BucketTotals(values, factor, count)[k] == BlockBucketSum(values, factor, k)
  {
    if k < count - 1 {
      BucketTotalsAt(values, factor, count - 1, k);
    }
  }

  /** Together the emitted buckets hold every block exactly once. */
  lemma AllBucketsTotal(values: seq<real>, factor: int)
    requires factor > 0
    ensures Sum(BucketTotals(values, factor, NumBlockBuckets(|values|, factor))) == Sum(values)
  {
    BucketTotalsSum(values, factor, NumBlockBuckets(|values|, factor));
    BucketsCoverAll(|values|, factor);
    assert values[..|values|] == values;
  }

  /** The emitted buckets reach past the last block. */
  lemma BucketsCoverAll(n: nat, factor: int)
    requires factor > 0
    ensures Min(NumBlockBuckets(n, factor) * factor, n) == n
  {
    if n > 0 {
      var q := (n - 1) / factor;
      assert n - 1 < q * factor + factor;
      DistributeMul(q, 1, factor);
    }
  }

  /** A candidate pointer found by the native scanner: its in-block offset
      (`off`) and the integer value read there (`ptr`). */
  datatype Candidate = Candidate(off: nat, ptr: nat)

  /** All candidates of all blocks, block by block, as the nested
      `for temp in pointers: for off, ptr in temp` loops visit them. */
  function Flatten(blocks: seq<seq<Candidate>>): seq<Candidate>
  {
    if blocks == [] then [] else Flatten(blocks[..|blocks| - 1]) + blocks[|blocks| - 1]
  }

  lemma FlattenStep(blocks: seq<seq<Candidate>>, i: nat)
    requires i < |blocks|
    ensures Flatten(blocks[..i + 1]) == Flatten(blocks[..i]) + blocks[i]
  {
    assert blocks[..i + 1][..i] == blocks[..i];
  }

  /** Number of offsets that fall in bucket k. */
  function BucketCount(offs: seq<nat>, blockLen: int, factor: int, k: nat): nat
    requires blockLen > 0 && factor > 0
  {
    if offs == [] then 0
    else BucketCount(offs[..|offs| - 1], blockLen, factor, k)
         + (if BucketOf(offs[|offs| - 1], blockLen, factor) == k then 1 else 0)
  }

  /** The largest bucket any offset falls in; 0 when there are no offsets. */
  function MaxBucket(offs: seq<nat>, blockLen: int, factor: int): nat
    requires blockLen > 0 && factor > 0
  {
    if offs == [] then 0
    else
      var m := MaxBucket(offs[..|offs| - 1], blockLen, factor);
      var b := BucketOf(offs[|offs| - 1], blockLen, factor);
      if b > m then b else m
  }

  /** MaxBucket is the least bucket index bounding every offset's bucket. */
  lemma {:induction false} MaxBucketIsMax(offs: seq<nat>, blockLen: int, factor: int)
    requires blockLen > 0 && factor > 0
    ensures forall i :: 0 <= i < |offs| ==> BucketOf(offs[i], blockLen, factor) <= MaxBucket(offs, blockLen, factor)
    ensures MaxBucket(offs, blockLen, factor) == 0
            || exists i :: 0 <= i < |offs| && BucketOf(offs[i], blockLen, factor) == MaxBucket(offs, blockLen, factor)
  {
    if offs != [] {
      var init := offs[..|offs| - 1];
      MaxBucketIsMax(init, blockLen, factor);
      assert forall i :: 0 <= i < |init| ==> init[i] == offs[i];
      if MaxBucket(init, blockLen, factor) != 0 && MaxBucket(offs, blockLen, factor) == MaxBucket(init, blockLen, factor) {
        var i :| 0 <= i < |init| && BucketOf(init[i], blockLen, factor) == MaxBucket(init, blockLen, factor);
        assert offs[i] == init[i];
      }
    }
  }

  /** Counting one more offset under its bucket key keeps the map equal, bucket
      by bucket, to the counts of the offsets seen so far. */
  lemma AddCount(refs: map<int, real>, offs: seq<nat>, o: nat, blockLen: int, factor: int)
    requires blockLen > 0 && factor > 0
    requires forall k: nat :: Lookup(refs, BucketOffset(k, blockLen, factor)) == BucketCount(offs, blockLen, factor, k) as real
    ensures var q := BucketOffset(BucketOf(o, blockLen, factor), blockLen, factor);
            forall k: nat :: Lookup(refs[q := Lookup(refs, q) + 1.0], BucketOffset(k, blockLen, factor))
                             == BucketCount(offs + [o], blockLen, factor, k) as real
  {
    var b := BucketOf(o, blockLen, factor);
    var q := BucketOffset(b, blockLen, factor);
    var refs' := refs[q := Lookup(refs, q) + 1.0];
    assert (offs + [o])[..|offs|] == offs;
    forall k: nat
      ensures Lookup(refs', BucketOffset(k, blockLen, factor)) == BucketCount(offs + [o], blockLen, factor, k) as real
    {
      if k < b {
        BucketOffsetStrictMono(k, b, blockLen, factor);
      } else if k > b {
        BucketOffsetStrictMono(b, k, blockLen, factor);
      }
    }
  }

  /** The running maximum `m` of bucket keys follows MaxBucket. */
  lemma MaxKeyStep(offs: seq<nat>, o: nat, blockLen: int, factor: int)
    requires blockLen > 0 && factor > 0
    ensures var m := BucketOffset(MaxBucket(offs, blockLen, factor), blockLen, factor);
            var q := BucketOffset(BucketOf(o, blockLen, factor), blockLen, factor);
            BucketOffset(MaxBucket(offs + [o], blockLen, factor), blockLen, factor) == (if q > m then q else m)
  {
    assert (offs + [o])[..|offs|] == offs;
    var a, b := MaxBucket(offs, blockLen, factor), BucketOf(o, blockLen, factor);
    if a < b {
      BucketOffsetStrictMono(a, b, blockLen, factor);
    } else if b < a {
      BucketOffsetStrictMono(b, a, blockLen, factor);
    }
  }

  /** The state of a reference-counting loop after it has visited `offs`: `m`
      is the offset of the highest bucket seen (0 before any) and `refs` holds
      every bucket's count under the bucket's offset. */
  ghost predicate Tallied(refs: map<int, real>, m: int, offs: seq<nat>, blockLen: int, factor: int)
    requires blockLen > 0 && factor > 0
  {
    && m == BucketOffset(MaxBucket(offs, blockLen, factor), blockLen, factor)
    && forall k: nat :: Lookup(refs, BucketOffset(k, blockLen, factor))
                        == BucketCount(offs, blockLen, factor, k) as real
  }

  /** The body of the counting loops: bucket the offset, raise the running
      maximum if its bucket lies higher, and count it. */
  method Tally(refs: map<int, real>, m: int, off: nat, ghost offs: seq<nat>, blockLen: int, factor: int)
    returns (refs': map<int, real>, m': int)
    requires blockLen > 0 && factor > 0
    requires Tallied(refs, m, offs, blockLen, factor)
    ensures Tallied(refs', m', offs + [off], blockLen, factor)
  {
    var q := BucketOffset(BucketOf(off, blockLen, factor), blockLen, factor);
    MaxKeyStep(offs, off, blockLen, factor);
    AddCount(refs, offs, off, blockLen, factor);
    m' := m;
    if q > m' {
      m' := q;
    }
    refs' := refs[q := Lookup(refs, q) + 1.0];
  }

  /** The closing `xrange(0, m+1, BLOCK_LEN*factor)` loop of both
      `pointers_to_references` once counting is done: one entry per bucket up
      to the highest one any offset fell in, each that bucket's count divided
      by the block length. */
  method EmitCounts(refs: map<int, real>, m: int, ghost offs: seq<nat>, blockLen: int, factor: int)
    returns (refcounts: seq<real>)
    requires blockLen > 0 && factor > 0
    requires Tallied(refs, m, offs, blockLen, factor)
    ensures |refcounts| == MaxBucket(offs, blockLen, factor) + 1
    ensures forall k :: 0 <= k < |refcounts| ==>
              refcounts[k] == BucketCount(offs, blockLen, factor, k) as real / blockLen as real
  {
    var top := MaxBucket(offs, blockLen, factor);
    MulSign(top, blockLen * factor);
    refcounts := EmitBuckets(refs, m, blockLen, factor);
    MulDiv(top, blockLen * factor);
  }

  /** The bucket counts of buckets 0 .. count-1, as reals. */
  function CountTotals(offs: seq<nat>, blockLen: int, factor: int, count: nat): (r: seq<real>)
    requires blockLen > 0 && factor > 0
    ensures |r| == count
  {
    if count == 0 then []
    else CountTotals(offs, blockLen, factor, count - 1) + [BucketCount(offs, blockLen, factor, count - 1) as real]
  }

  /** Number of offsets whose bucket is below `count`. */
  function CountBelow(offs: seq<nat>, blockLen: int, factor: int, count: nat): nat
    requires blockLen > 0 && factor > 0
  {
    if offs == [] then 0
    else CountBelow(offs[..|offs| - 1], blockLen, factor, count)
         + (if BucketOf(offs[|offs| - 1], blockLen, factor) < count then 1 else 0)
  }

  lemma {:induction false} CountBelowNext(offs: seq<nat>, blockLen: int, factor: int, count: nat)
    requires blockLen > 0 && factor > 0
    ensures CountBelow(offs, blockLen, factor, count + 1)
            == CountBelow(offs, blockLen, factor, count) + BucketCount(offs, blockLen, factor, count)
  {
    if offs != [] {
      CountBelowNext(offs[..|offs| - 1], blockLen, factor, count);
    }
  }

  lemma {:induction false} CountBelowAll(offs: seq<nat>, blockLen: int, factor: int)
    requires blockLen > 0 && factor > 0
    ensures CountBelow(offs, blockLen, factor, MaxBucket(offs, blockLen, factor) + 1) == |offs|
  {
    if offs != [] {
      var init := offs[..|offs| - 1];
      CountBelowAll(init, blockLen, factor);
      CountBelowMono(init, blockLen, factor, MaxBucket(init, blockLen, factor) + 1, MaxBucket(offs, blockLen, factor) + 1);
    }
  }

  lemma {:induction false} CountBelowMono(offs: seq<nat>, blockLen: int, factor: int, a: nat, b: nat)
    requires blockLen > 0 && factor > 0 && a <= b
    requires CountBelow(offs, blockLen, factor, a) == |offs|
    ensures CountBelow(offs, blockLen, factor, b) == |offs|
  {
    if offs != [] {
      var init := offs[..|offs| - 1];
      CountBelowBound(init, blockLen, factor, a);
      CountBelowMono(init, blockLen, factor, a, b);
    }
  }

  lemma {:induction false} CountBelowBound(offs: seq<nat>, blockLen: int, factor: int, count: nat)
    requires blockLen > 0 && factor > 0
    ensures CountBelow(offs, blockLen, factor, count) <= |offs|
  {
    if offs != [] {
      CountBelowBound(offs[..|offs| - 1], blockLen, factor, count);
    }
  }

  lemma {:induction false} CountTotalsSum(offs: seq<nat>, blockLen: int, factor: int, count: nat)
    requires blockLen > 0 && factor > 0
    ensures Sum(CountTotals(offs, blockLen, factor, count)) == CountBelow(offs, blockLen, factor, count) as real
  {
    if count > 0 {
      CountTotalsSum(offs, blockLen, factor, count - 1);
      CountBelowNext(offs, blockLen, factor, count - 1);
      var t := CountTotals(offs, blockLen, factor, count - 1);
      var x := BucketCount(offs, blockLen, factor, count - 1) as real;
      assert (t + [x])[..|t|] == t;
    } else {
      CountBelowZero(offs, blockLen, factor);
    }
  }

  lemma {:induction false} CountBelowZero(offs: seq<nat>, blockLen: int, factor: int)
    requires blockLen > 0 && factor > 0
    ensures CountBelow(offs, blockLen, factor, 0) == 0
  {
    if offs != [] {
      CountBelowZero(offs[..|offs| - 1], blockLen, factor);
    }
  }

  lemma {:induction false} CountTotalsAt(offs: seq<nat>, blockLen: int, factor: int, count: nat, k: nat)
    requires blockLen > 0 && factor > 0 && k < count
    ensures CountTotals(offs, blockLen, factor, count)[k] == BucketCount(offs, blockLen, factor, k) as real
  {
    if k < count - 1 {
      CountTotalsAt(offs, blockLen, factor, count - 1, k);
    }
  }

  /** Reference counting conserves the number of offsets: the outputs times the
      block length add up to the number of offsets counted, each offset landing
      in exactly one emitted bucket. */
  lemma CountsConserve(offs: seq<nat>, blockLen: int, factor: int, refcounts: seq<real>)
    requires blockLen > 0 && factor > 0
    requires |refcounts| == MaxBucket(offs, blockLen, factor) + 1
    requires forall k :: 0 <= k < |refcounts| ==>
               refcounts[k] == BucketCount(offs, blockLen, factor, k) as real / blockLen as real
    ensures Sum(refcounts) * blockLen as real == |offs| as real
  {
    var totals := CountTotals(offs, blockLen, factor, |refcounts|);
    forall k | 0 <= k < |refcounts|
      ensures refcounts[k] == totals[k] / blockLen as real
    {
      CountTotalsAt(offs, blockLen, factor, |refcounts|, k);
    }
    ScaledBack(totals, blockLen, refcounts);
    CountTotalsSum(offs, blockLen, factor, |refcounts|);
    CountBelowAll(offs, blockLen, factor);
  }
}
