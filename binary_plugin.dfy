/** The raw-binary plugin's reference aggregation: without a container format
    there is no address translation, so every candidate is bucketed by its own
    in-block offset field and none is dropped. */
module BinaryPlugin {
  import opened Common
  import opened Buckets

  /** The `off` field of every candidate, in visiting order; `ptr` plays no part. */
  function RawOffsets(cands: seq<Candidate>): (offs: seq<nat>)
    ensures |offs| == |cands|
    ensures forall i :: 0 <= i < |cands| ==> offs[i] == cands[i].off
  {
    if cands == [] then [] else RawOffsets(cands[..|cands| - 1]) + [cands[|cands| - 1].off]
  }

  lemma RawOffsetsAppend(a: seq<Candidate>, b: seq<Candidate>)
    ensures RawOffsets(a + b) == RawOffsets(a) + RawOffsets(b)
  {
  }

  /** The offsets of the first i+1 blocks are those of the first i followed by block i's. */
  lemma RawOffsetsFlattenStep(pointers: seq<seq<Candidate>>, i: nat)
    requires i < |pointers|
    ensures RawOffsets(Flatten(pointers[..i + 1])) == RawOffsets(Flatten(pointers[..i])) + RawOffsets(pointers[i])
  {
    FlattenStep(pointers, i);
    RawOffsetsAppend(Flatten(pointers[..i]), pointers[i]);
  }

  lemma RawOffsetsStep(seen: seq<nat>, temp: seq<Candidate>, j: nat)
    requires j < |temp|
    ensures seen + RawOffsets(temp[..j + 1]) == (seen + RawOffsets(temp[..j])) + [temp[j].off]
  {
    assert temp[..j + 1] == temp[..j] + [temp[j]];
    RawOffsetsAppend(temp[..j], [temp[j]]);
  }

  /** The inner `for off, ptr in temp` loop: counts every candidate of one block. */
  method TallyBlock(refs: map<int, real>, m: int, temp: seq<Candidate>, ghost seen: seq<nat>, factor: int, blockLen: int)
    returns (refs': map<int, real>, m': int)
    requires blockLen > 0 && factor > 0
    requires Tallied(refs, m, seen, blockLen, factor)
    ensures Tallied(refs', m', seen + RawOffsets(temp), blockLen, factor)
  {
    refs', m' := refs, m;
    var j := 0;
    assert seen + RawOffsets(temp[..j]) == seen;
    while j < |temp|
      invariant 0 <= j <= |temp|
      invariant Tallied(refs', m', seen + RawOffsets(temp[..j]), blockLen, factor)
    {
      RawOffsetsStep(seen, temp, j);
      refs', m' := Tally(refs', m', temp[j].off, seen + RawOffsets(temp[..j]), blockLen, factor);
      j := j + 1;
    }
    assert temp[..j] == temp;
  }

  /** `pointers_to_references` of the binary plugin: counts the candidates per
      bucket of their `off` field and emits the gap-free bucket list, each
      count divided by the block length. */
  method PointersToReferences(pointers: seq<seq<Candidate>>, factor: int, blockLen: int) returns (refcounts: seq<real>)
    requires blockLen > 0 && factor > 0
    ensures var offs := RawOffsets(Flatten(pointers));
            |refcounts| == MaxBucket(offs, blockLen, factor) + 1 &&
            forall k :: 0 <= k < |refcounts| ==>
              refcounts[k] == BucketCount(offs, blockLen, factor, k) as real / blockLen as real
  {
    var refs: map<int, real> := map[];
    var m := 0;
    var i := 0;
    while i < |pointers|
      invariant 0 <= i <= |pointers|
      invariant Tallied(refs, m, RawOffsets(Flatten(pointers[..i])), blockLen, factor)
    {
      RawOffsetsFlattenStep(pointers, i);
      refs, m := TallyBlock(refs, m, pointers[i], RawOffsets(Flatten(pointers[..i])), factor, blockLen);
      i := i + 1;
    }
    assert pointers[..i] == pointers;
    refcounts := EmitCounts(refs, m, RawOffsets(Flatten(pointers)), blockLen, factor);
  }

  /** No candidate is dropped: the outputs times the block length add up to
      the number of candidates in all blocks. */
  lemma ReferencesCountEveryCandidate(pointers: seq<seq<Candidate>>, factor: int, blockLen: int, refcounts: seq<real>)
    requires blockLen > 0 && factor > 0
    requires var offs := RawOffsets(Flatten(pointers));
             |refcounts| == MaxBucket(offs, blockLen, factor) + 1 &&
             forall k :: 0 <= k < |refcounts| ==>
               refcounts[k] == BucketCount(offs, blockLen, factor, k) as real / blockLen as real
    ensures Sum(refcounts) * blockLen as real == |Flatten(pointers)| as real
  {
    CountsConserve(RawOffsets(Flatten(pointers)), blockLen, factor, refcounts);
  }
}
