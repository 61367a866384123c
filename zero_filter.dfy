/** `filter_zero`: pairs an axis with its data, drops the pairs whose value
    is zero, and transposes the survivors back into two columns. */
module ZeroFilter {
  import opened Common

  /** `izip(axis, data)`: pairs up to the shorter of the two. */
  function Zip<A>(axis: seq<A>, data: seq<real>): (r: seq<(A, real)>)
    ensures |r| == (if |axis| <= |data| then |axis| else |data|)
  {
    var n := if |axis| <= |data| then |axis| else |data|;
    seq(n, i requires 0 <= i < n => (axis[i], data[i]))
  }

  /** `ifilter(lambda x: x[1] != 0.0, pairs)`. */
  function NonZero<A>(pairs: seq<(A, real)>): seq<(A, real)>
  {
    if pairs == [] then []
    else (if pairs[0].1 != 0.0 then [pairs[0]] else []) + NonZero(pairs[1..])
  }

  /** `zip(*pairs)`: no pairs transpose to an empty list, otherwise to the
      column of first and the column of second components. */
  function Unzip<A>(pairs: seq<(A, real)>): Option<(seq<A>, seq<real>)>
  {
    if pairs == [] then None
    else Some((seq(|pairs|, k requires 0 <= k < |pairs| => pairs[k].0),
               seq(|pairs|, k requires 0 <= k < |pairs| => pairs[k].1)))
  }

  function FilterZero<A>(axis: seq<A>, data: seq<real>): Option<(seq<A>, seq<real>)>
  {
    Unzip(NonZero(Zip(axis, data)))
  }

  predicate Increasing(idx: seq<nat>)
  {
    forall a, b :: 0 <= a < b < |idx| ==> idx[a] < idx[b]
  }

  lemma {:induction false} NonZeroAppend<A>(p: seq<(A, real)>, q: seq<(A, real)>)
    ensures NonZero(p + q) == NonZero(p) + NonZero(q)
  {
    if p == [] {
      assert p + q == q;
    } else {
      assert (p + q)[1..] == p[1..] + q;
      NonZeroAppend(p[1..], q);
    }
  }

  /** The filter keeps, in order, exactly the pairs with a nonzero value:
      over the first n pairs it is the pairs at an increasing run of indices
      that holds every index of a nonzero value and only those. */
  lemma {:induction false} NonZeroIndices<A>(pairs: seq<(A, real)>, n: nat) returns (idx: seq<nat>)
    requires n <= |pairs|
    ensures Increasing(idx)
    ensures forall k :: 0 <= k < |idx| ==> idx[k] < n && pairs[idx[k]].1 != 0.0
    ensures forall i :: 0 <= i < n && pairs[i].1 != 0.0 ==> i in idx
    ensures |NonZero(pairs[..n])| == |idx|
    ensures forall k :: 0 <= k < |idx| ==> NonZero(pairs[..n])[k] == pairs[idx[k]]
  {
    if n == 0 {
      idx := [];
    } else {
      var prev := NonZeroIndices(pairs, n - 1);
      var last := pairs[n - 1];
      assert pairs[..n] == pairs[..n - 1] + [last];
      NonZeroAppend(pairs[..n - 1], [last]);
      assert [last][1..] == [];
      if last.1 != 0.0 {
        assert NonZero([last]) == [last];
        idx := prev + [n - 1];
      } else {
        assert NonZero([last]) == [];
        idx := prev;
      }
    }
  }

  /** `filter_zero` returns an empty list exactly when no value below the
      shorter length is nonzero; otherwise its two columns hold, in order,
      the axis point and value at every index below the shorter length whose
      value is nonzero, and at no other index. */
  lemma FilterZeroKeeps<A>(axis: seq<A>, data: seq<real>) returns (idx: seq<nat>)
    ensures Increasing(idx)
    ensures forall k :: 0 <= k < |idx| ==> idx[k] < |axis| && idx[k] < |data| && data[idx[k]] != 0.0
    ensures forall i :: 0 <= i < |axis| && i < |data| && data[i] != 0.0 ==> i in idx
    ensures FilterZero(axis, data).None? <==> idx == []
    ensures FilterZero(axis, data).Some? ==>
              var (xs, ys) := FilterZero(axis, data).value;
              && |xs| == |idx| && |ys| == |idx|
              && forall k :: 0 <= k < |idx| ==> xs[k] == axis[idx[k]] && ys[k] == data[idx[k]]
  {
    var pairs := Zip(axis, data);
    idx := NonZeroIndices(pairs, |pairs|);
    assert pairs[..|pairs|] == pairs;
  }
}
