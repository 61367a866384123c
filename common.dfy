/** Shared vocabulary: Python's failure modes, optional values, real sums and
    the integer-division facts the bucket and downsampling proofs lean on. */
module Common {

  /** The Python exceptions the modelled code can raise on unusual input. */
  datatype PyError = IndexError | ValueError | ZeroDivisionError

  datatype Option<+T> = None | Some(value: T)

  datatype Result<+T> = Ok(value: T) | Err(error: PyError)

  /** Sum of a series of reals, accumulated from the front as Python's `sum` does. */
  function Sum(s: seq<real>): real
  {
    if s == [] then 0.0 else Sum(s[..|s| - 1]) + s[|s| - 1]
  }

  lemma {:induction false} SumAppend(s: seq<real>, t: seq<real>)
    ensures Sum(s + t) == Sum(s) + Sum(t)
    decreases |t|
  {
    if t == [] {
      assert s + t == s;
    } else {
      var t' := t[..|t| - 1];
      assert (s + t)[..|s + t| - 1] == s + t';
      SumAppend(s, t');
    }
  }

  /** Extending a slice by one element adds that element to its sum. */
  lemma SumSliceStep(s: seq<real>, lo: int, hi: int)
    requires 0 <= lo < hi <= |s|
    ensures Sum(s[lo..hi]) == Sum(s[lo..hi - 1]) + s[hi - 1]
  {
    assert s[lo..hi][..hi - 1 - lo] == s[lo..hi - 1];
  }

  /** Slicing a series at `mid` splits its sum. */
  lemma SumSplit(s: seq<real>, lo: int, mid: int, hi: int)
    requires 0 <= lo <= mid <= hi <= |s|
    ensures Sum(s[lo..hi]) == Sum(s[lo..mid]) + Sum(s[mid..hi])
  {
    assert s[lo..hi] == s[lo..mid] + s[mid..hi];
    SumAppend(s[lo..mid], s[mid..hi]);
  }

  /** Dividing every element by a positive constant divides the sum by it. */
  lemma {:induction false} SumScaled(s: seq<real>, t: seq<real>, d: real)
    requires d > 0.0 && |s| == |t|
    requires forall i :: 0 <= i < |s| ==> t[i] == s[i] / d
    ensures Sum(t) * d == Sum(s)
    decreases |s|
  {
    if s != [] {
      SumScaled(s[..|s| - 1], t[..|t| - 1], d);
      assert t[|t| - 1] * d == s[|s| - 1];
    }
  }

  /** Euclidean division is pinned down by the bracket the quotient lies in. */
  lemma DivIs(a: int, d: int, q: int)
    requires d > 0 && q * d <= a < q * d + d
    ensures a / d == q && a % d == a - q * d
  {
    var r := a - q * d;
    assert a == q * d + r && 0 <= r < d;
    var q', r' := a / d, a % d;
    assert a == q' * d + r' && 0 <= r' < d;
    assert (q' - q) * d == r - r';
    MulSign(q' - q, d);
  }

  /** A nonzero multiple of a positive number is at least that number away from zero. */
  lemma MulSign(x: int, d: int)
    requires d > 0
    ensures x >= 1 ==> x * d >= d
    ensures x <= -1 ==> x * d <= -d
  {
    assert x * d - d == (x - 1) * d;
    assert x * d + d == (x + 1) * d;
  }

  /** Multiplying by a positive constant is strictly monotonic. */
  lemma MulStrictMono(a: int, b: int, d: int)
    requires d > 0 && a < b
    ensures a * d < b * d
  {
    assert b * d - a * d == (b - a) * d;
  }

  /** Dividing by a positive constant is monotonic. */
  lemma DivMono(a: int, b: int, d: int)
    requires d > 0 && a <= b
    ensures a / d <= b / d
  {
    assert a == (a / d) * d + a % d && b == (b / d) * d + b % d;
    assert (a / d - b / d) * d == (a - b) + (b % d - a % d);
    MulSign(a / d - b / d, d);
  }

  /** Exact division of a multiple. */
  lemma MulDiv(k: int, d: int)
    requires d > 0
    ensures (k * d) / d == k
  {
    DivIs(k * d, d, k);
  }

  /** Nested floor division by two positive divisors is floor division by their product. */
  lemma DivDiv(a: nat, b: int, c: int)
    requires b > 0 && c > 0
    ensures a / b / c == a / (b * c)
  {
    var q1, r1 := a / b, a % b;
    var q2, r2 := q1 / c, q1 % c;
    assert a == q1 * b + r1;
    assert q1 == q2 * c + r2;
    assert q1 * b == q2 * (b * c) + r2 * b by {
      DistributeMul(q2 * c, r2, b);
      assert (q2 * c) * b == q2 * (b * c);
    }
    MulSign(c - r2, b);
    assert (c - r2) * b == c * b - r2 * b;
    DivIs(a, b * c, q2);
  }

  lemma DistributeMul(x: int, y: int, z: int)
    ensures (x + y) * z == x * z + y * z
  {
  }

  lemma MulAssoc(x: int, y: int, z: int)
    ensures x * (y * z) == (x * y) * z
  {
  }

  /** A real quotient is pinned down by its product with the divisor. */
  lemma QuotientIs(x: real, t: real, d: real)
    requires d != 0.0 && x * d == t
    ensures x == t / d
  {
  }

  lemma RatioOne(d: int)
    requires d > 0
    ensures d as real / d as real == 1.0
  {
  }
}
