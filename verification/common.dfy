/**
 * Values shared by the graph-distance and metric modules: the error path of a
 * Python call (an exception), IEEE infinity and NaN where the source produces
 * them, and a few facts about sets and absolute values.
 */
module Common {

  datatype Option<T> = None | Some(value: T)

  /** The exceptions the modelled code raises. */
  datatype Error =
    | ValueError(message: string)
    | ZeroDivisionError

  datatype Result<T> = Ok(value: T) | Err(error: Error)

  /** A float that may be `inf` (`np.inf`, `float('inf')`). */
  datatype Ext = Finite(r: real) | Inf

  /** A float that may be NaN (`np.nan`). */
  datatype Float = Num(x: real) | NaN

  function Abs(x: real): (r: real)
    ensures r >= 0.0 && (r == x || r == -x)
  {
    if x < 0.0 then -x else x
  }

  function Max(a: int, b: int): (r: int)
    ensures r >= a && r >= b && (r == a || r == b)
  {
    if a >= b then a else b
  }

  /** |a - b| never exceeds |a| + |b|. */
  lemma AbsDiffLeSum(a: real, b: real)
    ensures Abs(a - b) <= Abs(a) + Abs(b)
    ensures Abs(a - b) == Abs(b - a)
  {
  }

  /** 0 <= x <= d with d > 0 gives 0 <= x / d <= 1. */
  lemma QuotientInUnit(x: real, d: real)
    requires 0.0 <= x <= d && d > 0.0
    ensures 0.0 <= x / d <= 1.0
  {
    assert x / d * d == x;
  }

  /**
   * The ratio c / u of 0 <= c <= u, u > 0: a number in [0, 1] that is 1
   * exactly when c == u and 0 exactly when c == 0.
   */
  lemma Ratio(c: real, u: real)
    requires 0.0 <= c <= u && u > 0.0
    ensures 0.0 <= c / u <= 1.0
    ensures c / u * u == c
    ensures c / u == 1.0 <==> c == u
    ensures c / u == 0.0 <==> c == 0.0
  {
    QuotientInUnit(c, u);
  }

  /**
   * Twice the size of an intersection is at most the sum of the sizes, with
   * equality exactly when the two sets are equal.
   */
  lemma IntersectionBound<T>(a: set<T>, b: set<T>)
    ensures 2 * |a * b| <= |a| + |b|
    ensures 2 * |a * b| == |a| + |b| <==> a == b
  {
    assert |a| == |a - b| + |a * b|;
    assert |b| == |b - a| + |a * b|;
    if 2 * |a * b| == |a| + |b| {
      assert |a - b| == 0 && |b - a| == 0;
      assert a - b == {} && b - a == {};
      assert a == b;
    }
  }

  /**
   * An intersection is never larger than the union, and the two have the
   * same size exactly when the sets are equal.
   */
  lemma IntersectionUnionBound<T>(a: set<T>, b: set<T>)
    ensures |a * b| <= |a + b|
    ensures |a * b| == |a + b| <==> a == b
  {
    assert |a + b| == |a - b| + |b - a| + |a * b|;
    if |a * b| == |a + b| {
      assert a - b == {} && b - a == {};
      assert a == b;
    }
  }

  /** Extending a prefix of `target` by its next element gives the next prefix. */
  lemma PrefixStep<T>(target: seq<T>, prefix: seq<T>, i: nat, x: T)
    requires i < |target| && prefix == target[..i] && x == target[i]
    ensures prefix + [x] == target[..i + 1]
  {
  }
}
