/** The cosine score of two embeddings, over the reals. */
module CosineSimilarity {
  type Vector = seq<real>

  function Dot(a: Vector, b: Vector): real
    requires |a| == |b|
  {
    if a == [] then 0.0 else
      var n := |a| - 1;
      Dot(a[..n], b[..n]) + a[n] * b[n]
  }

  /** `x` is the quotient of the accumulators: the dot product over the root of the product of
      the magnitudes, which is what `Math.sqrt` stands for. */
  predicate Quotient(x: real, d: real, l: real, r: real, root: real) {
    root > 0.0 && root * root == l * r && x == d / root
  }

  ghost predicate IsQuotient(x: real, d: real, l: real, r: real) {
    exists root :: Quotient(x, d, l, r, root)
  }

  ghost predicate IsCosine(x: real, a: Vector, b: Vector) {
    |a| == |b| && IsQuotient(x, Dot(a, b), Dot(a, a), Dot(b, b))
  }

  /** The vectors have a direction to compare. */
  predicate Comparable(a: Vector, b: Vector) {
    a != [] && |a| == |b| && Dot(a, a) != 0.0 && Dot(b, b) != 0.0
  }

  /** The score of two vectors: their cosine, or 0 when there is nothing to compare. */
  ghost predicate ScoreIs(x: real, a: Vector, b: Vector) {
    if Comparable(a, b) then IsCosine(x, a, b) else x == 0.0
  }

  // ---- the inequality the accumulators keep ----

  lemma SquareNonNegative(x: real)
    ensures x * x >= 0.0
  {
    if x < 0.0 {
      assert x * x == (-x) * (-x);
    }
  }

  lemma ProductNonNegative(x: real, y: real)
    requires x >= 0.0 && y >= 0.0
    ensures x * y >= 0.0
  {}

  lemma Monotone(x: real, y: real, c: real)
    requires x <= y && c >= 0.0
    ensures x * c <= y * c
  {
    ProductNonNegative(y - x, c);
    assert (y - x) * c == y * c - x * c;
  }

  /** Comparing squares of which the larger is that of a non-negative number. */
  lemma RootsCompare(p: real, q: real)
    requires q * q <= p * p && p >= 0.0
    ensures q <= p
  {
    if q > p {
      ProductNonNegative(p, q - p);
      assert q * q == p * p + 2.0 * (p * (q - p)) + (q - p) * (q - p);
      StrictSquare(q - p);
    }
  }

  lemma StrictSquare(x: real)
    requires x > 0.0
    ensures x * x > 0.0
  {}

  lemma MeanBound(u: real, v: real)
    ensures 4.0 * (u * v) <= (u + v) * (u + v)
  {
    SquareNonNegative(u - v);
    assert (u - v) * (u - v) == u * u - 2.0 * (u * v) + v * v;
    assert (u + v) * (u + v) == u * u + 2.0 * (u * v) + v * v;
  }

  lemma CrossTerm(d: real, l: real, r: real, x: real, y: real)
    requires d * d <= l * r && l >= 0.0 && r >= 0.0
    ensures 2.0 * (d * (x * y)) <= l * (y * y) + r * (x * x)
  {
    var u, v, q := l * (y * y), r * (x * x), 2.0 * (d * (x * y));
    SquareNonNegative(x);
    SquareNonNegative(y);
    SquareNonNegative(x * y);
    ProductNonNegative(l, y * y);
    ProductNonNegative(r, x * x);
    Rearranged(d, l, r, x, y);
    Monotone(d * d, l * r, (x * y) * (x * y));
    MeanBound(u, v);
    RootsCompare(u + v, q);
  }

  lemma Rearranged(d: real, l: real, r: real, x: real, y: real)
    ensures (2.0 * (d * (x * y))) * (2.0 * (d * (x * y))) == 4.0 * ((d * d) * ((x * y) * (x * y)))
    ensures (l * (y * y)) * (r * (x * x)) == (l * r) * ((x * y) * (x * y))
  {
    var z := x * y;
    assert (2.0 * (d * z)) * (2.0 * (d * z)) == 4.0 * ((d * z) * (d * z));
    assert (d * z) * (d * z) == (d * d) * (z * z);
    var s, t := x * x, y * y;
    assert (l * t) * (r * s) == (l * r) * (t * s);
    assert t * s == z * z;
  }

  /** One turn of the loop keeps the accumulators' inequality. */
  lemma StepKeepsBound(d: real, l: real, r: real, x: real, y: real)
    requires d * d <= l * r && l >= 0.0 && r >= 0.0
    ensures (d + x * y) * (d + x * y) <= (l + x * x) * (r + y * y)
  {
    CrossTerm(d, l, r, x, y);
    var z, s, t := x * y, x * x, y * y;
    assert (d + z) * (d + z) == d * d + 2.0 * (d * z) + z * z;
    assert (l + s) * (r + t) == l * r + l * t + s * r + s * t;
    assert s * t == z * z;
    assert s * r == r * s;
  }

  predicate Bounded(d: real, l: real, r: real) {
    l >= 0.0 && r >= 0.0 && d * d <= l * r
  }

  lemma TurnKeepsBound(d: real, l: real, r: real, x: real, y: real, d': real, l': real, r': real)
    requires Bounded(d, l, r) && d' == d + x * y && l' == l + x * x && r' == r + y * y
    ensures Bounded(d', l', r')
  {
    SquareNonNegative(x);
    SquareNonNegative(y);
    StepKeepsBound(d, l, r, x, y);
  }

  lemma {:induction false} CauchySchwarz(a: Vector, b: Vector)
    requires |a| == |b|
    ensures Dot(a, a) >= 0.0 && Dot(b, b) >= 0.0
    ensures Dot(a, b) * Dot(a, b) <= Dot(a, a) * Dot(b, b)
  {
    if a != [] {
      var n := |a| - 1;
      CauchySchwarz(a[..n], b[..n]);
      SquareNonNegative(a[n]);
      SquareNonNegative(b[n]);
      StepKeepsBound(Dot(a[..n], b[..n]), Dot(a[..n], a[..n]), Dot(b[..n], b[..n]), a[n], b[n]);
    }
  }

  /** So the quotient lies between -1 and 1 without any clamping. */
  lemma QuotientIsBounded(x: real, d: real, l: real, r: real, root: real)
    requires Quotient(x, d, l, r, root) && d * d <= l * r
    ensures -1.0 <= x <= 1.0
  {
    RootsCompare(root, d);
    assert (-d) * (-d) == d * d;
    RootsCompare(root, -d);
  }

  lemma DotSnoc(a: Vector, b: Vector, i: nat)
    requires i < |a| == |b|
    ensures Dot(a[..i + 1], b[..i + 1]) == Dot(a[..i], b[..i]) + a[i] * b[i]
  {
    assert a[..i + 1][..i] == a[..i] && b[..i + 1][..i] == b[..i];
  }

  method Accumulate(left: Vector, right: Vector) returns (dot: real, leftMagnitude: real, rightMagnitude: real)
    requires |left| == |right|
    ensures dot == Dot(left, right) && leftMagnitude == Dot(left, left) && rightMagnitude == Dot(right, right)
    ensures Bounded(dot, leftMagnitude, rightMagnitude)
  {
    dot, leftMagnitude, rightMagnitude := 0.0, 0.0, 0.0;
    var index := 0;
    while index < |left|
      invariant 0 <= index <= |left|
      invariant dot == Dot(left[..index], right[..index])
      invariant leftMagnitude == Dot(left[..index], left[..index])
      invariant rightMagnitude == Dot(right[..index], right[..index])
      invariant Bounded(dot, leftMagnitude, rightMagnitude)
    {
      var leftValue, rightValue := left[index], right[index];
      ghost var d, l, r := dot, leftMagnitude, rightMagnitude;
      DotSnoc(left, right, index);
      DotSnoc(left, left, index);
      DotSnoc(right, right, index);
      dot := dot + leftValue * rightValue;
      leftMagnitude := leftMagnitude + leftValue * leftValue;
      rightMagnitude := rightMagnitude + rightValue * rightValue;
      TurnKeepsBound(d, l, r, leftValue, rightValue, dot, leftMagnitude, rightMagnitude);
      index := index + 1;
    }
    assert left[..index] == left && right[..index] == right;
  }

  /** `root` is the square root the program takes of the product of the two magnitudes. The last
      two tests, the clamp, never change the score. */
  method Score(left: Vector, right: Vector, root: real) returns (score: real)
    requires |left| == |right| ==> root >= 0.0 && root * root == Dot(left, left) * Dot(right, right)
    ensures ScoreIs(score, left, right) && -1.0 <= score <= 1.0
  {
    if |left| == 0 || |left| != |right| {
      return 0.0;
    }
    var dot, leftMagnitude, rightMagnitude := Accumulate(left, right);
    if leftMagnitude == 0.0 || rightMagnitude == 0.0 {
      return 0.0;
    }
    RootIsPositive(root, leftMagnitude, rightMagnitude);
    score := dot / root;
    assert Quotient(score, dot, leftMagnitude, rightMagnitude, root);
    QuotientIsBounded(score, dot, leftMagnitude, rightMagnitude, root);
    if score > 1.0 {
      score := 1.0;
    }
    if score < -1.0 {
      score := -1.0;
    }
  }

  lemma RootIsPositive(root: real, l: real, r: real)
    requires root >= 0.0 && root * root == l * r && l > 0.0 && r > 0.0
    ensures root > 0.0
  {}

  // ---- symmetry and scaling ----

  lemma {:induction false} DotIsSymmetric(a: Vector, b: Vector)
    requires |a| == |b|
    ensures Dot(a, b) == Dot(b, a)
  {
    if a != [] {
      DotIsSymmetric(a[..|a| - 1], b[..|b| - 1]);
    }
  }

  function Scale(c: real, a: Vector): (r: Vector)
    ensures |r| == |a| && forall k :: 0 <= k < |a| ==> r[k] == c * a[k]
  {
    seq(|a|, k requires 0 <= k < |a| => c * a[k])
  }

  lemma ScalePrefix(c: real, a: Vector, n: nat)
    requires n <= |a|
    ensures Scale(c, a)[..n] == Scale(c, a[..n])
  {
    var whole, part := Scale(c, a)[..n], Scale(c, a[..n]);
    forall k | 0 <= k < n ensures whole[k] == part[k] {
      assert a[..n][k] == a[k];
    }
  }

  lemma {:induction false} DotScales(c: real, a: Vector, b: Vector)
    requires |a| == |b|
    ensures Dot(Scale(c, a), b) == c * Dot(a, b)
  {
    if a != [] {
      var n := |a| - 1;
      DotScales(c, a[..n], b[..n]);
      ScalePrefix(c, a, n);
      Distribute(c, Dot(a[..n], b[..n]), a[n], b[n]);
    }
  }

  lemma Distribute(c: real, d: real, x: real, y: real)
    ensures c * d + (c * x) * y == c * (d + x * y)
  {
    assert (c * x) * y == c * (x * y);
  }

  lemma RootsAreUnique(p: real, q: real)
    requires p >= 0.0 && q >= 0.0 && p * p == q * q
    ensures p == q
  {
    RootsCompare(p, q);
    RootsCompare(q, p);
  }

  /** There is at most one quotient, so the score is determined by the vectors. */
  lemma QuotientIsUnique(x: real, y: real, d: real, l: real, r: real)
    requires IsQuotient(x, d, l, r) && IsQuotient(y, d, l, r)
    ensures x == y
  {
    var p :| Quotient(x, d, l, r, p);
    var q :| Quotient(y, d, l, r, q);
    RootsAreUnique(p, q);
  }

  lemma SwappedQuotient(x: real, d: real, l: real, r: real)
    requires IsQuotient(x, d, l, r)
    ensures IsQuotient(x, d, r, l)
  {
    var root :| Quotient(x, d, l, r, root);
    assert Quotient(x, d, r, l, root);
  }

  lemma CosineIsSymmetric(a: Vector, b: Vector, x: real)
    requires IsCosine(x, a, b)
    ensures IsCosine(x, b, a)
  {
    DotIsSymmetric(a, b);
    SwappedQuotient(x, Dot(a, b), Dot(a, a), Dot(b, b));
  }

  /** So two vectors, comparable or not, have at most one score. */
  lemma ScoreIsUnique(a: Vector, b: Vector, x: real, y: real)
    requires ScoreIs(x, a, b) && ScoreIs(y, a, b)
    ensures x == y
  {
    if Comparable(a, b) {
      QuotientIsUnique(x, y, Dot(a, b), Dot(a, a), Dot(b, b));
    }
  }

  /** The score does not depend on the order of the vectors. */
  lemma Symmetric(a: Vector, b: Vector, x: real)
    requires ScoreIs(x, a, b)
    ensures ScoreIs(x, b, a)
  {
    if Comparable(a, b) {
      CosineIsSymmetric(a, b, x);
    }
  }

  lemma ProductPositive(x: real, y: real)
    requires x > 0.0 && y > 0.0
    ensures x * y > 0.0
  {}

  lemma CancelFactor(k: real, d: real, root: real)
    requires k > 0.0 && root > 0.0
    ensures k * root > 0.0 && (k * d) / (k * root) == d / root
  {
    ProductPositive(k, root);
    assert d == (d / root) * root;
    assert k * d == (d / root) * (k * root);
  }

  lemma ScaledSquare(c: real, l: real, r: real, root: real)
    requires root * root == l * r
    ensures (c * root) * (c * root) == (c * (c * l)) * r
  {
    assert (c * root) * (c * root) == c * (c * (root * root));
    assert (c * (c * l)) * r == c * (c * (l * r));
  }

  lemma ScaledQuotient(c: real, x: real, d: real, l: real, r: real, scaledD: real, scaledL: real)
    requires c > 0.0 && IsQuotient(x, d, l, r)
    requires scaledD == c * d && scaledL == c * (c * l)
    ensures IsQuotient(x, scaledD, scaledL, r)
  {
    var root :| Quotient(x, d, l, r, root);
    ScaledSquare(c, l, r, root);
    CancelFactor(c, d, root);
    assert Quotient(x, scaledD, scaledL, r, c * root);
  }

  lemma ScaledMagnitude(c: real, a: Vector)
    ensures Dot(Scale(c, a), Scale(c, a)) == c * (c * Dot(a, a))
  {
    DotScales(c, a, Scale(c, a));
    DotIsSymmetric(a, Scale(c, a));
    DotScales(c, a, a);
  }

  lemma CosineOfScaled(c: real, a: Vector, b: Vector, x: real)
    requires c > 0.0 && IsCosine(x, a, b)
    ensures IsCosine(x, Scale(c, a), b)
  {
    DotScales(c, a, b);
    ScaledMagnitude(c, a);
    ScaledQuotient(c, x, Dot(a, b), Dot(a, a), Dot(b, b), Dot(Scale(c, a), b), Dot(Scale(c, a), Scale(c, a)));
  }

  lemma PositiveScaled(c: real, x: real, scaled: real)
    requires c > 0.0 && x > 0.0 && scaled == c * (c * x)
    ensures scaled > 0.0
  {
    ProductPositive(c, x);
    ProductPositive(c, c * x);
  }

  lemma NonZeroScaled(c: real, x: real, scaled: real)
    requires c > 0.0 && scaled == c * (c * x)
    ensures scaled != 0.0 <==> x != 0.0
  {
    if x > 0.0 {
      PositiveScaled(c, x, scaled);
    } else if x < 0.0 {
      assert c * (c * -x) == -scaled;
      PositiveScaled(c, -x, -scaled);
    }
  }

  lemma ScaledIsComparable(c: real, a: Vector, b: Vector)
    requires c > 0.0
    ensures Comparable(Scale(c, a), b) <==> Comparable(a, b)
  {
    ScaledMagnitude(c, a);
    NonZeroScaled(c, Dot(a, a), Dot(Scale(c, a), Scale(c, a)));
  }

  lemma ScalingTheFirst(c: real, a: Vector, b: Vector, x: real)
    requires c > 0.0 && ScoreIs(x, a, b)
    ensures ScoreIs(x, Scale(c, a), b)
  {
    ScaledIsComparable(c, a, b);
    if Comparable(a, b) {
      CosineOfScaled(c, a, b, x);
    }
  }

  /** Nor does it change when the vectors are scaled by positive factors. */
  lemma ScalingKeepsTheScore(c: real, a: Vector, e: real, b: Vector, x: real)
    requires c > 0.0 && e > 0.0 && ScoreIs(x, a, b)
    ensures ScoreIs(x, Scale(c, a), Scale(e, b))
  {
    ScalingTheFirst(c, a, b, x);
    Symmetric(Scale(c, a), b, x);
    ScalingTheFirst(e, b, Scale(c, a), x);
    Symmetric(Scale(e, b), Scale(c, a), x);
  }
}
