/** Row-by-row Gram-Schmidt as the camera code does it, with its length threshold. */
module GramSchmidt {
  import opened Matrix

  /** The C library's real functions, exact. Angles are in radians. */
  datatype Libm = Libm(sqrt: real -> real, cos: real -> real, sin: real -> real)

  ghost predicate Exact(lib: Libm) {
    && (forall x {:trigger lib.sqrt(x)} :: x >= 0.0 ==> lib.sqrt(x) >= 0.0 && lib.sqrt(x) * lib.sqrt(x) == x)
    && (forall a {:trigger lib.cos(a)} {:trigger lib.sin(a)} ::
          lib.cos(a) * lib.cos(a) + lib.sin(a) * lib.sin(a) == 1.0)
    && lib.cos(0.0) == 1.0 && lib.sin(0.0) == 0.0
  }

  const EPSILON := 0.00000001

  function Norm(lib: Libm, v: V3): real {
    lib.sqrt(Dot(v, v))
  }

  function Normalize(lib: Libm, v: V3): V3 {
    var len := Norm(lib, v);
    if len > EPSILON then V3(v.x / len, v.y / len, v.z / len) else v
  }

  function Reject(v: V3, u: V3): V3 {
    Sub(v, Scale(Dot(v, u), u))
  }

  /** Row 1 before it is normalized. */
  function Residue1(lib: Libm, m: M3): V3 {
    Reject(m.r1, Normalize(lib, m.r0))
  }

  /** Row 2 before it is normalized: two rejections, one after the other. */
  function Residue2(lib: Libm, m: M3): V3 {
    Reject(Reject(m.r2, Normalize(lib, m.r0)), Normalize(lib, Residue1(lib, m)))
  }

  function Orthonormalize(lib: Libm, m: M3): M3 {
    M3(Normalize(lib, m.r0), Normalize(lib, Residue1(lib, m)), Normalize(lib, Residue2(lib, m)))
  }

  /** No row gets so short on the way that it is left as it is. */
  predicate NonDegenerate(lib: Libm, m: M3) {
    Norm(lib, m.r0) > EPSILON && Norm(lib, Residue1(lib, m)) > EPSILON && Norm(lib, Residue2(lib, m)) > EPSILON
  }

  lemma DotSelf(v: V3)
    ensures Dot(v, v) >= 0.0
  {
  }

  lemma Divide(a: real, len: real)
    requires len > 0.0
    ensures a == len * (a / len)
  {
  }

  /** A row longer than the threshold comes out with length one, in the same direction. */
  lemma NormalizeLong(lib: Libm, v: V3)
    requires Exact(lib) && Norm(lib, v) > EPSILON
    ensures v == Scale(Norm(lib, v), Normalize(lib, v))
    ensures Dot(Normalize(lib, v), Normalize(lib, v)) == 1.0
  {
    var len, u := Norm(lib, v), Normalize(lib, v);
    DotSelf(v);
    Divide(v.x, len);
    Divide(v.y, len);
    Divide(v.z, len);
    UnitLength(v, u, len);
  }

  lemma UnitLength(v: V3, u: V3, len: real)
    requires v == Scale(len, u) && len > 0.0 && len * len == Dot(v, v)
    ensures Dot(u, u) == 1.0
  {
    DotScale(len, u, v);
    DotScale(len, u, u);
    CancelTwice(len, Dot(u, v), Dot(u, u));
  }

  lemma CancelTwice(len: real, e: real, d: real)
    requires len > 0.0 && len * len == len * e && e == len * d
    ensures d == 1.0
  {
    RealCancels(len, len, e);
    RealCancels(len, 1.0, d);
  }

  lemma PositiveProduct(x: real, y: real)
    requires x > 0.0 && y > 0.0
    ensures x * y > 0.0
  {
  }

  lemma SquareGrows(a: real, b: real)
    requires 0.0 <= a < b
    ensures a * a < b * b
  {
    PositiveProduct(b - a, b + a);
    assert (b - a) * (b + a) == b * b - a * a;
  }

  /** A row no longer than the threshold does not have length one. */
  lemma NormalizeShort(lib: Libm, v: V3)
    requires Exact(lib) && Norm(lib, v) <= EPSILON
    ensures Normalize(lib, v) == v && Dot(v, v) != 1.0
  {
    DotSelf(v);
    var len := Norm(lib, v);
    if Dot(v, v) == 1.0 {
      SquareGrows(len, 1.0);
    }
  }

  lemma NormalizeUnit(lib: Libm, v: V3)
    requires Exact(lib) && Dot(v, v) == 1.0
    ensures Norm(lib, v) == 1.0 && Normalize(lib, v) == v
  {
    var len := Norm(lib, v);
    if len > 1.0 { SquareGrows(1.0, len); }
    if len < 1.0 { SquareGrows(len, 1.0); }
    OneDivides(v.x);
    OneDivides(v.y);
    OneDivides(v.z);
  }

  lemma OneDivides(a: real)
    ensures a / 1.0 == a
  {
  }

  lemma RejectOrthogonal(v: V3, u: V3)
    requires Dot(u, u) == 1.0
    ensures Dot(Reject(v, u), u) == 0.0
  {
    DotSub(v, Scale(Dot(v, u), u), u);
    DotScale(Dot(v, u), u, u);
  }

  lemma RejectKeepsOrthogonal(v: V3, u: V3, w: V3)
    requires Dot(v, w) == 0.0 && Dot(u, w) == 0.0
    ensures Dot(Reject(v, u), w) == 0.0
  {
    DotSub(v, Scale(Dot(v, u), u), w);
    DotScale(Dot(v, u), u, w);
  }

  lemma ShortenKeepsOrthogonal(k: real, v: V3, u: V3, w: V3)
    requires v == Scale(k, u) && k > 0.0 && Dot(v, w) == 0.0
    ensures Dot(u, w) == 0.0
  {
    DotScale(k, u, w);
    RealCancels(k, Dot(u, w), 0.0);
  }

  lemma NormalizeKeepsOrthogonal(lib: Libm, v: V3, w: V3)
    requires Exact(lib) && Norm(lib, v) > EPSILON && Dot(v, w) == 0.0
    ensures Dot(Normalize(lib, v), w) == 0.0
  {
    NormalizeLong(lib, v);
    ShortenKeepsOrthogonal(Norm(lib, v), v, Normalize(lib, v), w);
  }

  /** Gram-Schmidt delivers an orthonormal matrix exactly when no row degenerates. */
  lemma OrthonormalIffNonDegenerate(lib: Libm, m: M3)
    requires Exact(lib)
    ensures Orthonormal(Orthonormalize(lib, m)) <==> NonDegenerate(lib, m)
  {
    var q0, t1 := Normalize(lib, m.r0), Residue1(lib, m);
    var q1, t2 := Normalize(lib, t1), Residue2(lib, m);
    var q2 := Normalize(lib, t2);
    if Norm(lib, m.r0) <= EPSILON {
      NormalizeShort(lib, m.r0);
    } else if Norm(lib, t1) <= EPSILON {
      NormalizeShort(lib, t1);
    } else if Norm(lib, t2) <= EPSILON {
      NormalizeShort(lib, t2);
    } else {
      NormalizeLong(lib, m.r0);
      NormalizeLong(lib, t1);
      NormalizeLong(lib, t2);
      RejectOrthogonal(m.r1, q0);
      NormalizeKeepsOrthogonal(lib, t1, q0);
      var s := Reject(m.r2, q0);
      RejectOrthogonal(m.r2, q0);
      RejectOrthogonal(s, q1);
      RejectKeepsOrthogonal(s, q1, q0);
      NormalizeKeepsOrthogonal(lib, t2, q0);
      NormalizeKeepsOrthogonal(lib, t2, q1);
      DotSymmetric(q1, q0);
      DotSymmetric(q2, q0);
      DotSymmetric(q2, q1);
    }
  }

  /** The lower-triangular factor that turns the result back into the input. */
  function Factor(lib: Libm, m: M3): M3 {
    var q := Orthonormalize(lib, m);
    M3(V3(Norm(lib, m.r0), 0.0, 0.0),
       V3(Dot(m.r1, q.r0), Norm(lib, Residue1(lib, m)), 0.0),
       V3(Dot(m.r2, q.r0), Dot(Reject(m.r2, q.r0), q.r1), Norm(lib, Residue2(lib, m))))
  }

  ghost predicate LowerTriangularPositive(l: M3) {
    l.r0.y == 0.0 && l.r0.z == 0.0 && l.r1.z == 0.0 && l.r0.x > 0.0 && l.r1.y > 0.0 && l.r2.z > 0.0
  }

  lemma RejectRestores(v: V3, u: V3)
    ensures v == Add(Scale(Dot(v, u), u), Reject(v, u))
  {
  }

  lemma ApplyRows(v: V3, m: M3)
    ensures Apply(v, m) == Add(Add(Scale(v.x, m.r0), Scale(v.y, m.r1)), Scale(v.z, m.r2))
  {
  }

  lemma AddZero(v: V3, w: V3)
    ensures Add(v, Scale(0.0, w)) == v && Add(Scale(0.0, w), v) == v
  {
  }

  lemma AddAssoc(u: V3, v: V3, w: V3)
    ensures Add(Add(u, v), w) == Add(u, Add(v, w))
  {
  }

  /** M = L * Q with L lower triangular and positive on the diagonal. */
  lemma Factors(lib: Libm, m: M3)
    requires Exact(lib) && NonDegenerate(lib, m)
    ensures LowerTriangularPositive(Factor(lib, m))
    ensures Mul(Factor(lib, m), Orthonormalize(lib, m)) == m
  {
    var q, l := Orthonormalize(lib, m), Factor(lib, m);
    NormalizeLong(lib, m.r0);
    NormalizeLong(lib, Residue1(lib, m));
    NormalizeLong(lib, Residue2(lib, m));
    ApplyRows(l.r0, q);
    AddZero(Scale(l.r0.x, q.r0), q.r1);
    AddZero(Scale(l.r0.x, q.r0), q.r2);
    ApplyRows(l.r1, q);
    AddZero(Add(Scale(l.r1.x, q.r0), Scale(l.r1.y, q.r1)), q.r2);
    RejectRestores(m.r1, q.r0);
    ApplyRows(l.r2, q);
    var s := Reject(m.r2, q.r0);
    RejectRestores(m.r2, q.r0);
    RejectRestores(s, q.r1);
    AddAssoc(Scale(l.r2.x, q.r0), Scale(l.r2.y, q.r1), Scale(l.r2.z, q.r2));
  }

  lemma DetTriangular(l: M3)
    requires LowerTriangularPositive(l)
    ensures Det(l) == l.r0.x * l.r1.y * l.r2.z && Det(l) > 0.0
  {
    assert l.r0.x * l.r1.y > 0.0;
  }

  lemma SameSign(k: real, d: real)
    requires k > 0.0
    ensures (k * d > 0.0 <==> d > 0.0) && (k * d < 0.0 <==> d < 0.0)
  {
  }

  /** The sign of the determinant survives; its size is the product of the three row lengths. */
  lemma KeepsOrientation(lib: Libm, m: M3)
    requires Exact(lib) && NonDegenerate(lib, m)
    ensures var d, e := Det(m), Det(Orthonormalize(lib, m));
            && d == Norm(lib, m.r0) * Norm(lib, Residue1(lib, m)) * Norm(lib, Residue2(lib, m)) * e
            && (d > 0.0 <==> e > 0.0) && (d < 0.0 <==> e < 0.0)
  {
    Factors(lib, m);
    DetMul(Factor(lib, m), Orthonormalize(lib, m));
    DetTriangular(Factor(lib, m));
    SameSign(Det(Factor(lib, m)), Det(Orthonormalize(lib, m)));
  }

  lemma ScaledUnit(lib: Libm, k: real, u: V3)
    requires Exact(lib) && Dot(u, u) == 1.0 && k > EPSILON
    ensures Norm(lib, Scale(k, u)) == k && Normalize(lib, Scale(k, u)) == u
  {
    var v := Scale(k, u);
    DotScale(k, u, u);
    DotScale(k, u, v);
    SameSquare(lib, k, Dot(v, v), Dot(u, v));
    NormalizeLong(lib, v);
    VectorCancels(k, Normalize(lib, v), u);
  }

  lemma SameSquare(lib: Libm, k: real, d: real, e: real)
    requires Exact(lib) && k > 0.0 && d == k * e && e == k * 1.0
    ensures lib.sqrt(d) == k
  {
    assert d == k * k;
    PositiveProduct(k, k);
    var r := lib.sqrt(d);
    if r > k { SquareGrows(k, r); }
    if r < k { SquareGrows(r, k); }
  }

  lemma RejectRest(k: real, u: V3, w: V3)
    requires Dot(u, u) == 1.0 && Dot(w, u) == 0.0
    ensures Dot(Add(Scale(k, u), w), u) == k && Reject(Add(Scale(k, u), w), u) == w
  {
    DotAdd(Scale(k, u), w, u);
    DotScale(k, u, u);
  }

  /** The factorization is unique: whatever orthonormal Q and lower-triangular L one starts from, as long
      as the diagonal of L is above the threshold, the rows of L * Q come out as the rows of Q. */
  lemma RecoversFactors(lib: Libm, l: M3, q: M3)
    requires Exact(lib) && Orthonormal(q) && LowerTriangularPositive(l)
    requires l.r0.x > EPSILON && l.r1.y > EPSILON && l.r2.z > EPSILON
    ensures NonDegenerate(lib, Mul(l, q)) && Orthonormalize(lib, Mul(l, q)) == q && Factor(lib, Mul(l, q)) == l
  {
    var m := Mul(l, q);
    DotSymmetric(q.r0, q.r1);
    DotSymmetric(q.r0, q.r2);
    DotSymmetric(q.r1, q.r2);
    ApplyRows(l.r0, q);
    AddZero(Scale(l.r0.x, q.r0), q.r1);
    AddZero(Scale(l.r0.x, q.r0), q.r2);
    ScaledUnit(lib, l.r0.x, q.r0);
    ApplyRows(l.r1, q);
    var w1 := Scale(l.r1.y, q.r1);
    AddZero(Add(Scale(l.r1.x, q.r0), w1), q.r2);
    DotScale(l.r1.y, q.r1, q.r0);
    RejectRest(l.r1.x, q.r0, w1);
    ScaledUnit(lib, l.r1.y, q.r1);
    ApplyRows(l.r2, q);
    var w2 := Scale(l.r2.z, q.r2);
    var s := Add(Scale(l.r2.y, q.r1), w2);
    AddAssoc(Scale(l.r2.x, q.r0), Scale(l.r2.y, q.r1), w2);
    DotScale(l.r2.y, q.r1, q.r0);
    DotScale(l.r2.z, q.r2, q.r0);
    DotScale(l.r2.z, q.r2, q.r1);
    DotAdd(Scale(l.r2.y, q.r1), w2, q.r0);
    RejectRest(l.r2.x, q.r0, s);
    RejectRest(l.r2.y, q.r1, w2);
    ScaledUnit(lib, l.r2.z, q.r2);
  }

  lemma RejectNothing(v: V3, u: V3)
    requires Dot(v, u) == 0.0
    ensures Reject(v, u) == v
  {
  }

  /** An orthonormal matrix is left unchanged. */
  lemma FixesOrthonormal(lib: Libm, m: M3)
    requires Exact(lib) && Orthonormal(m)
    ensures NonDegenerate(lib, m) && Orthonormalize(lib, m) == m
  {
    NormalizeUnit(lib, m.r0);
    DotSymmetric(m.r0, m.r1);
    DotSymmetric(m.r0, m.r2);
    DotSymmetric(m.r1, m.r2);
    RejectNothing(m.r1, m.r0);
    NormalizeUnit(lib, m.r1);
    RejectNothing(m.r2, m.r0);
    RejectNothing(m.r2, m.r1);
    NormalizeUnit(lib, m.r2);
  }

  lemma Idempotent(lib: Libm, m: M3)
    requires Exact(lib) && NonDegenerate(lib, m)
    ensures Orthonormalize(lib, Orthonormalize(lib, m)) == Orthonormalize(lib, m)
  {
    OrthonormalIffNonDegenerate(lib, m);
    FixesOrthonormal(lib, Orthonormalize(lib, m));
  }
}
