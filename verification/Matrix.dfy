/** Vectors and matrices of exact reals, in the row-vector convention of the camera code. */
module Matrix {
  datatype V3 = V3(x: real, y: real, z: real)

  function Dot(a: V3, b: V3): real {
    a.x * b.x + a.y * b.y + a.z * b.z
  }

  function Add(a: V3, b: V3): V3 {
    V3(a.x + b.x, a.y + b.y, a.z + b.z)
  }

  function Sub(a: V3, b: V3): V3 {
    V3(a.x - b.x, a.y - b.y, a.z - b.z)
  }

  function Scale(k: real, a: V3): V3 {
    V3(k * a.x, k * a.y, k * a.z)
  }

  const ZERO := V3(0.0, 0.0, 0.0)

  /** A matrix is its three rows. */
  datatype M3 = M3(r0: V3, r1: V3, r2: V3)

  const ID := M3(V3(1.0, 0.0, 0.0), V3(0.0, 1.0, 0.0), V3(0.0, 0.0, 1.0))

  function Transpose(m: M3): M3 {
    M3(V3(m.r0.x, m.r1.x, m.r2.x), V3(m.r0.y, m.r1.y, m.r2.y), V3(m.r0.z, m.r1.z, m.r2.z))
  }

  /** A row vector times a matrix. */
  function Apply(v: V3, m: M3): V3 {
    V3(v.x * m.r0.x + v.y * m.r1.x + v.z * m.r2.x,
       v.x * m.r0.y + v.y * m.r1.y + v.z * m.r2.y,
       v.x * m.r0.z + v.y * m.r1.z + v.z * m.r2.z)
  }

  function Mul(a: M3, b: M3): M3 {
    M3(Apply(a.r0, b), Apply(a.r1, b), Apply(a.r2, b))
  }

  function Cross(a: V3, b: V3): V3 {
    V3(a.y * b.z - a.z * b.y, a.z * b.x - a.x * b.z, a.x * b.y - a.y * b.x)
  }

  function Det(m: M3): real {
    Dot(m.r0, Cross(m.r1, m.r2))
  }

  predicate Orthonormal(m: M3) {
    && Dot(m.r0, m.r0) == 1.0 && Dot(m.r1, m.r1) == 1.0 && Dot(m.r2, m.r2) == 1.0
    && Dot(m.r0, m.r1) == 0.0 && Dot(m.r0, m.r2) == 0.0 && Dot(m.r1, m.r2) == 0.0
  }

  // ----- linearity -----

  lemma DotSymmetric(a: V3, b: V3)
    ensures Dot(a, b) == Dot(b, a)
  {
  }

  lemma DotScale(k: real, a: V3, b: V3)
    ensures Dot(Scale(k, a), b) == k * Dot(a, b) && Dot(b, Scale(k, a)) == k * Dot(a, b)
  {
  }

  lemma DotAdd(a: V3, b: V3, c: V3)
    ensures Dot(Add(a, b), c) == Dot(a, c) + Dot(b, c) && Dot(c, Add(a, b)) == Dot(a, c) + Dot(b, c)
  {
  }

  lemma DotSub(a: V3, b: V3, c: V3)
    ensures Dot(Sub(a, b), c) == Dot(a, c) - Dot(b, c)
  {
  }

  /** Entry by entry, a product is the inner products of rows and columns. */
  lemma ApplyByColumns(v: V3, m: M3)
    ensures Apply(v, m) == V3(Dot(v, Transpose(m).r0), Dot(v, Transpose(m).r1), Dot(v, Transpose(m).r2))
  {
  }

  lemma ApplyDot(u: V3, m: M3, w: V3)
    ensures Dot(Apply(u, m), w) == Dot(u, Apply(w, Transpose(m)))
  {
  }

  lemma ApplyAdd(u: V3, v: V3, m: M3)
    ensures Apply(Add(u, v), m) == Add(Apply(u, m), Apply(v, m))
  {
    var c := Transpose(m);
    ApplyByColumns(u, m);
    ApplyByColumns(v, m);
    ApplyByColumns(Add(u, v), m);
    DotAdd(u, v, c.r0);
    DotAdd(u, v, c.r1);
    DotAdd(u, v, c.r2);
  }

  lemma ApplyMul(v: V3, a: M3, b: M3)
    ensures Apply(v, Mul(a, b)) == Apply(Apply(v, a), b)
  {
    var c, u := Transpose(b), Transpose(a);
    ApplyByColumns(a.r0, b);
    ApplyByColumns(a.r1, b);
    ApplyByColumns(a.r2, b);
    ApplyByColumns(v, Mul(a, b));
    ApplyByColumns(Apply(v, a), b);
    ApplyDot(v, a, c.r0); ApplyByColumns(c.r0, u);
    ApplyDot(v, a, c.r1); ApplyByColumns(c.r1, u);
    ApplyDot(v, a, c.r2); ApplyByColumns(c.r2, u);
    DotSymmetric(a.r0, c.r0); DotSymmetric(a.r0, c.r1); DotSymmetric(a.r0, c.r2);
    DotSymmetric(a.r1, c.r0); DotSymmetric(a.r1, c.r1); DotSymmetric(a.r1, c.r2);
    DotSymmetric(a.r2, c.r0); DotSymmetric(a.r2, c.r1); DotSymmetric(a.r2, c.r2);
  }

  lemma MulAssoc(a: M3, b: M3, c: M3)
    ensures Mul(Mul(a, b), c) == Mul(a, Mul(b, c))
  {
    ApplyMul(a.r0, b, c);
    ApplyMul(a.r1, b, c);
    ApplyMul(a.r2, b, c);
  }

  lemma ApplyId(v: V3)
    ensures Apply(v, ID) == v
  {
  }

  lemma MulId(a: M3)
    ensures Mul(a, ID) == a && Mul(ID, a) == a
  {
    ApplyId(a.r0);
    ApplyId(a.r1);
    ApplyId(a.r2);
  }

  lemma TransposeMul(a: M3, b: M3)
    ensures Transpose(Mul(a, b)) == Mul(Transpose(b), Transpose(a))
  {
    var u := Transpose(b);
    ApplyByColumns(a.r0, b);
    ApplyByColumns(a.r1, b);
    ApplyByColumns(a.r2, b);
    ApplyByColumns(u.r0, Transpose(a));
    ApplyByColumns(u.r1, Transpose(a));
    ApplyByColumns(u.r2, Transpose(a));
    DotSymmetric(a.r0, u.r0); DotSymmetric(a.r0, u.r1); DotSymmetric(a.r0, u.r2);
    DotSymmetric(a.r1, u.r0); DotSymmetric(a.r1, u.r1); DotSymmetric(a.r1, u.r2);
    DotSymmetric(a.r2, u.r0); DotSymmetric(a.r2, u.r1); DotSymmetric(a.r2, u.r2);
  }

  // ----- determinants -----

  function Triple(u: V3, v: V3, w: V3): real {
    Dot(u, Cross(v, w))
  }

  lemma TripleTurns(u: V3, v: V3, w: V3)
    ensures Triple(u, v, w) == Triple(v, w, u) && Triple(u, w, v) == -Triple(u, v, w)
  {
  }

  lemma TripleRepeats(u: V3, v: V3)
    ensures Triple(u, u, v) == 0.0 && Triple(u, v, u) == 0.0 && Triple(v, u, u) == 0.0
  {
  }

  /** The triple product is linear in its first vector. */
  lemma TripleExpands(p: V3, b: M3, v: V3, w: V3)
    ensures Triple(Apply(p, b), v, w) == Dot(p, V3(Triple(b.r0, v, w), Triple(b.r1, v, w), Triple(b.r2, v, w)))
  {
    var c := Cross(v, w);
    ApplyDot(p, b, c);
    ApplyByColumns(c, Transpose(b));
    DotSymmetric(b.r0, c);
    DotSymmetric(b.r1, c);
    DotSymmetric(b.r2, c);
  }

  /** A minor of the product of q, r with b: all repeated rows drop out. */
  lemma Minor(b0: V3, b: M3, q: V3, r: V3)
    ensures Triple(b0, Apply(q, b), Apply(r, b)) ==
            q.x * (r.y * Triple(b0, b.r0, b.r1) + r.z * Triple(b0, b.r0, b.r2))
            + q.y * (r.x * Triple(b0, b.r1, b.r0) + r.z * Triple(b0, b.r1, b.r2))
            + q.z * (r.x * Triple(b0, b.r2, b.r0) + r.y * Triple(b0, b.r2, b.r1))
  {
    var w := Apply(r, b);
    TripleTurns(b0, Apply(q, b), w);
    TripleExpands(q, b, w, b0);
    MinorRow(b0, b, b.r0, r);
    MinorRow(b0, b, b.r1, r);
    MinorRow(b0, b, b.r2, r);
    TripleRepeats(b.r0, b0);
    TripleRepeats(b.r1, b0);
    TripleRepeats(b.r2, b0);
  }

  lemma MinorRow(b0: V3, b: M3, v: V3, r: V3)
    ensures Triple(v, Apply(r, b), b0) ==
            r.x * Triple(b0, v, b.r0) + r.y * Triple(b0, v, b.r1) + r.z * Triple(b0, v, b.r2)
  {
    TripleTurns(v, Apply(r, b), b0);
    TripleExpands(r, b, b0, v);
    TripleTurns(b.r0, b0, v);
    TripleTurns(b.r1, b0, v);
    TripleTurns(b.r2, b0, v);
  }

  lemma MinorsAreCross(b: M3, q: V3, r: V3)
    ensures V3(Triple(b.r0, Apply(q, b), Apply(r, b)), Triple(b.r1, Apply(q, b), Apply(r, b)),
               Triple(b.r2, Apply(q, b), Apply(r, b))) == Scale(Det(b), Cross(q, r))
  {
    Minor(b.r0, b, q, r);
    Minor(b.r1, b, q, r);
    Minor(b.r2, b, q, r);
    var d := Triple(b.r0, b.r1, b.r2);
    TripleRepeats(b.r0, b.r1); TripleRepeats(b.r0, b.r2);
    TripleRepeats(b.r1, b.r0); TripleRepeats(b.r1, b.r2);
    TripleRepeats(b.r2, b.r0); TripleRepeats(b.r2, b.r1);
    TripleTurns(b.r0, b.r1, b.r2);
    TripleTurns(b.r1, b.r2, b.r0);
    TripleTurns(b.r2, b.r0, b.r1);
    Minor2(d, q.x, q.y, r.x, r.y);
    Minor2(d, q.y, q.z, r.y, r.z);
    Minor2(d, q.z, q.x, r.z, r.x);
  }

  lemma Minor2(d: real, a: real, b: real, e: real, f: real)
    ensures a * (f * d) + b * (e * -d) == d * (a * f - b * e)
  {
  }

  lemma DetMul(a: M3, b: M3)
    ensures Det(Mul(a, b)) == Det(a) * Det(b)
  {
    var q, r := Apply(a.r1, b), Apply(a.r2, b);
    TripleExpands(a.r0, b, q, r);
    MinorsAreCross(b, a.r1, a.r2);
    DotScale(Det(b), Cross(a.r1, a.r2), a.r0);
  }

  /** The matrix whose columns are the cross products of the rows. */
  function Adjugate(m: M3): M3 {
    Transpose(M3(Cross(m.r1, m.r2), Cross(m.r2, m.r0), Cross(m.r0, m.r1)))
  }

  lemma MulAdjugate(m: M3)
    ensures Mul(m, Adjugate(m)) == ScaleM(Det(m), ID)
  {
    ApplyByColumns(m.r0, Adjugate(m));
    ApplyByColumns(m.r1, Adjugate(m));
    ApplyByColumns(m.r2, Adjugate(m));
    TripleRepeats(m.r0, m.r1); TripleRepeats(m.r0, m.r2);
    TripleRepeats(m.r1, m.r0); TripleRepeats(m.r1, m.r2);
    TripleRepeats(m.r2, m.r0); TripleRepeats(m.r2, m.r1);
    TripleTurns(m.r0, m.r1, m.r2);
    TripleTurns(m.r1, m.r2, m.r0);
    assert ScaleM(Det(m), ID) == M3(V3(Det(m), 0.0, 0.0), V3(0.0, Det(m), 0.0), V3(0.0, 0.0, Det(m)));
  }

  function ScaleM(k: real, m: M3): M3 {
    M3(Scale(k, m.r0), Scale(k, m.r1), Scale(k, m.r2))
  }

  lemma RealCancels(k: real, a: real, b: real)
    requires k != 0.0 && k * a == k * b
    ensures a == b
  {
  }

  lemma VectorCancels(k: real, a: V3, b: V3)
    requires k != 0.0 && Scale(k, a) == Scale(k, b)
    ensures a == b
  {
    RealCancels(k, a.x, b.x);
    RealCancels(k, a.y, b.y);
    RealCancels(k, a.z, b.z);
  }

  lemma ScaleCancels(k: real, a: M3, b: M3)
    requires k != 0.0 && ScaleM(k, a) == ScaleM(k, b)
    ensures a == b
  {
    VectorCancels(k, a.r0, b.r0);
    VectorCancels(k, a.r1, b.r1);
    VectorCancels(k, a.r2, b.r2);
  }

  lemma MulScale(k: real, a: M3, b: M3)
    ensures Mul(a, ScaleM(k, b)) == ScaleM(k, Mul(a, b))
  {
    ApplyScaled(k, a.r0, b);
    ApplyScaled(k, a.r1, b);
    ApplyScaled(k, a.r2, b);
  }

  lemma ApplyScaled(k: real, v: V3, m: M3)
    ensures Apply(v, ScaleM(k, m)) == Scale(k, Apply(v, m))
  {
    hide Apply;
    hide Dot;
    var c := Transpose(m);
    ApplyByColumns(v, m);
    ApplyByColumns(v, ScaleM(k, m));
    assert Transpose(ScaleM(k, m)) == ScaleM(k, c);
    DotScale(k, c.r0, v);
    DotScale(k, c.r1, v);
    DotScale(k, c.r2, v);
    DotSymmetric(v, c.r0);
    DotSymmetric(v, c.r1);
    DotSymmetric(v, c.r2);
  }

  lemma InverseIsAdjugate(m: M3, b: M3, adj: M3, d: real)
    requires Mul(m, b) == ID && Mul(b, adj) == ScaleM(d, ID) && d != 0.0
    ensures Mul(b, m) == ID
  {
    MulAssoc(m, b, adj);
    MulId(adj);
    MulScale(d, m, ID);
    MulId(m);
    assert adj == ScaleM(d, m);
    MulScale(d, b, m);
    ScaleCancels(d, Mul(b, m), ID);
  }

  lemma InvertibleDet(m: M3, b: M3)
    requires Mul(m, b) == ID
    ensures Det(b) != 0.0
  {
    DetMul(m, b);
    DetId();
  }

  lemma DetId()
    ensures Det(ID) == 1.0
  {
  }

  /** A right inverse is a left inverse. */
  lemma RightInverseIsLeft(m: M3, b: M3)
    requires Mul(m, b) == ID
    ensures Mul(b, m) == ID
  {
    InvertibleDet(m, b);
    MulAdjugate(b);
    InverseIsAdjugate(m, b, Adjugate(b), Det(b));
  }

  // ----- orthonormal matrices -----

  lemma OrthonormalInverse(m: M3)
    ensures Orthonormal(m) <==> Mul(m, Transpose(m)) == ID
  {
    assert Transpose(Transpose(m)) == m;
    ApplyByColumns(m.r0, Transpose(m));
    ApplyByColumns(m.r1, Transpose(m));
    ApplyByColumns(m.r2, Transpose(m));
    DotSymmetric(m.r0, m.r1);
    DotSymmetric(m.r0, m.r2);
    DotSymmetric(m.r1, m.r2);
  }

  lemma TransposeOrthonormal(m: M3)
    requires Orthonormal(m)
    ensures Orthonormal(Transpose(m)) && Mul(Transpose(m), m) == ID
  {
    OrthonormalInverse(m);
    RightInverseIsLeft(m, Transpose(m));
    OrthonormalInverse(Transpose(m));
  }

  lemma OrthonormalMul(a: M3, b: M3)
    requires Orthonormal(a) && Orthonormal(b)
    ensures Orthonormal(Mul(a, b))
  {
    OrthonormalInverse(a);
    OrthonormalInverse(b);
    TransposeMul(a, b);
    MulAssoc(a, b, Mul(Transpose(b), Transpose(a)));
    MulAssoc(b, Transpose(b), Transpose(a));
    MulId(Transpose(a));
    OrthonormalInverse(Mul(a, b));
  }

  /** An orthonormal matrix keeps inner products, so lengths and distances. */
  lemma Isometry(u: V3, v: V3, m: M3)
    requires Orthonormal(m)
    ensures Dot(Apply(u, m), Apply(v, m)) == Dot(u, v)
  {
    ApplyDot(u, m, Apply(v, m));
    ApplyMul(v, m, Transpose(m));
    OrthonormalInverse(m);
    assert Apply(v, ID) == v;
  }
}
