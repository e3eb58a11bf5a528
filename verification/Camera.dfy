/** The view matrix and what one motion event does to it, over exact reals. A view is sixteen
    numbers in row-major order; points are row vectors, so the last row is the translation. */
module Camera {
  import opened Matrix
  import opened GramSchmidt

  type View = s: seq<real> | |s| == 16 witness seq(16, _ => 0.0)
  type Extents = s: seq<real> | |s| == 6 witness seq(6, _ => 0.0)

  /** The axes of the device, as the driver reports them. */
  datatype Motion = Motion(x: int, y: int, z: int, rx: int, ry: int, rz: int)

  const PI := 3.14159265358979323846

  // ----- 4x4 matrices -----

  function Entry(a: View, b: View, i: nat, j: nat): real
    requires i < 4 && j < 4
  {
    a[4 * i] * b[j] + a[4 * i + 1] * b[4 + j] + a[4 * i + 2] * b[8 + j] + a[4 * i + 3] * b[12 + j]
  }

  function Mul4(a: View, b: View): View {
    seq(16, n requires 0 <= n < 16 => Entry(a, b, n / 4, n % 4))
  }

  function FromRot3(r: M3): View {
    [r.r0.x, r.r0.y, r.r0.z, 0.0,
     r.r1.x, r.r1.y, r.r1.z, 0.0,
     r.r2.x, r.r2.y, r.r2.z, 0.0,
     0.0, 0.0, 0.0, 1.0]
  }

  const IDENTITY: View := FromRot3(ID)

  function FromTranslationRow(t: V3): View {
    IDENTITY[12 := t.x][13 := t.y][14 := t.z]
  }

  function Block(s: View): M3 {
    M3(V3(s[0], s[1], s[2]), V3(s[4], s[5], s[6]), V3(s[8], s[9], s[10]))
  }

  function Shift(s: View): V3 {
    V3(s[12], s[13], s[14])
  }

  predicate IsAffine(s: View) {
    s[3] == 0.0 && s[7] == 0.0 && s[11] == 0.0 && s[15] == 1.0
  }

  /** Where a view takes a point. */
  function Place(s: View, p: V3): V3 {
    Add(Apply(p, Block(s)), Shift(s))
  }

  function Row(s: View, i: nat): V3
    requires i < 4
  {
    V3(s[4 * i], s[4 * i + 1], s[4 * i + 2])
  }

  lemma EntryAt(a: View, b: View, i: nat, j: nat)
    requires i < 4 && j < 4
    ensures Mul4(a, b)[4 * i + j] == Entry(a, b, i, j)
  {
    assert (4 * i + j) / 4 == i && (4 * i + j) % 4 == j;
  }

  lemma RowOfProduct(a: View, b: View, i: nat)
    requires i < 4
    ensures Row(Mul4(a, b), i) == V3(Entry(a, b, i, 0), Entry(a, b, i, 1), Entry(a, b, i, 2))
    ensures Mul4(a, b)[4 * i + 3] == Entry(a, b, i, 3)
  {
    EntryAt(a, b, i, 0);
    EntryAt(a, b, i, 1);
    EntryAt(a, b, i, 2);
    EntryAt(a, b, i, 3);
  }

  lemma LinearRow(a: View, b: View, i: nat)
    requires i < 4 && a[4 * i + 3] == 0.0
    ensures V3(Entry(a, b, i, 0), Entry(a, b, i, 1), Entry(a, b, i, 2)) == Apply(Row(a, i), Block(b))
    ensures Entry(a, b, i, 3) == a[4 * i] * b[3] + a[4 * i + 1] * b[7] + a[4 * i + 2] * b[11]
  {
  }

  lemma ShiftRow(a: View, b: View, i: nat)
    requires i < 4 && a[4 * i + 3] == 1.0
    ensures V3(Entry(a, b, i, 0), Entry(a, b, i, 1), Entry(a, b, i, 2)) == Add(Apply(Row(a, i), Block(b)), Shift(b))
    ensures Entry(a, b, i, 3) == a[4 * i] * b[3] + a[4 * i + 1] * b[7] + a[4 * i + 2] * b[11] + b[15]
  {
  }

  lemma MulAffine(a: View, b: View)
    requires IsAffine(a) && IsAffine(b)
    ensures IsAffine(Mul4(a, b))
    ensures Block(Mul4(a, b)) == Mul(Block(a), Block(b))
    ensures Shift(Mul4(a, b)) == Place(b, Shift(a))
  {
    RowOfProduct(a, b, 0); LinearRow(a, b, 0);
    RowOfProduct(a, b, 1); LinearRow(a, b, 1);
    RowOfProduct(a, b, 2); LinearRow(a, b, 2);
    RowOfProduct(a, b, 3); ShiftRow(a, b, 3);
    assert Block(Mul4(a, b)) == M3(Row(Mul4(a, b), 0), Row(Mul4(a, b), 1), Row(Mul4(a, b), 2));
    assert Block(a) == M3(Row(a, 0), Row(a, 1), Row(a, 2));
  }

  lemma EntryIdentity(a: View, i: nat, j: nat)
    requires i < 4 && j < 4
    ensures Entry(a, IDENTITY, i, j) == a[4 * i + j] && Entry(IDENTITY, a, i, j) == a[4 * i + j]
  {
    assert i in {0, 1, 2, 3} && j in {0, 1, 2, 3};
  }

  lemma MulIdentity(a: View)
    ensures Mul4(a, IDENTITY) == a && Mul4(IDENTITY, a) == a
  {
    forall n | 0 <= n < 16
      ensures Mul4(a, IDENTITY)[n] == a[n] && Mul4(IDENTITY, a)[n] == a[n]
    {
      EntryIdentity(a, n / 4, n % 4);
    }
  }

  // ----- rotation deltas -----

  function RotX(c: real, s: real): M3 {
    M3(V3(1.0, 0.0, 0.0), V3(0.0, c, -s), V3(0.0, s, c))
  }

  function RotY(c: real, s: real): M3 {
    M3(V3(c, 0.0, s), V3(0.0, 1.0, 0.0), V3(-s, 0.0, c))
  }

  function RotZ(c: real, s: real): M3 {
    M3(V3(c, -s, 0.0), V3(s, c, 0.0), V3(0.0, 0.0, 1.0))
  }

  function Radians(degrees: real): real {
    degrees * PI / 180.0
  }

  function Euler(lib: Libm, ax: real, ay: real, az: real): M3 {
    var a, b, c := Radians(ax), Radians(ay), Radians(az);
    Mul(Mul(RotX(lib.cos(a), lib.sin(a)), RotY(lib.cos(b), lib.sin(b))), RotZ(lib.cos(c), lib.sin(c)))
  }

  ghost predicate Proper(m: M3) {
    Orthonormal(m) && Det(m) == 1.0
  }

  lemma RotXIsProper(c: real, s: real)
    requires c * c + s * s == 1.0
    ensures Proper(RotX(c, s))
  {
  }

  lemma RotYIsProper(c: real, s: real)
    requires c * c + s * s == 1.0
    ensures Proper(RotY(c, s))
  {
  }

  lemma RotZIsProper(c: real, s: real)
    requires c * c + s * s == 1.0
    ensures Proper(RotZ(c, s))
  {
  }

  lemma ProperMul(a: M3, b: M3)
    requires Proper(a) && Proper(b)
    ensures Proper(Mul(a, b))
  {
    OrthonormalMul(a, b);
    DetMul(a, b);
  }

  lemma ProperThree(a: M3, b: M3, c: M3)
    requires Proper(a) && Proper(b) && Proper(c)
    ensures Proper(Mul(Mul(a, b), c))
  {
    ProperMul(a, b);
    ProperMul(Mul(a, b), c);
  }

  lemma UnitCircle(lib: Libm, a: real)
    requires Exact(lib)
    ensures lib.cos(a) * lib.cos(a) + lib.sin(a) * lib.sin(a) == 1.0
  {
  }

  lemma TurnX(lib: Libm, a: real)
    requires Exact(lib)
    ensures Proper(RotX(lib.cos(a), lib.sin(a)))
  {
    UnitCircle(lib, a);
    RotXIsProper(lib.cos(a), lib.sin(a));
  }

  lemma TurnY(lib: Libm, a: real)
    requires Exact(lib)
    ensures Proper(RotY(lib.cos(a), lib.sin(a)))
  {
    UnitCircle(lib, a);
    RotYIsProper(lib.cos(a), lib.sin(a));
  }

  lemma TurnZ(lib: Libm, a: real)
    requires Exact(lib)
    ensures Proper(RotZ(lib.cos(a), lib.sin(a)))
  {
    UnitCircle(lib, a);
    RotZIsProper(lib.cos(a), lib.sin(a));
  }

  lemma EulerFactors(lib: Libm, ax: real, ay: real, az: real) returns (x: M3, y: M3, z: M3)
    requires Exact(lib)
    ensures Proper(x) && Proper(y) && Proper(z) && Euler(lib, ax, ay, az) == Mul(Mul(x, y), z)
  {
    var a, b, c := Radians(ax), Radians(ay), Radians(az);
    x, y, z := RotX(lib.cos(a), lib.sin(a)), RotY(lib.cos(b), lib.sin(b)), RotZ(lib.cos(c), lib.sin(c));
    TurnX(lib, a);
    TurnY(lib, b);
    TurnZ(lib, c);
  }

  lemma EulerIsProper(lib: Libm, ax: real, ay: real, az: real)
    requires Exact(lib)
    ensures Proper(Euler(lib, ax, ay, az))
  {
    var x, y, z := EulerFactors(lib, ax, ay, az);
    ProperThree(x, y, z);
  }

  // ----- one motion event -----

  function Angle(axis: int, sens: real): real {
    axis as real * 0.02 * sens
  }

  function Slide(axis: int, sens: real): real {
    axis as real * 0.0005 * sens
  }

  function Delta(lib: Libm, ev: Motion, sens: real): M3 {
    Euler(lib, Angle(ev.rx, sens), Angle(ev.ry, sens), Angle(-ev.rz, sens))
  }

  function Travel(ev: Motion, sens: real): V3 {
    V3(Slide(-ev.x, sens), Slide(-ev.y, sens), Slide(ev.z, sens))
  }

  /** The centre of the model's bounding box. */
  function Pivot(e: Extents): V3 {
    V3((e[0] + e[3]) * 0.5, (e[1] + e[4]) * 0.5, (e[2] + e[5]) * 0.5)
  }

  function CameraFrame(lib: Libm, curr: View): M3 {
    Orthonormalize(lib, Transpose(Block(curr)))
  }

  /** The delta, given in camera axes, in world axes. */
  function WorldDelta(lib: Libm, curr: View, ev: Motion, sens: real): M3 {
    var cam := CameraFrame(lib, curr);
    Mul(Mul(cam, Delta(lib, ev, sens)), Transpose(cam))
  }

  function AboutPivot(pivot: V3, rot: M3): View {
    Mul4(Mul4(FromTranslationRow(Scale(-1.0, pivot)), FromRot3(rot)), FromTranslationRow(pivot))
  }

  function NewAffine(lib: Libm, curr: View, extents: Extents, ev: Motion, sens: real): View {
    Mul4(FromTranslationRow(Travel(ev, sens)),
         Mul4(curr, AboutPivot(Pivot(extents), WorldDelta(lib, curr, ev, sens))))
  }

  lemma TranslationIsAffine(t: V3)
    ensures IsAffine(FromTranslationRow(t)) && Block(FromTranslationRow(t)) == ID && Shift(FromTranslationRow(t)) == t
  {
  }

  lemma RotationIsAffine(r: M3)
    ensures IsAffine(FromRot3(r)) && Block(FromRot3(r)) == r && Shift(FromRot3(r)) == ZERO
  {
  }

  lemma AboutPivotShape(p: V3, r: M3)
    ensures IsAffine(AboutPivot(p, r)) && Block(AboutPivot(p, r)) == r
    ensures Shift(AboutPivot(p, r)) == Add(Apply(Scale(-1.0, p), r), p)
  {
    var neg, rot, pos := FromTranslationRow(Scale(-1.0, p)), FromRot3(r), FromTranslationRow(p);
    TranslationIsAffine(Scale(-1.0, p));
    TranslationIsAffine(p);
    RotationIsAffine(r);
    MulAffine(neg, rot);
    MulAffine(Mul4(neg, rot), pos);
    MulId(r);
    var v := Apply(Scale(-1.0, p), r);
    AddZeroVector(v);
    ApplyId(v);
  }

  lemma AddZeroVector(v: V3)
    ensures Add(v, ZERO) == v
  {
  }

  /** x -> (x - p) * r + p */
  function Orbit(p: V3, r: M3, x: V3): V3 {
    Add(Apply(Sub(x, p), r), p)
  }

  lemma AboutPivotOrbits(p: V3, r: M3, x: V3)
    ensures Place(AboutPivot(p, r), x) == Orbit(p, r, x)
  {
    AboutPivotShape(p, r);
    ApplyAdd(x, Scale(-1.0, p), r);
    assert Add(x, Scale(-1.0, p)) == Sub(x, p);
  }

  lemma PlaceMul(a: View, b: View, x: V3)
    requires IsAffine(a) && IsAffine(b)
    ensures Place(Mul4(a, b), x) == Place(b, Place(a, x))
  {
    MulAffine(a, b);
    ApplyMul(x, Block(a), Block(b));
    ApplyAdd(Apply(x, Block(a)), Shift(a), Block(b));
  }

  /** The new view is the current one moved along its own axes and then turned about the model's centre. */
  lemma OrbitsModelCentre(lib: Libm, curr: View, extents: Extents, ev: Motion, sens: real, x: V3)
    requires IsAffine(curr)
    ensures var next := NewAffine(lib, curr, extents, ev, sens);
            && IsAffine(next)
            && Block(next) == Mul(Block(curr), WorldDelta(lib, curr, ev, sens))
            && Place(next, x) == Orbit(Pivot(extents), WorldDelta(lib, curr, ev, sens),
                                       Place(Mul4(FromTranslationRow(Travel(ev, sens)), curr), x))
  {
    var t, p, r := FromTranslationRow(Travel(ev, sens)), Pivot(extents), WorldDelta(lib, curr, ev, sens);
    var turn := AboutPivot(p, r);
    TranslationIsAffine(Travel(ev, sens));
    AboutPivotShape(p, r);
    MulAffine(curr, turn);
    MulAffine(t, Mul4(curr, turn));
    MulId(Mul(Block(curr), r));
    PlaceMul(t, Mul4(curr, turn), x);
    PlaceMul(curr, turn, Place(t, x));
    PlaceMul(t, curr, x);
    AboutPivotOrbits(p, r, Place(curr, Place(t, x)));
  }

  // ----- what the camera keeps -----

  lemma ConjugateCollects(a: M3, d: M3)
    requires Orthonormal(a)
    ensures Mul(a, Mul(Mul(Transpose(a), d), Transpose(Transpose(a)))) == Mul(d, a)
  {
    var t := Transpose(a);
    assert Transpose(t) == a;
    OrthonormalInverse(a);
    MulAssoc(t, d, a);
    MulAssoc(a, t, Mul(d, a));
    MulId(Mul(d, a));
  }

  lemma RigidWorldDelta(lib: Libm, curr: View, ev: Motion, sens: real)
    requires Exact(lib) && Orthonormal(Block(curr))
    ensures Mul(Block(curr), WorldDelta(lib, curr, ev, sens)) == Mul(Delta(lib, ev, sens), Block(curr))
  {
    TransposeOrthonormal(Block(curr));
    FixesOrthonormal(lib, Transpose(Block(curr)));
    ConjugateCollects(Block(curr), Delta(lib, ev, sens));
  }

  lemma RigidProduct(d: M3, a: M3)
    requires Proper(d) && Orthonormal(a)
    ensures Orthonormal(Mul(d, a)) && Det(Mul(d, a)) == Det(a)
  {
    OrthonormalMul(d, a);
    DetMul(d, a);
  }

  /** A rigid view stays rigid: its block becomes exactly the delta times the block, whatever the
      translation and the pivot. */
  lemma RigidStep(lib: Libm, curr: View, extents: Extents, ev: Motion, sens: real)
    requires Exact(lib) && IsAffine(curr) && Orthonormal(Block(curr))
    ensures var next := NewAffine(lib, curr, extents, ev, sens);
            && IsAffine(next) && Orthonormal(Block(next))
            && Block(next) == Mul(Delta(lib, ev, sens), Block(curr))
            && Det(Block(next)) == Det(Block(curr))
  {
    OrbitsModelCentre(lib, curr, extents, ev, sens, ZERO);
    RigidWorldDelta(lib, curr, ev, sens);
    DeltaIsProper(lib, ev, sens);
    RigidProduct(Delta(lib, ev, sens), Block(curr));
  }

  lemma DeltaIsProper(lib: Libm, ev: Motion, sens: real)
    requires Exact(lib)
    ensures Proper(Delta(lib, ev, sens))
  {
    EulerIsProper(lib, Angle(ev.rx, sens), Angle(ev.ry, sens), Angle(-ev.rz, sens));
  }

  /** One turn of the loop view -> event -> view, with the extents and sensitivity in force then. */
  datatype Turn = Turn(ev: Motion, extents: Extents, sens: real)

  function RunViews(lib: Libm, curr: View, turns: seq<Turn>): View
    decreases |turns|
  {
    if turns == [] then curr
    else RunViews(lib, NewAffine(lib, curr, turns[0].extents, turns[0].ev, turns[0].sens), turns[1..])
  }

  /** The deltas of a run, the latest leftmost. */
  function AllDeltas(lib: Libm, turns: seq<Turn>): M3 {
    if turns == [] then ID else Mul(AllDeltas(lib, turns[1..]), Delta(lib, turns[0].ev, turns[0].sens))
  }

  /** Every finite run of motion steps fed back into itself keeps the block orthonormal with the same
      determinant and the last column fixed; the block is the product of the deltas times the first block. */
  lemma {:induction false} RunsStayRigid(lib: Libm, curr: View, turns: seq<Turn>)
    requires Exact(lib) && IsAffine(curr) && Orthonormal(Block(curr))
    ensures var last := RunViews(lib, curr, turns);
            && IsAffine(last) && Orthonormal(Block(last))
            && Det(Block(last)) == Det(Block(curr))
            && Block(last) == Mul(AllDeltas(lib, turns), Block(curr))
    decreases |turns|
  {
    if turns == [] {
      MulId(Block(curr));
    } else {
      var t := turns[0];
      RigidStep(lib, curr, t.extents, t.ev, t.sens);
      RunsStayRigid(lib, NewAffine(lib, curr, t.extents, t.ev, t.sens), turns[1..]);
      MulAssoc(AllDeltas(lib, turns[1..]), Delta(lib, t.ev, t.sens), Block(curr));
    }
  }

  lemma ConjugateIsProper(c: M3, d: M3)
    requires Orthonormal(c) && Proper(d)
    ensures Proper(Mul(Mul(c, d), Transpose(c)))
  {
    TransposeOrthonormal(c);
    OrthonormalMul(c, d);
    OrthonormalMul(Mul(c, d), Transpose(c));
    InverseDets(Transpose(c), c);
    DetConjugate(c, d, Transpose(c));
  }

  lemma InverseDets(t: M3, c: M3)
    requires Mul(t, c) == ID
    ensures Det(t) * Det(c) == 1.0
  {
    DetMul(t, c);
    DetId();
  }

  lemma DetConjugate(c: M3, d: M3, t: M3)
    requires Det(t) * Det(c) == 1.0 && Det(d) == 1.0
    ensures Det(Mul(Mul(c, d), t)) == 1.0
  {
    DetMul(c, d);
    DetMul(Mul(c, d), t);
  }

  /** For any view whose block does not degenerate, the turn is a proper rotation of space. */
  lemma WorldDeltaIsProper(lib: Libm, curr: View, ev: Motion, sens: real)
    requires Exact(lib) && NonDegenerate(lib, Transpose(Block(curr)))
    ensures Proper(WorldDelta(lib, curr, ev, sens))
  {
    OrthonormalIffNonDegenerate(lib, Transpose(Block(curr)));
    DeltaIsProper(lib, ev, sens);
    ConjugateIsProper(CameraFrame(lib, curr), Delta(lib, ev, sens));
  }

  function Distance2(a: V3, b: V3): real {
    Dot(Sub(a, b), Sub(a, b))
  }

  /** Orbiting: every point keeps the distance to the model's centre it has after the translation, so what
      the translation brings to the centre stays there. */
  lemma DistanceToCentreKept(lib: Libm, curr: View, extents: Extents, ev: Motion, sens: real, x: V3)
    requires Exact(lib) && IsAffine(curr) && NonDegenerate(lib, Transpose(Block(curr)))
    ensures var p := Pivot(extents);
            var moved := Place(Mul4(FromTranslationRow(Travel(ev, sens)), curr), x);
            var next := Place(NewAffine(lib, curr, extents, ev, sens), x);
            Distance2(next, p) == Distance2(moved, p) && (moved == p ==> next == p)
  {
    var p, r := Pivot(extents), WorldDelta(lib, curr, ev, sens);
    var moved := Place(Mul4(FromTranslationRow(Travel(ev, sens)), curr), x);
    OrbitsModelCentre(lib, curr, extents, ev, sens, x);
    WorldDeltaIsProper(lib, curr, ev, sens);
    OrbitKeepsDistance(p, r, moved);
  }

  lemma OrbitKeepsDistance(p: V3, r: M3, y: V3)
    requires Orthonormal(r)
    ensures Distance2(Orbit(p, r, y), p) == Distance2(y, p)
    ensures Orbit(p, r, p) == p
  {
    var v := Sub(y, p);
    Isometry(v, v, r);
    AddSub(Apply(v, r), p);
    assert Sub(p, p) == ZERO;
    ApplyZero(r);
  }

  lemma AddSub(v: V3, p: V3)
    ensures Sub(Add(v, p), p) == v && Add(ZERO, p) == p
  {
  }

  lemma ApplyZero(m: M3)
    ensures Apply(ZERO, m) == ZERO
  {
  }

  /** The eye is where the view puts the origin: without translation it stays on its sphere about the centre. */
  lemma EyeStaysOnSphere(lib: Libm, curr: View, extents: Extents, ev: Motion, sens: real)
    requires Exact(lib) && IsAffine(curr) && NonDegenerate(lib, Transpose(Block(curr)))
    requires ev.x == 0 && ev.y == 0 && ev.z == 0
    ensures Distance2(Shift(NewAffine(lib, curr, extents, ev, sens)), Pivot(extents)) ==
            Distance2(Shift(curr), Pivot(extents))
  {
    NoTravel(ev, sens);
    MulIdentity(curr);
    DistanceToCentreKept(lib, curr, extents, ev, sens, ZERO);
    ApplyZero(Block(curr));
    ApplyZero(Block(NewAffine(lib, curr, extents, ev, sens)));
    AddSub(ZERO, Shift(curr));
    AddSub(ZERO, Shift(NewAffine(lib, curr, extents, ev, sens)));
  }

  lemma NoTravel(ev: Motion, sens: real)
    requires ev.x == 0 && ev.y == 0 && ev.z == 0
    ensures Travel(ev, sens) == ZERO && FromTranslationRow(Travel(ev, sens)) == IDENTITY
  {
  }

  const STILL := Motion(0, 0, 0, 0, 0, 0)

  lemma StillAngle(sens: real)
    ensures Radians(Angle(0, sens)) == 0.0
  {
    assert Angle(0, sens) == 0.0;
  }

  lemma StillDelta(lib: Libm, sens: real)
    requires Exact(lib)
    ensures Delta(lib, STILL, sens) == ID
  {
    StillAngle(sens);
    assert RotX(1.0, 0.0) == ID && RotY(1.0, 0.0) == ID && RotZ(1.0, 0.0) == ID;
    MulId(ID);
  }

  /** The event with all axes zero leaves any non-degenerate view, orthonormal or not, as it is. */
  lemma StillEventKeepsView(lib: Libm, curr: View, extents: Extents, sens: real)
    requires Exact(lib) && NonDegenerate(lib, Transpose(Block(curr)))
    ensures NewAffine(lib, curr, extents, STILL, sens) == curr
  {
    hide Exact;
    hide NonDegenerate;
    hide WorldDelta;
    hide AboutPivot;
    hide Mul4;
    hide Travel;
    hide FromTranslationRow;
    hide Pivot;
    StillTurn(lib, curr, sens);
    NoTurn(Pivot(extents));
    MulIdentity(curr);
    NoTravel(STILL, sens);
  }

  /** Without an event a non-degenerate view is not turned. */
  lemma StillTurn(lib: Libm, curr: View, sens: real)
    requires Exact(lib) && NonDegenerate(lib, Transpose(Block(curr)))
    ensures WorldDelta(lib, curr, STILL, sens) == ID
  {
    hide Exact;
    hide NonDegenerate;
    hide Delta;
    hide Mul;
    hide Transpose;
    hide Orthonormalize;
    hide Orthonormal;
    var cam := CameraFrame(lib, curr);
    StillDelta(lib, sens);
    MulId(cam);
    OrthonormalIffNonDegenerate(lib, Transpose(Block(curr)));
    OrthonormalInverse(cam);
  }

  lemma NoTurn(p: V3)
    ensures AboutPivot(p, ID) == IDENTITY
  {
    hide AboutPivot;
    hide Apply;
    AboutPivotShape(p, ID);
    ApplyId(Scale(-1.0, p));
    AddNegative(p);
    RotationIsAffine(ID);
    ViewFromParts(AboutPivot(p, ID), IDENTITY);
  }

  lemma AddNegative(p: V3)
    ensures Add(Scale(-1.0, p), p) == ZERO
  {
  }

  lemma ViewFromParts(a: View, b: View)
    requires IsAffine(a) && IsAffine(b) && Block(a) == Block(b) && Shift(a) == Shift(b)
    ensures a == b
  {
    assert forall n | 0 <= n < 16 :: a[n] == b[n];
  }

  const FLAT := M3(ZERO, ZERO, ZERO)

  lemma ZeroNormalizes(lib: Libm)
    requires Exact(lib)
    ensures Normalize(lib, ZERO) == ZERO && Norm(lib, ZERO) <= EPSILON
  {
    var len := Norm(lib, ZERO);
    assert Dot(ZERO, ZERO) == 0.0 && len * len == 0.0;
    if len > 0.0 { PositiveProduct(len, len); }
  }

  /** Without travel the eye goes round the model's centre. */
  lemma EyeOrbits(lib: Libm, curr: View, e: Extents, ev: Motion, sens: real)
    requires IsAffine(curr) && ev.x == 0 && ev.y == 0 && ev.z == 0
    ensures Shift(NewAffine(lib, curr, e, ev, sens)) == Orbit(Pivot(e), WorldDelta(lib, curr, ev, sens), Shift(curr))
  {
    hide WorldDelta;
    hide NewAffine;
    hide Mul4;
    hide Apply;
    hide Orbit;
    hide Pivot;
    OrbitsModelCentre(lib, curr, e, ev, sens, ZERO);
    NoTravel(ev, sens);
    MulIdentity(curr);
    ApplyZero(Block(curr));
    AddSub(ZERO, Shift(curr));
    ApplyZero(Block(NewAffine(lib, curr, e, ev, sens)));
    AddSub(ZERO, Shift(NewAffine(lib, curr, e, ev, sens)));
  }

  lemma OrbitFixed(p: V3, r: M3, s: V3, a: V3)
    requires Orbit(p, r, s) == s && p == Sub(s, a)
    ensures Apply(a, r) == a
  {
    hide Apply;
    assert Sub(s, p) == a;
    AddSub(Apply(a, r), p);
  }

  lemma PivotAt(p: V3)
    ensures Pivot([p.x, p.y, p.z, p.x, p.y, p.z]) == p
  {
  }

  /** An event that changes nothing, wherever the model's centre is, turns nothing. */
  lemma StillTurnFixes(lib: Libm, curr: View, sens: real, a: V3)
    requires IsAffine(curr) && forall e: Extents :: NewAffine(lib, curr, e, STILL, sens) == curr
    ensures Apply(a, WorldDelta(lib, curr, STILL, sens)) == a
  {
    hide WorldDelta;
    hide NewAffine;
    hide Apply;
    hide Orbit;
    hide Pivot;
    var p := Sub(Shift(curr), a);
    var e: Extents := [p.x, p.y, p.z, p.x, p.y, p.z];
    PivotAt(p);
    assert NewAffine(lib, curr, e, STILL, sens) == curr;
    EyeOrbits(lib, curr, e, STILL, sens);
    OrbitFixed(p, WorldDelta(lib, curr, STILL, sens), Shift(curr), a);
  }

  /** The event with all axes zero leaves a view unchanged, wherever the model's centre is, exactly when no
      row of its transposed block degenerates. */
  lemma StillEventIff(lib: Libm, curr: View, sens: real)
    requires Exact(lib) && IsAffine(curr)
    ensures NonDegenerate(lib, Transpose(Block(curr))) <==>
            forall e: Extents :: NewAffine(lib, curr, e, STILL, sens) == curr
  {
    hide NewAffine;
    var m := Transpose(Block(curr));
    if NonDegenerate(lib, m) {
      forall e: Extents
        ensures NewAffine(lib, curr, e, STILL, sens) == curr
      {
        StillEventKeepsView(lib, curr, e, sens);
      }
    } else if forall e: Extents :: NewAffine(lib, curr, e, STILL, sens) == curr {
      var cam, r := CameraFrame(lib, curr), WorldDelta(lib, curr, STILL, sens);
      StillTurnFixes(lib, curr, sens, ID.r0);
      StillTurnFixes(lib, curr, sens, ID.r1);
      StillTurnFixes(lib, curr, sens, ID.r2);
      MulId(r);
      StillDelta(lib, sens);
      MulId(cam);
      OrthonormalInverse(cam);
      OrthonormalIffNonDegenerate(lib, m);
      assert false;
    }
  }

  lemma RejectZero(u: V3)
    ensures Reject(ZERO, u) == ZERO
  {
    assert Dot(ZERO, u) == 0.0;
  }

  lemma FlatFrame(lib: Libm)
    requires Exact(lib)
    ensures Orthonormalize(lib, FLAT) == FLAT && !NonDegenerate(lib, FLAT)
  {
    hide Normalize;
    hide Norm;
    hide Reject;
    ZeroNormalizes(lib);
    RejectZero(ZERO);
  }

  lemma FlatMul(m: M3)
    ensures Mul(FLAT, m) == FLAT
  {
  }

  lemma FlatApply(v: V3)
    ensures Apply(v, FLAT) == ZERO
  {
  }

  lemma FlatOrbit(p: V3)
    ensures Orbit(p, FLAT, ZERO) == p
  {
    hide Apply;
    FlatApply(Sub(ZERO, p));
    AddSub(ZERO, p);
  }

  lemma FlatDelta(lib: Libm, sens: real)
    requires Exact(lib)
    ensures WorldDelta(lib, FromRot3(FLAT), STILL, sens) == FLAT
  {
    hide Delta;
    hide Mul;
    hide Orthonormalize;
    RotationIsAffine(FLAT);
    FlatFrame(lib);
    FlatMul(Delta(lib, STILL, sens));
    FlatMul(FLAT);
  }

  lemma FlatShift(lib: Libm, e: Extents, sens: real)
    requires Exact(lib)
    ensures Shift(NewAffine(lib, FromRot3(FLAT), e, STILL, sens)) == Pivot(e)
  {
    hide NewAffine;
    hide WorldDelta;
    hide Orbit;
    hide Pivot;
    hide FromRot3;
    RotationIsAffine(FLAT);
    EyeOrbits(lib, FromRot3(FLAT), e, STILL, sens);
    FlatDelta(lib, sens);
    FlatOrbit(Pivot(e));
  }

  lemma UnitPivot()
    ensures Pivot([1.0, 0.0, 0.0, 1.0, 0.0, 0.0]) == V3(1.0, 0.0, 0.0)
  {
  }

  lemma FlatDegenerates(lib: Libm)
    requires Exact(lib)
    ensures !NonDegenerate(lib, Transpose(Block(FromRot3(FLAT)))) && Shift(FromRot3(FLAT)) == ZERO
  {
    hide Exact;
    hide NonDegenerate;
    RotationIsAffine(FLAT);
    FlatFrame(lib);
  }

  /** A concrete view and model that fail it: with a zero block the event that should do nothing moves
      the eye from the origin to the centre of the model. */
  lemma FlatViewJumps(lib: Libm, sens: real)
    requires Exact(lib)
    ensures !NonDegenerate(lib, Transpose(Block(FromRot3(FLAT)))) && Shift(FromRot3(FLAT)) == ZERO
    ensures Shift(NewAffine(lib, FromRot3(FLAT), [1.0, 0.0, 0.0, 1.0, 0.0, 0.0], STILL, sens)) == V3(1.0, 0.0, 0.0)
  {
    hide Exact;
    hide NonDegenerate;
    hide Pivot;
    hide NewAffine;
    hide Shift;
    hide FromRot3;
    FlatDegenerates(lib);
    FlatShift(lib, [1.0, 0.0, 0.0, 1.0, 0.0, 0.0], sens);
    UnitPivot();
  }
}
