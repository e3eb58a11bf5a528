/** What one motion event does to a view, in terms of the device axes alone: every angle and distance is
    written out, and no intermediate matrix is named. */
module CameraLaws {
  import opened Matrix
  import opened GramSchmidt
  import opened Camera

  /** The angle, in radians, that a rotation axis of the device stands for. */
  function Turned(axis: int, sens: real): real {
    axis as real * 0.02 * sens * 3.14159265358979323846 / 180.0
  }

  /** A row vector turned towards another. */
  function Mix(c: real, u: V3, s: real, v: V3): V3 {
    V3(c * u.x + s * v.x, c * u.y + s * v.y, c * u.z + s * v.z)
  }

  lemma NoAngle(lib: Libm, axis: int, sens: real)
    requires Exact(lib) && axis == 0
    ensures RotX(lib.cos(Turned(axis, sens)), lib.sin(Turned(axis, sens))) == ID
    ensures RotY(lib.cos(Turned(axis, sens)), lib.sin(Turned(axis, sens))) == ID
    ensures RotZ(lib.cos(Turned(axis, sens)), lib.sin(Turned(axis, sens))) == ID
  {
    assert Turned(axis, sens) == 0.0;
  }

  /** The turn of an event, with its angles written out. */
  lemma DeltaInAngles(lib: Libm, ev: Motion, sens: real)
    ensures Delta(lib, ev, sens) ==
            Mul(Mul(RotX(lib.cos(Turned(ev.rx, sens)), lib.sin(Turned(ev.rx, sens))),
                    RotY(lib.cos(Turned(ev.ry, sens)), lib.sin(Turned(ev.ry, sens)))),
                RotZ(lib.cos(Turned(-ev.rz, sens)), lib.sin(Turned(-ev.rz, sens))))
  {
    hide RotX;
    hide RotY;
    hide RotZ;
    hide Mul;
    assert Turned(ev.rx, sens) == Radians(Angle(ev.rx, sens));
    assert Turned(ev.ry, sens) == Radians(Angle(ev.ry, sens));
    assert Turned(-ev.rz, sens) == Radians(Angle(-ev.rz, sens));
  }

  lemma UnitRows(a: M3)
    ensures Apply(V3(1.0, 0.0, 0.0), a) == a.r0 && Apply(V3(0.0, 1.0, 0.0), a) == a.r1
    ensures Apply(V3(0.0, 0.0, 1.0), a) == a.r2
  {
  }

  lemma MixRows(c: real, s: real, a: M3)
    ensures Apply(V3(0.0, c, s), a) == Mix(c, a.r1, s, a.r2)
    ensures Apply(V3(c, 0.0, s), a) == Mix(c, a.r0, s, a.r2)
    ensures Apply(V3(c, s, 0.0), a) == Mix(c, a.r0, s, a.r1)
  {
  }

  lemma RowsOfX(c: real, s: real, a: M3)
    ensures Mul(RotX(c, s), a) == M3(a.r0, Mix(c, a.r1, -s, a.r2), Mix(s, a.r1, c, a.r2))
  {
    hide Apply;
    hide Mix;
    MixRows(c, -s, a);
    MixRows(s, c, a);
    UnitRows(a);
  }

  lemma RowsOfY(c: real, s: real, a: M3)
    ensures Mul(RotY(c, s), a) == M3(Mix(c, a.r0, s, a.r2), a.r1, Mix(-s, a.r0, c, a.r2))
  {
    hide Apply;
    hide Mix;
    MixRows(c, s, a);
    MixRows(-s, c, a);
    UnitRows(a);
  }

  lemma RowsOfZ(c: real, s: real, a: M3)
    ensures Mul(RotZ(c, s), a) == M3(Mix(c, a.r0, -s, a.r1), Mix(s, a.r0, c, a.r1), a.r2)
  {
    hide Apply;
    hide Mix;
    MixRows(c, -s, a);
    MixRows(s, c, a);
    UnitRows(a);
  }

  lemma DeltaAboutX(lib: Libm, ev: Motion, sens: real)
    requires Exact(lib) && ev.ry == 0 && ev.rz == 0
    ensures Delta(lib, ev, sens) == RotX(lib.cos(Turned(ev.rx, sens)), lib.sin(Turned(ev.rx, sens)))
  {
    hide RotX;
    hide RotY;
    hide RotZ;
    hide Mul;
    hide Exact;
    hide Delta;
    DeltaInAngles(lib, ev, sens);
    NoAngle(lib, ev.ry, sens);
    NoAngle(lib, -ev.rz, sens);
    MulId(ID);
    MulId(RotX(lib.cos(Turned(ev.rx, sens)), lib.sin(Turned(ev.rx, sens))));
  }

  lemma DeltaAboutY(lib: Libm, ev: Motion, sens: real)
    requires Exact(lib) && ev.rx == 0 && ev.rz == 0
    ensures Delta(lib, ev, sens) == RotY(lib.cos(Turned(ev.ry, sens)), lib.sin(Turned(ev.ry, sens)))
  {
    hide RotX;
    hide RotY;
    hide RotZ;
    hide Mul;
    hide Exact;
    hide Delta;
    DeltaInAngles(lib, ev, sens);
    NoAngle(lib, ev.rx, sens);
    NoAngle(lib, -ev.rz, sens);
    MulId(ID);
    MulId(RotY(lib.cos(Turned(ev.ry, sens)), lib.sin(Turned(ev.ry, sens))));
  }

  lemma DeltaAboutZ(lib: Libm, ev: Motion, sens: real)
    requires Exact(lib) && ev.rx == 0 && ev.ry == 0
    ensures Delta(lib, ev, sens) == RotZ(lib.cos(Turned(-ev.rz, sens)), lib.sin(Turned(-ev.rz, sens)))
  {
    hide RotX;
    hide RotY;
    hide RotZ;
    hide Mul;
    hide Exact;
    hide Delta;
    DeltaInAngles(lib, ev, sens);
    NoAngle(lib, ev.rx, sens);
    NoAngle(lib, ev.ry, sens);
    MulId(ID);
    MulId(RotZ(lib.cos(Turned(-ev.rz, sens)), lib.sin(Turned(-ev.rz, sens))));
  }

  /** An event that turns about the first device axis only keeps the view's first axis and turns the other
      two by rx * 0.02 degrees times the sensitivity, whatever the view's place and the model's. */
  lemma TurnsAboutX(lib: Libm, curr: View, e: Extents, ev: Motion, sens: real)
    requires Exact(lib) && IsAffine(curr) && Orthonormal(Block(curr)) && ev.ry == 0 && ev.rz == 0
    ensures var a, c, s := Block(curr), lib.cos(Turned(ev.rx, sens)), lib.sin(Turned(ev.rx, sens));
            Block(NewAffine(lib, curr, e, ev, sens)) == M3(a.r0, Mix(c, a.r1, -s, a.r2), Mix(s, a.r1, c, a.r2))
  {
    hide NewAffine;
    hide RotX;
    hide Delta;
    hide Mul;
    hide Orthonormal;
    hide Mix;
    hide Exact;
    RigidStep(lib, curr, e, ev, sens);
    DeltaAboutX(lib, ev, sens);
    RowsOfX(lib.cos(Turned(ev.rx, sens)), lib.sin(Turned(ev.rx, sens)), Block(curr));
  }

  /** The second device axis turns about the view's second axis. */
  lemma TurnsAboutY(lib: Libm, curr: View, e: Extents, ev: Motion, sens: real)
    requires Exact(lib) && IsAffine(curr) && Orthonormal(Block(curr)) && ev.rx == 0 && ev.rz == 0
    ensures var a, c, s := Block(curr), lib.cos(Turned(ev.ry, sens)), lib.sin(Turned(ev.ry, sens));
            Block(NewAffine(lib, curr, e, ev, sens)) == M3(Mix(c, a.r0, s, a.r2), a.r1, Mix(-s, a.r0, c, a.r2))
  {
    hide NewAffine;
    hide RotY;
    hide Delta;
    hide Mul;
    hide Orthonormal;
    hide Mix;
    hide Exact;
    RigidStep(lib, curr, e, ev, sens);
    DeltaAboutY(lib, ev, sens);
    RowsOfY(lib.cos(Turned(ev.ry, sens)), lib.sin(Turned(ev.ry, sens)), Block(curr));
  }

  /** The third device axis turns about the view's third axis, the other way round. */
  lemma TurnsAboutZ(lib: Libm, curr: View, e: Extents, ev: Motion, sens: real)
    requires Exact(lib) && IsAffine(curr) && Orthonormal(Block(curr)) && ev.rx == 0 && ev.ry == 0
    ensures var a, c, s := Block(curr), lib.cos(Turned(-ev.rz, sens)), lib.sin(Turned(-ev.rz, sens));
            Block(NewAffine(lib, curr, e, ev, sens)) == M3(Mix(c, a.r0, -s, a.r1), Mix(s, a.r0, c, a.r1), a.r2)
  {
    hide NewAffine;
    hide RotZ;
    hide Delta;
    hide Mul;
    hide Orthonormal;
    hide Mix;
    hide Exact;
    RigidStep(lib, curr, e, ev, sens);
    DeltaAboutZ(lib, ev, sens);
    RowsOfZ(lib.cos(Turned(-ev.rz, sens)), lib.sin(Turned(-ev.rz, sens)), Block(curr));
  }

  // ----- sliding -----

  lemma StillDeltaOf(lib: Libm, ev: Motion, sens: real)
    requires Exact(lib) && ev.rx == 0 && ev.ry == 0 && ev.rz == 0
    ensures Delta(lib, ev, sens) == ID
  {
    hide Euler;
    StillDelta(lib, sens);
  }

  lemma SlideTurn(lib: Libm, curr: View, ev: Motion, sens: real)
    requires Exact(lib) && NonDegenerate(lib, Transpose(Block(curr))) && ev.rx == 0 && ev.ry == 0 && ev.rz == 0
    ensures WorldDelta(lib, curr, ev, sens) == ID
  {
    hide Exact;
    hide NonDegenerate;
    hide Delta;
    hide Mul;
    hide Transpose;
    hide Orthonormalize;
    hide Orthonormal;
    StillTurn(lib, curr, sens);
    StillDeltaOf(lib, ev, sens);
    StillDelta(lib, sens);
  }

  /** Without rotation an event only slides the view. */
  lemma OnlySlides(lib: Libm, curr: View, e: Extents, ev: Motion, sens: real)
    requires Exact(lib) && NonDegenerate(lib, Transpose(Block(curr))) && ev.rx == 0 && ev.ry == 0 && ev.rz == 0
    ensures NewAffine(lib, curr, e, ev, sens) == Mul4(FromTranslationRow(Travel(ev, sens)), curr)
  {
    hide Exact;
    hide NonDegenerate;
    hide WorldDelta;
    hide AboutPivot;
    hide Mul4;
    hide Travel;
    hide FromTranslationRow;
    hide Pivot;
    SlideTurn(lib, curr, ev, sens);
    NoTurn(Pivot(e));
    MulIdentity(curr);
  }

  lemma AlongRows(x: real, y: real, z: real, a: M3)
    ensures Apply(V3(x, y, z), a) == Add(Add(Scale(x, a.r0), Scale(y, a.r1)), Scale(z, a.r2))
  {
  }

  /** An event without rotation moves the eye along the view's own axes: by -x, -y and z times 0.0005 times
      the sensitivity. The model's place does not matter, and the view is not turned. */
  lemma SlidesAlongOwnAxes(lib: Libm, curr: View, e: Extents, ev: Motion, sens: real)
    requires Exact(lib) && IsAffine(curr) && NonDegenerate(lib, Transpose(Block(curr)))
    requires ev.rx == 0 && ev.ry == 0 && ev.rz == 0
    ensures var a, next := Block(curr), NewAffine(lib, curr, e, ev, sens);
            var x, y := (-ev.x) as real * 0.0005 * sens, (-ev.y) as real * 0.0005 * sens;
            var z := ev.z as real * 0.0005 * sens;
            && IsAffine(next) && Block(next) == a
            && Shift(next) == Add(Add(Add(Scale(x, a.r0), Scale(y, a.r1)), Scale(z, a.r2)), Shift(curr))
  {
    hide Exact;
    hide NonDegenerate;
    hide NewAffine;
    hide Mul4;
    hide FromTranslationRow;
    hide Apply;
    OnlySlides(lib, curr, e, ev, sens);
    var t := Travel(ev, sens);
    TranslationIsAffine(t);
    MulAffine(FromTranslationRow(t), curr);
    MulId(Block(curr));
    AlongRows(t.x, t.y, t.z, Block(curr));
  }

  lemma IdIsOrthonormal()
    ensures Orthonormal(ID)
  {
  }

  lemma IdRows(x: real, y: real, z: real)
    ensures Add(Add(Add(Scale(x, ID.r0), Scale(y, ID.r1)), Scale(z, ID.r2)), ZERO) == V3(x, y, z)
  {
  }

  lemma IdentityIsLong(lib: Libm)
    requires Exact(lib)
    ensures IsAffine(IDENTITY) && Block(IDENTITY) == ID && Shift(IDENTITY) == ZERO
    ensures NonDegenerate(lib, Transpose(Block(IDENTITY)))
  {
    hide Exact;
    hide NonDegenerate;
    hide Orthonormal;
    RotationIsAffine(ID);
    IdIsOrthonormal();
    assert Transpose(ID) == ID;
    FixesOrthonormal(lib, ID);
  }

  /** From the identity view: the eye goes to (-x, -y, z) times 0.0005 times the sensitivity. */
  lemma SlidesFromOrigin(lib: Libm, e: Extents, ev: Motion, sens: real)
    requires Exact(lib) && ev.rx == 0 && ev.ry == 0 && ev.rz == 0
    ensures Shift(NewAffine(lib, IDENTITY, e, ev, sens)) ==
            V3((-ev.x) as real * 0.0005 * sens, (-ev.y) as real * 0.0005 * sens, ev.z as real * 0.0005 * sens)
  {
    hide Exact;
    hide NonDegenerate;
    hide NewAffine;
    hide Transpose;
    hide Block;
    hide Shift;
    hide Add;
    hide Scale;
    IdentityIsLong(lib);
    SlidesAlongOwnAxes(lib, IDENTITY, e, ev, sens);
    IdRows((-ev.x) as real * 0.0005 * sens, (-ev.y) as real * 0.0005 * sens, ev.z as real * 0.0005 * sens);
  }

  // ----- sliding and turning together -----

  /** The middle of a box given by its least and its greatest corner. */
  function Middle(e: Extents): V3 {
    V3((e[0] + e[3]) / 2.0, (e[1] + e[4]) / 2.0, (e[2] + e[5]) / 2.0)
  }

  lemma PivotIsMiddle(e: Extents)
    ensures Pivot(e) == Middle(e)
  {
  }

  lemma OrbitKeepsCentre(p: V3, r: M3)
    ensures Orbit(p, r, p) == p
  {
    hide Apply;
    assert Sub(p, p) == ZERO;
    ApplyZero(r);
    AddSub(ZERO, p);
  }

  /** What an event without travel finds in the middle of the model stays there, for every view. */
  lemma MiddleStays(lib: Libm, curr: View, e: Extents, ev: Motion, sens: real, v: V3)
    requires IsAffine(curr) && ev.x == 0 && ev.y == 0 && ev.z == 0 && Place(curr, v) == Middle(e)
    ensures Place(NewAffine(lib, curr, e, ev, sens), v) == Middle(e)
  {
    hide NewAffine;
    hide Place;
    hide Orbit;
    hide Pivot;
    hide Middle;
    hide WorldDelta;
    hide Mul4;
    OrbitsModelCentre(lib, curr, e, ev, sens, v);
    PivotIsMiddle(e);
    NoTravel(ev, sens);
    MulIdentity(curr);
    OrbitKeepsCentre(Middle(e), WorldDelta(lib, curr, ev, sens));
  }

  /** An affine view is known by its axes and where it puts one point. */
  lemma KnownByPoint(a: View, b: View, v: V3)
    requires IsAffine(a) && IsAffine(b) && Block(a) == Block(b) && Place(a, v) == Place(b, v)
    ensures a == b
  {
    hide Apply;
    AddSub(Apply(v, Block(a)), Shift(a));
    SumCancels(Apply(v, Block(a)), Shift(a), Shift(b));
    ViewFromParts(a, b);
  }

  lemma SumCancels(u: V3, v: V3, w: V3)
    requires Add(u, v) == Add(u, w)
    ensures v == w
  {
  }

  lemma SubAdd(p: V3, s: V3)
    ensures Add(Sub(p, s), s) == p
  {
  }

  /** The point that a rigid view puts at p. */
  lemma Behind(curr: View, p: V3) returns (v: V3)
    requires IsAffine(curr) && Orthonormal(Block(curr))
    ensures Place(curr, v) == p
  {
    hide Apply;
    hide Mul;
    hide Orthonormal;
    var a, d := Block(curr), Sub(p, Shift(curr));
    v := Apply(d, Transpose(a));
    TransposeOrthonormal(a);
    ApplyMul(d, Transpose(a), a);
    ApplyId(d);
    SubAdd(p, Shift(curr));
  }

  /** The same event without its rotation, and without its travel. */
  function SlideOf(ev: Motion): Motion {
    Motion(ev.x, ev.y, ev.z, 0, 0, 0)
  }

  function TurnOf(ev: Motion): Motion {
    Motion(0, 0, 0, ev.rx, ev.ry, ev.rz)
  }

  lemma SlideKeepsAxes(lib: Libm, curr: View, e: Extents, ev: Motion, sens: real)
    requires Exact(lib) && IsAffine(curr) && Orthonormal(Block(curr))
    ensures NewAffine(lib, curr, e, SlideOf(ev), sens) == Mul4(FromTranslationRow(Travel(ev, sens)), curr)
    ensures IsAffine(NewAffine(lib, curr, e, SlideOf(ev), sens))
    ensures Block(NewAffine(lib, curr, e, SlideOf(ev), sens)) == Block(curr)
  {
    hide Exact;
    hide NonDegenerate;
    hide NewAffine;
    hide Orthonormal;
    hide Mul4;
    hide FromTranslationRow;
    hide Transpose;
    hide Block;
    TransposeOrthonormal(Block(curr));
    FixesOrthonormal(lib, Transpose(Block(curr)));
    OnlySlides(lib, curr, e, SlideOf(ev), sens);
    SlidesAlongOwnAxes(lib, curr, e, SlideOf(ev), sens);
    assert Travel(SlideOf(ev), sens) == Travel(ev, sens);
  }

  /** An event that travels and turns is its travel followed by its turn. */
  lemma SlideThenTurn(lib: Libm, curr: View, e: Extents, ev: Motion, sens: real)
    requires Exact(lib) && IsAffine(curr) && Orthonormal(Block(curr))
    ensures NewAffine(lib, curr, e, ev, sens) ==
            NewAffine(lib, NewAffine(lib, curr, e, SlideOf(ev), sens), e, TurnOf(ev), sens)
  {
    hide Exact;
    hide NewAffine;
    hide Orthonormal;
    hide Mul4;
    hide FromTranslationRow;
    hide Mul;
    hide Block;
    hide Delta;
    hide Place;
    hide Orbit;
    hide Pivot;
    hide Middle;
    hide WorldDelta;
    SlideKeepsAxes(lib, curr, e, ev, sens);
    var slid := NewAffine(lib, curr, e, SlideOf(ev), sens);
    var v := Behind(slid, Middle(e));
    OrbitsModelCentre(lib, curr, e, ev, sens, v);
    PivotIsMiddle(e);
    OrbitKeepsCentre(Middle(e), WorldDelta(lib, curr, ev, sens));
    MiddleStays(lib, slid, e, TurnOf(ev), sens, v);
    RigidStep(lib, curr, e, ev, sens);
    RigidStep(lib, slid, e, TurnOf(ev), sens);
    DeltaOfTurn(lib, ev, sens);
    KnownByPoint(NewAffine(lib, curr, e, ev, sens), NewAffine(lib, slid, e, TurnOf(ev), sens), v);
  }

  lemma DeltaOfTurn(lib: Libm, ev: Motion, sens: real)
    ensures Delta(lib, TurnOf(ev), sens) == Delta(lib, ev, sens)
  {
  }

  function AboutX(ev: Motion): Motion { Motion(0, 0, 0, ev.rx, 0, 0) }

  function AboutY(ev: Motion): Motion { Motion(0, 0, 0, 0, ev.ry, 0) }

  function AboutZ(ev: Motion): Motion { Motion(0, 0, 0, 0, 0, ev.rz) }

  lemma DeltaInSteps(lib: Libm, ev: Motion, sens: real)
    requires Exact(lib)
    ensures Delta(lib, ev, sens) == Mul(Mul(Delta(lib, AboutX(ev), sens), Delta(lib, AboutY(ev), sens)),
                                        Delta(lib, AboutZ(ev), sens))
  {
    hide Exact;
    hide RotX;
    hide RotY;
    hide RotZ;
    hide Mul;
    hide Delta;
    hide Turned;
    DeltaInAngles(lib, ev, sens);
    DeltaAboutX(lib, AboutX(ev), sens);
    DeltaAboutY(lib, AboutY(ev), sens);
    DeltaAboutZ(lib, AboutZ(ev), sens);
  }

  /** A turn about several axes is the turn about the third, then the second, then the first. */
  lemma TurnInSteps(lib: Libm, curr: View, e: Extents, ev: Motion, sens: real)
    requires Exact(lib) && IsAffine(curr) && Orthonormal(Block(curr))
    ensures var z := NewAffine(lib, curr, e, AboutZ(ev), sens);
            var y := NewAffine(lib, z, e, AboutY(ev), sens);
            NewAffine(lib, curr, e, TurnOf(ev), sens) == NewAffine(lib, y, e, AboutX(ev), sens)
  {
    hide Exact;
    hide NewAffine;
    hide Orthonormal;
    hide Mul;
    hide Block;
    hide Delta;
    hide Place;
    hide Middle;
    var v := Behind(curr, Middle(e));
    var z := NewAffine(lib, curr, e, AboutZ(ev), sens);
    RigidStep(lib, curr, e, AboutZ(ev), sens);
    MiddleStays(lib, curr, e, AboutZ(ev), sens, v);
    var y := NewAffine(lib, z, e, AboutY(ev), sens);
    RigidStep(lib, z, e, AboutY(ev), sens);
    MiddleStays(lib, z, e, AboutY(ev), sens, v);
    RigidStep(lib, y, e, AboutX(ev), sens);
    MiddleStays(lib, y, e, AboutX(ev), sens, v);
    RigidStep(lib, curr, e, TurnOf(ev), sens);
    MiddleStays(lib, curr, e, TurnOf(ev), sens, v);
    DeltaOfTurn(lib, ev, sens);
    DeltaInSteps(lib, ev, sens);
    var dx, dy, dz := Delta(lib, AboutX(ev), sens), Delta(lib, AboutY(ev), sens), Delta(lib, AboutZ(ev), sens);
    MulAssoc(Mul(dx, dy), dz, Block(curr));
    MulAssoc(dx, dy, Mul(dz, Block(curr)));
    KnownByPoint(NewAffine(lib, curr, e, TurnOf(ev), sens), NewAffine(lib, y, e, AboutX(ev), sens), v);
  }

  /** Any event, in the single steps that the laws above describe: travel, then the turn about the third
      axis, the second and the first. */
  lemma EventInSteps(lib: Libm, curr: View, e: Extents, ev: Motion, sens: real)
    requires Exact(lib) && IsAffine(curr) && Orthonormal(Block(curr))
    ensures var slid := NewAffine(lib, curr, e, SlideOf(ev), sens);
            var z := NewAffine(lib, slid, e, AboutZ(ev), sens);
            var y := NewAffine(lib, z, e, AboutY(ev), sens);
            NewAffine(lib, curr, e, ev, sens) == NewAffine(lib, y, e, AboutX(ev), sens)
  {
    hide NewAffine;
    hide Exact;
    hide Orthonormal;
    hide Block;
    SlideThenTurn(lib, curr, e, ev, sens);
    SlideKeepsAxes(lib, curr, e, ev, sens);
    TurnInSteps(lib, NewAffine(lib, curr, e, SlideOf(ev), sens), e, ev, sens);
  }

  // ----- views that are not rigid -----

  lemma SkewFrame(lib: Libm, curr: View, l: M3, q: M3)
    requires Exact(lib) && Orthonormal(q) && LowerTriangularPositive(l)
    requires l.r0.x > EPSILON && l.r1.y > EPSILON && l.r2.z > EPSILON
    requires Transpose(Block(curr)) == Mul(l, q)
    ensures NonDegenerate(lib, Transpose(Block(curr))) && CameraFrame(lib, curr) == q
  {
    RecoversFactors(lib, l, q);
  }

  /** Lengths and skews of a view's axes do not matter to the turn: a view whose columns are a positive
      triangular matrix times those of a rigid one ends up with its eye where the rigid one does. */
  lemma SkewTurnsAlike(lib: Libm, skew: View, rigid: View, l: M3, e: Extents, ev: Motion, sens: real)
    requires Exact(lib) && IsAffine(skew) && IsAffine(rigid) && Shift(skew) == Shift(rigid)
    requires Orthonormal(Block(rigid)) && LowerTriangularPositive(l)
    requires l.r0.x > 0.00000001 && l.r1.y > 0.00000001 && l.r2.z > 0.00000001
    requires Transpose(Block(skew)) == Mul(l, Transpose(Block(rigid)))
    requires ev.x == 0 && ev.y == 0 && ev.z == 0
    ensures Shift(NewAffine(lib, skew, e, ev, sens)) == Shift(NewAffine(lib, rigid, e, ev, sens))
  {
    hide Exact;
    hide NonDegenerate;
    hide NewAffine;
    hide Orthonormal;
    hide LowerTriangularPositive;
    hide Block;
    hide Mul;
    hide Transpose;
    hide Delta;
    TransposeOrthonormal(Block(rigid));
    FixesOrthonormal(lib, Transpose(Block(rigid)));
    SkewFrame(lib, skew, l, Transpose(Block(rigid)));
    EyeOrbits(lib, skew, e, ev, sens);
    EyeOrbits(lib, rigid, e, ev, sens);
  }

  lemma LongAxes(lib: Libm, k: real)
    requires Exact(lib) && k > EPSILON
    ensures NonDegenerate(lib, ScaleM(k, ID))
  {
    hide Exact;
    hide NonDegenerate;
    hide Orthonormal;
    hide Mul;
    hide Factor;
    hide Orthonormalize;
    MulId(ScaleM(k, ID));
    IdIsOrthonormal();
    assert ScaleM(k, ID) == M3(V3(k, 0.0, 0.0), V3(0.0, k, 0.0), V3(0.0, 0.0, k));
    RecoversFactors(lib, ScaleM(k, ID), ID);
  }

  lemma AxisLength(lib: Libm, k: real)
    requires Exact(lib) && k > 0.0
    ensures Norm(lib, ScaleM(k, ID).r0) == k
  {
    hide Exact;
    var v := V3(k, 0.0, 0.0);
    assert ScaleM(k, ID).r0 == v;
    assert Dot(v, v) == k * k;
    SameSquare(lib, k, Dot(v, v), k);
  }

  lemma UniformFrame(lib: Libm, k: real)
    requires Exact(lib) && k > 0.0
    ensures NonDegenerate(lib, ScaleM(k, ID)) <==> k > 0.00000001
  {
    hide Exact;
    hide Residue1;
    hide Residue2;
    hide Norm;
    hide ScaleM;
    AxisLength(lib, k);
    if k > EPSILON {
      LongAxes(lib, k);
    }
  }

  /** The length below which an axis counts as none: a view with axes of length k is left alone by the event
      that does nothing exactly when k is more than a hundred-millionth. */
  lemma ShortAxes(lib: Libm, curr: View, k: real, sens: real)
    requires Exact(lib) && IsAffine(curr) && k > 0.0 && Block(curr) == ScaleM(k, ID)
    ensures k > 0.00000001 <==> forall e: Extents :: NewAffine(lib, curr, e, STILL, sens) == curr
  {
    hide Exact;
    hide NonDegenerate;
    hide NewAffine;
    hide Block;
    assert Transpose(ScaleM(k, ID)) == ScaleM(k, ID);
    UniformFrame(lib, k);
    StillEventIff(lib, curr, sens);
  }
}
