/** The matrix routines as the daemon runs them, on flat arrays in row-major order. */
module MatrixCode {
  import opened Matrix
  import opened GramSchmidt
  import opened Camera

  function Rows(s: seq<real>): M3
    requires |s| == 9
  {
    M3(V3(s[0], s[1], s[2]), V3(s[3], s[4], s[5]), V3(s[6], s[7], s[8]))
  }

  function RowAt(s: seq<real>, at: nat): V3
    requires at + 3 <= |s|
  {
    V3(s[at], s[at + 1], s[at + 2])
  }

  method Mat4Identity(m: array<real>)
    requires m.Length == 16
    modifies m
    ensures m[..] == IDENTITY
  {
    forall i | 0 <= i < 16 { m[i] := 0.0; }
    m[0], m[5], m[10], m[15] := 1.0, 1.0, 1.0, 1.0;
  }

  /** The output may be one of the inputs. */
  method Mat4Mul(out: array<real>, a: array<real>, b: array<real>)
    requires out.Length == 16 && a.Length == 16 && b.Length == 16
    modifies out
    ensures out[..] == Mul4(old(a[..]), old(b[..]))
  {
    var res := new real[16];
    ghost var x: View, y: View := a[..], b[..];
    for i := 0 to 4
      invariant a[..] == x && b[..] == y
      invariant forall n :: 0 <= n < 4 * i ==> res[n] == Entry(x, y, n / 4, n % 4)
    {
      for j := 0 to 4
        invariant a[..] == x && b[..] == y
        invariant forall n :: 0 <= n < 4 * i + j ==> res[n] == Entry(x, y, n / 4, n % 4)
      {
        var sum := 0.0;
        for k := 0 to 4
          invariant sum == Partial4(x, y, i, j, k)
        {
          sum := sum + a[i * 4 + k] * b[k * 4 + j];
        }
        AllFour(x, y, i, j);
        res[i * 4 + j] := sum;
        assert (4 * i + j) / 4 == i && (4 * i + j) % 4 == j;
      }
    }
    forall n | 0 <= n < 16 { out[n] := res[n]; }
  }

  /** The first k products of an entry, added in the order of the loop. */
  function Partial4(a: View, b: View, i: nat, j: nat, k: nat): real
    requires i < 4 && j < 4 && k <= 4
  {
    if k == 0 then 0.0 else Partial4(a, b, i, j, k - 1) + a[i * 4 + (k - 1)] * b[(k - 1) * 4 + j]
  }

  lemma AllFour(a: View, b: View, i: nat, j: nat)
    requires i < 4 && j < 4
    ensures Partial4(a, b, i, j, 4) == Entry(a, b, i, j)
  {
    assert Partial4(a, b, i, j, 1) == a[i * 4] * b[j];
    assert Partial4(a, b, i, j, 2) == a[i * 4] * b[j] + a[i * 4 + 1] * b[4 + j];
  }

  function Entry3(a: seq<real>, b: seq<real>, i: nat, j: nat): real
    requires |a| == 9 && |b| == 9 && i < 3 && j < 3
  {
    a[3 * i] * b[j] + a[3 * i + 1] * b[3 + j] + a[3 * i + 2] * b[6 + j]
  }

  function Partial3(a: seq<real>, b: seq<real>, i: nat, j: nat, k: nat): real
    requires |a| == 9 && |b| == 9 && i < 3 && j < 3 && k <= 3
  {
    if k == 0 then 0.0 else Partial3(a, b, i, j, k - 1) + a[i * 3 + (k - 1)] * b[(k - 1) * 3 + j]
  }

  lemma AllThree(a: seq<real>, b: seq<real>, i: nat, j: nat)
    requires |a| == 9 && |b| == 9 && i < 3 && j < 3
    ensures Partial3(a, b, i, j, 3) == Entry3(a, b, i, j)
  {
    assert Partial3(a, b, i, j, 1) == a[i * 3] * b[j];
  }

  method Mat3Mul(out: array<real>, a: array<real>, b: array<real>)
    requires out.Length == 9 && a.Length == 9 && b.Length == 9
    modifies out
    ensures Rows(out[..]) == Mul(Rows(old(a[..])), Rows(old(b[..])))
  {
    var res := new real[9];
    ghost var x, y := a[..], b[..];
    for i := 0 to 3
      invariant a[..] == x && b[..] == y
      invariant forall n :: 0 <= n < 3 * i ==> res[n] == Entry3(x, y, n / 3, n % 3)
    {
      for j := 0 to 3
        invariant a[..] == x && b[..] == y
        invariant forall n :: 0 <= n < 3 * i + j ==> res[n] == Entry3(x, y, n / 3, n % 3)
      {
        var sum := 0.0;
        for k := 0 to 3
          invariant sum == Partial3(x, y, i, j, k)
        {
          sum := sum + a[i * 3 + k] * b[k * 3 + j];
        }
        AllThree(x, y, i, j);
        res[i * 3 + j] := sum;
        assert (3 * i + j) / 3 == i && (3 * i + j) % 3 == j;
      }
    }
    forall n | 0 <= n < 9 { out[n] := res[n]; }
    EntriesAreProduct(out[..], x, y);
  }

  lemma EntryRow(a: seq<real>, b: seq<real>, i: nat)
    requires |a| == 9 && |b| == 9 && i < 3
    ensures V3(Entry3(a, b, i, 0), Entry3(a, b, i, 1), Entry3(a, b, i, 2)) == Apply(RowAt(a, 3 * i), Rows(b))
  {
  }

  lemma EntriesAreProduct(r: seq<real>, a: seq<real>, b: seq<real>)
    requires |r| == 9 && |a| == 9 && |b| == 9
    requires forall n :: 0 <= n < 9 ==> r[n] == Entry3(a, b, n / 3, n % 3)
    ensures Rows(r) == Mul(Rows(a), Rows(b))
  {
    hide Apply;
    EntryRow(a, b, 0);
    EntryRow(a, b, 1);
    EntryRow(a, b, 2);
  }

  method Mat3Transpose(out: array<real>, a: array<real>)
    requires out.Length == 9 && a.Length == 9
    modifies out
    ensures Rows(out[..]) == Transpose(Rows(old(a[..])))
  {
    var res := new real[9];
    ghost var x := a[..];
    for i := 0 to 3
      invariant a[..] == x
      invariant forall n :: 0 <= n < 3 * i ==> res[n] == x[(n % 3) * 3 + n / 3]
    {
      for j := 0 to 3
        invariant a[..] == x
        invariant forall n :: 0 <= n < 3 * i + j ==> res[n] == x[(n % 3) * 3 + n / 3]
      {
        res[i * 3 + j] := a[j * 3 + i];
        assert (3 * i + j) / 3 == i && (3 * i + j) % 3 == j;
      }
    }
    forall n | 0 <= n < 9 { out[n] := res[n]; }
  }

  method VDot(r: array<real>, a: nat, b: nat) returns (d: real)
    requires a + 3 <= r.Length && b + 3 <= r.Length
    ensures d == Dot(RowAt(r[..], a), RowAt(r[..], b))
  {
    d := r[a] * r[b] + r[a + 1] * r[b + 1] + r[a + 2] * r[b + 2];
  }

  /** Divides the three numbers at `at` by their length, unless that is too short. */
  method VNormalize(lib: Libm, r: array<real>, at: nat)
    requires at + 3 <= r.Length
    modifies r
    ensures RowAt(r[..], at) == Normalize(lib, old(RowAt(r[..], at)))
    ensures forall k :: 0 <= k < r.Length && !(at <= k < at + 3) ==> r[k] == old(r[k])
  {
    var d := VDot(r, at, at);
    var len := lib.sqrt(d);
    if len > EPSILON {
      r[at] := r[at] / len;
      r[at + 1] := r[at + 1] / len;
      r[at + 2] := r[at + 2] / len;
    }
  }

  /** Takes the component along row `u` out of row `v`. */
  method Subtract(r: array<real>, v: nat, u: nat)
    requires v + 3 <= r.Length && u + 3 <= r.Length && (u + 3 <= v || v + 3 <= u)
    modifies r
    ensures RowAt(r[..], v) == Reject(old(RowAt(r[..], v)), old(RowAt(r[..], u)))
    ensures forall k :: 0 <= k < r.Length && !(v <= k < v + 3) ==> r[k] == old(r[k])
  {
    var d := VDot(r, v, u);
    r[v] := r[v] - d * r[u];
    r[v + 1] := r[v + 1] - d * r[u + 1];
    r[v + 2] := r[v + 2] - d * r[u + 2];
  }

  method GramSchmidt3(lib: Libm, r: array<real>)
    requires r.Length == 9
    modifies r
    ensures Rows(r[..]) == Orthonormalize(lib, Rows(old(r[..])))
  {
    ghost var m := Rows(r[..]);
    VNormalize(lib, r, 0);
    assert RowAt(r[..], 0) == Normalize(lib, m.r0) && RowAt(r[..], 3) == m.r1 && RowAt(r[..], 6) == m.r2;
    Subtract(r, 3, 0);
    assert RowAt(r[..], 0) == Normalize(lib, m.r0) && RowAt(r[..], 3) == Residue1(lib, m) && RowAt(r[..], 6) == m.r2;
    VNormalize(lib, r, 3);
    ghost var q0, q1 := Normalize(lib, m.r0), Normalize(lib, Residue1(lib, m));
    assert RowAt(r[..], 0) == q0 && RowAt(r[..], 3) == q1 && RowAt(r[..], 6) == m.r2;
    Subtract(r, 6, 0);
    assert RowAt(r[..], 0) == q0 && RowAt(r[..], 3) == q1 && RowAt(r[..], 6) == Reject(m.r2, q0);
    Subtract(r, 6, 3);
    assert RowAt(r[..], 0) == q0 && RowAt(r[..], 3) == q1 && RowAt(r[..], 6) == Residue2(lib, m);
    VNormalize(lib, r, 6);
    assert RowAt(r[..], 0) == q0 && RowAt(r[..], 3) == q1;
    assert Rows(r[..]) == M3(RowAt(r[..], 0), RowAt(r[..], 3), RowAt(r[..], 6));
  }

  method ExtractOrthonormalRotation(lib: Libm, r: array<real>, affine: array<real>)
    requires r.Length == 9 && affine.Length == 16 && r != affine
    modifies r
    ensures Rows(r[..]) == CameraFrame(lib, affine[..])
  {
    ghost var x := affine[..];
    for i := 0 to 3
      invariant affine[..] == x
      invariant forall n :: 0 <= n < 3 * i ==> r[n] == x[(n % 3) * 4 + n / 3]
    {
      for j := 0 to 3
        invariant affine[..] == x
        invariant forall n :: 0 <= n < 3 * i + j ==> r[n] == x[(n % 3) * 4 + n / 3]
      {
        r[i * 3 + j] := affine[j * 4 + i];
        assert (3 * i + j) / 3 == i && (3 * i + j) % 3 == j;
      }
    }
    assert Rows(r[..]) == Transpose(Block(x));
    GramSchmidt3(lib, r);
  }

  method FillRows(r: array<real>, m: M3)
    requires r.Length == 9
    modifies r
    ensures Rows(r[..]) == m
  {
    r[0], r[1], r[2] := m.r0.x, m.r0.y, m.r0.z;
    r[3], r[4], r[5] := m.r1.x, m.r1.y, m.r1.z;
    r[6], r[7], r[8] := m.r2.x, m.r2.y, m.r2.z;
  }

  method AxisTurns(lib: Libm, a: real, b: real, c: real)
    returns (rx: array<real>, ry: array<real>, rz: array<real>)
    ensures fresh(rx) && fresh(ry) && fresh(rz) && rx.Length == ry.Length == rz.Length == 9
    ensures Rows(rx[..]) == RotX(lib.cos(a), lib.sin(a))
    ensures Rows(ry[..]) == RotY(lib.cos(b), lib.sin(b))
    ensures Rows(rz[..]) == RotZ(lib.cos(c), lib.sin(c))
  {
    rx, ry, rz := new real[9], new real[9], new real[9];
    FillRows(rx, RotX(lib.cos(a), lib.sin(a)));
    FillRows(ry, RotY(lib.cos(b), lib.sin(b)));
    FillRows(rz, RotZ(lib.cos(c), lib.sin(c)));
  }

  method Mat3MulThree(out: array<real>, a: array<real>, b: array<real>, c: array<real>)
    requires out.Length == 9 && a.Length == 9 && b.Length == 9 && c.Length == 9
    modifies out
    ensures Rows(out[..]) == Mul(Mul(Rows(old(a[..])), Rows(old(b[..]))), Rows(old(c[..])))
  {
    var tmp := new real[9];
    Mat3Mul(tmp, a, b);
    Mat3Mul(out, tmp, c);
  }

  method FromEulerXyzDeg(lib: Libm, r: array<real>, ax: real, ay: real, az: real)
    requires r.Length == 9
    modifies r
    ensures Rows(r[..]) == Euler(lib, ax, ay, az)
  {
    var rx, ry, rz := AxisTurns(lib, Radians(ax), Radians(ay), Radians(az));
    Mat3MulThree(r, rx, ry, rz);
  }

  /** Copies one row of the block. */
  method CopyRow(out: array<real>, r: array<real>, i: nat)
    requires out.Length == 16 && r.Length == 9 && out != r && i < 3
    modifies out
    ensures RowAt(out[..], 4 * i) == RowAt(r[..], 3 * i)
    ensures forall n :: 0 <= n < 16 && !(4 * i <= n < 4 * i + 3) ==> out[n] == old(out[n])
  {
    for j := 0 to 3
      invariant j > 0 ==> out[4 * i] == r[3 * i]
      invariant j > 1 ==> out[4 * i + 1] == r[3 * i + 1]
      invariant j > 2 ==> out[4 * i + 2] == r[3 * i + 2]
      invariant forall n :: 0 <= n < 16 && !(4 * i <= n < 4 * i + j) ==> out[n] == old(out[n])
    {
      out[i * 4 + j] := r[i * 3 + j];
    }
  }

  lemma RotRows(s: seq<real>, x: seq<real>)
    requires |s| == 16 && |x| == 9 && s[12..] == IDENTITY[12..]
    requires s[3] == 0.0 && s[7] == 0.0 && s[11] == 0.0
    requires RowAt(s, 0) == RowAt(x, 0) && RowAt(s, 4) == RowAt(x, 3) && RowAt(s, 8) == RowAt(x, 6)
    ensures s == FromRot3(Rows(x))
  {
    assert forall n :: 12 <= n < 16 ==> s[n] == s[12..][n - 12];
  }

  method Mat4FromRot3(out: array<real>, r: array<real>)
    requires out.Length == 16 && r.Length == 9
    requires out != r
    modifies out
    ensures out[..] == FromRot3(Rows(r[..]))
  {
    Mat4Identity(out);
    ghost var x := r[..];
    for i := 0 to 3
      invariant r[..] == x && out[12..] == IDENTITY[12..] && out[3] == 0.0 && out[7] == 0.0 && out[11] == 0.0
      invariant i > 0 ==> RowAt(out[..], 0) == RowAt(x, 0)
      invariant i > 1 ==> RowAt(out[..], 4) == RowAt(x, 3)
      invariant i > 2 ==> RowAt(out[..], 8) == RowAt(x, 6)
    {
      CopyRow(out, r, i);
    }
    RotRows(out[..], x);
  }

  method Mat4FromTranslationRow(out: array<real>, t: V3)
    requires out.Length == 16
    modifies out
    ensures out[..] == FromTranslationRow(t)
  {
    Mat4Identity(out);
    out[12], out[13], out[14] := t.x, t.y, t.z;
  }

  /** The rotation part, in world axes. */
  method ComputeWorldDelta(lib: Libm, rWorld: array<real>, curr: array<real>, ev: Motion, sens: real)
    requires rWorld.Length == 9 && curr.Length == 16
    modifies rWorld
    ensures Rows(rWorld[..]) == WorldDelta(lib, old(curr[..]), ev, sens)
  {
    hide Mul;
    hide Euler;
    hide CameraFrame;
    hide Transpose;
    var rCam, rCamT, rDelta := new real[9], new real[9], new real[9];
    ExtractOrthonormalRotation(lib, rCam, curr);
    FromEulerXyzDeg(lib, rDelta, Angle(ev.rx, sens), Angle(ev.ry, sens), Angle(-ev.rz, sens));
    Mat3Transpose(rCamT, rCam);
    Mat3MulThree(rWorld, rCam, rDelta, rCamT);
  }

  method ComputeAboutPivot(out: array<real>, pivot: V3, rot: array<real>)
    requires out.Length == 16 && rot.Length == 9
    modifies out
    ensures out[..] == AboutPivot(pivot, Rows(old(rot[..])))
  {
    var rotDelta, pivotPos, pivotNeg, tmp := new real[16], new real[16], new real[16], new real[16];
    Mat4FromRot3(rotDelta, rot);
    Mat4FromTranslationRow(pivotPos, pivot);
    Mat4FromTranslationRow(pivotNeg, V3(-pivot.x, -pivot.y, -pivot.z));
    assert V3(-pivot.x, -pivot.y, -pivot.z) == Scale(-1.0, pivot);
    Mat4Mul(tmp, pivotNeg, rotDelta);
    Mat4Mul(out, tmp, pivotPos);
  }

  /** One motion event, computed into `next`. */
  method ComputeNewAffine(lib: Libm, next: array<real>, curr: array<real>, extents: array<real>, ev: Motion, sens: real)
    requires next.Length == 16 && curr.Length == 16 && extents.Length == 6
    requires next != curr && next != extents
    modifies next
    ensures next[..] == NewAffine(lib, curr[..], extents[..], ev, sens)
  {
    hide Mul4;
    hide WorldDelta;
    hide AboutPivot;
    hide FromTranslationRow;
    var rWorld := new real[9];
    ComputeWorldDelta(lib, rWorld, curr, ev, sens);
    var pivot := V3((extents[0] + extents[3]) * 0.5, (extents[1] + extents[4]) * 0.5, (extents[2] + extents[5]) * 0.5);
    assert pivot == Pivot(extents[..]);
    var transDelta, turn, tmp := new real[16], new real[16], new real[16];
    Mat4FromTranslationRow(transDelta, V3(Slide(-ev.x, sens), Slide(-ev.y, sens), Slide(ev.z, sens)));
    ComputeAboutPivot(turn, pivot, rWorld);
    Mat4Mul(tmp, curr, turn);
    Mat4Mul(next, transDelta, tmp);
  }
}
