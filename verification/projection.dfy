/** The calibrated pinhole-camera transform of common/utils.py, stated as
    functions on values: the combined 4x3 camera matrix, the projection of
    one world point to integer pixel coordinates, the projection of a
    sequence of points, and the frame-major assembly of per-joint
    projections. Float64 arithmetic is modelled by exact reals. */
module Projection {
  import opened Matrices

  /** Calibration of one camera: world-to-camera rotation (3x3), translation
      (3) and intrinsic matrix (3x3), all in numpy's row-vector convention. */
  datatype Camera = Camera(
    rotationMatrix: seq<seq<real>>,
    translationVector: seq<real>,
    intrinsicMatrix: seq<seq<real>>)
  {
    predicate Valid()
    {
      IsMatrix(rotationMatrix, 3, 3) && |translationVector| == 3 && IsMatrix(intrinsicMatrix, 3, 3)
    }
  }

  /** A pixel position as stored in numpy's integer output array. */
  datatype ImagePoint = ImagePoint(u: int, v: int)

  /** The combined camera matrix: the rotation with the translation stacked
      under it as a fourth row, right-multiplied by the intrinsic matrix. */
  function CameraMatrix(c: Camera): (m: seq<seq<real>>)
    requires c.Valid()
    ensures IsMatrix(m, 4, 3)
  {
    MatMul(c.rotationMatrix + [c.translationVector], c.intrinsicMatrix, 3)
  }

  /** The camera matrix is 4x3; its first three rows are the rotation's rows
      mapped through the intrinsic matrix, and its last row is the
      translation mapped the same way. */
  lemma CameraMatrixRows(c: Camera)
    requires c.Valid()
    ensures IsMatrix(CameraMatrix(c), 4, 3)
    ensures forall i :: 0 <= i < 3 ==> CameraMatrix(c)[i] == VecMat(c.rotationMatrix[i], c.intrinsicMatrix, 3)
    ensures CameraMatrix(c)[3] == VecMat(c.translationVector, c.intrinsicMatrix, 3)
  {
  }

  /** `[p, 1] . M`: the homogeneous world point times the camera matrix. */
  function ProjectiveResult(c: Camera, p: seq<real>): (r: seq<real>)
    requires c.Valid() && |p| == 3
    ensures |r| == 3
  {
    VecMat(p + [1.0], CameraMatrix(c), 3)
  }

  /** The projective depth `r2`, the divisor of both pixel coordinates. */
  function Depth(c: Camera, p: seq<real>): real
    requires c.Valid() && |p| == 3
  {
    ProjectiveResult(c, p)[2]
  }

  /** The point `p` in the camera's frame: rotated, then translated. */
  function CameraSpacePoint(c: Camera, p: seq<real>): (q: seq<real>)
    requires c.Valid() && |p| == 3
    ensures |q| == 3
  {
    Add(VecMat(p, c.rotationMatrix, 3), c.translationVector)
  }

  /** The combined camera matrix factors the transform into its two stages:
      world to camera frame (extrinsics), then camera frame to pixels
      (intrinsics). */
  lemma ProjectiveResultFactors(c: Camera, p: seq<real>)
    requires c.Valid() && |p| == 3
    ensures ProjectiveResult(c, p) == VecMat(CameraSpacePoint(c, p), c.intrinsicMatrix, 3)
  {
    VecMatHomogeneous(p, c.rotationMatrix, c.translationVector);
    VecMatMatMul(p + [1.0], c.rotationMatrix + [c.translationVector], c.intrinsicMatrix, 3, 3);
  }

  /** `n` is `x` with its fractional part dropped, rounding toward zero. */
  predicate IsTruncation(x: real, n: int)
  {
    (0.0 <= x ==> 0 <= n && n as real <= x < n as real + 1.0) &&
    (x < 0.0 ==> n <= 0 && n as real - 1.0 < x <= n as real)
  }

  /** The conversion of a float to an integer on storing it in an int array:
      the fractional part is dropped, rounding toward zero. */
  function TruncateTowardZero(x: real): (n: int)
    ensures IsTruncation(x, n)
  {
    if x >= 0.0 then x.Floor else -((-x).Floor)
  }

  /** Projection of one world point with nonzero depth: with `r` the point in
      the camera frame mapped through the intrinsic matrix, the pixel is
      `(trunc(r0 / r2), trunc(r1 / r2))`. */
  function ProjectPoint(c: Camera, p: seq<real>): (pt: ImagePoint)
    requires c.Valid() && |p| == 3 && Depth(c, p) != 0.0
    ensures IsTruncation(ProjectiveResult(c, p)[0] / Depth(c, p), pt.u)
    ensures IsTruncation(ProjectiveResult(c, p)[1] / Depth(c, p), pt.v)
  {
    var r := ProjectiveResult(c, p);
    ImagePoint(TruncateTowardZero(r[0] / r[2]), TruncateTowardZero(r[1] / r[2]))
  }

  /** The pinhole model stage by stage: with `r` the point moved into the
      camera frame and then mapped through the intrinsic matrix, the pixel is
      `(trunc(r0 / r2), trunc(r1 / r2))`, and `r2` is the depth. */
  lemma ProjectPointPinhole(c: Camera, p: seq<real>)
    requires c.Valid() && |p| == 3 && Depth(c, p) != 0.0
    ensures var r := VecMat(CameraSpacePoint(c, p), c.intrinsicMatrix, 3);
            r[2] == Depth(c, p) &&
            ProjectPoint(c, p) == ImagePoint(TruncateTowardZero(r[0] / r[2]), TruncateTowardZero(r[1] / r[2]))
  {
    ProjectiveResultFactors(c, p);
  }

  /** Every point has three coordinates and nonzero depth under `c`. */
  predicate ValidWorldPoints(c: Camera, points: seq<seq<real>>)
  {
    c.Valid() && forall i :: 0 <= i < |points| ==> |points[i]| == 3 && Depth(c, points[i]) != 0.0
  }

  /** Projection of a sequence of world points, one image point per world point. */
  function ProjectAll(c: Camera, points: seq<seq<real>>): (image: seq<ImagePoint>)
    requires ValidWorldPoints(c, points)
    ensures |image| == |points|
    decreases |points|
  {
    if |points| == 0 then [] else [ProjectPoint(c, points[0])] + ProjectAll(c, points[1..])
  }

  /** Pointwise: image point `i` is the projection of world point `i`. */
  lemma {:induction false} ProjectAllAt(c: Camera, points: seq<seq<real>>, i: nat)
    requires ValidWorldPoints(c, points) && i < |points|
    ensures ProjectAll(c, points)[i] == ProjectPoint(c, points[i])
  {
    if i > 0 {
      ProjectAllAt(c, points[1..], i - 1);
    }
  }

  /** Order preservation: projecting a concatenation concatenates the projections. */
  lemma {:induction false} ProjectAllAppend(c: Camera, a: seq<seq<real>>, b: seq<seq<real>>)
    requires ValidWorldPoints(c, a) && ValidWorldPoints(c, b)
    ensures ValidWorldPoints(c, a + b)
    ensures ProjectAll(c, a + b) == ProjectAll(c, a) + ProjectAll(c, b)
  {
    ValidWorldPointsAppend(c, a, b);
    if |a| > 0 {
      assert (a + b)[1..] == a[1..] + b;
      ProjectAllAppend(c, a[1..], b);
      assert ProjectAll(c, a + b) == [ProjectPoint(c, a[0])] + ProjectAll(c, a[1..] + b);
    } else {
      assert a + b == b;
    }
  }

  /** Two sequences of projectable points concatenate to one. */
  lemma ValidWorldPointsAppend(c: Camera, a: seq<seq<real>>, b: seq<seq<real>>)
    requires ValidWorldPoints(c, a) && ValidWorldPoints(c, b)
    ensures ValidWorldPoints(c, a + b)
  {
  }

  /** Projecting one more point of a prefix appends that point's projection. */
  lemma ProjectAllPrefix(c: Camera, points: seq<seq<real>>, i: nat)
    requires ValidWorldPoints(c, points) && i < |points|
    ensures ValidWorldPoints(c, points[..i + 1])
    ensures ProjectAll(c, points[..i + 1]) == ProjectAll(c, points[..i]) + [ProjectPoint(c, points[i])]
  {
    assert points[..i + 1] == points[..i] + [points[i]];
    assert ProjectAll(c, [points[i]]) == [ProjectPoint(c, points[i])];
    ProjectAllAppend(c, points[..i], [points[i]]);
  }

  /** Output row `i` depends only on world point `i`: two inputs that agree
      at one position give the same image point there, whatever the rest holds. */
  lemma ProjectAllLocal(c: Camera, points: seq<seq<real>>, others: seq<seq<real>>, i: nat, j: nat)
    requires ValidWorldPoints(c, points) && ValidWorldPoints(c, others)
    requires i < |points| && j < |others| && points[i] == others[j]
    ensures ProjectAll(c, points)[i] == ProjectAll(c, others)[j]
  {
    ProjectAllAt(c, points, i);
    ProjectAllAt(c, others, j);
  }

  /** The camera with identity rotation, zero translation and identity intrinsics. */
  function IdentityCamera(): (c: Camera)
    ensures c.Valid()
  {
    Camera(Identity(3), Zeros(3), Identity(3))
  }

  /** With the identity camera, `(x, y, z)` with `z != 0` has depth `z` and
      projects to `(trunc(x / z), trunc(y / z))`. */
  lemma IdentityCameraProjection(p: seq<real>)
    requires |p| == 3 && p[2] != 0.0
    ensures Depth(IdentityCamera(), p) == p[2]
    ensures ProjectPoint(IdentityCamera(), p) == ImagePoint(TruncateTowardZero(p[0] / p[2]), TruncateTowardZero(p[1] / p[2]))
  {
    var c := IdentityCamera();
    VecMatIdentity(p);
    assert CameraSpacePoint(c, p) == p;
    VecMatIdentity(CameraSpacePoint(c, p));
    ProjectiveResultFactors(c, p);
  }

  // ---------------------------------------------------------------------
  // Per-joint projection of a frames x joints x 3 marker array

  /** `markers` is a frames x `joints` x 3 array of world positions. */
  predicate IsMarkers(markers: seq<seq<seq<real>>>, joints: nat)
  {
    forall f :: 0 <= f < |markers| ==>
      |markers[f]| == joints && forall j :: 0 <= j < joints ==> |markers[f][j]| == 3
  }

  /** Every marker has nonzero depth under `c`. */
  predicate ValidMarkers(c: Camera, markers: seq<seq<seq<real>>>, joints: nat)
  {
    c.Valid() && IsMarkers(markers, joints) &&
    forall f, j :: 0 <= f < |markers| && 0 <= j < joints ==> Depth(c, markers[f][j]) != 0.0
  }

  /** The trajectory of joint `j`: its position in every frame, in frame order. */
  function JointTrajectory(markers: seq<seq<seq<real>>>, joints: nat, j: nat): (t: seq<seq<real>>)
    requires IsMarkers(markers, joints) && j < joints
    ensures |t| == |markers|
  {
    seq(|markers|, f requires 0 <= f < |markers| => markers[f][j])
  }

  /** Every joint's trajectory can be projected. */
  lemma TrajectoriesValid(c: Camera, markers: seq<seq<seq<real>>>, joints: nat)
    requires ValidMarkers(c, markers, joints)
    ensures forall j :: 0 <= j < joints ==> ValidWorldPoints(c, JointTrajectory(markers, joints, j))
  {
  }

  /** Joint-major projections: entry `j` is the projection of joint `j`'s
      whole trajectory, one image point per frame. */
  function ProjectedTrajectories(c: Camera, markers: seq<seq<seq<real>>>, joints: nat): (columns: seq<seq<ImagePoint>>)
    requires ValidMarkers(c, markers, joints)
    ensures |columns| == joints
    ensures forall j :: 0 <= j < joints ==> |columns[j]| == |markers|
  {
    TrajectoriesValid(c, markers, joints);
    seq(joints, j requires 0 <= j < joints => ProjectAll(c, JointTrajectory(markers, joints, j)))
  }

  /** The image points of every joint in every frame, frame-major: entry
      `[f][j]` is frame `f` of the projection of joint `j`'s trajectory. */
  function AdaptedImagePoints(c: Camera, markers: seq<seq<seq<real>>>, joints: nat): (image: seq<seq<ImagePoint>>)
    requires ValidMarkers(c, markers, joints)
    ensures |image| == |markers|
    ensures forall f :: 0 <= f < |markers| ==> |image[f]| == joints
  {
    var columns := ProjectedTrajectories(c, markers, joints);
    seq(|markers|, f requires 0 <= f < |markers| => seq(joints, j requires 0 <= j < joints => columns[j][f]))
  }

  /** Each output entry is the projection of the marker at the same frame and joint. */
  lemma AdaptedImagePointsAt(c: Camera, markers: seq<seq<seq<real>>>, joints: nat, f: nat, j: nat)
    requires ValidMarkers(c, markers, joints) && f < |markers| && j < joints
    ensures AdaptedImagePoints(c, markers, joints)[f][j] == ProjectPoint(c, markers[f][j])
  {
    TrajectoriesValid(c, markers, joints);
    ProjectAllAt(c, JointTrajectory(markers, joints, j), f);
  }

  /** Re-indexing of the joint axis: joint `k` of the result is joint
      `selection[k]` of the input, in every frame. A permutation of the
      joints is one such selection. */
  function SelectJoints<T>(frames: seq<seq<T>>, selection: seq<nat>): (r: seq<seq<T>>)
    requires forall f, k :: 0 <= f < |frames| && 0 <= k < |selection| ==> selection[k] < |frames[f]|
    ensures |r| == |frames|
    ensures forall f :: 0 <= f < |r| ==> |r[f]| == |selection|
  {
    seq(|frames|, f requires 0 <= f < |frames| =>
      seq(|selection|, k requires 0 <= k < |selection| => frames[f][selection[k]]))
  }

  /** Joints never interact: re-indexing (for instance permuting) the joint
      axis of the markers re-indexes the output's joint axis identically and
      leaves every joint's image points unchanged. */
  lemma AdaptedCommutesWithJointSelection(c: Camera, markers: seq<seq<seq<real>>>, joints: nat, selection: seq<nat>)
    requires ValidMarkers(c, markers, joints)
    requires forall k :: 0 <= k < |selection| ==> selection[k] < joints
    ensures ValidMarkers(c, SelectJoints(markers, selection), |selection|)
    ensures AdaptedImagePoints(c, SelectJoints(markers, selection), |selection|)
         == SelectJoints(AdaptedImagePoints(c, markers, joints), selection)
  {
    var selected := SelectJoints(markers, selection);
    var lhs := AdaptedImagePoints(c, selected, |selection|);
    var rhs := SelectJoints(AdaptedImagePoints(c, markers, joints), selection);
    forall f, k | 0 <= f < |markers| && 0 <= k < |selection| ensures lhs[f][k] == rhs[f][k] {
      AdaptedImagePointsAt(c, selected, |selection|, f, k);
      AdaptedImagePointsAt(c, markers, joints, f, selection[k]);
    }
    forall f | 0 <= f < |markers| ensures lhs[f] == rhs[f] {
    }
  }
}
