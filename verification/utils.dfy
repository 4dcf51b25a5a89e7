/** The two array-filling routines of common/utils.py: projecting an N x 3
    array of world points into a freshly allocated N x 2 integer array, row
    by row, and projecting a frames x joints x 3 marker array into a frames x
    joints x 2 integer array, one joint column at a time. Each is proved to
    produce exactly the values that the functions of module Projection
    specify. */
module Utils {
  import opened Matrices
  import opened Projection

  /** The rows of an N x 3 array of world points, as values. */
  ghost function WorldPointsOf(worldPoints: array2<real>): (points: seq<seq<real>>)
    requires worldPoints.Length1 == 3
    reads worldPoints
  {
    seq(worldPoints.Length0, i requires 0 <= i < worldPoints.Length0 reads worldPoints =>
      [worldPoints[i, 0], worldPoints[i, 1], worldPoints[i, 2]])
  }

  /** The rows of an N x 2 integer array, as image points. */
  ghost function ImagePointsOf(imagePoints: array2<int>): seq<ImagePoint>
    requires imagePoints.Length1 == 2
    reads imagePoints
  {
    seq(imagePoints.Length0, i requires 0 <= i < imagePoints.Length0 reads imagePoints =>
      ImagePoint(imagePoints[i, 0], imagePoints[i, 1]))
  }

  /** A frames x joints x 3 marker array, as values. */
  ghost function MarkersOf(markers: array3<real>): seq<seq<seq<real>>>
    requires markers.Length2 == 3
    reads markers
  {
    seq(markers.Length0, f requires 0 <= f < markers.Length0 reads markers =>
      seq(markers.Length1, j requires 0 <= j < markers.Length1 reads markers =>
        [markers[f, j, 0], markers[f, j, 1], markers[f, j, 2]]))
  }

  /** A frames x joints x 2 integer array, as frame-major image points. */
  ghost function FramesOf(imagePoints: array3<int>): seq<seq<ImagePoint>>
    requires imagePoints.Length2 == 2
    reads imagePoints
  {
    seq(imagePoints.Length0, f requires 0 <= f < imagePoints.Length0 reads imagePoints =>
      seq(imagePoints.Length1, j requires 0 <= j < imagePoints.Length1 reads imagePoints =>
        ImagePoint(imagePoints[f, j, 0], imagePoints[f, j, 1])))
  }

  /** One pass of the projection loop: the world point is extended by a one,
      multiplied by the precomputed camera matrix, and divided through by the
      depth; the two quotients are truncated toward zero. */
  method ProjectRow(camera: Camera, cameraMatrix: seq<seq<real>>, val: seq<real>) returns (u: int, v: int)
    requires camera.Valid() && cameraMatrix == CameraMatrix(camera)
    requires |val| == 3 && Depth(camera, val) != 0.0
    ensures ImagePoint(u, v) == ProjectPoint(camera, val)
  {
    var tempMatrix := val + [1.0];
    var result := VecMat(tempMatrix, cameraMatrix, 3);
    assert result == ProjectiveResult(camera, val);
    u := TruncateTowardZero(result[0] / result[2]);
    v := TruncateTowardZero(result[1] / result[2]);
  }

  /** Projects every world point with the combined camera matrix into a new
      zero-initialised integer array, one row per point and in input order;
      the float quotients are truncated toward zero on being stored. Every
      point must have nonzero projective depth: the division is unguarded. */
  method ConvertWorldPointsToImagePoints(camera: Camera, worldPoints: array2<real>)
    returns (imagePoints: array2<int>)
    requires worldPoints.Length1 == 3
    requires ValidWorldPoints(camera, WorldPointsOf(worldPoints))
    ensures fresh(imagePoints)
    ensures imagePoints.Length0 == worldPoints.Length0 && imagePoints.Length1 == 2
    ensures ImagePointsOf(imagePoints) == ProjectAll(camera, WorldPointsOf(worldPoints))
  {
    var cameraMatrix := CameraMatrix(camera);
    imagePoints := new int[worldPoints.Length0, 2]((_, _) => 0);
    ghost var points := WorldPointsOf(worldPoints);
    ghost var done: seq<ImagePoint> := [];

    for idx := 0 to worldPoints.Length0
      invariant ValidWorldPoints(camera, points[..idx]) && done == ProjectAll(camera, points[..idx])
      invariant forall i :: 0 <= i < idx ==> ImagePoint(imagePoints[i, 0], imagePoints[i, 1]) == done[i]
      invariant forall i, k :: idx <= i < worldPoints.Length0 && 0 <= k < 2 ==> imagePoints[i, k] == 0
    {
      var val := [worldPoints[idx, 0], worldPoints[idx, 1], worldPoints[idx, 2]];
      assert val == points[idx];
      var u, v := ProjectRow(camera, cameraMatrix, val);
      imagePoints[idx, 0], imagePoints[idx, 1] := u, v;
      ProjectAllPrefix(camera, points, idx);
      done := done + [ProjectPoint(camera, val)];
    }

    assert points[..worldPoints.Length0] == points;
    assert ImagePointsOf(imagePoints) == done;
  }

  /** The slice assignment `imagePoints[:, i] = column`: joint column `i`
      of every frame takes the matching row of `column`, and every other
      entry keeps its value. */
  method StoreJointColumn(imagePoints: array3<int>, i: nat, column: array2<int>)
    requires imagePoints.Length2 == 2 && i < imagePoints.Length1
    requires column.Length0 == imagePoints.Length0 && column.Length1 == 2
    modifies imagePoints
    ensures forall f, j, k :: 0 <= f < imagePoints.Length0 && 0 <= j < imagePoints.Length1 && 0 <= k < 2 ==>
      imagePoints[f, j, k] == if j == i then column[f, k] else old(imagePoints[f, j, k])
  {
    for f := 0 to imagePoints.Length0
      invariant forall g, j, k :: 0 <= g < imagePoints.Length0 && 0 <= j < imagePoints.Length1 && 0 <= k < 2 ==>
        imagePoints[g, j, k] == if j == i && g < f then column[g, k] else old(imagePoints[g, j, k])
    {
      imagePoints[f, i, 0], imagePoints[f, i, 1] := column[f, 0], column[f, 1];
    }
  }

  /** The projection of joint `i`'s trajectory: its positions in every frame
      are copied into a new frames x 3 array (the slice `markers[:, i, :]`)
      and converted to image points, one row per frame. A single frame is
      excluded: the source squeezes the slice to one flat 3-vector, whose
      projection fails. */
  method ProjectJointTrajectory(camera: Camera, markers: array3<real>, i: nat)
    returns (column: array2<int>)
    requires markers.Length2 == 3 && i < markers.Length1 && markers.Length0 != 1
    requires ValidMarkers(camera, MarkersOf(markers), markers.Length1)
    ensures fresh(column)
    ensures column.Length0 == markers.Length0 && column.Length1 == 2
    ensures forall f :: 0 <= f < markers.Length0 ==>
      ImagePoint(column[f, 0], column[f, 1]) == ProjectedTrajectories(camera, MarkersOf(markers), markers.Length1)[i][f]
  {
    var frames := markers.Length0;
    ghost var trajectory := JointTrajectory(MarkersOf(markers), markers.Length1, i);
    var worldPoints := new real[frames, 3]((f, k) requires 0 <= f < frames && 0 <= k < 3 reads markers =>
      markers[f, i, k]);
    assert WorldPointsOf(worldPoints) == trajectory;
    TrajectoriesValid(camera, MarkersOf(markers), markers.Length1);
    column := ConvertWorldPointsToImagePoints(camera, worldPoints);
    assert ImagePointsOf(column) == ProjectedTrajectories(camera, MarkersOf(markers), markers.Length1)[i];
    forall f | 0 <= f < frames
      ensures ImagePoint(column[f, 0], column[f, 1]) == ProjectedTrajectories(camera, MarkersOf(markers), markers.Length1)[i][f]
    {
      assert ImagePoint(column[f, 0], column[f, 1]) == ImagePointsOf(column)[f];
    }
  }

  /** Projects a frames x joints x 3 marker array, already reduced to the
      video frame rate, into a new zero-initialised frames x joints x 2
      integer array: for each joint in turn, that joint's trajectory across
      all frames is projected and written into that joint's column.
      A single frame with at least one joint is excluded: the source
      squeezes the extracted column, which then collapses to one flat point
      and cannot be projected. With no joints the loop never runs. */
  method AdaptMotionDataForVideo(camera: Camera, markers: array3<real>)
    returns (imagePoints: array3<int>)
    requires markers.Length2 == 3 && (markers.Length0 != 1 || markers.Length1 == 0)
    requires ValidMarkers(camera, MarkersOf(markers), markers.Length1)
    ensures fresh(imagePoints)
    ensures imagePoints.Length0 == markers.Length0 && imagePoints.Length1 == markers.Length1
    ensures imagePoints.Length2 == 2
    ensures forall f, j :: 0 <= f < markers.Length0 && 0 <= j < markers.Length1 ==>
      ImagePoint(imagePoints[f, j, 0], imagePoints[f, j, 1])
        == ProjectedTrajectories(camera, MarkersOf(markers), markers.Length1)[j][f]
    ensures FramesOf(imagePoints) == AdaptedImagePoints(camera, MarkersOf(markers), markers.Length1)
  {
    var frames, joints := markers.Length0, markers.Length1;
    ghost var m := MarkersOf(markers);
    ghost var columns := ProjectedTrajectories(camera, m, joints);
    imagePoints := new int[frames, joints, 2]((_, _, _) => 0);

    for i := 0 to joints
      invariant forall f, j :: 0 <= f < frames && 0 <= j < i ==>
        ImagePoint(imagePoints[f, j, 0], imagePoints[f, j, 1]) == columns[j][f]
      invariant forall f, j, k :: 0 <= f < frames && i <= j < joints && 0 <= k < 2 ==> imagePoints[f, j, k] == 0
    {
      var column := ProjectJointTrajectory(camera, markers, i);
      StoreJointColumn(imagePoints, i, column);
    }

    ghost var expected := AdaptedImagePoints(camera, m, joints);
    forall f | 0 <= f < frames ensures FramesOf(imagePoints)[f] == expected[f] {
    }
  }
}
