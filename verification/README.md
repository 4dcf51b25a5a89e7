# MoVi projection core in Dafny

This project models the geometric core of the MoVi tooling, found in
`common/utils.py`. That code projects motion-capture joint positions
(world space, 3-D) into the image plane of a calibrated video camera.

- `convert_world_points_to_image_points` builds a combined 4x3 camera
  matrix. It stacks the 3x3 rotation over the translation row and
  right-multiplies the result by the 3x3 intrinsic matrix. It then fills a
  freshly allocated N x 2 integer array row by row. Row `idx` holds
  `(r0 / r2, r1 / r2)`, where `r = [p, 1] . M` for world point `p`; storing
  the floats into the int array truncates them toward zero.
- `adapt_motion_data_for_video` takes a motion-capture recording and a
  video frame rate (default 30). It first reduces the recording to that
  frame rate (line 44), giving a frames x joints x 3 marker array. It then
  allocates a zero-filled frames x joints x 2 integer array. For each joint it projects that
  joint's trajectory across all frames and writes the result into that
  joint's column.

Files:

- `matrices.dfy` (module `Matrices`): vectors and matrices as sequences of
  rows, with numpy's row-vector `dot`. It proves the algebra the projection
  relies on: linearity of the inner product, the homogeneous-coordinate
  translation, associativity of the vector-matrix-matrix product, and the
  identity matrix.
- `projection.dfy` (module `Projection`): the `Camera` record, the camera
  matrix, truncation toward zero, the projection of one point, of a
  sequence of points, and of a whole marker array. Lemmas state what these
  mean: pointwise definition, order preservation, the two-stage pinhole
  factorisation, the identity camera, and per-joint independence.
- `utils.dfy` (module `Utils`): the two routines as methods over `array2` and
  `array3`, each with loops. Each is proved to produce exactly what the
  functions of `Projection` specify. Loop invariants track which rows or
  columns are filled and that the rest still hold the initial zeros.

Floats are modelled by exact `real` arithmetic. Image coordinates are
unbounded `int`.

Two points where the code is followed:

- A point with zero projective depth is not reported as an error. The code
  divides by `r2` without a guard, so the model requires `r2 != 0` for every
  point.
- A marker array with no joints is not an error either. The code returns an
  empty frames x 0 x 2 array, and so does the model.

## Model

| member | source | states |
|---|---|---|
| `Projection.CameraMatrix` | common/utils.py:17-19 | the combined camera matrix is 4x3 |
| `Projection.CameraMatrixRows` | common/utils.py:17-19 | rows 0-2 of the camera matrix are the rotation rows times the intrinsic matrix; row 3 is the translation times the intrinsic matrix |
| `Matrices.VecMatHomogeneous` | common/utils.py:17-18 | appending 1 to a point and a translation row to a matrix adds the translation to the product |
| `Matrices.VecMatMatMul` | common/utils.py:19 | `(v . A) . B == v . (A . B)`, so using the premultiplied camera matrix is the same as applying its factors in turn |
| `Matrices.MatMul` | common/utils.py:19 | `np.dot` of two matrices, taken row by row; the product of an n-row matrix with a matrix of `cols` columns has n rows of `cols` entries |
| `Matrices.VecMat` | common/utils.py:24 | `np.dot` of a row vector with a matrix; the result has one entry per matrix column |
| `Projection.ProjectiveResult` | common/utils.py:23-26 | `r = [p, 1] . M` for a 3-D point `p` has three entries; its third, `r2`, is the depth `Projection.Depth` that divides both pixel coordinates. `ProjectiveResultFactors` and `ProjectPointPinhole` state what it means |
| `Projection.ProjectPoint` | common/utils.py:23-27 | each pixel coordinate is the integer toward zero from `r0 / r2` and `r1 / r2` respectively, with `r = [p, 1] . M`; `ProjectPointPinhole` and `IdentityCameraProjection` state what the pixel means |
| `Projection.ValidWorldPointsAppend` | common/utils.py:22-27 | two sequences of points that can each be projected still can once concatenated |
| `Projection.ProjectAllPrefix` | common/utils.py:22-27 | projecting one more point of the input appends that point's projection to the rows already produced |
| `Projection.ProjectiveResultFactors` | common/utils.py:17-24 | `[p, 1] . M` equals the point rotated and translated into the camera frame, then mapped through the intrinsic matrix |
| `Projection.TruncateTowardZero` | common/utils.py:20-27 | storing a float in the int array yields the integer toward zero from it: for `x >= 0`, `n <= x < n + 1`; for `x < 0`, `n - 1 < x <= n` |
| `Projection.ProjectPointPinhole` | common/utils.py:23-27 | a point with nonzero depth maps to `(trunc(r0 / r2), trunc(r1 / r2))`, with `r` its camera-frame position times the intrinsic matrix and `r2` its depth |
| `Projection.ProjectAll` | common/utils.py:20-27 | one image point per world point |
| `Projection.ProjectAllAt` | common/utils.py:22-27 | image point `i` is the projection of world point `i` |
| `Projection.ProjectAllAppend` | common/utils.py:22-27 | order is preserved: projecting a concatenation concatenates the projections |
| `Projection.ProjectAllLocal` | common/utils.py:22-27 | output row `i` depends only on world point `i` and the camera |
| `Projection.IdentityCameraProjection` | common/utils.py:17-27 | with identity rotation, zero translation and identity intrinsics, `(x, y, z)` with `z != 0` has depth `z` and maps to `(trunc(x / z), trunc(y / z))` |
| `Projection.JointTrajectory` | common/utils.py:48 | the slice `markers[:, i, :]`: joint `i`'s position in every frame, one per frame |
| `Projection.TrajectoriesValid` | common/utils.py:47-48 | if every marker has nonzero depth, so does every point of every joint's trajectory |
| `Projection.ProjectedTrajectories` | common/utils.py:47-49 | one projected trajectory per joint, each with one image point per frame |
| `Projection.AdaptedImagePoints` | common/utils.py:44-45 | the assembled output has shape (frames, joints), taken from the marker array |
| `Projection.AdaptedImagePointsAt` | common/utils.py:47-49 | output entry `[f][j]` is the projection of the marker of joint `j` in frame `f` |
| `Projection.AdaptedCommutesWithJointSelection` | common/utils.py:47-49 | joints never interact: re-indexing or permuting the joint axis of the markers re-indexes the output's joint axis the same way and leaves each joint's image points unchanged |
| `Utils.ProjectRow` | common/utils.py:23-27 | one pass of the loop (append 1, multiply by the camera matrix, divide by `r2`, store as ints) yields exactly `ProjectPoint` of the world point |
| `Utils.ConvertWorldPointsToImagePoints` | common/utils.py:7-29 | returns a new N x 2 int array whose rows are exactly `ProjectAll` of the N world points, in order |
| `Utils.ProjectJointTrajectory` | common/utils.py:48-49 | slicing joint `i` out of the markers and converting it gives that joint's projected trajectory, one row per frame |
| `Utils.StoreJointColumn` | common/utils.py:49 | the slice assignment writes joint column `i` of every frame and leaves every other entry unchanged |
| `Utils.AdaptMotionDataForVideo` | common/utils.py:32-51 | returns a new frames x joints x 2 int array; column `j` holds joint `j`'s projected trajectory, and the whole array equals `AdaptedImagePoints` of the markers |

## Left out

- Floating-point arithmetic: float64 values are modelled as exact reals, so rounding error in the matrix products and quotients is not captured.
- Zero projective depth: numpy yields an infinity or NaN there and casts it to an integer. The model requires nonzero depth for every point instead.
- Utils.ConvertWorldPointsToImagePoints: does not model the range of numpy's fixed-width int array (`dtype=int`); a quotient beyond that range has no defined stored value in numpy, and the model stores the unbounded truncation.
- Utils.AdaptMotionDataForVideo: requires that there is not exactly one frame unless there are no joints. With a single frame, `np.squeeze` at common/utils.py:48 collapses the column to one flat 3-vector. The projection loop then walks its three scalars and the product fails. With one frame and no joints the loop never runs and a 1 x 0 x 2 array is returned, as modelled. Zero frames and two or more frames behave as modelled.
- Utils.ProjectJointTrajectory: requires that there is not exactly one frame, for the same `np.squeeze` failure; otherwise the slice is copied as it is, and squeezing leaves a frames x 3 slice unchanged.
- Utils.AdaptMotionDataForVideo: takes the frame-rate-reduced marker array as its input, in place of the recording and the `fps` argument (default 30, common/utils.py:32). The reduction itself, `MotionCapture.get_joints_reduced_by_fps`, lives in common/motion_capture.py, which is not part of this model.
- The `Camera` class lives in common/camera.py, which is not part of this model. It is modelled as the immutable record `Projection.Camera` holding the three matrices. Orthonormality of the rotation is not assumed, because the code never relies on it.
- `read_camera_params` (common/utils.py:54-68): file input through `np.load` only; a `Camera` value is built directly instead.
- `read_motion_capture_data` (common/utils.py:71-89): file input through `scipy.io.loadmat` and dictionary lookups. Its only logic is the `movement_number >= 1` assertion, the zero-based index `movement_number - 1` and the fixed 120 fps rate.
- Pairing of motion-capture files with video files by filename: no code implementing it is part of this model.
