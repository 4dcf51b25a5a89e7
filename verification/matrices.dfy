/** Dense real matrices as sequences of rows, with the row-vector conventions
    of numpy's `dot`: a vector `v` of length n times an n-by-m matrix gives a
    vector of length m, and a matrix product is taken row by row. */
module Matrices {

  /** `m` has `rows` rows of `cols` entries each. */
  predicate IsMatrix(m: seq<seq<real>>, rows: nat, cols: nat)
  {
    |m| == rows && forall i :: 0 <= i < |m| ==> |m[i]| == cols
  }

  /** Inner product of two vectors of equal length. */
  function Dot(u: seq<real>, v: seq<real>): real
    requires |u| == |v|
    decreases |u|
  {
    if |u| == 0 then 0.0 else u[0] * v[0] + Dot(u[1..], v[1..])
  }

  /** Column `j` of a matrix whose rows all have more than `j` entries. */
  function Col(m: seq<seq<real>>, j: nat): (c: seq<real>)
    requires forall i :: 0 <= i < |m| ==> j < |m[i]|
    ensures |c| == |m|
    ensures forall i :: 0 <= i < |m| ==> c[i] == m[i][j]
  {
    seq(|m|, i requires 0 <= i < |m| => m[i][j])
  }

  /** Row vector times matrix (`np.dot(v, m)` for a 1-D `v`). */
  function VecMat(v: seq<real>, m: seq<seq<real>>, cols: nat): (r: seq<real>)
    requires IsMatrix(m, |v|, cols)
    ensures |r| == cols
  {
    seq(cols, j requires 0 <= j < cols => Dot(v, Col(m, j)))
  }

  /** Matrix product (`np.dot(a, b)` for 2-D operands). */
  function MatMul(a: seq<seq<real>>, b: seq<seq<real>>, cols: nat): (p: seq<seq<real>>)
    requires forall i :: 0 <= i < |a| ==> |a[i]| == |b|
    requires IsMatrix(b, |b|, cols)
    ensures IsMatrix(p, |a|, cols)
  {
    seq(|a|, i requires 0 <= i < |a| => VecMat(a[i], b, cols))
  }

  /** Entry-wise sum of two vectors of equal length. */
  function Add(u: seq<real>, v: seq<real>): (w: seq<real>)
    requires |u| == |v|
    ensures |w| == |u|
  {
    seq(|u|, i requires 0 <= i < |u| => u[i] + v[i])
  }

  /** The vector `s * u`. */
  function Scale(s: real, u: seq<real>): (w: seq<real>)
    ensures |w| == |u|
  {
    seq(|u|, i requires 0 <= i < |u| => s * u[i])
  }

  /** The zero vector of length `n`. */
  function Zeros(n: nat): (z: seq<real>)
    ensures |z| == n
  {
    seq(n, i => 0.0)
  }

  /** The vector of length `n` with a one at index `k` and zeros elsewhere
      (all zeros when `k` is out of range). */
  function Indicator(n: nat, k: int): (e: seq<real>)
    ensures |e| == n
  {
    seq(n, i => if i == k then 1.0 else 0.0)
  }

  /** The `n`-by-`n` identity matrix. */
  function Identity(n: nat): (id: seq<seq<real>>)
    ensures IsMatrix(id, n, n)
  {
    seq(n, i => Indicator(n, i))
  }

  // ---------------------------------------------------------------------
  // Algebraic facts about Dot and VecMat

  lemma {:induction false} DotZeros(c: seq<real>)
    ensures Dot(Zeros(|c|), c) == 0.0
  {
    if |c| > 0 {
      assert Zeros(|c|)[1..] == Zeros(|c| - 1);
      DotZeros(c[1..]);
    }
  }

  /** Dot is additive in its left argument. */
  lemma {:induction false} DotAddLeft(x: seq<real>, y: seq<real>, c: seq<real>)
    requires |x| == |y| == |c|
    ensures Dot(Add(x, y), c) == Dot(x, c) + Dot(y, c)
  {
    if |x| > 0 {
      assert Add(x, y)[1..] == Add(x[1..], y[1..]);
      DotAddLeft(x[1..], y[1..], c[1..]);
    }
  }

  /** Dot is homogeneous in its left argument. */
  lemma {:induction false} DotScaleLeft(s: real, x: seq<real>, c: seq<real>)
    requires |x| == |c|
    ensures Dot(Scale(s, x), c) == s * Dot(x, c)
  {
    if |x| > 0 {
      forall i | 0 <= i < |x| - 1 ensures Scale(s, x)[1..][i] == Scale(s, x[1..])[i] {
        assert Scale(s, x)[i + 1] == s * x[i + 1];
      }
      assert Scale(s, x)[1..] == Scale(s, x[1..]);
      DotScaleLeft(s, x[1..], c[1..]);
    }
  }

  /** Appending one entry to both vectors adds its product to the inner product. */
  lemma {:induction false} DotAppend(u: seq<real>, v: seq<real>, a: real, b: real)
    requires |u| == |v|
    ensures Dot(u + [a], v + [b]) == Dot(u, v) + a * b
  {
    if |u| > 0 {
      assert (u + [a])[1..] == u[1..] + [a];
      assert (v + [b])[1..] == v[1..] + [b];
      DotAppend(u[1..], v[1..], a, b);
    }
  }

  /** The inner product with an indicator vector selects one entry. */
  lemma {:induction false} DotIndicator(v: seq<real>, k: int)
    ensures Dot(v, Indicator(|v|, k)) == if 0 <= k < |v| then v[k] else 0.0
  {
    if |v| > 0 {
      assert Indicator(|v|, k)[1..] == Indicator(|v| - 1, k - 1);
      DotIndicator(v[1..], k - 1);
    }
  }

  /** Multiplying by the identity matrix leaves a vector unchanged. */
  lemma VecMatIdentity(v: seq<real>)
    ensures VecMat(v, Identity(|v|), |v|) == v
  {
    var r := VecMat(v, Identity(|v|), |v|);
    forall j | 0 <= j < |v| ensures r[j] == v[j] {
      assert Col(Identity(|v|), j) == Indicator(|v|, j);
      DotIndicator(v, j);
    }
  }

  /** Multiplying a vector extended by a one with a matrix extended by a row
      `t` adds `t` to the product: the homogeneous-coordinate translation. */
  lemma VecMatHomogeneous(p: seq<real>, m: seq<seq<real>>, t: seq<real>)
    requires IsMatrix(m, |p|, |t|)
    ensures IsMatrix(m + [t], |p| + 1, |t|)
    ensures VecMat(p + [1.0], m + [t], |t|) == Add(VecMat(p, m, |t|), t)
  {
    var lhs := VecMat(p + [1.0], m + [t], |t|);
    var rhs := Add(VecMat(p, m, |t|), t);
    forall j | 0 <= j < |t| ensures lhs[j] == rhs[j] {
      assert Col(m + [t], j) == Col(m, j) + [t[j]];
      DotAppend(p, Col(m, j), 1.0, t[j]);
    }
  }

  /** Dropping the first row of a vector-matrix product's inputs. */
  lemma VecMatCons(v: seq<real>, a: seq<seq<real>>, cols: nat)
    requires |v| > 0 && IsMatrix(a, |v|, cols)
    ensures VecMat(v, a, cols) == Add(Scale(v[0], a[0]), VecMat(v[1..], a[1..], cols))
  {
    var lhs := VecMat(v, a, cols);
    var rhs := Add(Scale(v[0], a[0]), VecMat(v[1..], a[1..], cols));
    forall k | 0 <= k < cols ensures lhs[k] == rhs[k] {
      assert Col(a, k)[1..] == Col(a[1..], k);
    }
  }

  /** The inner product of `v * a` with `c` equals the inner product of `v`
      with `a * c`. */
  lemma {:induction false} DotVecMat(v: seq<real>, a: seq<seq<real>>, c: seq<real>)
    requires IsMatrix(a, |v|, |c|)
    ensures Dot(VecMat(v, a, |c|), c) == Dot(v, seq(|v|, i requires 0 <= i < |v| => Dot(a[i], c)))
  {
    var s := seq(|v|, i requires 0 <= i < |v| => Dot(a[i], c));
    if |v| == 0 {
      assert VecMat(v, a, |c|) == Zeros(|c|);
      DotZeros(c);
    } else {
      var rest := VecMat(v[1..], a[1..], |c|);
      var tail := seq(|v| - 1, i requires 0 <= i < |v| - 1 => Dot(a[1..][i], c));
      VecMatCons(v, a, |c|);
      DotAddLeft(Scale(v[0], a[0]), rest, c);
      DotScaleLeft(v[0], a[0], c);
      DotVecMat(v[1..], a[1..], c);
      assert Dot(VecMat(v, a, |c|), c) == v[0] * Dot(a[0], c) + Dot(v[1..], tail);
      assert s[0] == Dot(a[0], c) && s[1..] == tail;
    }
  }

  /** Associativity of the vector-matrix-matrix product:
      `(v * a) * b == v * (a * b)`. */
  lemma VecMatMatMul(v: seq<real>, a: seq<seq<real>>, b: seq<seq<real>>, mid: nat, cols: nat)
    requires IsMatrix(a, |v|, mid) && IsMatrix(b, mid, cols)
    ensures VecMat(VecMat(v, a, mid), b, cols) == VecMat(v, MatMul(a, b, cols), cols)
  {
    var lhs := VecMat(VecMat(v, a, mid), b, cols);
    var rhs := VecMat(v, MatMul(a, b, cols), cols);
    forall j | 0 <= j < cols ensures lhs[j] == rhs[j] {
      var c := Col(b, j);
      DotVecMat(v, a, c);
      assert Col(MatMul(a, b, cols), j) == seq(|v|, i requires 0 <= i < |v| => Dot(a[i], c));
    }
  }
}
