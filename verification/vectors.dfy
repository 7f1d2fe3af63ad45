/** Real-valued 3-vectors, the arithmetic of `THREE.Vector3` without rounding. */
module Vectors {

  datatype Vec3 = Vec3(x: real, y: real, z: real)

  const Zero: Vec3 := Vec3(0.0, 0.0, 0.0)

  function Add(a: Vec3, b: Vec3): Vec3 {
    Vec3(a.x + b.x, a.y + b.y, a.z + b.z)
  }

  function Sub(a: Vec3, b: Vec3): Vec3 {
    Vec3(a.x - b.x, a.y - b.y, a.z - b.z)
  }

  function Neg(a: Vec3): Vec3 {
    Vec3(-a.x, -a.y, -a.z)
  }

  function Scale(a: Vec3, k: real): Vec3 {
    Vec3(a.x * k, a.y * k, a.z * k)
  }

  function Dot(a: Vec3, b: Vec3): real {
    a.x * b.x + a.y * b.y + a.z * b.z
  }

  /** Squared length of a vector. */
  function Norm2(v: Vec3): real {
    Dot(v, v)
  }

  /** Squared euclidean distance, `a.distanceToSquared(b)`. */
  function DistSq(a: Vec3, b: Vec3): real {
    Norm2(Sub(b, a))
  }

  /** No two distinct points coincide; both engines divide by `distanceSq`, which is then zero. */
  predicate Separated(ps: seq<Vec3>) {
    forall i, j :: 0 <= i < |ps| && 0 <= j < |ps| && i != j ==> DistSq(ps[i], ps[j]) != 0.0
  }

  /** Left-to-right sum of a sequence of vectors (the order of the source's loops). */
  function Sum(vs: seq<Vec3>): Vec3
    decreases |vs|
  {
    if |vs| == 0 then Zero else Add(Sum(vs[..|vs| - 1]), vs[|vs| - 1])
  }

  /** `seq[i] += v`, the in-place update of one accumulator. */
  function AddAt(vs: seq<Vec3>, i: nat, v: Vec3): (r: seq<Vec3>)
    requires i < |vs|
    ensures |r| == |vs|
    ensures r[i] == Add(vs[i], v)
    ensures forall k :: 0 <= k < |vs| && k != i ==> r[k] == vs[k]
  {
    vs[i := Add(vs[i], v)]
  }

  /** The interleaved `[x0, y0, z0, x1, ...]` layout of `flatMap(p => [p.x, p.y, p.z])`. */
  function Flatten(ps: seq<Vec3>): (r: seq<real>)
    ensures |r| == 3 * |ps|
    ensures forall i :: 0 <= i < |ps| ==>
              r[3 * i] == ps[i].x && r[3 * i + 1] == ps[i].y && r[3 * i + 2] == ps[i].z
    decreases |ps|
  {
    if |ps| == 0 then []
    else
      var r := Flatten(ps[..|ps| - 1]) + [ps[|ps| - 1].x, ps[|ps| - 1].y, ps[|ps| - 1].z];
      assert forall i :: 0 <= i < |ps| - 1 ==> ps[..|ps| - 1][i] == ps[i];
      r
  }

  /** Reads texel `i` back out of an interleaved buffer. */
  function TexelAt(data: seq<real>, i: nat): Vec3
    requires 3 * i + 2 < |data|
  {
    Vec3(data[3 * i], data[3 * i + 1], data[3 * i + 2])
  }

  lemma Norm2Neg(v: Vec3)
    ensures Norm2(Neg(v)) == Norm2(v)
  {
    assert (-v.x) * (-v.x) == v.x * v.x;
    assert (-v.y) * (-v.y) == v.y * v.y;
    assert (-v.z) * (-v.z) == v.z * v.z;
  }

  lemma DistSqSymmetric(a: Vec3, b: Vec3)
    ensures DistSq(a, b) == DistSq(b, a)
  {
    assert Sub(a, b) == Neg(Sub(b, a));
    Norm2Neg(Sub(b, a));
  }

  lemma ScaleNeg(v: Vec3, k: real)
    ensures Scale(Neg(v), k) == Neg(Scale(v, k))
  {
    assert (-v.x) * k == -(v.x * k);
    assert (-v.y) * k == -(v.y * k);
    assert (-v.z) * k == -(v.z * k);
  }

  lemma AddAssoc(a: Vec3, b: Vec3, c: Vec3)
    ensures Add(Add(a, b), c) == Add(a, Add(b, c))
  {
  }

  lemma ScaleAdd(a: Vec3, b: Vec3, k: real)
    ensures Scale(Add(a, b), k) == Add(Scale(a, k), Scale(b, k))
  {
    assert (a.x + b.x) * k == a.x * k + b.x * k;
    assert (a.y + b.y) * k == a.y * k + b.y * k;
    assert (a.z + b.z) * k == a.z * k + b.z * k;
  }

  lemma ScaleScale(v: Vec3, a: real, b: real)
    ensures Scale(Scale(v, a), b) == Scale(v, a * b)
  {
    assert v.x * a * b == v.x * (a * b);
    assert v.y * a * b == v.y * (a * b);
    assert v.z * a * b == v.z * (a * b);
  }

  lemma {:induction false} SumAppend(vs: seq<Vec3>, v: Vec3)
    ensures Sum(vs + [v]) == Add(Sum(vs), v)
  {
    assert (vs + [v])[..|vs|] == vs;
  }

  /** Adding `v` into one accumulator adds `v` to the total. */
  lemma {:induction false} SumAddAt(vs: seq<Vec3>, i: nat, v: Vec3)
    requires i < |vs|
    ensures Sum(AddAt(vs, i, v)) == Add(Sum(vs), v)
    decreases |vs|
  {
    var r := AddAt(vs, i, v);
    var n := |vs|;
    if i == n - 1 {
      assert r[..n - 1] == vs[..n - 1];
    } else {
      assert r[..n - 1] == AddAt(vs[..n - 1], i, v);
      SumAddAt(vs[..n - 1], i, v);
    }
  }

  /** Element-wise sum of two equally long sequences (one pass of `a[i] += b[i]`). */
  function AddAll(a: seq<Vec3>, b: seq<Vec3>): (r: seq<Vec3>)
    requires |a| == |b|
    ensures |r| == |a|
    ensures forall i :: 0 <= i < |a| ==> r[i] == Add(a[i], b[i])
  {
    seq(|a|, i requires 0 <= i < |a| => Add(a[i], b[i]))
  }

  /** Element-wise scaling (one pass of `a[i] *= k`). */
  function ScaleAll(a: seq<Vec3>, k: real): (r: seq<Vec3>)
    ensures |r| == |a|
    ensures forall i :: 0 <= i < |a| ==> r[i] == Scale(a[i], k)
  {
    seq(|a|, i requires 0 <= i < |a| => Scale(a[i], k))
  }

  /** Summing commutes with element-wise addition. */
  lemma {:induction false} SumAddAll(a: seq<Vec3>, b: seq<Vec3>)
    requires |a| == |b|
    ensures Sum(AddAll(a, b)) == Add(Sum(a), Sum(b))
    decreases |a|
  {
    if |a| > 0 {
      var n := |a|;
      assert AddAll(a, b)[..n - 1] == AddAll(a[..n - 1], b[..n - 1]);
      SumAddAll(a[..n - 1], b[..n - 1]);
    }
  }

  /** Summing commutes with scaling. */
  lemma {:induction false} SumScaleAll(a: seq<Vec3>, k: real)
    ensures Sum(ScaleAll(a, k)) == Scale(Sum(a), k)
    decreases |a|
  {
    if |a| > 0 {
      var n := |a|;
      assert ScaleAll(a, k)[..n - 1] == ScaleAll(a[..n - 1], k);
      SumScaleAll(a[..n - 1], k);
      ScaleAdd(Sum(a[..n - 1]), a[n - 1], k);
    }
  }

  /** `sum_{j < k, j != i} row[j]`, the accumulation loop over one row, skipping the diagonal. */
  function RowSum(row: seq<Vec3>, i: nat, k: nat): Vec3
    requires k <= |row|
    decreases k
  {
    if k == 0 then Zero
    else if k - 1 == i then RowSum(row, i, k - 1)
    else Add(RowSum(row, i, k - 1), row[k - 1])
  }
}
