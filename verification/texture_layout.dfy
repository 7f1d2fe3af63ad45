/**
 * Data textures: values packed row-major into a square, power-of-two texture,
 * and the nearest-filter, clamp-to-edge texel fetch the shaders perform on them.
 * `createMap` appears twice in the source (LatticeMesh and GPUSimulation) with the
 * same packing; it is defined once here.
 */
module TextureLayout {

  predicate IsPow2(p: nat)
    decreases p
  {
    p == 1 || (p >= 2 && p % 2 == 0 && IsPow2(p / 2))
  }

  /** Smallest power of two `q >= p` with `q * q * itemSize >= count`. */
  function SideFrom(p: nat, count: nat, itemSize: nat): (q: nat)
    requires IsPow2(p) && itemSize >= 1
    ensures IsPow2(q) && q >= p
    ensures q * q * itemSize >= count
    ensures q == p || (q / 2) * (q / 2) * itemSize < count
    decreases count - p * p * itemSize
  {
    if p * p * itemSize >= count then p
    else
      assert (2 * p) * (2 * p) * itemSize == 4 * (p * p * itemSize);
      assert IsPow2(2 * p) by { assert (2 * p) / 2 == p; }
      var q := SideFrom(2 * p, count, itemSize);
      assert q == 2 * p ==> q / 2 == p;
      q
  }

  /**
   * `Math.pow(2, Math.ceil(Math.log(Math.sqrt(count / itemSize)) / Math.log(2)))`:
   * zero for no values (log of 0 is -Infinity), otherwise the smallest power of two
   * whose square holds `count / itemSize` texels.
   */
  function TextureSide(count: nat, itemSize: nat): (side: nat)
    requires 1 <= itemSize <= 3
    ensures count == 0 ==> side == 0
    ensures count > 0 ==> IsPow2(side) && side * side * itemSize >= count
    ensures count > 0 ==> side == 1 || (side / 2) * (side / 2) * itemSize < count
  {
    if count == 0 then 0 else SideFrom(1, count, itemSize)
  }

  datatype DataTexture<T> = DataTexture(side: nat, itemSize: nat, data: seq<T>)

  /**
   * `createMap`: a typed array of `side * side * itemSize` slots (zero-initialised,
   * represented by `pad`) whose prefix is overwritten by `values`.
   */
  function CreateMap<T>(values: seq<T>, itemSize: nat, pad: T): (tex: DataTexture<T>)
    requires 1 <= itemSize <= 3
    ensures tex.side == TextureSide(|values|, itemSize) && tex.itemSize == itemSize
    ensures |tex.data| == tex.side * tex.side * itemSize
    ensures |values| <= |tex.data|
    ensures tex.data[..|values|] == values
    ensures forall i :: 0 <= i < |values| ==> tex.data[i] == values[i]
    ensures forall i :: |values| <= i < |tex.data| ==> tex.data[i] == pad
  {
    var side := TextureSide(|values|, itemSize);
    var data := seq(side * side * itemSize, i => if 0 <= i < |values| then values[i] else pad);
    DataTexture(side, itemSize, data)
  }

  /** GLSL `int(f)` / nearest filtering: the texel whose cell contains coordinate `u * size`. */
  function NearestTexel(u: real, size: nat): (t: nat)
    requires size >= 1
    ensures t < size
  {
    var f := (u * (size as real)).Floor;
    if f < 0 then 0 else if f >= size then size - 1 else f
  }

  /** A texel fetch `texture2D(map, vec2(u, v))` with clamp-to-edge wrapping. */
  function Fetch<T>(texels: seq<T>, cols: nat, u: real, v: real): T
    requires cols >= 1 && |texels| == cols * cols
  {
    var x := NearestTexel(u, cols);
    var y := NearestTexel(v, cols);
    assert y * cols + x < cols * cols by { RowMajorBound(y, x, cols, cols); }
    texels[y * cols + x]
  }

  lemma RowMajorBound(row: nat, col: nat, rows: nat, cols: nat)
    requires row < rows && col < cols
    ensures row * cols + col < rows * cols
  {
    assert (row + 1) * cols <= rows * cols;
  }

  lemma MulZero(d: int, c: int)
    requires c > 0 && -c < d * c < c
    ensures d == 0
  {
  }

  lemma DivModUnique(n: int, c: int, q: int, r: int)
    requires c > 0 && 0 <= r < c && n == q * c + r
    ensures n / c == q && n % c == r
  {
    var q', r' := n / c, n % c;
    assert (q - q') * c == r' - r;
    MulZero(q - q', c);
  }

  /** Row-major addressing `n = row * cols + col` is inverted by `n / cols` and `n % cols`. */
  lemma RowMajorInverse(row: nat, col: nat, cols: nat)
    requires col < cols
    ensures (row * cols + col) / cols == row
    ensures (row * cols + col) % cols == col
  {
    DivModUnique(row * cols + col, cols, row, col);
  }

  /** Texture coordinate of the centre of column (or row) `k`: `(k + 0.5) / cols`. */
  function CentreRef(k: nat, cols: nat): real
    requires cols >= 1
  {
    ((k as real) + 0.5) / (cols as real)
  }

  /** Texture coordinate of the lower edge of column (or row) `k`: `k / cols`. */
  function CornerRef(k: nat, cols: nat): real
    requires cols >= 1
  {
    (k as real) / (cols as real)
  }

  /** Centre sampling lands on column `k`, clamped to the last column past the edge. */
  lemma CentreSample(k: nat, cols: nat)
    requires cols >= 1
    ensures NearestTexel(CentreRef(k, cols), cols) == if k < cols then k else cols - 1
  {
    var c := cols as real;
    assert ((k as real) + 0.5) / c * c == (k as real) + 0.5;
  }

  /** Corner sampling lands on column `k` as well (in exact arithmetic), clamped likewise. */
  lemma CornerSample(k: nat, cols: nat)
    requires cols >= 1
    ensures NearestTexel(CornerRef(k, cols), cols) == if k < cols then k else cols - 1
  {
    var c := cols as real;
    assert (k as real) / c * c == k as real;
  }

  /** Element `n` of row-major storage, with the row clamped to the last one. */
  function ClampedIndex(n: nat, cols: nat): (t: nat)
    requires cols >= 1
    ensures t < cols * cols
    ensures n < cols * cols ==> t == n
  {
    var x, y := n % cols, n / cols;
    var row := if y < cols then y else cols - 1;
    RowMajorBound(row, x, cols, cols);
    if n < cols * cols then
      RowOfIndex(n, cols);
      row * cols + x
    else row * cols + x
  }

  /** An index inside the `cols x cols` grid lies in one of its rows. */
  lemma RowOfIndex(n: nat, cols: nat)
    requires cols >= 1 && n < cols * cols
    ensures n / cols < cols && (n / cols) * cols + n % cols == n
  {
    var y := n / cols;
    assert y * cols <= n;
    MulCancel(y, cols, cols);
  }

  lemma MulCancel(a: int, b: int, c: int)
    requires c > 0 && a * c < b * c
    ensures a < b
  {
  }

  /**
   * A neighbour read `texture2D(map, (vec2(mod(n, cols), floor(n / cols)) + 0.5) / cols)`:
   * element `n` itself when it lies inside the texture, a clamped one otherwise.
   */
  function FetchCentre<T>(texels: seq<T>, cols: nat, n: nat): (v: T)
    requires cols >= 1 && |texels| == cols * cols
    ensures v == texels[ClampedIndex(n, cols)]
  {
    CentreSample(n % cols, cols);
    CentreSample(n / cols, cols);
    Fetch(texels, cols, CentreRef(n % cols, cols), CentreRef(n / cols, cols))
  }

  /** The same read at the lower texel corner, `vec2(mod(n, cols), floor(n / cols)) / cols`. */
  function FetchCorner<T>(texels: seq<T>, cols: nat, n: nat): (v: T)
    requires cols >= 1 && |texels| == cols * cols
    ensures v == texels[ClampedIndex(n, cols)]
  {
    CornerSample(n % cols, cols);
    CornerSample(n / cols, cols);
    Fetch(texels, cols, CornerRef(n % cols, cols), CornerRef(n / cols, cols))
  }

  /**
   * A fragment at texel `(x, y)` sees `vUv` at the texel centre; `int(vUv * cols)`
   * recovers `(x, y)`, so the shader's self index `y * cols + x` is the texel's own.
   */
  lemma SelfIndex(x: nat, y: nat, cols: nat)
    requires x < cols && y < cols
    ensures NearestTexel(CentreRef(y, cols), cols) * cols + NearestTexel(CentreRef(x, cols), cols)
            == y * cols + x
  {
    CentreSample(x, cols);
    CentreSample(y, cols);
  }

  lemma SideFromScaled(p: nat, n: nat)
    requires IsPow2(p)
    ensures SideFrom(p, 3 * n, 3) == SideFrom(p, n, 1)
    decreases n - p * p
  {
    if p * p < n {
      assert (2 * p) * (2 * p) == 4 * (p * p);
      assert IsPow2(2 * p) by { assert (2 * p) / 2 == p; }
      SideFromScaled(2 * p, n);
    }
  }

  /**
   * The position texture (`3n` floats, 3 per texel) has the side of the render
   * targets sized for `n` texels, `nodeColumns`.
   */
  lemma PositionTextureSide(n: nat)
    ensures TextureSide(3 * n, 3) == TextureSide(n, 1)
  {
    if n > 0 {
      SideFromScaled(1, n);
    }
  }
}
