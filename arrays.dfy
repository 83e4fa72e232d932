/** A value model of the numpy arrays the cohort code works on: 3D volumes,
    4x4 affine matrices, and the few numpy operations the core calls
    (`np.unique`, `==` against a scalar, `astype`, `np.allclose`, `int(...)`). */
module Arrays {
  import opened Outcomes

  /** The shape tuple of a 3D array: voxel counts along each axis. */
  datatype Shape = Shape(x: nat, y: nat, z: nat)

  /** A 3D array: its shape and its voxel values, flattened in C order. */
  datatype Grid<T> = Grid(shape: Shape, cells: seq<T>)

  /** A numpy array always holds exactly as many values as its shape says. */
  predicate WellFormed<T>(g: Grid<T>)
  {
    |g.cells| == g.shape.x * g.shape.y * g.shape.z
  }

  /** Voxel edge lengths in mm along the three axes. */
  datatype Spacing = Spacing(x: real, y: real, z: real)

  /** A point in world coordinates (mm). */
  datatype Point = Point(x: real, y: real, z: real)

  /** A voxel-to-world transform: a 4x4 matrix, row by row. */
  type Matrix = seq<seq<real>>

  predicate IsAffine(m: Matrix)
  {
    |m| == 4 && forall i | 0 <= i < 4 :: |m[i]| == 4
  }

  /** Named affines in insertion order, as a Python dict keeps them. */
  type AffineTable = seq<(string, Matrix)>

  /** Every entry is a 4x4 matrix and no name occurs twice (dict keys). */
  predicate WellFormedTable(t: AffineTable)
  {
    && (forall i | 0 <= i < |t| :: IsAffine(t[i].1))
    && (forall i, j | 0 <= i < j < |t| :: t[i].0 != t[j].0)
  }

  /** `t[name]`: the matrix stored under `name`, or None where Python raises KeyError. */
  function Lookup(t: AffineTable, name: string): (r: Option<Matrix>)
    ensures r.None? <==> forall i | 0 <= i < |t| :: t[i].0 != name
    ensures r.Some? ==> exists i | 0 <= i < |t| :: t[i] == (name, r.value)
  {
    if t == [] then None
    else if t[0].0 == name then Some(t[0].1)
    else Lookup(t[1..], name)
  }

  /** With distinct names, the matrix found is the one of the entry carrying that name. */
  lemma LookupFindsEntry(t: AffineTable, k: nat)
    requires WellFormedTable(t) && k < |t|
    ensures Lookup(t, t[k].0) == Some(t[k].1)
  {
  }

  function Abs(x: real): (a: real)
  {
    if x < 0.0 then -x else x
  }

  /** The absolute tolerance `_check_affines` passes to `np.allclose`. */
  const AffineAtol: real := 0.00001

  /** numpy's default relative tolerance, which `np.allclose` also applies. */
  const AffineRtol: real := 0.00001

  /** `np.allclose(a, b, atol=1e-5)`: every element satisfies
      |a - b| <= atol + rtol * |b|. The test is not symmetric in a and b. */
  predicate AllClose(a: Matrix, b: Matrix)
    requires IsAffine(a) && IsAffine(b)
  {
    forall i, j | 0 <= i < 4 && 0 <= j < 4 ::
      Abs(a[i][j] - b[i][j]) <= AffineAtol + AffineRtol * Abs(b[i][j])
  }

  /** Because of the relative term, entries of about 1000 mm may differ by far more
      than the absolute tolerance and still pass. */
  lemma RelativeToleranceExample()
    ensures AllClose(Constant(1000.0), Constant(1000.005))
    ensures Abs(1000.0 - 1000.005) > AffineAtol
  {
  }

  /** The 4x4 matrix whose every entry is `v`. */
  function Constant(v: real): (m: Matrix)
    ensures IsAffine(m)
  {
    seq(4, _ => seq(4, _ => v))
  }

  /** A value with no fractional part. */
  predicate IsIntegral(v: real)
  {
    v == v.Floor as real
  }

  /** Python's `int(v)` and numpy's `astype(int)`: truncation toward zero. */
  function Trunc(v: real): (n: int)
    ensures 0.0 <= v ==> 0 <= n && n as real <= v < n as real + 1.0
    ensures v < 0.0 ==> n <= 0 && n as real - 1.0 < v <= n as real
  {
    if v >= 0.0 then v.Floor else -((-v).Floor)
  }

  /** `v == int(v)` holds exactly for the integral values: the test `_check_masks` relies on. */
  lemma TruncExactIffIntegral(v: real)
    ensures Trunc(v) as real == v <==> IsIntegral(v)
  {
    if v < 0.0 {
      var m := (-v).Floor;
      if IsIntegral(v) {
        assert (-v).Floor as real == -v by {
          assert v.Floor as real == v;
          assert -(v.Floor) as real == -v;
          assert (-v).Floor == -(v.Floor);
        }
      }
      if Trunc(v) as real == v {
        assert v.Floor == -m;
      }
    }
  }

  /** The comparison `vals == vals.astype(int)` holds for every value of `s`
      exactly when every value of `s` is integral. */
  lemma {:induction false} AllTruncExactIffIntegral(s: seq<real>)
    ensures (forall v | v in s :: v == Trunc(v) as real) <==> (forall v | v in s :: IsIntegral(v))
  {
    forall v | v in s
      ensures v == Trunc(v) as real <==> IsIntegral(v)
    {
      TruncExactIffIntegral(v);
    }
  }

  predicate StrictlyIncreasing(s: seq<real>)
  {
    forall i, j | 0 <= i < j < |s| :: s[i] < s[j]
  }

  /** Adds `v` to an ascending sequence of distinct values. */
  function Insert(s: seq<real>, v: real): (r: seq<real>)
    requires StrictlyIncreasing(s)
    ensures StrictlyIncreasing(r)
    ensures forall w :: w in r <==> w in s || w == v
    ensures |r| <= |s| + 1
  {
    if s == [] then [v]
    else if v < s[0] then [v] + s
    else if v == s[0] then s
    else
      var tail := Insert(s[1..], v);
      assert forall j | 0 <= j < |tail| :: s[0] < tail[j] by {
        forall j | 0 <= j < |tail| ensures s[0] < tail[j] {
          assert tail[j] in tail;
        }
      }
      [s[0]] + tail
  }

  /** `np.unique`: the distinct values of `s` in ascending order. */
  function Unique(s: seq<real>): (r: seq<real>)
    ensures StrictlyIncreasing(r)
    ensures forall v :: v in r <==> v in s
    ensures |r| <= |s|
  {
    if s == [] then []
    else
      var prefix := s[..|s| - 1];
      assert forall v :: v in s <==> v in prefix || v == s[|s| - 1];
      Insert(Unique(prefix), s[|s| - 1])
  }

  /** Names an element of a non-empty sequence. */
  lemma HeadIsElement(s: seq<real>)
    requires s != []
    ensures s[0] in s
  {
  }

  /** Two ascending sequences of distinct values with the same elements are equal:
      so `Unique` is the only ordering `np.unique` can return. */
  lemma {:induction false} AscendingDeterminedByElements(a: seq<real>, b: seq<real>)
    requires StrictlyIncreasing(a) && StrictlyIncreasing(b)
    requires forall v :: v in a <==> v in b
    ensures a == b
  {
    if a == [] && b == [] {
    } else if a == [] || b == [] {
      HeadIsElement(if a == [] then b else a);
      assert false;
    } else {
      assert a[0] in a && b[0] in b;
      assert a[0] == b[0] by {
        assert a[0] in b;
        assert b[0] in a;
      }
      forall v
        ensures v in a[1..] <==> v in b[1..]
      {
        if v in a[1..] {
          assert v in b;
        }
        if v in b[1..] {
          assert v in a;
        }
      }
      AscendingDeterminedByElements(a[1..], b[1..]);
      assert a == [a[0]] + a[1..];
      assert b == [b[0]] + b[1..];
    }
  }

  /** `g == v`: a boolean array, true exactly where `g` holds `v`. */
  function ElementwiseEq(g: Grid<real>, v: real): (r: Grid<bool>)
    ensures r.shape == g.shape && |r.cells| == |g.cells|
    ensures forall k | 0 <= k < |g.cells| :: r.cells[k] <==> g.cells[k] == v
  {
    Grid(g.shape, seq(|g.cells|, k requires 0 <= k < |g.cells| => g.cells[k] == v))
  }

  /** `astype(np.uint8)` of a boolean array: 1 where true, 0 where false. */
  function AsUint8(m: Grid<bool>): (r: Grid<int>)
    ensures r.shape == m.shape && |r.cells| == |m.cells|
    ensures forall k | 0 <= k < |m.cells| :: (r.cells[k] == 1 <==> m.cells[k]) && (r.cells[k] == 0 <==> !m.cells[k])
  {
    Grid(m.shape, seq(|m.cells|, k requires 0 <= k < |m.cells| => if m.cells[k] then 1 else 0))
  }
}
