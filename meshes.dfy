/** Building meshes as the layout scripts see them: the ground-plane coordinate
  * vectors that get shifted in place, and the cached upper corner `max_`
  * (numpy-stl does not refresh it when coordinates change; the scripts assign
  * it themselves). Heights (z) are only read through the cache. */
module Meshes {
  import opened Bounds

  /** A model is dropped at load time when any component of its upper corner is below this. */
  const MinModelExtent: real := 4.0

  class Mesh {
    var x: array<real>
    var y: array<real>
    var maxX: real  // max_[0]
    var maxY: real  // max_[1]
    var maxZ: real  // max_[2]

    ghost predicate Valid()
      reads this
    {
      x != y && x.Length > 0 && y.Length > 0
    }

    /** The coordinates start at 0 on both ground axes and the cache holds the far corner. */
    ghost predicate AtOrigin()
      reads this, x, y
      requires Valid()
    {
      Min(x[..]) == 0.0 && Min(y[..]) == 0.0 && maxX == Max(x[..]) && maxY == Max(y[..])
    }

    /** `mesh.x += dx; mesh.y += dy`: every vertex moves by (dx, dy); the cache is left as it was. */
    method Translate(dx: real, dy: real)
      requires Valid()
      modifies x, y
      ensures x[..] == Shifted(old(x[..]), dx)
      ensures y[..] == Shifted(old(y[..]), dy)
    {
      ShiftArray(x, dx);
      ShiftArray(y, dy);
    }

    /** Shift to origin and refresh `max_[0]`, `max_[1]` (load step of the scene generator). */
    method ShiftToOrigin()
      requires Valid()
      modifies this, x, y
      ensures Valid() && x == old(x) && y == old(y) && maxZ == old(maxZ)
      ensures Loaded(this, old(x[..]), old(y[..]))
    {
      var lowX, topX := ShiftAxisToOrigin(x);
      var lowY, topY := ShiftAxisToOrigin(y);
      maxX, maxY := topX, topY;
    }
  }

  /** `a -= np.min(a)` followed by `np.max(a)`: one axis moved to start at 0; returns the old
    * minimum and the new maximum. */
  method ShiftAxisToOrigin(a: array<real>) returns (low: real, top: real)
    requires a.Length > 0
    modifies a
    ensures low == Min(old(a[..]))
    ensures a[..] == Shifted(old(a[..]), -low)
    ensures Min(a[..]) == 0.0 && top == Max(a[..])
    ensures top == Max(old(a[..])) - low
  {
    ghost var a0 := a[..];
    low := Min(a[..]);
    ShiftArray(a, -low);
    ShiftedMin(a0, -low);
    ShiftedMax(a0, -low);
    top := Max(a[..]);
  }

  /** In-place `a += d` on one coordinate vector. */
  method ShiftArray(a: array<real>, d: real)
    modifies a
    ensures a[..] == Shifted(old(a[..]), d)
  {
    for i := 0 to a.Length
      invariant forall k :: 0 <= k < i ==> a[k] == old(a[k]) + d
      invariant forall k :: i <= k < a.Length ==> a[k] == old(a[k])
    {
      a[i] := a[i] + d;
    }
  }

  /** The load filter: `np.any(mesh.max_ < 4)` rejects the model. */
  predicate Kept(maxX: real, maxY: real, maxZ: real)
  {
    !(maxX < MinModelExtent || maxY < MinModelExtent || maxZ < MinModelExtent)
  }

  /** The filter's verdict for each mesh, read from its cached upper corner. */
  ghost function Verdicts(ms: seq<Mesh>): (f: seq<bool>)
    reads set m | m in ms
    ensures |f| == |ms|
    ensures forall i :: 0 <= i < |ms| ==> f[i] == Kept(ms[i].maxX, ms[i].maxY, ms[i].maxZ)
  {
    if ms == [] then [] else Verdicts(ms[..|ms| - 1]) + [Kept(ms[|ms| - 1].maxX, ms[|ms| - 1].maxY, ms[|ms| - 1].maxZ)]
  }

  /** The entries of `ms` whose flag is set, in their original order. */
  function Select<T>(ms: seq<T>, f: seq<bool>): seq<T>
    requires |f| == |ms|
  {
    if ms == [] then []
    else
      var n := |ms| - 1;
      Select(ms[..n], f[..n]) + (if f[n] then [ms[n]] else [])
  }

  /** Meshes are different objects with different coordinate vectors. */
  ghost predicate Separate(ms: seq<Mesh>)
    reads set m | m in ms
  {
    forall i, j :: 0 <= i < |ms| && 0 <= j < |ms| && i != j ==>
      ms[i] != ms[j] && ms[i].x != ms[j].x && ms[i].x != ms[j].y && ms[i].y != ms[j].x && ms[i].y != ms[j].y
  }

  /** `m` holds the coordinates `x0`, `y0` moved so that both start at 0, and its cache holds the extents. */
  ghost predicate Loaded(m: Mesh, x0: seq<real>, y0: seq<real>)
    reads m, m.x, m.y
  {
    |x0| > 0 && |y0| > 0
    && m.x[..] == Shifted(x0, -Min(x0)) && m.y[..] == Shifted(y0, -Min(y0))
    && m.maxX == Max(x0) - Min(x0) && m.maxY == Max(y0) - Min(y0)
  }

  /** A loaded mesh starts at 0 on both ground axes and its cache holds its far corner,
    * which is also its extent before the shift. */
  lemma LoadedAtOrigin(m: Mesh, x0: seq<real>, y0: seq<real>)
    requires m.Valid() && Loaded(m, x0, y0)
    ensures m.AtOrigin()
    ensures m.maxX >= 0.0 && m.maxY >= 0.0
  {
    ShiftedToZero(x0);
    ShiftedToZero(y0);
    var sx, sy := m.x[..], m.y[..];
    assert Min(sx) == 0.0 && Max(sx) == Max(x0) - Min(x0);
    assert Min(sy) == 0.0 && Max(sy) == Max(y0) - Min(y0);
  }

  /** `m` still holds the coordinates `x0`, `y0` and the cached corner (`cx`, `cy`). */
  ghost predicate Untouched(m: Mesh, x0: seq<real>, y0: seq<real>, cx: real, cy: real)
    reads m, m.x, m.y
  {
    m.x[..] == x0 && m.y[..] == y0 && m.maxX == cx && m.maxY == cy
  }

  /** The load loop: keep the meshes that pass the filter, in order, each shifted to the origin
    * with its cache refreshed; rejected meshes are not touched. */
  method LoadPool(meshes: seq<Mesh>) returns (pool: seq<Mesh>)
    requires forall m :: m in meshes ==> m.Valid()
    requires Separate(meshes)
    modifies set m | m in meshes, set m | m in meshes :: m.x, set m | m in meshes :: m.y
    ensures pool == Select(meshes, old(Verdicts(meshes)))
    ensures forall i :: 0 <= i < |meshes| ==> meshes[i].Valid() && meshes[i].x == old(meshes[i].x) && meshes[i].y == old(meshes[i].y)
    ensures forall i :: 0 <= i < |meshes| ==> meshes[i].maxZ == old(meshes[i].maxZ)
    ensures forall i :: 0 <= i < |meshes| ==>
      if old(Verdicts(meshes))[i] then Loaded(meshes[i], old(meshes[i].x[..]), old(meshes[i].y[..]))
      else Untouched(meshes[i], old(meshes[i].x[..]), old(meshes[i].y[..]), old(meshes[i].maxX), old(meshes[i].maxY))
  {
    ghost var f := Verdicts(meshes);
    pool := [];
    for i := 0 to |meshes|
      invariant pool == Select(meshes[..i], f[..i])
      invariant forall k :: 0 <= k < |meshes| ==>
        meshes[k].Valid() && meshes[k].x == old(meshes[k].x) && meshes[k].y == old(meshes[k].y)
        && meshes[k].maxZ == old(meshes[k].maxZ)
        && (if k < i && f[k] then Loaded(meshes[k], old(meshes[k].x[..]), old(meshes[k].y[..]))
            else Untouched(meshes[k], old(meshes[k].x[..]), old(meshes[k].y[..]), old(meshes[k].maxX), old(meshes[k].maxY)))
    {
      var m := meshes[i];
      assert meshes[..i + 1][..i] == meshes[..i] && f[..i + 1][..i] == f[..i];
      if Kept(m.maxX, m.maxY, m.maxZ) {
        label Before:
        m.ShiftToOrigin();
        forall k | 0 <= k < |meshes| && k != i
          ensures meshes[k].x[..] == old@Before(meshes[k].x[..]) && meshes[k].y[..] == old@Before(meshes[k].y[..])
          ensures meshes[k].maxX == old@Before(meshes[k].maxX) && meshes[k].maxY == old@Before(meshes[k].maxY)
          ensures meshes[k].maxZ == old@Before(meshes[k].maxZ)
        {
          assert old(Separate(meshes));
          assert meshes[k] != m && meshes[k].x != m.x && meshes[k].x != m.y && meshes[k].y != m.x && meshes[k].y != m.y;
        }
        pool := pool + [m];
      }
    }
    assert meshes[..|meshes|] == meshes && f[..|meshes|] == f;
  }
}
