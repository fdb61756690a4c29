/** What happens to a subsection's admitted rects after admission: the packer
  * places them in the subsection's bin (or, when it uses no bin, the last
  * admitted rect is put at the bin's origin), each placed rect turns into a
  * copy of its pool building centred in the rect, the placed rects' common
  * extent is folded up from `[0, 0, 0, 0]`, and every building of the
  * subsection is then moved so that the extent is centred in the subsection,
  * in coordinates whose origin is the centre of the domain. */
module Placement {
  import opened Bounds
  import opened Tiling
  import opened Admission

  /** One packer result `(x, y, w, h, rid)`. */
  datatype Placed = Placed(x: real, y: real, w: real, h: real, id: nat)
  /** The packer's answer: it used no bin, or these are the rects of its first bin. */
  datatype Packing = NoBin | Packed(placements: seq<Placed>)
  /** `area_bound`: lower corner (x0, y0), upper corner (x1, y1). */
  datatype Extent = Extent(x0: real, y0: real, x1: real, y1: real)
  /** A translation of the ground plane. */
  datatype Shift = Shift(dx: real, dy: real)
  /** An emitted building: a copy of pool entry `id` (which starts at the origin) moved by (dx, dy). */
  datatype Building = Building(id: nat, dx: real, dy: real)

  /** The packer, given the rects to pack and the bin's length and width. */
  type Packer = (seq<Rect>, real, real) -> Packing

  predicate InBin(p: Placed, length: real, width: real)
  {
    0.0 <= p.x && p.x + p.w <= length && 0.0 <= p.y && p.y + p.h <= width
  }

  /** The placement keeps the size and id of a submitted rect (no rotation). */
  predicate Matches(p: Placed, r: Rect)
  {
    p.w == r.w && p.h == r.h && p.id == r.id
  }

  /** What is relied on from the packer: a used bin holds at least one rect, and every placement
    * lies in the bin and is one of the submitted rects. */
  ghost predicate SoundPacking(pk: Packing, rects: seq<Rect>, length: real, width: real)
  {
    pk.Packed? ==>
      |pk.placements| > 0
      && forall i :: 0 <= i < |pk.placements| ==>
           InBin(pk.placements[i], length, width)
           && exists k :: 0 <= k < |rects| && Matches(pk.placements[i], rects[k])
  }

  ghost predicate SoundPacker(pack: Packer)
  {
    forall rects, length, width :: SoundPacking(pack(rects, length, width), rects, length, width)
  }

  /** The assumption can be met: a packer that never uses a bin (so that the fallback placement
    * is always taken) is sound. */
  lemma NoBinPackerSound()
    ensures SoundPacker((rects: seq<Rect>, length: real, width: real) => NoBin)
  {
  }

  /** `packer_res`: the first bin's rects, or the last admitted rect at (0, 0) when no bin was used. */
  function Placements(pk: Packing, rects: seq<Rect>): seq<Placed>
    requires |rects| > 0
  {
    match pk
    case Packed(ps) => ps
    case NoBin =>
      var last := rects[|rects| - 1];
      [Placed(0.0, 0.0, last.w, last.h, last.id)]
  }

  /** Whatever the packer answers, the placements are non-empty and each is one of the admitted rects. */
  lemma PlacementsFromRects(pk: Packing, rects: seq<Rect>, length: real, width: real)
    requires |rects| > 0 && SoundPacking(pk, rects, length, width)
    ensures |Placements(pk, rects)| > 0
    ensures var ps := Placements(pk, rects);
      forall i :: 0 <= i < |ps| ==> exists k :: 0 <= k < |rects| && Matches(ps[i], rects[k])
  {
    var ps := Placements(pk, rects);
    match pk
    case NoBin =>
      var last := rects[|rects| - 1];
      assert ps == [Placed(0.0, 0.0, last.w, last.h, last.id)];
      forall i | 0 <= i < |ps|
        ensures exists k :: 0 <= k < |rects| && Matches(ps[i], rects[k])
      {
        assert Matches(ps[i], rects[|rects| - 1]);
      }
    case Packed(pls) =>
      assert ps == pls;
      assert |pls| > 0 && forall i :: 0 <= i < |pls| ==>
        InBin(pls[i], length, width) && exists k :: 0 <= k < |rects| && Matches(pls[i], rects[k]);
      forall i | 0 <= i < |ps|
        ensures exists k :: 0 <= k < |rects| && Matches(ps[i], rects[k])
      {
        assert InBin(pls[i], length, width) && exists k :: 0 <= k < |rects| && Matches(pls[i], rects[k]);
      }
  }

  /** Placements name only pool entries that admitted rects name. */
  lemma PlacedIdsBelow(pk: Packing, rects: seq<Rect>, length: real, width: real, n: nat)
    requires |rects| > 0 && SoundPacking(pk, rects, length, width) && IdsBelow(rects, n)
    ensures var ps := Placements(pk, rects);
      forall i :: 0 <= i < |ps| ==> ps[i].id < n
  {
    PlacementsFromRects(pk, rects, length, width);
  }

  /** The fallback placement lies in the bin exactly when the last admitted rect fits it. */
  lemma FallbackInBin(rects: seq<Rect>, length: real, width: real)
    requires |rects| > 0
    ensures var last := rects[|rects| - 1];
      InBin(Placements(NoBin, rects)[0], length, width) <==> last.w <= length && last.h <= width
  {
  }

  /** The copy of pool entry `p.id` (bound `b`) placed in rect `p` of subsection `sub`:
    * `r[0] + sub_area[0] + 0.5 * (r[2] - mesh_bound[0])`, likewise in y. */
  function PlaceBuilding(p: Placed, b: Bound, sub: Subsection): Building
  {
    Building(p.id, p.x + sub.x + 0.5 * (p.w - b.w), p.y + sub.y + 0.5 * (p.h - b.h))
  }

  /** The footprint [dx, dx + b.w] x [dy, dy + b.h] of the copy has the centre of the rect; if the
    * rect is padded by at least `MinSpace`, the copy keeps half of that clear on every side. */
  lemma BuildingCentredInRect(p: Placed, b: Bound, sub: Subsection)
    ensures var c := PlaceBuilding(p, b, sub);
      c.dx + b.w / 2.0 == sub.x + p.x + p.w / 2.0 && c.dy + b.h / 2.0 == sub.y + p.y + p.h / 2.0
    ensures var c := PlaceBuilding(p, b, sub);
      b.w + MinSpace <= p.w && b.h + MinSpace <= p.h ==>
        sub.x + p.x + MinSpace / 2.0 <= c.dx && c.dx + b.w <= sub.x + p.x + p.w - MinSpace / 2.0
        && sub.y + p.y + MinSpace / 2.0 <= c.dy && c.dy + b.h <= sub.y + p.y + p.h - MinSpace / 2.0
  {
  }

  /** The lower-left corners `(r[0], r[1])` of the placed rects. */
  function Lows(ps: seq<Placed>): (q: seq<Point>)
    ensures |q| == |ps| && forall i :: 0 <= i < |ps| ==> q[i] == Point(ps[i].x, ps[i].y)
  {
    seq(|ps|, i requires 0 <= i < |ps| => Point(ps[i].x, ps[i].y))
  }

  /** The upper-right corners `(r[2] + r[0], r[3] + r[1])` of the placed rects. */
  function Highs(ps: seq<Placed>): (q: seq<Point>)
    ensures |q| == |ps| && forall i :: 0 <= i < |ps| ==> q[i] == Point(ps[i].w + ps[i].x, ps[i].h + ps[i].y)
  {
    seq(|ps|, i requires 0 <= i < |ps| => Point(ps[i].w + ps[i].x, ps[i].h + ps[i].y))
  }

  /** `area_bound` after the loop: per-axis minimum and maximum over the placed rects and the
    * starting value 0. */
  function ExtentOf(ps: seq<Placed>): Extent
  {
    Extent(Min([0.0] + Xs(Lows(ps))), Min([0.0] + Ys(Lows(ps))), Max([0.0] + Xs(Highs(ps))), Max([0.0] + Ys(Highs(ps))))
  }

  /** The extent encloses every placed rect and the point (0, 0). */
  lemma ExtentEncloses(ps: seq<Placed>)
    ensures var e := ExtentOf(ps);
      e.x0 <= 0.0 <= e.x1 && e.y0 <= 0.0 <= e.y1
      && forall i :: 0 <= i < |ps| ==>
           e.x0 <= ps[i].x && ps[i].x + ps[i].w <= e.x1 && e.y0 <= ps[i].y && ps[i].y + ps[i].h <= e.y1
  {
    var ls, bs, rs, ts := [0.0] + Xs(Lows(ps)), [0.0] + Ys(Lows(ps)), [0.0] + Xs(Highs(ps)), [0.0] + Ys(Highs(ps));
    MinProperties(ls);
    MinProperties(bs);
    MaxProperties(rs);
    MaxProperties(ts);
    forall i | 0 <= i < |ps|
      ensures Min(ls) <= ps[i].x && ps[i].x + ps[i].w <= Max(rs) && Min(bs) <= ps[i].y && ps[i].y + ps[i].h <= Max(ts)
    {
      assert ls[i + 1] == ps[i].x && rs[i + 1] == ps[i].w + ps[i].x;
      assert bs[i + 1] == ps[i].y && ts[i + 1] == ps[i].h + ps[i].y;
    }
  }

  /** Each side of the extent is 0 or a side of some placed rect. */
  lemma ExtentAttained(ps: seq<Placed>)
    ensures var e := ExtentOf(ps);
      (e.x0 == 0.0 || exists i :: 0 <= i < |ps| && e.x0 == ps[i].x)
      && (e.y0 == 0.0 || exists i :: 0 <= i < |ps| && e.y0 == ps[i].y)
      && (e.x1 == 0.0 || exists i :: 0 <= i < |ps| && e.x1 == ps[i].w + ps[i].x)
      && (e.y1 == 0.0 || exists i :: 0 <= i < |ps| && e.y1 == ps[i].h + ps[i].y)
  {
    var e := ExtentOf(ps);
    var a := MinWithZeroAttained(Xs(Lows(ps)));
    var b := MinWithZeroAttained(Ys(Lows(ps)));
    var c := MaxWithZeroAttained(Xs(Highs(ps)));
    var d := MaxWithZeroAttained(Ys(Highs(ps)));
    if a < |ps| { assert e.x0 == ps[a].x; }
    if b < |ps| { assert e.y0 == ps[b].y; }
    if c < |ps| { assert e.x1 == ps[c].w + ps[c].x; }
    if d < |ps| { assert e.y1 == ps[d].h + ps[d].y; }
  }

  /** When every placed rect is in a bin of non-negative size, the extent starts at (0, 0) and
    * stays in the bin. */
  lemma ExtentInBin(ps: seq<Placed>, length: real, width: real)
    requires length >= 0.0 && width >= 0.0
    requires forall i :: 0 <= i < |ps| ==> InBin(ps[i], length, width)
    ensures var e := ExtentOf(ps);
      e.x0 == 0.0 && e.y0 == 0.0 && e.x1 <= length && e.y1 <= width
  {
    ExtentEncloses(ps);
    ExtentAttained(ps);
  }

  /** The extent loop (`area_bound` updated in place, one placed rect at a time) together with the
    * copies it places. */
  method PlaceAll(pool: seq<Bound>, sub: Subsection, ps: seq<Placed>) returns (bs: seq<Building>, ext: Extent)
    requires forall i :: 0 <= i < |ps| ==> ps[i].id < |pool|
    ensures |bs| == |ps|
    ensures forall i :: 0 <= i < |ps| ==> bs[i] == PlaceBuilding(ps[i], pool[ps[i].id], sub)
    ensures ext == ExtentOf(ps)
  {
    bs := [];
    ext := Extent(0.0, 0.0, 0.0, 0.0);
    for i := 0 to |ps|
      invariant |bs| == i
      invariant forall k :: 0 <= k < i ==> bs[k] == PlaceBuilding(ps[k], pool[ps[k].id], sub)
      invariant ext == ExtentOf(ps[..i])
    {
      var r := ps[i];
      bs := bs + [PlaceBuilding(r, pool[r.id], sub)];
      ExtentStep(ps, i);
      if r.x < ext.x0 {
        ext := ext.(x0 := r.x);
      }
      if r.y < ext.y0 {
        ext := ext.(y0 := r.y);
      }
      if r.w + r.x > ext.x1 {
        ext := ext.(x1 := r.w + r.x);
      }
      if r.h + r.y > ext.y1 {
        ext := ext.(y1 := r.h + r.y);
      }
    }
    assert ps[..|ps|] == ps;
  }

  /** One more placed rect folds into each side of the extent. */
  lemma ExtentStep(ps: seq<Placed>, i: nat)
    requires i < |ps|
    ensures var e, r := ExtentOf(ps[..i]), ps[i];
      ExtentOf(ps[..i + 1]) == Extent(
        if r.x < e.x0 then r.x else e.x0, if r.y < e.y0 then r.y else e.y0,
        if r.w + r.x > e.x1 then r.w + r.x else e.x1, if r.h + r.y > e.y1 then r.h + r.y else e.y1)
  {
    var r := ps[i];
    var before, after := ps[..i], ps[..i + 1];
    assert [0.0] + Xs(Lows(after)) == ([0.0] + Xs(Lows(before))) + [r.x];
    assert [0.0] + Ys(Lows(after)) == ([0.0] + Ys(Lows(before))) + [r.y];
    assert [0.0] + Xs(Highs(after)) == ([0.0] + Xs(Highs(before))) + [r.w + r.x];
    assert [0.0] + Ys(Highs(after)) == ([0.0] + Ys(Highs(before))) + [r.h + r.y];
    MinSnoc([0.0] + Xs(Lows(before)), r.x);
    MinSnoc([0.0] + Ys(Lows(before)), r.y);
    MaxSnoc([0.0] + Xs(Highs(before)), r.w + r.x);
    MaxSnoc([0.0] + Ys(Highs(before)), r.h + r.y);
  }

  /** `sub_area[-2] / 2 - (area_bound[2] - area_bound[0]) / 2 - domain_size / 2`, likewise in y. */
  function Centring(ext: Extent, sub: Subsection): Shift
  {
    Shift(sub.length / 2.0 - (ext.x1 - ext.x0) / 2.0 - DomainSize / 2.0,
          sub.width / 2.0 - (ext.y1 - ext.y0) / 2.0 - DomainSize / 2.0)
  }

  function Moved(b: Building, s: Shift): Building
  {
    Building(b.id, b.dx + s.dx, b.dy + s.dy)
  }

  /** An extent that starts at (0, 0), moved with the subsection's centring shift, has the centre
    * of the subsection, in coordinates centred on the domain. */
  lemma ClusterCentred(ext: Extent, sub: Subsection)
    requires ext.x0 == 0.0 && ext.y0 == 0.0
    ensures var s := Centring(ext, sub);
      sub.x + (ext.x0 + ext.x1) / 2.0 + s.dx == sub.x + sub.length / 2.0 - DomainSize / 2.0
      && sub.y + (ext.y0 + ext.y1) / 2.0 + s.dy == sub.y + sub.width / 2.0 - DomainSize / 2.0
  {
  }

  /** The save loop: every copy of the subsection gets the same shift, is emitted in order, and
    * is counted; `saved` is set as soon as one is emitted. */
  method EmitAll(bs: seq<Building>, s: Shift, buildingIdx: nat, saved: bool)
    returns (out: seq<Building>, buildingIdx': nat, saved': bool)
    ensures |out| == |bs| && forall i :: 0 <= i < |bs| ==> out[i] == Moved(bs[i], s)
    ensures buildingIdx' == buildingIdx + |bs|
    ensures saved' == (saved || |bs| > 0)
  {
    out, buildingIdx', saved' := [], buildingIdx, saved;
    for i := 0 to |bs|
      invariant |out| == i && forall k :: 0 <= k < i ==> out[k] == Moved(bs[k], s)
      invariant buildingIdx' == buildingIdx + i
      invariant saved' == (saved || i > 0)
    {
      out := out + [Moved(bs[i], s)];
      saved' := true;
      buildingIdx' := buildingIdx' + 1;
    }
  }

  /** All buildings of one subsection, in the order of the placements. */
  function Layout(pool: seq<Bound>, sub: Subsection, ps: seq<Placed>): (bs: seq<Building>)
    requires forall i :: 0 <= i < |ps| ==> ps[i].id < |pool|
    ensures |bs| == |ps| && forall i :: 0 <= i < |ps| ==> bs[i].id == ps[i].id
  {
    var s := Centring(ExtentOf(ps), sub);
    seq(|ps|, i requires 0 <= i < |ps| => Moved(PlaceBuilding(ps[i], pool[ps[i].id], sub), s))
  }

  /** When the packer placed padded rects inside the bin, every building's footprint lies inside
    * its subsection (in coordinates centred on the domain). */
  lemma LayoutInSubsection(pool: seq<Bound>, sub: Subsection, ps: seq<Placed>)
    requires sub.length >= 0.0 && sub.width >= 0.0
    requires forall i :: 0 <= i < |ps| ==>
      InBin(ps[i], sub.length, sub.width) && ps[i].id < |pool|
      && pool[ps[i].id].w + MinSpace <= ps[i].w && pool[ps[i].id].h + MinSpace <= ps[i].h
    ensures var bs := Layout(pool, sub, ps);
      forall i :: 0 <= i < |bs| ==>
        sub.x - DomainSize / 2.0 <= bs[i].dx && bs[i].dx + pool[ps[i].id].w <= sub.x + sub.length - DomainSize / 2.0
        && sub.y - DomainSize / 2.0 <= bs[i].dy && bs[i].dy + pool[ps[i].id].h <= sub.y + sub.width - DomainSize / 2.0
  {
    ExtentInBin(ps, sub.length, sub.width);
    ExtentEncloses(ps);
  }
}
