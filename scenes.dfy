/** The per-scene loop of the city generator: split the domain into
  * subsections, and for each one admit rects from the building pool (the
  * pool cursor and the stream of random draws carry over from subsection to
  * subsection and from scene to scene), pack them, place and centre the
  * copies, and emit them with consecutive building numbers. */
module Scenes {
  import opened Tiling
  import opened Admission
  import opened Placement
  import Meshes

  /** The subsections of a scene with an n0 x n1 grid, in the order they are visited. */
  function Grid(n0: nat, n1: nat): seq<Subsection>
    requires n0 >= 1 && n1 >= 1
  {
    Rows(n0, n1, SubSize(DomainSize, LaneWidth, n0), SubSize(DomainSize, LaneWidth, n1), LaneWidth)
  }

  /** A finished scene with the buildings it emits and the cursor and draw count it leaves, or a
    * scene whose admission of some subsection was still running when its fuel ran out. */
  datatype SceneResult =
    | Scene(buildings: seq<Building>, cursor: nat, draws: nat)
    | Spinning(cursor: nat, draws: nat)

  /** Buildings emitted before `r`'s are put in front of them. */
  function Prepend(bs: seq<Building>, r: SceneResult): SceneResult
  {
    match r
    case Spinning(c, d) => Spinning(c, d)
    case Scene(rest, c, d) => Scene(bs + rest, c, d)
  }

  /** The admission budget of a subsection, `sub_area[-2] * sub_area[-1]`. */
  function Budget(sub: Subsection): real
  {
    sub.length * sub.width
  }

  /** The buildings of one subsection, given the rects admitted for it. */
  function SubsectionLayout(pool: seq<Bound>, pack: Packer, sub: Subsection, rects: seq<Rect>): (bs: seq<Building>)
    requires |rects| > 0 && IdsBelow(rects, |pool|) && SoundPacker(pack)
    ensures |bs| > 0
  {
    var pk := pack(rects, sub.length, sub.width);
    PlacedIdsBelow(pk, rects, sub.length, sub.width, |pool|);
    PlacementsFromRects(pk, rects, sub.length, sub.width);
    Layout(pool, sub, Placements(pk, rects))
  }

  /** The subsections `subs` visited in order from the given cursor and draw count, each admission
    * allowed `fuel` iterations. */
  function SceneFrom(pool: seq<Bound>, jitter: nat -> Jitter, pack: Packer, subs: seq<Subsection>,
                     cursor: nat, draws: nat, fuel: nat): (r: SceneResult)
    requires cursor < |pool| && SoundPacker(pack)
    ensures r.cursor < |pool|
    decreases |subs|
  {
    if subs == [] then Scene([], cursor, draws)
    else
      var sub := subs[0];
      var a := Admit(pool, jitter, Budget(sub), cursor, draws, fuel);
      if a.OutOfFuel? then Spinning(a.cursor, a.draws)
      else
        Prepend(SubsectionLayout(pool, pack, sub, a.rects),
                SceneFrom(pool, jitter, pack, subs[1..], a.cursor, a.draws, fuel))
  }

  /** One step of `SceneFrom`: the first subsection, then the rest from where it left the cursor. */
  lemma SceneFromStep(pool: seq<Bound>, jitter: nat -> Jitter, pack: Packer, subs: seq<Subsection>,
                      cursor: nat, draws: nat, fuel: nat)
    requires cursor < |pool| && SoundPacker(pack) && |subs| > 0
    ensures var a := Admit(pool, jitter, Budget(subs[0]), cursor, draws, fuel);
      SceneFrom(pool, jitter, pack, subs, cursor, draws, fuel)
      == if a.OutOfFuel? then Spinning(a.cursor, a.draws)
         else Prepend(SubsectionLayout(pool, pack, subs[0], a.rects),
                      SceneFrom(pool, jitter, pack, subs[1..], a.cursor, a.draws, fuel))
  {
  }

  /** After subsection k admits its rects and emits `out`, the rest of the scene follows on. */
  lemma SceneAdvances(pool: seq<Bound>, jitter: nat -> Jitter, pack: Packer, subs: seq<Subsection>, k: nat,
                      cursor: nat, draws: nat, fuel: nat, buildings: seq<Building>, out: seq<Building>,
                      target: SceneResult)
    requires cursor < |pool| && SoundPacker(pack) && k < |subs|
    requires Prepend(buildings, SceneFrom(pool, jitter, pack, subs[k..], cursor, draws, fuel)) == target
    requires var a := Admit(pool, jitter, Budget(subs[k]), cursor, draws, fuel);
      a.Admitted? && out == SubsectionLayout(pool, pack, subs[k], a.rects)
    ensures var a := Admit(pool, jitter, Budget(subs[k]), cursor, draws, fuel);
      Prepend(buildings + out, SceneFrom(pool, jitter, pack, subs[k + 1..], a.cursor, a.draws, fuel)) == target
  {
    var a := Admit(pool, jitter, Budget(subs[k]), cursor, draws, fuel);
    assert subs[k..][0] == subs[k] && subs[k..][1..] == subs[k + 1..];
    SceneFromStep(pool, jitter, pack, subs[k..], cursor, draws, fuel);
    PrependTwice(buildings, out, SceneFrom(pool, jitter, pack, subs[k + 1..], a.cursor, a.draws, fuel));
  }

  /** When subsection k's admission runs out of fuel, so does the scene, where it stopped. */
  lemma SceneSpins(pool: seq<Bound>, jitter: nat -> Jitter, pack: Packer, subs: seq<Subsection>, k: nat,
                   cursor: nat, draws: nat, fuel: nat, buildings: seq<Building>, target: SceneResult)
    requires cursor < |pool| && SoundPacker(pack) && k < |subs|
    requires Prepend(buildings, SceneFrom(pool, jitter, pack, subs[k..], cursor, draws, fuel)) == target
    requires Admit(pool, jitter, Budget(subs[k]), cursor, draws, fuel).OutOfFuel?
    ensures var a := Admit(pool, jitter, Budget(subs[k]), cursor, draws, fuel);
      target == Spinning(a.cursor, a.draws)
  {
    assert subs[k..][0] == subs[k];
    SceneFromStep(pool, jitter, pack, subs[k..], cursor, draws, fuel);
  }

  lemma PrependTwice(a: seq<Building>, b: seq<Building>, r: SceneResult)
    ensures Prepend(a, Prepend(b, r)) == Prepend(a + b, r)
  {
    if r.Scene? {
      assert a + (b + r.buildings) == (a + b) + r.buildings;
    }
  }

  /** A finished scene with at least one subsection emits at least one building: the
    * empty-scene warning is never reached. */
  lemma {:induction false} SceneNeverEmpty(pool: seq<Bound>, jitter: nat -> Jitter, pack: Packer,
                                            subs: seq<Subsection>, cursor: nat, draws: nat, fuel: nat)
    requires cursor < |pool| && SoundPacker(pack) && |subs| > 0
    ensures var r := SceneFrom(pool, jitter, pack, subs, cursor, draws, fuel);
      r.Scene? ==> |r.buildings| > 0
  {
  }

  /** Every subsection of the grid lies in the domain [0, 200] x [0, 200]. */
  lemma GridInDomain(n0: nat, n1: nat)
    requires 1 <= n0 <= 2 && 1 <= n1 <= 2
    ensures forall k :: 0 <= k < |Grid(n0, n1)| ==> InDomain(Grid(n0, n1)[k])
  {
    var length, width := SubSize(DomainSize, LaneWidth, n0), SubSize(DomainSize, LaneWidth, n1);
    RowsLength(n0, n1, length, width, LaneWidth);
    forall k | 0 <= k < |Grid(n0, n1)|
      ensures InDomain(Grid(n0, n1)[k])
    {
      var i, j := k / n1, k % n1;
      assert k == i * n1 + j;
      assert i < n0;
      RowsCell(n0, n1, i, j, length, width, LaneWidth);
      CellInDomain(DomainSize, LaneWidth, n0, n1, i, j);
    }
  }

  ghost predicate InDomain(sub: Subsection)
  {
    0.0 <= sub.x && sub.x + sub.length <= DomainSize && 0.0 <= sub.y && sub.y + sub.width <= DomainSize
    && sub.length >= 0.0 && sub.width >= 0.0
  }

  /** Every pool entry, padded by the spacing and the largest margin, fits the subsection. */
  ghost predicate RoomFor(pool: seq<Bound>, sub: Subsection)
  {
    forall k :: 0 <= k < |pool| ==>
      pool[k].w + MinSpace + BoxMarginFactor <= sub.length && pool[k].h + MinSpace + BoxMarginFactor <= sub.width
  }

  /** The footprint of building `b` (pool entry `b.id` moved by (dx, dy)) lies inside the domain
    * [-100, 100] x [-100, 100]. */
  ghost predicate InsideDomain(pool: seq<Bound>, b: Building)
  {
    b.id < |pool|
    && -DomainSize / 2.0 <= b.dx && b.dx + pool[b.id].w <= DomainSize / 2.0
    && -DomainSize / 2.0 <= b.dy && b.dy + pool[b.id].h <= DomainSize / 2.0
  }

  /** When the packer uses its bin, or when the last admitted rect fits the bin (the fallback
    * placement), every emitted building of one subsection lies inside the domain. */
  lemma SubsectionInsideDomain(pool: seq<Bound>, pack: Packer, sub: Subsection, a: Outcome)
    requires SoundPacker(pack) && InDomain(sub)
    requires a.Admitted? && |a.rects| > 0
    requires forall k :: 0 <= k < |a.rects| ==> Padded(pool, a.rects[k])
    requires var last := a.rects[|a.rects| - 1];
      pack(a.rects, sub.length, sub.width).Packed? || (last.w <= sub.length && last.h <= sub.width)
    ensures IdsBelow(a.rects, |pool|)
    ensures forall i :: 0 <= i < |SubsectionLayout(pool, pack, sub, a.rects)| ==>
      InsideDomain(pool, SubsectionLayout(pool, pack, sub, a.rects)[i])
  {
    var pk := pack(a.rects, sub.length, sub.width);
    assert SoundPacking(pk, a.rects, sub.length, sub.width);
    var ps := Placements(pk, a.rects);
    match pk {
      case NoBin =>
        var last := a.rects[|a.rects| - 1];
        assert ps == [Placed(0.0, 0.0, last.w, last.h, last.id)];
        assert Padded(pool, last);
        forall i | 0 <= i < |ps|
          ensures InBin(ps[i], sub.length, sub.width) && ps[i].id < |pool|
          ensures pool[ps[i].id].w + MinSpace <= ps[i].w && pool[ps[i].id].h + MinSpace <= ps[i].h
        {
          assert ps[i] == Placed(0.0, 0.0, last.w, last.h, last.id);
        }
      case Packed(pls) =>
        assert ps == pls;
        forall i | 0 <= i < |ps|
          ensures InBin(ps[i], sub.length, sub.width) && ps[i].id < |pool|
          ensures pool[ps[i].id].w + MinSpace <= ps[i].w && pool[ps[i].id].h + MinSpace <= ps[i].h
        {
          var k :| 0 <= k < |a.rects| && Matches(ps[i], a.rects[k]);
          assert Padded(pool, a.rects[k]);
        }
    }
    LayoutInSubsection(pool, sub, ps);
    assert SubsectionLayout(pool, pack, sub, a.rects) == Layout(pool, sub, ps);
  }

  /** When the draws are in [0, 1) and every pool entry with the largest padding fits every
    * subsection (so that even the packer's fallback placement lies in the bin), every building of
    * a finished scene lies inside the domain. */
  lemma {:induction false} SceneInsideDomain(pool: seq<Bound>, jitter: nat -> Jitter, pack: Packer,
                                              subs: seq<Subsection>, cursor: nat, draws: nat, fuel: nat)
    requires cursor < |pool| && SoundPacker(pack) && UnitJitter(jitter)
    requires forall k :: 0 <= k < |subs| ==> InDomain(subs[k]) && RoomFor(pool, subs[k])
    ensures var r := SceneFrom(pool, jitter, pack, subs, cursor, draws, fuel);
      r.Scene? ==> forall i :: 0 <= i < |r.buildings| ==> InsideDomain(pool, r.buildings[i])
    decreases |subs|
  {
    if subs != [] {
      var sub := subs[0];
      var a := Admit(pool, jitter, Budget(sub), cursor, draws, fuel);
      SceneFromStep(pool, jitter, pack, subs, cursor, draws, fuel);
      if a.Admitted? {
        AdmitPadded(pool, jitter, Budget(sub), cursor, draws, 0.0, [], fuel);
        assert Padded(pool, a.rects[|a.rects| - 1]);
        assert RoomFor(pool, sub);
        SubsectionInsideDomain(pool, pack, sub, a);
        assert forall k :: 0 <= k < |subs[1..]| ==> subs[1..][k] == subs[k + 1];
        SceneInsideDomain(pool, jitter, pack, subs[1..], a.cursor, a.draws, fuel);
        PrependInside(pool, SubsectionLayout(pool, pack, sub, a.rects),
                      SceneFrom(pool, jitter, pack, subs[1..], a.cursor, a.draws, fuel));
      }
    }
  }

  lemma PrependInside(pool: seq<Bound>, bs: seq<Building>, r: SceneResult)
    requires forall i :: 0 <= i < |bs| ==> InsideDomain(pool, bs[i])
    requires r.Scene? ==> forall i :: 0 <= i < |r.buildings| ==> InsideDomain(pool, r.buildings[i])
    ensures var p := Prepend(bs, r);
      p.Scene? ==> forall i :: 0 <= i < |p.buildings| ==> InsideDomain(pool, p.buildings[i])
  {
    if r.Scene? {
      var all := bs + r.buildings;
      assert forall i :: |bs| <= i < |all| ==> all[i] == r.buildings[i - |bs|];
    }
  }

  /** The grid counts drawn for one scene (`np.random.randint(1, 3, size=2)`, so 1 or 2 each). */
  datatype Shape = Shape(n0: nat, n1: nat)

  ghost predicate Shapes(shapes: seq<Shape>)
  {
    forall k :: 0 <= k < |shapes| ==> shapes[k].n0 >= 1 && shapes[k].n1 >= 1
  }

  /** The scenes generated one after the other, and whether all of them finished. */
  datatype Run = Run(scenes: seq<seq<Building>>, cursor: nat, draws: nat, finished: bool)

  /** Scenes with the given shapes, from the given cursor and draw count. */
  function RunFrom(pool: seq<Bound>, jitter: nat -> Jitter, pack: Packer, shapes: seq<Shape>,
                   cursor: nat, draws: nat, fuel: nat): (r: Run)
    requires cursor < |pool| && SoundPacker(pack) && Shapes(shapes)
    ensures r.cursor < |pool|
    ensures r.finished ==> |r.scenes| == |shapes|
    decreases |shapes|
  {
    if shapes == [] then Run([], cursor, draws, true)
    else
      match SceneFrom(pool, jitter, pack, Grid(shapes[0].n0, shapes[0].n1), cursor, draws, fuel)
      case Spinning(c, d) => Run([], c, d, false)
      case Scene(bs, c, d) =>
        var rest := RunFrom(pool, jitter, pack, shapes[1..], c, d, fuel);
        Run([bs] + rest.scenes, rest.cursor, rest.draws, rest.finished)
  }

  /** Scenes generated before `r`'s are put in front of them. */
  function PrependScenes(done: seq<seq<Building>>, r: Run): Run
  {
    Run(done + r.scenes, r.cursor, r.draws, r.finished)
  }

  /** Every scene of a run has at least one building. */
  lemma {:induction false} RunScenesNonEmpty(pool: seq<Bound>, jitter: nat -> Jitter, pack: Packer, shapes: seq<Shape>,
                                              cursor: nat, draws: nat, fuel: nat)
    requires cursor < |pool| && SoundPacker(pack) && Shapes(shapes)
    ensures NonEmptyScenes(RunFrom(pool, jitter, pack, shapes, cursor, draws, fuel).scenes)
    decreases |shapes|
  {
    if shapes != [] {
      var subs := Grid(shapes[0].n0, shapes[0].n1);
      GridNonEmpty(shapes[0].n0, shapes[0].n1);
      SceneNeverEmpty(pool, jitter, pack, subs, cursor, draws, fuel);
      var s := SceneFrom(pool, jitter, pack, subs, cursor, draws, fuel);
      if s.Scene? {
        RunFromStep(pool, jitter, pack, shapes, cursor, draws, fuel);
        RunScenesNonEmpty(pool, jitter, pack, shapes[1..], s.cursor, s.draws, fuel);
        ConsNonEmpty(s.buildings, RunFrom(pool, jitter, pack, shapes[1..], s.cursor, s.draws, fuel).scenes);
      }
    }
  }

  ghost predicate NonEmptyScenes(scenes: seq<seq<Building>>)
  {
    forall k :: 0 <= k < |scenes| ==> |scenes[k]| > 0
  }

  lemma ConsNonEmpty(bs: seq<Building>, rest: seq<seq<Building>>)
    requires |bs| > 0 && NonEmptyScenes(rest)
    ensures NonEmptyScenes([bs] + rest)
  {
    var all := [bs] + rest;
    assert forall k :: 1 <= k < |all| ==> all[k] == rest[k - 1];
  }

  /** One finished scene followed by the run of the remaining shapes. */
  lemma RunFromStep(pool: seq<Bound>, jitter: nat -> Jitter, pack: Packer, shapes: seq<Shape>,
                    cursor: nat, draws: nat, fuel: nat)
    requires cursor < |pool| && SoundPacker(pack) && Shapes(shapes) && shapes != []
    requires SceneFrom(pool, jitter, pack, Grid(shapes[0].n0, shapes[0].n1), cursor, draws, fuel).Scene?
    ensures Shapes(shapes[1..])
    ensures var s := SceneFrom(pool, jitter, pack, Grid(shapes[0].n0, shapes[0].n1), cursor, draws, fuel);
      RunFrom(pool, jitter, pack, shapes, cursor, draws, fuel).scenes
        == [s.buildings] + RunFrom(pool, jitter, pack, shapes[1..], s.cursor, s.draws, fuel).scenes
  {
    assert forall k :: 0 <= k < |shapes[1..]| ==> shapes[1..][k] == shapes[k + 1];
  }

  lemma GridNonEmpty(n0: nat, n1: nat)
    requires n0 >= 1 && n1 >= 1
    ensures |Grid(n0, n1)| > 0
  {
    var length, width := SubSize(DomainSize, LaneWidth, n0), SubSize(DomainSize, LaneWidth, n1);
    assert Grid(n0, n1) == Rows(n0 - 1, n1, length, width, LaneWidth) + Row(n0 - 1, n1, length, width, LaneWidth);
  }

  /** After scene i is finished with buildings `bs`, the rest of the run follows on. */
  lemma RunAdvances(pool: seq<Bound>, jitter: nat -> Jitter, pack: Packer, shapes: seq<Shape>, i: nat,
                    cursor: nat, draws: nat, fuel: nat, scenes: seq<seq<Building>>, target: Run)
    requires cursor < |pool| && SoundPacker(pack) && Shapes(shapes) && i < |shapes|
    requires PrependScenes(scenes, RunFrom(pool, jitter, pack, shapes[i..], cursor, draws, fuel)) == target
    requires SceneFrom(pool, jitter, pack, Grid(shapes[i].n0, shapes[i].n1), cursor, draws, fuel).Scene?
    ensures var s := SceneFrom(pool, jitter, pack, Grid(shapes[i].n0, shapes[i].n1), cursor, draws, fuel);
      PrependScenes(scenes + [s.buildings], RunFrom(pool, jitter, pack, shapes[i + 1..], s.cursor, s.draws, fuel)) == target
  {
    var t := shapes[i..];
    assert t[0] == shapes[i] && t[1..] == shapes[i + 1..];
    var s := SceneFrom(pool, jitter, pack, Grid(shapes[i].n0, shapes[i].n1), cursor, draws, fuel);
    var rest := RunFrom(pool, jitter, pack, shapes[i + 1..], s.cursor, s.draws, fuel);
    assert RunFrom(pool, jitter, pack, t, cursor, draws, fuel) == Run([s.buildings] + rest.scenes, rest.cursor, rest.draws, rest.finished);
    assert scenes + ([s.buildings] + rest.scenes) == (scenes + [s.buildings]) + rest.scenes;
  }

  /** When scene i does not finish, neither does the run, and it stops where the scene stopped. */
  lemma RunSpins(pool: seq<Bound>, jitter: nat -> Jitter, pack: Packer, shapes: seq<Shape>, i: nat,
                 cursor: nat, draws: nat, fuel: nat, scenes: seq<seq<Building>>, target: Run)
    requires cursor < |pool| && SoundPacker(pack) && Shapes(shapes) && i < |shapes|
    requires PrependScenes(scenes, RunFrom(pool, jitter, pack, shapes[i..], cursor, draws, fuel)) == target
    requires SceneFrom(pool, jitter, pack, Grid(shapes[i].n0, shapes[i].n1), cursor, draws, fuel).Spinning?
    ensures var s := SceneFrom(pool, jitter, pack, Grid(shapes[i].n0, shapes[i].n1), cursor, draws, fuel);
      target == Run(scenes, s.cursor, s.draws, false)
  {
    var t := shapes[i..];
    assert t[0] == shapes[i];
    assert scenes + [] == scenes;
  }

  /** The generator's state that outlives a scene: the pool, the random draws and the packer are
    * fixed; the pool cursor `global_index` and the number of draws taken advance. */
  class Generator {
    const pool: seq<Bound>
    const jitter: nat -> Jitter
    const pack: Packer
    var cursor: nat
    var draws: nat

    ghost predicate Valid()
      reads this
    {
      |pool| > 0 && cursor < |pool| && SoundPacker(pack)
    }

    /** The pool is the loaded meshes' cached extents, in order; the cursor starts at 0. */
    constructor (meshes: seq<Meshes.Mesh>, jitter: nat -> Jitter, pack: Packer)
      requires |meshes| > 0 && SoundPacker(pack)
      requires forall m :: m in meshes ==> m.Valid() && m.AtOrigin()
      ensures Valid() && this.jitter == jitter && this.pack == pack
      ensures pool == PoolOf(meshes) && cursor == 0 && draws == 0
    {
      this.pool := PoolOf(meshes);
      this.jitter := jitter;
      this.pack := pack;
      cursor := 0;
      draws := 0;
    }

    /** The admission loop for one subsection with area budget `budget`, run for at most `fuel`
      * iterations; `done` is false when the fuel ran out first. */
    method AdmitRects(budget: real, fuel: nat) returns (rects: seq<Rect>, total: real, done: bool)
      requires Valid()
      modifies this
      ensures Valid()
      ensures Admit(pool, jitter, budget, old(cursor), old(draws), fuel)
           == if done then Admitted(rects, total, cursor, draws) else OutOfFuel(cursor, draws)
      ensures done ==> |rects| > 0 && IdsBelow(rects, |pool|)
    {
      ghost var target := Admit(pool, jitter, budget, cursor, draws, fuel);
      rects, total := [], 0.0;
      var f := fuel;
      while true
        invariant Valid()
        invariant AdmitFrom(pool, jitter, budget, cursor, draws, total, rects, f) == target
        decreases f
      {
        if f == 0 {
          return rects, total, false;
        }
        f := f - 1;
        var region := Region(pool[cursor], jitter(draws), cursor);
        draws := draws + 1;
        if total + Area(region) > budget {
          if |rects| == 0 {
            cursor := cursor + 1;
            if cursor >= |pool| {
              cursor := 0;
            }
            continue;
          } else {
            return rects, total, true;
          }
        }
        total := total + Area(region);
        rects := rects + [region];
        cursor := cursor + 1;
        if cursor >= |pool| {
          cursor := 0;
        }
      }
    }

    /** Packing, placement, centring and emission for one subsection, given its admitted rects. */
    method LayoutSubsection(sub: Subsection, rects: seq<Rect>, buildingIdx: nat, saved: bool)
      returns (out: seq<Building>, buildingIdx': nat, saved': bool)
      requires Valid() && |rects| > 0 && IdsBelow(rects, |pool|)
      ensures out == SubsectionLayout(pool, pack, sub, rects)
      ensures buildingIdx' == buildingIdx + |out| && saved' == (saved || |out| > 0)
    {
      var pk := pack(rects, sub.length, sub.width);
      var ps := Placements(pk, rects);
      PlacedIdsBelow(pk, rects, sub.length, sub.width, |pool|);
      var bs, ext := PlaceAll(pool, sub, ps);
      out, buildingIdx', saved' := EmitAll(bs, Centring(ext, sub), buildingIdx, saved);
      assert out == Layout(pool, sub, ps);
    }

    /** The subsections of one scene, visited in order; each admission gets at most `fuel`
      * iterations. `done` is false when some admission ran out of fuel. */
    method VisitSubsections(subs: seq<Subsection>, fuel: nat)
      returns (buildings: seq<Building>, buildingIdx: nat, saved: bool, done: bool)
      requires Valid()
      modifies this
      ensures Valid()
      ensures var r := SceneFrom(pool, jitter, pack, subs, old(cursor), old(draws), fuel);
        r.cursor == cursor && r.draws == draws && (done <==> r.Scene?) && (done ==> r.buildings == buildings)
      ensures buildingIdx == |buildings| && saved == (buildingIdx > 0)
      ensures done && |subs| > 0 ==> saved
    {
      ghost var target := SceneFrom(pool, jitter, pack, subs, cursor, draws, fuel);
      buildings, buildingIdx, saved := [], 0, false;
      for k := 0 to |subs|
        invariant Valid()
        invariant Prepend(buildings, SceneFrom(pool, jitter, pack, subs[k..], cursor, draws, fuel)) == target
        invariant buildingIdx == |buildings| && saved == (buildingIdx > 0)
        invariant k > 0 ==> saved
      {
        ghost var c0, d0 := cursor, draws;
        var sub := subs[k];
        var rects, total, ok := AdmitRects(Budget(sub), fuel);
        if !ok {
          SceneSpins(pool, jitter, pack, subs, k, c0, d0, fuel, buildings, target);
          done := false;
          return;
        }
        var out;
        out, buildingIdx, saved := LayoutSubsection(sub, rects, buildingIdx, saved);
        SceneAdvances(pool, jitter, pack, subs, k, c0, d0, fuel, buildings, out, target);
        buildings := buildings + out;
      }
      assert subs[|subs|..] == [];
      done := true;
    }

    /** One scene with an n0 x n1 grid. A finished scene always has `saved` set. */
    method GenerateScene(n0: nat, n1: nat, fuel: nat)
      returns (buildings: seq<Building>, buildingIdx: nat, saved: bool, done: bool)
      requires Valid() && n0 >= 1 && n1 >= 1
      modifies this
      ensures Valid()
      ensures var r := SceneFrom(pool, jitter, pack, Grid(n0, n1), old(cursor), old(draws), fuel);
        r.cursor == cursor && r.draws == draws && (done <==> r.Scene?) && (done ==> r.buildings == buildings)
      ensures buildingIdx == |buildings| && saved == (buildingIdx > 0)
      ensures done ==> saved
    {
      var subs := SubAreas(DomainSize, LaneWidth, n0, n1);
      assert |subs| > 0 by {
        var length, width := SubSize(DomainSize, LaneWidth, n0), SubSize(DomainSize, LaneWidth, n1);
        assert subs == Rows(n0 - 1, n1, length, width, LaneWidth) + Row(n0 - 1, n1, length, width, LaneWidth);
      }
      buildings, buildingIdx, saved, done := VisitSubsections(subs, fuel);
    }

    /** The scene loop: one scene per shape, the pool cursor and the draws carrying over. The
      * empty-scene warnings (the numbers of finished scenes with `saved` unset) never occur. */
    method GenerateScenes(shapes: seq<Shape>, fuel: nat) returns (scenes: seq<seq<Building>>, warnings: seq<nat>, done: bool)
      requires Valid() && Shapes(shapes)
      modifies this
      ensures Valid()
      ensures RunFrom(pool, jitter, pack, shapes, old(cursor), old(draws), fuel) == Run(scenes, cursor, draws, done)
      ensures warnings == []
    {
      ghost var target := RunFrom(pool, jitter, pack, shapes, cursor, draws, fuel);
      scenes, warnings := [], [];
      for i := 0 to |shapes|
        invariant Valid()
        invariant PrependScenes(scenes, RunFrom(pool, jitter, pack, shapes[i..], cursor, draws, fuel)) == target
        invariant warnings == []
      {
        ghost var c0, d0 := cursor, draws;
        var buildings, buildingIdx, saved, finished := GenerateScene(shapes[i].n0, shapes[i].n1, fuel);
        if !finished {
          RunSpins(pool, jitter, pack, shapes, i, c0, d0, fuel, scenes, target);
          done := false;
          return;
        }
        var sceneNo: nat := i + 1;
        if !saved {
          warnings := warnings + [sceneNo];
        }
        RunAdvances(pool, jitter, pack, shapes, i, c0, d0, fuel, scenes, target);
        scenes := scenes + [buildings];
      }
      assert shapes[|shapes|..] == [];
      assert scenes + [] == scenes;
      done := true;
    }
  }

  /** The cached extents `max_[:2]` of the loaded meshes. */
  function PoolOf(meshes: seq<Meshes.Mesh>): seq<Bound>
    reads set m | m in meshes
  {
    seq(|meshes|, i requires 0 <= i < |meshes| reads meshes => Bound(meshes[i].maxX, meshes[i].maxY))
  }
}
