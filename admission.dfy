/** The admission loop of one subsection: walk the building pool from the
  * global cursor, pad each candidate's footprint with the minimum spacing and
  * a random margin, and keep candidates while their padded areas fit the
  * subsection's area budget. The cursor wraps around the pool; one jitter
  * pair is drawn per attempt, including the attempt that ends the loop. */
module Admission {

  /** Minimum space between packed buildings (`min_space`). */
  const MinSpace: real := 10.0
  /** Upper bound of the random margin added to each side (`box_margin_factor`). */
  const BoxMarginFactor: real := 2.0

  /** A pool entry's cached ground-plane extent, `max_[:2]`. */
  datatype Bound = Bound(w: real, h: real)
  /** One draw of `np.random.rand(2)`. */
  datatype Jitter = Jitter(u: real, v: real)
  /** An entry of `rect_list`: padded width and height, and the pool index it stands for. */
  datatype Rect = Rect(w: real, h: real, id: nat)

  /** How the loop ended: with a non-empty list, or still running when the fuel ran out. */
  datatype Outcome =
    | Admitted(rects: seq<Rect>, total: real, cursor: nat, draws: nat)
    | OutOfFuel(cursor: nat, draws: nat)

  /** Every draw lies in [0, 1) on both components. */
  ghost predicate UnitJitter(jitter: nat -> Jitter)
  {
    forall d: nat :: 0.0 <= jitter(d).u < 1.0 && 0.0 <= jitter(d).v < 1.0
  }

  /** The cursor advance `global_index += 1`, reset to 0 at the end of the pool. */
  function Next(c: nat, n: nat): (r: nat)
    requires c < n
    ensures r < n
    ensures r == (c + 1) % n
  {
    if c + 1 >= n then 0 else c + 1
  }

  /** `max_bound + min_space + rand(2) * box_margin_factor`, tagged with the cursor. */
  function Region(b: Bound, j: Jitter, id: nat): Rect
  {
    Rect(b.w + MinSpace + j.u * BoxMarginFactor, b.h + MinSpace + j.v * BoxMarginFactor, id)
  }

  function Area(r: Rect): real
  {
    r.w * r.h
  }

  /** Sum of the areas of a list of rects. */
  function AreaSum(rs: seq<Rect>): real
  {
    if rs == [] then 0.0 else AreaSum(rs[..|rs| - 1]) + Area(rs[|rs| - 1])
  }

  lemma AreaSumSnoc(rs: seq<Rect>, r: Rect)
    ensures AreaSum(rs + [r]) == AreaSum(rs) + Area(r)
  {
    var more := rs + [r];
    assert more[..|more| - 1] == rs;
  }

  predicate IdsBelow(rs: seq<Rect>, n: nat)
  {
    forall k :: 0 <= k < |rs| ==> rs[k].id < n
  }

  /** The loop from a given state, `fuel` iterations at most. */
  function AdmitFrom(pool: seq<Bound>, jitter: nat -> Jitter, budget: real,
                     cursor: nat, draw: nat, total: real, rects: seq<Rect>, fuel: nat): (r: Outcome)
    requires cursor < |pool|
    ensures r.cursor < |pool|
    ensures r.Admitted? ==> |r.rects| > 0 && rects <= r.rects && r.draws > draw
    ensures r.Admitted? && IdsBelow(rects, |pool|) ==> IdsBelow(r.rects, |pool|)
    decreases fuel
  {
    if fuel == 0 then OutOfFuel(cursor, draw)
    else
      var region := Region(pool[cursor], jitter(draw), cursor);
      if total + Area(region) > budget then
        if rects == [] then
          AdmitFrom(pool, jitter, budget, Next(cursor, |pool|), draw + 1, total, rects, fuel - 1)
        else
          Admitted(rects, total, cursor, draw + 1)
      else
        AdmitFrom(pool, jitter, budget, Next(cursor, |pool|), draw + 1, total + Area(region), rects + [region], fuel - 1)
  }

  /** The loop as started for a subsection: empty list, zero total. */
  function Admit(pool: seq<Bound>, jitter: nat -> Jitter, budget: real, cursor: nat, draw: nat, fuel: nat): Outcome
    requires cursor < |pool|
  {
    AdmitFrom(pool, jitter, budget, cursor, draw, 0.0, [], fuel)
  }

  /** The running total never exceeds the budget. */
  lemma {:induction false} AdmitWithinBudget(pool: seq<Bound>, jitter: nat -> Jitter, budget: real,
                                              cursor: nat, draw: nat, total: real, rects: seq<Rect>, fuel: nat)
    requires cursor < |pool| && total <= budget
    ensures var r := AdmitFrom(pool, jitter, budget, cursor, draw, total, rects, fuel);
      r.Admitted? ==> r.total <= budget
    decreases fuel
  {
    if fuel > 0 {
      var region := Region(pool[cursor], jitter(draw), cursor);
      if total + Area(region) > budget {
        if rects == [] {
          AdmitWithinBudget(pool, jitter, budget, Next(cursor, |pool|), draw + 1, total, rects, fuel - 1);
        }
      } else {
        AdmitWithinBudget(pool, jitter, budget, Next(cursor, |pool|), draw + 1, total + Area(region), rects + [region], fuel - 1);
      }
    }
  }

  /** The total is the sum of the admitted areas. */
  lemma {:induction false} AdmitTotal(pool: seq<Bound>, jitter: nat -> Jitter, budget: real,
                                       cursor: nat, draw: nat, total: real, rects: seq<Rect>, fuel: nat)
    requires cursor < |pool| && total == AreaSum(rects)
    ensures var r := AdmitFrom(pool, jitter, budget, cursor, draw, total, rects, fuel);
      r.Admitted? ==> r.total == AreaSum(r.rects)
    decreases fuel
  {
    if fuel > 0 {
      var region := Region(pool[cursor], jitter(draw), cursor);
      if total + Area(region) > budget {
        if rects == [] {
          AdmitTotal(pool, jitter, budget, Next(cursor, |pool|), draw + 1, total, rects, fuel - 1);
        }
      } else {
        AreaSumSnoc(rects, region);
        AdmitTotal(pool, jitter, budget, Next(cursor, |pool|), draw + 1, total + Area(region), rects + [region], fuel - 1);
      }
    }
  }

  /** Each side is the pool entry's bound plus the spacing plus a margin in [0, box_margin_factor). */
  ghost predicate Padded(pool: seq<Bound>, r: Rect)
  {
    r.id < |pool|
    && pool[r.id].w + MinSpace <= r.w < pool[r.id].w + MinSpace + BoxMarginFactor
    && pool[r.id].h + MinSpace <= r.h < pool[r.id].h + MinSpace + BoxMarginFactor
  }

  lemma RegionPadded(pool: seq<Bound>, j: Jitter, id: nat)
    requires id < |pool| && 0.0 <= j.u < 1.0 && 0.0 <= j.v < 1.0
    ensures Padded(pool, Region(pool[id], j, id))
  {
  }

  /** Every admitted rect is padded as promised around the pool entry it names. */
  lemma {:induction false} AdmitPadded(pool: seq<Bound>, jitter: nat -> Jitter, budget: real,
                                        cursor: nat, draw: nat, total: real, rects: seq<Rect>, fuel: nat)
    requires cursor < |pool| && UnitJitter(jitter)
    requires forall k :: 0 <= k < |rects| ==> Padded(pool, rects[k])
    ensures var r := AdmitFrom(pool, jitter, budget, cursor, draw, total, rects, fuel);
      r.Admitted? ==> forall k :: 0 <= k < |r.rects| ==> Padded(pool, r.rects[k])
    decreases fuel
  {
    if fuel > 0 {
      var region := Region(pool[cursor], jitter(draw), cursor);
      if total + Area(region) > budget {
        if rects == [] {
          AdmitPadded(pool, jitter, budget, Next(cursor, |pool|), draw + 1, total, rects, fuel - 1);
        }
      } else {
        RegionPadded(pool, jitter(draw), cursor);
        AdmitPadded(pool, jitter, budget, Next(cursor, |pool|), draw + 1, total + Area(region), rects + [region], fuel - 1);
      }
    }
  }

  /** Consecutive rects come from consecutive pool entries (with wrap-around), and `cursor`
    * points just past the last one. */
  predicate Chained(rects: seq<Rect>, cursor: nat, n: nat)
  {
    (forall k :: 0 <= k < |rects| ==> rects[k].id < n)
    && (forall k :: 0 < k < |rects| ==> rects[k].id == Next(rects[k - 1].id, n))
    && (rects != [] ==> cursor == Next(rects[|rects| - 1].id, n))
  }

  /** Once the first rect is admitted no pool entry is skipped, and the loop leaves the cursor just
    * past the last admitted entry. */
  lemma {:induction false} AdmitChained(pool: seq<Bound>, jitter: nat -> Jitter, budget: real,
                                         cursor: nat, draw: nat, total: real, rects: seq<Rect>, fuel: nat)
    requires cursor < |pool| && Chained(rects, cursor, |pool|)
    ensures var r := AdmitFrom(pool, jitter, budget, cursor, draw, total, rects, fuel);
      r.Admitted? ==> Chained(r.rects, r.cursor, |pool|)
    decreases fuel
  {
    if fuel > 0 {
      var region := Region(pool[cursor], jitter(draw), cursor);
      if total + Area(region) > budget {
        if rects == [] {
          AdmitChained(pool, jitter, budget, Next(cursor, |pool|), draw + 1, total, rects, fuel - 1);
        }
      } else {
        var rs := rects + [region];
        assert Chained(rs, Next(cursor, |pool|), |pool|);
        AdmitChained(pool, jitter, budget, Next(cursor, |pool|), draw + 1, total + Area(region), rs, fuel - 1);
      }
    }
  }

  /** The loop stops only at a candidate that would overflow the budget; that attempt used the
    * last draw. */
  lemma {:induction false} AdmitStopsAtOverflow(pool: seq<Bound>, jitter: nat -> Jitter, budget: real,
                                                 cursor: nat, draw: nat, total: real, rects: seq<Rect>, fuel: nat)
    requires cursor < |pool|
    ensures var r := AdmitFrom(pool, jitter, budget, cursor, draw, total, rects, fuel);
      r.Admitted? ==>
        r.total + Area(Region(pool[r.cursor], jitter(r.draws - 1), r.cursor)) > budget
    decreases fuel
  {
    if fuel > 0 {
      var region := Region(pool[cursor], jitter(draw), cursor);
      if total + Area(region) > budget {
        if rects == [] {
          AdmitStopsAtOverflow(pool, jitter, budget, Next(cursor, |pool|), draw + 1, total, rects, fuel - 1);
        }
      } else {
        AdmitStopsAtOverflow(pool, jitter, budget, Next(cursor, |pool|), draw + 1, total + Area(region), rects + [region], fuel - 1);
      }
    }
  }

  /** Fuel only cuts the loop short: a run that finishes finishes the same way with more fuel. */
  lemma {:induction false} AdmitMoreFuel(pool: seq<Bound>, jitter: nat -> Jitter, budget: real,
                                          cursor: nat, draw: nat, total: real, rects: seq<Rect>, fuel: nat, more: nat)
    requires cursor < |pool| && fuel <= more
    requires AdmitFrom(pool, jitter, budget, cursor, draw, total, rects, fuel).Admitted?
    ensures AdmitFrom(pool, jitter, budget, cursor, draw, total, rects, more)
         == AdmitFrom(pool, jitter, budget, cursor, draw, total, rects, fuel)
    decreases fuel
  {
    var region := Region(pool[cursor], jitter(draw), cursor);
    if total + Area(region) > budget {
      if rects == [] {
        AdmitMoreFuel(pool, jitter, budget, Next(cursor, |pool|), draw + 1, total, rects, fuel - 1, more - 1);
      }
    } else {
      AdmitMoreFuel(pool, jitter, budget, Next(cursor, |pool|), draw + 1, total + Area(region), rects + [region], fuel - 1, more - 1);
    }
  }

  /** The smallest padded area a pool entry can get (zero margin). */
  function LeastArea(b: Bound): real
  {
    (b.w + MinSpace) * (b.h + MinSpace)
  }

  lemma ProductGrows(a: real, b: real, x: real, y: real)
    requires a >= 0.0 && b >= 0.0 && x >= 0.0 && y >= 0.0
    ensures (a + x) * (b + y) >= a * b
  {
    assert (a + x) * (b + y) == a * b + a * y + x * b + x * y;
    assert a * y >= 0.0 && x * b >= 0.0 && x * y >= 0.0;
  }

  /** If no pool entry fits even with zero margin, nothing is ever admitted: the loop runs for
    * as long as it is allowed to. */
  lemma {:induction false} AdmitStuck(pool: seq<Bound>, jitter: nat -> Jitter, budget: real,
                                       cursor: nat, draw: nat, fuel: nat)
    requires cursor < |pool| && UnitJitter(jitter)
    requires forall k :: 0 <= k < |pool| ==> pool[k].w >= 0.0 && pool[k].h >= 0.0 && LeastArea(pool[k]) > budget
    ensures var r := AdmitFrom(pool, jitter, budget, cursor, draw, 0.0, [], fuel);
      r.OutOfFuel? && r.draws == draw + fuel
    decreases fuel
  {
    if fuel > 0 {
      var b, j := pool[cursor], jitter(draw);
      ProductGrows(b.w + MinSpace, b.h + MinSpace, j.u * BoxMarginFactor, j.v * BoxMarginFactor);
      AdmitStuck(pool, jitter, budget, Next(cursor, |pool|), draw + 1, fuel - 1);
    }
  }

}
