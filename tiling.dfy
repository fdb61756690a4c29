/** The subsection grid of one scene: the square domain is cut into n0 x n1
  * equal cells separated by lanes of fixed width, listed row by row
  * (i outer, j inner), each as [x, y, length, width]. */
module Tiling {
  import opened Bounds

  /** Side of the square city domain, in metres. */
  const DomainSize: real := 200.0
  /** Width of the lanes between neighbouring subsections. */
  const LaneWidth: real := 15.0

  datatype Subsection = Subsection(x: real, y: real, length: real, width: real)

  /** `(domain_size - (n - 1) * lane_width) / n`, the side of a cell. */
  function SubSize(domain: real, lane: real, n: nat): real
    requires n >= 1
  {
    (domain - (n - 1) as real * lane) / n as real
  }

  /** n cells and n - 1 lanes fill the side exactly. */
  lemma TilingExact(domain: real, lane: real, n: nat)
    requires n >= 1
    ensures n as real * SubSize(domain, lane, n) + (n - 1) as real * lane == domain
  {
  }

  /** Cell (i, j): origin `(i * (length + lane), j * (width + lane))`. */
  function Cell(i: nat, j: nat, length: real, width: real, lane: real): Subsection
  {
    Subsection(i as real * (length + lane), j as real * (width + lane), length, width)
  }

  /** Row i of the grid: cells (i, 0), ..., (i, n1 - 1). */
  function Row(i: nat, n1: nat, length: real, width: real, lane: real): seq<Subsection>
  {
    seq(n1, j requires 0 <= j < n1 => Cell(i, j, length, width, lane))
  }

  /** Rows 0, ..., m - 1 one after the other: the order in which `sub_areas` is filled. */
  function Rows(m: nat, n1: nat, length: real, width: real, lane: real): seq<Subsection>
  {
    if m == 0 then [] else Rows(m - 1, n1, length, width, lane) + Row(m - 1, n1, length, width, lane)
  }

  /** The grid of m rows holds m * n1 cells. */
  lemma {:induction false} RowsLength(m: nat, n1: nat, length: real, width: real, lane: real)
    ensures |Rows(m, n1, length, width, lane)| == m * n1
  {
    if m > 0 {
      RowsLength(m - 1, n1, length, width, lane);
      assert m * n1 == (m - 1) * n1 + n1;
    }
  }

  /** Cell (i, j) is at position `i * n1 + j` of the grid. */
  lemma {:induction false} RowsCell(m: nat, n1: nat, i: nat, j: nat, length: real, width: real, lane: real)
    requires i < m && j < n1
    ensures i * n1 + j < |Rows(m, n1, length, width, lane)|
    ensures Rows(m, n1, length, width, lane)[i * n1 + j] == Cell(i, j, length, width, lane)
  {
    var prev := Rows(m - 1, n1, length, width, lane);
    RowsLength(m - 1, n1, length, width, lane);
    if i < m - 1 {
      RowsCell(m - 1, n1, i, j, length, width, lane);
    } else {
      assert i * n1 + j == |prev| + j;
    }
  }

  /** Appends row i to `areas` (the inner loop over j). */
  method AppendRow(areas: seq<Subsection>, i: nat, n1: nat, length: real, width: real, lane: real)
    returns (out: seq<Subsection>)
    ensures out == areas + Row(i, n1, length, width, lane)
  {
    ghost var row := Row(i, n1, length, width, lane);
    out := areas;
    for j := 0 to n1
      invariant out == areas + row[..j]
    {
      assert row[..j + 1] == row[..j] + [Cell(i, j, length, width, lane)];
      out := out + [Cell(i, j, length, width, lane)];
    }
    assert row[..n1] == row;
  }

  /** The nested loops that fill `sub_areas`, row by row (cell (i, j) lands at `i * n1 + j`: `RowsCell`). */
  method SubAreas(domain: real, lane: real, n0: nat, n1: nat) returns (areas: seq<Subsection>)
    requires n0 >= 1 && n1 >= 1
    ensures areas == Rows(n0, n1, SubSize(domain, lane, n0), SubSize(domain, lane, n1), lane)
  {
    var length := SubSize(domain, lane, n0);
    var width := SubSize(domain, lane, n1);
    areas := [];
    for i := 0 to n0
      invariant areas == Rows(i, n1, length, width, lane)
    {
      areas := AppendRow(areas, i, n1, length, width, lane);
    }
  }

  /** With lanes no wider than the domain allows, every cell lies inside [0, domain]^2. */
  lemma CellInDomain(domain: real, lane: real, n0: nat, n1: nat, i: nat, j: nat)
    requires n0 >= 1 && n1 >= 1 && i < n0 && j < n1
    requires lane >= 0.0 && domain >= (n0 - 1) as real * lane && domain >= (n1 - 1) as real * lane
    ensures var c := Cell(i, j, SubSize(domain, lane, n0), SubSize(domain, lane, n1), lane);
      0.0 <= c.x && c.x + c.length <= domain && 0.0 <= c.y && c.y + c.width <= domain
  {
    AxisInDomain(domain, lane, n0, i);
    AxisInDomain(domain, lane, n1, j);
  }

  lemma AxisInDomain(domain: real, lane: real, n: nat, i: nat)
    requires n >= 1 && i < n && lane >= 0.0 && domain >= (n - 1) as real * lane
    ensures var size := SubSize(domain, lane, n);
      size >= 0.0 && 0.0 <= i as real * (size + lane) && i as real * (size + lane) + size <= domain
  {
    var size := SubSize(domain, lane, n);
    var step := size + lane;
    TilingExact(domain, lane, n);
    assert n as real * size == domain - (n - 1) as real * lane;
    assert size >= 0.0 by {
      NonNegativeProduct((n - 1) as real, lane);
    }
    assert (n - 1) as real * step + size == domain;
    assert i as real * step <= (n - 1) as real * step by {
      NonNegativeProduct((n - 1 - i) as real, step);
      assert (n - 1) as real * step == i as real * step + (n - 1 - i) as real * step;
    }
    NonNegativeProduct(i as real, step);
  }

  /** Neighbouring cells are exactly one lane apart, along either axis. */
  lemma NeighboursOneLaneApart(i: nat, j: nat, length: real, width: real, lane: real)
    ensures Cell(i + 1, j, length, width, lane).x - (Cell(i, j, length, width, lane).x + length) == lane
    ensures Cell(i, j + 1, length, width, lane).y - (Cell(i, j, length, width, lane).y + width) == lane
  {
  }

  /** Different cells do not overlap: along some axis one ends at least a lane before the other starts. */
  lemma {:induction false} CellsApart(i: nat, j: nat, i': nat, j': nat, length: real, width: real, lane: real)
    requires (i, j) != (i', j') && length >= 0.0 && width >= 0.0 && lane >= 0.0
    ensures var c, d := Cell(i, j, length, width, lane), Cell(i', j', length, width, lane);
      c.x + c.length + lane <= d.x || d.x + d.length + lane <= c.x
      || c.y + c.width + lane <= d.y || d.y + d.width + lane <= c.y
  {
    if i < i' {
      StepsApart(i, i', length, lane);
    } else if i' < i {
      StepsApart(i', i, length, lane);
    } else if j < j' {
      StepsApart(j, j', width, lane);
    } else {
      StepsApart(j', j, width, lane);
    }
  }

  lemma StepsApart(a: nat, b: nat, size: real, lane: real)
    requires a < b && size >= 0.0 && lane >= 0.0
    ensures a as real * (size + lane) + size + lane <= b as real * (size + lane)
  {
    var step := size + lane;
    var d := (b - a - 1) as real;
    assert b as real * step == a as real * step + step + d * step;
    NonNegativeProduct(d, step);
  }
}
