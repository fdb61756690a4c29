/** Per-axis minimum and maximum of a finite sequence of coordinates (what
  * `np.min`/`np.max` compute), and how they move when every coordinate is
  * shifted by the same amount; ground-plane points and their coordinate
  * columns, shared by the orientation search and the extent of a packing. */
module Bounds {

  /** The smallest element of a non-empty sequence (its properties: `MinProperties`). */
  function Min(s: seq<real>): real
    requires |s| > 0
  {
    if |s| == 1 then s[0]
    else
      var rest := Min(s[1..]);
      if s[0] <= rest then s[0] else rest
  }

  /** The largest element of a non-empty sequence (its properties: `MaxProperties`). */
  function Max(s: seq<real>): real
    requires |s| > 0
  {
    if |s| == 1 then s[0]
    else
      var rest := Max(s[1..]);
      if rest <= s[0] then s[0] else rest
  }

  /** The minimum is a lower bound of the sequence and is one of its elements. */
  lemma {:induction false} MinProperties(s: seq<real>)
    requires |s| > 0
    ensures Min(s) in s
    ensures forall i :: 0 <= i < |s| ==> Min(s) <= s[i]
  {
    if |s| > 1 {
      MinProperties(s[1..]);
      assert forall i :: 1 <= i < |s| ==> s[i] == s[1..][i - 1];
    }
  }

  /** The maximum is an upper bound of the sequence and is one of its elements. */
  lemma {:induction false} MaxProperties(s: seq<real>)
    requires |s| > 0
    ensures Max(s) in s
    ensures forall i :: 0 <= i < |s| ==> s[i] <= Max(s)
  {
    if |s| > 1 {
      MaxProperties(s[1..]);
      assert forall i :: 1 <= i < |s| ==> s[i] == s[1..][i - 1];
    }
  }

  /** Every coordinate moved by `d` (`a += d` on a numpy vector). */
  function Shifted(s: seq<real>, d: real): (r: seq<real>)
    ensures |r| == |s|
    ensures forall i :: 0 <= i < |s| ==> r[i] == s[i] + d
  {
    seq(|s|, i requires 0 <= i < |s| => s[i] + d)
  }

  /** A lower bound that is attained is the minimum. */
  lemma MinUnique(s: seq<real>, m: real)
    requires m in s
    requires forall i :: 0 <= i < |s| ==> m <= s[i]
    ensures Min(s) == m
  {
    MinProperties(s);
    var k :| 0 <= k < |s| && s[k] == Min(s);
    var j :| 0 <= j < |s| && s[j] == m;
  }

  /** An upper bound that is attained is the maximum. */
  lemma MaxUnique(s: seq<real>, m: real)
    requires m in s
    requires forall i :: 0 <= i < |s| ==> s[i] <= m
    ensures Max(s) == m
  {
    MaxProperties(s);
    var k :| 0 <= k < |s| && s[k] == Max(s);
    var j :| 0 <= j < |s| && s[j] == m;
  }

  /** A shifted element is an element of the shifted sequence. */
  lemma ShiftedMember(s: seq<real>, d: real, v: real)
    requires v in s
    ensures v + d in Shifted(s, d)
  {
    var i :| 0 <= i < |s| && s[i] == v;
    assert Shifted(s, d)[i] == v + d;
  }

  /** Shifting every coordinate moves the minimum by the same amount. */
  lemma ShiftedMin(s: seq<real>, d: real)
    requires |s| > 0
    ensures Min(Shifted(s, d)) == Min(s) + d
  {
    MinProperties(s);
    ShiftedMember(s, d, Min(s));
    MinUnique(Shifted(s, d), Min(s) + d);
  }

  /** Shifting every coordinate moves the maximum by the same amount. */
  lemma ShiftedMax(s: seq<real>, d: real)
    requires |s| > 0
    ensures Max(Shifted(s, d)) == Max(s) + d
  {
    MaxProperties(s);
    ShiftedMember(s, d, Max(s));
    MaxUnique(Shifted(s, d), Max(s) + d);
  }

  /** Moving a sequence by minus its minimum makes it start at 0 and end at its former width. */
  lemma ShiftedToZero(s: seq<real>)
    requires |s| > 0
    ensures Min(Shifted(s, -Min(s))) == 0.0
    ensures Max(Shifted(s, -Min(s))) == Max(s) - Min(s)
  {
    ShiftedMin(s, -Min(s));
    ShiftedMax(s, -Min(s));
  }

  /** Appending one element to a sequence folds it into the running minimum. */
  lemma MinSnoc(s: seq<real>, v: real)
    requires |s| > 0
    ensures Min(s + [v]) == if v < Min(s) then v else Min(s)
  {
    var t := s + [v];
    var m := if v < Min(s) then v else Min(s);
    MinProperties(s);
    assert forall i :: 0 <= i < |s| ==> t[i] == s[i];
    assert t[|s|] == v;
    MinUnique(t, m);
  }

  /** Appending one element to a sequence folds it into the running maximum. */
  lemma MaxSnoc(s: seq<real>, v: real)
    requires |s| > 0
    ensures Max(s + [v]) == if v > Max(s) then v else Max(s)
  {
    var t := s + [v];
    var m := if v > Max(s) then v else Max(s);
    MaxProperties(s);
    assert forall i :: 0 <= i < |s| ==> t[i] == s[i];
    assert t[|s|] == v;
    MaxUnique(t, m);
  }

  /** The product of two non-negative reals is non-negative. */
  lemma NonNegativeProduct(a: real, b: real)
    requires a >= 0.0 && b >= 0.0
    ensures a * b >= 0.0
  {
  }

  /** The minimum of a fold started from 0 is 0 or an element, whose index is returned (|s| when it is 0). */
  lemma MinWithZeroAttained(s: seq<real>) returns (k: nat)
    ensures k <= |s| && (k == |s| ==> Min([0.0] + s) == 0.0) && (k < |s| ==> Min([0.0] + s) == s[k])
  {
    var t := [0.0] + s;
    MinProperties(t);
    var a :| 0 <= a < |t| && t[a] == Min(t);
    if a == 0 {
      k := |s|;
    } else {
      k := a - 1;
      assert t[a] == s[k];
    }
  }

  /** The maximum of a fold started from 0 is 0 or an element, whose index is returned (|s| when it is 0). */
  lemma MaxWithZeroAttained(s: seq<real>) returns (k: nat)
    ensures k <= |s| && (k == |s| ==> Max([0.0] + s) == 0.0) && (k < |s| ==> Max([0.0] + s) == s[k])
  {
    var t := [0.0] + s;
    MaxProperties(t);
    var a :| 0 <= a < |t| && t[a] == Max(t);
    if a == 0 {
      k := |s|;
    } else {
      k := a - 1;
      assert t[a] == s[k];
    }
  }

  /** A point of the ground plane. */
  datatype Point = Point(x: real, y: real)

  /** The x coordinates of a sequence of points (the column `ps[:, 0]`). */
  function Xs(ps: seq<Point>): (r: seq<real>)
    ensures |r| == |ps| && forall i :: 0 <= i < |ps| ==> r[i] == ps[i].x
  {
    seq(|ps|, i requires 0 <= i < |ps| => ps[i].x)
  }

  /** The y coordinates of a sequence of points (the column `ps[:, 1]`). */
  function Ys(ps: seq<Point>): (r: seq<real>)
    ensures |r| == |ps| && forall i :: 0 <= i < |ps| ==> r[i] == ps[i].y
  {
    seq(|ps|, i requires 0 <= i < |ps| => ps[i].y)
  }
}
