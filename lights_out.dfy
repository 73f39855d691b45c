/**
 * The grid rules of the lights-out prop, lp_lights_out.py.
 *
 * The prop's state is a JSON object: the keys "0" .. "119" hold the cells of
 * an 8x8 launchpad grid (button `y + 16 * i` is column `y` of row `i`) and the
 * entry "limits" holds four bounds on the playable area. The model keys the
 * cells by button number and keeps the limits beside them; the other entries
 * of the object are never touched by these rules.
 *
 * Both rules change the object in place and can stop half-way on a Python
 * exception (a limit list that is too short, a missing cell). `Applied`
 * records the cells as the rule left them and whether it ran to the end.
 */
module LightsOut {
  import opened Wrappers

  /** The cells as an in-place rule left them, and whether it finished without an exception. */
  datatype Applied = Applied(cells: map<int, int>, ok: bool)

  // ------------------------------------------------------------------------
  // add_values_cross
  // ------------------------------------------------------------------------

  /** The four neighbours of button `b`, in the order `add_values_cross` visits them. */
  function Neighbour(b: int, j: nat): (r: int)
    requires j < 4
    ensures j < 2 ==> r - b == 2 * j - 1
    ensures j >= 2 ==> r - b == 16 * (2 * j - 5)
  {
    if j == 0 then b - 1 else if j == 1 then b + 1 else if j == 2 then b - 16 else b + 16
  }

  /** The four neighbours are four different buttons, none of them `b` itself. */
  lemma NeighboursDistinct(b: int, i: nat, j: nat)
    requires i < 4 && j < 4
    ensures Neighbour(b, i) != b
    ensures i != j ==> Neighbour(b, i) != Neighbour(b, j)
  {
  }

  /** The limit test that guards neighbour `j`, against `limits[j]`. */
  predicate NeighbourAllowed(b: int, j: nat, limit: int)
    requires j < 4
  {
    if j == 0 then (b % 8) - 1 > limit
    else if j == 1 then (b % 8) + 1 < limit
    else if j == 2 then b - 16 > limit
    else b + 16 < limit
  }

  /**
   * The limit tests on the grid button in row `i`, column `y` (button
   * `y + 16 * i`): the sideways tests look only at the column, so a
   * button on the left or right edge never reaches into the next row
   * while the column limits lie inside the grid, and the tests only pass
   * more often as a limit is loosened.
   */
  lemma NeighbourAllowedOnGrid(y: int, i: int, j: nat, limit: int, looser: int)
    requires 0 <= y < 8 && j < 4
    requires if j % 2 == 0 then looser <= limit else looser >= limit
    ensures j == 0 ==> (NeighbourAllowed(y + 16 * i, j, limit) <==> y - 1 > limit)
    ensures j == 1 ==> (NeighbourAllowed(y + 16 * i, j, limit) <==> y + 1 < limit)
    ensures j == 0 && y == 0 && limit >= -1 ==> !NeighbourAllowed(y + 16 * i, j, limit)
    ensures j == 1 && y == 7 && limit <= 8 ==> !NeighbourAllowed(y + 16 * i, j, limit)
    ensures NeighbourAllowed(y + 16 * i, j, limit) ==> NeighbourAllowed(y + 16 * i, j, looser)
  {
    assert (y + 16 * i) % 8 == y by {
      assert y + 16 * i == y + 8 * (2 * i);
    }
  }

  /** `(v + 1) % 2`: every flipped cell is 0 or 1, and on 0 and 1 it swaps them. */
  function Flip(v: int): (r: int)
    ensures r == 0 || r == 1
    ensures v == 0 || v == 1 ==> r == 1 - v
  {
    (v + 1) % 2
  }

  /**
   * One of the four statements of `add_values_cross`: read `limits[j]` (an
   * IndexError when the list is shorter), and when the test passes flip the
   * neighbour (a KeyError when that cell does not exist).
   */
  function CrossStep(a: Applied, limits: seq<int>, b: int, j: nat): (r: Applied)
    requires j < 4
    ensures r.cells.Keys == a.cells.Keys
    ensures forall k :: k in a.cells && k != Neighbour(b, j) ==> r.cells[k] == a.cells[k]
    ensures r.ok <==> a.ok && j < |limits| && (NeighbourAllowed(b, j, limits[j]) ==> Neighbour(b, j) in a.cells)
    ensures r.ok && Neighbour(b, j) in a.cells ==>
              r.cells[Neighbour(b, j)] ==
                if NeighbourAllowed(b, j, limits[j]) then Flip(a.cells[Neighbour(b, j)]) else a.cells[Neighbour(b, j)]
  {
    if !a.ok then a
    else if |limits| <= j then Applied(a.cells, false)
    else if !NeighbourAllowed(b, j, limits[j]) then a
    else if Neighbour(b, j) !in a.cells then Applied(a.cells, false)
    else Applied(a.cells[Neighbour(b, j) := Flip(a.cells[Neighbour(b, j)])], true)
  }

  /**
   * `add_values_cross(state, b)`: only the four neighbours of `b` can change,
   * each one exactly when its limit test passes, and a changed cell ends as
   * `(old + 1) % 2`. No cell is added or removed, and `b` itself is untouched.
   */
  function Cross(cells: map<int, int>, limits: seq<int>, b: int): (r: Applied)
    ensures r.cells.Keys == cells.Keys
    ensures forall k :: k in cells && k != b - 1 && k != b + 1 && k != b - 16 && k != b + 16 ==>
              r.cells[k] == cells[k]
    ensures r.ok <==> (|limits| >= 4 &&
              forall j :: 0 <= j < 4 && NeighbourAllowed(b, j, limits[j]) ==> Neighbour(b, j) in cells)
    ensures r.ok ==>
              forall j :: 0 <= j < 4 && Neighbour(b, j) in cells ==>
                r.cells[Neighbour(b, j)] ==
                  if NeighbourAllowed(b, j, limits[j]) then Flip(cells[Neighbour(b, j)]) else cells[Neighbour(b, j)]
  {
    var a0 := CrossStep(Applied(cells, true), limits, b, 0);
    var a1 := CrossStep(a0, limits, b, 1);
    var a2 := CrossStep(a1, limits, b, 2);
    var a3 := CrossStep(a2, limits, b, 3);
    a3
  }

  /**
   * Pressing the same button twice restores the grid, provided the cells it
   * flips hold 0 or 1: the limit tests read only the limits, never the cells,
   * so the second press flips exactly the cells the first one flipped.
   */
  lemma CrossInvolution(cells: map<int, int>, limits: seq<int>, b: int)
    requires Cross(cells, limits, b).ok
    requires forall j :: 0 <= j < 4 && NeighbourAllowed(b, j, limits[j]) ==>
               cells[Neighbour(b, j)] == 0 || cells[Neighbour(b, j)] == 1
    ensures Cross(Cross(cells, limits, b).cells, limits, b) == Applied(cells, true)
  {
    var once := Cross(cells, limits, b);
    var twice := Cross(once.cells, limits, b);
    assert twice.ok;
    forall k | k in cells
      ensures twice.cells[k] == cells[k]
    {
      if k == b - 1 {
        assert k == Neighbour(b, 0);
      } else if k == b + 1 {
        assert k == Neighbour(b, 1);
      } else if k == b - 16 {
        assert k == Neighbour(b, 2);
      } else if k == b + 16 {
        assert k == Neighbour(b, 3);
      }
    }
    assert twice.cells == cells;
  }

  // ------------------------------------------------------------------------
  // set_limits
  // ------------------------------------------------------------------------

  /**
   * The condition of `set_limits` for column `y` of row `i`, evaluated the way
   * Python's `or` does: left to right, reading a limit only when the earlier
   * tests failed; `None` stands for the IndexError of a missing limit.
   */
  function LimitTest(y: int, i: int, limits: seq<int>): (r: Option<bool>)
    ensures |limits| >= 4 ==>
              r == Some(y < limits[0] || y > limits[1] || 16 * i < limits[2] || 16 * i > limits[3])
    ensures r.None? ==> |limits| < 4
    ensures |limits| == 0 ==> r.None?
  {
    if |limits| < 1 then None
    else if y < limits[0] then Some(true)
    else if |limits| < 2 then None
    else if y > limits[1] then Some(true)
    else if |limits| < 3 then None
    else if 16 * i < limits[2] then Some(true)
    else if |limits| < 4 then None
    else Some(16 * i > limits[3])
  }

  /** The grid cell visited at step `p` of the nested loops (row `p / 8`, column `p % 8`). */
  function KeyAt(p: int): int {
    p % 8 + 16 * (p / 8)
  }

  /**
   * The loops of `set_limits` after their first `p` steps: each visited cell
   * that fails the limits is set to 2, and the first missing limit stops them.
   */
  function Mark(cells: map<int, int>, limits: seq<int>, p: nat): (r: Applied)
    requires p <= 64
    ensures cells.Keys <= r.cells.Keys
    ensures forall k :: k in r.cells && (k !in cells || r.cells[k] != cells[k]) ==> r.cells[k] == 2
  {
    if p == 0 then Applied(cells, true)
    else
      var a := Mark(cells, limits, p - 1);
      if !a.ok then a
      else match LimitTest((p - 1) % 8, (p - 1) / 8, limits)
        case None => Applied(a.cells, false)
        case Some(out) => if out then Applied(a.cells[KeyAt(p - 1) := 2], true) else a
  }

  /** Step `8 * i + y` of the nested loops visits column `y` of row `i`. */
  lemma StepOfLoops(i: int, y: int)
    requires 0 <= i < 8 && 0 <= y < 8
    ensures (8 * i + y) % 8 == y && (8 * i + y) / 8 == i && KeyAt(8 * i + y) == y + 16 * i
  {
  }

  /** A key that names a cell of the 8x8 grid. */
  predicate IsCell(k: int) {
    0 <= k < 128 && k % 16 < 8
  }

  /** Where the nested loops visit cell `k`. */
  function Pos(k: int): int {
    8 * (k / 16) + k % 16
  }

  /** The limits, read with column `k % 16` and row offset `16 * (k / 16)` of cell `k`. */
  predicate OutOfLimits(k: int, limits: seq<int>)
    requires |limits| >= 4
  {
    k % 16 < limits[0] || k % 16 > limits[1] || 16 * (k / 16) < limits[2] || 16 * (k / 16) > limits[3]
  }

  /** The cells outside the limits that the loops visit in their first `p` steps. */
  function OutCellsBefore(limits: seq<int>, p: int): set<int>
    requires |limits| >= 4
  {
    set k | 0 <= k < 128 && k % 16 < 8 && Pos(k) < p && OutOfLimits(k, limits)
  }

  function MarkedBefore(cells: map<int, int>, limits: seq<int>, p: int): map<int, int>
    requires |limits| >= 4
  {
    map k | k in cells.Keys + OutCellsBefore(limits, p) :: if k in OutCellsBefore(limits, p) then 2 else cells[k]
  }

  /**
   * What `set_limits` makes of the cells: every grid cell outside the limits
   * becomes 2 (and is created when missing), every other key keeps its value.
   */
  function Limited(cells: map<int, int>, limits: seq<int>): (r: map<int, int>)
    requires |limits| >= 4
    ensures forall k :: k in r <==> k in cells || (IsCell(k) && OutOfLimits(k, limits))
    ensures forall k :: IsCell(k) && OutOfLimits(k, limits) ==> r[k] == 2
    ensures forall k :: k in cells && !(IsCell(k) && OutOfLimits(k, limits)) ==> r[k] == cells[k]
  {
    MarkedBefore(cells, limits, 64)
  }

  lemma KeyAtIsCell(p: int)
    requires 0 <= p < 64
    ensures IsCell(KeyAt(p)) && Pos(KeyAt(p)) == p
    ensures KeyAt(p) % 16 == p % 8 && KeyAt(p) / 16 == p / 8
  {
  }

  lemma PosOfCell(k: int)
    requires IsCell(k)
    ensures 0 <= Pos(k) < 64 && KeyAt(Pos(k)) == k
  {
  }

  /** Taking one more step of the loops marks exactly the cell that step visits, if it is out of limits. */
  lemma OutCellsStep(limits: seq<int>, p: int)
    requires |limits| >= 4 && 0 <= p < 64
    ensures OutCellsBefore(limits, p + 1) ==
              OutCellsBefore(limits, p) + (if OutOfLimits(KeyAt(p), limits) then {KeyAt(p)} else {})
  {
    KeyAtIsCell(p);
    forall k | IsCell(k) && Pos(k) == p
      ensures k == KeyAt(p)
    {
      PosOfCell(k);
    }
  }

  /** With four limits, the test at step `p` is the limit test of the cell that step visits. */
  lemma LimitTestAt(limits: seq<int>, p: int)
    requires |limits| >= 4 && 0 <= p < 64
    ensures LimitTest(p % 8, p / 8, limits) == Some(OutOfLimits(KeyAt(p), limits))
  {
    KeyAtIsCell(p);
  }

  /** One more step of the loops adds the visited cell to the marked ones when it is out of limits. */
  lemma MarkedBeforeStep(cells: map<int, int>, limits: seq<int>, p: int)
    requires |limits| >= 4 && 0 <= p < 64
    ensures MarkedBefore(cells, limits, p + 1) ==
              if OutOfLimits(KeyAt(p), limits) then MarkedBefore(cells, limits, p)[KeyAt(p) := 2]
              else MarkedBefore(cells, limits, p)
  {
    OutCellsStep(limits, p);
  }

  /** With four limits the loops never stop early, and after `p` steps they have marked `OutCellsBefore(limits, p)`. */
  lemma {:induction false} MarkIsMarkedBefore(cells: map<int, int>, limits: seq<int>, p: nat)
    requires |limits| >= 4 && p <= 64
    ensures Mark(cells, limits, p) == Applied(MarkedBefore(cells, limits, p), true)
  {
    if p == 0 {
      assert OutCellsBefore(limits, 0) == {};
      assert MarkedBefore(cells, limits, 0) == cells;
    } else {
      MarkIsMarkedBefore(cells, limits, p - 1);
      LimitTestAt(limits, p - 1);
      MarkedBeforeStep(cells, limits, p - 1);
    }
  }

  /** Once the loops have stopped on an exception, further steps change nothing. */
  lemma {:induction false} MarkStaysStopped(cells: map<int, int>, limits: seq<int>, p: nat, q: nat)
    requires p <= q <= 64
    requires !Mark(cells, limits, p).ok
    ensures Mark(cells, limits, q) == Mark(cells, limits, p)
    decreases q - p
  {
    if p < q {
      MarkStaysStopped(cells, limits, p, q - 1);
    }
  }

  /**
   * `set_limits` with four limits: the nested loops run to the end and leave
   * exactly `Limited(cells, limits)`.
   */
  lemma SetLimitsComplete(cells: map<int, int>, limits: seq<int>)
    requires |limits| >= 4
    ensures Mark(cells, limits, 64) == Applied(Limited(cells, limits), true)
  {
    MarkIsMarkedBefore(cells, limits, 64);
  }

  /** Cell `y + 16 * i` of the grid is 2 after `set_limits` exactly when it lies outside the limits or already was 2. */
  lemma SetLimitsCell(cells: map<int, int>, limits: seq<int>, y: int, i: int)
    requires |limits| >= 4 && 0 <= y < 8 && 0 <= i < 8
    requires y + 16 * i in cells
    ensures var out := y < limits[0] || y > limits[1] || 16 * i < limits[2] || 16 * i > limits[3];
            Limited(cells, limits)[y + 16 * i] == if out then 2 else cells[y + 16 * i]
  {
    var k := y + 16 * i;
    assert k % 16 == y && k / 16 == i;
    assert IsCell(k);
  }

  /** Applying `set_limits` a second time changes nothing. */
  lemma SetLimitsIdempotent(cells: map<int, int>, limits: seq<int>)
    requires |limits| >= 4
    ensures Limited(Limited(cells, limits), limits) == Limited(cells, limits)
  {
    var once := Limited(cells, limits);
    var twice := Limited(once, limits);
    assert twice.Keys == once.Keys;
    assert forall k :: k in twice ==> twice[k] == once[k];
  }

  // ------------------------------------------------------------------------
  // The prop's state, changed in place
  // ------------------------------------------------------------------------

  /** The grid part of the prop's state object. */
  class Board {
    var cells: map<int, int>
    var limits: seq<int>

    constructor (cells: map<int, int>, limits: seq<int>)
      ensures this.cells == cells && this.limits == limits
    {
      this.cells := cells;
      this.limits := limits;
    }

    /** `add_values_cross(state, button)`; `ok` is false when it stopped on an exception. */
    method AddValuesCross(button: int) returns (ok: bool)
      modifies this`cells
      ensures Applied(cells, ok) == Cross(old(cells), limits, button)
    {
      ghost var a0 := CrossStep(Applied(cells, true), limits, button, 0);
      if |limits| < 1 { return false; }
      if (button % 8) - 1 > limits[0] {
        if button - 1 !in cells { return false; }
        cells := cells[button - 1 := Flip(cells[button - 1])];
      }
      assert a0 == Applied(cells, true);
      ghost var a1 := CrossStep(a0, limits, button, 1);
      if |limits| < 2 { return false; }
      if (button % 8) + 1 < limits[1] {
        if button + 1 !in cells { return false; }
        cells := cells[button + 1 := Flip(cells[button + 1])];
      }
      assert a1 == Applied(cells, true);
      ghost var a2 := CrossStep(a1, limits, button, 2);
      if |limits| < 3 { return false; }
      if button - 16 > limits[2] {
        if button - 16 !in cells { return false; }
        cells := cells[button - 16 := Flip(cells[button - 16])];
      }
      assert a2 == Applied(cells, true);
      ghost var a3 := CrossStep(a2, limits, button, 3);
      if |limits| < 4 { return false; }
      if button + 16 < limits[3] {
        if button + 16 !in cells { return false; }
        cells := cells[button + 16 := Flip(cells[button + 16])];
      }
      assert a3 == Applied(cells, true);
      ok := true;
    }

    /** `set_limits(state)`: the nested loops over rows `i` and columns `y`. */
    method SetLimits() returns (ok: bool)
      modifies this`cells
      ensures Applied(cells, ok) == Mark(old(cells), limits, 64)
    {
      for i := 0 to 8
        invariant Mark(old(cells), limits, 8 * i) == Applied(cells, true)
      {
        for y := 0 to 8
          invariant Mark(old(cells), limits, 8 * i + y) == Applied(cells, true)
        {
          StepOfLoops(i, y);
          var test := LimitTest(y, i, limits);
          if test.None? {
            assert !Mark(old(cells), limits, 8 * i + y + 1).ok;
            MarkStaysStopped(old(cells), limits, 8 * i + y + 1, 64);
            return false;
          }
          if test.value {
            cells := cells[y + 16 * i := 2];
          }
        }
      }
      ok := true;
    }
  }
}
