/**
 * The rolling display buffer behind the live chart (`renderEcgSignalLive` and
 * `clearEcgChart` in wwwroot/js/ecgChart.js). The browser keeps two
 * module-level variables: `pathPoints`, a FIFO list of points, and
 * `currentIndex`, a write cursor that wraps at `maxDisplayedValues`. Every
 * rendered sample appends one point, evicts the oldest once the list is over
 * capacity, and redraws the whole trace as one SVG path whose pieces are
 * move-to or line-to commands.
 *
 * A point is kept as the two values the d3 scales are applied to: its slot
 * (the cursor value given to `xScaleLive`) and its sample (given to
 * `yScaleLive`). `xScaleLive` is a strictly increasing linear map, so the
 * path's "x decreases" test is a comparison of slots.
 */
module LiveTrace {
  import opened Options
  import Modular

  /** The flat pre-fill value, the middle of the 0..1023 sample range. */
  const Baseline: int := 512

  /** The path breaks for logical indices in [cursor + 1, cursor + GapEnd). */
  const GapEnd: int := 20

  /** A stored point; a sample of None is JavaScript's `undefined`. */
  datatype Point = Point(slot: int, sample: Option<int>)

  /** One command of the SVG path data: `M x,y` or `L x,y`. */
  datatype Segment = MoveTo(p: Point) | LineTo(p: Point)

  /** The points the empty buffer is pre-filled with: a flat line at the baseline, slot i at position i. */
  function BaselinePoints(n: nat): seq<Point> {
    seq(n, i => Point(i, Some(Baseline)))
  }

  /** JavaScript's `%`: the remainder takes the sign of the dividend. */
  function JsRem(a: int, b: int): (r: int)
    requires b > 0
    ensures a >= 0 ==> 0 <= r < b
    ensures a < 0 ==> -b < r <= 0
  {
    if a >= 0 then a % b else -((-a) % b)
  }

  /** The cursor after one render: one step forward, back to 0 on reaching the capacity. */
  function NextCursor(cur: nat, max: nat): (r: nat)
    requires max >= 1
    ensures r < max
    ensures cur < max ==> r == (cur + 1) % max
  {
    if cur + 1 >= max then 0 else cur + 1
  }

  /** The buffer after one render: pre-filled if empty, the new point pushed, the oldest shifted out if over capacity. */
  function Pushed(pts: seq<Point>, cur: nat, v: Option<int>, max: nat): (r: seq<Point>)
    requires max >= 1
    ensures |pts| == 0 || |pts| == max ==> |r| == max
    ensures 0 < |pts| < max ==> |r| == |pts| + 1
    ensures |pts| > max ==> |r| == |pts|
    ensures |r| >= 1 && r[|r| - 1] == Point(cur, v)
    ensures |pts| > 0 ==> r[..|r| - 1] == if |pts| < max then pts else pts[1..]
    ensures |pts| == 0 ==> r[..|r| - 1] == BaselinePoints(max)[1..]
  {
    var filled := if |pts| == 0 then BaselinePoints(max) else pts;
    var grown := filled + [Point(cur, v)];
    assert grown[..|grown| - 1] == filled;
    if |grown| > max then grown[1..] else grown
  }

  /** The logical position the path code gives the i-th of `len` stored points. */
  function PointIndex(cur: nat, len: nat, i: nat, max: nat): (r: int)
    requires max >= 1
    ensures len <= cur + i + 1 + max ==> 0 <= r < max
  {
    JsRem(cur - len + i + 1 + max, max)
  }

  /** Whether the i-th point opens a new subpath: it lies in the erase gap, it is the first, or x went backwards. */
  predicate StartsSubpath(pts: seq<Point>, i: nat, cur: nat, max: nat)
    requires max >= 1 && i < |pts|
  {
    var pointIndex := PointIndex(cur, |pts|, i, max);
    (cur + 1 <= pointIndex < cur + GapEnd) || i == 0 || pts[i - 1].slot > pts[i].slot
  }

  /** The path data drawn for the buffer, written with the pre-increment cursor. */
  function PathData(pts: seq<Point>, cur: nat, max: nat): (d: seq<Segment>)
    requires max >= 1
    ensures |d| == |pts|
    ensures forall i :: 0 <= i < |pts| ==> d[i].p == pts[i]
    ensures |pts| > 0 ==> d[0].MoveTo?
  {
    seq(|pts|, i requires 0 <= i < |pts| =>
      if StartsSubpath(pts, i, cur, max) then MoveTo(pts[i]) else LineTo(pts[i]))
  }

  /**
   * The steady state of the buffer: it is full, and the point stored at
   * position i sits in slot (cur + i) mod max, so the oldest point is the one
   * in the slot the cursor is about to overwrite.
   */
  ghost predicate Aligned(pts: seq<Point>, cur: nat, max: nat)
    requires max >= 1
  {
    |pts| == max && forall i :: 0 <= i < max ==> pts[i].slot == (cur + i) % max
  }

  /** The states a trace can be in between renders: just cleared, or aligned. */
  ghost predicate Settled(pts: seq<Point>, cur: nat, max: nat)
    requires max >= 1
  {
    (pts == [] && cur == 0) || (cur < max && Aligned(pts, cur, max))
  }

  /** The module-level `pathPoints` and `currentIndex` of the live chart. */
  class Trace {
    var pathPoints: seq<Point>
    var currentIndex: nat

    constructor ()
      ensures pathPoints == [] && currentIndex == 0
    {
      pathPoints := [];
      currentIndex := 0;
    }

    /** The state part of `clearEcgChart`: the cursor back to 0, the buffer emptied. */
    method Clear()
      modifies this
      ensures pathPoints == [] && currentIndex == 0
    {
      currentIndex := 0;
      pathPoints := [];
    }

    /**
     * `renderEcgSignalLive(chartId, newValue, maxDisplayedValues)`: returns the
     * path data it draws; the SVG element, the cursor marker and the float
     * coordinates are not modelled.
     */
    method Render(newValue: Option<int>, maxDisplayedValues: nat) returns (d: seq<Segment>)
      requires maxDisplayedValues >= 1
      modifies this
      ensures pathPoints == Pushed(old(pathPoints), old(currentIndex), newValue, maxDisplayedValues)
      ensures currentIndex == NextCursor(old(currentIndex), maxDisplayedValues)
      ensures d == PathData(pathPoints, old(currentIndex), maxDisplayedValues)
      ensures Settled(old(pathPoints), old(currentIndex), maxDisplayedValues)
          ==> Settled(pathPoints, currentIndex, maxDisplayedValues)
    {
      ghost var before, cursor := pathPoints, currentIndex;
      if |pathPoints| == 0 {
        var i := 0;
        while i < maxDisplayedValues
          invariant 0 <= i <= maxDisplayedValues
          invariant pathPoints == BaselinePoints(i)
          invariant currentIndex == cursor
        {
          assert BaselinePoints(i) + [Point(i, Some(Baseline))] == BaselinePoints(i + 1);
          pathPoints := pathPoints + [Point(i, Some(Baseline))];
          i := i + 1;
        }
      }
      ghost var grown := pathPoints + [Point(currentIndex, newValue)];
      assert grown == (if |before| == 0 then BaselinePoints(maxDisplayedValues) else before)
        + [Point(cursor, newValue)];
      pathPoints := pathPoints + [Point(currentIndex, newValue)];
      if |pathPoints| > maxDisplayedValues {
        pathPoints := pathPoints[1..];
      }
      assert pathPoints == if |grown| > maxDisplayedValues then grown[1..] else grown;
      d := PathData(pathPoints, currentIndex, maxDisplayedValues);
      currentIndex := currentIndex + 1;
      if currentIndex >= maxDisplayedValues {
        currentIndex := 0;
      }
      if Settled(before, cursor, maxDisplayedValues) {
        RenderKeepsAligned(before, cursor, newValue, maxDisplayedValues);
      }
    }
  }

  // ------------------------------------------------------------ the cursor

  /** The cursor after k renders. */
  function Advance(cur: nat, max: nat, k: nat): nat
    requires max >= 1
  {
    if k == 0 then cur else NextCursor(Advance(cur, max, k - 1), max)
  }

  /** k renders move an in-range cursor k steps around the ring of max slots. */
  lemma {:induction false} AdvanceMod(cur: nat, max: nat, k: nat)
    requires max >= 1 && cur < max
    ensures Advance(cur, max, k) == (cur + k) % max
  {
    if k == 0 {
      Modular.ModBelow(cur, max);
    } else {
      AdvanceMod(cur, max, k - 1);
      Modular.ModSucc(cur + k - 1, max);
    }
  }

  /** After maxDisplayedValues renders the cursor is back where it started. */
  lemma CursorFullCycle(cur: nat, max: nat)
    requires max >= 1 && cur < max
    ensures Advance(cur, max, max) == cur
  {
    AdvanceMod(cur, max, max);
    Modular.ModUnique(cur + max, max, 1, cur);
  }

  // ------------------------------------------------------ the logical index

  /**
   * While the list holds at most cur + max + 1 points (always, once the buffer
   * is at capacity), every logical index is a slot in [0, max), and the newest
   * point's logical index is the cursor it was written at.
   */
  lemma PointIndexRange(cur: nat, len: nat, i: nat, max: nat)
    requires max >= 1 && i < len <= cur + max + 1
    ensures 0 <= PointIndex(cur, len, i, max) < max
    ensures cur < max && i == len - 1 ==> PointIndex(cur, len, i, max) == cur
  {
    if cur < max && i == len - 1 {
      Modular.ModUnique(cur + max, max, 1, cur);
    }
  }

  // ------------------------------------------------------- the steady state

  /** A render keeps the buffer aligned with the cursor, and the first render after a clear aligns it. */
  lemma RenderKeepsAligned(pts: seq<Point>, cur: nat, v: Option<int>, max: nat)
    requires max >= 1 && Settled(pts, cur, max)
    ensures Aligned(Pushed(pts, cur, v, max), NextCursor(cur, max), max)
    ensures Settled(Pushed(pts, cur, v, max), NextCursor(cur, max), max)
  {
    var filled := if |pts| == 0 then BaselinePoints(max) else pts;
    assert |filled| == max;
    forall i | 0 <= i < max ensures filled[i].slot == (cur + i) % max {
      if pts == [] {
        Modular.ModBelow(i, max);
      }
    }
    var r := Pushed(pts, cur, v, max);
    var next := NextCursor(cur, max);
    assert next == (cur + 1) % max;
    forall i | 0 <= i < max ensures r[i].slot == (next + i) % max {
      Modular.ModAddMod(cur + 1, i, max);
      if i < max - 1 {
        assert r[i] == filled[i + 1];
      } else {
        Modular.ModUnique(cur + max, max, 1, cur);
      }
    }
  }

  /**
   * The shape of the path in the steady state: one segment per stored point,
   * in storage order, and the i-th is a move-to exactly when it is the first,
   * when it is among the 19 oldest points and its slot has not wrapped past the
   * right edge (the erase gap [cursor + 1, cursor + 20) is not reduced modulo
   * the capacity, so it is cut short near the edge), or when it is slot 0
   * following slot max - 1 (the seam).
   */
  lemma SteadyPathShape(pts: seq<Point>, cur: nat, v: Option<int>, max: nat)
    requires max >= 1 && Settled(pts, cur, max)
    ensures var r := Pushed(pts, cur, v, max);
      var d := PathData(r, cur, max);
      && |d| == |r| == max
      && (forall i :: 0 <= i < max ==> d[i].p == r[i])
      && (forall i :: 0 <= i < max ==>
            (d[i].MoveTo? <==> i == 0 || (i < GapEnd - 1 && cur + 1 + i < max) || cur + 1 + i == max))
  {
    var r := Pushed(pts, cur, v, max);
    var d := PathData(r, cur, max);
    RenderKeepsAligned(pts, cur, v, max);
    assert cur < max;
    forall i | 0 <= i < max
      ensures d[i].MoveTo? <==> i == 0 || (i < GapEnd - 1 && cur + 1 + i < max) || cur + 1 + i == max
    {
      SubpathAt(r, cur, max, i);
    }
  }

  /** Which stored point of an aligned, full buffer opens a subpath. */
  lemma SubpathAt(r: seq<Point>, cur: nat, max: nat, i: nat)
    requires max >= 1 && cur < max && Aligned(r, (cur + 1) % max, max) && i < max
    ensures StartsSubpath(r, i, cur, max)
        <==> i == 0 || (i < GapEnd - 1 && cur + 1 + i < max) || cur + 1 + i == max
  {
    var x := cur + 1 + i;
    var here := if x < max then x else x - max;
    assert x % max == here by {
      if x < max { Modular.ModBelow(x, max); } else { Modular.ModWrapOnce(x, max); }
    }
    assert PointIndex(cur, max, i, max) == here by {
      assert cur - max + i + 1 + max == x;
    }
    assert r[i].slot == here by {
      Modular.ModAddMod(cur + 1, i, max);
    }
    if i > 0 {
      var before := if x - 1 < max then x - 1 else x - 1 - max;
      assert (x - 1) % max == before by {
        if x - 1 < max { Modular.ModBelow(x - 1, max); } else { Modular.ModWrapOnce(x - 1, max); }
      }
      assert r[i - 1].slot == before by {
        Modular.ModAddMod(cur + 1, i - 1, max);
      }
    }
  }

  // ---------------------------------------------------- renders in sequence

  /** The buffer and cursor after rendering the samples vs, in order, starting from a cleared trace. */
  function Replay(vs: seq<Option<int>>, max: nat): (seq<Point>, nat)
    requires max >= 1
  {
    if |vs| == 0 then ([], 0)
    else
      var (pts, cur) := Replay(vs[..|vs| - 1], max);
      (Pushed(pts, cur, vs[|vs| - 1], max), NextCursor(cur, max))
  }

  /** Everything ever drawn since the clear: the pre-fill, then sample j in slot j mod max. */
  function History(vs: seq<Option<int>>, max: nat): seq<Point>
    requires max >= 1
  {
    BaselinePoints(max) + seq(|vs|, j requires 0 <= j < |vs| => Point(j % max, vs[j]))
  }

  /** The history grows by one point per render. */
  lemma HistorySnoc(vs: seq<Option<int>>, max: nat)
    requires max >= 1 && |vs| > 0
    ensures History(vs, max) == History(vs[..|vs| - 1], max) + [Point((|vs| - 1) % max, vs[|vs| - 1])]
  {
    var k := |vs| - 1;
    var tail := seq(|vs|, j requires 0 <= j < |vs| => Point(j % max, vs[j]));
    var prevTail := seq(k, j requires 0 <= j < k => Point(j % max, vs[..k][j]));
    assert tail == prevTail + [Point(k % max, vs[k])];
  }

  /** The first render after a clear: the pre-fill minus its oldest point, then the new point. */
  lemma FirstRender(cur: nat, v: Option<int>, max: nat)
    requires max >= 1
    ensures Pushed([], cur, v, max) == BaselinePoints(max)[1..] + [Point(cur, v)]
  {
    var r := Pushed([], cur, v, max);
    assert r == r[..|r| - 1] + [r[|r| - 1]];
  }

  /** A render into a full buffer drops the oldest point and appends the new one. */
  lemma FullRender(pts: seq<Point>, cur: nat, v: Option<int>, max: nat)
    requires max >= 1 && |pts| == max
    ensures Pushed(pts, cur, v, max) == pts[1..] + [Point(cur, v)]
  {
    var r := Pushed(pts, cur, v, max);
    assert r == r[..|r| - 1] + [r[|r| - 1]];
  }

  /** One render moves the window of the last max history entries on by one. */
  lemma WindowStep(h: seq<Point>, pts: seq<Point>, cur: nat, v: Option<int>, k: nat, max: nat)
    requires max >= 1 && |h| == max + k
    requires (k == 0 && pts == [] && h == BaselinePoints(max)) || (k > 0 && pts == h[k..])
    ensures Pushed(pts, cur, v, max) == (h + [Point(cur, v)])[k + 1..]
  {
    var p := Point(cur, v);
    if k == 0 {
      FirstRender(cur, v, max);
      assert (h + [p])[1..] == h[1..] + [p];
    } else {
      FullRender(pts, cur, v, max);
      assert (h + [p])[k + 1..] == h[k..][1..] + [p];
    }
  }

  /** After k renders from a cleared trace the cursor is k mod max. */
  lemma {:induction false} ReplayCursor(vs: seq<Option<int>>, max: nat)
    requires max >= 1
    ensures Replay(vs, max).1 == |vs| % max
  {
    if |vs| == 0 {
      Modular.ModBelow(0, max);
    } else {
      ReplayCursor(vs[..|vs| - 1], max);
      Modular.ModSucc(|vs| - 1, max);
    }
  }

  /**
   * FIFO eviction: after k >= 1 renders from a cleared trace the buffer holds
   * exactly the last max entries of the history, oldest first, and the cursor
   * is k mod max.
   */
  lemma {:induction false} ReplayWindow(vs: seq<Option<int>>, max: nat)
    requires max >= 1
    ensures Replay(vs, max).1 == |vs| % max
    ensures |vs| > 0 ==> Replay(vs, max).0 == History(vs, max)[|vs|..]
  {
    ReplayCursor(vs, max);
    if |vs| > 0 {
      var k := |vs| - 1;
      var prev := vs[..k];
      ReplayWindow(prev, max);
      ReplayCursor(prev, max);
      HistorySnoc(vs, max);
      WindowStep(History(prev, max), Replay(prev, max).0, Replay(prev, max).1, vs[k], k, max);
    }
  }

  /** After max renders from a cleared trace the buffer holds exactly those samples in slots 0..max-1 and the cursor is 0. */
  lemma FullSweep(vs: seq<Option<int>>, max: nat)
    requires max >= 1 && |vs| == max
    ensures Replay(vs, max).1 == 0
    ensures |Replay(vs, max).0| == max
    ensures forall j :: 0 <= j < max ==> Replay(vs, max).0[j] == Point(j, vs[j])
  {
    ReplayWindow(vs, max);
    Modular.ModUnique(max, max, 1, 0);
    var h := History(vs, max);
    forall j | 0 <= j < max ensures h[max..][j] == Point(j, vs[j]) {
      Modular.ModBelow(j, max);
      assert h[max..][j] == h[max + j];
    }
  }

  /** Capacity 3 and samples 500, 520, 600: the buffer holds those three in order and the cursor is back at 0. */
  lemma ThreeSampleScenario()
    ensures Replay([Some(500), Some(520), Some(600)], 3)
         == ([Point(0, Some(500)), Point(1, Some(520)), Point(2, Some(600))], 0)
  {
    var vs := [Some(500), Some(520), Some(600)];
    FullSweep(vs, 3);
    var pts := Replay(vs, 3).0;
    assert pts == [pts[0], pts[1], pts[2]];
  }
}
