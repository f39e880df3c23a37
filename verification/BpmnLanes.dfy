/**
 Lanes and the pool around a process diagram (scripts/bpmn_add_di.py, the lane
 part of `Process.layout`, and `pool_bounds`).
 */
module BpmnLanes {
  import opened Chains
  import opened BpmnGeometry

  /** The outline of the content: left, top, right and bottom, before truncation. */
  datatype Extent = Extent(left: real, top: real, right: real, bottom: real)

  const LANE_SIDE_PAD := 50.0
  const LANE_Y_PAD := 30.0

  function LaneTop(e: Extent): real { e.top - LANE_Y_PAD }

  function LaneHeight(e: Extent, n: nat): int
    requires n > 0
  {
    Trunc((e.bottom + LANE_Y_PAD - LaneTop(e)) / n as real)
  }

  datatype LaneBox = LaneBox(x: int, y: int, w: int, h: int)

  datatype Lane = Lane(id: Id, box: LaneBox)

  /** The `i`-th of `n` equally high lanes. */
  function LaneAt(e: Extent, n: nat, i: nat): LaneBox
    requires n > 0
  {
    var h := LaneHeight(e, n);
    LaneBox(Trunc(e.left - LANE_SIDE_PAD), Trunc(LaneTop(e) + (i * h) as real),
            Trunc(e.right + LANE_SIDE_PAD - (e.left - LANE_SIDE_PAD)), h)
  }

  /** A box emitted for content whose untruncated sides lie within the outline. */
  ghost predicate Inside(b: Box, e: Extent) {
    exists x: real, y: real ::
      && b.x == Trunc(x) && b.y == Trunc(y)
      && e.left <= x && x + b.w as real <= e.right
      && e.top <= y && y + b.h as real <= e.bottom
  }

  predicate Covers(l: LaneBox, px: int, py: int) {
    l.x <= px < l.x + l.w && l.y <= py < l.y + l.h
  }

  lemma {:induction false} ProductAsReal(n: nat, h: int)
    ensures (n * h) as real == Times(h as real, n as real)
  {
    if n == 0 {
    } else {
      ProductAsReal(n - 1, h);
      assert n * h == (n - 1) * h + h;
    }
  }

  function Times(a: real, b: real): real {
    a * b
  }

  lemma TimesKeepsOrder(a: real, b: real, m: real)
    requires m > 0.0
    ensures a <= b ==> Times(a, m) <= Times(b, m)
    ensures a < b ==> Times(a, m) < Times(b, m)
  {
    PositiveTimes(b - a, m);
  }

  lemma PositiveTimes(a: real, m: real)
    requires m > 0.0
    ensures a > 0.0 ==> a * m > 0.0
  {
  }

  lemma TimesNext(h: real, m: real)
    ensures Times(h + 1.0, m) == Times(h, m) + m
  {
  }

  /** The whole number below a share, times the number of shares, misses the sum by less than one a share. */
  lemma ShareBounds(m: real, q: real, h: real)
    requires m > 0.0 && h <= q < h + 1.0
    ensures Times(q, m) - m < Times(h, m) <= Times(q, m)
  {
    hide Times;
    TimesKeepsOrder(h, q, m);
    TimesKeepsOrder(q, h + 1.0, m);
    TimesNext(h, m);
  }

  lemma QuotientTimes(s: real, m: real)
    requires m > 0.0
    ensures Times(s / m, m) == s
    ensures s >= 0.0 ==> s / m >= 0.0
  {
  }

  /** All lanes together lose less than one pixel a lane. */
  lemma LaneHeightBounds(e: Extent, n: nat)
    requires n > 0 && e.top <= e.bottom
    ensures LaneHeight(e, n) >= 0
    ensures var s := e.bottom + LANE_Y_PAD - LaneTop(e); s - n as real < (n * LaneHeight(e, n)) as real <= s
  {
    var s, m := e.bottom + LANE_Y_PAD - LaneTop(e), n as real;
    var q := s / m;
    hide Times;
    QuotientTimes(s, m);
    var h := LaneHeight(e, n);
    ShareBounds(m, q, h as real);
    ProductAsReal(n, h);
  }

  /** Lanes reach 50 px beyond the content on either side, and the first begins 30 px above it, to the pixel that truncation takes. */
  lemma LaneSides(e: Extent, n: nat, i: nat)
    requires n > 0 && e.left <= e.right
    ensures var l := LaneAt(e, n, i);
      && e.left - 51.0 < l.x as real < e.left - 49.0
      && e.right - e.left + 99.0 < l.w as real <= e.right - e.left + 100.0
      && (i == 0 ==> e.top - 31.0 < l.y as real < e.top - 29.0)
  {
    hide LaneHeight;
    assert 0 * LaneHeight(e, n) == 0;
  }

  /** Consecutive lanes leave no gap, and meet exactly unless the border's truncation crosses zero. */
  lemma LanesMeet(e: Extent, n: nat, i: nat)
    requires n > 0 && e.top <= e.bottom
    ensures LaneAt(e, n, i + 1).y <= LaneAt(e, n, i).y + LaneAt(e, n, i).h <= LaneAt(e, n, i + 1).y + 1
    ensures LaneTop(e) >= 0.0 ==> LaneAt(e, n, i + 1).y == LaneAt(e, n, i).y + LaneAt(e, n, i).h
    ensures LaneAt(e, n, i + 1).y == LaneAt(e, n, i).y + LaneAt(e, n, i).h <==>
      var y := LaneTop(e) + (i * LaneHeight(e, n)) as real;
      y >= 0.0 || y + LaneHeight(e, n) as real <= 0.0 || y == y.Floor as real
  {
    LaneHeightBounds(e, n);
    var h := LaneHeight(e, n);
    assert (i + 1) * h == i * h + h;
    assert i * h >= 0;
    Crossing(LaneTop(e) + (i * h) as real, h);
  }

  /** Where the top is not negative, no two lanes overlap. */
  lemma {:induction false} LanesApart(e: Extent, n: nat, i: nat, j: nat)
    requires n > 0 && e.top <= e.bottom && LaneTop(e) >= 0.0 && i < j
    ensures LaneAt(e, n, i).y + LaneAt(e, n, i).h <= LaneAt(e, n, j).y
    decreases j
  {
    hide LaneAt, LaneTop;
    LanesMeet(e, n, j - 1);
    if i < j - 1 {
      LanesApart(e, n, i, j - 1);
      OneHeight(e, n, j - 1);
    }
  }

  lemma OneHeight(e: Extent, n: nat, i: nat)
    requires n > 0 && e.top <= e.bottom
    ensures LaneAt(e, n, i).h >= 0
  {
    LaneHeightBounds(e, n);
  }

  lemma Crossing(y: real, h: nat)
    ensures Trunc(y + h as real) <= Trunc(y) + h <= Trunc(y + h as real) + 1
    ensures Trunc(y + h as real) == Trunc(y) + h <==> y >= 0.0 || y + h as real <= 0.0 || y == y.Floor as real
  {
    assert (y + h as real).Floor == y.Floor + h;
    assert (-(y + h as real)).Floor == (-y).Floor - h;
  }

  // ----- where the lanes end

  function LanesEnd(e: Extent, n: nat): int
    requires n > 0
  {
    LaneAt(e, n, n - 1).y + LaneAt(e, n, n - 1).h
  }

  /** What is left of the padded outline when it is shared out in whole heights. */
  function Lost(e: Extent, n: nat): real
    requires n > 0
  {
    e.bottom - e.top + 60.0 - (n * LaneHeight(e, n)) as real
  }

  /** Where the last lane begins, before truncation. */
  function LastTop(e: Extent, n: nat): real
    requires n > 0
  {
    LaneTop(e) + ((n - 1) * LaneHeight(e, n)) as real
  }

  /**
   The lower padding makes up for what is lost: 30 px, and the fraction the content's own
   end loses to truncation; nearly a pixel more where the last lane begins above zero.
   */
  predicate LanesReach(e: Extent, n: nat)
    requires n > 0
  {
    var fraction := e.bottom - e.bottom.Floor as real;
    Lost(e, n) <= 30.0 + fraction || (LastTop(e, n) < 0.0 && Lost(e, n) < 31.0 + fraction)
  }

  /** The last lane ends at or below the last whole pixel of the content exactly when the padding makes up for the loss. */
  lemma LanesEndIff(e: Extent, n: nat)
    requires n > 0 && e.top <= e.bottom
    ensures LanesEnd(e, n) >= e.bottom.Floor <==> LanesReach(e, n)
  {
    LaneHeightBounds(e, n);
    var h := LaneHeight(e, n);
    assert (n - 1) * h + h == n * h;
    TruncStep(LastTop(e, n), h);
    assert LastTop(e, n) + h as real == e.bottom + 30.0 - Lost(e, n);
    EndsAbove(LastTop(e, n) + h as real, e.bottom);
  }

  lemma TruncStep(y: real, h: int)
    ensures Trunc(y) + h == if y >= 0.0 then (y + h as real).Floor else -(-(y + h as real)).Floor
  {
    assert (y + h as real).Floor == y.Floor + h;
    assert (-(y + h as real)).Floor == (-y).Floor - h;
  }

  lemma EndsAbove(end: real, bottom: real)
    ensures end.Floor >= bottom.Floor <==> end >= bottom.Floor as real
    ensures -(-end).Floor >= bottom.Floor <==> end > bottom.Floor as real - 1.0
  {
  }

  /** Up to thirty lanes always reach. */
  lemma ThirtyReach(e: Extent, n: nat)
    requires 0 < n <= 30 && e.top <= e.bottom
    ensures LanesReach(e, n)
  {
    LaneHeightBounds(e, n);
  }

  /** On an outline in whole numbers, what is lost is the remainder of the padded height, and 30 of it may be lost. */
  lemma WholeOutlineReaches(e: Extent, n: nat, top: int, bottom: int)
    requires n > 0 && top <= bottom && e.top == top as real && e.bottom == bottom as real
    ensures LanesReach(e, n) <==> (bottom - top + 60) % n <= 30
  {
    var s := bottom - top + 60;
    LaneHeightBounds(e, n);
    var h := LaneHeight(e, n);
    assert (e.bottom + LANE_Y_PAD - LaneTop(e)) == s as real;
    assert Lost(e, n) == (s - n * h) as real;
    assert 0 <= s - n * h < n;
    Remainder(s, n, h);
  }

  lemma Remainder(s: nat, n: nat, h: int)
    requires n > 0 && 0 <= s - n * h < n
    ensures s % n == s - n * h
  {
    var q := s / n;
    assert s == n * q + s % n;
    TimesGrow(n, h, q);
    TimesGrow(n, q, h);
  }

  lemma TimesGrow(n: nat, a: int, b: int)
    ensures a < b ==> n * a + n <= n * b
  {
    assert a < b ==> n * (a + 1) <= n * b;
  }

  /** Lanes end in order. */
  lemma {:induction false} EndsInOrder(e: Extent, n: nat, i: nat)
    requires i < n && e.top <= e.bottom
    ensures LaneAt(e, n, i).y + LaneAt(e, n, i).h <= LanesEnd(e, n)
    decreases n - i
  {
    if i == n - 1 {
    } else {
      EndsInOrder(e, n, i + 1);
      LaneHeightBounds(e, n);
      var h := LaneHeight(e, n);
      assert (i + 1) * h == i * h + h;
    }
  }

  /** Up to 29 lanes end where the content does or below, wherever it stands. */
  lemma LastLaneReaches(e: Extent, n: nat, b: Box)
    requires 0 < n <= 29 && e.top <= e.bottom && Inside(b, e)
    ensures b.y + b.h <= LanesEnd(e, n)
  {
    LaneHeightBounds(e, n);
    var h := LaneHeight(e, n);
    assert (n - 1) * h + h == n * h;
    var x: real, y: real :| b.x == Trunc(x) && b.y == Trunc(y)
      && e.left <= x && x + b.w as real <= e.right && e.top <= y && y + b.h as real <= e.bottom;
    assert (LaneAt(e, n, n - 1).y + h) as real > LaneTop(e) + (n * h) as real - 1.0;
  }

  lemma FirstLaneBegins(e: Extent, n: nat, b: Box)
    requires n > 0 && Inside(b, e)
    ensures LaneAt(e, n, 0).y <= b.y
  {
    var x: real, y: real :| b.x == Trunc(x) && b.y == Trunc(y)
      && e.left <= x && x + b.w as real <= e.right && e.top <= y && y + b.h as real <= e.bottom;
    assert 0 * LaneHeight(e, n) == 0;
  }

  lemma SidesReach(e: Extent, n: nat, i: nat, b: Box)
    requires n > 0 && e.left <= e.right && Inside(b, e)
    ensures LaneAt(e, n, i).x <= b.x && b.x + b.w <= LaneAt(e, n, i).x + LaneAt(e, n, i).w
  {
    var x: real, y: real :| b.x == Trunc(x) && b.y == Trunc(y)
      && e.left <= x && x + b.w as real <= e.right && e.top <= y && y + b.h as real <= e.bottom;
  }

  lemma {:induction false} SomeLane(e: Extent, n: nat, k: nat, py: int) returns (i: nat)
    requires k < n && e.top <= e.bottom
    requires LaneAt(e, n, 0).y <= py < LaneAt(e, n, k).y + LaneAt(e, n, k).h
    ensures i <= k && LaneAt(e, n, i).y <= py < LaneAt(e, n, i).y + LaneAt(e, n, i).h
    decreases k
  {
    if LaneAt(e, n, k).y <= py {
      i := k;
    } else {
      LanesMeet(e, n, k - 1);
      i := SomeLane(e, n, k - 1, py);
    }
  }

  /** Every pixel of a content box that ends where the lanes do or above lies in a lane. */
  lemma LanesCover(e: Extent, n: nat, b: Box, px: int, py: int) returns (i: nat)
    requires n > 0 && e.top <= e.bottom && e.left <= e.right && Inside(b, e) && b.y + b.h <= LanesEnd(e, n)
    requires b.x <= px < b.x + b.w && b.y <= py < b.y + b.h
    ensures i < n && Covers(LaneAt(e, n, i), px, py)
  {
    FirstLaneBegins(e, n, b);
    hide Inside, LaneAt;
    i := SomeLane(e, n, n - 1, py);
    SidesReach(e, n, i, b);
  }

  /** No lane covers what lies below the last one. */
  lemma NoneCovers(e: Extent, n: nat, px: int, py: int)
    requires n > 0 && e.top <= e.bottom && py >= LanesEnd(e, n)
    ensures forall i :: 0 <= i < n ==> !Covers(LaneAt(e, n, i), px, py)
  {
    hide LaneAt, LanesEnd;
    forall i | 0 <= i < n ensures !Covers(LaneAt(e, n, i), px, py) { EndsInOrder(e, n, i); }
  }
}
