/**
 * Rectangles as `getBoundingClientRect` reports them, the overlap area every
 * variant computes, and the running-maximum scan that picks the block a
 * dragged sticker belongs to.
 */
module Geometry {
  import opened Wrappers

  /** A bounding rectangle in whole pixels. */
  datatype Rect = Rect(left: int, top: int, right: int, bottom: int)

  /** A block element on the page: its `data-block-id` (or element id) and its rectangle. */
  datatype Placed = Placed(id: string, rect: Rect)

  predicate WellFormed(r: Rect) { r.left <= r.right && r.top <= r.bottom }

  function Width(r: Rect): int { r.right - r.left }
  function Height(r: Rect): int { r.bottom - r.top }
  function Area(r: Rect): int { Width(r) * Height(r) }

  function Max(a: int, b: int): int { if a >= b then a else b }
  function Min(a: int, b: int): int { if a <= b then a else b }

  /** The two rectangles share an interior point on both axes (the test qwenooooo writes out). */
  predicate Intersects(a: Rect, b: Rect) {
    Max(a.left, b.left) < Min(a.right, b.right) && Max(a.top, b.top) < Min(a.bottom, b.bottom)
  }

  /** `Math.max(0, Math.min(hi1, hi2) - Math.max(lo1, lo2))`: the length two intervals share. */
  function Span(lo1: int, hi1: int, lo2: int, hi2: int): (d: int)
    ensures d >= 0
    ensures d > 0 <==> lo1 < hi1 && lo2 < hi2 && lo1 < hi2 && lo2 < hi1
    ensures d <= hi1 - lo1 || d == 0
  {
    Max(0, Min(hi1, hi2) - Max(lo1, lo2))
  }

  lemma PositiveProduct(x: int, y: int)
    requires x >= 0 && y >= 0
    ensures x * y >= 0
    ensures x * y > 0 <==> x > 0 && y > 0
  {
    if x > 0 && y > 0 {
      assert x * y >= 1 * y;
    }
  }

  /** The overlap area of two rectangles, 0 when they do not intersect. */
  function Overlap(a: Rect, b: Rect): (area: int)
    ensures area >= 0
    ensures area > 0 <==> Intersects(a, b)
  {
    var w := Span(a.left, a.right, b.left, b.right);
    var h := Span(a.top, a.bottom, b.top, b.bottom);
    PositiveProduct(w, h);
    w * h
  }

  /** Which rectangle is the sticker and which the block does not matter. */
  lemma OverlapSymmetric(a: Rect, b: Rect)
    ensures Overlap(a, b) == Overlap(b, a)
  {
  }

  lemma MulMonotone(x: int, y: int, u: int, v: int)
    requires 0 <= x <= u && 0 <= y <= v
    ensures x * y <= u * v
  {
    assert x * y <= u * y;
    assert u * y <= u * v;
  }

  /** The overlap never exceeds the area of either rectangle. */
  lemma OverlapWithinAreas(a: Rect, b: Rect)
    requires WellFormed(a) && WellFormed(b)
    ensures Overlap(a, b) <= Area(a) && Overlap(a, b) <= Area(b)
  {
    var w := Span(a.left, a.right, b.left, b.right);
    var h := Span(a.top, a.bottom, b.top, b.bottom);
    if w > 0 && h > 0 {
      MulMonotone(w, h, Width(a), Height(a));
      MulMonotone(w, h, Width(b), Height(b));
    } else {
      PositiveProduct(w, h);
      PositiveProduct(Width(a), Height(a));
      PositiveProduct(Width(b), Height(b));
    }
  }

  /**
   * qwenooooo's form of the overlap: an area only for strictly intersecting
   * rectangles, and then the same number as `Overlap`.
   */
  function StrictOverlap(a: Rect, b: Rect): (r: Option<int>)
    ensures r.Some? <==> Intersects(a, b)
    ensures r.Some? ==> r.value > 0 && r.value == Overlap(a, b)
  {
    var left := Max(b.left, a.left);
    var right := Min(b.right, a.right);
    var top := Max(b.top, a.top);
    var bottom := Min(b.bottom, a.bottom);
    if left < right && top < bottom then
      PositiveProduct(right - left, bottom - top);
      Some((right - left) * (bottom - top))
    else None
  }

  /** The overlap of a sticker with each block, in page order. */
  function Areas(sticker: Rect, blocks: seq<Placed>): (r: seq<int>)
    ensures |r| == |blocks|
    ensures forall i :: 0 <= i < |blocks| ==> r[i] == Overlap(sticker, blocks[i].rect)
  {
    seq(|blocks|, i requires 0 <= i < |blocks| => Overlap(sticker, blocks[i].rect))
  }

  /**
   * The index a running-maximum scan ends with when it starts from `floor`
   * with no index and takes index i whenever areas[i] is strictly greater than
   * the best so far. Strict `>` keeps the first of equal maxima.
   */
  function FirstMax(areas: seq<int>, floor: int): (r: Option<nat>)
    ensures r.Some? ==> r.value < |areas| && areas[r.value] > floor
    ensures r.Some? ==> forall j :: 0 <= j < |areas| ==> areas[j] <= areas[r.value]
    ensures r.Some? ==> forall j :: 0 <= j < r.value ==> areas[j] < areas[r.value]
    ensures r.None? <==> forall j :: 0 <= j < |areas| ==> areas[j] <= floor
    decreases |areas|
  {
    if areas == [] then None
    else
      var init := areas[..|areas| - 1];
      var prev := FirstMax(init, floor);
      var best := if prev.Some? then init[prev.value] else floor;
      if areas[|areas| - 1] > best then Some(|areas| - 1) else prev
  }

  /** The running maximum the scan ends with: the winner's area, or `floor` if there is none. */
  function BestArea(areas: seq<int>, floor: int): int {
    var r := FirstMax(areas, floor);
    if r.Some? then areas[r.value] else floor
  }

  /** Any index with the three properties of the scan's winner is the winner. */
  lemma FirstMaxUnique(areas: seq<int>, floor: int, k: nat)
    requires k < |areas| && areas[k] > floor
    requires forall j :: 0 <= j < |areas| ==> areas[j] <= areas[k]
    requires forall j :: 0 <= j < k ==> areas[j] < areas[k]
    ensures FirstMax(areas, floor) == Some(k)
  {
    var r := FirstMax(areas, floor);
    assert r.Some?;
    assert areas[r.value] == areas[k];
  }

  /**
   * Scanning from a floor t picks the same block as scanning from a lower
   * floor and then keeping the winner only if its area exceeds t. So
   * deepseekooooo's filter inside the loop and myonly79's threshold after it
   * agree.
   */
  lemma {:induction false} ThresholdAfterScan(areas: seq<int>, floor: int, t: int)
    requires floor <= t
    ensures FirstMax(areas, t) ==
      (var r := FirstMax(areas, floor); if r.Some? && areas[r.value] > t then r else None)
  {
    var r := FirstMax(areas, floor);
    if r.Some? && areas[r.value] > t {
      FirstMaxUnique(areas, t, r.value);
    } else {
      assert forall j :: 0 <= j < |areas| ==> areas[j] <= t;
    }
  }

  /** One more area seen by the scan: it takes index i exactly when areas[i] beats the best so far. */
  lemma ScanStep(areas: seq<int>, floor: int, i: nat, best: Option<nat>, maxArea: int)
    requires i < |areas| && best == FirstMax(areas[..i], floor) && maxArea == BestArea(areas[..i], floor)
    ensures FirstMax(areas[..i + 1], floor) == if areas[i] > maxArea then Some(i) else best
    ensures BestArea(areas[..i + 1], floor) == if areas[i] > maxArea then areas[i] else maxArea
  {
    assert areas[..i + 1][..i] == areas[..i];
  }

  /** The loop each variant runs over the blocks, with its running maximum. */
  method ScanMax(areas: seq<int>, floor: int) returns (best: Option<nat>, maxArea: int)
    ensures best == FirstMax(areas, floor)
    ensures maxArea == BestArea(areas, floor)
  {
    best, maxArea := None, floor;
    var i := 0;
    while i < |areas|
      invariant 0 <= i <= |areas|
      invariant best == FirstMax(areas[..i], floor)
      invariant maxArea == BestArea(areas[..i], floor)
    {
      ScanStep(areas, floor, i, best, maxArea);
      if areas[i] > maxArea {
        best, maxArea := Some(i), areas[i];
      }
      i := i + 1;
    }
    assert areas[..i] == areas;
  }
}
