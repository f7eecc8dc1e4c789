/** Axis-aligned rectangles in pixel space, stored as (left, top, width, height).
    The derived edges follow a closed-interval convention: the rectangle covers
    the columns left .. Right() and the rows top .. Bottom(), both ends included,
    so that an integer rectangle occupies width x height whole pixels. */
module Rectangles {

  /** True when v has no fractional part. */
  predicate IsIntegral(v: real) {
    v == v.Floor as real
  }

  datatype Rectangle = Rectangle(left: real, top: real, width: real, height: real) {

    /** The last column covered: the columns left, left + 1, ..., r number
        exactly width (for a whole width), and there are none (r left of
        left) when width < 1. */
    function Right(): (r: real)
      ensures r - left + 1.0 == width
      ensures r < left <==> width < 1.0
    {
      left + width - 1.0
    }

    /** The last row covered, by the same convention as Right. */
    function Bottom(): (r: real)
      ensures r - top + 1.0 == height
      ensures r < top <==> height < 1.0
    {
      top + height - 1.0
    }

    /** Closed-interval membership on both axes. Only a rectangle at least
        one unit wide and one unit high contains anything. */
    predicate ContainsPoint(x: real, y: real)
      ensures ContainsPoint(x, y) ==> NonEmpty()
    {
      x >= left && x <= Right() && y >= top && y <= Bottom()
    }

    /** Overlap test: false exactly when one of the four separating
        conditions holds. For non-empty rectangles this says that on each axis
        the overlap of the two closed spans, from the larger start to the
        smaller end, is not empty. */
    predicate Intersects(other: Rectangle)
      ensures NonEmpty() && other.NonEmpty() ==>
                (Intersects(other) <==>
                   Max(left, other.left) <= Min(Right(), other.Right()) &&
                   Max(top, other.top) <= Min(Bottom(), other.Bottom()))
    {
      !(left > other.Right() || Right() < other.left ||
        top > other.Bottom() || Bottom() < other.top)
    }

    /** At least one whole column and one whole row. */
    predicate NonEmpty() {
      width >= 1.0 && height >= 1.0
    }
  }

  /** A rectangle narrower or shorter than one pixel contains no point at all;
      in particular width == 0 puts Right() one unit left of left. */
  lemma ThinContainsNothing(r: Rectangle, x: real, y: real)
    requires r.width < 1.0 || r.height < 1.0
    ensures !r.ContainsPoint(x, y)
  {
  }

  /** A non-empty rectangle contains its own top-left corner and its
      bottom-right corner (Right(), Bottom()). */
  lemma NonEmptyContainsCorners(r: Rectangle)
    requires r.NonEmpty()
    ensures r.ContainsPoint(r.left, r.top)
    ensures r.ContainsPoint(r.Right(), r.Bottom())
  {
  }

  /** With integer fields and an integer point, the closed span left .. Right()
      is the half-open span [left, left + width): the rectangle covers exactly
      the width x height pixels starting at (left, top). */
  lemma ContainsIntegerPoint(r: Rectangle, x: int, y: int)
    requires IsIntegral(r.left) && IsIntegral(r.top)
    requires IsIntegral(r.width) && IsIntegral(r.height)
    ensures r.ContainsPoint(x as real, y as real) <==>
              r.left <= x as real < r.left + r.width &&
              r.top <= y as real < r.top + r.height
  {
    ClosedSpanIsHalfOpen(r.left, r.width, x);
    ClosedSpanIsHalfOpen(r.top, r.height, y);
  }

  /** On one axis: an integer v lies in the closed span lo .. lo + n - 1 iff it
      lies in the half-open span [lo, lo + n), when lo and n are integers. */
  lemma ClosedSpanIsHalfOpen(lo: real, n: real, v: int)
    requires IsIntegral(lo) && IsIntegral(n)
    ensures (lo <= v as real <= lo + n - 1.0) <==> (lo <= v as real < lo + n)
  {
    var l, k := lo.Floor, n.Floor;
    assert v <= l + k - 1 <==> v < l + k;
    assert lo + n - 1.0 == (l + k - 1) as real;
    assert lo + n == (l + k) as real;
  }

  lemma IntersectsSymmetric(a: Rectangle, b: Rectangle)
    ensures a.Intersects(b) <==> b.Intersects(a)
  {
  }

  lemma IntersectsReflexive(r: Rectangle)
    requires r.NonEmpty()
    ensures r.Intersects(r)
  {
  }

  /** A point contained in both rectangles makes them intersect. */
  lemma SharedPointIntersects(a: Rectangle, b: Rectangle, x: real, y: real)
    requires a.ContainsPoint(x, y) && b.ContainsPoint(x, y)
    ensures a.Intersects(b)
  {
  }

  /** Two rectangles separated on either axis never intersect. */
  lemma SeparatedDisjoint(a: Rectangle, b: Rectangle)
    requires a.Right() < b.left || b.Right() < a.left ||
             a.Bottom() < b.top || b.Bottom() < a.top
    ensures !a.Intersects(b) && !b.Intersects(a)
  {
  }

  function Max(a: real, b: real): (r: real) { if a < b then b else a }
  function Min(a: real, b: real): (r: real) { if a < b then a else b }

  /** For non-empty rectangles the four-condition test is exact: they intersect
      if and only if some point lies in both. The witness is the top-left corner
      of the overlap. */
  lemma IntersectsIffSharedPoint(a: Rectangle, b: Rectangle)
    requires a.NonEmpty() && b.NonEmpty()
    ensures a.Intersects(b) <==>
              exists x: real, y: real :: a.ContainsPoint(x, y) && b.ContainsPoint(x, y)
  {
    if a.Intersects(b) {
      var x, y := Max(a.left, b.left), Max(a.top, b.top);
      assert a.ContainsPoint(x, y) && b.ContainsPoint(x, y);
    }
  }

  /** Without non-emptiness the test is not exact: a zero-width rectangle
      contains nothing yet still intersects a wide one around it. */
  lemma DegenerateIntersects()
    ensures var thin, wide := Rectangle(0.0, 0.0, 0.0, 1.0), Rectangle(-5.0, 0.0, 10.0, 1.0);
            thin.Intersects(wide) &&
            forall x: real, y: real :: !thin.ContainsPoint(x, y)
  {
  }
}
