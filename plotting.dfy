/** The plot-domain computation shared by both front ends (`plot_graph`):
    the smallest and largest visited point, a padding of half the spread
    (or 1.0 when the spread is zero) and the point highlighted as the root. */
module Plotting {
  import opened Wrappers

  /** Smallest element of a non-empty list, as Python's `min`. */
  function Min(s: seq<real>): (m: real)
    requires |s| > 0
    ensures m in s
    ensures forall k :: 0 <= k < |s| ==> m <= s[k]
  {
    if |s| == 1 then s[0]
    else
      var rest := Min(s[1..]);
      if s[0] <= rest then s[0] else rest
  }

  /** Largest element of a non-empty list, as Python's `max`. */
  function Max(s: seq<real>): (m: real)
    requires |s| > 0
    ensures m in s
    ensures forall k :: 0 <= k < |s| ==> s[k] <= m
  {
    if |s| == 1 then s[0]
    else
      var rest := Max(s[1..]);
      if rest <= s[0] then s[0] else rest
  }

  /** All points of the list are the same value. */
  predicate AllEqual(s: seq<real>)
  {
    forall j, k :: 0 <= j < |s| && 0 <= k < |s| ==> s[j] == s[k]
  }

  /** What the axes show: the range of the iterates, the padding around it,
      and the last point, which is drawn as the root marker. */
  datatype Frame = Frame(minX: real, maxX: real, padding: real, marker: real)
  {
    /** Left end of the sampled interval. */
    function Lo(): (lo: real) { minX - padding }

    /** Right end of the sampled interval. */
    function Hi(): (hi: real) { maxX + padding }

    /** Every point lies inside the sampled interval. */
    predicate Encloses(points: seq<real>)
    {
      forall k :: 0 <= k < |points| ==> Lo() <= points[k] <= Hi()
    }
  }

  /** The frame of a list of visited points; no frame for an empty list. */
  function PlotFrame(points: seq<real>): (fr: Option<Frame>)
    ensures fr.None? <==> points == []
    ensures fr.Some? ==> fr.value.minX in points && fr.value.maxX in points
    ensures fr.Some? ==> forall k :: 0 <= k < |points| ==> fr.value.minX <= points[k] <= fr.value.maxX
    ensures fr.Some? ==> fr.value.Encloses(points)
    ensures fr.Some? ==> 0.0 < fr.value.padding
    ensures fr.Some? ==> fr.value.Lo() < fr.value.Hi()
    ensures fr.Some? && AllEqual(points) ==> fr.value.padding == 1.0
    ensures fr.Some? && !AllEqual(points) ==>
      fr.value.minX < fr.value.maxX && fr.value.padding == (fr.value.maxX - fr.value.minX) / 2.0
    ensures fr.Some? ==> fr.value.marker == points[|points| - 1]
  {
    if points == [] then None
    else
      var minX := Min(points);
      var maxX := Max(points);
      var half := (maxX - minX) * 0.5;
      var padding := if half == 0.0 then 1.0 else half;
      assert AllEqual(points) <==> minX == maxX by {
        if minX == maxX {
          forall j, k | 0 <= j < |points| && 0 <= k < |points| ensures points[j] == points[k] {
          }
        }
      }
      Some(Frame(minX, maxX, padding, points[|points| - 1]))
  }
}
