/**
 * The air-drawing effect of the particle screen: while the hand points, the
 * index tip is appended to the current stroke, whose buffer holds at most
 * 1000 points; any other gesture ends the stroke. Points are kept abstract:
 * the conversion of the tip to scene coordinates is floating point.
 */
module AirDrawing {
  import opened Gestures

  /** The capacity of one stroke's position buffer. */
  const MAX_POINTS: nat := 1000

  /**
   * The strokes drawn so far, oldest first, and whether the newest one is
   * still being drawn (the current line).
   */
  datatype Canvas<P> = Canvas(strokes: seq<seq<P>>, drawing: bool)

  /** A current line exists only while drawing, and every stroke holds 1 to 1000 points. */
  predicate Valid<P>(c: Canvas<P>) {
    && (c.drawing ==> |c.strokes| > 0)
    && forall i :: 0 <= i < |c.strokes| ==> 1 <= |c.strokes[i]| <= MAX_POINTS
  }

  /**
   * `handleAirDrawing` with an active tip: start a new stroke when none is
   * current, then add the point when the current stroke is below capacity.
   * Earlier strokes are never touched.
   */
  function DrawPoint<P>(c: Canvas<P>, p: P): (r: Canvas<P>)
    requires Valid(c)
    ensures Valid(r) && r.drawing
    ensures !c.drawing ==> r.strokes == c.strokes + [[p]]
    ensures c.drawing ==>
      var n := |c.strokes|;
      var line := c.strokes[n - 1];
      && |r.strokes| == n
      && r.strokes[..n - 1] == c.strokes[..n - 1]
      && (|line| < MAX_POINTS ==> r.strokes[n - 1] == line + [p])
      && (|line| == MAX_POINTS ==> r == c)
  {
    if !c.drawing then Canvas(c.strokes + [[p]], true)
    else
      var n := |c.strokes|;
      var line := c.strokes[n - 1];
      if |line| < MAX_POINTS then Canvas(c.strokes[n - 1 := line + [p]], true)
      else c
  }

  /** `handleAirDrawing` without a tip: the current line ends, every stroke stays. */
  function EndStroke<P>(c: Canvas<P>): (r: Canvas<P>)
    requires Valid(c)
    ensures Valid(r) && !r.drawing
    ensures r.strokes == c.strokes
  {
    c.(drawing := false)
  }

  /** `clearDrawings`: every stroke and the current line are removed. */
  function Clear<P>(c: Canvas<P>): (r: Canvas<P>)
    ensures Valid(r) && |r.strokes| == 0 && !r.drawing
  {
    Canvas([], false)
  }

  /**
   * One camera frame with a hand in the air-drawing effect: a pointing hand
   * draws its index tip, any other gesture ends the stroke.
   */
  function Frame<P>(c: Canvas<P>, g: Gesture, tip: P): (r: Canvas<P>)
    requires Valid(c)
    ensures Valid(r)
    ensures r.drawing <==> g == Pointing
    ensures |c.strokes| <= |r.strokes| <= |c.strokes| + 1
    ensures forall i :: 0 <= i < |c.strokes| - 1 ==> r.strokes[i] == c.strokes[i]
  {
    if g == Pointing then
      var r := DrawPoint(c, tip);
      assert c.drawing ==> r.strokes[..|c.strokes| - 1] == c.strokes[..|c.strokes| - 1];
      r
    else EndStroke(c)
  }

  /** The canvas after drawing the points `ps` one after another. */
  function DrawAll<P>(c: Canvas<P>, ps: seq<P>): (r: Canvas<P>)
    requires Valid(c)
    ensures Valid(r)
  {
    if |ps| == 0 then c else DrawPoint(DrawAll(c, ps[..|ps| - 1]), ps[|ps| - 1])
  }

  function Min(a: nat, b: nat): nat {
    if a <= b then a else b
  }

  /**
   * A stroke started from a canvas with no current line keeps the first
   * 1000 points drawn and drops the rest; the earlier strokes stay as they were.
   */
  lemma {:induction false} DrawAllNewStroke<P>(c: Canvas<P>, ps: seq<P>)
    requires Valid(c) && !c.drawing
    requires |ps| >= 1
    ensures DrawAll(c, ps) == Canvas(c.strokes + [ps[..Min(|ps|, MAX_POINTS)]], true)
  {
    var n := |ps|;
    if n == 1 {
      assert DrawAll(c, ps[..0]) == c;
      assert ps[..1] == [ps[0]];
    } else {
      var prefix := ps[..n - 1];
      DrawAllNewStroke(c, prefix);
      var m := Min(n - 1, MAX_POINTS);
      assert prefix[..m] == ps[..m];
      DrawOnCurrent(c.strokes, ps[..m], ps[n - 1]);
      if m < MAX_POINTS {
        assert ps[..m] + [ps[n - 1]] == ps[..n];
      }
    }
  }

  /** One more point on a current line below capacity is appended; at capacity it is dropped. */
  lemma DrawOnCurrent<P>(earlier: seq<seq<P>>, line: seq<P>, p: P)
    requires Valid(Canvas(earlier + [line], true))
    ensures DrawPoint(Canvas(earlier + [line], true), p)
      == Canvas(earlier + [if |line| < MAX_POINTS then line + [p] else line], true)
  {
    var strokes := earlier + [line];
    assert strokes[|strokes| - 1] == line;
    if |line| < MAX_POINTS {
      assert strokes[|strokes| - 1 := line + [p]] == earlier + [line + [p]];
    }
  }
}
