/**
 * The hand-gesture classifier of the particle screen and the tracking of
 * gesture changes between camera frames. The landmark geometry is abstracted:
 * a hand is the five "finger extended" tests plus the "thumb and index tips
 * are close" test.
 */
module Gestures {

  datatype Gesture = Open | Fist | Ok | Peace | ThumbsUp | Pointing | Unknown

  /** The outcome of the landmark tests for one hand. */
  datatype Hand = Hand(thumb: bool, index: bool, middle: bool, ring: bool, pinky: bool, tipsClose: bool)

  /** The string the screen uses for each gesture. */
  function Label(g: Gesture): string {
    match g
    case Open => "open"
    case Fist => "fist"
    case Ok => "ok"
    case Peace => "peace"
    case ThumbsUp => "thumbsUp"
    case Pointing => "pointing"
    case Unknown => "unknown"
  }

  /** Distinct gestures have distinct labels, so comparing labels is comparing gestures. */
  lemma LabelInjective(g: Gesture, h: Gesture)
    ensures Label(g) == Label(h) <==> g == h
  {
  }

  function B(b: bool): nat {
    if b then 1 else 0
  }

  /** How many of the five fingers are extended. */
  function ExtendedCount(h: Hand): nat {
    B(h.thumb) + B(h.index) + B(h.middle) + B(h.ring) + B(h.pinky)
  }

  /** Only the thumb is extended. */
  predicate OnlyThumb(h: Hand) {
    h.thumb && !h.index && !h.middle && !h.ring && !h.pinky
  }

  /** Only the index finger is extended. */
  predicate OnlyIndex(h: Hand) {
    !h.thumb && h.index && !h.middle && !h.ring && !h.pinky
  }

  /** Index and middle up, ring and pinky down; the thumb is free. */
  predicate VSign(h: Hand) {
    h.index && h.middle && !h.ring && !h.pinky
  }

  /** Thumb and index tips touch while middle and ring are extended. */
  predicate Circle(h: Hand) {
    h.tipsClose && h.middle && h.ring
  }

  /**
   * `detectGesture`: the rules in order, the first that matches wins. Each
   * label is characterised on its own, without reference to the order: the
   * rule order only matters between "open" and "ok", which is why "ok"
   * needs fewer than four fingers.
   */
  function Detect(h: Hand): (g: Gesture)
    ensures g == Open <==> ExtendedCount(h) >= 4
    ensures g == Fist <==> ExtendedCount(h) == 0
    ensures g == Ok <==> Circle(h) && ExtendedCount(h) < 4
    ensures g == Peace <==> VSign(h)
    ensures g == ThumbsUp <==> OnlyThumb(h)
    ensures g == Pointing <==> OnlyIndex(h)
    ensures g == Unknown <==>
      && 0 < ExtendedCount(h) < 4
      && !Circle(h) && !VSign(h) && !OnlyThumb(h) && !OnlyIndex(h)
  {
    var n := ExtendedCount(h);
    if n >= 4 then Open
    else if n == 0 then Fist
    else if Circle(h) then Ok
    else if VSign(h) then Peace
    else if OnlyThumb(h) then ThumbsUp
    else if OnlyIndex(h) then Pointing
    else Unknown
  }

  /** The current and the previous gesture, as kept between frames. */
  datatype Tracker = Tracker(current: Gesture, last: Gesture)

  const INITIAL: Tracker := Tracker(Unknown, Unknown)

  /**
   * A frame with a detected gesture: when it differs from the current one,
   * the current one becomes the last and the new one current.
   */
  function Observe(t: Tracker, g: Gesture): (r: Tracker)
    ensures r.current == g
    ensures g == t.current ==> r == t
    ensures g != t.current ==> r.last == t.current
  {
    if g != t.current then Tracker(g, t.current) else t
  }

  /** Observing the same gesture twice is observing it once. */
  lemma ObserveIdempotent(t: Tracker, g: Gesture)
    ensures Observe(Observe(t, g), g) == Observe(t, g)
  {
  }

  /** The tracker after a run of frames. */
  function ObserveAll(t: Tracker, gs: seq<Gesture>): Tracker {
    if |gs| == 0 then t else Observe(ObserveAll(t, gs[..|gs| - 1]), gs[|gs| - 1])
  }

  /** The last gesture of a run of frames, `Unknown` before any frame. */
  function Final(gs: seq<Gesture>): Gesture {
    if |gs| == 0 then Unknown else gs[|gs| - 1]
  }

  /** The most recent gesture of `gs` other than `g`, `Unknown` when there is none. */
  function PreviousOther(gs: seq<Gesture>, g: Gesture): (p: Gesture)
    ensures p == Unknown || exists k :: 0 <= k < |gs| && gs[k] == p
  {
    if |gs| == 0 then Unknown
    else if gs[|gs| - 1] != g then gs[|gs| - 1]
    else PreviousOther(gs[..|gs| - 1], g)
  }

  /**
   * From the initial tracker, a run of frames leaves the last frame's gesture
   * current and, as the last one, the most recent different gesture seen.
   */
  lemma {:induction false} ObserveAllFromInitial(gs: seq<Gesture>)
    ensures ObserveAll(INITIAL, gs) == Tracker(Final(gs), PreviousOther(gs, Final(gs)))
  {
    if |gs| > 0 {
      var prefix := gs[..|gs| - 1];
      var g := gs[|gs| - 1];
      ObserveAllFromInitial(prefix);
      var c := Final(prefix);
      if g != c && |prefix| > 0 {
        assert prefix[|prefix| - 1] == c;
        assert PreviousOther(prefix, g) == c;
      }
    }
  }

  /** The current and last gestures differ, except before any change. */
  predicate Distinguished(t: Tracker) {
    t.current != t.last || t == INITIAL
  }

  /** Every tracker reached from the initial one is distinguished. */
  lemma {:induction false} ObserveAllDistinguished(gs: seq<Gesture>)
    ensures Distinguished(ObserveAll(INITIAL, gs))
  {
    if |gs| > 0 {
      ObserveAllDistinguished(gs[..|gs| - 1]);
    }
  }
}
