/**
 * The lunch wheel's spin: the guard that refuses a spin, the single-candidate
 * shortcut, the winning index drawn from `Math.random()`, and the reveal once
 * the animation ends. The rotation angle and easing are drawing only; the
 * reveal is modelled as a separate step that reads the candidates captured
 * when the spin started.
 */
module Wheel {
  import opened Wrappers
  import opened Restaurants
  import Random

  /** A spin in progress: the candidates captured at its start and the index drawn. */
  datatype Pending = Pending(candidates: seq<Restaurant>, winningIndex: nat)

  datatype Wheel = Wheel(spinning: bool, winner: Option<Restaurant>, pending: Option<Pending>)

  /** The outcome of a step: the new wheel and the restaurant handed to the save routine, if any. */
  datatype Step = Step(wheel: Wheel, saved: Option<Restaurant>)

  /** A wheel is spinning exactly while a spin is pending, and the drawn index is in range. */
  predicate Valid(w: Wheel) {
    && (w.spinning <==> w.pending.Some?)
    && (w.pending.Some? ==> w.pending.value.winningIndex < |w.pending.value.candidates|)
  }

  /**
   * `spinWheel` with the current filtered list `candidates` and the draw `r`.
   * Nothing happens while spinning or without candidates; a single candidate
   * wins and is saved at once; otherwise the wheel starts spinning with the
   * previous winner cleared and an index below the number of candidates.
   */
  function Spin(w: Wheel, candidates: seq<Restaurant>, r: real): (s: Step)
    requires Valid(w)
    requires Random.IsDraw(r)
    ensures Valid(s.wheel)
    ensures w.spinning || |candidates| == 0 ==> s.wheel == w && s.saved == None
    ensures !w.spinning && |candidates| == 1 ==>
      && !s.wheel.spinning
      && s.wheel.winner == Some(candidates[0])
      && s.saved == Some(candidates[0])
    ensures !w.spinning && |candidates| >= 2 ==>
      && s.wheel.spinning
      && s.wheel.winner == None
      && s.saved == None
      && s.wheel.pending.value.candidates == candidates
      && s.wheel.pending.value.winningIndex < |candidates|
  {
    if w.spinning || |candidates| == 0 then Step(w, None)
    else if |candidates| == 1 then Step(w.(winner := Some(candidates[0])), Some(candidates[0]))
    else
      var i := Random.PickIndex(r, |candidates|);
      Step(Wheel(true, None, Some(Pending(candidates, i))), None)
  }

  /** The end of the animation: the captured candidate at the drawn index wins and is saved. */
  function Finish(w: Wheel): (s: Step)
    requires Valid(w)
    ensures Valid(s.wheel) && !s.wheel.spinning
    ensures !w.spinning ==> s.wheel == w && s.saved == None
    ensures w.spinning ==>
      && s.wheel.winner.Some?
      && s.wheel.winner.value in w.pending.value.candidates
      && s.saved == s.wheel.winner
  {
    if !w.spinning then Step(w, None)
    else
      var p := w.pending.value;
      var winner := p.candidates[p.winningIndex];
      Step(Wheel(false, Some(winner), None), Some(winner))
  }

  /**
   * A spin followed by its reveal saves exactly one candidate whenever the
   * wheel was idle and there was something to pick, and it is the candidate
   * at the index the draw selects.
   */
  lemma SpinThenFinish(w: Wheel, candidates: seq<Restaurant>, r: real)
    requires Valid(w) && !w.spinning
    requires Random.IsDraw(r)
    requires |candidates| >= 1
    ensures var s := Spin(w, candidates, r);
      var f := Finish(s.wheel);
      var won := if |candidates| == 1 then s.saved else f.saved;
      && won == Some(candidates[Random.PickIndex(r, |candidates|)])
      && won.value in candidates
      && !f.wheel.spinning
      && f.wheel.winner == won
  {
    if |candidates| == 1 {
      assert Random.PickIndex(r, 1) == 0;
    }
  }

  /**
   * Every candidate of a multi-candidate spin wins for exactly the draws in
   * its own slice of width `1 / n` of the unit interval.
   */
  lemma SpinFair(w: Wheel, candidates: seq<Restaurant>, r: real, i: nat)
    requires Valid(w) && !w.spinning
    requires Random.IsDraw(r)
    requires |candidates| >= 2
    ensures var n := |candidates| as real;
      Spin(w, candidates, r).wheel.pending.value.winningIndex == i
      <==> (i as real) / n <= r < ((i + 1) as real) / n
  {
    Random.PickIndexFair(r, |candidates|, i);
  }
}
