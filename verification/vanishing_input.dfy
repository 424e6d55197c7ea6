/** The search input (components/VanishingInput.tsx): submission is gated
    on a non-blank value, on `disabled` and on the running animation; a
    submission hands the trimmed value to `onSubmit` and starts the
    "vanish" animation, in which the text's pixels are swept away frame by
    frame from the right. The canvas scan and `Math.random()` are
    parameters: the particles drawn from the text, and one jitter record
    per particle per frame. */
module VanishingInput {
  import opened Wrappers
  import opened Strings
  import opened JsTrim

  const ENTER: JStr := Lit("Enter")
  /** How far the sweep line moves left per frame. */
  const SWEEP: int := 8

  /** One pixel of the drawn text. */
  datatype Particle = Particle(x: int, y: int, r: real)

  /** The three `Math.random()` draws for a particle in one frame: whether
      the first two exceed 0.5, and the third (in [0, 1)). */
  datatype Jitter = Jitter(right: bool, down: bool, shrink: real)

  /** The component's state and the parent's `value`, with the sweep line
      of the animation and the queries passed to `onSubmit` so far. */
  datatype InputState = InputState(value: JStr, animating: bool, particles: seq<Particle>, pos: int, submitted: seq<JStr>)

  /** What is rendered: the input's `disabled`, whether the placeholder
      span is shown and its text (`placeholders[0]`, absent for an empty
      list), whether the submit button (rather than the spinner) is shown,
      and whether the canvas is visible. */
  datatype InputView = InputView(inputDisabled: bool, placeholderShown: bool, placeholder: Option<JStr>,
                                 submitButton: bool, canvasVisible: bool)

  predicate CanSubmit(st: InputState, disabled: bool) {
    |Trim(st.value)| > 0 && !disabled && !st.animating
  }

  /** `reduce((prev, current) => current.x > prev ? current.x : prev, prev)`. */
  function MaxFrom(prev: int, ps: seq<Particle>): (m: int)
    ensures m >= prev
    ensures forall i :: 0 <= i < |ps| ==> ps[i].x <= m
    ensures m == prev || exists i :: 0 <= i < |ps| && ps[i].x == m
    decreases |ps|
  {
    if |ps| == 0 then prev
    else
      var m := MaxFrom(if ps[0].x > prev then ps[0].x else prev, ps[1..]);
      assert forall i :: 1 <= i < |ps| ==> ps[i] == ps[1..][i - 1];
      m
  }

  /** The starting sweep line: the rightmost particle, or 0 when there is
      none (or all lie left of 0). */
  function MaxX(ps: seq<Particle>): (m: int)
    ensures m >= 0
    ensures forall i :: 0 <= i < |ps| ==> ps[i].x <= m
    ensures m == 0 || exists i :: 0 <= i < |ps| && ps[i].x == m
  {
    MaxFrom(0, ps)
  }

  /** `vanishAndSubmit`: when the trimmed value is non-empty and neither
      `disabled` nor an animation blocks it, start animating, pass the
      trimmed value to `onSubmit`, and start the sweep at the rightmost
      drawn particle. */
  function VanishAndSubmit(st: InputState, disabled: bool, drawn: seq<Particle>): (r: InputState)
    ensures CanSubmit(st, disabled) ==>
              && r.animating && r.particles == drawn && r.pos == MaxX(drawn)
              && r.submitted == st.submitted + [Trim(st.value)] && r.value == st.value
    ensures !CanSubmit(st, disabled) ==> r == st
  {
    if CanSubmit(st, disabled) then
      st.(animating := true, particles := drawn, pos := MaxX(drawn), submitted := st.submitted + [Trim(st.value)])
    else st
  }

  /** `handleKeyDown`. */
  function HandleKeyDown(st: InputState, key: JStr, disabled: bool, drawn: seq<Particle>): InputState {
    if key == ENTER && !disabled && !st.animating then VanishAndSubmit(st, disabled, drawn) else st
  }

  /** `handleSubmit` (the default action is prevented). */
  function HandleSubmit(st: InputState, disabled: bool, drawn: seq<Particle>): InputState {
    if |Trim(st.value)| > 0 && !disabled && !st.animating then VanishAndSubmit(st, disabled, drawn) else st
  }

  /** A particle right of the sweep line after one random step. */
  function Moved(p: Particle, j: Jitter): Particle {
    Particle(p.x + (if j.right then 1 else -1), p.y + (if j.down then 1 else -1), p.r - 0.05 * j.shrink)
  }

  /** A particle right of the sweep line that has shrunk to nothing. */
  predicate Spent(p: Particle, pos: int) {
    p.x >= pos && p.r <= 0.0
  }

  /** The loop of one animation frame: particles left of the sweep line are
      kept as they are; spent ones are dropped; the others move. */
  function Survivors(ps: seq<Particle>, jitter: seq<Jitter>, pos: int): (r: seq<Particle>)
    requires |jitter| == |ps|
    ensures |r| <= |ps|
    ensures (forall i :: 0 <= i < |ps| ==> !Spent(ps[i], pos)) ==> |r| == |ps|
    ensures (forall i :: 0 <= i < |ps| ==> Spent(ps[i], pos)) ==> r == []
    decreases |ps|
  {
    if |ps| == 0 then []
    else
      var p := ps[0];
      var rest := Survivors(ps[1..], jitter[1..], pos);
      assert forall i :: 1 <= i < |ps| ==> ps[i] == ps[1..][i - 1];
      if p.x < pos then [p] + rest
      else if p.r <= 0.0 then rest
      else [Moved(p, jitter[0])] + rest
  }

  /** One `requestAnimationFrame` callback: the survivors replace the
      particles and the sweep line moves left; when none survive the
      animation stops and the value is cleared. */
  function AnimationFrame(st: InputState, jitter: seq<Jitter>): (r: InputState)
    requires |jitter| == |st.particles|
    ensures r.submitted == st.submitted && |r.particles| <= |st.particles|
    ensures |r.particles| > 0 ==> r.pos == st.pos - SWEEP && r.animating == st.animating && r.value == st.value
    ensures |r.particles| == 0 ==> !r.animating && r.value == []
  {
    var kept := Survivors(st.particles, jitter, st.pos);
    if |kept| > 0 then st.(particles := kept, pos := st.pos - SWEEP)
    else st.(particles := [], animating := false, value := [])
  }

  /** The jitter of frame `k`: `random(k, i)` for the `i`-th particle. */
  function FrameJitter(st: InputState, random: (int, int) -> Jitter, k: int): (js: seq<Jitter>)
    ensures |js| == |st.particles|
  {
    seq(|st.particles|, i => random(k, i))
  }

  /** The `animateFrame` loop for at most `n` more frames: each frame
      schedules the next only while particles survive, so the loop stops at
      the first frame that leaves none. */
  function Animate(st: InputState, random: (int, int) -> Jitter, n: nat): (r: InputState)
    decreases n
  {
    if n == 0 then st
    else
      var next := AnimationFrame(st, FrameJitter(st, random, n));
      if |next.particles| > 0 then Animate(next, random, n - 1) else next
  }

  function Render(st: InputState, placeholders: seq<JStr>, disabled: bool, isLoading: bool): InputView {
    InputView(disabled || st.animating || isLoading,
              |st.value| == 0,
              if |placeholders| > 0 then Some(placeholders[0]) else None,
              !isLoading,
              st.animating)
  }

  // ---------------------------------------------------------------------
  // Properties

  /** A submission is possible exactly when the value holds a unit that is
      not white space and nothing blocks it; the query passed on is the
      value without its surrounding white space, and is never blank. */
  lemma SubmitGate(st: InputState, disabled: bool, drawn: seq<Particle>)
    ensures CanSubmit(st, disabled) <==>
              !disabled && !st.animating && exists k :: 0 <= k < |st.value| && !IsJsWhitespace(st.value[k])
    ensures CanSubmit(st, disabled) ==>
              var q := VanishAndSubmit(st, disabled, drawn).submitted[|st.submitted|];
              |q| > 0 && !IsJsWhitespace(q[0]) && !IsJsWhitespace(q[|q| - 1])
  {
    TrimNonEmptyIff(st.value);
    if CanSubmit(st, disabled) {
      var r := VanishAndSubmit(st, disabled, drawn);
      assert r.submitted == st.submitted + [Trim(st.value)];
      assert r.submitted[|st.submitted|] == Trim(st.value);
    }
  }

  /** Enter and the form's submit event do the same thing: their own guards
      repeat the one inside `vanishAndSubmit`. Any other key does nothing. */
  lemma EnterAndSubmitAgree(st: InputState, key: JStr, disabled: bool, drawn: seq<Particle>)
    ensures HandleKeyDown(st, ENTER, disabled, drawn) == VanishAndSubmit(st, disabled, drawn)
    ensures HandleSubmit(st, disabled, drawn) == VanishAndSubmit(st, disabled, drawn)
    ensures key != ENTER ==> HandleKeyDown(st, key, disabled, drawn) == st
  {
  }

  /** A second submission while the first is animating is ignored: the
      query is passed on once, and neither Enter nor the submit event
      changes anything until the animation ends. */
  lemma SubmitIsIgnoredWhileAnimating(st: InputState, key: JStr, disabled: bool, first: seq<Particle>, second: seq<Particle>)
    ensures var once := VanishAndSubmit(st, disabled, first);
            VanishAndSubmit(once, disabled, second) == once
    ensures |VanishAndSubmit(st, disabled, first).submitted| <= |st.submitted| + 1
    ensures st.animating ==> HandleKeyDown(st, key, disabled, second) == st && HandleSubmit(st, disabled, second) == st
  {
  }

  /** The sweep starts at the rightmost particle: none lies right of it. */
  lemma SweepStartsAtRightEdge(st: InputState, disabled: bool, drawn: seq<Particle>)
    requires CanSubmit(st, disabled)
    ensures var r := VanishAndSubmit(st, disabled, drawn);
            forall i :: 0 <= i < |r.particles| ==> r.particles[i].x <= r.pos
  {
  }

  /** A moving particle steps one unit in each direction and shrinks by at
      most 0.05, so it stays right of the next sweep line. */
  lemma MovedParticle(p: Particle, j: Jitter, pos: int)
    requires 0.0 <= j.shrink < 1.0 && p.x >= pos
    ensures var q := Moved(p, j);
            && (q.x == p.x + 1 || q.x == p.x - 1) && (q.y == p.y + 1 || q.y == p.y - 1)
            && p.r - 0.05 < q.r <= p.r
            && q.x >= pos - SWEEP
  {
  }

  /** When the last particle is gone the input is enabled again (unless the
      parent disables it), shows the placeholder, and hides the canvas. */
  lemma VanishEndsWithPlaceholder(st: InputState, jitter: seq<Jitter>, placeholders: seq<JStr>, disabled: bool, isLoading: bool)
    requires |jitter| == |st.particles|
    requires |Survivors(st.particles, jitter, st.pos)| == 0
    ensures var v := Render(AnimationFrame(st, jitter), placeholders, disabled, isLoading);
            && (v.inputDisabled <==> disabled || isLoading)
            && v.placeholderShown
            && !v.canvasVisible
  {
  }

  /** While frames run, the submitted queries and the value stay as they
      were and the animation stays on; once a frame leaves no particle, the
      animation is off and the value cleared. After at least one frame the
      animation is on exactly while particles remain. */
  lemma {:induction false} AnimationInvariant(st: InputState, random: (int, int) -> Jitter, n: nat)
    requires st.animating
    ensures var r := Animate(st, random, n);
            && r.submitted == st.submitted
            && (r.animating ==> r.value == st.value)
            && (!r.animating ==> r.value == [] && r.particles == [])
            && (n > 0 ==> (r.animating <==> |r.particles| > 0))
    decreases n
  {
    if n > 0 {
      var next := AnimationFrame(st, FrameJitter(st, random, n));
      if |next.particles| > 0 {
        AnimationInvariant(next, random, n - 1);
      }
    }
  }

  /** From a submission through any number of frames: while particles
      remain, the input stays disabled with the canvas shown and the typed
      value (not the placeholder) in place, and no further query is passed
      on; once the last particle is gone, the input is enabled again unless
      the parent disables it or a request is loading, the placeholder shows
      and the canvas is hidden. */
  lemma InputLockedWhileVanishing(st: InputState, disabled: bool, drawn: seq<Particle>,
                                  random: (int, int) -> Jitter, n: nat,
                                  placeholders: seq<JStr>, isLoading: bool)
    requires CanSubmit(st, disabled)
    ensures var r := Animate(VanishAndSubmit(st, disabled, drawn), random, n);
            var v := Render(r, placeholders, disabled, isLoading);
            && r.submitted == st.submitted + [Trim(st.value)]
            && (n == 0 || |r.particles| > 0 ==>
                  v.inputDisabled && v.canvasVisible && !v.placeholderShown && r.value == st.value)
            && (n > 0 && |r.particles| == 0 ==>
                  (v.inputDisabled <==> disabled || isLoading) && v.placeholderShown && !v.canvasVisible)
  {
    var started := VanishAndSubmit(st, disabled, drawn);
    AnimationInvariant(started, random, n);
    assert |Trim(st.value)| <= |st.value|;
  }
}
