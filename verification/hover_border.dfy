/** The animated border (components/HoverBorderGradient.tsx): a radial
    gradient that moves round the four sides of the box once per interval
    tick while the pointer is away, and animates to a highlight while it
    hovers. The interval itself and the motion tween are not modelled; a
    tick is one interval callback. */
module HoverBorder {
  import opened Strings

  datatype Direction = Top | Left | Bottom | Right

  /** The order of `directions`: `["TOP", "LEFT", "BOTTOM", "RIGHT"]`. */
  const DIRECTIONS: seq<Direction> := [Top, Left, Bottom, Right]

  /** `directions.indexOf(d)`. */
  function Index(d: Direction): (i: nat)
    ensures i < |DIRECTIONS| && DIRECTIONS[i] == d
  {
    match d
    case Top => 0
    case Left => 1
    case Bottom => 2
    case Right => 3
  }

  /** `rotateDirection`: one step back along `directions` when clockwise,
      one step forward otherwise, wrapping round. `n` is
      `directions.length`, the four of `DIRECTIONS`. The index is never
      negative, so the remainder agrees with JavaScript's. */
  function Rotate(d: Direction, clockwise: bool): Direction {
    var n := 4;
    assert n == |DIRECTIONS|;
    var next := if clockwise then (Index(d) - 1 + n) % n else (Index(d) + 1) % n;
    DIRECTIONS[next]
  }

  /** The component's two pieces of state. */
  datatype Border = Border(hovered: bool, direction: Direction)

  const INITIAL: Border := Border(false, Top)

  /** One interval callback: the interval exists only while not hovered. */
  function Tick(b: Border, clockwise: bool): (r: Border)
    ensures r.hovered == b.hovered
    ensures b.hovered ==> r == b
    ensures !b.hovered ==> r.direction != b.direction
  {
    if b.hovered then b else b.(direction := Rotate(b.direction, clockwise))
  }

  function Ticks(b: Border, clockwise: bool, n: nat): Border
    decreases n
  {
    if n == 0 then b else Tick(Ticks(b, clockwise, n - 1), clockwise)
  }

  function MouseEnter(b: Border): Border { b.(hovered := true) }

  function MouseLeave(b: Border): Border { b.(hovered := false) }

  const GRADIENT_TOP: JStr := Lit("radial-gradient(20.7% 50% at 50% 0%, hsl(0, 0%, 100%) 0%, rgba(255, 255, 255, 0) 100%)")
  const GRADIENT_LEFT: JStr := Lit("radial-gradient(16.6% 43.1% at 0% 50%, hsl(0, 0%, 100%) 0%, rgba(255, 255, 255, 0) 100%)")
  const GRADIENT_BOTTOM: JStr := Lit("radial-gradient(20.7% 50% at 50% 100%, hsl(0, 0%, 100%) 0%, rgba(255, 255, 255, 0) 100%)")
  const GRADIENT_RIGHT: JStr := Lit("radial-gradient(16.2% 41.199999999999996% at 100% 50%, hsl(0, 0%, 100%) 0%, rgba(255, 255, 255, 0) 100%)")
  const HIGHLIGHT: JStr := Lit("radial-gradient(75% 181.15942028985506% at 50% 50%, #3275F8 0%, rgba(255, 255, 255, 0) 100%)")

  /** `movingMap`. */
  function MovingMap(d: Direction): JStr {
    match d
    case Top => GRADIENT_TOP
    case Left => GRADIENT_LEFT
    case Bottom => GRADIENT_BOTTOM
    case Right => GRADIENT_RIGHT
  }

  /** The keyframes of the `animate` background. */
  function Keyframes(b: Border): (frames: seq<JStr>)
    ensures |frames| >= 1 && frames[0] == MovingMap(b.direction)
    ensures b.hovered <==> |frames| == 2
    ensures b.hovered ==> frames[1] == HIGHLIGHT
  {
    if b.hovered then [MovingMap(b.direction), HIGHLIGHT] else [MovingMap(b.direction)]
  }

  // ---------------------------------------------------------------------
  // Properties

  /** Clockwise the gradient goes top, right, bottom, left; the other way
      it goes top, left, bottom, right. */
  lemma ClockwiseOrder()
    ensures Rotate(Top, true) == Right && Rotate(Right, true) == Bottom
    ensures Rotate(Bottom, true) == Left && Rotate(Left, true) == Top
    ensures Rotate(Top, false) == Left && Rotate(Left, false) == Bottom
    ensures Rotate(Bottom, false) == Right && Rotate(Right, false) == Top
  {
  }

  /** The two senses undo each other, so each rotation is a bijection of
      the four sides. */
  lemma RotationsAreInverse(d: Direction, e: Direction, clockwise: bool)
    ensures Rotate(Rotate(d, clockwise), !clockwise) == d
    ensures Rotate(d, clockwise) == Rotate(e, clockwise) ==> d == e
  {
    ClockwiseOrder();
    if Rotate(d, clockwise) == Rotate(e, clockwise) {
      assert Rotate(Rotate(e, clockwise), !clockwise) == e;
    }
  }

  /** Any four consecutive un-hovered ticks bring the gradient back where it
      started. */
  lemma {:induction false} FourTicksReturn(b: Border, clockwise: bool, n: nat)
    ensures Ticks(b, clockwise, 4 * n) == b
    decreases n
  {
    if n > 0 {
      ClockwiseOrder();
      var four := Ticks(b, clockwise, 4);
      assert four == b;
      TicksAdd(b, clockwise, 4, 4 * (n - 1));
      FourTicksReturn(b, clockwise, n - 1);
    }
  }

  /** Ticking `m` then `k` times is ticking `m + k` times. */
  lemma {:induction false} TicksAdd(b: Border, clockwise: bool, m: nat, k: nat)
    ensures Ticks(Ticks(b, clockwise, m), clockwise, k) == Ticks(b, clockwise, m + k)
    decreases k
  {
    if k > 0 {
      TicksAdd(b, clockwise, m, k - 1);
    }
  }

  /** While hovered the gradient stays on its side however many ticks
      pass; entering and leaving leave the side as it was, and only the
      hovered state adds the highlight keyframe. */
  lemma {:induction false} HoverFreezes(b: Border, clockwise: bool, n: nat)
    ensures Ticks(MouseEnter(b), clockwise, n) == MouseEnter(b)
    ensures MouseLeave(MouseEnter(b)).direction == b.direction
    ensures Keyframes(MouseEnter(b))[1] == HIGHLIGHT && |Keyframes(MouseLeave(b))| == 1
    decreases n
  {
    if n > 0 {
      HoverFreezes(b, clockwise, n - 1);
    }
  }

  /** The sides in the order the gradient visits them. */
  function Cycle(clockwise: bool): (c: seq<Direction>)
    ensures |c| == 4 && c[0] == Top
  {
    if clockwise then [Top, Right, Bottom, Left] else DIRECTIONS
  }

  /** From the initial state the `k`-th tick shows the side `k` steps
      along the cycle (taken modulo four). */
  lemma {:induction false} TicksFollowCycle(clockwise: bool, k: nat)
    ensures Ticks(INITIAL, clockwise, k).direction == Cycle(clockwise)[k % 4]
    ensures !Ticks(INITIAL, clockwise, k).hovered
    decreases k
  {
    if k > 0 {
      TicksFollowCycle(clockwise, k - 1);
      var prev := Ticks(INITIAL, clockwise, k - 1);
      ModStep(k);
      TickAlongCycle(prev, clockwise, (k - 1) % 4);
    }
  }

  /** Each un-hovered tick moves one place along the cycle. */
  lemma TickAlongCycle(b: Border, clockwise: bool, j: nat)
    requires j < 4 && !b.hovered && b.direction == Cycle(clockwise)[j]
    ensures Tick(b, clockwise) == Border(false, Cycle(clockwise)[(j + 1) % 4])
  {
    ClockwiseOrder();
  }

  lemma ModStep(k: nat)
    requires k > 0
    ensures k % 4 == ((k - 1) % 4 + 1) % 4
  {
  }
}
