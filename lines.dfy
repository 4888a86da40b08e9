/** Line._calc: the all-octant integer line walk with an accumulated error term. */
module Lines {
  import opened Base
  import opened Colors
  import opened Pixels

  /** The step direction the source picks: 1 if 0 < d, otherwise -1. */
  function Step(d: int): int { if 0 < d then 1 else -1 }

  /** n steps in the direction Step(d), i.e. Step(d) * n. */
  function Stepped(d: int, n: int): int { if 0 < d then n else -n }

  /** v lies on the closed segment between 0 and e. */
  predicate Within(v: int, e: int) { Min(0, e) <= v <= Max(0, e) }

  /** Going from p to q moves along each axis either not at all or by one step towards (x1, y1)'s side. */
  predicate Toward(p: Pixel, q: Pixel, x1: int, y1: int) {
    (q.x == p.x || q.x == p.x + Step(x1)) && (q.y == p.y || q.y == p.y + Step(y1))
  }

  /** q is one of the eight neighbours of p. */
  predicate Adjacent(p: Pixel, q: Pixel) {
    Abs(q.x - p.x) <= 1 && Abs(q.y - p.y) <= 1 && Pos(p) != Pos(q)
  }

  /** The loop's arithmetic state: a steps along x, b along y, and the error term err. */
  ghost predicate WalkState(dx: int, ady: int, a: int, b: int, err: int) {
    && 0 <= a <= dx && 0 <= b <= ady
    && err == dx * (b + 1) - ady * (a + 1)
    && (dx >= ady ==> 2 * err >= -ady)
    && (ady >= dx ==> 2 * err <= dx)
  }

  /** Once x has covered its distance and y has not, the error term forbids another x-step. */
  lemma NoXStepPastEnd(dx: int, ady: int, b: int, err: int)
    requires 0 <= dx && 0 <= b < ady && err == dx * (b + 1) - ady * (dx + 1)
    ensures 2 * err < -ady
  {
    MulMono(dx, b + 1, ady);
    MulSucc(ady, dx);
    assert dx * ady == ady * dx;
  }

  /** Once y has covered its distance and x has not, the error term forbids another y-step. */
  lemma NoYStepPastEnd(dx: int, ady: int, a: int, err: int)
    requires 0 <= ady && 0 <= a < dx && err == dx * (ady + 1) - ady * (a + 1)
    ensures 2 * err > dx
  {
    MulMono(ady, a + 1, dx);
    MulSucc(dx, ady);
    assert dx * ady == ady * dx;
  }

  /**
    * One step of the walk from a point short of the end: it moves along at least one axis,
    * always along the major one, never past the end, and keeps the state.
    */
  lemma WalkStep(dx: int, ady: int, a: int, b: int, err: int)
    requires WalkState(dx, ady, a, b, err) && !(a == dx && b == ady)
    ensures var ex, ey := 2 * err >= -ady, 2 * err <= dx;
      && (ex || ey)
      && (dx >= ady ==> ex)
      && (ady >= dx ==> ey)
      && WalkState(dx, ady, if ex then a + 1 else a, if ey then b + 1 else b,
                   err + (if ex then -ady else 0) + (if ey then dx else 0))
  {
    var ex, ey := 2 * err >= -ady, 2 * err <= dx;
    if a == dx {
      NoXStepPastEnd(dx, ady, b, err);
    }
    if b == ady {
      NoYStepPastEnd(dx, ady, a, err);
    }
    MulSucc(dx, b + 1);
    MulSucc(ady, a + 1);
  }

  /** The move from pixel i - 1 to pixel i is to a neighbour, towards the end point. */
  predicate StepAt(ps: seq<Pixel>, i: int, x1: int, y1: int)
    requires 0 < i < |ps|
  {
    Adjacent(ps[i - 1], ps[i]) && Toward(ps[i - 1], ps[i], x1, y1)
  }

  /** What holds of every prefix of the line's pixels. */
  ghost predicate Drawn(ps: seq<Pixel>, x1: int, y1: int, color: Option<Rgb>, brightness: int) {
    && (|ps| > 0 ==> Pos(ps[0]) == (0, 0))
    && (forall i :: 0 < i < |ps| ==> StepAt(ps, i, x1, y1))
    && (forall i :: 0 <= i < |ps| ==> Within(ps[i].x, x1) && Within(ps[i].y, y1))
    && (Abs(x1) >= Abs(y1) ==> forall i :: 0 <= i < |ps| ==> ps[i].x == Stepped(x1, i))
    && (Abs(y1) >= Abs(x1) ==> forall i :: 0 <= i < |ps| ==> ps[i].y == Stepped(y1, i))
    && PaintedWith(ps, color, brightness)
  }

  lemma DrawnExtend(ps: seq<Pixel>, p: Pixel, x1: int, y1: int, color: Option<Rgb>, brightness: int)
    requires Drawn(ps, x1, y1, color, brightness)
    requires |ps| == 0 ==> Pos(p) == (0, 0)
    requires |ps| > 0 ==> Adjacent(ps[|ps| - 1], p) && Toward(ps[|ps| - 1], p, x1, y1)
    requires Within(p.x, x1) && Within(p.y, y1)
    requires Abs(x1) >= Abs(y1) ==> p.x == Stepped(x1, |ps|)
    requires Abs(y1) >= Abs(x1) ==> p.y == Stepped(y1, |ps|)
    requires p.color == color && p.brightness == brightness
    ensures Drawn(ps + [p], x1, y1, color, brightness)
  {
    var qs := ps + [p];
    forall i | 0 < i < |qs| ensures StepAt(qs, i, x1, y1) {
      if i < |ps| {
        assert qs[i - 1] == ps[i - 1] && qs[i] == ps[i];
        assert StepAt(ps, i, x1, y1);
      }
    }
  }

  /** The walk's variables: (x, y) is a steps along x and b steps along y from the origin. */
  ghost predicate Walk(x1: int, y1: int, x: int, y: int, a: int, b: int, err: int) {
    && WalkState(Abs(x1), Abs(y1), a, b, err)
    && x == Stepped(x1, a) && y == Stepped(y1, b)
  }

  /** The pixels drawn before reaching (x, y): a line so far, short of the end, leading to (x, y). */
  ghost predicate Trail(ps: seq<Pixel>, x1: int, y1: int, color: Option<Rgb>, brightness: int,
                        x: int, y: int, a: int, b: int) {
    var p := Pixel(x, y, color, brightness);
    && (Abs(x1) >= Abs(y1) ==> a == |ps|)
    && (Abs(y1) >= Abs(x1) ==> b == |ps|)
    && (|ps| == 0 ==> x == 0 && y == 0)
    && (|ps| > 0 ==> Adjacent(ps[|ps| - 1], p) && Toward(ps[|ps| - 1], p, x1, y1))
    && (forall i :: 0 <= i < |ps| ==> Pos(ps[i]) != (x1, y1))
    && Drawn(ps, x1, y1, color, brightness)
  }

  /** The state of the loop at its head: ps holds the pixels drawn so far, (x, y) the next one. */
  ghost predicate LoopState(ps: seq<Pixel>, x1: int, y1: int, color: Option<Rgb>, brightness: int,
                            x: int, y: int, a: int, b: int, err: int) {
    Walk(x1, y1, x, y, a, b, err) && Trail(ps, x1, y1, color, brightness, x, y, a, b)
  }

  lemma SteppedWithin(d: int, n: int)
    requires 0 <= n <= Abs(d)
    ensures Within(Stepped(d, n), d)
  {
  }

  /** Drawing p and moving on to p' keeps the trail, given that p' is one step on from p. */
  lemma TrailStep(ps: seq<Pixel>, x1: int, y1: int, color: Option<Rgb>, brightness: int,
                  x: int, y: int, a: int, b: int, x': int, y': int, a': int, b': int)
    requires Trail(ps, x1, y1, color, brightness, x, y, a, b) && (x, y) != (x1, y1)
    requires 0 <= a <= Abs(x1) && 0 <= b <= Abs(y1) && x == Stepped(x1, a) && y == Stepped(y1, b)
    requires x' == x || x' == x + Step(x1)
    requires y' == y || y' == y + Step(y1)
    requires (x', y') != (x, y)
    requires Abs(x1) >= Abs(y1) ==> a' == a + 1
    requires Abs(y1) >= Abs(x1) ==> b' == b + 1
    ensures Trail(ps + [Pixel(x, y, color, brightness)], x1, y1, color, brightness, x', y', a', b')
  {
    var p := Pixel(x, y, color, brightness);
    SteppedWithin(x1, a);
    SteppedWithin(y1, b);
    DrawnExtend(ps, p, x1, y1, color, brightness);
    var qs := ps + [p];
    assert qs[|qs| - 1] == p;
    assert forall i :: 0 <= i < |qs| ==> Pos(qs[i]) != (x1, y1);
  }

  /**
    * One turn of the loop short of the end keeps the loop state: (x', y') is where the walk
    * moves from (x, y), the primed counters and error term are the updated ones.
    */
  lemma LoopStep(ps: seq<Pixel>, x1: int, y1: int, color: Option<Rgb>, brightness: int,
                 x: int, y: int, a: int, b: int, err: int,
                 x': int, y': int, a': int, b': int, err': int)
    requires LoopState(ps, x1, y1, color, brightness, x, y, a, b, err) && (x, y) != (x1, y1)
    requires var ex, ey := 2 * err >= -Abs(y1), 2 * err <= Abs(x1);
      && x' == (if ex then x + Step(x1) else x) && y' == (if ey then y + Step(y1) else y)
      && a' == (if ex then a + 1 else a) && b' == (if ey then b + 1 else b)
      && err' == err + (if ex then -Abs(y1) else 0) + (if ey then Abs(x1) else 0)
    ensures a + b < a' + b'
    ensures LoopState(ps + [Pixel(x, y, color, brightness)], x1, y1, color, brightness, x', y', a', b', err')
  {
    WalkStep(Abs(x1), Abs(y1), a, b, err);
    assert Walk(x1, y1, x', y', a', b', err');
    TrailStep(ps, x1, y1, color, brightness, x, y, a, b, x', y', a', b');
  }

  /** At the end point the pixels drawn, with the end point added, form the whole line. */
  lemma LoopEnd(ps: seq<Pixel>, x1: int, y1: int, color: Option<Rgb>, brightness: int,
                x: int, y: int, a: int, b: int, err: int, qs: seq<Pixel>)
    requires LoopState(ps, x1, y1, color, brightness, x, y, a, b, err) && (x, y) == (x1, y1)
    requires qs == ps + [Pixel(x, y, color, brightness)]
    ensures |qs| == Max(Abs(x1), Abs(y1)) + 1
    ensures Pos(qs[0]) == (0, 0) && Pos(qs[|qs| - 1]) == (x1, y1)
    ensures forall i :: 0 <= i < |qs| - 1 ==> Pos(qs[i]) != (x1, y1)
    ensures forall i :: 0 < i < |qs| ==> StepAt(qs, i, x1, y1)
    ensures forall i :: 0 <= i < |qs| ==> Within(qs[i].x, x1) && Within(qs[i].y, y1)
    ensures Abs(x1) >= Abs(y1) ==> forall i :: 0 <= i < |qs| ==> qs[i].x == Stepped(x1, i)
    ensures Abs(y1) >= Abs(x1) ==> forall i :: 0 <= i < |qs| ==> qs[i].y == Stepped(y1, i)
    ensures PaintedWith(qs, color, brightness)
    ensures y1 == 0 && x1 >= 0 ==> Positions(qs) == seq(x1 + 1, i => (i, 0))
    ensures x1 == 0 && y1 >= 0 ==> Positions(qs) == seq(y1 + 1, i => (0, i))
  {
    var p := Pixel(x, y, color, brightness);
    SteppedWithin(x1, a);
    SteppedWithin(y1, b);
    DrawnExtend(ps, p, x1, y1, color, brightness);
    assert forall i :: 0 <= i < |qs| - 1 ==> qs[i] == ps[i];
    if y1 == 0 && x1 >= 0 {
      HorizontalPositions(qs, x1);
    }
    if x1 == 0 && y1 >= 0 {
      VerticalPositions(qs, y1);
    }
  }

  /** A line of the walk along the positive x axis covers exactly (0, 0) .. (x1, 0). */
  lemma HorizontalPositions(ps: seq<Pixel>, x1: int)
    requires 0 <= x1 && |ps| == x1 + 1
    requires forall i :: 0 <= i < |ps| ==> ps[i].x == Stepped(x1, i) && Within(ps[i].y, 0)
    ensures Positions(ps) == seq(x1 + 1, i => (i, 0))
  {
  }

  /** A line of the walk along the positive y axis covers exactly (0, 0) .. (0, y1). */
  lemma VerticalPositions(ps: seq<Pixel>, y1: int)
    requires 0 <= y1 && |ps| == y1 + 1
    requires forall i :: 0 <= i < |ps| ==> ps[i].y == Stepped(y1, i) && Within(ps[i].x, 0)
    ensures Positions(ps) == seq(y1 + 1, i => (0, i))
  {
  }

  /**
    * The pixels of a line from (0,0) to (x1,y1): both ends are drawn, every step moves to one
    * of the eight neighbours without going back on either axis, the major axis advances on
    * every step, so there are max(|x1|,|y1|) + 1 pixels.
    */
  method LinePixels(x1: int, y1: int, color: Option<Rgb>, brightness: int) returns (ps: seq<Pixel>)
    ensures |ps| == Max(Abs(x1), Abs(y1)) + 1
    ensures Pos(ps[0]) == (0, 0) && Pos(ps[|ps| - 1]) == (x1, y1)
    ensures forall i :: 0 <= i < |ps| - 1 ==> Pos(ps[i]) != (x1, y1)
    ensures forall i :: 0 < i < |ps| ==> StepAt(ps, i, x1, y1)
    ensures forall i :: 0 <= i < |ps| ==> Within(ps[i].x, x1) && Within(ps[i].y, y1)
    ensures Abs(x1) >= Abs(y1) ==> forall i :: 0 <= i < |ps| ==> ps[i].x == Stepped(x1, i)
    ensures Abs(y1) >= Abs(x1) ==> forall i :: 0 <= i < |ps| ==> ps[i].y == Stepped(y1, i)
    ensures y1 == 0 && x1 >= 0 ==> Positions(ps) == seq(x1 + 1, i => (i, 0))
    ensures x1 == 0 && y1 >= 0 ==> Positions(ps) == seq(y1 + 1, i => (0, i))
    ensures PaintedWith(ps, color, brightness)
  {
    var dx: int := Abs(x1);
    var dy := -Abs(y1);
    var sx := Step(x1);
    var sy := Step(y1);
    var err := dx + dy;
    var x, y := 0, 0;
    ghost var a, b := 0, 0;  // steps taken along x and along y
    ps := [];
    while true
      invariant LoopState(ps, x1, y1, color, brightness, x, y, a, b, err)
      decreases (dx - a) + (-dy - b)
    {
      ghost var ps0, x0, y0, a0, b0, err0 := ps, x, y, a, b, err;
      ps := ps + [Pixel(x, y, color, brightness)];
      if x == x1 && y == y1 {
        LoopEnd(ps0, x1, y1, color, brightness, x, y, a, b, err, ps);
        break;
      }
      var e2 := 2 * err;
      if e2 >= dy {
        err := err + dy;
        x := x + sx;
        a := a + 1;
      }
      if e2 <= dx {
        err := err + dx;
        y := y + sy;
        b := b + 1;
      }
      LoopStep(ps0, x1, y1, color, brightness, x0, y0, a0, b0, err0, x, y, a, b, err);
    }
  }
}
