/** Circle._calc: the midpoint ring walk and the optional column fill inside it. */
module Circles {
  import opened Base
  import opened Colors
  import opened Pixels

  /** A quarter turn about the origin: (a, b) goes to (-b, a). */
  function Rot(p: (int, int)): (int, int) { (-p.1, p.0) }

  /** Pixels 4k .. 4k+3 are one orbit of the quarter turn, in turning order. */
  predicate QuadAt(ps: seq<Pixel>, k: int)
    requires 0 <= k && 4 * k + 3 < |ps|
  {
    && Pos(ps[4 * k + 1]) == Rot(Pos(ps[4 * k]))
    && Pos(ps[4 * k + 2]) == Rot(Pos(ps[4 * k + 1]))
    && Pos(ps[4 * k + 3]) == Rot(Pos(ps[4 * k + 2]))
    && Pos(ps[4 * k]) == Rot(Pos(ps[4 * k + 3]))
  }

  /** Every quadruple of ps is an orbit of the quarter turn. */
  predicate Quads(ps: seq<Pixel>) {
    && |ps| % 4 == 0
    && forall k :: 0 <= k < |ps| / 4 ==> QuadAt(ps, k)
  }

  /** A sequence of quarter-turn orbits is closed under the quarter turn. */
  lemma QuadsRotationClosed(ps: seq<Pixel>)
    requires Quads(ps)
    ensures forall i :: 0 <= i < |ps| ==> Rot(Pos(ps[i])) in Positions(ps)
  {
    forall i | 0 <= i < |ps| ensures Rot(Pos(ps[i])) in Positions(ps) {
      var k := i / 4;
      assert 4 * k + 3 < |ps|;
      assert QuadAt(ps, k);
      var j := if i % 4 == 3 then i - 3 else i + 1;
      assert Positions(ps)[j] == Rot(Pos(ps[i]));
    }
  }

  /** The pixel lies in the square [-r, r] x [-r, r]. */
  predicate InSquare(p: Pixel, r: int) { -r <= p.x <= r && -r <= p.y <= r }

  /**
    * The pixel (a, b) is off the circle of radius r by less than |a| + |b|:
    * |a^2 + b^2 - r^2| < |a| + |b|, so within 2r of it inside the square.
    */
  predicate NearCircle(p: Pixel, r: int) {
    var d := p.x * p.x + p.y * p.y - r * r;
    -(Abs(p.x) + Abs(p.y)) < d < Abs(p.x) + Abs(p.y)
  }

  /** Some pixel of ps stands in column c on or above the x axis. */
  ghost predicate ColumnHit(ps: seq<Pixel>, c: int) {
    exists i :: 0 <= i < |ps| && ps[i].x == c && ps[i].y >= 0
  }

  /** What the ring walk produces for a radius r >= 1. */
  ghost predicate Ring(ring: seq<Pixel>, r: int, color: Option<Rgb>, brightness: int) {
    && |ring| >= 4
    && Quads(ring)
    && Positions(ring[..4]) == [(r, 0), (0, r), (-r, 0), (0, -r)]
    && (forall i :: 0 <= i < |ring| ==> InSquare(ring[i], r) && NearCircle(ring[i], r))
    && (forall c :: 0 <= c <= r ==> ColumnHit(ring, c))
    && PaintedWith(ring, color, brightness)
  }

  lemma SquareSucc(k: int)
    ensures (k + 1) * (k + 1) == k * k + 2 * k + 1
  {
  }

  /** At or above the radius the error term exceeds y, so no step along y is taken there. */
  lemma NoYStepAtRadius(x: int, y: int, r: int)
    requires r >= 1
    ensures y >= r ==> (x + 1) * (x + 1) + (y + 1) * (y + 1) - r * r > y
  {
    if y >= r {
      MulMono(r, r, y);
      MulMono(y, r, y);
      assert r * y == y * r;
      SquareSucc(y);
      assert (x + 1) * (x + 1) >= 0;
    }
  }

  /** The ring loop's state at its head. */
  ghost predicate RingState(ps: seq<Pixel>, r: int, color: Option<Rgb>, brightness: int,
                            x: int, y: int, err: int) {
    && -r <= x < 0 && 0 <= y <= r
    && err == (x + 1) * (x + 1) + (y + 1) * (y + 1) - r * r
    && x - y < x * x + y * y - r * r < y - x
    && Quads(ps)
    && (|ps| == 0 ==> x == -r && y == 0)
    && (|ps| > 0 ==> Positions(ps[..4]) == [(r, 0), (0, r), (-r, 0), (0, -r)])
    && (forall i :: 0 <= i < |ps| ==> InSquare(ps[i], r) && NearCircle(ps[i], r))
    && (forall c :: -x < c <= r ==> ColumnHit(ps, c))
    && (|ps| > 0 ==> ColumnHit(ps, 0))
    && PaintedWith(ps, color, brightness)
  }

  /** The four pixels one turn of the ring loop pushes for the walk point (x, y). */
  function Orbit(x: int, y: int, color: Option<Rgb>, brightness: int): seq<Pixel> {
    [Pixel(-x, y, color, brightness), Pixel(-y, -x, color, brightness),
     Pixel(x, -y, color, brightness), Pixel(y, x, color, brightness)]
  }

  /** The four turns of a walk point near the circle are near it too. */
  lemma OrbitNearCircle(x: int, y: int, r: int, color: Option<Rgb>, brightness: int)
    requires x < 0 <= y && x - y < x * x + y * y - r * r < y - x
    ensures forall p :: p in Orbit(x, y, color, brightness) ==> NearCircle(p, r)
  {
    assert (-x) * (-x) == x * x && (-y) * (-y) == y * y;
  }

  /** Pushing the orbit of the current point keeps the pixel part of the state. */
  lemma PushOrbit(ps: seq<Pixel>, r: int, color: Option<Rgb>, brightness: int, x: int, y: int, err: int)
    requires RingState(ps, r, color, brightness, x, y, err)
    ensures var qs := ps + Orbit(x, y, color, brightness);
      && Quads(qs)
      && Positions(qs[..4]) == [(r, 0), (0, r), (-r, 0), (0, -r)]
      && (forall i :: 0 <= i < |qs| ==> InSquare(qs[i], r) && NearCircle(qs[i], r))
      && (forall c :: -x <= c <= r ==> ColumnHit(qs, c))
      && ColumnHit(qs, 0)
      && PaintedWith(qs, color, brightness)
  {
    var o := Orbit(x, y, color, brightness);
    var qs := ps + o;
    assert |qs| / 4 == |ps| / 4 + 1;
    forall k | 0 <= k < |qs| / 4 ensures QuadAt(qs, k) {
      if k < |ps| / 4 {
        assert QuadAt(ps, k);
        assert qs[4 * k] == ps[4 * k] && qs[4 * k + 1] == ps[4 * k + 1];
        assert qs[4 * k + 2] == ps[4 * k + 2] && qs[4 * k + 3] == ps[4 * k + 3];
      } else {
        assert 4 * k == |ps|;
        assert qs[4 * k..4 * k + 4] == o;
      }
    }
    OrbitNearCircle(x, y, r, color, brightness);
    if |ps| == 0 {
      assert qs == o;
    } else {
      assert qs[..4] == ps[..4];
    }
    forall c | -x <= c <= r ensures ColumnHit(qs, c) {
      if c == -x {
        assert qs[|ps|] == o[0];
      } else {
        assert ColumnHit(ps, c);
        var i :| 0 <= i < |ps| && ps[i].x == c && ps[i].y >= 0;
        assert qs[i] == ps[i];
      }
    }
    if |ps| == 0 {
      assert qs[1] == o[1];
    } else {
      var i :| 0 <= i < |ps| && ps[i].x == 0 && ps[i].y >= 0;
      assert qs[i] == ps[i];
    }
  }

  /**
    * One turn of the ring loop: the error term tracks (x+1)^2 + (y+1)^2 - r^2, at least one
    * coordinate advances, y never passes r and x never passes 0.
    */
  lemma RingStep(ps: seq<Pixel>, r: int, color: Option<Rgb>, brightness: int,
                 x: int, y: int, err: int, x': int, y': int, err': int)
    requires r >= 1 && RingState(ps, r, color, brightness, x, y, err)
    requires x' == (if err > x then x + 1 else x) && y' == (if err <= y then y + 1 else y)
    requires err' == err + (if err > x then 2 * x' + 1 else 0) + (if err <= y then 2 * y' + 1 else 0)
    ensures (-x') + (r - y') < (-x) + (r - y)
    ensures x' <= 0
    ensures x' < 0 ==> RingState(ps + Orbit(x, y, color, brightness), r, color, brightness, x', y', err')
  {
    PushOrbit(ps, r, color, brightness, x, y, err);
    SquareSucc(x);
    SquareSucc(y);
    SquareSucc(x + 1);
    SquareSucc(y + 1);
    NoYStepAtRadius(x, y, r);
  }

  /**
    * The ring: the orbits of the walk points from (-r, 0) until x reaches 0. Every turn
    * pushes an orbit of the quarter turn, the first is (r,0), (0,r), (-r,0), (0,-r), all
    * pixels lie in the square of side 2r + 1, and every column 0 .. r holds a ring pixel on
    * or above the x axis.
    */
  method RingPixels(r: int, color: Option<Rgb>, brightness: int) returns (ps: seq<Pixel>)
    requires r >= 1
    ensures Ring(ps, r, color, brightness)
  {
    var x := -r;
    var y := 0;
    var err := 2 - 2 * r;
    ps := [];
    while true
      invariant RingState(ps, r, color, brightness, x, y, err)
      decreases (-x) + (r - y)
    {
      ghost var ps0, x0, y0, err0 := ps, x, y, err;
      ps := ps + [Pixel(-x, y, color, brightness)];
      ps := ps + [Pixel(-y, -x, color, brightness)];
      ps := ps + [Pixel(x, -y, color, brightness)];
      ps := ps + [Pixel(y, x, color, brightness)];
      assert ps == ps0 + Orbit(x0, y0, color, brightness);
      var temp := err;
      if temp > x {
        x := x + 1;
        err := err + x * 2 + 1;
      }
      if temp <= y {
        y := y + 1;
        err := err + y * 2 + 1;
      }
      RingStep(ps0, r, color, brightness, x0, y0, err0, x, y, err);
      if x >= 0 {
        PushOrbit(ps0, r, color, brightness, x0, y0, err0);
        break;
      }
    }
  }

  /** The lowest y >= 0 of a pixel of ps in column c, keeping the first on a tie. */
  function LowestAt(ps: seq<Pixel>, c: int): Option<int>
  {
    if |ps| == 0 then None
    else
      var low := LowestAt(ps[..|ps| - 1], c);
      var p := ps[|ps| - 1];
      if p.x == c && p.y >= 0 && (low.None? || p.y < low.value) then Some(p.y) else low
  }

  /** LowestAt finds a pixel exactly when the column is hit, and finds the lowest one. */
  lemma {:induction false} LowestAtMeaning(ps: seq<Pixel>, c: int)
    ensures LowestAt(ps, c).Some? <==> ColumnHit(ps, c)
    ensures LowestAt(ps, c).Some? ==> LowestAt(ps, c).value >= 0
    ensures LowestAt(ps, c).Some? ==>
      (exists i :: 0 <= i < |ps| && ps[i].x == c && ps[i].y == LowestAt(ps, c).value)
    ensures forall i :: 0 <= i < |ps| && ps[i].x == c && ps[i].y >= 0 ==>
      LowestAt(ps, c).Some? && LowestAt(ps, c).value <= ps[i].y
    decreases |ps|
  {
    if |ps| > 0 {
      var qs := ps[..|ps| - 1];
      LowestAtMeaning(qs, c);
      assert forall i :: 0 <= i < |qs| ==> qs[i] == ps[i];
      if ColumnHit(qs, c) {
        var i :| 0 <= i < |qs| && qs[i].x == c && qs[i].y >= 0;
        assert ps[i] == qs[i];
      }
      if LowestAt(qs, c).Some? {
        var i :| 0 <= i < |qs| && qs[i].x == c && qs[i].y == LowestAt(qs, c).value;
        assert ps[i] == qs[i];
      }
    }
  }

  /**
    * The min_y table: for each column 0 .. r, the lowest y >= 0 of a pixel of ps in that
    * column, or None. Pixels left of the axis or below it are skipped.
    */
  method LowestTable(ps: seq<Pixel>, r: int) returns (low: seq<Option<int>>)
    requires r >= 0 && forall i :: 0 <= i < |ps| ==> ps[i].x <= r
    ensures |low| == r + 1
    ensures forall c :: 0 <= c <= r ==> low[c] == LowestAt(ps, c)
  {
    low := seq(r + 1, _ => None);
    var k := 0;
    while k < |ps|
      invariant 0 <= k <= |ps| && |low| == r + 1
      invariant forall c :: 0 <= c <= r ==> low[c] == LowestAt(ps[..k], c)
    {
      var p := ps[k];
      assert ps[..k + 1][..k] == ps[..k];
      if p.x >= 0 && p.y >= 0 && (low[p.x].None? || p.y < low[p.x].value) {
        low := low[p.x := Some(p.y)];
      }
      k := k + 1;
    }
    assert ps[..k] == ps;
  }

  /** On the y axis only the radius itself is near the circle. */
  lemma SquareBand(v: int, r: int)
    requires 0 <= v && 1 <= r && -v < v * v - r * r < v
    ensures v == r
  {
    if v < r {
      BelowBand(v, r);
    } else if v > r {
      AboveBand(v, r);
    }
  }

  lemma BelowBand(v: int, r: int)
    requires 0 <= v < r
    ensures v * v - r * r <= -v
  {
    MulMono(v, v, r - 1);
    MulMono(r - 1, v, r - 1);
    SquareSucc(r - 1);
  }

  lemma AboveBand(v: int, r: int)
    requires 0 <= r < v
    ensures v * v - r * r >= v
  {
    MulMono(v, r, v - 1);
    MulMono(r, r + 1, v);
  }

  /**
    * Column 0 of the ring is lowest at the radius, so the fill column 0 always has height r:
    * a circle with a fill colour always emits fill pixels.
    */
  lemma ColumnZeroTop(ring: seq<Pixel>, r: int, color: Option<Rgb>, brightness: int)
    requires r >= 1 && Ring(ring, r, color, brightness)
    ensures LowestAt(ring, 0) == Some(r)
  {
    assert ColumnHit(ring, 0);
    LowestAtMeaning(ring, 0);
    var i :| 0 <= i < |ring| && ring[i].x == 0 && ring[i].y == LowestAt(ring, 0).value;
    assert NearCircle(ring[i], r);
    SquareBand(ring[i].y, r);
  }

  /** The fill of one column pair: for y in 0 .. h-1, the pixels (c,y), (c,-y), (-c,y), (-c,-y). */
  function FillColumn(c: int, h: nat, color: Option<Rgb>, brightness: int): seq<Pixel>
  {
    if h == 0 then []
    else
      var y := h - 1;
      FillColumn(c, y, color, brightness)
      + [Pixel(c, y, color, brightness), Pixel(c, -y, color, brightness),
         Pixel(-c, y, color, brightness), Pixel(-c, -y, color, brightness)]
  }

  /** The fill of the columns 0 .. n-1, column c up to (but not including) height heights[c]. */
  function FillColumns(heights: seq<nat>, n: nat, color: Option<Rgb>, brightness: int): seq<Pixel>
    requires n <= |heights|
  {
    if n == 0 then [] else FillColumns(heights, n - 1, color, brightness) + FillColumn(n - 1, heights[n - 1], color, brightness)
  }

  /** A fill column holds exactly the points (a, b) with |a| == c and |b| < h. */
  lemma FillColumnMembers(c: nat, h: nat, color: Option<Rgb>, brightness: int)
    ensures |FillColumn(c, h, color, brightness)| == 4 * h
    ensures forall i :: 0 <= i < |FillColumn(c, h, color, brightness)| ==>
      var p := FillColumn(c, h, color, brightness)[i];
      Abs(p.x) == c && Abs(p.y) < h && p.color == color && p.brightness == brightness
    ensures forall a, b :: Abs(a) == c && Abs(b) < h ==> (a, b) in Positions(FillColumn(c, h, color, brightness))
  {
    FillColumnShape(c, h, color, brightness);
    FillColumnCovers(c, h, color, brightness);
  }

  lemma {:induction false} FillColumnShape(c: nat, h: nat, color: Option<Rgb>, brightness: int)
    ensures |FillColumn(c, h, color, brightness)| == 4 * h
    ensures forall i :: 0 <= i < |FillColumn(c, h, color, brightness)| ==>
      var p := FillColumn(c, h, color, brightness)[i];
      Abs(p.x) == c && Abs(p.y) < h && p.color == color && p.brightness == brightness
  {
    if h > 0 {
      FillColumnShape(c, h - 1, color, brightness);
      var f := FillColumn(c, h - 1, color, brightness);
      var g := FillColumn(c, h, color, brightness);
      assert forall i :: 0 <= i < |f| ==> g[i] == f[i];
    }
  }

  lemma {:induction false} FillColumnCovers(c: nat, h: nat, color: Option<Rgb>, brightness: int)
    ensures forall a, b :: Abs(a) == c && Abs(b) < h ==> (a, b) in Positions(FillColumn(c, h, color, brightness))
  {
    if h > 0 {
      var x: int, y: int := c, h - 1;
      FillColumnCovers(c, y, color, brightness);
      var f := FillColumn(c, y, color, brightness);
      var e := [Pixel(x, y, color, brightness), Pixel(x, -y, color, brightness),
                Pixel(-x, y, color, brightness), Pixel(-x, -y, color, brightness)];
      PositionsConcat(f, e);
      var pe := Positions(e);
      assert pe == [(x, y), (x, -y), (-x, y), (-x, -y)];
      assert FillColumn(c, h, color, brightness) == f + e;
      forall a, b | Abs(a) == c && Abs(b) < h ensures (a, b) in Positions(f) + pe {
        if Abs(b) < y {
          assert (a, b) in Positions(f);
        } else {
          var j := (if a == x then 0 else 2) + (if b == y then 0 else 1);
          assert pe[j] == (a, b);
        }
      }
    }
  }

  /** Every fill pixel (a, b) has |a| < n and |b| < heights[|a|], and the fill colour. */
  lemma {:induction false} FillColumnsSound(heights: seq<nat>, n: nat, color: Option<Rgb>, brightness: int)
    requires n <= |heights|
    ensures forall i :: 0 <= i < |FillColumns(heights, n, color, brightness)| ==>
      var p := FillColumns(heights, n, color, brightness)[i];
      Abs(p.x) < n && Abs(p.y) < heights[Abs(p.x)] && p.color == color && p.brightness == brightness
  {
    if n > 0 {
      FillColumnsSound(heights, n - 1, color, brightness);
      FillColumnMembers(n - 1, heights[n - 1], color, brightness);
      var f := FillColumns(heights, n - 1, color, brightness);
      var h := FillColumn(n - 1, heights[n - 1], color, brightness);
      var g := FillColumns(heights, n, color, brightness);
      assert g == f + h;
      forall i | 0 <= i < |g|
        ensures Abs(g[i].x) < n && Abs(g[i].y) < heights[Abs(g[i].x)]
        ensures g[i].color == color && g[i].brightness == brightness
      {
        if i < |f| {
          assert g[i] == f[i];
        } else {
          assert g[i] == h[i - |f|];
        }
      }
    }
  }

  /** Every point (a, b) with |a| < n and |b| < heights[|a|] is a fill pixel. */
  lemma {:induction false} FillColumnsComplete(heights: seq<nat>, n: nat, color: Option<Rgb>, brightness: int)
    requires n <= |heights|
    ensures forall a, b :: Abs(a) < n && Abs(b) < heights[Abs(a)] ==>
      (a, b) in Positions(FillColumns(heights, n, color, brightness))
  {
    if n > 0 {
      FillColumnsComplete(heights, n - 1, color, brightness);
      FillColumnMembers(n - 1, heights[n - 1], color, brightness);
      var f := FillColumns(heights, n - 1, color, brightness);
      var h := FillColumn(n - 1, heights[n - 1], color, brightness);
      var g := FillColumns(heights, n, color, brightness);
      PositionsConcat(f, h);
      forall a, b | Abs(a) < n && Abs(b) < heights[Abs(a)] ensures (a, b) in Positions(g) {
        if Abs(a) < n - 1 {
          assert (a, b) in Positions(f);
        } else {
          assert (a, b) in Positions(h);
        }
      }
    }
  }

  /** The heights the fill uses: the table's values for the columns 0 .. n-1. */
  function Heights(low: seq<Option<int>>, n: nat): (hs: seq<nat>)
    requires n <= |low| && forall c :: 0 <= c < n ==> low[c].Some? && low[c].value >= 0
    ensures |hs| == n && forall c :: 0 <= c < n ==> hs[c] == low[c].value
  {
    seq(n, c requires 0 <= c < n => low[c].value as nat)
  }

  /**
    * The fill loops: columns 0 .. n-1, each up to the height the table gives it. Every fill
    * pixel resolves fill_color afresh, so the first one raises when it does not resolve.
    */
  method FillPixels(low: seq<Option<int>>, n: nat, spec: ColorSpec, brightness: int)
    returns (fs: seq<Pixel>, res: Result<()>)
    requires n <= |low| && forall c :: 0 <= c < n ==> low[c].Some? && low[c].value >= 0
    ensures Resolve(spec).Ok? ==> res == Ok(()) && fs == FillColumns(Heights(low, n), n, Resolve(spec).value, brightness)
    ensures Resolve(spec).Err? ==> fs == []
    ensures Resolve(spec).Err? ==> (res.Err? <==> exists c :: 0 <= c < n && low[c].value > 0)
    ensures res.Err? ==> Resolve(spec).Err? && res.error == Resolve(spec).error
  {
    ghost var hs := Heights(low, n);
    ghost var col := FillColour(spec);
    fs := [];
    res := Ok(());
    for cx := 0 to n
      invariant Resolve(spec).Ok? ==> fs == FillColumns(hs, cx, col, brightness)
      invariant Resolve(spec).Err? ==> fs == [] && forall c :: 0 <= c < cx ==> low[c].value == 0
    {
      ghost var done := fs;
      for cy := 0 to low[cx].value
        invariant Resolve(spec).Ok? ==> fs == done + FillColumn(cx, cy, col, brightness)
        invariant Resolve(spec).Err? ==> fs == [] && cy == 0
      {
        var c := Resolve(spec);
        if c.Err? {
          res := Err(c.error);
          return;
        }
        fs := fs + [Pixel(cx, cy, c.value, brightness)];
        fs := fs + [Pixel(cx, -cy, c.value, brightness)];
        fs := fs + [Pixel(-cx, cy, c.value, brightness)];
        fs := fs + [Pixel(-cx, -cy, c.value, brightness)];
      }
    }
  }

  /** The colour a fill colour resolves to (None when it does not resolve: no pixel then takes it). */
  function FillColour(spec: ColorSpec): Option<Rgb> {
    if Resolve(spec).Ok? then Resolve(spec).value else None
  }

  /**
    * fs is the fill of the ring: every column 0 .. r of the ring is hit (min_y is never None),
    * and fs holds exactly the positions (a, b) with |a| < r strictly inside the ring's lowest
    * pixel of column |a|, all in the fill colour.
    */
  ghost predicate FilledInside(fs: seq<Pixel>, ring: seq<Pixel>, r: int, color: Option<Rgb>, brightness: int) {
    && (forall c :: 0 <= c <= r ==> LowestAt(ring, c).Some?)
    && (forall i :: 0 <= i < |fs| ==>
          && Abs(fs[i].x) < r && Abs(fs[i].y) < LowestAt(ring, Abs(fs[i].x)).value
          && fs[i].color == color && fs[i].brightness == brightness)
    && (forall a, b :: Abs(a) < r && Abs(b) < LowestAt(ring, Abs(a)).value ==> (a, b) in Positions(fs))
  }

  /**
    * What a completed Circle._calc leaves in pixels: nothing for r <= 0; otherwise a ring,
    * which is all of it without a fill colour, and is followed by its fill with one.
    */
  ghost predicate CircleImage(ps: seq<Pixel>, r: int, color: Option<Rgb>, brightness: int, fill: Fill) {
    if r <= 0 then ps == []
    else exists k :: (0 <= k <= |ps| && Ring(ps[..k], r, color, brightness)
                      && (fill.NoFill? ==> k == |ps|)
                      && (fill.FillWith? ==> FilledInside(ps[k..], ps[..k], r, FillColour(fill.spec), brightness)))
  }

  /**
    * Circle._calc for an integer radius. It fails exactly when there is a fill colour that does
    * not resolve and r >= 1 (column 0 always gets fill pixels then); the pixels are then the
    * ring, which was appended before the first fill pixel raised.
    */
  method CirclePixels(r: int, color: Option<Rgb>, brightness: int, fill: Fill)
    returns (ps: seq<Pixel>, res: Result<()>)
    ensures res.Err? <==> r >= 1 && fill.FillWith? && Resolve(fill.spec).Err?
    ensures res.Err? ==> res.error == Resolve(fill.spec).error && Ring(ps, r, color, brightness)
    ensures res.Ok? ==> CircleImage(ps, r, color, brightness, fill)
  {
    ps := [];
    res := Ok(());
    if r > 0 {
      var rs := RingPixels(r, color, brightness);
      ps := rs;
      if fill.FillWith? {
        var low := LowestTable(rs, r);
        forall c | 0 <= c <= r ensures LowestAt(rs, c).Some? && LowestAt(rs, c).value >= 0 {
          LowestAtMeaning(rs, c);
        }
        var fs;
        fs, res := FillPixels(low, r, fill.spec, brightness);
        if res.Err? {
          return;
        }
        ColumnZeroTop(rs, r, color, brightness);
        InsideFill(rs, low, fs, r, FillColour(fill.spec), brightness);
        ps := ps + fs;
        assert ps[..|rs|] == rs && ps[|rs|..] == fs;
      } else {
        assert ps[..|rs|] == rs;
      }
    }
  }

  /** The column fill of the ring's own table is the fill of the ring. */
  lemma InsideFill(ring: seq<Pixel>, low: seq<Option<int>>, fs: seq<Pixel>, r: int, color: Option<Rgb>, brightness: int)
    requires r >= 1 && |low| == r + 1 && forall c :: 0 <= c <= r ==> low[c] == LowestAt(ring, c)
    requires forall c :: 0 <= c <= r ==> LowestAt(ring, c).Some? && LowestAt(ring, c).value >= 0
    requires fs == FillColumns(Heights(low, r), r, color, brightness)
    ensures FilledInside(fs, ring, r, color, brightness)
  {
    ghost var hs := Heights(low, r);
    FillColumnsSound(hs, r, color, brightness);
    FillColumnsComplete(hs, r, color, brightness);
  }
}
