/** Rectangle._calc: the stroke of a w x h rectangle and its optional interior fill. */
module Rectangles {
  import opened Base
  import opened Colors
  import opened Pixels

  /** The bottom and top pixels of the columns 0 .. n-1, pushed column by column. */
  function Rim(h: int, n: nat, color: Option<Rgb>, brightness: int): seq<Pixel> {
    if n == 0 then []
    else Rim(h, n - 1, color, brightness) + [Pixel(n - 1, 0, color, brightness), Pixel(n - 1, h - 1, color, brightness)]
  }

  /** The left and right pixels of the rows 1 .. n, pushed row by row. */
  function Sides(w: int, n: nat, color: Option<Rgb>, brightness: int): seq<Pixel> {
    if n == 0 then []
    else Sides(w, n - 1, color, brightness) + [Pixel(0, n, color, brightness), Pixel(w - 1, n, color, brightness)]
  }

  /** The stroke: the rim of range(w) and the sides of range(1, h - 1); a negative range is empty. */
  function Stroke(w: int, h: int, color: Option<Rgb>, brightness: int): seq<Pixel> {
    Rim(h, Max(w, 0), color, brightness) + Sides(w, Max(h - 2, 0), color, brightness)
  }

  /** The pixels (1, y) .. (n, y) of one interior row. */
  function RowRun(y: int, n: nat, color: Option<Rgb>, brightness: int): seq<Pixel> {
    if n == 0 then [] else RowRun(y, n - 1, color, brightness) + [Pixel(n, y, color, brightness)]
  }

  /** The interior rows 1 .. n, each of the columns 1 .. w-2. */
  function Interior(w: int, n: nat, color: Option<Rgb>, brightness: int): seq<Pixel> {
    if n == 0 then [] else Interior(w, n - 1, color, brightness) + RowRun(n, Max(w - 2, 0), color, brightness)
  }

  /** The fill of a w x h rectangle: the interior rows of range(1, h - 1). */
  function InteriorFill(w: int, h: int, color: Option<Rgb>, brightness: int): seq<Pixel> {
    Interior(w, Max(h - 2, 0), color, brightness)
  }

  /** No two pixels of ps stand at the same position. */
  predicate Distinct(ps: seq<Pixel>) {
    forall i, j :: 0 <= i < j < |ps| ==> Pos(ps[i]) != Pos(ps[j])
  }

  /** (x, y) lies on the border of the w x h grid. */
  predicate OnBorder(x: int, y: int, w: int, h: int) {
    0 <= x < w && 0 <= y < h && (x == 0 || x == w - 1 || y == 0 || y == h - 1)
  }

  /** The pixel lies in the w x h grid but not on its border. */
  predicate Inside(p: Pixel, w: int, h: int) {
    0 <= p.x < w && 0 <= p.y < h && !OnBorder(p.x, p.y, w, h)
  }

  lemma {:induction false} RimShape(h: int, n: nat, color: Option<Rgb>, brightness: int)
    ensures |Rim(h, n, color, brightness)| == 2 * n
    ensures PaintedWith(Rim(h, n, color, brightness), color, brightness)
    ensures forall i :: 0 <= i < 2 * n ==> var p := Rim(h, n, color, brightness)[i];
      0 <= p.x < n && (p.y == 0 || p.y == h - 1)
  {
    if n > 0 {
      RimShape(h, n - 1, color, brightness);
      var r := Rim(h, n - 1, color, brightness);
      var s := Rim(h, n, color, brightness);
      assert forall i :: 0 <= i < |r| ==> s[i] == r[i];
    }
  }

  lemma {:induction false} RimCovers(h: int, n: nat, color: Option<Rgb>, brightness: int)
    ensures forall a, b :: 0 <= a < n && (b == 0 || b == h - 1) ==> (a, b) in Positions(Rim(h, n, color, brightness))
  {
    if n > 0 {
      RimCovers(h, n - 1, color, brightness);
      var r := Rim(h, n - 1, color, brightness);
      var e := [Pixel(n - 1, 0, color, brightness), Pixel(n - 1, h - 1, color, brightness)];
      PositionsConcat(r, e);
      forall a, b | 0 <= a < n && (b == 0 || b == h - 1) ensures (a, b) in Positions(r + e) {
        if a < n - 1 {
          assert (a, b) in Positions(r);
        } else {
          assert Positions(e)[0] == (a, 0) && Positions(e)[1] == (a, h - 1);
        }
      }
    }
  }

  lemma {:induction false} RimDistinct(h: int, n: nat, color: Option<Rgb>, brightness: int)
    requires h >= 2
    ensures Distinct(Rim(h, n, color, brightness))
  {
    if n > 0 {
      RimDistinct(h, n - 1, color, brightness);
      RimShape(h, n - 1, color, brightness);
      var r := Rim(h, n - 1, color, brightness);
      var s := Rim(h, n, color, brightness);
      assert forall i :: 0 <= i < |r| ==> s[i] == r[i];
    }
  }

  /** The bottom and top rows: 2n pixels of the stroke colour, (a, 0) and (a, h-1) for each a < n. */
  lemma RimFacts(h: int, n: nat, color: Option<Rgb>, brightness: int)
    ensures |Rim(h, n, color, brightness)| == 2 * n
    ensures PaintedWith(Rim(h, n, color, brightness), color, brightness)
    ensures forall i :: 0 <= i < 2 * n ==> var p := Rim(h, n, color, brightness)[i];
      0 <= p.x < n && (p.y == 0 || p.y == h - 1)
    ensures forall a, b :: 0 <= a < n && (b == 0 || b == h - 1) ==> (a, b) in Positions(Rim(h, n, color, brightness))
    ensures h >= 2 ==> Distinct(Rim(h, n, color, brightness))
  {
    RimShape(h, n, color, brightness);
    RimCovers(h, n, color, brightness);
    if h >= 2 {
      RimDistinct(h, n, color, brightness);
    }
  }

  lemma {:induction false} SidesShape(w: int, n: nat, color: Option<Rgb>, brightness: int)
    ensures |Sides(w, n, color, brightness)| == 2 * n
    ensures PaintedWith(Sides(w, n, color, brightness), color, brightness)
    ensures forall i :: 0 <= i < 2 * n ==> var p := Sides(w, n, color, brightness)[i];
      (p.x == 0 || p.x == w - 1) && 1 <= p.y <= n
  {
    if n > 0 {
      SidesShape(w, n - 1, color, brightness);
      var r := Sides(w, n - 1, color, brightness);
      var s := Sides(w, n, color, brightness);
      assert forall i :: 0 <= i < |r| ==> s[i] == r[i];
    }
  }

  lemma {:induction false} SidesCover(w: int, n: nat, color: Option<Rgb>, brightness: int)
    ensures forall a, b :: 1 <= b <= n && (a == 0 || a == w - 1) ==> (a, b) in Positions(Sides(w, n, color, brightness))
  {
    if n > 0 {
      SidesCover(w, n - 1, color, brightness);
      var r := Sides(w, n - 1, color, brightness);
      var e := [Pixel(0, n, color, brightness), Pixel(w - 1, n, color, brightness)];
      PositionsConcat(r, e);
      forall a, b | 1 <= b <= n && (a == 0 || a == w - 1) ensures (a, b) in Positions(r + e) {
        if b < n {
          assert (a, b) in Positions(r);
        } else {
          assert Positions(e)[0] == (0, b) && Positions(e)[1] == (w - 1, b);
        }
      }
    }
  }

  lemma {:induction false} SidesDistinct(w: int, n: nat, color: Option<Rgb>, brightness: int)
    requires w >= 2
    ensures Distinct(Sides(w, n, color, brightness))
  {
    if n > 0 {
      SidesDistinct(w, n - 1, color, brightness);
      SidesShape(w, n - 1, color, brightness);
      var r := Sides(w, n - 1, color, brightness);
      var s := Sides(w, n, color, brightness);
      assert forall i :: 0 <= i < |r| ==> s[i] == r[i];
    }
  }

  /** The left and right columns: 2n pixels of the stroke colour, (0, b) and (w-1, b) for 1 <= b <= n. */
  lemma SidesFacts(w: int, n: nat, color: Option<Rgb>, brightness: int)
    ensures |Sides(w, n, color, brightness)| == 2 * n
    ensures PaintedWith(Sides(w, n, color, brightness), color, brightness)
    ensures forall i :: 0 <= i < 2 * n ==> var p := Sides(w, n, color, brightness)[i];
      (p.x == 0 || p.x == w - 1) && 1 <= p.y <= n
    ensures forall a, b :: 1 <= b <= n && (a == 0 || a == w - 1) ==> (a, b) in Positions(Sides(w, n, color, brightness))
    ensures w >= 2 ==> Distinct(Sides(w, n, color, brightness))
  {
    SidesShape(w, n, color, brightness);
    SidesCover(w, n, color, brightness);
    if w >= 2 {
      SidesDistinct(w, n, color, brightness);
    }
  }

  /** For w >= 1 and h >= 1 the stroke lies on the border of the w x h grid and covers all of it. */
  lemma StrokeIsBorder(w: int, h: int, color: Option<Rgb>, brightness: int)
    requires w >= 1 && h >= 1
    ensures PaintedWith(Stroke(w, h, color, brightness), color, brightness)
    ensures forall i :: 0 <= i < |Stroke(w, h, color, brightness)| ==>
      OnBorder(Stroke(w, h, color, brightness)[i].x, Stroke(w, h, color, brightness)[i].y, w, h)
    ensures forall x, y :: OnBorder(x, y, w, h) ==> (x, y) in Positions(Stroke(w, h, color, brightness))
  {
    var m := Max(h - 2, 0);
    RimFacts(h, w, color, brightness);
    SidesFacts(w, m, color, brightness);
    var r := Rim(h, w, color, brightness);
    var d := Sides(w, m, color, brightness);
    var s := Stroke(w, h, color, brightness);
    assert s == r + d;
    forall i | 0 <= i < |s| ensures OnBorder(s[i].x, s[i].y, w, h) {
      if i >= |r| {
        assert s[i] == d[i - |r|];
      }
    }
    PositionsConcat(r, d);
    forall x, y | OnBorder(x, y, w, h) ensures (x, y) in Positions(s) {
      if y == 0 || y == h - 1 {
        assert (x, 0) in Positions(r) && (x, h - 1) in Positions(r);
      } else {
        assert (0, y) in Positions(d) && (w - 1, y) in Positions(d);
      }
    }
  }

  /** For w, h >= 2 the stroke visits every border cell exactly once: 2w + 2h - 4 pixels. */
  lemma StrokeOnce(w: int, h: int, color: Option<Rgb>, brightness: int)
    requires w >= 2 && h >= 2
    ensures Distinct(Stroke(w, h, color, brightness))
    ensures |Stroke(w, h, color, brightness)| == 2 * w + 2 * h - 4
  {
    var m := h - 2;
    RimFacts(h, w, color, brightness);
    SidesFacts(w, m, color, brightness);
    var r := Rim(h, w, color, brightness);
    var d := Sides(w, m, color, brightness);
    var s := Stroke(w, h, color, brightness);
    assert s == r + d;
    forall i, j | 0 <= i < j < |s| ensures Pos(s[i]) != Pos(s[j]) {
      if j < |r| {
        assert s[i] == r[i] && s[j] == r[j];
      } else if i >= |r| {
        assert s[i] == d[i - |r|] && s[j] == d[j - |r|];
      } else {
        assert s[i] == r[i] && s[j] == d[j - |r|];
      }
    }
  }

  /** The 9 x 5 rectangle drawn in the comment of Rectangle._calc has a 24-pixel stroke. */
  lemma NineByFive(color: Option<Rgb>, brightness: int)
    ensures |Stroke(9, 5, color, brightness)| == 24
    ensures Distinct(Stroke(9, 5, color, brightness))
  {
    StrokeOnce(9, 5, color, brightness);
  }

  lemma {:induction false} RowRunFacts(y: int, n: nat, color: Option<Rgb>, brightness: int)
    ensures |RowRun(y, n, color, brightness)| == n
    ensures forall i :: 0 <= i < n ==> RowRun(y, n, color, brightness)[i] == Pixel(i + 1, y, color, brightness)
  {
    if n > 0 {
      RowRunFacts(y, n - 1, color, brightness);
    }
  }

  /** The interior rows 1 .. n of a w-wide rectangle hold n * (w-2) pixels. */
  lemma {:induction false} InteriorLength(w: int, n: nat, color: Option<Rgb>, brightness: int)
    ensures |Interior(w, n, color, brightness)| == n * Max(w - 2, 0)
  {
    if n > 0 {
      InteriorLength(w, n - 1, color, brightness);
      RowRunFacts(n, Max(w - 2, 0), color, brightness);
      MulSucc(Max(w - 2, 0), n - 1);
    }
  }

  /** The interior rows 1 .. n of a w-wide rectangle: pixels of the fill colour in 1 .. w-2 x 1 .. n. */
  lemma {:induction false} InteriorShape(w: int, n: nat, color: Option<Rgb>, brightness: int)
    ensures PaintedWith(Interior(w, n, color, brightness), color, brightness)
    ensures forall i :: 0 <= i < |Interior(w, n, color, brightness)| ==> var p := Interior(w, n, color, brightness)[i];
      1 <= p.x <= w - 2 && 1 <= p.y <= n
  {
    if n > 0 {
      var k := Max(w - 2, 0);
      InteriorShape(w, n - 1, color, brightness);
      RowRunFacts(n, k, color, brightness);
      var r := Interior(w, n - 1, color, brightness);
      var t := RowRun(n, k, color, brightness);
      var s := Interior(w, n, color, brightness);
      forall i | 0 <= i < |s|
        ensures 1 <= s[i].x <= w - 2 && 1 <= s[i].y <= n
        ensures s[i].color == color && s[i].brightness == brightness
      {
        if i < |r| {
          assert s[i] == r[i];
        } else {
          assert s[i] == t[i - |r|];
        }
      }
    }
  }

  /** The interior rows 1 .. n cover every cell (x, y) with 1 <= x <= w-2 and 1 <= y <= n. */
  lemma {:induction false} InteriorCovers(w: int, n: nat, color: Option<Rgb>, brightness: int)
    ensures forall x, y :: 1 <= x <= w - 2 && 1 <= y <= n ==> (x, y) in Positions(Interior(w, n, color, brightness))
  {
    if n > 0 {
      var k := Max(w - 2, 0);
      InteriorCovers(w, n - 1, color, brightness);
      RowRunFacts(n, k, color, brightness);
      var r := Interior(w, n - 1, color, brightness);
      var t := RowRun(n, k, color, brightness);
      PositionsConcat(r, t);
      forall x, y | 1 <= x <= w - 2 && 1 <= y <= n ensures (x, y) in Positions(r + t) {
        if y < n {
          assert (x, y) in Positions(r);
        } else {
          assert Positions(t)[x - 1] == (x, y);
        }
      }
    }
  }

  /** The interior rows 1 .. n stand on pairwise different cells. */
  lemma {:induction false} InteriorDistinct(w: int, n: nat, color: Option<Rgb>, brightness: int)
    ensures Distinct(Interior(w, n, color, brightness))
  {
    if n > 0 {
      var k := Max(w - 2, 0);
      InteriorDistinct(w, n - 1, color, brightness);
      InteriorShape(w, n - 1, color, brightness);
      RowRunFacts(n, k, color, brightness);
      var r := Interior(w, n - 1, color, brightness);
      var t := RowRun(n, k, color, brightness);
      var s := Interior(w, n, color, brightness);
      forall i, j | 0 <= i < j < |s| ensures Pos(s[i]) != Pos(s[j]) {
        if j < |r| {
          assert s[i] == r[i] && s[j] == r[j];
        } else if i >= |r| {
          assert s[i] == t[i - |r|] && s[j] == t[j - |r|];
        } else {
          assert s[i] == r[i] && s[j] == t[j - |r|];
        }
      }
    }
  }

  /** For w, h >= 2 the fill adds (w-2)(h-2) pixels, one on each cell strictly inside the stroke. */
  lemma InteriorIsInside(w: int, h: int, color: Option<Rgb>, brightness: int)
    requires w >= 2 && h >= 2
    ensures |InteriorFill(w, h, color, brightness)| == (w - 2) * (h - 2)
    ensures Distinct(InteriorFill(w, h, color, brightness))
    ensures forall i :: 0 <= i < |InteriorFill(w, h, color, brightness)| ==>
      Inside(InteriorFill(w, h, color, brightness)[i], w, h)
    ensures forall x, y :: 0 < x < w - 1 && 0 < y < h - 1 ==> (x, y) in Positions(InteriorFill(w, h, color, brightness))
  {
    InteriorLength(w, h - 2, color, brightness);
    InteriorShape(w, h - 2, color, brightness);
    InteriorCovers(w, h - 2, color, brightness);
    InteriorDistinct(w, h - 2, color, brightness);
  }

  lemma RimStep(h: int, n: nat, color: Option<Rgb>, brightness: int)
    ensures Rim(h, n, color, brightness) + [Pixel(n, 0, color, brightness)] + [Pixel(n, h - 1, color, brightness)]
      == Rim(h, n + 1, color, brightness)
  {
  }

  lemma SidesStep(rim: seq<Pixel>, w: int, n: nat, color: Option<Rgb>, brightness: int)
    ensures rim + Sides(w, n, color, brightness) + [Pixel(0, n + 1, color, brightness)] + [Pixel(w - 1, n + 1, color, brightness)]
      == rim + Sides(w, n + 1, color, brightness)
  {
  }

  lemma RunStep(done: seq<Pixel>, y: int, n: nat, color: Option<Rgb>, brightness: int)
    ensures done + RowRun(y, n, color, brightness) + [Pixel(n + 1, y, color, brightness)] == done + RowRun(y, n + 1, color, brightness)
  {
  }

  lemma InteriorStep(stroke: seq<Pixel>, w: int, n: nat, color: Option<Rgb>, brightness: int)
    ensures stroke + Interior(w, n, color, brightness) + RowRun(n + 1, Max(w - 2, 0), color, brightness)
      == stroke + Interior(w, n + 1, color, brightness)
  {
  }

  /**
    * Rectangle._calc: the stroke (bottom and top of every column, then left and right of
    * every inner row), then, with a fill colour, the interior row by row. Each interior pixel
    * resolves fill_color afresh, so a colour that does not resolve raises at the first one
    * and leaves the stroke; a rectangle with no interior never resolves it.
    */
  method RectanglePixels(w: int, h: int, color: Option<Rgb>, brightness: int, fill: Fill)
    returns (ps: seq<Pixel>, res: Result<()>)
    ensures fill.NoFill? ==> res == Ok(()) && ps == Stroke(w, h, color, brightness)
    ensures fill.FillWith? && Resolve(fill.spec).Ok? ==>
      res == Ok(()) && ps == Stroke(w, h, color, brightness) + InteriorFill(w, h, Resolve(fill.spec).value, brightness)
    ensures fill.FillWith? && Resolve(fill.spec).Err? ==>
      ps == Stroke(w, h, color, brightness) && (res.Err? <==> w >= 3 && h >= 3)
    ensures res.Err? ==> fill.FillWith? && res.error == Resolve(fill.spec).error
  {
    ps := [];
    res := Ok(());
    var x := 0;
    while x < w
      invariant 0 <= x <= Max(w, 0) && ps == Rim(h, x, color, brightness)
    {
      ps := ps + [Pixel(x, 0, color, brightness)];
      ps := ps + [Pixel(x, h - 1, color, brightness)];
      RimStep(h, x, color, brightness);
      x := x + 1;
    }
    ghost var rim := ps;
    var y := 1;
    while y < h - 1
      invariant 1 <= y <= Max(h - 2, 0) + 1 && ps == rim + Sides(w, y - 1, color, brightness)
    {
      ps := ps + [Pixel(0, y, color, brightness)];
      ps := ps + [Pixel(w - 1, y, color, brightness)];
      SidesStep(rim, w, y - 1, color, brightness);
      y := y + 1;
    }
    if fill.FillWith? {
      ghost var stroke := ps;
      ghost var col := if Resolve(fill.spec).Ok? then Resolve(fill.spec).value else None;
      y := 1;
      while y < h - 1
        invariant 1 <= y <= Max(h - 2, 0) + 1
        invariant Resolve(fill.spec).Ok? ==> ps == stroke + Interior(w, y - 1, col, brightness)
        invariant Resolve(fill.spec).Err? ==> ps == stroke && (y == 1 || w < 3)
      {
        ghost var done := ps;
        x := 1;
        while x < w - 1
          invariant 1 <= x <= Max(w - 2, 0) + 1
          invariant Resolve(fill.spec).Ok? ==> ps == done + RowRun(y, x - 1, col, brightness)
          invariant Resolve(fill.spec).Err? ==> ps == done && x == 1
        {
          var c := Resolve(fill.spec);
          if c.Err? {
            res := Err(c.error);
            return;
          }
          ps := ps + [Pixel(x, y, c.value, brightness)];
          RunStep(done, y, x - 1, col, brightness);
          x := x + 1;
        }
        if Resolve(fill.spec).Ok? {
          InteriorStep(stroke, w, y - 1, col, brightness);
        }
        y := y + 1;
      }
    }
  }
}
