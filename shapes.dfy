/** The drawable objects: Object and its subclasses, with their bounding boxes and collision test. */
module Shapes {
  import opened Base
  import opened Colors
  import opened Pixels
  import opened Lines
  import opened Circles
  import opened Rectangles
  import opened Sprites

  /** min_x, min_y, max_x, max_y of an object; Object starts them all at -1. */
  datatype Box = Box(minX: int, minY: int, maxX: int, maxY: int)

  /** The box moved by (dx, dy), as the x/y setters and move do it. */
  function Translate(b: Box, dx: int, dy: int): (t: Box)
    ensures t.maxX - t.minX == b.maxX - b.minX && t.maxY - t.minY == b.maxY - b.minY
  {
    Box(b.minX + dx, b.minY + dy, b.maxX + dx, b.maxY + dy)
  }

  lemma TranslateBack(b: Box, dx: int, dy: int)
    ensures Translate(Translate(b, dx, dy), -dx, -dy) == b
  {
  }

  /** Two moves add up. */
  lemma TranslateTwice(b: Box, dx: int, dy: int, ex: int, ey: int)
    ensures Translate(Translate(b, dx, dy), ex, ey) == Translate(b, dx + ex, dy + ey)
  {
  }

  /** What check_collision appends, one tag per test that passes (the message text is left out). */
  datatype Tag = Right | Left | Top | Bottom

  /** check_collision of an object with box a against one with box b. */
  function Collision(a: Box, b: Box): seq<Tag> {
    (if a.maxX >= b.minX && !(a.minX > b.minX) then [Right] else [])
    + (if a.minX <= b.maxX && !(a.maxX > b.maxX) then [Left] else [])
    + (if a.maxY >= b.minY then [Top] else [])
    + (if a.minY <= b.maxY then [Bottom] else [])
  }

  predicate WellFormed(b: Box) { b.minX <= b.maxX && b.minY <= b.maxY }

  predicate InRows(b: Box, r: int) { b.minY <= r <= b.maxY }

  /**
    * RIGHT: the other box's left edge lies in this box's columns; LEFT: the other box's right
    * edge is at or right of both this box's edges; TOP and BOTTOM compare one edge each.
    */
  lemma CollisionMeaning(a: Box, b: Box)
    ensures Right in Collision(a, b) <==> a.minX <= b.minX <= a.maxX
    ensures Left in Collision(a, b) <==> a.minX <= b.maxX && a.maxX <= b.maxX
    ensures Top in Collision(a, b) <==> b.minY <= a.maxY
    ensures Bottom in Collision(a, b) <==> a.minY <= b.maxY
  {
    var r := if a.maxX >= b.minX && !(a.minX > b.minX) then [Right] else [];
    var l := if a.minX <= b.maxX && !(a.maxX > b.maxX) then [Left] else [];
    var t := if a.maxY >= b.minY then [Top] else [];
    var u := if a.minY <= b.maxY then [Bottom] else [];
    assert Collision(a, b) == r + l + t + u;
  }

  /** A well-formed box touches itself on all four sides. */
  lemma CollisionWithItself(a: Box)
    requires WellFormed(a)
    ensures Collision(a, a) == [Right, Left, Top, Bottom]
  {
  }

  /** Moving both objects alike does not change the outcome. */
  lemma CollisionMovesAlong(a: Box, b: Box, dx: int, dy: int)
    ensures Collision(Translate(a, dx, dy), Translate(b, dx, dy)) == Collision(a, b)
  {
  }

  /** TOP and BOTTOM together say exactly that the two row ranges share a row. */
  lemma TopAndBottom(a: Box, b: Box)
    requires WellFormed(a) && WellFormed(b)
    ensures (Top in Collision(a, b) && Bottom in Collision(a, b)) <==>
      exists r :: InRows(a, r) && InRows(b, r)
  {
    CollisionMeaning(a, b);
    if Top in Collision(a, b) && Bottom in Collision(a, b) {
      var r := Max(a.minY, b.minY);
      assert InRows(a, r) && InRows(b, r);
    }
  }

  /**
    * Of two boxes that share a column, neither RIGHT nor LEFT is reported exactly when the
    * other box sticks out on the left of this one and not on its right.
    */
  lemma SharedColumnsMissed(a: Box, b: Box)
    requires WellFormed(a) && WellFormed(b)
    requires a.minX <= b.maxX && b.minX <= a.maxX
    ensures (Right !in Collision(a, b) && Left !in Collision(a, b)) <==> b.minX < a.minX && b.maxX < a.maxX
  {
    CollisionMeaning(a, b);
  }

  /** The test is not symmetric, and LEFT can be reported for boxes that share no column. */
  lemma CollisionOneSided()
    ensures Collision(Box(0, 0, 5, 0), Box(2, 0, 3, 0)) == [Right, Top, Bottom]
    ensures Collision(Box(2, 0, 3, 0), Box(0, 0, 5, 0)) == [Left, Top, Bottom]
    ensures Collision(Box(0, 0, 1, 0), Box(10, 0, 12, 0)) == [Left, Top, Bottom]
  {
  }

  /** Each pixel of a line after the first is one step on from the one before it. */
  predicate Steps(ps: seq<Pixel>, x1: int, y1: int) {
    forall i :: 0 < i < |ps| ==> StepAt(ps, i, x1, y1)
  }

  /** Which subclass an object is, with the attributes only that subclass has. */
  datatype Kind =
    | PointShape
    | LineShape(endX: int, endY: int)
    | CircleShape(r: int, fill: Fill)
    | RectangleShape(width: int, height: int, fill: Fill)
    | GroupShape
    | SpriteShape(frames: seq<Frame>, imageIndex: int)

  /** The pixels with their colour set to c and everything else kept. */
  function Recolored(ps: seq<Pixel>, c: Option<Rgb>): (qs: seq<Pixel>)
    ensures |qs| == |ps| && Positions(qs) == Positions(ps)
    ensures forall i :: 0 <= i < |qs| ==> qs[i].brightness == ps[i].brightness && qs[i].color == c
  {
    seq(|ps|, i requires 0 <= i < |ps| => ps[i].(color := c))
  }

  /** The loop of set_color: each pixel in turn takes the resolved colour. */
  method RecolorAll(ps: seq<Pixel>, c: Option<Rgb>) returns (qs: seq<Pixel>)
    ensures qs == Recolored(ps, c)
  {
    qs := ps;
    var i := 0;
    while i < |qs|
      invariant 0 <= i <= |qs| == |ps|
      invariant qs[..i] == Recolored(ps[..i], c) && qs[i..] == ps[i..]
    {
      qs := qs[i := qs[i].(color := c)];
      i := i + 1;
    }
    assert qs == qs[..i] && ps == ps[..i];
  }

  /** Recolouring twice is recolouring with the second colour. */
  lemma RecoloredTwice(ps: seq<Pixel>, c: Option<Rgb>, d: Option<Rgb>)
    ensures Recolored(Recolored(ps, c), d) == Recolored(ps, d)
  {
  }

  /** A member of a group as the group reads it: its pixels and its max_x, max_y. */
  function PartOf(s: Shape): Frame
    reads s
  {
    Frame(s.pixels, s.box.maxX, s.box.maxY)
  }

  function Parts(shapes: seq<Shape>): (fs: seq<Frame>)
    reads set i | 0 <= i < |shapes| :: shapes[i]
    ensures |fs| == |shapes| && forall i :: 0 <= i < |shapes| ==> fs[i] == PartOf(shapes[i])
  {
    seq(|shapes|, i reads set j | 0 <= j < |shapes| :: shapes[j] requires 0 <= i < |shapes| => PartOf(shapes[i]))
  }

  /**
    * A sprite whose box still reports the max_x of the frame it shows (as the constructor and
    * next_image leave it, and a move does not) is a group member that fits its own box, when
    * that frame does, as every frame read from text does.
    */
  lemma SpritePartFits(s: Shape)
    requires s.Valid() && s.kind.SpriteShape? && s.box.maxX == s.kind.frames[s.kind.imageIndex].maxX
    requires Fits(s.kind.frames[s.kind.imageIndex])
    ensures Fits(PartOf(s))
  {
  }

  class Shape {
    var x: int
    var y: int
    var color: Option<Rgb>
    var brightness: int
    var pixels: seq<Pixel>
    var visible: bool
    var box: Box
    var kind: Kind

    /** A sprite shows one of its frames; its index never leaves the frame list. */
    ghost predicate Valid()
      reads this
    {
      kind.SpriteShape? ==>
        0 <= kind.imageIndex < |kind.frames| && pixels == kind.frames[kind.imageIndex].pixels
    }

    /** Point: one pixel at the origin, and a box that is just the point. */
    constructor Point(x0: int, y0: int, color0: Option<Rgb>, brightness0: int)
      ensures x == x0 && y == y0 && color == color0 && brightness == brightness0 && visible
      ensures pixels == [Pixel(0, 0, color0, brightness0)]
      ensures box == Box(x0, y0, x0, y0) && kind == PointShape
      ensures Valid()
    {
      x, y, color, brightness := x0, y0, color0, brightness0;
      pixels := [Pixel(0, 0, color0, brightness0)];
      visible := true;
      box := Box(x0, y0, x0, y0);
      kind := PointShape;
    }

    /**
      * Line: the box is the start and end point as given (not sorted), and the pixels run
      * from the origin to the end point relative to the start.
      */
    constructor Line(x0: int, y0: int, endX: int, endY: int, color0: Option<Rgb>, brightness0: int)
      ensures x == x0 && y == y0 && color == color0 && brightness == brightness0 && visible
      ensures box == Box(x0, y0, endX, endY) && kind == LineShape(endX, endY)
      ensures |pixels| == Max(Abs(endX - x0), Abs(endY - y0)) + 1
      ensures Pos(pixels[0]) == (0, 0) && Pos(pixels[|pixels| - 1]) == (endX - x0, endY - y0)
      ensures Steps(pixels, endX - x0, endY - y0)
      ensures PaintedWith(pixels, color0, brightness0)
      ensures Valid()
    {
      x, y, color, brightness := x0, y0, color0, brightness0;
      visible := true;
      box := Box(x0, y0, endX, endY);
      kind := LineShape(endX, endY);
      var ps := LinePixels(endX - x0, endY - y0, color0, brightness0);
      pixels := ps;
    }

    /** HLine: the line to (x + length, y); for a length >= 0 its pixels are (0,0) .. (length,0). */
    constructor HLine(x0: int, y0: int, length: int, color0: Option<Rgb>, brightness0: int)
      ensures x == x0 && y == y0 && color == color0 && brightness == brightness0 && visible
      ensures box == Box(x0, y0, x0 + length, y0) && kind == LineShape(x0 + length, y0)
      ensures |pixels| == Abs(length) + 1
      ensures length >= 0 ==> Positions(pixels) == seq(length + 1, i => (i, 0))
      ensures PaintedWith(pixels, color0, brightness0)
      ensures Valid()
    {
      x, y, color, brightness := x0, y0, color0, brightness0;
      visible := true;
      box := Box(x0, y0, x0 + length, y0);
      kind := LineShape(x0 + length, y0);
      var ps := LinePixels(length, 0, color0, brightness0);
      pixels := ps;
    }

    /** VLine: the line to (x, y + length); for a length >= 0 its pixels are (0,0) .. (0,length). */
    constructor VLine(x0: int, y0: int, length: int, color0: Option<Rgb>, brightness0: int)
      ensures x == x0 && y == y0 && color == color0 && brightness == brightness0 && visible
      ensures box == Box(x0, y0, x0, y0 + length) && kind == LineShape(x0, y0 + length)
      ensures |pixels| == Abs(length) + 1
      ensures length >= 0 ==> Positions(pixels) == seq(length + 1, i => (0, i))
      ensures PaintedWith(pixels, color0, brightness0)
      ensures Valid()
    {
      x, y, color, brightness := x0, y0, color0, brightness0;
      visible := true;
      box := Box(x0, y0, x0, y0 + length);
      kind := LineShape(x0, y0 + length);
      var ps := LinePixels(0, length, color0, brightness0);
      pixels := ps;
    }

    /**
      * The part of Circle.__init__ before _calc: Object's fields (the box still -1 all round,
      * no pixels), the radius and the fill colour as given.
      */
    constructor Circle(x0: int, y0: int, r: int, color0: Option<Rgb>, brightness0: int, fill: Fill)
      ensures x == x0 && y == y0 && color == color0 && brightness == brightness0 && visible
      ensures box == Box(-1, -1, -1, -1) && pixels == [] && kind == CircleShape(r, fill)
      ensures Valid()
    {
      x, y, color, brightness := x0, y0, color0, brightness0;
      pixels := [];
      visible := true;
      box := Box(-1, -1, -1, -1);
      kind := CircleShape(r, fill);
    }

    /**
      * Circle._calc: the pixels are cleared and recomputed from the radius, the object's own
      * colour and brightness, and the fill colour. It fails when a fill pixel cannot resolve
      * the fill colour, and the ring stays in pixels then.
      */
    method CircleCalc() returns (res: Result<()>)
      requires kind.CircleShape?
      modifies this
      ensures kind == old(kind)
      ensures res.Err? <==> kind.r >= 1 && kind.fill.FillWith? && Resolve(kind.fill.spec).Err?
      ensures res.Err? ==> res.error == Resolve(kind.fill.spec).error && Ring(pixels, kind.r, color, brightness)
      ensures res.Ok? ==> CircleImage(pixels, kind.r, color, brightness, kind.fill)
      ensures x == old(x) && y == old(y) && box == old(box) && color == old(color)
      ensures brightness == old(brightness) && visible == old(visible)
    {
      var ps;
      ps, res := CirclePixels(kind.r, color, brightness, kind.fill);
      pixels := ps;
    }

    /**
      * Circle(x, y, r, color, brightness, fill_color): the pixels from _calc, then the box of
      * side 2r around (x, y). The construction fails exactly when _calc does.
      */
    static method MakeCircle(x0: int, y0: int, r: int, color0: Option<Rgb>, brightness0: int, fill: Fill)
      returns (res: Result<Shape>)
      ensures res.Err? <==> r >= 1 && fill.FillWith? && Resolve(fill.spec).Err?
      ensures res.Err? ==> res.error == Resolve(fill.spec).error
      ensures res.Ok? ==> fresh(res.value)
      ensures res.Ok? ==> var s := res.value;
        && s.x == x0 && s.y == y0 && s.color == color0 && s.brightness == brightness0 && s.visible
        && s.box == Box(-r + x0, -r + y0, r + x0, r + y0) && s.kind == CircleShape(r, fill)
        && CircleImage(s.pixels, r, color0, brightness0, fill) && s.Valid()
    {
      var s := new Shape.Circle(x0, y0, r, color0, brightness0, fill);
      var done := s.CircleCalc();
      if done.Err? {
        return Err(done.error);
      }
      s.box := Box(-r + x0, -r + y0, r + x0, r + y0);
      res := Ok(s);
    }

    /**
      * The part of Rectangle.__init__ before _calc: Object's fields, the width and height and
      * the fill colour as given.
      */
    constructor Rectangle(x0: int, y0: int, w: int, h: int, color0: Option<Rgb>, brightness0: int, fill: Fill)
      ensures x == x0 && y == y0 && color == color0 && brightness == brightness0 && visible
      ensures box == Box(-1, -1, -1, -1) && pixels == [] && kind == RectangleShape(w, h, fill)
      ensures Valid()
    {
      x, y, color, brightness := x0, y0, color0, brightness0;
      pixels := [];
      visible := true;
      box := Box(-1, -1, -1, -1);
      kind := RectangleShape(w, h, fill);
    }

    /**
      * Rectangle._calc: the box becomes the rectangle's own extent from (0,0), not moved to
      * (x, y); the pixels are the stroke, then the interior with a fill colour. It fails when
      * an interior pixel cannot resolve the fill colour, leaving the stroke.
      */
    method RectangleCalc() returns (res: Result<()>)
      requires kind.RectangleShape?
      modifies this
      ensures kind == old(kind)
      ensures box == Box(0, 0, kind.width - 1, kind.height - 1)
      ensures res.Err? <==> kind.fill.FillWith? && Resolve(kind.fill.spec).Err? && kind.width >= 3 && kind.height >= 3
      ensures res.Err? ==> res.error == Resolve(kind.fill.spec).error
      ensures kind.fill.NoFill? || Resolve(kind.fill.spec).Err? ==> pixels == Stroke(kind.width, kind.height, color, brightness)
      ensures kind.fill.FillWith? && Resolve(kind.fill.spec).Ok? ==>
        pixels == Stroke(kind.width, kind.height, color, brightness) + InteriorFill(kind.width, kind.height, Resolve(kind.fill.spec).value, brightness)
      ensures x == old(x) && y == old(y) && color == old(color)
      ensures brightness == old(brightness) && visible == old(visible)
    {
      box := Box(0, 0, kind.width - 1, kind.height - 1);
      var ps;
      ps, res := RectanglePixels(kind.width, kind.height, color, brightness, kind.fill);
      pixels := ps;
    }

    /** Rectangle(x, y, width, height, color, brightness, fill_color): the box and pixels from _calc. */
    static method MakeRectangle(x0: int, y0: int, w: int, h: int, color0: Option<Rgb>, brightness0: int, fill: Fill)
      returns (res: Result<Shape>)
      ensures res.Err? <==> fill.FillWith? && Resolve(fill.spec).Err? && w >= 3 && h >= 3
      ensures res.Err? ==> res.error == Resolve(fill.spec).error
      ensures res.Ok? ==> fresh(res.value)
      ensures res.Ok? ==> var s := res.value;
        && s.x == x0 && s.y == y0 && s.color == color0 && s.brightness == brightness0 && s.visible
        && s.box == Box(0, 0, w - 1, h - 1) && s.kind == RectangleShape(w, h, fill) && s.Valid()
        && (fill.NoFill? || Resolve(fill.spec).Err? ==> s.pixels == Stroke(w, h, color0, brightness0))
        && (fill.FillWith? && Resolve(fill.spec).Ok? ==>
              s.pixels == Stroke(w, h, color0, brightness0) + InteriorFill(w, h, Resolve(fill.spec).value, brightness0))
    {
      var s := new Shape.Rectangle(x0, y0, w, h, color0, brightness0, fill);
      var done := s.RectangleCalc();
      if done.Err? {
        return Err(done.error);
      }
      res := Ok(s);
    }

    /**
      * SpriteGroup: the members' pixels side by side; the box spans 0 .. the total width in x
      * and 0 .. the tallest member in y. The group's own colour is "" (None).
      */
    constructor Group(x0: int, y0: int, shapes: seq<Shape>, brightness0: int)
      ensures x == x0 && y == y0 && color == None && brightness == brightness0 && visible
      ensures pixels == Laid(Parts(shapes), |shapes|)
      ensures box == Box(0, 0, Offset(Parts(shapes), |shapes|), TallestUpTo(Parts(shapes), |shapes|))
      ensures kind == GroupShape
      ensures Valid()
      ensures (forall m :: 0 <= m < |shapes| ==> Fits(PartOf(shapes[m]))) ==>
        && |pixels| == PixelTotal(Parts(shapes), |shapes|)
        && (forall m, i :: 0 <= m < |shapes| && 0 <= i < |Parts(shapes)[m].pixels| ==>
              PlacedAt(Parts(shapes), |shapes|, m, i))
        && (forall i :: 0 <= i < |pixels| ==> 0 <= pixels[i].x < box.maxX)
    {
      x, y, color, brightness := x0, y0, None, brightness0;
      visible := true;
      kind := GroupShape;
      var parts := Parts(shapes);
      var ps, maxX, maxY := GroupPixels(parts);
      pixels := ps;
      box := Box(0, 0, maxX, maxY);
      if forall m :: 0 <= m < |shapes| ==> Fits(PartOf(shapes[m])) {
        LaidSideBySide(parts, |parts|);
      }
    }

    /**
      * Sprite: the frames read from its texts, showing the first one; max_x and max_y are that
      * frame's, min_x and min_y keep Object's -1. The colour is "" (None).
      */
    constructor Sprite(x0: int, y0: int, frames: seq<Frame>, brightness0: int)
      requires |frames| > 0
      ensures x == x0 && y == y0 && color == None && brightness == brightness0 && visible
      ensures kind == SpriteShape(frames, 0) && pixels == frames[0].pixels
      ensures box == Box(-1, -1, frames[0].maxX, frames[0].maxY)
      ensures Valid()
    {
      x, y, color, brightness := x0, y0, None, brightness0;
      visible := true;
      var i := NextIndex(-1, |frames|);
      kind := SpriteShape(frames, i);
      pixels := frames[i].pixels;
      box := Box(-1, -1, frames[i].maxX, frames[i].maxY);
    }

    /** The x setter: the box moves by the change in x. */
    method SetX(nx: int)
      modifies this
      ensures x == nx && y == old(y) && box == Translate(old(box), nx - old(x), 0)
      ensures pixels == old(pixels) && color == old(color) && brightness == old(brightness)
      ensures visible == old(visible) && kind == old(kind)
      ensures old(Valid()) ==> Valid()
    {
      var delta := nx - x;
      x := nx;
      box := box.(maxX := box.maxX + delta, minX := box.minX + delta);
    }

    /** The y setter: the box moves by the change in y. */
    method SetY(ny: int)
      modifies this
      ensures y == ny && x == old(x) && box == Translate(old(box), 0, ny - old(y))
      ensures pixels == old(pixels) && color == old(color) && brightness == old(brightness)
      ensures visible == old(visible) && kind == old(kind)
      ensures old(Valid()) ==> Valid()
    {
      var delta := ny - y;
      y := ny;
      box := box.(maxY := box.maxY + delta, minY := box.minY + delta);
    }

    /** move: a relative move of the position and the box. */
    method Move(dx: int, dy: int)
      modifies this
      ensures x == old(x) + dx && y == old(y) + dy && box == Translate(old(box), dx, dy)
      ensures pixels == old(pixels) && color == old(color) && brightness == old(brightness)
      ensures visible == old(visible) && kind == old(kind)
      ensures old(Valid()) ==> Valid()
    {
      x := x + dx;
      y := y + dy;
      box := Box(box.minX + dx, box.minY + dy, box.maxX + dx, box.maxY + dy);
    }

    /**
      * set_color: every pixel resolves the colour; the object's own colour is not changed.
      * A colour that does not resolve fails at the first pixel, so it is an error only when
      * there is a pixel. A sprite's pixels are its current frame's, which are recoloured too.
      */
    method SetColor(spec: ColorSpec) returns (res: Result<()>)
      modifies this
      ensures res.Err? <==> Resolve(spec).Err? && |old(pixels)| > 0
      ensures res.Err? ==> res.error == Resolve(spec).error
      ensures res.Err? || |old(pixels)| == 0 ==> pixels == old(pixels) && kind == old(kind)
      ensures res.Ok? && |old(pixels)| > 0 ==> pixels == Recolored(old(pixels), Resolve(spec).value)
      ensures res.Ok? && |old(pixels)| > 0 && old(Valid()) && old(kind).SpriteShape? ==>
        kind == old(kind).(frames := old(kind).frames[old(kind).imageIndex :=
          old(kind).frames[old(kind).imageIndex].(pixels := Recolored(old(pixels), Resolve(spec).value))])
      ensures !old(kind).SpriteShape? ==> kind == old(kind)
      ensures x == old(x) && y == old(y) && box == old(box) && color == old(color)
      ensures brightness == old(brightness) && visible == old(visible)
      ensures old(Valid()) ==> Valid()
    {
      if |pixels| == 0 {
        return Ok(());
      }
      var c := Resolve(spec);
      if c.Err? {
        return Err(c.error);
      }
      pixels := RecolorAll(pixels, c.value);
      if kind.SpriteShape? && 0 <= kind.imageIndex < |kind.frames| {
        var f := kind.frames[kind.imageIndex];
        kind := kind.(frames := kind.frames[kind.imageIndex := f.(pixels := pixels)]);
      }
      res := Ok(());
    }

    method Hide()
      modifies this
      ensures !visible
      ensures x == old(x) && y == old(y) && box == old(box) && color == old(color)
      ensures brightness == old(brightness) && pixels == old(pixels) && kind == old(kind)
    {
      visible := false;
    }

    method Show()
      modifies this
      ensures visible
      ensures x == old(x) && y == old(y) && box == old(box) && color == old(color)
      ensures brightness == old(brightness) && pixels == old(pixels) && kind == old(kind)
    {
      visible := true;
    }

    /**
      * The radius setter: the radius is stored, then the pixels are recomputed from the
      * object's own colour and brightness (not a colour set later with set_color), and the box
      * is left as it was. When _calc fails the new radius has already been stored.
      */
    method SetRadius(r: int) returns (res: Result<()>)
      requires kind.CircleShape?
      modifies this
      ensures kind == CircleShape(r, old(kind).fill)
      ensures res.Err? <==> r >= 1 && kind.fill.FillWith? && Resolve(kind.fill.spec).Err?
      ensures res.Err? ==> res.error == Resolve(kind.fill.spec).error && Ring(pixels, r, color, brightness)
      ensures res.Ok? ==> CircleImage(pixels, r, color, brightness, kind.fill)
      ensures x == old(x) && y == old(y) && box == old(box) && color == old(color)
      ensures brightness == old(brightness) && visible == old(visible)
    {
      kind := kind.(r := r);
      res := CircleCalc();
    }

    /**
      * next_image: the next frame, cyclically; max_x and max_y become that frame's, while
      * min_x and min_y are left as they are.
      */
    method NextImage()
      requires kind.SpriteShape? && |kind.frames| > 0 && -1 <= kind.imageIndex < |kind.frames|
      modifies this
      ensures kind == old(kind).(imageIndex := NextIndex(old(kind).imageIndex, |old(kind).frames|))
      ensures pixels == kind.frames[kind.imageIndex].pixels
      ensures box == old(box).(maxX := kind.frames[kind.imageIndex].maxX, maxY := kind.frames[kind.imageIndex].maxY)
      ensures x == old(x) && y == old(y) && color == old(color)
      ensures brightness == old(brightness) && visible == old(visible)
      ensures Valid()
    {
      var i := NextIndex(kind.imageIndex, |kind.frames|);
      kind := kind.(imageIndex := i);
      var f := kind.frames[i];
      pixels := f.pixels;
      box := box.(maxX := f.maxX, maxY := f.maxY);
    }

    /** check_collision against another object. */
    function CheckCollision(other: Shape): (tags: seq<Tag>)
      reads this, other
      ensures tags == Collision(box, other.box)
      ensures |tags| <= 4
      ensures Right in tags <==> box.minX <= other.box.minX <= box.maxX
      ensures Left in tags <==> box.minX <= other.box.maxX && box.maxX <= other.box.maxX
      ensures Top in tags <==> other.box.minY <= box.maxY
      ensures Bottom in tags <==> box.minY <= other.box.maxY
    {
      CollisionMeaning(box, other.box);
      Collision(box, other.box)
    }
  }
}
