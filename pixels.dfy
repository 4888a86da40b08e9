/** Shape-local pixels, the unit every rasterizer produces. */
module Pixels {
  import opened Base
  import opened Colors

  /** A shape-local offset with its resolved colour (None is Python's None) and brightness. */
  datatype Pixel = Pixel(x: int, y: int, color: Option<Rgb>, brightness: int)

  /**
    * The fill_color argument of Circle and Rectangle: NoFill is Python's None. A fill colour is
    * kept as given and only resolved when a fill pixel is emitted.
    */
  datatype Fill = NoFill | FillWith(spec: ColorSpec)

  function Pos(p: Pixel): (int, int) { (p.x, p.y) }

  function Positions(ps: seq<Pixel>): seq<(int, int)> {
    seq(|ps|, i requires 0 <= i < |ps| => Pos(ps[i]))
  }

  lemma PositionsConcat(f: seq<Pixel>, g: seq<Pixel>)
    ensures Positions(f + g) == Positions(f) + Positions(g)
  {
  }

  /** Every pixel of ps carries the given colour and brightness. */
  predicate PaintedWith(ps: seq<Pixel>, color: Option<Rgb>, brightness: int) {
    forall i :: 0 <= i < |ps| ==> ps[i].color == color && ps[i].brightness == brightness
  }
}
