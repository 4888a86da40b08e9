# neomatrix in Dafny

A model of `neomatrix.py`, a small raster engine for a serpentine NeoPixel LED matrix. Shapes
(points, Bresenham lines, midpoint circles, rectangles, text-art sprites and sprite groups) keep
their pixels as offsets from their own position. A `Canvas` holds the shapes in list order and
composites them onto its grid, last writer wins. It clips what falls off the grid, scales each
channel by the pixel's brightness percent, and writes the result to a `width * height` frame of LED
triples in boustrophedon order. A flood fill runs a four-connected breadth-first search over the
canvas colour grid.

Modules, in dependency order:

- `Base`: the `Option` and `Result` types, and `Error`, which names the Python exception a path raises.
- `Colors`: the palette, `hex_to_rgb` and `get_color_tuple`. They are modelled as `Resolve` over a
  `ColorSpec` that is either a string or a triple.
- `Pixels`: the pixel record.
- `Lines`, `Circles`, `Rectangles` and `Sprites`: the `_calc` loops, `_read_object`, the frame
  cycle and the `SpriteGroup` layout. They are written as methods whose results are specified by
  functions or predicates.
- `Shapes`: the `Object` base as a class `Shape`. It has one named constructor per subclass, and
  the setters, `move`, `set_color`, `hide`/`show`, the `radius` setter, `next_image` and
  `check_collision`.
- `Compositing`: what `update` computes, as functions. This covers the cell every pixel lands on,
  the serpentine index with its inverse, and Python's `round` on `c*b/100`.
- `FloodFill`: the grid facts the flood fill is proved against.
- `Matrix`: the class `Canvas`, with `add`, `remove`, `remove_all`, `update`, `set_brightness`,
  `valid_coord` and `fill`.

The model keeps the quirks of the code as written:

- The `radius` setter leaves the bounding box alone.
- A rectangle's box is `(0, 0, w-1, h-1)` wherever it stands.
- A line's box is `(x, y, end_x, end_y)` and is not normalised.
- A sprite keeps `min_x = min_y = -1`.
- The circle fill covers columns `0 .. r-1` only.
- A fill colour is resolved only where a fill pixel is made. A circle of radius 0 or a rectangle
  with no interior accepts a fill colour that does not resolve. A `radius` change that fails on
  the fill colour keeps the new radius and the ring.
- `fill` writes no cell.
- `update` fills local arrays and never `color_array`, so `fill` searches the colour grid the
  canvas was built with.
- `set_brightness` fills `brightness_array`, which `update` never reads.

`check_collision` is transcribed literally as a list of tags. `fill` may start at a negative
coordinate down to `-width` or `-height`: Python's indexing wraps the start cell onto the grid, and
the model does the same through `Wrap`. Any other start raises `IndexError`.

## Model

| member | source | states |
|---|---|---|
| Colors.Resolve | neomatrix.py:24-33 | a triple passes through unchanged; `""` and only `""` gives no colour; a palette name in any letter case gives its palette triple; an error arises only for a non-empty string that is no palette name |
| Colors.HexToRgbOfHex6 | neomatrix.py:21-22 | six hex digits parse to the triple of their three two-digit fields |
| Colors.ResolveHex6 | neomatrix.py:21-31 | a six-hex-digit string resolves to the three field values, and each channel lies in 0..255 |
| Colors.HexRoundTrip | neomatrix.py:21-31 | writing a byte triple as six hex digits and resolving the text gives the triple back |
| Colors.ResolveIgnoresCase | neomatrix.py:26 | two strings equal up to letter case resolve alike |
| Colors.HexDigitsAreNotPaletteNames | neomatrix.py:9-19 | no palette name is all hex digits, so the palette lookup never shadows a hex colour |
| Colors.SignedFieldAccepted | neomatrix.py:22 | `int(_, 16)` accepts a sign, so `"-f00ff"` resolves to (-15, 0, 255) and not to an error |
| Colors.ToHex | neomatrix.py:21-22 | no counterpart in the source: the inverse of `hex_to_rgb` on byte triples, written for HexRoundTrip; the spelling of a byte triple is six hex digits |
| Colors.FieldWhitespace | neomatrix.py:22 | `int(_, 16)` ignores ASCII whitespace around a field, so `" f0000"` resolves to (15, 0, 0) |
| Colors.NoBreakSpaceKept | neomatrix.py:22 | a no-break space is not whitespace to MicroPython's `int`, so `"\u00a0f0000"` is an error |
| Lines.LinePixels | neomatrix.py:141-163 | the pixel list starts at (0,0) and ends at (x1,y1), which it reaches only at the end; it has max(abs x1, abs y1)+1 pixels; each pixel is one king's step on from the previous one, towards the end point; all pixels stay within the bounding box; along the longer axis the i-th pixel is i steps out; an axis line with non-negative length is exactly (0,0),(1,0),… or (0,0),(0,1),…; every pixel has the line's colour and brightness |
| Lines.LoopEnd | neomatrix.py:153-156 | when the walk reaches (x1,y1), the pixels appended so far, plus the final one, have all of the properties LinePixels promises |
| Lines.LoopStep | neomatrix.py:157-163 | one error-term step keeps the walk's invariant, and it moves strictly nearer the end point |
| Lines.WalkStep | neomatrix.py:157-163 | each step moves along at least one axis, and always along the longer one; the error term keeps the value the position determines |
| Circles.RingPixels | neomatrix.py:187-207 | for r ≥ 1 the ring begins (r,0),(0,r),(-r,0),(0,-r); it is made of quarter-turn orbits of four pixels; it lies in the square [-r,r]²; every column 0..r has a pixel on or above the x axis; every pixel (a,b) lies near the circle, abs(a²+b²−r²) < abs a + abs b ≤ 2r; every pixel has the outline colour |
| Circles.RingStep | neomatrix.py:199-207 | one step of the midpoint loop keeps the ring invariant, and it strictly shrinks the distance left to walk |
| Circles.QuadsRotationClosed | neomatrix.py:195-198 | the ring is closed under the quarter turn (a,b) ↦ (-b,a) |
| Circles.LowestAtMeaning | neomatrix.py:209-212 | the smallest non-negative y in a column exists exactly when some pixel stands there on or above the axis; it is attained, and no such pixel is lower |
| Circles.LowestTable | neomatrix.py:209-212 | the `min_y` table has r+1 entries, and entry c is the lowest ring pixel in column c |
| Circles.FillColumnMembers | neomatrix.py:214-218 | the fill of column c with height h has 4h pixels, all in column ±c with abs y < h, and it covers every such position |
| Circles.FillColumnsSound | neomatrix.py:213-218 | every fill pixel lies strictly inside its column's lowest ring pixel and has the fill colour |
| Circles.FillColumnsComplete | neomatrix.py:213-218 | every position (a,b) with abs a < n and abs b below column abs a's height is filled |
| Circles.ColumnZeroTop | neomatrix.py:209-214 | the lowest ring pixel of column 0 is at height r, so a circle with r ≥ 1 and a fill colour always emits fill pixels |
| Circles.SquareBand | neomatrix.py:187-207 | the only ring height on the y axis is r itself: v ≥ 0 with abs(v²−r²) < v is v = r |
| Circles.FillPixels | neomatrix.py:213-218 | when the fill colour resolves, the nested fill loops emit exactly the column-by-column fill of the heights table in that colour; when it does not, they fail with its error at the first fill pixel, so exactly when some column has a positive height, and emit nothing |
| Circles.CirclePixels | neomatrix.py:185-218 | fails exactly when r ≥ 1 and a fill colour is given that does not resolve, and then the pixels are the ring; otherwise CircleImage: r ≤ 0 gives no pixels; the pixels start with a ring; without a fill colour they are that ring; with one, the table is defined on every column 0..r, and the rest is exactly the fill, in the resolved fill colour, of the positions inside the ring for columns abs x < r |
| Rectangles.RectanglePixels | neomatrix.py:239-274 | the outline is the bottom/top pairs followed by the left/right pairs; with a fill colour that resolves, the interior rows follow in that colour; a fill colour that does not resolve fails exactly when there is an interior (w, h ≥ 3), and leaves the outline |
| Rectangles.StrokeIsBorder | neomatrix.py:261-270 | every stroke pixel lies on the border of [0,w)×[0,h), every border cell is stroked, and all have the outline colour |
| Rectangles.StrokeOnce | neomatrix.py:261-270 | for w,h ≥ 2 no cell is stroked twice, and the stroke has 2w+2h-4 pixels |
| Rectangles.NineByFive | neomatrix.py:240-249 | the 9×5 rectangle pictured in the comment has 24 distinct stroke pixels |
| Rectangles.InteriorIsInside | neomatrix.py:271-274 | for w,h ≥ 2 the fill has (w-2)(h-2) distinct pixels; each lies strictly inside the box, and every inside cell is filled |
| Rectangles.RimFacts | neomatrix.py:261-265 | the bottom/top loop gives 2n pixels, on rows 0 and h-1 in columns 0..n-1; it covers both rows; it is distinct when h ≥ 2 |
| Rectangles.SidesFacts | neomatrix.py:266-270 | the left/right loop gives 2n pixels in columns 0 and w-1 on rows 1..n; it covers both columns; it is distinct when w ≥ 2 |
| Sprites.ReadUpToMeaning | neomatrix.py:307-325 | reading a prefix succeeds exactly when every ink character in it has a colour. On failure, the error is that of the first ink character whose colour fails (missing from the map or not resolving). On success: one pixel per ink character, in order, at its column and at row count('\n')-2 minus the newlines before it; x is the current column; max_x is the longest row length seen |
| Sprites.ReadStep | neomatrix.py:316-325 | a character whose colour (if it is ink) resolves moves the reading one place on: the state stays at the character's column and row, with one pixel per ink character so far and max_x the longest row |
| Sprites.ReadFrame | neomatrix.py:307-326 | the character loop computes the frame that FrameOf specifies |
| Sprites.FrameOfMeaning | neomatrix.py:307-326 | when every ink character is mapped, the frame has one pixel per ink character at its place, its max_y is count('\n')-2, and its max_x is the longest row |
| Sprites.FrameOfFails | neomatrix.py:322 | otherwise the frame fails with the error of the first ink character whose colour fails |
| Sprites.SpriteFrames | neomatrix.py:300-305 | a successful read has one frame per text; no texts is an IndexError |
| Sprites.FramesUpToLength | neomatrix.py:300-302 | the frames read so far are, in order, the frames of the texts |
| Sprites.ReadFrames | neomatrix.py:300-304 | the loop over the texts computes SpriteFrames |
| Sprites.NextIndex | neomatrix.py:329-331 | the next index is a valid frame index |
| Sprites.AdvanceAdd | neomatrix.py:328-331 | advancing a+b times is advancing a times and then b times |
| Sprites.AdvanceCounts | neomatrix.py:328-331 | before the wrap, k advances add k |
| Sprites.CycleReturns | neomatrix.py:328-331 | from any frame, as many advances as there are frames come back to the same frame |
| Sprites.GroupPixels | neomatrix.py:278-291 | the group's pixels are its members' pixels shifted by the running offset; max_x is the final offset; max_y is the tallest member's, floored at 0 |
| Sprites.LaidSideBySide | neomatrix.py:282-286 | when every member has max_x >= -1 and its pixels in columns 0..max_x: the group has as many pixels as its members together; the i-th pixel of member m sits at its own x plus member m's offset; every pixel's x lies in [0, final offset) |
| Sprites.OffsetGrows | neomatrix.py:286 | when every member has max_x >= -1, the running offset never decreases |
| Sprites.ReadUpToFits | neomatrix.py:307-325 | while reading, every pixel's column is below the longest row seen, and x and max_x stay non-negative |
| Sprites.FrameOfFits | neomatrix.py:307-326 | every frame read from text keeps its pixels in columns 0..max_x-1, so it fits the hypothesis of LaidSideBySide |
| Sprites.SpriteFramesFit | neomatrix.py:300-305 | so does every frame of a successfully read sprite |
| Shapes.Translate | neomatrix.py:67-94 | moving a box keeps its width and height |
| Shapes.TranslateBack | neomatrix.py:87-94 | `move(dx,dy)` followed by `move(-dx,-dy)` restores the box |
| Shapes.TranslateTwice | neomatrix.py:87-94 | two moves compose into one |
| Shapes.CollisionMeaning | neomatrix.py:109-119 | RIGHT exactly when the other's min_x lies in this box's columns; LEFT exactly when the other's max_x is at or right of both of this box's edges; TOP and BOTTOM compare one edge each |
| Shapes.CollisionWithItself | neomatrix.py:109-119 | a well-formed box collides with itself on all four tags, in order |
| Shapes.CollisionMovesAlong | neomatrix.py:109-119 | moving both boxes by the same delta changes no tag |
| Shapes.TopAndBottom | neomatrix.py:115-118 | TOP and BOTTOM together hold exactly when the boxes share a row |
| Shapes.SharedColumnsMissed | neomatrix.py:111-114 | boxes that share a column report neither RIGHT nor LEFT exactly when the other box sticks out on the left only |
| Shapes.CollisionOneSided | neomatrix.py:111-114 | the test is not symmetric, and LEFT is reported for boxes with no column in common |
| Shapes.Recolored | neomatrix.py:96-98 | recolouring keeps every position and brightness and sets every colour |
| Shapes.RecolorAll | neomatrix.py:97-98 | the loop over the pixels computes Recolored |
| Shapes.RecoloredTwice | neomatrix.py:96-98 | recolouring twice is recolouring with the second colour |
| Shapes.Shape.Point | neomatrix.py:121-128 | one pixel at the origin, and the box is the point itself |
| Shapes.Shape.Line | neomatrix.py:130-139 | the box is (x,y,end_x,end_y); the pixels are the Bresenham walk from (0,0) to the end offset, with the stated length, steps and colour |
| Shapes.Shape.HLine | neomatrix.py:165-167 | a line to (x+length, y); for length ≥ 0 the pixels are exactly (0,0)…(length,0) |
| Shapes.Shape.VLine | neomatrix.py:169-171 | a line to (x, y+length); for length ≥ 0 the pixels are exactly (0,0)…(0,length) |
| Shapes.Shape.Circle | neomatrix.py:174-178 | Object's fields and box (-1,-1,-1,-1), no pixels yet, and the radius and fill colour stored as given |
| Shapes.Shape.CircleCalc | neomatrix.py:185-218 | fails exactly when r ≥ 1 and the fill colour does not resolve, leaving the ring in pixels; otherwise the pixels are CircleImage of the radius, the object's colour and brightness and the fill; nothing else changes |
| Shapes.Shape.MakeCircle | neomatrix.py:174-183 | construction fails exactly as _calc does; a new circle has the given fields, the box r around the centre, and CircleImage pixels |
| Shapes.Shape.Rectangle | neomatrix.py:231-236 | Object's fields and box (-1,-1,-1,-1), no pixels yet, and width, height and fill colour stored as given |
| Shapes.Shape.RectangleCalc | neomatrix.py:239-274 | the box becomes the local (0,0,w-1,h-1); the pixels are the stroke, followed by the interior in the resolved fill colour; an unresolvable fill colour fails exactly when w, h ≥ 3 and leaves the stroke |
| Shapes.Shape.MakeRectangle | neomatrix.py:231-237 | construction fails exactly as _calc does; a new rectangle has the given fields, the local box, and the stroke and interior pixels |
| Shapes.Shape.Group | neomatrix.py:276-291 | the members' pixels laid side by side; the box is (0,0, final offset, tallest); when every member fits its own box, the LaidSideBySide facts hold of the group |
| Shapes.SpritePartFits | neomatrix.py:328-334 | a sprite whose box still has the max_x of the frame it shows, as its constructor and next_image leave it, fits its box as a group member whenever that frame fits |
| Shapes.Shape.Sprite | neomatrix.py:293-305 | shows frame 0; the box takes that frame's max_x and max_y, and keeps -1 for min_x and min_y |
| Shapes.Shape.SetX | neomatrix.py:67-73 | the new x, and the box translated by the delta; nothing else changes |
| Shapes.Shape.SetY | neomatrix.py:79-85 | the new y, and the box translated by the delta; nothing else changes |
| Shapes.Shape.Move | neomatrix.py:87-94 | position and box move by (dx,dy); nothing else changes |
| Shapes.Shape.SetColor | neomatrix.py:96-99 | fails exactly when the colour does not resolve and there is a pixel to recolour; otherwise every pixel, including the sprite frame on show, takes the colour; nothing else changes |
| Shapes.Shape.Hide | neomatrix.py:101-103 | not visible; nothing else changes |
| Shapes.Shape.Show | neomatrix.py:105-107 | visible; nothing else changes |
| Shapes.Shape.SetRadius | neomatrix.py:225-228 | the new radius is stored even when recomputing fails; the result fails exactly as _calc does, leaving the ring; otherwise the pixels are CircleImage of the new radius; the box stays as it was |
| Shapes.Shape.NextImage | neomatrix.py:328-335 | the index advances cyclically; the pixels and max_x, max_y are the new frame's; min_x, min_y and the rest are unchanged |
| Shapes.Shape.CheckCollision | neomatrix.py:109-119 | the tags are Collision of the two boxes, so RIGHT, LEFT, TOP, BOTTOM in that order and each at most once; at most four tags, each present exactly when its comparison holds |
| Compositing.PaintLast | neomatrix.py:375-380 | within one shape, the last pixel that lands on a cell decides it |
| Compositing.PaintMisses | neomatrix.py:375-380 | a shape none of whose pixels land on a cell leaves it unchanged |
| Compositing.ComposeLastWriter | neomatrix.py:373-380 | a cell takes the colour and brightness of the last visible pixel landing on it, in shape-then-pixel order |
| Compositing.ComposeUntouched | neomatrix.py:371-372 | a cell no visible pixel lands on stays (0,0,0) at brightness 0 |
| Compositing.HiddenIgnored | neomatrix.py:374 | removing the hidden shapes does not change any cell |
| Compositing.Shown | neomatrix.py:374 | the shapes kept are all visible |
| Compositing.PhysicalIndexInverse | neomatrix.py:383-386 | the serpentine index of a grid cell lies in [0,w*h), and decoding it gives the cell back |
| Compositing.CellAtInverse | neomatrix.py:383-386 | every index in [0,w*h) decodes to a grid cell whose serpentine index is that index |
| Compositing.PhysicalIndexInjective | neomatrix.py:383-386 | distinct cells get distinct LEDs |
| Compositing.RoundDiv100Nearest | neomatrix.py:388-390 | the result is within half of n/100; a tie goes to the even neighbour; and it is the unique integer nearer than a half |
| Compositing.ScaleBounds | neomatrix.py:388-390 | a byte channel at brightness 0..100 stays in 0..c; at 100 it is kept, at 0 it goes dark |
| Compositing.Led | neomatrix.py:387-390 | a cell whose colour is None is a TypeError, and only such a cell is |
| Compositing.BlankIsDark | neomatrix.py:371-372 | an untouched cell lights its LED (0,0,0) |
| Compositing.WrittenOk | neomatrix.py:381-390 | the scan reaches position k without failing exactly when all cells before k resolve |
| Compositing.WrittenShows | neomatrix.py:381-390 | after the scan, each LED of every scanned cell shows that cell's composited, scaled colour |
| Compositing.Frame | neomatrix.py:370-390 | a frame is written exactly when every grid cell resolves, and then every cell's serpentine LED shows it |
| FloodFill.ClosedCoversUniform | neomatrix.py:420-450 | on a uniform grid, a set of cells closed under same-coloured neighbours that contains one cell is the whole grid |
| FloodFill.CellsCount | neomatrix.py:408 | the grid has w·h cells |
| FloodFill.DistinctCount | neomatrix.py:433-450 | a list without repeats has as many elements as its set |
| FloodFill.SearchDone | neomatrix.py:420-450 | when the queue is empty: the visit order repeats no cell; each later cell neighbours an earlier one; the visited set is closed; on a uniform grid it has w·h cells |
| Matrix.RemoveFirstCount | neomatrix.py:363 | `list.remove` takes out exactly one occurrence |
| Matrix.RemoveUndoesAdd | neomatrix.py:352-363 | removing a shape just appended, and not there before, restores the list |
| Matrix.FirstIndex | neomatrix.py:363 | the index found is that of the first occurrence |
| Matrix.Canvas.constructor | neomatrix.py:338-346 | no shapes, all LEDs dark, every colour black and every brightness 10 |
| Matrix.Canvas.ValidCoord | neomatrix.py:400-401 | true exactly on the grid, and then the serpentine index is in range |
| Matrix.Canvas.Draw | neomatrix.py:371-380 | the drawing arrays hold, in every cell, the composition of all the shapes |
| Matrix.Canvas.Blit | neomatrix.py:375-380 | drawing one shape paints its pixels over the previous cells |
| Matrix.Canvas.Update | neomatrix.py:370-390 | the LEDs become the written frame, and the result fails with TypeError exactly when some cell's colour is None |
| Matrix.Canvas.LightRow | neomatrix.py:382-390 | one row of the scan advances the written frame by a row, or fails as the whole scan does |
| Matrix.Canvas.Add | neomatrix.py:352-360 | the shape is appended; with autoupdate the LEDs are refreshed, and otherwise left alone |
| Matrix.Canvas.AddAll | neomatrix.py:353-356 | the shapes are appended in order; with autoupdate the LEDs are refreshed |
| Matrix.Canvas.Remove | neomatrix.py:362-364 | an absent shape is a ValueError and nothing changes; otherwise its first occurrence goes and the LEDs refresh with autoupdate |
| Matrix.Canvas.RemoveAll | neomatrix.py:366-368 | no shapes are left, and with autoupdate the LEDs show an empty frame |
| Matrix.Canvas.SetBrightness | neomatrix.py:394-398 | every brightness cell takes the value; the shapes are unchanged |
| Matrix.Canvas.Look | neomatrix.py:433-450 | one neighbour test: the cell is queued exactly when it is on the grid, unvisited and the same colour as the popped cell |
| Matrix.Canvas.LookTwice | neomatrix.py:433-450 | two neighbour tests in a row keep the search invariants, and both neighbours are dealt with |
| Matrix.Canvas.Expand | neomatrix.py:432-450 | the four neighbour tests leave the popped cell settled and the search invariants kept |
| Matrix.Canvas.ExpandVertically | neomatrix.py:442-450 | the up and down tests finish settling a cell whose left and right neighbours are dealt with |
| Matrix.Canvas.Visit | neomatrix.py:421-450 | one round of the loop pops the head of the queue, keeps the search invariants, settles one more cell, and either marks more cells or shortens the queue, which makes the loop terminate |
| Matrix.Canvas.Search | neomatrix.py:407-450 | the breadth-first search starts at the start cell; it terminates; every visited cell is enqueued once, has the start's colour and neighbours an earlier one; the visited set is closed, and on a uniform grid it is all w·h cells |
| Matrix.Canvas.Fill | neomatrix.py:405-450 | an unresolvable colour and a start off the indexable range are errors; otherwise the visit order has the Search properties, and the colour grid is not written |

## Left out

- The NeoPixel, Pin, Timer and time imports, the driver object and `leds.write()` are hardware.
  The frame is modelled as the sequence `leds` of `width * height` triples, and it starts dark.
- Floating point is not modelled:
  - positions, radii and brightness percents are integers;
  - `math.floor` of a position is the identity;
  - the default brightness 1.0 is not modelled;
  - the circle branch for 0 < r < 1 cannot arise with an integer radius.
- Compositing.RoundDiv100Nearest: Python's `round(c*b/100)` is modelled on the exact rational
  value of `c*b/100`. For channels 0..255 at brightness 0..100 the product is small enough that
  the quotient's ties are exact in binary floating point, so the two agree there. They can
  differ only for much larger products.
- The `canvas` back-reference of each object and `_autoupdate` calls from shapes are left out,
  because they only re-run `update`. The canvas's own operations honour `autoupdate`.
- `check_collision`'s message text carries the compared numbers. The tags here carry none.
- Python object aliasing is not modelled: `SpriteGroup` shifts its members' own Pixel objects, and
  a sprite shares its frame's pixel list. Both are value copies here, so a group leaves its
  members unchanged.
- Shapes.Shape constructors take the outline colour already resolved. `Object.__init__`
  resolves it first, before anything else is computed, so its failure is that of
  `Colors.Resolve` alone. The fill colour is kept unresolved and resolved at each fill pixel.
- Strings follow MicroPython: `lower()` changes only ASCII letters, and `int()` accepts only
  ASCII digits and strips only ASCII whitespace.
- Colors.ParseHexField follows CPython, not MicroPython, for underscores: an underscore is
  allowed only between two digits, so no two-character field holding one is a valid numeral.
  MicroPython's parser skips an underscore after a digit, so there `"f_"` reads as 15 and a
  colour such as `"f_0000"` resolves instead of failing.
- Shapes.Shape.Sprite takes frames already read. `Sprites.ReadFrames` reads them, and it fails
  with IndexError for no texts, as `next_image` would.
- Matrix.Canvas.constructor requires non-negative dimensions. With a negative one, Python builds
  empty arrays while the driver gets a product that may be positive.
- `get_color_tuple`'s fall-through for values that are neither strings nor tuples cannot arise
  with the typed `ColorSpec`.
- Matrix.Canvas.Fill returns the visit order, the cells the commented-out `draw_point` would have
  painted, instead of nothing. Its `brightness` argument is unused, as in the source.
