/** What Canvas.update computes: painter's-order compositing, the serpentine wiring, the scaling. */
module Compositing {
  import opened Base
  import opened Colors
  import opened Pixels

  /** What update reads of an object: its position, its visibility and its pixels. */
  datatype View = View(x: int, y: int, visible: bool, pixels: seq<Pixel>)

  /** One cell of update's colour and brightness grids. */
  datatype Cell = Cell(color: Option<Rgb>, brightness: int)

  /** A cell no pixel reaches: black at brightness 0. */
  const Blank := Cell(Some(Black), 0)

  function CellOfPixel(p: Pixel): Cell { Cell(p.color, p.brightness) }

  /** Pixel p of an object at (vx, vy) lands on canvas cell (cx, cy). */
  predicate Lands(vx: int, vy: int, p: Pixel, cx: int, cy: int) {
    p.x + vx == cx && p.y + vy == cy
  }

  /** Cell (cx, cy) after the first k pixels of an object at (vx, vy) were written over c. */
  function Paint(c: Cell, vx: int, vy: int, ps: seq<Pixel>, k: nat, cx: int, cy: int): Cell
    requires k <= |ps|
  {
    if k == 0 then c
    else if Lands(vx, vy, ps[k - 1], cx, cy) then CellOfPixel(ps[k - 1])
    else Paint(c, vx, vy, ps, k - 1, cx, cy)
  }

  /** Cell (cx, cy) after the first n objects were drawn, hidden ones skipped. */
  function Compose(views: seq<View>, n: nat, cx: int, cy: int): Cell
    requires n <= |views|
  {
    if n == 0 then Blank
    else
      var c := Compose(views, n - 1, cx, cy);
      var v := views[n - 1];
      if v.visible then Paint(c, v.x, v.y, v.pixels, |v.pixels|, cx, cy) else c
  }

  /** Pixel j of object i is shown and lands on (cx, cy). */
  predicate Hits(views: seq<View>, i: int, j: int, cx: int, cy: int) {
    && 0 <= i < |views| && views[i].visible && 0 <= j < |views[i].pixels|
    && Lands(views[i].x, views[i].y, views[i].pixels[j], cx, cy)
  }

  /** (i', j') comes after (i, j) in drawing order. */
  predicate After(i: int, j: int, i': int, j': int) { i' > i || (i' == i && j' > j) }

  /** Among the first k pixels, pixel j is the last one to land on (cx, cy). */
  lemma {:induction false} PaintLast(c: Cell, vx: int, vy: int, ps: seq<Pixel>, k: nat, cx: int, cy: int, j: nat)
    requires j < k <= |ps| && Lands(vx, vy, ps[j], cx, cy)
    requires forall j' :: j < j' < k ==> !Lands(vx, vy, ps[j'], cx, cy)
    ensures Paint(c, vx, vy, ps, k, cx, cy) == CellOfPixel(ps[j])
  {
    if j < k - 1 {
      PaintLast(c, vx, vy, ps, k - 1, cx, cy, j);
    }
  }

  /** No pixel among the first k lands on (cx, cy): the cell is left as it was. */
  lemma {:induction false} PaintMisses(c: Cell, vx: int, vy: int, ps: seq<Pixel>, k: nat, cx: int, cy: int)
    requires k <= |ps|
    requires forall j :: 0 <= j < k ==> !Lands(vx, vy, ps[j], cx, cy)
    ensures Paint(c, vx, vy, ps, k, cx, cy) == c
  {
    if k > 0 {
      PaintMisses(c, vx, vy, ps, k - 1, cx, cy);
    }
  }

  /** A cell no shown pixel reaches stays blank. */
  lemma {:induction false} ComposeUntouched(views: seq<View>, n: nat, cx: int, cy: int)
    requires n <= |views|
    requires forall i, j :: 0 <= i < n ==> !Hits(views, i, j, cx, cy)
    ensures Compose(views, n, cx, cy) == Blank
  {
    if n > 0 {
      ComposeUntouched(views, n - 1, cx, cy);
      var v := views[n - 1];
      if v.visible {
        forall j | 0 <= j < |v.pixels|
          ensures !Lands(v.x, v.y, v.pixels[j], cx, cy)
        {
          assert !Hits(views, n - 1, j, cx, cy);
        }
        PaintMisses(Compose(views, n - 1, cx, cy), v.x, v.y, v.pixels, |v.pixels|, cx, cy);
      }
    }
  }

  /** The cell shows the last shown pixel, in drawing order, that lands on it. */
  lemma {:induction false} ComposeLastWriter(views: seq<View>, n: nat, cx: int, cy: int, i: int, j: int)
    requires n <= |views| && i < n && Hits(views, i, j, cx, cy)
    requires forall i', j' :: i' < n && After(i, j, i', j') ==> !Hits(views, i', j', cx, cy)
    ensures Compose(views, n, cx, cy) == CellOfPixel(views[i].pixels[j])
  {
    var v := views[n - 1];
    if i == n - 1 {
      forall j' | j < j' < |v.pixels|
        ensures !Lands(v.x, v.y, v.pixels[j'], cx, cy)
      {
        assert After(i, j, i, j') && !Hits(views, i, j', cx, cy);
      }
      PaintLast(Compose(views, n - 1, cx, cy), v.x, v.y, v.pixels, |v.pixels|, cx, cy, j);
    } else {
      ComposeLastWriter(views, n - 1, cx, cy, i, j);
      if v.visible {
        forall j' | 0 <= j' < |v.pixels|
          ensures !Lands(v.x, v.y, v.pixels[j'], cx, cy)
        {
          assert After(i, j, n - 1, j') && !Hits(views, n - 1, j', cx, cy);
        }
        PaintMisses(Compose(views, n - 1, cx, cy), v.x, v.y, v.pixels, |v.pixels|, cx, cy);
      }
    }
  }

  /** The shown objects, in order. */
  function Shown(views: seq<View>): (vs: seq<View>)
    ensures |vs| <= |views|
    ensures forall k :: 0 <= k < |vs| ==> vs[k].visible
  {
    if |views| == 0 then []
    else if views[|views| - 1].visible then Shown(views[..|views| - 1]) + [views[|views| - 1]]
    else Shown(views[..|views| - 1])
  }

  /** Hidden objects do not matter: composing only the shown ones gives the same cell. */
  lemma {:induction false} HiddenIgnored(views: seq<View>, cx: int, cy: int)
    ensures Compose(Shown(views), |Shown(views)|, cx, cy) == Compose(views, |views|, cx, cy)
  {
    if |views| > 0 {
      var front := views[..|views| - 1];
      HiddenIgnored(front, cx, cy);
      PrefixCompose(views, |views| - 1, cx, cy);
      var s := Shown(front);
      if views[|views| - 1].visible {
        PrefixCompose(s + [views[|views| - 1]], |s|, cx, cy);
        assert (s + [views[|views| - 1]])[..|s|] == s;
      }
    }
  }

  /** Composing the first n objects only looks at the first n objects. */
  lemma {:induction false} PrefixCompose(views: seq<View>, n: nat, cx: int, cy: int)
    requires n <= |views|
    ensures Compose(views[..n], n, cx, cy) == Compose(views, n, cx, cy)
    decreases n
  {
    if n > 0 {
      PrefixCompose(views, n - 1, cx, cy);
      PrefixCompose(views[..n], n - 1, cx, cy);
      assert views[..n][..n - 1] == views[..n - 1];
    }
  }

  /**
    * The LED index of cell (x, y): rows are wired alternately, even rows left to right and
    * odd rows right to left.
    */
  function PhysicalIndex(x: int, y: int, w: int): int {
    if y % 2 == 0 then y * w + x else y * w + (w - 1) - x
  }

  /** The cell an LED index belongs to. */
  function CellAt(i: int, w: int): (int, int)
    requires w > 0
  {
    var y := i / w;
    var r := i % w;
    if y % 2 == 0 then (r, y) else (w - 1 - r, y)
  }

  predicate OnGrid(x: int, y: int, w: int, h: int) { 0 <= x < w && 0 <= y < h }

  lemma {:induction false} MulLess(a: int, b: int, c: int)
    requires 0 <= c && a < b
    ensures a * c <= b * c - c
    decreases b - a
  {
    MulSucc(c, b - 1);
    if a < b - 1 {
      MulLess(a, b - 1, c);
    }
  }

  /** Row y < h of a w-wide grid starts at y * w and ends at most at w * h. */
  lemma RowEnd(y: int, h: int, w: int)
    requires 0 <= w && 0 <= y < h
    ensures y * w + w <= w * h && (y + 1) * w == y * w + w
  {
    MulLess(y, h, w);
  }

  lemma MulNonneg(a: int, b: int)
    requires 0 <= a && 0 <= b
    ensures 0 <= a * b
  {
  }

  /** Euclidean division of q * w + r by w, for 0 <= r < w, gives back q and r. */
  lemma DivModUnique(i: int, w: int, q: int, r: int)
    requires w > 0 && 0 <= r < w && i == q * w + r
    ensures i / w == q && i % w == r
  {
    var q', r' := i / w, i % w;
    assert i == q' * w + r';
    if q' < q {
      MulLess(q', q, w);
      assert false;
    } else if q < q' {
      MulLess(q, q', w);
      assert false;
    }
  }

  /** Every cell of a w x h grid has an LED index below w * h, and CellAt finds the cell again. */
  lemma PhysicalIndexInverse(x: int, y: int, w: int, h: int)
    requires OnGrid(x, y, w, h)
    ensures 0 <= PhysicalIndex(x, y, w) < w * h
    ensures CellAt(PhysicalIndex(x, y, w), w) == (x, y)
  {
    var i := PhysicalIndex(x, y, w);
    var r := if y % 2 == 0 then x else w - 1 - x;
    assert i == y * w + r;
    DivModUnique(i, w, y, r);
    MulLess(y, h, w);
    assert h * w == w * h;
  }

  /** Every LED index below w * h belongs to a cell of the grid whose index it is. */
  lemma CellAtInverse(i: int, w: int, h: int)
    requires w > 0 && 0 <= i < w * h
    ensures OnGrid(CellAt(i, w).0, CellAt(i, w).1, w, h)
    ensures PhysicalIndex(CellAt(i, w).0, CellAt(i, w).1, w) == i
  {
    var y := i / w;
    if y >= h {
      MulLess(h - 1, y, w);
      MulSucc(w, h - 1);
      assert false;
    }
    if y < 0 {
      MulLess(y, 0, w);
      assert false;
    }
  }

  /** Two cells of the grid never share an LED. */
  lemma PhysicalIndexInjective(x: int, y: int, x': int, y': int, w: int, h: int)
    requires OnGrid(x, y, w, h) && OnGrid(x', y', w, h)
    requires PhysicalIndex(x, y, w) == PhysicalIndex(x', y', w)
    ensures x == x' && y == y'
  {
    PhysicalIndexInverse(x, y, w, h);
    PhysicalIndexInverse(x', y', w, h);
  }

  /** Python's round(n / 100): to the nearest integer, halves to the even one. */
  function RoundDiv100(n: int): int {
    var q := n / 100;
    var r := n % 100;
    if r < 50 then q
    else if r > 50 then q + 1
    else if q % 2 == 0 then q
    else q + 1
  }

  /** The result is the nearest integer to n / 100, and an even one on a tie. */
  lemma RoundDiv100Nearest(n: int)
    ensures -50 <= 100 * RoundDiv100(n) - n <= 50
    ensures (100 * RoundDiv100(n) - n == 50 || 100 * RoundDiv100(n) - n == -50) ==> RoundDiv100(n) % 2 == 0
    ensures forall m :: -50 < 100 * m - n < 50 ==> RoundDiv100(n) == m
  {
  }

  /** One channel value c shown at brightness b (a percentage). */
  function Scale(c: int, b: int): int { RoundDiv100(c * b) }

  /** A byte channel at a brightness from 0 to 100 stays a byte; 100 keeps it, 0 turns it off. */
  lemma ScaleBounds(c: int, b: int)
    requires 0 <= c < 256 && 0 <= b <= 100
    ensures 0 <= Scale(c, b) <= c
    ensures b == 100 ==> Scale(c, b) == c
    ensures b == 0 ==> Scale(c, b) == 0
  {
    var n := c * b;
    RoundDiv100Nearest(n);
    MulNonneg(c, b);
    MulNonneg(c, 100 - b);
    assert n + c * (100 - b) == c * 100;
  }

  /** The LED value of a cell; a cell whose colour is None cannot be indexed. */
  function Led(c: Cell): (res: Result<Rgb>)
    ensures res.Err? <==> c.color.None?
    ensures res.Err? ==> res.error == TypeError
  {
    match c.color
    case None => Err(TypeError)
    case Some(rgb) => Ok(Rgb(Scale(rgb.r, c.brightness), Scale(rgb.g, c.brightness), Scale(rgb.b, c.brightness)))
  }

  /** A blank cell drives its LED dark. */
  lemma BlankIsDark()
    ensures Led(Blank) == Ok(Black)
  {
  }

  /** The cell update writes k-th: row by row from the bottom, each row left to right. */
  function ScanCell(k: int, w: int): (int, int) {
    if w <= 0 then (k, 0) else (k % w, k / w)
  }

  /** The k-th cell of the scan of a w x h grid lies on the grid. */
  lemma ScanCellOnGrid(k: int, w: int, h: int)
    requires 0 <= w && 0 <= h && 0 <= k < w * h
    ensures w > 0 && OnGrid(ScanCell(k, w).0, ScanCell(k, w).1, w, h)
  {
    var y := k / w;
    if y >= h {
      MulLess(h - 1, y, w);
      MulSucc(w, h - 1);
      assert false;
    }
    if y < 0 {
      MulLess(y, 0, w);
      assert false;
    }
  }

  /** Cell (x, y) is scanned at position y * w + x, which is below w * h. */
  lemma ScanPosition(x: int, y: int, w: int, h: int)
    requires OnGrid(x, y, w, h)
    ensures 0 <= y * w + x < w * h && ScanCell(y * w + x, w) == (x, y)
  {
    DivModUnique(y * w + x, w, y, x);
    MulLess(y, h, w);
    assert h * w == w * h;
  }

  /** Different scan positions are different cells. */
  lemma ScanCellInjective(j: int, k: int, w: int)
    requires w > 0 && 0 <= j && 0 <= k && ScanCell(j, w) == ScanCell(k, w)
    ensures j == k
  {
    assert j == (j / w) * w + j % w;
    assert k == (k / w) * w + k % w;
  }

  /** The LED value update computes for cell (x, y). */
  function CellLed(views: seq<View>, x: int, y: int): Result<Rgb> {
    Led(Compose(views, |views|, x, y))
  }

  /** The k-th scanned cell has a colour. */
  predicate ScanOk(views: seq<View>, w: int, k: int) {
    CellLed(views, ScanCell(k, w).0, ScanCell(k, w).1).Ok?
  }

  /** The LED of cell (x, y) holds that cell's value. */
  predicate ShowsAt(leds: seq<Rgb>, views: seq<View>, w: int, x: int, y: int) {
    var i := PhysicalIndex(x, y, w);
    0 <= i < |leds| && CellLed(views, x, y).Ok? && leds[i] == CellLed(views, x, y).value
  }

  /** The LED of the k-th scanned cell holds that cell's value. */
  predicate ShowsCell(leds: seq<Rgb>, views: seq<View>, w: int, k: int) {
    ShowsAt(leds, views, w, ScanCell(k, w).0, ScanCell(k, w).1)
  }

  /** The LEDs after a scan, and whether it stopped at a cell whose colour is None. */
  datatype Scan = Scan(leds: seq<Rgb>, failed: bool)

  /** The first k steps of update's second loop, from the LEDs before. */
  function Written(before: seq<Rgb>, views: seq<View>, w: int, h: int, k: nat): (s: Scan)
    requires 0 <= w && 0 <= h && |before| == w * h && k <= w * h
    ensures |s.leds| == |before|
  {
    if k == 0 then Scan(before, false)
    else
      var s := Written(before, views, w, h, k - 1);
      var cell := ScanCell(k - 1, w);
      var i := PhysicalIndex(cell.0, cell.1, w);
      if s.failed then s
      else if CellLed(views, cell.0, cell.1).Err? then Scan(s.leds, true)
      else if 0 <= i < |s.leds| then Scan(s.leds[i := CellLed(views, cell.0, cell.1).value], false)
      else s
  }

  /** After k steps the scan has failed exactly when one of the first k cells has colour None. */
  lemma {:induction false} WrittenOk(before: seq<Rgb>, views: seq<View>, w: int, h: int, k: nat)
    requires 0 <= w && 0 <= h && |before| == w * h && k <= w * h
    ensures !Written(before, views, w, h, k).failed <==> forall j :: 0 <= j < k ==> ScanOk(views, w, j)
  {
    if k > 0 {
      WrittenOk(before, views, w, h, k - 1);
      ScanCellOnGrid(k - 1, w, h);
      var c := ScanCell(k - 1, w);
      PhysicalIndexInverse(c.0, c.1, w, h);
      assert Written(before, views, w, h, k).failed ==
        (Written(before, views, w, h, k - 1).failed || !ScanOk(views, w, k - 1));
    }
  }

  /** Writing the LED of another cell keeps what an LED shows. */
  lemma ShowsKept(leds: seq<Rgb>, views: seq<View>, w: int, h: int, j: nat, k: nat, i: int, v: Rgb)
    requires 0 <= w && 0 <= h && j < k < w * h
    requires i == PhysicalIndex(ScanCell(k, w).0, ScanCell(k, w).1, w) && 0 <= i < |leds|
    ensures ShowsCell(leds[i := v], views, w, j) == ShowsCell(leds, views, w, j)
  {
    ScanCellOnGrid(j, w, h);
    ScanCellOnGrid(k, w, h);
    var c, d := ScanCell(j, w), ScanCell(k, w);
    if PhysicalIndex(c.0, c.1, w) == i {
      PhysicalIndexInjective(c.0, c.1, d.0, d.1, w, h);
      ScanCellInjective(j, k, w);
    }
  }

  /** A scan that has not failed shows each of the cells it went over. */
  lemma {:induction false} WrittenShows(before: seq<Rgb>, views: seq<View>, w: int, h: int, k: nat)
    requires 0 <= w && 0 <= h && |before| == w * h && k <= w * h
    ensures !Written(before, views, w, h, k).failed ==>
      forall j :: 0 <= j < k ==> ShowsCell(Written(before, views, w, h, k).leds, views, w, j)
  {
    if k > 0 && !Written(before, views, w, h, k).failed {
      WrittenShows(before, views, w, h, k - 1);
      ScanCellOnGrid(k - 1, w, h);
      var s := Written(before, views, w, h, k - 1);
      var c := ScanCell(k - 1, w);
      PhysicalIndexInverse(c.0, c.1, w, h);
      var v := CellLed(views, c.0, c.1).value;
      var t := s.leds[PhysicalIndex(c.0, c.1, w) := v];
      forall j | 0 <= j < k - 1
        ensures ShowsCell(t, views, w, j)
      {
        ShowsKept(s.leds, views, w, h, j, k - 1, PhysicalIndex(c.0, c.1, w), v);
      }
    }
  }

  /** One step of update's second loop, at the cell (x, y) scanned k-th. */
  lemma WrittenStep(before: seq<Rgb>, views: seq<View>, w: int, h: int, k: nat, x: int, y: int, c: Cell)
    requires 0 <= w && 0 <= h && |before| == w * h && OnGrid(x, y, w, h) && k == y * w + x
    requires k < w * h && 0 <= PhysicalIndex(x, y, w) < w * h
    requires !Written(before, views, w, h, k).failed && c == Compose(views, |views|, x, y)
    ensures c.color.None? ==> Written(before, views, w, h, k + 1) == Scan(Written(before, views, w, h, k).leds, true)
    ensures c.color.Some? ==> (Written(before, views, w, h, k + 1) ==
      Scan(Written(before, views, w, h, k).leds[PhysicalIndex(x, y, w) :=
        Rgb(Scale(c.color.value.r, c.brightness), Scale(c.color.value.g, c.brightness), Scale(c.color.value.b, c.brightness))], false))
  {
    ScanPosition(x, y, w, h);
    PhysicalIndexInverse(x, y, w, h);
  }

  /** A failed scan writes nothing more. */
  lemma {:induction false} WrittenFailedStays(before: seq<Rgb>, views: seq<View>, w: int, h: int, k: nat, m: nat)
    requires 0 <= w && 0 <= h && |before| == w * h && k <= m <= w * h
    requires Written(before, views, w, h, k).failed
    ensures Written(before, views, w, h, m) == Written(before, views, w, h, k)
    decreases m - k
  {
    if k < m {
      WrittenFailedStays(before, views, w, h, k, m - 1);
    }
  }

  /**
    * One step of the scan as the LED loop takes it: the cell at scan position k = y * w + x
    * either stops the whole scan, leaving the LEDs as they are, or lights its LED.
    */
  lemma ScanStep(before: seq<Rgb>, views: seq<View>, w: int, h: int, k: nat, x: int, y: int, c: Cell, leds: seq<Rgb>)
    requires 0 <= w && 0 <= h && |before| == w * h && OnGrid(x, y, w, h) && k == y * w + x && k < w * h
    requires !Written(before, views, w, h, k).failed && leds == Written(before, views, w, h, k).leds
    requires c == Compose(views, |views|, x, y)
    ensures 0 <= PhysicalIndex(x, y, w) < |leds|
    ensures c.color.None? ==> Written(before, views, w, h, w * h).failed && Written(before, views, w, h, w * h).leds == leds
    ensures c.color.Some? ==> !Written(before, views, w, h, k + 1).failed
    ensures c.color.Some? ==> (Written(before, views, w, h, k + 1).leds ==
      leds[PhysicalIndex(x, y, w) := Rgb(Scale(c.color.value.r, c.brightness), Scale(c.color.value.g, c.brightness), Scale(c.color.value.b, c.brightness))])
  {
    PhysicalIndexInverse(x, y, w, h);
    WrittenStep(before, views, w, h, k, x, y, c);
    if c.color.None? {
      WrittenFailedStays(before, views, w, h, k + 1, w * h);
    }
  }

  /**
    * A whole scan succeeds exactly when every cell's colour is set, and then every LED holds
    * its cell's scaled colour.
    */
  lemma Frame(before: seq<Rgb>, views: seq<View>, w: int, h: int)
    requires 0 <= w && 0 <= h && |before| == w * h
    ensures !Written(before, views, w, h, w * h).failed <==>
      forall x, y :: OnGrid(x, y, w, h) ==> CellLed(views, x, y).Ok?
    ensures !Written(before, views, w, h, w * h).failed ==>
      forall x, y :: OnGrid(x, y, w, h) ==> ShowsAt(Written(before, views, w, h, w * h).leds, views, w, x, y)
  {
    var s := Written(before, views, w, h, w * h);
    WrittenOk(before, views, w, h, w * h);
    WrittenShows(before, views, w, h, w * h);
    forall x, y | OnGrid(x, y, w, h)
      ensures ScanOk(views, w, y * w + x) == CellLed(views, x, y).Ok?
      ensures ShowsCell(s.leds, views, w, y * w + x) == ShowsAt(s.leds, views, w, x, y)
      ensures 0 <= y * w + x < w * h
    {
      ScanPosition(x, y, w, h);
    }
    if forall x, y :: OnGrid(x, y, w, h) ==> CellLed(views, x, y).Ok? {
      forall j | 0 <= j < w * h
        ensures ScanOk(views, w, j)
      {
        ScanCellOnGrid(j, w, h);
      }
    }
  }

  /** What update does to the LEDs and what it reports. */
  ghost predicate Refreshed(before: seq<Rgb>, after: seq<Rgb>, views: seq<View>, w: int, h: int, res: Result<()>) {
    && 0 <= w && 0 <= h && |before| == w * h
    && after == Written(before, views, w, h, w * h).leds
    && (res.Err? <==> Written(before, views, w, h, w * h).failed)
    && (res.Err? ==> res.error == TypeError)
  }
}
