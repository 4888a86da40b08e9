/** The LED matrix: the shapes it shows, its grids, and the LED buffer it writes. */
module Matrix {
  import opened Base
  import opened Colors
  import opened Pixels
  import opened Shapes
  import opened Compositing
  import opened FloodFill

  /** What update reads of each of the shapes, in order. */
  function Views(os: seq<Shape>): (vs: seq<View>)
    reads set i | 0 <= i < |os| :: os[i]
    ensures |vs| == |os|
  {
    seq(|os|, i reads set j | 0 <= j < |os| :: os[j] requires 0 <= i < |os| =>
      View(os[i].x, os[i].y, os[i].visible, os[i].pixels))
  }

  /** The position of the first occurrence of o in s. */
  function FirstIndex(s: seq<Shape>, o: Shape): (i: nat)
    requires o in s
    ensures i < |s| && s[i] == o && forall j :: 0 <= j < i ==> s[j] != o
  {
    if s[0] == o then 0 else 1 + FirstIndex(s[1..], o)
  }

  /** list.remove: s without its first occurrence of o. */
  function RemoveFirst(s: seq<Shape>, o: Shape): seq<Shape>
    requires o in s
  {
    var i := FirstIndex(s, o);
    s[..i] + s[i + 1..]
  }

  /** Removing takes out one occurrence of o and keeps everything else. */
  lemma RemoveFirstCount(s: seq<Shape>, o: Shape)
    requires o in s
    ensures multiset(RemoveFirst(s, o)) == multiset(s) - multiset{o}
    ensures |RemoveFirst(s, o)| == |s| - 1
  {
    var i := FirstIndex(s, o);
    var front, back := s[..i], s[i + 1..];
    assert s == front + [o] + back;
    assert RemoveFirst(s, o) == front + back;
    assert multiset(s) == multiset(front) + multiset{o} + multiset(back);
    assert multiset(front + back) == multiset(front) + multiset(back);
  }

  /** Removing what was just added, and was not there before, gives back the list. */
  lemma RemoveUndoesAdd(s: seq<Shape>, o: Shape)
    requires o !in s
    ensures RemoveFirst(s + [o], o) == s
  {
    assert FirstIndex(s + [o], o) == |s|;
    assert (s + [o])[..|s|] == s;
  }

  class Canvas {
    var objects: seq<Shape>
    const width: int
    const height: int
    /** The LED buffer the hardware driver sends out: width * height triples. */
    var leds: seq<Rgb>
    /** The grid fill reads; nothing ever writes it. */
    const colorArray: array2<Rgb>
    /** The grid set_brightness writes; update does not read it. */
    const brightnessArray: array2<int>
    const autoupdate: bool

    ghost predicate Valid()
      reads this
    {
      && 0 <= width && 0 <= height && |leds| == width * height
      && colorArray.Length0 == width && colorArray.Length1 == height
      && brightnessArray.Length0 == width && brightnessArray.Length1 == height
    }

    /** A canvas with no shapes, all LEDs dark, every colour black and every brightness 10. */
    constructor (height0: int, width0: int, autoupdate0: bool)
      requires 0 <= width0 && 0 <= height0
      ensures Valid() && fresh(colorArray) && fresh(brightnessArray)
      ensures objects == [] && width == width0 && height == height0 && autoupdate == autoupdate0
      ensures forall i :: 0 <= i < |leds| ==> leds[i] == Black
      ensures Uniform(colorArray, Black)
      ensures forall x, y :: 0 <= x < width && 0 <= y < height ==> brightnessArray[x, y] == 10
    {
      objects := [];
      width, height := width0, height0;
      leds := seq(width0 * height0, _ => Black);
      colorArray := new Rgb[width0, height0]((_, _) => Black);
      brightnessArray := new int[width0, height0]((_, _) => 10);
      autoupdate := autoupdate0;
    }

    /** valid_coord: (x, y) is a cell of the grid. */
    function ValidCoord(x: int, y: int): (b: bool)
      ensures b <==> OnGrid(x, y, width, height)
      ensures b ==> 0 <= PhysicalIndex(x, y, width) < width * height
    {
      if 0 <= x < width && 0 <= y < height then
        PhysicalIndexInverse(x, y, width, height);
        true
      else false
    }

    /**
      * The first half of update: the visible shapes drawn in order into fresh colour and
      * brightness grids.
      */
    method Draw() returns (colors: array2<Option<Rgb>>, lights: array2<int>)
      requires Valid()
      ensures fresh(colors) && fresh(lights)
      ensures colors.Length0 == width && colors.Length1 == height
      ensures lights.Length0 == width && lights.Length1 == height
      ensures forall cx, cy :: 0 <= cx < width && 0 <= cy < height ==>
        Cell(colors[cx, cy], lights[cx, cy]) == Compose(Views(objects), |objects|, cx, cy)
    {
      colors := new Option<Rgb>[width, height]((_, _) => Some(Black));
      lights := new int[width, height]((_, _) => 0);
      ghost var views := Views(objects);
      var k := 0;
      while k < |objects|
        invariant 0 <= k <= |objects|
        invariant forall cx, cy :: 0 <= cx < width && 0 <= cy < height ==>
          Cell(colors[cx, cy], lights[cx, cy]) == Compose(views, k, cx, cy)
      {
        var o := objects[k];
        if o.visible {
          Blit(colors, lights, o.x, o.y, o.pixels, views, k);
        }
        k := k + 1;
      }
    }

    /** One visible shape of update's first loop: its pixels written in order, clipped to the canvas. */
    method Blit(colors: array2<Option<Rgb>>, lights: array2<int>, ox: int, oy: int, ps: seq<Pixel>,
                ghost views: seq<View>, ghost k: nat)
      requires colors.Length0 == width && colors.Length1 == height
      requires lights.Length0 == width && lights.Length1 == height
      requires k <= |views|
      requires forall cx, cy :: 0 <= cx < width && 0 <= cy < height ==>
        Cell(colors[cx, cy], lights[cx, cy]) == Compose(views, k, cx, cy)
      modifies colors, lights
      ensures forall cx, cy :: 0 <= cx < width && 0 <= cy < height ==>
        Cell(colors[cx, cy], lights[cx, cy]) == Paint(Compose(views, k, cx, cy), ox, oy, ps, |ps|, cx, cy)
    {
      var j := 0;
      while j < |ps|
        invariant 0 <= j <= |ps|
        invariant forall cx, cy :: 0 <= cx < width && 0 <= cy < height ==>
          Cell(colors[cx, cy], lights[cx, cy]) == Paint(Compose(views, k, cx, cy), ox, oy, ps, j, cx, cy)
      {
        var p := ps[j];
        var x := p.x + ox;
        var y := p.y + oy;
        if x >= 0 && x < width && y >= 0 && y < height {
          colors[x, y] := p.color;
          lights[x, y] := p.brightness;
        }
        j := j + 1;
      }
    }

    /**
      * update: draws the visible shapes, then writes every cell's scaled colour to its LED,
      * row by row. A cell whose colour is None stops it with a TypeError, after the LEDs
      * before it were written.
      */
    method Update() returns (res: Result<()>)
      requires Valid()
      modifies this`leds
      ensures Valid()
      ensures Refreshed(old(leds), leds, Views(objects), width, height, res)
    {
      var w, h := width, height;
      var colors, lights := Draw();
      ghost var views := Views(objects);
      var y := 0;
      ghost var k := 0;
      while y < h
        invariant 0 <= y <= h && k == y * w && k <= w * h
        invariant !Written(old(leds), views, w, h, k).failed
        invariant leds == Written(old(leds), views, w, h, k).leds
        modifies this`leds
      {
        RowEnd(y, h, w);
        var ok := LightRow(colors, lights, y, k, old(leds), views);
        if !ok {
          return Err(TypeError);
        }
        y := y + 1;
        k := k + w;
      }
      assert k == h * w;
      res := Ok(());
    }

    /**
      * One row of update's LED loop: each cell's scaled colour written to its LED, left to
      * right; a cell whose colour is None stops the row, and with it the whole scan.
      */
    method LightRow(colors: array2<Option<Rgb>>, lights: array2<int>, y: int, ghost k: nat,
                    ghost before: seq<Rgb>, ghost views: seq<View>) returns (ok: bool)
      requires Valid() && 0 <= y < height && |before| == width * height
      requires k == y * width && k + width <= width * height
      requires colors.Length0 == width && colors.Length1 == height
      requires lights.Length0 == width && lights.Length1 == height
      requires forall cx, cy :: 0 <= cx < width && 0 <= cy < height ==>
        Cell(colors[cx, cy], lights[cx, cy]) == Compose(views, |views|, cx, cy)
      requires !Written(before, views, width, height, k).failed
      requires leds == Written(before, views, width, height, k).leds
      modifies this`leds
      ensures Valid()
      ensures ok ==> !Written(before, views, width, height, k + width).failed
      ensures ok ==> leds == Written(before, views, width, height, k + width).leds
      ensures !ok ==> Written(before, views, width, height, width * height).failed
      ensures !ok ==> leds == Written(before, views, width, height, width * height).leds
    {
      var w, h := width, height;
      var x := 0;
      while x < w
        invariant 0 <= x <= w
        invariant !Written(before, views, w, h, k + x).failed
        invariant leds == Written(before, views, w, h, k + x).leds
        modifies this`leds
      {
        ScanStep(before, views, w, h, k + x, x, y, Cell(colors[x, y], lights[x, y]), leds);
        var c := colors[x, y];
        if c.None? {
          return false;
        }
        var i := PhysicalIndex(x, y, w);
        var b := lights[x, y];
        var v := c.value;
        leds := leds[i := Rgb(Scale(v.r, b), Scale(v.g, b), Scale(v.b, b))];
        x := x + 1;
      }
      ok := true;
    }

    /** add of one shape: appended to the shapes, then update if autoupdate is on. */
    method Add(o: Shape) returns (res: Result<()>)
      requires Valid()
      modifies this
      ensures Valid() && objects == old(objects) + [o]
      ensures autoupdate ==> Refreshed(old(leds), leds, Views(objects), width, height, res)
      ensures !autoupdate ==> leds == old(leds) && res == Ok(())
    {
      objects := objects + [o];
      res := Ok(());
      if autoupdate {
        res := Update();
      }
    }

    /** add of a list: each shape appended in order, then one update if autoupdate is on. */
    method AddAll(os: seq<Shape>) returns (res: Result<()>)
      requires Valid()
      modifies this
      ensures Valid() && objects == old(objects) + os
      ensures autoupdate ==> Refreshed(old(leds), leds, Views(objects), width, height, res)
      ensures !autoupdate ==> leds == old(leds) && res == Ok(())
    {
      var k := 0;
      while k < |os|
        invariant 0 <= k <= |os| && objects == old(objects) + os[..k]
        invariant leds == old(leds)
      {
        objects := objects + [os[k]];
        k := k + 1;
        assert os[..k] == os[..k - 1] + [os[k - 1]];
      }
      assert os[..k] == os;
      res := Ok(());
      if autoupdate {
        res := Update();
      }
    }

    /**
      * remove: the first occurrence of o is taken out, then update if autoupdate is on; a
      * shape that is not on the canvas raises ValueError and changes nothing.
      */
    method Remove(o: Shape) returns (res: Result<()>)
      requires Valid()
      modifies this
      ensures Valid()
      ensures o !in old(objects) ==> res == Err(ValueError) && objects == old(objects) && leds == old(leds)
      ensures o in old(objects) ==> objects == RemoveFirst(old(objects), o)
      ensures o in old(objects) && autoupdate ==> Refreshed(old(leds), leds, Views(objects), width, height, res)
      ensures o in old(objects) && !autoupdate ==> leds == old(leds) && res == Ok(())
    {
      if o !in objects {
        return Err(ValueError);
      }
      objects := RemoveFirst(objects, o);
      res := Ok(());
      if autoupdate {
        res := Update();
      }
    }

    /** remove_all: no shapes left, then update if autoupdate is on. */
    method RemoveAll() returns (res: Result<()>)
      requires Valid()
      modifies this
      ensures Valid() && objects == []
      ensures autoupdate ==> Refreshed(old(leds), leds, [], width, height, res)
      ensures !autoupdate ==> leds == old(leds) && res == Ok(())
    {
      objects := [];
      res := Ok(());
      if autoupdate {
        res := Update();
      }
    }

    /** set_brightness: every cell of the brightness grid gets b; then update if autoupdate is on. */
    method SetBrightness(b: int) returns (res: Result<()>)
      requires Valid()
      modifies this, brightnessArray
      ensures Valid() && objects == old(objects)
      ensures forall x, y :: 0 <= x < width && 0 <= y < height ==> brightnessArray[x, y] == b
      ensures autoupdate ==> Refreshed(old(leds), leds, Views(objects), width, height, res)
      ensures !autoupdate ==> leds == old(leds) && res == Ok(())
    {
      var y := 0;
      while y < height
        invariant 0 <= y <= height && leds == old(leds) && objects == old(objects)
        invariant forall cx, cy :: 0 <= cx < width && 0 <= cy < y ==> brightnessArray[cx, cy] == b
        modifies brightnessArray
      {
        var x := 0;
        while x < width
          invariant 0 <= x <= width
          invariant forall cx, cy :: 0 <= cx < width && 0 <= cy < y ==> brightnessArray[cx, cy] == b
          invariant forall cx :: 0 <= cx < x ==> brightnessArray[cx, y] == b
          modifies brightnessArray
        {
          brightnessArray[x, y] := b;
          x := x + 1;
        }
        y := y + 1;
      }
      res := Ok(());
      if autoupdate {
        res := Update();
      }
    }

    /** The start of fill can index the w x h lists (a negative index counts from the end). */
    predicate Indexable(x: int, y: int) {
      -width <= x < width && -height <= y < height
    }

    /**
      * The state of fill's search: vis marks exactly the cells of order, which are distinct
      * cells of the grid, of colour prev after the first; the queue is order from head on; and
      * parent records where each cell was found.
      */
    ghost predicate Frontier(vis: array2<bool>, queue: seq<(int, int)>, order: seq<(int, int)>,
                             head: nat, parent: seq<nat>, prev: Rgb)
      reads this, vis, colorArray
    {
      && vis.Length0 == width && vis.Length1 == height
      && Marks(vis, order) && Homes(order, width, height) <= Cells(width, height)
      && Cohesive(colorArray, order, prev) && |Homes(order, width, height)| == |order|
      && head <= |order| && queue == order[head..]
      && Tree(order, parent)
    }

    /**
      * One of the four neighbour tests of fill: the cell (x, y) is queued and marked when it is
      * on the grid, not yet marked, and of the colour prev.
      */
    method Look(vis: array2<bool>, x: int, y: int, prev: Rgb, queue: seq<(int, int)>,
                order: seq<(int, int)>, ghost head: nat, ghost parent: seq<nat>, ghost cur: nat)
        returns (queue': seq<(int, int)>, order': seq<(int, int)>, ghost parent': seq<nat>)
      requires Valid() && Frontier(vis, queue, order, head, parent, prev)
      requires cur < |order| && Adjacent(order[cur], (x, y))
      requires Settled(colorArray, order, cur, prev)
      modifies vis
      ensures Frontier(vis, queue', order', head, parent', prev)
      ensures order' == if ValidCoord(x, y) && (x, y) !in Homes(order, width, height) && colorArray[x, y] == prev
        then order + [(x, y)] else order
      ensures Homes(order', width, height) == if order' == order then Homes(order, width, height)
        else Homes(order, width, height) + {(x, y)}
      ensures Grown(order, order', cur, width, height)
      ensures Reached(colorArray, order', (x, y), prev)
      ensures Settled(colorArray, order', cur, prev)
    {
      order' := order;
      queue' := queue;
      parent' := parent;
      if ValidCoord(x, y) && !vis[x, y] && colorArray[x, y] == prev {
        Push(colorArray, order, parent, (x, y), cur, prev);
        order' := order + [(x, y)];
        queue' := queue + [(x, y)];
        Mark(vis, order, (x, y));
        parent' := parent + [cur];
        TailAppend(order, (x, y), head);
      }
    }

    /** Two of the neighbour tests of fill, one after the other, for neighbours of cell cur. */
    method LookTwice(vis: array2<bool>, x1: int, y1: int, x2: int, y2: int, prev: Rgb, queue: seq<(int, int)>,
                     order: seq<(int, int)>, ghost head: nat, ghost parent: seq<nat>, ghost cur: nat)
        returns (queue': seq<(int, int)>, order': seq<(int, int)>, ghost parent': seq<nat>)
      requires Valid() && Frontier(vis, queue, order, head, parent, prev)
      requires cur < |order|
      requires Adjacent(order[cur], (x1, y1)) && Adjacent(order[cur], (x2, y2))
      requires Settled(colorArray, order, cur, prev)
      modifies vis
      ensures Frontier(vis, queue', order', head, parent', prev)
      ensures Grown(order, order', cur, width, height) && Settled(colorArray, order', cur, prev)
      ensures Reached(colorArray, order', (x1, y1), prev) && Reached(colorArray, order', (x2, y2), prev)
    {
      var q1, o1, p1 := Look(vis, x1, y1, prev, queue, order, head, parent, cur);
      queue', order', parent' := Look(vis, x2, y2, prev, q1, o1, head, p1, cur);
      ReachedGrows(colorArray, o1, order', (x1, y1), prev);
      GrownTrans(order, o1, order', cur, width, height);
    }

    /**
      * The body of fill's loop after the pop: the four neighbour tests of the cell (x, y),
      * right, left, up and down, which settle that cell.
      */
    method Expand(vis: array2<bool>, x: int, y: int, prev: Rgb, queue: seq<(int, int)>,
                  order: seq<(int, int)>, ghost head: nat, ghost parent: seq<nat>, ghost cur: nat)
        returns (queue': seq<(int, int)>, order': seq<(int, int)>, ghost parent': seq<nat>)
      requires Valid() && Frontier(vis, queue, order, head, parent, prev)
      requires cur < |order| && order[cur] == (x, y)
      requires Settled(colorArray, order, cur, prev)
      modifies vis
      ensures Frontier(vis, queue', order', head, parent', prev)
      ensures Grown(order, order', cur, width, height) && Settled(colorArray, order', cur + 1, prev)
    {
      var q1, o1, p1 := LookTwice(vis, x + 1, y, x - 1, y, prev, queue, order, head, parent, cur);
      queue', order', parent' := ExpandVertically(vis, x, y, prev, q1, o1, head, p1, cur);
      GrownTrans(order, o1, order', cur, width, height);
    }

    /** The up and down tests of fill, once right and left have been looked at: they settle (x, y). */
    method ExpandVertically(vis: array2<bool>, x: int, y: int, prev: Rgb, queue: seq<(int, int)>,
                            order: seq<(int, int)>, ghost head: nat, ghost parent: seq<nat>, ghost cur: nat)
        returns (queue': seq<(int, int)>, order': seq<(int, int)>, ghost parent': seq<nat>)
      requires Valid() && Frontier(vis, queue, order, head, parent, prev)
      requires cur < |order| && order[cur] == (x, y)
      requires Settled(colorArray, order, cur, prev)
      requires Reached(colorArray, order, (x + 1, y), prev) && Reached(colorArray, order, (x - 1, y), prev)
      modifies vis
      ensures Frontier(vis, queue', order', head, parent', prev)
      ensures Grown(order, order', cur, width, height) && Settled(colorArray, order', cur + 1, prev)
    {
      queue', order', parent' := LookTwice(vis, x, y + 1, x, y - 1, prev, queue, order, head, parent, cur);
      ReachedGrows(colorArray, order, order', (x + 1, y), prev);
      ReachedGrows(colorArray, order, order', (x - 1, y), prev);
      SettledNext(colorArray, order', cur, x, y, prev);
    }

    /**
      * fill: a breadth-first search from (xpos, ypos) over the 4-connected cells of the colour
      * grid that share the start's colour. The colour is resolved first, and its errors are
      * raised; a start the lists cannot index raises IndexError. The grid is only read: the
      * result is the order in which the search visits the cells.
      */
    method Fill(xpos: int, ypos: int, color: ColorSpec, brightness: int) returns (res: Result<seq<(int, int)>>)
      requires Valid()
      ensures Resolve(color).Err? ==> res == Err(Resolve(color).error)
      ensures Resolve(color).Ok? && !Indexable(xpos, ypos) ==> res == Err(IndexError)
      ensures Resolve(color).Ok? && Indexable(xpos, ypos) ==> res.Ok?
      ensures res.Ok? ==> |res.value| > 0 && res.value[0] == (xpos, ypos) && Distinct(res.value)
      ensures res.Ok? ==> Cohesive(colorArray, res.value, colorArray[Wrap(xpos, width), Wrap(ypos, height)])
      ensures res.Ok? ==> forall i :: 0 < i < |res.value| ==>
        exists j :: 0 <= j < i && Adjacent(res.value[j], res.value[i])
      ensures res.Ok? && ValidCoord(xpos, ypos) ==> Closed(colorArray, Elems(res.value))
      ensures res.Ok? && ValidCoord(xpos, ypos) && Uniform(colorArray, colorArray[xpos, ypos]) ==>
        |res.value| == width * height
    {
      var resolved := Resolve(color);
      if resolved.Err? {
        return Err(resolved.error);
      }
      if !Indexable(xpos, ypos) {
        return Err(IndexError);
      }
      var order := Search(xpos, ypos);
      res := Ok(order);
    }

    /**
      * The search of fill from a start the grid can index: the visiting grid, the queue seeded
      * with the start, and the loop that pops a cell and looks at its four neighbours.
      */
    method Search(xpos: int, ypos: int) returns (order: seq<(int, int)>)
      requires Valid() && Indexable(xpos, ypos)
      ensures |order| > 0 && order[0] == (xpos, ypos) && Distinct(order)
      ensures Cohesive(colorArray, order, colorArray[Wrap(xpos, width), Wrap(ypos, height)])
      ensures forall i :: 0 < i < |order| ==> exists j :: 0 <= j < i && Adjacent(order[j], order[i])
      ensures ValidCoord(xpos, ypos) ==> Closed(colorArray, Elems(order))
      ensures ValidCoord(xpos, ypos) && Uniform(colorArray, colorArray[xpos, ypos]) ==>
        |order| == width * height
    {
      var w, h := width, height;
      var vis := new bool[w, h]((_, _) => false);
      var queue := [(xpos, ypos)];
      order := queue;
      ghost var parent: seq<nat> := [0];
      ghost var head: nat := 0;
      ghost var col := colorArray[Wrap(xpos, w), Wrap(ypos, h)];
      vis[Wrap(xpos, w), Wrap(ypos, h)] := true;
      HomesAppend([], (xpos, ypos), w, h);
      assert [] + [(xpos, ypos)] == order;
      while |queue| > 0
        invariant Frontier(vis, queue, order, head, parent, col)
        invariant |order| > 0 && order[0] == (xpos, ypos)
        invariant Settled(colorArray, order, head, col)
        decreases Cells(w, h) - Homes(order, w, h), |queue|
      {
        queue, order, head, parent := Visit(vis, col, queue, order, head, parent);
      }
      SearchDone(colorArray, order, parent, col);
    }

    /**
      * One round of fill's loop: pop the cell at the head of the queue, whose colour is the
      * start's, and look at its four neighbours. The cell is settled, and either more cells are
      * marked or the queue is shorter.
      */
    method Visit(vis: array2<bool>, ghost col: Rgb, queue: seq<(int, int)>, order: seq<(int, int)>,
                 ghost head: nat, ghost parent: seq<nat>)
        returns (queue': seq<(int, int)>, order': seq<(int, int)>, ghost head': nat, ghost parent': seq<nat>)
      requires Valid() && Frontier(vis, queue, order, head, parent, col) && |queue| > 0
      requires |order| > 0 && Indexable(order[0].0, order[0].1)
      requires colorArray[Wrap(order[0].0, width), Wrap(order[0].1, height)] == col
      requires Settled(colorArray, order, head, col)
      modifies vis
      ensures head' == head + 1 && Frontier(vis, queue', order', head', parent', col)
      ensures |order| <= |order'| && order'[0] == order[0]
      ensures Settled(colorArray, order', head', col)
      ensures Cells(width, height) - Homes(order', width, height) < Cells(width, height) - Homes(order, width, height)
        || (Homes(order', width, height) == Homes(order, width, height) && |queue'| < |queue|)
    {
      Popped(colorArray, order, head, col);
      var c := queue[0];
      var x, y := c.0, c.1;
      var prev := colorArray[Wrap(x, width), Wrap(y, height)];
      head' := head + 1;
      queue', order', parent' := Expand(vis, x, y, prev, queue[1..], order, head', parent, head);
      Shrinks(Cells(width, height), Homes(order, width, height), Homes(order', width, height));
    }
  }
}

