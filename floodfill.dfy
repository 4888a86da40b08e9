/** The grid facts behind Canvas.fill: 4-neighbourhoods, closed regions, counting cells. */
module FloodFill {
  import opened Colors
  import opened Compositing

  /** The cells fill looks at from c, in the order it looks: right, left, up, down. */
  function Neighbours(c: (int, int)): seq<(int, int)> {
    [(c.0 + 1, c.1), (c.0 - 1, c.1), (c.0, c.1 + 1), (c.0, c.1 - 1)]
  }

  /** All cells of a w x h grid. */
  function Cells(w: int, h: int): set<(int, int)> {
    set x, y | 0 <= x < w && 0 <= y < h :: (x, y)
  }

  /** The cells of ps, as a set. */
  function Elems(ps: seq<(int, int)>): set<(int, int)> {
    set i | 0 <= i < |ps| :: ps[i]
  }

  predicate Distinct(ps: seq<(int, int)>) {
    forall i, j :: 0 <= i < j < |ps| ==> ps[i] != ps[j]
  }

  /** Every cell of the grid a holds the colour col. */
  ghost predicate Uniform(a: array2<Rgb>, col: Rgb)
    reads a
  {
    forall x, y :: 0 <= x < a.Length0 && 0 <= y < a.Length1 ==> a[x, y] == col
  }

  /**
    * seen is a set of grid cells that contains, with each of its cells, every neighbour on the
    * grid of the same colour.
    */
  ghost predicate Closed(a: array2<Rgb>, seen: set<(int, int)>)
    reads a
  {
    && (forall c :: c in seen ==> OnGrid(c.0, c.1, a.Length0, a.Length1))
    && (forall c, n :: c in seen && n in Neighbours(c) ==> Joined(a, seen, c, n))
  }

  /** If n is a grid cell of c's colour, it is in seen. */
  ghost predicate Joined(a: array2<Rgb>, seen: set<(int, int)>, c: (int, int), n: (int, int))
    reads a
    requires OnGrid(c.0, c.1, a.Length0, a.Length1)
  {
    OnGrid(n.0, n.1, a.Length0, a.Length1) && a[n.0, n.1] == a[c.0, c.1] ==> n in seen
  }

  /** One step inside a closed set of one colour stays in it. */
  lemma Spread(a: array2<Rgb>, seen: set<(int, int)>, col: Rgb, p: (int, int), n: (int, int))
    requires Uniform(a, col) && Closed(a, seen) && p in seen
    requires n in Neighbours(p) && OnGrid(n.0, n.1, a.Length0, a.Length1)
    ensures n in seen
  {
    assert Joined(a, seen, p, n);
  }

  /** Walking along a row inside a closed set of one colour never leaves it. */
  lemma {:induction false} WalkRow(a: array2<Rgb>, seen: set<(int, int)>, col: Rgb, c: (int, int), x: int)
    requires Uniform(a, col) && Closed(a, seen) && c in seen && 0 <= x < a.Length0
    ensures (x, c.1) in seen
    decreases if x >= c.0 then x - c.0 else c.0 - x
  {
    if x > c.0 {
      WalkRow(a, seen, col, c, x - 1);
      Spread(a, seen, col, (x - 1, c.1), (x, c.1));
    } else if x < c.0 {
      WalkRow(a, seen, col, c, x + 1);
      Spread(a, seen, col, (x + 1, c.1), (x, c.1));
    }
  }

  /** Walking along a column inside a closed set of one colour never leaves it. */
  lemma {:induction false} WalkColumn(a: array2<Rgb>, seen: set<(int, int)>, col: Rgb, c: (int, int), y: int)
    requires Uniform(a, col) && Closed(a, seen) && c in seen && 0 <= y < a.Length1
    ensures (c.0, y) in seen
    decreases if y >= c.1 then y - c.1 else c.1 - y
  {
    if y > c.1 {
      WalkColumn(a, seen, col, c, y - 1);
      Spread(a, seen, col, (c.0, y - 1), (c.0, y));
    } else if y < c.1 {
      WalkColumn(a, seen, col, c, y + 1);
      Spread(a, seen, col, (c.0, y + 1), (c.0, y));
    }
  }

  /** On a grid of one colour, a closed set with one cell in it is the whole grid. */
  lemma ClosedCoversUniform(a: array2<Rgb>, seen: set<(int, int)>, col: Rgb, s: (int, int))
    requires Uniform(a, col) && Closed(a, seen) && s in seen
    ensures seen == Cells(a.Length0, a.Length1)
  {
    forall x, y | 0 <= x < a.Length0 && 0 <= y < a.Length1
      ensures (x, y) in seen
    {
      WalkRow(a, seen, col, s, x);
      WalkColumn(a, seen, col, (x, s.1), y);
    }
  }

  /** The cells of a row y, 0 <= x < w. */
  function Row(w: int, y: int): set<(int, int)> {
    set x | 0 <= x < w :: (x, y)
  }

  lemma {:induction false} RowCount(w: nat, y: int)
    ensures |Row(w, y)| == w
  {
    if w > 0 {
      RowCount(w - 1, y);
      assert Row(w, y) == Row(w - 1, y) + {(w - 1, y)};
    }
  }

  /** The grid of height h is the grid of height h - 1 plus its top row, which it does not share. */
  lemma CellsSplit(w: nat, h: nat)
    requires h > 0
    ensures Cells(w, h) == Cells(w, h - 1) + Row(w, h - 1)
    ensures Cells(w, h - 1) * Row(w, h - 1) == {}
  {
    forall c | c in Cells(w, h) ensures c in Cells(w, h - 1) + Row(w, h - 1) {
      if c.1 < h - 1 {
        assert c in Cells(w, h - 1);
      } else {
        assert c in Row(w, h - 1);
      }
    }
  }

  /** Seeing more of a region leaves less of it unseen. */
  lemma Shrinks(region: set<(int, int)>, seen: set<(int, int)>, seen': set<(int, int)>)
    requires seen' <= region
    ensures seen < seen' ==> region - seen' < region - seen
  {
  }

  /** A w x h grid has w * h cells. */
  lemma {:induction false} CellsCount(w: nat, h: nat)
    ensures |Cells(w, h)| == w * h
  {
    if h > 0 {
      CellsCount(w, h - 1);
      RowCount(w, h - 1);
      CellsSplit(w, h);
      assert w * h == w * (h - 1) + w;
    } else {
      assert Cells(w, h) == {};
    }
  }

  /** A sequence without repetitions has as many cells as it has elements. */
  lemma {:induction false} DistinctCount(ps: seq<(int, int)>)
    requires Distinct(ps)
    ensures |Elems(ps)| == |ps|
  {
    if |ps| > 0 {
      var front := ps[..|ps| - 1];
      DistinctCount(front);
      assert Elems(ps) == Elems(front) + {ps[|ps| - 1]};
      assert ps[|ps| - 1] !in Elems(front);
    }
  }

  /** Python's list index: a negative index counts from the end of a list of length n. */
  function Wrap(i: int, n: int): int { if i < 0 then i + n else i }

  /** The grid cell that indexing the w x h lists with c reaches. */
  function Home(c: (int, int), w: int, h: int): (int, int) { (Wrap(c.0, w), Wrap(c.1, h)) }

  /** The cells the visit marks of the cells in order stand on. */
  ghost function Homes(order: seq<(int, int)>, w: int, h: int): set<(int, int)>
    decreases |order|
  {
    if |order| == 0 then {} else Homes(order[..|order| - 1], w, h) + {Home(order[|order| - 1], w, h)}
  }

  /** vis marks exactly the cells the cells of order stand on. */
  ghost predicate Marks(vis: array2<bool>, order: seq<(int, int)>)
    reads vis
  {
    forall x, y :: 0 <= x < vis.Length0 && 0 <= y < vis.Length1 ==>
      (vis[x, y] <==> (x, y) in Homes(order, vis.Length0, vis.Length1))
  }

  /** Every cell of order after the first is a grid cell of colour col. */
  ghost predicate Cohesive(a: array2<Rgb>, order: seq<(int, int)>, col: Rgb)
    reads a
  {
    forall i :: 1 <= i < |order| ==> OnGrid(order[i].0, order[i].1, a.Length0, a.Length1) && a[order[i].0, order[i].1] == col
  }

  /** A cell of order indexes the grid and has colour col, when the start does. */
  lemma Popped(a: array2<Rgb>, order: seq<(int, int)>, i: int, col: Rgb)
    requires 0 <= i < |order| && Cohesive(a, order, col)
    requires -a.Length0 <= order[0].0 < a.Length0 && -a.Length1 <= order[0].1 < a.Length1
    requires a[Wrap(order[0].0, a.Length0), Wrap(order[0].1, a.Length1)] == col
    ensures 0 <= Wrap(order[i].0, a.Length0) < a.Length0 && 0 <= Wrap(order[i].1, a.Length1) < a.Length1
    ensures a[Wrap(order[i].0, a.Length0), Wrap(order[i].1, a.Length1)] == col
  {
  }

  /** Every grid cell of colour col next to one of the first k cells of order is marked. */
  ghost predicate Settled(a: array2<Rgb>, order: seq<(int, int)>, k: int, col: Rgb)
    reads a
  {
    forall i, n | 0 <= i < k && i < |order| && n in Neighbours(order[i]) ::
      OnGrid(n.0, n.1, a.Length0, a.Length1) && a[n.0, n.1] == col ==> n in Homes(order, a.Length0, a.Length1)
  }

  lemma HomesAppend(order: seq<(int, int)>, c: (int, int), w: int, h: int)
    ensures Homes(order + [c], w, h) == Homes(order, w, h) + {Home(c, w, h)}
  {
    assert (order + [c])[..|order|] == order;
  }

  /** Every cell of order is marked where it stands. */
  lemma {:induction false} HomesCover(order: seq<(int, int)>, w: int, h: int)
    ensures forall i :: 0 <= i < |order| ==> Home(order[i], w, h) in Homes(order, w, h)
  {
    if |order| > 0 {
      var front := order[..|order| - 1];
      HomesCover(front, w, h);
      assert forall i :: 0 <= i < |front| ==> order[i] == front[i];
    }
  }

  /** Every mark stands under a cell of order. */
  lemma {:induction false} HomesExact(order: seq<(int, int)>, w: int, h: int, c: (int, int))
    requires c in Homes(order, w, h)
    ensures exists i :: 0 <= i < |order| && Home(order[i], w, h) == c
  {
    var front := order[..|order| - 1];
    if c != Home(order[|order| - 1], w, h) {
      HomesExact(front, w, h, c);
      var i :| 0 <= i < |front| && Home(front[i], w, h) == c;
      assert order[i] == front[i];
    }
  }

  /** There are never more marks than cells. */
  lemma {:induction false} HomesAtMost(order: seq<(int, int)>, w: int, h: int)
    ensures |Homes(order, w, h)| <= |order|
  {
    if |order| > 0 {
      HomesAtMost(order[..|order| - 1], w, h);
    }
  }

  /** As many marks as cells: no cell was visited twice. */
  lemma {:induction false} HomesCountDistinct(order: seq<(int, int)>, w: int, h: int)
    requires |Homes(order, w, h)| == |order|
    ensures Distinct(order)
  {
    if |order| > 0 {
      var front, last := order[..|order| - 1], order[|order| - 1];
      HomesAtMost(front, w, h);
      assert Home(last, w, h) !in Homes(front, w, h);
      HomesCountDistinct(front, w, h);
      HomesCover(front, w, h);
      assert forall i :: 0 <= i < |front| ==> order[i] == front[i];
    }
  }

  /** Appending a cell keeps the first k cells settled. */
  lemma SettledAppend(a: array2<Rgb>, order: seq<(int, int)>, c: (int, int), k: int, col: Rgb)
    requires Settled(a, order, k, col) && k <= |order|
    ensures Settled(a, order + [c], k, col)
  {
    HomesAppend(order, c, a.Length0, a.Length1);
    var o := order + [c];
    assert forall i :: 0 <= i < |order| ==> o[i] == order[i];
  }

  /** The queue is the unvisited tail of order, also after an append. */
  lemma TailAppend(order: seq<(int, int)>, c: (int, int), k: nat)
    requires k <= |order|
    ensures (order + [c])[k..] == order[k..] + [c]
  {
  }

  /** Queueing a grid cell c of colour col, not yet marked, found next to cell k. */
  lemma Push(a: array2<Rgb>, order: seq<(int, int)>, parent: seq<nat>, c: (int, int), k: nat, col: Rgb)
    requires OnGrid(c.0, c.1, a.Length0, a.Length1) && a[c.0, c.1] == col
    requires c !in Homes(order, a.Length0, a.Length1) && |Homes(order, a.Length0, a.Length1)| == |order|
    requires Cohesive(a, order, col) && Tree(order, parent) && k < |order| && Adjacent(order[k], c)
    requires Settled(a, order, k, col)
    ensures Homes(order + [c], a.Length0, a.Length1) == Homes(order, a.Length0, a.Length1) + {c}
    ensures |Homes(order + [c], a.Length0, a.Length1)| == |order + [c]|
    ensures Cohesive(a, order + [c], col) && Tree(order + [c], parent + [k])
    ensures Settled(a, order + [c], k, col)
  {
    HomesAppend(order, c, a.Length0, a.Length1);
    SettledAppend(a, order, c, k, col);
    var o := order + [c];
    assert forall i :: 0 <= i < |order| ==> o[i] == order[i];
  }

  /** Marking the grid cell c, as a queued cell, keeps vis marking exactly the cells of order + [c]. */
  method Mark(vis: array2<bool>, order: seq<(int, int)>, c: (int, int))
    requires Marks(vis, order) && 0 <= c.0 < vis.Length0 && 0 <= c.1 < vis.Length1
    requires Homes(order + [c], vis.Length0, vis.Length1) == Homes(order, vis.Length0, vis.Length1) + {c}
    modifies vis
    ensures Marks(vis, order + [c])
  {
    vis[c.0, c.1] := true;
  }

  /** When every cell of order is a grid cell, the marks are the cells themselves. */
  lemma HomesOnGrid(order: seq<(int, int)>, w: int, h: int)
    requires forall i :: 0 <= i < |order| ==> OnGrid(order[i].0, order[i].1, w, h)
    ensures Homes(order, w, h) == Elems(order)
  {
    HomesCover(order, w, h);
    assert forall i :: 0 <= i < |order| ==> Home(order[i], w, h) == order[i];
    forall c | c in Homes(order, w, h)
      ensures c in Elems(order)
    {
      HomesExact(order, w, h, c);
    }
  }

  /**
    * A search from a grid cell that has looked at all the neighbours of all its cells has
    * found a closed region.
    */
  lemma SettledCloses(a: array2<Rgb>, order: seq<(int, int)>, col: Rgb)
    requires |order| > 0 && OnGrid(order[0].0, order[0].1, a.Length0, a.Length1) && a[order[0].0, order[0].1] == col
    requires Cohesive(a, order, col) && Settled(a, order, |order|, col)
    ensures Closed(a, Elems(order))
  {
    HomesOnGrid(order, a.Length0, a.Length1);
    forall c, n | c in Elems(order) && n in Neighbours(c)
      ensures Joined(a, Elems(order), c, n)
    {
      var i :| 0 <= i < |order| && order[i] == c;
    }
  }

  /** A grid cell n of colour col is marked. */
  ghost predicate Reached(a: array2<Rgb>, order: seq<(int, int)>, n: (int, int), col: Rgb)
    reads a
  {
    OnGrid(n.0, n.1, a.Length0, a.Length1) && a[n.0, n.1] == col ==> n in Homes(order, a.Length0, a.Length1)
  }

  /**
    * more extends the search order of order without losing a cell: the same start, the same
    * cell k, every marked cell still marked, and, unless nothing was added, a longer order.
    */
  ghost predicate Grown(order: seq<(int, int)>, more: seq<(int, int)>, k: nat, w: int, h: int) {
    && |order| <= |more| && k < |order| && more[0] == order[0] && more[k] == order[k]
    && Homes(order, w, h) <= Homes(more, w, h)
    && (more == order || |order| < |more|)
  }

  lemma GrownTrans(order: seq<(int, int)>, mid: seq<(int, int)>, more: seq<(int, int)>, k: nat, w: int, h: int)
    requires Grown(order, mid, k, w, h) && Grown(mid, more, k, w, h)
    ensures Grown(order, more, k, w, h)
  {
  }

  /** Once the neighbours of cell k are reached, the first k + 1 cells are settled. */
  lemma SettledNext(a: array2<Rgb>, order: seq<(int, int)>, k: nat, x: int, y: int, col: Rgb)
    requires k < |order| && order[k] == (x, y) && Settled(a, order, k, col)
    requires Reached(a, order, (x + 1, y), col) && Reached(a, order, (x - 1, y), col)
    requires Reached(a, order, (x, y + 1), col) && Reached(a, order, (x, y - 1), col)
    ensures Settled(a, order, k + 1, col)
  {
  }

  /** A reached cell stays reached while the marks grow. */
  lemma ReachedGrows(a: array2<Rgb>, order: seq<(int, int)>, more: seq<(int, int)>, n: (int, int), col: Rgb)
    requires Reached(a, order, n, col)
    requires Homes(order, a.Length0, a.Length1) <= Homes(more, a.Length0, a.Length1)
    ensures Reached(a, more, n, col)
  {
  }

  /** n is one of the four cells next to c. */
  predicate Adjacent(c: (int, int), n: (int, int)) {
    n == (c.0 + 1, c.1) || n == (c.0 - 1, c.1) || n == (c.0, c.1 + 1) || n == (c.0, c.1 - 1)
  }

  /** Each cell after the first was found next to an earlier cell, its parent. */
  ghost predicate Tree(order: seq<(int, int)>, parent: seq<nat>) {
    |parent| == |order| && forall i {:trigger parent[i]} :: 0 < i < |order| ==> parent[i] < i && Adjacent(order[parent[i]], order[i])
  }

  /**
    * What a finished search has found: no cell twice, each cell after the first next to an
    * earlier one, and, from a grid cell, a closed region, which on a grid of one colour is
    * every cell.
    */
  lemma SearchDone(a: array2<Rgb>, order: seq<(int, int)>, parent: seq<nat>, col: Rgb)
    requires |order| > 0 && |Homes(order, a.Length0, a.Length1)| == |order|
    requires OnGrid(order[0].0, order[0].1, a.Length0, a.Length1) ==> a[order[0].0, order[0].1] == col
    requires Cohesive(a, order, col) && Tree(order, parent) && Settled(a, order, |order|, col)
    ensures Distinct(order)
    ensures forall i :: 0 < i < |order| ==> exists j :: 0 <= j < i && Adjacent(order[j], order[i])
    ensures OnGrid(order[0].0, order[0].1, a.Length0, a.Length1) ==> Closed(a, Elems(order))
    ensures OnGrid(order[0].0, order[0].1, a.Length0, a.Length1) && Uniform(a, col) ==>
      |order| == a.Length0 * a.Length1
  {
    HomesCountDistinct(order, a.Length0, a.Length1);
    forall i | 0 < i < |order|
      ensures exists j :: 0 <= j < i && Adjacent(order[j], order[i])
    {
      assert Adjacent(order[parent[i]], order[i]);
    }
    if OnGrid(order[0].0, order[0].1, a.Length0, a.Length1) {
      SettledCloses(a, order, col);
      if Uniform(a, col) {
        ClosedCoversUniform(a, Elems(order), col, order[0]);
        HomesOnGrid(order, a.Length0, a.Length1);
        CellsCount(a.Length0, a.Length1);
      }
    }
  }
}

