/** The shape of the grid graph as values: the order in which cells become
    nodes, the order in which edges are created, incidence lists, and the
    marks left by terminals and vias. The graph class is proved to build
    exactly these. */
module GridSpec {
  import opened NlProblem

  // ---------------------------------------------------------------------
  // Nodes: one per cell, x outermost, then y, then z.

  /** k copies of a added up: k * a, written so that node positions stay
      linear terms until a proof asks for the product. */
  function Mul(k: nat, a: int): (r: int)
    ensures a >= 0 ==> r >= 0
  {
    if k == 0 then 0 else Mul(k - 1, a) + a
  }

  lemma {:induction false} MulIsProduct(k: nat, a: int)
    ensures Mul(k, a) == k * a
  {
    if k > 0 {
      MulIsProduct(k - 1, a);
    }
  }

  /** Mul grows by at least one step of n from i to any j above it. */
  lemma {:induction false} MulStep(i: nat, j: nat, n: nat)
    requires i < j
    ensures Mul(i, n) + n <= Mul(j, n)
  {
    if j > i + 1 {
      MulStep(i, j - 1, n);
    }
  }

  /** Position of cell p in the node list: (x * h + y) * d + z. */
  function NodeIndex(h: nat, d: nat, p: Point): int {
    Mul(d, Mul(h, p.x) + p.y) + p.z
  }

  /** The number of cells of a w by h by d box. */
  function CellCount(w: nat, h: nat, d: nat): nat {
    Mul(d, Mul(h, w))
  }

  lemma NodeIndexProduct(h: nat, d: nat, p: Point)
    ensures NodeIndex(h, d, p) == (p.x * h + p.y) * d + p.z
  {
    MulIsProduct(h, p.x);
    MulIsProduct(d, Mul(h, p.x) + p.y);
  }

  lemma CellCountProduct(w: nat, h: nat, d: nat)
    ensures CellCount(w, h, d) == w * h * d
  {
    MulIsProduct(h, w);
    MulIsProduct(d, Mul(h, w));
  }

  /** The cell whose node sits at position i of the node list. */
  function CellAt(h: nat, d: nat, i: nat): (p: Point)
    requires h > 0 && d > 0
    ensures NodeIndex(h, d, p) == i
    ensures 0 <= p.y < h && 0 <= p.z < d && p.x >= 0
  {
    DivModSplit(i, d);
    DivModSplit(i / d, h);
    NodeIndexProduct(h, d, Point((i / d) / h, (i / d) % h, i % d));
    Point((i / d) / h, (i / d) % h, i % d)
  }

  lemma DivModSplit(i: nat, n: nat)
    requires n > 0
    ensures i == (i / n) * n + i % n && 0 <= i % n < n && i / n >= 0
  {
  }

  /** q*n + r with r < n determines q and r. */
  lemma MixedRadixUnique(q1: int, r1: int, q2: int, r2: int, n: int)
    requires n > 0 && 0 <= r1 < n && 0 <= r2 < n && q1 * n + r1 == q2 * n + r2
    ensures q1 == q2 && r1 == r2
  {
    assert (q1 - q2) * n == r2 - r1;
    if q1 - q2 >= 1 {
      MulMono(q1 - q2, 1, n);
    } else if q2 - q1 >= 1 {
      MulMono(q2 - q1, 1, n);
    }
  }

  lemma MulMono(a: int, b: int, n: int)
    requires a >= b && n >= 0
    ensures a * n >= b * n
  {
    assert a * n - b * n == (a - b) * n;
  }

  /** Cells whose y and z lie inside the box have distinct node
      positions. */
  lemma NodeIndexUnique(h: nat, d: nat, p: Point, q: Point)
    requires 0 <= p.y < h && 0 <= q.y < h && 0 <= p.z < d && 0 <= q.z < d
    ensures NodeIndex(h, d, p) == NodeIndex(h, d, q) <==> p == q
  {
    NodeIndexProduct(h, d, p);
    NodeIndexProduct(h, d, q);
    if NodeIndex(h, d, p) == NodeIndex(h, d, q) {
      MixedRadixUnique(p.x * h + p.y, p.z, q.x * h + q.y, q.z, d);
      MixedRadixUnique(p.x, p.y, q.x, q.y, h);
    }
  }

  /** Every cell of the box has a node position below w*h*d. */
  lemma NodeIndexInRange(w: nat, h: nat, d: nat, p: Point)
    requires InBox(w, h, d, p)
    ensures 0 <= NodeIndex(h, d, p) < CellCount(w, h, d)
  {
    NodeIndexProduct(h, d, p);
    CellCountProduct(w, h, d);
    var r := p.x * h + p.y;
    assert 0 <= r by { MulMono(p.x, 0, h); }
    assert r < w * h by {
      MulMono(w - 1, p.x, h);
      assert (w - 1) * h + h == w * h;
    }
    assert r * d + p.z < w * h * d by {
      MulMono(w * h - 1, r, d);
      assert (w * h - 1) * d + d == w * h * d;
    }
    assert 0 <= r * d by { MulMono(r, 0, d); }
  }

  /** The node position of a cell of the box leads back to the cell. */
  lemma CellAtNodeIndex(w: nat, h: nat, d: nat, p: Point)
    requires InBox(w, h, d, p)
    ensures NodeIndex(h, d, p) >= 0 && CellAt(h, d, NodeIndex(h, d, p)) == p
  {
    NodeIndexInRange(w, h, d, p);
    NodeIndexUnique(h, d, p, CellAt(h, d, NodeIndex(h, d, p)));
  }

  /** Every position below w*h*d is the position of a cell of the box. */
  lemma CellAtInBox(w: nat, h: nat, d: nat, i: nat)
    requires h > 0 && d > 0 && i < CellCount(w, h, d)
    ensures InBox(w, h, d, CellAt(h, d, i))
  {
    var c := CellAt(h, d, i);
    NodeIndexProduct(h, d, c);
    CellCountProduct(w, h, d);
    if c.x >= w {
      MulMono(c.x, w, h);
      MulMono(c.x * h + c.y, w * h, d);
      assert false;
    }
  }

  /** Stepping z, then y, then x walks the node positions one by one. */
  lemma NodeIndexNext(h: nat, d: nat, x: int, y: int)
    ensures NodeIndex(h, d, Point(x, y, d)) == NodeIndex(h, d, Point(x, y + 1, 0))
    ensures NodeIndex(h, d, Point(x, h, 0)) == NodeIndex(h, d, Point(x + 1, 0, 0))
  {
    NodeIndexProduct(h, d, Point(x, y, d));
    NodeIndexProduct(h, d, Point(x, y + 1, 0));
    NodeIndexProduct(h, d, Point(x, h, 0));
    NodeIndexProduct(h, d, Point(x + 1, 0, 0));
    assert (x * h + y) * d + d == (x * h + y + 1) * d;
    assert x * h + h == (x + 1) * h;
  }

  // ---------------------------------------------------------------------
  // Edges, in creation order.

  type Edge = (Point, Point)

  lemma AppendAssoc<T>(a: seq<T>, b: seq<T>, c: seq<T>)
    ensures a + b + c == a + (b + c)
  {
  }

  /** Number of iterations of a loop over range(0, n - 1). */
  function Pred(n: nat): nat { if n == 0 then 0 else n - 1 }

  /** The horizontal edges (x, y, z)-(x + 1, y, z) for y below len. */
  function HCol(x: int, len: nat, z: int): (es: seq<Edge>)
    ensures |es| == len
  {
    if len == 0 then [] else HCol(x, len - 1, z) + [(Point(x, len - 1, z), Point(x + 1, len - 1, z))]
  }

  /** The horizontal edges of columns 0 .. cols-1 of layer z. */
  function HEdges(cols: nat, h: nat, z: int): (es: seq<Edge>)
    ensures |es| == Mul(cols, h)
  {
    if cols == 0 then [] else HEdges(cols - 1, h, z) + HCol(cols - 1, h, z)
  }

  /** The vertical edges (x, y, z)-(x, y + 1, z) for y below len. */
  function VCol(x: int, len: nat, z: int): (es: seq<Edge>)
    ensures |es| == len
  {
    if len == 0 then [] else VCol(x, len - 1, z) + [(Point(x, len - 1, z), Point(x, len, z))]
  }

  function VEdges(cols: nat, len: nat, z: int): (es: seq<Edge>)
    ensures |es| == Mul(cols, len)
  {
    if cols == 0 then [] else VEdges(cols - 1, len, z) + VCol(cols - 1, len, z)
  }

  /** One layer: all horizontal edges first, then all vertical ones. */
  function LayerEdges(w: nat, h: nat, z: int): seq<Edge> {
    HEdges(Pred(w), h, z) + VEdges(w, Pred(h), z)
  }

  /** The edges of layers 0 .. layers-1, layer by layer. */
  function GridEdges(w: nat, h: nat, layers: nat): seq<Edge> {
    if layers == 0 then [] else GridEdges(w, h, layers - 1) + LayerEdges(w, h, layers - 1)
  }

  /** Each layer holds (w-1)*h horizontal and w*(h-1) vertical edges. */
  lemma {:induction false} GridEdgeCount(w: nat, h: nat, d: nat)
    ensures |GridEdges(w, h, d)| == d * (Pred(w) * h + w * Pred(h))
  {
    if d > 0 {
      GridEdgeCount(w, h, d - 1);
      MulIsProduct(Pred(w), h);
      MulIsProduct(w, Pred(h));
      assert (d - 1) * (Pred(w) * h + w * Pred(h)) + (Pred(w) * h + w * Pred(h))
          == d * (Pred(w) * h + w * Pred(h));
    }
  }

  /** q is the next cell after p along x or along y, on the same layer. */
  predicate Adjacent(p: Point, q: Point) {
    p.z == q.z &&
    ((q.x == p.x + 1 && q.y == p.y) || (q.x == p.x && q.y == p.y + 1))
  }

  predicate EdgeInGrid(w: nat, h: nat, d: nat, e: Edge) {
    InBox(w, h, d, e.0) && InBox(w, h, d, e.1) && Adjacent(e.0, e.1)
  }

  lemma {:induction false} HColInGrid(w: nat, h: nat, d: nat, x: int, len: nat, z: int)
    requires 0 <= x && x + 1 < w && len <= h && 0 <= z < d
    ensures forall k :: 0 <= k < len ==> EdgeInGrid(w, h, d, HCol(x, len, z)[k])
  {
    if len > 0 {
      HColInGrid(w, h, d, x, len - 1, z);
    }
  }

  lemma {:induction false} HEdgesInGrid(w: nat, h: nat, d: nat, cols: nat, z: int)
    requires cols < w && 0 <= z < d
    ensures forall k :: 0 <= k < |HEdges(cols, h, z)| ==> EdgeInGrid(w, h, d, HEdges(cols, h, z)[k])
  {
    if cols > 0 {
      HEdgesInGrid(w, h, d, cols - 1, z);
      HColInGrid(w, h, d, cols - 1, h, z);
      var a, b := HEdges(cols - 1, h, z), HCol(cols - 1, h, z);
      forall k | 0 <= k < |a + b| ensures EdgeInGrid(w, h, d, (a + b)[k]) {
        if k >= |a| { assert (a + b)[k] == b[k - |a|]; }
      }
    }
  }

  lemma {:induction false} VColInGrid(w: nat, h: nat, d: nat, x: int, len: nat, z: int)
    requires 0 <= x < w && len < h && 0 <= z < d
    ensures forall k :: 0 <= k < len ==> EdgeInGrid(w, h, d, VCol(x, len, z)[k])
  {
    if len > 0 {
      VColInGrid(w, h, d, x, len - 1, z);
    }
  }

  lemma {:induction false} VEdgesInGrid(w: nat, h: nat, d: nat, cols: nat, len: nat, z: int)
    requires cols <= w && 0 <= z < d && len < h
    ensures forall k :: 0 <= k < |VEdges(cols, len, z)| ==> EdgeInGrid(w, h, d, VEdges(cols, len, z)[k])
  {
    if cols > 0 {
      VEdgesInGrid(w, h, d, cols - 1, len, z);
      VColInGrid(w, h, d, cols - 1, len, z);
      var a, b := VEdges(cols - 1, len, z), VCol(cols - 1, len, z);
      forall k | 0 <= k < |a + b| ensures EdgeInGrid(w, h, d, (a + b)[k]) {
        if k >= |a| { assert (a + b)[k] == b[k - |a|]; }
      }
    }
  }

  /** Every created edge joins two cells of the box that are neighbours
      along x or along y on one layer; no edge crosses layers. */
  lemma {:induction false} GridEdgesInGrid(w: nat, h: nat, d: nat, layers: nat)
    requires layers <= d
    ensures forall k :: 0 <= k < |GridEdges(w, h, layers)| ==> EdgeInGrid(w, h, d, GridEdges(w, h, layers)[k])
  {
    if layers > 0 {
      var z := layers - 1;
      GridEdgesInGrid(w, h, d, z);
      var a := GridEdges(w, h, z);
      var hs, vs := HEdges(Pred(w), h, z), VEdges(w, Pred(h), z);
      if w > 0 { HEdgesInGrid(w, h, d, Pred(w), z); }
      if h > 0 { VEdgesInGrid(w, h, d, w, Pred(h), z); } else { MulIsProduct(w, 0); MulIsProduct(Pred(w), 0); }
      forall k | 0 <= k < |a + (hs + vs)| ensures EdgeInGrid(w, h, d, (a + (hs + vs))[k]) {
        if k >= |a| {
          assert (a + (hs + vs))[k] == (hs + vs)[k - |a|];
          if k - |a| >= |hs| { assert (hs + vs)[k - |a|] == vs[k - |a| - |hs|]; }
        }
      }
    }
  }

  // ---------------------------------------------------------------------
  // Incidence.

  predicate Touches(e: Edge, p: Point) { e.0 == p || e.1 == p }

  /** Ids (positions) of the edges touching p, in creation order: what a
      node's edge list holds once every edge has been added to both ends. */
  function IncidentIds(es: seq<Edge>, p: Point): (ids: seq<nat>)
    ensures forall j :: 0 <= j < |ids| ==> ids[j] < |es|
  {
    if es == [] then []
    else IncidentIds(es[..|es| - 1], p) + (if Touches(es[|es| - 1], p) then [|es| - 1] else [])
  }

  /** A new edge joins the incidence list of the cells it touches. */
  lemma IncidentIdsSnoc(es: seq<Edge>, e: Edge, p: Point)
    ensures IncidentIds(es + [e], p) == IncidentIds(es, p) + (if Touches(e, p) then [|es|] else [])
  {
    assert (es + [e])[..|es|] == es;
  }

  /** The incidence list holds exactly the touching edges, each once, in
      increasing order. */
  lemma {:induction false} IncidentIdsSpec(es: seq<Edge>, p: Point)
    ensures forall k :: k in IncidentIds(es, p) <==> 0 <= k < |es| && Touches(es[k], p)
    ensures forall i, j :: 0 <= i < j < |IncidentIds(es, p)| ==> IncidentIds(es, p)[i] < IncidentIds(es, p)[j]
  {
    if es != [] {
      var pre := es[..|es| - 1];
      IncidentIdsSpec(pre, p);
      forall k | 0 <= k < |pre| ensures pre[k] == es[k] { }
    }
  }

  /** The edges as pairs of node positions. */
  function IndexEdges(h: nat, d: nat, es: seq<Edge>): (ends: seq<(int, int)>)
    ensures |ends| == |es|
  {
    if es == [] then []
    else
      var e := es[|es| - 1];
      IndexEdges(h, d, es[..|es| - 1]) + [(NodeIndex(h, d, e.0), NodeIndex(h, d, e.1))]
  }

  lemma {:induction false} IndexEdgesSpec(h: nat, d: nat, es: seq<Edge>)
    ensures forall k :: 0 <= k < |es| ==>
              IndexEdges(h, d, es)[k] == (NodeIndex(h, d, es[k].0), NodeIndex(h, d, es[k].1))
  {
    if es != [] {
      var pre := es[..|es| - 1];
      IndexEdgesSpec(h, d, pre);
      forall k | 0 <= k < |pre| ensures pre[k] == es[k] { }
    }
  }

  /** Ids of the edges whose end positions include node position i, in
      creation order. */
  function IncidentIdx(ends: seq<(int, int)>, i: int): (ids: seq<nat>)
    ensures forall j :: 0 <= j < |ids| ==> ids[j] < |ends|
  {
    if ends == [] then []
    else
      var k := |ends| - 1;
      IncidentIdx(ends[..k], i) + (if ends[k].0 == i || ends[k].1 == i then [k] else [])
  }

  /** On cells of the box, incidence by node position is incidence by cell. */
  lemma {:induction false} IncidentIdxIsIncidentIds(w: nat, h: nat, d: nat, es: seq<Edge>, p: Point)
    requires forall k :: 0 <= k < |es| ==> EdgeInGrid(w, h, d, es[k])
    requires InBox(w, h, d, p)
    ensures IncidentIdx(IndexEdges(h, d, es), NodeIndex(h, d, p)) == IncidentIds(es, p)
  {
    if es != [] {
      var pre, e := es[..|es| - 1], es[|es| - 1];
      IncidentIdxIsIncidentIds(w, h, d, pre, p);
      var ends := IndexEdges(h, d, es);
      assert ends[..|es| - 1] == IndexEdges(h, d, pre);
      NodeIndexUnique(h, d, e.0, p);
      NodeIndexUnique(h, d, e.1, p);
    }
  }

  /** Number of edges touching p. */
  function TouchCount(es: seq<Edge>, p: Point): (n: nat)
    ensures n <= |es|
  {
    if es == [] then 0 else TouchCount(es[..|es| - 1], p) + (if Touches(es[|es| - 1], p) then 1 else 0)
  }

  lemma {:induction false} IncidentLength(es: seq<Edge>, p: Point)
    ensures |IncidentIds(es, p)| == TouchCount(es, p)
  {
    if es != [] { IncidentLength(es[..|es| - 1], p); }
  }

  lemma {:induction false} TouchCountAppend(a: seq<Edge>, b: seq<Edge>, p: Point)
    ensures TouchCount(a + b, p) == TouchCount(a, p) + TouchCount(b, p)
  {
    if b != [] {
      assert (a + b)[..|a + b| - 1] == a + b[..|b| - 1];
      TouchCountAppend(a, b[..|b| - 1], p);
    } else {
      assert a + b == a;
    }
  }

  function Ind(b: bool): nat { if b then 1 else 0 }

  lemma TouchCountSnoc(es: seq<Edge>, e: Edge, p: Point)
    ensures TouchCount(es + [e], p) == TouchCount(es, p) + Ind(Touches(e, p))
  {
    assert (es + [e])[..|es|] == es;
  }

  lemma {:induction false} HColTouch(x: int, len: nat, z: int, p: Point)
    ensures TouchCount(HCol(x, len, z), p) ==
            if p.z == z && 0 <= p.y < len then Ind(p.x == x) + Ind(p.x == x + 1) else 0
  {
    if len > 0 {
      var e := (Point(x, len - 1, z), Point(x + 1, len - 1, z));
      HColTouch(x, len - 1, z, p);
      TouchCountSnoc(HCol(x, len - 1, z), e, p);
      if p.z == z && 0 <= p.y < len - 1 {
        assert !Touches(e, p);
      }
    }
  }

  lemma {:induction false} HEdgesTouch(cols: nat, h: nat, z: int, p: Point)
    ensures TouchCount(HEdges(cols, h, z), p) ==
            if p.z == z && 0 <= p.y < h then Ind(0 <= p.x < cols) + Ind(1 <= p.x <= cols) else 0
  {
    if cols > 0 {
      var pre, col := HEdges(cols - 1, h, z), HCol(cols - 1, h, z);
      assert HEdges(cols, h, z) == pre + col;
      HEdgesTouch(cols - 1, h, z, p);
      HColTouch(cols - 1, h, z, p);
      TouchCountAppend(pre, col, p);
      IndColumns(p.x, cols);
    }
  }

  /** Cells of columns 0 .. cols-1 and their right neighbours, one column at a time. */
  lemma IndColumns(x: int, cols: nat)
    requires cols > 0
    ensures Ind(0 <= x < cols) + Ind(1 <= x <= cols)
         == Ind(0 <= x < cols - 1) + Ind(1 <= x <= cols - 1) + Ind(x == cols - 1) + Ind(x == cols)
  {
  }

  lemma {:induction false} VColTouch(x: int, len: nat, z: int, p: Point)
    ensures TouchCount(VCol(x, len, z), p) ==
            if p.z == z && p.x == x then Ind(0 <= p.y < len) + Ind(1 <= p.y <= len) else 0
  {
    if len > 0 {
      var e := (Point(x, len - 1, z), Point(x, len, z));
      VColTouch(x, len - 1, z, p);
      TouchCountSnoc(VCol(x, len - 1, z), e, p);
      if p.z == z && p.x == x {
        assert Ind(0 <= p.y < len) + Ind(1 <= p.y <= len)
            == Ind(0 <= p.y < len - 1) + Ind(1 <= p.y <= len - 1) + Ind(p.y == len - 1) + Ind(p.y == len);
      }
    }
  }

  lemma {:induction false} VEdgesTouch(cols: nat, len: nat, z: int, p: Point)
    ensures TouchCount(VEdges(cols, len, z), p) ==
            if p.z == z && 0 <= p.x < cols then Ind(0 <= p.y < len) + Ind(1 <= p.y <= len) else 0
  {
    if cols > 0 {
      var pre, col := VEdges(cols - 1, len, z), VCol(cols - 1, len, z);
      assert VEdges(cols, len, z) == pre + col;
      VEdgesTouch(cols - 1, len, z, p);
      VColTouch(cols - 1, len, z, p);
      TouchCountAppend(pre, col, p);
    }
  }

  /** Number of neighbours of p along x and y inside a w-by-h layer. */
  function NeighbourCount(w: nat, h: nat, p: Point): nat {
    Ind(p.x > 0) + Ind(p.x + 1 < w) + Ind(p.y > 0) + Ind(p.y + 1 < h)
  }

  /** A node's degree is the number of its in-layer axis neighbours. */
  lemma {:induction false} GridDegree(w: nat, h: nat, d: nat, layers: nat, p: Point)
    requires InBox(w, h, d, p) && layers <= d
    ensures TouchCount(GridEdges(w, h, layers), p) == if p.z < layers then NeighbourCount(w, h, p) else 0
  {
    if layers > 0 {
      var z := layers - 1;
      GridDegree(w, h, d, z, p);
      LayerDegree(w, h, z, p);
      TouchCountAppend(GridEdges(w, h, z), LayerEdges(w, h, z), p);
    }
  }

  /** Within one layer, a cell of the layer touches one edge per axis
      neighbour. */
  lemma LayerDegree(w: nat, h: nat, z: int, p: Point)
    requires 0 <= p.x < w && 0 <= p.y < h
    ensures TouchCount(LayerEdges(w, h, z), p) == if p.z == z then NeighbourCount(w, h, p) else 0
  {
    HEdgesTouch(Pred(w), h, z, p);
    VEdgesTouch(w, Pred(h), z, p);
    TouchCountAppend(HEdges(Pred(w), h, z), VEdges(w, Pred(h), z), p);
  }

  // ---------------------------------------------------------------------
  // Terminal and via marks: later marks overwrite earlier ones.

  /** The net whose terminal mark cell p carries after nets are marked in
      order, each on both of its terminals. */
  function TermMark(nets: seq<NetDef>, p: Point): (m: Option<nat>)
    ensures m.Some? ==> m.value < |nets|
  {
    if nets == [] then None
    else
      var k := |nets| - 1;
      if nets[k].startPoint == p || nets[k].endPoint == p then Some(k) else TermMark(nets[..k], p)
  }

  /** Adding a net marks its two terminals and leaves every other cell as it was. */
  lemma TermMarkSnoc(nets: seq<NetDef>, net: NetDef, p: Point)
    ensures TermMark(nets + [net], p) ==
              if net.startPoint == p || net.endPoint == p then Some(|nets|) else TermMark(nets, p)
  {
    assert (nets + [net])[..|nets|] == nets;
  }

  /** A cell is marked iff it is a terminal of some net, and then with the
      last such net. */
  lemma {:induction false} TermMarkSpec(nets: seq<NetDef>, p: Point)
    ensures TermMark(nets, p).Some? <==> exists k :: 0 <= k < |nets| && (nets[k].startPoint == p || nets[k].endPoint == p)
    ensures TermMark(nets, p).Some? ==>
              var k := TermMark(nets, p).value;
              (nets[k].startPoint == p || nets[k].endPoint == p) &&
              forall j :: k < j < |nets| ==> nets[j].startPoint != p && nets[j].endPoint != p
  {
    if nets != [] {
      var k := |nets| - 1;
      TermMarkSpec(nets[..k], p);
      if TermMark(nets[..k], p).Some? {
        assert nets[..k][TermMark(nets[..k], p).value] == nets[TermMark(nets[..k], p).value];
      }
      if exists j :: 0 <= j < |nets| && (nets[j].startPoint == p || nets[j].endPoint == p) {
        var j :| 0 <= j < |nets| && (nets[j].startPoint == p || nets[j].endPoint == p);
        if j < k { assert nets[..k][j] == nets[j]; }
      }
    }
  }

  /** The layers a via covers: z1 through z2. */
  function ViaLayers(z1: int, z2: int): (zs: seq<int>)
    decreases z2 - z1
    ensures forall i :: 0 <= i < |zs| ==> zs[i] == z1 + i
    ensures |zs| == if z1 <= z2 then z2 - z1 + 1 else 0
  {
    if z1 > z2 then [] else [z1] + ViaLayers(z1 + 1, z2)
  }

  predicate Covers(via: ViaDef, p: Point) {
    via.x == p.x && via.y == p.y && via.z1 <= p.z <= via.z2
  }

  /** The via whose mark cell p carries after vias are marked in order. */
  function ViaMark(vias: seq<ViaDef>, p: Point): (m: Option<nat>)
    ensures m.Some? ==> m.value < |vias|
  {
    if vias == [] then None
    else
      var v := |vias| - 1;
      if Covers(vias[v], p) then Some(v)
      else ViaMark(vias[..v], p)
  }

  /** A cell is marked iff some via covers it, and then with the last one. */
  lemma {:induction false} ViaMarkSpec(vias: seq<ViaDef>, p: Point)
    ensures ViaMark(vias, p).Some? <==> exists v :: 0 <= v < |vias| && Covers(vias[v], p)
    ensures ViaMark(vias, p).Some? ==>
              Covers(vias[ViaMark(vias, p).value], p) &&
              forall j :: ViaMark(vias, p).value < j < |vias| ==> !Covers(vias[j], p)
  {
    if vias != [] {
      var v := |vias| - 1;
      ViaMarkSpec(vias[..v], p);
      if ViaMark(vias[..v], p).Some? {
        assert vias[..v][ViaMark(vias[..v], p).value] == vias[ViaMark(vias[..v], p).value];
      }
      if exists j :: 0 <= j < |vias| && Covers(vias[j], p) {
        var j :| 0 <= j < |vias| && Covers(vias[j], p);
        if j < v { assert vias[..v][j] == vias[j]; }
      }
    }
  }

  // ---------------------------------------------------------------------
  // Bits needed to number the nets.

  function Pow2(k: nat): (r: nat)
    ensures r >= 1
  {
    if k == 0 then 1 else 2 * Pow2(k - 1)
  }

  /** The smallest k with 2^k >= nn, found by counting up from 0. */
  method NetNumLog(nn: int) returns (k: nat)
    ensures Pow2(k) >= nn
    ensures k == 0 || Pow2(k - 1) < nn
  {
    k := 0;
    while Pow2(k) < nn
      invariant k == 0 || Pow2(k - 1) < nn
      decreases nn - Pow2(k)
    {
      k := k + 1;
    }
  }
}
