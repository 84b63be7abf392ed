/** The grid graph: one node object per cell, one edge object per pair of
    cells that are neighbours along x or y on the same layer, each edge
    recorded in the graph and in both endpoints' incidence lists, then the
    terminal and via marks. Nodes and edges carry their position in the
    graph's lists as their id. The graph is proved to be exactly the shape
    described in GridSpec. */
module NlGraphModel {
  import opened NlProblem
  import opened GridSpec

  /** A cell of the grid. Coordinates never change; the incidence list and
      the marks are filled in while the graph is built. */
  class NlNode {
    const id: nat
    const x: int
    const y: int
    const z: int
    var edgeList: seq<NlEdge>
    var isTerminal: bool
    var terminalId: Option<nat>
    var isVia: bool
    var viaId: Option<nat>

    function Pos(): Point { Point(x, y, z) }

    /** A fresh node stores its three coordinates, has no edges and is
        neither a terminal nor a via. */
    constructor (id: nat, x: int, y: int, z: int)
      ensures this.id == id && Pos() == Point(x, y, z)
      ensures edgeList == [] && !isTerminal && terminalId == None && !isVia && viaId == None
    {
      this.id := id;
      this.x := x;
      this.y := y;
      this.z := z;
      edgeList := [];
      isTerminal := false;
      terminalId := None;
      isVia := false;
      viaId := None;
    }

    /** Marks the node as a terminal of net netId; only the terminal
        fields change. */
    method SetTerminal(netId: nat)
      modifies this`isTerminal, this`terminalId
      ensures isTerminal && terminalId == Some(netId)
    {
      isTerminal := true;
      terminalId := Some(netId);
    }

    /** Marks the node as part of via viaId; only the via fields change. */
    method SetVia(viaId: nat)
      modifies this`isVia, this`viaId
      ensures isVia && this.viaId == Some(viaId)
    {
      isVia := true;
      this.viaId := Some(viaId);
    }

    /** Appends an edge to the incidence list; only that list changes. */
    method AddEdge(edge: NlEdge)
      modifies this`edgeList
      ensures edgeList == old(edgeList) + [edge]
    {
      edgeList := edgeList + [edge];
    }
  }

  /** The coordinates a node constructor that copies x into the y field
      would store. */
  function NodeCoordsAsWritten(x: int, y: int, z: int): (p: Point)
    ensures p.x == x && p.z == z
  {
    Point(x, x, z)
  }

  /** Copying x into y keeps the coordinates only on the diagonal, and two
      cells of one column end up indistinguishable. */
  lemma NodeCoordsAsWrittenLoses(x: int, y: int, z: int)
    ensures NodeCoordsAsWritten(x, y, z) == Point(x, y, z) <==> x == y
    ensures NodeCoordsAsWritten(0, 0, 0) == NodeCoordsAsWritten(0, 1, 0)
  {
  }

  /** An edge between two nodes. */
  class NlEdge {
    const id: nat
    const node1: NlNode
    const node2: NlNode

    constructor (id: nat, node1: NlNode, node2: NlNode)
      ensures this.id == id && this.node1 == node1 && this.node2 == node2
    {
      this.id := id;
      this.node1 := node1;
      this.node2 := node2;
    }

    /** The endpoint opposite to node. Passing a node that is not an
        endpoint is an assertion failure, hence the precondition. */
    function AltNode(node: NlNode): (r: NlNode)
      requires node == node1 || node == node2
      ensures multiset{node, r} == multiset{node1, node2}
    {
      if node == node1 then node2 else node1
    }
  }

  lemma AltNodeInvolution(e: NlEdge, n: NlNode)
    requires n == e.node1 || n == e.node2
    ensures e.AltNode(n) == e.node1 || e.AltNode(n) == e.node2
    ensures e.AltNode(e.AltNode(n)) == n
  {
  }

  function EdgeIds(es: seq<NlEdge>): (ids: seq<nat>)
    ensures |ids| == |es| && forall j :: 0 <= j < |es| ==> ids[j] == es[j].id
  {
    if es == [] then [] else EdgeIds(es[..|es| - 1]) + [es[|es| - 1].id]
  }

  lemma EdgeIdsSnoc(es: seq<NlEdge>, e: NlEdge)
    ensures EdgeIds(es + [e]) == EdgeIds(es) + [e.id]
  {
    assert (es + [e])[..|es|] == es;
  }

  /** What the encoder reads about one node. */
  datatype NodeInfo = NodeInfo(z: int, edges: seq<nat>, isTerminal: bool, terminalId: Option<nat>,
                               isVia: bool, viaId: Option<nat>)

  /** What the encoder reads about the graph: node ids are positions in
      nodes, edge ids positions in edges. */
  datatype GraphView = GraphView(netNum: nat, viaNum: nat, nodes: seq<NodeInfo>,
                                 edges: seq<(int, int)>, terminalPairs: seq<(int, int)>)

  /** The graph a well-formed problem must produce. */
  function SpecView(pr: Problem): (g: GraphView)
    ensures |g.nodes| == if pr.height > 0 && pr.depth > 0 then CellCount(pr.width, pr.height, pr.depth) else 0
    ensures |g.edges| == |GridEdges(pr.width, pr.height, pr.depth)|
    ensures g.netNum == |pr.nets| == |g.terminalPairs| && g.viaNum == |pr.vias|
  {
    var w, h, d := pr.width, pr.height, pr.depth;
    GraphView(
      |pr.nets|, |pr.vias|,
      if h > 0 && d > 0 then
        seq(CellCount(w, h, d), i requires 0 <= i < CellCount(w, h, d) =>
          var p := CellAt(h, d, i);
          NodeInfo(p.z, IncidentIds(GridEdges(w, h, d), p), TermMark(pr.nets, p).Some?, TermMark(pr.nets, p),
                   ViaMark(pr.vias, p).Some?, ViaMark(pr.vias, p)))
      else [],
      IndexEdges(h, d, GridEdges(w, h, d)),
      seq(|pr.nets|, k requires 0 <= k < |pr.nets| =>
        (NodeIndex(h, d, pr.nets[k].startPoint), NodeIndex(h, d, pr.nets[k].endPoint))))
  }

  /** The graph of a problem. */
  class NlGraph {
    const width: nat
    const height: nat
    const depth: nat
    const netNum: nat
    const viaNum: nat
    ghost const problem: Problem
    var nodeList: seq<NlNode>
    var edgeList: seq<NlEdge>
    var terminalNodePairList: seq<(NlNode, NlNode)>
    /** The cell pairs of the edges created so far, in creation order. */
    ghost var built: seq<Edge>

    /** Every node carries its position in the node list as id. */
    ghost predicate NodeIds()
      reads this`nodeList
    {
      forall i :: 0 <= i < |nodeList| ==> nodeList[i].id == i
    }

    /** One node per cell, in creation order: x outermost, then y, then z. */
    ghost predicate NodeCells()
      reads this`nodeList
    {
      |nodeList| == CellCount(width, height, depth) &&
      forall i :: 0 <= i < |nodeList| ==>
        InBox(width, height, depth, nodeList[i].Pos()) && NodeIndex(height, depth, nodeList[i].Pos()) == i
    }

    /** Edge k is the k-th edge object and joins the nodes of the cells of
        built[k]. */
    ghost predicate EdgesBuilt()
      reads this`nodeList, this`edgeList, this`built
    {
      |edgeList| == |built| &&
      forall k {:trigger edgeList[k]} :: 0 <= k < |edgeList| ==>
        edgeList[k].id == k &&
        edgeList[k].node1.id < |nodeList| && nodeList[edgeList[k].node1.id] == edgeList[k].node1 &&
        edgeList[k].node2.id < |nodeList| && nodeList[edgeList[k].node2.id] == edgeList[k].node2 &&
        edgeList[k].node1.Pos() == built[k].0 && edgeList[k].node2.Pos() == built[k].1
    }

    /** Every node lists the edges that touch its cell, in creation order. */
    ghost predicate Incidence()
      reads this`nodeList, this`built, nodeList`edgeList
    {
      forall i :: 0 <= i < |nodeList| ==> EdgeIds(nodeList[i].edgeList) == IncidentIds(built, nodeList[i].Pos())
    }

    /** The nodes and the edges built so far. */
    ghost predicate EdgesState()
      reads this`nodeList, this`edgeList, this`built, nodeList`edgeList
    {
      NodeIds() && NodeCells() && EdgesBuilt() && Incidence()
    }

    ghost predicate NoEdges()
      reads this`nodeList, nodeList`edgeList
    {
      forall i :: 0 <= i < |nodeList| ==> nodeList[i].edgeList == []
    }

    ghost predicate Unmarked()
      reads this`nodeList, nodeList`isTerminal, nodeList`terminalId, nodeList`isVia, nodeList`viaId
    {
      forall i :: 0 <= i < |nodeList| ==>
        !nodeList[i].isTerminal && nodeList[i].terminalId == None &&
        !nodeList[i].isVia && nodeList[i].viaId == None
    }

    /** Every node carries the marks of nets and vias, the last one winning. */
    ghost predicate Marks(nets: seq<NetDef>, vias: seq<ViaDef>)
      reads this`nodeList, nodeList`isTerminal, nodeList`terminalId, nodeList`isVia, nodeList`viaId
    {
      forall i :: 0 <= i < |nodeList| ==>
        nodeList[i].isTerminal == TermMark(nets, nodeList[i].Pos()).Some? &&
        nodeList[i].terminalId == TermMark(nets, nodeList[i].Pos()) &&
        nodeList[i].isVia == ViaMark(vias, nodeList[i].Pos()).Some? &&
        nodeList[i].viaId == ViaMark(vias, nodeList[i].Pos())
    }

    /** The terminal node pairs of nets, in net order. */
    ghost predicate PairsBuilt(nets: seq<NetDef>)
      reads this`nodeList, this`terminalNodePairList
    {
      |terminalNodePairList| == |nets| &&
      forall k :: 0 <= k < |nets| ==>
        0 <= NodeIndex(height, depth, nets[k].startPoint) < |nodeList| &&
        0 <= NodeIndex(height, depth, nets[k].endPoint) < |nodeList| &&
        terminalNodePairList[k].0 == nodeList[NodeIndex(height, depth, nets[k].startPoint)] &&
        terminalNodePairList[k].1 == nodeList[NodeIndex(height, depth, nets[k].endPoint)]
    }

    ghost predicate Valid()
      reads this, nodeList
    {
      WellFormed(problem) &&
      width == problem.width && height == problem.height && depth == problem.depth &&
      netNum == |problem.nets| && viaNum == |problem.vias| &&
      EdgesState() && built == GridEdges(width, height, depth) &&
      Marks(problem.nets, problem.vias) && PairsBuilt(problem.nets)
    }

    /** The node of cell p. */
    function NodeAt(p: Point): (n: NlNode)
      reads this`nodeList
      requires NodeIds() && NodeCells() && InBox(width, height, depth, p)
      ensures 0 <= NodeIndex(height, depth, p) < |nodeList| && n == nodeList[NodeIndex(height, depth, p)]
      ensures n.Pos() == p && n.id == NodeIndex(height, depth, p)
    {
      NodeIndexInRange(width, height, depth, p);
      NodeIndexUnique(height, depth, p, nodeList[NodeIndex(height, depth, p)].Pos());
      nodeList[NodeIndex(height, depth, p)]
    }

    /** Builds the graph of a problem whose terminals and vias lie on the
        grid: nodes, then edges layer by layer, then terminal marks in net
        order, then via marks in via order. */
    constructor (problem: Problem)
      requires WellFormed(problem)
      ensures this.problem == problem && Valid()
    {
      width := problem.width;
      height := problem.height;
      depth := problem.depth;
      netNum := |problem.nets|;
      viaNum := |problem.vias|;
      this.problem := problem;
      nodeList := [];
      edgeList := [];
      terminalNodePairList := [];
      built := [];
      new;
      BuildNodes();
      BuildEdges();
      assert Unmarked();
      MarkAll(problem);
      assert EdgesState();
    }

    /** Terminal marks in net order, then via marks in via order. */
    method MarkAll(problem: Problem)
      requires WellFormed(problem) && width == problem.width && height == problem.height
      requires depth == problem.depth
      requires NodeIds() && NodeCells() && Unmarked() && terminalNodePairList == []
      modifies this`terminalNodePairList, nodeList`isTerminal, nodeList`terminalId, nodeList`isVia, nodeList`viaId
      ensures Marks(problem.nets, problem.vias) && PairsBuilt(problem.nets)
    {
      MarkTerminals(problem);
      MarkVias(problem);
    }

    /** One node per cell, x outermost, then y, then z. */
    method BuildNodes()
      requires nodeList == []
      modifies this`nodeList
      ensures NodeIds() && NodeCells() && NoEdges() && Unmarked()
      ensures forall i :: 0 <= i < |nodeList| ==> fresh(nodeList[i])
    {
      if height == 0 || depth == 0 {
        CellCountProduct(width, height, depth);
        return;
      }
      NodeIndexProduct(height, depth, Point(0, 0, 0));
      var x := 0;
      while x < width
        invariant 0 <= x <= width
        invariant |nodeList| == NodeIndex(height, depth, Point(x, 0, 0))
        invariant NodesPrefix()
        invariant forall i :: 0 <= i < |nodeList| ==> fresh(nodeList[i])
      {
        var y := 0;
        while y < height
          invariant 0 <= y <= height
          invariant |nodeList| == NodeIndex(height, depth, Point(x, y, 0))
          invariant NodesPrefix()
          invariant forall i :: 0 <= i < |nodeList| ==> fresh(nodeList[i])
        {
          var z := 0;
          while z < depth
            invariant 0 <= z <= depth
            invariant |nodeList| == NodeIndex(height, depth, Point(x, y, z))
            invariant NodesPrefix()
            invariant forall i :: 0 <= i < |nodeList| ==> fresh(nodeList[i])
          {
            NewNode(x, y, z);
            z := z + 1;
          }
          NodeIndexNext(height, depth, x, y);
          y := y + 1;
        }
        NodeIndexNext(height, depth, x, y);
        x := x + 1;
      }
      assert NodeIndex(height, depth, Point(width, 0, 0)) == CellCount(width, height, depth);
    }

    /** The nodes created so far sit at their cells' positions, carry their
        positions as ids, and have neither edges nor marks. */
    ghost predicate NodesPrefix()
      reads this`nodeList, nodeList
    {
      height > 0 && depth > 0 && NodeIds() && NoEdges() && Unmarked() &&
      forall i :: 0 <= i < |nodeList| ==>
        InBox(width, height, depth, nodeList[i].Pos()) && NodeIndex(height, depth, nodeList[i].Pos()) == i
    }

    /** Creates the node of cell (x, y, z) at the end of the node list. */
    method NewNode(x: int, y: int, z: int)
      requires NodesPrefix()
      requires 0 <= x < width && 0 <= y < height && 0 <= z < depth
      requires |nodeList| == NodeIndex(height, depth, Point(x, y, z))
      modifies this`nodeList
      ensures |nodeList| == |old(nodeList)| + 1 && nodeList[..|old(nodeList)|] == old(nodeList)
      ensures fresh(nodeList[|old(nodeList)|])
      ensures NodesPrefix()
    {
      var node := new NlNode(|nodeList|, x, y, z);
      nodeList := nodeList + [node];
    }

    /** The edges of every layer, layer by layer. */
    method BuildEdges()
      requires NodeIds() && NodeCells() && NoEdges() && edgeList == [] && built == []
      modifies this`edgeList, this`built, nodeList`edgeList
      ensures EdgesState() && built == GridEdges(width, height, depth)
    {
      var z := 0;
      while z < depth
        invariant 0 <= z <= depth
        invariant EdgesState() && built == GridEdges(width, height, z)
      {
        AddLayer(z);
        z := z + 1;
      }
    }

    /** The edges of layer z: first (x, y)-(x+1, y) for x below w-1 and every
        y, then (x, y)-(x, y+1) for every x and y below h-1. */
    method AddLayer(z: int)
      requires 0 <= z < depth && EdgesState()
      modifies this`edgeList, this`built, nodeList`edgeList
      ensures EdgesState() && built == old(built) + LayerEdges(width, height, z)
    {
      ghost var pre := built;
      AddHorizontalEdges(z);
      AddVerticalEdges(z);
      AppendAssoc(pre, HEdges(Pred(width), height, z), VEdges(width, Pred(height), z));
    }

    /** The horizontal edges of layer z, column by column. */
    method AddHorizontalEdges(z: int)
      requires 0 <= z < depth && EdgesState()
      modifies this`edgeList, this`built, nodeList`edgeList
      ensures EdgesState() && built == old(built) + HEdges(Pred(width), height, z)
    {
      ghost var pre := built;
      var x := 0;
      while x < Pred(width)
        invariant 0 <= x <= Pred(width)
        invariant EdgesState() && built == pre + HEdges(x, height, z)
      {
        AddHorizontalColumn(x, z);
        AppendAssoc(pre, HEdges(x, height, z), HCol(x, height, z));
        x := x + 1;
      }
    }

    /** The vertical edges of layer z, column by column. */
    method AddVerticalEdges(z: int)
      requires 0 <= z < depth && EdgesState()
      modifies this`edgeList, this`built, nodeList`edgeList
      ensures EdgesState() && built == old(built) + VEdges(width, Pred(height), z)
    {
      ghost var pre := built;
      var x := 0;
      while x < width
        invariant 0 <= x <= width
        invariant EdgesState() && built == pre + VEdges(x, Pred(height), z)
      {
        AddVerticalColumn(x, z);
        AppendAssoc(pre, VEdges(x, Pred(height), z), VCol(x, Pred(height), z));
        x := x + 1;
      }
    }

    /** The horizontal edges (x, y, z)-(x+1, y, z), y ascending. */
    method AddHorizontalColumn(x: int, z: int)
      requires 0 <= x < Pred(width) && 0 <= z < depth && EdgesState()
      modifies this`edgeList, this`built, nodeList`edgeList
      ensures EdgesState() && built == old(built) + HCol(x, height, z)
    {
      ghost var pre := built;
      var y := 0;
      while y < height
        invariant 0 <= y <= height
        invariant EdgesState() && built == pre + HCol(x, y, z)
      {
        AddGridEdge(Point(x, y, z), Point(x + 1, y, z));
        AppendAssoc(pre, HCol(x, y, z), [(Point(x, y, z), Point(x + 1, y, z))]);
        assert HCol(x, y + 1, z) == HCol(x, y, z) + [(Point(x, y, z), Point(x + 1, y, z))];
        y := y + 1;
      }
    }

    /** The vertical edges (x, y, z)-(x, y+1, z), y ascending. */
    method AddVerticalColumn(x: int, z: int)
      requires 0 <= x < width && 0 <= z < depth && EdgesState()
      modifies this`edgeList, this`built, nodeList`edgeList
      ensures EdgesState() && built == old(built) + VCol(x, Pred(height), z)
    {
      ghost var pre := built;
      var y := 0;
      while y < Pred(height)
        invariant 0 <= y <= Pred(height)
        invariant EdgesState() && built == pre + VCol(x, y, z)
      {
        AddGridEdge(Point(x, y, z), Point(x, y + 1, z));
        AppendAssoc(pre, VCol(x, y, z), [(Point(x, y, z), Point(x, y + 1, z))]);
        assert VCol(x, y + 1, z) == VCol(x, y, z) + [(Point(x, y, z), Point(x, y + 1, z))];
        y := y + 1;
      }
    }

    /** Looks up the nodes of two distinct cells of the box and joins them. */
    method AddGridEdge(p1: Point, p2: Point)
      requires EdgesState()
      requires InBox(width, height, depth, p1) && InBox(width, height, depth, p2) && p1 != p2
      modifies this`edgeList, this`built, nodeList`edgeList
      ensures EdgesState() && built == old(built) + [(p1, p2)]
    {
      var node1 := NodeAt(p1);
      var node2 := NodeAt(p2);
      NewEdge(node1, node2);
    }

    /** Records a new edge between node1 and node2 in the graph and in both
        endpoints' incidence lists. */
    method NewEdge(node1: NlNode, node2: NlNode)
      requires EdgesState()
      requires node1.id < |nodeList| && nodeList[node1.id] == node1
      requires node2.id < |nodeList| && nodeList[node2.id] == node2
      requires node1.Pos() != node2.Pos()
      modifies this`edgeList, this`built, node1`edgeList, node2`edgeList
      ensures EdgesState() && built == old(built) + [(node1.Pos(), node2.Pos())]
    {
      ghost var e := (node1.Pos(), node2.Pos());
      var edge := new NlEdge(|edgeList|, node1, node2);
      edgeList := edgeList + [edge];
      built := built + [e];
      node1.AddEdge(edge);
      node2.AddEdge(edge);
      assert NodeIds() && NodeCells();
      assert EdgesBuilt();
      forall i | 0 <= i < |nodeList| ensures EdgeIds(nodeList[i].edgeList) == IncidentIds(built, nodeList[i].Pos()) {
        var n := nodeList[i];
        IncidentIdsSnoc(old(built), e, n.Pos());
        assert old(EdgeIds(n.edgeList)) == IncidentIds(old(built), n.Pos());
        if n == node1 || n == node2 {
          EdgeIdsSnoc(old(n.edgeList), edge);
        } else {
          assert NodeIndex(height, depth, n.Pos()) == i;
          assert NodeIndex(height, depth, node1.Pos()) == node1.id;
          assert NodeIndex(height, depth, node2.Pos()) == node2.id;
          assert !Touches(e, n.Pos());
        }
      }
    }

    /** Marks both terminals of every net with the net's position in the
        net list and records the pair of terminal nodes. */
    method MarkTerminals(problem: Problem)
      requires WellFormed(problem) && width == problem.width && height == problem.height
      requires depth == problem.depth
      requires NodeIds() && NodeCells() && Unmarked() && terminalNodePairList == []
      modifies this`terminalNodePairList, nodeList`isTerminal, nodeList`terminalId
      ensures Marks(problem.nets, []) && PairsBuilt(problem.nets)
    {
      var nets := problem.nets;
      assert Marks([], []);
      var k := 0;
      while k < |nets|
        invariant 0 <= k <= |nets|
        invariant Marks(nets[..k], []) && PairsBuilt(nets[..k])
      {
        MarkNet(nets, k);
        k := k + 1;
      }
      assert nets[..k] == nets;
    }

    /** Marks the two terminals of the next net and records them. */
    method MarkNet(nets: seq<NetDef>, k: nat)
      requires NodeIds() && NodeCells() && k < |nets|
      requires InBox(width, height, depth, nets[k].startPoint) && InBox(width, height, depth, nets[k].endPoint)
      requires Marks(nets[..k], []) && PairsBuilt(nets[..k])
      modifies this`terminalNodePairList, nodeList`isTerminal, nodeList`terminalId
      ensures Marks(nets[..k + 1], []) && PairsBuilt(nets[..k + 1])
    {
      assert nets[..k + 1] == nets[..k] + [nets[k]];
      MarkPair(nets[..k], nets[k]);
    }

    /** Marks the two terminals of net after the nets done, and records them. */
    method MarkPair(done: seq<NetDef>, net: NetDef)
      requires NodeIds() && NodeCells()
      requires InBox(width, height, depth, net.startPoint) && InBox(width, height, depth, net.endPoint)
      requires Marks(done, []) && PairsBuilt(done)
      modifies this`terminalNodePairList, nodeList`isTerminal, nodeList`terminalId
      ensures Marks(done + [net], []) && PairsBuilt(done + [net])
    {
      var node1 := NodeAt(net.startPoint);
      var node2 := NodeAt(net.endPoint);
      node1.SetTerminal(|done|);
      node2.SetTerminal(|done|);
      terminalNodePairList := terminalNodePairList + [(node1, node2)];
      assert (done + [net])[..|done|] == done;
      forall i | 0 <= i < |nodeList|
        ensures nodeList[i].isTerminal == TermMark(done + [net], nodeList[i].Pos()).Some?
        ensures nodeList[i].terminalId == TermMark(done + [net], nodeList[i].Pos())
        ensures nodeList[i].isVia == ViaMark([], nodeList[i].Pos()).Some?
        ensures nodeList[i].viaId == ViaMark([], nodeList[i].Pos())
      {
        var n := nodeList[i];
        TermMarkSnoc(done, net, n.Pos());
        if n != node1 && n != node2 {
          assert NodeIndex(height, depth, n.Pos()) == i;
          assert n.Pos() != net.startPoint && n.Pos() != net.endPoint;
        }
      }
    }

    /** Marks every cell of every via's column from z1 to z2 with the via's
        position in the via list. */
    method MarkVias(problem: Problem)
      requires WellFormed(problem) && width == problem.width && height == problem.height
      requires depth == problem.depth
      requires NodeIds() && NodeCells() && Marks(problem.nets, [])
      modifies nodeList`isVia, nodeList`viaId
      ensures Marks(problem.nets, problem.vias)
    {
      var vias := problem.vias;
      var v := 0;
      while v < |vias|
        invariant 0 <= v <= |vias|
        invariant Marks(problem.nets, vias[..v])
      {
        MarkVia(problem.nets, vias[..v], vias[v]);
        assert vias[..v + 1] == vias[..v] + [vias[v]];
        v := v + 1;
      }
      assert vias[..v] == vias;
    }

    /** Marks the column of the next via on layers z1 through z2. */
    method MarkVia(ghost nets: seq<NetDef>, done: seq<ViaDef>, via: ViaDef)
      requires NodeIds() && NodeCells() && Marks(nets, done)
      requires 0 <= via.x < width && 0 <= via.y < height && 0 <= via.z1 && via.z2 < depth
      modifies nodeList`isVia, nodeList`viaId
      ensures Marks(nets, done + [via])
    {
      var z := via.z1;
      while z <= via.z2
        invariant z == via.z1 || via.z1 < z <= via.z2 + 1
        invariant ViaPartial(nets, done, via, z)
      {
        MarkViaCell(nets, done, via, z);
        z := z + 1;
      }
      assert (done + [via])[..|done|] == done;
      forall i | 0 <= i < |nodeList|
        ensures nodeList[i].isVia == ViaMark(done + [via], nodeList[i].Pos()).Some?
        ensures nodeList[i].viaId == ViaMark(done + [via], nodeList[i].Pos())
      {
        var p := nodeList[i].Pos();
        assert via.z1 <= p.z < z <==> via.z1 <= p.z <= via.z2;
      }
    }

    /** Marks the cell of the via's column on layer z. */
    method MarkViaCell(ghost nets: seq<NetDef>, done: seq<ViaDef>, via: ViaDef, z: int)
      requires NodeIds() && NodeCells() && ViaPartial(nets, done, via, z)
      requires 0 <= via.x < width && 0 <= via.y < height && via.z1 <= z && 0 <= z < depth
      modifies nodeList`isVia, nodeList`viaId
      ensures ViaPartial(nets, done, via, z + 1)
    {
      var node := NodeAt(Point(via.x, via.y, z));
      node.SetVia(|done|);
      forall i | 0 <= i < |nodeList| && nodeList[i] != node
        ensures nodeList[i].Pos() != node.Pos()
      {
      }
    }

    /** The next via has marked layers z1 .. z-1 of its column so far. */
    ghost predicate ViaPartial(nets: seq<NetDef>, done: seq<ViaDef>, via: ViaDef, z: int)
      reads this`nodeList, nodeList`isTerminal, nodeList`terminalId, nodeList`isVia, nodeList`viaId
    {
      forall i :: 0 <= i < |nodeList| ==>
        var p := nodeList[i].Pos();
        var m := if p.x == via.x && p.y == via.y && via.z1 <= p.z < z then Some(|done|) else ViaMark(done, p);
        nodeList[i].isTerminal == TermMark(nets, p).Some? &&
        nodeList[i].terminalId == TermMark(nets, p) &&
        nodeList[i].isVia == m.Some? && nodeList[i].viaId == m
    }

    /** The pair of terminal nodes of net netId. */
    function TerminalNodePair(netId: nat): (pair: (NlNode, NlNode))
      reads this, nodeList
      requires Valid() && netId < netNum
      ensures pair.0.Pos() == problem.nets[netId].startPoint
      ensures pair.1.Pos() == problem.nets[netId].endPoint
    {
      var n1 := NodeAt(problem.nets[netId].startPoint);
      var n2 := NodeAt(problem.nets[netId].endPoint);
      assert terminalNodePairList[netId] == (n1, n2);
      terminalNodePairList[netId]
    }

    function Info(n: NlNode): NodeInfo
      reads n
    {
      NodeInfo(n.z, EdgeIds(n.edgeList), n.isTerminal, n.terminalId, n.isVia, n.viaId)
    }

    /** The graph as the encoder sees it. */
    function View(): GraphView
      reads this, nodeList
    {
      GraphView(netNum, viaNum,
                seq(|nodeList|, i requires 0 <= i < |nodeList| reads this, nodeList => Info(nodeList[i])),
                seq(|edgeList|, k requires 0 <= k < |edgeList| reads this => (edgeList[k].node1.id, edgeList[k].node2.id)),
                seq(|terminalNodePairList|, k requires 0 <= k < |terminalNodePairList| reads this =>
                  (terminalNodePairList[k].0.id, terminalNodePairList[k].1.id)))
    }

    /** Node i of the built graph is node i of its problem's graph. */
    lemma ViewNodeIsSpec(i: int)
      requires Valid() && height > 0 && depth > 0 && 0 <= i < |nodeList|
      ensures View().nodes[i] == SpecView(problem).nodes[i]
    {
      CellAtNodeIndex(width, height, depth, nodeList[i].Pos());
    }

    /** The node records of the built graph are those of its problem's graph. */
    lemma ViewNodesAreSpec()
      requires Valid()
      ensures View().nodes == SpecView(problem).nodes
    {
      var g, s := View(), SpecView(problem);
      if height > 0 && depth > 0 {
        forall i | 0 <= i < |nodeList| ensures g.nodes[i] == s.nodes[i] {
          ViewNodeIsSpec(i);
        }
      } else {
        CellCountProduct(width, height, depth);
      }
    }

    /** The edge list of the built graph is that of its problem's graph. */
    lemma ViewEdgesAreSpec()
      requires Valid()
      ensures View().edges == SpecView(problem).edges
    {
      IndexEdgesSpec(height, depth, built);
    }

    /** The terminal pairs of the built graph are those of its problem's graph. */
    lemma ViewPairsAreSpec()
      requires Valid()
      ensures View().terminalPairs == SpecView(problem).terminalPairs
    {
      var g, s := View(), SpecView(problem);
      forall k | 0 <= k < netNum ensures g.terminalPairs[k] == s.terminalPairs[k] {
      }
    }

    /** The built graph is the graph of its problem. */
    lemma ViewIsSpec()
      requires Valid()
      ensures View() == SpecView(problem)
    {
      ViewNodesAreSpec();
      ViewEdgesAreSpec();
      ViewPairsAreSpec();
    }
  }

  /** The layers the via-marking loop visits when its range runs from z1 to
      z2 - z1 instead of z2. */
  function ViaLayersAsWritten(z1: int, z2: int): (zs: seq<int>)
    ensures forall i :: 0 <= i < |zs| ==> zs[i] == z1 + i
    ensures |zs| == if 2 * z1 <= z2 then z2 - 2 * z1 + 1 else 0
  {
    ViaLayers(z1, z2 - z1)
  }

  /** The shortened range agrees with z1 .. z2 only when z1 is 0; a via on
      layers 1 and 2 marks layer 1 only. */
  lemma ViaLayersAsWrittenDiffers(z1: int, z2: int)
    requires 0 <= z1 <= z2
    ensures ViaLayersAsWritten(z1, z2) == ViaLayers(z1, z2) <==> z1 == 0
    ensures ViaLayersAsWritten(1, 2) == [1] && ViaLayers(1, 2) == [1, 2]
  {
    if z1 > 0 {
      assert |ViaLayersAsWritten(z1, z2)| != |ViaLayers(z1, z2)|;
    } else {
      assert ViaLayersAsWritten(z1, z2) == ViaLayers(z1, z2);
    }
    var ws := ViaLayersAsWritten(1, 2);
    assert |ws| == 1 && ws[0] == 1;
    assert ws == [1];
    var zs := ViaLayers(1, 2);
    assert |zs| == 2 && zs[0] == 1 && zs[1] == 2;
    assert zs == [1, 2];
  }
}
