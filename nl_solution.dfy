/** A solution of a problem: the grid of net numbers written from the routes
    of the nets, printed in the solution text format; and the top-level
    solve step that encodes a graph and turns the solver's verdict into a
    status and, when satisfiable, a solution. */
module NlSolutionModel {
  import opened NlProblem
  import opened SolutionFormat
  import opened SatSolver
  import opened NlGraphModel
  import CnfEncoder
  import opened GridSpec

  /** Every point of the routes of nets 0 .. n-1 is a cell of the grid. */
  predicate RoutesInBox(w: nat, h: nat, d: nat, routes: seq<seq<Point>>, n: nat)
    requires n <= |routes|
  {
    forall k, j :: 0 <= k < n && 0 <= j < |routes[k]| ==> InBox(w, h, d, routes[k][j])
  }

  /** The grid holds, at every cell, the number of the last net whose route
      covers it, or 0. */
  ghost predicate HoldsCells(grid: array3<nat>, routes: seq<seq<Point>>, n: nat)
    requires n <= |routes|
    reads grid
  {
    forall x, y, z :: 0 <= x < grid.Length0 && 0 <= y < grid.Length1 && 0 <= z < grid.Length2 ==>
      grid[x, y, z] == CellValue(routes, n, Point(x, y, z))
  }

  /** A w x h x d grid of zeros on which net k+1 is written on every cell of
      routes[k], nets in order, so a later net overwrites an earlier one. */
  method CellGrid(w: nat, h: nat, d: nat, routes: seq<seq<Point>>, n: nat) returns (grid: array3<nat>)
    requires n <= |routes| && RoutesInBox(w, h, d, routes, n)
    ensures grid.Length0 == w && grid.Length1 == h && grid.Length2 == d
    ensures HoldsCells(grid, routes, n)
  {
    grid := new nat[w, h, d]((x, y, z) => 0);
    var k := 0;
    while k < n
      invariant 0 <= k <= n
      invariant grid.Length0 == w && grid.Length1 == h && grid.Length2 == d
      invariant HoldsCells(grid, routes, k)
    {
      var route := routes[k];
      var j := 0;
      while j < |route|
        invariant 0 <= j <= |route|
        invariant forall x, y, z :: 0 <= x < w && 0 <= y < h && 0 <= z < d ==>
                    grid[x, y, z] == if Point(x, y, z) in route[..j] then k + 1 else CellValue(routes, k, Point(x, y, z))
      {
        var p := route[j];
        assert InBox(w, h, d, routes[k][j]);
        grid[p.x, p.y, p.z] := k + 1;
        assert route[..j + 1] == route[..j] + [p];
        j := j + 1;
      }
      assert route[..j] == route;
      k := k + 1;
    }
  }

  /** The text of row y of layer z, the cells of x = 0 .. w-1 each written
      with at least two digits, commas between them. */
  method FormatRow(grid: array3<nat>, ghost routes: seq<seq<Point>>, ghost n: nat, y: nat, z: nat) returns (line: string)
    requires n <= |routes| && HoldsCells(grid, routes, n)
    requires y < grid.Length1 && z < grid.Length2
    ensures line == Row(RowCells(routes, n, grid.Length0, y, z))
  {
    ghost var cells := RowCells(routes, n, grid.Length0, y, z);
    line := "";
    var comma := "";
    var x := 0;
    while x < grid.Length0
      invariant 0 <= x <= grid.Length0
      invariant line == Row(cells[..x])
      invariant comma == if x == 0 then "" else ","
    {
      line := line + comma;
      comma := ",";
      line := line + Pad2(grid[x, y, z]);
      assert cells[..x + 1][..x] == cells[..x];
      x := x + 1;
    }
    assert cells[..x] == cells;
  }

  /** Appends the heading of layer z and its rows, y ascending, to the
      lines printed so far. */
  method FormatLayer(grid: array3<nat>, ghost routes: seq<seq<Point>>, ghost n: nat, z: nat,
                     ghost done: seq<TextLine>, lines0: seq<string>) returns (lines: seq<string>)
    requires n <= |routes| && HoldsCells(grid, routes, n) && z < grid.Length2
    requires lines0 == RenderAll(routes, n, grid.Length0, grid.Length1, grid.Length2, done)
    ensures lines == RenderAll(routes, n, grid.Length0, grid.Length1, grid.Length2, done + [LayerText(z)] + LayerRows(grid.Length1, z))
  {
    var w, h, d := grid.Length0, grid.Length1, grid.Length2;
    RenderAllSnoc(routes, n, w, h, d, done, LayerText(z));
    lines := lines0 + ["LAYER " + NatStr(z + 1)];
    ghost var head := done + [LayerText(z)];
    var y := 0;
    while y < h
      invariant 0 <= y <= h
      invariant lines == RenderAll(routes, n, w, h, d, head + LayerRows(y, z))
    {
      var line := FormatRow(grid, routes, n, y, z);
      RenderAllSnoc(routes, n, w, h, d, head + LayerRows(y, z), RowText(y, z));
      assert LayerRows(y + 1, z) == LayerRows(y, z) + [RowText(y, z)];
      AppendAssoc(head, LayerRows(y, z), [RowText(y, z)]);
      lines := lines + [line];
      y := y + 1;
    }
  }

  /** The lines that print a grid holding the routes: the SIZE line, then
      every layer's heading and rows. */
  method FormatGrid(grid: array3<nat>, ghost routes: seq<seq<Point>>, ghost n: nat) returns (lines: seq<string>)
    requires n <= |routes| && HoldsCells(grid, routes, n)
    ensures lines == SolutionText(routes, n, grid.Length0, grid.Length1, grid.Length2)
  {
    var w, h, d := grid.Length0, grid.Length1, grid.Length2;
    lines := ["SIZE " + NatStr(w) + "X" + NatStr(h) + "X" + NatStr(d)];
    assert lines == RenderAll(routes, n, w, h, d, [SizeText]);
    var z := 0;
    while z < d
      invariant 0 <= z <= d
      invariant lines == RenderAll(routes, n, w, h, d, [SizeText] + LayersLines(h, z))
    {
      lines := FormatLayer(grid, routes, n, z, [SizeText] + LayersLines(h, z), lines);
      AppendAssoc([SizeText], LayersLines(h, z) + [LayerText(z)], LayerRows(h, z));
      AppendAssoc([SizeText], LayersLines(h, z), [LayerText(z)]);
      z := z + 1;
    }
  }

  /** A solution: the grid of net numbers of a graph's cells. */
  class NlSolution {
    const width: nat
    const height: nat
    const depth: nat
    const gridArray: array3<nat>
    /** The routes the grid was written from, and the number of nets. */
    ghost const routes: seq<seq<Point>>
    ghost const netNum: nat

    ghost predicate Valid()
      reads this, gridArray
    {
      netNum <= |routes| &&
      gridArray.Length0 == width && gridArray.Length1 == height && gridArray.Length2 == depth &&
      HoldsCells(gridArray, routes, netNum)
    }

    /** Writes the routes of the graph's nets on a grid of the graph's size. */
    constructor (graph: NlGraph, routeList: seq<seq<Point>>)
      requires graph.netNum <= |routeList|
      requires RoutesInBox(graph.width, graph.height, graph.depth, routeList, graph.netNum)
      ensures width == graph.width && height == graph.height && depth == graph.depth
      ensures routes == routeList && netNum == graph.netNum
      ensures Valid()
    {
      var grid := CellGrid(graph.width, graph.height, graph.depth, routeList, graph.netNum);
      width := graph.width;
      height := graph.height;
      depth := graph.depth;
      routes := routeList;
      netNum := graph.netNum;
      gridArray := grid;
    }

    /** The printed solution. */
    method Print() returns (lines: seq<string>)
      requires Valid()
      ensures lines == SolutionText(routes, netNum, width, height, depth)
    {
      lines := FormatGrid(gridArray, routes, netNum);
    }
  }

  /** Builds the grid of a graph from the routes of its nets and prints it,
      in the same format as NlSolution.Print. */
  method MakeSolution(graph: NlGraph, routeList: seq<seq<Point>>) returns (lines: seq<string>)
    requires graph.netNum <= |routeList|
    requires RoutesInBox(graph.width, graph.height, graph.depth, routeList, graph.netNum)
    ensures lines == SolutionText(routeList, graph.netNum, graph.width, graph.height, graph.depth)
  {
    var grid := CellGrid(graph.width, graph.height, graph.depth, routeList, graph.netNum);
    lines := FormatGrid(grid, routeList, graph.netNum);
  }

  /** What solving reports: "OK" with a solution, or "NG" / "Abort" alone. */
  datatype SolveOutcome = Solved(status: string, solution: NlSolution) | Unsolved(status: string)

  /** The status of a verdict, and on "OK" the solution written from the
      routes read off the model. */
  method Report(graph: NlGraph, verdict: SatBool3, routeList: seq<seq<Point>>) returns (outcome: SolveOutcome)
    requires verdict == B3True ==>
               graph.netNum <= |routeList| && RoutesInBox(graph.width, graph.height, graph.depth, routeList, graph.netNum)
    ensures outcome.status == match verdict
                              case B3True => "OK"
                              case B3False => "NG"
                              case B3X => "Abort"
    ensures outcome.Solved? <==> verdict == B3True
    ensures outcome.Solved? ==>
              outcome.solution.Valid() &&
              outcome.solution.routes == routeList && outcome.solution.netNum == graph.netNum &&
              outcome.solution.width == graph.width && outcome.solution.height == graph.height &&
              outcome.solution.depth == graph.depth
  {
    match verdict
    case B3True =>
      var solution := new NlSolution(graph, routeList);
      outcome := Solved("OK", solution);
    case B3False =>
      outcome := Unsolved("NG");
    case B3X =>
      outcome := Unsolved("Abort");
  }

  /** Encodes the graph into the solver, then reports the solver's verdict:
      satisfiable gives "OK" and the solution written from the routes read
      off the model, unsatisfiable "NG", undecided "Abort". */
  method SolveNlink(graph: NlGraph, solver: Solver, verdict: SatBool3, routeList: seq<seq<Point>>)
    returns (outcome: SolveOutcome)
    requires CnfEncoder.Encodable(graph.View())
    requires verdict == B3True ==>
               graph.netNum <= |routeList| && RoutesInBox(graph.width, graph.height, graph.depth, routeList, graph.netNum)
    modifies solver
    ensures var L := CnfEncoder.LayoutOf(graph.View(), old(solver.varCount));
            solver.clauses == old(solver.clauses) + CnfEncoder.EncodeClauses(graph.View(), L) &&
            solver.varCount == L.Top()
    ensures outcome.status == match verdict
                              case B3True => "OK"
                              case B3False => "NG"
                              case B3X => "Abort"
    ensures outcome.Solved? <==> verdict == B3True
    ensures outcome.Solved? ==>
              outcome.solution.Valid() &&
              outcome.solution.routes == routeList && outcome.solution.netNum == graph.netNum &&
              outcome.solution.width == graph.width && outcome.solution.height == graph.height &&
              outcome.solution.depth == graph.depth
  {
    ghost var g := graph.View();
    var enc := new CnfEncoder.NlCnfEncoder(graph.View(), solver);
    assert graph.View() == g;
    outcome := Report(graph, verdict, routeList);
  }
}
