# nl3d: a verified model of the 3-D Numberlink to CNF encoder

nl3d solves 3-D Numberlink puzzles in the ADC2016 format. The grid is w by
h by d cells. Some pairs of cells are the two terminals of a net, and
some columns of cells are vias that join layers. Every net has to be
routed from one terminal to the other along cells that are neighbours
along x or y on one layer, changing layers only through a via. Routes of
different nets must not share a cell. The program has five steps:

1. `ADC2016_Reader.read` parses a problem file into an `NlProblem`
   (size, nets, vias).
2. `NlGraph` turns the problem into a grid graph:
   - one node per cell;
   - one edge per pair of in-layer neighbours;
   - terminal and via marks on the nodes.
3. `NlCnfEncoder` allocates SAT variables and emits the CNF clauses:
   - one variable per edge;
   - one one-hot label per node and net;
   - one variable per (net, via) pair.
4. `solve_nlink` runs the solver and reports "OK", "NG" or "Abort".
5. `NlSolution` and `_make_solution` print a solution as a grid of net
   numbers.

This project models those five steps in Dafny and proves what each step
promises.

- `sat_solver.dfy` (`SatSolver`): the three-valued verdict, the solver's variable counter and clause list, and what literals, clauses and models mean.
- `cnf_templates.dfy` (`CnfTemplates`): the clause templates `_make_one`, `_make_conditional_zero`, `_make_conditional_one`, `_make_zero_or_two` and `_make_conditional_equal`; each comes with a lemma saying exactly which assignments satisfy it.
- `nl_problem.dfy` (`NlProblem`): the problem records the reader fills and the graph consumes.
- `grid_spec.dfy` (`GridSpec`): the graph's shape as values: node order, edge creation order, incidence lists, degrees, and terminal and via marks.
- `nl_graph.dfy` (`NlGraphModel`): the classes `NlNode`, `NlEdge` and `NlGraph`, built in place and proved to equal the shape in `GridSpec`.
- `cnf_encoder.dfy` (`CnfEncoder`): `NlCnfEncoder`; it is proved to add exactly the clauses of a reference encoding, and those clauses hold exactly when every node and every edge meets the condition the encoder imposes on it (`NodeOk`, `EdgeOk`).
- `adc2016_reader.dfy` (`Adc2016Reader`, `Adc2016ReaderFacts`): the reader as a class whose methods follow a per-line step function; lemmas state how the problem is accepted or rejected.
- `solution_format.dfy` (`SolutionFormat`): the solution text as a function of the routes, with round trips for the number and row formats.
- `nl_solution.dfy` (`NlSolutionModel`): `NlSolution`, `_make_solution` and `solve_nlink`.

How the model is set up:

- **Imperative code stays imperative.**
  - The graph constructor's loops, the encoder's allocation and clause
    loops, the reader's line loop and the grid filling and printing loops
    are methods with loop invariants.
  - Each such method is proved against a pure function: `GridEdges`,
    `SpecView`, `EncodeClauses`, `Run`/`Step` or `SolutionText`.
  - The lemmas are stated about those functions.
- **Node and edge ids.** A node's id is its position in the graph's node
  list, and an edge's id is its position in the edge list. The encoder
  indexes its variable tables by these ids.
- **The encoder's input.** The encoder reads the graph through `View()`,
  a value holding the node records, the edge ends and the terminal
  pairs.

## Model

| member | source | states |
|---|---|---|
| SatSolver.Value | nl3d/sat/satsolver_tmpl.py:15-18 | The enum values are X = 0, True = 1 and False = -1, and the value identifies the member. |
| SatSolver.Negate | nl3d/sat/satsolver_tmpl.py:22-30 | The value of the negation is minus the value: X stays X, and True and False swap. |
| SatSolver.NegateInvolution | nl3d/sat/satsolver_tmpl.py:22-30 | Negating twice gives back the verdict. Negation fixes exactly X. |
| SatSolver.Repr | nl3d/sat/satsolver_tmpl.py:33-41 | The printed forms are "X(unknown)", "True" and "False". |
| SatSolver.ReprInjective | nl3d/sat/satsolver_tmpl.py:33-41 | Two verdicts print the same iff they are equal. |
| SatSolver.VarOf | nl3d/sat/satsolver_tmpl.py:63-66 | A literal's variable is its absolute value, and it is positive for a non-zero literal. |
| SatSolver.SatisfiesAppend | nl3d/sat/satsolver_tmpl.py:67-68 | A clause list added in two parts holds iff both parts hold (a CNF is a conjunction). |
| SatSolver.ModelAssignment | nl3d/sat/satsolver_tmpl.py:76-78 | The model holds the value of variable v at index v. The known entries give an assignment where v is true iff model[v] is True. |
| SatSolver.Solver.constructor | nl3d/sat/satsolver_tmpl.py:47-48 | A new solver has allocated no variables and holds no clauses. |
| SatSolver.Solver.NewVariable | nl3d/sat/satsolver_tmpl.py:55-57 | Returns the counter plus one and stores it, so numbers start at 1 and go up by one. The clauses are unchanged. |
| SatSolver.Solver.AddClause | nl3d/sat/satsolver_tmpl.py:67-68 | The clause is appended and the counter is unchanged. |
| SatSolver.Solver.AddClauses | nl3d/sat/satsolver_tmpl.py:67-68 | Adding a list of clauses one at a time appends the whole list in order. |
| SatSolver.SolverTestScenario | tests/satsolver_test.py:20-36 | Two fresh variables get numbers 1 and 2. The clause list is exactly [[1, -2], [-1]], and it is satisfied exactly when both variables are false. |
| CnfTemplates.CountTrue | nl3d/nlcnfencoder.py:107-108 | The number of true variables in a list is at most the list's length. |
| CnfTemplates.CountTrueZero | nl3d/nlcnfencoder.py:140-143 | No variable of the list is true iff every variable is false. |
| CnfTemplates.MakeOne | nl3d/nlcnfencoder.py:108-137 | For 2, 3 and 4 variables it emits 2, 4 and 7 clauses, the last one the positive clause over all of them. Any other length is excluded, because the source asserts False. |
| CnfTemplates.MakeOneMeaning | nl3d/nlcnfencoder.py:108-137 | The clauses hold iff exactly one of the variables is true. |
| CnfTemplates.MakeOne2Meaning | nl3d/nlcnfencoder.py:111-115 | The 2-variable case of the exactly-one template. |
| CnfTemplates.MakeOne3Meaning | nl3d/nlcnfencoder.py:116-123 | The 3-variable case of the exactly-one template. |
| CnfTemplates.MakeOne4Meaning | nl3d/nlcnfencoder.py:124-135 | The 4-variable case of the exactly-one template. |
| CnfTemplates.AtMostOneOfFour | nl3d/nlcnfencoder.py:129-134 | The six binary clauses forbid every pair of the four variables being true together. |
| CnfTemplates.Guard | nl3d/nlcnfencoder.py:147-176 | Every clause gets the negated condition literal in front. |
| CnfTemplates.GuardMeaning | nl3d/nlcnfencoder.py:147-176 | The guarded clauses hold iff the condition is false or the original clauses hold. |
| CnfTemplates.MakeConditionalOne | nl3d/nlcnfencoder.py:147-176 | It emits 2, 4 or 7 clauses, each starting with the negated condition variable. |
| CnfTemplates.MakeConditionalOneIsGuarded | nl3d/nlcnfencoder.py:147-176 | The conditional exactly-one template is exactly the exactly-one template with the condition guard. |
| CnfTemplates.MakeConditionalOneMeaning | nl3d/nlcnfencoder.py:147-176 | The clauses hold iff the condition is false or exactly one variable is true. |
| CnfTemplates.MakeConditionalZero | nl3d/nlcnfencoder.py:141-143 | One clause (not c or not v) per variable, in list order. |
| CnfTemplates.MakeConditionalZeroMeaning | nl3d/nlcnfencoder.py:141-143 | The clauses hold iff the condition is false or no variable is true. |
| CnfTemplates.MakeZeroOrTwo | nl3d/nlcnfencoder.py:180-210 | For 2, 3 and 4 variables it emits 2, 4 and 8 clauses. |
| CnfTemplates.MakeZeroOrTwoMeaning | nl3d/nlcnfencoder.py:180-210 | The clauses hold iff zero or exactly two of the variables are true. |
| CnfTemplates.ZeroOrTwo2Meaning | nl3d/nlcnfencoder.py:183-187 | The 2-variable case of the zero-or-two template. |
| CnfTemplates.ZeroOrTwo3Meaning | nl3d/nlcnfencoder.py:188-195 | The 3-variable case of the zero-or-two template. |
| CnfTemplates.ZeroOrTwo4Meaning | nl3d/nlcnfencoder.py:196-208 | The 4-variable case of the zero-or-two template. |
| CnfTemplates.AtMostTwoOfFour | nl3d/nlcnfencoder.py:201-204 | The four 3-literal clauses forbid three or more of the four variables being true. |
| CnfTemplates.NotExactlyOneOfFour | nl3d/nlcnfencoder.py:205-208 | The four 4-literal clauses forbid each single variable being the only true one. |
| CnfTemplates.ZeroOrTwoBits | nl3d/nlcnfencoder.py:201-208 | The eight forbidden patterns of four bits are exactly the counts 1, 3 and 4. |
| CnfTemplates.MakeConditionalEqual | nl3d/nlcnfencoder.py:214-216 | Two 3-literal clauses, each guarded by the negated condition. |
| CnfTemplates.MakeConditionalEqualMeaning | nl3d/nlcnfencoder.py:214-216 | The clauses hold iff the condition is false or the two variables are equal. |
| GridSpec.NodeIndex | nl3d/nlgraph.py:154-155 | Defines where the node of cell (x, y, z) sits in the node list. Its meaning is stated by NodeIndexProduct, NodeIndexUnique, NodeIndexInRange and CellAtNodeIndex. |
| GridSpec.NodeIndexProduct | nl3d/nlgraph.py:154-155 | The node of cell (x, y, z) is created at position (x*h + y)*d + z: x outermost, then y, then z. |
| GridSpec.CellCountProduct | nl3d/nlgraph.py:154-155 | The node list has w*h*d entries. |
| GridSpec.CellAt | nl3d/nlgraph.py:154-155 | Decoding a position gives a cell whose node sits at that position. |
| GridSpec.NodeIndexUnique | nl3d/nlgraph.py:154-155 | Two cells of the box share a node position iff they are the same cell. |
| GridSpec.NodeIndexInRange | nl3d/nlgraph.py:154-155 | Every cell of the box has a node position below w*h*d. |
| GridSpec.CellAtNodeIndex | nl3d/nlgraph.py:154-155 | Decoding the node position of a cell of the box gives back the cell. |
| GridSpec.CellAtInBox | nl3d/nlgraph.py:154-155 | Every position below w*h*d is the position of a cell of the box. |
| GridSpec.NodeIndexNext | nl3d/nlgraph.py:154-155 | Node positions carry like a mixed-radix counter: z = d continues at z = 0 of row y+1, and y = h at y = 0 of column x+1. |
| GridSpec.HCol | nl3d/nlgraph.py:161-165 | One column of horizontal edges has one edge per row. |
| GridSpec.HEdges | nl3d/nlgraph.py:160-165 | The horizontal edges of the first cols columns number cols*h. |
| GridSpec.VCol | nl3d/nlgraph.py:169-173 | One column of vertical edges has one edge per row pair. |
| GridSpec.VEdges | nl3d/nlgraph.py:168-173 | The vertical edges of the first cols columns number cols*len. |
| GridSpec.LayerEdges | nl3d/nlgraph.py:159-173 | Defines the edges of one layer in creation order: all horizontal edges, then all vertical ones. LayerDegree states what they give each cell. |
| GridSpec.GridEdges | nl3d/nlgraph.py:158-173 | Defines the whole edge list, layer after layer, in creation order. GridEdgeCount, GridEdgesInGrid and GridDegree state its properties. |
| GridSpec.GridEdgeCount | nl3d/nlgraph.py:158-173 | The graph has d*((w-1)*h + w*(h-1)) edges. |
| GridSpec.HColInGrid | nl3d/nlgraph.py:161-165 | A horizontal column's edges join in-box cells that are neighbours along x. |
| GridSpec.HEdgesInGrid | nl3d/nlgraph.py:160-165 | Every horizontal edge joins in-box neighbours. |
| GridSpec.VColInGrid | nl3d/nlgraph.py:169-173 | A vertical column's edges join in-box cells that are neighbours along y. |
| GridSpec.VEdgesInGrid | nl3d/nlgraph.py:168-173 | Every vertical edge joins in-box neighbours. |
| GridSpec.GridEdgesInGrid | nl3d/nlgraph.py:158-173 | Every created edge joins two cells of the box that are neighbours along x or y on one layer. No edge crosses layers. |
| GridSpec.IncidentIds | nl3d/nlgraph.py:226-227 | A node's edge list holds only ids of existing edges. |
| GridSpec.IncidentIdsSnoc | nl3d/nlgraph.py:223-227 | A new edge is appended to the lists of exactly the cells it touches. |
| GridSpec.IncidentIdsSpec | nl3d/nlgraph.py:223-227 | A node's edge list holds exactly the edges touching its cell, each once, in creation order. |
| GridSpec.IndexEdges | nl3d/nlgraph.py:223-225 | The edge list has one (node1, node2) entry per created edge. |
| GridSpec.IndexEdgesSpec | nl3d/nlgraph.py:223-225 | Entry k of the edge list holds the node positions of edge k's two cells. |
| GridSpec.IncidentIdxIsIncidentIds | nl3d/nlgraph.py:223-227 | On cells of the box, incidence by node id equals incidence by cell. |
| GridSpec.TouchCount | nl3d/nlgraph.py:226-227 | The number of edges touching a cell is at most the number of edges. |
| GridSpec.IncidentLength | nl3d/nlgraph.py:226-227 | A node's edge list is as long as the number of edges touching its cell. |
| GridSpec.TouchCountAppend | nl3d/nlgraph.py:158-173 | Touch counts add up over consecutive edge batches. |
| GridSpec.HColTouch | nl3d/nlgraph.py:161-165 | Counts the edges of one horizontal column that touch a cell. |
| GridSpec.HEdgesTouch | nl3d/nlgraph.py:160-165 | A cell of the layer touches one horizontal edge per neighbour along x. |
| GridSpec.VColTouch | nl3d/nlgraph.py:169-173 | Counts the edges of one vertical column that touch a cell. |
| GridSpec.VEdgesTouch | nl3d/nlgraph.py:168-173 | A cell of the layer touches one vertical edge per neighbour along y. |
| GridSpec.LayerDegree | nl3d/nlgraph.py:158-173 | Within its layer, a cell touches one edge per in-layer axis neighbour. |
| GridSpec.GridDegree | nl3d/nlgraph.py:158-173 | A node's degree is its number of in-layer axis neighbours, so it is between 2 and 4 on grids of at least 2 by 2. |
| GridSpec.TermMark | nl3d/nlgraph.py:176-182 | The terminal mark a cell carries after the nets are marked in order is a net number below the net count. |
| GridSpec.TermMarkSnoc | nl3d/nlgraph.py:177-181 | Marking one more net changes only its two terminal cells. |
| GridSpec.TermMarkSpec | nl3d/nlgraph.py:176-182 | A cell is marked iff it is a terminal of some net, and then with the last such net. |
| GridSpec.ViaLayers | nl3d/nlgraph.py:186 | The layers a via covers are z1 through z2, in ascending order (the corrected range, see Findings). |
| GridSpec.ViaMark | nl3d/nlgraph.py:185-188 | The via mark a cell carries is a via number below the via count. |
| GridSpec.ViaMarkSpec | nl3d/nlgraph.py:185-188 | A cell is marked iff some via covers it, and then with the last such via. |
| GridSpec.NetNumLog | nl3d/nlgraph.py:147-149 | Counting up from 0 gives the least k with 2^k >= nn. |
| NlGraphModel.NlNode.constructor | nl3d/nlgraph.py:27-35 | A new node stores x, y and z, has no edges and no marks. This is the corrected constructor; see Findings. |
| NlGraphModel.NlNode.SetTerminal | nl3d/nlgraph.py:38-40 | Sets the terminal flag and the net id, and nothing else. |
| NlGraphModel.NlNode.SetVia | nl3d/nlgraph.py:43-45 | Sets the via flag and the via id, and nothing else. |
| NlGraphModel.NlNode.AddEdge | nl3d/nlgraph.py:48-49 | Appends the edge to the incidence list, and nothing else. |
| NlGraphModel.NodeCoordsAsWritten | nl3d/nlgraph.py:27-30 | The constructor as written keeps x and z. |
| NlGraphModel.NodeCoordsAsWrittenLoses | nl3d/nlgraph.py:29 | As written, the coordinates are kept iff x == y, and cells (0,0,0) and (0,1,0) get the same coordinates. |
| NlGraphModel.NlEdge.constructor | nl3d/nlgraph.py:105-108 | An edge stores its id and its two nodes. |
| NlGraphModel.NlEdge.AltNode | nl3d/nlgraph.py:121-127 | Given one end, it returns the other end: {node, result} is {node1, node2}. Any other node is excluded, because the source asserts False. |
| NlGraphModel.AltNodeInvolution | nl3d/nlgraph.py:121-127 | The result is an end of the edge, and applying alt_node twice gives back the node. |
| NlGraphModel.EdgeIds | nl3d/nlgraph.py:66-69 | The ids of a list of edges, in list order. |
| NlGraphModel.EdgeIdsSnoc | nl3d/nlgraph.py:48-49 | Appending an edge appends its id. |
| NlGraphModel.SpecView | nl3d/nlgraph.py:136-188 | The graph a problem must produce has w*h*d nodes, d*((w-1)*h + w*(h-1)) edges, one terminal pair per net, and the problem's net and via counts. |
| NlGraphModel.NlGraph.NodeAt | nl3d/nlgraph.py:178-179 | The node of an in-box cell is the node at that cell's position, and it has the cell's coordinates. |
| NlGraphModel.NlGraph.constructor | nl3d/nlgraph.py:136-188 | Building the graph of a well-formed problem creates the nodes, then the edges, then the marks and terminal pairs, and ends in the Valid state. ViewIsSpec gives what that state means. Vias are marked over the corrected range; see Findings. |
| NlGraphModel.NlGraph.BuildNodes | nl3d/nlgraph.py:154-155 | Creates one fresh node per cell, at its position in x, y, z order, each without edges or marks. |
| NlGraphModel.NlGraph.NewNode | nl3d/nlgraph.py:234-238 | Appends one fresh node for the cell and keeps the nodes before it. |
| NlGraphModel.NlGraph.BuildEdges | nl3d/nlgraph.py:158-173 | The edges created are exactly GridEdges(w, h, d), recorded in the graph and at both ends. |
| NlGraphModel.NlGraph.AddLayer | nl3d/nlgraph.py:158-173 | One layer adds its horizontal edges, then its vertical ones. |
| NlGraphModel.NlGraph.AddHorizontalEdges | nl3d/nlgraph.py:160-165 | Adds the horizontal edges of the layer, column by column. |
| NlGraphModel.NlGraph.AddVerticalEdges | nl3d/nlgraph.py:168-173 | Adds the vertical edges of the layer, column by column. |
| NlGraphModel.NlGraph.AddHorizontalColumn | nl3d/nlgraph.py:161-165 | Adds the edges (x,y,z)-(x+1,y,z) with y ascending. |
| NlGraphModel.NlGraph.AddVerticalColumn | nl3d/nlgraph.py:169-173 | Adds the edges (x,y,z)-(x,y+1,z) with y ascending. |
| NlGraphModel.NlGraph.AddGridEdge | nl3d/nlgraph.py:163-165 | Looks up the nodes of two cells and joins them. The built edge list grows by that pair. |
| NlGraphModel.NlGraph.NewEdge | nl3d/nlgraph.py:223-227 | The new edge is appended to the graph's list and to both endpoints' lists. Every other node is unchanged. |
| NlGraphModel.NlGraph.MarkAll | nl3d/nlgraph.py:176-188 | Marks the terminals in net order, then the vias in via order. |
| NlGraphModel.NlGraph.MarkTerminals | nl3d/nlgraph.py:176-182 | After the loop every node carries TermMark, and the pair list holds the terminal nodes of every net, in net order. |
| NlGraphModel.NlGraph.MarkNet | nl3d/nlgraph.py:177-182 | One more net is marked and its pair is recorded. |
| NlGraphModel.NlGraph.MarkPair | nl3d/nlgraph.py:178-182 | Marks both terminal nodes of the net and appends the pair. The other nodes keep their marks. |
| NlGraphModel.NlGraph.MarkVias | nl3d/nlgraph.py:185-188 | After the loop every node carries ViaMark, and the terminal marks are unchanged (the corrected range; see Findings). |
| NlGraphModel.NlGraph.MarkVia | nl3d/nlgraph.py:186-188 | Marks the via's column on layers z1 through z2 (the corrected range; see Findings). |
| NlGraphModel.NlGraph.MarkViaCell | nl3d/nlgraph.py:187-188 | Marks the column's node on layer z. |
| NlGraphModel.NlGraph.TerminalNodePair | nl3d/nlgraph.py:217-218 | The pair of net k holds the nodes of the net's start and end cells. |
| NlGraphModel.NlGraph.ViewNodeIsSpec | nl3d/nlgraph.py:136-188 | Node i of the built graph has the layer, incidence list and marks of node i of the problem's graph. |
| NlGraphModel.NlGraph.ViewNodesAreSpec | nl3d/nlgraph.py:154-188 | The built node records equal SpecView's. |
| NlGraphModel.NlGraph.ViewEdgesAreSpec | nl3d/nlgraph.py:158-173 | The built edge list equals SpecView's. |
| NlGraphModel.NlGraph.ViewPairsAreSpec | nl3d/nlgraph.py:176-182 | The built terminal pairs equal SpecView's. |
| NlGraphModel.NlGraph.ViewIsSpec | nl3d/nlgraph.py:136-188 | The built graph is exactly the graph of its problem. |
| NlGraphModel.ViaLayersAsWritten | nl3d/nlgraph.py:186 | The as-written range visits z1 .. z2-z1, so it holds z2 - 2*z1 + 1 layers when 2*z1 <= z2, and none otherwise. |
| NlGraphModel.ViaLayersAsWrittenDiffers | nl3d/nlgraph.py:186 | The as-written range equals z1..z2 iff z1 == 0. A via on layers 1 and 2 marks layer 1 only. |
| CnfEncoder.Layout.LabelVar | nl3d/nlcnfencoder.py:35-36 | Defines label bit t of node i: the t-th variable of node i's row, the rows following the edge variables. VarOfRoleFresh and VarOfRoleInjective state the bounds and distinctness. |
| CnfEncoder.Layout.NvVar | nl3d/nlcnfencoder.py:40-42 | Defines the variable of net k and via v: the v-th of net k's row, after all label rows. VarOfRoleFresh and VarOfRoleInjective state the bounds and distinctness. |
| CnfEncoder.VarOfRoleFresh | nl3d/nlcnfencoder.py:29-42 | Edge variables come first, then the node label variables, then the net/via variables. All lie above the counter's old value and below the new one. |
| CnfEncoder.VarOfRoleInjective | nl3d/nlcnfencoder.py:29-42 | Distinct edges, (node, net) pairs and (net, via) pairs get distinct variables. |
| CnfEncoder.ViaBlocked | nl3d/nlcnfencoder.py:77-78 | Defines when via node i cannot serve net k: the net's terminals share a layer, or neither of them is on the node's layer. |
| CnfEncoder.Encodable | nl3d/nlcnfencoder.py:108-210 | Defines the graphs the templates accept: every index the encoder follows is in range, and every template call gets 2 to 4 edge variables. SpecViewEncodable and GraphEncodable state when it holds. |
| CnfEncoder.Evars | nl3d/nlcnfencoder.py:54 | A node's edge variables follow its incidence list. |
| CnfEncoder.LabelUnits | nl3d/nlcnfencoder.py:63-68 | A terminal of net tid gets a positive unit clause on bit tid and a negative one on every other bit. |
| CnfEncoder.TerminalClauses | nl3d/nlcnfencoder.py:59-70 | The corrected terminal clauses: one unit clause per net with the net's own bit positive, then one exactly-one template, whose last clause says some edge is selected. |
| CnfEncoder.TerminalClausesAsWritten | nl3d/nlcnfencoder.py:63-70 | The terminal clauses as written. When the loop meets no bit other than tid, it emits only the n unit clauses. Otherwise it also emits one exactly-one template per other bit. |
| CnfEncoder.TerminalAsWrittenOneNet | nl3d/nlcnfencoder.py:63-70 | With one net, the as-written terminal clauses are the single unit clause on bit 0, whatever the terminal's degree. |
| CnfEncoder.ViaClauses | nl3d/nlcnfencoder.py:74-84 | Every clause of a via node starts with the negation of one of the via's net/via variables. A via that no net uses therefore constrains nothing. |
| CnfEncoder.NodeClauses | nl3d/nlcnfencoder.py:52-87 | A terminal's clauses end with the clause that some edge is selected. A via node's clauses are all guarded by its net/via variables. A plain node gets the 2, 4 or 8 clauses of the zero-or-two template. |
| CnfEncoder.NodeOk | nl3d/nlcnfencoder.py:52-87 | Defines the condition the encoder imposes on node i. A terminal has its net's label and exactly one selected edge. A via node, for each net whose net/via variable is set, has no selected edge if it cannot serve that net, and exactly one otherwise. A plain node has 0 or 2 selected edges. |
| CnfEncoder.EdgeOk | nl3d/nlcnfencoder.py:90-97 | Defines the condition the encoder imposes on edge k: if selected, its two ends have equal label bits. |
| CnfEncoder.LabelUnitMeaning | nl3d/nlcnfencoder.py:65-68 | The unit clause on bit t holds iff bit t is set exactly when t == tid. |
| CnfEncoder.LabelUnitsMeaning | nl3d/nlcnfencoder.py:63-68 | The unit clauses hold iff the label is one-hot on the net's bit. |
| CnfEncoder.TerminalClausesMeaning | nl3d/nlcnfencoder.py:59-70 | A terminal's clauses (corrected) hold iff its label is its net's and exactly one of its edges is selected. |
| CnfEncoder.TerminalAsWrittenTidStep | nl3d/nlcnfencoder.py:65-66 | The loop step on bit tid adds only the positive unit clause. |
| CnfEncoder.TerminalAsWrittenOtherStep | nl3d/nlcnfencoder.py:67-70 | The loop step on any other bit adds a negative unit clause and a copy of the exactly-one template. |
| CnfEncoder.TerminalAsWrittenMeaning | nl3d/nlcnfencoder.py:63-70 | The as-written clauses fix the label, and demand exactly one edge only if the loop meets a bit other than tid. |
| CnfEncoder.TerminalAsWrittenSingleNet | nl3d/nlcnfencoder.py:63-70 | With one net, a terminal with both edges selected satisfies the as-written clauses but not the corrected ones. |
| CnfEncoder.TerminalAsWrittenAgrees | nl3d/nlcnfencoder.py:63-70 | With two or more nets, the as-written and corrected terminal clauses are satisfied by the same assignments. |
| CnfEncoder.Blocked | nl3d/nlcnfencoder.py:77-78 | Entry k tells whether via node i cannot serve net k: the net's terminals share a layer, or neither is on the node's layer. |
| CnfEncoder.ViaClausesMeaning | nl3d/nlcnfencoder.py:74-84 | For each net whose net/via variable is set, a via node has no selected edge when it cannot serve that net, and exactly one otherwise. |
| CnfEncoder.NodeClausesMeaning | nl3d/nlcnfencoder.py:52-87 | A node's clauses hold iff its condition holds. A terminal needs its label and exactly one edge, a via node needs the via condition, and a plain node needs zero or two edges. |
| CnfEncoder.NodeClausesStep | nl3d/nlcnfencoder.py:52 | Appending node i's clauses extends the clauses of the nodes before it. |
| CnfEncoder.NodeClausesUpToMeaning | nl3d/nlcnfencoder.py:52-87 | The clauses of nodes 0..n-1 hold iff each of those nodes meets its condition. |
| CnfEncoder.NodesOkSnoc | nl3d/nlcnfencoder.py:52 | The node conditions of the first n nodes are those of the first n-1 nodes plus node n-1. |
| CnfEncoder.EdgeEqualities | nl3d/nlcnfencoder.py:94-97 | For each bit t, two clauses make the label bit t equal at both ends when the edge is selected. |
| CnfEncoder.EdgeClauses | nl3d/nlcnfencoder.py:90-97 | Edge k gets 2*nn three-literal clauses, each guarded by the edge's variable. An unselected edge therefore constrains nothing. |
| CnfEncoder.EdgeClausesUpTo | nl3d/nlcnfencoder.py:90-97 | The clauses of the first n edges are three-literal clauses, each led by the negation of one of those edges' variables. |
| CnfEncoder.EdgeEqualitiesMeaning | nl3d/nlcnfencoder.py:90-97 | The clauses hold iff an unselected edge, or both ends with equal labels on every bit. |
| CnfEncoder.EdgeClausesMeaning | nl3d/nlcnfencoder.py:90-97 | An edge's clauses hold iff its condition holds. |
| CnfEncoder.EdgeClausesUpToMeaning | nl3d/nlcnfencoder.py:90-97 | The clauses of edges 0..n-1 hold iff each of those edges meets its condition. |
| CnfEncoder.EdgesOkSnoc | nl3d/nlcnfencoder.py:90 | The edge conditions of the first n edges are those of the first n-1 edges plus edge n-1. |
| CnfEncoder.EncodeClauses | nl3d/nlcnfencoder.py:52-97 | The node clauses come first. Everything after them is an edge equality clause guarded by an edge variable. |
| CnfEncoder.EncodeMeaning | nl3d/nlcnfencoder.py:22-97 | The whole encoding holds iff every node and every edge meets its condition. |
| CnfEncoder.AssignsBlock | nl3d/nlcnfencoder.py:29-42 | An assignment defined on the allocated block defines every encoder variable. |
| CnfEncoder.EvarsIn | nl3d/nlcnfencoder.py:54 | Such an assignment defines a node's edge variables. |
| CnfEncoder.LabelsFixedSnoc | nl3d/nlcnfencoder.py:63-68 | One more label bit is fixed per loop step. |
| CnfEncoder.ViaUsesOkSnoc | nl3d/nlcnfencoder.py:75-84 | One more net's via condition per loop step. |
| CnfEncoder.LabelsAgreeSnoc | nl3d/nlcnfencoder.py:94-97 | One more agreeing bit per loop step. |
| CnfEncoder.SpecNodeDegree | nl3d/nlcnfencoder.py:108-210 | On grids of at least 2 by 2, every node of a problem's graph has 2 to 4 edges, the arities the templates accept. |
| CnfEncoder.SpecEndsInRange | nl3d/nlcnfencoder.py:92-93 | The edge ends and terminal pairs of a problem's graph are valid node ids. |
| CnfEncoder.SpecViewEncodable | nl3d/nlcnfencoder.py:52-97 | The graph of every well-formed problem on a grid of at least 2 by 2 can be encoded without reaching an `assert False`. |
| CnfEncoder.GraphEncodable | nl3d/nlcnfencoder.py:52-97 | The graph built for such a problem can be encoded. |
| CnfEncoder.Row | nl3d/nlcnfencoder.py:35-42 | Row i of a table of n-wide rows holds n consecutive numbers. |
| CnfEncoder.NewVariables | nl3d/nlcnfencoder.py:29 | Allocates the next n numbers in order and adds no clause. |
| CnfEncoder.NewVariableRows | nl3d/nlcnfencoder.py:35-42 | Allocates rows of n variables, row after row. |
| CnfEncoder.NlCnfEncoder.constructor | nl3d/nlcnfencoder.py:22-97 | Allocates exactly the layout's variables, and the solver's clauses grow by exactly EncodeClauses: node clauses in node order, then edge clauses in edge order. |
| CnfEncoder.NlCnfEncoder.EdgeVar | nl3d/nlcnfencoder.py:101-102 | Edge k's variable is the k-th number after the counter's starting value. |
| CnfEncoder.NlCnfEncoder.AddNodeClauses | nl3d/nlcnfencoder.py:52-87 | Adds the clauses of every node, in node order, and allocates nothing. |
| CnfEncoder.NlCnfEncoder.AddNodeClausesOf | nl3d/nlcnfencoder.py:53-87 | Adds the clauses of node i by the node's kind. |
| CnfEncoder.NlCnfEncoder.AddTerminalClauses | nl3d/nlcnfencoder.py:59-70 | Adds the label unit clauses, then one exactly-one template (corrected). |
| CnfEncoder.NlCnfEncoder.AddViaClauses | nl3d/nlcnfencoder.py:71-84 | Adds the via node's clauses net by net. |
| CnfEncoder.NlCnfEncoder.AddViaNetClauses | nl3d/nlcnfencoder.py:76-84 | Adds the conditional-zero template if the via cannot serve the net, and the conditional-one template otherwise. |
| CnfEncoder.NlCnfEncoder.AddEdgeClauses | nl3d/nlcnfencoder.py:90-97 | Adds the clauses of every edge, in edge order. |
| CnfEncoder.NlCnfEncoder.AddEdgeEqualities | nl3d/nlcnfencoder.py:91-97 | Adds the conditional equalities of edge k, bit by bit. |
| Adc2016Reader.WithError | nl3d/adc2016_reader.py:333-336 | Reporting an error only bumps the error count. |
| Adc2016Reader.ToPoint | nl3d/adc2016_reader.py:217 | The stored layer is the file's layer minus one, and x and y are kept. |
| Adc2016Reader.CheckRange | nl3d/adc2016_reader.py:313-326 | In range iff inside the box. Otherwise it names the first axis out of range, checked in the order x, y, z. |
| Adc2016Reader.Layers | nl3d/adc2016_reader.py:271-293 | The layers of a VIA's points are collected in file order, each made 0-based. |
| Adc2016Reader.Insert | nl3d/adc2016_reader.py:296 | Inserting into a sorted list keeps it sorted and one longer. |
| Adc2016Reader.InsertPermutes | nl3d/adc2016_reader.py:296 | Insertion only adds the element. |
| Adc2016Reader.SortInts | nl3d/adc2016_reader.py:296 | The sorted list is ascending and as long as the input. |
| Adc2016Reader.SortPermutes | nl3d/adc2016_reader.py:296 | Sorting only reorders the list. |
| Adc2016Reader.ExtremesUnique | nl3d/adc2016_reader.py:298-299 | The least and the greatest element are unique. |
| Adc2016Reader.SortedEnds | nl3d/adc2016_reader.py:296-299 | After sorting, z_list[0] is the lowest layer and z_list[n-1] the highest. |
| Adc2016Reader.SizeStep | nl3d/adc2016_reader.py:120-140 | The first SIZE line sets the size. A repeated one adds one error and keeps the first size. Nets and vias are untouched. |
| Adc2016Reader.LineNumStep | nl3d/adc2016_reader.py:151-165 | The first LINE_NUM line sets the count. A repeated one adds one error and keeps the first count. |
| Adc2016Reader.NetStep | nl3d/adc2016_reader.py:181-235 | A LINE adds at most one error and keeps the headers. It is accepted only after both headers, with a new id in 1..LINE_NUM and at least two points whose examined ones are in range. Then it appends the net of the first two points, and a rejected line leaves the problem unchanged. Conversely, a line meeting all those conditions is accepted and appends that net. |
| Adc2016Reader.ViaStep | nl3d/adc2016_reader.py:249-306 | A VIA adds at most one error. It is accepted only after SIZE, with a new label and every point in range on the first point's column. Then it appends one via named by the label, on that column, spanning exactly one layer per point less one. A rejected line leaves the problem unchanged. |
| Adc2016Reader.Step | nl3d/adc2016_reader.py:73-103 | Every line advances the line number by one and adds at most one error. |
| Adc2016Reader.Run | nl3d/adc2016_reader.py:70-103 | After k lines the line number is k and there are at most k errors. |
| Adc2016Reader.AtEof | nl3d/adc2016_reader.py:73-77 | The final read that meets end of file only advances the line number. |
| Adc2016Reader.ReadResult | nl3d/adc2016_reader.py:105-109 | read returns the problem built so far iff the error count is 0, and None otherwise. |
| Adc2016Reader.ADC2016Reader.constructor | nl3d/adc2016_reader.py:29-37 | A new reader starts in the state `read` sets up. The patterns compiled here are abstracted into LineRecord. |
| Adc2016Reader.ADC2016Reader.Read | nl3d/adc2016_reader.py:45-109 | After reading every line the state is Run(lines) plus the end-of-file read. It returns the problem iff the error count is 0. |
| Adc2016Reader.ADC2016Reader.Reset | nl3d/adc2016_reader.py:46-67 | An empty problem, no errors, no headers and empty dictionaries. |
| Adc2016Reader.ADC2016Reader.ReadRecord | nl3d/adc2016_reader.py:73-103 | One line moves the state by Step: the line number advances, then the first handler whose pattern matches runs. A blank line is skipped and any other line is an error. |
| Adc2016Reader.ADC2016Reader.ReadSize | nl3d/adc2016_reader.py:120-140 | A second SIZE line is an error. The first one sets the size and records its line. |
| Adc2016Reader.ADC2016Reader.ReadLineNum | nl3d/adc2016_reader.py:151-165 | A second LINE_NUM line is an error. The first one sets the count and records its line. |
| Adc2016Reader.ADC2016Reader.ReadLine | nl3d/adc2016_reader.py:181-235 | Follows NetStep. A LINE needs both header lines and an id within 1..LINE_NUM that has not been seen; the id is recorded before the points. Up to three points are range-checked, and the first two become the net. |
| Adc2016Reader.ADC2016Reader.ReadVia | nl3d/adc2016_reader.py:249-306 | Follows ViaStep. A VIA needs the SIZE line and a new label, which is recorded before the points. Every point must be in range and on the first point's column. The sorted layers must span exactly n-1, and then the via z1..z2 is added. |
| Adc2016Reader.ADC2016Reader.ReadViaPoints | nl3d/adc2016_reader.py:269-293 | The point loop succeeds iff every point passes the range and column checks, and then it returns the column and the layer list. Otherwise it reports exactly one error. |
| Adc2016Reader.ADC2016Reader.CheckPoint | nl3d/adc2016_reader.py:313-326 | Returns True iff the point is in range, and otherwise reports one error. |
| Adc2016Reader.ADC2016Reader.Error | nl3d/adc2016_reader.py:333-336 | The error count goes up by one, and nothing else changes. |
| Adc2016ReaderFacts.StepAddsAtMostOneError | nl3d/adc2016_reader.py:84-103 | A line raises at most one error and never removes one. |
| Adc2016ReaderFacts.ReadSucceedsIffNoLineErrs | nl3d/adc2016_reader.py:105-109 | read returns a problem iff no line raised an error. |
| Adc2016ReaderFacts.ErrorsNeverDecrease | nl3d/adc2016_reader.py:333-336 | The error count of a prefix never exceeds that of the whole file. |
| Adc2016ReaderFacts.UnmatchedLineFailsRead | nl3d/adc2016_reader.py:102-103 | A line that no handler takes adds one error and leaves the problem unchanged, so the file yields None. |
| Adc2016ReaderFacts.NetStepIgnoresLineNumbers | nl3d/adc2016_reader.py:181-235 | The LINE handler's effect does not depend on the recorded line numbers. |
| Adc2016ReaderFacts.ViaStepIgnoresLineNumbers | nl3d/adc2016_reader.py:249-306 | The VIA handler's effect does not depend on the recorded line numbers. |
| Adc2016ReaderFacts.NetLineIgnoresLineNumbers | nl3d/adc2016_reader.py:95-96 | The same holds for a whole LINE line. |
| Adc2016ReaderFacts.ViaLineIgnoresLineNumbers | nl3d/adc2016_reader.py:99-100 | The same holds for a whole VIA line. |
| Adc2016ReaderFacts.StepIgnoresLineNumbers | nl3d/adc2016_reader.py:73-103 | States that differ only in line numbers stay so after any line. |
| Adc2016ReaderFacts.RunSkipsBlank | nl3d/adc2016_reader.py:79-82 | Removing a blank line changes only the recorded line numbers. |
| Adc2016ReaderFacts.ReadIgnoresBlankLines | nl3d/adc2016_reader.py:79-82 | A blank line anywhere leaves the result of read unchanged. |
| Adc2016ReaderFacts.NetLineKeepsHeaders | nl3d/adc2016_reader.py:181-235 | A LINE keeps the size and the LINE_NUM value. |
| Adc2016ReaderFacts.ViaLineKeepsHeaders | nl3d/adc2016_reader.py:249-306 | A VIA keeps the size and the LINE_NUM value. |
| Adc2016ReaderFacts.StepKeepsHeaders | nl3d/adc2016_reader.py:126-129 | Once set, the size and the LINE_NUM value survive any line. |
| Adc2016ReaderFacts.SizeKeptOnceSet | nl3d/adc2016_reader.py:126-139 | Once a SIZE line has been taken, the size stays the same to the end of the file. |
| Adc2016ReaderFacts.LineNumKeptOnceSet | nl3d/adc2016_reader.py:157-164 | Once the LINE_NUM line has been taken, the value stays the same to the end of the file. |
| Adc2016ReaderFacts.DuplicateHeaderKeepsFirst | nl3d/adc2016_reader.py:126-160 | A second SIZE or LINE_NUM line is exactly one error and changes nothing else. |
| Adc2016ReaderFacts.NetBeforeHeadersRejected | nl3d/adc2016_reader.py:187-195 | A LINE before the SIZE or LINE_NUM line is exactly one error. |
| Adc2016ReaderFacts.NetIdChecks | nl3d/adc2016_reader.py:200-210 | An id out of range or already seen is exactly one error. An accepted id is recorded, so a second LINE with that id fails even if the first one's points were rejected. |
| Adc2016ReaderFacts.NetPointsUsed | nl3d/adc2016_reader.py:213-234 | With three or more points: if the first three are in range, the net is the first two points with 0-based layers and no error; otherwise it is one error and no net. |
| Adc2016ReaderFacts.TwoPointNetAccepted | nl3d/adc2016_reader.py:213-234 | A LINE of exactly two in-range points, after both headers and with a new id in 1..LINE_NUM, is accepted with no error and appends the net joining the two points with 0-based layers. |
| Adc2016ReaderFacts.NetNeedsTwoPoints | nl3d/adc2016_reader.py:230-232 | A LINE with a single point is one error and adds no net. |
| Adc2016ReaderFacts.SortedLayerEnds | nl3d/adc2016_reader.py:296-299 | z1 is the lowest and z2 the highest layer of the list. |
| Adc2016ReaderFacts.ColumnOkSameGrid | nl3d/adc2016_reader.py:277-291 | The column check depends only on the grid size. |
| Adc2016ReaderFacts.ViaStepAccepted | nl3d/adc2016_reader.py:296-305 | With its points checked, the VIA handler adds the via from the lowest to the highest layer iff the span equals n-1, and otherwise reports one error. |
| Adc2016ReaderFacts.ViaAccepted | nl3d/adc2016_reader.py:255-305 | A VIA line with good points adds the via z1..z2 with no error iff z2-z1 equals the point count minus one. Otherwise it leaves the problem unchanged. |
| Adc2016ReaderFacts.ViaRejected | nl3d/adc2016_reader.py:255-291 | A VIA before SIZE, with a label already seen, or with a point off the grid or off the column, is one error and adds no via. |
| Adc2016ReaderFacts.ViaRepeatedLayerAccepted | nl3d/adc2016_reader.py:296-303 | Layers 1, 1 and 3 of a three-layer grid pass the span check and give a via over all three layers. |
| Adc2016ReaderFacts.ConsistentWellFormed | nl3d/adc2016_reader.py:219-305 | Whatever the reader accepted has every terminal and via on the grid. |
| Adc2016ReaderFacts.RecordConsistent | nl3d/adc2016_reader.py:210 | Recording an id or a label keeps the reader's state consistent. |
| Adc2016ReaderFacts.AddNetConsistent | nl3d/adc2016_reader.py:234 | Adding a net that passed every check keeps the state consistent. |
| Adc2016ReaderFacts.AddViaConsistent | nl3d/adc2016_reader.py:305 | Adding a via that passed every check keeps the state consistent. |
| Adc2016ReaderFacts.NetStepConsistent | nl3d/adc2016_reader.py:181-235 | The LINE handler keeps the state consistent. |
| Adc2016ReaderFacts.SortedLayersInRange | nl3d/adc2016_reader.py:296-299 | The lowest and highest layers of checked points are ordered and inside the grid. |
| Adc2016ReaderFacts.ViaStepConsistent | nl3d/adc2016_reader.py:249-306 | The VIA handler keeps the state consistent. |
| Adc2016ReaderFacts.CountersConsistent | nl3d/adc2016_reader.py:74 | Advancing the line number or counting an error keeps the state consistent. |
| Adc2016ReaderFacts.SizeLineConsistent | nl3d/adc2016_reader.py:120-140 | A SIZE line keeps the state consistent. |
| Adc2016ReaderFacts.LineNumLineConsistent | nl3d/adc2016_reader.py:151-165 | A LINE_NUM line keeps the state consistent. |
| Adc2016ReaderFacts.NetLineConsistent | nl3d/adc2016_reader.py:95-96 | A LINE line keeps the state consistent. |
| Adc2016ReaderFacts.ViaLineConsistent | nl3d/adc2016_reader.py:99-100 | A VIA line keeps the state consistent. |
| Adc2016ReaderFacts.StepConsistent | nl3d/adc2016_reader.py:73-103 | Every line keeps the state consistent. |
| Adc2016ReaderFacts.RunConsistent | nl3d/adc2016_reader.py:70-103 | The state stays consistent after any file. |
| Adc2016ReaderFacts.ReadProblemWellFormed | nl3d/adc2016_reader.py:105-109 | A problem read without errors has every terminal and via on the grid, distinct net ids within 1..LINE_NUM, and distinct via labels. |
| SolutionFormat.CellValue | nl3d/nlsolution.py:32-38 | A cell's value is at most the number of nets. |
| SolutionFormat.CellValueZero | nl3d/nlsolution.py:27-38 | A cell is 0 iff no route covers it. |
| SolutionFormat.CellValueNet | nl3d/nlsolution.py:32-38 | A cell is k+1 iff net k's route covers it and no later net's route does: the last net written wins. |
| SolutionFormat.DigitChar | nl3d/nlsolution.py:53 | A decimal digit character denotes its value. |
| SolutionFormat.NatStr | nl3d/nlsolution.py:44-46 | The decimal form is a non-empty string of digits. |
| SolutionFormat.NatStrRoundTrip | nl3d/nlsolution.py:44-46 | Reading the decimal form gives the number back, and there is no leading zero. |
| SolutionFormat.Pad2 | nl3d/nlsolution.py:53 | Defines '{:02d}'. Pad2RoundTrip states its meaning. |
| SolutionFormat.Pad2RoundTrip | nl3d/nlsolution.py:53 | '{:02d}' gives at least two digits that denote the number, and is plain decimal from 10 on. |
| SolutionFormat.Row | nl3d/nlsolution.py:48-53 | Defines a printed row: padded fields joined by single commas. RowRoundTrip states that it can be read back. |
| SolutionFormat.Split | nl3d/nlsolution.py:48-53 | Cutting at commas gives at least one field. |
| SolutionFormat.SplitNoComma | nl3d/nlsolution.py:51-53 | Appending a comma and a comma-free field appends that field. |
| SolutionFormat.SplitSingle | nl3d/nlsolution.py:48-53 | A comma-free string is one field. |
| SolutionFormat.Pads | nl3d/nlsolution.py:53 | The padded form of every cell of a row. |
| SolutionFormat.PadsDecode | nl3d/nlsolution.py:53 | Each padded field has at least two digits and denotes its cell. |
| SolutionFormat.PadsSnoc | nl3d/nlsolution.py:50-53 | One more cell appends one padded field. |
| SolutionFormat.Pad2NoComma | nl3d/nlsolution.py:53 | A padded field holds no comma. |
| SolutionFormat.RowSplit | nl3d/nlsolution.py:48-53 | Cutting a row at its commas gives its padded fields. |
| SolutionFormat.RowRoundTrip | nl3d/nlsolution.py:48-53 | Cutting a row at its commas and reading each field gives back the row's cells. |
| SolutionFormat.RowCells | nl3d/nlsolution.py:50-53 | The cells of row y of layer z, x ascending. |
| SolutionFormat.LayerRows | nl3d/nlsolution.py:47 | The rows of a layer, y ascending. |
| SolutionFormat.Render | nl3d/nlsolution.py:44-54 | Defines the text of each kind of line: the SIZE header, a LAYER header, or a row. |
| SolutionFormat.RenderAll | nl3d/nlsolution.py:43-54 | Each printed line is the text of its line kind. |
| SolutionFormat.RenderAllSnoc | nl3d/nlsolution.py:43-54 | Printing one more line appends its text. |
| SolutionFormat.SolutionText | nl3d/nlsolution.py:43-54 | Defines the printed solution, line by line. SolutionTextShape states its shape and contents. |
| SolutionFormat.LayerLineProduct | nl3d/nlsolution.py:45-47 | Layer z starts at line 1 + z*(h+1). |
| SolutionFormat.LayersLinesLength | nl3d/nlsolution.py:45-47 | Each layer prints h+1 lines. |
| SolutionFormat.LayerHeaderAt | nl3d/nlsolution.py:46 | Where each layer's heading is printed. |
| SolutionFormat.LayerRowAt | nl3d/nlsolution.py:47-54 | Row y of layer z is printed y+1 lines below the layer's heading. |
| SolutionFormat.LayoutHeaderAt | nl3d/nlsolution.py:46 | The heading of layer z is at line 1 + z*(h+1). |
| SolutionFormat.LayoutRowAt | nl3d/nlsolution.py:47-54 | Row y of layer z is at line 1 + z*(h+1) + 1 + y. |
| SolutionFormat.SolutionTextShape | nl3d/nlsolution.py:43-54 | The text has 1 + d*(h+1) lines. Line 0 is "SIZE wXhXd". Line 1 + z*(h+1) is "LAYER z+1". The h lines after it hold the comma-separated, two-digit-padded cells of each row. |
| NlSolutionModel.CellGrid | nl3d/nlsolution.py:27-38 | A w by h by d grid of zeros on which net k+1 is written along net k's route, nets in order. Every cell ends up holding CellValue. |
| NlSolutionModel.FormatRow | nl3d/nlsolution.py:48-54 | A row's line is the cells of x = 0..w-1, padded to two digits and joined by commas. |
| NlSolutionModel.FormatLayer | nl3d/nlsolution.py:46-54 | Appends "LAYER z+1", then every row of the layer. |
| NlSolutionModel.FormatGrid | nl3d/nlsolution.py:43-54 | The printed lines are exactly SolutionText. |
| NlSolutionModel.NlSolution.constructor | nl3d/nlsolution.py:21-38 | Takes the graph's size and writes the routes of its nets on the grid. |
| NlSolutionModel.NlSolution.Print | nl3d/nlsolution.py:43-54 | Prints exactly SolutionText of the routes it was built from. |
| NlSolutionModel.MakeSolution | nl3d/nlsolver.py:58-87 | Fills a grid from the routes and prints it. The lines are exactly SolutionText of the routes on the graph's size, the same text NlSolution.Print gives. |
| NlSolutionModel.Report | nl3d/nlsolver.py:36-53 | The status is "OK", "NG" or "Abort" for True, False or X. A solution is given iff the verdict is True, and then it is written from the routes on the graph's size. |
| NlSolutionModel.SolveNlink | nl3d/nlsolver.py:24-53 | The solver first receives exactly the encoder's variables and clauses. The status and solution are then as in Report. |

## Left out

- **File I/O and message text.**
  - Regular-expression matching of lines (adc2016_reader.py:32-37) is
    abstracted: a line arrives as a `LineRecord` holding what its
    pattern captured.
  - The error messages, `print` of messages and of solutions, and
    reading from a file object are left out. A printed solution is a
    sequence of lines.
- **The SAT search.**
  - `SatSolver.add_clause` in satsolver_tmpl.py is an empty template.
    The model records the clause list a concrete solver receives.
  - `SatSolver.Solver.AddClause`: the template's `add_clause` takes a
    single list parameter, but nlcnfencoder.py and
    tests/satsolver_test.py pass the literals as separate arguments (a
    unit clause as one bare literal). The model takes every clause as one
    list of literals, so it does not capture how a concrete solver would
    bind those arguments.
  - `solve()` is external. `SolveNlink` takes its verdict and the routes
    read off its model as parameters.
  - `model_to_route` is not part of this model: nlcnfencoder.py does not
    define it.
- **Extra constraints.** `make_base_constraint`, `make_ushape_constraint`,
  `make_wshape_constraint` and `make_w2shape_constraint`
  (nlsolver.py:28-31) are not defined in nlcnfencoder.py, so they are not
  part of this model.
- **`NlSolution()` and `set_from_routes`.** nlsolver.py:43-44 call a
  no-argument constructor and a `set_from_routes` that nlsolution.py does
  not define. The model writes the solution with the
  `NlSolution(graph, route_list)` constructor that nlsolution.py does
  define.
- **Crash-only defects, modelled by their evident meaning.** Each of
  these would raise an exception in Python, and each is modelled as the
  code evidently intends:
  - `NlEdge(node1, node2)` is called with two arguments, but the
    constructor takes three. The unused `var` field is dropped.
  - `terminal_node_pair` reads `_terminal_node_pair`, but the field is
    named `_terminal_node_pair_list`.
  - `_node_list` and `_edge_list` are never initialised.
  - Nodes and edges have no `id`, although the encoder reads `node.id`
    and `edge.id`.
  - The graph has no `width`, `height` or `depth`, although nlsolution.py
    reads them.
  - Callers unpack `net_list()` in three incompatible ways.
    nlgraph.py:177 expects pairs `net_id, (label, s, e)`.
    tests/read_problem_test.py:35 expects flat tuples
    `net_id, label, start_point, end_point`. gui/nlviewmgr.py:46 wraps
    the list in `enumerate` and expects `(label, s, e)`. So at least one
    of them raises, whatever `net_list()` returns.
- **The `NlProblem` class** (with `add_net`, `add_via`, `net_list()` and
  `via_list()`) is not part of this model's source files. The model
  assumes:
  - nets and vias are listed in the order `add_net` and `add_via`
    appended them;
  - `net_id` and `via_id` are the 0-based positions in those lists.

  This choice fixes each terminal's net number, the label bit the
  encoder sets for it, and the number a solution cell prints
  (nlsolution.py:38 prints `net_id + 1`). That number equals the file's
  LINE# id only when the file lists LINE#1 .. LINE#N in that order.
  Otherwise the model prints the net's position plus one, not its id.
- **Routes.** A route is a sequence of points (the coordinates of the
  route's nodes).
- **RoutesInBox requirement.** The routes must lie inside the grid.
  Python would wrap a negative index around and would raise on an index
  past the end.
- **`via_num` and `SIZE_lineno`.** The reader's `via_num`
  (adc2016_reader.py:53) is set to 0 and never read. It is kept as a
  field. `SIZE_lineno` and `LINE_NUM_lineno` only feed error messages.
- **Point count on a LINE.** The comment at adc2016_reader.py:178 says
  any count of coordinates other than two is a syntax error. The code
  takes the first two of three or more points, range-checking the
  third. The model follows the code (`NetPointsUsed`).
- **Via layer check.** It compares only the span with the number of
  points, so a list that repeats one layer and skips another is
  accepted. The model keeps this behaviour (`ViaRepeatedLayerAccepted`).
  The intent is not clear enough to call it a defect.
- **Return shape of `solve_nlink`.** It returns `("OK", solution)` but a
  bare `"NG"` or `"Abort"`. `SolveOutcome` keeps the status in both
  cases and the solution only on "OK".
- **SolveNlink precondition.** SolveNlink and the encoder constructor
  require that the graph can be encoded (`Encodable`): every terminal and
  plain node has 2 to 4 edges, and so does every via node some net may
  use. The corrected encoder (third row of Findings) would reach a
  template's `assert False` exactly when that fails. `GraphEncodable`
  proves it for every graph built from a well-formed problem on a grid of
  at least 2 by 2. The encoder as written is more permissive. With one
  net the label loop never emits `_make_one`, so a terminal of degree 1
  reaches no assertion (`TerminalAsWrittenOneNet`). For example, a
  1 by 3 by 1 grid with terminals at its two ends is encoded by the
  source. The model excludes such problems.
- **`__repr__` of SatBool3** is modelled as the string it returns.
  Python's `Enum` machinery is not modelled.
- **Integers are unbounded**, as in Python.

## Findings

| source | as written | input that shows it | evidently intended | confidence | as-written member | corrected member |
|---|---|---|---|---|---|---|
| nl3d/nlgraph.py:29 | `self._y = x` stores x as the node's y coordinate | any node with x != y, e.g. cell (0,1,0) gets coordinates (0,0,0) | `self._y = y` | high, not executed | NlGraphModel.NodeCoordsAsWrittenLoses | NlGraphModel.NlNode.constructor |
| nl3d/nlgraph.py:186 | `range(via.z1, via.z2 - via.z1 + 1)` marks layers z1 .. z2-z1 | a via on layers 1..2 (0-based) marks only layer 1 | `range(via.z1, via.z2 + 1)` marks z1 .. z2 | high, not executed | NlGraphModel.ViaLayersAsWrittenDiffers | GridSpec.ViaMarkSpec |
| nl3d/nlcnfencoder.py:63-70 | `_make_one(solver, evar_list)` is indented inside the `else` of the label loop, so it is emitted once per bit other than tid | one net (nn = 1): a terminal with both of its edges selected satisfies the clauses | emit the exactly-one template once, after the loop | medium, not executed | CnfEncoder.TerminalAsWrittenSingleNet | CnfEncoder.TerminalClausesMeaning |
