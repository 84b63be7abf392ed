/** The CNF encoding of a Numberlink graph. Variables are allocated in a
    fixed order (one per edge, then one label bit per node and net, then
    one per net and via); node constraints depend on the node's kind and
    every edge forces equal labels at its two ends when it is selected.
    The encoder reads the graph through its GraphView. */
module CnfEncoder {
  import opened SatSolver
  import opened CnfTemplates
  import opened NlProblem
  import opened GridSpec
  import opened NlGraphModel

  // ---------------------------------------------------------------------
  // Variable layout
  // ---------------------------------------------------------------------

  /** The encoder's variables, numbered after the base the solver had
      reached: first one per edge, then netNum label bits per node (node
      after node), then viaNum net/via variables per net (net after net). */
  datatype Layout = Layout(base: nat, edgeCount: nat, nodeCount: nat, netNum: nat, viaNum: nat)
  {
    function EdgeVar(k: nat): int { base + k + 1 }
    function LabelVar(i: nat, t: int): int { base + edgeCount + Mul(i, netNum) + t + 1 }
    function NvVar(k: nat, v: int): int { base + edgeCount + Mul(nodeCount, netNum) + Mul(k, viaNum) + v + 1 }
    function Top(): nat { base + edgeCount + Mul(nodeCount, netNum) + Mul(netNum, viaNum) }
  }

  function LayoutOf(g: GraphView, base: nat): Layout {
    Layout(base, |g.edges|, |g.nodes|, g.netNum, g.viaNum)
  }

  /** What a variable stands for. */
  datatype Role = EdgeRole(edge: nat) | LabelRole(node: nat, net: nat) | ViaUseRole(net: nat, via: nat)

  predicate RoleOk(L: Layout, r: Role) {
    match r
    case EdgeRole(k) => k < L.edgeCount
    case LabelRole(i, t) => i < L.nodeCount && t < L.netNum
    case ViaUseRole(k, v) => k < L.netNum && v < L.viaNum
  }

  function VarOfRole(L: Layout, r: Role): int {
    match r
    case EdgeRole(k) => L.EdgeVar(k)
    case LabelRole(i, t) => L.LabelVar(i, t)
    case ViaUseRole(k, v) => L.NvVar(k, v)
  }

  /** Every variable is fresh (above the base) and within the block the
      encoder allocates; the block holds E + N*nn + nn*vn variables. */
  lemma VarOfRoleFresh(L: Layout, r: Role)
    requires RoleOk(L, r)
    ensures L.base < VarOfRole(L, r) <= L.Top()
    ensures L.Top() == L.base + L.edgeCount + L.nodeCount * L.netNum + L.netNum * L.viaNum
    ensures r.EdgeRole? ==> VarOfRole(L, r) <= L.base + L.edgeCount
    ensures r.LabelRole? ==> L.base + L.edgeCount < VarOfRole(L, r) <= L.base + L.edgeCount + Mul(L.nodeCount, L.netNum)
    ensures r.ViaUseRole? ==> L.base + L.edgeCount + Mul(L.nodeCount, L.netNum) < VarOfRole(L, r)
  {
    MulIsProduct(L.nodeCount, L.netNum);
    MulIsProduct(L.netNum, L.viaNum);
    match r
    case EdgeRole(k) =>
    case LabelRole(i, t) => MulStep(i, L.nodeCount, L.netNum);
    case ViaUseRole(k, v) => MulStep(k, L.netNum, L.viaNum);
  }

  /** Distinct roles get distinct variables. */
  lemma VarOfRoleInjective(L: Layout, r1: Role, r2: Role)
    requires RoleOk(L, r1) && RoleOk(L, r2)
    ensures VarOfRole(L, r1) == VarOfRole(L, r2) <==> r1 == r2
  {
    VarOfRoleFresh(L, r1);
    VarOfRoleFresh(L, r2);
    if r1.LabelRole? && r2.LabelRole? {
      if r1.node < r2.node {
        MulStep(r1.node, r2.node, L.netNum);
      } else if r2.node < r1.node {
        MulStep(r2.node, r1.node, L.netNum);
      }
    } else if r1.ViaUseRole? && r2.ViaUseRole? {
      if r1.net < r2.net {
        MulStep(r1.net, r2.net, L.viaNum);
      } else if r2.net < r1.net {
        MulStep(r2.net, r1.net, L.viaNum);
      }
    }
  }

  // ---------------------------------------------------------------------
  // What the encoder reads from the graph
  // ---------------------------------------------------------------------

  /** Every index the encoder follows is in range: edge ids in node
      incidence lists, node ids at edge ends and in the terminal pairs of
      the nets, and the via id of a via node whenever there are nets. */
  predicate WellIndexed(g: GraphView) {
    (forall i, j :: 0 <= i < |g.nodes| && 0 <= j < |g.nodes[i].edges| ==> g.nodes[i].edges[j] < |g.edges|) &&
    (forall k :: 0 <= k < |g.edges| ==> 0 <= g.edges[k].0 < |g.nodes| && 0 <= g.edges[k].1 < |g.nodes|) &&
    g.netNum <= |g.terminalPairs| &&
    (forall k :: 0 <= k < g.netNum ==>
       0 <= g.terminalPairs[k].0 < |g.nodes| && 0 <= g.terminalPairs[k].1 < |g.nodes|) &&
    (forall i :: 0 <= i < |g.nodes| && g.nodes[i].isTerminal ==> g.nodes[i].terminalId.Some?) &&
    (forall i :: 0 <= i < |g.nodes| && g.nodes[i].isVia ==>
       g.nodes[i].viaId.Some? && (g.netNum > 0 ==> g.nodes[i].viaId.value < g.viaNum))
  }

  /** Via node i cannot serve net k: the net's terminals share a layer, or
      neither terminal is on the via node's layer. */
  predicate ViaBlocked(g: GraphView, i: nat, k: nat)
    requires WellIndexed(g) && i < |g.nodes| && k < g.netNum
  {
    var z1 := g.nodes[g.terminalPairs[k].0].z;
    var z2 := g.nodes[g.terminalPairs[k].1].z;
    z1 == z2 || (z1 != g.nodes[i].z && z2 != g.nodes[i].z)
  }

  /** The fixed-arity templates applied to node i get 2 to 4 edges:
      terminals and plain nodes always, via nodes whenever some net may
      use the via. */
  predicate ArityOk(g: GraphView, i: nat)
    requires WellIndexed(g) && i < |g.nodes|
  {
    var fits := 2 <= |g.nodes[i].edges| <= 4;
    if g.nodes[i].isTerminal then fits
    else if g.nodes[i].isVia then forall k :: 0 <= k < g.netNum && !ViaBlocked(g, i, k) ==> fits
    else fits
  }

  predicate Encodable(g: GraphView) {
    WellIndexed(g) && forall i :: 0 <= i < |g.nodes| ==> ArityOk(g, i)
  }

  /** The edge variables of node i, in incidence-list order. */
  function Evars(g: GraphView, L: Layout, i: nat): (vs: seq<int>)
    requires WellIndexed(g) && i < |g.nodes|
    ensures |vs| == |g.nodes[i].edges|
    ensures forall j :: 0 <= j < |vs| ==> vs[j] == L.EdgeVar(g.nodes[i].edges[j])
  {
    seq(|g.nodes[i].edges|, j requires 0 <= j < |g.nodes[i].edges| => L.EdgeVar(g.nodes[i].edges[j]))
  }

  // ---------------------------------------------------------------------
  // The clauses
  // ---------------------------------------------------------------------

  /** The unit clauses fixing the label bits 0 .. n-1 of terminal node i of
      net tid: positive on bit tid, negative on every other bit. */
  function LabelUnits(L: Layout, i: nat, tid: nat, n: nat): (cs: seq<Clause>)
    ensures |cs| == n
    ensures forall t :: 0 <= t < n ==>
              cs[t] == if t == tid then [L.LabelVar(i, t)] else [-L.LabelVar(i, t)]
  {
    if n == 0 then []
    else
      var t := n - 1;
      LabelUnits(L, i, tid, t) + [if t == tid then [L.LabelVar(i, t)] else [-L.LabelVar(i, t)]]
  }

  /** A terminal node: its label bits are fixed and exactly one of its
      edges is selected. */
  function TerminalClauses(L: Layout, i: nat, tid: nat, evars: seq<int>): (cs: seq<Clause>)
    requires 2 <= |evars| <= 4
    ensures |cs| == L.netNum + |MakeOne(evars)|
    ensures tid < L.netNum ==> cs[tid] == [L.LabelVar(i, tid)]
    ensures cs[|cs| - 1] == evars
  {
    LabelUnits(L, i, tid, L.netNum) + MakeOne(evars)
  }

  /** Whether the label loop meets a bit other than tid among 0 .. n-1. */
  predicate MeetsOther(tid: nat, n: nat) { n >= 2 || (n == 1 && tid != 0) }

  /** The terminal clauses with the exactly-one template inside the
      else-branch of the label loop: it is emitted once per bit other than
      tid, after that bit's unit clause. */
  function TerminalClausesAsWritten(L: Layout, i: nat, tid: nat, evars: seq<int>, n: nat): (cs: seq<Clause>)
    requires MeetsOther(tid, n) ==> 2 <= |evars| <= 4
    ensures !MeetsOther(tid, n) ==> |cs| == n
    ensures MeetsOther(tid, n) ==> |cs| == n + (if tid < n then n - 1 else n) * |MakeOne(evars)|
  {
    if n == 0 then []
    else
      var t := n - 1;
      TerminalClausesAsWritten(L, i, tid, evars, t) +
      (if t == tid then [[L.LabelVar(i, t)]] else [[-L.LabelVar(i, t)]] + MakeOne(evars))
  }

  /** Which nets via node i cannot serve, net by net. */
  function Blocked(g: GraphView, i: nat): (bs: seq<bool>)
    requires WellIndexed(g) && i < |g.nodes|
    ensures |bs| == g.netNum
    ensures forall k :: 0 <= k < |bs| ==> bs[k] == ViaBlocked(g, i, k)
  {
    seq(g.netNum, k requires 0 <= k < g.netNum => ViaBlocked(g, i, k))
  }

  /** The clauses of a via node with via id vid and edge variables evars,
      for nets 0 .. n-1, net after net: under the net/via variable, no edge
      when the via cannot serve the net, else exactly one edge. */
  function ViaClauses(L: Layout, vid: nat, evars: seq<int>, blocked: seq<bool>, n: nat): (cs: seq<Clause>)
    requires n <= |blocked|
    requires forall k :: 0 <= k < n && !blocked[k] ==> 2 <= |evars| <= 4
    ensures forall j :: 0 <= j < |cs| ==>
              |cs[j]| > 0 && exists k :: 0 <= k < n && cs[j][0] == -L.NvVar(k, vid)
  {
    if n == 0 then []
    else
      var k := n - 1;
      ViaClauses(L, vid, evars, blocked, k) +
      (if blocked[k] then MakeConditionalZero(L.NvVar(k, vid), evars)
       else MakeConditionalOne(L.NvVar(k, vid), evars))
  }

  /** The clauses of node i, by kind: terminal, via, or plain (zero or two
      edges). */
  function NodeClauses(g: GraphView, L: Layout, i: nat): (cs: seq<Clause>)
    requires Encodable(g) && i < |g.nodes|
    ensures g.nodes[i].isTerminal ==> |cs| > 0 && cs[|cs| - 1] == Evars(g, L, i)
    ensures !g.nodes[i].isTerminal && g.nodes[i].isVia ==>
              forall j :: 0 <= j < |cs| ==>
                |cs[j]| > 0 && exists k :: 0 <= k < g.netNum && cs[j][0] == -L.NvVar(k, g.nodes[i].viaId.value)
    ensures !g.nodes[i].isTerminal && !g.nodes[i].isVia ==>
              |cs| == if |g.nodes[i].edges| == 2 then 2 else if |g.nodes[i].edges| == 3 then 4 else 8
  {
    var n := g.nodes[i];
    assert ArityOk(g, i);
    if n.isTerminal then TerminalClauses(L, i, n.terminalId.value, Evars(g, L, i))
    else if n.isVia then ViaClauses(L, n.viaId.value, Evars(g, L, i), Blocked(g, i), g.netNum)
    else MakeZeroOrTwo(Evars(g, L, i))
  }

  function NodeClausesUpTo(g: GraphView, L: Layout, n: nat): seq<Clause>
    requires Encodable(g) && n <= |g.nodes|
  {
    if n == 0 then [] else NodeClausesUpTo(g, L, n - 1) + NodeClauses(g, L, n - 1)
  }

  /** Appending the clauses of node i extends the clauses of nodes before it. */
  lemma NodeClausesStep(g: GraphView, L: Layout, base: seq<Clause>, pre: seq<Clause>, post: seq<Clause>, i: nat)
    requires Encodable(g) && i < |g.nodes|
    requires pre == base + NodeClausesUpTo(g, L, i) && post == pre + NodeClauses(g, L, i)
    ensures post == base + NodeClausesUpTo(g, L, i + 1)
  {
    AppendAssoc(base, NodeClausesUpTo(g, L, i), NodeClauses(g, L, i));
  }

  /** Under edge variable evar, label bits 0 .. n-1 of nodes i1 and i2 agree. */
  function EdgeEqualities(L: Layout, evar: int, i1: nat, i2: nat, n: nat): (cs: seq<Clause>)
    ensures |cs| == 2 * n
    ensures forall j :: 0 <= j < |cs| ==> |cs[j]| == 3 && cs[j][0] == -evar
    ensures forall t :: 0 <= t < n ==>
              cs[2 * t .. 2 * t + 2] == MakeConditionalEqual(evar, L.LabelVar(i1, t), L.LabelVar(i2, t))
  {
    if n == 0 then []
    else
      var cs := EdgeEqualities(L, evar, i1, i2, n - 1) + MakeConditionalEqual(evar, L.LabelVar(i1, n - 1), L.LabelVar(i2, n - 1));
      assert forall t :: 0 <= t < n - 1 ==> cs[2 * t .. 2 * t + 2] == EdgeEqualities(L, evar, i1, i2, n - 1)[2 * t .. 2 * t + 2];
      cs
  }

  /** Edge k: 2 * netNum three-literal clauses, each guarded by the edge's
      variable, so an unselected edge constrains nothing. */
  function EdgeClauses(g: GraphView, L: Layout, k: nat): (cs: seq<Clause>)
    requires WellIndexed(g) && k < |g.edges|
    ensures |cs| == 2 * g.netNum
    ensures forall j :: 0 <= j < |cs| ==> |cs[j]| == 3 && cs[j][0] == -L.EdgeVar(k)
  {
    EdgeEqualities(L, L.EdgeVar(k), g.edges[k].0, g.edges[k].1, g.netNum)
  }

  function EdgeClausesUpTo(g: GraphView, L: Layout, n: nat): (cs: seq<Clause>)
    requires WellIndexed(g) && n <= |g.edges|
    ensures forall j :: 0 <= j < |cs| ==> |cs[j]| == 3 && L.base < -cs[j][0] <= L.base + n
  {
    if n == 0 then [] else EdgeClausesUpTo(g, L, n - 1) + EdgeClauses(g, L, n - 1)
  }

  /** Everything the encoder adds: node clauses in node order, then edge
      clauses in edge order. */
  function EncodeClauses(g: GraphView, L: Layout): (cs: seq<Clause>)
    requires Encodable(g)
    ensures |NodeClausesUpTo(g, L, |g.nodes|)| <= |cs|
    ensures forall j :: |NodeClausesUpTo(g, L, |g.nodes|)| <= j < |cs| ==>
              |cs[j]| == 3 && L.base < -cs[j][0] <= L.base + |g.edges|
  {
    NodeClausesUpTo(g, L, |g.nodes|) + EdgeClausesUpTo(g, L, |g.edges|)
  }

  // ---------------------------------------------------------------------
  // What the clauses mean
  // ---------------------------------------------------------------------

  /** The assignment gives a value to every variable of the layout. */
  predicate Assigns(a: Assignment, L: Layout) {
    (forall k :: 0 <= k < L.edgeCount ==> L.EdgeVar(k) in a) &&
    (forall i, t :: 0 <= i < L.nodeCount && 0 <= t < L.netNum ==> L.LabelVar(i, t) in a) &&
    (forall k, v :: 0 <= k < L.netNum && 0 <= v < L.viaNum ==> L.NvVar(k, v) in a)
  }

  /** Giving a value to every number of the allocated block assigns the layout. */
  lemma AssignsBlock(a: Assignment, L: Layout)
    requires forall v :: L.base < v <= L.Top() ==> v in a
    ensures Assigns(a, L)
  {
    forall k | 0 <= k < L.edgeCount ensures L.EdgeVar(k) in a {
      VarOfRoleFresh(L, EdgeRole(k));
    }
    forall i, t | 0 <= i < L.nodeCount && 0 <= t < L.netNum ensures L.LabelVar(i, t) in a {
      VarOfRoleFresh(L, LabelRole(i, t));
    }
    forall k, v | 0 <= k < L.netNum && 0 <= v < L.viaNum ensures L.NvVar(k, v) in a {
      VarOfRoleFresh(L, ViaUseRole(k, v));
    }
  }

  lemma EvarsIn(g: GraphView, L: Layout, a: Assignment, i: nat)
    requires WellIndexed(g) && i < |g.nodes| && L == LayoutOf(g, L.base) && Assigns(a, L)
    ensures VarsIn(a, Evars(g, L, i))
  {
    var vs := Evars(g, L, i);
    forall j | 0 <= j < |vs| ensures vs[j] > 0 && vs[j] in a {
      assert g.nodes[i].edges[j] < |g.edges|;
    }
  }

  /** How many edges of node i the assignment selects. */
  function Selected(g: GraphView, L: Layout, a: Assignment, i: nat): nat
    requires WellIndexed(g) && i < |g.nodes| && L == LayoutOf(g, L.base) && Assigns(a, L)
  {
    EvarsIn(g, L, a, i);
    CountTrue(a, Evars(g, L, i))
  }

  /** Label bits 0 .. n-1 of node i are those of net tid: bit tid set,
      every other bit clear. */
  predicate LabelsFixed(a: Assignment, L: Layout, i: nat, tid: nat, n: nat)
    requires i < L.nodeCount && n <= L.netNum && Assigns(a, L)
  {
    forall t :: 0 <= t < n ==> a[L.LabelVar(i, t)] == (t == tid)
  }

  lemma LabelsFixedSnoc(a: Assignment, L: Layout, i: nat, tid: nat, n: nat)
    requires i < L.nodeCount && 0 < n <= L.netNum && Assigns(a, L)
    ensures LabelsFixed(a, L, i, tid, n) <==>
              LabelsFixed(a, L, i, tid, n - 1) && a[L.LabelVar(i, n - 1)] == (n - 1 == tid)
  {
  }

  /** For nets 0 .. n-1 whose net/via variable for via vid is set, a via
      node has deg selected edges: none if it cannot serve the net, else one. */
  predicate ViaUsesOk(a: Assignment, L: Layout, vid: nat, deg: nat, blocked: seq<bool>, n: nat)
    requires n <= |blocked| && n <= L.netNum && (n > 0 ==> vid < L.viaNum) && Assigns(a, L)
  {
    forall k :: 0 <= k < n && a[L.NvVar(k, vid)] ==> deg == if blocked[k] then 0 else 1
  }

  lemma ViaUsesOkSnoc(a: Assignment, L: Layout, vid: nat, deg: nat, blocked: seq<bool>, n: nat)
    requires 0 < n <= |blocked| && n <= L.netNum && vid < L.viaNum && Assigns(a, L)
    ensures ViaUsesOk(a, L, vid, deg, blocked, n) <==>
              ViaUsesOk(a, L, vid, deg, blocked, n - 1) &&
              (a[L.NvVar(n - 1, vid)] ==> deg == if blocked[n - 1] then 0 else 1)
  {
  }

  /** Label bits 0 .. n-1 of nodes i1 and i2 agree. */
  predicate LabelsAgree(a: Assignment, L: Layout, i1: nat, i2: nat, n: nat)
    requires i1 < L.nodeCount && i2 < L.nodeCount && n <= L.netNum && Assigns(a, L)
  {
    forall t :: 0 <= t < n ==> a[L.LabelVar(i1, t)] == a[L.LabelVar(i2, t)]
  }

  lemma LabelsAgreeSnoc(a: Assignment, L: Layout, i1: nat, i2: nat, n: nat)
    requires i1 < L.nodeCount && i2 < L.nodeCount && 0 < n <= L.netNum && Assigns(a, L)
    ensures LabelsAgree(a, L, i1, i2, n) <==>
              LabelsAgree(a, L, i1, i2, n - 1) && a[L.LabelVar(i1, n - 1)] == a[L.LabelVar(i2, n - 1)]
  {
  }

  /** The condition node i must meet: a terminal carries exactly its net's
      label and has one selected edge; a via node used by a net has no
      selected edge when it cannot serve that net and one otherwise; a
      plain node has zero or two selected edges. */
  predicate NodeOk(g: GraphView, L: Layout, a: Assignment, i: nat)
    requires WellIndexed(g) && i < |g.nodes| && L == LayoutOf(g, L.base) && Assigns(a, L)
  {
    var n := g.nodes[i];
    var deg := Selected(g, L, a, i);
    if n.isTerminal then LabelsFixed(a, L, i, n.terminalId.value, g.netNum) && deg == 1
    else if n.isVia then ViaUsesOk(a, L, n.viaId.value, deg, Blocked(g, i), g.netNum)
    else deg == 0 || deg == 2
  }

  /** A selected edge joins nodes with the same label bits. */
  predicate EdgeOk(g: GraphView, L: Layout, a: Assignment, k: nat)
    requires WellIndexed(g) && k < |g.edges| && L == LayoutOf(g, L.base) && Assigns(a, L)
  {
    a[L.EdgeVar(k)] ==> LabelsAgree(a, L, g.edges[k].0, g.edges[k].1, g.netNum)
  }

  /** The unit clause on label bit t of node i for net tid. */
  lemma LabelUnitMeaning(a: Assignment, L: Layout, i: nat, tid: nat, t: nat)
    requires i < L.nodeCount && t < L.netNum && Assigns(a, L)
    ensures Satisfies(a, [if t == tid then [L.LabelVar(i, t)] else [-L.LabelVar(i, t)]]) <==>
              a[L.LabelVar(i, t)] == (t == tid)
  {
    var lv := L.LabelVar(i, t);
    var unit := if t == tid then [lv] else [-lv];
    VarOfRoleFresh(L, LabelRole(i, t));
    Lit(a, lv);
    assert unit[0] in unit;
    assert Satisfies(a, [unit]) <==> ClauseHolds(a, unit);
  }

  lemma {:induction false} LabelUnitsMeaning(a: Assignment, L: Layout, i: nat, tid: nat, n: nat)
    requires i < L.nodeCount && n <= L.netNum && Assigns(a, L)
    ensures Satisfies(a, LabelUnits(L, i, tid, n)) <==> LabelsFixed(a, L, i, tid, n)
  {
    if n > 0 {
      var t := n - 1;
      LabelUnitsMeaning(a, L, i, tid, t);
      SatisfiesAppend(a, LabelUnits(L, i, tid, t), [if t == tid then [L.LabelVar(i, t)] else [-L.LabelVar(i, t)]]);
      LabelUnitMeaning(a, L, i, tid, t);
      LabelsFixedSnoc(a, L, i, tid, n);
    }
  }

  lemma TerminalClausesMeaning(a: Assignment, L: Layout, i: nat, tid: nat, evars: seq<int>)
    requires i < L.nodeCount && Assigns(a, L) && 2 <= |evars| <= 4 && VarsIn(a, evars)
    ensures Satisfies(a, TerminalClauses(L, i, tid, evars)) <==>
              LabelsFixed(a, L, i, tid, L.netNum) && CountTrue(a, evars) == 1
  {
    SatisfiesAppend(a, LabelUnits(L, i, tid, L.netNum), MakeOne(evars));
    LabelUnitsMeaning(a, L, i, tid, L.netNum);
    MakeOneMeaning(a, evars);
  }

  /** The as-written step for bit tid: one positive unit clause. */
  lemma TerminalAsWrittenTidStep(a: Assignment, L: Layout, i: nat, tid: nat, evars: seq<int>, n: nat)
    requires i < L.nodeCount && 0 < n <= L.netNum && Assigns(a, L) && VarsIn(a, evars) && n - 1 == tid
    requires MeetsOther(tid, n) ==> 2 <= |evars| <= 4
    requires Satisfies(a, TerminalClausesAsWritten(L, i, tid, evars, n - 1)) <==>
               LabelsFixed(a, L, i, tid, n - 1) && (MeetsOther(tid, n - 1) ==> CountTrue(a, evars) == 1)
    ensures Satisfies(a, TerminalClausesAsWritten(L, i, tid, evars, n)) <==>
              LabelsFixed(a, L, i, tid, n) && (MeetsOther(tid, n) ==> CountTrue(a, evars) == 1)
  {
    var lv := L.LabelVar(i, n - 1);
    LabelUnitMeaning(a, L, i, tid, n - 1);
    LabelsFixedSnoc(a, L, i, tid, n);
    SatisfiesAppend(a, TerminalClausesAsWritten(L, i, tid, evars, n - 1), [[lv]]);
  }

  /** The as-written step for a bit other than tid: a negative unit clause
      and a copy of the exactly-one template. */
  lemma TerminalAsWrittenOtherStep(a: Assignment, L: Layout, i: nat, tid: nat, evars: seq<int>, n: nat)
    requires i < L.nodeCount && 0 < n <= L.netNum && Assigns(a, L) && VarsIn(a, evars) && n - 1 != tid
    requires 2 <= |evars| <= 4
    requires Satisfies(a, TerminalClausesAsWritten(L, i, tid, evars, n - 1)) <==>
               LabelsFixed(a, L, i, tid, n - 1) && (MeetsOther(tid, n - 1) ==> CountTrue(a, evars) == 1)
    ensures Satisfies(a, TerminalClausesAsWritten(L, i, tid, evars, n)) <==>
              LabelsFixed(a, L, i, tid, n) && CountTrue(a, evars) == 1
  {
    var lv := L.LabelVar(i, n - 1);
    var prev := TerminalClausesAsWritten(L, i, tid, evars, n - 1);
    LabelUnitMeaning(a, L, i, tid, n - 1);
    LabelsFixedSnoc(a, L, i, tid, n);
    SatisfiesAppend(a, prev, [[-lv]] + MakeOne(evars));
    SatisfiesAppend(a, [[-lv]], MakeOne(evars));
    MakeOneMeaning(a, evars);
  }

  /** With the template inside the loop, the clauses say "the label bits are
      fixed, and exactly one edge if the loop meets another bit". */
  lemma {:induction false} TerminalAsWrittenMeaning(a: Assignment, L: Layout, i: nat, tid: nat, evars: seq<int>, n: nat)
    requires i < L.nodeCount && n <= L.netNum && Assigns(a, L) && VarsIn(a, evars)
    requires MeetsOther(tid, n) ==> 2 <= |evars| <= 4
    ensures Satisfies(a, TerminalClausesAsWritten(L, i, tid, evars, n)) <==>
              LabelsFixed(a, L, i, tid, n) && (MeetsOther(tid, n) ==> CountTrue(a, evars) == 1)
  {
    if n > 0 {
      TerminalAsWrittenMeaning(a, L, i, tid, evars, n - 1);
      if n - 1 == tid {
        TerminalAsWrittenTidStep(a, L, i, tid, evars, n);
      } else {
        TerminalAsWrittenOtherStep(a, L, i, tid, evars, n);
      }
    }
  }

  /** For a single net the as-written clauses put no constraint on a
      terminal's edges: both edges selected satisfies them. */
  lemma TerminalAsWrittenSingleNet()
    ensures var L := Layout(0, 2, 1, 1, 0);
            var a := map[1 := true, 2 := true, 3 := true];
            Satisfies(a, TerminalClausesAsWritten(L, 0, 0, [1, 2], 1)) &&
            !Satisfies(a, TerminalClauses(L, 0, 0, [1, 2])) &&
            CountTrue(a, [1, 2]) == 2
  {
    var L := Layout(0, 2, 1, 1, 0);
    var a := map[1 := true, 2 := true, 3 := true];
    assert L.LabelVar(0, 0) == 3;
    assert Assigns(a, L);
    assert VarsIn(a, [1, 2]);
    CountTrue2(a, [1, 2]);
    TerminalAsWrittenMeaning(a, L, 0, 0, [1, 2], 1);
    TerminalClausesMeaning(a, L, 0, 0, [1, 2]);
  }

  /** With one net the label loop meets only bit tid = 0, so the as-written
      clauses of a terminal are its one unit clause, whatever its degree:
      a terminal with a single edge reaches no assertion of the templates,
      while the corrected clauses need 2 to 4 edges. */
  lemma TerminalAsWrittenOneNet(L: Layout, i: nat, evars: seq<int>)
    ensures !MeetsOther(0, 1)
    ensures TerminalClausesAsWritten(L, i, 0, evars, 1) == [[L.LabelVar(i, 0)]]
  {
  }

  /** With two or more nets the repeated template means the same as one copy. */
  lemma TerminalAsWrittenAgrees(a: Assignment, L: Layout, i: nat, tid: nat, evars: seq<int>)
    requires i < L.nodeCount && L.netNum >= 2 && Assigns(a, L) && 2 <= |evars| <= 4 && VarsIn(a, evars)
    ensures Satisfies(a, TerminalClausesAsWritten(L, i, tid, evars, L.netNum)) <==>
              Satisfies(a, TerminalClauses(L, i, tid, evars))
  {
    TerminalAsWrittenMeaning(a, L, i, tid, evars, L.netNum);
    TerminalClausesMeaning(a, L, i, tid, evars);
  }

  lemma {:induction false} ViaClausesMeaning(a: Assignment, L: Layout, vid: nat, evars: seq<int>, blocked: seq<bool>, n: nat)
    requires n <= |blocked| && n <= L.netNum && (n > 0 ==> vid < L.viaNum) && Assigns(a, L) && VarsIn(a, evars)
    requires forall k :: 0 <= k < n && !blocked[k] ==> 2 <= |evars| <= 4
    ensures Satisfies(a, ViaClauses(L, vid, evars, blocked, n)) <==>
              ViaUsesOk(a, L, vid, CountTrue(a, evars), blocked, n)
  {
    if n > 0 {
      var k := n - 1;
      var cvar := L.NvVar(k, vid);
      ViaClausesMeaning(a, L, vid, evars, blocked, k);
      VarOfRoleFresh(L, ViaUseRole(k, vid));
      ViaUsesOkSnoc(a, L, vid, CountTrue(a, evars), blocked, n);
      if blocked[k] {
        SatisfiesAppend(a, ViaClauses(L, vid, evars, blocked, k), MakeConditionalZero(cvar, evars));
        MakeConditionalZeroMeaning(a, cvar, evars);
      } else {
        SatisfiesAppend(a, ViaClauses(L, vid, evars, blocked, k), MakeConditionalOne(cvar, evars));
        MakeConditionalOneMeaning(a, cvar, evars);
      }
    }
  }

  /** The clauses of a node hold exactly when the node's condition does. */
  lemma NodeClausesMeaning(g: GraphView, L: Layout, a: Assignment, i: nat)
    requires Encodable(g) && i < |g.nodes| && L == LayoutOf(g, L.base) && Assigns(a, L)
    ensures Satisfies(a, NodeClauses(g, L, i)) <==> NodeOk(g, L, a, i)
  {
    var n := g.nodes[i];
    assert ArityOk(g, i);
    EvarsIn(g, L, a, i);
    if n.isTerminal {
      TerminalClausesMeaning(a, L, i, n.terminalId.value, Evars(g, L, i));
    } else if n.isVia {
      ViaClausesMeaning(a, L, n.viaId.value, Evars(g, L, i), Blocked(g, i), g.netNum);
    } else {
      MakeZeroOrTwoMeaning(a, Evars(g, L, i));
    }
  }

  /** Nodes 0 .. n-1 all meet their conditions. */
  predicate NodesOk(g: GraphView, L: Layout, a: Assignment, n: nat)
    requires WellIndexed(g) && n <= |g.nodes| && L == LayoutOf(g, L.base) && Assigns(a, L)
  {
    forall i :: 0 <= i < n ==> NodeOk(g, L, a, i)
  }

  lemma {:induction false} NodeClausesUpToMeaning(g: GraphView, L: Layout, a: Assignment, n: nat)
    requires Encodable(g) && n <= |g.nodes| && L == LayoutOf(g, L.base) && Assigns(a, L)
    ensures Satisfies(a, NodeClausesUpTo(g, L, n)) <==> NodesOk(g, L, a, n)
  {
    if n > 0 {
      var pre, cs := NodeClausesUpTo(g, L, n - 1), NodeClauses(g, L, n - 1);
      assert NodeClausesUpTo(g, L, n) == pre + cs;
      NodeClausesUpToMeaning(g, L, a, n - 1);
      SatisfiesAppend(a, pre, cs);
      NodeClausesMeaning(g, L, a, n - 1);
      NodesOkSnoc(g, L, a, n);
    }
  }

  lemma NodesOkSnoc(g: GraphView, L: Layout, a: Assignment, n: nat)
    requires WellIndexed(g) && 0 < n <= |g.nodes| && L == LayoutOf(g, L.base) && Assigns(a, L)
    ensures NodesOk(g, L, a, n) <==> NodesOk(g, L, a, n - 1) && NodeOk(g, L, a, n - 1)
  {
  }

  lemma {:induction false} EdgeEqualitiesMeaning(a: Assignment, L: Layout, k: nat, i1: nat, i2: nat, n: nat)
    requires k < L.edgeCount && i1 < L.nodeCount && i2 < L.nodeCount && n <= L.netNum && Assigns(a, L)
    ensures Satisfies(a, EdgeEqualities(L, L.EdgeVar(k), i1, i2, n)) <==>
              (a[L.EdgeVar(k)] ==> LabelsAgree(a, L, i1, i2, n))
  {
    if n > 0 {
      var t := n - 1;
      EdgeEqualitiesMeaning(a, L, k, i1, i2, t);
      SatisfiesAppend(a, EdgeEqualities(L, L.EdgeVar(k), i1, i2, t),
                      MakeConditionalEqual(L.EdgeVar(k), L.LabelVar(i1, t), L.LabelVar(i2, t)));
      VarOfRoleFresh(L, LabelRole(i1, t));
      VarOfRoleFresh(L, LabelRole(i2, t));
      MakeConditionalEqualMeaning(a, L.EdgeVar(k), L.LabelVar(i1, t), L.LabelVar(i2, t));
      LabelsAgreeSnoc(a, L, i1, i2, n);
    }
  }

  /** The clauses of an edge hold exactly when the edge's condition does. */
  lemma EdgeClausesMeaning(g: GraphView, L: Layout, a: Assignment, k: nat)
    requires WellIndexed(g) && k < |g.edges| && L == LayoutOf(g, L.base) && Assigns(a, L)
    ensures Satisfies(a, EdgeClauses(g, L, k)) <==> EdgeOk(g, L, a, k)
  {
    EdgeEqualitiesMeaning(a, L, k, g.edges[k].0, g.edges[k].1, g.netNum);
  }

  /** Edges 0 .. n-1 all meet their conditions. */
  predicate EdgesOk(g: GraphView, L: Layout, a: Assignment, n: nat)
    requires WellIndexed(g) && n <= |g.edges| && L == LayoutOf(g, L.base) && Assigns(a, L)
  {
    forall k :: 0 <= k < n ==> EdgeOk(g, L, a, k)
  }

  lemma {:induction false} EdgeClausesUpToMeaning(g: GraphView, L: Layout, a: Assignment, n: nat)
    requires WellIndexed(g) && n <= |g.edges| && L == LayoutOf(g, L.base) && Assigns(a, L)
    ensures Satisfies(a, EdgeClausesUpTo(g, L, n)) <==> EdgesOk(g, L, a, n)
  {
    if n > 0 {
      var k := n - 1;
      EdgeClausesUpToMeaning(g, L, a, k);
      SatisfiesAppend(a, EdgeClausesUpTo(g, L, k), EdgeClauses(g, L, k));
      EdgeClausesMeaning(g, L, a, k);
      EdgesOkSnoc(g, L, a, n);
    }
  }

  lemma EdgesOkSnoc(g: GraphView, L: Layout, a: Assignment, n: nat)
    requires WellIndexed(g) && 0 < n <= |g.edges| && L == LayoutOf(g, L.base) && Assigns(a, L)
    ensures EdgesOk(g, L, a, n) <==> EdgesOk(g, L, a, n - 1) && EdgeOk(g, L, a, n - 1)
  {
  }

  /** The encoding is satisfied exactly by the assignments under which every
      node meets its condition and every selected edge joins equal labels. */
  lemma EncodeMeaning(g: GraphView, L: Layout, a: Assignment)
    requires Encodable(g) && L == LayoutOf(g, L.base) && Assigns(a, L)
    ensures Satisfies(a, EncodeClauses(g, L)) <==> NodesOk(g, L, a, |g.nodes|) && EdgesOk(g, L, a, |g.edges|)
  {
    SatisfiesAppend(a, NodeClausesUpTo(g, L, |g.nodes|), EdgeClausesUpTo(g, L, |g.edges|));
    NodeClausesUpToMeaning(g, L, a, |g.nodes|);
    EdgeClausesUpToMeaning(g, L, a, |g.edges|);
  }

  // ---------------------------------------------------------------------
  // The graph of a problem is encodable
  // ---------------------------------------------------------------------

  /** Node i of a problem's graph has one edge per in-layer axis neighbour,
      so 2 to 4 of them on a grid at least 2 by 2. */
  lemma SpecNodeDegree(pr: Problem, i: nat)
    requires pr.width >= 2 && pr.height >= 2 && pr.depth > 0
    requires i < |SpecView(pr).nodes|
    ensures 2 <= |SpecView(pr).nodes[i].edges| <= 4
  {
    var w, h, d := pr.width, pr.height, pr.depth;
    var p := CellAt(h, d, i);
    CellAtInBox(w, h, d, i);
    IncidentLength(GridEdges(w, h, d), p);
    GridDegree(w, h, d, d, p);
    assert |SpecView(pr).nodes[i].edges| == NeighbourCount(w, h, p);
  }

  /** The edge ends and terminal pairs of a problem's graph are node ids. */
  lemma SpecEndsInRange(pr: Problem)
    requires WellFormed(pr)
    ensures var g := SpecView(pr);
            (forall k :: 0 <= k < |g.edges| ==> 0 <= g.edges[k].0 < |g.nodes| && 0 <= g.edges[k].1 < |g.nodes|) &&
            (forall k :: 0 <= k < g.netNum ==>
               0 <= g.terminalPairs[k].0 < |g.nodes| && 0 <= g.terminalPairs[k].1 < |g.nodes|)
  {
    var w, h, d := pr.width, pr.height, pr.depth;
    var g := SpecView(pr);
    var es := GridEdges(w, h, d);
    IndexEdgesSpec(h, d, es);
    GridEdgesInGrid(w, h, d, d);
    forall k | 0 <= k < |g.edges|
      ensures 0 <= g.edges[k].0 < |g.nodes| && 0 <= g.edges[k].1 < |g.nodes|
    {
      NodeIndexInRange(w, h, d, es[k].0);
      NodeIndexInRange(w, h, d, es[k].1);
    }
    forall k | 0 <= k < g.netNum
      ensures 0 <= g.terminalPairs[k].0 < |g.nodes| && 0 <= g.terminalPairs[k].1 < |g.nodes|
    {
      NodeIndexInRange(w, h, d, pr.nets[k].startPoint);
      NodeIndexInRange(w, h, d, pr.nets[k].endPoint);
    }
  }

  /** Every well-formed problem on a grid at least 2 by 2 has an encodable
      graph: the indices are in range and every node has 2 to 4 edges. */
  lemma SpecViewEncodable(pr: Problem)
    requires WellFormed(pr) && pr.width >= 2 && pr.height >= 2
    ensures Encodable(SpecView(pr))
  {
    var g := SpecView(pr);
    SpecEndsInRange(pr);
    forall i | 0 <= i < |g.nodes| ensures 2 <= |g.nodes[i].edges| <= 4 {
      SpecNodeDegree(pr, i);
    }
    assert WellIndexed(g);
  }

  /** The graph built for such a problem is encodable. */
  lemma GraphEncodable(graph: NlGraph)
    requires graph.Valid() && graph.width >= 2 && graph.height >= 2
    ensures Encodable(graph.View())
  {
    graph.ViewIsSpec();
    SpecViewEncodable(graph.problem);
  }

  // ---------------------------------------------------------------------
  // The encoder
  // ---------------------------------------------------------------------

  /** Row i of a block of n-wide rows starting after start. */
  function Row(start: int, i: nat, n: nat): (r: seq<int>)
    ensures |r| == n && forall t :: 0 <= t < n ==> r[t] == start + Mul(i, n) + t + 1
  {
    seq(n, t requires 0 <= t < n => start + Mul(i, n) + t + 1)
  }

  /** Allocates n variables in a row: the next n numbers after the counter. */
  method NewVariables(solver: Solver, n: nat) returns (vs: seq<int>)
    modifies solver
    ensures |vs| == n && forall j :: 0 <= j < n ==> vs[j] == old(solver.varCount) + j + 1
    ensures solver.varCount == old(solver.varCount) + n && solver.clauses == old(solver.clauses)
  {
    ghost var count0, base := solver.varCount, solver.clauses;
    vs := [];
    while |vs| < n
      invariant |vs| <= n
      invariant forall j :: 0 <= j < |vs| ==> vs[j] == count0 + j + 1
      invariant solver.varCount == count0 + |vs| && solver.clauses == base
    {
      var v := solver.NewVariable();
      vs := vs + [v];
    }
  }

  /** Allocates rows of n variables each, row after row. */
  method NewVariableRows(solver: Solver, rows: nat, n: nat) returns (vss: seq<seq<int>>)
    modifies solver
    ensures |vss| == rows && forall i :: 0 <= i < rows ==> vss[i] == Row(old(solver.varCount), i, n)
    ensures solver.varCount == old(solver.varCount) + Mul(rows, n) && solver.clauses == old(solver.clauses)
  {
    ghost var count0, base := solver.varCount, solver.clauses;
    vss := [];
    while |vss| < rows
      invariant |vss| <= rows
      invariant forall i :: 0 <= i < |vss| ==> vss[i] == Row(count0, i, n)
      invariant solver.varCount == count0 + Mul(|vss|, n) && solver.clauses == base
    {
      var vs := NewVariables(solver, n);
      assert vs == Row(count0, |vss|, n);
      vss := vss + [vs];
    }
  }

  /** Builds the CNF of a graph into a solver and remembers the variable of
      every edge, the label variables of every node and the net/via
      variables. */
  class NlCnfEncoder {
    ghost const layout: Layout
    const edgeVarList: seq<int>
    const nodeVarsList: seq<seq<int>>
    const nvMap: seq<seq<int>>

    /** The three variable tables follow the layout. */
    ghost predicate Valid() {
      |edgeVarList| == layout.edgeCount &&
      (forall k :: 0 <= k < |edgeVarList| ==> edgeVarList[k] == layout.EdgeVar(k)) &&
      |nodeVarsList| == layout.nodeCount &&
      (forall i :: 0 <= i < |nodeVarsList| ==> nodeVarsList[i] == Row(layout.base + layout.edgeCount, i, layout.netNum)) &&
      |nvMap| == layout.netNum &&
      (forall k :: 0 <= k < |nvMap| ==>
         nvMap[k] == Row(layout.base + layout.edgeCount + Mul(layout.nodeCount, layout.netNum), k, layout.viaNum))
    }

    /** Allocates the edge variables, then the label variables, then the
        net/via variables, and adds the node clauses and the edge clauses. */
    constructor (g: GraphView, solver: Solver)
      requires Encodable(g)
      modifies solver
      ensures layout == LayoutOf(g, old(solver.varCount)) && Valid()
      ensures solver.varCount == layout.Top()
      ensures solver.clauses == old(solver.clauses) + EncodeClauses(g, layout)
    {
      ghost var L := LayoutOf(g, solver.varCount);
      layout := L;
      var edgeVars := NewVariables(solver, |g.edges|);
      assert solver.varCount == L.base + L.edgeCount;
      var nodeVars := NewVariableRows(solver, |g.nodes|, g.netNum);
      assert solver.varCount == L.base + L.edgeCount + Mul(L.nodeCount, L.netNum);
      var nvVars := NewVariableRows(solver, g.netNum, g.viaNum);
      assert solver.varCount == L.Top();
      edgeVarList, nodeVarsList, nvMap := edgeVars, nodeVars, nvVars;
      ghost var mid := solver.clauses;
      assert mid == old(solver.clauses);
      new;
      assert Valid();
      AddNodeClauses(g, solver);
      AddEdgeClauses(g, solver);
      AppendAssoc(mid, NodeClausesUpTo(g, L, |g.nodes|), EdgeClausesUpTo(g, L, |g.edges|));
    }

    /** The variable of edge edgeId. */
    function EdgeVar(edgeId: nat): (v: int)
      requires Valid() && edgeId < layout.edgeCount
      ensures v == layout.base + edgeId + 1
    {
      edgeVarList[edgeId]
    }

    method AddNodeClauses(g: GraphView, solver: Solver)
      requires Valid() && Encodable(g) && layout == LayoutOf(g, layout.base)
      modifies solver
      ensures solver.clauses == old(solver.clauses) + NodeClausesUpTo(g, layout, |g.nodes|)
      ensures solver.varCount == old(solver.varCount)
    {
      ghost var count0, base := solver.varCount, solver.clauses;
      for i := 0 to |g.nodes|
        invariant solver.clauses == base + NodeClausesUpTo(g, layout, i)
        invariant solver.varCount == count0
      {
        AddNodeClausesOf(g, solver, i, base, count0);
      }
    }

    /** The clauses of node i, by the node's kind. */
    method AddNodeClausesOf(g: GraphView, solver: Solver, i: nat, ghost base: seq<Clause>, ghost count0: int)
      requires Valid() && Encodable(g) && layout == LayoutOf(g, layout.base) && i < |g.nodes|
      requires solver.clauses == base + NodeClausesUpTo(g, layout, i) && solver.varCount == count0
      modifies solver
      ensures solver.clauses == base + NodeClausesUpTo(g, layout, i + 1) && solver.varCount == count0
    {
      ghost var pre := solver.clauses;
      var node := g.nodes[i];
      assert ArityOk(g, i);
      var evarList := seq(|node.edges|, j requires 0 <= j < |node.edges| => edgeVarList[node.edges[j]]);
      assert evarList == Evars(g, layout, i);
      if node.isTerminal {
        assert NodeClauses(g, layout, i) == TerminalClauses(layout, i, node.terminalId.value, evarList);
        AddTerminalClauses(solver, i, node.terminalId.value, nodeVarsList[i], evarList);
      } else if node.isVia {
        assert NodeClauses(g, layout, i) == ViaClauses(layout, node.viaId.value, evarList, Blocked(g, i), g.netNum);
        AddViaClauses(g, solver, i, node.viaId.value, evarList);
      } else {
        assert NodeClauses(g, layout, i) == MakeZeroOrTwo(evarList);
        solver.AddClauses(MakeZeroOrTwo(evarList));
      }
      NodeClausesStep(g, layout, base, pre, solver.clauses, i);
    }

    /** Fixes the label bits of a terminal of net tid, then requires exactly
        one of its edges. */
    method AddTerminalClauses(solver: Solver, ghost i: nat, tid: nat, lvarList: seq<int>, evarList: seq<int>)
      requires Valid() && i < layout.nodeCount && lvarList == nodeVarsList[i] && 2 <= |evarList| <= 4
      modifies solver
      ensures solver.clauses == old(solver.clauses) + TerminalClauses(layout, i, tid, evarList)
      ensures solver.varCount == old(solver.varCount)
    {
      ghost var count0, base := solver.varCount, solver.clauses;
      var t := 0;
      while t < |lvarList|
        invariant 0 <= t <= |lvarList| == layout.netNum
        invariant solver.clauses == base + LabelUnits(layout, i, tid, t)
        invariant solver.varCount == count0
      {
        var lvar := lvarList[t];
        assert lvar == layout.LabelVar(i, t);
        if t == tid {
          solver.AddClause([lvar]);
        } else {
          solver.AddClause([-lvar]);
        }
        t := t + 1;
      }
      solver.AddClauses(MakeOne(evarList));
      AppendAssoc(base, LabelUnits(layout, i, tid, t), MakeOne(evarList));
    }

    /** For each net, the via node's edges under that net's variable for via vid. */
    method AddViaClauses(g: GraphView, solver: Solver, i: nat, vid: nat, evarList: seq<int>)
      requires Valid() && WellIndexed(g) && layout == LayoutOf(g, layout.base)
      requires i < |g.nodes| && g.nodes[i].isVia && vid == g.nodes[i].viaId.value && ArityOk(g, i)
      requires !g.nodes[i].isTerminal && evarList == Evars(g, layout, i)
      modifies solver
      ensures solver.clauses == old(solver.clauses) + ViaClauses(layout, vid, evarList, Blocked(g, i), g.netNum)
      ensures solver.varCount == old(solver.varCount)
    {
      ghost var blocked := Blocked(g, i);
      ghost var count0, base := solver.varCount, solver.clauses;
      var k := 0;
      while k < g.netNum
        invariant 0 <= k <= g.netNum
        invariant solver.clauses == base + ViaClauses(layout, vid, evarList, blocked, k)
        invariant solver.varCount == count0
      {
        AddViaNetClauses(g, solver, i, vid, evarList, k, base);
        k := k + 1;
      }
    }

    /** The via node's clauses for net k. */
    method AddViaNetClauses(g: GraphView, solver: Solver, i: nat, vid: nat, evarList: seq<int>, k: nat, ghost base: seq<Clause>)
      requires Valid() && WellIndexed(g) && layout == LayoutOf(g, layout.base)
      requires i < |g.nodes| && g.nodes[i].isVia && vid == g.nodes[i].viaId.value && ArityOk(g, i)
      requires !g.nodes[i].isTerminal && evarList == Evars(g, layout, i) && k < g.netNum
      requires solver.clauses == base + ViaClauses(layout, vid, evarList, Blocked(g, i), k)
      modifies solver
      ensures solver.clauses == base + ViaClauses(layout, vid, evarList, Blocked(g, i), k + 1)
      ensures solver.varCount == old(solver.varCount)
    {
      var cvar := nvMap[k][vid];
      assert cvar == layout.NvVar(k, vid);
      var (n1, n2) := g.terminalPairs[k];
      var node := g.nodes[i];
      var blocked := g.nodes[n1].z == g.nodes[n2].z || (g.nodes[n1].z != node.z && g.nodes[n2].z != node.z);
      assert blocked == Blocked(g, i)[k];
      ghost var cs;
      if blocked {
        cs := MakeConditionalZero(cvar, evarList);
        solver.AddClauses(MakeConditionalZero(cvar, evarList));
      } else {
        cs := MakeConditionalOne(cvar, evarList);
        solver.AddClauses(MakeConditionalOne(cvar, evarList));
      }
      assert ViaClauses(layout, vid, evarList, Blocked(g, i), k + 1) ==
             ViaClauses(layout, vid, evarList, Blocked(g, i), k) + cs;
      AppendAssoc(base, ViaClauses(layout, vid, evarList, Blocked(g, i), k), cs);
    }

    method AddEdgeClauses(g: GraphView, solver: Solver)
      requires Valid() && WellIndexed(g) && layout == LayoutOf(g, layout.base)
      modifies solver
      ensures solver.clauses == old(solver.clauses) + EdgeClausesUpTo(g, layout, |g.edges|)
      ensures solver.varCount == old(solver.varCount)
    {
      ghost var count0, base := solver.varCount, solver.clauses;
      var k := 0;
      while k < |g.edges|
        invariant 0 <= k <= |g.edges|
        invariant solver.clauses == base + EdgeClausesUpTo(g, layout, k)
        invariant solver.varCount == count0
      {
        AddEdgeEqualities(g, solver, k);
        AppendAssoc(base, EdgeClausesUpTo(g, layout, k), EdgeClauses(g, layout, k));
        k := k + 1;
      }
    }

    /** Under the variable of edge k, equal label bits at its two ends. */
    method AddEdgeEqualities(g: GraphView, solver: Solver, k: nat)
      requires Valid() && WellIndexed(g) && layout == LayoutOf(g, layout.base) && k < |g.edges|
      modifies solver
      ensures solver.clauses == old(solver.clauses) + EdgeClauses(g, layout, k)
      ensures solver.varCount == old(solver.varCount)
    {
      var evar := edgeVarList[k];
      var (i1, i2) := g.edges[k];
      var nvarList1 := nodeVarsList[i1];
      var nvarList2 := nodeVarsList[i2];
      ghost var count0, base := solver.varCount, solver.clauses;
      var t := 0;
      while t < g.netNum
        invariant 0 <= t <= g.netNum
        invariant solver.clauses == base + EdgeEqualities(layout, evar, i1, i2, t)
        invariant solver.varCount == count0
      {
        assert nvarList1[t] == layout.LabelVar(i1, t);
        assert nvarList2[t] == layout.LabelVar(i2, t);
        solver.AddClauses(MakeConditionalEqual(evar, nvarList1[t], nvarList2[t]));
        AppendAssoc(base, EdgeEqualities(layout, evar, i1, i2, t),
                    MakeConditionalEqual(evar, nvarList1[t], nvarList2[t]));
        t := t + 1;
      }
    }
  }
}
