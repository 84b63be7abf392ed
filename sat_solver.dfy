/** The interface the encoder drives: the three-valued solver verdict, the
    variable counter, and the meaning of literals, clauses and models.
    The search itself is external; here a clause set is data and
    satisfaction is a predicate over an assignment. */
module SatSolver {

  /** Three-valued answer of the solver; the enum values are X = 0,
      True = 1, False = -1. */
  datatype SatBool3 = B3X | B3True | B3False

  /** The integer value of the enum member. */
  function Value(b: SatBool3): (v: int)
    ensures -1 <= v <= 1
    ensures v == 0 <==> b == B3X
    ensures v == 1 <==> b == B3True
  {
    match b
    case B3X => 0
    case B3True => 1
    case B3False => -1
  }

  /** Negation: X stays X, True and False swap. */
  function Negate(b: SatBool3): (r: SatBool3)
    ensures Value(r) == -Value(b)
  {
    match b
    case B3X => B3X
    case B3True => B3False
    case B3False => B3True
  }

  lemma NegateInvolution(b: SatBool3)
    ensures Negate(Negate(b)) == b
    ensures Negate(b) == b <==> b == B3X
  {
  }

  /** The printed form of a verdict. */
  function Repr(b: SatBool3): (s: string)
    ensures b == B3X ==> s == "X(unknown)"
    ensures b == B3True ==> s == "True"
    ensures b == B3False ==> s == "False"
  {
    match b
    case B3X => "X(unknown)"
    case B3True => "True"
    case B3False => "False"
  }

  lemma ReprInjective(b1: SatBool3, b2: SatBool3)
    ensures Repr(b1) == Repr(b2) <==> b1 == b2
  {
  }

  /** A literal is a non-zero integer: its absolute value is the variable
      number, its sign the polarity. */
  type Literal = int
  type Clause = seq<Literal>

  /** Truth values of variables, keyed by variable number. */
  type Assignment = map<int, bool>

  function VarOf(l: Literal): (v: nat)
    ensures l != 0 ==> v > 0
    ensures v == l || v == -l
  {
    if l < 0 then -l else l
  }

  /** A literal holds when its variable is assigned the value of its sign. */
  predicate LitHolds(a: Assignment, l: Literal) {
    l != 0 && VarOf(l) in a && a[VarOf(l)] == (l > 0)
  }

  /** A clause is the disjunction of its literals. */
  predicate ClauseHolds(a: Assignment, c: Clause) {
    exists l :: l in c && LitHolds(a, l)
  }

  /** A clause set is the conjunction of its clauses. */
  predicate Satisfies(a: Assignment, cs: seq<Clause>) {
    forall c :: c in cs ==> ClauseHolds(a, c)
  }

  lemma SatisfiesAppend(a: Assignment, cs1: seq<Clause>, cs2: seq<Clause>)
    ensures Satisfies(a, cs1 + cs2) <==> Satisfies(a, cs1) && Satisfies(a, cs2)
  {
  }

  /** Clause displays of two to five literals, read as disjunctions. */
  lemma Clause2(a: Assignment, l0: Literal, l1: Literal)
    ensures ClauseHolds(a, [l0, l1]) <==> LitHolds(a, l0) || LitHolds(a, l1)
  {
    if LitHolds(a, l0) { assert l0 in [l0, l1]; }
    if LitHolds(a, l1) { assert l1 in [l0, l1]; }
  }

  lemma Clause3(a: Assignment, l0: Literal, l1: Literal, l2: Literal)
    ensures ClauseHolds(a, [l0, l1, l2]) <==> LitHolds(a, l0) || LitHolds(a, l1) || LitHolds(a, l2)
  {
    var c := [l0, l1, l2];
    if LitHolds(a, l0) { assert l0 in c; }
    if LitHolds(a, l1) { assert l1 in c; }
    if LitHolds(a, l2) { assert l2 in c; }
  }

  lemma Clause4(a: Assignment, l0: Literal, l1: Literal, l2: Literal, l3: Literal)
    ensures ClauseHolds(a, [l0, l1, l2, l3]) <==>
              LitHolds(a, l0) || LitHolds(a, l1) || LitHolds(a, l2) || LitHolds(a, l3)
  {
    var c := [l0, l1, l2, l3];
    if LitHolds(a, l0) { assert l0 in c; }
    if LitHolds(a, l1) { assert l1 in c; }
    if LitHolds(a, l2) { assert l2 in c; }
    if LitHolds(a, l3) { assert l3 in c; }
  }

  lemma Clause5(a: Assignment, l0: Literal, l1: Literal, l2: Literal, l3: Literal, l4: Literal)
    ensures ClauseHolds(a, [l0, l1, l2, l3, l4]) <==>
              LitHolds(a, l0) || LitHolds(a, l1) || LitHolds(a, l2) || LitHolds(a, l3) || LitHolds(a, l4)
  {
    var c := [l0, l1, l2, l3, l4];
    if LitHolds(a, l0) { assert l0 in c; }
    if LitHolds(a, l1) { assert l1 in c; }
    if LitHolds(a, l2) { assert l2 in c; }
    if LitHolds(a, l3) { assert l3 in c; }
    if LitHolds(a, l4) { assert l4 in c; }
  }

  /** A solver model lists one three-valued value per variable, the value of
      variable v at index v; the known values form an assignment. */
  function ModelAssignment(model: seq<SatBool3>): (a: Assignment)
    ensures forall v :: v in a <==> 0 < v < |model| && model[v] != B3X
    ensures forall v :: v in a ==> (a[v] <==> model[v] == B3True)
  {
    map v: int | 0 < v < |model| && model[v] != B3X :: model[v] == B3True
  }

  /** The solver: a variable counter and the clauses added so far. */
  class Solver {
    var varCount: nat
    var clauses: seq<Clause>

    constructor ()
      ensures varCount == 0 && clauses == []
    {
      varCount := 0;
      clauses := [];
    }

    /** Allocates the next variable: numbers start at 1 and go up by one. */
    method NewVariable() returns (v: nat)
      modifies this
      ensures v == old(varCount) + 1
      ensures varCount == v
      ensures clauses == old(clauses)
    {
      varCount := varCount + 1;
      v := varCount;
    }

    /** Records one clause. */
    method AddClause(c: Clause)
      modifies this
      ensures clauses == old(clauses) + [c]
      ensures varCount == old(varCount)
    {
      clauses := clauses + [c];
    }

    /** Records a list of clauses in order. */
    method AddClauses(cs: seq<Clause>)
      modifies this
      ensures clauses == old(clauses) + cs
      ensures varCount == old(varCount)
    {
      ghost var pre, count0 := clauses, varCount;
      var i := 0;
      while i < |cs|
        invariant 0 <= i <= |cs|
        invariant clauses == pre + cs[..i]
        invariant varCount == count0
      {
        AddClause(cs[i]);
        assert cs[..i + 1] == cs[..i] + [cs[i]];
        i := i + 1;
      }
      assert cs[..i] == cs;
    }
  }

  /** The solver test: two fresh variables get numbers 1 and 2, and the
      clauses (v1 or not v2) and (not v1) force both variables false. */
  method SolverTestScenario() returns (v1: nat, v2: nat, cs: seq<Clause>)
    ensures v1 == 1 && v2 == 2
    ensures cs == [[1, -2], [-1]]
    ensures forall a: Assignment :: v1 in a && v2 in a ==>
              (Satisfies(a, cs) <==> !a[v1] && !a[v2])
  {
    var solver := new Solver();
    v1 := solver.NewVariable();
    v2 := solver.NewVariable();
    solver.AddClause([v1 as int, -(v2 as int)]);
    solver.AddClause([-(v1 as int)]);
    cs := solver.clauses;
    forall a: Assignment | v1 in a && v2 in a
      ensures Satisfies(a, cs) <==> !a[v1] && !a[v2]
    {
      Clause2(a, v1, -(v2 as int));
      assert ClauseHolds(a, [-(v1 as int)]) <==> LitHolds(a, -(v1 as int)) by {
        assert -(v1 as int) in [-(v1 as int)];
      }
    }
  }
}
