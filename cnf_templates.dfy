/** The clause templates the encoder emits: exactly-one, conditional
    exactly-one, zero-or-two, conditional all-false and conditional
    equality. Each is a pure function from variable numbers to a clause
    list, and each comes with a lemma saying which assignments satisfy the
    list. The fixed-arity templates exist for 2, 3 and 4 variables only;
    any other length is an assertion failure, hence a precondition. */
module CnfTemplates {
  import opened SatSolver

  /** Every entry is a variable number (positive) known to the assignment. */
  predicate VarsIn(a: Assignment, vs: seq<int>) {
    forall i :: 0 <= i < |vs| ==> vs[i] > 0 && vs[i] in a
  }

  /** How many positions of vs hold a variable assigned true. */
  function CountTrue(a: Assignment, vs: seq<int>): (n: nat)
    requires VarsIn(a, vs)
    ensures n <= |vs|
  {
    if vs == [] then 0 else (if a[vs[0]] then 1 else 0) + CountTrue(a, vs[1..])
  }

  lemma {:induction false} CountTrueZero(a: Assignment, vs: seq<int>)
    requires VarsIn(a, vs)
    ensures CountTrue(a, vs) == 0 <==> forall i :: 0 <= i < |vs| ==> !a[vs[i]]
  {
    if vs != [] {
      CountTrueZero(a, vs[1..]);
      if forall i :: 0 <= i < |vs| ==> !a[vs[i]] {
        forall i | 0 <= i < |vs[1..]| ensures !a[vs[1..][i]] {
          assert vs[1..][i] == vs[i + 1];
        }
      }
      if CountTrue(a, vs) == 0 {
        forall i | 0 <= i < |vs| ensures !a[vs[i]] {
          if i > 0 {
            assert vs[i] == vs[1..][i - 1];
          }
        }
      }
    }
  }

  /** The two literals of a variable: v holds when it is true, -v when false. */
  lemma Lit(a: Assignment, v: int)
    requires v > 0 && v in a
    ensures LitHolds(a, v) == a[v] && LitHolds(a, -v) == !a[v]
  {
  }

  function Bit(b: bool): nat { if b then 1 else 0 }

  lemma CountTrue2(a: Assignment, vs: seq<int>)
    requires |vs| == 2 && VarsIn(a, vs)
    ensures CountTrue(a, vs) == Bit(a[vs[0]]) + Bit(a[vs[1]])
  {
    assert vs[1..][1..] == [];
  }

  lemma CountTrue3(a: Assignment, vs: seq<int>)
    requires |vs| == 3 && VarsIn(a, vs)
    ensures CountTrue(a, vs) == Bit(a[vs[0]]) + Bit(a[vs[1]]) + Bit(a[vs[2]])
  {
    CountTrue2(a, vs[1..]);
  }

  lemma CountTrue4(a: Assignment, vs: seq<int>)
    requires |vs| == 4 && VarsIn(a, vs)
    ensures CountTrue(a, vs) == Bit(a[vs[0]]) + Bit(a[vs[1]]) + Bit(a[vs[2]]) + Bit(a[vs[3]])
  {
    CountTrue3(a, vs[1..]);
  }

  /** Exactly one of vs is true: every pair is forbidden, then one clause
      asks for at least one. */
  function MakeOne(vs: seq<int>): (cs: seq<Clause>)
    requires 2 <= |vs| <= 4
    ensures |cs| == if |vs| == 2 then 2 else if |vs| == 3 then 4 else 7
    ensures cs[|cs| - 1] == vs
  {
    if |vs| == 2 then
      var v0, v1 := vs[0], vs[1];
      [[-v0, -v1],
       [ v0,  v1]]
    else if |vs| == 3 then
      var v0, v1, v2 := vs[0], vs[1], vs[2];
      [[-v0, -v1     ],
       [-v0,      -v2],
       [     -v1, -v2],
       [ v0,  v1,  v2]]
    else
      var v0, v1, v2, v3 := vs[0], vs[1], vs[2], vs[3];
      [[-v0, -v1          ],
       [-v0,      -v2     ],
       [-v0,           -v3],
       [     -v1, -v2     ],
       [     -v1,      -v3],
       [          -v2, -v3],
       [ v0,  v1,  v2,  v3]]
  }

  lemma MakeOneMeaning(a: Assignment, vs: seq<int>)
    requires 2 <= |vs| <= 4 && VarsIn(a, vs)
    ensures Satisfies(a, MakeOne(vs)) <==> CountTrue(a, vs) == 1
  {
    if |vs| == 2 {
      MakeOne2Meaning(a, vs);
    } else if |vs| == 3 {
      MakeOne3Meaning(a, vs);
    } else {
      MakeOne4Meaning(a, vs);
    }
  }

  lemma MakeOne2Meaning(a: Assignment, vs: seq<int>)
    requires |vs| == 2 && VarsIn(a, vs)
    ensures Satisfies(a, MakeOne(vs)) <==> CountTrue(a, vs) == 1
  {
    var cs := MakeOne(vs);
    var v0, v1 := vs[0], vs[1];
    Lit(a, v0); Lit(a, v1);
    var b0, b1 := a[v0], a[v1];
    CountTrue2(a, vs);
    Clause2(a, -v0, -v1);
    Clause2(a, v0, v1);
    assert cs == [[-v0, -v1], [v0, v1]];
    assert Satisfies(a, cs) <==> (!b0 || !b1) && (b0 || b1);
  }

  lemma MakeOne3Meaning(a: Assignment, vs: seq<int>)
    requires |vs| == 3 && VarsIn(a, vs)
    ensures Satisfies(a, MakeOne(vs)) <==> CountTrue(a, vs) == 1
  {
    var cs := MakeOne(vs);
    var v0, v1, v2 := vs[0], vs[1], vs[2];
    Lit(a, v0); Lit(a, v1); Lit(a, v2);
    var b0, b1, b2 := a[v0], a[v1], a[v2];
    CountTrue3(a, vs);
    Clause2(a, -v0, -v1);
    Clause2(a, -v0, -v2);
    Clause2(a, -v1, -v2);
    Clause3(a, v0, v1, v2);
    assert cs == [[-v0, -v1], [-v0, -v2], [-v1, -v2], [v0, v1, v2]];
    assert Satisfies(a, cs) <==> (!b0 || !b1) && (!b0 || !b2) && (!b1 || !b2) && (b0 || b1 || b2);
  }

  lemma MakeOne4Meaning(a: Assignment, vs: seq<int>)
    requires |vs| == 4 && VarsIn(a, vs)
    ensures Satisfies(a, MakeOne(vs)) <==> CountTrue(a, vs) == 1
  {
    var v0, v1, v2, v3 := vs[0], vs[1], vs[2], vs[3];
    var pairs := [[-v0, -v1], [-v0, -v2], [-v0, -v3], [-v1, -v2], [-v1, -v3], [-v2, -v3]];
    assert MakeOne(vs) == pairs + [[v0, v1, v2, v3]];
    SatisfiesAppend(a, pairs, [[v0, v1, v2, v3]]);
    AtMostOneOfFour(a, v0, v1, v2, v3);
    Lit(a, v0); Lit(a, v1); Lit(a, v2); Lit(a, v3);
    Clause4(a, v0, v1, v2, v3);
    assert Satisfies(a, [[v0, v1, v2, v3]]) <==> ClauseHolds(a, [v0, v1, v2, v3]);
    CountTrue4(a, vs);
  }

  /** The six binary clauses of the 4-ary template forbid two true at once. */
  lemma AtMostOneOfFour(a: Assignment, v0: int, v1: int, v2: int, v3: int)
    requires v0 > 0 && v0 in a && v1 > 0 && v1 in a && v2 > 0 && v2 in a && v3 > 0 && v3 in a
    ensures Satisfies(a, [[-v0, -v1], [-v0, -v2], [-v0, -v3], [-v1, -v2], [-v1, -v3], [-v2, -v3]]) <==>
              (!a[v0] || !a[v1]) && (!a[v0] || !a[v2]) && (!a[v0] || !a[v3]) &&
              (!a[v1] || !a[v2]) && (!a[v1] || !a[v3]) && (!a[v2] || !a[v3])
  {
    Lit(a, v0); Lit(a, v1); Lit(a, v2); Lit(a, v3);
    Clause2(a, -v0, -v1);
    Clause2(a, -v0, -v2);
    Clause2(a, -v0, -v3);
    Clause2(a, -v1, -v2);
    Clause2(a, -v1, -v3);
    Clause2(a, -v2, -v3);
  }


  /** Every clause of cs with the negated condition variable in front: the
      result holds when the condition is false or cs holds. */
  function Guard(cvar: int, cs: seq<Clause>): (gs: seq<Clause>)
    ensures |gs| == |cs|
    ensures forall i :: 0 <= i < |gs| ==> gs[i] == [-cvar] + cs[i]
  {
    seq(|cs|, i requires 0 <= i < |cs| => [-cvar] + cs[i])
  }

  lemma GuardMeaning(a: Assignment, cvar: int, cs: seq<Clause>)
    requires cvar > 0 && cvar in a
    ensures Satisfies(a, Guard(cvar, cs)) <==> !a[cvar] || Satisfies(a, cs)
  {
    var gs := Guard(cvar, cs);
    if !a[cvar] {
      assert LitHolds(a, -cvar);
      forall g | g in gs ensures ClauseHolds(a, g) {
        var i :| 0 <= i < |gs| && gs[i] == g;
        assert g[0] == -cvar;
      }
    } else {
      if Satisfies(a, cs) {
        forall g | g in gs ensures ClauseHolds(a, g) {
          var i :| 0 <= i < |gs| && gs[i] == g;
          assert cs[i] in cs;
          var l :| l in cs[i] && LitHolds(a, l);
          assert l in g;
        }
      }
      if Satisfies(a, gs) {
        forall c | c in cs ensures ClauseHolds(a, c) {
          var i :| 0 <= i < |cs| && cs[i] == c;
          assert gs[i] in gs;
          var l :| l in gs[i] && LitHolds(a, l);
          assert l != -cvar;
        }
      }
    }
  }

  /** Under the condition variable cvar, exactly one of vs is true. */
  function MakeConditionalOne(cvar: int, vs: seq<int>): (cs: seq<Clause>)
    requires 2 <= |vs| <= 4
    ensures |cs| == if |vs| == 2 then 2 else if |vs| == 3 then 4 else 7
    ensures forall i :: 0 <= i < |cs| ==> |cs[i]| > 0 && cs[i][0] == -cvar
  {
    if |vs| == 2 then
      var v0, v1 := vs[0], vs[1];
      [[-cvar, -v0, -v1],
       [-cvar,  v0,  v1]]
    else if |vs| == 3 then
      var v0, v1, v2 := vs[0], vs[1], vs[2];
      [[-cvar, -v0, -v1     ],
       [-cvar, -v0,      -v2],
       [-cvar,      -v1, -v2],
       [-cvar,  v0,  v1,  v2]]
    else
      var v0, v1, v2, v3 := vs[0], vs[1], vs[2], vs[3];
      [[-cvar, -v0, -v1          ],
       [-cvar, -v0,      -v2     ],
       [-cvar, -v0,           -v3],
       [-cvar,      -v1, -v2     ],
       [-cvar,      -v1,      -v3],
       [-cvar,           -v2, -v3],
       [-cvar,  v0,  v1,  v2,  v3]]
  }

  /** The conditional template is the exactly-one template guarded by cvar. */
  lemma MakeConditionalOneIsGuarded(cvar: int, vs: seq<int>)
    requires 2 <= |vs| <= 4
    ensures MakeConditionalOne(cvar, vs) == Guard(cvar, MakeOne(vs))
  {
    var cs, gs := MakeConditionalOne(cvar, vs), Guard(cvar, MakeOne(vs));
    var one := MakeOne(vs);
    forall i | 0 <= i < |cs| ensures cs[i] == gs[i] {
      assert gs[i] == [-cvar] + one[i];
    }
  }

  lemma MakeConditionalOneMeaning(a: Assignment, cvar: int, vs: seq<int>)
    requires 2 <= |vs| <= 4 && VarsIn(a, vs) && cvar > 0 && cvar in a
    ensures Satisfies(a, MakeConditionalOne(cvar, vs)) <==> !a[cvar] || CountTrue(a, vs) == 1
  {
    MakeConditionalOneIsGuarded(cvar, vs);
    GuardMeaning(a, cvar, MakeOne(vs));
    MakeOneMeaning(a, vs);
  }

  /** Under cvar, none of vs is true: one binary clause per variable. */
  function MakeConditionalZero(cvar: int, vs: seq<int>): (cs: seq<Clause>)
    ensures |cs| == |vs|
    ensures forall i :: 0 <= i < |vs| ==> cs[i] == [-cvar, -vs[i]]
  {
    seq(|vs|, i requires 0 <= i < |vs| => [-cvar, -vs[i]])
  }

  lemma MakeConditionalZeroMeaning(a: Assignment, cvar: int, vs: seq<int>)
    requires VarsIn(a, vs) && cvar > 0 && cvar in a
    ensures Satisfies(a, MakeConditionalZero(cvar, vs)) <==> !a[cvar] || CountTrue(a, vs) == 0
  {
    var cs := MakeConditionalZero(cvar, vs);
    Lit(a, cvar);
    CountTrueZero(a, vs);
    if Satisfies(a, cs) && a[cvar] {
      forall i | 0 <= i < |vs| ensures !a[vs[i]] {
        assert cs[i] in cs;
        Lit(a, vs[i]);
        Clause2(a, -cvar, -vs[i]);
      }
    }
    if !a[cvar] || CountTrue(a, vs) == 0 {
      forall c | c in cs ensures ClauseHolds(a, c) {
        var i :| 0 <= i < |cs| && cs[i] == c;
        Lit(a, vs[i]);
        Clause2(a, -cvar, -vs[i]);
      }
    }
  }

  /** Zero or exactly two of vs are true: each clause rules out one
      forbidden pattern (a single true variable, or three or more). */
  function MakeZeroOrTwo(vs: seq<int>): (cs: seq<Clause>)
    requires 2 <= |vs| <= 4
    ensures |cs| == if |vs| == 2 then 2 else if |vs| == 3 then 4 else 8
  {
    if |vs| == 2 then
      var v0, v1 := vs[0], vs[1];
      [[ v0, -v1],
       [-v0,  v1]]
    else if |vs| == 3 then
      var v0, v1, v2 := vs[0], vs[1], vs[2];
      [[-v0, -v1, -v2],
       [ v0,  v1, -v2],
       [ v0, -v1,  v2],
       [-v0,  v1,  v2]]
    else
      var v0, v1, v2, v3 := vs[0], vs[1], vs[2], vs[3];
      [[-v0, -v1, -v2     ],
       [-v0, -v1,      -v3],
       [-v0,      -v2, -v3],
       [     -v1, -v2, -v3],
       [ v0,  v1,  v2, -v3],
       [ v0,  v1, -v2,  v3],
       [ v0, -v1,  v2,  v3],
       [-v0,  v1,  v2,  v3]]
  }

  lemma MakeZeroOrTwoMeaning(a: Assignment, vs: seq<int>)
    requires 2 <= |vs| <= 4 && VarsIn(a, vs)
    ensures Satisfies(a, MakeZeroOrTwo(vs)) <==> CountTrue(a, vs) == 0 || CountTrue(a, vs) == 2
  {
    if |vs| == 2 {
      ZeroOrTwo2Meaning(a, vs);
    } else if |vs| == 3 {
      ZeroOrTwo3Meaning(a, vs);
    } else {
      ZeroOrTwo4Meaning(a, vs);
    }
  }

  lemma ZeroOrTwo2Meaning(a: Assignment, vs: seq<int>)
    requires |vs| == 2 && VarsIn(a, vs)
    ensures Satisfies(a, MakeZeroOrTwo(vs)) <==> CountTrue(a, vs) == 0 || CountTrue(a, vs) == 2
  {
    var cs := MakeZeroOrTwo(vs);
    var v0, v1 := vs[0], vs[1];
    Lit(a, v0); Lit(a, v1);
    var b0, b1 := a[v0], a[v1];
    CountTrue2(a, vs);
    Clause2(a, v0, -v1);
    Clause2(a, -v0, v1);
    assert cs == [[v0, -v1], [-v0, v1]];
    assert Satisfies(a, cs) <==> (b0 || !b1) && (!b0 || b1);
  }

  lemma ZeroOrTwo3Meaning(a: Assignment, vs: seq<int>)
    requires |vs| == 3 && VarsIn(a, vs)
    ensures Satisfies(a, MakeZeroOrTwo(vs)) <==> CountTrue(a, vs) == 0 || CountTrue(a, vs) == 2
  {
    var cs := MakeZeroOrTwo(vs);
    var v0, v1, v2 := vs[0], vs[1], vs[2];
    Lit(a, v0); Lit(a, v1); Lit(a, v2);
    var b0, b1, b2 := a[v0], a[v1], a[v2];
    CountTrue3(a, vs);
    Clause3(a, -v0, -v1, -v2);
    Clause3(a, v0, v1, -v2);
    Clause3(a, v0, -v1, v2);
    Clause3(a, -v0, v1, v2);
    assert cs == [[-v0, -v1, -v2], [v0, v1, -v2], [v0, -v1, v2], [-v0, v1, v2]];
    assert Satisfies(a, cs) <==>
      (!b0 || !b1 || !b2) && (b0 || b1 || !b2) && (b0 || !b1 || b2) && (!b0 || b1 || b2);
  }

  lemma ZeroOrTwo4Meaning(a: Assignment, vs: seq<int>)
    requires |vs| == 4 && VarsIn(a, vs)
    ensures Satisfies(a, MakeZeroOrTwo(vs)) <==> CountTrue(a, vs) == 0 || CountTrue(a, vs) == 2
  {
    var v0, v1, v2, v3 := vs[0], vs[1], vs[2], vs[3];
    var upper := [[-v0, -v1, -v2], [-v0, -v1, -v3], [-v0, -v2, -v3], [-v1, -v2, -v3]];
    var lower := [[v0, v1, v2, -v3], [v0, v1, -v2, v3], [v0, -v1, v2, v3], [-v0, v1, v2, v3]];
    assert MakeZeroOrTwo(vs) == upper + lower;
    SatisfiesAppend(a, upper, lower);
    CountTrue4(a, vs);
    AtMostTwoOfFour(a, v0, v1, v2, v3);
    NotExactlyOneOfFour(a, v0, v1, v2, v3);
    ZeroOrTwoBits(a[v0], a[v1], a[v2], a[v3]);
  }

  /** The four 3-clauses of the 4-ary template forbid three or more true. */
  lemma AtMostTwoOfFour(a: Assignment, v0: int, v1: int, v2: int, v3: int)
    requires v0 > 0 && v0 in a && v1 > 0 && v1 in a && v2 > 0 && v2 in a && v3 > 0 && v3 in a
    ensures Satisfies(a, [[-v0, -v1, -v2], [-v0, -v1, -v3], [-v0, -v2, -v3], [-v1, -v2, -v3]]) <==>
              (!a[v0] || !a[v1] || !a[v2]) && (!a[v0] || !a[v1] || !a[v3]) &&
              (!a[v0] || !a[v2] || !a[v3]) && (!a[v1] || !a[v2] || !a[v3])
  {
    Lit(a, v0); Lit(a, v1); Lit(a, v2); Lit(a, v3);
    Clause3(a, -v0, -v1, -v2);
    Clause3(a, -v0, -v1, -v3);
    Clause3(a, -v0, -v2, -v3);
    Clause3(a, -v1, -v2, -v3);
  }

  /** The four 4-clauses of the 4-ary template each forbid one variable
      being the only true one. */
  lemma NotExactlyOneOfFour(a: Assignment, v0: int, v1: int, v2: int, v3: int)
    requires v0 > 0 && v0 in a && v1 > 0 && v1 in a && v2 > 0 && v2 in a && v3 > 0 && v3 in a
    ensures Satisfies(a, [[v0, v1, v2, -v3], [v0, v1, -v2, v3], [v0, -v1, v2, v3], [-v0, v1, v2, v3]]) <==>
              (a[v0] || a[v1] || a[v2] || !a[v3]) && (a[v0] || a[v1] || !a[v2] || a[v3]) &&
              (a[v0] || !a[v1] || a[v2] || a[v3]) && (!a[v0] || a[v1] || a[v2] || a[v3])
  {
    Lit(a, v0); Lit(a, v1); Lit(a, v2); Lit(a, v3);
    Clause4(a, v0, v1, v2, -v3);
    Clause4(a, v0, v1, -v2, v3);
    Clause4(a, v0, -v1, v2, v3);
    Clause4(a, -v0, v1, v2, v3);
  }

  /** The eight forbidden patterns of four bits are exactly the counts 1, 3 and 4. */
  lemma ZeroOrTwoBits(b0: bool, b1: bool, b2: bool, b3: bool)
    ensures (var n := Bit(b0) + Bit(b1) + Bit(b2) + Bit(b3);
             (n == 0 || n == 2) <==>
             (!b0 || !b1 || !b2) && (!b0 || !b1 || !b3) && (!b0 || !b2 || !b3) && (!b1 || !b2 || !b3) &&
             (b0 || b1 || b2 || !b3) && (b0 || b1 || !b2 || b3) && (b0 || !b1 || b2 || b3) && (!b0 || b1 || b2 || b3))
  {
  }

  /** Under cvar, the two variables have the same value. */
  function MakeConditionalEqual(cvar: int, var1: int, var2: int): (cs: seq<Clause>)
    ensures |cs| == 2
    ensures forall i :: 0 <= i < 2 ==> |cs[i]| == 3 && cs[i][0] == -cvar
  {
    [[-cvar, -var1,  var2],
     [-cvar,  var1, -var2]]
  }

  lemma MakeConditionalEqualMeaning(a: Assignment, cvar: int, var1: int, var2: int)
    requires cvar > 0 && cvar in a && var1 > 0 && var1 in a && var2 > 0 && var2 in a
    ensures Satisfies(a, MakeConditionalEqual(cvar, var1, var2)) <==> !a[cvar] || a[var1] == a[var2]
  {
    var cs := MakeConditionalEqual(cvar, var1, var2);
    Lit(a, cvar); Lit(a, var1); Lit(a, var2);
    Clause3(a, -cvar, -var1, var2);
    Clause3(a, -cvar, var1, -var2);
    assert Satisfies(a, cs) <==>
      (!a[cvar] || !a[var1] || a[var2]) && (!a[cvar] || a[var1] || !a[var2]);
  }
}
