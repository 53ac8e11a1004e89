/** Code on which SSA conversion gives up although every load is preceded by an assign on every path: the phis of the
    register at table position 0 stop at the plain frontier, so a load behind two joins finds nothing. */
module EmptyStack {
  import opened Graphs
  import opened Frontiers
  import opened IR
  import opened SsaSpec
  import opened PhiPlacement
  import opened SsaConversion

  // 5: to 4 or 3;  4: r0 := 0, to 2 or 1;  3: r0 := 1, to 2 or 1;  2: to 0;  1: to 0;  0: t := r0
  const CODE: Code := [
    [Load(0), Return],
    [Jump(0)],
    [Jump(0)],
    [Assign(0, Const(1)), JumpCond(2, 1, Const(1))],
    [Assign(0, Const(0)), JumpCond(2, 1, Const(1))],
    [JumpCond(4, 3, Const(1))]]

  const GRAPH: Cfg := Cfg(5, [[], [0], [0], [2, 1], [2, 1], [4, 3]], [[2, 1], [4, 3], [4, 3], [5], [5], []])

  lemma {:induction false} GraphInRange()
    ensures InRange(GRAPH)
  {
  }

  lemma {:induction false} GraphAgrees(b: nat)
    requires b < 6 && InRange(GRAPH)
    ensures Agrees(GRAPH, b)
  {
  }

  lemma {:induction false} GraphIsNumbered()
    ensures Numbered(GRAPH)
  {
    GraphInRange();
    forall b: nat | b < 6
      ensures Agrees(GRAPH, b)
    {
      GraphAgrees(b);
    }
    hide Agrees, InRange;
  }

  lemma {:induction false} OnlyConstants(b: nat, k: nat, v: Value)
    requires b < 6 && k < |CODE[b]| && CODE[b][k].Uses(v)
    ensures v.Const?
  {
  }

  lemma {:induction false} EdgesOfCode(b: nat)
    requires b < 6
    ensures GRAPH.succ[b] == Successors(CODE[b])
  {
  }

  lemma {:induction false} JumpsAreLast()
    ensures forall b, k :: 0 <= b < |CODE| && 0 <= k < |CODE[b]| - 1 ==> !CODE[b][k].IsTerminator()
  {
  }

  lemma {:induction false} CodeIsWellFormed()
    ensures WellFormed(CODE, GRAPH)
  {
    GraphIsNumbered();
    forall b, k, v | 0 <= b < |CODE| && 0 <= k < |CODE[b]| && CODE[b][k].Uses(v)
      ensures DefinedBefore(CODE, GRAPH, v, b, k)
    {
      OnlyConstants(b, k, v);
    }
    JumpsAreLast();
    hide Numbered, DefinedBefore, Inst.Uses, Inst.IsTerminator;
    forall b | 0 <= b < |CODE|
      ensures GRAPH.succ[b] == Successors(CODE[b])
    {
      EdgesOfCode(b);
    }
    hide Successors;
  }

  lemma {:induction false} Walks()
    ensures PathTo(GRAPH, [5, 4, 2, 0], 0) && PathTo(GRAPH, [5, 3, 1, 0], 0)
    ensures PathTo(GRAPH, [5, 3, 2], 2) && PathTo(GRAPH, [5, 4, 2], 2)
    ensures PathTo(GRAPH, [5, 3, 1], 1) && PathTo(GRAPH, [5, 4, 1], 1)
  {
  }

  lemma {:induction false} AssignBlocks(b: nat)
    ensures AssignsReg(CODE, b, 0) <==> b == 3 || b == 4
  {
    assert CODE[3][0].Assign? && CODE[4][0].Assign?;
  }

  /** On every walk to the load the last block but two assigns the register. */
  lemma {:induction false} LoadIsCovered()
    ensures LoadsCovered(CODE, GRAPH)
  {
    forall b, k, p | 0 <= b < |CODE| && 0 <= k < |CODE[b]| && CODE[b][k].Load? && PathTo(GRAPH, p, b)
      ensures AssignedOn(CODE, p, k, CODE[b][k].reg)
    {
      assert b == 0 && |p| > 1 && p[|p|-1] in GRAPH.succ[p[|p|-2]];
      assert |p| > 2 && p[|p|-2] in GRAPH.succ[p[|p|-3]];
      AssignBlocks(p[|p|-3]);
    }
  }

  /** Neither the load's block nor the entry is in the plain frontier of the assigning blocks. */
  lemma {:induction false} NoFrontier(b: nat)
    requires b == 0 || b == 5
    ensures !InAssignFrontier(CODE, GRAPH, 0, b)
  {
    if x: nat :| AssignsReg(CODE, x, 0) && InFrontier(GRAPH, x, b) {
      AssignBlocks(x);
      Walks();
    }
  }

  /** So for all that conversion may rely on, the load has no nearest definition: there is no result. */
  lemma {:induction false} LoadFindsNothing(p: Problem, vars: seq<RegInfo>)
    requires p.code == CODE && p.g == GRAPH && Ready(p) && PhisPlaced(p, vars)
    ensures WellFormed(CODE, GRAPH) && LoadsCovered(CODE, GRAPH) && !LoadsReach(p)
  {
    CodeIsWellFormed();
    LoadIsCovered();
    NothingAtLoad(p, vars);
    ReachIffDefined(p, 0, 0, 0);
    assert CODE[0][0].Load?;
    assert !BlockReaches(p, 0, |CODE[0]|);
  }

  lemma {:induction false} NothingAtLoad(p: Problem, vars: seq<RegInfo>)
    requires p.code == CODE && p.g == GRAPH && Ready(p) && PhisPlaced(p, vars)
    ensures !DefinedAt(p, 0, 0, 0)
  {
    NoFrontier(0);
    NoFrontier(5);
    OnlyRegister(p, vars, 0, 0);
    OnlyRegister(p, vars, 5, 0);
    forall x: nat | StrictlyDominates(GRAPH, x, 0)
      ensures x == 5
    {
      Walks();
      assert x in [5, 4, 2, 0] && x in [5, 3, 1, 0];
    }
    AssignBlocks(5);
  }
}
