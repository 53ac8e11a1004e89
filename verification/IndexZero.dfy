/** Why closedness is needed for the register at table position 0: a source program whose phis, placed at the plain
    frontier only, lose an assignment. */
module IndexZero {
  import opened Graphs
  import opened Postorders
  import opened Dominators
  import opened Frontiers
  import opened IR
  import opened SsaSpec
  import opened SsaMeaning
  import opened PhiPlacement
  import opened SsaConversion
  import L = Lowering
  import opened LoweredGraph
  import opened LoweringMeaning
  import opened SourceMeaning
  import opened Renumbering
  import opened Pipeline

  const INNER: seq<L.Stmt> := [L.If(L.Number(1), [L.Set("x", L.Number(1))])]

  /** x = 0; if (1) { if (1) { x = 1; } } x = x + 0; return; */
  const TREE: seq<L.Stmt> := [L.Declare("x", L.Number(0)), L.If(L.Number(1), INNER),
                              L.Set("x", L.BinaryExp(Add, L.Variable("x"), L.Number(0))), L.ReturnStmt]

  /** Its code over depth-first numbers.
      4: r0 := 0, to 3 or 0;  3: to 2 or 1;  2: r0 := 1, to 1;  1: to 0;  0: t := r0 + 0, r0 := t */
  const CODE: Code := [
    [Load(0), Binary(Add, Result(0, 0), Const(0)), Assign(0, Result(0, 1)), Return],
    [Jump(0)],
    [Assign(0, Const(1)), Jump(1)],
    [JumpCond(2, 1, Const(1))],
    [Assign(0, Const(0)), JumpCond(3, 0, Const(1))]]

  const GRAPH: Cfg := Cfg(4, [[], [0], [1], [2, 1], [3, 0]], [[4, 1], [3, 2], [3], [4], []])

  const DOMS: seq<nat> := [4, 3, 3, 4, 4]

  const PROBLEM: Problem := Problem(CODE, GRAPH, DOMS, [{}, {0}, {}, {}, {}])

  /** The chains of the array. */
  lemma {:induction false} Chains(a: nat)
    ensures On(DOMS, 4, a) <==> a == 4
    ensures On(DOMS, 3, a) <==> a == 3 || a == 4
    ensures On(DOMS, 2, a) <==> a == 2 || a == 3 || a == 4
    ensures On(DOMS, 1, a) <==> a == 1 || a == 3 || a == 4
    ensures On(DOMS, 0, a) <==> a == 0 || a == 4
  {
  }

  lemma {:induction false} GraphIsNumbered()
    ensures Numbered(GRAPH)
  {
  }

  lemma {:induction false} DomsAreExact()
    ensures Exact(GRAPH, DOMS)
  {
    GraphIsNumbered();
    DomsAreTree();
    DomsCover();
    DomsSettled();
    hide On, Tree, Covers, SettledAbove, Numbered;
    ExactAtExit(GRAPH, DOMS);
  }

  lemma {:induction false} DomsAreTree()
    ensures Tree(DOMS, 0)
  {
  }

  lemma {:induction false} Walks()
    ensures PathTo(GRAPH, [4], 4) && PathTo(GRAPH, [4, 3], 3) && PathTo(GRAPH, [4, 3, 2], 2)
    ensures PathTo(GRAPH, [4, 3, 1], 1) && PathTo(GRAPH, [4, 0], 0)
  {
  }

  lemma {:induction false} DomsCover()
    ensures Covers(GRAPH, DOMS, 0)
  {
    forall x: nat, d: nat | x < 5 && Dominates(GRAPH, d, x)
      ensures On(DOMS, x, d)
    {
      Walks();
      Chains(d);
      hide On;
      assert d in (if x == 4 then [4] else if x == 3 then [4, 3] else if x == 2 then [4, 3, 2] else if x == 1 then [4, 3, 1] else [4, 0]);
    }
  }

  lemma {:induction false} DomsSettled()
    ensures SettledAbove(GRAPH, DOMS, -1)
  {
    forall i: nat, p: nat | i < 4 && p in GRAPH.pred[i]
      ensures On(DOMS, p, DOMS[i])
    {
      Chains(DOMS[i]);
      hide On;
    }
  }

  lemma {:induction false} AssignBlocks(b: nat)
    ensures AssignsReg(CODE, b, 0) <==> b == 0 || b == 2 || b == 4
  {
    assert CODE[4][0].Assign? && CODE[2][0].Assign? && CODE[0][2].Assign?;
  }

  /** Exactly block 1 is in the plain frontier of the blocks that assign the register. */
  lemma {:induction false} PlainFrontier(b: nat)
    ensures InAssignFrontier(CODE, GRAPH, 0, b) <==> b == 1
  {
    GraphIsNumbered();
    DomsAreExact();
    forall x: nat
      ensures AssignsReg(CODE, x, 0) <==> x == 0 || x == 2 || x == 4
    {
      AssignBlocks(x);
    }
    Chains(0);
    Chains(2);
    Chains(4);
    if b < 5 {
      PassesIsFrontier(GRAPH, DOMS, b, 0);
      PassesIsFrontier(GRAPH, DOMS, b, 2);
      PassesIsFrontier(GRAPH, DOMS, b, 4);
      assert b == 1 ==> 2 in GRAPH.pred[1] && Passes(DOMS, 2, 1, 2);
    }
  }

  lemma {:induction false} PhisAreFixed(p: Problem, vars: seq<RegInfo>, b: nat)
    requires p.code == CODE && p.g == GRAPH && PhisPlaced(p, vars) && b < 5 == |p.phi|
    ensures p.phi[b] == PROBLEM.phi[b]
  {
    hide PhisPlaced, InAssignFrontier;
    PlainFrontier(b);
    assert CODE[0][0].IsLoadAssign();
    assert MentionsAny(CODE);
    OnlyZero();
    forall r: nat
      ensures r in p.phi[b] <==> r in PROBLEM.phi[b]
    {
      OnlyRegister(p, vars, b, r);
    }
  }

  lemma {:induction false} OnlyZero()
    ensures forall x, k :: 0 <= x < |CODE| && 0 <= k < |CODE[x]| && CODE[x][k].IsLoadAssign() ==> CODE[x][k].reg == 0
  {
  }

  lemma {:induction false} Sizes(p: Problem, vars: seq<RegInfo>)
    requires Ready(p) && PhisPlaced(p, vars)
    ensures Exact(p.g, p.doms) && |p.phi| == |p.code|
  {
  }

  /** Conversion has no choice on this code. */
  lemma {:induction false} ProblemIsFixed(p: Problem, vars: seq<RegInfo>)
    requires p.code == CODE && p.g == GRAPH && Ready(p) && PhisPlaced(p, vars)
    ensures p == PROBLEM
  {
    hide Ready, PhisPlaced, Exact;
    Sizes(p, vars);
    DomsAreExact();
    ExactIsUnique(GRAPH, p.doms, DOMS);
    forall b: nat | b < 5
      ensures p.phi[b] == PROBLEM.phi[b]
    {
      PhisAreFixed(p, vars, b);
    }
    assert p.phi == PROBLEM.phi;
  }

  /** In the converted program the load in block 0 has become the constant of block 4. */
  lemma {:induction false} LoadBecomesZero(c: SsaCode)
    requires Shape(PROBLEM) && IsConverted(PROBLEM, c)
    ensures |c.slots| == 5 && |c.slots[0]| == 4 && c.slots[0][0].linked == false && c.slots[0][2].linked == false
    ensures c.slots[0][1] == Slot(true, Binary(Add, Const(0), Const(0))) && c.slots[0][3] == Slot(true, Return)
    ensures |c.slots[4]| == 2 && !c.slots[4][0].linked && c.slots[4][1] == Slot(true, JumpCond(3, 0, Const(1)))
    ensures c.slots[3] == [Slot(true, JumpCond(2, 1, Const(1)))]
    ensures |c.slots[2]| == 2 && !c.slots[2][0].linked && c.slots[2][1] == Slot(true, Jump(1))
    ensures c.slots[1] == [Slot(true, Jump(0))]
    ensures |c.phis| == 5
  {
    var d :| IsRenamed(PROBLEM, d) && IsPruned(d, c);
    assert SlotsOf(PROBLEM, 0, d.slots[0]) && SlotsOf(PROBLEM, 1, d.slots[1]) && SlotsOf(PROBLEM, 2, d.slots[2]);
    assert SlotsOf(PROBLEM, 3, d.slots[3]) && SlotsOf(PROBLEM, 4, d.slots[4]);
    assert Reach(PROBLEM, 4, 1, 0) == Some(Const(0));
    assert Reach(PROBLEM, 4, 2, 0) == Some(Const(0));
    assert Reach(PROBLEM, 0, 0, 0) == Some(Const(0));
  }

  lemma {:induction false} OriginalRun()
    ensures var a := Run(Plus(), CODE, At(4, State(map[], map[])), 5);
      a.Stopped? && Eval(Result(0, 1), a.st.vals) == 1
  {
    var ops, s := Plus(), At(4, State(map[], map[]));
    var s0 := State(map[0 := 0], map[]);
    assert ExecFirst(ops, CODE[4], 4, 1, s.st) == s0;
    assert ExecFirst(ops, CODE[4], 4, 2, s.st) == s0;
    assert Run(ops, CODE, s, 1) == At(3, s0);
    assert ExecFirst(ops, CODE[3], 3, 1, s0) == s0;
    assert Run(ops, CODE, s, 2) == At(2, s0);
    var s1 := State(map[0 := 1], map[]);
    assert ExecFirst(ops, CODE[2], 2, 1, s0) == s1;
    assert ExecFirst(ops, CODE[2], 2, 2, s0) == s1;
    assert Run(ops, CODE, s, 3) == At(1, s1);
    assert ExecFirst(ops, CODE[1], 1, 1, s1) == s1;
    assert Run(ops, CODE, s, 4) == At(0, s1);
    var s2 := ExecFirst(ops, CODE[0], 0, 1, s1);
    assert s2 == State(map[0 := 1], map[Result(0, 0) := 1]);
    var s3 := ExecFirst(ops, CODE[0], 0, 2, s1);
    assert s3.vals[Result(0, 1)] == 1;
    var s4 := ExecFirst(ops, CODE[0], 0, 3, s1);
    assert s4.vals == s3.vals;
    assert ExecFirst(ops, CODE[0], 0, 4, s1) == s4;
    assert Run(ops, CODE, s, 5) == Stopped(s4);
  }

  lemma {:induction false} ConvertedRun(c: SsaCode)
    requires Shape(PROBLEM) && IsConverted(PROBLEM, c)
    ensures var a := SsaRun(Plus(), c, SsaAt(4, map[]), 5);
      a.SsaStopped? && Eval(Result(0, 1), a.vals) == 0
  {
    ReachesBlockZero(c);
    LastBlock(c, SsaRun(Plus(), c, SsaAt(4, map[]), 4).vals);
  }

  lemma {:induction false} LastBlock(c: SsaCode, vals: map<Value, int>)
    requires Shape(PROBLEM) && IsConverted(PROBLEM, c)
    ensures var a := SsaStepBlock(Plus(), c, SsaAt(0, vals));
      a.SsaStopped? && Eval(Result(0, 1), a.vals) == 0
  {
    LoadBecomesZero(c);
    hide IsConverted, Shape;
    assert ExecSlots(Plus(), c.slots[0], 0, 1, vals) == vals;
    assert ExecSlots(Plus(), c.slots[0], 0, 2, vals) == vals[Result(0, 1) := 0];
    assert ExecSlots(Plus(), c.slots[0], 0, 3, vals) == vals[Result(0, 1) := 0];
    assert ExecSlots(Plus(), c.slots[0], 0, 4, vals) == vals[Result(0, 1) := 0];
  }

  lemma {:induction false} ReachesBlockZero(c: SsaCode)
    requires Shape(PROBLEM) && IsConverted(PROBLEM, c)
    ensures SsaRun(Plus(), c, SsaAt(4, map[]), 4).SsaAt? && SsaRun(Plus(), c, SsaAt(4, map[]), 4).block == 0
  {
    hide IsConverted, Shape, SsaStepBlock;
    var ops, s := Plus(), SsaAt(4, map[]);
    JumpOn(ops, c, 4, 3, map[]);
    JumpOn(ops, c, 3, 2, SsaRun(ops, c, s, 1).vals);
    JumpOn(ops, c, 2, 1, SsaRun(ops, c, s, 2).vals);
    JumpOn(ops, c, 1, 0, SsaRun(ops, c, s, 3).vals);
  }

  /** The blocks without computations pass control on. */
  lemma {:induction false} JumpOn(ops: Ops, c: SsaCode, b: nat, t: nat, vals: map<Value, int>)
    requires Shape(PROBLEM) && IsConverted(PROBLEM, c) && 1 <= b <= 4
    requires t == if b == 4 then 3 else if b == 3 then 2 else if b == 2 then 1 else 0
    ensures SsaStepBlock(ops, c, SsaAt(b, vals)).SsaAt? && SsaStepBlock(ops, c, SsaAt(b, vals)).block == t
  {
    LoadBecomesZero(c);
  }

  // ---------------------------------------------------------------- from the tree to this code

  const X: map<string, nat> := map["x" := 0]
  const A: Inst := Assign(0, Const(0))

  /** The states of the lowering, statement by statement. */
  const DECLARED: L.Ctx := L.Ctx([[A]], [[]], 0, [X], 1)
  const ENTERED: L.Ctx := L.Ctx([[A], []], [[], []], 1, [X, map[]], 1)
  const INMOST: L.Ctx := L.Ctx([[A], [], []], [[], [], []], 2, [X, map[], map[]], 1)
  const SET: L.Ctx := INMOST.(code := [[A], [], [Assign(0, Const(1))]])
  const JOINED: L.Ctx :=
    L.Ctx([[A], [JumpCond(2, 3, Const(1))], [Assign(0, Const(1)), Jump(3)], []], [[], [], [1], [1, 2]], 3, [X, map[]], 1)
  const OUTSIDE: L.Ctx :=
    L.Ctx([[A, JumpCond(1, 4, Const(1))], [JumpCond(2, 3, Const(1))], [Assign(0, Const(1)), Jump(3)], [Jump(4)], []],
          [[], [0], [1], [1, 2], [0, 3]], 4, [X], 1)

  lemma {:induction false} FindX(scopes: L.Scopes<nat>)
    requires scopes == [X] || scopes == [X, map[]] || scopes == [X, map[], map[]]
    ensures L.Find(scopes, "x", 0) == 0
  {
    assert [X, map[], map[]][..2] == [X, map[]] && [X, map[]][..1] == [X];
    assert L.Find([X], "x", 0) == 0;
    assert L.Find([X, map[]], "x", 0) == 0;
  }

  /** An instruction without targets is put at the end of the current block. */
  lemma {:induction false} EmitPlain(c: L.Ctx, inst: Inst, d: L.Ctx)
    requires c.Valid() && inst.Targets() == [] && d == c.(code := d.code) && |d.code| == |c.code|
    requires d.code[c.block] == c.code[c.block] + [inst]
    requires forall b :: 0 <= b < |c.code| && b != c.block ==> d.code[b] == c.code[b]
    ensures L.Emit(c, c.block, inst) == d
  {
    assert d.code == c.code[c.block := c.code[c.block] + [inst]];
  }

  lemma {:induction false} LowerDeclare()
    ensures L.LowerStmt(START, TREE[0]) == DECLARED
  {
    var c := L.NewReg(START, "x");
    assert c.scopes == [X];
    FindX(c.scopes);
    assert [] + [A] == [A];
    EmitPlain(c, A, DECLARED);
  }

  lemma {:induction false} LowerInner()
    ensures ENTERED.Valid() && L.LowerStmt(ENTERED, INNER[0]) == JOINED
  {
    assert L.EnterBlock(ENTERED) == INMOST;
    var set_x := [L.Set("x", L.Number(1))];
    FindX(INMOST.scopes);
    assert [] + [Assign(0, Const(1))] == [Assign(0, Const(1))];
    EmitPlain(INMOST, Assign(0, Const(1)), SET);
    assert L.LowerStmt(INMOST, set_x[0]) == SET;
    assert set_x[1..] == [];
    assert L.LowerStmts(INMOST, set_x) == L.LowerStmts(SET, []) == SET;
    assert SET.scopes[..2] == ENTERED.scopes;
    var c := L.LeaveBlock(ENTERED, SET);
    assert L.LowerBlock(ENTERED, set_x) == (c, 2, 2);
    EmitJumps(c, 2, 2, Const(1));
    SameCtx(L.IfTail(c, 2, 2, Const(1)), JOINED);
  }

  /** What the end of an if appends. */
  lemma {:induction false} EmitJumps(c: L.Ctx, first: nat, last: nat, v: Value)
    requires c.Valid() && first < |c.code| && last < |c.code|
    ensures var r := L.IfTail(c, first, last, v); var n := |c.code|;
      var code := (c.code + [[]])[c.block := c.code[c.block] + [JumpCond(first, n, v)]];
      var pred := (c.pred + [[]])[first := c.pred[first] + [c.block]];
      && r.code == code[last := code[last] + [Jump(n)]] && r.pred == pred[n := [c.block, last]]
      && r.block == n && r.scopes == c.scopes && r.regCount == c.regCount
  {
    var n, pred := |c.code|, c.pred + [[]];
    var t := JumpCond(first, n, v).Targets();
    assert t == [first, n] && t[1..] == [n] && [n][1..] == [];
    var pred1 := pred[first := pred[first] + [c.block]];
    assert L.AddPreds(pred, t, c.block) == L.AddPreds(pred1, [n], c.block);
    var pred2 := pred1[n := pred1[n] + [c.block]];
    assert L.AddPreds(pred1, [n], c.block) == L.AddPreds(pred2, [], c.block) == pred2;
    assert Jump(n).Targets() == [n];
    assert L.AddPreds(pred2, [n], last) == L.AddPreds(pred2[n := pred2[n] + [last]], [], last);
    assert [] + [c.block] == [c.block] && [c.block] + [last] == [c.block, last];
  }

  const LEFT: L.Ctx := JOINED.(block := 0, scopes := [X])

  lemma {:induction false} LowerOuterBlock()
    ensures DECLARED.Valid() && L.LowerBlock(DECLARED, INNER) == (LEFT, 1, 3)
  {
    assert L.EnterBlock(DECLARED) == ENTERED;
    LowerInner();
    hide L.LowerStmt;
    assert INNER[1..] == [];
    assert L.LowerStmts(ENTERED, INNER) == L.LowerStmts(JOINED, []) == JOINED;
    assert JOINED.scopes[..1] == DECLARED.scopes;
  }

  lemma {:induction false} LeaveOuter()
    ensures LEFT.Valid() && L.IfTail(LEFT, 1, 3, Const(1)) == OUTSIDE
  {
    EmitJumps(LEFT, 1, 3, Const(1));
    SameCtx(L.IfTail(LEFT, 1, 3, Const(1)), OUTSIDE);
  }

  lemma {:induction false} LowerOuter()
    ensures DECLARED.Valid() && L.LowerStmt(DECLARED, TREE[1]) == OUTSIDE
  {
    LowerOuterBlock();
    LeaveOuter();
    hide L.LowerBlock, L.IfTail, L.LowerStmts;
  }

  lemma {:induction false} SameCtx(c: L.Ctx, d: L.Ctx)
    requires c.block == d.block && c.scopes == d.scopes && c.regCount == d.regCount
    requires |c.code| == |d.code| && forall b :: 0 <= b < |c.code| ==> c.code[b] == d.code[b]
    requires |c.pred| == |d.pred| && forall b :: 0 <= b < |c.pred| ==> c.pred[b] == d.pred[b]
    ensures c == d
  {
    assert c.code == d.code && c.pred == d.pred;
  }

  const LAST: seq<Inst> := [Load(0), Binary(Add, Result(4, 0), Const(0)), Assign(0, Result(4, 1)), Return]

  lemma {:induction false} LowerEnd()
    ensures OUTSIDE.Valid()
    ensures L.LowerStmts(OUTSIDE, TREE[2..]) == OUTSIDE.(code := OUTSIDE.code[4 := LAST])
  {
    FindX(OUTSIDE.scopes);
    var c1 := OUTSIDE.(code := OUTSIDE.code[4 := LAST[..1]]);
    assert [] + [Load(0)] == LAST[..1];
    EmitPlain(OUTSIDE, Load(0), c1);
    assert L.LowerExpr(OUTSIDE, L.Variable("x")) == (c1, Result(4, 0));
    var c2 := OUTSIDE.(code := OUTSIDE.code[4 := LAST[..2]]);
    assert LAST[..1] + [Binary(Add, Result(4, 0), Const(0))] == LAST[..2];
    EmitPlain(c1, Binary(Add, Result(4, 0), Const(0)), c2);
    assert L.LowerExpr(OUTSIDE, L.BinaryExp(Add, L.Variable("x"), L.Number(0))) == (c2, Result(4, 1));
    var c3 := OUTSIDE.(code := OUTSIDE.code[4 := LAST[..3]]);
    assert LAST[..2] + [Assign(0, Result(4, 1))] == LAST[..3];
    EmitPlain(c2, Assign(0, Result(4, 1)), c3);
    assert L.LowerStmt(OUTSIDE, TREE[2]) == c3;
    var c4 := OUTSIDE.(code := OUTSIDE.code[4 := LAST]);
    assert LAST[..3] + [Return] == LAST;
    EmitPlain(c3, Return, c4);
    assert L.LowerStmt(c3, TREE[3]) == c4;
    assert TREE[2..][1..] == [TREE[3]] && [TREE[3]][1..] == [];
    assert L.LowerStmts(c3, [TREE[3]]) == L.LowerStmts(c4, []) == c4;
  }

  lemma {:induction false} LowerTree()
    ensures L.LowerFunction(TREE).code == OUTSIDE.code[4 := LAST] && L.LowerFunction(TREE).pred == OUTSIDE.pred
  {
    LowerDeclare();
    LowerOuter();
    LowerEnd();
    assert TREE[1..][0] == TREE[1] && TREE[1..][1..] == TREE[2..];
    assert L.LowerStmts(START, TREE) == L.LowerStmts(DECLARED, TREE[1..]) == L.LowerStmts(OUTSIDE, TREE[2..]);
    var c, _ := BodyBuilt(TREE);
  }

  const TREE_CODE: Code := OUTSIDE.code[4 := LAST]
  const TREE_GRAPH: Cfg := Cfg(0, [[1, 4], [2, 3], [3], [4], []], OUTSIDE.pred)

  lemma {:induction false} TreeGraph()
    ensures L.CfgOf(L.LowerFunction(TREE)) == TREE_GRAPH && InRange(TREE_GRAPH)
  {
    LowerTree();
    hide L.LowerFunction;
    var g := L.CfgOf(L.LowerFunction(TREE));
    forall b: nat | b < 5
      ensures g.succ[b] == TREE_GRAPH.succ[b]
    {
    }
    assert g.succ == TREE_GRAPH.succ;
  }

  const ALL: set<nat> := {0, 1, 2, 3, 4}

  lemma {:induction false} TreeOrder()
    requires InRange(TREE_GRAPH)
    ensures DepthFirst(TREE_GRAPH) == [4, 3, 2, 1, 0]
  {
    var g := TREE_GRAPH;
    FromTwo();
    assert DfsFrom(g, Dfs(ALL, [4, 3, 2]), 3) == Dfs(ALL, [4, 3, 2]);
    assert DfsSuccs(g, Dfs(ALL, [4, 3, 2]), 1, 1) == DfsSuccs(g, Dfs(ALL, [4, 3, 2]), 1, 2) == Dfs(ALL, [4, 3, 2]);
    assert {0} + {1} == {0, 1};
    assert DfsSuccs(g, Dfs({0, 1}, []), 1, 0) == Dfs(ALL, [4, 3, 2]);
    assert [4, 3, 2] + [1] == [4, 3, 2, 1];
    assert DfsFrom(g, Dfs({0}, []), 1) == Dfs(ALL, [4, 3, 2, 1]);
    assert DfsFrom(g, Dfs(ALL, [4, 3, 2, 1]), 4) == Dfs(ALL, [4, 3, 2, 1]);
    assert DfsSuccs(g, Dfs(ALL, [4, 3, 2, 1]), 0, 1) == DfsSuccs(g, Dfs(ALL, [4, 3, 2, 1]), 0, 2) == Dfs(ALL, [4, 3, 2, 1]);
    assert {} + {0} == {0};
    assert DfsSuccs(g, Dfs({0}, []), 0, 0) == Dfs(ALL, [4, 3, 2, 1]);
    assert [4, 3, 2, 1] + [0] == [4, 3, 2, 1, 0];
  }

  lemma {:induction false} FromTwo()
    requires InRange(TREE_GRAPH)
    ensures DfsFrom(TREE_GRAPH, Dfs({0, 1}, []), 2) == Dfs(ALL, [4, 3, 2])
  {
    var g := TREE_GRAPH;
    assert {0, 1, 2, 3} + {4} == ALL && {0, 1, 2} + {3} == {0, 1, 2, 3} && {0, 1} + {2} == {0, 1, 2};
    assert [] + [4] == [4] && [4] + [3] == [4, 3] && [4, 3] + [2] == [4, 3, 2];
    assert DfsSuccs(g, Dfs(ALL, []), 4, 0) == Dfs(ALL, []);
    assert DfsFrom(g, Dfs({0, 1, 2, 3}, []), 4) == Dfs(ALL, [4]);
    assert DfsSuccs(g, Dfs(ALL, [4]), 3, 1) == Dfs(ALL, [4]);
    assert DfsSuccs(g, Dfs({0, 1, 2, 3}, []), 3, 0) == Dfs(ALL, [4]);
    assert DfsFrom(g, Dfs({0, 1, 2}, []), 3) == Dfs(ALL, [4, 3]);
    assert DfsSuccs(g, Dfs(ALL, [4, 3]), 2, 1) == Dfs(ALL, [4, 3]);
    assert DfsSuccs(g, Dfs({0, 1, 2}, []), 2, 0) == Dfs(ALL, [4, 3]);
  }

  ghost predicate TreeNumbers(number: map<nat, nat>) {
    && 0 in number && 1 in number && 2 in number && 3 in number && 4 in number
    && number[0] == 4 && number[1] == 3 && number[2] == 2 && number[3] == 1 && number[4] == 0
  }

  lemma {:induction false} NumbersOfTree(order: seq<nat>, number: map<nat, nat>)
    requires IsNumbering(TREE_GRAPH, order, number) && order == [4, 3, 2, 1, 0]
    ensures TreeNumbers(number)
  {
    assert number[order[0]] == 0 && number[order[1]] == 1 && number[order[2]] == 2 && number[order[3]] == 3;
    assert number[order[4]] == 4;
  }

  lemma {:induction false} BlockNumbered(number: map<nat, nat>, b: nat)
    requires TreeNumbers(number) && b < 5
    ensures MapInsts(number, TREE_CODE[b]) == CODE[4 - b]
  {
  }

  lemma {:induction false} EdgesNumbered(number: map<nat, nat>, b: nat)
    requires TreeNumbers(number) && b < 5
    ensures MapNumbers(number, TREE_GRAPH.succ[b]) == GRAPH.succ[4 - b]
    ensures MapNumbers(number, TREE_GRAPH.pred[b]) == GRAPH.pred[4 - b]
  {
  }

  lemma {:induction false} TreeNumbered(order: seq<nat>, number: map<nat, nat>)
    requires Renumberable(TREE_GRAPH, order, number) && order == [4, 3, 2, 1, 0]
    ensures RenumberCode(TREE_CODE, order, number) == CODE && Renumber(TREE_GRAPH, order, number) == GRAPH
    ensures 4 in number && number[4] == 0
  {
    NumbersOfTree(order, number);
    CodeNumbered(order, number);
    GraphNumbered(order, number);
  }

  lemma {:induction false} CodeNumbered(order: seq<nat>, number: map<nat, nat>)
    requires order == [4, 3, 2, 1, 0] && TreeNumbers(number)
    ensures RenumberCode(TREE_CODE, order, number) == CODE
  {
    hide MapInsts;
    var code := RenumberCode(TREE_CODE, order, number);
    forall i: nat | i < 5
      ensures code[i] == CODE[i]
    {
      assert order[i] == 4 - i;
      BlockNumbered(number, order[i]);
    }
  }

  lemma {:induction false} GraphNumbered(order: seq<nat>, number: map<nat, nat>)
    requires Renumberable(TREE_GRAPH, order, number) && order == [4, 3, 2, 1, 0] && TreeNumbers(number)
    ensures Renumber(TREE_GRAPH, order, number) == GRAPH
  {
    hide IsNumbering, WellConnected, MapNumbers;
    var h := Renumber(TREE_GRAPH, order, number);
    forall i: nat | i < 5
      ensures h.succ[i] == GRAPH.succ[i] && h.pred[i] == GRAPH.pred[i]
    {
      assert order[i] == 4 - i;
      EdgesNumbered(number, order[i]);
    }
    assert h.succ == GRAPH.succ && h.pred == GRAPH.pred;
  }

  // ---------------------------------------------------------------- what is lost

  lemma {:induction false} TreeIsGood()
    ensures GoodBody(TREE)
  {
    var names: L.Names := [{"x"}];
    var none: L.Names := [{}];
    var empty: set<string> := {};
    assert none[0] == empty && empty + {"x"} == {"x"};
    assert none[..0] + [none[0] + {"x"}] == names;
    assert L.AddName(none, "x") == names;
    var n1: L.Names := names + [{}];
    var n2: L.Names := n1 + [{}];
    assert "x" in names[0] && "x" in n2[0];
    assert L.Knows(names, "x") && L.Knows(n2, "x");
    var set_x := [L.Set("x", L.Number(1))];
    assert set_x[1..] == [] && L.AllScoped([], n2) && INNER[1..] == [] && L.AllScoped([], n1);
    assert L.AllScoped(set_x, n2);
    assert L.AllScoped(INNER, n1);
    assert TREE[1..][0] == TREE[1] && TREE[1..][1..] == TREE[2..] && TREE[2..][0] == TREE[2] && TREE[2..][1..] == TREE[3..];
    assert TREE[3..] == [L.ReturnStmt] && [L.ReturnStmt][1..] == [];
    assert L.AllScoped(TREE[3..], names) && L.AllScoped(TREE[2..], names) && L.AllScoped(TREE[1..], names);
    assert L.NoSelfInits(set_x) && L.NoSelfInits(INNER);
    assert L.NoSelfInits(TREE[3..]) && L.NoSelfInits(TREE[2..]) && L.NoSelfInits(TREE[1..]);
    assert L.ProperStmts(set_x) && L.ProperStmts(INNER);
    assert L.Proper(TREE[3..]) && L.Proper(TREE[2..]) && L.Proper(TREE[1..]);
  }

  const ZERO: Env := [map["x" := 0]]
  const ONE: Env := [map["x" := 1]]

  lemma {:induction false} StoreOne(n: nat)
    requires n <= 2
    ensures var inner: Env := seq(n, _ => map[]); Store(ZERO + inner, "x", 1) == ONE + inner
    decreases n
  {
    var inner: Env := seq(n, _ => map[]);
    if n == 0 {
      assert ZERO + inner == ZERO && ONE + inner == ONE;
      assert ZERO[0]["x" := 1] == ONE[0];
      assert Store(ZERO, "x", 1) == ZERO[..0] + [ONE[0]];
    } else {
      StoreOne(n - 1);
      var less: Env := seq(n - 1, _ => map[]);
      assert (ZERO + inner)[..n] == ZERO + less && (ONE + less) + [map[]] == ONE + inner;
    }
  }

  /** The two ifs set x to 1. */
  lemma {:induction false} IfsSetX()
    ensures Exec(Plus(), TREE[1], ZERO, 0) == Done(ONE)
  {
    var ops := Plus();
    var m: map<string, int> := map[];
    var set_x := [L.Set("x", L.Number(1))];
    assert set_x[1..] == [] && INNER[1..] == [];
    StoreOne(2);
    assert seq(2, _ => m) == [m, m];
    assert Exec(ops, set_x[0], ZERO + [m, m], 0) == Done(ONE + [m, m]);
    assert ExecAll(ops, set_x, ZERO + [m, m], 0) == ExecAll(ops, [], ONE + [m, m], 0) == Done(ONE + [m, m]);
    assert ZERO + [m] + [m] == ZERO + [m, m] && (ONE + [m, m])[..2] == ONE + [m];
    assert Exec(ops, INNER[0], ZERO + [m], 0) == Done(ONE + [m]);
    assert ExecAll(ops, INNER, ZERO + [m], 0) == ExecAll(ops, [], ONE + [m], 0) == Done(ONE + [m]);
    assert (ONE + [m])[..1] == ONE;
  }

  lemma {:induction false} EndKeepsX()
    ensures ExecAll(Plus(), TREE[2..], ONE, 0) == Returned(ONE)
  {
    assert TREE[2..][1..] == [L.ReturnStmt];
    assert L.Find(ONE, "x", 0) == 1;
    assert ONE[0]["x" := 1] == ONE[0];
    assert Store(ONE, "x", 1) == ONE[..0] + [ONE[0]] == ONE;
    assert Exec(Plus(), TREE[2], ONE, 0) == Done(ONE);
    assert ExecAll(Plus(), [L.ReturnStmt], ONE, 0) == Returned(ONE);
  }

  /** What the source computes. */
  lemma {:induction false} TreeResult()
    ensures RunSource(Plus(), TREE, 0) == Returned([map["x" := 1]])
  {
    var m: map<string, int> := map[];
    assert [m][..0] + [m["x" := 0]] == ZERO;
    assert Exec(Plus(), TREE[0], [m], 0) == Done(ZERO);
    IfsSetX();
    EndKeepsX();
    hide Exec;
    assert TREE[1..][0] == TREE[1] && TREE[1..][1..] == TREE[2..];
    assert ExecAll(Plus(), TREE[1..], ZERO, 0) == Returned(ONE);
  }

  /** Whatever the passes make of this tree is wrong: its last instruction that computes a value yields 1 in the source
      and in the lowered code, and 0 in the SSA program. So the frontier for x is not closed where x is live. */
  lemma {:induction false} MeaningIsLost(order: seq<nat>, number: map<nat, nat>, p: Problem, c: SsaCode)
    requires Compiled(TREE, order, number, p, c)
    ensures GoodBody(TREE)
    ensures RunSource(Plus(), TREE, 0) == Returned([map["x" := 1]])
    ensures var a := Lowered(Plus(), TREE, map[], 5); a.Stopped? && Eval(Result(4, 1), a.st.vals) == 1
    ensures var x := Converted(Plus(), p, c, 5); 4 in number && x.SsaStopped? && Eval(Result(number[4], 1), x.vals) == 0
    ensures !FirstVariableClosed(TREE, {})
  {
    hide *;
    TreeIsGood();
    TreeResult();
    ProgramOfTree(order, number, p, c);
    OriginalRun();
    ConvertedRun(c);
    LoweredRun(order, number, p, c);
    ConvertedIs(p, c);
    if FirstVariableClosed(TREE, {}) {
      ConvertedInStep(Plus(), TREE, {}, order, number, p, c, map[], 5);
      NotInStep(number, Lowered(Plus(), TREE, map[], 5), Converted(Plus(), p, c, 5));
    }
  }

  lemma {:induction false} ProgramOfTree(order: seq<nat>, number: map<nat, nat>, p: Problem, c: SsaCode)
    requires Compiled(TREE, order, number, p, c)
    ensures p == PROBLEM && Shape(p) && IsConverted(p, c) && 4 in number && number[4] == 0
    ensures L.LowerFunction(TREE).code == TREE_CODE
  {
    hide L.LowerFunction, IsConverted, DepthFirst, LoadsDominated, WellFormed, Exact, GoodBody, IsNumbering, WellConnected;
    hide RenumberCode, Renumber, PhisPlaced, L.CfgOf;
    LowerTree();
    TreeGraph();
    TreeOrder();
    TreeNumbered(order, number);
    var vars :| PhisPlaced(p, vars);
    ProblemIsFixed(p, vars);
  }

  lemma {:induction false} LoweredRun(order: seq<nat>, number: map<nat, nat>, p: Problem, c: SsaCode)
    requires Compiled(TREE, order, number, p, c) && p == PROBLEM && 4 in number && number[4] == 0
    requires var a := Run(Plus(), CODE, At(4, State(map[], map[])), 5); a.Stopped? && Eval(Result(0, 1), a.st.vals) == 1
    ensures var a := Lowered(Plus(), TREE, map[], 5); a.Stopped? && Eval(Result(4, 1), a.st.vals) == 1
  {
    hide L.LowerFunction, L.CfgOf, Run, Numbers, IsConverted, GoodBody, Renumber, RenumberCode, DepthFirst, Eval, Plus;
    var g := L.CfgOf(L.LowerFunction(TREE));
    CompiledNumbers(TREE, order, number, p, c);
    RunMapped(Plus(), L.LowerFunction(TREE).code, g, order, number, map[], 5);
    LoweredIs(Plus(), TREE, map[], 5);
    assert g.entry == 0 by { TreeGraph(); }
    var a, a' := Lowered(Plus(), TREE, map[], 5), Run(Plus(), CODE, At(4, State(map[], map[])), 5);
    assert SameRun(number, a, a');
    assert Eval(Result(number[4], 1), a'.st.vals) == Eval(Result(4, 1), a.st.vals);
  }

  lemma {:induction false} ConvertedIs(p: Problem, c: SsaCode)
    requires p == PROBLEM
    ensures Converted(Plus(), p, c, 5) == SsaRun(Plus(), c, SsaAt(4, map[]), 5)
  {
  }

  lemma {:induction false} NotInStep(number: map<nat, nat>, a: Config, x: SsaConfig)
    requires InStep(L.LowerFunction(TREE).code, number, a, x) && L.LowerFunction(TREE).code == TREE_CODE && 4 in number
    ensures a.Stopped? ==> Eval(Result(number[4], 1), x.vals) == Eval(Result(4, 1), a.st.vals)
  {
    hide L.LowerFunction;
    assert TREE_CODE[4][1].Binary?;
  }
}
