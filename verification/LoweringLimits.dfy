/** What becomes of an if or a while inside the body of a while: the jump back is appended to the first block of
    the body, so everything that the body puts into later blocks is never executed. This is why the meaning of
    lowered code is claimed for straight bodies only. */
module LoweringLimits {
  import opened Graphs
  import opened IR
  import opened Lowering
  import opened LoweringShape
  import opened LoweringSteps
  import opened LoweredGraph
  import opened SourceMeaning
  import opened LoweringMeaning

  lemma {:induction false} LowerConcat(c: Ctx, a: seq<Stmt>, b: seq<Stmt>)
    requires c.Valid() && c.scopes != []
    ensures LowerStmts(c, a + b) == LowerStmts(LowerStmts(c, a), b)
    decreases a
  {
    if a == [] {
      assert a + b == b;
    } else {
      assert (a + b)[0] == a[0] && (a + b)[1..] == a[1..] + b;
      LowerConcat(LowerStmt(c, a[0]), a[1..], b);
    }
  }

  /** The state in front of a while, and the state in which its body ends. */
  function BeforeLoop(pre: seq<Stmt>): (c: Ctx)
    ensures c.Valid() && c.scopes != []
  {
    LowerStmts(START, pre)
  }

  function BodyEnd(pre: seq<Stmt>, body: seq<Stmt>): Ctx {
    LowerStmts(EnterBlock(WhileHead(BeforeLoop(pre))), body)
  }

  /** No walk from the entry meets a block that the body of a while created beyond its first one. */
  lemma {:induction false} NestedBlocksAreUnreachable(pre: seq<Stmt>, cond: Expr, body: seq<Stmt>, post: seq<Stmt>, b: nat)
    requires |BeforeLoop(pre).code| + 2 <= b < |BodyEnd(pre, body).code|
    ensures !Reachable(CfgOf(LowerFunction(pre + [While(cond, body)] + post)), b)
  {
    hide Built, LowerStmt, LowerStmts, LowerFunction, CfgOf;
    var c, inner := BeforeLoop(pre), BodyEnd(pre, body);
    var d1 := StmtsBuilt(START, pre);
    StmtsReady(START, pre);
    HeadReady(c);
    var d := StmtsBuilt(EnterBlock(WhileHead(c)), body);
    WhileStmtBuilt(c, cond, body, d);
    var r := LowerStmt(c, While(cond, body));
    StmtReady(c, While(cond, body));
    BuiltTrans(START, c, r, d1, BodyBlocks(c, inner));
    var d3 := StmtsBuilt(r, post);
    BuiltTrans(START, r, LowerStmts(r, post), d1 + BodyBlocks(c, inner), d3);
    Concats(pre, While(cond, body), post);
    var f, _ := BodyBuilt(pre + [While(cond, body)] + post);
    assert b in d1 + BodyBlocks(c, inner) + d3;
    if Reachable(CfgOf(f), b) {
      var p :| PathTo(CfgOf(f), p, b);
      WalksAreAlive(f, d1 + BodyBlocks(c, inner) + d3, p, b);
    }
  }

  lemma {:induction false} HeadReady(c: Ctx)
    requires CanLower(c)
    ensures CanLower(EnterBlock(WhileHead(c)))
  {
  }

  lemma {:induction false} Concats(pre: seq<Stmt>, s: Stmt, post: seq<Stmt>)
    ensures LowerStmts(START, pre + [s] + post) == LowerStmts(LowerStmt(LowerStmts(START, pre), s), post)
  {
    LowerConcat(START, pre + [s], post);
    LowerConcat(START, pre, [s]);
    var c := LowerStmts(START, pre);
    assert LowerStmts(c, [s]) == LowerStmts(LowerStmt(c, s), []) && [s][1..] == [];
  }

  /** There are such blocks as soon as the body is not straight. */
  lemma {:induction false} NestedBlocksExist(c: Ctx, ss: seq<Stmt>)
    requires CanLower(c) && !Straight(ss) && !(exists i :: 0 <= i < |ss| && ss[i].ReturnStmt?)
    ensures |LowerStmts(c, ss).code| > |c.code|
    decreases ss
  {
    StmtReady(c, ss[0]);
    StmtsReady(LowerStmt(c, ss[0]), ss[1..]);
    if ss[0].Declare? || ss[0].Set? {
      assert forall i :: 0 <= i < |ss[1..]| ==> ss[1..][i] == ss[i+1];
      NestedBlocksExist(LowerStmt(c, ss[0]), ss[1..]);
    } else {
      MoreBlocks(c, ss[0]);
    }
  }

  lemma {:induction false} MoreBlocks(c: Ctx, s: Stmt)
    requires CanLower(c) && (s.If? || s.While?)
    ensures |LowerStmt(c, s).code| > |c.code|
  {
    hide LowerStmts, LowerExpr;
    match s
    case If(cond, body) =>
      var c1, v, inner, r := IfSteps(c, cond, body);
    case While(cond, body) =>
      var h, inner, k, l, v, r := WhileSteps(c, cond, body);
  }

  /** So whatever surrounds a while whose body is not straight, some block of it is lost. */
  lemma {:induction false} NestedBlockIsLost(pre: seq<Stmt>, cond: Expr, body: seq<Stmt>, post: seq<Stmt>) returns (b: nat)
    requires !Straight(body) && !(exists i :: 0 <= i < |body| && body[i].ReturnStmt?)
    ensures var f := LowerFunction(pre + [While(cond, body)] + post); b < |f.code| && !Reachable(CfgOf(f), b)
  {
    hide Local, Extends, LowerStmt, LowerStmts, LowerFunction, CfgOf, WhileResult;
    var c := BeforeLoop(pre);
    StmtsReady(START, pre);
    HeadReady(c);
    NestedBlocksExist(EnterBlock(WhileHead(c)), body);
    b := |c.code| + 2;
    NestedBlocksAreUnreachable(pre, cond, body, post, b);
    var h, inner, k, l, v, r := WhileSteps(c, cond, body);
    StmtsReady(r, post);
    Longer(inner, r);
    Longer(r, LowerStmts(r, post));
    Concats(pre, While(cond, body), post);
    var f, _ := BodyBuilt(pre + [While(cond, body)] + post);
  }

  lemma {:induction false} Longer(c: Ctx, c': Ctx)
    requires Extends(c, c')
    ensures |c.code| <= |c'.code|
  {
  }

  // ---------------------------------------------------------------- the smallest such program

  const SET_ZERO: Stmt := Set("x", Number(0))
  const IF_X: Stmt := If(Variable("x"), [SET_ZERO])
  const LOOP: Stmt := While(Variable("x"), [IF_X])

  /** x = 1; while (x) { if (x) { x = 0; } } */
  const NESTED: seq<Stmt> := [Declare("x", Number(1)), LOOP]

  const X: map<string, nat> := map["x" := 0]

  lemma {:induction false} DeclareX()
    ensures var c := LowerStmt(START, Declare("x", Number(1)));
      CanLower(c) && c.block == 0 && |c.code| == 1 && c.code[0] == [Assign(0, Const(1))] && c.scopes == [X]
  {
    var c := NewReg(START, "x");
    assert c.scopes == [X];
    assert Find(c.scopes, "x", 0) == 0;
    StmtReady(START, Declare("x", Number(1)));
    assert c.code[0] + [Assign(0, Const(1))] == [Assign(0, Const(1))];
  }

  lemma {:induction false} ReadX(c: Ctx)
    requires c.Valid() && (c.scopes == [X] || c.scopes == [X, map[]]) && End(c) == 0
    ensures LowerExpr(c, Variable("x")).0.code[c.block] == [Load(0)] && LowerExpr(c, Variable("x")).1 == Result(c.block, 0)
  {
    if c.scopes == [X, map[]] {
      assert c.scopes[..1] == [X];
    }
    assert Find([X], "x", 0) == 0;
    assert Find(c.scopes, "x", 0) == 0;
  }

  lemma {:induction false} OneStmt(c: Ctx, t: Stmt)
    requires c.Valid() && c.scopes != []
    ensures LowerStmts(c, [t]) == LowerStmt(c, t)
  {
    assert [t][1..] == [];
    assert LowerStmts(LowerStmt(c, t), []) == LowerStmt(c, t);
  }

  /** The if ends the block it starts in. */
  lemma {:induction false} InnerCode(s: Ctx) returns (b: nat, e: nat)
    requires CanLower(s) && s.scopes == [X, map[]] && End(s) == 0
    ensures s.block < |LowerStmts(s, [IF_X]).code|
    ensures LowerStmts(s, [IF_X]).code[s.block] == [Load(0), JumpCond(b, e, Result(s.block, 0))]
  {
    hide Local, LowerStmts, LowerStmt, LowerExpr, Extends;
    var s1, w, body, after := IfSteps(s, Variable("x"), [SET_ZERO]);
    ReadX(s);
    OneStmt(s, IF_X);
    b, e := |s1.code|, |body.code|;
  }

  /** The loop's two blocks: the head, and the first block of the body, which leads straight back. */
  lemma {:induction false} LoopCode(c: Ctx) returns (exit: nat, b: nat, e: nat)
    requires CanLower(c) && c.block == 0 && |c.code| == 1 && c.code[0] == [Assign(0, Const(1))] && c.scopes == [X]
    ensures var f := LowerStmt(c, LOOP).code;
      && |f| > 2 && f[0] == [Assign(0, Const(1)), Jump(1)]
      && f[1] == [Load(0), JumpCond(2, exit, Result(1, 0))]
      && f[2] == [Load(0), JumpCond(b, e, Result(2, 0)), Jump(1)]
  {
    hide Local, LowerStmts, LowerStmt, LowerExpr, Extends;
    var h, inner, k, l, v, r := WhileSteps(c, Variable("x"), [IF_X]);
    ReadX(k);
    b, e := InnerCode(EnterBlock(h));
    exit := |inner.code|;
  }

  lemma {:induction false} NestedCode() returns (exit: nat, b: nat, e: nat)
    ensures var f := LowerFunction(NESTED).code;
      && |f| > 2 && f[0] == [Assign(0, Const(1)), Jump(1)]
      && f[1] == [Load(0), JumpCond(2, exit, Result(1, 0))]
      && f[2] == [Load(0), JumpCond(b, e, Result(2, 0)), Jump(1)]
  {
    hide Local, LowerStmt, LowerExpr, Extends, LowerFunction, Built;
    DeclareX();
    var c := LowerStmt(START, Declare("x", Number(1)));
    exit, b, e := LoopCode(c);
    var f, _ := BodyBuilt(NESTED);
    assert NESTED[1..] == [LOOP];
    OneStmt(c, LOOP);
  }

  /** Wherever the run is in the loop, the variable is still 1. */
  lemma {:induction false} NestedRun(ops: Ops, st: State, n: nat)
    requires n > 0
    ensures var a := Run(ops, LowerFunction(NESTED).code, At(0, st), n);
      a.At? && (a.block == 1 || a.block == 2) && 0 in a.st.regs && a.st.regs[0] == 1
  {
    hide LowerFunction;
    var f := LowerFunction(NESTED).code;
    var exit, b, e := NestedCode();
    if n == 1 {
      assert Run(ops, f, At(0, st), 0) == At(0, st);
      TwoSteps(ops, f[0], 0, st);
    } else {
      NestedRun(ops, st, n - 1);
      var a := Run(ops, f, At(0, st), n - 1);
      if a.block == 1 {
        TwoSteps(ops, f[1], 1, a.st);
      } else {
        ThreeSteps(ops, f[2], 2, a.st);
      }
    }
  }

  lemma {:induction false} TwoSteps(ops: Ops, insts: seq<Inst>, b: nat, st: State)
    requires |insts| == 2
    ensures ExecFirst(ops, insts, b, 2, st) == ExecInst(ops, insts[1], b, 1, ExecInst(ops, insts[0], b, 0, st))
  {
    assert ExecFirst(ops, insts, b, 0, st) == st;
    assert ExecFirst(ops, insts, b, 1, st) == ExecInst(ops, insts[0], b, 0, st);
  }

  lemma {:induction false} ThreeSteps(ops: Ops, insts: seq<Inst>, b: nat, st: State)
    requires |insts| == 3
    ensures ExecFirst(ops, insts, b, 3, st)
         == ExecInst(ops, insts[2], b, 2, ExecInst(ops, insts[1], b, 1, ExecInst(ops, insts[0], b, 0, st)))
  {
    assert ExecFirst(ops, insts, b, 0, st) == st;
    assert ExecFirst(ops, insts, b, 1, st) == ExecInst(ops, insts[0], b, 0, st);
    assert ExecFirst(ops, insts, b, 2, st) == ExecInst(ops, insts[1], b, 1, ExecFirst(ops, insts, b, 1, st));
  }

  /** The source program terminates, but its lowering never stops. */
  lemma {:induction false} NestedIfIsLost(ops: Ops, st: State)
    ensures AllScoped(NESTED, [{}]) && NoSelfInits(NESTED) && !Proper(NESTED)
    ensures Terminates(ops, NESTED) && !Stops(ops, LowerFunction(NESTED).code, st)
  {
    NestedIsScoped();
    NestedTerminates(ops);
    forall n: nat
      ensures Run(ops, LowerFunction(NESTED).code, At(0, st), n).At?
    {
      if n > 0 {
        NestedRun(ops, st, n);
      }
    }
  }

  lemma {:induction false} OneScoped(t: Stmt, names: Names)
    requires names != [] && Scoped(t, names) && NoSelfInit(t)
    ensures AllScoped([t], names) && NoSelfInits([t])
  {
    assert [t][1..] == [];
    assert AllScoped([], NamesAfter(t, names)) && NoSelfInits([]);
  }

  lemma {:induction false} NestedIsScoped()
    ensures AllScoped(NESTED, [{}]) && NoSelfInits(NESTED) && !Proper(NESTED)
  {
    var names: Names := AddName([{}], "x");
    var n1: Names := names + [{}];
    var n2: Names := n1 + [{}];
    assert "x" in names[0] && "x" in n1[0] && "x" in n2[0];
    assert Knows(names, "x") && Knows(n1, "x") && Knows(n2, "x");
    OneScoped(SET_ZERO, n2);
    OneScoped(IF_X, n1);
    OneScoped(LOOP, names);
    assert NESTED[1..] == [LOOP] && NamesAfter(NESTED[0], [{}]) == names;
    assert Scoped(NESTED[0], [{}]) && NoSelfInit(NESTED[0]);
    assert [IF_X][1..] == [] && !Straight([IF_X]);
    assert !ProperStmt(LOOP) && !Proper([LOOP]);
  }

  lemma {:induction false} NestedTerminates(ops: Ops)
    ensures Terminates(ops, NESTED)
  {
    assert NESTED[1..] == [LOOP] && [LOOP][1..] == [] && [IF_X][1..] == [] && [SET_ZERO][1..] == [];
    var one: Env := [map["x" := 1]];
    assert Exec(ops, NESTED[0], [map[]], 2) == Done(one);
    BodyClears(ops, one);
    var zero: Env := [map["x" := 0]];
    assert Find(zero, "x", 0) == 0 && Find(one, "x", 0) == 1;
    assert Exec(ops, LOOP, zero, 1) == Done(zero);
    assert Exec(ops, LOOP, one, 2) == Done(zero);
    assert ExecAll(ops, [LOOP], one, 2) == ExecAll(ops, [], zero, 2) == Done(zero);
    assert RunSource(ops, NESTED, 2) == Done(zero);
  }

  /** One round of the loop in the source sets x to 0. */
  lemma {:induction false} BodyClears(ops: Ops, one: Env)
    requires one == [map["x" := 1]]
    ensures Leave(ExecAll(ops, [IF_X], one + [map[]], 1)) == Done([map["x" := 0]])
  {
    assert [IF_X][1..] == [] && [SET_ZERO][1..] == [];
    var a: Env, z: Env := one + [map[]], [map["x" := 0]];
    var b: Env := a + [map[]];
    assert a[..1] == one && b[..2] == a;
    assert Find(one, "x", 0) == 1 && Find(a, "x", 0) == 1;
    assert one[0]["x" := 0] == z[0];
    assert Store(one, "x", 0) == one[..0] + [one[0]["x" := 0]];
    assert one[..0] + [z[0]] == z;
    assert Store(a, "x", 0) == z + [map[]];
    assert Store(b, "x", 0) == z + [map[]] + [map[]];
    assert ExecAll(ops, [SET_ZERO], b, 1) == Done(z + [map[]] + [map[]]);
    assert (z + [map[]] + [map[]])[..2] == z + [map[]];
    assert Exec(ops, IF_X, a, 1) == Done(z + [map[]]);
    assert ExecAll(ops, [IF_X], a, 1) == Done(z + [map[]]);
    assert (z + [map[]])[..1] == z;
  }
}
