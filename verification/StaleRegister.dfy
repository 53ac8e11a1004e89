/** A program whose initialiser reads its own variable in a loop: in the second round the lowered code finds the
    register of the first one, and stops where the source does not. */
module StaleRegister {
  import opened IR
  import opened Lowering
  import opened LoweringShape
  import opened LoweringSteps
  import opened LoweredGraph
  import opened SourceMeaning
  import opened LoweringMeaning

  const NEXT_Y: Expr := BinaryExp(Add, Variable("y"), Number(1))
  const TWO_LESS: Expr := BinaryExp(Add, Variable("y"), Number(-2))
  const BODY: seq<Stmt> := [Declare("y", NEXT_Y), Set("i", TWO_LESS)]
  const LOOP: Stmt := While(Variable("i"), BODY)

  /** i = 1; while (i) { y = y + 1; i = y - 2; }, where y is declared in the loop. */
  const SELF: seq<Stmt> := [Declare("i", Number(1)), LOOP]

  lemma {:induction false} SelfIsScoped()
    ensures AllScoped(SELF, [{}]) && Proper(SELF) && !NoSelfInits(SELF)
  {
    var empty: set<string> := {};
    var none: Names := [empty];
    var names: Names := [{"i"}];
    assert empty + {"i"} == {"i"} && none[..0] + [none[0] + {"i"}] == names;
    assert AddName(none, "i") == names;
    var n1: Names := names + [empty];
    var n2: Names := names + [{"y"}];
    assert n1[1] == empty && empty + {"y"} == {"y"} && n1[..1] == names;
    assert n1[..1] + [n1[1] + {"y"}] == n2;
    assert AddName(n1, "y") == n2;
    assert "i" in names[0] && "i" in n2[0] && "y" in n2[1];
    assert Knows(names, "i") && Knows(n2, "i") && Knows(n2, "y");
    assert BODY[1..] == [BODY[1]] && [BODY[1]][1..] == [] && SELF[1..] == [LOOP] && [LOOP][1..] == [];
    assert ExprScoped(Variable("y"), n2) && ExprScoped(Number(1), n2) && ExprScoped(Number(-2), n2);
    assert ExprScoped(NEXT_Y, n2) && ExprScoped(TWO_LESS, n2);
    assert Scoped(BODY[0], n1);
    assert Scoped(BODY[1], n2) && AllScoped([], n2);
    assert AllScoped([BODY[1]], n2);
    assert AllScoped(BODY, n1);
    assert Scoped(LOOP, names) && AllScoped([], names);
    assert AllScoped([LOOP], names);
    assert Straight([]) && Straight([BODY[1]]) && Straight(BODY);
    assert Proper([LOOP]);
    assert !NoSelfInit(BODY[0]) && !NoSelfInits(BODY) && !NoSelfInit(LOOP) && !NoSelfInits([LOOP]);
  }

  // ---------------------------------------------------------------- the source goes on for ever

  /** One round leaves i at -1, whatever it was. */
  lemma {:induction false} SourceRound(env: Env, fuel: nat)
    requires |env| == 1 && env[0].Keys == {"i"}
    ensures Leave(ExecAll(Plus(), BODY, env + [map[]], fuel)) == Done([map["i" := -1]])
  {
    var m: map<string, int> := map[];
    var minus: Env := [map["i" := -1]];
    var inner: Env := env + [m];
    assert inner[..1] == env && env[..0] == [];
    assert Find([], "y", 0) == 0 && Find(env, "y", 0) == 0 && Find(inner, "y", 0) == 0;
    var bound: Env := env + [m["y" := 1]];
    assert Bind(inner, "y", 1) == bound;
    assert EvalExpr(Plus(), Number(1), inner) == 1 && EvalExpr(Plus(), Variable("y"), inner) == 0;
    assert EvalExpr(Plus(), NEXT_Y, inner) == 1;
    assert Exec(Plus(), BODY[0], inner, fuel) == Done(bound);
    assert Find(bound, "y", 0) == 1 && bound[..1] == env;
    assert env[0]["i" := -1] == minus[0];
    assert Store(env, "i", -1) == env[..0] + [minus[0]] == minus;
    var after: Env := minus + [m["y" := 1]];
    assert Store(bound, "i", -1) == after;
    assert EvalExpr(Plus(), Number(-2), bound) == -2 && EvalExpr(Plus(), Variable("y"), bound) == 1;
    assert EvalExpr(Plus(), TWO_LESS, bound) == -1;
    assert Exec(Plus(), BODY[1], bound, fuel) == Done(after);
    assert BODY[1..] == [BODY[1]] && [BODY[1]][1..] == [];
    assert ExecAll(Plus(), [BODY[1]], bound, fuel) == ExecAll(Plus(), [], after, fuel) == Done(after);
    assert ExecAll(Plus(), BODY, inner, fuel) == Done(after);
    assert after[..1] == minus;
  }

  lemma {:induction false} LoopDiverges(env: Env, fuel: nat)
    requires |env| == 1 && env[0].Keys == {"i"} && env[0]["i"] != 0
    ensures Exec(Plus(), LOOP, env, fuel).Timeout?
    decreases fuel
  {
    assert Find(env, "i", 0) == env[0]["i"];
    if fuel > 0 {
      SourceRound(env, fuel - 1);
      LoopDiverges([map["i" := -1]], fuel - 1);
    }
  }

  lemma {:induction false} SourceDiverges()
    ensures !Terminates(Plus(), SELF)
  {
    forall fuel: nat
      ensures RunSource(Plus(), SELF, fuel).Timeout?
    {
      var m: map<string, int> := map[];
      var one: Env := [map["i" := 1]];
      assert [m][..0] + [m["i" := 1]] == one;
      assert Exec(Plus(), SELF[0], [m], fuel) == Done(one);
      LoopDiverges(one, fuel);
      assert SELF[1..] == [LOOP];
      assert ExecAll(Plus(), [LOOP], one, fuel).Timeout?;
    }
  }

  // ---------------------------------------------------------------- the code

  const I: map<string, nat> := map["i" := 0]

  const ROUND: seq<Inst> := [Load(1), Binary(Add, Result(2, 0), Const(1)), Assign(1, Result(2, 1)),
                             Load(1), Binary(Add, Result(2, 3), Const(-2)), Assign(0, Result(2, 4))]

  lemma {:induction false} PlusCode(c: Ctx, x: string, y: string, n: int)
    requires c.Valid()
    ensures var b, k, r := c.block, End(c), LowerAssign(c, x, BinaryExp(Add, Variable(y), Number(n)));
      && r.code[b] == c.code[b] + [Load(Find(c.scopes, y, 0)), Binary(Add, Result(b, k), Const(n)),
                                   Assign(Find(c.scopes, x, 0), Result(b, k + 1))]
      && r.scopes == c.scopes && r.block == b && r.Valid()
  {
    var e := BinaryExp(Add, Variable(y), Number(n));
    assert LowerExpr(c, e).1 == Result(c.block, End(c) + 1);
  }

  lemma {:induction false} RoundCode(s: Ctx)
    requires CanLower(s) && s.block == 2 && End(s) == 0 && s.scopes == [I, map[]] && s.regCount == 1
    ensures 2 < |LowerStmts(s, BODY).code| && LowerStmts(s, BODY).code[2] == ROUND
  {
    var m: map<string, nat> := map[];
    var n := NewReg(s, "y");
    assert n.scopes == [I, m["y" := 1]];
    assert n.scopes[..1] == [I];
    assert Find([I], "i", 0) == 0 && Find(n.scopes, "y", 0) == 1 && Find(n.scopes, "i", 0) == 0;
    PlusCode(n, "y", "y", 1);
    var c1 := LowerStmt(s, BODY[0]);
    assert [] + ROUND[..3] == ROUND[..3];
    assert c1.code[2] == ROUND[..3];
    PlusCode(c1, "i", "y", -2);
    var c2 := LowerStmt(c1, BODY[1]);
    assert c2.code[2] == ROUND[..3] + ROUND[3..] == ROUND;
    assert BODY[1..] == [BODY[1]] && [BODY[1]][1..] == [];
    assert LowerStmts(c1, [BODY[1]]) == LowerStmts(c2, []) == c2;
    assert LowerStmts(s, BODY) == c2;
  }

  lemma {:induction false} SelfCode()
    ensures var f := LowerFunction(SELF).code;
      && |f| == 4 && f[0] == [Assign(0, Const(1)), Jump(1)]
      && f[1] == [Load(0), JumpCond(2, 3, Result(1, 0))] && f[2] == ROUND + [Jump(1)] && f[3] == []
  {
    var c := LowerStmt(START, SELF[0]);
    DeclareI();
    SelfLoopCode(c);
    hide Built, LowerStmt, LowerFunction;
    var f, _ := BodyBuilt(SELF);
    assert SELF[1..] == [LOOP] && [LOOP][1..] == [];
    assert LowerStmts(c, [LOOP]) == LowerStmts(LowerStmt(c, LOOP), []) == LowerStmt(c, LOOP);
    assert LowerStmts(START, SELF) == LowerStmts(c, SELF[1..]);
  }

  lemma {:induction false} DeclareI()
    ensures var c := LowerStmt(START, SELF[0]);
      && CanLower(c) && c.block == 0 && |c.code| == 1 && c.code[0] == [Assign(0, Const(1))]
      && c.scopes == [I] && c.regCount == 1
  {
    var c := NewReg(START, "i");
    assert c.scopes == [I];
    assert Find(c.scopes, "i", 0) == 0;
    StmtReady(START, SELF[0]);
    assert c.code[0] + [Assign(0, Const(1))] == [Assign(0, Const(1))];
  }

  lemma {:induction false} BodyEndsInside(s: Ctx)
    requires CanLower(s)
    ensures LowerStmts(s, BODY).block == s.block && |LowerStmts(s, BODY).code| == |s.code|
  {
    var c1 := LowerStmt(s, BODY[0]);
    var c2 := LowerStmt(c1, BODY[1]);
    assert BODY[1..] == [BODY[1]] && [BODY[1]][1..] == [];
    assert LowerStmts(c1, [BODY[1]]) == LowerStmts(c2, []) == c2;
  }

  lemma {:induction false} SelfLoopCode(c: Ctx)
    requires CanLower(c) && c.block == 0 && |c.code| == 1 && c.code[0] == [Assign(0, Const(1))]
    requires c.scopes == [I] && c.regCount == 1
    ensures var f := LowerStmt(c, LOOP).code;
      && |f| == 4 && f[0] == [Assign(0, Const(1)), Jump(1)]
      && f[1] == [Load(0), JumpCond(2, 3, Result(1, 0))] && f[2] == ROUND + [Jump(1)] && f[3] == []
  {
    hide Local, LowerStmts, LowerStmt, Extends;
    var h, inner, k, l, v, r := WhileSteps(c, Variable("i"), BODY);
    var s := EnterBlock(h);
    HeadKeepsRegs(c);
    RoundCode(s);
    BodyEndsInside(s);
    assert Find([I], "i", 0) == 0;
    assert l.code[1] == [] + [Load(0)] && v == Result(1, 0);
  }

  lemma {:induction false} HeadKeepsRegs(c: Ctx)
    requires c.Valid()
    ensures WhileHead(c).regCount == c.regCount
  {
  }

  // ---------------------------------------------------------------- the code stops

  function Old(st: State): int {
    if 1 in st.regs then st.regs[1] else 0
  }

  /** One round of the lowered loop counts the register of y on. */
  lemma {:induction false} CodeRound(st: State)
    ensures var t := ExecFirst(Plus(), ROUND + [Jump(1)], 2, 7, st);
      0 in t.regs && t.regs[0] == Old(st) - 1 && 1 in t.regs && t.regs[1] == Old(st) + 1
  {
    var insts, ops := ROUND + [Jump(1)], Plus();
    var s1 := ExecFirst(ops, insts, 2, 1, st);
    assert ExecFirst(ops, insts, 2, 0, st) == st;
    assert s1 == ExecInst(ops, insts[0], 2, 0, st);
    assert Eval(Result(2, 0), s1.vals) == Old(st);
    var s2 := ExecFirst(ops, insts, 2, 2, st);
    assert s2 == ExecInst(ops, insts[1], 2, 1, s1) && Eval(Result(2, 1), s2.vals) == Old(st) + 1;
    var s3 := ExecFirst(ops, insts, 2, 3, st);
    assert s3 == ExecInst(ops, insts[2], 2, 2, s2) && 1 in s3.regs && s3.regs[1] == Old(st) + 1;
    var s4 := ExecFirst(ops, insts, 2, 4, st);
    assert s4 == ExecInst(ops, insts[3], 2, 3, s3) && Eval(Result(2, 3), s4.vals) == Old(st) + 1;
    var s5 := ExecFirst(ops, insts, 2, 5, st);
    assert s5 == ExecInst(ops, insts[4], 2, 4, s4) && Eval(Result(2, 4), s5.vals) == Old(st) - 1;
    var s6 := ExecFirst(ops, insts, 2, 6, st);
    assert s6 == ExecInst(ops, insts[5], 2, 5, s5);
    assert ExecFirst(ops, insts, 2, 7, st) == ExecInst(ops, insts[6], 2, 6, s6);
  }

  lemma {:induction false} HeadStep(code: Code, st: State) returns (t: State)
    requires |code| > 1 && code[1] == [Load(0), JumpCond(2, 3, Result(1, 0))] && 0 in st.regs
    ensures StepBlock(Plus(), code, At(1, st)) == At(if st.regs[0] != 0 then 2 else 3, t) && t.regs == st.regs
  {
    var s1 := ExecFirst(Plus(), code[1], 1, 1, st);
    assert s1 == ExecInst(Plus(), code[1][0], 1, 0, ExecFirst(Plus(), code[1], 1, 0, st));
    t := ExecFirst(Plus(), code[1], 1, 2, st);
    assert t == ExecInst(Plus(), code[1][1], 1, 1, s1);
  }

  lemma {:induction false} RoundStep(code: Code, st: State) returns (t: State)
    requires |code| > 2 && code[2] == ROUND + [Jump(1)]
    ensures StepBlock(Plus(), code, At(2, st)) == At(1, t)
    ensures 0 in t.regs && t.regs[0] == Old(st) - 1 && 1 in t.regs && t.regs[1] == Old(st) + 1
  {
    t := ExecFirst(Plus(), code[2], 2, 7, st);
    CodeRound(st);
  }

  /** The lowered code stops after two rounds, while the source, in which every round has its own y, goes on. */
  lemma {:induction false} StaleValueIsRead()
    ensures AllScoped(SELF, [{}]) && Proper(SELF) && !NoSelfInits(SELF)
    ensures !Terminates(Plus(), SELF) && Stops(Plus(), LowerFunction(SELF).code, State(map[], map[]))
  {
    SelfIsScoped();
    SourceDiverges();
    CodeStops();
  }

  lemma {:induction false} CodeStops()
    ensures Stops(Plus(), LowerFunction(SELF).code, State(map[], map[]))
  {
    SelfCode();
    hide LowerFunction, StepBlock, Plus;
    var f, ops, st := LowerFunction(SELF).code, Plus(), State(map[], map[]);
    var a0 := At(0, st);
    assert Run(ops, f, a0, 0) == a0;
    var t1 := FirstStep(f);
    assert Run(ops, f, a0, 1) == At(1, t1);
    var t2 := HeadStep(f, t1);
    assert Run(ops, f, a0, 2) == At(2, t2);
    var t3 := RoundStep(f, t2);
    assert Run(ops, f, a0, 3) == At(1, t3);
    var t4 := HeadStep(f, t3);
    assert Run(ops, f, a0, 4) == At(2, t4);
    var t5 := RoundStep(f, t4);
    assert Run(ops, f, a0, 5) == At(1, t5);
    var t6 := HeadStep(f, t5);
    assert Run(ops, f, a0, 6) == At(3, t6);
    LastStep(f, t6);
    assert Run(ops, f, a0, 7).Stopped?;
  }

  lemma {:induction false} FirstStep(code: Code) returns (t: State)
    requires |code| > 1 && code[0] == [Assign(0, Const(1)), Jump(1)]
    ensures StepBlock(Plus(), code, At(0, State(map[], map[]))) == At(1, t) && t.regs == map[0 := 1]
  {
    var st: State := State(map[], map[]);
    var s1 := ExecFirst(Plus(), code[0], 0, 1, st);
    assert s1 == ExecInst(Plus(), code[0][0], 0, 0, ExecFirst(Plus(), code[0], 0, 0, st));
    t := ExecFirst(Plus(), code[0], 0, 2, st);
    assert t == ExecInst(Plus(), code[0][1], 0, 1, s1);
  }

  lemma {:induction false} LastStep(code: Code, st: State)
    requires |code| == 4 && code[3] == []
    ensures StepBlock(Plus(), code, At(3, st)).Stopped?
  {
  }
}
