/** The instructions of lowered code: operands are results from earlier in the same block, and a terminator
    stands only at the end of a block exactly when the tree is well behaved. */
module LoweringForm {
  import opened IR
  import opened Lowering
  import opened LoweringShape
  import opened LoweringSteps
  import opened LoweredGraph

  // ---------------------------------------------------------------- operands

  /** v is a constant or the result of one of the first k instructions of block b. */
  predicate IsLocal(insts: seq<Inst>, b: nat, k: nat, v: Value) {
    match v
    case Const(_) => true
    case Result(x, j) => x == b && j < k && j < |insts| && insts[j].HasValue()
    case PhiValue(_, _) => false
  }

  /** All operands of block b are local. */
  ghost predicate LocalOperands(insts: seq<Inst>, b: nat) {
    forall k: nat, v: Value :: k < |insts| && insts[k].Uses(v) ==> IsLocal(insts, b, k, v)
  }

  ghost predicate Tidy(c: Ctx) {
    forall b: nat :: b < |c.code| ==> LocalOperands(c.code[b], b)
  }

  lemma {:induction false} TidySnoc(insts: seq<Inst>, b: nat, inst: Inst)
    requires LocalOperands(insts, b)
    requires forall v: Value :: inst.Uses(v) ==> IsLocal(insts, b, |insts|, v)
    ensures LocalOperands(insts + [inst], b)
  {
    var r := insts + [inst];
    forall k: nat, v: Value | k < |r| && r[k].Uses(v)
      ensures IsLocal(r, b, k, v)
    {
      if k < |insts| {
        assert insts[k].Uses(v) && IsLocal(insts, b, k, v);
      } else {
        assert inst.Uses(v) && IsLocal(insts, b, |insts|, v);
      }
    }
  }

  lemma {:induction false} EmitTidy(c: Ctx, b: nat, inst: Inst)
    requires c.Valid() && Tidy(c) && b < |c.code|
    requires forall v: Value :: inst.Uses(v) ==> IsLocal(c.code[b], b, |c.code[b]|, v)
    ensures Tidy(Emit(c, b, inst))
  {
    TidySnoc(c.code[b], b, inst);
  }

  lemma {:induction false} ExprTidy(c: Ctx, e: Expr)
    requires c.Valid() && Tidy(c)
    ensures Tidy(LowerExpr(c, e).0)
    ensures IsLocal(LowerExpr(c, e).0.code[c.block], c.block, End(LowerExpr(c, e).0), LowerExpr(c, e).1)
    decreases e
  {
    match e
    case Number(_) =>
    case Variable(x) => EmitTidy(c, c.block, Load(Find(c.scopes, x, 0)));
    case BinaryExp(op, l, r) =>
      var (c1, v) := LowerExpr(c, l);
      var (c2, w) := LowerExpr(c1, r);
      ExprTidy(c, l);
      ExprTidy(c1, r);
      ExprAppended(c1, r);
      assert IsLocal(c2.code[c.block], c.block, End(c2), v);
      EmitTidy(c2, c.block, Binary(op, v, w));
  }

  lemma {:induction false} AssignTidy(c: Ctx, x: string, e: Expr)
    requires c.Valid() && Tidy(c)
    ensures Tidy(LowerAssign(c, x, e))
  {
    ExprTidy(c, e);
    var (c1, v) := LowerExpr(c, e);
    EmitTidy(c1, c1.block, Assign(Find(c.scopes, x, 0), v));
  }

  lemma {:induction false} StmtTidy(c: Ctx, s: Stmt)
    requires CanLower(c) && Tidy(c)
    ensures Tidy(LowerStmt(c, s))
    decreases s, 0
  {
    hide Extends, Local, Tidy, LowerExpr, IfResult, WhileResult, Appended;
    match s
    case Declare(x, e) =>
      assert Tidy(NewReg(c, x)) by { TidyIsCode(c, NewReg(c, x)); }
      AssignTidy(NewReg(c, x), x, e);
    case Set(x, e) => AssignTidy(c, x, e);
    case If(cond, body) =>
      var (c1, v) := LowerExpr(c, cond);
      ExprTidy(c, cond);
      CondBuilt(c, cond);
      EnterTidy(c1);
      StmtsTidy(EnterBlock(c1), body);
      IfTidy(c, cond, body);
    case While(cond, body) =>
      HeadTidy(c);
      EnterTidy(WhileHead(c));
      StmtsTidy(EnterBlock(WhileHead(c)), body);
      WhileTidy(c, cond, body);
    case ReturnStmt =>
      EmitTidy(c, c.block, Return);
  }

  lemma {:induction false} TidyIsCode(c: Ctx, c': Ctx)
    requires Tidy(c) && c'.code == c.code
    ensures Tidy(c')
  {
  }

  lemma {:induction false} EnterTidy(c: Ctx)
    requires c.Valid() && Tidy(c)
    ensures Tidy(EnterBlock(c)) && CanLower(EnterBlock(c))
  {
  }

  lemma {:induction false} HeadTidy(c: Ctx)
    requires c.Valid() && Tidy(c)
    ensures Tidy(WhileHead(c))
  {
    assert Tidy(NewBlock(c));
    EmitTidy(NewBlock(c), c.block, Jump(|c.code|));
  }

  lemma {:induction false} IfTidy(c: Ctx, cond: Expr, body: seq<Stmt>)
    requires CanLower(c) && Tidy(c)
    requires Tidy(LowerStmts(EnterBlock(LowerExpr(c, cond).0), body))
    ensures Tidy(LowerStmt(c, If(cond, body)))
  {
    var c1, v, inner, r := IfSteps(c, cond, body);
    ExprTidy(c, cond);
    var cur, last := c1.block, inner.block;
    TidySnoc(c1.code[cur], cur, JumpCond(|c1.code|, |inner.code|, v));
    TidySnoc(inner.code[last], last, Jump(|inner.code|));
  }

  lemma {:induction false} WhileTidy(c: Ctx, cond: Expr, body: seq<Stmt>)
    requires CanLower(c) && Tidy(c)
    requires Tidy(LowerStmts(EnterBlock(WhileHead(c)), body))
    ensures Tidy(LowerStmt(c, While(cond, body)))
  {
    hide LowerStmts, LowerExpr, Local;
    var h := WhileHead(c);
    var inner := LowerStmts(EnterBlock(h), body);
    StmtsReady(EnterBlock(h), body) by { EnterExtends(h); }
    var l := LeaveBlock(h, inner);
    TidyIsCode(inner, l);
    assert l.Valid() && |l.code| > |c.code| + 1 by { LocalSize(EnterBlock(h), inner); }
    EmitTidy(l, |c.code| + 1, Jump(|c.code|));
    var k := CondCtx(l, |c.code|, |c.code| + 1);
    NewBlockTidy(Emit(l, |c.code| + 1, Jump(|c.code|)), k);
    ExprTidy(k, cond);
    EmitTidy(LowerExpr(k, cond).0, |c.code|, JumpCond(|c.code| + 1, |l.code|, LowerExpr(k, cond).1));
  }

  lemma {:induction false} LocalSize(c: Ctx, c': Ctx)
    requires Local(c, c')
    ensures |c.code| <= |c'.code|
  {
  }

  lemma {:induction false} NewBlockTidy(c: Ctx, c': Ctx)
    requires Tidy(c) && c'.code == c.code + [[]]
    ensures Tidy(c')
  {
  }

  lemma {:induction false} StmtsTidy(c: Ctx, ss: seq<Stmt>)
    requires CanLower(c) && Tidy(c)
    ensures Tidy(LowerStmts(c, ss))
    decreases ss, 1
  {
    if ss != [] {
      StmtTidy(c, ss[0]);
      StmtReady(c, ss[0]);
      StmtsTidy(LowerStmt(c, ss[0]), ss[1..]);
    }
  }

  /** Whatever the tree, operands of lowered code are constants or results from earlier in the same block. */
  lemma {:induction false} LoweredIsTidy(body: seq<Stmt>)
    ensures forall b: nat :: b < |LowerFunction(body).code| ==> LocalOperands(LowerFunction(body).code[b], b)
  {
    var c, dead := BodyBuilt(body);
    StmtsTidy(START, body);
  }

  // ---------------------------------------------------------------- terminators

  predicate NoTerminator(insts: seq<Inst>) {
    forall k :: 0 <= k < |insts| ==> !insts[k].IsTerminator()
  }

  predicate TerminatorLast(insts: seq<Inst>) {
    forall k :: 0 <= k < |insts| - 1 ==> !insts[k].IsTerminator()
  }

  /** A terminator stands only at the end of a block. */
  predicate TerminatorsLast(code: Code) {
    forall b :: 0 <= b < |code| ==> TerminatorLast(code[b])
  }

  /** The current block can still be continued. */
  ghost predicate Continues(c: Ctx) {
    c.Valid() && TerminatorsLast(c.code) && NoTerminator(c.code[c.block])
  }

  lemma {:induction false} ExprNoTerminator(c: Ctx, e: Expr)
    requires c.Valid() && NoTerminator(c.code[c.block])
    ensures NoTerminator(LowerExpr(c, e).0.code[c.block])
    decreases e
  {
    if e.BinaryExp? {
      ExprNoTerminator(c, e.left);
      ExprNoTerminator(LowerExpr(c, e.left).0, e.right);
    }
  }

  lemma {:induction false} ExprContinues(c: Ctx, e: Expr)
    requires Continues(c)
    ensures Continues(LowerExpr(c, e).0)
  {
    ExprNoTerminator(c, e);
    ExprAppended(c, e);
  }

  lemma {:induction false} AssignContinues(c: Ctx, x: string, e: Expr)
    requires Continues(c)
    ensures Continues(LowerAssign(c, x, e))
  {
    ExprContinues(c, e);
  }

  lemma {:induction false} EnterContinues(c: Ctx)
    requires c.Valid() && TerminatorsLast(c.code)
    ensures Continues(EnterBlock(c))
  {
  }

  lemma {:induction false} HeadTerminators(c: Ctx)
    requires Continues(c)
    ensures TerminatorsLast(WhileHead(c).code)
  {
    HeadResult(c);
  }

  lemma {:induction false} StraightStays(c: Ctx, ss: seq<Stmt>)
    requires CanLower(c) && Straight(ss)
    ensures LowerStmts(c, ss).block == c.block && ProperStmts(ss)
    decreases ss
  {
    if ss != [] {
      StmtReady(c, ss[0]);
      StraightStays(LowerStmt(c, ss[0]), ss[1..]);
    }
  }

  lemma {:induction false} StmtContinues(c: Ctx, s: Stmt)
    requires CanLower(c) && Continues(c) && ProperStmt(s)
    ensures Continues(LowerStmt(c, s))
    decreases s, 0
  {
    hide Extends, Local, LowerExpr, IfResult, WhileResult, Appended, Continues, LowerStmts, LowerStmt;
    match s
    case Declare(x, e) => DeclareContinues(c, x, e);
    case Set(x, e) => SetContinues(c, x, e);
    case If(cond, body) =>
      var c1 := LowerExpr(c, cond).0;
      ExprContinues(c, cond);
      CondEnters(c, cond);
      StmtsContinue(EnterBlock(c1), body);
      IfContinues(c, cond, body);
    case While(cond, body) =>
      HeadEnters(c);
      StraightStays(EnterBlock(WhileHead(c)), body);
      StmtsContinue(EnterBlock(WhileHead(c)), body);
      WhileContinues(c, cond, body);
  }

  lemma {:induction false} DeclareContinues(c: Ctx, x: string, e: Expr)
    requires CanLower(c) && Continues(c)
    ensures Continues(LowerStmt(c, Declare(x, e)))
  {
    AssignContinues(NewReg(c, x), x, e);
  }

  lemma {:induction false} SetContinues(c: Ctx, x: string, e: Expr)
    requires CanLower(c) && Continues(c)
    ensures Continues(LowerStmt(c, Set(x, e)))
  {
    AssignContinues(c, x, e);
  }

  lemma {:induction false} CondEnters(c: Ctx, cond: Expr)
    requires CanLower(c) && Continues(LowerExpr(c, cond).0)
    ensures var e := EnterBlock(LowerExpr(c, cond).0); CanLower(e) && Continues(e)
  {
    EnterContinues(LowerExpr(c, cond).0);
  }

  lemma {:induction false} HeadEnters(c: Ctx)
    requires CanLower(c) && Continues(c)
    ensures var e := EnterBlock(WhileHead(c)); CanLower(e) && Continues(e)
  {
    HeadTerminators(c);
    EnterContinues(WhileHead(c));
  }

  lemma {:induction false} IfContinues(c: Ctx, cond: Expr, body: seq<Stmt>)
    requires CanLower(c) && Continues(LowerExpr(c, cond).0)
    requires Continues(LowerStmts(EnterBlock(LowerExpr(c, cond).0), body))
    ensures Continues(LowerStmt(c, If(cond, body)))
  {
    hide Extends, Local, LowerExpr, LowerStmts, LowerStmt, Appended;
    var c1, v, inner, r := IfSteps(c, cond, body);
  }

  lemma {:induction false} WhileContinues(c: Ctx, cond: Expr, body: seq<Stmt>)
    requires CanLower(c) && Continues(c)
    requires var e := EnterBlock(WhileHead(c)); var inner := LowerStmts(e, body);
      Continues(inner) && inner.block == e.block
    ensures Continues(LowerStmt(c, While(cond, body)))
  {
    hide Extends, LowerExpr, LowerStmts, LowerStmt, Local;
    var h, inner, k, l, v, r := WhileSteps(c, cond, body);
    ExprNoTerminator(k, cond);
  }

  lemma {:induction false} StmtsContinue(c: Ctx, ss: seq<Stmt>)
    requires CanLower(c) && Continues(c) && ProperStmts(ss)
    ensures Continues(LowerStmts(c, ss))
    decreases ss, 1
  {
    if ss != [] {
      StmtContinues(c, ss[0]);
      StmtReady(c, ss[0]);
      StmtsContinue(LowerStmt(c, ss[0]), ss[1..]);
    }
  }

  lemma {:induction false} ProperIsFine(c: Ctx, ss: seq<Stmt>)
    requires CanLower(c) && Continues(c) && Proper(ss)
    ensures TerminatorsLast(LowerStmts(c, ss).code)
    decreases ss
  {
    if ss != [] {
      if |ss| == 1 && ss[0].ReturnStmt? {
        assert LowerStmts(LowerStmt(c, ss[0]), []) == LowerStmt(c, ss[0]) && ss[1..] == [];
      } else {
        StmtContinues(c, ss[0]);
        StmtReady(c, ss[0]);
        ProperIsFine(LowerStmt(c, ss[0]), ss[1..]);
      }
    }
  }

  // ---------------------------------------------------------------- and never otherwise

  lemma {:induction false} MisplacedStays(c: Ctx, c': Ctx)
    requires Extends(c, c') && !TerminatorsLast(c.code)
    ensures !TerminatorsLast(c'.code)
  {
    var b: nat :| b < |c.code| && !TerminatorLast(c.code[b]);
    ExtendsAt(c, c', b);
    var k :| 0 <= k < |c.code[b]| - 1 && c.code[b][k].IsTerminator();
    assert c'.code[b][k].IsTerminator();
    assert !TerminatorLast(c'.code[b]);
  }

  /** A block that got longer behind a terminator. */
  lemma {:induction false} BuriedIsMisplaced(c: Ctx, c': Ctx, b: nat)
    requires Extends(c, c') && b < |c.code| && !NoTerminator(c.code[b]) && |c.code[b]| < |c'.code[b]|
    ensures !TerminatorsLast(c'.code)
  {
    ExtendsAt(c, c', b);
    var k :| 0 <= k < |c.code[b]| && c.code[b][k].IsTerminator();
    assert c'.code[b][k].IsTerminator();
    assert !TerminatorLast(c'.code[b]);
  }

  lemma {:induction false} ExprGrows(c: Ctx, e: Expr)
    requires c.Valid()
    ensures End(c) <= End(LowerExpr(c, e).0)
  {
    ExprAppended(c, e);
  }

  /** Every statement adds to the block it starts in. */
  lemma {:induction false} StmtGrows(c: Ctx, s: Stmt)
    requires CanLower(c)
    ensures End(c) < |LowerStmt(c, s).code[c.block]|
  {
    match s
    case Declare(x, e) => ExprGrows(NewReg(c, x), e);
    case Set(x, e) => ExprGrows(c, e);
    case If(cond, body) => IfGrows(c, cond, body);
    case While(cond, body) => WhileGrows(c, cond, body);
    case ReturnStmt =>
  }

  lemma {:induction false} IfGrows(c: Ctx, cond: Expr, body: seq<Stmt>)
    requires CanLower(c)
    ensures End(c) < |LowerStmt(c, If(cond, body)).code[c.block]|
  {
    hide Extends, Local, LowerExpr, LowerStmts, LowerStmt;
    var c1, v, inner, r := IfSteps(c, cond, body);
  }

  lemma {:induction false} WhileGrows(c: Ctx, cond: Expr, body: seq<Stmt>)
    requires CanLower(c)
    ensures End(c) < |LowerStmt(c, While(cond, body)).code[c.block]|
  {
    hide Extends, Local, LowerExpr, LowerStmts, LowerStmt;
    var h, inner, k, l, v, r := WhileSteps(c, cond, body);
  }

  lemma {:induction false} BuriedByStmts(c: Ctx, ss: seq<Stmt>)
    requires CanLower(c) && !NoTerminator(c.code[c.block]) && ss != []
    ensures !TerminatorsLast(LowerStmts(c, ss).code)
  {
    hide LowerStmt, Extends;
    StmtReady(c, ss[0]);
    StmtGrows(c, ss[0]);
    BuriedIsMisplaced(c, LowerStmt(c, ss[0]), c.block);
    StmtsReady(LowerStmt(c, ss[0]), ss[1..]);
    MisplacedStays(LowerStmt(c, ss[0]), LowerStmts(c, ss));
  }

  lemma {:induction false} NotStraight(c: Ctx, ss: seq<Stmt>)
    requires CanLower(c) && !Straight(ss)
    ensures !NoTerminator(LowerStmts(c, ss).code[c.block])
    decreases ss
  {
    hide LowerStmt, Extends, Local;
    var c1 := LowerStmt(c, ss[0]);
    StmtReady(c, ss[0]);
    StmtsReady(c1, ss[1..]);
    if ss[0].Declare? || ss[0].Set? {
      NotStraight(c1, ss[1..]);
      SimpleStays(c, ss[0]);
    } else {
      Terminated(c, ss[0]);
      ExtendsAt(c, c1, c.block);
      ExtendsAt(c1, LowerStmts(c, ss), c.block);
      var k :| 0 <= k < |c1.code[c.block]| && c1.code[c.block][k].IsTerminator();
      assert LowerStmts(c, ss).code[c.block][k].IsTerminator();
    }
  }

  lemma {:induction false} SimpleStays(c: Ctx, s: Stmt)
    requires CanLower(c) && (s.Declare? || s.Set?)
    ensures LowerStmt(c, s).block == c.block
  {
  }

  /** The other statements end the block they start in. */
  lemma {:induction false} Terminated(c: Ctx, s: Stmt)
    requires CanLower(c) && !s.Declare? && !s.Set?
    ensures c.block < |LowerStmt(c, s).code| && !NoTerminator(LowerStmt(c, s).code[c.block])
  {
    hide Extends, Local, LowerExpr, LowerStmts;
    match s
    case If(cond, body) =>
      var c1, v, inner, r := IfSteps(c, cond, body);
      assert r.code[c.block][End(c1)].IsTerminator();
    case While(cond, body) =>
      var h, inner, k, l, v, r := WhileSteps(c, cond, body);
      assert r.code[c.block][End(c)].IsTerminator();
    case ReturnStmt =>
      assert LowerStmt(c, s).code[c.block][End(c)].IsTerminator();
  }

  lemma {:induction false} ImproperStmt(c: Ctx, s: Stmt)
    requires CanLower(c) && !ProperStmt(s) && !s.ReturnStmt?
    ensures !TerminatorsLast(LowerStmt(c, s).code)
    decreases s, 0
  {
    hide Extends, LowerExpr, LowerStmts, LowerStmt, Local;
    match s
    case If(cond, body) =>
      var c1, v, inner, r := IfSteps(c, cond, body);
      CondReady(c1);
      ImproperStmts(EnterBlock(c1), body);
      if TerminatorsLast(inner.code) {
        BuriedIsMisplaced(inner, r, inner.block);
      } else {
        MisplacedStays(inner, r);
      }
    case While(cond, body) =>
      var h, inner, k, l, v, r := WhileSteps(c, cond, body);
      NotStraight(EnterBlock(h), body);
      LocalSize(EnterBlock(h), inner);
      BuriedIsMisplaced(inner, r, |c.code| + 1);
  }

  lemma {:induction false} CondReady(c: Ctx)
    requires CanLower(c)
    ensures CanLower(EnterBlock(c))
  {
  }

  lemma {:induction false} ImproperStmts(c: Ctx, ss: seq<Stmt>)
    requires CanLower(c) && !ProperStmts(ss)
    ensures var r := LowerStmts(c, ss); !TerminatorsLast(r.code) || !NoTerminator(r.code[r.block])
    decreases ss, 1
  {
    hide LowerStmt, Extends, Local;
    var c1, r := LowerStmt(c, ss[0]), LowerStmts(c, ss);
    StmtReady(c, ss[0]);
    StmtsReady(c1, ss[1..]);
    if ProperStmt(ss[0]) {
      ImproperStmts(c1, ss[1..]);
    } else if ss[0].ReturnStmt? {
      Terminated(c, ss[0]);
      ReturnStays(c);
      if ss[1..] != [] {
        BuriedByStmts(c1, ss[1..]);
      }
    } else {
      ImproperStmt(c, ss[0]);
      MisplacedStays(c1, r);
    }
  }

  lemma {:induction false} ReturnStays(c: Ctx)
    requires CanLower(c)
    ensures LowerStmt(c, ReturnStmt).block == c.block
  {
  }

  lemma {:induction false} ImproperIsNot(c: Ctx, ss: seq<Stmt>)
    requires CanLower(c) && !Proper(ss)
    ensures !TerminatorsLast(LowerStmts(c, ss).code)
    decreases ss
  {
    hide LowerStmt, Extends, Local;
    var c1 := LowerStmt(c, ss[0]);
    StmtReady(c, ss[0]);
    StmtsReady(c1, ss[1..]);
    if ss[0].ReturnStmt? {
      Terminated(c, ss[0]);
      ReturnStays(c);
      BuriedByStmts(c1, ss[1..]);
    } else if ProperStmt(ss[0]) {
      ImproperIsNot(c1, ss[1..]);
    } else {
      ImproperStmt(c, ss[0]);
      MisplacedStays(c1, LowerStmts(c, ss));
    }
  }

  /** Lowered blocks have their terminators at the end for exactly the trees whose while bodies are straight
      and whose only return is the last statement. */
  lemma {:induction false} TerminatorsLastIffProper(body: seq<Stmt>)
    ensures TerminatorsLast(LowerFunction(body).code) <==> Proper(body)
  {
    var c, dead := BodyBuilt(body);
    if Proper(body) {
      ProperIsFine(START, body);
    } else {
      ImproperIsNot(START, body);
    }
  }
}
