/** How each kind of statement extends the code, in the form the proofs about lowered code use. */
module LoweringSteps {
  import opened IR
  import opened Lowering
  import opened LoweringShape

  /** A state in which a statement can be lowered. */
  ghost predicate CanLower(c: Ctx) {
    c.Valid() && c.scopes != [] && Open(c.code[c.block])
  }

  /** The length of the current block. */
  function End(c: Ctx): nat
    requires c.Valid()
  {
    |c.code[c.block]|
  }

  ghost predicate BlockExtends(c: Ctx, c': Ctx, b: nat)
    requires |c.code| == |c.pred| <= |c'.code| == |c'.pred| && b < |c.code|
  {
    && c.code[b] <= c'.code[b]
    && (|c.pred[b]| > 0 ==> |c'.pred[b]| > 0 && c'.pred[b][0] == c.pred[b][0])
  }

  /** Nothing that was emitted is taken back, and a first listed predecessor stays the first. */
  ghost predicate Extends(c: Ctx, c': Ctx) {
    && |c.code| == |c.pred| <= |c'.code| == |c'.pred|
    && forall b: nat :: b < |c.code| ==> BlockExtends(c, c', b)
  }

  lemma {:induction false} ExtendsTrans(c: Ctx, c1: Ctx, c2: Ctx)
    requires Extends(c, c1) && Extends(c1, c2)
    ensures Extends(c, c2)
  {
    forall b: nat | b < |c.code|
      ensures BlockExtends(c, c2, b)
    {
      assert BlockExtends(c, c1, b) && BlockExtends(c1, c2, b);
    }
  }

  lemma {:induction false} ExtendsAt(c: Ctx, c': Ctx, b: nat)
    requires Extends(c, c') && b < |c.code|
    ensures b < |c'.code| == |c'.pred| && c.code[b] <= c'.code[b]
    ensures |c.pred[b]| > 0 ==> |c'.pred[b]| > 0 && c'.pred[b][0] == c.pred[b][0]
  {
    assert BlockExtends(c, c', b);
  }

  lemma {:induction false} LocalExtends(c: Ctx, c': Ctx)
    requires Local(c, c')
    ensures Extends(c, c')
  {
  }

  lemma {:induction false} AppendedExtends(c: Ctx, c': Ctx)
    requires Appended(c, c')
    ensures Extends(c, c')
  {
  }

  lemma {:induction false} EnterExtends(c: Ctx)
    requires c.Valid()
    ensures Extends(c, EnterBlock(c)) && CanLower(EnterBlock(c)) && End(EnterBlock(c)) == 0
  {
  }

  lemma {:induction false} HeadExtends(c: Ctx)
    requires c.Valid()
    ensures Extends(c, WhileHead(c))
  {
    HeadResult(c);
  }

  lemma {:induction false} IfExtends(c: Ctx, inner: Ctx, r: Ctx, v: Value)
    requires c.Valid() && Local(EnterBlock(c), inner) && IfResult(c, inner, r, v)
    ensures Extends(inner, r)
  {
    var e := EnterBlock(c);
    assert inner.pred[|c.code|] == e.pred[|c.code|] == [];
    assert inner.code[c.block] == e.code[c.block];
  }

  // ---------------------------------------------------------------- statement by statement

  lemma {:induction false} StmtReady(c: Ctx, s: Stmt)
    requires CanLower(c)
    ensures Local(c, LowerStmt(c, s)) && CanLower(LowerStmt(c, s)) && Extends(c, LowerStmt(c, s))
  {
    hide LowerStmt;
    var d := StmtBuilt(c, s);
    LocalExtends(c, LowerStmt(c, s));
  }

  lemma {:induction false} StmtsReady(c: Ctx, ss: seq<Stmt>)
    requires CanLower(c)
    ensures Local(c, LowerStmts(c, ss)) && CanLower(LowerStmts(c, ss)) && Extends(c, LowerStmts(c, ss))
  {
    hide LowerStmts;
    var d := StmtsBuilt(c, ss);
    LocalExtends(c, LowerStmts(c, ss));
  }

  /** Where the parts of a lowered if are. */
  lemma {:induction false} IfSteps(c: Ctx, cond: Expr, body: seq<Stmt>)
    returns (c1: Ctx, v: Value, inner: Ctx, r: Ctx)
    requires CanLower(c)
    ensures (c1, v) == LowerExpr(c, cond) && inner == LowerStmts(EnterBlock(c1), body)
    ensures r == LowerStmt(c, If(cond, body)) && CanLower(r)
    ensures Appended(c, c1) && CanLower(c1) && c1.scopes == c.scopes && c1.regCount == c.regCount
    ensures Local(EnterBlock(c1), inner) && IfResult(c1, inner, r, v)
    ensures r.scopes == c.scopes && r.regCount == inner.regCount
    ensures Extends(EnterBlock(c1), inner) && Extends(inner, r) && End(r) == 0
  {
    hide Local, LowerExpr, Extends;
    c1, v := LowerExpr(c, cond).0, LowerExpr(c, cond).1;
    ExprAppended(c, cond);
    ExprKeepsRegs(c, cond);
    CondBuilt(c, cond);
    EnterExtends(c1);
    StmtsReady(EnterBlock(c1), body);
    inner := LowerStmts(EnterBlock(c1), body);
    IfTailResult(c1, inner, v);
    r := IfTail(LeaveBlock(c1, inner), |c1.code|, inner.block, v);
    assert LowerStmt(c, If(cond, body)) == r;
    IfExtends(c1, inner, r, v);
    StmtReady(c, If(cond, body));
  }

  lemma {:induction false} ExprKeepsRegs(c: Ctx, e: Expr)
    requires c.Valid()
    ensures LowerExpr(c, e).0.regCount == c.regCount
    decreases e
  {
    if e.BinaryExp? {
      ExprKeepsRegs(c, e.left);
      ExprKeepsRegs(LowerExpr(c, e.left).0, e.right);
    }
  }

  /** Where the parts of a lowered while are: k is the state in which the condition is lowered. */
  lemma {:induction false} WhileSteps(c: Ctx, cond: Expr, body: seq<Stmt>)
    returns (h: Ctx, inner: Ctx, k: Ctx, l: Ctx, v: Value, r: Ctx)
    requires CanLower(c)
    ensures h == WhileHead(c) && inner == LowerStmts(EnterBlock(h), body) && h.scopes == c.scopes
    ensures r == LowerStmt(c, While(cond, body)) && CanLower(r)
    ensures k.Valid() && k.block == |c.code| && End(k) == 0 && k.scopes == c.scopes && (l, v) == LowerExpr(k, cond)
    ensures Local(EnterBlock(h), inner) && WhileResult(c, inner, r, l.code[|c.code|], v)
    ensures r.scopes == c.scopes && r.regCount == inner.regCount
    ensures CanLower(EnterBlock(h)) && Extends(c, h) && Extends(EnterBlock(h), inner) && Extends(inner, r)
    ensures Appended(k, l) && Extends(l, r) && End(r) == 0
  {
    hide Local, LowerExpr, Extends;
    h := WhileHead(c);
    HeadExtends(c);
    EnterExtends(h);
    StmtsReady(EnterBlock(h), body);
    inner := LowerStmts(EnterBlock(h), body);
    WhileTailResult(c, inner, cond);
    k := CondCtx(LeaveBlock(h, inner), |c.code|, |c.code| + 1);
    l, v := LowerExpr(k, cond).0, LowerExpr(k, cond).1;
    ExprAppended(k, cond);
    ExprKeepsRegs(k, cond);
    r := WhileTail(LeaveBlock(h, inner), |c.code|, |c.code| + 1, cond);
    assert r == LowerStmt(c, While(cond, body));
    WhileExtends(c, inner, k, l, v, r);
    StmtReady(c, While(cond, body));
  }

  lemma {:induction false} WhileExtends(c: Ctx, inner: Ctx, k: Ctx, l: Ctx, v: Value, r: Ctx)
    requires c.Valid() && Local(EnterBlock(WhileHead(c)), inner) && |inner.scopes| > 0
    requires k == CondCtx(LeaveBlock(WhileHead(c), inner), |c.code|, |c.code| + 1) && Appended(k, l)
    requires WhileResult(c, inner, r, l.code[|c.code|], v)
    ensures Extends(inner, r) && Extends(l, r) && End(k) == 0 && k.scopes == inner.scopes[..|inner.scopes|-1]
  {
    HeadResult(c);
    var e := EnterBlock(WhileHead(c));
    assert inner.pred[|c.code|] == e.pred[|c.code|] == [c.block];
    assert inner.code[|c.code|] == e.code[|c.code|] == [];
    assert inner.code[c.block] == e.code[c.block] == c.code[c.block] + [Jump(|c.code|)];
    assert inner.pred[|c.code| + 1] == e.pred[|c.code| + 1] == [];
    OnePred(inner.pred, |c.code|, |c.code| + 1);
  }

  /** The scopes after a statement: only a declaration enters a name, into a register of its own. */
  lemma {:induction false} ScopesAfter(c: Ctx, s: Stmt)
    requires CanLower(c)
    ensures LowerStmt(c, s).scopes == if s.Declare? then Bind(c.scopes, s.name, c.regCount) else c.scopes
    ensures NamesOf(LowerStmt(c, s).scopes) == NamesAfter(s, NamesOf(c.scopes))
  {
    hide Local, IfResult, WhileResult, Extends, Open;
    match s
    case If(cond, body) =>
      var c1, v, inner, r := IfSteps(c, cond, body);
    case While(cond, body) =>
      var h, inner, k, l, v, r := WhileSteps(c, cond, body);
    case Declare(x, e) =>
      NamesOfBind(c.scopes, x, c.regCount);
    case _ =>
  }

  // ---------------------------------------------------------------- variables and their registers

  predicate Has(scopes: Scopes<nat>, i: nat, x: string) {
    i < |scopes| && x in scopes[i]
  }

  lemma {:induction false} KnowsInit(scopes: Scopes<nat>, x: string)
    requires scopes != [] && Knows(NamesOf(scopes), x) && x !in scopes[|scopes|-1]
    ensures Knows(NamesOf(scopes[..|scopes|-1]), x)
  {
    var i :| 0 <= i < |scopes| && x in NamesOf(scopes)[i];
    assert x in NamesOf(scopes[..|scopes|-1])[i];
  }

  /** The register found for a known name belongs to a variable in scope. */
  lemma {:induction false} FoundIn(scopes: Scopes<nat>, x: string) returns (i: nat)
    requires Knows(NamesOf(scopes), x)
    ensures Has(scopes, i, x) && Find(scopes, x, 0) == scopes[i][x]
  {
    i := |scopes| - 1;
    if x !in scopes[i] {
      KnowsInit(scopes, x);
      i := FoundIn(scopes[..i], x);
    }
  }
}
