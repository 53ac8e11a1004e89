/** Initialisers that read the variable they initialise: exactly they put a load on some walk in front of every
    assign to its register, and in a loop such a load finds what an earlier round has left there. */
module SelfInits {
  import opened Graphs
  import opened IR
  import opened SsaSpec
  import opened Lowering
  import opened LoweringShape
  import opened LoweringSteps
  import opened LoweredGraph
  import opened LoadCover
  import opened LoweringForm

  // ---------------------------------------------------------------- registers in use

  ghost predicate AssignsBelow(insts: seq<Inst>, n: nat) {
    forall k :: 0 <= k < |insts| && insts[k].Assign? ==> insts[k].reg < n
  }

  /** No register from the counter on has been handed out or assigned. */
  ghost predicate RegsBelow(c: Ctx) {
    && (forall b :: 0 <= b < |c.code| ==> AssignsBelow(c.code[b], c.regCount))
    && (forall i, x :: 0 <= i < |c.scopes| && x in c.scopes[i] ==> c.scopes[i][x] < c.regCount)
  }

  /** From position from on there is no assign. */
  ghost predicate NoAssigns(insts: seq<Inst>, from: nat) {
    forall k :: from <= k < |insts| ==> !insts[k].Assign?
  }

  lemma {:induction false} ExprNoAssigns(c: Ctx, e: Expr)
    requires c.Valid()
    ensures NoAssigns(LowerExpr(c, e).0.code[c.block], End(c))
    decreases e
  {
    if e.BinaryExp? {
      var c1 := LowerExpr(c, e.left).0;
      var c2 := LowerExpr(c1, e.right).0;
      ExprNoAssigns(c, e.left);
      ExprNoAssigns(c1, e.right);
      ExprAppended(c, e.left);
      ExprAppended(c1, e.right);
      assert forall k :: 0 <= k < End(c1) ==> c2.code[c.block][k] == c1.code[c.block][k];
    }
  }

  lemma {:induction false} AssignRegs(c: Ctx, x: string, e: Expr)
    requires c.Valid() && RegsBelow(c) && Knows(NamesOf(c.scopes), x)
    ensures RegsBelow(LowerAssign(c, x, e)) && LowerAssign(c, x, e).regCount == c.regCount
  {
    var c1 := LowerExpr(c, e).0;
    var r := LowerAssign(c, x, e);
    ExprNoAssigns(c, e);
    ExprAppended(c, e);
    ExprKeepsRegs(c, e);
    var i := FoundIn(c.scopes, x);
    assert r.code == c1.code[c.block := r.code[c.block]];
    assert AssignsBelow(c.code[c.block], c.regCount);
    assert AssignsBelow(r.code[c.block], c.regCount);
  }

  lemma {:induction false} NewRegBelow(c: Ctx, x: string)
    requires c.Valid() && c.scopes != [] && RegsBelow(c)
    ensures RegsBelow(NewReg(c, x)) && Knows(NamesOf(NewReg(c, x).scopes), x)
  {
    var n := NewReg(c, x);
    forall b | 0 <= b < |c.code|
      ensures AssignsBelow(c.code[b], n.regCount)
    {
      assert AssignsBelow(c.code[b], c.regCount);
    }
    forall i, y | 0 <= i < |n.scopes| && y in n.scopes[i]
      ensures n.scopes[i][y] < n.regCount
    {
      if i < |c.scopes| - 1 {
        assert n.scopes[..|n.scopes|-1][i] == c.scopes[..|c.scopes|-1][i];
      }
    }
    assert x in NamesOf(n.scopes)[|n.scopes|-1];
  }

  lemma {:induction false} EnterRegs(c: Ctx)
    requires c.Valid() && RegsBelow(c)
    ensures RegsBelow(EnterBlock(c))
  {
    var e := EnterBlock(c);
    forall b | 0 <= b < |e.code|
      ensures AssignsBelow(e.code[b], e.regCount)
    {
      if b < |c.code| {
        assert AssignsBelow(c.code[b], c.regCount);
      }
    }
  }

  lemma {:induction false} BelowMore(insts: seq<Inst>, n: nat, m: nat)
    requires AssignsBelow(insts, n) && n <= m
    ensures AssignsBelow(insts, m)
  {
  }

  lemma {:induction false} IfRegs(c: Ctx, c1: Ctx, v: Value, inner: Ctx, r: Ctx)
    requires c1.Valid() && RegsBelow(c) && RegsBelow(c1) && RegsBelow(inner)
    requires c.regCount <= c1.regCount <= inner.regCount == r.regCount && r.scopes == c.scopes
    requires Local(EnterBlock(c1), inner) && IfResult(c1, inner, r, v)
    ensures RegsBelow(r)
  {
    forall b | 0 <= b < |r.code|
      ensures AssignsBelow(r.code[b], r.regCount)
    {
      if b == c1.block {
        BelowMore(c1.code[b], c1.regCount, r.regCount);
      } else if b < |inner.code| {
        assert AssignsBelow(inner.code[b], inner.regCount);
      }
    }
  }

  lemma {:induction false} WhileRegs(c: Ctx, inner: Ctx, k: Ctx, l: Ctx, v: Value, r: Ctx)
    requires c.Valid() && RegsBelow(c) && RegsBelow(inner) && c.regCount <= inner.regCount == r.regCount && r.scopes == c.scopes
    requires k.Valid() && l.Valid() && k.block == |c.code| < |l.code| && NoAssigns(l.code[|c.code|], 0)
    requires Local(EnterBlock(WhileHead(c)), inner) && WhileResult(c, inner, r, l.code[|c.code|], v)
    ensures RegsBelow(r)
  {
    forall b | 0 <= b < |r.code|
      ensures AssignsBelow(r.code[b], r.regCount)
    {
      if b == c.block {
        BelowMore(c.code[b], c.regCount, r.regCount);
      } else if b < |inner.code| && b != |c.code| {
        assert AssignsBelow(inner.code[b], inner.regCount);
      }
    }
  }

  lemma {:induction false} ExprRegs(c: Ctx, e: Expr)
    requires c.Valid() && RegsBelow(c)
    ensures RegsBelow(LowerExpr(c, e).0) && LowerExpr(c, e).0.regCount == c.regCount
  {
    var c1 := LowerExpr(c, e).0;
    ExprNoAssigns(c, e);
    ExprAppended(c, e);
    ExprKeepsRegs(c, e);
    forall b | 0 <= b < |c1.code|
      ensures AssignsBelow(c1.code[b], c.regCount)
    {
      assert AssignsBelow(c.code[b], c.regCount);
    }
  }

  lemma {:induction false} HeadRegs(c: Ctx)
    requires c.Valid() && RegsBelow(c)
    ensures RegsBelow(WhileHead(c)) && WhileHead(c).regCount == c.regCount
  {
    HeadResult(c);
    var h := WhileHead(c);
    forall b | 0 <= b < |h.code|
      ensures AssignsBelow(h.code[b], c.regCount)
    {
      if b < |c.code| {
        assert AssignsBelow(c.code[b], c.regCount);
      }
    }
  }

  lemma {:induction false} StmtRegs(c: Ctx, s: Stmt)
    requires CanLower(c) && RegsBelow(c) && Scoped(s, NamesOf(c.scopes))
    ensures RegsBelow(LowerStmt(c, s)) && c.regCount <= LowerStmt(c, s).regCount
    decreases s, 0
  {
    hide Local, Extends, LowerStmts, LowerExpr, RegsBelow, IfResult, WhileResult, Appended;
    match s
    case Declare(x, e) =>
      NewRegBelow(c, x);
      AssignRegs(NewReg(c, x), x, e);
    case Set(x, e) =>
      AssignRegs(c, x, e);
    case If(cond, body) =>
      var c1, v, inner, r := IfSteps(c, cond, body);
      ExprRegs(c, cond);
      EnterRegs(c1);
      NamesOfPush(c.scopes);
      EnterReady(c1);
      StmtsRegs(EnterBlock(c1), body);
      IfRegs(c, c1, v, inner, r);
    case While(cond, body) =>
      var h, inner, k, l, v, r := WhileSteps(c, cond, body);
      HeadRegs(c);
      EnterRegs(h);
      NamesOfPush(c.scopes);
      StmtsRegs(EnterBlock(h), body);
      ExprNoAssigns(k, cond);
      CondBlock(k, l);
      WhileRegs(c, inner, k, l, v, r);
    case ReturnStmt =>
      ReturnRegs(c);
  }

  lemma {:induction false} EnterReady(c: Ctx)
    requires CanLower(c)
    ensures CanLower(EnterBlock(c))
  {
  }

  lemma {:induction false} CondBlock(k: Ctx, l: Ctx)
    requires Appended(k, l)
    ensures k.Valid() && l.Valid() && k.block < |l.code| && l.block == k.block
  {
  }

  lemma {:induction false} ReturnRegs(c: Ctx)
    requires CanLower(c) && RegsBelow(c)
    ensures RegsBelow(LowerStmt(c, ReturnStmt)) && LowerStmt(c, ReturnStmt).regCount == c.regCount
  {
    assert AssignsBelow(c.code[c.block], c.regCount);
  }

  lemma {:induction false} StmtsRegs(c: Ctx, ss: seq<Stmt>)
    requires CanLower(c) && RegsBelow(c) && AllScoped(ss, NamesOf(c.scopes))
    ensures RegsBelow(LowerStmts(c, ss)) && c.regCount <= LowerStmts(c, ss).regCount
    decreases ss, 1
  {
    hide LowerStmt, RegsBelow, Scoped;
    if ss != [] {
      StmtReady(c, ss[0]);
      ScopesAfter(c, ss[0]);
      StmtRegs(c, ss[0]);
      StmtsRegs(LowerStmt(c, ss[0]), ss[1..]);
    }
  }

  // ---------------------------------------------------------------- a walk without later assigns

  /** In the final code f, block b has no assigns but those it already has. */
  ghost predicate NoMoreAssigns(f: Ctx, c: Ctx, b: nat) {
    b < |c.code| && b < |f.code| && NoAssigns(f.code[b], |c.code[b]|)
  }

  /** q is a walk to the current block, and the blocks on the way are done with assigns. */
  ghost predicate CleanWalk(f: Ctx, c: Ctx, q: seq<nat>) {
    && PathTo(CfgOf(f), q, c.block)
    && forall i :: 0 <= i < |q| - 1 ==> NoMoreAssigns(f, c, q[i])
  }

  lemma {:induction false} SameBlockWalk(f: Ctx, c: Ctx, c': Ctx, q: seq<nat>)
    requires Extends(c, c') && c'.block == c.block && CleanWalk(f, c, q)
    ensures CleanWalk(f, c', q)
  {
    forall i | 0 <= i < |q| - 1
      ensures NoMoreAssigns(f, c', q[i])
    {
      assert NoMoreAssigns(f, c, q[i]);
      ExtendsAt(c, c', q[i]);
    }
  }

  /** The walk goes on into a successor of a block that has got its terminator. */
  lemma {:induction false} LongerWalk(f: Ctx, c: Ctx, c': Ctx, q: seq<nat>)
    requires Extends(c, c') && CleanWalk(f, c, q) && NoMoreAssigns(f, c', c.block)
    requires c'.block < |f.code| && c'.block in Successors(f.code[c.block])
    ensures CleanWalk(f, c', q + [c'.block])
  {
    var p := q + [c'.block];
    PathSnoc(CfgOf(f), q, c.block, c'.block);
    forall i | 0 <= i < |p| - 1
      ensures NoMoreAssigns(f, c', p[i])
    {
      if i < |q| - 1 {
        assert NoMoreAssigns(f, c, q[i]);
        ExtendsAt(c, c', q[i]);
      }
    }
  }

  /** What stands behind a terminator at the end of a block stays as it is. */
  lemma {:induction false} BlockIsFinal(f: Ctx, r: Ctx, b: nat)
    requires Extends(r, f) && TerminatorsLast(f.code) && b < |r.code|
    requires |r.code[b]| > 0 && r.code[b][|r.code[b]|-1].IsTerminator()
    ensures b < |f.code| && f.code[b] == r.code[b]
  {
    ExtendsAt(r, f, b);
    assert TerminatorLast(f.code[b]);
    var k := |r.code[b]| - 1;
    assert f.code[b][k].IsTerminator();
  }

  lemma {:induction false} IfWalks(f: Ctx, c: Ctx, cond: Expr, body: seq<Stmt>, q: seq<nat>)
    requires CanLower(c) && Extends(LowerStmt(c, If(cond, body)), f) && TerminatorsLast(f.code) && CleanWalk(f, c, q)
    ensures var e := EnterBlock(LowerExpr(c, cond).0);
      CanLower(e) && Extends(LowerStmts(e, body), f) && CleanWalk(f, e, q + [e.block]) && e.scopes == c.scopes + [map[]]
    ensures var r := LowerStmt(c, If(cond, body)); CleanWalk(f, r, q + [r.block])
  {
    hide Local, Extends, LowerExpr, LowerStmt, LowerStmts, CleanWalk, TerminatorsLast;
    var c1, v, inner, r := IfSteps(c, cond, body);
    var e, b := EnterBlock(c1), c.block;
    EnterExtends(c1);
    AppendedExtends(c, c1);
    ExtendsTrans(c, c1, e);
    ExtendsTrans(e, inner, r);
    ExtendsTrans(inner, r, f);
    BlockIsFinal(f, r, b);
    LocalBlocks(e, inner);
    ExtendsSize(r, f);
    assert e.code[b] == c1.code[b];
    LongerWalk(f, c, e, q);
    ExtendsTrans(c, e, inner);
    ExtendsTrans(c, inner, r);
    LongerWalk(f, c, r, q);
  }

  lemma {:induction false} LocalBlocks(c: Ctx, c': Ctx)
    requires Local(c, c')
    ensures |c.code| <= |c'.code|
  {
  }

  lemma {:induction false} ExtendsSize(c: Ctx, c': Ctx)
    requires Extends(c, c')
    ensures |c.code| <= |c'.code|
  {
  }

  lemma {:induction false} WhileWalks(f: Ctx, c: Ctx, cond: Expr, body: seq<Stmt>, q: seq<nat>)
    requires CanLower(c) && Extends(LowerStmt(c, While(cond, body)), f) && TerminatorsLast(f.code) && CleanWalk(f, c, q)
    ensures var e := EnterBlock(WhileHead(c));
      && CanLower(e) && Extends(LowerStmts(e, body), f) && CleanWalk(f, e, q + [|c.code|] + [e.block])
      && e.scopes == c.scopes + [map[]]
    ensures var r := LowerStmt(c, While(cond, body)); CleanWalk(f, r, q + [|c.code|] + [r.block])
  {
    hide Local, Extends, LowerExpr, LowerStmt, LowerStmts, CleanWalk, TerminatorsLast;
    var h, inner, k, l, v, r := WhileSteps(c, cond, body);
    var e, b, head := EnterBlock(h), c.block, |c.code|;
    HeadExtends(c);
    EnterExtends(h);
    ExtendsTrans(c, h, e);
    ExtendsTrans(inner, r, f);
    BlockIsFinal(f, r, b);
    BlockIsFinal(f, r, head);
    LocalBlocks(e, inner);
    ExtendsSize(r, f);
    HeadResult(c);
    ExprNoAssigns(k, cond);
    CondBlock(k, l);
    var m := h.(block := head);
    ExtendsBlock(c, h, m);
    LongerWalk(f, c, m, q);
    ExtendsBlock(h, e, e);
    MovedExtends(h, m, e);
    LongerWalk(f, m, e, q + [head]);
    ExtendsTrans(e, inner, r);
    ExtendsTrans(h, e, r);
    MovedExtends(h, m, r);
    LongerWalk(f, m, r, q + [head]);
  }

  lemma {:induction false} ExtendsBlock(c: Ctx, h: Ctx, m: Ctx)
    requires Extends(c, h) && m.code == h.code && m.pred == h.pred
    ensures Extends(c, m)
  {
    forall b: nat | b < |c.code|
      ensures BlockExtends(c, m, b)
    {
      assert BlockExtends(c, h, b);
    }
  }

  lemma {:induction false} MovedExtends(h: Ctx, m: Ctx, e: Ctx)
    requires Extends(h, e) && m.code == h.code && m.pred == h.pred
    ensures Extends(m, e)
  {
    forall b: nat | b < |m.code|
      ensures BlockExtends(m, e, b)
    {
      assert BlockExtends(h, e, b);
    }
  }

  // ---------------------------------------------------------------- the load in front of the assigns

  /** An expression that names x has a load of its register. */
  lemma {:induction false} MentionedIsLoaded(c: Ctx, e: Expr, x: string) returns (k: nat)
    requires c.Valid() && Mentions(e, x)
    ensures var c1 := LowerExpr(c, e).0;
      End(c) <= k < End(c1) && c1.code[c.block][k] == Load(Find(c.scopes, x, 0))
    decreases e
  {
    match e
    case Variable(_) =>
      k := End(c);
    case BinaryExp(op, l, r) =>
      var c1 := LowerExpr(c, l).0;
      var c2 := LowerExpr(c1, r).0;
      ExprAppended(c, l);
      ExprAppended(c1, r);
      if Mentions(l, x) {
        k := MentionedIsLoaded(c, l, x);
        assert c2.code[c.block][k] == c1.code[c.block][k];
      } else {
        k := MentionedIsLoaded(c1, r, x);
      }
  }

  lemma {:induction false} DeclareUncovered(f: Ctx, c: Ctx, x: string, e: Expr, q: seq<nat>)
    requires CanLower(c) && RegsBelow(c) && Mentions(e, x)
    requires Extends(LowerStmt(c, Declare(x, e)), f) && CleanWalk(f, c, q) && Extends(c, f)
    ensures !LoadsCovered(f.code, CfgOf(f))
  {
    var n, b, r := NewReg(c, x), c.block, c.regCount;
    var c1 := LowerExpr(n, e).0;
    var k := MentionedIsLoaded(n, e, x);
    assert Find(n.scopes, x, 0) == r;
    ExprNoAssigns(n, e);
    ExprAppended(n, e);
    ExtendsAt(LowerStmt(c, Declare(x, e)), f, b);
    assert forall j :: 0 <= j < End(c1) ==> f.code[b][j] == c1.code[b][j];
    assert !AssignedBy(f.code[b], k, r) by {
      assert AssignsBelow(c.code[b], r);
    }
    forall i | 0 <= i < |q| - 1
      ensures !AssignsReg(f.code, q[i], r)
    {
      assert NoMoreAssigns(f, c, q[i]);
      ExtendsAt(c, f, q[i]);
      assert AssignsBelow(c.code[q[i]], r);
    }
    assert !AssignedOn(f.code, q, k, r);
    assert f.code[b][k].Load?;
  }

  lemma {:induction false} NextState(f: Ctx, c: Ctx, s: Stmt, q: seq<nat>) returns (q': seq<nat>)
    requires CanLower(c) && RegsBelow(c) && Scoped(s, NamesOf(c.scopes)) && !s.ReturnStmt?
    requires Extends(LowerStmt(c, s), f) && TerminatorsLast(f.code) && CleanWalk(f, c, q)
    ensures CanLower(LowerStmt(c, s)) && RegsBelow(LowerStmt(c, s)) && CleanWalk(f, LowerStmt(c, s), q')
    ensures NamesOf(LowerStmt(c, s).scopes) == NamesAfter(s, NamesOf(c.scopes))
  {
    hide Local, Extends, RegsBelow, Scoped, CleanWalk, TerminatorsLast, LowerStmt;
    var r := LowerStmt(c, s);
    StmtReady(c, s);
    StmtRegs(c, s);
    ScopesAfter(c, s);
    match s
    case If(cond, body) =>
      IfWalks(f, c, cond, body, q);
      q' := q + [r.block];
    case While(cond, body) =>
      WhileWalks(f, c, cond, body, q);
      q' := q + [|c.code|] + [r.block];
    case _ =>
      SimpleStays(c, s);
      SameBlockWalk(f, c, r, q);
      q' := q;
  }

  lemma {:induction false} StmtUncovered(f: Ctx, c: Ctx, s: Stmt, q: seq<nat>)
    requires CanLower(c) && RegsBelow(c) && Scoped(s, NamesOf(c.scopes)) && ProperStmt(s) && !NoSelfInit(s)
    requires Extends(LowerStmt(c, s), f) && TerminatorsLast(f.code) && CleanWalk(f, c, q)
    ensures !LoadsCovered(f.code, CfgOf(f))
    decreases s, 0
  {
    hide Local, Extends, RegsBelow, CleanWalk, TerminatorsLast, LowerStmt, LowerStmts, LowerExpr, LoadsCovered;
    StmtReady(c, s);
    ExtendsTrans(c, LowerStmt(c, s), f);
    match s
    case Declare(x, e) =>
      DeclareUncovered(f, c, x, e, q);
    case If(cond, body) =>
      IfWalks(f, c, cond, body, q);
      var c1 := LowerExpr(c, cond).0;
      ExprRegs(c, cond);
      CondValid(c, cond);
      EnterRegs(c1);
      NamesOfPush(c.scopes);
      StmtsUncovered(f, EnterBlock(c1), body, q + [EnterBlock(c1).block]);
    case While(cond, body) =>
      WhileWalks(f, c, cond, body, q);
      HeadRegs(c);
      EnterRegs(WhileHead(c));
      NamesOfPush(c.scopes);
      StraightStays(EnterBlock(WhileHead(c)), body);
      StmtsUncovered(f, EnterBlock(WhileHead(c)), body, q + [|c.code|] + [EnterBlock(WhileHead(c)).block]);
  }

  lemma {:induction false} CondValid(c: Ctx, cond: Expr)
    requires c.Valid()
    ensures LowerExpr(c, cond).0.Valid()
  {
  }

  lemma {:induction false} StmtsUncovered(f: Ctx, c: Ctx, ss: seq<Stmt>, q: seq<nat>)
    requires CanLower(c) && RegsBelow(c) && AllScoped(ss, NamesOf(c.scopes)) && ProperStmts(ss) && !NoSelfInits(ss)
    requires Extends(LowerStmts(c, ss), f) && TerminatorsLast(f.code) && CleanWalk(f, c, q)
    ensures !LoadsCovered(f.code, CfgOf(f))
    decreases ss, 1
  {
    hide Local, Extends, RegsBelow, CleanWalk, TerminatorsLast, LowerStmt, LoadsCovered, Scoped, ProperStmt, NoSelfInit;
    var c1 := LowerStmt(c, ss[0]);
    StmtReady(c, ss[0]);
    StmtsReady(c1, ss[1..]);
    ExtendsTrans(c1, LowerStmts(c, ss), f);
    if NoSelfInit(ss[0]) {
      assert !ss[0].ReturnStmt? by { ReturnIsNotProper(ss[0]); }
      var q' := NextState(f, c, ss[0], q);
      StmtsUncovered(f, c1, ss[1..], q');
    } else {
      StmtUncovered(f, c, ss[0], q);
    }
  }

  lemma {:induction false} ReturnIsNotProper(s: Stmt)
    requires ProperStmt(s)
    ensures !s.ReturnStmt?
  {
  }

  /** The same for the body of a function, which may end in a return. */
  lemma {:induction false} BodyUncovered(f: Ctx, c: Ctx, ss: seq<Stmt>, q: seq<nat>)
    requires CanLower(c) && RegsBelow(c) && AllScoped(ss, NamesOf(c.scopes)) && Proper(ss) && !NoSelfInits(ss)
    requires Extends(LowerStmts(c, ss), f) && TerminatorsLast(f.code) && CleanWalk(f, c, q)
    ensures !LoadsCovered(f.code, CfgOf(f))
    decreases ss
  {
    hide Local, Extends, RegsBelow, CleanWalk, TerminatorsLast, LowerStmt, LoadsCovered, Scoped;
    assert !(|ss| == 1 && ss[0].ReturnStmt?) by {
      if |ss| == 1 && ss[0].ReturnStmt? { assert ss[1..] == [] && NoSelfInits([]); }
    }
    var c1 := LowerStmt(c, ss[0]);
    StmtReady(c, ss[0]);
    StmtsReady(c1, ss[1..]);
    ExtendsTrans(c1, LowerStmts(c, ss), f);
    if NoSelfInit(ss[0]) {
      var q' := NextState(f, c, ss[0], q);
      BodyUncovered(f, c1, ss[1..], q');
    } else {
      StmtUncovered(f, c, ss[0], q);
    }
  }

  /** Exactly the initialisers that read their own variable leave a load uncovered. */
  lemma {:induction false} CoveredIffNoSelfInits(body: seq<Stmt>)
    requires AllScoped(body, [{}]) && Proper(body)
    ensures LoadsCovered(LowerFunction(body).code, CfgOf(LowerFunction(body))) <==> NoSelfInits(body)
    ensures LoadsDominated(LowerFunction(body).code, CfgOf(LowerFunction(body))) <==> NoSelfInits(body)
  {
    hide Local, Built, Extends, AllScoped, Proper, NoSelfInits, LowerStmts, LowerFunction, LoadsCovered, LoadsDominated, CfgOf;
    var f, dead := BodyBuilt(body);
    if NoSelfInits(body) {
      LoweredLoadsDominated(body);
    } else {
      TerminatorsLastIffProper(body);
      StartIsReady();
      StmtsReady(START, body);
      SelfExtends(f);
      StartWalk(f);
      BodyUncovered(f, START, body, [0]);
    }
    if LoadsDominated(f.code, CfgOf(f)) {
      DominatedIsCovered(f.code, CfgOf(f));
    }
  }

  lemma {:induction false} StartIsReady()
    ensures CanLower(START) && RegsBelow(START) && NamesOf(START.scopes) == [{}]
  {
    NamesOfPush<nat>([]);
    assert [] + [map[]] == START.scopes;
  }

  lemma {:induction false} StartWalk(f: Ctx)
    requires Extends(START, f)
    ensures CleanWalk(f, START, [0])
  {
    ExtendsAt(START, f, 0);
    assert PathTo(CfgOf(f), [0], 0);
  }
}
