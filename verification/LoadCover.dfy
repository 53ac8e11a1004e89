/** Loads in lowered code: when no initialiser names its own variable, every load is preceded by an assign
    to its register on every path. */
module LoadCover {
  import opened Graphs
  import opened IR
  import opened SsaSpec
  import opened Lowering
  import opened LoweringShape
  import opened LoweringSteps
  import opened LoweredGraph

  /** Register r is assigned before instruction k of block b, in b itself or in a block on its chain. */
  ghost predicate CoveredAt(f: Ctx, b: nat, k: nat, r: nat) {
    && b < |f.code|
    && (AssignedBy(f.code[b], k, r) || exists d: nat :: d != b && Chain(f.pred, b, d) && AssignsReg(f.code, d, r))
  }

  lemma {:induction false} ChainDown(pred: seq<seq<nat>>, p: nat, a: nat)
    requires Chain(pred, p, a)
    ensures a <= p
    decreases p
  {
    if a != p {
      ChainDown(pred, pred[p][0], a);
    }
  }

  /** What is covered stays covered further on. */
  lemma {:induction false} Onward(f: Ctx, a: nat, k: nat, b: nat, j: nat, r: nat)
    requires CoveredAt(f, a, k, r) && Chain(f.pred, b, a) && b < |f.code| && (b == a ==> k <= j)
    ensures CoveredAt(f, b, j, r)
  {
    if AssignedBy(f.code[a], k, r) {
      if b != a {
        assert AssignsReg(f.code, a, r);
      }
    } else {
      var d: nat :| d != a && Chain(f.pred, a, d) && AssignsReg(f.code, d, r);
      ChainDown(f.pred, a, d);
      ChainDown(f.pred, b, a);
      ChainTransitive(f.pred, b, a, d);
    }
  }

  /** All registers of the scopes are assigned before the point. */
  ghost predicate ScopesCovered(f: Ctx, scopes: Scopes<nat>, b: nat, k: nat) {
    forall i, x :: 0 <= i < |scopes| && x in scopes[i] ==> CoveredAt(f, b, k, scopes[i][x])
  }

  lemma {:induction false} ScopesOnward(f: Ctx, scopes: Scopes<nat>, a: nat, k: nat, b: nat, j: nat)
    requires ScopesCovered(f, scopes, a, k) && Chain(f.pred, b, a) && b < |f.code| && (b == a ==> k <= j)
    ensures ScopesCovered(f, scopes, b, j)
  {
    forall i, x | 0 <= i < |scopes| && x in scopes[i]
      ensures CoveredAt(f, b, j, scopes[i][x])
    {
      Onward(f, a, k, b, j, scopes[i][x]);
    }
  }

  /** The registers an expression reads are assigned before the point. */
  ghost predicate ReadsCovered(f: Ctx, scopes: Scopes<nat>, e: Expr, b: nat, k: nat) {
    match e
    case Number(_) => true
    case Variable(x) => CoveredAt(f, b, k, Find(scopes, x, 0))
    case BinaryExp(_, l, r) => ReadsCovered(f, scopes, l, b, k) && ReadsCovered(f, scopes, r, b, k)
  }

  lemma {:induction false} ReadsFromScopes(f: Ctx, scopes: Scopes<nat>, e: Expr, b: nat, k: nat)
    requires ScopesCovered(f, scopes, b, k) && ExprScoped(e, NamesOf(scopes))
    ensures ReadsCovered(f, scopes, e, b, k)
  {
    match e
    case Number(_) =>
    case Variable(x) =>
      var i := FoundIn(scopes, x);
      assert CoveredAt(f, b, k, scopes[i][x]);
    case BinaryExp(_, l, r) =>
      ReadsFromScopes(f, scopes, l, b, k);
      ReadsFromScopes(f, scopes, r, b, k);
  }

  /** A freshly declared name hides nothing an expression without it reads. */
  lemma {:induction false} ReadsUnderBind(f: Ctx, scopes: Scopes<nat>, x: string, n: nat, e: Expr, b: nat, k: nat)
    requires scopes != [] && ScopesCovered(f, scopes, b, k)
    requires ExprScoped(e, AddName(NamesOf(scopes), x)) && !Mentions(e, x)
    ensures ReadsCovered(f, Bind(scopes, x, n), e, b, k)
  {
    match e
    case Number(_) =>
    case Variable(y) =>
      assert Knows(NamesOf(scopes), y) by {
        var i :| 0 <= i < |scopes| && y in AddName(NamesOf(scopes), x)[i];
        assert y in NamesOf(scopes)[i];
      }
      var j := FoundIn(scopes, y);
      assert CoveredAt(f, b, k, scopes[j][y]);
      var s := Bind(scopes, x, n);
      assert s[..|s|-1] == scopes[..|scopes|-1];
    case BinaryExp(_, l, r) =>
      ReadsUnderBind(f, scopes, x, n, l, b, k);
      ReadsUnderBind(f, scopes, x, n, r, b, k);
  }

  // ---------------------------------------------------------------- the loads that lowering adds

  /** The loads of block b from position from on. */
  ghost predicate LoadsFrom(f: Ctx, insts: seq<Inst>, b: nat, from: nat) {
    forall k: nat :: from <= k < |insts| && insts[k].Load? ==> CoveredAt(f, b, k, insts[k].reg)
  }

  ghost predicate NewLoads(f: Ctx, c: Ctx, c': Ctx)
    requires Extends(c, c')
  {
    forall b: nat :: b < |c'.code| ==> LoadsFrom(f, c'.code[b], b, if b < |c.code| then |c.code[b]| else 0)
  }

  lemma {:induction false} NewLoadsTrans(f: Ctx, c: Ctx, c1: Ctx, c2: Ctx)
    requires Extends(c, c1) && Extends(c1, c2) && NewLoads(f, c, c1) && NewLoads(f, c1, c2)
    ensures Extends(c, c2) && NewLoads(f, c, c2)
  {
    ExtendsTrans(c, c1, c2);
    forall b: nat | b < |c2.code|
      ensures LoadsFrom(f, c2.code[b], b, if b < |c.code| then |c.code[b]| else 0)
    {
      assert LoadsFrom(f, c2.code[b], b, if b < |c1.code| then |c1.code[b]| else 0);
      if b < |c1.code| {
        ExtendsAt(c1, c2, b);
        assert LoadsFrom(f, c1.code[b], b, if b < |c.code| then |c.code[b]| else 0);
        assert forall k :: 0 <= k < |c1.code[b]| ==> c2.code[b][k] == c1.code[b][k];
      }
    }
  }

  /** Nothing but jumps and other instructions without a load were added. */
  ghost predicate NoLoads(c: Ctx, c': Ctx)
    requires Extends(c, c')
  {
    forall b: nat, k: nat :: b < |c'.code| && (if b < |c.code| then |c.code[b]| else 0) <= k < |c'.code[b]|
      ==> !c'.code[b][k].Load?
  }

  lemma {:induction false} NoLoadsIsFine(f: Ctx, c: Ctx, c': Ctx)
    requires Extends(c, c') && NoLoads(c, c')
    ensures NewLoads(f, c, c')
  {
  }

  lemma {:induction false} ExprLoads(f: Ctx, c: Ctx, e: Expr, k: nat)
    requires c.Valid() && Extends(LowerExpr(c, e).0, f)
    requires k <= End(c) && ReadsCovered(f, c.scopes, e, c.block, k)
    ensures Extends(c, LowerExpr(c, e).0) && NewLoads(f, c, LowerExpr(c, e).0)
    decreases e
  {
    var c' := LowerExpr(c, e).0;
    ExprAppended(c, e);
    AppendedExtends(c, c');
    match e
    case Number(_) =>
    case Variable(x) =>
      ExtendsAt(c', f, c.block);
      Onward(f, c.block, k, c.block, End(c), Find(c.scopes, x, 0));
    case BinaryExp(op, l, r) =>
      var c1 := LowerExpr(c, l).0;
      var c2 := LowerExpr(c1, r).0;
      ExprAppended(c, l);
      ExprAppended(c1, r);
      AppendedExtends(c1, c2);
      assert Extends(c2, c');
      ExtendsTrans(c2, c', f);
      ExtendsTrans(c1, c2, f);
      ExprLoads(f, c, l, k);
      ExprLoads(f, c1, r, k);
      NewLoadsTrans(f, c, c1, c2);
      NoLoadsIsFine(f, c2, c');
      NewLoadsTrans(f, c, c2, c');
  }

  lemma {:induction false} AssignLoads(f: Ctx, c: Ctx, x: string, e: Expr, k: nat)
    requires c.Valid() && Extends(LowerAssign(c, x, e), f)
    requires k <= End(c) && ReadsCovered(f, c.scopes, e, c.block, k)
    ensures var r := LowerAssign(c, x, e);
      Extends(c, r) && NewLoads(f, c, r) && CoveredAt(f, c.block, End(r), Find(c.scopes, x, 0))
  {
    var c1 := LowerExpr(c, e).0;
    var r := LowerAssign(c, x, e);
    ExprAppended(c, e);
    assert Extends(c1, r);
    ExtendsTrans(c1, r, f);
    ExprLoads(f, c, e, k);
    NoLoadsIsFine(f, c1, r);
    NewLoadsTrans(f, c, c1, r);
    ExtendsAt(r, f, c.block);
    assert f.code[c.block][End(c1)].Assign?;
  }

  /** What a statement has to establish in the final code f. */
  ghost predicate LoadsFine(f: Ctx, c: Ctx, c': Ctx) {
    && Extends(c, c') && NewLoads(f, c, c')
    && c'.Valid() && ScopesCovered(f, c'.scopes, c'.block, End(c'))
  }

  lemma {:induction false} DeclareLoads(f: Ctx, c: Ctx, x: string, e: Expr)
    requires CanLower(c) && Extends(LowerStmt(c, Declare(x, e)), f)
    requires ScopesCovered(f, c.scopes, c.block, End(c))
    requires Scoped(Declare(x, e), NamesOf(c.scopes)) && !Mentions(e, x)
    ensures LoadsFine(f, c, LowerStmt(c, Declare(x, e)))
  {
    var n := NewReg(c, x);
    var r := LowerStmt(c, Declare(x, e));
    ExtendsAt(r, f, c.block);
    ReadsUnderBind(f, c.scopes, x, c.regCount, e, c.block, End(c));
    AssignLoads(f, n, x, e, End(c));
    AssignAppended(n, x, e);
    RegAppended(c, x, r);
    AppendedExtends(c, r);
    assert NewLoads(f, c, r);
    forall i, y | 0 <= i < |r.scopes| && y in r.scopes[i]
      ensures CoveredAt(f, r.block, End(r), r.scopes[i][y])
    {
      if i == |c.scopes| - 1 && y == x {
        assert Find(n.scopes, x, 0) == c.regCount;
      } else {
        assert i < |c.scopes| - 1 ==> r.scopes[..|r.scopes|-1][i] == c.scopes[..|c.scopes|-1][i];
        Onward(f, c.block, End(c), c.block, End(r), r.scopes[i][y]);
      }
    }
  }

  lemma {:induction false} SetLoads(f: Ctx, c: Ctx, x: string, e: Expr)
    requires CanLower(c) && Extends(LowerStmt(c, Set(x, e)), f)
    requires ScopesCovered(f, c.scopes, c.block, End(c))
    requires ExprScoped(e, NamesOf(c.scopes))
    ensures LoadsFine(f, c, LowerStmt(c, Set(x, e)))
  {
    var r := LowerStmt(c, Set(x, e));
    ExtendsAt(r, f, c.block);
    ReadsFromScopes(f, c.scopes, e, c.block, End(c));
    AssignLoads(f, c, x, e, End(c));
    AssignAppended(c, x, e);
    ScopesOnward(f, c.scopes, c.block, End(c), c.block, End(r));
  }

  lemma {:induction false} FirstOnChain(c: Ctx, f: Ctx, b: nat, p: nat)
    requires Extends(c, f) && b < |c.code| && |c.pred[b]| > 0 && c.pred[b][0] == p < b
    ensures Chain(f.pred, b, p)
  {
    ExtendsAt(c, f, b);
    assert Chain(f.pred, p, p);
  }

  lemma {:induction false} EnterNoLoads(c: Ctx)
    requires c.Valid() && Extends(c, EnterBlock(c))
    ensures NoLoads(c, EnterBlock(c))
  {
  }

  lemma {:induction false} IfNoLoads(c: Ctx, inner: Ctx, r: Ctx, v: Value)
    requires c.Valid() && Local(EnterBlock(c), inner) && IfResult(c, inner, r, v) && Extends(inner, r)
    ensures NoLoads(inner, r)
  {
    assert inner.code[c.block] == EnterBlock(c).code[c.block];
  }

  lemma {:induction false} IfLoads(f: Ctx, c: Ctx, c1: Ctx, v: Value, inner: Ctx, r: Ctx)
    requires c.Valid() && c1.Valid() && Extends(c, c1) && Extends(c1, EnterBlock(c1)) && c1.block == c.block
    requires NewLoads(f, c, c1)
    requires Local(EnterBlock(c1), inner) && IfResult(c1, inner, r, v) && Extends(inner, r) && Extends(r, f)
    requires LoadsFine(f, EnterBlock(c1), inner) && End(r) == 0 && r.scopes == c.scopes
    requires ScopesCovered(f, c.scopes, c.block, End(c))
    ensures LoadsFine(f, c, r)
  {
    hide Local, Extends, NewLoads, LoadsFrom, Chain, CoveredAt;
    var e := EnterBlock(c1);
    EnterNoLoads(c1);
    NoLoadsIsFine(f, c1, e);
    NewLoadsTrans(f, c, c1, e);
    NewLoadsTrans(f, c, e, inner);
    IfNoLoads(c1, inner, r, v);
    NoLoadsIsFine(f, inner, r);
    NewLoadsTrans(f, c, inner, r);
    FirstOnChain(r, f, r.block, c.block);
    ExtendsAt(r, f, r.block);
    ScopesOnward(f, c.scopes, c.block, End(c), r.block, 0);
  }

  /** All loads that were added are among the first n instructions of block b. */
  ghost predicate OnlyLoadsOf(c: Ctx, c': Ctx, b: nat, n: nat) {
    forall x: nat, i: nat :: x < |c'.code| && (if x < |c.code| then |c.code[x]| else 0) <= i < |c'.code[x]| ==>
      c'.code[x][i].Load? ==> x == b && i < n
  }

  lemma {:induction false} WhileNoLoads(c: Ctx, inner: Ctx, k: Ctx, l: Ctx, r: Ctx, v: Value)
    requires k.Valid() && k.block == |c.code| && End(k) == 0 && Appended(k, l)
    requires c.Valid() && Local(EnterBlock(WhileHead(c)), inner) && WhileResult(c, inner, r, l.code[|c.code|], v)
    requires Extends(inner, r)
    ensures OnlyLoadsOf(inner, r, k.block, |l.code[k.block]|)
  {
    HeadResult(c);
    var e := EnterBlock(WhileHead(c));
    assert inner.code[c.block] == e.code[c.block];
  }

  lemma {:induction false} EnterScopesCovered(f: Ctx, scopes: Scopes<nat>, b: nat, k: nat)
    requires ScopesCovered(f, scopes, b, k)
    ensures ScopesCovered(f, scopes + [map[]], b, k)
  {
  }

  lemma {:induction false} HeadNoLoads(c: Ctx)
    requires c.Valid() && Extends(c, WhileHead(c))
    ensures NoLoads(c, WhileHead(c))
  {
    HeadResult(c);
  }

  lemma {:induction false} CondLoads(f: Ctx, inner: Ctx, k: Ctx, l: Ctx, r: Ctx)
    requires k.Valid() && l.Valid() && Extends(inner, r) && Extends(k, l) && Extends(l, r) && NewLoads(f, k, l)
    requires End(k) == 0
    requires OnlyLoadsOf(inner, r, k.block, |l.code[k.block]|)
    ensures NewLoads(f, inner, r)
  {
    var b := k.block;
    ExtendsAt(k, l, b);
    ExtendsAt(l, r, b);
    assert LoadsFrom(f, l.code[b], b, 0);
    assert forall i :: 0 <= i < |l.code[b]| ==> r.code[b][i] == l.code[b][i];
  }

  lemma {:induction false} WhileLoads(f: Ctx, c: Ctx, cond: Expr, h: Ctx, inner: Ctx, k: Ctx, l: Ctx, v: Value, r: Ctx)
    requires c.Valid() && h == WhileHead(c) && Extends(c, h) && Extends(h, EnterBlock(h))
    requires k.Valid() && k.block == |c.code| && End(k) == 0 && k.scopes == c.scopes && (l, v) == LowerExpr(k, cond)
    requires Local(EnterBlock(h), inner) && WhileResult(c, inner, r, l.code[|c.code|], v) && Extends(inner, r)
    requires Appended(k, l) && Extends(l, r) && Extends(r, f)
    requires LoadsFine(f, EnterBlock(h), inner) && End(r) == 0 && r.scopes == c.scopes
    requires ScopesCovered(f, c.scopes, c.block, End(c)) && ExprScoped(cond, NamesOf(c.scopes))
    ensures LoadsFine(f, c, r)
  {
    hide Local, Extends, NewLoads, LoadsFrom, Chain, CoveredAt, LowerExpr, Appended, ReadsCovered, ExprScoped;
    var e := EnterBlock(h);
    HeadNoLoads(c);
    NoLoadsIsFine(f, c, h);
    EnterNoLoads(h);
    NoLoadsIsFine(f, h, e);
    NewLoadsTrans(f, c, h, e);
    NewLoadsTrans(f, c, e, inner);
    FirstOnChain(r, f, k.block, c.block);
    ExtendsAt(r, f, k.block);
    ScopesOnward(f, c.scopes, c.block, End(c), k.block, 0);
    ReadsFromScopes(f, c.scopes, cond, k.block, 0);
    ExtendsTrans(l, r, f);
    ExprLoads(f, k, cond, 0);
    WhileNoLoads(c, inner, k, l, r, v);
    CondLoads(f, inner, k, l, r);
    NewLoadsTrans(f, c, inner, r);
    FirstOnChain(r, f, r.block, k.block);
    ExtendsAt(r, f, r.block);
    ScopesOnward(f, c.scopes, k.block, 0, r.block, 0);
  }

  lemma {:induction false} ReturnLoads(f: Ctx, c: Ctx)
    requires CanLower(c) && Extends(LowerStmt(c, ReturnStmt), f) && ScopesCovered(f, c.scopes, c.block, End(c))
    ensures LoadsFine(f, c, LowerStmt(c, ReturnStmt))
  {
    var r := LowerStmt(c, ReturnStmt);
    assert NoLoads(c, r);
    ExtendsAt(r, f, c.block);
    ScopesOnward(f, c.scopes, c.block, End(c), c.block, End(r));
  }

  lemma {:induction false} IfBodyCovered(f: Ctx, c: Ctx, cond: Expr, body: seq<Stmt>, c1: Ctx, v: Value, inner: Ctx, r: Ctx)
    requires CanLower(c) && (c1, v) == LowerExpr(c, cond) && Appended(c, c1) && CanLower(c1)
    requires Extends(EnterBlock(c1), inner) && Extends(inner, r) && Extends(r, f)
    requires Local(EnterBlock(c1), inner) && IfResult(c1, inner, r, v)
    requires ScopesCovered(f, c.scopes, c.block, End(c))
    requires ExprScoped(cond, NamesOf(c.scopes)) && AllScoped(body, NamesOf(c.scopes) + [{}])
    ensures Extends(c, c1) && Extends(c1, EnterBlock(c1)) && NewLoads(f, c, c1) && CanLower(EnterBlock(c1))
    ensures Extends(inner, f) && ScopesCovered(f, EnterBlock(c1).scopes, |c1.code|, 0) && c1.block == c.block
    ensures AllScoped(body, NamesOf(EnterBlock(c1).scopes)) && End(EnterBlock(c1)) == 0
  {
    hide Local, NewLoads, LoadsFrom, Chain, CoveredAt, ReadsCovered, ExprScoped, Extends, LowerExpr, Scoped, ScopesCovered;
    AppendedExtends(c, c1);
    EnterExtends(c1);
    ExtendsTrans(inner, r, f);
    ExtendsTrans(EnterBlock(c1), inner, f);
    ExtendsTrans(c1, EnterBlock(c1), f);
    ReadsFromScopes(f, c.scopes, cond, c.block, End(c));
    ExprLoads(f, c, cond, End(c));
    ExtendsAt(EnterBlock(c1), inner, |c1.code|);
    FirstOnChain(r, f, |c1.code|, c.block);
    ExtendsAt(r, f, |c1.code|);
    ScopesOnward(f, c.scopes, c.block, End(c), |c1.code|, 0);
    EnterScopesCovered(f, c.scopes, |c1.code|, 0);
    NamesOfPush(c.scopes);
  }

  lemma {:induction false} WhileBodyCovered(f: Ctx, c: Ctx, body: seq<Stmt>, h: Ctx, inner: Ctx, l: Ctx, v: Value, r: Ctx)
    requires CanLower(c) && h == WhileHead(c) && |l.code| > |c.code|
    requires Extends(EnterBlock(h), inner) && Extends(inner, r) && Extends(r, f)
    requires Local(EnterBlock(h), inner) && WhileResult(c, inner, r, l.code[|c.code|], v)
    requires ScopesCovered(f, c.scopes, c.block, End(c)) && AllScoped(body, NamesOf(c.scopes) + [{}])
    ensures Extends(c, h) && Extends(h, EnterBlock(h)) && CanLower(EnterBlock(h)) && Extends(inner, f)
    ensures ScopesCovered(f, EnterBlock(h).scopes, |c.code| + 1, 0)
    ensures AllScoped(body, NamesOf(EnterBlock(h).scopes)) && End(EnterBlock(h)) == 0
  {
    hide Local, NewLoads, LoadsFrom, Chain, CoveredAt, ReadsCovered, ExprScoped, Extends, LowerExpr, Scoped, ScopesCovered;
    HeadExtends(c);
    EnterExtends(h);
    ExtendsTrans(inner, r, f);
    ExtendsAt(EnterBlock(h), inner, |c.code| + 1);
    FirstOnChain(r, f, |c.code|, c.block);
    ExtendsAt(r, f, |c.code|);
    ScopesOnward(f, c.scopes, c.block, End(c), |c.code|, 0);
    FirstOnChain(r, f, |c.code| + 1, |c.code|);
    ExtendsAt(r, f, |c.code| + 1);
    ScopesOnward(f, c.scopes, |c.code|, 0, |c.code| + 1, 0);
    EnterScopesCovered(f, c.scopes, |c.code| + 1, 0);
    NamesOfPush(c.scopes);
  }

  /** The body of an if starts with the registers of its scopes assigned. */
  lemma {:induction false} IfBodyReady(f: Ctx, c: Ctx, cond: Expr, body: seq<Stmt>)
    requires CanLower(c) && Extends(LowerStmt(c, If(cond, body)), f) && ScopesCovered(f, c.scopes, c.block, End(c))
    requires Scoped(If(cond, body), NamesOf(c.scopes))
    ensures var e := EnterBlock(LowerExpr(c, cond).0);
      && CanLower(e) && Extends(LowerStmts(e, body), f) && ScopesCovered(f, e.scopes, e.block, End(e))
      && AllScoped(body, NamesOf(e.scopes))
  {
    hide Local, Extends, LowerExpr, LowerStmt, LowerStmts, ScopesCovered, NamesOf, NewLoads;
    var c1, v, inner, r := IfSteps(c, cond, body);
    IfBodyCovered(f, c, cond, body, c1, v, inner, r);
  }

  lemma {:induction false} IfStmtLoads(f: Ctx, c: Ctx, cond: Expr, body: seq<Stmt>)
    requires CanLower(c) && Extends(LowerStmt(c, If(cond, body)), f) && ScopesCovered(f, c.scopes, c.block, End(c))
    requires Scoped(If(cond, body), NamesOf(c.scopes))
    requires var e := EnterBlock(LowerExpr(c, cond).0); LoadsFine(f, e, LowerStmts(e, body))
    ensures LoadsFine(f, c, LowerStmt(c, If(cond, body)))
  {
    hide Local, Extends, LowerExpr, LowerStmt, LowerStmts, ScopesCovered, NamesOf, NewLoads, LoadsFine, IfResult;
    var c1, v, inner, r := IfSteps(c, cond, body);
    IfBodyCovered(f, c, cond, body, c1, v, inner, r);
    IfLoads(f, c, c1, v, inner, r);
  }

  /** So does the body of a while. */
  lemma {:induction false} WhileBodyReady(f: Ctx, c: Ctx, cond: Expr, body: seq<Stmt>)
    requires CanLower(c) && Extends(LowerStmt(c, While(cond, body)), f) && ScopesCovered(f, c.scopes, c.block, End(c))
    requires Scoped(While(cond, body), NamesOf(c.scopes))
    ensures var e := EnterBlock(WhileHead(c));
      && CanLower(e) && Extends(LowerStmts(e, body), f) && ScopesCovered(f, e.scopes, e.block, End(e))
      && AllScoped(body, NamesOf(e.scopes))
  {
    hide Local, Extends, LowerExpr, LowerStmt, LowerStmts, ScopesCovered, NamesOf, NewLoads, WhileResult;
    var h, inner, k, l, v, r := WhileSteps(c, cond, body);
    WhileBodyCovered(f, c, body, h, inner, l, v, r);
  }

  lemma {:induction false} WhileStmtLoads(f: Ctx, c: Ctx, cond: Expr, body: seq<Stmt>)
    requires CanLower(c) && Extends(LowerStmt(c, While(cond, body)), f) && ScopesCovered(f, c.scopes, c.block, End(c))
    requires Scoped(While(cond, body), NamesOf(c.scopes))
    requires var e := EnterBlock(WhileHead(c)); LoadsFine(f, e, LowerStmts(e, body))
    ensures LoadsFine(f, c, LowerStmt(c, While(cond, body)))
  {
    hide Local, Extends, LowerExpr, LowerStmt, LowerStmts, ScopesCovered, NamesOf, NewLoads, LoadsFine, WhileResult;
    var h, inner, k, l, v, r := WhileSteps(c, cond, body);
    WhileBodyCovered(f, c, body, h, inner, l, v, r);
    WhileLoads(f, c, cond, h, inner, k, l, v, r);
  }

  lemma {:induction false} StmtLoads(f: Ctx, c: Ctx, s: Stmt)
    requires CanLower(c) && Extends(LowerStmt(c, s), f) && ScopesCovered(f, c.scopes, c.block, End(c))
    requires Scoped(s, NamesOf(c.scopes)) && NoSelfInit(s)
    ensures LoadsFine(f, c, LowerStmt(c, s))
    decreases s, 0
  {
    hide Extends, LoadsFine, ScopesCovered, LowerStmt, LowerStmts, LowerExpr, NamesOf;
    match s
    case Declare(x, e) => DeclareLoads(f, c, x, e);
    case Set(x, e) => SetLoads(f, c, x, e);
    case If(cond, body) =>
      IfBodyReady(f, c, cond, body);
      StmtsLoads(f, EnterBlock(LowerExpr(c, cond).0), body);
      IfStmtLoads(f, c, cond, body);
    case While(cond, body) =>
      WhileBodyReady(f, c, cond, body);
      StmtsLoads(f, EnterBlock(WhileHead(c)), body);
      WhileStmtLoads(f, c, cond, body);
    case ReturnStmt =>
      ReturnLoads(f, c);
  }

  lemma {:induction false} StmtsLoads(f: Ctx, c: Ctx, ss: seq<Stmt>)
    requires CanLower(c) && Extends(LowerStmts(c, ss), f) && ScopesCovered(f, c.scopes, c.block, End(c))
    requires AllScoped(ss, NamesOf(c.scopes)) && NoSelfInits(ss)
    ensures LoadsFine(f, c, LowerStmts(c, ss))
    decreases ss, 1
  {
    hide Local, Extends, Chain, CoveredAt, LowerStmt, ScopesCovered, Scoped, NamesOf, NewLoads;
    if ss == [] {
      StmtsReady(c, ss);
      assert NewLoads(f, c, c) by { NothingNew(f, c); }
    } else {
      var c1 := LowerStmt(c, ss[0]);
      StmtReady(c, ss[0]);
      StmtsReady(c1, ss[1..]);
      ExtendsTrans(c1, LowerStmts(c, ss), f);
      StmtLoads(f, c, ss[0]);
      ScopesAfter(c, ss[0]);
      StmtsLoads(f, c1, ss[1..]);
      NewLoadsTrans(f, c, c1, LowerStmts(c, ss));
    }
  }

  lemma {:induction false} NothingNew(f: Ctx, c: Ctx)
    requires Extends(c, c)
    ensures NewLoads(f, c, c)
  {
  }

  // ---------------------------------------------------------------- the whole function

  /** A covered load has an assign to its register on every walk to it. */
  lemma {:induction false} CoveredOnWalk(c: Ctx, dead: set<nat>, p: seq<nat>, b: nat, k: nat, r: nat)
    requires Built(START, c, dead) && CoveredAt(c, b, k, r) && PathTo(CfgOf(c), p, b)
    ensures AssignedOn(c.code, p, k, r)
  {
    hide Built, CfgOf;
    if !AssignedBy(c.code[b], k, r) {
      var d: nat :| d != b && Chain(c.pred, b, d) && AssignsReg(c.code, d, r);
      ChainIsOnWalk(c, dead, p, b, d);
      var i :| 0 <= i < |p| && p[i] == d;
      assert i < |p| - 1;
    }
  }

  /** What lowering a whole body establishes about loads and, where it ends, about its variables. */
  lemma {:induction false} BodyCovered(body: seq<Stmt>)
    requires AllScoped(body, [{}]) && NoSelfInits(body)
    ensures var c := LowerStmts(START, body);
      && c.Valid()
      && (forall b: nat :: b < |c.code| ==> LoadsFrom(c, c.code[b], b, 0))
      && (forall i: nat, x :: i < |c.scopes| && x in c.scopes[i] ==> CoveredAt(c, c.block, End(c), c.scopes[i][x]))
  {
    hide Local, Extends, CoveredAt, AllScoped, LowerStmts;
    var c := LowerStmts(START, body);
    assert NamesOf(START.scopes) == [{}] by { NamesOfPush<nat>([]); assert [] + [map[]] == START.scopes; }
    StmtsReady(START, body);
    SelfExtends(c);
    StmtsLoads(c, START, body);
    forall b: nat | b < |c.code|
      ensures LoadsFrom(c, c.code[b], b, 0)
    {
      assert LoadsFrom(c, c.code[b], b, if b < |START.code| then |START.code[b]| else 0);
    }
  }

  /** In lowered code every load is dominated by an assign to its register. */
  lemma {:induction false} LoweredLoadsDominated(body: seq<Stmt>)
    requires AllScoped(body, [{}]) && NoSelfInits(body)
    ensures LoadsDominated(LowerFunction(body).code, CfgOf(LowerFunction(body)))
  {
    hide Built, Extends, AllScoped, LowerStmts, LowerFunction, CfgOf, Dominates;
    var c, dead := BodyBuilt(body);
    BodyCovered(body);
    forall b: nat, k: nat | b < |c.code| && k < |c.code[b]| && c.code[b][k].Load?
      ensures AssignDominates(c.code, CfgOf(c), b, k, c.code[b][k].reg)
    {
      assert LoadsFrom(c, c.code[b], b, 0);
      var r := c.code[b][k].reg;
      if !AssignedBy(c.code[b], k, r) {
        var d: nat :| d != b && Chain(c.pred, b, d) && AssignsReg(c.code, d, r);
        ChainDominates(c, dead, b, d);
      }
    }
  }

  lemma {:induction false} ChainDominates(c: Ctx, dead: set<nat>, b: nat, d: nat)
    requires Built(START, c, dead) && Chain(c.pred, b, d)
    ensures Dominates(CfgOf(c), d, b)
  {
    forall p | PathTo(CfgOf(c), p, b)
      ensures d in p
    {
      ChainIsOnWalk(c, dead, p, b, d);
    }
  }

  lemma {:induction false} SelfExtends(c: Ctx)
    requires c.Valid()
    ensures Extends(c, c)
  {
  }
}
