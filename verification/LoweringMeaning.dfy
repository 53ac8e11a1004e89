/** Lowering preserves meaning: the lowered blocks stop exactly when the source program terminates, with the
    same values in its variables. */
module LoweringMeaning {
  import opened IR
  import opened Lowering
  import opened LoweringShape
  import opened LoweringSteps
  import opened LoweredGraph
  import opened LoweringForm
  import opened SourceMeaning

  // ---------------------------------------------------------------- variables and registers

  /** Every variable in scope has a register of its own, below n. */
  ghost predicate OwnRegs(scopes: Scopes<nat>, n: nat) {
    && (forall i: nat, x :: Has(scopes, i, x) ==> scopes[i][x] < n)
    && (forall i: nat, x, j: nat, y :: Has(scopes, i, x) && Has(scopes, j, y) ==>
         scopes[i][x] == scopes[j][y] ==> i == j && x == y)
  }

  ghost predicate HoldsAt(env: Env, scopes: Scopes<nat>, regs: map<nat, int>, i: nat)
    requires i < |env| == |scopes|
  {
    && env[i].Keys == scopes[i].Keys
    && forall x :: x in env[i] ==> scopes[i][x] in regs && regs[scopes[i][x]] == env[i][x]
  }

  /** The registers hold the values of the variables. */
  ghost predicate Agree(env: Env, scopes: Scopes<nat>, regs: map<nat, int>) {
    |env| == |scopes| && forall i: nat :: i < |env| ==> HoldsAt(env, scopes, regs, i)
  }

  /** The variables an expression reads have their values in their registers. */
  ghost predicate ReadsAgree(e: Expr, env: Env, scopes: Scopes<nat>, regs: map<nat, int>) {
    match e
    case Number(_) => true
    case Variable(x) => Find(scopes, x, 0) in regs && regs[Find(scopes, x, 0)] == Find(env, x, 0)
    case BinaryExp(_, l, r) => ReadsAgree(l, env, scopes, regs) && ReadsAgree(r, env, scopes, regs)
  }

  lemma {:induction false} AgreeInit(env: Env, scopes: Scopes<nat>, regs: map<nat, int>)
    requires Agree(env, scopes, regs) && env != []
    ensures Agree(env[..|env|-1], scopes[..|scopes|-1], regs)
  {
    var n := |env| - 1;
    forall i: nat | i < n
      ensures HoldsAt(env[..n], scopes[..n], regs, i)
    {
      assert HoldsAt(env, scopes, regs, i);
    }
  }

  lemma {:induction false} OwnRegsInit(scopes: Scopes<nat>, n: nat)
    requires OwnRegs(scopes, n) && scopes != []
    ensures OwnRegs(scopes[..|scopes|-1], n)
  {
    var s := scopes[..|scopes|-1];
    assert forall i: nat, x :: Has(s, i, x) ==> Has(scopes, i, x) && scopes[i][x] == s[i][x];
  }

  lemma {:induction false} FindAgrees(env: Env, scopes: Scopes<nat>, regs: map<nat, int>, x: string)
    requires Agree(env, scopes, regs) && Knows(NamesOf(scopes), x)
    ensures Find(scopes, x, 0) in regs && regs[Find(scopes, x, 0)] == Find(env, x, 0)
    decreases |env|
  {
    var n := |env| - 1;
    assert HoldsAt(env, scopes, regs, n);
    assert x in env[n] <==> x in scopes[n];
    if x !in scopes[n] {
      KnowsInit(scopes, x);
      AgreeInit(env, scopes, regs);
      FindAgrees(env[..n], scopes[..n], regs, x);
    }
  }

  lemma {:induction false} ReadsFromAgree(e: Expr, env: Env, scopes: Scopes<nat>, regs: map<nat, int>)
    requires Agree(env, scopes, regs) && ExprScoped(e, NamesOf(scopes))
    ensures ReadsAgree(e, env, scopes, regs)
  {
    match e
    case Number(_) =>
    case Variable(x) => FindAgrees(env, scopes, regs, x);
    case BinaryExp(_, l, r) =>
      ReadsFromAgree(l, env, scopes, regs);
      ReadsFromAgree(r, env, scopes, regs);
  }

  /** An initialiser that does not name its own variable reads what it would read without it. */
  lemma {:induction false} ReadsUnderBind(e: Expr, env: Env, scopes: Scopes<nat>, regs: map<nat, int>, x: string, n: nat)
    requires scopes != [] && Agree(env, scopes, regs)
    requires ExprScoped(e, AddName(NamesOf(scopes), x)) && !Mentions(e, x)
    ensures ReadsAgree(e, env, Bind(scopes, x, n), regs)
  {
    match e
    case Number(_) =>
    case Variable(y) =>
      assert Knows(NamesOf(scopes), y) by {
        var i :| 0 <= i < |scopes| && y in AddName(NamesOf(scopes), x)[i];
        assert y in NamesOf(scopes)[i];
      }
      FindAgrees(env, scopes, regs, y);
      var s := Bind(scopes, x, n);
      assert s[..|s|-1] == scopes[..|scopes|-1];
    case BinaryExp(_, l, r) =>
      ReadsUnderBind(l, env, scopes, regs, x, n);
      ReadsUnderBind(r, env, scopes, regs, x, n);
  }

  lemma {:induction false} AgreeSnoc(env: Env, scopes: Scopes<nat>, regs: map<nat, int>)
    requires |env| == |scopes| > 0 && Agree(env[..|env|-1], scopes[..|env|-1], regs)
    requires HoldsAt(env, scopes, regs, |env| - 1)
    ensures Agree(env, scopes, regs)
  {
    var n := |env| - 1;
    forall i: nat | i < |env|
      ensures HoldsAt(env, scopes, regs, i)
    {
      if i < n {
        assert HoldsAt(env[..n], scopes[..n], regs, i);
      }
    }
  }

  /** A register that no variable of the scope has may change. */
  lemma {:induction false} HoldsKept(env: Env, scopes: Scopes<nat>, regs: map<nat, int>, i: nat, r: nat, v: int)
    requires i < |env| == |scopes| && HoldsAt(env, scopes, regs, i)
    requires forall y :: Has(scopes, i, y) ==> scopes[i][y] != r
    ensures HoldsAt(env, scopes, regs[r := v], i)
  {
    forall x | x in env[i]
      ensures scopes[i][x] in regs[r := v] && regs[r := v][scopes[i][x]] == env[i][x]
    {
      assert Has(scopes, i, x);
    }
  }

  lemma {:induction false} AgreeKept(env: Env, scopes: Scopes<nat>, regs: map<nat, int>, r: nat, v: int)
    requires Agree(env, scopes, regs) && forall i: nat, y :: Has(scopes, i, y) ==> scopes[i][y] != r
    ensures Agree(env, scopes, regs[r := v])
  {
    var regs' := regs[r := v];
    forall i: nat | i < |env|
      ensures HoldsAt(env, scopes, regs', i)
    {
      HoldsKept(env, scopes, regs, i, r, v);
    }
  }

  /** The variable x of the innermost scope gets the value v in register r. */
  lemma {:induction false} HoldsWritten(env: Env, env': Env, scopes: Scopes<nat>, regs: map<nat, int>, x: string, v: int, n: nat)
    requires |env| == |scopes| == |env'| > 0 && HoldsAt(env, scopes, regs, |env| - 1) && OwnRegs(scopes, n)
    requires x in scopes[|env|-1] && env'[|env|-1] == env[|env|-1][x := v]
    ensures HoldsAt(env', scopes, regs[scopes[|env|-1][x] := v], |env| - 1)
  {
    var i := |env| - 1;
    var r := scopes[i][x];
    assert Has(scopes, i, x);
    forall y | y in env'[i]
      ensures scopes[i][y] in regs[r := v] && regs[r := v][scopes[i][y]] == env'[i][y]
    {
      assert Has(scopes, i, y);
    }
  }

  /** Storing to a variable of the innermost scope. */
  lemma {:induction false} AgreeStoreHere(env: Env, scopes: Scopes<nat>, regs: map<nat, int>, k: nat, x: string, v: int, n: nat)
    requires Agree(env, scopes, regs) && OwnRegs(scopes, n) && k == |env| - 1 && k < |scopes| && x in scopes[k]
    ensures Agree(env[..k] + [env[k][x := v]], scopes, regs[scopes[k][x] := v])
  {
    hide OwnRegs, HoldsAt;
    var env' := env[..k] + [env[k][x := v]];
    AgreeInit(env, scopes, regs);
    SameKeys(env, scopes, regs);
    HoldsWritten(env, env', scopes, regs, x, v, n);
    OthersApart(scopes, k, x, n);
    AgreeKept(env[..k], scopes[..k], regs, scopes[k][x], v);
    assert env'[..k] == env[..k];
    AgreeSnoc(env', scopes, regs[scopes[k][x] := v]);
  }

  /** The innermost scope stays as it is when a variable further out is stored to. */
  lemma {:induction false} AgreeStoreOutside(env: Env, inner: Env, scopes: Scopes<nat>, regs: map<nat, int>, k: nat, x: string, v: int, n: nat)
    requires Agree(env, scopes, regs) && OwnRegs(scopes, n) && k == |env| - 1 && k < |scopes| && |inner| == k
    requires Knows(NamesOf(scopes[..k]), x) && Agree(inner, scopes[..k], regs[Find(scopes[..k], x, 0) := v])
    ensures Agree(inner + [env[k]], scopes, regs[Find(scopes[..k], x, 0) := v])
  {
    hide OwnRegs, HoldsAt, Knows, NamesOf;
    var r, env' := Find(scopes[..k], x, 0), inner + [env[k]];
    SameKeys(env, scopes, regs);
    LastApart(scopes, k, x, n);
    HoldsKept(env, scopes, regs, k, r, v);
    HoldsSame(env, env', scopes, regs[r := v], k);
    assert env'[..k] == inner;
    AgreeSnoc(env', scopes, regs[r := v]);
  }

  /** Writing the register of the innermost x is storing to the innermost x. */
  lemma {:induction false} AgreeStore(env: Env, scopes: Scopes<nat>, regs: map<nat, int>, x: string, v: int, n: nat)
    requires Agree(env, scopes, regs) && OwnRegs(scopes, n) && Knows(NamesOf(scopes), x)
    ensures Agree(Store(env, x, v), scopes, regs[Find(scopes, x, 0) := v])
    decreases |env|
  {
    assert env != [];
    hide OwnRegs, HoldsAt, Knows, NamesOf;
    var k := |env| - 1;
    SameKeys(env, scopes, regs);
    if x in scopes[k] {
      AgreeStoreHere(env, scopes, regs, k, x, v, n);
    } else {
      KnowsInit(scopes, x);
      AgreeInit(env, scopes, regs);
      OwnRegsInit(scopes, n);
      AgreeStore(env[..k], scopes[..k], regs, x, v, n);
      AgreeStoreOutside(env, Store(env[..k], x, v), scopes, regs, k, x, v, n);
    }
  }

  lemma {:induction false} HoldsSame(env: Env, env': Env, scopes: Scopes<nat>, regs: map<nat, int>, i: nat)
    requires i < |env| == |scopes| == |env'| && HoldsAt(env, scopes, regs, i) && env'[i] == env[i]
    ensures HoldsAt(env', scopes, regs, i)
  {
  }

  lemma {:induction false} SameKeys(env: Env, scopes: Scopes<nat>, regs: map<nat, int>)
    requires Agree(env, scopes, regs) && env != []
    ensures HoldsAt(env, scopes, regs, |env| - 1) && env[|env|-1].Keys == scopes[|env|-1].Keys
  {
  }

  lemma {:induction false} OthersApart(scopes: Scopes<nat>, k: nat, x: string, n: nat)
    requires OwnRegs(scopes, n) && k == |scopes| - 1 && x in scopes[k]
    ensures forall i: nat, y :: Has(scopes[..k], i, y) ==> scopes[..k][i][y] != scopes[k][x]
  {
    assert Has(scopes, k, x);
    assert forall i: nat, y :: Has(scopes[..k], i, y) ==> Has(scopes, i, y);
  }

  lemma {:induction false} LastApart(scopes: Scopes<nat>, k: nat, x: string, n: nat)
    requires OwnRegs(scopes, n) && k == |scopes| - 1 && Knows(NamesOf(scopes[..k]), x)
    ensures forall y :: Has(scopes, k, y) ==> scopes[k][y] != Find(scopes[..k], x, 0)
  {
    var j := FoundIn(scopes[..k], x);
    assert Has(scopes, j, x);
  }

  /** A declaration gives its variable a register nobody else has. */
  lemma {:induction false} AgreeBind(env: Env, scopes: Scopes<nat>, regs: map<nat, int>, x: string, v: int, n: nat)
    requires Agree(env, scopes, regs) && OwnRegs(scopes, n) && env != []
    ensures Agree(Bind(env, x, v), Bind(scopes, x, n), regs[n := v])
    ensures OwnRegs(Bind(scopes, x, n), n + 1)
  {
    var s, e, k := Bind(scopes, x, n), Bind(env, x, v), |env| - 1;
    SameKeys(env, scopes, regs);
    BindOwnRegs(scopes, x, n);
    AgreeInit(env, scopes, regs);
    OwnRegsInit(scopes, n);
    BoundHolds(env, scopes, regs, x, v, n);
    hide OwnRegs, HoldsAt;
    AgreeKept(env[..k], scopes[..k], regs, n, v);
    AgreeSnoc(e, s, regs[n := v]);
  }

  lemma {:induction false} BindOwnRegs(scopes: Scopes<nat>, x: string, n: nat)
    requires OwnRegs(scopes, n) && scopes != []
    ensures OwnRegs(Bind(scopes, x, n), n + 1)
  {
    BindKeeps(scopes, x, n);
  }

  /** The innermost scope holds the new variable and the old ones. */
  lemma {:induction false} BoundHolds(env: Env, scopes: Scopes<nat>, regs: map<nat, int>, x: string, v: int, n: nat)
    requires OwnRegs(scopes, n) && |env| == |scopes| > 0 && HoldsAt(env, scopes, regs, |env| - 1)
    ensures HoldsAt(Bind(env, x, v), Bind(scopes, x, n), regs[n := v], |env| - 1)
  {
    var s, e, k := Bind(scopes, x, n), Bind(env, x, v), |env| - 1;
    forall y | y in e[k]
      ensures s[k][y] in regs[n := v] && regs[n := v][s[k][y]] == e[k][y]
    {
      if y != x {
        assert Has(scopes, k, y);
      }
    }
  }

  lemma {:induction false} BindKeeps(scopes: Scopes<nat>, x: string, n: nat)
    requires scopes != []
    ensures var s := Bind(scopes, x, n); var k := |scopes| - 1;
      && s[k][x] == n
      && forall i: nat, y :: Has(s, i, y) && !(i == k && y == x) ==> Has(scopes, i, y) && s[i][y] == scopes[i][y]
  {
    var s, k := Bind(scopes, x, n), |scopes| - 1;
    assert forall i :: 0 <= i < k ==> s[i] == s[..k][i] == scopes[i];
  }

  lemma {:induction false} AgreeEnter(env: Env, scopes: Scopes<nat>, regs: map<nat, int>, n: nat)
    requires Agree(env, scopes, regs) && OwnRegs(scopes, n)
    ensures Agree(env + [map[]], scopes + [map[]], regs) && OwnRegs(scopes + [map[]], n)
  {
    var e: Env, s: Scopes<nat> := env + [map[]], scopes + [map[]];
    assert forall i: nat, y :: Has(s, i, y) ==> Has(scopes, i, y) && s[i][y] == scopes[i][y];
    forall i: nat | i < |e|
      ensures HoldsAt(e, s, regs, i)
    {
      if i < |env| {
        assert HoldsAt(env, scopes, regs, i);
      }
    }
  }

  // ---------------------------------------------------------------- expressions

  /** What has been emitted stands in the final code. */
  ghost predicate Emitted(c: Ctx, f: Code) {
    |c.code| <= |f| && forall b :: 0 <= b < |c.code| ==> c.code[b] <= f[b]
  }

  lemma {:induction false} EmittedBefore(c: Ctx, c': Ctx, f: Code)
    requires Extends(c, c') && Emitted(c', f)
    ensures Emitted(c, f)
  {
    forall b: nat | b < |c.code|
      ensures c.code[b] <= f[b]
    {
      ExtendsAt(c, c', b);
    }
  }

  lemma {:induction false} EmittedAt(c: Ctx, f: Code, b: nat, k: nat)
    requires Emitted(c, f) && b < |c.code| && k < |c.code[b]|
    ensures b < |f| && k < |f[b]| && f[b][k] == c.code[b][k]
  {
  }

  /** One more step. */
  lemma {:induction false} StepOn(ops: Ops, f: Code, p: Point, n: nat)
    ensures Steps(ops, f, p, n + 1) == Step(ops, f, Steps(ops, f, p, n))
  {
    StepsAdd(ops, f, p, n, 1);
    var q := Steps(ops, f, p, n);
    assert Steps(ops, f, q, 1) == Steps(ops, f, Step(ops, f, q), 0);
  }

  /** v keeps its value when instructions from position k of block b on are executed. */
  predicate Earlier(v: Value, b: nat, k: nat) {
    v.Result? && v.block == b ==> v.pos < k
  }

  /** The results of instructions before position k of block b, and of other blocks, are the same. */
  ghost predicate KeepsEarlier(vals: map<Value, int>, vals': map<Value, int>, b: nat, k: nat) {
    forall v: Value :: Earlier(v, b, k) ==> Eval(v, vals') == Eval(v, vals)
  }

  lemma {:induction false} SameKeeps(vals: map<Value, int>, b: nat, k: nat)
    ensures KeepsEarlier(vals, vals, b, k)
  {
  }

  lemma {:induction false} WriteKeeps(vals: map<Value, int>, b: nat, k: nat, n: int)
    ensures KeepsEarlier(vals, vals[Result(b, k) := n], b, k)
  {
  }

  lemma {:induction false} ExprRuns(ops: Ops, f: Code, c: Ctx, e: Expr, env: Env, st: State)
    returns (n: nat, st': State)
    requires c.Valid() && Emitted(LowerExpr(c, e).0, f) && ReadsAgree(e, env, c.scopes, st.regs)
    ensures var c' := LowerExpr(c, e).0;
      && Steps(ops, f, Point(c.block, End(c), st), n) == Point(c.block, End(c'), st')
      && st'.regs == st.regs && Eval(LowerExpr(c, e).1, st'.vals) == EvalExpr(ops, e, env)
      && KeepsEarlier(st.vals, st'.vals, c.block, End(c)) && Earlier(LowerExpr(c, e).1, c.block, End(c'))
    decreases e
  {
    hide KeepsEarlier, Emitted, Appended;
    var (c', v) := LowerExpr(c, e);
    ExprAppended(c, e);
    match e
    case Number(_) =>
      n, st' := 0, st;
      SameKeeps(st.vals, c.block, End(c));
    case Variable(x) =>
      n, st' := 1, st.(vals := st.vals[v := Find(env, x, 0)]);
      EmittedAt(c', f, c.block, End(c));
      StepOn(ops, f, Point(c.block, End(c), st), 0);
      WriteKeeps(st.vals, c.block, End(c), Find(env, x, 0));
    case BinaryExp(op, l, r) =>
      var (c1, vl) := LowerExpr(c, l);
      var (c2, vr) := LowerExpr(c1, r);
      ExprAppended(c, l);
      ExprAppended(c1, r);
      BinaryEmitted(c1, c2, c', op, vl, vr, f);
      var n1, st1 := ExprRuns(ops, f, c, l, env, st);
      var n2, st2 := ExprRuns(ops, f, c1, r, env, st1);
      n, st' := n1 + n2 + 1, st2.(vals := st2.vals[v := ops(op, Eval(vl, st2.vals), Eval(vr, st2.vals))]);
      BinaryRuns(ops, f, c.block, End(c), End(c1), End(c2), st, st1, st2, n1, n2, op, vl, vr);
  }

  /** Left operand, right operand, operator. */
  lemma {:induction false} BinaryRuns(ops: Ops, f: Code, b: nat, k: nat, k1: nat, k2: nat, st: State, st1: State, st2: State,
                       n1: nat, n2: nat, op: BinaryOp, vl: Value, vr: Value)
    requires b < |f| && k <= k1 <= k2 < |f[b]| && f[b][k2] == Binary(op, vl, vr)
    requires Steps(ops, f, Point(b, k, st), n1) == Point(b, k1, st1)
    requires Steps(ops, f, Point(b, k1, st1), n2) == Point(b, k2, st2)
    requires KeepsEarlier(st.vals, st1.vals, b, k) && KeepsEarlier(st1.vals, st2.vals, b, k1) && Earlier(vl, b, k1)
    ensures Eval(vl, st2.vals) == Eval(vl, st1.vals)
    ensures var st' := st2.(vals := st2.vals[Result(b, k2) := ops(op, Eval(vl, st2.vals), Eval(vr, st2.vals))]);
      && Steps(ops, f, Point(b, k, st), n1 + n2 + 1) == Point(b, k2 + 1, st') && KeepsEarlier(st.vals, st'.vals, b, k)
  {
    StepsAdd(ops, f, Point(b, k, st), n1, n2);
    StepOn(ops, f, Point(b, k, st), n1 + n2);
  }

  lemma {:induction false} BinaryEmitted(c1: Ctx, c2: Ctx, c': Ctx, op: BinaryOp, vl: Value, vr: Value, f: Code)
    requires c1.Valid() && Appended(c1, c2) && c' == Emit(c2, c2.block, Binary(op, vl, vr)) && Emitted(c', f)
    ensures Emitted(c1, f) && Emitted(c2, f)
    ensures c2.block < |f| && End(c2) < |f[c2.block]| && f[c2.block][End(c2)] == Binary(op, vl, vr)
  {
    assert Extends(c2, c');
    AppendedExtends(c1, c2);
    EmittedBefore(c2, c', f);
    EmittedBefore(c1, c2, f);
    EmittedAt(c', f, c2.block, End(c2));
  }

  lemma {:induction false} AssignRuns(ops: Ops, f: Code, c: Ctx, x: string, e: Expr, env: Env, st: State)
    returns (n: nat, st': State)
    requires c.Valid() && Emitted(LowerAssign(c, x, e), f) && ReadsAgree(e, env, c.scopes, st.regs)
    ensures var r := LowerAssign(c, x, e);
      && Steps(ops, f, Point(c.block, End(c), st), n) == Point(r.block, End(r), st')
      && st'.regs == st.regs[Find(c.scopes, x, 0) := EvalExpr(ops, e, env)]
  {
    var r := LowerAssign(c, x, e);
    var (c1, v) := LowerExpr(c, e);
    assert Extends(c1, r);
    EmittedBefore(c1, r, f);
    var n1, st1 := ExprRuns(ops, f, c, e, env, st);
    EmittedAt(r, f, c.block, End(c1));
    StepOn(ops, f, Point(c.block, End(c), st), n1);
    n, st' := n1 + 1, State(st1.regs[Find(c.scopes, x, 0) := Eval(v, st1.vals)], st1.vals);
  }

  // ---------------------------------------------------------------- statements

  /** Lowering stands in c, execution in env and st, and they agree. */
  ghost predicate Together(c: Ctx, env: Env, st: State) {
    CanLower(c) && OwnRegs(c.scopes, c.regCount) && Agree(env, c.scopes, st.regs)
  }

  /** After n steps from p the run stands behind the code of c' with the variables of the outcome; or, when
      the source runs out of fuel, at least that many steps were made and the run goes on. */
  ghost predicate Follows(ops: Ops, f: Code, p: Point, n: nat, o: Outcome, fuel: nat, c': Ctx, st': State) {
    match o
    case Timeout => n >= fuel && !Halted(f, Steps(ops, f, p, n))
    case _ =>
      && c'.Valid() && Steps(ops, f, p, n) == Point(c'.block, End(c'), st') && Agree(o.env, c'.scopes, st'.regs)
      && OwnRegs(c'.scopes, c'.regCount)
  }

  lemma {:induction false} JumpTaken(ops: Ops, f: Code, b: nat, k: nat, t: nat, st: State)
    requires TerminatorsLast(f) && b < |f| && k < |f[b]| && f[b][k] == Jump(t)
    ensures Step(ops, f, Point(b, k, st)) == Point(t, 0, st) && k == |f[b]| - 1
  {
    assert TerminatorLast(f[b]);
  }

  lemma {:induction false} BranchTaken(ops: Ops, f: Code, b: nat, k: nat, t: nat, e: nat, v: Value, st: State)
    requires TerminatorsLast(f) && b < |f| && k < |f[b]| && f[b][k] == JumpCond(t, e, v)
    ensures Step(ops, f, Point(b, k, st)) == Point(if Eval(v, st.vals) != 0 then t else e, 0, st)
  {
    assert TerminatorLast(f[b]);
  }

  /** The registers only grow in number. */
  lemma {:induction false} RegsGrow(c: Ctx, ss: seq<Stmt>)
    requires CanLower(c)
    ensures LowerStmts(c, ss).regCount >= c.regCount
    decreases ss, 1
  {
    hide LowerStmt;
    if ss != [] {
      RegsGrowStmt(c, ss[0]);
      StmtReady(c, ss[0]);
      RegsGrow(LowerStmt(c, ss[0]), ss[1..]);
    }
  }

  lemma {:induction false} RegsGrowStmt(c: Ctx, s: Stmt)
    requires CanLower(c)
    ensures LowerStmt(c, s).regCount >= c.regCount + if s.Declare? then 1 else 0
    decreases s, 0
  {
    hide LowerStmts, LowerExpr, Local, Extends, IfResult, WhileResult, Appended;
    match s
    case Declare(x, e) => ExprKeepsRegs(NewReg(c, x), e);
    case Set(x, e) => ExprKeepsRegs(c, e);
    case If(cond, body) =>
      var c1, v, inner, r := IfSteps(c, cond, body);
      CondReady(c1);
      RegsGrow(EnterBlock(c1), body);
    case While(cond, body) =>
      var h, inner, k, l, v, r := WhileSteps(c, cond, body);
      RegsGrow(EnterBlock(h), body);
    case ReturnStmt =>
  }

  lemma {:induction false} OwnRegsMore(scopes: Scopes<nat>, n: nat, m: nat)
    requires OwnRegs(scopes, n) && n <= m
    ensures OwnRegs(scopes, m)
  {
  }

  lemma {:induction false} DeclareRuns(ops: Ops, f: Code, c: Ctx, x: string, e: Expr, env: Env, st: State, fuel: nat)
    returns (n: nat, st': State)
    requires Together(c, env, st) && Emitted(LowerStmt(c, Declare(x, e)), f)
    requires Scoped(Declare(x, e), NamesOf(c.scopes)) && !Mentions(e, x)
    ensures Follows(ops, f, Point(c.block, End(c), st), n, Exec(ops, Declare(x, e), env, fuel), fuel,
                    LowerStmt(c, Declare(x, e)), st')
  {
    hide Agree, OwnRegs, Emitted, LowerExpr, Scoped, Steps;
    var r := NewReg(c, x);
    assert ExprScoped(e, AddName(NamesOf(c.scopes), x)) by { ScopedInit(c, x, e); }
    ReadsUnderBind(e, env, c.scopes, st.regs, x, c.regCount);
    n, st' := AssignRuns(ops, f, r, x, e, env, st);
    ExprKeepsRegs(r, e);
    AgreeLength(env, c.scopes, st.regs);
    AgreeBind(env, c.scopes, st.regs, x, EvalExpr(ops, e, env), c.regCount);
    assert Find(r.scopes, x, 0) == c.regCount;
  }

  lemma {:induction false} AgreeLength(env: Env, scopes: Scopes<nat>, regs: map<nat, int>)
    requires Agree(env, scopes, regs)
    ensures |env| == |scopes|
  {
  }

  lemma {:induction false} ScopedInit(c: Ctx, x: string, e: Expr)
    requires c.scopes != [] && Scoped(Declare(x, e), NamesOf(c.scopes))
    ensures ExprScoped(e, AddName(NamesOf(c.scopes), x))
  {
  }

  lemma {:induction false} SetRuns(ops: Ops, f: Code, c: Ctx, x: string, e: Expr, env: Env, st: State, fuel: nat)
    returns (n: nat, st': State)
    requires Together(c, env, st) && Emitted(LowerStmt(c, Set(x, e)), f)
    requires Knows(NamesOf(c.scopes), x) && ExprScoped(e, NamesOf(c.scopes)) && env != []
    ensures Follows(ops, f, Point(c.block, End(c), st), n, Exec(ops, Set(x, e), env, fuel), fuel,
                    LowerStmt(c, Set(x, e)), st')
  {
    hide Agree, OwnRegs, Emitted, LowerExpr, Steps, Knows;
    ReadsFromAgree(e, env, c.scopes, st.regs);
    n, st' := AssignRuns(ops, f, c, x, e, env, st);
    ExprKeepsRegs(c, e);
    AgreeStore(env, c.scopes, st.regs, x, EvalExpr(ops, e, env), c.regCount);
  }

  // ---------------------------------------------------------------- if

  /** The condition of an if is evaluated and decides which block comes next. */
  lemma {:induction false} IfCondRuns(ops: Ops, f: Code, c: Ctx, cond: Expr, body: seq<Stmt>, env: Env, st: State)
    returns (n: nat, st1: State)
    requires Together(c, env, st) && Emitted(LowerStmt(c, If(cond, body)), f) && TerminatorsLast(f)
    requires ExprScoped(cond, NamesOf(c.scopes))
    ensures var c1 := LowerExpr(c, cond).0; var inner := LowerStmts(EnterBlock(c1), body);
      && Together(EnterBlock(c1), env + [map[]], st1) && st1.regs == st.regs && Emitted(inner, f)
      && Steps(ops, f, Point(c.block, End(c), st), n) ==
           Point(if EvalExpr(ops, cond, env) != 0 then |c1.code| else |inner.code|, 0, st1)
  {
    hide Agree, OwnRegs, Emitted, LowerExpr, LowerStmt, LowerStmts, Steps, Extends, Local, NamesOf, ExprScoped, EvalExpr;
    hide Step, TerminatorsLast;
    var c1, v, inner, r := IfSteps(c, cond, body);
    EmittedBefore(inner, r, f);
    EnterExtends(c1);
    ExtendsTrans(c1, EnterBlock(c1), inner);
    EmittedBefore(c1, inner, f);
    ReadsFromAgree(cond, env, c.scopes, st.regs);
    n, st1 := ExprRuns(ops, f, c, cond, env, st);
    EmittedAt(r, f, c.block, End(c1));
    BranchTaken(ops, f, c.block, End(c1), |c1.code|, |inner.code|, v, st1);
    StepOn(ops, f, Point(c.block, End(c), st), n);
    n := n + 1;
    AgreeEnter(env, c.scopes, st1.regs, c.regCount);
  }

  /** Behind the body of an if that was taken. */
  lemma {:induction false} IfBodyRuns(ops: Ops, f: Code, c: Ctx, cond: Expr, body: seq<Stmt>, p: Point, n: nat, st1: State,
                       o: Outcome, fuel: nat, m: nat, st2: State)
    returns (k: nat)
    requires CanLower(c) && OwnRegs(c.scopes, c.regCount)
    requires Emitted(LowerStmt(c, If(cond, body)), f) && TerminatorsLast(f)
    requires Steps(ops, f, p, n) == Point(|LowerExpr(c, cond).0.code|, 0, st1)
    requires var e := EnterBlock(LowerExpr(c, cond).0);
      Follows(ops, f, Point(e.block, 0, st1), m, o, fuel, LowerStmts(e, body), st2)
    requires Depth(o, |c.scopes| + 1)
    ensures Follows(ops, f, p, k, Leave(o), fuel, LowerStmt(c, If(cond, body)), st2)
  {
    hide OwnRegs, Emitted, LowerExpr, LowerStmt, LowerStmts, Steps, Extends, Local, Step, TerminatorsLast, Agree;
    var c1, v, inner, r := IfSteps(c, cond, body);
    StepsAdd(ops, f, p, n, m);
    if o.Timeout? {
      k := n + m;
    } else {
      EmittedAt(r, f, inner.block, End(inner));
      JumpTaken(ops, f, inner.block, End(inner), |inner.code|, st2);
      StepOn(ops, f, p, n + m);
      k := n + m + 1;
      IfLeaves(c, cond, body);
      AgreeLength(o.env, inner.scopes, st2.regs);
      AgreeInit(o.env, inner.scopes, st2.regs);
      RegsGrowStmt(c, If(cond, body));
      OwnRegsMore(c.scopes, c.regCount, r.regCount);
    }
  }

  lemma {:induction false} IfLeaves(c: Ctx, cond: Expr, body: seq<Stmt>)
    requires CanLower(c)
    ensures var inner := LowerStmts(EnterBlock(LowerExpr(c, cond).0), body);
      |inner.scopes| == |c.scopes| + 1 && inner.scopes[..|inner.scopes|-1] == c.scopes
  {
    hide LowerStmts, LowerExpr;
    var e := EnterBlock(LowerExpr(c, cond).0);
    assert e.scopes[..|e.scopes|-1] == c.scopes;
  }

  /** An if that is not taken. */
  lemma {:induction false} IfSkipped(ops: Ops, f: Code, c: Ctx, cond: Expr, body: seq<Stmt>, env: Env, p: Point, n: nat, st1: State, fuel: nat)
    requires CanLower(c) && OwnRegs(c.scopes, c.regCount) && Agree(env, c.scopes, st1.regs)
    requires Steps(ops, f, p, n) == Point(|LowerStmts(EnterBlock(LowerExpr(c, cond).0), body).code|, 0, st1)
    ensures Follows(ops, f, p, n, Done(env), fuel, LowerStmt(c, If(cond, body)), st1)
  {
    hide OwnRegs, LowerExpr, LowerStmt, LowerStmts, Steps, Extends, Local, Agree;
    var c1, v, inner, r := IfSteps(c, cond, body);
    RegsGrowStmt(c, If(cond, body));
    OwnRegsMore(c.scopes, c.regCount, r.regCount);
  }

  // ---------------------------------------------------------------- while

  /** Control enters the head. */
  lemma {:induction false} WhileEntered(ops: Ops, f: Code, c: Ctx, cond: Expr, body: seq<Stmt>, st: State)
    requires CanLower(c) && Emitted(LowerStmt(c, While(cond, body)), f) && TerminatorsLast(f)
    ensures Steps(ops, f, Point(c.block, End(c), st), 1) == Point(|c.code|, 0, st)
  {
    hide Emitted, LowerExpr, LowerStmt, LowerStmts, Extends, Local, Step, TerminatorsLast;
    var h, inner, k, l, v, r := WhileSteps(c, cond, body);
    EmittedAt(r, f, c.block, End(c));
    JumpTaken(ops, f, c.block, End(c), |c.code|, st);
    StepOn(ops, f, Point(c.block, End(c), st), 0);
  }

  /** The head evaluates the condition and leads to the body or to the exit. */
  lemma {:induction false} LoopCond(ops: Ops, f: Code, c: Ctx, cond: Expr, body: seq<Stmt>, env: Env, st: State)
    returns (n: nat, st1: State)
    requires Together(c, env, st) && Emitted(LowerStmt(c, While(cond, body)), f) && TerminatorsLast(f)
    requires ExprScoped(cond, NamesOf(c.scopes))
    ensures var e := EnterBlock(WhileHead(c)); var inner := LowerStmts(e, body);
      && Together(e, env + [map[]], st1) && st1.regs == st.regs && Emitted(inner, f)
      && Steps(ops, f, Point(|c.code|, 0, st), n) ==
           Point(if EvalExpr(ops, cond, env) != 0 then |c.code| + 1 else |inner.code|, 0, st1)
  {
    hide Agree, OwnRegs, Emitted, LowerExpr, LowerStmt, LowerStmts, Steps, Extends, Local, NamesOf, ExprScoped, EvalExpr;
    hide Step, TerminatorsLast;
    var h, inner, k, l, v, r := WhileSteps(c, cond, body);
    EmittedBefore(inner, r, f);
    EmittedBefore(l, r, f);
    ReadsFromAgree(cond, env, c.scopes, st.regs);
    n, st1 := ExprRuns(ops, f, k, cond, env, st);
    EmittedAt(r, f, |c.code|, End(l));
    BranchTaken(ops, f, |c.code|, End(l), |c.code| + 1, |inner.code|, v, st1);
    StepOn(ops, f, Point(|c.code|, 0, st), n);
    n := n + 1;
    AgreeEnter(env, c.scopes, st1.regs, c.regCount);
  }

  /** The body jumps back to the head. */
  lemma {:induction false} LoopBack(ops: Ops, f: Code, c: Ctx, cond: Expr, body: seq<Stmt>, p: Point, n: nat, st1: State,
                     o: Outcome, fuel: nat, m: nat, st2: State)
    requires CanLower(c) && Straight(body) && o.Done? && |o.env| == |c.scopes| + 1
    requires Emitted(LowerStmt(c, While(cond, body)), f) && TerminatorsLast(f)
    requires Steps(ops, f, p, n) == Point(|c.code| + 1, 0, st1)
    requires Follows(ops, f, Point(|c.code| + 1, 0, st1), m, o, fuel, LowerStmts(EnterBlock(WhileHead(c)), body), st2)
    ensures Steps(ops, f, p, n + m + 1) == Point(|c.code|, 0, st2)
    ensures Agree(Leave(o).env, c.scopes, st2.regs)
  {
    hide OwnRegs, Emitted, LowerExpr, LowerStmt, LowerStmts, Steps, Extends, Local, Step, TerminatorsLast, Agree;
    var h, inner, k, l, v, r := WhileSteps(c, cond, body);
    StraightStays(EnterBlock(h), body);
    StepsAdd(ops, f, p, n, m);
    EmittedAt(r, f, |c.code| + 1, End(inner));
    JumpTaken(ops, f, |c.code| + 1, End(inner), |c.code|, st2);
    StepOn(ops, f, p, n + m);
    WhileLeaves(c, body);
    AgreeLength(o.env, inner.scopes, st2.regs);
    AgreeInit(o.env, inner.scopes, st2.regs);
  }

  lemma {:induction false} WhileLeaves(c: Ctx, body: seq<Stmt>)
    requires CanLower(c)
    ensures var inner := LowerStmts(EnterBlock(WhileHead(c)), body);
      |inner.scopes| == |c.scopes| + 1 && inner.scopes[..|inner.scopes|-1] == c.scopes
  {
    hide LowerStmts;
    var e := EnterBlock(WhileHead(c));
    assert e.scopes[..|e.scopes|-1] == c.scopes;
  }

  /** The loop is left. */
  lemma {:induction false} LoopExit(ops: Ops, f: Code, c: Ctx, cond: Expr, body: seq<Stmt>, env: Env, p: Point, n: nat, st1: State, fuel: nat)
    requires CanLower(c) && OwnRegs(c.scopes, c.regCount) && Agree(env, c.scopes, st1.regs)
    requires Steps(ops, f, p, n) == Point(|LowerStmts(EnterBlock(WhileHead(c)), body).code|, 0, st1)
    ensures Follows(ops, f, p, n, Done(env), fuel, LowerStmt(c, While(cond, body)), st1)
  {
    hide OwnRegs, LowerExpr, LowerStmt, LowerStmts, Steps, Extends, Local, Agree;
    var h, inner, k, l, v, r := WhileSteps(c, cond, body);
    RegsGrowStmt(c, While(cond, body));
    OwnRegsMore(c.scopes, c.regCount, r.regCount);
  }

  /** Straight code always terminates. */
  lemma {:induction false} StraightDone(ops: Ops, ss: seq<Stmt>, env: Env, fuel: nat)
    requires Straight(ss) && env != []
    ensures ExecAll(ops, ss, env, fuel).Done?
    decreases ss
  {
    if ss != [] {
      StraightDone(ops, ss[1..], Exec(ops, ss[0], env, fuel).env, fuel);
    }
  }

  lemma {:induction false} LoopStands(f: Code, c: Ctx, cond: Expr, body: seq<Stmt>, st: State)
    requires CanLower(c) && Emitted(LowerStmt(c, While(cond, body)), f)
    ensures !Halted(f, Point(|c.code|, 0, st))
  {
    hide Emitted, LowerExpr, LowerStmt, LowerStmts, Extends, Local;
    var h, inner, k, l, v, r := WhileSteps(c, cond, body);
    EmittedAt(r, f, |c.code|, End(l));
  }

  // ---------------------------------------------------------------- all statements

  /** What a list of statements needs to be followed. */
  ghost predicate Followable(f: Code, c: Ctx, ss: seq<Stmt>, env: Env, st: State) {
    && Together(c, env, st) && Emitted(LowerStmts(c, ss), f) && TerminatorsLast(f)
    && AllScoped(ss, NamesOf(c.scopes)) && NoSelfInits(ss)
  }

  ghost predicate FollowableStmt(f: Code, c: Ctx, s: Stmt, env: Env, st: State) {
    && Together(c, env, st) && Emitted(LowerStmt(c, s), f) && TerminatorsLast(f)
    && Scoped(s, NamesOf(c.scopes)) && NoSelfInit(s)
  }

  /** One round of the loop, or its end. */
  lemma {:induction false} LoopRuns(ops: Ops, f: Code, c: Ctx, cond: Expr, body: seq<Stmt>, env: Env, st: State, fuel: nat)
    returns (n: nat, st': State)
    requires FollowableStmt(f, c, While(cond, body), env, st) && Straight(body)
    ensures env != [] && Follows(ops, f, Point(|c.code|, 0, st), n, Exec(ops, While(cond, body), env, fuel), fuel,
                    LowerStmt(c, While(cond, body)), st')
    decreases fuel, While(cond, body), 0
  {
    hide Agree, OwnRegs, Emitted, LowerExpr, LowerStmt, LowerStmts, Steps, Local, NamesOf, Step, TerminatorsLast, Halted;
    hide NoSelfInits, AllScoped, ExprScoped, ExecAll, EvalExpr;
    AgreeLength(env, c.scopes, st.regs);
    if fuel == 0 {
      n, st' := 0, st;
      LoopStands(f, c, cond, body, st);
      assert Steps(ops, f, Point(|c.code|, 0, st), 0) == Point(|c.code|, 0, st) by { NoSteps(ops, f, Point(|c.code|, 0, st)); }
    } else {
      var n1, st1 := LoopCond(ops, f, c, cond, body, env, st);
      if EvalExpr(ops, cond, env) == 0 {
        n, st' := n1, st1;
        LoopExit(ops, f, c, cond, body, env, Point(|c.code|, 0, st), n, st1, fuel);
      } else {
        var e := EnterBlock(WhileHead(c));
        NamesOfPush(c.scopes);
        StraightStays(e, body);
        var m, st2 := StmtsRun(ops, f, e, body, env + [map[]], st1, fuel - 1);
        var o := ExecAll(ops, body, env + [map[]], fuel - 1);
        StraightDone(ops, body, env + [map[]], fuel - 1);
        LoopBack(ops, f, c, cond, body, Point(|c.code|, 0, st), n1, st1, o, fuel - 1, m, st2);
        var k;
        k, st' := LoopRuns(ops, f, c, cond, body, Leave(o).env, st2, fuel - 1);
        n := n1 + m + 1 + k;
        StepsAdd(ops, f, Point(|c.code|, 0, st), n1 + m + 1, k);
      }
    }
  }

  lemma {:induction false} NoSteps(ops: Ops, f: Code, p: Point)
    ensures Steps(ops, f, p, 0) == p
  {
  }

  lemma {:induction false} StmtRuns(ops: Ops, f: Code, c: Ctx, s: Stmt, env: Env, st: State, fuel: nat)
    returns (n: nat, st': State)
    requires FollowableStmt(f, c, s, env, st) && ProperStmt(s)
    ensures env != [] && !Exec(ops, s, env, fuel).Returned?
    ensures Follows(ops, f, Point(c.block, End(c), st), n, Exec(ops, s, env, fuel), fuel, LowerStmt(c, s), st')
    decreases fuel, s, 1
  {
    hide Agree, OwnRegs, Emitted, LowerExpr, LowerStmt, LowerStmts, Steps, Local, NamesOf, Step, TerminatorsLast, Halted;
    hide AllScoped, ExprScoped, ExecAll, EvalExpr, Mentions, Store, Open, Knows;
    AgreeLength(env, c.scopes, st.regs);
    match s
    case Declare(x, e) => n, st' := DeclareRuns(ops, f, c, x, e, env, st, fuel);
    case Set(x, e) => n, st' := SetRuns(ops, f, c, x, e, env, st, fuel);
    case If(cond, body) =>
      var n1, st1 := IfCondRuns(ops, f, c, cond, body, env, st);
      if EvalExpr(ops, cond, env) == 0 {
        n, st' := n1, st1;
        IfSkipped(ops, f, c, cond, body, env, Point(c.block, End(c), st), n, st1, fuel);
      } else {
        var e := EnterBlock(LowerExpr(c, cond).0);
        NamesOfPush(c.scopes);
        var m;
        m, st' := StmtsRun(ops, f, e, body, env + [map[]], st1, fuel);
        n := IfBodyRuns(ops, f, c, cond, body, Point(c.block, End(c), st), n1, st1,
                        ExecAll(ops, body, env + [map[]], fuel), fuel, m, st');
      }
    case While(cond, body) =>
      WhileEntered(ops, f, c, cond, body, st);
      var m;
      m, st' := LoopRuns(ops, f, c, cond, body, env, st, fuel);
      n := 1 + m;
      StepsAdd(ops, f, Point(c.block, End(c), st), 1, m);
      StraightNeverReturns(ops, cond, body, env, fuel);
  }

  lemma {:induction false} StraightNeverReturns(ops: Ops, cond: Expr, body: seq<Stmt>, env: Env, fuel: nat)
    requires env != [] && Straight(body)
    ensures !Exec(ops, While(cond, body), env, fuel).Returned?
    decreases fuel
  {
    if fuel > 0 && EvalExpr(ops, cond, env) != 0 {
      StraightDone(ops, body, env + [map[]], fuel - 1);
      var o := Leave(ExecAll(ops, body, env + [map[]], fuel - 1));
      StraightNeverReturns(ops, cond, body, o.env, fuel - 1);
    }
  }

  /** The next statement starts where the last one ended. */
  lemma {:induction false} NextFollowable(ops: Ops, f: Code, c: Ctx, ss: seq<Stmt>, env: Env, st: State, fuel: nat, n: nat, o: Outcome, st1: State)
    requires Followable(f, c, ss, env, st) && ss != []
    requires o.Done? && Follows(ops, f, Point(c.block, End(c), st), n, o, fuel, LowerStmt(c, ss[0]), st1)
    ensures Followable(f, LowerStmt(c, ss[0]), ss[1..], o.env, st1)
  {
    hide Agree, OwnRegs, Emitted, LowerStmt, Steps, Local, NamesOf, TerminatorsLast, Extends;
    StmtReady(c, ss[0]);
    ScopesAfter(c, ss[0]);
  }

  lemma {:induction false} FirstFollowable(f: Code, c: Ctx, ss: seq<Stmt>, env: Env, st: State)
    requires Followable(f, c, ss, env, st) && ss != []
    ensures FollowableStmt(f, c, ss[0], env, st)
  {
    hide Agree, OwnRegs, Emitted, LowerStmt, Local, NamesOf, TerminatorsLast, Extends;
    StmtReady(c, ss[0]);
    StmtsReady(LowerStmt(c, ss[0]), ss[1..]);
    EmittedBefore(LowerStmt(c, ss[0]), LowerStmts(c, ss), f);
  }

  lemma {:induction false} StmtsRun(ops: Ops, f: Code, c: Ctx, ss: seq<Stmt>, env: Env, st: State, fuel: nat)
    returns (n: nat, st': State)
    requires Followable(f, c, ss, env, st) && ProperStmts(ss)
    ensures env != [] && !ExecAll(ops, ss, env, fuel).Returned?
    ensures Follows(ops, f, Point(c.block, End(c), st), n, ExecAll(ops, ss, env, fuel), fuel, LowerStmts(c, ss), st')
    decreases fuel, ss, 2
  {
    hide Agree, OwnRegs, Emitted, LowerStmt, Local, NamesOf, TerminatorsLast, Halted, AllScoped, Step, Exec;
    AgreeLength(env, c.scopes, st.regs);
    if ss == [] {
      n, st' := 0, st;
    } else {
      FirstFollowable(f, c, ss, env, st);
      var n1, st1 := StmtRuns(ops, f, c, ss[0], env, st, fuel);
      var o := Exec(ops, ss[0], env, fuel);
      if o.Done? {
        NextFollowable(ops, f, c, ss, env, st, fuel, n1, o, st1);
        var m;
        m, st' := StmtsRun(ops, f, LowerStmt(c, ss[0]), ss[1..], o.env, st1, fuel);
        n := n1 + m;
        StepsAdd(ops, f, Point(c.block, End(c), st), n1, m);
      } else {
        n, st' := n1, st1;
      }
    }
  }

  // ---------------------------------------------------------------- the whole function

  /** A return at the very end stops the run where it stands. */
  lemma {:induction false} ReturnRuns(ops: Ops, f: Code, c: Ctx, env: Env, st: State, fuel: nat)
    requires Together(c, env, st) && Emitted(LowerStmt(c, ReturnStmt), f)
    ensures Follows(ops, f, Point(c.block, End(c), st), 1, Returned(env), fuel, LowerStmt(c, ReturnStmt), st)
  {
    hide Agree, OwnRegs, Emitted;
    var r := LowerStmt(c, ReturnStmt);
    EmittedAt(r, f, c.block, End(c));
    StepOn(ops, f, Point(c.block, End(c), st), 0);
  }

  lemma {:induction false} ProperRuns(ops: Ops, f: Code, c: Ctx, ss: seq<Stmt>, env: Env, st: State, fuel: nat)
    returns (n: nat, st': State)
    requires Followable(f, c, ss, env, st) && Proper(ss)
    ensures env != []
    ensures Follows(ops, f, Point(c.block, End(c), st), n, ExecAll(ops, ss, env, fuel), fuel, LowerStmts(c, ss), st')
    decreases ss
  {
    hide Agree, OwnRegs, Emitted, LowerStmt, Local, NamesOf, TerminatorsLast, Halted, AllScoped, Step, ProperStmt;
    AgreeLength(env, c.scopes, st.regs);
    if ss == [] {
      n, st' := 0, st;
    } else {
      FirstFollowable(f, c, ss, env, st);
      if |ss| == 1 && ss[0].ReturnStmt? {
        n, st' := 1, st;
        ReturnRuns(ops, f, c, env, st, fuel);
        assert LowerStmts(c, ss) == LowerStmts(LowerStmt(c, ss[0]), []) && ss[1..] == [];
      } else {
        var n1, st1 := StmtRuns(ops, f, c, ss[0], env, st, fuel);
        var o := Exec(ops, ss[0], env, fuel);
        if o.Done? {
          NextFollowable(ops, f, c, ss, env, st, fuel, n1, o, st1);
          var m;
          m, st' := ProperRuns(ops, f, LowerStmt(c, ss[0]), ss[1..], o.env, st1, fuel);
          n := n1 + m;
          StepsAdd(ops, f, Point(c.block, End(c), st), n1, m);
        } else {
          n, st' := n1, st1;
        }
      }
    }
  }

  /** The trees whose lowering means what they mean: declared before use, no initialiser that names its own
      variable, straight while bodies, and a return only at the end. */
  predicate GoodBody(body: seq<Stmt>) {
    AllScoped(body, [{}]) && NoSelfInits(body) && Proper(body)
  }

  /** Runs the body of a function, with no variables yet. */
  function RunSource(ops: Ops, body: seq<Stmt>, fuel: nat): Outcome {
    ExecAll(ops, body, [map[]], fuel)
  }

  /** The registers of the variables of the outermost scope at the end of the body. */
  function FinalScopes(body: seq<Stmt>): Scopes<nat> {
    LowerStmts(START, body).scopes
  }

  /** The block in which the lowering of the body ends. */
  function FinalBlock(body: seq<Stmt>): nat {
    LowerStmts(START, body).block
  }

  /** The n-th block is the final one, and behind it the lowered code has stopped, with every variable of
      the source in its register. */
  ghost predicate StopsWith(ops: Ops, body: seq<Stmt>, st: State, n: nat, env: Env) {
    n > 0 &&
    var before, c := Run(ops, LowerFunction(body).code, At(0, st), n - 1), Run(ops, LowerFunction(body).code, At(0, st), n);
    && before.At? && before.block == FinalBlock(body)
    && c.Stopped? && Agree(env, FinalScopes(body), c.st.regs)
  }

  lemma {:induction false} StartTogether(st: State)
    ensures Together(START, [map[]], st) && NamesOf(START.scopes) == [{}]
  {
    StartAgrees(st.regs);
    NamesOfPush<nat>([]);
    assert [] + [map[]] == START.scopes && NamesOf<nat>([]) + [{}] == [{}];
  }

  lemma {:induction false} StartAgrees(regs: map<nat, int>)
    ensures Agree([map[]], [map[]], regs) && OwnRegs([map[]], 0)
  {
    var env: Env, scopes: Scopes<nat> := [map[]], [map[]];
    assert HoldsAt(env, scopes, regs, 0);
  }

  lemma {:induction false} SelfEmitted(c: Ctx)
    ensures Emitted(c, c.code)
  {
  }

  lemma {:induction false} StartFollowable(body: seq<Stmt>, st: State)
    requires GoodBody(body)
    ensures Followable(LowerFunction(body).code, START, body, [map[]], st)
    ensures LowerFunction(body).code == LowerStmts(START, body).code
  {
    hide LowerStmts, Built, AllScoped, NoSelfInits, Proper, LowerFunction, TerminatorsLast, Together, NamesOf, Emitted, CfgOf;
    TerminatorsLastIffProper(body);
    var c, dead := BodyBuilt(body);
    StartTogether(st);
    SelfEmitted(c);
  }

  /** From any initial state, instruction by instruction. */
  lemma {:induction false} FunctionRuns(ops: Ops, body: seq<Stmt>, st: State, fuel: nat) returns (n: nat, st': State)
    requires GoodBody(body)
    ensures Follows(ops, LowerFunction(body).code, Point(0, 0, st), n, RunSource(ops, body, fuel), fuel, LowerStmts(START, body), st')
  {
    hide LowerStmts, LowerFunction, Followable, Follows, AllScoped, NoSelfInits;
    StartFollowable(body, st);
    n, st' := ProperRuns(ops, LowerFunction(body).code, START, body, [map[]], st, fuel);
  }

  /** When the source terminates, so does the lowered code, and every variable has the same value. */
  lemma {:induction false} TerminatingRun(ops: Ops, body: seq<Stmt>, st: State, fuel: nat) returns (n: nat)
    requires GoodBody(body) && !RunSource(ops, body, fuel).Timeout?
    ensures StopsWith(ops, body, st, n, RunSource(ops, body, fuel).env)
  {
    hide LowerStmts, AllScoped, NoSelfInits, Agree, OwnRegs, Steps, Run, RunSource, LowerFunction;
    StartFollowable(body, st);
    var m, st' := FunctionRuns(ops, body, st, fuel);
    n := HaltedIsStopped(ops, LowerFunction(body).code, 0, st, m);
  }

  /** When the source never terminates, neither does the lowered code. */
  lemma {:induction false} DivergingRun(ops: Ops, body: seq<Stmt>, st: State, n: nat)
    requires GoodBody(body) && forall fuel: nat :: RunSource(ops, body, fuel).Timeout?
    ensures Run(ops, LowerFunction(body).code, At(0, st), n).At?
  {
    hide LowerStmts, AllScoped, NoSelfInits, Agree, OwnRegs, Steps, Run, RunSource, LowerFunction, Step, Halted;
    var f := LowerFunction(body).code;
    var k := BlocksAsSteps(ops, f, 0, st, n);
    var m, st' := FunctionRuns(ops, body, st, k);
    assert RunSource(ops, body, k).Timeout?;
    if Halted(f, Steps(ops, f, Point(0, 0, st), k)) {
      HaltedLater(ops, f, Point(0, 0, st), k, m);
    }
  }

  ghost predicate Terminates(ops: Ops, body: seq<Stmt>) {
    exists fuel: nat :: !RunSource(ops, body, fuel).Timeout?
  }

  ghost predicate Stops(ops: Ops, code: Code, st: State) {
    exists n: nat :: Run(ops, code, At(0, st), n).Stopped?
  }

  /** Lowering preserves meaning: the lowered code stops exactly when the source program terminates, and then
      with the values of the source in the registers of its variables. */
  lemma {:induction false} LoweringPreservesMeaning(ops: Ops, body: seq<Stmt>, st: State)
    requires GoodBody(body)
    ensures Terminates(ops, body) <==> Stops(ops, LowerFunction(body).code, st)
    ensures forall fuel: nat :: !RunSource(ops, body, fuel).Timeout? ==>
      exists n: nat :: StopsWith(ops, body, st, n, RunSource(ops, body, fuel).env)
  {
    hide RunSource, LowerFunction, Run, GoodBody, Agree;
    forall fuel: nat | !RunSource(ops, body, fuel).Timeout?
      ensures exists n: nat :: StopsWith(ops, body, st, n, RunSource(ops, body, fuel).env)
    {
      var n := TerminatingRun(ops, body, st, fuel);
    }
    if Terminates(ops, body) {
      var fuel: nat :| !RunSource(ops, body, fuel).Timeout?;
      var n := TerminatingRun(ops, body, st, fuel);
      assert Run(ops, LowerFunction(body).code, At(0, st), n).Stopped?;
    }
    if Stops(ops, LowerFunction(body).code, st) {
      var n: nat :| Run(ops, LowerFunction(body).code, At(0, st), n).Stopped?;
      if !Terminates(ops, body) {
        DivergingRun(ops, body, st, n);
      }
    }
  }
}
