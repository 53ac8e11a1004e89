/** Which variable a name means, and in which order the code of an expression reads its variables. */
module EvaluationOrder {
  import opened IR
  import opened Lowering
  import opened LoweringShape
  import opened LoweringSteps
  import opened SourceMeaning
  import opened LoweringMeaning

  /** i is the innermost scope that has x. */
  ghost predicate Innermost<T>(scopes: Scopes<T>, x: string, i: nat) {
    i < |scopes| && x in scopes[i] && forall j :: i < j < |scopes| ==> x !in scopes[j]
  }

  /** A declaration in an inner scope hides those further out. */
  lemma {:induction false} FindIsInnermost<T>(scopes: Scopes<T>, x: string, default: T, i: nat)
    requires Innermost(scopes, x, i)
    ensures Find(scopes, x, default) == scopes[i][x]
  {
    if i < |scopes| - 1 {
      FindIsInnermost(scopes[..|scopes|-1], x, default, i);
    }
  }

  /** An assignment changes that variable and no other. */
  lemma {:induction false} StoreIsInnermost(env: Env, x: string, v: int, i: nat)
    requires Innermost(env, x, i)
    ensures Store(env, x, v) == env[i := env[i][x := v]]
  {
    var n := |env| - 1;
    if i < n {
      StoreIsInnermost(env[..n], x, v, i);
      assert env[..n][i := env[i][x := v]] + [env[n]] == env[i := env[i][x := v]];
    }
  }

  const INNER: seq<Stmt> := [Declare("x", Number(2)), Set("x", Number(3))]

  /** x = 1; if (1) { x = 2; x = 3; }, where the if declares an x of its own. */
  const HIDING: seq<Stmt> := [Declare("x", Number(1)), If(Number(1), INNER)]

  /** A name may be declared again in an inner scope, and the outer variable keeps its value. */
  lemma {:induction false} InnerNameHides(ops: Ops)
    ensures GoodBody(HIDING) && RunSource(ops, HIDING, 0) == Done([map["x" := 1]])
  {
    HidingIsGood();
    var m: map<string, int> := map[];
    var one: Env := [map["x" := 1]];
    assert [m][..0] + [m["x" := 1]] == one;
    assert Exec(ops, HIDING[0], [m], 0) == Done(one);
    var two: Env, three: Env := one + [m["x" := 2]], one + [m["x" := 3]];
    assert (one + [m])[..1] == one && Bind(one + [m], "x", 2) == two;
    assert Exec(ops, INNER[0], one + [m], 0) == Done(two);
    StoreIsInnermost(two, "x", 3, 1);
    assert m["x" := 2]["x" := 3] == m["x" := 3];
    assert two[1 := two[1]["x" := 3]] == three;
    assert Exec(ops, INNER[1], two, 0) == Done(three);
    assert INNER[1..] == [INNER[1]] && [INNER[1]][1..] == [];
    assert ExecAll(ops, [INNER[1]], two, 0) == ExecAll(ops, [], three, 0) == Done(three);
    assert ExecAll(ops, INNER, one + [m], 0) == Done(three);
    assert three[..1] == one;
    assert Exec(ops, HIDING[1], one, 0) == Done(one);
    assert HIDING[1..] == [HIDING[1]] && [HIDING[1]][1..] == [];
    assert ExecAll(ops, [HIDING[1]], one, 0) == ExecAll(ops, [], one, 0) == Done(one);
  }

  lemma {:induction false} HidingIsGood()
    ensures GoodBody(HIDING)
  {
    var empty: set<string> := {};
    var none: Names := [empty];
    var names: Names := [{"x"}];
    assert empty + {"x"} == {"x"} && none[..0] + [none[0] + {"x"}] == names;
    assert AddName(none, "x") == names;
    var n1: Names := names + [empty];
    var n2: Names := names + [{"x"}];
    assert n1[..1] == names && n1[1] + {"x"} == {"x"} && n1[..1] + [n1[1] + {"x"}] == n2;
    assert AddName(n1, "x") == n2;
    assert "x" in n2[1] && Knows(n2, "x");
    assert INNER[1..] == [INNER[1]] && [INNER[1]][1..] == [] && HIDING[1..] == [HIDING[1]] && [HIDING[1]][1..] == [];
    assert Scoped(INNER[1], n2) && AllScoped([], n2);
    assert AllScoped([INNER[1]], n2);
    assert AllScoped(INNER, n1);
    assert Scoped(HIDING[1], names) && AllScoped([], names);
    assert AllScoped([HIDING[1]], names);
    assert NoSelfInits([]) && NoSelfInits([INNER[1]]) && NoSelfInits(INNER) && NoSelfInits([HIDING[1]]);
    assert ProperStmts([]) && ProperStmts([INNER[1]]) && ProperStmts(INNER) && Proper([HIDING[1]]);
  }

  /** An expression is accepted exactly if every variable it mentions is declared in some scope. */
  lemma {:induction false} ExprScopedIffKnown(e: Expr, names: Names)
    ensures ExprScoped(e, names) <==> forall x :: Mentions(e, x) ==> Knows(names, x)
  {
    match e
    case Number(_) =>
    case Variable(x) =>
      assert Mentions(e, x);
    case BinaryExp(_, l, r) =>
      ExprScopedIffKnown(l, names);
      ExprScopedIffKnown(r, names);
      assert forall x :: Mentions(e, x) <==> Mentions(l, x) || Mentions(r, x);
  }

  lemma {:induction false} KnowsMore(names: Names, x: string, y: string)
    requires names != []
    ensures Knows(AddName(names, x), y) <==> y == x || Knows(names, y)
  {
    var more, n := AddName(names, x), |names| - 1;
    assert more[n] == names[n] + {x} && forall i :: 0 <= i < n ==> more[i] == names[i];
    if Knows(names, y) {
      var i :| 0 <= i < |names| && y in names[i];
      assert y in more[i];
    }
    if y == x {
      assert y in more[n];
    }
  }

  /** A declaration is accepted exactly if its name is new in the innermost scope and the other variables of the
      initialiser are declared; an assignment exactly if all its variables are. */
  lemma {:induction false} DeclaredOnce(x: string, e: Expr, names: Names)
    requires names != []
    ensures Scoped(Declare(x, e), names) <==>
      (x !in names[|names|-1] && forall y :: Mentions(e, y) && y != x ==> Knows(names, y))
    ensures Scoped(Set(x, e), names) <==> (Knows(names, x) && forall y :: Mentions(e, y) ==> Knows(names, y))
  {
    ExprScopedIffKnown(e, AddName(names, x));
    ExprScopedIffKnown(e, names);
    forall y
      ensures Knows(AddName(names, x), y) <==> y == x || Knows(names, y)
    {
      KnowsMore(names, x, y);
    }
  }

  /** The variables of an expression from left to right. */
  function Reads(e: Expr): seq<string> {
    match e
    case Number(_) => []
    case Variable(x) => [x]
    case BinaryExp(_, l, r) => Reads(l) + Reads(r)
  }

  /** The registers that instructions load, in order. */
  function Loads(insts: seq<Inst>): seq<nat> {
    if insts == [] then [] else (if insts[0].Load? then [insts[0].reg] else []) + Loads(insts[1..])
  }

  lemma {:induction false} LoadsConcat(a: seq<Inst>, b: seq<Inst>)
    ensures Loads(a + b) == Loads(a) + Loads(b)
  {
    if a == [] {
      assert a + b == b;
    } else {
      assert (a + b)[0] == a[0] && (a + b)[1..] == a[1..] + b;
      LoadsConcat(a[1..], b);
    }
  }

  function RegsOf(scopes: Scopes<nat>, names: seq<string>): (r: seq<nat>)
    ensures |r| == |names| && forall i :: 0 <= i < |r| ==> r[i] == Find(scopes, names[i], 0)
  {
    seq(|names|, i requires 0 <= i < |names| => Find(scopes, names[i], 0))
  }

  lemma {:induction false} RegsConcat(scopes: Scopes<nat>, a: seq<string>, b: seq<string>)
    ensures RegsOf(scopes, a + b) == RegsOf(scopes, a) + RegsOf(scopes, b)
  {
  }

  lemma {:induction false} ReadsOfBinary(op: BinaryOp, l: Expr, r: Expr)
    ensures Reads(BinaryExp(op, l, r)) == Reads(l) + Reads(r)
  {
  }

  lemma {:induction false} CodeOfBinary(c: Ctx, op: BinaryOp, l: Expr, r: Expr)
    requires c.Valid()
    ensures var (c1, v) := LowerExpr(c, l); var (c2, w) := LowerExpr(c1, r);
      LowerExpr(c, BinaryExp(op, l, r)).0.code[c.block] == c2.code[c.block] + [Binary(op, v, w)]
  {
  }

  lemma {:induction false} Parts(a: seq<Inst>, b: seq<Inst>, c: seq<Inst>, last: Inst)
    requires a <= b <= c && last.Binary?
    ensures Loads((c + [last])[|a|..]) == Loads(b[|a|..]) + Loads(c[|b|..])
  {
    var left, right := b[|a|..], c[|b|..];
    assert (c + [last])[|a|..] == left + right + [last];
    LoadsConcat(left + right, [last]);
    LoadsConcat(left, right);
    assert [last][1..] == [] && Loads([last]) == [];
  }

  /** The code of an expression loads its variables from left to right, each once for every time it is named. */
  lemma {:induction false} ReadsInOrder(c: Ctx, e: Expr)
    requires c.Valid()
    ensures var c' := LowerExpr(c, e).0;
      End(c) <= End(c') && Loads(c'.code[c.block][End(c)..]) == RegsOf(c.scopes, Reads(e))
    decreases e
  {
    ExprAppended(c, e);
    var b, n := c.block, End(c);
    match e
    case Number(_) =>
      assert c.code[b][n..] == [];
    case Variable(x) =>
      var code := LowerExpr(c, e).0.code[b];
      assert code[n..] == [Load(Find(c.scopes, x, 0))] && [Load(Find(c.scopes, x, 0))][1..] == [];
      assert Loads(code[n..]) == [Find(c.scopes, x, 0)];
    case BinaryExp(op, l, r) =>
      var (c1, v) := LowerExpr(c, l);
      var (c2, w) := LowerExpr(c1, r);
      ReadsInOrder(c, l);
      ReadsInOrder(c1, r);
      ExprAppended(c, l);
      ExprAppended(c1, r);
      hide LowerExpr, Loads, Reads;
      Parts(c.code[b], c1.code[b], c2.code[b], Binary(op, v, w));
      RegsConcat(c.scopes, Reads(l), Reads(r));
      assert Reads(e) == Reads(l) + Reads(r) by { ReadsOfBinary(op, l, r); }
      assert LowerExpr(c, e).0.code[b] == c2.code[b] + [Binary(op, v, w)] by { CodeOfBinary(c, op, l, r); }
  }

  /** An operator gets its left operand on the left. */
  lemma {:induction false} OperandsInOrder(c: Ctx, op: BinaryOp, x: string, y: string)
    requires c.Valid()
    ensures var c', k := LowerExpr(c, BinaryExp(op, Variable(x), Variable(y))).0, End(c);
      c'.code[c.block] == c.code[c.block] + [Load(Find(c.scopes, x, 0)), Load(Find(c.scopes, y, 0)),
                                             Binary(op, Result(c.block, k), Result(c.block, k + 1))]
  {
  }
}
