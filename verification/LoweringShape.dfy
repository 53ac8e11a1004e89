/** The graphs the lowering builds: for every syntax tree they meet what the dominator computation and SSA
    conversion rely on. */
module LoweringShape {
  import opened Postorders
  import opened IR
  import opened Lowering

  /** The last instruction leads nowhere yet. */
  predicate Open(insts: seq<Inst>) {
    Successors(insts) == []
  }

  /** a is reached from p by going from block to first listed predecessor, always to smaller numbers. */
  ghost predicate Chain(pred: seq<seq<nat>>, p: nat, a: nat)
    decreases p
  {
    p < |pred| && (a == p || (|pred[p]| > 0 && pred[p][0] < p && Chain(pred, pred[p][0], a)))
  }

  lemma {:induction false} ChainTransitive(pred: seq<seq<nat>>, p: nat, a: nat, b: nat)
    requires Chain(pred, p, a) && Chain(pred, a, b)
    ensures Chain(pred, p, b)
    decreases p
  {
    if a != p {
      ChainTransitive(pred, pred[p][0], a, b);
    }
  }

  /** Only the lists of the blocks on the chain matter. */
  lemma {:induction false} ChainKept(pred: seq<seq<nat>>, pred': seq<seq<nat>>, p: nat, a: nat)
    requires Chain(pred, p, a) && |pred| <= |pred'|
    requires forall b :: 0 <= b < |pred| && |pred[b]| > 0 ==> |pred'[b]| > 0 && pred'[b][0] == pred[b][0]
    ensures Chain(pred', p, a)
    decreases p
  {
    if a != p {
      ChainKept(pred, pred', pred[p][0], a);
    }
  }

  /** b is the block in which lowering started, or was created since. */
  predicate Inside(c: Ctx, c': Ctx, b: nat) {
    b == c.block || |c.code| <= b < |c'.code|
  }

  predicate New(c: Ctx, c': Ctx, b: nat) {
    |c.code| <= b < |c'.code|
  }

  /** Lowering has touched nothing but the current block and new ones. */
  ghost predicate Local(c: Ctx, c': Ctx) {
    && c.Valid() && c'.Valid() && |c.code| <= |c'.code|
    && (forall b :: 0 <= b < |c.code| && b != c.block ==> c'.code[b] == c.code[b])
    && (forall b :: 0 <= b < |c.code| ==> c'.pred[b] == c.pred[b])
    && c.code[c.block] <= c'.code[c.block]
    && Inside(c, c', c'.block)
    && Open(c.code[c.block]) && Open(c'.code[c'.block])
  }

  /** The predecessors of b are inside, and the first listed one is on the chain of all of them. */
  ghost predicate HungAt(c: Ctx, c': Ctx, b: nat)
    requires Local(c, c') && b < |c'.pred|
  {
    && |c'.pred[b]| > 0 && c'.pred[b][0] < b
    && forall p :: p in c'.pred[b] ==> Inside(c, c', p) && Chain(c'.pred, p, c'.pred[b][0])
  }

  ghost predicate Hung(c: Ctx, c': Ctx)
    requires Local(c, c')
  {
    && (forall b: nat :: New(c, c', b) ==> HungAt(c, c', b))
    && Chain(c'.pred, c'.block, c.block)
  }

  /** Every successor of p is a new block that lists p. */
  ghost predicate EdgesListed(c: Ctx, c': Ctx, p: nat)
    requires Local(c, c') && p < |c'.code|
  {
    forall s :: s in Successors(c'.code[p]) ==> New(c, c', s) && p in c'.pred[s]
  }

  /** All listed predecessors of b are alive and really lead to b. */
  ghost predicate Alive(c: Ctx, c': Ctx, dead: set<nat>, b: nat)
    requires Local(c, c') && b < |c'.pred|
  {
    forall p :: p in c'.pred[b] ==> p !in dead && p < |c'.code| && b in Successors(c'.code[p])
  }

  /** dead are the new blocks that no longer have an edge from outside because the block that led to them
      got another terminator. */
  ghost predicate Linked(c: Ctx, c': Ctx, dead: set<nat>)
    requires Local(c, c')
  {
    && (forall b :: b in dead ==> New(c, c', b)) && c'.block !in dead
    && (forall p: nat :: Inside(c, c', p) ==> EdgesListed(c, c', p))
    && (forall b: nat :: New(c, c', b) && b !in dead ==> Alive(c, c', dead, b))
    && (forall p: nat, b: nat :: Inside(c, c', p) && p !in dead && b in Successors(c'.code[p]) ==> b !in dead)
  }

  ghost predicate Built(c: Ctx, c': Ctx, dead: set<nat>) {
    Local(c, c') && Hung(c, c') && Linked(c, c', dead)
  }

  // ---------------------------------------------------------------- straight code

  /** Only instructions that lead nowhere were appended, to the current block. */
  ghost predicate Appended(c: Ctx, c': Ctx) {
    && c.Valid() && c'.Valid() && c'.pred == c.pred && c'.block == c.block
    && |c'.code| == |c.code| && c.code[c.block] <= c'.code[c.block]
    && c'.code == c.code[c.block := c'.code[c.block]]
    && forall k :: |c.code[c.block]| <= k < |c'.code[c.block]| ==> c'.code[c.block][k].Targets() == []
  }

  lemma {:induction false} AppendedBuilt(c: Ctx, c': Ctx)
    requires Appended(c, c') && Open(c.code[c.block])
    ensures Built(c, c', {})
  {
    var a, b := c.code[c.block], c'.code[c.block];
    assert |b| > |a| ==> b[|b|-1].Targets() == [];
    assert |b| == |a| ==> b == a;
  }

  lemma {:induction false} AppendedTrans(c: Ctx, c1: Ctx, c2: Ctx)
    requires Appended(c, c1) && Appended(c1, c2)
    ensures Appended(c, c2)
  {
    var b := c.block;
    assert c2.code[b][..|c.code[b]|] == c1.code[b][..|c.code[b]|];
    forall k | |c.code[b]| <= k < |c2.code[b]|
      ensures c2.code[b][k].Targets() == []
    {
      if k < |c1.code[b]| {
        assert c2.code[b][k] == c1.code[b][k];
      }
    }
  }

  lemma {:induction false} EmitAppended(c: Ctx, inst: Inst)
    requires c.Valid() && inst.Targets() == []
    ensures Appended(c, Emit(c, c.block, inst))
  {
  }

  lemma {:induction false} ExprAppended(c: Ctx, e: Expr)
    requires c.Valid()
    ensures Appended(c, LowerExpr(c, e).0)
    decreases e
  {
    match e
    case Number(_) =>
    case Variable(x) =>
      EmitAppended(c, Load(Find(c.scopes, x, 0)));
    case BinaryExp(op, l, r) =>
      var (c1, v) := LowerExpr(c, l);
      var (c2, w) := LowerExpr(c1, r);
      ExprAppended(c, l);
      ExprAppended(c1, r);
      EmitAppended(c2, Binary(op, v, w));
      AppendedTrans(c, c1, c2);
      AppendedTrans(c, c2, LowerExpr(c, e).0);
  }

  lemma {:induction false} AssignAppended(c: Ctx, x: string, e: Expr)
    requires c.Valid()
    ensures Appended(c, LowerAssign(c, x, e))
  {
    var (c1, v) := LowerExpr(c, e);
    ExprAppended(c, e);
    EmitAppended(c1, Assign(Find(c.scopes, x, 0), v));
    AppendedTrans(c, c1, LowerAssign(c, x, e));
  }

  // ---------------------------------------------------------------- composition

  lemma {:induction false} LocalTrans(c: Ctx, c1: Ctx, c2: Ctx)
    requires Local(c, c1) && Local(c1, c2)
    ensures Local(c, c2)
  {
    if c1.block != c.block {
      assert c2.code[c.block] == c1.code[c.block];
    } else {
      assert c2.code[c.block][..|c.code[c.block]|] == c1.code[c.block][..|c.code[c.block]|];
    }
  }

  lemma {:induction false} HungTrans(c: Ctx, c1: Ctx, c2: Ctx)
    requires Local(c, c1) && Local(c1, c2) && Local(c, c2) && Hung(c, c1) && Hung(c1, c2)
    ensures Hung(c, c2)
  {
    forall b: nat | New(c, c2, b)
      ensures HungAt(c, c2, b)
    {
      if New(c, c1, b) {
        assert HungAt(c, c1, b) && c2.pred[b] == c1.pred[b];
        forall p | p in c1.pred[b]
          ensures Chain(c2.pred, p, c1.pred[b][0])
        {
          ChainKept(c1.pred, c2.pred, p, c1.pred[b][0]);
        }
      } else {
        assert HungAt(c1, c2, b);
      }
    }
    ChainKept(c1.pred, c2.pred, c1.block, c.block);
    ChainTransitive(c2.pred, c2.block, c1.block, c.block);
  }

  lemma {:induction false} EdgesTrans(c: Ctx, c1: Ctx, c2: Ctx, d1: set<nat>, d2: set<nat>, p: nat)
    requires Local(c, c1) && Local(c1, c2) && Local(c, c2)
    requires Linked(c, c1, d1) && Linked(c1, c2, d2) && Inside(c, c2, p)
    ensures EdgesListed(c, c2, p)
    ensures p !in d1 + d2 ==> forall b :: b in Successors(c2.code[p]) ==> b !in d1 + d2
  {
    if Inside(c1, c2, p) {
      assert EdgesListed(c1, c2, p);
    } else {
      assert Inside(c, c1, p) && EdgesListed(c, c1, p) && c2.code[p] == c1.code[p];
    }
  }

  lemma {:induction false} AliveTrans(c: Ctx, c1: Ctx, c2: Ctx, d1: set<nat>, d2: set<nat>, b: nat)
    requires Local(c, c1) && Local(c1, c2) && Local(c, c2) && Hung(c1, c2)
    requires Linked(c, c1, d1) && Linked(c1, c2, d2) && New(c, c2, b) && b !in d1 + d2
    ensures Alive(c, c2, d1 + d2, b)
  {
    if New(c, c1, b) {
      assert Alive(c, c1, d1, b);
      forall p | p in c2.pred[b]
        ensures p !in d1 + d2 && p < |c2.code| && b in Successors(c2.code[p])
      {
        assert p in c1.pred[b];
      }
    } else {
      assert Alive(c1, c2, d2, b) && HungAt(c1, c2, b);
    }
  }

  lemma {:induction false} LinkedTrans(c: Ctx, c1: Ctx, c2: Ctx, d1: set<nat>, d2: set<nat>)
    requires Local(c, c1) && Local(c1, c2) && Local(c, c2) && Hung(c1, c2)
    requires Linked(c, c1, d1) && Linked(c1, c2, d2)
    ensures Linked(c, c2, d1 + d2)
  {
    forall p: nat | Inside(c, c2, p)
      ensures EdgesListed(c, c2, p)
      ensures p !in d1 + d2 ==> forall b :: b in Successors(c2.code[p]) ==> b !in d1 + d2
    {
      EdgesTrans(c, c1, c2, d1, d2, p);
    }
    forall b: nat | New(c, c2, b) && b !in d1 + d2
      ensures Alive(c, c2, d1 + d2, b)
    {
      AliveTrans(c, c1, c2, d1, d2, b);
    }
  }

  lemma {:induction false} BuiltTrans(c: Ctx, c1: Ctx, c2: Ctx, d1: set<nat>, d2: set<nat>)
    requires Built(c, c1, d1) && Built(c1, c2, d2)
    ensures Built(c, c2, d1 + d2)
  {
    LocalTrans(c, c1, c2);
    HungTrans(c, c1, c2);
    LinkedTrans(c, c1, c2, d1, d2);
  }

  lemma {:induction false} OnePred(pred: seq<seq<nat>>, t: nat, b: nat)
    requires t < |pred|
    ensures AddPreds(pred, [t], b) == pred[t := pred[t] + [b]]
  {
    assert [t][1..] == [];
    assert AddPreds(pred[t := pred[t] + [b]], [], b) == pred[t := pred[t] + [b]];
  }

  lemma {:induction false} TwoPreds(pred: seq<seq<nat>>, t: nat, u: nat, b: nat)
    requires t < |pred| && u < |pred| && t != u
    ensures AddPreds(pred, [t, u], b) == pred[t := pred[t] + [b]][u := pred[u] + [b]]
  {
    assert [t, u][1..] == [u];
    OnePred(pred[t := pred[t] + [b]], u, b);
  }

  // ---------------------------------------------------------------- an if

  /** The blocks and lists behind an if whose body was lowered from c to inner. */
  ghost predicate IfResult(c: Ctx, inner: Ctx, r: Ctx, v: Value)
    requires c.Valid() && Local(EnterBlock(c), inner)
  {
    var cur, first, last, rest := c.block, |c.code|, inner.block, |inner.code|;
    && r.Valid() && |r.code| == rest + 1 && r.block == rest
    && r.code[cur] == c.code[cur] + [JumpCond(first, rest, v)]
    && last != cur && last < rest && r.code[last] == inner.code[last] + [Jump(rest)] && r.code[rest] == []
    && (forall b :: 0 <= b < rest && b != cur && b != last ==> r.code[b] == inner.code[b])
    && r.pred[first] == [cur] && r.pred[rest] == [cur, last]
    && (forall b :: 0 <= b < rest && b != first ==> r.pred[b] == inner.pred[b])
  }

  lemma {:induction false} IfTailResult(c: Ctx, inner: Ctx, v: Value)
    requires c.Valid() && Local(EnterBlock(c), inner) && |inner.scopes| > 0
    ensures IfResult(c, inner, IfTail(LeaveBlock(c, inner), |c.code|, inner.block, v), v)
  {
    var l := LeaveBlock(c, inner);
    var cur, first, last, rest := c.block, |c.code|, inner.block, |inner.code|;
    assert inner.pred[first] == EnterBlock(c).pred[first] == [];
    assert inner.code[cur] == c.code[cur];
    var l1 := NewBlock(l);
    TwoPreds(l1.pred, first, rest, cur);
    var l2 := Emit(l1, cur, JumpCond(first, rest, v));
    OnePred(l2.pred, rest, last);
    var r := IfTail(l, first, last, v);
    assert r.code[cur] == c.code[cur] + [JumpCond(first, rest, v)];
  }

  lemma {:induction false} IfLocal(c: Ctx, inner: Ctx, r: Ctx, v: Value)
    requires c.Valid() && Open(c.code[c.block]) && Local(EnterBlock(c), inner) && IfResult(c, inner, r, v)
    ensures Local(c, r)
  {
    var e := EnterBlock(c);
    forall b | 0 <= b < |c.code| && b != c.block
      ensures r.code[b] == c.code[b] && r.pred[b] == c.pred[b]
    {
      assert e.code[b] == c.code[b] && e.pred[b] == c.pred[b];
    }
    assert e.pred[c.block] == c.pred[c.block];
  }

  lemma {:induction false} IfHung(c: Ctx, inner: Ctx, r: Ctx, v: Value)
    requires c.Valid() && Open(c.code[c.block]) && Local(EnterBlock(c), inner) && Hung(EnterBlock(c), inner)
    requires IfResult(c, inner, r, v) && Local(c, r)
    ensures Hung(c, r)
  {
    var e := EnterBlock(c);
    var cur, first, last, rest := c.block, |c.code|, inner.block, |inner.code|;
    assert inner.pred[first] == e.pred[first] == [];
    ChainKept(inner.pred, r.pred, last, first);
    assert Chain(r.pred, first, cur);
    ChainTransitive(r.pred, last, first, cur);
    forall b: nat | New(c, r, b)
      ensures HungAt(c, r, b)
    {
      if b != first && b != rest {
        assert New(e, inner, b) && HungAt(e, inner, b);
        forall p | p in r.pred[b]
          ensures Inside(c, r, p) && Chain(r.pred, p, r.pred[b][0])
        {
          ChainKept(inner.pred, r.pred, p, inner.pred[b][0]);
        }
      }
    }
  }

  lemma {:induction false} IfLinked(c: Ctx, inner: Ctx, r: Ctx, v: Value, d: set<nat>)
    requires c.Valid() && Open(c.code[c.block]) && Local(EnterBlock(c), inner) && Hung(EnterBlock(c), inner)
    requires Linked(EnterBlock(c), inner, d) && IfResult(c, inner, r, v) && Local(c, r)
    ensures Linked(c, r, d)
  {
    var e := EnterBlock(c);
    var cur, first, last, rest := c.block, |c.code|, inner.block, |inner.code|;
    forall p: nat | Inside(c, r, p)
      ensures EdgesListed(c, r, p)
      ensures p !in d ==> forall b :: b in Successors(r.code[p]) ==> b !in d
    {
      if p == cur {
        assert Successors(r.code[p]) == [first, rest];
      } else if p == last {
        assert Successors(r.code[p]) == [rest];
      } else if p != rest {
        assert Inside(e, inner, p) && EdgesListed(e, inner, p);
      }
    }
    forall b: nat | New(c, r, b) && b !in d
      ensures Alive(c, r, d, b)
    {
      if b != first && b != rest {
        assert New(e, inner, b) && Alive(e, inner, d, b) && HungAt(e, inner, b);
      }
    }
  }

  lemma {:induction false} IfBuilt(c: Ctx, inner: Ctx, d: set<nat>, v: Value)
    requires c.Valid() && Open(c.code[c.block]) && Built(EnterBlock(c), inner, d) && |inner.scopes| > 0
    ensures Built(c, IfTail(LeaveBlock(c, inner), |c.code|, inner.block, v), d)
  {
    var r := IfTail(LeaveBlock(c, inner), |c.code|, inner.block, v);
    IfTailResult(c, inner, v);
    IfLocal(c, inner, r, v);
    IfHung(c, inner, r, v);
    IfLinked(c, inner, r, v, d);
  }

  // ---------------------------------------------------------------- a while

  lemma {:induction false} HeadResult(c: Ctx)
    requires c.Valid()
    ensures var h := WhileHead(c);
      && h.code == c.code[c.block := c.code[c.block] + [Jump(|c.code|)]] + [[]]
      && h.pred == c.pred + [[c.block]]
  {
    var l := NewBlock(c);
    OnePred(l.pred, |c.code|, c.block);
    assert l.pred[|c.code|] == [] && [] + [c.block] == [c.block];
    assert l.pred[|c.code| := [c.block]] == c.pred + [[c.block]];
  }

  /** The blocks and lists behind a while whose body was lowered from WhileHead(c) to inner. */
  ghost predicate WhileResult(c: Ctx, inner: Ctx, r: Ctx, pre: seq<Inst>, v: Value)
    requires c.Valid() && Local(EnterBlock(WhileHead(c)), inner)
  {
    var cur, head, first, exit := c.block, |c.code|, |c.code| + 1, |inner.code|;
    && r.Valid() && |r.code| == exit + 1 && r.block == exit
    && r.code[cur] == c.code[cur] + [Jump(head)]
    && r.code[head] == pre + [JumpCond(first, exit, v)]
    && r.code[first] == inner.code[first] + [Jump(head)] && r.code[exit] == []
    && (forall b :: 0 <= b < exit && b != cur && b != head && b != first ==> r.code[b] == inner.code[b])
    && r.pred[head] == [cur, first] && r.pred[first] == [head] && r.pred[exit] == [head]
    && (forall b :: 0 <= b < exit && b != head && b != first ==> r.pred[b] == inner.pred[b])
  }

  /** The state in which the condition of a while is lowered, behind its body. */
  function CondCtx(l: Ctx, head: nat, first: nat): (r: Ctx)
    requires l.Valid() && head < |l.code| && first < |l.code|
    ensures r.Valid()
  {
    NewBlock(Emit(l, first, Jump(head))).(block := head)
  }

  /** What the tail of a while adds: the jump back, the new exit, and the condition behind the head. */
  lemma {:induction false} WhileTailParts(l: Ctx, head: nat, first: nat, cond: Expr)
    requires l.Valid() && head < |l.code| && first < |l.code| && head != first && l.pred[first] == []
    ensures var r := WhileTail(l, head, first, cond); var exit := |l.code|;
      var (l2, v) := LowerExpr(CondCtx(l, head, first), cond);
      && r.code[head] == l2.code[head] + [JumpCond(first, exit, v)]
      && r.code[first] == l.code[first] + [Jump(head)] && r.code[exit] == []
      && (forall b :: 0 <= b < exit && b != head && b != first ==> r.code[b] == l.code[b])
      && r.pred[head] == l.pred[head] + [first] && r.pred[first] == [head] && r.pred[exit] == [head]
      && (forall b :: 0 <= b < exit && b != head && b != first ==> r.pred[b] == l.pred[b])
  {
    hide LowerExpr;
    var exit := |l.code|;
    OnePred(l.pred, head, first);
    var l1 := CondCtx(l, head, first);
    ExprAppended(l1, cond);
    TwoPreds(LowerExpr(l1, cond).0.pred, first, exit, head);
  }

  lemma {:induction false} WhileTailResult(c: Ctx, inner: Ctx, cond: Expr)
    requires c.Valid() && Local(EnterBlock(WhileHead(c)), inner) && |inner.scopes| > 0
    ensures var l := LeaveBlock(WhileHead(c), inner);
      var (l2, v) := LowerExpr(CondCtx(l, |c.code|, |c.code| + 1), cond);
      WhileResult(c, inner, WhileTail(l, |c.code|, |c.code| + 1, cond), l2.code[|c.code|], v)
  {
    hide WhileTail;
    var h := WhileHead(c);
    HeadResult(c);
    var e := EnterBlock(h);
    var cur, head, first := c.block, |c.code|, |c.code| + 1;
    assert inner.code[cur] == e.code[cur] == c.code[cur] + [Jump(head)];
    assert inner.pred[head] == e.pred[head] == [cur];
    assert inner.pred[first] == e.pred[first] == [];
    WhileTailParts(LeaveBlock(h, inner), head, first, cond);
  }

  lemma {:induction false} WhileLocal(c: Ctx, inner: Ctx, r: Ctx, pre: seq<Inst>, v: Value)
    requires c.Valid() && Open(c.code[c.block]) && Local(EnterBlock(WhileHead(c)), inner) && WhileResult(c, inner, r, pre, v)
    ensures Local(c, r)
  {
    HeadResult(c);
    var e := EnterBlock(WhileHead(c));
    forall b | 0 <= b < |c.code| && b != c.block
      ensures r.code[b] == c.code[b] && r.pred[b] == c.pred[b]
    {
      assert e.code[b] == c.code[b] && e.pred[b] == c.pred[b];
    }
    assert e.pred[c.block] == c.pred[c.block];
  }

  lemma {:induction false} WhileHung(c: Ctx, inner: Ctx, r: Ctx, pre: seq<Inst>, v: Value)
    requires c.Valid() && Open(c.code[c.block]) && Local(EnterBlock(WhileHead(c)), inner)
    requires Hung(EnterBlock(WhileHead(c)), inner) && WhileResult(c, inner, r, pre, v) && Local(c, r)
    ensures Hung(c, r)
  {
    HeadResult(c);
    var e := EnterBlock(WhileHead(c));
    var cur, head, first, exit := c.block, |c.code|, |c.code| + 1, |inner.code|;
    assert inner.pred[head] == e.pred[head] == [cur] && inner.pred[first] == e.pred[first] == [];
    assert Chain(r.pred, head, cur);
    assert Chain(r.pred, first, head);
    ChainTransitive(r.pred, first, head, cur);
    assert Chain(r.pred, exit, head);
    ChainTransitive(r.pred, exit, head, cur);
    forall b: nat | New(c, r, b)
      ensures HungAt(c, r, b)
    {
      if b != head && b != first && b != exit {
        assert New(e, inner, b) && HungAt(e, inner, b);
        forall p | p in r.pred[b]
          ensures Inside(c, r, p) && Chain(r.pred, p, r.pred[b][0])
        {
          ChainKept(inner.pred, r.pred, p, inner.pred[b][0]);
        }
      }
    }
  }

  /** Whatever the body created beyond its first block is dead now: that block jumps to the head. */
  ghost function BodyBlocks(c: Ctx, inner: Ctx): set<nat> {
    set b | b in Below(|inner.code|) && b >= |c.code| + 2
  }

  lemma {:induction false} WhileSuccessors(c: Ctx, inner: Ctx, r: Ctx, pre: seq<Inst>, v: Value)
    requires c.Valid() && Local(EnterBlock(WhileHead(c)), inner) && WhileResult(c, inner, r, pre, v)
    ensures var head, first, exit := |c.code|, |c.code| + 1, |inner.code|;
      && Successors(r.code[c.block]) == [head] && Successors(r.code[head]) == [first, exit]
      && Successors(r.code[first]) == [head] && Successors(r.code[exit]) == []
  {
  }

  lemma {:induction false} WhileLinked(c: Ctx, inner: Ctx, r: Ctx, pre: seq<Inst>, v: Value, d: set<nat>)
    requires c.Valid() && Open(c.code[c.block]) && Local(EnterBlock(WhileHead(c)), inner)
    requires Hung(EnterBlock(WhileHead(c)), inner) && Linked(EnterBlock(WhileHead(c)), inner, d)
    requires WhileResult(c, inner, r, pre, v) && Local(c, r)
    ensures Linked(c, r, BodyBlocks(c, inner))
  {
    HeadResult(c);
    WhileSuccessors(c, inner, r, pre, v);
    hide Hung, Open, Successors;
    var e := EnterBlock(WhileHead(c));
    var dead := BodyBlocks(c, inner);
    var cur, head, first, exit := c.block, |c.code|, |c.code| + 1, |inner.code|;
    forall p: nat | Inside(c, r, p)
      ensures EdgesListed(c, r, p)
      ensures p !in dead ==> forall b :: b in Successors(r.code[p]) ==> b !in dead
    {
      if p != cur && p != head && p != first && p != exit {
        assert Inside(e, inner, p) && EdgesListed(e, inner, p);
      }
    }
    forall b: nat | New(c, r, b) && b !in dead
      ensures Alive(c, r, dead, b)
    {
      assert b == head || b == first || b == exit;
    }
  }

  lemma {:induction false} WhileBuilt(c: Ctx, inner: Ctx, d: set<nat>, cond: Expr)
    requires c.Valid() && Open(c.code[c.block]) && |inner.scopes| > 0
    requires Built(EnterBlock(WhileHead(c)), inner, d)
    ensures Built(c, WhileTail(LeaveBlock(WhileHead(c), inner), |c.code|, |c.code| + 1, cond), BodyBlocks(c, inner))
  {
    var l := LeaveBlock(WhileHead(c), inner);
    var r := WhileTail(l, |c.code|, |c.code| + 1, cond);
    var (l2, v) := LowerExpr(CondCtx(l, |c.code|, |c.code| + 1), cond);
    var pre := l2.code[|c.code|];
    WhileTailResult(c, inner, cond);
    WhileLocal(c, inner, r, pre, v);
    WhileHung(c, inner, r, pre, v);
    WhileLinked(c, inner, r, pre, v, d);
  }

  // ---------------------------------------------------------------- all statements

  lemma {:induction false} SimpleBuilt(c: Ctx, s: Stmt)
    requires c.Valid() && c.scopes != [] && Open(c.code[c.block])
    requires s.Declare? || s.Set? || s.ReturnStmt?
    ensures Built(c, LowerStmt(c, s), {})
  {
    hide Built, Open, Appended, LowerExpr;
    match s
    case Declare(x, e) =>
      RegAppended(c, x, LowerAssign(NewReg(c, x), x, e)) by { AssignAppended(NewReg(c, x), x, e); }
      AppendedBuilt(c, LowerStmt(c, s));
    case Set(x, e) =>
      AssignAppended(c, x, e);
      AppendedBuilt(c, LowerStmt(c, s));
    case ReturnStmt =>
      EmitAppended(c, Return);
      AppendedBuilt(c, LowerStmt(c, s));
  }

  lemma {:induction false} RegAppended(c: Ctx, x: string, r: Ctx)
    requires c.Valid() && c.scopes != [] && Appended(NewReg(c, x), r)
    ensures Appended(c, r)
  {
  }

  lemma {:induction false} IfStmtBuilt(c: Ctx, cond: Expr, body: seq<Stmt>, dead: set<nat>)
    requires c.Valid() && c.scopes != [] && Open(c.code[c.block])
    requires var e := EnterBlock(LowerExpr(c, cond).0); Built(e, LowerStmts(e, body), dead)
    ensures Built(c, LowerStmt(c, If(cond, body)), dead)
  {
    hide Built, LowerExpr, IfTail;
    var (c1, v) := LowerExpr(c, cond);
    CondBuilt(c, cond);
    IfBuilt(c1, LowerStmts(EnterBlock(c1), body), dead, v);
    var r := IfTail(LeaveBlock(c1, LowerStmts(EnterBlock(c1), body)), |c1.code|, LowerStmts(EnterBlock(c1), body).block, v);
    BuiltTrans(c, c1, r, {}, dead);
    assert {} + dead == dead;
    assert LowerStmt(c, If(cond, body)) == r by { hide Built; }
  }

  lemma {:induction false} WhileStmtBuilt(c: Ctx, cond: Expr, body: seq<Stmt>, d: set<nat>)
    requires c.Valid() && c.scopes != [] && Open(c.code[c.block])
    requires var e := EnterBlock(WhileHead(c)); Built(e, LowerStmts(e, body), d)
    ensures Built(c, LowerStmt(c, While(cond, body)), BodyBlocks(c, LowerStmts(EnterBlock(WhileHead(c)), body)))
  {
    hide Built, LowerExpr, WhileTail;
    WhileBuilt(c, LowerStmts(EnterBlock(WhileHead(c)), body), d, cond);
  }

  lemma {:induction false} StmtBuilt(c: Ctx, s: Stmt) returns (dead: set<nat>)
    requires c.Valid() && c.scopes != [] && Open(c.code[c.block])
    ensures Built(c, LowerStmt(c, s), dead)
    decreases s, 0
  {
    hide Built, LowerStmt, LowerExpr, LowerStmts;
    match s
    case If(cond, body) =>
      var c1 := LowerExpr(c, cond).0;
      dead := StmtsBuilt(EnterBlock(c1), body);
      IfStmtBuilt(c, cond, body, dead);
    case While(cond, body) =>
      var d := StmtsBuilt(EnterBlock(WhileHead(c)), body);
      WhileStmtBuilt(c, cond, body, d);
      dead := BodyBlocks(c, LowerStmts(EnterBlock(WhileHead(c)), body));
    case _ =>
      SimpleBuilt(c, s);
      dead := {};
  }

  lemma {:induction false} CondBuilt(c: Ctx, cond: Expr)
    requires c.Valid() && Open(c.code[c.block])
    ensures var c1 := LowerExpr(c, cond).0; Built(c, c1, {}) && Open(c1.code[c1.block])
  {
    ExprAppended(c, cond);
    AppendedBuilt(c, LowerExpr(c, cond).0);
  }

  lemma {:induction false} StmtsBuilt(c: Ctx, ss: seq<Stmt>) returns (dead: set<nat>)
    requires c.Valid() && c.scopes != [] && Open(c.code[c.block])
    ensures Built(c, LowerStmts(c, ss), dead)
    decreases ss, 1
  {
    hide LowerStmt, Hung, Linked;
    if ss == [] {
      dead := {};
      assert Appended(c, c);
      AppendedBuilt(c, c);
    } else {
      var d1 := StmtBuilt(c, ss[0]);
      var d2 := StmtsBuilt(LowerStmt(c, ss[0]), ss[1..]);
      BuiltTrans(c, LowerStmt(c, ss[0]), LowerStmts(c, ss), d1, d2);
      dead := d1 + d2;
    }
  }
}
