/** The depth-first numbers of a lowered loop: its body is numbered before its exit. */
module LoopOrder {
  import opened Graphs
  import opened Postorders
  import opened Lowering
  import opened LoweringShape
  import opened LoweringSteps
  import opened LoweredGraph
  import opened LoweringLimits

  /** A block that alone leads to its two successors, of which it dominates the first. */
  lemma {:induction false} FirstBranchIsFirst(g: Cfg, order: seq<nat>, number: map<nat, nat>, h: nat, a: nat, e: nat)
    requires Renumberable(g, order, number) && order == DepthFirst(g) && FirstPredDominates(g)
    requires Reachable(g, h) && h < |g.succ| && g.succ[h] == [a, e] && a != e
    requires a < |g.pred| && e < |g.pred| && g.pred[a] == [h] && g.pred[e] == [h]
    ensures a in number && e in number && number[a] < number[e]
  {
    assert a in g.succ[h] && e in g.succ[h];
    ReachableStep(g, h, a);
    ReachableStep(g, h, e);
    assert Agrees(g, a) && Agrees(g, e);
    DepthFirstInOrder(g, order, number);
    assert g.succ[h][..1] == [a];
    assert InOrder(g, number, h, 0, 1);
  }

  /** Where the parts of a while are in the code of the whole function. */
  lemma {:induction false} LoopBlocks(pre: seq<Stmt>, cond: Expr, body: seq<Stmt>, post: seq<Stmt>)
    ensures var g := CfgOf(LowerFunction(pre + [While(cond, body)] + post));
      var head, first, exit := |BeforeLoop(pre).code|, |BeforeLoop(pre).code| + 1, |BodyEnd(pre, body).code|;
      && first < exit < |g.succ| == |g.pred|
      && g.succ[head] == [first, exit] && g.pred[first] == [head] && g.pred[exit] == [head]
  {
    hide Local, Extends, LowerStmt, LowerStmts, LowerFunction, LowerExpr;
    var c := BeforeLoop(pre);
    StmtsReady(START, pre);
    var h, inner, k, l, v, r := WhileSteps(c, cond, body);
    StmtsReady(r, post);
    Concats(pre, While(cond, body), post);
    var f, _ := BodyBuilt(pre + [While(cond, body)] + post);
    LocalBlocks(EnterBlock(h), inner);
    LocalKeeps(r, f);
  }

  lemma {:induction false} LocalBlocks(c: Ctx, c': Ctx)
    requires Local(c, c')
    ensures |c.code| <= |c'.code|
  {
  }

  lemma {:induction false} LocalKeeps(c: Ctx, c': Ctx)
    requires Local(c, c')
    ensures |c.code| <= |c'.code| == |c'.pred|
    ensures forall b :: 0 <= b < |c.code| && b != c.block ==> c'.code[b] == c.code[b]
    ensures forall b :: 0 <= b < |c.code| ==> c'.pred[b] == c.pred[b]
  {
  }

  /** The body of a while is numbered before its exit, whatever surrounds the loop. */
  lemma {:induction false} BodyBeforeExit(pre: seq<Stmt>, cond: Expr, body: seq<Stmt>, post: seq<Stmt>,
                                          order: seq<nat>, number: map<nat, nat>)
    requires var g := CfgOf(LowerFunction(pre + [While(cond, body)] + post));
      IsNumbering(g, order, number) && InRange(g) && order == DepthFirst(g) && Reachable(g, |BeforeLoop(pre).code|)
    ensures var first, exit := |BeforeLoop(pre).code| + 1, |BodyEnd(pre, body).code|;
      first in number && exit in number && number[first] < number[exit]
  {
    hide LowerFunction, LowerStmts, IsNumbering, WellConnected, FirstPredDominates, CfgOf;
    var ss := pre + [While(cond, body)] + post;
    LoopBlocks(pre, cond, body, post);
    LoweredIsConnected(ss);
    FirstBranchIsFirst(CfgOf(LowerFunction(ss)), order, number, |BeforeLoop(pre).code|, |BeforeLoop(pre).code| + 1,
                       |BodyEnd(pre, body).code|);
  }
}
