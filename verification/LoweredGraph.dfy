/** Every graph the lowering builds, for whatever syntax tree, meets what the dominator computation needs:
    nothing leads to the entry, what leads to a reachable block is reachable, and the first listed
    predecessor of a reachable block dominates it. */
module LoweredGraph {
  import opened Graphs
  import opened Postorders
  import opened Lowering
  import opened LoweringShape

  /** The one empty block in which the lowering of a function body starts. */
  const START: Ctx := Ctx([[]], [[]], 0, [map[]], 0)

  lemma {:induction false} StartIsEntered()
    ensures EnterBlock(EMPTY) == START
  {
    assert EMPTY.scopes + [map[]] == [map[]];
  }

  lemma {:induction false} BodyBuilt(body: seq<Stmt>) returns (c: Ctx, dead: set<nat>)
    ensures c == LowerStmts(START, body) && Built(START, c, dead)
    ensures LowerFunction(body) == LeaveBlock(EMPTY, c) && CfgOf(LowerFunction(body)) == CfgOf(c)
  {
    StartIsEntered();
    c := LowerStmts(START, body);
    dead := StmtsBuilt(START, body);
    assert CfgOf(LowerFunction(body)).succ == CfgOf(c).succ;
  }

  lemma {:induction false} GraphInRange(c: Ctx, dead: set<nat>)
    requires Built(START, c, dead)
    ensures InRange(CfgOf(c)) && c.pred[0] == []
  {
    var g := CfgOf(c);
    forall b, s | 0 <= b < |g.succ| && s in g.succ[b]
      ensures s < |g.succ|
    {
      assert EdgesListed(START, c, b);
    }
    forall b, p | 0 <= b < |g.pred| && p in g.pred[b]
      ensures p < |g.pred|
    {
      if b > 0 {
        assert HungAt(START, c, b);
      }
    }
  }

  /** Walks from the entry never meet a dead block. */
  lemma {:induction false} WalksAreAlive(c: Ctx, dead: set<nat>, p: seq<nat>, x: nat)
    requires Built(START, c, dead) && PathTo(CfgOf(c), p, x)
    ensures x !in dead
    decreases |p|
  {
    if |p| > 1 {
      PathInit(CfgOf(c), p, x);
      WalksAreAlive(c, dead, p[..|p|-1], p[|p|-2]);
      assert Inside(START, c, p[|p|-2]);
    }
  }

  /** Every block that is not dead is reachable: go back over first listed predecessors. */
  lemma {:induction false} AliveIsReachable(c: Ctx, dead: set<nat>, x: nat)
    requires Built(START, c, dead) && x < |c.code| && x !in dead
    ensures Reachable(CfgOf(c), x)
  {
    var g := CfgOf(c);
    if x == 0 {
      assert PathTo(g, [0], 0);
    } else {
      assert HungAt(START, c, x) && Alive(START, c, dead, x);
      var p := c.pred[x][0];
      assert p in c.pred[x];
      AliveIsReachable(c, dead, p);
      ReachableStep(g, p, x);
    }
  }

  /** A block on the chain of x is on every walk to x. */
  lemma {:induction false} ChainIsOnWalk(c: Ctx, dead: set<nat>, p: seq<nat>, x: nat, a: nat)
    requires Built(START, c, dead) && PathTo(CfgOf(c), p, x) && Chain(c.pred, x, a)
    ensures a in p
    decreases |p|
  {
    hide Local, Hung, Linked;
    var g := CfgOf(c);
    if a == x {
      assert p[|p|-1] in p;
    } else {
      var f := WalkMeetsFirst(c, dead, p, x);
      PathPrefix(g, p, x, f);
      ChainIsOnWalk(c, dead, p[..f+1], c.pred[x][0], a);
      assert forall y :: y in p[..f+1] ==> y in p;
    }
  }

  /** The walk has passed the first listed predecessor of its end. */
  lemma {:induction false} WalkMeetsFirst(c: Ctx, dead: set<nat>, p: seq<nat>, x: nat) returns (f: nat)
    requires Built(START, c, dead) && PathTo(CfgOf(c), p, x) && |c.pred[x]| > 0
    ensures f < |p| - 1 && p[f] == c.pred[x][0]
    decreases |p|, 0
  {
    var g := CfgOf(c);
    GraphInRange(c, dead);
    assert |p| > 1;
    var q := p[..|p|-1];
    PathInit(g, p, x);
    assert EdgesListed(START, c, p[|p|-2]) && HungAt(START, c, x);
    assert p[|p|-2] in c.pred[x];
    ChainIsOnWalk(c, dead, q, p[|p|-2], c.pred[x][0]);
    f :| 0 <= f < |q| && q[f] == c.pred[x][0];
  }

  lemma {:induction false} EdgesAgree(c: Ctx, dead: set<nat>, b: nat)
    requires Built(START, c, dead) && InRange(CfgOf(c)) && b < |c.code| && b !in dead
    ensures Agrees(CfgOf(c), b)
    ensures forall p :: p in c.pred[b] ==> p < |c.code| && p !in dead
  {
    var g := CfgOf(c);
    forall p | 0 <= p < |g.succ|
      ensures p in g.pred[b] <==> b in g.succ[p]
    {
      assert EdgesListed(START, c, p);
      if b > 0 {
        assert Alive(START, c, dead, b);
      }
    }
    if b > 0 {
      assert Alive(START, c, dead, b);
    }
  }

  lemma {:induction false} BuiltIsConnected(c: Ctx, dead: set<nat>)
    requires Built(START, c, dead)
    ensures WellConnected(CfgOf(c))
  {
    var g := CfgOf(c);
    GraphInRange(c, dead);
    forall b: nat | b < |g.succ| && Reachable(g, b)
      ensures Agrees(g, b) && forall p :: p in g.pred[b] ==> Reachable(g, p)
    {
      var q :| PathTo(g, q, b);
      WalksAreAlive(c, dead, q, b);
      EdgesAgree(c, dead, b);
      forall p | p in g.pred[b]
        ensures Reachable(g, p)
      {
        AliveIsReachable(c, dead, p);
      }
    }
  }

  lemma {:induction false} FirstDominates(c: Ctx, dead: set<nat>, b: nat)
    requires Built(START, c, dead) && 0 < b < |c.code|
    ensures |c.pred[b]| > 0 && StrictlyDominates(CfgOf(c), c.pred[b][0], b)
  {
    var g := CfgOf(c);
    assert HungAt(START, c, b);
    var f := c.pred[b][0];
    forall p | PathTo(g, p, b)
      ensures f in p
    {
      ChainIsOnWalk(c, dead, p, b, f);
    }
  }

  /** Whatever the tree: the lowered function has the graph that the dominator computation relies on. */
  lemma {:induction false} LoweredIsConnected(body: seq<Stmt>)
    ensures WellConnected(CfgOf(LowerFunction(body))) && FirstPredDominates(CfgOf(LowerFunction(body)))
  {
    hide Built, LowerFunction, LowerStmts, LeaveBlock;
    var c, dead := BodyBuilt(body);
    BuiltIsConnected(c, dead);
    forall b: nat | b < |c.pred| && Reachable(CfgOf(c), b) && b != 0
      ensures |c.pred[b]| > 0 && StrictlyDominates(CfgOf(c), c.pred[b][0], b)
    {
      FirstDominates(c, dead, b);
    }
  }
}
