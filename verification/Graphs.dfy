/** Control-flow graphs as the optimiser sees them: every block has a list of successors
    (read off its last instruction) and a list of predecessors (read off its use list). */
module Graphs {

  datatype Cfg = Cfg(entry: nat, succ: seq<seq<nat>>, pred: seq<seq<nat>>)

  ghost predicate InRange(g: Cfg) {
    && g.entry < |g.succ| == |g.pred|
    && (forall b, s :: 0 <= b < |g.succ| && s in g.succ[b] ==> s < |g.succ|)
    && (forall b, p :: 0 <= b < |g.pred| && p in g.pred[b] ==> p < |g.pred|)
  }

  /** The predecessor list of b names exactly the blocks that list b as a successor. */
  ghost predicate Agrees(g: Cfg, b: nat)
    requires InRange(g) && b < |g.succ|
  {
    forall p :: 0 <= p < |g.succ| ==> (p in g.pred[b] <==> b in g.succ[p])
  }

  /** A walk along edges, given by the blocks it passes. */
  ghost predicate IsPath(g: Cfg, p: seq<nat>) {
    && |p| > 0
    && (forall i :: 0 <= i < |p| ==> p[i] < |g.succ|)
    && (forall i :: 0 < i < |p| ==> p[i] in g.succ[p[i-1]])
  }

  ghost predicate PathTo(g: Cfg, p: seq<nat>, x: nat) {
    IsPath(g, p) && p[0] == g.entry && p[|p|-1] == x
  }

  ghost predicate Reachable(g: Cfg, x: nat) {
    exists p :: PathTo(g, p, x)
  }

  /** Dominance in the path sense: every walk from the entry to x passes through d. */
  ghost predicate Dominates(g: Cfg, d: nat, x: nat) {
    forall p :: PathTo(g, p, x) ==> d in p
  }

  ghost predicate StrictlyDominates(g: Cfg, d: nat, x: nat) {
    d != x && Dominates(g, d, x)
  }

  /** The closest strict dominator: every other strict dominator of x dominates it as well. */
  ghost predicate IsIDom(g: Cfg, d: nat, x: nat) {
    && StrictlyDominates(g, d, x)
    && forall e: nat :: StrictlyDominates(g, e, x) ==> Dominates(g, e, d)
  }

  lemma {:induction false} PathSnoc(g: Cfg, p: seq<nat>, x: nat, y: nat)
    requires PathTo(g, p, x) && y < |g.succ| && y in g.succ[x]
    ensures PathTo(g, p + [y], y)
  {
  }

  lemma {:induction false} PathInit(g: Cfg, p: seq<nat>, x: nat)
    requires PathTo(g, p, x) && |p| > 1
    ensures PathTo(g, p[..|p|-1], p[|p|-2]) && x in g.succ[p[|p|-2]]
  {
  }

  lemma {:induction false} PathPrefix(g: Cfg, p: seq<nat>, x: nat, k: nat)
    requires PathTo(g, p, x) && k < |p|
    ensures PathTo(g, p[..k+1], p[k])
  {
  }

  lemma {:induction false} ReachableStep(g: Cfg, x: nat, y: nat)
    requires Reachable(g, x) && x < |g.succ| && y < |g.succ| && y in g.succ[x]
    ensures Reachable(g, y)
  {
    var p :| PathTo(g, p, x);
    PathSnoc(g, p, x, y);
  }

  /** A strict dominator of a block dominates each of its predecessors. */
  lemma {:induction false} DominatesPred(g: Cfg, d: nat, x: nat, p: nat)
    requires Dominates(g, d, x) && d != x && x < |g.succ| && p < |g.succ| && x in g.succ[p]
    ensures Dominates(g, d, p)
  {
    forall q | PathTo(g, q, p)
      ensures d in q
    {
      PathSnoc(g, q, p, x);
      assert d in q + [x];
    }
  }

  lemma {:induction false} DominatesTransitive(g: Cfg, a: nat, b: nat, c: nat)
    requires Dominates(g, a, b) && Dominates(g, b, c)
    ensures Dominates(g, a, c)
  {
    forall p | PathTo(g, p, c)
      ensures a in p
    {
      var k :| 0 <= k < |p| && p[k] == b;
      PathPrefix(g, p, c, k);
      assert a in p[..k+1];
    }
  }

  /** On reachable blocks dominance is antisymmetric. */
  lemma {:induction false} DominatesAntisymmetric(g: Cfg, a: nat, b: nat)
    requires Dominates(g, a, b) && Dominates(g, b, a) && Reachable(g, a)
    ensures a == b
  {
    var p :| PathTo(g, p, a);
    NoMutual(g, a, b, p);
  }

  lemma {:induction false} NoMutual(g: Cfg, a: nat, b: nat, p: seq<nat>)
    requires Dominates(g, a, b) && Dominates(g, b, a) && PathTo(g, p, a)
    ensures a == b
    decreases |p|
  {
    if a != b {
      var k :| 0 <= k < |p| && p[k] == b;
      PathPrefix(g, p, a, k);
      var j :| 0 <= j < |p[..k+1]| && p[..k+1][j] == a;
      PathPrefix(g, p, a, j);
      NoMutual(g, a, b, p[..j+1]);
    }
  }

  lemma {:induction false} SelfDominates(g: Cfg, x: nat)
    ensures Dominates(g, x, x)
  {
    forall p | PathTo(g, p, x)
      ensures x in p
    {
      assert p[|p|-1] in p;
    }
  }

  // ---------------------------------------------------------------- numbered graphs

  /** What the sweeps of the dominator computation need of a numbered graph: the entry has the highest
      number and no predecessor, and the first listed predecessor of every other block carries a
      higher number than the block. */
  ghost predicate Numbered(g: Cfg) {
    && InRange(g)
    && (forall b :: 0 <= b < |g.succ| ==> Agrees(g, b))
    && g.entry == |g.succ| - 1
    && g.pred[g.entry] == []
    && forall i :: 0 <= i < g.entry ==> |g.pred[i]| > 0 && g.pred[i][0] > i
  }

  /** The climb over first listed predecessors, read backwards, is a walk from the entry. */
  ghost function FirstPath(g: Cfg, x: nat): seq<nat>
    requires Numbered(g) && x < |g.succ|
    decreases |g.succ| - x
  {
    if x == g.entry then [x] else
      assert g.pred[x][0] in g.pred[x];
      FirstPath(g, g.pred[x][0]) + [x]
  }

  lemma {:induction false} FirstPathIsPath(g: Cfg, x: nat)
    requires Numbered(g) && x < |g.succ|
    ensures PathTo(g, FirstPath(g, x), x)
    ensures forall y :: y in FirstPath(g, x) ==> y >= x
    ensures Reachable(g, x)
    decreases |g.succ| - x
  {
    if x == g.entry {
      assert PathTo(g, [x], x);
    } else {
      var p := g.pred[x][0];
      assert p in g.pred[x];
      assert Agrees(g, x);
      FirstPathIsPath(g, p);
      PathSnoc(g, FirstPath(g, p), p, x);
    }
  }

  /** The dominators of a block in a numbered graph have numbers at least as high as its own. */
  lemma {:induction false} DominatorsAreHigher(g: Cfg, d: nat, x: nat)
    requires Numbered(g) && x < |g.succ| && Dominates(g, d, x)
    ensures x <= d < |g.succ|
  {
    FirstPathIsPath(g, x);
    assert d in FirstPath(g, x);
  }

  lemma {:induction false} NumberedEdge(g: Cfg, p: nat, x: nat)
    requires Numbered(g) && x < |g.succ| && p in g.pred[x]
    ensures p < |g.succ| && x in g.succ[p]
  {
    assert Agrees(g, x);
  }
}
