/** When phis are where they are needed: a register's last definition on a walk is the one renaming takes, for every
    walk and wherever the register is live, if and only if the phis are closed under frontiers for live registers. */
module LastDefinition {
  import opened Graphs
  import opened Dominators
  import opened Frontiers
  import opened IR
  import opened Liveness
  import opened SsaSpec

  datatype Site = AssignSite(block: nat, pos: nat) | PhiSite(block: nat)

  /** The definition of r that renaming takes in front of instruction k of block b: backwards in the block, then up
      the dominator tree. */
  ghost function Nearest(p: Problem, b: nat, k: nat, r: nat): Option<Site>
    requires Shape(p) && b < |p.code| && k <= |p.code[b]|
    decreases |p.code| - b, k
  {
    if k > 0 then
      if p.code[b][k-1].Assign? && p.code[b][k-1].reg == r then Some(AssignSite(b, k - 1)) else Nearest(p, b, k - 1, r)
    else if r in p.phi[b] then Some(PhiSite(b))
    else if b == |p.code| - 1 then None
    else Nearest(p, p.doms[b], |p.code[p.doms[b]]|, r)
  }

  /** Its value is the one that a load or a phi gets there. */
  lemma {:induction false} ReachIsNearest(p: Problem, b: nat, k: nat, r: nat)
    requires Shape(p) && b < |p.code| && k <= |p.code[b]|
    ensures match Nearest(p, b, k, r)
      case None => Reach(p, b, k, r) == None
      case Some(PhiSite(x)) => Reach(p, b, k, r) == Some(PhiValue(x, r))
      case Some(AssignSite(x, j)) =>
        && x < |p.code| && j < |p.code[x]| && p.code[x][j].Assign? && p.code[x][j].reg == r
        && Reach(p, b, k, r) == Some(Resolve(p, x, j, p.code[x][j].val))
    decreases |p.code| - b, k
  {
    if k > 0 {
      if !(p.code[b][k-1].Assign? && p.code[b][k-1].reg == r) {
        ReachIsNearest(p, b, k - 1, r);
      }
    } else if r !in p.phi[b] && b != |p.code| - 1 {
      ReachIsNearest(p, p.doms[b], |p.code[p.doms[b]]|, r);
    }
  }

  ghost predicate Walk(p: Problem, q: seq<nat>) {
    |q| > 0 && forall i :: 0 <= i < |q| ==> q[i] < |p.code|
  }

  /** The definition of r that a run along the walk has met last. */
  ghost function LastOn(p: Problem, q: seq<nat>, k: nat, r: nat): Option<Site>
    requires Shape(p) && Walk(p, q) && k <= |p.code[q[|q|-1]]|
    decreases |q|, k
  {
    var b := q[|q|-1];
    if k > 0 then
      if p.code[b][k-1].Assign? && p.code[b][k-1].reg == r then Some(AssignSite(b, k - 1)) else LastOn(p, q, k - 1, r)
    else if r in p.phi[b] then Some(PhiSite(b))
    else if |q| == 1 then None
    else LastOn(p, q[..|q|-1], |p.code[q[|q|-2]]|, r)
  }

  /** On every walk, wherever a register is live, its last definition is the one renaming takes. */
  ghost predicate Faithful(p: Problem, observed: set<nat>)
    requires Shape(p)
  {
    forall q: seq<nat>, k: nat, r: nat ::
      Walk(p, q) && PathTo(p.g, q, q[|q|-1]) && k <= |p.code[q[|q|-1]]| && Live(p.code, observed, q[|q|-1], k, r)
      ==> LastOn(p, q, k, r) == Nearest(p, q[|q|-1], k, r)
  }

  // ---------------------------------------------------------------- closed phis are enough

  lemma {:induction false} NearestPasses(p: Problem, x: nat, k: nat, r: nat)
    requires Shape(p) && x < |p.code| - 1 && k <= |p.code[x]|
    requires !AssignedBy(p.code[x], k, r) && r !in p.phi[x]
    ensures Nearest(p, x, k, r) == Nearest(p, p.doms[x], |p.code[p.doms[x]]|, r)
  {
    if k > 0 {
      assert !AssignedBy(p.code[x], k - 1, r);
      assert !(p.code[x][k-1].Assign? && p.code[x][k-1].reg == r);
      NearestPasses(p, x, k - 1, r);
    }
  }

  lemma {:induction false} ClimbKeepsNearest(p: Problem, observed: set<nat>, s: nat, q: nat, x: nat, r: nat)
    requires Ready(p) && LiveClosed(p, observed) && Live(p.code, observed, s, 0, r)
    requires s < |p.code| - 1 && q in p.g.pred[s] && r !in p.phi[s]
    requires On(p.doms, q, x) && On(p.doms, x, p.doms[s])
    ensures Nearest(p, x, |p.code[x]|, r) == Nearest(p, p.doms[s], |p.code[p.doms[s]]|, r)
    decreases |p.code| - x
  {
    OnBounds(p.doms, x, p.doms[s]);
    if x != p.doms[s] {
      assert !On(p.doms, p.doms[s], x) by {
        if On(p.doms, p.doms[s], x) { OnBounds(p.doms, p.doms[s], x); }
      }
      assert Passes(p.doms, q, s, x);
      PassesIsFrontier(p.g, p.doms, s, x);
      assert !AssignsReg(p.code, x, r) && r !in p.phi[x];
      NearestPasses(p, x, |p.code[x]|, r);
      assert On(p.doms, x, p.doms[x]);
      OnTransitive(p.doms, q, x, p.doms[x]);
      ClimbKeepsNearest(p, observed, s, q, p.doms[x], r);
    }
  }

  lemma {:induction false} EdgeKeepsNearest(p: Problem, observed: set<nat>, b: nat, s: nat, r: nat)
    requires Ready(p) && LiveClosed(p, observed) && Live(p.code, observed, s, 0, r)
    requires b < |p.code| && s < |p.code| && s in Successors(p.code[b]) && r !in p.phi[s]
    ensures Nearest(p, s, 0, r) == Nearest(p, b, |p.code[b]|, r)
  {
    assert Agrees(p.g, s);
    RunnerStops(p.g, p.doms, s, b);
    ClimbKeepsNearest(p, observed, s, b, b, r);
  }

  lemma {:induction false} LastIsNearest(p: Problem, observed: set<nat>, q: seq<nat>, b: nat, k: nat, r: nat)
    requires Ready(p) && LiveClosed(p, observed) && PathTo(p.g, q, b) && Walk(p, q)
    requires k <= |p.code[b]| && Live(p.code, observed, b, k, r)
    ensures LastOn(p, q, k, r) == Nearest(p, b, k, r)
    decreases |q|, k
  {
    if k > 0 {
      if !(p.code[b][k-1].Assign? && p.code[b][k-1].reg == r) {
        LiveBefore(p.code, observed, b, k - 1, r);
        LastIsNearest(p, observed, q, b, k - 1, r);
      }
    } else if r !in p.phi[b] {
      if |q| > 1 {
        var q', c := q[..|q|-1], q[|q|-2];
        PathInit(p.g, q, b);
        assert b in Successors(p.code[c]);
        LiveAcross(p.code, observed, c, b, r);
        LastIsNearest(p, observed, q', c, |p.code[c]|, r);
        EdgeKeepsNearest(p, observed, c, b, r);
      }
    }
  }

  // ---------------------------------------------------------------- and needed

  ghost predicate Defines(p: Problem, x: nat, r: nat)
    requires |p.phi| == |p.code|
  {
    x < |p.code| && (AssignsReg(p.code, x, r) || r in p.phi[x])
  }

  /** The walk's last definition is in a block of the walk behind which no block defines the register. */
  lemma {:induction false} LastSite(p: Problem, q: seq<nat>, k: nat, r: nat) returns (i: nat)
    requires Shape(p) && Walk(p, q) && k <= |p.code[q[|q|-1]]| && LastOn(p, q, k, r).Some?
    ensures i < |q| && LastOn(p, q, k, r).value.block == q[i]
    ensures forall j :: i < j < |q| - 1 ==> !Defines(p, q[j], r)
    ensures i < |q| - 1 ==> !AssignedBy(p.code[q[|q|-1]], k, r) && r !in p.phi[q[|q|-1]]
    decreases |q|, k
  {
    var b := q[|q|-1];
    if k > 0 {
      if p.code[b][k-1].Assign? && p.code[b][k-1].reg == r {
        i := |q| - 1;
      } else {
        i := LastSite(p, q, k - 1, r);
        if i < |q| - 1 {
          assert !AssignedBy(p.code[b], k, r);
        }
      }
    } else if r in p.phi[b] {
      i := |q| - 1;
    } else {
      var q' := q[..|q|-1];
      i := LastSite(p, q', |p.code[q[|q|-2]]|, r);
      forall j | i < j < |q| - 1
        ensures !Defines(p, q[j], r)
      {
        assert q[j] == q'[j];
      }
    }
  }

  lemma {:induction false} DefinedIsMet(p: Problem, q: seq<nat>, k: nat, i: nat, r: nat)
    requires Shape(p) && Walk(p, q) && k <= |p.code[q[|q|-1]]| && i < |q| && Defines(p, q[i], r)
    requires i == |q| - 1 ==> k == |p.code[q[i]]|
    ensures LastOn(p, q, k, r).Some?
    decreases |q|, k
  {
    var b := q[|q|-1];
    if AssignedBy(p.code[b], k, r) || r in p.phi[b] {
      MetInBlock(p, q, k, r);
    } else {
      NotMetInBlock(p, q, k, r);
      DefinedIsMet(p, q[..|q|-1], |p.code[q[|q|-2]]|, i, r);
    }
  }

  lemma {:induction false} MetInBlock(p: Problem, q: seq<nat>, k: nat, r: nat)
    requires Shape(p) && Walk(p, q) && k <= |p.code[q[|q|-1]]|
    requires AssignedBy(p.code[q[|q|-1]], k, r) || r in p.phi[q[|q|-1]]
    ensures LastOn(p, q, k, r).Some?
    decreases k
  {
    var b := q[|q|-1];
    if k > 0 && !(p.code[b][k-1].Assign? && p.code[b][k-1].reg == r) {
      MetInBlock(p, q, k - 1, r);
    }
  }

  lemma {:induction false} NotMetInBlock(p: Problem, q: seq<nat>, k: nat, r: nat)
    requires Shape(p) && Walk(p, q) && k <= |p.code[q[|q|-1]]| && !AssignedBy(p.code[q[|q|-1]], k, r)
    ensures LastOn(p, q, k, r) == LastOn(p, q, 0, r)
    decreases k
  {
    if k > 0 {
      var b := q[|q|-1];
      assert !AssignedBy(p.code[b], k - 1, r);
      assert !(p.code[b][k-1].Assign? && p.code[b][k-1].reg == r);
      NotMetInBlock(p, q, k - 1, r);
    }
  }

  /** What renaming takes is on the chain of the block. */
  lemma {:induction false} NearestIsAbove(p: Problem, b: nat, k: nat, r: nat)
    requires Shape(p) && b < |p.code| && k <= |p.code[b]| && Nearest(p, b, k, r).Some?
    ensures On(p.doms, b, Nearest(p, b, k, r).value.block)
    decreases |p.code| - b, k
  {
    if k > 0 {
      if !(p.code[b][k-1].Assign? && p.code[b][k-1].reg == r) {
        NearestIsAbove(p, b, k - 1, r);
      }
    } else if r !in p.phi[b] {
      NearestIsAbove(p, p.doms[b], |p.code[p.doms[b]]|, r);
    }
  }

  /** A walk to a block of another walk, and on along that one. */
  lemma {:induction false} Switch(g: Cfg, u: seq<nat>, w: seq<nat>, i: nat, b: nat)
    requires PathTo(g, w, b) && i < |w| && PathTo(g, u, w[i])
    ensures PathTo(g, u + w[i+1..], b)
  {
    var q := u + w[i+1..];
    forall j | 0 < j < |q|
      ensures q[j] in g.succ[q[j-1]]
    {
      if j > |u| {
        assert q[j] == w[i + 1 + j - |u|] && q[j-1] == w[i + j - |u|];
      } else if j == |u| {
        assert q[j] == w[i+1] && q[j-1] == w[i];
      }
    }
  }

  /** A walk that x does not meet behind its i-th block, which x does not dominate, can start without meeting x. */
  lemma {:induction false} Avoid(g: Cfg, w: seq<nat>, b: nat, i: nat, x: nat) returns (q: seq<nat>)
    requires PathTo(g, w, b) && i < |w| && !Dominates(g, x, w[i]) && x !in w[i+1..]
    ensures PathTo(g, q, b) && x !in q
  {
    var u :| PathTo(g, u, w[i]) && x !in u;
    Switch(g, u, w, i, b);
    q := u + w[i+1..];
  }

  /** What dominates a strict dominator dominates strictly. */
  lemma {:induction false} Onward(g: Cfg, x: nat, y: nat, s: nat)
    requires Dominates(g, x, y) && StrictlyDominates(g, y, s) && Reachable(g, s)
    ensures StrictlyDominates(g, x, s)
  {
    DominatesTransitive(g, x, y, s);
    if x == s {
      DominatesAntisymmetric(g, s, y);
    }
  }

  /** So the last block y of a walk to define r is not strictly above s, if some x that is not either defines r and
      dominates the walk's end. */
  lemma {:induction false} LastIsNotAbove(p: Problem, w: seq<nat>, b: nat, i: nat, x: nat, s: nat, r: nat)
    requires Ready(p) && PathTo(p.g, w, b) && i < |w| && Dominates(p.g, x, b) && Defines(p, x, r)
    requires forall j :: i < j < |w| ==> !Defines(p, w[j], r)
    requires !StrictlyDominates(p.g, x, s) && Reachable(p.g, s)
    ensures !StrictlyDominates(p.g, w[i], s)
  {
    if StrictlyDominates(p.g, w[i], s) {
      if Dominates(p.g, x, w[i]) {
        Onward(p.g, x, w[i], s);
      } else {
        var q := Avoid(p.g, w, b, i, x);
      }
    }
  }

  /** Where a live register lacks a phi, some walk ends with another definition than the one renaming takes. */
  lemma {:induction false} MissingPhiIsWrong(p: Problem, observed: set<nat>, x: nat, s: nat, r: nat) returns (q: seq<nat>)
    requires Ready(p) && |p.phi| == |p.code| && s < |p.code| && Defines(p, x, r) && InFrontier(p.g, x, s) && r !in p.phi[s]
    ensures PathTo(p.g, q, s) && Walk(p, q) && LastOn(p, q, 0, r) != Nearest(p, s, 0, r)
  {
    var b :| b in p.g.pred[s] && Dominates(p.g, x, b);
    assert Agrees(p.g, s) && InRange(p.g);
    FirstPathIsPath(p.g, b);
    FirstPathIsPath(p.g, s);
    var w := FirstPath(p.g, b);
    PathSnoc(p.g, w, b, s);
    q := w + [s];
    assert q[..|q|-1] == w;
    var m: nat :| m < |w| && w[m] == x;
    DefinedIsMet(p, w, |p.code[b]|, m, r);
    assert LastOn(p, q, 0, r) == LastOn(p, w, |p.code[b]|, r);
    if LastOn(p, q, 0, r) == Nearest(p, s, 0, r) {
      WrongSite(p, w, b, x, s, r);
    }
  }

  lemma {:induction false} WrongSite(p: Problem, w: seq<nat>, b: nat, x: nat, s: nat, r: nat)
    requires Ready(p) && PathTo(p.g, w, b) && Walk(p, w) && LastOn(p, w, |p.code[b]|, r).Some?
    requires s < |p.code| - 1 && r !in p.phi[s] && Dominates(p.g, x, b) && Defines(p, x, r) && !StrictlyDominates(p.g, x, s)
    ensures LastOn(p, w, |p.code[b]|, r) != Nearest(p, s, 0, r)
  {
    if LastOn(p, w, |p.code[b]|, r) == Nearest(p, s, 0, r) {
      var i := LastSite(p, w, |p.code[b]|, r);
      NearestIsAbove(p, p.doms[s], |p.code[p.doms[s]]|, r);
      AboveParent(p, s, w[i]);
      FirstPathIsPath(p.g, s);
      LastIsNotAbove(p, w, b, i, x, s, r);
    }
  }

  /** The phis are right exactly if they are closed under frontiers for live registers. */
  lemma {:induction false} FaithfulIffLiveClosed(p: Problem, observed: set<nat>)
    requires Ready(p)
    ensures Faithful(p, observed) <==> LiveClosed(p, observed)
  {
    if LiveClosed(p, observed) {
      forall q: seq<nat>, k: nat, r: nat |
        Walk(p, q) && PathTo(p.g, q, q[|q|-1]) && k <= |p.code[q[|q|-1]]| && Live(p.code, observed, q[|q|-1], k, r)
        ensures LastOn(p, q, k, r) == Nearest(p, q[|q|-1], k, r)
      {
        LastIsNearest(p, observed, q, q[|q|-1], k, r);
      }
    }
    if Faithful(p, observed) {
      forall x: nat, s: nat, r: nat | x < |p.code| && s < |p.phi| && |p.phi| == |p.code| && InFrontier(p.g, x, s)
          && (AssignsReg(p.code, x, r) || r in p.phi[x]) && Live(p.code, observed, s, 0, r)
        ensures r in p.phi[s]
      {
        if r !in p.phi[s] {
          var q := MissingPhiIsWrong(p, observed, x, s, r);
        }
      }
    }
  }
}
