/** What SSA conversion computes, independent of how: for every program point and register the nearest
    definition up the dominator tree. */
module SsaSpec {
  import opened Graphs
  import opened Dominators
  import opened Frontiers
  import opened IR
  import opened Liveness

  // ---------------------------------------------------------------- admissible input

  /** v is available to instruction k of block b: a constant, or the result of an instruction that
      dominates the point in front of k. */
  ghost predicate DefinedBefore(code: Code, g: Cfg, v: Value, b: nat, k: nat) {
    match v
    case Const(_) => true
    case Result(x, j) =>
      && x < |code| && j < |code[x]| && code[x][j].HasValue()
      && (if x == b then j < k else Dominates(g, x, b))
    case PhiValue(_, _) => false
  }

  /** Code over the numbers of a numbered graph, as the lowering hands it to SSA conversion. */
  ghost predicate WellFormed(code: Code, g: Cfg) {
    && Numbered(g) && |code| == |g.succ|
    && (forall b :: 0 <= b < |code| ==> g.succ[b] == Successors(code[b]))
    && (forall b, k :: 0 <= b < |code| && 0 <= k < |code[b]| - 1 ==> !code[b][k].IsTerminator())
    && (forall b, k, v :: 0 <= b < |code| && 0 <= k < |code[b]| && code[b][k].Uses(v) ==> DefinedBefore(code, g, v, b, k))
  }

  /** One of the first k instructions assigns r. */
  ghost predicate AssignedBy(insts: seq<Inst>, k: nat, r: nat) {
    exists j :: 0 <= j < k && j < |insts| && insts[j].Assign? && insts[j].reg == r
  }

  ghost predicate AssignsReg(code: Code, b: nat, r: nat) {
    b < |code| && AssignedBy(code[b], |code[b]|, r)
  }

  /** Some block of the walk before its last one assigns r, or one of the first k instructions of the
      last one does. */
  ghost predicate AssignedOn(code: Code, p: seq<nat>, k: nat, r: nat)
    requires |p| > 0
  {
    || (exists i :: 0 <= i < |p| - 1 && AssignsReg(code, p[i], r))
    || (p[|p|-1] < |code| && AssignedBy(code[p[|p|-1]], k, r))
  }

  /** Every load is preceded by an assign to its register on every path. */
  ghost predicate LoadsCovered(code: Code, g: Cfg) {
    forall b, k, p :: 0 <= b < |code| && 0 <= k < |code[b]| && code[b][k].Load? && PathTo(g, p, b) ==>
      AssignedOn(code, p, k, code[b][k].reg)
  }

  // ---------------------------------------------------------------- nearest definitions

  /** Code, its dominator array, and the registers that get a phi in each block. */
  datatype Problem = Problem(code: Code, g: Cfg, doms: seq<nat>, phi: seq<set<nat>>)

  ghost predicate Shape(p: Problem) {
    && |p.code| == |p.doms| == |p.phi|
    && Tree(p.doms, 0)
  }

  /** The value of register r in front of instruction k of block b: the operand of the nearest assign,
      or the nearest phi, looking backwards and then up the dominator tree. */
  ghost function Reach(p: Problem, b: nat, k: nat, r: nat): Option<Value>
    requires Shape(p) && b < |p.code| && k <= |p.code[b]|
    decreases |p.code| - b, k, 0
  {
    if k > 0 then
      match p.code[b][k-1]
      case Assign(r', v) => if r' == r then Some(Resolve(p, b, k - 1, v)) else Reach(p, b, k - 1, r)
      case _ => Reach(p, b, k - 1, r)
    else if r in p.phi[b] then Some(PhiValue(b, r))
    else if b == |p.code| - 1 then None
    else Reach(p, p.doms[b], |p.code[p.doms[b]]|, r)
  }

  /** What operand v of instruction k of block b becomes: the result of a load becomes the value its
      register has at the load. */
  ghost function Resolve(p: Problem, b: nat, k: nat, v: Value): Value
    requires Shape(p) && b < |p.code| && k < |p.code[b]|
    decreases |p.code| - b, k, 1
  {
    if v.Result? && v.block < |p.code| && v.pos < |p.code[v.block]| && p.code[v.block][v.pos].Load?
       && (v.block > b || (v.block == b && v.pos < k))
    then
      match Reach(p, v.block, v.pos, p.code[v.block][v.pos].reg)
      case Some(w) => w
      case None => Const(0)   // the walk has stopped at that load, see LoadsReach
    else v
  }

  /** The order of the numbers: a value that comes before instruction k of block b is created in a block
      with a higher number, or earlier in b. */
  ghost predicate Before(v: Value, b: nat, k: nat) {
    match v
    case Const(_) => true
    case Result(x, j) => x > b || (x == b && j < k)
    case PhiValue(x, _) => x >= b
  }

  /** Everything a later step relies on about the analysed program. */
  ghost predicate Ready(p: Problem) {
    && Shape(p) && WellFormed(p.code, p.g) && Exact(p.g, p.doms)
  }

  /** The phi sets contain the frontier of every block that assigns the register or holds its phi. */
  ghost predicate Closed(p: Problem) {
    forall x: nat, s: nat, r: nat :: x < |p.code| && s < |p.phi| && |p.phi| == |p.code| &&
      (AssignsReg(p.code, x, r) || r in p.phi[x]) && InFrontier(p.g, x, s)
      ==> r in p.phi[s]
  }

  /** Those phis are there at least where the register is live. */
  ghost predicate LiveClosed(p: Problem, observed: set<nat>) {
    forall x: nat, s: nat, r: nat :: x < |p.code| && s < |p.phi| && |p.phi| == |p.code| &&
      (AssignsReg(p.code, x, r) || r in p.phi[x]) && InFrontier(p.g, x, s) && Live(p.code, observed, s, 0, r)
      ==> r in p.phi[s]
  }

  lemma {:induction false} OperandBefore(p: Problem, b: nat, k: nat, v: Value)
    requires Ready(p) && b < |p.code| && DefinedBefore(p.code, p.g, v, b, k)
    ensures Before(v, b, k)
  {
    if v.Result? && v.block != b {
      DominatorsAreHigher(p.g, v.block, b);
    }
  }

  /** v names something that renaming keeps: never a load. */
  ghost predicate Kept(p: Problem, v: Value) {
    match v
    case Const(_) => true
    case Result(x, j) => x < |p.code| && j < |p.code[x]| && p.code[x][j].Binary?
    case PhiValue(x, r) => x < |p.phi| && r in p.phi[x]
  }

  /** Nearest definitions come before the point, and never name a load. */
  lemma {:induction false} ReachBefore(p: Problem, b: nat, k: nat, r: nat)
    requires Ready(p) && b < |p.code| && k <= |p.code[b]|
    ensures Reach(p, b, k, r).Some? ==>
      Before(Reach(p, b, k, r).value, b, k) && Kept(p, Reach(p, b, k, r).value)
    decreases |p.code| - b, k, 0
  {
    if k > 0 {
      if p.code[b][k-1].Assign? && p.code[b][k-1].reg == r {
        ResolveBefore(p, b, k - 1, p.code[b][k-1].val);
      } else {
        ReachBefore(p, b, k - 1, r);
      }
    } else if r !in p.phi[b] && b != |p.code| - 1 {
      ReachBefore(p, p.doms[b], |p.code[p.doms[b]]|, r);
    }
  }

  lemma {:induction false} ResolveBefore(p: Problem, b: nat, k: nat, v: Value)
    requires Ready(p) && b < |p.code| && k < |p.code[b]| && p.code[b][k].Uses(v)
    ensures Before(Resolve(p, b, k, v), b, k) && Kept(p, Resolve(p, b, k, v))
    decreases |p.code| - b, k, 1
  {
    OperandBefore(p, b, k, v);
    if v.Result? && p.code[v.block][v.pos].Load? {
      ReachBefore(p, v.block, v.pos, p.code[v.block][v.pos].reg);
    }
  }

  // ---------------------------------------------------------------- across edges

  /** A block that neither assigns r nor holds its phi passes on what it gets from its dominator. */
  lemma {:induction false} PassThrough(p: Problem, x: nat, k: nat, r: nat)
    requires Shape(p) && x < |p.code| - 1 && k <= |p.code[x]|
    requires !AssignedBy(p.code[x], k, r) && r !in p.phi[x]
    ensures Reach(p, x, k, r) == Reach(p, p.doms[x], |p.code[p.doms[x]]|, r)
  {
    if k > 0 {
      assert !AssignedBy(p.code[x], k - 1, r);
      PassThrough(p, x, k - 1, r);
    }
  }

  /** From a predecessor up to the immediate dominator of s nothing defines r, if s has no phi for it. */
  lemma {:induction false} ClimbPassesThrough(p: Problem, observed: set<nat>, s: nat, q: nat, x: nat, r: nat)
    requires Ready(p) && LiveClosed(p, observed) && Live(p.code, observed, s, 0, r) && s < |p.code| - 1 && q in p.g.pred[s] && r !in p.phi[s]
    requires On(p.doms, q, x) && On(p.doms, x, p.doms[s])
    ensures Reach(p, x, |p.code[x]|, r) == Reach(p, p.doms[s], |p.code[p.doms[s]]|, r)
    decreases |p.code| - x
  {
    OnBounds(p.doms, x, p.doms[s]);
    if x != p.doms[s] {
      assert !On(p.doms, p.doms[s], x) by {
        if On(p.doms, p.doms[s], x) { OnBounds(p.doms, p.doms[s], x); }
      }
      assert Passes(p.doms, q, s, x);
      PassesIsFrontier(p.g, p.doms, s, x);
      assert InFrontier(p.g, x, s);
      assert !AssignsReg(p.code, x, r) && r !in p.phi[x];
      PassThrough(p, x, |p.code[x]|, r);
      assert On(p.doms, x, p.doms[x]);
      OnTransitive(p.doms, q, x, p.doms[x]);
      ClimbPassesThrough(p, observed, s, q, p.doms[x], r);
    }
  }

  /** The heart of SSA construction: along an edge into a block without a phi for r in which r is live, the nearest
      definition of r does not change. */
  lemma {:induction false} EdgeKeepsReach(p: Problem, observed: set<nat>, b: nat, s: nat, r: nat)
    requires Ready(p) && LiveClosed(p, observed) && Live(p.code, observed, s, 0, r) && b < |p.code| && s < |p.code| && s in Successors(p.code[b])
    ensures r in p.phi[s] ==> Reach(p, s, 0, r) == Some(PhiValue(s, r))
    ensures r !in p.phi[s] ==> Reach(p, s, 0, r) == Reach(p, b, |p.code[b]|, r)
  {
    assert Agrees(p.g, s);
    if r !in p.phi[s] {
      RunnerStops(p.g, p.doms, s, b);
      ClimbPassesThrough(p, observed, s, b, b, r);
    }
  }

  /** Whatever has been assigned on a walk to a point where it is live has a nearest definition there. */
  lemma {:induction false} AssignedReaches(p: Problem, observed: set<nat>, q: seq<nat>, b: nat, k: nat, r: nat)
    requires Ready(p) && LiveClosed(p, observed) && PathTo(p.g, q, b) && k <= |p.code[b]|
    requires AssignedOn(p.code, q, k, r) && Live(p.code, observed, b, k, r)
    ensures Reach(p, b, k, r).Some?
    decreases |q|, k
  {
    if AssignedBy(p.code[b], k, r) {
      AssignedInBlock(p, b, k, r);
    } else {
      NotAssignedInBlock(p, b, k, r);
      LiveFromStart(p.code, observed, b, k, r);
      var i :| 0 <= i < |q| - 1 && AssignsReg(p.code, q[i], r);
      var q', b' := q[..|q|-1], q[|q|-2];
      PathInit(p.g, q, b);
      assert AssignedOn(p.code, q', |p.code[b']|, r) by {
        if i < |q| - 2 {
          assert q'[i] == q[i];
        }
      }
      assert b in Successors(p.code[b']);
      LiveAcross(p.code, observed, b', b, r);
      AssignedReaches(p, observed, q', b', |p.code[b']|, r);
      EdgeKeepsReach(p, observed, b', b, r);
    }
  }

  lemma {:induction false} LiveFromStart(code: Code, observed: set<nat>, b: nat, k: nat, r: nat)
    requires b < |code| && k <= |code[b]| && !AssignedBy(code[b], k, r) && Live(code, observed, b, k, r)
    ensures Live(code, observed, b, 0, r)
  {
    if k > 0 {
      assert !AssignedBy(code[b], k - 1, r);
      LiveBefore(code, observed, b, k - 1, r);
      LiveFromStart(code, observed, b, k - 1, r);
    }
  }

  lemma {:induction false} AssignedInBlock(p: Problem, b: nat, k: nat, r: nat)
    requires Shape(p) && b < |p.code| && k <= |p.code[b]| && AssignedBy(p.code[b], k, r)
    ensures Reach(p, b, k, r).Some?
  {
    if !(p.code[b][k-1].Assign? && p.code[b][k-1].reg == r) {
      AssignedInBlock(p, b, k - 1, r);
    }
  }

  lemma {:induction false} NotAssignedInBlock(p: Problem, b: nat, k: nat, r: nat)
    requires Shape(p) && b < |p.code| && k <= |p.code[b]| && !AssignedBy(p.code[b], k, r)
    ensures Reach(p, b, k, r) == Reach(p, b, 0, r)
  {
    if k > 0 {
      assert !AssignedBy(p.code[b], k - 1, r);
      assert !(p.code[b][k-1].Assign? && p.code[b][k-1].reg == r);
      NotAssignedInBlock(p, b, k - 1, r);
    }
  }

  // ---------------------------------------------------------------- when a load finds a value

  /** Some assign to r, or some phi for it, dominates the point in front of instruction k of block b. */
  ghost predicate DefinedAt(p: Problem, b: nat, k: nat, r: nat)
    requires |p.phi| == |p.code|
  {
    || (b < |p.code| && (AssignedBy(p.code[b], k, r) || r in p.phi[b]))
    || exists x: nat :: StrictlyDominates(p.g, x, b) && x < |p.code| && (AssignsReg(p.code, x, r) || r in p.phi[x])
  }

  /** A register has a nearest definition exactly where some definition of it dominates. */
  lemma {:induction false} ReachIffDefined(p: Problem, b: nat, k: nat, r: nat)
    requires Ready(p) && b < |p.code| && k <= |p.code[b]|
    ensures Reach(p, b, k, r).Some? <==> DefinedAt(p, b, k, r)
    decreases |p.code| - b, 1
  {
    if AssignedBy(p.code[b], k, r) {
      AssignedInBlock(p, b, k, r);
    } else {
      NotAssignedInBlock(p, b, k, r);
      if r !in p.phi[b] {
        NothingHere(p, b, k, r);
      }
    }
  }

  lemma {:induction false} NothingHere(p: Problem, b: nat, k: nat, r: nat)
    requires Ready(p) && b < |p.code| && k <= |p.code[b]| && !AssignedBy(p.code[b], k, r) && r !in p.phi[b]
    ensures Reach(p, b, 0, r).Some? <==> DefinedAt(p, b, k, r)
    decreases |p.code| - b, 0
  {
    if b == p.g.entry {
      forall x: nat
        ensures !StrictlyDominates(p.g, x, b)
      {
        if Dominates(p.g, x, b) { DominatorsAreHigher(p.g, x, b); }
      }
    } else {
      var d := p.doms[b];
      ReachIffDefined(p, d, |p.code[d]|, r);
      forall x: nat
        ensures StrictlyDominates(p.g, x, b) <==> x == d || StrictlyDominates(p.g, x, d)
      {
        AboveParent(p, b, x);
      }
    }
  }

  lemma {:induction false} AboveParent(p: Problem, b: nat, x: nat)
    requires Ready(p) && b < |p.code| - 1
    ensures StrictlyDominates(p.g, x, b) <==> x == p.doms[b] || StrictlyDominates(p.g, x, p.doms[b])
  {
    var d := p.doms[b];
    assert On(p.doms, b, x) <==> x == b || On(p.doms, d, x);
    if On(p.doms, d, x) {
      OnBounds(p.doms, d, x);
    }
    assert On(p.doms, d, d);
  }

  /** Every load has a nearest definition. */
  ghost predicate LoadsReach(p: Problem)
    requires Shape(p)
  {
    forall b: nat :: b < |p.code| ==> BlockReaches(p, b, |p.code[b]|)
  }

  /** So has every load among the first k instructions of block b. */
  ghost predicate BlockReaches(p: Problem, b: nat, k: nat)
    requires Shape(p) && b < |p.code| && k <= |p.code[b]|
  {
    forall j: nat :: j < k && p.code[b][j].Load? ==> Reach(p, b, j, p.code[b][j].reg).Some?
  }

  /** Every load is dominated by an assign to its register. */
  ghost predicate LoadsDominated(code: Code, g: Cfg) {
    forall b: nat, k: nat :: b < |code| && k < |code[b]| && code[b][k].Load? ==> AssignDominates(code, g, b, k, code[b][k].reg)
  }

  ghost predicate AssignDominates(code: Code, g: Cfg, b: nat, k: nat, r: nat) {
    || (b < |code| && AssignedBy(code[b], k, r))
    || exists x: nat :: StrictlyDominates(g, x, b) && AssignsReg(code, x, r)
  }

  /** Such a load is preceded by an assign on every path. */
  lemma {:induction false} DominatedIsCovered(code: Code, g: Cfg)
    requires LoadsDominated(code, g)
    ensures LoadsCovered(code, g)
  {
    forall b, k, p | 0 <= b < |code| && 0 <= k < |code[b]| && code[b][k].Load? && PathTo(g, p, b)
      ensures AssignedOn(code, p, k, code[b][k].reg)
    {
      var r := code[b][k].reg;
      assert AssignDominates(code, g, b, k, r);
      if !AssignedBy(code[b], k, r) {
        var x: nat :| StrictlyDominates(g, x, b) && AssignsReg(code, x, r);
        var i :| 0 <= i < |p| && p[i] == x;
        assert i < |p| - 1;
      }
    }
  }

  /** Wherever the phis are: a load that an assign dominates has a nearest definition. */
  lemma {:induction false} DominatedLoadsReach(p: Problem)
    requires Ready(p) && LoadsDominated(p.code, p.g)
    ensures LoadsReach(p)
  {
    forall b: nat, j: nat | b < |p.code| && j < |p.code[b]| && p.code[b][j].Load?
      ensures Reach(p, b, j, p.code[b][j].reg).Some?
    {
      assert AssignDominates(p.code, p.g, b, j, p.code[b][j].reg);
      ReachIffDefined(p, b, j, p.code[b][j].reg);
    }
  }

  /** Where the phis are closed for live registers it is enough that the load is preceded by an assign on every
      path. */
  lemma {:induction false} CoveredLoadsReach(p: Problem, observed: set<nat>)
    requires Ready(p) && LiveClosed(p, observed) && LoadsCovered(p.code, p.g)
    ensures LoadsReach(p)
  {
    forall b: nat, j: nat | b < |p.code| && j < |p.code[b]| && p.code[b][j].Load?
      ensures Reach(p, b, j, p.code[b][j].reg).Some?
    {
      LoadHasValue(p, observed, b, j);
    }
  }

  lemma {:induction false} LoadHasValue(p: Problem, observed: set<nat>, b: nat, k: nat)
    requires Ready(p) && LiveClosed(p, observed) && LoadsCovered(p.code, p.g)
    requires b < |p.code| && k < |p.code[b]| && p.code[b][k].Load?
    ensures Reach(p, b, k, p.code[b][k].reg).Some?
  {
    FirstPathIsPath(p.g, b);
    LiveAtLoad(p.code, observed, b, k);
    AssignedReaches(p, observed, FirstPath(p.g, b), b, k, p.code[b][k].reg);
  }

  // ---------------------------------------------------------------- definitions dominate uses

  /** The creation of v dominates the point in front of instruction k of block b. */
  ghost predicate Dominated(g: Cfg, v: Value, b: nat, k: nat) {
    match v
    case Const(_) => true
    case Result(x, j) => if x == b then j < k else Dominates(g, x, b)
    case PhiValue(x, _) => Dominates(g, x, b)
  }

  lemma {:induction false} DominatedLater(g: Cfg, v: Value, x: nat, j: nat, b: nat, k: nat)
    requires Dominated(g, v, x, j) && (if x == b then j <= k else StrictlyDominates(g, x, b))
    requires Reachable(g, b)
    ensures Dominated(g, v, b, k)
  {
    if v.Result? && x != b {
      SelfDominates(g, x);
      DominatesTransitive(g, v.block, x, b);
      if v.block == b {
        DominatesAntisymmetric(g, b, x);
      }
    } else if v.PhiValue? && x != b {
      DominatesTransitive(g, v.block, x, b);
    }
  }

  lemma {:induction false} ReachDominates(p: Problem, b: nat, k: nat, r: nat)
    requires Ready(p) && b < |p.code| && k <= |p.code[b]| && Reach(p, b, k, r).Some?
    ensures Dominated(p.g, Reach(p, b, k, r).value, b, k)
    decreases |p.code| - b, k, 0
  {
    FirstPathIsPath(p.g, b);
    if k > 0 {
      if p.code[b][k-1].Assign? && p.code[b][k-1].reg == r {
        ResolveDominates(p, b, k - 1, p.code[b][k-1].val);
        DominatedLater(p.g, Reach(p, b, k, r).value, b, k - 1, b, k);
      } else {
        ReachDominates(p, b, k - 1, r);
        DominatedLater(p.g, Reach(p, b, k, r).value, b, k - 1, b, k);
      }
    } else if r in p.phi[b] {
      SelfDominates(p.g, b);
    } else {
      var d := p.doms[b];
      ReachDominates(p, d, |p.code[d]|, r);
      ParentIsDominator(p.g, p.doms, b);
      DominatedLater(p.g, Reach(p, b, k, r).value, d, |p.code[d]|, b, k);
    }
  }

  lemma {:induction false} ResolveDominates(p: Problem, b: nat, k: nat, v: Value)
    requires Ready(p) && b < |p.code| && k < |p.code[b]| && p.code[b][k].Uses(v)
    ensures Dominated(p.g, Resolve(p, b, k, v), b, k)
    decreases |p.code| - b, k, 1
  {
    OperandBefore(p, b, k, v);
    FirstPathIsPath(p.g, b);
    if v.Result? && p.code[v.block][v.pos].Load? {
      var w := Reach(p, v.block, v.pos, p.code[v.block][v.pos].reg);
      if w.Some? {
        ReachDominates(p, v.block, v.pos, p.code[v.block][v.pos].reg);
        DominatedLater(p.g, w.value, v.block, v.pos, b, k);
      }
    }
  }
}
