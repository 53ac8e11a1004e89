/** The dominator computation of dominators.c on a numbered graph: descending sweeps over a shared
    array in which every entry points at a higher number, with two-finger intersection. */
module Dominators {
  import opened Graphs
  import opened Postorders

  /** SIZE_MAX, the value of an array entry that has not been computed yet. */
  const UNSET: nat := 0xFFFF_FFFF_FFFF_FFFF

  // ---------------------------------------------------------------- chains through the array

  /** a lies on the chain that starts at x and follows the array upwards. */
  ghost predicate On(doms: seq<nat>, x: nat, a: nat)
    decreases |doms| - x
  {
    x < |doms| && (a == x || (x < doms[x] < |doms| && On(doms, doms[x], a)))
  }

  /** From lo upwards every entry points at a higher number, up to the root, which points at itself. */
  ghost predicate Tree(doms: seq<nat>, lo: nat) {
    && 0 < |doms|
    && lo < |doms|
    && doms[|doms|-1] == |doms|-1
    && forall i: nat :: lo <= i < |doms|-1 ==> i < doms[i] < |doms|
  }

  lemma {:induction false} OnBounds(doms: seq<nat>, x: nat, a: nat)
    requires On(doms, x, a)
    ensures x <= a < |doms|
    decreases |doms| - x
  {
    if a != x {
      OnBounds(doms, doms[x], a);
    }
  }

  lemma {:induction false} OnTransitive(doms: seq<nat>, x: nat, a: nat, b: nat)
    requires On(doms, x, a) && On(doms, a, b)
    ensures On(doms, x, b)
    decreases |doms| - x
  {
    if a != x {
      OnTransitive(doms, doms[x], a, b);
      OnBounds(doms, doms[x], b);
    }
  }

  /** Two members of one chain are themselves ordered along it. */
  lemma {:induction false} OnLinear(doms: seq<nat>, x: nat, a: nat, b: nat)
    requires On(doms, x, a) && On(doms, x, b) && a <= b
    ensures On(doms, a, b)
    decreases |doms| - x
  {
    if a != x {
      OnBounds(doms, doms[x], a);
      OnLinear(doms, doms[x], a, b);
    }
  }

  lemma {:induction false} RootOn(doms: seq<nat>, lo: nat, x: nat)
    requires Tree(doms, lo) && lo <= x < |doms|
    ensures On(doms, x, |doms|-1)
    decreases |doms| - x
  {
    if x != |doms|-1 {
      RootOn(doms, lo, doms[x]);
    }
  }

  lemma {:induction false} OnStaysProcessed(doms: seq<nat>, lo: nat, x: nat, a: nat)
    requires Tree(doms, lo) && lo <= x < |doms| && On(doms, x, a)
    ensures lo <= a < |doms|
  {
    OnBounds(doms, x, a);
  }

  /** How one write to the array changes every chain: below the written block nothing changes, above
      it the chain of the new value takes over. */
  lemma {:induction false} UpdateOn(doms: seq<nat>, k: nat, target: nat, x: nat, c: nat)
    requires k < target < |doms|
    ensures On(doms[k := target], x, c) <==>
            (if On(doms, x, k) then (On(doms, x, c) && c <= k) || On(doms, target, c) else On(doms, x, c))
    decreases |doms| - x
  {
    var doms' := doms[k := target];
    if x >= |doms| {
    } else if x > k {
      UpdateOnAbove(doms, k, target, x, c);
      if On(doms, x, k) {
        OnBounds(doms, x, k);
      }
    } else if x == k {
      UpdateOnAbove(doms, k, target, target, c);
      if On(doms, k, c) {
        OnBounds(doms, k, c);
      }
    } else if x < doms[x] < |doms| {
      UpdateOn(doms, k, target, doms[x], c);
      if x == c && On(doms, doms[x], c) {
        OnBounds(doms, doms[x], c);
      }
    }
  }

  lemma {:induction false} UpdateOnAbove(doms: seq<nat>, k: nat, target: nat, x: nat, c: nat)
    requires k < x < |doms| && k < target < |doms|
    ensures On(doms[k := target], x, c) <==> On(doms, x, c)
    decreases |doms| - x
  {
    if x < doms[x] < |doms| {
      UpdateOnAbove(doms, k, target, doms[x], c);
    }
  }

  // ---------------------------------------------------------------- the computation, turn by turn

  /** One turn of either inner loop of the intersection, on a pair of fingers. */
  function Turn(doms: seq<nat>, f: (nat, nat)): (nat, nat) {
    if f.0 < f.1 then (if f.0 < |doms| then doms[f.0] else f.0, f.1)
    else if f.1 < f.0 then (f.0, if f.1 < |doms| then doms[f.1] else f.1)
    else f
  }

  function Turns(doms: seq<nat>, f: (nat, nat), k: nat): (nat, nat) {
    if k == 0 then f else Turn(doms, Turns(doms, f, k - 1))
  }

  /** The two fingers put on a and b meet at c. */
  ghost predicate Intersects(doms: seq<nat>, a: nat, b: nat, c: nat) {
    exists k: nat :: Turns(doms, (a, b), k) == (c, c)
  }

  /** One predecessor p takes the loop from t to target: an unset one is skipped. */
  ghost predicate MetNext(doms: seq<nat>, p: nat, t: nat, target: nat) {
    p < |doms| && if doms[p] == UNSET then target == t else Intersects(doms, p, t, target)
  }

  /** The loop over the first j predecessors of block i has got to target. */
  ghost predicate MetUpTo(g: Cfg, doms: seq<nat>, i: nat, j: nat, target: nat)
    requires i < |g.pred| && 1 <= j <= |g.pred[i]|
    decreases j, 0
  {
    if j == 1 then target == g.pred[i][0] else exists t: nat :: MetFrom(g, doms, i, j, t, target)
  }

  /** Its last step has been from t to target. */
  ghost predicate MetFrom(g: Cfg, doms: seq<nat>, i: nat, j: nat, t: nat, target: nat)
    requires i < |g.pred| && 2 <= j <= |g.pred[i]|
    decreases j - 1, 1
  {
    MetUpTo(g, doms, i, j - 1, t) && MetNext(doms, g.pred[i][j-1], t, target)
  }

  /** A visit of block i finds the new entry. */
  ghost predicate Visits(g: Cfg, doms: seq<nat>, i: nat, target: nat) {
    && i < |doms| && i < |g.pred|
    && if g.pred[i] == [] then target == doms[i] else MetUpTo(g, doms, i, |g.pred[i]|, target)
  }

  /** A sweep over was, down to block k, has got to now. */
  ghost predicate SweptTo(g: Cfg, was: seq<nat>, k: nat, now: seq<nat>)
    decreases |was| - k
  {
    if k >= |was| then k == |was| && now == was
    else exists d: seq<nat>, target: nat :: SweptTo(g, was, k + 1, d) && Visits(g, d, k, target) && now == d[k := target]
  }

  function Initial(n: nat): (r: seq<nat>)
    ensures |r| == n
  {
    seq(n, i requires 0 <= i < n => if i == n - 1 then n - 1 else UNSET)
  }

  /** So many sweeps lead from the initial array to doms. */
  ghost predicate RunsTo(g: Cfg, m: nat, doms: seq<nat>) {
    if m == 0 then doms == Initial(|g.succ|)
    else exists d: seq<nat> :: RunsTo(g, m - 1, d) && SweptTo(g, d, 0, doms)
  }

  /** After some number of sweeps one changes nothing any more, which ends the computation. */
  ghost predicate EndsWith(g: Cfg, doms: seq<nat>) {
    SweptTo(g, doms, 0, doms) && exists m: nat :: RunsTo(g, m, doms)
  }

  // ---------------------------------------------------------------- the intersection

  /** Climbing from two blocks alternately, always from the lower number, stops at the block whose
      chain is exactly the common part of their chains. */
  method Intersect(doms: array<nat>, a: nat, b: nat, ghost lo: nat) returns (c: nat)
    requires Tree(doms[..], lo)
    requires lo <= a < doms.Length && lo <= b < doms.Length
    ensures lo <= c < doms.Length
    ensures forall d: nat :: On(doms[..], c, d) <==> On(doms[..], a, d) && On(doms[..], b, d)
    ensures Intersects(doms[..], a, b, c)
  {
    var x, y := a, b;
    ghost var s, turns: nat := doms[..], 0;
    while x != y
      invariant lo <= x < doms.Length && lo <= y < doms.Length && Turns(s, (a, b), turns) == (x, y)
      invariant Common(s, a, b, x, y)
      decreases 2 * doms.Length - x - y
    {
      ghost var was := (x, y);
      while x < y
        invariant lo <= x < doms.Length && lo <= y < doms.Length && Turns(s, (a, b), turns) == (x, y)
        invariant Common(s, a, b, x, y)
        invariant x + y >= was.0 + was.1 && (x < y || x + y > was.0 + was.1 || was == (x, y))
        decreases doms.Length - x
      {
        ClimbLower(s, a, b, x, y);
        x := doms[x];
        turns := turns + 1;
      }
      while y < x
        invariant lo <= x < doms.Length && lo <= y < doms.Length && Turns(s, (a, b), turns) == (x, y)
        invariant Common(s, a, b, x, y)
        invariant x + y >= was.0 + was.1 && (y < x || x + y > was.0 + was.1)
        decreases doms.Length - y
      {
        ClimbLower(s, b, a, y, x);
        y := doms[y];
        turns := turns + 1;
      }
    }
    c := x;
  }

  /** The blocks common to the chains of a and b are those common to the chains of x and y. */
  ghost predicate Common(doms: seq<nat>, a: nat, b: nat, x: nat, y: nat) {
    forall d: nat :: (On(doms, a, d) && On(doms, b, d)) <==> (On(doms, x, d) && On(doms, y, d))
  }

  lemma {:induction false} ClimbLower(doms: seq<nat>, a: nat, b: nat, x: nat, y: nat)
    requires Common(doms, a, b, x, y) && x < y < |doms| && x < doms[x] < |doms|
    ensures Common(doms, a, b, doms[x], y)
    ensures Common(doms, b, a, y, doms[x])
  {
    forall d: nat
      ensures (On(doms, a, d) && On(doms, b, d)) <==> (On(doms, doms[x], d) && On(doms, y, d))
    {
      if On(doms, y, d) {
        OnBounds(doms, y, d);
      }
      assert On(doms, x, d) <==> (d == x || On(doms, doms[x], d));
    }
  }

  // ---------------------------------------------------------------- what the sweeps keep

  /** Every true dominator of a processed block is on its chain. */
  ghost predicate Covers(g: Cfg, doms: seq<nat>, lo: nat) {
    forall x: nat, d: nat :: lo <= x < |doms| && Dominates(g, d, x) ==> On(doms, x, d)
  }

  /** A walk from top to x whose blocks after the first all have numbers below top. */
  ghost predicate LowWalk(g: Cfg, p: seq<nat>, top: nat, x: nat) {
    && IsPath(g, p) && p[0] == top && p[|p|-1] == x
    && forall i :: 0 < i < |p| ==> p[i] < top
  }

  ghost predicate Climbs(g: Cfg, top: nat, x: nat) {
    exists p :: LowWalk(g, p, top, x)
  }

  /** Each array entry is witnessed by a walk in the graph that stays below the entry's value. */
  ghost predicate Walked(g: Cfg, doms: seq<nat>, lo: nat) {
    forall x: nat :: lo <= x < |doms|-1 ==> Climbs(g, doms[x], x)
  }

  /** c is on the chain of every predecessor of i that has been processed. */
  ghost predicate Shared(g: Cfg, doms: seq<nat>, lo: nat, i: nat, c: nat)
    requires i < |g.pred|
  {
    forall p: nat :: p in g.pred[i] && p >= lo ==> On(doms, p, c)
  }

  /** The common ancestors of the processed predecessors of i are on the chain of doms[i], so the next
      visit of i can only move its entry up that chain. */
  ghost predicate Upward(g: Cfg, doms: seq<nat>, lo: nat)
    requires |doms| == |g.pred|
  {
    forall i: nat, c: nat :: lo <= i < |doms|-1 && Shared(g, doms, lo, i, c) ==> On(doms, doms[i], c)
  }

  /** For every block already visited in this sweep (i > k), and for every other one whose entry is
      not above k, the entry is still on the chain of the first listed predecessor. */
  ghost predicate FirstLinked(g: Cfg, doms: seq<nat>, lo: nat, k: int)
    requires Numbered(g) && |doms| == |g.succ|
  {
    forall i: nat :: lo <= i < |doms|-1 && (i > k || doms[i] <= k) ==> On(doms, g.pred[i][0], doms[i])
  }

  ghost predicate SweepInv(g: Cfg, doms: seq<nat>, lo: nat, k: int) {
    && Numbered(g) && |doms| == |g.succ| && Tree(doms, lo)
    && Covers(g, doms, lo) && Walked(g, doms, lo) && Upward(g, doms, lo) && FirstLinked(g, doms, lo, k)
  }

  /** The processed blocks once k has been visited. */
  function Processed(lo: nat, k: nat): nat { if lo <= k then lo else k }

  /** target is the block at which the chains of the processed predecessors of k meet. */
  ghost predicate Meets(g: Cfg, doms: seq<nat>, lo: nat, k: nat, target: nat)
    requires k < |g.pred|
  {
    target < |doms| && forall c: nat :: On(doms, target, c) <==> Shared(g, doms, lo, k, c)
  }

  // ---------------------------------------------------------------- one write keeps the invariant

  lemma {:induction false} ChainWalk(g: Cfg, doms: seq<nat>, lo: nat, x: nat, k: nat) returns (p: seq<nat>)
    requires |doms| == |g.succ| && Tree(doms, lo) && Walked(g, doms, lo)
    requires lo <= x < k && On(doms, x, k)
    ensures LowWalk(g, p, k, x)
    decreases |doms| - x
  {
    var e := doms[x];
    OnBounds(doms, x, k);
    OnBounds(doms, e, k);
    p :| LowWalk(g, p, e, x);
    if e != k {
      var q := ChainWalk(g, doms, lo, e, k);
      p := q + p[1..];
    }
  }

  lemma {:induction false} DominatesAlongChain(g: Cfg, doms: seq<nat>, lo: nat, x: nat, k: nat, d: nat)
    requires |doms| == |g.succ| && Tree(doms, lo) && Walked(g, doms, lo)
    requires lo <= x < |doms| && On(doms, x, k) && d > k && Dominates(g, d, x)
    ensures Dominates(g, d, k)
  {
    OnBounds(doms, x, k);
    if x != k {
      var w := ChainWalk(g, doms, lo, x, k);
      forall q | PathTo(g, q, k)
        ensures d in q
      {
        var r := q + w[1..];
        assert PathTo(g, r, x);
        assert d in r;
        assert forall i :: 0 < i < |w| ==> w[i] != d;
      }
    }
  }

  lemma {:induction false} MeetIsHigher(g: Cfg, doms: seq<nat>, lo: nat, k: nat, target: nat)
    requires Numbered(g) && |doms| == |g.succ| && k < |doms|-1 && lo <= k + 1
    requires Meets(g, doms, lo, k, target)
    ensures g.pred[k][0] in g.pred[k]
    ensures On(doms, g.pred[k][0], target) && k < g.pred[k][0] <= target
  {
    var p := g.pred[k][0];
    assert p in g.pred[k] && p >= lo;
    assert On(doms, target, target);
    OnBounds(doms, p, target);
  }

  lemma {:induction false} CoversKept(g: Cfg, doms: seq<nat>, lo: nat, k: nat, target: nat)
    requires Numbered(g) && |doms| == |g.succ| && k < |doms|-1 && lo <= k + 1 && Tree(doms, lo)
    requires Covers(g, doms, lo) && Walked(g, doms, lo) && Meets(g, doms, lo, k, target) && k < target
    ensures Covers(g, doms[k := target], Processed(lo, k))
  {
    var doms' := doms[k := target];
    var lo' := Processed(lo, k);
    forall x, d: nat | lo' <= x < |doms| && Dominates(g, d, x)
      ensures On(doms', x, d)
    {
      UpdateOn(doms, k, target, x, d);
      if On(doms, x, k) && d != k {
        if d > k {
          if x != k {
            DominatesAlongChain(g, doms, lo, x, k, d);
          }
          forall p | p in g.pred[k] && p >= lo
            ensures On(doms, p, d)
          {
            NumberedEdge(g, p, k);
            DominatesPred(g, d, k, p);
          }
          assert Shared(g, doms, lo, k, d);
        } else if x == k {
          DominatorsAreHigher(g, d, x);
          assert false;
        }
      }
    }
  }

  lemma {:induction false} WalkedKept(g: Cfg, doms: seq<nat>, lo: nat, k: nat, target: nat)
    requires Numbered(g) && |doms| == |g.succ| && k < |doms|-1 && lo <= k + 1 && Tree(doms, lo)
    requires Walked(g, doms, lo) && Meets(g, doms, lo, k, target)
    ensures Walked(g, doms[k := target], Processed(lo, k))
  {
    MeetIsHigher(g, doms, lo, k, target);
    var p0 := g.pred[k][0];
    var w := [target];
    if p0 != target {
      w := ChainWalk(g, doms, lo, p0, target);
    }
    NumberedEdge(g, p0, k);
    assert LowWalk(g, w + [k], target, k);
  }

  lemma {:induction false} UpwardKept(g: Cfg, doms: seq<nat>, lo: nat, k: nat, target: nat)
    requires Numbered(g) && |doms| == |g.succ| && k < |doms|-1 && lo <= k + 1 && Tree(doms, lo)
    requires Upward(g, doms, lo) && FirstLinked(g, doms, lo, k) && Meets(g, doms, lo, k, target) && k < target
    ensures Upward(g, doms[k := target], Processed(lo, k))
  {
    var doms' := doms[k := target];
    var lo' := Processed(lo, k);
    forall i, c: nat | lo' <= i < |doms|-1 && Shared(g, doms', lo', i, c)
      ensures On(doms', doms'[i], c)
    {
      forall p | p in g.pred[i] && p >= lo
        ensures On(doms, p, c)
      {
        NarrowsBack(g, doms, lo, k, target, p, c);
      }
      if i == k {
        UpdateOn(doms, k, target, target, c);
        assert Shared(g, doms, lo, k, c);
        OnBounds(doms, target, c);
        if On(doms, target, k) {
          OnBounds(doms, target, k);
        }
      } else {
        assert Shared(g, doms, lo, i, c);
        var e := doms[i];
        assert On(doms, e, c);
        UpdateOn(doms, k, target, e, c);
        if On(doms, e, k) && c > k {
          OnBounds(doms, e, k);
          var p0 := g.pred[i][0];
          assert p0 in g.pred[i] && p0 > i;
          assert On(doms, p0, e);
          OnTransitive(doms, p0, e, k);
          UpdateOn(doms, k, target, p0, c);
        }
      }
    }
  }

  /** A write that moves the entry of k up its own chain only removes blocks from chains. */
  lemma {:induction false} NarrowsBack(g: Cfg, doms: seq<nat>, lo: nat, k: nat, target: nat, p: nat, c: nat)
    requires Numbered(g) && |doms| == |g.succ| && k < |doms|-1 && lo <= k + 1 && Tree(doms, lo)
    requires Upward(g, doms, lo) && Meets(g, doms, lo, k, target) && k < target
    requires lo <= p < |doms| && On(doms[k := target], p, c)
    ensures On(doms, p, c)
  {
    UpdateOn(doms, k, target, p, c);
    if On(doms, p, k) && On(doms, target, c) {
      OnStaysProcessed(doms, lo, p, k);
      assert On(doms, target, target);
      assert Shared(g, doms, lo, k, target);
      assert On(doms, doms[k], target);
      OnTransitive(doms, doms[k], target, c);
      OnBounds(doms, doms[k], c);
      OnTransitive(doms, p, k, c);
    }
  }

  lemma {:induction false} FirstLinkedKept(g: Cfg, doms: seq<nat>, lo: nat, k: nat, target: nat)
    requires Numbered(g) && |doms| == |g.succ| && k < |doms|-1 && lo <= k + 1 && Tree(doms, lo)
    requires FirstLinked(g, doms, lo, k) && Meets(g, doms, lo, k, target) && k < target
    ensures FirstLinked(g, doms[k := target], Processed(lo, k), k as int - 1)
  {
    var doms' := doms[k := target];
    var lo' := Processed(lo, k);
    MeetIsHigher(g, doms, lo, k, target);
    forall i: nat | lo' <= i < |doms|-1 && (i > k - 1 || doms'[i] <= k - 1)
      ensures On(doms', g.pred[i][0], doms'[i])
    {
      var p0 := g.pred[i][0];
      UpdateOn(doms, k, target, p0, doms'[i]);
      if i == k {
        if On(doms, p0, k) {
          OnBounds(doms, p0, k);
        }
      } else {
        assert On(doms, p0, doms[i]);
        if On(doms, p0, k) {
          OnBounds(doms, p0, k);
        }
      }
    }
  }

  lemma {:induction false} TreeKept(g: Cfg, doms: seq<nat>, lo: nat, k: nat, target: nat)
    requires k < |doms|-1 && lo <= k + 1 && Tree(doms, lo) && k < target < |doms|
    ensures Tree(doms[k := target], Processed(lo, k))
  {
  }

  /** One visit of a block other than the entry keeps the whole invariant, and an entry that was
      already set can only grow. */
  lemma {:induction false} SweepStep(g: Cfg, doms: seq<nat>, lo: nat, k: nat, target: nat)
    requires SweepInv(g, doms, lo, k) && k < |doms|-1 && lo <= k + 1 && Meets(g, doms, lo, k, target)
    ensures SweepInv(g, doms[k := target], Processed(lo, k), k as int - 1)
    ensures k < target
    ensures lo <= k ==> target >= doms[k]
  {
    MeetIsHigher(g, doms, lo, k, target);
    TreeKept(g, doms, lo, k, target);
    CoversKept(g, doms, lo, k, target);
    WalkedKept(g, doms, lo, k, target);
    UpwardKept(g, doms, lo, k, target);
    FirstLinkedKept(g, doms, lo, k, target);
    if lo <= k {
      assert On(doms, target, target);
      OnBounds(doms, doms[k], target);
    }
  }

  // ---------------------------------------------------------------- the loops

  function Sum(s: seq<nat>): nat {
    if s == [] then 0 else s[0] + Sum(s[1..])
  }

  lemma {:induction false} SumUpdate(s: seq<nat>, k: nat, v: nat)
    requires k < |s|
    ensures Sum(s[k := v]) + s[k] == Sum(s) + v
  {
    if k == 0 {
      assert s[k := v][1..] == s[1..];
    } else {
      assert s[k := v][1..] == s[1..][k-1 := v];
      SumUpdate(s[1..], k - 1, v);
    }
  }

  lemma {:induction false} SumBound(s: seq<nat>, n: nat)
    requires forall i :: 0 <= i < |s| ==> s[i] <= n
    ensures Sum(s) <= |s| * n
  {
    if s != [] {
      SumBound(s[1..], n);
    }
  }

  /** Exactly the blocks from lo upwards have been computed. */
  ghost predicate SetFrom(doms: seq<nat>, lo: nat) {
    forall p: nat :: p < |doms| ==> (doms[p] != UNSET <==> p >= lo)
  }

  /** target is where the chains of the first j listed predecessors of k meet, the unset ones skipped. */
  ghost predicate MeetsFirst(g: Cfg, doms: seq<nat>, lo: nat, k: nat, j: nat, target: nat)
    requires k < |g.pred| && j <= |g.pred[k]|
  {
    target < |doms| && forall c: nat :: On(doms, target, c) <==>
      (forall q :: 0 <= q < j && g.pred[k][q] >= lo ==> On(doms, g.pred[k][q], c))
  }

  /** The new value for one block: its first listed predecessor, met with every later one that is set. */
  method Meet(g: Cfg, doms: array<nat>, i: nat, ghost lo: nat) returns (target: nat)
    requires Numbered(g) && doms.Length == |g.succ| && i < g.entry
    requires Tree(doms[..], lo) && SetFrom(doms[..], lo) && lo <= i + 1
    ensures Meets(g, doms[..], lo, i, target) && MetUpTo(g, doms[..], i, |g.pred[i]|, target)
  {
    var preds := g.pred[i];
    target := preds[0];
    assert target in preds;
    var j := 1;
    while j < |preds|
      invariant 1 <= j <= |preds|
      invariant lo <= target < doms.Length
      invariant MeetsFirst(g, doms[..], lo, i, j, target) && MetUpTo(g, doms[..], i, j, target)
    {
      var p := preds[j];
      assert p in preds;
      ghost var t := target;
      if doms[p] != UNSET {
        assert doms[..][p] != UNSET;
        target := Intersect(doms, p, target, lo);
      } else {
        assert doms[..][p] == UNSET;
      }
      assert MetNext(doms[..], p, t, target);
      assert MetFrom(g, doms[..], i, j + 1, t, target);
      j := j + 1;
    }
    assert forall c: nat :: On(doms[..], target, c) <==> Shared(g, doms[..], lo, i, c);
  }

  /** Every chain of a settled array runs through the array values of all predecessors. */
  ghost predicate SettledAbove(g: Cfg, doms: seq<nat>, k: int)
    requires |doms| == |g.pred|
  {
    forall i: nat, p: nat :: k < i < |doms|-1 && p in g.pred[i] ==> On(doms, p, doms[i])
  }

  /** A chain through a settled array contains nothing but dominators. */
  lemma {:induction false} SettledIsSound(g: Cfg, doms: seq<nat>, x: nat, a: nat, p: seq<nat>)
    requires Numbered(g) && |doms| == |g.pred| && Tree(doms, 0) && SettledAbove(g, doms, -1)
    requires On(doms, x, a) && PathTo(g, p, x)
    ensures a in p
    decreases |p|
  {
    if a == x {
      assert p[|p|-1] in p;
    } else {
      OnBounds(doms, x, a);
      OnBounds(doms, doms[x], a);
      assert |p| > 1;
      PathInit(g, p, x);
      var q := p[|p|-2];
      assert Agrees(g, x);
      assert On(doms, q, doms[x]);
      OnTransitive(doms, q, doms[x], a);
      SettledIsSound(g, doms, q, a, p[..|p|-1]);
    }
  }

  /** At the exit of the sweeps the chains are the dominator sets. */
  ghost predicate Exact(g: Cfg, doms: seq<nat>) {
    && |doms| == |g.succ|
    && Tree(doms, 0)
    && forall x: nat, d: nat :: x < |doms| ==> (On(doms, x, d) <==> Dominates(g, d, x))
  }

  lemma {:induction false} ExactAtExit(g: Cfg, doms: seq<nat>)
    requires Numbered(g) && |doms| == |g.succ| == |g.pred| && Tree(doms, 0)
    requires Covers(g, doms, 0) && SettledAbove(g, doms, -1)
    ensures Exact(g, doms)
  {
    forall x: nat, d: nat | x < |doms| && On(doms, x, d)
      ensures Dominates(g, d, x)
    {
      forall p | PathTo(g, p, x)
        ensures d in p
      {
        SettledIsSound(g, doms, x, d, p);
      }
    }
  }

  lemma {:induction false} ExactGivesIDom(g: Cfg, doms: seq<nat>, i: nat)
    requires Exact(g, doms) && i < |doms| - 1
    ensures IsIDom(g, doms[i], i)
  {
    assert On(doms, i, doms[i]);
    forall e: nat | StrictlyDominates(g, e, i)
      ensures Dominates(g, e, doms[i])
    {
      assert On(doms, i, e);
      assert On(doms, doms[i], e);
    }
  }

  /** The array before the first sweep: only the entry is set. */
  lemma {:induction false} InitialInv(g: Cfg, doms: seq<nat>)
    requires Numbered(g) && |doms| == |g.succ| <= UNSET && doms[|doms|-1] == |doms|-1
    requires forall i :: 0 <= i < |doms| - 1 ==> doms[i] == UNSET
    ensures SweepInv(g, doms, |doms|-1, |doms|-1) && SetFrom(doms, |doms|-1)
  {
    var e := |doms| - 1;
    forall x: nat, d: nat | e <= x < |doms| && Dominates(g, d, x)
      ensures On(doms, x, d)
    {
      DominatorsAreHigher(g, d, x);
    }
  }

  /** Inside a sweep that began with the blocks from lo0 on set and the array sum sum0: k is the next
      block to visit and changed says whether the sweep has written a new value. */
  ghost predicate InSweep(g: Cfg, doms: seq<nat>, lo: nat, k: int, changed: bool, lo0: nat, sum0: nat) {
    && SweepInv(g, doms, lo, k)
    && SetFrom(doms, lo)
    && (if lo0 == 0 then lo == 0 else lo == k + 1 || lo == k == |doms| - 1)
    && (lo0 == 0 ==> Sum(doms) >= sum0 && (changed ==> Sum(doms) > sum0))
    && (lo0 > 0 && !changed ==> k >= |doms| - 2)
    && (!changed ==> SettledAbove(g, doms, k))
  }

  lemma {:induction false} VisitedBlock(g: Cfg, doms: seq<nat>, lo: nat, k: nat, changed: bool, lo0: nat, sum0: nat, target: nat)
    requires InSweep(g, doms, lo, k, changed, lo0, sum0) && k < |doms|-1 && |doms| <= UNSET
    requires Meets(g, doms, lo, k, target)
    ensures InSweep(g, doms[k := target], Processed(lo, k), k as int - 1, changed || doms[k] != target, lo0, sum0)
  {
    SweepStep(g, doms, lo, k, target);
    SumUpdate(doms, k, target);
    if !changed && doms[k] == target {
      assert doms[k := target] == doms;
      assert On(doms, target, target);
    }
  }

  /** One visit inside a sweep: computes the entry of block i and writes it back. */
  method VisitBlock(g: Cfg, doms: array<nat>, i: nat, ghost lo: nat, changed: bool, ghost lo0: nat, ghost sum0: nat)
    returns (changed': bool, ghost target': nat)
    requires Numbered(g) && doms.Length == |g.succ| <= UNSET && i < doms.Length
    requires InSweep(g, doms[..], lo, i, changed, lo0, sum0)
    requires i == doms.Length - 1 ==> !changed
    modifies doms
    ensures InSweep(g, doms[..], if i < doms.Length - 1 then Processed(lo, i) else lo, i as int - 1, changed', lo0, sum0)
    ensures i == doms.Length - 1 ==> !changed'
    ensures Visits(g, old(doms[..]), i, target') && doms[..] == old(doms[..])[i := target']
    ensures changed' <==> changed || old(doms[i]) != target'
  {
    hide *;
    var target := doms[i];
    ghost var s := doms[..];
    CanVisit(g, s, lo, i, changed, lo0, sum0);
    if |g.pred[i]| > 0 {
      target := Meet(g, doms, i, lo);
      VisitedBlock(g, s, lo, i, changed, lo0, sum0, target);
    }
    target' := target;
    VisitIs(g, s, i, target);
    changed' := changed || doms[i] != target;
    doms[i] := target;
    assert doms[..] == s[i := target];
    if i == doms.Length - 1 {
      assert s[i := target] == s;
      EntryVisited(g, s, lo, changed, lo0, sum0);
    }
  }

  lemma {:induction false} CanVisit(g: Cfg, doms: seq<nat>, lo: nat, i: nat, changed: bool, lo0: nat, sum0: nat)
    requires InSweep(g, doms, lo, i, changed, lo0, sum0) && |doms| == |g.succ| && i < |doms|
    ensures |g.pred| == |doms| && g.entry == |doms| - 1 && (|g.pred[i]| > 0 <==> i < |doms| - 1)
    ensures i < |doms| - 1 ==> Tree(doms, lo) && SetFrom(doms, lo) && lo <= i + 1
  {
  }

  lemma {:induction false} VisitIs(g: Cfg, doms: seq<nat>, i: nat, target: nat)
    requires i < |doms| == |g.pred|
    requires if |g.pred[i]| == 0 then target == doms[i] else MetUpTo(g, doms, i, |g.pred[i]|, target)
    ensures Visits(g, doms, i, target)
  {
  }

  /** The entry keeps its value. */
  lemma {:induction false} EntryVisited(g: Cfg, doms: seq<nat>, lo: nat, changed: bool, lo0: nat, sum0: nat)
    requires InSweep(g, doms, lo, |doms| - 1, changed, lo0, sum0) && !changed
    ensures InSweep(g, doms, lo, |doms| - 2, false, lo0, sum0)
  {
  }

  /** The sweep over was has visited the blocks from k on and got to now; changed says whether it wrote a new value. */
  ghost predicate SweptSoFar(g: Cfg, was: seq<nat>, k: int, now: seq<nat>, changed: bool) {
    && 0 <= k <= |was| == |now| && SweptTo(g, was, k, now)
    && (forall j :: 0 <= j < k ==> now[j] == was[j]) && (changed <==> now != was)
  }

  lemma {:induction false} NothingSwept(g: Cfg, was: seq<nat>)
    ensures SweptSoFar(g, was, |was|, was, false)
  {
  }

  lemma {:induction false} SweptNext(g: Cfg, was: seq<nat>, k: nat, d: seq<nat>, target: nat, changed: bool, changed': bool)
    requires k < |d| && SweptSoFar(g, was, k + 1, d, changed) && Visits(g, d, k, target)
    requires changed' <==> changed || d[k] != target
    ensures SweptSoFar(g, was, k, d[k := target], changed')
  {
    var now := d[k := target];
    assert now[k] == target && d[k] == was[k];
    if d != was {
      var j :| 0 <= j < |d| && d[j] != was[j];
      assert now[j] != was[j];
    }
    assert SweptTo(g, was, k, now);
  }

  /** One sweep from the entry down; the unsigned index wraps below zero and leaves the loop. */
  method Sweep(g: Cfg, doms: array<nat>, ghost lo0: nat) returns (changed: bool)
    requires Numbered(g) && doms.Length == |g.succ| <= UNSET
    requires SweepInv(g, doms[..], lo0, doms.Length - 1) && SetFrom(doms[..], lo0)
    requires lo0 == 0 || lo0 == doms.Length - 1
    modifies doms
    ensures InSweep(g, doms[..], 0, -1, changed, lo0, Sum(old(doms[..])))
    ensures SweptSoFar(g, old(doms[..]), 0, doms[..], changed)
  {
    hide *;
    var n := doms.Length;
    ghost var was, now := doms[..], doms[..];
    ghost var lo: nat := lo0;
    ghost var sum0 := Sum(was);
    changed := false;
    SweepBegins(g, was, lo0);
    var i: nat := n - 1;
    ghost var k: int := i;   // the index before it wraps
    while i < n
      invariant if i < n then k == i else k == -1
      invariant now == doms[..] && InSweep(g, now, lo, k, changed, lo0, sum0)
      invariant SweptSoFar(g, was, k + 1, now, changed)
      invariant k == n - 1 ==> !changed
      decreases k
    {
      ghost var d, changed0, target := now, changed, 0;
      changed, target := VisitBlock(g, doms, i, lo, changed, lo0, sum0);
      SweptNext(g, was, i, d, target, changed0, changed);
      now := doms[..];
      lo := if i < n - 1 then Processed(lo, i) else lo;
      i := if i == 0 then UNSET else i - 1;
      k := k - 1;
    }
    SweepFinishes(g, now, lo, changed, lo0, sum0);
  }

  lemma {:induction false} SweepBegins(g: Cfg, doms: seq<nat>, lo0: nat)
    requires Numbered(g) && |doms| == |g.succ| && SweepInv(g, doms, lo0, |doms| - 1) && SetFrom(doms, lo0)
    requires lo0 == 0 || lo0 == |doms| - 1
    ensures |doms| > 0 && InSweep(g, doms, lo0, |doms| - 1, false, lo0, Sum(doms)) && SweptSoFar(g, doms, |doms|, doms, false)
  {
    NothingSwept(g, doms);
  }

  lemma {:induction false} SweepFinishes(g: Cfg, doms: seq<nat>, lo: nat, changed: bool, lo0: nat, sum0: nat)
    requires InSweep(g, doms, lo, -1, changed, lo0, sum0)
    ensures InSweep(g, doms, 0, -1, changed, lo0, sum0)
  {
  }

  ghost predicate SweepStart(g: Cfg, doms: seq<nat>, lo: nat, changed: bool) {
    && SweepInv(g, doms, lo, |doms| - 1) && SetFrom(doms, lo)
    && (lo == 0 || lo == |doms| - 1)
    && (!changed ==> lo == 0 && SettledAbove(g, doms, -1))
  }

  lemma {:induction false} NextSweep(g: Cfg, doms: seq<nat>, changed: bool, lo0: nat, sum0: nat)
    requires InSweep(g, doms, 0, -1, changed, lo0, sum0)
    ensures SweepStart(g, doms, 0, changed)
    ensures Sum(doms) <= |doms| * |doms|
    ensures lo0 == 0 ==> Sum(doms) >= sum0 && (changed ==> Sum(doms) > sum0)
  {
    SumBound(doms, |doms|);
  }

  /** After so many sweeps, the last of which has changed something or not. */
  ghost predicate Running(g: Cfg, sweeps: nat, doms: seq<nat>, lo: nat, changed: bool) {
    && |doms| == |g.succ| && SweepStart(g, doms, lo, changed)
    && RunsTo(g, sweeps, doms) && (!changed ==> SweptTo(g, doms, 0, doms))
  }

  /** What is left of the computation, as far as the first sweep and the array sum tell. */
  function Left(doms: seq<nat>): nat {
    if Sum(doms) <= |doms| * |doms| then |doms| * |doms| - Sum(doms) else 0
  }

  /** The sweeps are repeated until one of them changes nothing. */
  method Solve(g: Cfg) returns (doms: array<nat>)
    requires Numbered(g) && |g.succ| <= UNSET
    ensures fresh(doms) && Exact(g, doms[..]) && EndsWith(g, doms[..])
  {
    hide *;
    NotEmpty(g);
    var n := |g.succ|;
    doms := new nat[n](_ => UNSET);
    doms[n-1] := n - 1;
    ghost var lo: nat, sweeps: nat, now := n - 1, 0, doms[..];
    var changed := true;
    RunBegins(g, now);
    while changed
      invariant doms.Length == n && now == doms[..] && Running(g, sweeps, now, lo, changed)
      decreases lo, Left(now), changed
    {
      ghost var before, lo0 := now, lo;
      StartParts(g, sweeps, before, lo, changed);
      changed := Sweep(g, doms, lo);
      now := doms[..];
      lo := 0;
      NextRun(g, sweeps, before, now, lo0, changed);
      sweeps := sweeps + 1;
    }
    RunEnds(g, sweeps, now, lo);
  }

  lemma {:induction false} NotEmpty(g: Cfg)
    requires Numbered(g)
    ensures |g.succ| > 0
  {
  }

  lemma {:induction false} RunBegins(g: Cfg, doms: seq<nat>)
    requires Numbered(g) && |doms| == |g.succ| <= UNSET
    requires forall i :: 0 <= i < |doms| ==> doms[i] == if i == |doms| - 1 then |doms| - 1 else UNSET
    ensures |doms| > 0 && Running(g, 0, doms, |doms| - 1, true)
  {
    assert doms == Initial(|doms|);
    InitialInv(g, doms);
  }

  lemma {:induction false} StartParts(g: Cfg, sweeps: nat, doms: seq<nat>, lo: nat, changed: bool)
    requires Running(g, sweeps, doms, lo, changed)
    ensures SweepInv(g, doms, lo, |doms| - 1) && SetFrom(doms, lo) && (lo == 0 || lo == |doms| - 1)
  {
  }

  lemma {:induction false} NextRun(g: Cfg, m: nat, was: seq<nat>, doms: seq<nat>, lo: nat, changed: bool)
    requires Running(g, m, was, lo, true) && |doms| == |was|
    requires InSweep(g, doms, 0, -1, changed, lo, Sum(was)) && SweptSoFar(g, was, 0, doms, changed)
    ensures Running(g, m + 1, doms, 0, changed) && (lo == 0 && changed ==> Left(doms) < Left(was))
    ensures lo == 0 ==> Left(doms) <= Left(was)
  {
    NextSweep(g, doms, changed, lo, Sum(was));
  }

  lemma {:induction false} RunEnds(g: Cfg, sweeps: nat, doms: seq<nat>, lo: nat)
    requires Running(g, sweeps, doms, lo, false)
    ensures Exact(g, doms) && EndsWith(g, doms)
  {
    ExactAtExit(g, doms);
  }

  // ---------------------------------------------------------------- the dominator tree

  /** The child list of d holds, in increasing order, exactly the blocks whose array entry is d. */
  ghost predicate IsChildList(doms: seq<nat>, d: nat, c: seq<nat>, n: nat) {
    && (forall i, j :: 0 <= i < j < |c| ==> c[i] < c[j])
    && (forall x: nat :: x in c <==> x < n && x < |doms| && doms[x] == d && x != d)
  }

  /** Builds the child lists by one pass over the array. */
  method BuildTree(doms: array<nat>) returns (childs: seq<seq<nat>>)
    requires Tree(doms[..], 0)
    ensures |childs| == doms.Length
    ensures forall d :: 0 <= d < doms.Length ==> IsChildList(doms[..], d, childs[d], doms.Length)
  {
    childs := seq(doms.Length, _ => []);
    for i := 0 to doms.Length
      invariant |childs| == doms.Length
      invariant forall d :: 0 <= d < doms.Length ==> IsChildList(doms[..], d, childs[d], i)
    {
      var idom := doms[i];
      if idom != i {
        assert idom == doms[..][i] < doms.Length;
        var c := childs[idom];
        ghost var before := childs;
        childs := childs[idom := c + [i]];
        assert IsChildList(doms[..], idom, c + [i], i + 1) by {
          assert forall x: nat :: x in c + [i] <==> x in c || x == i;
          assert forall k :: 0 <= k < |c| ==> c[k] in c;
        }
      }
    }
  }

  /** An exact array is the only one. */
  lemma {:induction false} ExactIsUnique(g: Cfg, doms: seq<nat>, doms': seq<nat>)
    requires Exact(g, doms) && Exact(g, doms')
    ensures doms == doms'
  {
    forall x: nat | x < |doms| - 1
      ensures doms[x] == doms'[x]
    {
      assert On(doms, doms[x], doms[x]) && On(doms', doms'[x], doms'[x]);
      assert On(doms, x, doms[x]) && On(doms', x, doms'[x]);
      assert On(doms', x, doms[x]) && On(doms, x, doms'[x]);
      OnBounds(doms', doms'[x], doms[x]);
      OnBounds(doms, doms[x], doms'[x]);
    }
  }

  lemma {:induction false} ParentIsDominator(g: Cfg, doms: seq<nat>, x: nat)
    requires Numbered(g) && Exact(g, doms) && x < g.entry
    ensures x < doms[x] <= g.entry && StrictlyDominates(g, doms[x], x)
  {
    ExactGivesIDom(g, doms, x);
  }

  /** Number and sweep results read back on the blocks themselves. */
  ghost predicate IDomsOfBlocks(g: Cfg, order: seq<nat>, number: map<nat, nat>, doms: seq<nat>) {
    && |doms| == |order|
    && forall b: nat :: Reachable(g, b) && b != g.entry ==>
      b in number && number[b] < |doms| && doms[number[b]] < |order| && IsIDom(g, order[doms[number[b]]], b)
  }

  lemma {:induction false} ExactOnBlocks(g: Cfg, order: seq<nat>, number: map<nat, nat>, doms: seq<nat>)
    requires Renumberable(g, order, number) && Numbered(Renumber(g, order, number))
    requires Exact(Renumber(g, order, number), doms)
    ensures IDomsOfBlocks(g, order, number, doms)
  {
    forall b: nat | Reachable(g, b) && b != g.entry
      ensures b in number && number[b] < |doms| && doms[number[b]] < |order|
      ensures IsIDom(g, order[doms[number[b]]], b)
    {
      assert order[number[b]] == b;
      ExactGivesIDom(Renumber(g, order, number), doms, number[b]);
      IDomRenumbered(g, order, number, number[b], doms[number[b]]);
    }
  }

  /** The computation on a block graph whose blocks are numbered: solve on the numbers. The first listed
      predecessor of each block must have a larger number, see RenumberedIsNumbered. Every reachable block other
      than the entry gets exactly its immediate dominator. */
  method ComputeNumbered(g: Cfg, order: seq<nat>, number: map<nat, nat>) returns (doms: array<nat>)
    requires Renumberable(g, order, number) && FirstPredLater(g, order, number) && |g.succ| <= UNSET
    ensures fresh(doms)
    ensures Numbered(Renumber(g, order, number)) && Exact(Renumber(g, order, number), doms[..])
    ensures IDomsOfBlocks(g, order, number, doms[..])
  {
    RenumberedIsNumbered(g, order, number);
    NumberingFits(g, order, number);
    doms := Solve(Renumber(g, order, number));
    ExactOnBlocks(g, order, number, doms[..]);
  }

  /** In depth-first order, first listed predecessors have larger numbers. */
  ghost predicate FirstPredsAbove(g: Cfg)
    requires InRange(g)
  {
    forall number :: IsNumbering(g, DepthFirst(g), number) ==> FirstPredLater(g, DepthFirst(g), number)
  }

  /** It is so where the first listed predecessor of every reachable block dominates it. */
  lemma {:induction false} DominatingFirstPredsAreAbove(g: Cfg)
    requires WellConnected(g) && FirstPredDominates(g)
    ensures FirstPredsAbove(g)
  {
    forall number | IsNumbering(g, DepthFirst(g), number)
      ensures FirstPredLater(g, DepthFirst(g), number)
    {
      DominatingFirstPredIsLater(g, DepthFirst(g), number);
    }
  }

  /** The whole computation: number the reachable blocks depth first, then solve on the numbers. */
  method Compute(g: Cfg) returns (po: Postorder, doms: array<nat>)
    requires WellConnected(g) && FirstPredsAbove(g) && |g.succ| <= UNSET
    ensures fresh(po) && fresh(doms) && po.order == DepthFirst(g) && SuccessorsInOrder(g, po.number)
    ensures Renumberable(g, po.order, po.number) && Numbered(Renumber(g, po.order, po.number))
    ensures Exact(Renumber(g, po.order, po.number), doms[..])
    ensures IDomsOfBlocks(g, po.order, po.number, doms[..])
  {
    po := new Postorder();
    po.Number(g);
    doms := ComputeNumbered(g, po.order, po.number);
  }

  // ---------------------------------------------------------------- why the first predecessor matters

  lemma {:induction false} StuckTurns(doms: seq<nat>, lo: nat, a: nat, b: nat, k: nat)
    requires Tree(doms, lo) && SetFrom(doms, lo) && b < lo <= a < |doms| <= UNSET
    ensures lo <= Turns(doms, (a, b), k).0 < |doms|
    ensures Turns(doms, (a, b), k).1 == if k == 0 then b else UNSET
  {
    if k > 0 {
      StuckTurns(doms, lo, a, b, k - 1);
    }
  }

  /** If the first listed predecessor of block i is not set yet when i is first visited, its intersection
      with the first predecessor that is set never ends: the fingers stay apart for ever. */
  lemma {:induction false} FirstPredMustBeLater(g: Cfg, doms: seq<nat>, i: nat, p: nat, k: nat)
    requires InRange(g) && |doms| == |g.pred| <= UNSET && i < |doms| - 1
    requires Tree(doms, i + 1) && SetFrom(doms, i + 1)
    requires |g.pred[i]| > 0 && g.pred[i][0] <= i && p in g.pred[i] && p > i
    ensures Turns(doms, (p, g.pred[i][0]), k).0 != Turns(doms, (p, g.pred[i][0]), k).1
  {
    StuckTurns(doms, i + 1, p, g.pred[i][0], k);
  }

  /** Numbered, but for the first listed predecessors: every block other than the last has some predecessor with a
      larger number, as depth-first numbers give. */
  ghost predicate SomePredLater(g: Cfg) {
    && InRange(g) && (forall b :: 0 <= b < |g.succ| ==> Agrees(g, b))
    && g.entry == |g.succ| - 1 && g.pred[g.entry] == []
    && forall i :: 0 <= i < g.entry ==> |g.pred[i]| > 0 && PredLater(g, i)
  }

  ghost predicate PredLater(g: Cfg, i: nat) {
    i < |g.pred| && exists p :: p in g.pred[i] && p > i
  }

  /** Fingers that start inside the tree stay inside. */
  lemma {:induction false} TurnsInside(doms: seq<nat>, lo: nat, a: nat, b: nat, k: nat)
    requires Tree(doms, lo) && lo <= a < |doms| && lo <= b < |doms|
    ensures lo <= Turns(doms, (a, b), k).0 < |doms| && lo <= Turns(doms, (a, b), k).1 < |doms|
  {
    if k > 0 {
      TurnsInside(doms, lo, a, b, k - 1);
    }
  }

  /** The meet of predecessors that starts inside the tree stays inside. */
  lemma {:induction false} MetInside(g: Cfg, doms: seq<nat>, i: nat, j: nat, target: nat)
    requires InRange(g) && |doms| == |g.pred| && i < |g.pred| && 1 <= j <= |g.pred[i]|
    requires Tree(doms, i + 1) && SetFrom(doms, i + 1) && g.pred[i][0] > i && MetUpTo(g, doms, i, j, target)
    ensures i < target < |doms|
    decreases j
  {
    if j == 1 {
      assert g.pred[i][0] in g.pred[i];
    } else {
      var p := g.pred[i][j-1];
      var t: nat :| MetFrom(g, doms, i, j, t, target);
      MetInside(g, doms, i, j - 1, t);
      if doms[p] != UNSET {
        var k: nat :| Turns(doms, (p, t), k) == (target, target);
        TurnsInside(doms, i + 1, p, t, k);
      }
    }
  }

  /** If the first listed predecessor is unset the meet stays there as long as only unset ones follow, and never gets
      past one that is set. */
  lemma {:induction false} NeverMet(g: Cfg, doms: seq<nat>, i: nat, j: nat, target: nat)
    requires InRange(g) && |doms| == |g.pred| <= UNSET && i < |doms| - 1 && 1 <= j <= |g.pred[i]|
    requires Tree(doms, i + 1) && SetFrom(doms, i + 1) && g.pred[i][0] <= i && MetUpTo(g, doms, i, j, target)
    ensures target == g.pred[i][0] && forall l :: 0 <= l < j ==> g.pred[i][l] <= i
    decreases j
  {
    if j > 1 {
      var p := g.pred[i][j-1];
      assert p in g.pred[i];
      var t: nat :| MetFrom(g, doms, i, j, t, target);
      NeverMet(g, doms, i, j - 1, t);
      if p > i {
        var k: nat :| Turns(doms, (p, t), k) == (target, target);
        FirstPredMustBeLater(g, doms, i, p, k);
      }
    }
  }

  /** The first sweep sets block after block of a tree, as long as first listed predecessors are later. */
  lemma {:induction false} FirstSweepArrives(g: Cfg, k: nat, doms: seq<nat>)
    requires SomePredLater(g) && k <= |g.succ| <= UNSET && SweptTo(g, Initial(|g.succ|), k, doms)
    requires forall i :: k <= i < g.entry ==> g.pred[i][0] > i
    ensures |doms| == |g.succ| && (k < |g.succ| ==> Tree(doms, k) && SetFrom(doms, k))
    ensures k == |g.succ| ==> doms == Initial(|g.succ|)
    decreases |g.succ| - k
  {
    var n := |g.succ|;
    if k < n {
      var d: seq<nat>, target: nat :|
        SweptTo(g, Initial(n), k + 1, d) && Visits(g, d, k, target) && doms == d[k := target];
      FirstSweepArrives(g, k + 1, d);
      if k < n - 1 {
        MetInside(g, d, k, |g.pred[k]|, target);
      }
    }
  }

  /** At the first block whose first listed predecessor is not later it stops for ever. */
  lemma {:induction false} FirstSweepStops(g: Cfg, i: nat, doms: seq<nat>)
    requires SomePredLater(g) && i < g.entry && |g.succ| <= UNSET && g.pred[i][0] <= i
    requires forall j :: i < j < g.entry ==> g.pred[j][0] > j
    ensures !SweptTo(g, Initial(|g.succ|), i, doms)
  {
    var n := |g.succ|;
    assert PredLater(g, i);
    var p :| p in g.pred[i] && p > i;
    var l :| 0 <= l < |g.pred[i]| && g.pred[i][l] == p;
    if SweptTo(g, Initial(n), i, doms) {
      var d: seq<nat>, target: nat :|
        SweptTo(g, Initial(n), i + 1, d) && Visits(g, d, i, target) && doms == d[i := target];
      FirstSweepArrives(g, i + 1, d);
      NeverMet(g, d, i, |g.pred[i]|, target);
    }
  }

  lemma {:induction false} SweptFurther(g: Cfg, was: seq<nat>, k: nat, i: nat, now: seq<nat>) returns (d: seq<nat>)
    requires k <= i <= |was| && SweptTo(g, was, k, now)
    ensures SweptTo(g, was, i, d)
    decreases |was| - k
  {
    if k == i {
      d := now;
    } else {
      var c: seq<nat>, target: nat :| SweptTo(g, was, k + 1, c) && Visits(g, c, k, target) && now == c[k := target];
      d := SweptFurther(g, was, k + 1, i, c);
    }
  }

  /** The highest block whose first listed predecessor is not later. */
  lemma {:induction false} HighestViolation(g: Cfg, k: nat) returns (i: nat)
    requires SomePredLater(g) && k <= g.entry && exists j :: 0 <= j < k && g.pred[j][0] <= j
    requires forall j :: k <= j < g.entry ==> g.pred[j][0] > j
    ensures i < g.entry && g.pred[i][0] <= i && forall j :: i < j < g.entry ==> g.pred[j][0] > j
  {
    if g.pred[k-1][0] <= k - 1 {
      i := k - 1;
    } else {
      i := HighestViolation(g, k - 1);
    }
  }

  lemma {:induction false} NoFirstSweep(g: Cfg, doms: seq<nat>)
    requires SomePredLater(g) && |g.succ| <= UNSET && !Numbered(g)
    ensures !SweptTo(g, Initial(|g.succ|), 0, doms)
  {
    if SweptTo(g, Initial(|g.succ|), 0, doms) {
      var i := HighestViolation(g, g.entry);
      var d := SweptFurther(g, Initial(|g.succ|), 0, i, doms);
      FirstSweepStops(g, i, d);
    }
  }

  lemma {:induction false} NoRun(g: Cfg, m: nat, doms: seq<nat>)
    requires SomePredLater(g) && |g.succ| <= UNSET && !Numbered(g) && m > 0
    ensures !RunsTo(g, m, doms)
  {
    if RunsTo(g, m, doms) {
      var d: seq<nat> :| RunsTo(g, m - 1, d) && SweptTo(g, d, 0, doms);
      if m == 1 {
        NoFirstSweep(g, doms);
      } else {
        NoRun(g, m - 1, d);
      }
    }
  }

  /** Where a first listed predecessor is not later the computation has no end. */
  lemma {:induction false} NeverEnds(g: Cfg, doms: seq<nat>)
    requires SomePredLater(g) && |g.succ| <= UNSET && !Numbered(g)
    ensures !EndsWith(g, doms)
  {
    if EndsWith(g, doms) {
      var m: nat :| RunsTo(g, m, doms);
      if m == 0 {
        NoFirstSweep(g, doms);
      } else {
        NoRun(g, m, doms);
      }
    }
  }

  // ---------------------------------------------------------------- and is enough

  lemma {:induction false} FingersMeet(doms: seq<nat>, a: nat, b: nat, lo: nat) returns (c: nat)
    requires Tree(doms, lo) && lo <= a < |doms| && lo <= b < |doms|
    ensures lo <= c < |doms| && Intersects(doms, a, b, c)
    ensures forall d: nat :: On(doms, c, d) <==> On(doms, a, d) && On(doms, b, d)
  {
    var x, y, turns: nat := a, b, 0;
    while x != y
      invariant lo <= x < |doms| && lo <= y < |doms| && Turns(doms, (a, b), turns) == (x, y) && Common(doms, a, b, x, y)
      decreases 2 * |doms| - x - y
    {
      if x < y {
        ClimbLower(doms, a, b, x, y);
        x := doms[x];
      } else {
        ClimbLower(doms, b, a, y, x);
        y := doms[y];
      }
      turns := turns + 1;
    }
    c := x;
  }

  lemma {:induction false} PredsMeet(g: Cfg, doms: seq<nat>, i: nat, lo: nat, j: nat) returns (target: nat)
    requires Numbered(g) && |doms| == |g.succ| && i < g.entry && 1 <= j <= |g.pred[i]|
    requires Tree(doms, lo) && SetFrom(doms, lo) && lo <= i + 1
    ensures lo <= target < |doms| && MeetsFirst(g, doms, lo, i, j, target) && MetUpTo(g, doms, i, j, target)
    decreases j
  {
    var p := g.pred[i][j-1];
    assert p in g.pred[i];
    if j == 1 {
      target := p;
    } else {
      var t := PredsMeet(g, doms, i, lo, j - 1);
      target := t;
      if doms[p] != UNSET {
        target := FingersMeet(doms, p, t, lo);
      }
      assert MetFrom(g, doms, i, j, t, target);
    }
  }

  lemma {:induction false} FirstAllMeet(g: Cfg, doms: seq<nat>, lo: nat, i: nat, target: nat)
    requires Numbered(g) && |doms| == |g.succ| && i < g.entry && MeetsFirst(g, doms, lo, i, |g.pred[i]|, target)
    ensures Meets(g, doms, lo, i, target)
  {
    forall c: nat
      ensures On(doms, target, c) <==> Shared(g, doms, lo, i, c)
    {
    }
  }

  lemma {:induction false} SweepEnds(g: Cfg, was: seq<nat>, lo0: nat) returns (now: seq<nat>, changed: bool)
    requires Numbered(g) && |was| == |g.succ| <= UNSET && SweepInv(g, was, lo0, |was| - 1) && SetFrom(was, lo0)
    requires lo0 == 0 || lo0 == |was| - 1
    ensures |now| == |was| && InSweep(g, now, 0, -1, changed, lo0, Sum(was)) && SweptSoFar(g, was, 0, now, changed)
  {
    hide *;
    var n, sum0 := |was|, Sum(was);
    SweepBegins(g, was, lo0);
    var lo: nat := lo0;
    var k: int := n - 1;
    now, changed := was, false;
    while k >= 0
      invariant -1 <= k < n && |now| == n && InSweep(g, now, lo, k, changed, lo0, sum0)
      invariant SweptSoFar(g, was, k + 1, now, changed) && (k == n - 1 ==> !changed)
      decreases k
    {
      var i: nat := k;
      CanVisit(g, now, lo, i, changed, lo0, sum0);
      var target := now[i];
      var changed0 := changed;
      if i < n - 1 {
        target := PredsMeet(g, now, i, lo, |g.pred[i]|);
        FirstAllMeet(g, now, lo, i, target);
        VisitedBlock(g, now, lo, i, changed, lo0, sum0, target);
      } else {
        EntryVisited(g, now, lo, changed, lo0, sum0);
        assert now[i := target] == now;
      }
      VisitIs(g, now, i, target);
      changed := changed || now[i] != target;
      SweptNext(g, was, i, now, target, changed0, changed);
      now := now[i := target];
      lo := if i < n - 1 then Processed(lo, i) else lo;
      k := k - 1;
    }
    SweepFinishes(g, now, lo, changed, lo0, sum0);
  }

  lemma {:induction false} ComputationEnds(g: Cfg) returns (doms: seq<nat>)
    requires Numbered(g) && |g.succ| <= UNSET
    ensures EndsWith(g, doms) && Exact(g, doms)
  {
    hide *;
    NotEmpty(g);
    var n := |g.succ|;
    doms := seq(n, i => if i == n - 1 then n - 1 else UNSET);
    RunBegins(g, doms);
    var lo: nat, sweeps: nat, changed := n - 1, 0, true;
    while changed
      invariant |doms| == n && Running(g, sweeps, doms, lo, changed)
      decreases lo, Left(doms), changed
    {
      StartParts(g, sweeps, doms, lo, changed);
      var now;
      now, changed := SweepEnds(g, doms, lo);
      NextRun(g, sweeps, doms, now, lo, changed);
      doms, lo, sweeps := now, 0, sweeps + 1;
    }
    RunEnds(g, sweeps, doms, lo);
  }

  /** The computation ends exactly if each first listed predecessor has a larger number. */
  lemma {:induction false} EndsIffNumbered(g: Cfg)
    requires SomePredLater(g) && |g.succ| <= UNSET
    ensures (exists doms :: EndsWith(g, doms)) <==> Numbered(g)
  {
    hide EndsWith, SomePredLater;
    if Numbered(g) {
      var doms := ComputationEnds(g);
    } else {
      forall doms
        ensures !EndsWith(g, doms)
      {
        NeverEnds(g, doms);
      }
    }
  }

  /** On a block graph, under any numbering that gives every block some later predecessor, as depth-first order does. */
  lemma {:induction false} EndsIffFirstPredLater(g: Cfg, order: seq<nat>, number: map<nat, nat>)
    requires Renumberable(g, order, number) && |g.succ| <= UNSET
    ensures (exists doms :: EndsWith(Renumber(g, order, number), doms)) <==> FirstPredLater(g, order, number)
  {
    hide EndsWith, IsNumbering, WellConnected, SomePredLater, FirstPredLater, Numbered, Renumber;
    RenumberedIsNumbered(g, order, number);
    RenumberedHasLaterPreds(g, order, number);
    FitsUnset(g, order, number);
    EndsIffNumbered(Renumber(g, order, number));
  }

  lemma {:induction false} FitsUnset(g: Cfg, order: seq<nat>, number: map<nat, nat>)
    requires Renumberable(g, order, number) && |g.succ| <= UNSET
    ensures |Renumber(g, order, number).succ| <= UNSET
  {
    NumberingFits(g, order, number);
  }

  lemma {:induction false} RenumberedHasLaterPreds(g: Cfg, order: seq<nat>, number: map<nat, nat>)
    requires Renumberable(g, order, number)
    ensures SomePredLater(Renumber(g, order, number))
  {
    var h := Renumber(g, order, number);
    RenumberInRange(g, order, number);
    forall b: nat | b < |order|
      ensures Agrees(h, b)
    {
      forall p: nat | p < |order|
        ensures p in h.pred[b] <==> b in h.succ[p]
      {
        RenumberEdge(g, order, number, p, b);
        NeighboursListed(g, order, number, b);
        NeighboursListed(g, order, number, p);
        assert Agrees(g, order[b]);
      }
    }
    assert h.pred[|order|-1] == [];
    forall i: nat | i < h.entry
      ensures |h.pred[i]| > 0 && PredLater(h, i)
    {
      assert HasLaterPred(g, order, i);
      var j: nat :| i < j < |order| && order[j] < |g.succ| && order[i] in g.succ[order[j]];
      RenumberEdge(g, order, number, j, i);
      assert Agrees(h, i) && j in h.pred[i];
    }
  }
}
