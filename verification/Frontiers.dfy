/** Dominance frontiers: from every predecessor of a block a runner climbs the dominator tree up to
    the block's immediate dominator and records the block at each stop. */
module Frontiers {
  import opened Graphs
  import opened Dominators

  /** b is in the dominance frontier of n: n dominates some predecessor of b but does not strictly
      dominate b itself. */
  ghost predicate InFrontier(g: Cfg, n: nat, b: nat) {
    && b < |g.pred|
    && (exists p :: p in g.pred[b] && Dominates(g, n, p))
    && !StrictlyDominates(g, n, b)
  }

  ghost predicate Has(lists: map<nat, seq<nat>>, x: nat, b: nat) {
    x in lists && b in lists[x]
  }

  /** The runner that starts at p and stops at the immediate dominator of b passes x. */
  ghost predicate Passes(doms: seq<nat>, p: nat, b: nat, x: nat)
    requires b < |doms|
  {
    On(doms, p, x) && !On(doms, doms[b], x)
  }

  lemma {:induction false} PassesIsFrontier(g: Cfg, doms: seq<nat>, b: nat, x: nat)
    requires Numbered(g) && Exact(g, doms) && b < |doms|
    ensures (exists p :: p in g.pred[b] && Passes(doms, p, b, x)) <==> InFrontier(g, x, b)
  {
    if b < g.entry {
      ExactGivesIDom(g, doms, b);
      forall p | p in g.pred[b]
        ensures Passes(doms, p, b, x) <==> Dominates(g, x, p) && !StrictlyDominates(g, x, b)
      {
        assert On(doms, p, x) <==> Dominates(g, x, p);
        assert On(doms, doms[b], x) <==> Dominates(g, x, doms[b]);
        if Dominates(g, x, doms[b]) {
          DominatesTransitive(g, x, doms[b], b);
          DominatorsAreHigher(g, x, doms[b]);
        }
      }
    }
  }

  /** The immediate dominator of b is on the chain of each predecessor, where every runner stops. */
  lemma {:induction false} RunnerStops(g: Cfg, doms: seq<nat>, b: nat, p: nat)
    requires Numbered(g) && Exact(g, doms) && b < g.entry && p in g.pred[b]
    ensures On(doms, p, doms[b])
  {
    ExactGivesIDom(g, doms, b);
    NumberedEdge(g, p, b);
    DominatesPred(g, doms[b], b, p);
  }

  class FrontierTable {
    var lists: map<nat, seq<nat>>

    constructor ()
      ensures lists == map[]
    {
      lists := map[];
    }

    /** The list of a block, created empty on first use. */
    method Element(x: nat) returns (l: seq<nat>)
      modifies this
      ensures x in lists && l == lists[x]
      ensures forall y, b :: Has(lists, y, b) <==> Has(old(lists), y, b)
      ensures x !in old(lists) ==> l == []
    {
      if x !in lists {
        lists := lists[x := []];
      }
      l := lists[x];
    }

    method Climb(doms: array<nat>, p: nat, b: nat)
      requires Tree(doms[..], 0) && b < doms.Length && On(doms[..], p, doms[b])
      modifies this
      ensures forall x: nat, c: nat :: Has(lists, x, c) <==>
        Has(old(lists), x, c) || (c == b && Passes(doms[..], p, b, x))
    {
      var runner, dom := p, doms[b];
      ghost var s := doms[..];
      OnBounds(s, p, dom);
      while runner != dom
        invariant runner < doms.Length && On(s, runner, dom)
        invariant forall x: nat, c: nat :: Has(lists, x, c) <==>
          Has(old(lists), x, c) || (c == b && Passes(s, p, b, x) && !On(s, runner, x))
        invariant forall x: nat :: On(s, runner, x) ==> On(s, p, x)
        decreases doms.Length - runner
      {
        OnBounds(s, runner, dom);
        var l := Element(runner);
        ghost var before := lists;
        lists := lists[runner := l + [b]];
        assert doms[runner] == s[runner];
        forall x: nat, c: nat
          ensures Has(lists, x, c) <==>
            Has(old(lists), x, c) || (c == b && Passes(s, p, b, x) && !On(s, s[runner], x))
        {
          assert Has(lists, x, c) <==> Has(before, x, c) || (x == runner && c == b);
          if On(s, dom, runner) {
            OnBounds(s, dom, runner);
          }
          if On(s, s[runner], runner) {
            OnBounds(s, s[runner], runner);
          }
          assert On(s, runner, x) <==> (x == runner || On(s, s[runner], x));
        }
        runner := doms[runner];
      }
    }

    method Compute(g: Cfg, doms: array<nat>)
      requires Numbered(g) && Exact(g, doms[..]) && lists == map[]
      modifies this
      ensures forall x: nat, b: nat :: Has(lists, x, b) <==> InFrontier(g, x, b)
    {
      ghost var s := doms[..];
      for i := 0 to doms.Length
        invariant forall x: nat, b: nat :: Has(lists, x, b) <==> b < i && InFrontier(g, x, b)
      {
        ghost var before := lists;
        for j := 0 to |g.pred[i]|
          invariant forall x: nat, b: nat :: Has(lists, x, b) <==>
            Has(before, x, b) || (b == i && exists q :: 0 <= q < j && Passes(s, g.pred[i][q], i, x))
        {
          assert g.pred[i][j] in g.pred[i];
          RunnerStops(g, s, i, g.pred[i][j]);
          Climb(doms, g.pred[i][j], i);
        }
        forall x: nat, b: nat
          ensures Has(lists, x, b) <==> b < i + 1 && InFrontier(g, x, b)
        {
          PassesIsFrontier(g, s, i, x);
          if b == i && exists p :: p in g.pred[i] && Passes(s, p, i, x) {
            var p :| p in g.pred[i] && Passes(s, p, i, x);
            var q :| 0 <= q < |g.pred[i]| && g.pred[i][q] == p;
          }
        }
      }
    }

    /** The recorded frontier of a block. */
    method Get(x: nat) returns (l: seq<nat>)
      modifies this
      ensures forall b: nat :: b in l <==> Has(old(lists), x, b)
      ensures forall y, b :: Has(lists, y, b) <==> Has(old(lists), y, b)
    {
      l := Element(x);
      assert forall b: nat :: b in l <==> Has(lists, x, b);
    }
  }
}
