/** SSA conversion as a whole: analysis, phi placement, renaming and the removal of unused phis. */
module SsaConversion {
  import opened Graphs
  import opened Dominators
  import opened Frontiers
  import opened IR
  import opened Liveness
  import opened SsaSpec
  import opened SsaMeaning
  import opened PhiPlacement
  import opened Renaming

  /** b is in the dominance frontier of a block that assigns r. */
  ghost predicate InAssignFrontier(code: Code, g: Cfg, r: nat, b: nat) {
    exists x: nat :: AssignsReg(code, x, r) && InFrontier(g, x, b)
  }

  /** For the register that is mentioned first, the frontier of its assigning blocks is closed. */
  ghost predicate FirstRegClosed(code: Code, g: Cfg) {
    forall r: nat, x: nat, b: nat ::
      HasFirst(code, r) && InAssignFrontier(code, g, r, x) && InFrontier(g, x, b) ==> InAssignFrontier(code, g, r, b)
  }

  lemma {:induction false} PlainIsAssignFrontier(code: Code, g: Cfg, vars: seq<RegInfo>, i: nat, b: nat)
    requires TableOf(code, |code|, vars) && i < |vars|
    ensures InPlainFrontier(g, vars[i], b) <==> InAssignFrontier(code, g, vars[i].reg, b)
  {
    var a := vars[i].assigns;
    assert AssignsOf(code, |code|, vars[i].reg, a);
    forall x: nat
      ensures AssignsIn(vars[i], x) <==> AssignsReg(code, x, vars[i].reg)
    {
      if AssignsIn(vars[i], x) {
        var k :| 0 <= k < |a| && a[k].0 == x;
        assert LastAssign(code[x], |code[x]|, vars[i].reg, a[k].1);
      }
    }
  }

  lemma {:induction false} OneFirst(code: Code, r: nat, r': nat)
    requires HasFirst(code, r) && HasFirst(code, r')
    ensures r == r'
  {
    var b: nat, k: nat :| FirstOfAll(code, b, k, r);
    var b': nat, k': nat :| FirstOfAll(code, b', k', r');
    assert Mentions(code[b][k], r) && Mentions(code[b'][k'], r');
    assert MentionedBy(code[b], |code[b]|, r) && MentionedBy(code[b'], |code[b']|, r');
  }

  /** The same where that register is live. */
  ghost predicate FirstRegLiveClosed(code: Code, g: Cfg, observed: set<nat>) {
    forall r: nat, x: nat, b: nat ::
      HasFirst(code, r) && InAssignFrontier(code, g, r, x) && InFrontier(g, x, b) && Live(code, observed, b, 0, r) ==>
        InAssignFrontier(code, g, r, b)
  }

  /** Both frontiers of the first register are those of the table's first entry. */
  lemma {:induction false} FirstEntry(p: Problem, vars: seq<RegInfo>)
    requires PhisPlaced(p, vars)
    ensures vars == [] ==> forall r: nat :: !HasFirst(p.code, r)
    ensures vars != [] ==> forall r: nat :: HasFirst(p.code, r) <==> r == vars[0].reg
    ensures vars != [] ==>
      forall b: nat :: InPlainFrontier(p.g, vars[0], b) <==> InAssignFrontier(p.code, p.g, vars[0].reg, b)
  {
    if vars == [] {
      NoFirst(p.code);
    } else {
      forall b: nat
        ensures InPlainFrontier(p.g, vars[0], b) <==> InAssignFrontier(p.code, p.g, vars[0].reg, b)
      {
        PlainIsAssignFrontier(p.code, p.g, vars, 0, b);
      }
      forall r: nat | HasFirst(p.code, r)
        ensures r == vars[0].reg
      {
        OneFirst(p.code, r, vars[0].reg);
      }
    }
  }

  /** The placed phis are closed under frontiers exactly when those of the first register are. */
  lemma {:induction false} ClosedIffFirstRegClosed(p: Problem, vars: seq<RegInfo>)
    requires Ready(p) && PhisPlaced(p, vars)
    ensures Closed(p) <==> FirstRegClosed(p.code, p.g)
  {
    PlacementIsClosed(p, vars);
    FirstEntry(p, vars);
    assert |p.g.pred| == |p.code|;
  }

  /** And they are closed for live registers exactly when those of the first register are where it is live. */
  lemma {:induction false} LiveClosedIffFirstRegLiveClosed(p: Problem, vars: seq<RegInfo>, observed: set<nat>)
    requires Ready(p) && PhisPlaced(p, vars)
    ensures LiveClosed(p, observed) <==> FirstRegLiveClosed(p.code, p.g, observed)
  {
    PlacementIsLiveClosed(p, vars, observed);
    FirstEntry(p, vars);
    assert |p.g.pred| == |p.code|;
  }

  ghost predicate MentionsAny(code: Code) {
    exists x, k :: 0 <= x < |code| && 0 <= k < |code[x]| && code[x][k].IsLoadAssign()
  }

  /** Where only register 0 is mentioned the table has one entry, and phis are at the plain frontier. */
  lemma {:induction false} OnlyRegister(p: Problem, vars: seq<RegInfo>, b: nat, r: nat)
    requires PhisPlaced(p, vars) && b < |p.phi|
    requires forall x, k :: 0 <= x < |p.code| && 0 <= k < |p.code[x]| && p.code[x][k].IsLoadAssign() ==> p.code[x][k].reg == 0
    ensures r in p.phi[b] ==> r == 0 && InAssignFrontier(p.code, p.g, 0, b)
    ensures MentionsAny(p.code) && InAssignFrontier(p.code, p.g, 0, b) ==> 0 in p.phi[b]
  {
    forall i | 0 <= i < |vars|
      ensures vars[i].reg == 0 && i == 0
    {
      assert HasReg(vars, vars[i].reg);
      var x: nat :| x < |p.code| && MentionedBy(p.code[x], |p.code[x]|, vars[i].reg);
      assert vars[0].reg == 0 by {
        assert HasReg(vars, vars[0].reg);
        var y: nat :| y < |p.code| && MentionedBy(p.code[y], |p.code[y]|, vars[0].reg);
      }
    }
    if vars != [] {
      PlainIsAssignFrontier(p.code, p.g, vars, 0, b);
      assert NeedsPhi(p.g, vars, 0, b) <==> InAssignFrontier(p.code, p.g, 0, b);
    }
    if MentionsAny(p.code) {
      var x, k :| 0 <= x < |p.code| && 0 <= k < |p.code[x]| && p.code[x][k].IsLoadAssign();
      assert Mentions(p.code[x][k], 0);
      assert MentionedBy(p.code[x], |p.code[x]|, 0);
      assert HasReg(vars, 0);
    }
  }

  lemma {:induction false} FirstIsMentioned(code: Code, r: nat)
    requires HasFirst(code, r)
    ensures MentionedBelow(code, |code|, r)
  {
    var b: nat, k: nat :| FirstOfAll(code, b, k, r);
    assert Mentions(code[b][k], r);
    assert MentionedBy(code[b], |code[b]|, r);
  }

  lemma {:induction false} NoFirst(code: Code)
    requires TableOf(code, |code|, [])
    ensures forall r: nat :: !HasFirst(code, r)
  {
    forall r: nat
      ensures !HasFirst(code, r)
    {
      assert !HasReg([], r);
      if HasFirst(code, r) {
        FirstIsMentioned(code, r);
      }
    }
  }

  // ---------------------------------------------------------------- the start of renaming

  function Unrenamed(code: Code): (slots: seq<seq<Slot>>)
    ensures |slots| == |code| && forall b :: 0 <= b < |code| ==> |slots[b]| == |code[b]|
    ensures forall b, k :: 0 <= b < |code| && 0 <= k < |code[b]| ==> slots[b][k] == Slot(true, code[b][k])
  {
    seq(|code|, b requires 0 <= b < |code| => seq(|code[b]|, k requires 0 <= k < |code[b]| => Slot(true, code[b][k])))
  }

  function Zeros(n: nat): seq<nat> {
    seq(n, _ => 0)
  }

  function EmptyStacks(vars: seq<RegInfo>): (s: Stacks)
    ensures forall r: nat :: r in s <==> HasReg(vars, r)
    ensures forall r :: r in s ==> s[r] == []
  {
    var regs := set i | 0 <= i < |vars| :: vars[i].reg;
    map r | r in regs :: []
  }

  lemma {:induction false} StacksForAll(p: Problem, vars: seq<RegInfo>, phis: seq<seq<Phi>>)
    requires TableOf(p.code, |p.code|, vars) && |phis| == |p.code| && p.phi == PhiSets(phis)
    requires PlacedUpTo(p.g, vars, |vars|, phis)
    ensures HasStacks(p, EmptyStacks(vars).Keys)
  {
    forall b, k | 0 <= b < |p.code| && 0 <= k < |p.code[b]| && p.code[b][k].IsLoadAssign()
      ensures HasReg(vars, p.code[b][k].reg)
    {
      assert Mentions(p.code[b][k], p.code[b][k].reg);
      assert MentionedBy(p.code[b], |p.code[b]|, p.code[b][k].reg);
    }
    forall b, r | 0 <= b < |p.phi| && r in p.phi[b]
      ensures HasReg(vars, r)
    {
      assert HasPhi(phis[b], r);
    }
  }

  lemma {:induction false} StartsBetween(p: Problem, slots: seq<seq<Slot>>, phis: seq<seq<Phi>>, keys: set<nat>,
                                         renamed: seq<bool>)
    requires Ready(p) && slots == Unrenamed(p.code) && |phis| == |p.code| && FreshPhis(phis)
    requires p.phi == PhiSets(phis) && HasStacks(p, keys)
    requires |renamed| == |p.code| && forall x :: 0 <= x < |renamed| ==> !renamed[x]
    ensures Between(p, Zeros(|p.code|), {}, slots, phis, keys, renamed)
  {
    forall s, r: nat | 0 <= s < |phis|
      ensures r in p.phi[s] <==> exists i :: 0 <= i < |phis[s]| && phis[s][i].reg == r
    {
    }
  }

  lemma {:induction false} StartsVisitable(p: Problem, stacks: Stacks)
    requires Ready(p) && forall r :: r in stacks ==> stacks[r] == []
    ensures Visitable(p, Zeros(|p.code|), {}, stacks, p.g.entry)
  {
    forall x: nat | x < |p.code| && On(p.doms, p.g.entry, x)
      ensures x == p.g.entry
    {
      OnBounds(p.doms, p.g.entry, x);
    }
  }

  lemma {:induction false} EndsRenamed(p: Problem, slots: seq<seq<Slot>>, phis: seq<seq<Phi>>, keys: set<nat>,
                                       renamed: seq<bool>)
    requires Shape(p) && p.g.entry < |p.code|
    requires Between(p, Finish(p, Zeros(|p.code|), Subtree(p, p.g.entry)), Subtree(p, p.g.entry),
                     slots, phis, keys, renamed)
    ensures IsRenamed(p, SsaCode(slots, phis))
  {
    var s := Subtree(p, p.g.entry);
    var prog := Finish(p, Zeros(|p.code|), s);
    forall b: nat | b < |p.code|
      ensures b in s
    {
      RootOn(p.doms, 0, b);
    }
    AllRenamed(p, prog, slots);
    AllServed(p, phis, s);
  }

  /** Unlinks the phis nobody uses. */
  method Prune(c: SsaCode) returns (c': SsaCode)
    ensures IsPruned(c, c')
    ensures forall b: nat, i: nat :: b < |c.phis| && i < |c.phis[b]| ==>
      (c'.phis[b][i].linked <==> c.phis[b][i].linked && Named(c, b, c.phis[b][i].reg))
  {
    var phis := c.phis;
    for b := 0 to |c.phis|
      invariant |phis| == |c.phis|
      invariant forall x :: 0 <= x < b ==> PrunedBlock(c, x, c.phis[x], phis[x])
      invariant forall x :: b <= x < |phis| ==> phis[x] == c.phis[x]
    {
      for i := 0 to |c.phis[b]|
        invariant |phis| == |c.phis| && |phis[b]| == |c.phis[b]|
        invariant forall x :: 0 <= x < |phis| && x != b ==> x < b ==> PrunedBlock(c, x, c.phis[x], phis[x])
        invariant forall x :: b < x < |phis| ==> phis[x] == c.phis[x]
        invariant forall j :: 0 <= j < i ==>
          phis[b][j] == c.phis[b][j].(linked := c.phis[b][j].linked && HasUse(c, PhiValue(b, c.phis[b][j].reg)))
        invariant forall j :: i <= j < |phis[b]| ==> phis[b][j] == c.phis[b][j]
      {
        if !HasUse(c, PhiValue(b, phis[b][i].reg)) {
          phis := phis[b := phis[b][i := phis[b][i].(linked := false)]];
        }
      }
    }
    c' := SsaCode(c.slots, phis);
    forall b: nat, i: nat | b < |c.phis| && i < |c.phis[b]|
      ensures c'.phis[b][i].linked <==> c.phis[b][i].linked && Named(c, b, c.phis[b][i].reg)
    {
      UsedIsNamed(c, b, c.phis[b][i].reg);
    }
  }

  /** Some instruction object has the phi for r in block b as an operand, or some pair of some phi has it as value. */
  ghost predicate Named(c: SsaCode, b: nat, r: nat) {
    || (exists x, k :: 0 <= x < |c.slots| && 0 <= k < |c.slots[x]| &&
          match c.slots[x][k].inst
          case Assign(_, v) => v == PhiValue(b, r)
          case Binary(_, v, w) => v == PhiValue(b, r) || w == PhiValue(b, r)
          case JumpCond(_, _, v) => v == PhiValue(b, r)
          case _ => false)
    || (exists x, m, n :: 0 <= x < |c.phis| && 0 <= m < |c.phis[x]| && 0 <= n < |c.phis[x][m].pairs| &&
          c.phis[x][m].pairs[n].1 == PhiValue(b, r))
  }

  lemma {:induction false} UsedIsNamed(c: SsaCode, b: nat, r: nat)
    ensures HasUse(c, PhiValue(b, r)) <==> Named(c, b, r)
  {
  }

  /** In the converted program exactly the phis that something names are linked. */
  lemma {:induction false} LinkedIffNamed(p: Problem, c': SsaCode, b: nat, i: nat)
    requires Shape(p) && IsConverted(p, c') && b < |c'.phis| && i < |c'.phis[b]|
    ensures c'.phis[b][i].linked <==> Named(c', b, c'.phis[b][i].reg)
    ensures var v := PhiValue(b, c'.phis[b][i].reg);
      c'.phis[b][i].linked <==>
        || (exists x, k :: 0 <= x < |c'.slots| && 0 <= k < |c'.slots[x]| && c'.slots[x][k].inst.Uses(v))
        || (exists x, m, n :: 0 <= x < |c'.phis| && 0 <= m < |c'.phis[x]| && 0 <= n < |c'.phis[x][m].pairs| &&
              c'.phis[x][m].pairs[n].1 == v)
  {
    var c :| IsRenamed(p, c) && IsPruned(c, c');
    var r := c.phis[b][i].reg;
    assert PrunedBlock(c, b, c.phis[b], c'.phis[b]);
    UsedIsNamed(c, b, r);
    SameNames(c, c', b, r);
  }

  lemma {:induction false} AllLinkedIffNamed(p: Problem, c': SsaCode)
    requires Shape(p) && IsConverted(p, c')
    ensures forall b: nat, i: nat :: b < |c'.phis| && i < |c'.phis[b]| ==>
      (c'.phis[b][i].linked <==> Named(c', b, c'.phis[b][i].reg))
  {
    forall b: nat, i: nat | b < |c'.phis| && i < |c'.phis[b]|
      ensures c'.phis[b][i].linked <==> Named(c', b, c'.phis[b][i].reg)
    {
      LinkedIffNamed(p, c', b, i);
    }
  }

  lemma {:induction false} SameNames(c: SsaCode, c': SsaCode, b: nat, r: nat)
    requires IsPruned(c, c')
    ensures Named(c, b, r) <==> Named(c', b, r)
  {
    forall x: nat | x < |c.phis|
      ensures |c'.phis[x]| == |c.phis[x]| && forall m :: 0 <= m < |c.phis[x]| ==> c'.phis[x][m].pairs == c.phis[x][m].pairs
    {
      assert PrunedBlock(c, x, c.phis[x], c'.phis[x]);
    }
  }

  lemma {:induction false} DomsShape(code: Code, g: Cfg, doms: seq<nat>)
    requires WellFormed(code, g) && Exact(g, doms)
    ensures |code| == |g.succ| == |g.pred| == |doms| && g.entry == |doms| - 1 && Tree(doms, 0)
  {
  }

  lemma {:induction false} PhiSetsLength(phis: seq<seq<Phi>>)
    ensures |PhiSets(phis)| == |phis|
  {
  }

  /** After placement the program is ready: phis where they belong and a stack for each register. */
  lemma {:induction false} ReadyToRename(p: Problem, vars: seq<RegInfo>, phis: seq<seq<Phi>>)
    requires WellFormed(p.code, p.g) && Exact(p.g, p.doms)
    requires TableOf(p.code, |p.code|, vars) && |phis| == |p.code| && p.phi == PhiSets(phis)
    requires PlacedUpTo(p.g, vars, |vars|, phis) && (|vars| > 0 ==> HasFirst(p.code, vars[0].reg))
    ensures Ready(p) && PhisPlaced(p, vars) && HasStacks(p, EmptyStacks(vars).Keys)
  {
    PlacedSets(p, vars, phis);
    StacksForAll(p, vars, phis);
  }

  /** Conversion succeeds on code whose loads are dominated by assigns, and on code whose loads are preceded by
      assigns on every path if the frontier for the first register is closed where that register is live. */
  lemma {:induction false} LoadsFound(p: Problem, vars: seq<RegInfo>)
    requires Ready(p) && PhisPlaced(p, vars)
    ensures LoadsDominated(p.code, p.g) ==> LoadsReach(p)
    ensures FirstRegClosed(p.code, p.g) ==> forall observed :: FirstRegLiveClosed(p.code, p.g, observed)
    ensures forall observed :: LoadsCovered(p.code, p.g) && FirstRegLiveClosed(p.code, p.g, observed) ==>
      Convertible(p, observed) && LoadsReach(p)
  {
    if LoadsDominated(p.code, p.g) {
      DominatedLoadsReach(p);
    }
    forall observed | LoadsCovered(p.code, p.g) && FirstRegLiveClosed(p.code, p.g, observed)
      ensures Convertible(p, observed) && LoadsReach(p)
    {
      LiveClosedIffFirstRegLiveClosed(p, vars, observed);
      CoveredLoadsReach(p, observed);
    }
  }

  lemma {:induction false} PrunedIsConverted(p: Problem, c: SsaCode, c': SsaCode)
    requires Shape(p) && IsRenamed(p, c) && IsPruned(c, c')
    ensures IsConverted(p, c')
  {
  }

  lemma {:induction false} WalkReachesAll(p: Problem)
    requires Shape(p) && p.g.entry < |p.code| && p.g.entry == |p.doms| - 1
    ensures AllReach(p, Subtree(p, p.g.entry)) <==> LoadsReach(p)
  {
    forall b: nat | b < |p.code|
      ensures b in Subtree(p, p.g.entry)
    {
      RootOn(p.doms, 0, b);
    }
  }

  /** Converts code to SSA form and returns the result, with the registers and where each of them got phis.
      There is no result if and only if some load has no nearest definition, and thus an empty stack. */
  method Convert(code: Code, g: Cfg, doms: array<nat>, childs: seq<seq<nat>>, df: FrontierTable)
    returns (c: Option<SsaCode>, ghost p: Problem, ghost vars: seq<RegInfo>)
    requires WellFormed(code, g) && Exact(g, doms[..])
    requires |childs| == |code| && forall d :: 0 <= d < |childs| ==> IsChildList(doms[..], d, childs[d], doms.Length)
    requires forall x: nat, b: nat :: Has(df.lists, x, b) <==> InFrontier(g, x, b)
    modifies df
    ensures p.code == code && p.g == g && p.doms == doms[..]
    ensures Ready(p) && PhisPlaced(p, vars)
    ensures c.Some? <==> LoadsReach(p)
    ensures c.Some? ==> IsConverted(p, c.value)
    ensures c.Some? ==> forall b: nat, i: nat :: b < |c.value.phis| && i < |c.value.phis[b]| ==>
      (c.value.phis[b][i].linked <==> Named(c.value, b, c.value.phis[b][i].reg))
    ensures LoadsDominated(code, g) ==> c.Some?
    ensures forall observed :: LoadsCovered(code, g) && FirstRegLiveClosed(code, g, observed) ==>
      c.Some? && Convertible(p, observed)
  {
    hide *;
    DomsShape(code, g, doms[..]);
    var table := Analyse(code);
    vars := table;
    var placer := new PhiPlacer(|code|);
    placer.Place(g, df, code, table);
    var phis := placer.phis;
    p := Problem(code, g, doms[..], PhiSets(phis));
    PhiSetsLength(phis);
    ReadyToRename(p, table, phis);
    LoadsFound(p, vars);
    var walk := new Renamer(Unrenamed(code), phis, EmptyStacks(table));
    StartsBetween(p, walk.slots, phis, EmptyStacks(table).Keys, walk.renamed);
    StartsVisitable(p, EmptyStacks(table));
    WalkReachesAll(p);
    var ok := walk.Rename(p, Zeros(|code|), {}, childs, g.entry);
    if !ok {
      return None, p, vars;
    }
    assert {} + Subtree(p, g.entry) == Subtree(p, g.entry);
    EndsRenamed(p, walk.slots, walk.phis, walk.stacks.Keys, walk.renamed);
    var c' := Prune(SsaCode(walk.slots, walk.phis));
    PrunedIsConverted(p, SsaCode(walk.slots, walk.phis), c');
    AllLinkedIffNamed(p, c');
    c := Some(c');
  }
}
