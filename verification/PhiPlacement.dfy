/** The first two steps of SSA conversion: collecting the registers with the blocks that assign them, and
    the worklist that places phis over the dominance frontiers. */
module PhiPlacement {
  import opened Graphs
  import opened Postorders
  import opened Frontiers
  import opened IR
  import opened Sequences
  import opened Liveness
  import opened SsaSpec

  // ---------------------------------------------------------------- step 1: analysis

  /** A register with the last assign to it of every block that has one: (block, position) pairs. */
  datatype RegInfo = RegInfo(reg: nat, assigns: seq<(nat, nat)>)

  predicate Mentions(inst: Inst, r: nat) {
    (inst.Load? || inst.Assign?) && inst.reg == r
  }

  ghost predicate MentionedBy(insts: seq<Inst>, k: nat, r: nat) {
    exists j :: 0 <= j < k && j < |insts| && Mentions(insts[j], r)
  }

  ghost predicate LastAssign(insts: seq<Inst>, k: nat, r: nat, pos: nat) {
    && pos < k <= |insts| && insts[pos].Assign? && insts[pos].reg == r
    && forall j :: pos < j < k ==> !(insts[j].Assign? && insts[j].reg == r)
  }

  /** The registers of one block in the order of their first mention, and their last assigns. */
  method AnalyseBlock(insts: seq<Inst>) returns (regs: seq<nat>, last: map<nat, nat>)
    ensures Distinct(regs)
    ensures forall r: nat :: r in regs <==> MentionedBy(insts, |insts|, r)
    ensures |regs| > 0 ==> exists k :: 0 <= k < |insts| && FirstMentioned(insts, k, regs[0])
    ensures forall r: nat :: r in last <==> AssignedBy(insts, |insts|, r)
    ensures forall r: nat :: r in last ==> LastAssign(insts, |insts|, r, last[r])
  {
    regs, last := [], map[];
    ghost var first := 0;
    for k := 0 to |insts|
      invariant Distinct(regs)
      invariant forall r: nat :: r in regs <==> MentionedBy(insts, k, r)
      invariant |regs| > 0 ==> 0 <= first < k && FirstMentioned(insts, first, regs[0])
      invariant forall r: nat :: r in last <==> AssignedBy(insts, k, r)
      invariant forall r: nat :: r in last ==> LastAssign(insts, k, r, last[r])
    {
      var inst := insts[k];
      if inst.Load? || inst.Assign? {
        assert Mentions(inst, inst.reg);
        if regs == [] {
          forall j, r: nat | 0 <= j < k
            ensures !Mentions(insts[j], r)
          {
            assert r !in regs;
          }
          first := k;
        }
        if inst.reg !in regs {
          regs := regs + [inst.reg];
        }
      }
      if inst.Assign? {
        last := last[inst.reg := k];
      }
    }
  }

  ghost predicate FirstMentioned(insts: seq<Inst>, k: nat, r: nat) {
    && k < |insts| && Mentions(insts[k], r)
    && forall j, r': nat :: 0 <= j < k ==> !Mentions(insts[j], r')
  }

  /** The assigns of r found in the blocks below n: each block that assigns r once, with its last assign. */
  ghost predicate AssignsOf(code: Code, n: nat, r: nat, a: seq<(nat, nat)>) {
    && n <= |code|
    && (forall i :: 0 <= i < |a| ==> a[i].0 < n && LastAssign(code[a[i].0], |code[a[i].0]|, r, a[i].1))
    && (forall i, j :: 0 <= i < j < |a| ==> a[i].0 < a[j].0)
    && (forall b: nat :: b < n && AssignsReg(code, b, r) ==> exists i :: 0 <= i < |a| && a[i].0 == b)
  }

  predicate HasReg(vars: seq<RegInfo>, r: nat) {
    exists i :: 0 <= i < |vars| && vars[i].reg == r
  }

  ghost predicate MentionedBelow(code: Code, n: nat, r: nat) {
    exists b :: 0 <= b < n && b < |code| && MentionedBy(code[b], |code[b]|, r)
  }

  /** The register table for the blocks below n. */
  ghost predicate TableOf(code: Code, n: nat, vars: seq<RegInfo>) {
    && n <= |code|
    && (forall i, j :: 0 <= i < j < |vars| ==> vars[i].reg != vars[j].reg)
    && (forall r: nat :: HasReg(vars, r) <==> MentionedBelow(code, n, r))
    && (forall i :: 0 <= i < |vars| ==> AssignsOf(code, n, vars[i].reg, vars[i].assigns))
  }

  ghost predicate DistinctRegs(vars: seq<RegInfo>) {
    forall i, j :: 0 <= i < j < |vars| ==> vars[i].reg != vars[j].reg
  }

  /** Midway through block b: the registers in regs[..m] have been entered. */
  ghost predicate Entering(code: Code, b: nat, vars: seq<RegInfo>, regs: seq<nat>, m: nat) {
    && b < |code| && m <= |regs|
    && DistinctRegs(vars)
    && (forall r: nat :: HasReg(vars, r) <==> MentionedBelow(code, b, r) || r in regs[..m])
    && (forall i :: 0 <= i < |vars| ==>
          AssignsOf(code, if vars[i].reg in regs[..m] then b + 1 else b, vars[i].reg, vars[i].assigns))
  }

  /** Enters one register of block b: found in the table, or appended to it. */
  method EnterReg(code: Code, b: nat, vars: seq<RegInfo>, regs: seq<nat>, m: nat, last: map<nat, nat>)
    returns (vars': seq<RegInfo>)
    requires Entering(code, b, vars, regs, m) && m < |regs| && Distinct(regs)
    requires forall r: nat :: r in last <==> AssignsReg(code, b, r)
    requires forall r: nat :: r in last ==> LastAssign(code[b], |code[b]|, r, last[r])
    ensures Entering(code, b, vars', regs, m + 1)
    ensures |vars'| > 0 && vars'[0].reg == if |vars| > 0 then vars[0].reg else regs[m]
  {
    var r := regs[m];
    var i := 0;
    while i < |vars| && vars[i].reg != r
      invariant 0 <= i <= |vars|
      invariant forall j :: 0 <= j < i ==> vars[j].reg != r
    {
      i := i + 1;
    }
    if i == |vars| {
      assert !HasReg(vars, r);
      NotMentionedNotAssigned(code, b, r);
    }
    var info := if i == |vars| then RegInfo(r, []) else vars[i];
    var info' := if r in last then RegInfo(r, info.assigns + [(b, last[r])]) else info;
    ExtendAssigns(code, b, r, info.assigns, last);
    vars' := if i == |vars| then vars + [info'] else vars[i := info'];
    EnteredTable(code, b, vars, regs, m, i, info', vars');
  }

  lemma {:induction false} AssignedIsMentioned(insts: seq<Inst>, r: nat)
    ensures AssignedBy(insts, |insts|, r) ==> MentionedBy(insts, |insts|, r)
  {
    if AssignedBy(insts, |insts|, r) {
      var j :| 0 <= j < |insts| && insts[j].Assign? && insts[j].reg == r;
      assert Mentions(insts[j], r);
    }
  }

  lemma {:induction false} NotMentionedNotAssigned(code: Code, b: nat, r: nat)
    requires b < |code| && !MentionedBelow(code, b, r)
    ensures AssignsOf(code, b, r, [])
  {
    forall x: nat | x < b
      ensures !AssignsReg(code, x, r)
    {
      AssignedIsMentioned(code[x], r);
    }
  }

  lemma {:induction false} ExtendAssigns(code: Code, b: nat, r: nat, a: seq<(nat, nat)>, last: map<nat, nat>)
    requires b < |code| && AssignsOf(code, b, r, a)
    requires r in last <==> AssignsReg(code, b, r)
    requires r in last ==> LastAssign(code[b], |code[b]|, r, last[r])
    ensures AssignsOf(code, b + 1, r, if r in last then a + [(b, last[r])] else a)
  {
    hide LastAssign, AssignsReg;
    var a' := if r in last then a + [(b, last[r])] else a;
    forall x: nat | x < b + 1 && AssignsReg(code, x, r)
      ensures exists i :: 0 <= i < |a'| && a'[i].0 == x
    {
      if x == b {
        assert a'[|a|].0 == b;
      } else {
        var i :| 0 <= i < |a| && a[i].0 == x;
        assert a'[i].0 == x;
      }
    }
  }

  /** vars' is vars with the entry at position i, possibly a new last one, set to info. */
  ghost predicate Updated(vars: seq<RegInfo>, i: nat, info: RegInfo, vars': seq<RegInfo>) {
    && (i < |vars| ==> vars[i].reg == info.reg && vars' == vars[i := info])
    && (i >= |vars| ==> i == |vars| && !HasReg(vars, info.reg) && vars' == vars + [info])
  }

  lemma {:induction false} UpdatedRegs(vars: seq<RegInfo>, i: nat, info: RegInfo, vars': seq<RegInfo>, r: nat)
    requires Updated(vars, i, info, vars')
    ensures HasReg(vars', r) <==> HasReg(vars, r) || r == info.reg
  {
    if HasReg(vars, r) {
      var j :| 0 <= j < |vars| && vars[j].reg == r;
      assert vars'[j].reg == r;
    }
    if HasReg(vars', r) {
      var j :| 0 <= j < |vars'| && vars'[j].reg == r;
      assert j < |vars| ==> vars[j].reg == r;
    }
    assert vars'[i].reg == info.reg;
  }

  lemma {:induction false} EnteredTable(code: Code, b: nat, vars: seq<RegInfo>, regs: seq<nat>, m: nat, i: nat,
                                        info: RegInfo, vars': seq<RegInfo>)
    requires Entering(code, b, vars, regs, m) && m < |regs| && Distinct(regs)
    requires info.reg == regs[m] && AssignsOf(code, b + 1, info.reg, info.assigns) && Updated(vars, i, info, vars')
    ensures Entering(code, b, vars', regs, m + 1)
  {
    assert regs[..m+1] == regs[..m] + [regs[m]];
    forall r: nat
      ensures HasReg(vars', r) <==> MentionedBelow(code, b, r) || r in regs[..m+1]
    {
      UpdatedRegs(vars, i, info, vars', r);
    }
    forall j | 0 <= j < |vars'|
      ensures AssignsOf(code, if vars'[j].reg in regs[..m+1] then b + 1 else b, vars'[j].reg, vars'[j].assigns)
      ensures j != i ==> vars'[j].reg != info.reg
    {
      if j != i {
        assert vars'[j] == vars[j];
        assert i == |vars| ==> HasReg(vars, vars[j].reg);
      }
    }
  }

  lemma {:induction false} BlockEntered(code: Code, b: nat, vars: seq<RegInfo>, regs: seq<nat>)
    requires Entering(code, b, vars, regs, |regs|)
    requires forall r: nat :: r in regs <==> MentionedBy(code[b], |code[b]|, r)
    ensures TableOf(code, b + 1, vars)
  {
    assert regs[..|regs|] == regs;
    forall r: nat
      ensures MentionedBelow(code, b + 1, r) <==> MentionedBelow(code, b, r) || MentionedBy(code[b], |code[b]|, r)
    {
    }
    forall i | 0 <= i < |vars|
      ensures AssignsOf(code, b + 1, vars[i].reg, vars[i].assigns)
    {
      var r, a := vars[i].reg, vars[i].assigns;
      AssignedIsMentioned(code[b], r);
    }
  }

  /** The first register mentioned anywhere, in the order of the block numbers. */
  ghost predicate FirstOfAll(code: Code, b: nat, k: nat, r: nat) {
    && b < |code| && FirstMentioned(code[b], k, r)
    && forall x, r': nat :: 0 <= x < b ==> !MentionedBy(code[x], |code[x]|, r')
  }

  ghost predicate HasFirst(code: Code, r: nat) {
    exists b: nat, k: nat :: FirstOfAll(code, b, k, r)
  }

  lemma {:induction false} EmptyTable(code: Code, b: nat, regs: seq<nat>)
    requires b < |code| && TableOf(code, b, [])
    requires |regs| > 0 ==> exists k :: 0 <= k < |code[b]| && FirstMentioned(code[b], k, regs[0])
    ensures |regs| > 0 ==> HasFirst(code, regs[0])
  {
    forall x, r: nat | 0 <= x < b
      ensures !MentionedBy(code[x], |code[x]|, r)
    {
      assert !HasReg([], r);
    }
    if |regs| > 0 {
      var k :| 0 <= k < |code[b]| && FirstMentioned(code[b], k, regs[0]);
      assert FirstOfAll(code, b, k, regs[0]);
    }
  }

  /** Step 1: the table of all registers that are loaded or assigned, headed by the one mentioned first. */
  method Analyse(code: Code) returns (vars: seq<RegInfo>)
    ensures TableOf(code, |code|, vars)
    ensures |vars| > 0 ==> HasFirst(code, vars[0].reg)
  {
    vars := [];
    for b := 0 to |code|
      invariant TableOf(code, b, vars)
      invariant |vars| > 0 ==> HasFirst(code, vars[0].reg)
    {
      var regs, last := AnalyseBlock(code[b]);
      ghost var none := vars == [];
      if none {
        EmptyTable(code, b, regs);
      }
      for m := 0 to |regs|
        invariant Entering(code, b, vars, regs, m)
        invariant none && m == 0 ==> vars == []
        invariant none && m > 0 ==> |vars| > 0 && vars[0].reg == regs[0]
        invariant !none ==> |vars| > 0 && HasFirst(code, vars[0].reg)
      {
        vars := EnterReg(code, b, vars, regs, m, last);
      }
      BlockEntered(code, b, vars, regs);
    }
  }

  // ---------------------------------------------------------------- step 2: where phis belong

  ghost predicate AssignsIn(info: RegInfo, b: nat) {
    exists i :: 0 <= i < |info.assigns| && info.assigns[i].0 == b
  }

  /** A chain of blocks, each in the dominance frontier of the one before. */
  ghost predicate FrontierChain(g: Cfg, c: seq<nat>) {
    forall i :: 0 < i < |c| ==> InFrontier(g, c[i-1], c[i])
  }

  /** b is in the iterated dominance frontier of the blocks that assign the register. */
  ghost predicate InIteratedFrontier(g: Cfg, info: RegInfo, b: nat) {
    exists c :: |c| >= 2 && AssignsIn(info, c[0]) && FrontierChain(g, c) && c[|c|-1] == b
  }

  /** b is in the plain dominance frontier of those blocks. */
  ghost predicate InPlainFrontier(g: Cfg, info: RegInfo, b: nat) {
    exists x :: AssignsIn(info, x) && InFrontier(g, x, b)
  }

  /** Where the phis of the register with list index i go: the first one gets the plain frontier only. */
  ghost predicate NeedsPhi(g: Cfg, vars: seq<RegInfo>, i: nat, b: nat)
    requires i < |vars|
  {
    if i == 0 then InPlainFrontier(g, vars[i], b) else InIteratedFrontier(g, vars[i], b)
  }

  lemma {:induction false} IteratedStep(g: Cfg, info: RegInfo, x: nat, b: nat)
    requires AssignsIn(info, x) || InIteratedFrontier(g, info, x)
    requires InFrontier(g, x, b)
    ensures InIteratedFrontier(g, info, b)
  {
    var c := [x];
    if !AssignsIn(info, x) {
      c :| |c| >= 2 && AssignsIn(info, c[0]) && FrontierChain(g, c) && c[|c|-1] == x;
    }
    var d := c + [b];
    assert FrontierChain(g, d) && d[|d|-1] == b;
  }

  /** A set of blocks that contains the assigning blocks and is closed under frontiers contains every
      chain that starts at an assigning block. */
  lemma {:induction false} ChainStays(g: Cfg, info: RegInfo, w: seq<nat>, c: seq<nat>)
    requires |c| >= 1 && AssignsIn(info, c[0]) && FrontierChain(g, c)
    requires forall b :: AssignsIn(info, b) ==> b in w
    requires forall x, b: nat :: x in w && InFrontier(g, x, b) ==> b in w
    ensures c[|c|-1] in w
    decreases |c|
  {
    if |c| > 1 {
      ChainStays(g, info, w, c[..|c|-1]);
    }
  }

  /** The plain frontier of the first register is its iterated frontier exactly when it is closed. */
  lemma {:induction false} PlainIsIterated(g: Cfg, info: RegInfo)
    ensures (forall b: nat :: InPlainFrontier(g, info, b) <==> InIteratedFrontier(g, info, b)) <==>
            (forall x, b: nat :: InPlainFrontier(g, info, x) && InFrontier(g, x, b) ==> InPlainFrontier(g, info, b))
  {
    forall b: nat | InPlainFrontier(g, info, b)
      ensures InIteratedFrontier(g, info, b)
    {
      var x :| AssignsIn(info, x) && InFrontier(g, x, b);
      IteratedStep(g, info, x, b);
    }
    if forall b: nat :: InPlainFrontier(g, info, b) <==> InIteratedFrontier(g, info, b) {
      forall x, b: nat | InPlainFrontier(g, info, x) && InFrontier(g, x, b)
        ensures InPlainFrontier(g, info, b)
      {
        IteratedStep(g, info, x, b);
      }
    }
    if forall x, b: nat :: InPlainFrontier(g, info, x) && InFrontier(g, x, b) ==> InPlainFrontier(g, info, b) {
      forall b: nat | InIteratedFrontier(g, info, b)
        ensures InPlainFrontier(g, info, b)
      {
        var c :| |c| >= 2 && AssignsIn(info, c[0]) && FrontierChain(g, c) && c[|c|-1] == b;
        PlainChain(g, info, c);
      }
    }
  }

  lemma {:induction false} PlainChain(g: Cfg, info: RegInfo, c: seq<nat>)
    requires |c| >= 2 && AssignsIn(info, c[0]) && FrontierChain(g, c)
    requires forall x, b: nat :: InPlainFrontier(g, info, x) && InFrontier(g, x, b) ==> InPlainFrontier(g, info, b)
    ensures InPlainFrontier(g, info, c[|c|-1])
    decreases |c|
  {
    assert InFrontier(g, c[|c|-2], c[|c|-1]);
    if |c| > 2 {
      PlainChain(g, info, c[..|c|-1]);
    }
  }

  // ---------------------------------------------------------------- step 2: the worklist

  predicate HasPhi(phis: seq<Phi>, r: nat) {
    exists i :: 0 <= i < |phis| && phis[i].reg == r
  }

  /** Fresh phis only: at most one for each register, linked and without pairs. */
  ghost predicate FreshPhis(phis: seq<seq<Phi>>) {
    && (forall b, i, j :: 0 <= b < |phis| && 0 <= i < j < |phis[b]| ==> phis[b][i].reg != phis[b][j].reg)
    && (forall b, i :: 0 <= b < |phis| && 0 <= i < |phis[b]| ==> phis[b][i].linked && phis[b][i].pairs == [])
  }

  /** The worklist of one register: blocks that assign it or were reached over frontiers, none twice. */
  ghost predicate Worklist(g: Cfg, info: RegInfo, i: nat, w: seq<nat>) {
    && Distinct(w)
    && (forall k :: 0 <= k < |w| ==> w[k] < |g.succ|)
    && (forall b :: AssignsIn(info, b) ==> b in w)
    && (forall b :: b in w ==> AssignsIn(info, b) || (i > 0 && InIteratedFrontier(g, info, b)))
  }

  /** The phis of register r lie in the frontiers of the first m worklist blocks, and in the first
      d recorded frontier blocks of the one after. */
  ghost predicate PhisSoFar(g: Cfg, w: seq<nat>, m: nat, front: seq<nat>, d: nat, phis: seq<seq<Phi>>, r: nat)
    requires m <= |w| && d <= |front|
  {
    forall b: nat :: b < |phis| ==>
      (HasPhi(phis[b], r) <==> (exists k :: 0 <= k < m && InFrontier(g, w[k], b)) || b in front[..d])
  }

  /** The phis of the other registers stay where they were. */
  ghost predicate OthersKept(phis: seq<seq<Phi>>, was: seq<seq<Phi>>, r: nat) {
    && |phis| == |was|
    && forall b, r': nat :: 0 <= b < |phis| && r' != r ==> (HasPhi(phis[b], r') <==> HasPhi(was[b], r'))
  }

  /** lastIteration[b] says whether b is on the worklist; the first register cannot mark anything. */
  ghost predicate Stamped(stamps: seq<nat>, i: nat, w: seq<nat>) {
    && (forall b :: 0 <= b < |stamps| ==> stamps[b] <= i)
    && (i > 0 ==> forall b :: 0 <= b < |stamps| ==> (stamps[b] == i <==> b in w))
  }

  class PhiPlacer {
    var phis: seq<seq<Phi>>
    var lastIteration: array<nat>

    constructor (n: nat)
      ensures fresh(lastIteration) && lastIteration.Length == n
      ensures forall b :: 0 <= b < n ==> lastIteration[b] == 0
      ensures |phis| == n && forall b :: 0 <= b < n ==> phis[b] == []
    {
      phis := seq(n, _ => []);
      lastIteration := new nat[n](_ => 0);
    }

    /** The phi of block b for register r, created empty on first use. */
    method GetOrCreatePhi(b: nat, r: nat)
      requires b < |phis| && FreshPhis(phis)
      modifies this`phis
      ensures FreshPhis(phis) && |phis| == |old(phis)|
      ensures forall x, r': nat :: 0 <= x < |phis| ==>
        (HasPhi(phis[x], r') <==> HasPhi(old(phis)[x], r') || (x == b && r' == r))
    {
      if !HasPhi(phis[b], r) {
        ghost var was := phis[b];
        phis := phis[b := phis[b] + [Phi(r, [], true)]];
        forall r': nat
          ensures HasPhi(phis[b], r') <==> HasPhi(was, r') || r' == r
        {
          if HasPhi(was, r') {
            var i :| 0 <= i < |was| && was[i].reg == r';
            assert phis[b][i].reg == r';
          }
          assert phis[b][|was|].reg == r;
        }
      }
    }
  
    /** Handles one recorded frontier block of the worklist block w[m]. */
    method VisitFrontier(g: Cfg, info: RegInfo, i: nat, w: seq<nat>, m: nat, b: nat) returns (w': seq<nat>)
      requires b < |phis| == lastIteration.Length == |g.succ| && FreshPhis(phis)
      requires m < |w| && InFrontier(g, w[m], b)
      requires Worklist(g, info, i, w) && Stamped(lastIteration[..], i, w)
      modifies this`phis, lastIteration
      ensures |phis| == |old(phis)| && FreshPhis(phis)
      ensures forall x, r': nat :: 0 <= x < |phis| ==>
        (HasPhi(phis[x], r') <==> HasPhi(old(phis)[x], r') || (x == b && r' == info.reg))
      ensures w <= w' && Worklist(g, info, i, w') && Stamped(lastIteration[..], i, w')
      ensures i > 0 ==> b in w'
    {
      GetOrCreatePhi(b, info.reg);
      w' := w;
      assert lastIteration[b] == lastIteration[..][b];
      if lastIteration[b] < i {
        WorklistAdd(g, info, i, w, m, b);
        ghost var was := lastIteration[..];
        lastIteration[b] := i;
        assert lastIteration[..] == was[b := i];
        w' := w + [b];
      }
    }

    /** Puts the assigning blocks of a register on an empty worklist. */
    method StartWorklist(g: Cfg, info: RegInfo, i: nat) returns (w: seq<nat>)
      requires lastIteration.Length == |g.succ|
      requires forall k :: 0 <= k < |info.assigns| ==> info.assigns[k].0 < |g.succ|
      requires forall k, j :: 0 <= k < j < |info.assigns| ==> info.assigns[k].0 < info.assigns[j].0
      requires forall b :: 0 <= b < lastIteration.Length ==> lastIteration[b] < i || (i == 0 && lastIteration[b] == 0)
      modifies lastIteration
      ensures Worklist(g, info, i, w) && |w| <= |g.succ| && Stamped(lastIteration[..], i, w)
    {
      w := [];
      for a := 0 to |info.assigns|
        invariant w == seq(a, k requires 0 <= k < a => info.assigns[k].0)
        invariant Stamped(lastIteration[..], i, w)
      {
        ghost var was := lastIteration[..];
        lastIteration[info.assigns[a].0] := i;
        assert lastIteration[..] == was[info.assigns[a].0 := i];
        w := w + [info.assigns[a].0];
      }
      StartsAsWorklist(g, info, i, w);
    }

    /** Handles the whole recorded frontier of the worklist block w[m]. */
    method Spread(g: Cfg, info: RegInfo, i: nat, w: seq<nat>, m: nat, front: seq<nat>) returns (w': seq<nat>)
      requires |phis| == lastIteration.Length == |g.succ| == |g.pred| && FreshPhis(phis)
      requires m < |w| && Worklist(g, info, i, w) && Stamped(lastIteration[..], i, w)
      requires forall b: nat :: b in front <==> InFrontier(g, w[m], b)
      requires PhisSoFar(g, w, m, [], 0, phis, info.reg) && (i > 0 ==> PhisListed(phis, info.reg, w))
      modifies this`phis, lastIteration
      ensures |phis| == |old(phis)| && FreshPhis(phis) && OthersKept(phis, old(phis), info.reg)
      ensures w <= w' && Worklist(g, info, i, w') && Stamped(lastIteration[..], i, w')
      ensures PhisSoFar(g, w', m + 1, [], 0, phis, info.reg) && (i > 0 ==> PhisListed(phis, info.reg, w'))
    {
      w' := w;
      for d := 0 to |front|
        invariant |phis| == |old(phis)| && FreshPhis(phis) && OthersKept(phis, old(phis), info.reg)
        invariant w <= w' && Worklist(g, info, i, w') && Stamped(lastIteration[..], i, w')
        invariant PhisSoFar(g, w', m, front, d, phis, info.reg)
        invariant i > 0 ==> PhisListed(phis, info.reg, w')
      {
        assert front[d] in front;
        ghost var before, w0 := phis, w';
        w' := VisitFrontier(g, info, i, w', m, front[d]);
        FrontierVisited(g, w0, w', m, front, d, before, phis, info.reg);
      }
      NextWorklistBlock(g, w', m, front, phis, info.reg);
    }

    /** Places the phis of one register. */
    method PlaceRegister(g: Cfg, df: FrontierTable, info: RegInfo, i: nat)
      requires |phis| == lastIteration.Length == |g.succ| == |g.pred| && FreshPhis(phis)
      requires forall x: nat, b: nat :: Has(df.lists, x, b) <==> InFrontier(g, x, b)
      requires forall k :: 0 <= k < |info.assigns| ==> info.assigns[k].0 < |g.succ|
      requires forall k, j :: 0 <= k < j < |info.assigns| ==> info.assigns[k].0 < info.assigns[j].0
      requires forall b :: 0 <= b < |phis| ==> !HasPhi(phis[b], info.reg)
      requires forall b :: 0 <= b < lastIteration.Length ==> lastIteration[b] < i || (i == 0 && lastIteration[b] == 0)
      modifies this`phis, lastIteration, df
      ensures |phis| == |old(phis)| && FreshPhis(phis) && OthersKept(phis, old(phis), info.reg)
      ensures forall b: nat :: b < |phis| ==> (HasPhi(phis[b], info.reg) <==>
        if i == 0 then InPlainFrontier(g, info, b) else InIteratedFrontier(g, info, b))
      ensures forall b :: 0 <= b < lastIteration.Length ==> lastIteration[b] <= i
      ensures forall x: nat, b: nat :: Has(df.lists, x, b) <==> InFrontier(g, x, b)
    {
      var w := StartWorklist(g, info, i);
      var m := 0;
      while m < |w|
        invariant |phis| == |old(phis)| && FreshPhis(phis) && OthersKept(phis, old(phis), info.reg)
        invariant m <= |w| <= |g.succ| && Worklist(g, info, i, w) && Stamped(lastIteration[..], i, w)
        invariant PhisSoFar(g, w, m, [], 0, phis, info.reg) && (i > 0 ==> PhisListed(phis, info.reg, w))
        invariant forall x: nat, b: nat :: Has(df.lists, x, b) <==> InFrontier(g, x, b)
        decreases |g.succ| - m
      {
        var front := df.Get(w[m]);
        w := Spread(g, info, i, w, m, front);
        WorklistFits(g, info, i, w);
        m := m + 1;
      }
      PlacedExactly(g, info, i, w, phis);
    }

    /** Step 2: the phis of all registers, in the order of the table. */
    method Place(g: Cfg, df: FrontierTable, code: Code, vars: seq<RegInfo>)
      requires |phis| == lastIteration.Length == |g.succ| == |g.pred| == |code|
      requires forall b :: 0 <= b < |phis| ==> phis[b] == [] && lastIteration[b] == 0
      requires forall x: nat, b: nat :: Has(df.lists, x, b) <==> InFrontier(g, x, b)
      requires TableOf(code, |code|, vars)
      modifies this`phis, lastIteration, df
      ensures |phis| == |code| && FreshPhis(phis) && PlacedUpTo(g, vars, |vars|, phis)
    {
      for i := 0 to |vars|
        invariant |phis| == lastIteration.Length == |g.succ| && FreshPhis(phis)
        invariant PlacedUpTo(g, vars, i, phis)
        invariant forall b :: 0 <= b < lastIteration.Length ==> lastIteration[b] < i || (i == 0 && lastIteration[b] == 0)
        invariant forall x: nat, b: nat :: Has(df.lists, x, b) <==> InFrontier(g, x, b)
      {
        ghost var was := phis;
        NotPlacedYet(g, vars, i, phis);
        assert AssignsOf(code, |code|, vars[i].reg, vars[i].assigns);
        PlaceRegister(g, df, vars[i], i);
        PlacedNext(g, vars, i, was, phis);
      }
    }
  }

  /** Exactly the phis that the first n registers of the table need. */
  ghost predicate PlacedUpTo(g: Cfg, vars: seq<RegInfo>, n: nat, phis: seq<seq<Phi>>)
    requires n <= |vars|
  {
    forall b: nat, r: nat :: b < |phis| ==>
      (HasPhi(phis[b], r) <==> exists i :: 0 <= i < n && vars[i].reg == r && NeedsPhi(g, vars, i, b))
  }

  lemma {:induction false} NotPlacedYet(g: Cfg, vars: seq<RegInfo>, n: nat, phis: seq<seq<Phi>>)
    requires n < |vars| && DistinctRegs(vars) && PlacedUpTo(g, vars, n, phis)
    ensures forall b :: 0 <= b < |phis| ==> !HasPhi(phis[b], vars[n].reg)
  {
  }

  lemma {:induction false} PlacedNext(g: Cfg, vars: seq<RegInfo>, n: nat, was: seq<seq<Phi>>, phis: seq<seq<Phi>>)
    requires n < |vars| && DistinctRegs(vars) && PlacedUpTo(g, vars, n, was) && |phis| == |was|
    requires OthersKept(phis, was, vars[n].reg)
    requires forall b: nat :: b < |phis| ==> (HasPhi(phis[b], vars[n].reg) <==> NeedsPhi(g, vars, n, b))
    ensures PlacedUpTo(g, vars, n + 1, phis)
  {
    forall b: nat, r: nat | b < |phis|
      ensures HasPhi(phis[b], r) <==> exists i :: 0 <= i < n + 1 && vars[i].reg == r && NeedsPhi(g, vars, i, b)
    {
      if r != vars[n].reg {
        assert HasPhi(phis[b], r) <==> HasPhi(was[b], r);
      }
    }
  }

  /** The registers with a phi in each block. */
  function PhiSets(phis: seq<seq<Phi>>): seq<set<nat>> {
    seq(|phis|, b requires 0 <= b < |phis| => set i | 0 <= i < |phis[b]| :: phis[b][i].reg)
  }

  /** The phis belong where conversion puts them: for the register at position 0 of the table in the plain
      frontier of its assigning blocks, for every other one in the iterated frontier. */
  ghost predicate PhisPlaced(p: Problem, vars: seq<RegInfo>) {
    && TableOf(p.code, |p.code|, vars) && (|vars| > 0 ==> HasFirst(p.code, vars[0].reg)) && |p.phi| == |p.code|
    && forall b: nat, r: nat :: b < |p.phi| ==>
      (r in p.phi[b] <==> exists i :: 0 <= i < |vars| && vars[i].reg == r && NeedsPhi(p.g, vars, i, b))
  }

  lemma {:induction false} PlacedSets(p: Problem, vars: seq<RegInfo>, phis: seq<seq<Phi>>)
    requires TableOf(p.code, |p.code|, vars) && |phis| == |p.code| && p.phi == PhiSets(phis)
    requires PlacedUpTo(p.g, vars, |vars|, phis) && (|vars| > 0 ==> HasFirst(p.code, vars[0].reg))
    ensures PhisPlaced(p, vars)
  {
    forall b: nat, r: nat | b < |p.phi|
      ensures r in p.phi[b] <==> HasPhi(phis[b], r)
    {
    }
  }

  /** The plain frontier of the register at position 0 is closed, as far as lives says. */
  ghost predicate PlainClosed(g: Cfg, vars: seq<RegInfo>, lives: set<nat>) {
    vars == [] || forall x: nat, b: nat ::
      InPlainFrontier(g, vars[0], x) && InFrontier(g, x, b) && b in lives ==> InPlainFrontier(g, vars[0], b)
  }

  /** The placed phis are closed under frontiers exactly when those of the first register are. */
  lemma {:induction false} PlacementIsClosed(p: Problem, vars: seq<RegInfo>)
    requires Ready(p) && PhisPlaced(p, vars)
    ensures Closed(p) <==> PlainClosed(p.g, vars, Below(|p.code|))
  {
    if PlainClosed(p.g, vars, Below(|p.code|)) {
      forall x: nat, s: nat, r: nat | x < |p.code| && s < |p.phi| && (AssignsReg(p.code, x, r) || r in p.phi[x])
          && InFrontier(p.g, x, s)
        ensures r in p.phi[s]
      {
        FrontierHasPhi(p, vars, Below(|p.code|), x, s, r);
      }
    }
    if Closed(p) && vars != [] {
      forall x: nat, b: nat | InPlainFrontier(p.g, vars[0], x) && InFrontier(p.g, x, b)
        ensures InPlainFrontier(p.g, vars[0], b)
      {
        PlainHasPhi(p, vars, x);
        PlainHasPhi(p, vars, b);
      }
    }
  }

  /** And closed for live registers exactly when those of the first register are where it is live. */
  lemma {:induction false} PlacementIsLiveClosed(p: Problem, vars: seq<RegInfo>, observed: set<nat>)
    requires Ready(p) && PhisPlaced(p, vars)
    ensures LiveClosed(p, observed) <==> PlainClosed(p.g, vars, LiveBlocks(p.code, observed, vars))
  {
    var lives := LiveBlocks(p.code, observed, vars);
    if PlainClosed(p.g, vars, lives) {
      forall x: nat, s: nat, r: nat | x < |p.code| && s < |p.phi| && (AssignsReg(p.code, x, r) || r in p.phi[x])
          && InFrontier(p.g, x, s) && Live(p.code, observed, s, 0, r)
        ensures r in p.phi[s]
      {
        FrontierHasPhi(p, vars, lives, x, s, r);
      }
    }
    if LiveClosed(p, observed) && vars != [] {
      forall x: nat, b: nat | InPlainFrontier(p.g, vars[0], x) && InFrontier(p.g, x, b) && b in lives
        ensures InPlainFrontier(p.g, vars[0], b)
      {
        PlainHasPhi(p, vars, x);
        PlainHasPhi(p, vars, b);
      }
    }
  }

  /** The blocks at whose start the register at position 0 is live. */
  ghost function LiveBlocks(code: Code, observed: set<nat>, vars: seq<RegInfo>): set<nat> {
    if vars == [] then {} else set b | b in Below(|code|) && Live(code, observed, b, 0, vars[0].reg)
  }

  lemma {:induction false} PlainHasPhi(p: Problem, vars: seq<RegInfo>, b: nat)
    requires PhisPlaced(p, vars) && vars != [] && b < |p.phi|
    ensures vars[0].reg in p.phi[b] <==> InPlainFrontier(p.g, vars[0], b)
  {
    assert NeedsPhi(p.g, vars, 0, b) <==> InPlainFrontier(p.g, vars[0], b);
    if vars[0].reg in p.phi[b] {
      var i :| 0 <= i < |vars| && vars[i].reg == vars[0].reg && NeedsPhi(p.g, vars, i, b);
      assert i == 0;
    }
  }

  lemma {:induction false} FrontierHasPhi(p: Problem, vars: seq<RegInfo>, lives: set<nat>, x: nat, s: nat, r: nat)
    requires Ready(p) && PhisPlaced(p, vars) && PlainClosed(p.g, vars, lives)
    requires x < |p.code| && s < |p.phi| && InFrontier(p.g, x, s)
    requires vars != [] && vars[0].reg == r ==> s in lives
    requires AssignsReg(p.code, x, r) || r in p.phi[x]
    ensures r in p.phi[s]
  {
    var i: nat;
    if AssignsReg(p.code, x, r) {
      AssignedIsMentioned(p.code[x], r);
      assert HasReg(vars, r);
      i :| 0 <= i < |vars| && vars[i].reg == r;
      assert AssignsOf(p.code, |p.code|, r, vars[i].assigns);
      assert AssignsIn(vars[i], x);
    } else {
      i :| 0 <= i < |vars| && vars[i].reg == r && NeedsPhi(p.g, vars, i, x);
    }
    if i > 0 {
      IteratedStep(p.g, vars[i], x, s);
    }
    assert NeedsPhi(p.g, vars, i, s);
  }

  /** Every block with a phi for r is on the worklist. */
  ghost predicate PhisListed(phis: seq<seq<Phi>>, r: nat, w: seq<nat>) {
    forall b: nat :: b < |phis| && HasPhi(phis[b], r) ==> b in w
  }

  lemma {:induction false} WorklistAdd(g: Cfg, info: RegInfo, i: nat, w: seq<nat>, m: nat, b: nat)
    requires Worklist(g, info, i, w) && i > 0 && m < |w| && InFrontier(g, w[m], b) && b !in w && b < |g.succ|
    ensures Worklist(g, info, i, w + [b])
  {
    assert w[m] in w;
    IteratedStep(g, info, w[m], b);
  }

  lemma {:induction false} StartsAsWorklist(g: Cfg, info: RegInfo, i: nat, w: seq<nat>)
    requires |w| == |info.assigns| && forall k :: 0 <= k < |w| ==> w[k] == info.assigns[k].0 < |g.succ|
    requires forall k, j :: 0 <= k < j < |info.assigns| ==> info.assigns[k].0 < info.assigns[j].0
    ensures Worklist(g, info, i, w) && |w| <= |g.succ|
  {
    forall b | AssignsIn(info, b)
      ensures b in w
    {
      var k :| 0 <= k < |info.assigns| && info.assigns[k].0 == b;
      assert w[k] == b;
    }
    WorklistFits(g, info, i, w);
  }

  /** The growing worklist is bounded: no block enters it twice. */
  lemma {:induction false} WorklistFits(g: Cfg, info: RegInfo, i: nat, w: seq<nat>)
    requires Worklist(g, info, i, w)
    ensures |w| <= |g.succ|
  {
    DistinctSize(w);
    BelowSize(|g.succ|);
    SubsetSize(Elems(w), Below(|g.succ|));
  }

  lemma {:induction false} FrontierVisited(g: Cfg, w: seq<nat>, w': seq<nat>, m: nat, front: seq<nat>, d: nat,
                                           was: seq<seq<Phi>>, phis: seq<seq<Phi>>, r: nat)
    requires m < |w| && d < |front| && w <= w' && |phis| == |was|
    requires PhisSoFar(g, w, m, front, d, was, r)
    requires forall x: nat :: x < |phis| ==> (HasPhi(phis[x], r) <==> HasPhi(was[x], r) || x == front[d])
    ensures PhisSoFar(g, w', m, front, d + 1, phis, r)
  {
    assert front[..d+1] == front[..d] + [front[d]];
    assert forall k :: 0 <= k < m ==> w'[k] == w[k];
  }

  lemma {:induction false} NextWorklistBlock(g: Cfg, w: seq<nat>, m: nat, front: seq<nat>, phis: seq<seq<Phi>>, r: nat)
    requires m < |w| && PhisSoFar(g, w, m, front, |front|, phis, r)
    requires forall b: nat :: b in front <==> InFrontier(g, w[m], b)
    ensures PhisSoFar(g, w, m + 1, [], 0, phis, r)
  {
    assert front[..|front|] == front;
  }

  /** When the worklist is exhausted the phis are where they belong, and nowhere else. */
  lemma {:induction false} PlacedExactly(g: Cfg, info: RegInfo, i: nat, w: seq<nat>, phis: seq<seq<Phi>>)
    requires |phis| == |g.succ| == |g.pred| && Worklist(g, info, i, w)
    requires PhisSoFar(g, w, |w|, [], 0, phis, info.reg) && (i > 0 ==> PhisListed(phis, info.reg, w))
    ensures forall b: nat :: b < |phis| ==> (HasPhi(phis[b], info.reg) <==>
      if i == 0 then InPlainFrontier(g, info, b) else InIteratedFrontier(g, info, b))
  {
    forall b: nat | b < |phis|
      ensures HasPhi(phis[b], info.reg) <==>
              if i == 0 then InPlainFrontier(g, info, b) else InIteratedFrontier(g, info, b)
    {
      if HasPhi(phis[b], info.reg) {
        var k :| 0 <= k < |w| && InFrontier(g, w[k], b);
        assert w[k] in w;
        if i > 0 {
          IteratedStep(g, info, w[k], b);
        }
      }
      if i == 0 && InPlainFrontier(g, info, b) {
        var x :| AssignsIn(info, x) && InFrontier(g, x, b);
        var k :| 0 <= k < |w| && w[k] == x;
      }
      if i > 0 && InIteratedFrontier(g, info, b) {
        var c :| |c| >= 2 && AssignsIn(info, c[0]) && FrontierChain(g, c) && c[|c|-1] == b;
        var c' := c[..|c|-1];
        forall x, y: nat | x in w && InFrontier(g, x, y)
          ensures y in w
        {
          var k :| 0 <= k < |w| && w[k] == x;
        }
        ChainStays(g, info, w, c');
        var k :| 0 <= k < |w| && w[k] == c'[|c'|-1];
        assert InFrontier(g, c[|c|-2], c[|c|-1]);
      }
    }
  }
}
