/** The converted program computes what the original computes: a simulation between the two, block by
    block, for every interpretation of the operators and every initial state. */
module SsaMeaning {
  import opened Graphs
  import opened Dominators
  import opened IR
  import opened Liveness
  import opened SsaSpec

  // ---------------------------------------------------------------- the converted program

  /** Instruction k of block b with its operands resolved. */
  ghost function Rewritten(p: Problem, b: nat, k: nat): Inst
    requires Shape(p) && b < |p.code| && k < |p.code[b]|
  {
    match p.code[b][k]
    case Assign(r, v) => Assign(r, Resolve(p, b, k, v))
    case Binary(op, x, y) => Binary(op, Resolve(p, b, k, x), Resolve(p, b, k, y))
    case JumpCond(s, t, v) => JumpCond(s, t, Resolve(p, b, k, v))
    case i => i
  }

  /** The pairs of the phi for r in block b: one for each predecessor at whose end r has a value. */
  ghost predicate PairsOf(p: Problem, b: nat, r: nat, pairs: seq<(nat, Value)>)
    requires Shape(p) && b < |p.code|
  {
    && (forall q: nat, w: Value :: (q, w) in pairs <==>
          q < |p.code| && b in Successors(p.code[q]) && Reach(p, q, |p.code[q]|, r) == Some(w))
    && (forall i, j :: 0 <= i < j < |pairs| ==> pairs[i].0 != pairs[j].0)
  }

  ghost predicate PhisOf(p: Problem, b: nat, phis: seq<Phi>)
    requires Shape(p) && b < |p.code|
  {
    && (forall r: nat :: r in p.phi[b] <==> exists i :: 0 <= i < |phis| && phis[i].reg == r)
    && (forall i, j :: 0 <= i < j < |phis| ==> phis[i].reg != phis[j].reg)
    && (forall i :: 0 <= i < |phis| ==> PairsOf(p, b, phis[i].reg, phis[i].pairs))
  }

  /** The instruction objects of block b after renaming. */
  ghost predicate SlotsOf(p: Problem, b: nat, slots: seq<Slot>)
    requires Shape(p) && b < |p.code|
  {
    && |slots| == |p.code[b]|
    && forall k :: 0 <= k < |slots| ==> slots[k] == Slot(!p.code[b][k].IsLoadAssign(), Rewritten(p, b, k))
  }

  /** The program after renaming: loads and assigns are unlinked, every operand is resolved. */
  ghost predicate IsRenamed(p: Problem, c: SsaCode)
    requires Shape(p)
  {
    && |c.slots| == |p.code| == |c.phis|
    && (forall b :: 0 <= b < |p.code| ==> SlotsOf(p, b, c.slots[b]))
    && (forall b :: 0 <= b < |p.code| ==> PhisOf(p, b, c.phis[b]))
    && (forall b, i :: 0 <= b < |c.phis| && 0 <= i < |c.phis[b]| ==> c.phis[b][i].linked)
  }

  // ---------------------------------------------------------------- the simulation relation

  ghost predicate IsBinary(code: Code, v: Value) {
    v.Result? && v.block < |code| && v.pos < |code[v.block]| && code[v.block][v.pos].Binary?
  }

  ghost predicate IsLoad(code: Code, v: Value) {
    v.Result? && v.block < |code| && v.pos < |code[v.block]| && code[v.block][v.pos].Load?
  }

  /** Both programs have computed the same at every binary instruction. */
  ghost predicate SameResults(code: Code, vals: map<Value, int>, vals': map<Value, int>) {
    forall v :: IsBinary(code, v) ==> (v in vals <==> v in vals') && (v in vals ==> vals[v] == vals'[v])
  }

  /** The live ones among the registers written so far have the values of their nearest definitions. */
  ghost predicate RegsMatch(p: Problem, observed: set<nat>, q: seq<nat>, b: nat, k: nat, regs: map<nat, int>, vals': map<Value, int>)
    requires Shape(p) && b < |p.code| && k <= |p.code[b]| && |q| > 0
  {
    forall r: nat :: AssignedOn(p.code, q, k, r) && Live(p.code, observed, b, k, r) ==> RegMatches(p, b, k, r, regs, vals')
  }

  ghost predicate RegMatches(p: Problem, b: nat, k: nat, r: nat, regs: map<nat, int>, vals': map<Value, int>)
    requires Shape(p) && b < |p.code| && k <= |p.code[b]|
  {
    r in regs && Reach(p, b, k, r).Some? && regs[r] == Eval(Reach(p, b, k, r).value, vals')
  }

  /** Every load available here was replaced by a value that still equals what it loaded. */
  ghost predicate LoadsMatch(p: Problem, b: nat, k: nat, vals: map<Value, int>, vals': map<Value, int>)
    requires Shape(p)
  {
    forall v :: IsLoad(p.code, v) && DefinedBefore(p.code, p.g, v, b, k) ==> LoadMatches(p, v, vals, vals')
  }

  ghost predicate LoadMatches(p: Problem, v: Value, vals: map<Value, int>, vals': map<Value, int>)
    requires Shape(p) && IsLoad(p.code, v)
  {
    var w := Reach(p, v.block, v.pos, p.code[v.block][v.pos].reg);
    v in vals && w.Some? && vals[v] == Eval(w.value, vals')
  }

  ghost predicate Convertible(p: Problem, observed: set<nat>) {
    Ready(p) && LiveClosed(p, observed) && LoadsCovered(p.code, p.g)
  }

  ghost predicate Sim(p: Problem, observed: set<nat>, q: seq<nat>, b: nat, k: nat, st: State, vals': map<Value, int>) {
    && Convertible(p, observed)
    && b < |p.code| && k <= |p.code[b]| && PathTo(p.g, q, b)
    && SameResults(p.code, st.vals, vals')
    && RegsMatch(p, observed, q, b, k, st.regs, vals')
    && LoadsMatch(p, b, k, st.vals, vals')
  }

  lemma {:induction false} OperandsAgree(p: Problem, observed: set<nat>, q: seq<nat>, b: nat, k: nat, st: State, vals': map<Value, int>, v: Value)
    requires Sim(p, observed, q, b, k, st, vals') && k < |p.code[b]| && p.code[b][k].Uses(v)
    ensures Eval(v, st.vals) == Eval(Resolve(p, b, k, v), vals')
  {
    OperandBefore(p, b, k, v);
    if IsLoad(p.code, v) {
      assert LoadMatches(p, v, st.vals, vals');
    }
  }

  // ---------------------------------------------------------------- one instruction

  /** A new value at the current point leaves every earlier value alone. */
  lemma {:induction false} EvalUnaffected(v: Value, b: nat, k: nat, vals: map<Value, int>, n: int)
    requires Before(v, b, k)
    ensures Eval(v, vals[Result(b, k) := n]) == Eval(v, vals)
  {
  }

  /** An instruction that does not assign r changes neither whether r is assigned nor its nearest definition. */
  lemma {:induction false} NotAssigning(p: Problem, q: seq<nat>, b: nat, k: nat, r: nat)
    requires Shape(p) && b < |p.code| && k < |p.code[b]| && |q| > 0 && q[|q|-1] == b
    requires !(p.code[b][k].Assign? && p.code[b][k].reg == r)
    ensures AssignedOn(p.code, q, k + 1, r) ==> AssignedOn(p.code, q, k, r)
    ensures Reach(p, b, k + 1, r) == Reach(p, b, k, r)
  {
  }

  lemma {:induction false} SimLoad(p: Problem, observed: set<nat>, q: seq<nat>, b: nat, k: nat, st: State, vals': map<Value, int>, ops: Ops)
    requires Sim(p, observed, q, b, k, st, vals') && k < |p.code[b]| && p.code[b][k].Load?
    ensures Sim(p, observed, q, b, k + 1, ExecInst(ops, p.code[b][k], b, k, st), vals')
  {
    var k' := k + 1;
    var st' := ExecInst(ops, p.code[b][k], b, k, st);
    var r := p.code[b][k].reg;
    assert AssignedOn(p.code, q, k, r);
    LoadHasValue(p, observed, b, k);
    LiveAtLoad(p.code, observed, b, k);
    forall r': nat | AssignedOn(p.code, q, k', r') && Live(p.code, observed, b, k', r')
      ensures RegMatches(p, b, k', r', st'.regs, vals')
    {
      NotAssigning(p, q, b, k, r');
      LiveBefore(p.code, observed, b, k, r');
    }
    forall v | IsLoad(p.code, v) && DefinedBefore(p.code, p.g, v, b, k')
      ensures LoadMatches(p, v, st'.vals, vals')
    {
      if v != Result(b, k) {
        assert DefinedBefore(p.code, p.g, v, b, k);
        assert LoadMatches(p, v, st.vals, vals');
      } else {
        assert Reach(p, b, k, r).Some? && st'.vals[v] == Eval(Reach(p, b, k, r).value, vals');
      }
    }
    assert RegsMatch(p, observed, q, b, k', st'.regs, vals');
    assert LoadsMatch(p, b, k', st'.vals, vals');
    assert SameResults(p.code, st'.vals, vals');
  }

  lemma {:induction false} SimAssign(p: Problem, observed: set<nat>, q: seq<nat>, b: nat, k: nat, st: State, vals': map<Value, int>, ops: Ops)
    requires Sim(p, observed, q, b, k, st, vals') && k < |p.code[b]| && p.code[b][k].Assign?
    ensures Sim(p, observed, q, b, k + 1, ExecInst(ops, p.code[b][k], b, k, st), vals')
  {
    var k' := k + 1;
    var st' := ExecInst(ops, p.code[b][k], b, k, st);
    OperandsAgree(p, observed, q, b, k, st, vals', p.code[b][k].val);
    forall r: nat | AssignedOn(p.code, q, k', r) && Live(p.code, observed, b, k', r)
      ensures RegMatches(p, b, k', r, st'.regs, vals')
    {
      if r != p.code[b][k].reg {
        NotAssigning(p, q, b, k, r);
      LiveBefore(p.code, observed, b, k, r);
      } else {
        assert Reach(p, b, k', r) == Some(Resolve(p, b, k, p.code[b][k].val));
      }
    }
    assert RegsMatch(p, observed, q, b, k', st'.regs, vals');
    forall v | IsLoad(p.code, v) && DefinedBefore(p.code, p.g, v, b, k')
      ensures LoadMatches(p, v, st'.vals, vals')
    {
      assert DefinedBefore(p.code, p.g, v, b, k);
      assert LoadMatches(p, v, st.vals, vals');
    }
    assert LoadsMatch(p, b, k', st'.vals, vals');
    assert SameResults(p.code, st'.vals, vals');
  }

  lemma {:induction false} SimBinary(p: Problem, observed: set<nat>, q: seq<nat>, b: nat, k: nat, st: State, vals': map<Value, int>, ops: Ops)
    requires Sim(p, observed, q, b, k, st, vals') && k < |p.code[b]| && p.code[b][k].Binary?
    ensures Sim(p, observed, q, b, k + 1, ExecInst(ops, p.code[b][k], b, k, st),
                ExecSlot(ops, Slot(true, Rewritten(p, b, k)), b, k, vals'))
  {
    var inst := p.code[b][k];
    var st' := ExecInst(ops, inst, b, k, st);
    OperandsAgree(p, observed, q, b, k, st, vals', inst.left);
    OperandsAgree(p, observed, q, b, k, st, vals', inst.right);
    var n := ops(inst.op, Eval(inst.left, st.vals), Eval(inst.right, st.vals));
    var vals'' := ExecSlot(ops, Slot(true, Rewritten(p, b, k)), b, k, vals');
    assert vals'' == vals'[Result(b, k) := n];
    var k' := k + 1;
    forall r: nat | AssignedOn(p.code, q, k', r) && Live(p.code, observed, b, k', r)
      ensures RegMatches(p, b, k', r, st'.regs, vals'')
    {
      NotAssigning(p, q, b, k, r);
      LiveBefore(p.code, observed, b, k, r);
      ReachBefore(p, b, k, r);
      EvalUnaffected(Reach(p, b, k, r).value, b, k, vals', n);
    }
    forall v | IsLoad(p.code, v) && DefinedBefore(p.code, p.g, v, b, k + 1)
      ensures LoadMatches(p, v, st'.vals, vals'')
    {
      assert DefinedBefore(p.code, p.g, v, b, k);
      assert LoadMatches(p, v, st.vals, vals');
      var w := Reach(p, v.block, v.pos, p.code[v.block][v.pos].reg).value;
      ReachBefore(p, v.block, v.pos, p.code[v.block][v.pos].reg);
      AvailableBefore(p, v, b, k);
      EvalUnaffected(w, b, k, vals', n);
    }
  }

  /** An available load was created at a point that comes before, in the order of the numbers. */
  lemma {:induction false} AvailableBefore(p: Problem, v: Value, b: nat, k: nat)
    requires Ready(p) && b < |p.code| && IsLoad(p.code, v) && DefinedBefore(p.code, p.g, v, b, k)
    ensures Before(v, b, k)
  {
    OperandBefore(p, b, k, v);
  }

  lemma {:induction false} SimOther(p: Problem, observed: set<nat>, q: seq<nat>, b: nat, k: nat, st: State, vals': map<Value, int>)
    requires Sim(p, observed, q, b, k, st, vals') && k < |p.code[b]| && p.code[b][k].IsTerminator()
    ensures Sim(p, observed, q, b, k + 1, st, vals')
  {
    hide Live, DefinedBefore;
    var k' := k + 1;
    forall r: nat | AssignedOn(p.code, q, k', r) && Live(p.code, observed, b, k', r)
      ensures RegMatches(p, b, k', r, st.regs, vals')
    {
      NotAssigning(p, q, b, k, r);
      LiveBefore(p.code, observed, b, k, r);
    }
    assert RegsMatch(p, observed, q, b, k + 1, st.regs, vals');
    OtherAvailable(p, b, k, st, vals');
  }

  lemma {:induction false} OtherAvailable(p: Problem, b: nat, k: nat, st: State, vals': map<Value, int>)
    requires Shape(p) && b < |p.code| && k < |p.code[b]| && p.code[b][k].IsTerminator()
    requires LoadsMatch(p, b, k, st.vals, vals')
    ensures LoadsMatch(p, b, k + 1, st.vals, vals')
  {
    forall v | IsLoad(p.code, v) && DefinedBefore(p.code, p.g, v, b, k + 1)
      ensures LoadMatches(p, v, st.vals, vals')
    {
      assert DefinedBefore(p.code, p.g, v, b, k);
    }
  }

  lemma {:induction false} SimInst(p: Problem, observed: set<nat>, q: seq<nat>, b: nat, k: nat, st: State, vals': map<Value, int>, ops: Ops, s: Slot)
    requires Sim(p, observed, q, b, k, st, vals') && k < |p.code[b]|
    requires s == Slot(!p.code[b][k].IsLoadAssign(), Rewritten(p, b, k))
    ensures Sim(p, observed, q, b, k + 1, ExecInst(ops, p.code[b][k], b, k, st), ExecSlot(ops, s, b, k, vals'))
  {
    match p.code[b][k]
    case Load(_) => SimLoad(p, observed, q, b, k, st, vals', ops);
    case Assign(_, _) => SimAssign(p, observed, q, b, k, st, vals', ops);
    case Binary(_, _, _) => SimBinary(p, observed, q, b, k, st, vals', ops);
    case _ => SimOther(p, observed, q, b, k, st, vals');
  }

  // ---------------------------------------------------------------- one block

  lemma {:induction false} SimBlock(p: Problem, observed: set<nat>, slots: seq<Slot>, q: seq<nat>, b: nat, k: nat, st: State,
                                    vals': map<Value, int>, ops: Ops)
    requires Sim(p, observed, q, b, 0, st, vals') && SlotsOf(p, b, slots) && k <= |slots|
    ensures Sim(p, observed, q, b, k, ExecFirst(ops, p.code[b], b, k, st), ExecSlots(ops, slots, b, k, vals'))
  {
    hide SameResults, RegsMatch, LoadsMatch, Convertible, Rewritten, ExecInst, ExecSlot, PathTo;
    if k > 0 {
      SimBlock(p, observed, slots, q, b, k - 1, st, vals', ops);
      SimInst(p, observed, q, b, k - 1, ExecFirst(ops, p.code[b], b, k - 1, st), ExecSlots(ops, slots, b, k - 1, vals'),
              ops, slots[k-1]);
    }
  }

  /** Without a terminator among the linked instructions control goes nowhere. */
  lemma {:induction false} NoTerminatorNoNext(slots: seq<Slot>, vals: map<Value, int>)
    requires forall i :: 0 <= i < |slots| && slots[i].linked ==> !slots[i].inst.IsTerminator()
    ensures SsaNext(slots, vals) == None
  {
    if slots != [] {
      NoTerminatorNoNext(slots[..|slots|-1], vals);
    }
  }

  lemma {:induction false} NextAtTerminator(p: Problem, observed: set<nat>, slots: seq<Slot>, q: seq<nat>, b: nat, st: State, vals': map<Value, int>, ops: Ops)
    requires Sim(p, observed, q, b, 0, st, vals') && SlotsOf(p, b, slots)
    requires |slots| > 0 && p.code[b][|slots|-1].IsTerminator()
    ensures Next(p.code[b], ExecFirst(ops, p.code[b], b, |slots|, st).vals)
         == SsaNext(slots, ExecSlots(ops, slots, b, |slots|, vals'))
  {
    var k := |slots| - 1;
    SimBlock(p, observed, slots, q, b, k, st, vals', ops);
    var st1, vals1 := ExecFirst(ops, p.code[b], b, k, st), ExecSlots(ops, slots, b, k, vals');
    assert slots[k] == Slot(true, Rewritten(p, b, k));
    if p.code[b][k].JumpCond? {
      OperandsAgree(p, observed, q, b, k, st1, vals1, p.code[b][k].cond);
    }
  }

  lemma {:induction false} NextWithoutTerminator(p: Problem, slots: seq<Slot>, b: nat, vals: map<Value, int>)
    requires Ready(p) && b < |p.code| && SlotsOf(p, b, slots)
    requires |slots| > 0 ==> !p.code[b][|slots|-1].IsTerminator()
    ensures SsaNext(slots, vals) == None
  {
    forall i | 0 <= i < |slots|
      ensures !slots[i].inst.IsTerminator()
    {
      assert !p.code[b][i].IsTerminator();
    }
    NoTerminatorNoNext(slots, vals);
  }

  lemma {:induction false} NextAgrees(p: Problem, observed: set<nat>, slots: seq<Slot>, q: seq<nat>, b: nat, st: State, vals': map<Value, int>, ops: Ops)
    requires Sim(p, observed, q, b, 0, st, vals') && SlotsOf(p, b, slots)
    ensures Next(p.code[b], ExecFirst(ops, p.code[b], b, |p.code[b]|, st).vals)
         == SsaNext(slots, ExecSlots(ops, slots, b, |slots|, vals'))
  {
    if |slots| > 0 && p.code[b][|slots|-1].IsTerminator() {
      NextAtTerminator(p, observed, slots, q, b, st, vals', ops);
    } else {
      NextWithoutTerminator(p, slots, b, ExecSlots(ops, slots, b, |slots|, vals'));
    }
  }

  // ---------------------------------------------------------------- one edge

  lemma {:induction false} IncomingFound(pairs: seq<(nat, Value)>, q: nat, w: Value)
    requires (q, w) in pairs && forall i, j :: 0 <= i < j < |pairs| ==> pairs[i].0 != pairs[j].0
    ensures Incoming(pairs, q) == Some(w)
  {
    if pairs[0].0 != q {
      assert (q, w) in pairs[1..];
      IncomingFound(pairs[1..], q, w);
    } else {
      var j :| 0 <= j < |pairs| && pairs[j] == (q, w);
      assert j == 0;
    }
  }

  /** Entering a block changes nothing but its own phis. */
  lemma {:induction false} EnterPhisElsewhere(phis: seq<Phi>, s: nat, b: nat, vals: map<Value, int>, v: Value)
    requires forall i :: 0 <= i < |phis| ==> v != PhiValue(s, phis[i].reg)
    ensures v in EnterPhis(phis, s, b, vals) <==> v in vals
    ensures v in vals ==> EnterPhis(phis, s, b, vals)[v] == vals[v]
  {
    if phis != [] {
      EnterPhisElsewhere(phis[1..], s, b, vals, v);
      assert v != PhiValue(s, phis[0].reg);
    }
  }

  /** Each linked phi takes the value it has for the block control comes from. */
  lemma {:induction false} EnterPhisAt(phis: seq<Phi>, s: nat, b: nat, vals: map<Value, int>, i: nat, w: Value)
    requires i < |phis| && phis[i].linked && Incoming(phis[i].pairs, b) == Some(w)
    requires forall i, j :: 0 <= i < j < |phis| ==> phis[i].reg != phis[j].reg
    ensures Eval(PhiValue(s, phis[i].reg), EnterPhis(phis, s, b, vals)) == Eval(w, vals)
  {
    if i > 0 {
      EnterPhisAt(phis[1..], s, b, vals, i - 1, w);
      assert phis[0].reg != phis[i].reg;
    }
  }

  lemma {:induction false} EvalElsewhere(phis: seq<Phi>, s: nat, b: nat, vals: map<Value, int>, v: Value)
    requires v.PhiValue? ==> v.block != s
    ensures Eval(v, EnterPhis(phis, s, b, vals)) == Eval(v, vals)
  {
    EnterPhisElsewhere(phis, s, b, vals, v);
  }

  lemma {:induction false} SimEdge(p: Problem, observed: set<nat>, c: SsaCode, q: seq<nat>, b: nat, s: nat, st: State, vals': map<Value, int>)
    requires Ready(p) && b < |p.code| && IsRenamed(p, c) && s in Successors(p.code[b])
    requires Sim(p, observed, q, b, |p.code[b]|, st, vals')
    ensures s < |p.code| && Sim(p, observed, q + [s], s, 0, st, EnterPhis(c.phis[s], s, b, vals'))
  {
    var vals'' := EnterPhis(c.phis[s], s, b, vals');
    assert s in p.g.succ[b];
    PathSnoc(p.g, q, b, s);
    forall r: nat | AssignedOn(p.code, q + [s], 0, r) && Live(p.code, observed, s, 0, r)
      ensures RegMatches(p, s, 0, r, st.regs, vals'')
    {
      AssignedAcross(p, q, b, s, r);
      LiveAcross(p.code, observed, b, s, r);
      EdgeKeepsReach(p, observed, b, s, r);
      var w := Reach(p, b, |p.code[b]|, r).value;
      assert RegMatches(p, b, |p.code[b]|, r, st.regs, vals');
      if r in p.phi[s] {
        PhiTakesValue(p, c, b, s, r, w, vals');
      } else {
        ReachFromAbove(p, observed, b, s, r);
        EvalElsewhere(c.phis[s], s, b, vals', w);
      }
    }
    forall v | IsLoad(p.code, v) && DefinedBefore(p.code, p.g, v, s, 0)
      ensures LoadMatches(p, v, st.vals, vals'')
    {
      DominatesPred(p.g, v.block, s, b);
      assert DefinedBefore(p.code, p.g, v, b, |p.code[b]|);
      assert LoadMatches(p, v, st.vals, vals');
      ReachBefore(p, v.block, v.pos, p.code[v.block][v.pos].reg);
      AvailableBefore(p, v, s, 0);
      EvalElsewhere(c.phis[s], s, b, vals', Reach(p, v.block, v.pos, p.code[v.block][v.pos].reg).value);
    }
    forall v | IsBinary(p.code, v)
      ensures (v in st.vals <==> v in vals'') && (v in st.vals ==> st.vals[v] == vals''[v])
    {
      EnterPhisElsewhere(c.phis[s], s, b, vals', v);
    }
  }

  lemma {:induction false} AssignedAcross(p: Problem, q: seq<nat>, b: nat, s: nat, r: nat)
    requires PathTo(p.g, q, b) && AssignedOn(p.code, q + [s], 0, r) && b < |p.code|
    ensures AssignedOn(p.code, q, |p.code[b]|, r)
  {
    var i :| 0 <= i < |q + [s]| - 1 && AssignsReg(p.code, (q + [s])[i], r);
    assert (q + [s])[i] == q[i];
    if i == |q| - 1 {
      assert AssignedBy(p.code[b], |p.code[b]|, r);
    }
  }

  lemma {:induction false} PhiTakesValue(p: Problem, c: SsaCode, b: nat, s: nat, r: nat, w: Value, vals: map<Value, int>)
    requires Ready(p) && IsRenamed(p, c) && b < |p.code| && s < |p.code| && s in Successors(p.code[b])
    requires r in p.phi[s] && Reach(p, b, |p.code[b]|, r) == Some(w)
    ensures Eval(PhiValue(s, r), EnterPhis(c.phis[s], s, b, vals)) == Eval(w, vals)
  {
    var phis := c.phis[s];
    assert PhisOf(p, s, phis);
    var i :| 0 <= i < |phis| && phis[i].reg == r;
    assert PairsOf(p, s, r, phis[i].pairs);
    assert (b, w) in phis[i].pairs;
    IncomingFound(phis[i].pairs, b, w);
    EnterPhisAt(phis, s, b, vals, i, w);
  }

  /** A value that reaches s from its immediate dominator was not created in s. */
  lemma {:induction false} ReachFromAbove(p: Problem, observed: set<nat>, b: nat, s: nat, r: nat)
    requires Ready(p) && LiveClosed(p, observed) && Live(p.code, observed, s, 0, r) && b < |p.code| && s < |p.code| && s in Successors(p.code[b])
    requires r !in p.phi[s] && Reach(p, b, |p.code[b]|, r).Some?
    ensures Reach(p, b, |p.code[b]|, r).value.PhiValue? ==> Reach(p, b, |p.code[b]|, r).value.block > s
  {
    EdgeKeepsReach(p, observed, b, s, r);
    assert Agrees(p.g, s);
    ReachBefore(p, p.doms[s], |p.code[p.doms[s]]|, r);
  }

  // ---------------------------------------------------------------- whole runs

  /** Both programs stand in front of the same block, or both have stopped, and have computed the same. */
  ghost predicate SameConfig(code: Code, a: Config, c: SsaConfig) {
    match a
    case At(b, st) => c.SsaAt? && c.block == b && SameResults(code, st.vals, c.vals)
    case Stopped(st) => c.SsaStopped? && SameResults(code, st.vals, c.vals)
  }

  ghost predicate SimConfig(p: Problem, observed: set<nat>, a: Config, c: SsaConfig) {
    && SameConfig(p.code, a, c)
    && (a.At? ==> exists q :: Sim(p, observed, q, a.block, 0, a.st, c.vals))
  }

  lemma {:induction false} OnlyEntryDominatesEntry(g: Cfg, x: nat)
    requires g.entry < |g.succ| && Dominates(g, x, g.entry)
    ensures x == g.entry
  {
    assert PathTo(g, [g.entry], g.entry);
    assert x in [g.entry];
  }

  lemma {:induction false} SimInitial(p: Problem, observed: set<nat>, st: State)
    requires Convertible(p, observed)
    ensures SimConfig(p, observed, At(p.g.entry, st), SsaAt(p.g.entry, st.vals))
  {
    var e := p.g.entry;
    assert PathTo(p.g, [e], e);
    forall v | IsLoad(p.code, v)
      ensures !DefinedBefore(p.code, p.g, v, e, 0)
    {
      if Dominates(p.g, v.block, e) {
        OnlyEntryDominatesEntry(p.g, v.block);
      }
    }
    assert Sim(p, observed, [e], e, 0, st, st.vals);
  }

  lemma {:induction false} SimStep(p: Problem, observed: set<nat>, c: SsaCode, ops: Ops, a: Config, x: SsaConfig)
    requires Ready(p) && IsRenamed(p, c) && SimConfig(p, observed, a, x)
    ensures SimConfig(p, observed, StepBlock(ops, p.code, a), SsaStepBlock(ops, c, x))
  {
    if a.At? {
      var b, st, vals := a.block, a.st, x.vals;
      var q :| Sim(p, observed, q, b, 0, st, vals);
      var n := |p.code[b]|;
      SimBlock(p, observed, c.slots[b], q, b, n, st, vals, ops);
      NextAgrees(p, observed, c.slots[b], q, b, st, vals, ops);
      var st', vals' := ExecFirst(ops, p.code[b], b, n, st), ExecSlots(ops, c.slots[b], b, n, vals);
      var next := Next(p.code[b], st'.vals);
      if next.Some? {
        assert next.value in Successors(p.code[b]);
        SimEdge(p, observed, c, q, b, next.value, st', vals');
      }
    }
  }

  lemma {:induction false} SimRun(p: Problem, observed: set<nat>, c: SsaCode, ops: Ops, st: State, n: nat)
    requires Convertible(p, observed) && IsRenamed(p, c)
    ensures SimConfig(p, observed, Run(ops, p.code, At(p.g.entry, st), n), SsaRun(ops, c, SsaAt(p.g.entry, st.vals), n))
  {
    if n == 0 {
      SimInitial(p, observed, st);
    } else {
      SimRun(p, observed, c, ops, st, n - 1);
      SimStep(p, observed, c, ops, Run(ops, p.code, At(p.g.entry, st), n - 1),
              SsaRun(ops, c, SsaAt(p.g.entry, st.vals), n - 1));
    }
  }

  // ---------------------------------------------------------------- removing phis without uses

  /** Something still refers to v: an instruction object, linked or not, or a pair of some phi. */
  predicate HasUse(c: SsaCode, v: Value) {
    || (exists b, k :: 0 <= b < |c.slots| && 0 <= k < |c.slots[b]| && c.slots[b][k].inst.Uses(v))
    || (exists b, i, j :: 0 <= b < |c.phis| && 0 <= i < |c.phis[b]| && 0 <= j < |c.phis[b][i].pairs| &&
          c.phis[b][i].pairs[j].1 == v)
  }

  /** c' is c with exactly the unused phis unlinked. */
  ghost predicate IsPruned(c: SsaCode, c': SsaCode) {
    && c'.slots == c.slots && |c'.phis| == |c.phis|
    && forall b :: 0 <= b < |c.phis| ==> PrunedBlock(c, b, c.phis[b], c'.phis[b])
  }

  ghost predicate PrunedBlock(c: SsaCode, b: nat, phis: seq<Phi>, phis': seq<Phi>) {
    && |phis'| == |phis|
    && forall i :: 0 <= i < |phis| ==>
      phis'[i] == phis[i].(linked := phis[i].linked && HasUse(c, PhiValue(b, phis[i].reg)))
  }

  ghost predicate Unused(c: SsaCode, v: Value) {
    v.PhiValue? && !HasUse(c, v)
  }

  /** Equal except at phis nobody uses. */
  ghost predicate AgreeOnUsed(c: SsaCode, x: map<Value, int>, y: map<Value, int>) {
    forall v :: !Unused(c, v) ==> (v in x <==> v in y) && (v in x ==> x[v] == y[v])
  }

  lemma {:induction false} PrunedSlots(c: SsaCode, ops: Ops, b: nat, k: nat, x: map<Value, int>, y: map<Value, int>)
    requires AgreeOnUsed(c, x, y) && b < |c.slots| && k <= |c.slots[b]|
    ensures AgreeOnUsed(c, ExecSlots(ops, c.slots[b], b, k, x), ExecSlots(ops, c.slots[b], b, k, y))
  {
    if k > 0 {
      PrunedSlots(c, ops, b, k - 1, x, y);
      var inst := c.slots[b][k-1].inst;
      if inst.Binary? {
        assert inst.Uses(inst.left) && inst.Uses(inst.right);
      }
    }
  }

  lemma {:induction false} PrunedNext(c: SsaCode, b: nat, k: nat, x: map<Value, int>, y: map<Value, int>)
    requires AgreeOnUsed(c, x, y) && b < |c.slots| && k <= |c.slots[b]|
    ensures SsaNext(c.slots[b][..k], x) == SsaNext(c.slots[b][..k], y)
  {
    if k > 0 {
      var slots := c.slots[b][..k];
      assert slots[..k-1] == c.slots[b][..k-1] && slots[k-1] == c.slots[b][k-1];
      PrunedNext(c, b, k - 1, x, y);
      var inst := c.slots[b][k-1].inst;
      if inst.JumpCond? {
        assert inst.Uses(inst.cond);
      }
    }
  }

  lemma {:induction false} IncomingIsPair(pairs: seq<(nat, Value)>, q: nat)
    requires Incoming(pairs, q).Some?
    ensures exists j :: 0 <= j < |pairs| && pairs[j] == (q, Incoming(pairs, q).value)
  {
    if pairs[0].0 != q {
      IncomingIsPair(pairs[1..], q);
      var j :| 0 <= j < |pairs[1..]| && pairs[1..][j] == (q, Incoming(pairs[1..], q).value);
      assert pairs[j+1] == (q, Incoming(pairs, q).value);
    }
  }

  lemma {:induction false} PrunedPhis(c: SsaCode, s: nat, i: nat, phis': seq<Phi>, b: nat, x: map<Value, int>, y: map<Value, int>)
    requires AgreeOnUsed(c, x, y) && s < |c.phis| && i <= |c.phis[s]| && PrunedBlock(c, s, c.phis[s], phis')
    ensures AgreeOnUsed(c, EnterPhis(c.phis[s][i..], s, b, x), EnterPhis(phis'[i..], s, b, y))
    decreases |c.phis[s]| - i
  {
    var phis := c.phis[s];
    if i < |phis| {
      PrunedPhis(c, s, i + 1, phis', b, x, y);
      assert phis[i..][1..] == phis[i+1..] && phis'[i..][1..] == phis'[i+1..];
      var w := Incoming(phis[i].pairs, b);
      if w.Some? {
        IncomingIsPair(phis[i].pairs, b);
        var j :| 0 <= j < |phis[i].pairs| && phis[i].pairs[j] == (b, w.value);
        assert HasUse(c, w.value);
        assert Eval(w.value, x) == Eval(w.value, y);
      }
    } else {
      assert phis[i..] == [] && phis'[i..] == [];
    }
  }

  ghost predicate AgreeConfig(c: SsaCode, x: SsaConfig, y: SsaConfig) {
    match x
    case SsaAt(b, vals) => y.SsaAt? && y.block == b && AgreeOnUsed(c, vals, y.vals)
    case SsaStopped(vals) => y.SsaStopped? && AgreeOnUsed(c, vals, y.vals)
  }

  lemma {:induction false} PrunedStep(c: SsaCode, c': SsaCode, ops: Ops, x: SsaConfig, y: SsaConfig)
    requires IsPruned(c, c') && AgreeConfig(c, x, y)
    ensures AgreeConfig(c, SsaStepBlock(ops, c, x), SsaStepBlock(ops, c', y))
  {
    if x.SsaAt? && x.block < |c.slots| {
      var b, k := x.block, |c.slots[x.block]|;
      var vals, vals' := ExecSlots(ops, c.slots[b], b, k, x.vals), ExecSlots(ops, c.slots[b], b, k, y.vals);
      PrunedSlots(c, ops, b, k, x.vals, y.vals);
      assert c.slots[b][..k] == c.slots[b];
      PrunedNext(c, b, k, vals, vals');
      var next := SsaNext(c.slots[b], vals);
      if next.Some? && next.value < |c.phis| {
        var s := next.value;
        PrunedPhis(c, s, 0, c'.phis[s], b, vals, vals');
        assert c.phis[s][0..] == c.phis[s] && c'.phis[s][0..] == c'.phis[s];
      }
    }
  }

  lemma {:induction false} PrunedRun(c: SsaCode, c': SsaCode, ops: Ops, at: SsaConfig, n: nat)
    requires IsPruned(c, c')
    ensures AgreeConfig(c, SsaRun(ops, c, at, n), SsaRun(ops, c', at, n))
  {
    if n > 0 {
      PrunedRun(c, c', ops, at, n - 1);
      PrunedStep(c, c', ops, SsaRun(ops, c, at, n - 1), SsaRun(ops, c', at, n - 1));
    }
  }

  // ---------------------------------------------------------------- the main theorems

  /** c' is what conversion makes of the analysed program. */
  ghost predicate IsConverted(p: Problem, c': SsaCode)
    requires Shape(p)
  {
    exists c :: IsRenamed(p, c) && IsPruned(c, c')
  }

  /** SSA conversion preserves meaning: after any number of blocks both programs stand in front of the
      same block, or both have stopped, with the same value at every instruction that computes one. */
  lemma {:induction false} ConversionPreservesMeaning(p: Problem, observed: set<nat>, c': SsaCode, ops: Ops, st: State, n: nat)
    requires Convertible(p, observed) && IsConverted(p, c')
    ensures SameConfig(p.code, Run(ops, p.code, At(p.g.entry, st), n),
                       SsaRun(ops, c', SsaAt(p.g.entry, st.vals), n))
  {
    var c :| IsRenamed(p, c) && IsPruned(c, c');
    SimRun(p, observed, c, ops, st, n);
    PrunedRun(c, c', ops, SsaAt(p.g.entry, st.vals), n);
    assert forall v :: IsBinary(p.code, v) ==> !Unused(c, v);
  }

  /** v is still linked into the converted program. */
  ghost predicate Linked(c: SsaCode, v: Value) {
    match v
    case Const(_) => true
    case Result(x, j) => x < |c.slots| && j < |c.slots[x]| && c.slots[x][j].linked && c.slots[x][j].inst.Binary?
    case PhiValue(x, r) => x < |c.phis| && exists i :: 0 <= i < |c.phis[x]| && c.phis[x][i].reg == r && c.phis[x][i].linked
  }

  /** Where the run stops, every observed register that was assigned on the way has the value of its nearest
      definition: in the renamed program always, and in the converted one where that definition is not a phi without
      uses. */
  lemma {:induction false} StoppingValues(p: Problem, observed: set<nat>, c': SsaCode, ops: Ops, st: State, n: nat, b: nat)
    returns (q: seq<nat>, c: SsaCode)
    requires Convertible(p, observed) && IsConverted(p, c')
    requires var a := Run(ops, p.code, At(p.g.entry, st), n); a.At? && a.block == b
    requires Run(ops, p.code, At(p.g.entry, st), n + 1).Stopped?
    ensures b < |p.code| && PathTo(p.g, q, b) && IsRenamed(p, c) && IsPruned(c, c')
    ensures forall r: nat :: r in observed && AssignedOn(p.code, q, |p.code[b]|, r) ==>
      var regs := Run(ops, p.code, At(p.g.entry, st), n + 1).st.regs;
      && r in regs && Reach(p, b, |p.code[b]|, r).Some?
      && ValueIn(Reach(p, b, |p.code[b]|, r).value, SsaRun(ops, c, SsaAt(p.g.entry, st.vals), n + 1), regs[r])
      && (Linked(c', Reach(p, b, |p.code[b]|, r).value) ==>
           ValueIn(Reach(p, b, |p.code[b]|, r).value, SsaRun(ops, c', SsaAt(p.g.entry, st.vals), n + 1), regs[r]))
  {
    hide LoadsMatch, SameResults, IsRenamed, IsPruned, LiveClosed, WellFormed, Exact, Live;
    c :| IsRenamed(p, c) && IsPruned(c, c');
    SimRun(p, observed, c, ops, st, n);
    var a, x := Run(ops, p.code, At(p.g.entry, st), n), SsaRun(ops, c, SsaAt(p.g.entry, st.vals), n);
    q :| Sim(p, observed, q, b, 0, a.st, x.vals);
    StopBlock(p, observed, c, q, b, a.st, x.vals, ops);
    PrunedRun(c, c', ops, SsaAt(p.g.entry, st.vals), n + 1);
    var y := SsaRun(ops, c', SsaAt(p.g.entry, st.vals), n + 1);
    var z := SsaRun(ops, c, SsaAt(p.g.entry, st.vals), n + 1);
    assert z == SsaStepBlock(ops, c, x);
    NoNextNoSuccessors(p.code[b], ExecFirst(ops, p.code[b], b, |p.code[b]|, a.st).vals);
    forall r: nat | r in observed && AssignedOn(p.code, q, |p.code[b]|, r)
      ensures var regs := Run(ops, p.code, At(p.g.entry, st), n + 1).st.regs;
        && r in regs && Reach(p, b, |p.code[b]|, r).Some?
        && ValueIn(Reach(p, b, |p.code[b]|, r).value, z, regs[r])
        && (Linked(c', Reach(p, b, |p.code[b]|, r).value) ==> ValueIn(Reach(p, b, |p.code[b]|, r).value, y, regs[r]))
    {
      LiveAtEnd(p.code, observed, b, r);
      var v := Reach(p, b, |p.code[b]|, r).value;
      if Linked(c', v) {
        LinkedIsUsed(c, c', v);
      }
    }
  }

  lemma {:induction false} NoNextNoSuccessors(insts: seq<Inst>, vals: map<Value, int>)
    requires Next(insts, vals).None?
    ensures Successors(insts) == []
  {
  }

  predicate ValueIn(v: Value, x: SsaConfig, n: int) {
    Eval(v, x.vals) == n
  }

  lemma {:induction false} LinkedIsUsed(c: SsaCode, c': SsaCode, v: Value)
    requires IsPruned(c, c') && Linked(c', v)
    ensures !Unused(c, v)
  {
    if v.PhiValue? {
      var i :| 0 <= i < |c'.phis[v.block]| && c'.phis[v.block][i].reg == v.reg && c'.phis[v.block][i].linked;
      assert PrunedBlock(c, v.block, c.phis[v.block], c'.phis[v.block]);
    }
  }

  /** Both programs stop behind the same block, with matching registers. */
  lemma {:induction false} StopBlock(p: Problem, observed: set<nat>, c: SsaCode, q: seq<nat>, b: nat, st: State, vals: map<Value, int>, ops: Ops)
    requires Sim(p, observed, q, b, 0, st, vals) && IsRenamed(p, c)
    requires Next(p.code[b], ExecFirst(ops, p.code[b], b, |p.code[b]|, st).vals).None?
    ensures SsaStepBlock(ops, c, SsaAt(b, vals)).SsaStopped?
    ensures StepBlock(ops, p.code, At(b, st)).Stopped?
    ensures RegsMatch(p, observed, q, b, |p.code[b]|, StepBlock(ops, p.code, At(b, st)).st.regs, SsaStepBlock(ops, c, SsaAt(b, vals)).vals)
  {
    SimBlock(p, observed, c.slots[b], q, b, |p.code[b]|, st, vals, ops);
    NextAgrees(p, observed, c.slots[b], q, b, st, vals, ops);
  }

  lemma {:induction false} KeptIsLinked(p: Problem, c: SsaCode, c': SsaCode, v: Value)
    requires Shape(p) && IsRenamed(p, c) && IsPruned(c, c') && Kept(p, v)
    requires v.PhiValue? ==> HasUse(c, v)
    ensures Linked(c', v)
  {
    match v
    case Const(_) =>
    case Result(x, j) =>
      assert SlotsOf(p, x, c.slots[x]);
    case PhiValue(x, r) =>
      assert PhisOf(p, x, c.phis[x]);
      var i :| 0 <= i < |c.phis[x]| && c.phis[x][i].reg == r;
      assert PrunedBlock(c, x, c.phis[x], c'.phis[x]);
      assert c'.phis[x][i].linked && c'.phis[x][i].reg == r;
  }

  lemma {:induction false} RewrittenUses(p: Problem, b: nat, k: nat, v: Value)
    requires Ready(p) && b < |p.code| && k < |p.code[b]| && Rewritten(p, b, k).Uses(v)
    ensures Kept(p, v) && Dominated(p.g, v, b, k)
  {
    var u :| p.code[b][k].Uses(u) && v == Resolve(p, b, k, u);
    ResolveBefore(p, b, k, u);
    ResolveDominates(p, b, k, u);
  }

  /** Nothing that is linked is a load or an assign, and every operand of a linked instruction is itself
      linked and dominates its use. */
  lemma {:induction false} ConvertedForm(p: Problem, c': SsaCode, b: nat, k: nat)
    requires Ready(p) && IsConverted(p, c') && b < |p.code| && k < |p.code[b]|
    ensures |c'.slots| == |p.code| && |c'.slots[b]| == |p.code[b]|
    ensures c'.slots[b][k].linked <==> !p.code[b][k].IsLoadAssign()
    ensures c'.slots[b][k].linked ==> !c'.slots[b][k].inst.IsLoadAssign()
    ensures forall v :: c'.slots[b][k].inst.Uses(v) ==> Linked(c', v) && Dominated(p.g, v, b, k)
  {
    var c :| IsRenamed(p, c) && IsPruned(c, c');
    assert SlotsOf(p, b, c.slots[b]);
    forall v | c'.slots[b][k].inst.Uses(v)
      ensures Linked(c', v) && Dominated(p.g, v, b, k)
    {
      RewrittenUses(p, b, k, v);
      assert c.slots[b][k].inst.Uses(v);
      KeptIsLinked(p, c, c', v);
    }
  }

  /** Each phi has exactly one pair for every predecessor at whose end its register has a value, and the
      paired value is linked and dominates the end of that predecessor. */
  lemma {:induction false} ConvertedPhis(p: Problem, c': SsaCode, b: nat, i: nat)
    requires Ready(p) && IsConverted(p, c') && b < |p.code|
    requires |c'.phis| == |p.code| ==> i < |c'.phis[b]|
    ensures |c'.phis| == |p.code|
    ensures c'.phis[b][i].reg in p.phi[b] && PairsOf(p, b, c'.phis[b][i].reg, c'.phis[b][i].pairs)
    ensures forall q, w :: (q, w) in c'.phis[b][i].pairs ==> Linked(c', w) && Dominated(p.g, w, q, |p.code[q]|)
  {
    var c :| IsRenamed(p, c) && IsPruned(c, c');
    assert PhisOf(p, b, c.phis[b]) && PrunedBlock(c, b, c.phis[b], c'.phis[b]);
    var phi := c.phis[b][i];
    assert PairsOf(p, b, phi.reg, phi.pairs);
    forall q: nat, w | (q, w) in phi.pairs
      ensures Linked(c', w) && Dominated(p.g, w, q, |p.code[q]|)
    {
      ReachBefore(p, q, |p.code[q]|, phi.reg);
      ReachDominates(p, q, |p.code[q]|, phi.reg);
      var j :| 0 <= j < |phi.pairs| && phi.pairs[j] == (q, w);
      assert c.phis[b][i].pairs[j].1 == w;
      KeptIsLinked(p, c, c', w);
    }
  }
}
