/** Code over the blocks in order of creation and the same code over their postorder numbers: SSA conversion
    works on the numbers. Naming blocks differently changes neither form nor meaning. */
module Renumbering {
  import opened Graphs
  import opened Postorders
  import opened IR
  import opened SsaSpec
  import opened LoweringForm

  function MapBlock(number: map<nat, nat>, b: nat): nat {
    if b in number then number[b] else b
  }

  function MapValue(number: map<nat, nat>, v: Value): Value {
    match v
    case Const(_) => v
    case Result(b, j) => Result(MapBlock(number, b), j)
    case PhiValue(b, r) => PhiValue(MapBlock(number, b), r)
  }

  function MapInst(number: map<nat, nat>, inst: Inst): (r: Inst)
    ensures r.IsTerminator() == inst.IsTerminator() && r.HasValue() == inst.HasValue()
    ensures r.Load? == inst.Load? && r.Binary? == inst.Binary? && r.Assign? == inst.Assign?
    ensures (inst.Load? ==> r.reg == inst.reg) && (inst.Assign? ==> r.reg == inst.reg)
  {
    match inst
    case Load(_) => inst
    case Assign(r, v) => Assign(r, MapValue(number, v))
    case Binary(op, l, r) => Binary(op, MapValue(number, l), MapValue(number, r))
    case Jump(t) => Jump(MapBlock(number, t))
    case JumpCond(a, b, v) => JumpCond(MapBlock(number, a), MapBlock(number, b), MapValue(number, v))
    case Return => inst
  }

  function MapInsts(number: map<nat, nat>, insts: seq<Inst>): (r: seq<Inst>)
    ensures |r| == |insts| && forall k :: 0 <= k < |r| ==> r[k] == MapInst(number, insts[k])
  {
    seq(|insts|, k requires 0 <= k < |insts| => MapInst(number, insts[k]))
  }

  function RenumberCode(code: Code, order: seq<nat>, number: map<nat, nat>): (r: Code)
    ensures |r| == |order|
    ensures forall i :: 0 <= i < |order| && order[i] < |code| ==> r[i] == MapInsts(number, code[order[i]])
  {
    seq(|order|, i requires 0 <= i < |order| => if order[i] < |code| then MapInsts(number, code[order[i]]) else [])
  }

  /** Code with its graph, as the lowering leaves it. */
  ghost predicate Sound(code: Code, g: Cfg) {
    && WellConnected(g) && FirstPredDominates(g) && |code| == |g.succ|
    && (forall b :: 0 <= b < |code| ==> g.succ[b] == Successors(code[b]))
    && TerminatorsLast(code) && (forall b: nat :: b < |code| ==> LocalOperands(code[b], b))
    && LoadsDominated(code, g)
  }

  /** The numbering under which code is looked at. */
  ghost predicate Numbers(code: Code, g: Cfg, order: seq<nat>, number: map<nat, nat>) {
    Sound(code, g) && IsNumbering(g, order, number)
  }

  lemma {:induction false} NumberedBlock(code: Code, g: Cfg, order: seq<nat>, number: map<nat, nat>, b: nat)
    requires Numbers(code, g, order, number) && b in number
    ensures b < |code| && number[b] < |order| && order[number[b]] == b
    ensures RenumberCode(code, order, number)[number[b]] == MapInsts(number, code[b])
    ensures forall t :: t in Successors(code[b]) ==> t in number
  {
    assert b < |g.succ|;
    NeighboursListed(g, order, number, number[b]);
  }

  lemma {:induction false} BlockAt(code: Code, g: Cfg, order: seq<nat>, number: map<nat, nat>, i: nat)
    requires Numbers(code, g, order, number) && i < |order|
    ensures order[i] in number && number[order[i]] == i && order[i] < |code|
    ensures RenumberCode(code, order, number)[i] == MapInsts(number, code[order[i]])
  {
    assert order[i] in number;
    NumberedBlock(code, g, order, number, order[i]);
  }

  // ---------------------------------------------------------------- form

  lemma {:induction false} SuccessorsMapped(code: Code, g: Cfg, order: seq<nat>, number: map<nat, nat>, i: nat)
    requires Numbers(code, g, order, number) && i < |order|
    ensures Renumber(g, order, number).succ[i] == Successors(RenumberCode(code, order, number)[i])
  {
    hide IsNumbering, WellConnected, FirstPredDominates, TerminatorsLast, LocalOperands, LoadsDominated, Successors;
    BlockAt(code, g, order, number, i);
    NumberedBlock(code, g, order, number, order[i]);
    TargetsMapped(number, code[order[i]]);
  }

  lemma {:induction false} TargetsMapped(number: map<nat, nat>, insts: seq<Inst>)
    requires forall t :: t in Successors(insts) ==> t in number
    ensures MapNumbers(number, Successors(insts)) == Successors(MapInsts(number, insts))
  {
    var a, b := MapNumbers(number, Successors(insts)), Successors(MapInsts(number, insts));
    assert |a| == |b|;
    forall k | 0 <= k < |a|
      ensures a[k] == b[k]
    {
      assert Successors(insts)[k] in number;
    }
  }

  lemma {:induction false} OperandMapped(number: map<nat, nat>, inst: Inst, v': Value) returns (v: Value)
    requires MapInst(number, inst).Uses(v')
    ensures inst.Uses(v) && v' == MapValue(number, v)
  {
    match inst
    case Assign(_, x) => v := x;
    case Binary(_, l, r) => v := if MapValue(number, l) == v' then l else r;
    case JumpCond(_, _, x) => v := x;
  }

  lemma {:induction false} OperandsMapped(code: Code, g: Cfg, order: seq<nat>, number: map<nat, nat>, i: nat, k: nat, v': Value)
    requires Numbers(code, g, order, number) && i < |order|
    requires var code' := RenumberCode(code, order, number); k < |code'[i]| && code'[i][k].Uses(v')
    ensures DefinedBefore(RenumberCode(code, order, number), Renumber(g, order, number), v', i, k)
  {
    BlockAt(code, g, order, number, i);
    var v := OperandMapped(number, code[order[i]][k], v');
    assert LocalOperands(code[order[i]], order[i]);
    assert IsLocal(code[order[i]], order[i], k, v);
  }

  lemma {:induction false} TerminatorMapped(code: Code, g: Cfg, order: seq<nat>, number: map<nat, nat>, i: nat)
    requires Numbers(code, g, order, number) && i < |order|
    ensures TerminatorLast(RenumberCode(code, order, number)[i])
  {
    BlockAt(code, g, order, number, i);
    assert TerminatorLast(code[order[i]]);
  }

  /** Under its postorder numbers the code has the form that SSA conversion takes. */
  lemma {:induction false} RenumberedIsWellFormed(code: Code, g: Cfg, order: seq<nat>, number: map<nat, nat>)
    requires Numbers(code, g, order, number)
    ensures WellFormed(RenumberCode(code, order, number), Renumber(g, order, number))
  {
    hide IsNumbering, WellConnected, FirstPredDominates, Numbered, DefinedBefore, LoadsDominated;
    var code', h := RenumberCode(code, order, number), Renumber(g, order, number);
    DominatingFirstPredIsLater(g, order, number);
    RenumberedIsNumbered(g, order, number);
    forall i | 0 <= i < |code'|
      ensures h.succ[i] == Successors(code'[i])
    {
      SuccessorsMapped(code, g, order, number, i);
    }
    forall i, k | 0 <= i < |code'| && 0 <= k < |code'[i]| - 1
      ensures !code'[i][k].IsTerminator()
    {
      TerminatorMapped(code, g, order, number, i);
    }
    forall i, k, v | 0 <= i < |code'| && 0 <= k < |code'[i]| && code'[i][k].Uses(v)
      ensures DefinedBefore(code', h, v, i, k)
    {
      OperandsMapped(code, g, order, number, i, k, v);
    }
  }

  lemma {:induction false} AssignedMapped(number: map<nat, nat>, insts: seq<Inst>, k: nat, r: nat)
    ensures AssignedBy(MapInsts(number, insts), k, r) <==> AssignedBy(insts, k, r)
  {
    var m := MapInsts(number, insts);
    assert forall j :: 0 <= j < |m| ==> m[j] == MapInst(number, insts[j]);
    if AssignedBy(m, k, r) {
      var j :| 0 <= j < k && j < |m| && m[j].Assign? && m[j].reg == r;
      assert insts[j].Assign? && insts[j].reg == r;
    }
    if AssignedBy(insts, k, r) {
      var j :| 0 <= j < k && j < |insts| && insts[j].Assign? && insts[j].reg == r;
      assert m[j].Assign? && m[j].reg == r;
    }
  }

  lemma {:induction false} AssignsMapped(code: Code, g: Cfg, order: seq<nat>, number: map<nat, nat>, i: nat, r: nat)
    requires Numbers(code, g, order, number) && i < |order|
    ensures AssignsReg(RenumberCode(code, order, number), i, r) <==> AssignsReg(code, order[i], r)
  {
    BlockAt(code, g, order, number, i);
    AssignedMapped(number, code[order[i]], |code[order[i]]|, r);
  }

  /** An assign on a walk is an assign on the walk over the numbers. */
  lemma {:induction false} AssignedOnMapped(code: Code, g: Cfg, order: seq<nat>, number: map<nat, nat>,
                            p: seq<nat>, q: seq<nat>, k: nat, r: nat)
    requires Numbers(code, g, order, number) && |p| == |q| > 0
    requires forall i :: 0 <= i < |p| ==> q[i] < |order| && order[q[i]] == p[i]
    requires AssignedOn(code, p, k, r)
    ensures AssignedOn(RenumberCode(code, order, number), q, k, r)
  {
    hide IsNumbering, Sound, AssignsReg, AssignedBy;
    var code' := RenumberCode(code, order, number);
    if i :| 0 <= i < |p| - 1 && AssignsReg(code, p[i], r) {
      AssignsMapped(code, g, order, number, q[i], r);
      assert AssignsReg(code', q[i], r);
    } else {
      BlockAt(code, g, order, number, q[|q|-1]);
      AssignedMapped(number, code[p[|p|-1]], k, r);
    }
  }

  lemma {:induction false} RenumberedLoadsDominated(code: Code, g: Cfg, order: seq<nat>, number: map<nat, nat>)
    requires Numbers(code, g, order, number)
    ensures LoadsDominated(RenumberCode(code, order, number), Renumber(g, order, number))
  {
    hide IsNumbering, AssignsReg, AssignedBy, WellConnected, FirstPredDominates, TerminatorsLast, LocalOperands, StrictlyDominates;
    var code': Code, h: Cfg := RenumberCode(code, order, number), Renumber(g, order, number);
    forall i: nat, k: nat | i < |code'| && k < |code'[i]| && code'[i][k].Load?
      ensures AssignDominates(code', h, i, k, code'[i][k].reg)
    {
      BlockAt(code, g, order, number, i);
      var r := code[order[i]][k].reg;
      assert AssignDominates(code, g, order[i], k, r);
      if AssignedBy(code[order[i]], k, r) {
        AssignedMapped(number, code[order[i]], k, r);
      } else {
        var x: nat :| StrictlyDominates(g, x, order[i]) && AssignsReg(code, x, r);
        DominatorMapped(g, order, number, x, i);
        AssignsMapped(code, g, order, number, number[x], r);
        assert StrictlyDominates(h, number[x], i);
      }
    }
  }

  lemma {:induction false} DominatorMapped(g: Cfg, order: seq<nat>, number: map<nat, nat>, x: nat, i: nat)
    requires Renumberable(g, order, number) && i < |order| && StrictlyDominates(g, x, order[i])
    ensures x in number && number[x] < |order| && order[number[x]] == x
    ensures StrictlyDominates(Renumber(g, order, number), number[x], i)
  {
    NeighboursListed(g, order, number, i);
    StrictDominatorsAreLater(g, order, number, x, order[i]);
    DominatesRenumbered(g, order, number, number[x], i);
  }

  // ---------------------------------------------------------------- meaning

  /** Registers agree, and so do the results of all numbered blocks. */
  ghost predicate SameState(number: map<nat, nat>, st: State, st': State) {
    && st'.regs == st.regs
    && forall b, j :: b in number ==> Eval(Result(number[b], j), st'.vals) == Eval(Result(b, j), st.vals)
  }

  ghost predicate SameRun(number: map<nat, nat>, a: Config, a': Config) {
    match a
    case At(b, st) => a'.At? && b in number && a'.block == number[b] && SameState(number, st, a'.st)
    case Stopped(st) => a'.Stopped? && SameState(number, st, a'.st)
  }

  lemma {:induction false} EvalMapped(number: map<nat, nat>, insts: seq<Inst>, b: nat, k: nat, v: Value, st: State, st': State)
    requires SameState(number, st, st') && b in number && IsLocal(insts, b, k, v)
    ensures Eval(MapValue(number, v), st'.vals) == Eval(v, st.vals)
  {
    if v.Result? {
      assert Eval(Result(number[b], v.pos), st'.vals) == Eval(Result(b, v.pos), st.vals);
    }
  }

  lemma {:induction false} WriteMapped(number: map<nat, nat>, b: nat, k: nat, n: int, st: State, st': State)
    requires SameState(number, st, st') && b in number
    requires forall x, y :: x in number && y in number && number[x] == number[y] ==> x == y
    ensures SameState(number, st.(vals := st.vals[Result(b, k) := n]), st'.(vals := st'.vals[Result(number[b], k) := n]))
  {
    forall c, j | c in number
      ensures Eval(Result(number[c], j), st'.vals[Result(number[b], k) := n]) == Eval(Result(c, j), st.vals[Result(b, k) := n])
    {
      assert Eval(Result(number[c], j), st'.vals) == Eval(Result(c, j), st.vals);
    }
  }

  lemma {:induction false} ExecMapped(ops: Ops, number: map<nat, nat>, insts: seq<Inst>, b: nat, k: nat, st: State, st': State)
    requires SameState(number, st, st') && b in number && LocalOperands(insts, b) && k < |insts|
    requires forall x, y :: x in number && y in number && number[x] == number[y] ==> x == y
    ensures SameState(number, ExecInst(ops, insts[k], b, k, st), ExecInst(ops, MapInst(number, insts[k]), number[b], k, st'))
  {
    hide SameState;
    match insts[k]
    case Load(r) =>
      assert st'.regs == st.regs by { SameRegs(number, st, st'); }
      WriteMapped(number, b, k, if r in st.regs then st.regs[r] else 0, st, st');
    case Assign(r, v) =>
      assert insts[k].Uses(v);
      EvalMapped(number, insts, b, k, v, st, st');
      RegMapped(number, r, Eval(v, st.vals), st, st');
    case Binary(op, x, y) =>
      assert insts[k].Uses(x) && insts[k].Uses(y);
      EvalMapped(number, insts, b, k, x, st, st');
      EvalMapped(number, insts, b, k, y, st, st');
      WriteMapped(number, b, k, ops(op, Eval(x, st.vals), Eval(y, st.vals)), st, st');
    case _ =>
  }

  lemma {:induction false} SameRegs(number: map<nat, nat>, st: State, st': State)
    requires SameState(number, st, st')
    ensures st'.regs == st.regs
  {
  }

  lemma {:induction false} RegMapped(number: map<nat, nat>, r: nat, n: int, st: State, st': State)
    requires SameState(number, st, st')
    ensures SameState(number, st.(regs := st.regs[r := n]), st'.(regs := st'.regs[r := n]))
  {
  }

  lemma {:induction false} ExecFirstMapped(ops: Ops, number: map<nat, nat>, insts: seq<Inst>, b: nat, k: nat, st: State, st': State)
    requires SameState(number, st, st') && b in number && LocalOperands(insts, b) && k <= |insts|
    requires forall x, y :: x in number && y in number && number[x] == number[y] ==> x == y
    ensures SameState(number, ExecFirst(ops, insts, b, k, st), ExecFirst(ops, MapInsts(number, insts), number[b], k, st'))
  {
    hide SameState, LocalOperands;
    if k > 0 {
      ExecFirstMapped(ops, number, insts, b, k - 1, st, st');
      ExecMapped(ops, number, insts, b, k - 1, ExecFirst(ops, insts, b, k - 1, st),
                 ExecFirst(ops, MapInsts(number, insts), number[b], k - 1, st'));
    }
  }

  lemma {:induction false} NextMapped(number: map<nat, nat>, insts: seq<Inst>, b: nat, st: State, st': State)
    requires SameState(number, st, st') && b in number && LocalOperands(insts, b)
    requires forall t :: t in Successors(insts) ==> t in number
    ensures match Next(insts, st.vals)
      case Some(t) => t in number && Next(MapInsts(number, insts), st'.vals) == Some(number[t])
      case None => Next(MapInsts(number, insts), st'.vals) == None
  {
    hide SameState;
    if insts != [] {
      var last := insts[|insts|-1];
      if last.JumpCond? {
        assert last.Uses(last.cond);
        EvalMapped(number, insts, b, |insts| - 1, last.cond, st, st');
        assert last.onTrue in last.Targets() && last.onFalse in last.Targets();
      } else if last.Jump? {
        assert last.target in last.Targets();
      }
    }
  }

  lemma {:induction false} NumbersDiffer(code: Code, g: Cfg, order: seq<nat>, number: map<nat, nat>)
    requires Numbers(code, g, order, number)
    ensures forall x, y :: x in number && y in number && number[x] == number[y] ==> x == y
  {
    forall x, y | x in number && y in number && number[x] == number[y]
      ensures x == y
    {
      assert order[number[x]] == x && order[number[y]] == y;
    }
  }

  lemma {:induction false} StepMapped(ops: Ops, code: Code, g: Cfg, order: seq<nat>, number: map<nat, nat>, a: Config, a': Config)
    requires Numbers(code, g, order, number) && SameRun(number, a, a')
    ensures SameRun(number, StepBlock(ops, code, a), StepBlock(ops, RenumberCode(code, order, number), a'))
  {
    hide IsNumbering, WellConnected, FirstPredDominates, TerminatorsLast, LocalOperands, LoadsDominated, SameState, Next, Successors;
    if a.At? {
      var b := a.block;
      NumberedBlock(code, g, order, number, b);
      NumbersDiffer(code, g, order, number);
      var insts := code[b];
      ExecFirstMapped(ops, number, insts, b, |insts|, a.st, a'.st);
      NextMapped(number, insts, b, ExecFirst(ops, insts, b, |insts|, a.st),
                 ExecFirst(ops, MapInsts(number, insts), number[b], |insts|, a'.st));
    }
  }

  /** Both runs stay together for ever. */
  lemma {:induction false} RunMapped(ops: Ops, code: Code, g: Cfg, order: seq<nat>, number: map<nat, nat>, regs: map<nat, int>, n: nat)
    requires Numbers(code, g, order, number)
    ensures SameRun(number, Run(ops, code, At(g.entry, State(regs, map[])), n),
                    Run(ops, RenumberCode(code, order, number), At(|order| - 1, State(regs, map[])), n))
    decreases n
  {
    hide Sound, StepBlock, SameState, RenumberCode;
    if n == 0 {
      assert order[|order|-1] == g.entry && order[|order|-1] in number;
      StatesStart(number, regs);
    } else {
      RunMapped(ops, code, g, order, number, regs, n - 1);
      StepMapped(ops, code, g, order, number, Run(ops, code, At(g.entry, State(regs, map[])), n - 1),
                 Run(ops, RenumberCode(code, order, number), At(|order| - 1, State(regs, map[])), n - 1));
    }
  }

  lemma {:induction false} StatesStart(number: map<nat, nat>, regs: map<nat, int>)
    ensures SameState(number, State(regs, map[]), State(regs, map[]))
  {
  }
}
