/** The intermediate representation, before and after SSA conversion, with its execution. An object that
    the program refers to by pointer is named by where it was created. */
module IR {

  datatype Option<+T> = None | Some(value: T)

  datatype BinaryOp = Add | Sub | Mul | Div | Equals | Less | Greater | LessEq | GreaterEq

  datatype Value =
    | Const(n: int)
    | Result(block: nat, pos: nat)       // the pos-th instruction created in a block
    | PhiValue(block: nat, reg: nat)     // the phi that SSA conversion made for a register in a block

  datatype Inst =
    | Load(reg: nat)
    | Assign(reg: nat, val: Value)
    | Binary(op: BinaryOp, left: Value, right: Value)
    | Jump(target: nat)
    | JumpCond(onTrue: nat, onFalse: nat, cond: Value)
    | Return
  {
    predicate IsTerminator() { Jump? || JumpCond? || Return? }

    predicate IsLoadAssign() { Load? || Assign? }

    predicate HasValue() { Load? || Binary? }

    predicate Uses(v: Value) {
      match this
      case Assign(_, x) => x == v
      case Binary(_, l, r) => l == v || r == v
      case JumpCond(_, _, c) => c == v
      case _ => false
    }

    /** The same instruction with every operand equal to from replaced. */
    function Replace(from: Value, to: Value): Inst {
      match this
      case Assign(r, x) => Assign(r, if x == from then to else x)
      case Binary(op, l, r) => Binary(op, if l == from then to else l, if r == from then to else r)
      case JumpCond(a, b, c) => JumpCond(a, b, if c == from then to else c)
      case _ => this
    }

    /** The blocks among the operands, in operand order. */
    function Targets(): seq<nat> {
      match this
      case Jump(t) => [t]
      case JumpCond(a, b, _) => [a, b]
      case _ => []
    }
  }

  type Code = seq<seq<Inst>>

  /** Successors are read off the last instruction of a block. */
  function Successors(insts: seq<Inst>): seq<nat> {
    if insts == [] then [] else insts[|insts|-1].Targets()
  }

  // ---------------------------------------------------------------- execution before SSA conversion

  /** The meaning of the binary operators is a parameter everywhere. */
  type Ops = (BinaryOp, int, int) -> int

  /** The meaning that the example programs are run with: they only add. */
  function Plus(): Ops {
    (op, x, y) => x + y
  }

  datatype State = State(regs: map<nat, int>, vals: map<Value, int>)

  function Eval(v: Value, vals: map<Value, int>): int {
    match v
    case Const(n) => n
    case _ => if v in vals then vals[v] else 0
  }

  function ExecInst(ops: Ops, inst: Inst, b: nat, k: nat, st: State): State {
    match inst
    case Load(r) => st.(vals := st.vals[Result(b, k) := if r in st.regs then st.regs[r] else 0])
    case Assign(r, v) => st.(regs := st.regs[r := Eval(v, st.vals)])
    case Binary(op, x, y) => st.(vals := st.vals[Result(b, k) := ops(op, Eval(x, st.vals), Eval(y, st.vals))])
    case _ => st
  }

  /** The state after the first k instructions of block b. */
  function ExecFirst(ops: Ops, insts: seq<Inst>, b: nat, k: nat, st: State): State
    requires k <= |insts|
  {
    if k == 0 then st else ExecInst(ops, insts[k-1], b, k - 1, ExecFirst(ops, insts, b, k - 1, st))
  }

  /** Where an instruction at the end of a block leads. */
  function Follow(inst: Inst, vals: map<Value, int>): Option<nat> {
    match inst
    case Jump(t) => Some(t)
    case JumpCond(a, b, c) => Some(if Eval(c, vals) != 0 then a else b)
    case _ => None
  }

  function Next(insts: seq<Inst>, vals: map<Value, int>): Option<nat> {
    if insts == [] then None else Follow(insts[|insts|-1], vals)
  }

  /** Where a run stands: in front of a block, or stopped. */
  datatype Config = At(block: nat, st: State) | Stopped(st: State)

  function StepBlock(ops: Ops, code: Code, c: Config): Config {
    match c
    case Stopped(_) => c
    case At(b, st) =>
      if b >= |code| then Stopped(st) else
      var st' := ExecFirst(ops, code[b], b, |code[b]|, st);
      match Next(code[b], st'.vals)
      case Some(t) => At(t, st')
      case None => Stopped(st')
  }

  /** The configuration after n blocks. */
  function Run(ops: Ops, code: Code, c: Config, n: nat): Config
    decreases n
  {
    if n == 0 then c else StepBlock(ops, code, Run(ops, code, c, n - 1))
  }

  // ---------------------------------------------------------------- execution after SSA conversion

  /** An instruction object and whether it is still linked into its block's list. */
  datatype Slot = Slot(linked: bool, inst: Inst)

  /** A phi with its (predecessor, value) pairs. */
  datatype Phi = Phi(reg: nat, pairs: seq<(nat, Value)>, linked: bool)

  datatype SsaCode = SsaCode(slots: seq<seq<Slot>>, phis: seq<seq<Phi>>)

  /** The value a phi receives when control comes from block p. */
  function Incoming(pairs: seq<(nat, Value)>, p: nat): Option<Value> {
    if pairs == [] then None
    else if pairs[0].0 == p then Some(pairs[0].1)
    else Incoming(pairs[1..], p)
  }

  /** All linked phis of block b take their values at once, read in the state at the end of p. */
  function EnterPhis(phis: seq<Phi>, b: nat, p: nat, vals: map<Value, int>): map<Value, int> {
    if phis == [] then vals else
    var rest := EnterPhis(phis[1..], b, p, vals);
    match Incoming(phis[0].pairs, p)
    case Some(w) => if phis[0].linked then rest[PhiValue(b, phis[0].reg) := Eval(w, vals)] else rest
    case None => rest
  }

  function ExecSlot(ops: Ops, s: Slot, b: nat, k: nat, vals: map<Value, int>): map<Value, int> {
    if !s.linked then vals else
    match s.inst
    case Binary(op, x, y) => vals[Result(b, k) := ops(op, Eval(x, vals), Eval(y, vals))]
    case _ => vals
  }

  function ExecSlots(ops: Ops, slots: seq<Slot>, b: nat, k: nat, vals: map<Value, int>): map<Value, int>
    requires k <= |slots|
  {
    if k == 0 then vals else ExecSlot(ops, slots[k-1], b, k - 1, ExecSlots(ops, slots, b, k - 1, vals))
  }

  /** The last linked instruction decides where control goes. */
  function SsaNext(slots: seq<Slot>, vals: map<Value, int>): Option<nat> {
    if slots == [] then None
    else if slots[|slots|-1].linked then Follow(slots[|slots|-1].inst, vals)
    else SsaNext(slots[..|slots|-1], vals)
  }

  datatype SsaConfig = SsaAt(block: nat, vals: map<Value, int>) | SsaStopped(vals: map<Value, int>)

  function SsaStepBlock(ops: Ops, c: SsaCode, at: SsaConfig): SsaConfig {
    match at
    case SsaStopped(_) => at
    case SsaAt(b, vals) =>
      if b >= |c.slots| then SsaStopped(vals) else
      var vals' := ExecSlots(ops, c.slots[b], b, |c.slots[b]|, vals);
      match SsaNext(c.slots[b], vals')
      case Some(t) => SsaAt(t, if t < |c.phis| then EnterPhis(c.phis[t], t, b, vals') else vals')
      case None => SsaStopped(vals')
  }

  function SsaRun(ops: Ops, c: SsaCode, at: SsaConfig, n: nat): SsaConfig
    decreases n
  {
    if n == 0 then at else SsaStepBlock(ops, c, SsaRun(ops, c, at, n - 1))
  }
}
