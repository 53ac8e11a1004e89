/** The register allocator as an object, with the variables as objects of their own: each method does to the
    state what the specification says, and keeps the invariant. */
module RegAlloc {
  import opened IR
  import opened RegAllocSpec
  import opened Sequences

  /** The num-th variable that was created. */
  class Variable {
    ghost const num: nat
    var reg: int        // allocator number of its register, or -1
    var stackPos: int   // its stack slot, or -1

    constructor (ghost num: nat, reg: int)
      ensures this.num == num && this.reg == reg && stackPos == -1
    {
      this.num, this.reg, stackPos := num, reg, -1;
    }
  }

  ghost function Nums(s: seq<Variable>): (r: seq<Var>)
    ensures |r| == |s| && forall i :: 0 <= i < |s| ==> r[i] == s[i].num
  {
    seq(|s|, i requires 0 <= i < |s| => s[i].num)
  }

  ghost function NumOf(v: Variable?): Option<Var> {
    if v == null then None else Some(v.num)
  }

  ghost function RegsOf(vars: seq<Variable>): (r: seq<int>)
    reads vars
    ensures |r| == |vars| && forall v :: 0 <= v < |vars| ==> r[v] == vars[v].reg
  {
    seq(|vars|, v requires 0 <= v < |vars| reads vars => vars[v].reg)
  }

  ghost function SlotsOf(vars: seq<Variable>): (r: seq<int>)
    reads vars
    ensures |r| == |vars| && forall v :: 0 <= v < |vars| ==> r[v] == vars[v].stackPos
  {
    seq(|vars|, v requires 0 <= v < |vars| reads vars => vars[v].stackPos)
  }

  ghost function StatusOf(status: array<Variable?>): (r: seq<Option<Var>>)
    reads status
    ensures |r| == status.Length && forall i :: 0 <= i < status.Length ==> r[i] == NumOf(status[i])
  {
    seq(status.Length, i requires 0 <= i < status.Length reads status => NumOf(status[i]))
  }

  lemma {:induction false} NumsFront(v: Variable, s: seq<Variable>)
    ensures Nums([v] + s) == [v.num] + Nums(s)
  {
  }

  lemma {:induction false} WithoutNums(s: seq<Variable>, v: Variable)
    requires forall i :: 0 <= i < |s| ==> (s[i].num == v.num <==> s[i] == v)
    ensures Nums(Without(s, v)) == Without(Nums(s), v.num)
  {
    if s != [] {
      assert Nums(s)[0] == s[0].num && Nums(s)[1..] == Nums(s[1..]);
      if s[0] != v {
        WithoutNums(s[1..], v);
        hide Nums, Without;
        NumsFront(s[0], Without(s[1..], v));
      }
    }
  }

  class Codegen {
    const registerCount: nat
    var registerStatus: array<Variable?>
    var lruVariables: seq<Variable>
    var frameSize: nat
    var code: seq<Instr>
    ghost var vars: seq<Variable>   // all variables, in the order of their creation
    ghost var uses: seq<Var>        // which variable was used, in the order of use
    ghost var value: seq<int>       // the value each variable has
    ghost const callee: Callee
    ghost const start: Machine

    ghost function Regs(): (r: seq<int>)
      reads this`vars, vars
      ensures |r| == |vars| && forall v :: 0 <= v < |vars| ==> r[v] == vars[v].reg
    {
      RegsOf(vars)
    }

    ghost function Slots(): (r: seq<int>)
      reads this`vars, vars
      ensures |r| == |vars| && forall v :: 0 <= v < |vars| ==> r[v] == vars[v].stackPos
    {
      SlotsOf(vars)
    }

    ghost function Status(): (r: seq<Option<Var>>)
      reads this`registerStatus, registerStatus
      ensures |r| == registerStatus.Length
      ensures forall i :: 0 <= i < registerStatus.Length ==> r[i] == NumOf(registerStatus[i])
    {
      StatusOf(registerStatus)
    }

    ghost function State(): Alloc
      reads this`registerStatus, this`lruVariables, this`frameSize, this`code, this`vars, registerStatus, vars
      ensures |State().reg| == |vars| && |State().status| == registerStatus.Length
    {
      Alloc(Status(), Regs(), Slots(), Nums(lruVariables), frameSize, code)
    }

    ghost predicate IsVar(v: Variable)
      reads this`vars
    {
      v.num < |vars| && vars[v.num] == v
    }

    /** The objects are those that the numbers in the state stand for. */
    ghost predicate Shape()
      reads this`registerStatus, this`lruVariables, this`vars, registerStatus
    {
      && registerStatus.Length == registerCount
      && (forall v: nat :: v < |vars| ==> vars[v].num == v)
      && (forall r :: 0 <= r < registerStatus.Length && registerStatus[r] != null ==> IsVar(registerStatus[r]))
      && (forall i :: 0 <= i < |lruVariables| ==> IsVar(lruVariables[i]))
    }

    /** The machine after everything emitted so far. */
    ghost function Now(): Machine
      reads this`code
    {
      ExecCode(callee, code, start)
    }

    /** The invariant over every run. */
    ghost predicate Valid()
      reads this, registerStatus, vars
    {
      Shape() && Inv(State()) && Keeps(State(), callee, start, value) && InUseOrder(State().lru, uses)
    }

    constructor (registerCount: nat, ghost callee: Callee, ghost start: Machine)
      requires 0 < registerCount <= 10
      ensures Valid() && fresh(registerStatus) && this.registerCount == registerCount && vars == [] && code == []
      ensures this.callee == callee && this.start == start
      ensures forall r :: 0 <= r < registerCount ==> registerStatus[r] == null
    {
      this.registerCount := registerCount;
      registerStatus := new Variable?[registerCount](_ => null);
      lruVariables, frameSize, code := [], 0, [];
      vars, uses, value := [], [], [];
      this.callee, this.start := callee, start;
    }

    method LruBump(v: Variable)
      requires Shape() && IsVar(v)
      modifies this`lruVariables
      ensures Shape() && State() == Bump(old(State()), v.num)
    {
      WithoutNums(lruVariables, v);
      var l := Without(lruVariables, v);
      assert Nums(l + [v]) == Nums(l) + [v.num];
      lruVariables := l + [v];
    }

    /** Writes a variable that is in a register to its slot; asking for its register counts as a use. */
    method ArchStore(v: Variable)
      requires Shape() && IsVar(v) && 0 <= v.reg < 10
      modifies this`lruVariables, this`code
      ensures Shape() && State() == Bump(old(State()), v.num).(code := old(code) + [StoreSlot(Real(v.reg), v.stackPos)])
    {
      LruBump(v);
      code := code + [StoreSlot(Real(v.reg), v.stackPos)];
    }

    method SetSlot(v: Variable, n: nat)
      requires Shape() && IsVar(v)
      modifies v`stackPos
      ensures Shape() && State() == old(State()).(pos := old(State()).pos[v.num := n]) && v.stackPos == n
    {
      hide Shape, Nums, NumOf;
      OnlyAt(v);
      ghost var was := State();
      v.stackPos := n;
      assert Slots() == was.pos[v.num := n];
      assert Regs() == was.reg;
    }

    method GiveSlot(v: Variable)
      requires Shape() && IsVar(v)
      modifies this`frameSize, v`stackPos
      ensures Shape() && State() == WithSlot(old(State()), v.num) && v.stackPos >= 0
    {
      hide Shape, Nums, NumOf, RegsOf, SlotsOf, StatusOf;
      VarInState(v);
      if v.stackPos < 0 {
        frameSize := frameSize + 1;
        SetSlot(v, frameSize);
      }
    }

    lemma OnlyAt(v: Variable)
      requires Shape() && IsVar(v)
      ensures forall k :: 0 <= k < |vars| ==> (vars[k] == v <==> k == v.num)
    {
    }

    method Unlink(v: Variable)
      requires Shape() && IsVar(v)
      modifies this`lruVariables
      ensures Shape() && State() == old(State()).(lru := Without(old(State()).lru, v.num))
    {
      WithoutNums(lruVariables, v);
      lruVariables := Without(lruVariables, v);
    }

    method ClearStatus(r: nat)
      requires Shape() && r < registerCount
      modifies registerStatus
      ensures Shape() && State() == old(State()).(status := old(State()).status[r := None])
    {
      ghost var was := State();
      registerStatus[r] := null;
      assert Status() == was.status[r := None];
    }

    method ClearReg(v: Variable)
      requires Shape() && IsVar(v) && 0 <= v.reg < registerCount
      modifies registerStatus, v`reg
      ensures Shape() && State() == Released(old(State()), v.num)
    {
      hide Shape, Nums, NumOf;
      OnlyAt(v);
      ClearStatus(v.reg);
      ghost var was := State();
      v.reg := -1;
      assert Regs() == was.reg[v.num := -1];
      assert Slots() == was.pos;
    }

    /** The steps of storing a variable, as far as the objects are concerned. */
    method StoreObjects(v: Variable)
      requires Shape() && IsVar(v) && 0 <= v.reg < registerCount <= 10 && Distinct(Nums(lruVariables))
      modifies this`lruVariables, this`frameSize, this`code, registerStatus, v
      ensures Shape() && State() == Spill(old(State()), v.num)
    {
      hide State, Shape, Without, Distinct;
      ghost var was := State();
      VarInState(v);
      GiveSlot(v);
      VarInState(v);
      ArchStore(v);
      WithoutBumped(was.lru, v.num);
      Unlink(v);
      VarInState(v);
      ClearReg(v);
    }

    /** What the state says about v. */
    lemma VarInState(v: Variable)
      requires Shape() && IsVar(v)
      ensures v.num < |State().reg| == |State().pos| && State().reg[v.num] == v.reg && State().pos[v.num] == v.stackPos
      ensures |State().status| == registerCount && State().lru == Nums(lruVariables) && State().code == code
    {
    }

    /** Stores a variable that is in a register and frees the register. */
    method StoreResident(v: Variable)
      requires Valid() && IsVar(v) && 0 <= v.reg < registerCount <= 10
      modifies this`lruVariables, this`frameSize, this`code, registerStatus, v
      ensures Valid() && State() == Spill(old(State()), v.num)
    {
      hide Shape, Inv, Keeps, InUseOrder;
      ghost var was := State();
      VarInState(v);
      CanSpill(was, v.num);
      StoreObjects(v);
      SpillInv(was, v.num);
      SpillKeeps(was, v.num, callee, start, value);
      OrderWithout(was.lru, uses, v.num);
    }

    /** What is valid about the number of registers and about who is in them. */
    lemma ValidParts()
      requires Valid()
      ensures Shape() && Inv(State()) && 0 < registerCount <= 10 && registerStatus.Length == registerCount
      ensures |State().reg| == |State().pos| == |vars| == |value| && |State().status| == registerCount
      ensures State().code == code && State().lru == Nums(lruVariables) && State().frame == frameSize
      ensures forall r :: 0 <= r < registerCount ==> State().status[r] == NumOf(registerStatus[r])
      ensures forall r :: 0 <= r < registerCount && registerStatus[r] != null ==>
        IsVar(registerStatus[r]) && registerStatus[r].reg == r
      ensures forall i :: 0 <= i < |lruVariables| ==> IsVar(lruVariables[i])
    {
      forall r | 0 <= r < registerCount && registerStatus[r] != null
        ensures IsVar(registerStatus[r]) && registerStatus[r].reg == r
      {
        assert StatusAt(State(), r);
      }
    }

    /** The first free register, or else the register of the least recently used variable, which is stored. */
    method AllocateReg() returns (r: nat)
      requires Valid()
      modifies this`lruVariables, this`frameSize, this`code, registerStatus, vars
      ensures Valid() && (State(), r) == WithFreeReg(old(State()))
      ensures r < registerCount && registerStatus[r] == null
    {
      hide Shape, Inv, Keeps, InUseOrder, Spill, State;
      ghost var was := State();
      ValidParts();
      for i := 0 to registerCount
        invariant Valid() && State() == was
        invariant FirstFree(was.status, i) == FirstFree(was.status, 0)
      {
        if registerStatus[i] == null {
          r := i;
          return;
        }
      }
      FullHasOldest(was);
      CanSpill(was, was.lru[0]);
      LruHead();
      var v := lruVariables[0];
      VarInState(v);
      r := v.reg;
      StoreResident(v);
      ValidParts();
      SpillFrees(was, was.lru[0]);
    }

    lemma LruHead()
      requires State().lru != []
      ensures |lruVariables| == |State().lru| && lruVariables[0].num == State().lru[0]
    {
    }

    /** The object of a new variable. */
    method NewVarObject(r: nat) returns (v: Variable)
      requires Shape() && r < registerCount
      modifies this`lruVariables, this`vars, registerStatus
      ensures Shape() && fresh(v) && vars == old(vars) + [v] && v.reg == r && v.num == |old(vars)|
      ensures State() == WithNewVar(old(State()), r)
    {
      ghost var was := State();
      v := new Variable(|vars|, r);
      vars := vars + [v];
      registerStatus[r] := v;
      lruVariables := lruVariables + [v];
      assert Status() == was.status[r := Some(v.num)];
      assert Regs() == was.reg + [r];
      assert Slots() == was.pos + [-1];
      assert Nums(lruVariables) == was.lru + [v.num];
    }

    /** A new variable in register r, which is free: its value is what the register holds. */
    method NewVarReg(r: nat) returns (v: Variable)
      requires Valid() && r < registerCount && registerStatus[r] == null
      modifies this`lruVariables, this`vars, this`uses, this`value, registerStatus
      ensures Valid() && fresh(v) && vars == old(vars) + [v] && v.reg == r
      ensures State() == WithNewVar(old(State()), r)
      ensures r < 10 && value == old(value) + [Read(Now().regs, Real(r))]
    {
      hide Shape, Inv, Keeps, InUseOrder, ExecCode, State;
      ghost var was := State();
      ValidParts();
      v := NewVarObject(r);
      NewVarInv(was, r);
      NewVarKeeps(was, r, callee, start, value);
      NewIsNotListed(was);
      OrderUsed(was.lru, uses, |was.reg|);
      uses := uses + [v.num];
      value := value + [Read(Now().regs, Real(r))];
    }

    /** A new variable in whatever register can be had. */
    method NewVar() returns (v: Variable)
      requires Valid()
      modifies this`lruVariables, this`frameSize, this`code, this`vars, this`uses, this`value, registerStatus, vars
      ensures Valid() && fresh(v) && vars == old(vars) + [v] && 0 <= v.reg < registerCount
      ensures State() == WithNewVar(WithFreeReg(old(State())).0, v.reg) && v.reg == WithFreeReg(old(State())).1
      ensures |value| == |old(value)| + 1 && value[..|old(value)|] == old(value)
    {
      hide State, Valid;
      var r := AllocateReg();
      v := NewVarReg(r);
    }

    /** The variable of argument i is in that argument's register from the start; there is none for later
        arguments. */
    method InitFunctionArg(i: nat) returns (v: Variable?)
      requires Valid() && 7 <= registerCount && (i < 6 ==> registerStatus[ARG_REGS[i]] == null)
      modifies this`lruVariables, this`vars, this`uses, this`value, registerStatus
      ensures Valid() && (v == null <==> i >= 6)
      ensures v == null ==> vars == old(vars) && value == old(value) && State() == old(State())
      ensures v != null ==> fresh(v) && vars == old(vars) + [v] && State() == WithNewVar(old(State()), ARG_REGS[i])
      ensures v != null ==> value == old(value) + [Read(Now().regs, Real(ARG_REGS[i]))]
      ensures v != null ==> value == old(value) + [Read(Now().regs, [7, 6, 2, 1, 8, 9][i])]
    {
      hide State, Valid;
      v := null;
      if i < 6 {
        ArgumentRegisters(i);
        v := NewVarReg(ARG_REGS[i]);
      }
    }

    /** Behind the first k variables there are n more, which hold what the registers of the arguments hold. */
    ghost predicate HasArguments(m: Machine, k: nat, n: nat)
      reads this`value
    {
      |value| == k + n && n <= 6 && forall i :: 0 <= i < n ==> value[k + i] == Read(m.regs, Real(ARG_REGS[i]))
    }

    ghost predicate Handed(args: seq<Variable?>, k: nat, n: nat)
      reads this`vars
    {
      |args| == n && forall i :: 0 <= i < n ==>
        if i < 6 then k + i < |vars| && args[i] == vars[k + i] else args[i] == null
    }

    /** At the start of a function every argument gets a variable, whose value is what its register holds. */
    method InitFunction(argCount: nat) returns (args: seq<Variable?>)
      requires Valid() && 7 <= registerCount && ArgRegsFree(State().status, 0)
      modifies this`lruVariables, this`vars, this`uses, this`value, registerStatus
      ensures Valid() && old(vars) <= vars && old(value) <= value && |vars| == |old(vars)| + (if argCount < 6 then argCount else 6)
      ensures Handed(args, |old(vars)|, argCount)
      ensures HasArguments(Now(), |old(value)|, if argCount < 6 then argCount else 6)
      ensures forall i: nat :: i < argCount && i < 6 ==>
        value[|old(value)| + i] == Read(Now().regs, [7, 6, 2, 1, 8, 9][i])
    {
      hide Shape, Inv, Keeps, InUseOrder, State, ExecCode, Real, WithNewVar, ArgRegsFree;
      args := [];
      ghost var m, vars0, value0 := Now(), vars, value;
      ValidParts();
      for i := 0 to argCount
        invariant Valid() && Handed(args, |vars0|, i) && HasArguments(m, |value0|, if i < 6 then i else 6)
        invariant ArgRegsFree(State().status, i) && vars0 <= vars && value0 <= value
        invariant Now() == m && registerStatus.Length == registerCount && |vars| == |vars0| + if i < 6 then i else 6
      {
        ghost var was := State();
        ValidParts();
        NextArgReg(was, i);
        var v := InitFunctionArg(i);
        args := args + [v];
      }
      forall i: nat | i < argCount && i < 6
        ensures value[|value0| + i] == Read(Now().regs, [7, 6, 2, 1, 8, 9][i])
      {
        ArgumentRegisters(i);
      }
    }

    method SetRegister(v: Variable, r: nat)
      requires Shape() && IsVar(v) && r < registerCount
      modifies registerStatus, v`reg
      ensures Shape() && v.reg == r
      ensures State() == old(State()).(status := old(State()).status[r := Some(v.num)], reg := old(State()).reg[v.num := r])
    {
      hide Nums;
      OnlyAt(v);
      ghost var was := State();
      registerStatus[r] := v;
      assert Status() == was.status[r := Some(v.num)];
      v.reg := r;
      assert Regs() == was.reg[v.num := r];
      assert Slots() == was.pos;
    }

    /** Loads a variable from its slot into its register. */
    method LoadReg(v: Variable, r: nat)
      requires Shape() && IsVar(v) && r < registerCount <= 10
      modifies this`lruVariables, this`code, registerStatus, v`reg
      ensures Shape() && v.reg == r && State() == LoadInto(old(State()), v.num, r)
    {
      hide Shape, RegsOf, SlotsOf, StatusOf;
      VarInState(v);
      SetRegister(v, r);
      code := code + [LoadSlot(Real(r), v.stackPos)];
      AddToList(v);
    }

    method AddToList(v: Variable)
      requires Shape() && IsVar(v)
      modifies this`lruVariables
      ensures Shape() && State() == old(State()).(lru := old(State()).lru + [v.num])
    {
      assert Nums(lruVariables + [v]) == Nums(lruVariables) + [v.num];
      lruVariables := lruVariables + [v];
    }

    /** Gets a register for a variable: its own, or a new one into which it is loaded. It is the most
        recently used variable afterwards. */
    method VariableRef(v: Variable) returns (r: nat)
      requires Valid() && IsVar(v)
      modifies this`lruVariables, this`frameSize, this`code, this`uses, registerStatus, vars
      ensures Valid() && State() == AfterRef(old(State()), v.num)
      ensures uses == old(uses) + [v.num] && v.reg == r && r < registerCount
    {
      hide Shape, Inv, Keeps, InUseOrder, State, Spill, Bump, LoadInto, ExecCode;
      ghost var was := State();
      ValidParts();
      VarInState(v);
      RefKeeps(was, v.num, callee, start, value);
      OrderRef(was, uses, v.num);
      if v.reg >= 0 {
        LruBump(v);
        r := v.reg;
        InRegister(was, v.num);
      } else {
        AllocateOthers(was, v.num);
        r := AllocateReg();
        ValidParts();
        VarInState(v);
        LoadReg(v, r);
      }
      uses := uses + [v.num];
    }

    /** Stores a variable; one that is in no register is first loaded into one, which is then free again. */
    method VariableStore(v: Variable)
      requires Valid() && IsVar(v)
      modifies this`lruVariables, this`frameSize, this`code, this`uses, registerStatus, vars
      ensures Valid() && State() == Store(old(State()), v.num) && v.reg == -1
    {
      hide Shape, Inv, Keeps, InUseOrder, State, Spill, Bump, LoadInto, ExecCode, AfterRef;
      ghost var was := State();
      ValidParts();
      VarInState(v);
      if v.reg < 0 {
        var _ := VariableRef(v);
        ValidParts();
        VarInState(v);
      } else {
        InRegister(was, v.num);
      }
      StoreResident(v);
      ValidParts();
      VarInState(v);
      StoredIsOut(was, v.num);
    }

    /** A client computes a new value for v in its register. */
    method WriteVariable(v: Variable, n: int)
      requires Valid() && IsVar(v) && 0 <= v.reg < registerCount <= 10
      modifies this`code, this`value
      ensures Valid() && State() == Write(old(State()), v.num, n) && v.num < |old(value)| && value == old(value)[v.num := n]
    {
      hide Shape, Inv, Keeps, InUseOrder;
      ghost var was := State();
      ValidParts();
      VarInState(v);
      CanSpill(was, v.num);
      WriteKeeps(was, v.num, n, callee, start, value);
      code := code + [SetReg(Real(v.reg), n)];
      value := value[v.num := n];
    }

    /** At the end of a block everything in a register is stored. */
    method PopBlock()
      requires Valid()
      modifies this`lruVariables, this`frameSize, this`code, registerStatus, vars
      ensures Valid() && State() == SpillFrom(old(State()), 0)
      ensures forall r :: 0 <= r < registerCount ==> registerStatus[r] == null
    {
      hide Shape, Inv, Keeps, InUseOrder, State, Spill;
      ValidParts();
      ghost var was := State();
      for i := 0 to registerCount
        invariant Valid() && FreeBelow(State().status, i)
        invariant SpillFrom(State(), i) == SpillFrom(was, 0)
      {
        ValidParts();
        var v := registerStatus[i];
        if v != null {
          VarInState(v);
          ghost var before := State();
          StoreResident(v);
          SpillKeepsFree(before, v.num, i);
          ValidParts();
        }
      }
      ValidParts();
    }

    method Assign(v: Variable, r: int)
      requires Shape() && IsVar(v)
      modifies v`reg
      ensures Shape() && v.reg == r && State() == old(State()).(reg := old(State()).reg[v.num := r])
    {
      hide Shape, Nums, NumOf;
      OnlyAt(v);
      ghost var was := State();
      v.reg := r;
      assert Regs() == was.reg[v.num := r];
      assert Slots() == was.pos;
    }

    /** One argument goes to its register. */
    method PassArgument(v: Variable, r: int)
      requires Shape() && IsVar(v) && -1 <= v.reg < 10 && 0 <= r < 10
      modifies this`code, v`reg
      ensures Shape() && State() == LoadArg(old(State()), v.num, r)
    {
      hide Shape, RegsOf, SlotsOf, StatusOf;
      VarInState(v);
      if v.reg == -1 {
        Assign(v, r);
        code := code + [LoadSlot(Real(r), v.stackPos)];
      } else {
        code := code + [MoveReg(Real(v.reg), Real(r))];
      }
    }

    method EmitCall()
      requires Shape()
      modifies this`code
      ensures Shape() && code == old(code) + [CallLabel] && code[..|code|-1] == old(code) == old(State()).code
      ensures State() == old(State()).(code := code)
    {
      code := code + [CallLabel];
    }

    ghost predicate AllVars(args: seq<Variable>)
      reads this`vars
      ensures AllVars(args) ==> Known(Nums(args), |vars|)
    {
      |args| <= 6 && forall i :: 0 <= i < |args| ==> IsVar(args[i])
    }

    method PassArguments(args: seq<Variable>)
      requires Shape() && AllVars(args) && CanLoad(State(), Nums(args))
      modifies this`code, vars
      ensures Shape() && State() == LoadArgs(old(State()), Nums(args), 0)
    {
      hide Shape, State, Real;
      ghost var was, nums := State(), Nums(args);
      for i := 0 to 6
        invariant Shape() && AllVars(args) && CanLoad(State(), nums)
        invariant i <= |args| ==> LoadArgs(State(), nums, i) == LoadArgs(was, nums, 0)
        invariant i > |args| ==> State() == LoadArgs(was, nums, 0)
      {
        if i < |args| {
          var v := args[i];
          VarInState(v);
          assert CanLoadVar(State(), nums[i]);
          LoadStays(State(), nums, i);
          PassArgument(v, ARG_REGS[i]);
        }
      }
    }

    method ForgetArguments(args: seq<Variable>)
      requires Shape() && AllVars(args)
      modifies vars
      ensures Shape() && State() == old(State()).(reg := FreeArgs(old(State()).reg, Nums(args)))
    {
      hide Shape, State, FreeArgs;
      ghost var was, nums := State(), Nums(args);
      assert nums[0..] == nums;
      for i := 0 to |args|
        invariant Shape() && AllVars(args)
        invariant State() == was.(reg := State().reg)
        invariant FreeArgs(State().reg, nums[i..]) == FreeArgs(was.reg, nums)
      {
        VarInState(args[i]);
        FreeOne(State().reg, nums[i..]);
        assert nums[i..][1..] == nums[i+1..];
        Assign(args[i], -1);
      }
      FreeNone(State().reg);
      assert nums[|args|..] == [];
    }

    /** The values of the arguments are in RDI, RSI, RDX, RCX, R8 and R9. */
    ghost predicate InAbiRegisters(args: seq<Variable>, m: Machine)
      reads this`value, args
    {
      |args| <= 6 && forall i: nat :: i < |args| ==>
        args[i].num < |value| && Read(m.regs, [7, 6, 2, 1, 8, 9][i]) == value[args[i].num]
    }

    lemma ArgsAreInRegisters(args: seq<Variable>, m: Machine)
      requires ArgsIn(Nums(args), m, value) && |args| <= 6
      ensures InAbiRegisters(args, m)
    {
      ArgsInAbiRegisters(Nums(args), m, value);
      assert forall i: nat :: i < |args| ==> Nums(args)[i] == args[i].num;
    }

    /** Stores everything, puts the arguments into their registers and emits the call. No variable is in a
        register afterwards. */
    method FunctionCall(args: seq<Variable>)
      requires Valid() && AllVars(args) && |args| < 7 <= registerCount
      modifies this`lruVariables, this`frameSize, this`code, registerStatus, vars
      ensures Valid() && State() == AfterCall(old(State()), Nums(args))
      ensures forall r :: 0 <= r < registerCount ==> registerStatus[r] == null
      ensures |code| > 0 && code[|code|-1] == CallLabel
      ensures ArgsIn(Nums(args), ExecCode(callee, code[..|code|-1], start), value)
      ensures InAbiRegisters(args, ExecCode(callee, code[..|code|-1], start))
    {
      hide Shape, Inv, Keeps, InUseOrder, State, SpillFrom, ExecCode, ArgIn, FreeArgs, Real, LoadArgs;
      ghost var was, nums := State(), Nums(args);
      ValidParts();
      CallKeeps(was, nums, callee, start, value);
      ArgumentsInPlace(was, nums, callee, start, value);
      PopBlock();
      ghost var spilled := State();
      ValidParts();
      NothingResident(spilled);
      PassArguments(args);
      ForgetArguments(args);
      EmitCall();
      ArgsAreInRegisters(args, ExecCode(callee, code[..|code|-1], start));
    }
  }
}
