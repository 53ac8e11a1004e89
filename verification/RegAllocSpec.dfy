/** Register allocation: variables live in registers or in stack slots, and the least recently used register
    is spilled when none is free (codegen.c, with the loads, stores and moves of x86_64_assembly.c). */
module RegAllocSpec {
  import opened IR
  import opened Sequences

  // ---------------------------------------------------------------- emitted code

  /** Registers are x86 register numbers; slot n is the quadword at RBP - 8n. */
  datatype Instr =
    | LoadSlot(reg: nat, slot: int)
    | StoreSlot(reg: nat, slot: int)
    | MoveReg(from: nat, to: nat)
    | SetReg(reg: nat, n: int)          // whatever a client computes into a register
    | CallLabel

  datatype Machine = Machine(regs: map<nat, int>, mem: map<int, int>)

  function Read<K>(m: map<K, int>, k: K): int {
    if k in m then m[k] else 0
  }

  /** What a callee leaves in the registers; the frame of the caller it leaves alone. */
  type Callee = Machine -> map<nat, int>

  function ExecInstr(callee: Callee, i: Instr, m: Machine): Machine {
    match i
    case LoadSlot(r, s) => m.(regs := m.regs[r := Read(m.mem, s)])
    case StoreSlot(r, s) => m.(mem := m.mem[s := Read(m.regs, r)])
    case MoveReg(f, t) => m.(regs := m.regs[t := Read(m.regs, f)])
    case SetReg(r, n) => m.(regs := m.regs[r := n])
    case CallLabel => m.(regs := callee(m))
  }

  function ExecCode(callee: Callee, code: seq<Instr>, m: Machine): Machine {
    if code == [] then m else ExecInstr(callee, code[|code|-1], ExecCode(callee, code[..|code|-1], m))
  }

  lemma {:induction false} ExecLast(callee: Callee, code: seq<Instr>, i: Instr, m: Machine)
    ensures ExecCode(callee, code + [i], m) == ExecInstr(callee, i, ExecCode(callee, code, m))
  {
    assert (code + [i])[..|code|] == code;
  }

  /** The x86 registers that are handed out, by allocator number. */
  const REAL_REGS: seq<nat> := [0, 1, 2, 6, 7, 8, 9, 10, 11, 12]

  function Real(r: int): nat
    requires 0 <= r < 10
  {
    REAL_REGS[r]
  }

  lemma {:induction false} RealRegsDiffer(r: int, s: int)
    requires 0 <= r < 10 && 0 <= s < 10 && r != s
    ensures Real(r) != Real(s)
  {
  }

  /** The allocator numbers of the registers for the first six arguments. */
  const ARG_REGS: seq<int> := [4, 3, 2, 1, 5, 6]

  /** The x86 registers of the first six arguments (section 3.2.3 of the System V AMD64 ABI): RDI, RSI, RDX, RCX, R8
      and R9. */
  lemma {:induction false} ArgumentRegisters(i: nat)
    requires i < 6
    ensures Real(ARG_REGS[i]) == [7, 6, 2, 1, 8, 9][i]
  {
  }

  /** The stack and frame pointers, RSP and RBP, and RBX are never handed out. */
  lemma {:induction false} PointersAreKept(r: int)
    requires 0 <= r < 10
    ensures Real(r) !in {3, 4, 5} && Real(r) < 16
  {
  }

  // ---------------------------------------------------------------- the state of the allocator

  /** Variables are named by the order of their creation. */
  type Var = nat

  datatype Alloc = Alloc(status: seq<Option<Var>>, reg: seq<int>, pos: seq<int>,
                         lru: seq<Var>, frame: nat, code: seq<Instr>)

  /** A variable and the register it is in know of each other. */
  predicate RegAt(a: Alloc, v: Var)
    requires v < |a.reg|
  {
    a.reg[v] == -1 || (0 <= a.reg[v] < |a.status| && a.status[a.reg[v]] == Some(v))
  }

  predicate StatusAt(a: Alloc, r: nat)
    requires r < |a.status|
  {
    a.status[r].Some? ==> a.status[r].value < |a.reg| && a.reg[a.status[r].value] == r
  }

  /** A variable that is in no register has a slot of the frame. */
  predicate SlotAt(a: Alloc, v: Var)
    requires v < |a.reg| && v < |a.pos|
  {
    1 <= a.pos[v] <= a.frame || (a.pos[v] == -1 && a.reg[v] != -1)
  }

  predicate ApartAt(a: Alloc, v: Var, w: Var)
    requires v < |a.pos| && w < |a.pos|
  {
    v != w && a.pos[v] == a.pos[w] ==> a.pos[v] == -1
  }

  /** registerStatus[r] is v exactly if v is in register r. */
  ghost predicate RegsMatch(a: Alloc) {
    && 0 < |a.status| <= 10 && |a.reg| == |a.pos|
    && (forall v: nat :: v < |a.reg| ==> RegAt(a, v))
    && (forall r: nat :: r < |a.status| ==> StatusAt(a, r))
  }

  /** Some variable has slot s. */
  ghost predicate SlotUsed(pos: seq<int>, s: int) {
    exists v: nat :: v < |pos| && pos[v] == s
  }

  lemma {:induction false} UsedAfterSlot(pos: seq<int>, v: nat, n: int, s: int)
    requires SlotUsed(pos, s) && v < |pos| && pos[v] == -1 && s > 0
    ensures SlotUsed(pos[v := n], s)
  {
    var w: nat :| w < |pos| && pos[w] == s;
    assert pos[v := n][w] == s;
  }

  lemma {:induction false} UsedAfterNew(pos: seq<int>, s: int)
    requires SlotUsed(pos, s)
    ensures SlotUsed(pos + [-1], s)
  {
    var w: nat :| w < |pos| && pos[w] == s;
    assert (pos + [-1])[w] == s;
  }

  /** Slots are within the frame, no two variables share one, and none of the frame is left unused. */
  ghost predicate SlotsApart(a: Alloc) {
    && (forall s :: 1 <= s <= a.frame ==> SlotUsed(a.pos, s))
    && |a.reg| == |a.pos|
    && (forall v: nat :: v < |a.reg| ==> SlotAt(a, v))
    && (forall v: nat, w: nat :: v < |a.reg| && w < |a.reg| ==> ApartAt(a, v, w))
  }

  predicate Resident(a: Alloc, v: Var) {
    v < |a.reg| && a.reg[v] != -1
  }

  /** The list holds exactly the variables that are in registers, each once. */
  ghost predicate LruResident(a: Alloc) {
    && Distinct(a.lru)
    && (forall v :: v in a.lru ==> Resident(a, v))
    && (forall v: nat :: v < |a.reg| && Resident(a, v) ==> v in a.lru)
  }

  ghost predicate Inv(a: Alloc) {
    RegsMatch(a) && SlotsApart(a) && LruResident(a)
  }

  /** Where the value of v is to be found. */
  function Lookup(a: Alloc, m: Machine, v: Var): int
    requires v < |a.reg| && v < |a.pos| && a.reg[v] < 10
  {
    if a.reg[v] >= 0 then Read(m.regs, Real(a.reg[v])) else Read(m.mem, a.pos[v])
  }

  /** Every variable has its value in its register or else in its slot. */
  ghost predicate Holds(a: Alloc, m: Machine, value: seq<int>) {
    && |value| == |a.reg| == |a.pos|
    && forall v: nat :: v < |value| ==> a.reg[v] < 10 && Lookup(a, m, v) == value[v]
  }

  /** ... after running everything emitted so far. */
  ghost predicate Keeps(a: Alloc, callee: Callee, m0: Machine, value: seq<int>) {
    Holds(a, ExecCode(callee, a.code, m0), value)
  }

  // ---------------------------------------------------------------- storing a variable

  /** variable_store: v gets a slot if it has none, is written to it, and gives up its register. */
  function Spill(a: Alloc, v: Var): (b: Alloc)
    requires v < |a.reg| && v < |a.pos| && 0 <= a.reg[v] < |a.status| <= 10
    ensures |b.status| == |a.status|
  {
    var r := a.reg[v];
    var frame := if a.pos[v] < 0 then a.frame + 1 else a.frame;
    var pos := if a.pos[v] < 0 then frame else a.pos[v];
    Alloc(a.status[r := None], a.reg[v := -1], a.pos[v := pos], Without(a.lru, v), frame,
          a.code + [StoreSlot(Real(r), pos)])
  }

  lemma {:induction false} SpillInv(a: Alloc, v: Var)
    requires Inv(a) && Resident(a, v)
    ensures RegAt(a, v) && Inv(Spill(a, v))
  {
    assert RegAt(a, v);
    SpillRegs(a, v);
    SpillSlots(a, v);
    SpillLru(a, v);
  }

  lemma {:induction false} SpillLru(a: Alloc, v: Var)
    requires LruResident(a) && Resident(a, v) && v < |a.pos| && 0 <= a.reg[v] < |a.status| <= 10
    ensures LruResident(Spill(a, v))
  {
    WithoutIs(a.lru, v);
    var b, l := Spill(a, v), Without(a.lru, v);
    assert b.lru == l;
    forall w | w in l
      ensures Resident(b, w)
    {
      assert w in a.lru && w != v;
    }
    forall w: nat | w < |b.reg| && Resident(b, w)
      ensures w in l
    {
      assert Resident(a, w) && w != v;
    }
  }

  lemma {:induction false} SpillRegs(a: Alloc, v: Var)
    requires RegsMatch(a) && Resident(a, v) && RegAt(a, v)
    ensures RegsMatch(Spill(a, v))
  {
    var b := Spill(a, v);
    forall w: nat | w < |b.reg|
      ensures RegAt(b, w)
    {
      assert RegAt(a, w);
    }
    forall r: nat | r < |b.status|
      ensures StatusAt(b, r)
    {
      assert StatusAt(a, r);
    }
  }

  lemma {:induction false} SpillSlots(a: Alloc, v: Var)
    requires SlotsApart(a) && RegsMatch(a) && Resident(a, v) && RegAt(a, v)
    ensures SlotsApart(Spill(a, v))
  {
    var b := Spill(a, v);
    forall s | 1 <= s <= b.frame
      ensures SlotUsed(b.pos, s)
    {
      assert SlotAt(a, v);
      if s > a.frame {
        assert b.pos[v] == s;
      } else if a.pos[v] == -1 {
        UsedAfterSlot(a.pos, v, b.pos[v], s);
      } else {
        assert b.pos == a.pos;
      }
    }
    forall w: nat | w < |b.reg|
      ensures SlotAt(b, w)
    {
      assert SlotAt(a, w);
    }
    forall x: nat, y: nat | x < |b.reg| && y < |b.reg|
      ensures ApartAt(b, x, y)
    {
      assert SlotAt(a, x) && SlotAt(a, y) && ApartAt(a, x, y);
    }
  }

  /** Storing a variable changes no value: v is now in its slot, everything else is where it was. */
  lemma {:induction false} SpillKeeps(a: Alloc, v: Var, callee: Callee, m0: Machine, value: seq<int>)
    requires Inv(a) && Resident(a, v) && RegAt(a, v) && Keeps(a, callee, m0, value)
    ensures Keeps(Spill(a, v), callee, m0, value)
  {
    var b := Spill(a, v);
    var m := ExecCode(callee, a.code, m0);
    ExecLast(callee, a.code, StoreSlot(Real(a.reg[v]), b.pos[v]), m0);
    var m' := ExecCode(callee, b.code, m0);
    forall w: nat | w < |value|
      ensures b.reg[w] < 10 && Lookup(b, m', w) == value[w]
    {
      assert Lookup(a, m, w) == value[w] && RegAt(a, w);
      if w != v {
        assert SlotAt(a, v) && SlotAt(a, w) && ApartAt(a, v, w);
      }
    }
  }

  // ---------------------------------------------------------------- getting a register

  /** The first register from r on that holds no variable. */
  function FirstFree(status: seq<Option<Var>>, r: nat): (i: nat)
    requires r <= |status|
    ensures r <= i <= |status| && (i < |status| ==> status[i] == None)
    ensures forall k :: r <= k < i ==> status[k] != None
    decreases |status| - r
  {
    if r == |status| || status[r] == None then r else FirstFree(status, r + 1)
  }

  /** codegen_allocateReg: the first free register, or that of the least recently used variable. */
  function WithFreeReg(a: Alloc): (r: (Alloc, nat))
    requires Inv(a)
    ensures r.1 < |r.0.status| == |a.status| && r.0.status[r.1] == None && Inv(r.0)
  {
    var i := FirstFree(a.status, 0);
    if i < |a.status| then (a, i)
    else
      FullHasOldest(a);
      var v := a.lru[0];
      SpillInv(a, v);
      (Spill(a, v), a.reg[v])
  }

  lemma {:induction false} FullHasOldest(a: Alloc)
    requires Inv(a) && FirstFree(a.status, 0) == |a.status|
    ensures |a.lru| > 0 && Resident(a, a.lru[0])
  {
    assert StatusAt(a, 0) && a.status[0] != None;
    assert a.status[0].value in a.lru;
    assert a.lru[0] in a.lru;
  }

  lemma {:induction false} AllocateKeeps(a: Alloc, callee: Callee, m0: Machine, value: seq<int>)
    requires Inv(a) && Keeps(a, callee, m0, value)
    ensures Keeps(WithFreeReg(a).0, callee, m0, value)
  {
    if FirstFree(a.status, 0) == |a.status| {
      FullHasOldest(a);
      assert RegAt(a, a.lru[0]);
      SpillKeeps(a, a.lru[0], callee, m0, value);
    }
  }

  // ---------------------------------------------------------------- new variables

  /** codegen_newVarReg: a variable that is in register r from the start. */
  function WithNewVar(a: Alloc, r: nat): (b: Alloc)
    requires r < |a.status|
  {
    a.(status := a.status[r := Some(|a.reg|)], reg := a.reg + [r], pos := a.pos + [-1], lru := a.lru + [|a.reg|])
  }

  lemma {:induction false} NewVarInv(a: Alloc, r: nat)
    requires Inv(a) && r < |a.status| && a.status[r] == None
    ensures Inv(WithNewVar(a, r))
  {
    var b, v := WithNewVar(a, r), |a.reg|;
    forall s | 1 <= s <= b.frame
      ensures SlotUsed(b.pos, s)
    {
      UsedAfterNew(a.pos, s);
    }
    forall w: nat | w < |b.reg|
      ensures RegAt(b, w) && SlotAt(b, w)
    {
      if w != v {
        assert RegAt(a, w) && SlotAt(a, w);
      }
    }
    forall k: nat | k < |b.status|
      ensures StatusAt(b, k)
    {
      assert StatusAt(a, k);
    }
    forall x: nat, y: nat | x < |b.reg| && y < |b.reg|
      ensures ApartAt(b, x, y)
    {
      if x != v && y != v {
        assert ApartAt(a, x, y);
      } else if x != v {
        assert SlotAt(a, x);
      } else if y != v {
        assert SlotAt(a, y);
      }
    }
    assert v !in a.lru by { assert !Resident(a, v); }
    assert LruResident(b) by {
      assert forall w :: w in b.lru <==> w in a.lru || w == v;
    }
  }

  /** Its value is what the register holds. */
  lemma {:induction false} NewVarKeeps(a: Alloc, r: nat, callee: Callee, m0: Machine, value: seq<int>)
    requires Inv(a) && r < |a.status| && a.status[r] == None && Keeps(a, callee, m0, value)
    ensures Keeps(WithNewVar(a, r), callee, m0, value + [Read(ExecCode(callee, a.code, m0).regs, Real(r))])
  {
    var b, v := WithNewVar(a, r), |a.reg|;
    var m := ExecCode(callee, a.code, m0);
    var value' := value + [Read(m.regs, Real(r))];
    forall w: nat | w < |value'|
      ensures b.reg[w] < 10 && Lookup(b, m, w) == value'[w]
    {
      if w != v {
        assert Lookup(a, m, w) == value[w];
      }
    }
  }

  // ---------------------------------------------------------------- using a variable

  /** _lruBump. */
  function Bump(a: Alloc, v: Var): Alloc {
    a.(lru := Without(a.lru, v) + [v])
  }

  /** v, which is in no register, is loaded from its slot into the free register r. */
  function LoadInto(a: Alloc, v: Var, r: nat): (b: Alloc)
    requires v < |a.reg| && v < |a.pos| && r < |a.status| <= 10
  {
    a.(status := a.status[r := Some(v)], reg := a.reg[v := r], lru := a.lru + [v],
       code := a.code + [LoadSlot(Real(r), a.pos[v])])
  }

  /** variable_ref: v is in a register afterwards, and the most recently used one. */
  function AfterRef(a: Alloc, v: Var): (b: Alloc)
    requires Inv(a) && v < |a.reg|
    ensures Inv(b) && Resident(b, v) && |b.reg| == |a.reg| && |b.status| == |a.status|
    ensures |b.lru| > 0 && b.lru[|b.lru|-1] == v
  {
    if a.reg[v] >= 0 then BumpInv(a, v); Bump(a, v)
    else
      var (c, r) := WithFreeReg(a);
      AllocateOthers(a, v);
      LoadInv(c, v, r);
      LoadInto(c, v, r)
  }

  /** variable_store for any variable: to be written to its slot it has to be in a register. */
  function Store(a: Alloc, v: Var): Alloc
    requires Inv(a) && v < |a.reg|
  {
    var b := if a.reg[v] >= 0 then a else AfterRef(a, v);
    assert Resident(b, v);
    CanSpill(b, v);
    Spill(b, v)
  }

  lemma {:induction false} StoredIsOut(a: Alloc, v: Var)
    requires Inv(a) && v < |a.reg|
    ensures v < |Store(a, v).reg| && Store(a, v).reg[v] == -1
  {
    var b := if a.reg[v] >= 0 then a else AfterRef(a, v);
    CanSpill(b, v);
  }

  lemma {:induction false} BumpInv(a: Alloc, v: Var)
    requires Inv(a) && Resident(a, v)
    ensures Inv(Bump(a, v))
  {
    WithoutIs(a.lru, v);
    var b := Bump(a, v);
    assert forall w :: w in b.lru <==> w in Without(a.lru, v) || w == v;
    assert forall w: nat :: w < |b.reg| ==> (RegAt(a, w) <==> RegAt(b, w));
    assert forall r: nat :: r < |b.status| ==> (StatusAt(a, r) <==> StatusAt(b, r));
    assert forall w: nat :: w < |b.reg| ==> (SlotAt(a, w) <==> SlotAt(b, w));
    assert forall w: nat, x: nat :: w < |b.reg| && x < |b.reg| ==> (ApartAt(a, w, x) <==> ApartAt(b, w, x));
  }

  /** Taking a register from another variable does not concern v. */
  lemma {:induction false} AllocateOthers(a: Alloc, v: Var)
    requires Inv(a) && v < |a.reg| && a.reg[v] < 0
    ensures var b := WithFreeReg(a).0; v < |b.reg| && b.reg[v] == -1 && b.pos[v] == a.pos[v] && |b.reg| == |a.reg|
  {
    assert RegAt(a, v);
    if FirstFree(a.status, 0) == |a.status| {
      FullHasOldest(a);
      assert RegAt(a, a.lru[0]);
    }
  }

  lemma {:induction false} LoadInv(a: Alloc, v: Var, r: nat)
    requires Inv(a) && r < |a.status| && a.status[r] == None && v < |a.reg| && a.reg[v] == -1
    ensures Inv(LoadInto(a, v, r))
  {
    var b := LoadInto(a, v, r);
    forall w: nat | w < |b.reg|
      ensures RegAt(b, w) && SlotAt(b, w)
    {
      assert RegAt(a, w) && SlotAt(a, w);
    }
    forall k: nat | k < |b.status|
      ensures StatusAt(b, k)
    {
      assert StatusAt(a, k);
    }
    forall x: nat, y: nat | x < |b.reg| && y < |b.reg|
      ensures ApartAt(b, x, y)
    {
      assert ApartAt(a, x, y);
    }
    assert v !in a.lru;
    assert LruResident(b) by {
      assert forall w :: w in b.lru <==> w in a.lru || w == v;
    }
  }

  lemma {:induction false} LoadKeeps(a: Alloc, v: Var, r: nat, callee: Callee, m0: Machine, value: seq<int>)
    requires Inv(a) && r < |a.status| && a.status[r] == None && v < |a.reg| && a.reg[v] == -1
    requires Keeps(a, callee, m0, value)
    ensures Keeps(LoadInto(a, v, r), callee, m0, value)
  {
    var b := LoadInto(a, v, r);
    var m := ExecCode(callee, a.code, m0);
    ExecLast(callee, a.code, LoadSlot(Real(r), a.pos[v]), m0);
    var m' := ExecCode(callee, b.code, m0);
    forall w: nat | w < |value|
      ensures b.reg[w] < 10 && Lookup(b, m', w) == value[w]
    {
      assert Lookup(a, m, w) == value[w] && RegAt(a, w);
      if w != v && a.reg[w] >= 0 {
        RealRegsDiffer(r, a.reg[w]);
      }
    }
  }

  /** Using a variable changes no value. */
  lemma {:induction false} RefKeeps(a: Alloc, v: Var, callee: Callee, m0: Machine, value: seq<int>)
    requires Inv(a) && v < |a.reg| && Keeps(a, callee, m0, value)
    ensures Keeps(AfterRef(a, v), callee, m0, value)
  {
    if a.reg[v] >= 0 {
      BumpKeeps(a, v, ExecCode(callee, a.code, m0), value);
    } else {
      AllocateOthers(a, v);
      AllocateKeeps(a, callee, m0, value);
      LoadKeeps(WithFreeReg(a).0, v, WithFreeReg(a).1, callee, m0, value);
    }
  }

  lemma {:induction false} BumpKeeps(a: Alloc, v: Var, m: Machine, value: seq<int>)
    requires Holds(a, m, value)
    ensures Holds(Bump(a, v), m, value)
  {
    forall w: nat | w < |value|
      ensures Lookup(Bump(a, v), m, w) == value[w]
    {
      assert Lookup(a, m, w) == value[w];
    }
  }

  /** A client computes a new value of v in the register it was given. */
  function Write(a: Alloc, v: Var, n: int): (b: Alloc)
    requires v < |a.reg| && 0 <= a.reg[v] < 10
  {
    a.(code := a.code + [SetReg(Real(a.reg[v]), n)])
  }

  lemma {:induction false} WriteKeeps(a: Alloc, v: Var, n: int, callee: Callee, m0: Machine, value: seq<int>)
    requires Inv(a) && Resident(a, v) && RegAt(a, v) && Keeps(a, callee, m0, value)
    ensures Inv(Write(a, v, n)) && Keeps(Write(a, v, n), callee, m0, value[v := n])
  {
    var b := Write(a, v, n);
    var m := ExecCode(callee, a.code, m0);
    ExecLast(callee, a.code, SetReg(Real(a.reg[v]), n), m0);
    var m' := ExecCode(callee, b.code, m0);
    forall w: nat | w < |value|
      ensures b.reg[w] < 10 && Lookup(b, m', w) == value[v := n][w]
    {
      assert Lookup(a, m, w) == value[w] && RegAt(a, w) && RegAt(a, v);
      if w != v && a.reg[w] >= 0 {
        RealRegsDiffer(a.reg[v], a.reg[w]);
      }
    }
    SameShape(a, b);
  }

  lemma {:induction false} SameShape(a: Alloc, b: Alloc)
    requires Inv(a) && b == a.(code := b.code)
    ensures Inv(b)
  {
    assert forall w: nat :: w < |b.reg| ==> (RegAt(a, w) <==> RegAt(b, w)) && (SlotAt(a, w) <==> SlotAt(b, w));
    assert forall r: nat :: r < |b.status| ==> (StatusAt(a, r) <==> StatusAt(b, r));
    assert forall w: nat, x: nat :: w < |b.reg| && x < |b.reg| ==> (ApartAt(a, w, x) <==> ApartAt(b, w, x));
  }

  // ---------------------------------------------------------------- the order of use

  /** One more than the position of the last use of v, or 0. */
  function LastUse(uses: seq<Var>, v: Var): (n: nat)
    ensures n <= |uses| && (n > 0 ==> uses[n-1] == v)
    ensures forall k :: n <= k < |uses| ==> uses[k] != v
  {
    if uses == [] then 0 else if uses[|uses|-1] == v then |uses| else LastUse(uses[..|uses|-1], v)
  }

  /** The list runs from the least to the most recently used variable. */
  ghost predicate InUseOrder(lru: seq<Var>, uses: seq<Var>) {
    forall i, j :: 0 <= i < j < |lru| ==> LastUse(uses, lru[i]) < LastUse(uses, lru[j])
  }

  lemma {:induction false} OrderWithout(lru: seq<Var>, uses: seq<Var>, v: Var)
    requires InUseOrder(lru, uses)
    ensures InUseOrder(Without(lru, v), uses)
  {
    hide Without, LastUse;
    var k := WithoutIndex(lru, v);
    if v in lru {
      CutInOrder(lru, uses, k);
    }
  }

  lemma {:induction false} CutInOrder(lru: seq<Var>, uses: seq<Var>, k: nat)
    requires InUseOrder(lru, uses) && k < |lru|
    ensures InUseOrder(lru[..k] + lru[k+1..], uses)
  {
    hide LastUse;
    var r := lru[..k] + lru[k+1..];
    forall i, j | 0 <= i < j < |r|
      ensures LastUse(uses, r[i]) < LastUse(uses, r[j])
    {
      var i', j' := if i < k then i else i + 1, if j < k then j else j + 1;
      assert r[i] == lru[i'] && r[j] == lru[j'];
    }
  }

  /** A used variable goes to the end. */
  lemma {:induction false} OrderUsed(lru: seq<Var>, uses: seq<Var>, v: Var)
    requires InUseOrder(lru, uses) && v !in lru
    ensures InUseOrder(lru + [v], uses + [v])
  {
    var u := uses + [v];
    forall w | w in lru
      ensures LastUse(u, w) == LastUse(uses, w)
    {
      assert u[..|u|-1] == uses;
    }
    assert LastUse(u, v) == |u|;
    assert forall i :: 0 <= i < |lru| ==> lru[i] in lru;
  }

  lemma {:induction false} OrderBumped(a: Alloc, uses: seq<Var>, v: Var)
    requires LruResident(a) && InUseOrder(a.lru, uses)
    ensures InUseOrder(Bump(a, v).lru, uses + [v])
  {
    WithoutIs(a.lru, v);
    OrderWithout(a.lru, uses, v);
    OrderUsed(Without(a.lru, v), uses, v);
  }

  /** When no register is free the variable that gives up its register was used longest ago. */
  lemma {:induction false} EvictsLeastRecentlyUsed(a: Alloc, uses: seq<Var>, w: Var)
    requires Inv(a) && InUseOrder(a.lru, uses) && FirstFree(a.status, 0) == |a.status|
    requires Resident(a, w) && w != a.lru[0]
    ensures !Resident(WithFreeReg(a).0, a.lru[0]) && Resident(WithFreeReg(a).0, w)
    ensures LastUse(uses, a.lru[0]) < LastUse(uses, w)
  {
    FullHasOldest(a);
    assert w in a.lru;
    var j :| 0 <= j < |a.lru| && a.lru[j] == w;
    assert RegAt(a, a.lru[0]);
  }

  // ---------------------------------------------------------------- the end of a block

  /** codegen_popBlock: from register i on, whatever is in a register is stored. */
  function SpillFrom(a: Alloc, i: nat): (b: Alloc)
    requires Inv(a) && i <= |a.status|
    requires forall r :: 0 <= r < i ==> a.status[r] == None
    ensures Inv(b) && |b.status| == |a.status| && |b.reg| == |a.reg|
    ensures forall r :: 0 <= r < |b.status| ==> b.status[r] == None
    decreases |a.status| - i
  {
    if i == |a.status| then a
    else if a.status[i] == None then SpillFrom(a, i + 1)
    else
      assert StatusAt(a, i);
      SpillInv(a, a.status[i].value);
      SpillFrom(Spill(a, a.status[i].value), i + 1)
  }

  lemma {:induction false} SpillFromKeeps(a: Alloc, i: nat, callee: Callee, m0: Machine, value: seq<int>)
    requires Inv(a) && i <= |a.status| && Keeps(a, callee, m0, value)
    requires forall r :: 0 <= r < i ==> a.status[r] == None
    ensures Keeps(SpillFrom(a, i), callee, m0, value)
    decreases |a.status| - i
  {
    hide Keeps;
    if i < |a.status| {
      if a.status[i] == None {
        SpillFromKeeps(a, i + 1, callee, m0, value);
      } else {
        assert StatusAt(a, i) && RegAt(a, a.status[i].value);
        SpillInv(a, a.status[i].value);
        SpillKeeps(a, a.status[i].value, callee, m0, value);
        SpillFromKeeps(Spill(a, a.status[i].value), i + 1, callee, m0, value);
      }
    }
  }

  /** With all registers free, every variable is in its slot. */
  lemma {:induction false} NothingResident(a: Alloc)
    requires Inv(a) && forall r :: 0 <= r < |a.status| ==> a.status[r] == None
    ensures a.lru == [] && forall v: nat :: v < |a.reg| ==> a.reg[v] == -1 && 1 <= a.pos[v] <= a.frame
  {
    assert a.lru != [] ==> a.lru[0] in a.lru;
    forall v: nat | v < |a.reg|
      ensures a.reg[v] == -1 && 1 <= a.pos[v] <= a.frame
    {
      assert RegAt(a, v) && SlotAt(a, v);
    }
  }

  // ---------------------------------------------------------------- function calls

  /** One argument goes to register r: loaded from its slot, or moved when it was already loaded as an
      earlier argument. */
  function LoadArg(a: Alloc, v: Var, r: int): Alloc
    requires v < |a.reg| && v < |a.pos| && -1 <= a.reg[v] < 10 && 0 <= r < 10
  {
    if a.reg[v] == -1 then a.(reg := a.reg[v := r], code := a.code + [LoadSlot(Real(r), a.pos[v])])
    else a.(code := a.code + [MoveReg(Real(a.reg[v]), Real(r))])
  }

  ghost predicate CanLoadVar(a: Alloc, v: Var) {
    v < |a.reg| && v < |a.pos| && -1 <= a.reg[v] < 10
  }

  ghost predicate CanLoad(a: Alloc, args: seq<Var>) {
    |args| <= 6 && forall i :: 0 <= i < |args| ==> CanLoadVar(a, args[i])
  }

  /** The arguments from number i on go to their registers. */
  function LoadArgs(a: Alloc, args: seq<Var>, i: nat): (b: Alloc)
    requires i <= |args| && CanLoad(a, args)
    decreases |args| - i
  {
    if i == |args| then a else
      assert CanLoadVar(a, args[i]);
      LoadStays(a, args, i);
      LoadArgs(LoadArg(a, args[i], ARG_REGS[i]), args, i + 1)
  }

  lemma {:induction false} LoadStays(a: Alloc, args: seq<Var>, i: nat)
    requires i < |args| && CanLoad(a, args) && CanLoadVar(a, args[i])
    ensures CanLoad(LoadArg(a, args[i], ARG_REGS[i]), args)
  {
    forall j | 0 <= j < |args|
      ensures CanLoadVar(LoadArg(a, args[i], ARG_REGS[i]), args[j])
    {
      assert CanLoadVar(a, args[j]);
    }
  }

  /** All arguments are known variables, and there are at most six of them. */
  ghost predicate Known(args: seq<Var>, n: nat) {
    |args| <= 6 && forall i :: 0 <= i < |args| ==> args[i] < n
  }

  /** No argument is regarded as being in a register any more. */
  function FreeArgs(reg: seq<int>, args: seq<Var>): (r: seq<int>)
    ensures |r| == |reg|
    ensures forall v :: 0 <= v < |reg| ==> r[v] == if v in args then -1 else reg[v]
    decreases args
  {
    if args == [] then reg
    else FreeArgs(if args[0] < |reg| then reg[args[0] := -1] else reg, args[1..])
  }

  /** The code up to the call, and the state behind it. */
  function BeforeCall(a: Alloc, args: seq<Var>): Alloc
    requires Inv(a) && Known(args, |a.reg|)
  {
    var s := SpillFrom(a, 0);
    NothingResident(s);
    LoadArgs(s, args, 0)
  }

  function AfterCall(a: Alloc, args: seq<Var>): Alloc
    requires Inv(a) && Known(args, |a.reg|)
  {
    var b := BeforeCall(a, args);
    b.(reg := FreeArgs(b.reg, args), code := b.code + [CallLabel])
  }

  /** Argument j is in its register. */
  ghost predicate ArgIn(args: seq<Var>, j: nat, m: Machine, value: seq<int>) {
    j < |args| && j < 6 && args[j] < |value| && Read(m.regs, Real(ARG_REGS[j])) == value[args[j]]
  }

  ghost predicate ArgsIn(args: seq<Var>, m: Machine, value: seq<int>) {
    forall j: nat :: j < |args| ==> ArgIn(args, j, m, value)
  }

  /** v is regarded as being in no register, or in that of argument j, which it is. */
  ghost predicate FreeOrArg(b: Alloc, args: seq<Var>, i: nat, v: Var) {
    v < |b.reg| && (b.reg[v] == -1 || exists j: nat :: j < i && j < |args| && j < 6 && args[j] == v && b.reg[v] == ARG_REGS[j])
  }

  /** The first i arguments are in their registers, memory is as it was, and nothing else is regarded as
      being in a register. */
  ghost predicate ArgsLoaded(s: Alloc, b: Alloc, args: seq<Var>, i: nat, m0: Machine, m: Machine, value: seq<int>) {
    && b == s.(reg := b.reg, code := b.code) && |b.reg| == |s.reg| && m.mem == m0.mem
    && (forall j: nat :: j < i ==> ArgIn(args, j, m, value))
    && (forall v: nat :: v < |b.reg| ==> FreeOrArg(b, args, i, v))
  }

  lemma {:induction false} ArgLoaded(s: Alloc, b: Alloc, args: seq<Var>, i: nat, m0: Machine, callee: Callee, start: Machine, value: seq<int>)
    requires i < |args| && Known(args, |value|) && |s.reg| == |s.pos| == |value|
    requires ArgsLoaded(s, b, args, i, m0, ExecCode(callee, b.code, start), value) && CanLoadVar(b, args[i])
    requires Read(m0.mem, s.pos[args[i]]) == value[args[i]]
    ensures var b' := LoadArg(b, args[i], ARG_REGS[i]);
      ArgsLoaded(s, b', args, i + 1, m0, ExecCode(callee, b'.code, start), value)
  {
    hide ExecCode, Real;
    var v, r := args[i], ARG_REGS[i];
    var b' := LoadArg(b, v, r);
    var m, m' := ExecCode(callee, b.code, start), ExecCode(callee, b'.code, start);
    ArgExecuted(b, v, r, callee, start);
    assert Read(m'.regs, Real(r)) == value[v] by {
      assert FreeOrArg(b, args, i, v);
      if b.reg[v] != -1 {
        var j: nat :| j < i && j < |args| && j < 6 && args[j] == v && b.reg[v] == ARG_REGS[j];
        assert ArgIn(args, j, m, value);
      }
    }
    forall j: nat | j < i + 1
      ensures ArgIn(args, j, m', value)
    {
      if j < i {
        assert ArgIn(args, j, m, value);
        ArgRegsDiffer(i, j);
      }
    }
    var i' := i + 1;
    forall w: nat | w < |b'.reg|
      ensures FreeOrArg(b', args, i', w)
    {
      assert FreeOrArg(b, args, i, w);
      if w == v && b.reg[v] == -1 {
        assert args[i] == w && b'.reg[w] == ARG_REGS[i];
      }
    }
  }

  lemma {:induction false} ArgExecuted(b: Alloc, v: Var, r: int, callee: Callee, start: Machine)
    requires v < |b.reg| && v < |b.pos| && -1 <= b.reg[v] < 10 && 0 <= r < 10
    ensures var m, m' := ExecCode(callee, b.code, start), ExecCode(callee, LoadArg(b, v, r).code, start);
      && m'.mem == m.mem
      && m'.regs == m.regs[Real(r) := if b.reg[v] == -1 then Read(m.mem, b.pos[v]) else Read(m.regs, Real(b.reg[v]))]
  {
    ExecLast(callee, b.code, if b.reg[v] == -1 then LoadSlot(Real(r), b.pos[v]) else MoveReg(Real(b.reg[v]), Real(r)), start);
  }

  lemma {:induction false} ArgRegsDiffer(i: nat, j: nat)
    requires i < 6 && j < 6 && i != j
    ensures Real(ARG_REGS[i]) != Real(ARG_REGS[j])
  {
  }

  lemma {:induction false} AllArgsLoaded(s: Alloc, b: Alloc, args: seq<Var>, i: nat, m0: Machine, callee: Callee,
                          start: Machine, value: seq<int>)
    requires i <= |args| && Known(args, |value|) && |s.reg| == |s.pos| == |value|
    requires ArgsLoaded(s, b, args, i, m0, ExecCode(callee, b.code, start), value) && CanLoad(b, args)
    requires forall v: nat :: v < |value| ==> Read(m0.mem, s.pos[v]) == value[v]
    ensures var b' := LoadArgs(b, args, i);
      ArgsLoaded(s, b', args, |args|, m0, ExecCode(callee, b'.code, start), value)
    decreases |args| - i
  {
    hide ExecCode, ArgsLoaded, Real;
    if i < |args| {
      assert CanLoadVar(b, args[i]);
      LoadStays(b, args, i);
      ArgLoaded(s, b, args, i, m0, callee, start, value);
      AllArgsLoaded(s, LoadArg(b, args[i], ARG_REGS[i]), args, i + 1, m0, callee, start, value);
    }
  }

  lemma {:induction false} SpilledKeeps(a: Alloc, callee: Callee, start: Machine, value: seq<int>)
    requires Inv(a) && Keeps(a, callee, start, value)
    ensures var s := SpillFrom(a, 0); var m := ExecCode(callee, s.code, start);
      && |s.reg| == |s.pos| == |value|
      && (forall v: nat :: v < |value| ==> s.reg[v] == -1 && 1 <= s.pos[v] <= s.frame && Read(m.mem, s.pos[v]) == value[v])
  {
    SpillFromKeeps(a, 0, callee, start, value);
    var s := SpillFrom(a, 0);
    NothingResident(s);
    var m := ExecCode(callee, s.code, start);
    forall v: nat | v < |value|
      ensures Read(m.mem, s.pos[v]) == value[v]
    {
      assert Lookup(s, m, v) == value[v];
    }
  }

  lemma {:induction false} NoArgsYet(s: Alloc, args: seq<Var>, m: Machine, value: seq<int>)
    requires Known(args, |s.reg|) && |s.reg| == |s.pos| && forall v: nat :: v < |s.reg| ==> s.reg[v] == -1
    ensures ArgsLoaded(s, s, args, 0, m, m, value) && CanLoad(s, args)
  {
  }

  /** Right before the call every argument is in the register its position prescribes. */
  lemma {:induction false} ArgumentsInPlace(a: Alloc, args: seq<Var>, callee: Callee, start: Machine, value: seq<int>)
    requires Inv(a) && Known(args, |a.reg|) && Keeps(a, callee, start, value)
    ensures var b := BeforeCall(a, args); var m := ExecCode(callee, b.code, start);
      && ArgsIn(args, m, value)
      && (forall i: nat :: i < |args| ==> args[i] < |value| && Read(m.regs, [7, 6, 2, 1, 8, 9][i]) == value[args[i]])
      && ArgsLoaded(SpillFrom(a, 0), b, args, |args|, ExecCode(callee, SpillFrom(a, 0).code, start), m, value)
  {
    hide ExecCode, Keeps, Inv, Real;
    SpilledKeeps(a, callee, start, value);
    var s := SpillFrom(a, 0);
    NoArgsYet(s, args, ExecCode(callee, s.code, start), value);
    AllArgsLoaded(s, s, args, 0, ExecCode(callee, s.code, start), callee, start, value);
    ArgsInAbiRegisters(args, ExecCode(callee, BeforeCall(a, args).code, start), value);
  }

  lemma {:induction false} ArgsInAbiRegisters(args: seq<Var>, m: Machine, value: seq<int>)
    requires ArgsIn(args, m, value) && |args| <= 6
    ensures forall i: nat :: i < |args| ==> args[i] < |value| && Read(m.regs, [7, 6, 2, 1, 8, 9][i]) == value[args[i]]
  {
    forall i: nat | i < |args|
      ensures args[i] < |value| && Read(m.regs, [7, 6, 2, 1, 8, 9][i]) == value[args[i]]
    {
      assert ArgIn(args, i, m, value);
      ArgumentRegisters(i);
    }
  }

  /** Afterwards nothing is regarded as being in a register. */
  lemma {:induction false} ArgsFreed(s: Alloc, b: Alloc, args: seq<Var>, m0: Machine, m: Machine, value: seq<int>)
    requires ArgsLoaded(s, b, args, |args|, m0, m, value) && forall v: nat :: v < |s.reg| ==> s.reg[v] == -1
    ensures FreeArgs(b.reg, args) == s.reg
  {
    var r := FreeArgs(b.reg, args);
    forall v: nat | v < |s.reg|
      ensures r[v] == s.reg[v]
    {
      assert FreeOrArg(b, args, |args|, v);
    }
  }

  /** A call leaves all registers free and every variable with its value in its slot. */
  lemma {:induction false} CallKeeps(a: Alloc, args: seq<Var>, callee: Callee, start: Machine, value: seq<int>)
    requires Inv(a) && Known(args, |a.reg|) && Keeps(a, callee, start, value)
    ensures var c := AfterCall(a, args);
      && c == SpillFrom(a, 0).(code := c.code) && Inv(c) && Keeps(c, callee, start, value)
      && (forall r :: 0 <= r < |c.status| ==> c.status[r] == None) && c.lru == []
  {
    hide Real, LoadArgs, SpillFrom, RegsMatch, SlotsApart, LruResident, FreeArgs;
    ArgumentsInPlace(a, args, callee, start, value);
    SpilledKeeps(a, callee, start, value);
    var s, b, c := SpillFrom(a, 0), BeforeCall(a, args), AfterCall(a, args);
    ArgsFreed(s, b, args, ExecCode(callee, s.code, start), ExecCode(callee, b.code, start), value);
    SameShape(s, c);
    NothingResident(c);
    ExecLast(callee, b.code, CallLabel, start);
    var m := ExecCode(callee, c.code, start);
    assert m.mem == ExecCode(callee, s.code, start).mem;
  }

  // ---------------------------------------------------------------- single steps of the operations

  /** Gives v a slot if it has none. */
  function WithSlot(a: Alloc, v: Var): (b: Alloc)
    requires v < |a.pos|
  {
    if a.pos[v] < 0 then a.(pos := a.pos[v := a.frame + 1], frame := a.frame + 1) else a
  }

  function Released(a: Alloc, v: Var): (b: Alloc)
    requires v < |a.reg| && 0 <= a.reg[v] < |a.status|
  {
    a.(status := a.status[a.reg[v] := None], reg := a.reg[v := -1])
  }

  lemma {:induction false} CanSpill(a: Alloc, v: Var)
    requires Inv(a) && Resident(a, v)
    ensures RegAt(a, v) && 0 <= a.reg[v] < |a.status| <= 10 && |a.reg| == |a.pos| && Distinct(a.lru)
  {
    assert RegAt(a, v);
  }

  lemma {:induction false} SpillFrees(a: Alloc, v: Var)
    requires Inv(a) && Resident(a, v)
    ensures RegAt(a, v) && Spill(a, v).status[a.reg[v]] == None && !Resident(Spill(a, v), v)
  {
    assert RegAt(a, v);
  }

  lemma {:induction false} NewIsNotListed(a: Alloc)
    requires Inv(a)
    ensures |a.reg| !in a.lru
  {
    assert !Resident(a, |a.reg|);
  }

  ghost predicate FreeBelow(status: seq<Option<Var>>, i: nat) {
    i <= |status| && forall r :: 0 <= r < i ==> status[r] == None
  }

  lemma {:induction false} SpillKeepsFree(a: Alloc, v: Var, i: nat)
    requires Inv(a) && i < |a.status| && a.status[i] == Some(v) && FreeBelow(a.status, i)
    ensures v < |a.reg| && a.reg[v] == i && Resident(a, v) && RegAt(a, v)
    ensures Inv(Spill(a, v)) && FreeBelow(Spill(a, v).status, i + 1) && SpillFrom(Spill(a, v), i + 1) == SpillFrom(a, i)
  {
    assert StatusAt(a, i);
    assert RegAt(a, v);
    SpillInv(a, v);
  }

  lemma {:induction false} InRegister(a: Alloc, v: Var)
    requires Inv(a) && v < |a.reg|
    ensures a.reg[v] < |a.status|
  {
    assert RegAt(a, v);
  }

  lemma {:induction false} OrderRef(a: Alloc, uses: seq<Var>, v: Var)
    requires Inv(a) && v < |a.reg| && InUseOrder(a.lru, uses)
    ensures InUseOrder(AfterRef(a, v).lru, uses + [v])
  {
    if a.reg[v] >= 0 {
      OrderBumped(a, uses, v);
    } else {
      AllocateOthers(a, v);
      var b := WithFreeReg(a).0;
      assert InUseOrder(b.lru, uses) by { OrderWithout(a.lru, uses, if a.lru == [] then 0 else a.lru[0]); }
      assert v !in b.lru by { assert !Resident(b, v); }
      OrderUsed(b.lru, uses, v);
    }
  }

  lemma {:induction false} FreeOne(reg: seq<int>, args: seq<Var>)
    requires args != [] && args[0] < |reg|
    ensures FreeArgs(reg, args) == FreeArgs(reg[args[0] := -1], args[1..])
  {
  }

  lemma {:induction false} FreeNone(reg: seq<int>)
    ensures FreeArgs(reg, []) == reg
  {
  }

  /** The registers of the arguments from number n on are free. */
  ghost predicate ArgRegsFree(status: seq<Option<Var>>, n: nat) {
    forall i :: n <= i < 6 && ARG_REGS[i] < |status| ==> status[ARG_REGS[i]] == None
  }

  lemma {:induction false} NextArgReg(a: Alloc, i: nat)
    requires |a.status| >= 7 && ArgRegsFree(a.status, i)
    ensures i < 6 ==> a.status[ARG_REGS[i]] == None && ArgRegsFree(WithNewVar(a, ARG_REGS[i]).status, i + 1)
    ensures i >= 6 ==> ArgRegsFree(a.status, i + 1)
  {
  }
}
