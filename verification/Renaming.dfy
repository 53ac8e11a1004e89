/** The last step of SSA conversion: a walk over the dominator tree with one value stack per register that
    replaces loads, unlinks loads and assigns, and fills the phis of successors. */
module Renaming {
  import opened Dominators
  import opened IR
  import opened SsaSpec
  import opened SsaMeaning

  // ---------------------------------------------------------------- the code midway

  /** What v has become when the first prog[x] instructions of every block x have been renamed. */
  ghost function Substituted(p: Problem, prog: seq<nat>, v: Value): Value
    requires Shape(p) && |prog| == |p.code|
  {
    if IsLoad(p.code, v) && v.pos < prog[v.block] then
      match Reach(p, v.block, v.pos, p.code[v.block][v.pos].reg)
      case Some(w) => w
      case None => Const(0)
    else v
  }

  ghost function SubstitutedInst(p: Problem, prog: seq<nat>, inst: Inst): Inst
    requires Shape(p) && |prog| == |p.code|
  {
    match inst
    case Assign(r, v) => Assign(r, Substituted(p, prog, v))
    case Binary(op, x, y) => Binary(op, Substituted(p, prog, x), Substituted(p, prog, y))
    case JumpCond(s, t, v) => JumpCond(s, t, Substituted(p, prog, v))
    case i => i
  }

  /** The instruction objects when renaming has got as far as prog. */
  ghost predicate SlotsAt(p: Problem, prog: seq<nat>, slots: seq<seq<Slot>>)
    requires Shape(p) && |prog| == |p.code|
  {
    && |slots| == |p.code|
    && (forall b :: 0 <= b < |p.code| ==> |slots[b]| == |p.code[b]| && prog[b] <= |p.code[b]|)
    && forall b, k :: 0 <= b < |p.code| && 0 <= k < |p.code[b]| ==>
      slots[b][k] == Slot(!(p.code[b][k].IsLoadAssign() && k < prog[b]), SubstitutedInst(p, prog, p.code[b][k]))
  }

  /** Every slot with from replaced by to. */
  function ReplaceIn(slots: seq<seq<Slot>>, from: Value, to: Value): (r: seq<seq<Slot>>)
    ensures |r| == |slots| && forall b :: 0 <= b < |r| ==> |r[b]| == |slots[b]|
    ensures forall b, k :: 0 <= b < |r| && 0 <= k < |r[b]| ==>
      r[b][k] == slots[b][k].(inst := slots[b][k].inst.Replace(from, to))
  {
    seq(|slots|, b requires 0 <= b < |slots| =>
      seq(|slots[b]|, k requires 0 <= k < |slots[b]| => slots[b][k].(inst := slots[b][k].inst.Replace(from, to))))
  }

  function ReplaceInPairs(pairs: seq<(nat, Value)>, from: Value, to: Value): (r: seq<(nat, Value)>)
    ensures |r| == |pairs|
    ensures (forall i :: 0 <= i < |pairs| ==> pairs[i].1 != from) ==> r == pairs
  {
    seq(|pairs|, i requires 0 <= i < |pairs| => (pairs[i].0, if pairs[i].1 == from then to else pairs[i].1))
  }

  predicate PairsName(phis: seq<Phi>, v: Value) {
    exists i, j :: 0 <= i < |phis| && 0 <= j < |phis[i].pairs| && phis[i].pairs[j].1 == v
  }

  function ReplaceInPhis(phis: seq<Phi>, from: Value, to: Value): (r: seq<Phi>)
    ensures |r| == |phis| && (!PairsName(phis, from) ==> r == phis)
  {
    seq(|phis|, i requires 0 <= i < |phis| => phis[i].(pairs := ReplaceInPairs(phis[i].pairs, from, to)))
  }

  function ReplaceInAll(phis: seq<seq<Phi>>, from: Value, to: Value): (r: seq<seq<Phi>>) {
    seq(|phis|, b requires 0 <= b < |phis| => ReplaceInPhis(phis[b], from, to))
  }

  lemma {:induction false} NothingReplaced(phis: seq<seq<Phi>>, from: Value, to: Value)
    requires forall s :: 0 <= s < |phis| ==> !PairsName(phis[s], from)
    ensures ReplaceInAll(phis, from, to) == phis
  {
  }

  /** Instruction k of block b taken off its list. */
  function Unlinked(slots: seq<seq<Slot>>, b: nat, k: nat): seq<seq<Slot>>
    requires b < |slots| && k < |slots[b]|
  {
    slots[b := slots[b][k := slots[b][k].(linked := false)]]
  }

  lemma {:induction false} SubstitutedNext(p: Problem, prog: seq<nat>, b: nat, k: nat, v: Value)
    requires Ready(p) && |prog| == |p.code| && b < |p.code| && prog[b] == k < |p.code[b]|
    requires p.code[b][k].Load? && Reach(p, b, k, p.code[b][k].reg).Some?
    ensures Substituted(p, prog[b := k + 1], v) ==
            if Substituted(p, prog, v) == Result(b, k) then Reach(p, b, k, p.code[b][k].reg).value
            else Substituted(p, prog, v)
  {
    if IsLoad(p.code, v) {
      ReachBefore(p, v.block, v.pos, p.code[v.block][v.pos].reg);
    }
  }

  lemma {:induction false} SubstitutedSame(p: Problem, prog: seq<nat>, b: nat, k: nat, v: Value)
    requires Ready(p) && |prog| == |p.code| && b < |p.code| && prog[b] == k < |p.code[b]| && !p.code[b][k].Load?
    ensures Substituted(p, prog[b := k + 1], v) == Substituted(p, prog, v)
  {
  }

  /** Replacing the uses of a load and unlinking it is one step of progress. */
  lemma {:induction false} LoadRenamed(p: Problem, prog: seq<nat>, slots: seq<seq<Slot>>, b: nat, k: nat,
                                       slots': seq<seq<Slot>>)
    requires Ready(p) && |prog| == |p.code| && SlotsAt(p, prog, slots)
    requires b < |p.code| && prog[b] == k < |p.code[b]| && p.code[b][k].Load?
    requires Reach(p, b, k, p.code[b][k].reg).Some?
    requires var r := ReplaceIn(slots, Result(b, k), Reach(p, b, k, p.code[b][k].reg).value);
      slots' == r[b := r[b][k := r[b][k].(linked := false)]]
    ensures SlotsAt(p, prog[b := k + 1], slots')
  {
    var prog' := prog[b := k + 1];
    forall x, j | 0 <= x < |p.code| && 0 <= j < |p.code[x]|
      ensures slots'[x][j] == Slot(!(p.code[x][j].IsLoadAssign() && j < prog'[x]), SubstitutedInst(p, prog', p.code[x][j]))
    {
      match p.code[x][j]
      case Assign(_, v) => SubstitutedNext(p, prog, b, k, v);
      case Binary(_, v, w) => SubstitutedNext(p, prog, b, k, v); SubstitutedNext(p, prog, b, k, w);
      case JumpCond(_, _, v) => SubstitutedNext(p, prog, b, k, v);
      case _ =>
    }
  }

  /** Unlinking an assign, or passing over any other instruction, is one step of progress too. */
  lemma {:induction false} OtherRenamed(p: Problem, prog: seq<nat>, slots: seq<seq<Slot>>, b: nat, k: nat,
                                        slots': seq<seq<Slot>>)
    requires Ready(p) && |prog| == |p.code| && SlotsAt(p, prog, slots)
    requires b < |p.code| && prog[b] == k < |p.code[b]| && !p.code[b][k].Load?
    requires slots' == if p.code[b][k].Assign? then slots[b := slots[b][k := slots[b][k].(linked := false)]] else slots
    ensures SlotsAt(p, prog[b := k + 1], slots')
  {
    var prog' := prog[b := k + 1];
    forall x, j | 0 <= x < |p.code| && 0 <= j < |p.code[x]|
      ensures slots'[x][j] == Slot(!(p.code[x][j].IsLoadAssign() && j < prog'[x]), SubstitutedInst(p, prog', p.code[x][j]))
    {
      match p.code[x][j]
      case Assign(_, v) => SubstitutedSame(p, prog, b, k, v);
      case Binary(_, v, w) => SubstitutedSame(p, prog, b, k, v); SubstitutedSame(p, prog, b, k, w);
      case JumpCond(_, _, v) => SubstitutedSame(p, prog, b, k, v);
      case _ =>
    }
  }

  /** The blocks above b on the dominator tree have been renamed completely. */
  ghost predicate AboveRenamed(p: Problem, prog: seq<nat>, b: nat)
    requires Shape(p) && |prog| == |p.code|
  {
    forall x: nat :: x < |p.code| && On(p.doms, b, x) && x != b ==> prog[x] == |p.code[x]|
  }

  /** When its turn comes, the operand of an instruction already is what it will be in the end. */
  lemma {:induction false} OperandSettled(p: Problem, prog: seq<nat>, b: nat, k: nat, v: Value)
    requires Ready(p) && |prog| == |p.code| && b < |p.code| && k < |p.code[b]| && prog[b] >= k
    requires AboveRenamed(p, prog, b) && p.code[b][k].Uses(v)
    ensures Substituted(p, prog, v) == Resolve(p, b, k, v)
  {
    OperandBefore(p, b, k, v);
    if v.Result? {
      assert DefinedBefore(p.code, p.g, v, b, k);
      if v.block != b {
        assert On(p.doms, b, v.block);
      }
    }
  }

  /** Renaming everything gives exactly the resolved program. */
  lemma {:induction false} AllRenamed(p: Problem, prog: seq<nat>, slots: seq<seq<Slot>>)
    requires Ready(p) && |prog| == |p.code| && SlotsAt(p, prog, slots)
    requires forall b :: 0 <= b < |p.code| ==> prog[b] == |p.code[b]|
    ensures forall b :: 0 <= b < |p.code| ==> SlotsOf(p, b, slots[b])
  {
    forall b, k | 0 <= b < |p.code| && 0 <= k < |p.code[b]|
      ensures SubstitutedInst(p, prog, p.code[b][k]) == Rewritten(p, b, k)
    {
      match p.code[b][k]
      case Assign(_, v) => OperandSettled(p, prog, b, k, v);
      case Binary(_, v, w) => OperandSettled(p, prog, b, k, v); OperandSettled(p, prog, b, k, w);
      case JumpCond(_, _, v) => OperandSettled(p, prog, b, k, v);
      case _ =>
    }
  }

  // ---------------------------------------------------------------- the stacks

  type Stacks = map<nat, seq<Value>>

  function Top(s: seq<Value>): Option<Value> {
    if s == [] then None else Some(s[|s|-1])
  }

  /** Every register of the program has a stack. */
  ghost predicate HasStacks(p: Problem, keys: set<nat>) {
    && (forall b, k :: 0 <= b < |p.code| && 0 <= k < |p.code[b]| && p.code[b][k].IsLoadAssign() ==> p.code[b][k].reg in keys)
    && (forall b, r :: 0 <= b < |p.phi| && r in p.phi[b] ==> r in keys)
  }

  /** The top of every stack is the nearest definition of its register. */
  ghost predicate TopsAt(p: Problem, stacks: Stacks, b: nat, k: nat)
    requires Shape(p) && b < |p.code| && k <= |p.code[b]|
  {
    forall r :: r in stacks ==> Top(stacks[r]) == Reach(p, b, k, r)
  }

  /** The tops when the walk comes to block b from its parent. */
  ghost predicate TopsOnEntry(p: Problem, stacks: Stacks, b: nat)
    requires Shape(p) && b < |p.code|
  {
    forall r :: r in stacks ==>
      Top(stacks[r]) == if b == |p.code| - 1 then None else Reach(p, p.doms[b], |p.code[p.doms[b]]|, r)
  }

  /** What block b pushes for register r with its first k instructions. */
  ghost function Pushed(p: Problem, b: nat, k: nat, r: nat): seq<Value>
    requires Shape(p) && b < |p.code| && k <= |p.code[b]|
  {
    if k == 0 then (if r in p.phi[b] then [PhiValue(b, r)] else [])
    else match p.code[b][k-1]
      case Assign(r', v) => if r' == r then Pushed(p, b, k - 1, r) + [Resolve(p, b, k - 1, v)] else Pushed(p, b, k - 1, r)
      case _ => Pushed(p, b, k - 1, r)
  }

  /** Every stack is what it was on entry to b plus what b has pushed so far. */
  ghost predicate Grown(p: Problem, base: Stacks, stacks: Stacks, b: nat, k: nat)
    requires Shape(p) && b < |p.code| && k <= |p.code[b]|
  {
    && stacks.Keys == base.Keys
    && forall r :: r in base ==> stacks[r] == base[r] + Pushed(p, b, k, r)
  }

  lemma {:induction false} PushedTop(p: Problem, base: seq<Value>, b: nat, k: nat, r: nat)
    requires Shape(p) && b < |p.code| && k <= |p.code[b]|
    requires Top(base) == if b == |p.code| - 1 then None else Reach(p, p.doms[b], |p.code[p.doms[b]]|, r)
    ensures Top(base + Pushed(p, b, k, r)) == Reach(p, b, k, r)
  {
    if k == 0 {
      if r !in p.phi[b] {
        assert base + Pushed(p, b, k, r) == base;
      }
    } else if !(p.code[b][k-1].Assign? && p.code[b][k-1].reg == r) {
      PushedTop(p, base, b, k - 1, r);
    }
  }

  lemma {:induction false} GrownTops(p: Problem, base: Stacks, stacks: Stacks, b: nat, k: nat)
    requires Shape(p) && b < |p.code| && k <= |p.code[b]|
    requires TopsOnEntry(p, base, b) && Grown(p, base, stacks, b, k)
    ensures TopsAt(p, stacks, b, k)
  {
    forall r | r in stacks
      ensures Top(stacks[r]) == Reach(p, b, k, r)
    {
      PushedTop(p, base[r], b, k, r);
    }
  }

  // ---------------------------------------------------------------- the pairs of the phis

  /** Block q has handed its values to the i-th phi of block s: q is done, or it is the current block b,
      which has served its first ci successors and the first cj phis of the next one. */
  ghost predicate Served(p: Problem, done: set<nat>, b: nat, ci: nat, cj: nat, q: nat, s: nat, i: nat)
    requires q < |p.code|
  {
    || (q in done && s in Successors(p.code[q]))
    || (q == b && exists t :: 0 <= t <= ci && t < |Successors(p.code[b])| && Successors(p.code[b])[t] == s && (t < ci || i < cj))
  }

  ghost predicate PairsServed(p: Problem, done: set<nat>, b: nat, ci: nat, cj: nat, s: nat, i: nat, phi: Phi)
    requires Shape(p)
  {
    && (forall q: nat, w: Value :: (q, w) in phi.pairs <==>
          q < |p.code| && Served(p, done, b, ci, cj, q, s, i) && Reach(p, q, |p.code[q]|, phi.reg) == Some(w))
    && (forall j, k :: 0 <= j < k < |phi.pairs| ==> phi.pairs[j].0 != phi.pairs[k].0)
  }

  ghost predicate PairsAt(p: Problem, phis: seq<seq<Phi>>, done: set<nat>, b: nat, ci: nat, cj: nat)
    requires Shape(p)
  {
    && |phis| == |p.code|
    && forall s, i :: 0 <= s < |phis| && 0 <= i < |phis[s]| ==> PairsServed(p, done, b, ci, cj, s, i, phis[s][i])
  }

  /** The phis that were placed, all of them still linked. */
  ghost predicate PhiRegs(p: Problem, phis: seq<seq<Phi>>) {
    && |phis| == |p.phi|
    && (forall s :: 0 <= s < |phis| ==> forall r: nat :: r in p.phi[s] <==> exists i :: 0 <= i < |phis[s]| && phis[s][i].reg == r)
    && (forall s, i, j :: 0 <= s < |phis| && 0 <= i < j < |phis[s]| ==> phis[s][i].reg != phis[s][j].reg)
    && (forall s, i :: 0 <= s < |phis| && 0 <= i < |phis[s]| ==> phis[s][i].linked)
  }

  /** No pair ever names a load. */
  lemma {:induction false} PairsNameNoLoad(p: Problem, phis: seq<seq<Phi>>, done: set<nat>, b: nat, s: nat, v: Value)
    requires Ready(p) && PairsAt(p, phis, done, b, 0, 0) && s < |phis| && IsLoad(p.code, v)
    ensures !PairsName(phis[s], v)
  {
    if PairsName(phis[s], v) {
      var i, j :| 0 <= i < |phis[s]| && 0 <= j < |phis[s][i].pairs| && phis[s][i].pairs[j].1 == v;
      var phi := phis[s][i];
      assert PairsServed(p, done, b, 0, 0, s, i, phi);
      var q := phi.pairs[j].0;
      assert (q, v) in phi.pairs;
      ReachBefore(p, q, |p.code[q]|, phi.reg);
    }
  }

  function WithPair(phi: Phi, q: nat, w: Value): Phi {
    phi.(pairs := if (q, w) in phi.pairs then phi.pairs else phi.pairs + [(q, w)])
  }

  lemma {:induction false} PairServed(p: Problem, done: set<nat>, b: nat, ci: nat, cj: nat, s: nat, phi: Phi, phi': Phi)
    requires Ready(p) && b < |p.code| && b !in done && ci < |Successors(p.code[b])| && s == Successors(p.code[b])[ci]
    requires PairsServed(p, done, b, ci, cj, s, cj, phi)
    requires match Reach(p, b, |p.code[b]|, phi.reg)
             case Some(w) => phi' == WithPair(phi, b, w)
             case None => phi' == phi
    ensures PairsServed(p, done, b, ci, cj + 1, s, cj, phi')
  {
    assert Served(p, done, b, ci, cj + 1, b, s, cj);
    forall q: nat | q < |p.code| && q != b
      ensures Served(p, done, b, ci, cj + 1, q, s, cj) <==> Served(p, done, b, ci, cj, q, s, cj)
    {
    }
    var o := Reach(p, b, |p.code[b]|, phi.reg);
    if o.Some? && (b, o.value) !in phi.pairs {
      forall j | 0 <= j < |phi.pairs|
        ensures phi.pairs[j].0 != b
      {
        assert (phi.pairs[j].0, phi.pairs[j].1) in phi.pairs;
      }
    }
  }

  lemma {:induction false} OtherUnserved(p: Problem, done: set<nat>, b: nat, ci: nat, cj: nat, s: nat, i: nat, phi: Phi)
    requires Ready(p) && b < |p.code| && ci < |Successors(p.code[b])|
    requires s != Successors(p.code[b])[ci] || i != cj
    requires PairsServed(p, done, b, ci, cj, s, i, phi)
    ensures PairsServed(p, done, b, ci, cj + 1, s, i, phi)
  {
    forall q: nat | q < |p.code|
      ensures Served(p, done, b, ci, cj + 1, q, s, i) <==> Served(p, done, b, ci, cj, q, s, i)
    {
    }
  }

  /** One phi of one successor has been served. */
  lemma {:induction false} NextPhiServed(p: Problem, phis: seq<seq<Phi>>, done: set<nat>, b: nat, ci: nat, cj: nat,
                                         phis': seq<seq<Phi>>)
    requires Ready(p) && b < |p.code| && b !in done && ci < |Successors(p.code[b])|
    requires PairsAt(p, phis, done, b, ci, cj)
    requires Successors(p.code[b])[ci] < |phis| && cj < |phis[Successors(p.code[b])[ci]]|
    requires var s := Successors(p.code[b])[ci];
             match Reach(p, b, |p.code[b]|, phis[s][cj].reg)
             case Some(w) => phis' == phis[s := phis[s][cj := WithPair(phis[s][cj], b, w)]]
             case None => phis' == phis
    ensures PairsAt(p, phis', done, b, ci, cj + 1)
  {
    var s := Successors(p.code[b])[ci];
    forall x, i | 0 <= x < |phis'| && 0 <= i < |phis'[x]|
      ensures PairsServed(p, done, b, ci, cj + 1, x, i, phis'[x][i])
    {
      assert PairsServed(p, done, b, ci, cj, x, i, phis[x][i]);
      if x == s && i == cj {
        PairServed(p, done, b, ci, cj, s, phis[x][i], phis'[x][i]);
      } else {
        OtherUnserved(p, done, b, ci, cj, x, i, phis[x][i]);
      }
    }
  }

  /** Served up to the last phi of one successor means served up to the next successor. */
  lemma {:induction false} NextSuccessorServed(p: Problem, phis: seq<seq<Phi>>, done: set<nat>, b: nat, ci: nat)
    requires Ready(p) && b < |p.code| && ci < |Successors(p.code[b])| && Successors(p.code[b])[ci] < |phis|
    requires PairsAt(p, phis, done, b, ci, |phis[Successors(p.code[b])[ci]]|)
    ensures PairsAt(p, phis, done, b, ci + 1, 0)
  {
    var s := Successors(p.code[b])[ci];
    forall x, i | 0 <= x < |phis| && 0 <= i < |phis[x]|
      ensures PairsServed(p, done, b, ci + 1, 0, x, i, phis[x][i])
    {
      assert PairsServed(p, done, b, ci, |phis[s]|, x, i, phis[x][i]);
      forall q: nat | q < |p.code|
        ensures Served(p, done, b, ci + 1, 0, q, x, i) <==> Served(p, done, b, ci, |phis[s]|, q, x, i)
      {
      }
    }
  }

  /** A block all of whose successors are served is done. */
  lemma {:induction false} BlockServed(p: Problem, phis: seq<seq<Phi>>, done: set<nat>, b: nat, b': nat)
    requires Ready(p) && b < |p.code| && PairsAt(p, phis, done, b, |Successors(p.code[b])|, 0)
    ensures PairsAt(p, phis, done + {b}, b', 0, 0)
  {
    forall x, i | 0 <= x < |phis| && 0 <= i < |phis[x]|
      ensures PairsServed(p, done + {b}, b', 0, 0, x, i, phis[x][i])
    {
      assert PairsServed(p, done, b, |Successors(p.code[b])|, 0, x, i, phis[x][i]);
      forall q: nat | q < |p.code|
        ensures Served(p, done + {b}, b', 0, 0, q, x, i) <==> Served(p, done, b, |Successors(p.code[b])|, 0, q, x, i)
      {
      }
    }
  }

  lemma {:induction false} AllServed(p: Problem, phis: seq<seq<Phi>>, done: set<nat>)
    requires Ready(p) && PairsAt(p, phis, done, 0, 0, 0) && PhiRegs(p, phis)
    requires forall b: nat :: b < |p.code| ==> b in done
    ensures forall b :: 0 <= b < |p.code| ==> PhisOf(p, b, phis[b])
  {
    forall b, i | 0 <= b < |p.code| && 0 <= i < |phis[b]|
      ensures PairsOf(p, b, phis[b][i].reg, phis[b][i].pairs)
    {
      assert PairsServed(p, done, 0, 0, 0, b, i, phis[b][i]);
      forall q: nat | q < |p.code|
        ensures Served(p, done, 0, 0, 0, q, b, i) <==> b in Successors(p.code[q])
      {
      }
    }
  }

  // ---------------------------------------------------------------- successors after unlinking

  /** The blocks the last linked instruction refers to. */
  function LinkedTargets(slots: seq<Slot>): seq<nat> {
    if slots == [] then []
    else if slots[|slots|-1].linked then slots[|slots|-1].inst.Targets()
    else LinkedTargets(slots[..|slots|-1])
  }

  lemma {:induction false} NoTargets(slots: seq<Slot>)
    requires forall i :: 0 <= i < |slots| && slots[i].linked ==> !slots[i].inst.IsTerminator()
    ensures LinkedTargets(slots) == []
  {
    if slots != [] {
      NoTargets(slots[..|slots|-1]);
    }
  }

  /** Unlinking loads and assigns does not change the successors of a block. */
  lemma {:induction false} TargetsKept(p: Problem, prog: seq<nat>, slots: seq<seq<Slot>>, b: nat)
    requires Ready(p) && |prog| == |p.code| && SlotsAt(p, prog, slots) && b < |p.code|
    ensures LinkedTargets(slots[b]) == Successors(p.code[b])
  {
    var n := |p.code[b]|;
    if n > 0 && p.code[b][n-1].IsTerminator() {
      assert slots[b][n-1] == Slot(true, SubstitutedInst(p, prog, p.code[b][n-1]));
    } else {
      forall i | 0 <= i < n
        ensures !slots[b][i].inst.IsTerminator()
      {
        assert !p.code[b][i].IsTerminator();
      }
      NoTargets(slots[b]);
    }
  }

  lemma {:induction false} PairsRebased(p: Problem, phis: seq<seq<Phi>>, done: set<nat>, b: nat, b': nat)
    requires Shape(p) && PairsAt(p, phis, done, b, 0, 0)
    ensures PairsAt(p, phis, done, b', 0, 0)
  {
    forall x, i | 0 <= x < |phis| && 0 <= i < |phis[x]|
      ensures PairsServed(p, done, b', 0, 0, x, i, phis[x][i])
    {
      assert PairsServed(p, done, b, 0, 0, x, i, phis[x][i]);
      forall q: nat | q < |p.code|
        ensures Served(p, done, b', 0, 0, q, x, i) <==> Served(p, done, b, 0, 0, q, x, i)
      {
      }
    }
  }

  /** How often the first k instructions assign r. */
  function AssignCount(insts: seq<Inst>, k: nat, r: nat): nat
    requires k <= |insts|
  {
    if k == 0 then 0
    else AssignCount(insts, k - 1, r) + if insts[k-1].Assign? && insts[k-1].reg == r then 1 else 0
  }

  lemma {:induction false} PushedLength(p: Problem, b: nat, k: nat, r: nat)
    requires Shape(p) && b < |p.code| && k <= |p.code[b]|
    ensures |Pushed(p, b, k, r)| == (if r in p.phi[b] then 1 else 0) + AssignCount(p.code[b], k, r)
  {
    if k > 0 {
      PushedLength(p, b, k - 1, r);
    }
  }

  lemma {:induction false} CountMonotone(insts: seq<Inst>, j: nat, k: nat, r: nat)
    requires j <= k <= |insts|
    ensures AssignCount(insts, j, r) <= AssignCount(insts, k, r)
  {
    if j < k {
      CountMonotone(insts, j, k - 1, r);
    }
  }

  // ---------------------------------------------------------------- within one block

  /** In block b, entered with the stacks base: k instructions have been renamed. */
  ghost predicate Midway(p: Problem, prog: seq<nat>, done: set<nat>, base: Stacks, b: nat, k: nat,
                         slots: seq<seq<Slot>>, phis: seq<seq<Phi>>, stacks: Stacks) {
    && Ready(p) && |prog| == |p.code| && b < |p.code| && k <= |p.code[b]|
    && prog[b] == k && AboveRenamed(p, prog, b)
    && SlotsAt(p, prog, slots)
    && PhiRegs(p, phis) && PairsAt(p, phis, done, b, 0, 0)
    && HasStacks(p, stacks.Keys) && TopsOnEntry(p, base, b) && Grown(p, base, stacks, b, k)
  }

  /** At a load the top of its stack is the nearest definition, and no pair names the load. */
  lemma {:induction false} AtLoad(p: Problem, prog: seq<nat>, done: set<nat>, base: Stacks, b: nat, k: nat,
                                  slots: seq<seq<Slot>>, phis: seq<seq<Phi>>, stacks: Stacks)
    requires Midway(p, prog, done, base, b, k, slots, phis, stacks) && k < |p.code[b]| && p.code[b][k].Load?
    ensures slots[b][k].inst == p.code[b][k] && p.code[b][k].reg in stacks
    ensures Reach(p, b, k, p.code[b][k].reg) == Top(stacks[p.code[b][k].reg])
    ensures forall s :: 0 <= s < |phis| ==> !PairsName(phis[s], Result(b, k))
  {
    GrownTops(p, base, stacks, b, k);
    forall s | 0 <= s < |phis|
      ensures !PairsName(phis[s], Result(b, k))
    {
      PairsNameNoLoad(p, phis, done, b, s, Result(b, k));
    }
  }

  lemma {:induction false} AtOther(p: Problem, prog: seq<nat>, done: set<nat>, base: Stacks, b: nat, k: nat,
                                   slots: seq<seq<Slot>>, phis: seq<seq<Phi>>, stacks: Stacks)
    requires Midway(p, prog, done, base, b, k, slots, phis, stacks) && k < |p.code[b]| && !p.code[b][k].Load?
    ensures !slots[b][k].inst.Load?
    ensures slots[b][k].inst.Assign? <==> p.code[b][k].Assign?
    ensures p.code[b][k].Assign? ==> slots[b][k].inst.reg == p.code[b][k].reg && p.code[b][k].reg in stacks
    ensures p.code[b][k].Assign? ==> slots[b][k].inst.val == Resolve(p, b, k, p.code[b][k].val)
  {
    if p.code[b][k].Assign? {
      OperandSettled(p, prog, b, k, p.code[b][k].val);
    }
  }

  lemma {:induction false} TopIs(s: seq<Value>)
    ensures Top(s).Some? <==> s != []
    ensures s != [] ==> Top(s) == Some(s[|s|-1])
  {
  }

  lemma {:induction false} AboveKept(p: Problem, prog: seq<nat>, b: nat, k: nat)
    requires Shape(p) && |prog| == |p.code| && b < |p.code| && AboveRenamed(p, prog, b)
    ensures AboveRenamed(p, prog[b := k], b)
  {
  }

  lemma {:induction false} LoadStep(p: Problem, prog: seq<nat>, done: set<nat>, base: Stacks, b: nat, k: nat,
                                    slots: seq<seq<Slot>>, phis: seq<seq<Phi>>, stacks: Stacks, slots': seq<seq<Slot>>)
    requires Midway(p, prog, done, base, b, k, slots, phis, stacks) && k < |p.code[b]| && p.code[b][k].Load?
    requires Reach(p, b, k, p.code[b][k].reg).Some?
    requires var r := ReplaceIn(slots, Result(b, k), Reach(p, b, k, p.code[b][k].reg).value);
      slots' == Unlinked(r, b, k)
    ensures Midway(p, prog[b := k + 1], done, base, b, k + 1, slots', phis, stacks)
  {
    hide WellFormed, Exact, PairsAt, PhiRegs, SlotsAt, AboveRenamed, TopsOnEntry, HasStacks, Tree;
    LoadRenamed(p, prog, slots, b, k, slots');
    AboveKept(p, prog, b, k + 1);
  }

  lemma {:induction false} OtherStep(p: Problem, prog: seq<nat>, done: set<nat>, base: Stacks, b: nat, k: nat,
                                     slots: seq<seq<Slot>>, phis: seq<seq<Phi>>, stacks: Stacks,
                                     slots': seq<seq<Slot>>, stacks': Stacks)
    requires Midway(p, prog, done, base, b, k, slots, phis, stacks) && k < |p.code[b]| && !p.code[b][k].Load?
    requires slots' == if p.code[b][k].Assign? then Unlinked(slots, b, k) else slots
    requires p.code[b][k].Assign? ==> p.code[b][k].reg in stacks
    requires stacks' == if !p.code[b][k].Assign? then stacks else
      stacks[p.code[b][k].reg := stacks[p.code[b][k].reg] + [Resolve(p, b, k, p.code[b][k].val)]]
    ensures Midway(p, prog[b := k + 1], done, base, b, k + 1, slots', phis, stacks')
  {
    hide WellFormed, Exact, PairsAt, PhiRegs, SlotsAt, AboveRenamed, TopsOnEntry, HasStacks, Tree;
    OtherRenamed(p, prog, slots, b, k, slots');
    AboveKept(p, prog, b, k + 1);
    assert stacks'.Keys == stacks.Keys;
    NextGrown(p, base, stacks, b, k, stacks');
  }

  lemma {:induction false} NextGrown(p: Problem, base: Stacks, stacks: Stacks, b: nat, k: nat, stacks': Stacks)
    requires Shape(p) && b < |p.code| && k < |p.code[b]| && !p.code[b][k].Load? && Grown(p, base, stacks, b, k)
    requires p.code[b][k].Assign? ==> p.code[b][k].reg in stacks
    requires stacks' == if !p.code[b][k].Assign? then stacks else
      stacks[p.code[b][k].reg := stacks[p.code[b][k].reg] + [Resolve(p, b, k, p.code[b][k].val)]]
    ensures Grown(p, base, stacks', b, k + 1)
  {
  }

  /** The phis of a block that have been pushed when the first i are. */
  ghost predicate PhisPushed(base: Stacks, stacks: Stacks, phis: seq<Phi>, b: nat, i: nat)
    requires i <= |phis|
  {
    && stacks.Keys == base.Keys
    && forall r :: r in base ==>
      stacks[r] == (if exists j :: 0 <= j < i && phis[j].reg == r then base[r] + [PhiValue(b, r)] else base[r])
  }

  lemma {:induction false} PhiPushed(base: Stacks, stacks: Stacks, phis: seq<Phi>, b: nat, i: nat, stacks': Stacks)
    requires i < |phis| && PhisPushed(base, stacks, phis, b, i) && phis[i].reg in stacks
    requires forall j, k :: 0 <= j < k < |phis| ==> phis[j].reg != phis[k].reg
    requires stacks' == stacks[phis[i].reg := stacks[phis[i].reg] + [PhiValue(b, phis[i].reg)]]
    ensures PhisPushed(base, stacks', phis, b, i + 1)
  {
    forall r | r in base
      ensures stacks'[r] == if exists j :: 0 <= j < i + 1 && phis[j].reg == r then base[r] + [PhiValue(b, r)] else base[r]
    {
      assert (exists j :: 0 <= j < i + 1 && phis[j].reg == r) <==>
             ((exists j :: 0 <= j < i && phis[j].reg == r) || phis[i].reg == r);
    }
  }

  lemma {:induction false} AllPhisPushed(p: Problem, base: Stacks, stacks: Stacks, phis: seq<seq<Phi>>, b: nat)
    requires Shape(p) && PhiRegs(p, phis) && b < |p.code| && PhisPushed(base, stacks, phis[b], b, |phis[b]|)
    ensures Grown(p, base, stacks, b, 0)
  {
    forall r | r in base
      ensures stacks[r] == base[r] + Pushed(p, b, 0, r)
    {
      assert base[r] + [] == base[r];
    }
  }

  // ---------------------------------------------------------------- popping

  lemma {:induction false} PushedPrefix(p: Problem, b: nat, k: nat, r: nat)
    requires Shape(p) && b < |p.code| && k <= |p.code[b]|
    ensures Pushed(p, b, 0, r) <= Pushed(p, b, k, r)
  {
    if k > 0 {
      PushedPrefix(p, b, k - 1, r);
    }
  }

  /** From the stacks full one value has been popped for each of the first k instructions that assigns. */
  ghost predicate AssignsPopped(insts: seq<Inst>, full: Stacks, stacks: Stacks, k: nat)
    requires k <= |insts|
  {
    && stacks.Keys == full.Keys
    && forall r :: r in full ==>
      AssignCount(insts, k, r) <= |full[r]| && stacks[r] == full[r][..|full[r]| - AssignCount(insts, k, r)]
  }

  lemma {:induction false} AssignPopped(insts: seq<Inst>, full: Stacks, stacks: Stacks, k: nat, stacks': Stacks)
    requires k < |insts| && AssignsPopped(insts, full, stacks, k)
    requires forall r :: r in full ==> AssignCount(insts, |insts|, r) <= |full[r]|
    requires if !insts[k].Assign? then stacks' == stacks else
      insts[k].reg in full && (stacks[insts[k].reg] != [] ==>
        stacks' == stacks[insts[k].reg := stacks[insts[k].reg][..|stacks[insts[k].reg]| - 1]])
    ensures AssignsPopped(insts, full, stacks', k + 1)
    ensures insts[k].Assign? ==> stacks[insts[k].reg] != []
  {
    forall r | r in full
      ensures AssignCount(insts, k + 1, r) <= |full[r]|
    {
      CountMonotone(insts, k + 1, |insts|, r);
    }
  }

  /** When all assigns are popped only the phis are left above the stacks the block was entered with. */
  lemma {:induction false} PhisLeft(p: Problem, base: Stacks, full: Stacks, stacks: Stacks, b: nat)
    requires Shape(p) && b < |p.code| && Grown(p, base, full, b, |p.code[b]|)
    requires AssignsPopped(p.code[b], full, stacks, |p.code[b]|)
    ensures Grown(p, base, stacks, b, 0)
  {
    forall r | r in base
      ensures stacks[r] == base[r] + Pushed(p, b, 0, r)
    {
      var n := |p.code[b]|;
      PushedPrefix(p, b, n, r);
      PushedLength(p, b, n, r);
      PushedLength(p, b, 0, r);
      PrefixOfSum(base[r], Pushed(p, b, n, r), Pushed(p, b, 0, r));
    }
  }

  lemma {:induction false} PrefixOfSum(a: seq<Value>, b: seq<Value>, c: seq<Value>)
    requires c <= b
    ensures (a + b)[..|a| + |c|] == a + c
  {
  }

  lemma {:induction false} EnoughToPop(p: Problem, base: Stacks, full: Stacks, b: nat)
    requires Shape(p) && b < |p.code| && Grown(p, base, full, b, |p.code[b]|)
    ensures forall r :: r in full ==> AssignCount(p.code[b], |p.code[b]|, r) <= |full[r]|
    ensures AssignsPopped(p.code[b], full, full, 0)
  {
    forall r | r in full
      ensures AssignCount(p.code[b], |p.code[b]|, r) <= |full[r]| && full[r][..|full[r]|] == full[r]
    {
      PushedLength(p, b, |p.code[b]|, r);
    }
  }

  /** The first i phis of a block have been popped from the stacks full. */
  ghost predicate PhisPopped(full: Stacks, stacks: Stacks, phis: seq<Phi>, i: nat)
    requires i <= |phis|
  {
    && stacks.Keys == full.Keys
    && forall r :: r in full ==> if exists j :: 0 <= j < i && phis[j].reg == r
      then full[r] != [] && stacks[r] == full[r][..|full[r]|-1] else stacks[r] == full[r]
  }

  lemma {:induction false} PhiPopped(full: Stacks, stacks: Stacks, phis: seq<Phi>, i: nat, stacks': Stacks)
    requires i < |phis| && PhisPopped(full, stacks, phis, i) && phis[i].reg in full && full[phis[i].reg] != []
    requires forall j, k :: 0 <= j < k < |phis| ==> phis[j].reg != phis[k].reg
    requires stacks' == stacks[phis[i].reg := full[phis[i].reg][..|full[phis[i].reg]|-1]]
    ensures PhisPopped(full, stacks', phis, i + 1)
  {
    forall r | r in full
      ensures if exists j :: 0 <= j < i + 1 && phis[j].reg == r
              then full[r] != [] && stacks'[r] == full[r][..|full[r]|-1] else stacks'[r] == full[r]
    {
      assert (exists j :: 0 <= j < i + 1 && phis[j].reg == r) <==>
             ((exists j :: 0 <= j < i && phis[j].reg == r) || phis[i].reg == r);
    }
  }

  lemma {:induction false} PhisOnTop(p: Problem, base: Stacks, full: Stacks, phis: seq<seq<Phi>>, b: nat)
    requires Shape(p) && b < |p.code| && PhiRegs(p, phis)
    requires HasStacks(p, base.Keys) && Grown(p, base, full, b, 0)
    ensures b < |phis|
    ensures forall j, k :: 0 <= j < k < |phis[b]| ==> phis[b][j].reg != phis[b][k].reg
    ensures forall i :: 0 <= i < |phis[b]| ==> phis[b][i].reg in full && full[phis[b][i].reg] != []
  {
    forall i | 0 <= i < |phis[b]|
      ensures phis[b][i].reg in full && full[phis[b][i].reg] != []
    {
      var r := phis[b][i].reg;
      assert r in p.phi[b];
      assert full[r] == base[r] + [PhiValue(b, r)];
    }
  }

  /** The one value a phi pushed is gone, and no other stack was touched. */
  lemma {:induction false} OneLeft(p: Problem, base: Stacks, full: Stacks, stacks: Stacks, phis: seq<Phi>, b: nat, r: nat)
    requires Shape(p) && b < |p.code| && Grown(p, base, full, b, 0) && r in base
    requires PhisPopped(full, stacks, phis, |phis|)
    requires r in p.phi[b] <==> exists j :: 0 <= j < |phis| && phis[j].reg == r
    ensures r in stacks && stacks[r] == base[r]
  {
    assert full[r] == base[r] + Pushed(p, b, 0, r);
    if r in p.phi[b] {
      assert Pushed(p, b, 0, r) == [PhiValue(b, r)];
      assert (base[r] + [PhiValue(b, r)])[..|base[r]|] == base[r];
    } else {
      assert base[r] + [] == base[r];
    }
  }

  lemma {:induction false} NothingLeft(p: Problem, base: Stacks, full: Stacks, stacks: Stacks, phis: seq<seq<Phi>>, b: nat)
    requires Shape(p) && b < |p.code| && PhiRegs(p, phis) && Grown(p, base, full, b, 0)
    requires PhisPopped(full, stacks, phis[b], |phis[b]|)
    ensures stacks == base
  {
    forall r | r in base
      ensures r in stacks && stacks[r] == base[r]
    {
      OneLeft(p, base, full, stacks, phis[b], b, r);
    }
  }

  predicate SameAssign(i: Inst, j: Inst) {
    (i.Assign? <==> j.Assign?) && (i.Assign? ==> i.reg == j.reg)
  }

  lemma {:induction false} AssignsStillThere(p: Problem, prog: seq<nat>, slots: seq<seq<Slot>>, keys: set<nat>, b: nat)
    requires Shape(p) && |prog| == |p.code| && b < |p.code| && SlotsAt(p, prog, slots) && HasStacks(p, keys)
    ensures |slots[b]| == |p.code[b]|
    ensures forall k :: 0 <= k < |p.code[b]| ==> SameAssign(p.code[b][k], slots[b][k].inst)
    ensures forall k :: 0 <= k < |p.code[b]| && p.code[b][k].Assign? ==> p.code[b][k].reg in keys
  {
  }

  // ---------------------------------------------------------------- subtrees

  /** The blocks at or below b in the dominator tree. */
  ghost function Subtree(p: Problem, b: nat): set<nat>
    requires Shape(p)
  {
    set x: nat | 0 <= x < |p.code| && On(p.doms, x, b)
  }

  /** The progress when the blocks of s have been renamed as well. */
  ghost function Finish(p: Problem, prog: seq<nat>, s: set<nat>): seq<nat>
    requires |prog| == |p.code|
  {
    seq(|prog|, x requires 0 <= x < |prog| => if x in s then |p.code[x]| else prog[x])
  }

  lemma {:induction false} FinishTwice(p: Problem, prog: seq<nat>, s: set<nat>, t: set<nat>)
    requires |prog| == |p.code|
    ensures Finish(p, Finish(p, prog, s), t) == Finish(p, prog, s + t)
  {
  }

  /** b and the subtrees of the first i children. */
  ghost function FirstSubtrees(p: Problem, b: nat, c: seq<nat>, i: nat): set<nat>
    requires Shape(p) && i <= |c|
  {
    if i == 0 then {b} else FirstSubtrees(p, b, c, i - 1) + Subtree(p, c[i-1])
  }

  lemma {:induction false} InFirstSubtrees(p: Problem, b: nat, c: seq<nat>, i: nat, x: nat)
    requires Shape(p) && i <= |c|
    ensures x in FirstSubtrees(p, b, c, i) <==> x == b || exists j :: 0 <= j < i && x in Subtree(p, c[j])
  {
    if i > 0 {
      InFirstSubtrees(p, b, c, i - 1, x);
    }
  }

  /** The step of a chain just below b is a child of b. */
  lemma {:induction false} ChildOnChain(p: Problem, x: nat, b: nat) returns (c: nat)
    requires Shape(p) && x < |p.code| && On(p.doms, x, b) && x != b
    ensures c < |p.code| && On(p.doms, x, c) && p.doms[c] == b && c != b
    decreases |p.code| - x
  {
    OnBounds(p.doms, x, b);
    if p.doms[x] == b {
      c := x;
    } else {
      c := ChildOnChain(p, p.doms[x], b);
      assert On(p.doms, x, p.doms[x]);
      OnTransitive(p.doms, x, p.doms[x], c);
    }
  }

  /** A subtree is its root and the subtrees of the root's children. */
  lemma {:induction false} SubtreeIsChildren(p: Problem, b: nat, c: seq<nat>)
    requires Shape(p) && b < |p.code| && IsChildList(p.doms, b, c, |p.doms|)
    ensures FirstSubtrees(p, b, c, |c|) == Subtree(p, b)
  {
    forall x: nat
      ensures x in FirstSubtrees(p, b, c, |c|) <==> x in Subtree(p, b)
    {
      InFirstSubtrees(p, b, c, |c|, x);
      if x in Subtree(p, b) && x != b {
        var d := ChildOnChain(p, x, b);
        assert d in c;
        var j :| 0 <= j < |c| && c[j] == d;
        assert x in Subtree(p, c[j]);
      }
      if j :| 0 <= j < |c| && x in Subtree(p, c[j]) {
        assert c[j] in c;
        assert On(p.doms, c[j], b);
        OnTransitive(p.doms, x, c[j], b);
      }
    }
  }

  /** The subtree of the next child is disjoint from what has been visited. */
  lemma {:induction false} NextChildApart(p: Problem, b: nat, c: seq<nat>, i: nat, x: nat)
    requires Shape(p) && b < |p.code| && i < |c| && IsChildList(p.doms, b, c, |p.doms|) && x in Subtree(p, c[i])
    ensures x !in FirstSubtrees(p, b, c, i) && x in Subtree(p, b)
  {
    assert c[i] in c;
    assert On(p.doms, c[i], b);
    OnTransitive(p.doms, x, c[i], b);
    OnBounds(p.doms, x, c[i]);
    InFirstSubtrees(p, b, c, i, x);
    forall j | 0 <= j < i
      ensures x !in Subtree(p, c[j])
    {
      assert c[j] in c;
      if On(p.doms, x, c[j]) {
        OnLinear(p.doms, x, c[j], c[i]);
        OnBounds(p.doms, p.doms[c[j]], c[i]);
      }
    }
  }

  /** Every load in the blocks of s has a nearest definition. */
  ghost predicate AllReach(p: Problem, s: set<nat>)
    requires Shape(p)
  {
    forall b :: b in s && b < |p.code| ==> BlockReaches(p, b, |p.code[b]|)
  }

  // ---------------------------------------------------------------- between blocks

  /** Between two blocks of the walk: exactly the blocks in done are renamed and have served their
      successors. */
  ghost predicate Between(p: Problem, prog: seq<nat>, done: set<nat>, slots: seq<seq<Slot>>, phis: seq<seq<Phi>>,
                          keys: set<nat>, renamed: seq<bool>) {
    && Ready(p) && |prog| == |p.code| && SlotsAt(p, prog, slots)
    && PhiRegs(p, phis) && PairsAt(p, phis, done, 0, 0, 0) && HasStacks(p, keys)
    && |renamed| == |p.code| && (forall x: nat :: x < |renamed| ==> (renamed[x] <==> x in done))
  }

  /** Block b is about to be visited. */
  ghost predicate Visitable(p: Problem, prog: seq<nat>, done: set<nat>, stacks: Stacks, b: nat)
    requires Shape(p) && |prog| == |p.code|
  {
    && b < |p.code| && TopsOnEntry(p, stacks, b) && AboveRenamed(p, prog, b)
    && forall x :: x in Subtree(p, b) ==> prog[x] == 0 && x !in done
  }

  lemma {:induction false} EnterBlock(p: Problem, prog: seq<nat>, done: set<nat>, slots: seq<seq<Slot>>, phis: seq<seq<Phi>>,
                                      base: Stacks, stacks: Stacks, renamed: seq<bool>, b: nat)
    requires Between(p, prog, done, slots, phis, base.Keys, renamed) && Visitable(p, prog, done, base, b)
    requires Grown(p, base, stacks, b, 0)
    ensures Midway(p, prog, done, base, b, 0, slots, phis, stacks)
  {
    assert b in Subtree(p, b);
    PairsRebased(p, phis, done, 0, b);
  }

  lemma {:induction false} LeaveBlock(p: Problem, prog: seq<nat>, done: set<nat>, slots: seq<seq<Slot>>, phis: seq<seq<Phi>>,
                                      base: Stacks, stacks: Stacks, renamed: seq<bool>, b: nat, phis': seq<seq<Phi>>)
    requires |prog| == |p.code| && b < |p.code|
    requires Midway(p, prog[b := |p.code[b]|], done, base, b, |p.code[b]|, slots, phis, stacks)
    requires |renamed| == |p.code| && forall x: nat :: x < |renamed| ==> (renamed[x] <==> x in done || x == b)
    requires PhiRegs(p, phis') && PairsAt(p, phis', done + {b}, b, 0, 0)
    ensures Between(p, Finish(p, prog, {b}), done + {b}, slots, phis', stacks.Keys, renamed)
    ensures TopsAt(p, stacks, b, |p.code[b]|)
  {
    assert Finish(p, prog, {b}) == prog[b := |p.code[b]|];
    PairsRebased(p, phis', done + {b}, b, 0);
    GrownTops(p, base, stacks, b, |p.code[b]|);
  }

  lemma {:induction false} NextChild(p: Problem, prog: seq<nat>, done: set<nat>, base: Stacks, stacks: Stacks, b: nat,
                                     c: seq<nat>, i: nat)
    requires Shape(p) && |prog| == |p.code| && Visitable(p, prog, done, base, b)
    requires TopsAt(p, stacks, b, |p.code[b]|) && IsChildList(p.doms, b, c, |p.doms|) && i < |c|
    ensures var s := FirstSubtrees(p, b, c, i);
      c[i] < b && c[i] !in done + s && Visitable(p, Finish(p, prog, s), done + s, stacks, c[i])
  {
    var s := FirstSubtrees(p, b, c, i);
    assert c[i] in c;
    forall x: nat | x < |p.code| && On(p.doms, c[i], x) && x != c[i]
      ensures Finish(p, prog, s)[x] == |p.code[x]|
    {
      InFirstSubtrees(p, b, c, i, b);
    }
    forall x | x in Subtree(p, c[i])
      ensures Finish(p, prog, s)[x] == 0 && x !in done + s
    {
      NextChildApart(p, b, c, i, x);
    }
    assert c[i] in Subtree(p, c[i]);
  }

  // ---------------------------------------------------------------- the walk

  class Renamer {
    var slots: seq<seq<Slot>>
    var phis: seq<seq<Phi>>
    var stacks: Stacks
    var renamed: seq<bool>

    constructor (slots: seq<seq<Slot>>, phis: seq<seq<Phi>>, stacks: Stacks)
      ensures this.slots == slots && this.phis == phis && this.stacks == stacks
      ensures renamed == seq(|slots|, _ => false)
    {
      this.slots, this.phis, this.stacks := slots, phis, stacks;
      renamed := seq(|slots|, _ => false);
    }

    method PushValue(r: nat, v: Value)
      requires r in stacks
      modifies this`stacks
      ensures stacks == old(stacks)[r := old(stacks)[r] + [v]]
    {
      stacks := stacks[r := stacks[r] + [v]];
    }

    method PopValue(r: nat)
      requires r in stacks && stacks[r] != []
      modifies this`stacks
      ensures stacks == old(stacks)[r := old(stacks)[r][..|old(stacks)[r]|-1]]
    {
      stacks := stacks[r := stacks[r][..|stacks[r]|-1]];
    }

    /** The phis of a block go onto their stacks first. */
    method PushPhis(ghost p: Problem, b: nat)
      requires Shape(p) && PhiRegs(p, phis) && b < |p.code| && HasStacks(p, stacks.Keys)
      modifies this`stacks
      ensures Grown(p, old(stacks), stacks, b, 0)
    {
      ghost var base := stacks;
      for i := 0 to |phis[b]|
        invariant PhisPushed(base, stacks, phis[b], b, i)
      {
        var r := phis[b][i].reg;
        assert r in p.phi[b];
        ghost var was := stacks;
        PushValue(r, PhiValue(b, r));
        PhiPushed(base, was, phis[b], b, i, stacks);
      }
      AllPhisPushed(p, base, stacks, phis, b);
    }

    /** All uses of one value become uses of another. */
    method ReplaceAllUses(from: Value, to: Value)
      modifies this`slots, this`phis
      ensures slots == ReplaceIn(old(slots), from, to) && phis == ReplaceInAll(old(phis), from, to)
    {
      slots := ReplaceIn(slots, from, to);
      phis := ReplaceInAll(phis, from, to);
    }

    /** Takes one instruction object off its block's list. */
    method Remove(b: nat, k: nat)
      requires b < |slots| && k < |slots[b]|
      modifies this`slots
      ensures slots == Unlinked(old(slots), b, k)
    {
      slots := Unlinked(slots, b, k);
    }

    /** A load that finds a value is replaced by it everywhere and taken off its list. */
    method RenameLoad(ghost p: Problem, ghost prog: seq<nat>, ghost done: set<nat>, ghost base: Stacks, b: nat, k: nat)
      returns (ok: bool)
      requires Midway(p, prog, done, base, b, k, slots, phis, stacks) && k < |p.code[b]| && p.code[b][k].Load?
      modifies this`slots, this`phis
      ensures ok <==> Reach(p, b, k, p.code[b][k].reg).Some?
      ensures ok ==> Midway(p, prog[b := k + 1], done, base, b, k + 1, slots, phis, stacks) && phis == old(phis)
    {
      hide *;
      ghost var slots0 := slots;
      MidwayShape(p, prog, done, base, b, k, slots, phis, stacks);
      AtLoad(p, prog, done, base, b, k, slots, phis, stacks);
      var r := slots[b][k].inst.reg;
      TopIs(stacks[r]);
      ok := stacks[r] != [];
      if ok {
        var w := stacks[r][|stacks[r]|-1];
        NothingReplaced(phis, Result(b, k), w);
        ReplaceAllUses(Result(b, k), w);
        Remove(b, k);
        LoadStep(p, prog, done, base, b, k, slots0, phis, stacks, slots);
      }
    }

    /** Renames instruction k of block b, unless it is a load that finds its stack empty. */
    method RenameInst(ghost p: Problem, ghost prog: seq<nat>, ghost done: set<nat>, ghost base: Stacks, b: nat, k: nat)
      returns (ok: bool)
      requires Midway(p, prog, done, base, b, k, slots, phis, stacks) && k < |p.code[b]|
      modifies this`slots, this`phis, this`stacks
      ensures ok <==> (p.code[b][k].Load? ==> Reach(p, b, k, p.code[b][k].reg).Some?)
      ensures ok ==> Midway(p, prog[b := k + 1], done, base, b, k + 1, slots, phis, stacks) && phis == old(phis)
    {
      hide *;
      ghost var slots0, stacks0 := slots, stacks;
      MidwayShape(p, prog, done, base, b, k, slots, phis, stacks);
      if p.code[b][k].Load? {
        AtLoad(p, prog, done, base, b, k, slots, phis, stacks);
      } else {
        AtOther(p, prog, done, base, b, k, slots, phis, stacks);
      }
      var inst := slots[b][k].inst;
      if inst.Load? {
        ok := RenameLoad(p, prog, done, base, b, k);
        return;
      }
      ok := true;
      if inst.Assign? {
        PushValue(inst.reg, inst.val);
        Remove(b, k);
      }
      OtherStep(p, prog, done, base, b, k, slots0, phis, stacks0, slots, stacks);
    }

    /** Renames all instructions of block b, whose phis have been pushed, up to the first load without a value. */
    method RenameInsts(ghost p: Problem, ghost prog: seq<nat>, ghost done: set<nat>, ghost base: Stacks, b: nat)
      returns (ok: bool)
      requires Midway(p, prog, done, base, b, 0, slots, phis, stacks)
      modifies this`slots, this`phis, this`stacks
      ensures Shape(p) && b < |p.code| && (ok <==> BlockReaches(p, b, |p.code[b]|))
      ensures ok ==> Midway(p, prog[b := |p.code[b]|], done, base, b, |p.code[b]|, slots, phis, stacks) && phis == old(phis)
    {
      hide *;
      MidwayShape(p, prog, done, base, b, 0, slots, phis, stacks);
      ghost var n := |p.code[b]|;
      assert prog[b := 0] == prog;
      NoneReaches(p, b);
      var k := 0;
      ok := true;
      while k < |slots[b]|
        invariant k <= n && b < |slots| && |slots[b]| == n && phis == old(phis)
        invariant Midway(p, prog[b := k], done, base, b, k, slots, phis, stacks)
        invariant BlockReaches(p, b, k)
        decreases n - k
      {
        ok := RenameInst(p, prog[b := k], done, base, b, k);
        NextReaches(p, b, k);
        if !ok {
          return;
        }
        assert prog[b := k][b := k + 1] == prog[b := k + 1];
        MidwayShape(p, prog[b := k + 1], done, base, b, k + 1, slots, phis, stacks);
        k := k + 1;
      }
    }

    /** Adds a pair to a phi unless it is there already. */
    method InsertPair(s: nat, i: nat, q: nat, w: Value)
      requires s < |phis| && i < |phis[s]|
      modifies this`phis
      ensures phis == old(phis)[s := old(phis)[s][i := WithPair(old(phis)[s][i], q, w)]]
    {
      var pairs := phis[s][i].pairs;
      var j := 0;
      while j < |pairs|
        invariant 0 <= j <= |pairs|
        invariant (q, w) !in pairs[..j]
      {
        if pairs[j] == (q, w) {
          assert phis[s][i := phis[s][i]] == phis[s] && phis[s := phis[s]] == phis;
          return;
        }
        j := j + 1;
      }
      assert pairs[..j] == pairs;
      phis := phis[s := phis[s][i := WithPair(phis[s][i], q, w)]];
    }

    /** Hands the top of one stack to one phi of a successor. */
    method FillPhi(ghost p: Problem, ghost done: set<nat>, b: nat, ghost ci: nat, s: nat, cj: nat)
      requires Ready(p) && PhiRegs(p, phis) && b < |p.code| && b !in done && PairsAt(p, phis, done, b, ci, cj)
      requires HasStacks(p, stacks.Keys) && TopsAt(p, stacks, b, |p.code[b]|)
      requires ci < |Successors(p.code[b])| && Successors(p.code[b])[ci] == s < |phis| && cj < |phis[s]|
      modifies this`phis
      ensures PhiRegs(p, phis) && PairsAt(p, phis, done, b, ci, cj + 1)
      ensures |phis| == |old(phis)| && |phis[s]| == |old(phis)[s]|
    {
      var r := phis[s][cj].reg;
      assert r in p.phi[s] && r in stacks;
      assert Top(stacks[r]) == Reach(p, b, |p.code[b]|, r);
      ghost var was := phis;
      hide PhiRegs, PairsAt, TopsAt, Ready;
      if stacks[r] != [] {
        InsertPair(s, cj, b, stacks[r][|stacks[r]|-1]);
      }
      NextPhiServed(p, was, done, b, ci, cj, phis);
      PhiRegsKept(p, was, s, cj, phis);
    }

    /** Hands the tops of the stacks to the phis of all successors. */
    method FillSuccessors(ghost p: Problem, ghost prog: seq<nat>, ghost done: set<nat>, b: nat)
      requires Ready(p) && |prog| == |p.code| && SlotsAt(p, prog, slots) && PhiRegs(p, phis)
      requires b < |p.code| && b !in done && PairsAt(p, phis, done, b, 0, 0)
      requires HasStacks(p, stacks.Keys) && TopsAt(p, stacks, b, |p.code[b]|)
      modifies this`phis
      ensures PhiRegs(p, phis) && PairsAt(p, phis, done + {b}, b, 0, 0)
    {
      TargetsKept(p, prog, slots, b);
      var targets := LinkedTargets(slots[b]);
      ghost var n := |p.code|;
      assert forall ci :: 0 <= ci < |targets| ==> targets[ci] < n by {
        TargetsInRange(p, b);
      }
      assert |phis| == n;
      hide Ready, PhiRegs, PairsAt, TopsAt, SlotsAt;
      for ci := 0 to |targets|
        invariant |phis| == n && PhiRegs(p, phis) && PairsAt(p, phis, done, b, ci, 0)
      {
        var s := targets[ci];
        ghost var m := |phis[s]|;
        for cj := 0 to |phis[s]|
          invariant |phis| == n && |phis[s]| == m && PhiRegs(p, phis) && PairsAt(p, phis, done, b, ci, cj)
        {
          FillPhi(p, done, b, ci, s, cj);
        }
        NextSuccessorServed(p, phis, done, b, ci);
      }
      BlockServed(p, phis, done, b, b);
    }

    /** Pops one value for every assign of block b. */
    method PopAssigns(ghost insts: seq<Inst>, b: nat)
      requires b < |slots| && |slots[b]| == |insts|
      requires forall k :: 0 <= k < |insts| ==> SameAssign(insts[k], slots[b][k].inst)
      requires forall k :: 0 <= k < |insts| && insts[k].Assign? ==> insts[k].reg in stacks
      requires forall r :: r in stacks ==> AssignCount(insts, |insts|, r) <= |stacks[r]|
      modifies this`stacks
      ensures AssignsPopped(insts, old(stacks), stacks, |insts|)
    {
      ghost var full := stacks;
      assert forall r :: r in full ==> full[r][..|full[r]|] == full[r];
      for k := 0 to |slots[b]|
        invariant AssignsPopped(insts, full, stacks, k)
      {
        var inst := slots[b][k].inst;
        assert SameAssign(insts[k], inst);
        ghost var was := stacks;
        if inst.Assign? {
          CountMonotone(insts, k + 1, |insts|, inst.reg);
          PopValue(inst.reg);
        }
        AssignPopped(insts, full, was, k, stacks);
      }
    }

    /** Pops one value for every phi of block b. */
    method PopPhis(ghost p: Problem, ghost base: Stacks, b: nat)
      requires Shape(p) && b < |p.code| && PhiRegs(p, phis)
      requires HasStacks(p, base.Keys) && Grown(p, base, stacks, b, 0)
      modifies this`stacks
      ensures stacks == base
    {
      ghost var full := stacks;
      PhisOnTop(p, base, full, phis, b);
      hide PhiRegs, HasStacks, Grown, Shape;
      for i := 0 to |phis[b]|
        invariant PhisPopped(full, stacks, phis[b], i)
      {
        var r := phis[b][i].reg;
        ghost var was := stacks;
        assert was[r] == full[r];
        PopValue(r);
        PhiPopped(full, was, phis[b], i, stacks);
      }
      NothingLeft(p, base, full, stacks, phis, b);
    }

    /** Pops what block b has pushed, which leaves the stacks as they were on entry. */
    method PopBlock(ghost p: Problem, ghost prog: seq<nat>, ghost base: Stacks, b: nat)
      requires Shape(p) && |prog| == |p.code| && b < |p.code| && SlotsAt(p, prog, slots) && PhiRegs(p, phis)
      requires HasStacks(p, base.Keys) && Grown(p, base, stacks, b, |p.code[b]|)
      modifies this`stacks
      ensures stacks == base
    {
      ghost var full := stacks;
      EnoughToPop(p, base, full, b);
      AssignsStillThere(p, prog, slots, base.Keys, b);
      hide SlotsAt, PhiRegs, Grown, HasStacks, AssignsPopped;
      PopAssigns(p.code[b], b);
      PhisLeft(p, base, full, stacks, b);
      PopPhis(p, base, b);
    }

    /** Renames block b, then the blocks it dominates, and leaves every stack as it was; stops when a load finds
        its stack empty, which happens exactly if some load down there has no nearest definition. */
    method Rename(ghost p: Problem, ghost prog: seq<nat>, ghost done: set<nat>, childs: seq<seq<nat>>, b: nat)
      returns (ok: bool)
      requires Between(p, prog, done, slots, phis, stacks.Keys, renamed) && b < |renamed|
      requires |childs| == |p.code| && forall d :: 0 <= d < |childs| ==> IsChildList(p.doms, d, childs[d], |p.doms|)
      requires b !in done ==> Visitable(p, prog, done, stacks, b)
      modifies this
      ensures Shape(p) && (ok <==> AllReach(p, if b in done then {} else Subtree(p, b)))
      ensures ok ==> stacks == old(stacks)
      ensures var s := if b in done then {} else Subtree(p, b);
        ok ==> Between(p, Finish(p, prog, s), done + s, slots, phis, stacks.Keys, renamed)
      decreases b
    {
      hide *;
      BetweenParts(p, prog, done, slots, phis, stacks.Keys, renamed);
      if renamed[b] {
        NothingRenamed(p, prog, done, slots, phis, stacks.Keys, renamed);
        return true;
      }
      ghost var slots0, base, renamed0 := slots, stacks, renamed;
      renamed := renamed[b := true];
      PushPhis(p, b);
      EnterBlock(p, prog, done, slots, phis, base, stacks, renamed0, b);
      ok := RenameInsts(p, prog, done, base, b);
      RootReaches(p, b);
      if !ok {
        return;
      }
      ghost var n := |p.code[b]|;
      MidwayParts(p, prog[b := n], done, base, b, n, slots, phis, stacks);
      ghost var phis0 := phis;
      FillSuccessors(p, prog[b := n], done, b);
      LeaveBlock(p, prog, done, slots, phis0, base, stacks, renamed, b, phis);
      ghost var full := stacks;
      var c := childs[b];
      FirstSubtreesStart(p, b, c);
      SubtreeIsChildren(p, b, c);
      for i := 0 to |c|
        invariant stacks == full && AllReach(p, FirstSubtrees(p, b, c, i))
        invariant Between(p, Finish(p, prog, FirstSubtrees(p, b, c, i)), done + FirstSubtrees(p, b, c, i),
                          slots, phis, stacks.Keys, renamed)
      {
        ghost var s := FirstSubtrees(p, b, c, i);
        BetweenParts(p, Finish(p, prog, s), done + s, slots, phis, stacks.Keys, renamed);
        NextChild(p, prog, done, base, stacks, b, c, i);
        ok := Rename(p, Finish(p, prog, s), done + s, childs, c[i]);
        NextSubtreeReaches(p, b, c, i);
        if !ok {
          return;
        }
        NextSubtree(p, prog, done, b, c, i);
      }
      BetweenParts(p, Finish(p, prog, Subtree(p, b)), done + Subtree(p, b), slots, phis, stacks.Keys, renamed);
      PopBlock(p, Finish(p, prog, Subtree(p, b)), base, b);
      ok := true;
    }
  }

  lemma {:induction false} NoneReaches(p: Problem, b: nat)
    requires Shape(p) && b < |p.code|
    ensures BlockReaches(p, b, 0)
  {
  }

  lemma {:induction false} NextReaches(p: Problem, b: nat, k: nat)
    requires Shape(p) && b < |p.code| && k < |p.code[b]| && BlockReaches(p, b, k)
    ensures BlockReaches(p, b, k + 1) <==> (p.code[b][k].Load? ==> Reach(p, b, k, p.code[b][k].reg).Some?)
    ensures BlockReaches(p, b, |p.code[b]|) ==> BlockReaches(p, b, k + 1)
  {
  }

  lemma {:induction false} RootReaches(p: Problem, b: nat)
    requires Shape(p) && b < |p.code|
    ensures BlockReaches(p, b, |p.code[b]|) <==> AllReach(p, {b})
    ensures AllReach(p, Subtree(p, b)) ==> AllReach(p, {b})
  {
    assert b in Subtree(p, b);
  }

  lemma {:induction false} NextSubtreeReaches(p: Problem, b: nat, c: seq<nat>, i: nat)
    requires Shape(p) && b < |p.code| && i < |c| && IsChildList(p.doms, b, c, |p.doms|)
    requires AllReach(p, FirstSubtrees(p, b, c, i))
    ensures AllReach(p, FirstSubtrees(p, b, c, i + 1)) <==> AllReach(p, Subtree(p, c[i]))
    ensures AllReach(p, Subtree(p, b)) ==> AllReach(p, Subtree(p, c[i]))
  {
    forall x | x in Subtree(p, c[i])
      ensures x in Subtree(p, b)
    {
      NextChildApart(p, b, c, i, x);
    }
  }

  lemma {:induction false} BetweenParts(p: Problem, prog: seq<nat>, done: set<nat>, slots: seq<seq<Slot>>,
                                        phis: seq<seq<Phi>>, keys: set<nat>, renamed: seq<bool>)
    requires Between(p, prog, done, slots, phis, keys, renamed)
    ensures Shape(p) && Ready(p) && |prog| == |p.code| && |slots| == |p.code| && |phis| == |p.code| && |renamed| == |p.code|
    ensures SlotsAt(p, prog, slots) && PhiRegs(p, phis) && HasStacks(p, keys)
    ensures forall x: nat :: x < |renamed| ==> (renamed[x] <==> x in done)
  {
  }

  lemma {:induction false} NothingRenamed(p: Problem, prog: seq<nat>, done: set<nat>, slots: seq<seq<Slot>>,
                                          phis: seq<seq<Phi>>, keys: set<nat>, renamed: seq<bool>)
    requires Between(p, prog, done, slots, phis, keys, renamed)
    ensures Between(p, Finish(p, prog, {}), done + {}, slots, phis, keys, renamed) && AllReach(p, {})
  {
    assert Finish(p, prog, {}) == prog && done + {} == done;
  }

  lemma {:induction false} MidwayParts(p: Problem, prog: seq<nat>, done: set<nat>, base: Stacks, b: nat, k: nat,
                                       slots: seq<seq<Slot>>, phis: seq<seq<Phi>>, stacks: Stacks)
    requires Midway(p, prog, done, base, b, k, slots, phis, stacks)
    ensures Ready(p) && |prog| == |p.code| && b < |p.code| && k <= |p.code[b]| && SlotsAt(p, prog, slots)
    ensures PhiRegs(p, phis) && PairsAt(p, phis, done, b, 0, 0) && HasStacks(p, stacks.Keys)
    ensures TopsAt(p, stacks, b, k) && Grown(p, base, stacks, b, k) && stacks.Keys == base.Keys
  {
    GrownTops(p, base, stacks, b, k);
  }

  lemma {:induction false} FirstSubtreesStart(p: Problem, b: nat, c: seq<nat>)
    requires Shape(p)
    ensures FirstSubtrees(p, b, c, 0) == {b}
  {
  }

  lemma {:induction false} NextSubtree(p: Problem, prog: seq<nat>, done: set<nat>, b: nat, c: seq<nat>, i: nat)
    requires Shape(p) && |prog| == |p.code| && i < |c|
    ensures var s, t := FirstSubtrees(p, b, c, i), FirstSubtrees(p, b, c, i + 1);
      && Finish(p, Finish(p, prog, s), Subtree(p, c[i])) == Finish(p, prog, t)
      && (done + s) + Subtree(p, c[i]) == done + t
  {
    FinishTwice(p, prog, FirstSubtrees(p, b, c, i), Subtree(p, c[i]));
  }

  lemma {:induction false} TargetsInRange(p: Problem, b: nat)
    requires Ready(p) && b < |p.code|
    ensures forall i :: 0 <= i < |Successors(p.code[b])| ==> Successors(p.code[b])[i] < |p.code|
  {
    forall i | 0 <= i < |Successors(p.code[b])|
      ensures Successors(p.code[b])[i] < |p.code|
    {
      assert Successors(p.code[b])[i] in p.g.succ[b];
    }
  }

  lemma {:induction false} MidwayShape(p: Problem, prog: seq<nat>, done: set<nat>, base: Stacks, b: nat, k: nat,
                                       slots: seq<seq<Slot>>, phis: seq<seq<Phi>>, stacks: Stacks)
    requires Midway(p, prog, done, base, b, k, slots, phis, stacks)
    ensures Shape(p) && b < |slots| && b < |p.code| && |slots[b]| == |p.code[b]|
    ensures |prog| == |p.code| && prog[b] == k
  {
  }

  lemma {:induction false} PhiRegsKept(p: Problem, was: seq<seq<Phi>>, s: nat, i: nat, phis: seq<seq<Phi>>)
    requires PhiRegs(p, was) && s < |was| && i < |was[s]|
    requires phis == was || exists q, w :: phis == was[s := was[s][i := WithPair(was[s][i], q, w)]]
    ensures PhiRegs(p, phis)
  {
    if phis != was {
      forall x | 0 <= x < |phis|
        ensures |phis[x]| == |was[x]| && forall j :: 0 <= j < |phis[x]| ==>
                  phis[x][j].reg == was[x][j].reg && phis[x][j].linked == was[x][j].linked
      {
      }
      forall x, r: nat | 0 <= x < |phis|
        ensures r in p.phi[x] <==> exists j :: 0 <= j < |phis[x]| && phis[x][j].reg == r
      {
        if r in p.phi[x] {
          var j :| 0 <= j < |was[x]| && was[x][j].reg == r;
          assert phis[x][j].reg == r;
        }
        if j :| 0 <= j < |phis[x]| && phis[x][j].reg == r {
          assert was[x][j].reg == r;
        }
      }
    }
  }
}
