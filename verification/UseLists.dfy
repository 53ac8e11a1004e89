/** Use-def lists (ir.c): every operand of an instruction is a use object that also stands on the list of the
    value it uses. Instructions, values and uses are named by the order of their creation. */
module UseLists {
  import opened IR
  import opened Sequences

  /** operands holds the use in each operand slot of each instruction, if any; inst, slot and value say for each
      use which instruction and slot it was made for and what it uses; lists holds the uses of each value. */
  datatype Uses = Uses(operands: seq<seq<Option<nat>>>, inst: seq<nat>, slot: seq<nat>, value: seq<nat>, lists: seq<seq<nat>>)

  predicate Known(g: Uses, u: nat) {
    u < |g.inst| && u < |g.slot| && u < |g.value|
  }

  /** u fills the slot it was made for. */
  predicate Fills(g: Uses, u: nat) {
    && Known(g, u) && g.inst[u] < |g.operands| && g.slot[u] < |g.operands[g.inst[u]]|
    && g.operands[g.inst[u]][g.slot[u]] == Some(u)
  }

  /** The use in a slot was made for this slot, and its value is a value. */
  predicate SlotAt(g: Uses, i: nat, k: nat)
    requires i < |g.operands| && k < |g.operands[i]|
  {
    match g.operands[i][k]
    case None => true
    case Some(u) => Known(g, u) && g.inst[u] == i && g.slot[u] == k && g.value[u] < |g.lists|
  }

  /** Use u stands on the list of v exactly if v is its value and it fills its slot. */
  predicate ListedAt(g: Uses, u: nat, v: nat)
    requires v < |g.lists|
  {
    u in g.lists[v] <==> Fills(g, u) && g.value[u] == v
  }

  /** The lists and the operands agree. */
  ghost predicate Consistent(g: Uses) {
    && |g.inst| == |g.slot| == |g.value|
    && (forall i: nat, k: nat :: i < |g.operands| && k < |g.operands[i]| ==> SlotAt(g, i, k))
    && (forall v: nat :: v < |g.lists| ==> Distinct(g.lists[v]))
    && (forall u: nat, v: nat :: v < |g.lists| ==> ListedAt(g, u, v))
  }

  /** The value in slot k of instruction i. */
  function Operand(g: Uses, i: nat, k: nat): Option<nat> {
    if i < |g.operands| && k < |g.operands[i]| && g.operands[i][k].Some? && g.operands[i][k].value < |g.value|
    then Some(g.value[g.operands[i][k].value])
    else None
  }

  lemma {:induction false} OperandIsListed(g: Uses, i: nat, k: nat)
    requires Consistent(g) && i < |g.operands| && k < |g.operands[i]| && g.operands[i][k].Some?
    ensures var u := g.operands[i][k].value; Fills(g, u) && g.value[u] < |g.lists| && u in g.lists[g.value[u]]
  {
    assert SlotAt(g, i, k);
    var u := g.operands[i][k].value;
    assert ListedAt(g, u, g.value[u]);
  }

  /** r has use u on the list of v, and all other uses where g has them. */
  ghost predicate Relisted(g: Uses, r: Uses, u: nat, v: nat) {
    && |r.lists| == |g.lists|
    && (forall w: nat :: w < |r.lists| ==> Distinct(r.lists[w]))
    && (forall w: nat, x: nat :: w < |r.lists| ==> (x in r.lists[w] <==> if x == u then w == v else x in g.lists[w]))
  }

  // ---------------------------------------------------------------- moving a use

  /** Use u leaves the list of its value for the end of the list of v. */
  function Moved(g: Uses, u: nat, v: nat): (r: Uses)
    requires u < |g.value| && g.value[u] < |g.lists| && v < |g.lists|
    ensures |r.lists| == |g.lists| && r == g.(value := g.value[u := v], lists := r.lists)
  {
    var lists := g.lists[g.value[u] := Without(g.lists[g.value[u]], u)];
    g.(value := g.value[u := v], lists := lists[v := lists[v] + [u]])
  }

  lemma {:induction false} MovedRelists(g: Uses, u: nat, v: nat)
    requires Consistent(g) && Fills(g, u) && g.value[u] < |g.lists| && v < |g.lists|
    ensures Relisted(g, Moved(g, u, v), u, v)
  {
    var o, r := g.value[u], Moved(g, u, v);
    WithoutIs(g.lists[o], u);
    forall w: nat, x: nat | w < |r.lists|
      ensures x in r.lists[w] <==> if x == u then w == v else x in g.lists[w]
    {
      assert ListedAt(g, u, w);
      assert r.lists[v] == (if v == o then Without(g.lists[v], u) else g.lists[v]) + [u];
    }
    assert ListedAt(g, u, v);
    forall w: nat | w < |r.lists|
      ensures Distinct(r.lists[w])
    {
      if w == v {
        var l := if v == o then Without(g.lists[v], u) else g.lists[v];
        assert r.lists[v] == l + [u] && u !in l;
      }
    }
  }

  lemma {:induction false} MovedConsistent(g: Uses, u: nat, v: nat)
    requires Consistent(g) && Fills(g, u) && g.value[u] < |g.lists| && v < |g.lists|
    ensures Consistent(Moved(g, u, v))
    ensures forall i: nat, k: nat ::
      Operand(Moved(g, u, v), i, k) == (if i == g.inst[u] && k == g.slot[u] then Some(v) else Operand(g, i, k))
  {
    var r := Moved(g, u, v);
    MovedRelists(g, u, v);
    forall i: nat, k: nat | i < |r.operands| && k < |r.operands[i]|
      ensures SlotAt(r, i, k)
    {
      assert SlotAt(g, i, k);
    }
    forall x: nat, w: nat | w < |r.lists|
      ensures ListedAt(r, x, w)
    {
      assert ListedAt(g, x, w) && (Fills(r, x) <==> Fills(g, x));
    }
    forall i: nat, k: nat
      ensures Operand(r, i, k) == if i == g.inst[u] && k == g.slot[u] then Some(v) else Operand(g, i, k)
    {
      if i < |g.operands| && k < |g.operands[i]| {
        assert SlotAt(g, i, k);
      }
    }
  }

  // ---------------------------------------------------------------- setting an operand

  /** A slot that was empty gets a new use. */
  function NewUse(g: Uses, i: nat, k: nat, v: nat): (r: Uses)
    requires i < |g.operands| && k < |g.operands[i]| && v < |g.lists|
  {
    var u := |g.inst|;
    Uses(g.operands[i := g.operands[i][k := Some(u)]], g.inst + [i], g.slot + [k], g.value + [v],
         g.lists[v := g.lists[v] + [u]])
  }

  lemma {:induction false} NewUseFills(g: Uses, i: nat, k: nat, v: nat, x: nat)
    requires Consistent(g) && i < |g.operands| && k < |g.operands[i]| && g.operands[i][k] == None && v < |g.lists|
    ensures Fills(NewUse(g, i, k, v), x) <==> x == |g.inst| || Fills(g, x)
  {
    var r := NewUse(g, i, k, v);
    if Fills(r, x) && x != |g.inst| {
      assert r.inst[x] == g.inst[x] && r.slot[x] == g.slot[x];
    }
    if Fills(g, x) {
      assert r.inst[x] == g.inst[x] && r.slot[x] == g.slot[x];
    }
  }

  lemma {:induction false} NewUseConsistent(g: Uses, i: nat, k: nat, v: nat)
    requires Consistent(g) && i < |g.operands| && k < |g.operands[i]| && g.operands[i][k] == None && v < |g.lists|
    ensures Consistent(NewUse(g, i, k, v))
    ensures forall a: nat, b: nat :: Operand(NewUse(g, i, k, v), a, b) == if a == i && b == k then Some(v) else Operand(g, a, b)
  {
    var u, r := |g.inst|, NewUse(g, i, k, v);
    forall a: nat, b: nat | a < |r.operands| && b < |r.operands[a]|
      ensures SlotAt(r, a, b)
    {
      assert SlotAt(g, a, b);
    }
    forall x: nat, w: nat | w < |r.lists|
      ensures ListedAt(r, x, w)
    {
      assert ListedAt(g, x, w);
      NewUseFills(g, i, k, v, x);
    }
    assert ListedAt(g, u, v);
    forall a: nat, b: nat
      ensures Operand(r, a, b) == if a == i && b == k then Some(v) else Operand(g, a, b)
    {
      if a < |g.operands| && b < |g.operands[a]| {
        assert SlotAt(g, a, b);
      }
    }
  }

  /** inst_setUse: slot k of instruction i uses v from now on. */
  function SetUse(g: Uses, i: nat, k: nat, v: nat): (r: Uses)
    requires Consistent(g) && i < |g.operands| && k < |g.operands[i]| && v < |g.lists|
    ensures Consistent(r)
    ensures forall a: nat, b: nat :: Operand(r, a, b) == if a == i && b == k then Some(v) else Operand(g, a, b)
  {
    match g.operands[i][k]
    case None =>
      NewUseConsistent(g, i, k, v);
      NewUse(g, i, k, v)
    case Some(u) =>
      assert SlotAt(g, i, k);
      MovedConsistent(g, u, v);
      Moved(g, u, v)
  }

  /** An empty slot gets a new use, which goes to the end of the list of the value. */
  lemma {:induction false} SetUseAppends(g: Uses, i: nat, k: nat, v: nat)
    requires Consistent(g) && i < |g.operands| && k < |g.operands[i]| && v < |g.lists| && g.operands[i][k] == None
    ensures var r, u := SetUse(g, i, k, v), |g.inst|;
      && r.operands == g.operands[i := g.operands[i][k := Some(u)]]
      && r.inst == g.inst + [i] && r.slot == g.slot + [k] && r.value == g.value + [v]
      && |r.lists| == |g.lists| && r.lists[v] == g.lists[v] + [u]
      && forall w: nat :: w < |g.lists| && w != v ==> r.lists[w] == g.lists[w]
  {
  }

  /** The use of a filled slot leaves its list, where the order of the others stays, for the end of the list of the
      value. */
  lemma {:induction false} SetUseMoves(g: Uses, i: nat, k: nat, v: nat) returns (u: nat, w: nat, m: nat)
    requires Consistent(g) && i < |g.operands| && k < |g.operands[i]| && v < |g.lists| && g.operands[i][k].Some?
    ensures g.operands[i][k] == Some(u) && Operand(g, i, k) == Some(w) && w < |g.lists|
    ensures m < |g.lists[w]| && g.lists[w][m] == u
    ensures var r, left := SetUse(g, i, k, v), g.lists[w][..m] + g.lists[w][m+1..];
      && r.operands == g.operands && r.inst == g.inst && r.slot == g.slot && |r.lists| == |g.lists|
      && (v == w ==> r.lists[v] == left + [u])
      && (v != w ==> r.lists[w] == left && r.lists[v] == g.lists[v] + [u])
      && forall x: nat :: x < |g.lists| && x != v && x != w ==> r.lists[x] == g.lists[x]
  {
    u := g.operands[i][k].value;
    assert SlotAt(g, i, k);
    w := g.value[u];
    assert ListedAt(g, u, w);
    m :| m < |g.lists[w]| && g.lists[w][m] == u;
    CutOut(g.lists[w], u, m);
  }

  lemma {:induction false} CutOut(s: seq<nat>, u: nat, m: nat)
    requires Distinct(s) && m < |s| && s[m] == u
    ensures Without(s, u) == s[..m] + s[m+1..]
    decreases s
  {
    if m > 0 {
      CutOut(s[1..], u, m - 1);
      assert [s[0]] + (s[1..][..m-1] + s[1..][m..]) == s[..m] + s[m+1..];
    }
  }

  // ---------------------------------------------------------------- replacing a value

  /** value_replaceAllUses: one use after the other moves to the list of the replacement. */
  function ReplaceAllUses(g: Uses, v: nat, w: nat): (r: Uses)
    requires Consistent(g) && v < |g.lists| && w < |g.lists| && v != w
    ensures Consistent(r) && |r.lists| == |g.lists| && r.lists[v] == [] && r.lists[w] == g.lists[w] + g.lists[v]
    ensures forall x: nat :: x < |g.lists| && x != v && x != w ==> r.lists[x] == g.lists[x]
    ensures forall i: nat, k: nat :: Operand(r, i, k) == if Operand(g, i, k) == Some(v) then Some(w) else Operand(g, i, k)
    decreases |g.lists[v]|
  {
    if g.lists[v] == [] then
      NoUser(g, v);
      g
    else
      var u := g.lists[v][0];
      FirstUse(g, v);
      MovedConsistent(g, u, w);
      MovedFirst(g, v, w);
      ReplaceAllUses(Moved(g, u, w), v, w)
  }

  /** value_replaceAllUses with the value itself as replacement: the loop stands at the use current of the list, or
      has come back to the head. */
  datatype SelfLoop = SelfLoop(uses: seq<nat>, current: Option<nat>)

  /** One turn: the next use is looked up before the current one goes to the end of the same list. */
  function SelfTurn(l: SelfLoop): SelfLoop {
    if l.current.None? || l.current.value !in l.uses then l
    else
      var k := Position(l.uses, l.current.value);
      SelfLoop(l.uses[..k] + l.uses[k+1..] + [l.uses[k]], if k + 1 < |l.uses| then Some(l.uses[k+1]) else None)
  }

  function Position(s: seq<nat>, u: nat): (k: nat)
    requires u in s
    ensures k < |s| && s[k] == u && u !in s[..k]
  {
    if s[0] == u then 0 else
      var k := Position(s[1..], u);
      assert s[..k+1] == [s[0]] + s[1..][..k];
      k + 1
  }

  function SelfTurns(l: SelfLoop, n: nat): SelfLoop {
    if n == 0 then l else SelfTurn(SelfTurns(l, n - 1))
  }

  function SelfStart(s: seq<nat>): SelfLoop {
    SelfLoop(s, if s == [] then None else Some(s[0]))
  }

  predicate Ended(l: SelfLoop, n: nat) {
    SelfTurns(l, n).current.None?
  }

  /** From the first use on, the current use stays the first of the list. */
  lemma {:induction false} FirstIsCurrent(s: seq<nat>, n: nat)
    requires |s| >= 2 && Distinct(s)
    ensures var l := SelfTurns(SelfLoop(s, Some(s[0])), n);
      |l.uses| == |s| && Distinct(l.uses) && l.current == Some(l.uses[0])
  {
    if n > 0 {
      FirstIsCurrent(s, n - 1);
      var l := SelfTurns(SelfLoop(s, Some(s[0])), n - 1);
      assert Position(l.uses, l.uses[0]) == 0;
      assert l.uses[..0] + l.uses[1..] + [l.uses[0]] == l.uses[1..] + [l.uses[0]];
    }
  }

  /** Replacing a value by itself ends exactly if the value has fewer than two uses. */
  lemma {:induction false} SelfReplaceEndsIff(s: seq<nat>)
    requires Distinct(s)
    ensures (exists n: nat :: Ended(SelfStart(s), n)) <==> |s| < 2
  {
    var l := SelfStart(s);
    if |s| < 2 {
      assert SelfTurns(l, 0) == l;
      assert SelfTurns(l, 1) == SelfTurn(l);
      assert Ended(l, 1);
    } else {
      forall n: nat
        ensures !Ended(l, n)
      {
        FirstIsCurrent(s, n);
      }
    }
  }

  lemma {:induction false} NoUser(g: Uses, v: nat)
    requires Consistent(g) && v < |g.lists| && g.lists[v] == []
    ensures forall i: nat, k: nat :: Operand(g, i, k) != Some(v)
  {
    forall i: nat, k: nat
      ensures Operand(g, i, k) != Some(v)
    {
      if Operand(g, i, k) == Some(v) {
        OperandIsListed(g, i, k);
      }
    }
  }

  lemma {:induction false} FirstUse(g: Uses, v: nat)
    requires Consistent(g) && v < |g.lists| && g.lists[v] != []
    ensures Fills(g, g.lists[v][0]) && g.value[g.lists[v][0]] == v
    ensures Operand(g, g.inst[g.lists[v][0]], g.slot[g.lists[v][0]]) == Some(v)
  {
    assert ListedAt(g, g.lists[v][0], v);
  }

  lemma {:induction false} MovedFirst(g: Uses, v: nat, w: nat)
    requires v < |g.lists| && w < |g.lists| && v != w && g.lists[v] != []
    requires g.lists[v][0] < |g.value| && g.value[g.lists[v][0]] == v
    ensures var r := Moved(g, g.lists[v][0], w);
      && r.lists[v] == g.lists[v][1..] && r.lists[w] == g.lists[w] + [g.lists[v][0]]
      && r.lists[w] + r.lists[v] == g.lists[w] + g.lists[v]
      && forall x: nat :: x < |g.lists| && x != v && x != w ==> r.lists[x] == g.lists[x]
  {
    assert g.lists[v] == [g.lists[v][0]] + g.lists[v][1..];
  }

  // ---------------------------------------------------------------- phis

  /** The (block, value) pairs of a phi. */
  function Pairs(g: Uses, i: nat): (r: seq<(Option<nat>, Option<nat>)>)
    requires i < |g.operands|
    ensures |r| == |g.operands[i]| / 2
    ensures forall n :: 0 <= n < |r| ==> r[n] == (Operand(g, i, 2 * n), Operand(g, i, 2 * n + 1))
  {
    seq(|g.operands[i]| / 2, n requires 0 <= n => (Operand(g, i, 2 * n), Operand(g, i, 2 * n + 1)))
  }

  /** Two more slots, still empty. */
  function Grown(g: Uses, i: nat): (r: Uses)
    requires i < |g.operands|
  {
    g.(operands := g.operands[i := g.operands[i] + [None, None]])
  }

  lemma {:induction false} GrownConsistent(g: Uses, i: nat)
    requires Consistent(g) && i < |g.operands|
    ensures Consistent(Grown(g, i)) && forall a: nat, b: nat :: Operand(Grown(g, i), a, b) == Operand(g, a, b)
  {
    var r := Grown(g, i);
    forall a: nat, b: nat | a < |r.operands| && b < |r.operands[a]|
      ensures SlotAt(r, a, b)
    {
      if b < |g.operands[a]| {
        assert SlotAt(g, a, b);
      }
    }
    forall x: nat, w: nat | w < |r.lists|
      ensures ListedAt(r, x, w)
    {
      assert ListedAt(g, x, w);
      assert Fills(r, x) <==> Fills(g, x);
    }
  }

  /** inst_phi_insertValue: a pair that the phi has already is not entered again. */
  function PhiInsert(g: Uses, i: nat, b: nat, v: nat): (r: Uses)
    requires Consistent(g) && i < |g.operands| && b < |g.lists| && v < |g.lists|
    ensures Consistent(r)
  {
    if (Some(b), Some(v)) in Pairs(g, i) then g
    else
      GrownConsistent(g, i);
      var n := |g.operands[i]|;
      var h := SetUse(Grown(g, i), i, n, b);
      SetUse(h, i, n + 1, v)
  }

  /** The phi has the new pair behind the old ones, and no other operand changes. */
  lemma {:induction false} PhiInsertAdds(g: Uses, i: nat, b: nat, v: nat)
    requires Consistent(g) && i < |g.operands| && b < |g.lists| && v < |g.lists| && |g.operands[i]| % 2 == 0
    ensures var r := PhiInsert(g, i, b, v);
      && |r.operands| == |g.operands|
      && Pairs(r, i) == (if (Some(b), Some(v)) in Pairs(g, i) then Pairs(g, i) else Pairs(g, i) + [(Some(b), Some(v))])
      && forall a: nat, k: nat :: a != i ==> Operand(r, a, k) == Operand(g, a, k)
  {
    if (Some(b), Some(v)) !in Pairs(g, i) {
      GrownConsistent(g, i);
      var n, r := |g.operands[i]|, PhiInsert(g, i, b, v);
      assert |r.operands[i]| == n + 2;
      var p, q := Pairs(g, i), Pairs(r, i);
      assert |q| == |p| + 1;
      forall k | 0 <= k < |p|
        ensures q[k] == p[k]
      {
      }
    }
  }

  /** The two new uses go to the ends of the lists of the block and of the value, the one for the block first. */
  lemma {:induction false} PhiInsertAppends(g: Uses, i: nat, b: nat, v: nat)
    requires Consistent(g) && i < |g.operands| && b < |g.lists| && v < |g.lists| && (Some(b), Some(v)) !in Pairs(g, i)
    ensures var r, u := PhiInsert(g, i, b, v), |g.inst|;
      && r.operands == g.operands[i := g.operands[i] + [Some(u), Some(u + 1)]]
      && |r.lists| == |g.lists|
      && (b == v ==> r.lists[b] == g.lists[b] + [u, u + 1])
      && (b != v ==> r.lists[b] == g.lists[b] + [u] && r.lists[v] == g.lists[v] + [u + 1])
      && forall w: nat :: w < |g.lists| && w != b && w != v ==> r.lists[w] == g.lists[w]
  {
    GrownConsistent(g, i);
    var n, u := |g.operands[i]|, |g.inst|;
    SetUseAppends(Grown(g, i), i, n, b);
    var h := SetUse(Grown(g, i), i, n, b);
    SetUseAppends(h, i, n + 1, v);
    var r := PhiInsert(g, i, b, v);
    assert r.operands[i] == g.operands[i] + [Some(u), Some(u + 1)];
    assert g.lists[b] + [u] + [u + 1] == g.lists[b] + [u, u + 1];
  }

  /** A value has users exactly if it is some operand. */
  lemma {:induction false} UsedIsOperand(g: Uses, v: nat)
    requires Consistent(g) && v < |g.lists|
    ensures g.lists[v] != [] <==> exists i: nat, k: nat :: Operand(g, i, k) == Some(v)
  {
    if g.lists[v] == [] {
      NoUser(g, v);
    } else {
      FirstUse(g, v);
    }
  }

  function Nones(n: nat): (s: seq<Option<nat>>)
    ensures |s| == n && forall k :: 0 <= k < n ==> s[k] == None
  {
    if n == 0 then [] else [None] + Nones(n - 1)
  }

  /** A new instruction with n empty slots. */
  function WithInst(g: Uses, n: nat): (r: Uses) {
    g.(operands := g.operands + [Nones(n)])
  }

  /** A new value that nothing uses. */
  function WithValue(g: Uses): (r: Uses) {
    g.(lists := g.lists + [[]])
  }

  lemma {:induction false} CreatedConsistent(g: Uses, n: nat)
    requires Consistent(g)
    ensures Consistent(WithInst(g, n)) && Consistent(WithValue(g))
  {
    var r, q := WithInst(g, n), WithValue(g);
    forall a: nat, b: nat | a < |r.operands| && b < |r.operands[a]|
      ensures SlotAt(r, a, b)
    {
      if a < |g.operands| {
        assert SlotAt(g, a, b);
      }
    }
    forall x: nat, w: nat | w < |r.lists|
      ensures ListedAt(r, x, w)
    {
      assert ListedAt(g, x, w);
      assert Fills(r, x) <==> Fills(g, x);
    }
    forall a: nat, b: nat | a < |q.operands| && b < |q.operands[a]|
      ensures SlotAt(q, a, b)
    {
      assert SlotAt(g, a, b);
    }
    forall x: nat, w: nat | w < |q.lists|
      ensures ListedAt(q, x, w)
    {
      assert Fills(q, x) <==> Fills(g, x);
      if w < |g.lists| {
        assert ListedAt(g, x, w);
      } else if Fills(g, x) {
        assert SlotAt(g, g.inst[x], g.slot[x]);
      }
    }
  }

  // ---------------------------------------------------------------- the context object

  class Context {
    var operands: seq<seq<Option<nat>>>
    var inst: seq<nat>
    ghost var slot: seq<nat>
    var value: seq<nat>
    var lists: seq<seq<nat>>

    ghost function State(): Uses
      reads this
    {
      Uses(operands, inst, slot, value, lists)
    }

    ghost predicate Valid()
      reads this
    {
      Consistent(State())
    }

    constructor ()
      ensures Valid() && State() == Uses([], [], [], [], [])
    {
      operands, inst, slot, value, lists := [], [], [], [], [];
    }

    method NewInst(n: nat) returns (i: nat)
      requires Valid()
      modifies this`operands
      ensures Valid() && i == |old(operands)| && State() == WithInst(old(State()), n)
    {
      CreatedConsistent(State(), n);
      i := |operands|;
      operands := operands + [Nones(n)];
    }

    method NewValue() returns (v: nat)
      requires Valid()
      modifies this`lists
      ensures Valid() && v == |old(lists)| && State() == WithValue(old(State()))
    {
      CreatedConsistent(State(), 0);
      v := |lists|;
      lists := lists + [[]];
    }

    /** inst_setUse. */
    method InstSetUse(i: nat, k: nat, v: nat)
      requires Valid() && i < |operands| && k < |operands[i]| && v < |lists|
      modifies this
      ensures Valid() && State() == SetUse(old(State()), i, k, v)
    {
      ghost var was := State();
      ghost var after := SetUse(was, i, k, v);
      match operands[i][k]
      case None =>
        var u := |inst|;
        inst, slot, value := inst + [i], slot + [k], value + [v];
        lists := lists[v := lists[v] + [u]];
        operands := operands[i := operands[i][k := Some(u)]];
        assert State() == NewUse(was, i, k, v) == after;
      case Some(u) =>
        assert SlotAt(was, i, k);
        MoveUse(u, v);
        assert State() == Moved(was, u, v) == after;
    }

    /** Takes a use off the list of its value and puts it at the end of another one. */
    method MoveUse(u: nat, v: nat)
      requires u < |value| && value[u] < |lists| && v < |lists|
      modifies this`value, this`lists
      ensures State() == Moved(old(State()), u, v)
    {
      lists := lists[value[u] := Without(lists[value[u]], u)];
      value := value[u := v];
      lists := lists[v := lists[v] + [u]];
    }

    /** value_replaceAllUses, to a different value. */
    method ValueReplaceAllUses(v: nat, w: nat)
      requires Valid() && v < |lists| && w < |lists| && v != w
      modifies this`value, this`lists
      ensures Valid() && State() == ReplaceAllUses(old(State()), v, w)
    {
      ghost var was := State();
      while lists[v] != []
        invariant Valid() && |lists| == |was.lists|
        invariant ReplaceAllUses(State(), v, w) == ReplaceAllUses(was, v, w)
        decreases |lists[v]|
      {
        ghost var now := State();
        FirstUse(now, v);
        MovedConsistent(now, lists[v][0], w);
        MovedFirst(now, v, w);
        MoveUse(lists[v][0], w);
      }
    }

    method HasUse(v: nat) returns (b: bool)
      requires Valid() && v < |lists|
      ensures b <==> exists i: nat, k: nat :: Operand(State(), i, k) == Some(v)
    {
      UsedIsOperand(State(), v);
      b := lists[v] != [];
    }

    /** inst_phi_insertValue. */
    method PhiInsertValue(i: nat, b: nat, v: nat)
      requires Valid() && i < |operands| && b < |lists| && v < |lists|
      requires |operands[i]| % 2 == 0 && forall k :: 0 <= k < |operands[i]| ==> operands[i][k].Some?
      modifies this
      ensures Valid() && State() == PhiInsert(old(State()), i, b, v)
    {
      ghost var was, pairs := State(), Pairs(State(), i);
      var n := 0;
      while 2 * n < |operands[i]|
        invariant 0 <= n <= |pairs| && State() == was
        invariant (Some(b), Some(v)) !in pairs[..n]
      {
        assert SlotAt(was, i, 2 * n) && SlotAt(was, i, 2 * n + 1);
        if value[operands[i][2*n].value] == b && value[operands[i][2*n+1].value] == v {
          assert pairs[n] == (Some(b), Some(v));
          return;
        }
        n := n + 1;
      }
      assert pairs[..n] == pairs;
      GrownConsistent(was, i);
      operands := operands[i := operands[i] + [None, None]];
      InstSetUse(i, |operands[i]| - 2, b);
      InstSetUse(i, |operands[i]| - 1, v);
    }
  }
}
