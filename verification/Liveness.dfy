/** Registers whose value may still matter: on some way on there is a load of the register before any assign to it,
    or the way ends and the register is one of those that are looked at afterwards. */
module Liveness {
  import opened IR

  /** On the way that leads from instruction k of block b through the blocks of way, register r is loaded, or
      kept to the end and observed there, before it is assigned. */
  ghost predicate LiveVia(code: Code, observed: set<nat>, way: seq<nat>, b: nat, k: nat, r: nat)
    decreases |way|, if b < |code| && k <= |code[b]| then |code[b]| - k else 0
  {
    b < |code| && k <= |code[b]| &&
    if k < |code[b]| then
      code[b][k] == Load(r) || (!(code[b][k].Assign? && code[b][k].reg == r) && LiveVia(code, observed, way, b, k + 1, r))
    else if way == [] then r in observed && Successors(code[b]) == []
    else way[0] in Successors(code[b]) && LiveVia(code, observed, way[1..], way[0], 0, r)
  }

  ghost predicate Live(code: Code, observed: set<nat>, b: nat, k: nat, r: nat) {
    exists way :: LiveVia(code, observed, way, b, k, r)
  }

  lemma {:induction false} LiveAtLoad(code: Code, observed: set<nat>, b: nat, k: nat)
    requires b < |code| && k < |code[b]| && code[b][k].Load?
    ensures Live(code, observed, b, k, code[b][k].reg)
  {
    assert LiveVia(code, observed, [], b, k, code[b][k].reg);
  }

  /** What is live behind an instruction that does not assign it is live in front of it. */
  lemma {:induction false} LiveBefore(code: Code, observed: set<nat>, b: nat, k: nat, r: nat)
    requires b < |code| && k < |code[b]| && !(code[b][k].Assign? && code[b][k].reg == r)
    requires Live(code, observed, b, k + 1, r)
    ensures Live(code, observed, b, k, r)
  {
    var way :| LiveVia(code, observed, way, b, k + 1, r);
    assert LiveVia(code, observed, way, b, k, r);
  }

  /** What is live where an edge leads is live where it starts. */
  lemma {:induction false} LiveAcross(code: Code, observed: set<nat>, b: nat, s: nat, r: nat)
    requires b < |code| && s in Successors(code[b]) && Live(code, observed, s, 0, r)
    ensures Live(code, observed, b, |code[b]|, r)
  {
    var way :| LiveVia(code, observed, way, s, 0, r);
    assert ([s] + way)[1..] == way;
    assert LiveVia(code, observed, [s] + way, b, |code[b]|, r);
  }

  lemma {:induction false} LiveAtEnd(code: Code, observed: set<nat>, b: nat, r: nat)
    requires b < |code| && Successors(code[b]) == [] && r in observed
    ensures Live(code, observed, b, |code[b]|, r)
  {
    assert LiveVia(code, observed, [], b, |code[b]|, r);
  }

  /** Observing more makes more registers live. */
  lemma {:induction false} ObservedMore(code: Code, observed: set<nat>, more: set<nat>, way: seq<nat>, b: nat, k: nat, r: nat)
    requires observed <= more && LiveVia(code, observed, way, b, k, r)
    ensures LiveVia(code, more, way, b, k, r)
    decreases |way|, if b < |code| && k <= |code[b]| then |code[b]| - k else 0
  {
    if k < |code[b]| {
      if code[b][k] != Load(r) {
        ObservedMore(code, observed, more, way, b, k + 1, r);
      }
    } else if way != [] {
      ObservedMore(code, observed, more, way[1..], way[0], 0, r);
    }
  }

  // ---------------------------------------------------------------- liveness along walks

  /** A way through the code, block by block. */
  ghost predicate Leads(code: Code, w: seq<nat>) {
    && |w| > 0 && (forall i :: 0 <= i < |w| ==> w[i] < |code|)
    && forall i :: 0 <= i < |w| - 1 ==> w[i+1] in Successors(code[w[i]])
  }

  /** From instruction k of its first block to instruction j of its last one the way has no assign to r. */
  ghost predicate NoAssignOn(code: Code, w: seq<nat>, k: nat, j: nat, r: nat)
    requires Leads(code, w)
  {
    forall i, n :: 0 <= i < |w| && 0 <= n < |code[w[i]]| && (i == 0 ==> k <= n) && (i == |w| - 1 ==> n < j)
      ==> !(code[w[i]][n].Assign? && code[w[i]][n].reg == r)
  }

  /** There r is loaded, or the way ends and r is observed. */
  ghost predicate NeededAt(code: Code, observed: set<nat>, b: nat, j: nat, r: nat) {
    b < |code| && if j < |code[b]| then code[b][j] == Load(r) else j == |code[b]| && Successors(code[b]) == [] && r in observed
  }

  ghost predicate NeededAlong(code: Code, observed: set<nat>, w: seq<nat>, k: nat, j: nat, r: nat) {
    && Leads(code, w) && k <= |code[w[0]]| && (|w| == 1 ==> k <= j)
    && NeededAt(code, observed, w[|w|-1], j, r) && NoAssignOn(code, w, k, j, r)
  }

  lemma {:induction false} ViaToWalk(code: Code, observed: set<nat>, way: seq<nat>, b: nat, k: nat, r: nat)
    returns (w: seq<nat>, j: nat)
    requires LiveVia(code, observed, way, b, k, r)
    ensures NeededAlong(code, observed, w, k, j, r) && w[0] == b
    decreases |way|, |code[b]| - k
  {
    if k < |code[b]| {
      if code[b][k] == Load(r) {
        w, j := [b], k;
      } else {
        w, j := ViaToWalk(code, observed, way, b, k + 1, r);
      }
    } else if way == [] {
      w, j := [b], k;
    } else {
      var rest;
      rest, j := ViaToWalk(code, observed, way[1..], way[0], 0, r);
      w := [b] + rest;
      assert forall i :: 0 < i < |w| ==> w[i] == rest[i-1];
    }
  }

  lemma {:induction false} WalkToVia(code: Code, observed: set<nat>, w: seq<nat>, k: nat, j: nat, r: nat)
    requires NeededAlong(code, observed, w, k, j, r)
    ensures LiveVia(code, observed, w[1..], w[0], k, r)
    decreases |w|, |code[w[0]]| - k
  {
    var b := w[0];
    if k < |code[b]| {
      if code[b][k] != Load(r) {
        WalkToVia(code, observed, w, k + 1, j, r);
      }
    } else if |w| > 1 {
      var rest := w[1..];
      assert forall i :: 0 <= i < |rest| ==> rest[i] == w[i+1];
      WalkToVia(code, observed, rest, 0, j, r);
    }
  }

  /** A register is live exactly if some way on leads to a load of it, or to an end where it is observed, without an
      assign to it. */
  lemma {:induction false} LiveIffNeeded(code: Code, observed: set<nat>, b: nat, k: nat, r: nat)
    ensures Live(code, observed, b, k, r) <==>
      exists w: seq<nat>, j: nat :: NeededAlong(code, observed, w, k, j, r) && w[0] == b
  {
    if Live(code, observed, b, k, r) {
      var way :| LiveVia(code, observed, way, b, k, r);
      var w, j := ViaToWalk(code, observed, way, b, k, r);
    }
    if w: seq<nat>, j: nat :| NeededAlong(code, observed, w, k, j, r) && w[0] == b {
      WalkToVia(code, observed, w, k, j, r);
    }
  }
}
