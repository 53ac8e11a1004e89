/** The depth-first numbering of dominators.c: a block gets its number when all its successors have
    been visited, so the entry is numbered last. */
module Postorders {
  import opened Graphs
  import opened Sequences

  ghost function Below(n: nat): (s: set<nat>)
    ensures forall b: nat :: b in s <==> b < n
  {
    if n == 0 then {} else Below(n - 1) + {n - 1}
  }

  /** The listed blocks carry their positions, and everything entered is reachable. */
  ghost predicate Listed(g: Cfg, order: seq<nat>, number: map<nat, nat>) {
    && (forall i :: 0 <= i < |order| ==> order[i] in number && number[order[i]] == i)
    && (forall b :: b in number ==> b < |g.succ| && Reachable(g, b))
  }

  /** Some block after position i of the list has an edge to the block at position i. */
  ghost predicate HasLaterPred(g: Cfg, order: seq<nat>, i: nat)
    requires i < |order|
  {
    exists j :: i < j < |order| && order[j] < |g.succ| && order[i] in g.succ[order[j]]
  }

  ghost predicate SuccsIn(g: Cfg, added: seq<nat>, keys: set<nat>) {
    forall i, s :: 0 <= i < |added| && added[i] < |g.succ| && s in g.succ[added[i]] ==> s in keys
  }

  /** Each block of the list is a successor of b or has a predecessor further down the list. */
  ghost predicate Hangs(g: Cfg, added: seq<nat>, b: nat)
    requires b < |g.succ|
  {
    forall i :: 0 <= i < |added| ==> added[i] in g.succ[b] || HasLaterPred(g, added, i)
  }

  lemma {:induction false} HangsAppend(g: Cfg, a: seq<nat>, c: seq<nat>, b: nat)
    requires b < |g.succ| && Hangs(g, a, b)
    requires forall i :: 0 <= i < |c| - 1 ==> HasLaterPred(g, c, i)
    requires |c| > 0 ==> c[|c|-1] in g.succ[b]
    ensures Hangs(g, a + c, b)
  {
    var s := a + c;
    forall i | 0 <= i < |s|
      ensures s[i] in g.succ[b] || HasLaterPred(g, s, i)
    {
      if i < |a| {
        if a[i] !in g.succ[b] {
          var j :| i < j < |a| && a[j] < |g.succ| && a[i] in g.succ[a[j]];
          assert s[i] in g.succ[s[j]];
        }
      } else if i < |s| - 1 {
        var k := i - |a|;
        assert HasLaterPred(g, c, k);
        var j :| k < j < |c| && c[j] < |g.succ| && c[k] in g.succ[c[j]];
        assert s[i] in g.succ[s[|a| + j]];
      }
    }
  }

  lemma {:induction false} HangsClose(g: Cfg, a: seq<nat>, b: nat)
    requires InRange(g) && b < |g.succ| && Hangs(g, a, b)
    requires forall x :: x in a ==> x < |g.succ|
    ensures forall i :: 0 <= i < |a| ==> HasLaterPred(g, a + [b], i)
  {
    var s := a + [b];
    forall i | 0 <= i < |a|
      ensures HasLaterPred(g, s, i)
    {
      assert a[i] in a;
      if a[i] in g.succ[b] {
        assert s[i] in g.succ[s[|a|]];
      } else {
        var j :| i < j < |a| && a[j] < |g.succ| && a[i] in g.succ[a[j]];
        assert s[i] in g.succ[s[j]];
      }
    }
  }

  lemma {:induction false} Progress(n: nat, b: nat, was: set<nat>, now: set<nat>)
    requires b < n && b !in was && b in now && was <= now
    ensures Below(n) - now < Below(n) - was
  {
    assert b in Below(n) - was;
  }

  /** The loop over the successors of b: before are the blocks entered when it starts, added the blocks
      numbered since, and the first k successors have been entered. */
  ghost predicate Progressing(g: Cfg, b: nat, before: set<nat>, added: seq<nat>, keys: set<nat>, k: nat)
    requires b < |g.succ| && k <= |g.succ[b]|
  {
    && b in before
    && keys == before + Elems(added)
    && before !! Elems(added)
    && SuccsIn(g, added, keys)
    && Hangs(g, added, b)
    && forall j :: 0 <= j < k ==> g.succ[b][j] in keys
  }

  lemma {:induction false} NextSuccessor(g: Cfg, b: nat, before: set<nat>, added: seq<nat>, keys: set<nat>, k: nat,
                      more: seq<nat>, keys': set<nat>)
    requires b < |g.succ| && k < |g.succ[b]|
    requires Progressing(g, b, before, added, keys, k)
    requires keys' == keys + Elems(more) && keys !! Elems(more)
    requires if g.succ[b][k] in keys then more == [] else |more| > 0 && more[|more|-1] == g.succ[b][k]
    requires SuccsIn(g, more, keys')
    requires forall i :: 0 <= i < |more| - 1 ==> HasLaterPred(g, more, i)
    ensures Progressing(g, b, before, added + more, keys', k + 1)
  {
    assert g.succ[b][k] in g.succ[b];
    HangsAppend(g, added, more, b);
    assert Elems(added + more) == Elems(added) + Elems(more);
  }

  lemma {:induction false} ConcatAssociative(a: seq<nat>, b: seq<nat>, c: seq<nat>)
    ensures (a + b) + c == a + (b + c)
  {
  }

  lemma {:induction false} Closing(g: Cfg, b: nat, before: set<nat>, added: seq<nat>, keys: set<nat>)
    requires InRange(g) && b < |g.succ| && Progressing(g, b, before, added, keys, |g.succ[b]|)
    requires forall x :: x in keys ==> x < |g.succ|
    ensures b !in added
    ensures keys == (before - {b}) + Elems(added + [b]) && before - {b} !! Elems(added + [b])
    ensures SuccsIn(g, added + [b], keys)
    ensures forall i :: 0 <= i < |added| ==> HasLaterPred(g, added + [b], i)
  {
    assert b !in Elems(added);
    assert Elems(added + [b]) == Elems(added) + {b};
    forall x | x in added
      ensures x < |g.succ|
    {
      assert x in Elems(added);
    }
    HangsClose(g, added, b);
  }

  /** order numbers exactly the reachable blocks, the entry last, and every other block has a
      predecessor with a higher number. */
  ghost predicate IsNumbering(g: Cfg, order: seq<nat>, number: map<nat, nat>) {
    && Listed(g, order, number)
    && |order| > 0 && order[|order|-1] == g.entry
    && (forall b :: b in number ==> number[b] < |order| && order[number[b]] == b)
    && (forall b: nat :: Reachable(g, b) ==> b in number)
    && forall i :: 0 <= i < |order| - 1 ==> HasLaterPred(g, order, i)
  }

  lemma {:induction false} ClosedUnderPaths(g: Cfg, keys: set<nat>, p: seq<nat>, x: nat)
    requires g.entry in keys && (forall b :: b in keys ==> b < |g.succ| && forall s :: s in g.succ[b] ==> s in keys)
    requires PathTo(g, p, x)
    ensures x in keys
    decreases |p|
  {
    if |p| > 1 {
      PathInit(g, p, x);
      ClosedUnderPaths(g, keys, p[..|p|-1], p[|p|-2]);
    }
  }

  // ---------------------------------------------------------------- the depth-first order

  /** The blocks entered so far and those that have been left, in the order of leaving. */
  datatype Dfs = Dfs(seen: set<nat>, order: seq<nat>)

  /** Depth-first search from b: its successors one after the other, then b itself. */
  ghost function DfsFrom(g: Cfg, t: Dfs, b: nat): (r: Dfs)
    requires InRange(g) && b < |g.succ|
    ensures t.seen <= r.seen
    decreases Below(|g.succ|) - t.seen, 0
  {
    if b in t.seen then t
    else
      Progress(|g.succ|, b, t.seen, t.seen + {b});
      var r := DfsSuccs(g, Dfs(t.seen + {b}, t.order), b, 0);
      Dfs(r.seen, r.order + [b])
  }

  /** The successors of b from position k on. */
  ghost function DfsSuccs(g: Cfg, t: Dfs, b: nat, k: nat): (r: Dfs)
    requires InRange(g) && b < |g.succ| && k <= |g.succ[b]|
    ensures t.seen <= r.seen
    decreases Below(|g.succ|) - t.seen, |g.succ[b]| - k
  {
    if k == |g.succ[b]| then t
    else
      assert g.succ[b][k] in g.succ[b];
      var t' := DfsFrom(g, t, g.succ[b][k]);
      assert Below(|g.succ|) - t'.seen <= Below(|g.succ|) - t.seen;
      DfsSuccs(g, t', b, k + 1)
  }

  /** The reachable blocks in postorder of the depth-first search that follows successors as they are listed. */
  ghost function DepthFirst(g: Cfg): seq<nat>
    requires InRange(g)
  {
    DfsFrom(g, Dfs({}, []), g.entry).order
  }

  /** The order fixes the numbers. */
  lemma {:induction false} NumbersAreFixed(g: Cfg, order: seq<nat>, n: map<nat, nat>, n': map<nat, nat>)
    requires IsNumbering(g, order, n) && IsNumbering(g, order, n')
    ensures n == n'
  {
    forall b
      ensures b in n <==> b in n'
      ensures b in n ==> n[b] == n'[b]
    {
      if b in n {
        assert order[n[b]] == b;
      }
      if b in n' {
        assert order[n'[b]] == b;
      }
    }
  }

  // ---------------------------------------------------------------- which successor comes first

  /** u has been left while v has not. */
  ghost predicate Precedes(order: seq<nat>, u: nat, v: nat) {
    exists m :: 0 <= m <= |order| && u in order[..m] && v !in order[..m]
  }

  lemma {:induction false} PrecedesLater(order: seq<nat>, more: seq<nat>, u: nat, v: nat)
    requires Precedes(order, u, v) && order <= more
    ensures Precedes(more, u, v)
  {
    var m :| 0 <= m <= |order| && u in order[..m] && v !in order[..m];
    assert more[..m] == order[..m];
  }

  /** From t to r blocks are only added, and what is newly entered has been left as well. */
  ghost predicate Grows(t: Dfs, r: Dfs) {
    && t.seen <= r.seen && t.order <= r.order
    && (forall x :: x in r.seen ==> x in t.seen || x in r.order)
    && (forall x :: x in r.order ==> x in t.order || x in r.seen)
  }

  lemma {:induction false} GrowsFrom(g: Cfg, t: Dfs, b: nat)
    requires InRange(g) && b < |g.succ|
    ensures Grows(t, DfsFrom(g, t, b)) && b in DfsFrom(g, t, b).seen
    decreases Below(|g.succ|) - t.seen, 0
  {
    if b !in t.seen {
      Progress(|g.succ|, b, t.seen, t.seen + {b});
      GrowsSuccs(g, Dfs(t.seen + {b}, t.order), b, 0);
    }
  }

  lemma {:induction false} GrowsSuccs(g: Cfg, t: Dfs, b: nat, k: nat)
    requires InRange(g) && b < |g.succ| && k <= |g.succ[b]|
    ensures Grows(t, DfsSuccs(g, t, b, k))
    decreases Below(|g.succ|) - t.seen, |g.succ[b]| - k
  {
    if k < |g.succ[b]| {
      assert g.succ[b][k] in g.succ[b];
      var t' := DfsFrom(g, t, g.succ[b][k]);
      assert Below(|g.succ|) - t'.seen <= Below(|g.succ|) - t.seen;
      GrowsFrom(g, t, g.succ[b][k]);
      GrowsSuccs(g, t', b, k + 1);
    }
  }

  /** A walk to x through entered blocks. */
  ghost predicate SeenWalk(g: Cfg, seen: set<nat>, p: seq<nat>, x: nat) {
    PathTo(g, p, x) && forall y :: y in p ==> y in seen
  }

  /** Every entered block has been reached through entered ones. */
  ghost predicate Seeded(g: Cfg, seen: set<nat>) {
    forall x :: x in seen ==> exists p :: SeenWalk(g, seen, p, x)
  }

  lemma {:induction false} SeededMore(g: Cfg, seen: set<nat>, p: seq<nat>, b: nat)
    requires Seeded(g, seen) && SeenWalk(g, seen + {b}, p, b)
    ensures Seeded(g, seen + {b})
  {
    forall x | x in seen + {b}
      ensures exists q :: SeenWalk(g, seen + {b}, q, x)
    {
      if x in seen {
        var q :| SeenWalk(g, seen, q, x);
        assert SeenWalk(g, seen + {b}, q, x);
      }
    }
  }

  lemma {:induction false} WalkToSuccessor(g: Cfg, seen: set<nat>, b: nat, s: nat) returns (p: seq<nat>)
    requires InRange(g) && Seeded(g, seen) && b in seen && b < |g.succ| && s in g.succ[b]
    ensures SeenWalk(g, seen + {s}, p, s)
  {
    var q :| SeenWalk(g, seen, q, b);
    PathSnoc(g, q, b, s);
    p := q + [s];
  }

  lemma {:induction false} SeededFrom(g: Cfg, t: Dfs, b: nat, p: seq<nat>)
    requires InRange(g) && b < |g.succ| && Seeded(g, t.seen) && SeenWalk(g, t.seen + {b}, p, b)
    ensures Seeded(g, DfsFrom(g, t, b).seen)
    decreases Below(|g.succ|) - t.seen, 0
  {
    if b !in t.seen {
      Progress(|g.succ|, b, t.seen, t.seen + {b});
      SeededMore(g, t.seen, p, b);
      SeededSuccs(g, Dfs(t.seen + {b}, t.order), b, 0);
    }
  }

  lemma {:induction false} SeededSuccs(g: Cfg, t: Dfs, b: nat, k: nat)
    requires InRange(g) && b < |g.succ| && k <= |g.succ[b]| && Seeded(g, t.seen) && b in t.seen
    ensures Seeded(g, DfsSuccs(g, t, b, k).seen)
    decreases Below(|g.succ|) - t.seen, |g.succ[b]| - k
  {
    if k < |g.succ[b]| {
      assert g.succ[b][k] in g.succ[b];
      var t' := DfsFrom(g, t, g.succ[b][k]);
      assert Below(|g.succ|) - t'.seen <= Below(|g.succ|) - t.seen;
      var p := WalkToSuccessor(g, t.seen, b, g.succ[b][k]);
      SeededFrom(g, t, g.succ[b][k], p);
      SeededSuccs(g, t', b, k + 1);
    }
  }

  /** Only b leads to v. */
  ghost predicate OnlyFrom(g: Cfg, b: nat, v: nat) {
    v != g.entry && forall y :: 0 <= y < |g.succ| && v in g.succ[y] ==> y == b
  }

  /** Once b has been entered, v is entered from the list of b only. */
  lemma {:induction false} NotEntered(g: Cfg, t: Dfs, x: nat, b: nat, v: nat)
    requires InRange(g) && x < |g.succ| && x != v && OnlyFrom(g, b, v) && b in t.seen && v !in t.seen
    ensures v !in DfsFrom(g, t, x).seen
    decreases Below(|g.succ|) - t.seen, 0
  {
    if x !in t.seen {
      Progress(|g.succ|, x, t.seen, t.seen + {x});
      NotEnteredSuccs(g, Dfs(t.seen + {x}, t.order), x, 0, b, v);
    }
  }

  lemma {:induction false} NotEnteredSuccs(g: Cfg, t: Dfs, x: nat, k: nat, b: nat, v: nat)
    requires InRange(g) && x < |g.succ| && k <= |g.succ[x]| && x != b
    requires OnlyFrom(g, b, v) && b in t.seen && v !in t.seen
    ensures v !in DfsSuccs(g, t, x, k).seen
    decreases Below(|g.succ|) - t.seen, |g.succ[x]| - k
  {
    if k < |g.succ[x]| {
      assert g.succ[x][k] in g.succ[x];
      var t' := DfsFrom(g, t, g.succ[x][k]);
      assert Below(|g.succ|) - t'.seen <= Below(|g.succ|) - t.seen;
      NotEntered(g, t, g.succ[x][k], b, v);
      NotEnteredSuccs(g, t', x, k + 1, b, v);
    }
  }

  /** The i-th successor of b is strictly dominated by b, and v is a later one that only b leads to. */
  ghost predicate Siblings(g: Cfg, b: nat, i: nat, v: nat) {
    && b < |g.succ| && i < |g.succ[b]| && v != b && v !in g.succ[b][..i+1] && OnlyFrom(g, b, v)
    && StrictlyDominates(g, b, g.succ[b][i])
  }

  /** As long as b has not been entered, neither has been. */
  lemma {:induction false} SiblingsUnseen(g: Cfg, seen: set<nat>, b: nat, i: nat, v: nat)
    requires Siblings(g, b, i, v) && Seeded(g, seen) && b !in seen
    ensures g.succ[b][i] !in seen && v !in seen
  {
    if v in seen {
      var p :| SeenWalk(g, seen, p, v);
      ThroughOnlyPred(g, p, b, v);
    }
  }

  lemma {:induction false} ThroughOnlyPred(g: Cfg, p: seq<nat>, b: nat, v: nat)
    requires PathTo(g, p, v) && OnlyFrom(g, b, v)
    ensures b in p
  {
    PathInit(g, p, v);
    assert p[|p|-2] in p;
  }

  /** From position k of the list of b on: before are the blocks entered when b was. */
  lemma {:induction false} FirstSiblingLeft(g: Cfg, t: Dfs, b: nat, k: nat, i: nat, v: nat, before: set<nat>)
    requires InRange(g) && Siblings(g, b, i, v) && k <= i + 1 && b in t.seen && v !in t.seen
    requires g.succ[b][i] !in before && (forall x :: x in t.seen ==> x in before || x in t.order)
    requires (forall x :: x in t.order ==> x in t.seen) && (k == i + 1 ==> g.succ[b][i] in t.seen)
    ensures Precedes(DfsSuccs(g, t, b, k).order, g.succ[b][i], v)
    decreases i + 1 - k
  {
    if k == i + 1 {
      assert t.order[..|t.order|] == t.order;
      assert Precedes(t.order, g.succ[b][i], v);
      GrowsSuccs(g, t, b, k);
      PrecedesLater(t.order, DfsSuccs(g, t, b, k).order, g.succ[b][i], v);
    } else {
      var s := g.succ[b][k];
      assert s in g.succ[b] && s in g.succ[b][..i+1];
      var t' := DfsFrom(g, t, s);
      GrowsFrom(g, t, s);
      NotEntered(g, t, s, b, v);
      FirstSiblingLeft(g, t', b, k + 1, i, v, before);
    }
  }

  lemma {:induction false} SiblingsFrom(g: Cfg, t: Dfs, x: nat, p: seq<nat>, b: nat, i: nat, v: nat)
    requires InRange(g) && x < |g.succ| && Siblings(g, b, i, v) && Seeded(g, t.seen) && SeenWalk(g, t.seen + {x}, p, x)
    requires (forall y :: y in t.order ==> y in t.seen) && b !in t.seen && b in DfsFrom(g, t, x).seen
    ensures Precedes(DfsFrom(g, t, x).order, g.succ[b][i], v)
    decreases Below(|g.succ|) - t.seen, 0
  {
    Progress(|g.succ|, x, t.seen, t.seen + {x});
    SeededMore(g, t.seen, p, x);
    var t1 := Dfs(t.seen + {x}, t.order);
    if x == b {
      SiblingsUnseen(g, t.seen, b, i, v);
      FirstSiblingLeft(g, t1, b, 0, i, v, t.seen + {b});
    } else {
      SiblingsSuccs(g, t1, x, 0, b, i, v);
    }
    var r := DfsSuccs(g, t1, x, 0);
    PrecedesLater(r.order, r.order + [x], g.succ[b][i], v);
  }

  lemma {:induction false} SiblingsSuccs(g: Cfg, t: Dfs, x: nat, k: nat, b: nat, i: nat, v: nat)
    requires InRange(g) && x < |g.succ| && k <= |g.succ[x]| && Siblings(g, b, i, v) && Seeded(g, t.seen) && x in t.seen
    requires (forall y :: y in t.order ==> y in t.seen) && b !in t.seen && b in DfsSuccs(g, t, x, k).seen
    ensures Precedes(DfsSuccs(g, t, x, k).order, g.succ[b][i], v)
    decreases Below(|g.succ|) - t.seen, |g.succ[x]| - k
  {
    var s := g.succ[x][k];
    assert s in g.succ[x];
    var t' := DfsFrom(g, t, s);
    assert Below(|g.succ|) - t'.seen <= Below(|g.succ|) - t.seen;
    var p := WalkToSuccessor(g, t.seen, x, s);
    GrowsFrom(g, t, s);
    GrowsSuccs(g, t', x, k + 1);
    if b in t'.seen {
      SiblingsFrom(g, t, s, p, b, i, v);
      PrecedesLater(t'.order, DfsSuccs(g, t', x, k + 1).order, g.succ[b][i], v);
    } else {
      SeededFrom(g, t, s, p);
      SiblingsSuccs(g, t', x, k + 1, b, i, v);
    }
  }

  /** A reachable block other than the entry has a predecessor other than itself. */
  lemma {:induction false} OtherPred(g: Cfg, p: seq<nat>, b: nat) returns (y: nat)
    requires PathTo(g, p, b) && b != g.entry
    ensures y < |g.succ| && y != b && b in g.succ[y]
    decreases |p|
  {
    PathInit(g, p, b);
    y := p[|p|-2];
    if y == b {
      y := OtherPred(g, p[..|p|-1], b);
    }
  }

  /** Of two successors of one block, the one that is listed first is numbered first, if the block strictly dominates
      it and is the only one that leads to the other. */
  ghost predicate SuccessorsInOrder(g: Cfg, number: map<nat, nat>) {
    forall b: nat, i: nat, j: nat :: b in number && b < |g.succ| && i < j < |g.succ[b]| ==> InOrder(g, number, b, i, j)
  }

  ghost predicate InOrder(g: Cfg, number: map<nat, nat>, b: nat, i: nat, j: nat)
    requires b < |g.succ| && i < j < |g.succ[b]|
  {
    var u, v := g.succ[b][i], g.succ[b][j];
    v !in g.succ[b][..i+1] && v != g.entry && (forall y :: 0 <= y < |g.succ| && v in g.succ[y] ==> y == b)
      && StrictlyDominates(g, b, u)
    ==> u in number && v in number && number[u] < number[v]
  }

  lemma {:induction false} DepthFirstInOrder(g: Cfg, order: seq<nat>, number: map<nat, nat>)
    requires InRange(g) && IsNumbering(g, order, number) && order == DepthFirst(g)
    ensures SuccessorsInOrder(g, number)
  {
    var t := Dfs({}, []);
    assert PathTo(g, [g.entry], g.entry) && SeenWalk(g, t.seen + {g.entry}, [g.entry], g.entry);
    GrowsFrom(g, t, g.entry);
    forall b: nat, i: nat, j: nat | b in number && b < |g.succ| && i < j < |g.succ[b]|
      ensures InOrder(g, number, b, i, j)
    {
      var u, v := g.succ[b][i], g.succ[b][j];
      if v !in g.succ[b][..i+1] && v != g.entry && (forall y :: 0 <= y < |g.succ| && v in g.succ[y] ==> y == b)
          && StrictlyDominates(g, b, u) {
        assert u in g.succ[b] && v in g.succ[b];
        ReachableStep(g, b, u);
        ReachableStep(g, b, v);
        if v == b {
          var p :| PathTo(g, p, b);
          var y := OtherPred(g, p, b);
        }
        assert order[number[b]] == b && b in order;
        SiblingsFrom(g, t, g.entry, [g.entry], b, i, v);
        PrecedesNumbered(g, order, number, u, v);
      }
    }
  }

  lemma {:induction false} PrecedesNumbered(g: Cfg, order: seq<nat>, number: map<nat, nat>, u: nat, v: nat)
    requires IsNumbering(g, order, number) && Precedes(order, u, v) && u in number && v in number
    ensures number[u] < number[v]
  {
    var m :| 0 <= m <= |order| && u in order[..m] && v !in order[..m];
    var k :| 0 <= k < m && order[k] == u;
    assert forall l: nat :: l < m ==> order[..m][l] in order[..m];
  }

  class Postorder {
    // nodeToNum: a block is a key as soon as it is entered; its value is meaningful once it is listed
    var number: map<nat, nat>
    var order: seq<nat>

    constructor ()
      ensures number == map[] && order == []
    {
      number, order := map[], [];
    }

    /** Assigns the next number to a block that has been entered and is not listed yet. */
    method AssignNumber(g: Cfg, b: nat)
      requires Listed(g, order, number) && b in number && b !in order
      modifies this
      ensures Listed(g, order, number)
      ensures order == old(order) + [b] && number.Keys == old(number.Keys)
    {
      number := number[b := |order|];
      order := order + [b];
    }

    /** Visits b and everything first reached through it; added lists the newly numbered blocks. */
    method Visit(g: Cfg, b: nat) returns (ghost added: seq<nat>)
      requires InRange(g) && Listed(g, order, number)
      requires b < |g.succ| && Reachable(g, b)
      modifies this
      ensures Listed(g, order, number)
      ensures order == old(order) + added
      ensures number.Keys == old(number.Keys) + Elems(added)
      ensures old(number.Keys) !! Elems(added)
      ensures if b in old(number) then added == [] else |added| > 0 && added[|added|-1] == b
      ensures SuccsIn(g, added, number.Keys)
      ensures forall i :: 0 <= i < |added| - 1 ==> HasLaterPred(g, added, i)
      ensures Dfs(number.Keys, order) == DfsFrom(g, old(Dfs(number.Keys, order)), b)
      decreases Below(|g.succ|) - number.Keys
    {
      added := [];
      if b in number {
        return;
      }
      ghost var entry := number.Keys;
      assert forall x :: x in order ==> x in number;
      number := number[b := 0];
      ghost var before := number.Keys;
      assert before == entry + {b};
      ghost var all := DfsSuccs(g, Dfs(before, order), b, 0);
      for k := 0 to |g.succ[b]|
        invariant Listed(g, order, number)
        invariant DfsSuccs(g, Dfs(number.Keys, order), b, k) == all
        invariant order == old(order) + added
        invariant Progressing(g, b, before, added, number.Keys, k)
      {
        var s := g.succ[b][k];
        assert s in g.succ[b];
        ReachableStep(g, b, s);
        Progress(|g.succ|, b, entry, number.Keys);
        ghost var keys := number.Keys;
        ghost var more := Visit(g, s);
        NextSuccessor(g, b, before, added, keys, k, more, number.Keys);
        ConcatAssociative(old(order), added, more);
        added := added + more;
      }
      Closing(g, b, before, added, number.Keys);
      ConcatAssociative(old(order), added, [b]);
      AssignNumber(g, b);
      added := added + [b];
    }
  
    /** Numbers all blocks reachable from the entry. */
    method Number(g: Cfg)
      requires InRange(g) && number == map[] && order == []
      modifies this
      ensures IsNumbering(g, order, number) && order == DepthFirst(g) && SuccessorsInOrder(g, number)
    {
      assert PathTo(g, [g.entry], g.entry);
      assert Dfs(number.Keys, order) == Dfs({}, []);
      ghost var added := Visit(g, g.entry);
      assert order == added;
      assert g.entry in number;
      forall b | b in number
        ensures number[b] < |order| && order[number[b]] == b
      {
        assert b in Elems(added);
        var i :| 0 <= i < |added| && added[i] == b;
      }
      forall b | b in number
        ensures forall s :: s in g.succ[b] ==> s in number
      {
        assert order[number[b]] == b;
      }
      forall b: nat | Reachable(g, b)
        ensures b in number
      {
        var p :| PathTo(g, p, b);
        ClosedUnderPaths(g, number.Keys, p, b);
      }
      DepthFirstInOrder(g, order, number);
    }
  }

  // ---------------------------------------------------------------- consequences of the numbering

  /** A walk from the entry to the block at position i through blocks listed at i or later. */
  lemma {:induction false} LaterPath(g: Cfg, order: seq<nat>, number: map<nat, nat>, i: nat) returns (p: seq<nat>)
    requires InRange(g) && IsNumbering(g, order, number) && i < |order|
    ensures PathTo(g, p, order[i])
    ensures forall x :: x in p ==> x in number && number[x] >= i
    decreases |order| - i
  {
    if i == |order| - 1 {
      p := [g.entry];
    } else {
      assert HasLaterPred(g, order, i);
      var j :| i < j < |order| && order[j] < |g.succ| && order[i] in g.succ[order[j]];
      p := LaterPath(g, order, number, j);
      PathSnoc(g, p, order[j], order[i]);
      p := p + [order[i]];
    }
  }

  /** A strict dominator of a reachable block is numbered after it. */
  lemma {:induction false} StrictDominatorsAreLater(g: Cfg, order: seq<nat>, number: map<nat, nat>, d: nat, b: nat)
    requires InRange(g) && IsNumbering(g, order, number)
    requires Reachable(g, b) && StrictlyDominates(g, d, b)
    ensures d in number && number[b] < number[d]
  {
    var p := LaterPath(g, order, number, number[b]);
    assert d in p;
    assert order[number[d]] == d && order[number[b]] == b;
  }

  /** What the passes behind the numbering rely on: nothing jumps to the entry, and the predecessor list
      of a reachable block names exactly its predecessors, all of them reachable. */
  ghost predicate WellConnected(g: Cfg) {
    && InRange(g)
    && g.pred[g.entry] == []
    && forall b: nat :: b < |g.succ| && Reachable(g, b) ==>
      Agrees(g, b) && forall p :: p in g.pred[b] ==> Reachable(g, p)
  }

  function MapNumbers(number: map<nat, nat>, l: seq<nat>): (r: seq<nat>)
    requires forall x :: x in l ==> x in number
    ensures |r| == |l| && forall k :: 0 <= k < |l| ==> r[k] == number[l[k]]
  {
    seq(|l|, k requires 0 <= k < |l| => assert l[k] in l; number[l[k]])
  }

  ghost predicate Renumberable(g: Cfg, order: seq<nat>, number: map<nat, nat>) {
    WellConnected(g) && IsNumbering(g, order, number)
  }

  /** Edges of listed blocks stay among the listed blocks. */
  lemma {:induction false} NeighboursListed(g: Cfg, order: seq<nat>, number: map<nat, nat>, i: nat)
    requires Renumberable(g, order, number) && i < |order|
    ensures order[i] < |g.succ| && Reachable(g, order[i])
    ensures forall x :: x in g.succ[order[i]] ==> x in number
    ensures forall x :: x in g.pred[order[i]] ==> x in number
  {
    assert order[i] in number;
    forall x | x in g.succ[order[i]]
      ensures x in number
    {
      ReachableStep(g, order[i], x);
    }
  }

  /** The graph over the numbers: block i is the i-th block of the postorder. */
  function Renumber(g: Cfg, order: seq<nat>, number: map<nat, nat>): (h: Cfg)
    requires Renumberable(g, order, number)
    ensures |h.succ| == |h.pred| == |order| && h.entry == |order| - 1
  {
    Cfg(|order| - 1,
        seq(|order|, i requires 0 <= i < |order| =>
          NeighboursListed(g, order, number, i); MapNumbers(number, g.succ[order[i]])),
        seq(|order|, i requires 0 <= i < |order| =>
          NeighboursListed(g, order, number, i); MapNumbers(number, g.pred[order[i]])))
  }

  lemma {:induction false} RenumberEdge(g: Cfg, order: seq<nat>, number: map<nat, nat>, a: nat, b: nat)
    requires Renumberable(g, order, number) && a < |order| && b < |order|
    ensures var h := Renumber(g, order, number);
      && (b in h.succ[a] <==> order[b] in g.succ[order[a]])
      && (a in h.pred[b] <==> order[a] in g.pred[order[b]])
  {
    NeighboursListed(g, order, number, a);
    NeighboursListed(g, order, number, b);
    var h := Renumber(g, order, number);
    var s := g.succ[order[a]];
    if b in h.succ[a] {
      var k :| 0 <= k < |s| && number[s[k]] == b;
      assert s[k] in s;
    }
    if order[b] in s {
      var k :| 0 <= k < |s| && s[k] == order[b];
      assert h.succ[a][k] == b;
    }
    var p := g.pred[order[b]];
    if a in h.pred[b] {
      var k :| 0 <= k < |p| && number[p[k]] == a;
      assert p[k] in p;
    }
    if order[a] in p {
      var k :| 0 <= k < |p| && p[k] == order[a];
      assert h.pred[b][k] == a;
    }
  }

  lemma {:induction false} RenumberInRange(g: Cfg, order: seq<nat>, number: map<nat, nat>)
    requires Renumberable(g, order, number)
    ensures InRange(Renumber(g, order, number))
  {
    var h := Renumber(g, order, number);
    forall b, s | 0 <= b < |h.succ| && s in h.succ[b]
      ensures s < |h.succ|
    {
      NeighboursListed(g, order, number, b);
      var k :| 0 <= k < |g.succ[order[b]]| && number[g.succ[order[b]][k]] == s;
      assert g.succ[order[b]][k] in g.succ[order[b]];
    }
    forall b, s | 0 <= b < |h.pred| && s in h.pred[b]
      ensures s < |h.pred|
    {
      NeighboursListed(g, order, number, b);
      var k :| 0 <= k < |g.pred[order[b]]| && number[g.pred[order[b]][k]] == s;
      assert g.pred[order[b]][k] in g.pred[order[b]];
    }
  }

  /** The numbers of the blocks of a walk. */
  lemma {:induction false} PathDown(g: Cfg, order: seq<nat>, number: map<nat, nat>, p: seq<nat>, x: nat) returns (q: seq<nat>)
    requires Renumberable(g, order, number) && PathTo(g, p, x)
    ensures x in number && PathTo(Renumber(g, order, number), q, number[x])
    ensures |q| == |p| && forall k :: 0 <= k < |p| ==> q[k] < |order| && order[q[k]] == p[k]
  {
    forall k | 0 <= k < |p|
      ensures p[k] in number
    {
      PathPrefix(g, p, x, k);
      assert Reachable(g, p[k]);
    }
    q := seq(|p|, k requires 0 <= k < |p| => number[p[k]]);
    RenumberInRange(g, order, number);
    forall k | 0 < k < |q|
      ensures q[k] in Renumber(g, order, number).succ[q[k-1]]
    {
      RenumberEdge(g, order, number, q[k-1], q[k]);
    }
  }

  lemma {:induction false} PathUp(g: Cfg, order: seq<nat>, number: map<nat, nat>, q: seq<nat>, i: nat) returns (p: seq<nat>)
    requires Renumberable(g, order, number) && PathTo(Renumber(g, order, number), q, i)
    ensures i < |order| && PathTo(g, p, order[i])
    ensures |q| == |p| && forall k :: 0 <= k < |p| ==> q[k] < |order| && order[q[k]] == p[k]
  {
    var h := Renumber(g, order, number);
    p := seq(|q|, k requires 0 <= k < |q| => order[q[k]]);
    forall k | 0 < k < |q|
      ensures p[k] in g.succ[p[k-1]]
    {
      RenumberEdge(g, order, number, q[k-1], q[k]);
    }
    forall k | 0 <= k < |q|
      ensures p[k] < |g.succ|
    {
      assert order[q[k]] in number;
    }
  }

  /** Dominance among the numbers is dominance among the blocks they stand for. */
  lemma {:induction false} DominatesRenumbered(g: Cfg, order: seq<nat>, number: map<nat, nat>, a: nat, b: nat)
    requires Renumberable(g, order, number) && a < |order| && b < |order|
    ensures Dominates(Renumber(g, order, number), a, b) <==> Dominates(g, order[a], order[b])
  {
    var h := Renumber(g, order, number);
    if Dominates(h, a, b) {
      forall p | PathTo(g, p, order[b])
        ensures order[a] in p
      {
        var q := PathDown(g, order, number, p, order[b]);
        var k :| 0 <= k < |q| && q[k] == a;
        assert p[k] == order[a];
      }
    }
    if Dominates(g, order[a], order[b]) {
      forall q | PathTo(h, q, b)
        ensures a in q
      {
        var p := PathUp(g, order, number, q, b);
        var k :| 0 <= k < |p| && p[k] == order[a];
        assert number[order[q[k]]] == q[k];
      }
    }
  }

  /** The first listed predecessor of every reachable block other than the entry is numbered after it. */
  ghost predicate FirstPredLater(g: Cfg, order: seq<nat>, number: map<nat, nat>) {
    forall i: nat :: i < |order| - 1 && order[i] < |g.pred| ==>
      |g.pred[order[i]]| > 0 && g.pred[order[i]][0] in number && number[g.pred[order[i]][0]] > i
  }

  /** Under exactly these conditions on the block graph the sweeps may run on the renumbered one. */
  lemma {:induction false} RenumberedIsNumbered(g: Cfg, order: seq<nat>, number: map<nat, nat>)
    requires Renumberable(g, order, number)
    ensures Numbered(Renumber(g, order, number)) <==> FirstPredLater(g, order, number)
  {
    var h := Renumber(g, order, number);
    RenumberInRange(g, order, number);
    forall i: nat | i < |order|
      ensures order[i] < |g.pred| && |h.pred[i]| == |g.pred[order[i]]|
      ensures |h.pred[i]| > 0 ==> g.pred[order[i]][0] in number && h.pred[i][0] == number[g.pred[order[i]][0]]
    {
      NeighboursListed(g, order, number, i);
      if |h.pred[i]| > 0 {
        assert g.pred[order[i]][0] in g.pred[order[i]];
      }
    }
    forall b, p | 0 <= b < |order| && 0 <= p < |order|
      ensures p in h.pred[b] <==> b in h.succ[p]
    {
      RenumberEdge(g, order, number, p, b);
      NeighboursListed(g, order, number, b);
      NeighboursListed(g, order, number, p);
      assert Agrees(g, order[b]);
    }
  }

  /** It is enough that first listed predecessors strictly dominate. */
  ghost predicate FirstPredDominates(g: Cfg) {
    forall b: nat :: b < |g.pred| && Reachable(g, b) && b != g.entry ==>
      |g.pred[b]| > 0 && StrictlyDominates(g, g.pred[b][0], b)
  }

  lemma {:induction false} DominatingFirstPredIsLater(g: Cfg, order: seq<nat>, number: map<nat, nat>)
    requires Renumberable(g, order, number) && FirstPredDominates(g)
    ensures FirstPredLater(g, order, number)
  {
    forall i: nat | i < |order| - 1 && order[i] < |g.pred|
      ensures |g.pred[order[i]]| > 0 && g.pred[order[i]][0] in number && number[g.pred[order[i]][0]] > i
    {
      NeighboursListed(g, order, number, i);
      assert number[order[i]] == i && number[order[|order|-1]] == |order|-1;
      StrictDominatorsAreLater(g, order, number, g.pred[order[i]][0], order[i]);
    }
  }

  lemma {:induction false} IDomRenumbered(g: Cfg, order: seq<nat>, number: map<nat, nat>, i: nat, d: nat)
    requires Renumberable(g, order, number) && i < |order| && d < |order|
    requires IsIDom(Renumber(g, order, number), d, i)
    ensures IsIDom(g, order[d], order[i])
  {
    NeighboursListed(g, order, number, i);
    DominatesRenumbered(g, order, number, d, i);
    assert number[order[d]] == d && number[order[i]] == i;
    forall e: nat | StrictlyDominates(g, e, order[i])
      ensures Dominates(g, e, order[d])
    {
      StrictDominatorsAreLater(g, order, number, e, order[i]);
      DominatesRenumbered(g, order, number, number[e], i);
      DominatesRenumbered(g, order, number, number[e], d);
    }
  }

  lemma {:induction false} BelowSize(n: nat)
    ensures |Below(n)| == n
  {
    if n > 0 {
      BelowSize(n - 1);
    }
  }

  lemma {:induction false} DistinctSize(s: seq<nat>)
    requires forall i, j :: 0 <= i < j < |s| ==> s[i] != s[j]
    ensures |Elems(s)| == |s|
  {
    if s != [] {
      var t := s[..|s|-1];
      DistinctSize(t);
      assert Elems(s) == Elems(t) + {s[|s|-1]};
    }
  }

  /** There are no more numbers than blocks. */
  lemma {:induction false} NumberingFits(g: Cfg, order: seq<nat>, number: map<nat, nat>)
    requires InRange(g) && Listed(g, order, number)
    ensures |order| <= |g.succ|
  {
    forall i, j | 0 <= i < j < |order|
      ensures order[i] != order[j]
    {
      assert number[order[i]] == i && number[order[j]] == j;
    }
    DistinctSize(order);
    BelowSize(|g.succ|);
    SubsetSize(Elems(order), Below(|g.succ|));
  }

  lemma {:induction false} SubsetSize(a: set<nat>, b: set<nat>)
    requires a <= b
    ensures |a| <= |b|
  {
    if a != {} {
      var x :| x in a;
      SubsetSize(a - {x}, b - {x});
    }
  }
}
