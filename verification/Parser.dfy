/** Expression parsing (parser.c): operators are collected into a left-leaning tree, and on the way back each
    level may rotate the tree once. */
module Parsing {
  import opened IR

  datatype Token =
    | TNumber(n: int)
    | TId(name: string)
    | TOp(op: BinaryOp)
    | ParenOpen
    | ParenClose
    | Other       // any token that starts or continues no expression
    | Eof

  /** Higher binds tighter. */
  function Precedence(op: BinaryOp): int {
    match op
    case Add => 4
    case Sub => 4
    case Mul => 5
    case Div => 5
    case _ => 3
  }

  /** What the parser builds. */
  datatype Ast =
    | Num(n: int)
    | Var(name: string)
    | BinExp(op: BinaryOp, left: Ast, right: Ast)

  /** The same with parentheses and signs kept, which the parser itself forgets. */
  datatype Tree =
    | NumLeaf(n: int)
    | VarLeaf(name: string)
    | Node(op: BinaryOp, left: Tree, right: Tree)
    | Group(inner: Tree)
    | Signed(minus: bool, inner: Tree)

  function Negate(a: Ast): Ast {
    if a.Num? then Num(-a.n) else a
  }

  /** The syntax tree that the parser builds for a concrete one. */
  function Abstract(t: Tree): Ast {
    match t
    case NumLeaf(n) => Num(n)
    case VarLeaf(x) => Var(x)
    case Node(op, l, r) => BinExp(op, Abstract(l), Abstract(r))
    case Group(u) => Abstract(u)
    case Signed(minus, u) => if minus then Negate(Abstract(u)) else Abstract(u)
  }

  /** The tokens of a tree from left to right. */
  function Flat(t: Tree): seq<Token> {
    match t
    case NumLeaf(n) => [TNumber(n)]
    case VarLeaf(x) => [TId(x)]
    case Node(op, l, r) => Flat(l) + [TOp(op)] + Flat(r)
    case Group(u) => [ParenOpen] + Flat(u) + [ParenClose]
    case Signed(minus, u) => [TOp(if minus then Sub else Add)] + Flat(u)
  }

  // ---------------------------------------------------------------- chains of operators

  /** The rotation: when the root binds tighter than the operator of this level, its left child becomes the
      root. */
  function Rotate(p: int, t: Tree): Tree {
    if t.Node? && t.left.Node? && Precedence(t.op) > p
    then Node(t.left.op, t.left.left, Node(t.op, t.left.right, t.right))
    else t
  }

  type Pair = (BinaryOp, Tree)

  /** The tree for left op1 a1 op2 a2 ...: level by level, from the inside out. */
  function Build(left: Tree, pairs: seq<Pair>): Tree
    decreases pairs
  {
    if pairs == [] then left
    else Rotate(Precedence(pairs[0].0), Build(Node(pairs[0].0, left, pairs[0].1), pairs[1..]))
  }

  function LeftChain(left: Tree, pairs: seq<Pair>): Tree
    decreases pairs
  {
    if pairs == [] then left
    else Node(pairs[|pairs|-1].0, LeftChain(left, pairs[..|pairs|-1]), pairs[|pairs|-1].1)
  }

  function RightChain(first: Tree, pairs: seq<Pair>): Tree
    decreases pairs
  {
    if pairs == [] then first else Node(pairs[0].0, first, RightChain(pairs[0].1, pairs[1..]))
  }

  /** Left-associated up to operator j (counted from 0), right-associated from there on. */
  function Mixed(left: Tree, pairs: seq<Pair>, j: nat): Tree
    requires j < |pairs|
  {
    Node(pairs[j].0, LeftChain(left, pairs[..j]), RightChain(pairs[j].1, pairs[j+1..]))
  }

  function Prec(pairs: seq<Pair>, i: nat): int
    requires i < |pairs|
  {
    Precedence(pairs[i].0)
  }

  /** The operator that ends up at the root. */
  function RootIndex(pairs: seq<Pair>): (j: nat)
    requires pairs != []
    ensures j < |pairs|
    decreases pairs
  {
    if |pairs| == 1 then 0
    else
      var j := RootIndex(pairs[1..]) + 1;
      if Prec(pairs, j) > Prec(pairs, 0) then j - 1 else j
  }

  lemma {:induction false} LeftChainFront(left: Tree, op: BinaryOp, a: Tree, pairs: seq<Pair>)
    ensures LeftChain(left, [(op, a)] + pairs) == LeftChain(Node(op, left, a), pairs)
    decreases pairs
  {
    var s := [(op, a)] + pairs;
    if pairs == [] {
      assert s[..0] == [];
    } else {
      assert s[..|s|-1] == [(op, a)] + pairs[..|pairs|-1];
      LeftChainFront(left, op, a, pairs[..|pairs|-1]);
    }
  }

  /** Whatever the operators, the result is left-associated up to the root and right-associated behind it. */
  lemma {:induction false} BuildIsMixed(left: Tree, pairs: seq<Pair>)
    requires pairs != []
    ensures Build(left, pairs) == Mixed(left, pairs, RootIndex(pairs))
    decreases pairs
  {
    var (op, a) := pairs[0];
    var l := Node(op, left, a);
    if |pairs| == 1 {
      assert pairs[1..] == [] && pairs[..0] == [];
    } else {
      BuildIsMixed(l, pairs[1..]);
      var j := RootIndex(pairs[1..]);
      MixedFront(left, pairs, j);
      RotateMixed(left, pairs, j + 1);
    }
  }

  lemma {:induction false} MixedFront(left: Tree, pairs: seq<Pair>, j: nat)
    requires j + 1 < |pairs|
    ensures Mixed(Node(pairs[0].0, left, pairs[0].1), pairs[1..], j) == Mixed(left, pairs, j + 1)
  {
    var rest := pairs[1..];
    LeftChainFront(left, pairs[0].0, pairs[0].1, rest[..j]);
    assert [(pairs[0].0, pairs[0].1)] + rest[..j] == pairs[..j+1];
    assert rest[j+1..] == pairs[j+2..];
  }

  /** One rotation moves the root one operator to the left. */
  lemma {:induction false} RotateMixed(left: Tree, pairs: seq<Pair>, j: nat)
    requires 0 < j < |pairs|
    ensures Rotate(Prec(pairs, 0), Mixed(left, pairs, j)) ==
      if Prec(pairs, j) > Prec(pairs, 0) then Mixed(left, pairs, j - 1) else Mixed(left, pairs, j)
  {
    var front := pairs[..j];
    assert front[..|front|-1] == pairs[..j-1];
    var tail := pairs[j..];
    assert tail[1..] == pairs[j+1..];
  }

  // ---------------------------------------------------------------- order is kept

  /** The tokens of a chain. */
  function FlatPairs(pairs: seq<Pair>): seq<Token>
    decreases pairs
  {
    if pairs == [] then [] else [TOp(pairs[0].0)] + Flat(pairs[0].1) + FlatPairs(pairs[1..])
  }

  lemma {:induction false} RotateKeepsOrder(p: int, t: Tree)
    ensures Flat(Rotate(p, t)) == Flat(t)
  {
    if t.Node? && t.left.Node? && Precedence(t.op) > p {
      var a, b, c := Flat(t.left.left), Flat(t.left.right), Flat(t.right);
      assert (a + [TOp(t.left.op)] + b) + [TOp(t.op)] + c == a + [TOp(t.left.op)] + (b + [TOp(t.op)] + c);
    }
  }

  /** Rotations never reorder operands and operators. */
  lemma {:induction false} BuildKeepsOrder(left: Tree, pairs: seq<Pair>)
    ensures Flat(Build(left, pairs)) == Flat(left) + FlatPairs(pairs)
    decreases pairs
  {
    if pairs != [] {
      var l := Node(pairs[0].0, left, pairs[0].1);
      BuildKeepsOrder(l, pairs[1..]);
      RotateKeepsOrder(Precedence(pairs[0].0), Build(l, pairs[1..]));
      assert Flat(left) + [TOp(pairs[0].0)] + Flat(pairs[0].1) + FlatPairs(pairs[1..])
          == Flat(left) + ([TOp(pairs[0].0)] + Flat(pairs[0].1) + FlatPairs(pairs[1..]));
    } else {
      assert Flat(left) + [] == Flat(left);
    }
  }

  // ---------------------------------------------------------------- precedence

  /** Products and quotients bind tighter than sums and differences, and these bind tighter than comparisons. */
  predicate BindsTighter(op: BinaryOp, than: BinaryOp) {
    match op
    case Mul => !(than == Mul || than == Div)
    case Div => !(than == Mul || than == Div)
    case Add => than == Equals || than == Less || than == Greater || than == LessEq || than == GreaterEq
    case Sub => than == Equals || than == Less || than == Greater || than == LessEq || than == GreaterEq
    case _ => false
  }

  /** The numbers say the same. */
  lemma {:induction false} PrecedenceOrders(op: BinaryOp, than: BinaryOp)
    ensures Precedence(op) > Precedence(than) <==> BindsTighter(op, than)
  {
  }

  /** Every operator binds its operands as precedence and left association demand: on the left nothing that binds
      looser, on the right only what binds tighter. */
  predicate Correct(t: Tree) {
    match t
    case Node(op, l, r) =>
      && Correct(l) && Correct(r)
      && (l.Node? ==> !BindsTighter(op, l.op)) && (r.Node? ==> BindsTighter(r.op, op))
    case Group(u) => Correct(u)
    case Signed(_, u) => Correct(u)
    case _ => true
  }

  /** An operand between operators: not itself an unparenthesised operator, and correct inside. */
  predicate Operand(t: Tree) {
    !t.Node? && Correct(t)
  }

  predicate Operands(left: Tree, pairs: seq<Pair>) {
    Operand(left) && forall i :: 0 <= i < |pairs| ==> Operand(pairs[i].1)
  }

  predicate NonIncreasing(pairs: seq<Pair>, j: nat)
    requires j < |pairs|
  {
    forall i :: 0 <= i < j ==> Prec(pairs, i) >= Prec(pairs, i + 1)
  }

  predicate Increasing(pairs: seq<Pair>, j: nat)
    requires j < |pairs|
  {
    forall i :: j <= i < |pairs| - 1 ==> Prec(pairs, i) < Prec(pairs, i + 1)
  }

  /** Up to operator j none binds tighter than the one before it. */
  predicate Falls(pairs: seq<Pair>, j: nat)
    requires j < |pairs|
  {
    forall i :: 0 <= i < j ==> !BindsTighter(pairs[i+1].0, pairs[i].0)
  }

  /** From operator j on each binds tighter than the one before it. */
  predicate Rises(pairs: seq<Pair>, j: nat)
    requires j < |pairs|
  {
    forall i :: j <= i < |pairs| - 1 ==> BindsTighter(pairs[i+1].0, pairs[i].0)
  }

  /** The operators bind looser, or alike, up to some operator and ever tighter from there on. */
  predicate Valley(pairs: seq<Pair>) {
    exists j :: 0 <= j < |pairs| && Falls(pairs, j) && Rises(pairs, j)
  }

  lemma {:induction false} FallsByNumbers(pairs: seq<Pair>, j: nat)
    requires j < |pairs|
    ensures Falls(pairs, j) <==> NonIncreasing(pairs, j)
    ensures Rises(pairs, j) <==> Increasing(pairs, j)
  {
    hide Precedence, BindsTighter;
    forall i: nat | i < |pairs| - 1
      ensures Prec(pairs, i + 1) > Prec(pairs, i) <==> BindsTighter(pairs[i+1].0, pairs[i].0)
    {
      PrecedenceOrders(pairs[i+1].0, pairs[i].0);
    }
  }

  lemma {:induction false} LeftChainCorrect(left: Tree, pairs: seq<Pair>)
    requires Operands(left, pairs) && pairs != []
    ensures Correct(LeftChain(left, pairs)) <==> NonIncreasing(pairs, |pairs| - 1)
    decreases pairs
  {
    var n := |pairs| - 1;
    var front := pairs[..n];
    if n > 0 {
      PrecedenceOrders(pairs[n].0, pairs[n-1].0);
      LeftChainCorrect(left, front);
      assert forall i :: 0 <= i < n ==> Prec(front, i) == Prec(pairs, i);
      assert NonIncreasing(pairs, n) <==> NonIncreasing(front, n - 1) && Prec(pairs, n - 1) >= Prec(pairs, n) by {
        ExtendFall(pairs, n);
      }
    }
  }

  lemma {:induction false} ExtendFall(pairs: seq<Pair>, n: nat)
    requires 0 < n == |pairs| - 1
    ensures NonIncreasing(pairs, n) <==> NonIncreasing(pairs[..n], n - 1) && Prec(pairs, n - 1) >= Prec(pairs, n)
  {
    var front := pairs[..n];
    assert forall i: nat :: i < n ==> Prec(front, i) == Prec(pairs, i);
    if NonIncreasing(front, n - 1) && Prec(pairs, n - 1) >= Prec(pairs, n) {
      forall i | 0 <= i < n
        ensures Prec(pairs, i) >= Prec(pairs, i + 1)
      {
        if i < n - 1 {
          assert Prec(front, i) >= Prec(front, i + 1);
        }
      }
    }
    if NonIncreasing(pairs, n) {
      forall i | 0 <= i < n - 1
        ensures Prec(front, i) >= Prec(front, i + 1)
      {
        assert Prec(pairs, i) >= Prec(pairs, i + 1);
      }
      assert Prec(pairs, n - 1) >= Prec(pairs, n - 1 + 1);
    }
  }

  lemma {:induction false} RightChainCorrect(first: Tree, pairs: seq<Pair>)
    requires Operands(first, pairs) && pairs != []
    ensures Correct(RightChain(first, pairs)) <==> Increasing(pairs, 0)
    decreases pairs
  {
    if |pairs| > 1 {
      PrecedenceOrders(pairs[1].0, pairs[0].0);
      RightChainCorrect(pairs[0].1, pairs[1..]);
      ExtendRise(pairs);
    } else {
      assert pairs[1..] == [];
    }
  }

  lemma {:induction false} ExtendRise(pairs: seq<Pair>)
    requires |pairs| > 1
    ensures Increasing(pairs, 0) <==> Increasing(pairs[1..], 0) && Prec(pairs, 0) < Prec(pairs, 1)
  {
    var rest := pairs[1..];
    assert forall i: nat :: i < |rest| ==> Prec(rest, i) == Prec(pairs, i + 1);
    if Increasing(rest, 0) && Prec(pairs, 0) < Prec(pairs, 1) {
      forall i | 0 <= i < |pairs| - 1
        ensures Prec(pairs, i) < Prec(pairs, i + 1)
      {
        if i > 0 {
          assert Prec(rest, i - 1) < Prec(rest, i - 1 + 1);
        }
      }
    }
    if Increasing(pairs, 0) {
      assert Prec(pairs, 0) < Prec(pairs, 0 + 1);
      forall i | 0 <= i < |rest| - 1
        ensures Prec(rest, i) < Prec(rest, i + 1)
      {
        assert Prec(pairs, i + 1) < Prec(pairs, i + 1 + 1);
      }
    }
  }

  lemma {:induction false} PartsKeep(pairs: seq<Pair>, j: nat)
    requires j < |pairs|
    ensures j > 0 ==> (NonIncreasing(pairs, j) <==> NonIncreasing(pairs[..j], j - 1) && Prec(pairs, j - 1) >= Prec(pairs, j))
    ensures j + 1 < |pairs| ==> (Increasing(pairs, j) <==> Increasing(pairs[j+1..], 0) && Prec(pairs, j) < Prec(pairs, j + 1))
  {
    if j > 0 {
      ExtendFall(pairs[..j+1], j);
      assert pairs[..j+1][..j] == pairs[..j];
      FallOfPrefix(pairs, j);
    }
    if j + 1 < |pairs| {
      ExtendRise(pairs[j..]);
      assert pairs[j..][1..] == pairs[j+1..];
      RiseOfSuffix(pairs, j);
    }
  }

  lemma {:induction false} FallOfPrefix(pairs: seq<Pair>, j: nat)
    requires j < |pairs|
    ensures NonIncreasing(pairs[..j+1], j) <==> NonIncreasing(pairs, j)
  {
    var front := pairs[..j+1];
    assert forall i: nat :: i <= j ==> Prec(front, i) == Prec(pairs, i);
    if NonIncreasing(front, j) {
      forall i | 0 <= i < j
        ensures Prec(pairs, i) >= Prec(pairs, i + 1)
      {
        assert Prec(front, i) >= Prec(front, i + 1);
      }
    }
    if NonIncreasing(pairs, j) {
      forall i | 0 <= i < j
        ensures Prec(front, i) >= Prec(front, i + 1)
      {
        assert Prec(pairs, i) >= Prec(pairs, i + 1);
      }
    }
  }

  lemma {:induction false} RiseOfSuffix(pairs: seq<Pair>, j: nat)
    requires j < |pairs|
    ensures Increasing(pairs[j..], 0) <==> Increasing(pairs, j)
  {
    var tail := pairs[j..];
    assert forall i: nat :: i < |tail| ==> Prec(tail, i) == Prec(pairs, j + i);
    if Increasing(tail, 0) {
      forall i | j <= i < |pairs| - 1
        ensures Prec(pairs, i) < Prec(pairs, i + 1)
      {
        assert Prec(tail, i - j) < Prec(tail, i - j + 1);
      }
    }
    if Increasing(pairs, j) {
      forall i | 0 <= i < |tail| - 1
        ensures Prec(tail, i) < Prec(tail, i + 1)
      {
        assert Prec(pairs, j + i) < Prec(pairs, j + i + 1);
      }
    }
  }

  lemma {:induction false} MixedCorrect(left: Tree, pairs: seq<Pair>, j: nat)
    requires Operands(left, pairs) && j < |pairs|
    ensures Correct(Mixed(left, pairs, j)) <==> NonIncreasing(pairs, j) && Increasing(pairs, j)
  {
    PartsKeep(pairs, j);
    if j > 0 {
      PrecedenceOrders(pairs[j].0, pairs[j-1].0);
      LeftChainCorrect(left, pairs[..j]);
    }
    if j + 1 < |pairs| {
      PrecedenceOrders(pairs[j+1].0, pairs[j].0);
      RightChainCorrect(pairs[j].1, pairs[j+1..]);
    }
  }

  lemma {:induction false} FallsFromStart(pairs: seq<Pair>, j: nat)
    requires j < |pairs| && NonIncreasing(pairs, j)
    ensures Prec(pairs, j) <= Prec(pairs, 0)
  {
    if j > 0 {
      FallsFromStart(pairs, j - 1);
      assert Prec(pairs, j - 1) >= Prec(pairs, j - 1 + 1);
    }
  }

  /** The rotations find the bottom of a valley. */
  lemma {:induction false} RootIsBottom(pairs: seq<Pair>, j: nat)
    requires j < |pairs| && NonIncreasing(pairs, j) && Increasing(pairs, j)
    ensures RootIndex(pairs) == j
    decreases pairs
  {
    if |pairs| > 1 {
      var rest := pairs[1..];
      assert forall i: nat :: i < |rest| ==> Prec(rest, i) == Prec(pairs, i + 1);
      var k := if j == 0 then 0 else j - 1;
      forall i | 0 <= i < k
        ensures Prec(rest, i) >= Prec(rest, i + 1)
      {
        assert Prec(pairs, i + 1) >= Prec(pairs, i + 1 + 1);
      }
      forall i | k <= i < |rest| - 1
        ensures Prec(rest, i) < Prec(rest, i + 1)
      {
        assert Prec(pairs, i + 1) < Prec(pairs, i + 1 + 1);
      }
      RootIsBottom(rest, k);
      if j == 0 {
        assert Prec(pairs, 0) < Prec(pairs, 0 + 1);
      } else {
        FallsFromStart(pairs, j);
      }
    }
  }

  /** The parser respects precedence for exactly the chains whose operators form a valley. */
  lemma {:induction false} CorrectIffValley(left: Tree, pairs: seq<Pair>)
    requires Operands(left, pairs) && pairs != []
    ensures Correct(Build(left, pairs)) <==> Valley(pairs)
  {
    BuildIsMixed(left, pairs);
    MixedCorrect(left, pairs, RootIndex(pairs));
    FallsByNumbers(pairs, RootIndex(pairs));
    if Valley(pairs) {
      var j :| 0 <= j < |pairs| && Falls(pairs, j) && Rises(pairs, j);
      FallsByNumbers(pairs, j);
      RootIsBottom(pairs, j);
    }
  }

  /** Chains in which no operator binds tighter than the one before it come out left-associated. */
  lemma {:induction false} FallingIsLeftAssociated(left: Tree, pairs: seq<Pair>)
    requires pairs != [] && Falls(pairs, |pairs| - 1)
    ensures Build(left, pairs) == LeftChain(left, pairs)
  {
    BuildIsMixed(left, pairs);
    FallsByNumbers(pairs, |pairs| - 1);
    RootIsBottom(pairs, |pairs| - 1);
    assert pairs[|pairs|..] == [];
  }

  /** How two operators are read: from the left, unless the second one is a product or quotient behind something else,
      or a sum or difference behind a comparison. */
  lemma {:induction false} TwoOperators(a: Tree, op: BinaryOp, b: Tree, op': BinaryOp, c: Tree)
    ensures Build(a, [(op, b), (op', c)]) ==
      if ((op' == Mul || op' == Div) && op != Mul && op != Div)
         || ((op' == Add || op' == Sub) && op != Mul && op != Div && op != Add && op != Sub)
      then Node(op, a, Node(op', b, c)) else Node(op', Node(op, a, b), c)
  {
    var pairs := [(op, b), (op', c)];
    assert pairs[1..] == [(op', c)] && pairs[1..][1..] == [];
    var l := Node(op, a, b);
    assert Build(Node(op', l, c), []) == Node(op', l, c);
    assert Build(l, [(op', c)]) == Node(op', l, c);
    PrecedenceOrders(op', op);
  }

  /** a + b * c * d is the smallest kind of chain that goes wrong: it is read as (a + b) * (c * d). */
  lemma {:induction false} TwoProductsGoWrong(a: Tree, b: Tree, c: Tree, d: Tree)
    ensures Build(a, [(Add, b), (Mul, c), (Mul, d)]) == Node(Mul, Node(Add, a, b), Node(Mul, c, d))
  {
    var pairs := [(Add, b), (Mul, c), (Mul, d)];
    assert pairs[1..] == [(Mul, c), (Mul, d)] && pairs[1..][1..] == [(Mul, d)] && pairs[1..][1..][1..] == [];
    var l1 := Node(Add, a, b);
    var l2 := Node(Mul, l1, c);
    assert Build(Node(Mul, l2, d), []) == Node(Mul, l2, d);
    assert Build(l2, [(Mul, d)]) == Node(Mul, l2, d);
    assert Build(l1, [(Mul, c), (Mul, d)]) == Node(Mul, l2, d);
  }

  // ---------------------------------------------------------------- from tokens to trees

  /** A tree with the remaining tokens; no tree, with an error message set; or nothing that the program
      text defines: a sign in front of something that is no number, an expression that starts with no
      operand, an operator behind an operand that failed. */
  datatype Outcome = Parsed(tree: Tree, rest: seq<Token>) | Failed(rest: seq<Token>) | Undefined

  predicate Shorter(o: Outcome, n: nat) {
    match o
    case Parsed(_, rest) => |rest| <= n
    case Failed(rest) => |rest| <= n
    case Undefined => true
  }

  predicate StartsWithOp(toks: seq<Token>) {
    toks != [] && toks[0].TOp?
  }

  function AtomOf(toks: seq<Token>, hasPrefix: bool): (o: Outcome)
    ensures Shorter(o, if |toks| == 0 then 0 else |toks| - 1)
    decreases |toks|, 0
  {
    if toks == [] then Undefined
    else match toks[0]
      case TOp(op) =>
        if hasPrefix || (op != Add && op != Sub) then Undefined
        else
          (match AtomOf(toks[1..], true)
           case Parsed(t, rest) =>
             if op == Sub && !Abstract(t).Num? then Undefined else Parsed(Signed(op == Sub, t), rest)
           case Failed(rest) => if op == Sub then Undefined else Failed(rest)
           case Undefined => Undefined)
      case ParenOpen =>
        (match ExpressionOf(toks[1..])
         case Parsed(t, rest) =>
           if rest != [] && rest[0] == ParenClose then Parsed(Group(t), rest[1..])
           else Failed(if rest == [] then [] else rest[1..])
         case Failed(rest) => AfterFailed(rest)
         case Undefined => Undefined)
      case TNumber(n) => Parsed(NumLeaf(n), toks[1..])
      case TId(x) => Parsed(VarLeaf(x), toks[1..])
      case _ => Undefined
  }

  /** Without a tree the closing parenthesis is still looked for; the result is no tree in either case. */
  function AfterFailed(rest: seq<Token>): (o: Outcome)
    ensures o.Failed? && Shorter(o, |rest|)
  {
    if rest == [] then Failed([]) else Failed(rest[1..])
  }

  function ExpressionOf(toks: seq<Token>): (o: Outcome)
    ensures Shorter(o, if |toks| == 0 then 0 else |toks| - 1)
    decreases |toks|, 1
  {
    match AtomOf(toks, false)
    case Parsed(t, rest) => BinaryOf(t, rest)
    case Failed(rest) => if StartsWithOp(rest) then Undefined else Failed(rest)
    case Undefined => Undefined
  }

  function BinaryOf(left: Tree, toks: seq<Token>): (o: Outcome)
    ensures Shorter(o, |toks|)
    decreases |toks|, 2
  {
    if !StartsWithOp(toks) then Parsed(left, toks)
    else
      var op := toks[0].op;
      match AtomOf(toks[1..], false)
      case Parsed(a, rest) =>
        (match BinaryOf(Node(op, left, a), rest)
         case Parsed(t, rest') => Parsed(Rotate(Precedence(op), t), rest')
         case Failed(rest') => Failed(rest')
         case Undefined => Undefined)
      case Failed(rest) => Failed(rest)
      case Undefined => Undefined
  }

  lemma {:induction false} BuildStep(left: Tree, op: BinaryOp, a: Tree, more: seq<Pair>)
    ensures Build(left, [(op, a)] + more) == Rotate(Precedence(op), Build(Node(op, left, a), more))
    ensures FlatPairs([(op, a)] + more) == [TOp(op)] + Flat(a) + FlatPairs(more)
  {
    assert ([(op, a)] + more)[1..] == more;
  }

  /** One operator and one operand of a chain. */
  lemma {:induction false} BinaryStep(left: Tree, toks: seq<Token>)
    requires BinaryOf(left, toks).Parsed? && StartsWithOp(toks)
    ensures var op, a := toks[0].op, AtomOf(toks[1..], false);
      && a.Parsed? && |a.rest| < |toks| && BinaryOf(Node(op, left, a.tree), a.rest).Parsed?
      && BinaryOf(left, toks).tree == Rotate(Precedence(op), BinaryOf(Node(op, left, a.tree), a.rest).tree)
      && BinaryOf(left, toks).rest == BinaryOf(Node(op, left, a.tree), a.rest).rest
      && toks == [TOp(op)] + toks[1..]
  {
  }

  lemma {:induction false} Regroup(l: seq<Token>, o: seq<Token>, a: seq<Token>, r: seq<Token>)
    ensures l + (o + (a + r)) == (l + o + a) + r
  {
  }

  /** What was consumed, read from left to right, is exactly what the tree holds. */
  lemma {:induction false} AtomKeepsTokens(toks: seq<Token>, hasPrefix: bool)
    requires AtomOf(toks, hasPrefix).Parsed?
    ensures toks == Flat(AtomOf(toks, hasPrefix).tree) + AtomOf(toks, hasPrefix).rest
    ensures !AtomOf(toks, hasPrefix).tree.Node?
    decreases |toks|, 0
  {
    hide ExpressionOf, BinaryOf;
    match toks[0]
    case TOp(op) =>
      AtomKeepsTokens(toks[1..], true);
      assert toks == [toks[0]] + toks[1..];
    case ParenOpen =>
      ExpressionKeepsTokens(toks[1..]);
      var t, rest := ExpressionOf(toks[1..]).tree, ExpressionOf(toks[1..]).rest;
      assert toks == [ParenOpen] + (Flat(t) + ([ParenClose] + rest[1..]));
    case TNumber(_) =>
    case TId(_) =>
  }

  lemma {:induction false} ExpressionKeepsTokens(toks: seq<Token>)
    requires ExpressionOf(toks).Parsed?
    ensures toks == Flat(ExpressionOf(toks).tree) + ExpressionOf(toks).rest
    decreases |toks|, 1
  {
    AtomKeepsTokens(toks, false);
    var a := AtomOf(toks, false);
    BinaryKeepsTokens(a.tree, a.rest);
  }

  lemma {:induction false} BinaryKeepsTokens(left: Tree, toks: seq<Token>)
    requires BinaryOf(left, toks).Parsed?
    ensures Flat(left) + toks == Flat(BinaryOf(left, toks).tree) + BinaryOf(left, toks).rest
    decreases |toks|, 2
  {
    if StartsWithOp(toks) {
      hide BinaryOf, AtomOf, Rotate, Precedence;
      var op, a := toks[0].op, AtomOf(toks[1..], false);
      BinaryStep(left, toks);
      AtomKeepsTokens(toks[1..], false);
      BinaryKeepsTokens(Node(op, left, a.tree), a.rest);
      RotateKeepsOrder(Precedence(op), BinaryOf(Node(op, left, a.tree), a.rest).tree);
      Regroup(Flat(left), [TOp(op)], Flat(a.tree), a.rest);
    }
  }

  /** Parsing the operators behind an operand builds a chain: rotations never reach inside an operand. */
  lemma {:induction false} BinaryIsChain(left: Tree, toks: seq<Token>) returns (pairs: seq<Pair>)
    requires BinaryOf(left, toks).Parsed?
    ensures BinaryOf(left, toks).tree == Build(left, pairs)
    ensures toks == FlatPairs(pairs) + BinaryOf(left, toks).rest && !StartsWithOp(BinaryOf(left, toks).rest)
    ensures forall i :: 0 <= i < |pairs| ==> !pairs[i].1.Node?
    decreases |toks|
  {
    if !StartsWithOp(toks) {
      pairs := [];
    } else {
      hide BinaryOf, AtomOf, Rotate, Precedence, Flat, Build, FlatPairs;
      var op, a := toks[0].op, AtomOf(toks[1..], false);
      BinaryStep(left, toks);
      AtomKeepsTokens(toks[1..], false);
      var more := BinaryIsChain(Node(op, left, a.tree), a.rest);
      pairs := [(op, a.tree)] + more;
      BuildStep(left, op, a.tree, more);
      Regroup([TOp(op)], Flat(a.tree), FlatPairs(more), BinaryOf(left, toks).rest);
    }
  }

  lemma {:induction false} ExpressionStep(toks: seq<Token>)
    requires ExpressionOf(toks).Parsed?
    ensures var a := AtomOf(toks, false); a.Parsed? && ExpressionOf(toks) == BinaryOf(a.tree, a.rest)
  {
  }

  /** So a parsed expression is a chain of operands, none of which is an unparenthesised operator. */
  lemma {:induction false} ExpressionIsChain(toks: seq<Token>) returns (first: Tree, pairs: seq<Pair>)
    requires ExpressionOf(toks).Parsed?
    ensures ExpressionOf(toks).tree == Build(first, pairs)
    ensures toks == Flat(first) + FlatPairs(pairs) + ExpressionOf(toks).rest && !StartsWithOp(ExpressionOf(toks).rest)
    ensures !first.Node? && forall i :: 0 <= i < |pairs| ==> !pairs[i].1.Node?
  {
    ExpressionStep(toks);
    AtomKeepsTokens(toks, false);
    hide *;
    var a := AtomOf(toks, false);
    first := a.tree;
    pairs := BinaryIsChain(first, a.rest);
    Pairwise(Flat(first), FlatPairs(pairs), ExpressionOf(toks).rest);
  }

  lemma {:induction false} Pairwise(a: seq<Token>, b: seq<Token>, c: seq<Token>)
    ensures a + (b + c) == a + b + c
  {
  }

  // ---------------------------------------------------------------- every expression is parsed

  /** One sign may stand in front of a number, a variable or parentheses, a minus only in front of a number, which may
      be in parentheses. */
  predicate WellFormed(t: Tree) {
    match t
    case Node(_, l, r) => WellFormed(l) && WellFormed(r)
    case Group(u) => WellFormed(u)
    case Signed(minus, u) => WellFormed(u) && !u.Node? && !u.Signed? && (minus ==> IsNumber(u))
    case _ => true
  }

  predicate IsNumber(t: Tree) {
    match t
    case NumLeaf(_) => true
    case Group(u) => IsNumber(u)
    case Signed(_, u) => IsNumber(u)
    case _ => false
  }

  lemma {:induction false} NumberIsNum(t: Tree)
    ensures Abstract(t).Num? <==> IsNumber(t)
  {
    match t
    case Group(u) => NumberIsNum(u);
    case Signed(_, u) => NumberIsNum(u);
    case _ =>
  }

  lemma {:induction false} SomeTokens(t: Tree)
    ensures |Flat(t)| > 0
  {
    match t
    case Node(_, l, r) => SomeTokens(l);
    case _ =>
  }

  lemma {:induction false} FlatPairsConcat(a: seq<Pair>, b: seq<Pair>)
    ensures FlatPairs(a + b) == FlatPairs(a) + FlatPairs(b)
    decreases a
  {
    if a == [] {
      assert a + b == b;
    } else {
      assert (a + b)[0] == a[0] && (a + b)[1..] == a[1..] + b;
      FlatPairsConcat(a[1..], b);
    }
  }

  ghost predicate WellFormedPairs(pairs: seq<Pair>) {
    forall i :: 0 <= i < |pairs| ==> !pairs[i].1.Node? && WellFormed(pairs[i].1)
  }

  /** The operands and operators of a tree in their order. */
  lemma {:induction false} ChainOf(t: Tree) returns (first: Tree, pairs: seq<Pair>)
    requires WellFormed(t)
    ensures !first.Node? && WellFormed(first) && WellFormedPairs(pairs) && Flat(t) == Flat(first) + FlatPairs(pairs)
    ensures if t.Node? then pairs != [] else pairs == [] && first == t
  {
    match t
    case Node(op, l, r) =>
      var more, last;
      first, more := ChainOf(l);
      var next: Tree;
      next, last := ChainOf(r);
      pairs := more + ([(op, next)] + last);
      FlatPairsConcat(more, [(op, next)] + last);
      assert ([(op, next)] + last)[1..] == last;
      Regroup4(Flat(first), FlatPairs(more), [TOp(op)], Flat(next), FlatPairs(last));
    case _ =>
      first, pairs := t, [];
      assert Flat(t) + [] == Flat(t);
  }

  lemma {:induction false} Regroup4(a: seq<Token>, b: seq<Token>, c: seq<Token>, d: seq<Token>, e: seq<Token>)
    ensures (a + b) + c + (d + e) == a + (b + (c + d + e))
  {
  }

  lemma {:induction false} LeafIsParsed(a: Tree, more: seq<Token>, hasPrefix: bool)
    requires a.NumLeaf? || a.VarLeaf?
    ensures AtomOf(Flat(a) + more, hasPrefix) == Parsed(a, more)
  {
    assert (Flat(a) + more)[1..] == more;
  }

  lemma {:induction false} GroupParsedStep(toks: seq<Token>, t: Tree, more: seq<Token>, hasPrefix: bool)
    requires ExpressionOf(toks) == Parsed(t, [ParenClose] + more)
    ensures AtomOf([ParenOpen] + toks, hasPrefix) == Parsed(Group(t), more)
  {
    assert ([ParenOpen] + toks)[1..] == toks && ([ParenClose] + more)[1..] == more;
  }

  lemma {:induction false} SignParsedStep(minus: bool, toks: seq<Token>, t: Tree, more: seq<Token>)
    requires AtomOf(toks, true) == Parsed(t, more) && (minus ==> IsNumber(t))
    ensures AtomOf([TOp(if minus then Sub else Add)] + toks, false) == Parsed(Signed(minus, t), more)
  {
    NumberIsNum(t);
    assert ([TOp(if minus then Sub else Add)] + toks)[1..] == toks;
  }

  lemma {:induction false} FlatOf(a: Tree)
    ensures a.Group? ==> Flat(a) == [ParenOpen] + Flat(a.inner) + [ParenClose]
    ensures a.Signed? ==> Flat(a) == [TOp(if a.minus then Sub else Add)] + Flat(a.inner)
  {
  }

  /** The tokens of an operand are read as an operand that is a number exactly if this one is. */
  lemma {:induction false} AtomIsParsed(a: Tree, more: seq<Token>, hasPrefix: bool) returns (b: Tree)
    requires !a.Node? && WellFormed(a) && (hasPrefix ==> !a.Signed?)
    ensures AtomOf(Flat(a) + more, hasPrefix) == Parsed(b, more) && (IsNumber(b) <==> IsNumber(a)) && !b.Node?
    decreases |Flat(a)|, 0
  {
    hide AtomOf, ExpressionOf, BinaryOf, Flat, Abstract;
    FlatOf(a);
    match a
    case Group(u) =>
      SomeTokens(u);
      var t := TreeIsParsed(u, [ParenClose] + more);
      GroupParsedStep(Flat(u) + ([ParenClose] + more), t, more, hasPrefix);
      Associate([ParenOpen], Flat(u), [ParenClose], more);
      b := Group(t);
    case Signed(minus, u) =>
      var t := AtomIsParsed(u, more, true);
      SignParsedStep(minus, Flat(u) + more, t, more);
      Pairwise([TOp(if minus then Sub else Add)], Flat(u), more);
      b := Signed(minus, t);
    case _ =>
      LeafIsParsed(a, more, hasPrefix);
      b := a;
  }

  lemma {:induction false} BinaryParsedStep(left: Tree, op: BinaryOp, toks: seq<Token>, b: Tree, more: seq<Token>, u: Tree,
                                            rest: seq<Token>)
    requires AtomOf(toks, false) == Parsed(b, more) && BinaryOf(Node(op, left, b), more) == Parsed(u, rest)
    ensures BinaryOf(left, [TOp(op)] + toks) == Parsed(Rotate(Precedence(op), u), rest)
  {
    assert ([TOp(op)] + toks)[1..] == toks;
  }

  lemma {:induction false} RotateKeepsNode(p: int, t: Tree)
    requires t.Node?
    ensures Rotate(p, t).Node?
  {
  }

  lemma {:induction false} FlatPairsStep(pairs: seq<Pair>, rest: seq<Token>)
    requires pairs != []
    ensures FlatPairs(pairs) + rest == [TOp(pairs[0].0)] + (Flat(pairs[0].1) + (FlatPairs(pairs[1..]) + rest))
    ensures |FlatPairs(pairs)| == 1 + |Flat(pairs[0].1)| + |FlatPairs(pairs[1..])|
  {
    hide Flat;
    var f, more := Flat(pairs[0].1), FlatPairs(pairs[1..]);
    assert FlatPairs(pairs) == [TOp(pairs[0].0)] + f + more;
    hide FlatPairs;
    Associate([TOp(pairs[0].0)], f, more, rest);
  }

  lemma {:induction false} Associate(a: seq<Token>, b: seq<Token>, c: seq<Token>, d: seq<Token>)
    ensures a + b + c + d == a + (b + (c + d))
  {
  }

  lemma {:induction false} NoPairs(left: Tree, rest: seq<Token>)
    requires !StartsWithOp(rest)
    ensures FlatPairs([]) + rest == rest && BinaryOf(left, rest) == Parsed(left, rest)
  {
  }

  lemma {:induction false} PairsAreParsed(left: Tree, pairs: seq<Pair>, rest: seq<Token>) returns (t: Tree)
    requires WellFormedPairs(pairs) && !StartsWithOp(rest)
    ensures BinaryOf(left, FlatPairs(pairs) + rest) == Parsed(t, rest) && (pairs == [] ==> t == left)
    ensures left.Node? || pairs != [] ==> t.Node?
    decreases |FlatPairs(pairs)|, 1
  {
    hide BinaryOf, AtomOf, Flat, FlatPairs, Rotate, Precedence, WellFormed;
    if pairs == [] {
      t := left;
      NoPairs(left, rest);
    } else {
      var op, a := pairs[0].0, pairs[0].1;
      FlatPairsStep(pairs, rest);
      SomeTokens(a);
      assert WellFormedPairs(pairs[1..]);
      var more := FlatPairs(pairs[1..]) + rest;
      var b := AtomIsParsed(a, more, false);
      var u := PairsAreParsed(Node(op, left, b), pairs[1..], rest);
      BinaryParsedStep(left, op, Flat(a) + more, b, more, u, rest);
      t := Rotate(Precedence(op), u);
      RotateKeepsNode(Precedence(op), u);
    }
  }

  /** The tokens of every well-formed tree are read to the end, as a tree with the same tokens. */
  lemma {:induction false} TreeIsParsed(t: Tree, rest: seq<Token>) returns (r: Tree)
    requires WellFormed(t) && !StartsWithOp(rest)
    ensures ExpressionOf(Flat(t) + rest) == Parsed(r, rest) && Flat(r) == Flat(t) && (IsNumber(r) <==> IsNumber(t))
    decreases |Flat(t)|, 2
  {
    var first, pairs := ChainOf(t);
    var toks := Flat(t) + rest;
    assert toks == Flat(first) + (FlatPairs(pairs) + rest);
    var a := AtomIsParsed(first, FlatPairs(pairs) + rest, false);
    r := PairsAreParsed(a, pairs, rest);
    ExpressionKeepsTokens(toks);
    SameFront(Flat(r), Flat(t), rest);
  }

  lemma {:induction false} SameFront(a: seq<Token>, b: seq<Token>, rest: seq<Token>)
    requires a + rest == b + rest
    ensures a == b
  {
    assert |a| == |b|;
    assert (a + rest)[..|a|] == a && (b + rest)[..|b|] == b;
  }

  // ---------------------------------------------------------------- what an expression means

  /** The value of what was written. */
  function TreeValue(ops: Ops, env: map<string, int>, t: Tree): int {
    match t
    case NumLeaf(n) => n
    case VarLeaf(x) => if x in env then env[x] else 0
    case Node(op, l, r) => ops(op, TreeValue(ops, env, l), TreeValue(ops, env, r))
    case Group(u) => TreeValue(ops, env, u)
    case Signed(minus, u) => if minus then 0 - TreeValue(ops, env, u) else TreeValue(ops, env, u)
  }

  /** The value of what the parser has built. */
  function AstValue(ops: Ops, env: map<string, int>, a: Ast): int {
    match a
    case Num(n) => n
    case Var(x) => if x in env then env[x] else 0
    case BinExp(op, l, r) => ops(op, AstValue(ops, env, l), AstValue(ops, env, r))
  }

  /** A minus stands in front of numbers only. */
  predicate MinusOnNumbers(t: Tree) {
    match t
    case Node(_, l, r) => MinusOnNumbers(l) && MinusOnNumbers(r)
    case Group(u) => MinusOnNumbers(u)
    case Signed(minus, u) => MinusOnNumbers(u) && (minus ==> Abstract(u).Num?)
    case _ => true
  }

  lemma {:induction false} AbstractKeepsValue(ops: Ops, env: map<string, int>, t: Tree)
    requires MinusOnNumbers(t)
    ensures AstValue(ops, env, Abstract(t)) == TreeValue(ops, env, t)
  {
    match t
    case Node(_, l, r) =>
      AbstractKeepsValue(ops, env, l);
      AbstractKeepsValue(ops, env, r);
    case Group(u) => AbstractKeepsValue(ops, env, u);
    case Signed(_, u) => AbstractKeepsValue(ops, env, u);
    case _ =>
  }

  lemma {:induction false} ParsedAtomSigns(toks: seq<Token>, hasPrefix: bool)
    requires AtomOf(toks, hasPrefix).Parsed?
    ensures MinusOnNumbers(AtomOf(toks, hasPrefix).tree)
    decreases |toks|, 0
  {
    match toks[0]
    case TOp(op) => ParsedAtomSigns(toks[1..], true);
    case ParenOpen => ParsedSigns(toks[1..]);
    case _ =>
  }

  lemma {:induction false} ParsedSigns(toks: seq<Token>)
    requires ExpressionOf(toks).Parsed?
    ensures MinusOnNumbers(ExpressionOf(toks).tree)
    decreases |toks|, 1
  {
    ParsedAtomSigns(toks, false);
    var a := AtomOf(toks, false);
    ParsedBinarySigns(a.tree, a.rest);
  }

  lemma {:induction false} ParsedBinarySigns(left: Tree, toks: seq<Token>)
    requires BinaryOf(left, toks).Parsed? && MinusOnNumbers(left)
    ensures MinusOnNumbers(BinaryOf(left, toks).tree)
    decreases |toks|, 2
  {
    if StartsWithOp(toks) {
      BinaryStep(left, toks);
      ParsedAtomSigns(toks[1..], false);
      var op, a := toks[0].op, AtomOf(toks[1..], false);
      ParsedBinarySigns(Node(op, left, a.tree), a.rest);
    }
  }

  /** What the parser builds has the value of what was written, parentheses and signs included. */
  lemma {:induction false} ExpressionKeepsValue(ops: Ops, env: map<string, int>, toks: seq<Token>)
    requires ExpressionOf(toks).Parsed?
    ensures AstValue(ops, env, Abstract(ExpressionOf(toks).tree)) == TreeValue(ops, env, ExpressionOf(toks).tree)
  {
    ParsedSigns(toks);
    AbstractKeepsValue(ops, env, ExpressionOf(toks).tree);
  }

  // ---------------------------------------------------------------- the parser object

  /** The rotation as the parser does it, on trees that have forgotten their parentheses. */
  function RotateAst(p: int, a: Ast): Ast {
    if a.BinExp? && a.left.BinExp? && Precedence(a.op) > p
    then BinExp(a.left.op, a.left.left, BinExp(a.op, a.left.right, a.right))
    else a
  }

  lemma {:induction false} LeftChainOfNode(left: Tree, pairs: seq<Pair>)
    requires left.Node?
    ensures LeftChain(left, pairs).Node?
    decreases pairs
  {
  }

  /** Forgetting parentheses first makes no difference: no operand is ever mistaken for an operator of the
      chain. */
  lemma {:induction false} RotationIgnoresParentheses(op: BinaryOp, left: Tree, a: Tree, toks: seq<Token>)
    requires BinaryOf(Node(op, left, a), toks).Parsed?
    ensures var t := BinaryOf(Node(op, left, a), toks).tree;
      RotateAst(Precedence(op), Abstract(t)) == Abstract(Rotate(Precedence(op), t))
  {
    hide BinaryOf, FlatPairs, Flat;
    var l := Node(op, left, a);
    var pairs := BinaryIsChain(l, toks);
    if pairs == [] {
      assert Build(l, pairs) == l;
    } else {
      BuildIsMixed(l, pairs);
      LeftChainOfNode(l, pairs[..RootIndex(pairs)]);
    }
  }

  class Parser {
    var tokens: seq<Token>   // what the tokenizer has not delivered yet
    var peek: Token
    var hasPeek: bool

    ghost predicate Valid()
      reads this
    {
      Eof !in tokens && (hasPeek && peek == Eof ==> tokens == [])
    }

    /** The tokens that are still to be parsed. */
    ghost function Pending(): seq<Token>
      reads this
    {
      if hasPeek && peek != Eof then [peek] + tokens else tokens
    }

    constructor (tokens: seq<Token>)
      requires Eof !in tokens
      ensures Valid() && Pending() == tokens
    {
      this.tokens, peek, hasPeek := tokens, Eof, false;
    }

    method TokenNext() returns (t: Token)
      requires Eof !in tokens
      modifies this`tokens
      ensures if old(tokens) == [] then t == Eof && tokens == [] else t == old(tokens)[0] && tokens == old(tokens)[1..]
      ensures Eof !in tokens
    {
      if tokens == [] {
        t := Eof;
      } else {
        t := tokens[0];
        tokens := tokens[1..];
      }
    }

    method PeekToken() returns (t: Token)
      requires Valid()
      modifies this
      ensures Valid() && Pending() == old(Pending()) && hasPeek && t == peek
      ensures t == if Pending() == [] then Eof else Pending()[0]
    {
      if !hasPeek {
        peek := TokenNext();
      }
      hasPeek := true;
      t := peek;
    }

    method Next() returns (t: Token)
      requires Valid()
      modifies this
      ensures Valid() && t == if old(Pending()) == [] then Eof else old(Pending())[0]
      ensures Pending() == if old(Pending()) == [] then [] else old(Pending())[1..]
    {
      if hasPeek {
        t := peek;
        peek, hasPeek := Eof, false;
      } else {
        t := TokenNext();
      }
    }

    /** The result and the remaining tokens are those of the outcome. */
    ghost predicate Agrees(o: Outcome, r: Option<Ast>)
      reads this
    {
      && Valid()
      && match o
         case Parsed(t, rest) => r == Some(Abstract(t)) && Pending() == rest
         case Failed(rest) => r == None && Pending() == rest
         case Undefined => false
    }

    method ReadAtom(hasPrefix: bool) returns (r: Option<Ast>)
      requires Valid() && !AtomOf(Pending(), hasPrefix).Undefined?
      modifies this
      ensures Agrees(AtomOf(old(Pending()), hasPrefix), r)
      decreases |Pending()|, 0
    {
      var t := Next();
      if !hasPrefix && (t == TOp(Sub) || t == TOp(Add)) {
        r := ReadAtom(true);
        if t == TOp(Sub) {
          r := Some(Num(-r.value.n));
        }
      } else if t == ParenOpen {
        r := ParseExpression();
        var close := Next();
        if close != ParenClose {
          r := None;
        }
      } else if t.TNumber? {
        r := Some(Num(t.n));
      } else {
        r := Some(Var(t.name));
      }
    }

    method ParseExpression() returns (r: Option<Ast>)
      requires Valid() && !ExpressionOf(Pending()).Undefined?
      modifies this
      ensures Agrees(ExpressionOf(old(Pending())), r)
      decreases |Pending()|, 1
    {
      ghost var o := AtomOf(Pending(), false);
      r := ReadAtom(false);
      ghost var left := if o.Parsed? then o.tree else NumLeaf(0);
      r := ParseBinary(r, left);
    }

    /** left is the syntax tree of what was parsed so far, or nothing when that failed. */
    method ParseBinary(left: Option<Ast>, ghost tree: Tree) returns (r: Option<Ast>)
      requires Valid()
      requires if left.Some? then left.value == Abstract(tree) && !BinaryOf(tree, Pending()).Undefined?
               else !StartsWithOp(Pending())
      modifies this
      ensures if left.Some? then Agrees(BinaryOf(tree, old(Pending())), r)
              else Valid() && r == None && Pending() == old(Pending())
      decreases |Pending()|, 2
    {
      ghost var toks := Pending();
      var op := PeekToken();
      if !op.TOp? {
        return left;
      }
      op := Next();
      ghost var a := AtomOf(Pending(), false);
      var node := ReadAtom(false);
      if node == None {
        return None;
      }
      ghost var exp := Node(op.op, tree, a.tree);
      r := ParseBinary(Some(BinExp(op.op, left.value, node.value)), exp);
      if r != None {
        RotationIgnoresParentheses(op.op, tree, a.tree, a.rest);
        r := Some(RotateAst(Precedence(op.op), r.value));
      }
    }
  }
}
