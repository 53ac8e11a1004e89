/** The lowering of the syntax tree to blocks over virtual registers, as ir_creation.c does it. */
module Lowering {
  import opened Graphs
  import opened IR

  datatype Expr =
    | Number(n: int)
    | Variable(name: string)
    | BinaryExp(op: BinaryOp, left: Expr, right: Expr)

  datatype Stmt =
    | Declare(name: string, init: Expr)
    | Set(name: string, value: Expr)
    | If(cond: Expr, body: seq<Stmt>)
    | While(cond: Expr, body: seq<Stmt>)
    | ReturnStmt

  /** The variables of the enclosing syntax blocks, innermost last. */
  type Scopes<T> = seq<map<string, T>>

  /** The innermost scope that knows a name decides. */
  function Find<T>(scopes: Scopes<T>, name: string, default: T): T {
    if scopes == [] then default
    else if name in scopes[|scopes|-1] then scopes[|scopes|-1][name]
    else Find(scopes[..|scopes|-1], name, default)
  }

  /** The names declared in each enclosing block, innermost last. */
  type Names = seq<set<string>>

  function NamesOf<T>(scopes: Scopes<T>): Names {
    seq(|scopes|, i requires 0 <= i < |scopes| => scopes[i].Keys)
  }

  predicate Knows(names: Names, x: string) {
    exists i :: 0 <= i < |names| && x in names[i]
  }

  /** The innermost scope with x entered. */
  function Bind<T>(scopes: Scopes<T>, x: string, v: T): (r: Scopes<T>)
    requires scopes != []
    ensures |r| == |scopes| && r[..|r|-1] == scopes[..|scopes|-1] && r[|r|-1] == scopes[|scopes|-1][x := v]
  {
    scopes[..|scopes|-1] + [scopes[|scopes|-1][x := v]]
  }

  function AddName(names: Names, x: string): (r: Names)
    requires names != []
    ensures |r| == |names|
  {
    names[..|names|-1] + [names[|names|-1] + {x}]
  }

  lemma {:induction false} NamesOfBind<T>(scopes: Scopes<T>, x: string, v: T)
    requires scopes != []
    ensures NamesOf(Bind(scopes, x, v)) == AddName(NamesOf(scopes), x)
  {
    var s, a := Bind(scopes, x, v), AddName(NamesOf(scopes), x);
    forall i | 0 <= i < |scopes|
      ensures s[i].Keys == a[i]
    {
      if i < |scopes| - 1 {
        assert s[i] == s[..|s|-1][i] == scopes[i];
      }
    }
  }

  lemma {:induction false} NamesOfPush<T>(scopes: Scopes<T>)
    ensures NamesOf(scopes + [map[]]) == NamesOf(scopes) + [{}]
  {
    var m: map<string, T> := map[];
    assert m.Keys == {};
  }

  // ---------------------------------------------------------------- which trees are lowered at all

  /** Every variable of an expression is declared. */
  predicate ExprScoped(e: Expr, names: Names) {
    match e
    case Number(_) => true
    case Variable(x) => Knows(names, x)
    case BinaryExp(_, l, r) => ExprScoped(l, names) && ExprScoped(r, names)
  }

  predicate Mentions(e: Expr, x: string) {
    match e
    case Number(_) => false
    case Variable(y) => x == y
    case BinaryExp(_, l, r) => Mentions(l, x) || Mentions(r, x)
  }

  /** The names in scope after a statement. */
  function NamesAfter(s: Stmt, names: Names): (r: Names)
    requires names != []
    ensures |r| == |names|
  {
    if s.Declare? then AddName(names, s.name) else names
  }

  /** What the asserts of the lowering demand: names are declared before they are used, and not twice in
      one scope. A declaration's own name is in scope in its initialiser. */
  predicate Scoped(s: Stmt, names: Names)
    requires names != []
    decreases s, 0
  {
    match s
    case Declare(x, e) => x !in names[|names|-1] && ExprScoped(e, AddName(names, x))
    case Set(x, e) => Knows(names, x) && ExprScoped(e, names)
    case If(c, body) => ExprScoped(c, names) && AllScoped(body, names + [{}])
    case While(c, body) => ExprScoped(c, names) && AllScoped(body, names + [{}])
    case ReturnStmt => true
  }

  predicate AllScoped(ss: seq<Stmt>, names: Names)
    requires names != []
    decreases ss, 1
  {
    ss == [] || (Scoped(ss[0], names) && AllScoped(ss[1..], NamesAfter(ss[0], names)))
  }

  /** No initialiser reads the variable it initialises. */
  predicate NoSelfInit(s: Stmt)
    decreases s, 0
  {
    match s
    case Declare(x, e) => !Mentions(e, x)
    case If(_, body) => NoSelfInits(body)
    case While(_, body) => NoSelfInits(body)
    case _ => true
  }

  predicate NoSelfInits(ss: seq<Stmt>)
    decreases ss, 1
  {
    ss == [] || (NoSelfInit(ss[0]) && NoSelfInits(ss[1..]))
  }

  /** Declarations and assignments only. */
  predicate Straight(ss: seq<Stmt>) {
    ss == [] || ((ss[0].Declare? || ss[0].Set?) && Straight(ss[1..]))
  }

  /** Bodies of while loops are straight, and there is no return. */
  predicate ProperStmt(s: Stmt)
    decreases s, 0
  {
    match s
    case If(_, body) => ProperStmts(body)
    case While(_, body) => Straight(body)
    case ReturnStmt => false
    case _ => true
  }

  predicate ProperStmts(ss: seq<Stmt>)
    decreases ss, 1
  {
    ss == [] || (ProperStmt(ss[0]) && ProperStmts(ss[1..]))
  }

  /** A function body that may end in a return. */
  predicate Proper(ss: seq<Stmt>) {
    ss == [] || (|ss| == 1 && ss[0].ReturnStmt?) || (ProperStmt(ss[0]) && Proper(ss[1..]))
  }

  // ---------------------------------------------------------------- the lowering

  /** The state of the creator: the blocks with their predecessor lists (kept by the use lists of the
      block values), the current block, the scopes, and the register counter. */
  datatype Ctx = Ctx(code: Code, pred: seq<seq<nat>>, block: nat, scopes: Scopes<nat>, regCount: nat)
  {
    predicate Valid() {
      |code| == |pred| && block < |code|
    }
  }

  function NewBlock(c: Ctx): Ctx {
    c.(code := c.code + [[]], pred := c.pred + [[]])
  }

  /** Appends an instruction to block b and b to the predecessors of everything it may jump to. */
  function Emit(c: Ctx, b: nat, inst: Inst): (r: Ctx)
    requires b < |c.code|
    ensures |r.code| == |c.code| && |r.pred| == |c.pred|
  {
    c.(code := c.code[b := c.code[b] + [inst]], pred := AddPreds(c.pred, inst.Targets(), b))
  }

  function AddPreds(pred: seq<seq<nat>>, targets: seq<nat>, b: nat): (r: seq<seq<nat>>)
    ensures |r| == |pred|
    decreases targets
  {
    if targets == [] then pred
    else AddPreds(if targets[0] < |pred| then pred[targets[0] := pred[targets[0]] + [b]] else pred, targets[1..], b)
  }

  function LowerExpr(c: Ctx, e: Expr): (r: (Ctx, Value))
    requires c.Valid()
    ensures r.0.Valid() && r.0.block == c.block && |r.0.code| == |c.code| && r.0.scopes == c.scopes
    decreases e
  {
    match e
    case Number(n) => (c, Const(n))
    case Variable(x) => (Emit(c, c.block, Load(Find(c.scopes, x, 0))), Result(c.block, |c.code[c.block]|))
    case BinaryExp(op, l, r) =>
      var (c1, v) := LowerExpr(c, l);
      var (c2, w) := LowerExpr(c1, r);
      (Emit(c2, c2.block, Binary(op, v, w)), Result(c2.block, |c2.code[c2.block]|))
  }

  function LowerAssign(c: Ctx, x: string, e: Expr): (r: Ctx)
    requires c.Valid()
    ensures r.Valid() && |r.code| == |c.code| && r.scopes == c.scopes && r.block == c.block
  {
    var reg := Find(c.scopes, x, 0);
    var (c1, v) := LowerExpr(c, e);
    Emit(c1, c1.block, Assign(reg, v))
  }

  function NewReg(c: Ctx, x: string): Ctx
    requires c.scopes != []
  {
    c.(scopes := Bind(c.scopes, x, c.regCount), regCount := c.regCount + 1)
  }

  /** Behind the body of an if: a block for the rest, reached from the condition and from the body. */
  function IfTail(c: Ctx, first: nat, last: nat, v: Value): (r: Ctx)
    requires c.Valid() && last < |c.code|
    ensures r.Valid() && |r.code| == |c.code| + 1 && r.scopes == c.scopes && r.block == |c.code|
  {
    var rest := |c.code|;
    var c1 := Emit(NewBlock(c), c.block, JumpCond(first, rest, v));
    Emit(c1, last, Jump(rest)).(block := rest)
  }

  /** In front of the body of a while: the block for the condition. */
  function WhileHead(c: Ctx): (r: Ctx)
    requires c.Valid()
    ensures r.Valid() && |r.code| == |c.code| + 1 && r.scopes == c.scopes && r.block == c.block
  {
    Emit(NewBlock(c), c.block, Jump(|c.code|))
  }

  /** Behind the body of a while: the jump back is appended to the first block of the body, then the
      condition goes into the head, which leads to the body or to the exit. */
  function WhileTail(c: Ctx, head: nat, first: nat, cond: Expr): (r: Ctx)
    requires c.Valid() && head < |c.code| && first < |c.code|
    ensures r.Valid() && |r.code| == |c.code| + 1 && r.scopes == c.scopes && r.block == |c.code|
  {
    var exit := |c.code|;
    var c1 := NewBlock(Emit(c, first, Jump(head))).(block := head);
    var (c2, v) := LowerExpr(c1, cond);
    Emit(c2, head, JumpCond(first, exit, v)).(block := exit)
  }

  /** Lowers one statement; control continues in the block the result names as current. */
  function LowerStmt(c: Ctx, s: Stmt): (r: Ctx)
    requires c.Valid() && c.scopes != []
    ensures r.Valid() && |r.code| >= |c.code| && |r.scopes| == |c.scopes|
    ensures r.scopes[..|r.scopes|-1] == c.scopes[..|c.scopes|-1]
    decreases s, 0
  {
    match s
    case Declare(x, e) => LowerAssign(NewReg(c, x), x, e)
    case Set(x, e) => LowerAssign(c, x, e)
    case If(cond, body) =>
      var (c1, v) := LowerExpr(c, cond);
      var (c2, first, last) := LowerBlock(c1, body);
      IfTail(c2, first, last, v)
    case While(cond, body) =>
      var (c1, first, _) := LowerBlock(WhileHead(c), body);
      WhileTail(c1, |c.code|, first, cond)
    case ReturnStmt => Emit(c, c.block, Return)
  }

  function LowerStmts(c: Ctx, ss: seq<Stmt>): (r: Ctx)
    requires c.Valid() && c.scopes != []
    ensures r.Valid() && |r.code| >= |c.code| && |r.scopes| == |c.scopes|
    ensures r.scopes[..|r.scopes|-1] == c.scopes[..|c.scopes|-1]
    decreases ss, 1
  {
    if ss == [] then c else LowerStmts(LowerStmt(c, ss[0]), ss[1..])
  }

  /** The context in which the statements of a nested syntax block are lowered: a new scope, and a new
      current block. */
  function EnterBlock(c: Ctx): Ctx {
    NewBlock(c).(block := |c.code|, scopes := c.scopes + [map[]])
  }

  /** Back in the surrounding scope and block. */
  function LeaveBlock(c: Ctx, inner: Ctx): Ctx
    requires |inner.scopes| > 0
  {
    inner.(block := c.block, scopes := inner.scopes[..|inner.scopes|-1])
  }

  /** A syntax block gives its first block and the block in which it ends. */
  function LowerBlock(c: Ctx, body: seq<Stmt>): (r: (Ctx, nat, nat))
    requires |c.code| == |c.pred| && (c.code != [] ==> c.block < |c.code|)
    ensures |r.0.code| == |r.0.pred| && |r.0.code| > |c.code| && r.1 == |c.code| && r.2 < |r.0.code|
    ensures r.0.block == c.block && r.0.scopes == c.scopes
    decreases body, 2
  {
    var inner := LowerStmts(EnterBlock(c), body);
    assert inner.scopes[..|inner.scopes|-1] == EnterBlock(c).scopes[..|c.scopes|] == c.scopes;
    (LeaveBlock(c, inner), |c.code|, inner.block)
  }

  /** The start of a function: nothing created yet. */
  const EMPTY: Ctx := Ctx([], [], 0, [], 0)

  /** A whole function; its entry is block 0. */
  function LowerFunction(body: seq<Stmt>): Ctx {
    LowerBlock(EMPTY, body).0
  }

  /** The graph of lowered code: successors are read off the last instruction of each block, predecessors
      off the use list of the block. */
  function CfgOf(c: Ctx): Cfg {
    Cfg(0, seq(|c.code|, b requires 0 <= b < |c.code| => Successors(c.code[b])), c.pred)
  }

  // ---------------------------------------------------------------- the creator object

  class IrCreator {
    var code: Code
    var pred: seq<seq<nat>>
    var block: nat
    var scopes: Scopes<nat>
    var regCount: nat

    ghost function State(): Ctx
      reads this
    {
      Ctx(code, pred, block, scopes, regCount)
    }

    constructor ()
      ensures State() == EMPTY
    {
      code, pred, block, scopes, regCount := [], [], 0, [], 0;
    }

    method BlockNew() returns (b: nat)
      modifies this
      ensures b == |old(code)| && State() == NewBlock(old(State()))
    {
      b := |code|;
      code, pred := code + [[]], pred + [[]];
    }

    /** Creates an instruction in block b and enters it into the use lists of its targets. */
    method Insert(b: nat, inst: Inst)
      requires b < |code|
      modifies this
      ensures State() == Emit(old(State()), b, inst)
    {
      code := code[b := code[b] + [inst]];
      var targets := inst.Targets();
      var was := pred;
      for i := 0 to |targets|
        invariant AddPreds(pred, targets[i..], b) == AddPreds(was, targets, b)
        invariant code == old(code)[b := old(code)[b] + [inst]]
        invariant block == old(block) && scopes == old(scopes) && regCount == old(regCount)
      {
        assert targets[i..][1..] == targets[i+1..];
        if targets[i] < |pred| {
          pred := pred[targets[i] := pred[targets[i]] + [b]];
        }
      }
    }

    /** Walks the scopes outwards until one of them knows the name. */
    method FindReg(x: string) returns (r: nat)
      requires Knows(NamesOf(scopes), x)
      ensures r == Find(scopes, x, 0)
    {
      var i := |scopes|;
      assert scopes[..i] == scopes;
      while i > 0 && x !in scopes[i-1]
        invariant 0 <= i <= |scopes|
        invariant Find(scopes[..i], x, 0) == Find(scopes, x, 0)
        invariant exists j :: 0 <= j < i && x in scopes[j]
      {
        assert scopes[..i][..i-1] == scopes[..i-1];
        i := i - 1;
      }
      r := scopes[i-1][x];
    }

    method CreateValue(e: Expr) returns (v: Value)
      requires State().Valid() && ExprScoped(e, NamesOf(scopes))
      modifies this
      ensures (State(), v) == LowerExpr(old(State()), e)
      decreases e
    {
      match e
      case Number(n) =>
        v := Const(n);
      case Variable(x) =>
        var reg := FindReg(x);
        v := Result(block, |code[block]|);
        Insert(block, Load(reg));
      case BinaryExp(op, left, right) =>
        var l := CreateValue(left);
        var r := CreateValue(right);
        v := Result(block, |code[block]|);
        Insert(block, Binary(op, l, r));
    }

    method CreateAssignment(x: string, e: Expr)
      requires State().Valid() && Knows(NamesOf(scopes), x) && ExprScoped(e, NamesOf(scopes))
      modifies this
      ensures State() == LowerAssign(old(State()), x, e)
    {
      var reg := FindReg(x);
      var v := CreateValue(e);
      Insert(block, Assign(reg, v));
    }

    method CreateReg(x: string)
      requires scopes != [] && x !in scopes[|scopes|-1]
      modifies this
      ensures State() == NewReg(old(State()), x)
      ensures NamesOf(scopes) == AddName(old(NamesOf(scopes)), x)
    {
      NamesOfBind(scopes, x, regCount);
      scopes := Bind(scopes, x, regCount);
      regCount := regCount + 1;
    }

    method FinishIf(first: nat, last: nat, v: Value)
      requires State().Valid() && last < |code|
      modifies this
      ensures State() == IfTail(old(State()), first, last, v)
    {
      var rest := BlockNew();
      Insert(block, JumpCond(first, rest, v));
      Insert(last, Jump(rest));
      block := rest;
    }

    method FinishWhile(head: nat, first: nat, cond: Expr)
      requires State().Valid() && head < |code| && first < |code| && ExprScoped(cond, NamesOf(scopes))
      modifies this
      ensures State() == WhileTail(old(State()), head, first, cond)
    {
      Insert(first, Jump(head));
      var exit := BlockNew();
      block := head;
      var v := CreateValue(cond);
      Insert(block, JumpCond(first, exit, v));
      block := exit;
    }

    method CreateStatement(s: Stmt)
      requires State().Valid() && scopes != [] && Scoped(s, NamesOf(scopes))
      modifies this
      ensures State() == LowerStmt(old(State()), s)
      ensures NamesOf(scopes) == NamesAfter(s, old(NamesOf(scopes)))
      decreases s, 0
    {
      match s
      case Declare(x, e) =>
        assert x !in NamesOf(scopes)[|scopes|-1];
        CreateReg(x);
        assert x in NamesOf(scopes)[|scopes|-1];
        CreateAssignment(x, e);
      case Set(x, e) =>
        CreateAssignment(x, e);
      case If(cond, body) =>
        var v := CreateValue(cond);
        var first, last := CreateBlock(body);
        FinishIf(first, last, v);
      case While(cond, body) =>
        var head := BlockNew();
        Insert(block, Jump(head));
        var first, last := CreateBlock(body);
        FinishWhile(head, first, cond);
      case ReturnStmt =>
        Insert(block, Return);
    }

    /** Lowers a syntax block into blocks of its own and returns to the surrounding one. */
    method CreateBlock(body: seq<Stmt>) returns (first: nat, last: nat)
      requires |code| == |pred| && (code != [] ==> block < |code|)
      requires AllScoped(body, NamesOf(scopes) + [{}])
      modifies this
      ensures (State(), first, last) == LowerBlock(old(State()), body)
      ensures NamesOf(scopes) == old(NamesOf(scopes))
      decreases body, 2
    {
      var oldBlock := block;
      scopes := scopes + [map[]];
      first := BlockNew();
      block := first;
      assert State() == EnterBlock(old(State()));
      NamesOfPush(old(scopes));
      assert NamesOf(scopes) == old(NamesOf(scopes)) + [{}];
      for i := 0 to |body|
        invariant State().Valid() && |scopes| == |old(scopes)| + 1
        invariant AllScoped(body[i..], NamesOf(scopes))
        invariant LowerStmts(State(), body[i..]) == LowerStmts(EnterBlock(old(State())), body)
      {
        assert body[i..][0] == body[i] && body[i..][1..] == body[i+1..];
        CreateStatement(body[i]);
      }
      last := block;
      ghost var inner := State();
      assert inner == LowerStmts(EnterBlock(old(State())), body);
      scopes := scopes[..|scopes|-1];
      block := oldBlock;
      assert scopes == old(scopes);
    }

    /** Creates a function from its body; the entry is the first block. */
    method CreateFunction(body: seq<Stmt>) returns (entry: nat)
      requires State() == EMPTY && AllScoped(body, [{}])
      modifies this
      ensures State() == LowerFunction(body) && entry == 0
    {
      assert NamesOf(scopes) + [{}] == [{}];
      var last;
      entry, last := CreateBlock(body);
    }
  }
}
