/** What the source program means: execution of the syntax tree over nested scopes of values. Loops spend
    fuel, so a program terminates when it does so for some amount of fuel. */
module SourceMeaning {
  import opened IR
  import opened Lowering

  type Env = Scopes<int>

  function EvalExpr(ops: Ops, e: Expr, env: Env): int {
    match e
    case Number(n) => n
    case Variable(x) => Find(env, x, 0)
    case BinaryExp(op, l, r) => ops(op, EvalExpr(ops, l, env), EvalExpr(ops, r, env))
  }

  /** Assigns to the innermost variable called x. */
  function Store(env: Env, x: string, v: int): (r: Env)
    ensures |r| == |env|
  {
    if env == [] then env
    else
      var n := |env| - 1;
      if x in env[n] then env[..n] + [env[n][x := v]] else Store(env[..n], x, v) + [env[n]]
  }

  datatype Outcome = Done(env: Env) | Returned(env: Env) | Timeout

  /** Drops the variables of the innermost syntax block. */
  function Leave(o: Outcome): Outcome {
    match o
    case Done(env) => if env == [] then o else Done(env[..|env|-1])
    case Returned(env) => if env == [] then o else Returned(env[..|env|-1])
    case Timeout => Timeout
  }

  predicate Depth(o: Outcome, n: nat) {
    o.Timeout? || |o.env| == n
  }

  function Exec(ops: Ops, s: Stmt, env: Env, fuel: nat): (o: Outcome)
    requires env != []
    ensures Depth(o, |env|)
    decreases fuel, s, 0
  {
    match s
    case Declare(x, e) => Done(Bind(env, x, EvalExpr(ops, e, env)))
    case Set(x, e) => Done(Store(env, x, EvalExpr(ops, e, env)))
    case If(c, body) =>
      if EvalExpr(ops, c, env) != 0 then Leave(ExecAll(ops, body, env + [map[]], fuel)) else Done(env)
    case While(c, body) =>
      if fuel == 0 then Timeout
      else if EvalExpr(ops, c, env) == 0 then Done(env)
      else
        var o := Leave(ExecAll(ops, body, env + [map[]], fuel - 1));
        if o.Done? then Exec(ops, s, o.env, fuel - 1) else o
    case ReturnStmt => Returned(env)
  }

  function ExecAll(ops: Ops, ss: seq<Stmt>, env: Env, fuel: nat): (o: Outcome)
    requires env != []
    ensures Depth(o, |env|)
    decreases fuel, ss, 1
  {
    if ss == [] then Done(env)
    else
      var o := Exec(ops, ss[0], env, fuel);
      if o.Done? then ExecAll(ops, ss[1..], o.env, fuel) else o
  }

  // ---------------------------------------------------------------- the result does not depend on the fuel

  /** More fuel does not change a result. */
  lemma {:induction false} MoreFuel(ops: Ops, s: Stmt, env: Env, fuel: nat, more: nat)
    requires env != [] && fuel <= more && !Exec(ops, s, env, fuel).Timeout?
    ensures Exec(ops, s, env, more) == Exec(ops, s, env, fuel)
    decreases fuel, s, 0
  {
    match s
    case If(c, body) =>
      if EvalExpr(ops, c, env) != 0 {
        MoreFuelAll(ops, body, env + [map[]], fuel, more);
      }
    case While(c, body) =>
      if EvalExpr(ops, c, env) != 0 {
        MoreFuelAll(ops, body, env + [map[]], fuel - 1, more - 1);
        var o := Leave(ExecAll(ops, body, env + [map[]], fuel - 1));
        if o.Done? {
          MoreFuel(ops, s, o.env, fuel - 1, more - 1);
        }
      }
    case _ =>
  }

  lemma {:induction false} MoreFuelAll(ops: Ops, ss: seq<Stmt>, env: Env, fuel: nat, more: nat)
    requires env != [] && fuel <= more && !ExecAll(ops, ss, env, fuel).Timeout?
    ensures ExecAll(ops, ss, env, more) == ExecAll(ops, ss, env, fuel)
    decreases fuel, ss, 1
  {
    if ss != [] {
      MoreFuel(ops, ss[0], env, fuel, more);
      var o := Exec(ops, ss[0], env, fuel);
      if o.Done? {
        MoreFuelAll(ops, ss[1..], o.env, fuel, more);
      }
    }
  }

  /** So a program has at most one result. */
  lemma {:induction false} ResultIsUnique(ops: Ops, ss: seq<Stmt>, env: Env, fuel: nat, fuel': nat)
    requires env != []
    requires !ExecAll(ops, ss, env, fuel).Timeout? && !ExecAll(ops, ss, env, fuel').Timeout?
    ensures ExecAll(ops, ss, env, fuel) == ExecAll(ops, ss, env, fuel')
  {
    if fuel <= fuel' {
      MoreFuelAll(ops, ss, env, fuel, fuel');
    } else {
      MoreFuelAll(ops, ss, env, fuel', fuel);
    }
  }

  // ---------------------------------------------------------------- running blocks one instruction at a time

  datatype Point = Point(block: nat, pos: nat, st: State)

  predicate Halted(code: Code, p: Point) {
    p.block >= |code| || p.pos >= |code[p.block]|
  }

  function Step(ops: Ops, code: Code, p: Point): Point {
    if Halted(code, p) then p
    else
      var inst := code[p.block][p.pos];
      var st := ExecInst(ops, inst, p.block, p.pos, p.st);
      match Follow(inst, st.vals)
      case Some(t) => if p.pos == |code[p.block]| - 1 then Point(t, 0, st) else Point(p.block, p.pos + 1, st)
      case None => Point(p.block, p.pos + 1, st)
  }

  function Steps(ops: Ops, code: Code, p: Point, n: nat): Point
    decreases n
  {
    if n == 0 then p else Steps(ops, code, Step(ops, code, p), n - 1)
  }

  lemma {:induction false} StepsAdd(ops: Ops, code: Code, p: Point, m: nat, n: nat)
    ensures Steps(ops, code, p, m + n) == Steps(ops, code, Steps(ops, code, p, m), n)
    decreases m
  {
    if m > 0 {
      StepsAdd(ops, code, Step(ops, code, p), m - 1, n);
    }
  }

  lemma {:induction false} HaltedStays(ops: Ops, code: Code, p: Point, n: nat)
    requires Halted(code, p)
    ensures Steps(ops, code, p, n) == p
    decreases n
  {
    if n > 0 {
      HaltedStays(ops, code, p, n - 1);
    }
  }

  /** Once halted, later steps change nothing. */
  lemma {:induction false} HaltedLater(ops: Ops, code: Code, p: Point, m: nat, n: nat)
    requires Halted(code, Steps(ops, code, p, m)) && m <= n
    ensures Steps(ops, code, p, n) == Steps(ops, code, p, m)
  {
    StepsAdd(ops, code, p, m, n - m);
    HaltedStays(ops, code, Steps(ops, code, p, m), n - m);
  }

  /** The first k instructions of a block, one by one. */
  lemma {:induction false} InsideBlock(ops: Ops, code: Code, b: nat, st: State, k: nat)
    requires b < |code| && k < |code[b]|
    ensures Steps(ops, code, Point(b, 0, st), k) == Point(b, k, ExecFirst(ops, code[b], b, k, st))
  {
    if k > 0 {
      InsideBlock(ops, code, b, st, k - 1);
      StepsAdd(ops, code, Point(b, 0, st), k - 1, 1);
      var p := Steps(ops, code, Point(b, 0, st), k - 1);
      assert Steps(ops, code, p, 1) == Steps(ops, code, Step(ops, code, p), 0);
    }
  }

  /** The configuration of a block-wise run, seen as a point. */
  predicate Corresponds(code: Code, c: Config, p: Point) {
    match c
    case At(b, st) => p == Point(b, 0, st)
    case Stopped(st) => Halted(code, p) && p.st == st
  }

  lemma {:induction false} OneBlock(ops: Ops, code: Code, b: nat, st: State) returns (n: nat)
    ensures Corresponds(code, StepBlock(ops, code, At(b, st)), Steps(ops, code, Point(b, 0, st), n))
    ensures if StepBlock(ops, code, At(b, st)).At? then n > 0 else Steps(ops, code, Point(b, 0, st), n).block == b
  {
    if b >= |code| || code[b] == [] {
      n := 0;
    } else {
      n := |code[b]|;
      InsideBlock(ops, code, b, st, n - 1);
      StepsAdd(ops, code, Point(b, 0, st), n - 1, 1);
      var p := Steps(ops, code, Point(b, 0, st), n - 1);
      assert Steps(ops, code, p, 1) == Steps(ops, code, Step(ops, code, p), 0);
    }
  }

  /** n blocks are at least n instructions, unless the run stops. */
  lemma {:induction false} BlocksAsSteps(ops: Ops, code: Code, b: nat, st: State, n: nat) returns (m: nat)
    ensures Corresponds(code, Run(ops, code, At(b, st), n), Steps(ops, code, Point(b, 0, st), m))
    ensures Run(ops, code, At(b, st), n).At? ==> m >= n
  {
    if n == 0 {
      m := 0;
    } else {
      m := BlocksAsSteps(ops, code, b, st, n - 1);
      var c := Run(ops, code, At(b, st), n - 1);
      if c.At? {
        var k := OneBlock(ops, code, c.block, c.st);
        StepsAdd(ops, code, Point(b, 0, st), m, k);
        m := m + k;
      }
    }
  }

  /** The first moment at which a run has stopped. */
  lemma {:induction false} FirstStop(ops: Ops, code: Code, b: nat, st: State, n: nat) returns (m: nat)
    requires Run(ops, code, At(b, st), n).Stopped?
    ensures 0 < m <= n && Run(ops, code, At(b, st), m) == Run(ops, code, At(b, st), n)
    ensures Run(ops, code, At(b, st), m - 1).At?
  {
    if Run(ops, code, At(b, st), n - 1).At? {
      m := n;
    } else {
      m := FirstStop(ops, code, b, st, n - 1);
    }
  }

  lemma {:induction false} SameHalt(ops: Ops, code: Code, p: Point, m: nat, n: nat)
    requires Halted(code, Steps(ops, code, p, m)) && Halted(code, Steps(ops, code, p, n))
    ensures Steps(ops, code, p, m) == Steps(ops, code, p, n)
  {
    if m <= n {
      HaltedLater(ops, code, p, m, n);
    } else {
      HaltedLater(ops, code, p, n, m);
    }
  }

  /** A run that halts instruction by instruction stops block by block, in the same block and state. */
  lemma {:induction false} HaltedIsStopped(ops: Ops, code: Code, b: nat, st: State, m: nat) returns (n: nat)
    requires Halted(code, Steps(ops, code, Point(b, 0, st), m))
    ensures n > 0 && Run(ops, code, At(b, st), n) == Stopped(Steps(ops, code, Point(b, 0, st), m).st)
    ensures var c := Run(ops, code, At(b, st), n - 1); c.At? && c.block == Steps(ops, code, Point(b, 0, st), m).block
  {
    hide Steps, Halted, StepBlock;
    var start := Point(b, 0, st);
    var k := BlocksAsSteps(ops, code, b, st, m + 1);
    var c := Run(ops, code, At(b, st), m + 1);
    if c.At? {
      HaltedLater(ops, code, start, m, k);
      var j := OneBlock(ops, code, c.block, c.st);
      HaltedStays(ops, code, Point(c.block, 0, c.st), j);
      AtNotHalted(ops, code, c.block, c.st);
      n := FirstStop(ops, code, b, st, m + 2);
    } else {
      n := FirstStop(ops, code, b, st, m + 1);
    }
    var last := Run(ops, code, At(b, st), n - 1);
    var i := BlocksAsSteps(ops, code, b, st, n - 1);
    var j := OneBlock(ops, code, last.block, last.st);
    StepsAdd(ops, code, start, i, j);
    assert Corresponds(code, Run(ops, code, At(b, st), n), Steps(ops, code, start, i + j));
    SameHalt(ops, code, start, m, i + j);
  }

  /** A block without instructions is where a run stops. */
  lemma {:induction false} AtNotHalted(ops: Ops, code: Code, b: nat, st: State)
    requires Halted(code, Point(b, 0, st))
    ensures StepBlock(ops, code, At(b, st)) == Stopped(st)
  {
  }
}
