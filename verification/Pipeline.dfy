/** From the syntax tree to SSA form in one piece: lowering, numbering, dominators, frontiers and conversion
    together preserve the meaning of the source. */
module Pipeline {
  import opened Graphs
  import opened Postorders
  import Dominators
  import opened Frontiers
  import opened IR
  import opened SsaSpec
  import SsaMeaning
  import opened PhiPlacement
  import opened SsaConversion
  import LastDefinition
  import opened Lowering
  import LoweringShape
  import opened LoweredGraph
  import opened LoadCover
  import opened LoweringForm
  import opened LoweringMeaning
  import opened Renumbering

  /** Lowered code has all that the later passes ask for. */
  lemma {:induction false} LoweredIsSound(body: seq<Stmt>)
    requires GoodBody(body)
    ensures Sound(LowerFunction(body).code, CfgOf(LowerFunction(body)))
  {
    hide LowerFunction, WellConnected, FirstPredDominates, TerminatorsLast, LoadsDominated, LocalOperands, AllScoped, Proper;
    LoweredIsConnected(body);
    LoweredLoadsDominated(body);
    LoweredIsTidy(body);
    TerminatorsLastIffProper(body);
  }

  /** What the passes make of a function body: the depth-first numbering of its blocks, the analysed program over
      the numbers with its phis, and its SSA form. */
  ghost predicate Compiled(body: seq<Stmt>, order: seq<nat>, number: map<nat, nat>, p: Problem, c: SsaCode) {
    && GoodBody(body) && Renumberable(CfgOf(LowerFunction(body)), order, number)
    && order == DepthFirst(CfgOf(LowerFunction(body)))
    && p.code == RenumberCode(LowerFunction(body).code, order, number)
    && p.g == Renumber(CfgOf(LowerFunction(body)), order, number)
    && Ready(p) && LoadsDominated(p.code, p.g) && Placed(p) && SsaMeaning.IsConverted(p, c)
  }

  ghost predicate Placed(p: Problem) {
    exists vars :: PhisPlaced(p, vars)
  }

  /** In the lowered code the frontier of the blocks that assign the register mentioned first is closed where that
      register is live. */
  ghost predicate FirstVariableClosed(body: seq<Stmt>, observed: set<nat>) {
    var g := CfgOf(LowerFunction(body));
    forall number :: WellConnected(g) && IsNumbering(g, DepthFirst(g), number) ==>
      FirstRegLiveClosed(RenumberCode(LowerFunction(body).code, DepthFirst(g), number),
                         Renumber(g, DepthFirst(g), number), observed)
  }

  /** The condition speaks of the one program that the body is compiled to. It holds exactly if, in that program, the
      last definition of every live register on every walk is the one that renaming takes. */
  lemma {:induction false} ClosedIsOfProgram(body: seq<Stmt>, observed: set<nat>, order: seq<nat>, number: map<nat, nat>,
                                             p: Problem, c: SsaCode)
    requires Compiled(body, order, number, p, c)
    ensures FirstVariableClosed(body, observed) <==> FirstRegLiveClosed(p.code, p.g, observed)
    ensures FirstVariableClosed(body, observed) <==> SsaMeaning.Convertible(p, observed)
    ensures Shape(p) && (FirstVariableClosed(body, observed) <==> LastDefinition.Faithful(p, observed))
  {
    hide LowerFunction, GoodBody, FirstRegLiveClosed, SsaMeaning.IsConverted, IsNumbering, WellConnected, LoadsDominated;
    hide LiveClosed, PhisPlaced, DepthFirst, WellFormed, Dominators.Exact, LoadsCovered, Renumber, RenumberCode, LastDefinition.Faithful;
    var g := CfgOf(LowerFunction(body));
    forall number' | IsNumbering(g, order, number')
      ensures number' == number
    {
      NumbersAreFixed(g, order, number, number');
    }
    var vars :| PhisPlaced(p, vars);
    LiveClosedIffFirstRegLiveClosed(p, vars, observed);
    LastDefinition.FaithfulIffLiveClosed(p, observed);
    DominatedIsCovered(p.code, p.g);
  }

  /** The SSA program, started at the given block on no values, comes to a stop. */
  ghost predicate SsaStops(ops: Ops, c: SsaCode, entry: nat) {
    exists n: nat :: SsaRun(ops, c, SsaAt(entry, map[]), n).SsaStopped?
  }

  /** All passes in the order in which they are run; they succeed for every good body. If the frontier for the first
      register is closed where it is live then, whatever the operators mean, the program that comes out stops if and only if the
      source terminates. */
  method Compile(body: seq<Stmt>)
    returns (c: SsaCode, entry: nat, ghost order: seq<nat>, ghost number: map<nat, nat>, ghost p: Problem)
    requires GoodBody(body) && |LowerFunction(body).code| <= Dominators.UNSET
    ensures Compiled(body, order, number, p, c) && entry == p.g.entry
    ensures FirstVariableClosed(body, {}) ==> forall ops: Ops :: Terminates(ops, body) <==> SsaStops(ops, c, entry)
  {
    hide *;
    BodyIsScoped(body);
    var creator := new IrCreator();
    entry := creator.CreateFunction(body);
    var ctx := Ctx(creator.code, creator.pred, creator.block, creator.scopes, creator.regCount);
    StateIs(creator, ctx);
    var g := CfgOf(ctx);
    CfgParts(body);
    LoweredIsSound(body);
    SoundParts(ctx.code, g);
    var po, doms := Dominators.Compute(g);
    order, number := po.order, po.number;
    RenumberableParts(g, order, number);
    var code, h := RenumberCode(ctx.code, po.order, po.number), Renumber(g, po.order, po.number);
    NumbersHold(ctx.code, g, order, number);
    RenumberedIsWellFormed(ctx.code, g, order, number);
    RenumberedLoadsDominated(ctx.code, g, order, number);
    ExactParts(h, doms[..], code);
    var childs := Dominators.BuildTree(doms);
    var df := new FrontierTable();
    df.Compute(h, doms);
    var result, q, vars := Convert(code, h, doms, childs, df);
    p, c := q, result.value;
    CompiledIs(body, order, number, p, vars, c);
    entry := h.entry;
    if FirstVariableClosed(body, {}) {
      forall ops: Ops ensures Terminates(ops, body) <==> SsaStops(ops, c, entry) {
        ConvertedTerminates(ops, body, {}, order, number, p, c);
        CompiledEntry(ops, body, order, number, p, c);
      }
    }
  }

  lemma {:induction false} CompiledEntry(ops: Ops, body: seq<Stmt>, order: seq<nat>, number: map<nat, nat>, p: Problem, c: SsaCode)
    requires Compiled(body, order, number, p, c)
    ensures p.g == Renumber(CfgOf(LowerFunction(body)), order, number)
    ensures SsaStops(ops, c, p.g.entry) <==> exists n: nat :: Converted(ops, p, c, n).SsaStopped?
  {
    hide LowerFunction, Sound, CfgOf, LoadsCovered, SsaRun, Renumber, RenumberCode, GoodBody, SsaMeaning.Convertible, SsaMeaning.IsConverted;
    forall n: nat ensures Converted(ops, p, c, n) == SsaRun(ops, c, SsaAt(p.g.entry, map[]), n) {
    }
  }

  lemma {:induction false} BodyIsScoped(body: seq<Stmt>)
    requires GoodBody(body)
    ensures AllScoped(body, [{}])
  {
  }

  lemma {:induction false} StateIs(creator: IrCreator, ctx: Ctx)
    requires ctx == Ctx(creator.code, creator.pred, creator.block, creator.scopes, creator.regCount)
    ensures creator.State() == ctx
  {
  }

  lemma {:induction false} CfgParts(body: seq<Stmt>)
    ensures |CfgOf(LowerFunction(body)).succ| == |LowerFunction(body).code|
  {
  }

  lemma {:induction false} SoundParts(code: Code, g: Cfg)
    requires Sound(code, g)
    ensures WellConnected(g) && Dominators.FirstPredsAbove(g)
  {
    Dominators.DominatingFirstPredsAreAbove(g);
  }

  lemma {:induction false} RenumberableParts(g: Cfg, order: seq<nat>, number: map<nat, nat>)
    requires Renumberable(g, order, number)
    ensures IsNumbering(g, order, number)
  {
  }

  lemma {:induction false} NumbersHold(code: Code, g: Cfg, order: seq<nat>, number: map<nat, nat>)
    requires Sound(code, g) && IsNumbering(g, order, number)
    ensures Numbers(code, g, order, number)
  {
  }

  lemma {:induction false} ExactParts(h: Cfg, doms: seq<nat>, code: Code)
    requires WellFormed(code, h) && Dominators.Exact(h, doms)
    ensures Numbered(h) && Dominators.Tree(doms, 0) && |doms| == |code|
  {
  }

  lemma {:induction false} CompiledIs(body: seq<Stmt>, order: seq<nat>, number: map<nat, nat>, p: Problem,
                                      vars: seq<RegInfo>, c: SsaCode)
    requires GoodBody(body) && Renumberable(CfgOf(LowerFunction(body)), order, number)
    requires order == DepthFirst(CfgOf(LowerFunction(body)))
    requires p.code == RenumberCode(LowerFunction(body).code, order, number)
    requires p.g == Renumber(CfgOf(LowerFunction(body)), order, number)
    requires Ready(p) && LoadsDominated(p.code, p.g) && PhisPlaced(p, vars) && SsaMeaning.IsConverted(p, c)
    ensures Compiled(body, order, number, p, c)
  {
  }

  // ---------------------------------------------------------------- end to end

  /** Both runs stand in front of the same block or have both stopped, and every instruction that computes
      a value has computed the same one in both. */
  ghost predicate InStep(code: Code, number: map<nat, nat>, a: Config, x: SsaConfig) {
    && (a.At? ==> x.SsaAt? && a.block in number && x.block == number[a.block])
    && (a.Stopped? ==> x.SsaStopped?)
    && forall b: nat, j: nat :: b in number && b < |code| && j < |code[b]| && code[b][j].Binary? ==>
      Eval(Result(number[b], j), x.vals) == Eval(Result(b, j), a.st.vals)
  }

  function Lowered(ops: Ops, body: seq<Stmt>, regs: map<nat, int>, n: nat): Config {
    Run(ops, LowerFunction(body).code, At(0, State(regs, map[])), n)
  }

  function Converted(ops: Ops, p: Problem, c: SsaCode, n: nat): SsaConfig {
    SsaRun(ops, c, SsaAt(p.g.entry, map[]), n)
  }

  lemma {:induction false} CompiledNumbers(body: seq<Stmt>, order: seq<nat>, number: map<nat, nat>, p: Problem, c: SsaCode)
    requires Compiled(body, order, number, p, c)
    ensures Numbers(LowerFunction(body).code, CfgOf(LowerFunction(body)), order, number)
    ensures p.g.entry == |order| - 1 && |order| > 0 && |p.code| == |order|
  {
    hide LowerFunction, Sound, CfgOf, LoadsCovered;
    LoweredIsSound(body);
  }

  /** Block by block the converted program does what the lowered one does. */
  lemma {:induction false} ConvertedInStep(ops: Ops, body: seq<Stmt>, observed: set<nat>, order: seq<nat>, number: map<nat, nat>, p: Problem, c: SsaCode,
                            regs: map<nat, int>, n: nat)
    requires Compiled(body, order, number, p, c) && FirstVariableClosed(body, observed)
    ensures InStep(LowerFunction(body).code, number, Lowered(ops, body, regs, n), Converted(ops, p, c, n))
  {
    hide IsNumbering, Sound, SsaMeaning.Convertible, SsaMeaning.IsConverted, Run, SsaRun, LowerFunction, GoodBody, RenumberCode;
    var code := LowerFunction(body).code;
    var st := State(regs, map[]);
    CompiledNumbers(body, order, number, p, c);
    ClosedIsOfProgram(body, observed, order, number, p, c);
    RunMapped(ops, code, CfgOf(LowerFunction(body)), order, number, regs, n);
    SsaMeaning.ConversionPreservesMeaning(p, observed, c, ops, st, n);
    var a, a', x := Lowered(ops, body, regs, n), Run(ops, p.code, At(p.g.entry, st), n), Converted(ops, p, c, n);
    assert SameRun(number, a, a');
    forall b: nat, j: nat | b in number && b < |code| && j < |code[b]| && code[b][j].Binary?
      ensures Eval(Result(number[b], j), x.vals) == Eval(Result(b, j), a.st.vals)
    {
      BinaryMapped(code, CfgOf(LowerFunction(body)), order, number, b, j);
      assert SsaMeaning.IsBinary(p.code, Result(number[b], j));
    }
  }

  lemma {:induction false} BinaryMapped(code: Code, g: Cfg, order: seq<nat>, number: map<nat, nat>, b: nat, j: nat)
    requires Numbers(code, g, order, number) && b in number && b < |code| && j < |code[b]| && code[b][j].Binary?
    ensures SsaMeaning.IsBinary(RenumberCode(code, order, number), Result(number[b], j))
  {
    NumberedBlock(code, g, order, number, b);
  }

  /** The converted program stops exactly when the source program terminates. */
  lemma {:induction false} ConvertedTerminates(ops: Ops, body: seq<Stmt>, observed: set<nat>, order: seq<nat>, number: map<nat, nat>, p: Problem, c: SsaCode)
    requires Compiled(body, order, number, p, c) && FirstVariableClosed(body, observed)
    ensures Terminates(ops, body) <==> exists n: nat :: Converted(ops, p, c, n).SsaStopped?
  {
    hide RunSource, LowerFunction, Run, GoodBody, Converted, Lowered;
    LoweringPreservesMeaning(ops, body, State(map[], map[])) by { CompiledIsGood(body, order, number, p, c); }
    var code := LowerFunction(body).code;
    forall n: nat
      ensures Converted(ops, p, c, n).SsaStopped? <==> Run(ops, code, At(0, State(map[], map[])), n).Stopped?
    {
      ConvertedInStep(ops, body, observed, order, number, p, c, map[], n);
      LoweredIs(ops, body, map[], n);
    }
  }

  lemma {:induction false} LoweredIs(ops: Ops, body: seq<Stmt>, regs: map<nat, int>, n: nat)
    ensures Lowered(ops, body, regs, n) == Run(ops, LowerFunction(body).code, At(0, State(regs, map[])), n)
  {
  }

  lemma {:induction false} CompiledIsGood(body: seq<Stmt>, order: seq<nat>, number: map<nat, nat>, p: Problem, c: SsaCode)
    requires Compiled(body, order, number, p, c)
    ensures GoodBody(body)
  {
  }

  // ---------------------------------------------------------------- final values

  /** Where the lowering ends, the register of each outermost variable has been assigned on every walk. */
  lemma {:induction false} FinalVariablesAssigned(body: seq<Stmt>, w: seq<nat>, i: nat, x: string)
    requires GoodBody(body) && i < |FinalScopes(body)| && x in FinalScopes(body)[i]
    requires PathTo(CfgOf(LowerFunction(body)), w, FinalBlock(body))
    ensures FinalBlock(body) < |LowerFunction(body).code|
    ensures AssignedOn(LowerFunction(body).code, w, |LowerFunction(body).code[FinalBlock(body)]|, FinalScopes(body)[i][x])
  {
    hide LowerStmts, LowerFunction, AllScoped, NoSelfInits, Proper, LoweringShape.Built, CfgOf, CoveredAt, AssignedOn, PathTo;
    var c, dead := BodyBuilt(body);
    BodyCovered(body);
    BodyEnds(body);
    CoveredOnWalk(c, dead, w, FinalBlock(body), |c.code[FinalBlock(body)]|, FinalScopes(body)[i][x]);
  }

  lemma {:induction false} BodyEnds(body: seq<Stmt>)
    ensures FinalBlock(body) < |LowerStmts(START, body).code|
    ensures LowerFunction(body).code == LowerStmts(START, body).code
  {
    hide LowerStmts, LowerFunction, LoweringShape.Built, CfgOf;
    var c, dead := BodyBuilt(body);
  }

  /** The final value of a source variable whose register is observed is the value of the nearest definition of its register: always before the
      phis without uses are unlinked, and afterwards unless that definition is one of these. */
  lemma {:induction false} FinalValues(ops: Ops, body: seq<Stmt>, observed: set<nat>, order: seq<nat>, number: map<nat, nat>, p: Problem, c: SsaCode,
                        fuel: nat) returns (n: nat, c0: SsaCode)
    requires Compiled(body, order, number, p, c) && FirstVariableClosed(body, observed) && !RunSource(ops, body, fuel).Timeout?
    ensures Converted(ops, p, c, n).SsaStopped? && Converted(ops, p, c0, n).SsaStopped?
    ensures SsaMeaning.IsRenamed(p, c0) && SsaMeaning.IsPruned(c0, c)
    ensures FinalBlock(body) in number && number[FinalBlock(body)] < |p.code|
    ensures |FinalScopes(body)| == |RunSource(ops, body, fuel).env|
    ensures var env, b := RunSource(ops, body, fuel).env, number[FinalBlock(body)];
      forall i: nat, x :: i < |env| && x in env[i] ==>
        x in FinalScopes(body)[i] && (FinalScopes(body)[i][x] in observed ==>
        && Reach(p, b, |p.code[b]|, FinalScopes(body)[i][x]).Some?
        && var v := Reach(p, b, |p.code[b]|, FinalScopes(body)[i][x]).value;
          && Eval(v, Converted(ops, p, c0, n).vals) == env[i][x]
          && (SsaMeaning.Linked(c, v) ==> Eval(v, Converted(ops, p, c, n).vals) == env[i][x]))
  {
    hide LowerFunction, GoodBody, Run, SsaRun, RunSource, FinalScopes, FinalBlock, Sound, Reach, AssignedOn, IsNumbering;
    hide SsaMeaning.Convertible, SsaMeaning.IsConverted, SsaMeaning.Linked, RenumberCode, Eval;
    var st := State(map[], map[]);
    ClosedIsOfProgram(body, observed, order, number, p, c);
    n := TerminatingRun(ops, body, st, fuel);
    LoweredIs(ops, body, map[], n);
    LoweredIs(ops, body, map[], n - 1);
    CompiledNumbers(body, order, number, p, c);
    ConvertedInStep(ops, body, observed, order, number, p, c, map[], n);
    ConvertedInStep(ops, body, observed, order, number, p, c, map[], n - 1);
    var code, g := LowerFunction(body).code, CfgOf(LowerFunction(body));
    RunMapped(ops, code, g, order, number, map[], n);
    RunMapped(ops, code, g, order, number, map[], n - 1);
    var b := number[FinalBlock(body)];
    var q;
    q, c0 := SsaMeaning.StoppingValues(p, observed, c, ops, st, n - 1, b);
    SsaMeaning.PrunedRun(c0, c, ops, SsaAt(p.g.entry, map[]), n);
    var env := RunSource(ops, body, fuel).env;
    var regs := Run(ops, p.code, At(p.g.entry, st), n).st.regs;
    assert regs == Lowered(ops, body, map[], n).st.regs;
    forall i: nat, x | i < |env| && x in env[i]
      ensures x in FinalScopes(body)[i] && AssignedOn(p.code, q, |p.code[b]|, FinalScopes(body)[i][x])
      ensures FinalScopes(body)[i][x] in regs && regs[FinalScopes(body)[i][x]] == env[i][x]
    {
      assert HoldsAt(env, FinalScopes(body), regs, i);
      FinalAssigned(body, order, number, p, c, q, i, x);
    }
  }

  lemma {:induction false} FinalAssigned(body: seq<Stmt>, order: seq<nat>, number: map<nat, nat>, p: Problem, c: SsaCode,
                          q: seq<nat>, i: nat, x: string)
    requires Compiled(body, order, number, p, c) && i < |FinalScopes(body)| && x in FinalScopes(body)[i]
    requires FinalBlock(body) in number && number[FinalBlock(body)] < |p.code| && PathTo(p.g, q, number[FinalBlock(body)])
    ensures |q| > 0 && AssignedOn(p.code, q, |p.code[number[FinalBlock(body)]]|, FinalScopes(body)[i][x])
  {
    hide LowerFunction, GoodBody, FinalScopes, FinalBlock, Sound, AssignedOn, SsaMeaning.Convertible, SsaMeaning.IsConverted;
    hide RenumberCode;
    var code, g := LowerFunction(body).code, CfgOf(LowerFunction(body));
    var b := FinalBlock(body);
    CompiledNumbers(body, order, number, p, c);
    NumberedBlock(code, g, order, number, b);
    var w := PathUp(g, order, number, q, number[b]);
    FinalVariablesAssigned(body, w, i, x);
    AssignedOnMapped(code, g, order, number, w, q, |code[b]|, FinalScopes(body)[i][x]);
  }
}
