/** `SkeletonPass`: the ledger vectors are fields of the pass object, and
    `traceVariableOrigin`, `printDefUseChains`, `checkBeforeTrace` and `run`
    are methods that update them in place.  Each method is proved to leave
    exactly the state its specification function in `Tracer` or `Seeds`
    computes from the state it started in. */
module Pass {
  import opened IR
  import opened Classify
  import opened Ledger
  import opened Tracer
  import opened Seeds

  class SkeletonPass {
    var tracedInstructions: seq<ValueId>
    var checkedSeminalInputs: seq<ValueId>
    var log: seq<Event>

    function State(): PassState
      reads this
    {
      PassState(Ledger(tracedInstructions, checkedSeminalInputs), log)
    }

    constructor ()
      ensures State() == Initial
    {
      tracedInstructions := [];
      checkedSeminalInputs := [];
      log := [];
    }

    method CheckBeforeTrace(g: Graph, inst: ValueId)
      requires WellFormed(g) && inst < |g| && IsInstruction(g[inst].kind)
      modifies this
      ensures State() == Check(g, old(State()), inst)
      decreases StateMeasure(g, State()), 1
    {
      if IsInstructionInVector(tracedInstructions, inst) && IsInstructionInVector(checkedSeminalInputs, inst) {
        return;
      } else if !IsInstructionInVector(tracedInstructions, inst) {
        tracedInstructions := tracedInstructions + [inst];
      } else if !IsInstructionInVector(checkedSeminalInputs, inst) {
        checkedSeminalInputs := checkedSeminalInputs + [inst];
      }
      log := log + [Expanded(inst)];
      MarkShrinksMeasure(g, old(State()).ledger, inst);
      var operands := g[inst].operands;
      for i := 0 to |operands|
        invariant Operands(g, State(), inst, i) == Check(g, old(State()), inst)
        invariant StateMeasure(g, State()) < StateMeasure(g, old(State()))
      {
        TraceVariableOrigin(g, operands[i]);
      }
    }

    method TraceVariableOrigin(g: Graph, v: ValueId)
      requires WellFormed(g) && v < |g|
      modifies this
      ensures State() == Trace(g, old(State()), v)
      decreases StateMeasure(g, State()), 3
    {
      var kind := g[v].kind;
      if kind.Argument? {
        log := log + [Report(v, ArgumentOrigin)];
        PrintDefUseChains(g, v);
        return;
      }
      if kind.Alloca? {
        log := log + [Report(v, AllocaOrigin)];
        PrintDefUseChains(g, v);
        // no return: an alloca goes on to the instruction case below
      }
      if kind.GlobalVariable? {
        log := log + [Report(v, GlobalOrigin)];
        PrintDefUseChains(g, v);
        return;
      }
      if kind.Store? {
        log := log + [Report(v, StoreOrigin)];
        PrintDefUseChains(g, v);
        return;
      }
      if IsInstruction(kind) {
        log := log + [Report(v, InteriorInstruction)];
        CheckBeforeTrace(g, v);
      }
    }

    method PrintDefUseChains(g: Graph, v: ValueId)
      requires WellFormed(g) && v < |g|
      modifies this
      ensures State() == Walk(g, old(State()), v, 0)
      decreases StateMeasure(g, State()), 2
    {
      var users := g[v].users;
      for i := 0 to |users|
        invariant Walk(g, State(), v, i) == Walk(g, old(State()), v, 0)
        invariant StateMeasure(g, State()) <= StateMeasure(g, old(State()))
      {
        var user := users[i];
        log := log + [UsedIn(v, user, CheckSeminalInput(g[user].kind))];
        if IsInstruction(g[user].kind) {
          CheckBeforeTrace(g, user);
        }
      }
    }

    /** The body of the innermost loop of `run`: the seeding rules for one
        instruction. */
    method AnalyzeInstruction(g: Graph, inst: ValueId)
      requires WellFormed(g) && inst < |g|
      modifies this
      ensures State() == TraceAll(g, old(State()), InstructionSeeds(g, inst))
    {
      var kind := g[inst].kind;
      if kind.Branch? {
        if kind.conditional {
          TraceVariableOrigin(g, g[inst].operands[0]);
        }
      }
      if kind.Call? {
        if kind.callee.Some? {
          if kind.callee.value == "getc" {
            TraceVariableOrigin(g, g[inst].operands[0]);
          }
        }
      }
    }

    /** The loop of `run` over the instructions of one basic block. */
    method RunBlock(g: Graph, block: Block)
      requires WellFormed(g) && BlockIn(g, block)
      modifies this
      ensures State() == TraceAll(g, old(State()), BlockSeeds(g, block))
    {
      ghost var atBlock := State();
      for i := 0 to |block|
        invariant BlockIn(g, block[..i])
        invariant State() == TraceAll(g, atBlock, BlockSeeds(g, block[..i]))
      {
        BlockSeedsStep(g, block, i);
        AnalyzeInstruction(g, block[i]);
        TraceAllAppend(g, atBlock, BlockSeeds(g, block[..i]), InstructionSeeds(g, block[i]));
      }
      assert block[..|block|] == block;
    }

    /** The loop of `run` over the basic blocks of one function. */
    method RunFunction(g: Graph, func: Func)
      requires WellFormed(g) && FuncIn(g, func)
      modifies this
      ensures State() == TraceAll(g, old(State()), FuncSeeds(g, func))
    {
      ghost var atFunc := State();
      for b := 0 to |func|
        invariant FuncIn(g, func[..b])
        invariant State() == TraceAll(g, atFunc, FuncSeeds(g, func[..b]))
      {
        FuncSeedsStep(g, func, b);
        RunBlock(g, func[b]);
        TraceAllAppend(g, atFunc, FuncSeeds(g, func[..b]), BlockSeeds(g, func[b]));
      }
      assert func[..|func|] == func;
    }

    /** `run`: every function of the module in order, on the same ledger. */
    method Run(g: Graph, m: Module)
      requires WellFormed(g) && ModuleIn(g, m)
      modifies this
      ensures State() == Seeds.Run(g, m, old(State()))
    {
      ghost var atModule := State();
      for f := 0 to |m|
        invariant ModuleIn(g, m[..f])
        invariant State() == TraceAll(g, atModule, ModuleSeeds(g, m[..f]))
      {
        ModuleSeedsStep(g, m, f);
        RunFunction(g, m[f]);
        TraceAllAppend(g, atModule, ModuleSeeds(g, m[..f]), FuncSeeds(g, m[f]));
      }
      assert m[..|m|] == m;
    }
  }
}
