/** Lemmas that work out what the specification of the pass yields on two
    small IR shapes, the kind the traversal was written for. */
module Scenarios {
  import opened IR
  import opened Classify
  import opened Ledger
  import opened Tracer
  import opened Seeds
  import opened Coverage

  /** A sketch of one block of `define void @f(i32 %a)`:
      `%c = icmp sgt i32 %a, 0` then `br i1 %c, label %t, label %t`.
      The block `%t`, which only returns, is not part of the graph; its
      label is a constant operand of the branch.
      0: %a, 1: %c, 2: the branch, 3: the label %t, 4: the constant 0. */
  const ArgumentGraph: Graph := [
    Node(Argument, [], [1]),
    Node(OtherInstruction, [0, 4], [2]),
    Node(Branch(true), [1, 3, 3], []),
    Node(Constant, [], [2, 2]),
    Node(Constant, [], [1])
  ]

  const ArgumentModule: Module := [[[1, 2]]]

  /** The state after %c has been traced, marked and expanded once. */
  const FirstMark := PassState(Ledger([1], []), [Report(1, InteriorInstruction), Expanded(1)])

  /** The state after the walk over the users of %a has expanded %c a second time. */
  const SecondMark := PassState(Ledger([1], [1]), FirstMark.log +
                                [Report(0, ArgumentOrigin), UsedIn(0, 1, Unhandled), Expanded(1)])

  /** Both vectors hold %c; the log reads: report %c, expand %c, report %a,
      %a is used in %c, expand %c, report %a, %a is used in %c. */
  const ArgumentFinal := PassState(Ledger([1], [1]),
                                   SecondMark.log + [Report(0, ArgumentOrigin), UsedIn(0, 1, Unhandled)])

  lemma ArgumentGraphWellFormed()
    ensures WellFormed(ArgumentGraph) && ModuleIn(ArgumentGraph, ArgumentModule)
  {
    var g := ArgumentGraph;
    forall v | 0 <= v < |g| ensures NodeWellFormed(g, g[v]) {
      assert v == 0 || v == 1 || v == 2 || v == 3 || v == 4;
    }
  }

  lemma ArgumentModuleSeeds()
    requires WellFormed(ArgumentGraph) && ModuleIn(ArgumentGraph, ArgumentModule)
    ensures ModuleSeeds(ArgumentGraph, ArgumentModule) == [1]
  {
    var g, m := ArgumentGraph, ArgumentModule;
    ModuleSeedsInOrder(g, m);
    assert ModuleInstructions(m) == [1, 2] by {
      assert m[..0] == [] && m[0][..0] == [];
      assert Instructions(m[0]) == [1, 2];
    }
    ArgumentBlockSeeds();
  }

  /** The block `[%c, br]` seeds only the branch condition %c. */
  lemma ArgumentBlockSeeds()
    requires WellFormed(ArgumentGraph) && BlockIn(ArgumentGraph, [1, 2])
    ensures BlockSeeds(ArgumentGraph, [1, 2]) == [1]
  {
    var g := ArgumentGraph;
    assert BlockSeeds(g, [1]) == [] by {
      assert [1][..0] == [];
      assert InstructionSeeds(g, 1) == [];
    }
    assert BlockSeeds(g, [1, 2]) == BlockSeeds(g, [1]) + InstructionSeeds(g, 2) by {
      assert [1, 2][..1] == [1];
    }
    assert InstructionSeeds(g, 2) == [1];
  }

  /** Tracing %a again once both slots of %c are filled: the walk stops at %c. */
  lemma SecondVisitStops()
    requires WellFormed(ArgumentGraph)
    ensures Trace(ArgumentGraph, SecondMark, 0) == ArgumentFinal
  {
    var g := ArgumentGraph;
    var s3 := Log(SecondMark, Report(0, ArgumentOrigin));
    var u := Log(s3, UsedIn(0, 1, Unhandled));
    assert 1 in u.ledger.traced && 1 in u.ledger.checked;
    assert UserStep(g, s3, 0, 0) == Check(g, u, 1) == u;
    assert Walk(g, s3, 0, 0) == Walk(g, u, 0, 1) == u;
    assert Trace(g, SecondMark, 0) == Walk(g, s3, 0, 0);
    assert u == ArgumentFinal;
  }

  /** The expansion of %c traces %a and then the constant 0, which changes nothing. */
  lemma ConditionOperands(st: PassState)
    requires WellFormed(ArgumentGraph)
    ensures Operands(ArgumentGraph, st, 1, 0) == Trace(ArgumentGraph, st, 0)
  {
    var g := ArgumentGraph;
    var t := Trace(g, st, 0);
    assert Operands(g, st, 1, 0) == Operands(g, t, 1, 1);
    assert Trace(g, t, 4) == t;
    assert Operands(g, t, 1, 1) == Operands(g, t, 1, 2) == t;
  }

  /** The walk from %a comes back to %c, which is traced but not checked:
      %c is expanded a second time and traces %a again. */
  lemma ConditionRevisited()
    requires WellFormed(ArgumentGraph)
    ensures var u1 := Log(Log(FirstMark, Report(0, ArgumentOrigin)), UsedIn(0, 1, Unhandled));
            Check(ArgumentGraph, u1, 1) == Trace(ArgumentGraph, SecondMark, 0)
  {
    var g := ArgumentGraph;
    var u1 := Log(Log(FirstMark, Report(0, ArgumentOrigin)), UsedIn(0, 1, Unhandled));
    assert 1 in u1.ledger.traced && 1 !in u1.ledger.checked;
    assert AfterMark(u1, 1) == SecondMark;
    assert Check(g, u1, 1) == Operands(g, SecondMark, 1, 0);
    ConditionOperands(SecondMark);
  }

  /** Tracing %a for the first time: the walk over its users reaches %c,
      which is traced but not checked, so %c is expanded a second time. */
  lemma FirstVisitReturnsToCondition()
    requires WellFormed(ArgumentGraph)
    ensures Trace(ArgumentGraph, FirstMark, 0) == Trace(ArgumentGraph, SecondMark, 0)
  {
    var g := ArgumentGraph;
    var s1 := Log(FirstMark, Report(0, ArgumentOrigin));
    var u1 := Log(s1, UsedIn(0, 1, Unhandled));
    var back := Check(g, u1, 1);
    ConditionRevisited();
    assert Walk(g, s1, 0, 0) == Walk(g, back, 0, 1) by {
      assert UserStep(g, s1, 0, 0) == back;
    }
    assert Walk(g, back, 0, 1) == back;
    assert Trace(g, FirstMark, 0) == Walk(g, s1, 0, 0);
  }

  lemma ConditionTracedFirst()
    requires WellFormed(ArgumentGraph)
    ensures Trace(ArgumentGraph, Initial, 1) == Trace(ArgumentGraph, FirstMark, 0)
  {
    var g := ArgumentGraph;
    var s0 := Log(Initial, Report(1, InteriorInstruction));
    assert AfterMark(s0, 1) == FirstMark;
    assert Check(g, s0, 1) == Operands(g, FirstMark, 1, 0);
    ConditionOperands(FirstMark);
  }

  /** The branch condition %c is expanded once when it is traced, and once
      more when the walk over the users of %a comes back to it: the bound of
      two expansions per instruction is reached. */
  lemma ArgumentConditionExpandedTwice()
    ensures WellFormed(ArgumentGraph) && ModuleIn(ArgumentGraph, ArgumentModule)
    ensures Run(ArgumentGraph, ArgumentModule, Initial) == ArgumentFinal
    ensures Expansions(Run(ArgumentGraph, ArgumentModule, Initial).log, 1) == 2
  {
    var g, m := ArgumentGraph, ArgumentModule;
    ArgumentGraphWellFormed();
    var r := Run(g, m, Initial);
    assert r == ArgumentFinal by {
      ArgumentModuleSeeds();
      ConditionTracedFirst();
      FirstVisitReturnsToCondition();
      SecondVisitStops();
      assert r == TraceAll(g, Initial, [1]);
      assert TraceAll(g, Initial, [1]) == TraceAll(g, Trace(g, Initial, 1), []);
    }
    // the number of expansions follows from the invariant of the pass state
    assert Valid(g, r) by {
      InitialValid(g);
    }
    assert r.ledger.VisitOf(1).Rank() == 2;
  }

  /** The shape `%x = alloca i32; ...; call @__isoc99_scanf(%fmt, %x); ...;
      %v = load %x; %c = icmp sgt %v, 0; br i1 %c, ...` in any graph:
      tracing the branch condition %c goes back through the load %v to the
      alloca %x, and the walk over the users of %x meets the scanf call,
      wherever it stands among them, and reports it as a scanf origin. */
  lemma ScanfFlaggedThroughAlloca(g: Graph, c: ValueId, v: ValueId, x: ValueId, call: ValueId)
    requires WellFormed(g) && c < |g| && v < |g| && x < |g| && call < |g|
    requires Dispatch(g[c].kind) == InteriorInstruction && |g[c].operands| >= 1 && g[c].operands[0] == v
    requires Dispatch(g[v].kind) == InteriorInstruction && |g[v].operands| >= 1 && g[v].operands[0] == x
    requires g[x].kind == Alloca && call in g[x].users
    requires g[call].kind == Call(Some("__isoc99_scanf"))
    ensures UsedIn(x, call, ScanfOrigin("__isoc99_scanf")) in Trace(g, Initial, c).log
  {
    var flagged := UsedIn(x, call, ScanfOrigin("__isoc99_scanf"));
    GlibcScanfFlagged();
    var m2 := ExpandedFrom(ExpandedFrom(Initial, c), v);
    LoadChainReachesAlloca(g, c, v, x);
    OriginReportsEveryUser(g, m2, x, call);
    var inner := Trace(g, m2, x).log;
    var whole := Trace(g, Initial, c).log;
    var j :| 0 <= j < |inner| && inner[j] == flagged;
    assert whole[j] == flagged;
  }

  /** glibc's name for `scanf` is classified as a scanf origin. */
  lemma GlibcScanfFlagged()
    ensures CheckSeminalInput(Call(Some("__isoc99_scanf"))) == ScanfOrigin("__isoc99_scanf")
  {
    ScanfAnywhereIsFlagged("__isoc99_", "");
    assert "__isoc99_" + "scanf" + "" == "__isoc99_scanf";
  }

  /** Tracing %c traces its first operand %v right after marking %c, and that
      traces the first operand %x of %v right after marking %v. */
  lemma LoadChainReachesAlloca(g: Graph, c: ValueId, v: ValueId, x: ValueId)
    requires WellFormed(g) && c < |g| && v < |g| && x < |g|
    requires Dispatch(g[c].kind) == InteriorInstruction && |g[c].operands| >= 1 && g[c].operands[0] == v
    requires Dispatch(g[v].kind) == InteriorInstruction && |g[v].operands| >= 1 && g[v].operands[0] == x
    ensures Trace(g, ExpandedFrom(ExpandedFrom(Initial, c), v), x).log <= Trace(g, Initial, c).log
  {
    var m3 := ExpandedFrom(Initial, c);
    var m2 := ExpandedFrom(m3, v);
    assert Trace(g, m3, v).log <= Trace(g, Initial, c).log by {
      InstructionTracesOperands(g, Initial, c, 0);
      assert OperandsTo(g, m3, c, 0, 0) == m3;
    }
    assert Trace(g, m2, x).log <= Trace(g, m3, v).log by {
      InstructionTracesOperands(g, m3, v, 0);
      assert OperandsTo(g, m2, v, 0, 0) == m2;
    }
  }
}
