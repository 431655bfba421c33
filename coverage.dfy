/** What the traversal visits and in which order: every user of a value
    whose users are walked, every operand of an instruction that is
    expanded, and the instruction case an alloca falls through to. */
module Coverage {
  import opened IR
  import opened Classify
  import opened Ledger
  import opened Tracer

  /** The state the loop of `printDefUseChains(v)`, started at user `i`, has
      reached when it is about to handle user `k`. */
  function WalkTo(g: Graph, st: PassState, v: ValueId, i: nat, k: nat): (r: PassState)
    requires WellFormed(g) && v < |g| && i <= k <= |g[v].users|
    ensures Extends(st, r)
    decreases k - i
  {
    if i == k then st else WalkTo(g, UserStep(g, st, v, i), v, i + 1, k)
  }

  /** The state the loop of `checkBeforeTrace(inst)` over the operands,
      started at operand `i`, has reached when it is about to trace operand `k`. */
  function OperandsTo(g: Graph, st: PassState, inst: ValueId, i: nat, k: nat): (r: PassState)
    requires WellFormed(g) && inst < |g| && i <= k <= |g[inst].operands|
    ensures Extends(st, r)
    decreases k - i
  {
    if i == k then st else OperandsTo(g, Trace(g, st, g[inst].operands[i]), inst, i + 1, k)
  }

  /** One round of the user loop reports the user with its verdict first;
      a user that is not an instruction adds that report and nothing else. */
  lemma UserStepReports(g: Graph, st: PassState, v: ValueId, i: nat)
    requires WellFormed(g) && v < |g| && i < |g[v].users|
    ensures var r, u := UserStep(g, st, v, i), g[v].users[i];
            |r.log| > |st.log| && r.log[|st.log|] == UsedIn(v, u, CheckSeminalInput(g[u].kind))
    ensures var r, u := UserStep(g, st, v, i), g[v].users[i];
            !IsInstruction(g[u].kind) ==> r == Log(st, UsedIn(v, u, CheckSeminalInput(g[u].kind)))
  {
    var u := g[v].users[i];
    var reported := Log(st, UsedIn(v, u, CheckSeminalInput(g[u].kind)));
    assert reported.log[|st.log|] == UsedIn(v, u, CheckSeminalInput(g[u].kind));
  }

  /** The walk from user `i` is the walk from user `k` on, started from the
      state the users `i` to `k - 1` left. */
  lemma {:induction false} WalkThrough(g: Graph, st: PassState, v: ValueId, i: nat, k: nat)
    requires WellFormed(g) && v < |g| && i <= k <= |g[v].users|
    ensures Walk(g, st, v, i) == Walk(g, WalkTo(g, st, v, i, k), v, k)
    decreases k - i
  {
    if i < k {
      WalkThrough(g, UserStep(g, st, v, i), v, i + 1, k);
    }
  }

  lemma {:induction false} WalkToStep(g: Graph, st: PassState, v: ValueId, i: nat, k: nat)
    requires WellFormed(g) && v < |g| && i <= k < |g[v].users|
    ensures WalkTo(g, st, v, i, k + 1) == UserStep(g, WalkTo(g, st, v, i, k), v, k)
    decreases k - i
  {
    if i < k {
      WalkToStep(g, UserStep(g, st, v, i), v, i + 1, k);
    }
  }

  lemma {:induction false} WalkToCompose(g: Graph, st: PassState, v: ValueId, i: nat, j: nat, k: nat)
    requires WellFormed(g) && v < |g| && i <= j <= k <= |g[v].users|
    ensures WalkTo(g, st, v, i, k) == WalkTo(g, WalkTo(g, st, v, i, j), v, j, k)
    decreases j - i
  {
    if i < j {
      WalkToCompose(g, UserStep(g, st, v, i), v, i + 1, j, k);
    }
  }

  /** `printDefUseChains(v)` reports every user of `v`, in the order of the
      user list, each with the verdict of `checkSeminalInput` on it, and
      hands exactly the users that are instructions to `checkBeforeTrace`:
      the report of user `k` sits in the final log right after everything
      the users before it caused, and handling user `k` is reporting it and
      then, for an instruction, `Check`. */
  lemma WalkReportsEveryUser(g: Graph, st: PassState, v: ValueId, i: nat, k: nat)
    requires WellFormed(g) && v < |g| && i <= k < |g[v].users|
    ensures var before, u := WalkTo(g, st, v, i, k), g[v].users[k];
            |before.log| < |Walk(g, st, v, i).log| &&
            Walk(g, st, v, i).log[|before.log|] == UsedIn(v, u, CheckSeminalInput(g[u].kind))
    ensures var before, u := WalkTo(g, st, v, i, k), g[v].users[k];
            var reported := Log(before, UsedIn(v, u, CheckSeminalInput(g[u].kind)));
            WalkTo(g, st, v, i, k + 1) == if IsInstruction(g[u].kind) then Check(g, reported, u) else reported
    ensures forall j :: i <= j < k ==> |WalkTo(g, st, v, i, j).log| < |WalkTo(g, st, v, i, k).log|
  {
    WalkReportsUser(g, st, v, i, k);
    WalkToStep(g, st, v, i, k);
    WalkReportsInOrder(g, st, v, i, k);
  }

  lemma WalkReportsUser(g: Graph, st: PassState, v: ValueId, i: nat, k: nat)
    requires WellFormed(g) && v < |g| && i <= k < |g[v].users|
    ensures var before, u := WalkTo(g, st, v, i, k), g[v].users[k];
            |before.log| < |Walk(g, st, v, i).log| &&
            Walk(g, st, v, i).log[|before.log|] == UsedIn(v, u, CheckSeminalInput(g[u].kind))
  {
    var before, after := WalkTo(g, st, v, i, k), WalkTo(g, st, v, i, k + 1);
    var whole := Walk(g, st, v, i);
    assert after == UserStep(g, before, v, k) by {
      WalkToStep(g, st, v, i, k);
    }
    UserStepReports(g, before, v, k);
    assert Extends(after, whole) by {
      WalkThrough(g, st, v, i, k + 1);
    }
    assert whole.log[|before.log|] == after.log[|before.log|];
  }

  lemma WalkReportsInOrder(g: Graph, st: PassState, v: ValueId, i: nat, k: nat)
    requires WellFormed(g) && v < |g| && i <= k <= |g[v].users|
    ensures forall j :: i <= j < k ==> |WalkTo(g, st, v, i, j).log| < |WalkTo(g, st, v, i, k).log|
  {
    forall j | i <= j < k ensures |WalkTo(g, st, v, i, j).log| < |WalkTo(g, st, v, i, k).log| {
      WalkToGrows(g, st, v, i, j, k);
    }
  }

  /** Each user handled makes the log strictly longer. */
  lemma WalkToGrows(g: Graph, st: PassState, v: ValueId, i: nat, j: nat, k: nat)
    requires WellFormed(g) && v < |g| && i <= j < k <= |g[v].users|
    ensures |WalkTo(g, st, v, i, j).log| < |WalkTo(g, st, v, i, k).log|
  {
    var here := WalkTo(g, st, v, i, j);
    var next := UserStep(g, here, v, j);
    assert WalkTo(g, st, v, i, k) == WalkTo(g, next, v, j + 1, k) by {
      WalkToCompose(g, st, v, i, j, k);
    }
    UserStepReports(g, here, v, j);
  }

  lemma {:induction false} OperandsThrough(g: Graph, st: PassState, inst: ValueId, i: nat, k: nat)
    requires WellFormed(g) && inst < |g| && i <= k <= |g[inst].operands|
    ensures Operands(g, st, inst, i) == Operands(g, OperandsTo(g, st, inst, i, k), inst, k)
    decreases k - i
  {
    if i < k {
      var next := Trace(g, st, g[inst].operands[i]);
      OperandsThrough(g, next, inst, i + 1, k);
      assert OperandsTo(g, st, inst, i, k) == OperandsTo(g, next, inst, i + 1, k);
    }
  }

  lemma {:induction false} OperandsToStep(g: Graph, st: PassState, inst: ValueId, i: nat, k: nat)
    requires WellFormed(g) && inst < |g| && i <= k < |g[inst].operands|
    ensures OperandsTo(g, st, inst, i, k + 1) == Trace(g, OperandsTo(g, st, inst, i, k), g[inst].operands[k])
    decreases k - i
  {
    if i < k {
      var next := Trace(g, st, g[inst].operands[i]);
      OperandsToStep(g, next, inst, i + 1, k);
      assert OperandsTo(g, st, inst, i, k) == OperandsTo(g, next, inst, i + 1, k);
    }
  }

  lemma {:induction false} OperandsToCompose(g: Graph, st: PassState, inst: ValueId, i: nat, j: nat, k: nat)
    requires WellFormed(g) && inst < |g| && i <= j <= k <= |g[inst].operands|
    ensures OperandsTo(g, st, inst, i, k) == OperandsTo(g, OperandsTo(g, st, inst, i, j), inst, j, k)
    decreases k - j
  {
    var mid := OperandsTo(g, st, inst, i, j);
    if j < k {
      OperandsToCompose(g, st, inst, i, j, k - 1);
      OperandsToStep(g, st, inst, i, k - 1);
      OperandsToStep(g, mid, inst, j, k - 1);
    } else {
      assert OperandsTo(g, mid, inst, j, k) == mid;
    }
  }

  /** The operand loop of `checkBeforeTrace(inst)` traces every operand, in
      declaration order: operand `k` is traced from the state the operands
      before it left, what it adds stays in the final state, and an operand
      with a route is reported at that point of the final log. */
  lemma OperandsTraceEveryOperand(g: Graph, st: PassState, inst: ValueId, i: nat, k: nat)
    requires WellFormed(g) && inst < |g| && i <= k < |g[inst].operands|
    ensures var before, x := OperandsTo(g, st, inst, i, k), g[inst].operands[k];
            OperandsTo(g, st, inst, i, k + 1) == Trace(g, before, x) &&
            Extends(Trace(g, before, x), Operands(g, st, inst, i))
    ensures var before, x := OperandsTo(g, st, inst, i, k), g[inst].operands[k];
            Dispatch(g[x].kind) != NoOrigin ==>
              |before.log| < |Operands(g, st, inst, i).log| &&
              Operands(g, st, inst, i).log[|before.log|] == Report(x, Dispatch(g[x].kind))
    ensures forall j :: i <= j <= k ==> Extends(OperandsTo(g, st, inst, i, j), OperandsTo(g, st, inst, i, k))
  {
    OperandsToStep(g, st, inst, i, k);
    OperandsThrough(g, st, inst, i, k + 1);
    forall j | i <= j <= k ensures Extends(OperandsTo(g, st, inst, i, j), OperandsTo(g, st, inst, i, k)) {
      OperandsToCompose(g, st, inst, i, j, k);
    }
  }

  /** `checkBeforeTrace(inst)`, when it does not stop, traces every operand of
      `inst` in order right after the ledger update, and all of that stays in
      its result. This holds for every instruction handed to it: one traced
      by `traceVariableOrigin`, an alloca after its walk, or a user met by
      `printDefUseChains` (a store included). */
  lemma CheckTracesOperands(g: Graph, st: PassState, inst: ValueId, k: nat)
    requires WellFormed(g) && inst < |g| && IsInstruction(g[inst].kind)
    requires Mark(st.ledger, inst).expand && k < |g[inst].operands|
    ensures Extends(Trace(g, OperandsTo(g, AfterMark(st, inst), inst, 0, k), g[inst].operands[k]), Check(g, st, inst))
  {
    assert Check(g, st, inst) == Operands(g, AfterMark(st, inst), inst, 0);
    OperandsTraceEveryOperand(g, AfterMark(st, inst), inst, 0, k);
  }

  /** The state right after `traceVariableOrigin` has reported the interior
      instruction `c` and `checkBeforeTrace` has updated the ledger for it. */
  function ExpandedFrom(st: PassState, c: ValueId): PassState {
    AfterMark(Log(st, Report(c, InteriorInstruction)), c)
  }

  /** Tracing an interior instruction that is not yet in both vectors traces
      every operand of it right after the report and the ledger update. */
  lemma InstructionTracesOperands(g: Graph, st: PassState, c: ValueId, k: nat)
    requires WellFormed(g) && c < |g| && Dispatch(g[c].kind) == InteriorInstruction
    requires !(c in st.ledger.traced && c in st.ledger.checked)
    requires k < |g[c].operands|
    ensures Extends(Trace(g, OperandsTo(g, ExpandedFrom(st, c), c, 0, k), g[c].operands[k]), Trace(g, st, c))
  {
    var s0 := Log(st, Report(c, InteriorInstruction));
    assert Trace(g, st, c) == Check(g, s0, c);
    CheckTracesOperands(g, s0, c, k);
  }

  /** Tracing an argument, a global variable, an alloca or a store reports
      every user of it with the verdict of `checkSeminalInput` on that user. */
  lemma OriginReportsEveryUser(g: Graph, st: PassState, v: ValueId, u: ValueId)
    requires WellFormed(g) && v < |g| && Dispatch(g[v].kind).WalksUsers() && u in g[v].users
    ensures UsedIn(v, u, CheckSeminalInput(g[u].kind)) in Trace(g, st, v).log
  {
    var route := Dispatch(g[v].kind);
    var w0 := Log(st, Report(v, route));
    var walked := Walk(g, w0, v, 0);
    var k :| 0 <= k < |g[v].users| && g[v].users[k] == u;
    WalkReportsEveryUser(g, w0, v, 0, k);
    var at := |WalkTo(g, w0, v, 0, k).log|;
    assert Extends(walked, Trace(g, st, v)) by {
      if route == AllocaOrigin {
        assert Trace(g, st, v) == Check(g, Log(walked, Report(v, InteriorInstruction)), v);
      } else {
        assert Trace(g, st, v) == walked;
      }
    }
    assert Trace(g, st, v).log[at] == walked.log[at];
  }

  /** A log with an expansion of `x` in it holds the event. */
  lemma {:induction false} ExpandedInLog(log: seq<Event>, x: ValueId)
    requires Expansions(log, x) > 0
    ensures Expanded(x) in log
  {
    var p := log[..|log| - 1];
    if log[|log| - 1] != Expanded(x) {
      ExpandedInLog(p, x);
      var k :| 0 <= k < |p| && p[k] == Expanded(x);
      assert log[k] == Expanded(x);
    }
  }

  lemma {:induction false} ExpansionsConcat(a: seq<Event>, b: seq<Event>, x: ValueId)
    ensures Expansions(a + b, x) == Expansions(a, x) + Expansions(b, x)
    decreases |b|
  {
    if b != [] {
      var p := b[..|b| - 1];
      ExpansionsConcat(a, p, x);
      assert a + b == (a + p) + [b[|b| - 1]];
      ExpansionsAppend(a + p, b[|b| - 1], x);
      assert b == p + [b[|b| - 1]];
      ExpansionsAppend(p, b[|b| - 1], x);
    } else {
      assert a + b == a;
    }
  }

  /** The alloca case of `traceVariableOrigin` has no `return`, so an alloca
      met for the first time is expanded during its trace: after the walk
      over its users, or already inside that walk when a user leads back to
      it (then the walk may fill both of its ledger slots, and the fall-through
      to the instruction case stops at once). */
  lemma AllocaIsExpanded(g: Graph, st: PassState, x: ValueId)
    requires WellFormed(g) && x < |g| && g[x].kind == Alloca
    requires Valid(g, st) && x !in st.ledger.traced
    ensures Expansions(st.log, x) == 0 && Expansions(Trace(g, st, x).log, x) >= 1
    ensures Expanded(x) in Trace(g, st, x).log[|st.log|..]
  {
    var r := Trace(g, st, x);
    TraceKeepsValid(g, st, x);
    assert x in r.ledger.traced by {
      var walked := Walk(g, Log(st, Report(x, AllocaOrigin)), x, 0);
      var pre := Log(walked, Report(x, InteriorInstruction));
      assert r == Check(g, pre, x);
      CheckLeavesTraced(g, pre, x);
    }
    var tail := r.log[|st.log|..];
    assert r.log == st.log + tail;
    ExpansionsConcat(st.log, tail, x);
    ExpandedInLog(tail, x);
  }

  /** After `checkBeforeTrace(inst)` the instruction is in `traced_instructions`. */
  lemma CheckLeavesTraced(g: Graph, st: PassState, inst: ValueId)
    requires WellFormed(g) && inst < |g| && IsInstruction(g[inst].kind)
    ensures inst in Check(g, st, inst).ledger.traced
  {
    var r := Check(g, st, inst);
    var m := Mark(st.ledger, inst);
    if m.expand {
      var k := if inst in st.ledger.traced then Find(st.ledger.traced, inst) else |st.ledger.traced|;
      assert m.ledger.traced[k] == inst;
      assert AfterMark(st, inst).ledger.traced <= r.ledger.traced;
      assert r.ledger.traced[k] == inst;
    }
  }
}
