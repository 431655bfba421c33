/** The origin tracer of `SkeletonPass` as functions on the pass state:
    `Trace` is `traceVariableOrigin`, `Walk` is the loop of
    `printDefUseChains`, `Check` is `checkBeforeTrace` and `Operands` is its
    loop over the operands.  They recurse into one another exactly as the
    methods do, and they are the specification the methods of the pass
    class are proved against. */
module Tracer {
  import opened IR
  import opened Classify
  import opened Ledger

  /** The diagnostic stream, reduced to what it says about the traversal. */
  datatype Event =
    | Report(v: ValueId, route: Route)                    // the "originates ..." / "Tracing ..." line for v
    | UsedIn(v: ValueId, user: ValueId, verdict: Verdict) // one user of v, with checkSeminalInput's verdict on it
    | Expanded(inst: ValueId)                             // checkBeforeTrace goes on to the operands of inst

  /** The two ledger vectors and the event log. */
  datatype PassState = PassState(ledger: Ledger, log: seq<Event>)

  const Initial := PassState(Ledger([], []), [])

  function Log(st: PassState, e: Event): PassState {
    PassState(st.ledger, st.log + [e])
  }

  /** `r` is reached from `st` by appending only: nothing is removed from
      either vector or from the log. */
  ghost predicate Extends(st: PassState, r: PassState) {
    st.ledger.traced <= r.ledger.traced && st.ledger.checked <= r.ledger.checked && st.log <= r.log
  }

  function StateMeasure(g: Graph, st: PassState): nat {
    Measure(g, st.ledger)
  }

  /** `traceVariableOrigin(v)` */
  function Trace(g: Graph, st: PassState, v: ValueId): (r: PassState)
    requires WellFormed(g) && v < |g|
    ensures Extends(st, r) && StateMeasure(g, r) <= StateMeasure(g, st)
    decreases StateMeasure(g, st), 3, 0
  {
    var route := Dispatch(g[v].kind);
    if route == NoOrigin then st
    else
      var reported := Log(st, Report(v, route));
      assert reported.log[|st.log|] == Report(v, route);
      if route == InteriorInstruction then Check(g, reported, v)
      else if route == AllocaOrigin then
        // no return after the alloca case: it goes on to the instruction case
        var walked := Walk(g, reported, v, 0);
        Check(g, Log(walked, Report(v, InteriorInstruction)), v)
      else Walk(g, reported, v, 0)
  }

  /** The loop of `printDefUseChains(v)` from the `i`-th user of `v` on. */
  function Walk(g: Graph, st: PassState, v: ValueId, i: nat): (r: PassState)
    requires WellFormed(g) && v < |g| && i <= |g[v].users|
    ensures Extends(st, r) && StateMeasure(g, r) <= StateMeasure(g, st)
    decreases StateMeasure(g, st), 2, |g[v].users| - i
  {
    if i == |g[v].users| then st
    else Walk(g, UserStep(g, st, v, i), v, i + 1)
  }

  /** One round of that loop: the `i`-th user of `v` is reported with the
      verdict of `checkSeminalInput`, and handed to `checkBeforeTrace` when
      it is an instruction. */
  function UserStep(g: Graph, st: PassState, v: ValueId, i: nat): (r: PassState)
    requires WellFormed(g) && v < |g| && i < |g[v].users|
    ensures Extends(st, r) && StateMeasure(g, r) <= StateMeasure(g, st)
    decreases StateMeasure(g, st), 2, 0
  {
    var u := g[v].users[i];
    var reported := Log(st, UsedIn(v, u, CheckSeminalInput(g[u].kind)));
    if IsInstruction(g[u].kind) then Check(g, reported, u) else reported
  }

  /** The state after the ledger update of `checkBeforeTrace`, when it expands. */
  function AfterMark(st: PassState, inst: ValueId): PassState {
    PassState(Mark(st.ledger, inst).ledger, st.log + [Expanded(inst)])
  }

  /** `checkBeforeTrace(inst)` */
  function Check(g: Graph, st: PassState, inst: ValueId): (r: PassState)
    requires WellFormed(g) && inst < |g| && IsInstruction(g[inst].kind)
    ensures Extends(st, r) && StateMeasure(g, r) <= StateMeasure(g, st)
    ensures !Mark(st.ledger, inst).expand ==> r == st
    ensures Mark(st.ledger, inst).expand ==> Extends(AfterMark(st, inst), r)
    decreases StateMeasure(g, st), 1, 0
  {
    if !Mark(st.ledger, inst).expand then st
    else
      MarkShrinksMeasure(g, st.ledger, inst);
      Operands(g, AfterMark(st, inst), inst, 0)
  }

  /** The loop of `checkBeforeTrace(inst)` over the operands of `inst`, from
      the `i`-th operand on. */
  function Operands(g: Graph, st: PassState, inst: ValueId, i: nat): (r: PassState)
    requires WellFormed(g) && inst < |g| && i <= |g[inst].operands|
    ensures Extends(st, r) && StateMeasure(g, r) <= StateMeasure(g, st)
    decreases StateMeasure(g, st), 4, |g[inst].operands| - i
  {
    if i == |g[inst].operands| then st
    else Operands(g, Trace(g, st, g[inst].operands[i]), inst, i + 1)
  }

  /** `traceVariableOrigin(v)` does nothing for a value with no route, and
      otherwise starts with the report of the value for its route. */
  lemma TraceReports(g: Graph, st: PassState, v: ValueId)
    requires WellFormed(g) && v < |g|
    ensures Dispatch(g[v].kind) == NoOrigin ==> Trace(g, st, v) == st
    ensures Dispatch(g[v].kind) != NoOrigin ==>
              |Trace(g, st, v).log| > |st.log| && Trace(g, st, v).log[|st.log|] == Report(v, Dispatch(g[v].kind))
  {
    var route := Dispatch(g[v].kind);
    if route != NoOrigin {
      var reported := Log(st, Report(v, route));
      assert Extends(reported, Trace(g, st, v));
    }
  }

  /** How many times the operands of `x` were traversed, as the log shows. */
  function Expansions(log: seq<Event>, x: ValueId): nat {
    if log == [] then 0
    else Expansions(log[..|log| - 1], x) + (if log[|log| - 1] == Expanded(x) then 1 else 0)
  }

  lemma ExpansionsAppend(log: seq<Event>, e: Event, x: ValueId)
    ensures Expansions(log + [e], x) == Expansions(log, x) + (if e == Expanded(x) then 1 else 0)
  {
    assert (log + [e])[..|log|] == log;
  }

  /** The invariant of the pass state: the ledger is valid and holds only
      instructions of `g`, and each value has been expanded exactly as many
      times as its three-state ledger entry has advanced. */
  ghost predicate Valid(g: Graph, st: PassState) {
    st.ledger.Valid() &&
    (forall k :: 0 <= k < |st.ledger.traced| ==>
       st.ledger.traced[k] < |g| && IsInstruction(g[st.ledger.traced[k]].kind)) &&
    (forall x :: Expansions(st.log, x) == st.ledger.VisitOf(x).Rank())
  }

  lemma InitialValid(g: Graph)
    ensures Valid(g, Initial)
  {
  }

  lemma LogKeepsValid(g: Graph, st: PassState, e: Event)
    requires Valid(g, st) && !e.Expanded?
    ensures Valid(g, Log(st, e))
  {
    forall x ensures Expansions(Log(st, e).log, x) == st.ledger.VisitOf(x).Rank() {
      ExpansionsAppend(st.log, e, x);
    }
  }

  lemma AfterMarkKeepsValid(g: Graph, st: PassState, inst: ValueId)
    requires Valid(g, st) && inst < |g| && IsInstruction(g[inst].kind)
    requires Mark(st.ledger, inst).expand
    ensures Valid(g, AfterMark(st, inst))
  {
    var m := Mark(st.ledger, inst);
    forall x ensures Expansions(AfterMark(st, inst).log, x) == m.ledger.VisitOf(x).Rank() {
      ExpansionsAppend(st.log, Expanded(inst), x);
    }
    forall k | 0 <= k < |m.ledger.traced|
      ensures m.ledger.traced[k] < |g| && IsInstruction(g[m.ledger.traced[k]].kind)
    {
      if k >= |st.ledger.traced| {
        assert m.ledger.traced == st.ledger.traced + [inst];
      }
    }
  }

  lemma {:induction false} TraceKeepsValid(g: Graph, st: PassState, v: ValueId)
    requires WellFormed(g) && v < |g| && Valid(g, st)
    ensures Valid(g, Trace(g, st, v))
    decreases StateMeasure(g, st), 3, 0
  {
    match Dispatch(g[v].kind)
    case NoOrigin =>
    case InteriorInstruction =>
      LogKeepsValid(g, st, Report(v, InteriorInstruction));
      CheckKeepsValid(g, Log(st, Report(v, InteriorInstruction)), v);
    case AllocaOrigin =>
      LogKeepsValid(g, st, Report(v, AllocaOrigin));
      WalkKeepsValid(g, Log(st, Report(v, AllocaOrigin)), v, 0);
      var walked := Walk(g, Log(st, Report(v, AllocaOrigin)), v, 0);
      LogKeepsValid(g, walked, Report(v, InteriorInstruction));
      CheckKeepsValid(g, Log(walked, Report(v, InteriorInstruction)), v);
    case route =>
      LogKeepsValid(g, st, Report(v, route));
      WalkKeepsValid(g, Log(st, Report(v, route)), v, 0);
  }

  lemma {:induction false} WalkKeepsValid(g: Graph, st: PassState, v: ValueId, i: nat)
    requires WellFormed(g) && v < |g| && i <= |g[v].users| && Valid(g, st)
    ensures Valid(g, Walk(g, st, v, i))
    decreases StateMeasure(g, st), 2, |g[v].users| - i
  {
    if i < |g[v].users| {
      UserStepKeepsValid(g, st, v, i);
      WalkKeepsValid(g, UserStep(g, st, v, i), v, i + 1);
    }
  }

  lemma {:induction false} UserStepKeepsValid(g: Graph, st: PassState, v: ValueId, i: nat)
    requires WellFormed(g) && v < |g| && i < |g[v].users| && Valid(g, st)
    ensures Valid(g, UserStep(g, st, v, i))
    decreases StateMeasure(g, st), 2, 0
  {
    var u := g[v].users[i];
    var reported := Log(st, UsedIn(v, u, CheckSeminalInput(g[u].kind)));
    LogKeepsValid(g, st, UsedIn(v, u, CheckSeminalInput(g[u].kind)));
    if IsInstruction(g[u].kind) {
      CheckKeepsValid(g, reported, u);
    }
  }

  lemma {:induction false} CheckKeepsValid(g: Graph, st: PassState, inst: ValueId)
    requires WellFormed(g) && inst < |g| && IsInstruction(g[inst].kind) && Valid(g, st)
    ensures Valid(g, Check(g, st, inst))
    decreases StateMeasure(g, st), 1, 0
  {
    if Mark(st.ledger, inst).expand {
      MarkShrinksMeasure(g, st.ledger, inst);
      AfterMarkKeepsValid(g, st, inst);
      OperandsKeepsValid(g, AfterMark(st, inst), inst, 0);
    }
  }

  lemma {:induction false} OperandsKeepsValid(g: Graph, st: PassState, inst: ValueId, i: nat)
    requires WellFormed(g) && inst < |g| && i <= |g[inst].operands| && Valid(g, st)
    ensures Valid(g, Operands(g, st, inst, i))
    decreases StateMeasure(g, st), 4, |g[inst].operands| - i
  {
    if i < |g[inst].operands| {
      TraceKeepsValid(g, st, g[inst].operands[i]);
      OperandsKeepsValid(g, Trace(g, st, g[inst].operands[i]), inst, i + 1);
    }
  }

  /** In a valid state no value has been expanded more than twice, and
      anything that is not an instruction (an argument, a global variable,
      a constant) has never been expanded. */
  lemma ExpandedAtMostTwice(g: Graph, st: PassState, x: ValueId)
    requires Valid(g, st)
    ensures Expansions(st.log, x) <= 2
    ensures x >= |g| || !IsInstruction(g[x].kind) ==> Expansions(st.log, x) == 0
  {
    if x in st.ledger.traced {
      var k :| 0 <= k < |st.ledger.traced| && st.ledger.traced[k] == x;
    }
  }

  /** In a valid state the termination measure is twice the number of
      instructions minus the lengths of the two vectors; in particular the
      two vectors together never hold more than two entries per instruction. */
  lemma MeasureIsFreeSlots(g: Graph, st: PassState)
    requires Valid(g, st)
    ensures StateMeasure(g, st) + |st.ledger.traced| + |st.ledger.checked| == 2 * InstructionCount(g, |g|)
  {
    var l := st.ledger;
    UnvisitedOfDistinct(g, l.traced);
    forall k | 0 <= k < |l.checked| ensures l.checked[k] < |g| && IsInstruction(g[l.checked[k]].kind) {
      assert l.checked[k] in l.traced;
    }
    UnvisitedOfDistinct(g, l.checked);
  }
}
