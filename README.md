# Origin tracer of the SkeletonPass LLVM plugin, modelled in Dafny

`SkeletonPass` is an LLVM module pass. For every conditional branch it traces
the branch condition back through the definition graph. It does the same for
argument 0 of every direct call to `getc`. On the way it reports where values
come from: function arguments, allocas, global variables, stores, and
instructions whose operands it follows in turn. For each user of an
argument, alloca, global or store, it also reports whether that user is a
call to a `scanf`-like routine.

The traversal is a mutual recursion: `traceVariableOrigin` calls
`checkBeforeTrace` and `printDefUseChains`. Two vectors on the pass object
keep it finite: `traced_instructions` and `checked_seminal_inputs`.

The model has these parts:

- `IR` (ir.dfy): the IR as an abstract, finite graph. Values are indices. Each
  value has a kind tag (argument, global variable, alloca, store, call with an
  optional callee name, branch, other instruction, constant), an ordered
  operand list and an ordered user list. A module is a list of functions. A
  function is a list of basic blocks. A block is a list of instruction
  indices.
- `Classify` (classify.dfy): the kind dispatch at the top of
  `traceVariableOrigin` (`Dispatch`), the verdict of `checkSeminalInput`
  (`CheckSeminalInput`), and `StringRef::contains` (`Contains`).
- `Ledger` (ledger.dfy): the membership test `isInstructionInVector` (over a
  model of `std::find`) and the ledger update at the head of
  `checkBeforeTrace` (`Mark`). Each instruction moves through three states:
  unseen, then traced, then traced and checked. This module also defines the
  termination measure: the number of ledger slots still free.
- `Tracer` (tracer.dfy): the recursion written as functions on the pass state
  (the two vectors plus a log of events). `Trace` models
  `traceVariableOrigin`, `Walk` the loop of `printDefUseChains`, `Check`
  `checkBeforeTrace`, and `Operands` its loop over the operands. Termination
  is proved with the lexicographic measure (free ledger slots, rank,
  remaining loop steps). The invariant `Valid` is preserved by every
  function. It says: no vector repeats an entry; only traced instructions are
  checked; only instructions enter the ledger; and every value has been
  expanded exactly as often as its ledger state has advanced.
- `Coverage` (coverage.dfy): what a traversal visits and in which order.
  `printDefUseChains` reports every user. `checkBeforeTrace` traces every
  operand of an instruction it expands. An alloca met for the first time is
  expanded.
- `Seeds` (seeds.dfy): the seeding rules of `run`, and `Run`, which traces
  every seed of the module in walk order on one shared ledger. The seeds of
  a module are those of its instructions taken in order: function after
  function, block after block.
- `Pass` (pass.dfy): the class `SkeletonPass`. Its fields are the two vectors
  and the event log. Its methods update them in place, with the source's
  `if` chains and loops. Each method is proved to leave exactly the state
  that its function in `Tracer` or `Seeds` computes. The three nested loops
  of `run` are split into one method per loop level (`Run`, `RunFunction`,
  `RunBlock`, `AnalyzeInstruction`), each with its own loop.
- `Scenarios` (scenarios.dfy): lemmas that work out what the specification
  yields on two IR shapes.
  The first is a comparison of an argument with a constant, feeding a
  conditional branch; its whole run is computed. The second is a branch
  condition computed from a load of an alloca that a call to
  `__isoc99_scanf` uses.

The log is a sequence of events:
- `Report(v, route)`: one of the "originates ..." or "Tracing ..." lines.
- `UsedIn(v, user, verdict)`: one user line of `printDefUseChains`, together
  with what `checkSeminalInput` said about that user.
- `Expanded(inst)`: `checkBeforeTrace` goes on to the operands of `inst`.
  This event counts expansions. The source prints no line for it.

Behaviour of the code that is easy to miss:
- An instruction is expanded at most twice. The first visit puts it
  in `traced_instructions`, the second in `checked_seminal_inputs`.
  `Scenarios.ArgumentConditionExpandedTwice` shows that the bound is reached
  by `icmp` on an argument feeding a branch.
- An alloca does not stop the trace (part1/pass.cpp:150 is commented out). It
  reports, walks its users, and then falls through to the instruction case,
  so it is reported a second time. An alloca met for the first time is
  expanded during its trace (`Coverage.AllocaIsExpanded`). That happens
  after the walk, or already inside the walk when a user leads back to the
  alloca. In the second case the walk may fill both ledger slots, and the
  fall-through then stops at once.
- Arguments, globals, allocas and stores also walk forward to their users.
  A store that is traced reports itself and walks its users without tracing
  its own operands. A store met as a user is an instruction: it is handed
  to `checkBeforeTrace`, which traces its operands.
- Phi nodes get no special handling. Their incoming values are ordinary
  operands.
- `checked_seminal_inputs` does not gate `checkSeminalInput`. It is only the
  second slot of the ledger.
- The seminal routine names are fixed in the code. "scanf" is matched as a
  substring of a direct callee's name when users are classified. "getc" is
  matched by exact name when seeds are chosen. Neither list can be
  configured.
- The ledger is never cleared. It persists across all functions of the
  module (`Seeds.LedgerPersistsAcrossFunctions`).

## Model

| member | source | states |
|---|---|---|
| `Ledger.Find` | part1/pass.cpp:112-115 | the result is the first position holding the instruction, or the vector's length when no entry holds it |
| `Ledger.IsInstructionInVector` | part1/pass.cpp:112-115 | true exactly when the instruction occurs somewhere in the vector |
| `Ledger.Mark` | part1/pass.cpp:119-126 | the walk goes on exactly when the instruction is not in both vectors; each vector only grows; one entry is added when the walk goes on and none otherwise; validity (no repeats, checked within traced) is kept; the instruction's state moves one step along unseen, traced, traced-and-checked; no other instruction's state changes |
| `Ledger.MarkShrinksMeasure` | part1/pass.cpp:119-126 | an update that goes on to the operands fills exactly one free ledger slot; an update that stops leaves the ledger unchanged |
| `Ledger.UnvisitedOfDistinct` | part1/pass.cpp:117-126 | for a vector without repeats that holds only instructions, the free slots are the instruction count minus the vector's length |
| `Classify.Contains` | part1/pass.cpp:83 | never true when the pattern is longer than the name; true whenever the name starts with the pattern or ends with it |
| `Classify.ContainsIffOccurs` | part1/pass.cpp:83 | the substring scan answers true exactly when the pattern occurs at some position of the name |
| `Classify.Dispatch` | part1/pass.cpp:135-174 | argument, global, alloca and store walk their users; every instruction except a store is handed to checkBeforeTrace (an alloca as well); a value that is neither instruction, argument nor global gets no route |
| `Classify.CheckSeminalInput` | part1/pass.cpp:78-92 | a scanf origin exactly for a direct call whose callee name contains "scanf"; an indirect call is never flagged; an alloca is "allocated"; every non-call, non-alloca user is "unhandled" |
| `Classify.ScanfAnywhereIsFlagged` | part1/pass.cpp:80-85 | any direct callee whose name has "scanf" anywhere in it (`__isoc99_scanf`, `fscanf`, ...) is flagged |
| `Tracer.Trace` | part1/pass.cpp:135-174 | the vectors and the log only grow and the measure never rises |
| `Tracer.TraceReports` | part1/pass.cpp:135-174 | a value with no route changes nothing; otherwise the first event is the value's report for its route |
| `Tracer.Walk` | part1/pass.cpp:94-110 | walking the users appends only and never raises the measure |
| `Tracer.UserStep` | part1/pass.cpp:96-108 | one round of the user loop appends only and never raises the measure |
| `Tracer.Check` | part1/pass.cpp:119-133 | an instruction in both vectors leaves the state unchanged; otherwise the ledger update and the `Expanded` event come before everything the operand traversal adds |
| `Tracer.Operands` | part1/pass.cpp:128-132 | tracing the operands in order appends only and never raises the measure |
| `Tracer.ExpansionsAppend` | part1/pass.cpp:128-132 | one more event adds one expansion exactly when it is an expansion of that value |
| `Tracer.TraceKeepsValid` | part1/pass.cpp:135-174 | tracing a value keeps the ledger invariant and the count of expansions per value equal to its ledger state |
| `Tracer.WalkKeepsValid` | part1/pass.cpp:94-110 | walking the users keeps the same invariant |
| `Tracer.UserStepKeepsValid` | part1/pass.cpp:96-108 | one round of the user loop keeps the same invariant |
| `Tracer.CheckKeepsValid` | part1/pass.cpp:119-133 | checkBeforeTrace keeps the same invariant |
| `Tracer.OperandsKeepsValid` | part1/pass.cpp:128-132 | the operand loop keeps the same invariant |
| `Tracer.AfterMarkKeepsValid` | part1/pass.cpp:120-126 | the ledger update with its expansion event keeps the invariant |
| `Tracer.ExpandedAtMostTwice` | part1/pass.cpp:119-133 | in any valid state no value has been expanded more than twice, and a non-instruction value never |
| `Tracer.MeasureIsFreeSlots` | part1/pass.cpp:117-133 | in a valid state the termination measure is twice the number of instructions minus the lengths of the two vectors |
| `Coverage.UserStepReports` | part1/pass.cpp:96-108 | one round of the user loop first reports the user with its verdict; a user that is not an instruction adds nothing else |
| `Coverage.WalkReportsEveryUser` | part1/pass.cpp:94-110 | every user is reported in the final log, in the order of the user list, with its verdict; the round for a user is its report followed by `checkBeforeTrace` exactly when the user is an instruction |
| `Coverage.OriginReportsEveryUser` | part1/pass.cpp:135-167 | tracing an argument, a global, an alloca or a store reports every user of it with its verdict |
| `Coverage.OperandsTraceEveryOperand` | part1/pass.cpp:128-132 | every operand is traced in order, from the state the operands before it left; what it adds stays in the final state; an operand with a route is reported at that point of the final log |
| `Coverage.CheckTracesOperands` | part1/pass.cpp:119-132 | for any instruction checkBeforeTrace does not stop at (one traced directly, an alloca after its walk, a store or other instruction met as a user), every operand is traced right after the ledger update, and what that adds stays in the result |
| `Coverage.InstructionTracesOperands` | part1/pass.cpp:119-174 | tracing an interior instruction that is not yet in both vectors traces every operand of it right after its report and the ledger update, and what that adds stays in the trace's result |
| `Coverage.CheckLeavesTraced` | part1/pass.cpp:119-126 | after checkBeforeTrace the instruction is in `traced_instructions` |
| `Coverage.AllocaIsExpanded` | part1/pass.cpp:146-172 | an alloca not yet traced has never been expanded, and tracing it expands it at least once |
| `Seeds.InstructionSeeds` | part1/pass.cpp:187-210 | an instruction seeds at most one trace; it seeds one exactly when it is a conditional branch or a direct call named exactly "getc"; the seed is operand 0 (the condition, or argument 0); an unconditional branch seeds nothing |
| `Seeds.BlockSeedsMembers` | part1/pass.cpp:183-213 | a value is a seed of a list of instructions exactly when it is operand 0 of a conditional branch or of a direct call named exactly "getc" in that list |
| `Seeds.BlockSeedsAppend` | part1/pass.cpp:183-213 | the seeds of two consecutive runs of instructions are the seeds of the first followed by those of the second |
| `Seeds.FuncSeedsInOrder` | part1/pass.cpp:181-215 | the seeds of a function are the seeds of all its instructions, block after block, in order |
| `Seeds.ModuleSeedsInOrder` | part1/pass.cpp:178-216 | the seeds of a module are the seeds of all its instructions, function after function and block after block, in order |
| `Seeds.TraceAll` | part1/pass.cpp:178-216 | tracing a list of seeds appends only |
| `Seeds.TraceAllKeepsValid` | part1/pass.cpp:178-216 | tracing a list of seeds keeps the invariant of the pass state |
| `Seeds.Run` | part1/pass.cpp:176-218 | the run only appends to the two vectors and the log, and a valid state stays valid |
| `Seeds.TraceAllAppend` | part1/pass.cpp:178-216 | tracing two lists one after the other is the same as tracing their concatenation, because each trace starts from the state the previous one left |
| `Seeds.ModuleSeedsAppend` | part1/pass.cpp:178-216 | the seeds of two consecutive parts of a module are the seeds of the first part followed by those of the second |
| `Seeds.LedgerPersistsAcrossFunctions` | part1/pass.cpp:176-218 | running over a module split in two is running over the second part from the state the first part left; the whole run extends the state after the first part, so nothing in the vectors or the log is reset between functions |
| `Seeds.RunExpandsAtMostTwice` | part1/pass.cpp:176-218 | over a whole run from empty vectors, each instruction's operands are traversed at most twice, those of non-instructions never, and the vectors hold at most two entries per instruction |
| `Pass.SkeletonPass.constructor` | part1/pass.cpp:76-117 | a new pass starts with both vectors and the log empty |
| `Pass.SkeletonPass.CheckBeforeTrace` | part1/pass.cpp:119-133 | the new state is exactly `Tracer.Check` of the old state |
| `Pass.SkeletonPass.TraceVariableOrigin` | part1/pass.cpp:135-174 | the new state is exactly `Tracer.Trace` of the old state, so the source's if-chain agrees with `Dispatch` |
| `Pass.SkeletonPass.PrintDefUseChains` | part1/pass.cpp:94-110 | the new state is exactly `Tracer.Walk` of the old state from the first user |
| `Pass.SkeletonPass.AnalyzeInstruction` | part1/pass.cpp:185-212 | the new state is the old state with the instruction's seeds traced |
| `Pass.SkeletonPass.RunBlock` | part1/pass.cpp:183-213 | the new state is the old state with the block's seeds traced in order |
| `Pass.SkeletonPass.RunFunction` | part1/pass.cpp:181-215 | the new state is the old state with the function's seeds traced in order |
| `Pass.SkeletonPass.Run` | part1/pass.cpp:176-218 | the new state is exactly `Seeds.Run` of the old state |
| `Scenarios.ArgumentConditionExpandedTwice` | part1/pass.cpp:119-174 | for `icmp` on an argument feeding a branch, the run ends with the comparison in both vectors, expanded twice, with the log given |
| `Scenarios.GlibcScanfFlagged` | part1/pass.cpp:80-85 | a direct call to `__isoc99_scanf` is classified as a scanf origin |
| `Scenarios.ScanfFlaggedThroughAlloca` | part1/pass.cpp:80-172 | when a branch condition is an instruction other than an alloca or a store, whose first operand is another such instruction that takes an alloca as its first operand, and any user of that alloca is a call to `__isoc99_scanf`, tracing the condition reports that call as a scanf origin |

## Left out

- Printing: all `errs()` text, `printInstrDebugLocation`, `printValueSourceLocation` and `printValueName` (part1/pass.cpp:27-74), and the debug-location lines of `printDefUseChains` and `run`. The log keeps one event per origin report and per user. It drops the operand lines (part1/pass.cpp:130), the callee-name line (part1/pass.cpp:82) and the "Found a call to getc" and branch lines of `run`. The callee name appears in the verdict instead.
- LLVM itself: the type hierarchy, `dyn_cast`, use-lists and IR construction. The graph is an input. Its user lists are not required to agree with its operand lists, because the pass never relies on that.
- The plugin registration, the PassBuilder callback and the `PreservedAnalyses` result (part1/pass.cpp:217, 223-236). These are framework glue.
- `getArgOperand(0)` on a call without arguments: the model takes operand 0, as a release build of LLVM does. That operand is then the callee itself, which the tracer ignores.
