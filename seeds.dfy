/** The module walk of `run`: which values it starts the tracer on, in which
    order, and the state the whole walk leaves behind. */
module Seeds {
  import opened IR
  import opened Classify
  import opened Ledger
  import opened Tracer

  /** Instruction `i` starts a trace: a conditional branch, or a direct call
      to a function named exactly "getc". */
  predicate Seeding(g: Graph, i: ValueId)
    requires i < |g|
  {
    g[i].kind == Branch(true) || g[i].kind == Call(Some("getc"))
  }

  /** The values `run` traces when it reaches instruction `i`: the condition
      of a conditional branch, then argument 0 of a direct call to a
      function named exactly "getc". */
  function InstructionSeeds(g: Graph, i: ValueId): (s: seq<ValueId>)
    requires WellFormed(g) && i < |g|
    ensures forall k :: 0 <= k < |s| ==> s[k] < |g|
    ensures |s| <= 1
    ensures |s| == 1 <==> Seeding(g, i)
    ensures |s| == 1 ==> s[0] == g[i].operands[0]
  {
    (if g[i].kind == Branch(true) then [g[i].operands[0]] else []) +
    (if g[i].kind == Call(Some("getc")) then [g[i].operands[0]] else [])
  }

  function BlockSeeds(g: Graph, b: Block): (s: seq<ValueId>)
    requires WellFormed(g) && BlockIn(g, b)
    ensures forall k :: 0 <= k < |s| ==> s[k] < |g|
  {
    if b == [] then []
    else BlockSeeds(g, b[..|b| - 1]) + InstructionSeeds(g, b[|b| - 1])
  }

  function FuncSeeds(g: Graph, f: Func): (s: seq<ValueId>)
    requires WellFormed(g) && FuncIn(g, f)
    ensures forall k :: 0 <= k < |s| ==> s[k] < |g|
  {
    if f == [] then []
    else
      FuncSeeds(g, f[..|f| - 1]) + BlockSeeds(g, f[|f| - 1])
  }

  function ModuleSeeds(g: Graph, m: Module): (s: seq<ValueId>)
    requires WellFormed(g) && ModuleIn(g, m)
    ensures forall k :: 0 <= k < |s| ==> s[k] < |g|
  {
    if m == [] then []
    else
      ModuleSeeds(g, m[..|m| - 1]) + FuncSeeds(g, m[|m| - 1])
  }

  /** Tracing the seeds one after the other on one pass state. */
  function TraceAll(g: Graph, st: PassState, seeds: seq<ValueId>): (r: PassState)
    requires WellFormed(g) && forall k :: 0 <= k < |seeds| ==> seeds[k] < |g|
    ensures Extends(st, r)
    decreases |seeds|
  {
    if seeds == [] then st
    else TraceAll(g, Trace(g, st, seeds[0]), seeds[1..])
  }

  /** `run`: the state after tracing every seed of the module in walk order.
      It only appends to the two vectors and the log, and it keeps the
      invariant of the pass state. */
  function Run(g: Graph, m: Module, st: PassState): (r: PassState)
    requires WellFormed(g) && ModuleIn(g, m)
    ensures Extends(st, r)
    ensures Valid(g, st) ==> Valid(g, r)
  {
    var seeds := ModuleSeeds(g, m);
    TraceAllKeepsValid(g, st, seeds);
    TraceAll(g, st, seeds)
  }

  /** The instructions of a function, block after block, in the order `run`
      meets them. */
  function Instructions(f: Func): seq<ValueId> {
    if f == [] then [] else Instructions(f[..|f| - 1]) + f[|f| - 1]
  }

  /** The instructions of a module, function after function. */
  function ModuleInstructions(m: Module): seq<ValueId> {
    if m == [] then [] else ModuleInstructions(m[..|m| - 1]) + Instructions(m[|m| - 1])
  }

  lemma BlockInAppend(g: Graph, a: Block, b: Block)
    requires BlockIn(g, a) && BlockIn(g, b)
    ensures BlockIn(g, a + b)
  {
    var c := a + b;
    forall k | 0 <= k < |c| ensures c[k] < |g| && IsInstruction(g[c[k]].kind) {
      if k < |a| { assert c[k] == a[k]; } else { assert c[k] == b[k - |a|]; }
    }
  }

  lemma {:induction false} BlockSeedsAppend(g: Graph, a: Block, b: Block)
    requires WellFormed(g) && BlockIn(g, a) && BlockIn(g, b)
    ensures BlockIn(g, a + b)
    ensures BlockSeeds(g, a + b) == BlockSeeds(g, a) + BlockSeeds(g, b)
    decreases |b|
  {
    BlockInAppend(g, a, b);
    if b == [] {
      assert a + b == a;
    } else {
      var p, last := b[..|b| - 1], b[|b| - 1];
      assert BlockIn(g, p);
      BlockSeedsAppend(g, a, p);
      var c := a + b;
      assert c[..|c| - 1] == a + p && c[|c| - 1] == last;
      assert BlockSeeds(g, c) == BlockSeeds(g, a + p) + InstructionSeeds(g, last);
    }
  }

  /** The seeds of a function are the seeds of its instructions taken in
      order: the block structure does not change which values are traced,
      nor in which order. */
  lemma {:induction false} FuncSeedsInOrder(g: Graph, f: Func)
    requires WellFormed(g) && FuncIn(g, f)
    ensures BlockIn(g, Instructions(f))
    ensures FuncSeeds(g, f) == BlockSeeds(g, Instructions(f))
    decreases |f|
  {
    if f != [] {
      var p := f[..|f| - 1];
      assert FuncIn(g, p);
      FuncSeedsInOrder(g, p);
      BlockSeedsAppend(g, Instructions(p), f[|f| - 1]);
    }
  }

  /** The seeds of a module are the seeds of all its instructions, function
      after function and block after block. */
  lemma {:induction false} ModuleSeedsInOrder(g: Graph, m: Module)
    requires WellFormed(g) && ModuleIn(g, m)
    ensures BlockIn(g, ModuleInstructions(m))
    ensures ModuleSeeds(g, m) == BlockSeeds(g, ModuleInstructions(m))
    decreases |m|
  {
    if m != [] {
      ModuleSeedsLast(g, m);
      var p := m[..|m| - 1];
      ModuleSeedsInOrder(g, p);
      FuncSeedsInOrder(g, m[|m| - 1]);
      BlockSeedsAppend(g, ModuleInstructions(p), Instructions(m[|m| - 1]));
    }
  }

  /** `x` is operand 0 of some seeding instruction of `b`. */
  ghost predicate SeededBy(g: Graph, b: Block, x: ValueId)
    requires WellFormed(g) && BlockIn(g, b)
  {
    exists k :: 0 <= k < |b| && Seeding(g, b[k]) && g[b[k]].operands[0] == x
  }

  /** A value is a seed of a list of instructions exactly when it is operand 0
      of a seeding instruction in the list. */
  lemma BlockSeedsMembers(g: Graph, b: Block, x: ValueId)
    requires WellFormed(g) && BlockIn(g, b)
    ensures x in BlockSeeds(g, b) <==> SeededBy(g, b, x)
  {
    BlockSeedsSound(g, b, x);
    if SeededBy(g, b, x) {
      var k :| 0 <= k < |b| && Seeding(g, b[k]) && g[b[k]].operands[0] == x;
      BlockSeedsComplete(g, b, k);
    }
  }

  lemma {:induction false} BlockSeedsSound(g: Graph, b: Block, x: ValueId)
    requires WellFormed(g) && BlockIn(g, b)
    ensures x in BlockSeeds(g, b) ==> SeededBy(g, b, x)
    decreases |b|
  {
    if b != [] && x in BlockSeeds(g, b) {
      var p, last := b[..|b| - 1], b[|b| - 1];
      assert BlockIn(g, p);
      var here := InstructionSeeds(g, last);
      assert BlockSeeds(g, b) == BlockSeeds(g, p) + here;
      if x in BlockSeeds(g, p) {
        BlockSeedsSound(g, p, x);
        var k :| 0 <= k < |p| && Seeding(g, p[k]) && g[p[k]].operands[0] == x;
        assert b[k] == p[k];
      } else {
        assert x in here;
        assert b[|b| - 1] == last;
      }
    }
  }

  lemma {:induction false} BlockSeedsComplete(g: Graph, b: Block, k: nat)
    requires WellFormed(g) && BlockIn(g, b) && k < |b| && Seeding(g, b[k])
    ensures g[b[k]].operands[0] in BlockSeeds(g, b)
    decreases |b|
  {
    var p, last := b[..|b| - 1], b[|b| - 1];
    assert BlockIn(g, p);
    assert BlockSeeds(g, b) == BlockSeeds(g, p) + InstructionSeeds(g, last);
    if k < |p| {
      assert p[k] == b[k];
      BlockSeedsComplete(g, p, k);
    }
  }

  /** Tracing `a` and then `b` is tracing `a + b`: each trace starts from the
      state the previous one left. */
  lemma {:induction false} TraceAllAppend(g: Graph, st: PassState, a: seq<ValueId>, b: seq<ValueId>)
    requires WellFormed(g)
    requires forall k :: 0 <= k < |a| ==> a[k] < |g|
    requires forall k :: 0 <= k < |b| ==> b[k] < |g|
    ensures TraceAll(g, st, a + b) == TraceAll(g, TraceAll(g, st, a), b)
    decreases |a|
  {
    if a != [] {
      assert (a + b)[0] == a[0] && (a + b)[1..] == a[1..] + b;
      TraceAllAppend(g, Trace(g, st, a[0]), a[1..], b);
    } else {
      assert a + b == b;
    }
  }

  lemma {:induction false} TraceAllKeepsValid(g: Graph, st: PassState, seeds: seq<ValueId>)
    requires WellFormed(g) && forall k :: 0 <= k < |seeds| ==> seeds[k] < |g|
    ensures Valid(g, st) ==> Valid(g, TraceAll(g, st, seeds))
    decreases |seeds|
  {
    if seeds != [] && Valid(g, st) {
      TraceKeepsValid(g, st, seeds[0]);
      TraceAllKeepsValid(g, Trace(g, st, seeds[0]), seeds[1..]);
    }
  }

  lemma ModuleInAppend(g: Graph, m1: Module, m2: Module)
    requires ModuleIn(g, m1) && ModuleIn(g, m2)
    ensures ModuleIn(g, m1 + m2)
  {
    var m := m1 + m2;
    forall f | 0 <= f < |m| ensures FuncIn(g, m[f]) {
      if f < |m1| { assert m[f] == m1[f]; } else { assert m[f] == m2[f - |m1|]; }
    }
  }

  lemma ModuleSeedsLast(g: Graph, m: Module)
    requires WellFormed(g) && ModuleIn(g, m) && m != []
    ensures ModuleIn(g, m[..|m| - 1]) && FuncIn(g, m[|m| - 1])
    ensures ModuleSeeds(g, m) == ModuleSeeds(g, m[..|m| - 1]) + FuncSeeds(g, m[|m| - 1])
  {
  }

  lemma {:induction false} ModuleInstructionsAppend(m1: Module, m2: Module)
    ensures ModuleInstructions(m1 + m2) == ModuleInstructions(m1) + ModuleInstructions(m2)
    decreases |m2|
  {
    var m := m1 + m2;
    if m2 == [] {
      assert m == m1;
    } else {
      var p, last := m2[..|m2| - 1], m2[|m2| - 1];
      var a, b, c := ModuleInstructions(m1), ModuleInstructions(p), Instructions(last);
      assert ModuleInstructions(m) == (a + b) + c by {
        assert m[..|m| - 1] == m1 + p && m[|m| - 1] == last;
        ModuleInstructionsAppend(m1, p);
      }
      assert ModuleInstructions(m2) == b + c;
      assert (a + b) + c == a + (b + c);
    }
  }

  lemma ModuleSeedsAppend(g: Graph, m1: Module, m2: Module)
    requires WellFormed(g) && ModuleIn(g, m1) && ModuleIn(g, m2)
    ensures ModuleIn(g, m1 + m2)
    ensures ModuleSeeds(g, m1 + m2) == ModuleSeeds(g, m1) + ModuleSeeds(g, m2)
  {
    ModuleInAppend(g, m1, m2);
    ModuleSeedsInOrder(g, m1);
    ModuleSeedsInOrder(g, m2);
    ModuleSeedsInOrder(g, m1 + m2);
    ModuleInstructionsAppend(m1, m2);
    BlockSeedsAppend(g, ModuleInstructions(m1), ModuleInstructions(m2));
  }

  /** The seeds of the first `f + 1` functions are those of the first `f`
      followed by those of function `f`; likewise for blocks and instructions. */
  lemma ModuleSeedsStep(g: Graph, m: Module, f: nat)
    requires WellFormed(g) && ModuleIn(g, m) && f < |m|
    ensures ModuleIn(g, m[..f]) && ModuleIn(g, m[..f + 1]) && FuncIn(g, m[f])
    ensures ModuleSeeds(g, m[..f + 1]) == ModuleSeeds(g, m[..f]) + FuncSeeds(g, m[f])
  {
    assert m[..f + 1][..f] == m[..f];
  }

  lemma FuncSeedsStep(g: Graph, fn: Func, b: nat)
    requires WellFormed(g) && FuncIn(g, fn) && b < |fn|
    ensures FuncIn(g, fn[..b]) && FuncIn(g, fn[..b + 1])
    ensures BlockIn(g, fn[b])
    ensures FuncSeeds(g, fn[..b + 1]) == FuncSeeds(g, fn[..b]) + BlockSeeds(g, fn[b])
  {
    assert fn[..b + 1][..b] == fn[..b];
  }

  lemma BlockSeedsStep(g: Graph, blk: Block, i: nat)
    requires WellFormed(g) && BlockIn(g, blk) && i < |blk|
    ensures BlockIn(g, blk[..i]) && BlockIn(g, blk[..i + 1])
    ensures BlockSeeds(g, blk[..i + 1]) == BlockSeeds(g, blk[..i]) + InstructionSeeds(g, blk[i])
  {
    var p := blk[..i + 1];
    assert p[..|p| - 1] == blk[..i];
    assert p[|p| - 1] == blk[i];
  }

  /** The ledger is never reset: running the pass over a module that is split
      into two parts is running it over the first part and then over the
      second part from the state the first part left. */
  lemma LedgerPersistsAcrossFunctions(g: Graph, m1: Module, m2: Module, st: PassState)
    requires WellFormed(g) && ModuleIn(g, m1) && ModuleIn(g, m2)
    ensures ModuleIn(g, m1 + m2)
    ensures Run(g, m1 + m2, st) == Run(g, m2, Run(g, m1, st))
    ensures Extends(Run(g, m1, st), Run(g, m1 + m2, st))
  {
    ModuleSeedsAppend(g, m1, m2);
    TraceAllAppend(g, st, ModuleSeeds(g, m1), ModuleSeeds(g, m2));
  }

  /** Over a whole run of the pass from fresh vectors, the operands of any
      one instruction are traversed at most twice, those of arguments,
      global variables and constants never, and the two vectors hold at most
      two entries per instruction. */
  lemma RunExpandsAtMostTwice(g: Graph, m: Module)
    requires WellFormed(g) && ModuleIn(g, m)
    ensures forall x: ValueId :: Expansions(Run(g, m, Initial).log, x) <= 2
    ensures forall x: ValueId :: x >= |g| || !IsInstruction(g[x].kind) ==> Expansions(Run(g, m, Initial).log, x) == 0
    ensures |Run(g, m, Initial).ledger.traced| + |Run(g, m, Initial).ledger.checked| <= 2 * InstructionCount(g, |g|)
  {
    var r := Run(g, m, Initial);
    InitialValid(g);
    TraceAllKeepsValid(g, Initial, ModuleSeeds(g, m));
    forall x: ValueId ensures Expansions(r.log, x) <= 2
      && (x >= |g| || !IsInstruction(g[x].kind) ==> Expansions(r.log, x) == 0)
    {
      ExpandedAtMostTwice(g, r, x);
    }
    MeasureIsFreeSlots(g, r);
  }
}
