/** An abstract, finite picture of the LLVM IR that the pass reads.
    Values are named by their position in a graph; each carries a kind tag,
    an ordered operand list and an ordered user list.  The pass never
    changes the graph. */
module IR {

  datatype Option<+T> = None | Some(value: T)

  /** A value is identified by its index in the graph. */
  type ValueId = nat

  /** The kind tags the pass distinguishes with `isa`/`dyn_cast`.
      `Call` carries the name of the called function when the callee is
      statically known (`getCalledFunction()` is non-null) and `None` for an
      indirect call.  `Constant` stands for every value that is neither an
      instruction, nor an argument, nor a global variable: constants,
      function references, basic-block labels. */
  datatype Kind =
    | Argument
    | GlobalVariable
    | Alloca
    | Store
    | Call(callee: Option<string>)
    | Branch(conditional: bool)
    | OtherInstruction
    | Constant

  /** `isa<Instruction>` */
  predicate IsInstruction(k: Kind) {
    k.Alloca? || k.Store? || k.Call? || k.Branch? || k.OtherInstruction?
  }

  /** One value of the graph.  For a call the arguments come first and the
      callee is the last operand, as in LLVM; for a conditional branch the
      condition is operand 0. */
  datatype Node = Node(kind: Kind, operands: seq<ValueId>, users: seq<ValueId>)

  type Graph = seq<Node>

  predicate NodeWellFormed(g: Graph, n: Node) {
    (forall k :: 0 <= k < |n.operands| ==> n.operands[k] < |g|) &&
    (forall k :: 0 <= k < |n.users| ==> n.users[k] < |g|) &&
    (n.kind.Call? ==> |n.operands| >= 1) &&
    (n.kind == Branch(true) ==> |n.operands| >= 1)
  }

  /** Every edge stays inside the graph; calls and conditional branches have
      the operands LLVM guarantees them. */
  predicate WellFormed(g: Graph) {
    forall v :: 0 <= v < |g| ==> NodeWellFormed(g, g[v])
  }

  /** The module walked by `run`: functions of basic blocks of instructions. */
  type Block = seq<ValueId>
  type Func = seq<Block>
  type Module = seq<Func>

  /** Every value listed in a block is an instruction of the graph. */
  predicate BlockIn(g: Graph, b: Block) {
    forall k :: 0 <= k < |b| ==> b[k] < |g| && IsInstruction(g[b[k]].kind)
  }

  predicate FuncIn(g: Graph, f: Func) {
    forall b :: 0 <= b < |f| ==> BlockIn(g, f[b])
  }

  predicate ModuleIn(g: Graph, m: Module) {
    forall f :: 0 <= f < |m| ==> FuncIn(g, m[f])
  }
}
