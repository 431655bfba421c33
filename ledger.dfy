/** The visitation ledger of the pass: the two vectors `traced_instructions`
    and `checked_seminal_inputs`, the membership test on them, the update
    `checkBeforeTrace` makes before it expands an instruction, and the
    measure that this update makes decrease. */
module Ledger {
  import opened IR

  /** `std::find`: the first position of `v` holding `x`, or `|v|` (the end
      iterator) when there is none. */
  function Find(v: seq<ValueId>, x: ValueId): (i: nat)
    ensures i <= |v|
    ensures i < |v| ==> v[i] == x
    ensures forall j :: 0 <= j < i ==> v[j] != x
  {
    if v == [] then 0
    else if v[0] == x then 0
    else 1 + Find(v[1..], x)
  }

  /** `isInstructionInVector` */
  function IsInstructionInVector(v: seq<ValueId>, x: ValueId): (b: bool)
    ensures b <==> x in v
  {
    Find(v, x) != |v|
  }

  ghost predicate Distinct(s: seq<ValueId>) {
    forall a, b :: 0 <= a < b < |s| ==> s[a] != s[b]
  }

  /** Where one instruction stands in the ledger. */
  datatype Visit = Unseen | Traced | TracedAndChecked {
    function Rank(): nat {
      match this
      case Unseen => 0
      case Traced => 1
      case TracedAndChecked => 2
    }
  }

  datatype Ledger = Ledger(traced: seq<ValueId>, checked: seq<ValueId>) {
    /** Neither vector repeats an entry, and only a traced instruction can be checked. */
    ghost predicate Valid() {
      Distinct(traced) && Distinct(checked) && forall x :: x in checked ==> x in traced
    }

    function VisitOf(x: ValueId): Visit {
      if x !in traced then Unseen
      else if x !in checked then Traced
      else TracedAndChecked
    }
  }

  /** The outcome of the ledger update: the new ledger and whether the
      operands of the instruction are traversed afterwards. */
  datatype Marked = Marked(ledger: Ledger, expand: bool)

  /** The ledger update at the head of `checkBeforeTrace`: an instruction in
      both vectors stops the traversal; otherwise it is appended to the
      first vector that lacks it and its operands are traversed. */
  function Mark(l: Ledger, inst: ValueId): (r: Marked)
    ensures r.expand <==> !(inst in l.traced && inst in l.checked)
    ensures l.traced <= r.ledger.traced && l.checked <= r.ledger.checked
    ensures |r.ledger.traced| + |r.ledger.checked| == |l.traced| + |l.checked| + (if r.expand then 1 else 0)
    ensures l.Valid() ==> r.ledger.Valid()
    ensures l.Valid() ==> r.ledger.VisitOf(inst).Rank() == if r.expand then l.VisitOf(inst).Rank() + 1 else 2
    ensures forall x :: x != inst ==> r.ledger.VisitOf(x) == l.VisitOf(x)
  {
    if IsInstructionInVector(l.traced, inst) && IsInstructionInVector(l.checked, inst) then
      Marked(l, false)
    else if !IsInstructionInVector(l.traced, inst) then
      Marked(Ledger(l.traced + [inst], l.checked), true)
    else
      Marked(Ledger(l.traced, l.checked + [inst]), true)
  }

  /** The number of instructions among the first `n` values of `g` that `s`
      does not hold. */
  function Unvisited(g: Graph, s: seq<ValueId>, n: nat): nat
    requires n <= |g|
  {
    if n == 0 then 0
    else Unvisited(g, s, n - 1) + (if IsInstruction(g[n - 1].kind) && n - 1 !in s then 1 else 0)
  }

  /** The number of instructions among the first `n` values of `g`. */
  function InstructionCount(g: Graph, n: nat): nat
    requires n <= |g|
  {
    if n == 0 then 0
    else InstructionCount(g, n - 1) + (if IsInstruction(g[n - 1].kind) then 1 else 0)
  }

  /** The termination measure of the traversal: the ledger slots not yet filled. */
  function Measure(g: Graph, l: Ledger): nat {
    Unvisited(g, l.traced, |g|) + Unvisited(g, l.checked, |g|)
  }

  /** Appending an instruction not yet held frees exactly one slot fewer;
      appending anything else changes nothing. */
  lemma {:induction false} UnvisitedAppend(g: Graph, s: seq<ValueId>, x: ValueId, n: nat)
    requires n <= |g|
    ensures Unvisited(g, s + [x], n) ==
            Unvisited(g, s, n) - (if x < n && IsInstruction(g[x].kind) && x !in s then 1 else 0)
  {
    if n > 0 {
      UnvisitedAppend(g, s, x, n - 1);
    }
  }

  /** Nothing in the empty ledger: every instruction is unvisited. */
  lemma {:induction false} UnvisitedEmpty(g: Graph, n: nat)
    requires n <= |g|
    ensures Unvisited(g, [], n) == InstructionCount(g, n)
  {
    if n > 0 {
      UnvisitedEmpty(g, n - 1);
    }
  }

  /** For a vector without repeats that holds only instructions of `g`, the
      unvisited count is the number of instructions minus the vector's length. */
  lemma {:induction false} UnvisitedOfDistinct(g: Graph, s: seq<ValueId>)
    requires Distinct(s)
    requires forall k :: 0 <= k < |s| ==> s[k] < |g| && IsInstruction(g[s[k]].kind)
    ensures Unvisited(g, s, |g|) + |s| == InstructionCount(g, |g|)
    decreases |s|
  {
    if s == [] {
      UnvisitedEmpty(g, |g|);
    } else {
      var p := s[..|s| - 1];
      var x := s[|s| - 1];
      assert s == p + [x];
      assert x !in p by {
        forall k | 0 <= k < |p| ensures p[k] != x {
          assert p[k] == s[k];
        }
      }
      UnvisitedOfDistinct(g, p);
      UnvisitedAppend(g, p, x, |g|);
    }
  }

  /** Every ledger update that expands frees exactly one slot, provided the
      instruction belongs to the graph. */
  lemma MarkShrinksMeasure(g: Graph, l: Ledger, inst: ValueId)
    requires inst < |g| && IsInstruction(g[inst].kind)
    ensures Mark(l, inst).expand ==> Measure(g, Mark(l, inst).ledger) == Measure(g, l) - 1
    ensures !Mark(l, inst).expand ==> Mark(l, inst).ledger == l
  {
    UnvisitedAppend(g, l.traced, inst, |g|);
    UnvisitedAppend(g, l.checked, inst, |g|);
  }
}
