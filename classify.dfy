/** The two pure classifications of the pass: the kind dispatch at the top
    of `traceVariableOrigin` and the verdict of `checkSeminalInput`. */
module Classify {
  import opened IR

  /** `StringRef::contains`: `pattern` occurs as a contiguous piece of `s`. */
  function Contains(s: string, pattern: string): (r: bool)
    ensures r ==> |pattern| <= |s|
    ensures |pattern| <= |s| && s[..|pattern|] == pattern ==> r
    ensures |pattern| <= |s| && s[|s| - |pattern|..] == pattern ==> r
    decreases |s|
  {
    if |s| < |pattern| then false
    else
      assert |s| > |pattern| ==> s[1..][|s| - 1 - |pattern|..] == s[|s| - |pattern|..];
      s[..|pattern|] == pattern || Contains(s[1..], pattern)
  }

  ghost predicate OccursAt(s: string, pattern: string, i: int) {
    0 <= i && i + |pattern| <= |s| && s[i..i + |pattern|] == pattern
  }

  /** The scan in `Contains` finds an occurrence exactly when one exists. */
  lemma {:induction false} ContainsIffOccurs(s: string, pattern: string)
    ensures Contains(s, pattern) <==> exists i :: OccursAt(s, pattern, i)
    decreases |s|
  {
    if |s| < |pattern| {
    } else if s[..|pattern|] == pattern {
      assert OccursAt(s, pattern, 0);
    } else {
      ContainsIffOccurs(s[1..], pattern);
      if Contains(s[1..], pattern) {
        var i :| OccursAt(s[1..], pattern, i);
        assert s[1..][i..i + |pattern|] == s[i + 1..i + 1 + |pattern|];
        assert OccursAt(s, pattern, i + 1);
      } else {
        forall i | OccursAt(s, pattern, i)
          ensures false
        {
          if i > 0 {
            assert s[1..][i - 1..i - 1 + |pattern|] == s[i..i + |pattern|];
            assert OccursAt(s[1..], pattern, i - 1);
          }
        }
      }
    }
  }

  /** What `traceVariableOrigin` does with a value, decided by its kind in
      the fixed order argument, alloca, global variable, store, instruction. */
  datatype Route =
    | ArgumentOrigin       // report, walk the users, return
    | AllocaOrigin         // report, walk the users, then fall through to the instruction case
    | GlobalOrigin         // report, walk the users, return
    | StoreOrigin          // report, walk the users, return
    | InteriorInstruction  // report, hand the instruction to checkBeforeTrace
    | NoOrigin             // nothing at all
  {
    /** The route calls `printDefUseChains` on the value. */
    predicate WalksUsers() {
      this == ArgumentOrigin || this == AllocaOrigin || this == GlobalOrigin || this == StoreOrigin
    }

    /** The route calls `checkBeforeTrace` on the value itself. */
    predicate Expands() {
      this == AllocaOrigin || this == InteriorInstruction
    }
  }

  function Dispatch(k: Kind): (r: Route)
    ensures r.WalksUsers() <==> k.Argument? || k.GlobalVariable? || k.Alloca? || k.Store?
    ensures r.Expands() <==> IsInstruction(k) && !k.Store?
    ensures r == NoOrigin <==> !IsInstruction(k) && !k.Argument? && !k.GlobalVariable?
    ensures r == InteriorInstruction ==> IsInstruction(k)
  {
    if k.Argument? then ArgumentOrigin
    else if k.Alloca? then AllocaOrigin
    else if k.GlobalVariable? then GlobalOrigin
    else if k.Store? then StoreOrigin
    else if IsInstruction(k) then InteriorInstruction
    else NoOrigin
  }

  /** What `checkSeminalInput` reports about a user. */
  datatype Verdict =
    | ScanfOrigin(callee: string)  // a direct call whose callee name contains "scanf"
    | DirectCall(callee: string)   // any other direct call: only the callee name is reported
    | IndirectCall                 // a call without a statically known callee: nothing is reported
    | Allocated                    // an alloca
    | Unhandled                    // everything else

  function CheckSeminalInput(k: Kind): (r: Verdict)
    ensures r.ScanfOrigin? <==> k.Call? && k.callee.Some? && Contains(k.callee.value, "scanf")
    ensures r.IndirectCall? <==> k == Call(None)
    ensures r.Allocated? <==> k.Alloca?
    ensures r.Unhandled? <==> !k.Call? && !k.Alloca?
    ensures r.ScanfOrigin? || r.DirectCall? ==> k == Call(Some(r.callee))
  {
    match k
    case Call(Some(name)) => if Contains(name, "scanf") then ScanfOrigin(name) else DirectCall(name)
    case Call(None) => IndirectCall
    case Alloca => Allocated
    case _ => Unhandled
  }

  /** A direct call to a function whose name has "scanf" anywhere in it is
      flagged, whatever precedes or follows the "scanf". */
  lemma {:induction false} ScanfAnywhereIsFlagged(prefix: string, suffix: string)
    ensures CheckSeminalInput(Call(Some(prefix + "scanf" + suffix))).ScanfOrigin?
  {
    var s := prefix + "scanf" + suffix;
    assert s[|prefix|..|prefix| + 5] == "scanf";
    assert OccursAt(s, "scanf", |prefix|);
    ContainsIffOccurs(s, "scanf");
  }
}
