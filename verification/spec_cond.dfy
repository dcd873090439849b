/**
 * The stack of specialized conditions of src/te/schedule/schedule_lang.cc: entering a
 * condition's scope pushes it, leaving the scope pops it and checks that it is the
 * innermost one, and the current condition is the innermost one, if any. The
 * thread-local entry that holds the stack is an object of its own here.
 */
module SpecCond {
  import opened Wrappers
  import opened Ir

  /** A specialized condition: a list of clauses, compared by identity. */
  class SpecializedCondition {
    const clauses: seq<PrimExpr>

    constructor (clauses: seq<PrimExpr>)
      ensures this.clauses == clauses
    {
      this.clauses := clauses;
    }
  }

  /** Fatal conditions of leaving a scope. */
  datatype ScopeError =
    | EmptyStack    // no condition is in scope
    | NotInnermost  // the condition left is not the innermost one

  /** One scope event: entering or leaving the scope of a condition. */
  datatype ScopeEvent = EnterScope(c: SpecializedCondition) | ExitScope(c: SpecializedCondition)

  /** The stack after one event, innermost condition last. */
  function Step(st: seq<SpecializedCondition>, e: ScopeEvent): (r: Result<seq<SpecializedCondition>, ScopeError>)
    ensures e.EnterScope? ==> r == Ok(st + [e.c])
    ensures e.ExitScope? ==> (r.Ok? <==> |st| > 0 && st[|st| - 1] == e.c)
    ensures e.ExitScope? && |st| == 0 ==> r == Err(EmptyStack)
    ensures r.Ok? && e.ExitScope? ==> r.value + [e.c] == st
  {
    match e
    case EnterScope(c) => Ok(st + [c])
    case ExitScope(c) =>
      if |st| == 0 then Err(EmptyStack)
      else if st[|st| - 1] != c then Err(NotInnermost)
      else Ok(st[..|st| - 1])
  }

  /** The stack after a run of events, stopping at the first failure. */
  function Run(st: seq<SpecializedCondition>, events: seq<ScopeEvent>): Result<seq<SpecializedCondition>, ScopeError>
    decreases |events|
  {
    if |events| == 0 then Ok(st)
    else
      match Step(st, events[0])
      case Err(e) => Err(e)
      case Ok(next) => Run(next, events[1..])
  }

  /** Running two event lists one after the other is running their concatenation. */
  lemma {:induction false} RunAppend(st: seq<SpecializedCondition>, a: seq<ScopeEvent>, b: seq<ScopeEvent>)
    ensures Run(st, a + b) == match Run(st, a) case Err(e) => Err(e) case Ok(mid) => Run(mid, b)
    decreases |a|
  {
    if |a| > 0 {
      assert (a + b)[0] == a[0] && (a + b)[1..] == a[1..] + b;
      match Step(st, a[0])
      case Err(_) =>
      case Ok(next) => RunAppend(next, a[1..], b);
    } else {
      assert a + b == b;
    }
  }

  /**
   * A scope wraps a body that leaves the stack as it found it: entering the condition,
   * running the body and leaving the condition again restores the stack.
   */
  lemma WithScope(st: seq<SpecializedCondition>, c: SpecializedCondition, body: seq<ScopeEvent>)
    requires Run(st + [c], body) == Ok(st + [c])
    ensures Run(st, [EnterScope(c)] + body + [ExitScope(c)]) == Ok(st)
  {
    RunAppend(st, [EnterScope(c)] + body, [ExitScope(c)]);
    RunAppend(st, [EnterScope(c)], body);
    assert Run(st, [EnterScope(c)]) == Ok(st + [c]);
    assert Run(st + [c], [ExitScope(c)]) == Ok(st) by {
      assert (st + [c])[..|st + [c]| - 1] == st;
    }
  }

  /** Leaving a condition other than the innermost one fails, whatever the stack holds. */
  lemma ExitOtherFails(st: seq<SpecializedCondition>, c: SpecializedCondition, d: SpecializedCondition)
    requires c != d
    ensures Run(st + [c], [ExitScope(d)]).Err?
    ensures Run([], [ExitScope(d)]) == Err(EmptyStack)
  {
  }

  /** The stack of conditions in scope, innermost last. */
  class ConditionStack {
    var stack: seq<SpecializedCondition>

    constructor ()
      ensures stack == []
    {
      stack := [];
    }

    /** `EnterWithScope`: `c` becomes the innermost condition. */
    method Enter(c: SpecializedCondition)
      modifies this
      ensures Step(old(stack), EnterScope(c)) == Ok(stack)
      ensures stack == old(stack) + [c]
    {
      stack := stack + [c];
    }

    /**
     * `ExitWithScope`: fails on an empty stack or when `c` is not the innermost
     * condition, and otherwise pops `c`; a failure leaves the stack as it was.
     */
    method Exit(c: SpecializedCondition) returns (r: Outcome<ScopeError>)
      modifies this
      ensures r.Pass? <==> Step(old(stack), ExitScope(c)).Ok?
      ensures r.Fail? ==> Step(old(stack), ExitScope(c)) == Err(r.error) && stack == old(stack)
      ensures r.Pass? ==> Step(old(stack), ExitScope(c)) == Ok(stack)
    {
      if |stack| == 0 {
        return Fail(EmptyStack);
      }
      if stack[|stack| - 1] != c {
        return Fail(NotInnermost);
      }
      stack := stack[..|stack| - 1];
      return Pass;
    }

    /** `Current`: the innermost condition, or none when no condition is in scope. */
    method Current() returns (r: Option<SpecializedCondition>)
      ensures r.None? <==> |stack| == 0
      ensures r.Some? ==> r.value == stack[|stack| - 1] && Step(stack, ExitScope(r.value)).Ok?
    {
      if |stack| > 0 {
        r := Some(stack[|stack| - 1]);
      } else {
        r := None;
      }
    }
  }
}
