/**
 * The transform stack of the turtle: a working transform `top` and a LIFO
 * list of saved copies (src/js/matrixStack.js).
 *
 * The class below is the object the generator mutates. Beside it, a value
 * model of the same stack (`StackState`, `Step`, `Run`) states what a
 * sequence of operations does, and the lemmas prove the save/restore
 * discipline: a balanced sequence never underflows, and "push, anything
 * balanced, pop" gives back exactly the state before the push.
 */
module MatrixStack {
  import opened GlMatrix

  /** The string `pop` throws when nothing is saved. */
  const UnderflowMessage: string := "Too many calls to MatrixStack.pop()"

  /** How a call that may throw ended: normally, or with the thrown message. */
  datatype Outcome = Pass | Fail(message: string)

  /** The stack as a value: the working transform and the saved copies, oldest first. */
  datatype StackState = StackState(top: Mat4, saved: seq<Mat4>)

  /** The operations a client applies to the stack; `Transform` is any in-place change of `top`. */
  datatype StackOp = PushOp | PopOp | Transform(f: Mat4 -> Mat4)

  /** The state after an operation, or the underflow that `pop` throws. */
  datatype StepResult = Ok(state: StackState) | Underflow

  /** One operation on the value model. */
  function Step(s: StackState, op: StackOp): StepResult {
    match op
    case PushOp => Ok(StackState(s.top, s.saved + [s.top]))
    case PopOp =>
      if s.saved == [] then Underflow
      else Ok(StackState(s.saved[|s.saved| - 1], s.saved[..|s.saved| - 1]))
    case Transform(f) => Ok(StackState(f(s.top), s.saved))
  }

  /** Only a pop with nothing saved fails. */
  lemma StepFailsOnlyOnEmptyPop(s: StackState, op: StackOp)
    ensures Step(s, op).Underflow? <==> op.PopOp? && s.saved == []
  {
  }

  /** A pop right after a push gives back the state before the push. */
  lemma PopUndoesPush(s: StackState)
    ensures Step(s, PushOp).Ok? && Step(Step(s, PushOp).state, PopOp) == Ok(s)
  {
    assert (s.saved + [s.top])[..|s.saved|] == s.saved;
  }

  /**
   * A push right after a successful pop gives back the saved list, with the
   * restored copy as the working transform.
   */
  lemma PushAfterPop(s: StackState)
    requires s.saved != []
    ensures Step(s, PopOp).Ok? && Step(Step(s, PopOp).state, PushOp) == Ok(StackState(s.saved[|s.saved| - 1], s.saved))
  {
    assert s.saved[..|s.saved| - 1] + [s.saved[|s.saved| - 1]] == s.saved;
  }

  /** A sequence of operations, stopping at the first underflow. */
  function Run(s: StackState, ops: seq<StackOp>): StepResult
    decreases |ops|
  {
    if ops == [] then Ok(s)
    else
      match Step(s, ops[0])
      case Underflow => Underflow
      case Ok(s') => Run(s', ops[1..])
  }

  /** Pushes minus pops. */
  function Net(ops: seq<StackOp>): int
    decreases |ops|
  {
    if ops == [] then 0
    else (match ops[0] case PushOp => 1 case PopOp => -1 case Transform(_) => 0) + Net(ops[1..])
  }

  /** `ops` never pops more than `depth` saved transforms beyond what it pushed itself. */
  predicate Fits(ops: seq<StackOp>, depth: nat)
    decreases |ops|
  {
    ops == [] ||
    match ops[0]
    case PushOp => Fits(ops[1..], depth + 1)
    case PopOp => depth > 0 && Fits(ops[1..], depth - 1)
    case Transform(_) => Fits(ops[1..], depth)
  }

  /** Every pop is matched by an earlier push of the same sequence, and nothing stays pushed. */
  predicate Balanced(ops: seq<StackOp>) {
    Fits(ops, 0) && Net(ops) == 0
  }

  /**
   * A sequence that fits the top `depth` saved entries runs without underflow,
   * changes the saved list's length by its net count and never touches the
   * entries below those `depth`.
   */
  lemma {:induction false} RunFits(s: StackState, ops: seq<StackOp>, depth: nat)
    requires depth <= |s.saved|
    requires Fits(ops, depth)
    ensures Run(s, ops).Ok?
    ensures |Run(s, ops).state.saved| == |s.saved| + Net(ops)
    ensures |s.saved| - depth <= |Run(s, ops).state.saved|
    ensures Run(s, ops).state.saved[..|s.saved| - depth] == s.saved[..|s.saved| - depth]
    decreases |ops|
  {
    if ops != [] {
      var op := ops[0];
      match op
      case PushOp =>
        var s' := StackState(s.top, s.saved + [s.top]);
        RunFits(s', ops[1..], depth + 1);
        assert s'.saved[..|s.saved| - depth] == s.saved[..|s.saved| - depth];
      case PopOp =>
        var s' := StackState(s.saved[|s.saved| - 1], s.saved[..|s.saved| - 1]);
        RunFits(s', ops[1..], depth - 1);
        assert s'.saved[..|s.saved| - depth] == s.saved[..|s.saved| - depth];
      case Transform(f) =>
        RunFits(StackState(f(s.top), s.saved), ops[1..], depth);
    }
  }

  /** A balanced sequence never underflows and leaves the saved list as it found it. */
  lemma BalancedKeepsSaved(s: StackState, ops: seq<StackOp>)
    requires Balanced(ops)
    ensures Run(s, ops).Ok?
    ensures Run(s, ops).state.saved == s.saved
  {
    RunFits(s, ops, 0);
    assert s.saved[..|s.saved|] == s.saved;
  }

  /** Running two sequences one after the other is running their concatenation. */
  lemma {:induction false} RunAppend(s: StackState, a: seq<StackOp>, b: seq<StackOp>)
    ensures Run(s, a + b) == (match Run(s, a) case Underflow => Underflow case Ok(s') => Run(s', b))
    decreases |a|
  {
    if a == [] {
      assert a + b == b;
    } else {
      assert (a + b)[0] == a[0];
      assert (a + b)[1..] == a[1..] + b;
      match Step(s, a[0])
      case Underflow =>
      case Ok(s') => RunAppend(s', a[1..], b);
    }
  }

  /**
   * Value semantics of the saved copy: push, then any balanced sequence of
   * changes to `top` and nested push/pop pairs, then pop, restores both `top`
   * and the saved list to exactly what they were before the push.
   */
  lemma ScopedRestores(s: StackState, ops: seq<StackOp>)
    requires Balanced(ops)
    ensures Run(s, [PushOp] + ops + [PopOp]) == Ok(s)
  {
    var s1 := StackState(s.top, s.saved + [s.top]);
    assert Run(s, [PushOp]) == Ok(s1);
    RunAppend(s, [PushOp], ops);
    BalancedKeepsSaved(s1, ops);
    var s2 := Run(s1, ops).state;
    RunAppend(s, [PushOp] + ops, [PopOp]);
    assert Run(s2, [PopOp]) == Ok(StackState(s.top, s.saved));
  }

  /** A single pop with nothing saved is the underflow, whatever the working transform. */
  lemma PopEmptyUnderflows(top: Mat4, ops: seq<StackOp>)
    ensures Run(StackState(top, []), [PopOp] + ops) == Underflow
  {
    RunAppend(StackState(top, []), [PopOp], ops);
  }

  /** The transform stack object of src/js/matrixStack.js. */
  class MatrixStack {
    var top: Mat4
    var stack: seq<Mat4>

    /** The object's state as a value of the model above. */
    function State(): StackState
      reads this
    {
      StackState(top, stack)
    }

    /** `created` is the matrix that `mat4.create()` returns. */
    constructor (created: Mat4)
      ensures top == created && stack == []
    {
      top := created;
      stack := [];
    }

    /** Saves a copy of the working transform. */
    method Push()
      modifies this
      ensures top == old(top)
      ensures stack == old(stack) + [old(top)]
      ensures Step(old(State()), PushOp) == Ok(State())
    {
      var copy := top;
      stack := stack + [copy];
    }

    /** Restores the most recent saved copy, or throws when nothing is saved. */
    method Pop() returns (r: Outcome)
      modifies this
      ensures old(stack) == [] ==> r == Fail(UnderflowMessage) && top == old(top) && stack == old(stack)
      ensures old(stack) != [] ==>
        r == Pass && top == old(stack)[|old(stack)| - 1] && stack == old(stack)[..|old(stack)| - 1]
      ensures Step(old(State()), PopOp) == (if r.Pass? then Ok(State()) else Underflow)
    {
      if |stack| == 0 {
        return Fail(UnderflowMessage);
      }
      top := stack[|stack| - 1];
      stack := stack[..|stack| - 1];
      r := Pass;
    }

    /** The working transform. */
    method GetTop() returns (m: Mat4)
      ensures m == top
    {
      m := top;
    }
  }
}
