/** The execution contract shared by the generic actions: the fuzzy verdicts
    an action may return, the exceptions it may raise, and the caller-owned
    return list it may append to. */
module Actions {
  import opened Terms

  /** The two canonical fuzzy values, `success()` and `fail()` of the
      context's membership function; their magnitudes are the context's. */
  datatype Verdict = Success | Fail

  /** The singleton stream `success()` when `b` holds, `fail()` otherwise. */
  function VerdictOf(b: bool): (s: seq<Verdict>)
    ensures |s| == 1
    ensures s[0] == Success <==> b
  {
    if b then [Success] else [Fail]
  }

  /** Why an `IllegalArgument` was raised. */
  datatype Cause =
    | CannotCast                 // the `cannotcast` message of the cast template
    | TypeNotFound(name: string) // a `ClassNotFoundException` for this name

  /** The exceptions that leave `execute`. `IllegalArgument` is the action
      library's own `CExecutionIllegealArgumentException`; the others are
      the Java runtime exceptions the code lets escape. */
  datatype Error =
    | IllegalArgument(cause: Cause)
    | IndexOutOfBounds
    | NullPointer
    | ClassCast

  /** What `execute` hands back: a stream of fuzzy values, or an exception. */
  datatype Outcome = Returned(verdicts: seq<Verdict>) | Raised(error: Error)

  /** One call of a side-effect-free action: its outcome and the return
      list as the caller finds it afterwards. */
  datatype Call = Call(outcome: Outcome, returned: seq<Term>)

  /** The caller-owned `List<ITerm>` an action appends its results to. */
  class ReturnList {
    var items: seq<Term>

    constructor (initial: seq<Term>)
      ensures items == initial
    {
      items := initial;
    }

    /** `addAll`: the given terms go to the end, earlier entries stay. */
    method AddAll(ts: seq<Term>)
      modifies this
      ensures items == old(items) + ts
    {
      items := items + ts;
    }
  }
}
