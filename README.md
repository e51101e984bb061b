# LightJason generic actions: the action execution contract

This project models four units of the LightJason AgentSpeak(L++) generic
action library and proves their contracts in Dafny.

- `CIs`: a type-membership check.
- `CIsNumeric`: a numeric check.
- `ICast`: the cast template.
- `CParseLiteral`: the literal parse step.

Every action receives an ordered list of argument terms. It reads that list
through its depth-first flattening. It then either gives a fuzzy verdict
(`success()` or `fail()`), or appends results to a return list owned by the
caller, or raises an exception.

Modules:

- `Wrappers`: `Option`.
- `Terms`: the term model. A term wraps one runtime value (`raw()`). `Flatten`
  expands every term whose value is a list of terms. `AllMatch` models Java's
  `Stream.allMatch`.
- `Actions`: what every action shares.
  - `Verdict` holds the two canonical fuzzy values.
  - `Error` holds the exceptions that can leave `execute`. `IllegalArgument`
    is the library's own `CExecutionIllegealArgumentException`. The others are
    the Java runtime exceptions that the code lets escape.
  - `Outcome` and `Call` describe what a call gives back.
  - The class `ReturnList` is the caller's mutable `List<ITerm>`.
- `IsType` (`CIs`): a total function. It also covers the error paths the Java
  code actually takes:
  - an empty flattened list is the `IndexOutOfBoundsException` of `get(0)`;
  - a null first value is the `NullPointerException` of `Class.forName(null)`;
  - any other non-string first value is the `ClassCastException` of the
    unchecked `raw()`;
  - an unknown name is the `IllegalArgument`.

  The reflective type lookup is a registry that maps a type name to a
  membership predicate.
- `IsNumeric` (`CIsNumeric`): a total function.
- `Cast` (`ICast`): the method `Execute` walks the flattened elements with a
  loop. Each element goes to a per-subtype `cast`, modelled as a function from
  a term to the pair (accepted, terms appended). The loop appends to the
  caller's `ReturnList` in place and stops at the first refusal. The method is
  proved against the specification functions `FirstFailure`, `CallCount`,
  `Appended` and `CastOutcome`, and the lemmas state the fail-fast and
  no-rollback properties about those functions.
- `ParseLiteral` (`CParseLiteral`): `Parse` turns the grammar's answer into the
  `(Boolean, ITerm)` entry; an `Exception` from the grammar is `None`. The enclosing parse
  action is the cast walk driven by `Step`, which parses each argument.

The minimal argument number of 2 does not guarantee a value to test. The
arity is checked on the argument list as given, before flattening. So
`[name, []]` is accepted, its flattened tail is empty, and the verdict is
success (`IsType.VacuousTail`).

## Model

| member | source | states |
|---|---|---|
| `Terms.Flatten` | src/main/java/org/lightjason/agentspeak/action/generic/CIs.java:82 | the flattened argument list contains no nested list term |
| `Terms.FlattenOfFlat` | src/main/java/org/lightjason/agentspeak/action/generic/CIsNumeric.java:78 | flattening a list without nested lists gives the same list back |
| `Terms.AllMatch` | src/main/java/org/lightjason/agentspeak/action/generic/CIsNumeric.java:78-80 | the in-order, short-circuiting scan is true exactly when the predicate holds of every value (vacuously true on no values) |
| `Actions.VerdictOf` | src/main/java/org/lightjason/agentspeak/action/generic/CIs.java:93-98 | the verdict stream holds exactly one value, and that value is success exactly when the condition holds |
| `Actions.ReturnList.AddAll` | src/main/java/org/lightjason/agentspeak/action/generic/ICast.java:79 | an append keeps every earlier entry in place and adds the new terms at the end |
| `IsType.Execute` | src/main/java/org/lightjason/agentspeak/action/generic/CIs.java:78-99 | the return list is unchanged. An empty flattened list raises IndexOutOfBounds. A null first value raises NullPointer. Any other non-string first value raises ClassCast. An unregistered name raises IllegalArgument naming that type. A registered name gives success exactly when every later flattened value is an instance of the type, and fail exactly when some later value is not |
| `IsType.MinimalArityTestsAValue` | src/main/java/org/lightjason/agentspeak/action/generic/CIs.java:71-74 | with at least 2 plain arguments, the flattened list starts with the first argument and has at least one value to test |
| `IsType.VacuousTail` | src/main/java/org/lightjason/agentspeak/action/generic/CIs.java:93-97 | a name followed by an empty nested list meets the arity of 2, and the vacuous all-match then gives success |
| `IsType.TypeNameFromFlattenedList` | src/main/java/org/lightjason/agentspeak/action/generic/CIs.java:82-86 | the type name is the first element of the flattened list, even when the raw first argument is a list |
| `IsType.UnknownTypeIsIllegal` | src/main/java/org/lightjason/agentspeak/action/generic/CIs.java:84-91 | an unresolvable type name raises the illegal-argument error and gives no verdict |
| `IsType.StringAmongNumbersFails` | src/test/java/org/lightjason/agentspeak/action/generic/TestCActionGeneric.java:309-316 | `java.lang.String` with "text foo", 123 and 88.98 gives fail |
| `IsType.NumbersAreNumbers` | src/test/java/org/lightjason/agentspeak/action/generic/TestCActionGeneric.java:318-325 | `java.lang.Number` with 123 and 44.5 gives success |
| `IsNumeric.Execute` | src/main/java/org/lightjason/agentspeak/action/generic/CIsNumeric.java:74-83 | the return list is unchanged. The verdict is success exactly when every flattened value is a number, and fail exactly when some flattened value is not |
| `IsNumeric.VerdictIgnoresOrder` | src/main/java/org/lightjason/agentspeak/action/generic/CIsNumeric.java:78-80 | two argument lists whose flattened values form the same multiset give the same call result |
| `IsNumeric.MinimalArityTestsAValue` | src/main/java/org/lightjason/agentspeak/action/generic/CIsNumeric.java:67-70 | with at least 1 plain argument, the first argument is among the tested values |
| `IsNumeric.StringAmongNumbersFails` | src/test/java/org/lightjason/agentspeak/action/generic/TestCActionGeneric.java:361-368 | one string among integer, long, double and float values gives fail |
| `IsNumeric.OnlyNumbersSucceed` | src/test/java/org/lightjason/agentspeak/action/generic/TestCActionGeneric.java:370-377 | integer, long, double and float values give success |
| `Cast.FirstFailure` | src/main/java/org/lightjason/agentspeak/action/generic/ICast.java:62 | finds the first element that `cast` refuses: `cast` refuses that element and accepts every earlier one. There is none exactly when `cast` accepts every element |
| `Cast.CallCount` | src/main/java/org/lightjason/agentspeak/action/generic/ICast.java:62 | `cast` is called on no more elements than there are |
| `Cast.AppendedStep` | src/main/java/org/lightjason/agentspeak/action/generic/ICast.java:62 | one more `cast` call adds its appended terms after those of the earlier calls |
| `Cast.Execute` | src/main/java/org/lightjason/agentspeak/action/generic/ICast.java:58-69 | `cast` is called on the flattened elements in order from index 0, up to and including the first refused one. The return list becomes its old contents followed by exactly the terms those calls appended. The outcome is the cannot-cast illegal-argument error if some element is refused, and the empty stream otherwise |
| `Cast.MinimalArityCallsCast` | src/main/java/org/lightjason/agentspeak/action/generic/ICast.java:49-54 | with at least 1 plain argument, `cast` is called, and called first on the first argument |
| `Cast.FailFast` | src/main/java/org/lightjason/agentspeak/action/generic/ICast.java:62-66 | if element k is the first refused one, the call raises the illegal-argument error and `cast` is called on elements 0..k only |
| `Cast.SucceedsIffAllCast` | src/main/java/org/lightjason/agentspeak/action/generic/ICast.java:62-68 | the outcome is the empty stream exactly when every element is cast; then every element was handed to `cast`. Any other outcome is the cannot-cast error |
| `Cast.OneResultPerElement` | src/test/java/org/lightjason/agentspeak/action/generic/TestCActionGeneric.java:437-446 | a cast that appends one term per accepted element leaves, after a successful walk, exactly one result per input, in input order |
| `Cast.AppendedPrefix` | src/main/java/org/lightjason/agentspeak/action/generic/ICast.java:62-68 | the results of a shorter walk are a prefix of those of a longer walk, so no entry is removed or reordered |
| `ParseLiteral.Parse` | src/main/java/org/lightjason/agentspeak/action/generic/CParseLiteral.java:69-79 | `parse` returns an entry whenever the grammar returns or throws an `Exception`. Its flag is true exactly when the grammar accepts. The term then wraps exactly the parsed literal, and otherwise wraps null. Reading the literal back from the term gives the grammar's answer |
| `ParseLiteral.AllParsed` | src/main/java/org/lightjason/agentspeak/action/generic/CParseLiteral.java:71-73 | when every flattened argument is a well-formed literal string, the action gives the empty stream and appends one wrapped literal per argument, in argument order |
| `ParseLiteral.MalformedRaises` | src/main/java/org/lightjason/agentspeak/action/generic/CParseLiteral.java:75-78 | the first malformed argument raises the illegal-argument error. Literals parsed before it stay appended, and nothing is appended for it |
| `ParseLiteral.OneLiteral` | src/test/java/org/lightjason/agentspeak/action/generic/TestCActionGeneric.java:209-224 | one well-formed literal string gives exactly one return entry, equal to the parsed literal |
| `ParseLiteral.RejectedLiteral` | src/test/java/org/lightjason/agentspeak/action/generic/TestCActionGeneric.java:231-241 | a string the grammar rejects raises the illegal-argument error and appends nothing |

## Left out

- `CCommon.flatten` is not part of this model. `Terms.Flatten` is a depth-first expansion of list-valued terms that stands in for it. Only its flatness and its identity on flat lists are proved.
- `CLiteral.parse`, the literal grammar, is not part of this model. It is a parameter: a function from a string to an optional literal, with `None` where it throws an `Exception`.
- Reflection (`Class.forName`, `isAssignableFrom`, `getClass`) is replaced by a registry from type names to membership predicates. Errors other than `ClassNotFoundException` (linkage and initialisation errors) are not modelled.
- IsType.Execute: does not model the `NullPointerException` that `i.getClass()` raises on a null value after the type name. The registry predicate is simply applied to the null value.
- `IParse.java` is not part of this model. `IParse.execute` is assumed to walk the arguments fail-fast without rollback, like `ICast`, so it is modelled as the cast walk driven by `ParseLiteral.Step`. That choice has three consequences:
  - a non-string argument counts as a refusal;
  - the error carries the cast template's cause rather than `IParse`'s own message;
  - no method of its own runs the parse action.
- An `Error` (such as a `StackOverflowError`) thrown by the grammar is not caught by `parse`, and any exception thrown by a subtype's `cast` is not caught by `ICast.execute`: both propagate out of `execute`, leaving earlier appends in place. Neither is modelled: the grammar and `cast` are total functions here.
- Cast.Execute: `cast` is a function of the term alone that can only append. A subtype that reads, removes or reorders return-list entries, or whose result depends on earlier appends, is outside the model.
- Fuzzy magnitudes, the context's membership function and its t-norm are out. `success()` and `fail()` are the two abstract values of `Verdict`, and the lazy stream is a finite sequence.
- Numbers keep their class (`Integer`, `Long`, `Float`, `Double`, or `OtherNumber` for every other `Number` subclass) and a real magnitude. Floating-point rounding and the distinctions between the other subclasses are not modelled.
- The execution context, the `p_parallel` flag and concurrency are out. So are action names (`namebyclass`, `IPath`) and serial ids.
- The localised error text (`languagestring`) is out. The cannot-cast error is the cause `CannotCast`.
- The other actions are out: `CPrint` and its formatter registry (output-stream I/O), `CThrow`, `CUuid`, `CType`, `CToNumber`, `CParseNumber` and the rest. Their sources are not part of this model.
