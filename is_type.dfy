/** The action `generic/type/is` (class `CIs`): the first flattened argument
    names a type, and the verdict says whether every further flattened
    argument is an instance of it. */
module IsType {
  import opened Terms
  import opened Actions

  /** The dispatcher calls the action with at least a type name and one value. */
  const MinimalArgumentNumber: nat := 2

  /** The runtime's type registry: a fully qualified type name to the test
      whether a value is an instance of that type. It stands in for
      `Class.forName` (a missing key is a `ClassNotFoundException`) and
      `isAssignableFrom(getClass())`. */
  type Registry = map<string, Value -> bool>

  /** The type name the flattened arguments start with, if they start with one. */
  predicate NamesType(l: seq<Term>)
  {
    l != [] && l[0].raw.Str?
  }

  /** `CIs.execute`. The return list is handed back untouched. */
  function Execute(registry: Registry, arguments: seq<Term>, ret: seq<Term>): (c: Call)
    ensures c.returned == ret
    ensures var l := Flatten(arguments);
      c.outcome == Raised(IndexOutOfBounds) <==> l == []
    ensures var l := Flatten(arguments);
      c.outcome == Raised(NullPointer) <==> l != [] && l[0].raw.Null?
    ensures var l := Flatten(arguments);
      c.outcome == Raised(ClassCast) <==> l != [] && !l[0].raw.Str? && !l[0].raw.Null?
    ensures var l := Flatten(arguments);
      c.outcome.Raised? && c.outcome.error.IllegalArgument? <==>
        NamesType(l) && l[0].raw.s !in registry
    ensures var l := Flatten(arguments);
      c.outcome.Raised? && c.outcome.error.IllegalArgument? ==>
        c.outcome.error.cause == TypeNotFound(l[0].raw.s)
    ensures var l := Flatten(arguments);
      c.outcome == Returned([Success]) <==>
        NamesType(l) && l[0].raw.s in registry &&
        forall i :: 1 <= i < |l| ==> registry[l[0].raw.s](l[i].raw)
    ensures var l := Flatten(arguments);
      c.outcome == Returned([Fail]) <==>
        NamesType(l) && l[0].raw.s in registry &&
        exists i :: 1 <= i < |l| && !registry[l[0].raw.s](l[i].raw)
  {
    var l := Flatten(arguments);
    if l == [] then Call(Raised(IndexOutOfBounds), ret)
    else if l[0].raw.Null? then Call(Raised(NullPointer), ret)
    else if !l[0].raw.Str? then Call(Raised(ClassCast), ret)
    else if l[0].raw.s !in registry then Call(Raised(IllegalArgument(TypeNotFound(l[0].raw.s))), ret)
    else
      var member := registry[l[0].raw.s];
      var tested := Raws(l[1..]);
      assert forall i :: 1 <= i < |l| ==> l[i].raw == tested[i - 1];
      Call(Returned(VerdictOf(AllMatch(tested, member))), ret)
  }

  /** With the minimal number of plain (non-list) arguments there is a type
      name and at least one value to test. */
  lemma MinimalArityTestsAValue(arguments: seq<Term>)
    requires |arguments| >= MinimalArgumentNumber
    requires IsFlat(arguments)
    ensures |Flatten(arguments)| >= 2
    ensures Flatten(arguments)[0] == arguments[0]
  {
    FlattenOfFlat(arguments);
  }

  /** The arity check does not guarantee a value to test: a nested empty
      list satisfies it, the flattened tail is empty, and the vacuous
      all-match gives success. */
  lemma VacuousTail(registry: Registry, name: string, ret: seq<Term>)
    requires name in registry
    ensures var arguments := [RawTerm(Str(name)), RawTerm(List([]))];
      |arguments| >= MinimalArgumentNumber &&
      Execute(registry, arguments, ret).outcome == Returned([Success])
  {
    var arguments := [RawTerm(Str(name)), RawTerm(List([]))];
    assert Flatten(arguments[1..]) == [] by {
      assert arguments[1..] == [RawTerm(List([]))];
      assert arguments[1..][1..] == [];
    }
    assert Flatten(arguments) == [RawTerm(Str(name))];
  }

  /** A registry with the `java.lang` types the action is used with. */
  function JavaLang(): (registry: Registry)
    ensures "java.lang.String" in registry && "java.lang.Number" in registry
  {
    map[
      "java.lang.String" := (v: Value) => v.Str?,
      "java.lang.Number" := (v: Value) => v.Num?,
      "java.lang.Boolean" := (v: Value) => v.Bool?
    ]
  }

  /** A string among numbers is not a `java.lang.String` for every value. */
  lemma StringAmongNumbersFails()
    ensures Execute(JavaLang(), [
      RawTerm(Str("java.lang.String")), RawTerm(Str("text foo")),
      RawTerm(Num(Integer, 123 as real)), RawTerm(Num(Double, 88.98))], []).outcome
      == Returned([Fail])
  {
    var arguments := [
      RawTerm(Str("java.lang.String")), RawTerm(Str("text foo")),
      RawTerm(Num(Integer, 123 as real)), RawTerm(Num(Double, 88.98))];
    FlattenOfFlat(arguments);
    assert !JavaLang()["java.lang.String"](arguments[2].raw);
  }

  /** An integer and a double are both `java.lang.Number`s. */
  lemma NumbersAreNumbers()
    ensures Execute(JavaLang(), [
      RawTerm(Str("java.lang.Number")),
      RawTerm(Num(Integer, 123 as real)), RawTerm(Num(Double, 44.5))], []).outcome
      == Returned([Success])
  {
    var arguments := [
      RawTerm(Str("java.lang.Number")),
      RawTerm(Num(Integer, 123 as real)), RawTerm(Num(Double, 44.5))];
    FlattenOfFlat(arguments);
  }

  /** The type name is the first element of the flattened arguments: here
      the first argument is a list, yet its first element names the type. */
  lemma TypeNameFromFlattenedList()
    ensures Execute(JavaLang(), [
      RawTerm(List([RawTerm(Str("java.lang.Number"))])),
      RawTerm(Num(Long, 7 as real))], []).outcome == Returned([Success])
  {
    var inner := [RawTerm(Str("java.lang.Number"))];
    var arguments := [RawTerm(List(inner)), RawTerm(Num(Long, 7 as real))];
    FlattenOfFlat(inner);
    assert arguments[1..][1..] == [];
    assert Flatten(arguments[1..]) == [arguments[1]];
    assert Flatten(arguments) == inner + [arguments[1]];
  }

  /** An unknown type name is an illegal argument naming it. */
  lemma UnknownTypeIsIllegal(value: Term)
    ensures Execute(JavaLang(), [RawTerm(Str("java.lang.Nothing")), value], []).outcome
      == Raised(IllegalArgument(TypeNotFound("java.lang.Nothing")))
  {
    var arguments := [RawTerm(Str("java.lang.Nothing")), value];
    assert FlattenTerm(arguments[0]) == [arguments[0]];
    assert Flatten(arguments)[0] == arguments[0];
  }
}
