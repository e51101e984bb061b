/** The action `generic/isnumeric` (class `CIsNumeric`): success when every
    flattened argument is a number, fail otherwise. */
module IsNumeric {
  import opened Terms
  import opened Actions

  /** The dispatcher calls the action with at least one argument. */
  const MinimalArgumentNumber: nat := 1

  /** `instanceof Number`. */
  predicate IsNumber(v: Value)
  {
    v.Num?
  }

  /** `CIsNumeric.execute`. The return list is handed back untouched. */
  function Execute(arguments: seq<Term>, ret: seq<Term>): (c: Call)
    ensures c.returned == ret
    ensures c.outcome == Returned([Success]) <==>
      forall t :: t in Flatten(arguments) ==> IsNumber(t.raw)
    ensures c.outcome == Returned([Fail]) <==>
      exists t :: t in Flatten(arguments) && !IsNumber(t.raw)
  {
    var raws := Raws(Flatten(arguments));
    Call(Returned(VerdictOf(AllMatch(raws, IsNumber))), ret)
  }

  /** The verdict depends only on the multiset of flattened values: any
      reordering of them, however the arguments nest, gives the same result. */
  lemma {:induction false} VerdictIgnoresOrder(a: seq<Term>, b: seq<Term>, ret: seq<Term>)
    requires multiset(Raws(Flatten(a))) == multiset(Raws(Flatten(b)))
    ensures Execute(a, ret) == Execute(b, ret)
  {
    var ra, rb := Raws(Flatten(a)), Raws(Flatten(b));
    var fa, fb := Flatten(a), Flatten(b);
    assert (forall t :: t in fa ==> IsNumber(t.raw)) <==> (forall t :: t in fb ==> IsNumber(t.raw)) by {
      forall t | t in fa && !IsNumber(t.raw) ensures exists u :: u in fb && !IsNumber(u.raw) {
        var i :| 0 <= i < |fa| && fa[i] == t;
        assert ra[i] in multiset(ra);
        var j :| 0 <= j < |rb| && rb[j] == ra[i];
        assert fb[j] in fb;
      }
      forall t | t in fb && !IsNumber(t.raw) ensures exists u :: u in fa && !IsNumber(u.raw) {
        var j :| 0 <= j < |fb| && fb[j] == t;
        assert rb[j] in multiset(rb);
        var i :| 0 <= i < |ra| && ra[i] == rb[j];
        assert fa[i] in fa;
      }
    }
  }

  /** One string among numbers of every boxed kind gives fail. */
  lemma StringAmongNumbersFails()
    ensures Execute([
      RawTerm(Str("test type string")), RawTerm(Num(Integer, 123 as real)),
      RawTerm(Num(Long, 77 as real)), RawTerm(Num(Double, 112.123)),
      RawTerm(Num(Float, 44.5))], []).outcome == Returned([Fail])
  {
    var arguments := [
      RawTerm(Str("test type string")), RawTerm(Num(Integer, 123 as real)),
      RawTerm(Num(Long, 77 as real)), RawTerm(Num(Double, 112.123)),
      RawTerm(Num(Float, 44.5))];
    FlattenOfFlat(arguments);
    assert arguments[0] in Flatten(arguments);
  }

  /** Numbers of every boxed kind give success. */
  lemma OnlyNumbersSucceed()
    ensures Execute([
      RawTerm(Num(Integer, 123 as real)), RawTerm(Num(Long, 77 as real)),
      RawTerm(Num(Double, 112.123)), RawTerm(Num(Float, 44.5))], []).outcome
      == Returned([Success])
  {
    var arguments := [
      RawTerm(Num(Integer, 123 as real)), RawTerm(Num(Long, 77 as real)),
      RawTerm(Num(Double, 112.123)), RawTerm(Num(Float, 44.5))];
    FlattenOfFlat(arguments);
  }

  /** With the minimal number of plain arguments at least one value is tested. */
  lemma MinimalArityTestsAValue(arguments: seq<Term>)
    requires |arguments| >= MinimalArgumentNumber
    requires IsFlat(arguments)
    ensures arguments[0] in Flatten(arguments)
  {
    FlattenOfFlat(arguments);
  }
}
