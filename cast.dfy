/** The cast template `ICast`: every flattened argument is handed, in order,
    to the per-subtype `cast(term, return)`, which appends its results to
    the caller's return list; the first refusal stops the walk and raises an
    illegal-argument error, leaving every append made so far in place. */
module Cast {
  import opened Wrappers
  import opened Terms
  import opened Actions

  /** Fixed by the template for every cast action. */
  const MinimalArgumentNumber: nat := 1

  /** What one call of the subtype's `cast(term, return)` does: whether it
      succeeded, and the terms it appended to the return list. */
  datatype CastStep = CastStep(ok: bool, appended: seq<Term>)

  /** The subtype's `cast`, as a function of the term it is given. */
  type Caster = Term -> CastStep

  /** The index of the first element `cast` refuses, if there is one. */
  function FirstFailure(elems: seq<Term>, cast: Caster): (r: Option<nat>)
    ensures r.Some? ==> r.value < |elems| && !cast(elems[r.value]).ok
    ensures r.Some? ==> forall j :: 0 <= j < r.value ==> cast(elems[j]).ok
    ensures r.None? <==> forall j :: 0 <= j < |elems| ==> cast(elems[j]).ok
  {
    if elems == [] then None
    else if !cast(elems[0]).ok then Some(0)
    else
      match FirstFailure(elems[1..], cast)
      case None => None
      case Some(k) => Some(k + 1)
  }

  /** How many elements `cast` is called on: up to and including the first
      refused one, or all of them. */
  function CallCount(elems: seq<Term>, cast: Caster): (n: nat)
    ensures n <= |elems|
  {
    match FirstFailure(elems, cast)
    case Some(k) => k + 1
    case None => |elems|
  }

  /** The terms the `cast` calls on `elems` append, one call after another. */
  function Appended(elems: seq<Term>, cast: Caster): (r: seq<Term>)
  {
    if elems == [] then []
    else Appended(elems[..|elems| - 1], cast) + cast(elems[|elems| - 1]).appended
  }

  /** What `execute` returns or raises: the empty stream when every element
      was cast, the `cannotcast` illegal-argument error otherwise. */
  function CastOutcome(elems: seq<Term>, cast: Caster): (r: Outcome)
  {
    if FirstFailure(elems, cast).Some? then Raised(IllegalArgument(CannotCast))
    else Returned([])
  }

  /** One more `cast` call adds its appended terms after those of the
      earlier calls. */
  lemma AppendedStep(elems: seq<Term>, cast: Caster, i: nat)
    requires i < |elems|
    ensures Appended(elems[..i + 1], cast) == Appended(elems[..i], cast) + cast(elems[i]).appended
  {
    assert elems[..i + 1][..i] == elems[..i];
  }

  /** `ICast.execute`. `called` records the terms handed to `cast`, in order. */
  method Execute(arguments: seq<Term>, cast: Caster, ret: ReturnList)
    returns (outcome: Outcome, ghost called: seq<Term>)
    modifies ret
    ensures var elems := Flatten(arguments);
      called == elems[..CallCount(elems, cast)] &&
      ret.items == old(ret.items) + Appended(called, cast) &&
      outcome == CastOutcome(elems, cast)
  {
    var elems := Flatten(arguments);
    var i := 0;
    called := [];
    while i < |elems|
      invariant 0 <= i <= |elems|
      invariant called == elems[..i]
      invariant forall j :: 0 <= j < i ==> cast(elems[j]).ok
      invariant ret.items == old(ret.items) + Appended(elems[..i], cast)
    {
      var step := cast(elems[i]);
      called := called + [elems[i]];
      assert called == elems[..i + 1];
      ret.AddAll(step.appended);
      AppendedStep(elems, cast, i);
      assert ret.items == old(ret.items) + Appended(elems[..i + 1], cast);
      if !step.ok {
        FailFast(elems, cast, i);
        outcome := Raised(IllegalArgument(CannotCast));
        return;
      }
      i := i + 1;
    }
    assert elems[..i] == elems;
    SucceedsIffAllCast(elems, cast);
    outcome := Returned([]);
  }

  /** With the minimal number of plain (non-list) arguments `cast` is
      called at least once, on the first argument. */
  lemma MinimalArityCallsCast(arguments: seq<Term>, cast: Caster)
    requires |arguments| >= MinimalArgumentNumber
    requires IsFlat(arguments)
    ensures CallCount(Flatten(arguments), cast) >= 1
    ensures Flatten(arguments)[..CallCount(Flatten(arguments), cast)][0] == arguments[0]
  {
    FlattenOfFlat(arguments);
  }

  /** Fail fast: when element `k` is the first that `cast` refuses, the
      action raises the illegal-argument error and `cast` has been called on
      elements `0..k` and on no later one. */
  lemma FailFast(elems: seq<Term>, cast: Caster, k: nat)
    requires k < |elems| && !cast(elems[k]).ok
    requires forall j :: 0 <= j < k ==> cast(elems[j]).ok
    ensures CastOutcome(elems, cast) == Raised(IllegalArgument(CannotCast))
    ensures CallCount(elems, cast) == k + 1
  {
    var r := FirstFailure(elems, cast);
    assert r.Some?;
    assert !(r.value < k);
    assert !(k < r.value);
  }

  /** The action returns the empty stream exactly when every element is
      cast, and then `cast` has been called on all of them. */
  lemma SucceedsIffAllCast(elems: seq<Term>, cast: Caster)
    ensures CastOutcome(elems, cast) == Returned([]) <==>
      forall j :: 0 <= j < |elems| ==> cast(elems[j]).ok
    ensures CastOutcome(elems, cast) == Returned([]) ==> CallCount(elems, cast) == |elems|
    ensures CastOutcome(elems, cast) != Returned([]) ==>
      CastOutcome(elems, cast) == Raised(IllegalArgument(CannotCast))
  {
  }

  /** A cast that appends one term per element it accepts leaves, after a
      successful walk, exactly one result per element, in element order. */
  lemma {:induction false} OneResultPerElement(elems: seq<Term>, cast: Caster)
    requires forall j :: 0 <= j < |elems| ==> cast(elems[j]).ok && |cast(elems[j]).appended| == 1
    ensures |Appended(elems, cast)| == |elems|
    ensures forall j :: 0 <= j < |elems| ==> Appended(elems, cast)[j] == cast(elems[j]).appended[0]
  {
    if elems != [] {
      var init := elems[..|elems| - 1];
      assert forall j :: 0 <= j < |init| ==> init[j] == elems[j];
      OneResultPerElement(init, cast);
    }
  }

  /** Appends accumulate: the results of a longer walk extend those of a
      shorter one, so no entry is ever removed or reordered. */
  lemma {:induction false} AppendedPrefix(elems: seq<Term>, cast: Caster, k: nat)
    requires k <= |elems|
    ensures Appended(elems[..k], cast) <= Appended(elems, cast)
    decreases |elems|
  {
    if k < |elems| {
      var init := elems[..|elems| - 1];
      assert init[..k] == elems[..k];
      AppendedPrefix(init, cast, k);
    } else {
      assert elems[..k] == elems;
    }
  }
}
