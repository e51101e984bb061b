/** The term model of the agent language as the generic actions see it:
    a term wraps one opaque runtime value (`CRawTerm.of`), `raw()` gives that
    value back, and an argument list is read through its depth-first
    flattening (`CCommon.flatten`), which expands every term whose value is
    itself a list of terms. */
module Terms {

  /** The class of a `java.lang.Number` value: the four boxed classes the
      agent language produces, and every other subclass of `Number`
      (`Short`, `Byte`, `BigInteger`, `BigDecimal`, `AtomicLong`, ...). */
  datatype NumberKind = Integer | Long | Float | Double | OtherNumber

  /** A structured literal `functor(value, ...)` as built by the literal grammar. */
  datatype Literal = Literal(functor: string, values: seq<Term>)

  /** The runtime value a term wraps. */
  datatype Value =
    | Str(s: string)
    | Num(kind: NumberKind, magnitude: real)
    | Bool(b: bool)
    | Lit(literal: Literal)
    | List(items: seq<Term>)
    | Null
    | Object(id: nat)   // any other Java object that is not a Number, identified by an opaque id

  /** A term; `raw` is `ITerm.raw()`. */
  datatype Term = RawTerm(raw: Value)

  /** No element of `ts` is itself a nested list. */
  predicate IsFlat(ts: seq<Term>)
  {
    forall i :: 0 <= i < |ts| ==> !ts[i].raw.List?
  }

  /** The depth-first, order-preserving expansion of one term. */
  function FlattenTerm(t: Term): (r: seq<Term>)
    ensures IsFlat(r)
    decreases t, 1
  {
    if t.raw.List? then Flatten(t.raw.items) else [t]
  }

  /** The depth-first, order-preserving expansion of an argument list. */
  function Flatten(ts: seq<Term>): (r: seq<Term>)
    ensures IsFlat(r)
    decreases ts, 0
  {
    if ts == [] then []
    else
      var head := FlattenTerm(ts[0]);
      var tail := Flatten(ts[1..]);
      assert forall i :: 0 <= i < |head + tail| ==>
        (head + tail)[i] == if i < |head| then head[i] else tail[i - |head|];
      head + tail
  }

  /** Flattening an already flat list changes nothing. */
  lemma {:induction false} FlattenOfFlat(ts: seq<Term>)
    requires IsFlat(ts)
    ensures Flatten(ts) == ts
  {
    if ts != [] {
      assert IsFlat(ts[1..]) by {
        forall i | 0 <= i < |ts[1..]| ensures !ts[1..][i].raw.List? {
          assert ts[1..][i] == ts[i + 1];
        }
      }
      FlattenOfFlat(ts[1..]);
      assert ts == [ts[0]] + ts[1..];
    }
  }

  /** `map(ITerm::raw)` over a list of terms. */
  function Raws(ts: seq<Term>): (r: seq<Value>)
    ensures |r| == |ts|
    ensures forall i :: 0 <= i < |ts| ==> r[i] == ts[i].raw
  {
    seq(|ts|, i requires 0 <= i < |ts| => ts[i].raw)
  }

  /** `Stream.allMatch`: the values are scanned in order and the scan stops
      at the first value the predicate rejects. */
  function AllMatch(vs: seq<Value>, p: Value -> bool): (r: bool)
    ensures r <==> forall i :: 0 <= i < |vs| ==> p(vs[i])
  {
    if vs == [] then true
    else if !p(vs[0]) then false
    else AllMatch(vs[1..], p)
  }
}
