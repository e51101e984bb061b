/** The action `generic/parseliteral` (class `CParseLiteral`). Its `parse`
    wraps the literal grammar so that it never throws: a parsed literal
    comes back as `(true, term)`, any exception as `(false, null term)`.
    The enclosing action walks the flattened arguments with the same
    fail-fast, no-rollback shape as the cast template, appending one parsed
    literal per argument. */
module ParseLiteral {
  import opened Wrappers
  import opened Terms
  import opened Actions
  import Cast

  /** The literal grammar `CLiteral.parse`: the literal it builds from a
      string, or `None` where it throws. */
  type Grammar = string -> Option<Literal>

  /** The immutable `(Boolean, ITerm)` entry `parse` returns. */
  datatype Parsed = Parsed(ok: bool, term: Term)

  /** `CParseLiteral.parse`. It answers every string: its flag says whether
      the grammar accepted the input, its term wraps exactly the parsed
      literal then and the null value otherwise, so reading the literal back
      out of the term gives the grammar's own answer. */
  function Parse(grammar: Grammar, s: string): (p: Parsed)
    ensures p.ok <==> grammar(s).Some?
    ensures p.ok ==> p.term == RawTerm(Lit(grammar(s).value))
    ensures !p.ok ==> p.term.raw == Null
    ensures LiteralOf(p.term) == grammar(s)
  {
    match grammar(s)
    case Some(l) => Parsed(true, RawTerm(Lit(l)))
    case None => Parsed(false, RawTerm(Null))
  }

  /** The literal a term wraps, if it wraps one. */
  function LiteralOf(t: Term): (r: Option<Literal>)
  {
    if t.raw.Lit? then Some(t.raw.literal) else None
  }

  /** The per-argument step of the enclosing action: a string argument is
      parsed and, when the grammar accepts it, its literal is appended. */
  function Step(grammar: Grammar): (cast: Cast.Caster)
  {
    (t: Term) =>
      if t.raw.Str? then
        var p := Parse(grammar, t.raw.s);
        Cast.CastStep(p.ok, if p.ok then [p.term] else [])
      else Cast.CastStep(false, [])
  }

  /** The argument is a string the grammar accepts. */
  predicate WellFormed(grammar: Grammar, t: Term)
  {
    t.raw.Str? && grammar(t.raw.s).Some?
  }

  /** When every flattened argument is a well-formed literal string, the
      action succeeds with the empty stream and appends one wrapped literal
      per argument, in argument order. */
  lemma AllParsed(grammar: Grammar, elems: seq<Term>)
    requires forall j :: 0 <= j < |elems| ==> WellFormed(grammar, elems[j])
    ensures Cast.CastOutcome(elems, Step(grammar)) == Returned([])
    ensures Cast.CallCount(elems, Step(grammar)) == |elems|
    ensures |Cast.Appended(elems, Step(grammar))| == |elems|
    ensures forall j :: 0 <= j < |elems| ==>
      Cast.Appended(elems, Step(grammar))[j] == RawTerm(Lit(grammar(elems[j].raw.s).value))
  {
    Cast.SucceedsIffAllCast(elems, Step(grammar));
    Cast.OneResultPerElement(elems, Step(grammar));
  }

  /** A malformed argument after well-formed ones stops the action with an
      illegal-argument error; the literals parsed before it stay appended and
      nothing is appended for it. */
  lemma MalformedRaises(grammar: Grammar, elems: seq<Term>, k: nat)
    requires k < |elems| && !WellFormed(grammar, elems[k])
    requires forall j :: 0 <= j < k ==> WellFormed(grammar, elems[j])
    ensures Cast.CastOutcome(elems, Step(grammar)) == Raised(IllegalArgument(CannotCast))
    ensures Cast.CallCount(elems, Step(grammar)) == k + 1
    ensures Cast.Appended(elems[..k + 1], Step(grammar)) == Cast.Appended(elems[..k], Step(grammar))
  {
    Cast.FailFast(elems, Step(grammar), k);
    assert elems[..k + 1][..k] == elems[..k];
  }

  /** One well-formed literal string gives exactly one return entry, the
      parsed literal. */
  lemma OneLiteral(grammar: Grammar, s: string, l: Literal)
    requires grammar(s) == Some(l)
    ensures var elems := Flatten([RawTerm(Str(s))]);
      Cast.CastOutcome(elems, Step(grammar)) == Returned([]) &&
      Cast.Appended(elems[..Cast.CallCount(elems, Step(grammar))], Step(grammar)) == [RawTerm(Lit(l))]
  {
    var elems := [RawTerm(Str(s))];
    FlattenOfFlat(elems);
    AllParsed(grammar, elems);
    assert elems[..1] == elems;
  }

  /** A string the grammar rejects raises the illegal-argument error and
      leaves the return list as it was. */
  lemma RejectedLiteral(grammar: Grammar, s: string)
    requires grammar(s) == None
    ensures var elems := Flatten([RawTerm(Str(s))]);
      Cast.CastOutcome(elems, Step(grammar)) == Raised(IllegalArgument(CannotCast)) &&
      Cast.Appended(elems[..Cast.CallCount(elems, Step(grammar))], Step(grammar)) == []
  {
    var elems := [RawTerm(Str(s))];
    FlattenOfFlat(elems);
    MalformedRaises(grammar, elems, 0);
  }
}
