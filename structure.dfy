/** The dynamically typed values the label-vector functions receive, and the
    shape check `_is_structured_label_vector`. */
module Structure {

  /** A Python value as far as the validator and the parser can tell apart:
      a string, an `int` (a `bool` is one too), a finite `float`, a `list`
      or `tuple`, or anything else (None, a dict, ...). */
  datatype Value =
    | Str(s: string)
    | Int(i: int)
    | Float(x: real)
    | Seq(items: seq<Value>)
    | Other

  /** `isinstance(v, (int, float))` */
  predicate IsNumber(v: Value) {
    v.Int? || v.Float?
  }

  /** A `(label, power)` pair: a list or tuple of length 2 whose last item is a number. */
  predicate IsPair(v: Value) {
    v.Seq? && |v.items| == 2 && IsNumber(v.items[1])
  }

  /** The inner loop of the validator: every factor of one term is a pair. */
  function FactorsArePairs(factors: seq<Value>): (b: bool)
    ensures b <==> forall j | 0 <= j < |factors| :: IsPair(factors[j])
  {
    if |factors| == 0 then true
    else if !IsPair(factors[0]) then false
    else
      var rest := FactorsArePairs(factors[1..]);
      assert forall j | 1 <= j < |factors| :: factors[j] == factors[1..][j - 1];
      rest
  }

  /** Every term is a list or tuple whose factors are all pairs. */
  predicate WellShaped(terms: seq<Value>) {
    forall i | 0 <= i < |terms| :: terms[i].Seq? && forall j | 0 <= j < |terms[i].items| :: IsPair(terms[i].items[j])
  }

  /** The outer loop of the validator, returning false at the first term
      that is not a list or tuple of pairs. */
  function TermsArePairLists(terms: seq<Value>): (b: bool)
    ensures b <==> WellShaped(terms)
  {
    if |terms| == 0 then true
    else if !terms[0].Seq? || !FactorsArePairs(terms[0].items) then false
    else
      var rest := TermsArePairLists(terms[1..]);
      assert forall i | 1 <= i < |terms| :: terms[i] == terms[1..][i - 1];
      rest
  }

  /** `sum(map(len, terms))` */
  function TotalLength(terms: seq<Value>): nat
    requires forall i | 0 <= i < |terms| :: terms[i].Seq?
  {
    if |terms| == 0 then 0 else |terms[0].items| + TotalLength(terms[1..])
  }

  /** `_is_structured_label_vector`: a list or tuple of terms, each a list or
      tuple of `(label, number)` pairs, with at least one term and at least
      one factor in all. Defined for every value; it never fails. */
  predicate IsStructuredLabelVector(v: Value) {
    v.Seq? && TermsArePairLists(v.items) && |v.items| > 0 && TotalLength(v.items) > 0
  }

  /** Some term has a factor. */
  predicate SomeFactor(terms: seq<Value>)
    requires forall i | 0 <= i < |terms| :: terms[i].Seq?
  {
    exists i | 0 <= i < |terms| :: |terms[i].items| > 0
  }

  lemma {:induction false} TotalLengthPositive(terms: seq<Value>)
    requires forall i | 0 <= i < |terms| :: terms[i].Seq?
    ensures TotalLength(terms) > 0 <==> SomeFactor(terms)
    decreases |terms|
  {
    if |terms| > 0 {
      TotalLengthPositive(terms[1..]);
      assert forall i | 1 <= i < |terms| :: terms[i] == terms[1..][i - 1];
      if SomeFactor(terms[1..]) {
        var i :| 0 <= i < |terms[1..]| && |terms[1..][i].items| > 0;
        assert |terms[i + 1].items| > 0;
      }
    }
  }

  /** The validator accepts exactly the lists of pair lists that hold at
      least one factor; it rejects a non-sequence, a term that is not a
      sequence, a factor that is not a 2-sequence ending in a number, and a
      vector with no factor at all. */
  lemma StructuredIff(v: Value)
    ensures IsStructuredLabelVector(v) <==> v.Seq? && WellShaped(v.items) && SomeFactor(v.items)
  {
    if v.Seq? && WellShaped(v.items) {
      TotalLengthPositive(v.items);
    }
  }
}
