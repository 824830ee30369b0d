/** `parse_label_vector_description`: a description string, or a list of
    per-term strings, becomes a structured label vector: a list of terms,
    each a list of `(label, power)` pairs. */
module Parser {
  import opened Wrappers
  import opened Text
  import opened Structure
  import opened Terms

  /** The ways a parse can fail. */
  datatype ParseError =
    | NotText                        // neither a string nor a list of strings (AttributeError, TypeError)
    | EmptySeparator                 // an operator given as "" (`str.split` raises ValueError)
    | UnknownLabel(token: string)    // `list(columns).index(token)` raises ValueError
    | BadPower(text: string)         // `float(text)` raises ValueError
    | NonFinitePower                 // "non-finite power provided"
    | NoValidTerms                   // "no valid terms provided"

  /** One factor of a parsed term: a label and its summed, non-zero power. */
  datatype Factor = Factor(key: Label, power: int)

  type Term = seq<Factor>

  /** `list(columns).index(token)` */
  function IndexOf(columns: seq<string>, token: string): (i: nat)
    requires token in columns
    ensures i < |columns| && columns[i] == token && token !in columns[..i]
  {
    if columns[0] == token then 0
    else
      var i := IndexOf(columns[1..], token);
      assert columns[..i + 1] == [columns[0]] + columns[1..][..i];
      i + 1
  }

  /** The label a token stands for: the token itself without `columns`,
      otherwise its first position in `columns`. */
  function ResolveLabel(token: string, columns: Option<seq<string>>): (r: Result<Label, ParseError>)
    ensures columns.None? ==> r == Success(Name(token))
    ensures columns.Some? ==> (r.Success? <==> token in columns.value)
    ensures columns.Some? && r.Success? ==>
      r.value.Index? && r.value.index < |columns.value| && columns.value[r.value.index] == token
      && token !in columns.value[..r.value.index]
    ensures r.Failure? ==> r.error == UnknownLabel(token)
  {
    match columns
    case None => Success(Name(token))
    case Some(cs) => if token in cs then Success(Index(IndexOf(cs, token))) else Failure(UnknownLabel(token))
  }

  /** `get_label`: the stripped text before the first `pow`, resolved. */
  function FactorLabel(factor: string, columns: Option<seq<string>>, pow: string): Result<Label, ParseError> {
    if |pow| == 0 then Failure(EmptySeparator)
    else ResolveLabel(Strip(Split(factor, pow)[0]), columns)
  }

  /** `get_power`: 1 when `pow` does not occur; otherwise the stripped text
      between the first and the second `pow`, read as a number. */
  function FactorPower(factor: string, pow: string): Result<Power, ParseError> {
    if !Contains(factor, pow) then Success(Finite(1))
    else if |pow| == 0 then Failure(EmptySeparator)
    else
      var text := Strip(Split(factor, pow)[1]);
      match ParsePower(text)
      case Some(p) => Success(p)
      case None => Failure(BadPower(text))
  }

  /** One factor's `(label, power)`; the label is read first, as the lazy
      `zip(map(get_label, ...), map(get_power, ...))` does. */
  function FactorEntry(factor: string, columns: Option<seq<string>>, pow: string): Result<Entry, ParseError> {
    var l :- FactorLabel(factor, columns, pow);
    var p :- FactorPower(factor, pow);
    Success(Entry(l, p))
  }

  /** The values of `rs`, read left to right; the first failure decides the
      error. This is how the lazy `zip(map(...), map(...))` and the loop over
      the per-term strings consume their results. */
  function Collect<T>(rs: seq<Result<T, ParseError>>): Result<seq<T>, ParseError>
    decreases |rs|
  {
    if |rs| == 0 then Success([])
    else
      var x :- rs[0];
      var rest :- Collect(rs[1..]);
      Success([x] + rest)
  }

  /** The entry of each factor. */
  function FactorResults(factors: seq<string>, columns: Option<seq<string>>, pow: string): (rs: seq<Result<Entry, ParseError>>)
    ensures |rs| == |factors|
  {
    seq(|factors|, k requires 0 <= k < |factors| => FactorEntry(factors[k], columns, pow))
  }

  /** The entries of a term's factors, left to right; the first factor that
      fails decides the error. */
  function FactorEntries(factors: seq<string>, columns: Option<seq<string>>, pow: string): Result<seq<Entry>, ParseError> {
    Collect(FactorResults(factors, columns, pow))
  }

  /** `a` is `b` with some elements left out. */
  predicate IsSubsequence<T(==)>(a: seq<T>, b: seq<T>)
    decreases |b|
  {
    |a| == 0 || (|b| > 0 && ((a[0] == b[0] && IsSubsequence(a[1..], b[1..])) || IsSubsequence(a, b[1..])))
  }

  /** `[(l, o) for l, o in term.items() if o != 0]` */
  function NonZero(es: seq<Entry>): (r: seq<Entry>)
    ensures forall e :: e in r <==> e in es && e.power != Finite(0)
    ensures IsSubsequence(r, es)
    decreases |es|
  {
    if |es| == 0 then []
    else
      var rest := NonZero(es[1..]);
      if es[0].power != Finite(0) then [es[0]] + rest else rest
  }

  predicate AllFinite(es: seq<Entry>) {
    forall i | 0 <= i < |es| :: es[i].power.Finite?
  }

  function ToFactors(es: seq<Entry>): Term
    requires AllFinite(es)
  {
    seq(|es|, i requires 0 <= i < |es| => Factor(es[i].key, es[i].power.n))
  }

  function FactorKeys(t: Term): seq<Label> {
    seq(|t|, i requires 0 <= i < |t| => t[i].key)
  }

  /** One term: split `item` on `mul`, sum the powers of repeated labels,
      drop the labels whose powers sum to zero, reject a non-finite power. */
  function ParseTerm(item: string, columns: Option<seq<string>>, ops: Operators): Result<Term, ParseError> {
    if |ops.mul| == 0 then Failure(EmptySeparator)
    else
      var entries :- FactorEntries(Split(item, ops.mul), columns, ops.pow);
      var valid := NonZero(Collapse(entries));
      if !AllFinite(valid) then Failure(NonFinitePower) else Success(ToFactors(valid))
  }

  /** The term of each per-term string. */
  function TermResults(items: seq<string>, columns: Option<seq<string>>, ops: Operators): (rs: seq<Result<Term, ParseError>>)
    ensures |rs| == |items|
  {
    seq(|items|, k requires 0 <= k < |items| => ParseTerm(items[k], columns, ops))
  }

  /** The terms that kept a factor, in order. */
  function NonEmpty(ts: seq<Term>): (r: seq<Term>)
    ensures forall t :: t in r <==> t in ts && |t| > 0
    ensures IsSubsequence(r, ts)
    decreases |ts|
  {
    if |ts| == 0 then []
    else
      var rest := NonEmpty(ts[1..]);
      if |ts[0]| > 0 then [ts[0]] + rest else rest
  }

  /** The terms of the per-term strings, left to right; a term left with no
      factor is omitted, and the first term that fails decides the error. */
  function ParseItems(items: seq<string>, columns: Option<seq<string>>, ops: Operators): Result<seq<Term>, ParseError> {
    var ts :- Collect(TermResults(items, columns, ops));
    Success(NonEmpty(ts))
  }

  function StripAll(xs: seq<string>): seq<string> {
    seq(|xs|, i requires 0 <= i < |xs| => Strip(xs[i]))
  }

  function Texts(vs: seq<Value>): seq<string>
    requires forall i | 0 <= i < |vs| :: vs[i].Str?
  {
    seq(|vs|, i requires 0 <= i < |vs| => vs[i].s)
  }

  /** The per-term strings: a string split on `sep`, or the strings of a
      list, each stripped. */
  function ItemTexts(description: Value, sep: string): Result<seq<string>, ParseError> {
    match description
    case Str(s) => if |sep| == 0 then Failure(EmptySeparator) else Success(StripAll(Split(s, sep)))
    case Seq(vs) => if forall i | 0 <= i < |vs| :: vs[i].Str? then Success(StripAll(Texts(vs))) else Failure(NotText)
    case _ => Failure(NotText)
  }

  /** `sum(map(len, label_vector))` */
  function TotalFactors(lv: seq<Term>): nat
    decreases |lv|
  {
    if |lv| == 0 then 0 else |lv[0]| + TotalFactors(lv[1..])
  }

  function LabelValue(l: Label): Value {
    match l
    case Name(s) => Str(s)
    case Index(i) => Int(i)
  }

  /** The Python value of a parsed label vector: lists of `(label, power)` tuples. */
  function VectorValue(lv: seq<Term>): Value {
    Seq(seq(|lv|, i requires 0 <= i < |lv| =>
      Seq(seq(|lv[i]|, j requires 0 <= j < |lv[i]| =>
        Seq([LabelValue(lv[i][j].key), Int(lv[i][j].power)])))))
  }

  /** `parse_label_vector_description(description, columns, sep=, mul=, pow=)` */
  function Parse(description: Value, columns: Option<seq<string>>, ops: Operators): Result<Value, ParseError> {
    if IsStructuredLabelVector(description) then Success(description)
    else
      var items :- ItemTexts(description, ops.sep);
      var lv :- ParseItems(items, columns, ops);
      if TotalFactors(lv) == 0 then Failure(NoValidTerms) else Success(VectorValue(lv))
  }

  /** `xs` put in front of a successful result. */
  function Prepend<T, E>(xs: seq<T>, r: Result<seq<T>, E>): Result<seq<T>, E> {
    match r
    case Success(v) => Success(xs + v)
    case Failure(e) => Failure(e)
  }

  /** The body of the source's loop for one per-term string: a loop that
      adds each factor's power into an ordered dictionary, then the zero
      filter and the finiteness check. */
  method ParseOneTerm(item: string, columns: Option<seq<string>>, ops: Operators)
    returns (r: Result<Term, ParseError>)
    ensures r == ParseTerm(item, columns, ops)
  {
    if |ops.mul| == 0 {
      return Failure(EmptySeparator);
    }
    var descriptor := Split(item, ops.mul);
    ghost var rs := FactorResults(descriptor, columns, ops.pow);
    var term: seq<Entry> := [];
    ghost var seen: seq<Entry> := [];
    var j := 0;
    CollectFrom(rs);
    while j < |descriptor|
      invariant 0 <= j <= |descriptor|
      invariant Collect(rs) == Prepend(seen, Collect(rs[j..]))
      invariant term == Collapse(seen)
    {
      FactorResultsAt(descriptor, columns, ops.pow, j);
      var key := FactorLabel(descriptor[j], columns, ops.pow);
      if key.Failure? {
        CollectStop(rs, seen, j);
        return Failure(key.error);
      }
      var order := FactorPower(descriptor[j], ops.pow);
      if order.Failure? {
        CollectStop(rs, seen, j);
        return Failure(order.error);
      }
      term := Put(term, key.value, order.value);
      CollectStep(rs, seen, j);
      CollapseSnoc(seen, Entry(key.value, order.value));
      seen := seen + [Entry(key.value, order.value)];
      j := j + 1;
    }
    CollectDone(rs, seen);
    var validTerms := NonZero(term);
    if !AllFinite(validTerms) {
      return Failure(NonFinitePower);
    }
    return Success(ToFactors(validTerms));
  }

  /** Unfolds `Collect` at position `j`: result `j` fails the whole, or its
      value is put in front of the rest. */
  lemma CollectAt<T>(rs: seq<Result<T, ParseError>>, j: nat)
    requires j < |rs|
    ensures Collect(rs[j..]) ==
      if rs[j].Failure? then Failure(rs[j].error) else Prepend([rs[j].value], Collect(rs[j + 1..]))
  {
    assert rs[j..][1..] == rs[j + 1..];
  }

  lemma PrependNothing<T, E>(r: Result<seq<T>, E>)
    ensures Prepend([], r) == r
  {
    if r.Success? {
      assert [] + r.value == r.value;
    }
  }

  lemma PrependStep<T, E>(xs: seq<T>, x: T, r: Result<seq<T>, E>)
    ensures Prepend(xs, Prepend([x], r)) == Prepend(xs + [x], r)
  {
    if r.Success? {
      assert xs + ([x] + r.value) == (xs + [x]) + r.value;
    }
  }

  /** Filtering one more term at the end. */
  lemma {:induction false} NonEmptySnoc(ts: seq<Term>, t: Term)
    ensures NonEmpty(ts + [t]) == NonEmpty(ts) + (if |t| > 0 then [t] else [])
    decreases |ts|
  {
    if |ts| == 0 {
      assert [] + [t] == [t];
    } else {
      assert (ts + [t])[1..] == ts[1..] + [t];
      NonEmptySnoc(ts[1..], t);
    }
  }

  /** The source's loop over the per-term strings: parse each one, append
      the terms that keep a factor. */
  method ParseAllTerms(items: seq<string>, columns: Option<seq<string>>, ops: Operators)
    returns (r: Result<seq<Term>, ParseError>)
    ensures r == ParseItems(items, columns, ops)
  {
    ghost var rs := TermResults(items, columns, ops);
    ghost var terms: seq<Term> := [];
    var labelVector: seq<Term> := [];
    var k := 0;
    CollectFrom(rs);
    while k < |items|
      invariant 0 <= k <= |items|
      invariant Collect(rs) == Prepend(terms, Collect(rs[k..]))
      invariant labelVector == NonEmpty(terms)
    {
      var term := ParseOneTerm(items[k], columns, ops);
      TermResultsAt(items, columns, ops, k);
      if term.Failure? {
        CollectStop(rs, terms, k);
        return Failure(term.error);
      }
      CollectStep(rs, terms, k);
      NonEmptySnoc(terms, term.value);
      if |term.value| > 0 {
        labelVector := labelVector + [term.value];
      }
      terms := terms + [term.value];
      k := k + 1;
    }
    CollectDone(rs, terms);
    return Success(labelVector);
  }

  lemma TermResultsAt(items: seq<string>, columns: Option<seq<string>>, ops: Operators, k: nat)
    requires k < |items|
    ensures TermResults(items, columns, ops)[k] == ParseTerm(items[k], columns, ops)
  {
  }

  lemma FactorResultsAt(factors: seq<string>, columns: Option<seq<string>>, pow: string, k: nat)
    requires k < |factors|
    ensures FactorResults(factors, columns, pow)[k] == FactorEntry(factors[k], columns, pow)
  {
  }

  /** Before the loop nothing has been read. */
  lemma CollectFrom<T>(rs: seq<Result<T, ParseError>>)
    ensures Collect(rs) == Prepend([], Collect(rs[0..]))
  {
    assert rs[0..] == rs;
    PrependNothing(Collect(rs));
  }

  /** Reading result `k`, a success, moves its value into what was read. */
  lemma CollectStep<T>(rs: seq<Result<T, ParseError>>, read: seq<T>, k: nat)
    requires k < |rs| && rs[k].Success?
    requires Collect(rs) == Prepend(read, Collect(rs[k..]))
    ensures Collect(rs) == Prepend(read + [rs[k].value], Collect(rs[k + 1..]))
  {
    CollectAt(rs, k);
    PrependStep(read, rs[k].value, Collect(rs[k + 1..]));
  }

  /** Reading result `k`, a failure, fails the whole. */
  lemma CollectStop<T>(rs: seq<Result<T, ParseError>>, read: seq<T>, k: nat)
    requires k < |rs| && rs[k].Failure?
    requires Collect(rs) == Prepend(read, Collect(rs[k..]))
    ensures Collect(rs) == Failure(rs[k].error)
  {
    CollectAt(rs, k);
  }

  /** After the loop everything has been read. */
  lemma CollectDone<T>(rs: seq<Result<T, ParseError>>, read: seq<T>)
    requires Collect(rs) == Prepend(read, Collect(rs[|rs|..]))
    ensures Collect(rs) == Success(read)
  {
    assert rs[|rs|..] == [];
    assert read + [] == read;
  }

  /** The parser as the source writes it: the fast path for structured
      input, the per-term strings, the loop over them, and the check that
      some factor is left. */
  method ParseLabelVectorDescription(description: Value, columns: Option<seq<string>>, ops: Operators)
    returns (r: Result<Value, ParseError>)
    ensures r == Parse(description, columns, ops)
  {
    if IsStructuredLabelVector(description) {
      return Success(description);
    }
    var texts := ItemTexts(description, ops.sep);
    if texts.Failure? {
      return Failure(texts.error);
    }
    var labelVector := ParseAllTerms(texts.value, columns, ops);
    if labelVector.Failure? {
      return Failure(labelVector.error);
    }
    if TotalFactors(labelVector.value) == 0 {
      return Failure(NoValidTerms);
    }
    return Success(VectorValue(labelVector.value));
  }
}
