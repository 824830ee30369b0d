/** What `parse_label_vector_description` promises about its result: the
    contents of each term, the error cases, and that its output is itself a
    structured label vector, so that parsing twice changes nothing. */
module ParseProperties {
  import opened Wrappers
  import opened Text
  import opened Structure
  import opened Terms
  import opened Parser

  /** The keys of a subsequence form a subsequence of the keys. */
  lemma {:induction false} KeysSubsequence(a: seq<Entry>, b: seq<Entry>)
    requires IsSubsequence(a, b)
    ensures IsSubsequence(Keys(a), Keys(b))
    decreases |b|
  {
    if |a| > 0 {
      assert Keys(a)[1..] == Keys(a[1..]);
      assert Keys(b)[1..] == Keys(b[1..]);
      if a[0] == b[0] && IsSubsequence(a[1..], b[1..]) {
        KeysSubsequence(a[1..], b[1..]);
      } else {
        KeysSubsequence(a, b[1..]);
      }
    }
  }

  /** Putting a label among the entries, with a power that does not sum to
      zero, keeps that label in the term. */
  lemma EntryKept(es: seq<Entry>, l: Label)
    requires l in Keys(es) && SumFor(es, l) != Finite(0)
    ensures l in Keys(NonZero(Collapse(es)))
  {
    var c := Collapse(es);
    CollapseKeys(es);
    DedupContents(Keys(es));
    assert l in Keys(c);
    var m :| 0 <= m < |c| && Keys(c)[m] == l;
    LookupEntry(c, m);
    CollapseSums(es, l);
    KeyOf(NonZero(c), c[m]);
  }

  /** Dropping entries keeps the keys distinct. */
  lemma {:induction false} NonZeroDistinct(es: seq<Entry>)
    requires Distinct(Keys(es))
    ensures Distinct(Keys(NonZero(es)))
    decreases |es|
  {
    if |es| > 0 {
      assert Keys(es)[1..] == Keys(es[1..]);
      NonZeroDistinct(es[1..]);
      var rest := NonZero(es[1..]);
      if es[0].power != Finite(0) {
        forall i | 0 <= i < |rest| ensures Keys(rest)[i] != es[0].key {
          assert rest[i] in es[1..];
          var j :| 0 <= j < |es[1..]| && es[1..][j] == rest[i];
          assert Keys(es)[0] != Keys(es)[j + 1];
        }
        assert Keys([es[0]] + rest) == [es[0].key] + Keys(rest);
      }
    }
  }

  /** Each entry left in a term holds the non-zero sum of its label's powers. */
  lemma EntrySum(es: seq<Entry>, e: Entry)
    requires e in NonZero(Collapse(es))
    ensures e.power != Finite(0) && SumFor(es, e.key) == e.power
  {
    var c := Collapse(es);
    var m :| 0 <= m < |c| && c[m] == e;
    LookupEntry(c, m);
    CollapseSums(es, e.key);
  }

  /** A non-finite power survives the summing and the zero filter: the
      term's powers are all finite exactly when every factor's power is. */
  lemma FiniteIff(es: seq<Entry>)
    ensures AllFinite(NonZero(Collapse(es))) <==> forall i | 0 <= i < |es| :: es[i].power.Finite?
  {
    var v := NonZero(Collapse(es));
    if !AllFinite(v) {
      var i :| 0 <= i < |v| && !v[i].power.Finite?;
      EntrySum(es, v[i]);
      SumNonFinite(es, v[i].key);
    }
    if exists i | 0 <= i < |es| :: !es[i].power.Finite? {
      var i :| 0 <= i < |es| && !es[i].power.Finite?;
      var l := es[i].key;
      SumNonFinite(es, l);
      assert Keys(es)[i] == l;
      EntryKept(es, l);
      var j :| 0 <= j < |v| && Keys(v)[j] == l;
      EntrySum(es, v[j]);
    }
  }

  /** Results read left to right succeed together exactly when each one
      does, and then give each value in order. */
  lemma {:induction false} CollectSuccess<T>(rs: seq<Result<T, ParseError>>)
    ensures Collect(rs).Success? <==> forall k | 0 <= k < |rs| :: rs[k].Success?
    ensures Collect(rs).Success? ==>
      |Collect(rs).value| == |rs| && forall k | 0 <= k < |rs| :: Collect(rs).value[k] == rs[k].value
    decreases |rs|
  {
    if |rs| > 0 {
      CollectSuccess(rs[1..]);
      assert forall k | 1 <= k < |rs| :: rs[1..][k - 1] == rs[k];
    }
  }

  /** Results read left to right that fail, fail with the error of the
      first failing result; all results before it succeed. */
  lemma {:induction false} CollectFirstError<T>(rs: seq<Result<T, ParseError>>)
    requires Collect(rs).Failure?
    ensures exists k | 0 <= k < |rs| ::
      && (forall m | 0 <= m < k :: rs[m].Success?)
      && rs[k].Failure?
      && Collect(rs).error == rs[k].error
    decreases |rs|
  {
    if rs[0].Success? {
      var rest := rs[1..];
      CollectFirstError(rest);
      var k :| 0 <= k < |rest| && (forall m | 0 <= m < k :: rest[m].Success?)
        && rest[k].Failure? && Collect(rest).error == rest[k].error;
      assert rs[k + 1] == rest[k];
      assert forall m | 1 <= m < k + 1 :: rs[m] == rest[m - 1];
    }
  }

  lemma FactorResultsAll(fs: seq<string>, columns: Option<seq<string>>, pow: string)
    ensures forall k | 0 <= k < |fs| :: FactorResults(fs, columns, pow)[k] == FactorEntry(fs[k], columns, pow)
  {
  }

  lemma TermResultsAll(items: seq<string>, columns: Option<seq<string>>, ops: Operators)
    ensures forall k | 0 <= k < |items| :: TermResults(items, columns, ops)[k] == ParseTerm(items[k], columns, ops)
  {
  }

  /** The factors of a term are read left to right: the list succeeds
      exactly when every factor does, and then holds each factor's entry in
      order. */
  lemma FactorEntriesSuccess(fs: seq<string>, columns: Option<seq<string>>, pow: string)
    ensures FactorEntries(fs, columns, pow).Success? <==>
      forall k | 0 <= k < |fs| :: FactorEntry(fs[k], columns, pow).Success?
    ensures FactorEntries(fs, columns, pow).Success? ==>
      |FactorEntries(fs, columns, pow).value| == |fs| &&
      forall k | 0 <= k < |fs| :: FactorEntries(fs, columns, pow).value[k] == FactorEntry(fs[k], columns, pow).value
  {
    var rs := FactorResults(fs, columns, pow);
    CollectSuccess(rs);
    FactorResultsAll(fs, columns, pow);
  }

  /** A failing list of factors fails with the error of its first failing
      factor: the factors before it all read. */
  lemma FactorEntriesFirstError(fs: seq<string>, columns: Option<seq<string>>, pow: string)
    requires FactorEntries(fs, columns, pow).Failure?
    ensures exists k | 0 <= k < |fs| ::
      && (forall m | 0 <= m < k :: FactorEntry(fs[m], columns, pow).Success?)
      && FactorEntry(fs[k], columns, pow).Failure?
      && FactorEntries(fs, columns, pow).error == FactorEntry(fs[k], columns, pow).error
  {
    var rs := FactorResults(fs, columns, pow);
    CollectFirstError(rs);
    var k :| 0 <= k < |rs| && (forall m | 0 <= m < k :: rs[m].Success?)
      && rs[k].Failure? && Collect(rs).error == rs[k].error;
    FactorResultsAll(fs, columns, pow);
  }

  /** A factor fails only for an empty operator, an unknown label or an
      unreadable power. */
  lemma FactorEntryErrors(f: string, columns: Option<seq<string>>, pow: string)
    requires FactorEntry(f, columns, pow).Failure?
    ensures FactorEntry(f, columns, pow).error.EmptySeparator? || FactorEntry(f, columns, pow).error.UnknownLabel?
      || FactorEntry(f, columns, pow).error.BadPower?
  {
  }

  /** Once every factor of a term reads, the term fails exactly when one of
      its powers is non-finite, and then with "non-finite power provided". */
  lemma NonFiniteRejectsTerm(item: string, columns: Option<seq<string>>, ops: Operators, es: seq<Entry>)
    requires |ops.mul| > 0 && FactorEntries(Split(item, ops.mul), columns, ops.pow) == Success(es)
    ensures ParseTerm(item, columns, ops).Failure? <==> exists i | 0 <= i < |es| :: es[i].power == NonFinite
    ensures ParseTerm(item, columns, ops).Failure? ==> ParseTerm(item, columns, ops).error == NonFinitePower
  {
    FiniteIff(es);
  }

  /** A parsed term, given the entries `es` its factors read as: its labels
      are distinct and keep the order in which they first appear among the
      factors; each power is the non-zero sum of the powers given to that
      label; every label whose powers do not cancel is kept. */
  lemma ParsedTermContents(item: string, columns: Option<seq<string>>, ops: Operators, es: seq<Entry>, t: Term)
    requires |ops.mul| > 0 && FactorEntries(Split(item, ops.mul), columns, ops.pow) == Success(es)
    requires ParseTerm(item, columns, ops) == Success(t)
    ensures Distinct(FactorKeys(t))
    ensures IsSubsequence(FactorKeys(t), Dedup(Keys(es)))
    ensures forall i | 0 <= i < |t| :: t[i].power != 0 && SumFor(es, t[i].key) == Finite(t[i].power)
    ensures forall l | l in Keys(es) && SumFor(es, l) != Finite(0) :: l in FactorKeys(t)
  {
    var c := Collapse(es);
    var v := NonZero(c);
    assert t == ToFactors(v);
    NonZeroDistinct(c);
    FactorKeysOf(v);
    CollapseKeys(es);
    KeysSubsequence(v, c);
    forall i | 0 <= i < |t| ensures t[i].power != 0 && SumFor(es, t[i].key) == Finite(t[i].power) {
      EntrySum(es, v[i]);
    }
    forall l | l in Keys(es) && SumFor(es, l) != Finite(0) ensures l in FactorKeys(t) {
      EntryKept(es, l);
    }
  }

  lemma FactorKeysOf(es: seq<Entry>)
    requires AllFinite(es)
    ensures FactorKeys(ToFactors(es)) == Keys(es)
  {
  }

  /** The per-term strings are parsed left to right: the whole succeeds
      exactly when every term does. */
  lemma ParseItemsSuccess(items: seq<string>, columns: Option<seq<string>>, ops: Operators)
    ensures ParseItems(items, columns, ops).Success? <==>
      forall k | 0 <= k < |items| :: ParseTerm(items[k], columns, ops).Success?
  {
    var rs := TermResults(items, columns, ops);
    CollectSuccess(rs);
    TermResultsAll(items, columns, ops);
  }

  /** A failing parse of the per-term strings fails with the error of the
      first term that fails: the strings before it all parse. */
  lemma ParseItemsFirstError(items: seq<string>, columns: Option<seq<string>>, ops: Operators)
    requires ParseItems(items, columns, ops).Failure?
    ensures exists k | 0 <= k < |items| ::
      && (forall m | 0 <= m < k :: ParseTerm(items[m], columns, ops).Success?)
      && ParseTerm(items[k], columns, ops).Failure?
      && ParseItems(items, columns, ops).error == ParseTerm(items[k], columns, ops).error
  {
    var rs := TermResults(items, columns, ops);
    CollectFirstError(rs);
    var k :| 0 <= k < |rs| && (forall m | 0 <= m < k :: rs[m].Success?)
      && rs[k].Failure? && Collect(rs).error == rs[k].error;
    TermResultsAll(items, columns, ops);
  }

  /** The terms of a parsed label vector: each is the non-empty term of one
      per-term string, and every per-term string whose term keeps a factor
      contributes it. */
  lemma ParseItemsTerms(items: seq<string>, columns: Option<seq<string>>, ops: Operators, lv: seq<Term>)
    requires ParseItems(items, columns, ops) == Success(lv)
    ensures forall k | 0 <= k < |items| :: ParseTerm(items[k], columns, ops).Success?
    ensures forall t | t in lv :: |t| > 0 && exists k | 0 <= k < |items| :: ParseTerm(items[k], columns, ops) == Success(t)
    ensures forall k | 0 <= k < |items| ::
      |ParseTerm(items[k], columns, ops).value| > 0 ==> ParseTerm(items[k], columns, ops).value in lv
  {
    var rs := TermResults(items, columns, ops);
    CollectSuccess(rs);
    var ts := Collect(rs).value;
    forall t | t in lv
      ensures exists k | 0 <= k < |items| :: ParseTerm(items[k], columns, ops) == Success(t)
    {
      var k :| 0 <= k < |ts| && ts[k] == t;
      TermResultsAt(items, columns, ops, k);
    }
    forall k | 0 <= k < |items|
      ensures ParseTerm(items[k], columns, ops).Success?
      ensures |ParseTerm(items[k], columns, ops).value| > 0 ==> ParseTerm(items[k], columns, ops).value in lv
    {
      TermResultsAt(items, columns, ops, k);
      assert ts[k] in ts;
    }
  }

  /** Dropping zero powers keeps every other entry as many times as it
      occurs, and no entry with a zero power. */
  lemma {:induction false} NonZeroCounts(es: seq<Entry>)
    ensures forall e :: multiset(NonZero(es))[e] == if e.power != Finite(0) then multiset(es)[e] else 0
    decreases |es|
  {
    if |es| > 0 {
      NonZeroCounts(es[1..]);
      assert es == [es[0]] + es[1..];
    }
  }

  /** Dropping empty terms keeps every other term as many times as it
      occurs: equal terms from different per-term strings are not merged. */
  lemma {:induction false} NonEmptyCounts(ts: seq<Term>)
    ensures forall t :: multiset(NonEmpty(ts))[t] == if |t| > 0 then multiset(ts)[t] else 0
    ensures |NonEmpty(ts)| == |ts| - multiset(ts)[[]]
    decreases |ts|
  {
    if |ts| > 0 {
      NonEmptyCounts(ts[1..]);
      assert ts == [ts[0]] + ts[1..];
    }
  }

  /** The term of every per-term string, when all of them parse. */
  function ParsedItems(items: seq<string>, columns: Option<seq<string>>, ops: Operators): (ts: seq<Term>)
    requires forall k | 0 <= k < |items| :: ParseTerm(items[k], columns, ops).Success?
    ensures |ts| == |items|
  {
    seq(|items|, k requires 0 <= k < |items| => ParseTerm(items[k], columns, ops).value)
  }

  /** Whitespace around the power sign, before the label or after the
      power does not change what a factor reads as. */
  lemma FactorPadding(w1: string, l: string, w2: string, w3: string, p: string, w4: string,
                      c: char, columns: Option<seq<string>>)
    requires !IsSpace(c) && c !in l && c !in p
    requires AllSpace(w1) && AllSpace(w2) && AllSpace(w3) && AllSpace(w4)
    ensures FactorEntry(w1 + l + w2 + [c] + w3 + p + w4, columns, [c]) == FactorEntry(l + [c] + p, columns, [c])
  {
    SpaceWithout(w1, c);
    SpaceWithout(w2, c);
    SpaceWithout(w3, c);
    SpaceWithout(w4, c);
    var front, back := w1 + l + w2, w3 + p + w4;
    assert c !in front && c !in back;
    assert w1 + l + w2 + [c] + w3 + p + w4 == front + [c] + back;
    SplitAtFirst(front, c, back);
    SplitWithout(back, c);
    SplitAtFirst(l, c, p);
    SplitWithout(p, c);
    StripPadded(w1, l, w2);
    StripPadded(w3, p, w4);
  }

  /** Whitespace around a factor without a power does not change what it
      reads as. */
  lemma BareFactorPadding(w1: string, l: string, w2: string, c: char, columns: Option<seq<string>>)
    requires !IsSpace(c) && c !in l && AllSpace(w1) && AllSpace(w2)
    ensures FactorEntry(w1 + l + w2, columns, [c]) == FactorEntry(l, columns, [c])
  {
    SpaceWithout(w1, c);
    SpaceWithout(w2, c);
    SplitWithout(w1 + l + w2, c);
    SplitWithout(l, c);
    StripPadded(w1, l, w2);
  }

  /** Factors that read alike, joined by the same multiplication sign, make
      terms that read alike: with the lemmas above, whitespace around `mul`
      and `pow` does not change a term. */
  lemma TermPadding(fs: seq<string>, gs: seq<string>, columns: Option<seq<string>>, ops: Operators)
    requires |ops.mul| == 1 && |fs| == |gs| >= 1
    requires NoneContain(fs, ops.mul[0]) && NoneContain(gs, ops.mul[0])
    requires forall i | 0 <= i < |fs| :: FactorEntry(fs[i], columns, ops.pow) == FactorEntry(gs[i], columns, ops.pow)
    ensures ParseTerm(Join(fs, ops.mul), columns, ops) == ParseTerm(Join(gs, ops.mul), columns, ops)
  {
    var m := ops.mul[0];
    assert ops.mul == [m];
    SplitJoin(fs, m);
    SplitJoin(gs, m);
    var rf := FactorResults(fs, columns, ops.pow);
    var rg := FactorResults(gs, columns, ops.pow);
    forall k | 0 <= k < |fs| ensures rf[k] == rg[k] {
      FactorResultsAt(fs, columns, ops.pow, k);
      FactorResultsAt(gs, columns, ops.pow, k);
    }
    assert rf == rg;
  }

  /** The terms keep the order of their per-term strings: a parsed label
      vector is the list of all terms with the empty ones left out. Each
      non-empty term appears as often as per-term strings produce it, so
      `a + a` gives two terms, and the vector has one term per per-term
      string whose term is not empty. */
  lemma ParseItemsOrder(items: seq<string>, columns: Option<seq<string>>, ops: Operators, lv: seq<Term>)
    requires ParseItems(items, columns, ops) == Success(lv)
    ensures forall k | 0 <= k < |items| :: ParseTerm(items[k], columns, ops).Success?
    ensures IsSubsequence(lv, ParsedItems(items, columns, ops))
    ensures forall t :: multiset(lv)[t] == if |t| > 0 then multiset(ParsedItems(items, columns, ops))[t] else 0
    ensures |lv| == |items| - multiset(ParsedItems(items, columns, ops))[[]]
  {
    var rs := TermResults(items, columns, ops);
    CollectSuccess(rs);
    var ts := Collect(rs).value;
    forall k | 0 <= k < |items| ensures ParseTerm(items[k], columns, ops).Success? && ts[k] == ParseTerm(items[k], columns, ops).value {
      TermResultsAt(items, columns, ops, k);
    }
    assert ts == ParsedItems(items, columns, ops);
    NonEmptyCounts(ts);
  }

  /** The label vector comes out empty exactly when every per-term string
      gives a term with no factor left. */
  lemma EmptyVectorIff(items: seq<string>, columns: Option<seq<string>>, ops: Operators)
    ensures ParseItems(items, columns, ops) == Success([]) <==>
      forall k | 0 <= k < |items| :: ParseTerm(items[k], columns, ops) == Success([])
  {
    var rs := TermResults(items, columns, ops);
    CollectSuccess(rs);
    TermResultsAll(items, columns, ops);
    if Collect(rs).Success? {
      NonEmptyNone(Collect(rs).value);
    }
  }

  /** Filtering leaves nothing exactly when every term is empty. */
  lemma NonEmptyNone(ts: seq<Term>)
    ensures NonEmpty(ts) == [] <==> forall k | 0 <= k < |ts| :: ts[k] == []
  {
    if NonEmpty(ts) == [] {
      forall k | 0 <= k < |ts| ensures ts[k] == [] {
        assert ts[k] in ts;
      }
    }
  }

  /** A label vector whose terms are all non-empty has a factor exactly
      when it has a term. */
  lemma {:induction false} TotalFactorsPositive(lv: seq<Term>)
    requires forall i | 0 <= i < |lv| :: |lv[i]| > 0
    ensures TotalFactors(lv) > 0 <==> |lv| > 0
    decreases |lv|
  {
    if |lv| > 0 {
      assert |lv[0]| > 0;
    }
  }

  /** The per-term strings leave no factor exactly when each of them
      cancels to an empty term; reading them never fails with "no valid
      terms provided" itself. */
  lemma NoValidItems(items: seq<string>, columns: Option<seq<string>>, ops: Operators)
    ensures (ParseItems(items, columns, ops).Success? && TotalFactors(ParseItems(items, columns, ops).value) == 0) <==>
      forall k | 0 <= k < |items| :: ParseTerm(items[k], columns, ops) == Success([])
    ensures ParseItems(items, columns, ops).Failure? ==> ParseItems(items, columns, ops).error != NoValidTerms
  {
    EmptyVectorIff(items, columns, ops);
    var r := ParseItems(items, columns, ops);
    if r.Success? {
      ParseItemsTerms(items, columns, ops, r.value);
      TotalFactorsPositive(r.value);
    } else {
      ParseItemsFirstError(items, columns, ops);
      var k :| 0 <= k < |items| && ParseTerm(items[k], columns, ops).Failure?
        && r.error == ParseTerm(items[k], columns, ops).error;
      ParseTermErrors(items[k], columns, ops);
    }
  }

  /** "no valid terms provided" is raised exactly for an unstructured input
      whose per-term strings all read and all cancel to no factor. */
  lemma NoValidTermsIff(d: Value, columns: Option<seq<string>>, ops: Operators)
    ensures Parse(d, columns, ops) == Failure(NoValidTerms) <==>
      && !IsStructuredLabelVector(d)
      && ItemTexts(d, ops.sep).Success?
      && forall k | 0 <= k < |ItemTexts(d, ops.sep).value| ::
           ParseTerm(ItemTexts(d, ops.sep).value[k], columns, ops) == Success([])
  {
    var texts := ItemTexts(d, ops.sep);
    if !IsStructuredLabelVector(d) && texts.Success? {
      NoValidItems(texts.value, columns, ops);
    }
  }

  /** A term never fails with "no valid terms provided". */
  lemma ParseTermErrors(item: string, columns: Option<seq<string>>, ops: Operators)
    ensures ParseTerm(item, columns, ops) != Failure(NoValidTerms)
  {
    if |ops.mul| > 0 {
      var fs := Split(item, ops.mul);
      if FactorEntries(fs, columns, ops.pow).Failure? {
        FactorEntriesFirstError(fs, columns, ops.pow);
        var k :| 0 <= k < |fs| && FactorEntry(fs[k], columns, ops.pow).Failure?
          && FactorEntries(fs, columns, ops.pow).error == FactorEntry(fs[k], columns, ops.pow).error;
        FactorEntryErrors(fs[k], columns, ops.pow);
      }
    }
  }

  /** Every successful parse is a structured label vector. */
  lemma ParseOutputStructured(d: Value, columns: Option<seq<string>>, ops: Operators, w: Value)
    requires Parse(d, columns, ops) == Success(w)
    ensures IsStructuredLabelVector(w)
  {
    if !IsStructuredLabelVector(d) {
      var items := ItemTexts(d, ops.sep).value;
      var lv := ParseItems(items, columns, ops).value;
      ParseItemsTerms(items, columns, ops, lv);
      VectorValueStructured(lv);
    }
  }

  /** A non-empty list of non-empty terms is a structured label vector. */
  lemma VectorValueStructured(lv: seq<Term>)
    requires |lv| > 0 && forall i | 0 <= i < |lv| :: |lv[i]| > 0
    ensures IsStructuredLabelVector(VectorValue(lv))
  {
    var w := VectorValue(lv);
    assert |w.items[0].items| == |lv[0]| > 0;
    StructuredIff(w);
  }

  /** Parsing is idempotent: a parse result, parsed again with any columns
      and operators, comes back unchanged. */
  lemma ParseIdempotent(d: Value, columns: Option<seq<string>>, ops: Operators,
                        columns': Option<seq<string>>, ops': Operators, w: Value)
    requires Parse(d, columns, ops) == Success(w)
    ensures Parse(w, columns', ops') == Success(w)
  {
    ParseOutputStructured(d, columns, ops, w);
  }
}
