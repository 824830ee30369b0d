/** Reading a built description back: `parse_label_vector_description`
    applied to the output of `build_label_vector` gives the built terms. */
module RoundTrip {
  import opened Wrappers
  import opened Text
  import opened Structure
  import opened Terms
  import opened Parser
  import opened ParseProperties
  import opened Builder
  import opened BuildProperties

  /** Operators that read back unambiguously: three different single
      characters, none of them whitespace or a digit. */
  predicate PlainOperators(ops: Operators) {
    && |ops.sep| == 1 && |ops.mul| == 1 && |ops.pow| == 1
    && ops.sep[0] != ops.mul[0] && ops.sep[0] != ops.pow[0] && ops.mul[0] != ops.pow[0]
    && !IsSpace(ops.sep[0]) && !IsSpace(ops.mul[0]) && !IsSpace(ops.pow[0])
    && !IsDigit(ops.sep[0]) && !IsDigit(ops.mul[0]) && !IsDigit(ops.pow[0])
  }

  /** A label that reads back as itself: not empty, no whitespace at either
      end, and none of the operator characters. */
  predicate PlainLabel(l: string, ops: Operators) {
    && PlainOperators(ops) && |l| > 0 && Trimmed(l)
    && ops.sep[0] !in l && ops.mul[0] !in l && ops.pow[0] !in l
  }

  /** A term as `build_label_vector` writes it: at least one factor, distinct
      plain labels, every power at least 1. */
  predicate PlainTerm(t: seq<Tally>, ops: Operators) {
    && |t| >= 1 && Distinct(Names(t))
    && forall i | 0 <= i < |t| :: PlainLabel(t[i].name, ops) && t[i].count >= 1
  }

  /** A label the parser can resolve: any label without `columns`, one of
      the columns with them. */
  predicate Known(name: string, columns: Option<seq<string>>) {
    columns.None? || name in columns.value
  }

  predicate KnownTerm(t: seq<Tally>, columns: Option<seq<string>>) {
    forall i | 0 <= i < |t| :: Known(t[i].name, columns)
  }

  /** What the parser makes of a known label: the label itself, or the index
      of its first occurrence among the columns. */
  function LabelFor(name: string, columns: Option<seq<string>>): (l: Label)
    requires Known(name, columns)
    ensures columns.None? ==> l == Name(name)
    ensures columns.Some? ==> l.Index? && l.index < |columns.value| && columns.value[l.index] == name
  {
    ResolveLabel(name, columns).value
  }

  /** A built term as the parser returns it. */
  function AsTerm(t: seq<Tally>, columns: Option<seq<string>>): (r: Term)
    requires KnownTerm(t, columns)
    ensures |r| == |t|
  {
    seq(|t|, i requires 0 <= i < |t| => Factor(LabelFor(t[i].name, columns), t[i].count))
  }

  function AsTerms(ts: seq<seq<Tally>>, columns: Option<seq<string>>): (r: seq<Term>)
    requires forall k | 0 <= k < |ts| :: KnownTerm(ts[k], columns)
    ensures |r| == |ts|
  {
    seq(|ts|, k requires 0 <= k < |ts| => AsTerm(ts[k], columns))
  }

  /** A character that is not a digit does not occur in a decimal numeral. */
  lemma NotInDecimal(c: char, n: nat)
    requires !IsDigit(c)
    ensures c !in NatToDecimal(n)
  {
    var d := NatToDecimal(n);
    forall i | 0 <= i < |d| ensures d[i] != c {
      assert IsDigit(d[i]);
    }
  }

  /** A decimal numeral has no whitespace at its ends. */
  lemma DecimalTrimmed(n: nat)
    ensures Trimmed(NatToDecimal(n))
  {
    var d := NatToDecimal(n);
    assert IsDigit(d[0]) && IsDigit(d[|d| - 1]);
  }

  /** A character found in no piece and different from the separator is not
      in the joined string. */
  lemma {:induction false} JoinWithout(xs: seq<string>, sep: char, c: char)
    requires c != sep && NoneContain(xs, c)
    ensures c !in Join(xs, [sep])
    decreases |xs|
  {
    if |xs| > 1 {
      assert NoneContain(xs[1..], c) by {
        forall i | 0 <= i < |xs[1..]| ensures c !in xs[1..][i] {
          assert xs[1..][i] == xs[i + 1];
        }
      }
      JoinWithout(xs[1..], sep, c);
    }
  }

  /** The joined string starts with the first piece and ends with the last. */
  lemma {:induction false} JoinEnds(xs: seq<string>, sep: string)
    requires |xs| >= 1 && forall i | 0 <= i < |xs| :: |xs[i]| > 0
    ensures |Join(xs, sep)| > 0
    ensures Join(xs, sep)[0] == xs[0][0]
    ensures Join(xs, sep)[|Join(xs, sep)| - 1] == xs[|xs| - 1][|xs[|xs| - 1]| - 1]
    decreases |xs|
  {
    if |xs| > 1 {
      JoinEnds(xs[1..], sep);
    }
  }

  /** A rendered factor splits on the power sign into its label and, for a
      power above 1, the power's numeral. */
  lemma FactorPieces(f: Tally, ops: Operators)
    requires PlainLabel(f.name, ops) && f.count >= 1
    ensures f.count > 1 ==> Split(RenderFactor(f, ops.pow), ops.pow) == [f.name, IntToDecimal(f.count)]
    ensures f.count == 1 ==> Split(RenderFactor(f, ops.pow), ops.pow) == [f.name]
  {
    var p := ops.pow[0];
    assert ops.pow == [p];
    if f.count > 1 {
      var d := IntToDecimal(f.count);
      NotInDecimal(p, f.count);
      SplitAtFirst(f.name, p, d);
      SplitWithout(d, p);
      assert f.name + ops.pow + d == f.name + [p] + d;
    } else {
      SplitWithout(f.name, p);
    }
  }

  /** A rendered factor reads back as its label and power. */
  lemma FactorRoundTrip(f: Tally, columns: Option<seq<string>>, ops: Operators)
    requires PlainLabel(f.name, ops) && f.count >= 1 && Known(f.name, columns)
    ensures FactorEntry(RenderFactor(f, ops.pow), columns, ops.pow)
      == Success(Entry(LabelFor(f.name, columns), Finite(f.count)))
  {
    FactorPieces(f, ops);
    StripTrimmed(f.name);
    if f.count > 1 {
      DecimalTrimmed(f.count);
      StripTrimmed(IntToDecimal(f.count));
      PowerRoundTrip(f.count);
    }
  }

  /** Every result successful, with the given values: the values are collected. */
  lemma {:induction false} CollectAll<T>(rs: seq<Result<T, ParseError>>, vs: seq<T>)
    requires |rs| == |vs| && forall k | 0 <= k < |rs| :: rs[k] == Success(vs[k])
    ensures Collect(rs) == Success(vs)
    decreases |rs|
  {
    if |rs| > 0 {
      CollectAll(rs[1..], vs[1..]);
      assert [vs[0]] + vs[1..] == vs;
    }
  }

  /** Dropping zero powers from entries that have none changes nothing. */
  lemma {:induction false} NonZeroAll(es: seq<Entry>)
    requires forall i | 0 <= i < |es| :: es[i].power != Finite(0)
    ensures NonZero(es) == es
    decreases |es|
  {
    if |es| > 0 {
      NonZeroAll(es[1..]);
      assert [es[0]] + es[1..] == es;
    }
  }

  /** Dropping empty terms from terms that have none changes nothing. */
  lemma {:induction false} NonEmptyAll(ts: seq<Term>)
    requires forall i | 0 <= i < |ts| :: |ts[i]| > 0
    ensures NonEmpty(ts) == ts
    decreases |ts|
  {
    if |ts| > 0 {
      NonEmptyAll(ts[1..]);
      assert [ts[0]] + ts[1..] == ts;
    }
  }

  /** The entries a plain term reads back as. */
  function EntriesOf(t: seq<Tally>, columns: Option<seq<string>>): (es: seq<Entry>)
    requires KnownTerm(t, columns)
    ensures |es| == |t|
  {
    seq(|t|, i requires 0 <= i < |t| => Entry(LabelFor(t[i].name, columns), Finite(t[i].count)))
  }

  /** The factors of a rendered plain term read back as its entries. */
  lemma FactorsRoundTrip(t: seq<Tally>, columns: Option<seq<string>>, ops: Operators)
    requires PlainOperators(ops) && PlainTerm(t, ops) && KnownTerm(t, columns)
    ensures FactorEntries(RenderFactors(t, ops.pow), columns, ops.pow) == Success(EntriesOf(t, columns))
  {
    var fs := RenderFactors(t, ops.pow);
    var rs := FactorResults(fs, columns, ops.pow);
    forall k | 0 <= k < |rs| ensures rs[k] == Success(EntriesOf(t, columns)[k]) {
      FactorResultsAt(fs, columns, ops.pow, k);
      FactorRoundTrip(t[k], columns, ops);
    }
    CollectAll(rs, EntriesOf(t, columns));
  }

  /** A rendered plain term has no multiplication sign in its factors. */
  lemma FactorsFree(t: seq<Tally>, ops: Operators, c: char)
    requires PlainOperators(ops) && PlainTerm(t, ops)
    requires c == ops.mul[0] || c == ops.sep[0]
    ensures NoneContain(RenderFactors(t, ops.pow), c)
  {
    var fs := RenderFactors(t, ops.pow);
    forall i | 0 <= i < |fs| ensures c !in fs[i] {
      if t[i].count > 1 {
        NotInDecimal(c, t[i].count);
      }
    }
  }

  /** The keys of the entries of a plain term are distinct. */
  lemma EntriesDistinct(t: seq<Tally>, columns: Option<seq<string>>, ops: Operators)
    requires PlainTerm(t, ops) && KnownTerm(t, columns)
    ensures Distinct(Keys(EntriesOf(t, columns)))
  {
    var ks := Keys(EntriesOf(t, columns));
    forall i, j | 0 <= i < j < |ks| ensures ks[i] != ks[j] {
      assert ks[i] == LabelFor(t[i].name, columns) && ks[j] == LabelFor(t[j].name, columns);
      assert Names(t)[i] != Names(t)[j];
    }
  }

  /** Summing and filtering the entries of a plain term keeps them all. */
  lemma EntriesKept(t: seq<Tally>, columns: Option<seq<string>>, ops: Operators)
    requires PlainTerm(t, ops) && KnownTerm(t, columns)
    ensures NonZero(Collapse(EntriesOf(t, columns))) == EntriesOf(t, columns)
  {
    EntriesDistinct(t, columns, ops);
    CollapseDistinct(EntriesOf(t, columns));
    NonZeroAll(EntriesOf(t, columns));
  }

  /** Splitting a rendered plain term on the multiplication sign gives its
      factors, which read back as its entries. */
  lemma TermEntries(t: seq<Tally>, columns: Option<seq<string>>, ops: Operators)
    requires PlainOperators(ops) && PlainTerm(t, ops) && KnownTerm(t, columns)
    ensures FactorEntries(Split(RenderTerm(t, ops), ops.mul), columns, ops.pow) == Success(EntriesOf(t, columns))
  {
    var m := ops.mul[0];
    assert ops.mul == [m];
    var fs := RenderFactors(t, ops.pow);
    FactorsFree(t, ops, m);
    SplitJoin(fs, m);
    FactorsRoundTrip(t, columns, ops);
  }

  /** A rendered plain term reads back as the term. */
  lemma TermRoundTrip(t: seq<Tally>, columns: Option<seq<string>>, ops: Operators)
    requires PlainOperators(ops) && PlainTerm(t, ops) && KnownTerm(t, columns)
    ensures ParseTerm(RenderTerm(t, ops), columns, ops) == Success(AsTerm(t, columns))
  {
    TermEntries(t, columns, ops);
    EntriesKept(t, columns, ops);
    assert AllFinite(EntriesOf(t, columns));
    assert ToFactors(EntriesOf(t, columns)) == AsTerm(t, columns);
  }

  /** A rendered plain term is not empty and has no whitespace at its ends. */
  lemma TermTrimmed(t: seq<Tally>, ops: Operators)
    requires PlainOperators(ops) && PlainTerm(t, ops)
    ensures |RenderTerm(t, ops)| > 0 && Trimmed(RenderTerm(t, ops))
  {
    var fs := RenderFactors(t, ops.pow);
    forall i | 0 <= i < |fs| ensures |fs[i]| > 0 && !IsSpace(fs[i][0]) && !IsSpace(fs[i][|fs[i]| - 1]) {
      if t[i].count > 1 {
        var d := IntToDecimal(t[i].count);
        DecimalTrimmed(t[i].count);
        assert fs[i] == t[i].name + ops.pow + d;
        assert fs[i][|fs[i]| - 1] == d[|d| - 1];
      }
    }
    JoinEnds(fs, ops.mul);
  }

  /** The last piece of a spaced description. */
  lemma SpacedLast(x: string, c: char, w: string)
    requires !IsSpace(c) && AllSpace(w) && c !in x && Trimmed(x)
    ensures StripAll(Split(w + Join([x], [' ', c, ' ']), [c])) == [x]
  {
    SpaceWithout(w, c);
    assert w + Join([x], [' ', c, ' ']) == w + x + "";
    SplitWithout(w + x + "", c);
    StripPadded(w, x, "");
    StripTrimmed(x);
  }

  /** Joining a first piece onto more pieces puts the separator between. */
  lemma JoinCons(x: string, ys: seq<string>, sep: string)
    requires |ys| >= 1
    ensures Join([x] + ys, sep) == x + sep + Join(ys, sep)
  {
    assert ([x] + ys)[1..] == ys;
  }

  /** A spaced description, cut at its first separator. */
  lemma SpacedCut(x: string, rest: string, c: char, w: string)
    ensures w + (x + [' ', c, ' '] + rest) == (w + x + " ") + [c] + (" " + rest)
  {
  }

  /** A spaced description splits at the separator after its first term. */
  lemma SpacedSplit(x: string, ys: seq<string>, c: char, w: string)
    requires |ys| >= 1 && !IsSpace(c) && AllSpace(w) && c !in x
    ensures StripAll(Split(w + Join([x] + ys, [' ', c, ' ']), [c]))
      == [Strip(x)] + StripAll(Split(" " + Join(ys, [' ', c, ' ']), [c]))
  {
    SpaceWithout(w, c);
    var rest := Join(ys, [' ', c, ' ']);
    var first := w + x + " ";
    JoinCons(x, ys, [' ', c, ' ']);
    SpacedCut(x, rest, c, w);
    SplitAtFirst(first, c, " " + rest);
    StripPadded(w, x, " ");
    StripAllCons(first, Split(" " + rest, [c]));
  }

  /** Stripping a list strips its head and its tail. */
  lemma StripAllCons(x: string, xs: seq<string>)
    ensures StripAll([x] + xs) == [Strip(x)] + StripAll(xs)
  {
  }

  /** The pieces after the first of a list of plain pieces are plain. */
  lemma PlainTail(xs: seq<string>, c: char)
    requires |xs| >= 1 && NoneContain(xs, c) && forall i | 0 <= i < |xs| :: Trimmed(xs[i])
    ensures NoneContain(xs[1..], c) && forall i | 0 <= i < |xs[1..]| :: Trimmed(xs[1..][i])
  {
    forall i | 0 <= i < |xs[1..]| ensures c !in xs[1..][i] && Trimmed(xs[1..][i]) {
      assert xs[1..][i] == xs[i + 1];
    }
  }

  /** Splitting a description on the separator and stripping each piece
      gives back the terms, whatever whitespace precedes it. */
  lemma {:induction false} SpacedItems(xs: seq<string>, c: char, w: string)
    requires |xs| >= 1 && !IsSpace(c) && AllSpace(w)
    requires NoneContain(xs, c) && forall i | 0 <= i < |xs| :: Trimmed(xs[i])
    ensures StripAll(Split(w + Join(xs, [' ', c, ' ']), [c])) == xs
    decreases |xs|
  {
    var x, ys := xs[0], xs[1..];
    assert [x] + ys == xs;
    assert c !in x && Trimmed(x);
    if |ys| == 0 {
      SpacedLast(x, c, w);
    } else {
      SpacedSplit(x, ys, c, w);
      StripTrimmed(x);
      PlainTail(xs, c);
      SpacedItems(ys, c, " ");
    }
  }

  /** Rendered plain terms, split on the separator and stripped, are the
      rendered terms again. */
  lemma ItemsRoundTrip(ts: seq<seq<Tally>>, ops: Operators)
    requires PlainOperators(ops) && |ts| >= 1
    requires forall k | 0 <= k < |ts| :: PlainTerm(ts[k], ops)
    ensures ItemTexts(Str(Join(Rendered(ts, ops), Spaced(ops.sep))), ops.sep) == Success(Rendered(ts, ops))
  {
    var c := ops.sep[0];
    var xs := Rendered(ts, ops);
    assert ops.sep == [c] && Spaced(ops.sep) == [' ', c, ' '];
    forall k | 0 <= k < |xs| ensures c !in xs[k] && Trimmed(xs[k]) {
      FactorsFree(ts[k], ops, c);
      JoinWithout(RenderFactors(ts[k], ops.pow), ops.mul[0], c);
      assert ops.mul == [ops.mul[0]];
      TermTrimmed(ts[k], ops);
    }
    SpacedItems(xs, c, "");
    assert "" + Join(xs, [' ', c, ' ']) == Join(xs, [' ', c, ' ']);
  }

  /** The rendered plain terms read back as the terms. */
  lemma TermsRoundTrip(ts: seq<seq<Tally>>, columns: Option<seq<string>>, ops: Operators)
    requires PlainOperators(ops)
    requires forall k | 0 <= k < |ts| :: PlainTerm(ts[k], ops) && KnownTerm(ts[k], columns)
    ensures ParseItems(Rendered(ts, ops), columns, ops) == Success(AsTerms(ts, columns))
  {
    var items := Rendered(ts, ops);
    var rs := TermResults(items, columns, ops);
    forall k | 0 <= k < |rs| ensures rs[k] == Success(AsTerms(ts, columns)[k]) {
      TermResultsAt(items, columns, ops, k);
      TermRoundTrip(ts[k], columns, ops);
    }
    CollectAll(rs, AsTerms(ts, columns));
    NonEmptyAll(AsTerms(ts, columns));
  }

  /** Any description written the way `build_label_vector` writes one, from
      at least one plain term, parses back to those terms. */
  lemma RenderThenParse(ts: seq<seq<Tally>>, columns: Option<seq<string>>, ops: Operators)
    requires PlainOperators(ops) && |ts| >= 1
    requires forall k | 0 <= k < |ts| :: PlainTerm(ts[k], ops) && KnownTerm(ts[k], columns)
    ensures Parse(Str(Join(Rendered(ts, ops), Spaced(ops.sep))), columns, ops)
      == Success(VectorValue(AsTerms(ts, columns)))
  {
    ItemsRoundTrip(ts, ops);
    TermsRoundTrip(ts, columns, ops);
    TotalFactorsPositive(AsTerms(ts, columns));
  }

  /** Parsing what `build_label_vector` builds gives back exactly the terms
      it built, each label (or its column index) with its power, in order,
      when the labels and operators cannot be confused with one another,
      every label is among the columns if columns are given, and at least
      one term is built. */
  lemma BuildThenParse(labels: seq<string>, order: int, crossTermOrder: int,
                       columns: Option<seq<string>>, ops: Operators)
    requires PlainOperators(ops) && |BuiltTerms(labels, order, crossTermOrder)| > 0
    requires forall i | 0 <= i < |labels| :: PlainLabel(labels[i], ops) && Known(labels[i], columns)
    ensures forall t | t in BuiltTerms(labels, order, crossTermOrder) :: KnownTerm(t, columns)
    ensures Parse(Str(Description(labels, order, crossTermOrder, ops)), columns, ops)
      == Success(VectorValue(AsTerms(BuiltTerms(labels, order, crossTermOrder), columns)))
  {
    var ts := BuiltTerms(labels, order, crossTermOrder);
    forall k | 0 <= k < |ts| ensures PlainTerm(ts[k], ops) && KnownTerm(ts[k], columns) {
      assert ts[k] in ts;
      BuiltTermRules(labels, order, crossTermOrder, ts[k]);
      SortedDistinct(Names(ts[k]));
    }
    RenderThenParse(ts, columns, ops);
  }

  /** Splitting the empty string gives one empty piece. */
  lemma SplitEmpty(sep: string)
    requires |sep| > 0
    ensures Split("", sep) == [""]
  {
    var r := Split("", sep);
    assert !Contains("", sep);
    assert Join(r, sep) == r[0];
  }

  /** An empty per-term string, such as the one after a trailing separator,
      reads as one factor with the empty label and power 1 when there are
      no columns, and as an unknown label when the columns lack "". */
  lemma EmptyPieceTerm(columns: Option<seq<string>>, ops: Operators)
    requires |ops.mul| > 0 && |ops.pow| > 0
    ensures columns.None? ==> ParseTerm("", columns, ops) == Success([Factor(Name(""), 1)])
    ensures columns.Some? && "" !in columns.value ==> ParseTerm("", columns, ops) == Failure(UnknownLabel(""))
  {
    SplitEmpty(ops.mul);
    SplitEmpty(ops.pow);
    assert Strip("") == "";
    assert !Contains("", ops.pow);
    assert FactorPower("", ops.pow) == Success(Finite(1));
    var rs := FactorResults([""], columns, ops.pow);
    FactorResultsAt([""], columns, ops.pow, 0);
    if columns.None? {
      var e := Entry(Name(""), Finite(1));
      assert FactorLabel("", columns, ops.pow) == Success(Name(""));
      assert rs[0] == Success(e);
      CollectAll(rs, [e]);
      assert Collapse([e]) == Put([], e.key, e.power);
      assert Keys(Collapse([e])) == [e.key];
      assert Collapse([e]) == [e];
      assert NonZero([e]) == [e];
      assert FactorEntries(Split("", ops.mul), columns, ops.pow) == Success([e]);
      assert ToFactors([e]) == [Factor(Name(""), 1)];
    }
  }

  /** An empty description is not rejected: without columns it parses to one
      term holding the empty label with power 1. */
  lemma EmptyDescriptionParse(ops: Operators)
    requires |ops.sep| > 0 && |ops.mul| > 0 && |ops.pow| > 0
    ensures Parse(Str(""), None, ops) == Success(VectorValue([[Factor(Name(""), 1)]]))
  {
    SplitEmpty(ops.sep);
    assert StripAll([""]) == [""];
    EmptyPieceTerm(None, ops);
    var rs := TermResults([""], None, ops);
    TermResultsAt([""], None, ops, 0);
    var t := [Factor(Name(""), 1)];
    CollectAll(rs, [t]);
    assert NonEmpty([t]) == [t];
    assert TotalFactors([t]) == 1;
  }

  /** Without labels nothing is built, and the description is empty. */
  lemma NoLabelsBuildNothing(order: int, crossTermOrder: int, ops: Operators)
    ensures BuiltTerms([], order, crossTermOrder) == []
    ensures Description([], order, crossTermOrder, ops) == ""
  {
    var ts := BuiltTerms([], order, crossTermOrder);
    forall t ensures multiset(ts)[t] == 0 {
      BuiltTermsExactly([], order, crossTermOrder, t);
      forall o: nat, c: seq<nat> | 1 <= o ensures !IsCombination(c, 0, 0, o) {
        NoCombinationInEmptyRange(c, 0, o);
      }
      assert t !in ts;
    }
    assert multiset(ts) == multiset{};
    assert Rendered(ts, ops) == [];
  }

  /** Why the round trip needs labels: with none, the builder's empty
      description parses to a term the builder did not build. */
  lemma NoLabelsRoundTrip(order: int, crossTermOrder: int, ops: Operators)
    requires |ops.sep| > 0 && |ops.mul| > 0 && |ops.pow| > 0
    ensures Parse(Str(Description([], order, crossTermOrder, ops)), None, ops)
      == Success(VectorValue([[Factor(Name(""), 1)]]))
    ensures AsTerms(BuiltTerms([], order, crossTermOrder), None) == []
  {
    NoLabelsBuildNothing(order, crossTermOrder, ops);
    EmptyDescriptionParse(ops);
  }

  /** With the default operators `+`, `*` and `^`, a non-empty description
      built from plain labels parses back to exactly its terms. */
  lemma DefaultBuildThenParse(labels: seq<string>, order: int, crossTermOrder: int,
                              columns: Option<seq<string>>)
    requires |BuiltTerms(labels, order, crossTermOrder)| > 0
    requires forall i | 0 <= i < |labels| :: PlainLabel(labels[i], DefaultOperators) && Known(labels[i], columns)
    ensures forall t | t in BuiltTerms(labels, order, crossTermOrder) :: KnownTerm(t, columns)
    ensures Parse(Str(Description(labels, order, crossTermOrder, DefaultOperators)), columns, DefaultOperators)
      == Success(VectorValue(AsTerms(BuiltTerms(labels, order, crossTermOrder), columns)))
  {
    BuildThenParse(labels, order, crossTermOrder, columns, DefaultOperators);
  }

  /** The cross term of two different labels holds both labels, each once. */
  lemma PairTerm(a: string, b: string)
    requires a != b
    ensures var t := TermOf([a, b], [0, 1]);
      |t| > 1 && forall i | 0 <= i < |t| :: t[i].count <= 1
  {
    var labels := [a, b];
    var c: seq<nat> := [0, 1];
    var t := TermOf(labels, c);
    assert Pick(labels, c) == [a, b];
    assert |t| > 1 by {
      TermOfContents(labels, c);
      assert a in Names(t) && b in Names(t);
    }
    forall i | 0 <= i < |t| ensures t[i].count <= 1 {
      TermOfContents(labels, c);
      assert multiset(Pick(labels, c)) == multiset{a, b};
      assert t[i].name in Names(t);
    }
  }

  /** So a cross order of 1 admits it. */
  lemma PairAdmissible(a: string, b: string)
    requires a != b
    ensures Admissible(TermOf([a, b], [0, 1]), 0, 1)
  {
    PairTerm(a, b);
    MaxCountAttained(TermOf([a, b], [0, 1]));
  }

  /** The round trip covers builds with `order <= 0`: for two different
      labels, `build_label_vector([a, b], 0, 1)` keeps no single-label term
      but builds the cross term `a*b`. */
  lemma CrossTermOnlyBuild(a: string, b: string)
    requires a != b
    ensures TermOf([a, b], [0, 1]) in BuiltTerms([a, b], 0, 1)
    ensures |BuiltTerms([a, b], 0, 1)| > 0
  {
    var c: seq<nat> := [0, 1];
    PairAdmissible(a, b);
    assert IsCombination(c, 0, 2, 2);
    BuiltTermsExactly([a, b], 0, 1, TermOf([a, b], c));
  }
}
