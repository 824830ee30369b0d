/** What `build_label_vector` promises about the terms it emits. */
module BuildProperties {
  import opened Wrappers
  import opened Text
  import opened Terms
  import opened Builder

  /** The kept terms are exactly the admissible ones. */
  lemma {:induction false} KeepMember(ts: seq<seq<Tally>>, order: int, cross: int, t: seq<Tally>)
    ensures t in Keep(ts, order, cross) <==> t in ts && Admissible(t, order, cross)
    decreases |ts|
  {
    if |ts| > 0 {
      var init := ts[..|ts| - 1];
      KeepMember(init, order, cross, t);
      assert ts == init + [ts[|ts| - 1]];
    }
  }

  /** The terms of some combinations are the terms of each of them. */
  lemma TermsOfMember(labels: seq<string>, combos: seq<seq<nat>>, t: seq<Tally>)
    requires ValidCombinations(labels, combos)
    ensures t in TermsOf(labels, combos) <==> exists k | 0 <= k < |combos| :: t == TermOf(labels, combos[k])
  {
    if t in TermsOf(labels, combos) {
      var k :| 0 <= k < |combos| && TermsOf(labels, combos)[k] == t;
    }
    if exists k | 0 <= k < |combos| :: t == TermOf(labels, combos[k]) {
      var k :| 0 <= k < |combos| && t == TermOf(labels, combos[k]);
      assert TermsOf(labels, combos)[k] == t;
    }
  }

  /** The terms of size `m` are the terms of the combinations of `m` positions. */
  lemma SizeTermsMember(labels: seq<string>, m: nat, t: seq<Tally>)
    ensures t in SizeTerms(labels, m) <==>
      exists c: seq<nat> | IsCombination(c, 0, |labels|, m) :: t == TermOf(labels, c)
  {
    var combos := Combinations(|labels|, m);
    CombinationsValid(labels, m);
    assert SizeTerms(labels, m) == TermsOf(labels, combos);
    TermsOfMember(labels, combos, t);
    if t in SizeTerms(labels, m) {
      var k :| 0 <= k < |combos| && t == TermOf(labels, combos[k]);
      CombinationsFromExactly(0, |labels|, m, combos[k]);
    }
    if exists c: seq<nat> | IsCombination(c, 0, |labels|, m) :: t == TermOf(labels, c) {
      var c: seq<nat> :| IsCombination(c, 0, |labels|, m) && t == TermOf(labels, c);
      CombinationsFromExactly(0, |labels|, m, c);
      var k :| 0 <= k < |combos| && combos[k] == c;
    }
  }

  /** A term up to size `m` is an admissible term of one of the sizes 1 to `m`. */
  lemma {:induction false} UpToSome(terms: nat -> seq<seq<Tally>>, m: nat, order: int, cross: int, t: seq<Tally>)
    requires t in UpTo(terms, m, order, cross)
    ensures exists o: nat | 1 <= o <= m :: t in terms(o) && Admissible(t, order, cross)
    decreases m
  {
    var before := UpTo(terms, m - 1, order, cross);
    KeepMember(terms(m), order, cross, t);
    if t in before {
      UpToSome(terms, m - 1, order, cross, t);
    }
  }

  /** An admissible term of size `o` is among the terms up to any size from `o` on. */
  lemma {:induction false} UpToHas(terms: nat -> seq<seq<Tally>>, m: nat, o: nat, order: int, cross: int, t: seq<Tally>)
    requires 1 <= o <= m && t in terms(o) && Admissible(t, order, cross)
    ensures t in UpTo(terms, m, order, cross)
    decreases m
  {
    if o < m {
      UpToHas(terms, m - 1, o, order, cross, t);
    } else {
      KeepMember(terms(m), order, cross, t);
    }
  }

  /** The terms up to size `m` are exactly the admissible terms of sizes 1 to `m`. */
  lemma UpToMember(terms: nat -> seq<seq<Tally>>, m: nat, order: int, cross: int, t: seq<Tally>)
    ensures t in UpTo(terms, m, order, cross) <==>
      exists o: nat | 1 <= o <= m :: t in terms(o) && Admissible(t, order, cross)
  {
    if t in UpTo(terms, m, order, cross) {
      UpToSome(terms, m, order, cross, t);
    }
    if exists o: nat | 1 <= o <= m :: t in terms(o) && Admissible(t, order, cross) {
      var o: nat :| 1 <= o <= m && t in terms(o) && Admissible(t, order, cross);
      UpToHas(terms, m, o, order, cross, t);
    }
  }

  /** The emitted terms are exactly the admissible tallies of the
      combinations of every size from 1 to `max(order, 1 + cross)`, where a
      negative cross-term order means `order - 1`. */
  lemma BuiltTermsExactly(labels: seq<string>, order: int, crossTermOrder: int, t: seq<Tally>)
    ensures var cross := EffectiveCrossOrder(order, crossTermOrder);
      t in BuiltTerms(labels, order, crossTermOrder) <==>
        exists o: nat, c: seq<nat> | 1 <= o <= LargestSize(order, cross) && IsCombination(c, 0, |labels|, o) ::
          t == TermOf(labels, c) && Admissible(t, order, cross)
  {
    var cross := EffectiveCrossOrder(order, crossTermOrder);
    var largest := LargestSize(order, cross);
    UpToMember(SizeTable(labels), if largest > 0 then largest else 0, order, cross, t);
    if t in BuiltTerms(labels, order, crossTermOrder) {
      var o: nat :| 1 <= o <= largest && t in SizeTable(labels)(o) && Admissible(t, order, cross);
      SizeTermsMember(labels, o, t);
    }
    if exists o: nat, c: seq<nat> | 1 <= o <= largest && IsCombination(c, 0, |labels|, o) ::
        t == TermOf(labels, c) && Admissible(t, order, cross) {
      var o: nat, c: seq<nat> :| 1 <= o <= largest && IsCombination(c, 0, |labels|, o)
        && t == TermOf(labels, c) && Admissible(t, order, cross);
      SizeTermsMember(labels, o, t);
      assert t in SizeTable(labels)(o);
    }
  }

  /** The total power of a term. */
  function Size(t: seq<Tally>): nat {
    if |t| == 0 then 0 else t[0].count + Size(t[1..])
  }

  /** Terms in order of total power. */
  predicate Ascending(ts: seq<seq<Tally>>) {
    forall i, j | 0 <= i < j < |ts| :: Size(ts[i]) <= Size(ts[j])
  }

  lemma {:induction false} TalliesNone(keys: seq<string>)
    ensures Size(Tallies(keys, [])) == 0
    decreases |keys|
  {
    if |keys| > 0 {
      TalliesNone(keys[1..]);
      assert Tallies(keys, [])[1..] == Tallies(keys[1..], []);
    }
  }

  /** One more name adds one to the tally of its key, if it has one. */
  lemma {:induction false} TalliesSnoc(keys: seq<string>, names: seq<string>, x: string)
    requires Distinct(keys)
    ensures Size(Tallies(keys, names + [x])) == Size(Tallies(keys, names)) + (if x in keys then 1 else 0)
    decreases |keys|
  {
    if |keys| > 0 {
      var rest := keys[1..];
      assert Distinct(rest) by {
        forall i, j | 0 <= i < j < |rest| ensures rest[i] != rest[j] {
          assert rest[i] == keys[i + 1] && rest[j] == keys[j + 1];
        }
      }
      TalliesSnoc(rest, names, x);
      assert Tallies(keys, names + [x])[1..] == Tallies(rest, names + [x]);
      assert Tallies(keys, names)[1..] == Tallies(rest, names);
      assert multiset(names + [x]) == multiset(names) + multiset{x};
      if x == keys[0] {
        assert x !in rest by {
          forall i | 0 <= i < |rest| ensures rest[i] != x {
            assert rest[i] == keys[i + 1];
          }
        }
      }
    }
  }

  /** Tallying every name under distinct keys that cover them counts each name once. */
  lemma {:induction false} TalliesCount(keys: seq<string>, names: seq<string>)
    requires Distinct(keys) && forall x | x in names :: x in keys
    ensures Size(Tallies(keys, names)) == |names|
    decreases |names|
  {
    if |names| == 0 {
      TalliesNone(keys);
    } else {
      var init := names[..|names| - 1];
      TalliesCount(keys, init);
      assert init + [names[|names| - 1]] == names;
      TalliesSnoc(keys, init, names[|names| - 1]);
    }
  }

  /** A strictly sorted list has no repeats. */
  lemma SortedDistinct(s: seq<string>)
    requires StrictlySorted(s)
    ensures Distinct(s)
  {
    forall i, j | 0 <= i < j < |s| ensures s[i] != s[j] {
      if s[i] == s[j] {
        BelowIrreflexive(s[i]);
      }
    }
  }

  /** The powers of the term of a combination add up to its size. */
  lemma TermOfSize(labels: seq<string>, c: seq<nat>)
    requires forall i | 0 <= i < |c| :: c[i] < |labels|
    ensures Size(TermOf(labels, c)) == |c|
  {
    var names := Pick(labels, c);
    var keys := Sort(Dedup(names));
    DedupContents(names);
    SortSorted(Dedup(names));
    SortedDistinct(keys);
    forall x | x in names ensures x in keys {
      assert x in Dedup(names);
      assert x in multiset(Dedup(names));
    }
    TalliesCount(keys, names);
  }

  /** Every name in the term of a combination is one of the labels. */
  lemma TermNamesAreLabels(labels: seq<string>, c: seq<nat>)
    requires forall i | 0 <= i < |c| :: c[i] < |labels|
    ensures forall i | 0 <= i < |TermOf(labels, c)| :: TermOf(labels, c)[i].name in labels
  {
    var t := TermOf(labels, c);
    TermOfContents(labels, c);
    forall i | 0 <= i < |t| ensures t[i].name in labels {
      assert t[i].name in Names(t);
      var k :| 0 <= k < |c| && Pick(labels, c)[k] == t[i].name;
    }
  }

  /** The admissible term of a combination of size `o` follows the rules of
      `build_label_vector`. */
  lemma CombinationTermRules(labels: seq<string>, c: seq<nat>, order: int, cross: int, t: seq<Tally>)
    requires forall i | 0 <= i < |c| :: c[i] < |labels|
    requires t == TermOf(labels, c) && Admissible(t, order, cross)
    ensures |t| >= 1 && StrictlySorted(Names(t))
    ensures forall i | 0 <= i < |t| :: t[i].count >= 1
    ensures |t| == 1 ==> t[0].count <= order
    ensures |t| > 1 ==> forall i | 0 <= i < |t| :: t[i].count <= cross
    ensures Size(t) == |c|
    ensures forall i | 0 <= i < |t| :: t[i].name in labels
  {
    TermOfContents(labels, c);
    TermNamesAreLabels(labels, c);
    TermOfSize(labels, c);
    MaxCountBounds(t);
  }

  /** Every emitted term follows the rules of `build_label_vector`: it has
      at least one factor; its labels are distinct and in string order; each
      power is at least 1; a single label's power is at most `order`; every
      power in a cross term is at most the (effective) cross-term order; its
      total power is between 1 and `max(order, 1 + cross)`; and every name
      in it is one of the labels. */
  lemma BuiltTermRules(labels: seq<string>, order: int, crossTermOrder: int, t: seq<Tally>)
    requires t in BuiltTerms(labels, order, crossTermOrder)
    ensures |t| >= 1 && StrictlySorted(Names(t))
    ensures forall i | 0 <= i < |t| :: t[i].count >= 1
    ensures |t| == 1 ==> t[0].count <= order
    ensures |t| > 1 ==> forall i | 0 <= i < |t| :: t[i].count <= EffectiveCrossOrder(order, crossTermOrder)
    ensures 1 <= Size(t) <= LargestSize(order, EffectiveCrossOrder(order, crossTermOrder))
    ensures forall i | 0 <= i < |t| :: t[i].name in labels
  {
    var cross := EffectiveCrossOrder(order, crossTermOrder);
    BuiltTermsExactly(labels, order, crossTermOrder, t);
    var o: nat, c: seq<nat> :| 1 <= o <= LargestSize(order, cross) && IsCombination(c, 0, |labels|, o)
      && t == TermOf(labels, c) && Admissible(t, order, cross);
    CombinationTermRules(labels, c, order, cross, t);
  }

  /** Every term of size `m` has total power `m`. */
  lemma SizeTermsSize(labels: seq<string>, m: nat, t: seq<Tally>)
    requires t in SizeTerms(labels, m)
    ensures Size(t) == m
  {
    SizeTermsMember(labels, m, t);
    var c: seq<nat> :| IsCombination(c, 0, |labels|, m) && t == TermOf(labels, c);
    TermOfSize(labels, c);
  }

  /** When `terms(o)` holds terms of total power `o`, the terms up to size
      `m` come in order of total power. */
  lemma {:induction false} UpToSizes(terms: nat -> seq<seq<Tally>>, m: nat, order: int, cross: int)
    requires forall o: nat, t | t in terms(o) :: Size(t) == o
    ensures forall t | t in UpTo(terms, m, order, cross) :: 1 <= Size(t) <= m
    ensures Ascending(UpTo(terms, m, order, cross))
    decreases m
  {
    forall t | t in UpTo(terms, m, order, cross) ensures 1 <= Size(t) <= m {
      UpToSome(terms, m, order, cross, t);
    }
    if m > 0 {
      var ts := UpTo(terms, m, order, cross);
      var before := UpTo(terms, m - 1, order, cross);
      var kept := Keep(terms(m), order, cross);
      UpToSizes(terms, m - 1, order, cross);
      assert ts == before + kept;
      forall t | t in kept ensures Size(t) == m {
        KeepMember(terms(m), order, cross, t);
      }
      AscendingAppend(before, kept, m);
    }
  }

  /** Terms of size `m` appended after ascending terms of size at most `m`
      keep the order ascending. */
  lemma AscendingAppend(before: seq<seq<Tally>>, kept: seq<seq<Tally>>, m: int)
    requires Ascending(before) && forall t | t in before :: Size(t) <= m
    requires forall t | t in kept :: Size(t) == m
    ensures Ascending(before + kept)
  {
    var ts := before + kept;
    forall i, j | 0 <= i < j < |ts| ensures Size(ts[i]) <= Size(ts[j]) {
      if j >= |before| {
        assert ts[j] == kept[j - |before|] && kept[j - |before|] in kept;
        if i >= |before| {
          assert ts[i] == kept[i - |before|] && kept[i - |before|] in kept;
        } else {
          assert ts[i] == before[i] && before[i] in before;
        }
      } else {
        assert ts[i] == before[i] && ts[j] == before[j];
      }
    }
  }

  /** The terms come in order of total power: linear terms first, then the
      quadratic ones, and so on. */
  lemma SizesAscending(labels: seq<string>, order: int, crossTermOrder: int)
    ensures Ascending(BuiltTerms(labels, order, crossTermOrder))
  {
    var cross := EffectiveCrossOrder(order, crossTermOrder);
    var largest := LargestSize(order, cross);
    forall o: nat, t | t in SizeTable(labels)(o) ensures Size(t) == o {
      assert SizeTable(labels)(o) == SizeTerms(labels, o);
      SizeTermsSize(labels, o, t);
    }
    UpToSizes(SizeTable(labels), if largest > 0 then largest else 0, order, cross);
  }

  /** The combinations of one position are the positions themselves, in order. */
  lemma {:induction false} SinglePositions(lo: nat, n: nat)
    requires lo <= n
    ensures CombinationsFrom(lo, n, 1) == seq(n - lo, i requires 0 <= i < n - lo => [lo + i])
    decreases n - lo
  {
    if lo < n {
      SinglePositions(lo + 1, n);
      assert CombinationsFrom(lo, n, 0) == [[]];
      assert PrependAll(lo, [[]])[0] == [lo] + [];
      assert [lo] + [] == [lo];
    }
  }

  /** The term of a single position is its label, to the power 1. */
  lemma SingleTerm(labels: seq<string>, i: nat)
    requires i < |labels|
    ensures TermOf(labels, [i]) == [Tally(labels[i], 1)]
  {
    var x := labels[i];
    assert Pick(labels, [i]) == [x];
    assert Dedup([x]) == [x] by {
      assert [x][..0] == [];
    }
    assert Sort([x]) == [x] by {
      assert [x][1..] == [];
    }
    assert multiset([x])[x] == 1;
  }

  /** The terms of size 1 are the labels, each to the power 1. */
  function Linear(labels: seq<string>): seq<seq<Tally>> {
    seq(|labels|, i requires 0 <= i < |labels| => [Tally(labels[i], 1)])
  }

  lemma SizeOneTerms(labels: seq<string>)
    ensures SizeTerms(labels, 1) == Linear(labels)
  {
    SinglePositions(0, |labels|);
    forall i | 0 <= i < |labels| ensures SizeTerms(labels, 1)[i] == [Tally(labels[i], 1)] {
      assert Combinations(|labels|, 1)[i] == [i];
      SingleTerm(labels, i);
    }
  }

  /** Keeping every term of a list whose terms are all admissible changes nothing. */
  lemma {:induction false} KeepAll(ts: seq<seq<Tally>>, order: int, cross: int)
    requires forall t | t in ts :: Admissible(t, order, cross)
    ensures Keep(ts, order, cross) == ts
    decreases |ts|
  {
    if |ts| > 0 {
      var init := ts[..|ts| - 1];
      assert forall t | t in init :: t in ts;
      KeepAll(init, order, cross);
      assert ts[|ts| - 1] in ts;
      assert init + [ts[|ts| - 1]] == ts;
    }
  }

  /** The terms up to a size start with the terms up to any smaller size. */
  lemma {:induction false} UpToPrefix(terms: nat -> seq<seq<Tally>>, k: nat, m: nat, order: int, cross: int)
    requires k <= m
    ensures UpTo(terms, k, order, cross) <= UpTo(terms, m, order, cross)
    decreases m
  {
    if k < m {
      UpToPrefix(terms, k, m - 1, order, cross);
    }
  }

  /** With `order >= 1`, the description starts with every label on its
      own, in the order given. */
  lemma LinearTermsFirst(labels: seq<string>, order: int, crossTermOrder: int)
    requires order >= 1
    ensures Linear(labels) <= BuiltTerms(labels, order, crossTermOrder)
  {
    var cross := EffectiveCrossOrder(order, crossTermOrder);
    var largest := LargestSize(order, cross);
    SizeOneTerms(labels);
    forall t | t in Linear(labels) ensures Admissible(t, order, cross) {
      var i :| 0 <= i < |labels| && Linear(labels)[i] == t;
      assert MaxCount(t) == 1;
    }
    KeepAll(Linear(labels), order, cross);
    assert SizeTable(labels)(1) == Linear(labels);
    assert UpTo(SizeTable(labels), 1, order, cross) == Linear(labels);
    UpToPrefix(SizeTable(labels), 1, largest, order, cross);
  }

  /** The source as written never emits a term. It either raises
      `NameError` or, when the largest size is below 1, returns the empty
      description, which is then also what the corrected builder returns.
      With `order >= 1` it always raises, although the corrected builder
      then emits at least every label. */
  lemma AsWrittenNeverBuilds(labels: seq<string>, order: int, crossTermOrder: int, ops: Operators)
    ensures BuildAsWritten(labels, order, crossTermOrder, ops).Success? ==>
      BuiltTerms(labels, order, crossTermOrder) == []
      && BuildAsWritten(labels, order, crossTermOrder, ops).value == Description(labels, order, crossTermOrder, ops)
    ensures order >= 1 ==>
      BuildAsWritten(labels, order, crossTermOrder, ops) == Failure(NameError("combinations_with_replacement"))
      && |BuiltTerms(labels, order, crossTermOrder)| >= |labels|
  {
    if order >= 1 {
      LinearTermsFirst(labels, order, crossTermOrder);
    }
  }
}
