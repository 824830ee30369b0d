/** `build_label_vector`: every product of the labels up to a given order,
    written out as a description string that the parser reads back. */
module Builder {
  import opened Wrappers
  import opened Text
  import opened Terms

  /** `cross_term_order`, with a negative value replaced by `order - 1`. */
  function EffectiveCrossOrder(order: int, crossTermOrder: int): int {
    if 0 > crossTermOrder then order - 1 else crossTermOrder
  }

  /** `max(order, 1 + cross_term_order)`: the largest combination size. */
  function LargestSize(order: int, cross: int): int {
    if order >= 1 + cross then order else 1 + cross
  }

  /** `[x] + c` for each `c` of `cs`. */
  function PrependAll(x: nat, cs: seq<seq<nat>>): (r: seq<seq<nat>>)
    ensures |r| == |cs|
  {
    seq(|cs|, i requires 0 <= i < |cs| => [x] + cs[i])
  }

  /** `combinations_with_replacement` over the positions `lo .. n - 1`:
      the non-decreasing tuples of `size` positions, in lexicographic
      order (all tuples starting with `lo` first). */
  function CombinationsFrom(lo: nat, n: nat, size: nat): seq<seq<nat>>
    requires lo <= n
    decreases size, n - lo
  {
    if size == 0 then [[]]
    else if lo == n then []
    else PrependAll(lo, CombinationsFrom(lo, n, size - 1)) + CombinationsFrom(lo + 1, n, size)
  }

  /** `combinations_with_replacement(range(n), size)` */
  function Combinations(n: nat, size: nat): seq<seq<nat>> {
    CombinationsFrom(0, n, size)
  }

  predicate NonDecreasing(c: seq<nat>) {
    forall i, j | 0 <= i < j < |c| :: c[i] <= c[j]
  }

  /** `c` is a non-decreasing tuple of `size` positions from `lo .. n - 1`. */
  predicate IsCombination(c: seq<nat>, lo: nat, n: nat, size: nat) {
    |c| == size && NonDecreasing(c) && forall i | 0 <= i < |c| :: lo <= c[i] < n
  }

  /** The members of `PrependAll(x, cs)` are the members of `cs` with `x` in front. */
  lemma PrependAllMember(x: nat, cs: seq<seq<nat>>, c: seq<nat>)
    ensures c in PrependAll(x, cs) <==> |c| > 0 && c[0] == x && c[1..] in cs
  {
    if c in PrependAll(x, cs) {
      var i :| 0 <= i < |cs| && PrependAll(x, cs)[i] == c;
      assert c[1..] == cs[i];
    }
    if |c| > 0 && c[0] == x && c[1..] in cs {
      var i :| 0 <= i < |cs| && cs[i] == c[1..];
      assert PrependAll(x, cs)[i] == c;
    }
  }

  /** A combination starting at `lo` is `lo` followed by a combination one shorter. */
  lemma CombinationHead(c: seq<nat>, lo: nat, n: nat, size: nat)
    requires lo < n && size > 0 && |c| > 0 && c[0] == lo
    ensures IsCombination(c, lo, n, size) <==> IsCombination(c[1..], lo, n, size - 1)
    ensures !IsCombination(c, lo + 1, n, size)
  {
    if IsCombination(c[1..], lo, n, size - 1) {
      forall a, b | 0 <= a < b < |c| ensures c[a] <= c[b] {
        assert c[b] == c[1..][b - 1];
        if a > 0 {
          assert c[a] == c[1..][a - 1];
        }
      }
      forall i | 0 <= i < |c| ensures lo <= c[i] < n {
        if i > 0 {
          assert c[i] == c[1..][i - 1];
        }
      }
    }
  }

  /** No position lies in an empty range. */
  lemma NoCombinationInEmptyRange(c: seq<nat>, lo: nat, size: nat)
    requires size > 0
    ensures !IsCombination(c, lo, lo, size)
  {
    if |c| > 0 {
      assert !(lo <= c[0] < lo);
    }
  }

  /** A combination not starting at `lo` uses only positions above `lo`. */
  lemma CombinationAbove(c: seq<nat>, lo: nat, n: nat, size: nat)
    requires size > 0 && |c| > 0 && c[0] != lo
    ensures IsCombination(c, lo, n, size) <==> IsCombination(c, lo + 1, n, size)
  {
    if IsCombination(c, lo, n, size) {
      assert forall i | 0 <= i < |c| :: c[0] <= c[i];
    }
  }

  /** The combinations are exactly the non-decreasing tuples of positions. */
  lemma {:induction false} CombinationsFromExactly(lo: nat, n: nat, size: nat, c: seq<nat>)
    requires lo <= n
    ensures c in CombinationsFrom(lo, n, size) <==> IsCombination(c, lo, n, size)
    decreases size, n - lo
  {
    if size == 0 {
      assert CombinationsFrom(lo, n, size) == [[]];
    } else if lo == n {
      assert CombinationsFrom(lo, n, size) == [];
      NoCombinationInEmptyRange(c, lo, size);
    } else {
      var first := CombinationsFrom(lo, n, size - 1);
      var rest := CombinationsFrom(lo + 1, n, size);
      assert CombinationsFrom(lo, n, size) == PrependAll(lo, first) + rest;
      CombinationsFromExactly(lo + 1, n, size, c);
      PrependAllMember(lo, first, c);
      if |c| > 0 {
        if c[0] == lo {
          CombinationsFromExactly(lo, n, size - 1, c[1..]);
          CombinationHead(c, lo, n, size);
        } else {
          CombinationAbove(c, lo, n, size);
        }
      }
    }
  }

  /** Python's order on tuples of positions: the first position where they
      differ decides, and a proper prefix comes first. */
  predicate LexBefore(a: seq<nat>, b: seq<nat>)
    decreases |a|
  {
    |b| > 0 && (|a| == 0 || a[0] < b[0] || (a[0] == b[0] && LexBefore(a[1..], b[1..])))
  }

  /** Each tuple comes before every later one. */
  predicate LexSorted(cs: seq<seq<nat>>) {
    forall i, j | 0 <= i < j < |cs| :: LexBefore(cs[i], cs[j])
  }

  /** Putting the same position in front keeps the order. */
  lemma PrependAllSorted(x: nat, cs: seq<seq<nat>>)
    requires LexSorted(cs)
    ensures LexSorted(PrependAll(x, cs))
  {
    var r := PrependAll(x, cs);
    forall i, j | 0 <= i < j < |r| ensures LexBefore(r[i], r[j]) {
      assert r[i][1..] == cs[i] && r[j][1..] == cs[j];
    }
  }

  /** Two ordered lists, every tuple of the first before every tuple of the
      second, make an ordered list. */
  lemma LexSortedAppend(xs: seq<seq<nat>>, ys: seq<seq<nat>>)
    requires LexSorted(xs) && LexSorted(ys)
    requires forall a, b | a in xs && b in ys :: LexBefore(a, b)
    ensures LexSorted(xs + ys)
  {
    var r := xs + ys;
    forall i, j | 0 <= i < j < |r| ensures LexBefore(r[i], r[j]) {
      if j < |xs| {
        assert r[i] == xs[i] && r[j] == xs[j];
      } else if i >= |xs| {
        assert r[i] == ys[i - |xs|] && r[j] == ys[j - |xs|];
      } else {
        assert r[i] == xs[i] && r[j] == ys[j - |xs|];
        assert xs[i] in xs && ys[j - |xs|] in ys;
      }
    }
  }

  /** The combinations come in increasing lexicographic order of positions,
      as `itertools.combinations_with_replacement` emits them. */
  lemma {:induction false} CombinationsFromSorted(lo: nat, n: nat, size: nat)
    requires lo <= n
    ensures LexSorted(CombinationsFrom(lo, n, size))
    decreases size, n - lo
  {
    if size > 0 && lo < n {
      var inner := CombinationsFrom(lo, n, size - 1);
      var first := PrependAll(lo, inner);
      var rest := CombinationsFrom(lo + 1, n, size);
      assert CombinationsFrom(lo, n, size) == first + rest;
      CombinationsFromSorted(lo, n, size - 1);
      CombinationsFromSorted(lo + 1, n, size);
      PrependAllSorted(lo, inner);
      forall a, b | a in first && b in rest ensures LexBefore(a, b) {
        PrependAllMember(lo, inner, a);
        CombinationsFromExactly(lo + 1, n, size, b);
      }
      LexSortedAppend(first, rest);
    }
  }

  /** No combination is produced twice. */
  lemma {:induction false} CombinationsFromDistinct(lo: nat, n: nat, size: nat)
    requires lo <= n
    ensures Distinct(CombinationsFrom(lo, n, size))
    decreases size, n - lo
  {
    if size > 0 && lo < n {
      var first := PrependAll(lo, CombinationsFrom(lo, n, size - 1));
      var rest := CombinationsFrom(lo + 1, n, size);
      CombinationsFromDistinct(lo, n, size - 1);
      CombinationsFromDistinct(lo + 1, n, size);
      var all := first + rest;
      forall i, j | 0 <= i < j < |all| ensures all[i] != all[j] {
        if j < |first| {
          assert all[i][1..] == CombinationsFrom(lo, n, size - 1)[i];
          assert all[j][1..] == CombinationsFrom(lo, n, size - 1)[j];
        } else if i < |first| {
          assert all[i][0] == lo;
          assert all[j] in rest;
          CombinationsFromExactly(lo + 1, n, size, all[j]);
        }
      }
    }
  }

  /** The labels a combination of positions picks. */
  function Pick(labels: seq<string>, c: seq<nat>): (names: seq<string>)
    requires forall i | 0 <= i < |c| :: c[i] < |labels|
    ensures |names| == |c|
  {
    seq(|c|, i requires 0 <= i < |c| => labels[c[i]])
  }

  /** Python's `a < b` on strings: the first differing character decides,
      and a proper prefix comes first. */
  predicate Below(a: string, b: string)
    decreases |a|
  {
    if |a| == 0 then |b| > 0
    else if |b| == 0 then false
    else if a[0] == b[0] then Below(a[1..], b[1..])
    else a[0] < b[0]
  }

  lemma {:induction false} BelowIrreflexive(a: string)
    ensures !Below(a, a)
    decreases |a|
  {
    if |a| > 0 {
      BelowIrreflexive(a[1..]);
    }
  }

  /** Two different strings are ordered one way or the other. */
  lemma {:induction false} BelowTotal(a: string, b: string)
    requires a != b
    ensures Below(a, b) || Below(b, a)
    decreases |a|
  {
    if |a| > 0 && |b| > 0 && a[0] == b[0] {
      assert a == [a[0]] + a[1..] && b == [b[0]] + b[1..];
      BelowTotal(a[1..], b[1..]);
    }
  }

  lemma {:induction false} BelowAsymmetric(a: string, b: string)
    requires Below(a, b)
    ensures !Below(b, a)
    decreases |a|
  {
    if |a| > 0 && |b| > 0 && a[0] == b[0] {
      BelowAsymmetric(a[1..], b[1..]);
    }
  }

  lemma {:induction false} BelowTransitive(a: string, b: string, c: string)
    requires Below(a, b) && Below(b, c)
    ensures Below(a, c)
    decreases |a|
  {
    if |a| > 0 && a[0] == b[0] && b[0] == c[0] {
      BelowTransitive(a[1..], b[1..], c[1..]);
    }
  }

  /** Strictly increasing in Python's string order. */
  predicate StrictlySorted(s: seq<string>) {
    forall i, j | 0 <= i < j < |s| :: Below(s[i], s[j])
  }

  /** `x` put into `s` before the first element it is not above. */
  function Insert(x: string, s: seq<string>): (r: seq<string>)
    ensures multiset(r) == multiset(s) + multiset{x}
    decreases |s|
  {
    if |s| == 0 then [x]
    else if Below(s[0], x) then
      assert s == [s[0]] + s[1..];
      [s[0]] + Insert(x, s[1..])
    else [x] + s
  }

  /** What is below every element and below `x` is below every element
      after inserting `x`. */
  lemma InsertAbove(y: string, x: string, s: seq<string>)
    requires Below(y, x) && forall k | 0 <= k < |s| :: Below(y, s[k])
    ensures forall k | 0 <= k < |Insert(x, s)| :: Below(y, Insert(x, s)[k])
  {
    var r := Insert(x, s);
    forall k | 0 <= k < |r| ensures Below(y, r[k]) {
      assert r[k] in multiset(r);
      if r[k] != x {
        assert r[k] in multiset(s);
        var m :| 0 <= m < |s| && s[m] == r[k];
      }
    }
  }

  /** A string below every element of a sorted list, put in front, keeps it sorted. */
  lemma SortedCons(y: string, r: seq<string>)
    requires StrictlySorted(r) && forall k | 0 <= k < |r| :: Below(y, r[k])
    ensures StrictlySorted([y] + r)
  {
    var t := [y] + r;
    forall i, j | 0 <= i < j < |t| ensures Below(t[i], t[j]) {
      assert t[j] == r[j - 1];
      if i > 0 {
        assert t[i] == r[i - 1];
      }
    }
  }

  /** Inserting a new string into a sorted list keeps it sorted. */
  lemma {:induction false} InsertSorted(x: string, s: seq<string>)
    requires StrictlySorted(s) && x !in s
    ensures StrictlySorted(Insert(x, s))
    decreases |s|
  {
    if |s| > 0 {
      if Below(s[0], x) {
        assert StrictlySorted(s[1..]) by {
          forall i, j | 0 <= i < j < |s[1..]| ensures Below(s[1..][i], s[1..][j]) {
            assert s[1..][i] == s[i + 1] && s[1..][j] == s[j + 1];
          }
        }
        InsertSorted(x, s[1..]);
        InsertAbove(s[0], x, s[1..]);
        SortedCons(s[0], Insert(x, s[1..]));
      } else {
        BelowTotal(x, s[0]);
        forall k | 0 < k < |s| ensures Below(x, s[k]) {
          BelowTransitive(x, s[0], s[k]);
        }
        SortedCons(x, s);
      }
    }
  }

  /** `sorted(xs)` */
  function Sort(xs: seq<string>): (r: seq<string>)
    ensures multiset(r) == multiset(xs)
    decreases |xs|
  {
    if |xs| == 0 then []
    else
      assert xs == [xs[0]] + xs[1..];
      Insert(xs[0], Sort(xs[1..]))
  }

  /** Sorting distinct strings gives them in strictly increasing order. */
  lemma {:induction false} SortSorted(xs: seq<string>)
    requires Distinct(xs)
    ensures StrictlySorted(Sort(xs))
    decreases |xs|
  {
    if |xs| > 0 {
      var rest := xs[1..];
      assert Distinct(rest) by {
        forall i, j | 0 <= i < j < |rest| ensures rest[i] != rest[j] {
          assert rest[i] == xs[i + 1] && rest[j] == xs[j + 1];
        }
      }
      SortSorted(rest);
      assert xs[0] !in rest by {
        forall m | 0 <= m < |rest| ensures rest[m] != xs[0] {
          assert rest[m] == xs[m + 1];
        }
      }
      assert xs[0] !in Sort(rest) by {
        assert xs[0] !in multiset(rest);
      }
      InsertSorted(xs[0], Sort(rest));
    }
  }

  /** One factor of a built term: a label and how often the combination
      picked it. */
  datatype Tally = Tally(name: string, count: nat)

  /** `Counter` of the picked labels, rebuilt with its keys sorted: each
      distinct label once, in string order, with its multiplicity. The
      keys of a `Counter` are the picked labels without repeats, which is
      what `Dedup` gives. */
  function TermOf(labels: seq<string>, c: seq<nat>): seq<Tally>
    requires forall i | 0 <= i < |c| :: c[i] < |labels|
  {
    var names := Pick(labels, c);
    Tallies(Sort(Dedup(names)), names)
  }

  /** Each of `keys` with the number of times it occurs in `names`. */
  function Tallies(keys: seq<string>, names: seq<string>): (t: seq<Tally>)
    ensures |t| == |keys|
  {
    seq(|keys|, i requires 0 <= i < |keys| => Tally(keys[i], multiset(names)[keys[i]]))
  }

  function Names(t: seq<Tally>): seq<string> {
    seq(|t|, i requires 0 <= i < |t| => t[i].name)
  }

  /** A built term names each picked label exactly once, in strictly
      increasing string order, with its multiplicity, which is at least 1. */
  lemma TermOfContents(labels: seq<string>, c: seq<nat>)
    requires forall i | 0 <= i < |c| :: c[i] < |labels|
    ensures var t := TermOf(labels, c);
      && StrictlySorted(Names(t))
      && (forall x :: x in Names(t) <==> x in Pick(labels, c))
      && (forall i | 0 <= i < |t| :: t[i].count == multiset(Pick(labels, c))[t[i].name] && t[i].count >= 1)
  {
    var names := Pick(labels, c);
    var keys := Sort(Dedup(names));
    var t := Tallies(keys, names);
    DedupContents(names);
    SortSorted(Dedup(names));
    assert Names(t) == keys;
    forall x ensures x in keys <==> x in names {
      assert x in keys <==> x in multiset(keys);
      assert x in Dedup(names) <==> x in multiset(Dedup(names));
    }
    forall i | 0 <= i < |t| ensures t[i].count >= 1 {
      assert keys[i] in keys;
    }
  }

  /** `max(t.values())`; 0 for no factor. */
  function MaxCount(t: seq<Tally>): nat {
    if |t| == 0 then 0
    else
      var rest := MaxCount(t[1..]);
      if t[0].count >= rest then t[0].count else rest
  }

  /** No count is above the maximum. */
  lemma {:induction false} MaxCountBounds(t: seq<Tally>)
    ensures forall i | 0 <= i < |t| :: t[i].count <= MaxCount(t)
  {
    if |t| > 0 {
      MaxCountBounds(t[1..]);
      assert forall i | 1 <= i < |t| :: t[i] == t[1..][i - 1];
    }
  }

  /** The maximum is one of the counts. */
  lemma {:induction false} MaxCountAttained(t: seq<Tally>)
    requires |t| > 0
    ensures exists i | 0 <= i < |t| :: t[i].count == MaxCount(t)
  {
    if |t| > 1 && t[0].count < MaxCount(t[1..]) {
      MaxCountAttained(t[1..]);
      var k :| 0 <= k < |t[1..]| && t[1..][k].count == MaxCount(t[1..]);
      assert t[k + 1].count == MaxCount(t);
    } else {
      assert t[0].count == MaxCount(t);
    }
  }

  /** The builder keeps a single-label term up to `order` and a cross term
      whose every power is at most `cross`. */
  predicate Admissible(t: seq<Tally>, order: int, cross: int) {
    (|t| == 1 && order >= MaxCount(t)) || (|t| > 1 && cross >= MaxCount(t))
  }

  /** `pow.join([l])` or `pow.join([l, str(p)])`: the bare label for power 1. */
  function RenderFactor(f: Tally, pow: string): string {
    if f.count > 1 then f.name + pow + IntToDecimal(f.count) else f.name
  }

  function RenderFactors(t: seq<Tally>, pow: string): (r: seq<string>)
    ensures |r| == |t|
  {
    seq(|t|, i requires 0 <= i < |t| => RenderFactor(t[i], pow))
  }

  /** `mul.join(c)` */
  function RenderTerm(t: seq<Tally>, ops: Operators): string {
    Join(RenderFactors(t, ops.pow), ops.mul)
  }

  function Rendered(ts: seq<seq<Tally>>, ops: Operators): (r: seq<string>)
    ensures |r| == |ts|
  {
    seq(|ts|, i requires 0 <= i < |ts| => RenderTerm(ts[i], ops))
  }

  predicate ValidCombinations(labels: seq<string>, combos: seq<seq<nat>>) {
    forall k, i | 0 <= k < |combos| && 0 <= i < |combos[k]| :: combos[k][i] < |labels|
  }

  /** `map(Counter, combos)`, each rebuilt with its keys sorted. */
  function TermsOf(labels: seq<string>, combos: seq<seq<nat>>): (ts: seq<seq<Tally>>)
    requires ValidCombinations(labels, combos)
    ensures |ts| == |combos|
  {
    seq(|combos|, k requires 0 <= k < |combos| => TermOf(labels, combos[k]))
  }

  /** The admissible terms of `ts`, in order. */
  function Keep(ts: seq<seq<Tally>>, order: int, cross: int): seq<seq<Tally>>
    decreases |ts|
  {
    if |ts| == 0 then []
    else
      var t := ts[|ts| - 1];
      Keep(ts[..|ts| - 1], order, cross) + (if Admissible(t, order, cross) then [t] else [])
  }

  lemma ValidPrefix(labels: seq<string>, combos: seq<seq<nat>>, i: nat)
    requires ValidCombinations(labels, combos) && i <= |combos|
    ensures ValidCombinations(labels, combos[..i])
  {
    forall k, j | 0 <= k < i && 0 <= j < |combos[..i][k]| ensures combos[..i][k][j] < |labels| {
      assert combos[..i][k] == combos[k];
    }
  }

  /** Taking one more combination keeps its term when it is admissible. */
  lemma KeepSnoc(labels: seq<string>, combos: seq<seq<nat>>, i: nat, order: int, cross: int)
    requires ValidCombinations(labels, combos) && i < |combos|
    ensures ValidCombinations(labels, combos[..i]) && ValidCombinations(labels, combos[..i + 1])
    ensures var t := TermOf(labels, combos[i]);
      Keep(TermsOf(labels, combos[..i + 1]), order, cross)
        == Keep(TermsOf(labels, combos[..i]), order, cross) + (if Admissible(t, order, cross) then [t] else [])
  {
    ValidPrefix(labels, combos, i);
    ValidPrefix(labels, combos, i + 1);
    assert TermsOf(labels, combos[..i + 1])[..i] == TermsOf(labels, combos[..i]);
  }

  lemma RenderedAppend(ts: seq<seq<Tally>>, us: seq<seq<Tally>>, ops: Operators)
    ensures Rendered(ts + us, ops) == Rendered(ts, ops) + Rendered(us, ops)
  {
  }

  lemma RenderedSnoc(ts: seq<seq<Tally>>, t: seq<Tally>, ops: Operators)
    ensures Rendered(ts + [t], ops) == Rendered(ts, ops) + [RenderTerm(t, ops)]
  {
  }

  lemma CombinationsValid(labels: seq<string>, size: nat)
    ensures ValidCombinations(labels, Combinations(|labels|, size))
  {
    forall k, i | 0 <= k < |Combinations(|labels|, size)| && 0 <= i < |Combinations(|labels|, size)[k]|
      ensures Combinations(|labels|, size)[k][i] < |labels|
    {
      CombinationsFromExactly(0, |labels|, size, Combinations(|labels|, size)[k]);
    }
  }

  /** The terms of every combination of `m` labels, in the order
      `combinations_with_replacement` gives them. */
  function SizeTerms(labels: seq<string>, m: nat): seq<seq<Tally>> {
    CombinationsValid(labels, m);
    TermsOf(labels, Combinations(|labels|, m))
  }

  /** The terms of each size, as one table. */
  function SizeTable(labels: seq<string>): nat -> seq<seq<Tally>> {
    (m: nat) => SizeTerms(labels, m)
  }

  /** The kept terms of every size from 1 to `m`, smaller sizes first, where
      `terms(o)` lists the terms of size `o`. */
  function UpTo(terms: nat -> seq<seq<Tally>>, m: nat, order: int, cross: int): seq<seq<Tally>>
    decreases m
  {
    if m == 0 then []
    else UpTo(terms, m - 1, order, cross) + Keep(terms(m), order, cross)
  }

  /** The rendered terms up to size `m` are those up to size `m - 1`, then
      the rendered admissible terms of size `m`. */
  lemma RenderedUpTo(labels: seq<string>, m: nat, order: int, cross: int, ops: Operators)
    requires m > 0
    ensures ValidCombinations(labels, Combinations(|labels|, m))
    ensures Rendered(UpTo(SizeTable(labels), m, order, cross), ops)
      == Rendered(UpTo(SizeTable(labels), m - 1, order, cross), ops)
       + Rendered(Keep(TermsOf(labels, Combinations(|labels|, m)), order, cross), ops)
  {
    CombinationsValid(labels, m);
    assert SizeTable(labels)(m) == TermsOf(labels, Combinations(|labels|, m));
    RenderedAppend(UpTo(SizeTable(labels), m - 1, order, cross), Keep(SizeTable(labels)(m), order, cross), ops);
  }

  /** The terms `build_label_vector` emits, before rendering. */
  function BuiltTerms(labels: seq<string>, order: int, crossTermOrder: int): seq<seq<Tally>> {
    var cross := EffectiveCrossOrder(order, crossTermOrder);
    var largest := LargestSize(order, cross);
    UpTo(SizeTable(labels), if largest > 0 then largest else 0, order, cross)
  }

  /** `" {} ".format(sep)`: the term separator with a space on each side. */
  function Spaced(sep: string): string {
    " " + sep + " "
  }

  /** The description `build_label_vector` returns. */
  function Description(labels: seq<string>, order: int, crossTermOrder: int, ops: Operators): string {
    Join(Rendered(BuiltTerms(labels, order, crossTermOrder), ops), Spaced(ops.sep))
  }

  /** The inner loop of `build_label_vector`: the rendered admissible terms
      of `combos`, in order. */
  method KeepAdmissible(labels: seq<string>, combos: seq<seq<nat>>, order: int, cross: int, ops: Operators)
    returns (items: seq<string>)
    requires ValidCombinations(labels, combos)
    ensures items == Rendered(Keep(TermsOf(labels, combos), order, cross), ops)
  {
    items := [];
    var i := 0;
    ValidPrefix(labels, combos, 0);
    while i < |combos|
      invariant 0 <= i <= |combos|
      invariant ValidCombinations(labels, combos[..i])
      invariant items == Rendered(Keep(TermsOf(labels, combos[..i]), order, cross), ops)
    {
      var t := TermOf(labels, combos[i]);
      KeepSnoc(labels, combos, i, order, cross);
      ghost var done := Keep(TermsOf(labels, combos[..i]), order, cross);
      if Admissible(t, order, cross) {
        var c := RenderFactors(t, ops.pow);
        assert Keep(TermsOf(labels, combos[..i + 1]), order, cross) == done + [t];
        if |c| > 0 {
          RenderedSnoc(done, t, ops);
          items := items + [Join(c, ops.mul)];
        }
      } else {
        assert Keep(TermsOf(labels, combos[..i + 1]), order, cross) == done + [];
      }
      i := i + 1;
    }
    assert combos[..i] == combos;
  }

  /** `build_label_vector` (corrected): for each size from 1 to the largest,
      each combination of that size, tallied and sorted, is rendered and kept
      when admissible; the kept terms are joined with the spaced separator. */
  method BuildLabelVector(labels: seq<string>, order: int, crossTermOrder: int, ops: Operators)
    returns (description: string)
    ensures description == Description(labels, order, crossTermOrder, ops)
  {
    var cross := crossTermOrder;
    if 0 > cross {
      cross := order - 1;
    }
    var largest := if order >= 1 + cross then order else 1 + cross;
    ghost var bound: nat := if largest > 0 then largest else 0;
    var items: seq<string> := [];
    var o := 1;
    while o < 1 + largest
      invariant 1 <= o <= bound + 1
      invariant items == Rendered(UpTo(SizeTable(labels), o - 1, order, cross), ops)
    {
      var combos := Combinations(|labels|, o);
      CombinationsValid(labels, o);
      var kept := KeepAdmissible(labels, combos, order, cross, ops);
      RenderedUpTo(labels, o, order, cross, ops);
      items := items + kept;
      o := o + 1;
    }
    assert cross == EffectiveCrossOrder(order, crossTermOrder) && largest == LargestSize(order, cross);
    assert items == Rendered(BuiltTerms(labels, order, crossTermOrder), ops) by {
      assert o - 1 == bound;
    }
    description := Join(items, Spaced(ops.sep));
  }

  /** The error `build_label_vector` raises as written. */
  datatype BuildError = NameError(name: string)

  /** `build_label_vector` exactly as written: its loop calls
      `combinations_with_replacement`, which the module never imports, so
      the first pass of the loop raises `NameError`. Only when there is no
      pass at all (the largest size is below 1) does it return the empty
      description. */
  function BuildAsWritten(labels: seq<string>, order: int, crossTermOrder: int, ops: Operators): Result<string, BuildError> {
    var cross := EffectiveCrossOrder(order, crossTermOrder);
    if LargestSize(order, cross) >= 1 then Failure(NameError("combinations_with_replacement"))
    else Success("")
  }
}
