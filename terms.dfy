/** Labels, powers and the insertion-ordered dictionary in which the parser
    sums the powers of one term (`term[label] = term.get(label, 0) + order`). */
module Terms {
  import opened Wrappers
  import opened Text

  /** A label is its name, or its position in `columns` once resolved. */
  datatype Label = Name(name: string) | Index(index: nat)

  /** A power as Python's `float` holds it: an integral value, or inf/nan.
      Fractional and overflowing values are not modelled. */
  datatype Power = Finite(n: int) | NonFinite

  /** Floating-point addition on these values: a non-finite operand gives a
      non-finite sum (inf + -inf is nan, which is still non-finite). */
  function Add(a: Power, b: Power): Power {
    if a.Finite? && b.Finite? then Finite(a.n + b.n) else NonFinite
  }

  /** The three operator strings of the description grammar. */
  datatype Operators = Operators(sep: string, mul: string, pow: string)

  /** The operators both functions use when the caller names none. */
  const DefaultOperators := Operators("+", "*", "^")

  /** One `(label, power)` entry of an insertion-ordered dictionary. */
  datatype Entry = Entry(key: Label, power: Power)

  function Keys(es: seq<Entry>): seq<Label> {
    seq(|es|, i requires 0 <= i < |es| => es[i].key)
  }

  predicate Distinct<T(==)>(xs: seq<T>) {
    forall i, j | 0 <= i < j < |xs| :: xs[i] != xs[j]
  }

  /** `term.get(label, 0)` */
  function Lookup(es: seq<Entry>, l: Label): Power {
    if |es| == 0 then Finite(0) else if es[0].key == l then es[0].power else Lookup(es[1..], l)
  }

  /** `term[l] = term.get(l, 0) + p`: a key already present keeps its place
      and gets the sum; a new key is added at the end. */
  function Put(es: seq<Entry>, l: Label, p: Power): (r: seq<Entry>)
    ensures l in Keys(es) ==> Keys(r) == Keys(es)
    ensures l !in Keys(es) ==> Keys(r) == Keys(es) + [l]
    ensures Lookup(r, l) == Add(Lookup(es, l), p)
    ensures forall k :: k != l ==> Lookup(r, k) == Lookup(es, k)
  {
    if |es| == 0 then
      assert Keys(es) == [] && Keys([Entry(l, p)]) == [l];
      assert [Entry(l, p)][1..] == [];
      assert Add(Finite(0), p) == p;
      assert forall k :: k != l ==> Lookup([Entry(l, p)], k) == Lookup([], k) == Lookup(es, k);
      [Entry(l, p)]
    else if es[0].key == l then
      var r := [Entry(l, Add(es[0].power, p))] + es[1..];
      assert Keys(r) == Keys(es) && Keys(es)[0] == l;
      assert r[1..] == es[1..];
      r
    else
      var rest := Put(es[1..], l, p);
      assert Keys(es) == [es[0].key] + Keys(es[1..]);
      assert Keys([es[0]] + rest) == [es[0].key] + Keys(rest);
      [es[0]] + rest
  }

  /** The dictionary left after putting every entry of `entries`, in order,
      into an empty one. */
  function Collapse(entries: seq<Entry>): (r: seq<Entry>)
    ensures Distinct(Keys(r))
    decreases |entries|
  {
    if |entries| == 0 then []
    else
      var last := entries[|entries| - 1];
      Put(Collapse(entries[..|entries| - 1]), last.key, last.power)
  }

  /** The key of an entry of `es` is among the keys of `es`. */
  lemma KeyOf(es: seq<Entry>, e: Entry)
    requires e in es
    ensures e.key in Keys(es)
  {
    var i :| 0 <= i < |es| && es[i] == e;
    assert Keys(es)[i] == e.key;
  }

  /** Collapsing one more entry puts it into the collapsed dictionary. */
  lemma CollapseSnoc(entries: seq<Entry>, e: Entry)
    ensures Collapse(entries + [e]) == Put(Collapse(entries), e.key, e.power)
  {
    assert (entries + [e])[..|entries|] == entries;
  }

  /** The labels of `xs` with repeats removed, each where it first occurs. */
  function Dedup<T(==)>(xs: seq<T>): seq<T>
    decreases |xs|
  {
    if |xs| == 0 then []
    else
      var d := Dedup(xs[..|xs| - 1]);
      if xs[|xs| - 1] in d then d else d + [xs[|xs| - 1]]
  }

  /** `Dedup` keeps one copy of each element and nothing else. */
  lemma {:induction false} DedupContents<T>(xs: seq<T>)
    ensures Distinct(Dedup(xs))
    ensures forall x :: x in Dedup(xs) <==> x in xs
    decreases |xs|
  {
    if |xs| > 0 {
      var init := xs[..|xs| - 1];
      DedupContents(init);
      assert xs == init + [xs[|xs| - 1]];
    }
  }

  /** The total power `entries` give to `l`, added left to right from 0. */
  function SumFor(entries: seq<Entry>, l: Label): Power
    decreases |entries|
  {
    if |entries| == 0 then Finite(0)
    else
      var last := entries[|entries| - 1];
      var s := SumFor(entries[..|entries| - 1], l);
      if last.key == l then Add(s, last.power) else s
  }

  /** Repeated labels collapse into one key each, kept in first-seen order. */
  lemma {:induction false} CollapseKeys(entries: seq<Entry>)
    ensures Keys(Collapse(entries)) == Dedup(Keys(entries))
    decreases |entries|
  {
    if |entries| > 0 {
      var init := entries[..|entries| - 1];
      CollapseKeys(init);
      assert Keys(init) == Keys(entries)[..|entries| - 1];
    }
  }

  /** Each key of the collapsed dictionary holds the sum of the powers given to it. */
  lemma {:induction false} CollapseSums(entries: seq<Entry>, l: Label)
    ensures Lookup(Collapse(entries), l) == SumFor(entries, l)
    decreases |entries|
  {
    if |entries| > 0 {
      CollapseSums(entries[..|entries| - 1], l);
    }
  }

  /** A non-finite power can never be cancelled: the sum for a label is
      non-finite exactly when one of its powers is. */
  lemma {:induction false} SumNonFinite(entries: seq<Entry>, l: Label)
    ensures SumFor(entries, l) == NonFinite <==>
      exists i | 0 <= i < |entries| :: entries[i].key == l && entries[i].power == NonFinite
    decreases |entries|
  {
    if |entries| > 0 {
      var init := entries[..|entries| - 1];
      SumNonFinite(init, l);
      assert forall i | 0 <= i < |init| :: init[i] == entries[i];
    }
  }

  /** In a dictionary with distinct keys, looking up an entry's key gives its power. */
  lemma {:induction false} LookupEntry(es: seq<Entry>, i: nat)
    requires Distinct(Keys(es)) && i < |es|
    ensures Lookup(es, es[i].key) == es[i].power
    decreases |es|
  {
    if i > 0 {
      assert Keys(es[1..]) == Keys(es)[1..];
      assert es[0].key != es[i].key by { assert Keys(es)[0] != Keys(es)[i]; }
      LookupEntry(es[1..], i - 1);
    }
  }

  /** Putting entries whose labels are all different builds the list itself. */
  lemma {:induction false} CollapseDistinct(entries: seq<Entry>)
    requires Distinct(Keys(entries))
    ensures Collapse(entries) == entries
    decreases |entries|
  {
    if |entries| > 0 {
      var init := entries[..|entries| - 1];
      assert Keys(init) == Keys(entries)[..|entries| - 1];
      CollapseDistinct(init);
      var last := entries[|entries| - 1];
      assert last.key !in Keys(init) by {
        forall i | 0 <= i < |init| ensures Keys(init)[i] != last.key {
          assert Keys(entries)[i] != Keys(entries)[|entries| - 1];
        }
      }
      PutNew(init, last.key, last.power);
      assert init + [last] == entries;
    }
  }

  /** Putting a new key appends it with its power. */
  lemma {:induction false} PutNew(es: seq<Entry>, l: Label, p: Power)
    requires l !in Keys(es)
    ensures Put(es, l, p) == es + [Entry(l, p)]
    decreases |es|
  {
    if |es| > 0 {
      assert Keys(es) == [es[0].key] + Keys(es[1..]);
      PutNew(es[1..], l, p);
    }
  }

  /** ASCII lower case, as Python's `float()` compares the words inf and nan. */
  function Lower(s: string): string {
    seq(|s|, i requires 0 <= i < |s| => if 'A' <= s[i] <= 'Z' then (s[i] as int + 32) as char else s[i])
  }

  /** Python's `float(text)` on a stripped text, restricted to what this
      model handles: an optional sign and decimal digits, or an optional
      sign and one of the words inf, infinity and nan in any case. `None`
      stands for the `ValueError` that `float()` raises otherwise. */
  function ParsePower(text: string): Option<Power> {
    var signed := |text| > 0 && (text[0] == '+' || text[0] == '-');
    var body := if signed then text[1..] else text;
    if |body| > 0 && AllDigits(body) then
      var v: int := DecimalValue(body);
      Some(Finite(if signed && text[0] == '-' then -v else v))
    else if Lower(body) in ["inf", "infinity", "nan"] then
      Some(NonFinite)
    else
      None
  }

  /** Python's `str(n)` for an integer. */
  function IntToDecimal(n: int): string {
    if n < 0 then "-" + NatToDecimal(-n) else NatToDecimal(n)
  }

  /** `float(str(n)) == n` for every integer `n`. */
  lemma PowerRoundTrip(n: int)
    ensures ParsePower(IntToDecimal(n)) == Some(Finite(n))
  {
    var s := IntToDecimal(n);
    if n < 0 {
      assert s[1..] == NatToDecimal(-n);
      DecimalRoundTrip(-n);
    } else {
      DecimalRoundTrip(n);
      assert s[0] != '+' && s[0] != '-' by { assert IsDigit(s[0]); }
    }
  }
}
