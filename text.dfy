/** The handful of Python `str` operations the label-vector code relies on:
    `strip()`, `in`, `split(sep)`, `sep.join(...)` and `str(int)`. */
module Text {
  import opened Wrappers

  /** Python's `str.isspace()` for one character. */
  predicate IsSpace(c: char) {
    c == ' ' || '\t' <= c <= '\r' || '\U{1c}' <= c <= '\U{1f}' || c == '\U{85}' || c == '\U{a0}'
    || c == '\U{1680}' || '\U{2000}' <= c <= '\U{200a}' || c == '\U{2028}' || c == '\U{2029}'
    || c == '\U{202f}' || c == '\U{205f}' || c == '\U{3000}'
  }

  predicate AllSpace(s: string) {
    forall i | 0 <= i < |s| :: IsSpace(s[i])
  }

  /** No whitespace at either end. */
  predicate Trimmed(s: string) {
    |s| == 0 || (!IsSpace(s[0]) && !IsSpace(s[|s| - 1]))
  }

  /** Index of the first non-whitespace character of `s`, or `|s|` if there is none. */
  function TextStart(s: string): (i: nat)
    ensures i <= |s| && AllSpace(s[..i])
    ensures i < |s| ==> !IsSpace(s[i])
  {
    if |s| > 0 && IsSpace(s[0]) then
      1 + TextStart(s[1..])
    else 0
  }

  /** One past the last non-whitespace character of `s`, or 0 if there is none. */
  function TextEnd(s: string): (j: nat)
    ensures j <= |s| && AllSpace(s[j..])
    ensures 0 < j ==> !IsSpace(s[j - 1])
  {
    if |s| > 0 && IsSpace(s[|s| - 1]) then
      var k := TextEnd(s[..|s| - 1]);
      assert forall m | 0 <= m < |s| - k :: s[k..][m] == if k + m < |s| - 1 then s[..|s| - 1][k..][m] else s[|s| - 1];
      k
    else |s|
  }

  /** Python's `str.strip()`: `s` without its leading and trailing whitespace. */
  function Strip(s: string): (r: string)
    ensures Trimmed(r) && |r| <= |s|
  {
    var i := TextStart(s);
    if i == |s| then
      []
    else
      var j := TextEnd(s);
      assert i < j;
      s[i..j]
  }

  /** `strip()` removes whitespace and only whitespace, and only at the ends:
      the result sits inside `s` between a whitespace prefix and a
      whitespace suffix. */
  lemma StripInfix(s: string)
    ensures exists i | 0 <= i <= |s| - |Strip(s)| ::
      Strip(s) == s[i..i + |Strip(s)|] && AllSpace(s[..i]) && AllSpace(s[i + |Strip(s)|..])
  {
    var i := TextStart(s);
    if i == |s| {
      assert s[|s|..|s|] == [] && s[..|s|] == s;
    } else {
      var j := TextEnd(s);
      assert s[i..j] == s[i..i + (j - i)];
    }
  }

  /** `pat` occurs in `s` at position `k`. */
  predicate MatchAt(s: string, pat: string, k: nat) {
    k + |pat| <= |s| && s[k..k + |pat|] == pat
  }

  /** Python's `pat in s` (true for an empty `pat`). */
  predicate Contains(s: string, pat: string) {
    exists k: nat | k <= |s| :: MatchAt(s, pat, k)
  }

  /** Position of the first occurrence of a non-empty `pat` in `s`. */
  function Find(s: string, pat: string): (r: Option<nat>)
    requires |pat| > 0
    ensures r.Some? <==> Contains(s, pat)
    ensures r.Some? ==> MatchAt(s, pat, r.value) && forall k: nat | k < r.value :: !MatchAt(s, pat, k)
    decreases |s|
  {
    if |s| < |pat| then
      None
    else if s[..|pat|] == pat then
      assert MatchAt(s, pat, 0);
      Some(0)
    else
      var rest := Find(s[1..], pat);
      assert !MatchAt(s, pat, 0);
      assert forall k: nat :: MatchAt(s, pat, k + 1) <==> MatchAt(s[1..], pat, k);
      if rest.None? then
        assert forall k: nat :: !MatchAt(s, pat, k) by {
          forall k: nat ensures !MatchAt(s, pat, k) {
            if k > 0 { assert !MatchAt(s[1..], pat, k - 1); }
          }
        }
        None
      else
        assert forall k: nat | k < rest.value + 1 :: !MatchAt(s, pat, k) by {
          forall k: nat | k < rest.value + 1 ensures !MatchAt(s, pat, k) {
            if k > 0 { assert !MatchAt(s[1..], pat, k - 1); }
          }
        }
        Some(rest.value + 1)
  }

  /** Python's `sep.join(xs)`. */
  function Join(xs: seq<string>, sep: string): string
    decreases |xs|
  {
    if |xs| == 0 then "" else if |xs| == 1 then xs[0] else xs[0] + sep + Join(xs[1..], sep)
  }

  /** Python's `s.split(sep)` for a non-empty `sep`: the pieces between the
      occurrences of `sep`, found left to right without overlap. */
  function Split(s: string, sep: string): (r: seq<string>)
    requires |sep| > 0
    ensures |r| >= 1 && Join(r, sep) == s
    ensures Contains(s, sep) <==> |r| >= 2
    decreases |s|
  {
    match Find(s, sep)
    case None => [s]
    case Some(i) =>
      var rest := Split(s[i + |sep|..], sep);
      assert s == s[..i] + sep + s[i + |sep|..];
      [s[..i]] + rest
  }

  /** No piece `split` returns contains the separator. */
  lemma {:induction false} SplitPiecesFree(s: string, sep: string)
    requires |sep| > 0
    ensures forall i | 0 <= i < |Split(s, sep)| :: !Contains(Split(s, sep)[i], sep)
    decreases |s|
  {
    match Find(s, sep)
    case None =>
    case Some(i) =>
      var head := s[..i];
      assert !Contains(head, sep) by {
        forall k: nat | MatchAt(head, sep, k) ensures false {
          assert MatchAt(s, sep, k);
        }
      }
      SplitPiecesFree(s[i + |sep|..], sep);
  }

  /** Every piece of `xs` is free of the character `c`. */
  predicate NoneContain(xs: seq<string>, c: char) {
    forall i | 0 <= i < |xs| :: c !in xs[i]
  }

  lemma NoMatchWithout(s: string, c: char)
    requires c !in s
    ensures !Contains(s, [c])
  {
    forall k: nat ensures !MatchAt(s, [c], k) {
      if k + 1 <= |s| {
        assert s[k..k + 1][0] == s[k];
      }
    }
  }

  /** The first occurrence comes no later than any occurrence. */
  lemma FirstMatchAtMost(s: string, pat: string, k: nat)
    requires |pat| > 0 && MatchAt(s, pat, k)
    ensures Find(s, pat).Some? && Find(s, pat).value <= k
  {
    assert Contains(s, pat);
  }

  /** Splitting on a character that does not occur gives the whole string back. */
  lemma SplitWithout(s: string, c: char)
    requires c !in s
    ensures Split(s, [c]) == [s]
  {
    NoMatchWithout(s, c);
  }

  /** No whitespace string holds a character that is not whitespace. */
  lemma SpaceWithout(w: string, c: char)
    requires AllSpace(w) && !IsSpace(c)
    ensures c !in w
  {
    forall i | 0 <= i < |w| ensures w[i] != c {
      assert IsSpace(w[i]);
    }
  }

  /** Splitting on a single character cuts at its first occurrence. */
  lemma SplitAtFirst(a: string, c: char, b: string)
    requires c !in a
    ensures Split(a + [c] + b, [c]) == [a] + Split(b, [c])
  {
    var s := a + [c] + b;
    assert MatchAt(s, [c], |a|) by { assert s[|a|..|a| + 1] == [c]; }
    var i := Find(s, [c]).value;
    assert i <= |a| by { FirstMatchAtMost(s, [c], |a|); }
    assert i >= |a| by {
      forall k: nat | k < |a| ensures !MatchAt(s, [c], k) {
        assert s[k..k + 1][0] == a[k];
      }
    }
    assert s[..i] == a && s[i + 1..] == b;
  }

  /** `split` undoes `join` for a one-character separator absent from the pieces. */
  lemma {:induction false} SplitJoin(xs: seq<string>, c: char)
    requires |xs| >= 1 && NoneContain(xs, c)
    ensures Split(Join(xs, [c]), [c]) == xs
    decreases |xs|
  {
    if |xs| == 1 {
      SplitWithout(xs[0], c);
    } else {
      SplitAtFirst(xs[0], c, Join(xs[1..], [c]));
      SplitJoin(xs[1..], c);
    }
  }

  /** `TextStart` skips a whitespace prefix whole. */
  lemma {:induction false} TextStartAfterSpace(w: string, x: string)
    requires AllSpace(w)
    ensures TextStart(w + x) == |w| + TextStart(x)
    decreases |w|
  {
    if |w| == 0 {
      assert w + x == x;
    } else {
      assert (w + x)[1..] == w[1..] + x;
      TextStartAfterSpace(w[1..], x);
    }
  }

  lemma {:induction false} TextStartBeforeSpace(x: string, w: string)
    requires TextStart(x) < |x|
    ensures TextStart(x + w) == TextStart(x)
    decreases |x|
  {
    if IsSpace(x[0]) {
      assert (x + w)[1..] == x[1..] + w;
      TextStartBeforeSpace(x[1..], w);
    }
  }

  lemma {:induction false} TextEndBeforeSpace(x: string, w: string)
    requires AllSpace(w)
    ensures TextEnd(x + w) == TextEnd(x)
    decreases |w|
  {
    if |w| == 0 {
      assert x + w == x;
    } else {
      assert (x + w)[..|x + w| - 1] == x + w[..|w| - 1];
      TextEndBeforeSpace(x, w[..|w| - 1]);
    }
  }

  lemma {:induction false} TextEndAfterSpace(w: string, x: string)
    requires 0 < TextEnd(x)
    ensures TextEnd(w + x) == |w| + TextEnd(x)
    decreases |x|
  {
    if IsSpace(x[|x| - 1]) {
      assert (w + x)[..|w + x| - 1] == w + x[..|x| - 1];
      TextEndAfterSpace(w, x[..|x| - 1]);
    }
  }

  /** A string of whitespace strips to nothing. */
  lemma StripAllSpace(s: string)
    requires AllSpace(s)
    ensures Strip(s) == []
  {
    TextStartAfterSpace(s, []);
    assert s + [] == s;
  }

  /** Text that is not all whitespace ends after it starts. */
  lemma TextEndAfterStart(x: string)
    requires TextStart(x) < |x|
    ensures TextStart(x) < TextEnd(x)
  {
  }

  lemma StripBetween(s: string)
    requires TextStart(s) < |s|
    ensures TextStart(s) < TextEnd(s) && Strip(s) == s[TextStart(s)..TextEnd(s)]
  {
    TextEndAfterStart(s);
  }

  lemma TextStartPadded(w1: string, x: string, w2: string)
    requires AllSpace(w1) && TextStart(x) < |x|
    ensures TextStart(w1 + x + w2) == |w1| + TextStart(x)
  {
    var t := x + w2;
    assert w1 + x + w2 == w1 + t;
    TextStartAfterSpace(w1, t);
    TextStartBeforeSpace(x, w2);
  }

  lemma TextEndPadded(w1: string, x: string, w2: string)
    requires AllSpace(w2) && 0 < TextEnd(x)
    ensures TextEnd(w1 + x + w2) == |w1| + TextEnd(x)
  {
    TextEndBeforeSpace(w1 + x, w2);
    TextEndAfterSpace(w1, x);
  }

  lemma SliceOfMiddle(w1: string, x: string, w2: string, a: nat, b: nat)
    requires a <= b <= |x|
    ensures (w1 + x + w2)[|w1| + a..|w1| + b] == x[a..b]
  {
    var s := w1 + x + w2;
    assert forall k | a <= k < b :: s[|w1| + k] == x[k];
  }

  /** `Strip` only depends on where the text starts and ends. */
  lemma StripFromBounds(w1: string, x: string, w2: string)
    requires TextStart(x) < |x|
    requires TextStart(w1 + x + w2) == |w1| + TextStart(x)
    requires TextEnd(w1 + x + w2) == |w1| + TextEnd(x)
    ensures Strip(w1 + x + w2) == Strip(x)
  {
    TextEndAfterStart(x);
    StripBetween(w1 + x + w2);
    StripBetween(x);
    SliceOfMiddle(w1, x, w2, TextStart(x), TextEnd(x));
  }

  lemma StripPaddedText(w1: string, x: string, w2: string)
    requires AllSpace(w1) && AllSpace(w2) && TextStart(x) < |x|
    ensures Strip(w1 + x + w2) == Strip(x)
  {
    TextEndAfterStart(x);
    TextStartPadded(w1, x, w2);
    TextEndPadded(w1, x, w2);
    StripFromBounds(w1, x, w2);
  }

  /** Whitespace added around a string does not change what `strip()` returns. */
  lemma StripPadded(w1: string, x: string, w2: string)
    requires AllSpace(w1) && AllSpace(w2)
    ensures Strip(w1 + x + w2) == Strip(x)
  {
    if TextStart(x) == |x| {
      assert AllSpace(x) by { assert x[..|x|] == x; }
      StripAllSpace(x);
      StripAllSpace(w1 + x + w2);
    } else {
      StripPaddedText(w1, x, w2);
    }
  }

  /** A string with no whitespace at its ends is its own `strip()`. */
  lemma StripTrimmed(x: string)
    requires Trimmed(x)
    ensures Strip(x) == x
  {
    if |x| > 0 {
      assert TextStart(x) == 0;
      assert TextEnd(x) == |x|;
      assert x[0..|x|] == x;
    }
  }

  predicate IsDigit(c: char) {
    '0' <= c <= '9'
  }

  predicate AllDigits(s: string) {
    forall i | 0 <= i < |s| :: IsDigit(s[i])
  }

  function DigitChar(d: nat): (c: char)
    requires d < 10
    ensures IsDigit(c) && c as int - '0' as int == d
  {
    ('0' as int + d) as char
  }

  /** Python's `str(n)` for a non-negative integer: its decimal digits, most significant first. */
  function NatToDecimal(n: nat): (r: string)
    ensures |r| >= 1 && AllDigits(r)
  {
    if n < 10 then [DigitChar(n)] else NatToDecimal(n / 10) + [DigitChar(n % 10)]
  }

  /** The value of a string of decimal digits, most significant first. */
  function DecimalValue(s: string): nat
    requires AllDigits(s)
  {
    if |s| == 0 then 0 else 10 * DecimalValue(s[..|s| - 1]) + (s[|s| - 1] as int - '0' as int)
  }

  /** Reading back the digits `str(n)` writes gives `n`. */
  lemma {:induction false} DecimalRoundTrip(n: nat)
    ensures DecimalValue(NatToDecimal(n)) == n
  {
    if n >= 10 {
      var s := NatToDecimal(n);
      assert s[..|s| - 1] == NatToDecimal(n / 10);
      DecimalRoundTrip(n / 10);
    }
  }
}
