# Polynomial label vectors of The Cannon, modelled in Dafny

AnniesLasso describes a polynomial "label vector" in a human-readable form
such as `Teff^4 + logg*Teff^3 + feh`. Three functions handle these
descriptions:

- `_is_structured_label_vector` decides whether a value is already in
  structured form. Structured form is a non-empty list of terms. Each term
  is a list of `(label, power)` pairs, and there is at least one pair in
  total.
- `parse_label_vector_description` turns a description string, or a list
  of per-term strings, into that structured form:
  - it splits the string on `sep` (default `+`), each term on `mul`
    (default `*`) and each factor on `pow` (default `^`);
  - it sums the powers of a label repeated within a term;
  - it drops zero powers and empty terms;
  - it rejects non-finite powers and a vector with no terms left.
- `build_label_vector` writes the description of every polynomial term up
  to a given order, with a separate bound for cross terms.

The project is organised as follows:

- `text.dfy` models the Python string operations the code relies on:
  `str.strip`, `str.split`, `str.join` and decimal numerals.
- `structure.dfy` models the dynamically typed input and the validator.
- `terms.dfy` models labels, powers and the `OrderedDict` accumulation.
- `parser.dfy` defines the parser as functions. It also has the imperative
  `ParseLabelVectorDescription`, which loops over terms and factors and
  appends like the Python code, and is proved equal to those functions.
- `parse_properties.dfy` proves what the parser promises: first-error
  semantics, summed and filtered powers, error conditions, and a
  structured output that makes parsing idempotent.
- `builder.dfy` defines:
  - `combinations_with_replacement` as non-decreasing index tuples;
  - `Counter`, `sorted` and the rendering of terms;
  - the imperative `BuildLabelVector`, whose nested loops are proved equal
    to the specification `Description`.
- `build_properties.dfy` proves the builder's rules: which terms appear,
  their powers, their sizes in increasing order, and that every label
  appears on its own.
- `roundtrip.dfy` proves that parsing a built description gives back
  exactly the built terms.

Inputs the model takes as parameters:

- The keyword overrides `sep`, `mul` and `pow` are an `Operators` record.
- `columns` is an `Option<seq<string>>`.
- A description is a `Value`, which is a string, an integer, a float
  (abstract), a sequence, or anything else.

Powers are exact integers or a non-finite marker. A Python `ValueError` or
`NameError` is an error value of a `Result`.

## Model

| member | source | states |
|---|---|---|
| Structure.FactorsArePairs | AnniesLasso/vectorizer/polynomial.py:106-110 | true exactly when every factor is a two-element list or tuple whose last element is an int or a float |
| Structure.TermsArePairLists | AnniesLasso/vectorizer/polynomial.py:102-110 | true exactly when every term is a list or tuple of such pairs |
| Structure.StructuredIff | AnniesLasso/vectorizer/polynomial.py:90-115 | the validator accepts exactly a list or tuple of well-shaped terms holding at least one factor in total, and rejects everything else |
| Structure.TotalLengthPositive | AnniesLasso/vectorizer/polynomial.py:112-113 | `sum(map(len, ...))` is positive exactly when some term has a factor |
| Text.Split | AnniesLasso/vectorizer/polynomial.py:169 | splitting on a non-empty separator gives at least one piece, the pieces joined by the separator give back the string, and there are two or more pieces exactly when the separator occurs |
| Text.StripPadded | AnniesLasso/vectorizer/polynomial.py:170 | whitespace added around a string does not change what `strip()` returns |
| Text.StripInfix | AnniesLasso/vectorizer/polynomial.py:170 | `strip()` removes only whitespace and only at the ends: the result is a contiguous part of the input between a whitespace prefix and a whitespace suffix |
| Text.StripTrimmed | AnniesLasso/vectorizer/polynomial.py:170 | `strip()` leaves a string with no whitespace at either end unchanged |
| Text.SplitJoin | AnniesLasso/vectorizer/polynomial.py:180 | splitting, on a one-character separator, the join of pieces that do not contain it gives back the pieces |
| Text.DecimalRoundTrip | AnniesLasso/vectorizer/polynomial.py:173 | the decimal numeral of a natural number reads back as that number |
| Terms.PowerRoundTrip | AnniesLasso/vectorizer/polynomial.py:173 | the text of any integer, with a minus sign when it is negative, reads back as that integer power |
| Terms.Put | AnniesLasso/vectorizer/polynomial.py:187 | `term[label] = term.get(label, 0) + order` adds the power to the label's stored sum (zero for a new label), keeps an existing key in its place, appends a new key at the end, and leaves every other label's value unchanged |
| Terms.CollapseKeys | AnniesLasso/vectorizer/polynomial.py:185-187 | the keys of the accumulated `OrderedDict` are the labels of the term in first-seen order without repeats |
| Terms.CollapseSums | AnniesLasso/vectorizer/polynomial.py:187 | the value stored for a label is the sum of all its powers in the term |
| Terms.SumNonFinite | AnniesLasso/vectorizer/polynomial.py:187 | a label's sum is non-finite exactly when one of its powers is non-finite |
| Terms.DedupContents | AnniesLasso/vectorizer/polynomial.py:185-187 | first-seen deduplication keeps each element exactly once and no other |
| Parser.ResolveLabel | AnniesLasso/vectorizer/polynomial.py:174-177 | without `columns` the label is the stripped token. With `columns` it is the first index of the token among them, and a token that is missing is an error naming it |
| Parser.NonZero | AnniesLasso/vectorizer/polynomial.py:190 | keeps exactly the entries whose power is not zero, in their order |
| Parser.ParseOneTerm | AnniesLasso/vectorizer/polynomial.py:180-192 | the loop over the factors of one term equals the term the specification gives, with the same first error |
| Parser.ParseAllTerms | AnniesLasso/vectorizer/polynomial.py:179-195 | the loop over the terms appends exactly the non-empty parsed terms and stops at the first error |
| Parser.ParseLabelVectorDescription | AnniesLasso/vectorizer/polynomial.py:118-200 | the whole parse, including the structured fast path and the "no valid terms" error, equals the specification `Parse` |
| ParseProperties.EntryKept | AnniesLasso/vectorizer/polynomial.py:185-190 | a label whose summed power is not zero stays in the term |
| ParseProperties.EntrySum | AnniesLasso/vectorizer/polynomial.py:185-190 | every factor kept has a non-zero power equal to the sum of that label's powers |
| ParseProperties.NonZeroDistinct | AnniesLasso/vectorizer/polynomial.py:190 | dropping zero powers keeps the labels distinct |
| ParseProperties.KeysSubsequence | AnniesLasso/vectorizer/polynomial.py:190 | dropping entries keeps the order of their labels |
| ParseProperties.FiniteIff | AnniesLasso/vectorizer/polynomial.py:190-192 | the term passes the finiteness check exactly when every factor's power is finite |
| ParseProperties.CollectFirstError | AnniesLasso/vectorizer/polynomial.py:180-187 | a failed collection fails with the error of its first failing element, and every element before it succeeds |
| ParseProperties.FactorEntriesSuccess | AnniesLasso/vectorizer/polynomial.py:180-187 | the factors of a term read exactly when every factor reads, and then give each factor's entry in order |
| ParseProperties.FactorEntriesFirstError | AnniesLasso/vectorizer/polynomial.py:182-187 | a term fails with the error of its first failing factor |
| ParseProperties.FactorEntryErrors | AnniesLasso/vectorizer/polynomial.py:173-177 | a factor can fail only on an empty separator, an unknown label or an unreadable power |
| ParseProperties.NonFiniteRejectsTerm | AnniesLasso/vectorizer/polynomial.py:191-192 | a term whose factors parse fails exactly when one power is non-finite, and then with "non-finite power provided" |
| ParseProperties.ParsedTermContents | AnniesLasso/vectorizer/polynomial.py:185-190 | a parsed term has distinct labels in first-seen order, each with the non-zero sum of its powers, and keeps every label whose sum is not zero |
| ParseProperties.ParseItemsSuccess | AnniesLasso/vectorizer/polynomial.py:179-195 | the terms of a description parse exactly when every term parses |
| ParseProperties.ParseItemsFirstError | AnniesLasso/vectorizer/polynomial.py:179-192 | a failed description fails with the error of its first failing term |
| ParseProperties.ParseItemsTerms | AnniesLasso/vectorizer/polynomial.py:194-195 | on success every output term is non-empty and comes from some input term, and every non-empty parsed term is in the output |
| ParseProperties.ParseItemsOrder | AnniesLasso/vectorizer/polynomial.py:179-195 | every term parses; the output is a subsequence of the parsed terms, holds each non-empty parsed term exactly as often as the input produced it, and is as long as the input less its empty terms |
| ParseProperties.NonZeroCounts | AnniesLasso/vectorizer/polynomial.py:190 | dropping zero powers keeps every other entry as often as it occurs, and no zero-power entry |
| ParseProperties.NonEmptyCounts | AnniesLasso/vectorizer/polynomial.py:194-195 | dropping empty terms keeps every non-empty term as often as it occurs, repeats included, so the output is as long as the input less its empty terms |
| ParseProperties.FactorPadding | AnniesLasso/vectorizer/polynomial.py:172-177 | whitespace around a factor's label, its `pow` operator and its power does not change what the factor reads as |
| ParseProperties.BareFactorPadding | AnniesLasso/vectorizer/polynomial.py:173-175 | whitespace around a factor without a power does not change what it reads as |
| ParseProperties.TermPadding | AnniesLasso/vectorizer/polynomial.py:180-187 | a term whose factors read alike, padded or not, parses alike, including its errors |
| ParseProperties.EmptyVectorIff | AnniesLasso/vectorizer/polynomial.py:194-198 | no term is appended exactly when every term parses to nothing |
| ParseProperties.NoValidTermsIff | AnniesLasso/vectorizer/polynomial.py:159-198 | "no valid terms provided" is raised exactly when the input is not structured, its texts are readable and every term cancels out |
| ParseProperties.ParseTermErrors | AnniesLasso/vectorizer/polynomial.py:180-192 | a single term never raises the "no valid terms" error |
| ParseProperties.ParseOutputStructured | AnniesLasso/vectorizer/polynomial.py:159-200 | every successful parse output is accepted by the validator |
| ParseProperties.ParseIdempotent | AnniesLasso/vectorizer/polynomial.py:159-160 | parsing a parse output again, with any columns and operators, returns it unchanged |
| Builder.CombinationsFromExactly | AnniesLasso/vectorizer/polynomial.py:240 | the combinations with replacement of size `o` are exactly the non-decreasing index tuples of length `o` |
| Builder.CombinationsFromDistinct | AnniesLasso/vectorizer/polynomial.py:240 | no combination is produced twice |
| Builder.CombinationsFromSorted | AnniesLasso/vectorizer/polynomial.py:240 | the combinations come in strictly increasing lexicographic order of positions |
| Builder.BelowTotal | AnniesLasso/vectorizer/polynomial.py:243 | Python's string order compares any two different strings |
| Builder.BelowTransitive | AnniesLasso/vectorizer/polynomial.py:243 | Python's string order is transitive |
| Builder.Sort | AnniesLasso/vectorizer/polynomial.py:243 | `sorted` returns a permutation of its input |
| Builder.SortSorted | AnniesLasso/vectorizer/polynomial.py:243 | `sorted` on distinct keys returns them in strictly increasing order |
| Builder.TermOfContents | AnniesLasso/vectorizer/polynomial.py:240-243 | a term lists the labels of its combination once each, sorted by name, each with its number of occurrences |
| Builder.MaxCountBounds | AnniesLasso/vectorizer/polynomial.py:244-245 | `max(t.values())` bounds every count |
| Builder.MaxCountAttained | AnniesLasso/vectorizer/polynomial.py:244-245 | `max(t.values())` is one of the counts |
| Builder.KeepAdmissible | AnniesLasso/vectorizer/polynomial.py:240-247 | the inner loop appends the rendering of exactly the admissible terms of one size, in combination order |
| Builder.BuildLabelVector | AnniesLasso/vectorizer/polynomial.py:203-248 | the imperative builder, with its negative cross-order default and its nested loops, returns exactly the specification `Description` |
| BuildProperties.KeepMember | AnniesLasso/vectorizer/polynomial.py:244-245 | a term is kept exactly when it has one label with power at most `order`, or several labels with every power at most the cross-term order |
| BuildProperties.SizeTermsMember | AnniesLasso/vectorizer/polynomial.py:240-243 | the terms of size `o` are exactly the terms of the combinations of size `o` |
| BuildProperties.BuiltTermsExactly | AnniesLasso/vectorizer/polynomial.py:236-245 | a term is built exactly when it comes from some combination of a size from 1 to `max(order, 1 + cross)` and is admissible, with a negative cross order replaced by `order - 1` |
| BuildProperties.BuiltTermRules | AnniesLasso/vectorizer/polynomial.py:236-246 | every built term is non-empty, strictly sorted by label, made of input labels with powers at least 1, bounded by `order` when single and by the cross order otherwise, and of total size within the range of line 239 |
| BuildProperties.TermOfSize | AnniesLasso/vectorizer/polynomial.py:240-243 | the powers of a term add up to the size of its combination |
| BuildProperties.SizesAscending | AnniesLasso/vectorizer/polynomial.py:239 | the built terms appear in order of non-decreasing total size |
| BuildProperties.LinearTermsFirst | AnniesLasso/vectorizer/polynomial.py:239-247 | when `order >= 1`, the description starts with every label on its own, with power 1, in input order |
| BuildProperties.AsWrittenNeverBuilds | AnniesLasso/vectorizer/polynomial.py:14 | as written, the builder fails with `NameError` whenever its range is not empty, and in particular for every `order >= 1`. It returns the empty description only when no term would be built |
| RoundTrip.FactorRoundTrip | AnniesLasso/vectorizer/polynomial.py:173-177 | a factor rendered by line 246 reads back as its label, or its column index, and its power |
| RoundTrip.TermRoundTrip | AnniesLasso/vectorizer/polynomial.py:180-195 | a term rendered by line 247 parses back to its factors in the same order |
| RoundTrip.ItemsRoundTrip | AnniesLasso/vectorizer/polynomial.py:168-170 | splitting a built description on `sep` and stripping the pieces gives back the rendered terms |
| RoundTrip.RenderThenParse | AnniesLasso/vectorizer/polynomial.py:118-200 | any description joined the way line 248 joins, from at least one plain term, parses to exactly those terms |
| RoundTrip.BuildThenParse | AnniesLasso/vectorizer/polynomial.py:203-248 | when the operators are three distinct single characters that are neither whitespace nor digits, every label is non-empty, has no whitespace at its ends, contains no operator character and is among the columns if columns are given, and at least one term is built (for any `order`, including `order <= 0` with cross terms), parsing the built description gives exactly the built terms in order: no term is added, lost, merged or reordered |
| RoundTrip.DefaultBuildThenParse | AnniesLasso/vectorizer/polynomial.py:230-232 | with the default operators `+`, `*` and `^`, labels that are non-empty, trimmed, free of `+`, `*` and `^` and among the columns if columns are given, and at least one term built, parsing the built description gives exactly the built terms in order |
| RoundTrip.CrossTermOnlyBuild | AnniesLasso/vectorizer/polynomial.py:236-247 | with two different labels, `order` 0 and cross order 1, the builder still builds the cross term of both labels, so the round trip covers such builds |
| RoundTrip.EmptyPieceTerm | AnniesLasso/vectorizer/polynomial.py:169-187 | an empty piece of a description reads as one factor with the empty label and power 1, or fails as an unknown label when columns are given |
| RoundTrip.EmptyDescriptionParse | AnniesLasso/vectorizer/polynomial.py:159-200 | the empty description parses to one term holding the empty label with power 1 |
| RoundTrip.NoLabelsBuildNothing | AnniesLasso/vectorizer/polynomial.py:239-248 | with no labels the builder builds no term and returns the empty description |
| RoundTrip.NoLabelsRoundTrip | AnniesLasso/vectorizer/polynomial.py:203-248 | with no labels, parsing the built description gives one term the builder did not build |

## Left out

- `PolynomialVectorizer` and its `get_label_vector` and
  `get_label_vector_derivative` are not part of this model.
  - `get_label_vector` is floating-point numpy array arithmetic.
  - `get_label_vector_derivative` only raises `NotImplementedError`.
- `BaseVectorizer` and its storage of labels, fiducials and scales are not
  part of this model.
- Python's `float()` reading of powers is not modelled in full. It is
  modelled for an optional sign followed by decimal digits, and for
  `inf`, `infinity` and `nan` in any case with an optional sign. Other
  numerals, such as fractions, exponents and underscores, are a
  `BadPower` error in the model but a float in Python.
- A power read from text is a float in Python (`2.0`) but an exact
  integer in the model.
  - Python floats lose precision above 2^53, so a longer numeral can read
    as a different value in Python than in the model.
  - A numeral too large for a float reads as infinity in Python and is
    rejected as a non-finite power. The model reads it as a finite power.
- The default power is the integer 1 in both.
- Parsed powers are summed as exact integers. Float rounding is not
  modelled.
- `six.string_types` dispatch is a tag of the `Value` datatype.
  - Bytes are not distinguished from text.
  - A non-string element in a list of terms is an error value. In Python
    it is an `AttributeError`.
  - A description given as any other iterable (a dict, a set, a generator,
    a numpy array) is read item by item in Python. The model treats it as
    `Other` and fails with `NotText`.
- `Float` holds only finite reals. A structured description whose powers
  are `inf` or `nan` is accepted by the validator and returned unchanged
  in Python, but cannot be written as a `Value`.
- The Python 2 evaluation order of `map` is not modelled. Under Python 2,
  all labels of a term are resolved before any power is read. The model
  reads the label of each factor and then its power, as Python 3's lazy
  `map` and `zip` do. This changes only which error is reported first.
- Keyword arguments other than `sep`, `mul` and `pow` are not modelled.
  - The parser ignores them.
  - The builder passes them on to no one.
- The docstring example of `parse_label_vector_description` keeps a factor
  `("feh", 0)`. The code drops it, and the model follows the code.
- Builder.BuildLabelVector: models the evident intent of line 240, with
  `combinations_with_replacement` taken from `itertools`. The code as
  written fails, as recorded under Findings.
- RoundTrip.BuildThenParse: is stated only for single-character operators
  that are not whitespace or digits. Every label must be non-empty, with
  no whitespace at its ends, and contain no operator character.
  - Other labels can be re-split or merged by the parser. For example, a
    label containing `*` is cut in two.
- RoundTrip.BuildThenParse and RoundTrip.DefaultBuildThenParse: require
  that at least one term is built. When none is (no labels, or an order
  and cross order that admit no term), the builder returns the empty
  description, and the parser reads it as one term with the empty label
  and power 1 (RoundTrip.NoLabelsRoundTrip).
- RoundTrip.RenderThenParse: requires at least one term, for the same
  reason: the join of no terms is `""`, which parses to the empty-label
  term (RoundTrip.EmptyDescriptionParse).
  - For the same reason, a trailing separator in a description adds a
    term with the empty label. With columns it is an unknown-label error
    (RoundTrip.EmptyPieceTerm).
- BuildProperties.LinearTermsFirst: is stated as a prefix property for
  `order >= 1`. With `order <= 0`, single-label terms are not emitted
  at all.
- No concrete built description is evaluated, for example for the labels
  `Teff` and `logg`. The properties above are stated for all inputs
  instead.
- `columns` given as a non-list iterable is modelled as a sequence.

## Findings

| source | as written | input that shows it | evidently intended | confidence | as-written member | corrected member |
|---|---|---|---|---|---|---|
| AnniesLasso/vectorizer/polynomial.py:240 | `combinations_with_replacement` is called but never imported; line 14 imports only `Counter` and `OrderedDict`. The builder therefore raises `NameError` as soon as the loop at line 239 runs once | `build_label_vector(["Teff"], 1)` | the combinations with replacement of `itertools`: every multiset of `o` labels, in lexicographic order of positions | not executed | BuildProperties.AsWrittenNeverBuilds | Builder.BuildLabelVector |
