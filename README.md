# Verified model of PanPhon's `Segment`

PanPhon describes a phonological segment as a vector of articulatory
features. The `Segment` class (`panphon/segment.py`) holds two things. It
has an ordered list of feature names (the schema) and a dictionary from
names to integer values. Schema features are conventionally ternary: `-1`,
`0` or `1`, written `-`, `0` or `+`.

This project models that class in Dafny and proves what its operations do.

- `errors.dfy`: the exceptions the class can raise, as values.
  - `Result<T>` returns a value or an `Error`.
  - `Outcome` is the result of an assignment.
- `tables.dfy`: the value-to-symbol table `N2S` and its inverse `S2N`.
  - They are module constants.
  - `Encode` and `Decode` map a value vector to its symbols and back.
- `notation.dfy`: the feature notation `+voice,-nasal`.
  - `Scan` is a hand-written left-to-right scanner. It finds every sign
    followed by a maximal run of word characters.
  - `Apply` folds the scanned tokens into a dictionary. The last token for a
    name wins.
  - `Render` is the bracketed listing that `__repr__` prints.
- `metrics.dfy`: the two distances as functions on integer sequences, over
  the zip of the two vectors.
  - `L1`: the sum of absolute differences.
  - `Hamming`: the number of differing positions.
  - They come with their metric laws.
- `segment.dfy`: the class `Segments.Segment`.
  - `names` is an immutable `const` and `data` is a mutable `map` field.
  - The constructor runs the source's two loops: default fill, then the
    notation.
  - The getters, the updates, the projections, `match`, `intersection` and
    the four distances are members of the class.
  - Module-level lemmas relate several segments or several calls.

The ternary invariant is not enforced by the source. Item assignment and
`update` store any value. So the model treats it as a hypothesis: `String`
and `Repr` return `Err(NoSymbol(v))` at the first non-ternary value, as the
source's table lookup raises `KeyError`. Zero-length schemas make the
normalised distances raise `ZeroDivisionError`. The model returns
`Err(ZeroDivision)` for them.

The notation pattern on line 29 is `(+|0|-)(\w+)`, and the docstring on
line 17 repeats the same unescaped leading `+`. The docstring's prose says
what is meant: a sign among `+`, `0` and `-` followed by word characters.
The model scans for `(\+|0|-)(\w+)`, with the `+` escaped and the two
groups of line 29 that line 30 unpacks. The documented `match` contract on
lines 71-77 and the body on line 79 disagree. In both cases the code as
written cannot run, so the model records it as written and then follows the
documented intent (see "Findings").

## Model

| member | source | states |
|---|---|---|
| Tables.N2S | panphon/segment.py:19 | definition of the value-to-symbol table: -1, 0 and 1 to `-`, `0` and `+` |
| Tables.S2N | panphon/segment.py:20 | definition of the symbol-to-value table, the inverse of `N2S` (see `TablesInverse`) |
| Notation.IsWordChar | panphon/segment.py:29 | definition of the `\w` class: ASCII letters, digits and `_` |
| Tables.TablesInverse | panphon/segment.py:19-20 | `S2N` is the exact inverse of `N2S`: same symbols and values, both round trips hold pointwise |
| Tables.SymbolRoundTrip | panphon/segment.py:19-20 | every ternary value has a symbol, and looking that symbol up returns the value |
| Tables.TernaryRange | panphon/segment.py:19 | the values with a symbol are exactly -1, 0 and 1 |
| Tables.Encode | panphon/segment.py:106 | the symbol lookup succeeds iff every value is ternary; on success the result has one symbol per value; otherwise the error names the first value without a symbol |
| Tables.DecodeEncode | panphon/segment.py:19-20 | decoding the symbols of a ternary vector gives the vector back |
| Tables.EncodeDecode | panphon/segment.py:19-20 | encoding the values of a symbol string gives the string back |
| Notation.WordRun | panphon/segment.py:17 | the run is the longest prefix of word characters: everything inside is a word character, and the next character is not |
| Notation.Scan | panphon/segment.py:29-30 | every token found is a sign from the table followed by a nonempty name of word characters |
| Notation.ScanSkips | panphon/segment.py:29 | a character that does not start a match is skipped |
| Notation.WordRunStops | panphon/segment.py:17 | the word run of a name followed by a non-word character is the whole name |
| Notation.ScanToken | panphon/segment.py:29-30 | a sign and name followed by a non-word character scan to that token, then scanning resumes at that character |
| Notation.ZeroContinuesName | panphon/segment.py:17 | `0` is a word character, so a `0` after a name lengthens the name rather than starting a new token |
| Notation.Spellings | panphon/segment.py:47 | one sign-and-name spelling per pair, in order |
| Notation.ScanJoined | panphon/segment.py:46-48 | scanning the comma-joined spellings of well-formed tokens followed by `]` gives back exactly those tokens |
| Notation.ScanRender | panphon/segment.py:44-48 | scanning the bracketed listing of well-formed tokens gives back exactly the tokens it lists |
| Notation.Apply | panphon/segment.py:29-31 | applying tokens adds exactly the token names to the dictionary's keys |
| Notation.ApplyUntouched | panphon/segment.py:29-31 | a key that no token names keeps its value |
| Notation.ApplyLastWins | panphon/segment.py:29-31 | a named key ends with the value of the sign of the last token naming it |
| Notation.ApplyAgreeing | panphon/segment.py:29-31 | a key that some token names, where every token naming it decodes to one value, ends with that value |
| Notation.PatternAsWrittenFails | panphon/segment.py:29 | the pattern as written fails on every notation, even one the scanner reads as a single token |
| Segments.InitKeys | panphon/segment.py:23-31 | a new segment's keys are the schema names plus every name in the notation |
| Segments.InitDefault | panphon/segment.py:24-28 | a schema name not in the notation takes its value from `features`, or 0 when `features` lacks it |
| Segments.InitLastMatchWins | panphon/segment.py:29-31 | a name in the notation takes the value of the sign of its last occurrence |
| Segments.NotationOverridesFeatures | panphon/segment.py:24-31 | a notation made of one specification, such as `+voice`, decides that feature whatever `features` holds (notations of several specifications: `InitLastMatchWins`) |
| Segments.Segment.constructor | panphon/segment.py:11-31 | the two loops build the default fill, then apply the notation left to right; the result is the specification `Init` and covers every schema name |
| Segments.Segment.Get | panphon/segment.py:33-35 | a present key returns its value; a missing one is a `KeyError` |
| Segments.Segment.Set | panphon/segment.py:37-42 | a schema name is assigned and nothing else changes; any other key is refused with `KeyError` and the data stays the same |
| Segments.Segment.Update | panphon/segment.py:62-68 | the new data is the old data overridden by the source dictionary, keys outside the schema included; the numeric vector is unchanged when no schema key is written |
| Segments.Segment.Numeric | panphon/segment.py:100-102 | one value per schema name, in schema order |
| Segments.Segment.Items | panphon/segment.py:54-56 | one (name, value) pair per schema name, in schema order |
| Segments.Segment.String | panphon/segment.py:104-106 | succeeds iff the vector is ternary, and the symbols then decode to the numeric vector; otherwise the error names a schema feature's value |
| Segments.Segment.Repr | panphon/segment.py:44-48 | succeeds iff the vector is ternary; with word-character names, scanning the listing gives one token per schema name, carrying its symbol |
| Segments.Segment.Match | panphon/segment.py:70-79 | true iff every (name, value) pair of `other` is also a pair of this segment |
| Segments.Segment.Intersection | panphon/segment.py:85-94 | exactly the keys both segments have with equal values, mapped to those values |
| Segments.Segment.Distance | panphon/segment.py:108-118 | zero iff the two vectors agree on their common prefix; at least the Hamming distance; at most twice it for ternary vectors |
| Segments.Segment.NormDistance | panphon/segment.py:120-131 | fails with division by zero iff the schema is empty; otherwise the distance divided by the schema length, non-negative, at most 2 for ternary vectors of equal length |
| Segments.Segment.HammingDistance | panphon/segment.py:136-137 | zero iff the vectors agree on their common prefix; at most either schema's length |
| Segments.Segment.NormHammingDistance | panphon/segment.py:139-140 | fails with division by zero iff the schema is empty; otherwise the Hamming distance divided by the schema length, between 0 and 1 |
| Segments.ProjectionsIgnoreExtraKeys | panphon/segment.py:44-106 | the listing, the pairs, the vector and the symbols depend only on the schema's values, not on extra keys |
| Segments.ReprRebuilds | panphon/segment.py:11-48 | when every schema name is made of word characters, building a segment from another's printed listing restores its schema values exactly, whatever `features` is given |
| Segments.IntersectionCommutes | panphon/segment.py:85-94 | the intersection is symmetric |
| Segments.IntersectionWithSelf | panphon/segment.py:85-94 | a segment's intersection with itself is its own data |
| Segments.IntersectionIsGreatestCommonPart | panphon/segment.py:85-94 | any dictionary contained in both segments is contained in their intersection |
| Segments.MatchAsWrittenFails | panphon/segment.py:79 | the body as written raises `NameError` even for an empty query, which the documented contract accepts |
| Segments.DistanceToSelf | panphon/segment.py:108-140 | every distance of a segment to itself is zero |
| Segments.DistanceSymmetric | panphon/segment.py:108-137 | both distances are symmetric |
| Segments.DistanceTriangle | panphon/segment.py:108-137 | both distances obey the triangle inequality on schemas of equal length |
| Segments.Ratio | panphon/segment.py:131-140 | the quotient times the schema length is the distance; it is non-negative and bounded by 1 or 2 when the distance is bounded by one or two times the length |
| Tables.Decode | panphon/segment.py:20 | definition of the `s2n` lookup applied to every symbol of a string (partner of `Encode`, see `DecodeEncode` and `EncodeDecode`) |
| Notation.Spell | panphon/segment.py:47 | definition of one listed pair, the sign followed by the name |
| Notation.Join | panphon/segment.py:47 | definition of `str.join`: the parts with the separator between neighbours |
| Notation.Render | panphon/segment.py:46-48 | definition of the bracketed, comma-separated listing (partner of `Scan`, see `ScanRender`) |
| Notation.FinditerAsWritten | panphon/segment.py:29 | definition of the scan with the pattern as written: it fails to compile for every notation |
| Segments.Defaults | panphon/segment.py:23-28 | definition of the first loop's result: every schema name with its `features` value, or 0 (see `InitDefault`) |
| Segments.Init | panphon/segment.py:23-31 | definition of a new segment's data: the defaults, then the notation's matches left to right (see `InitKeys`, `InitDefault`, `InitLastMatchWins`) |
| Segments.Segment.MatchAsWritten | panphon/segment.py:79 | definition of `match` as written: every call raises `NameError` for the unbound `features` |
| Metrics.L1 | panphon/segment.py:118 | definition of the sum of absolute differences over the zipped vectors (see the `L1` laws below) |
| Metrics.L1ZeroIff | panphon/segment.py:118 | the summed absolute difference is zero iff the zipped pairs are equal |
| Metrics.HammingZeroIff | panphon/segment.py:137 | the count of differing pairs is zero iff the zipped pairs are equal |
| Metrics.Hamming | panphon/segment.py:137 | at most the length of the shorter vector |
| Metrics.SelfDistance | panphon/segment.py:118-137 | both sums are zero for a vector against itself |
| Metrics.L1Symmetric | panphon/segment.py:118 | the summed absolute difference is symmetric |
| Metrics.HammingSymmetric | panphon/segment.py:137 | the count of differing pairs is symmetric |
| Metrics.HammingAtMostL1 | panphon/segment.py:118-137 | every differing pair adds at least 1 to the absolute sum |
| Metrics.L1AtMostTwiceHamming | panphon/segment.py:118-137 | for ternary vectors each differing pair adds at most 2 |
| Metrics.Truncated | panphon/segment.py:118-137 | `zip` stops at the shorter vector: both sums equal their values on the prefixes cut to the common length |
| Metrics.L1Triangle | panphon/segment.py:118 | triangle inequality for the absolute sum on vectors of equal length |
| Metrics.HammingTriangle | panphon/segment.py:137 | triangle inequality for the count of differing pairs on vectors of equal length |

## Left out

- Regular-expression engine: the `regex` module is not modelled. `Notation.Scan` stands for the left-to-right, non-overlapping, greedy search with the pattern of line 29 with its leading `+` escaped, `(\+|0|-)(\w+)`.
- Notation.Scan: `\w` is taken as ASCII letters, digits and `_`. The `regex` module's Unicode word class (accented letters, combining marks) is not modelled.
- Floating point: `norm_distance` and `norm_hamming_distance` return Python floats. The model returns exact reals, so rounding is not captured.
- `iteritems` and the Python 2/3 laziness of `map` in `string`: the eager `Items` and `String` give the same sequence. Generator and iterator objects are not modelled.
- `__iter__`: it only hands out `iter(names)`, and `names` is the public `const` sequence of the class.
- `__ge__`, `__and__` and `__sub__`: they only forward to `match`, `intersection` and `norm_distance`, which are modelled.
- Mutable default argument `features={}`: the shared default dictionary is never mutated by the class, so it is modelled as the parameter default `map[]`, as `ftstr=''` is modelled as `""`; the sharing itself is not modelled.
- Segments.Segment.Update: the argument is a dictionary. Passing a `Segment` (which `dict.update` treats as an iterable of names) is not modelled.
- Segments.Segment.Match: follows the documented superset contract. A key of `other` the segment lacks gives `false` rather than a `KeyError`.
- Segments.Segment.Set, Segments.Segment.Update and Segments.Segment.constructor: feature values are integers (`value`, `src` and `features` are integer maps). The source stores any Python object there, and a float or other value stored this way would reach `numeric`, `string` and the distances; the model does not capture those values.
- Tables: `n2s` and `s2n` are per-instance attributes in the source but never change. They are module constants here.
- Aliasing of `names`: the source keeps a reference to the caller's list. Later mutation of that list by the caller is not modelled, since `names` is an immutable sequence.
- Unknown notation signs: the pattern only ever captures `+`, `0` or `-`, so the `s2n` lookup on line 31 cannot fail and has no error path.

## Findings

| source | as written | input that shows it | evidently intended | confidence | as-written member | corrected member |
|---|---|---|---|---|---|---|
| panphon/segment.py:29 | the group of alternatives opens with an unescaped `+`, which has nothing to repeat, so compiling the pattern raises an error and no segment can be built | `Segment(names, {}, '+voice')` for any names | the two groups of line 29 with the leading `+` escaped: a sign among `+`, `0`, `-`, then a captured run of word characters, as the prose of the docstring on line 17 means it (the docstring repeats the unescaped `+`) | not executed | Notation.FinditerAsWritten, shown by Notation.PatternAsWrittenFails | Notation.Scan, proved by Notation.ScanToken and Notation.ScanRender |
| panphon/segment.py:79 | the body iterates over `features`, a name undefined in `match`, so every call raises `NameError` | `s.match({})` for any segment `s` | the documented superset test over `other` on lines 71-77 | not executed | Segments.Segment.MatchAsWritten, shown by Segments.MatchAsWrittenFails | Segments.Segment.Match, proved by its contract and Segments.IntersectionIsGreatestCommonPart |
