# Lookup helpers of CARET_analyze `Util`, in Dafny

This project models the static helpers of the `Util` class in
`src/caret_analyze/common/util.py`:

- the exact-match lookup `find_one` and the filter under it, `filter_items`;
- the fuzzy lookups `find_similar_one` (one key string per item) and
  `find_similar_one_multi_keys` (a dictionary of named fields per item, where
  an item's score is the mean of its per-field similarities);
- the small pure helpers `flatten`, `num_digit`, `get_ext` and `to_ns_and_name`.

Every helper is a pure function. Each exception the modelled helpers can raise
on the paths the model covers is a constructor of `Basics.Error`, and each
helper that can fail returns `Basics.Result`, so error paths are results, not
preconditions. (Two kinds of exception are not modelled: the `ValueError`
that CPython's integer-to-string conversion raises for very long integers,
and any exception raised inside the caller's `condition`, `key` or `keys`
function; see "Left out".)

- `ItemNotFound(message)` and `MultipleItemFound(message)` are the
  repository's two exception classes. Their messages are modelled exactly, so
  a plain "not found" can be told apart from a suggestion.
- `AssertionFailed` is the range assertion on the best score.
- `UnboundBest` is the `UnboundLocalError` raised when `most_similar_item` is
  read before it was ever assigned.
- `KeyMissing(name)`, `EmptyMean` and `NoneInMessage` are the `KeyError`,
  `StatisticsError` and `TypeError` that the multi-key lookup can raise.

The string-similarity ratio (difflib's `SequenceMatcher.ratio()`) is a
parameter `sim: (string, string) -> real`. Nothing is assumed about it in the
definitions. Lemmas that need its range take `SimInRange(sim)`, meaning every
ratio lies in [0, 1], as a hypothesis; under it the range assertion can never
fail. One lemma, `FindSimilarOneExactKey`, also assumes that the ratio is 1.0
exactly when the two strings are equal (both directions).

The scan over the items is `Similarity.Track`, one step per loop iteration. It
starts at 0.0 and records an item only when that item's score is strictly
greater than the running maximum. The lemmas show three things about it. It
records nothing exactly when no score is positive. A positive maximum always
comes with a recorded item. When an item is recorded, it is the first item
with the maximum score. The decision after the scan is `Similarity.Choose`,
and both fuzzy lookups share it.

Behaviour at the edges, modelled as the code does it:

- **Scores of 0.0.** If the collection is empty or no score is positive, the
  maximum stays at 0.0. With `th >= 0` the result is the plain "not found".
  With `th < 0` the code reads the unassigned best item, which gives
  `UnboundBest`.
- **Order of multi-key errors.** Items are scored in order, and the first item
  whose scoring raises decides the error. A requested field missing from the
  item raises `KeyError`. A request with no fields, over a non-empty
  collection, raises `StatisticsError`.
- **Multi-key suggestion text.** The suggestion lists every entry of the best
  item's dictionary, not only the requested fields. If any of those values is
  `None`, building the message raises `TypeError`.
- **Empty collection in the fuzzy lookups.** The code has no explicit guard
  that fails "not found" before the scan, and the model adds none: the result
  is the plain "not found" for `th >= 0` and `UnboundBest` for `th < 0`.

Data representation:

- Python dictionaries are insertion-ordered sequences of `(key, value)` pairs.
  `MultiKey.Lookup` takes the first entry with a given key. `MultiKey.IsDict`
  says that each key occurs once, as in a real dictionary; under it, every
  entry with the key holds the value `Lookup` returns.
- The target mapping is a sequence of `(field, target)` pairs, in iteration
  order.
- `os.path.basename` is the text after the last `/`.

## Model

| member | source | states |
|---|---|---|
| Seqs.FilterItems | src/caret_analyze/common/util.py:39-43 | an absent collection gives `[]`; otherwise the result holds each item of the collection exactly as often as it occurs there when it matches, and no other item, one per matching position (order by `FilterAppend`) |
| Seqs.FilterMultiplicity | src/caret_analyze/common/util.py:40-43 | the filtered list is a sub-multiset of the input holding every occurrence of a matching item and none of any other |
| Seqs.FilterCount | src/caret_analyze/common/util.py:40-43 | the filtered list is as long as the set of matching positions |
| Seqs.FilterAppend | src/caret_analyze/common/util.py:40-43 | filtering distributes over concatenation, so kept items stay in input order |
| Seqs.Flatten | src/caret_analyze/common/util.py:33-37 | an element is in the flattened list iff it is in one of the inner lists, and a single inner list flattens to itself; with `FlattenAppend` this makes the result the in-order concatenation of the inner lists |
| Seqs.FlattenAppend | src/caret_analyze/common/util.py:33-37 | flattening distributes over concatenation of the outer list |
| Seqs.FlattenLength | src/caret_analyze/common/util.py:33-37 | the flattened length is the total length of the inner lists |
| Digits.DecimalString | src/caret_analyze/common/util.py:47 | `str(n)` is a non-empty digit string with no leading zero unless it is "0" |
| Digits.ParseDecimalString | src/caret_analyze/common/util.py:47 | reading the rendered digits back gives the number |
| Digits.DecimalStringMagnitude | src/caret_analyze/common/util.py:47 | a positive number with k digits lies in [10^(k-1), 10^k) |
| Digits.NumDigit | src/caret_analyze/common/util.py:45-47 | the count is at least 1, is 1 for zero, and for non-zero i satisfies 10^(n-1) <= abs(i) < 10^n |
| Digits.NumDigitOfNegation | src/caret_analyze/common/util.py:47 | num_digit(-i) == num_digit(i) |
| Digits.NumDigitUnique | src/caret_analyze/common/util.py:45-47 | any k meeting the power-of-ten bounds for abs(i) is the digit count |
| Digits.Pow10Monotone | src/caret_analyze/common/util.py:45-47 | powers of ten grow with the exponent, which pins the digit count down |
| Paths.Join | src/caret_analyze/common/util.py:162 | `sep.join(parts)` ends with the last part, and with two or more parts that last part is preceded by the separator; `JoinSplit` and `SplitJoin` relate it to `Split` |
| Paths.Split | src/caret_analyze/common/util.py:161 | `str.split(sep)` gives at least one piece and no piece contains the separator |
| Paths.JoinSplit | src/caret_analyze/common/util.py:161-162 | joining the pieces of a split gives the string back |
| Paths.SplitWithoutSep | src/caret_analyze/common/util.py:161 | a string without the separator splits to itself alone |
| Paths.SplitAfterSep | src/caret_analyze/common/util.py:161 | a trailing separator and separator-free piece add exactly that piece to the split |
| Paths.SplitJoin | src/caret_analyze/common/util.py:161-162 | splitting a join of separator-free pieces gives the pieces back |
| Paths.LastPieceIsSuffix | src/caret_analyze/common/util.py:157 | the last piece is the longest separator-free suffix of the string |
| Paths.Basename | src/caret_analyze/common/util.py:157 | `os.path.basename` of a '/'-separated path is its longest '/'-free suffix: a suffix, with no '/', that is the whole path or is preceded by '/' |
| Paths.NestedSuffix | src/caret_analyze/common/util.py:157 | a separator-free suffix of a separator-free suffix is a suffix of the whole string free of both separators, preceded by one of them unless it is the whole string |
| Paths.GetExt | src/caret_analyze/common/util.py:155-157 | the extension is a suffix of the path with no '.' or '/', and is either the whole path or preceded by '.' or '/' |
| Paths.ExtensionShape | src/caret_analyze/common/util.py:157 | the last '.'-piece of the basename is the longest suffix of the path free of '.' and '/' |
| Paths.ToNsAndName | src/caret_analyze/common/util.py:159-164 | ns ends with '/', name has no '/', ns + name is the input when it has a '/', else ns is "/" and name is the input |
| Paths.NsAndNameRoundTrip | src/caret_analyze/common/util.py:159-164 | any ns ending in '/' and name without '/' are recovered from ns + name |
| Exact.FindOne | src/caret_analyze/common/util.py:56-88 | absent items raise not found; success iff exactly one position matches, returning that item, which is in the collection; "multiple found" iff two or more match; "not found" iff none match |
| Exact.FindOneUniqueExample | src/caret_analyze/common/util.py:79-88 | looking up 3 in [1, 2, 3, 4] returns 3 |
| Exact.FindOneAmbiguousExample | src/caret_analyze/common/util.py:85-86 | looking up items above 2 in [1, 2, 3, 4] raises "multiple found" |
| Similarity.Track | src/caret_analyze/common/util.py:98-103 | the running maximum is at least 0.0, is 0.0 while no item is recorded, and is the score of the recorded item, which comes from the collection |
| Similarity.TrackBounds | src/caret_analyze/common/util.py:98-105 | the running maximum is at least 0.0 and bounds every score; no item is recorded iff no score is positive; a positive maximum has a recorded item |
| Similarity.TrackFindsFirstMax | src/caret_analyze/common/util.py:98-103 | a recorded item is the first item with the maximum score, and the maximum is its score |
| Similarity.FirstMaxUnique | src/caret_analyze/common/util.py:101-103 | the first position attaining the maximum is unique |
| Similarity.TrackRecordsFirstMax | src/caret_analyze/common/util.py:98-103 | when the first maximum is positive the scan ends holding its score and item |
| Similarity.Choose | src/caret_analyze/common/util.py:105-113 | a returned item is in the collection and scores exactly 1.0; every failure is "not found", the range assertion, the unassigned read or the message `TypeError`; a "not found" other than the plain one carries the suggestion for an item scoring strictly between th and 1.0 |
| Similarity.ChooseAssertion | src/caret_analyze/common/util.py:105 | the range assertion fails iff some score exceeds 1.0 |
| Similarity.ChooseUnbound | src/caret_analyze/common/util.py:103-110 | the unassigned best item is read iff th < 0 and no score is positive |
| Similarity.ChooseFound | src/caret_analyze/common/util.py:106-107 | a returned item is the first maximum and scores exactly 1.0 |
| Similarity.ChooseExact | src/caret_analyze/common/util.py:106-107 | a first maximum scoring 1.0 is returned |
| Similarity.ChooseSuggests | src/caret_analyze/common/util.py:108-111 | a positive first maximum strictly between th and 1.0 raises the suggestion for its item |
| Similarity.ChooseNotFound | src/caret_analyze/common/util.py:112-113 | with th >= 0 and all scores <= th and below 1.0 the plain "not found" is raised, so a maximum equal to th is not a suggestion |
| Similarity.ChooseTrichotomy | src/caret_analyze/common/util.py:105-113 | with scores in [0, 1] and th >= 0 the outcome is exactly one of: first maximum returned at 1.0, its suggestion strictly between th and 1.0, plain "not found" when no score exceeds th |
| Similarity.SuggestMessage | src/caret_analyze/common/util.py:109-110 | the suggestion message is exactly "Arguments may be wrong. Isn't it '" followed by the key and then "'?", and differs from the plain "not found" message |
| Similarity.FindSimilarOne | src/caret_analyze/common/util.py:90-113 | with the ratio in range the assertion holds; with th >= 0 the best item is never read unassigned; a returned item is in the collection and its key scores 1.0; every failure is one of the listed kinds |
| Similarity.FindSimilarOneFirstExact | src/caret_analyze/common/util.py:98-107 | the first item whose key scores 1.0 is returned, even if a later one does too |
| Similarity.FindSimilarOneSuggests | src/caret_analyze/common/util.py:108-111 | a first best score strictly between th and 1.0 raises "not found" with a message naming the best item's key |
| Similarity.FindSimilarOneNotFound | src/caret_analyze/common/util.py:108-113 | with the ratio in range and th >= 0, the plain "not found" is raised iff every score is <= th and below 1.0 |
| Similarity.FindSimilarOneNothingSimilar | src/caret_analyze/common/util.py:98-113 | an empty collection or all-zero scores with th >= 0 give the plain "not found", and no best item is ever recorded |
| Similarity.FindSimilarOneExactKey | src/caret_analyze/common/util.py:99-107 | if the ratio is 1.0 exactly on equal strings, the first item whose key equals the target is returned |
| MultiKey.Lookup | src/caret_analyze/common/util.py:127 | `d[name]` is absent iff no entry has that key, and otherwise is the value of an entry with that key; in a dictionary whose keys are unique it is the value of every entry with that key |
| MultiKey.FieldSimilarity | src/caret_analyze/common/util.py:127-133 | a requested field scores 0.0 when its value is `None` (or missing), the ratio of its value to the target otherwise, and lies in [0, 1] when the ratio does |
| MultiKey.FieldScores | src/caret_analyze/common/util.py:124-133 | one score per requested field, in order, each the `FieldSimilarity` of that field; the first missing field raises `KeyError` with its name |
| MultiKey.Mean | src/caret_analyze/common/util.py:134 | `statistics.mean` of values in [0, 1] lies in [0, 1]; the mean times the count is the sum |
| MultiKey.SumBounds | src/caret_analyze/common/util.py:134 | a sum of values in [0, 1] lies between 0 and the count |
| MultiKey.ItemScore | src/caret_analyze/common/util.py:123-135 | scoring succeeds iff at least one field is requested and the item has all of them; no field raises `StatisticsError`, and with fields requested every failure is `KeyError`; with the ratio in range the score is in [0, 1] |
| MultiKey.ItemScoreIsMean | src/caret_analyze/common/util.py:126-134 | a scorable item's score is the mean of the list holding one `FieldSimilarity` per requested field, in the order requested (so a `None` field contributes 0.0) |
| MultiKey.FirstScoreError | src/caret_analyze/common/util.py:123-133 | nothing is raised iff every item can be scored; otherwise the raised exception is that of the first item that cannot |
| MultiKey.FieldLines | src/caret_analyze/common/util.py:144-146 | the lines exist iff no dictionary value is `None`, and are the flattened `FieldLine` texts of every entry in dictionary order, `FieldLine` being the `k='v'` template of line 146: the name, `='`, the value, `'` and a newline |
| MultiKey.FieldsMessage | src/caret_analyze/common/util.py:142-146 | the multi-key message exists iff no dictionary value is `None`, and is the header "Arguments may be wrong. Aren't they bellow?" and a newline, followed by the `k='v'` lines of every entry |
| MultiKey.FindSimilarOneMultiKeys | src/caret_analyze/common/util.py:115-149 | items but no requested field raise `StatisticsError`; a `KeyError` names a requested field some item lacks; well-formed input never raises either; the assertion and unassigned read are excluded as in the single-key lookup; a returned item scores exactly 1.0 |
| MultiKey.MultiKeysKeyMissing | src/caret_analyze/common/util.py:123-133 | if any item lacks any requested field, the lookup raises `KeyError`; the error is the one raised by scoring the first unscorable item, which comes at or before that item |
| MultiKey.MultiKeysDecision | src/caret_analyze/common/util.py:134-149 | with every item scorable the lookup is the shared decision on the mean scores, with the best item's dictionary as suggestion |
| MultiKey.MeanSimilarityInUnit | src/caret_analyze/common/util.py:134-138 | with the ratio in [0, 1], every mean score of well-formed input lies in [0, 1], so the range assertion holds |
| MultiKey.MultiKeysFirstExact | src/caret_analyze/common/util.py:134-140 | the first item whose mean score is 1.0 is returned |
| MultiKey.MultiKeysSuggests | src/caret_analyze/common/util.py:141-147 | a first best score strictly between th and 1.0 raises "not found" listing every entry of the best item's dictionary after the header, or `TypeError` if one of its values is `None` |
| MultiKey.MultiKeysNotFound | src/caret_analyze/common/util.py:141-149 | with the ratio in range, th >= 0 and scorable items, the plain "not found" is raised iff every mean score is <= th and below 1.0 |
| MultiKey.MultiKeysEmpty | src/caret_analyze/common/util.py:122-149 | an empty collection with th >= 0 gives the plain "not found" whatever fields are requested |

## Left out

- difflib's `SequenceMatcher.ratio()`: it is a foreign library algorithm with floating-point output, so it is the abstract parameter `sim`. Its range is a lemma hypothesis, and only `FindSimilarOneExactKey` assumes more, as an explicit hypothesis: `sim(a, b) == 1.0` exactly when `a == b`.
- Floating point: scores are `real` and `statistics.mean` is sum divided by count, with no IEEE rounding.
- `ns_to_ms` (util.py:151-153): a single floating-point multiplication.
- `ext` (util.py:49-54): a wrapper over `os.path.splitext`, whose leading-dot rules are library behaviour; `get_ext` is modelled instead, with `basename` as the text after the last `/`.
- The module logger, which is never used, and the bodies of the exception classes from `..exceptions`: each exception kind is a constructor of `Basics.Error`.
- Non-string dictionary values other than `None`, and callers passing something other than a function as the condition or key extractor: the model's types rule them out.
- Caller functions: `condition`, `key` and `keys` are modelled as total, deterministic functions. An exception raised inside one is not modelled; Python raises it from the first item where it occurs (`condition` inside `filter` at util.py:43, `key` at util.py:100 and 110, `keys` at util.py:125 and 144). Nor is a second call that gives a different result: `key(most_similar_item)` at util.py:110 and `keys(most_similar_item)` at util.py:144 are taken to return what the same item gave during the scan.
- Python's generic iterables: collections are finite sequences iterated once, in order.
- Default arguments (util.py:94-95 and 119-120): `key` and `keys` default to the identity and `th` to 0.6. The model takes them as explicit parameters, so a call with the defaults is a call with those values.
- Digits.NumDigit: does not model CPython's limit on integer-to-string conversion (4300 digits by default, configurable at run time), past which `str(abs(i))` raises `ValueError`; the model counts the digits of any integer.
