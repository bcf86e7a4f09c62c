/** `Util.find_similar_one_multi_keys`: the fuzzy lookup where the target is
    several named fields and an item's score is the mean of its per-field
    similarities. */
module MultiKey {
  import opened Basics
  import opened Seqs
  import opened Similarity

  /** A value stored in an item's dictionary: a string or `None`. */
  datatype FieldValue = NoneValue | Str(text: string)

  /** An insertion-ordered dictionary from field names to values. */
  type Fields = seq<(string, FieldValue)>

  /** The requested fields: field names with the target string for each, in
      the order the caller's mapping iterates them. */
  type Targets = seq<(string, string)>

  /** Each key occurs in at most one entry, as in a real Python dictionary. */
  predicate IsDict(d: Fields)
  {
    forall i, j :: 0 <= i < j < |d| ==> d[i].0 != d[j].0
  }

  /** `d[name]`: the value stored under `name`, or `None` when `name` is not
      a key. The first entry with the key is taken; in a dictionary it is the
      only one, so every entry with the key holds the returned value. */
  function Lookup(d: Fields, name: string): (r: Option<FieldValue>)
    ensures r.None? <==> forall i :: 0 <= i < |d| ==> d[i].0 != name
    ensures r.Some? ==> exists i :: 0 <= i < |d| && d[i] == (name, r.value)
    ensures r.Some? && IsDict(d) ==> forall i :: 0 <= i < |d| && d[i].0 == name ==> d[i].1 == r.value
    decreases |d|
  {
    if |d| == 0 then None
    else if d[0].0 == name then Some(d[0].1)
    else
      var r := Lookup(d[1..], name);
      assert forall i :: 1 <= i < |d| ==> d[i] == d[1..][i - 1];
      assert IsDict(d) ==> IsDict(d[1..]);
      r
  }

  /** The similarity of one requested field: 0.0 when the item's value is
      `None`, otherwise the ratio between the item's value and the target. */
  function FieldSimilarity(d: Fields, target: (string, string), sim: (string, string) -> real): (r: real)
    ensures SimInRange(sim) ==> 0.0 <= r <= 1.0
    ensures Lookup(d, target.0).None? || Lookup(d, target.0) == Some(NoneValue) ==> r == 0.0
    ensures Lookup(d, target.0).Some? && Lookup(d, target.0).value.Str? ==>
      r == sim(Lookup(d, target.0).value.text, target.1)
  {
    match Lookup(d, target.0)
    case Some(Str(v)) => sim(v, target.1)
    case _ => 0.0
  }

  /** The per-field similarities of one item, in the order of the requested
      fields; the first requested field missing from the item raises `KeyError`. */
  function FieldScores(targets: Targets, d: Fields, sim: (string, string) -> real): (r: Result<seq<real>>)
    ensures r.Ok? <==> forall i :: 0 <= i < |targets| ==> Lookup(d, targets[i].0).Some?
    ensures r.Ok? ==> |r.value| == |targets|
    ensures r.Ok? ==> forall i :: 0 <= i < |targets| ==> r.value[i] == FieldSimilarity(d, targets[i], sim)
    ensures r.Err? ==> exists k :: (
      && 0 <= k < |targets| && r.error == KeyMissing(targets[k].0)
      && Lookup(d, targets[k].0).None?
      && forall i :: 0 <= i < k ==> Lookup(d, targets[i].0).Some?)
    decreases |targets|
  {
    if |targets| == 0 then Ok([])
    else
      var n := |targets| - 1;
      var init := targets[..n];
      assert forall i :: 0 <= i < n ==> init[i] == targets[i];
      match FieldScores(init, d, sim)
      case Err(e) => Err(e)
      case Ok(scores) =>
        if Lookup(d, targets[n].0).None? then Err(KeyMissing(targets[n].0))
        else
          var all := scores + [FieldSimilarity(d, targets[n], sim)];
          assert forall i :: 0 <= i < |targets| ==> all[i] == FieldSimilarity(d, targets[i], sim) by {
            forall i | 0 <= i < n
              ensures all[i] == FieldSimilarity(d, targets[i], sim)
            {
              assert all[i] == scores[i] && init[i] == targets[i];
            }
          }
          Ok(all)
  }

  /** The sum of a sequence of reals. */
  function Sum(xs: seq<real>): real
    decreases |xs|
  {
    if |xs| == 0 then 0.0 else Sum(xs[..|xs| - 1]) + xs[|xs| - 1]
  }

  /** `statistics.mean`: the sum divided by the count. The mean of values
      in [0, 1] lies in [0, 1]. */
  function Mean(xs: seq<real>): (r: real)
    requires |xs| > 0
    ensures r * (|xs| as real) == Sum(xs)
    ensures (forall i :: 0 <= i < |xs| ==> 0.0 <= xs[i] <= 1.0) ==> 0.0 <= r <= 1.0
  {
    var n := |xs| as real;
    assert n > 0.0;
    assert (forall i :: 0 <= i < |xs| ==> 0.0 <= xs[i] <= 1.0) ==> 0.0 <= Sum(xs) / n <= 1.0 by {
      if forall i :: 0 <= i < |xs| ==> 0.0 <= xs[i] <= 1.0 {
        SumBounds(xs);
        DivideAtMostOne(Sum(xs), n);
      }
    }
    Sum(xs) / n
  }

  /** A sum of values in [0, 1] lies between 0 and the count. */
  lemma {:induction false} SumBounds(xs: seq<real>)
    requires forall i :: 0 <= i < |xs| ==> 0.0 <= xs[i] <= 1.0
    ensures 0.0 <= Sum(xs) <= |xs| as real
    decreases |xs|
  {
    if |xs| > 0 {
      var init := xs[..|xs| - 1];
      assert forall i :: 0 <= i < |init| ==> init[i] == xs[i];
      SumBounds(init);
    }
  }

  /** Dividing a value in [0, n] by a positive n gives a value in [0, 1]. */
  lemma DivideAtMostOne(x: real, n: real)
    requires 0.0 <= x <= n && 0.0 < n
    ensures 0.0 <= x / n <= 1.0
  {
    var q := x / n;
    assert q * n == x;
    FactorSign(q, n);
    assert (1.0 - q) * n == n - x;
    FactorSign(1.0 - q, n);
  }

  /** A product with a positive factor is non-negative only if the other
      factor is. */
  lemma FactorSign(a: real, n: real)
    requires 0.0 < n && 0.0 <= a * n
    ensures 0.0 <= a
  {
  }

  /** The score of one item: the mean of its per-field similarities. A
      missing requested field raises `KeyError`; no requested field at all
      raises `StatisticsError`. With the ratio in [0, 1] the score is in
      [0, 1]. */
  function ItemScore(targets: Targets, d: Fields, sim: (string, string) -> real): (r: Result<real>)
    ensures r.Ok? <==> |targets| > 0 && forall i :: 0 <= i < |targets| ==> Lookup(d, targets[i].0).Some?
    ensures |targets| == 0 ==> r == Err(EmptyMean)
    ensures r.Err? ==> r.error == EmptyMean || r.error.KeyMissing?
    ensures r.Err? && |targets| > 0 ==> r.error.KeyMissing?
    ensures r.Ok? && SimInRange(sim) ==> 0.0 <= r.value <= 1.0
  {
    match FieldScores(targets, d, sim)
    case Err(e) => Err(e)
    case Ok(scores) =>
      if |scores| == 0 then Err(EmptyMean)
      else
        assert SimInRange(sim) ==> forall i :: 0 <= i < |scores| ==> 0.0 <= scores[i] <= 1.0;
        Ok(Mean(scores))
  }

  /** An item's score is the mean of its per-field similarities, one per
      requested field in the order requested. */
  lemma ItemScoreIsMean(targets: Targets, d: Fields, sim: (string, string) -> real)
    requires ItemScore(targets, d, sim).Ok?
    ensures ItemScore(targets, d, sim)
      == Ok(Mean(seq(|targets|, i requires 0 <= i < |targets| => FieldSimilarity(d, targets[i], sim))))
  {
    var fs := FieldScores(targets, d, sim);
    assert fs.Ok? && |fs.value| == |targets| > 0;
    assert fs.value == seq(|targets|, i requires 0 <= i < |targets| => FieldSimilarity(d, targets[i], sim));
  }

  /** The first item whose scoring raises, with the exception it raises. */
  function FirstScoreError<T>(items: seq<T>, score: T -> Result<real>): (r: Option<Error>)
    ensures r.None? <==> forall i :: 0 <= i < |items| ==> score(items[i]).Ok?
    ensures r.Some? ==> exists k :: (
      && 0 <= k < |items| && score(items[k]) == Err(r.value)
      && forall i :: 0 <= i < k ==> score(items[i]).Ok?)
    decreases |items|
  {
    if |items| == 0 then None
    else
      var n := |items| - 1;
      var init := items[..n];
      assert forall i :: 0 <= i < n ==> init[i] == items[i];
      match FirstScoreError(init, score)
      case Some(e) => Some(e)
      case None =>
        match score(items[n])
        case Err(e) => Some(e)
        case Ok(_) => None
  }

  /** The scoring of an item, with the exception it may raise. */
  function ScoreOf<T>(targets: Targets, keys: T -> Fields, sim: (string, string) -> real): T -> Result<real>
  {
    x => ItemScore(targets, keys(x), sim)
  }

  /** The score of an item as a total function: its mean similarity when it
      can be scored (0.0 otherwise, a value the lookup never consults). */
  function MeanSimilarity<T>(targets: Targets, keys: T -> Fields, sim: (string, string) -> real): T -> real
  {
    x => match ItemScore(targets, keys(x), sim) case Ok(v) => v case Err(_) => 0.0
  }

  /** One `k='v'` line of the multi-key suggestion. */
  function FieldLine(name: string, value: string): string
  {
    name + "='" + value + "'\n"
  }

  /** The header of the multi-key suggestion. */
  const MultiHeader: string := "Arguments may be wrong. " + "Aren't they bellow?\n"

  /** The lines for every entry of a dictionary, in dictionary order; `None`
      when some value is `None` (concatenating it raises `TypeError`). */
  function FieldLines(d: Fields): (r: Option<string>)
    ensures r.Some? <==> forall i :: 0 <= i < |d| ==> d[i].1.Str?
    ensures r.Some? ==> r.value == Flatten(seq(|d|, i requires 0 <= i < |d| && d[i].1.Str? => FieldLine(d[i].0, d[i].1.text)))
    decreases |d|
  {
    if |d| == 0 then
      assert seq(0, i requires 0 <= i < |d| && d[i].1.Str? => FieldLine(d[i].0, d[i].1.text)) == [];
      Some("")
    else
      var n := |d| - 1;
      var init := d[..n];
      assert forall i :: 0 <= i < n ==> init[i] == d[i];
      match FieldLines(init)
      case None => None
      case Some(lines) =>
        match d[n].1
        case NoneValue => None
        case Str(v) =>
          var all := seq(|d|, i requires 0 <= i < |d| && d[i].1.Str? => FieldLine(d[i].0, d[i].1.text));
          var before := seq(|init|, i requires 0 <= i < |init| && init[i].1.Str? => FieldLine(init[i].0, init[i].1.text));
          assert all[..n] == before;
          Some(lines + FieldLine(d[n].0, v))
  }

  /** The multi-key suggestion message for an item's dictionary. */
  function FieldsMessage(d: Fields): (r: Option<string>)
    ensures r.Some? <==> forall i :: 0 <= i < |d| ==> d[i].1.Str?
    ensures r.Some? ==> |MultiHeader| <= |r.value| && r.value[..|MultiHeader|] == MultiHeader
    ensures r.Some? ==> (r.value[|MultiHeader|..] ==
      Flatten(seq(|d|, i requires 0 <= i < |d| && d[i].1.Str? => FieldLine(d[i].0, d[i].1.text))))
  {
    match FieldLines(d)
    case Some(lines) => Some(MultiHeader + lines)
    case None => None
  }

  /** Every item has every requested field and at least one field is
      requested: the conditions under which scoring never raises. */
  ghost predicate WellFormed<T>(targets: Targets, items: seq<T>, keys: T -> Fields)
  {
    && |targets| > 0
    && forall i, j :: 0 <= i < |items| && 0 <= j < |targets| ==> Lookup(keys(items[i]), targets[j].0).Some?
  }

  /** `find_similar_one_multi_keys`. Items are scored in order and the first
      item whose scoring raises ends the lookup with that exception: with
      items present and no requested field that is `StatisticsError`, and a
      `KeyError` names a requested field some item lacks. Otherwise the
      decision is the single-key one on the mean scores, with the suggestion
      listing the best item's whole dictionary. */
  function FindSimilarOneMultiKeys<T>(targets: Targets, items: seq<T>, keys: T -> Fields, th: real,
                                      sim: (string, string) -> real): (r: Result<T>)
    ensures |items| > 0 && |targets| == 0 ==> r == Err(EmptyMean)
    ensures r.Err? && r.error.KeyMissing? ==> exists i, j :: (
      && 0 <= i < |items| && 0 <= j < |targets|
      && r.error.name == targets[j].0 && Lookup(keys(items[i]), targets[j].0).None?)
    ensures WellFormed(targets, items, keys) ==> !r.Err? || !(r.error.KeyMissing? || r.error == EmptyMean)
    ensures SimInRange(sim) ==> r != Err(AssertionFailed)
    ensures 0.0 <= th ==> r != Err(UnboundBest)
    ensures r.Ok? ==> r.value in items && ItemScore(targets, keys(r.value), sim) == Ok(1.0)
  {
    var score := ScoreOf(targets, keys, sim);
    match FirstScoreError(items, score)
    case Some(e) =>
      assert exists k :: 0 <= k < |items| && ItemScore(targets, keys(items[k]), sim) == Err(e);
      Err(e)
    case None =>
      var s := MeanSimilarity(targets, keys, sim);
      var suggestion := x => FieldsMessage(keys(x));
      ChooseAssertion(items, s, th, suggestion);
      ChooseUnbound(items, s, th, suggestion);
      assert forall j :: 0 <= j < |items| ==> ItemScore(targets, keys(items[j]), sim) == Ok(s(items[j]));
      var r := Choose(items, s, th, suggestion);
      assert r.Ok? ==> r.value in items && s(r.value) == 1.0 by {
        if r.Ok? {
          var k := ChooseFound(items, s, th, suggestion);
        }
      }
      r
  }

  /** Every item is scored before the decision: as soon as any item lacks
      any requested field, the lookup raises `KeyError`, and the field it
      names is missing from the first item that cannot be scored, which
      comes no later than that item. */
  lemma MultiKeysKeyMissing<T>(targets: Targets, items: seq<T>, keys: T -> Fields, th: real,
                               sim: (string, string) -> real, i: int, j: int)
    requires 0 <= i < |items| && 0 <= j < |targets|
    requires Lookup(keys(items[i]), targets[j].0).None?
    ensures var r := FindSimilarOneMultiKeys(targets, items, keys, th, sim);
      && r.Err? && r.error.KeyMissing?
      && exists k :: (
        && 0 <= k <= i && ItemScore(targets, keys(items[k]), sim) == Err(r.error)
        && forall m :: 0 <= m < k ==> ItemScore(targets, keys(items[m]), sim).Ok?)
  {
    var score := ScoreOf(targets, keys, sim);
    assert score(items[i]).Err?;
    var e := FirstScoreError(items, score);
    var k :| 0 <= k < |items| && score(items[k]) == Err(e.value) && forall m :: 0 <= m < k ==> score(items[m]).Ok?;
    assert k <= i;
  }

  /** With every item scorable, the lookup makes the single-key decision on
      the mean scores, suggesting the best item's dictionary. */
  lemma MultiKeysDecision<T>(targets: Targets, items: seq<T>, keys: T -> Fields, th: real,
                             sim: (string, string) -> real)
    requires WellFormed(targets, items, keys)
    ensures FindSimilarOneMultiKeys(targets, items, keys, th, sim) ==
      Choose(items, MeanSimilarity(targets, keys, sim), th, x => FieldsMessage(keys(x)))
  {
  }

  /** On well-formed input every item is scored, and its score is the one
      the decision uses. */
  lemma MeanSimilarityAgrees<T>(targets: Targets, items: seq<T>, keys: T -> Fields, sim: (string, string) -> real)
    requires WellFormed(targets, items, keys)
    ensures forall j :: 0 <= j < |items| ==>
      ItemScore(targets, keys(items[j]), sim) == Ok(MeanSimilarity(targets, keys, sim)(items[j]))
  {
  }

  /** The first item whose mean score is exactly 1.0 is returned. */
  lemma MultiKeysFirstExact<T>(targets: Targets, items: seq<T>, keys: T -> Fields, th: real,
                               sim: (string, string) -> real, k: int)
    requires WellFormed(targets, items, keys) && SimInRange(sim)
    requires 0 <= k < |items| && ItemScore(targets, keys(items[k]), sim) == Ok(1.0)
    requires forall j :: 0 <= j < k ==> ItemScore(targets, keys(items[j]), sim) != Ok(1.0)
    ensures FindSimilarOneMultiKeys(targets, items, keys, th, sim) == Ok(items[k])
  {
    var s := MeanSimilarity(targets, keys, sim);
    MeanSimilarityAgrees(targets, items, keys, sim);
    MeanSimilarityInUnit(targets, items, keys, sim);
    FirstExactIsFirstMax(items, s, k);
    ChooseExact(items, s, th, x => FieldsMessage(keys(x)), k);
    MultiKeysDecision(targets, items, keys, th, sim);
  }

  /** With the ratio in [0, 1], every item of well-formed input has a mean
      score in [0, 1]. */
  lemma MeanSimilarityInUnit<T>(targets: Targets, items: seq<T>, keys: T -> Fields, sim: (string, string) -> real)
    requires WellFormed(targets, items, keys) && SimInRange(sim)
    ensures forall j :: 0 <= j < |items| ==> 0.0 <= MeanSimilarity(targets, keys, sim)(items[j]) <= 1.0
  {
    forall j | 0 <= j < |items|
      ensures 0.0 <= MeanSimilarity(targets, keys, sim)(items[j]) <= 1.0
    {
      assert ItemScore(targets, keys(items[j]), sim).Ok?;
    }
  }

  /** When the first item with the best mean score has a score strictly
      between `th` and 1.0 (and above 0.0), the failure lists one `k='v'`
      line for every entry of that item's dictionary, requested or not, in
      dictionary order; if one of those values is `None`, building the
      message raises `TypeError`. */
  lemma MultiKeysSuggests<T>(targets: Targets, items: seq<T>, keys: T -> Fields, th: real,
                             sim: (string, string) -> real, k: int)
    requires WellFormed(targets, items, keys)
    requires 0 <= k < |items|
    requires forall j :: 0 <= j < |items| ==>
      ItemScore(targets, keys(items[j]), sim).value <= ItemScore(targets, keys(items[k]), sim).value
    requires forall j :: 0 <= j < k ==>
      ItemScore(targets, keys(items[j]), sim).value < ItemScore(targets, keys(items[k]), sim).value
    requires var v := ItemScore(targets, keys(items[k]), sim).value; 0.0 < v && th < v < 1.0
    ensures var d := keys(items[k]);
      (forall i :: 0 <= i < |d| ==> d[i].1.Str?) ==>
        FindSimilarOneMultiKeys(targets, items, keys, th, sim) == Err(ItemNotFound(MultiHeader +
          Flatten(seq(|d|, i requires 0 <= i < |d| && d[i].1.Str? => FieldLine(d[i].0, d[i].1.text)))))
    ensures var d := keys(items[k]);
      (exists i :: 0 <= i < |d| && d[i].1.NoneValue?) ==>
        FindSimilarOneMultiKeys(targets, items, keys, th, sim) == Err(NoneInMessage)
  {
    MultiKeysDecision(targets, items, keys, th, sim);
    MeanSimilarityAgrees(targets, items, keys, sim);
    var s := MeanSimilarity(targets, keys, sim);
    assert IsFirstMax(items, s, k);
    ChooseSuggests(items, s, th, x => FieldsMessage(keys(x)), k);
  }

  /** With the ratio in [0, 1], a non-negative threshold and every item
      scorable, the plain "not found" is raised exactly when every mean score
      is at most `th` and below 1.0. */
  lemma MultiKeysNotFound<T>(targets: Targets, items: seq<T>, keys: T -> Fields, th: real,
                             sim: (string, string) -> real)
    requires WellFormed(targets, items, keys) && SimInRange(sim) && 0.0 <= th
    ensures FindSimilarOneMultiKeys(targets, items, keys, th, sim) == Err(ItemNotFound(NotFoundMessage)) <==>
      forall j :: 0 <= j < |items| ==>
        ItemScore(targets, keys(items[j]), sim).value <= th && ItemScore(targets, keys(items[j]), sim).value < 1.0
  {
    MultiKeysDecision(targets, items, keys, th, sim);
    var s := MeanSimilarity(targets, keys, sim);
    var suggestion := x => FieldsMessage(keys(x));
    MeanSimilarityAgrees(targets, items, keys, sim);
    if forall j :: 0 <= j < |items| ==> s(items[j]) <= th && s(items[j]) < 1.0 {
      ChooseNotFound(items, s, th, suggestion);
    } else {
      var j :| 0 <= j < |items| && !(s(items[j]) <= th && s(items[j]) < 1.0);
      TrackBounds(items, s);
      var k := TrackFindsFirstMax(items, s);
      if s(items[k]) == 1.0 {
        ChooseExact(items, s, th, suggestion, k);
      } else {
        ChooseSuggests(items, s, th, suggestion, k);
        assert MultiHeader[0] == 'A' && NotFoundMessage[0] == 'F';
      }
    }
  }

  /** An empty collection raises the plain "not found" under a non-negative
      threshold, whatever fields are requested. */
  lemma MultiKeysEmpty<T>(targets: Targets, keys: T -> Fields, th: real, sim: (string, string) -> real)
    requires 0.0 <= th
    ensures FindSimilarOneMultiKeys(targets, [], keys, th, sim) == Err(ItemNotFound(NotFoundMessage))
  {
  }
}
