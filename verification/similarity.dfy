/** Best-item tracking shared by both fuzzy lookups, and the single-key
    lookup `Util.find_similar_one`. The string-similarity ratio is a parameter
    `sim(a, b)`; nothing is assumed about it except where a lemma says so. */
module Similarity {
  import opened Basics

  /** The similarity ratio returns values in the closed interval [0, 1]. */
  ghost predicate SimInRange(sim: (string, string) -> real)
  {
    forall a, b :: 0.0 <= sim(a, b) <= 1.0
  }

  /** Position `k` holds a maximum score of `items`, and every earlier item
      scores strictly less. */
  ghost predicate IsFirstMax<T>(items: seq<T>, score: T -> real, k: int)
  {
    && 0 <= k < |items|
    && (forall j :: 0 <= j < |items| ==> score(items[j]) <= score(items[k]))
    && (forall j :: 0 <= j < k ==> score(items[j]) < score(items[k]))
  }

  /** The state of the scan: the running maximum and the item that set it. */
  datatype Running<T> = Running(max: real, best: Option<T>)

  /** The scan over `items` (one loop iteration per item, in order): the
      maximum starts at 0.0 and an item replaces the recorded best only when
      its score is strictly greater. */
  function Track<T>(items: seq<T>, score: T -> real): (r: Running<T>)
    ensures 0.0 <= r.max
    ensures r.best.None? ==> r.max == 0.0
    ensures r.best.Some? ==> r.best.value in items && score(r.best.value) == r.max
    decreases |items|
  {
    if |items| == 0 then Running(0.0, None)
    else
      var init := items[..|items| - 1];
      var prev := Track(init, score);
      var last := items[|items| - 1];
      assert forall x :: x in init ==> x in items;
      if score(last) > prev.max then Running(score(last), Some(last)) else prev
  }

  /** The running maximum is 0.0 or above, bounds every score, and is still
      0.0 with no item recorded exactly when no score is positive. In
      particular a positive maximum always comes with a recorded item. */
  lemma {:induction false} TrackBounds<T>(items: seq<T>, score: T -> real)
    ensures var r := Track(items, score);
      && 0.0 <= r.max
      && (forall j :: 0 <= j < |items| ==> score(items[j]) <= r.max)
      && (r.best.None? <==> forall j :: 0 <= j < |items| ==> score(items[j]) <= 0.0)
      && (r.best.None? ==> r.max == 0.0)
      && (r.max > 0.0 ==> r.best.Some?)
    decreases |items|
  {
    if |items| > 0 {
      var n := |items| - 1;
      var init := items[..n];
      TrackBounds(init, score);
      assert forall j :: 0 <= j < n ==> init[j] == items[j];
    }
  }

  /** A recorded best item is the first item with the maximum score, and the
      running maximum is its score. */
  lemma {:induction false} TrackFindsFirstMax<T>(items: seq<T>, score: T -> real) returns (k: int)
    requires Track(items, score).best.Some?
    ensures IsFirstMax(items, score, k)
    ensures Track(items, score).best.value == items[k]
    ensures Track(items, score).max == score(items[k])
    decreases |items|
  {
    var n := |items| - 1;
    var init := items[..n];
    var prev := Track(init, score);
    TrackBounds(init, score);
    assert forall j :: 0 <= j < n ==> init[j] == items[j];
    if score(items[n]) > prev.max {
      k := n;
    } else {
      k := TrackFindsFirstMax(init, score);
    }
  }

  /** At most one position is the first maximum. */
  lemma FirstMaxUnique<T>(items: seq<T>, score: T -> real, k1: int, k2: int)
    requires IsFirstMax(items, score, k1) && IsFirstMax(items, score, k2)
    ensures k1 == k2
  {
    assert score(items[k2]) <= score(items[k1]);
    assert score(items[k1]) <= score(items[k2]);
  }

  /** A positive score somewhere means some position is the first maximum
      and the scan records the item there. */
  lemma TrackRecordsFirstMax<T>(items: seq<T>, score: T -> real, k: int)
    requires IsFirstMax(items, score, k) && 0.0 < score(items[k])
    ensures Track(items, score) == Running(score(items[k]), Some(items[k]))
  {
    TrackBounds(items, score);
    var k' := TrackFindsFirstMax(items, score);
    FirstMaxUnique(items, score, k, k');
  }

  /** The decision after the scan, shared by both fuzzy lookups: a
      maximum outside [0, 1] fails the range assertion; exactly 1.0 returns
      the best item; above `th` raises "not found" with the suggestion built
      for the best item (`None` when building it raises a `TypeError`);
      anything else raises the plain "not found". Reading the best item
      before one was recorded raises `UnboundBest`. */
  function Choose<T>(items: seq<T>, score: T -> real, th: real, suggestion: T -> Option<string>): (r: Result<T>)
    ensures r.Ok? ==> r.value in items && score(r.value) == 1.0
    ensures r.Err? ==> r.error.ItemNotFound? || r.error in {AssertionFailed, UnboundBest, NoneInMessage}
    ensures r.Err? && r.error.ItemNotFound? && r.error.message != NotFoundMessage ==>
      exists x :: x in items && th < score(x) < 1.0 && suggestion(x) == Some(r.error.message)
  {
    var run := Track(items, score);
    if !(0.0 <= run.max <= 1.0) then Err(AssertionFailed)
    else if run.max == 1.0 then
      match run.best
      case Some(x) => Ok(x)
      case None => Err(UnboundBest)
    else if run.max > th then
      match run.best
      case Some(x) =>
        if suggestion(x).Some? then Err(ItemNotFound(suggestion(x).value)) else Err(NoneInMessage)
      case None => Err(UnboundBest)
    else Err(ItemNotFound(NotFoundMessage))
  }

  /** The range assertion fails exactly when some score exceeds 1.0. */
  lemma ChooseAssertion<T>(items: seq<T>, score: T -> real, th: real, suggestion: T -> Option<string>)
    ensures Choose(items, score, th, suggestion) == Err(AssertionFailed) <==>
      exists j :: 0 <= j < |items| && score(items[j]) > 1.0
  {
    TrackBounds(items, score);
    var run := Track(items, score);
    if run.best.Some? {
      var k := TrackFindsFirstMax(items, score);
    }
  }

  /** The unrecorded best item is read exactly when the threshold is negative
      and no score is positive; a non-negative threshold never reads it. */
  lemma ChooseUnbound<T>(items: seq<T>, score: T -> real, th: real, suggestion: T -> Option<string>)
    ensures Choose(items, score, th, suggestion) == Err(UnboundBest) <==>
      th < 0.0 && forall j :: 0 <= j < |items| ==> score(items[j]) <= 0.0
  {
    TrackBounds(items, score);
  }

  /** A returned item is the first item with the maximum score, and that score is 1.0. */
  lemma ChooseFound<T>(items: seq<T>, score: T -> real, th: real, suggestion: T -> Option<string>) returns (k: int)
    requires Choose(items, score, th, suggestion).Ok?
    ensures IsFirstMax(items, score, k) && score(items[k]) == 1.0
    ensures Choose(items, score, th, suggestion) == Ok(items[k])
  {
    TrackBounds(items, score);
    k := TrackFindsFirstMax(items, score);
  }

  /** With every score at most 1.0, the first item scoring exactly 1.0 is
      the first maximum. */
  lemma FirstExactIsFirstMax<T>(items: seq<T>, score: T -> real, k: int)
    requires 0 <= k < |items| && score(items[k]) == 1.0
    requires forall j :: 0 <= j < |items| ==> score(items[j]) <= 1.0
    requires forall j :: 0 <= j < k ==> score(items[j]) != 1.0
    ensures IsFirstMax(items, score, k)
  {
  }

  /** When the first maximum scores exactly 1.0 its item is returned. */
  lemma ChooseExact<T>(items: seq<T>, score: T -> real, th: real, suggestion: T -> Option<string>, k: int)
    requires IsFirstMax(items, score, k) && score(items[k]) == 1.0
    ensures Choose(items, score, th, suggestion) == Ok(items[k])
  {
    TrackRecordsFirstMax(items, score, k);
  }

  /** When the first maximum is positive and lies strictly between `th` and
      1.0, the failure carries the suggestion for its item. */
  lemma ChooseSuggests<T>(items: seq<T>, score: T -> real, th: real, suggestion: T -> Option<string>, k: int)
    requires IsFirstMax(items, score, k) && 0.0 < score(items[k])
    requires th < score(items[k]) < 1.0
    ensures suggestion(items[k]).Some? ==>
      Choose(items, score, th, suggestion) == Err(ItemNotFound(suggestion(items[k]).value))
    ensures suggestion(items[k]).None? ==> Choose(items, score, th, suggestion) == Err(NoneInMessage)
  {
    TrackRecordsFirstMax(items, score, k);
  }

  /** With a non-negative threshold, scores all at most `th` and below 1.0
      give the plain "not found"; a maximum equal to `th` is not a suggestion. */
  lemma ChooseNotFound<T>(items: seq<T>, score: T -> real, th: real, suggestion: T -> Option<string>)
    requires 0.0 <= th
    requires forall j :: 0 <= j < |items| ==> score(items[j]) <= th && score(items[j]) < 1.0
    ensures Choose(items, score, th, suggestion) == Err(ItemNotFound(NotFoundMessage))
  {
    TrackBounds(items, score);
    var run := Track(items, score);
    if run.best.Some? {
      var k := TrackFindsFirstMax(items, score);
    }
  }

  /** With scores in [0, 1] and a non-negative threshold, exactly one of the
      three outcomes happens: the first maximum is returned (score 1.0), its
      suggestion is raised (score strictly between `th` and 1.0; `TypeError`
      when no suggestion could be built), or the plain
      "not found" is raised (no score above `th`). */
  lemma ChooseTrichotomy<T>(items: seq<T>, score: T -> real, th: real, suggestion: T -> Option<string>)
    requires 0.0 <= th
    requires forall j :: 0 <= j < |items| ==> 0.0 <= score(items[j]) <= 1.0
    ensures var r := Choose(items, score, th, suggestion);
      || (exists k :: IsFirstMax(items, score, k) && score(items[k]) == 1.0 && r == Ok(items[k]))
      || (exists k :: IsFirstMax(items, score, k) && th < score(items[k]) < 1.0 &&
            r == Err(if suggestion(items[k]).Some? then ItemNotFound(suggestion(items[k]).value) else NoneInMessage))
      || ((forall j :: 0 <= j < |items| ==> score(items[j]) <= th) && r == Err(ItemNotFound(NotFoundMessage)))
  {
    TrackBounds(items, score);
    var run := Track(items, score);
    if run.best.Some? {
      var k := TrackFindsFirstMax(items, score);
    }
  }

  /** The message of the single-key suggestion. It names the suggested key
      between single quotes, right before the closing "?", and differs from
      the plain "not found" message. */
  function SuggestMessage(key: string): (m: string)
    ensures |m| == |key| + 36
    ensures m[..|m| - |key| - 2] == "Arguments may be wrong. Isn't it '"
    ensures m[|m| - |key| - 2..|m| - 2] == key
    ensures m[|m| - 2..] == "'?"
    ensures m != NotFoundMessage
  {
    "Arguments may be wrong." + " Isn't it '" + key + "'?"
  }

  /** The score of an item in the single-key lookup: the similarity of its key
      to the target, with the item's key as the first argument. */
  function KeyScore<T>(key: T -> string, target: string, sim: (string, string) -> real): T -> real
  {
    x => sim(key(x), target)
  }

  /** `find_similar_one`. The range assertion can only fail when the
      similarity ratio leaves [0, 1], the unrecorded best item is only read
      under a negative threshold, and a returned item is one of the items
      whose key scores exactly 1.0. */
  function FindSimilarOne<T>(target: string, items: seq<T>, key: T -> string, th: real,
                             sim: (string, string) -> real): (r: Result<T>)
    ensures SimInRange(sim) ==> r != Err(AssertionFailed)
    ensures 0.0 <= th ==> r != Err(UnboundBest)
    ensures r.Ok? ==> r.value in items && sim(key(r.value), target) == 1.0
    ensures r.Ok? || r.error.ItemNotFound? || r.error in {AssertionFailed, UnboundBest}
  {
    var s := KeyScore(key, target, sim);
    var suggestion := x => Some(SuggestMessage(key(x)));
    var r := Choose(items, s, th, suggestion);
    ChooseAssertion(items, s, th, suggestion);
    ChooseUnbound(items, s, th, suggestion);
    assert r.Ok? ==> r.value in items && s(r.value) == 1.0 by {
      if r.Ok? {
        var k := ChooseFound(items, s, th, suggestion);
      }
    }
    r
  }

  /** The first item whose key scores exactly 1.0 is returned, even when a
      later item also scores 1.0. */
  lemma FindSimilarOneFirstExact<T>(target: string, items: seq<T>, key: T -> string, th: real,
                                    sim: (string, string) -> real, k: int)
    requires SimInRange(sim)
    requires 0 <= k < |items| && sim(key(items[k]), target) == 1.0
    requires forall j :: 0 <= j < k ==> sim(key(items[j]), target) != 1.0
    ensures FindSimilarOne(target, items, key, th, sim) == Ok(items[k])
  {
    var s := KeyScore(key, target, sim);
    assert IsFirstMax(items, s, k);
    ChooseExact(items, s, th, x => Some(SuggestMessage(key(x))), k);
  }

  /** When the first best item scores strictly between `th` and 1.0 (and
      above 0.0), the lookup raises "not found" with a message naming that
      item's key. */
  lemma FindSimilarOneSuggests<T>(target: string, items: seq<T>, key: T -> string, th: real,
                                  sim: (string, string) -> real, k: int)
    requires IsFirstMax(items, KeyScore(key, target, sim), k)
    requires 0.0 < sim(key(items[k]), target) && th < sim(key(items[k]), target) < 1.0
    ensures FindSimilarOne(target, items, key, th, sim) == Err(ItemNotFound(SuggestMessage(key(items[k]))))
  {
    ChooseSuggests(items, KeyScore(key, target, sim), th, x => Some(SuggestMessage(key(x))), k);
  }

  /** With the ratio in [0, 1] and a non-negative threshold, the plain
      "not found" is raised exactly when every score is at most `th` and
      below 1.0; a best score equal to `th` is not a suggestion. */
  lemma FindSimilarOneNotFound<T>(target: string, items: seq<T>, key: T -> string, th: real,
                                  sim: (string, string) -> real)
    requires SimInRange(sim) && 0.0 <= th
    ensures FindSimilarOne(target, items, key, th, sim) == Err(ItemNotFound(NotFoundMessage)) <==>
      forall j :: 0 <= j < |items| ==> sim(key(items[j]), target) <= th && sim(key(items[j]), target) < 1.0
  {
    var s := KeyScore(key, target, sim);
    var suggestion := x => Some(SuggestMessage(key(x)));
    var r := FindSimilarOne(target, items, key, th, sim);
    if forall j :: 0 <= j < |items| ==> s(items[j]) <= th && s(items[j]) < 1.0 {
      ChooseNotFound(items, s, th, suggestion);
    } else {
      var j :| 0 <= j < |items| && !(s(items[j]) <= th && s(items[j]) < 1.0);
      TrackBounds(items, s);
      var k := TrackFindsFirstMax(items, s);
      if s(items[k]) == 1.0 {
        ChooseExact(items, s, th, suggestion, k);
      } else {
        ChooseSuggests(items, s, th, suggestion, k);
        assert SuggestMessage(key(items[k])) != NotFoundMessage;
      }
    }
  }

  /** An empty collection, or one where every key scores 0.0, raises the plain
      "not found" under a non-negative threshold, without reading a best item. */
  lemma FindSimilarOneNothingSimilar<T>(target: string, items: seq<T>, key: T -> string, th: real,
                                        sim: (string, string) -> real)
    requires 0.0 <= th
    requires forall j :: 0 <= j < |items| ==> sim(key(items[j]), target) == 0.0
    ensures FindSimilarOne(target, items, key, th, sim) == Err(ItemNotFound(NotFoundMessage))
    ensures Track(items, KeyScore(key, target, sim)).best.None?
  {
  }

  /** If the ratio is 1.0 exactly on equal strings, an item whose key equals
      the target is returned, provided no earlier item's key does. */
  lemma FindSimilarOneExactKey<T>(target: string, items: seq<T>, key: T -> string, th: real,
                                  sim: (string, string) -> real, k: int)
    requires SimInRange(sim)
    requires forall a, b :: sim(a, b) == 1.0 <==> a == b
    requires 0 <= k < |items| && key(items[k]) == target
    requires forall j :: 0 <= j < k ==> key(items[j]) != target
    ensures FindSimilarOne(target, items, key, th, sim) == Ok(items[k])
  {
    FindSimilarOneFirstExact(target, items, key, th, sim, k);
  }
}
