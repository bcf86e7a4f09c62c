/** `Util.find_one`: exact-match lookup of the single item satisfying a condition. */
module Exact {
  import opened Basics
  import opened Seqs

  /** `find_one`: an absent collection raises "not found"; otherwise the
      matching items are counted. No match raises "not found", two or more
      raise "multiple found", and exactly one returns that item. */
  function FindOne<T>(condition: T -> bool, items: Option<seq<T>>): (r: Result<T>)
    ensures items.None? ==> r == Err(ItemNotFound(NotFoundMessage))
    ensures r.Ok? <==> items.Some? && |MatchIndices(condition, items.value)| == 1
    ensures r.Ok? ==> condition(r.value) && r.value in items.value
    ensures r.Ok? ==> forall i :: i in MatchIndices(condition, items.value) ==> items.value[i] == r.value
    ensures r == Err(MultipleItemFound(AmbiguousMessage)) <==>
      items.Some? && |MatchIndices(condition, items.value)| >= 2
    ensures r == Err(ItemNotFound(NotFoundMessage)) <==>
      items.None? || |MatchIndices(condition, items.value)| == 0
    ensures r.Err? ==> r.error in {ItemNotFound(NotFoundMessage), MultipleItemFound(AmbiguousMessage)}
  {
    if items.None? then Err(ItemNotFound(NotFoundMessage))
    else
      var filtered := FilterItems(condition, items);
      if |filtered| == 0 then Err(ItemNotFound(NotFoundMessage))
      else if |filtered| >= 2 then Err(MultipleItemFound(AmbiguousMessage))
      else
        assert forall i :: i in MatchIndices(condition, items.value) ==> items.value[i] in filtered;
        Ok(filtered[0])
  }

  /** Looking up 3 in [1, 2, 3, 4] returns 3. */
  lemma FindOneUniqueExample()
    ensures FindOne((x: int) => x == 3, Some([1, 2, 3, 4])) == Ok(3)
  {
    var xs := [1, 2, 3, 4];
    var f := (x: int) => x == 3;
    assert MatchIndices(f, xs) == {2};
    var r := FindOne(f, Some(xs));
    assert r.Ok? && xs[2] == r.value;
  }

  /** Looking up the items above 2 in [1, 2, 3, 4] finds both 3 and 4 and
      raises "multiple found". */
  lemma FindOneAmbiguousExample()
    ensures FindOne((x: int) => x > 2, Some([1, 2, 3, 4])) == Err(MultipleItemFound(AmbiguousMessage))
  {
    var xs := [1, 2, 3, 4];
    var f := (x: int) => x > 2;
    assert MatchIndices(f, xs) == {2, 3};
    assert |MatchIndices(f, xs)| == 2;
  }
}
