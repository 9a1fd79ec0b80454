/**
 * The review session page (app/review/page.tsx): a fixed list of items walked
 * through by index. An assessment records the current item and moves on;
 * previous, next and skip move the index without leaving the list.
 */
module ReviewSession {

  /** The ids of the page's built-in review items, in order. */
  const ReviewItemIds: seq<int> := [1, 2, 3]

  datatype Rating = Again | Hard | Good | Easy

  /** The index after "next" or "skip": one further unless already last. */
  function Forward(index: int, total: nat): (j: int)
    ensures 0 <= index < total ==> 0 <= j < total
    ensures j == index || j == index + 1
    ensures j == index + 1 <==> index < total - 1
  {
    if index < total - 1 then index + 1 else index
  }

  /** The index after "previous": one back unless already first. */
  function Backward(index: int): (j: int)
    ensures index >= 0 ==> j >= 0
    ensures j == index || j == index - 1
    ensures j == index - 1 <==> index > 0
  {
    if index > 0 then index - 1 else index
  }

  /** Previous undoes next everywhere except at the last item. */
  lemma BackUndoesForward(index: int, total: nat)
    requires 0 <= index < total - 1
    ensures Backward(Forward(index, total)) == index
  {
  }

  class Session {
    const items: seq<int>
    var currentIndex: int
    var completedItems: seq<int>
    /** Set when the last assessment navigates away to the dashboard. */
    var exited: bool

    ghost predicate Valid()
      reads this
    {
      0 <= currentIndex < |items|
    }

    constructor ()
      ensures Valid()
      ensures items == ReviewItemIds && currentIndex == 0 && completedItems == [] && !exited
    {
      items := ReviewItemIds;
      currentIndex := 0;
      completedItems := [];
      exited := false;
    }

    /** `((currentIndex + 1) / totalItems) * 100`. */
    function Progress(): (p: real)
      reads this
      requires Valid()
      ensures 0.0 < p <= 100.0
      ensures p == 100.0 <==> currentIndex == |items| - 1
    {
      var p := ((currentIndex + 1) as real / |items| as real) * 100.0;
      assert (currentIndex + 1) as real <= |items| as real;
      assert p == 100.0 ==> (currentIndex + 1) as real == |items| as real;
      p
    }

    /** `handleAssessment`: the rating is ignored; the current item's id is
        appended (repeats are not checked), then the index advances, or on the
        last item the session exits with the index unchanged. */
    method Assessment(rating: Rating)
      requires Valid()
      modifies this
      ensures Valid()
      ensures completedItems == old(completedItems) + [items[old(currentIndex)]]
      ensures currentIndex == Forward(old(currentIndex), |items|)
      ensures exited == (old(exited) || old(currentIndex) == |items| - 1)
    {
      completedItems := completedItems + [items[currentIndex]];
      if currentIndex < |items| - 1 {
        currentIndex := currentIndex + 1;
      } else {
        exited := true;
      }
    }

    method Previous()
      requires Valid()
      modifies this
      ensures Valid()
      ensures currentIndex == Backward(old(currentIndex))
      ensures completedItems == old(completedItems) && exited == old(exited)
    {
      if currentIndex > 0 {
        currentIndex := currentIndex - 1;
      }
    }

    method Next()
      requires Valid()
      modifies this
      ensures Valid()
      ensures currentIndex == Forward(old(currentIndex), |items|)
      ensures completedItems == old(completedItems) && exited == old(exited)
    {
      if currentIndex < |items| - 1 {
        currentIndex := currentIndex + 1;
      }
    }

    /** Skip has the same effect as next. */
    method Skip()
      requires Valid()
      modifies this
      ensures Valid()
      ensures currentIndex == Forward(old(currentIndex), |items|)
      ensures completedItems == old(completedItems) && exited == old(exited)
    {
      if currentIndex < |items| - 1 {
        currentIndex := currentIndex + 1;
      }
    }
  }

  /** Rating every item in turn records the ids in order and ends the
      session on the last one; the ratings make no difference. */
  method RateAll(r1: Rating, r2: Rating, r3: Rating) returns (completed: seq<int>, exited: bool, index: int)
    ensures completed == [1, 2, 3] && exited && index == 2
  {
    var s := new Session();
    s.Assessment(r1);
    s.Assessment(r2);
    s.Assessment(r3);
    completed, exited, index := s.completedItems, s.exited, s.currentIndex;
  }
}
