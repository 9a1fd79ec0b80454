/**
 * The review-interval scheduler of app/api/content/actions/route.ts: the
 * review count, nudged by one step for an `easy` or `hard` answer, selects a
 * day offset from the owner's repetition flow, clamped to the flow's last
 * entry; the next review is that many days after now.
 */
module Scheduler {
  import opened Wrappers
  import opened Models

  /** The flow used when the user record has none. */
  const DefaultFlow: seq<int> := [2, 4, 7, 7, 7, 30, 30, 30, 130, 130, 130, 365, 365, 365]

  predicate PositiveFlow(flow: seq<int>) {
    forall i | 0 <= i < |flow| :: flow[i] >= 1
  }

  predicate NonDecreasing(flow: seq<int>) {
    forall i, j | 0 <= i <= j < |flow| :: flow[i] <= flow[j]
  }

  /** `user?.repetitionFlow || DefaultFlow`, for a user record that may be
      missing or lack the field. */
  function FlowFor(configured: Option<seq<int>>): seq<int> {
    configured.GetOr(DefaultFlow)
  }

  /** The fallback has fourteen positive, non-decreasing offsets. */
  lemma DefaultFlowShape()
    ensures FlowFor(None) == DefaultFlow
    ensures |DefaultFlow| == 14 && DefaultFlow[0] == 2 && DefaultFlow[13] == 365
    ensures PositiveFlow(DefaultFlow) && NonDecreasing(DefaultFlow)
  {
  }

  /** `nextReviewIndex` after the difficulty adjustment: it starts at the
      review count, moves up one for `easy` while there is room below the last
      offset, and down one for `hard` while it is above zero. */
  function AdjustedIndex(reviewCount: nat, difficulty: Option<string>, flowLength: nat): (idx: nat)
    ensures reviewCount - 1 <= idx <= reviewCount + 1
    ensures idx > reviewCount <==> difficulty == Some("easy") && reviewCount < flowLength - 1
    ensures idx < reviewCount <==> difficulty == Some("hard") && reviewCount > 0
  {
    if difficulty == Some("easy") && reviewCount < flowLength - 1 then reviewCount + 1
    else if difficulty == Some("hard") && reviewCount > 0 then
      if reviewCount - 1 > 0 then reviewCount - 1 else 0
    else reviewCount
  }

  /** The index actually read from the flow: `Math.min(idx, flow.length - 1)`. */
  function LookupIndex(reviewCount: nat, difficulty: Option<string>, flow: seq<int>): (k: nat)
    requires |flow| > 0
    ensures k < |flow|
    ensures k <= AdjustedIndex(reviewCount, difficulty, |flow|)
    ensures k == AdjustedIndex(reviewCount, difficulty, |flow|) || k == |flow| - 1
  {
    var idx := AdjustedIndex(reviewCount, difficulty, |flow|);
    if idx < |flow| - 1 then idx else |flow| - 1
  }

  /** The number of days until the next review. */
  function DaysToAdd(reviewCount: nat, difficulty: Option<string>, flow: seq<int>): (days: int)
    requires |flow| > 0
    ensures days in flow
    ensures PositiveFlow(flow) ==> days >= 1
  {
    flow[LookupIndex(reviewCount, difficulty, flow)]
  }

  /** `nextReviewDate.setDate(nextReviewDate.getDate() + daysToAdd)` on a copy
      of now: the same time of day, `days` whole days later. */
  function NextReviewDate(now: int, reviewCount: nat, difficulty: Option<string>, flow: seq<int>): (next: int)
    requires |flow| > 0
    ensures PositiveFlow(flow) ==> next > now
    ensures (next - now) % DayMs == 0
  {
    now + DaysToAdd(reviewCount, difficulty, flow) * DayMs
  }

  /** The next review is never earlier than the smallest offset of the flow. */
  lemma NextReviewAtLeastSmallestOffset(now: int, reviewCount: nat, difficulty: Option<string>, flow: seq<int>, m: int)
    requires |flow| > 0
    requires forall i | 0 <= i < |flow| :: flow[i] >= m
    ensures NextReviewDate(now, reviewCount, difficulty, flow) >= now + m * DayMs
  {
    var days := DaysToAdd(reviewCount, difficulty, flow);
    assert days >= m;
  }

  /** Once the review count reaches the flow's length, every answer gets the
      last (longest) offset: the lookup is clamped and never out of range. */
  lemma {:induction false} ClampedAtLastOffset(reviewCount: nat, difficulty: Option<string>, flow: seq<int>)
    requires |flow| > 0 && reviewCount >= |flow|
    ensures DaysToAdd(reviewCount, difficulty, flow) == flow[|flow| - 1]
  {
    assert AdjustedIndex(reviewCount, difficulty, |flow|) >= |flow| - 1;
  }

  /** A one-entry flow always yields its single offset. */
  lemma SingleOffsetFlow(reviewCount: nat, difficulty: Option<string>, flow: seq<int>)
    requires |flow| == 1
    ensures DaysToAdd(reviewCount, difficulty, flow) == flow[0]
  {
  }

  /** For a non-decreasing flow, `hard` never schedules later than any other
      answer and `easy` never earlier. */
  lemma AnswerOrder(reviewCount: nat, difficulty: Option<string>, flow: seq<int>)
    requires |flow| > 0 && NonDecreasing(flow)
    ensures DaysToAdd(reviewCount, Some("hard"), flow) <= DaysToAdd(reviewCount, difficulty, flow)
    ensures DaysToAdd(reviewCount, difficulty, flow) <= DaysToAdd(reviewCount, Some("easy"), flow)
  {
    var h := LookupIndex(reviewCount, Some("hard"), flow);
    var d := LookupIndex(reviewCount, difficulty, flow);
    var e := LookupIndex(reviewCount, Some("easy"), flow);
    assert h <= d <= e;
  }

  /** For a non-decreasing flow, a larger review count never gives a shorter
      interval for the same answer. */
  lemma MoreReviewsNeverShorter(c1: nat, c2: nat, difficulty: Option<string>, flow: seq<int>)
    requires |flow| > 0 && NonDecreasing(flow) && c1 <= c2
    ensures DaysToAdd(c1, difficulty, flow) <= DaysToAdd(c2, difficulty, flow)
  {
    var k1 := LookupIndex(c1, difficulty, flow);
    var k2 := LookupIndex(c2, difficulty, flow);
    assert k1 <= k2;
  }

  /** Worked examples with the fallback flow: count 3 answered `easy` reads
      offset 4 (7 days); count 0 answered `hard` stays at offset 0 (2 days). */
  lemma DefaultFlowExamples()
    ensures LookupIndex(3, Some("easy"), DefaultFlow) == 4 && DaysToAdd(3, Some("easy"), DefaultFlow) == 7
    ensures LookupIndex(0, Some("hard"), DefaultFlow) == 0 && DaysToAdd(0, Some("hard"), DefaultFlow) == 2
    ensures DaysToAdd(20, Some("hard"), DefaultFlow) == 365
  {
  }
}
