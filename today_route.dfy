/**
 * GET /api/content/today (app/api/content/today/route.ts): the caller's
 * active documents whose next review falls on the current day, newest first.
 */
module TodayRoute {
  import opened Wrappers
  import opened Models
  import opened Sorting
  import Seqs
  import ContentRoute

  /** `nextReviewDate` satisfies `{ $gte: today, $lt: tomorrow }` for the day
      starting at midnight `today`. A missing date never matches. */
  predicate DueOn(d: ContentDocument, today: int) {
    d.nextReviewDate.Some? && today <= d.nextReviewDate.value < today + DayMs
  }

  /** The query filter for the caller on the day holding `now`. */
  predicate DueFor(d: ContentDocument, uid: UserId, now: int) {
    d.userId == uid && d.isActive && DueOn(d, StartOfDay(now))
  }

  datatype TodayList = TodayList(content: seq<Entry>, total: nat)

  function Today(es: seq<Entry>, session: Option<UserId>, now: int): (r: Reply<TodayList>)
    ensures session.None? <==> r.Fail?
    ensures session.None? ==> r.error == "Unauthorized" && r.status == Unauthorized
    ensures r.Ok? ==>
      && r.value.total == |r.value.content|
      && SortedDesc(r.value.content, CreatedAt)
      && (forall e | e in r.value.content :: e in es && DueFor(e.doc, session.value, now))
      && (forall e | e in es && DueFor(e.doc, session.value, now) :: e in r.value.content)
      && multiset(r.value.content) == multiset(Seqs.Filter(es, (e: Entry) => DueFor(e.doc, session.value, now)))
  {
    if session.None? then Fail(Unauthorized, "Unauthorized")
    else
      var uid := session.value;
      var p := (e: Entry) => DueFor(e.doc, uid, now);
      FilterSortSpec(es, p, CreatedAt);
      var content := SortDesc(Seqs.Filter(es, p), CreatedAt);
      Ok(TodayList(content, |content|))
  }

  /** A review that was missed (due before today's midnight) is never listed. */
  lemma MissedReviewsNotListed(es: seq<Entry>, uid: UserId, now: int, e: Entry)
    requires e.doc.nextReviewDate.Some? && e.doc.nextReviewDate.value < StartOfDay(now)
    ensures e !in Today(es, Some(uid), now).value.content
  {
  }

  /** An item due later than today is not listed either. */
  lemma FutureReviewsNotListed(es: seq<Entry>, uid: UserId, now: int, e: Entry)
    requires e.doc.nextReviewDate.Some? && e.doc.nextReviewDate.value >= StartOfDay(now) + DayMs
    ensures e !in Today(es, Some(uid), now).value.content
  {
  }

  /** An item created at `now` is due 24 hours later: it is not in the
      window of the creation day but is in the window of the following day. */
  lemma {:induction false} NewItemDueNextDay(uid: UserId, body: ContentRoute.CreateBody, content: string,
                                             subject: Subject, now: int)
    ensures var d := ContentRoute.NewDocument(uid, body, content, subject, now);
      && !DueFor(d, uid, now)
      && DueFor(d, uid, now + DayMs)
  {
    var d := ContentRoute.NewDocument(uid, body, content, subject, now);
    assert StartOfDay(now + DayMs) == StartOfDay(now) + DayMs by {
      assert (now + DayMs) % DayMs == now % DayMs;
    }
  }
}
