/**
 * The server's collections as one mutable store: the `contents` collection
 * (documents by id, plus their natural order, which a query without a sort
 * returns), each user's configured repetition flow from `users`, and the
 * `user_subjects` records. Each route handler is a method whose effect is
 * stated by the pure handler function it implements.
 */
module Store {
  import opened Wrappers
  import opened Models
  import opened Seqs
  import Scheduler
  import ContentActions
  import ContentRoute
  import TodayRoute
  import DuplicateCheck
  import SubjectsRoute
  import Sorting
  import Text

  /** The entries listed by `order`, each with its document. */
  function EntriesOf(order: seq<Id>, docs: map<Id, ContentDocument>): (es: seq<Entry>)
    requires forall i | 0 <= i < |order| :: order[i] in docs
    ensures |es| == |order|
    ensures forall i | 0 <= i < |es| :: es[i] == Entry(order[i], docs[order[i]])
  {
    seq(|order|, i requires 0 <= i < |order| => Entry(order[i], docs[order[i]]))
  }

  /** `xs` without the occurrences of `v`, in order. */
  function Remove(xs: seq<Id>, v: Id): (r: seq<Id>)
    ensures forall x :: x in r <==> x in xs && x != v
  {
    if xs == [] then []
    else (if xs[0] == v then [] else [xs[0]]) + Remove(xs[1..], v)
  }

  /** Dropping a document and its id keeps `order` an exact, duplicate-free
      listing of the documents. */
  lemma RemoveKeepsIndex(order: seq<Id>, docs: map<Id, ContentDocument>, id: Id)
    requires NoDups(order)
    requires forall i | 0 <= i < |order| :: order[i] in docs
    requires forall k | k in docs :: k in order
    ensures var o, d := Remove(order, id), docs - {id};
      && NoDups(o)
      && (forall i | 0 <= i < |o| :: o[i] in d)
      && (forall k | k in d :: k in o)
  {
    RemoveKeepsNoDups(order, id);
    var o := Remove(order, id);
    assert forall i | 0 <= i < |o| :: o[i] in o;
  }

  lemma {:induction false} RemoveKeepsNoDups(xs: seq<Id>, v: Id)
    requires NoDups(xs)
    ensures NoDups(Remove(xs, v))
  {
    if xs != [] {
      assert NoDups(xs[1..]);
      RemoveKeepsNoDups(xs[1..], v);
      assert xs[0] !in xs[1..];
    }
  }

  class Database {
    var docs: map<Id, ContentDocument>
    var order: seq<Id>
    var flows: map<UserId, Option<seq<int>>>
    var records: map<UserId, UserSubjects>

    /** `order` lists every document exactly once, and every configured
        repetition flow is non-empty. */
    ghost predicate Valid()
      reads this
    {
      && NoDups(order)
      && (forall i | 0 <= i < |order| :: order[i] in docs)
      && (forall id | id in docs :: id in order)
      && ContentActions.FlowsValid(flows)
    }

    constructor (flows: map<UserId, Option<seq<int>>>)
      requires ContentActions.FlowsValid(flows)
      ensures Valid()
      ensures docs == map[] && order == [] && this.flows == flows && records == map[]
    {
      docs := map[];
      order := [];
      this.flows := flows;
      records := map[];
    }

    /** The `contents` collection in natural order. */
    function Entries(): (es: seq<Entry>)
      reads this
      requires Valid()
      ensures |es| == |docs|
      ensures forall e | e in es :: e.id in docs && e.doc == docs[e.id]
      ensures forall id | id in docs :: Entry(id, docs[id]) in es
    {
      var es := EntriesOf(order, docs);
      CountOrder();
      assert forall id | id in docs :: Entry(id, docs[id]) in es by {
        forall id | id in docs ensures Entry(id, docs[id]) in es {
          var i :| 0 <= i < |order| && order[i] == id;
          assert es[i] == Entry(id, docs[id]);
        }
      }
      es
    }

    /** Without duplicates, `order` is as long as `docs` has keys. */
    lemma CountOrder()
      requires Valid()
      ensures |order| == |docs|
    {
      var s := set i | 0 <= i < |order| :: order[i];
      assert s == docs.Keys;
      DistinctCount(order);
    }

    /** POST /api/content/actions: the session and field checks, then one of
        the three actions or the invalid-action answer. */
    method Action(session: Option<UserId>, req: ContentActions.ActionRequest, now: int)
      returns (reply: Reply<ContentActions.ActionOk>)
      requires Valid()
      modifies this
      ensures Valid()
      ensures var o := ContentActions.Dispatch(old(docs), old(flows), session, req, now);
        reply == o.reply && docs == o.docs
      ensures docs.Keys == old(docs.Keys) ==> order == old(order)
      ensures docs.Keys != old(docs.Keys) ==> order == Remove(old(order), req.contentId.value)
      ensures flows == old(flows) && records == old(records)
    {
      if session.None? {
        return Fail(Unauthorized, "Unauthorized");
      }
      var uid := session.value;
      var route := ContentActions.RouteOf(req);
      if route == ContentActions.MissingFields {
        return Fail(BadRequest, "Action and contentId are required");
      }
      var id := req.contentId.value;
      match route {
        case Archive =>
          ArchiveOne(id, uid, now);
          reply := Ok(ContentActions.ActionOk("Content archived", None));
        case Delete =>
          DeleteOne(id, uid);
          reply := Ok(ContentActions.ActionOk("Content deleted", None));
        case Review =>
          reply := ReviewOne(id, uid, req.difficulty, now);
        case UnknownAction =>
          reply := Fail(BadRequest, "Invalid action");
      }
    }

    /** `updateOne({ _id: id, userId: uid }, { $set: { isActive: false, updatedAt } })`. */
    method ArchiveOne(id: Id, uid: UserId, now: int)
      requires Valid()
      modifies this
      ensures Valid()
      ensures docs == ContentActions.Archived(old(docs), id, uid, now)
      ensures order == old(order) && flows == old(flows) && records == old(records)
    {
      if id in docs && docs[id].userId == uid {
        docs := docs[id := docs[id].(isActive := false, updatedAt := now)];
      }
    }

    /** `deleteOne({ _id: id, userId: uid })`, also dropping the id from the
        natural order. */
    method DeleteOne(id: Id, uid: UserId)
      requires Valid()
      modifies this
      ensures Valid()
      ensures docs == ContentActions.Deleted(old(docs), id, uid)
      ensures order == if ContentActions.Owns(old(docs), id, uid) then Remove(old(order), id) else old(order)
      ensures flows == old(flows) && records == old(records)
    {
      if id in docs && docs[id].userId == uid {
        RemoveKeepsIndex(order, docs, id);
        docs := docs - {id};
        order := Remove(order, id);
      }
    }

    /** The review branch, step by step as the handler does it: read the
        flow, find the document, adjust the index, look up the offset, then
        write the new fields. */
    method ReviewOne(id: Id, uid: UserId, difficulty: Option<string>, now: int)
      returns (reply: Reply<ContentActions.ActionOk>)
      requires Valid()
      modifies this
      ensures Valid()
      ensures !ContentActions.Owns(old(docs), id, uid) ==>
        reply == Fail(NotFound, "Content not found") && docs == old(docs)
      ensures ContentActions.Owns(old(docs), id, uid) ==>
        var doc := ContentActions.Reviewed(old(docs)[id], difficulty, ContentActions.FlowOf(flows, uid), now);
        && docs == old(docs)[id := doc]
        && reply == Ok(ContentActions.ActionOk("Review recorded", doc.nextReviewDate))
      ensures order == old(order) && flows == old(flows) && records == old(records)
    {
      var flow := Scheduler.FlowFor(if uid in flows then flows[uid] else None);
      assert flow == ContentActions.FlowOf(flows, uid);
      if !(id in docs && docs[id].userId == uid) {
        return Fail(NotFound, "Content not found");
      }
      var content := docs[id];
      var nextReviewIndex := NextReviewIndex(content.reviewCount, difficulty, |flow|);
      var k := if nextReviewIndex < |flow| - 1 then nextReviewIndex else |flow| - 1;
      assert k == Scheduler.LookupIndex(content.reviewCount, difficulty, flow);
      var daysToAdd := flow[k];
      assert daysToAdd == Scheduler.DaysToAdd(content.reviewCount, difficulty, flow);
      var nextReviewDate := now + daysToAdd * DayMs;
      assert nextReviewDate == Scheduler.NextReviewDate(now, content.reviewCount, difficulty, flow);
      var updated := content.(reviewCount := content.reviewCount + 1, nextReviewDate := Some(nextReviewDate),
                              difficulty := difficulty, updatedAt := now);
      assert updated == ContentActions.Reviewed(content, difficulty, flow, now);
      ghost var before := docs;
      docs := docs[id := updated];
      assert docs.Keys == before.Keys;
      assert Valid();
      reply := Ok(ContentActions.ActionOk("Review recorded", Some(nextReviewDate)));
    }

    /** POST /api/content; a successful insert also goes to the end of the
        natural order. */
    method CreateContent(session: Option<UserId>, body: ContentRoute.CreateBody, newId: Id, now: int)
      returns (reply: Reply<Id>)
      requires Valid()
      modifies this
      ensures Valid()
      ensures var o := ContentRoute.Create(old(docs), session, body, newId, now);
        reply == o.reply && docs == o.docs
      ensures order == if reply.Ok? then old(order) + [newId] else old(order)
      ensures flows == old(flows) && records == old(records)
    {
      var o := ContentRoute.Create(docs, session, body, newId, now);
      reply := o.reply;
      if reply.Ok? {
        docs := o.docs;
        order := order + [newId];
      }
    }

    /** GET /api/content: a page of the caller's active matching documents,
        each as stored, newest first. */
    method ListContent(session: Option<UserId>, q: ContentRoute.ListQuery) returns (reply: Reply<ContentRoute.Listing>)
      requires Valid()
      ensures reply == ContentRoute.List(Entries(), session, q)
      ensures session.None? ==> reply == Fail(Unauthorized, "Unauthorized")
      ensures reply.Ok? ==> session.Some? && Sorting.SortedDesc(reply.value.contents, CreatedAt)
      ensures reply.Ok? ==> forall i | 0 <= i < |reply.value.contents| ::
        var e := reply.value.contents[i];
        && e.id in docs && e.doc == docs[e.id]
        && e.doc.userId == session.value && e.doc.isActive
        && ContentRoute.Matches(ContentRoute.BuildFilter(session.value, q), e.doc)
    {
      var es := Entries();
      reply := ContentRoute.List(es, session, q);
      if reply.Ok? {
        var uid := session.value;
        ContentRoute.ListingIsScoped(es, uid, q);
        var cs := reply.value.contents;
        forall i | 0 <= i < |cs|
          ensures cs[i].id in docs && cs[i].doc == docs[cs[i].id]
          ensures cs[i].doc.userId == uid && cs[i].doc.isActive
        {
          assert cs[i] in es;
          ContentRoute.MatchesQuery(uid, q, cs[i].doc);
        }
      }
    }

    /** GET /api/content/today: exactly the caller's active documents due
        today, each as stored. */
    method TodayContent(session: Option<UserId>, now: int) returns (reply: Reply<TodayRoute.TodayList>)
      requires Valid()
      ensures reply == TodayRoute.Today(Entries(), session, now)
      ensures session.None? <==> reply.Fail?
      ensures reply.Ok? ==> forall e | e in reply.value.content ::
        e.id in docs && e.doc == docs[e.id] && TodayRoute.DueFor(e.doc, session.value, now)
      ensures reply.Ok? ==> forall id | id in docs && TodayRoute.DueFor(docs[id], session.value, now) ::
        Entry(id, docs[id]) in reply.value.content
    {
      reply := TodayRoute.Today(EntriesOf(order, docs), session, now);
    }

    /** POST /api/content/duplicate-check: true exactly when a long enough
        text's probe occurs in one of the caller's active documents and the
        lookup did not fail. */
    method CheckDuplicate(session: Option<UserId>, content: Option<string>, failed: bool) returns (reply: Reply<bool>)
      ensures reply == DuplicateCheck.Check(docs, session, content, failed)
      ensures session.None? <==> reply.Fail?
      ensures reply.Ok? ==>
        (reply.value <==>
          && Text.Truthy(content) && |content.value| >= DuplicateCheck.MinLength && !failed
          && exists id | id in docs ::
               && docs[id].userId == session.value && docs[id].isActive
               && ContentRoute.RegexMatchesI(docs[id].content, DuplicateCheck.Probe(content.value)))
    {
      reply := DuplicateCheck.Check(docs, session, content, failed);
    }

    /** GET /api/subjects: the caller's stored list, or none. */
    method GetSubjects(session: Option<UserId>) returns (reply: Reply<seq<Subject>>)
      ensures reply == SubjectsRoute.Subjects(records, session)
      ensures session.None? <==> reply.Fail?
      ensures reply.Ok? ==> reply.value == if session.value in records then records[session.value].subjects else []
    {
      reply := SubjectsRoute.Subjects(records, session);
    }

    /** POST /api/subjects. */
    method PostSubject(session: Option<UserId>, name: Option<string>, color: Option<string>, now: int)
      returns (reply: Reply<Subject>)
      requires Valid()
      modifies this
      ensures Valid()
      ensures var o := SubjectsRoute.AddSubject(old(records), session, name, color, now);
        reply == o.reply && records == o.records
      ensures docs == old(docs) && order == old(order) && flows == old(flows)
    {
      var o := SubjectsRoute.AddSubject(records, session, name, color, now);
      reply := o.reply;
      records := o.records;
    }
  }

  /** Lines 59-66 of the actions handler: `nextReviewIndex` starts at the
      review count and is moved by the answer. */
  method NextReviewIndex(reviewCount: nat, difficulty: Option<string>, flowLength: nat) returns (nextReviewIndex: int)
    ensures nextReviewIndex == Scheduler.AdjustedIndex(reviewCount, difficulty, flowLength)
  {
    nextReviewIndex := reviewCount;
    if difficulty == Some("easy") && nextReviewIndex < flowLength - 1 {
      nextReviewIndex := nextReviewIndex + 1;
    } else if difficulty == Some("hard") && nextReviewIndex > 0 {
      nextReviewIndex := if nextReviewIndex - 1 > 0 then nextReviewIndex - 1 else 0;
    }
  }

  /** A duplicate-free sequence has as many distinct elements as entries. */
  lemma {:induction false} DistinctCount<T>(xs: seq<T>)
    requires NoDups(xs)
    ensures |set i | 0 <= i < |xs| :: xs[i]| == |xs|
  {
    if xs != [] {
      var rest := xs[1..];
      assert NoDups(rest);
      DistinctCount(rest);
      var s := set i | 0 <= i < |xs| :: xs[i];
      var t := set i | 0 <= i < |rest| :: rest[i];
      assert s == t + {xs[0]} by {
        forall x | x in s ensures x in t + {xs[0]} {
          var i :| 0 <= i < |xs| && xs[i] == x;
          if i > 0 { assert rest[i - 1] == x; }
        }
      }
      assert xs[0] !in t;
    }
  }
}
