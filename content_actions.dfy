/**
 * POST /api/content/actions (app/api/content/actions/route.ts): archive,
 * delete or review one of the caller's documents. Every update is filtered by
 * both the document id and the caller's user id.
 */
module ContentActions {
  import opened Wrappers
  import opened Models
  import Scheduler
  import opened Text

  /** The JSON body: `{ action, contentId, difficulty }`, each possibly absent. */
  datatype ActionRequest = ActionRequest(action: Option<string>, contentId: Option<string>, difficulty: Option<string>)

  datatype Route = Archive | Delete | Review | MissingFields | UnknownAction

  /** The guard of lines 18-20 followed by the `switch` of lines 28-91. */
  function RouteOf(req: ActionRequest): (r: Route)
    ensures r == MissingFields <==> !Truthy(req.action) || !Truthy(req.contentId)
    ensures r == Archive <==> Truthy(req.contentId) && req.action == Some("archive")
    ensures r == Delete <==> Truthy(req.contentId) && req.action == Some("delete")
    ensures r == Review <==> Truthy(req.contentId) && req.action == Some("review")
    ensures r == UnknownAction <==>
      Truthy(req.action) && Truthy(req.contentId) && req.action.value !in {"archive", "delete", "review"}
  {
    if !Truthy(req.action) || !Truthy(req.contentId) then MissingFields
    else if req.action.value == "archive" then Archive
    else if req.action.value == "delete" then Delete
    else if req.action.value == "review" then Review
    else UnknownAction
  }

  /** The success body: a message and, for a review, the new due date. */
  datatype ActionOk = ActionOk(message: string, nextReviewDate: Option<int>)

  /** The filter `{ _id: id, userId: uid }` matches a document. */
  predicate Owns(docs: map<Id, ContentDocument>, id: Id, uid: UserId) {
    id in docs && docs[id].userId == uid
  }

  /** `updateOne({ _id, userId }, { $set: { isActive: false, updatedAt } })`. */
  function Archived(docs: map<Id, ContentDocument>, id: Id, uid: UserId, now: int): (r: map<Id, ContentDocument>)
    ensures r.Keys == docs.Keys
    ensures forall k | k in docs && k != id :: r[k] == docs[k]
    ensures Owns(docs, id, uid) ==> r[id] == docs[id].(isActive := false, updatedAt := now)
    ensures !Owns(docs, id, uid) ==> r == docs
  {
    if Owns(docs, id, uid) then docs[id := docs[id].(isActive := false, updatedAt := now)] else docs
  }

  /** `deleteOne({ _id, userId })`. */
  function Deleted(docs: map<Id, ContentDocument>, id: Id, uid: UserId): (r: map<Id, ContentDocument>)
    ensures r.Keys == if Owns(docs, id, uid) then docs.Keys - {id} else docs.Keys
    ensures forall k | k in r :: r[k] == docs[k]
  {
    if Owns(docs, id, uid) then docs - {id} else docs
  }

  /** The `$set` of lines 72-82 applied to the reviewed document: one more
      review, the scheduled date, the difficulty exactly as sent, and nothing
      else changed. */
  function Reviewed(doc: ContentDocument, difficulty: Option<string>, flow: seq<int>, now: int): (r: ContentDocument)
    requires |flow| > 0
    ensures r.reviewCount == doc.reviewCount + 1
    ensures r.difficulty == difficulty && r.updatedAt == now
    ensures r.nextReviewDate == Some(Scheduler.NextReviewDate(now, doc.reviewCount, difficulty, flow))
    ensures Scheduler.PositiveFlow(flow) ==> r.nextReviewDate.value > now
    ensures r.(reviewCount := doc.reviewCount, nextReviewDate := doc.nextReviewDate,
               difficulty := doc.difficulty, updatedAt := doc.updatedAt) == doc
  {
    doc.(reviewCount := doc.reviewCount + 1,
         nextReviewDate := Some(Scheduler.NextReviewDate(now, doc.reviewCount, difficulty, flow)),
         difficulty := difficulty,
         updatedAt := now)
  }

  /** Every configured repetition flow is non-empty (an empty one would make
      the looked-up offset `undefined`). */
  predicate FlowsValid(flows: map<UserId, Option<seq<int>>>) {
    forall u | u in flows && flows[u].Some? :: |flows[u].value| > 0
  }

  /** The flow the handler uses for a user: the configured one or the fallback. */
  function FlowOf(flows: map<UserId, Option<seq<int>>>, uid: UserId): (flow: seq<int>)
    requires FlowsValid(flows)
    ensures |flow| > 0
  {
    Scheduler.FlowFor(if uid in flows then flows[uid] else None)
  }

  /** What the handler answers, and the `contents` collection afterwards. */
  datatype Outcome = Outcome(reply: Reply<ActionOk>, docs: map<Id, ContentDocument>)

  /** The whole handler: session check, field check, the three actions, and
      the not-found and invalid-action answers. */
  function Dispatch(docs: map<Id, ContentDocument>, flows: map<UserId, Option<seq<int>>>,
                    session: Option<UserId>, req: ActionRequest, now: int): (o: Outcome)
    requires FlowsValid(flows)
    ensures o.reply.Fail? ==> o.docs == docs
    ensures session.None? ==> o.reply == Fail(Unauthorized, "Unauthorized")
    ensures session.Some? && RouteOf(req) == MissingFields ==>
      o == Outcome(Fail(BadRequest, "Action and contentId are required"), docs)
    ensures session.Some? && RouteOf(req) == UnknownAction ==>
      o == Outcome(Fail(BadRequest, "Invalid action"), docs)
    ensures session.Some? && RouteOf(req) == Archive ==>
      o == Outcome(Ok(ActionOk("Content archived", None)), Archived(docs, req.contentId.value, session.value, now))
    ensures session.Some? && RouteOf(req) == Delete ==>
      o == Outcome(Ok(ActionOk("Content deleted", None)), Deleted(docs, req.contentId.value, session.value))
    ensures session.Some? && RouteOf(req) == Review && !Owns(docs, req.contentId.value, session.value) ==>
      o == Outcome(Fail(NotFound, "Content not found"), docs)
    ensures session.Some? && RouteOf(req) == Review && Owns(docs, req.contentId.value, session.value) ==>
      var doc := Reviewed(docs[req.contentId.value], req.difficulty, FlowOf(flows, session.value), now);
      o == Outcome(Ok(ActionOk("Review recorded", doc.nextReviewDate)), docs[req.contentId.value := doc])
  {
    if session.None? then Outcome(Fail(Unauthorized, "Unauthorized"), docs)
    else
      var uid := session.value;
      match RouteOf(req)
      case MissingFields => Outcome(Fail(BadRequest, "Action and contentId are required"), docs)
      case UnknownAction => Outcome(Fail(BadRequest, "Invalid action"), docs)
      case Archive =>
        Outcome(Ok(ActionOk("Content archived", None)), Archived(docs, req.contentId.value, uid, now))
      case Delete =>
        Outcome(Ok(ActionOk("Content deleted", None)), Deleted(docs, req.contentId.value, uid))
      case Review =>
        var id := req.contentId.value;
        var flow := FlowOf(flows, uid);
        if !Owns(docs, id, uid) then Outcome(Fail(NotFound, "Content not found"), docs)
        else
          var doc := Reviewed(docs[id], req.difficulty, flow, now);
          Outcome(Ok(ActionOk("Review recorded", doc.nextReviewDate)), docs[id := doc])
  }

  /** Archive and delete report success whether or not a document matched;
      when none did, the collection is unchanged. */
  lemma ArchiveDeleteAlwaysSucceed(docs: map<Id, ContentDocument>, flows: map<UserId, Option<seq<int>>>,
                                   uid: UserId, req: ActionRequest, now: int)
    requires FlowsValid(flows)
    requires RouteOf(req) == Archive || RouteOf(req) == Delete
    ensures Dispatch(docs, flows, Some(uid), req, now).reply.Ok?
    ensures !Owns(docs, req.contentId.value, uid) ==> Dispatch(docs, flows, Some(uid), req, now).docs == docs
  {
  }

  /** Reviewing an item the caller does not own (missing, or someone else's)
      answers 404 and changes nothing. */
  lemma ReviewForeignIsNotFound(docs: map<Id, ContentDocument>, flows: map<UserId, Option<seq<int>>>,
                                uid: UserId, req: ActionRequest, now: int)
    requires FlowsValid(flows) && RouteOf(req) == Review && !Owns(docs, req.contentId.value, uid)
    ensures Dispatch(docs, flows, Some(uid), req, now) == Outcome(Fail(NotFound, "Content not found"), docs)
  {
  }

  /** A successful review touches only the reviewed document, adds exactly
      one to its count and schedules it strictly after now (offsets >= 1). */
  lemma ReviewUpdatesOnlyTarget(docs: map<Id, ContentDocument>, flows: map<UserId, Option<seq<int>>>,
                                uid: UserId, req: ActionRequest, now: int)
    requires FlowsValid(flows) && RouteOf(req) == Review && Owns(docs, req.contentId.value, uid)
    requires Scheduler.PositiveFlow(FlowOf(flows, uid))
    ensures var o := Dispatch(docs, flows, Some(uid), req, now);
      var id := req.contentId.value;
      && o.reply.Ok? && o.docs.Keys == docs.Keys
      && (forall k | k in docs && k != id :: o.docs[k] == docs[k])
      && o.docs[id].reviewCount == docs[id].reviewCount + 1
      && o.docs[id].difficulty == req.difficulty
      && o.reply.value.nextReviewDate == o.docs[id].nextReviewDate
      && o.docs[id].nextReviewDate.value > now
  {
  }

  /** Reviews are not idempotent: two successful reviews add two. */
  lemma {:induction false} TwoReviewsCountTwice(docs: map<Id, ContentDocument>, flows: map<UserId, Option<seq<int>>>,
                                                uid: UserId, req: ActionRequest, now1: int, now2: int)
    requires FlowsValid(flows) && RouteOf(req) == Review && Owns(docs, req.contentId.value, uid)
    ensures var o1 := Dispatch(docs, flows, Some(uid), req, now1);
      var o2 := Dispatch(o1.docs, flows, Some(uid), req, now2);
      && o2.reply.Ok?
      && o2.docs[req.contentId.value].reviewCount == docs[req.contentId.value].reviewCount + 2
  {
    var id := req.contentId.value;
    var o1 := Dispatch(docs, flows, Some(uid), req, now1);
    assert o1.docs[id].reviewCount == docs[id].reviewCount + 1;
    assert Owns(o1.docs, id, uid);
  }

  /** The request the complete-review page sends for "Mark as complete"
      (app/complete-review/page.tsx line 167), as written. */
  function MarkCompleteRequestAsWritten(itemId: Id): ActionRequest {
    ActionRequest(Some("reviewed"), Some(itemId), None)
  }

  /** The evidently intended request: the dispatcher's `review` action. */
  function MarkCompleteRequest(itemId: Id): ActionRequest {
    ActionRequest(Some("review"), Some(itemId), None)
  }

  /** As written, "Mark as complete" is always refused with 400 and never
      records a review, for every item and every store. */
  lemma MarkCompleteAsWrittenIsRejected(docs: map<Id, ContentDocument>, flows: map<UserId, Option<seq<int>>>,
                                        uid: UserId, itemId: Id, now: int)
    requires FlowsValid(flows) && itemId != ""
    ensures Dispatch(docs, flows, Some(uid), MarkCompleteRequestAsWritten(itemId), now)
         == Outcome(Fail(BadRequest, "Invalid action"), docs)
  {
  }

  /** With the intended action, marking one of the caller's items complete
      succeeds and records exactly one more review of it. */
  lemma MarkCompleteRecordsReview(docs: map<Id, ContentDocument>, flows: map<UserId, Option<seq<int>>>,
                                  uid: UserId, itemId: Id, now: int)
    requires FlowsValid(flows) && itemId != "" && Owns(docs, itemId, uid)
    ensures var o := Dispatch(docs, flows, Some(uid), MarkCompleteRequest(itemId), now);
      o.reply.Ok? && o.docs[itemId].reviewCount == docs[itemId].reviewCount + 1
  {
  }
}
