/**
 * /api/content (app/api/content/route.ts): POST creates a document with the
 * scheduling defaults, GET lists the caller's active documents matching the
 * query, newest first, one page at a time.
 */
module ContentRoute {
  import opened Wrappers
  import opened Models
  import opened Text
  import opened Seqs
  import opened Sorting

  // ---------------------------------------------------------------- POST

  /** The JSON body of a create request; every field may be absent. */
  datatype CreateBody = CreateBody(
    title: Option<string>,
    content: Option<string>,
    subject: Option<Subject>,
    tags: Option<seq<string>>,
    images: Option<seq<string>>)

  /** The document that is inserted: no reviews yet, active, due 24 hours
      after creation, with empty tag and image lists by default. */
  function NewDocument(uid: UserId, body: CreateBody, content: string, subject: Subject, now: int): (d: ContentDocument)
    ensures d.userId == uid && d.title == body.title && d.content == content && d.subject == subject
    ensures d.reviewCount == 0 && d.isActive
    ensures d.createdAt == now && d.updatedAt == now
    ensures d.nextReviewDate == Some(now + DayMs)
    ensures d.tags == (if body.tags.Some? then body.tags.value else [])
    ensures d.images == (if body.images.Some? then body.images.value else [])
    ensures d.difficulty.None? && d.estimatedTime.None?
  {
    ContentDocument(uid, body.title, content, subject, body.tags.GetOr([]), body.images.GetOr([]),
                    now, now, Some(now + 24 * 60 * 60 * 1000), 0, None, None, true)
  }

  /** The answer of POST and the collection afterwards. */
  datatype CreateOutcome = CreateOutcome(reply: Reply<Id>, docs: map<Id, ContentDocument>)

  /** POST: 401 without a session, 400 without content or subject, otherwise
      the document is inserted under the fresh id `newId` the store hands out
      (a clash is a duplicate-key error and answers 500). */
  function Create(docs: map<Id, ContentDocument>, session: Option<UserId>, body: CreateBody,
                  newId: Id, now: int): (o: CreateOutcome)
    ensures o.reply.Fail? ==> o.docs == docs
    ensures session.None? ==> o.reply.Fail? && o.reply.status == Unauthorized
    ensures session.Some? && (!Truthy(body.content) || body.subject.None?) ==>
      o.reply.Fail? && o.reply.status == BadRequest
    ensures o.reply.Ok? <==>
      session.Some? && Truthy(body.content) && body.subject.Some? && newId !in docs
    ensures o.reply.Ok? ==>
      && o.reply.value == newId
      && o.docs == docs[newId := NewDocument(session.value, body, body.content.value, body.subject.value, now)]
  {
    if session.None? then CreateOutcome(Fail(Unauthorized, "Unauthorized"), docs)
    else if !Truthy(body.content) || body.subject.None? then
      CreateOutcome(Fail(BadRequest, "Content and subject are required"), docs)
    else if newId in docs then CreateOutcome(Fail(InternalError, "Internal server error"), docs)
    else
      var d := NewDocument(session.value, body, body.content.value, body.subject.value, now);
      CreateOutcome(Ok(newId), docs[newId := d])
  }

  // ----------------------------------------------------------------- GET

  /** The query-string parameters, each absent or a string. */
  datatype ListQuery = ListQuery(
    page: Option<string>,
    limit: Option<string>,
    subject: Option<string>,
    tags: Option<string>,
    search: Option<string>)

  /** The MongoDB filter built field by field on lines 74-90. */
  datatype ContentFilter = ContentFilter(userId: UserId, subject: Option<string>, tags: seq<string>, search: Option<string>)

  predicate NonEmpty(s: string) {
    s != ""
  }

  /** `tags?.split(',').filter(Boolean)`: the non-empty comma-separated pieces. */
  function RequestedTags(tags: Option<string>): (r: seq<string>)
    ensures forall i | 0 <= i < |r| :: r[i] != ""
    ensures tags.Some? ==> r == Seqs.Filter(Split(tags.value, ","), NonEmpty)
    ensures tags.None? ==> r == []
  {
    if tags.None? then []
    else
      var r := Seqs.Filter(Split(tags.value, ","), NonEmpty);
      assert forall i | 0 <= i < |r| :: r[i] in r;
      r
  }
  /** The tag list is cut at its first comma: the text before it is a tag
      unless empty, followed by the tags of the text after it. */
  lemma RequestedTagsCutAtComma(t: string, rest: string)
    requires ',' !in t
    ensures RequestedTags(Some(t + "," + rest)) == (if t == "" then [] else [t]) + RequestedTags(Some(rest))
  {
    var s := t + "," + rest;
    assert SepAt(s, ",", |t|) by {
      assert s[|t|..|t| + 1] == ",";
    }
    forall i | 0 <= i < |t|
      ensures !SepAt(s, ",", i)
    {
      assert s[i..i + 1] == [t[i]];
    }
    SplitAt(s, ",", |t|);
    assert s[..|t|] == t;
    assert s[|t| + 1..] == rest;
    var ps := Split(s, ",");
    assert ps[1..] == Split(rest, ",");
  }


  function BuildFilter(uid: UserId, q: ListQuery): (f: ContentFilter)
    ensures f.userId == uid
    ensures f.subject.Some? <==> Truthy(q.subject)
    ensures f.subject.Some? ==> f.subject == q.subject
    ensures f.tags == RequestedTags(q.tags)
    ensures f.search.Some? <==> Truthy(q.search)
    ensures f.search.Some? ==> f.search == q.search
  {
    ContentFilter(uid,
                  if Truthy(q.subject) then q.subject else None,
                  RequestedTags(q.tags),
                  if Truthy(q.search) then q.search else None)
  }

  /** `{ $regex: pattern, $options: 'i' }`, read as a case-insensitive
      substring test (the pattern's metacharacters are not interpreted). */
  predicate RegexMatchesI(field: string, pattern: string) {
    Contains(ToLower(field), ToLower(pattern))
  }

  predicate Shares(xs: seq<string>, ys: seq<string>) {
    exists i | 0 <= i < |xs| :: xs[i] in ys
  }

  /** The search clause: title, content or some tag matches. */
  predicate SearchMatches(d: ContentDocument, pattern: string) {
    || (d.title.Some? && RegexMatchesI(d.title.value, pattern))
    || RegexMatchesI(d.content, pattern)
    || (exists i | 0 <= i < |d.tags| :: RegexMatchesI(d.tags[i], pattern))
  }

  /** A document satisfies every clause present in the filter. */
  predicate Matches(f: ContentFilter, d: ContentDocument) {
    && d.userId == f.userId
    && d.isActive
    && (f.subject.Some? ==> d.subject.id == f.subject.value)
    && (f.tags != [] ==> Shares(f.tags, d.tags))
    && (f.search.Some? ==> SearchMatches(d, f.search.value))
  }

  /** `Math.ceil(a / b)` for a non-zero integer divisor. */
  function CeilDiv(a: int, b: int): (c: int)
    requires b != 0
  {
    if b > 0 then -((-a) / b) else -(a / (-b))
  }

  /** For a positive divisor the ceiling is the least number of `b`-sized
      pages holding `a` items. */
  lemma CeilDivBounds(a: int, b: int)
    requires b > 0
    ensures CeilDiv(a, b) * b >= a
    ensures (CeilDiv(a, b) - 1) * b < a
  {
    var q := (-a) / b;
    var r := (-a) % b;
    assert -a == q * b + r && 0 <= r < b;
    assert CeilDiv(a, b) * b == a + r;
  }

  /** `.skip(skip).limit(limit)`: a positive limit caps the page, zero means
      no cap, and a negative limit caps it at its absolute value. */
  function Window<T>(s: seq<T>, skip: nat, limit: int): (w: seq<T>)
    ensures skip <= |s| ==> w <= s[skip..]
    ensures skip >= |s| ==> w == []
    ensures limit == 0 ==> w == if skip <= |s| then s[skip..] else []
    ensures limit != 0 && skip <= |s| ==>
      |w| == if |s| - skip < Abs(limit) then |s| - skip else Abs(limit)
  {
    var rest := if skip <= |s| then s[skip..] else [];
    if limit == 0 || |rest| <= Abs(limit) then rest else rest[..Abs(limit)]
  }

  function Abs(x: int): nat {
    if x < 0 then -x else x
  }

  datatype Pagination = Pagination(page: int, limit: int, total: nat, pages: Option<int>)
  datatype Listing = Listing(contents: seq<Entry>, pagination: Pagination)

  /** `find(filter)`: the matching documents in natural order. */
  function Found(es: seq<Entry>, f: ContentFilter): (r: seq<Entry>)
    ensures forall e | e in r :: e in es && Matches(f, e.doc)
    ensures forall e | e in es && Matches(f, e.doc) :: e in r
  {
    Seqs.Filter(es, (e: Entry) => Matches(f, e.doc))
  }

  /** `find(filter).sort({ createdAt: -1 })`. */
  function SortedMatches(es: seq<Entry>, f: ContentFilter): (r: seq<Entry>) {
    SortDesc(Found(es, f), CreatedAt)
  }

  /** The sorted matches are exactly the matching documents, each as often as
      in the collection, in non-increasing `createdAt` order. */
  lemma SortedMatchesSpec(es: seq<Entry>, f: ContentFilter)
    ensures var r := SortedMatches(es, f);
      && multiset(r) == multiset(Found(es, f))
      && |r| == |Found(es, f)|
      && SortedDesc(r, CreatedAt)
      && (forall i | 0 <= i < |r| :: r[i] in es && Matches(f, r[i].doc))
      && (forall e | e in es && Matches(f, e.doc) :: e in r)
  {
    FilterSortSpec(es, (e: Entry) => Matches(f, e.doc), CreatedAt);
    assert Found(es, f) == Seqs.Filter(es, (e: Entry) => Matches(f, e.doc));
  }

  /** `.skip((page - 1) * limit).limit(limit)` over the sorted matches, with
      the pagination block of the answer. A negative skip is refused by the
      database, which the handler answers with 500. */
  function Paginate(all: seq<Entry>, page: int, limit: int): (r: Reply<Listing>)
    ensures r.Ok? <==> (page - 1) * limit >= 0
    ensures r.Ok? ==>
      && r.value.contents == Window(all, (page - 1) * limit, limit)
      && r.value.pagination == Pagination(page, limit, |all|, if limit == 0 then None else Some(CeilDiv(|all|, limit)))
  {
    var skip := (page - 1) * limit;
    if skip < 0 then Fail(InternalError, "Internal server error")
    else
      var pages := if limit == 0 then None else Some(CeilDiv(|all|, limit));
      Ok(Listing(Window(all, skip, limit), Pagination(page, limit, |all|, pages)))
  }

  /** GET. `es` is the collection in its natural order. A page or limit that
      does not parse as a number makes the driver throw, which the handler
      answers with 500. */
  function List(es: seq<Entry>, session: Option<UserId>, q: ListQuery): (r: Reply<Listing>)
    ensures session.None? ==> r == Fail(Unauthorized, "Unauthorized")
    ensures r.Ok? ==>
      && session.Some?
      && ParseInt(OrElse(q.page, "1")).Some?
      && ParseInt(OrElse(q.limit, "10")).Some?
      && r == Paginate(SortedMatches(es, BuildFilter(session.value, q)),
                       ParseInt(OrElse(q.page, "1")).value, ParseInt(OrElse(q.limit, "10")).value)
  {
    if session.None? then Fail(Unauthorized, "Unauthorized")
    else
      var page := ParseInt(OrElse(q.page, "1"));
      var limit := ParseInt(OrElse(q.limit, "10"));
      if page.None? || limit.None? then Fail(InternalError, "Internal server error")
      else Paginate(SortedMatches(es, BuildFilter(session.value, q)), page.value, limit.value)
  }

  /** A window of a sorted sequence is sorted and holds elements of it. */
  lemma WindowOfSorted<T>(s: seq<T>, skip: nat, limit: int, key: T -> int)
    requires SortedDesc(s, key)
    ensures var w := Window(s, skip, limit);
      SortedDesc(w, key) && forall i | 0 <= i < |w| :: w[i] in s
  {
    var w := Window(s, skip, limit);
    if skip <= |s| {
      assert w <= s[skip..];
      forall i, j | 0 <= i < j < |w| ensures key(w[i]) >= key(w[j]) {
        assert w[i] == s[skip + i] && w[j] == s[skip + j];
      }
      forall i | 0 <= i < |w| ensures w[i] in s {
        assert w[i] == s[skip + i];
      }
    }
  }

  /** With a positive limit, element `i` is entry `i % limit` of the window
      that skips `i / limit` whole pages, and fewer than `ceil(|s| / limit)`
      pages are skipped. */
  lemma {:induction false} PageOfIndex<T>(s: seq<T>, limit: int, i: nat)
    requires limit > 0 && i < |s|
    ensures 0 <= i / limit < CeilDiv(|s|, limit)
    ensures 0 <= (i / limit) * limit <= i
    ensures i % limit < |Window(s, (i / limit) * limit, limit)|
    ensures Window(s, (i / limit) * limit, limit)[i % limit] == s[i]
  {
    var q, r := i / limit, i % limit;
    assert i == q * limit + r && 0 <= r < limit;
    CeilDivBounds(|s|, limit);
    var c := CeilDiv(|s|, limit);
    assert q < c by {
      if q >= c {
        MulMonotone(c, q, limit);
      }
    }
    var skip := q * limit;
    var w := Window(s, skip, limit);
    assert |w| > r;
    assert w <= s[skip..];
  }

  lemma MulMonotone(a: int, b: int, m: nat)
    requires a <= b
    ensures a * m <= b * m
  {
  }

  /** The filter built from a query is met exactly by the caller's active
      documents that satisfy each clause the query supplies. */
  lemma MatchesQuery(uid: UserId, q: ListQuery, d: ContentDocument)
    ensures Matches(BuildFilter(uid, q), d) <==>
      && d.userId == uid && d.isActive
      && (Truthy(q.subject) ==> d.subject.id == q.subject.value)
      && (RequestedTags(q.tags) != [] ==> Shares(RequestedTags(q.tags), d.tags))
      && (Truthy(q.search) ==> SearchMatches(d, q.search.value))
  {
  }

  /** A page of a sorted sequence is sorted, holds elements of it, at most
      `|limit|` of them when the limit is not zero, and reports the full
      length as its total. */
  lemma PaginateSpec(all: seq<Entry>, page: int, limit: int)
    requires SortedDesc(all, CreatedAt) && Paginate(all, page, limit).Ok?
    ensures var l := Paginate(all, page, limit).value;
      && l.pagination.total == |all|
      && |l.contents| <= |all|
      && (l.pagination.limit != 0 ==> |l.contents| <= Abs(l.pagination.limit))
      && SortedDesc(l.contents, CreatedAt)
      && forall i | 0 <= i < |l.contents| :: l.contents[i] in all
  {
    WindowOfSorted(all, (page - 1) * limit, limit, CreatedAt);
  }

  /** A listing holds only documents of the collection that meet the filter,
      newest first, at most `limit` of them; `total` counts every match, not
      only the page. */
  lemma ListingIsScoped(es: seq<Entry>, uid: UserId, q: ListQuery)
    requires List(es, Some(uid), q).Ok?
    ensures var l := List(es, Some(uid), q).value;
      && l.pagination.total == |Found(es, BuildFilter(uid, q))|
      && |l.contents| <= l.pagination.total
      && (l.pagination.limit != 0 ==> |l.contents| <= Abs(l.pagination.limit))
      && SortedDesc(l.contents, CreatedAt)
      && forall i | 0 <= i < |l.contents| :: l.contents[i] in es && Matches(BuildFilter(uid, q), l.contents[i].doc)
  {
    var f := BuildFilter(uid, q);
    var all := SortedMatches(es, f);
    SortedMatchesSpec(es, f);
    PaginateSpec(all, ParseInt(OrElse(q.page, "1")).value, ParseInt(OrElse(q.limit, "10")).value);
    assert |all| == |Found(es, f)| by {
      assert |multiset(all)| == |all|;
    }
  }

  /** With a positive limit, page `i / limit + 1` exists, lies within the
      reported page count, and holds element `i` at position `i % limit`. */
  lemma PaginateCovers(all: seq<Entry>, limit: int, i: nat)
    requires limit > 0 && i < |all|
    ensures var page := i / limit + 1;
      var r := Paginate(all, page, limit);
      && r.Ok? && r.value.pagination.pages.Some?
      && 1 <= page <= r.value.pagination.pages.value
      && i % limit < |r.value.contents|
      && r.value.contents[i % limit] == all[i]
  {
    var q := i / limit;
    var page := q + 1;
    PageOfIndex(all, limit, i);
    assert (page - 1) * limit == q * limit;
    var r := Paginate(all, page, limit);
    assert r.Ok? && r.value.contents == Window(all, q * limit, limit);
    assert r.value.pagination.pages == Some(CeilDiv(|all|, limit));
  }

  /** Once both numbers parse, the listing is the corresponding page of the
      sorted matches. */
  lemma ListIsPage(es: seq<Entry>, uid: UserId, q: ListQuery, page: int, limit: int)
    requires ParseInt(OrElse(q.page, "1")) == Some(page) && ParseInt(OrElse(q.limit, "10")) == Some(limit)
    ensures List(es, Some(uid), q) == Paginate(SortedMatches(es, BuildFilter(uid, q)), page, limit)
  {
  }

  /** With no query parameters, the first page holds the ten newest of the
      caller's active documents. */
  lemma DefaultsAreFirstTen(es: seq<Entry>, uid: UserId)
    ensures var q := ListQuery(None, None, None, None, None);
      var r := List(es, Some(uid), q);
      && r.Ok? && r.value.pagination.page == 1 && r.value.pagination.limit == 10
      && r.value.contents == Window(SortedMatches(es, ContentFilter(uid, None, [], None)), 0, 10)
  {
    assert NatToString(1) == "1";
    assert NatToString(10) == "10";
    ParseIntNatToString(1);
    ParseIntNatToString(10);
    assert BuildFilter(uid, ListQuery(None, None, None, None, None)) == ContentFilter(uid, None, [], None);
  }
}
