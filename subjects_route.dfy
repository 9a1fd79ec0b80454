/**
 * /api/subjects (app/api/subjects/route.ts): each user has one record holding
 * an ordered list of subjects; POST appends a subject whose id is derived from
 * its name, GET reads the list.
 */
module SubjectsRoute {
  import opened Wrappers
  import opened Models
  import opened Text

  /** `s.replace(/\s+/g, '-')`: every maximal whitespace run becomes one `-`. */
  function DashRuns(s: string): (r: string)
    ensures !HasSpace(r)
    ensures !HasSpace(s) ==> r == s
    ensures |r| <= |s|
    decreases |s|
  {
    if s == [] then []
    else if IsSpace(s[0]) then
      var n := SpaceRun(s);
      "-" + DashRuns(s[n..])
    else
      var rest := DashRuns(s[1..]);
      assert !HasSpace(s) ==> !HasSpace(s[1..]) by {
        if !HasSpace(s) { forall i | 0 <= i < |s[1..]| ensures !IsSpace(s[1..][i]) { assert s[1..][i] == s[i + 1]; } }
      }
      var r := [s[0]] + rest;
      assert forall i | 1 <= i < |r| :: r[i] == rest[i - 1];
      r
  }

  /** `name.toLowerCase().replace(/\s+/g, '-')`. */
  function Slug(name: string): (id: string)
    ensures !HasSpace(id)
    ensures !HasSpace(name) ==> id == ToLower(name)
  {
    ToLowerKeepsSpaces(name);
    DashRuns(ToLower(name))
  }

  /** Each maximal whitespace run becomes exactly one `-`: a text `a` without
      whitespace followed by a run `w` is kept, and the run turns into a
      single dash before the rest is processed. */
  lemma {:induction false} DashRunsRun(a: string, w: string, b: string)
    requires !HasSpace(a)
    requires w != [] && AllSpace(w)
    requires b == [] || !IsSpace(b[0])
    ensures DashRuns(a + w + b) == a + "-" + DashRuns(b)
    decreases |a|
  {
    if a == [] {
      assert a + w + b == w + b;
      DashRunsLeadingRun(w, b);
    } else {
      var s := a + w + b;
      var tail := a[1..] + w + b;
      assert s[0] == a[0] && s[1..] == tail;
      NoSpaceTail(a);
      DashRunsKeepsHead(s);
      DashRunsRun(a[1..], w, b);
      ConsDash(a, DashRuns(b));
    }
  }

  lemma ConsDash(a: string, r: string)
    requires a != []
    ensures [a[0]] + (a[1..] + "-" + r) == a + "-" + r
  {
    assert [a[0]] + a[1..] == a;
  }

  /** A non-blank first character is copied. */
  lemma DashRunsKeepsHead(s: string)
    requires s != [] && !IsSpace(s[0])
    ensures DashRuns(s) == [s[0]] + DashRuns(s[1..])
  {
  }

  lemma NoSpaceTail(a: string)
    requires a != [] && !HasSpace(a)
    ensures !IsSpace(a[0]) && !HasSpace(a[1..])
  {
    forall i | 0 <= i < |a[1..]| ensures !IsSpace(a[1..][i]) { assert a[1..][i] == a[i + 1]; }
  }

  /** A leading maximal run becomes one `-`. */
  lemma DashRunsLeadingRun(w: string, b: string)
    requires w != [] && AllSpace(w)
    requires b == [] || !IsSpace(b[0])
    ensures DashRuns(w + b) == "-" + DashRuns(b)
  {
    var s := w + b;
    assert s[0] == w[0];
    assert forall i | 0 <= i < |w| :: IsSpace(s[i]) by {
      forall i | 0 <= i < |w| ensures IsSpace(s[i]) { assert s[i] == w[i]; }
    }
    assert |w| < |s| ==> s[|w|] == b[0];
    assert SpaceRun(s) == |w|;
    assert s[|w|..] == b;
  }

  /** The run rule lifted to ids: the part before the first run is lower-cased,
      the run becomes one `-`, and the rest is slugged in turn. */
  lemma SlugRun(a: string, w: string, b: string)
    requires !HasSpace(a)
    requires w != [] && AllSpace(w)
    requires b == [] || !IsSpace(b[0])
    ensures Slug(a + w + b) == ToLower(a) + "-" + Slug(b)
  {
    ToLowerAppend(a + w, b);
    ToLowerAppend(a, w);
    ToLowerKeepsSpaces(a);
    assert ToLower(w) == w by {
      forall i | 0 <= i < |w| ensures ToLower(w)[i] == w[i] { assert IsSpace(w[i]); }
    }
    assert ToLower(b) == [] || !IsSpace(ToLower(b)[0]);
    DashRunsRun(ToLower(a), w, ToLower(b));
  }

  /** A slug is its own slug, so deriving an id from an id changes nothing. */
  lemma SlugIdempotent(name: string)
    ensures Slug(Slug(name)) == Slug(name)
  {
    var id := Slug(name);
    SlugIsLower(name);
    assert ToLower(id) == id;
  }

  /** A slug has no upper-case ASCII letter. */
  lemma SlugIsLower(name: string)
    ensures ToLower(Slug(name)) == Slug(name)
  {
    DashRunsLower(ToLower(name));
  }

  lemma {:induction false} DashRunsLower(s: string)
    requires ToLower(s) == s
    ensures ToLower(DashRuns(s)) == DashRuns(s)
    decreases |s|
  {
    if s != [] {
      var n := if IsSpace(s[0]) then SpaceRun(s) else 1;
      var head := if IsSpace(s[0]) then "-" else [s[0]];
      LowerSuffix(s, n);
      DashRunsLower(s[n..]);
      var rest := DashRuns(s[n..]);
      assert DashRuns(s) == head + rest;
      assert ToLower(head) == head by {
        if !IsSpace(s[0]) { assert LowerChar(s[0]) == ToLower(s)[0]; }
      }
      ToLowerAppend(head, rest);
    }
  }

  /** A suffix of a lower-case string is lower case. */
  lemma LowerSuffix(s: string, n: nat)
    requires ToLower(s) == s && n <= |s|
    ensures ToLower(s[n..]) == s[n..]
  {
    forall i | 0 <= i < |s[n..]| ensures LowerChar(s[n..][i]) == s[n..][i] {
      assert s[n..][i] == s[n + i] && LowerChar(s[n + i]) == ToLower(s)[n + i];
    }
  }


  /** GET: the caller's list, or `[]` when no record exists. */
  function Subjects(records: map<UserId, UserSubjects>, session: Option<UserId>): (r: Reply<seq<Subject>>)
    ensures session.None? <==> r.Fail?
    ensures r.Ok? && session.value in records ==> r.value == records[session.value].subjects
    ensures r.Ok? && session.value !in records ==> r.value == []
  {
    if session.None? then Fail(Unauthorized, "Unauthorized")
    else if session.value in records then Ok(records[session.value].subjects)
    else Ok([])
  }

  datatype PostOutcome = PostOutcome(reply: Reply<Subject>, records: map<UserId, UserSubjects>)

  /** POST. The upsert appends to the caller's record, sets `updatedAt`, and
      sets `createdAt` only when it creates the record. */
  function AddSubject(records: map<UserId, UserSubjects>, session: Option<UserId>,
                      name: Option<string>, color: Option<string>, now: int): (o: PostOutcome)
    ensures o.reply.Fail? ==> o.records == records
    ensures session.None? ==> o.reply == Fail(Unauthorized, "Unauthorized")
    ensures session.Some? && (!Truthy(name) || !Truthy(color)) ==> o.reply.Fail? && o.reply.status == BadRequest
    ensures o.reply.Ok? <==> session.Some? && Truthy(name) && Truthy(color)
    ensures o.reply.Ok? ==>
      var uid := session.value;
      var s := o.reply.value;
      && s == Subject(Slug(name.value), name.value, color.value, now)
      && o.records.Keys == records.Keys + {uid}
      && (forall u | u in records && u != uid :: o.records[u] == records[u])
      && o.records[uid].subjects == (if uid in records then records[uid].subjects else []) + [s]
      && o.records[uid].createdAt == (if uid in records then records[uid].createdAt else now)
      && o.records[uid].updatedAt == now
  {
    if session.None? then PostOutcome(Fail(Unauthorized, "Unauthorized"), records)
    else if !Truthy(name) || !Truthy(color) then PostOutcome(Fail(BadRequest, "Name and color are required"), records)
    else
      var uid := session.value;
      var s := Subject(Slug(name.value), name.value, color.value, now);
      var rec := if uid in records then records[uid].(subjects := records[uid].subjects + [s], updatedAt := now)
                 else UserSubjects([s], now, now);
      PostOutcome(Ok(s), records[uid := rec])
  }

  /** After a successful POST, GET returns the earlier list with the new
      subject at its end. */
  lemma PostThenGet(records: map<UserId, UserSubjects>, uid: UserId, name: string, color: string, now: int)
    requires name != "" && color != ""
    ensures var o := AddSubject(records, Some(uid), Some(name), Some(color), now);
      Subjects(o.records, Some(uid)).value == Subjects(records, Some(uid)).value + [o.reply.value]
  {
  }

  /** There is no duplicate check: posting the same name twice stores two
      entries with the same id. */
  lemma {:induction false} SameNameTwice(records: map<UserId, UserSubjects>, uid: UserId, name: string, color: string,
                                         t1: int, t2: int)
    requires name != "" && color != ""
    ensures var o1 := AddSubject(records, Some(uid), Some(name), Some(color), t1);
      var o2 := AddSubject(o1.records, Some(uid), Some(name), Some(color), t2);
      var l := o2.records[uid].subjects;
      && |l| >= 2
      && l[|l| - 2].id == l[|l| - 1].id == Slug(name)
  {
    var o1 := AddSubject(records, Some(uid), Some(name), Some(color), t1);
    var o2 := AddSubject(o1.records, Some(uid), Some(name), Some(color), t2);
    assert o2.records[uid].subjects == o1.records[uid].subjects + [o2.reply.value];
  }
}
