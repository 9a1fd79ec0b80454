/**
 * POST /api/content/duplicate-check (app/api/content/duplicate-check/route.ts):
 * a guarded probe for an existing document of the caller whose content
 * contains the first hundred characters of the new text.
 */
module DuplicateCheck {
  import opened Wrappers
  import opened Models
  import opened Text
  import ContentRoute

  /** Texts shorter than this are never checked. */
  const MinLength: nat := 50
  /** Only this many leading characters form the probe. */
  const ProbeLength: nat := 100

  /** `content.substring(0, 100)`. */
  function Probe(content: string): (p: string)
    ensures p <= content
    ensures |p| == if |content| < ProbeLength then |content| else ProbeLength
  {
    if |content| <= ProbeLength then content else content[..ProbeLength]
  }

  /** The `findOne` filter: the caller's active documents whose content
      matches the probe case-insensitively. */
  predicate Candidate(d: ContentDocument, uid: UserId, probe: string) {
    d.userId == uid && d.isActive && ContentRoute.RegexMatchesI(d.content, probe)
  }

  /** The handler. `failed` stands for a thrown database error, which is
      answered with `isDuplicate: false`. */
  function Check(docs: map<Id, ContentDocument>, session: Option<UserId>, content: Option<string>,
                 failed: bool): (r: Reply<bool>)
    ensures session.None? <==> r.Fail?
    ensures r.Fail? ==> r.status == Unauthorized
    ensures r.Ok? && (!Truthy(content) || |content.value| < MinLength) ==> !r.value
    ensures r.Ok? && failed ==> !r.value
    ensures r.Ok? ==>
      (r.value <==>
        && Truthy(content) && |content.value| >= MinLength && !failed
        && exists id | id in docs :: Candidate(docs[id], session.value, Probe(content.value)))
  {
    if session.None? then Fail(Unauthorized, "Unauthorized")
    else if !Truthy(content) || |content.value| < MinLength then Ok(false)
    else if failed then Ok(false)
    else
      var probe := Probe(content.value);
      Ok(exists id | id in docs :: Candidate(docs[id], session.value, probe))
  }

  /** Two texts with the same first hundred characters get the same answer:
      nothing after the probe matters. */
  lemma OnlyProbeMatters(docs: map<Id, ContentDocument>, uid: UserId, a: string, b: string)
    requires |a| >= ProbeLength && |b| >= ProbeLength && a[..ProbeLength] == b[..ProbeLength]
    ensures Check(docs, Some(uid), Some(a), false) == Check(docs, Some(uid), Some(b), false)
  {
  }

  /** A document whose content starts with the probe text is found whatever
      the letter case of the stored copy. */
  lemma {:induction false} StoredCopyIsFound(docs: map<Id, ContentDocument>, uid: UserId, id: Id, content: string)
    requires |content| >= MinLength
    requires id in docs && docs[id].userId == uid && docs[id].isActive
    requires ToLower(docs[id].content) == ToLower(content)
    ensures Check(docs, Some(uid), Some(content), false) == Ok(true)
  {
    var probe := Probe(content);
    var lc := ToLower(content);
    assert ToLower(probe) == lc[..|probe|];
    assert ToLower(probe) <= lc[0..];
    assert Candidate(docs[id], uid, probe);
  }

  /** The documents of other users, and archived ones, are never reported. */
  lemma OthersIgnored(docs: map<Id, ContentDocument>, uid: UserId, content: string, id: Id, d: ContentDocument)
    requires d.userId != uid || !d.isActive
    ensures Check(docs[id := d], Some(uid), Some(content), false) == Check(docs - {id}, Some(uid), Some(content), false)
  {
    var probe := Probe(content);
    var m := docs[id := d];
    var n := docs - {id};
    if k :| k in m && Candidate(m[k], uid, probe) {
      assert k != id && k in n && n[k] == m[k];
    }
    if k :| k in n && Candidate(n[k], uid, probe) {
      assert k in m && m[k] == n[k];
    }
  }
}
