/**
 * The add-content editor (app/add-content/page.tsx): the tag list, the
 * selection formatter, the word count and read time, and the guards and body
 * of the save request.
 */
module AddContent {
  import opened Wrappers
  import opened Models
  import opened Text
  import Seqs
  import ContentRoute

  // ------------------------------------------------------------ formatting

  /** The toolbar's formats; `formatText` is called with one of four names,
      and any other name falls to the `switch`'s empty default. */
  datatype Format = Bold | Italic | Highlight | Bullet | Unknown

  function FormatOf(name: string): Format {
    if name == "bold" then Bold
    else if name == "italic" then Italic
    else if name == "highlight" then Highlight
    else if name == "list" then Bullet
    else Unknown
  }

  /** The text placed before and after the selection. */
  function Before(f: Format): string {
    match f
    case Bold => "**"
    case Italic => "*"
    case Highlight => "=="
    case Bullet => "\n• "
    case Unknown => ""
  }

  function After(f: Format): string {
    match f
    case Bold => "**"
    case Italic => "*"
    case Highlight => "=="
    case _ => ""
  }

  /** `formattedText` of lines 125-139: the selection between the format's
      markers, or nothing for an unknown format. */
  function Wrap(f: Format, selected: string): (w: string)
    ensures f != Unknown ==> w == Before(f) + selected + After(f)
    ensures f == Unknown ==> w == ""
  {
    if f == Unknown then "" else Before(f) + selected + After(f)
  }

  /** `formatText` for the textarea selection `[start, end)`: an empty
      selection leaves the content alone; otherwise the selection is replaced
      by its wrapped form. */
  function FormatText(content: string, start: nat, end: nat, f: Format): (r: string)
    requires start <= end <= |content|
    ensures start == end ==> r == content
    ensures start < end ==> r == content[..start] + Wrap(f, content[start..end]) + content[end..]
  {
    var selected := content[start..end];
    if selected == "" then content
    else content[..start] + Wrap(f, selected) + content[end..]
  }

  /** Cutting `bLen` characters before and `aLen` after the `selLength`
      characters at `start`. */
  function Cut(r: string, start: nat, bLen: nat, selLength: nat, aLen: nat): string
    requires start + bLen + selLength + aLen <= |r|
  {
    r[..start] + r[start + bLen..start + bLen + selLength] + r[start + bLen + selLength + aLen..]
  }

  lemma CutSplice(content: string, start: nat, end: nat, b: string, a: string)
    requires start <= end <= |content|
    ensures var r := content[..start] + (b + content[start..end] + a) + content[end..];
      && |r| == |content| + |b| + |a|
      && r[..start] == content[..start]
      && Cut(r, start, |b|, end - start, |a|) == content
  {
    var pre, sel, post := content[..start], content[start..end], content[end..];
    var r := pre + (b + sel + a) + post;
    var k := start + |b| + |sel|;
    assert r[..start] == pre;
    assert r[start + |b|..k] == sel;
    assert r[k + |a|..] == post;
    assert content == pre + sel + post;
  }

  /** The inverse of a known format: cutting its markers back out of the
      result restores the original content. */
  function Unwrap(r: string, start: nat, selLength: nat, f: Format): string
    requires start + |Before(f)| + selLength + |After(f)| <= |r|
  {
    Cut(r, start, |Before(f)|, selLength, |After(f)|)
  }

  lemma {:induction false} FormatRoundTrip(content: string, start: nat, end: nat, f: Format)
    requires start < end <= |content| && f != Unknown
    ensures var r := FormatText(content, start, end, f);
      && |r| == |content| + |Before(f)| + |After(f)|
      && r[..start] == content[..start]
      && Unwrap(r, start, end - start, f) == content
  {
    CutSplice(content, start, end, Before(f), After(f));
  }

  /** Bold wraps the selection in double asterisks. */
  lemma BoldExample()
    ensures FormatText("a b c", 2, 3, Bold) == "a **b** c"
  {
    assert "a b c"[..2] == "a " && "a b c"[2..3] == "b" && "a b c"[3..] == " c";
  }

  // ------------------------------------------------------- words and time

  /** `getWordCount`. */
  function WordCount(content: string): (n: nat)
    ensures n == RunStarts(content, true)
    ensures n == 0 <==> AllSpace(content)
  {
    WordCountIsRunStarts(content);
    NoWordsIffAllSpace(content);
    |Words(content)|
  }

  /** `Math.ceil(words / 200)`: minutes at 200 words per minute. */
  function ReadTime(words: nat): (m: nat)
    ensures m * 200 >= words
    ensures words > 0 ==> (m - 1) * 200 < words
    ensures m == 0 <==> words == 0
  {
    (words + 199) / 200
  }

  /** Adding words never shortens the estimated read time. */
  lemma ReadTimeMonotone(a: nat, b: nat)
    requires a <= b
    ensures ReadTime(a) <= ReadTime(b)
  {
  }

  // ------------------------------------------------------------------ save

  /** `subjects.find(s => s.id === selectedSubject)`. */
  function FindSubject(subjects: seq<Subject>, id: string): (r: Option<Subject>)
    ensures r.Some? <==> exists i | 0 <= i < |subjects| :: subjects[i].id == id
    ensures r.Some? ==> r.value in subjects && r.value.id == id
    ensures r.Some? ==> exists i | 0 <= i < |subjects| ::
      subjects[i] == r.value && forall j | 0 <= j < i :: subjects[j].id != id
  {
    if subjects == [] then None
    else if subjects[0].id == id then Some(subjects[0])
    else
      var r := FindSubject(subjects[1..], id);
      assert forall i | 1 <= i < |subjects| :: subjects[1..][i - 1] == subjects[i];
      if r.Some? then
        var i :| 0 <= i < |subjects[1..]| && subjects[1..][i] == r.value
          && forall j | 0 <= j < i :: subjects[1..][j].id != id;
        assert subjects[i + 1] == r.value;
        assert forall j | 0 <= j < i + 1 :: subjects[j].id != id by {
          forall j | 0 <= j < i + 1 ensures subjects[j].id != id {
            if j > 0 { assert subjects[j] == subjects[1..][j - 1]; }
          }
        }
        r
      else r
  }

  datatype SaveStep = SignInFirst | SelectSubjectFirst | Send(body: ContentRoute.CreateBody)

  /** `handleSave` up to the request: the two guards, then the body with the
      trimmed title (absent when blank), the trimmed content, the selected
      subject looked up in the list, and the tags. */
  function SaveRequest(session: Option<UserId>, selectedSubject: string, subjects: seq<Subject>,
                       title: string, content: string, tags: seq<string>): (s: SaveStep)
    ensures session.None? ==> s == SignInFirst
    ensures session.Some? && selectedSubject == "" ==> s == SelectSubjectFirst
    ensures s.Send? ==>
      && s.body.content == Some(Trim(content))
      && s.body.title == (if Trim(title) == "" then None else Some(Trim(title)))
      && s.body.subject == FindSubject(subjects, selectedSubject)
      && s.body.tags == Some(tags) && s.body.images.None?
  {
    if session.None? then SignInFirst
    else if selectedSubject == "" then SelectSubjectFirst
    else
      var t := Trim(title);
      Send(ContentRoute.CreateBody(if t == "" then None else Some(t), Some(Trim(content)),
                                   FindSubject(subjects, selectedSubject), Some(tags), None))
  }

  /** The save button is enabled iff the trimmed content is non-empty, a
      subject is selected and no save is running. */
  predicate CanSave(content: string, selectedSubject: string, isSaving: bool) {
    Trim(content) != "" && selectedSubject != "" && !isSaving
  }

  /** What the button allows the server accepts: with a session, non-blank
      content and a subject from the list, the create route stores the
      document (given a fresh id) with the trimmed content. */
  lemma SaveIsAccepted(docs: map<Id, ContentDocument>, uid: UserId, selectedSubject: string, subjects: seq<Subject>,
                       title: string, content: string, tags: seq<string>, newId: Id, now: int)
    requires CanSave(content, selectedSubject, false)
    requires exists i | 0 <= i < |subjects| :: subjects[i].id == selectedSubject
    requires newId !in docs
    ensures var s := SaveRequest(Some(uid), selectedSubject, subjects, title, content, tags);
      && s.Send?
      && var o := ContentRoute.Create(docs, Some(uid), s.body, newId, now);
      && o.reply == Ok(newId)
      && o.docs[newId].content == Trim(content)
      && o.docs[newId].tags == tags
  {
  }

  /** A selected id missing from the loaded list sends no subject, which
      the create route refuses with 400. */
  lemma UnknownSubjectIsRefused(docs: map<Id, ContentDocument>, uid: UserId, selectedSubject: string, subjects: seq<Subject>,
                                title: string, content: string, tags: seq<string>, newId: Id, now: int)
    requires selectedSubject != ""
    requires forall i | 0 <= i < |subjects| :: subjects[i].id != selectedSubject
    ensures var s := SaveRequest(Some(uid), selectedSubject, subjects, title, content, tags);
      && s.Send?
      && ContentRoute.Create(docs, Some(uid), s.body, newId, now).reply.status == BadRequest
  {
  }

  // ----------------------------------------------------------- the editor

  /** A stored tag: non-empty and already trimmed. */
  predicate IsTag(t: string) {
    t != "" && Trim(t) == t
  }

  /** A valid tag list stays valid when a new, trimmed, non-empty tag is appended. */
  lemma AppendTag(tags: seq<string>, t: string)
    requires Seqs.NoDups(tags) && (forall x | x in tags :: IsTag(x))
    requires IsTag(t) && t !in tags
    ensures Seqs.NoDups(tags + [t]) && forall x | x in tags + [t] :: IsTag(x)
  {
    var r := tags + [t];
    forall i, j | 0 <= i < j < |r|
      ensures r[i] != r[j]
    {
      if j == |tags| {
        assert r[i] == tags[i] && tags[i] in tags;
      } else {
        assert r[i] == tags[i] && r[j] == tags[j];
      }
    }
  }

  class Editor {
    var content: string
    var tags: seq<string>
    var currentTag: string

    /** Tags are trimmed, non-empty and pairwise distinct. */
    ghost predicate Valid()
      reads this
    {
      Seqs.NoDups(tags) && forall t | t in tags :: IsTag(t)
    }

    constructor ()
      ensures Valid() && content == "" && tags == [] && currentTag == ""
    {
      content := "";
      tags := [];
      currentTag := "";
    }

    /** `handleAddTag`: the trimmed input is appended when it is non-empty and
        new, and only then is the input cleared. */
    method AddTag()
      requires Valid()
      modifies this
      ensures Valid()
      ensures var t := Trim(old(currentTag));
        if t != "" && t !in old(tags) then tags == old(tags) + [t] && currentTag == ""
        else tags == old(tags) && currentTag == old(currentTag)
      ensures content == old(content)
    {
      var t := Trim(currentTag);
      if t != "" && t !in tags {
        TrimIdempotent(currentTag);
        assert IsTag(t);
        AppendTag(tags, t);
        tags := tags + [t];
        currentTag := "";
      }
    }

    /** `handleRemoveTag`: every occurrence of the tag goes, the rest keep
        their order. */
    method RemoveTag(tag: string)
      requires Valid()
      modifies this
      ensures Valid()
      ensures tags == Seqs.Filter(old(tags), (x: string) => x != tag)
      ensures tag !in tags && forall x | x in old(tags) && x != tag :: x in tags
      ensures content == old(content) && currentTag == old(currentTag)
    {
      Seqs.NoDupsFilter(tags, (x: string) => x != tag);
      tags := Seqs.Filter(tags, (x: string) => x != tag);
    }

    /** `formatText` with the textarea's current selection. */
    method ApplyFormat(f: Format, start: nat, end: nat)
      requires start <= end <= |content|
      modifies this
      ensures content == FormatText(old(content), start, end, f)
      ensures tags == old(tags) && currentTag == old(currentTag)
    {
      var selected := content[start..end];
      if selected != "" {
        content := content[..start] + Wrap(f, selected) + content[end..];
      }
    }
  }
}
