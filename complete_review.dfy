/**
 * The complete-review page (app/complete-review/page.tsx): today's items as
 * fetched, the ids archived or deleted during the visit, the pending delete
 * confirmation, and the values derived from them.
 */
module CompleteReview {
  import opened Wrappers
  import opened Text
  import Seqs

  datatype Stage = Daily | Weekly | Monthly | Yearly

  /** `determineReviewStage`: fewer than 2 reviews is daily, fewer than 5
      weekly, fewer than 8 monthly, and the rest yearly. */
  function DetermineReviewStage(reviewCount: int): (s: Stage)
    ensures s == Daily <==> reviewCount < 2
    ensures s == Weekly <==> 2 <= reviewCount < 5
    ensures s == Monthly <==> 5 <= reviewCount < 8
    ensures s == Yearly <==> reviewCount >= 8
  {
    if reviewCount < 2 then Daily
    else if reviewCount < 5 then Weekly
    else if reviewCount < 8 then Monthly
    else Yearly
  }

  /** The position of a stage in the order daily, weekly, monthly, yearly. */
  function Rank(s: Stage): nat {
    match s
    case Daily => 0
    case Weekly => 1
    case Monthly => 2
    case Yearly => 3
  }

  /** More reviews never give an earlier stage. */
  lemma StageMonotone(a: int, b: int)
    requires a <= b
    ensures Rank(DetermineReviewStage(a)) <= Rank(DetermineReviewStage(b))
  {
  }

  /** An item as the today route returns it (fields the page reads). */
  datatype FetchedItem = FetchedItem(id: string, title: Option<string>, content: string,
                                     estimatedTime: Option<string>, reviewCount: Option<int>)

  /** An item as the page keeps it after normalisation. */
  datatype ReviewItem = ReviewItem(id: string, title: Option<string>, content: string,
                                   estimatedTime: string, reviewStage: Stage)

  /** `reviewCount || 0`: an absent count and a zero count both read as 0. */
  function CountOrZero(c: Option<int>): int {
    if c.Some? then c.value else 0
  }

  /** The default time of an item that has none. */
  const DefaultTime: string := "3 min"

  /** The mapping of lines 73-79: a missing or empty estimated time becomes
      "3 min", and the stage comes from the review count, 0 when absent. */
  function Normalize(item: FetchedItem): (r: ReviewItem)
    ensures r.id == item.id && r.title == item.title && r.content == item.content
    ensures r.estimatedTime == if Truthy(item.estimatedTime) then item.estimatedTime.value else DefaultTime
    ensures item.reviewCount.None? ==> r.reviewStage == Daily
    ensures r.reviewStage == DetermineReviewStage(CountOrZero(item.reviewCount))
  {
    ReviewItem(item.id, item.title, item.content, OrElse(item.estimatedTime, DefaultTime),
               DetermineReviewStage(CountOrZero(item.reviewCount)))
  }

  function NormalizeAll(items: seq<FetchedItem>): (r: seq<ReviewItem>)
    ensures |r| == |items|
    ensures forall i | 0 <= i < |items| :: r[i] == Normalize(items[i])
  {
    seq(|items|, i requires 0 <= i < |items| => Normalize(items[i]))
  }

  /** An item is still shown when it was neither archived nor deleted. */
  predicate Shown(item: ReviewItem, archived: seq<string>, deleted: seq<string>) {
    item.id !in archived && item.id !in deleted
  }

  /** `activeItems`: today's items without the archived and deleted ones, in
      their original order. */
  function Active(items: seq<ReviewItem>, archived: seq<string>, deleted: seq<string>): (r: seq<ReviewItem>)
    ensures |r| <= |items|
    ensures forall x | x in r :: x in items && Shown(x, archived, deleted)
    ensures forall x | x in items && Shown(x, archived, deleted) :: x in r
  {
    if items == [] then []
    else (if Shown(items[0], archived, deleted) then [items[0]] else []) + Active(items[1..], archived, deleted)
  }

  /** `items` without the items carrying `id`, in order. */
  function WithoutId(items: seq<ReviewItem>, id: string): (r: seq<ReviewItem>)
    ensures forall x | x in r :: x in items && x.id != id
  {
    if items == [] then []
    else (if items[0].id == id then [] else [items[0]]) + WithoutId(items[1..], id)
  }

  /** Archiving (or deleting) one more id removes exactly the items with that
      id from the active list and keeps the rest in order. */
  lemma {:induction false} ArchiveRemovesOnly(items: seq<ReviewItem>, archived: seq<string>, deleted: seq<string>, id: string)
    ensures Active(items, archived + [id], deleted) == WithoutId(Active(items, archived, deleted), id)
    ensures Active(items, archived, deleted + [id]) == WithoutId(Active(items, archived, deleted), id)
  {
    if items != [] {
      ArchiveRemovesOnly(items[1..], archived, deleted, id);
      var x := items[0];
      var rest := Active(items[1..], archived, deleted);
      if Shown(x, archived, deleted) {
        assert Active(items, archived, deleted) == [x] + rest;
        assert ([x] + rest)[1..] == rest;
      } else {
        assert Active(items, archived, deleted) == rest;
      }
    }
  }

  /** Nothing archived or deleted: every item is active. */
  lemma {:induction false} NothingRemoved(items: seq<ReviewItem>)
    ensures Active(items, [], []) == items
  {
    if items != [] {
      NothingRemoved(items[1..]);
    }
  }

  /** `parseInt(timeStr.split(" ")[0])` for the item's time; `None` is NaN. */
  function Minutes(item: ReviewItem): (m: Option<int>) {
    var timeStr := if item.estimatedTime != "" then item.estimatedTime else DefaultTime;
    ParseInt(Split(timeStr, " ")[0])
  }

  /** `reduce((total, m) => total + m, 0)` over parsed minutes; one NaN
      (`None`) makes the sum NaN. */
  function SumMinutes(ms: seq<Option<int>>): (t: Option<int>)
    ensures t.None? <==> exists i | 0 <= i < |ms| :: ms[i].None?
  {
    if ms == [] then Some(0)
    else
      var rest := SumMinutes(ms[1..]);
      assert forall i | 1 <= i < |ms| :: ms[1..][i - 1] == ms[i];
      if ms[0].None? || rest.None? then None else Some(ms[0].value + rest.value)
  }

  /** `totalEstimatedTime` over the active items. */
  function TotalEstimatedTime(items: seq<ReviewItem>): (t: Option<int>)
    ensures t.None? <==> exists i | 0 <= i < |items| :: Minutes(items[i]).None?
  {
    var ms := seq(|items|, i requires 0 <= i < |items| => Minutes(items[i]));
    assert forall i | 0 <= i < |items| :: ms[i] == Minutes(items[i]);
    SumMinutes(ms)
  }

  /** When every time parses, the total is the plain sum. */
  lemma {:induction false} SumMinutesIsSum(ms: seq<Option<int>>)
    requires forall i | 0 <= i < |ms| :: ms[i].Some?
    ensures SumMinutes(ms) == Some(Seqs.Sum(ms, (m: Option<int>) => m.GetOr(0)))
  {
    if ms != [] {
      SumMinutesIsSum(ms[1..]);
    }
  }

  /** The sum over a concatenation adds up. */
  lemma {:induction false} SumMinutesAppend(a: seq<Option<int>>, b: seq<Option<int>>)
    requires SumMinutes(a).Some? && SumMinutes(b).Some?
    ensures SumMinutes(a + b) == Some(SumMinutes(a).value + SumMinutes(b).value)
  {
    if a == [] {
      assert a + b == b;
    } else {
      assert (a + b)[1..] == a[1..] + b;
      SumMinutesAppend(a[1..], b);
    }
  }

  lemma SplitDefaultTime()
    ensures Split(DefaultTime, " ") == ["3", "min"]
  {
    assert !Contains("min", " ") by {
      forall i | 0 <= i <= |"min"|
        ensures !(" " <= "min"[i..])
      {
        if i < 3 { assert "min"[i..][0] == "min"[i]; }
      }
    }
    SplitWithout("min", " ");
    assert " min"[1..] == "min";
    assert Split(" min", " ") == ["", "min"];
    assert "3 min"[1..] == " min";
    assert !(" " <= "3 min");
    assert ['3'] + "" == "3";
  }

  /** The default "3 min" counts three minutes. */
  lemma DefaultTimeIsThree(item: ReviewItem)
    requires item.estimatedTime == DefaultTime
    ensures Minutes(item) == Some(3)
  {
    SplitDefaultTime();
    assert NatToString(3) == "3";
    ParseIntNatToString(3);
  }

  /** A time written "<n> min" counts n minutes. */
  lemma MinutesOfLabel(item: ReviewItem, n: nat)
    requires item.estimatedTime == NatToString(n) + " min"
    ensures Minutes(item) == Some(n)
  {
    var d := NatToString(n);
    var s := d + " min";
    assert s[..|d|] == d;
    assert ' ' !in d by {
      forall i | 0 <= i < |d| ensures d[i] != ' ' { assert IsDigit(d[i]); }
    }
    SplitFirst(s, ' ', |d|);
    ParseIntNatToString(n);
  }

  /** `${item.title}`. A title left blank on the add-content page is sent as
      `undefined`, stored by the driver as BSON null and served back as
      `null`, so an absent title prints as "null". */
  function TitleText(title: Option<string>): string {
    if title.Some? then title.value else "null"
  }

  /** `handleCopyItem`'s text. */
  function CopyItemText(item: ReviewItem): string {
    TitleText(item.title) + "\n\n" + item.content
  }

  /** Copying an item without a title starts with "null" and a blank line. */
  lemma CopyUntitled(item: ReviewItem)
    requires item.title.None?
    ensures CopyItemText(item) == "null\n\n" + item.content
  {
  }

  /** One block of the copy-all text. */
  function CopyBlock(item: ReviewItem): string {
    CopyItemText(item) + "\n\n---\n\n"
  }

  /** `activeItems.map(block).join("")`: the blocks in order, back to back. */
  function CopyAllText(items: seq<ReviewItem>): string {
    if items == [] then "" else CopyBlock(items[0]) + CopyAllText(items[1..])
  }

  /** Copying all of a one-item list gives that item's own copy text
      followed by the block separator. */
  lemma CopyAllSingle(item: ReviewItem)
    ensures CopyAllText([item]) == CopyItemText(item) + "\n\n---\n\n"
  {
    assert [item][1..] == [];
  }

  /** Copying two lists is copying each in turn. */
  lemma {:induction false} CopyAllAppend(a: seq<ReviewItem>, b: seq<ReviewItem>)
    ensures CopyAllText(a + b) == CopyAllText(a) + CopyAllText(b)
  {
    if a == [] {
      assert a + b == b;
    } else {
      assert (a + b)[1..] == a[1..] + b;
      CopyAllAppend(a[1..], b);
    }
  }

  lemma {:induction false} CopyAllLength(items: seq<ReviewItem>)
    ensures |CopyAllText(items)| == Seqs.Sum(items, (x: ReviewItem) => |CopyBlock(x)|)
  {
    if items != [] {
      CopyAllLength(items[1..]);
    }
  }

  /** The page's state. `loading` is true until the fetch settles. */
  class CompleteReviewPage {
    var todaysContent: seq<ReviewItem>
    var archivedItems: seq<string>
    var deletedItems: seq<string>
    var itemToDelete: Option<string>
    var showDeleteDialog: bool
    var loading: bool

    constructor ()
      ensures todaysContent == [] && archivedItems == [] && deletedItems == []
      ensures itemToDelete.None? && !showDeleteDialog && loading
    {
      todaysContent := [];
      archivedItems := [];
      deletedItems := [];
      itemToDelete := None;
      showDeleteDialog := false;
      loading := true;
    }

    function ActiveItems(): seq<ReviewItem>
      reads this
    {
      Active(todaysContent, archivedItems, deletedItems)
    }

    /** `fetchTodaysContent`: on an ok answer the items are normalised and
        kept; in every case loading ends. */
    method FetchTodaysContent(ok: bool, items: seq<FetchedItem>)
      modifies this
      ensures todaysContent == if ok then NormalizeAll(items) else old(todaysContent)
      ensures !loading
      ensures archivedItems == old(archivedItems) && deletedItems == old(deletedItems)
      ensures itemToDelete == old(itemToDelete) && showDeleteDialog == old(showDeleteDialog)
    {
      if ok {
        todaysContent := NormalizeAll(items);
      }
      loading := false;
    }

    /** `handleDeleteItem`: remember the item and open the dialog. */
    method DeleteItem(itemId: string)
      modifies this
      ensures itemToDelete == Some(itemId) && showDeleteDialog
      ensures todaysContent == old(todaysContent) && archivedItems == old(archivedItems)
      ensures deletedItems == old(deletedItems) && loading == old(loading)
    {
      itemToDelete := Some(itemId);
      showDeleteDialog := true;
    }

    /** The dialog's cancel button only closes it. */
    method CancelDelete()
      modifies this
      ensures !showDeleteDialog
      ensures itemToDelete == old(itemToDelete)
      ensures todaysContent == old(todaysContent) && archivedItems == old(archivedItems)
      ensures deletedItems == old(deletedItems) && loading == old(loading)
    {
      showDeleteDialog := false;
    }

    /** `handleMarkAsComplete` and `handleArchiveItem` after the request:
        `ok` is `response.ok` (false also for a thrown error), and `clicked`
        is the archived list the handler captured when its button was
        clicked. Success stores that list with the id appended; failure
        changes nothing. When another archive finished in between, its id
        is lost again, as `setArchivedItems([...archivedItems, itemId])`
        writes the captured list back. */
    method RecordArchived(itemId: string, ok: bool, clicked: seq<string>)
      modifies this
      ensures archivedItems == if ok then clicked + [itemId] else old(archivedItems)
      ensures ok ==> ActiveItems() == WithoutId(Active(todaysContent, clicked, deletedItems), itemId)
      ensures ok && clicked == old(archivedItems) ==> ActiveItems() == WithoutId(old(ActiveItems()), itemId)
      ensures !ok ==> ActiveItems() == old(ActiveItems())
      ensures todaysContent == old(todaysContent) && deletedItems == old(deletedItems)
      ensures itemToDelete == old(itemToDelete) && showDeleteDialog == old(showDeleteDialog) && loading == old(loading)
    {
      if ok {
        ArchiveRemovesOnly(todaysContent, clicked, deletedItems, itemId);
        archivedItems := clicked + [itemId];
      }
    }

    /** `confirmDelete` after the request: `pending` and `clicked` are the
        pending id and the deleted list the handler captured when the
        confirm button was clicked. With a pending id, success stores the
        captured list with the id appended; success or not, the pending id is
        cleared and the dialog closed. Without a pending id (absent or empty)
        nothing happens. */
    method ConfirmDelete(ok: bool, pending: Option<string>, clicked: seq<string>)
      modifies this
      ensures Truthy(pending) ==>
        && deletedItems == (if ok then clicked + [pending.value] else old(deletedItems))
        && itemToDelete.None? && !showDeleteDialog
      ensures Truthy(pending) && ok ==>
        ActiveItems() == WithoutId(Active(todaysContent, archivedItems, clicked), pending.value)
      ensures Truthy(pending) && ok && clicked == old(deletedItems) ==>
        ActiveItems() == WithoutId(old(ActiveItems()), pending.value)
      ensures !Truthy(pending) ==>
        deletedItems == old(deletedItems) && itemToDelete == old(itemToDelete) && showDeleteDialog == old(showDeleteDialog)
      ensures todaysContent == old(todaysContent) && archivedItems == old(archivedItems) && loading == old(loading)
    {
      if Truthy(pending) {
        var id := pending.value;
        if ok {
          ArchiveRemovesOnly(todaysContent, archivedItems, clicked, id);
          deletedItems := clicked + [id];
        }
        itemToDelete := None;
        showDeleteDialog := false;
      }
    }
  }
}
