/**
 * The content library page (app/content-library/page.tsx): the four-way
 * filter over the library, the selection toggle and select-all, the text
 * export of the selection and the split of pasted import text.
 */
module ContentLibrary {
  import opened Text
  import Seqs

  /** One library entry. */
  datatype LibraryItem = LibraryItem(id: int, title: string, content: string, subject: string,
                                     reviewStage: string, difficulty: string)

  /** The value of a select control that disables its filter. */
  const All: string := "All"

  /** The search box and the three select controls. */
  datatype Filters = Filters(search: string, subject: string, stage: string, difficulty: string)

  /** Case-insensitive substring test on the title or the content. */
  predicate MatchesSearch(item: LibraryItem, search: string) {
    Contains(ToLower(item.title), ToLower(search)) || Contains(ToLower(item.content), ToLower(search))
  }

  /** The test of `filteredItems`: search, subject, stage and difficulty
      must all match, and "All" matches any value. */
  predicate Keeps(f: Filters, item: LibraryItem) {
    && MatchesSearch(item, f.search)
    && (f.subject == All || item.subject == f.subject)
    && (f.stage == All || item.reviewStage == f.stage)
    && (f.difficulty == All || item.difficulty == f.difficulty)
  }

  /** `filteredItems`: the kept items, an order-preserving sub-list of the
      library. */
  function Filtered(items: seq<LibraryItem>, f: Filters): (r: seq<LibraryItem>)
    ensures forall x :: x in r <==> x in items && Keeps(f, x)
    ensures Seqs.Subsequence(r, items)
  {
    Seqs.FilterSubsequence(items, x => Keeps(f, x));
    Seqs.Filter(items, x => Keeps(f, x))
  }

  /** An empty search box matches every item. */
  lemma EmptySearchMatchesAll(item: LibraryItem)
    ensures MatchesSearch(item, "")
  {
    ContainsEmpty(ToLower(item.title));
  }

  /** The initial filters keep the whole library, in order. */
  lemma {:induction false} InitialFiltersKeepAll(items: seq<LibraryItem>)
    ensures Filtered(items, Filters("", All, All, All)) == items
  {
    var f := Filters("", All, All, All);
    forall i | 0 <= i < |items|
      ensures Keeps(f, items[i])
    {
      EmptySearchMatchesAll(items[i]);
    }
    Seqs.FilterAll(items, x => Keeps(f, x));
  }

  /** The search ignores the case of what is typed. */
  lemma SearchIgnoresCase(item: LibraryItem, search: string)
    ensures MatchesSearch(item, search) <==> MatchesSearch(item, ToLower(search))
  {
    ToLowerIdempotent(search);
  }

  // ------------------------------------------------------------- selection

  /** `handleSelectItem`: remove the id if selected, otherwise append it. */
  function Toggle(sel: seq<int>, id: int): (r: seq<int>)
    ensures id in sel ==> id !in r
    ensures id !in sel ==> r == sel + [id]
    ensures forall x | x != id :: x in r <==> x in sel
  {
    if id in sel then Seqs.Filter(sel, x => x != id) else sel + [id]
  }

  /** Toggling twice restores every membership, and restores the selection
      itself when the id was not selected. */
  lemma {:induction false} ToggleTwice(sel: seq<int>, id: int)
    ensures forall x :: x in Toggle(Toggle(sel, id), id) <==> x in sel
    ensures id !in sel ==> Toggle(Toggle(sel, id), id) == sel
  {
    if id !in sel {
      Seqs.FilterAppend(sel, [id], x => x != id);
      Seqs.FilterAll(sel, x => x != id);
      assert Seqs.Filter([id], x => x != id) == [];
    }
  }

  /** The ids of a list of items, in order. */
  function Ids(items: seq<LibraryItem>): (r: seq<int>)
    ensures |r| == |items|
    ensures forall i | 0 <= i < |items| :: r[i] == items[i].id
  {
    seq(|items|, i requires 0 <= i < |items| => items[i].id)
  }

  /** `handleSelectAll`: a selection as long as the filtered list is cleared,
      any other is replaced by the filtered ids. */
  function SelectAll(sel: seq<int>, filtered: seq<LibraryItem>): (r: seq<int>)
    ensures |sel| == |filtered| ==> r == []
    ensures |sel| != |filtered| ==> r == Ids(filtered)
  {
    if |sel| == |filtered| then [] else Ids(filtered)
  }

  /** Pressing select-all twice on a non-empty filtered list ends with an
      empty selection, and with nothing filtered it always clears. */
  lemma SelectAllTwice(sel: seq<int>, filtered: seq<LibraryItem>)
    ensures |sel| != |filtered| ==> SelectAll(SelectAll(sel, filtered), filtered) == []
    ensures filtered == [] ==> SelectAll(sel, filtered) == []
  {
  }

  // ----------------------------------------------------- export and import

  /** One exported item: title, content and a `---` line. */
  function Block(item: LibraryItem): (b: string)
    ensures b == item.title + "\n" + item.content + "\n---"
  {
    item.title + "\n" + item.content + "\n---"
  }

  function Blocks(items: seq<LibraryItem>): (r: seq<string>)
    ensures |r| == |items|
    ensures forall i | 0 <= i < |items| :: r[i] == Block(items[i])
  {
    seq(|items|, i requires 0 <= i < |items| => Block(items[i]))
  }

  /** The library items whose id is selected, in library order. */
  function SelectedItems(items: seq<LibraryItem>, sel: seq<int>): (r: seq<LibraryItem>)
    ensures forall x :: x in r <==> x in items && x.id in sel
    ensures Seqs.Subsequence(r, items)
  {
    Seqs.FilterSubsequence(items, (x: LibraryItem) => x.id in sel);
    Seqs.Filter(items, (x: LibraryItem) => x.id in sel)
  }

  /** `handleBulkExport`'s text: the selected items' blocks joined by a
      blank line. */
  function Export(items: seq<LibraryItem>, sel: seq<int>): string {
    Join(Blocks(SelectedItems(items, sel)), "\n\n")
  }

  /** The export follows library order, so it depends only on which ids are
      selected, not on the order they were clicked in. */
  lemma ExportIgnoresSelectionOrder(items: seq<LibraryItem>, s1: seq<int>, s2: seq<int>)
    requires forall x :: x in s1 <==> x in s2
    ensures Export(items, s1) == Export(items, s2)
  {
    Seqs.FilterCongruent(items, (x: LibraryItem) => x.id in s1, (x: LibraryItem) => x.id in s2);
  }

  /** The export is empty exactly when no library item is selected: every
      block is non-empty. */
  lemma ExportEmpty(items: seq<LibraryItem>, sel: seq<int>)
    ensures Export(items, sel) == "" <==> forall i | 0 <= i < |items| :: items[i].id !in sel
  {
    var r := SelectedItems(items, sel);
    var bs := Blocks(r);
    JoinEmpty(bs, "\n\n");
    if r != [] {
      assert r[0] in r;
      var i :| 0 <= i < |items| && items[i] == r[0];
    } else {
      forall i | 0 <= i < |items| ensures items[i].id !in sel {
        assert items[i] in items;
      }
    }
  }

  /** Exporting a selection that matches one library item yields exactly its block. */
  lemma ExportOne(items: seq<LibraryItem>, sel: seq<int>, k: nat)
    requires k < |items|
    requires forall i | 0 <= i < |items| :: items[i].id in sel <==> i == k
    ensures Export(items, sel) == Block(items[k])
  {
    var r := SelectedItems(items, sel);
    assert r == [items[k]] by {
      SelectedOne(items, (x: LibraryItem) => x.id in sel, k);
    }
  }

  /** Filtering with a predicate that holds at exactly one position keeps
      exactly that element. */
  lemma {:induction false} SelectedOne(xs: seq<LibraryItem>, p: LibraryItem -> bool, k: nat)
    requires k < |xs|
    requires forall i | 0 <= i < |xs| :: p(xs[i]) <==> i == k
    ensures Seqs.Filter(xs, p) == [xs[k]]
  {
    var tail := xs[1..];
    if k == 0 {
      assert forall i | 0 <= i < |tail| :: !p(tail[i]) by {
        forall i | 0 <= i < |tail| ensures !p(tail[i]) { assert tail[i] == xs[i + 1]; }
      }
      NoneSelected(tail, p);
    } else {
      assert forall i | 0 <= i < |tail| :: p(tail[i]) <==> i == k - 1 by {
        forall i | 0 <= i < |tail| ensures p(tail[i]) <==> i == k - 1 { assert tail[i] == xs[i + 1]; }
      }
      SelectedOne(tail, p, k - 1);
    }
  }

  lemma {:induction false} NoneSelected(xs: seq<LibraryItem>, p: LibraryItem -> bool)
    requires forall i | 0 <= i < |xs| :: !p(xs[i])
    ensures Seqs.Filter(xs, p) == []
  {
    if xs != [] {
      NoneSelected(xs[1..], p);
    }
  }

  /** The separator of the import text. */
  const Separator: string := "---"

  /** `handleImport`: the pieces between separators that are not blank. */
  function Import(text: string): (r: seq<string>)
    ensures forall p | p in r :: p in Split(text, Separator) && !AllSpace(p)
    ensures forall p | p in Split(text, Separator) && !AllSpace(p) :: p in r
  {
    Seqs.Filter(Split(text, Separator), p => Trim(p) != "")
  }

  /** Joining the split pieces again gives the pasted text, so the only
      thing the import discards is the separators and the blank pieces. */
  lemma ImportDropsOnlyBlankPieces(text: string)
    ensures Join(Split(text, Separator), Separator) == text
    ensures forall p | p in Split(text, Separator) && p !in Import(text) :: AllSpace(p)
  {
    JoinSplit(text, Separator);
  }

  /** Text without a separator imports as one piece, or none when blank. */
  lemma ImportWithoutSeparator(text: string)
    requires !Contains(text, Separator)
    ensures !AllSpace(text) ==> Import(text) == [text]
    ensures AllSpace(text) ==> Import(text) == []
  {
    SplitWithout(text, Separator);
    assert Split(text, Separator) == [text];
    assert Split(text, Separator)[1..] == [];
  }

  /** The paste is cut at its first separator: a piece before it that holds
      no separator (and does not end in '-', which would move the first
      "---" left) is imported on its own, unless blank, ahead of the import
      of the text after it. */
  lemma ImportCutsAtSeparator(a: string, rest: string)
    requires !Contains(a, Separator) && (a == [] || a[|a| - 1] != '-')
    ensures Import(a + Separator + rest) == (if AllSpace(a) then [] else [a]) + Import(rest)
  {
    var s := a + Separator + rest;
    assert SepAt(s, Separator, |a|) by {
      assert s[|a|..|a| + 3] == Separator;
    }
    forall i | 0 <= i < |a|
      ensures !SepAt(s, Separator, i)
    {
      if i + 3 <= |a| {
        assert s[i..i + 3] == a[i..][..3];
        assert !(Separator <= a[i..]);
      } else {
        assert s[|a| - 1] == a[|a| - 1];
        assert s[i..i + 3][|a| - 1 - i] == s[|a| - 1];
      }
    }
    SplitAt(s, Separator, |a|);
    assert s[..|a|] == a;
    assert s[|a| + 3..] == rest;
    var ps := Split(s, Separator);
    assert ps == [a] + Split(rest, Separator);
    assert ps[1..] == Split(rest, Separator);
  }

  // -------------------------------------------------------------- the page

  class LibraryPage {
    const items: seq<LibraryItem>
    var searchTerm: string
    var selectedSubject: string
    var selectedStage: string
    var selectedDifficulty: string
    var selectedItems: seq<int>
    var showBulkActions: bool
    var showImportDialog: bool
    var importText: string

    constructor (library: seq<LibraryItem>)
      ensures items == library && searchTerm == ""
      ensures selectedSubject == All && selectedStage == All && selectedDifficulty == All
      ensures selectedItems == [] && !showBulkActions && !showImportDialog && importText == ""
    {
      items := library;
      searchTerm := "";
      selectedSubject := All;
      selectedStage := All;
      selectedDifficulty := All;
      selectedItems := [];
      showBulkActions := false;
      showImportDialog := false;
      importText := "";
    }

    function CurrentFilters(): Filters
      reads this
    {
      Filters(searchTerm, selectedSubject, selectedStage, selectedDifficulty)
    }

    /** `handleSelectItem`. */
    method SelectItem(id: int)
      modifies this
      ensures selectedItems == Toggle(old(selectedItems), id)
      ensures CurrentFilters() == old(CurrentFilters())
      ensures showBulkActions == old(showBulkActions) && showImportDialog == old(showImportDialog)
      ensures importText == old(importText)
    {
      selectedItems := Toggle(selectedItems, id);
    }

    /** `handleSelectAll` against the list the current filters show. */
    method SelectAllItems()
      modifies this
      ensures selectedItems == SelectAll(old(selectedItems), Filtered(items, CurrentFilters()))
      ensures CurrentFilters() == old(CurrentFilters())
      ensures showBulkActions == old(showBulkActions) && showImportDialog == old(showImportDialog)
      ensures importText == old(importText)
    {
      var filtered := Filtered(items, CurrentFilters());
      if |selectedItems| == |filtered| {
        selectedItems := [];
      } else {
        selectedItems := Ids(filtered);
      }
    }

    /** `handleBulkDelete`: the selection is cleared and the bulk bar closed;
        the library itself is not changed. */
    method BulkDelete()
      modifies this
      ensures selectedItems == [] && !showBulkActions
      ensures CurrentFilters() == old(CurrentFilters())
      ensures showImportDialog == old(showImportDialog) && importText == old(importText)
    {
      selectedItems := [];
      showBulkActions := false;
    }

    /** `handleBulkExport`: the text of the download; nothing changes. */
    method BulkExport() returns (text: string)
      ensures text == Export(items, selectedItems)
      ensures text == "" <==> forall i | 0 <= i < |items| :: items[i].id !in selectedItems
      ensures forall k | 0 <= k < |items| && (forall i | 0 <= i < |items| :: items[i].id in selectedItems <==> i == k) ::
        text == Block(items[k])
    {
      text := Join(Blocks(SelectedItems(items, selectedItems)), "\n\n");
      ExportEmpty(items, selectedItems);
      forall k | 0 <= k < |items| && (forall i | 0 <= i < |items| :: items[i].id in selectedItems <==> i == k)
        ensures text == Block(items[k])
      {
        ExportOne(items, selectedItems, k);
      }
    }

    /** `handleImport`: the pieces taken from the dialog's text, which is then
        cleared and closed. */
    method ImportPasted() returns (pieces: seq<string>)
      modifies this
      ensures pieces == Import(old(importText))
      ensures importText == "" && !showImportDialog
      ensures selectedItems == old(selectedItems) && CurrentFilters() == old(CurrentFilters())
      ensures showBulkActions == old(showBulkActions)
    {
      pieces := Import(importText);
      showImportDialog := false;
      importText := "";
    }
  }
}
