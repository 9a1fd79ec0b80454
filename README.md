# study-flow: a verified model of the scheduler, the API routes and the page state

study-flow is a spaced-repetition study application. A user stores study items
(content documents), each with a subject and tags. A review of an item schedules
its next review some days later, read from the user's repetition flow. Pages
list today's items, run a review session, edit and import content, and show
statistics.

This project models in Dafny the logic of these parts:

- the server routes `/api/content`, `/api/content/actions`, `/api/content/today`,
  `/api/content/duplicate-check` and `/api/subjects`;
- the scheduler inside the actions route;
- the client state of the review, complete-review, add-content and
  content-library pages;
- the classifiers and generators of the dashboard, header, analytics page and
  the statistics, calendar, heatmap, timeline and performance-table components.

The model is built as follows:

- Each route's logic is a function from the collection contents (maps keyed by
  document id) and the request to the reply and the new contents. The class
  `Store.Database` holds the collections. Its methods update them in place and
  are proved to agree with those functions.
- The pages that keep React state become classes whose methods are the
  handlers:
  - `ReviewSession.Session`;
  - `CompleteReview.CompleteReviewPage`;
  - `AddContent.Editor`;
  - `ContentLibrary.LibraryPage`;
  - `CalendarView.CalendarPage`;
  - `Header.HeaderState`.
- Everything the source computes as an expression is a function with lemmas.

Common conventions:

- Times are integer milliseconds. A day is exactly 86 400 000 ms.
- The start of a day is `t - t % DayMs`.
- The session is an optional user id.
- A JavaScript value that may be `undefined` or `null` is an `Option`; truthiness
  of a string is `Text.Truthy`.

## Model

| member | source | states |
|---|---|---|
| Models.StartOfDay | app/api/content/today/route.ts:18-21 | the start of the day is a multiple of a day, at most `t`, and less than a day before it |
| Scheduler.DefaultFlowShape | app/api/content/actions/route.ts:51 | a user without a repetition flow gets the 14 offsets 2,4,7,7,7,30,30,30,130,130,130,365,365,365, all positive and non-decreasing |
| Scheduler.AdjustedIndex | app/api/content/actions/route.ts:59-66 | the index starts at the review count; it rises by one exactly when the answer is `easy` and the count is below the last offset; it falls by one exactly when the answer is `hard` and the count is above 0; otherwise it stays |
| Scheduler.LookupIndex | app/api/content/actions/route.ts:68 | the index read from the flow always lies inside the flow; it is the adjusted index or the last position, never more than the adjusted index |
| Scheduler.DaysToAdd | app/api/content/actions/route.ts:68-69 | the day count is one of the flow's offsets, and at least 1 when every offset is positive |
| Scheduler.NextReviewDate | app/api/content/actions/route.ts:68-70 | the next review is a whole number of days after now, and strictly later when every offset is positive |
| Scheduler.NextReviewAtLeastSmallestOffset | app/api/content/actions/route.ts:59-70 | the next review is never sooner than the flow's smallest offset |
| Scheduler.ClampedAtLastOffset | app/api/content/actions/route.ts:59-68 | once the review count reaches the flow length, every answer gets the last offset |
| Scheduler.SingleOffsetFlow | app/api/content/actions/route.ts:59-68 | a one-entry flow always gives its only offset |
| Scheduler.AnswerOrder | app/api/content/actions/route.ts:59-68 | on a non-decreasing flow, `hard` never schedules later than any answer and `easy` never sooner |
| Scheduler.MoreReviewsNeverShorter | app/api/content/actions/route.ts:59-68 | on a non-decreasing flow, a larger review count never gives a shorter interval |
| Scheduler.DefaultFlowExamples | app/api/content/actions/route.ts:51-68 | with the fallback flow: count 3 answered `easy` reads offset 4 (7 days); count 0 answered `hard` stays at offset 0 (2 days); count 20 gets 365 days |
| ContentActions.RouteOf | app/api/content/actions/route.ts:18-20 | a missing action or contentId is refused first; after that, `archive`, `delete` and `review` are selected exactly by their names and anything else is an unknown action |
| ContentActions.Archived | app/api/content/actions/route.ts:29-39 | only the document matching both id and caller gets `isActive := false` and the new `updatedAt`; all other documents are unchanged, and nothing changes when none matches |
| ContentActions.Deleted | app/api/content/actions/route.ts:41-43 | exactly the document matching both id and caller is removed; every remaining document keeps its value |
| ContentActions.Reviewed | app/api/content/actions/route.ts:72-82 | the review count goes up by exactly one; the difficulty is stored as sent; the due date is the scheduler's date for the old count, the answer and the flow, later than now for positive flows; no other field changes |
| ContentActions.FlowOf | app/api/content/actions/route.ts:50-51 | the flow used (the configured one or the fallback) is non-empty |
| ContentActions.Dispatch | app/api/content/actions/route.ts:8-97 | no session gives 401 and every failure leaves the collection unchanged; a missing action or id gives 400 "Action and contentId are required", an unknown action 400 "Invalid action"; archive and delete reply with their message and apply the archive or delete update; a review of a missing or foreign item gives 404, otherwise it stores the reviewed document and replies with its new due date |
| ContentActions.ArchiveDeleteAlwaysSucceed | app/api/content/actions/route.ts:29-43 | archive and delete report success even when no document matched, and then nothing changes |
| ContentActions.ReviewForeignIsNotFound | app/api/content/actions/route.ts:54-57 | reviewing a missing item, or one owned by another user, gives 404 and changes nothing |
| ContentActions.ReviewUpdatesOnlyTarget | app/api/content/actions/route.ts:45-88 | a successful review changes only the reviewed document, adds one to its count, stores the difficulty as sent and replies with a due date strictly after now |
| ContentActions.TwoReviewsCountTwice | app/api/content/actions/route.ts:72-82 | two reviews of the same item add two to its count |
| ContentActions.MarkCompleteAsWrittenIsRejected | app/complete-review/page.tsx:162-171 | the request the page sends for "mark as complete" is refused with 400 "Invalid action" for every item and store, and changes nothing |
| ContentActions.MarkCompleteRecordsReview | app/api/content/actions/route.ts:28-91 | the request with the intended action `review` succeeds on an owned item and records exactly one review |
| ContentRoute.NewDocument | app/api/content/route.ts:26-41 | a created item has review count 0; it is active; `updatedAt == createdAt == now`; its next review is exactly 24 hours later; tags and images default to []; difficulty and time are unset |
| ContentRoute.Create | app/api/content/route.ts:8-54 | no session gives 401 and missing content or subject gives 400, in both cases with nothing inserted; success happens exactly when neither applies and the id is fresh, and inserts that one new document |
| ContentRoute.RequestedTags | app/api/content/route.ts:67 | the requested tags are the comma-separated pieces with the empty ones dropped |
| ContentRoute.RequestedTagsCutAtComma | app/api/content/route.ts:67 | the text before the first comma is a tag unless empty, followed by the tags of the text after it |
| ContentRoute.BuildFilter | app/api/content/route.ts:74-90 | the filter is scoped to the caller; it carries the subject and the search exactly when they are given, and the requested tags |
| ContentRoute.MatchesQuery | app/api/content/route.ts:74-90 | a document matches exactly when it is the caller's and active, has the subject's id when one is asked for, shares a tag when tags are asked for, and contains the search text in title, content or a tag |
| ContentRoute.CeilDivBounds | app/api/content/route.ts:108 | `pages` is the ceiling of total/limit |
| ContentRoute.Window | app/api/content/route.ts:92-98 | skip then limit: the window is a prefix of the rest after skipping, holding as many items as the limit allows (its absolute value when negative); limit 0 means no limit |
| ContentRoute.Found | app/api/content/route.ts:93 | the found entries are exactly the entries matching the filter |
| ContentRoute.SortedMatchesSpec | app/api/content/route.ts:93-94 | the sorted matches are a permutation of the matches, ordered by `createdAt` descending |
| ContentRoute.Paginate | app/api/content/route.ts:92-110 | for a non-negative skip, the page is the window at `(page-1)*limit`; total counts all matches and pages is their ceiling over the limit |
| ContentRoute.List | app/api/content/route.ts:56-115 | no session gives 401; a reply is the requested page of the sorted matches, with page and limit defaulting to "1" and "10" and read like `parseInt`, decimal or with a 0x prefix hexadecimal |
| ContentRoute.WindowOfSorted | app/api/content/route.ts:93-98 | a window of a sorted sequence is sorted and taken from it |
| ContentRoute.PageOfIndex | app/api/content/route.ts:92-98 | every position i lies at offset `i % limit` of the window that skips `i / limit` whole pages, and fewer pages than the page count are skipped |
| ContentRoute.PaginateSpec | app/api/content/route.ts:92-110 | a page reports the full total, holds at most `limit` items, stays sorted and contains only matches |
| ContentRoute.ListingIsScoped | app/api/content/route.ts:74-110 | every listed item is the caller's active, matching item; total counts all matches, not just the page |
| ContentRoute.PaginateCovers | app/api/content/route.ts:92-108 | every match appears on some page between 1 and `pages` |
| ContentRoute.ListIsPage | app/api/content/route.ts:64-65 | with parsable page and limit, the listing is that page |
| ContentRoute.DefaultsAreFirstTen | app/api/content/route.ts:64-65 | without parameters the listing is the first ten of the caller's active items, newest first |
| TodayRoute.Today | app/api/content/today/route.ts:8-44 | no session gives 401; otherwise the reply holds exactly the caller's active items due in `[start of today, start of today + 1 day)`, as a permutation sorted newest first, with total equal to their number |
| TodayRoute.MissedReviewsNotListed | app/api/content/today/route.ts:29 | an item due before today is never listed |
| TodayRoute.FutureReviewsNotListed | app/api/content/today/route.ts:29 | an item due tomorrow or later is not listed |
| TodayRoute.NewItemDueNextDay | app/api/content/route.ts:27 | a just-created item is not due today but is due on the next day |
| DuplicateCheck.Probe | app/api/content/duplicate-check/route.ts:31 | the probe is the first 100 characters of the content (or all of it when shorter) |
| DuplicateCheck.Check | app/api/content/duplicate-check/route.ts:8-39 | no session gives 401; missing content, content under 50 characters, or a failed lookup answer false; otherwise the answer is true exactly when one of the caller's active items contains the probe |
| DuplicateCheck.OnlyProbeMatters | app/api/content/duplicate-check/route.ts:31 | two contents with the same first 100 characters get the same answer |
| DuplicateCheck.StoredCopyIsFound | app/api/content/duplicate-check/route.ts:28-34 | re-submitting the text of one of the caller's active items (up to case) answers true |
| DuplicateCheck.OthersIgnored | app/api/content/duplicate-check/route.ts:29-30 | another user's document, or an archived one, has no effect on the answer |
| Text.SpaceRun | app/api/subjects/route.ts:49 | the leading whitespace run has the maximal length |
| Text.ToLower | app/api/subjects/route.ts:49 | lower-casing keeps the length |
| Text.ToLowerAppend | app/api/subjects/route.ts:49 | lower-casing works character by character, so it distributes over concatenation |
| Text.ToLowerKeepsSpaces | app/api/subjects/route.ts:49 | lower-casing neither creates nor removes whitespace |
| Text.ToLowerIdempotent | app/api/subjects/route.ts:49 | lower-casing twice is lower-casing once |
| Text.Trim | app/add-content/page.tsx:190-191 | the trimmed text neither starts nor ends with whitespace, and is empty exactly when the text is all whitespace |
| Text.TrimUnchanged | app/add-content/page.tsx:190-191 | a text without whitespace at either end is its own trim |
| Text.TrimIdempotent | app/add-content/page.tsx:190-191 | trimming twice is trimming once |
| Text.Split | app/content-library/page.tsx:147 | a split always yields at least one piece |
| Text.SplitWithout | app/content-library/page.tsx:147 | a text without the separator splits into itself alone |
| Text.SplitAt | app/content-library/page.tsx:147 | a split cuts at the first occurrence of the separator: the text before it is the first piece, and the rest is the split of the text after it |
| Text.SplitFirst | components/review-schedule-timeline.tsx:120 | the first piece of a split on one character is the text before that character's first occurrence |
| Text.JoinSplit | app/content-library/page.tsx:147 | joining the pieces of a split with the same separator gives back the text |
| Text.JoinEmpty | app/content-library/page.tsx:131-135 | a join of non-empty pieces is empty exactly when there are no pieces |
| Text.ParseInt | app/api/content/route.ts:64-65 | `parseInt` fails (NaN) exactly when, after leading whitespace and a sign, there is no digit, where a 0x or 0X prefix selects hexadecimal digits |
| Text.ParseIntDecimal | app/api/content/route.ts:64-65 | decimal digits followed by a non-digit parse to their value, the rest being ignored |
| Text.ParseIntHexPrefix | app/api/content/route.ts:64-65 | after a 0x or 0X prefix, hexadecimal digits followed by a non-digit parse to their value in base sixteen, and no digits give NaN |
| Text.ParseIntHexExample | app/api/content/route.ts:64-65 | "0x2" parses to 2 |
| Text.DigitsValueNatToString | app/api/content/route.ts:64-65 | the decimal digits of a number have that number as value |
| Text.ParseIntNatToString | app/api/content/route.ts:64-65 | the decimal text of a number parses back to the number |
| Text.Words | app/add-content/page.tsx:146-150 | every word is non-empty and holds no whitespace |
| Text.WordCountIsRunStarts | app/add-content/page.tsx:146-150 | the word count is the number of places where a non-whitespace character follows whitespace or the start |
| Text.NoWordsIffAllSpace | app/add-content/page.tsx:146-150 | a text has no words exactly when it is all whitespace |
| SubjectsRoute.DashRuns | app/api/subjects/route.ts:49 | replacing each whitespace run by '-' leaves no whitespace, and changes nothing in a text without whitespace; that each run gives exactly one '-' is `DashRunsRun` |
| SubjectsRoute.Slug | app/api/subjects/route.ts:49 | the subject id contains no whitespace; for a name without whitespace it is the lowercased name; the one '-' per whitespace run is `SlugRun` |
| SubjectsRoute.DashRunsRun | app/api/subjects/route.ts:49 | a whole run of whitespace after a word becomes exactly one '-', and the rest is processed on its own |
| SubjectsRoute.DashRunsLeadingRun | app/api/subjects/route.ts:49 | a leading whitespace run becomes one '-' in front of the rest |
| SubjectsRoute.SlugRun | app/api/subjects/route.ts:49 | the id of a word, a whitespace run and a rest is the lowercased word, one '-', and the id of the rest |
| SubjectsRoute.SlugIdempotent | app/api/subjects/route.ts:49 | slugging a slug changes nothing |
| SubjectsRoute.SlugIsLower | app/api/subjects/route.ts:49 | a slug is already lower case |
| SubjectsRoute.Subjects | app/api/subjects/route.ts:8-28 | no session gives 401; otherwise GET returns the caller's list, or [] when no record exists |
| SubjectsRoute.AddSubject | app/api/subjects/route.ts:30-77 | no session gives 401; a missing name or colour gives 400 with nothing stored; success appends the new subject to the end of the caller's list, creating the record if absent; other users' records are unchanged |
| SubjectsRoute.PostThenGet | app/api/subjects/route.ts:55-72 | after a POST, GET returns the old list followed by the stored subject |
| SubjectsRoute.SameNameTwice | app/api/subjects/route.ts:55-66 | posting the same name twice stores two entries with the same id |
| Store.Database.constructor | lib/models/content.ts:11-35 | the collections start empty with the given flows, and the store invariant holds |
| Store.Database.Entries | app/api/content/route.ts:93 | the entries in natural order are exactly the stored documents, each once |
| Store.Database.Action | app/api/content/actions/route.ts:8-97 | the handler's reply and the new collection are those of `ContentActions.Dispatch`; the store invariant is kept; the natural order loses only a deleted id |
| Store.Database.ArchiveOne | app/api/content/actions/route.ts:29-39 | the update in place gives the collection `ContentActions.Archived` describes |
| Store.Database.DeleteOne | app/api/content/actions/route.ts:41-43 | the removal in place gives `ContentActions.Deleted` and drops the id from the natural order |
| Store.Database.ReviewOne | app/api/content/actions/route.ts:45-88 | a missing or foreign item gives 404 with nothing changed; otherwise exactly the target is replaced by `ContentActions.Reviewed` and the reply carries its new due date |
| Store.NextReviewIndex | app/api/content/actions/route.ts:59-66 | the step-by-step reassignment of `nextReviewIndex` computes `Scheduler.AdjustedIndex` |
| Store.Database.CreateContent | app/api/content/route.ts:8-54 | the insertion gives the reply and collection of `ContentRoute.Create` and appends the new id to the natural order |
| Store.Database.ListContent | app/api/content/route.ts:56-115 | the listing over the stored documents is `ContentRoute.List`: no session gives 401; every listed item is stored as listed, is the caller's, active and matches the filter, and the page is ordered newest first |
| Store.Database.TodayContent | app/api/content/today/route.ts:8-44 | the read-only query returns `TodayRoute.Today`: it fails exactly without a session, and lists exactly the stored documents of the caller that are active and due today |
| Store.Database.CheckDuplicate | app/api/content/duplicate-check/route.ts:8-39 | the read-only check returns `DuplicateCheck.Check`: it fails exactly without a session, and reports a duplicate exactly when the content is long enough, its regular expression compiles and one of the caller's active documents matches its probe, ignoring case |
| Store.Database.GetSubjects | app/api/subjects/route.ts:8-28 | the read-only GET returns `SubjectsRoute.Subjects`: it fails exactly without a session, and gives the caller's stored subjects, or none when the caller has no record |
| Store.Database.PostSubject | app/api/subjects/route.ts:30-77 | the upsert gives the reply and records of `SubjectsRoute.AddSubject` and touches nothing else |
| CompleteReview.DetermineReviewStage | app/complete-review/page.tsx:61-66 | daily below 2 reviews, weekly for 2-4, monthly for 5-7 and yearly from 8 |
| CompleteReview.StageMonotone | app/complete-review/page.tsx:61-66 | more reviews never give an earlier stage |
| CompleteReview.Normalize | app/complete-review/page.tsx:73-79 | a missing review count counts as 0 (so daily); a missing or empty estimated time becomes "3 min"; everything else is copied |
| CompleteReview.NormalizeAll | app/complete-review/page.tsx:73-79 | every fetched item is normalised, in order |
| CompleteReview.Active | app/complete-review/page.tsx:277-279 | the active items are exactly today's items whose id is neither archived nor deleted |
| CompleteReview.ArchiveRemovesOnly | app/complete-review/page.tsx:277-279 | archiving or deleting an id removes exactly the items with that id from the active list, in order |
| CompleteReview.NothingRemoved | app/complete-review/page.tsx:277-279 | with empty archived and deleted lists, all of today's items are active, in order |
| CompleteReview.SumMinutes | app/complete-review/page.tsx:282-286 | the total is NaN (None) exactly when some time has no leading integer |
| CompleteReview.TotalEstimatedTime | app/complete-review/page.tsx:282-286 | the total over the active items is NaN exactly when some item's time does not parse (decimal, or hexadecimal after 0x) |
| CompleteReview.MinutesOfLabel | app/complete-review/page.tsx:283-284 | a time written "n min" counts n minutes |
| CompleteReview.SumMinutesIsSum | app/complete-review/page.tsx:282-286 | when every time parses, the total is the sum of the minutes |
| CompleteReview.SumMinutesAppend | app/complete-review/page.tsx:282-286 | the total of two lists is the sum of their totals |
| CompleteReview.DefaultTimeIsThree | app/complete-review/page.tsx:282-286 | the default "3 min" counts three minutes |
| CompleteReview.CopyUntitled | app/complete-review/page.tsx:116-117 | an item without a title is copied as "null", a blank line and its content |
| CompleteReview.CopyAllSingle | app/complete-review/page.tsx:116-139 | copying all of one item gives the item's own copy text followed by the separator block |
| CompleteReview.CopyAllAppend | app/complete-review/page.tsx:134-139 | the copy-all text of two lists is the concatenation of their texts, so items appear in order |
| CompleteReview.CopyAllLength | app/complete-review/page.tsx:134-139 | the copy-all text has the length of its blocks summed |
| CompleteReview.CompleteReviewPage.constructor | app/complete-review/page.tsx:50-55 | the page starts with empty lists, no item to delete, the dialog closed and loading on |
| CompleteReview.CompleteReviewPage.FetchTodaysContent | app/complete-review/page.tsx:68-91 | a successful fetch stores the normalised items; a failed one keeps the old ones; loading ends either way |
| CompleteReview.CompleteReviewPage.DeleteItem | app/complete-review/page.tsx:157-160 | asking to delete records the id and opens the dialog, changing nothing else |
| CompleteReview.CompleteReviewPage.CancelDelete | app/complete-review/page.tsx:459 | cancelling closes the dialog only |
| CompleteReview.CompleteReviewPage.RecordArchived | app/complete-review/page.tsx:170-218 | a successful complete or archive stores the archived list captured at the click with the id appended, so an archive that finished in between is lost again; the active items are then those of the captured list without that id, which is the old active list without it when nothing finished in between; a failure changes nothing |
| CompleteReview.CompleteReviewPage.ConfirmDelete | app/complete-review/page.tsx:235-263 | with an item to delete captured at the click: success stores the deleted list captured then with the item appended, and failure changes no list; either way the pending item is cleared and the dialog closes. With none set, nothing changes |
| ReviewSession.Forward | app/review/page.tsx:76-100 | moving forward steps by one exactly when not at the last item, so the index stays in range |
| ReviewSession.Backward | app/review/page.tsx:84-88 | moving back steps by one exactly when above 0, never below 0 |
| ReviewSession.BackUndoesForward | app/review/page.tsx:84-94 | going back after going forward (not from the last item) returns to the same index |
| ReviewSession.Session.constructor | app/review/page.tsx:19-50 | the session starts at the first item with nothing completed |
| ReviewSession.Session.Progress | app/review/page.tsx:54-56 | progress lies in (0, 100] and is 100 exactly at the last item |
| ReviewSession.Session.Assessment | app/review/page.tsx:73-82 | rating appends the current item's id (no repeat check), advances unless at the last item, and exits there; the rating itself changes nothing else |
| ReviewSession.Session.Previous | app/review/page.tsx:84-88 | the index moves back one when above 0, and nothing else changes |
| ReviewSession.Session.Next | app/review/page.tsx:90-94 | the index moves forward one when not at the last item, and nothing else changes |
| ReviewSession.Session.Skip | app/review/page.tsx:96-100 | skip behaves exactly like next |
| ReviewSession.RateAll | app/review/page.tsx:73-82 | rating all three sample items completes [1,2,3], stays on the last index and exits |
| AddContent.Wrap | app/add-content/page.tsx:126-139 | bold is `**x**`, italic `*x*`, highlight `==x==`, a list item "\n• x"; an unknown format gives the empty text |
| AddContent.FormatText | app/add-content/page.tsx:116-144 | an empty selection leaves the content unchanged; otherwise the selection is replaced by its wrapped form |
| AddContent.FormatRoundTrip | app/add-content/page.tsx:116-144 | formatting a selection keeps the text before it, adds exactly the markers' length, and removing the markers restores the content |
| AddContent.BoldExample | app/add-content/page.tsx:126-128 | "a b c" with the middle letter made bold is "a **b** c" |
| AddContent.WordCount | app/add-content/page.tsx:146-150 | the word count is the number of maximal non-whitespace runs, and 0 exactly for whitespace-only content |
| AddContent.ReadTime | app/add-content/page.tsx:151 | the read time is the ceiling of words/200 |
| AddContent.ReadTimeMonotone | app/add-content/page.tsx:151 | more words never give a shorter read time |
| AddContent.FindSubject | app/add-content/page.tsx:184 | the lookup finds a subject exactly when one has the selected id, and what it finds is the first such subject |
| AddContent.SaveRequest | app/add-content/page.tsx:162-194 | saving without a session or without a subject stops before any request; otherwise the request carries the trimmed title (omitted when blank), the trimmed content, the found subject and the tags |
| AddContent.SaveIsAccepted | app/add-content/page.tsx:162-194 | when the save button is enabled and the subject exists, the server creates the item with the trimmed content and the tags |
| AddContent.UnknownSubjectIsRefused | app/add-content/page.tsx:184-194 | a selected id missing from the subject list is sent and refused with 400 |
| AddContent.AppendTag | app/add-content/page.tsx:263-265 | appending a new trimmed, non-empty tag keeps the tags free of duplicates |
| AddContent.Editor.constructor | app/add-content/page.tsx:57-68 | the editor starts with empty content, no tags and an empty tag input |
| AddContent.Editor.AddTag | app/add-content/page.tsx:263-268 | the trimmed tag is appended only when non-empty and new, and the input is cleared only then; the tags stay distinct |
| AddContent.Editor.RemoveTag | app/add-content/page.tsx:270-272 | exactly that tag is removed and the others stay in order |
| AddContent.Editor.ApplyFormat | app/add-content/page.tsx:116-144 | a format button replaces the content by `FormatText` of it and keeps the tags |
| ContentLibrary.Filtered | app/content-library/page.tsx:102-111 | an item is kept exactly when search, subject, stage and difficulty all match ("All" matches everything); the result is an order-preserving sub-list |
| ContentLibrary.EmptySearchMatchesAll | app/content-library/page.tsx:103-105 | the empty search matches every item |
| ContentLibrary.InitialFiltersKeepAll | app/content-library/page.tsx:102-111 | the initial filters keep the whole library |
| ContentLibrary.SearchIgnoresCase | app/content-library/page.tsx:103-105 | the search ignores the case of the search text |
| ContentLibrary.Toggle | app/content-library/page.tsx:113-115 | toggling removes a present id and appends an absent one, leaving every other id alone |
| ContentLibrary.ToggleTwice | app/content-library/page.tsx:113-115 | toggling twice restores membership, and the exact selection when the id was absent |
| ContentLibrary.Ids | app/content-library/page.tsx:121 | the ids of the filtered items, in order |
| ContentLibrary.SelectAll | app/content-library/page.tsx:117-123 | select-all clears a selection as long as the filtered list, and otherwise selects the filtered ids in order |
| ContentLibrary.SelectAllTwice | app/content-library/page.tsx:117-123 | pressing select-all twice clears the selection |
| ContentLibrary.Blocks | app/content-library/page.tsx:132-135 | one "title\ncontent\n---" block per selected item, in order |
| ContentLibrary.SelectedItems | app/content-library/page.tsx:132 | the exported items are exactly the selected ones, in library order |
| ContentLibrary.ExportIgnoresSelectionOrder | app/content-library/page.tsx:131-144 | the export depends only on which ids are selected, not on their order |
| ContentLibrary.ExportOne | app/content-library/page.tsx:131-144 | exporting a single selected item gives its block alone |
| ContentLibrary.Import | app/content-library/page.tsx:146-151 | the imported pieces are exactly the "---" pieces that are not blank |
| ContentLibrary.ImportDropsOnlyBlankPieces | app/content-library/page.tsx:147 | joining the pieces with "---" gives the text back, and every dropped piece is blank |
| ContentLibrary.ImportCutsAtSeparator | app/content-library/page.tsx:147 | the paste is cut at its first "---": the text before it is imported on its own unless blank, ahead of the import of the rest |
| ContentLibrary.ImportWithoutSeparator | app/content-library/page.tsx:147 | a text without "---" imports as itself, or as nothing when blank |
| ContentLibrary.LibraryPage.constructor | app/content-library/page.tsx:93-100 | the page starts with the empty search, "All" filters, nothing selected and the dialogs closed |
| ContentLibrary.LibraryPage.SelectItem | app/content-library/page.tsx:113-115 | the selection is toggled and nothing else changes |
| ContentLibrary.LibraryPage.SelectAllItems | app/content-library/page.tsx:117-123 | the selection becomes `SelectAll` of the filtered items |
| ContentLibrary.LibraryPage.BulkDelete | app/content-library/page.tsx:125-129 | bulk delete clears the selection and hides the bulk actions |
| ContentLibrary.LibraryPage.BulkExport | app/content-library/page.tsx:131-144 | nothing changes; the exported text is empty exactly when no listed item is selected, and is one item's block alone when exactly that item is selected |
| ContentLibrary.ExportEmpty | app/content-library/page.tsx:131-135 | the export is empty exactly when no item is selected |
| ContentLibrary.LibraryPage.ImportPasted | app/content-library/page.tsx:146-151 | the pasted text's pieces are `Import` of it; the text is cleared and the dialog closed |
| CalendarView.Weekday | components/advanced-calendar-view.tsx:32 | the weekday of a day cell is in 0..6 |
| CalendarView.GenerateCalendarData | components/advanced-calendar-view.tsx:13-44 | the grid has `firstDay + daysInMonth` cells; the first `firstDay` are blank; the cell after them holds day k, with 0-4 items on a weekend and 5-19 otherwise |
| CalendarView.ItemsColor | components/advanced-calendar-view.tsx:58-63 | gray for 0, green for 1-4, yellow for 5-9, red from 10 |
| CalendarView.ItemsColorMonotone | components/advanced-calendar-view.tsx:58-63 | more items never give a cooler colour |
| CalendarView.GeneratedColors | components/advanced-calendar-view.tsx:32-63 | generated weekend days show gray or green and weekdays yellow or red |
| CalendarView.ItemsForDate | components/advanced-calendar-view.tsx:72-105 | no date gives []; a date gives a prefix of 3-5 items of the sample list |
| CalendarView.CalendarPage.constructor | components/advanced-calendar-view.tsx:49-52 | nothing is selected and the dialog is closed |
| CalendarView.CalendarPage.DateClick | components/advanced-calendar-view.tsx:65-69 | clicking a blank cell changes nothing; clicking a day selects it and opens the dialog |
| ScheduleTimeline.CalculateDate | components/review-schedule-timeline.tsx:83-88 | a numeric day d gives start date + d - 1 days; a text day is returned unchanged |
| ScheduleTimeline.CalculateDateShifts | components/review-schedule-timeline.tsx:83-88 | day 1 is the start date itself, and day differences carry over to date differences |
| ScheduleTimeline.CallSiteArg | components/review-schedule-timeline.tsx:120 | a text day is cut to its first comma-separated part, trimmed |
| ScheduleTimeline.WeeklyReviewsShowFirstDay | components/review-schedule-timeline.tsx:120 | "18, 25, 32" is shown as "18" |
| ScheduleTimeline.PhaseDays | components/review-schedule-timeline.tsx:16-81 | the numeric phase days, in phase order, are 1, 11, 62 and 517 |
| ScheduleTimeline.NumericPhasesIncrease | components/review-schedule-timeline.tsx:16-81 | the numeric phase days strictly increase, and so do the dates they give from any start |
| PerformanceTable.DifficultyColor | components/performance-table.tsx:18-31 | green for easy, yellow for medium, red for hard, compared case-insensitively; gray for empty or unknown |
| PerformanceTable.DifficultyColorIgnoresCase | components/performance-table.tsx:19-21 | the colour depends only on the lowercased difficulty |
| PerformanceTable.RetentionColor | components/performance-table.tsx:33-37 | green from 90, yellow for 80-89, red below 80 |
| PerformanceTable.RetentionColorMonotone | components/performance-table.tsx:33-37 | a higher retention never gives a warmer warning colour |
| PerformanceTable.RowOf | components/performance-table.tsx:53-67 | a row shows its entry's fields with the two colours computed from it |
| PerformanceTable.Rows | components/performance-table.tsx:53-67 | one row per entry, in input order |
| PerformanceTable.RowsAppend | components/performance-table.tsx:53-67 | the rows of two lists are the rows of each, concatenated |
| StatisticsDeepDive.TimeOfDayColor | components/statistics-deep-dive.tsx:66-69 | green from 85, yellow for 80-84, red below 80 |
| StatisticsDeepDive.RetentionBarColor | components/statistics-deep-dive.tsx:196-201 | green from 90, yellow for 80-89, red below 80 |
| StatisticsDeepDive.DifficultyBadge | components/statistics-deep-dive.tsx:213-226 | the badge colour is case-insensitive; empty or unknown values get gray |
| StatisticsDeepDive.SortInPlace | components/statistics-deep-dive.tsx:162-183 | the array is reordered in place into the stable descending order of the key |
| StatisticsDeepDive.RenderTabs | components/statistics-deep-dive.tsx:162-184 | the completion tab is non-increasing in completion rate and the retention tab in retention rate, both permutations of the input; the caller's array is left in retention order |
| Sorting.SortDesc | components/statistics-deep-dive.tsx:162-163 | the sorted sequence is a permutation ordered by the key descending |
| CalendarHeatmap.CountOf | components/calendar-heatmap.tsx:29 | a missing count counts as 0 |
| CalendarHeatmap.Intensity | components/calendar-heatmap.tsx:29 | intensity is `min(count / 4, 4)`: at most 4, non-negative for non-negative counts, and 4 exactly from 16 |
| CalendarHeatmap.IntensityShape | components/calendar-heatmap.tsx:29 | counts 0-3 give 0, and intensity is non-decreasing in the count |
| CalendarHeatmap.Render | components/calendar-heatmap.tsx:25-36 | at most the first 365 entries are drawn, each with its intensity; the caption reports the full length |
| CalendarHeatmap.RenderBounds | components/calendar-heatmap.tsx:27-31 | for non-negative counts every drawn intensity lies in 0..4, and a missing count draws 0 |
| Header.NextTheme | app/Header.jsx:14-22 | dark goes to light, light to system, anything else to dark |
| Header.ThemeCycle | app/Header.jsx:14-22 | three toggles from dark, light or system return to the start; from any other value two toggles reach light |
| Header.NavigationShape | app/Header.jsx:24-29 | there are four entries and only Dashboard, the first, is primary |
| Header.HeaderState.constructor | app/Header.jsx:10-11 | the menu starts closed |
| Header.HeaderState.ToggleMenu | app/Header.jsx:71 | the menu button negates the open flag only |
| Header.HeaderState.ToggleTheme | app/Header.jsx:14-22 | the theme becomes `NextTheme` of the old one and the menu is unchanged |
| Dashboard.Percent | app/page.tsx:282 | progress is 0 for a zero total and otherwise done/total as a percentage, within 0..100 when done is |
| Dashboard.SectionProgressBounds | app/page.tsx:281-284 | a section's bar lies between 0 and 100 % when its completed count is within its total, and is full exactly when everything is done |
| Dashboard.TotalsAppend | app/page.tsx:99-100 | the totals of two section lists add up |
| Dashboard.CompletedAtMostTotal | app/page.tsx:99-101 | when every section's completed count is within its count, so are the totals, and the overall progress lies in 0..100 |
| Dashboard.SampleTotals | app/page.tsx:36-100 | the sample sections total 41 reviews, 29 completed |
| Dashboard.StartButton | app/page.tsx:290-293 | the button is disabled and labelled "Completed" exactly when completed equals total |
| Dashboard.OnlyYearlyCompleted | app/page.tsx:36-89 | among the sample sections only the yearly one shows "Completed" |
| Dashboard.Preview | app/page.tsx:263-270 | the preview shows at most the first two items, and "+n more" with n = length - 2 exactly when there are more than two |
| Dashboard.ThemeToggle | app/page.tsx:103-111 | dark goes to light, light to system, anything else to dark |
| Analytics.OrEmpty | app/analytics/page.tsx:154-163 | a present list is kept and an absent one becomes [] |
| Analytics.Validate | app/analytics/page.tsx:151-165 | each of the ten list fields is kept when present and becomes [] when absent; the other fields are copied; a complete payload is unchanged |
| Analytics.ValidateIdempotent | app/analytics/page.tsx:151-165 | validating twice equals validating once |
| Analytics.GenerateReviewActivity | app/analytics/page.tsx:40-43 | 365 entries, one per consecutive day ending today, with counts in 0..19 |
| Analytics.GenerateLearningProgress | app/analytics/page.tsx:44-47 | 12 monthly entries with items in 20..69 |
| Analytics.GenerateWorkloadForecast | app/analytics/page.tsx:62-65 | 30 daily entries starting today, with items in 5..19 |

## Left out

- HTTP, the session lookup and the MongoDB driver are not modelled. The
  collections are in-memory maps, and the session is an optional user id.
- The reply of a thrown exception (500) is modelled only where the source
  catches something the model can produce: a fresh id that collides, a page
  or limit that does not parse (NaN in JavaScript), or a negative skip (a page
  of 0 or below with a positive limit, which MongoDB refuses).
- The session check `!session?.user?.id` also rejects an empty user id. The
  model takes user ids to be non-empty: `Some("")` counts as signed in.
- JavaScript numbers are doubles. `ParseInt`'s result, `(page-1)*limit` and the
  sum of minutes are unbounded integers here, so the model assumes they stay
  below 2^53, where doubles are exact integers.
- TitleText: a title left blank is stored as null and printed as "null". A
  document whose `title` field is missing altogether would print "undefined";
  the model does not tell the two apart.
- `ObjectId` parsing is left out. Document ids are strings, so an invalid id is
  not a 500 but simply matches nothing.
- Documents with equal `createdAt` are listed in a stable order. MongoDB does
  not promise any order for ties.
- A negative `limit` is modelled like MongoDB's: it is taken by absolute value.
- `$regex` with option `i` (the search of the content listing and the
  duplicate probe) is modelled as a case-insensitive substring test.
  Metacharacters in the user's text are not interpreted.
- `toLowerCase` is modelled on ASCII letters only.
- Lengths (the 50-character guard, the 100-character probe) count characters of
  the string model, not UTF-16 code units.
- The users collection is looked up by the session's user id as a string key.
- An empty `repetitionFlow` stored on a user would bypass the fallback and give
  an undefined day count. The store invariant requires every configured flow to
  be non-empty.
- Local time, daylight saving, time zones and the date formatting functions
  are left out. Every day has exactly 24 hours.
- Random sample data is a nondeterministic choice of an integer in the drawn
  range, or a `draw` parameter for the item count of `getItemsForDate`.
- The dashboard and review-session percentages are exact rationals (`real`),
  not floating point.
- The rates and counts of the analytics data, the performance table and the
  heatmap (completion, success, hard and retention rates) are integers, while
  the source's values are JavaScript numbers. A fractional rate or count
  cannot be written in the model. The analytics review times
  (`avgTime`) are `real`.
- The heatmap cell opacity and hover text are not modelled.
- The names and descriptions of the review-schedule phases are display text
  and are not modelled; a phase keeps only its day or day label.
- Markdown-to-HTML rendering of the previews is a regular-expression rewrite
  that produces HTML, and is left out.
- The clipboard, toasts, router navigation, `fetch` and timers are left out.
  Each handler takes the success of its request as a parameter.
- The content library's bulk delete only clears the selection; the source
  sends no request either.
- AddContent.SaveRequest: the model stops at the request body; the response
  handling, form reset and navigation after it are not modelled.
- StatisticsDeepDive.SortInPlace: it states the effect of the JavaScript
  engine's stable `sort` (the stable descending order of the key), not the
  engine's algorithm.
- `calculateDate` copies `startDate` before shifting it. Under value semantics
  the copy is automatic, so the "never modifies startDate" property holds
  trivially and has no lemma.
- The settings, login, authentication and chart pages are presentation or
  framework wiring and are not part of this model.

## Findings

| source | as written | input that shows it | evidently intended | confidence | as-written member | corrected member |
|---|---|---|---|---|---|---|
| app/complete-review/page.tsx:167 | "Mark as complete" posts `action: 'reviewed'`, but the dispatcher (app/api/content/actions/route.ts:28-91) accepts only `archive`, `delete` and `review`, so every such request is answered 400 "Invalid action" and no review is recorded | any owned item id, e.g. `{ action: "reviewed", contentId: "a" }` | post `action: 'review'`, which records one review and reschedules the item | not executed (proved on the model) | ContentActions.MarkCompleteAsWrittenIsRejected | ContentActions.MarkCompleteRecordsReview |
