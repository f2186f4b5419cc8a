# Verified model of the REAPER plugin's core

A Dafny model of three parts of `internal/reaper` that other code relies on without being able to check,
and proofs of what they promise. `dafny verify dfyconfig.toml` checks everything.

**The catalog walk** (`StudioPaths` to `StudioLive`). A catalog source is listed page by page with no state
kept between calls: each page walks the folder tree again, skips what lies at or before a cursor, emits
entries until a limit or a byte budget stops it, and rolls its counters back to the last entry. A folder
tree is a datatype; the unbounded walk is a sequence of events (an item counted, an entry shown); the walker
is a class with the fields of the original, proved to scan exactly the events behind the cursor. `StudioReach`
says by path lookup what those events list and count. `Paging`
proves once, for any event sequence, what pages cut from it add up to; `CursorPaging` adds the cursor codec
and says exactly when a listing can be read to its end; `LossyPaging` does the same for a source whose cursors
pass over items. `StudioInventory` instantiates them for the file walk, `StudioLive` for the live plugin list.

**Guarded track edits** (`TrackScript` to `LuaText`). An edit is compiled to a script that checks that the
track at a position still has the expected name and only then changes it. The generated scripts are lists of
commands with an interpreter over a position-indexed track list, in which each track carries an identity no
script can read. `TrackEdits` and `UndoSlots` cover single edits, receipts and undo, `BulkPlans` and
`BulkLanding` plans of several edits. `ScriptLibrary` (frontmatter of saved scripts), `StrictJson` (the check
for repeated keys) and `LuaText` (string literals) are the printers and parsers beside them.

**Project Tidy** (`TidyPlans` to `TidyLifecycle`). A survey turns an inspected project and the studio's
conventions into a plan of colors, renames and deletions; a selection cuts the plan; the result of applying
it is bound back to the plan; a store of files carries proposals and reports through their life.
`TidyConvergence` proves that tidying settles; `TidyLifecycle` proves what the store keeps over any run of
operations, each of which may stop after any of its atomic writes.

Code that changes state in steps is imperative here too: the walker, the decoder, the service and the store
are classes, loops are loops with invariants. Each method is proved equal to a specification function, or to a
relation between the files before and after; the theorems are lemmas about those.

Conventions: a `string` is a Go byte string in the walk, the edits and the script library, and Unicode text in
Project Tidy. Tables of Unicode (`CharTable`), the plain-text test for ids (`text`), sizes of encoded files and
rendered texts (`Rendering`), and the environment's answers (`Answers`) are parameters, so the theorems hold
for every choice that meets the stated laws.

Where the comments in the source and its code differ, the model follows the code. The comment at
`internal/reaper/bulk.go:30-37` says that a later move's guard sees the moves before it; the code checks every
guard first, on the original list (`BulkLanding.GuardsSeeTheOriginalList`).

Some promises do not hold of the code for every input; each comes with such an input and the exact condition.
Paging does not always reach the end (`StudioInventory.LongNamesStopPaging`, `CursorPaging.ReadableAtEveryLimit`).
Live pages do not always count every row (`StudioLive.TwinBehindIsLost`, `StudioLive.EveryRowIsCounted`), and
end silently before an entry that is too large (`StudioLive.LiveListStops`). An edit of a plan does not always
reach the track its guard checked (`BulkLanding.GuardsSeeTheOriginalList`, `BulkLanding.LandsExactly`). An undo
does not always restore the project (`TrackEdits.BlankNameIsLost`, `TrackEdits.UndoRestoresExactly`). A plan run
on a later state can take a name away (`TidyLater.ClearedNameIsLost`, `TidyLater.LaterNames`). A report that
stopped early blocks every later one (`TidyLifecycle.StoppedReportBlocks`, `TidyLifecycle.WhenReportable`). A
survey can stop with a runtime error (`TidyNames.HyphenSectionAborts`, `TidyNames.TitleAborts`). The convergence
theorems leave out sections that end in digits, for which `TidyConvergence.TwoRoundsNeedNotSettle` gives an input
that does not settle.

## Model

| member | source | states |
|---|---|---|
| StudioPaths.CompareStudioPath | internal/reaper/studio_files.go:320-337 | The loop over path elements computes the order of the split paths: the first differing element decides, a shorter path comes first. |
| StudioPaths.OrderMeans | internal/reaper/studio_files.go:312-337 | A path is before another if and only if, where their elements part, it has the smaller element or has ended. |
| StudioPaths.PathOrder | internal/reaper/studio_files.go:318-337 | 0 exactly on equal paths; swapping the arguments negates the result. |
| StudioPaths.PathTransitive | internal/reaper/studio_files.go:318-337 | The order is transitive, so together with PathOrder a strict total order. |
| Text.LessMeans | internal/reaper/studio_files.go:327-332 | The comparison of elements: where two texts part, the smaller character or the shorter text comes first. |
| StudioPaths.SiblingsApart | internal/reaper/studio_files.go:170-187 | Everything at or under the earlier of two siblings is before everything at or under the later one: an unentered folder before the cursor hides nothing after it. |
| StudioPaths.FolderFirst | internal/reaper/studio_files.go:318-337 | A folder comes before everything inside it. |
| StudioDirectory.ReadStudioDirectory | internal/reaper/studio_files.go:289-316 | A folder whose first read fails is one that cannot be listed. Otherwise the names of the first read are kept, at most 4096; the rest are counted up to the bound of the counting loop; distinct names come out strictly sorted. |
| Paging.ScanShape | internal/reaper/studio_files.go:225-248 | Scanning events with a limit and a byte budget splits them into what the checkpoint covers and what is pending; the counts, the entries and the remaining budget agree with that split. |
| Paging.PageShape | internal/reaper/studio_files.go:81-99 | A page lists the longest prefix of the remaining entries that fits limit and budget, covers the events up to its last entry (or all of them), and fails exactly when the first entry exceeds the budget. |
| Paging.ResumesAtCut | internal/reaper/studio_files.go:170-187 | Resuming behind the last entry of a page gives exactly the events the page left over. |
| Paging.ChainCoversAll | internal/reaper/studio_files.go:18-23 | Any chain of pages lists every entry once and in order, greedily; its counts sum to one count of every event; it has at most max(1, number of entries) pages. |
| Paging.ChainExists | internal/reaper/studio_files.go:86-88 | A complete chain of pages exists if and only if every entry fits the budget on its own. |
| StudioFiles.StudioWalker.constructor | internal/reaper/studio_files.go:77-80 | A new walker has counted nothing and is past the cursor only when there is none. |
| StudioFiles.StudioWalker.Walk | internal/reaper/studio_files.go:128-154 | Walking an opened folder moves the counters, entries and checkpoint exactly as scanning the folder's events behind the cursor does, up to the point where it stops. |
| StudioFiles.StudioWalker.VisitNames | internal/reaper/studio_files.go:141-148 | The loop over the names does so for the list of children. |
| StudioFiles.StudioWalker.CountOverflow | internal/reaper/studio_files.go:149-153 | Names beyond the bound are counted as too large exactly when the walk is past the cursor and not full. |
| StudioFiles.StudioWalker.Visit | internal/reaper/studio_files.go:156-187 | An item before the cursor is passed over, a folder that holds the cursor is entered, and anything later is looked at. |
| StudioFiles.StudioWalker.Look | internal/reaper/studio_files.go:188-211 | An item past the cursor is counted under its reason, entered, or emitted, as the events of the walk say; StudioReach.WalkReaches says what those are. |
| StudioFiles.StudioWalker.Descend | internal/reaper/studio_files.go:213-223 | A folder that cannot be opened adds one unreadable skip without a visit; any other is walked. |
| StudioFiles.StudioWalker.Emit | internal/reaper/studio_files.go:225-248 | An entry is appended with a checkpoint, or skipped as unsupported, or stops the walk when it does not fit. |
| StudioFiles.WalkStudioSource | internal/reaper/studio_files.go:73-100 | On a source within the item limit the result is the page cut from the events behind the cursor (StudioReach.WalkReaches says what all of them list and count); on a larger one it is cut from a prefix of them; the call is invalid exactly for a bad limit or budget. |
| StudioReach.WalkReaches | internal/reaper/studio_files.go:126-248 | By path lookup: an unbounded walk lists exactly the matching, shown files that lie at a path of at most 16 names through visible folders that open and list. Every name so reached is visited once and skipped under the reason of its kind: hidden, link, broken or closed or unlistable, too deep, special or unshown; folders that cannot be listed are counted once more, names beyond a listing as too large. |
| StudioResume.WalkIncreasing | internal/reaper/studio_files.go:128-211 | The walk counts and lists items in strictly increasing path order. |
| StudioResume.IdsDistinct | internal/reaper/studio_files.go:225-248 | No native id is listed twice. |
| StudioResume.ResumeIsAfter | internal/reaper/studio_files.go:166-187 | The walk behind a listed id scans exactly the events that follow it in the unbounded walk. |
| CursorPaging.PagesGlueTogether | internal/reaper/studio_files.go:18-23 | For any resumable source, following encoded cursors from the first page to the last gives every entry once and in order, greedily, and coverage that sums reason by reason to the unbounded scan. |
| CursorPaging.WhenPagingReachesTheEnd | internal/reaper/studio_files.go:339-394 | At a given limit the listing can be read to its end if and only if, cutting the entries greedily by their sizes, every page takes something and every page but the last ends at an id whose cursor has at most 512 bytes. |
| CursorPaging.ReadableAtEveryLimit | internal/reaper/studio_files.go:339-394 | It can be read to its end at every limit if and only if every entry fits a page on its own and every id but the last has a cursor of at most 512 bytes. |
| StudioInventory.ReadInventory | internal/reaper/studio.go:781-806 | One inventory call decodes the cursor, answers a reset for one it cannot honour, and otherwise returns the page behind it (beyond the item limit, a page of a prefix); the first page adds the registrations outside every source. |
| StudioInventory.ExternalCountedOnce | internal/reaper/studio.go:802-806 | Pages that follow the cursors count those registrations once. |
| StudioInventory.FilesAreResumable | internal/reaper/studio_files.go:156-187 | A well-formed folder tree whose shown ids are valid is a resumable source. |
| StudioInventory.FilePagesGlueTogether | internal/reaper/studio_files.go:73-248 | Pages of a folder tree that follow the cursors concatenate to the entries of the unbounded walk, each as long as fits, and their visited counts and skip reasons sum to its counts. |
| StudioInventory.FilePagesReach | internal/reaper/studio_files.go:73-248 | So do the pages together: their entries are exactly those files, and their coverage counts each reached name once under its reason. |
| StudioInventory.WhenFilePagingEnds | internal/reaper/studio_files.go:339-394 | At a given limit such pages exist if and only if the greedy cuts of the tree's entries fall at short cursors. |
| StudioInventory.FilePagingEndsAtEveryLimit | internal/reaper/studio_files.go:339-394 | They exist at every limit if and only if every entry of the tree fits a page on its own and every id but the last has a cursor of at most 512 bytes. |
| StudioInventory.ShortIdsCanBePaged | internal/reaper/studio_files.go:339-394 | They exist at every limit when the tree's ids have at most 168 bytes and its entries fit. |
| StudioInventory.LongNamesStopPaging | internal/reaper/studio_files.go:361-367 | A folder of two scripts with long names outside ASCII, each fitting a page, cannot be read to its end one entry at a time: the first page names a cursor the next call refuses. |
| StudioCursor.EncodeStudioCursor | internal/reaper/studio_files.go:341-357 | The loop writes the prefix and the escaped id. |
| StudioCursor.DecodeStudioCursor | internal/reaper/studio_files.go:361-394 | The loop decodes exactly the cursors of the specification, in every error case too. |
| StudioCursor.UnescapedMeans | internal/reaper/studio_files.go:369-388 | A text decodes to an id if and only if it is made up of one piece for each byte: the byte itself when it needs no escape, or a percent sign and its two hexadecimal digits in either case. |
| StudioCursor.CursorRoundTrip | internal/reaper/studio_files.go:339-394 | The encoded length is 6 + length + 2 per escaped byte; decoding gives the id back if and only if that is at most 512, hence for every id of at most 168 bytes. |
| StudioCursor.LongIdIsReset | internal/reaper/studio_files.go:365-367 | The bound of 168 is tight: the cursor of a 169-byte id of spaces is refused. |
| StudioCursor.EncodeInjective | internal/reaper/studio_files.go:341-357 | Different ids have different cursors. |
| StudioCursor.DecodeEncodeDecode | internal/reaper/studio_files.go:361-394 | An honoured cursor names an id that can be emitted, and re-encoding it gives a cursor for the same id wherever that fits. |
| StudioLive.StudioFxItems | internal/reaper/studio_live.go:169-187 | The loop with its set of seen ids, and the stable sort, give the keyed items in key order. |
| StudioLive.SearchAbove | internal/reaper/studio_live.go:123-126 | The binary search finds the first key above the cursor. |
| StudioLive.PageStudioFxList | internal/reaper/studio_live.go:120-165 | The loop with its checkpoint is the scan of the events behind the cursor. |
| StudioLive.ResumePoint | internal/reaper/studio_live.go:123-126 | The search resumes directly behind an item if and only if the next item has another key. |
| StudioLive.ResumesBehindTwins | internal/reaper/studio_live.go:123-126 | Resuming behind a listed item passes over exactly the later rows that were refused under its key, and nothing else. |
| StudioLive.CountsEveryItem | internal/reaper/studio_live.go:130-155 | Entries plus unsupported skips of the whole list equal its number of items, repeated ids included. |
| StudioLive.ShowsAccepted | internal/reaper/studio_live.go:169-187 | The whole list shows exactly the accepted rows that have an entry and are the first with their id. |
| StudioLive.ShownInOrder | internal/reaper/studio_live.go:186-186 | It shows them in strictly increasing order of their ids. |
| StudioLive.LivePagesGlueTogether | internal/reaper/studio_live.go:116-165 | For any rows, live pages that follow the cursors concatenate to the one-shot entries, each as long as fits, and their entries plus skips count every row once except those refused behind an entry at which a page was cut; that number is exact, and the coverage is that of one scan if and only if it is zero. |
| LossyPaging.LossyPagesGlue | internal/reaper/studio_live.go:116-165 | For any source whose cursors pass over items that list nothing, the pages give every entry once, in order and greedily, and their coverage plus what is lost at the cuts is one unbounded scan's. |
| StudioLive.EveryRowIsCounted | internal/reaper/studio_live.go:116-165 | With entries that fit and short cursors, every row is counted at every limit if and only if no entry but the last has a later row refused under its key. |
| StudioLive.TwinBehindIsLost | internal/reaper/studio_live.go:116-165 | For any two short ids, on the rows A, a refused A, B and one entry a page only two of three rows are counted; with the refused row in front all three are. |
| StudioLive.WhenLivePagingEnds | internal/reaper/studio_live.go:156-161 | In the protocol that reports an entry too large, the live list can be read to its end if and only if its greedy cuts fall at short cursors; WhenLiveListStops says it for the live answers. |
| StudioLive.LiveReportResponds | internal/reaper/studio_live.go:156-164 | With every entry within the budget the live page is the answer the cursor protocol asks for. |
| StudioLive.SameProtocol | internal/reaper/studio_live.go:156-164 | With such entries the pages a live list gives are exactly the pages of the cursor protocol. |
| StudioLive.LiveListStops | internal/reaper/studio_live.go:145-164 | For any entries, live pages that follow the cursors list exactly the entries before the first that exceeds the budget, so they list all if and only if each entry fits a page. |
| StudioLive.WhenLiveListStops | internal/reaper/studio_live.go:145-164 | Such pages come to an end if and only if the greedy cuts before that entry fall at short cursors. |
| TrackScript.MoveLands | internal/reaper/edits.go:273-283 | A move lands at its target, keeps the order of the other tracks and permutes the list. |
| TrackScript.MoveBack | internal/reaper/edits.go:152-158 | Moving back restores the list. |
| TrackScript.OutsideSpan | internal/reaper/edits.go:273-283 | A position outside the closed span of a move keeps its track. |
| TrackEdits.ReceiptRead | internal/reaper/edits.go:355-373 | A receipt written by the script reads back as its outcome and, when applied, everything behind the first newline. |
| TrackEdits.EditIsGuarded | internal/reaper/edits.go:203-333 | Running the script of a valid edit either applies it to the track its guard names, in one undo block and with the prior value in the receipt, or changes nothing and says why. |
| TrackEdits.EditDoes | internal/reaper/edits.go:260-333 | An edit that is not refused sets the one field its kind names, of the one track its guard names, to the value given, and its receipt tells what that field was; a move puts its track at the target or at the end and changes no track. |
| TrackEdits.UndoRestoresExactly | internal/reaper/edits.go:132-164 | After an applied edit, the inverse built from the parsed receipt applies and restores the exact project if and only if the prior value can be written back: a name that is not blank to strings.TrimSpace, a toggle of 0 or 1, a color that is 0 or flagged and in range, a move within the list. |
| TrackEdits.BlankNameIsLost | internal/reaper/edits.go:175-178 | A track named by a no-break space can be renamed, and the inverse of that edit is refused. |
| TrackEdits.ValidateTrackMove | internal/reaper/edits.go:106-130 | The preflight, with its search loop, decides each refusal in the order of the code. |
| TrackEdits.PreflightMatchesScript | internal/reaper/edits.go:103-130 | On a snapshot of the live list the preflight accepts exactly the valid in-range moves that the script would apply. |
| TrackEdits.PreflightRefusals | internal/reaper/edits.go:106-130 | Which refusal the preflight gives on such a snapshot, each by its condition. |
| TrackEdits.MoveLandsAtTarget | internal/reaper/edits.go:273-283 | An in-range move that passes its guards puts the track exactly at its target and keeps the order of all others. |
| BulkPlans.Ordered | internal/reaper/bulk.go:38-51 | The two loops give the edits that are no moves, then the moves, each in their order; OrderKeepsGroups says so by positions. |
| BulkPlans.OrderedShape | internal/reaper/bulk.go:30-37 | The order keeps every edit and has no other kind behind a move. |
| BulkPlans.OrderKeepsGroups | internal/reaper/bulk.go:38-51 | The order has every edit as often as the plan: first the edits that are no moves at increasing positions of the plan, then the moves at increasing positions. |
| BulkPlans.PlanLua | internal/reaper/bulk.go:58-123 | The script checks every guard, gives its verdict, then applies every edit in one undo block; an invalid plan or path gives none. |
| BulkPlans.ParseBulkReceipt | internal/reaper/bulk.go:149-179 | The field loop parses exactly the receipts of the contract, error cases included. |
| BulkPlans.RefusalReadsBack | internal/reaper/bulk.go:99-107 | A refusal receipt parses to exactly the indices written. |
| BulkPlans.AppliedReadsBack | internal/reaper/bulk.go:121-121 | An applied receipt parses to its count. |
| BulkPlans.PlanRuns | internal/reaper/bulk.go:78-121 | The generated script run on any track list behaves as the plan's specification. |
| BulkPlans.PlanIsAllOrNothing | internal/reaper/bulk.go:53-57 | A valid plan applies all its edits as one undo step or leaves the project unchanged, and its receipt reads back as the ordered indices whose guard failed, else the folder parents, else the count. |
| BulkPlans.WhatIsRefused | internal/reaper/bulk.go:78-107 | A refusal names, in the plan's order, the indices of exactly those edits whose track is not there under its name, or of exactly those moves whose track holds a folder. |
| BulkLanding.FoundFromOrigin | internal/reaper/bulk.go:112-117 | After any edits the track at a position is the one that was at its origin, the position traced back through the moves. |
| BulkLanding.LandsExactly | internal/reaper/bulk.go:109-117 | In any valid plan over distinct tracks, an edit reaches the track its guard checked if and only if tracing its position back through the earlier moves gives that position. |
| BulkLanding.LandsOutsideEarlierMoves | internal/reaper/bulk.go:109-117 | Such an edit lands when its position lies outside the closed span of each earlier move, however many moves there are. |
| BulkLanding.LandsWithOneMove | internal/reaper/bulk.go:109-117 | With at most one move every edit reaches the track its guard checked. |
| BulkLanding.SecondMoveLandsExactly | internal/reaper/bulk.go:109-117 | For two moves this says: the second lies outside the first one's span, or the first moves nothing. |
| BulkLanding.PlanPermutes | internal/reaper/bulk.go:109-117 | A plan never loses or duplicates a track. |
| BulkLanding.GuardsSeeTheOriginalList | internal/reaper/bulk.go:35-37 | Concrete plans on which a later guard does not see an earlier move, against the comment at these lines. |
| UndoSlots.Service.RunTrackEdit | internal/reaper/service.go:434-472 | The slot gets the inverse of the receipt's prior value exactly when the edit applied and its receipt was read; every other outcome leaves the slots alone, and the call fails. |
| UndoSlots.Service.UndoTrackEdit | internal/reaper/service.go:474-496 | The stored inverse is taken out of its slot before it is run, whatever comes of it: a script that never ran, one whose receipt was not read, or a refusal. |
| UndoSlots.SlotChanges | internal/reaper/service.go:434-496 | A workspace's slot changes only when one of its edits applies with a receipt that is read, or its undo is taken. |
| UndoSlots.TakenAtMostOnce | internal/reaper/service.go:474-486 | Over any run of calls each stored inverse is taken at most once. |
| UndoSlots.UndoAfterEdit | internal/reaper/service.go:434-496 | An undo straight after an applied edit empties the slot and restores the project whenever the prior value can be written back. |
| UndoSlots.UnreadEditHasNoUndo | internal/reaper/service.go:444-447 | An edit that applied without its receipt being read is in the project while the slot holds what it held before. |
| LuaText.LuaString | internal/reaper/edits.go:378-388 | The loop writes one decimal escape for each byte between two quotes. |
| LuaText.LiteralRoundTrip | internal/reaper/edits.go:375-388 | For every byte string and any text behind the literal, a Lua lexer (section 3.1 of the Lua 5.4 Reference Manual) ends at the literal's last quote and reads the byte string. |
| LuaText.EscapesAreInert | internal/reaper/edits.go:375-377 | Between its quotes the literal holds only backslashes and digits. |
| StrictJson.Decoder.WalkUniqueValue | internal/reaper/tidy.go:490-537 | The recursive check over the decoder consumes what the specification consumes and fails when it fails. |
| StrictJson.WalkDecides | internal/reaper/tidy.go:478-537 | On the tokens of a value followed by anything, the check succeeds and consumes exactly that value if and only if no object at any depth repeats a key. |
| StrictJson.WalkFindsValue | internal/reaper/tidy.go:490-537 | Whatever the check accepts is the token stream of such a value. |
| ScriptLibrary.ParseFrontmatter | internal/reaper/library.go:267-318 | The line loop computes the parsed frontmatter, malformed headers included. |
| ScriptLibrary.FrontmatterRoundTrip | internal/reaper/library.go:267-345 | Parsing the rendered script of a valid input gives back the trimmed name and description, the flag and the code byte for byte if and only if neither trimmed value holds "]]--"; the code may. |
| ScriptLibrary.NeedsConfirmation | internal/reaper/library.go:267-318 | A parsed script needs no confirmation if and only if its header is valid and its last line that sets "confirm" says "false": without such a line it needs one. |
| ScriptLibrary.ValidFrontmatter | internal/reaper/library.go:267-318 | Frontmatter is valid if and only if the text opens and closes a header within the bound, each of its lines is blank or sets a key properly, and some line sets a name; name and description are those set last. |
| TidyPlans.KeysTellObjectsApart | internal/reaper/tidy.go:295-304 | Two items have the same mutation key if and only if they change the same track, marker or region. |
| TidyPlans.ValidateItems | internal/reaper/tidy.go:235-251 | The loop with its two sets accepts exactly the items that are well formed, with distinct ids and distinct targets. |
| TidyPlans.ValidatePlan | internal/reaper/tidy.go:226-252 | A plan is accepted if and only if its header, its size and its items are valid. |
| TidySelection.ValidateResult | internal/reaper/tidy.go:306-342 | A result is accepted if and only if its header is valid, each row's reason and error fit its status, and no id repeats. |
| TidySelection.RowTexts | internal/reaper/tidy.go:319-342 | A valid row has a reason only when it was skipped and an error only when it failed, and always then. |
| TidySelection.ValidateAgainstPlan | internal/reaper/tidy.go:344-357 | Accepted if and only if both are valid and the rows answer every item in order. |
| TidySelection.ScanRows | internal/reaper/tidy.go:366-380 | The greedy scan accepts exactly the rows that answer some of the items in their order (an increasing placement exists). |
| TidySelection.ValidateAgainstPlanSubset | internal/reaper/tidy.go:359-382 | Accepted if and only if both are valid, the plan ids agree and the rows' (id, verb) list is a subsequence of the plan's. |
| TidySelection.BoundByKeys | internal/reaper/tidy.go:344-382 | The (id, verb) pairs of a bound result are the plan's in order, or a subsequence of them. |
| TidySelection.SelectedTidyPlan | internal/reaper/tidy_operations.go:173-192 | The result is the plan cut to the chosen ids, or none. |
| TidySelection.SelectionOfValidPlan | internal/reaper/tidy_operations.go:173-192 | From a valid plan exactly the nonempty lists of distinct ids that occur in it are accepted; the selection is a valid plan with exactly those ids. |
| TidySelection.SelectionKeepsOrder | internal/reaper/tidy_operations.go:183-187 | The selection keeps the plan's order. |
| TidySelection.SelectionBindsThrough | internal/reaper/tidy_operations.go:138-142 | A result accepted for the selection is accepted for the whole plan. |
| TidySelection.AcceptedRowsAreASelection | internal/reaper/tidy.go:359-382 | Conversely, rows accepted for a plan name a selection of it and are accepted for that selection. |
| TidyNames.MatchKeyIsLetters | internal/reaper/tidy_survey.go:399-402 | Two names match exactly when they have the same letters and digits in lower case. |
| TidyNames.CaseKeepsLetters | internal/reaper/tidy_survey.go:441-476 | Each of the four cases keeps the letters and digits of an ASCII name. |
| TidyNames.CaseShapes | internal/reaper/tidy_survey.go:441-476 | Upper and lower case have no letters of the other; a sentence starts with a capital only; a title capitalizes the start of each word and has single separators between words. |
| TidyNames.ApplyTitleCase | internal/reaper/tidy_survey.go:453-474 | The separator, capital and join loops compute the title form, or abort on a section without words. |
| TidyNames.TitleAborts | internal/reaper/tidy_survey.go:453-455 | Title Case aborts exactly on values of spaces and hyphens only. |
| TidyNames.JoinersSuffice | internal/reaper/tidy_survey.go:453-471 | A value never has more words than joiners plus one, so the join loop stays within the separators. |
| TidyNames.GoodNamesNeverAbort | internal/reaper/tidy_survey.go:404-439 | No name makes the survey abort when every section holds a letter or digit. |
| TidyNames.HyphenSectionAborts | internal/reaper/tidy_survey.go:404-439 | With the section "-" in Title Case a marker named "5" makes the survey abort. |
| TidyNames.RenameKeepsLetters | internal/reaper/tidy_survey.go:404-439 | The canonical name has the same letters and digits as the name it replaces. |
| TidyNames.RecognisedNames | internal/reaper/tidy_survey.go:404-429 | A name is recognised if and only if, apart from the number at its end, its letters and digits are those of a section. |
| TidyNames.CanonicalIsStable | internal/reaper/tidy_survey.go:404-439 | Canonical names are fixed points, in all four cases and both numberings, for ASCII sections whose last letter or digit is a letter. |
| TidyNames.DigitSectionsShift | internal/reaper/tidy_survey.go:404-439 | With sections that end in digits it fails: the sections "a 1 1", "a 1" and "a" in lower case without a space rename "a-1-1-2" to "a 1 12", that to "a 112" and that to "a112". |
| TidyNames.CanonicalTidySectionName | internal/reaper/tidy_survey.go:404-439 | The scan for trailing digits and the search for a section compute the canonical name and whether it differs, and abort exactly when the section found has no words to capitalize. |
| TidyNames.CanonicalForm | internal/reaper/tidy_survey.go:404-439 | The canonical name is the first section with the letters of the name's base, in its case, alone or followed by the number: behind exactly one space when the conventions ask for it, directly otherwise. |
| TidyRoles.PaddedMatch | internal/reaper/tidy_survey.go:374-380 | Finding a space-padded phrase in space-padded text is finding its words in a row. |
| TidyRoles.KeywordFoundIsMatch | internal/reaper/tidy_survey.go:374-380 | A keyword matches a track name if and only if its words occur in a row among the words of the name. |
| TidyRoles.InferTidyTrackRole | internal/reaper/tidy_survey.go:369-397 | The loop over the roles gives the role of the conventions; RoleByPosition says which. |
| TidyRoles.RoleByPosition | internal/reaper/tidy_survey.go:385-396 | When exactly one position of the roles matches, its role is the answer. When exactly two match and the first is named "bus_fx", it is the second; when only the second is so named, the first. In all other cases there is none. |
| TidyMarkers.SortById | internal/reaper/tidy_survey.go:488-488 | Sorting a position's markers by id. |
| TidyMarkers.MarkPosition | internal/reaper/tidy_survey.go:487-521 | The markers of one position are marked exactly when they are duplicates, each with the id of its survivor, in whatever order the names are taken. |
| TidyMarkers.FindExactDuplicateMarkers | internal/reaper/tidy_survey.go:478-523 | Exactly the duplicates are marked, each with its survivor: the outcome does not depend on the iteration order of either map. |
| TidyMarkers.SurvivorStays | internal/reaper/tidy_survey.go:498-520 | The survivor of a duplicate is not deleted, is at the same position, and has the same name unless the duplicate had none. |
| TidyMarkers.NothingIsLost | internal/reaper/tidy_survey.go:478-523 | Deleting the duplicates keeps every (position, name) pair and every marked position. |
| TidyMarkers.WhatStays | internal/reaper/tidy_survey.go:498-520 | Exactly which markers stay: the first of each name, nameless ones beside two names, the first of a position without names. |
| TidySurvey.ValidateState | internal/reaper/tidy.go:180-224 | An inspected state is accepted if and only if it meets the bounds, its indices enumerate and its identities are distinct. |
| TidySurvey.SurveyTracks | internal/reaper/tidy_survey.go:297-316 | The track loop proposes a color for exactly the tracks whose role wants another one. |
| TidySurvey.SurveyNames | internal/reaper/tidy_survey.go:318-340 | The first marker loop proposes a rename for exactly the markers that stay and whose name is not canonical, and aborts exactly when one of them has a name that aborts. |
| TidySurvey.SurveyDuplicates | internal/reaper/tidy_survey.go:341-355 | The second marker loop proposes a deletion for exactly the duplicates, in favour of their survivors. |
| TidySurvey.GenerateTidySurvey | internal/reaper/tidy_survey.go:284-367 | The survey is refused for an invalid state, id or plan, aborts for a name that cannot be cased, says "already tidy" when there is nothing to propose, and else returns the plan with a line for each item. |
| TidySurvey.LinesTell | internal/reaper/tidy_survey.go:303-354 | A proposal with a plan has, for each item in order, a line with its id, wording and reason. |
| TidyApply.SurveyShaped | internal/reaper/tidy_survey.go:297-354 | From a valid state, with role colors in range and names that can be written, every proposed item has the shape its verb asks for. |
| TidySurvey.SurveyNeverAborts | internal/reaper/tidy_survey.go:284-367 | No survey aborts when every section holds a letter or digit. |
| TidyApply.GoneIsChosen | internal/reaper/tidy_applier.lua:484-503 | Run on the state it was made from, a selection of the plan deletes exactly the duplicates whose deletion is chosen: every guard holds. |
| TidyApply.SelectedRound | internal/reaper/tidy_operations.go:115-135 | Any selection of a survey's plan changes exactly the chosen colors and names and removes exactly the markers whose deletion is chosen. |
| TidyApply.NextColors | internal/reaper/tidy_operations.go:115-135 | The next survey proposes exactly the colors that were not chosen. |
| TidyApply.RenamedSurvivorFrees | internal/reaper/tidy_operations.go:115-135 | For markers it need not: choosing only the rename of a survivor turns the deletion left out into a rename. |
| TidyApply.Round | internal/reaper/tidy_applier.lua:446-518 | The whole plan leaves exactly the markers that are no duplicates, under their tidy names and enumerated anew, and gives every recognised track its role's color. |
| TidyLater.SurvivorNeverGoes | internal/reaper/tidy_applier.lua:484-503 | On any state a survivor that an item of the survey names is deleted by none of its items. |
| TidyLater.LaterPositions | internal/reaper/tidy_applier.lua:484-503 | Run on any later state, a selection of the survey's plan leaves a marker at every marked position. |
| TidyLater.LaterNames | internal/reaper/tidy_applier.lua:484-503 | Run on any later state, its deletions keep every name at its position if and only if each name whose survivor was cleared meanwhile is held there by another marker that stays. |
| TidyLater.ClearedNameIsLost | internal/reaper/tidy_applier.lua:496-496 | When the survivor of two equally named markers loses its name first, the deletion passes its guard and the position has no name left. |
| TidyConvergence.NewDuplicates | internal/reaper/tidy_survey.go:318-355 | A round leaves new duplicates if and only if two markers that stay at one position get the same name from different ones. |
| TidyConvergence.OneRoundSuffices | internal/reaper/tidy_survey.go:284-367 | After one round the survey proposes nothing if and only if no renames at one position clash. |
| TidyConvergence.RoundStaysValid | internal/reaper/tidy_survey.go:284-367 | A round within the plan bounds leaves a state that can be surveyed again. |
| TidyConvergence.OneRoundConverges | internal/reaper/tidy_survey.go:357-361 | A survey after one applied survey answers "already tidy" if and only if no renames at one position clash. |
| TidyConvergence.TwoRoundsConverge | internal/reaper/tidy_survey.go:357-361 | Two applied surveys within the plan bounds are always followed by "already tidy". |
| TidyConvergence.TwoRoundsNeedNotSettle | internal/reaper/tidy_survey.go:357-361 | With those sections and a marker of that name, two applied surveys are not followed by "already tidy". |
| TidyConvergence.TargetsNeverCollide | internal/reaper/tidy_survey.go:318-355 | No two proposed items change the same track, marker or region. |
| TidyArtifacts.FileNamesDistinct | internal/reaper/tidy_artifacts.go:346-356 | Different artifacts have different file names, whatever the ids. |
| TidyArtifacts.ValidateRecord | internal/reaper/tidy_artifacts.go:254-288 | A proposal record is accepted if and only if its names, status fields and lines are consistent. |
| TidyArtifacts.TidyReportOutcome | internal/reaper/tidy_reports.go:100-122 | The counters give the outcome by which statuses occur. |
| TidyArtifacts.OutcomeByRows | internal/reaper/tidy_reports.go:100-122 | The four outcomes by the statuses of the rows. |
| TidyArtifacts.StatusByRows | internal/reaper/tidy_reports.go:83-90 | A proposal becomes applied if some row was applied, skipped if none was applied, none failed and some was skipped, and failed otherwise. |
| TidyArtifacts.ValidateReport | internal/reaper/tidy_reports.go:124-146 | A report record is accepted if and only if its fields, its result and its outcome are consistent. |
| TidyStore.BeforeTotal | internal/reaper/tidy_artifacts.go:358-363 | Records with different ids are in order one way round and only one. |
| TidyStore.BeforeTransitive | internal/reaper/tidy_artifacts.go:358-363 | The order of records is transitive. |
| TidyArtifactStore.LatestIsMadeLast | internal/reaper/tidy_artifacts.go:358-363 | A record is the latest if and only if none was created later and, among those created at the same time, none has a greater id. |
| TidyArtifactStore.NewestMeans | internal/reaper/tidy_artifacts.go:75-79 | A new proposal is newest if and only if every record has another id and was created earlier, or at the same time with a smaller id. |
| TidyArtifactStore.LaterIsAcceptable | internal/reaper/tidy_artifacts.go:75-79 | A proposal created after every record is never refused for its time. |
| TidyStore.SurveyIsWritable | internal/reaper/tidy_artifacts.go:135-157 | What a survey proposes passes the store's validation as long as its lines are neither blank nor too long. |
| TidyStore.NewRecordValid | internal/reaper/tidy_artifacts.go:92-103 | The record of a valid proposal is valid, so that only its size can keep it from being written. |
| TidyStore.MovedValid | internal/reaper/tidy_artifacts.go:122-128 | An open record stays valid under each status it can move to. |
| TidyArtifactStore.TidyArtifactStore.ReadProposal | internal/reaper/tidy_artifacts.go:179-188 | A proposal is read if and only if its record, summary and plan can be read and agree. |
| TidyArtifactStore.TidyArtifactStore.LoadRecordArtifacts | internal/reaper/tidy_artifacts.go:294-318 | The loop accepts exactly plans whose ids and reasons agree with the record. |
| TidyArtifactStore.TidyArtifactStore.ListRecords | internal/reaper/tidy_artifacts.go:213-240 | All records, or none when one of them cannot be read. |
| TidyArtifactStore.TidyArtifactStore.LatestProposal | internal/reaper/tidy_artifacts.go:159-169 | The record created last, with the greatest id among those of its time; none when a record cannot be read. |
| TidyArtifactStore.TidyArtifactStore.OpenProposal | internal/reaper/tidy_artifacts.go:171-177 | The latest proposal if it is open, and never an older one. |
| TidyArtifactStore.TidyArtifactStore.WriteProposal | internal/reaper/tidy_artifacts.go:64-133 | Whatever write fails, the files are those before the call with a prefix of: plan, summary, record, then superseded records. The call succeeds if and only if the proposal is acceptable, everything fits, every open record can give way, and there are as many writes as that takes; the records stay named after their ids. |
| TidyArtifactStore.TidyArtifactStore.SupersedeAll | internal/reaper/tidy_artifacts.go:122-131 | Some open records have given way, one write each, and nothing else changed: all of them when the loop completes, and otherwise it stopped at an open record that no write could change. |
| TidyArtifactStore.TidyArtifactStore.DismissProposal | internal/reaper/tidy_artifacts.go:190-197 | A proposal is dismissed, with one write, if and only if it is readable, open and its record fits, and a write is left; nothing else changes. |
| TidyArtifactStore.TidyArtifactStore.WriteApplyReport | internal/reaper/tidy_reports.go:41-98 | Whatever write fails, the files are those before with a prefix of: result, text, the proposal's new status, report record. The call succeeds if and only if the report matches an open proposal, none of its files is there, everything fits and four writes are left; the records stay named after their ids. |
| TidyArtifactStore.TidyArtifactStore.ReadApplyReport | internal/reaper/tidy_reports.go:160-172 | A report is read if and only if its record, result and text can be read and agree. |
| TidyLifecycle.ProposedAdvances | internal/reaper/tidy_artifacts.go:90-133 | Wherever WriteProposal stops, files already there keep their content and new records are complete. |
| TidyLifecycle.ReportedAdvances | internal/reaper/tidy_reports.go:68-97 | Wherever WriteApplyReport stops, files already there keep their content and a new report record is complete. |
| TidyLifecycle.StoppedProposalIsFound | internal/reaper/tidy_artifacts.go:60-63 | Even when WriteProposal stops while older proposals give way, the latest record is the new one and loads with its plan and summary. |
| TidyLifecycle.RunStaysCommitted | internal/reaper/tidy_artifacts.go:60-63 | Crash safety: after any run of operations, each stopped after any of its writes, every proposal record loads, and every report record has an agreeing result and text, a proposal with the status of its outcome, and rows that answer the plan. |
| TidyLifecycle.StatusMovesOnce | internal/reaper/tidy_artifacts.go:122-131 | Over any run a record leaves "open" at most once and never changes afterwards. |
| TidyLifecycle.NewestAndOnlyOpen | internal/reaper/tidy_artifacts.go:75-79 | After every completed WriteProposal, also one after a crash, no record was created later than the new one (or at its time with a greater id), and no other is open. |
| TidyLifecycle.ProposedStatuses | internal/reaper/tidy_artifacts.go:102-131 | After a completed proposal its record is open, or says that nothing is to do; every record that was open is superseded by it, and every other is as it was. |
| TidyLifecycle.DismissedStatus | internal/reaper/tidy_artifacts.go:190-197 | A dismissed record was open and says so now; nothing else changed. |
| TidyLifecycle.ReportedStatus | internal/reaper/tidy_reports.go:68-97 | After a completed report the proposal's status and the report's outcome are those that the row statuses give. |
| TidyLifecycle.WhenReportable | internal/reaper/tidy_reports.go:45-67 | An open proposal that loads with its plan can be reported if and only if none of its report's three files is there. |
| TidyLifecycle.StoppedReportBlocks | internal/reaper/tidy_reports.go:63-85 | A report that stops after its result or its text leaves the proposal open, and no other report of it is accepted. |
| TidyLifecycle.StaysBlocked | internal/reaper/tidy_reports.go:63-67 | Over any run this stays so. |

## Left out

- StudioFiles.WalkStudioSource: on a tree beyond the item limit of 100000 it is only shown to cut its page from a prefix of the events, because the code stops there without a cursor; context cancellation is not modelled.
- StudioFiles.StudioWalker.Visit: names are taken as already in NFC, and the entry's size as given; the decorator and the display name are not modelled.
- StudioDirectory.ReadStudioDirectory: a failing later read ends the listing, as in the original; the real file system, links swapped during the walk and permissions are not modelled.
- StudioInventory.ReadInventory: beyond the item limit it promises a page of some prefix, as the walk does; how many registrations lie outside every source is a parameter.
- StudioCursor.DecodeStudioCursor: the tests for valid UTF-8 and plain text are one parameter.
- StudioLive.LivePagesGlueTogether: speaks of the protocol that reports an entry too large; StudioLive.LiveListStops covers the live answers, whose counts are stated for entries that fit only. Reading and matching of the plugin rows is a parameter.
- TrackEdits.UndoRestoresExactly: REAPER's own meaning of the commands (clamping of a reorder target, which names it accepts) is the interpreter's; values of toggles and colors are integers. The white space around a receipt's outcome and numbers is that of ASCII; the scripts write none.
- UndoSlots.UndoAfterEdit: concurrent calls are modelled as a sequence, as the mutex makes them; whether the script ran and whether its receipt was read is the parameter `Answers`; a script that starts only after its call gave up is not modelled.
- ScriptLibrary.FrontmatterRoundTrip: white space and case of header keys are those of ASCII; file names, size limits of files and the library's file operations are not modelled.
- StrictJson.WalkDecides: works on tokens; the tokenizer itself is not modelled.
- TidyNames.CanonicalIsStable: asks that the last letter or digit of every ASCII section is a letter, which is weaker than asking for a letter and no digit (TidyNames.DigitSectionsShift shows what happens otherwise); non-ASCII sections are left to the Unicode tables.
- TidyMarkers.FindExactDuplicateMarkers: positions are real numbers, so the two zeros of floating point are one position, as they are as map keys.
- TidySurvey.GenerateTidySurvey: the wording of a display line is a parameter; item ids made from track GUIDs that differ only in the case of letters coincide, and such a plan is refused, as in the original.
- TidyApply.Round: the applier is a Lua program; only the meaning of its four verbs and their guards is modelled. Its checks of the open project and its failure reports are not.
- TidyArtifactStore.TidyArtifactStore.WriteProposal: files hold values instead of JSON text, with a size as parameter; a file that holds a value of another kind counts as unreadable; the store is asked to name record files after their ids, which every operation keeps.
- TidyArtifactStore.TidyArtifactStore.WriteApplyReport: the text for people is a parameter followed by the undo sentence.
- Several processes that share one artifact store.
- Parsing of conventions.md, owner folders, installation ids, state ladders, manifests, blueprints, probes, the HTTP client and the user interface: single-branch facts or I/O.
