/** Catalog pages of a file source end to end (internal/reaper/studio.go, internal/reaper/studio_files.go). */
module StudioInventory {
  import opened Text
  import opened Paging
  import opened CursorPaging
  import opened StudioCursor
  import opened StudioFiles
  import StudioResume
  import StudioReach

  /** The walk of one source folder. */
  function FileSource(root: Folder): Source {
    id => EventsAfter(root, id)
  }

  /** The registrations outside every source, `external` of them, are skips of the first page. */
  function ExternalSkips(cursor: string, result: Response, external: nat): nat {
    if cursor == "" && result.Listing? then external else 0
  }

  /** One inventory call: decode the cursor, walk the source behind it. `external` is 0 for any source but
      REAPER's own scripts. */
  method ReadInventory(root: Folder, cursor: string, limit: nat, budget: int, text: string -> bool, external: nat)
    returns (result: Response, skipped: nat)
    requires 1 <= limit <= MAX_PAGE_ENTRIES && budget >= 1
    ensures Items(root.children) <= WALK_ITEM_LIMIT ==>
              result == Respond(FileSource(root), cursor, limit, budget, text)
    ensures DecodedCursor(cursor, text).None? ==> result == CursorReset
    ensures DecodedCursor(cursor, text).Some? ==>
              exists seen: seq<Event> :: seen <= FileSource(root)(DecodedCursor(cursor, text).value)
                                         && result == Report(PageOf(seen, limit, budget))
    ensures skipped == ExternalSkips(cursor, result, external)
  {
    skipped := 0;
    var id := DecodeStudioCursor(cursor, text);
    match id
    case None => result := CursorReset;
    case Some(after) =>
      var walked := WalkStudioSource(root, after, limit, budget);
      match walked
      case Walked(response) =>
        result := response;
        if after == "" && external > 0 && response.Listing? {
          skipped := external;
        }
      case InvalidWalk => assert false;
  }

  /** The external skips over all pages. */
  function ExternalTotal(cursor: string, pages: seq<StudioPage>, external: nat): nat
    decreases |pages|
  {
    if pages == [] then 0
    else ExternalSkips(cursor, Listing(pages[0]), external) + ExternalTotal(pages[0].nextCursor, pages[1..], external)
  }

  lemma {:induction false} NoExternalBehind(source: Source, cursor: string, limit: nat, budget: int,
                                            text: string -> bool, pages: seq<StudioPage>, external: nat)
    requires FollowsCursors(source, cursor, limit, budget, text, pages) && cursor != ""
    ensures ExternalTotal(cursor, pages, external) == 0
    decreases |pages|
  {
    if pages[0].nextCursor != "" {
      NoExternalBehind(source, pages[0].nextCursor, limit, budget, text, pages[1..], external);
    }
  }

  /** Pages that follow the cursors count every external registration once. */
  lemma ExternalCountedOnce(source: Source, limit: nat, budget: int, text: string -> bool, pages: seq<StudioPage>,
                            external: nat)
    requires FollowsCursors(source, "", limit, budget, text, pages)
    ensures ExternalTotal("", pages, external) == external
  {
    if pages[0].nextCursor != "" {
      NoExternalBehind(source, pages[0].nextCursor, limit, budget, text, pages[1..], external);
    }
  }

  /** studioFileEntry lets through only ids that can be emitted. */
  ghost predicate EmitsValidIds(root: Folder, text: string -> bool) {
    forall e :: e in Shown(SourceEvents(root)) ==> EmitAble(e.nativeId, text)
  }

  lemma FilesAreResumable(root: Folder, text: string -> bool)
    requires WellFormed(root) && EmitsValidIds(root, text)
    ensures Resumable(FileSource(root), text)
    ensures FileSource(root)("") == SourceEvents(root)
  {
    StudioResume.WalkIncreasing(root);
    StudioResume.IdsDistinct(SourceEvents(root));
    forall id | Lists(SourceEvents(root), id)
      ensures EventsAfter(root, id) == After(SourceEvents(root), id)
    {
      StudioResume.ResumeIsAfter(root, id);
    }
  }

  /** Pages of a source folder glue together to the unbounded walk: its entries once each and in
      order, its coverage counts exactly, every page but the last as long as fits. */
  lemma FilePagesGlueTogether(root: Folder, limit: nat, budget: int, text: string -> bool, pages: seq<StudioPage>)
    returns (chain: seq<Page>)
    requires WellFormed(root) && EmitsValidIds(root, text) && limit >= 1 && budget >= 1
    requires FollowsCursors(FileSource(root), "", limit, budget, text, pages)
    ensures var whole := SourceEvents(root);
            && Entries(pages) == Shown(whole)
            && Coverage(pages) == Total(whole)
            && |pages| <= (if Shown(whole) == [] then 1 else |Shown(whole)|)
            && pages == EncodedPages(chain) && GreedyPages(Shown(whole), chain, limit, budget)
  {
    FilesAreResumable(root, text);
    chain := PagesGlueTogether(FileSource(root), limit, budget, text, pages);
  }

  /** Pages that follow the cursors list exactly the files of the tree that show, and count each name that the tree
      has in reach once, under the reason of its kind. */
  lemma FilePagesReach(root: Folder, limit: nat, budget: int, text: string -> bool, pages: seq<StudioPage>)
    returns (spots: seq<StudioReach.Spot>)
    requires WellFormed(root) && EmitsValidIds(root, text) && limit >= 1 && budget >= 1
    requires FollowsCursors(FileSource(root), "", limit, budget, text, pages)
    ensures StudioReach.Enumerates(spots, root)
    ensures forall e :: e in Entries(pages) <==> StudioReach.InTree(root, e)
    ensures Coverage(pages) == StudioReach.CountOf(spots, 0).Plus(StudioReach.RootCount(root))
  {
    var chain := FilePagesGlueTogether(root, limit, budget, text, pages);
    spots := StudioReach.WalkReaches(root, SourceEvents(root));
  }

  /** Paging of a source folder ends exactly when its greedy cuts fall at short cursors. */
  lemma WhenFilePagingEnds(root: Folder, limit: nat, budget: int, text: string -> bool)
    requires WellFormed(root) && EmitsValidIds(root, text) && limit >= 1 && budget >= 1
    ensures ReadableToTheEnd(FileSource(root), limit, budget, text)
            <==> CutsAtShortCursors(Shown(SourceEvents(root)), limit, budget)
  {
    FilesAreResumable(root, text);
    WhenPagingReachesTheEnd(FileSource(root), limit, budget, text);
  }

  /** Whatever the limit, paging of a source folder ends exactly when each of its entries fits a page on its
      own and every id but the last has a cursor that is honoured. */
  lemma FilePagingEndsAtEveryLimit(root: Folder, budget: int, text: string -> bool)
    requires WellFormed(root) && EmitsValidIds(root, text) && budget >= 1
    ensures (forall limit: nat :: limit >= 1 ==> ReadableToTheEnd(FileSource(root), limit, budget, text))
            <==> EachFits(Shown(SourceEvents(root)), budget) && ShortCursors(Shown(SourceEvents(root)))
  {
    FilesAreResumable(root, text);
    ReadableAtEveryLimit(FileSource(root), budget, text);
  }

  /** Ids of at most 168 bytes are enough. */
  lemma ShortIdsCanBePaged(root: Folder, limit: nat, budget: int, text: string -> bool)
    requires WellFormed(root) && EmitsValidIds(root, text) && limit >= 1 && budget >= 1
    requires forall e :: e in Shown(SourceEvents(root)) ==> e.bytes <= budget && |e.nativeId| <= 168
    ensures ReadableToTheEnd(FileSource(root), limit, budget, text)
  {
    var shown := Shown(SourceEvents(root));
    forall i | 0 <= i < |shown| - 1 ensures ShortCursor(shown[i]) {
      assert shown[i] in shown;
      CursorRoundTrip(shown[i].nativeId, text);
    }
    FilePagingEndsAtEveryLimit(root, budget, text);
  }

  /* ---- A folder that cannot be read to its end ---- */

  /** The letter U+00E9 in UTF-8, 85 times. */
  function LongStem(): string {
    seq(170, i => if i % 2 == 0 then 0xC3 as char else 0xA9 as char)
  }

  function LongNames(): Folder {
    Folder(true, [Child(LongStem() + ".lua", File(true, true, Some(1))),
                  Child(LongStem() + "2.lua", File(true, true, Some(1)))], 0)
  }

  lemma {:induction false} LessBehind(start: string, a: string, b: string)
    ensures Less(start + a, start + b) <==> Less(a, b)
  {
    if start == "" {
      assert start + a == a && start + b == b;
    } else {
      LessBehind(start[1..], a, b);
      assert (start + a)[1..] == start[1..] + a && (start + b)[1..] == start[1..] + b;
    }
  }

  lemma {:induction false} EscapedAtLeast(a: string, b: string)
    requires forall i :: 0 <= i < |a| ==> !Kept(a[i])
    ensures EscapedCount(a + b) >= |a|
  {
    if a != "" {
      EscapedAtLeast(a[1..], b);
      assert (a + b)[1..] == a[1..] + b;
    }
  }

  lemma OneFile(child: Child, rest: seq<Child>)
    requires child.node == File(true, true, Some(1)) && !HasPrefix(child.name, ".")
    ensures ListEvents([child] + rest, "", 1) == [Show(Entry(child.name, 1))] + ListEvents(rest, "", 1)
  {
    var children := [child] + rest;
    assert children[0] == child && children[1..] == rest;
    assert "" + child.name == child.name;
  }

  lemma TwoShown(a: Event, b: Event)
    requires a.Show? && b.Show?
    ensures Shown([a] + [b]) == [a.entry, b.entry]
  {
    ShownAppend([a], [b]);
  }

  lemma LongNamesShown()
    ensures WellFormed(LongNames())
    ensures Shown(SourceEvents(LongNames())) == [Entry(LongStem() + ".lua", 1), Entry(LongStem() + "2.lua", 1)]
  {
    var children := LongNames().children;
    LessBehind(LongStem(), ".lua", "2.lua");
    var none := children[2..];
    assert children == [children[0]] + ([children[1]] + none);
    OneFile(children[0], [children[1]] + none);
    OneFile(children[1], none);
    TwoShown(Show(Entry(children[0].name, 1)), Show(Entry(children[1].name, 1)));
  }

  /** Two script names of 174 and 175 bytes whose first page of one entry names a cursor that the next call
      refuses, so the second script is never listed. */
  lemma LongNamesStopPaging(budget: int, text: string -> bool)
    requires budget >= 1 && text(LongStem() + ".lua") && text(LongStem() + "2.lua")
    ensures WellFormed(LongNames()) && EmitsValidIds(LongNames(), text)
    ensures EachFits(Shown(SourceEvents(LongNames())), budget)
    ensures !ReadableToTheEnd(FileSource(LongNames()), 1, budget, text)
  {
    LongNamesShown();
    LongCursor(text);
    WhenFilePagingEnds(LongNames(), 1, budget, text);
  }

  lemma LongCursor(text: string -> bool)
    requires text(LongStem() + ".lua") && text(LongStem() + "2.lua")
    ensures EmitAble(LongStem() + ".lua", text) && EmitAble(LongStem() + "2.lua", text)
    ensures !ShortCursor(Entry(LongStem() + ".lua", 1))
  {
    EscapedAtLeast(LongStem(), ".lua");
    CursorRoundTrip(LongStem() + ".lua", text);
  }
}
