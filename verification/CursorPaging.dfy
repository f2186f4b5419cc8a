/** Pages linked by cursor text: each call decodes the cursor the previous page named, scans the
    events behind that id and encodes the last id it lists
    (internal/reaper/studio.go, internal/reaper/studio_files.go, internal/reaper/studio_live.go). */
module CursorPaging {
  import opened Text
  import opened Paging
  import opened StudioCursor

  /** The events a source scans behind an id; behind "" it scans everything. */
  type Source = string -> seq<Event>

  datatype StudioPage = StudioPage(entries: seq<Entry>, nextCursor: string, coverage: Tally)

  datatype Response = Listing(page: StudioPage) | CursorReset | EntryTooLarge

  function Encoded(page: Page): StudioPage {
    StudioPage(page.entries, if page.next.None? then "" else EncodedCursor(page.next.value), page.coverage)
  }

  function Report(page: Option<Page>): Response {
    match page
    case None => EntryTooLarge
    case Some(p) => Listing(Encoded(p))
  }

  function Respond(source: Source, cursor: string, limit: nat, budget: int, text: string -> bool): Response {
    match DecodedCursor(cursor, text)
    case None => CursorReset
    case Some(id) => Report(PageOf(source(id), limit, budget))
  }

  predicate Lists(evs: seq<Event>, id: string) {
    exists i :: 0 <= i < |evs| && evs[i].Show? && evs[i].entry.nativeId == id
  }

  /** What gluing needs of a source: no id is listed twice, every listed id can be emitted, and
      behind a listed id lies exactly what follows it. */
  ghost predicate Resumable(source: Source, text: string -> bool) {
    && DistinctIds(Shown(source("")))
    && (forall e :: e in Shown(source("")) ==> EmitAble(e.nativeId, text))
    && (forall id :: Lists(source(""), id) ==> source(id) == After(source(""), id))
  }

  /** Pages read by passing each page's cursor to the next call, until a page names none. */
  ghost predicate FollowsCursors(source: Source, cursor: string, limit: nat, budget: int,
                                 text: string -> bool, pages: seq<StudioPage>)
    decreases |pages|
  {
    && pages != []
    && Respond(source, cursor, limit, budget, text) == Listing(pages[0])
    && if pages[0].nextCursor == "" then |pages| == 1
       else FollowsCursors(source, pages[0].nextCursor, limit, budget, text, pages[1..])
  }

  function EncodedPages(pages: seq<Page>): seq<StudioPage> {
    if pages == [] then [] else [Encoded(pages[0])] + EncodedPages(pages[1..])
  }

  function Entries(pages: seq<StudioPage>): seq<Entry> {
    if pages == [] then [] else pages[0].entries + Entries(pages[1..])
  }

  function Coverage(pages: seq<StudioPage>): Tally {
    if pages == [] then Nothing() else pages[0].coverage.Plus(Coverage(pages[1..]))
  }

  lemma {:induction false} EncodedSums(pages: seq<Page>)
    ensures |EncodedPages(pages)| == |pages|
    ensures Entries(EncodedPages(pages)) == AllEntries(pages)
    ensures Coverage(EncodedPages(pages)) == SumCoverage(pages)
  {
    if pages != [] {
      EncodedSums(pages[1..]);
      assert EncodedPages(pages)[1..] == EncodedPages(pages[1..]);
    }
  }

  /** `evs` is what remains of the source behind `cursor`, after the part `before` that earlier
      pages covered. */
  ghost predicate Behind(source: Source, before: seq<Event>, evs: seq<Event>, cursor: string, text: string -> bool) {
    && source("") == before + evs
    && DecodedCursor(cursor, text).Some?
    && source(DecodedCursor(cursor, text).value) == evs
  }

  lemma LastIsListed(before: seq<Event>, covered: seq<Event>, rest: seq<Event>)
    requires covered != [] && covered[|covered| - 1].Show?
    ensures var all, show := before + (covered + rest), covered[|covered| - 1];
            && Lists(all, show.entry.nativeId) && show.entry in Shown(all)
            && all == (before + covered) + rest && (before + covered)[|before + covered| - 1] == show
  {
    var all, k := before + (covered + rest), |before| + |covered| - 1;
    assert all[k] == covered[|covered| - 1];
    ShownMember(all, k);
  }

  lemma NextBehind(source: Source, before: seq<Event>, covered: seq<Event>, rest: seq<Event>, text: string -> bool)
    requires Resumable(source, text)
    requires source("") == before + (covered + rest)
    requires covered != [] && covered[|covered| - 1].Show?
    ensures var next := EncodedCursor(covered[|covered| - 1].entry.nativeId);
            && (|next| <= MAX_CURSOR_BYTES <==> DecodedCursor(next, text).Some?)
            && (|next| <= MAX_CURSOR_BYTES ==> Behind(source, before + covered, rest, next, text))
  {
    LastIsListed(before, covered, rest);
    CursorRoundTrip(covered[|covered| - 1].entry.nativeId, text);
    ResumesAtCut(before + covered, rest);
  }

  lemma DistinctBehind(source: Source, before: seq<Event>, evs: seq<Event>, text: string -> bool)
    requires Resumable(source, text) && source("") == before + evs
    ensures DistinctIds(Shown(evs))
  {
    ShownAppend(before, evs);
    DistinctTail(Shown(before), Shown(evs));
  }

  lemma {:induction false} FollowedChain(source: Source, before: seq<Event>, evs: seq<Event>, cursor: string,
                                         limit: nat, budget: int, text: string -> bool, pages: seq<StudioPage>)
    returns (chain: seq<Page>)
    requires Resumable(source, text) && limit >= 1 && budget >= 1
    requires Behind(source, before, evs, cursor, text)
    requires FollowsCursors(source, cursor, limit, budget, text, pages)
    ensures Chain(evs, limit, budget, chain) && pages == EncodedPages(chain)
    decreases |pages|
  {
    var covered, rest := PageShape(evs, limit, budget);
    var page := PageOf(evs, limit, budget).value;
    var more := pages[1..];
    assert pages == [Encoded(page)] + more;
    if page.next.None? {
      chain := [page];
    } else {
      NextBehind(source, before, covered, rest, text);
      DistinctBehind(source, before, evs, text);
      ResumesAtCut(covered, rest);
      var tail := FollowedChain(source, before + covered, rest, pages[0].nextCursor, limit, budget, text, more);
      chain := [page] + tail;
      assert chain[1..] == tail;
    }
  }

  ghost predicate CursorsFit(pages: seq<Page>) {
    forall page :: page in pages && page.next.Some? ==> |EncodedCursor(page.next.value)| <= MAX_CURSOR_BYTES
  }

  lemma {:induction false} ChainFollows(source: Source, before: seq<Event>, evs: seq<Event>, cursor: string,
                                        limit: nat, budget: int, text: string -> bool, chain: seq<Page>)
    requires Resumable(source, text) && limit >= 1 && budget >= 1
    requires Behind(source, before, evs, cursor, text)
    requires Chain(evs, limit, budget, chain)
    ensures FollowsCursors(source, cursor, limit, budget, text, EncodedPages(chain)) <==> CursorsFit(chain)
    decreases |chain|
  {
    var covered, rest := PageShape(evs, limit, budget);
    var page, tail := chain[0], chain[1..];
    assert chain == [page] + tail;
    assert EncodedPages(chain) == [Encoded(page)] + EncodedPages(tail);
    assert EncodedPages(chain)[1..] == EncodedPages(tail);
    if page.next.None? {
      EncodedSums(chain);
    } else {
      NextBehind(source, before, covered, rest, text);
      DistinctBehind(source, before, evs, text);
      ResumesAtCut(covered, rest);
      if |EncodedCursor(page.next.value)| <= MAX_CURSOR_BYTES {
        ChainFollows(source, before + covered, rest, Encoded(page).nextCursor, limit, budget, text, tail);
      }
    }
  }

  /** Following cursors from the first page to the last gives every entry once and in order, each
      page as long as fits; the coverage counts of the pages add up to those of one unbounded scan,
      reason by reason; and there are at most max(1, entries) pages. */
  lemma PagesGlueTogether(source: Source, limit: nat, budget: int, text: string -> bool, pages: seq<StudioPage>)
    returns (chain: seq<Page>)
    requires Resumable(source, text) && limit >= 1 && budget >= 1
    requires FollowsCursors(source, "", limit, budget, text, pages)
    ensures var whole := source("");
            && Entries(pages) == Shown(whole)
            && Coverage(pages) == Total(whole)
            && |pages| <= (if Shown(whole) == [] then 1 else |Shown(whole)|)
            && pages == EncodedPages(chain) && GreedyPages(Shown(whole), chain, limit, budget)
  {
    var whole := source("");
    assert whole[..0] + whole == whole;
    chain := FollowedChain(source, whole[..0], whole, "", limit, budget, text, pages);
    ChainCoversAll(whole, limit, budget, chain);
    EncodedSums(chain);
  }

  ghost predicate ReadableToTheEnd(source: Source, limit: nat, budget: int, text: string -> bool) {
    exists pages: seq<StudioPage> :: FollowsCursors(source, "", limit, budget, text, pages)
  }

  /* ---- When a listing can be read to its end ---- */

  predicate ShortCursor(e: Entry) {
    |EncodedCursor(e.nativeId)| <= MAX_CURSOR_BYTES
  }

  /** Cut greedily, no page but the last is empty or ends at an entry with too long a cursor. */
  predicate CutsAtShortCursors(entries: seq<Entry>, limit: nat, budget: int)
    decreases |entries|
  {
    var n := FirstPage(entries, limit, budget);
    n == |entries| || (n > 0 && ShortCursor(entries[n - 1]) && CutsAtShortCursors(entries[n..], limit, budget))
  }

  /** Every entry but the last has a cursor that is honoured. */
  ghost predicate ShortCursors(entries: seq<Entry>) {
    forall i :: 0 <= i < |entries| - 1 ==> ShortCursor(entries[i])
  }

  lemma {:induction false} ChainCuts(evs: seq<Event>, limit: nat, budget: int, chain: seq<Page>)
    requires limit >= 1 && budget >= 1 && DistinctIds(Shown(evs)) && Chain(evs, limit, budget, chain)
    ensures CursorsFit(chain) <==> CutsAtShortCursors(Shown(evs), limit, budget)
    decreases |chain|
  {
    var covered, rest := PageShape(evs, limit, budget);
    var page, tail := chain[0], chain[1..];
    assert chain == [page] + tail;
    LongestIsFirstPage(page.entries, Shown(evs), limit, budget);
    if page.next.Some? {
      ShownAppend(covered, rest);
      LastShown(covered);
      ResumesAtCut(covered, rest);
      ChainCuts(rest, limit, budget, tail);
      var n := |page.entries|;
      assert Shown(evs)[n..] == Shown(rest) && Shown(evs)[n - 1].nativeId == page.next.value;
      assert CursorsFit(chain) <==> ShortCursor(Shown(evs)[n - 1]) && CursorsFit(tail);
    } else {
      assert covered == evs;
    }
  }

  lemma {:induction false} CutsFitBudget(entries: seq<Entry>, limit: nat, budget: int)
    requires budget >= 0 && CutsAtShortCursors(entries, limit, budget)
    ensures EachFits(entries, budget)
    decreases |entries|
  {
    var n := FirstPage(entries, limit, budget);
    FirstPageStops(entries, limit, budget);
    FitsEach(entries[..n], budget);
    assert entries == entries[..n] + entries[n..];
    if n < |entries| {
      CutsFitBudget(entries[n..], limit, budget);
    }
  }

  /** The listing can be read to its end exactly when its greedy cuts fall at short cursors. */
  lemma WhenPagingReachesTheEnd(source: Source, limit: nat, budget: int, text: string -> bool)
    requires Resumable(source, text) && limit >= 1 && budget >= 1
    ensures ReadableToTheEnd(source, limit, budget, text) <==> CutsAtShortCursors(Shown(source("")), limit, budget)
  {
    var whole := source("");
    assert whole[..0] + whole == whole;
    if ReadableToTheEnd(source, limit, budget, text) {
      var pages: seq<StudioPage> :| FollowsCursors(source, "", limit, budget, text, pages);
      var chain := FollowedChain(source, whole[..0], whole, "", limit, budget, text, pages);
      ChainFollows(source, whole[..0], whole, "", limit, budget, text, chain);
      ChainCuts(whole, limit, budget, chain);
    }
    if CutsAtShortCursors(Shown(whole), limit, budget) {
      CutsFitBudget(Shown(whole), limit, budget);
      var chain := BuildChain(whole, limit, budget);
      ChainCuts(whole, limit, budget, chain);
      ChainFollows(source, whole[..0], whole, "", limit, budget, text, chain);
    }
  }

  lemma {:induction false} CutsAnywhere(entries: seq<Entry>, limit: nat, budget: int)
    requires limit >= 1 && EachFits(entries, budget) && ShortCursors(entries)
    ensures CutsAtShortCursors(entries, limit, budget)
    decreases |entries|
  {
    var n := FirstPage(entries, limit, budget);
    if n < |entries| {
      assert entries[0] in entries;
      CutsAnywhere(entries[n..], limit, budget);
    }
  }

  lemma {:induction false} CutsEverywhere(entries: seq<Entry>, budget: int)
    requires CutsAtShortCursors(entries, 1, budget)
    ensures ShortCursors(entries)
    decreases |entries|
  {
    if FirstPage(entries, 1, budget) < |entries| {
      CutsEverywhere(entries[1..], budget);
      assert forall i :: 1 <= i < |entries| ==> entries[i] == entries[1..][i - 1];
    }
  }

  /** The listing can be read to its end whatever the limit exactly when every entry fits a page on its
      own and every id but the last has a cursor that is honoured. */
  lemma ReadableAtEveryLimit(source: Source, budget: int, text: string -> bool)
    requires Resumable(source, text) && budget >= 1
    ensures (forall limit: nat :: limit >= 1 ==> ReadableToTheEnd(source, limit, budget, text))
            <==> EachFits(Shown(source("")), budget) && ShortCursors(Shown(source("")))
  {
    var shown := Shown(source(""));
    if forall limit: nat :: limit >= 1 ==> ReadableToTheEnd(source, limit, budget, text) {
      assert ReadableToTheEnd(source, 1, budget, text);
      WhenPagingReachesTheEnd(source, 1, budget, text);
      CutsFitBudget(shown, 1, budget);
      CutsEverywhere(shown, budget);
    }
    if EachFits(shown, budget) && ShortCursors(shown) {
      forall limit: nat | limit >= 1 ensures ReadableToTheEnd(source, limit, budget, text) {
        CutsAnywhere(shown, limit, budget);
        WhenPagingReachesTheEnd(source, limit, budget, text);
      }
    }
  }
}
