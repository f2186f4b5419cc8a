/** Cursors that pass over items: behind a listed id the source resumes some items later than it
    should, and those items are counted on no page (internal/reaper/studio_live.go). */
module LossyPaging {
  import opened Text
  import opened Paging
  import opened CursorPaging
  import opened StudioCursor

  /** How many items a cursor passes over, for each listed id. */
  type Loss = string -> nat

  /** Items that are counted as unsupported and list nothing. */
  ghost predicate Unlisted(evs: seq<Event>) {
    Shown(evs) == [] && Total(evs) == Skipped(UnsupportedName, |evs|)
  }

  /** The source resumes behind the listed event `k`, past the items it loses. */
  ghost predicate ResumesPast(source: Source, whole: seq<Event>, k: nat, loss: Loss, text: string -> bool)
    requires k < |whole| && whole[k].Show?
  {
    var id := whole[k].entry.nativeId;
    var next := k + 1 + loss(id);
    && EmitAble(id, text)
    && next <= |whole| && source(id) == whole[next..] && Unlisted(whole[k + 1..next])
  }

  ghost predicate Lossy(source: Source, whole: seq<Event>, loss: Loss, text: string -> bool) {
    && source("") == whole
    && forall k :: 0 <= k < |whole| && whole[k].Show? ==> ResumesPast(source, whole, k, loss, text)
  }

  ghost predicate LeadsTo(source: Source, cursor: string, evs: seq<Event>, text: string -> bool) {
    DecodedCursor(cursor, text).Some? && source(DecodedCursor(cursor, text).value) == evs
  }

  /** What is lost at the greedy cuts of the entries. */
  function Lost(loss: Loss, entries: seq<Entry>, limit: nat, budget: int): nat
    decreases |entries|
  {
    var n := FirstPage(entries, limit, budget);
    if n == 0 || n == |entries| then 0
    else loss(entries[n - 1].nativeId) + Lost(loss, entries[n..], limit, budget)
  }

  /** The pages list what the events show, each as long as fits, and count everything but what is
      lost at their cuts. */
  ghost predicate CountsBut(loss: Loss, shown: seq<Entry>, total: Tally, limit: nat, budget: int, chain: seq<Page>) {
    && AllEntries(chain) == shown
    && SumCoverage(chain).Plus(Skipped(UnsupportedName, Lost(loss, shown, limit, budget))) == total
    && GreedyPages(shown, chain, limit, budget)
  }

  /** A page with a cursor, before the events `rest` where the next page starts. */
  ghost predicate CutHere(page: Page, evs: seq<Event>, rest: seq<Event>, lost: nat, limit: nat, budget: int) {
    && page.entries != [] && Shown(rest) != []
    && Shown(evs) == page.entries + Shown(rest)
    && LongestFit(page.entries, Shown(evs), limit, budget)
    && |page.entries| == FirstPage(Shown(evs), limit, budget)
    && Total(evs) == page.coverage.Plus(Skipped(UnsupportedName, lost).Plus(Total(rest)))
    && page.next == Some(page.entries[|page.entries| - 1].nativeId)
  }

  lemma SplitAround(before: seq<Event>, lost: seq<Event>, rest: seq<Event>)
    requires Unlisted(lost)
    ensures Shown(lost + rest) == Shown(rest)
    ensures Shown(before + (lost + rest)) == Shown(before) + Shown(rest)
    ensures Total(before + (lost + rest)) == Total(before).Plus(Skipped(UnsupportedName, |lost|).Plus(Total(rest)))
  {
    ShownAppend(lost, rest);
    ShownAppend(before, lost + rest);
    TotalAppend(lost, rest);
    TotalAppend(before, lost + rest);
  }

  /** What a page with a cursor lists and covers. */
  ghost predicate CutAfter(page: Page, covered: seq<Event>, rest: seq<Event>, limit: nat, budget: int) {
    && covered != [] && covered[|covered| - 1].Show? && Shown(rest) != []
    && page.entries == Shown(covered) && page.entries != [] && page.coverage == Total(covered)
    && page.entries[|page.entries| - 1] == covered[|covered| - 1].entry
    && page.next == Some(covered[|covered| - 1].entry.nativeId)
    && LongestFit(page.entries, Shown(covered + rest), limit, budget)
    && |page.entries| == FirstPage(Shown(covered + rest), limit, budget)
  }

  lemma PageEnds(evs: seq<Event>, page: Page, limit: nat, budget: int) returns (covered: seq<Event>, rest: seq<Event>)
    requires limit >= 1 && budget >= 1
    requires PageOf(evs, limit, budget) == Some(page) && page.next.Some?
    ensures evs == covered + rest && CutAfter(page, covered, rest, limit, budget)
  {
    covered, rest := PageShape(evs, limit, budget);
    LongestIsFirstPage(page.entries, Shown(evs), limit, budget);
    LastShown(covered);
  }

  lemma CutWithLoss(page: Page, covered: seq<Event>, lost: seq<Event>, rest: seq<Event>, limit: nat, budget: int)
    requires CutAfter(page, covered, lost + rest, limit, budget) && Unlisted(lost)
    ensures CutHere(page, covered + (lost + rest), rest, |lost|, limit, budget)
  {
    SplitAround(covered, lost, rest);
  }

  /** A page with a cursor ends at a listed event, and its cursor leads past what is lost there. */
  lemma PageCut(source: Source, whole: seq<Event>, start: nat, page: Page, limit: nat, budget: int, loss: Loss,
                text: string -> bool)
    returns (next: nat)
    requires Lossy(source, whole, loss, text) && limit >= 1 && budget >= 1 && start <= |whole|
    requires PageOf(whole[start..], limit, budget) == Some(page) && page.next.Some?
    ensures start < next <= |whole|
    ensures CutHere(page, whole[start..], whole[next..], loss(page.next.value), limit, budget)
    ensures EmitAble(page.next.value, text) && source(page.next.value) == whole[next..]
  {
    var covered, rest := PageEnds(whole[start..], page, limit, budget);
    ListedLast(whole, start, covered, rest);
    next := CutPast(source, whole, start, covered, rest, page, limit, budget, loss, text);
  }

  lemma CutPast(source: Source, whole: seq<Event>, start: nat, covered: seq<Event>, rest: seq<Event>, page: Page,
                limit: nat, budget: int, loss: Loss, text: string -> bool)
    returns (next: nat)
    requires start <= |whole| && whole[start..] == covered + rest && CutAfter(page, covered, rest, limit, budget)
    requires whole[start + |covered| - 1] == covered[|covered| - 1]
    requires ResumesPast(source, whole, start + |covered| - 1, loss, text)
    ensures start < next <= |whole|
    ensures CutHere(page, whole[start..], whole[next..], loss(page.next.value), limit, budget)
    ensures EmitAble(page.next.value, text) && source(page.next.value) == whole[next..]
  {
    var cut := start + |covered|;
    next := cut + loss(page.next.value);
    SplitRest(whole, start, covered, rest, next);
    CutWithLoss(page, covered, whole[cut..next], whole[next..], limit, budget);
  }

  lemma ListedLast(whole: seq<Event>, start: nat, covered: seq<Event>, rest: seq<Event>)
    requires start <= |whole| && whole[start..] == covered + rest && covered != []
    ensures start + |covered| <= |whole| && whole[start + |covered| - 1] == covered[|covered| - 1]
  {
    assert whole[start..][|covered| - 1] == covered[|covered| - 1];
  }

  lemma SplitRest(whole: seq<Event>, start: nat, covered: seq<Event>, rest: seq<Event>, next: nat)
    requires start <= |whole| && whole[start..] == covered + rest && start + |covered| <= next <= |whole|
    ensures rest == whole[start + |covered|..next] + whole[next..]
  {
    assert rest == whole[start..][|covered|..];
  }

  lemma JoinPages(loss: Loss, page: Page, tail: seq<Page>, evs: seq<Event>, rest: seq<Event>, limit: nat, budget: int)
    requires page.next.Some? && CutHere(page, evs, rest, loss(page.next.value), limit, budget)
    requires CountsBut(loss, Shown(rest), Total(rest), limit, budget, tail)
    ensures CountsBut(loss, Shown(evs), Total(evs), limit, budget, [page] + tail)
  {
    var chain, n := [page] + tail, |page.entries|;
    assert chain[1..] == tail;
    assert Shown(evs)[n..] == Shown(rest) && Shown(evs)[n - 1] == page.entries[n - 1];
  }

  lemma LastPageCounts(loss: Loss, page: Page, evs: seq<Event>, limit: nat, budget: int)
    requires limit >= 1 && budget >= 1
    requires PageOf(evs, limit, budget) == Some(page) && page.next.None?
    ensures CountsBut(loss, Shown(evs), Total(evs), limit, budget, [page])
    ensures CutsAtShortCursors(Shown(evs), limit, budget)
  {
    var covered, rest := PageShape(evs, limit, budget);
    assert covered == evs;
    LongestIsFirstPage(page.entries, Shown(evs), limit, budget);
    LastPage(page, [page]);
    PlusNothing(page.coverage);
  }

  lemma {:induction false} FollowedLossy(source: Source, whole: seq<Event>, start: nat, cursor: string, limit: nat,
                                         budget: int, loss: Loss, text: string -> bool, pages: seq<StudioPage>)
    returns (chain: seq<Page>)
    requires Lossy(source, whole, loss, text) && limit >= 1 && budget >= 1
    requires start <= |whole| && LeadsTo(source, cursor, whole[start..], text)
    requires FollowsCursors(source, cursor, limit, budget, text, pages)
    ensures pages == EncodedPages(chain)
    ensures CountsBut(loss, Shown(whole[start..]), Total(whole[start..]), limit, budget, chain)
    ensures CutsAtShortCursors(Shown(whole[start..]), limit, budget)
    decreases |pages|
  {
    var evs := whole[start..];
    var page := PageOf(evs, limit, budget).value;
    var more := pages[1..];
    assert pages == [Encoded(page)] + more;
    if page.next.None? {
      chain := [page];
      LastPageCounts(loss, page, evs, limit, budget);
    } else {
      var next := PageCut(source, whole, start, page, limit, budget, loss, text);
      CursorRoundTrip(page.next.value, text);
      var tail := FollowedLossy(source, whole, next, pages[0].nextCursor, limit, budget, loss, text, more);
      chain := [page] + tail;
      assert chain[1..] == tail;
      JoinPages(loss, page, tail, evs, whole[next..], limit, budget);
      CutContinues(page, evs, whole[next..], limit, budget);
    }
  }

  lemma CutContinues(page: Page, evs: seq<Event>, rest: seq<Event>, limit: nat, budget: int)
    requires page.next.Some? && exists lost: nat :: CutHere(page, evs, rest, lost, limit, budget)
    ensures CutsAtShortCursors(Shown(evs), limit, budget)
            <==> |EncodedCursor(page.next.value)| <= MAX_CURSOR_BYTES && CutsAtShortCursors(Shown(rest), limit, budget)
  {
    var n := |page.entries|;
    assert Shown(evs)[n..] == Shown(rest) && Shown(evs)[n - 1] == page.entries[n - 1];
  }

  lemma {:induction false} ReadLossy(source: Source, whole: seq<Event>, start: nat, cursor: string, limit: nat,
                                     budget: int, loss: Loss, text: string -> bool)
    returns (pages: seq<StudioPage>)
    requires Lossy(source, whole, loss, text) && limit >= 1 && budget >= 1
    requires start <= |whole| && LeadsTo(source, cursor, whole[start..], text)
    requires CutsAtShortCursors(Shown(whole[start..]), limit, budget)
    ensures FollowsCursors(source, cursor, limit, budget, text, pages)
    decreases |whole| - start
  {
    var evs := whole[start..];
    CutsFitBudget(Shown(evs), limit, budget);
    FittingPage(evs, limit, budget);
    var page := PageOf(evs, limit, budget).value;
    if page.next.None? {
      pages := [Encoded(page)];
    } else {
      var next := PageCut(source, whole, start, page, limit, budget, loss, text);
      CutContinues(page, evs, whole[next..], limit, budget);
      CursorRoundTrip(page.next.value, text);
      var more := ReadLossy(source, whole, next, Encoded(page).nextCursor, limit, budget, loss, text);
      pages := [Encoded(page)] + more;
      assert pages[1..] == more;
    }
  }

  lemma FittingPage(evs: seq<Event>, limit: nat, budget: int)
    requires limit >= 1 && budget >= 1 && EachFits(Shown(evs), budget)
    ensures PageOf(evs, limit, budget).Some?
  {
    var covered, rest := PageShape(evs, limit, budget);
    if Shown(evs) != [] {
      assert Shown(evs)[0] in Shown(evs);
    }
  }

  /** Following cursors gives every entry once and in order, each page as long as fits; the coverage
      counts of the pages are those of one unbounded scan less what is lost at the cuts. */
  lemma LossyPagesGlue(source: Source, limit: nat, budget: int, loss: Loss, text: string -> bool, pages: seq<StudioPage>)
    returns (chain: seq<Page>)
    requires Lossy(source, source(""), loss, text) && limit >= 1 && budget >= 1
    requires FollowsCursors(source, "", limit, budget, text, pages)
    ensures var whole := source("");
            && Entries(pages) == Shown(whole)
            && Coverage(pages).Plus(Skipped(UnsupportedName, Lost(loss, Shown(whole), limit, budget))) == Total(whole)
            && pages == EncodedPages(chain) && GreedyPages(Shown(whole), chain, limit, budget)
  {
    var whole := source("");
    assert whole[0..] == whole;
    chain := FollowedLossy(source, whole, 0, "", limit, budget, loss, text, pages);
    EncodedSums(chain);
  }

  /** Every event is one item, listed or unsupported. */
  ghost predicate OneItemEach(evs: seq<Event>, items: nat) {
    && Total(evs).visited == items
    && |Shown(evs)| + Total(evs).skips.unsupportedName == items
  }

  /** All pages together: the entries, and the counts less what is lost at the cuts. */
  ghost predicate PagesCount(whole: seq<Event>, items: nat, lost: nat, pages: seq<StudioPage>) {
    && Entries(pages) == Shown(whole)
    && Coverage(pages).visited + lost == items
    && |Entries(pages)| + Coverage(pages).skips.unsupportedName == Coverage(pages).visited
    && (Coverage(pages) == Total(whole) <==> lost == 0)
  }

  lemma LossyPagesCount(source: Source, items: nat, limit: nat, budget: int, loss: Loss, text: string -> bool,
                        pages: seq<StudioPage>)
    returns (chain: seq<Page>)
    requires Lossy(source, source(""), loss, text) && limit >= 1 && budget >= 1
    requires OneItemEach(source(""), items)
    requires FollowsCursors(source, "", limit, budget, text, pages)
    ensures PagesCount(source(""), items, Lost(loss, Shown(source("")), limit, budget), pages)
    ensures pages == EncodedPages(chain) && GreedyPages(Shown(source("")), chain, limit, budget)
  {
    chain := LossyPagesGlue(source, limit, budget, loss, text, pages);
    CountLess(Coverage(pages), Lost(loss, Shown(source("")), limit, budget), Total(source("")));
  }

  lemma CountLess(part: Tally, lost: nat, all: Tally)
    requires part.Plus(Skipped(UnsupportedName, lost)) == all
    ensures part.visited + lost == all.visited
    ensures part.skips.unsupportedName + lost == all.skips.unsupportedName
    ensures part == all <==> lost == 0
  {
  }

  lemma WhenLossyPagingEnds(source: Source, limit: nat, budget: int, loss: Loss, text: string -> bool)
    requires Lossy(source, source(""), loss, text) && limit >= 1 && budget >= 1
    ensures ReadableToTheEnd(source, limit, budget, text) <==> CutsAtShortCursors(Shown(source("")), limit, budget)
  {
    var whole := source("");
    assert whole[0..] == whole;
    if ReadableToTheEnd(source, limit, budget, text) {
      var pages: seq<StudioPage> :| FollowsCursors(source, "", limit, budget, text, pages);
      var chain := FollowedLossy(source, whole, 0, "", limit, budget, loss, text, pages);
    }
    if CutsAtShortCursors(Shown(whole), limit, budget) {
      var pages := ReadLossy(source, whole, 0, "", limit, budget, loss, text);
    }
  }

  /* ---- When nothing is lost ---- */

  /** Nothing is lost behind any entry but the last. */
  ghost predicate LosesNothing(loss: Loss, entries: seq<Entry>) {
    forall i :: 0 <= i < |entries| - 1 ==> loss(entries[i].nativeId) == 0
  }

  lemma {:induction false} NothingLost(loss: Loss, entries: seq<Entry>, limit: nat, budget: int)
    requires LosesNothing(loss, entries)
    ensures Lost(loss, entries, limit, budget) == 0
    decreases |entries|
  {
    var n := FirstPage(entries, limit, budget);
    if n != 0 && n != |entries| {
      NothingLost(loss, entries[n..], limit, budget);
    }
  }

  lemma {:induction false} LostOneByOne(loss: Loss, entries: seq<Entry>, budget: int)
    requires EachFits(entries, budget) && Lost(loss, entries, 1, budget) == 0
    ensures LosesNothing(loss, entries)
    decreases |entries|
  {
    if |entries| > 1 {
      assert entries[0] in entries;
      LostOneByOne(loss, entries[1..], budget);
      assert forall i :: 1 <= i < |entries| ==> entries[i] == entries[1..][i - 1];
    }
  }

  /** All pages together count so many items, whatever the limit. */
  ghost predicate AlwaysCounts(source: Source, items: nat, budget: int, text: string -> bool) {
    forall limit: nat, pages :: limit >= 1 && FollowsCursors(source, "", limit, budget, text, pages) ==>
      Coverage(pages).visited == items
  }

  /** Where every entry fits a page and every cursor is honoured, each item is counted at every limit
      exactly when nothing is lost behind any entry but the last. */
  lemma CountsAllAtEveryLimit(source: Source, items: nat, budget: int, loss: Loss, text: string -> bool)
    requires Lossy(source, source(""), loss, text) && budget >= 1 && OneItemEach(source(""), items)
    requires EachFits(Shown(source("")), budget) && ShortCursors(Shown(source("")))
    ensures AlwaysCounts(source, items, budget, text) <==> LosesNothing(loss, Shown(source("")))
  {
    var shown := Shown(source(""));
    if AlwaysCounts(source, items, budget, text) {
      CutsAnywhere(shown, 1, budget);
      WhenLossyPagingEnds(source, 1, budget, loss, text);
      var pages: seq<StudioPage> :| FollowsCursors(source, "", 1, budget, text, pages);
      var chain := LossyPagesCount(source, items, 1, budget, loss, text, pages);
      LostOneByOne(loss, shown, budget);
    }
    if LosesNothing(loss, shown) {
      forall limit: nat, pages | limit >= 1 && FollowsCursors(source, "", limit, budget, text, pages)
        ensures Coverage(pages).visited == items
      {
        var chain := LossyPagesCount(source, items, limit, budget, loss, text, pages);
        NothingLost(loss, shown, limit, budget);
      }
    }
  }
}
