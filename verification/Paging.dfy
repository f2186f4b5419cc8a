/** One page of a catalog listing, cut from a sequence of events: the file walk and the plugin
    list both scan their items in a fixed order, count what they pass over, and roll the counts
    back to the last emitted entry when the page is full. */
module Paging {
  import opened Text

  datatype Reason = Hidden | Symlink | Unreadable | DepthLimit | TooLarge | UnsupportedName

  /** How many items were skipped for each reason. */
  datatype Skips = Skips(hidden: nat, symlink: nat, unreadable: nat,
                         depthLimit: nat, tooLarge: nat, unsupportedName: nat) {
    function Add(reason: Reason, n: nat): Skips {
      match reason
      case Hidden => this.(hidden := hidden + n)
      case Symlink => this.(symlink := symlink + n)
      case Unreadable => this.(unreadable := unreadable + n)
      case DepthLimit => this.(depthLimit := depthLimit + n)
      case TooLarge => this.(tooLarge := tooLarge + n)
      case UnsupportedName => this.(unsupportedName := unsupportedName + n)
    }

    function Plus(other: Skips): Skips {
      Skips(hidden + other.hidden, symlink + other.symlink, unreadable + other.unreadable,
            depthLimit + other.depthLimit, tooLarge + other.tooLarge,
            unsupportedName + other.unsupportedName)
    }

    function Count(): nat {
      hidden + symlink + unreadable + depthLimit + tooLarge + unsupportedName
    }
  }

  function NoSkips(): Skips {
    Skips(0, 0, 0, 0, 0, 0)
  }

  /** Coverage counts: items visited, and how many of them were skipped. */
  datatype Tally = Tally(visited: nat, skips: Skips) {
    function Plus(other: Tally): Tally {
      Tally(visited + other.visited, skips.Plus(other.skips))
    }
  }

  function Nothing(): Tally {
    Tally(0, NoSkips())
  }

  function Skipped(reason: Reason, n: nat): Tally {
    Tally(n, NoSkips().Add(reason, n))
  }

  /** `bytes` is the size of the encoded entry with its separator. */
  datatype Entry = Entry(nativeId: string, bytes: nat)

  datatype Event =
    | Count(at: string, tally: Tally)     // an item that is counted but not listed
    | Tail(folder: string, tally: Tally)  // what a folder adds after its items
    | Show(entry: Entry)                  // an item that is listed

  datatype Scan = Scan(budget: int, full: bool, now: Tally, saved: Tally, entries: seq<Entry>)

  datatype Page = Page(entries: seq<Entry>, coverage: Tally, next: Option<string>)

  function Start(budget: int): Scan {
    Scan(budget, false, Nothing(), Nothing(), [])
  }

  function Step(s: Scan, ev: Event, limit: nat): Scan {
    if s.full then s
    else match ev
      case Count(_, tally) => s.(now := s.now.Plus(tally))
      case Tail(_, tally) => s.(now := s.now.Plus(tally))
      case Show(entry) =>
        if |s.entries| >= limit || entry.bytes > s.budget then s.(full := true)
        else
          var now := s.now.(visited := s.now.visited + 1);
          Scan(s.budget - entry.bytes, false, now, now, s.entries + [entry])
  }

  function Run(s: Scan, evs: seq<Event>, limit: nat): Scan
    decreases |evs|
  {
    if evs == [] then s else Run(Step(s, evs[0], limit), evs[1..], limit)
  }

  /** The page a finished scan reports; None when the first entry alone exceeds the budget. */
  function Finish(s: Scan): Option<Page> {
    if s.full && s.entries == [] then None
    else if s.full then Some(Page(s.entries, s.saved, Some(s.entries[|s.entries| - 1].nativeId)))
    else Some(Page(s.entries, s.now, None))
  }

  function PageOf(evs: seq<Event>, limit: nat, budget: int): Option<Page> {
    Finish(Run(Start(budget), evs, limit))
  }

  /* ---- The whole listing ---- */

  function Shown(evs: seq<Event>): seq<Entry> {
    if evs == [] then []
    else if evs[0].Show? then [evs[0].entry] + Shown(evs[1..])
    else Shown(evs[1..])
  }

  function TallyOf(ev: Event): Tally {
    if ev.Show? then Tally(1, NoSkips()) else ev.tally
  }

  function Total(evs: seq<Event>): Tally {
    if evs == [] then Nothing() else TallyOf(evs[0]).Plus(Total(evs[1..]))
  }

  function Bytes(entries: seq<Entry>): nat {
    if entries == [] then 0 else entries[0].bytes + Bytes(entries[1..])
  }

  predicate Fits(entries: seq<Entry>, limit: nat, budget: int) {
    |entries| <= limit && Bytes(entries) <= budget
  }

  /** The longest prefix of `remaining` that fits one page. */
  ghost predicate LongestFit(entries: seq<Entry>, remaining: seq<Entry>, limit: nat, budget: int) {
    && entries <= remaining
    && Fits(entries, limit, budget)
    && forall k :: |entries| < k <= |remaining| ==> !Fits(remaining[..k], limit, budget)
  }

  lemma {:induction false} RunAppend(s: Scan, a: seq<Event>, b: seq<Event>, limit: nat)
    ensures Run(s, a + b, limit) == Run(Run(s, a, limit), b, limit)
    decreases |a|
  {
    if a == [] {
      assert a + b == b;
    } else {
      RunAppend(Step(s, a[0], limit), a[1..], b, limit);
      assert (a + b)[1..] == a[1..] + b;
    }
  }

  lemma RunSnoc(s: Scan, evs: seq<Event>, last: Event, limit: nat)
    ensures Run(s, evs + [last], limit) == Step(Run(s, evs, limit), last, limit)
  {
    RunAppend(s, evs, [last], limit);
  }

  lemma {:induction false} FullStays(s: Scan, evs: seq<Event>, limit: nat)
    requires s.full
    ensures Run(s, evs, limit) == s
  {
    if evs != [] {
      FullStays(s, evs[1..], limit);
    }
  }

  lemma {:induction false} ShownAppend(a: seq<Event>, b: seq<Event>)
    ensures Shown(a + b) == Shown(a) + Shown(b)
  {
    if a == [] {
      assert a + b == b;
    } else {
      ShownAppend(a[1..], b);
      var rest := Shown(a[1..] + b);
      assert (a + b)[1..] == a[1..] + b;
      assert Shown(a + b) == if a[0].Show? then [a[0].entry] + rest else rest;
    }
  }

  lemma PlusAssociative(a: Tally, b: Tally, c: Tally)
    ensures a.Plus(b).Plus(c) == a.Plus(b.Plus(c))
  {
  }

  lemma PlusNothing(a: Tally)
    ensures Nothing().Plus(a) == a && a.Plus(Nothing()) == a
  {
  }

  lemma {:induction false} TotalAppend(a: seq<Event>, b: seq<Event>)
    ensures Total(a + b) == Total(a).Plus(Total(b))
  {
    if a == [] {
      assert a + b == b;
      PlusNothing(Total(b));
    } else {
      calc {
        Total(a + b);
        { assert (a + b)[1..] == a[1..] + b; }
        TallyOf(a[0]).Plus(Total(a[1..] + b));
        { TotalAppend(a[1..], b); }
        TallyOf(a[0]).Plus(Total(a[1..]).Plus(Total(b)));
        { PlusAssociative(TallyOf(a[0]), Total(a[1..]), Total(b)); }
        Total(a).Plus(Total(b));
      }
    }
  }

  lemma {:induction false} BytesAppend(a: seq<Entry>, b: seq<Entry>)
    ensures Bytes(a + b) == Bytes(a) + Bytes(b)
  {
    if a == [] {
      assert a + b == b;
    } else {
      BytesAppend(a[1..], b);
      assert (a + b)[1..] == a[1..] + b;
    }
  }

  lemma {:induction false} ShownMember(evs: seq<Event>, i: nat)
    requires i < |evs| && evs[i].Show?
    ensures evs[i].entry in Shown(evs)
  {
    assert evs == evs[..i] + evs[i..];
    ShownAppend(evs[..i], evs[i..]);
    assert Shown(evs[i..])[0] == evs[i].entry;
    assert evs[i].entry in Shown(evs[i..]);
  }

  lemma OneTotal(ev: Event)
    ensures Total([ev]) == TallyOf(ev)
  {
    var evs := [ev];
    calc {
      Total(evs);
      TallyOf(ev).Plus(Total(evs[1..]));
      { assert evs[1..] == []; }
      TallyOf(ev).Plus(Nothing());
      { PlusNothing(TallyOf(ev)); }
      TallyOf(ev);
    }
  }

  lemma SnocTotal(evs: seq<Event>, last: Event)
    ensures Total(evs + [last]) == Total(evs).Plus(TallyOf(last))
  {
    OneTotal(last);
    TotalAppend(evs, [last]);
  }

  lemma SnocShown(evs: seq<Event>, last: Event)
    ensures Shown(evs + [last]) == if last.Show? then Shown(evs) + [last.entry] else Shown(evs)
  {
    ShownAppend(evs, [last]);
  }

  lemma {:induction false} ShownAt(evs: seq<Event>, k: nat) returns (i: nat)
    requires k < |Shown(evs)|
    ensures i < |evs| && evs[i].Show? && evs[i].entry == Shown(evs)[k]
    ensures Shown(evs[..i]) == Shown(evs)[..k]
    decreases |evs|
  {
    if evs[0].Show? && k == 0 {
      i := 0;
      assert evs[..0] == [];
    } else {
      var rest := if evs[0].Show? then k - 1 else k;
      var j := ShownAt(evs[1..], rest);
      i := j + 1;
      assert evs[..i] == [evs[0]] + evs[1..][..j];
      assert evs[..i][1..] == evs[1..][..j];
    }
  }

  lemma ShownOrder(evs: seq<Event>, i: nat, j: nat, p: nat, q: nat)
    requires i < j < |Shown(evs)| && p < |evs| && q < |evs|
    requires Shown(evs[..p]) == Shown(evs)[..i] && Shown(evs[..q]) == Shown(evs)[..j]
    ensures p < q
  {
    if q <= p {
      assert evs[..p] == evs[..q] + evs[q..p];
      ShownAppend(evs[..q], evs[q..p]);
      assert false;
    }
  }

  /* ---- What one scan covers ---- */

  /** The scan has gone through `covered + pending`: it lists what `covered` shows and saved its
      counts; nothing of `pending` is listed. */
  ghost predicate Covers(s: Scan, covered: seq<Event>, pending: seq<Event>, limit: nat, budget: int) {
    && s.entries == Shown(covered)
    && s.saved == Total(covered)
    && s.budget == budget - Bytes(s.entries)
    && |s.entries| <= limit && (s.entries != [] ==> 0 <= s.budget)
    && (covered == [] || covered[|covered| - 1].Show?)
    && (if s.full then Refuses(s, Shown(pending), limit)
        else Shown(pending) == [] && s.now == Total(covered).Plus(Total(pending)))
  }

  ghost predicate Refuses(s: Scan, remaining: seq<Entry>, limit: nat) {
    remaining != [] && (|s.entries| >= limit || remaining[0].bytes > s.budget)
  }

  lemma CoverPass(s: Scan, covered: seq<Event>, pending: seq<Event>, last: Event, limit: nat, budget: int)
    requires Covers(s, covered, pending, limit, budget)
    requires s.full || !last.Show? || |s.entries| >= limit || last.entry.bytes > s.budget
    ensures Covers(Step(s, last, limit), covered, pending + [last], limit, budget)
  {
    SnocShown(pending, last);
    if !s.full && !last.Show? {
      SnocTotal(pending, last);
      PlusAssociative(Total(covered), Total(pending), TallyOf(last));
    }
  }

  lemma EmitEntries(s: Scan, covered: seq<Event>, pending: seq<Event>, last: Event)
    requires s.entries == Shown(covered) && Shown(pending) == [] && last.Show?
    ensures Shown(covered + pending + [last]) == s.entries + [last.entry]
    ensures Bytes(s.entries + [last.entry]) == Bytes(s.entries) + last.entry.bytes
  {
    ShownAppend(covered, pending);
    SnocShown(covered + pending, last);
    SnocBytes(s.entries, last.entry);
  }

  lemma SnocBytes(entries: seq<Entry>, last: Entry)
    ensures Bytes(entries + [last]) == Bytes(entries) + last.bytes
  {
    BytesAppend(entries, [last]);
    OneBytes(last);
  }

  lemma OneBytes(e: Entry)
    ensures Bytes([e]) == e.bytes
  {
    var one := [e];
    var none := one[1..];
    assert Bytes(none) == 0;
  }

  lemma EmitTotals(s: Scan, covered: seq<Event>, pending: seq<Event>, last: Event)
    requires s.now == Total(covered).Plus(Total(pending)) && last.Show?
    ensures Total(covered + pending + [last]) == s.now.(visited := s.now.visited + 1)
  {
    TotalAppend(covered, pending);
    SnocTotal(covered + pending, last);
    PlusVisit(s.now);
  }

  lemma PlusVisit(t: Tally)
    ensures t.Plus(Tally(1, NoSkips())) == t.(visited := t.visited + 1)
  {
  }

  lemma EmptyTotals(none: seq<Event>)
    requires |none| == 0
    ensures Total(none) == Nothing() && |Shown(none)| == 0
  {
  }

  /** What Covers asks of a scan that has just listed `last`, from the facts about its parts. */
  lemma CoverListed(s: Scan, all: seq<Event>, none: seq<Event>, limit: nat, budget: int)
    requires |none| == 0 && all != [] && all[|all| - 1].Show? && !s.full
    requires s.entries == Shown(all) && s.now == Total(all) && s.saved == s.now
    requires s.budget == budget - Bytes(s.entries) && |s.entries| <= limit && 0 <= s.budget
    ensures Covers(s, all, none, limit, budget)
  {
    EmptyTotals(none);
    PlusNothing(Total(all));
  }

  lemma CoverEmit(s: Scan, covered: seq<Event>, pending: seq<Event>, last: Event, limit: nat, budget: int)
    returns (none: seq<Event>)
    requires Covers(s, covered, pending, limit, budget)
    requires !s.full && last.Show? && |s.entries| < limit && last.entry.bytes <= s.budget
    ensures none == [] && Covers(Step(s, last, limit), covered + pending + [last], none, limit, budget)
  {
    none := pending[|pending|..];
    EmitEntries(s, covered, pending, last);
    EmitTotals(s, covered, pending, last);
    CoverListed(Step(s, last, limit), covered + pending + [last], none, limit, budget);
  }

  lemma {:induction false} ScanShape(evs: seq<Event>, limit: nat, budget: int)
    returns (covered: seq<Event>, pending: seq<Event>)
    ensures evs == covered + pending
    ensures Covers(Run(Start(budget), evs, limit), covered, pending, limit, budget)
    decreases |evs|
  {
    if evs == [] {
      covered, pending := evs, evs;
      CoverNone(evs, limit, budget);
    } else {
      var init, last := evs[..|evs| - 1], evs[|evs| - 1];
      var listed, passed := ScanShape(init, limit, budget);
      assert evs == init + [last];
      RunSnoc(Start(budget), init, last, limit);
      covered, pending := CoverStep(Run(Start(budget), init, limit), listed, passed, last, limit, budget);
    }
  }

  lemma CoverNone(none: seq<Event>, limit: nat, budget: int)
    requires |none| == 0
    ensures Covers(Start(budget), none, none, limit, budget)
  {
    CoverStart(Start(budget), none, limit, budget);
  }

  lemma CoverStart(s: Scan, none: seq<Event>, limit: nat, budget: int)
    requires |none| == 0 && |s.entries| == 0 && !s.full && s.budget == budget
    requires s.now == Nothing() && s.saved == s.now
    ensures Covers(s, none, none, limit, budget)
  {
    EmptyTotals(none);
    PlusNothing(s.now);
    NoBytes(s.entries);
  }

  lemma NoBytes(none: seq<Entry>)
    requires |none| == 0
    ensures Bytes(none) == 0
  {
  }

  lemma CoverStep(s: Scan, listed: seq<Event>, passed: seq<Event>, last: Event, limit: nat, budget: int)
    returns (covered: seq<Event>, pending: seq<Event>)
    requires Covers(s, listed, passed, limit, budget)
    ensures covered + pending == listed + passed + [last]
    ensures Covers(Step(s, last, limit), covered, pending, limit, budget)
  {
    if !s.full && last.Show? && |s.entries| < limit && last.entry.bytes <= s.budget {
      pending := CoverEmit(s, listed, passed, last, limit, budget);
      covered := listed + passed + [last];
    } else {
      CoverPass(s, listed, passed, last, limit, budget);
      covered, pending := listed, passed + [last];
    }
  }

  lemma {:induction false} LongerIsBigger(entries: seq<Entry>, j: nat, k: nat)
    requires j <= k <= |entries|
    ensures Bytes(entries[..j]) <= Bytes(entries[..k])
  {
    assert entries[..k] == entries[..j] + entries[j..k];
    BytesAppend(entries[..j], entries[j..k]);
  }

  lemma LongestFromNext(entries: seq<Entry>, remaining: seq<Entry>, limit: nat, budget: int)
    requires entries < remaining
    requires Fits(entries, limit, budget)
    requires |entries| >= limit || remaining[|entries|].bytes > budget - Bytes(entries)
    ensures LongestFit(entries, remaining, limit, budget)
  {
    var n := |entries| + 1;
    assert remaining[..n] == entries + [remaining[n - 1]];
    BytesAppend(entries, [remaining[n - 1]]);
    forall k | n <= k <= |remaining| ensures !Fits(remaining[..k], limit, budget) {
      LongerIsBigger(remaining, n, k);
    }
  }

  /** A page covers the events up to its last entry, or all of them when it is the final page. */
  ghost predicate PageCovers(page: Page, covered: seq<Event>, rest: seq<Event>) {
    && page.entries == Shown(covered) && page.coverage == Total(covered)
    && match page.next
       case None => rest == []
       case Some(id) =>
         && covered != [] && covered[|covered| - 1].Show?
         && covered[|covered| - 1].entry.nativeId == id
         && Shown(rest) != []
  }

  /** A page lists the longest prefix that fits, and fails only when the first entry does not fit. */
  lemma PageShape(evs: seq<Event>, limit: nat, budget: int)
    returns (covered: seq<Event>, rest: seq<Event>)
    requires limit >= 1 && budget >= 1
    ensures evs == covered + rest
    ensures match PageOf(evs, limit, budget)
            case None => Shown(evs) != [] && Shown(evs)[0].bytes > budget
            case Some(page) =>
              PageCovers(page, covered, rest) && LongestFit(page.entries, Shown(evs), limit, budget)
  {
    var s := Run(Start(budget), evs, limit);
    covered, rest := ScanShape(evs, limit, budget);
    ShownAppend(covered, rest);
    if s.full {
      if s.entries != [] {
        LongestFromNext(s.entries, Shown(evs), limit, budget);
        LastShown(covered);
      }
    } else {
      TotalAppend(covered, rest);
      covered, rest := evs, [];
      assert Shown(evs) == s.entries;
    }
  }

  lemma LastShown(evs: seq<Event>)
    requires evs != [] && evs[|evs| - 1].Show?
    ensures Shown(evs) != [] && Shown(evs)[|Shown(evs)| - 1] == evs[|evs| - 1].entry
  {
    var init, last := evs[..|evs| - 1], evs[|evs| - 1];
    assert evs == init + [last];
    SnocShown(init, last);
  }

  /* ---- Pages linked by cursors ---- */

  /** What follows the listed entry `id`; everything is behind an id that is not listed. */
  function After(evs: seq<Event>, id: string): seq<Event> {
    if evs == [] then []
    else if evs[0].Show? && evs[0].entry.nativeId == id then evs[1..]
    else After(evs[1..], id)
  }

  ghost predicate DistinctIds(entries: seq<Entry>) {
    forall i, j :: 0 <= i < j < |entries| ==> entries[i].nativeId != entries[j].nativeId
  }

  /** Pages read one after the other, each resuming after the entry the previous one names. */
  ghost predicate Chain(evs: seq<Event>, limit: nat, budget: int, pages: seq<Page>)
    decreases |pages|
  {
    && pages != []
    && PageOf(evs, limit, budget) == Some(pages[0])
    && match pages[0].next
       case None => |pages| == 1
       case Some(id) => Chain(After(evs, id), limit, budget, pages[1..])
  }

  function AllEntries(pages: seq<Page>): seq<Entry> {
    if pages == [] then [] else pages[0].entries + AllEntries(pages[1..])
  }

  function SumCoverage(pages: seq<Page>): Tally {
    if pages == [] then Nothing() else pages[0].coverage.Plus(SumCoverage(pages[1..]))
  }

  /** The reference: every page but the last takes the longest prefix that fits, the last the rest. */
  ghost predicate GreedyPages(remaining: seq<Entry>, pages: seq<Page>, limit: nat, budget: int)
    decreases |pages|
  {
    && pages != []
    && LongestFit(pages[0].entries, remaining, limit, budget)
    && if |pages| == 1 then pages[0].entries == remaining
       else pages[0].entries != []
            && GreedyPages(remaining[|pages[0].entries|..], pages[1..], limit, budget)
  }

  lemma {:induction false} AfterSplit(a: seq<Event>, show: Event, b: seq<Event>)
    requires show.Show?
    requires forall e :: e in Shown(a) ==> e.nativeId != show.entry.nativeId
    ensures After(a + [show] + b, show.entry.nativeId) == b
  {
    var evs := a + [show] + b;
    if a == [] {
      assert evs[1..] == b;
    } else {
      assert evs[1..] == a[1..] + [show] + b;
      ShownAppend([a[0]], a[1..]);
      assert a == [a[0]] + a[1..];
      AfterSplit(a[1..], show, b);
    }
  }

  /** Resuming after the last entry of a page gives the events the page left over. */
  lemma ResumesAtCut(covered: seq<Event>, rest: seq<Event>)
    requires covered != [] && covered[|covered| - 1].Show?
    requires DistinctIds(Shown(covered + rest))
    ensures After(covered + rest, covered[|covered| - 1].entry.nativeId) == rest
    ensures DistinctIds(Shown(rest))
  {
    var a, show := covered[..|covered| - 1], covered[|covered| - 1];
    assert covered == a + [show];
    ShownAppend(covered, rest);
    SnocShown(a, show);
    var all := Shown(covered + rest);
    forall e | e in Shown(a) ensures e.nativeId != show.entry.nativeId {
      var i :| 0 <= i < |Shown(a)| && Shown(a)[i] == e;
      assert all[i] == e && all[|Shown(a)|] == show.entry;
    }
    AfterSplit(a, show, rest);
    DistinctTail(Shown(covered), Shown(rest));
  }

  lemma DistinctTail(a: seq<Entry>, b: seq<Entry>)
    requires DistinctIds(a + b)
    ensures DistinctIds(b)
  {
    forall i, j | 0 <= i < j < |b| ensures b[i].nativeId != b[j].nativeId {
      assert b[i] == (a + b)[|a| + i] && b[j] == (a + b)[|a| + j];
    }
  }

  /** Any chain of pages lists every entry once, in order, greedily; its coverage counts add up to
      one count of every event; and it has no more pages than entries (one if there are none). */
  lemma {:induction false} ChainCoversAll(evs: seq<Event>, limit: nat, budget: int, pages: seq<Page>)
    requires limit >= 1 && budget >= 1
    requires DistinctIds(Shown(evs))
    requires Chain(evs, limit, budget, pages)
    ensures AllEntries(pages) == Shown(evs)
    ensures SumCoverage(pages) == Total(evs)
    ensures GreedyPages(Shown(evs), pages, limit, budget)
    ensures |pages| <= if Shown(evs) == [] then 1 else |Shown(evs)|
    decreases |pages|
  {
    var covered, rest := PageShape(evs, limit, budget);
    var page := pages[0];
    if page.next.None? {
      assert covered == evs;
      LastPage(page, pages);
    } else {
      ShownAppend(covered, rest);
      TotalAppend(covered, rest);
      LastShown(covered);
      ResumesAtCut(covered, rest);
      ChainCoversAll(rest, limit, budget, pages[1..]);
      assert Shown(evs)[|page.entries|..] == Shown(rest);
    }
  }

  lemma LastPage(page: Page, pages: seq<Page>)
    requires pages == [page]
    ensures AllEntries(pages) == page.entries && SumCoverage(pages) == page.coverage
  {
    var none: seq<Page> := pages[1..];
    assert none == [];
    assert AllEntries(none) == [] && SumCoverage(none) == Nothing();
    PlusNothing(page.coverage);
  }

  ghost predicate Pageable(evs: seq<Event>, limit: nat, budget: int) {
    exists pages: seq<Page> :: Chain(evs, limit, budget, pages)
  }

  /** A chain of pages exists exactly when every entry fits the budget on its own. */
  lemma ChainExists(evs: seq<Event>, limit: nat, budget: int)
    requires limit >= 1 && budget >= 1
    requires DistinctIds(Shown(evs))
    ensures Pageable(evs, limit, budget) <==> EachFits(Shown(evs), budget)
  {
    if Pageable(evs, limit, budget) {
      var pages: seq<Page> :| Chain(evs, limit, budget, pages);
      ChainFits(evs, limit, budget, pages);
    } else if EachFits(Shown(evs), budget) {
      var pages := BuildChain(evs, limit, budget);
      assert false;
    }
  }

  lemma {:induction false} BuildChain(evs: seq<Event>, limit: nat, budget: int) returns (pages: seq<Page>)
    requires limit >= 1 && budget >= 1
    requires DistinctIds(Shown(evs))
    requires EachFits(Shown(evs), budget)
    ensures Chain(evs, limit, budget, pages)
    decreases |evs|
  {
    var covered, rest := PageShape(evs, limit, budget);
    assert PageOf(evs, limit, budget).Some? by {
      if Shown(evs) != [] {
        assert Shown(evs)[0] in Shown(evs);
      }
    }
    var page := PageOf(evs, limit, budget).value;
    if page.next.None? {
      pages := [page];
    } else {
      ShownAppend(covered, rest);
      ResumesAtCut(covered, rest);
      var more := BuildChain(rest, limit, budget);
      pages := [page] + more;
      assert pages[1..] == more;
    }
  }

  lemma {:induction false} ChainFits(evs: seq<Event>, limit: nat, budget: int, pages: seq<Page>)
    requires limit >= 1 && budget >= 1
    requires DistinctIds(Shown(evs))
    requires Chain(evs, limit, budget, pages)
    ensures EachFits(Shown(evs), budget)
    decreases |pages|
  {
    var covered, rest := PageShape(evs, limit, budget);
    ShownAppend(covered, rest);
    FitsEach(pages[0].entries, budget);
    if pages[0].next.Some? {
      ResumesAtCut(covered, rest);
      ChainFits(rest, limit, budget, pages[1..]);
    }
  }

  ghost predicate EachFits(entries: seq<Entry>, budget: int) {
    forall e :: e in entries ==> e.bytes <= budget
  }

  lemma {:induction false} FitsEach(entries: seq<Entry>, budget: int)
    requires Bytes(entries) <= budget
    ensures EachFits(entries, budget)
  {
    if entries != [] {
      FitsEach(entries[1..], budget - entries[0].bytes);
      assert entries == [entries[0]] + entries[1..];
    }
  }

  /** How many of the entries the next page takes, from their sizes alone. */
  function FirstPage(entries: seq<Entry>, limit: nat, budget: int): (n: nat)
    ensures n <= |entries| && n <= limit
    ensures limit >= 1 && entries != [] && entries[0].bytes <= budget ==> n >= 1
  {
    if entries == [] || limit == 0 || entries[0].bytes > budget then 0
    else 1 + FirstPage(entries[1..], limit - 1, budget - entries[0].bytes)
  }

  lemma {:induction false} FirstPageStops(entries: seq<Entry>, limit: nat, budget: int)
    requires budget >= 0
    ensures var n := FirstPage(entries, limit, budget);
            && Fits(entries[..n], limit, budget)
            && (n < |entries| ==> n >= limit || entries[n].bytes > budget - Bytes(entries[..n]))
  {
    var n := FirstPage(entries, limit, budget);
    if n > 0 {
      var rest := entries[1..];
      FirstPageStops(rest, limit - 1, budget - entries[0].bytes);
      assert entries[..n] == [entries[0]] + rest[..n - 1];
      assert entries[..n][1..] == rest[..n - 1];
    }
  }

  /** The longest prefix that fits has that many entries. */
  lemma LongestIsFirstPage(entries: seq<Entry>, remaining: seq<Entry>, limit: nat, budget: int)
    requires budget >= 0 && LongestFit(entries, remaining, limit, budget)
    ensures |entries| == FirstPage(remaining, limit, budget)
  {
    var n := FirstPage(remaining, limit, budget);
    FirstPageStops(remaining, limit, budget);
    assert entries == remaining[..|entries|];
    if n < |remaining| {
      LongestFromNext(remaining[..n], remaining, limit, budget);
    }
  }
}
