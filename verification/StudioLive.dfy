/** The live plugin list (internal/reaper/studio_live.go): rows become items sorted by key, and a
    page resumes by binary search at the first key above the cursor. */
module StudioLive {
  import opened Text
  import opened Paging
  import opened CursorPaging
  import opened LossyPaging
  import opened StudioCursor
  import StableSort

  /** What studioFXEntry makes of a row: an entry with its encoded size, or a row it refuses,
      which is keyed by its identifier. */
  datatype Row = Accepted(id: string, bytes: Option<nat>) | Rejected(ident: string)

  datatype Item = Listed(key: string, bytes: Option<nat>) | Skipped(key: string)

  function KeyOf(item: Item): string {
    item.key
  }

  /** A row that would repeat an id is skipped right behind the entry it repeats. */
  function ItemOf(row: Row, seen: set<string>): Item {
    match row
    case Rejected(ident) => Skipped(ident)
    case Accepted(id, bytes) => if id in seen then Skipped(id + "\0") else Listed(id, bytes)
  }

  function SeenAfter(row: Row, seen: set<string>): set<string> {
    if row.Accepted? then seen + {row.id} else seen
  }

  function Keyed(rows: seq<Row>, seen: set<string>): (items: seq<Item>)
    ensures |items| == |rows|
  {
    if rows == [] then [] else [ItemOf(rows[0], seen)] + Keyed(rows[1..], SeenAfter(rows[0], seen))
  }

  function ItemsOf(rows: seq<Row>): (items: seq<Item>) {
    StableSort.Sort(Keyed(rows, {}), KeyOf)
  }

  method StudioFxItems(rows: seq<Row>) returns (items: seq<Item>)
    ensures items == ItemsOf(rows)
  {
    items := [];
    var seen: set<string> := {};
    for i := 0 to |rows|
      invariant items + Keyed(rows[i..], seen) == Keyed(rows, {})
    {
      ghost var item := ItemOf(rows[i], seen);
      KeyedStep(rows, i, seen, items);
      match rows[i]
      case Rejected(ident) => items := items + [Skipped(ident)];
      case Accepted(id, bytes) =>
        if id in seen {
          items := items + [Skipped(id + "\0")];
          assert seen + {id} == seen;
        } else {
          seen := seen + {id};
          items := items + [Listed(id, bytes)];
        }
    }
    assert items + Keyed(rows[|rows|..], seen) == items;
    items := StableSort.Sort(items, KeyOf);
  }

  lemma KeyedStep(rows: seq<Row>, i: nat, seen: set<string>, items: seq<Item>)
    requires i < |rows|
    ensures items + Keyed(rows[i..], seen)
            == (items + [ItemOf(rows[i], seen)]) + Keyed(rows[i + 1..], SeenAfter(rows[i], seen))
  {
    assert rows[i..][1..] == rows[i + 1..];
    assert Keyed(rows[i..], seen) == [ItemOf(rows[i], seen)] + Keyed(rows[i + 1..], SeenAfter(rows[i], seen));
  }

  /* ---- Scanning the items ---- */

  function EventOf(item: Item): Event {
    match item
    case Skipped(key) => Count(key, Paging.Skipped(UnsupportedName, 1))
    case Listed(key, bytes) =>
      if bytes.None? then Count(key, Paging.Skipped(UnsupportedName, 1)) else Show(Entry(key, bytes.value))
  }

  function EventsOf(items: seq<Item>): (evs: seq<Event>)
    ensures |evs| == |items|
    ensures forall i :: 0 <= i < |items| ==> evs[i] == EventOf(items[i])
  {
    if items == [] then [] else [EventOf(items[0])] + EventsOf(items[1..])
  }

  /** The first index whose key is above the cursor. */
  function FirstAbove(items: seq<Item>, cursor: string): (start: nat)
    ensures start <= |items|
    ensures start < |items| ==> Less(cursor, items[start].key)
    ensures forall i :: 0 <= i < start ==> !Less(cursor, items[i].key)
  {
    if items == [] || Less(cursor, items[0].key) then 0 else 1 + FirstAbove(items[1..], cursor)
  }

  function FirstFrom(items: seq<Item>, cursor: string): (start: nat)
    ensures start <= |items|
  {
    if cursor == "" then 0 else FirstAbove(items, cursor)
  }

  function LiveSource(rows: seq<Row>): Source {
    id => EventsOf(ItemsOf(rows)[FirstFrom(ItemsOf(rows), id)..])
  }

  lemma {:induction false} FirstAboveUnique(items: seq<Item>, cursor: string, i: nat)
    requires i <= |items|
    requires forall k :: 0 <= k < i ==> !Less(cursor, items[k].key)
    requires i < |items| ==> Less(cursor, items[i].key)
    ensures FirstAbove(items, cursor) == i
  {
    if i > 0 {
      assert !Less(cursor, items[0].key);
      FirstAboveUnique(items[1..], cursor, i - 1);
    }
  }

  /** sort.Search over the ordered keys. */
  method SearchAbove(items: seq<Item>, cursor: string) returns (start: nat)
    requires StableSort.Ordered(items, KeyOf)
    ensures start == FirstAbove(items, cursor)
  {
    var i, j := 0, |items|;
    while i < j
      invariant 0 <= i <= j <= |items|
      invariant forall k :: 0 <= k < i ==> !Less(cursor, items[k].key)
      invariant forall k :: j <= k < |items| ==> Less(cursor, items[k].key)
    {
      var h := (i + j) / 2;
      if !Less(cursor, items[h].key) {
        forall k | 0 <= k <= h ensures !Less(cursor, items[k].key) {
          if k < h {
            assert !Less(KeyOf(items[h]), KeyOf(items[k]));
            StableSort.AtMost(items[k].key, items[h].key, cursor);
          }
        }
        i := h + 1;
      } else {
        forall k | h <= k < |items| ensures Less(cursor, items[k].key) {
          if h < k {
            assert !Less(KeyOf(items[k]), KeyOf(items[h]));
            AboveStays(cursor, items[h].key, items[k].key);
          }
        }
        j := h;
      }
    }
    start := i;
    FirstAboveUnique(items, cursor, start);
  }

  lemma AboveStays(a: string, b: string, c: string)
    requires Less(a, b) && !Less(c, b)
    ensures Less(a, c)
  {
    LessTotal(b, c);
    if b != c {
      LessTransitive(a, b, c);
    }
  }

  /** The page of a finished scan; when not even the first entry fits, the live list ends there
      without a cursor. */
  function LiveReport(s: Scan): StudioPage {
    var next := if s.full && s.entries != [] then EncodedCursor(s.entries[|s.entries| - 1].nativeId) else "";
    StudioPage(s.entries, next, if s.full then s.saved else s.now)
  }

  method PageStudioFxList(rows: seq<Row>, cursor: string, limit: nat, budget: int) returns (page: StudioPage)
    ensures page == LiveReport(Run(Start(budget), LiveSource(rows)(cursor), limit))
  {
    var items := StudioFxItems(rows);
    StableSort.SortOrders(Keyed(rows, {}), KeyOf);
    var start := 0;
    if cursor != "" {
      start := SearchAbove(items, cursor);
    }
    var scan := ScanItems(items[start..], limit, budget, EventsOf(items[start..]));
    page := CutPage(scan);
  }

  /** The page keeps the counts up to its last entry when it is full. */
  method CutPage(scan: Scan) returns (page: StudioPage)
    ensures page == LiveReport(scan)
  {
    var coverage, next := scan.now, "";
    if scan.full {
      coverage := scan.saved;
      if |scan.entries| > 0 {
        next := EncodeStudioCursor(scan.entries[|scan.entries| - 1].nativeId);
      }
    }
    page := StudioPage(scan.entries, next, coverage);
  }

  /** The loop of pageStudioFXList over the items behind the cursor; `scan` holds its local variables. */
  method ScanItems(items: seq<Item>, limit: nat, budget: int, ghost evs: seq<Event>) returns (scan: Scan)
    requires |evs| == |items| && forall i :: 0 <= i < |items| ==> evs[i] == EventOf(items[i])
    ensures scan == Run(Start(budget), evs, limit)
  {
    scan := Start(budget);
    ghost var start := scan;
    assert scan == Run(start, evs[..0], limit);
    for index := 0 to |items|
      invariant !scan.full && scan == Run(start, evs[..index], limit)
    {
      var item := items[index];
      RunNext(start, evs, index, limit);
      StepOfItem(scan, item, limit);
      if item.Skipped? || item.bytes.None? {
        scan := scan.(now := scan.now.Plus(Paging.Skipped(UnsupportedName, 1)));
      } else {
        var entry := Entry(item.key, item.bytes.value);
        if |scan.entries| >= limit || entry.bytes > scan.budget {
          scan := scan.(full := true);
          return;
        }
        scan := scan.(budget := scan.budget - entry.bytes);
        scan := scan.(now := scan.now.(visited := scan.now.visited + 1));
        scan := scan.(entries := scan.entries + [entry]);
        scan := scan.(saved := scan.now);
      }
    }
    WholePrefix(evs, |items|);
  }

  /** What the loop body does to its variables is one step of the scan. */
  lemma StepOfItem(scan: Scan, item: Item, limit: nat)
    requires !scan.full
    ensures Step(scan, EventOf(item), limit)
            == if item.Skipped? || item.bytes.None? then
                 scan.(now := scan.now.Plus(Paging.Skipped(UnsupportedName, 1)))
               else if |scan.entries| >= limit || item.bytes.value > scan.budget then scan.(full := true)
               else
                 var now := scan.now.(visited := scan.now.visited + 1);
                 Scan(scan.budget - item.bytes.value, false, now, now,
                      scan.entries + [Entry(item.key, item.bytes.value)])
  {
  }

  /** The next step of a scan, after which a full scan changes no more. */
  lemma RunNext(start: Scan, evs: seq<Event>, index: nat, limit: nat)
    requires index < |evs|
    ensures var s := Step(Run(start, evs[..index], limit), evs[index], limit);
            && Run(start, evs[..index + 1], limit) == s
            && (s.full ==> Run(start, evs, limit) == s)
  {
    var done, left := evs[..index + 1], evs[index + 1..];
    assert done == evs[..index] + [evs[index]];
    RunSnoc(start, evs[..index], evs[index], limit);
    var s := Run(start, done, limit);
    assert evs == done + left;
    RunAppend(start, done, left, limit);
    if s.full {
      FullStays(s, left, limit);
    }
  }

  lemma WholePrefix(evs: seq<Event>, n: nat)
    requires n == |evs|
    ensures evs[..n] == evs
  {
  }

  /* ---- The items of valid rows ---- */

  /** No two listed items share a key. */
  predicate Apart(a: Item, b: Item) {
    a.Listed? && b.Listed? ==> a.key != b.key
  }

  /** studioFXEntry gives only ids that can be emitted, and plain text holds no control character. */
  ghost predicate EmitsValidIds(rows: seq<Row>, text: string -> bool) {
    forall row :: row in rows && row.Accepted? ==> EmitAble(row.id, text) && '\0' !in row.id
  }

  ghost predicate ListsValidIds(items: seq<Item>, text: string -> bool) {
    forall item :: item in items && item.Listed? ==> EmitAble(item.key, text) && '\0' !in item.key
  }

  lemma {:induction false} KeyedApart(rows: seq<Row>, seen: set<string>, text: string -> bool)
    requires EmitsValidIds(rows, text)
    ensures StableSort.Pairwise(Keyed(rows, seen), Apart) && ListsValidIds(Keyed(rows, seen), text)
    ensures forall item :: item in Keyed(rows, seen) && item.Listed? ==> item.key !in seen
  {
    if rows != [] {
      var rest, seen' := rows[1..], SeenAfter(rows[0], seen);
      assert rows == [rows[0]] + rest;
      KeyedApart(rest, seen', text);
      var first, items := ItemOf(rows[0], seen), Keyed(rest, seen');
      assert first.Listed? ==> first.key in seen';
      FirstApart(first, items);
    }
  }

  lemma FirstApart(first: Item, items: seq<Item>)
    requires StableSort.Pairwise(items, Apart)
    requires first.Listed? ==> forall item :: item in items && item.Listed? ==> item.key != first.key
    ensures StableSort.Pairwise([first] + items, Apart)
  {
  }

  lemma ItemsApart(rows: seq<Row>, text: string -> bool)
    requires EmitsValidIds(rows, text)
    ensures var items := ItemsOf(rows);
            StableSort.Ordered(items, KeyOf) && StableSort.Pairwise(items, Apart) && ListsValidIds(items, text)
  {
    var items := ItemsOf(rows);
    KeyedApart(rows, {}, text);
    StableSort.SortOrders(Keyed(rows, {}), KeyOf);
    StableSort.SortPairwise(Keyed(rows, {}), KeyOf, Apart);
    forall item | item in items && item.Listed? ensures EmitAble(item.key, text) && '\0' !in item.key {
      assert item in multiset(items);
    }
  }

  /* ---- Resuming behind a listed id ---- */

  /** The binary search resumes directly behind an item unless the next one has the same key. */
  lemma {:induction false} ResumePoint(items: seq<Item>, k: nat)
    requires StableSort.Ordered(items, KeyOf) && k < |items|
    ensures FirstAbove(items, items[k].key) >= k + 1
    ensures FirstAbove(items, items[k].key) == k + 1
            <==> (k + 1 < |items| ==> items[k + 1].key != items[k].key)
  {
    NotAbove(items, k);
    if k + 1 < |items| {
      NextKey(items, k);
    }
  }

  lemma {:induction false} NotAbove(items: seq<Item>, k: nat)
    requires StableSort.Ordered(items, KeyOf) && k < |items|
    ensures FirstAbove(items, items[k].key) >= k + 1
  {
    forall i | 0 <= i <= k ensures !Less(items[k].key, items[i].key) {
      LessTotal(items[k].key, items[k].key);
      assert i < k ==> !Less(KeyOf(items[k]), KeyOf(items[i]));
    }
  }

  lemma NextKey(items: seq<Item>, k: nat)
    requires StableSort.Ordered(items, KeyOf) && k + 1 < |items|
    ensures Less(items[k].key, items[k + 1].key) <==> items[k].key != items[k + 1].key
  {
    assert !Less(KeyOf(items[k + 1]), KeyOf(items[k]));
    LessTotal(items[k].key, items[k + 1].key);
  }

  lemma EventsFrom(items: seq<Item>, n: nat)
    requires n <= |items|
    ensures EventsOf(items[n..]) == EventsOf(items)[n..]
  {
  }

  /** How many rows refused under the key `id` come after the row that lists it. */
  function Twins(rows: seq<Row>, id: string): nat {
    if rows == [] then 0
    else if rows[0].Accepted? && rows[0].id == id then Refused(rows[1..], id)
    else Twins(rows[1..], id)
  }

  function Refused(rows: seq<Row>, id: string): nat {
    if rows == [] then 0 else (if rows[0] == Rejected(id) then 1 else 0) + Refused(rows[1..], id)
  }

  function KeyedLike(items: seq<Item>, id: string): seq<Item> {
    StableSort.Keep(items, KeyOf, id)
  }

  function BehindListed(same: seq<Item>): nat {
    if same == [] then 0 else if same[0].Listed? then |same| - 1 else BehindListed(same[1..])
  }

  lemma {:induction false} KeyedRefused(rows: seq<Row>, seen: set<string>, id: string)
    requires id in seen && '\0' !in id
    ensures |KeyedLike(Keyed(rows, seen), id)| == Refused(rows, id)
  {
    if rows != [] {
      KeyedRefused(rows[1..], SeenAfter(rows[0], seen), id);

    }
  }

  lemma {:induction false} KeyedTwins(rows: seq<Row>, seen: set<string>, id: string)
    requires id !in seen && '\0' !in id
    ensures BehindListed(KeyedLike(Keyed(rows, seen), id)) == Twins(rows, id)
  {
    if rows != [] {
      var rest, seen' := rows[1..], SeenAfter(rows[0], seen);
      if rows[0].Accepted? && rows[0].id == id {
        KeyedRefused(rest, seen', id);
      } else {
        KeyedTwins(rest, seen', id);
      }
    }
  }

  /** The items behind a listed item split into those with its key, which a cursor for it passes
      over, and those above it. */
  lemma {:induction false} SameKeyRun(items: seq<Item>, id: string, start: nat)
    requires StableSort.Ordered(items, KeyOf) && start <= |items|
    requires forall i :: 0 <= i < |items| ==> !Less(items[i].key, id)
    requires start == FirstAbove(items, id)
    ensures |KeyedLike(items, id)| == start
    ensures forall i :: 0 <= i < start ==> items[i].key == id
  {
    if items != [] {
      LessTotal(id, items[0].key);
      if start == 0 {
        NoneKept(items, id);
      } else {
        SameKeyRun(items[1..], id, start - 1);
        assert forall i :: 1 <= i < start ==> items[i] == items[1..][i - 1];
      }
    }
  }

  lemma {:induction false} NoneKept(items: seq<Item>, id: string)
    requires StableSort.Ordered(items, KeyOf)
    requires items != [] ==> Less(id, items[0].key)
    ensures |KeyedLike(items, id)| == 0
  {
    if items != [] {
      LessTotal(id, items[0].key);
      if |items| > 1 {
        assert !Less(KeyOf(items[1]), KeyOf(items[0]));
        AboveStays(id, items[0].key, items[1].key);
      }
      NoneKept(items[1..], id);
    }
  }

  lemma {:induction false} FirstListed(items: seq<Item>, k: nat)
    requires StableSort.Pairwise(items, Apart)
    requires k < |items| && items[k].Listed?
    ensures BehindListed(KeyedLike(items, items[k].key)) == |KeyedLike(items[k + 1..], items[k].key)|
    decreases k
  {
    if k > 0 {
      assert Apart(items[0], items[k]);
      FirstListed(items[1..], k - 1);
      assert items[1..][k..] == items[k + 1..];
    }
  }

  lemma {:induction false} PassedOver(items: seq<Item>, k: nat)
    requires StableSort.Ordered(items, KeyOf) && k < |items|
    ensures FirstAbove(items, items[k].key) == k + 1 + |KeyedLike(items[k + 1..], items[k].key)|
    ensures forall i :: k < i < FirstAbove(items, items[k].key) ==> items[i].key == items[k].key
  {
    var id, rest, start := items[k].key, items[k + 1..], FirstAbove(items, items[k].key);
    ResumePoint(items, k);
    RestNotBelow(items, k, rest);
    RestOrdered(items, k + 1);
    FirstAboveUnique(rest, id, start - k - 1);
    SameKeyRun(rest, id, start - k - 1);
    assert forall i :: k < i < start ==> items[i] == rest[i - k - 1];
  }

  lemma RestNotBelow(items: seq<Item>, k: nat, rest: seq<Item>)
    requires StableSort.Ordered(items, KeyOf) && k < |items| && rest == items[k + 1..]
    ensures forall i :: 0 <= i < |rest| ==> !Less(rest[i].key, items[k].key)
  {
    forall i | 0 <= i < |rest| ensures !Less(rest[i].key, items[k].key) {
      assert !Less(KeyOf(items[k + 1 + i]), KeyOf(items[k]));
    }
  }

  lemma RestOrdered(items: seq<Item>, n: nat)
    requires StableSort.Ordered(items, KeyOf) && n <= |items|
    ensures StableSort.Ordered(items[n..], KeyOf)
  {
  }

  lemma TwinsOfItem(rows: seq<Row>, id: string)
    requires '\0' !in id
    ensures BehindListed(KeyedLike(ItemsOf(rows), id)) == Twins(rows, id)
  {
    StableSort.SortKeeps(Keyed(rows, {}), KeyOf, id);
    KeyedTwins(rows, {}, id);
  }

  /** Resuming behind a listed item passes over its later twins, which are all refused rows, and
      nothing else. */
  lemma {:induction false} ResumesBehindTwins(rows: seq<Row>, k: nat, text: string -> bool)
    requires EmitsValidIds(rows, text)
    requires k < |rows| && ItemsOf(rows)[k].Listed?
    ensures var items, start := ItemsOf(rows), FirstAbove(ItemsOf(rows), ItemsOf(rows)[k].key);
            && start == k + 1 + Twins(rows, items[k].key)
            && forall i :: k < i < start ==> items[i].Skipped?
  {
    var items := ItemsOf(rows);
    ItemsApart(rows, text);
    assert items[k] in items;
    TwinsOfItem(rows, items[k].key);
    FirstListed(items, k);
    PassedOver(items, k);
    var start := FirstAbove(items, items[k].key);
    forall i | k < i < start ensures items[i].Skipped? {
      assert Apart(items[k], items[i]);
    }
  }

  /* ---- Pages of the live list ---- */

  lemma {:induction false} SkippedEvents(items: seq<Item>)
    requires forall i :: 0 <= i < |items| ==> items[i].Skipped?
    ensures |Shown(EventsOf(items))| == 0
    ensures Total(EventsOf(items)) == Paging.Skipped(UnsupportedName, |items|)
  {
    if items != [] {
      SkippedEvents(items[1..]);
      var evs := EventsOf(items);
      assert evs[1..] == EventsOf(items[1..]);
      assert evs[0] == EventOf(items[0]);
    }
  }

  /** What a cursor for `id` passes over: the rows refused under its key behind the row that lists it. */
  function TwinLoss(rows: seq<Row>): Loss {
    id => Twins(rows, id)
  }

  lemma ListedEmitAble(items: seq<Item>, k: nat, text: string -> bool)
    requires ListsValidIds(items, text) && k < |items| && items[k].Listed?
    ensures EmitAble(items[k].key, text)
  {
    assert items[k] in items;
  }

  lemma LosesBetween(source: Source, items: seq<Item>, k: nat, next: nat, loss: Loss, text: string -> bool)
    requires k < next <= |items| && items[k].Listed? && items[k].bytes.Some? && EmitAble(items[k].key, text)
    requires next == k + 1 + loss(items[k].key) && forall i :: k < i < next ==> items[i].Skipped?
    requires source(items[k].key) == EventsOf(items[next..])
    ensures ResumesPast(source, EventsOf(items), k, loss, text)
  {
    assert EventsOf(items)[k] == EventOf(items[k]);
    EventsFrom(items, next);
    SkippedAt(items, k + 1, next);
  }

  lemma SkippedAt(items: seq<Item>, a: nat, b: nat)
    requires a <= b <= |items| && forall i :: a <= i < b ==> items[i].Skipped?
    ensures Unlisted(EventsOf(items)[a..b])
  {
    SkippedEvents(items[a..b]);
    EventsBetween(items, a, b);
  }

  lemma EventsBetween(items: seq<Item>, a: nat, b: nat)
    requires a <= b <= |items|
    ensures EventsOf(items)[a..b] == EventsOf(items[a..b])
  {
    var evs, part := EventsOf(items), EventsOf(items[a..b]);
    forall i | 0 <= i < b - a ensures evs[a..b][i] == part[i] {
      assert items[a..b][i] == items[a + i];
    }
  }

  lemma LiveIsLossyAt(rows: seq<Row>, k: nat, text: string -> bool)
    requires EmitsValidIds(rows, text)
    requires k < |rows| && ItemsOf(rows)[k].Listed? && ItemsOf(rows)[k].bytes.Some?
    ensures ResumesPast(LiveSource(rows), EventsOf(ItemsOf(rows)), k, TwinLoss(rows), text)
  {
    var items := ItemsOf(rows);
    ItemsApart(rows, text);
    ListedEmitAble(items, k, text);
    ResumesBehindTwins(rows, k, text);
    LosesBetween(LiveSource(rows), items, k, FirstAbove(items, items[k].key), TwinLoss(rows), text);
  }

  lemma LiveIsLossy(rows: seq<Row>, text: string -> bool)
    requires EmitsValidIds(rows, text)
    ensures Lossy(LiveSource(rows), LiveSource(rows)(""), TwinLoss(rows), text)
  {
    var items := ItemsOf(rows);
    var evs := EventsOf(items);
    assert items[0..] == items;
    forall k | 0 <= k < |evs| && evs[k].Show?
      ensures ResumesPast(LiveSource(rows), evs, k, TwinLoss(rows), text)
    {
      assert evs[k] == EventOf(items[k]);
      LiveIsLossyAt(rows, k, text);
    }
  }

  lemma {:induction false} CountsEveryItem(items: seq<Item>)
    ensures var total := Total(EventsOf(items));
            && total.visited == |items|
            && |Shown(EventsOf(items))| + total.skips.unsupportedName == |items|
            && total.skips.Count() == total.skips.unsupportedName
  {
    if items != [] {
      CountsEveryItem(items[1..]);
      var evs := EventsOf(items);
      assert evs[1..] == EventsOf(items[1..]);
      assert evs[0] == EventOf(items[0]);
    }
  }

  lemma CountsEveryRow(rows: seq<Row>)
    ensures OneItemEach(LiveSource(rows)(""), |rows|)
  {
    assert ItemsOf(rows)[0..] == ItemsOf(rows);
    CountsEveryItem(ItemsOf(rows));
  }

  /** Live pages concatenate to the one-shot list; their entries and skips together count every row
      once, except the rows that the cursors at their cuts pass over. */
  lemma LivePagesGlueTogether(rows: seq<Row>, limit: nat, budget: int, text: string -> bool, pages: seq<StudioPage>)
    returns (chain: seq<Page>)
    requires EmitsValidIds(rows, text) && limit >= 1 && budget >= 1
    requires FollowsCursors(LiveSource(rows), "", limit, budget, text, pages)
    ensures var whole := LiveSource(rows)("");
            && PagesCount(whole, |rows|, Lost(TwinLoss(rows), Shown(whole), limit, budget), pages)
            && pages == EncodedPages(chain) && GreedyPages(Shown(whole), chain, limit, budget)
  {
    LiveIsLossy(rows, text);
    CountsEveryRow(rows);
    chain := LossyPagesCount(LiveSource(rows), |rows|, limit, budget, TwinLoss(rows), text, pages);
  }

  /** Whatever the limit, every row is counted on exactly one page if and only if no entry but the
      last has a later row refused under its key. */
  lemma EveryRowIsCounted(rows: seq<Row>, budget: int, text: string -> bool)
    requires EmitsValidIds(rows, text) && budget >= 1
    requires EachFits(Shown(LiveSource(rows)("")), budget) && ShortCursors(Shown(LiveSource(rows)("")))
    ensures AlwaysCounts(LiveSource(rows), |rows|, budget, text)
            <==> LosesNothing(TwinLoss(rows), Shown(LiveSource(rows)("")))
  {
    LiveIsLossy(rows, text);
    CountsEveryRow(rows);
    CountsAllAtEveryLimit(LiveSource(rows), |rows|, budget, TwinLoss(rows), text);
  }

  /** The live list can be read to its end exactly when its greedy cuts fall at short cursors. */
  lemma WhenLivePagingEnds(rows: seq<Row>, limit: nat, budget: int, text: string -> bool)
    requires EmitsValidIds(rows, text) && limit >= 1 && budget >= 1
    ensures ReadableToTheEnd(LiveSource(rows), limit, budget, text)
            <==> CutsAtShortCursors(Shown(LiveSource(rows)("")), limit, budget)
  {
    LiveIsLossy(rows, text);
    WhenLossyPagingEnds(LiveSource(rows), limit, budget, TwinLoss(rows), text);
  }

  function ClashingRows(a: string, b: string, behind: bool): seq<Row> {
    var first, second, refused := Accepted(a, Some(1)), Accepted(b, Some(1)), Rejected(a);
    if behind then [first, refused, second] else [refused, first, second]
  }

  lemma SortedAlready(x: Item, y: Item, z: Item)
    requires !Less(y.key, x.key) && !Less(z.key, y.key) && !Less(z.key, x.key)
    ensures StableSort.Sort([x, y, z], KeyOf) == [x, y, z]
  {
    assert [x, y, z][1..] == [y, z] && [y, z][1..] == [z] && [z][1..] == [];
    assert StableSort.Sort([z], KeyOf) == [z];
    assert StableSort.Sort([y, z], KeyOf) == [y, z];
  }

  lemma KeyedThree(x: Row, y: Row, z: Row)
    ensures var seen := SeenAfter(x, {});
            Keyed([x, y, z], {}) == [ItemOf(x, {}), ItemOf(y, seen), ItemOf(z, SeenAfter(y, seen))]
  {
    var seen := SeenAfter(x, {});
    assert [x, y, z][1..] == [y, z] && [y, z][1..] == [z] && [z][1..] == [];
    assert Keyed([z], SeenAfter(y, seen)) == [ItemOf(z, SeenAfter(y, seen))];
    assert Keyed([y, z], seen) == [ItemOf(y, seen)] + Keyed([z], SeenAfter(y, seen));
  }

  lemma ClashingItems(a: string, b: string, behind: bool)
    requires Less(a, b)
    ensures var first, second, refused := Listed(a, Some(1)), Listed(b, Some(1)), Skipped(a);
            ItemsOf(ClashingRows(a, b, behind)) == if behind then [first, refused, second] else [refused, first, second]
  {
    LessTotal(a, b);
    LessTotal(a, a);
    var first, second, refused := Listed(a, Some(1)), Listed(b, Some(1)), Skipped(a);
    var rows := ClashingRows(a, b, behind);
    KeyedThree(rows[0], rows[1], rows[2]);
    assert rows == [rows[0], rows[1], rows[2]];
    if behind {
      SortedAlready(first, refused, second);
    } else {
      SortedAlready(refused, first, second);
    }
  }

  lemma ClashingPages(a: string, b: string, behind: bool, budget: int)
    requires budget >= 1 && Less(a, b)
    ensures Shown(LiveSource(ClashingRows(a, b, behind))("")) == [Entry(a, 1), Entry(b, 1)]
    ensures var rows := ClashingRows(a, b, behind);
            Lost(TwinLoss(rows), Shown(LiveSource(rows)("")), 1, budget) == if behind then 1 else 0
  {
    var rows := ClashingRows(a, b, behind);
    var items := ItemsOf(rows);
    ClashingItems(a, b, behind);
    assert items[0..] == items;
    ShownOfThree(EventsOf(items), if behind then 1 else 0, Entry(a, 1), Entry(b, 1));
    LostOfTwo(TwinLoss(rows), Entry(a, 1), Entry(b, 1), budget);
    TwinsOfThree(rows, a, b, behind);
  }

  lemma TwinsOfThree(rows: seq<Row>, a: string, b: string, behind: bool)
    requires rows == ClashingRows(a, b, behind)
    ensures Twins(rows, a) == if behind then 1 else 0
  {
    assert rows[1..] == [rows[1], rows[2]] && rows[1..][1..] == [rows[2]] && rows[1..][1..][1..] == [];
    assert Refused([rows[2]], a) == 0;
  }

  lemma ShownOfThree(evs: seq<Event>, counted: nat, a: Entry, b: Entry)
    requires |evs| == 3 && counted <= 1 && !evs[counted].Show?
    requires evs[if counted == 0 then 1 else 0] == Show(a) && evs[2] == Show(b)
    ensures Shown(evs) == [a, b]
  {
    assert evs[1..] == [evs[1], evs[2]] && evs[1..][1..] == [evs[2]] && [evs[2]][1..] == [];
    assert Shown([evs[2]]) == [b];
  }

  lemma LostOfTwo(loss: Loss, a: Entry, b: Entry, budget: int)
    requires a.bytes <= budget && b.bytes <= budget
    ensures Lost(loss, [a, b], 1, budget) == loss(a.nativeId)
  {
    assert [a, b][1..] == [b];
    assert FirstPage([a, b], 1, budget) == 1 && FirstPage([b], 1, budget) == 1;
  }

  predicate ShortId(id: string, text: string -> bool) {
    EmitAble(id, text) && '\0' !in id && |id| <= 168
  }

  lemma ClashingIds(a: string, b: string, behind: bool, text: string -> bool)
    requires ShortId(a, text) && ShortId(b, text)
    ensures EmitsValidIds(ClashingRows(a, b, behind), text)
    ensures ShortCursor(Entry(a, 1)) && ShortCursor(Entry(b, 1))
  {
    CursorRoundTrip(a, text);
    CursorRoundTrip(b, text);
  }

  lemma TwoPages(a: Entry, b: Entry, budget: int)
    requires ShortCursor(a) && ShortCursor(b) && a.bytes <= budget && b.bytes <= budget
    ensures CutsAtShortCursors([a, b], 1, budget)
  {
    CutsAnywhere([a, b], 1, budget);
  }

  lemma ClashingListIsRead(a: string, b: string, behind: bool, budget: int, text: string -> bool)
    requires ShortId(a, text) && ShortId(b, text) && Less(a, b) && budget >= 1
    ensures ReadableToTheEnd(LiveSource(ClashingRows(a, b, behind)), 1, budget, text)
  {
    ClashingIds(a, b, behind, text);
    ClashingPages(a, b, behind, budget);
    TwoPages(Entry(a, 1), Entry(b, 1), budget);
    WhenLivePagingEnds(ClashingRows(a, b, behind), 1, budget, text);
  }

  /** Two entries and a row refused under the key of the first, one entry a page: the refused row is lost
      when it comes behind its entry, and counted when it comes in front. */
  lemma TwinBehindIsLost(a: string, b: string, behind: bool, budget: int, text: string -> bool)
    requires ShortId(a, text) && ShortId(b, text) && Less(a, b) && budget >= 1
    ensures exists pages: seq<StudioPage> ::
              && FollowsCursors(LiveSource(ClashingRows(a, b, behind)), "", 1, budget, text, pages)
              && Coverage(pages).visited == if behind then 2 else 3
  {
    var rows := ClashingRows(a, b, behind);
    ClashingIds(a, b, behind, text);
    ClashingListIsRead(a, b, behind, budget, text);
    ClashingPages(a, b, behind, budget);
    var pages: seq<StudioPage> :| FollowsCursors(LiveSource(rows), "", 1, budget, text, pages);
    var chain := LivePagesGlueTogether(rows, 1, budget, text, pages);
    assert |rows| == 3;
  }

  /** With every entry within the budget a live page is the page the cursor protocol asks for. */
  lemma LiveReportResponds(rows: seq<Row>, cursor: string, limit: nat, budget: int, text: string -> bool)
    requires limit >= 1 && budget >= 1 && EachFits(Shown(LiveSource(rows)("")), budget)
    requires DecodedCursor(cursor, text).Some?
    ensures var id := DecodedCursor(cursor, text).value;
            Respond(LiveSource(rows), cursor, limit, budget, text)
            == Listing(LiveReport(Run(Start(budget), LiveSource(rows)(id), limit)))
  {
    var items, id := ItemsOf(rows), DecodedCursor(cursor, text).value;
    var start := FirstFrom(items, id);
    assert items[0..] == items;
    EventsFrom(items, start);
    SuffixFits(EventsOf(items), start, limit, budget);
  }

  lemma SuffixFits(evs: seq<Event>, start: nat, limit: nat, budget: int)
    requires limit >= 1 && budget >= 1 && start <= |evs| && EachFits(Shown(evs), budget)
    ensures PageOf(evs[start..], limit, budget).Some?
  {
    assert evs == evs[..start] + evs[start..];
    ShownAppend(evs[..start], evs[start..]);
    FittingPage(evs[start..], limit, budget);
  }

  /* ---- What the whole list shows ---- */

  /** The row that first gives the id. */
  ghost predicate FirstAccepted(rows: seq<Row>, id: string, i: nat) {
    && i < |rows| && rows[i].Accepted? && rows[i].id == id
    && forall k :: 0 <= k < i ==> !(rows[k].Accepted? && rows[k].id == id)
  }

  lemma {:induction false} KeyedLists(rows: seq<Row>, seen: set<string>, item: Item)
    requires item.Listed?
    ensures item in Keyed(rows, seen)
            <==> item.key !in seen && exists i: nat :: FirstAccepted(rows, item.key, i) && rows[i].bytes == item.bytes
  {
    if rows != [] {
      var rest, first := rows[1..], ItemOf(rows[0], seen);
      KeyedLists(rest, SeenAfter(rows[0], seen), item);
      assert Keyed(rows, seen) == [first] + Keyed(rest, SeenAfter(rows[0], seen));
      FirstOrLater(rows, rest, item.key, item.bytes);
    }
  }

  ghost predicate GivesFirst(rows: seq<Row>, id: string, bytes: Option<nat>) {
    exists i: nat :: FirstAccepted(rows, id, i) && rows[i].bytes == bytes
  }

  lemma FirstOrLater(rows: seq<Row>, rest: seq<Row>, id: string, bytes: Option<nat>)
    requires rows != [] && rest == rows[1..]
    ensures GivesFirst(rows, id, bytes)
            <==> if rows[0].Accepted? && rows[0].id == id then rows[0].bytes == bytes else GivesFirst(rest, id, bytes)
  {
    assert forall k :: 1 <= k < |rows| ==> rows[k] == rest[k - 1];
    if rows[0].Accepted? && rows[0].id == id {
      assert FirstAccepted(rows, id, 0);
    } else {
      if i: nat :| FirstAccepted(rows, id, i) && rows[i].bytes == bytes {
        assert FirstAccepted(rest, id, i - 1);
      }
      if i: nat :| FirstAccepted(rest, id, i) && rest[i].bytes == bytes {
        assert FirstAccepted(rows, id, i + 1);
      }
    }
  }

  lemma {:induction false} ShownItems(items: seq<Item>, e: Entry)
    ensures e in Shown(EventsOf(items)) <==> Listed(e.nativeId, Some(e.bytes)) in items
  {
    if items != [] {
      var evs := EventsOf(items);
      ShownItems(items[1..], e);
      assert evs[1..] == EventsOf(items[1..]) && evs[0] == EventOf(items[0]);
      assert items == [items[0]] + items[1..];
    }
  }

  /** The whole list shows exactly the accepted rows that have an entry and are the first of their id. */
  lemma ShowsAccepted(rows: seq<Row>, e: Entry)
    ensures e in Shown(LiveSource(rows)(""))
            <==> GivesFirst(rows, e.nativeId, Some(e.bytes))
  {
    var items := ItemsOf(rows);
    assert items[0..] == items;
    ShownItems(items, e);
    StableSort.SortOrders(Keyed(rows, {}), KeyOf);
    assert Listed(e.nativeId, Some(e.bytes)) in items <==> Listed(e.nativeId, Some(e.bytes)) in multiset(items);
    KeyedLists(rows, {}, Listed(e.nativeId, Some(e.bytes)));
  }

  /** It shows them in strictly increasing order of their ids. */
  lemma ShownInOrder(rows: seq<Row>, text: string -> bool, i: nat, j: nat)
    requires EmitsValidIds(rows, text) && i < j < |Shown(LiveSource(rows)(""))|
    ensures Less(Shown(LiveSource(rows)(""))[i].nativeId, Shown(LiveSource(rows)(""))[j].nativeId)
  {
    var items := ItemsOf(rows);
    assert items[0..] == items;
    ItemsApart(rows, text);
    ShownItemsInOrder(items, EventsOf(items), i, j);
  }

  lemma ShownItemsInOrder(items: seq<Item>, evs: seq<Event>, i: nat, j: nat)
    requires StableSort.Ordered(items, KeyOf) && StableSort.Pairwise(items, Apart) && evs == EventsOf(items)
    requires i < j < |Shown(evs)|
    ensures Less(Shown(evs)[i].nativeId, Shown(evs)[j].nativeId)
  {
    var p := ShownAt(evs, i);
    var q := ShownAt(evs, j);
    ShownOrder(evs, i, j, p, q);
    assert evs[p] == EventOf(items[p]) && evs[q] == EventOf(items[q]);
    assert Apart(items[p], items[q]) && !Less(KeyOf(items[q]), KeyOf(items[p]));
    LessTotal(items[p].key, items[q].key);
  }

  /* ---- Lists with an entry that no page can hold ---- */

  /** What a live page answers: there is no answer for an entry that is too large. */
  function LiveRespond(source: Source, cursor: string, limit: nat, budget: int, text: string -> bool): Response {
    match DecodedCursor(cursor, text)
    case None => CursorReset
    case Some(id) => Listing(LiveReport(Run(Start(budget), source(id), limit)))
  }

  ghost predicate FollowsLive(source: Source, cursor: string, limit: nat, budget: int, text: string -> bool,
                              pages: seq<StudioPage>)
    decreases |pages|
  {
    && pages != []
    && LiveRespond(source, cursor, limit, budget, text) == Listing(pages[0])
    && if pages[0].nextCursor == "" then |pages| == 1
       else FollowsLive(source, pages[0].nextCursor, limit, budget, text, pages[1..])
  }

  /** The entries before the first that exceeds the budget. */
  function BeforeTooLarge(entries: seq<Entry>, budget: int): (r: seq<Entry>)
    ensures r <= entries
  {
    if entries == [] || entries[0].bytes > budget then [] else [entries[0]] + BeforeTooLarge(entries[1..], budget)
  }

  /** Cut greedily, no page ends at an entry with too long a cursor before the listing stops. */
  predicate StopsAtShortCursors(entries: seq<Entry>, limit: nat, budget: int)
    decreases |entries|
  {
    var n := FirstPage(entries, limit, budget);
    n == 0 || n == |entries| || (ShortCursor(entries[n - 1]) && StopsAtShortCursors(entries[n..], limit, budget))
  }

  lemma {:induction false} BeforeAppend(a: seq<Entry>, b: seq<Entry>, budget: int)
    requires EachFits(a, budget)
    ensures BeforeTooLarge(a + b, budget) == a + BeforeTooLarge(b, budget)
  {
    if a == [] {
      assert a + b == b;
    } else {
      assert a[0] in a && (a + b)[1..] == a[1..] + b;
      BeforeAppend(a[1..], b, budget);
    }
  }

  lemma AllBefore(entries: seq<Entry>, budget: int)
    ensures BeforeTooLarge(entries, budget) == entries <==> EachFits(entries, budget)
  {
    if entries != [] {
      AllBefore(entries[1..], budget);
      assert entries == [entries[0]] + entries[1..];
    }
  }

  /** A page without a cursor lists what is before the first entry that is too large. */
  lemma LastLivePage(evs: seq<Event>, limit: nat, budget: int)
    requires limit >= 1 && budget >= 1 && LiveReport(Run(Start(budget), evs, limit)).nextCursor == ""
    ensures LiveReport(Run(Start(budget), evs, limit)).entries == BeforeTooLarge(Shown(evs), budget)
    ensures StopsAtShortCursors(Shown(evs), limit, budget)
  {
    var covered, rest := PageShape(evs, limit, budget);
    if PageOf(evs, limit, budget).Some? {
      var page := PageOf(evs, limit, budget).value;
      assert page.next.None? && covered == evs;
      LongestIsFirstPage(page.entries, Shown(evs), limit, budget);
      FitsEach(page.entries, budget);
      AllBefore(Shown(evs), budget);
    }
  }

  /** A page with a cursor is followed by what its cursor leads to. */
  lemma NextLivePage(source: Source, whole: seq<Event>, start: nat, limit: nat, budget: int, loss: Loss,
                     text: string -> bool)
    returns (next: nat)
    requires Lossy(source, whole, loss, text) && limit >= 1 && budget >= 1 && start <= |whole|
    requires LiveReport(Run(Start(budget), whole[start..], limit)).nextCursor != ""
    ensures start < next <= |whole|
    ensures var page, shown := LiveReport(Run(Start(budget), whole[start..], limit)), Shown(whole[start..]);
            && BeforeTooLarge(shown, budget) == page.entries + BeforeTooLarge(Shown(whole[next..]), budget)
            && (DecodedCursor(page.nextCursor, text).Some? ==> LeadsTo(source, page.nextCursor, whole[next..], text))
            && (StopsAtShortCursors(shown, limit, budget)
                <==> DecodedCursor(page.nextCursor, text).Some? && StopsAtShortCursors(Shown(whole[next..]), limit, budget))
  {
    var page := PageOf(whole[start..], limit, budget).value;
    next := PageCut(source, whole, start, page, limit, budget, loss, text);
    FitsEach(page.entries, budget);
    BeforeAppend(page.entries, Shown(whole[next..]), budget);
    CursorRoundTrip(page.next.value, text);
    var n := |page.entries|;
    assert Shown(whole[start..])[n..] == Shown(whole[next..]) && Shown(whole[start..])[n - 1] == page.entries[n - 1];
  }

  lemma {:induction false} FollowedLive(source: Source, whole: seq<Event>, start: nat, cursor: string, limit: nat,
                                        budget: int, loss: Loss, text: string -> bool, pages: seq<StudioPage>)
    requires Lossy(source, whole, loss, text) && limit >= 1 && budget >= 1
    requires start <= |whole| && LeadsTo(source, cursor, whole[start..], text)
    requires FollowsLive(source, cursor, limit, budget, text, pages)
    ensures Entries(pages) == BeforeTooLarge(Shown(whole[start..]), budget)
    ensures StopsAtShortCursors(Shown(whole[start..]), limit, budget)
    decreases |pages|
  {
    if pages[0].nextCursor == "" {
      LastLivePage(whole[start..], limit, budget);
      assert pages == [pages[0]];
    } else {
      var next := NextLivePage(source, whole, start, limit, budget, loss, text);
      FollowedLive(source, whole, next, pages[0].nextCursor, limit, budget, loss, text, pages[1..]);
    }
  }

  lemma {:induction false} ReadLive(source: Source, whole: seq<Event>, start: nat, cursor: string, limit: nat,
                                    budget: int, loss: Loss, text: string -> bool)
    returns (pages: seq<StudioPage>)
    requires Lossy(source, whole, loss, text) && limit >= 1 && budget >= 1
    requires start <= |whole| && LeadsTo(source, cursor, whole[start..], text)
    requires StopsAtShortCursors(Shown(whole[start..]), limit, budget)
    ensures FollowsLive(source, cursor, limit, budget, text, pages)
    decreases |whole| - start
  {
    var page := LiveReport(Run(Start(budget), whole[start..], limit));
    if page.nextCursor == "" {
      pages := [page];
    } else {
      var next := NextLivePage(source, whole, start, limit, budget, loss, text);
      var more := ReadLive(source, whole, next, page.nextCursor, limit, budget, loss, text);
      pages := [page] + more;
      assert pages[1..] == more;
    }
  }

  /** Live pages that follow the cursors list exactly the entries before the first that exceeds the budget;
      nothing tells that others follow it. So all entries are listed if and only if each fits a page. */
  lemma LiveListStops(rows: seq<Row>, limit: nat, budget: int, text: string -> bool, pages: seq<StudioPage>)
    requires EmitsValidIds(rows, text) && limit >= 1 && budget >= 1
    requires FollowsLive(LiveSource(rows), "", limit, budget, text, pages)
    ensures var shown := Shown(LiveSource(rows)(""));
            && Entries(pages) == BeforeTooLarge(shown, budget)
            && (Entries(pages) == shown <==> EachFits(shown, budget))
  {
    var whole := LiveSource(rows)("");
    LiveIsLossy(rows, text);
    assert whole[0..] == whole;
    FollowedLive(LiveSource(rows), whole, 0, "", limit, budget, TwinLoss(rows), text, pages);
    AllBefore(Shown(whole), budget);
  }

  ghost predicate LiveEnds(source: Source, limit: nat, budget: int, text: string -> bool) {
    exists pages: seq<StudioPage> :: FollowsLive(source, "", limit, budget, text, pages)
  }

  lemma WhenLossyListStops(source: Source, whole: seq<Event>, limit: nat, budget: int, loss: Loss, text: string -> bool)
    requires Lossy(source, whole, loss, text) && limit >= 1 && budget >= 1
    ensures LiveEnds(source, limit, budget, text) <==> StopsAtShortCursors(Shown(whole), limit, budget)
  {
    assert whole[0..] == whole;
    if LiveEnds(source, limit, budget, text) {
      var pages: seq<StudioPage> :| FollowsLive(source, "", limit, budget, text, pages);
      FollowedLive(source, whole, 0, "", limit, budget, loss, text, pages);
    }
    if StopsAtShortCursors(Shown(whole), limit, budget) {
      var pages := ReadLive(source, whole, 0, "", limit, budget, loss, text);
    }
  }

  /** They come to an end if and only if the cuts before that entry fall at short cursors. */
  lemma WhenLiveListStops(rows: seq<Row>, limit: nat, budget: int, text: string -> bool)
    requires EmitsValidIds(rows, text) && limit >= 1 && budget >= 1
    ensures LiveEnds(LiveSource(rows), limit, budget, text)
            <==> StopsAtShortCursors(Shown(LiveSource(rows)("")), limit, budget)
  {
    LiveIsLossy(rows, text);
    WhenLossyListStops(LiveSource(rows), LiveSource(rows)(""), limit, budget, TwinLoss(rows), text);
  }

  /** With entries that fit, these are the pages of the cursor protocol. */
  lemma {:induction false} SameProtocol(rows: seq<Row>, cursor: string, limit: nat, budget: int, text: string -> bool,
                                        pages: seq<StudioPage>)
    requires limit >= 1 && budget >= 1 && EachFits(Shown(LiveSource(rows)("")), budget)
    ensures FollowsLive(LiveSource(rows), cursor, limit, budget, text, pages)
            <==> FollowsCursors(LiveSource(rows), cursor, limit, budget, text, pages)
    decreases |pages|
  {
    if DecodedCursor(cursor, text).Some? {
      LiveReportResponds(rows, cursor, limit, budget, text);
    }
    if pages != [] && pages[0].nextCursor != "" {
      SameProtocol(rows, pages[0].nextCursor, limit, budget, text, pages[1..]);
    }
  }
}
