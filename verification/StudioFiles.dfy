/** The resumable catalog walk over one source folder (internal/reaper/studio_files.go).
    Every page repeats the walk from the root and emits what lies after the cursor. */
module StudioFiles {
  import opened Text
  import opened StudioPaths
  import opened Paging
  import opened CursorPaging

  const WALK_DEPTH_LIMIT := 16
  const DIRECTORY_ENTRY_LIMIT := 4096
  const WALK_ITEM_LIMIT := 100000
  const MAX_PAGE_ENTRIES := 256

  /** What the walk finds under one name. A file says whether its type belongs to the source,
      whether its entry can be shown, and the encoded size of that entry when it has one. */
  datatype Node =
    | Broken
    | Link
    | Special
    | File(matches: bool, shown: bool, bytes: Option<nat>)
    | Dir(opens: bool, folder: Folder)

  /** An opened folder: its names as ReadDirectoryNames returns them, already in NFC. */
  datatype Folder = Folder(lists: bool, children: seq<Child>, overflow: nat)

  datatype Child = Child(name: string, node: Node)

  ghost predicate StrictlySorted(children: seq<Child>) {
    forall i, j :: 0 <= i < j < |children| ==> Less(children[i].name, children[j].name)
  }

  ghost predicate WellFormed(folder: Folder) {
    && StrictlySorted(folder.children)
    && forall i :: 0 <= i < |folder.children| ==> WellFormedChild(folder.children[i])
  }

  ghost predicate WellFormedChild(child: Child) {
    && PlainName(child.name)
    && (child.node.Dir? ==> WellFormed(child.node.folder))
  }

  /** How many names an unbounded walk steps over. */
  function Items(children: seq<Child>): nat {
    if children == [] then 0 else ChildItems(children[0]) + Items(children[1..])
  }

  function ChildItems(child: Child): nat {
    1 + if child.node.Dir? then Items(child.node.folder.children) else 0
  }

  /* ---- The unbounded walk, as the events it counts and emits ---- */

  function FolderEvents(folder: Folder, prefix: string, depth: nat): seq<Event> {
    if !folder.lists then [Tail(prefix, Skipped(Unreadable, 1))]
    else ListEvents(folder.children, prefix, depth) + OverflowEvents(folder, prefix)
  }

  function OverflowEvents(folder: Folder, prefix: string): seq<Event> {
    if folder.overflow > 0 then [Tail(prefix, Skipped(TooLarge, folder.overflow))] else []
  }

  function ListEvents(children: seq<Child>, prefix: string, depth: nat): seq<Event> {
    if children == [] then []
    else ChildEvents(children[0], prefix, depth) + ListEvents(children[1..], prefix, depth)
  }

  function ChildEvents(child: Child, prefix: string, depth: nat): seq<Event> {
    var relative := prefix + child.name;
    if HasPrefix(child.name, ".") then [Count(relative, Skipped(Hidden, 1))]
    else match child.node
      case Broken => [Count(relative, Skipped(Unreadable, 1))]
      case Link => [Count(relative, Skipped(Symlink, 1))]
      case Special => [Count(relative, Skipped(UnsupportedName, 1))]
      case File(matches, shown, bytes) =>
        if !matches then [Count(relative, Tally(1, NoSkips()))]
        else if !shown || bytes.None? then [Count(relative, Skipped(UnsupportedName, 1))]
        else [Show(Entry(relative, bytes.value))]
      case Dir(opens, folder) =>
        if depth + 1 > WALK_DEPTH_LIMIT then [Count(relative, Skipped(DepthLimit, 1))]
        else if !opens then [Count(relative, Skipped(Unreadable, 1))]
        else [Count(relative, Tally(1, NoSkips()))] + FolderEvents(folder, relative + "/", depth + 1)
  }

  function SourceEvents(root: Folder): seq<Event> {
    FolderEvents(root, "", 1)
  }

  /* ---- The walk behind a cursor ---- */

  /** What a walk counts, and whether it is past the cursor at the end. */
  datatype Resumed = Resumed(events: seq<Event>, passed: bool)

  function FolderResume(folder: Folder, prefix: string, depth: nat, cursor: string, passed: bool): (r: Resumed)
    ensures passed ==> r == Resumed(FolderEvents(folder, prefix, depth), true)
    ensures !r.passed ==> r.events == []
  {
    if passed then Resumed(FolderEvents(folder, prefix, depth), true)
    else if !folder.lists then Resumed([], false)
    else
      var inner := ListResume(folder.children, prefix, depth, cursor, false);
      if inner.passed then Resumed(inner.events + OverflowEvents(folder, prefix), true)
      else Resumed([], false)
  }

  function ListResume(children: seq<Child>, prefix: string, depth: nat, cursor: string, passed: bool): (r: Resumed)
    ensures passed ==> r == Resumed(ListEvents(children, prefix, depth), true)
    ensures !r.passed ==> r.events == []
  {
    if passed then Resumed(ListEvents(children, prefix, depth), true)
    else if children == [] then Resumed([], false)
    else
      var first := ChildResume(children[0], prefix, depth, cursor, false);
      if first.passed then Resumed(first.events + ListEvents(children[1..], prefix, depth), true)
      else ListResume(children[1..], prefix, depth, cursor, false)
  }

  /** Nothing up to the cursor is scanned again, the item it names included. Of the folders ahead of
      it only those on its own path are opened. */
  function ChildResume(child: Child, prefix: string, depth: nat, cursor: string, passed: bool): (r: Resumed)
    ensures passed ==> r == Resumed(ChildEvents(child, prefix, depth), true)
    ensures !r.passed ==> r.events == []
  {
    var relative := prefix + child.name;
    var order := ComparePaths(relative, cursor);
    if passed || order > 0 then Resumed(ChildEvents(child, prefix, depth), true)
    else if order == 0 then Resumed([], true)
    else if child.node.Dir? && Inside(cursor, relative) && child.node.opens then
      FolderResume(child.node.folder, relative + "/", depth + 1, cursor, false)
    else Resumed([], false)
  }

  /** The events one page scans: all of them without a cursor, else those behind it. */
  function EventsAfter(root: Folder, cursor: string): seq<Event> {
    FolderResume(root, "", 1, cursor, cursor == "").events
  }

  /** `scan` is what was scanned already followed by what the remaining children give. */
  ghost predicate Remains(scan: Resumed, done: seq<Event>, children: seq<Child>,
                          prefix: string, depth: nat, cursor: string, passed: bool) {
    var rest := ListResume(children, prefix, depth, cursor, passed);
    scan == Resumed(done + rest.events, rest.passed)
  }

  lemma ResumeStep(children: seq<Child>, i: nat, prefix: string, depth: nat, cursor: string, passed: bool)
    requires i < |children|
    ensures var first := ChildResume(children[i], prefix, depth, cursor, passed);
            var rest := ListResume(children[i + 1..], prefix, depth, cursor, first.passed);
            ListResume(children[i..], prefix, depth, cursor, passed)
            == Resumed(first.events + rest.events, rest.passed)
  {
    var tail := children[i..];
    assert tail[0] == children[i] && tail[1..] == children[i + 1..];
    var first := ChildResume(children[i], prefix, depth, cursor, passed);
    if !first.passed {
      var rest := ListResume(tail[1..], prefix, depth, cursor, false);
      assert first.events + rest.events == rest.events;
    }
  }

  lemma ItemsStep(children: seq<Child>, i: nat)
    requires i < |children|
    ensures Items(children[i..]) == ChildItems(children[i]) + Items(children[i + 1..])
  {
    assert children[i..][1..] == children[i + 1..];
  }

  lemma RemainsNone(scan: Resumed, done: seq<Event>, none: seq<Child>,
                    prefix: string, depth: nat, cursor: string, passed: bool)
    requires none == [] && Remains(scan, done, none, prefix, depth, cursor, passed)
    ensures scan == Resumed(done, passed)
  {
  }

  /** Scanning `more` of what the next child gives. */
  lemma Advance(start: Scan, scan: Resumed, was: seq<Event>, more: seq<Event>, limit: nat,
                children: seq<Child>, i: nat, prefix: string, depth: nat, cursor: string, passed: bool)
    requires i < |children|
    requires Remains(scan, was, children[i..], prefix, depth, cursor, passed)
    requires more <= ChildResume(children[i], prefix, depth, cursor, passed).events
    ensures was + more <= scan.events
    ensures Run(start, was + more, limit) == Run(Run(start, was, limit), more, limit)
    ensures var first := ChildResume(children[i], prefix, depth, cursor, passed);
            more == first.events ==>
              Remains(scan, was + more, children[i + 1..], prefix, depth, cursor, first.passed)
  {
    RunAppend(start, was, more, limit);
    ResumeStep(children, i, prefix, depth, cursor, passed);
    var first := ChildResume(children[i], prefix, depth, cursor, passed);
    var rest := ListResume(children[i + 1..], prefix, depth, cursor, first.passed);
    RegroupEvents(was, first.events, rest.events);
    assert was + more <= was + first.events;
  }

  lemma RegroupEvents(a: seq<Event>, b: seq<Event>, c: seq<Event>)
    ensures a + (b + c) == (a + b) + c
    ensures a + b <= a + (b + c)
  {
  }

  lemma FolderParts(folder: Folder, prefix: string, depth: nat, cursor: string, passed: bool)
    requires folder.lists
    ensures var list := ListResume(folder.children, prefix, depth, cursor, passed);
            FolderResume(folder, prefix, depth, cursor, passed)
            == Resumed(list.events + if list.passed then OverflowEvents(folder, prefix) else [], list.passed)
  {
  }

  /** What an entered folder that does not open adds: it was visited when it was entered. */
  function NotOpened(): Tally {
    Tally(0, NoSkips().Add(Unreadable, 1))
  }

  datatype WalkResult = Walked(response: Response) | InvalidWalk

  class StudioWalker {
    const cursor: string
    const limit: nat
    var budget: int
    var passed: bool
    var full: bool
    var items: nat
    var visited: nat
    var skips: Skips
    var entries: seq<Entry>
    var checkpointVisited: nat
    var checkpointSkips: Skips

    function Scanned(): Scan
      reads this
    {
      Scan(budget, full, Tally(visited, skips), Tally(checkpointVisited, checkpointSkips), entries)
    }

    constructor (cursor: string, limit: nat, budget: int)
      ensures this.cursor == cursor && this.limit == limit && items == 0
      ensures passed == (cursor == "") && Scanned() == Start(budget)
    {
      this.cursor, this.limit, this.budget := cursor, limit, budget;
      passed, full, items, visited, skips := cursor == "", false, 0, 0, NoSkips();
      entries, checkpointVisited, checkpointSkips := [], 0, NoSkips();
    }

    method Skip(reason: Reason, ghost at: string)
      requires !full
      modifies this`visited, this`skips
      ensures Scanned() == Step(old(Scanned()), Count(at, Skipped(reason, 1)), limit)
    {
      visited := visited + 1;
      skips := skips.Add(reason, 1);
    }

    method Checkpoint()
      modifies this`checkpointVisited, this`checkpointSkips
      ensures Scanned() == old(Scanned()).(saved := old(Scanned()).now)
    {
      checkpointVisited := visited;
      checkpointSkips := skips;
    }

    /** The scan is `before` continued by the events `seen`: by all that `scan` gives unless the
        walk stopped, which it does on a full page or at the item limit. */
    ghost predicate Follows(before: Scan, scan: Resumed, stopped: bool, seen: seq<Event>)
      reads this
    {
      && seen <= scan.events
      && Scanned() == Run(before, seen, limit)
      && (stopped ==> full || items > WALK_ITEM_LIMIT)
      && (!stopped ==> !full && seen == scan.events && passed == scan.passed)
    }

    /** Visits one opened folder. */
    method Walk(folder: Folder, prefix: string, depth: nat)
      returns (stopped: bool, ghost seen: seq<Event>)
      requires !full
      modifies this
      ensures items <= old(items) + Items(folder.children)
      ensures Follows(old(Scanned()), FolderResume(folder, prefix, depth, cursor, old(passed)),
                      stopped, seen)
      decreases folder, 2
    {
      if !folder.lists {
        seen := [];
        if passed {
          seen := [Tail(prefix, Skipped(Unreadable, 1))];
          Skip(Unreadable, prefix);
        }
        return false, seen;
      }
      FolderParts(folder, prefix, depth, cursor, passed);
      ghost var start := Scanned();
      stopped, seen := VisitNames(folder.children, prefix, depth);
      if stopped {
        return;
      }
      ghost var extra := if passed then OverflowEvents(folder, prefix) else [];
      RunAppend(start, seen, extra, limit);
      seen := seen + extra;
      CountOverflow(folder, prefix);
    }

    /** The loop of walk over the folder's names. */
    method VisitNames(children: seq<Child>, prefix: string, depth: nat)
      returns (stopped: bool, ghost seen: seq<Event>)
      requires !full
      modifies this
      ensures items <= old(items) + Items(children)
      ensures Follows(old(Scanned()), ListResume(children, prefix, depth, cursor, old(passed)),
                      stopped, seen)
      decreases children, 3
    {
      ghost var start := Scanned();
      ghost var scan := ListResume(children, prefix, depth, cursor, passed);
      seen := scan.events[..0];
      var i := 0;
      while i < |children|
        invariant 0 <= i <= |children| && !full
        invariant items + Items(children[i..]) <= old(items) + Items(children)
        invariant Scanned() == Run(start, seen, limit)
        invariant Remains(scan, seen, children[i..], prefix, depth, cursor, passed)
      {
        stopped, seen := VisitNext(children, i, prefix, depth, start, scan, seen);
        if stopped {
          return;
        }
        i := i + 1;
      }
      RemainsNone(scan, seen, children[i..], prefix, depth, cursor, passed);
      stopped := false;
    }

    /** One round of the loop, after what was scanned of the earlier names. */
    method VisitNext(children: seq<Child>, i: nat, prefix: string, depth: nat,
                     ghost start: Scan, ghost scan: Resumed, ghost was: seq<Event>)
      returns (stopped: bool, ghost seen: seq<Event>)
      requires i < |children| && !full && Scanned() == Run(start, was, limit)
      requires Remains(scan, was, children[i..], prefix, depth, cursor, passed)
      modifies this
      ensures items + Items(children[i + 1..]) <= old(items) + Items(children[i..])
      ensures seen <= scan.events && Scanned() == Run(start, seen, limit)
      ensures stopped ==> full || items > WALK_ITEM_LIMIT
      ensures !stopped ==> !full && Remains(scan, seen, children[i + 1..], prefix, depth, cursor, passed)
      decreases children, 2
    {
      ghost var more;
      stopped, more := Visit(children[i], prefix, depth);
      ItemsStep(children, i);
      Advance(start, scan, was, more, limit, children, i, prefix, depth, cursor, old(passed));
      seen := was + more;
    }

    method CountOverflow(folder: Folder, prefix: string)
      requires !full
      modifies this`visited, this`skips
      ensures Scanned() == Run(old(Scanned()), if passed then OverflowEvents(folder, prefix) else [], limit)
    {
      if folder.overflow > 0 && passed && !full {
        visited := visited + folder.overflow;
        skips := skips.Add(TooLarge, folder.overflow);
      }
    }

    method Visit(child: Child, prefix: string, depth: nat)
      returns (stopped: bool, ghost seen: seq<Event>)
      requires !full
      modifies this
      ensures items <= old(items) + ChildItems(child)
      ensures Follows(old(Scanned()), ChildResume(child, prefix, depth, cursor, old(passed)),
                      stopped, seen)
      decreases child, 2
    {
      items := items + 1;
      if items > WALK_ITEM_LIMIT {
        return true, [];
      }
      var relative := prefix + child.name;
      if !passed {
        var order := CompareStudioPath(relative, cursor);
        if order == 0 {
          passed := true;
          return false, [];
        } else if order > 0 {
          passed := true;
        } else if child.node.Dir? && HasPrefix(cursor, relative + "/") {
          stopped, seen := Descend(child.node, relative, depth);
          return;
        } else {
          return false, [];
        }
      }
      stopped, seen := Look(child, prefix, relative, depth);
    }

    /** The second half of visit: an item past the cursor is counted, entered or emitted. */
    method Look(child: Child, prefix: string, relative: string, depth: nat)
      returns (stopped: bool, ghost seen: seq<Event>)
      requires !full && passed && relative == prefix + child.name
      modifies this
      ensures items + 1 <= old(items) + ChildItems(child)
      ensures Follows(old(Scanned()), Resumed(ChildEvents(child, prefix, depth), true), stopped, seen)
      decreases child, 1
    {
      stopped, seen := false, ChildEvents(child, prefix, depth);
      if HasPrefix(child.name, ".") {
        Skip(Hidden, relative);
        return;
      }
      match child.node
      case Broken => Skip(Unreadable, relative);
      case Link => Skip(Symlink, relative);
      case Special => Skip(UnsupportedName, relative);
      case Dir(opens, folder) =>
        if depth + 1 > WALK_DEPTH_LIMIT {
          Skip(DepthLimit, relative);
          return;
        }
        visited := visited + 1;
        stopped, seen := Descend(child.node, relative, depth);
        ghost var entry := if opens then Tally(1, NoSkips()) else Skipped(Unreadable, 1);
        assert ([Count(relative, entry)] + seen)[1..] == seen;
        seen := [Count(relative, entry)] + seen;
      case File(matches, _, _) =>
        if !matches {
          visited := visited + 1;
        } else {
          stopped := Emit(child.node, relative);
        }
    }

    method Descend(node: Node, relative: string, depth: nat)
      returns (stopped: bool, ghost seen: seq<Event>)
      requires node.Dir? && !full
      modifies this
      ensures items <= old(items) + Items(node.folder.children)
      ensures node.opens ==>
                Follows(old(Scanned()),
                        FolderResume(node.folder, relative + "/", depth + 1, cursor, old(passed)),
                        stopped, seen)
      ensures !node.opens ==>
                && !stopped && seen == [] && passed == old(passed)
                && Scanned() == if !passed then old(Scanned())
                                else old(Scanned()).(now := old(Scanned()).now.Plus(NotOpened()))
      decreases node, 0
    {
      if !node.opens {
        if passed {
          skips := skips.Add(Unreadable, 1);
        }
        return false, [];
      }
      stopped, seen := Walk(node.folder, relative + "/", depth + 1);
    }

    method Emit(node: Node, relative: string) returns (stopped: bool)
      requires node.File? && node.matches && !full && passed
      modifies this
      ensures items == old(items) && passed
      ensures stopped <==> full
      ensures Scanned() == Step(old(Scanned()),
                if !node.shown || node.bytes.None? then Count(relative, Skipped(UnsupportedName, 1))
                else Show(Entry(relative, node.bytes.value)), limit)
    {
      if !node.shown {
        Skip(UnsupportedName, relative);
        return false;
      }
      if node.bytes.None? {
        Skip(UnsupportedName, relative);
        return false;
      }
      var entry := Entry(relative, node.bytes.value);
      if |entries| >= limit || entry.bytes > budget {
        full := true;
        return true;
      }
      budget := budget - entry.bytes;
      visited := visited + 1;
      entries := entries + [entry];
      Checkpoint();
      return false;
    }
  }

  /** One call. On a source of at most WALK_ITEM_LIMIT items the result is the page cut from the
      events behind the cursor; on a larger one the walk may stop early, and then the page is cut
      from a prefix of them and, unless it is full, names no cursor. */
  method WalkStudioSource(root: Folder, cursor: string, limit: int, budget: int) returns (result: WalkResult)
    ensures result.InvalidWalk? <==> limit < 1 || limit > MAX_PAGE_ENTRIES || budget < 1
    ensures !result.InvalidWalk? && Items(root.children) <= WALK_ITEM_LIMIT ==>
              result == Walked(Report(PageOf(EventsAfter(root, cursor), limit, budget)))
    ensures !result.InvalidWalk? ==>
              exists seen: seq<Event> ::
                seen <= EventsAfter(root, cursor) && result == Walked(Report(PageOf(seen, limit, budget)))
  {
    if limit < 1 || limit > MAX_PAGE_ENTRIES || budget < 1 {
      return InvalidWalk;
    }
    var walker := new StudioWalker(cursor, limit, budget);
    var stopped, seen := walker.Walk(root, "", 1);
    ghost var evs := EventsAfter(root, cursor);
    FullOnPrefix(evs, seen, limit, budget);
    assert Items(root.children) <= WALK_ITEM_LIMIT ==> walker.Scanned() == Run(Start(budget), evs, limit);
    var response := ReadPage(walker);
    assert seen <= evs && response == Report(PageOf(seen, limit, budget));
    return Walked(response);
  }

  /** A page that is full after some of the events stays as it is over the rest. */
  lemma FullOnPrefix(evs: seq<Event>, seen: seq<Event>, limit: nat, budget: int)
    requires seen <= evs
    ensures Run(Start(budget), seen, limit).full ==> Run(Start(budget), evs, limit) == Run(Start(budget), seen, limit)
  {
    var rest := evs[|seen|..];
    assert evs == seen + rest;
    RunAppend(Start(budget), seen, rest, limit);
    if Run(Start(budget), seen, limit).full {
      FullStays(Run(Start(budget), seen, limit), rest, limit);
    }
  }

  /** The answer read off a walker that has stopped. */
  method ReadPage(walker: StudioWalker) returns (response: Response)
    modifies walker
    ensures response == Report(Finish(old(walker.Scanned())))
  {
    if walker.full && walker.entries == [] {
      return EntryTooLarge;
    }
    var nextCursor := "";
    if walker.full {
      walker.visited, walker.skips := walker.checkpointVisited, walker.checkpointSkips;
      nextCursor := StudioCursor.EncodeStudioCursor(walker.entries[|walker.entries| - 1].nativeId);
    }
    return Listing(StudioPage(walker.entries, nextCursor, Tally(walker.visited, walker.skips)));
  }
}
