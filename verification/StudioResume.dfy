/** Why pages that repeat the walk can be glued together: the walk visits paths in strictly
    increasing order, and resuming behind a listed id scans exactly what followed it. */
module StudioResume {
  import opened Text
  import opened StudioPaths
  import opened Paging
  import opened CursorPaging
  import opened StudioFiles

  function At(ev: Event): string {
    match ev
    case Count(at, _) => at
    case Tail(folder, _) => folder
    case Show(entry) => entry.nativeId
  }

  /** Every item among the events lies at `base` or inside it. */
  ghost predicate AllUnder(evs: seq<Event>, base: string) {
    forall i :: 0 <= i < |evs| && !evs[i].Tail? ==> Under(At(evs[i]), base)
  }

  ghost predicate AllInside(evs: seq<Event>, folder: string) {
    forall i :: 0 <= i < |evs| && !evs[i].Tail? ==> Inside(At(evs[i]), folder)
  }

  /** Every item among the events lies under one of the children. */
  ghost predicate AllAmong(evs: seq<Event>, children: seq<Child>, prefix: string) {
    forall i :: 0 <= i < |evs| && !evs[i].Tail? ==> Among(At(evs[i]), children, prefix)
  }

  ghost predicate Among(path: string, children: seq<Child>, prefix: string) {
    exists k :: 0 <= k < |children| && Under(path, prefix + children[k].name)
  }

  ghost predicate WellFormedList(children: seq<Child>) {
    && StrictlySorted(children)
    && forall i :: 0 <= i < |children| ==> WellFormedChild(children[i])
  }

  lemma {:induction false} ChildUnder(child: Child, prefix: string, depth: nat)
    ensures AllUnder(ChildEvents(child, prefix, depth), prefix + child.name)
    decreases child, 0
  {
    var relative, evs := prefix + child.name, ChildEvents(child, prefix, depth);
    if !HasPrefix(child.name, ".") && child.node.Dir? && depth + 1 <= WALK_DEPTH_LIMIT && child.node.opens {
      var folder := child.node.folder;
      if folder.lists {
        ListInside(folder.children, relative, depth + 1);
      }
      assert AllInside(FolderEvents(folder, relative + "/", depth + 1), relative);
    }
  }

  lemma ListInside(children: seq<Child>, base: string, depth: nat)
    ensures AllInside(ListEvents(children, base + "/", depth), base)
    decreases children, 1
  {
    ListAmong(children, base + "/", depth);
    var evs := ListEvents(children, base + "/", depth);
    forall i | 0 <= i < |evs| && !evs[i].Tail? ensures Inside(At(evs[i]), base) {
      var k :| 0 <= k < |children| && Under(At(evs[i]), base + "/" + children[k].name);
    }
  }

  lemma {:induction false} ListAmong(children: seq<Child>, prefix: string, depth: nat)
    ensures AllAmong(ListEvents(children, prefix, depth), children, prefix)
    decreases children, 0
  {
    if children != [] {
      ChildUnder(children[0], prefix, depth);
      ListAmong(children[1..], prefix, depth);
      var evs := ListEvents(children, prefix, depth);
      var first, rest := ChildEvents(children[0], prefix, depth), ListEvents(children[1..], prefix, depth);
      forall i | 0 <= i < |evs| && !evs[i].Tail? ensures Among(At(evs[i]), children, prefix) {
        if i < |first| {
          assert evs[i] == first[i];
          assert Under(At(evs[i]), prefix + children[0].name);
        } else {
          assert evs[i] == rest[i - |first|];
          var k :| 0 <= k < |children[1..]| && Under(At(evs[i]), prefix + children[1..][k].name);
          assert children[1..][k] == children[k + 1];
        }
      }
    }
  }

  /* ---- The walk visits paths in strictly increasing order ---- */

  ghost predicate Precede(a: seq<Event>, b: seq<Event>) {
    forall i, j :: 0 <= i < |a| && 0 <= j < |b| && !a[i].Tail? && !b[j].Tail? ==>
      ComparePaths(At(a[i]), At(b[j])) < 0
  }

  ghost predicate Increasing(evs: seq<Event>) {
    forall i, j :: 0 <= i < j < |evs| && !evs[i].Tail? && !evs[j].Tail? ==>
      ComparePaths(At(evs[i]), At(evs[j])) < 0
  }

  lemma {:induction false} ListIncreasing(children: seq<Child>, prefix: string, depth: nat)
    requires WellFormedList(children) && FolderPrefix(prefix)
    ensures Increasing(ListEvents(children, prefix, depth))
    decreases children, 0
  {
    if children != [] {
      ChildIncreasing(children[0], prefix, depth);
      ListIncreasing(children[1..], prefix, depth);
      FirstBeforeRest(children, prefix, depth);
    }
  }

  lemma FirstBeforeRest(children: seq<Child>, prefix: string, depth: nat)
    requires children != [] && WellFormedList(children) && FolderPrefix(prefix)
    ensures Precede(ChildEvents(children[0], prefix, depth), ListEvents(children[1..], prefix, depth))
  {
    var a, b := ChildEvents(children[0], prefix, depth), ListEvents(children[1..], prefix, depth);
    ChildUnder(children[0], prefix, depth);
    ListAmong(children[1..], prefix, depth);
    forall i, j | 0 <= i < |a| && 0 <= j < |b| && !a[i].Tail? && !b[j].Tail?
      ensures ComparePaths(At(a[i]), At(b[j])) < 0
    {
      var k :| 0 <= k < |children[1..]| && Under(At(b[j]), prefix + children[1..][k].name);
      assert children[1..][k] == children[k + 1];
      SiblingsApart(prefix, children[0].name, children[k + 1].name, At(a[i]), At(b[j]));
    }
  }

  lemma ChildIncreasing(child: Child, prefix: string, depth: nat)
    requires WellFormedChild(child) && FolderPrefix(prefix)
    ensures Increasing(ChildEvents(child, prefix, depth))
    decreases child, 0
  {
    if !HasPrefix(child.name, ".") && child.node.Dir? && depth + 1 <= WALK_DEPTH_LIMIT
       && child.node.opens && child.node.folder.lists {
      var relative, folder := prefix + child.name, child.node.folder;
      ListIncreasing(folder.children, relative + "/", depth + 1);
      ListInside(folder.children, relative, depth + 1);
      var list := ListEvents(folder.children, relative + "/", depth + 1);
      EnteredFirst(relative, list);
      TailStays([Count(relative, Tally(1, NoSkips()))] + list, OverflowEvents(folder, relative + "/"));
      Regroup([Count(relative, Tally(1, NoSkips()))], list, OverflowEvents(folder, relative + "/"));
    }
  }

  lemma EnteredFirst(relative: string, inner: seq<Event>)
    requires Increasing(inner)
    requires forall i :: 0 <= i < |inner| && !inner[i].Tail? ==> Inside(At(inner[i]), relative)
    ensures Increasing([Count(relative, Tally(1, NoSkips()))] + inner)
  {
    forall j | 0 <= j < |inner| && !inner[j].Tail? ensures ComparePaths(relative, At(inner[j])) < 0 {
      FolderFirst(relative, At(inner[j]));
    }
  }

  lemma TailStays(evs: seq<Event>, tail: seq<Event>)
    requires Increasing(evs) && forall i :: 0 <= i < |tail| ==> tail[i].Tail?
    ensures Increasing(evs + tail)
  {
  }

  /** The walk counts and lists its items in strictly increasing compareStudioPath order. */
  lemma WalkIncreasing(root: Folder)
    requires WellFormed(root)
    ensures Increasing(SourceEvents(root))
  {
    if root.lists {
      ListIncreasing(root.children, "", 1);
    }
  }

  /* ---- Listed ids ---- */

  /** No native id is listed twice. */
  lemma IdsDistinct(evs: seq<Event>)
    requires Increasing(evs)
    ensures DistinctIds(Shown(evs))
  {
    forall i, j | 0 <= i < j < |Shown(evs)|
      ensures Shown(evs)[i].nativeId != Shown(evs)[j].nativeId
    {
      var p := ShownAt(evs, i);
      var q := ShownAt(evs, j);
      ShownOrder(evs, i, j, p, q);
      PathOrder(At(evs[p]), At(evs[q]));
    }
  }

  lemma {:induction false} AfterInFirst(a: seq<Event>, b: seq<Event>, id: string)
    requires Lists(a, id)
    ensures After(a + b, id) == After(a, id) + b
  {
    assert (a + b)[1..] == a[1..] + b;
    if !(a[0].Show? && a[0].entry.nativeId == id) {
      var i :| 0 <= i < |a| && a[i].Show? && a[i].entry.nativeId == id;
      assert a[1..][i - 1] == a[i];
      AfterInFirst(a[1..], b, id);
    }
  }

  lemma {:induction false} AfterInSecond(a: seq<Event>, b: seq<Event>, id: string)
    requires !Lists(a, id)
    ensures After(a + b, id) == After(b, id)
  {
    if a == [] {
      assert a + b == b;
    } else {
      assert (a + b)[1..] == a[1..] + b;
      AfterInSecond(a[1..], b, id);
    }
  }

  lemma ListsAppend(a: seq<Event>, b: seq<Event>, id: string)
    ensures Lists(a + b, id) <==> Lists(a, id) || Lists(b, id)
  {
    if Lists(a, id) {
      var i :| 0 <= i < |a| && a[i].Show? && a[i].entry.nativeId == id;
      assert (a + b)[i] == a[i];
    }
    if Lists(b, id) {
      var i :| 0 <= i < |b| && b[i].Show? && b[i].entry.nativeId == id;
      assert (a + b)[|a| + i] == b[i];
    }
    if Lists(a + b, id) {
      var i :| 0 <= i < |a + b| && (a + b)[i].Show? && (a + b)[i].entry.nativeId == id;
      assert (a + b)[i] == if i < |a| then a[i] else b[i - |a|];
    }
  }

  /* ---- Resuming behind a listed id ---- */

  lemma {:induction false} ListResumes(children: seq<Child>, prefix: string, depth: nat, cursor: string)
    requires WellFormedList(children) && FolderPrefix(prefix)
    requires Lists(ListEvents(children, prefix, depth), cursor)
    ensures ListResume(children, prefix, depth, cursor, false)
            == Resumed(After(ListEvents(children, prefix, depth), cursor), true)
    decreases children, 0
  {
    var first, rest := ChildEvents(children[0], prefix, depth), ListEvents(children[1..], prefix, depth);
    ListsAppend(first, rest, cursor);
    if Lists(first, cursor) {
      ChildResumes(children[0], prefix, depth, cursor);
      AfterInFirst(first, rest, cursor);
    } else {
      ListResumes(children[1..], prefix, depth, cursor);
      AfterInSecond(first, rest, cursor);
      SkipsEarlier(children, prefix, depth, cursor);
    }
  }

  /** An earlier sibling of what the cursor lies under is passed over without being entered. */
  lemma SkipsEarlier(children: seq<Child>, prefix: string, depth: nat, cursor: string)
    requires children != [] && WellFormedList(children) && FolderPrefix(prefix)
    requires Lists(ListEvents(children[1..], prefix, depth), cursor)
    ensures ChildResume(children[0], prefix, depth, cursor, false) == Resumed([], false)
  {
    var rest := ListEvents(children[1..], prefix, depth);
    ListAmong(children[1..], prefix, depth);
    var i :| 0 <= i < |rest| && rest[i].Show? && rest[i].entry.nativeId == cursor;
    assert Among(At(rest[i]), children[1..], prefix);
    var k :| 0 <= k < |children[1..]| && Under(cursor, prefix + children[1..][k].name);
    assert children[1..][k] == children[k + 1];
    SiblingsApart(prefix, children[0].name, children[k + 1].name, prefix + children[0].name, cursor);
  }

  lemma ChildResumes(child: Child, prefix: string, depth: nat, cursor: string)
    requires WellFormedChild(child) && FolderPrefix(prefix)
    requires Lists(ChildEvents(child, prefix, depth), cursor)
    ensures ChildResume(child, prefix, depth, cursor, false)
            == Resumed(After(ChildEvents(child, prefix, depth), cursor), true)
    decreases child, 0
  {
    PathOrder(prefix + child.name, cursor);
    if child.node.Dir? {
      FolderResumes(child.node.folder, prefix + child.name, depth, cursor);
      var entered := [Count(prefix + child.name, Tally(1, NoSkips()))];
      var inner := FolderEvents(child.node.folder, prefix + child.name + "/", depth + 1);
      ListsAppend(entered, inner, cursor);
      AfterInSecond(entered, inner, cursor);
    }
  }

  lemma FolderResumes(folder: Folder, relative: string, depth: nat, cursor: string)
    requires WellFormed(folder)
    requires Lists(FolderEvents(folder, relative + "/", depth + 1), cursor)
    ensures FolderResume(folder, relative + "/", depth + 1, cursor, false)
            == Resumed(After(FolderEvents(folder, relative + "/", depth + 1), cursor), true)
    ensures Inside(cursor, relative) && ComparePaths(relative, cursor) < 0
    decreases folder, 1
  {
    var list, extra := ListEvents(folder.children, relative + "/", depth + 1), OverflowEvents(folder, relative + "/");
    ListsAppend(list, extra, cursor);
    AfterInFirst(list, extra, cursor);
    ListResumes(folder.children, relative + "/", depth + 1, cursor);
    ListInside(folder.children, relative, depth + 1);
    FolderFirst(relative, cursor);
  }

  /** The walk behind a listed id scans exactly the events that follow it in the unbounded walk. */
  lemma ResumeIsAfter(root: Folder, cursor: string)
    requires WellFormed(root) && Lists(SourceEvents(root), cursor)
    ensures cursor != ""
    ensures EventsAfter(root, cursor) == After(SourceEvents(root), cursor)
  {
    var list, extra := ListEvents(root.children, "", 1), OverflowEvents(root, "");
    ListsAppend(list, extra, cursor);
    AfterInFirst(list, extra, cursor);
    ListResumes(root.children, "", 1, cursor);
    ListAmong(root.children, "", 1);
    var i :| 0 <= i < |list| && list[i].Show? && list[i].entry.nativeId == cursor;
    assert Among(At(list[i]), root.children, "");
  }
}
