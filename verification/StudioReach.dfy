/** What the walk of a source reaches, by looking up paths (internal/reaper/studio_files.go:126-248): an entry is
    listed for each file that shows, and each reached name is counted once, under the reason of its kind. */
module StudioReach {
  import opened Text
  import opened Paging
  import opened StudioFiles
  import opened StudioResume

  type Path = seq<string>

  /* ---- Looking up a path ---- */

  function Named(children: seq<Child>, name: string): Option<Child> {
    if children == [] then None
    else if children[0].name == name then Some(children[0])
    else Named(children[1..], name)
  }

  predicate Hidden(child: Child) {
    HasPrefix(child.name, ".")
  }

  /** The walk goes on into the folder of this name. */
  predicate Entered(child: Child) {
    !Hidden(child) && child.node.Dir? && child.node.opens && child.node.folder.lists
  }

  /** What lies at a list of names, reached only through folders that are entered. */
  function ChildAt(children: seq<Child>, path: Path): Option<Child>
    decreases |path|
  {
    if path == [] then None
    else
      match Named(children, path[0])
      case None => None
      case Some(child) =>
        if |path| == 1 then Some(child)
        else if Entered(child) then ChildAt(child.node.folder.children, path[1..])
        else None
  }

  /** What a source has at a path of at most so many names. */
  function NodeAt(root: Folder, path: Path): Option<Child> {
    if root.lists && |path| <= WALK_DEPTH_LIMIT then ChildAt(root.children, path) else None
  }

  datatype Spot = Spot(path: Path, child: Child)

  /** Every path that leads to something, each once, with what lies there. */
  ghost predicate Enumerates(spots: seq<Spot>, root: Folder) {
    && (forall i, j :: 0 <= i < j < |spots| ==> spots[i].path != spots[j].path)
    && (forall path, child :: Spot(path, child) in spots <==> NodeAt(root, path) == Some(child))
  }

  /* ---- Kinds of names ---- */

  datatype Kind =
    | HiddenName
    | LinkName
    | BrokenName
    | SpecialFile
    | UnshownFile     // of the source's type, but without an entry
    | TooDeepFolder
    | ClosedFolder
    | UnlistedFolder  // opens, but its names cannot be read

  /** `level` is how many names lead to the child. */
  predicate Is(kind: Kind, child: Child, level: nat) {
    match kind
    case HiddenName => Hidden(child)
    case LinkName => !Hidden(child) && child.node.Link?
    case BrokenName => !Hidden(child) && child.node.Broken?
    case SpecialFile => !Hidden(child) && child.node.Special?
    case UnshownFile => !Hidden(child) && child.node.File? && child.node.matches && !Shows(child)
    case TooDeepFolder => !Hidden(child) && child.node.Dir? && level >= WALK_DEPTH_LIMIT
    case ClosedFolder => !Hidden(child) && child.node.Dir? && level < WALK_DEPTH_LIMIT && !child.node.opens
    case UnlistedFolder =>
      !Hidden(child) && child.node.Dir? && level < WALK_DEPTH_LIMIT && child.node.opens && !child.node.folder.lists
  }

  /** A file of the source's type that has an entry. */
  predicate Shows(child: Child) {
    !Hidden(child) && child.node.File? && child.node.matches && child.node.shown && child.node.bytes.Some?
  }

  function Number(spots: seq<Spot>, above: nat, kind: Kind): nat {
    if spots == [] then 0
    else (if Is(kind, spots[0].child, above + |spots[0].path|) then 1 else 0) + Number(spots[1..], above, kind)
  }

  /** The names that do not fit the listing of an entered folder. */
  function OverflowOf(child: Child, level: nat): nat {
    if Entered(child) && level < WALK_DEPTH_LIMIT then child.node.folder.overflow else 0
  }

  function Overflows(spots: seq<Spot>, above: nat): nat {
    if spots == [] then 0 else OverflowOf(spots[0].child, above + |spots[0].path|) + Overflows(spots[1..], above)
  }

  /** The spots counted, each once and under the reason of its kind; a folder that cannot be listed counts once more
      for its listing, and the names beyond a listing count as too large. */
  function CountOf(spots: seq<Spot>, above: nat): Tally {
    Tally(|spots| + Number(spots, above, UnlistedFolder) + Overflows(spots, above),
          Skips(Number(spots, above, HiddenName),
                Number(spots, above, LinkName),
                Number(spots, above, BrokenName) + Number(spots, above, ClosedFolder)
                + Number(spots, above, UnlistedFolder),
                Number(spots, above, TooDeepFolder),
                Overflows(spots, above),
                Number(spots, above, SpecialFile) + Number(spots, above, UnshownFile)))
  }

  /** The entries of the spots: a file that shows has its path as id. */
  function Listed(spots: seq<Spot>, prefix: string): seq<Entry> {
    if spots == [] then []
    else if Shows(spots[0].child) then
      [Entry(prefix + Join(spots[0].path, '/'), spots[0].child.node.bytes.value)] + Listed(spots[1..], prefix)
    else Listed(spots[1..], prefix)
  }

  /* ---- An enumeration in the order of the walk ---- */

  function Below(name: string, spots: seq<Spot>): (r: seq<Spot>)
    ensures |r| == |spots|
    ensures forall i :: 0 <= i < |spots| ==> r[i] == Spot([name] + spots[i].path, spots[i].child)
  {
    if spots == [] then [] else [Spot([name] + spots[0].path, spots[0].child)] + Below(name, spots[1..])
  }

  /** The spots at a child, `level` names below the root. */
  function ChildSpots(child: Child, level: nat): seq<Spot> {
    [Spot([child.name], child)]
    + if Entered(child) && level < WALK_DEPTH_LIMIT then Below(child.name, ListSpots(child.node.folder.children, level + 1))
      else []
  }

  function ListSpots(children: seq<Child>, level: nat): seq<Spot> {
    if children == [] then [] else ChildSpots(children[0], level) + ListSpots(children[1..], level)
  }

  function SourceSpots(root: Folder): seq<Spot> {
    if root.lists then ListSpots(root.children, 1) else []
  }

  /* ---- It finds every path, once ---- */

  lemma {:induction false} NamedAt(children: seq<Child>, name: string)
    ensures Named(children, name).Some? ==> Named(children, name).value.name == name && Named(children, name).value in children
    ensures Named(children, name).None? ==> forall k :: 0 <= k < |children| ==> children[k].name != name
  {
    if children != [] {
      NamedAt(children[1..], name);
      assert forall k :: 1 <= k < |children| ==> children[k] == children[1..][k - 1];
    }
  }

  lemma NotRepeated(children: seq<Child>)
    requires children != [] && StrictlySorted(children)
    ensures Named(children[1..], children[0].name).None?
  {
    NamedAt(children[1..], children[0].name);
    if Named(children[1..], children[0].name).Some? {
      var k :| 0 <= k < |children[1..]| && children[1..][k] == Named(children[1..], children[0].name).value;
      assert children[k + 1].name == children[0].name;
      LessTotal(children[0].name, children[k + 1].name);
    }
  }

  lemma InBelow(name: string, spots: seq<Spot>, path: Path, child: Child)
    ensures Spot(path, child) in Below(name, spots)
            <==> path != [] && path[0] == name && Spot(path[1..], child) in spots
  {
    if Spot(path, child) in Below(name, spots) {
      var i :| 0 <= i < |spots| && Below(name, spots)[i] == Spot(path, child);
      assert path[1..] == spots[i].path;
    }
    if path != [] && path[0] == name && Spot(path[1..], child) in spots {
      var i :| 0 <= i < |spots| && spots[i] == Spot(path[1..], child);
      assert [name] + path[1..] == path && Below(name, spots)[i] == Spot(path, child);
    }
  }

  /** What the spots at a child are. */
  ghost predicate LiesAt(child: Child, level: nat, path: Path, found: Child) {
    && path != [] && path[0] == child.name && |path| + level <= WALK_DEPTH_LIMIT + 1
    && if |path| == 1 then found == child
       else Entered(child) && ChildAt(child.node.folder.children, path[1..]) == Some(found)
  }

  lemma {:induction false} InChild(child: Child, level: nat, path: Path, found: Child)
    requires WellFormedChild(child) && 1 <= level <= WALK_DEPTH_LIMIT
    ensures Spot(path, found) in ChildSpots(child, level) <==> LiesAt(child, level, path, found)
    decreases child, 0
  {
    if Entered(child) && level < WALK_DEPTH_LIMIT {
      var inner := ListSpots(child.node.folder.children, level + 1);
      InBelow(child.name, inner, path, found);
      if path != [] {
        InList(child.node.folder.children, level + 1, path[1..], found);
      }
      InSum(path, found, child, inner);
    } else {
      assert ChildSpots(child, level) == [Spot([child.name], child)];
      OnlySpot(path, found, child);
    }
  }

  lemma OnlySpot(path: Path, found: Child, child: Child)
    ensures Spot(path, found) in [Spot([child.name], child)] <==> |path| == 1 && path[0] == child.name && found == child
  {
    assert |path| == 1 ==> path == [path[0]];
  }

  lemma InSum(path: Path, found: Child, child: Child, inner: seq<Spot>)
    ensures Spot(path, found) in [Spot([child.name], child)] + Below(child.name, inner)
            <==> (|path| == 1 && path[0] == child.name && found == child) || Spot(path, found) in Below(child.name, inner)
  {
    OnlySpot(path, found, child);
  }

  lemma {:induction false} InList(children: seq<Child>, level: nat, path: Path, found: Child)
    requires WellFormedList(children) && 1 <= level <= WALK_DEPTH_LIMIT
    ensures Spot(path, found) in ListSpots(children, level)
            <==> |path| + level <= WALK_DEPTH_LIMIT + 1 && ChildAt(children, path) == Some(found)
    decreases children, 0
  {
    if children != [] {
      InChild(children[0], level, path, found);
      InList(children[1..], level, path, found);
      NotRepeated(children);
    }
  }

  ghost predicate Distinct(spots: seq<Spot>) {
    forall i, j :: 0 <= i < j < |spots| ==> spots[i].path != spots[j].path
  }

  lemma DistinctBelow(name: string, spots: seq<Spot>)
    requires Distinct(spots)
    ensures Distinct(Below(name, spots))
  {
    var below := Below(name, spots);
    forall i, j | 0 <= i < j < |below| ensures below[i].path != below[j].path {
      assert below[i].path[1..] == spots[i].path && below[j].path[1..] == spots[j].path;
    }
  }

  lemma DistinctAppend(a: seq<Spot>, b: seq<Spot>)
    requires Distinct(a) && Distinct(b)
    requires forall i, j :: 0 <= i < |a| && 0 <= j < |b| ==> a[i].path != b[j].path
    ensures Distinct(a + b)
  {
  }

  lemma {:induction false} ChildDistinct(child: Child, level: nat)
    requires WellFormedChild(child) && 1 <= level <= WALK_DEPTH_LIMIT
    ensures Distinct(ChildSpots(child, level))
    decreases child, 0
  {
    if Entered(child) && level < WALK_DEPTH_LIMIT {
      var inner := ListSpots(child.node.folder.children, level + 1);
      ListDistinct(child.node.folder.children, level + 1);
      DistinctBelow(child.name, inner);
      forall j | 0 <= j < |inner| ensures [child.name] != Below(child.name, inner)[j].path {
        InList(child.node.folder.children, level + 1, inner[j].path, inner[j].child);
        assert inner[j] in inner;
      }
      DistinctAppend([Spot([child.name], child)], Below(child.name, inner));
    }
  }

  lemma {:induction false} ListDistinct(children: seq<Child>, level: nat)
    requires WellFormedList(children) && 1 <= level <= WALK_DEPTH_LIMIT
    ensures Distinct(ListSpots(children, level))
    decreases children, 0
  {
    if children != [] {
      var first, rest := ChildSpots(children[0], level), ListSpots(children[1..], level);
      ChildDistinct(children[0], level);
      ListDistinct(children[1..], level);
      forall i, j | 0 <= i < |first| && 0 <= j < |rest| ensures first[i].path != rest[j].path {
        ApartSpots(children, level, first[i], rest[j]);
      }
      DistinctAppend(first, rest);
    }
  }

  lemma ApartSpots(children: seq<Child>, level: nat, a: Spot, b: Spot)
    requires WellFormedList(children) && children != [] && 1 <= level <= WALK_DEPTH_LIMIT
    requires a in ChildSpots(children[0], level) && b in ListSpots(children[1..], level)
    ensures a.path != b.path
  {
    InChild(children[0], level, a.path, a.child);
    InList(children[1..], level, b.path, b.child);
    NotRepeated(children);
  }

  lemma SpotsEnumerate(root: Folder)
    requires WellFormed(root)
    ensures Enumerates(SourceSpots(root), root)
  {
    if root.lists {
      ListDistinct(root.children, 1);
      forall path, child ensures Spot(path, child) in SourceSpots(root) <==> NodeAt(root, path) == Some(child) {
        InList(root.children, 1, path, child);
      }
    }
  }

  /* ---- The events are those of the spots ---- */

  function One(kind: Kind, child: Child, level: nat): nat {
    if Is(kind, child, level) then 1 else 0
  }

  /** What one spot counts. */
  function SpotCount(child: Child, level: nat): Tally {
    Tally(1 + One(UnlistedFolder, child, level) + OverflowOf(child, level),
          Skips(One(HiddenName, child, level), One(LinkName, child, level),
                One(BrokenName, child, level) + One(ClosedFolder, child, level) + One(UnlistedFolder, child, level),
                One(TooDeepFolder, child, level), OverflowOf(child, level),
                One(SpecialFile, child, level) + One(UnshownFile, child, level)))
  }

  type Weight = (Child, nat) -> Tally

  function Weights(): Weight {
    (child: Child, level: nat) => SpotCount(child, level)
  }

  function Sum(spots: seq<Spot>, above: nat, weight: Weight): Tally {
    if spots == [] then Nothing()
    else weight(spots[0].child, above + |spots[0].path|).Plus(Sum(spots[1..], above, weight))
  }

  lemma {:induction false} SumAppend(a: seq<Spot>, b: seq<Spot>, above: nat, weight: Weight)
    ensures Sum(a + b, above, weight) == Sum(a, above, weight).Plus(Sum(b, above, weight))
  {
    if a == [] {
      assert a + b == b;
      PlusNothing(Sum(b, above, weight));
    } else {
      SumAppend(a[1..], b, above, weight);
      assert (a + b)[1..] == a[1..] + b;
      PlusAssociative(weight(a[0].child, above + |a[0].path|), Sum(a[1..], above, weight), Sum(b, above, weight));
    }
  }

  lemma {:induction false} SumBelow(name: string, spots: seq<Spot>, above: nat, weight: Weight)
    ensures Sum(Below(name, spots), above, weight) == Sum(spots, above + 1, weight)
  {
    if spots != [] {
      SumBelow(name, spots[1..], above, weight);
    }
  }

  lemma NumberStep(spots: seq<Spot>, above: nat, kind: Kind)
    requires spots != []
    ensures Number(spots, above, kind)
            == One(kind, spots[0].child, above + |spots[0].path|) + Number(spots[1..], above, kind)
  {
  }

  lemma CountStep(spots: seq<Spot>, above: nat, rest: seq<Spot>)
    requires spots != [] && rest == spots[1..]
    ensures CountOf(spots, above) == SpotCount(spots[0].child, above + |spots[0].path|).Plus(CountOf(rest, above))
  {
    NumberStep(spots, above, HiddenName);
    NumberStep(spots, above, LinkName);
    NumberStep(spots, above, BrokenName);
    NumberStep(spots, above, ClosedFolder);
    NumberStep(spots, above, UnlistedFolder);
    NumberStep(spots, above, TooDeepFolder);
    NumberStep(spots, above, SpecialFile);
    NumberStep(spots, above, UnshownFile);
  }

  ghost predicate Weighs(weight: Weight) {
    forall child: Child, level: nat :: weight(child, level) == SpotCount(child, level)
  }

  lemma {:induction false} SumIsCount(spots: seq<Spot>, above: nat, weight: Weight)
    requires Weighs(weight)
    ensures Sum(spots, above, weight) == CountOf(spots, above)
  {
    if spots != [] {
      SumIsCount(spots[1..], above, weight);
      CountStep(spots, above, spots[1..]);
    }
  }

  lemma {:induction false} ListedAppend(a: seq<Spot>, b: seq<Spot>, prefix: string)
    ensures Listed(a + b, prefix) == Listed(a, prefix) + Listed(b, prefix)
  {
    if a == [] {
      assert a + b == b;
    } else {
      ListedAppend(a[1..], b, prefix);
      assert (a + b)[1..] == a[1..] + b;
    }
  }

  lemma JoinBelow(name: string, path: Path, prefix: string)
    requires path != []
    ensures prefix + Join([name] + path, '/') == (prefix + name + "/") + Join(path, '/')
  {
    assert ([name] + path)[1..] == path;
  }

  lemma {:induction false} ListedBelow(name: string, spots: seq<Spot>, prefix: string)
    requires forall i :: 0 <= i < |spots| ==> spots[i].path != []
    ensures Listed(Below(name, spots), prefix) == Listed(spots, prefix + name + "/")
  {
    if spots != [] {
      ListedBelow(name, spots[1..], prefix);
      JoinBelow(name, spots[0].path, prefix);
    }
  }

  lemma {:induction false} SpotsHavePaths(children: seq<Child>, level: nat)
    ensures forall i :: 0 <= i < |ListSpots(children, level)| ==> ListSpots(children, level)[i].path != []
    decreases children, 0
  {
    if children != [] {
      SpotsHavePaths(children[1..], level);
    }
  }

  lemma OneSpot(spots: seq<Spot>, child: Child, above: nat, prefix: string, weight: Weight)
    requires |spots| == 1 && spots[0] == Spot([child.name], child)
    ensures Sum(spots, above, weight) == weight(child, above + 1)
    ensures Listed(spots, prefix) == if Shows(child) then [Entry(prefix + child.name, child.node.bytes.value)] else []
  {
    OneSum(spots, above, weight);
    OneListed(spots, prefix);
  }

  lemma OneSum(spots: seq<Spot>, above: nat, weight: Weight)
    requires |spots| == 1
    ensures Sum(spots, above, weight) == weight(spots[0].child, above + |spots[0].path|)
  {
    var none := spots[1..];
    assert Sum(none, above, weight) == Nothing();
    PlusNothing(weight(spots[0].child, above + |spots[0].path|));
  }

  lemma OneListed(spots: seq<Spot>, prefix: string)
    requires |spots| == 1 && |spots[0].path| == 1
    ensures var spot := spots[0];
            Listed(spots, prefix)
            == if Shows(spot.child) then [Entry(prefix + spot.path[0], spot.child.node.bytes.value)] else []
  {
    var none := spots[1..];
    assert Listed(none, prefix) == [];
  }

  ghost predicate Agree(evs: seq<Event>, spots: seq<Spot>, prefix: string, above: nat, weight: Weight) {
    Shown(evs) == Listed(spots, prefix) && Total(evs) == Sum(spots, above, weight)
  }

  lemma OneEvent(evs: seq<Event>)
    requires |evs| == 1
    ensures Shown(evs) == if evs[0].Show? then [evs[0].entry] else []
    ensures Total(evs) == TallyOf(evs[0])
  {
    var none := evs[1..];
    assert Shown(none) == [];
    OneTotal(evs[0]);
    assert evs == [evs[0]];
  }

  /** The event of a child that is not entered, unless its folder opens and cannot be listed. */
  lemma EventOfChild(child: Child, prefix: string, level: nat)
    requires 1 <= level && !(Entered(child) && level < WALK_DEPTH_LIMIT) && !Is(UnlistedFolder, child, level)
    ensures |ChildEvents(child, prefix, level)| == 1
    ensures var ev := ChildEvents(child, prefix, level)[0];
            && TallyOf(ev) == SpotCount(child, level)
            && if Shows(child) then ev == Show(Entry(prefix + child.name, child.node.bytes.value)) else !ev.Show?
  {
  }

  lemma EventsOfUnlisted(child: Child, prefix: string, level: nat)
    requires 1 <= level && Is(UnlistedFolder, child, level)
    ensures |ChildEvents(child, prefix, level)| == 2
    ensures var evs := ChildEvents(child, prefix, level);
            !evs[0].Show? && !evs[1].Show? && TallyOf(evs[0]).Plus(TallyOf(evs[1])) == SpotCount(child, level)
  {
    assert FolderEvents(child.node.folder, prefix + child.name + "/", level + 1)
           == [Tail(prefix + child.name + "/", Skipped(Unreadable, 1))];
  }

  lemma TwoEvents(evs: seq<Event>)
    requires |evs| == 2 && !evs[0].Show? && !evs[1].Show?
    ensures Shown(evs) == [] && Total(evs) == TallyOf(evs[0]).Plus(TallyOf(evs[1]))
  {
    var a, b := evs[..1], evs[1..];
    assert evs == a + b;
    OneEvent(a);
    OneEvent(b);
    ShownAppend(a, b);
    TotalAppend(a, b);
  }

  lemma EventsOfChild(child: Child, prefix: string, level: nat, evs: seq<Event>)
    requires 1 <= level && !(Entered(child) && level < WALK_DEPTH_LIMIT) && evs == ChildEvents(child, prefix, level)
    ensures Total(evs) == SpotCount(child, level)
    ensures Shown(evs) == if Shows(child) then [Entry(prefix + child.name, child.node.bytes.value)] else []
  {
    if Is(UnlistedFolder, child, level) {
      EventsOfUnlisted(child, prefix, level);
      TwoEvents(evs);
    } else {
      EventOfChild(child, prefix, level);
      OneEvent(evs);
    }
  }

  lemma ChildAgrees(child: Child, prefix: string, level: nat, weight: Weight)
    requires 1 <= level <= WALK_DEPTH_LIMIT && !(Entered(child) && level < WALK_DEPTH_LIMIT)
    requires weight(child, level) == SpotCount(child, level)
    ensures Agree(ChildEvents(child, prefix, level), ChildSpots(child, level), prefix, level - 1, weight)
  {
    EventsOfChild(child, prefix, level, ChildEvents(child, prefix, level));
    OneSpot(ChildSpots(child, level), child, level - 1, prefix, weight);
  }

  lemma OverflowAgrees(folder: Folder, prefix: string)
    ensures |Shown(OverflowEvents(folder, prefix))| == 0
    ensures Total(OverflowEvents(folder, prefix)) == Skipped(TooLarge, folder.overflow)
  {
    if folder.overflow > 0 {
      OneEvent(OverflowEvents(folder, prefix));
    }
  }

  /** The events of an entered folder against its own spot and those below it. */
  lemma EnteredParts(visit: seq<Event>, inner: seq<Event>, overflow: seq<Event>, own: seq<Spot>, below: seq<Spot>,
                     prefix: string, above: nat, weight: Weight)
    requires |Shown(visit)| == 0 && |Shown(overflow)| == 0 && |Listed(own, prefix)| == 0
    requires Sum(own, above, weight) == Total(visit).Plus(Total(overflow))
    requires Agree(inner, below, prefix, above, weight)
    ensures Agree(visit + (inner + overflow), own + below, prefix, above, weight)
  {
    ShownAppend(inner, overflow);
    ShownAppend(visit, inner + overflow);
    TotalAppend(inner, overflow);
    TotalAppend(visit, inner + overflow);
    ListedAppend(own, below, prefix);
    SumAppend(own, below, above, weight);
    PlusSwap(Total(visit), Total(inner), Total(overflow));
  }

  lemma PlusSwap(a: Tally, b: Tally, c: Tally)
    ensures a.Plus(b.Plus(c)) == a.Plus(c).Plus(b)
  {
  }

  lemma OwnEvent(child: Child, prefix: string, level: nat, visit: seq<Event>, overflow: Tally, own: seq<Spot>, weight: Weight)
    requires 1 <= level && !Shows(child) && |visit| == 1 && !visit[0].Show?
    requires |own| == 1 && own[0] == Spot([child.name], child)
    requires weight(child, level) == TallyOf(visit[0]).Plus(overflow)
    ensures |Shown(visit)| == 0 && |Listed(own, prefix)| == 0
    ensures Sum(own, level - 1, weight) == Total(visit).Plus(overflow)
  {
    OneEvent(visit);
    OneSpot(own, child, level - 1, prefix, weight);
  }

  lemma BelowAgrees(name: string, prefix: string, level: nat, inner: seq<Event>, spots: seq<Spot>, weight: Weight)
    requires 1 <= level && Agree(inner, spots, prefix + name + "/", level, weight)
    requires forall i :: 0 <= i < |spots| ==> spots[i].path != []
    ensures Agree(inner, Below(name, spots), prefix, level - 1, weight)
  {
    ListedBelow(name, spots, prefix);
    SumBelow(name, spots, level - 1, weight);
  }

  lemma EnteredAgrees(child: Child, prefix: string, level: nat, visit: seq<Event>, inner: seq<Event>, own: seq<Spot>,
                      below: seq<Spot>, weight: Weight)
    requires 1 <= level && !Shows(child) && child.node.Dir? && |visit| == 1 && !visit[0].Show?
    requires weight(child, level) == TallyOf(visit[0]).Plus(Skipped(TooLarge, child.node.folder.overflow))
    requires |own| == 1 && own[0] == Spot([child.name], child)
    requires Agree(inner, below, prefix, level - 1, weight)
    ensures Agree(visit + (inner + OverflowEvents(child.node.folder, prefix + child.name + "/")),
                  own + below, prefix, level - 1, weight)
  {
    var overflow := OverflowEvents(child.node.folder, prefix + child.name + "/");
    OverflowAgrees(child.node.folder, prefix + child.name + "/");
    OwnEvent(child, prefix, level, visit, Total(overflow), own, weight);
    EnteredParts(visit, inner, overflow, own, below, prefix, level - 1, weight);
  }

  lemma EnteredCount(child: Child, level: nat, visit: Event)
    requires Entered(child) && level < WALK_DEPTH_LIMIT && visit.Count? && visit.tally == Tally(1, NoSkips())
    ensures SpotCount(child, level) == TallyOf(visit).Plus(Skipped(TooLarge, child.node.folder.overflow))
  {
  }

  lemma {:induction false} ListAgrees(children: seq<Child>, prefix: string, level: nat, weight: Weight)
    requires 1 <= level <= WALK_DEPTH_LIMIT && Weighs(weight)
    ensures Agree(ListEvents(children, prefix, level), ListSpots(children, level), prefix, level - 1, weight)
    decreases children, 1
  {
    if children == [] {
      NoneAgree(ListEvents(children, prefix, level), ListSpots(children, level), prefix, level - 1, weight);
    } else {
      var child, rest := children[0], children[1..];
      InnerAgrees(child, prefix, level, weight);
      ListAgrees(rest, prefix, level, weight);
      ListParts(children, child, rest, prefix, level);
      AgreeTogether(ChildEvents(child, prefix, level), ListEvents(rest, prefix, level), ListEvents(children, prefix, level),
                    ChildSpots(child, level), ListSpots(rest, level), ListSpots(children, level), prefix, level - 1, weight);
    }
  }

  /** Parts that agree make up a whole that agrees. */
  lemma AgreeTogether(a: seq<Event>, b: seq<Event>, evs: seq<Event>, s: seq<Spot>, t: seq<Spot>, spots: seq<Spot>,
                      prefix: string, above: nat, weight: Weight)
    requires evs == a + b && spots == s + t
    requires Agree(a, s, prefix, above, weight) && Agree(b, t, prefix, above, weight)
    ensures Agree(evs, spots, prefix, above, weight)
  {
    ShownAppend(a, b);
    TotalAppend(a, b);
    ListedAppend(s, t, prefix);
    SumAppend(s, t, above, weight);
  }

  lemma NoneAgree(evs: seq<Event>, spots: seq<Spot>, prefix: string, above: nat, weight: Weight)
    requires |evs| == 0 && |spots| == 0
    ensures Agree(evs, spots, prefix, above, weight)
  {
  }

  lemma ListParts(children: seq<Child>, child: Child, rest: seq<Child>, prefix: string, level: nat)
    requires children != [] && children[0] == child && children[1..] == rest
    ensures ListEvents(children, prefix, level) == ChildEvents(child, prefix, level) + ListEvents(rest, prefix, level)
    ensures ListSpots(children, level) == ChildSpots(child, level) + ListSpots(rest, level)
  {
  }

  lemma {:induction false} InnerAgrees(child: Child, prefix: string, level: nat, weight: Weight)
    requires 1 <= level <= WALK_DEPTH_LIMIT && Weighs(weight)
    ensures Agree(ChildEvents(child, prefix, level), ChildSpots(child, level), prefix, level - 1, weight)
    decreases child, 0
  {
    assert weight(child, level) == SpotCount(child, level);
    if Entered(child) && level < WALK_DEPTH_LIMIT {
      var folder, deeper := child.node.folder, prefix + child.name + "/";
      ListAgrees(folder.children, deeper, level + 1, weight);
      SpotsHavePaths(folder.children, level + 1);
      BelowAgrees(child.name, prefix, level, ListEvents(folder.children, deeper, level + 1),
                  ListSpots(folder.children, level + 1), weight);
      EnteredCount(child, level, Count(prefix + child.name, Tally(1, NoSkips())));
      EnteredAgrees(child, prefix, level, [Count(prefix + child.name, Tally(1, NoSkips()))],
                    ListEvents(folder.children, deeper, level + 1), [Spot([child.name], child)],
                    Below(child.name, ListSpots(folder.children, level + 1)), weight);
      EventsOfEntered(child, prefix, level);
    } else {
      ChildAgrees(child, prefix, level, weight);
    }
  }

  lemma EventsOfEntered(child: Child, prefix: string, level: nat)
    requires Entered(child) && 1 <= level < WALK_DEPTH_LIMIT
    ensures var folder, deeper := child.node.folder, prefix + child.name + "/";
            ChildEvents(child, prefix, level)
            == [Count(prefix + child.name, Tally(1, NoSkips()))]
               + (ListEvents(folder.children, deeper, level + 1) + OverflowEvents(folder, deeper))
  {
  }

  /** What an unbounded walk of a source counts beside the names it reaches: the names beyond the root's listing, or
      the listing of a root that cannot be read. */
  function RootCount(root: Folder): Tally {
    if root.lists then Skipped(TooLarge, root.overflow) else Skipped(Unreadable, 1)
  }

  lemma ListedSourceAgrees(root: Folder, list: seq<Event>, spots: seq<Spot>, weight: Weight)
    requires root.lists && Agree(list, spots, "", 0, weight)
    ensures Shown(list + OverflowEvents(root, "")) == Listed(spots, "")
    ensures Total(list + OverflowEvents(root, "")) == Sum(spots, 0, weight).Plus(RootCount(root))
  {
    OverflowAgrees(root, "");
    ShownAppend(list, OverflowEvents(root, ""));
    TotalAppend(list, OverflowEvents(root, ""));
  }

  lemma UnlistedSource(root: Folder, evs: seq<Event>, none: seq<Spot>, weight: Weight)
    requires !root.lists && evs == SourceEvents(root) && |none| == 0
    ensures |Shown(evs)| == 0 && |Listed(none, "")| == 0
    ensures Total(evs) == Sum(none, 0, weight).Plus(RootCount(root))
  {
    OneEvent(evs);
    PlusNothing(RootCount(root));
  }

  lemma WeightsWeigh()
    ensures Weighs(Weights())
  {
  }

  lemma SourceSums(root: Folder, weight: Weight)
    requires Weighs(weight)
    ensures Shown(SourceEvents(root)) == Listed(SourceSpots(root), "")
    ensures Total(SourceEvents(root)) == Sum(SourceSpots(root), 0, weight).Plus(RootCount(root))
  {
    var spots := SourceSpots(root);
    if root.lists {
      ListAgrees(root.children, "", 1, weight);
      ListedSourceAgrees(root, ListEvents(root.children, "", 1), spots, weight);
    } else {
      UnlistedSource(root, SourceEvents(root), spots, weight);
    }
  }

  lemma SourceAgrees(root: Folder, spots: seq<Spot>, evs: seq<Event>)
    requires spots == SourceSpots(root) && evs == SourceEvents(root)
    ensures Shown(evs) == Listed(spots, "") && Total(evs) == CountOf(spots, 0).Plus(RootCount(root))
  {
    WeightsWeigh();
    SourceSums(root, Weights());
    SumIsCount(spots, 0, Weights());
  }

  ghost predicate ShownBySpot(spots: seq<Spot>, e: Entry) {
    exists spot :: spot in spots && Shows(spot.child) && e == Entry(Join(spot.path, '/'), spot.child.node.bytes.value)
  }

  lemma {:induction false} ListedMeans(spots: seq<Spot>, e: Entry)
    ensures e in Listed(spots, "") <==> ShownBySpot(spots, e)
  {
    if spots != [] {
      ListedMeans(spots[1..], e);
      assert "" + Join(spots[0].path, '/') == Join(spots[0].path, '/');
      assert spots == [spots[0]] + spots[1..];
    }
  }

  /** The entry is that of a file which shows, under its path. */
  ghost predicate LiesAtPath(root: Folder, path: Path, e: Entry) {
    var child := NodeAt(root, path);
    && child.Some? && Shows(child.value)
    && e == Entry(Join(path, '/'), child.value.node.bytes.value)
  }

  ghost predicate InTree(root: Folder, e: Entry) {
    exists path :: LiesAtPath(root, path, e)
  }

  lemma SpotsOfTree(root: Folder, spots: seq<Spot>, e: Entry)
    requires Enumerates(spots, root)
    ensures ShownBySpot(spots, e) <==> InTree(root, e)
  {
    if ShownBySpot(spots, e) {
      var spot :| spot in spots && Shows(spot.child) && e == Entry(Join(spot.path, '/'), spot.child.node.bytes.value);
      assert spot == Spot(spot.path, spot.child) && LiesAtPath(root, spot.path, e);
    }
    if InTree(root, e) {
      var path :| LiesAtPath(root, path, e);
      assert Spot(path, NodeAt(root, path).value) in spots;
    }
  }

  lemma ListedTree(root: Folder, spots: seq<Spot>, shown: seq<Entry>)
    requires Enumerates(spots, root) && shown == Listed(spots, "")
    ensures forall e :: e in shown <==> InTree(root, e)
  {
    forall e ensures e in shown <==> InTree(root, e) {
      ListedMeans(spots, e);
      SpotsOfTree(root, spots, e);
    }
  }

  /** The walk of a source lists exactly the files that show, under their paths, wherever they lie in folders that
      are entered. Every name it reaches is counted once, under the reason of its kind. */
  lemma WalkReaches(root: Folder, evs: seq<Event>) returns (spots: seq<Spot>)
    requires WellFormed(root) && evs == SourceEvents(root)
    ensures Enumerates(spots, root)
    ensures forall e :: e in Shown(evs) <==> InTree(root, e)
    ensures Total(evs) == CountOf(spots, 0).Plus(RootCount(root))
  {
    spots := SourceSpots(root);
    SpotsEnumerate(root);
    SourceAgrees(root, spots, evs);
    ListedTree(root, spots, Shown(evs));
  }
}
