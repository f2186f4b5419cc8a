/** Exact duplicates among the markers of a project (internal/reaper/tidy_survey.go:478-523). Positions are
    real numbers. */
module TidyMarkers {
  import opened Text
  import opened TidyPlans

  /** A marker, or a region when isRegion is set. */
  datatype Marker = Marker(index: int, id: int, isRegion: bool, position: real, end: Option<real>, name: string,
                           color: Option<Rgb>)

  predicate PointAt(m: Marker, position: real) {
    !m.isRegion && m.position == position
  }

  ghost predicate Distinct(markers: seq<Marker>) {
    forall i, j :: 0 <= i < j < |markers| ==>
      && markers[i].index != markers[j].index
      && (markers[i].isRegion == markers[j].isRegion ==> markers[i].id != markers[j].id)
  }

  /* ---- Which markers go, and in favour of which ---- */

  ghost predicate AnyNamed(markers: seq<Marker>, position: real) {
    exists m :: m in markers && PointAt(m, position) && m.name != ""
  }

  ghost predicate OneName(markers: seq<Marker>, position: real) {
    forall a, b ::
      (a in markers && b in markers && PointAt(a, position) && PointAt(b, position) && a.name != "" && b.name != ""
       ==> a.name == b.name)
  }

  /** s may stand for m: it is at the same position and has the same name, or m has no name and s has the
      only name there, or no marker there has a name. */
  ghost predicate Rival(markers: seq<Marker>, m: Marker, s: Marker) {
    && s in markers && !m.isRegion && PointAt(s, m.position)
    && if m.name != "" then s.name == m.name
       else AnyNamed(markers, m.position) ==> OneName(markers, m.position) && s.name != ""
  }

  /** m goes in favour of s, the rival with the least id. */
  ghost predicate SurvivesFor(markers: seq<Marker>, m: Marker, s: Marker) {
    Rival(markers, m, s) && s.id != m.id && forall o :: Rival(markers, m, o) ==> s.id <= o.id
  }

  ghost predicate Duplicate(markers: seq<Marker>, m: Marker) {
    exists s :: SurvivesFor(markers, m, s)
  }

  /* ---- Least ids ---- */

  ghost predicate LeastOf(markers: seq<Marker>, which: Marker -> bool, s: Marker) {
    s in markers && which(s) && forall o :: o in markers && which(o) ==> s.id <= o.id
  }

  lemma {:induction false} LeastExists(markers: seq<Marker>, which: Marker -> bool, m: Marker)
    requires m in markers && which(m)
    ensures exists s :: LeastOf(markers, which, s)
  {
    var first, rest := markers[0], markers[1..];
    if exists o :: o in rest && which(o) {
      var o :| o in rest && which(o);
      LeastExists(rest, which, o);
      var s :| LeastOf(rest, which, s);
      if which(first) && first.id < s.id {
        assert LeastOf(markers, which, first);
      } else {
        assert LeastOf(markers, which, s);
      }
    } else {
      assert LeastOf(markers, which, first);
    }
  }

  lemma SameId(markers: seq<Marker>, a: Marker, b: Marker)
    requires Distinct(markers) && a in markers && b in markers && a.isRegion == b.isRegion && a.id == b.id
    ensures a == b
  {
  }

  /** The least rival, if it is not the marker itself, is the survivor. */
  lemma LeastRival(markers: seq<Marker>, m: Marker, least: Marker)
    requires Distinct(markers) && m in markers
    requires Rival(markers, m, least) && forall o :: Rival(markers, m, o) ==> least.id <= o.id
    ensures forall s :: SurvivesFor(markers, m, s) <==> s == least && m != least
  {
    forall s | SurvivesFor(markers, m, s) ensures s == least && m != least {
      SameId(markers, s, least);
    }
    if m != least && m.id == least.id {
      SameId(markers, m, least);
    }
  }

  /** What has a rival other than itself with no greater id goes. */
  lemma RivalMeansDuplicate(markers: seq<Marker>, m: Marker, rival: Marker)
    requires Distinct(markers) && m in markers && Rival(markers, m, rival)
    requires rival.id < m.id || (m.name == "" && rival.name != "")
    ensures Duplicate(markers, m)
  {
    var which := (o: Marker) => o in markers && PointAt(o, m.position)
                   && (if m.name != "" then o.name == m.name else rival.name != "" ==> o.name != "");
    LeastExists(markers, which, rival);
    var s :| LeastOf(markers, which, s);
    forall o ensures Rival(markers, m, o) <==> o in markers && which(o) {
      RivalKind(markers, m, rival, o);
    }
    LeastRival(markers, m, s);
    assert which(rival) && which(s) && s.id <= rival.id;
    assert SurvivesFor(markers, m, s);
  }

  lemma RivalKind(markers: seq<Marker>, m: Marker, rival: Marker, o: Marker)
    requires Rival(markers, m, rival)
    requires rival.id < m.id || (m.name == "" && rival.name != "")
    ensures Rival(markers, m, o) == (o in markers && PointAt(o, m.position)
              && if m.name != "" then o.name == m.name else rival.name != "" ==> o.name != "")
  {
  }

  /* ---- findExactDuplicateMarkers ---- */

  function Where(markers: seq<Marker>, which: Marker -> bool): (r: seq<Marker>)
    ensures forall m :: m in r <==> m in markers && which(m)
  {
    if markers == [] then []
    else
      var shorter := Where(markers[..|markers| - 1], which);
      assert markers == markers[..|markers| - 1] + [markers[|markers| - 1]];
      if which(markers[|markers| - 1]) then shorter + [markers[|markers| - 1]] else shorter
  }

  function AtPosition(position: real): Marker -> bool {
    (m: Marker) => PointAt(m, position)
  }

  function Named(name: string): Marker -> bool {
    (m: Marker) => m.name == name
  }

  ghost predicate SortedById(markers: seq<Marker>) {
    forall i, j :: 0 <= i < j < |markers| ==> markers[i].id < markers[j].id
  }

  lemma {:induction false} WhereSorted(markers: seq<Marker>, which: Marker -> bool)
    requires SortedById(markers)
    ensures SortedById(Where(markers, which))
  {
    if markers != [] {
      var n := |markers| - 1;
      WhereSorted(markers[..n], which);
      forall m | m in Where(markers[..n], which) ensures m.id < markers[n].id {
        var i :| 0 <= i < n && markers[i] == m;
      }
    }
  }

  lemma {:induction false} WhereDistinct(markers: seq<Marker>, which: Marker -> bool)
    requires Distinct(markers)
    ensures Distinct(Where(markers, which))
  {
    if markers != [] {
      var n := |markers| - 1;
      WhereDistinct(markers[..n], which);
      forall m | m in Where(markers[..n], which)
        ensures m.index != markers[n].index && (m.isRegion == markers[n].isRegion ==> m.id != markers[n].id)
      {
        var i :| 0 <= i < n && markers[i] == m;
      }
    }
  }

  lemma WhereStep(markers: seq<Marker>, which: Marker -> bool, i: nat)
    requires i < |markers|
    ensures Where(markers[..i + 1], which) == Where(markers[..i], which) + if which(markers[i]) then [markers[i]] else []
  {
    assert markers[..i + 1][..i] == markers[..i];
  }

  /** Sorting the markers of one position by id, with an insertion for each. */
  method SortById(group: seq<Marker>) returns (sorted: seq<Marker>)
    requires Distinct(group) && forall m :: m in group ==> !m.isRegion
    ensures SortedById(sorted) && forall m :: m in sorted <==> m in group
  {
    sorted := [];
    for i := 0 to |group|
      invariant SortedById(sorted) && forall m :: m in sorted <==> m in group[..i]
    {
      forall o | o in sorted ensures o.id != group[i].id {
        var k :| 0 <= k < i && group[k] == o;
      }
      sorted := InsertById(sorted, group[i]);
      assert group[..i + 1] == group[..i] + [group[i]];
    }
    assert group[..|group|] == group;
  }

  method InsertById(sorted: seq<Marker>, m: Marker) returns (longer: seq<Marker>)
    requires SortedById(sorted) && forall o :: o in sorted ==> o.id != m.id
    ensures SortedById(longer) && forall o :: o in longer <==> o in sorted || o == m
  {
    var at := 0;
    while at < |sorted| && sorted[at].id < m.id
      invariant 0 <= at <= |sorted| && forall k :: 0 <= k < at ==> sorted[k].id < m.id
    {
      at := at + 1;
    }
    forall k | at <= k < |sorted| ensures m.id < sorted[k].id {
      assert sorted[at] in sorted;
    }
    longer := sorted[..at] + [m] + sorted[at..];
    InsertedMembers(sorted, at, m);
    InsertedSorted(sorted, at, m);
  }

  lemma InsertedMembers(sorted: seq<Marker>, at: nat, m: Marker)
    requires at <= |sorted|
    ensures forall o :: o in sorted[..at] + [m] + sorted[at..] <==> o in sorted || o == m
  {
    assert sorted == sorted[..at] + sorted[at..];
  }

  lemma InsertedSorted(sorted: seq<Marker>, at: nat, m: Marker)
    requires SortedById(sorted) && at <= |sorted|
    requires forall k :: 0 <= k < at ==> sorted[k].id < m.id
    requires forall k :: at <= k < |sorted| ==> m.id < sorted[k].id
    ensures SortedById(sorted[..at] + [m] + sorted[at..])
  {
  }

  /** The marks are right for the markers whose name is among these. */
  ghost predicate Marked(markers: seq<Marker>, marks: map<int, int>, about: Marker -> bool) {
    && (forall m, s :: m in markers && about(m) && SurvivesFor(markers, m, s) ==> m.index in marks && marks[m.index] == s.id)
    && (forall key :: key in marks ==> MarkedBy(markers, marks, about, key))
  }

  ghost predicate MarkedBy(markers: seq<Marker>, marks: map<int, int>, about: Marker -> bool, key: int)
    requires key in marks
  {
    exists m, s :: m in markers && about(m) && m.index == key && SurvivesFor(markers, m, s) && marks[key] == s.id
  }

  function IndexSet(markers: seq<Marker>): set<int> {
    set m | m in markers :: m.index
  }

  /** The marks, with these markers going in favour of one id. */
  ghost predicate Extends(before: map<int, int>, more: seq<Marker>, id: int, marks: map<int, int>) {
    && marks.Keys == before.Keys + IndexSet(more)
    && forall key :: key in marks ==> marks[key] == if key in IndexSet(more) then id else before[key]
  }

  method MarkAll(before: map<int, int>, more: seq<Marker>, id: int) returns (marks: map<int, int>)
    ensures Extends(before, more, id, marks)
  {
    marks := before;
    for i := 0 to |more|
      invariant Extends(before, more[..i], id, marks)
    {
      assert more[..i + 1] == more[..i] + [more[i]];
      assert IndexSet(more[..i + 1]) == IndexSet(more[..i]) + {more[i].index};
      marks := marks[more[i].index := id];
    }
    assert more[..|more|] == more;
  }

  lemma MarkedMore(markers: seq<Marker>, before: map<int, int>, about: Marker -> bool, more: seq<Marker>, least: Marker,
                   marks: map<int, int>, wider: Marker -> bool)
    requires Distinct(markers) && Marked(markers, before, about) && Extends(before, more, least.id, marks)
    requires forall m :: about(m) ==> wider(m)
    requires forall m :: m in more ==> m in markers && wider(m) && !about(m)
    requires forall m, s :: m in markers && wider(m) && !about(m) ==> (SurvivesFor(markers, m, s) <==> m in more && s == least)
    ensures Marked(markers, marks, wider)
  {
    forall m, s | m in markers && wider(m) && SurvivesFor(markers, m, s)
      ensures m.index in marks && marks[m.index] == s.id
    {
      if about(m) {
        assert m.index !in IndexSet(more);
      } else {
        assert m.index in IndexSet(more);
      }
    }
    forall key | key in marks ensures MarkedBy(markers, marks, wider, key) {
      if key in IndexSet(more) {
        var m :| m in more && m.index == key;
        assert SurvivesFor(markers, m, least);
      } else {
        assert MarkedBy(markers, before, about, key);
      }
    }
  }

  ghost predicate AllAt(group: seq<Marker>, position: real) {
    forall m :: m in group ==> PointAt(m, position)
  }

  ghost predicate SameMembers(a: seq<Marker>, b: seq<Marker>) {
    forall m :: m in a <==> m in b
  }

  lemma FirstIsLeast(g: seq<Marker>)
    requires SortedById(g) && g != []
    ensures forall m :: m in g ==> g[0].id <= m.id && (m in g[1..] <==> m != g[0])
  {
    forall m | m in g ensures g[0].id <= m.id && (m in g[1..] <==> m != g[0]) {
      var k :| 0 <= k < |g| && g[k] == m;
      assert k > 0 ==> g[1..][k - 1] == m;
    }
  }

  /** Of the markers with one name, all but the first go in favour of the first. */
  lemma NamedGroup(group: seq<Marker>, position: real, g: seq<Marker>, name: string)
    requires Distinct(group) && AllAt(group, position) && name != "" && g != [] && SortedById(g)
    requires forall m :: m in g <==> m in group && m.name == name
    ensures forall m, s :: m in group && m.name == name ==> (SurvivesFor(group, m, s) <==> m in g[1..] && s == g[0])
  {
    FirstIsLeast(g);
    forall m | m in group && m.name == name
      ensures forall s :: SurvivesFor(group, m, s) <==> m in g[1..] && s == g[0]
    {
      LeastRival(group, m, g[0]);
    }
  }

  /** With no name at the position, all but the first go in favour of the first. */
  lemma UnnamedGroup(group: seq<Marker>, position: real, g: seq<Marker>)
    requires Distinct(group) && AllAt(group, position) && g != [] && SortedById(g)
    requires SameMembers(g, group) && forall m :: m in group ==> m.name == ""
    ensures forall m, s :: m in group ==> (SurvivesFor(group, m, s) <==> m in g[1..] && s == g[0])
  {
    FirstIsLeast(g);
    forall m | m in group
      ensures forall s :: SurvivesFor(group, m, s) <==> m in g[1..] && s == g[0]
    {
      LeastRival(group, m, g[0]);
    }
  }

  /** With one name at the position, the markers without a name go in favour of the first one with it. */
  lemma UnnamedBesideOne(group: seq<Marker>, position: real, g: seq<Marker>, name: string)
    requires Distinct(group) && AllAt(group, position) && name != "" && g != [] && SortedById(g)
    requires forall m :: m in g <==> m in group && m.name == name
    requires forall m :: m in group ==> m.name == "" || m.name == name
    ensures forall m, s :: m in group && m.name == "" ==> (SurvivesFor(group, m, s) <==> s == g[0])
  {
    FirstIsLeast(g);
    assert g[0] in g;
    forall m | m in group && m.name == ""
      ensures forall s :: SurvivesFor(group, m, s) <==> s == g[0]
    {
      assert Rival(group, m, g[0]);
      LeastRival(group, m, g[0]);
    }
  }

  /** With two names at the position, the markers without a name stay. */
  lemma UnnamedBesideTwo(group: seq<Marker>, position: real, a: Marker, b: Marker)
    requires AllAt(group, position) && a in group && b in group && a.name != "" && b.name != "" && a.name != b.name
    ensures forall m, s :: m in group && m.name == "" ==> !SurvivesFor(group, m, s)
  {
    assert AnyNamed(group, position) && !OneName(group, position);
  }

  function NameIn(names: set<string>): Marker -> bool {
    (m: Marker) => m.name in names
  }

  function Everything(): Marker -> bool {
    (m: Marker) => true
  }

  /** The named markers of a position by name, each group in id order. */
  ghost predicate Grouped(group: seq<Marker>, named: map<string, seq<Marker>>) {
    && (forall n :: n in named ==> n != "" && named[n] != [] && SortedById(named[n]))
    && (forall n, m :: n in named ==> (m in named[n] <==> m in group && m.name == n))
    && forall m :: m in group && m.name != "" ==> m.name in named
  }

  /** The named groups among the markers seen so far. */
  ghost predicate ByNames(seen: seq<Marker>, named: map<string, seq<Marker>>) {
    && (forall n :: n in named <==> n != "" && Where(seen, Named(n)) != [])
    && forall n :: n in named ==> named[n] == Where(seen, Named(n))
  }

  function AddNamed(named: map<string, seq<Marker>>, m: Marker): map<string, seq<Marker>> {
    named[m.name := (if m.name in named then named[m.name] else []) + [m]]
  }

  lemma ByNamesStep(sorted: seq<Marker>, i: nat, named: map<string, seq<Marker>>)
    requires i < |sorted| && ByNames(sorted[..i], named)
    ensures ByNames(sorted[..i + 1], if sorted[i].name == "" then named else AddNamed(named, sorted[i]))
  {
    var marker := sorted[i];
    var next := if marker.name == "" then named else AddNamed(named, marker);
    forall n ensures n in next <==> n != "" && Where(sorted[..i + 1], Named(n)) != [] {
      NameStep(sorted, i, n);
    }
    forall n | n in next ensures next[n] == Where(sorted[..i + 1], Named(n)) {
      NameStep(sorted, i, n);
    }
  }

  lemma NameStep(sorted: seq<Marker>, i: nat, n: string)
    requires i < |sorted|
    ensures Where(sorted[..i + 1], Named(n))
            == if n == sorted[i].name then Where(sorted[..i], Named(n)) + [sorted[i]] else Where(sorted[..i], Named(n))
  {
    WhereStep(sorted, Named(n), i);
  }

  lemma ByNamesGroups(sorted: seq<Marker>, named: map<string, seq<Marker>>)
    requires SortedById(sorted) && ByNames(sorted, named)
    ensures Grouped(sorted, named)
  {
    forall n ensures SortedById(Where(sorted, Named(n))) {
      WhereSorted(sorted, Named(n));
    }
    forall m | m in sorted && m.name != "" ensures m.name in named {
      assert m in Where(sorted, Named(m.name));
    }
  }

  method GroupByName(sorted: seq<Marker>) returns (named: map<string, seq<Marker>>, empty: seq<Marker>)
    requires SortedById(sorted)
    ensures Grouped(sorted, named)
    ensures SortedById(empty) && forall m :: m in empty <==> m in sorted && m.name == ""
  {
    named := map[];
    empty := [];
    for i := 0 to |sorted|
      invariant empty == Where(sorted[..i], Named("")) && ByNames(sorted[..i], named)
    {
      var marker := sorted[i];
      ByNamesStep(sorted, i, named);
      WhereStep(sorted, Named(""), i);
      if marker.name == "" {
        empty := empty + [marker];
      } else {
        named := AddNamed(named, marker);
      }
    }
    assert sorted[..|sorted|] == sorted;
    ByNamesGroups(sorted, named);
    WhereSorted(sorted, Named(""));
  }

  lemma MarkName(group: seq<Marker>, position: real, named: map<string, seq<Marker>>, done: set<string>, name: string,
                 before: map<int, int>, marks: map<int, int>)
    requires Distinct(group) && AllAt(group, position) && Grouped(group, named)
    requires name in named && name !in done && Marked(group, before, NameIn(done))
    requires Extends(before, named[name][1..], named[name][0].id, marks)
    ensures Marked(group, marks, NameIn(done + {name}))
  {
    var g := named[name];
    NamedGroup(group, position, g, name);
    forall m | m in g[1..] ensures m in group && m.name == name {
      assert m in g;
    }
    MarkedMore(group, before, NameIn(done), g[1..], g[0], marks, NameIn(done + {name}));
  }

  lemma NothingMarked(group: seq<Marker>)
    ensures Marked(group, map[], NameIn({}))
  {
  }

  /** The first marker of some named group. */
  ghost predicate HeadsGroup(named: map<string, seq<Marker>>, m: Marker) {
    exists n :: n in named && named[n] != [] && m == named[n][0]
  }

  method MarkGroupOf(group: seq<Marker>, position: real, named: map<string, seq<Marker>>, ghost done: set<string>,
                     name: string, before: map<int, int>) returns (marks: map<int, int>, survivor: Marker)
    requires Distinct(group) && AllAt(group, position) && Grouped(group, named)
    requires name in named && name !in done && Marked(group, before, NameIn(done))
    ensures Marked(group, marks, NameIn(done + {name})) && HeadsGroup(named, survivor)
  {
    survivor := named[name][0];
    marks := MarkAll(before, named[name][1..], survivor.id);
    MarkName(group, position, named, done, name, before, marks);
  }

  /** Marks the named duplicates; the names are taken in any order. */
  method MarkNamed(group: seq<Marker>, position: real, named: map<string, seq<Marker>>)
    returns (marks: map<int, int>, soleNamedSurvivor: Option<Marker>)
    requires Distinct(group) && AllAt(group, position) && Grouped(group, named)
    ensures Marked(group, marks, NameIn(named.Keys))
    ensures soleNamedSurvivor.Some? <==> |named| == 1
    ensures soleNamedSurvivor.Some? ==> HeadsGroup(named, soleNamedSurvivor.value)
  {
    marks := map[];
    soleNamedSurvivor := None;
    var todo := named.Keys;
    NothingMarked(group);
    assert named.Keys - todo == {};
    while todo != {}
      invariant todo <= named.Keys && Marked(group, marks, NameIn(named.Keys - todo))
      invariant soleNamedSurvivor.Some? <==> |named| == 1 && todo == {}
      invariant soleNamedSurvivor.Some? ==> HeadsGroup(named, soleNamedSurvivor.value)
      decreases todo
    {
      var name :| name in todo;
      var survivor;
      marks, survivor := MarkGroupOf(group, position, named, named.Keys - todo, name, marks);
      NextName(named.Keys, todo, name);
      todo := todo - {name};
      if |named| == 1 {
        soleNamedSurvivor := Some(survivor);
      }
    }
    NoName(named.Keys, todo);
  }

  lemma NextName(names: set<string>, todo: set<string>, name: string)
    requires todo <= names && name in todo
    ensures names - (todo - {name}) == (names - todo) + {name}
    ensures |names| == 1 ==> todo - {name} == {}
  {
    if |names| == 1 {
      assert names == {name} + (names - {name});
    }
  }

  lemma NoName(names: set<string>, todo: set<string>)
    requires todo == {}
    ensures names - todo == names
  {
  }

  /** With one name at a position, every marker there has it or has none. */
  lemma SoleName(group: seq<Marker>, named: map<string, seq<Marker>>, name: string)
    requires Grouped(group, named) && name in named && |named| == 1
    ensures forall m :: m in group ==> m.name == "" || m.name == name
  {
    forall m | m in group && m.name != "" ensures m.name == name {
      assert named.Keys == {name} by {
        assert |named.Keys - {name}| == 0;
      }
    }
  }

  lemma TwoNames(group: seq<Marker>, named: map<string, seq<Marker>>) returns (a: Marker, b: Marker)
    requires Grouped(group, named) && |named| > 1
    ensures a in group && b in group && a.name != "" && b.name != "" && a.name != b.name
  {
    var n :| n in named.Keys;
    assert named.Keys == {n} + (named.Keys - {n});
    var k :| k in named.Keys - {n};
    a, b := named[n][0], named[k][0];
    assert a in named[n] && b in named[k];
  }

  /** Marks the duplicates of one position. */
  method MarkPosition(atPosition: seq<Marker>, position: real) returns (marks: map<int, int>)
    requires Distinct(atPosition) && AllAt(atPosition, position)
    ensures Marked(atPosition, marks, Everything())
  {
    var sorted := SortById(atPosition);
    var named, empty := GroupByName(sorted);
    assert Grouped(atPosition, named);
    var sole;
    marks, sole := MarkNamed(atPosition, position, named);
    ghost var before := marks;
    if sole.Some? {
      marks := MarkAll(marks, empty, sole.value.id);
      EmptyBesideOne(atPosition, position, named, empty, sole.value, before, marks);
    } else if |named| == 0 && |empty| > 1 {
      marks := MarkAll(marks, empty[1..], empty[0].id);
      EmptyAlone(atPosition, position, named, empty, before, marks);
    } else {
      NoEmptyMarked(atPosition, position, named, empty, marks);
    }
  }

  lemma EmptyBesideOne(group: seq<Marker>, position: real, named: map<string, seq<Marker>>, empty: seq<Marker>,
                       sole: Marker, before: map<int, int>, marks: map<int, int>)
    requires Distinct(group) && AllAt(group, position) && Grouped(group, named)
    requires forall m :: m in empty <==> m in group && m.name == ""
    requires |named| == 1 && HeadsGroup(named, sole)
    requires Marked(group, before, NameIn(named.Keys)) && Extends(before, empty, sole.id, marks)
    ensures Marked(group, marks, Everything())
  {
    var name :| name in named && named[name] != [] && sole == named[name][0];
    SoleName(group, named, name);
    UnnamedBesideOne(group, position, named[name], name);
    MarkedMore(group, before, NameIn(named.Keys), empty, sole, marks, Everything());
  }

  lemma EmptyAlone(group: seq<Marker>, position: real, named: map<string, seq<Marker>>, empty: seq<Marker>,
                   before: map<int, int>, marks: map<int, int>)
    requires Distinct(group) && AllAt(group, position) && Grouped(group, named)
    requires SortedById(empty) && forall m :: m in empty <==> m in group && m.name == ""
    requires |named| == 0 && empty != []
    requires Marked(group, before, NameIn(named.Keys)) && Extends(before, empty[1..], empty[0].id, marks)
    ensures Marked(group, marks, Everything())
  {
    assert named.Keys == {};
    UnnamedGroup(group, position, empty);
    forall m | m in empty[1..] ensures m in group {
      assert m in empty;
    }
    MarkedMore(group, before, NameIn(named.Keys), empty[1..], empty[0], marks, Everything());
  }

  lemma NoEmptyMarked(group: seq<Marker>, position: real, named: map<string, seq<Marker>>, empty: seq<Marker>,
                      marks: map<int, int>)
    requires Distinct(group) && AllAt(group, position) && Grouped(group, named)
    requires SortedById(empty) && forall m :: m in empty <==> m in group && m.name == ""
    requires |named| != 1 && (|named| > 1 || |empty| <= 1)
    requires Marked(group, marks, NameIn(named.Keys))
    ensures Marked(group, marks, Everything())
  {
    forall m, s | m in group && m.name !in named
      ensures !SurvivesFor(group, m, s)
    {
      assert m in empty;
      if |named| > 1 {
        var a, b := TwoNames(group, named);
        UnnamedBesideTwo(group, position, a, b);
      } else {
        assert named.Keys == {};
        UnnamedGroup(group, position, empty);
        assert m !in empty[1..];
      }
    }
    forall key | key in marks ensures MarkedBy(group, marks, Everything(), key) {
      assert MarkedBy(group, marks, NameIn(named.Keys), key);
    }
  }

  function AtPositions(positions: set<real>): Marker -> bool {
    (m: Marker) => !m.isRegion && m.position in positions
  }

  /** The point markers among those seen so far, by position. */
  ghost predicate ByPositions(seen: seq<Marker>, byPosition: map<real, seq<Marker>>) {
    && (forall p :: p in byPosition <==> Where(seen, AtPosition(p)) != [])
    && forall p :: p in byPosition ==> byPosition[p] == Where(seen, AtPosition(p))
  }

  function AddPoint(byPosition: map<real, seq<Marker>>, m: Marker): map<real, seq<Marker>> {
    byPosition[m.position := (if m.position in byPosition then byPosition[m.position] else []) + [m]]
  }

  lemma ByPositionsStep(markers: seq<Marker>, i: nat, byPosition: map<real, seq<Marker>>)
    requires i < |markers| && ByPositions(markers[..i], byPosition)
    ensures ByPositions(markers[..i + 1], if markers[i].isRegion then byPosition else AddPoint(byPosition, markers[i]))
  {
    var marker := markers[i];
    forall p ensures Where(markers[..i + 1], AtPosition(p))
                     == Where(markers[..i], AtPosition(p)) + if PointAt(marker, p) then [marker] else []
    {
      WhereStep(markers, AtPosition(p), i);
    }
  }

  method GroupByPosition(markers: seq<Marker>) returns (byPosition: map<real, seq<Marker>>)
    ensures ByPositions(markers, byPosition)
  {
    byPosition := map[];
    for i := 0 to |markers|
      invariant ByPositions(markers[..i], byPosition)
    {
      ByPositionsStep(markers, i, byPosition);
      if !markers[i].isRegion {
        byPosition := AddPoint(byPosition, markers[i]);
      }
    }
    assert markers[..|markers|] == markers;
  }

  /** Whether a marker goes depends only on the point markers at its position. */
  lemma LocalSurvivor(markers: seq<Marker>, position: real, m: Marker, s: Marker)
    requires PointAt(m, position)
    ensures SurvivesFor(Where(markers, AtPosition(position)), m, s) <==> SurvivesFor(markers, m, s)
  {
    var group := Where(markers, AtPosition(position));
    forall o ensures Rival(group, m, o) <==> Rival(markers, m, o) {
      LocalNames(markers, position);
    }
  }

  lemma LocalNames(markers: seq<Marker>, position: real)
    ensures AnyNamed(Where(markers, AtPosition(position)), position) <==> AnyNamed(markers, position)
    ensures OneName(Where(markers, AtPosition(position)), position) <==> OneName(markers, position)
  {
    var group := Where(markers, AtPosition(position));
    if AnyNamed(markers, position) {
      var m :| m in markers && PointAt(m, position) && m.name != "";
      assert m in group;
    }
  }

  /** A marked index belongs to a marker of the position. */
  lemma MarkedHere(markers: seq<Marker>, position: real, marks: map<int, int>, key: int) returns (m: Marker, s: Marker)
    requires Marked(Where(markers, AtPosition(position)), marks, Everything()) && key in marks
    ensures m in markers && PointAt(m, position) && m.index == key && SurvivesFor(markers, m, s) && marks[key] == s.id
  {
    var group := Where(markers, AtPosition(position));
    assert MarkedBy(group, marks, Everything(), key);
    m, s :| m in group && Everything()(m) && m.index == key && SurvivesFor(group, m, s) && marks[key] == s.id;
    LocalSurvivor(markers, position, m, s);
  }

  lemma MergedMark(markers: seq<Marker>, position: real, before: map<int, int>, done: set<real>, marks: map<int, int>,
                   m: Marker, s: Marker)
    requires Distinct(markers) && position !in done && Marked(markers, before, AtPositions(done))
    requires Marked(Where(markers, AtPosition(position)), marks, Everything())
    requires m in markers && (m.position == position || m.position in done) && SurvivesFor(markers, m, s)
    ensures m.index in before + marks && (before + marks)[m.index] == s.id
  {
    if m.position == position {
      MarkedFirst(markers, position, marks, m, s);
    } else {
      assert AtPositions(done)(m);
      NotMarkedHere(markers, position, marks, m);
    }
  }

  lemma MarkedFirst(markers: seq<Marker>, position: real, marks: map<int, int>, m: Marker, s: Marker)
    requires Marked(Where(markers, AtPosition(position)), marks, Everything())
    requires m in markers && m.position == position && SurvivesFor(markers, m, s)
    ensures m.index in marks && marks[m.index] == s.id
  {
    LocalSurvivor(markers, position, m, s);
    assert m in Where(markers, AtPosition(position)) && Everything()(m);
  }

  lemma NotMarkedHere(markers: seq<Marker>, position: real, marks: map<int, int>, m: Marker)
    requires Distinct(markers) && Marked(Where(markers, AtPosition(position)), marks, Everything())
    requires m in markers && m.position != position
    ensures m.index !in marks
  {
    if m.index in marks {
      var o, x := MarkedHere(markers, position, marks, m.index);
      assert false;
    }
  }

  lemma MergeMarks(markers: seq<Marker>, position: real, before: map<int, int>, done: set<real>, marks: map<int, int>)
    requires Distinct(markers) && position !in done && Marked(markers, before, AtPositions(done))
    requires Marked(Where(markers, AtPosition(position)), marks, Everything())
    ensures Marked(markers, before + marks, AtPositions(done + {position}))
  {
    var wider := AtPositions(done + {position});
    forall m, s | m in markers && wider(m) && SurvivesFor(markers, m, s)
      ensures m.index in before + marks && (before + marks)[m.index] == s.id
    {
      MergedMark(markers, position, before, done, marks, m, s);
    }
    forall key | key in before + marks ensures MarkedBy(markers, before + marks, wider, key) {
      if key in marks {
        var m, s := MarkedHere(markers, position, marks, key);
      } else {
        assert MarkedBy(markers, before, AtPositions(done), key);
      }
    }
  }

  method Pick<T>(values: set<T>) returns (value: T)
    requires values != {}
    ensures value in values
  {
    value :| value in values;
  }

  /** Every duplicate is marked with the id of its survivor, and nothing else is marked: the outcome does
      not depend on the order in which positions and names are taken. */
  method FindExactDuplicateMarkers(markers: seq<Marker>) returns (deleted: set<int>, survivors: map<int, int>)
    requires Distinct(markers)
    ensures deleted == survivors.Keys && Marked(markers, survivors, Everything())
  {
    var byPosition := GroupByPosition(markers);
    deleted, survivors := {}, map[];
    var todo := byPosition.Keys;
    ghost var done: set<real> := {};
    while todo != {}
      invariant done + todo == byPosition.Keys && done !! todo
      invariant deleted == survivors.Keys && Marked(markers, survivors, AtPositions(done))
      decreases todo
    {
      var position := Pick(todo);
      WhereDistinct(markers, AtPosition(position));
      var marks := MarkPosition(byPosition[position], position);
      MergeMarks(markers, position, survivors, done, marks);
      deleted, survivors := deleted + marks.Keys, survivors + marks;
      todo := todo - {position};
      done := done + {position};
    }
    AllPositions(markers, byPosition, done, survivors);
  }

  lemma AllPositions(markers: seq<Marker>, byPosition: map<real, seq<Marker>>, done: set<real>, survivors: map<int, int>)
    requires ByPositions(markers, byPosition) && done == byPosition.Keys
    requires Marked(markers, survivors, AtPositions(done))
    ensures Marked(markers, survivors, Everything())
  {
    forall m | m in markers && !m.isRegion ensures m.position in done {
      assert m in Where(markers, AtPosition(m.position));
    }
    forall key | key in survivors ensures MarkedBy(markers, survivors, Everything(), key) {
      assert MarkedBy(markers, survivors, AtPositions(done), key);
    }
  }

  /* ---- What duplicates leave behind ---- */

  /** The survivor of a duplicate stays, at the same position, with the same name unless the duplicate had none. */
  lemma SurvivorStays(markers: seq<Marker>, m: Marker, s: Marker)
    requires Distinct(markers) && m in markers && SurvivesFor(markers, m, s)
    ensures s in markers && !s.isRegion && s.position == m.position && !Duplicate(markers, s)
    ensures s.name == m.name || m.name == ""
  {
    forall o | Rival(markers, s, o) ensures Rival(markers, m, o) {
    }
    assert Rival(markers, s, s);
    LeastRival(markers, s, s);
  }

  ghost predicate KeptPoint(markers: seq<Marker>, m: Marker) {
    m in markers && !m.isRegion && !Duplicate(markers, m)
  }

  /** Deleting the duplicates loses no name at any position and no marked position. */
  lemma NothingIsLost(markers: seq<Marker>, m: Marker)
    requires Distinct(markers) && m in markers && !m.isRegion
    ensures exists k :: KeptPoint(markers, k) && k.position == m.position && (k.name == m.name || m.name == "")
  {
    if Duplicate(markers, m) {
      var s :| SurvivesFor(markers, m, s);
      SurvivorStays(markers, m, s);
      assert KeptPoint(markers, s);
    } else {
      assert KeptPoint(markers, m);
    }
  }

  /** The markers that stay are the first of each name at each position, and the markers without a name at
      positions with several names, or first of their position with none. */
  lemma WhatStays(markers: seq<Marker>, m: Marker)
    requires Distinct(markers) && m in markers && !m.isRegion
    ensures m.name != "" ==>
              (Duplicate(markers, m) <==> exists o :: o in markers && PointAt(o, m.position) && o.name == m.name && o.id < m.id)
    ensures m.name == "" && AnyNamed(markers, m.position) ==>
              (Duplicate(markers, m) <==> OneName(markers, m.position))
    ensures m.name == "" && !AnyNamed(markers, m.position) ==>
              (Duplicate(markers, m) <==> exists o :: o in markers && PointAt(o, m.position) && o.id < m.id)
  {
    if Duplicate(markers, m) {
      var s :| SurvivesFor(markers, m, s);
      assert Rival(markers, m, m) ==> s.id <= m.id;
    }
    if o :| o in markers && PointAt(o, m.position) && Rival(markers, m, o) && o.id < m.id {
      RivalMeansDuplicate(markers, m, o);
    }
    if m.name == "" && AnyNamed(markers, m.position) && OneName(markers, m.position) {
      var o :| o in markers && PointAt(o, m.position) && o.name != "";
      RivalMeansDuplicate(markers, m, o);
    }
  }
}
