/** Tidying converges: a second survey after the first plan is applied proposes nothing but the duplicates
    that the renames made, and a third proposes nothing (internal/reaper/tidy_survey.go:284-367). */
module TidyConvergence {
  import opened Text
  import opened TidyPlans
  import opened TidyNames
  import opened TidyMarkers
  import opened TidySurvey
  import opened TidyApply

  /* ---- Tidy names ---- */

  lemma TidyNameStable(t: CharTable, naming: Naming, name: string)
    requires Lawful(t) && GoodNaming(t, naming)
    ensures TidyName(t, TidyName(t, name, naming), naming) == TidyName(t, name, naming)
  {
    if CanonicalName(t, name, naming).Some? {
      CanonicalIsStable(t, name, naming);
    }
  }

  lemma TidyNameEmpty(t: CharTable, naming: Naming, name: string)
    requires Lawful(t) && GoodNaming(t, naming)
    ensures TidyName(t, name, naming) == "" <==> name == ""
  {
    if CanonicalName(t, name, naming).Some? {
      CanonicalIsNamed(t, name, naming);
      assert name != "" by {
        assert Trim(t, "") == "";
      }
    }
  }

  /* ---- The markers after a round ---- */

  /** A way to rename that gives no name to a marker without one, and takes no name away. */
  ghost predicate Renaming(newName: string -> string) {
    forall name :: newName(name) == "" <==> name == ""
  }

  ghost predicate Version(newName: string -> string, x: Marker, m: Marker) {
    x == m.(name := newName(m.name), index := x.index)
  }

  lemma {:induction false} TidiedFrom(newName: string -> string, all: seq<Marker>, markers: seq<Marker>, x: Marker)
    returns (m: Marker)
    requires x in Tidied(newName, all, markers)
    ensures m in markers && !Duplicate(all, m) && Version(newName, x, m)
  {
    var n := |markers| - 1;
    if x in Tidied(newName, all, markers[..n]) {
      m := TidiedFrom(newName, all, markers[..n], x);
    } else {
      m := markers[n];
    }
  }

  lemma TidiedLast(newName: string -> string, all: seq<Marker>, markers: seq<Marker>) returns (x: Marker)
    requires markers != [] && !Duplicate(all, markers[|markers| - 1])
    ensures x in Tidied(newName, all, markers) && Version(newName, x, markers[|markers| - 1])
  {
    var n := |markers| - 1;
    var before := Tidied(newName, all, markers[..n]);
    x := markers[n].(name := newName(markers[n].name), index := |before|);
    assert Tidied(newName, all, markers) == before + [x];
  }

  lemma {:induction false} TidiedTo(newName: string -> string, all: seq<Marker>, markers: seq<Marker>, m: Marker)
    returns (x: Marker)
    requires m in markers && !Duplicate(all, m)
    ensures x in Tidied(newName, all, markers) && Version(newName, x, m)
  {
    var n := |markers| - 1;
    if m == markers[n] {
      x := TidiedLast(newName, all, markers);
    } else {
      assert markers == markers[..n] + [markers[n]];
      x := TidiedTo(newName, all, markers[..n], m);
    }
  }

  lemma {:induction false} TidiedEnumerated(newName: string -> string, all: seq<Marker>, markers: seq<Marker>)
    ensures var r := Tidied(newName, all, markers);
            |r| <= |markers| && forall k :: 0 <= k < |r| ==> r[k].index == k
  {
    if markers != [] {
      TidiedEnumerated(newName, all, markers[..|markers| - 1]);
    }
  }

  ghost predicate DistinctIdentities(markers: seq<Marker>) {
    forall i, j :: 0 <= i < j < |markers| && markers[i].isRegion == markers[j].isRegion ==> markers[i].id != markers[j].id
  }

  lemma {:induction false} TidiedDistinct(newName: string -> string, all: seq<Marker>, markers: seq<Marker>)
    requires DistinctIdentities(markers)
    ensures DistinctIdentities(Tidied(newName, all, markers))
  {
    if markers != [] {
      var n := |markers| - 1;
      var before := Tidied(newName, all, markers[..n]);
      TidiedDistinct(newName, all, markers[..n]);
      forall i | 0 <= i < |before|
        ensures before[i].isRegion == markers[n].isRegion ==> before[i].id != markers[n].id
      {
        var m := TidiedFrom(newName, all, markers[..n], before[i]);
        var k :| 0 <= k < n && markers[k] == m;
      }
    }
  }

  /* ---- When a round makes new duplicates ---- */

  /** Two markers that stay, at one position, get the same name from different ones. */
  ghost predicate Clash(newName: string -> string, markers: seq<Marker>, a: Marker, b: Marker) {
    && KeptPoint(markers, a) && KeptPoint(markers, b) && a.position == b.position
    && a.name != b.name && newName(a.name) == newName(b.name)
  }

  ghost predicate NameClash(newName: string -> string, markers: seq<Marker>) {
    exists a, b :: Clash(newName, markers, a, b)
  }

  lemma AfterDistinct(newName: string -> string, markers: seq<Marker>)
    requires ValidMarkers(markers)
    ensures Distinct(markers) && Distinct(Tidied(newName, markers, markers))
  {
    TidiedEnumerated(newName, markers, markers);
    TidiedDistinct(newName, markers, markers);
  }

  /** A named marker at a position stays, or another one with its name does. */
  lemma NameStays(newName: string -> string, markers: seq<Marker>, a: Marker) returns (k: Marker, x: Marker)
    requires ValidMarkers(markers) && a in markers && !a.isRegion && a.name != ""
    ensures KeptPoint(markers, k) && k.position == a.position && k.name == a.name
    ensures x in Tidied(newName, markers, markers) && Version(newName, x, k)
  {
    AfterDistinct(newName, markers);
    NothingIsLost(markers, a);
    k :| KeptPoint(markers, k) && k.position == a.position && (k.name == a.name || a.name == "");
    x := TidiedTo(newName, markers, markers, k);
  }

  lemma NamedRepeats(newName: string -> string, markers: seq<Marker>, x: Marker)
    requires Renaming(newName) && ValidMarkers(markers)
    requires var after := Tidied(newName, markers, markers); x in after && Duplicate(after, x) && x.name != ""
    ensures NameClash(newName, markers)
  {
    var after := Tidied(newName, markers, markers);
    AfterDistinct(newName, markers);
    WhatStays(after, x);
    var y :| y in after && PointAt(y, x.position) && y.name == x.name && y.id < x.id;
    var m := TidiedFrom(newName, markers, markers, x);
    var n := TidiedFrom(newName, markers, markers, y);
    WhatStays(markers, m);
    assert n in markers && PointAt(n, m.position) && n.id < m.id;
    assert Clash(newName, markers, m, n);
  }

  lemma UnnamedBesideNames(newName: string -> string, markers: seq<Marker>, x: Marker)
    requires Renaming(newName) && ValidMarkers(markers)
    requires var after := Tidied(newName, markers, markers);
             x in after && Duplicate(after, x) && x.name == "" && AnyNamed(after, x.position)
    ensures NameClash(newName, markers)
  {
    var after := Tidied(newName, markers, markers);
    AfterDistinct(newName, markers);
    WhatStays(after, x);
    var m := TidiedFrom(newName, markers, markers, x);
    var y :| y in after && PointAt(y, x.position) && y.name != "";
    var n := TidiedFrom(newName, markers, markers, y);
    WhatStays(markers, m);
    var a, b := TwoNamesAt(markers, m.position, n);
    NamesMerge(newName, markers, a, b);
  }

  /** Two names at a position become one only when they clash. */
  lemma NamesMerge(newName: string -> string, markers: seq<Marker>, a: Marker, b: Marker)
    requires Renaming(newName) && ValidMarkers(markers)
    requires a in markers && b in markers && PointAt(a, b.position) && !b.isRegion
    requires a.name != "" && b.name != "" && a.name != b.name
    requires OneName(Tidied(newName, markers, markers), b.position)
    ensures NameClash(newName, markers)
  {
    var ka, xa := NameStays(newName, markers, a);
    var kb, xb := NameStays(newName, markers, b);
    assert Clash(newName, markers, ka, kb);
  }

  lemma TwoNamesAt(markers: seq<Marker>, position: real, n: Marker) returns (a: Marker, b: Marker)
    requires n in markers && PointAt(n, position) && n.name != "" && !OneName(markers, position)
    ensures a in markers && PointAt(a, position) && a.name != ""
    ensures b in markers && PointAt(b, position) && b.name != "" && b.name != a.name
  {
    a, b :| a in markers && b in markers && PointAt(a, position) && PointAt(b, position)
            && a.name != "" && b.name != "" && a.name != b.name;
  }

  lemma UnnamedAlone(newName: string -> string, markers: seq<Marker>, x: Marker)
    requires Renaming(newName) && ValidMarkers(markers)
    requires var after := Tidied(newName, markers, markers);
             x in after && !x.isRegion && x.name == "" && !AnyNamed(after, x.position)
    ensures !Duplicate(Tidied(newName, markers, markers), x)
  {
    var after := Tidied(newName, markers, markers);
    AfterDistinct(newName, markers);
    WhatStays(after, x);
    var m := TidiedFrom(newName, markers, markers, x);
    assert !AnyNamed(markers, m.position) by {
      if a :| a in markers && PointAt(a, m.position) && a.name != "" {
        var ka, xa := NameStays(newName, markers, a);
      }
    }
    WhatStays(markers, m);
    forall y | y in after && PointAt(y, x.position) ensures y.id >= x.id {
      var n := TidiedFrom(newName, markers, markers, y);
      assert n in markers && PointAt(n, m.position);
    }
  }

  lemma ClashRepeats(newName: string -> string, markers: seq<Marker>, a: Marker, b: Marker)
    requires Renaming(newName) && ValidMarkers(markers)
    requires Clash(newName, markers, a, b) && a.id < b.id
    ensures exists x :: x in Tidied(newName, markers, markers) && Duplicate(Tidied(newName, markers, markers), x)
  {
    AfterDistinct(newName, markers);
    var x := TidiedTo(newName, markers, markers, a);
    var y := TidiedTo(newName, markers, markers, b);
    WhatStays(Tidied(newName, markers, markers), y);
    assert PointAt(x, y.position) && x.name == y.name && x.id < y.id;
  }

  /** After a round there are duplicates again exactly when the renames made some. */
  lemma NewDuplicates(newName: string -> string, markers: seq<Marker>)
    requires Renaming(newName) && ValidMarkers(markers)
    ensures NameClash(newName, markers)
            <==> exists x :: x in Tidied(newName, markers, markers) && Duplicate(Tidied(newName, markers, markers), x)
  {
    var after := Tidied(newName, markers, markers);
    if x :| x in after && Duplicate(after, x) {
      DuplicatesArePoints(after, x);
      if x.name != "" {
        NamedRepeats(newName, markers, x);
      } else if AnyNamed(after, x.position) {
        UnnamedBesideNames(newName, markers, x);
      } else {
        UnnamedAlone(newName, markers, x);
      }
    }
    if a, b :| Clash(newName, markers, a, b) {
      AfterDistinct(newName, markers);
      if a.id == b.id {
        SameId(markers, a, b);
      }
      if a.id < b.id {
        ClashRepeats(newName, markers, a, b);
      } else {
        ClashRepeats(newName, markers, b, a);
      }
    }
  }

  /* ---- The rules of the conventions ---- */

  /** Tidy names stay as they are, and no name comes or goes. */
  ghost predicate Settled(rules: Rules) {
    Renaming(rules.newName) && forall name :: rules.newName(rules.newName(name)) == rules.newName(name)
  }

  lemma RulesSettle(t: CharTable, c: Conventions)
    requires Lawful(t) && GoodNaming(t, c.naming)
    ensures Settled(RulesOf(t, c))
  {
    var newName := RulesOf(t, c).newName;
    forall name ensures (newName(name) == "" <==> name == "") && newName(newName(name)) == newName(name) {
      TidyNameEmpty(t, c.naming, name);
      TidyNameStable(t, c.naming, name);
    }
  }

  /* ---- Nothing left to propose ---- */

  lemma NoColors(rules: Rules, tracks: seq<Track>)
    requires forall track :: track in tracks ==> !Recolored(rules, track)
    ensures ColorItems(rules, tracks) == []
  {
    if ColorItems(rules, tracks) != [] {
      var track := FromColors(rules, tracks, ColorItems(rules, tracks)[0]);
      assert false;
    }
  }

  lemma NoRenames(rules: Rules, markers: seq<Marker>)
    requires forall m :: m in markers ==> rules.newName(m.name) == m.name
    ensures RenameItems(rules, markers, markers) == []
  {
    if RenameItems(rules, markers, markers) != [] {
      var m := FromRenames(rules, markers, markers, RenameItems(rules, markers, markers)[0]);
      assert false;
    }
  }

  lemma NoDeletes(markers: seq<Marker>)
    ensures DeleteItems(markers, markers) == [] <==> forall m :: m in markers ==> !Duplicate(markers, m)
  {
    if DeleteItems(markers, markers) != [] {
      var m := FromDeletes(markers, markers, DeleteItems(markers, markers)[0]);
    }
    forall m | m in markers && Duplicate(markers, m) ensures DeleteItems(markers, markers) != [] {
      InDeletes(markers, markers, m);
    }
  }

  /** After a round every color and every name is as the conventions want it. */
  lemma OnlyDeletesRemain(rules: Rules, s: State, changeCount: int)
    requires Settled(rules) && ValidState(s)
    ensures var after := After(SurveyItems(rules, s), s, changeCount);
            SurveyItems(rules, after) == DeleteItems(after.markers, after.markers)
  {
    var after := After(SurveyItems(rules, s), s, changeCount);
    Round(rules, s, changeCount);
    forall track | track in after.tracks ensures !Recolored(rules, track) {
      var i :| 0 <= i < |after.tracks| && after.tracks[i] == track;
      assert after.tracks[i] == s.tracks[i].(color := RoleColor(rules, s.tracks[i]));
    }
    NoColors(rules, after.tracks);
    forall x | x in after.markers ensures rules.newName(x.name) == x.name {
      var m := TidiedFrom(rules.newName, s.markers, s.markers, x);
    }
    NoRenames(rules, after.markers);
  }

  /** A second survey proposes nothing exactly when no renames at one position clashed. */
  lemma OneRoundSuffices(rules: Rules, s: State, changeCount: int)
    requires Settled(rules) && ValidState(s)
    ensures SurveyItems(rules, After(SurveyItems(rules, s), s, changeCount)) == [] <==> !NameClash(rules.newName, s.markers)
  {
    OnlyDeletesRemain(rules, s, changeCount);
    Round(rules, s, changeCount);
    NoDeletes(Tidied(rules.newName, s.markers, s.markers));
    NewDuplicates(rules.newName, s.markers);
  }

  /* ---- Whole rounds ---- */

  lemma TidyNameFits(rules: Rules, s: State, m: Marker)
    requires ValidState(s) && ValidItems(SurveyItems(rules, s)) && m in s.markers && !Duplicate(s.markers, m)
    ensures OptionalText(rules.newName(m.name), MAX_NAME_BYTES)
  {
    if rules.newName(m.name) != m.name {
      AllChosen(rules, s);
      var item := RenameItem(m, rules.newName(m.name), rules.naming);
      assert NameChosen(SurveyItems(rules, s), rules, s.markers, m);
      assert ValidItem(item) && item.payload.newName == Some(rules.newName(m.name));
    }
  }

  lemma MarkersStayValid(rules: Rules, s: State)
    requires ValidState(s) && ValidItems(SurveyItems(rules, s))
    ensures ValidMarkers(Tidied(rules.newName, s.markers, s.markers)) && |Tidied(rules.newName, s.markers, s.markers)| <= |s.markers|
  {
    var after := Tidied(rules.newName, s.markers, s.markers);
    TidiedEnumerated(rules.newName, s.markers, s.markers);
    TidiedDistinct(rules.newName, s.markers, s.markers);
    forall k | 0 <= k < |after| ensures ValidMarker(after[k], k) {
      var m := TidiedFrom(rules.newName, s.markers, s.markers, after[k]);
      TidyNameFits(rules, s, m);
      assert ValidMarker(m, m.index);
    }
  }

  lemma ColorStaysValid(rules: Rules, s: State, track: Track)
    requires ValidItems(SurveyItems(rules, s)) && track in s.tracks && ValidColor(track.color)
    ensures ValidColor(RoleColor(rules, track))
  {
    if Recolored(rules, track) {
      AllChosen(rules, s);
      assert ColorChosen(SurveyItems(rules, s), rules, track);
      assert ValidItem(ColorItem(track, rules.role(track.name).value));
    }
  }

  lemma TracksStayValid(rules: Rules, s: State, after: seq<Track>)
    requires ValidTracks(s.tracks) && ValidItems(SurveyItems(rules, s)) && |after| == |s.tracks|
    requires forall i :: 0 <= i < |after| ==> after[i] == s.tracks[i].(color := RoleColor(rules, s.tracks[i]))
    ensures ValidTracks(after)
  {
    forall i | 0 <= i < |after| ensures ValidTrack(after[i], i) {
      assert ValidTrack(s.tracks[i], i);
      ColorStaysValid(rules, s, s.tracks[i]);
    }
  }

  /** A round within the plan bounds leaves a state that can be surveyed again. */
  lemma RoundStaysValid(rules: Rules, s: State, changeCount: int)
    requires ValidState(s) && ValidItems(SurveyItems(rules, s)) && 0 <= changeCount <= MAX_CHANGE_COUNT
    ensures ValidState(After(SurveyItems(rules, s), s, changeCount))
  {
    Round(rules, s, changeCount);
    TracksStayValid(rules, s, After(SurveyItems(rules, s), s, changeCount).tracks);
    MarkersStayValid(rules, s);
  }

  lemma NoClashOnceTidy(rules: Rules, s: State, changeCount: int)
    requires Settled(rules) && ValidState(s)
    ensures !NameClash(rules.newName, After(SurveyItems(rules, s), s, changeCount).markers)
  {
    Round(rules, s, changeCount);
    forall x | x in Tidied(rules.newName, s.markers, s.markers) ensures rules.newName(x.name) == x.name {
      var m := TidiedFrom(rules.newName, s.markers, s.markers, x);
    }
  }

  /** One of the ids and change counts that a survey and a run of its plan bring with them. */
  datatype Turn = Turn(planId: string, note: string, wording: PlanItem -> string, changeCount: int)

  ghost function SurveyIn(t: CharTable, c: Conventions, s: State, turn: Turn): SurveyResult {
    Survey(t, c, s, turn.planId, turn.note, turn.wording)
  }

  ghost function StateAfter(t: CharTable, c: Conventions, s: State, turn: Turn): State {
    After(SurveyItems(RulesOf(t, c), s), s, turn.changeCount)
  }

  predicate PossibleTurn(turn: Turn) {
    ValidId(turn.planId) && 0 <= turn.changeCount <= MAX_CHANGE_COUNT
  }

  ghost predicate AlreadyTidy(t: CharTable, c: Conventions, s: State, turn: Turn) {
    SurveyIn(t, c, s, turn).Surveyed? && SurveyIn(t, c, s, turn).proposal.alreadyTidy
  }

  lemma SurveyedItems(t: CharTable, c: Conventions, s: State, turn: Turn)
    requires SurveyIn(t, c, s, turn).Surveyed?
    ensures ValidState(s) && ValidItems(SurveyItems(RulesOf(t, c), s)) && c.roles != []
  {
  }

  lemma TidyWhenNothingToDo(t: CharTable, c: Conventions, s: State, turn: Turn)
    requires Lawful(t) && GoodNaming(t, c.naming) && PossibleTurn(turn) && ValidState(s) && c.roles != []
    ensures AlreadyTidy(t, c, s, turn) <==> SurveyItems(RulesOf(t, c), s) == []
  {
    assert forall section :: section in c.naming.sections ==> GoodSection(t, section);
    SurveyNeverAborts(t, c, s, turn.planId, turn.note, turn.wording);
  }

  /** One survey, applied, is followed by "already tidy" exactly when no renames at one position clashed. */
  lemma OneRoundConverges(t: CharTable, c: Conventions, s: State, first: Turn, second: Turn)
    requires Lawful(t) && GoodNaming(t, c.naming) && PossibleTurn(first) && PossibleTurn(second)
    requires SurveyIn(t, c, s, first).Surveyed?
    ensures AlreadyTidy(t, c, StateAfter(t, c, s, first), second) <==> !NameClash(RulesOf(t, c).newName, s.markers)
  {
    SurveyedItems(t, c, s, first);
    RulesSettle(t, c);
    RoundStaysValid(RulesOf(t, c), s, first.changeCount);
    OneRoundSuffices(RulesOf(t, c), s, first.changeCount);
    TidyWhenNothingToDo(t, c, StateAfter(t, c, s, first), second);
  }

  /** Two surveys, each applied and each within the plan bounds, are always followed by "already tidy". */
  lemma TwoRoundsConverge(t: CharTable, c: Conventions, s: State, first: Turn, second: Turn, third: Turn)
    requires Lawful(t) && GoodNaming(t, c.naming) && PossibleTurn(first) && PossibleTurn(second) && PossibleTurn(third)
    requires SurveyIn(t, c, s, first).Surveyed? && SurveyIn(t, c, StateAfter(t, c, s, first), second).Surveyed?
    ensures AlreadyTidy(t, c, StateAfter(t, c, StateAfter(t, c, s, first), second), third)
  {
    SurveyedItems(t, c, s, first);
    RulesSettle(t, c);
    NoClashOnceTidy(RulesOf(t, c), s, first.changeCount);
    OneRoundConverges(t, c, StateAfter(t, c, s, first), second, third);
  }

  /* ---- Sections that end in digits ---- */

  lemma AloneStays(m: Marker)
    requires Distinct([m])
    ensures !Duplicate([m], m)
  {
  }

  lemma TidiedAlone(newName: string -> string, m: Marker)
    requires Distinct([m])
    ensures Tidied(newName, [m], [m]) == [m.(name := newName(m.name), index := 0)]
  {
    var all := [m];
    var none := all[..0];
    AloneStays(m);
    assert all[..|all| - 1] == none && Tidied(newName, all, none) == [];
  }

  lemma RoundAlone(rules: Rules, s: State, m: Marker, changeCount: int)
    requires ValidState(s) && s.markers == [m]
    ensures After(SurveyItems(rules, s), s, changeCount).markers == [m.(name := rules.newName(m.name), index := 0)]
  {
    Round(rules, s, changeCount);
    assert Distinct(s.markers);
    TidiedAlone(rules.newName, m);
  }

  lemma RenamedAlone(rules: Rules, s: State, m: Marker)
    requires s.markers == [m] && rules.newName(m.name) != m.name
    ensures SurveyItems(rules, s) != []
  {
    assert Distinct(s.markers);
    AloneStays(m);
    InRenames(rules, s.markers, s.markers, m);
  }

  lemma TwoRoundsAlone(rules: Rules, s: State, next: State, last: State, m: Marker, first: int, second: int)
    requires ValidState(s) && ValidState(next) && s.markers == [m]
    requires next == After(SurveyItems(rules, s), s, first) && last == After(SurveyItems(rules, next), next, second)
    requires rules.newName(rules.newName(rules.newName(m.name))) != rules.newName(rules.newName(m.name))
    ensures SurveyItems(rules, last) != []
  {
    RoundAlone(rules, s, m, first);
    var renamed := m.(name := rules.newName(m.name), index := 0);
    RoundAlone(rules, next, renamed, second);
    RenamedAlone(rules, last, renamed.(name := rules.newName(renamed.name), index := 0));
  }

  /** Three renames in a row keep the survey busy for more than two rounds. */
  lemma ThirdRoundNeeded(t: CharTable, c: Conventions, s: State, m: Marker, first: Turn, second: Turn, third: Turn)
    requires PossibleTurn(first) && PossibleTurn(second)
    requires SurveyIn(t, c, s, first).Surveyed? && SurveyIn(t, c, StateAfter(t, c, s, first), second).Surveyed?
    requires s.markers == [m]
    requires var newName := RulesOf(t, c).newName; newName(newName(newName(m.name))) != newName(newName(m.name))
    ensures !AlreadyTidy(t, c, StateAfter(t, c, StateAfter(t, c, s, first), second), third)
  {
    var next := StateAfter(t, c, s, first);
    SurveyedItems(t, c, s, first);
    SurveyedItems(t, c, next, second);
    TwoRoundsAlone(RulesOf(t, c), s, next, StateAfter(t, c, next, second), m, first.changeCount, second.changeCount);
    TidyHasNothing(t, c, StateAfter(t, c, next, second), third);
  }

  lemma TidyHasNothing(t: CharTable, c: Conventions, s: State, turn: Turn)
    requires SurveyItems(RulesOf(t, c), s) != []
    ensures !AlreadyTidy(t, c, s, turn)
  {
  }

  /** Two rounds need not settle when sections may end in digits. */
  lemma TwoRoundsNeedNotSettle(t: CharTable, c: Conventions, s: State, m: Marker, three: string, two: string, one: string,
                               numbers: seq<string>, first: Turn, second: Turn, third: Turn)
    requires Lawful(t) && c.naming == Naming(LowerCase, false, DigitSections())
    requires |numbers| == 3 && ShiftParts(three, two, one, numbers[0], numbers[1], numbers[2])
    requires s.markers == [m] && m.name == three + ['-'] + numbers[0]
    requires PossibleTurn(first) && PossibleTurn(second)
    requires SurveyIn(t, c, s, first).Surveyed? && SurveyIn(t, c, StateAfter(t, c, s, first), second).Surveyed?
    ensures !AlreadyTidy(t, c, StateAfter(t, c, StateAfter(t, c, s, first), second), third)
  {
    var newName := RulesOf(t, c).newName;
    ShiftsThrice(t, c, newName, three, two, one, numbers);
    ThirdRoundNeeded(t, c, s, m, first, second, third);
  }

  lemma ShiftsThrice(t: CharTable, c: Conventions, newName: string -> string, three: string, two: string, one: string,
                     numbers: seq<string>)
    requires Lawful(t) && c.naming == Naming(LowerCase, false, DigitSections()) && newName == RulesOf(t, c).newName
    requires |numbers| == 3 && ShiftParts(three, two, one, numbers[0], numbers[1], numbers[2])
    ensures var name := three + ['-'] + numbers[0]; newName(newName(newName(name))) != newName(newName(name))
  {
    DigitSectionsShift(t, c.naming, three, two, one, numbers[0], numbers[1], numbers[2]);
    assert |one + [' '] + numbers[2]| == |one + numbers[2]| + 1;
  }

  /* ---- Targets ---- */

  ghost predicate AllTargeted(items: seq<PlanItem>) {
    forall i :: 0 <= i < |items| ==> HasTarget(items[i])
  }

  /** Every item has a target, and no two have the same one. */
  ghost predicate Apart(items: seq<PlanItem>) {
    AllTargeted(items) && DistinctObjects(items)
  }

  lemma ObjectsSnoc(items: seq<PlanItem>, item: PlanItem)
    requires Apart(items) && HasTarget(item)
    requires forall x :: x in items && HasTarget(x) ==> ObjectOf(x) != ObjectOf(item)
    ensures Apart(items + [item])
  {
    var longer, n := items + [item], |items|;
    assert longer[n] == item && forall k :: 0 <= k < n ==> longer[k] == items[k] && items[k] in items;
  }

  lemma ColorTargetNew(rules: Rules, tracks: seq<Track>, x: PlanItem)
    requires ValidTracks(tracks) && tracks != [] && x in ColorItems(rules, tracks[..|tracks| - 1])
    ensures HasTarget(x) && ObjectOf(x) != TrackObject(tracks[|tracks| - 1].guid)
  {
    var n := |tracks| - 1;
    var track := FromColors(rules, tracks[..n], x);
    var k :| 0 <= k < n && tracks[k] == track;
  }

  lemma {:induction false} ColorTargets(rules: Rules, tracks: seq<Track>)
    requires ValidTracks(tracks)
    ensures Apart(ColorItems(rules, tracks))
  {
    if tracks != [] {
      var n := |tracks| - 1;
      var shorter := ColorItems(rules, tracks[..n]);
      ColorTargets(rules, tracks[..n]);
      forall x | x in shorter ensures HasTarget(x) && ObjectOf(x) != TrackObject(tracks[n].guid) {
        ColorTargetNew(rules, tracks, x);
      }
      if Recolored(rules, tracks[n]) {
        ObjectsSnoc(shorter, ColorItem(tracks[n], rules.role(tracks[n].name).value));
      }
    }
  }

  lemma RenameTargetNew(rules: Rules, markers: seq<Marker>, i: nat, x: PlanItem)
    requires ValidMarkers(markers) && i < |markers| && x in RenameItems(rules, markers, markers[..i])
    ensures HasTarget(x) && ObjectOf(x) != MarkerObject(markers[i].isRegion, markers[i].id)
  {
    var m := FromRenames(rules, markers, markers[..i], x);
    var k :| 0 <= k < i && markers[k] == m;
  }

  lemma RenameTargetsSnoc(rules: Rules, markers: seq<Marker>, i: nat, shorter: seq<PlanItem>, item: PlanItem)
    requires ValidMarkers(markers) && i < |markers| && shorter == RenameItems(rules, markers, markers[..i])
    requires Apart(shorter)
    requires HasTarget(item) && ObjectOf(item) == MarkerObject(markers[i].isRegion, markers[i].id)
    ensures Apart(shorter + [item])
  {
    forall x | x in shorter ensures HasTarget(x) && ObjectOf(x) != ObjectOf(item) {
      RenameTargetNew(rules, markers, i, x);
    }
    ObjectsSnoc(shorter, item);
  }

  lemma RenameTargetsStep(rules: Rules, markers: seq<Marker>, i: nat)
    requires ValidMarkers(markers) && i < |markers| && Apart(RenameItems(rules, markers, markers[..i]))
    ensures Apart(RenameItems(rules, markers, markers[..i + 1]))
  {
    var shorter := RenameItems(rules, markers, markers[..i]);
    RenameItemsStep(rules, markers, i);
    if Renamed(rules, markers, markers[i]) {
      var item := RenameItem(markers[i], rules.newName(markers[i].name), rules.naming);
      RenameTargetsSnoc(rules, markers, i, shorter, item);
    } else {
      assert shorter + [] == shorter;
    }
  }

  lemma {:induction false} RenameTargets(rules: Rules, markers: seq<Marker>, i: nat)
    requires ValidMarkers(markers) && i <= |markers|
    ensures Apart(RenameItems(rules, markers, markers[..i]))
  {
    if i > 0 {
      RenameTargets(rules, markers, i - 1);
      RenameTargetsStep(rules, markers, i - 1);
    }
  }

  lemma DeleteTargetNew(markers: seq<Marker>, i: nat, x: PlanItem)
    requires ValidMarkers(markers) && i < |markers| && !markers[i].isRegion && x in DeleteItems(markers, markers[..i])
    ensures HasTarget(x) && ObjectOf(x) != MarkerObject(false, markers[i].id)
  {
    var m := FromDeletes(markers, markers[..i], x);
    var k :| 0 <= k < i && markers[k] == m;
    DuplicatesArePoints(markers, m);
  }

  lemma {:induction false} DeleteTargets(markers: seq<Marker>, i: nat)
    requires ValidMarkers(markers) && i <= |markers|
    ensures Apart(DeleteItems(markers, markers[..i]))
  {
    if i > 0 {
      var shorter, last := DeleteItems(markers, markers[..i - 1]), markers[i - 1];
      DeleteTargets(markers, i - 1);
      assert markers[..i][..i - 1] == markers[..i - 1];
      if Duplicate(markers, last) {
        DuplicatesArePoints(markers, last);
        forall x | x in shorter ensures HasTarget(x) && ObjectOf(x) != MarkerObject(false, last.id) {
          DeleteTargetNew(markers, i - 1, x);
        }
        ObjectsSnoc(shorter, DeleteItem(last, SurvivorId(markers, last)));
      }
    }
  }

  lemma ObjectsAppend(a: seq<PlanItem>, b: seq<PlanItem>)
    requires Apart(a) && Apart(b)
    requires forall x, y :: x in a && y in b && HasTarget(x) && HasTarget(y) ==> ObjectOf(x) != ObjectOf(y)
    ensures Apart(a + b)
  {
    var both := a + b;
    forall i, j | 0 <= i < j < |both| ensures HasTarget(both[i]) && HasTarget(both[j]) && ObjectOf(both[i]) != ObjectOf(both[j]) {
      if i < |a| && j >= |a| {
        assert both[i] in a && both[j] in b;
      }
    }
  }

  lemma NameAndDeleteApart(rules: Rules, markers: seq<Marker>, x: PlanItem, y: PlanItem)
    requires ValidMarkers(markers) && x in RenameItems(rules, markers, markers) && y in DeleteItems(markers, markers)
    ensures HasTarget(x) && HasTarget(y) && ObjectOf(x) != ObjectOf(y)
  {
    var m := FromRenames(rules, markers, markers, x);
    var o := FromDeletes(markers, markers, y);
    DuplicatesArePoints(markers, o);
    if m.isRegion == o.isRegion && m.id == o.id {
      SameId(markers, m, o);
    }
  }

  /** No two proposed items change the same track or marker, so renames and deletions never collide. */
  lemma TargetsNeverCollide(rules: Rules, s: State)
    requires ValidState(s)
    ensures Apart(SurveyItems(rules, s))
  {
    var colors, renames, deletes := ColorItems(rules, s.tracks), RenameItems(rules, s.markers, s.markers), DeleteItems(s.markers, s.markers);
    assert s.markers[..|s.markers|] == s.markers;
    ColorTargets(rules, s.tracks);
    RenameTargets(rules, s.markers, |s.markers|);
    DeleteTargets(s.markers, |s.markers|);
    forall x, y | x in colors && y in renames ensures ObjectOf(x).TrackObject? && ObjectOf(y).MarkerObject? {
      ColorKind(rules, s, x);
      RenameKind(rules, s, y);
    }
    ObjectsAppend(colors, renames);
    forall x, y | x in colors + renames && y in deletes ensures ObjectOf(x) != ObjectOf(y) {
      DeleteKind(s, y);
      if x in colors {
        ColorKind(rules, s, x);
      } else {
        NameAndDeleteApart(rules, s.markers, x, y);
      }
    }
    ObjectsAppend(colors + renames, deletes);
  }

  lemma ColorKind(rules: Rules, s: State, x: PlanItem)
    requires x in ColorItems(rules, s.tracks)
    ensures HasTarget(x) && ObjectOf(x).TrackObject?
  {
    var track := FromColors(rules, s.tracks, x);
  }

  lemma RenameKind(rules: Rules, s: State, x: PlanItem)
    requires x in RenameItems(rules, s.markers, s.markers)
    ensures HasTarget(x) && ObjectOf(x).MarkerObject?
  {
    var m := FromRenames(rules, s.markers, s.markers, x);
  }

  lemma DeleteKind(s: State, x: PlanItem)
    requires x in DeleteItems(s.markers, s.markers)
    ensures HasTarget(x) && ObjectOf(x).MarkerObject?
  {
    var m := FromDeletes(s.markers, s.markers, x);
  }
}
