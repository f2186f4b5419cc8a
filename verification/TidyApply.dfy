/** What a plan means: the four verbs over an inspected state. Every guard is checked against the state
    before the plan, then all items that pass are applied (internal/reaper/tidy_applier.lua:446-518). */
module TidyApply {
  import opened Text
  import opened TidyPlans
  import opened TidyMarkers
  import opened TidySurvey

  /* ---- Guards of the four verbs ---- */

  predicate ColorsTrack(item: PlanItem, track: Track) {
    item.verb.SetTrackColor? && item.target.trackGuid == track.guid
  }

  predicate RenamesMarker(item: PlanItem, m: Marker) {
    && (if m.isRegion then item.verb.RenameRegion? else item.verb.RenameMarker?)
    && item.target.markerId == Some(m.id) && item.target.snapshotName == Some(m.name)
    && item.payload.newName.Some?
  }

  /** s is still the survivor that the item names for m. */
  predicate StillSurvives(item: PlanItem, m: Marker, s: Marker) {
    && PointAt(s, m.position) && item.payload.survivorId == Some(s.id)
    && (s.name == m.name || s.name == "" || m.name == "")
  }

  ghost predicate DeletesMarker(item: PlanItem, markers: seq<Marker>, m: Marker) {
    && item.verb.DeleteMarker? && !m.isRegion
    && item.target.markerId == Some(m.id) && item.target.snapshotName == Some(m.name)
    && item.target.snapshotPosition == Some(m.position)
    && exists s :: s in markers && StillSurvives(item, m, s)
  }

  /* ---- The state after a plan ---- */

  ghost function ColorAfter(items: seq<PlanItem>, track: Track): Option<Rgb> {
    if exists item :: item in items && ColorsTrack(item, track) then
      var item :| item in items && ColorsTrack(item, track);
      item.payload.color
    else track.color
  }

  ghost function NameAfter(items: seq<PlanItem>, m: Marker): string {
    if exists item :: item in items && RenamesMarker(item, m) then
      var item :| item in items && RenamesMarker(item, m);
      item.payload.newName.value
    else m.name
  }

  ghost predicate Gone(items: seq<PlanItem>, all: seq<Marker>, m: Marker) {
    exists item :: item in items && DeletesMarker(item, all, m)
  }

  ghost function TracksAfter(items: seq<PlanItem>, tracks: seq<Track>): (r: seq<Track>)
    ensures |r| == |tracks|
    ensures forall i :: 0 <= i < |tracks| ==> r[i] == tracks[i].(color := ColorAfter(items, tracks[i]))
  {
    if tracks == [] then []
    else
      var n := |tracks| - 1;
      TracksAfter(items, tracks[..n]) + [tracks[n].(color := ColorAfter(items, tracks[n]))]
  }

  /** The markers that are not deleted, under their new names, enumerated anew. */
  ghost function MarkersAfter(items: seq<PlanItem>, all: seq<Marker>, markers: seq<Marker>): seq<Marker> {
    if markers == [] then []
    else
      var before, m := MarkersAfter(items, all, markers[..|markers| - 1]), markers[|markers| - 1];
      if Gone(items, all, m) then before else before + [m.(name := NameAfter(items, m), index := |before|)]
  }

  /** The state after the items of a plan; the project change count is whatever REAPER reports then. */
  ghost function After(items: seq<PlanItem>, s: State, changeCount: int): State {
    s.(project := s.project.(changeCount := changeCount), tracks := TracksAfter(items, s.tracks),
       markers := MarkersAfter(items, s.markers, s.markers))
  }

  /* ---- What the survey proposes, item by item ---- */

  ghost predicate ColorsOne(rules: Rules, tracks: seq<Track>, item: PlanItem, track: Track) {
    track in tracks && Recolored(rules, track) && item == ColorItem(track, rules.role(track.name).value)
  }

  ghost predicate RenamesOne(rules: Rules, all: seq<Marker>, markers: seq<Marker>,
                             item: PlanItem, m: Marker) {
    m in markers && Renamed(rules, all, m) && item == RenameItem(m, rules.newName(m.name), rules.naming)
  }

  ghost predicate DeletesOne(all: seq<Marker>, markers: seq<Marker>, item: PlanItem, m: Marker) {
    m in markers && Duplicate(all, m) && item == DeleteItem(m, SurvivorId(all, m))
  }

  lemma {:induction false} FromColors(rules: Rules, tracks: seq<Track>, item: PlanItem) returns (track: Track)
    requires item in ColorItems(rules, tracks)
    ensures ColorsOne(rules, tracks, item, track)
  {
    var n := |tracks| - 1;
    if item in ColorItems(rules, tracks[..n]) {
      track := FromColors(rules, tracks[..n], item);
    } else {
      track := tracks[n];
    }
  }

  lemma {:induction false} InColors(rules: Rules, tracks: seq<Track>, track: Track)
    requires track in tracks && Recolored(rules, track)
    ensures ColorItem(track, rules.role(track.name).value) in ColorItems(rules, tracks)
  {
    var n := |tracks| - 1;
    assert tracks == tracks[..n] + [tracks[n]];
    if track in tracks[..n] {
      InColors(rules, tracks[..n], track);
    }
  }

  lemma {:induction false} FromRenames(rules: Rules, all: seq<Marker>, markers: seq<Marker>,
                                       item: PlanItem) returns (m: Marker)
    requires item in RenameItems(rules, all, markers)
    ensures RenamesOne(rules, all, markers, item, m)
  {
    var n := |markers| - 1;
    if item in RenameItems(rules, all, markers[..n]) {
      m := FromRenames(rules, all, markers[..n], item);
    } else {
      m := markers[n];
    }
  }

  lemma {:induction false} InRenames(rules: Rules, all: seq<Marker>, markers: seq<Marker>, m: Marker)
    requires m in markers && Renamed(rules, all, m)
    ensures RenameItem(m, rules.newName(m.name), rules.naming) in RenameItems(rules, all, markers)
  {
    var n := |markers| - 1;
    assert markers == markers[..n] + [markers[n]];
    if m in markers[..n] {
      InRenames(rules, all, markers[..n], m);
    }
  }

  lemma {:induction false} FromDeletes(all: seq<Marker>, markers: seq<Marker>, item: PlanItem) returns (m: Marker)
    requires item in DeleteItems(all, markers)
    ensures DeletesOne(all, markers, item, m)
  {
    var n := |markers| - 1;
    if item in DeleteItems(all, markers[..n]) {
      m := FromDeletes(all, markers[..n], item);
    } else {
      m := markers[n];
    }
  }

  lemma {:induction false} InDeletes(all: seq<Marker>, markers: seq<Marker>, m: Marker)
    requires m in markers && Duplicate(all, m)
    ensures DeleteItem(m, SurvivorId(all, m)) in DeleteItems(all, markers)
  {
    var n := |markers| - 1;
    assert markers == markers[..n] + [markers[n]];
    if m in markers[..n] {
      InDeletes(all, markers[..n], m);
    }
  }

  lemma ColorOrigin(rules: Rules, s: State, item: PlanItem) returns (track: Track)
    requires item in SurveyItems(rules, s) && item.verb.SetTrackColor?
    ensures ColorsOne(rules, s.tracks, item, track)
  {
    OnlyItsVerb(rules, s, item);
    track := FromColors(rules, s.tracks, item);
  }

  lemma RenameOrigin(rules: Rules, s: State, item: PlanItem) returns (m: Marker)
    requires item in SurveyItems(rules, s) && (item.verb.RenameMarker? || item.verb.RenameRegion?)
    ensures RenamesOne(rules, s.markers, s.markers, item, m)
  {
    OnlyItsVerb(rules, s, item);
    m := FromRenames(rules, s.markers, s.markers, item);
  }

  lemma DeleteOrigin(rules: Rules, s: State, item: PlanItem) returns (m: Marker)
    requires item in SurveyItems(rules, s) && item.verb.DeleteMarker?
    ensures DeletesOne(s.markers, s.markers, item, m)
  {
    OnlyItsVerb(rules, s, item);
    m := FromDeletes(s.markers, s.markers, item);
  }

  lemma OnlyItsVerb(rules: Rules, s: State, item: PlanItem)
    requires item in SurveyItems(rules, s)
    ensures item.verb.SetTrackColor? ==> item in ColorItems(rules, s.tracks)
    ensures item.verb.RenameMarker? || item.verb.RenameRegion? ==> item in RenameItems(rules, s.markers, s.markers)
    ensures item.verb.DeleteMarker? ==> item in DeleteItems(s.markers, s.markers)
  {
    if item in ColorItems(rules, s.tracks) {
      var track := FromColors(rules, s.tracks, item);
    } else if item in RenameItems(rules, s.markers, s.markers) {
      var m := FromRenames(rules, s.markers, s.markers, item);
    } else {
      var m := FromDeletes(s.markers, s.markers, item);
    }
  }

  lemma SameTrack(tracks: seq<Track>, a: Track, b: Track)
    requires ValidTracks(tracks) && a in tracks && b in tracks && a.guid == b.guid
    ensures a == b
  {
  }

  /* ---- What the survey proposes is well shaped ---- */

  lemma ColorShaped(rules: Rules, s: State, item: PlanItem)
    requires ValidState(s) && item in SurveyItems(rules, s) && item.verb.SetTrackColor?
    requires forall name :: rules.role(name).Some? ==> ValidRgb(rules.role(name).value.color)
    ensures ValidShape(item)
  {
    var track := ColorOrigin(rules, s, item);
    var i :| 0 <= i < |s.tracks| && s.tracks[i] == track;
    assert ValidTrack(s.tracks[i], i);
  }

  lemma RenameShaped(rules: Rules, s: State, item: PlanItem)
    requires ValidState(s) && item in SurveyItems(rules, s) && (item.verb.RenameMarker? || item.verb.RenameRegion?)
    requires forall m :: m in s.markers ==> RequiredText(rules.newName(m.name), MAX_NAME_BYTES) || rules.newName(m.name) == m.name
    ensures ValidShape(item)
  {
    var m := RenameOrigin(rules, s, item);
    assert ValidMarker(m, m.index);
  }

  lemma DeleteShaped(rules: Rules, s: State, item: PlanItem)
    requires ValidState(s) && item in SurveyItems(rules, s) && item.verb.DeleteMarker?
    ensures ValidShape(item)
  {
    var m := DeleteOrigin(rules, s, item);
    var x :| SurvivesFor(s.markers, m, x) && x.id == SurvivorId(s.markers, m);
    SurvivorStays(s.markers, m, x);
    DuplicatesArePoints(s.markers, m);
    assert ValidMarker(m, m.index) && ValidMarker(x, x.index);
    if x.id == m.id {
      SameId(s.markers, x, m);
      assert false;
    }
  }

  /** From a valid state, with colors and names that can be written, every proposed item has the shape of its verb. */
  lemma SurveyShaped(rules: Rules, s: State, item: PlanItem)
    requires ValidState(s) && item in SurveyItems(rules, s)
    requires forall name :: rules.role(name).Some? ==> ValidRgb(rules.role(name).value.color)
    requires forall m :: m in s.markers ==> RequiredText(rules.newName(m.name), MAX_NAME_BYTES) || rules.newName(m.name) == m.name
    ensures ValidShape(item)
  {
    if item.verb.SetTrackColor? {
      ColorShaped(rules, s, item);
    } else if item.verb.DeleteMarker? {
      DeleteShaped(rules, s, item);
    } else {
      KnownVerb(rules, s, item);
      RenameShaped(rules, s, item);
    }
  }

  lemma KnownVerb(rules: Rules, s: State, item: PlanItem)
    requires item in SurveyItems(rules, s)
    ensures !item.verb.OtherVerb?
  {
    if item in ColorItems(rules, s.tracks) {
      var track := FromColors(rules, s.tracks, item);
    } else if item in RenameItems(rules, s.markers, s.markers) {
      var m := FromRenames(rules, s.markers, s.markers, item);
    } else {
      var m := FromDeletes(s.markers, s.markers, item);
    }
  }

  /* ---- What a selection of a survey's plan does to the state the survey was made from ---- */

  ghost predicate IsSelection(items: seq<PlanItem>, rules: Rules, s: State) {
    forall item :: item in items ==> item in SurveyItems(rules, s)
  }

  /** The color of the track, the new name of the marker, its deletion are proposed and chosen. */
  ghost predicate ColorChosen(items: seq<PlanItem>, rules: Rules, track: Track) {
    Recolored(rules, track) && ColorItem(track, rules.role(track.name).value) in items
  }

  ghost predicate NameChosen(items: seq<PlanItem>, rules: Rules, markers: seq<Marker>, m: Marker) {
    Renamed(rules, markers, m) && RenameItem(m, rules.newName(m.name), rules.naming) in items
  }

  ghost predicate DeletionChosen(items: seq<PlanItem>, markers: seq<Marker>, m: Marker) {
    Duplicate(markers, m) && DeleteItem(m, SurvivorId(markers, m)) in items
  }

  ghost function RoleColor(rules: Rules, track: Track): Option<Rgb> {
    match rules.role(track.name)
    case None => track.color
    case Some(role) => Some(role.color)
  }

  lemma ColorOfTrack(rules: Rules, s: State, items: seq<PlanItem>, track: Track)
    requires ValidState(s) && IsSelection(items, rules, s) && track in s.tracks
    ensures ColorAfter(items, track) == if ColorChosen(items, rules, track) then RoleColor(rules, track) else track.color
  {
    forall item | item in items && ColorsTrack(item, track)
      ensures ColorsOne(rules, s.tracks, item, track)
    {
      var o := ColorOrigin(rules, s, item);
      SameTrack(s.tracks, o, track);
    }
    if ColorChosen(items, rules, track) {
      assert ColorsTrack(ColorItem(track, rules.role(track.name).value), track);
    }
  }

  lemma NameItemOf(rules: Rules, s: State, item: PlanItem, m: Marker)
    requires ValidState(s) && m in s.markers && item in SurveyItems(rules, s) && RenamesMarker(item, m)
    ensures Renamed(rules, s.markers, m) && item == RenameItem(m, rules.newName(m.name), rules.naming)
  {
    var o := RenameOrigin(rules, s, item);
    SameId(s.markers, o, m);
  }

  ghost predicate HasNewName(items: seq<PlanItem>, m: Marker) {
    exists item :: item in items && RenamesMarker(item, m)
  }

  lemma OneNewName(items: seq<PlanItem>, m: Marker, name: string)
    requires forall item :: item in items && RenamesMarker(item, m) ==> item.payload.newName == Some(name)
    ensures NameAfter(items, m) == if HasNewName(items, m) then name else m.name
  {
  }

  lemma NameOfMarker(rules: Rules, s: State, items: seq<PlanItem>, m: Marker)
    requires ValidState(s) && IsSelection(items, rules, s) && m in s.markers
    ensures NameAfter(items, m) == if NameChosen(items, rules, s.markers, m) then rules.newName(m.name) else m.name
  {
    var name := rules.newName(m.name);
    forall item | item in items && RenamesMarker(item, m)
      ensures item.payload.newName == Some(name) && NameChosen(items, rules, s.markers, m)
    {
      NameItemOf(rules, s, item, m);
    }
    OneNewName(items, m, name);
    if NameChosen(items, rules, s.markers, m) {
      assert RenamesMarker(RenameItem(m, name, rules.naming), m);
    }
  }

  lemma DeleteItemOf(rules: Rules, s: State, item: PlanItem, m: Marker)
    requires ValidState(s) && m in s.markers && item in SurveyItems(rules, s) && DeletesMarker(item, s.markers, m)
    ensures Duplicate(s.markers, m) && item == DeleteItem(m, SurvivorId(s.markers, m))
  {
    var o := DeleteOrigin(rules, s, item);
    DuplicatesArePoints(s.markers, o);
    SameId(s.markers, o, m);
  }

  lemma DeleteItemHolds(s: State, m: Marker)
    requires ValidState(s) && m in s.markers && Duplicate(s.markers, m)
    ensures DeletesMarker(DeleteItem(m, SurvivorId(s.markers, m)), s.markers, m)
  {
    var x :| SurvivesFor(s.markers, m, x) && x.id == SurvivorId(s.markers, m);
    SurvivorStays(s.markers, m, x);
    assert StillSurvives(DeleteItem(m, SurvivorId(s.markers, m)), m, x);
  }

  /** On the state it was made from, every chosen deletion passes its guard, and no other marker goes. */
  lemma GoneIsChosen(rules: Rules, s: State, items: seq<PlanItem>, m: Marker)
    requires ValidState(s) && IsSelection(items, rules, s) && m in s.markers
    ensures Gone(items, s.markers, m) <==> DeletionChosen(items, s.markers, m)
  {
    if Gone(items, s.markers, m) {
      var item :| item in items && DeletesMarker(item, s.markers, m);
      DeleteItemOf(rules, s, item, m);
    }
    if DeletionChosen(items, s.markers, m) {
      DeleteItemHolds(s, m);
    }
  }

  lemma DuplicatesArePoints(markers: seq<Marker>, m: Marker)
    requires Duplicate(markers, m)
    ensures !m.isRegion
  {
  }

  /** The markers whose deletion is not chosen, under the names chosen for them, enumerated anew. */
  ghost function Chosen(items: seq<PlanItem>, rules: Rules, all: seq<Marker>, markers: seq<Marker>): seq<Marker> {
    if markers == [] then []
    else
      var before, m := Chosen(items, rules, all, markers[..|markers| - 1]), markers[|markers| - 1];
      if DeletionChosen(items, all, m) then before
      else
        var name := if NameChosen(items, rules, all, m) then rules.newName(m.name) else m.name;
        before + [m.(name := name, index := |before|)]
  }

  lemma {:induction false} MarkersAfterSelection(rules: Rules, s: State, items: seq<PlanItem>, i: nat)
    requires ValidState(s) && IsSelection(items, rules, s) && i <= |s.markers|
    ensures MarkersAfter(items, s.markers, s.markers[..i]) == Chosen(items, rules, s.markers, s.markers[..i])
  {
    if i > 0 {
      var m := s.markers[i - 1];
      MarkersAfterSelection(rules, s, items, i - 1);
      assert s.markers[..i][..i - 1] == s.markers[..i - 1];
      GoneIsChosen(rules, s, items, m);
      NameOfMarker(rules, s, items, m);
    }
  }

  /** Any selection of a survey's plan, applied to the state the survey was made from: every guard holds, so
      exactly the chosen colors, names and deletions happen. */
  lemma SelectedRound(rules: Rules, s: State, items: seq<PlanItem>, changeCount: int)
    requires ValidState(s) && IsSelection(items, rules, s)
    ensures var after := After(items, s, changeCount);
            && after.markers == Chosen(items, rules, s.markers, s.markers)
            && |after.tracks| == |s.tracks|
            && forall i :: 0 <= i < |s.tracks| ==>
                 after.tracks[i] == if ColorChosen(items, rules, s.tracks[i]) then
                                      s.tracks[i].(color := RoleColor(rules, s.tracks[i]))
                                    else s.tracks[i]
  {
    MarkersAfterSelection(rules, s, items, |s.markers|);
    assert s.markers[..|s.markers|] == s.markers;
    forall i | 0 <= i < |s.tracks|
      ensures ColorAfter(items, s.tracks[i])
              == if ColorChosen(items, rules, s.tracks[i]) then RoleColor(rules, s.tracks[i]) else s.tracks[i].color
    {
      ColorOfTrack(rules, s, items, s.tracks[i]);
    }
  }

  /** The color items that are not chosen. */
  ghost function ColorsLeft(items: seq<PlanItem>, rules: Rules, tracks: seq<Track>): seq<PlanItem> {
    if tracks == [] then []
    else
      var shorter, track := ColorsLeft(items, rules, tracks[..|tracks| - 1]), tracks[|tracks| - 1];
      if Recolored(rules, track) && !ColorChosen(items, rules, track) then
        shorter + [ColorItem(track, rules.role(track.name).value)]
      else shorter
  }

  lemma {:induction false} ColorsAfter(rules: Rules, items: seq<PlanItem>, before: seq<Track>, after: seq<Track>)
    requires |after| == |before|
    requires forall i :: 0 <= i < |before| ==>
               after[i] == if ColorChosen(items, rules, before[i]) then before[i].(color := RoleColor(rules, before[i]))
                           else before[i]
    ensures ColorItems(rules, after) == ColorsLeft(items, rules, before)
  {
    if before != [] {
      ColorsAfter(rules, items, before[..|before| - 1], after[..|after| - 1]);
    }
  }

  /** The next survey proposes exactly the colors that were not chosen. */
  lemma NextColors(rules: Rules, s: State, items: seq<PlanItem>, changeCount: int)
    requires ValidState(s) && IsSelection(items, rules, s)
    ensures ColorItems(rules, After(items, s, changeCount).tracks) == ColorsLeft(items, rules, s.tracks)
  {
    SelectedRound(rules, s, items, changeCount);
    ColorsAfter(rules, items, s.tracks, After(items, s, changeCount).tracks);
  }

  lemma TwinNames(markers: seq<Marker>, a: Marker, b: Marker)
    requires markers == [a, b] && Distinct(markers) && PointAt(a, b.position) && !b.isRegion && b.name != "" && a.id < b.id
    ensures Duplicate(markers, b) <==> a.name == b.name
    ensures a.name != "" ==> !Duplicate(markers, a)
  {
    WhatStays(markers, a);
    WhatStays(markers, b);
    assert a in markers;
  }

  lemma ChosenOfTwo(items: seq<PlanItem>, rules: Rules, a: Marker, b: Marker)
    requires !DeletionChosen(items, [a, b], a) && !DeletionChosen(items, [a, b], b)
    requires NameChosen(items, rules, [a, b], a) && !NameChosen(items, rules, [a, b], b)
    ensures Chosen(items, rules, [a, b], [a, b]) == [a.(name := rules.newName(a.name), index := 0), b.(index := 1)]
  {
    var all := [a, b];
    var one := all[..1];
    var none := one[..0];
    assert one == [a] && Chosen(items, rules, all, none) == [];
    assert Chosen(items, rules, all, one) == [a.(name := rules.newName(a.name), index := 0)];
    assert all[..|all| - 1] == one;
  }

  lemma OnlyDuplicatesGo(rules: Rules, s: State, b: Marker, survivorId: int)
    requires forall m :: m in s.markers && m.id == b.id ==> !Duplicate(s.markers, m)
    ensures DeleteItem(b, survivorId) !in SurveyItems(rules, s)
  {
    if DeleteItem(b, survivorId) in SurveyItems(rules, s) {
      var m := DeleteOrigin(rules, s, DeleteItem(b, survivorId));
      assert false;
    }
  }

  lemma OnlyItsName(items: seq<PlanItem>, rules: Rules, markers: seq<Marker>, a: Marker, m: Marker)
    requires items == [RenameItem(a, rules.newName(a.name), rules.naming)]
    ensures !DeletionChosen(items, markers, m)
    ensures m.id != a.id ==> !NameChosen(items, rules, markers, m)
  {
  }

  lemma RenameOneOfTwo(rules: Rules, s: State, a: Marker, b: Marker, changeCount: int)
    requires ValidState(s) && s.markers == [a, b] && a.id != b.id
    requires Renamed(rules, s.markers, a)
    ensures var items := [RenameItem(a, rules.newName(a.name), rules.naming)];
            && IsSelection(items, rules, s)
            && After(items, s, changeCount).markers == [a.(name := rules.newName(a.name)), b]
  {
    var items := [RenameItem(a, rules.newName(a.name), rules.naming)];
    AllChosen(rules, s);
    assert a in s.markers && NameChosen(SurveyItems(rules, s), rules, s.markers, a);
    OnlyItsName(items, rules, s.markers, a, a);
    OnlyItsName(items, rules, s.markers, a, b);
    ChosenOfTwo(items, rules, a, b);
    SelectedRound(rules, s, items, changeCount);
    assert ValidMarker(s.markers[0], 0) && ValidMarker(s.markers[1], 1);
  }

  /** For markers the next survey need not propose what was left out: choosing only the new name of the
      marker that stays makes its duplicate a marker of its own, to be renamed instead of deleted. */
  lemma RenamedSurvivorFrees(rules: Rules, s: State, a: Marker, b: Marker, items: seq<PlanItem>, changeCount: int)
    requires ValidState(s) && s.markers == [a, b] && PointAt(a, b.position) && !b.isRegion
    requires a.name == b.name != "" && a.id < b.id && rules.newName(a.name) != a.name
    requires items == [RenameItem(a, rules.newName(a.name), rules.naming)]
    ensures IsSelection(items, rules, s) && Duplicate(s.markers, b)
    ensures var left := DeleteItem(b, SurvivorId(s.markers, b));
            && left in SurveyItems(rules, s) && left !in items
            && left !in SurveyItems(rules, After(items, s, changeCount))
    ensures RenameItem(b, rules.newName(b.name), rules.naming) in SurveyItems(rules, After(items, s, changeCount))
  {
    DeletionProposed(rules, s, a, b);
    RenameOneOfTwo(rules, s, a, b, changeCount);
    ApartNow(rules, After(items, s, changeCount), a.(name := rules.newName(a.name)), b, SurvivorId(s.markers, b));
  }

  lemma DeletionProposed(rules: Rules, s: State, a: Marker, b: Marker)
    requires ValidState(s) && s.markers == [a, b] && PointAt(a, b.position) && !b.isRegion
    requires a.name == b.name != "" && a.id < b.id && rules.newName(a.name) != a.name
    ensures Duplicate(s.markers, b) && Renamed(rules, s.markers, a)
    ensures DeleteItem(b, SurvivorId(s.markers, b)) in SurveyItems(rules, s)
  {
    TwinNames(s.markers, a, b);
    InDeletes(s.markers, s.markers, b);
  }

  lemma ApartNow(rules: Rules, s: State, a: Marker, b: Marker, survivorId: int)
    requires s.markers == [a, b] && a.index != b.index && PointAt(a, b.position) && !b.isRegion
    requires a.name != b.name && b.name != "" && a.id < b.id && rules.newName(b.name) != b.name
    ensures DeleteItem(b, survivorId) !in SurveyItems(rules, s)
    ensures RenameItem(b, rules.newName(b.name), rules.naming) in SurveyItems(rules, s)
  {
    TwinNames(s.markers, a, b);
    InRenames(rules, s.markers, s.markers, b);
    OnlyDuplicatesGo(rules, s, b, survivorId);
  }

  /* ---- The whole plan ---- */

  lemma AllChosen(rules: Rules, s: State)
    ensures IsSelection(SurveyItems(rules, s), rules, s)
    ensures forall track :: track in s.tracks ==> (ColorChosen(SurveyItems(rules, s), rules, track) <==> Recolored(rules, track))
    ensures forall m :: m in s.markers ==>
              && (NameChosen(SurveyItems(rules, s), rules, s.markers, m) <==> Renamed(rules, s.markers, m))
              && (DeletionChosen(SurveyItems(rules, s), s.markers, m) <==> Duplicate(s.markers, m))
  {
    forall track | track in s.tracks && Recolored(rules, track)
      ensures ColorChosen(SurveyItems(rules, s), rules, track)
    {
      InColors(rules, s.tracks, track);
    }
    forall m | m in s.markers && Renamed(rules, s.markers, m)
      ensures NameChosen(SurveyItems(rules, s), rules, s.markers, m)
    {
      InRenames(rules, s.markers, s.markers, m);
    }
    forall m | m in s.markers && Duplicate(s.markers, m)
      ensures DeletionChosen(SurveyItems(rules, s), s.markers, m)
    {
      InDeletes(s.markers, s.markers, m);
    }
  }

  /** The markers that are no duplicates, under their new names, enumerated anew. */
  ghost function Tidied(newName: string -> string, all: seq<Marker>, markers: seq<Marker>): seq<Marker> {
    if markers == [] then []
    else
      var before, m := Tidied(newName, all, markers[..|markers| - 1]), markers[|markers| - 1];
      if Duplicate(all, m) then before else before + [m.(name := newName(m.name), index := |before|)]
  }

  lemma {:induction false} AllIsTidied(rules: Rules, s: State, i: nat)
    requires i <= |s.markers|
    ensures Chosen(SurveyItems(rules, s), rules, s.markers, s.markers[..i]) == Tidied(rules.newName, s.markers, s.markers[..i])
  {
    if i > 0 {
      AllIsTidied(rules, s, i - 1);
      assert s.markers[..i][..i - 1] == s.markers[..i - 1];
      AllChosen(rules, s);
    }
  }

  /** One round: the survey's whole plan applied to the state it was made from. Exactly the duplicates go,
      and every other marker gets its tidy name. */
  lemma Round(rules: Rules, s: State, changeCount: int)
    requires ValidState(s)
    ensures After(SurveyItems(rules, s), s, changeCount).markers == Tidied(rules.newName, s.markers, s.markers)
    ensures forall i :: 0 <= i < |s.tracks| ==>
              After(SurveyItems(rules, s), s, changeCount).tracks[i] == s.tracks[i].(color := RoleColor(rules, s.tracks[i]))
  {
    AllChosen(rules, s);
    SelectedRound(rules, s, SurveyItems(rules, s), changeCount);
    AllIsTidied(rules, s, |s.markers|);
    assert s.markers[..|s.markers|] == s.markers;
  }
}
