/** The survey of a project against its conventions (internal/reaper/tidy_survey.go:284-367). The display
    text of a line is a parameter: for one inspected state it depends on the plan item only. */
module TidySurvey {
  import opened Text
  import opened TidyPlans
  import opened TidyNames
  import opened TidyRoles
  import opened TidyMarkers

  const MAX_TRACKS := 2048
  const MAX_MARKERS := 4096
  const MAX_FOLDER_DEPTH := 128
  const MAX_OBJECT_COUNT := 1000000

  datatype Track = Track(guid: string, index: int, name: string, color: Option<Rgb>, folderDepth: int, itemCount: int,
                         fxCount: int)

  datatype State = State(schemaVersion: int, project: ProjectSnapshot, tracks: seq<Track>, markers: seq<Marker>)

  datatype Conventions = Conventions(roles: seq<Role>, naming: Naming)

  datatype Line = Line(itemId: string, text: string, reason: string)

  datatype Proposal = Proposal(proposalId: string, plan: Option<Plan>, lines: seq<Line>, alreadyTidy: bool, note: string)

  /* ---- Valid inspected states ---- */

  predicate ValidColor(color: Option<Rgb>) {
    color.None? || ValidRgb(color.value)
  }

  predicate ValidTrack(track: Track, position: int) {
    && track.index == position && ValidGuid(track.guid) && OptionalText(track.name, MAX_NAME_BYTES)
    && -MAX_FOLDER_DEPTH <= track.folderDepth <= MAX_FOLDER_DEPTH
    && 0 <= track.itemCount <= MAX_OBJECT_COUNT && 0 <= track.fxCount <= MAX_OBJECT_COUNT
    && ValidColor(track.color)
  }

  predicate ValidMarker(marker: Marker, position: int) {
    && marker.index == position && ValidMarkerId(marker.id) && OptionalText(marker.name, MAX_NAME_BYTES)
    && ValidPosition(marker.position) && ValidColor(marker.color)
    && if marker.isRegion then
         marker.end.Some? && ValidPosition(marker.end.value) && marker.position < marker.end.value
       else marker.end.None?
  }

  predicate ValidHead(s: State) {
    && s.schemaVersion == SCHEMA_VERSION && RequiredText(s.project.name, MAX_NAME_BYTES)
    && OptionalText(s.project.path, MAX_PATH_BYTES) && 0 <= s.project.changeCount <= MAX_CHANGE_COUNT
    && |s.tracks| <= MAX_TRACKS && |s.markers| <= MAX_MARKERS
  }

  ghost predicate ValidTracks(tracks: seq<Track>) {
    && (forall i :: 0 <= i < |tracks| ==> ValidTrack(tracks[i], i))
    && forall i, j :: 0 <= i < j < |tracks| ==> tracks[i].guid != tracks[j].guid
  }

  ghost predicate ValidMarkers(markers: seq<Marker>) {
    && (forall i :: 0 <= i < |markers| ==> ValidMarker(markers[i], i))
    && forall i, j :: 0 <= i < j < |markers| && markers[i].isRegion == markers[j].isRegion ==> markers[i].id != markers[j].id
  }

  ghost predicate ValidState(s: State) {
    ValidHead(s) && ValidTracks(s.tracks) && ValidMarkers(s.markers)
  }

  method ValidateTracks(tracks: seq<Track>) returns (ok: bool)
    ensures ok <==> ValidTracks(tracks)
  {
    var guids: set<string> := {};
    for i := 0 to |tracks|
      invariant ValidTracks(tracks[..i]) && guids == set k | 0 <= k < i :: tracks[k].guid
    {
      var track := tracks[i];
      if !ValidTrack(track, i) || track.guid in guids {
        return false;
      }
      guids := guids + {track.guid};
    }
    assert tracks[..|tracks|] == tracks;
    return true;
  }

  method ValidateMarkers(markers: seq<Marker>) returns (ok: bool)
    ensures ok <==> ValidMarkers(markers)
  {
    var identities: set<(bool, int)> := {};
    for i := 0 to |markers|
      invariant ValidMarkers(markers[..i]) && identities == set k | 0 <= k < i :: (markers[k].isRegion, markers[k].id)
    {
      var marker := markers[i];
      if !ValidMarker(marker, i) {
        return false;
      }
      if (marker.isRegion, marker.id) in identities {
        return false;
      }
      identities := identities + {(marker.isRegion, marker.id)};
    }
    assert markers[..|markers|] == markers;
    return true;
  }

  method ValidateState(s: State) returns (ok: bool)
    ensures ok <==> ValidState(s)
  {
    if !ValidHead(s) {
      return false;
    }
    var tracksOk := ValidateTracks(s.tracks);
    var markersOk := ValidateMarkers(s.markers);
    return tracksOk && markersOk;
  }

  /* ---- Plan items ---- */

  predicate IsBrace(c: char) {
    c == '{' || c == '}'
  }

  predicate NotHyphen(c: char) {
    c != '-'
  }

  function ColorId(guid: string): string {
    "color-track-" + Map(Filter(DropEnd(DropStart(guid, IsBrace), IsBrace), NotHyphen), AsciiLower)
  }

  function RgbText(c: Rgb): string {
    "rgb(" + Itoa(c.red) + ", " + Itoa(c.green) + ", " + Itoa(c.blue) + ")"
  }

  function CaseText(markerCase: MarkerCase): string {
    match markerCase
    case TitleCase => "Title Case"
    case SentenceCase => "Sentence case"
    case UpperCase => "UPPER CASE"
    case LowerCase => "lower case"
  }

  function NumberingText(naming: Naming): string {
    if naming.spaceBeforeNumber then "Space Before Number" else "No Space Before Number"
  }

  function ColorItem(track: Track, role: Role): PlanItem {
    PlanItem(ColorId(track.guid), SetTrackColor, Target(track.guid, None, None, None),
             Payload(Some(role.color), None, None), "conventions: " + role.name + " = " + RgbText(role.color))
  }

  function RenameItem(marker: Marker, newName: string, naming: Naming): PlanItem {
    PlanItem((if marker.isRegion then "rename-region-" else "rename-marker-") + Itoa(marker.id),
             if marker.isRegion then RenameRegion else RenameMarker,
             Target("", Some(marker.id), Some(marker.name), None), Payload(None, Some(newName), None),
             "conventions: " + CaseText(naming.markerCase) + " and " + NumberingText(naming))
  }

  function DeleteItem(marker: Marker, survivorId: int): PlanItem {
    PlanItem("delete-marker-" + Itoa(marker.id), DeleteMarker,
             Target("", Some(marker.id), Some(marker.name), Some(marker.position)), Payload(None, None, Some(survivorId)),
             "duplicate: exact position and same/empty name; keep marker " + Itoa(survivorId))
  }

  /** What the conventions make of a name: the role of a track and the tidy name of a marker. */
  datatype Rules = Rules(role: string -> Option<Role>, newName: string -> string, naming: Naming)

  ghost function RulesOf(t: CharTable, c: Conventions): Rules {
    Rules(name => RoleOf(t, name, c.roles), name => TidyName(t, name, c.naming), c.naming)
  }

  /** The track has not the color of its role. */
  ghost predicate Recolored(rules: Rules, track: Track) {
    rules.role(track.name).Some? && track.color != Some(rules.role(track.name).value.color)
  }

  ghost predicate Renamed(rules: Rules, markers: seq<Marker>, m: Marker) {
    !Duplicate(markers, m) && rules.newName(m.name) != m.name
  }

  ghost function SurvivorId(markers: seq<Marker>, m: Marker): int
    requires Duplicate(markers, m)
  {
    var s :| SurvivesFor(markers, m, s);
    s.id
  }

  ghost function ColorItems(rules: Rules, tracks: seq<Track>): seq<PlanItem> {
    if tracks == [] then []
    else
      var shorter, track := ColorItems(rules, tracks[..|tracks| - 1]), tracks[|tracks| - 1];
      if Recolored(rules, track) then shorter + [ColorItem(track, rules.role(track.name).value)] else shorter
  }

  ghost function RenameItems(rules: Rules, all: seq<Marker>, markers: seq<Marker>): seq<PlanItem> {
    if markers == [] then []
    else
      var shorter, m := RenameItems(rules, all, markers[..|markers| - 1]), markers[|markers| - 1];
      if Renamed(rules, all, m) then shorter + [RenameItem(m, rules.newName(m.name), rules.naming)] else shorter
  }

  ghost function DeleteItems(all: seq<Marker>, markers: seq<Marker>): seq<PlanItem> {
    if markers == [] then []
    else
      var shorter, m := DeleteItems(all, markers[..|markers| - 1]), markers[|markers| - 1];
      if Duplicate(all, m) then shorter + [DeleteItem(m, SurvivorId(all, m))] else shorter
  }

  /** Everything the survey proposes: colors, then names, then deletions. */
  ghost function SurveyItems(rules: Rules, s: State): seq<PlanItem> {
    ColorItems(rules, s.tracks) + RenameItems(rules, s.markers, s.markers) + DeleteItems(s.markers, s.markers)
  }

  function LineOf(item: PlanItem, wording: PlanItem -> string): Line {
    Line(item.id, wording(item), item.reason)
  }

  function Lines(items: seq<PlanItem>, wording: PlanItem -> string): (lines: seq<Line>)
    ensures |lines| == |items| && forall i :: 0 <= i < |items| ==> lines[i] == LineOf(items[i], wording)
  {
    if items == [] then [] else Lines(items[..|items| - 1], wording) + [LineOf(items[|items| - 1], wording)]
  }

  lemma RenameItemsStep(rules: Rules, markers: seq<Marker>, i: nat)
    requires i < |markers|
    ensures RenameItems(rules, markers, markers[..i + 1])
            == RenameItems(rules, markers, markers[..i])
               + if Renamed(rules, markers, markers[i]) then
                   [RenameItem(markers[i], rules.newName(markers[i].name), rules.naming)]
                 else []
  {
    assert markers[..i + 1][..i] == markers[..i];
  }

  function PlanOf(s: State, planId: string, items: seq<PlanItem>): Plan {
    Plan(SCHEMA_VERSION, planId, s.project, items)
  }

  /** The original stops with a runtime error where a survey aborts. */
  datatype SurveyResult = Surveyed(proposal: Proposal) | Refused | Aborted

  /** The names whose case cannot be applied. */
  ghost function Aborting(t: CharTable, c: Conventions): string -> bool {
    name => NameAborts(t, name, c.naming)
  }

  /** Some marker that stays has such a name. */
  ghost predicate NamesAbort(aborts: string -> bool, all: seq<Marker>, markers: seq<Marker>) {
    exists m :: m in markers && !Duplicate(all, m) && aborts(m.name)
  }

  ghost function Survey(t: CharTable, c: Conventions, s: State, planId: string, note: string, wording: PlanItem -> string)
    : SurveyResult
  {
    var items := SurveyItems(RulesOf(t, c), s);
    if !ValidState(s) || !ValidId(planId) || c.roles == [] then Refused
    else if NamesAbort(Aborting(t, c), s.markers, s.markers) then Aborted
    else if items == [] then Surveyed(Proposal(planId, None, [], true, note))
    else if ValidPlan(PlanOf(s, planId, items)) then
      Surveyed(Proposal(planId, Some(PlanOf(s, planId, items)), Lines(items, wording), false, note))
    else Refused
  }

  /** A proposal with a plan has one line for each of its items, in order: its id, its wording and its reason. */
  lemma LinesTell(t: CharTable, c: Conventions, s: State, planId: string, note: string, wording: PlanItem -> string, i: nat)
    requires Survey(t, c, s, planId, note, wording).Surveyed? && !Survey(t, c, s, planId, note, wording).proposal.alreadyTidy
    requires i < |SurveyItems(RulesOf(t, c), s)|
    ensures var p, item := Survey(t, c, s, planId, note, wording).proposal, SurveyItems(RulesOf(t, c), s)[i];
            && p.proposalId == planId && p.note == note && p.plan.Some? && |p.lines| == |p.plan.value.items|
            && i < |p.lines| && p.plan.value.items[i] == item
            && p.lines[i].itemId == item.id && p.lines[i].text == wording(item) && p.lines[i].reason == item.reason
  {
  }

  /** No survey aborts when every section holds a letter or a digit. */
  lemma SurveyNeverAborts(t: CharTable, c: Conventions, s: State, planId: string, note: string, wording: PlanItem -> string)
    requires Lawful(t) && forall section :: section in c.naming.sections ==> Letters(t, section) != ""
    ensures Survey(t, c, s, planId, note, wording) != Aborted
  {
    forall m | m in s.markers ensures !NameAborts(t, m.name, c.naming) {
      GoodNamesNeverAbort(t, m.name, c.naming);
    }
  }

  method SurveyTracks(t: CharTable, c: Conventions, tracks: seq<Track>, wording: PlanItem -> string)
    returns (items: seq<PlanItem>, lines: seq<Line>)
    requires Lawful(t)
    ensures items == ColorItems(RulesOf(t, c), tracks) && lines == Lines(items, wording)
  {
    items, lines := [], [];
    for i := 0 to |tracks|
      invariant items == ColorItems(RulesOf(t, c), tracks[..i]) && lines == Lines(items, wording)
    {
      var track := tracks[i];
      assert tracks[..i + 1][..i] == tracks[..i];
      var role := InferTidyTrackRole(t, track.name, c.roles);
      if role.Some? && track.color != Some(role.value.color) {
        var item := ColorItem(track, role.value);
        items, lines := items + [item], lines + [LineOf(item, wording)];
      }
    }
    assert tracks[..|tracks|] == tracks;
  }

  lemma MarkedDuplicate(markers: seq<Marker>, survivors: map<int, int>, m: Marker)
    requires Distinct(markers) && Marked(markers, survivors, Everything()) && m in markers
    ensures m.index in survivors <==> Duplicate(markers, m)
    ensures m.index in survivors ==> survivors[m.index] == SurvivorId(markers, m)
  {
    assert Everything()(m);
    if m.index in survivors {
      assert MarkedBy(markers, survivors, Everything(), m.index);
      MarkedMeans(markers, survivors, m);
    }
    if Duplicate(markers, m) {
      var s :| SurvivesFor(markers, m, s) && s.id == SurvivorId(markers, m);
    }
  }

  lemma MarkedMeans(markers: seq<Marker>, survivors: map<int, int>, m: Marker)
    requires Distinct(markers) && m in markers && m.index in survivors
    requires MarkedBy(markers, survivors, Everything(), m.index)
    ensures Duplicate(markers, m)
  {
    var o, s :| o in markers && Everything()(o) && o.index == m.index && SurvivesFor(markers, o, s) && survivors[m.index] == s.id;
    SameIndex(markers, o, m);
  }

  lemma SameIndex(markers: seq<Marker>, a: Marker, b: Marker)
    requires Distinct(markers) && a in markers && b in markers && a.index == b.index
    ensures a == b
  {
  }

  /** What the marker at `i` adds: nothing, an abort or a rename. */
  lemma NamesStep(rules: Rules, aborts: string -> bool, markers: seq<Marker>, survivors: map<int, int>, i: nat)
    requires Distinct(markers) && Marked(markers, survivors, Everything())
    requires i < |markers| && !NamesAbort(aborts, markers, markers[..i])
    ensures var m, before := markers[i], RenameItems(rules, markers, markers[..i]);
            if m.index in survivors then
              && !NamesAbort(aborts, markers, markers[..i + 1])
              && RenameItems(rules, markers, markers[..i + 1]) == before
            else if aborts(m.name) then NamesAbort(aborts, markers, markers)
            else
              && !NamesAbort(aborts, markers, markers[..i + 1])
              && RenameItems(rules, markers, markers[..i + 1])
                 == if rules.newName(m.name) == m.name then before
                    else before + [RenameItem(m, rules.newName(m.name), rules.naming)]
  {
    assert markers[..i + 1] == markers[..i] + [markers[i]];
    assert markers[i] in markers;
    RenameItemsStep(rules, markers, i);
    MarkedDuplicate(markers, survivors, markers[i]);
  }

  /** The name check in terms of the conventions' rules. */
  method CheckName(t: CharTable, c: Conventions, name: string) returns (check: NameCheck)
    requires Lawful(t)
    ensures check.NameAborted? <==> Aborting(t, c)(name)
    ensures check.Named? ==> (check.changed <==> RulesOf(t, c).newName(name) != name)
    ensures check.Named? && check.changed ==> check.newName == RulesOf(t, c).newName(name)
  {
    check := CanonicalTidySectionName(t, name, c.naming);
  }

  method SurveyNames(t: CharTable, c: Conventions, markers: seq<Marker>, deleted: set<int>, ghost survivors: map<int, int>,
                     wording: PlanItem -> string) returns (aborted: bool, items: seq<PlanItem>, lines: seq<Line>)
    requires Lawful(t)
    requires Distinct(markers) && Marked(markers, survivors, Everything()) && deleted == survivors.Keys
    ensures aborted <==> NamesAbort(Aborting(t, c), markers, markers)
    ensures !aborted ==> items == RenameItems(RulesOf(t, c), markers, markers) && lines == Lines(items, wording)
  {
    items, lines := [], [];
    for i := 0 to |markers|
      invariant !NamesAbort(Aborting(t, c), markers, markers[..i])
      invariant items == RenameItems(RulesOf(t, c), markers, markers[..i]) && lines == Lines(items, wording)
    {
      var marker := markers[i];
      NamesStep(RulesOf(t, c), Aborting(t, c), markers, survivors, i);
      if marker.index in deleted {
        continue;
      }
      var check := CheckName(t, c, marker.name);
      if check.NameAborted? {
        return true, [], [];
      }
      if !check.changed {
        continue;
      }
      var item := RenameItem(marker, check.newName, c.naming);
      items, lines := items + [item], lines + [LineOf(item, wording)];
    }
    assert markers[..|markers|] == markers;
    aborted := false;
  }

  method SurveyDuplicates(markers: seq<Marker>, deleted: set<int>, survivors: map<int, int>,
                          wording: PlanItem -> string) returns (items: seq<PlanItem>, lines: seq<Line>)
    requires Distinct(markers) && Marked(markers, survivors, Everything()) && deleted == survivors.Keys
    ensures items == DeleteItems(markers, markers) && lines == Lines(items, wording)
  {
    items, lines := [], [];
    for i := 0 to |markers|
      invariant items == DeleteItems(markers, markers[..i]) && lines == Lines(items, wording)
    {
      var marker := markers[i];
      assert markers[..i + 1][..i] == markers[..i];
      MarkedDuplicate(markers, survivors, marker);
      if marker.index !in deleted {
        continue;
      }
      var item := DeleteItem(marker, survivors[marker.index]);
      items, lines := items + [item], lines + [LineOf(item, wording)];
    }
    assert markers[..|markers|] == markers;
  }

  lemma LinesAppend(a: seq<PlanItem>, b: seq<PlanItem>, wording: PlanItem -> string)
    ensures Lines(a + b, wording) == Lines(a, wording) + Lines(b, wording)
  {
  }

  method GenerateTidySurvey(t: CharTable, c: Conventions, s: State, planId: string, note: string, wording: PlanItem -> string)
    returns (result: SurveyResult)
    requires Lawful(t)
    ensures result == Survey(t, c, s, planId, note, wording)
  {
    var stateOk := ValidateState(s);
    if !stateOk || !ValidId(planId) || c.roles == [] {
      return Refused;
    }
    var items, lines := SurveyTracks(t, c, s.tracks, wording);
    var deleted, survivors := FindExactDuplicateMarkers(s.markers);
    var aborted, renames, renameLines := SurveyNames(t, c, s.markers, deleted, survivors, wording);
    if aborted {
      return Aborted;
    }
    LinesAppend(items, renames, wording);
    items, lines := items + renames, lines + renameLines;
    var deletions, deletionLines := SurveyDuplicates(s.markers, deleted, survivors, wording);
    LinesAppend(items, deletions, wording);
    items, lines := items + deletions, lines + deletionLines;
    if |items| == 0 {
      return Surveyed(Proposal(planId, None, [], true, note));
    }
    var plan := PlanOf(s, planId, items);
    var planOk := ValidatePlan(plan);
    if !planOk {
      return Refused;
    }
    return Surveyed(Proposal(planId, Some(plan), lines, false, note));
  }
}
