/** A survey's plan run on a later state than the one it was made from: which positions and names its
    deletions keep (internal/reaper/tidy_applier.lua:484-503). */
module TidyLater {
  import opened TidyPlans
  import opened TidyMarkers
  import opened TidySurvey
  import opened TidyApply

  ghost predicate StaysAt(items: seq<PlanItem>, markers: seq<Marker>, x: Marker, position: real) {
    x in markers && PointAt(x, position) && !Gone(items, markers, x)
  }

  ghost predicate PositionKept(items: seq<PlanItem>, markers: seq<Marker>, position: real) {
    exists x :: StaysAt(items, markers, x, position)
  }

  ghost predicate NameKept(items: seq<PlanItem>, markers: seq<Marker>, position: real, name: string) {
    exists x :: StaysAt(items, markers, x, position) && x.name == name
  }

  /** The deletions take no name from a position. */
  ghost predicate KeepsNames(items: seq<PlanItem>, markers: seq<Marker>) {
    forall m :: m in markers && !m.isRegion && m.name != "" ==> NameKept(items, markers, m.position, m.name)
  }

  /** The item deletes m beside the survivor x. */
  ghost predicate DeletesBeside(items: seq<PlanItem>, markers: seq<Marker>, item: PlanItem, m: Marker, x: Marker) {
    item in items && DeletesMarker(item, markers, m) && x in markers && StillSurvives(item, m, x)
  }

  /** The marker has a name, and is deleted in favour of one whose name was cleared meanwhile. */
  ghost predicate GoesForCleared(items: seq<PlanItem>, markers: seq<Marker>, m: Marker) {
    m.name != "" && exists item, x :: DeletesBeside(items, markers, item, m, x) && x.name == ""
  }

  /** A marker that a survey's item names as survivor is deleted by none of them, on any state. */
  lemma SurvivorNeverGoes(rules: Rules, s: State, items: seq<PlanItem>, markers: seq<Marker>, item: PlanItem, m: Marker,
                          x: Marker)
    requires ValidState(s) && IsSelection(items, rules, s) && DeletesBeside(items, markers, item, m, x)
    ensures !Gone(items, markers, x)
  {
    var gone := DeleteOrigin(rules, s, item);
    var survivor :| SurvivesFor(s.markers, gone, survivor) && survivor.id == SurvivorId(s.markers, gone);
    SurvivorStays(s.markers, gone, survivor);
    if Gone(items, markers, x) {
      var other :| other in items && DeletesMarker(other, markers, x);
      var o := DeleteOrigin(rules, s, other);
      DuplicatesArePoints(s.markers, o);
      SameId(s.markers, o, survivor);
      assert false;
    }
  }

  lemma BesideWhom(items: seq<PlanItem>, markers: seq<Marker>, m: Marker) returns (item: PlanItem, x: Marker)
    requires Gone(items, markers, m)
    ensures DeletesBeside(items, markers, item, m, x)
  {
    item :| item in items && DeletesMarker(item, markers, m);
    x :| x in markers && StillSurvives(item, m, x);
  }

  /** On any later state every marked position keeps a marker. */
  lemma LaterPositions(rules: Rules, s: State, items: seq<PlanItem>, markers: seq<Marker>, m: Marker)
    requires ValidState(s) && IsSelection(items, rules, s) && m in markers && !m.isRegion
    ensures PositionKept(items, markers, m.position)
  {
    if Gone(items, markers, m) {
      var item, x := BesideWhom(items, markers, m);
      SurvivorNeverGoes(rules, s, items, markers, item, m, x);
      assert StaysAt(items, markers, x, m.position);
    } else {
      assert StaysAt(items, markers, m, m.position);
    }
  }

  lemma NameOfGone(rules: Rules, s: State, items: seq<PlanItem>, markers: seq<Marker>, m: Marker)
    requires ValidState(s) && IsSelection(items, rules, s) && m in markers && !m.isRegion && m.name != ""
    requires GoesForCleared(items, markers, m) ==> NameKept(items, markers, m.position, m.name)
    ensures NameKept(items, markers, m.position, m.name)
  {
    if Gone(items, markers, m) {
      var item, x := BesideWhom(items, markers, m);
      SurvivorNeverGoes(rules, s, items, markers, item, m, x);
      assert StaysAt(items, markers, x, m.position);
    } else {
      assert StaysAt(items, markers, m, m.position);
    }
  }

  /** On any later state the deletions keep every name at its position if and only if each name whose survivor
      was cleared is held there by another marker that stays. */
  lemma LaterNames(rules: Rules, s: State, items: seq<PlanItem>, markers: seq<Marker>)
    requires ValidState(s) && IsSelection(items, rules, s)
    ensures KeepsNames(items, markers)
            <==> forall m :: m in markers && GoesForCleared(items, markers, m) ==>
                   NameKept(items, markers, m.position, m.name)
  {
    if forall m :: m in markers && GoesForCleared(items, markers, m) ==> NameKept(items, markers, m.position, m.name) {
      forall m | m in markers && !m.isRegion && m.name != "" ensures NameKept(items, markers, m.position, m.name) {
        NameOfGone(rules, s, items, markers, m);
      }
    }
  }

  /** Of two markers with one name at one position the later is to go. When the name of the first is cleared
      before the plan runs, the deletion passes its guard and the position has no name left. */
  lemma ClearedNameIsLost(rules: Rules, s: State, a: Marker, b: Marker, items: seq<PlanItem>, markers: seq<Marker>)
    requires ValidState(s) && s.markers == [a, b] && PointAt(a, b.position) && !b.isRegion
    requires a.name == b.name != "" && a.id < b.id && markers == [a.(name := ""), b]
    requires items == [DeleteItem(b, a.id)]
    ensures IsSelection(items, rules, s) && Gone(items, markers, b) && !NameKept(items, markers, b.position, b.name)
  {
    TwinNames(s.markers, a, b);
    SurvivorOfTwin(s.markers, a, b);
    InDeletes(s.markers, s.markers, b);
    assert StillSurvives(items[0], b, markers[0]) && DeletesMarker(items[0], markers, b);
  }

  lemma SurvivorOfTwin(markers: seq<Marker>, a: Marker, b: Marker)
    requires markers == [a, b] && Distinct(markers) && PointAt(a, b.position) && !b.isRegion && a.id < b.id
    requires Duplicate(markers, b)
    ensures SurvivorId(markers, b) == a.id
  {
    var x :| SurvivesFor(markers, b, x) && x.id == SurvivorId(markers, b);
    SurvivorStays(markers, b, x);
    assert x == a;
  }
}
