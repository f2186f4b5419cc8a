/** Edit plans of Project Tidy, selections from them, and results bound back to them
    (internal/reaper/tidy.go, internal/reaper/tidy_operations.go). Strings are Unicode text. */
module TidyPlans {
  import opened Text

  const SCHEMA_VERSION := 1
  const MAX_PLAN_ITEMS := 64
  const MAX_NAME_BYTES := 512
  const MAX_PATH_BYTES := 4096
  const MAX_REASON_BYTES := 1024
  const MAX_RESULT_TEXT_BYTES := 2048
  const MAX_MARKER_ID: int := 2147483647
  const MAX_CHANGE_COUNT: int := 9007199254740991
  const MAX_POSITION_SECONDS: real := 315576000.0
  const MAX_ID_BYTES := 64

  datatype Rgb = Rgb(red: int, green: int, blue: int)

  datatype Verb = SetTrackColor | RenameMarker | RenameRegion | DeleteMarker | OtherVerb

  datatype Target = Target(trackGuid: string, markerId: Option<int>, snapshotName: Option<string>,
                           snapshotPosition: Option<real>)

  datatype Payload = Payload(color: Option<Rgb>, newName: Option<string>, survivorId: Option<int>)

  datatype PlanItem = PlanItem(id: string, verb: Verb, target: Target, payload: Payload, reason: string)

  datatype ProjectSnapshot = ProjectSnapshot(name: string, path: string, changeCount: int)

  datatype Plan = Plan(schemaVersion: int, planId: string, project: ProjectSnapshot, items: seq<PlanItem>)

  /* ---- Checks on single values ---- */

  function Utf8Length(s: string): nat {
    if s == "" then 0
    else
      (if s[0] as int < 0x80 then 1 else if s[0] as int < 0x800 then 2 else if s[0] as int < 0x10000 then 3 else 4)
      + Utf8Length(s[1..])
  }

  predicate OptionalText(value: string, maxBytes: int) {
    Utf8Length(value) <= maxBytes && '\0' !in value
  }

  predicate RequiredText(value: string, maxBytes: int) {
    !Blank(value) && OptionalText(value, maxBytes)
  }

  predicate LetterOrDigit(c: char) {
    'a' <= c <= 'z' || 'A' <= c <= 'Z' || '0' <= c <= '9'
  }

  predicate ValidId(id: string) {
    && 1 <= |id| <= MAX_ID_BYTES && LetterOrDigit(id[0])
    && forall i :: 1 <= i < |id| ==> LetterOrDigit(id[i]) || id[i] == '-' || id[i] == '_' || id[i] == '.'
  }

  predicate HexDigit(c: char) {
    '0' <= c <= '9' || 'a' <= c <= 'f' || 'A' <= c <= 'F'
  }

  predicate ValidGuid(guid: string) {
    && |guid| == 38 && guid[0] == '{' && guid[37] == '}'
    && forall i :: 1 <= i < 37 ==>
         if i == 9 || i == 14 || i == 19 || i == 24 then guid[i] == '-' else HexDigit(guid[i])
  }

  predicate ValidRgb(c: Rgb) {
    0 <= c.red <= 255 && 0 <= c.green <= 255 && 0 <= c.blue <= 255
  }

  predicate ValidPosition(position: real) {
    0.0 <= position <= MAX_POSITION_SECONDS
  }

  predicate ValidMarkerId(id: int) {
    0 <= id <= MAX_MARKER_ID
  }

  /* ---- Plan items ---- */

  predicate ValidMarkerTarget(target: Target, wantPosition: bool) {
    && target.trackGuid == ""
    && target.markerId.Some? && ValidMarkerId(target.markerId.value)
    && target.snapshotName.Some? && OptionalText(target.snapshotName.value, MAX_NAME_BYTES)
    && if wantPosition then target.snapshotPosition.Some? && ValidPosition(target.snapshotPosition.value)
       else target.snapshotPosition.None?
  }

  predicate ValidShape(item: PlanItem) {
    var target, payload := item.target, item.payload;
    match item.verb
    case SetTrackColor =>
      && ValidGuid(target.trackGuid) && target.markerId.None? && target.snapshotName.None?
      && target.snapshotPosition.None?
      && payload.color.Some? && ValidRgb(payload.color.value)
      && payload.newName.None? && payload.survivorId.None?
    case DeleteMarker =>
      && ValidMarkerTarget(target, true) && payload.color.None? && payload.newName.None?
      && payload.survivorId.Some? && ValidMarkerId(payload.survivorId.value)
      && payload.survivorId.value != target.markerId.value
    case OtherVerb => false
    case _ =>
      && ValidMarkerTarget(target, false) && payload.color.None? && payload.newName.Some?
      && RequiredText(payload.newName.value, MAX_NAME_BYTES)
      && payload.newName.value != target.snapshotName.value && payload.survivorId.None?
  }

  predicate HasTarget(item: PlanItem) {
    item.verb.SetTrackColor? || item.target.markerId.Some?
  }

  function TargetKey(item: PlanItem): string
    requires HasTarget(item)
  {
    if item.verb.SetTrackColor? then "track:" + item.target.trackGuid
    else (if item.verb.RenameRegion? then "region:" else "marker:") + Itoa(item.target.markerId.value)
  }

  /** What an item changes: a track, or a marker or region by its id. */
  datatype Object = TrackObject(guid: string) | MarkerObject(isRegion: bool, id: int)

  function ObjectOf(item: PlanItem): Object
    requires HasTarget(item)
  {
    if item.verb.SetTrackColor? then TrackObject(item.target.trackGuid)
    else MarkerObject(item.verb.RenameRegion?, item.target.markerId.value)
  }

  /** The key text tells changed objects apart. */
  lemma KeysTellObjectsApart(a: PlanItem, b: PlanItem)
    requires HasTarget(a) && HasTarget(b)
    ensures TargetKey(a) == TargetKey(b) <==> ObjectOf(a) == ObjectOf(b)
  {
    if TargetKey(a) == TargetKey(b) {
      assert TargetKey(a)[0] == TargetKey(b)[0];
      if a.verb.SetTrackColor? {
        assert TargetKey(a)[6..] == a.target.trackGuid && TargetKey(b)[6..] == b.target.trackGuid;
      } else {
        assert TargetKey(a)[7..] == Itoa(a.target.markerId.value);
        assert TargetKey(b)[7..] == Itoa(b.target.markerId.value);
        ItoaInjective(a.target.markerId.value, b.target.markerId.value);
      }
    }
  }

  predicate ValidItem(item: PlanItem) {
    ValidId(item.id) && RequiredText(item.reason, MAX_REASON_BYTES) && ValidShape(item)
  }

  ghost predicate DistinctIds(items: seq<PlanItem>) {
    forall i, j :: 0 <= i < j < |items| ==> items[i].id != items[j].id
  }

  ghost predicate DistinctObjects(items: seq<PlanItem>)
    requires forall i :: 0 <= i < |items| ==> HasTarget(items[i])
  {
    forall i, j :: 0 <= i < j < |items| ==> ObjectOf(items[i]) != ObjectOf(items[j])
  }

  /** Every item is well formed, no two share an id, and no two change the same object. */
  ghost predicate ValidItems(items: seq<PlanItem>) {
    && (forall i :: 0 <= i < |items| ==> ValidItem(items[i]))
    && DistinctIds(items) && DistinctObjects(items)
  }

  predicate ValidHeader(plan: Plan) {
    && plan.schemaVersion == SCHEMA_VERSION && ValidId(plan.planId)
    && RequiredText(plan.project.name, MAX_NAME_BYTES) && OptionalText(plan.project.path, MAX_PATH_BYTES)
    && 0 <= plan.project.changeCount <= MAX_CHANGE_COUNT
  }

  /** A plan that may be stored or applied. */
  ghost predicate ValidPlan(plan: Plan) {
    ValidHeader(plan) && 1 <= |plan.items| <= MAX_PLAN_ITEMS && ValidItems(plan.items)
  }

  function IdSet(items: seq<PlanItem>): set<string> {
    set i | 0 <= i < |items| :: items[i].id
  }

  ghost function KeySet(items: seq<PlanItem>): set<string>
    requires forall i :: 0 <= i < |items| ==> HasTarget(items[i])
  {
    set i | 0 <= i < |items| :: TargetKey(items[i])
  }

  ghost predicate NewTo(item: PlanItem, items: seq<PlanItem>) {
    && ValidItem(item)
    && forall k :: 0 <= k < |items| ==> items[k].id != item.id && HasTarget(items[k]) && ObjectOf(items[k]) != ObjectOf(item)
  }

  lemma ValidItemsSnoc(items: seq<PlanItem>, item: PlanItem)
    requires ValidItems(items)
    ensures ValidItems(items + [item]) <==> NewTo(item, items)
  {
    var longer, n := items + [item], |items|;
    assert longer[n] == item && forall k :: 0 <= k < n ==> longer[k] == items[k];
  }

  lemma IdsSnoc(items: seq<PlanItem>, item: PlanItem)
    ensures IdSet(items + [item]) == IdSet(items) + {item.id}
  {
    var longer, n := items + [item], |items|;
    assert longer[n] == item && forall k :: 0 <= k < n ==> longer[k] == items[k];
  }

  lemma KeysSnoc(items: seq<PlanItem>, item: PlanItem)
    requires HasTarget(item) && forall i :: 0 <= i < |items| ==> HasTarget(items[i])
    ensures KeySet(items + [item]) == KeySet(items) + {TargetKey(item)}
  {
    var longer, n := items + [item], |items|;
    assert longer[n] == item && forall k :: 0 <= k < n ==> longer[k] == items[k];
  }

  lemma NewByKeys(items: seq<PlanItem>, item: PlanItem)
    requires ValidItem(item)
    requires forall i :: 0 <= i < |items| ==> HasTarget(items[i])
    ensures NewTo(item, items) <==> item.id !in IdSet(items) && TargetKey(item) !in KeySet(items)
  {
    forall k | 0 <= k < |items|
      ensures TargetKey(items[k]) == TargetKey(item) <==> ObjectOf(items[k]) == ObjectOf(item)
    {
      KeysTellObjectsApart(items[k], item);
    }
  }

  lemma ValidItemsStep(items: seq<PlanItem>, item: PlanItem)
    requires ValidItems(items)
    ensures ValidItems(items + [item])
            <==> ValidItem(item) && item.id !in IdSet(items) && TargetKey(item) !in KeySet(items)
    ensures IdSet(items + [item]) == IdSet(items) + {item.id}
    ensures ValidItem(item) ==> KeySet(items + [item]) == KeySet(items) + {TargetKey(item)}
  {
    ValidItemsSnoc(items, item);
    IdsSnoc(items, item);
    if ValidItem(item) {
      KeysSnoc(items, item);
      NewByKeys(items, item);
    }
  }

  lemma ValidItemsPrefix(items: seq<PlanItem>, i: nat)
    requires ValidItems(items) && i <= |items|
    ensures ValidItems(items[..i])
  {
  }

  method ValidateItems(items: seq<PlanItem>) returns (ok: bool)
    ensures ok <==> ValidItems(items)
  {
    var itemIds: set<string>, targets: set<string> := {}, {};
    for i := 0 to |items|
      invariant ValidItems(items[..i])
      invariant itemIds == IdSet(items[..i]) && targets == KeySet(items[..i])
    {
      var item := items[i];
      assert items[..i + 1] == items[..i] + [item];
      ValidItemsStep(items[..i], item);
      if ValidItems(items) {
        ValidItemsPrefix(items, i + 1);
      }
      if !ValidItem(item) || item.id in itemIds {
        return false;
      }
      itemIds := itemIds + {item.id};
      if TargetKey(item) in targets {
        return false;
      }
      targets := targets + {TargetKey(item)};
    }
    assert items[..|items|] == items;
    return true;
  }

  method ValidatePlan(plan: Plan) returns (ok: bool)
    ensures ok <==> ValidPlan(plan)
  {
    if !ValidHeader(plan) || |plan.items| < 1 || |plan.items| > MAX_PLAN_ITEMS {
      return false;
    }
    ok := ValidateItems(plan.items);
  }
}
