/** Results of applying an edit plan, the two ways a result is bound to a plan, and the selection of
    some items of a plan (internal/reaper/tidy.go:306-382, internal/reaper/tidy_operations.go:173-192). */
module TidySelection {
  import opened Text
  import opened TidyPlans

  datatype Status = Applied | Skipped | Failed | OtherStatus

  datatype ResultItem = ResultItem(id: string, verb: Verb, status: Status, reason: string, error: string)

  datatype ApplyResult = ApplyResult(schemaVersion: int, planId: string, before: int, after: int,
                                     items: seq<ResultItem>)

  /* ---- Valid results ---- */

  predicate ValidResultItem(item: ResultItem) {
    && ValidId(item.id) && !item.verb.OtherVerb?
    && OptionalText(item.reason, MAX_RESULT_TEXT_BYTES) && OptionalText(item.error, MAX_RESULT_TEXT_BYTES)
    && match item.status
       case Applied => item.reason == "" && item.error == ""
       case Skipped => RequiredText(item.reason, MAX_RESULT_TEXT_BYTES) && item.error == ""
       case Failed => item.reason == "" && RequiredText(item.error, MAX_RESULT_TEXT_BYTES)
       case OtherStatus => false
  }

  /** What the texts of a valid row say for its status. */
  lemma RowTexts(item: ResultItem)
    requires ValidResultItem(item)
    ensures item.status == Applied ==> item.reason == "" && item.error == ""
    ensures item.status == Skipped ==> item.reason != "" && item.error == ""
    ensures item.status == Failed ==> item.reason == "" && item.error != ""
    ensures item.status == Applied || item.status == Skipped || item.status == Failed
  {
  }

  ghost predicate DistinctRows(rows: seq<ResultItem>) {
    forall i, j :: 0 <= i < j < |rows| ==> rows[i].id != rows[j].id
  }

  predicate ValidResultHeader(result: ApplyResult) {
    && result.schemaVersion == SCHEMA_VERSION && ValidId(result.planId)
    && 0 <= result.before <= MAX_CHANGE_COUNT && result.before <= result.after <= MAX_CHANGE_COUNT
    && 1 <= |result.items| <= MAX_PLAN_ITEMS
  }

  ghost predicate ValidRows(rows: seq<ResultItem>) {
    (forall i :: 0 <= i < |rows| ==> ValidResultItem(rows[i])) && DistinctRows(rows)
  }

  ghost predicate ValidResult(result: ApplyResult) {
    ValidResultHeader(result) && ValidRows(result.items)
  }

  function RowIds(rows: seq<ResultItem>): set<string> {
    set i | 0 <= i < |rows| :: rows[i].id
  }

  lemma ValidRowsStep(rows: seq<ResultItem>, row: ResultItem)
    requires ValidRows(rows)
    ensures ValidRows(rows + [row]) <==> ValidResultItem(row) && row.id !in RowIds(rows)
    ensures RowIds(rows + [row]) == RowIds(rows) + {row.id}
  {
    var longer, n := rows + [row], |rows|;
    assert longer[n] == row && forall k :: 0 <= k < n ==> longer[k] == rows[k];
  }

  lemma ValidRowsPrefix(rows: seq<ResultItem>, i: nat)
    requires ValidRows(rows) && i <= |rows|
    ensures ValidRows(rows[..i])
  {
  }

  method ValidateResult(result: ApplyResult) returns (ok: bool)
    ensures ok <==> ValidResult(result)
  {
    if !ValidResultHeader(result) {
      return false;
    }
    var ids: set<string> := {};
    for i := 0 to |result.items|
      invariant ValidRows(result.items[..i]) && ids == RowIds(result.items[..i])
    {
      var item := result.items[i];
      assert result.items[..i + 1] == result.items[..i] + [item];
      ValidRowsStep(result.items[..i], item);
      if ValidRows(result.items) {
        ValidRowsPrefix(result.items, i + 1);
      }
      if !ValidResultItem(item) || item.id in ids {
        return false;
      }
      ids := ids + {item.id};
    }
    assert result.items[..|result.items|] == result.items;
    return true;
  }

  /* ---- Results bound to plans ---- */

  /** What a row and an item are compared by. */
  function RowKey(row: ResultItem): (string, Verb) {
    (row.id, row.verb)
  }

  function ItemKey(item: PlanItem): (string, Verb) {
    (item.id, item.verb)
  }

  predicate Answers(row: ResultItem, item: PlanItem) {
    row.id == item.id && row.verb == item.verb
  }

  /** One row for every item, in order. */
  predicate AnswersAll(rows: seq<ResultItem>, items: seq<PlanItem>) {
    |rows| == |items| && forall i :: 0 <= i < |rows| ==> Answers(rows[i], items[i])
  }

  ghost predicate Increasing(at: seq<nat>) {
    forall i, j :: 0 <= i < j < |at| ==> at[i] < at[j]
  }

  /** Row k answers the item at position at[k]. */
  ghost predicate Placed(at: seq<nat>, rows: seq<ResultItem>, items: seq<PlanItem>) {
    && |at| == |rows| && Increasing(at)
    && forall k :: 0 <= k < |rows| ==> at[k] < |items| && Answers(rows[k], items[at[k]])
  }

  /** The rows answer some of the items, in the order of the items. */
  ghost predicate AnswersSome(rows: seq<ResultItem>, items: seq<PlanItem>) {
    exists at :: Placed(at, rows, items)
  }

  ghost predicate BoundToPlan(result: ApplyResult, plan: Plan) {
    ValidResult(result) && ValidPlan(plan) && result.planId == plan.planId && AnswersAll(result.items, plan.items)
  }

  ghost predicate BoundToSelection(result: ApplyResult, plan: Plan) {
    ValidResult(result) && ValidPlan(plan) && result.planId == plan.planId && AnswersSome(result.items, plan.items)
  }

  /** The (id, verb) pairs of a bound result are those of the plan, in order; of a selection's, a subsequence of them. */
  lemma BoundByKeys(result: ApplyResult, plan: Plan)
    ensures BoundToPlan(result, plan) ==>
              |result.items| == |plan.items|
              && forall k :: 0 <= k < |plan.items| ==> RowKey(result.items[k]) == ItemKey(plan.items[k])
    ensures BoundToSelection(result, plan) ==>
              exists at: seq<nat> ::
                && |at| == |result.items| && (forall k, l :: 0 <= k < l < |at| ==> at[k] < at[l])
                && forall k :: 0 <= k < |at| ==> at[k] < |plan.items| && RowKey(result.items[k]) == ItemKey(plan.items[at[k]])
  {
    if BoundToSelection(result, plan) {
      var at :| Placed(at, result.items, plan.items);
      assert |at| == |result.items| && forall k, l :: 0 <= k < l < |at| ==> at[k] < at[l];
    }
  }

  method ValidateAgainstPlan(result: ApplyResult, plan: Plan) returns (ok: bool)
    ensures ok <==> BoundToPlan(result, plan)
  {
    var resultOk := ValidateResult(result);
    var planOk := ValidatePlan(plan);
    if !resultOk || !planOk || result.planId != plan.planId || |result.items| != |plan.items| {
      return false;
    }
    for index := 0 to |plan.items|
      invariant forall i :: 0 <= i < index ==> Answers(result.items[i], plan.items[i])
    {
      if result.items[index].id != plan.items[index].id || result.items[index].verb != plan.items[index].verb {
        return false;
      }
    }
    return true;
  }

  /** An increasing list of positions below n has at most n elements from its k-th on. */
  lemma {:induction false} RoomFor(at: seq<nat>, n: nat, k: nat)
    requires Increasing(at) && k < |at|
    requires forall i :: 0 <= i < |at| ==> at[i] < n
    ensures at[k] + (|at| - k) <= n
    decreases |at| - k
  {
    if k + 1 < |at| {
      RoomFor(at, n, k + 1);
    }
  }

  lemma FewerRows(rows: seq<ResultItem>, items: seq<PlanItem>)
    requires AnswersSome(rows, items)
    ensures |rows| <= |items|
  {
    var at :| Placed(at, rows, items);
    if rows != [] {
      RoomFor(at, |items|, 0);
    }
  }

  /** The greedy scan accepts exactly the rows that answer some of the items in order. */
  method ScanRows(rows: seq<ResultItem>, items: seq<PlanItem>) returns (ok: bool)
    ensures ok <==> AnswersSome(rows, items)
  {
    var nextPlanIndex := 0;
    ghost var at: seq<nat> := [];
    for i := 0 to |rows|
      invariant 0 <= nextPlanIndex <= |items|
      invariant Placed(at, rows[..i], items)
      invariant nextPlanIndex == if i == 0 then 0 else at[i - 1] + 1
      invariant forall other :: Placed(other, rows, items) ==> i == 0 || at[i - 1] <= other[i - 1]
    {
      var matched := false;
      ghost var start := nextPlanIndex;
      while nextPlanIndex < |items| && !matched
        invariant start <= nextPlanIndex <= |items|
        invariant matched ==> start < nextPlanIndex && Answers(rows[i], items[nextPlanIndex - 1])
        invariant forall k :: start <= k < nextPlanIndex - (if matched then 1 else 0) ==> !Answers(rows[i], items[k])
        decreases |items| - nextPlanIndex
      {
        var planItem := items[nextPlanIndex];
        nextPlanIndex := nextPlanIndex + 1;
        if rows[i].id == planItem.id && rows[i].verb == planItem.verb {
          matched := true;
        }
      }
      forall other | Placed(other, rows, items)
        ensures matched && nextPlanIndex - 1 <= other[i]
      {
        assert i > 0 ==> other[i - 1] < other[i];
        assert Answers(rows[i], items[other[i]]);
      }
      if !matched {
        return false;
      }
      assert rows[..i + 1] == rows[..i] + [rows[i]];
      at := at + [nextPlanIndex - 1];
    }
    assert rows[..|rows|] == rows;
    return true;
  }

  method ValidateAgainstPlanSubset(result: ApplyResult, plan: Plan) returns (ok: bool)
    ensures ok <==> BoundToSelection(result, plan)
  {
    var resultOk := ValidateResult(result);
    var planOk := ValidatePlan(plan);
    if !resultOk || !planOk || result.planId != plan.planId {
      return false;
    }
    if |result.items| > |plan.items| {
      if AnswersSome(result.items, plan.items) {
        FewerRows(result.items, plan.items);
      }
      return false;
    }
    ok := ScanRows(result.items, plan.items);
  }

  /* ---- Selections ---- */

  /** The items with a chosen id, in their order. */
  function Kept(items: seq<PlanItem>, chosen: set<string>): seq<PlanItem> {
    if items == [] then []
    else
      var shorter := Kept(items[..|items| - 1], chosen);
      if items[|items| - 1].id in chosen then shorter + [items[|items| - 1]] else shorter
  }

  /** Where the kept items were. */
  ghost function KeptAt(items: seq<PlanItem>, chosen: set<string>): seq<nat> {
    if items == [] then []
    else
      var shorter := KeptAt(items[..|items| - 1], chosen);
      if items[|items| - 1].id in chosen then shorter + [|items| - 1] else shorter
  }

  lemma {:induction false} KeptInOrder(items: seq<PlanItem>, chosen: set<string>)
    ensures var at, kept := KeptAt(items, chosen), Kept(items, chosen);
            |at| == |kept| && Increasing(at)
            && (forall k :: 0 <= k < |at| ==> at[k] < |items| && kept[k] == items[at[k]] && kept[k].id in chosen)
    ensures forall i :: 0 <= i < |items| && items[i].id in chosen ==> items[i] in Kept(items, chosen)
  {
    if items != [] {
      var n := |items| - 1;
      var shorter := items[..n];
      KeptInOrder(shorter, chosen);
      forall i | 0 <= i < |items| && items[i].id in chosen
        ensures items[i] in Kept(items, chosen)
      {
        if i < n {
          assert shorter[i] == items[i];
        }
      }
    }
  }

  ghost predicate AllDistinct(ids: seq<string>) {
    forall i, j :: 0 <= i < j < |ids| ==> ids[i] != ids[j]
  }

  function ChosenSet(ids: seq<string>): set<string> {
    set id | id in ids
  }

  ghost predicate Selects(plan: Plan, ids: seq<string>) {
    && AllDistinct(ids) && (forall id :: id in ids ==> ValidId(id))
    && |Kept(plan.items, ChosenSet(ids))| == |ChosenSet(ids)|
    && ValidPlan(Selected(plan, ids))
  }

  function Selected(plan: Plan, ids: seq<string>): Plan {
    plan.(items := Kept(plan.items, ChosenSet(ids)))
  }

  method SelectedTidyPlan(plan: Plan, selectedIds: seq<string>) returns (result: Option<Plan>)
    ensures result == if Selects(plan, selectedIds) then Some(Selected(plan, selectedIds)) else None
  {
    var selected: set<string> := {};
    for i := 0 to |selectedIds|
      invariant AllDistinct(selectedIds[..i])
      invariant forall k :: 0 <= k < i ==> ValidId(selectedIds[k])
      invariant selected == ChosenSet(selectedIds[..i])
    {
      var id := selectedIds[i];
      if !ValidId(id) || id in selected {
        return None;
      }
      assert selectedIds[..i + 1] == selectedIds[..i] + [id];
      selected := selected + {id};
    }
    assert selectedIds[..|selectedIds|] == selectedIds;
    var items: seq<PlanItem> := [];
    for i := 0 to |plan.items|
      invariant items == Kept(plan.items[..i], selected)
    {
      assert plan.items[..i + 1][..i] == plan.items[..i];
      if plan.items[i].id in selected {
        items := items + [plan.items[i]];
      }
    }
    assert plan.items[..|plan.items|] == plan.items;
    var chosen := plan.(items := items);
    var ok := ValidatePlan(chosen);
    if |items| != |selected| || !ok {
      return None;
    }
    return Some(chosen);
  }

  lemma {:induction false} DistinctCount(items: seq<PlanItem>)
    requires DistinctIds(items)
    ensures |IdSet(items)| == |items|
  {
    if items != [] {
      var n := |items| - 1;
      DistinctCount(items[..n]);
      assert items == items[..n] + [items[n]];
      IdsSnoc(items[..n], items[n]);
    }
  }

  /** The kept items of a valid list are valid, and their ids are the chosen ids that occur in it. */
  lemma KeptIsValid(items: seq<PlanItem>, chosen: set<string>)
    requires ValidItems(items)
    ensures ValidItems(Kept(items, chosen))
    ensures IdSet(Kept(items, chosen)) == IdSet(items) * chosen
  {
    var at, kept := KeptAt(items, chosen), Kept(items, chosen);
    KeptInOrder(items, chosen);
    forall id | id in IdSet(items) * chosen
      ensures id in IdSet(kept)
    {
      var i :| 0 <= i < |items| && items[i].id == id;
      var k :| 0 <= k < |kept| && kept[k] == items[i];
    }
    forall i, j | 0 <= i < j < |kept|
      ensures kept[i].id != kept[j].id && ObjectOf(kept[i]) != ObjectOf(kept[j])
    {
      assert at[i] < at[j];
    }
  }

  lemma SameSize<T>(a: set<T>, b: set<T>)
    ensures |a * b| == |b| <==> b <= a
    ensures b <= a <==> a * b == b
  {
    assert |b - a| == |b| - |a * b| by {
      assert b == a * b + (b - a);
    }
    forall x | x in b && b - a == {} ensures x in a {
      assert x !in b - a;
    }
  }

  lemma {:induction false} KeptCount(items: seq<PlanItem>, chosen: set<string>)
    requires ValidItems(items)
    ensures |Kept(items, chosen)| == |chosen| <==> chosen <= IdSet(items)
    ensures chosen <= IdSet(items) ==> IdSet(Kept(items, chosen)) == chosen
  {
    KeptIsValid(items, chosen);
    DistinctCount(Kept(items, chosen));
    SameSize(IdSet(items), chosen);
  }

  lemma IdsAreValid(items: seq<PlanItem>, ids: seq<string>)
    requires ValidItems(items) && forall id :: id in ids ==> id in IdSet(items)
    ensures forall id :: id in ids ==> ValidId(id)
  {
    forall id | id in ids ensures ValidId(id) {
      assert id in IdSet(items);
      var i :| 0 <= i < |items| && items[i].id == id;
      assert ValidItem(items[i]);
    }
  }

  lemma KeptPlanIsValid(plan: Plan, chosen: set<string>)
    requires ValidPlan(plan)
    ensures ValidPlan(plan.(items := Kept(plan.items, chosen))) <==> |Kept(plan.items, chosen)| >= 1
  {
    KeptIsValid(plan.items, chosen);
    RoomForKept(plan.items, chosen);
  }

  /** From a valid plan, the accepted selections are the nonempty lists of distinct ids that all occur in
      the plan. What is selected is a valid plan with exactly those ids. */
  lemma SelectionOfValidPlan(plan: Plan, ids: seq<string>)
    requires ValidPlan(plan)
    ensures Selects(plan, ids) <==> ids != [] && AllDistinct(ids) && forall id :: id in ids ==> id in IdSet(plan.items)
    ensures Selects(plan, ids) ==> ValidPlan(Selected(plan, ids)) && IdSet(Selected(plan, ids).items) == ChosenSet(ids)
  {
    var chosen := ChosenSet(ids);
    KeptCount(plan.items, chosen);
    KeptPlanIsValid(plan, chosen);
    assert chosen == {} <==> ids == [] by {
      assert ids != [] ==> ids[0] in chosen;
    }
    assert chosen <= IdSet(plan.items) <==> forall id :: id in ids ==> id in IdSet(plan.items);
    if chosen <= IdSet(plan.items) {
      IdsAreValid(plan.items, ids);
    }
  }

  lemma RoomForKept(items: seq<PlanItem>, chosen: set<string>)
    ensures |Kept(items, chosen)| <= |items|
  {
    KeptInOrder(items, chosen);
    var at := KeptAt(items, chosen);
    if at != [] {
      RoomFor(at, |items|, 0);
    }
  }

  /** A selection keeps the order of the plan. */
  lemma SelectionKeepsOrder(plan: Plan, ids: seq<string>)
    ensures exists at: seq<nat> {:trigger Increasing(at)} :: Increasing(at) && |at| == |Selected(plan, ids).items|
              && forall k :: 0 <= k < |at| ==> at[k] < |plan.items| && Selected(plan, ids).items[k] == plan.items[at[k]]
  {
    KeptInOrder(plan.items, ChosenSet(ids));
    assert Increasing(KeptAt(plan.items, ChosenSet(ids)));
  }

  /** A result accepted for the selection is accepted for the plan it was selected from. */
  lemma SelectionBindsThrough(result: ApplyResult, plan: Plan, ids: seq<string>)
    requires ValidPlan(plan) && Selects(plan, ids)
    requires BoundToPlan(result, Selected(plan, ids))
    ensures BoundToSelection(result, plan)
  {
    KeptInOrder(plan.items, ChosenSet(ids));
    assert Placed(KeptAt(plan.items, ChosenSet(ids)), result.items, plan.items);
  }

  lemma {:induction false} EveryPlaceIsKept(at: seq<nat>, items: seq<PlanItem>, ids: seq<string>, i: nat)
    requires DistinctIds(items) && |at| == |ids| && i < |at|
    requires at[i] < |items| && items[at[i]].id == ids[i]
    ensures at[i] in KeptAt(items, ChosenSet(ids))
  {
    KeptInOrder(items, ChosenSet(ids));
    var kept, keptAt := Kept(items, ChosenSet(ids)), KeptAt(items, ChosenSet(ids));
    assert ids[i] in ids;
    var k :| 0 <= k < |kept| && kept[k] == items[at[i]];
  }

  lemma EveryKeptIsAPlace(at: seq<nat>, items: seq<PlanItem>, ids: seq<string>, k: nat)
    requires DistinctIds(items) && |at| == |ids|
    requires forall i :: 0 <= i < |at| ==> at[i] < |items| && items[at[i]].id == ids[i]
    requires k < |KeptAt(items, ChosenSet(ids))|
    ensures KeptAt(items, ChosenSet(ids))[k] in at
  {
    KeptInOrder(items, ChosenSet(ids));
    var kept, keptAt := Kept(items, ChosenSet(ids)), KeptAt(items, ChosenSet(ids));
    var i :| 0 <= i < |ids| && ids[i] == kept[k].id;
  }

  lemma SamePlaces(at: seq<nat>, rows: seq<ResultItem>, items: seq<PlanItem>, ids: seq<string>)
    requires DistinctIds(items) && Placed(at, rows, items)
    requires |ids| == |rows| && forall i :: 0 <= i < |ids| ==> ids[i] == rows[i].id
    ensures at == KeptAt(items, ChosenSet(ids))
  {
    KeptInOrder(items, ChosenSet(ids));
    var keptAt := KeptAt(items, ChosenSet(ids));
    forall x | x in at ensures x in keptAt {
      var i :| 0 <= i < |at| && at[i] == x;
      EveryPlaceIsKept(at, items, ids, i);
    }
    forall x | x in keptAt ensures x in at {
      var k :| 0 <= k < |keptAt| && keptAt[k] == x;
      EveryKeptIsAPlace(at, items, ids, k);
    }
    SameIncreasing(at, keptAt);
  }

  /** Rows accepted for a valid plan name a selection of it, and are accepted for that selection. */
  lemma AcceptedRowsAreASelection(result: ApplyResult, plan: Plan, ids: seq<string>)
    requires BoundToSelection(result, plan)
    requires |ids| == |result.items| && forall i :: 0 <= i < |ids| ==> ids[i] == result.items[i].id
    ensures Selects(plan, ids) && BoundToPlan(result, Selected(plan, ids))
  {
    var at :| Placed(at, result.items, plan.items);
    SamePlaces(at, result.items, plan.items, ids);
    SelectionOfValidPlan(plan, ids);
    KeptInOrder(plan.items, ChosenSet(ids));
  }

  lemma {:induction false} SameIncreasing(a: seq<nat>, b: seq<nat>)
    requires Increasing(a) && Increasing(b)
    requires (forall x :: x in a ==> x in b) && forall x :: x in b ==> x in a
    ensures a == b
  {
    assert a != [] ==> a[0] in b;
    assert b != [] ==> b[0] in a;
    if a != [] {
      assert a[0] == b[0] by {
        var i :| 0 <= i < |b| && b[i] == a[0];
        var j :| 0 <= j < |a| && a[j] == b[0];
      }
      forall x | x in a[1..] ensures x in b[1..] {
        assert x in b;
      }
      forall x | x in b[1..] ensures x in a[1..] {
        assert x in a;
      }
      SameIncreasing(a[1..], b[1..]);
      assert a == [a[0]] + a[1..] && b == [b[0]] + b[1..];
    }
  }
}
