/** Plans of several guarded edits as one script and one undo step (internal/reaper/bulk.go). Every
    guard is checked against the tracks as the plan found them; the changes then run unguarded. */
module BulkPlans {
  import opened Text
  import opened TrackScript
  import opened TrackEdits

  predicate ValidPlan(edits: seq<TrackEdit>) {
    edits != [] && forall e :: e in edits ==> Valid(e)
  }

  function Kept(edits: seq<TrackEdit>, moves: bool): seq<TrackEdit> {
    if edits == [] then []
    else if edits[0].kind.Move? == moves then [edits[0]] + Kept(edits[1..], moves)
    else Kept(edits[1..], moves)
  }

  /** Every other kind first, every move last, each group in its given order. */
  function OrderedEdits(edits: seq<TrackEdit>): seq<TrackEdit> {
    Kept(edits, false) + Kept(edits, true)
  }

  method Ordered(edits: seq<TrackEdit>) returns (ordered: seq<TrackEdit>)
    ensures ordered == OrderedEdits(edits)
  {
    ordered := [];
    for i := 0 to |edits|
      invariant ordered == Kept(edits[..i], false)
    {
      KeptSnoc(edits, i, false);
      if !edits[i].kind.Move? {
        ordered := ordered + [edits[i]];
      }
    }
    ghost var first := ordered;
    for i := 0 to |edits|
      invariant ordered == first + Kept(edits[..i], true)
    {
      KeptSnoc(edits, i, true);
      if edits[i].kind.Move? {
        ordered := ordered + [edits[i]];
      }
    }
    assert edits[..|edits|] == edits;
  }

  lemma {:induction false} KeptAppend(a: seq<TrackEdit>, b: seq<TrackEdit>, moves: bool)
    ensures Kept(a + b, moves) == Kept(a, moves) + Kept(b, moves)
  {
    if a == [] {
      assert a + b == b;
    } else {
      KeptAppend(a[1..], b, moves);
      var all := a + b;
      assert all[0] == a[0] && all[1..] == a[1..] + b;
      Regroup([a[0]], Kept(a[1..], moves), Kept(b, moves));
    }
  }

  lemma KeptSnoc(edits: seq<TrackEdit>, i: nat, moves: bool)
    requires i < |edits|
    ensures Kept(edits[..i + 1], moves)
            == Kept(edits[..i], moves) + if edits[i].kind.Move? == moves then [edits[i]] else []
  {
    assert edits[..i + 1] == edits[..i] + [edits[i]];
    KeptAppend(edits[..i], [edits[i]], moves);
  }

  lemma {:induction false} KeptMembers(edits: seq<TrackEdit>, moves: bool)
    ensures forall e :: e in Kept(edits, moves) <==> e in edits && e.kind.Move? == moves
    ensures |Kept(edits, true)| + |Kept(edits, false)| == |edits|
  {
    if edits != [] {
      KeptMembers(edits[1..], moves);
      assert edits == [edits[0]] + edits[1..];
    }
  }

  /** The plan in its order has the same edits, and no edit of another kind behind a move. */
  lemma OrderedShape(edits: seq<TrackEdit>)
    ensures var ordered := OrderedEdits(edits);
            && |ordered| == |edits|
            && (forall e :: e in ordered <==> e in edits)
            && forall i, j :: 0 <= i < j < |ordered| && ordered[i].kind.Move? ==> ordered[j].kind.Move?
  {
    KeptMembers(edits, true);
    KeptMembers(edits, false);
    var first, last := Kept(edits, false), Kept(edits, true);
    forall i | 0 <= i < |first| ensures !first[i].kind.Move? {
      assert first[i] in first;
    }
    forall i | 0 <= i < |last| ensures last[i].kind.Move? {
      assert last[i] in last;
    }
  }

  /** Increasing positions. */
  ghost predicate Ascending(at: seq<nat>) {
    forall k, l :: 0 <= k < l < |at| ==> at[k] < at[l]
  }

  /** The edits at these positions, in the order of the plan. */
  ghost predicate Picked(edits: seq<TrackEdit>, at: seq<nat>, picked: seq<TrackEdit>) {
    && |at| == |picked| && Ascending(at)
    && forall k :: 0 <= k < |at| ==> at[k] < |edits| && picked[k] == edits[at[k]]
  }

  lemma {:induction false} KeptFrom(edits: seq<TrackEdit>, i: nat, moves: bool) returns (at: seq<nat>)
    requires i <= |edits|
    ensures Picked(edits, at, Kept(edits[i..], moves))
    ensures forall p: nat :: p in at <==> i <= p < |edits| && edits[p].kind.Move? == moves
    decreases |edits| - i
  {
    if i == |edits| {
      at := [];
    } else {
      at := KeptFrom(edits, i + 1, moves);
      assert edits[i..][1..] == edits[i + 1..];
      if edits[i].kind.Move? == moves {
        assert forall k :: 0 <= k < |at| ==> at[k] in at;
        at := [i] + at;
      }
    }
  }

  lemma {:induction false} KeptTogether(edits: seq<TrackEdit>)
    ensures multiset(Kept(edits, false)) + multiset(Kept(edits, true)) == multiset(edits)
  {
    if edits != [] {
      KeptTogether(edits[1..]);
      assert edits == [edits[0]] + edits[1..];
    }
  }

  /** The plan in its order has every edit as often as it was given: first those that are no moves, at increasing
      positions of the given plan, then the moves, at increasing positions too. */
  lemma OrderKeepsGroups(edits: seq<TrackEdit>) returns (others: seq<nat>, moves: seq<nat>)
    ensures multiset(OrderedEdits(edits)) == multiset(edits) && |others| + |moves| == |OrderedEdits(edits)|
    ensures Picked(edits, others, OrderedEdits(edits)[..|others|])
    ensures Picked(edits, moves, OrderedEdits(edits)[|others|..])
    ensures forall p: nat :: p in others <==> p < |edits| && !edits[p].kind.Move?
    ensures forall p: nat :: p in moves <==> p < |edits| && edits[p].kind.Move?
  {
    assert edits[0..] == edits;
    others := KeptFrom(edits, 0, false);
    moves := KeptFrom(edits, 0, true);
    KeptTogether(edits);
    assert OrderedEdits(edits)[..|others|] == Kept(edits, false) && OrderedEdits(edits)[|others|..] == Kept(edits, true);
  }

  /* ---- The generated script ---- */

  function Check(e: TrackEdit): Command {
    CheckGuard(e.index - 1, e.expectedName, e.index, e.kind.Move?)
  }

  function Checks(ordered: seq<TrackEdit>): seq<Command> {
    if ordered == [] then [] else [Check(ordered[0])] + Checks(ordered[1..])
  }

  function Applies(ordered: seq<TrackEdit>): seq<Command> {
    if ordered == [] then []
    else [ApplyAt(ordered[0].index - 1, ApplyLua(ordered[0]))] + Applies(ordered[1..])
  }

  function PlanScript(ordered: seq<TrackEdit>): seq<Command> {
    Checks(ordered) + ([Verdict, BeginUndo] + (Applies(ordered) + [EndUndo, WriteCount(|ordered|)]))
  }

  method PlanLua(edits: seq<TrackEdit>, receiptPath: string) returns (script: Option<seq<Command>>)
    ensures script == if ValidPlan(edits) && ValidReceiptPath(receiptPath)
                      then Some(PlanScript(OrderedEdits(edits))) else None
  {
    if !ValidPlan(edits) || !ValidReceiptPath(receiptPath) {
      return None;
    }
    var ordered := Ordered(edits);
    var commands: seq<Command> := [];
    for i := 0 to |ordered|
      invariant commands == Checks(ordered[..i])
    {
      ScriptSnoc(ordered, i);
      commands := commands + [Check(ordered[i])];
    }
    assert ordered[..|ordered|] == ordered;
    var applies: seq<Command> := [];
    for i := 0 to |ordered|
      invariant applies == Applies(ordered[..i])
    {
      ScriptSnoc(ordered, i);
      applies := applies + [ApplyAt(ordered[i].index - 1, ApplyLua(ordered[i]))];
    }
    return Some(commands + ([Verdict, BeginUndo] + (applies + [EndUndo, WriteCount(|ordered|)])));
  }

  lemma {:induction false} ChecksAppend(a: seq<TrackEdit>, b: seq<TrackEdit>)
    ensures Checks(a + b) == Checks(a) + Checks(b)
  {
    if a == [] {
      assert a + b == b;
    } else {
      ChecksAppend(a[1..], b);
      var all := a + b;
      assert all[0] == a[0] && all[1..] == a[1..] + b;
      Regroup([Check(a[0])], Checks(a[1..]), Checks(b));
    }
  }

  lemma {:induction false} AppliesAppend(a: seq<TrackEdit>, b: seq<TrackEdit>)
    ensures Applies(a + b) == Applies(a) + Applies(b)
  {
    if a == [] {
      assert a + b == b;
    } else {
      AppliesAppend(a[1..], b);
      var all := a + b;
      assert all[0] == a[0] && all[1..] == a[1..] + b;
      Regroup([ApplyAt(a[0].index - 1, ApplyLua(a[0]))], Applies(a[1..]), Applies(b));
    }
  }

  lemma ScriptSnoc(ordered: seq<TrackEdit>, i: nat)
    requires i < |ordered|
    ensures Checks(ordered[..i + 1]) == Checks(ordered[..i]) + [Check(ordered[i])]
    ensures Applies(ordered[..i + 1])
            == Applies(ordered[..i]) + [ApplyAt(ordered[i].index - 1, ApplyLua(ordered[i]))]
  {
    assert ordered[..i + 1] == ordered[..i] + [ordered[i]];
    ChecksAppend(ordered[..i], [ordered[i]]);
    AppliesAppend(ordered[..i], [ordered[i]]);
  }

  /* ---- The receipt ---- */

  datatype BulkReceipt =
    | BulkApplied(count: int)
    | BulkRefused(refusal: string, indices: seq<int>)
    | InvalidBulkReceipt

  function Atoi(s: string): Option<int> {
    match ParseInt(s)
    case None => None
    case Some(n) => if -MAX_INT64 - 1 <= n <= MAX_INT64 then Some(n) else None
  }

  function ParseFields(fields: seq<string>): Option<seq<int>> {
    if fields == [] then Some([])
    else
      var n := Atoi(TrimSpace(fields[0]));
      if n.None? then None else FieldsFrom([n.value], ParseFields(fields[1..]))
  }

  function FieldsFrom(indices: seq<int>, rest: Option<seq<int>>): Option<seq<int>> {
    if rest.None? then None else Some(indices + rest.value)
  }

  lemma FieldsStep(indices: seq<int>, n: int, rest: Option<seq<int>>)
    ensures FieldsFrom(indices, FieldsFrom([n], rest)) == FieldsFrom(indices + [n], rest)
  {
    if rest.Some? {
      assert indices + ([n] + rest.value) == indices + [n] + rest.value;
    }
  }

  lemma FieldsNone(indices: seq<int>, rest: Option<seq<int>>)
    requires indices == []
    ensures FieldsFrom(indices, rest) == rest
  {
    if rest.Some? {
      assert indices + rest.value == rest.value;
    }
  }

  function BulkReceiptOf(data: string): BulkReceipt {
    var (line, after) := CutLine(data);
    var outcome, rest := TrimSpace(line), TrimSpace(after);
    if outcome == "applied" then
      match Atoi(rest)
      case Some(count) => if count < 1 then InvalidBulkReceipt else BulkApplied(count)
      case None => InvalidBulkReceipt
    else if outcome == "guard_failed" || outcome == "folder_parent" then
      if rest == "" then BulkRefused(outcome, [])
      else
        match ParseFields(Split(rest, ','))
        case Some(indices) => BulkRefused(outcome, indices)
        case None => InvalidBulkReceipt
    else InvalidBulkReceipt
  }

  method ParseBulkReceipt(data: string) returns (receipt: BulkReceipt)
    ensures receipt == BulkReceiptOf(data)
  {
    var (line, after) := CutLine(data);
    var outcome, rest := TrimSpace(line), TrimSpace(after);
    if outcome == "applied" {
      var count := Atoi(rest);
      if count.None? || count.value < 1 {
        return InvalidBulkReceipt;
      }
      return BulkApplied(count.value);
    } else if outcome == "guard_failed" || outcome == "folder_parent" {
      var indices: seq<int> := [];
      if rest != "" {
        var fields := Split(rest, ',');
        FieldsNone(indices, ParseFields(fields));
        assert fields[0..] == fields;
        for i := 0 to |fields|
          invariant FieldsFrom(indices, ParseFields(fields[i..])) == ParseFields(fields)
        {
          var n := Atoi(TrimSpace(fields[i]));
          assert fields[i..][1..] == fields[i + 1..];
          if n.None? {
            return InvalidBulkReceipt;
          }
          FieldsStep(indices, n.value, ParseFields(fields[i + 1..]));
          indices := indices + [n.value];
        }
        assert indices + [] == indices;
      }
      return BulkRefused(outcome, indices);
    }
    return InvalidBulkReceipt;
  }

  predicate GoInts(indices: seq<int>) {
    forall i :: 0 <= i < |indices| ==> -MAX_INT64 - 1 <= indices[i] <= MAX_INT64
  }

  lemma {:induction false} FieldsRoundTrip(indices: seq<int>)
    requires GoInts(indices)
    ensures ParseFields(Texts(indices)) == Some(indices)
  {
    if indices != [] {
      ItoaRoundTrip(indices[0]);
      FieldsRoundTrip(indices[1..]);
      assert Texts(indices)[1..] == Texts(indices[1..]);
      assert [indices[0]] + indices[1..] == indices;
    }
  }

  lemma {:induction false} ConcatTrimmed(indices: seq<int>)
    requires indices != []
    ensures var s := Concat(indices); s != "" && !IsSpace(s[0]) && !IsSpace(s[|s| - 1])
  {
    var texts := Texts(indices);
    if |indices| > 1 {
      ConcatTrimmed(indices[1..]);
      assert texts[1..] == Texts(indices[1..]);
    }
  }

  /** A refusal receipt reads back as exactly the indices that were written. */
  lemma RefusalReadsBack(outcome: string, indices: seq<int>)
    requires outcome == "guard_failed" || outcome == "folder_parent"
    requires indices != [] && GoInts(indices)
    ensures BulkReceiptOf(Receipt(outcome, Concat(indices))) == BulkRefused(outcome, indices)
  {
    CutLineAt(outcome, Concat(indices));
    TrimTrimmed(outcome);
    FieldsBack(indices);
  }

  lemma FieldsBack(indices: seq<int>)
    requires indices != [] && GoInts(indices)
    ensures var rest := TrimSpace(Concat(indices));
            rest != "" && ParseFields(Split(rest, ',')) == Some(indices)
  {
    ConcatTrimmed(indices);
    TrimTrimmed(Concat(indices));
    SplitJoin(Texts(indices), ',');
    FieldsRoundTrip(indices);
  }

  lemma AppliedReadsBack(count: int)
    requires 1 <= count <= MAX_INT64
    ensures BulkReceiptOf(Receipt("applied", Itoa(count))) == BulkApplied(count)
  {
    var outcome: string := "applied";
    CutLineAt(outcome, Itoa(count));
    TrimTrimmed(outcome);
    ItoaRoundTrip(count);
  }

  /* ---- One run of a plan ---- */

  datatype PlanOutcome = PlanOutcome(tracks: seq<Track>, receipt: BulkReceipt, undoSteps: nat)

  function RunPlan(edits: seq<TrackEdit>, tracks: seq<Track>): Option<PlanOutcome> {
    if !ValidPlan(edits) then None
    else
      var m := Execute(Boot(tracks), PlanScript(OrderedEdits(edits)));
      Some(PlanOutcome(m.tracks, if m.receipt.None? then InvalidBulkReceipt else BulkReceiptOf(m.receipt.value), m.blocks))
  }

  /** The positions, in plan order, of the edits whose guard does not hold. */
  function Failed(ordered: seq<TrackEdit>, tracks: seq<Track>): seq<int> {
    if ordered == [] then []
    else (if GuardHolds(ordered[0], tracks) then [] else [ordered[0].index]) + Failed(ordered[1..], tracks)
  }

  /** The positions, in plan order, of the moves whose guard holds on a folder parent. */
  function Parents(ordered: seq<TrackEdit>, tracks: seq<Track>): seq<int> {
    if ordered == [] then []
    else
      (if GuardHolds(ordered[0], tracks) && Refused(ordered[0], tracks) then [ordered[0].index] else [])
      + Parents(ordered[1..], tracks)
  }

  /** The indices that the edits at these positions name. */
  ghost predicate NamesAt(ordered: seq<TrackEdit>, at: seq<nat>, indices: seq<int>) {
    && |at| == |indices| && Ascending(at)
    && forall k :: 0 <= k < |at| ==> at[k] < |ordered| && indices[k] == ordered[at[k]].index
  }

  lemma {:induction false} FailedFrom(ordered: seq<TrackEdit>, i: nat, tracks: seq<Track>) returns (at: seq<nat>)
    requires i <= |ordered|
    ensures NamesAt(ordered, at, Failed(ordered[i..], tracks))
    ensures forall p: nat :: p in at <==> i <= p < |ordered| && !GuardHolds(ordered[p], tracks)
    decreases |ordered| - i
  {
    if i == |ordered| {
      at := [];
    } else {
      at := FailedFrom(ordered, i + 1, tracks);
      assert ordered[i..][1..] == ordered[i + 1..];
      if !GuardHolds(ordered[i], tracks) {
        assert forall k :: 0 <= k < |at| ==> at[k] in at;
        at := [i] + at;
      }
    }
  }

  lemma {:induction false} ParentsFrom(ordered: seq<TrackEdit>, i: nat, tracks: seq<Track>) returns (at: seq<nat>)
    requires i <= |ordered|
    ensures NamesAt(ordered, at, Parents(ordered[i..], tracks))
    ensures forall p: nat :: p in at <==> i <= p < |ordered| && OnParent(ordered[p], tracks)
    decreases |ordered| - i
  {
    if i == |ordered| {
      at := [];
    } else {
      at := ParentsFrom(ordered, i + 1, tracks);
      assert ordered[i..][1..] == ordered[i + 1..];
      if OnParent(ordered[i], tracks) {
        assert forall k :: 0 <= k < |at| ==> at[k] in at;
        at := [i] + at;
      }
    }
  }

  /** A move of a track that is there under its name and holds a folder. */
  predicate OnParent(e: TrackEdit, tracks: seq<Track>) {
    e.kind.Move? && GuardHolds(e, tracks) && tracks[e.index - 1].depth > 0
  }

  /** A receipt of failed guards names, in plan order, exactly the edits whose track is not there under its name; one of
      folder parents names exactly the moves of such tracks. */
  lemma WhatIsRefused(ordered: seq<TrackEdit>, tracks: seq<Track>) returns (failed: seq<nat>, parents: seq<nat>)
    ensures NamesAt(ordered, failed, Failed(ordered, tracks)) && NamesAt(ordered, parents, Parents(ordered, tracks))
    ensures forall p: nat :: p in failed <==>
              p < |ordered|
              && !(1 <= ordered[p].index <= |tracks| && tracks[ordered[p].index - 1].name == ordered[p].expectedName)
    ensures forall p: nat :: p in parents <==> p < |ordered| && OnParent(ordered[p], tracks)
  {
    assert ordered[0..] == ordered;
    failed := FailedFrom(ordered, 0, tracks);
    parents := ParentsFrom(ordered, 0, tracks);
  }

  function ApplyAll(ordered: seq<TrackEdit>, tracks: seq<Track>): (r: seq<Track>)
    ensures |r| == |tracks|
    decreases |ordered|
  {
    if ordered == [] then tracks
    else if 1 <= ordered[0].index <= |tracks| then
      ApplyAll(ordered[1..], Perform(tracks, ordered[0].index - 1, ApplyLua(ordered[0])))
    else ApplyAll(ordered[1..], tracks)
  }

  lemma {:induction false} ChecksRun(m: Machine, ordered: seq<TrackEdit>)
    requires !m.halted
    ensures Execute(m, Checks(ordered))
            == m.(failed := m.failed + Failed(ordered, m.tracks), parents := m.parents + Parents(ordered, m.tracks))
    decreases |ordered|
  {
    if ordered == [] {
      assert m.failed + [] == m.failed && m.parents + [] == m.parents;
    } else {
      var e, rest := ordered[0], ordered[1..];
      CheckRuns(m, e);
      var next := Exec(m, Check(e));
      ChecksRun(next, rest);
      Regroup(m.failed, if GuardHolds(e, m.tracks) then [] else [e.index], Failed(rest, m.tracks));
      Regroup(m.parents, if GuardHolds(e, m.tracks) && Refused(e, m.tracks) then [e.index] else [], Parents(rest, m.tracks));
    }
  }

  lemma CheckRuns(m: Machine, e: TrackEdit)
    requires !m.halted
    ensures Exec(m, Check(e))
            == m.(failed := m.failed + if GuardHolds(e, m.tracks) then [] else [e.index],
                  parents := m.parents + if GuardHolds(e, m.tracks) && Refused(e, m.tracks) then [e.index] else [])
  {
    assert m.failed + [] == m.failed && m.parents + [] == m.parents;
  }

  lemma {:induction false} AppliesRun(m: Machine, ordered: seq<TrackEdit>)
    requires !m.halted
    ensures Execute(m, Applies(ordered)) == m.(tracks := ApplyAll(ordered, m.tracks))
    decreases |ordered|
  {
    if ordered != [] {
      var e, rest := ordered[0], ordered[1..];
      AppliesRun(Exec(m, ApplyAt(e.index - 1, ApplyLua(e))), rest);
    }
  }

  lemma {:induction false} PlanRuns(ordered: seq<TrackEdit>, tracks: seq<Track>)
    ensures var failed, parents := Failed(ordered, tracks), Parents(ordered, tracks);
            var checked := Boot(tracks).(failed := failed, parents := parents);
            Execute(Boot(tracks), PlanScript(ordered)) ==
              if failed != [] then Refuse(checked, "guard_failed", Concat(failed))
              else if parents != [] then Refuse(checked, "folder_parent", Concat(parents))
              else Finished(checked, ApplyAll(ordered, tracks), |ordered|)
  {
    var applies := Applies(ordered) + [EndUndo, WriteCount(|ordered|)];
    var m := Boot(tracks);
    ExecuteAppend(m, Checks(ordered), [Verdict, BeginUndo] + applies);
    ChecksRun(m, ordered);
    var failed, parents := Failed(ordered, tracks), Parents(ordered, tracks);
    assert m.failed + failed == failed && m.parents + parents == parents;
    var checked := m.(failed := failed, parents := parents);
    VerdictRuns(checked, applies);
    BlockRuns(checked.(undoOpen := true), ordered, [EndUndo, WriteCount(|ordered|)]);
  }

  function Finished(m: Machine, tracks: seq<Track>, count: nat): Machine {
    m.(tracks := tracks, undoOpen := false, blocks := m.blocks + 1, receipt := Some(Receipt("applied", Itoa(count))))
  }

  lemma EndRuns(m: Machine, count: nat)
    requires !m.halted
    ensures Execute(m, [EndUndo, WriteCount(count)]) == Finished(m, m.tracks, count)
  {
    ExecuteTwo(m, EndUndo, WriteCount(count));
  }

  lemma {:induction false} BlockRuns(m: Machine, ordered: seq<TrackEdit>, end: seq<Command>)
    requires !m.halted && end == [EndUndo, WriteCount(|ordered|)]
    ensures Execute(m, Applies(ordered) + end) == Finished(m, ApplyAll(ordered, m.tracks), |ordered|)
  {
    ExecuteAppend(m, Applies(ordered), end);
    AppliesRun(m, ordered);
    EndRuns(m.(tracks := ApplyAll(ordered, m.tracks)), |ordered|);
  }

  lemma VerdictRuns(m: Machine, block: seq<Command>)
    requires !m.halted
    ensures Execute(m, [Verdict, BeginUndo] + block) ==
              if m.failed != [] then Refuse(m, "guard_failed", Concat(m.failed))
              else if m.parents != [] then Refuse(m, "folder_parent", Concat(m.parents))
              else Execute(m.(undoOpen := true), block)
  {
    ExecuteAppend(m, [Verdict, BeginUndo], block);
    ExecuteTwo(m, Verdict, BeginUndo);
    if m.failed != [] || m.parents != [] {
      HaltedStays(Exec(m, Verdict), block);
    }
  }

  lemma {:induction false} RefusedAreGoInts(ordered: seq<TrackEdit>, tracks: seq<Track>)
    requires forall e :: e in ordered ==> Valid(e) && InRange(e)
    ensures GoInts(Failed(ordered, tracks)) && GoInts(Parents(ordered, tracks))
  {
    if ordered != [] {
      assert ordered[0] in ordered;
      RefusedAreGoInts(ordered[1..], tracks);
    }
  }

  /** All or nothing: a valid plan applies every edit as one undo step, or changes nothing; and its
      receipt reads back as exactly the positions whose guard failed, else the folder parents, else
      the number of edits. */
  lemma PlanIsAllOrNothing(edits: seq<TrackEdit>, tracks: seq<Track>)
    requires ValidPlan(edits) && |edits| <= MAX_INT64 && forall e :: e in edits ==> InRange(e)
    ensures var ordered := OrderedEdits(edits);
            var failed, parents := Failed(ordered, tracks), Parents(ordered, tracks);
            RunPlan(edits, tracks) == Some(
              if failed != [] then PlanOutcome(tracks, BulkRefused("guard_failed", failed), 0)
              else if parents != [] then PlanOutcome(tracks, BulkRefused("folder_parent", parents), 0)
              else PlanOutcome(ApplyAll(ordered, tracks), BulkApplied(|edits|), 1))
  {
    var ordered := OrderedEdits(edits);
    OrderedShape(edits);
    RefusedAreGoInts(ordered, tracks);
    PlanRuns(ordered, tracks);
    if Failed(ordered, tracks) != [] {
      RefusalReadsBack("guard_failed", Failed(ordered, tracks));
    } else if Parents(ordered, tracks) != [] {
      RefusalReadsBack("folder_parent", Parents(ordered, tracks));
    } else {
      AppliedReadsBack(|edits|);
    }
  }
}
