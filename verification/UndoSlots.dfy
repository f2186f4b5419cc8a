/** The undo slot of each workspace (internal/reaper/service.go): an applied edit stores its inverse,
    and an undo takes the stored inverse out before running it. */
module UndoSlots {
  import opened Text
  import opened TrackScript
  import opened TrackEdits

  /** The slots, and the track list of the running REAPER. */
  datatype World = World(undos: map<string, TrackEdit>, tracks: seq<Track>)

  /** What became of the script: it never ran, it ran but the runner reports an error (no receipt in
      time, or one that cannot be read), or its receipt was read. */
  datatype ScriptRun = NeverRan | RanUnread | Answered

  /** What the environment answers during a call: the live state before the edit if it can be read,
      what became of the script, and whether the state can be read afterwards. */
  datatype Answers = Answers(before: Option<Snapshot>, script: ScriptRun, after: bool)

  datatype CallResult = Done(outcome: string, undoAvailable: bool) | CallFailed

  predicate PassesPreflight(e: TrackEdit, state: Option<Snapshot>) {
    e.kind.Move? ==> state.Some? && CheckMove(state.value, e).MoveAccepted?
  }

  /** The script of the edit is run. */
  ghost predicate Reaches(e: TrackEdit, answers: Answers) {
    Valid(e) && PassesPreflight(e, answers.before) && !answers.script.NeverRan?
  }

  /** It is run, and the service learns what it did. */
  ghost predicate Reports(e: TrackEdit, answers: Answers) {
    Reaches(e, answers) && answers.script.Answered?
  }

  /** The world after RunTrackEdit. */
  ghost function AfterEdit(w: World, workspace: string, e: TrackEdit, answers: Answers): World {
    if !Reaches(e, answers) then w
    else
      var run := RunEdit(e, w.tracks).value;
      if answers.script.Answered? && run.receipt.EditApplied? then
        World(w.undos[workspace := Inverse(e, run.receipt.prior)], run.tracks)
      else w.(tracks := run.tracks)
  }

  /** The world after UndoTrackEdit. */
  ghost function AfterUndo(w: World, workspace: string, answers: Answers): World {
    if workspace !in w.undos then w
    else
      var taken := w.(undos := w.undos - {workspace});
      if answers.script.NeverRan? || !Valid(w.undos[workspace]) then taken
      else taken.(tracks := RunEdit(w.undos[workspace], w.tracks).value.tracks)
  }

  class Service {
    var undos: map<string, TrackEdit>
    var tracks: seq<Track>

    ghost function Now(): World
      reads this
    {
      World(undos, tracks)
    }

    constructor (tracks: seq<Track>)
      ensures Now() == World(map[], tracks)
    {
      undos := map[];
      this.tracks := tracks;
    }

    method RunTrackEdit(workspace: string, e: TrackEdit, answers: Answers) returns (result: CallResult)
      modifies this
      ensures Now() == AfterEdit(old(Now()), workspace, e, answers)
      ensures !Reports(e, answers) ==> result.CallFailed?
      ensures Reports(e, answers) && answers.after ==>
                && result.Done?
                && (result.outcome == "applied" <==> !Refused(e, old(tracks)))
                && (result.undoAvailable <==> workspace in undos)
    {
      if !Valid(e) {
        return CallFailed;
      }
      if e.kind.Move? {
        if answers.before.None? {
          return CallFailed;
        }
        var check := ValidateTrackMove(answers.before.value, e);
        if !check.MoveAccepted? {
          return CallFailed;
        }
      }
      if answers.script.NeverRan? {
        return CallFailed;
      }
      EditIsGuarded(e, tracks);
      var run := RunEdit(e, tracks).value;
      tracks := run.tracks;
      if answers.script.RanUnread? {
        return CallFailed;
      }
      if !run.receipt.EditApplied? {
        if !answers.after {
          return CallFailed;
        }
        return Done(run.receipt.refusal, workspace in undos);
      }
      undos := undos[workspace := Inverse(e, run.receipt.prior)];
      if !answers.after {
        return CallFailed;
      }
      return Done("applied", true);
    }

    method UndoTrackEdit(workspace: string, answers: Answers) returns (result: CallResult)
      modifies this
      ensures Now() == AfterUndo(old(Now()), workspace, answers)
      ensures workspace !in undos
      ensures result.Done? ==> workspace in old(undos) && answers.script.Answered? && !result.undoAvailable
    {
      if workspace !in undos {
        return CallFailed;
      }
      var inverse := undos[workspace];
      undos := undos - {workspace};
      if answers.script.NeverRan? || !Valid(inverse) {
        return CallFailed;
      }
      EditIsGuarded(inverse, tracks);
      var run := RunEdit(inverse, tracks).value;
      tracks := run.tracks;
      if answers.script.RanUnread? || !run.receipt.EditApplied? || !answers.after {
        return CallFailed;
      }
      return Done("undone", false);
    }
  }

  /* ---- Runs of calls ---- */

  datatype Call =
    | EditCall(workspace: string, e: TrackEdit, answers: Answers)
    | UndoCall(workspace: string, answers: Answers)
    | Elsewhere(tracks: seq<Track>)  // the user changes the project in REAPER

  ghost function AfterCall(w: World, call: Call): World {
    match call
    case EditCall(workspace, e, answers) => AfterEdit(w, workspace, e, answers)
    case UndoCall(workspace, answers) => AfterUndo(w, workspace, answers)
    case Elsewhere(tracks) => w.(tracks := tracks)
  }

  ghost function AfterCalls(w: World, calls: seq<Call>): World
    decreases |calls|
  {
    if calls == [] then w else AfterCalls(AfterCall(w, calls[0]), calls[1..])
  }

  /** The call stores an inverse for the workspace. */
  ghost predicate Stores(w: World, call: Call, workspace: string) {
    call.EditCall? && call.workspace == workspace && Reports(call.e, call.answers) && !Refused(call.e, w.tracks)
  }

  /** The call takes the stored inverse of the workspace. */
  ghost predicate Takes(w: World, call: Call, workspace: string) {
    call.UndoCall? && call.workspace == workspace && workspace in w.undos
  }

  ghost function StoreCount(w: World, calls: seq<Call>, workspace: string): nat
    decreases |calls|
  {
    if calls == [] then 0
    else (if Stores(w, calls[0], workspace) then 1 else 0) + StoreCount(AfterCall(w, calls[0]), calls[1..], workspace)
  }

  ghost function TakeCount(w: World, calls: seq<Call>, workspace: string): nat
    decreases |calls|
  {
    if calls == [] then 0
    else (if Takes(w, calls[0], workspace) then 1 else 0) + TakeCount(AfterCall(w, calls[0]), calls[1..], workspace)
  }

  ghost function Held(w: World, workspace: string): nat {
    if workspace in w.undos then 1 else 0
  }

  /** The slot of a workspace changes only when one of its edits applies or its undo is taken; a
      refused edit, a failed call or another workspace leaves it as it was. */
  lemma SlotChanges(w: World, call: Call, workspace: string)
    ensures var next := AfterCall(w, call);
            && (Stores(w, call, workspace) ==>
                  workspace in next.undos
                  && next.undos[workspace] == Inverse(call.e, Prior(call.e, w.tracks[call.e.index - 1])))
            && (Takes(w, call, workspace) ==> workspace !in next.undos)
            && (!Stores(w, call, workspace) && !Takes(w, call, workspace) ==>
                  && (workspace in next.undos <==> workspace in w.undos)
                  && (workspace in w.undos ==> next.undos[workspace] == w.undos[workspace]))
  {
    if call.EditCall? && Reaches(call.e, call.answers) {
      EditIsGuarded(call.e, w.tracks);
    }
  }

  /** Over any run of calls each stored inverse is taken at most once. */
  lemma {:induction false} TakenAtMostOnce(w: World, calls: seq<Call>, workspace: string)
    ensures TakeCount(w, calls, workspace) + Held(AfterCalls(w, calls), workspace)
            <= StoreCount(w, calls, workspace) + Held(w, workspace)
    decreases |calls|
  {
    if calls != [] {
      SlotChanges(w, calls[0], workspace);
      TakenAtMostOnce(AfterCall(w, calls[0]), calls[1..], workspace);
    }
  }

  /** An undo straight after an applied edit leaves the slot empty, and restores the project whenever the
      prior value can be written back. */
  lemma UndoAfterEdit(w: World, workspace: string, e: TrackEdit, edit: Answers, undo: Answers)
    requires Reports(e, edit) && InRange(e) && !Refused(e, w.tracks) && !undo.script.NeverRan?
    ensures var after := AfterUndo(AfterEdit(w, workspace, e, edit), workspace, undo);
            && workspace !in after.undos
            && (Restorable(e, w.tracks) ==> after.tracks == w.tracks)
  {
    EditIsGuarded(e, w.tracks);
    UndoRestoresExactly(e, w.tracks);
  }

  /** An edit that applied without its receipt being read is in the project, and the slot still holds
      what it held. */
  lemma UnreadEditHasNoUndo(w: World, workspace: string, e: TrackEdit, edit: Answers)
    requires Reaches(e, edit) && edit.script.RanUnread? && !Refused(e, w.tracks)
    ensures AfterEdit(w, workspace, e, edit) == World(w.undos, Applied(e, w.tracks))
  {
    EditIsGuarded(e, w.tracks);
  }
}
