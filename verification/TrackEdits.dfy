/** Guarded single-track edits (internal/reaper/edits.go): validation, the generated script, its
    receipt, and the inverse built from the receipt. */
module TrackEdits {
  import opened Text
  import opened TrackScript

  const MAX_TRACK_NAME_BYTES := 512
  const CUSTOM_COLOR_FLAG: int := 0x1000000
  const MAX_TRACK_COLOR_VALUE: int := 0x1FFFFFF
  const MAX_INT64: int := 0x7FFF_FFFF_FFFF_FFFF

  datatype Kind = Rename | Color | Mute | Solo | Arm | Move | Unknown

  /** Positions are 1-based; only the field of its kind is meaningful. */
  datatype TrackEdit = TrackEdit(kind: Kind, index: int, expectedName: string,
                                 newName: string, newColor: int, newBool: bool, newIndex: int)

  function EmptyEdit(kind: Kind, index: int, expectedName: string): TrackEdit {
    TrackEdit(kind, index, expectedName, "", 0, false, 0)
  }

  /** color & trackCustomColorFlag != 0, for an integer in two's complement. */
  predicate HasFlag(color: int) {
    color / CUSTOM_COLOR_FLAG % 2 == 1
  }

  predicate ValidColor(color: int) {
    0 <= color <= MAX_TRACK_COLOR_VALUE && (color == 0 || HasFlag(color))
  }

  predicate Valid(e: TrackEdit) {
    && e.index >= 1
    && |e.expectedName| <= MAX_TRACK_NAME_BYTES
    && match e.kind
       case Rename => |e.newName| <= MAX_TRACK_NAME_BYTES && !BlankBytes(e.newName)
       case Color => ValidColor(e.newColor)
       case Mute => true
       case Solo => true
       case Arm => true
       case Move => e.newIndex >= 1
       case Unknown => false
  }

  /** strconv.ParseInt in 64 bits with its error dropped: 0 for bad syntax, else saturated. */
  function ParseInt64(s: string): int {
    match ParseInt(s)
    case None => 0
    case Some(n) => if n > MAX_INT64 then MAX_INT64 else if n < -MAX_INT64 - 1 then -MAX_INT64 - 1 else n
  }

  function Inverse(e: TrackEdit, prior: string): TrackEdit {
    match e.kind
    case Color =>
      var color := ParseInt64(TrimSpace(prior));
      EmptyEdit(Color, e.index, e.expectedName)
        .(newColor := if color != 0 && !HasFlag(color) then color + CUSTOM_COLOR_FLAG else color)
    case Move => EmptyEdit(Move, e.newIndex, e.expectedName).(newIndex := ParseInt64(TrimSpace(prior)))
    case _ =>
      if e.kind.Mute? || e.kind.Solo? || e.kind.Arm? then
        EmptyEdit(e.kind, e.index, e.expectedName).(newBool := TrimSpace(prior) == "1")
      else EmptyEdit(Rename, e.index, e.newName).(newName := prior)
  }

  /* ---- The generated script ---- */

  function LuaBool(value: bool): int {
    if value then 1 else 0
  }

  /** applyLua: a forward move names the target itself, since the moved track leaves a gap. */
  function ApplyLua(e: TrackEdit): Change {
    match e.kind
    case Color => SetColor(e.newColor)
    case Mute => SetMute(LuaBool(e.newBool))
    case Solo => SetSolo(LuaBool(e.newBool))
    case Arm => SetArm(LuaBool(e.newBool))
    case Move => ReorderBefore(if e.newIndex > e.index then e.newIndex else e.newIndex - 1)
    case _ => SetName(e.newName)
  }

  function PriorOf(e: TrackEdit): PriorKind {
    match e.kind
    case Color => NumberPrior
    case Move => IndexPrior(e.index)
    case Mute => FlagPrior
    case Solo => FlagPrior
    case Arm => FlagPrior
    case _ => NamePrior
  }

  function MutationLua(e: TrackEdit): seq<Command> {
    var read := match e.kind
      case Color => [ReadPrior(ColorProperty)]
      case Mute => [ReadPrior(MuteProperty)]
      case Solo => [ReadPrior(SoloProperty)]
      case Arm => [ReadPrior(ArmProperty)]
      case _ => [];
    read + [BeginUndo, Apply(ApplyLua(e)), EndUndo, WriteApplied(PriorOf(e))]
  }

  predicate ValidReceiptPath(path: string) {
    HasPrefix(path, "/") && '\n' !in path
  }

  function Lua(e: TrackEdit, receiptPath: string): Option<seq<Command>> {
    if !Valid(e) || !ValidReceiptPath(receiptPath) then None
    else
      Some([Guard(e.index - 1, e.expectedName)]
           + (if e.kind.Move? then [RefuseFolderParent] else [])
           + MutationLua(e))
  }

  /* ---- The receipt ---- */

  datatype EditReceipt = EditApplied(prior: string) | EditRefused(refusal: string) | InvalidReceipt

  /** The text before the first newline, and what follows it. */
  function CutLine(text: string): (r: (string, string)) {
    if text == "" then ("", "")
    else if text[0] == '\n' then ("", text[1..])
    else var (line, rest) := CutLine(text[1..]); ([text[0]] + line, rest)
  }

  function ParseEditReceipt(data: string): EditReceipt {
    var (line, prior) := CutLine(data);
    var outcome := TrimSpace(line);
    if outcome == "applied" then EditApplied(prior)
    else if outcome == "guard_failed" || outcome == "folder_parent" then EditRefused(outcome)
    else InvalidReceipt
  }

  lemma {:induction false} CutLineAt(line: string, rest: string)
    requires '\n' !in line
    ensures CutLine(line + "\n" + rest) == (line, rest)
  {
    if line == "" {
      assert (line + "\n" + rest)[1..] == rest;
    } else {
      CutLineAt(line[1..], rest);
      assert (line + "\n" + rest)[1..] == line[1..] + "\n" + rest;
      assert [line[0]] + line[1..] == line;
    }
  }

  lemma ReceiptRead(outcome: string, rest: string)
    requires '\n' !in outcome && Trimmed(outcome)
    ensures outcome == "applied" ==> ParseEditReceipt(Receipt(outcome, rest)) == EditApplied(rest)
    ensures outcome == "guard_failed" || outcome == "folder_parent" ==>
              ParseEditReceipt(Receipt(outcome, rest)) == EditRefused(outcome)
  {
    CutLineAt(outcome, rest);
    TrimTrimmed(outcome);
  }

  /* ---- One run of an edit ---- */

  datatype Outcome = Outcome(tracks: seq<Track>, receipt: EditReceipt, undoSteps: nat)

  /** Validate, generate, run and read the receipt; None is an edit refused before any script. */
  function RunEdit(e: TrackEdit, tracks: seq<Track>): Option<Outcome> {
    if !Valid(e) then None
    else
      var m := Execute(Boot(tracks), Lua(e, "/receipt").value);
      Some(Outcome(m.tracks, if m.receipt.None? then InvalidReceipt else ParseEditReceipt(m.receipt.value), m.blocks))
  }

  function Property(kind: Kind): Property {
    match kind
    case Mute => MuteProperty
    case Solo => SoloProperty
    case Arm => ArmProperty
    case _ => ColorProperty
  }

  /** What the receipt reports about the track before the edit. */
  function Prior(e: TrackEdit, track: Track): string {
    match e.kind
    case Color => Itoa(track.color)
    case Move => Itoa(e.index)
    case Rename => track.name
    case _ => if ValueOf(track, Property(e.kind)) != 0 then "1" else "0"
  }

  predicate GuardHolds(e: TrackEdit, tracks: seq<Track>) {
    Holds(tracks, e.index - 1, e.expectedName)
  }

  predicate Refused(e: TrackEdit, tracks: seq<Track>) {
    !GuardHolds(e, tracks) || (e.kind.Move? && tracks[e.index - 1].depth > 0)
  }

  /** The body of a script whose guard passed. */
  lemma MutationRuns(m: Machine, e: TrackEdit)
    requires !m.halted && m.tr < |m.tracks| && !e.kind.Unknown?
    requires m.tracks[m.tr].name == m.current
    ensures var done := Execute(m, MutationLua(e));
            && done.tracks == Perform(m.tracks, m.tr, ApplyLua(e))
            && done.receipt == Some(Receipt("applied", Prior(e, m.tracks[m.tr])))
            && done.blocks == m.blocks + 1 && !done.undoOpen
  {
    var tail := [BeginUndo, Apply(ApplyLua(e)), EndUndo, WriteApplied(PriorOf(e))];
    var read := if e.kind.Rename? || e.kind.Move? then m
                else m.(prior := ValueOf(m.tracks[m.tr], Property(e.kind)));
    if e.kind.Rename? || e.kind.Move? {
      assert MutationLua(e) == tail;
    } else {
      assert MutationLua(e) == [ReadPrior(Property(e.kind))] + tail;
    }
    TailRuns(read, ApplyLua(e), PriorOf(e));
  }

  lemma TailRuns(m: Machine, change: Change, kind: PriorKind)
    requires !m.halted && m.tr < |m.tracks|
    ensures var changed := m.(tracks := Perform(m.tracks, m.tr, change), undoOpen := false, blocks := m.blocks + 1);
            Execute(m, [BeginUndo, Apply(change), EndUndo, WriteApplied(kind)])
            == changed.(receipt := Some(Receipt("applied", PriorText(changed, kind))))
  {
    var end := [EndUndo, WriteApplied(kind)];
    assert [BeginUndo, Apply(change), EndUndo, WriteApplied(kind)] == [BeginUndo, Apply(change)] + end;
    ExecuteAppend(m, [BeginUndo, Apply(change)], end);
    ExecuteTwo(m, BeginUndo, Apply(change));
    ExecuteTwo(m.(undoOpen := true, tracks := Perform(m.tracks, m.tr, change)), EndUndo, WriteApplied(kind));
  }

  lemma GuardedRuns(e: TrackEdit, tracks: seq<Track>)
    requires Valid(e)
    ensures var m := Execute(Boot(tracks), Lua(e, "/receipt").value);
            if !GuardHolds(e, tracks) then m == Refuse(Boot(tracks), "guard_failed", "")
            else
              var at := Boot(tracks).(tr := e.index - 1, current := e.expectedName);
              m == if Refused(e, tracks) then Refuse(at, "folder_parent", "") else Execute(at, MutationLua(e))
  {
    var body := MutationLua(e);
    var folder := [RefuseFolderParent] + body;
    var rest := if e.kind.Move? then folder else body;
    assert Lua(e, "/receipt").value == [Guard(e.index - 1, e.expectedName)] + rest;
    if !GuardHolds(e, tracks) {
      HaltedStays(Refuse(Boot(tracks), "guard_failed", ""), rest);
    } else if e.kind.Move? {
      var at := Boot(tracks).(tr := e.index - 1, current := e.expectedName);
      if Refused(e, tracks) {
        HaltedStays(Refuse(at, "folder_parent", ""), body);
      }
    }
  }

  /** A valid edit either applies to the track its guard names, as one undo step and with the prior
      value in its receipt, or leaves the project and the undo history as they were. */
  lemma EditIsGuarded(e: TrackEdit, tracks: seq<Track>)
    requires Valid(e)
    ensures RunEdit(e, tracks) == Some(
              if !GuardHolds(e, tracks) then Outcome(tracks, EditRefused("guard_failed"), 0)
              else if Refused(e, tracks) then Outcome(tracks, EditRefused("folder_parent"), 0)
              else Outcome(Perform(tracks, e.index - 1, ApplyLua(e)),
                           EditApplied(Prior(e, tracks[e.index - 1])), 1))
  {
    GuardedRuns(e, tracks);
    if !GuardHolds(e, tracks) {
      ReceiptRead("guard_failed", "");
    } else if Refused(e, tracks) {
      ReceiptRead("folder_parent", "");
    } else {
      MutationRuns(Boot(tracks).(tr := e.index - 1, current := e.expectedName), e);
      ReceiptRead("applied", Prior(e, tracks[e.index - 1]));
    }
  }

  /* ---- What each kind of edit does ---- */

  /** The track an edit leaves in the place of the one its guard names, unless it is a move. */
  ghost predicate IsEdited(e: TrackEdit, was: Track, now: Track) {
    && now.id == was.id && now.depth == was.depth
    && (if e.kind == Rename then now.name == e.newName else now.name == was.name)
    && (if e.kind == Color then now.color == e.newColor else now.color == was.color)
    && (if e.kind == Mute then now.mute == (if e.newBool then 1 else 0) else now.mute == was.mute)
    && (if e.kind == Solo then now.solo == (if e.newBool then 1 else 0) else now.solo == was.solo)
    && (if e.kind == Arm then now.arm == (if e.newBool then 1 else 0) else now.arm == was.arm)
  }

  /** The receipt's text about the track before the edit. */
  ghost predicate TellsPrior(e: TrackEdit, was: Track, prior: string) {
    match e.kind
    case Rename => prior == was.name
    case Color => prior == Itoa(was.color)
    case Mute => prior == if was.mute != 0 then "1" else "0"
    case Solo => prior == if was.solo != 0 then "1" else "0"
    case Arm => prior == if was.arm != 0 then "1" else "0"
    case Move => prior == Itoa(e.index)
    case Unknown => false
  }

  /** A valid edit that is not refused sets its own field of its own track and nothing else; a move changes no track and
      puts its own at the target, or at the end of a shorter list. Its receipt tells the prior value. */
  lemma EditDoes(e: TrackEdit, tracks: seq<Track>)
    requires Valid(e) && !Refused(e, tracks)
    ensures var run, at := RunEdit(e, tracks).value, e.index - 1;
            && run.receipt.EditApplied? && TellsPrior(e, tracks[at], run.receipt.prior)
            && |run.tracks| == |tracks|
            && (if e.kind == Move then
                  run.tracks == MoveTo(tracks, at, (if e.newIndex > |tracks| then |tracks| else e.newIndex) - 1)
                else
                  && IsEdited(e, tracks[at], run.tracks[at])
                  && forall k :: 0 <= k < |tracks| && k != at ==> run.tracks[k] == tracks[k])
  {
    EditIsGuarded(e, tracks);
    AppliedDoes(e, tracks);
  }

  lemma AppliedDoes(e: TrackEdit, tracks: seq<Track>)
    requires Valid(e) && GuardHolds(e, tracks)
    ensures var after, at := Applied(e, tracks), e.index - 1;
            && |after| == |tracks|
            && (if e.kind == Move then
                  after == MoveTo(tracks, at, (if e.newIndex > |tracks| then |tracks| else e.newIndex) - 1)
                else
                  && IsEdited(e, tracks[at], after[at])
                  && forall k :: 0 <= k < |tracks| && k != at ==> after[k] == tracks[k])
  {
  }

  /* ---- Undo ---- */

  /** When the inverse built from the receipt restores the project: the guard compared names, so the
      prior name of a rename is the expected one; a prior toggle must be 0 or 1, a prior colour one
      that can be written, and a move must not have been cut off at the end of the list. */
  predicate Restorable(e: TrackEdit, tracks: seq<Track>)
    requires GuardHolds(e, tracks)
  {
    var track := tracks[e.index - 1];
    match e.kind
    case Color => ValidColor(track.color)
    case Move => e.newIndex <= |tracks|
    case Rename => !BlankBytes(track.name)
    case _ => 0 <= ValueOf(track, Property(e.kind)) <= 1
  }

  /** The edit's own indices and target are Go ints. */
  predicate InRange(e: TrackEdit) {
    e.index <= MAX_INT64 && e.newIndex <= MAX_INT64
  }

  function Applied(e: TrackEdit, tracks: seq<Track>): seq<Track>
    requires GuardHolds(e, tracks)
  {
    Perform(tracks, e.index - 1, ApplyLua(e))
  }

  /** The inverse applies to what the edit left and gives back the tracks it found. */
  predicate GivesBack(inverse: TrackEdit, after: seq<Track>, tracks: seq<Track>) {
    Valid(inverse) && !Refused(inverse, after) && Applied(inverse, after) == tracks
  }

  lemma UndoRename(e: TrackEdit, tracks: seq<Track>, inverse: TrackEdit)
    requires Valid(e) && e.kind.Rename? && !Refused(e, tracks)
    requires inverse == EmptyEdit(Rename, e.index, e.newName).(newName := e.expectedName)
    ensures GivesBack(inverse, Applied(e, tracks), tracks) <==> Valid(inverse)
  {
    var k := e.index - 1;
    var after := Applied(e, tracks);
    assert after[k := after[k].(name := e.expectedName)] == tracks;
  }

  lemma UndoColor(e: TrackEdit, tracks: seq<Track>, inverse: TrackEdit)
    requires Valid(e) && e.kind.Color? && !Refused(e, tracks)
    requires inverse == EmptyEdit(Color, e.index, e.expectedName).(newColor := inverse.newColor)
    ensures GivesBack(inverse, Applied(e, tracks), tracks)
            <==> Valid(inverse) && inverse.newColor == tracks[e.index - 1].color
  {
    var k := e.index - 1;
    var after := Applied(e, tracks);
    var restored := after[k := after[k].(color := inverse.newColor)];
    assert restored[k].color == inverse.newColor;
    assert inverse.newColor == tracks[k].color ==> restored == tracks;
  }

  function WithFlag(track: Track, kind: Kind, value: int): Track {
    match kind
    case Mute => track.(mute := value)
    case Solo => track.(solo := value)
    case _ => track.(arm := value)
  }

  lemma UndoToggle(e: TrackEdit, tracks: seq<Track>, inverse: TrackEdit)
    requires Valid(e) && (e.kind.Mute? || e.kind.Solo? || e.kind.Arm?) && !Refused(e, tracks)
    requires inverse == EmptyEdit(e.kind, e.index, e.expectedName).(newBool := inverse.newBool)
    ensures GivesBack(inverse, Applied(e, tracks), tracks)
            <==> ValueOf(tracks[e.index - 1], Property(e.kind)) == LuaBool(inverse.newBool)
  {
    var k, back := e.index - 1, LuaBool(inverse.newBool);
    var after := tracks[k := WithFlag(tracks[k], e.kind, LuaBool(e.newBool))];
    assert Applied(e, tracks) == after;
    var restored := after[k := WithFlag(after[k], e.kind, back)];
    assert Applied(inverse, after) == restored;
    assert restored[k] == WithFlag(tracks[k], e.kind, back);
    assert restored == tracks[k := restored[k]];
    assert restored == tracks <==> restored[k] == tracks[k];
  }

  lemma UndoMove(e: TrackEdit, tracks: seq<Track>, inverse: TrackEdit)
    requires Valid(e) && e.kind.Move? && !Refused(e, tracks)
    requires inverse == EmptyEdit(Move, e.newIndex, e.expectedName).(newIndex := e.index)
    ensures GivesBack(inverse, Applied(e, tracks), tracks) <==> e.newIndex <= |tracks|
  {
    if e.newIndex <= |tracks| {
      MovesBack(e.index - 1, e.newIndex - 1, tracks, Applied(e, tracks), inverse);
    }
  }

  lemma MovesBack(from: nat, to: nat, tracks: seq<Track>, after: seq<Track>, inverse: TrackEdit)
    requires from < |tracks| && to < |tracks| && after == MoveTo(tracks, from, to)
    requires Valid(inverse) && inverse.kind.Move? && inverse.index == to + 1 && inverse.newIndex == from + 1
    requires inverse.expectedName == tracks[from].name && tracks[from].depth <= 0
    ensures GivesBack(inverse, after, tracks)
  {
    MoveLands(tracks, from, to);
    MoveBack(tracks, from, to);
  }

  lemma InverseOf(e: TrackEdit, track: Track)
    requires Valid(e) && InRange(e)
    ensures var inverse := Inverse(e, Prior(e, track));
            match e.kind
            case Rename => inverse == EmptyEdit(Rename, e.index, e.newName).(newName := track.name)
            case Move => inverse == EmptyEdit(Move, e.newIndex, e.expectedName).(newIndex := e.index)
            case Color =>
              && inverse == EmptyEdit(Color, e.index, e.expectedName).(newColor := inverse.newColor)
              && (ValidColor(track.color) <==> Valid(inverse) && inverse.newColor == track.color)
            case _ =>
              inverse == EmptyEdit(e.kind, e.index, e.expectedName)
                           .(newBool := ValueOf(track, Property(e.kind)) != 0)
  {
    ItoaRoundTrip(track.color);
    ItoaRoundTrip(e.index);
    TrimTrimmed("0");
    TrimTrimmed("1");
  }

  lemma InverseGivesBack(e: TrackEdit, tracks: seq<Track>, inverse: TrackEdit)
    requires Valid(e) && InRange(e) && !Refused(e, tracks)
    requires inverse == Inverse(e, Prior(e, tracks[e.index - 1]))
    ensures GivesBack(inverse, Applied(e, tracks), tracks) <==> Restorable(e, tracks)
  {
    if e.kind.Rename? || e.kind.Color? {
      ValueGivesBack(e, tracks, inverse);
    } else {
      InverseOf(e, tracks[e.index - 1]);
      if e.kind.Move? {
        UndoMove(e, tracks, inverse);
      } else {
        UndoToggle(e, tracks, inverse);
      }
    }
  }

  lemma ValueGivesBack(e: TrackEdit, tracks: seq<Track>, inverse: TrackEdit)
    requires Valid(e) && InRange(e) && !Refused(e, tracks) && (e.kind.Rename? || e.kind.Color?)
    requires inverse == Inverse(e, Prior(e, tracks[e.index - 1]))
    ensures GivesBack(inverse, Applied(e, tracks), tracks) <==> Restorable(e, tracks)
  {
    if e.kind.Rename? {
      InverseOf(e, tracks[e.index - 1]);
      UndoRename(e, tracks, inverse);
      RenameFits(e, tracks, inverse);
    } else {
      ColorGivesBack(e, tracks, inverse);
    }
  }

  lemma RenameFits(e: TrackEdit, tracks: seq<Track>, inverse: TrackEdit)
    requires Valid(e) && e.kind.Rename? && !Refused(e, tracks)
    requires inverse == EmptyEdit(Rename, e.index, e.newName).(newName := e.expectedName)
    ensures Valid(inverse) <==> Restorable(e, tracks)
  {
  }

  lemma InverseOfColor(e: TrackEdit, track: Track, inverse: TrackEdit)
    requires Valid(e) && InRange(e) && e.kind.Color? && inverse == Inverse(e, Prior(e, track))
    ensures inverse == EmptyEdit(Color, e.index, e.expectedName).(newColor := inverse.newColor)
    ensures ValidColor(track.color) <==> Valid(inverse) && inverse.newColor == track.color
  {
    InverseOf(e, track);
  }

  lemma ColorGivesBack(e: TrackEdit, tracks: seq<Track>, inverse: TrackEdit)
    requires Valid(e) && InRange(e) && !Refused(e, tracks) && e.kind.Color?
    requires inverse == Inverse(e, Prior(e, tracks[e.index - 1]))
    ensures GivesBack(inverse, Applied(e, tracks), tracks) <==> Restorable(e, tracks)
  {
    InverseOfColor(e, tracks[e.index - 1], inverse);
    ColorBack(e, tracks, inverse);
  }

  lemma ColorBack(e: TrackEdit, tracks: seq<Track>, inverse: TrackEdit)
    requires Valid(e) && !Refused(e, tracks) && e.kind.Color?
    requires inverse == EmptyEdit(Color, e.index, e.expectedName).(newColor := inverse.newColor)
    requires ValidColor(tracks[e.index - 1].color) <==> Valid(inverse) && inverse.newColor == tracks[e.index - 1].color
    ensures GivesBack(inverse, Applied(e, tracks), tracks) <==> Restorable(e, tracks)
  {
    UndoColor(e, tracks, inverse);
  }

  /** Running the inverse built from an applied receipt applies and restores the exact project
      precisely when the prior value is one the inverse can write back. */
  lemma UndoRestoresExactly(e: TrackEdit, tracks: seq<Track>)
    requires Valid(e) && InRange(e) && !Refused(e, tracks)
    ensures var run := RunEdit(e, tracks).value;
            && run.receipt.EditApplied?
            && (Restorable(e, tracks) <==> Undone(RunEdit(Inverse(e, run.receipt.prior), run.tracks), tracks))
  {
    EditIsGuarded(e, tracks);
    var inverse, after := Inverse(e, Prior(e, tracks[e.index - 1])), Applied(e, tracks);
    InverseGivesBack(e, tracks, inverse);
    RunsBack(inverse, after, tracks);
  }

  /** A track named by a no-break space can be renamed, but its name is blank to the inverse. */
  lemma BlankNameIsLost(track: Track)
    requires track.name == [0xC2 as char, 0xA0 as char]
    ensures var e := EmptyEdit(Rename, 1, track.name).(newName := "Lead");
            && Valid(e) && !Refused(e, [track])
            && RunEdit(Inverse(e, track.name), RunEdit(e, [track]).value.tracks) == None
  {
    var e := EmptyEdit(Rename, 1, track.name).(newName := "Lead");
    var rest := track.name[2..];
    assert LeadingCode(track.name) == (0xA0, 2) && rest == "" && BlankBytes(rest);
    assert BlankBytes(track.name);
    assert LeadingCode("Lead") == ('L' as int, 1) && !BlankBytes("Lead");
  }

  /** The run applied and left `tracks`. */
  predicate Undone(run: Option<Outcome>, tracks: seq<Track>) {
    run.Some? && run.value.receipt.EditApplied? && run.value.tracks == tracks
  }

  lemma RunsBack(inverse: TrackEdit, after: seq<Track>, tracks: seq<Track>)
    ensures GivesBack(inverse, after, tracks) <==> Undone(RunEdit(inverse, after), tracks)
  {
    if Valid(inverse) {
      EditIsGuarded(inverse, after);
    }
  }

  /* ---- The move preflight ---- */

  datatype TrackLine = TrackLine(index: int, name: string, folderDepth: int)

  datatype Snapshot = Snapshot(trackCount: int, tracks: seq<TrackLine>, folderDepthAvailable: bool)

  datatype MoveCheck =
    | MoveAccepted
    | InvalidTrackEdit
    | TrackMoveTargetOutOfRange
    | TrackIdentityChanged
    | FolderDepthUnavailable
    | FolderParentMoveUnsupported

  /** A snapshot that shows the live track list. */
  ghost predicate Shows(state: Snapshot, tracks: seq<Track>) {
    && state.trackCount == |tracks| == |state.tracks|
    && forall k :: 0 <= k < |tracks| ==>
         state.tracks[k] == TrackLine(k + 1, tracks[k].name, tracks[k].depth)
  }

  function FirstLine(lines: seq<TrackLine>, index: int): Option<TrackLine> {
    if lines == [] then None
    else if lines[0].index == index then Some(lines[0])
    else FirstLine(lines[1..], index)
  }

  function CheckMove(state: Snapshot, e: TrackEdit): MoveCheck {
    if !e.kind.Move? || !Valid(e) then InvalidTrackEdit
    else if e.newIndex > state.trackCount then TrackMoveTargetOutOfRange
    else
      var line := FirstLine(state.tracks, e.index);
      if line.None? || line.value.name != e.expectedName then TrackIdentityChanged
      else if !state.folderDepthAvailable then FolderDepthUnavailable
      else if line.value.folderDepth > 0 then FolderParentMoveUnsupported
      else MoveAccepted
  }

  method ValidateTrackMove(state: Snapshot, e: TrackEdit) returns (check: MoveCheck)
    ensures check == CheckMove(state, e)
  {
    if !e.kind.Move? || !Valid(e) {
      return InvalidTrackEdit;
    }
    if e.newIndex > state.trackCount {
      return TrackMoveTargetOutOfRange;
    }
    var source: Option<TrackLine> := None;
    assert state.tracks[0..] == state.tracks;
    for i := 0 to |state.tracks|
      invariant source.None? && FirstLine(state.tracks, e.index) == FirstLine(state.tracks[i..], e.index)
    {
      assert state.tracks[i..][1..] == state.tracks[i + 1..];
      if state.tracks[i].index == e.index {
        source := Some(state.tracks[i]);
        break;
      }
    }
    if source.None? || source.value.name != e.expectedName {
      return TrackIdentityChanged;
    }
    if !state.folderDepthAvailable {
      return FolderDepthUnavailable;
    }
    if source.value.folderDepth > 0 {
      return FolderParentMoveUnsupported;
    }
    return MoveAccepted;
  }

  lemma {:induction false} FirstLineOf(lines: seq<TrackLine>, start: int, index: int)
    requires forall k :: 0 <= k < |lines| ==> lines[k].index == start + k
    ensures FirstLine(lines, index)
            == if start <= index < start + |lines| then Some(lines[index - start]) else None
  {
    if lines != [] {
      FirstLineOf(lines[1..], start + 1, index);
    }
  }

  /** On a snapshot of the live project exactly those valid in-range moves pass whose script applies. */
  lemma PreflightMatchesScript(state: Snapshot, e: TrackEdit, tracks: seq<Track>)
    requires Shows(state, tracks)
    ensures CheckMove(state, e).MoveAccepted?
            <==> e.kind.Move? && Valid(e) && e.newIndex <= |tracks| && state.folderDepthAvailable
                 && !Refused(e, tracks)
  {
    FirstLineOf(state.tracks, 1, e.index);
  }

  /** Why a move is not accepted on such a snapshot: the first of these that applies. */
  lemma PreflightRefusals(state: Snapshot, e: TrackEdit, tracks: seq<Track>)
    requires Shows(state, tracks)
    ensures var there := 1 <= e.index <= |tracks| && tracks[e.index - 1].name == e.expectedName;
            var moves, fits, check := e.kind == Move && Valid(e), e.newIndex <= |tracks|, CheckMove(state, e);
            && (check == InvalidTrackEdit <==> !moves)
            && (check == TrackMoveTargetOutOfRange <==> moves && !fits)
            && (check == TrackIdentityChanged <==> moves && fits && !there)
            && (check == FolderDepthUnavailable <==> moves && fits && there && !state.folderDepthAvailable)
            && (check == FolderParentMoveUnsupported <==>
                  moves && fits && there && state.folderDepthAvailable && tracks[e.index - 1].depth > 0)
  {
    FirstLineOf(state.tracks, 1, e.index);
  }

  /** An in-range move that its guards let through lands exactly at its target and keeps the order
      of every other track. */
  lemma MoveLandsAtTarget(e: TrackEdit, tracks: seq<Track>)
    requires Valid(e) && e.kind.Move? && !Refused(e, tracks) && e.newIndex <= |tracks|
    ensures var after := Applied(e, tracks);
            && |after| == |tracks|
            && after[e.newIndex - 1] == tracks[e.index - 1]
            && RemoveAt(after, e.newIndex - 1) == RemoveAt(tracks, e.index - 1)
  {
    MoveLands(tracks, e.index - 1, e.newIndex - 1);
  }
}
