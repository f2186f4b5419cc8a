/** A small machine for the Lua scripts that the track edits generate: each command stands for a
    fixed group of generated lines, run against the position-indexed track list of REAPER. */
module TrackScript {
  import opened Text

  /** `id` tells tracks apart in proofs; no script can read it. */
  datatype Track = Track(id: nat, name: string, color: int, mute: int, solo: int, arm: int, depth: int)

  datatype Change =
    | SetName(name: string)
    | SetColor(color: int)
    | SetMute(value: int)
    | SetSolo(value: int)
    | SetArm(value: int)
    | ReorderBefore(before: int)  // SetOnlyTrackSelected, then ReorderSelectedTracks

  datatype Property = ColorProperty | MuteProperty | SoloProperty | ArmProperty

  datatype PriorKind = NumberPrior | FlagPrior | NamePrior | IndexPrior(index: int)

  datatype Command =
    | Guard(at: int, expected: string)
    | RefuseFolderParent
    | ReadPrior(property: Property)
    | BeginUndo
    | EndUndo
    | Apply(change: Change)
    | WriteApplied(kind: PriorKind)
    | CheckGuard(at: int, expected: string, index: int, move: bool)
    | Verdict
    | ApplyAt(at: int, change: Change)
    | WriteCount(count: nat)

  /** `failed` and `parents` are the tables of a plan script; `blocks` counts closed undo blocks. */
  datatype Machine = Machine(tracks: seq<Track>, tr: nat, current: string, prior: int,
                             failed: seq<int>, parents: seq<int>,
                             undoOpen: bool, blocks: nat, receipt: Option<string>, halted: bool)

  function Boot(tracks: seq<Track>): Machine {
    Machine(tracks, 0, "", 0, [], [], false, 0, None, false)
  }

  /* ---- The track list ---- */

  function RemoveAt(tracks: seq<Track>, at: nat): (r: seq<Track>)
    requires at < |tracks|
    ensures |r| == |tracks| - 1
  {
    tracks[..at] + tracks[at + 1..]
  }

  function InsertAt(tracks: seq<Track>, at: nat, track: Track): (r: seq<Track>)
    requires at <= |tracks|
    ensures |r| == |tracks| + 1
  {
    tracks[..at] + [track] + tracks[at..]
  }

  function MoveTo(tracks: seq<Track>, from: nat, to: nat): (r: seq<Track>)
    requires from < |tracks| && to < |tracks|
    ensures |r| == |tracks|
  {
    InsertAt(RemoveAt(tracks, from), to, tracks[from])
  }

  /** REAPER inserts before the track that has index `before` while the moved track is still in
      place; an index beyond the list means its end. */
  function ReorderTarget(count: nat, from: nat, before: int): (to: nat)
    requires from < count
    ensures to < count
  {
    var to := if before > from then before - 1 else before;
    if to < 0 then 0 else if to >= count then count - 1 else to
  }

  function Perform(tracks: seq<Track>, at: nat, change: Change): (r: seq<Track>)
    requires at < |tracks|
    ensures |r| == |tracks|
  {
    match change
    case SetName(name) => tracks[at := tracks[at].(name := name)]
    case SetColor(color) => tracks[at := tracks[at].(color := color)]
    case SetMute(value) => tracks[at := tracks[at].(mute := value)]
    case SetSolo(value) => tracks[at := tracks[at].(solo := value)]
    case SetArm(value) => tracks[at := tracks[at].(arm := value)]
    case ReorderBefore(before) => MoveTo(tracks, at, ReorderTarget(|tracks|, at, before))
  }

  function ValueOf(track: Track, property: Property): int {
    match property
    case ColorProperty => track.color
    case MuteProperty => track.mute
    case SoloProperty => track.solo
    case ArmProperty => track.arm
  }

  predicate Holds(tracks: seq<Track>, at: int, expected: string) {
    0 <= at < |tracks| && tracks[at].name == expected
  }

  function PriorText(m: Machine, kind: PriorKind): string {
    match kind
    case NumberPrior => Itoa(m.prior)
    case FlagPrior => if m.prior != 0 then "1" else "0"
    case NamePrior => m.current
    case IndexPrior(index) => Itoa(index)
  }

  function Texts(indices: seq<int>): (texts: seq<string>)
    ensures |texts| == |indices|
    ensures forall i :: 0 <= i < |indices| ==> texts[i] == Itoa(indices[i])
  {
    if indices == [] then [] else [Itoa(indices[0])] + Texts(indices[1..])
  }

  /** table.concat(indices, ","). */
  function Concat(indices: seq<int>): string {
    Join(Texts(indices), ',')
  }

  /** The text of a receipt file: the outcome line and what follows it. */
  function Receipt(outcome: string, rest: string): string {
    outcome + "\n" + rest
  }

  function Refuse(m: Machine, outcome: string, rest: string): Machine {
    m.(receipt := Some(Receipt(outcome, rest)), halted := true)
  }

  function Exec(m: Machine, command: Command): Machine {
    if m.halted then m
    else match command
      case Guard(at, expected) =>
        if Holds(m.tracks, at, expected) then m.(tr := at, current := expected)
        else Refuse(m, "guard_failed", "")
      case RefuseFolderParent =>
        if m.tr < |m.tracks| && m.tracks[m.tr].depth > 0 then Refuse(m, "folder_parent", "") else m
      case ReadPrior(property) =>
        if m.tr < |m.tracks| then m.(prior := ValueOf(m.tracks[m.tr], property)) else m
      case BeginUndo => m.(undoOpen := true)
      case EndUndo => m.(undoOpen := false, blocks := m.blocks + 1)
      case Apply(change) =>
        if m.tr < |m.tracks| then m.(tracks := Perform(m.tracks, m.tr, change)) else m
      case WriteApplied(kind) => m.(receipt := Some(Receipt("applied", PriorText(m, kind))))
      case CheckGuard(at, expected, index, move) =>
        if !Holds(m.tracks, at, expected) then m.(failed := m.failed + [index])
        else if move && m.tracks[at].depth > 0 then m.(parents := m.parents + [index])
        else m
      case Verdict =>
        if m.failed != [] then Refuse(m, "guard_failed", Concat(m.failed))
        else if m.parents != [] then Refuse(m, "folder_parent", Concat(m.parents))
        else m
      case ApplyAt(at, change) =>
        if 0 <= at < |m.tracks| then m.(tracks := Perform(m.tracks, at, change)) else m
      case WriteCount(count) => m.(receipt := Some(Receipt("applied", Itoa(count))))
  }

  function Execute(m: Machine, script: seq<Command>): Machine
    decreases |script|
  {
    if script == [] then m else Execute(Exec(m, script[0]), script[1..])
  }

  lemma {:induction false} ExecuteAppend(m: Machine, a: seq<Command>, b: seq<Command>)
    ensures Execute(m, a + b) == Execute(Execute(m, a), b)
    decreases |a|
  {
    if a == [] {
      assert a + b == b;
    } else {
      var script := a + b;
      assert script != [] && script[0] == a[0] && script[1..] == a[1..] + b;
      ExecuteAppend(Exec(m, a[0]), a[1..], b);
    }
  }

  lemma ExecuteOne(m: Machine, last: Command)
    ensures Execute(m, [last]) == Exec(m, last)
  {
    var script := [last];
    assert script[1..] == [];
  }

  lemma ExecuteTwo(m: Machine, first: Command, last: Command)
    ensures Execute(m, [first, last]) == Exec(Exec(m, first), last)
  {
    assert [first, last] == [first] + [last];
    ExecuteOne(Exec(m, first), last);
  }

  lemma {:induction false} HaltedStays(m: Machine, script: seq<Command>)
    requires m.halted
    ensures Execute(m, script) == m
    decreases |script|
  {
    if script != [] {
      HaltedStays(m, script[1..]);
    }
  }

  /* ---- Moving a track ---- */

  /** A move lands exactly at its target and keeps the order of the other tracks. */
  lemma MoveLands(tracks: seq<Track>, from: nat, to: nat)
    requires from < |tracks| && to < |tracks|
    ensures MoveTo(tracks, from, to)[to] == tracks[from]
    ensures RemoveAt(MoveTo(tracks, from, to), to) == RemoveAt(tracks, from)
    ensures multiset(MoveTo(tracks, from, to)) == multiset(tracks)
  {
    MovePermutes(tracks, from, to);
  }

  lemma MovePermutes(tracks: seq<Track>, from: nat, to: nat)
    requires from < |tracks| && to < |tracks|
    ensures multiset(MoveTo(tracks, from, to)) == multiset(tracks)
  {
    var rest := RemoveAt(tracks, from);
    MultisetInsert(rest, to, tracks[from]);
    MultisetInsert(rest, from, tracks[from]);
    PutBackHere(tracks, from);
  }

  lemma PutBackHere(tracks: seq<Track>, from: nat)
    requires from < |tracks|
    ensures InsertAt(RemoveAt(tracks, from), from, tracks[from]) == tracks
  {
  }

  lemma MultisetInsert(tracks: seq<Track>, at: nat, track: Track)
    requires at <= |tracks|
    ensures multiset(InsertAt(tracks, at, track)) == multiset(tracks) + multiset{track}
  {
    assert tracks == tracks[..at] + tracks[at..];
  }

  /** Moving back restores the list. */
  lemma MoveBack(tracks: seq<Track>, from: nat, to: nat)
    requires from < |tracks| && to < |tracks|
    ensures MoveTo(MoveTo(tracks, from, to), to, from) == tracks
  {
    MoveLands(tracks, from, to);
    var rest := RemoveAt(tracks, from);
    assert InsertAt(rest, from, tracks[from]) == tracks;
  }

  /** A position outside the closed span of a move keeps its track. */
  lemma OutsideSpan(tracks: seq<Track>, from: nat, to: nat, k: nat)
    requires from < |tracks| && to < |tracks| && k < |tracks|
    requires (k < from && k < to) || (k > from && k > to)
    ensures MoveTo(tracks, from, to)[k] == tracks[k]
  {
  }
}
