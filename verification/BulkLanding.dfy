/** Which tracks the unguarded changes of a plan reach (internal/reaper/bulk.go): the guards compared
    names on the list as the plan found it, while a later change finds what earlier moves left. */
module BulkLanding {
  import opened TrackScript
  import opened TrackEdits
  import opened BulkPlans

  function Ids(tracks: seq<Track>): (ids: seq<nat>) {
    seq(|tracks|, i requires 0 <= i < |tracks| => tracks[i].id)
  }

  /** The track list that the k-th change of the plan finds. */
  function Found(ordered: seq<TrackEdit>, k: nat, tracks: seq<Track>): seq<Track>
    requires k <= |ordered|
  {
    ApplyAll(ordered[..k], tracks)
  }

  /** The k-th change reaches the track that its guard checked. */
  ghost predicate LandsWhereChecked(ordered: seq<TrackEdit>, k: nat, tracks: seq<Track>)
    requires k < |ordered|
  {
    var at := ordered[k].index - 1;
    0 <= at < |tracks| ==> Found(ordered, k, tracks)[at].id == tracks[at].id
  }

  /** The 0-based position where a move puts its track, cut off at the end of the list. */
  function TargetOf(e: TrackEdit, count: nat): int {
    (if e.newIndex > count then count else e.newIndex) - 1
  }

  /** A position outside the closed span between the source and the target of a move. */
  predicate OutsideMove(e: TrackEdit, count: nat, at: int) {
    var from, to := e.index - 1, TargetOf(e, count);
    (at < from && at < to) || (at > from && at > to)
  }

  ghost predicate DistinctTracks(tracks: seq<Track>) {
    forall i, j :: 0 <= i < j < |tracks| ==> tracks[i].id != tracks[j].id
  }

  /* ---- Where a track was ---- */

  /** Where the track at a position was before the change. */
  function Before(e: TrackEdit, count: nat, at: nat): (was: nat)
    requires Valid(e) && at < count
    ensures was < count
  {
    if !e.kind.Move? || e.index > count then at
    else
      var from, to := e.index - 1, TargetOf(e, count);
      if at == to then from
      else if from <= at < to then at + 1
      else if to < at <= from then at - 1
      else at
  }

  /** Where it was before all these changes. */
  function Origin(edits: seq<TrackEdit>, count: nat, at: nat): (was: nat)
    requires at < count && forall e :: e in edits ==> Valid(e)
    ensures was < count
  {
    if edits == [] then at
    else
      assert edits[0] in edits;
      Before(edits[0], count, Origin(edits[1..], count, at))
  }

  lemma MoveIsMoveTo(e: TrackEdit, tracks: seq<Track>)
    requires Valid(e) && e.kind.Move? && e.index <= |tracks|
    ensures 0 <= TargetOf(e, |tracks|) < |tracks|
    ensures Perform(tracks, e.index - 1, ApplyLua(e)) == MoveTo(tracks, e.index - 1, TargetOf(e, |tracks|))
  {
  }

  lemma MovedFrom(tracks: seq<Track>, from: nat, to: nat, at: nat)
    requires from < |tracks| && to < |tracks| && at < |tracks|
    ensures MoveTo(tracks, from, to)[at]
            == if at == to then tracks[from]
               else if from <= at < to then tracks[at + 1]
               else if to < at <= from then tracks[at - 1]
               else tracks[at]
  {
  }

  lemma ChangedFrom(e: TrackEdit, tracks: seq<Track>, at: nat)
    requires Valid(e) && e.index <= |tracks| && at < |tracks|
    ensures Perform(tracks, e.index - 1, ApplyLua(e))[at].id == tracks[Before(e, |tracks|, at)].id
  {
    if e.kind.Move? {
      MoveIsMoveTo(e, tracks);
      MovedFrom(tracks, e.index - 1, TargetOf(e, |tracks|), at);
    }
  }

  /** After any changes the track at a position is the one that was at its origin. */
  lemma {:induction false} FoundFromOrigin(edits: seq<TrackEdit>, tracks: seq<Track>, at: nat)
    requires at < |tracks| && forall e :: e in edits ==> Valid(e)
    ensures ApplyAll(edits, tracks)[at].id == tracks[Origin(edits, |tracks|, at)].id
    decreases |edits|
  {
    if edits != [] {
      var e := edits[0];
      assert e in edits;
      if e.index <= |tracks| {
        FoundFromOrigin(edits[1..], Perform(tracks, e.index - 1, ApplyLua(e)), at);
        ChangedFrom(e, tracks, Origin(edits[1..], |tracks|, at));
      } else {
        FoundFromOrigin(edits[1..], tracks, at);
      }
    }
  }

  lemma EarlierAreValid(edits: seq<TrackEdit>, k: nat)
    requires ValidPlan(edits) && k <= |OrderedEdits(edits)|
    ensures forall e :: e in OrderedEdits(edits)[..k] ==> Valid(e)
  {
    OrderedShape(edits);
    forall e | e in OrderedEdits(edits)[..k] ensures Valid(e) {
      assert e in OrderedEdits(edits);
    }
  }

  lemma LandsFromOrigin(ordered: seq<TrackEdit>, k: nat, tracks: seq<Track>)
    requires k < |ordered| && (forall e :: e in ordered[..k] ==> Valid(e)) && DistinctTracks(tracks)
    requires 1 <= ordered[k].index <= |tracks|
    ensures LandsWhereChecked(ordered, k, tracks)
            <==> Origin(ordered[..k], |tracks|, ordered[k].index - 1) == ordered[k].index - 1
  {
    var at := ordered[k].index - 1;
    StaysAtOrigin(ordered[..k], tracks, at);
  }

  lemma StaysAtOrigin(edits: seq<TrackEdit>, tracks: seq<Track>, at: nat)
    requires at < |tracks| && (forall e :: e in edits ==> Valid(e)) && DistinctTracks(tracks)
    ensures ApplyAll(edits, tracks)[at].id == tracks[at].id <==> Origin(edits, |tracks|, at) == at
  {
    FoundFromOrigin(edits, tracks, at);
    SameTrack(tracks, Origin(edits, |tracks|, at), at);
  }

  lemma SameTrack(tracks: seq<Track>, i: nat, j: nat)
    requires DistinctTracks(tracks) && i < |tracks| && j < |tracks|
    ensures tracks[i].id == tracks[j].id <==> i == j
  {
  }

  /** In any plan a change reaches the track its guard checked exactly when the earlier moves leave that
      track where it was. */
  lemma LandsExactly(edits: seq<TrackEdit>, ordered: seq<TrackEdit>, tracks: seq<Track>, k: nat)
    requires ValidPlan(edits) && ordered == OrderedEdits(edits) && k < |ordered|
    requires DistinctTracks(tracks) && 1 <= ordered[k].index <= |tracks|
    ensures forall e :: e in ordered[..k] ==> Valid(e)
    ensures LandsWhereChecked(ordered, k, tracks)
            <==> Origin(ordered[..k], |tracks|, ordered[k].index - 1) == ordered[k].index - 1
  {
    EarlierAreValid(edits, k);
    LandsFromOrigin(ordered, k, tracks);
  }

  lemma {:induction false} OriginOutside(edits: seq<TrackEdit>, count: nat, at: nat)
    requires at < count && forall e :: e in edits ==> Valid(e)
    requires forall e :: e in edits && e.kind.Move? ==> OutsideMove(e, count, at)
    ensures Origin(edits, count, at) == at
  {
    if edits != [] {
      assert edits[0] in edits;
      OriginOutside(edits[1..], count, at);
    }
  }

  /** Every change whose position lies outside the span of each earlier move reaches the track its
      guard checked, however many moves the plan has. */
  lemma LandsOutsideEarlierMoves(edits: seq<TrackEdit>, tracks: seq<Track>, k: nat)
    requires ValidPlan(edits) && k < |OrderedEdits(edits)|
    requires forall j :: 0 <= j < k && OrderedEdits(edits)[j].kind.Move? ==>
               OutsideMove(OrderedEdits(edits)[j], |tracks|, OrderedEdits(edits)[k].index - 1)
    ensures LandsWhereChecked(OrderedEdits(edits), k, tracks)
  {
    var ordered := OrderedEdits(edits);
    var at := ordered[k].index - 1;
    EarlierAreValid(edits, k);
    if 0 <= at < |tracks| {
      forall e | e in ordered[..k] && e.kind.Move? ensures OutsideMove(e, |tracks|, at) {
        var j :| 0 <= j < |ordered[..k]| && ordered[..k][j] == e;
        assert ordered[j] == e;
      }
      OriginOutside(ordered[..k], |tracks|, at);
      FoundFromOrigin(ordered[..k], tracks, at);
    }
  }

  /** With at most one move every change reaches the track its guard checked. */
  lemma LandsWithOneMove(edits: seq<TrackEdit>, tracks: seq<Track>, k: nat)
    requires ValidPlan(edits) && k < |OrderedEdits(edits)|
    requires |Kept(edits, true)| <= 1
    ensures LandsWhereChecked(OrderedEdits(edits), k, tracks)
  {
    var first, last := Kept(edits, false), Kept(edits, true);
    KeptMembers(edits, false);
    forall j | 0 <= j < k ensures !OrderedEdits(edits)[j].kind.Move? {
      assert j < |first|;
      assert OrderedEdits(edits)[j] == first[j] && first[j] in first;
    }
    LandsOutsideEarlierMoves(edits, tracks, k);
  }

  /** For the second of two moves this says: outside the span of the first, or the first moves nothing. */
  lemma SecondMoveLandsExactly(first: TrackEdit, second: TrackEdit, tracks: seq<Track>)
    requires Valid(first) && Valid(second) && first.kind.Move? && second.kind.Move?
    requires first.index <= |tracks| && second.index <= |tracks| && DistinctTracks(tracks)
    ensures OrderedEdits([first, second]) == [first, second]
    ensures LandsWhereChecked([first, second], 1, tracks)
            <==> OutsideMove(first, |tracks|, second.index - 1) || first.index - 1 == TargetOf(first, |tracks|)
  {
    var edits, at := [first, second], second.index - 1;
    TwoMoves(first, second);
    LandsExactly(edits, edits, tracks, 1);
    var earlier := edits[..1];
    var none := earlier[1..];
    assert none == [] && Origin(none, |tracks|, at) == at;
    assert Origin(earlier, |tracks|, at) == Before(first, |tracks|, at);
  }

  lemma TwoMoves(first: TrackEdit, second: TrackEdit)
    requires first.kind.Move? && second.kind.Move?
    ensures OrderedEdits([first, second]) == [first, second]
  {
    var edits := [first, second];
    var tail := edits[1..];
    var none := tail[1..];
    assert tail == [second] && none == [];
    assert Kept(none, true) == [] && Kept(none, false) == [];
    assert Kept(tail, true) == [second] && Kept(tail, false) == [];
    assert Kept(edits, true) == [first, second] && Kept(edits, false) == [];
  }

  /** A plan never loses or duplicates a track. */
  lemma {:induction false} PlanPermutes(edits: seq<TrackEdit>, tracks: seq<Track>)
    ensures multiset(Ids(ApplyAll(edits, tracks))) == multiset(Ids(tracks))
    decreases |edits|
  {
    if edits != [] {
      var e := edits[0];
      if 1 <= e.index <= |tracks| {
        StepPermutes(tracks, e.index - 1, ApplyLua(e));
        PlanPermutes(edits[1..], Perform(tracks, e.index - 1, ApplyLua(e)));
      } else {
        PlanPermutes(edits[1..], tracks);
      }
    }
  }

  lemma StepPermutes(tracks: seq<Track>, at: nat, change: Change)
    requires at < |tracks|
    ensures multiset(Ids(Perform(tracks, at, change))) == multiset(Ids(tracks))
  {
    if change.ReorderBefore? {
      var to := ReorderTarget(|tracks|, at, change.before);
      MovePermutesIds(tracks, at, to);
    } else {
      assert Ids(Perform(tracks, at, change)) == Ids(tracks);
    }
  }

  lemma MovePermutesIds(tracks: seq<Track>, from: nat, to: nat)
    requires from < |tracks| && to < |tracks|
    ensures multiset(Ids(MoveTo(tracks, from, to))) == multiset(Ids(tracks))
  {
    var ids := Ids(tracks);
    var rest := ids[..from] + ids[from + 1..];
    IdsOfMove(tracks, from, to);
    PutBack(rest, to, ids[from]);
    PutBack(rest, from, ids[from]);
    TakenOut(ids, from);
  }

  lemma TakenOut(ids: seq<nat>, at: nat)
    requires at < |ids|
    ensures var rest := ids[..at] + ids[at + 1..]; rest[..at] + [ids[at]] + rest[at..] == ids
  {
  }

  lemma IdsOfMove(tracks: seq<Track>, from: nat, to: nat)
    requires from < |tracks| && to < |tracks|
    ensures var ids := Ids(tracks);
            var rest := ids[..from] + ids[from + 1..];
            Ids(MoveTo(tracks, from, to)) == rest[..to] + [ids[from]] + rest[to..]
  {
    var ids, others := Ids(tracks), RemoveAt(tracks, from);
    assert Ids(others) == ids[..from] + ids[from + 1..];
    assert MoveTo(tracks, from, to) == others[..to] + [tracks[from]] + others[to..];
  }

  lemma PutBack(rest: seq<nat>, at: nat, id: nat)
    requires at <= |rest|
    ensures multiset(rest[..at] + [id] + rest[at..]) == multiset(rest) + multiset{id}
  {
    assert rest == rest[..at] + rest[at..];
  }

  /* ---- What the guards of a plan see ---- */

  function Named(id: nat, name: string): Track {
    Track(id, name, 0, 0, 0, 0, 0)
  }

  function MoveEdit(index: int, expectedName: string, newIndex: int): TrackEdit {
    TrackEdit(Move, index, expectedName, "", 0, false, newIndex)
  }

  /** A later guard does not see an earlier move of the plan: two moves that would both pass when run
      one after the other are refused as a plan, and two that name the same position are accepted
      although the second then moves another track. */
  lemma GuardsSeeTheOriginalList()
    ensures var tracks := [Named(1, "A"), Named(2, "B"), Named(3, "C")];
            var away, other, again := MoveEdit(1, "A", 3), MoveEdit(1, "B", 2), MoveEdit(1, "A", 2);
            && !Refused(away, tracks) && !Refused(other, Applied(away, tracks))
            && Failed(OrderedEdits([away, other]), tracks) == [1]
            && Failed(OrderedEdits([away, again]), tracks) == []
            && !LandsWhereChecked(OrderedEdits([away, again]), 1, tracks)
  {
    var tracks := [Named(1, "A"), Named(2, "B"), Named(3, "C")];
    var away, other, again := MoveEdit(1, "A", 3), MoveEdit(1, "B", 2), MoveEdit(1, "A", 2);
    MoveIsMoveTo(away, tracks);
    assert MoveTo(tracks, 0, 2) == [Named(2, "B"), Named(3, "C"), Named(1, "A")];
    SecondMoveLandsExactly(away, again, tracks);
    TwoMoves(away, other);
    FailedOfTwo(away, other, tracks);
    FailedOfTwo(away, again, tracks);
  }

  lemma FailedOfTwo(first: TrackEdit, second: TrackEdit, tracks: seq<Track>)
    ensures Failed([first, second], tracks)
            == (if GuardHolds(first, tracks) then [] else [first.index])
               + (if GuardHolds(second, tracks) then [] else [second.index])
  {
    var edits := [first, second];
    var tail := edits[1..];
    var none := tail[1..];
    assert tail == [second] && Failed(none, tracks) == [];
    assert Failed(tail, tracks) == if GuardHolds(second, tracks) then [] else [second.index];
  }
}
