/** The store itself: what its operations read, and what they leave behind when they stop after any write
    (internal/reaper/tidy_artifacts.go:60-318, internal/reaper/tidy_reports.go:41-172). */
module TidyArtifactStore {
  import opened Text
  import opened TidyPlans
  import opened TidySelection
  import opened TidySurvey
  import opened TidyArtifacts
  import opened TidyStore

  datatype Lookup = Nothing | Found(stored: Stored) | Unavailable

  ghost predicate IsRecord(env: Rendering, files: Files, r: Record) {
    exists id :: RecordAt(env, files, id) == Some(r)
  }

  ghost predicate DistinctRecords(records: seq<Record>) {
    forall i, j :: 0 <= i < j < |records| ==> records[i].proposalId != records[j].proposalId
  }

  ghost predicate Lists(env: Rendering, files: Files, records: seq<Record>) {
    && (forall r :: r in records <==> IsRecord(env, files, r))
    && DistinctRecords(records)
  }

  /** A stored record under another id than the new one. */
  ghost predicate IsOther(env: Rendering, files: Files, r: Record, newId: string) {
    RecordAt(env, files, r.proposalId) == Some(r) && r.proposalId != newId
  }

  /** An open record that has not given way and that no write can change. */
  ghost predicate StopsAt(env: Rendering, r: Record, newId: string, done: set<string>, writesLeft: nat) {
    && r.status.Open? && r.proposalId !in done
    && (writesLeft == 0 || !CanWriteRecord(env, Moved(r, Superseded, newId)))
  }

  /** The write that gives one record the status "superseded". */
  ghost function GiveWay(files: Files, r: Record, newId: string): Files {
    files[StateFile(r.proposalId) := RecordContent(Moved(r, Superseded, newId))]
  }

  ghost predicate StopsAmong(env: Rendering, records: seq<Record>, newId: string, done: set<string>, writesLeft: nat) {
    exists r :: r in records && StopsAt(env, r, newId, done, writesLeft)
  }

  lemma StopsHere(env: Rendering, records: seq<Record>, i: nat, newId: string, done: set<string>, writesLeft: nat)
    requires i < |records| && StopsAt(env, records[i], newId, done, writesLeft)
    ensures StopsAmong(env, records, newId, done, writesLeft)
  {
  }

  /** The open records among the first n, and none of the others, have given way. */
  ghost predicate Swept(records: seq<Record>, n: nat, done: set<string>)
    requires n <= |records|
  {
    && (forall k :: n <= k < |records| ==> records[k].proposalId !in done)
    && forall k :: 0 <= k < n && records[k].status.Open? ==> records[k].proposalId in done
  }

  lemma SweptStep(records: seq<Record>, n: nat, done: set<string>)
    requires n < |records| && DistinctRecords(records) && Swept(records, n, done)
    ensures records[n].proposalId !in done
    ensures Swept(records, n + 1, if records[n].status.Open? then done + {records[n].proposalId} else done)
  {
  }

  /** Every other record is older. */
  ghost predicate IsLatest(env: Rendering, files: Files, r: Record) {
    && IsRecord(env, files, r)
    && forall o :: IsRecord(env, files, o) && o != r ==> Before(o, r)
  }

  /** No record was made later, and of those made at the same time none has a greater id. */
  ghost predicate MadeLast(env: Rendering, files: Files, r: Record) {
    && IsRecord(env, files, r)
    && forall o :: IsRecord(env, files, o) ==>
         o.createdAt < r.createdAt || (o.createdAt == r.createdAt && (o == r || Less(o.proposalId, r.proposalId)))
  }

  /** The latest record is the one made last. */
  lemma LatestIsMadeLast(env: Rendering, files: Files, r: Record)
    ensures IsLatest(env, files, r) <==> MadeLast(env, files, r)
  {
  }

  /** What being newest asks, on times and ids. */
  lemma NewestMeans(env: Rendering, files: Files, id: string, createdAt: Time)
    ensures NewestOf(env, files, id, createdAt)
            <==> forall r :: IsRecord(env, files, r) ==>
                   && r.proposalId != id
                   && (r.createdAt < createdAt || (r.createdAt == createdAt && Less(r.proposalId, id)))
  {
    if forall r :: IsRecord(env, files, r) ==>
         r.proposalId != id && (r.createdAt < createdAt || (r.createdAt == createdAt && Less(r.proposalId, id))) {
      forall other | RecordAt(env, files, other).Some?
        ensures var r := RecordAt(env, files, other).value;
                r.proposalId != id && OrderBefore(r.createdAt, r.proposalId, createdAt, id)
      {
        assert IsRecord(env, files, RecordAt(env, files, other).value);
      }
    }
  }

  /** A proposal made after every record is newer than all of them. */
  lemma LaterIsNewest(env: Rendering, files: Files, id: string, createdAt: Time)
    requires Named(env, files) && StateFile(id) !in files
    requires forall r :: IsRecord(env, files, r) ==> r.createdAt < createdAt
    ensures NewestOf(env, files, id, createdAt)
  {
    forall other | RecordAt(env, files, other).Some?
      ensures var r := RecordAt(env, files, other).value;
              r.proposalId != id && OrderBefore(r.createdAt, r.proposalId, createdAt, id)
    {
      assert IsRecord(env, files, RecordAt(env, files, other).value);
      assert StateFile(other) in files;
    }
  }

  /** So its time is never the reason to refuse it. */
  lemma LaterIsAcceptable(env: Rendering, files: Files, p: Proposal, createdAt: Time)
    requires Named(env, files) && Listable(env, files)
    requires ValidId(p.proposalId) && createdAt != ZERO_TIME && ValidProposal(p)
    requires StateFile(p.proposalId) !in files && SummaryFile(p.proposalId) !in files && PlanFile(p.proposalId) !in files
    requires forall r :: IsRecord(env, files, r) ==> r.createdAt < createdAt
    ensures Acceptable(env, files, p, createdAt)
  {
    LaterIsNewest(env, files, p.proposalId, createdAt);
  }

  ghost predicate Sorted(records: seq<Record>) {
    forall i, j :: 0 <= i < j < |records| ==> Before(records[i], records[j])
  }

  /** Sorting records by time, then id, with an insertion for each. */
  method SortRecords(records: seq<Record>) returns (sorted: seq<Record>)
    requires DistinctRecords(records)
    ensures Sorted(sorted) && forall r :: r in sorted <==> r in records
  {
    sorted := [];
    for i := 0 to |records|
      invariant Sorted(sorted) && forall r :: r in sorted <==> r in records[..i]
    {
      var r := records[i];
      forall o | o in sorted ensures o.proposalId != r.proposalId {
        var k :| 0 <= k < i && records[k] == o;
      }
      sorted := InsertRecord(sorted, r);
      assert records[..i + 1] == records[..i] + [r];
    }
    assert records[..|records|] == records;
  }

  method InsertRecord(sorted: seq<Record>, r: Record) returns (longer: seq<Record>)
    requires Sorted(sorted) && forall o :: o in sorted ==> o.proposalId != r.proposalId
    ensures Sorted(longer) && forall o :: o in longer <==> o in sorted || o == r
  {
    var at := 0;
    while at < |sorted| && Before(sorted[at], r)
      invariant 0 <= at <= |sorted| && forall k :: 0 <= k < at ==> Before(sorted[k], r)
    {
      at := at + 1;
    }
    longer := sorted[..at] + [r] + sorted[at..];
    assert sorted == sorted[..at] + sorted[at..];
    BeforeRest(sorted, r, at);
    SortedWith(sorted, r, at);
  }

  lemma BeforeRest(sorted: seq<Record>, r: Record, at: nat)
    requires Sorted(sorted) && at <= |sorted| && forall o :: o in sorted ==> o.proposalId != r.proposalId
    requires at < |sorted| ==> !Before(sorted[at], r)
    ensures forall k :: at <= k < |sorted| ==> Before(r, sorted[k])
  {
    forall k | at <= k < |sorted| ensures Before(r, sorted[k]) {
      assert sorted[at] in sorted;
      BeforeTotal(r, sorted[at]);
      if k > at {
        BeforeTransitive(r, sorted[at], sorted[k]);
      }
    }
  }

  lemma SortedWith(sorted: seq<Record>, r: Record, at: nat)
    requires Sorted(sorted) && at <= |sorted|
    requires forall k :: 0 <= k < at ==> Before(sorted[k], r)
    requires forall k :: at <= k < |sorted| ==> Before(r, sorted[k])
    ensures Sorted(sorted[..at] + [r] + sorted[at..])
  {
  }

  class TidyArtifactStore {
    const env: Rendering
    var files: Files
    /** How many more writes succeed. */
    var writesLeft: nat

    ghost predicate Valid()
      reads this
    {
      Named(env, files)
    }

    constructor (env: Rendering, writesLeft: nat)
      ensures Valid() && this.env == env && files == map[] && this.writesLeft == writesLeft
    {
      this.env, this.files, this.writesLeft := env, map[], writesLeft;
    }

    method Put(f: File, content: Content) returns (ok: bool)
      modifies this
      ensures ok <==> old(writesLeft) > 0
      ensures files == if ok then old(files)[f := content] else old(files)
      ensures writesLeft == if ok then old(writesLeft) - 1 else old(writesLeft)
    {
      ok := writesLeft > 0;
      if ok {
        files, writesLeft := files[f := content], writesLeft - 1;
      }
    }

    /* ---- Reading ---- */

    method ReadRecord(id: string) returns (record: Option<Record>)
      ensures record == RecordAt(env, files, id)
    {
      var content := ReadBounded(env, files, StateFile(id));
      if content.None? || !content.value.RecordContent? {
        return None;
      }
      var ok := ValidateRecord(content.value.record);
      return if ok then Some(content.value.record) else None;
    }

    method LoadRecordArtifacts(record: Record) returns (stored: Option<Stored>)
      ensures stored == Loaded(env, files, record)
    {
      var summary := TextAt(env, files, record.summaryFile);
      if summary.None? {
        return None;
      }
      if record.planFile.None? {
        return Some(Stored(record, None, summary.value));
      }
      var content := ReadBounded(env, files, record.planFile.value);
      if content.None? || !content.value.PlanContent? {
        return None;
      }
      var plan := content.value.plan;
      var planOk := ValidatePlan(plan);
      if !planOk || plan.planId != record.proposalId || |plan.items| != |record.items| {
        return None;
      }
      for index := 0 to |plan.items|
        invariant forall i :: 0 <= i < index ==>
                    plan.items[i].id == record.items[i].itemId && plan.items[i].reason == record.items[i].reason
      {
        if plan.items[index].id != record.items[index].itemId || plan.items[index].reason != record.items[index].reason {
          return None;
        }
      }
      return Some(Stored(record, Some(plan), summary.value));
    }

    method ReadProposal(id: string) returns (stored: Option<Stored>)
      ensures stored == ProposalAt(env, files, id)
    {
      if !ValidId(id) {
        return None;
      }
      var record := ReadRecord(id);
      if record.None? || record.value.proposalId != id {
        return None;
      }
      stored := LoadRecordArtifacts(record.value);
    }

    /** The records in some order; none when a record file cannot be read. */
    method ListRecords() returns (records: Option<seq<Record>>)
      requires Valid()
      ensures records.Some? <==> Listable(env, files)
      ensures records.Some? ==> Lists(env, files, records.value)
    {
      var listed: seq<Record> := [];
      var todo := files.Keys;
      while todo != {}
        invariant todo <= files.Keys
        invariant forall id :: StateFile(id) in files && StateFile(id) !in todo ==>
                    RecordAt(env, files, id).Some? && RecordAt(env, files, id).value in listed
        invariant forall r :: r in listed ==> StateFile(r.proposalId) !in todo && RecordAt(env, files, r.proposalId) == Some(r)
        invariant forall i, j :: 0 <= i < j < |listed| ==> listed[i].proposalId != listed[j].proposalId
        decreases todo
      {
        var f :| f in todo;
        todo := todo - {f};
        if f.StateFile? {
          var record := ReadRecord(f.id);
          if record.None? {
            return None;
          }
          listed := listed + [record.value];
        }
      }
      forall r ensures r in listed <==> IsRecord(env, files, r) {
      }
      return Some(listed);
    }

    method LatestProposal() returns (latest: Lookup)
      requires Valid()
      ensures !Listable(env, files) ==> latest == Unavailable
      ensures Listable(env, files) && (forall id :: StateFile(id) !in files) ==> latest == Nothing
      ensures forall r :: Listable(env, files) && IsLatest(env, files, r) ==>
                latest == match Loaded(env, files, r) case Some(stored) => Found(stored) case None => Unavailable
      ensures latest.Found? ==> IsLatest(env, files, latest.stored.record) && MadeLast(env, files, latest.stored.record)
    {
      var records := ListRecords();
      if records.None? {
        return Unavailable;
      }
      if |records.value| == 0 {
        return Nothing;
      }
      var sorted := SortRecords(records.value);
      LastIsLatest(env, files, records.value, sorted);
      LatestIsMadeLast(env, files, sorted[|sorted| - 1]);
      var stored := LoadRecordArtifacts(sorted[|sorted| - 1]);
      return if stored.Some? then Found(stored.value) else Unavailable;
    }

    method OpenProposal() returns (open: Lookup)
      requires Valid()
      ensures open.Found? ==> IsLatest(env, files, open.stored.record) && open.stored.record.status.Open?
      ensures forall r :: Listable(env, files) && IsLatest(env, files, r) && Loaded(env, files, r).Some? ==>
                open == if r.status.Open? then Found(Loaded(env, files, r).value) else Nothing
    {
      var latest := LatestProposal();
      if latest.Found? && !latest.stored.record.status.Open? {
        return Nothing;
      }
      return latest;
    }

    method LoadApplyReport(record: ReportRecord) returns (report: Option<StoredReport>)
      ensures report == LoadedReport(env, files, record)
    {
      var content := ReadBounded(env, files, record.resultFile);
      if content.None? || !content.value.ResultContent? {
        return None;
      }
      var result := content.value.result;
      var resultOk := ValidateResult(result);
      if !resultOk || result.planId != record.proposalId || |result.items| != |record.items| {
        return None;
      }
      for index := 0 to |result.items|
        invariant forall i :: 0 <= i < index ==> result.items[i] == record.items[i]
      {
        if result.items[index] != record.items[index] {
          return None;
        }
      }
      assert result.items == record.items;
      var markdown := TextAt(env, files, record.markdownFile);
      if markdown.None? || !Contains(markdown.value, UNDO_SENTENCE) {
        return None;
      }
      return Some(StoredReport(record, result, markdown.value));
    }

    method ReadApplyReport(id: string) returns (report: Option<StoredReport>)
      ensures report == if !ValidId(id) || ReportRecordAt(env, files, id).None?
                           || ReportRecordAt(env, files, id).value.proposalId != id then None
                        else LoadedReport(env, files, ReportRecordAt(env, files, id).value)
    {
      if !ValidId(id) {
        return None;
      }
      var content := ReadBounded(env, files, ReportStateFile(id));
      if content.None? || !content.value.ReportContent? {
        return None;
      }
      var ok := ValidateReport(content.value.report);
      if !ok || content.value.report.proposalId != id {
        return None;
      }
      report := LoadApplyReport(content.value.report);
    }

    /* ---- Writing ---- */

    method WriteRecord(r: Record) returns (ok: bool)
      modifies this
      ensures ok <==> CanWriteRecord(env, r) && old(writesLeft) > 0
      ensures files == if ok then old(files)[StateFile(r.proposalId) := RecordContent(r)] else old(files)
      ensures writesLeft == if ok then old(writesLeft) - 1 else old(writesLeft)
    {
      var valid := ValidateRecord(r);
      if !valid || !Fits(env, StateFile(r.proposalId), RecordContent(r)) {
        return false;
      }
      ok := Put(StateFile(r.proposalId), RecordContent(r));
    }

    method DismissProposal(id: string) returns (ok: bool)
      modifies this
      ensures WasDismissed(env, old(files), id, files, ok)
      ensures ok <==> CanDismiss(env, old(files), id) && old(writesLeft) > 0
      ensures old(Valid()) ==> Valid()
    {
      ghost var before := files;
      var stored := ReadProposal(id);
      if stored.None? || !stored.value.record.status.Open? {
        return false;
      }
      ProposalHasRecord(env, files, id);
      ok := WriteRecord(stored.value.record.(status := Dismissed));
      if Named(env, before) {
        NamedAfterDismissal(env, before, id, files, ok);
      }
    }

    method ValidateSurveyProposal(p: Proposal) returns (ok: bool)
      ensures ok <==> ValidProposal(p)
    {
      if p.alreadyTidy {
        return p.plan.None? && |p.lines| == 0;
      }
      if p.plan.None? || p.plan.value.planId != p.proposalId {
        return false;
      }
      var planOk := ValidatePlan(p.plan.value);
      if !planOk || |p.lines| != |p.plan.value.items| {
        return false;
      }
      for index := 0 to |p.lines|
        invariant forall i :: 0 <= i < index ==> LineFor(p.lines[i], p.plan.value.items[i])
      {
        if !LineFor(p.lines[index], p.plan.value.items[index]) {
          return false;
        }
      }
      return true;
    }

    method IsNewest(records: seq<Record>, id: string, createdAt: Time) returns (newest: bool)
      requires Valid() && Lists(env, files, records)
      ensures newest <==> NewestOf(env, files, id, createdAt)
    {
      for i := 0 to |records|
        invariant forall k :: 0 <= k < i ==> records[k].proposalId != id
        invariant forall k :: 0 <= k < i ==> OrderBefore(records[k].createdAt, records[k].proposalId, createdAt, id)
      {
        var r := records[i];
        if r.proposalId == id || !OrderBefore(r.createdAt, r.proposalId, createdAt, id) {
          assert r in records;
          return false;
        }
      }
      forall other | RecordAt(env, files, other).Some?
        ensures RecordAt(env, files, other).value in records
      {
        assert IsRecord(env, files, RecordAt(env, files, other).value);
      }
      return true;
    }

    method WriteProposal(p: Proposal, createdAt: Time) returns (stored: Option<Stored>)
      requires Valid()
      modifies this
      ensures Proposed(env, old(files), p, createdAt, files, stored.Some?)
      ensures stored.Some? <==> CanPropose(env, old(files), p, createdAt)
                                && old(writesLeft) >= ProposalWrites(env, old(files), p)
      ensures stored.Some? ==> stored.value == Stored(NewRecord(p, createdAt), p.plan, env.summaryText(p, createdAt))
      ensures Valid()
    {
      ghost var before := files;
      var validProposal := ValidateSurveyProposal(p);
      if !ValidId(p.proposalId) || createdAt == ZERO_TIME || !validProposal {
        return None;
      }
      var records := ListRecords();
      if records.None? {
        return None;
      }
      var newest := IsNewest(records.value, p.proposalId, createdAt);
      if !newest || StateFile(p.proposalId) in files || SummaryFile(p.proposalId) in files || PlanFile(p.proposalId) in files {
        return None;
      }
      stored := WriteProposalFiles(p, createdAt, records.value);
      NamedAfterProposal(env, before, p, createdAt, files, stored.Some?);
    }

    method WriteProposalFiles(p: Proposal, createdAt: Time, records: seq<Record>) returns (stored: Option<Stored>)
      requires Valid() && Acceptable(env, files, p, createdAt) && Lists(env, files, records)
      modifies this
      ensures Proposed(env, old(files), p, createdAt, files, stored.Some?)
      ensures stored.Some? <==> CanPropose(env, old(files), p, createdAt)
                                && old(writesLeft) >= ProposalWrites(env, old(files), p)
      ensures stored.Some? ==> stored.value == Stored(NewRecord(p, createdAt), p.plan, env.summaryText(p, createdAt))
    {
      ghost var before := files;
      var record := NewRecord(p, createdAt);
      if !p.alreadyTidy {
        var plan := PlanContent(p.plan.value);
        if !Fits(env, PlanFile(p.proposalId), plan) {
          return None;
        }
        var ok := Put(PlanFile(p.proposalId), plan);
        if !ok {
          return None;
        }
      }
      assert files == WithPlan(before, p);
      var summary := env.summaryText(p, createdAt);
      if !Fits(env, SummaryFile(p.proposalId), TextContent(summary)) {
        return None;
      }
      var ok := Put(SummaryFile(p.proposalId), TextContent(summary));
      if !ok {
        return None;
      }
      ok := WriteRecord(record);
      if !ok {
        return None;
      }
      ok := Supersede(records, before, p, createdAt);
      return if ok then Some(Stored(record, p.plan, summary)) else None;
    }

    method SupersedeOne(previous: Record, newId: string) returns (ok: bool)
      modifies this
      ensures !previous.status.Open? ==> ok && files == old(files) && writesLeft == old(writesLeft)
      ensures previous.status.Open? ==>
                && (ok <==> CanWriteRecord(env, Moved(previous, Superseded, newId)) && old(writesLeft) > 0)
                && files == (if ok then GiveWay(old(files), previous, newId) else old(files))
                && writesLeft == if ok then old(writesLeft) - 1 else old(writesLeft)
    {
      if !previous.status.Open? {
        return true;
      }
      ok := WriteRecord(previous.(status := Superseded, supersededBy := newId));
    }

    /** Gives the open records among these the status "superseded", one write each. */
    method SupersedeAll(records: seq<Record>, newId: string) returns (complete: bool, ghost done: set<string>)
      requires DistinctRecords(records)
      requires forall k :: 0 <= k < |records| ==> IsOther(env, files, records[k], newId)
      modifies this
      ensures GaveWay(env, old(files), files, done, newId)
      ensures complete ==> Swept(records, |records|, done)
      ensures writesLeft + |done| == old(writesLeft)
      ensures !complete ==> StopsAmong(env, records, newId, done, writesLeft)
    {
      ghost var base, start := files, writesLeft;
      done := {};
      for i := 0 to |records|
        invariant GaveWay(env, base, files, done, newId)
        invariant Swept(records, i, done)
        invariant writesLeft + |done| == start
      {
        ghost var was := files;
        complete := SupersedeOne(records[i], newId);
        if !complete {
          SweptStep(records, i, done);
          StopsHere(env, records, i, newId, done, writesLeft);
          return;
        }
        done := GaveWayNext(env, base, was, done, newId, records, i, files);
      }
      complete := true;
    }

    method Supersede(records: seq<Record>, ghost before: Files, p: Proposal, createdAt: Time) returns (complete: bool)
      requires Acceptable(env, before, p, createdAt) && Named(env, before) && Lists(env, before, records)
      requires CanWriteRecord(env, NewRecord(p, createdAt)) && files == WithRecord(env, before, p, createdAt)
      modifies this
      ensures RecordProposed(env, before, p, createdAt, files, complete)
      ensures complete <==> AllCanGiveWay(env, before, p.proposalId) && old(writesLeft) >= |OpenIds(env, before)|
    {
      forall k | 0 <= k < |records|
        ensures IsOther(env, files, records[k], p.proposalId)
      {
        OldRecord(env, before, p, createdAt, records, k);
      }
      ghost var done;
      complete, done := SupersedeAll(records, p.proposalId);
      if complete {
        AllGaveWay(env, before, records, done);
      }
      GaveWayOnlyOpen(env, before, p, createdAt, files, done);
      if complete {
        assert OpenIds(env, before) == done;
      } else {
        StoppedEarly(env, before, records, p.proposalId, done, writesLeft);
      }
      assert GaveWayTo(env, before, p, createdAt, files, complete, done);
    }

    method WriteApplyReport(id: string, result: ApplyResult, createdAt: Time) returns (report: Option<StoredReport>)
      modifies this
      ensures Reported(env, old(files), id, result, createdAt, files, report.Some?)
      ensures report.Some? <==> CanWriteReport(env, old(files), id, result, createdAt) && old(writesLeft) >= 4
      ensures report.Some? ==> report.value.record == NewReport(id, result, createdAt) && report.value.result == result
      ensures old(Valid()) ==> Valid()
    {
      ghost var before := files;
      var resultOk := ValidateResult(result);
      if !ValidId(id) || createdAt == ZERO_TIME || !resultOk || result.planId != id {
        return None;
      }
      var proposal := ReadProposal(id);
      if proposal.None? || !proposal.value.record.status.Open? || proposal.value.plan.None? {
        return None;
      }
      var bound := ValidateAgainstPlanSubset(result, proposal.value.plan.value);
      if !bound {
        return None;
      }
      var outcome := TidyReportOutcome(result.items);
      var record := NewReport(id, result, createdAt);
      if ResultFile(id) in files || ReportFile(id) in files || ReportStateFile(id) in files {
        return None;
      }
      report := WriteReportFiles(id, result, createdAt, proposal.value, record);
      if Named(env, before) {
        NamedAfterReport(env, before, id, result, createdAt, files, report.Some?);
      }
    }

    method WriteReportFiles(id: string, result: ApplyResult, createdAt: Time, proposal: Stored, record: ReportRecord)
      returns (report: Option<StoredReport>)
      requires Reportable(env, files, id, result, createdAt)
      requires Some(proposal) == ProposalAt(env, files, id) && record == NewReport(id, result, createdAt)
      modifies this
      ensures Reported(env, old(files), id, result, createdAt, files, report.Some?)
      ensures report.Some? <==> CanReport(env, old(files), id, result, createdAt, 4) && old(writesLeft) >= 4
      ensures report.Some? ==> report.value.record == record && report.value.result == result
    {
      ghost var before := files;
      ghost var n := 0;
      report := None;
      var markdown := env.reportBody(proposal, record) + (UNDO_SENTENCE + "\n");
      var moved := proposal.record.(status := StatusFor(record.outcome));
      var ok := Fits(env, ResultFile(id), ResultContent(result));
      if ok {
        ok := Put(ResultFile(id), ResultContent(result));
        n := if ok then 1 else 0;
      }
      assert ReportedUpTo(env, before, id, result, createdAt, files, false, n);
      if !ok || !Fits(env, ReportFile(id), TextContent(markdown)) {
        return;
      }
      ok := Put(ReportFile(id), TextContent(markdown));
      assert ReportedUpTo(env, before, id, result, createdAt, files, false, if ok then 2 else 1);
      if !ok {
        return;
      }
      ProposalHasRecord(env, before, id);
      ok := WriteRecord(moved);
      assert ReportedUpTo(env, before, id, result, createdAt, files, false, if ok then 3 else 2);
      if !ok {
        return;
      }
      NewReportValid(id, result, createdAt);
      if !Fits(env, ReportStateFile(id), ReportContent(record)) {
        return;
      }
      ok := Put(ReportStateFile(id), ReportContent(record));
      assert ReportedUpTo(env, before, id, result, createdAt, files, ok, if ok then 4 else 3);
      if ok {
        report := Some(StoredReport(record, result, markdown));
      }
    }
  }

  lemma GaveWayNext(env: Rendering, base: Files, was: Files, before: set<string>, newId: string, records: seq<Record>,
                    i: nat, now: Files)
    returns (done: set<string>)
    requires i < |records| && DistinctRecords(records) && IsOther(env, base, records[i], newId)
    requires GaveWay(env, base, was, before, newId) && Swept(records, i, before)
    requires if records[i].status.Open? then
               CanWriteRecord(env, Moved(records[i], Superseded, newId)) && now == GiveWay(was, records[i], newId)
             else now == was
    ensures GaveWay(env, base, now, done, newId) && Swept(records, i + 1, done)
    ensures |done| == |before| + if records[i].status.Open? then 1 else 0
  {
    SweptStep(records, i, before);
    done := before;
    if records[i].status.Open? {
      GaveWayMore(env, base, was, before, newId, records[i], now);
      done := before + {records[i].proposalId};
    }
  }

  lemma GaveWayMore(env: Rendering, base: Files, was: Files, done: set<string>, newId: string, r: Record, now: Files)
    requires GaveWay(env, base, was, done, newId) && r.proposalId !in done && r.proposalId != newId
    requires RecordAt(env, base, r.proposalId) == Some(r) && r.status.Open?
    requires CanWriteRecord(env, Moved(r, Superseded, newId))
    requires now == GiveWay(was, r, newId)
    ensures GaveWay(env, base, now, done + {r.proposalId}, newId)
  {
    assert StateFile(r.proposalId) in base;
  }

  lemma AllGaveWay(env: Rendering, before: Files, records: seq<Record>, done: set<string>)
    requires Named(env, before) && Lists(env, before, records)
    requires forall k :: 0 <= k < |records| && records[k].status.Open? ==> records[k].proposalId in done
    ensures forall id :: IsOpen(env, before, id) ==> id in done
  {
    forall id | IsOpen(env, before, id) ensures id in done {
      assert IsRecord(env, before, RecordAt(env, before, id).value);
    }
  }

  lemma OpenSubset(env: Rendering, files: Files, done: set<string>)
    requires forall id :: id in done ==> IsOpen(env, files, id)
    ensures done <= OpenIds(env, files) && |done| <= |OpenIds(env, files)|
  {
    forall id | id in done ensures id in OpenIds(env, files) {
      assert StateFile(id) in files;
    }
    SubsetSize(done, OpenIds(env, files));
  }

  lemma {:induction false} SubsetSize(a: set<string>, b: set<string>)
    requires a <= b
    ensures |a| <= |b|
    decreases a
  {
    if a != {} {
      var x :| x in a;
      SubsetSize(a - {x}, b - {x});
    }
  }

  lemma GaveWayOnlyOpen(env: Rendering, before: Files, p: Proposal, createdAt: Time, after: Files, done: set<string>)
    requires Acceptable(env, before, p, createdAt)
    requires GaveWay(env, WithRecord(env, before, p, createdAt), after, done, p.proposalId)
    ensures forall id :: id in done ==>
              && IsOpen(env, before, id)
              && CanWriteRecord(env, Moved(RecordAt(env, before, id).value, Superseded, p.proposalId))
    ensures done <= OpenIds(env, before) && |done| <= |OpenIds(env, before)|
  {
    forall id | id in done
      ensures RecordAt(env, before, id) == RecordAt(env, WithRecord(env, before, p, createdAt), id)
    {
      assert id != p.proposalId;
    }
    OpenSubset(env, before, done);
  }

  lemma ListedRecord(env: Rendering, before: Files, records: seq<Record>, r: Record)
    requires Named(env, before) && Lists(env, before, records) && r in records
    ensures RecordAt(env, before, r.proposalId) == Some(r)
  {
    assert IsRecord(env, before, r);
  }

  lemma StoppedEarly(env: Rendering, before: Files, records: seq<Record>, newId: string, done: set<string>, writesLeft: nat)
    requires Named(env, before) && Lists(env, before, records)
    requires forall id :: id in done ==> IsOpen(env, before, id)
    requires StopsAmong(env, records, newId, done, writesLeft)
    ensures AllCanGiveWay(env, before, newId) ==> writesLeft + |done| < |OpenIds(env, before)|
  {
    var r :| r in records && StopsAt(env, r, newId, done, writesLeft);
    ListedRecord(env, before, records, r);
    OneMoreOpen(env, before, r, newId, done, writesLeft);
  }

  lemma OneMoreOpen(env: Rendering, before: Files, r: Record, newId: string, done: set<string>, writesLeft: nat)
    requires RecordAt(env, before, r.proposalId) == Some(r) && StopsAt(env, r, newId, done, writesLeft)
    requires forall id :: id in done ==> IsOpen(env, before, id)
    ensures AllCanGiveWay(env, before, newId) ==> writesLeft + |done| < |OpenIds(env, before)|
  {
    assert IsOpen(env, before, r.proposalId);
    OpenSubset(env, before, done + {r.proposalId});
  }

  /* ---- Every operation keeps the names ---- */

  /** A record in the file named after its id. */
  ghost predicate WellNamed(f: File, content: Content) {
    && (f.StateFile? && content.RecordContent? ==> content.record.proposalId == f.id)
    && (f.ReportStateFile? && content.ReportContent? ==> content.report.proposalId == f.id)
  }

  lemma NamedStep(env: Rendering, a: Files, b: Files)
    requires Named(env, a)
    requires forall f :: f in b ==> (f in a && b[f] == a[f]) || WellNamed(f, b[f])
    ensures Named(env, b)
  {
    forall id | RecordAt(env, b, id).Some? ensures RecordAt(env, b, id).value.proposalId == id {
      RecordNamed(env, a, b, id);
    }
    forall id | ReportRecordAt(env, b, id).Some? ensures ReportRecordAt(env, b, id).value.proposalId == id {
      ReportNamed(env, a, b, id);
    }
  }

  lemma RecordNamed(env: Rendering, a: Files, b: Files, id: string)
    requires Named(env, a) && RecordAt(env, b, id).Some?
    requires StateFile(id) in b ==>
               var f := StateFile(id); (f in a && b[f] == a[f]) || WellNamed(f, b[f])
    ensures RecordAt(env, b, id).value.proposalId == id
  {
    if StateFile(id) in a && b[StateFile(id)] == a[StateFile(id)] {
      assert RecordAt(env, a, id) == RecordAt(env, b, id);
    }
  }

  lemma ReportNamed(env: Rendering, a: Files, b: Files, id: string)
    requires Named(env, a) && ReportRecordAt(env, b, id).Some?
    requires ReportStateFile(id) in b ==>
               var f := ReportStateFile(id); (f in a && b[f] == a[f]) || WellNamed(f, b[f])
    ensures ReportRecordAt(env, b, id).value.proposalId == id
  {
    if ReportStateFile(id) in a && b[ReportStateFile(id)] == a[ReportStateFile(id)] {
      assert ReportRecordAt(env, a, id) == ReportRecordAt(env, b, id);
    }
  }

  lemma NamedAfterDismissal(env: Rendering, before: Files, id: string, after: Files, complete: bool)
    requires Named(env, before) && WasDismissed(env, before, id, after, complete)
    ensures Named(env, after)
  {
    if ProposalAt(env, before, id).Some? {
      ProposalHasRecord(env, before, id);
    }
    NamedStep(env, before, after);
  }

  lemma NamedAfterGivingWay(env: Rendering, before: Files, after: Files, done: set<string>, newId: string)
    requires Named(env, before) && GaveWay(env, before, after, done, newId)
    ensures Named(env, after)
  {
    NamedStep(env, before, after);
  }

  lemma NamedWithFiles(env: Rendering, before: Files, p: Proposal, createdAt: Time)
    requires Named(env, before) && (p.alreadyTidy || p.plan.Some?)
    ensures Named(env, WithPlan(before, p)) && Named(env, WithSummary(env, before, p, createdAt))
    ensures Named(env, WithRecord(env, before, p, createdAt))
  {
    NamedStep(env, before, WithPlan(before, p));
    NamedStep(env, WithPlan(before, p), WithSummary(env, before, p, createdAt));
    NamedStep(env, WithSummary(env, before, p, createdAt), WithRecord(env, before, p, createdAt));
  }

  lemma NamedAfterProposal(env: Rendering, before: Files, p: Proposal, createdAt: Time, after: Files, complete: bool)
    requires Named(env, before) && Proposed(env, before, p, createdAt, after, complete)
    ensures Named(env, after)
  {
    if after != before {
      NamedWithFiles(env, before, p, createdAt);
      if after != WithPlan(before, p) && after != WithSummary(env, before, p, createdAt) {
        var done :| GaveWayTo(env, before, p, createdAt, after, complete, done);
        NamedAfterGivingWay(env, WithRecord(env, before, p, createdAt), after, done, p.proposalId);
      }
    }
  }

  lemma {:induction false} NamedAtStage(env: Rendering, before: Files, id: string, result: ApplyResult, createdAt: Time, n: nat)
    requires Named(env, before) && Reportable(env, before, id, result, createdAt)
    ensures Named(env, ReportStage(env, before, id, result, createdAt, n))
  {
    if n > 0 {
      NamedAtStage(env, before, id, result, createdAt, n - 1);
      ProposalHasRecord(env, before, id);
      NamedStep(env, ReportStage(env, before, id, result, createdAt, n - 1),
                ReportStage(env, before, id, result, createdAt, n));
    }
  }

  lemma NamedAfterReport(env: Rendering, before: Files, id: string, result: ApplyResult, createdAt: Time, after: Files,
                         complete: bool)
    requires Named(env, before) && Reported(env, before, id, result, createdAt, after, complete)
    ensures Named(env, after)
  {
    if after != before {
      var n :| ReportedUpTo(env, before, id, result, createdAt, after, complete, n);
      NamedAtStage(env, before, id, result, createdAt, n);
    }
  }

  lemma ProposalHasRecord(env: Rendering, files: Files, id: string)
    requires ProposalAt(env, files, id).Some?
    ensures RecordAt(env, files, id) == Some(ProposalAt(env, files, id).value.record)
    ensures ProposalAt(env, files, id).value.record.proposalId == id && ValidRecord(ProposalAt(env, files, id).value.record)
  {
  }

  lemma NewReportValid(id: string, result: ApplyResult, createdAt: Time)
    requires ValidResult(result) && result.planId == id && createdAt != ZERO_TIME
    ensures ValidReport(NewReport(id, result, createdAt))
  {
    assert ResultIn(NewReport(id, result, createdAt)) == result;
  }

  /** A listed record is in the file named after it, which the new proposal does not touch. */
  lemma OldRecord(env: Rendering, before: Files, p: Proposal, createdAt: Time, records: seq<Record>, i: nat)
    requires Acceptable(env, before, p, createdAt) && Named(env, before) && Lists(env, before, records) && i < |records|
    ensures var r := records[i];
            && RecordAt(env, before, r.proposalId) == Some(r) && r.proposalId != p.proposalId
            && RecordAt(env, WithRecord(env, before, p, createdAt), r.proposalId) == Some(r)
            && StateFile(r.proposalId) in before
  {
    var r := records[i];
    assert r in records && IsRecord(env, before, r);
  }

  lemma LastIsLatest(env: Rendering, files: Files, records: seq<Record>, sorted: seq<Record>)
    requires Lists(env, files, records) && records != [] && Sorted(sorted) && forall r :: r in sorted <==> r in records
    ensures sorted != [] && IsLatest(env, files, sorted[|sorted| - 1])
    ensures forall r :: IsLatest(env, files, r) ==> r == sorted[|sorted| - 1]
  {
    assert records[0] in sorted;
    var last := sorted[|sorted| - 1];
    assert last in sorted;
    forall o | IsRecord(env, files, o) && o != last ensures Before(o, last) {
      var k :| 0 <= k < |sorted| && sorted[k] == o;
    }
    forall r | IsLatest(env, files, r) ensures r == last {
      BeforeTotal(r, last);
    }
  }
}
