/** What the store keeps over whole runs of its operations, each of which may stop after any of its writes
    (internal/reaper/tidy_artifacts.go:60-318, internal/reaper/tidy_reports.go:41-242). */
module TidyLifecycle {
  import opened Text
  import opened TidyPlans
  import opened TidySelection
  import opened TidySurvey
  import opened TidyArtifacts
  import opened TidyStore
  import opened TidyArtifactStore

  datatype Operation = Propose(proposal: Proposal, proposedAt: Time) | Dismiss(id: string)
                     | Report(reportId: string, result: ApplyResult, reportedAt: Time)

  /** One operation, complete or stopped early. */
  ghost predicate Happened(env: Rendering, before: Files, op: Operation, after: Files, complete: bool) {
    match op
    case Propose(p, at) => Proposed(env, before, p, at, after, complete)
    case Dismiss(id) => WasDismissed(env, before, id, after, complete)
    case Report(id, result, at) => Reported(env, before, id, result, at, after, complete)
  }

  /* ---- What is kept ---- */

  ghost predicate CommittedProposal(env: Rendering, files: Files, id: string) {
    ValidId(id) && ProposalAt(env, files, id).Some?
  }

  ghost predicate CommittedReport(env: Rendering, files: Files, id: string) {
    && ReportRecordAt(env, files, id).Some? && ReportRecordAt(env, files, id).value.proposalId == id
    && LoadedReport(env, files, ReportRecordAt(env, files, id).value).Some?
    && RecordAt(env, files, id).Some?
    && RecordAt(env, files, id).value.status == StatusFor(ReportRecordAt(env, files, id).value.outcome)
    && ReportAnswersPlan(env, files, id)
  }

  /** The rows of the report answer items of the proposal's plan, in order. */
  ghost predicate ReportAnswersPlan(env: Rendering, files: Files, id: string)
    requires ReportRecordAt(env, files, id).Some? && LoadedReport(env, files, ReportRecordAt(env, files, id).value).Some?
  {
    && ProposalAt(env, files, id).Some? && ProposalAt(env, files, id).value.plan.Some?
    && BoundToSelection(LoadedReport(env, files, ReportRecordAt(env, files, id).value).value.result,
                        ProposalAt(env, files, id).value.plan.value)
  }

  /** Every proposal record has its summary, and its plan if it names one, and they agree. Every report record
      has its result and its text, its proposal has the status of the outcome, and its rows answer the plan. */
  ghost predicate Committed(env: Rendering, files: Files) {
    && (forall id :: StateFile(id) in files ==> CommittedProposal(env, files, id))
    && (forall id :: ReportStateFile(id) in files ==> CommittedReport(env, files, id))
  }

  /** A record stays as it is, except that an open one may take another status once. */
  ghost predicate Later(r: Record, s: Record) {
    s == r || (r.status.Open? && !s.status.Open? && s == Moved(r, s.status, s.supersededBy))
  }

  ghost predicate Advances(env: Rendering, a: Files, b: Files) {
    && (forall f :: f in a ==> f in b && (f.StateFile? || b[f] == a[f]))
    && (forall id :: RecordAt(env, a, id).Some? ==>
          RecordAt(env, b, id).Some? && Later(RecordAt(env, a, id).value, RecordAt(env, b, id).value))
  }

  /** The records that are new are committed. */
  ghost predicate NewCommitted(env: Rendering, a: Files, b: Files) {
    && (forall id :: StateFile(id) in b && StateFile(id) !in a ==> CommittedProposal(env, b, id))
    && (forall id :: ReportStateFile(id) in b && ReportStateFile(id) !in a ==> CommittedReport(env, b, id))
  }

  lemma LaterTransitive(r: Record, s: Record, u: Record)
    requires Later(r, s) && Later(s, u)
    ensures Later(r, u)
  {
  }

  lemma AdvancesTransitive(env: Rendering, a: Files, b: Files, c: Files)
    requires Advances(env, a, b) && Advances(env, b, c)
    ensures Advances(env, a, c)
  {
    forall id | RecordAt(env, a, id).Some?
      ensures RecordAt(env, c, id).Some? && Later(RecordAt(env, a, id).value, RecordAt(env, c, id).value)
    {
      LaterTransitive(RecordAt(env, a, id).value, RecordAt(env, b, id).value, RecordAt(env, c, id).value);
    }
  }

  lemma LoadedLater(env: Rendering, a: Files, b: Files, r: Record, s: Record)
    requires Advances(env, a, b) && Later(r, s) && ValidRecord(r) && Loaded(env, a, r).Some?
    ensures Loaded(env, b, s).Some? && Loaded(env, b, s).value.plan == Loaded(env, a, r).value.plan
  {
    assert r.summaryFile in a && b[r.summaryFile] == a[r.summaryFile];
    if r.planFile.Some? {
      assert r.planFile.value in a && b[r.planFile.value] == a[r.planFile.value];
    }
  }

  lemma ProposalStays(env: Rendering, a: Files, b: Files, id: string)
    requires Advances(env, a, b) && ProposalAt(env, a, id).Some?
    ensures ProposalAt(env, b, id).Some? && ProposalAt(env, b, id).value.plan == ProposalAt(env, a, id).value.plan
  {
    LoadedLater(env, a, b, RecordAt(env, a, id).value, RecordAt(env, b, id).value);
  }

  lemma ReportStays(env: Rendering, a: Files, b: Files, id: string)
    requires Advances(env, a, b) && CommittedReport(env, a, id)
    ensures CommittedReport(env, b, id)
  {
    var report := ReportRecordAt(env, a, id).value;
    assert b[ReportStateFile(id)] == a[ReportStateFile(id)];
    assert b[report.resultFile] == a[report.resultFile] && b[report.markdownFile] == a[report.markdownFile];
    assert LoadedReport(env, b, report) == LoadedReport(env, a, report);
    ProposalStays(env, a, b, id);
  }

  lemma StaysCommitted(env: Rendering, a: Files, b: Files)
    requires Committed(env, a) && Advances(env, a, b) && NewCommitted(env, a, b)
    ensures Committed(env, b)
  {
    forall id | StateFile(id) in b ensures CommittedProposal(env, b, id) {
      if StateFile(id) in a {
        ProposalStays(env, a, b, id);
      }
    }
    forall id | ReportStateFile(id) in b ensures CommittedReport(env, b, id) {
      if ReportStateFile(id) in a {
        ReportStays(env, a, b, id);
      }
    }
  }

  lemma CommittedIsNamed(env: Rendering, files: Files)
    requires Committed(env, files)
    ensures Named(env, files) && Listable(env, files)
  {
    forall id | RecordAt(env, files, id).Some? ensures RecordAt(env, files, id).value.proposalId == id {
      assert StateFile(id) in files;
    }
    forall id | ReportRecordAt(env, files, id).Some? ensures ReportRecordAt(env, files, id).value.proposalId == id {
      assert ReportStateFile(id) in files;
    }
    forall id | StateFile(id) in files ensures RecordAt(env, files, id).Some? {
      assert CommittedProposal(env, files, id);
    }
  }

  /* ---- Single writes ---- */

  lemma NewFile(env: Rendering, a: Files, f: File, content: Content)
    requires f !in a
    ensures Advances(env, a, a[f := content])
  {
    forall id | RecordAt(env, a, id).Some? ensures RecordAt(env, a[f := content], id) == RecordAt(env, a, id) {
      assert StateFile(id) in a;
    }
  }

  lemma NewStatus(env: Rendering, a: Files, id: string, r: Record)
    requires RecordAt(env, a, id).Some? && RecordAt(env, a, id).value.status.Open? && !r.status.Open?
    requires r == Moved(RecordAt(env, a, id).value, r.status, r.supersededBy) && CanWriteRecord(env, r)
    ensures Advances(env, a, a[StateFile(id) := RecordContent(r)])
    ensures RecordAt(env, a[StateFile(id) := RecordContent(r)], id) == Some(r)
  {
    var b := a[StateFile(id) := RecordContent(r)];
    forall other | RecordAt(env, a, other).Some? && other != id ensures RecordAt(env, b, other) == RecordAt(env, a, other) {
      assert b[StateFile(other)] == a[StateFile(other)];
    }
  }

  /* ---- WriteProposal ---- */

  lemma PlanAdvances(env: Rendering, before: Files, p: Proposal, createdAt: Time)
    requires Acceptable(env, before, p, createdAt)
    ensures Advances(env, before, WithPlan(before, p))
  {
    if !p.alreadyTidy {
      NewFile(env, before, PlanFile(p.proposalId), PlanContent(p.plan.value));
    }
  }

  lemma SummaryAdvances(env: Rendering, before: Files, p: Proposal, createdAt: Time)
    requires Acceptable(env, before, p, createdAt)
    ensures Advances(env, before, WithSummary(env, before, p, createdAt))
  {
    PlanAdvances(env, before, p, createdAt);
    NewFile(env, WithPlan(before, p), SummaryFile(p.proposalId), SummaryOf(env, p, createdAt));
    AdvancesTransitive(env, before, WithPlan(before, p), WithSummary(env, before, p, createdAt));
  }

  lemma RecordAdvances(env: Rendering, before: Files, p: Proposal, createdAt: Time)
    requires Acceptable(env, before, p, createdAt)
    ensures Advances(env, before, WithRecord(env, before, p, createdAt))
  {
    SummaryAdvances(env, before, p, createdAt);
    NewFile(env, WithSummary(env, before, p, createdAt), StateFile(p.proposalId), RecordContent(NewRecord(p, createdAt)));
    AdvancesTransitive(env, before, WithSummary(env, before, p, createdAt), WithRecord(env, before, p, createdAt));
  }

  lemma GaveWayRecord(env: Rendering, base: Files, after: Files, done: set<string>, newId: string, id: string)
    requires GaveWay(env, base, after, done, newId) && RecordAt(env, base, id).Some?
    ensures RecordAt(env, after, id) == Some(if id in done then Moved(RecordAt(env, base, id).value, Superseded, newId)
                                             else RecordAt(env, base, id).value)
  {
    assert StateFile(id) in base;
  }

  lemma GaveWayLater(env: Rendering, base: Files, after: Files, done: set<string>, newId: string, id: string)
    requires GaveWay(env, base, after, done, newId) && RecordAt(env, base, id).Some?
    ensures RecordAt(env, after, id).Some? && Later(RecordAt(env, base, id).value, RecordAt(env, after, id).value)
  {
    GaveWayRecord(env, base, after, done, newId, id);
  }

  lemma GaveWayAdvances(env: Rendering, base: Files, after: Files, done: set<string>, newId: string)
    requires GaveWay(env, base, after, done, newId)
    ensures Advances(env, base, after)
  {
    forall id | RecordAt(env, base, id).Some?
      ensures RecordAt(env, after, id).Some? && Later(RecordAt(env, base, id).value, RecordAt(env, after, id).value)
    {
      GaveWayLater(env, base, after, done, newId, id);
    }
  }

  lemma NewRecordIsAt(env: Rendering, before: Files, p: Proposal, createdAt: Time)
    requires Acceptable(env, before, p, createdAt) && CanWriteRecord(env, NewRecord(p, createdAt))
    ensures RecordAt(env, WithRecord(env, before, p, createdAt), p.proposalId) == Some(NewRecord(p, createdAt))
  {
  }

  lemma NewRecordLoads(env: Rendering, before: Files, p: Proposal, createdAt: Time)
    requires Acceptable(env, before, p, createdAt) && CanWriteRecord(env, NewRecord(p, createdAt))
    requires PlanFits(env, p) && Fits(env, SummaryFile(p.proposalId), SummaryOf(env, p, createdAt))
    ensures CommittedProposal(env, WithRecord(env, before, p, createdAt), p.proposalId)
    ensures Loaded(env, WithRecord(env, before, p, createdAt), NewRecord(p, createdAt))
            == Some(Stored(NewRecord(p, createdAt), p.plan, env.summaryText(p, createdAt)))
  {
    NewRecordIsAt(env, before, p, createdAt);
    var files, r := WithRecord(env, before, p, createdAt), NewRecord(p, createdAt);
    assert TextAt(env, files, r.summaryFile) == Some(env.summaryText(p, createdAt));
    if !p.alreadyTidy {
      assert PlanAt(env, files, r.planFile.value) == p.plan;
      assert Agrees(r, p.plan.value);
    }
  }

  /** Whatever the point at which WriteProposal stops, what was committed stays so. */
  lemma ProposedAdvances(env: Rendering, before: Files, p: Proposal, createdAt: Time, after: Files, complete: bool)
    requires Proposed(env, before, p, createdAt, after, complete)
    ensures Advances(env, before, after) && NewCommitted(env, before, after)
  {
    if after != before {
      PlanAdvances(env, before, p, createdAt);
      if after != WithPlan(before, p) {
        SummaryAdvances(env, before, p, createdAt);
        if after != WithSummary(env, before, p, createdAt) {
          RecordProposedAdvances(env, before, p, createdAt, after, complete);
        }
      }
    }
  }

  lemma OnlyOneNew(env: Rendering, before: Files, p: Proposal, createdAt: Time, after: Files)
    requires Acceptable(env, before, p, createdAt) && after.Keys == WithRecord(env, before, p, createdAt).Keys
    requires CommittedProposal(env, after, p.proposalId)
    ensures NewCommitted(env, before, after)
  {
    forall f | f in after && f !in before ensures f.id == p.proposalId && !f.ReportStateFile? {
      assert f in WithRecord(env, before, p, createdAt);
    }
  }

  lemma RecordProposedAdvances(env: Rendering, before: Files, p: Proposal, createdAt: Time, after: Files, complete: bool)
    requires Acceptable(env, before, p, createdAt) && RecordProposed(env, before, p, createdAt, after, complete)
    requires PlanFits(env, p) && Fits(env, SummaryFile(p.proposalId), SummaryOf(env, p, createdAt))
    ensures Advances(env, before, after) && NewCommitted(env, before, after)
  {
    var base := WithRecord(env, before, p, createdAt);
    var done :| GaveWayTo(env, before, p, createdAt, after, complete, done);
    RecordAdvances(env, before, p, createdAt);
    GaveWayAdvances(env, base, after, done, p.proposalId);
    AdvancesTransitive(env, before, base, after);
    NewRecordLoads(env, before, p, createdAt);
    ProposalStays(env, base, after, p.proposalId);
    OnlyOneNew(env, before, p, createdAt, after);
  }

  ghost predicate NoOtherOpen(env: Rendering, files: Files, id: string) {
    forall other :: IsOpen(env, files, other) ==> other == id
  }

  /** Once its record is written, a proposal is later than every other, even before the others give way. */
  lemma ProposedIsLatest(env: Rendering, before: Files, p: Proposal, createdAt: Time, after: Files, complete: bool, done: set<string>)
    requires Named(env, before) && Acceptable(env, before, p, createdAt) && CanWriteRecord(env, NewRecord(p, createdAt))
    requires GaveWayTo(env, before, p, createdAt, after, complete, done)
    ensures RecordAt(env, after, p.proposalId) == Some(NewRecord(p, createdAt))
    ensures IsLatest(env, after, NewRecord(p, createdAt))
    ensures complete ==> NoOtherOpen(env, after, p.proposalId)
  {
    var base, r := WithRecord(env, before, p, createdAt), NewRecord(p, createdAt);
    NewRecordIsAt(env, before, p, createdAt);
    GaveWayAdvances(env, base, after, done, p.proposalId);
    forall id | RecordAt(env, after, id).Some? && id != p.proposalId
      ensures Before(RecordAt(env, after, id).value, r) && (complete ==> !IsOpen(env, after, id))
    {
      OldRecordAfter(env, before, p, createdAt, after, done, id);
    }
    assert IsRecord(env, after, r);
  }

  lemma OldRecordAfter(env: Rendering, before: Files, p: Proposal, createdAt: Time, after: Files, done: set<string>, id: string)
    requires Named(env, before) && Acceptable(env, before, p, createdAt)
    requires GaveWay(env, WithRecord(env, before, p, createdAt), after, done, p.proposalId)
    requires RecordAt(env, after, id).Some? && id != p.proposalId
    ensures RecordAt(env, before, id).Some? && Before(RecordAt(env, before, id).value, NewRecord(p, createdAt))
    ensures RecordAt(env, after, id).value == if id in done then Moved(RecordAt(env, before, id).value, Superseded, p.proposalId)
                                              else RecordAt(env, before, id).value
  {
    var base := WithRecord(env, before, p, createdAt);
    assert StateFile(id) in base && StateFile(id) in before && base[StateFile(id)] == before[StateFile(id)];
    GaveWayAdvances(env, base, after, done, p.proposalId);
  }

  /** Even when WriteProposal stops while older proposals give way, the lookup of the latest proposal finds the
      new one with its plan and summary. */
  lemma StoppedProposalIsFound(env: Rendering, before: Files, p: Proposal, createdAt: Time, after: Files, complete: bool)
    requires Named(env, before) && Proposed(env, before, p, createdAt, after, complete) && after != before
    requires StateFile(p.proposalId) in after
    ensures IsLatest(env, after, NewRecord(p, createdAt)) && MadeLast(env, after, NewRecord(p, createdAt))
    ensures Loaded(env, after, NewRecord(p, createdAt))
            == Some(Stored(NewRecord(p, createdAt), p.plan, env.summaryText(p, createdAt)))
  {
    var base := WithRecord(env, before, p, createdAt);
    var done :| GaveWayTo(env, before, p, createdAt, after, complete, done);
    ProposedIsLatest(env, before, p, createdAt, after, complete, done);
    NewRecordLoads(env, before, p, createdAt);
    SameLoad(env, base, after, done, p.proposalId, NewRecord(p, createdAt));
  }

  lemma SameFile(env: Rendering, a: Files, b: Files, f: File)
    requires f in a && f in b && a[f] == b[f]
    ensures TextAt(env, a, f) == TextAt(env, b, f) && PlanAt(env, a, f) == PlanAt(env, b, f)
  {
  }

  lemma SameLoad(env: Rendering, base: Files, after: Files, done: set<string>, newId: string, r: Record)
    requires GaveWay(env, base, after, done, newId) && ValidRecordHead(r) && Loaded(env, base, r).Some?
    ensures Loaded(env, after, r) == Loaded(env, base, r)
  {
    assert r.summaryFile in base && !r.summaryFile.StateFile?;
    SameFile(env, base, after, r.summaryFile);
    if r.planFile.Some? {
      assert r.planFile.value in base && !r.planFile.value.StateFile?;
      SameFile(env, base, after, r.planFile.value);
    }
  }

  /* ---- DismissProposal ---- */

  lemma DismissedAdvances(env: Rendering, before: Files, id: string, after: Files, complete: bool)
    requires WasDismissed(env, before, id, after, complete)
    ensures Advances(env, before, after) && NewCommitted(env, before, after)
  {
    if after != before {
      NewStatus(env, before, id, Moved(RecordAt(env, before, id).value, Dismissed, ""));
    }
  }

  /* ---- WriteApplyReport ---- */

  /** The files written for a report so far, apart from the proposal's record. */
  lemma ReportStages(env: Rendering, before: Files, id: string, result: ApplyResult, createdAt: Time)
    requires Reportable(env, before, id, result, createdAt)
    ensures var stored, report := ProposalAt(env, before, id).value, NewReport(id, result, createdAt);
            var one := before[ResultFile(id) := ResultContent(result)];
            var two := one[ReportFile(id) := Markdown(env, stored, report)];
            var three := two[StateFile(id) := RecordContent(stored.record.(status := StatusFor(report.outcome)))];
            && ReportStage(env, before, id, result, createdAt, 0) == before
            && ReportStage(env, before, id, result, createdAt, 1) == one
            && ReportStage(env, before, id, result, createdAt, 2) == two
            && ReportStage(env, before, id, result, createdAt, 3) == three
            && ReportStage(env, before, id, result, createdAt, 4) == three[ReportStateFile(id) := ReportContent(report)]
  {
  }

  lemma PayloadAdvances(env: Rendering, before: Files, id: string, result: ApplyResult, createdAt: Time, n: nat)
    requires Reportable(env, before, id, result, createdAt) && n <= 2
    ensures Advances(env, before, ReportStage(env, before, id, result, createdAt, n))
  {
    ReportStages(env, before, id, result, createdAt);
    if n >= 1 {
      var one := before[ResultFile(id) := ResultContent(result)];
      NewFile(env, before, ResultFile(id), ResultContent(result));
      if n == 2 {
        var markdown := Markdown(env, ProposalAt(env, before, id).value, NewReport(id, result, createdAt));
        NewFile(env, one, ReportFile(id), markdown);
        AdvancesTransitive(env, before, one, one[ReportFile(id) := markdown]);
      }
    }
  }

  lemma StatusAdvances(env: Rendering, before: Files, id: string, result: ApplyResult, createdAt: Time)
    requires Reportable(env, before, id, result, createdAt) && CanReport(env, before, id, result, createdAt, 3)
    ensures Advances(env, before, ReportStage(env, before, id, result, createdAt, 3))
    ensures RecordAt(env, ReportStage(env, before, id, result, createdAt, 3), id)
            == Some(ProposalAt(env, before, id).value.record.(status := StatusFor(OutcomeOf(result.items))))
  {
    var r := ProposalAt(env, before, id).value.record;
    var two := ReportStage(env, before, id, result, createdAt, 2);
    ReportStages(env, before, id, result, createdAt);
    PayloadAdvances(env, before, id, result, createdAt, 2);
    ProposalHasRecord(env, before, id);
    assert RecordAt(env, two, id) == Some(r);
    NewStatus(env, two, id, r.(status := StatusFor(OutcomeOf(result.items))));
    AdvancesTransitive(env, before, two, ReportStage(env, before, id, result, createdAt, 3));
  }

  lemma SentenceAtEnd(body: string)
    ensures Contains(body + (UNDO_SENTENCE + "\n"), UNDO_SENTENCE)
  {
    var text := body + (UNDO_SENTENCE + "\n");
    assert text[|body|..] == UNDO_SENTENCE + "\n";
    assert HasPrefix(text[|body|..], UNDO_SENTENCE);
  }

  lemma StillThere(env: Rendering, three: Files, id: string, report: ReportRecord)
    requires ValidReport(report) && Fits(env, ReportStateFile(id), ReportContent(report))
    ensures var after := three[ReportStateFile(id) := ReportContent(report)];
            && ReportRecordAt(env, after, id) == Some(report)
            && ResultAt(env, after, ResultFile(id)) == ResultAt(env, three, ResultFile(id))
            && TextAt(env, after, ReportFile(id)) == TextAt(env, three, ReportFile(id))
            && RecordAt(env, after, id) == RecordAt(env, three, id)
  {
  }

  lemma FirstFilesThere(env: Rendering, before: Files, id: string, result: ApplyResult, createdAt: Time)
    requires Reportable(env, before, id, result, createdAt) && CanReport(env, before, id, result, createdAt, 4)
    ensures var three := ReportStage(env, before, id, result, createdAt, 3);
            && ResultAt(env, three, ResultFile(id)) == Some(result)
            && TextAt(env, three, ReportFile(id))
               == Some(Markdown(env, ProposalAt(env, before, id).value, NewReport(id, result, createdAt)).text)
  {
    ReportStages(env, before, id, result, createdAt);
  }

  lemma LastStage(env: Rendering, before: Files, id: string, result: ApplyResult, createdAt: Time)
    requires Reportable(env, before, id, result, createdAt)
    ensures var three := ReportStage(env, before, id, result, createdAt, 3);
            && ReportStage(env, before, id, result, createdAt, 4)
               == three[ReportStateFile(id) := ReportContent(NewReport(id, result, createdAt))]
            && ReportStateFile(id) !in three
  {
    ReportStages(env, before, id, result, createdAt);
  }

  lemma {:induction false} ReportFilesThere(env: Rendering, before: Files, id: string, result: ApplyResult, createdAt: Time)
    requires Reportable(env, before, id, result, createdAt) && CanReport(env, before, id, result, createdAt, 4)
    ensures var after := ReportStage(env, before, id, result, createdAt, 4);
            && ReportRecordAt(env, after, id) == Some(NewReport(id, result, createdAt))
            && ResultAt(env, after, ResultFile(id)) == Some(result)
            && TextAt(env, after, ReportFile(id))
               == Some(Markdown(env, ProposalAt(env, before, id).value, NewReport(id, result, createdAt)).text)
            && RecordAt(env, after, id) == RecordAt(env, ReportStage(env, before, id, result, createdAt, 3), id)
  {
    FirstFilesThere(env, before, id, result, createdAt);
    LastStage(env, before, id, result, createdAt);
    StillThere(env, ReportStage(env, before, id, result, createdAt, 3), id, NewReport(id, result, createdAt));
  }

  lemma ReportLoads(env: Rendering, before: Files, id: string, result: ApplyResult, createdAt: Time)
    requires Reportable(env, before, id, result, createdAt) && CanReport(env, before, id, result, createdAt, 4)
    ensures LoadedReport(env, ReportStage(env, before, id, result, createdAt, 4), NewReport(id, result, createdAt)).Some?
    ensures LoadedReport(env, ReportStage(env, before, id, result, createdAt, 4), NewReport(id, result, createdAt)).value.result
            == result
  {
    ReportFilesThere(env, before, id, result, createdAt);
    SentenceAtEnd(env.reportBody(ProposalAt(env, before, id).value, NewReport(id, result, createdAt)));
  }

  lemma {:induction false} LastWriteAdvances(env: Rendering, before: Files, id: string, result: ApplyResult, createdAt: Time)
    requires Reportable(env, before, id, result, createdAt) && CanReport(env, before, id, result, createdAt, 4)
    ensures Advances(env, before, ReportStage(env, before, id, result, createdAt, 4))
  {
    var three := ReportStage(env, before, id, result, createdAt, 3);
    StatusAdvances(env, before, id, result, createdAt);
    LastStage(env, before, id, result, createdAt);
    NewFile(env, three, ReportStateFile(id), ReportContent(NewReport(id, result, createdAt)));
    AdvancesTransitive(env, before, three, ReportStage(env, before, id, result, createdAt, 4));
  }

  lemma ReportIsCommitted(env: Rendering, before: Files, id: string, result: ApplyResult, createdAt: Time)
    requires Reportable(env, before, id, result, createdAt) && CanReport(env, before, id, result, createdAt, 4)
    ensures CommittedReport(env, ReportStage(env, before, id, result, createdAt, 4), id)
  {
    LastWriteAdvances(env, before, id, result, createdAt);
    StatusAdvances(env, before, id, result, createdAt);
    ReportFilesThere(env, before, id, result, createdAt);
    ReportLoads(env, before, id, result, createdAt);
    ProposalStays(env, before, ReportStage(env, before, id, result, createdAt, 4), id);
  }

  lemma {:induction false} OnlyReportNew(env: Rendering, before: Files, id: string, result: ApplyResult, createdAt: Time, n: nat)
    requires Reportable(env, before, id, result, createdAt) && n <= 4
    requires n == 4 ==> CommittedReport(env, ReportStage(env, before, id, result, createdAt, n), id)
    ensures NewCommitted(env, before, ReportStage(env, before, id, result, createdAt, n))
  {
    ReportStages(env, before, id, result, createdAt);
    ProposalHasRecord(env, before, id);
    assert StateFile(id) in before;
  }

  /** Whatever the point at which WriteApplyReport stops, what was committed stays so. */
  lemma ReportedAdvances(env: Rendering, before: Files, id: string, result: ApplyResult, createdAt: Time, after: Files, complete: bool)
    requires Reported(env, before, id, result, createdAt, after, complete)
    ensures Advances(env, before, after) && NewCommitted(env, before, after)
  {
    if after != before {
      var n :| ReportedUpTo(env, before, id, result, createdAt, after, complete, n);
      if n <= 2 {
        PayloadAdvances(env, before, id, result, createdAt, n);
      } else if n == 3 {
        StatusAdvances(env, before, id, result, createdAt);
      } else {
        LastWriteAdvances(env, before, id, result, createdAt);
        ReportIsCommitted(env, before, id, result, createdAt);
      }
      OnlyReportNew(env, before, id, result, createdAt, n);
    }
  }

  /* ---- Whole runs ---- */

  lemma HappenedAdvances(env: Rendering, before: Files, op: Operation, after: Files, complete: bool)
    requires Happened(env, before, op, after, complete)
    ensures Advances(env, before, after) && NewCommitted(env, before, after)
  {
    match op
    case Propose(p, at) => ProposedAdvances(env, before, p, at, after, complete);
    case Dismiss(id) => DismissedAdvances(env, before, id, after, complete);
    case Report(id, result, at) => ReportedAdvances(env, before, id, result, at, after, complete);
  }

  datatype Event = Event(op: Operation, complete: bool)

  /** The files between the operations of a run: states[i + 1] is what operation i left behind. */
  ghost predicate IsRun(env: Rendering, states: seq<Files>, events: seq<Event>) {
    && |states| == |events| + 1
    && forall i :: 0 <= i < |events| ==> Happened(env, states[i], events[i].op, states[i + 1], events[i].complete)
  }

  /** Crash safety: over any run, whichever writes were the last to succeed, everything committed is sound. */
  lemma {:induction false} RunStaysCommitted(env: Rendering, states: seq<Files>, events: seq<Event>, i: nat)
    requires IsRun(env, states, events) && Committed(env, states[0]) && i < |states|
    ensures Committed(env, states[i])
  {
    if i > 0 {
      RunStaysCommitted(env, states, events, i - 1);
      assert Happened(env, states[i - 1], events[i - 1].op, states[i - 1 + 1], events[i - 1].complete);
      HappenedAdvances(env, states[i - 1], events[i - 1].op, states[i], events[i - 1].complete);
      StaysCommitted(env, states[i - 1], states[i]);
    }
  }

  lemma {:induction false} RunAdvances(env: Rendering, states: seq<Files>, events: seq<Event>, i: nat, j: nat)
    requires IsRun(env, states, events) && i <= j < |states|
    ensures Advances(env, states[i], states[j])
  {
    if i < j {
      RunAdvances(env, states, events, i, j - 1);
      assert Happened(env, states[j - 1], events[j - 1].op, states[j - 1 + 1], events[j - 1].complete);
      HappenedAdvances(env, states[j - 1], events[j - 1].op, states[j], events[j - 1].complete);
      AdvancesTransitive(env, states[i], states[j - 1], states[j]);
    }
  }

  /** Over any run a record that is no longer open never changes again, and an open one changes at most once. */
  lemma StatusMovesOnce(env: Rendering, states: seq<Files>, events: seq<Event>, i: nat, j: nat, k: nat, id: string)
    requires IsRun(env, states, events) && i <= j <= k < |states| && RecordAt(env, states[i], id).Some?
    ensures RecordAt(env, states[j], id).Some? && RecordAt(env, states[k], id).Some?
    ensures !RecordAt(env, states[i], id).value.status.Open? ==> RecordAt(env, states[k], id) == RecordAt(env, states[i], id)
    ensures RecordAt(env, states[j], id) == RecordAt(env, states[i], id) || RecordAt(env, states[k], id) == RecordAt(env, states[j], id)
  {
    RunAdvances(env, states, events, i, j);
    RunAdvances(env, states, events, j, k);
  }

  /** After every completed WriteProposal of a run, whatever stopped before it, the new proposal is later than
      every other and no other is open. */
  lemma NewestAndOnlyOpen(env: Rendering, states: seq<Files>, events: seq<Event>, i: nat)
    requires IsRun(env, states, events) && Committed(env, states[0]) && i < |events|
    requires events[i].op.Propose? && events[i].complete
    ensures var r := NewRecord(events[i].op.proposal, events[i].op.proposedAt);
            && RecordAt(env, states[i + 1], r.proposalId) == Some(r) && MadeLast(env, states[i + 1], r)
            && NoOtherOpen(env, states[i + 1], r.proposalId)
  {
    var p, at := events[i].op.proposal, events[i].op.proposedAt;
    RunStaysCommitted(env, states, events, i);
    CommittedIsNamed(env, states[i]);
    assert Happened(env, states[i], events[i].op, states[i + 1], events[i].complete);
    var done :| GaveWayTo(env, states[i], p, at, states[i + 1], true, done);
    ProposedIsLatest(env, states[i], p, at, states[i + 1], true, done);
    LatestIsMadeLast(env, states[i + 1], NewRecord(p, at));
  }

  /* ---- The statuses that complete operations leave ---- */

  /** After a complete report the proposal is applied if some row was applied, skipped if none was applied, none failed
      and some was skipped, and failed otherwise; the report's outcome tells the four cases apart. */
  lemma ReportedStatus(env: Rendering, before: Files, id: string, result: ApplyResult, createdAt: Time, after: Files)
    requires Reported(env, before, id, result, createdAt, after, true)
    ensures RecordAt(env, after, id).Some? && ReportRecordAt(env, after, id).Some?
    ensures var status, applied, skipped, failed :=
              RecordAt(env, after, id).value.status, HasStatus(result.items, Applied), HasStatus(result.items, Skipped),
              HasStatus(result.items, Failed);
            && (status == ApplyDone <==> applied)
            && (status == ApplySkipped <==> !applied && !failed && skipped)
            && (status == ApplyFailed <==> !applied && (failed || !skipped))
    ensures var outcome, applied, skipped, failed :=
              ReportRecordAt(env, after, id).value.outcome, HasStatus(result.items, Applied),
              HasStatus(result.items, Skipped), HasStatus(result.items, Failed);
            && (outcome == AllApplied <==> applied && !skipped && !failed)
            && (outcome == PartlyApplied <==> applied && (skipped || failed))
            && (outcome == FullySkipped <==> !applied && skipped && !failed)
            && (outcome == NothingApplied <==> !applied && (failed || !skipped))
  {
    var n :| ReportedUpTo(env, before, id, result, createdAt, after, true, n);
    ReportedRecords(env, before, id, result, createdAt);
    StatusByRows(result.items);
    OutcomeByRows(result.items);
  }

  lemma ReportedRecords(env: Rendering, before: Files, id: string, result: ApplyResult, createdAt: Time)
    requires Reportable(env, before, id, result, createdAt) && CanReport(env, before, id, result, createdAt, 4)
    ensures var after := ReportStage(env, before, id, result, createdAt, 4);
            && RecordAt(env, after, id).Some? && RecordAt(env, after, id).value.status == StatusFor(OutcomeOf(result.items))
            && ReportRecordAt(env, after, id).Some? && ReportRecordAt(env, after, id).value.outcome == OutcomeOf(result.items)
  {
    StatusAdvances(env, before, id, result, createdAt);
    ReportFilesThere(env, before, id, result, createdAt);
  }

  /** A dismissed proposal has the status "dismissed", and no other file changed. */
  lemma DismissedStatus(env: Rendering, before: Files, id: string, after: Files)
    requires WasDismissed(env, before, id, after, true)
    ensures RecordAt(env, before, id).Some? && RecordAt(env, before, id).value.status == Open
    ensures RecordAt(env, after, id) == Some(RecordAt(env, before, id).value.(status := Dismissed))
    ensures after.Keys == before.Keys && forall f :: f in before && f != StateFile(id) ==> after[f] == before[f]
  {
    ProposalHasRecord(env, before, id);
  }

  /** After a completed proposal its record is open, or says that nothing is to do; every proposal that was open is
      superseded by it, and every other record is as it was. */
  lemma ProposedStatuses(env: Rendering, before: Files, p: Proposal, createdAt: Time, after: Files)
    requires Named(env, before) && Proposed(env, before, p, createdAt, after, true)
    ensures RecordAt(env, after, p.proposalId).Some?
    ensures RecordAt(env, after, p.proposalId).value.status == if p.alreadyTidy then NothingToDo else Open
    ensures forall id :: RecordAt(env, before, id).Some? ==>
              var r := RecordAt(env, before, id).value;
              RecordAt(env, after, id)
              == Some(if r.status == Open then r.(status := Superseded, supersededBy := p.proposalId) else r)
  {
    var done :| GaveWayTo(env, before, p, createdAt, after, true, done);
    NewRecordIsAt(env, before, p, createdAt);
    ProposedIsLatest(env, before, p, createdAt, after, true, done);
    forall id | RecordAt(env, before, id).Some?
      ensures var r := RecordAt(env, before, id).value;
              RecordAt(env, after, id)
              == Some(if r.status == Open then r.(status := Superseded, supersededBy := p.proposalId) else r)
    {
      OldStatus(env, before, p, createdAt, after, done, id);
    }
  }

  lemma OldStatus(env: Rendering, before: Files, p: Proposal, createdAt: Time, after: Files, done: set<string>, id: string)
    requires Named(env, before) && Acceptable(env, before, p, createdAt)
    requires GaveWayTo(env, before, p, createdAt, after, true, done) && RecordAt(env, before, id).Some?
    ensures var r := RecordAt(env, before, id).value;
            RecordAt(env, after, id)
            == Some(if r.status == Open then r.(status := Superseded, supersededBy := p.proposalId) else r)
  {
    var base := WithRecord(env, before, p, createdAt);
    assert StateFile(id) in before && id != p.proposalId;
    assert RecordAt(env, base, id) == RecordAt(env, before, id);
    GaveWayRecord(env, base, after, done, p.proposalId, id);
    GaveWayOnlyOpen(env, before, p, createdAt, after, done);
  }

  /* ---- What a stopped report blocks ---- */

  ghost predicate CanBeReported(env: Rendering, files: Files, id: string) {
    exists result: ApplyResult, createdAt: Time :: Reportable(env, files, id, result, createdAt)
  }

  ghost predicate NoReportFiles(files: Files, id: string) {
    ResultFile(id) !in files && ReportFile(id) !in files && ReportStateFile(id) !in files
  }

  ghost predicate OpenWithPlan(env: Rendering, files: Files, id: string) {
    && ProposalAt(env, files, id).Some?
    && ProposalAt(env, files, id).value.record.status.Open? && ProposalAt(env, files, id).value.plan.Some?
  }

  function AppliedRows(items: seq<PlanItem>): (rows: seq<ResultItem>)
    ensures |rows| == |items|
    ensures forall i :: 0 <= i < |items| ==> rows[i] == ResultItem(items[i].id, items[i].verb, Applied, "", "")
  {
    if items == [] then []
    else
      AppliedRows(items[..|items| - 1])
      + [ResultItem(items[|items| - 1].id, items[|items| - 1].verb, Applied, "", "")]
  }

  /** A result that says every item was applied is accepted for its plan. */
  lemma AppliedIsBound(plan: Plan)
    requires ValidPlan(plan)
    ensures BoundToSelection(ApplyResult(SCHEMA_VERSION, plan.planId, 0, 0, AppliedRows(plan.items)), plan)
  {
    var rows := AppliedRows(plan.items);
    forall i | 0 <= i < |rows| ensures ValidResultItem(rows[i]) {
      assert ValidItem(plan.items[i]);
    }
    var at := seq(|rows|, i requires 0 <= i < |rows| => i as nat);
    assert Placed(at, rows, plan.items);
  }

  /** An open proposal that loads can be reported if and only if none of its report's files is there. */
  lemma WhenReportable(env: Rendering, files: Files, id: string)
    requires OpenWithPlan(env, files, id)
    ensures CanBeReported(env, files, id) <==> NoReportFiles(files, id)
  {
    var plan := ProposalAt(env, files, id).value.plan.value;
    AppliedIsBound(plan);
    if NoReportFiles(files, id) {
      var result := ApplyResult(SCHEMA_VERSION, plan.planId, 0, 0, AppliedRows(plan.items));
      assert Reportable(env, files, id, result, ZERO_TIME + 1);
    }
  }

  /** A report that stops after its result, or after its text, leaves its proposal open, and no other report of
      it is accepted. */
  lemma StoppedReportBlocks(env: Rendering, before: Files, id: string, result: ApplyResult, createdAt: Time, n: nat)
    requires Reportable(env, before, id, result, createdAt) && CanReport(env, before, id, result, createdAt, n) && 1 <= n <= 2
    ensures var after := ReportStage(env, before, id, result, createdAt, n);
            && Reported(env, before, id, result, createdAt, after, false)
            && OpenWithPlan(env, after, id) && !CanBeReported(env, after, id)
  {
    var after := ReportStage(env, before, id, result, createdAt, n);
    assert ReportedUpTo(env, before, id, result, createdAt, after, false, n);
    ReportStages(env, before, id, result, createdAt);
    PayloadAdvances(env, before, id, result, createdAt, n);
    ProposalStays(env, before, after, id);
    assert RecordAt(env, after, id) == RecordAt(env, before, id);
    assert ResultFile(id) in after;
  }

  /** Over any run this never changes: once one of the files is there, no report of the proposal is accepted. */
  lemma StaysBlocked(env: Rendering, states: seq<Files>, events: seq<Event>, i: nat, j: nat, id: string)
    requires IsRun(env, states, events) && i <= j < |states| && !NoReportFiles(states[i], id)
    ensures !CanBeReported(env, states[j], id)
  {
    RunAdvances(env, states, events, i, j);
  }
}
