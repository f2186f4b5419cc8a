/** Writing and reading the files of Project Tidy: every write of a file is atomic, and an operation may stop
    after any of its writes (internal/reaper/tidy_artifacts.go:60-318, internal/reaper/tidy_reports.go:41-242). */
module TidyStore {
  import opened Text
  import opened TidyPlans
  import opened TidyNames
  import opened TidySelection
  import opened TidySurvey
  import opened TidyArtifacts

  type Files = map<File, Content>

  /** The size of a file with some content, and the texts made for people to read. */
  datatype Rendering = Rendering(size: Content -> Size, summaryText: (Proposal, Time) -> string,
                                 reportBody: (Stored, ReportRecord) -> string)

  datatype Stored = Stored(record: Record, plan: Option<Plan>, summary: string)

  datatype StoredReport = StoredReport(record: ReportRecord, result: ApplyResult, markdown: string)

  /* ---- Reading ---- */

  function Limit(f: File): nat {
    if f.StateFile? || f.ReportStateFile? then MAX_STATE_SIZE else MAX_PAYLOAD_SIZE
  }

  predicate Fits(env: Rendering, f: File, content: Content) {
    env.size(content) <= Limit(f)
  }

  function ReadBounded(env: Rendering, files: Files, f: File): Option<Content> {
    if f in files && Fits(env, f, files[f]) then Some(files[f]) else None
  }

  ghost function RecordAt(env: Rendering, files: Files, id: string): Option<Record> {
    match ReadBounded(env, files, StateFile(id))
    case Some(RecordContent(r)) => if ValidRecord(r) then Some(r) else None
    case _ => None
  }

  predicate Agrees(record: Record, plan: Plan) {
    && plan.planId == record.proposalId && |plan.items| == |record.items|
    && forall i :: 0 <= i < |plan.items| ==>
         plan.items[i].id == record.items[i].itemId && plan.items[i].reason == record.items[i].reason
  }

  ghost function PlanAt(env: Rendering, files: Files, f: File): Option<Plan> {
    match ReadBounded(env, files, f)
    case Some(PlanContent(plan)) => if ValidPlan(plan) then Some(plan) else None
    case _ => None
  }

  function TextAt(env: Rendering, files: Files, f: File): Option<string> {
    match ReadBounded(env, files, f)
    case Some(TextContent(text)) => Some(text)
    case _ => None
  }

  ghost function Loaded(env: Rendering, files: Files, record: Record): Option<Stored> {
    match TextAt(env, files, record.summaryFile)
    case None => None
    case Some(summary) =>
      if record.planFile.None? then Some(Stored(record, None, summary))
      else
        match PlanAt(env, files, record.planFile.value)
        case None => None
        case Some(plan) => if Agrees(record, plan) then Some(Stored(record, Some(plan), summary)) else None
  }

  ghost function ProposalAt(env: Rendering, files: Files, id: string): Option<Stored> {
    match RecordAt(env, files, id)
    case None => None
    case Some(record) => if ValidId(id) && record.proposalId == id then Loaded(env, files, record) else None
  }

  ghost function ReportRecordAt(env: Rendering, files: Files, id: string): Option<ReportRecord> {
    match ReadBounded(env, files, ReportStateFile(id))
    case Some(ReportContent(r)) => if ValidReport(r) then Some(r) else None
    case _ => None
  }

  ghost function ResultAt(env: Rendering, files: Files, f: File): Option<ApplyResult> {
    match ReadBounded(env, files, f)
    case Some(ResultContent(result)) => if ValidResult(result) then Some(result) else None
    case _ => None
  }

  ghost function LoadedReport(env: Rendering, files: Files, record: ReportRecord): Option<StoredReport> {
    match ResultAt(env, files, record.resultFile)
    case None => None
    case Some(result) =>
      if result.planId != record.proposalId || result.items != record.items then None
      else
        match TextAt(env, files, record.markdownFile)
        case None => None
        case Some(markdown) =>
          if Contains(markdown, UNDO_SENTENCE) then Some(StoredReport(record, result, markdown)) else None
  }

  /* ---- Order of proposals ---- */

  predicate OrderBefore(leftTime: Time, leftId: string, rightTime: Time, rightId: string) {
    if leftTime == rightTime then Less(leftId, rightId) else leftTime < rightTime
  }

  predicate Before(a: Record, b: Record) {
    OrderBefore(a.createdAt, a.proposalId, b.createdAt, b.proposalId)
  }

  /** Records with different ids are in order one way round, and only one. */
  lemma BeforeTotal(a: Record, b: Record)
    ensures !(Before(a, b) && Before(b, a))
    ensures a.proposalId != b.proposalId ==> Before(a, b) || Before(b, a)
  {
    LessTotal(a.proposalId, b.proposalId);
  }

  lemma BeforeTransitive(a: Record, b: Record, c: Record)
    requires Before(a, b) && Before(b, c)
    ensures Before(a, c)
  {
    if a.createdAt == b.createdAt && b.createdAt == c.createdAt {
      LessTransitive(a.proposalId, b.proposalId, c.proposalId);
    }
  }

  /* ---- What the operations write ---- */

  ghost predicate Listable(env: Rendering, files: Files) {
    forall id :: StateFile(id) in files ==> RecordAt(env, files, id).Some?
  }

  ghost predicate IsOpen(env: Rendering, files: Files, id: string) {
    RecordAt(env, files, id).Some? && RecordAt(env, files, id).value.status.Open?
  }

  ghost predicate ValidProposal(p: Proposal) {
    if p.alreadyTidy then p.plan.None? && p.lines == []
    else
      && p.plan.Some? && p.plan.value.planId == p.proposalId && ValidPlan(p.plan.value)
      && |p.lines| == |p.plan.value.items|
      && forall i :: 0 <= i < |p.lines| ==> LineFor(p.lines[i], p.plan.value.items[i])
  }

  predicate LineFor(line: Line, item: PlanItem) {
    && line.itemId == item.id && RequiredText(line.text, MAX_LINE_BYTES)
    && RequiredText(line.reason, MAX_REASON_BYTES) && line.reason == item.reason
  }

  function NewRecord(p: Proposal, createdAt: Time): Record {
    Record(SCHEMA_VERSION, p.proposalId, createdAt, if p.alreadyTidy then NothingToDo else Open, p.alreadyTidy,
           if p.alreadyTidy then None else Some(PlanFile(p.proposalId)), SummaryFile(p.proposalId), p.lines, p.note, "")
  }

  /** No record is as new as this one would be. */
  ghost predicate NewestOf(env: Rendering, files: Files, id: string, createdAt: Time) {
    forall other :: RecordAt(env, files, other).Some? ==>
      var r := RecordAt(env, files, other).value;
      r.proposalId != id && OrderBefore(r.createdAt, r.proposalId, createdAt, id)
  }

  ghost predicate Acceptable(env: Rendering, files: Files, p: Proposal, createdAt: Time) {
    && ValidId(p.proposalId) && createdAt != ZERO_TIME && ValidProposal(p) && Listable(env, files)
    && NewestOf(env, files, p.proposalId, createdAt)
    && StateFile(p.proposalId) !in files && SummaryFile(p.proposalId) !in files && PlanFile(p.proposalId) !in files
  }

  function SummaryOf(env: Rendering, p: Proposal, createdAt: Time): Content {
    TextContent(env.summaryText(p, createdAt))
  }

  function WithPlan(files: Files, p: Proposal): Files
    requires p.alreadyTidy || p.plan.Some?
  {
    if p.alreadyTidy then files else files[PlanFile(p.proposalId) := PlanContent(p.plan.value)]
  }

  function WithSummary(env: Rendering, files: Files, p: Proposal, createdAt: Time): Files
    requires p.alreadyTidy || p.plan.Some?
  {
    WithPlan(files, p)[SummaryFile(p.proposalId) := SummaryOf(env, p, createdAt)]
  }

  function WithRecord(env: Rendering, files: Files, p: Proposal, createdAt: Time): Files
    requires p.alreadyTidy || p.plan.Some?
  {
    WithSummary(env, files, p, createdAt)[StateFile(p.proposalId) := RecordContent(NewRecord(p, createdAt))]
  }

  predicate PlanFits(env: Rendering, p: Proposal)
    requires p.alreadyTidy || p.plan.Some?
  {
    p.alreadyTidy || Fits(env, PlanFile(p.proposalId), PlanContent(p.plan.value))
  }

  ghost predicate CanWriteRecord(env: Rendering, r: Record) {
    ValidRecord(r) && Fits(env, StateFile(r.proposalId), RecordContent(r))
  }

  /** The record under another status. */
  function Moved(r: Record, status: ProposalStatus, supersededBy: string): Record {
    r.(status := status, supersededBy := supersededBy)
  }

  /** The open records with these ids give way to a newer proposal; nothing else changes. */
  ghost predicate GaveWay(env: Rendering, before: Files, after: Files, done: set<string>, newId: string) {
    && after.Keys == before.Keys
    && (forall id :: id in done ==>
          && IsOpen(env, before, id) && id != newId
          && var r := Moved(RecordAt(env, before, id).value, Superseded, newId);
             CanWriteRecord(env, r) && after[StateFile(id)] == RecordContent(r))
    && forall f :: f in before && !(f.StateFile? && f.id in done) ==> after[f] == before[f]
  }

  /** The files after WriteProposal, which may stop after any of its writes. */
  ghost predicate Proposed(env: Rendering, before: Files, p: Proposal, createdAt: Time, after: Files, complete: bool) {
    || (after == before && !complete)
    || (Acceptable(env, before, p, createdAt) && PlanFits(env, p)
        && (|| (after == WithPlan(before, p) && !complete)
            || (Fits(env, SummaryFile(p.proposalId), SummaryOf(env, p, createdAt))
                && (|| (after == WithSummary(env, before, p, createdAt) && !complete)
                    || RecordProposed(env, before, p, createdAt, after, complete)))))
  }

  /** The record of the new proposal is written, and some open records have given way: all, if complete. */
  ghost predicate RecordProposed(env: Rendering, before: Files, p: Proposal, createdAt: Time, after: Files, complete: bool)
    requires p.alreadyTidy || p.plan.Some?
  {
    CanWriteRecord(env, NewRecord(p, createdAt)) && exists done :: GaveWayTo(env, before, p, createdAt, after, complete, done)
  }

  ghost predicate GaveWayTo(env: Rendering, before: Files, p: Proposal, createdAt: Time, after: Files, complete: bool,
                            done: set<string>)
    requires p.alreadyTidy || p.plan.Some?
  {
    && GaveWay(env, WithRecord(env, before, p, createdAt), after, done, p.proposalId)
    && (complete ==> forall id :: IsOpen(env, before, id) ==> id in done)
  }

  /** The proposals that are open. */
  ghost function OpenIds(env: Rendering, files: Files): set<string> {
    set f | f in files && f.StateFile? && IsOpen(env, files, f.id) :: f.id
  }

  ghost predicate AllCanGiveWay(env: Rendering, files: Files, newId: string) {
    forall id :: IsOpen(env, files, id) ==> CanWriteRecord(env, Moved(RecordAt(env, files, id).value, Superseded, newId))
  }

  /** Nothing but a failing write stands in the way of the proposal. */
  ghost predicate CanPropose(env: Rendering, files: Files, p: Proposal, createdAt: Time) {
    && Acceptable(env, files, p, createdAt) && PlanFits(env, p)
    && Fits(env, SummaryFile(p.proposalId), SummaryOf(env, p, createdAt))
    && CanWriteRecord(env, NewRecord(p, createdAt)) && AllCanGiveWay(env, files, p.proposalId)
  }

  /** The summary and the record, the plan if there is one, and one write for each open proposal. */
  ghost function ProposalWrites(env: Rendering, files: Files, p: Proposal): nat {
    (if p.alreadyTidy then 2 else 3) + |OpenIds(env, files)|
  }

  ghost predicate CanDismiss(env: Rendering, files: Files, id: string) {
    && ProposalAt(env, files, id).Some? && IsOpen(env, files, id)
    && CanWriteRecord(env, Moved(RecordAt(env, files, id).value, Dismissed, ""))
  }

  ghost predicate WasDismissed(env: Rendering, before: Files, id: string, after: Files, complete: bool) {
    || (after == before && !complete)
    || (&& ProposalAt(env, before, id).Some? && IsOpen(env, before, id)
        && var r := Moved(RecordAt(env, before, id).value, Dismissed, "");
           CanWriteRecord(env, r) && after == before[StateFile(id) := RecordContent(r)])
  }

  function NewReport(id: string, result: ApplyResult, createdAt: Time): ReportRecord {
    ReportRecord(SCHEMA_VERSION, id, createdAt, OutcomeOf(result.items), ResultFile(id), ReportFile(id),
                 result.before, result.after, result.items)
  }

  ghost predicate Reportable(env: Rendering, files: Files, id: string, result: ApplyResult, createdAt: Time) {
    && ValidId(id) && createdAt != ZERO_TIME && ValidResult(result) && result.planId == id
    && ProposalAt(env, files, id).Some? && ProposalAt(env, files, id).value.record.status.Open?
    && ProposalAt(env, files, id).value.plan.Some?
    && BoundToSelection(result, ProposalAt(env, files, id).value.plan.value)
    && ResultFile(id) !in files && ReportFile(id) !in files && ReportStateFile(id) !in files
  }

  function Markdown(env: Rendering, stored: Stored, report: ReportRecord): Content {
    TextContent(env.reportBody(stored, report) + (UNDO_SENTENCE + "\n"))
  }

  /** The files while a report is written: the result, the text, the proposal's new status, the report record. */
  ghost function ReportStage(env: Rendering, files: Files, id: string, result: ApplyResult, createdAt: Time, n: nat): Files
    requires Reportable(env, files, id, result, createdAt)
  {
    var stored, report := ProposalAt(env, files, id).value, NewReport(id, result, createdAt);
    if n == 0 then files
    else
      var before := ReportStage(env, files, id, result, createdAt, n - 1);
      if n == 1 then before[ResultFile(id) := ResultContent(result)]
      else if n == 2 then before[ReportFile(id) := Markdown(env, stored, report)]
      else if n == 3 then before[StateFile(id) := RecordContent(stored.record.(status := StatusFor(report.outcome)))]
      else if n == 4 then before[ReportStateFile(id) := ReportContent(report)]
      else before
  }

  /** The first n writes of a report succeeded. */
  ghost predicate CanReport(env: Rendering, files: Files, id: string, result: ApplyResult, createdAt: Time, n: nat)
    requires Reportable(env, files, id, result, createdAt)
  {
    var stored, report := ProposalAt(env, files, id).value, NewReport(id, result, createdAt);
    && (n >= 1 ==> Fits(env, ResultFile(id), ResultContent(result)))
    && (n >= 2 ==> Fits(env, ReportFile(id), Markdown(env, stored, report)))
    && (n >= 3 ==> CanWriteRecord(env, stored.record.(status := StatusFor(report.outcome))))
    && (n >= 4 ==> ValidReport(report) && Fits(env, ReportStateFile(id), ReportContent(report)))
  }

  /** Nothing but a failing write stands in the way of the report. */
  ghost predicate CanWriteReport(env: Rendering, files: Files, id: string, result: ApplyResult, createdAt: Time) {
    Reportable(env, files, id, result, createdAt) && CanReport(env, files, id, result, createdAt, 4)
  }

  /** The files after WriteApplyReport, which may stop after any of its writes. */
  ghost predicate Reported(env: Rendering, before: Files, id: string, result: ApplyResult, createdAt: Time, after: Files,
                           complete: bool)
  {
    || (after == before && !complete)
    || (Reportable(env, before, id, result, createdAt)
        && exists n :: ReportedUpTo(env, before, id, result, createdAt, after, complete, n))
  }

  ghost predicate ReportedUpTo(env: Rendering, before: Files, id: string, result: ApplyResult, createdAt: Time, after: Files,
                               complete: bool, n: nat)
    requires Reportable(env, before, id, result, createdAt)
  {
    && n <= 4 && (complete <==> n == 4) && CanReport(env, before, id, result, createdAt, n)
    && after == ReportStage(env, before, id, result, createdAt, n)
  }

  /** Every file of a proposal or report record is named after its id. */
  ghost predicate Named(env: Rendering, files: Files) {
    && (forall id :: RecordAt(env, files, id).Some? ==> RecordAt(env, files, id).value.proposalId == id)
    && (forall id :: ReportRecordAt(env, files, id).Some? ==> ReportRecordAt(env, files, id).value.proposalId == id)
  }

  /** The record of a proposal that is valid is valid too, so only its size can keep it from being written. */
  lemma NewRecordValid(p: Proposal, createdAt: Time)
    requires ValidProposal(p) && ValidId(p.proposalId) && createdAt != ZERO_TIME && OptionalText(p.note, MAX_RESULT_TEXT_BYTES)
    ensures ValidRecord(NewRecord(p, createdAt))
  {
    if !p.alreadyTidy {
      var items := p.plan.value.items;
      forall i | 0 <= i < |p.lines| ensures ValidLine(p.lines[i]) {
        assert LineFor(p.lines[i], items[i]) && ValidItem(items[i]);
      }
      forall i, j | 0 <= i < j < |p.lines| ensures p.lines[i].itemId != p.lines[j].itemId {
        assert LineFor(p.lines[i], items[i]) && LineFor(p.lines[j], items[j]);
      }
    }
  }

  /** An open record stays valid under each of the statuses it can move to. */
  lemma MovedValid(r: Record, newId: string)
    requires ValidRecord(r) && r.status == Open
    ensures ValidId(newId) && newId != r.proposalId ==> ValidRecord(Moved(r, Superseded, newId))
    ensures ValidRecord(Moved(r, Dismissed, ""))
    ensures forall status :: status == ApplyDone || status == ApplySkipped || status == ApplyFailed ==>
              ValidRecord(r.(status := status))
  {
  }

  /** What a survey proposes can be stored, as long as its lines are neither blank nor too long. */
  lemma SurveyIsWritable(t: CharTable, c: Conventions, s: State, planId: string, note: string, wording: PlanItem -> string)
    requires Survey(t, c, s, planId, note, wording).Surveyed?
    requires forall item :: item in SurveyItems(RulesOf(t, c), s) ==> RequiredText(wording(item), MAX_LINE_BYTES)
    ensures ValidProposal(Survey(t, c, s, planId, note, wording).proposal)
  {
    var p := Survey(t, c, s, planId, note, wording).proposal;
    if !p.alreadyTidy {
      var items := p.plan.value.items;
      forall i | 0 <= i < |p.lines| ensures LineFor(p.lines[i], items[i]) {
        assert items[i] in items && ValidItem(items[i]);
      }
    }
  }
}
