/** The files that Project Tidy keeps beside a project: proposal records with their plan and summary, and
    apply reports (internal/reaper/tidy_artifacts.go, internal/reaper/tidy_reports.go). A file holds a value
    rather than its JSON text; the size of its text is a parameter. */
module TidyArtifacts {
  import opened Text
  import opened TidyPlans
  import opened TidySelection
  import opened TidySurvey

  const MAX_LINE_BYTES := 2048
  const MAX_STATE_SIZE := 262144
  const MAX_PAYLOAD_SIZE := 1048576
  const UNDO_SENTENCE := "All applied changes are a single undo step in REAPER (one Ctrl+Z reverts everything)."

  /** Instants, in some unit since some origin; zero stands for Go's zero time. */
  type Time = int

  const ZERO_TIME: Time := 0

  datatype File = StateFile(id: string) | SummaryFile(id: string) | PlanFile(id: string)
                | ResultFile(id: string) | ReportFile(id: string) | ReportStateFile(id: string)

  datatype ProposalStatus = Open | Dismissed | Superseded | NothingToDo | ApplyDone | ApplySkipped | ApplyFailed
                          | UnknownStatus

  datatype Record = Record(schemaVersion: int, proposalId: string, createdAt: Time, status: ProposalStatus, alreadyTidy: bool,
                           planFile: Option<File>, summaryFile: File, items: seq<Line>, note: string, supersededBy: string)

  datatype Outcome = AllApplied | PartlyApplied | FullySkipped | NothingApplied | UnknownOutcome

  datatype ReportRecord = ReportRecord(schemaVersion: int, proposalId: string, createdAt: Time, outcome: Outcome,
                                       resultFile: File, markdownFile: File, before: int, after: int, items: seq<ResultItem>)

  datatype Content = RecordContent(record: Record) | PlanContent(plan: Plan) | TextContent(text: string)
                   | ResultContent(result: ApplyResult) | ReportContent(report: ReportRecord)

  type Size = n: nat | n >= 1 witness 1

  /* ---- File names ---- */

  function FileName(f: File): string {
    match f
    case StateFile(id) => "proposal-" + id + ".state.json"
    case SummaryFile(id) => "proposal-" + id + ".md"
    case PlanFile(id) => "plan-" + id + ".json"
    case ResultFile(id) => "apply-result-" + id + ".json"
    case ReportFile(id) => "report-" + id + ".md"
    case ReportStateFile(id) => "report-" + id + ".state.json"
  }

  function Prefix(f: File): string {
    match f
    case StateFile(_) => "proposal-"
    case SummaryFile(_) => "proposal-"
    case PlanFile(_) => "plan-"
    case ResultFile(_) => "apply-result-"
    case ReportFile(_) => "report-"
    case ReportStateFile(_) => "report-"
  }

  function Suffix(f: File): string {
    match f
    case StateFile(_) => ".state.json"
    case SummaryFile(_) => ".md"
    case PlanFile(_) => ".json"
    case ResultFile(_) => ".json"
    case ReportFile(_) => ".md"
    case ReportStateFile(_) => ".state.json"
  }

  lemma NameParts(f: File)
    ensures var name := FileName(f);
            && |name| >= 2 && name[0] == Prefix(f)[0] && name[1] == Prefix(f)[1]
            && name[|name| - 1] == Suffix(f)[|Suffix(f)| - 1]
            && |Prefix(f)| + |Suffix(f)| <= |name| && name[|Prefix(f)|..|name| - |Suffix(f)|] == f.id
  {
    var name := Prefix(f) + f.id + Suffix(f);
    assert name[|Prefix(f)|..|name| - |Suffix(f)|] == f.id;
    assert FileName(f) == name;
  }

  predicate SameKind(a: File, b: File) {
    match a
    case StateFile(_) => b.StateFile?
    case SummaryFile(_) => b.SummaryFile?
    case PlanFile(_) => b.PlanFile?
    case ResultFile(_) => b.ResultFile?
    case ReportFile(_) => b.ReportFile?
    case ReportStateFile(_) => b.ReportStateFile?
  }

  lemma KindsDiffer(a: File, b: File)
    requires Prefix(a)[0] == Prefix(b)[0] && Prefix(a)[1] == Prefix(b)[1]
    requires Suffix(a)[|Suffix(a)| - 1] == Suffix(b)[|Suffix(b)| - 1]
    ensures SameKind(a, b)
  {
  }

  /** Distinct files have distinct names, whatever the ids. */
  lemma FileNamesDistinct(a: File, b: File)
    requires FileName(a) == FileName(b)
    ensures a == b
  {
    NameParts(a);
    NameParts(b);
    KindsDiffer(a, b);
  }

  /* ---- Valid records ---- */

  predicate ValidLine(line: Line) {
    && ValidId(line.itemId) && RequiredText(line.text, MAX_LINE_BYTES) && RequiredText(line.reason, MAX_REASON_BYTES)
  }

  ghost predicate ValidLines(lines: seq<Line>) {
    && (forall i :: 0 <= i < |lines| ==> ValidLine(lines[i]))
    && forall i, j :: 0 <= i < j < |lines| ==> lines[i].itemId != lines[j].itemId
  }

  predicate ValidStatus(r: Record) {
    match r.status
    case Superseded =>
      !r.alreadyTidy && r.planFile == Some(PlanFile(r.proposalId)) && ValidId(r.supersededBy) && r.supersededBy != r.proposalId
    case NothingToDo => r.alreadyTidy && r.planFile.None? && r.items == [] && r.supersededBy == ""
    case UnknownStatus => false
    case _ => !r.alreadyTidy && r.planFile == Some(PlanFile(r.proposalId)) && r.supersededBy == ""
  }

  predicate ValidRecordHead(r: Record) {
    && r.schemaVersion == SCHEMA_VERSION && ValidId(r.proposalId) && r.createdAt != ZERO_TIME
    && r.summaryFile == SummaryFile(r.proposalId) && |r.items| <= MAX_PLAN_ITEMS
    && OptionalText(r.note, MAX_RESULT_TEXT_BYTES) && ValidStatus(r)
  }

  ghost predicate ValidRecord(r: Record) {
    ValidRecordHead(r) && ValidLines(r.items)
  }

  function LineIds(lines: seq<Line>): set<string> {
    set i | 0 <= i < |lines| :: lines[i].itemId
  }

  lemma ValidLinesStep(lines: seq<Line>, line: Line)
    requires ValidLines(lines)
    ensures ValidLines(lines + [line]) <==> ValidLine(line) && line.itemId !in LineIds(lines)
    ensures LineIds(lines + [line]) == LineIds(lines) + {line.itemId}
  {
    var longer, n := lines + [line], |lines|;
    assert longer[n] == line && forall k :: 0 <= k < n ==> longer[k] == lines[k];
  }

  lemma ValidLinesPrefix(lines: seq<Line>, i: nat)
    requires ValidLines(lines) && i <= |lines|
    ensures ValidLines(lines[..i])
  {
  }

  method ValidateLines(lines: seq<Line>) returns (ok: bool)
    ensures ok <==> ValidLines(lines)
  {
    var seen: set<string> := {};
    for i := 0 to |lines|
      invariant ValidLines(lines[..i]) && seen == LineIds(lines[..i])
    {
      assert lines[..i + 1] == lines[..i] + [lines[i]];
      ValidLinesStep(lines[..i], lines[i]);
      if ValidLines(lines) {
        ValidLinesPrefix(lines, i + 1);
      }
      if !ValidLine(lines[i]) || lines[i].itemId in seen {
        return false;
      }
      seen := seen + {lines[i].itemId};
    }
    assert lines[..|lines|] == lines;
    return true;
  }

  method ValidateRecord(r: Record) returns (ok: bool)
    ensures ok <==> ValidRecord(r)
  {
    if !ValidRecordHead(r) {
      return false;
    }
    ok := ValidateLines(r.items);
  }

  /* ---- Outcomes of an apply ---- */

  predicate AnyIs(items: seq<ResultItem>, status: Status) {
    exists i :: 0 <= i < |items| && items[i].status == status
  }

  function OutcomeOf(items: seq<ResultItem>): Outcome {
    if AnyIs(items, Applied) then
      if !AnyIs(items, Skipped) && !AnyIs(items, Failed) then AllApplied else PartlyApplied
    else if AnyIs(items, Skipped) && !AnyIs(items, Failed) then FullySkipped
    else NothingApplied
  }

  /** Some row has the status. */
  ghost predicate HasStatus(items: seq<ResultItem>, status: Status) {
    exists row :: row in items && row.status == status
  }

  lemma AnyIsRow(items: seq<ResultItem>, status: Status)
    ensures AnyIs(items, status) <==> HasStatus(items, status)
  {
    if HasStatus(items, status) {
      var row :| row in items && row.status == status;
      var i :| 0 <= i < |items| && items[i] == row;
    }
  }

  /** The four outcomes by the statuses of the rows. */
  lemma OutcomeByRows(items: seq<ResultItem>)
    ensures var applied, skipped, failed :=
              HasStatus(items, Applied), HasStatus(items, Skipped), HasStatus(items, Failed);
            && (OutcomeOf(items) == AllApplied <==> applied && !skipped && !failed)
            && (OutcomeOf(items) == PartlyApplied <==> applied && (skipped || failed))
            && (OutcomeOf(items) == FullySkipped <==> !applied && skipped && !failed)
            && (OutcomeOf(items) == NothingApplied <==> !applied && (failed || !skipped))
  {
    AnyIsRow(items, Applied);
    AnyIsRow(items, Skipped);
    AnyIsRow(items, Failed);
  }

  method TidyReportOutcome(items: seq<ResultItem>) returns (outcome: Outcome)
    ensures outcome == OutcomeOf(items)
  {
    var applied, skipped, failed := 0, 0, 0;
    for i := 0 to |items|
      invariant applied >= 0 && skipped >= 0 && failed >= 0
      invariant applied > 0 <==> AnyIs(items[..i], Applied)
      invariant skipped > 0 <==> AnyIs(items[..i], Skipped)
      invariant failed > 0 <==> AnyIs(items[..i], Failed)
    {
      AnyIsStep(items, i);
      match items[i].status
      case Applied => applied := applied + 1;
      case Skipped => skipped := skipped + 1;
      case Failed => failed := failed + 1;
      case OtherStatus =>
    }
    assert items[..|items|] == items;
    if applied > 0 && skipped == 0 && failed == 0 {
      return AllApplied;
    }
    if applied > 0 {
      return PartlyApplied;
    }
    if skipped > 0 && failed == 0 {
      return FullySkipped;
    }
    return NothingApplied;
  }

  lemma AnyIsStep(items: seq<ResultItem>, i: nat)
    requires i < |items|
    ensures forall status :: AnyIs(items[..i + 1], status) <==> AnyIs(items[..i], status) || items[i].status == status
  {
    assert items[..i + 1] == items[..i] + [items[i]];
    forall status ensures AnyIs(items[..i + 1], status) <==> AnyIs(items[..i], status) || items[i].status == status {
      assert items[..i + 1][i] == items[i];
      if AnyIs(items[..i], status) {
        var k :| 0 <= k < i && items[..i][k].status == status;
        assert items[..i + 1][k].status == status;
      }
      if AnyIs(items[..i + 1], status) {
        var k :| 0 <= k < i + 1 && items[..i + 1][k].status == status;
        assert k < i ==> items[..i][k].status == status;
      }
    }
  }

  /** The status a proposal takes when its report is written. */
  function StatusFor(outcome: Outcome): ProposalStatus {
    match outcome
    case AllApplied => ApplyDone
    case PartlyApplied => ApplyDone
    case FullySkipped => ApplySkipped
    case _ => ApplyFailed
  }

  /** An applied row makes the proposal applied; with none, only skipped rows make it skipped; anything else failed. */
  lemma StatusByRows(items: seq<ResultItem>)
    ensures var status, applied, skipped, failed :=
              StatusFor(OutcomeOf(items)), HasStatus(items, Applied), HasStatus(items, Skipped), HasStatus(items, Failed);
            && (status == ApplyDone <==> applied)
            && (status == ApplySkipped <==> !applied && !failed && skipped)
            && (status == ApplyFailed <==> !applied && (failed || !skipped))
  {
    OutcomeByRows(items);
  }

  function ResultIn(r: ReportRecord): ApplyResult {
    ApplyResult(SCHEMA_VERSION, r.proposalId, r.before, r.after, r.items)
  }

  ghost predicate ValidReport(r: ReportRecord) {
    && r.schemaVersion == SCHEMA_VERSION && r.createdAt != ZERO_TIME
    && r.resultFile == ResultFile(r.proposalId) && r.markdownFile == ReportFile(r.proposalId)
    && !r.outcome.UnknownOutcome? && ValidResult(ResultIn(r)) && OutcomeOf(r.items) == r.outcome
  }

  method ValidateReport(r: ReportRecord) returns (ok: bool)
    ensures ok <==> ValidReport(r)
  {
    if r.schemaVersion != SCHEMA_VERSION || r.createdAt == ZERO_TIME || r.resultFile != ResultFile(r.proposalId)
       || r.markdownFile != ReportFile(r.proposalId) || r.outcome == UnknownOutcome {
      return false;
    }
    var resultOk := ValidateResult(ResultIn(r));
    var outcome := TidyReportOutcome(r.items);
    return resultOk && outcome == r.outcome;
  }
}
