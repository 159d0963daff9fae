/**
  The verdict of tools/aegis_delivery_control/ci_durations.py on one CI run: from the API's job
  payload to one row per roster job, to one fail-closed status and exit code.
 */
module CiVerdict {
  import opened Options
  import opened PyText

  const NOT_RECORDED := "not_recorded"
  const NOT_SUPPLIED := "not_supplied"

  const JOB_ROSTER: seq<string> := [
    "changes", "validate-skills", "gate-guard", "windows-offline-checks", "tools-tests-linux", "tools-tests-windows"]

  const TERMINAL_CONCLUSIONS: set<string> := {
    "success", "failure", "cancelled", "timed_out", "action_required", "stale", "neutral", "skipped"}

  const NON_GREEN_EXECUTED: set<string> := {"failure", "cancelled", "timed_out", "action_required", "stale"}

  /** `EXPECTED_SKIPS_BY_EVENT.get(event, ())`. */
  function ExpectedSkips(event: string): seq<string> {
    if event == "push" then ["gate-guard"]
    else if event == "pull_request" then ["windows-offline-checks", "tools-tests-linux", "tools-tests-windows"]
    else []
  }

  /** `REQUIRED_JOBS_BY_EVENT.get(event, ())`. */
  function RequiredJobs(event: string): seq<string> {
    if event == "pull_request" then ["gate-guard"] else []
  }

  // ----- the payload -----

  /**
    What a job object has under `name`: nothing or null, a string, a number or truth value, a
    list or an object. Which number it is makes no difference: numbers and truth values compare.
   */
  datatype JobName = NoName | Named(text: string) | Number | Compound

  /** An element of the job list; a field is `None` when it is absent or not a string. */
  datatype PayloadJob =
    | NotAnObject
    | Job(name: JobName, conclusion: Option<string>, startedAt: Option<string>, completedAt: Option<string>)

  datatype RunPayload = RunPayload(
    event: Option<string>, status: Option<string>, conclusion: Option<string>, attempt: Option<int>, headSha: Option<string>)

  /** `_text`: a string field, or the absence marker. */
  function Text(field: Option<string>): string {
    if field.Some? then field.value else NOT_RECORDED
  }

  /** The first job object of that name. */
  function First(jobs: seq<PayloadJob>, name: string): Option<PayloadJob> {
    if jobs == [] then None
    else if jobs[0].Job? && jobs[0].name == Named(name) then Some(jobs[0])
    else First(jobs[1..], name)
  }

  // ----- rows -----

  datatype RowState = Executed | Skipped | Missing | Unresolved

  /** `duration` is `None` for the absence markers. */
  datatype Row = Row(job: string, state: RowState, conclusion: string, duration: Option<nat>)

  /** What is left open: ISO-8601 parsing, in microseconds, and Unicode lower case. */
  datatype Tables = Tables(iso: string -> Option<int>, lower: string -> string)

  function Moment(t: Tables, stamp: Option<string>): Option<int> {
    if stamp == None || stamp.value == "" then None else t.iso(stamp.value)
  }

  /** `duration_seconds`: whole seconds, truncated toward zero. */
  function DurationSeconds(t: Tables, startedAt: Option<string>, completedAt: Option<string>): Option<int> {
    var started, completed := Moment(t, startedAt), Moment(t, completedAt);
    if started == None || completed == None then None
    else
      var us := completed.value - started.value;
      Some(if us >= 0 then us / 1000000 else -(-us / 1000000))
  }

  function RowOf(t: Tables, name: string, found: Option<PayloadJob>): Row {
    match found
    case Some(Job(_, conclusion, startedAt, completedAt)) =>
      if conclusion == Some("skipped") then Row(name, Skipped, "skipped", None)
      else if conclusion.Some? && conclusion.value in TERMINAL_CONCLUSIONS then
        var seconds := DurationSeconds(t, startedAt, completedAt);
        Row(name, Executed, conclusion.value,
            if seconds == None then None else Some(if seconds.value < 0 then 0 else seconds.value))
      else Row(name, Unresolved, Text(conclusion), None)
    case _ => Row(name, Missing, NOT_RECORDED, None)
  }

  function RowsOf(t: Tables, jobs: seq<PayloadJob>): (rows: seq<Row>)
    ensures |rows| == |JOB_ROSTER|
    ensures forall i :: 0 <= i < |rows| ==> rows[i] == RowOf(t, JOB_ROSTER[i], First(jobs, JOB_ROSTER[i]))
  {
    seq(|JOB_ROSTER|, i requires 0 <= i < |JOB_ROSTER| => RowOf(t, JOB_ROSTER[i], First(jobs, JOB_ROSTER[i])))
  }

  lemma {:induction false} FirstAppends(jobs: seq<PayloadJob>, job: PayloadJob, name: string)
    ensures First(jobs + [job], name)
         == if First(jobs, name).Some? then First(jobs, name)
            else if job.Job? && job.name == Named(name) then Some(job) else None
  {
    if jobs != [] {
      assert (jobs + [job])[1..] == jobs[1..] + [job];
      FirstAppends(jobs[1..], job, name);
    }
  }

  /** `_derive_job_rows`: index the first job of each name, then one row for each roster job. */
  method DeriveJobRows(t: Tables, jobs: seq<PayloadJob>) returns (rows: seq<Row>)
    ensures rows == RowsOf(t, jobs)
  {
    var byName: map<string, PayloadJob> := map[];
    for i := 0 to |jobs|
      invariant forall name :: if name in byName then First(jobs[..i], name) == Some(byName[name])
                               else First(jobs[..i], name) == None
    {
      assert jobs[..i + 1] == jobs[..i] + [jobs[i]];
      forall name {
        FirstAppends(jobs[..i], jobs[i], name);
      }
      if jobs[i].Job? && jobs[i].name.Named? && jobs[i].name.text !in byName {
        byName := byName[jobs[i].name.text := jobs[i]];
      }
    }
    assert jobs[..|jobs|] == jobs;
    rows := [];
    for i := 0 to |JOB_ROSTER|
      invariant |rows| == i
      invariant forall k :: 0 <= k < i ==> rows[k] == RowOf(t, JOB_ROSTER[k], First(jobs, JOB_ROSTER[k]))
    {
      var name := JOB_ROSTER[i];
      rows := rows + [RowOf(t, name, if name in byName then Some(byName[name]) else None)];
    }
  }

  // ----- status -----

  datatype Status = COMPLETE | INCOMPLETE | UNBOUND | STALE | FAILED

  /** The marker, or the exception that sorting or joining the job names raises. */
  datatype Outcome = Marker(status: Status, exitCode: int, unexpected: seq<string>) | TypeError

  datatype Binding = NotSupplied | Unresolvable | Differs | Matches

  /** `derive_staleness`; an empty candidate is one that was not given. */
  function DeriveStaleness(t: Tables, candidate: string, headSha: Option<string>): Binding {
    if candidate == "" then NotSupplied
    else if headSha == None || headSha.value == "" then Unresolvable
    else if t.lower(Strip(candidate)) != t.lower(Strip(headSha.value)) then Differs
    else Matches
  }

  /** The run identity fields the status depends on; `candidate` is the recorded candidate text. */
  datatype Identity = Identity(
    event: string, status: string, conclusion: string, attempt: Option<int>, candidate: string, binding: Binding)

  function Filter(rows: seq<Row>, keep: Row -> bool): (names: seq<string>)
    ensures names == [] <==> forall i :: 0 <= i < |rows| ==> !keep(rows[i])
    ensures forall name :: name in names <==> exists i :: 0 <= i < |rows| && keep(rows[i]) && rows[i].job == name
  {
    if rows == [] then []
    else (if keep(rows[0]) then [rows[0].job] else []) + Filter(rows[1..], keep)
  }

  /** The conclusion of the `changes` row, if there is one. */
  function ChangesConclusion(rows: seq<Row>): Option<string> {
    if rows == [] then None
    else if rows[0].job == "changes" then Some(rows[0].conclusion)
    else ChangesConclusion(rows[1..])
  }

  /** `_unexpected_skips`. */
  function UnexpectedSkips(rows: seq<Row>, event: string): seq<string> {
    var changes := ChangesConclusion(rows);
    var dependencyFailed := changes.Some? && changes.value in NON_GREEN_EXECUTED;
    Filter(rows, (row: Row) => row.state == Skipped && row.job !in ExpectedSkips(event)
                               && !(dependencyFailed && row.job != "changes"))
  }

  /** `_prerequisites`: the names outside the roster, as a set; numbers count as one. */
  function RosterDelta(jobs: seq<PayloadJob>): set<JobName> {
    set job | job in jobs && job.Job? && !(job.name.Named? && job.name.text in JOB_ROSTER) :: job.name
  }

  /** The names can be put into a set and sorted: no list or object, and nothing beside null or a number but its like. */
  predicate Sortable(delta: set<JobName>) {
    && Compound !in delta
    && (NoName in delta ==> delta == {NoName})
    && (Number in delta ==> delta == {Number})
  }

  /** The names can be joined into a text. */
  predicate Joinable(delta: set<JobName>) {
    NoName !in delta && Number !in delta && Compound !in delta
  }

  predicate Failing(row: Row) {
    row.state == Executed && row.conclusion in NON_GREEN_EXECUTED
  }

  predicate SoftNonGreen(row: Row) {
    row.state == Executed && row.conclusion != "success" && row.conclusion !in NON_GREEN_EXECUTED
  }

  predicate RunRed(run: Identity) {
    run.status == "completed" && run.conclusion != "success"
  }

  /** `derive_status`: the first branch that applies decides. */
  function DeriveStatus(run: Identity, rows: seq<Row>, delta: set<JobName>, truncated: bool): Outcome {
    var failing := Filter(rows, Failing);
    var soft := Filter(rows, SoftNonGreen);
    var skippedRequired := Filter(rows, (row: Row) => row.state == Skipped && row.job in RequiredJobs(run.event));
    var unexpected := UnexpectedSkips(rows, run.event);
    var gaps := Filter(rows, (row: Row) => row.state == Missing || row.state == Unresolved
                                           || (row.state == Executed && row.duration == None));
    if RunRed(run) || failing != [] then Marker(FAILED, 4, unexpected)
    else if run.candidate == NOT_SUPPLIED then Marker(UNBOUND, 1, unexpected)
    else if run.binding == Differs then Marker(STALE, 1, unexpected)
    else if !Joinable(delta) then TypeError
    else if run.binding != Matches || gaps != [] || skippedRequired != [] || unexpected != [] || truncated
            || soft != [] || run.status != "completed" || run.attempt != Some(1) || delta != {} then
      Marker(INCOMPLETE, 1, unexpected)
    else Marker(COMPLETE, 0, unexpected)
  }

  /** The identity block: absent fields become markers. */
  function IdentityOf(t: Tables, run: RunPayload, candidate: string): Identity {
    Identity(Text(run.event), Text(run.status), Text(run.conclusion), run.attempt,
             if candidate != "" then candidate else NOT_SUPPLIED, DeriveStaleness(t, candidate, run.headSha))
  }

  /** From payload to marker; names that cannot be sorted raise before any status. */
  function VerdictOn(t: Tables, run: RunPayload, jobs: seq<PayloadJob>, truncated: bool, candidate: string): Outcome {
    var delta := RosterDelta(jobs);
    if !Sortable(delta) then TypeError
    else DeriveStatus(IdentityOf(t, run, candidate), RowsOf(t, jobs), delta, truncated)
  }

  // ----- what COMPLETE means -----

  /** The first job of this name is green with both time stamps, or skipped where the event allows it. */
  ghost predicate Demonstrated(t: Tables, jobs: seq<PayloadJob>, event: string, name: string) {
    var found := First(jobs, name);
    && found.Some? && found.value.Job?
    && (|| (found.value.conclusion == Some("success")
            && Moment(t, found.value.startedAt).Some? && Moment(t, found.value.completedAt).Some?)
        || (found.value.conclusion == Some("skipped") && name in ExpectedSkips(event)))
  }

  /** No job object has a missing name or one outside the roster. */
  ghost predicate NoStrangers(jobs: seq<PayloadJob>) {
    forall job :: job in jobs && job.Job? ==> job.name.Named? && job.name.text in JOB_ROSTER
  }

  /** The candidate names the head of the run. */
  ghost predicate HeadBound(t: Tables, run: RunPayload, candidate: string) {
    && candidate != "" && candidate != NOT_SUPPLIED
    && run.headSha.Some? && run.headSha.value != ""
    && t.lower(Strip(candidate)) == t.lower(Strip(run.headSha.value))
  }

  lemma {:induction false} FirstHasName(jobs: seq<PayloadJob>, name: string)
    ensures First(jobs, name).Some? ==> First(jobs, name).value.Job? && First(jobs, name).value.name == Named(name)
  {
    if jobs != [] {
      FirstHasName(jobs[1..], name);
    }
  }

  lemma ChangesIsFirst(t: Tables, jobs: seq<PayloadJob>)
    ensures ChangesConclusion(RowsOf(t, jobs)) == Some(RowsOf(t, jobs)[0].conclusion)
    ensures RowsOf(t, jobs)[0].job == "changes"
  {
    assert JOB_ROSTER[0] == "changes";
  }

  /** A row raises no objection exactly when its job is demonstrated. */
  lemma RowClean(t: Tables, jobs: seq<PayloadJob>, event: string, name: string)
    ensures var row := RowOf(t, name, First(jobs, name));
            && row.job == name
            && (Demonstrated(t, jobs, event, name) <==>
                  && !Failing(row) && !SoftNonGreen(row)
                  && (row.state == Skipped ==> name in ExpectedSkips(event))
                  && row.state != Missing && row.state != Unresolved
                  && (row.state == Executed ==> row.duration != None))
  {
    FirstHasName(jobs, name);
    assert "success" in TERMINAL_CONCLUSIONS && "success" !in NON_GREEN_EXECUTED;
    assert "success" != "skipped";
  }

  lemma NoStrangersMeansNoDelta(jobs: seq<PayloadJob>)
    ensures NoStrangers(jobs) <==> RosterDelta(jobs) == {}
  {
    forall job | job in jobs && job.Job? && !(job.name.Named? && job.name.text in JOB_ROSTER)
      ensures job.name in RosterDelta(jobs)
    {
    }
  }

  /** Every condition a COMPLETE verdict rests on, read off the payload. */
  ghost predicate Certifiable(t: Tables, run: RunPayload, jobs: seq<PayloadJob>, truncated: bool, candidate: string) {
    && run.status == Some("completed") && run.conclusion == Some("success") && run.attempt == Some(1)
    && HeadBound(t, run, candidate)
    && NoStrangers(jobs) && !truncated
    && forall i :: 0 <= i < |JOB_ROSTER| ==> Demonstrated(t, jobs, Text(run.event), JOB_ROSTER[i])
  }

  /** No row objects: nothing failed, soft, missing, undated, or skipped against the event's rules. */
  ghost predicate RowsClean(rows: seq<Row>, event: string) {
    && Filter(rows, Failing) == [] && Filter(rows, SoftNonGreen) == []
    && Filter(rows, (row: Row) => row.state == Skipped && row.job in RequiredJobs(event)) == []
    && UnexpectedSkips(rows, event) == []
    && Filter(rows, (row: Row) => row.state == Missing || row.state == Unresolved
                                  || (row.state == Executed && row.duration == None)) == []
  }

  /** The skip rules add up to: a skipped job is one the event's filter may skip. */
  lemma RowsCleanMeaning(rows: seq<Row>, event: string)
    requires rows != [] && rows[0].job == "changes"
    requires rows[0].state == Executed || rows[0].conclusion !in NON_GREEN_EXECUTED
    ensures RowsClean(rows, event) <==>
              forall i :: 0 <= i < |rows| ==>
                && !Failing(rows[i]) && !SoftNonGreen(rows[i])
                && (rows[i].state == Skipped ==> rows[i].job in ExpectedSkips(event))
                && rows[i].state != Missing && rows[i].state != Unresolved
                && (rows[i].state == Executed ==> rows[i].duration != None)
  {
    assert ChangesConclusion(rows) == Some(rows[0].conclusion);
    assert forall job :: job in RequiredJobs(event) ==> job !in ExpectedSkips(event);
    if Filter(rows, Failing) == [] {
      assert !Failing(rows[0]);
    }
  }

  lemma RowsCleanIff(t: Tables, jobs: seq<PayloadJob>, event: string)
    ensures RowsClean(RowsOf(t, jobs), event) <==>
              forall i :: 0 <= i < |JOB_ROSTER| ==> Demonstrated(t, jobs, event, JOB_ROSTER[i])
  {
    var rows := RowsOf(t, jobs);
    ChangesIsFirst(t, jobs);
    FirstHasName(jobs, "changes");
    assert NOT_RECORDED !in NON_GREEN_EXECUTED && "skipped" !in NON_GREEN_EXECUTED;
    assert NON_GREEN_EXECUTED <= TERMINAL_CONCLUSIONS;
    RowsCleanMeaning(rows, event);
    forall i | 0 <= i < |JOB_ROSTER|
      ensures Demonstrated(t, jobs, event, JOB_ROSTER[i]) <==>
                && !Failing(rows[i]) && !SoftNonGreen(rows[i])
                && (rows[i].state == Skipped ==> rows[i].job in ExpectedSkips(event))
                && rows[i].state != Missing && rows[i].state != Unresolved
                && (rows[i].state == Executed ==> rows[i].duration != None)
    {
      RowClean(t, jobs, event, JOB_ROSTER[i]);
    }
  }

  /** The verdict is COMPLETE, and the exit code 0, exactly when the payload certifies the run. */
  lemma CompleteIff(t: Tables, run: RunPayload, jobs: seq<PayloadJob>, truncated: bool, candidate: string)
    ensures var v := VerdictOn(t, run, jobs, truncated, candidate);
            && ((v.Marker? && v.status == COMPLETE) <==> Certifiable(t, run, jobs, truncated, candidate))
            && ((v.Marker? && v.exitCode == 0) <==> Certifiable(t, run, jobs, truncated, candidate))
  {
    hide RowsOf, Filter, UnexpectedSkips, NoStrangers, RosterDelta, Demonstrated, ExpectedSkips, RequiredJobs;
    NoStrangersMeansNoDelta(jobs);
    RowsCleanIff(t, jobs, Text(run.event));
    assert NOT_RECORDED != "completed" && NOT_RECORDED != "success";
    assert candidate != "" ==> DeriveStaleness(t, candidate, run.headSha) != NotSupplied;
    assert RowsClean(RowsOf(t, jobs), Text(run.event)) ==> Filter(RowsOf(t, jobs), Failing) == [];
  }

  /** The first job of that name ran and succeeded, with both time stamps. */
  ghost predicate RanGreen(t: Tables, jobs: seq<PayloadJob>, name: string) {
    Demonstrated(t, jobs, "", name)
  }

  /**
    What a pass certifies on each event: the path filter can excuse no more than three jobs of
    a pull request, only `gate-guard` on a push, and nothing on any other event.
   */
  lemma PassRanItsJobs(t: Tables, run: RunPayload, jobs: seq<PayloadJob>, truncated: bool, candidate: string)
    requires var v := VerdictOn(t, run, jobs, truncated, candidate); v.Marker? && v.exitCode == 0
    ensures RanGreen(t, jobs, "changes") && RanGreen(t, jobs, "validate-skills")
    ensures run.event == Some("pull_request") ==> RanGreen(t, jobs, "gate-guard")
    ensures run.event == Some("push") ==>
              && RanGreen(t, jobs, "windows-offline-checks") && RanGreen(t, jobs, "tools-tests-linux")
              && RanGreen(t, jobs, "tools-tests-windows")
    ensures run.event != Some("push") && run.event != Some("pull_request") ==>
              forall i :: 0 <= i < |JOB_ROSTER| ==> RanGreen(t, jobs, JOB_ROSTER[i])
  {
    hide First, Moment, VerdictOn, HeadBound, NoStrangers;
    CompleteIff(t, run, jobs, truncated, candidate);
    var event := Text(run.event);
    assert NOT_RECORDED != "push" && NOT_RECORDED != "pull_request";
    assert JOB_ROSTER[0] == "changes" && JOB_ROSTER[1] == "validate-skills" && JOB_ROSTER[2] == "gate-guard";
    assert JOB_ROSTER[3] == "windows-offline-checks" && JOB_ROSTER[4] == "tools-tests-linux" && JOB_ROSTER[5] == "tools-tests-windows";
    forall i | 0 <= i < |JOB_ROSTER|
      ensures Demonstrated(t, jobs, event, JOB_ROSTER[i])
      ensures JOB_ROSTER[i] !in ExpectedSkips(event) ==> RanGreen(t, jobs, JOB_ROSTER[i])
    {
    }
    assert "changes" != "gate-guard" && "validate-skills" != "gate-guard";
  }

  // ----- what the other verdicts mean -----

  ghost predicate EndedRed(jobs: seq<PayloadJob>, name: string) {
    var found := First(jobs, name);
    found.Some? && found.value.Job? && found.value.conclusion.Some? && found.value.conclusion.value in NON_GREEN_EXECUTED
  }

  /** The run completed without success, or the first job of some roster name ended in a red conclusion. */
  ghost predicate Red(run: RunPayload, jobs: seq<PayloadJob>) {
    || (run.status == Some("completed") && run.conclusion != Some("success"))
    || exists i :: 0 <= i < |JOB_ROSTER| && EndedRed(jobs, JOB_ROSTER[i])
  }

  /** The name is one the roster does not have. */
  predicate Outside(job: PayloadJob) {
    job.Job? && !(job.name.Named? && job.name.text in JOB_ROSTER)
  }

  predicate SameKind(a: JobName, b: JobName) {
    a.NoName? == b.NoName? && a.Named? == b.Named? && a.Number? == b.Number?
  }

  /** A name is a list or an object, or two names outside the roster are of different kinds. */
  ghost predicate Unsortable(jobs: seq<PayloadJob>) {
    || (exists job :: job in jobs && job.Job? && job.name.Compound?)
    || (exists a, b :: a in jobs && b in jobs && Outside(a) && Outside(b) && !SameKind(a.name, b.name))
  }

  /** A name is not a string. */
  ghost predicate Unjoinable(jobs: seq<PayloadJob>) {
    exists job :: job in jobs && job.Job? && !job.name.Named?
  }

  predicate Supplied(candidate: string) {
    candidate != "" && candidate != NOT_SUPPLIED
  }

  /** What the two tests on the set of names mean on the payload. */
  lemma DeltaMeans(jobs: seq<PayloadJob>)
    ensures Sortable(RosterDelta(jobs)) <==> !Unsortable(jobs)
    ensures Joinable(RosterDelta(jobs)) <==> !Unjoinable(jobs)
  {
    hide First;
    var delta := RosterDelta(jobs);
    forall job | job in jobs && Outside(job) ensures job.name in delta {
    }
    if !Unsortable(jobs) {
      forall a, b | a in delta && b in delta ensures SameKind(a, b) {
      }
    }
    if a, b :| a in jobs && b in jobs && Outside(a) && Outside(b) && !SameKind(a.name, b.name) {
      assert a.name in delta && b.name in delta;
    }
  }

  /** What decides between the first branches of `derive_status`, read off the payload. */
  lemma FailingMeansRed(t: Tables, run: RunPayload, jobs: seq<PayloadJob>, candidate: string)
    ensures RunRed(IdentityOf(t, run, candidate)) || Filter(RowsOf(t, jobs), Failing) != [] <==> Red(run, jobs)
  {
    hide RowsOf, Filter;
    var rows := RowsOf(t, jobs);
    assert NOT_RECORDED != "completed" && NOT_RECORDED != "success";
    assert NOT_RECORDED !in NON_GREEN_EXECUTED && "skipped" !in NON_GREEN_EXECUTED;
    assert NON_GREEN_EXECUTED <= TERMINAL_CONCLUSIONS;
    forall i | 0 <= i < |JOB_ROSTER|
      ensures Failing(rows[i]) <==> EndedRed(jobs, JOB_ROSTER[i])
    {
      FirstHasName(jobs, JOB_ROSTER[i]);
    }
  }

  /**
    The run is reported FAILED, with exit code 4, exactly when it or a roster job is red: no
    missing candidate, stale head or gap can soften that. (Names that cannot be sorted raise first.)
   */
  lemma FailedIff(t: Tables, run: RunPayload, jobs: seq<PayloadJob>, truncated: bool, candidate: string)
    ensures var v := VerdictOn(t, run, jobs, truncated, candidate);
            && ((v.Marker? && v.status == FAILED) <==> Red(run, jobs) && !Unsortable(jobs))
            && ((v.Marker? && v.exitCode == 4) <==> Red(run, jobs) && !Unsortable(jobs))
  {
    hide RowsOf, UnexpectedSkips, RosterDelta, Filter, Red, Unsortable, Unjoinable, Sortable, Joinable, IdentityOf, RunRed;
    DeltaMeans(jobs);
    FailingMeansRed(t, run, jobs, candidate);
  }

  /**
    A payload gets no status exactly when its job names cannot be sorted, or when one is not a
    string and none of the branches before it decides: nothing red, a candidate supplied, and the head
    not known to differ from it.
   */
  lemma TypeErrorIff(t: Tables, run: RunPayload, jobs: seq<PayloadJob>, truncated: bool, candidate: string)
    ensures VerdictOn(t, run, jobs, truncated, candidate).TypeError? <==>
              || Unsortable(jobs)
              || (Unjoinable(jobs) && !Red(run, jobs) && Supplied(candidate)
                  && DeriveStaleness(t, candidate, run.headSha) != Differs)
  {
    hide RowsOf, UnexpectedSkips, RosterDelta, Filter, Red, Unsortable, Unjoinable, Sortable, Joinable, RunRed, DeriveStaleness;
    DeltaMeans(jobs);
    FailingMeansRed(t, run, jobs, candidate);
  }

  /** UNBOUND and STALE: nothing red, and no candidate, or one that differs from the recorded head. */
  lemma UnboundOrStaleIff(t: Tables, run: RunPayload, jobs: seq<PayloadJob>, truncated: bool, candidate: string)
    ensures var v := VerdictOn(t, run, jobs, truncated, candidate);
            && ((v.Marker? && v.status == UNBOUND) <==>
                  !Red(run, jobs) && !Unsortable(jobs) && !Supplied(candidate))
            && ((v.Marker? && v.status == STALE) <==>
                  !Red(run, jobs) && !Unsortable(jobs) && Supplied(candidate)
                  && run.headSha.Some? && run.headSha.value != ""
                  && t.lower(Strip(candidate)) != t.lower(Strip(run.headSha.value)))
  {
    hide RowsOf, UnexpectedSkips, RosterDelta, Filter, Red, Unsortable, Unjoinable, Sortable, Joinable, RunRed;
    DeltaMeans(jobs);
    FailingMeansRed(t, run, jobs, candidate);
  }

  /** One green job object without a name, in a green run of the candidate, gets no status. */
  lemma NamelessJobRaises(t: Tables)
    ensures var run := RunPayload(Some("push"), Some("completed"), Some("success"), Some(1), Some("c0ffee"));
            VerdictOn(t, run, [Job(NoName, Some("success"), None, None)], false, "c0ffee").TypeError?
  {
    var run := RunPayload(Some("push"), Some("completed"), Some("success"), Some(1), Some("c0ffee"));
    var jobs := [Job(NoName, Some("success"), None, None)];
    assert jobs[0] in jobs;
    forall name: string ensures First(jobs, name) == None {
      assert First(jobs[1..], name) == None;
    }
    assert NOT_SUPPLIED[0] != "c0ffee"[0];
    TypeErrorIff(t, run, jobs, false, "c0ffee");
  }

  /** A null name beside a number raises even in a red run, before any status. */
  lemma MixedNamesRaise(t: Tables, run: RunPayload, truncated: bool, candidate: string)
    ensures VerdictOn(t, run, [Job(NoName, None, None, None), Job(Number, None, None, None)], truncated, candidate).TypeError?
  {
    var jobs := [Job(NoName, None, None, None), Job(Number, None, None, None)];
    assert jobs[0] in jobs && jobs[1] in jobs;
    TypeErrorIff(t, run, jobs, truncated, candidate);
  }

  /** A candidate spelled like the absence marker is not bound to a head of the same spelling. */
  lemma MarkerCandidateUnbound(t: Tables)
    ensures var run := RunPayload(Some("push"), Some("completed"), Some("success"), Some(1), Some(NOT_SUPPLIED));
            && DeriveStaleness(t, NOT_SUPPLIED, run.headSha) == Matches
            && VerdictOn(t, run, [], false, NOT_SUPPLIED).Marker?
            && VerdictOn(t, run, [], false, NOT_SUPPLIED).status == UNBOUND
  {
    var run := RunPayload(Some("push"), Some("completed"), Some("success"), Some(1), Some(NOT_SUPPLIED));
    forall name: string ensures First([], name) == None {
    }
    UnboundOrStaleIff(t, run, [], false, NOT_SUPPLIED);
  }

  /** An executed row's duration is the whole seconds between the stamps, and 0 for a reversed window. */
  lemma DurationMeaning(t: Tables, name: string, job: PayloadJob)
    requires job.Job? && RowOf(t, name, Some(job)).state == Executed
    ensures var duration := RowOf(t, name, Some(job)).duration;
            && (duration.Some? <==> Moment(t, job.startedAt).Some? && Moment(t, job.completedAt).Some?)
            && (duration.Some? ==>
                  var us := Moment(t, job.completedAt).value - Moment(t, job.startedAt).value;
                  if us >= 0 then duration.value * 1000000 <= us < (duration.value + 1) * 1000000
                  else duration.value == 0)
  {
    hide Moment;
  }

  // ----- the verdicts with names and conclusions spelled out -----

  /** A time stamp that the parser reads. */
  predicate Stamped(t: Tables, stamp: Option<string>) {
    stamp.Some? && stamp.value != "" && t.iso(stamp.value).Some?
  }

  /** The first job object of that name succeeded, with both time stamps. */
  ghost predicate Green(t: Tables, jobs: seq<PayloadJob>, name: string) {
    exists i :: FirstAt(jobs, name, i) && jobs[i].conclusion == Some("success")
                && Stamped(t, jobs[i].startedAt) && Stamped(t, jobs[i].completedAt)
  }

  /** The first job object of that name was skipped. */
  ghost predicate WasSkipped(jobs: seq<PayloadJob>, name: string) {
    exists i :: FirstAt(jobs, name, i) && jobs[i].conclusion == Some("skipped")
  }

  /** Element `i` is the first job object of that name. */
  predicate FirstAt(jobs: seq<PayloadJob>, name: string, i: int) {
    && 0 <= i < |jobs| && jobs[i].Job? && jobs[i].name == Named(name)
    && forall k :: 0 <= k < i ==> !(jobs[k].Job? && jobs[k].name == Named(name))
  }

  lemma {:induction false} FirstMeans(jobs: seq<PayloadJob>, name: string)
    ensures First(jobs, name) == None <==> forall i :: !FirstAt(jobs, name, i)
    ensures forall i :: FirstAt(jobs, name, i) ==> First(jobs, name) == Some(jobs[i])
  {
    if jobs != [] {
      FirstMeans(jobs[1..], name);
      forall i | i != 0 && !(jobs[0].Job? && jobs[0].name == Named(name))
        ensures FirstAt(jobs, name, i) <==> FirstAt(jobs[1..], name, i - 1)
      {
        if FirstAt(jobs[1..], name, i - 1) {
          assert forall k :: 0 < k < i ==> jobs[k] == jobs[1..][k - 1];
        }
        if FirstAt(jobs, name, i) {
          assert forall k :: 0 <= k < i - 1 ==> jobs[1..][k] == jobs[k + 1];
        }
      }
      assert jobs[0].Job? && jobs[0].name == Named(name) ==> FirstAt(jobs, name, 0);
      if First(jobs[1..], name).Some? && !(jobs[0].Job? && jobs[0].name == Named(name)) {
        var i :| FirstAt(jobs[1..], name, i);
        assert FirstAt(jobs, name, i + 1);
      }
    }
  }

  lemma DemonstratedMeans(t: Tables, jobs: seq<PayloadJob>, event: string, name: string)
    ensures Demonstrated(t, jobs, event, name) <==>
              Green(t, jobs, name) || (WasSkipped(jobs, name) && name in ExpectedSkips(event))
  {
    hide ExpectedSkips, FirstAt;
    FirstMeans(jobs, name);
    FirstHasName(jobs, name);
    if First(jobs, name).Some? {
      var i :| FirstAt(jobs, name, i);
    }
  }

  /** What a pass asks of the run itself, whatever the event. */
  ghost predicate PassingRun(t: Tables, run: RunPayload, jobs: seq<PayloadJob>, truncated: bool, candidate: string) {
    && run.status == Some("completed") && run.conclusion == Some("success") && run.attempt == Some(1) && !truncated
    && candidate != "" && candidate != "not_supplied" && run.headSha.Some? && run.headSha.value != ""
    && t.lower(Strip(candidate)) == t.lower(Strip(run.headSha.value))
    && forall job :: job in jobs && job.Job? ==>
         job.name in {Named("changes"), Named("validate-skills"), Named("gate-guard"), Named("windows-offline-checks"),
                      Named("tools-tests-linux"), Named("tools-tests-windows")}
  }

  ghost predicate Passes(t: Tables, run: RunPayload, jobs: seq<PayloadJob>, truncated: bool, candidate: string) {
    var v := VerdictOn(t, run, jobs, truncated, candidate);
    v.Marker? && v.exitCode == 0
  }

  lemma RosterIs()
    ensures JOB_ROSTER[0] == "changes" && JOB_ROSTER[1] == "validate-skills" && JOB_ROSTER[2] == "gate-guard"
    ensures JOB_ROSTER[3] == "windows-offline-checks" && JOB_ROSTER[4] == "tools-tests-linux"
    ensures JOB_ROSTER[5] == "tools-tests-windows" && |JOB_ROSTER| == 6
    ensures forall name :: name in JOB_ROSTER <==>
              name in {"changes", "validate-skills", "gate-guard", "windows-offline-checks", "tools-tests-linux", "tools-tests-windows"}
  {
  }

  lemma PassingRunMeans(t: Tables, run: RunPayload, jobs: seq<PayloadJob>, truncated: bool, candidate: string)
    ensures Passes(t, run, jobs, truncated, candidate) <==>
              && PassingRun(t, run, jobs, truncated, candidate)
              && forall i :: 0 <= i < |JOB_ROSTER| ==>
                   Green(t, jobs, JOB_ROSTER[i])
                   || (WasSkipped(jobs, JOB_ROSTER[i]) && JOB_ROSTER[i] in ExpectedSkips(Text(run.event)))
  {
    hide VerdictOn, Demonstrated, Green, WasSkipped, ExpectedSkips;
    CompleteIff(t, run, jobs, truncated, candidate);
    RosterIs();
    forall i | 0 <= i < |JOB_ROSTER|
      ensures Demonstrated(t, jobs, Text(run.event), JOB_ROSTER[i]) <==>
                Green(t, jobs, JOB_ROSTER[i])
                || (WasSkipped(jobs, JOB_ROSTER[i]) && JOB_ROSTER[i] in ExpectedSkips(Text(run.event)))
    {
      DemonstratedMeans(t, jobs, Text(run.event), JOB_ROSTER[i]);
    }
    assert NoStrangers(jobs) <==> forall job :: job in jobs && job.Job? ==>
             job.name in {Named("changes"), Named("validate-skills"), Named("gate-guard"), Named("windows-offline-checks"),
                          Named("tools-tests-linux"), Named("tools-tests-windows")};
  }

  lemma AllSix(p: string -> bool)
    ensures (forall i :: 0 <= i < |JOB_ROSTER| ==> p(JOB_ROSTER[i])) <==>
              && p("changes") && p("validate-skills") && p("gate-guard")
              && p("windows-offline-checks") && p("tools-tests-linux") && p("tools-tests-windows")
  {
    RosterIs();
  }

  /** A pull request passes exactly when three jobs ran green and the three filtered ones ran green or were skipped. */
  lemma PullRequestPasses(t: Tables, run: RunPayload, jobs: seq<PayloadJob>, truncated: bool, candidate: string)
    requires run.event == Some("pull_request")
    ensures Passes(t, run, jobs, truncated, candidate) <==>
              && PassingRun(t, run, jobs, truncated, candidate)
              && Green(t, jobs, "changes") && Green(t, jobs, "validate-skills") && Green(t, jobs, "gate-guard")
              && (Green(t, jobs, "windows-offline-checks") || WasSkipped(jobs, "windows-offline-checks"))
              && (Green(t, jobs, "tools-tests-linux") || WasSkipped(jobs, "tools-tests-linux"))
              && (Green(t, jobs, "tools-tests-windows") || WasSkipped(jobs, "tools-tests-windows"))
  {
    hide Passes, PassingRun, Green, WasSkipped;
    PassingRunMeans(t, run, jobs, truncated, candidate);
    AllSix(name => Green(t, jobs, name) || (WasSkipped(jobs, name) && name in ExpectedSkips("pull_request")));
    PullRequestSkips();
  }

  lemma PullRequestSkips()
    ensures forall name :: name in ExpectedSkips("pull_request") <==>
              name == "windows-offline-checks" || name == "tools-tests-linux" || name == "tools-tests-windows"
  {
    assert "pull_request" != "push";
  }

  /** A push passes exactly when five jobs ran green and `gate-guard` ran green or was skipped. */
  lemma PushPasses(t: Tables, run: RunPayload, jobs: seq<PayloadJob>, truncated: bool, candidate: string)
    requires run.event == Some("push")
    ensures Passes(t, run, jobs, truncated, candidate) <==>
              && PassingRun(t, run, jobs, truncated, candidate)
              && Green(t, jobs, "changes") && Green(t, jobs, "validate-skills")
              && (Green(t, jobs, "gate-guard") || WasSkipped(jobs, "gate-guard"))
              && Green(t, jobs, "windows-offline-checks") && Green(t, jobs, "tools-tests-linux")
              && Green(t, jobs, "tools-tests-windows")
  {
    hide Passes, PassingRun, Green, WasSkipped;
    PassingRunMeans(t, run, jobs, truncated, candidate);
    AllSix(name => Green(t, jobs, name) || (WasSkipped(jobs, name) && name in ExpectedSkips("push")));
    assert forall name :: name in ExpectedSkips("push") <==> name == "gate-guard";
  }

  /** On any other event, recorded or not, a pass needs all six jobs green. */
  lemma OtherEventPasses(t: Tables, run: RunPayload, jobs: seq<PayloadJob>, truncated: bool, candidate: string)
    requires run.event != Some("pull_request") && run.event != Some("push")
    ensures Passes(t, run, jobs, truncated, candidate) <==>
              && PassingRun(t, run, jobs, truncated, candidate)
              && Green(t, jobs, "changes") && Green(t, jobs, "validate-skills") && Green(t, jobs, "gate-guard")
              && Green(t, jobs, "windows-offline-checks") && Green(t, jobs, "tools-tests-linux")
              && Green(t, jobs, "tools-tests-windows")
  {
    hide Passes, PassingRun, Green, WasSkipped;
    PassingRunMeans(t, run, jobs, truncated, candidate);
    assert NOT_RECORDED != "push" && NOT_RECORDED != "pull_request";
    assert ExpectedSkips(Text(run.event)) == [];
    AllSix(name => Green(t, jobs, name) || (WasSkipped(jobs, name) && name in ExpectedSkips(Text(run.event))));
  }

  /** The first job object of that name has this conclusion. */
  ghost predicate Concluded(jobs: seq<PayloadJob>, name: string, conclusion: string) {
    exists i :: FirstAt(jobs, name, i) && jobs[i].conclusion == Some(conclusion)
  }

  lemma EndedRedMeans(jobs: seq<PayloadJob>, name: string)
    ensures EndedRed(jobs, name) <==>
              exists conclusion :: Concluded(jobs, name, conclusion)
                && conclusion in {"failure", "cancelled", "timed_out", "action_required", "stale"}
  {
    FirstMeans(jobs, name);
    if EndedRed(jobs, name) {
      var i :| FirstAt(jobs, name, i);
      assert Concluded(jobs, name, jobs[i].conclusion.value);
    }
  }

  /** A run is red by its own conclusion, or by a roster job with one of five conclusions. */
  lemma RedMeans(run: RunPayload, jobs: seq<PayloadJob>)
    ensures Red(run, jobs) <==>
              || (run.status == Some("completed") && run.conclusion != Some("success"))
              || exists name, conclusion :: Concluded(jobs, name, conclusion)
                   && name in {"changes", "validate-skills", "gate-guard", "windows-offline-checks", "tools-tests-linux",
                               "tools-tests-windows"}
                   && conclusion in {"failure", "cancelled", "timed_out", "action_required", "stale"}
  {
    hide FirstAt;
    RosterIs();
    forall name ensures EndedRed(jobs, name) <==>
                          exists conclusion :: Concluded(jobs, name, conclusion)
                            && conclusion in {"failure", "cancelled", "timed_out", "action_required", "stale"}
    {
      EndedRedMeans(jobs, name);
    }
    hide EndedRed, Concluded;
    if exists i :: 0 <= i < |JOB_ROSTER| && EndedRed(jobs, JOB_ROSTER[i]) {
      var i :| 0 <= i < |JOB_ROSTER| && EndedRed(jobs, JOB_ROSTER[i]);
      assert JOB_ROSTER[i] in JOB_ROSTER;
    }
    if name, conclusion :| Concluded(jobs, name, conclusion) && name in JOB_ROSTER
                           && conclusion in {"failure", "cancelled", "timed_out", "action_required", "stale"}
    {
      var i :| 0 <= i < |JOB_ROSTER| && JOB_ROSTER[i] == name;
      assert EndedRed(jobs, JOB_ROSTER[i]);
    }
  }

  lemma MarkerNames(t: Tables, run: RunPayload, jobs: seq<PayloadJob>, truncated: bool, candidate: string)
    requires VerdictOn(t, run, jobs, truncated, candidate).Marker?
    ensures VerdictOn(t, run, jobs, truncated, candidate).unexpected == UnexpectedSkips(RowsOf(t, jobs), Text(run.event))
  {
    hide RowsOf, RosterDelta, Sortable, Joinable, UnexpectedSkips, Filter;
  }

  lemma UnexpectedAmong(rows: seq<Row>, event: string, name: string)
    ensures var changes := ChangesConclusion(rows);
            name in UnexpectedSkips(rows, event) <==>
              exists i :: 0 <= i < |rows| && rows[i].job == name && rows[i].state == Skipped && name !in ExpectedSkips(event)
                          && !(changes.Some? && changes.value in NON_GREEN_EXECUTED && name != "changes")
  {
    hide ExpectedSkips;
  }

  lemma ChangesFailed(t: Tables, jobs: seq<PayloadJob>)
    ensures var changes := ChangesConclusion(RowsOf(t, jobs));
            changes.Some? && changes.value in NON_GREEN_EXECUTED <==> EndedRed(jobs, "changes")
  {
    hide DurationSeconds, RowsOf;
    ChangesIsFirst(t, jobs);
    RosterIs();
    FirstHasName(jobs, "changes");
    assert NOT_RECORDED !in NON_GREEN_EXECUTED && "skipped" !in NON_GREEN_EXECUTED;
    assert NON_GREEN_EXECUTED <= TERMINAL_CONCLUSIONS;
  }

  /** The marker names exactly the jobs skipped without leave: not allowed by the event, nor explained by a failed `changes`. */
  lemma UnexpectedNames(t: Tables, run: RunPayload, jobs: seq<PayloadJob>, truncated: bool, candidate: string, name: string)
    requires VerdictOn(t, run, jobs, truncated, candidate).Marker?
    ensures name in VerdictOn(t, run, jobs, truncated, candidate).unexpected <==>
              && name in JOB_ROSTER && WasSkipped(jobs, name) && name !in ExpectedSkips(Text(run.event))
              && (name == "changes"
                  || !exists conclusion :: Concluded(jobs, "changes", conclusion)
                       && conclusion in {"failure", "cancelled", "timed_out", "action_required", "stale"})
  {
    hide VerdictOn, ExpectedSkips, UnexpectedSkips, RowsOf, ChangesConclusion, EndedRed, Concluded, WasSkipped, First;
    var rows := RowsOf(t, jobs);
    MarkerNames(t, run, jobs, truncated, candidate);
    UnexpectedAmong(rows, Text(run.event), name);
    ChangesFailed(t, jobs);
    EndedRedMeans(jobs, "changes");
    forall i | 0 <= i < |rows|
      ensures rows[i].job == JOB_ROSTER[i] && (rows[i].state == Skipped <==> WasSkipped(jobs, JOB_ROSTER[i]))
    {
      SkippedRow(t, jobs, i);
    }
    if name in JOB_ROSTER {
      var i :| 0 <= i < |JOB_ROSTER| && JOB_ROSTER[i] == name;
      assert rows[i].job == name;
    }
  }

  lemma SkippedRow(t: Tables, jobs: seq<PayloadJob>, i: nat)
    requires i < |JOB_ROSTER|
    ensures RowsOf(t, jobs)[i].job == JOB_ROSTER[i]
    ensures RowsOf(t, jobs)[i].state == Skipped <==> WasSkipped(jobs, JOB_ROSTER[i])
  {
    hide FirstAt, DurationSeconds;
    FirstMeans(jobs, JOB_ROSTER[i]);
    FirstHasName(jobs, JOB_ROSTER[i]);
    if First(jobs, JOB_ROSTER[i]).Some? {
      var k :| FirstAt(jobs, JOB_ROSTER[i], k);
    }
  }

  /** What the row of a roster job records, by the first job object of its name. */
  lemma RowMeans(t: Tables, jobs: seq<PayloadJob>, i: nat)
    requires i < 6
    ensures var row, name := RowsOf(t, jobs)[i], JOB_ROSTER[i];
            && row.job == name
            && (row.state == Missing <==> forall k :: !FirstAt(jobs, name, k))
            && (row.state == Missing ==> row.conclusion == "not_recorded" && row.duration == None)
            && forall k :: FirstAt(jobs, name, k) ==>
                 && row.conclusion == (if jobs[k].conclusion.Some? then jobs[k].conclusion.value else "not_recorded")
                 && (row.state == Skipped <==> jobs[k].conclusion == Some("skipped"))
                 && (row.state == Executed <==>
                       jobs[k].conclusion.Some? && jobs[k].conclusion.value in
                         {"success", "failure", "cancelled", "timed_out", "action_required", "stale", "neutral"})
                 && (row.state != Executed ==> row.duration == None)
  {
    hide FirstAt, DurationSeconds;
    RosterIs();
    FirstMeans(jobs, JOB_ROSTER[i]);
    FirstHasName(jobs, JOB_ROSTER[i]);
    assert "skipped" !in {"success", "failure", "cancelled", "timed_out", "action_required", "stale", "neutral"};
  }

  // ----- paging -----

  const JOBS_PER_PAGE: nat := 100
  const MAX_JOB_PAGES: nat := 10

  /** One page of the job list as the transport returns it, with the total it advertises. */
  datatype Page = Malformed | Page(jobs: seq<PayloadJob>, total: Option<nat>)

  /** The jobs of the first `n` pages. */
  ghost function JobsOf(fetch: nat -> Page, n: nat): seq<PayloadJob> {
    if n == 0 then [] else JobsOf(fetch, n - 1) + (if fetch(n).Page? then fetch(n).jobs else [])
  }

  /** The total that the first `n` pages advertised last. */
  ghost function TotalOf(fetch: nat -> Page, n: nat): Option<nat> {
    if n == 0 then None
    else if fetch(n).Page? && fetch(n).total.Some? then fetch(n).total
    else TotalOf(fetch, n - 1)
  }

  ghost predicate ShortPage(fetch: nat -> Page, n: nat) {
    fetch(n).Page? && |fetch(n).jobs| < JOBS_PER_PAGE
  }

  /** Page `n` gives a reason to stop. */
  ghost predicate StopsAt(fetch: nat -> Page, n: nat) {
    || ShortPage(fetch, n)
    || (TotalOf(fetch, n).Some? && |JobsOf(fetch, n)| >= TotalOf(fetch, n).value)
    || n >= MAX_JOB_PAGES
  }

  /** The read ends with page `n`, the first that gives a reason to stop. */
  ghost predicate ReadEndsAt(fetch: nat -> Page, n: nat) {
    1 <= n && StopsAt(fetch, n) && forall k :: 1 <= k < n ==> !StopsAt(fetch, k)
  }

  /** The three reasons, in numbers: fewer than 100 jobs on the page, everything advertised read, ten pages read. */
  lemma ReasonsToStop(fetch: nat -> Page, n: nat)
    ensures StopsAt(fetch, n) <==>
              || n >= 10
              || (fetch(n).Page? && |fetch(n).jobs| <= 99)
              || (TotalOf(fetch, n).Some? && |JobsOf(fetch, n)| >= TotalOf(fetch, n).value)
  {
  }

  datatype Read = TransportFailure | Read(jobs: seq<PayloadJob>, pagesRead: nat, total: Option<nat>, truncated: bool)

  /** The API advertised more jobs than the first `n` pages hold. */
  ghost predicate Shortfall(fetch: nat -> Page, n: nat) {
    TotalOf(fetch, n).Some? && |JobsOf(fetch, n)| < TotalOf(fetch, n).value
  }

  /** The truncation flag after `n` pages. */
  ghost predicate FlagSet(fetch: nat -> Page, n: nat) {
    Shortfall(fetch, n) && (n >= MAX_JOB_PAGES || |JobsOf(fetch, n)| < JOBS_PER_PAGE * n)
  }

  /** A malformed page is met before any page gives a reason to stop. */
  ghost predicate BreaksOff(fetch: nat -> Page) {
    exists k: nat :: 1 <= k <= MAX_JOB_PAGES && fetch(k) == Malformed && forall i :: 1 <= i < k ==> !StopsAt(fetch, i)
  }

  /** The read succeeds and ends with page `n`. */
  ghost predicate ReadsThrough(fetch: nat -> Page, n: nat) {
    n <= MAX_JOB_PAGES && ReadEndsAt(fetch, n) && forall k :: 1 <= k <= n ==> fetch(k).Page?
  }

  /** A read has one outcome: it breaks off, or it ends with exactly one page. */
  lemma ReadOutcome(fetch: nat -> Page, n: nat)
    requires ReadsThrough(fetch, n)
    ensures !BreaksOff(fetch)
    ensures forall m: nat :: ReadsThrough(fetch, m) ==> m == n
  {
    hide StopsAt;
  }

  /** The job part of `_fetch_run_and_jobs`. */
  method FetchJobs(fetch: nat -> Page) returns (r: Read)
    ensures r.TransportFailure? <==> BreaksOff(fetch)
    ensures r.Read? ==>
              && ReadsThrough(fetch, r.pagesRead)
              && r.jobs == JobsOf(fetch, r.pagesRead) && r.total == TotalOf(fetch, r.pagesRead)
              && (r.truncated <==> FlagSet(fetch, r.pagesRead))
  {
    var jobs: seq<PayloadJob>, page, pagesRead := [], 1, 0;
    var total: Option<nat> := None;
    while page <= MAX_JOB_PAGES
      invariant 1 <= page <= MAX_JOB_PAGES && pagesRead == page - 1
      invariant jobs == JobsOf(fetch, pagesRead) && total == TotalOf(fetch, pagesRead)
      invariant forall k :: 1 <= k <= pagesRead ==> !StopsAt(fetch, k) && fetch(k).Page?
      decreases MAX_JOB_PAGES - page
    {
      var payload := fetch(page);
      if payload == Malformed {
        return TransportFailure;
      }
      if payload.total.Some? {
        total := payload.total;
      }
      jobs := jobs + payload.jobs;
      pagesRead := pagesRead + 1;
      if payload.jobs == [] || |payload.jobs| < JOBS_PER_PAGE {
        break;
      }
      if total.Some? && |jobs| >= total.value {
        break;
      }
      if page >= MAX_JOB_PAGES {
        break;
      }
      page := page + 1;
    }
    assert ReadsThrough(fetch, pagesRead);
    hide StopsAt, ReadsThrough, BreaksOff;
    var truncated := total.Some? && |jobs| < total.value
                     && (pagesRead >= MAX_JOB_PAGES || |jobs| < JOBS_PER_PAGE * pagesRead);
    ReadOutcome(fetch, pagesRead);
    r := Read(jobs, pagesRead, total, truncated);
  }

  /** By how many jobs the first `n` pages together exceed the page size; negative if they fall short of it. */
  ghost function Overflow(fetch: nat -> Page, n: nat): int {
    if n == 0 then 0
    else Overflow(fetch, n - 1) + (if fetch(n).Page? then |fetch(n).jobs| else 0) - JOBS_PER_PAGE
  }

  lemma {:induction false} PagesAddUp(fetch: nat -> Page, n: nat)
    ensures |JobsOf(fetch, n)| == JOBS_PER_PAGE * n + Overflow(fetch, n)
    ensures (forall k :: 1 <= k <= n && fetch(k).Page? ==> |fetch(k).jobs| <= JOBS_PER_PAGE) ==> Overflow(fetch, n) <= 0
  {
    if n > 0 {
      PagesAddUp(fetch, n - 1);
    }
  }

  /**
    Exactly when the truncation flag tells the truth: it misses a shortfall if and only if a short
    page ended the read before the tenth and the pages before it held at least as many jobs above the
    page size as it held below.
   */
  lemma TruncationExact(fetch: nat -> Page, n: nat)
    requires ReadEndsAt(fetch, n)
    ensures (FlagSet(fetch, n) <==> Shortfall(fetch, n)) <==>
              !(n < MAX_JOB_PAGES && ShortPage(fetch, n) && Shortfall(fetch, n)
                && Overflow(fetch, n - 1) >= JOBS_PER_PAGE - |fetch(n).jobs|)
    ensures (forall k :: 1 <= k <= n && fetch(k).Page? ==> |fetch(k).jobs| <= JOBS_PER_PAGE) ==>
              (FlagSet(fetch, n) <==> Shortfall(fetch, n))
  {
    assert Shortfall(fetch, n) && n < MAX_JOB_PAGES ==> ShortPage(fetch, n);
    PagesAddUp(fetch, n);
    PagesAddUp(fetch, n - 1);
  }

  /** A first page of 250 jobs, an empty second one and an advertised total of 300 go unnoticed. */
  lemma OverflowHidesShortfall()
    ensures var fetch: nat -> Page := n => if n == 1 then Page(seq(250, i => NotAnObject), Some(300)) else Page([], None);
            ReadsThrough(fetch, 2) && Shortfall(fetch, 2) && !FlagSet(fetch, 2)
  {
    var fetch: nat -> Page := n => if n == 1 then Page(seq(250, i => NotAnObject), Some(300)) else Page([], None);
    assert JobsOf(fetch, 0) == [];
    assert |JobsOf(fetch, 1)| == 250 && TotalOf(fetch, 1) == Some(300);
    assert |JobsOf(fetch, 2)| == 250 && TotalOf(fetch, 2) == Some(300);
    assert !StopsAt(fetch, 1);
  }

  // ----- the command -----

  /** No `--attempt` was given, or the run confirms it. */
  predicate Confirms(run: RunPayload, attempt: Option<int>) {
    attempt.Some? ==> run.attempt == attempt
  }

  /** The read ends with page `n`, and what it holds certifies the run. */
  ghost predicate ReadCertifies(t: Tables, run: RunPayload, fetch: nat -> Page, candidate: string, n: nat) {
    ReadsThrough(fetch, n) && Certifiable(t, run, JobsOf(fetch, n), FlagSet(fetch, n), candidate)
  }

  /** The read ends with page `n`, and what it holds is reported FAILED. */
  ghost predicate ReadFails(run: RunPayload, fetch: nat -> Page, n: nat) {
    ReadsThrough(fetch, n) && Red(run, JobsOf(fetch, n)) && !Unsortable(JobsOf(fetch, n))
  }

  /**
    `run_command` from the run payload on: an unreadable payload is 3, an `--attempt` the run does
    not confirm is 2, and an exception that nothing catches ends the process with 1.
   */
  method RunCommand(t: Tables, run: Option<RunPayload>, fetch: nat -> Page, candidate: string, attempt: Option<int>)
    returns (exitCode: int)
    ensures exitCode == 3 <==> run == None || BreaksOff(fetch)
    ensures exitCode == 2 <==> run.Some? && !BreaksOff(fetch) && !Confirms(run.value, attempt)
    ensures exitCode == 0 <==>
              run.Some? && Confirms(run.value, attempt) && exists n: nat :: ReadCertifies(t, run.value, fetch, candidate, n)
    ensures exitCode == 4 <==>
              run.Some? && Confirms(run.value, attempt) && exists n: nat :: ReadFails(run.value, fetch, n)
    ensures exitCode == 1 <==>
              run.Some? && Confirms(run.value, attempt)
              && exists n: nat :: ReadsThrough(fetch, n) && !ReadCertifies(t, run.value, fetch, candidate, n)
                                  && !ReadFails(run.value, fetch, n)
  {
    hide Certifiable, Red, StopsAt, IdentityOf, RosterDelta, BreaksOff, ReadsThrough, Unsortable;
    if run == None {
      return 3;
    }
    var read := FetchJobs(fetch);
    forall n: nat ensures ReadsThrough(fetch, n) ==> !BreaksOff(fetch) && read.Read? && n == read.pagesRead {
      if ReadsThrough(fetch, n) {
        ReadOutcome(fetch, n);
      }
    }
    if read.TransportFailure? {
      return 3;
    }
    if attempt.Some? && run.value.attempt != attempt {
      return 2;
    }
    var rows := DeriveJobRows(t, read.jobs);
    var delta := RosterDelta(read.jobs);
    var verdict := if !Sortable(delta) then TypeError
                   else DeriveStatus(IdentityOf(t, run.value, candidate), rows, delta, read.truncated);
    CompleteIff(t, run.value, read.jobs, read.truncated, candidate);
    FailedIff(t, run.value, read.jobs, read.truncated, candidate);
    exitCode := if verdict.Marker? then verdict.exitCode else 1;
    assert exitCode in {0, 1, 4};
    hide DeriveStatus;
    assert exitCode == 4 ==> ReadFails(run.value, fetch, read.pagesRead);
    assert exitCode == 0 ==> ReadCertifies(t, run.value, fetch, candidate, read.pagesRead);
  }
}
