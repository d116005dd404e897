/** The import jobs themselves: what the process of each job sends, and `collect`. */
module ImportJobs {
  import opened Wrappers
  import opened Sequences
  import opened Shuffles
  import opened ImportEvents

  datatype ImportJob = ImportJob(jobId: string, fileName: string, rowCount: nat, shouldFailValidation: bool)

  function Decimal(n: nat): string {
    (if n < 10 then "" else Decimal(n / 10)) + ["0123456789"[n % 10]]
  }

  function ReadDecimal(s: string): int {
    if s == "" then 0 else 10 * ReadDecimal(Front(s)) + (Last(s) as int - '0' as int)
  }

  lemma ReadAppend(s: string, c: char)
    ensures ReadDecimal(s + [c]) == 10 * ReadDecimal(s) + (c as int - '0' as int)
  {
    assert Front(s + [c]) == s;
  }

  lemma DigitChar(d: nat)
    requires d < 10
    ensures "0123456789"[d] as int == '0' as int + d
  {
  }

  /** `Decimal` writes a number in decimal digits, without leading zeros, that read back as the number. */
  lemma {:induction false} DecimalReads(n: nat)
    ensures ReadDecimal(Decimal(n)) == n
    ensures forall c | c in Decimal(n) :: '0' <= c <= '9'
    ensures |Decimal(n)| > 1 ==> Decimal(n)[0] != '0'
    ensures n > 0 ==> Decimal(n)[0] != '0'
  {
    DigitChar(n % 10);
    var rest, c := if n < 10 then "" else Decimal(n / 10), "0123456789"[n % 10];
    assert Decimal(n) == rest + [c];
    ReadAppend(rest, c);
    if n >= 10 {
      DecimalReads(n / 10);
    } else {
      assert ReadDecimal("") == 0;
    }
  }

  lemma DecimalDigit(n: nat)
    requires n < 10
    ensures Decimal(n) == [('0' as int + n) as char]
  {
  }

  /** The events `_run_import_job` reports for one job. */
  function Report(job: ImportJob): (r: seq<ImportJobEvent>)
    ensures |r| == if job.shouldFailValidation then 3 else 4
  {
    [ImportJobEvent(job.jobId, Started, "started importing " + job.fileName),
     ImportJobEvent(job.jobId, Parsed, "parsed " + Decimal(job.rowCount) + " rows")] +
    if job.shouldFailValidation then
      [ImportJobEvent(job.jobId, Failed, job.fileName + " failed validation")]
    else
      [ImportJobEvent(job.jobId, Validated, "validated rows"),
       ImportJobEvent(job.jobId, Stored, "stored import rows")]
  }

  function Wrap(report: seq<ImportJobEvent>): (r: seq<Message>)
    ensures forall m | m in r :: m.Progress?
    ensures Progresses(r) == report
  {
    if report == [] then []
    else
      var r := Wrap(Front(report)) + [Progress(Last(report))];
      assert Front(r) == Wrap(Front(report));
      r
  }

  /** Everything the process of one job puts on the queue, whether or not its import fails. */
  function Program(job: ImportJob): (r: seq<Message>)
    ensures IsProgram(r) && Progresses(r) == Report(job)
  {
    var r := Wrap(Report(job)) + [WorkerFinished(job.jobId)];
    assert Front(r) == Wrap(Report(job));
    r
  }

  function Programs(jobs: seq<ImportJob>): (r: seq<seq<Message>>)
    ensures |r| == |jobs| && ArePrograms(r)
  {
    seq(|jobs|, i requires 0 <= i < |jobs| => Program(jobs[i]))
  }

  function Reports(jobs: seq<ImportJob>): (r: seq<seq<ImportJobEvent>>)
    ensures |r| == |jobs|
  {
    seq(|jobs|, i requires 0 <= i < |jobs| => Report(jobs[i]))
  }

  /** These are the events of one job. */
  ghost predicate Describes(job: ImportJob, part: seq<ImportJobEvent>) {
    && |part| == (if job.shouldFailValidation then 3 else 4)
    && (forall e | e in part :: e.jobId == job.jobId)
    && part[0].stage == Started && part[0].detail == "started importing " + job.fileName
    && part[1].stage == Parsed && part[1].detail == "parsed " + Decimal(job.rowCount) + " rows"
    && if job.shouldFailValidation then
         part[2].stage == Failed && part[2].detail == job.fileName + " failed validation"
       else
         && part[2].stage == Validated && part[2].detail == "validated rows"
         && part[3].stage == Stored && part[3].detail == "stored import rows"
  }

  /** What each job reports, event by event. */
  lemma ReportsSay(jobs: seq<ImportJob>, i: nat)
    requires i < |jobs|
    ensures Describes(jobs[i], Reports(jobs)[i])
    ensures forall e | e in Reports(jobs)[i] :: e.jobId == jobs[i].jobId
    ensures
      var part, job := Reports(jobs)[i], jobs[i];
      if job.shouldFailValidation then
        && |part| == 3 && part[0].stage == Started && part[1].stage == Parsed && part[2].stage == Failed
        && part[0].detail == "started importing " + job.fileName
        && part[1].detail == "parsed " + Decimal(job.rowCount) + " rows"
        && part[2].detail == job.fileName + " failed validation"
      else
        && |part| == 4 && part[0].stage == Started && part[1].stage == Parsed
        && part[2].stage == Validated && part[3].stage == Stored
        && part[0].detail == "started importing " + job.fileName
        && part[1].detail == "parsed " + Decimal(job.rowCount) + " rows"
        && part[2].detail == "validated rows" && part[3].detail == "stored import rows"
  {
  }

  lemma AllDescribed(jobs: seq<ImportJob>)
    ensures forall i | 0 <= i < |jobs| :: Describes(jobs[i], Reports(jobs)[i])
  {
    forall i | 0 <= i < |jobs| ensures Describes(jobs[i], Reports(jobs)[i]) {
      ReportsSay(jobs, i);
    }
  }

  /** The number of events: three for a job that fails validation, four for any other. */
  function EventCount(jobs: seq<ImportJob>): nat {
    if jobs == [] then 0 else EventCount(Front(jobs)) + if Last(jobs).shouldFailValidation then 3 else 4
  }

  lemma {:induction false} ReportsLength(jobs: seq<ImportJob>)
    ensures TotalLength(Reports(jobs)) == EventCount(jobs)
  {
    if jobs != [] {
      ReportsLength(Front(jobs));
      assert Front(Reports(jobs)) == Reports(Front(jobs));
    }
  }

  /** For every schedule of the processes and the parent: when the parent stops, what it has is a shuffle
      of the jobs' full reports. */
  lemma CollectedReports(jobs: seq<ImportJob>, es: seq<Event>)
    requires Exec(Programs(jobs), es).Some? && Exec(Programs(jobs), es).value.finished == |jobs|
    ensures IsShuffle(Exec(Programs(jobs), es).value.collected, Reports(jobs))
    ensures forall i | 0 <= i < |jobs| :: Describes(jobs[i], Reports(jobs)[i])
    ensures |Exec(Programs(jobs), es).value.collected| == EventCount(jobs)
  {
    CollectedIsShuffle(Programs(jobs), es);
    AllDescribed(jobs);
    assert AllProgresses(Programs(jobs)) == Reports(jobs);
    ShuffleLength(Exec(Programs(jobs), es).value.collected, Reports(jobs));
    ReportsLength(jobs);
  }

  datatype CollectError = NoJobs | ProcessExited(name: string, exitCode: int)

  /** The first process that did not exit with code 0, if any. */
  method FirstFailure(exitCodes: seq<int>) returns (r: Option<nat>)
    ensures r.None? ==> forall k | 0 <= k < |exitCodes| :: exitCodes[k] == 0
    ensures r.Some? ==>
      r.value < |exitCodes| && exitCodes[r.value] != 0 && forall k | 0 <= k < r.value :: exitCodes[k] == 0
  {
    for i := 0 to |exitCodes|
      invariant forall k | 0 <= k < i :: exitCodes[k] == 0
    {
      if exitCodes[i] != 0 {
        return Some(i);
      }
    }
    r := None;
  }

  /** `exitCodes` is what the processes, in the order of the jobs, exit with once all have been heard out;
      `parts` are the events of each job, and `failed` is the first process with a nonzero code. */
  method Collect(jobs: seq<ImportJob>, exitCodes: seq<int>)
    returns (r: Result<seq<ImportJobEvent>, CollectError>,
             ghost parts: seq<seq<ImportJobEvent>>, ghost failed: Option<nat>)
    requires |exitCodes| == |jobs|
    ensures r.Returned? <==> jobs != [] && forall i | 0 <= i < |jobs| :: exitCodes[i] == 0
    ensures r.Returned? ==> IsShuffle(r.value, parts) && |r.value| == EventCount(jobs)
    ensures |parts| == |jobs| && forall i | 0 <= i < |jobs| :: Describes(jobs[i], parts[i])
    ensures jobs == [] ==> r == Raised(NoJobs)
    ensures failed.Some? <==> exists i :: 0 <= i < |jobs| && exitCodes[i] != 0
    ensures failed.Some? ==>
      && failed.value < |jobs| && exitCodes[failed.value] != 0
      && (forall k | 0 <= k < failed.value :: exitCodes[k] == 0)
      && r == Raised(ProcessExited("ImportJob-" + jobs[failed.value].jobId, exitCodes[failed.value]))
  {
    parts := Reports(jobs);
    AllDescribed(jobs);
    if jobs == [] {
      return Raised(NoJobs), parts, None;
    }
    var collected := CollectAll(jobs);
    var first := FirstFailure(exitCodes);
    failed := first;
    if first.Some? {
      r := Raised(ProcessExited("ImportJob-" + jobs[first.value].jobId, exitCodes[first.value]));
    } else {
      r := Returned(collected);
    }
  }

  method CollectAll(jobs: seq<ImportJob>) returns (collected: seq<ImportJobEvent>)
    ensures IsShuffle(collected, Reports(jobs)) && |collected| == EventCount(jobs)
  {
    collected := CollectUntilFinished(Programs(jobs));
    assert AllProgresses(Programs(jobs)) == Reports(jobs);
    ShuffleLength(collected, Reports(jobs));
    ReportsLength(jobs);
  }
}
