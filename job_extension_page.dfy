/** The server side of the job configuration page
    (`Dashboard/Pages/JobExtensionPage.cshtml.cs`): the list of jobs the
    page shows, running jobs first and then stopped ones, and
    `ParseCronExpression`, which chooses between the five-part and the
    six-part (with seconds) cron format before handing the text to the
    cron library. */
module JobExtensionPage {
  import opened Wrappers
  import opened Revisions
  import opened Text

  /* ---------------------------------------------------------------------
     ParseCronExpression.
     --------------------------------------------------------------------- */

  datatype CronFormat = Standard | IncludeSeconds

  /** What the cron library returns for a text it accepts. */
  datatype CronExpression = CronExpression(expression: string, format: CronFormat)

  /** The exceptions `ParseCronExpression` throws: `ArgumentNullException`
      with the parameter's name, or `CronFormatException` with a message. */
  datatype CronError = ArgumentNull(paramName: string) | CronFormatError(message: string)

  predicate IsSpaceOrTab(c: char) { c == ' ' || c == '\t' }

  /** `s.Split(new[] { ' ', '\t' }, StringSplitOptions.RemoveEmptyEntries)`. */
  function CronParts(s: string): (parts: seq<string>)
    ensures forall k :: 0 <= k < |parts| ==> |parts[k]| > 0
  {
    var r := RemoveEmpty(SplitRuns(s, IsSpaceOrTab));
    assert forall k :: 0 <= k < |r| ==> r[k] in r;
    r
  }

  function WrongPartsMessage(s: string): string
  {
    "Wrong number of parts in the `" + s + "` cron expression, you can only use 5 or 6 (with seconds) part-based expressions."
  }

  /** `ParseCronExpression`: a missing text is an argument error, a text of
      six parts is parsed with seconds, one of five parts without, and any
      other count is a format error naming the text. `parse` is the cron
      library's `CronExpression.Parse`, an error standing for its
      `CronFormatException`. */
  function ParseCronExpression(parse: (string, CronFormat) -> Result<CronExpression, string>,
                               cronExpression: Option<string>): (r: Result<CronExpression, CronError>)
    ensures cronExpression.None? ==> r == Err(ArgumentNull("cronExpression"))
    ensures cronExpression.Some? && |CronParts(cronExpression.value)| != 5 && |CronParts(cronExpression.value)| != 6 ==>
      r == Err(CronFormatError(WrongPartsMessage(cronExpression.value)))
    ensures cronExpression.Some? && |CronParts(cronExpression.value)| == 6 ==>
      r == LiftParse(parse(cronExpression.value, IncludeSeconds))
    ensures cronExpression.Some? && |CronParts(cronExpression.value)| == 5 ==>
      r == LiftParse(parse(cronExpression.value, Standard))
  {
    match cronExpression
    case None => Err(ArgumentNull("cronExpression"))
    case Some(s) =>
      var n := |CronParts(s)|;
      if n == 6 then LiftParse(parse(s, IncludeSeconds))
      else if n != 5 then Err(CronFormatError(WrongPartsMessage(s)))
      else LiftParse(parse(s, Standard))
  }

  function LiftParse(r: Result<CronExpression, string>): Result<CronExpression, CronError>
  {
    match r
    case Ok(e) => Ok(e)
    case Err(m) => Err(CronFormatError(m))
  }

  /** Removing empty pieces keeps a list of non-empty pieces as it is. */
  lemma {:induction false} RemoveEmptyKeepsNonEmpty(parts: seq<string>)
    requires forall k :: 0 <= k < |parts| ==> |parts[k]| > 0
    ensures RemoveEmpty(parts) == parts
  {
    if |parts| > 0 {
      RemoveEmptyKeepsNonEmpty(parts[1..]);
      assert [parts[0]] + parts[1..] == parts;
    }
  }

  /** The parts of fields written with one space between them are those
      fields. */
  lemma CronPartsOfJoined(fields: seq<string>)
    requires |fields| >= 1
    requires forall k :: 0 <= k < |fields| ==> |fields[k]| > 0
    requires forall k, j :: 0 <= k < |fields| && 0 <= j < |fields[k]| ==> !IsSpaceOrTab(fields[k][j])
    ensures CronParts(Join(fields, " ")) == fields
  {
    SplitRunsJoin(fields, ' ', IsSpaceOrTab);
    RemoveEmptyKeepsNonEmpty(fields);
  }

  /** The format follows the number of fields: six space-separated fields
      are parsed with seconds, five without, and any other number of
      fields is refused before the cron library is called. */
  lemma FormatFollowsFieldCount(parse: (string, CronFormat) -> Result<CronExpression, string>, fields: seq<string>)
    requires |fields| >= 1
    requires forall k :: 0 <= k < |fields| ==> |fields[k]| > 0
    requires forall k, j :: 0 <= k < |fields| && 0 <= j < |fields[k]| ==> !IsSpaceOrTab(fields[k][j])
    ensures var s := Join(fields, " ");
      ParseCronExpression(parse, Some(s)) ==
        if |fields| == 6 then LiftParse(parse(s, IncludeSeconds))
        else if |fields| == 5 then LiftParse(parse(s, Standard))
        else Err(CronFormatError(WrongPartsMessage(s)))
  {
    CronPartsOfJoined(fields);
  }

  /* ---------------------------------------------------------------------
     The job list.
     --------------------------------------------------------------------- */

  /** The storage's record of a recurring job. */
  datatype RecurringJobDto = RecurringJobDto(
    id: string, cron: string, cls: string, methodName: string, queue: string, timeZoneId: string)

  /** A row of the page. `jobState` is "Running" for a job the storage
      schedules; a stopped job keeps the state it was stopped with. */
  datatype PeriodicJob = PeriodicJob(
    id: string, cron: string, cls: string, methodName: string, queue: string, timeZoneId: string, jobState: string)

  const Running := "Running"

  function AsRunning(x: RecurringJobDto): (j: PeriodicJob)
    ensures j.jobState == Running
  {
    PeriodicJob(x.id, x.cron, x.cls, x.methodName, x.queue, x.timeZoneId, Running)
  }

  function AllRunning(xs: seq<RecurringJobDto>): (js: seq<PeriodicJob>)
    ensures |js| == |xs|
    ensures forall i :: 0 <= i < |xs| ==> js[i] == AsRunning(xs[i])
  {
    seq(|xs|, i requires 0 <= i < |xs| => AsRunning(xs[i]))
  }

  /** LINQ `Skip(n)`: a non-positive count skips nothing. */
  function Skip<T>(s: seq<T>, n: int): (r: seq<T>)
    ensures n <= 0 ==> r == s
    ensures 0 <= n <= |s| ==> r == s[n..]
    ensures n >= |s| ==> r == []
  {
    if n <= 0 then s else if n >= |s| then [] else s[n..]
  }

  /** LINQ `Take(n)`: a non-positive count takes nothing. */
  function Take<T>(s: seq<T>, n: int): (r: seq<T>)
    ensures n <= 0 ==> r == []
    ensures 0 <= n <= |s| ==> r == s[..n]
    ensures n >= |s| ==> r == s
  {
    if n <= 0 then [] else if n >= |s| then s else s[..n]
  }

  /** How many stopped jobs are skipped. As written it is
      `Math.Min(0, fromRecord - recurringJobs.Count)`, never positive, so
      every page starts at the first stopped job. Fixed, it is the
      number of stopped jobs shown on earlier pages: the first record's
      position past all running jobs. */
  function StoppedOffset(rev: Revision, fromRecord: int, pageRunning: nat, totalRunning: nat): (n: int)
    ensures rev == AsWritten ==> n <= 0
    ensures rev == Fixed ==> n >= 0
  {
    match rev
    case AsWritten => if fromRecord - pageRunning < 0 then fromRecord - pageRunning else 0
    case Fixed => if fromRecord - totalRunning > 0 then fromRecord - totalRunning else 0
  }

  /** The rows of the page: the running jobs the storage returned for the
      page, then stopped jobs up to `recordsPerPage` rows. `totalRunning`
      is the storage's count of recurring jobs. The page is filled to
      `recordsPerPage` rows unless the stopped jobs past the offset run
      out. */
  function ListedJobs(rev: Revision, recurringJobs: seq<RecurringJobDto>, stoppedJobs: seq<PeriodicJob>,
                      fromRecord: int, recordsPerPage: int, totalRunning: nat): (page: seq<PeriodicJob>)
    ensures var off := StoppedOffset(rev, fromRecord, |recurringJobs|, totalRunning);
      var left := if off <= 0 then |stoppedJobs| else if off >= |stoppedJobs| then 0 else |stoppedJobs| - off;
      var room := recordsPerPage - |recurringJobs|;
      |page| == |recurringJobs| + (if room <= 0 then 0 else if room <= left then room else left)
  {
    AllRunning(recurringJobs)
      + Take(Skip(stoppedJobs, StoppedOffset(rev, fromRecord, |recurringJobs|, totalRunning)),
             recordsPerPage - |recurringJobs|)
  }

  /** Running jobs come first, all marked "Running", and the rest of the
      page is a run of consecutive stopped jobs in their own order,
      starting at the skipped count, no more than the page has room for. */
  lemma RunningJobsFirst(rev: Revision, recurringJobs: seq<RecurringJobDto>, stoppedJobs: seq<PeriodicJob>,
                         fromRecord: int, recordsPerPage: int, totalRunning: nat)
    ensures var page := ListedJobs(rev, recurringJobs, stoppedJobs, fromRecord, recordsPerPage, totalRunning);
      var rest := page[|recurringJobs|..];
      && |recurringJobs| <= |page|
      && (forall i :: 0 <= i < |recurringJobs| ==> page[i] == AsRunning(recurringJobs[i]) && page[i].jobState == Running)
      && |rest| <= |stoppedJobs|
      && (recordsPerPage <= |recurringJobs| ==> rest == [])
      && (recordsPerPage > |recurringJobs| ==> |rest| <= recordsPerPage - |recurringJobs|)
      && (forall i :: 0 <= i < |rest| ==> rest[i] in stoppedJobs)
      && var off := StoppedOffset(rev, fromRecord, |recurringJobs|, totalRunning);
         var start := if off <= 0 then 0 else if off >= |stoppedJobs| then |stoppedJobs| else off;
         start + |rest| <= |stoppedJobs| && rest == stoppedJobs[start..start + |rest|]
  {
    var page := ListedJobs(rev, recurringJobs, stoppedJobs, fromRecord, recordsPerPage, totalRunning);
    var running := AllRunning(recurringJobs);
    var off := StoppedOffset(rev, fromRecord, |recurringJobs|, totalRunning);
    var rest := Take(Skip(stoppedJobs, off), recordsPerPage - |recurringJobs|);
    TakeSkipSlice(stoppedJobs, off, recordsPerPage - |recurringJobs|);
    assert page == running + rest;
    assert page[|recurringJobs|..] == rest;
  }

  /** `s.Skip(off).Take(m)` is the run of `s` starting at `off` clamped to
      `0..|s|`, at most `m` long. */
  lemma TakeSkipSlice<T>(s: seq<T>, off: int, m: int)
    ensures var r := Take(Skip(s, off), m);
      var start := if off <= 0 then 0 else if off >= |s| then |s| else off;
      && (m <= 0 ==> r == [])
      && (m > 0 ==> |r| <= m)
      && start + |r| <= |s| && r == s[start..start + |r|]
      && (forall i :: 0 <= i < |r| ==> r[i] in s)
  {
    var start := if off <= 0 then 0 else if off >= |s| then |s| else off;
    var r := Take(Skip(s, off), m);
    assert Skip(s, off) == s[start..];
    assert forall i :: 0 <= i < |r| ==> r[i] == s[start + i];
  }

  /** As written, the stopped part of every page is a prefix of the
      stopped jobs: the first `recordsPerPage - |recurringJobs|` of them. */
  lemma AsWrittenStoppedPrefix(recurringJobs: seq<RecurringJobDto>, stoppedJobs: seq<PeriodicJob>,
                               fromRecord: int, recordsPerPage: int, totalRunning: nat)
    ensures var page := ListedJobs(AsWritten, recurringJobs, stoppedJobs, fromRecord, recordsPerPage, totalRunning);
      page[|recurringJobs|..] == Take(stoppedJobs, recordsPerPage - |recurringJobs|)
  {
    var page := ListedJobs(AsWritten, recurringJobs, stoppedJobs, fromRecord, recordsPerPage, totalRunning);
    assert page[|recurringJobs|..] == Take(stoppedJobs, recordsPerPage - |recurringJobs|);
  }

  /** The running jobs the storage returns for a page,
      `GetRecurringJobs(from, from + count - 1)`: those at the page's
      positions. */
  function RunningWindow(allRunning: seq<RecurringJobDto>, fromRecord: nat, recordsPerPage: nat): (w: seq<RecurringJobDto>)
    ensures |w| <= recordsPerPage
  {
    Take(Skip(allRunning, fromRecord), recordsPerPage)
  }

  /** As written, two pages that both lie past the running jobs show the
      same rows: the first stopped jobs, whatever the page. */
  lemma AsWrittenPagesRepeat(allRunning: seq<RecurringJobDto>, stoppedJobs: seq<PeriodicJob>,
                             from1: nat, from2: nat, recordsPerPage: nat)
    requires from1 >= |allRunning| && from2 >= |allRunning|
    ensures ListedJobs(AsWritten, RunningWindow(allRunning, from1, recordsPerPage), stoppedJobs, from1, recordsPerPage, |allRunning|)
         == ListedJobs(AsWritten, RunningWindow(allRunning, from2, recordsPerPage), stoppedJobs, from2, recordsPerPage, |allRunning|)
         == Take(stoppedJobs, recordsPerPage)
  {
    assert RunningWindow(allRunning, from1, recordsPerPage) == [];
    assert RunningWindow(allRunning, from2, recordsPerPage) == [];
  }

  /** Fixed, the page is exactly the window of `recordsPerPage` rows
      starting at `fromRecord` in the list of all running jobs followed by
      all stopped jobs. */
  lemma {:induction false} FixedPageIsWindow(allRunning: seq<RecurringJobDto>, stoppedJobs: seq<PeriodicJob>,
                                             fromRecord: nat, recordsPerPage: nat)
    ensures ListedJobs(Fixed, RunningWindow(allRunning, fromRecord, recordsPerPage), stoppedJobs,
                       fromRecord, recordsPerPage, |allRunning|)
         == Take(Skip(AllRunning(allRunning) + stoppedJobs, fromRecord), recordsPerPage)
  {
    if fromRecord >= |allRunning| {
      FixedPagePastRunning(allRunning, stoppedJobs, fromRecord, recordsPerPage);
    } else {
      FixedPageWithinRunning(allRunning, stoppedJobs, fromRecord, recordsPerPage);
    }
  }

  lemma FixedPagePastRunning(allRunning: seq<RecurringJobDto>, stoppedJobs: seq<PeriodicJob>,
                             fromRecord: nat, recordsPerPage: nat)
    requires fromRecord >= |allRunning|
    ensures ListedJobs(Fixed, RunningWindow(allRunning, fromRecord, recordsPerPage), stoppedJobs,
                       fromRecord, recordsPerPage, |allRunning|)
         == Take(Skip(AllRunning(allRunning) + stoppedJobs, fromRecord), recordsPerPage)
  {
    var all := AllRunning(allRunning) + stoppedJobs;
    assert RunningWindow(allRunning, fromRecord, recordsPerPage) == [];
    assert Skip(all, fromRecord) == Skip(stoppedJobs, fromRecord - |allRunning|);
  }

  lemma FixedPageWithinRunning(allRunning: seq<RecurringJobDto>, stoppedJobs: seq<PeriodicJob>,
                               fromRecord: nat, recordsPerPage: nat)
    requires fromRecord < |allRunning|
    ensures ListedJobs(Fixed, RunningWindow(allRunning, fromRecord, recordsPerPage), stoppedJobs,
                       fromRecord, recordsPerPage, |allRunning|)
         == Take(Skip(AllRunning(allRunning) + stoppedJobs, fromRecord), recordsPerPage)
  {
    var end := if fromRecord + recordsPerPage <= |allRunning| then fromRecord + recordsPerPage else |allRunning|;
    FixedPageShape(allRunning, stoppedJobs, fromRecord, recordsPerPage, end);
    ExpectedPageShape(allRunning, stoppedJobs, fromRecord, recordsPerPage, end);
  }

  /** Fixed, a page starting among the running jobs lists the running jobs
      of the window and then the first stopped jobs that fit. */
  lemma FixedPageShape(allRunning: seq<RecurringJobDto>, stoppedJobs: seq<PeriodicJob>,
                       fromRecord: nat, recordsPerPage: nat, end: nat)
    requires fromRecord < |allRunning|
    requires end == if fromRecord + recordsPerPage <= |allRunning| then fromRecord + recordsPerPage else |allRunning|
    ensures ListedJobs(Fixed, RunningWindow(allRunning, fromRecord, recordsPerPage), stoppedJobs,
                       fromRecord, recordsPerPage, |allRunning|)
         == AllRunning(allRunning)[fromRecord..end] + Take(stoppedJobs, recordsPerPage - (end - fromRecord))
  {
    var w := RunningWindow(allRunning, fromRecord, recordsPerPage);
    assert w == allRunning[fromRecord..end];
    assert AllRunning(w) == AllRunning(allRunning)[fromRecord..end];
  }

  /** The same rows, cut from the running jobs followed by the stopped jobs. */
  lemma ExpectedPageShape(allRunning: seq<RecurringJobDto>, stoppedJobs: seq<PeriodicJob>,
                          fromRecord: nat, recordsPerPage: nat, end: nat)
    requires fromRecord < |allRunning|
    requires end == if fromRecord + recordsPerPage <= |allRunning| then fromRecord + recordsPerPage else |allRunning|
    ensures Take(Skip(AllRunning(allRunning) + stoppedJobs, fromRecord), recordsPerPage)
         == AllRunning(allRunning)[fromRecord..end] + Take(stoppedJobs, recordsPerPage - (end - fromRecord))
  {
    var all := AllRunning(allRunning) + stoppedJobs;
    var rest := Take(stoppedJobs, recordsPerPage - (end - fromRecord));
    if end == fromRecord + recordsPerPage {
      assert rest == [];
      assert Take(Skip(all, fromRecord), recordsPerPage) == all[fromRecord..end];
    } else {
      assert Skip(all, fromRecord) == AllRunning(allRunning)[fromRecord..] + stoppedJobs;
      assert AllRunning(allRunning)[fromRecord..] == AllRunning(allRunning)[fromRecord..end];
    }
  }
}
