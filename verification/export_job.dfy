/**
 One asynchronous export job: its record behind the lock, the file, one runner, and any number of
 downloaders, interleaved at every access to the record and to the file.
 */
module ExportJob {
  import opened Text

  datatype Status = Queued | Running | Completed | Failed | Downloaded

  datatype Job = Job(status: Status, progress: nat, totalRows: nat, exportedRows: nat,
                     finishedAt: Option<int>, filePath: string, fileName: string, error: string)

  type Bytes = seq<bv8>

  /** Where the runner is. */
  datatype Runner = Starting | Collecting | Generating(rows: nat) | Publishing(rows: nat) | Stopped

  /** Where a download is: it holds a copy of the record, then the bytes it read. */
  datatype Download =
    | Copied(copy: Job)
    | Missing
    | Read(content: Bytes)
    | Removed(content: Bytes)
    | Delivered(content: Bytes)
    | Refused

  /** `written` is what the runner wrote to its path, `file` what is there now. */
  datatype State = State(job: Job, runner: Runner, path: string, written: Option<Bytes>, file: Option<Bytes>,
                         downloads: map<nat, Download>, now: int)

  datatype Action =
    | RunnerStart
    | RunnerCollect(rows: nat)
    | RunnerCollectError(error: string)
    | RunnerPrepareError(error: string)
    | RunnerWrite(content: Bytes)
    | RunnerWriteError(error: string)
    | RunnerPublish(fileName: string)
    | DownloadBegin(d: nat)
    | DownloadRead(d: nat)
    | DownloadReadError(d: nat)
    | DownloadMissing(d: nat)
    | DownloadRemove(d: nat)
    | DownloadRemoveError(d: nat)
    | DownloadFinish(d: nat)
    | FileVanishes
    | Tick(t: nat)

  predicate Finished(status: Status) {
    status.Completed? || status.Failed? || status.Downloaded?
  }

  function Fail(j: Job, error: string, now: int): Job {
    j.(status := Failed, progress := 100, error := error, finishedAt := Some(now))
  }

  function With(s: State, d: nat, x: Download): State {
    s.(downloads := s.downloads[d := x])
  }

  /** When an action can happen. Reading finds a file or finds none; the runner follows its own order. */
  predicate Enabled(s: State, a: Action) {
    match a
    case RunnerStart => s.runner.Starting?
    case RunnerCollect(_) => s.runner.Collecting?
    case RunnerCollectError(_) => s.runner.Collecting?
    case RunnerPrepareError(_) => s.runner.Generating?
    case RunnerWrite(_) => s.runner.Generating?
    case RunnerWriteError(_) => s.runner.Generating?
    case RunnerPublish(_) => s.runner.Publishing?
    case DownloadBegin(d) => d !in s.downloads
    case DownloadRead(d) => d in s.downloads && s.downloads[d].Copied?
    case DownloadReadError(d) => d in s.downloads && s.downloads[d].Copied?
    case DownloadMissing(d) => d in s.downloads && s.downloads[d].Missing?
    case DownloadRemove(d) => d in s.downloads && s.downloads[d].Read?
    case DownloadRemoveError(d) => d in s.downloads && s.downloads[d].Read?
    case DownloadFinish(d) => d in s.downloads && s.downloads[d].Removed?
    case FileVanishes => s.file.Some?
    case Tick(_) => true
  }

  function Step(s: State, a: Action): State
    requires Enabled(s, a)
  {
    match a
    case RunnerStart =>
      s.(job := s.job.(status := Running, progress := 10, error := ""), runner := Collecting)
    case RunnerCollectError(e) => s.(job := Fail(s.job, e, s.now), runner := Stopped)
    case RunnerCollect(rows) =>
      s.(job := s.job.(progress := 55, totalRows := rows), runner := Generating(rows))
    case RunnerPrepareError(e) => s.(job := Fail(s.job, e, s.now), runner := Stopped)
    case RunnerWriteError(e) => s.(job := Fail(s.job, e, s.now), runner := Stopped)
    case RunnerWrite(content) => s.(written := Some(content), file := Some(content), runner := Publishing(s.runner.rows))
    case RunnerPublish(name) =>
      s.(job := s.job.(status := Completed, progress := 100, fileName := name, filePath := s.path,
                       exportedRows := s.runner.rows, error := "", finishedAt := Some(s.now)),
         runner := Stopped)
    case DownloadBegin(d) =>
      With(s, d, if s.job.status.Completed? && !Blank(s.job.filePath) then Copied(s.job) else Refused)
    case DownloadRead(d) =>
      With(s, d, if Trim(s.downloads[d].copy.filePath) != s.path || s.file.None? then Missing else Read(s.file.value))
    case DownloadReadError(d) => With(s, d, Refused)
    case DownloadMissing(d) =>
      With(s.(job := Fail(s.job, "export file is no longer available", s.now).(filePath := "")), d, Refused)
    case DownloadRemove(d) => With(s.(file := None), d, Removed(s.downloads[d].content))
    case DownloadRemoveError(d) => With(s, d, Refused)
    case DownloadFinish(d) =>
      With(s.(job := s.job.(status := Downloaded, progress := 100, filePath := "", finishedAt := Some(s.now))),
           d, Delivered(s.downloads[d].content))
    case FileVanishes => s.(file := None)
    case Tick(t) => s.(now := s.now + t)
  }

  /** The record as StartExport stores it, with the path the runner will write to. */
  ghost predicate Initial(s: State) {
    s.job == Job(Queued, 0, 0, 0, None, "", "", "") && s.runner == Starting && s.written == None
    && s.file == None && s.downloads == map[] && !Blank(s.path) && Trim(s.path) == s.path
  }

  // ---------------------------------------------------------------- what always holds

  /** The progress a record shows while the runner is at work. */
  predicate RunnerInStep(s: State) {
    match s.runner
    case Starting => s.job.status == Queued && s.job.progress == 0 && s.written.None?
    case Collecting => s.job.status == Running && s.job.progress == 10 && s.written.None?
    case Generating(_) => s.job.status == Running && s.job.progress == 55 && s.written.None?
    case Publishing(_) => s.job.status == Running && s.job.progress == 55 && s.written.Some?
    case Stopped => Finished(s.job.status)
  }

  /** A finished time is set exactly for finished jobs, which are exactly those at one hundred percent. */
  predicate JobInStep(j: Job) {
    (Finished(j.status) <==> j.progress == 100) && (Finished(j.status) <==> j.finishedAt.Some?)
    && (j.filePath != "" <==> j.status == Completed)
  }

  predicate DownloadInStep(s: State, x: Download) {
    match x
    case Refused => true
    case Copied(copy) => s.runner.Stopped? && s.written.Some? && copy.filePath == s.path
    case Missing => s.runner.Stopped? && s.written.Some?
    case Read(c) => s.runner.Stopped? && s.written == Some(c)
    case Removed(c) => s.runner.Stopped? && s.written == Some(c)
    case Delivered(c) => s.runner.Stopped? && s.written == Some(c)
  }

  ghost predicate Inv(s: State) {
    !Blank(s.path) && Trim(s.path) == s.path
    && RunnerInStep(s) && JobInStep(s.job)
    && (s.file.Some? ==> s.file == s.written)
    && (s.job.status == Completed ==> s.job.filePath == s.path && s.written.Some?)
    && (forall d | d in s.downloads :: DownloadInStep(s, s.downloads[d]))
  }

  /** What no action may undo: progress, being finished, what was written, what was delivered. */
  predicate Forward(s: State, s': State) {
    s.job.progress <= s'.job.progress
    && (Finished(s.job.status) ==> Finished(s'.job.status))
    && (s.written.Some? ==> s'.written == s.written)
    && (forall d | d in s.downloads && s.downloads[d].Delivered? :: d in s'.downloads && s'.downloads[d] == s.downloads[d])
  }

  lemma RunnerStepKeeps(s: State, a: Action)
    requires Inv(s) && Enabled(s, a) && !s.runner.Stopped?
    ensures Inv(Step(s, a)) && Forward(s, Step(s, a))
  {
    var s' := Step(s, a);
    forall d | d in s'.downloads ensures DownloadInStep(s', s'.downloads[d]) {
      if d in s.downloads { assert DownloadInStep(s, s.downloads[d]); }
    }
  }

  /** The job's record after an action of a downloader, or none at all. */
  lemma StoppedRecordKeeps(s: State, a: Action)
    requires Inv(s) && Enabled(s, a) && s.runner.Stopped?
    ensures var s' := Step(s, a);
            RunnerInStep(s') && JobInStep(s'.job) && (s'.file.Some? ==> s'.file == s'.written)
            && (s'.job.status == Completed ==> s'.job.filePath == s'.path && s'.written.Some?)
            && s'.path == s.path && s'.written == s.written && s'.runner == s.runner
            && s.job.progress <= s'.job.progress && Finished(s'.job.status)
  {
    if a.DownloadMissing? || a.DownloadFinish? { assert DownloadInStep(s, s.downloads[a.d]); }
  }

  lemma StoppedDownloadKeeps(s: State, a: Action, d: nat)
    requires Inv(s) && Enabled(s, a) && s.runner.Stopped? && d in Step(s, a).downloads
    ensures DownloadInStep(Step(s, a), Step(s, a).downloads[d])
    ensures d in s.downloads && s.downloads[d].Delivered? ==> Step(s, a).downloads[d] == s.downloads[d]
  {
    if d in s.downloads { assert DownloadInStep(s, s.downloads[d]); }
  }

  lemma StoppedStepKeeps(s: State, a: Action)
    requires Inv(s) && Enabled(s, a) && s.runner.Stopped?
    ensures Inv(Step(s, a)) && Forward(s, Step(s, a))
  {
    StoppedRecordKeeps(s, a);
    forall d | d in Step(s, a).downloads
      ensures DownloadInStep(Step(s, a), Step(s, a).downloads[d])
      ensures d in s.downloads && s.downloads[d].Delivered? ==> Step(s, a).downloads[d] == s.downloads[d]
    {
      StoppedDownloadKeeps(s, a, d);
    }
    assert forall d | d in s.downloads :: d in Step(s, a).downloads;
  }

  /** An interleaving: every action can happen where it stands. */
  ghost predicate Reaches(s: State, actions: seq<Action>, s': State)
    decreases |actions|
  {
    if actions == [] then s == s'
    else Enabled(s, actions[0]) && Reaches(Step(s, actions[0]), actions[1..], s')
  }

  /** Over any interleaving from a state that satisfies the invariant, it is kept and nothing goes backwards. */
  lemma {:induction false} RunKeeps(s: State, actions: seq<Action>, s': State)
    requires Inv(s) && Reaches(s, actions, s')
    ensures Inv(s') && Forward(s, s')
    decreases |actions|
  {
    if actions != [] {
      if s.runner.Stopped? { StoppedStepKeeps(s, actions[0]); } else { RunnerStepKeeps(s, actions[0]); }
      RunKeeps(Step(s, actions[0]), actions[1..], s');
    }
  }

  /** Safety of the job under all interleavings, between any two moments of a run. */
  lemma ExportSafety(s0: State, before: seq<Action>, s: State, after: seq<Action>, s': State)
    requires Initial(s0) && Reaches(s0, before, s) && Reaches(s, after, s')
    ensures s.job.progress <= s'.job.progress
    ensures Finished(s.job.status) ==> Finished(s'.job.status)
    ensures (Finished(s'.job.status) <==> s'.job.finishedAt.Some?) && (Finished(s'.job.status) <==> s'.job.progress == 100)
    ensures s'.job.filePath != "" <==> s'.job.status == Completed
    ensures forall d | d in s'.downloads && s'.downloads[d].Delivered? :: s'.written == Some(s'.downloads[d].content)
  {
    RunKeeps(s0, before, s);
    RunKeeps(s, after, s');
    forall d | d in s'.downloads && s'.downloads[d].Delivered? ensures s'.written == Some(s'.downloads[d].content) {
      assert DownloadInStep(s', s'.downloads[d]);
    }
  }
}
