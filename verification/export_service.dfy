/** The export's runner and downloader as they run, each undisturbed by the other. */
module ExportService {
  import opened Text
  import opened ExportJob

  datatype Answer = Content(bytes: Bytes) | NotReady | FileGone | FileError

  /** How collecting, preparing the directory and writing the file turn out. */
  datatype Attempt<T> = Works(value: T) | Breaks(error: string)

  /** What went wrong first. */
  function FirstError(orders: Attempt<nat>, directory: Attempt<()>, content: Attempt<Bytes>): string {
    if orders.Breaks? then orders.error else if directory.Breaks? then directory.error else if content.Breaks? then content.error else ""
  }

  class Export {
    const path: string
    var job: Job
    var file: Option<Bytes>
    var now: int
    ghost var runner: Runner
    ghost var written: Option<Bytes>
    ghost var downloads: map<nat, Download>

    ghost function State(): ExportJob.State
      reads this
    {
      ExportJob.State(job, runner, path, written, file, downloads, now)
    }

    /** The queued record that starting an export stores. */
    constructor (path: string, now: int)
      requires !Blank(path) && Trim(path) == path
      ensures Initial(State())
    {
      this.path, this.now, job, file := path, now, Job(Queued, 0, 0, 0, None, "", "", ""), None;
      runner, written, downloads := Starting, None, map[];
    }

    method MarkFailed(error: string)
      modifies this`job
      ensures job == Fail(old(job), error, now)
    {
      job := job.(status := Failed);
      job := job.(progress := 100);
      job := job.(error := error);
      job := job.(finishedAt := Some(now));
    }

    /** The runner, from a queued record to a finished one. */
    method RunOrderExport(orders: Attempt<nat>, directory: Attempt<()>, content: Attempt<Bytes>, fileName: string)
      returns (ghost actions: seq<Action>)
      requires runner == Starting
      modifies this
      ensures Reaches(old(State()), actions, State()) && runner == Stopped && Finished(job.status)
      ensures job.status == Completed <==> orders.Works? && directory.Works? && content.Works?
      ensures job.status == Completed ==> file == Some(content.value) && job.filePath == path && job.exportedRows == job.totalRows == orders.value
                                          && job.fileName == fileName && job.error == ""
      ensures job.status != Completed ==> job.status == Failed && file == old(file) && job.filePath == old(job.filePath)
                                          && job.error == FirstError(orders, directory, content)
      ensures job.progress == 100 && job.finishedAt == Some(now) && now == old(now)
    {
      ghost var s0 := State();
      job := job.(status := Running);
      job := job.(progress := 10, error := "");
      runner := Collecting;
      ghost var s1 := State();
      assert s1 == Step(s0, RunnerStart);
      if orders.Breaks? {
        MarkFailed(orders.error);
        runner := Stopped;
        return Path2(s0, RunnerStart, RunnerCollectError(orders.error));
      }
      job := job.(progress := 55);
      job := job.(totalRows := orders.value);
      runner := Generating(orders.value);
      ghost var s2 := State();
      assert s2 == Step(s1, RunnerCollect(orders.value));
      if directory.Breaks? {
        MarkFailed(directory.error);
        runner := Stopped;
        return Path3(s0, RunnerStart, RunnerCollect(orders.value), RunnerPrepareError(directory.error));
      }
      if content.Breaks? {
        MarkFailed(content.error);
        runner := Stopped;
        return Path3(s0, RunnerStart, RunnerCollect(orders.value), RunnerWriteError(content.error));
      }
      file := Some(content.value);
      written, runner := Some(content.value), Publishing(orders.value);
      ghost var s3 := State();
      assert s3 == Step(s2, RunnerWrite(content.value));
      job := job.(status := Completed, progress := 100, fileName := fileName, filePath := path);
      job := job.(exportedRows := orders.value, error := "", finishedAt := Some(now));
      runner := Stopped;
      return Path4(s0, RunnerStart, RunnerCollect(orders.value), RunnerWrite(content.value), RunnerPublish(fileName));
    }

    /** The file was not there: the job is marked failed. */
    method MarkMissing(ghost d: nat)
      requires d in downloads && downloads[d] == Missing
      modifies this`job, this`downloads
      ensures State() == Step(old(State()), DownloadMissing(d))
      ensures MarkedMissing(job, now)
    {
      MarkFailed("export file is no longer available");
      job := job.(filePath := "");
      downloads := downloads[d := Refused];
    }

    /** Once the file is read it is removed, and the job marked downloaded. */
    method Deliver(ghost d: nat, content: Bytes, removeOk: bool) returns (answer: Answer, ghost actions: seq<Action>)
      requires d in downloads && downloads[d] == Read(content)
      modifies this`job, this`file, this`downloads
      ensures Reaches(old(State()), actions, State())
      ensures answer == if removeOk then Content(content) else FileError
      ensures removeOk ==> MarkedDownloaded(old(job), job, now) && file == None
      ensures !removeOk ==> job == old(job) && file == old(file)
    {
      ghost var s0 := State();
      if !removeOk {
        downloads := downloads[d := Refused];
        return FileError, Path1(s0, DownloadRemoveError(d));
      }
      file := None;
      downloads := downloads[d := Removed(content)];
      assert State() == Step(s0, DownloadRemove(d));
      job := job.(status := Downloaded, progress := 100, filePath := "", finishedAt := Some(now));
      downloads := downloads[d := Delivered(content)];
      return Content(content), Path2(s0, DownloadRemove(d), DownloadFinish(d));
    }

    /** A download that holds a copy of a completed record: the file is read, removed and delivered, or not. */
    method Fetch(ghost d: nat, raw: Job, readOk: bool, removeOk: bool) returns (answer: Answer, ghost actions: seq<Action>)
      requires d in downloads && downloads[d] == Copied(raw)
      modifies this`job, this`file, this`downloads
      ensures Reaches(old(State()), actions, State())
      ensures answer.Content? <==> Trim(raw.filePath) == path && old(file).Some? && readOk && removeOk
      ensures answer == FileGone <==> readOk && (Trim(raw.filePath) != path || old(file).None?)
      ensures answer.Content? ==> old(file) == Some(answer.bytes) && MarkedDownloaded(old(job), job, now) && file == None
      ensures answer == FileGone ==> MarkedMissing(job, now) && file == old(file)
      ensures answer == FileError ==> job == old(job) && file == old(file)
      ensures answer != NotReady
    {
      ghost var s1 := State();
      if !readOk {
        downloads := downloads[d := Refused];
        return FileError, Path1(s1, DownloadReadError(d));
      }
      ghost var rest: seq<Action>;
      if Trim(raw.filePath) != path || file.None? {
        downloads := downloads[d := Missing];
        MarkMissing(d);
        answer, rest := FileGone, Path1(Step(s1, DownloadRead(d)), DownloadMissing(d));
      } else {
        var content := file.value;
        downloads := downloads[d := Read(content)];
        answer, rest := Deliver(d, content, removeOk);
      }
      return answer, [DownloadRead(d)] + rest;
    }

    /** One download; reading or removing the file may fail for other reasons than its absence. */
    method DownloadExport(ghost d: nat, readOk: bool, removeOk: bool) returns (answer: Answer, ghost actions: seq<Action>)
      requires d !in downloads
      modifies this
      ensures Reaches(old(State()), actions, State())
      ensures answer.Content? <==> old(job.status) == Completed && !Blank(old(job.filePath)) && Trim(old(job.filePath)) == path
                                   && old(file).Some? && readOk && removeOk
      ensures answer == NotReady <==> old(job.status) != Completed || Blank(old(job.filePath))
      ensures answer == FileGone <==> old(job.status) == Completed && !Blank(old(job.filePath)) && readOk
                                      && (Trim(old(job.filePath)) != path || old(file).None?)
      ensures answer.Content? ==> old(file) == Some(answer.bytes) && MarkedDownloaded(old(job), job, now) && file == None
      ensures answer == FileGone ==> MarkedMissing(job, now) && file == old(file)
      ensures answer == NotReady || answer == FileError ==> job == old(job) && file == old(file)
      ensures now == old(now)
    {
      ghost var s0 := State();
      if job.status != Completed || Trim(job.filePath) == "" {
        downloads := downloads[d := Refused];
        return NotReady, Path1(s0, DownloadBegin(d));
      }
      var raw := job;
      downloads := downloads[d := Copied(raw)];
      assert State() == Step(s0, DownloadBegin(d));
      ghost var rest;
      answer, rest := Fetch(d, raw, readOk, removeOk);
      return answer, [DownloadBegin(d)] + rest;
    }
  }

  /** The record of a job whose file was delivered: only status, progress, path and time differ. */
  predicate MarkedDownloaded(before: Job, after: Job, now: int) {
    after.status == Downloaded && after.progress == 100 && after.filePath == "" && after.finishedAt == Some(now)
    && after.fileName == before.fileName && after.error == before.error
    && after.totalRows == before.totalRows && after.exportedRows == before.exportedRows
  }

  predicate MarkedMissing(job: Job, now: int) {
    job.status == Failed && job.progress == 100 && job.filePath == "" && job.finishedAt == Some(now)
    && job.error == "export file is no longer available"
  }

  // Short interleavings, as lists of actions.

  ghost function Path1(s: ExportJob.State, a: Action): (actions: seq<Action>)
    requires Enabled(s, a)
    ensures Reaches(s, actions, Step(s, a))
  {
    [a]
  }

  ghost function Path2(s: ExportJob.State, a: Action, b: Action): (actions: seq<Action>)
    requires Enabled(s, a) && Enabled(Step(s, a), b)
    ensures Reaches(s, actions, Step(Step(s, a), b))
  {
    [a] + Path1(Step(s, a), b)
  }

  ghost function Path3(s: ExportJob.State, a: Action, b: Action, c: Action): (actions: seq<Action>)
    requires Enabled(s, a) && Enabled(Step(s, a), b) && Enabled(Step(Step(s, a), b), c)
    ensures Reaches(s, actions, Step(Step(Step(s, a), b), c))
  {
    [a] + Path2(Step(s, a), b, c)
  }

  ghost function Path4(s: ExportJob.State, a: Action, b: Action, c: Action, d: Action): (actions: seq<Action>)
    requires Enabled(s, a) && Enabled(Step(s, a), b) && Enabled(Step(Step(s, a), b), c) && Enabled(Step(Step(Step(s, a), b), c), d)
    ensures Reaches(s, actions, Step(Step(Step(Step(s, a), b), c), d))
  {
    [a] + Path3(Step(s, a), b, c, d)
  }
}
