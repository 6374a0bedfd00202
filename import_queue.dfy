/** The import queue of fflogs_import_queue.go: a first-in first-out list
    of pending report ids without duplicates, and one tick of the worker
    that pops the head, fetches the report and hands it to the store. The
    fetch is a function from report id to result. */
module ImportQueue {
  import opened Wrappers
  import opened Structure
  import opened Errors
  import opened Report
  import opened Database

  /** What one worker tick did. */
  datatype Tick =
    | Idle
    | FetchFailed(reportId: string, fetchError: FetchError)
    | HandleFailed(reportId: string, dbError: DbError)
    | Processed(reportId: string)

  /** Popping the head keeps the rest free of duplicates and leaves the
      head out of it, so a popped id is never still pending. */
  lemma PopKeepsNoDuplicates(reports: seq<string>)
    requires reports != [] && NoDuplicates(reports)
    ensures NoDuplicates(reports[1..])
    ensures reports[0] !in reports[1..]
  {
    var rest := reports[1..];
    forall k | 0 <= k < |rest|
      ensures rest[k] != reports[0]
    {
      assert rest[k] == reports[k + 1];
    }
    forall i, j | 0 <= i < j < |rest|
      ensures rest[i] != rest[j]
    {
      assert rest[i] == reports[i + 1] && rest[j] == reports[j + 1];
    }
  }

  class FFLogsImportQueue {
    /** The pending report ids, oldest first. */
    var reports: seq<string>
    /** The store the worker imports into. */
    const db: Store

    ghost predicate Valid()
      reads this, db
    {
      NoDuplicates(reports) && db.Valid()
    }

    constructor (db: Store)
      requires db.Valid()
      ensures Valid()
      ensures reports == [] && this.db == db
    {
      reports := [];
      this.db := db;
    }

    /** Enqueues a report id unless it is already pending. */
    method Add(reportId: string) returns (r: Outcome<AppError>)
      requires Valid()
      modifies this
      ensures Valid()
      ensures reportId in old(reports) ==> r == Fail(AlreadyInQueue) && reports == old(reports)
      ensures reportId !in old(reports) ==> r == Pass && reports == old(reports) + [reportId]
    {
      for i := 0 to |reports|
        invariant reportId !in reports[..i]
      {
        if reports[i] == reportId {
          return Fail(AlreadyInQueue);
        }
        assert reports[..i + 1] == reports[..i] + [reports[i]];
      }
      assert reports[..|reports|] == reports;
      AppendNoDuplicates(reports, reportId);
      reports := reports + [reportId];
      return Pass;
    }

    /** One tick of the worker: nothing when the queue is empty; otherwise
        the head is removed for good, and imported when its fetch
        succeeds. */
    method Step(fetch: string -> Result<ReportFights, FetchError>) returns (t: Tick)
      requires Valid()
      modifies this, db
      ensures Valid()
      ensures old(reports) == [] ==> t == Idle && reports == [] && unchanged(db)
      ensures old(reports) != [] ==>
        && t != Idle && t.reportId == old(reports)[0]
        && reports == old(reports)[1..]
        && t.reportId !in reports
      ensures t.FetchFailed? ==> fetch(t.reportId) == Err(t.fetchError) && unchanged(db)
      ensures t.HandleFailed? || t.Processed? ==> fetch(t.reportId).Ok?
      ensures t.Processed? ==> db.HasFFLogsReport(t.reportId) && db.Synced(fetch(t.reportId).value)
      ensures t.HandleFailed? ==> db.history == old(db.history)
    {
      if |reports| == 0 {
        return Idle;
      }
      PopKeepsNoDuplicates(reports);
      var reportId := reports[0];
      reports := reports[1..];
      var reportFights := fetch(reportId);
      if reportFights.Err? {
        return FetchFailed(reportId, reportFights.error);
      }
      ghost var stopped;
      var err;
      err, stopped := db.HandleFFLogsReportFights(reportId, reportFights.value);
      if err.Fail? {
        return HandleFailed(reportId, err.error);
      }
      return Processed(reportId);
    }
  }
}
