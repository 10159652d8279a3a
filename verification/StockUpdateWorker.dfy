/** StockUpdateWorker as a class: what its methods do to the fields is what the protocol of module
    WorkerProtocol says, and a round of Cron runs Update with the mutex held throughout. */
module StockUpdateWorker {
  import opened Text
  import opened WorkerProtocol
  import Database
  import DbTables
  import Ingest

  class StockUpdateWorker {
    const StartImmediately: bool
    var Running: bool
    var SourceURL: string
    var Interval: int
    var TempFile: string
    var WorkerThread: Option<nat>  // the handle; threads are numbered in order of creation
    var Threads: seq<Pc>           // where each created thread stands in Cron
    var Interrupted: set<nat>      // threads on which interrupt() was called
    var WorkerMutex: Holder

    constructor (sourceURL: string, interval: int, tempFile: string, startImmediately: bool)
      ensures StartImmediately == startImmediately
      ensures Snapshot() == InitialState(Config(sourceURL, interval, tempFile))
    {
      StartImmediately := startImmediately;
      Running, WorkerThread, Threads, Interrupted, WorkerMutex := false, None, [], {}, Nobody;
      SourceURL, Interval, TempFile := sourceURL, interval, tempFile;
    }

    /** The state of the protocol. */
    function Snapshot(): State
      reads this
    {
      State(Running, Config(SourceURL, Interval, TempFile), Threads, WorkerThread, Interrupted, WorkerMutex)
    }

    // Each public method waits for the mutex (the precondition), takes it, and releases it on return.

    method SetSourceURL(sourceFile: string)
      requires WorkerMutex == Nobody
      modifies this
      ensures Run(StartImmediately, old(Snapshot()), [Lock(Call.SetSourceURL(sourceFile)), Body, Unlock]) == Some(Snapshot())
      ensures SourceURL == if old(Running) then old(SourceURL) else sourceFile
      ensures Interval == old(Interval) && TempFile == old(TempFile) && Running == old(Running)
      ensures unchanged(this`WorkerThread, this`Threads, this`Interrupted, this`WorkerMutex)
    {
      RunCall(StartImmediately, Snapshot(), Call.SetSourceURL(sourceFile));
      WorkerMutex := Caller(Call.SetSourceURL(sourceFile), false);
      if !Running {
        SourceURL := sourceFile;
      }
      WorkerMutex := Nobody;
    }

    method SetInterval(interval: int)
      requires WorkerMutex == Nobody
      modifies this
      ensures Run(StartImmediately, old(Snapshot()), [Lock(Call.SetInterval(interval)), Body, Unlock]) == Some(Snapshot())
      ensures Interval == if old(Running) then old(Interval) else interval
      ensures SourceURL == old(SourceURL) && TempFile == old(TempFile) && Running == old(Running)
      ensures unchanged(this`WorkerThread, this`Threads, this`Interrupted, this`WorkerMutex)
    {
      RunCall(StartImmediately, Snapshot(), Call.SetInterval(interval));
      WorkerMutex := Caller(Call.SetInterval(interval), false);
      if !Running {
        Interval := interval;
      }
      WorkerMutex := Nobody;
    }

    method SetTempFile(tempFile: string)
      requires WorkerMutex == Nobody
      modifies this
      ensures Run(StartImmediately, old(Snapshot()), [Lock(Call.SetTempFile(tempFile)), Body, Unlock]) == Some(Snapshot())
      ensures TempFile == if old(Running) then old(TempFile) else tempFile
      ensures SourceURL == old(SourceURL) && Interval == old(Interval) && Running == old(Running)
      ensures unchanged(this`WorkerThread, this`Threads, this`Interrupted, this`WorkerMutex)
    {
      RunCall(StartImmediately, Snapshot(), Call.SetTempFile(tempFile));
      WorkerMutex := Caller(Call.SetTempFile(tempFile), false);
      if !Running {
        TempFile := tempFile;
      }
      WorkerMutex := Nobody;
    }

    /** The assertions of the source are its demands on the caller. */
    method Start()
      requires WorkerMutex == Nobody
      requires SourceURL != "" && Interval != 0 && TempFile != ""
      modifies this
      ensures Run(StartImmediately, old(Snapshot()), [Lock(Call.Start), Body, Unlock]) == Some(Snapshot())
      ensures Running && unchanged(this`SourceURL, this`Interval, this`TempFile, this`Interrupted, this`WorkerMutex)
      ensures Threads == if old(Running) then old(Threads) else old(Threads) + [Initial]
      ensures WorkerThread == if old(Running) then old(WorkerThread) else Some(|old(Threads)|)
    {
      RunCall(StartImmediately, Snapshot(), Call.Start);
      WorkerMutex := Caller(Call.Start, false);
      if !Running {
        Running := true;
        WorkerThread := Some(|Threads|);
        Threads := Threads + [Initial];
      }
      WorkerMutex := Nobody;
    }

    method Stop()
      requires WorkerMutex == Nobody
      modifies this
      ensures Run(StartImmediately, old(Snapshot()), [Lock(Call.Stop), Body, Unlock]) == Some(Snapshot())
      ensures !Running && unchanged(this`SourceURL, this`Interval, this`TempFile, this`Threads, this`WorkerMutex)
      ensures old(Running) && old(WorkerThread).Some? ==> Interrupted == old(Interrupted) + {old(WorkerThread).value}
      ensures old(Running) ==> WorkerThread == None
      ensures !old(Running) ==> unchanged(this)
    {
      RunCall(StartImmediately, Snapshot(), Call.Stop);
      WorkerMutex := Caller(Call.Stop, false);
      if Running {
        Running := false;
        Interrupted := Interrupted + if WorkerThread.Some? then {WorkerThread.value} else {};
        WorkerThread := None;
      }
      WorkerMutex := Nobody;
    }

    /** The locked block of Cron, once the waiting thread `id` has got the mutex. */
    method Round(id: nat, db: Database.DB, tables: DbTables.DBTables, book: Option<Ingest.Workbook>)
      requires WorkerMutex == Nobody && id < |Threads| && Threads[id] == Waiting
      requires db.saved == None && Ingest.HasFields(tables)
      modifies this, db, tables
      ensures Run(StartImmediately, old(Snapshot()), [Acquire(id), FinishUpdate(id), Check(id)]) == Some(Snapshot())
      ensures db.saved == None && Ingest.HasFields(tables)
      ensures db.tables == Ingest.After(Ingest.UpdateOutcome(db.faults, old(db.tables), old(db.clock), book), old(db.tables))
    {
      hide Ingest.UpdateOutcome, Run, Next, Ingest.HasFields;
      RunRound(StartImmediately, Snapshot(), id);
      Threads, WorkerMutex := Threads[id := Updating], Worker(id);
      var outcome := Ingest.UpdateDatabase(db, tables, book);
      Threads := Threads[id := Updated];
      Threads, WorkerMutex := Threads[id := if Running then Sleeping else Ended], Nobody;
      assert Threads == old(Threads)[id := if Running then Sleeping else Ended];
    }
  }
}
