/** Scheduling of background work (db/db_impl.cc).  Each method is one critical section of
    the mutex; between two of them any thread may run, so what `Valid` says holds whenever
    the mutex is free. */
module Background {
  class Scheduler {
    /** imm_ != NULL, manual_compaction_ != NULL and NeedsCompaction(). */
    var imm: bool
    var manual: bool
    var needsCompaction: bool
    var bgError: bool
    var shuttingDown: bool
    /** bg_compaction_scheduled_. */
    var scheduled: bool
    /** Work items handed to Env::Schedule that have not ended, and whether one has begun. */
    var items: nat
    var running: bool
    /** The running item found a manual compaction when it chose what to do. */
    var runsManual: bool
    /** The running item's manual compaction was cancelled since the item began. */
    ghost var cancelled: bool

    predicate Pending()
      reads this
    {
      imm || manual || needsCompaction
    }

    /** At most one item exists, the flag says whether it does, and it does whenever there
        is work that may be done. */
    ghost predicate Valid()
      reads this
    {
      && items == (if scheduled then 1 else 0)
      && (running ==> scheduled)
      && (Pending() && !bgError && !shuttingDown ==> scheduled)
      && (cancelled ==> bgError || shuttingDown)
      && (running && runsManual ==> (manual <==> !cancelled))
    }

    /** DB::Open, after recovery. */
    constructor (needsCompaction: bool)
      ensures Valid() && !imm && !manual && !bgError && !shuttingDown && !running
      ensures this.needsCompaction == needsCompaction && scheduled == needsCompaction && !cancelled
    {
      imm, manual, bgError, shuttingDown := false, false, false, false;
      scheduled, running, runsManual := false, false, false;
      this.needsCompaction, items, cancelled := needsCompaction, 0, false;
      new;
      MaybeScheduleCompaction();
    }

    method MaybeScheduleCompaction()
      requires items == (if scheduled then 1 else 0) && (running ==> scheduled)
      requires (cancelled ==> bgError || shuttingDown) && (running && runsManual ==> (manual <==> !cancelled))
      modifies `scheduled, `items
      ensures Valid()
      ensures scheduled == (old(scheduled) || (Pending() && !bgError && !shuttingDown))
    {
      if scheduled {
      } else if shuttingDown {
      } else if bgError {
      } else if !imm && !manual && !needsCompaction {
      } else {
        scheduled := true;
        items := items + 1;
      }
    }

    /** MakeRoomForWrite makes the memtable immutable. */
    method SwitchMemTable()
      requires Valid() && !imm && !bgError
      modifies `imm, `scheduled, `items
      ensures Valid() && imm && (!shuttingDown ==> scheduled)
    {
      imm := true;
      MaybeScheduleCompaction();
    }

    /** TEST_CompactRange finds the slot for manual compactions free. */
    method RequestManual()
      requires Valid() && !manual && !bgError && !shuttingDown
      modifies `manual, `scheduled, `items
      ensures Valid() && manual && scheduled
    {
      manual := true;
      MaybeScheduleCompaction();
    }

    /** TEST_CompactRange gives up after an error or during shutdown, also while its
        compaction runs. */
    method CancelManual()
      requires Valid() && manual && (bgError || shuttingDown)
      modifies `manual, `cancelled
      ensures Valid() && !manual && cancelled == (old(cancelled) || running)
    {
      manual, cancelled := false, cancelled || running;
    }

    /** Get and RecordReadSample charge a seek, which may make a file due for compaction. */
    method ChargeSeek(due: bool)
      requires Valid()
      modifies `needsCompaction, `scheduled, `items
      ensures Valid() && needsCompaction == (old(needsCompaction) || due)
    {
      if due {
        needsCompaction := true;
        MaybeScheduleCompaction();
      }
    }

    method RecordBackgroundError()
      requires Valid()
      modifies `bgError
      ensures Valid() && bgError
    {
      bgError := true;
    }

    /** The destructor announces the shutdown, and then waits until nothing is scheduled. */
    method ShutDown()
      requires Valid()
      modifies `shuttingDown
      ensures Valid() && shuttingDown
    {
      shuttingDown := true;
    }

    /** BackgroundCall takes the mutex and chooses what to do; a flush or compaction gives
        the mutex up while it works, so this is the end of a critical section. */
    method Begin() returns (work: bool)
      requires Valid() && items == 1 && !running
      modifies `running, `runsManual, `cancelled
      ensures Valid() && running && !cancelled && work == (!shuttingDown && !bgError)
      ensures runsManual == (work && !imm && manual)
    {
      running := true;
      work := !shuttingDown && !bgError;
      runsManual, cancelled := work && !imm && manual, false;
    }

    /** CompactMemTable commits, or records its error: alone or from inside a running
        compaction.  The new version may or may not be due for compaction. */
    method FinishFlush(ok: bool, due: bool)
      requires Valid() && running && imm
      modifies `imm, `bgError, `needsCompaction
      ensures Valid() && imm == !ok && bgError == (old(bgError) || !ok)
      ensures needsCompaction == if ok then due else old(needsCompaction)
    {
      if ok {
        needsCompaction := due;
        imm := false;
      } else {
        bgError := true;
      }
    }

    /** LogAndApply for a trivial move or a compaction, or its error. */
    method FinishCompaction(ok: bool, due: bool)
      requires Valid() && running
      modifies `needsCompaction, `bgError
      ensures Valid() && bgError == (old(bgError) || !ok)
      ensures needsCompaction == if ok then due else old(needsCompaction)
    {
      if ok {
        needsCompaction := due;
      } else {
        bgError := true;
      }
    }

    /** The end of BackgroundCall: a manual compaction gives its slot back, the item ends,
        and a new one is scheduled in the same critical section if there is more to do.  The
        code takes for granted that the slot is still held; it is if and only if nobody
        cancelled since the item began. */
    method End() returns (held: bool)
      requires Valid() && running
      modifies this
      ensures Valid() && !running && imm == old(imm) && needsCompaction == old(needsCompaction)
      ensures bgError == old(bgError) && shuttingDown == old(shuttingDown)
      ensures old(runsManual) ==> (held <==> !old(cancelled))
      ensures held == old(manual) && manual == (old(manual) && !old(runsManual))
      ensures scheduled == (Pending() && !bgError && !shuttingDown)
    {
      held := manual;
      if runsManual {
        manual := false;
      }
      running, runsManual, cancelled := false, false, false;
      scheduled := false;
      items := items - 1;
      MaybeScheduleCompaction();
    }
  }

  /** A manual compaction is running when an error is recorded (a failed flush inside it, or
      a failed sync of a writer).  Its requester gives up, and the slot is empty when the
      compaction ends. */
  method CancelledInMidRun() returns (s: Scheduler, runs: bool, held: bool)
    ensures fresh(s) && s.Valid() && s.bgError && runs && !held
  {
    s := new Scheduler(false);
    s.RequestManual();
    var work := s.Begin();
    runs := s.runsManual;
    s.RecordBackgroundError();
    s.CancelManual();
    held := s.End();
  }
}
