/** The shared context of the receive pipeline as an object: each method is one
    critical section, proved to be the corresponding move of module Pipeline. */
module PipelineContext {
  import opened Protocol
  import opened Receiver
  import opened Pipeline
  import PipelineRefinement

  datatype EnqueueResult = Enqueued | Waiting | Refused

  class Context {
    const capacity: nat
    const maxBytes: nat

    var queue: seq<File>
    var queuedBytes: nat
    var receiverDone: bool
    var cancelled: bool
    var receiverWaiting: bool   // parked on condition_not_full
    var writerWaiting: bool     // parked on condition_not_empty

    constructor (capacity: nat, maxBytes: nat)
      ensures this.capacity == capacity && this.maxBytes == maxBytes
      ensures forall e: Env :: e.capacity == capacity && e.maxBytes == maxBytes ==> Shows(e, MtInit(e))
    {
      this.capacity, this.maxBytes := capacity, maxBytes;
      queue, queuedBytes := [], 0;
      receiverDone, cancelled, receiverWaiting, writerWaiting := false, false, false, false;
    }

    /** The object shows the shared part of a pipeline state. */
    ghost predicate Shows(e: Env, s: Mt)
      reads this
    {
      && e.capacity == capacity && e.maxBytes == maxBytes
      && queue == s.queue && queuedBytes == s.queuedBytes
      && receiverDone == s.done && cancelled == s.cancelled
      && receiverWaiting == s.rpc.RAsleep? && writerWaiting == s.wpc.WAsleep?
    }

    /** One pass through the wait loop of pipeline_context_receiver_enqueue_file. */
    method EnqueueFile(file: File, ghost e: Env, ghost s: Mt) returns (r: EnqueueResult)
      requires Shows(e, s) && s.rpc.REnqueue? && s.rpc.todo != [] && s.rpc.todo[0] == file
      modifies this
      ensures Shows(e, EnqueueMove(e, s))
      ensures r.Enqueued? <==> EnqueueMove(e, s).sent == s.sent + [file]
      ensures r.Waiting? <==> EnqueueMove(e, s).rpc.RAsleep?
      ensures r.Refused? <==> old(cancelled)
    {
      if cancelled {
        return Refused;
      }
      var blockedByCount := |queue| >= capacity;
      var blockedByBudget := false;
      if maxBytes > 0 {
        if queuedBytes >= maxBytes {
          blockedByBudget := true;
        } else if file.size > maxBytes - queuedBytes {
          blockedByBudget := queuedBytes != 0;
        }
      }
      if blockedByCount || blockedByBudget {
        receiverWaiting := true;
        return Waiting;
      }
      queue := queue + [file];
      queuedBytes := queuedBytes + file.size;
      writerWaiting := false;
      r := Enqueued;
    }

    /** pipeline_context_receiver_note_bytes_released */
    method NoteBytesReleased(size: nat, ghost e: Env, ghost s: Mt)
      requires Shows(e, s) && s.wpc.WRelease? && s.wpc.file.size == size
      modifies this`queuedBytes, this`receiverWaiting
      ensures Shows(e, WMove(e, s))
    {
      if maxBytes == 0 || size == 0 {
        return;
      }
      if size >= queuedBytes {
        queuedBytes := 0;
      } else {
        queuedBytes := queuedBytes - size;
      }
      receiverWaiting := false;
    }

    /** queue_dequeue_multithreaded, up to the point where it returns or waits. */
    method Dequeue(ghost e: Env, ghost s: Mt) returns (file: Option<File>)
      requires Shows(e, s) && s.wpc.WReady?
      modifies this`queue, this`receiverWaiting, this`writerWaiting
      ensures Shows(e, WMove(e, s))
      ensures file.Some? ==> WMove(e, s).wpc == WHold(file.value)
      ensures file.None? && !writerWaiting ==> queue == [] && receiverDone
    {
      if |queue| == 0 {
        writerWaiting := !receiverDone;
        return None;
      }
      file := Some(queue[0]);
      queue := queue[1..];
      receiverWaiting := false;
    }

    /** receiver_thread_fail */
    method ReceiverFail(ghost e: Env, ghost s: Mt)
      requires Supported(e) && Shows(e, s) && s.rpc.RFailing?
      modifies this`cancelled, this`receiverDone, this`writerWaiting, this`receiverWaiting
      ensures Shows(e, RMove(e, s))
    {
      cancelled := true;
      receiverDone := true;
      writerWaiting := false;
      receiverWaiting := false;
    }

    /** The receive thread's end of a complete stream. */
    method ReceiverClose(ghost e: Env, ghost s: Mt)
      requires Supported(e) && Shows(e, s) && s.rpc.RClosing?
      modifies this`receiverDone, this`writerWaiting
      ensures Shows(e, RMove(e, s))
    {
      receiverDone := true;
      writerWaiting := false;
    }

    /** A thread coming out of its wait to look again. */
    method Wake(reader: bool, ghost e: Env, ghost s: Mt)
      requires Shows(e, s)
      modifies this`receiverWaiting, this`writerWaiting
      ensures reader ==> Shows(e, s.(rpc := WakeR(s.rpc)))
      ensures !reader ==> Shows(e, s.(wpc := WakeW(s.wpc)))
    {
      if reader {
        receiverWaiting := false;
      } else {
        writerWaiting := false;
      }
    }

    /** The write thread giving up after a failed save. */
    method WriterFail(ghost e: Env, ghost s: Mt)
      requires Shows(e, s) && s.wpc.WCancel?
      modifies this`cancelled, this`receiverDone, this`writerWaiting, this`receiverWaiting
      ensures Shows(e, WMove(e, s))
    {
      cancelled := true;
      receiverDone := true;
      receiverWaiting := false;
      writerWaiting := false;
    }
  }

  /** server_run_mt_receiver from the joins to the terminal frames. */
  method FinishTransfer(e: Env, s: Mt) returns (o: Outcome)
    requires Joined(s)
    ensures o == MtFinish(e, s)
  {
    var cfg, w := e.cfg, e.w;
    var transferOk := s.rpc.ok && s.wpc.ok;
    var book, wire, deletedPaths := s.book, s.wire, [];
    var limit, committed, freed := false, multiset{}, s.reader.freed;
    if s.handed.Some? {
      var m := s.handed.value;
      if transferOk && !cfg.dryRun {
        var c := w.commit(book.disk, m);
        book := book.(disk := book.disk + [Delete(m)],
                      stats := book.stats.(deleted := book.stats.deleted + c.deleted));
        if cfg.reportDeletes {
          deletedPaths := Cap(deletedPaths + c.paths);
        }
        committed := committed + multiset{m};
        if c.result == CommitError {
          transferOk := false;
        }
        if c.result == CommitLimit {
          limit := true;
        }
      } else {
        freed := freed + multiset{m};
      }
    }
    if transferOk && !cfg.dryRun {
      if cfg.delayUpdates {
        var published := w.publish(book.disk);
        book := book.(disk := book.disk + [Publish]);
        transferOk := published;
      }
      if transferOk {
        book := book.(disk := book.disk + [StampDirs(book.dirTimes)]);
      }
    }
    if transferOk {
      wire := wire + (StatsReply(cfg, book.stats, s.wouldDelete, deletedPaths)
                      + (Acks(cfg, book.outcomes) + [Code(FinalStatus(limit, book.failed))]));
    } else {
      wire := wire + [ErrorDetail];
    }
    o := Outcome(book.disk, wire, transferOk, s.reader.taken, committed, freed);
  }

  // ---- Both threads over one context ----

  /** One step of the receive thread. */
  method ReceiveStep(ctx: Context, e: Env, s: Mt) returns (t: Mt)
    requires Supported(e) && ctx.Shows(e, s) && RCan(s)
    modifies ctx
    ensures t == RMove(e, s) && ctx.Shows(e, t)
  {
    t := RMove(e, s);
    match s.rpc
    case REnqueue(todo, _) => var r := ctx.EnqueueFile(todo[0], e, s);
    case RFailing => ctx.ReceiverFail(e, s);
    case RClosing => ctx.ReceiverClose(e, s);
    case _ =>
  }

  /** One step of the write thread. */
  method WriteStep(ctx: Context, e: Env, s: Mt) returns (t: Mt)
    requires ctx.Shows(e, s) && WCan(s)
    modifies ctx
    ensures t == WMove(e, s) && ctx.Shows(e, t)
  {
    t := WMove(e, s);
    match s.wpc
    case WReady => var file := ctx.Dequeue(e, s);
    case WRelease(f, _) => ctx.NoteBytesReleased(f.size, e, s);
    case WCancel => ctx.WriterFail(e, s);
    case _ =>
  }

  method Step(ctx: Context, e: Env, s: Mt, mv: Mover) returns (t: Mt)
    requires Supported(e) && ctx.Shows(e, s) && Can(s, mv)
    modifies ctx
    ensures t == Move(e, s, mv) && ctx.Shows(e, t)
  {
    match mv
    case R => t := ReceiveStep(ctx, e, s);
    case W => t := WriteStep(ctx, e, s);
    case SpuriousR => ctx.Wake(true, e, s); t := s.(rpc := WakeR(s.rpc));
    case SpuriousW => ctx.Wake(false, e, s); t := s.(wpc := WakeW(s.wpc));
  }

  /** server_run_mt_receiver: the two threads over one context in the order of a schedule,
      then the code after the joins. Whatever the schedule, a run that ends with both
      threads joined leaves the disk effects of the single-threaded receiver, succeeds
      exactly when it does, deletes exactly what it deletes, and on success sends exactly
      the same frames. */
  method ServePipelined(e: Env, schedule: seq<Mover>) returns (o: Option<Outcome>)
    requires Supported(e)
    ensures o.Some? <==> After(e, schedule).Some? && Joined(After(e, schedule).value)
    ensures o.Some? ==> var q := Sequential(e.cfg, e.w, e.start, e.ts);
            && o.value.disk == q.disk && o.value.ok == q.ok && o.value.committed == q.committed
            && (o.value.ok ==> o.value == q)
  {
    var ctx := new Context(e.capacity, e.maxBytes);
    var s := MtInit(e);
    var i := 0;
    assert schedule[..0] == [];
    while i < |schedule|
      invariant 0 <= i <= |schedule|
      invariant ctx.Shows(e, s) && After(e, schedule[..i]) == Some(s)
    {
      assert schedule[..i + 1][..i] == schedule[..i];
      if !Can(s, schedule[i]) {
        Stuck(e, schedule, i + 1);
        return None;
      }
      s := Step(ctx, e, s, schedule[i]);
      i := i + 1;
    }
    assert schedule[..i] == schedule;
    if !Joined(s) {
      return None;
    }
    PipelineRefinement.PipelineRefinesSequential(e, schedule);
    var outcome := FinishTransfer(e, s);
    o := Some(outcome);
  }

  /** A schedule that asks for an impossible move leads nowhere. */
  lemma {:induction false} Stuck(e: Env, schedule: seq<Mover>, i: nat)
    requires Supported(e) && i <= |schedule| && After(e, schedule[..i]).None?
    ensures After(e, schedule).None?
  {
    if i == |schedule| {
      assert schedule[..i] == schedule;
    } else {
      var most := schedule[..|schedule| - 1];
      assert most[..i] == schedule[..i];
      Stuck(e, most, i);
    }
  }
}
