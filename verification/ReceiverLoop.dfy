/** The single-threaded receiver as the code runs it: one object updated in place,
    proved against the specification functions of module Receiver. */
module ReceiverLoop {
  import opened Protocol
  import opened Receiver
  import LateDelete

  function Unparked(s: St): St { s.(reader := s.reader.(parked := None)) }

  class ReceiveSession {
    const cfg: Config
    const w: World

    /** What saving has left behind, and the loop's own state. */
    var book: Book
    var reader: Reader

    var wire: seq<Reply>
    var wouldDelete: seq<string>
    var deletedPaths: seq<string>
    var limitReached: bool
    /** Keep-sets committed so far. */
    var committed: multiset<Manifest>

    function View(turn: Turn): St
      reads this
    {
      St(book, reader, wire, wouldDelete, deletedPaths, limitReached, committed, turn)
    }

    constructor (cfg: Config, w: World, start: int)
      ensures this.cfg == cfg && this.w == w
      ensures View(GoOn) == StInit(start)
    {
      this.cfg, this.w := cfg, w;
      book, reader := EmptyBook, StartReader(start);
      wire, wouldDelete, deletedPaths, limitReached, committed := [], [], [], false, multiset{};
    }

    /** receiver_save_file */
    method Save(f: File) returns (ok: bool)
      modifies this`book
      ensures (book, ok) == SaveFile(cfg, w, Direct, old(book), f)
    {
      var result := Saved(Skipped, false, 0);
      if !cfg.dryRun && cfg.saveToDisk {
        result := w.save(book.disk, f);
        book := book.(disk := book.disk + [Store(f)]);
      }
      if result.result != SaveError && f.matched > 0 {
        book := book.(stats := book.stats.(matched := book.stats.matched + f.matched));
      }
      if result.result == SaveFailed {
        book := book.(failed := book.failed + 1);
      }
      if result.result == Written {
        book := book.(stats := NoteSaved(book.stats, f, result.created, result.createdDirs));
      }
      if result.result != SaveError && f.isDir && f.hasMetadata && cfg.captureDirs {
        book := book.(dirTimes := book.dirTimes + [f]);
      }
      if !cfg.dryRun && result.result != SaveError && cfg.removeSource && !f.isDir && !f.isSpecial && !f.skip {
        book := book.(outcomes := book.outcomes + [result.result]);
      }
      ok := result.result != SaveError;
    }

    /** receiver_process_chunk: store each entry in turn until one fails. */
    method SaveEach(files: seq<File>) returns (ok: bool)
      modifies this`book
      ensures (book, ok) == SaveAll(cfg, w, Direct, old(book), files)
    {
      ok := true;
      var i := 0;
      ghost var b := book;
      while i < |files| && ok
        invariant 0 <= i <= |files|
        invariant (book, ok) == SaveAll(cfg, w, Direct, b, files[..i])
      {
        ok := Save(files[i]);
        assert files[..i + 1][..i] == files[..i];
        i := i + 1;
      }
      SaveAllConcat(cfg, w, Direct, b, files[..i], files[i..]);
      assert files[..i] + files[i..] == files;
    }

    /** Commit a keep-set, tallying what was removed. */
    method CommitNow(m: Manifest, ghost turn: Turn) returns (result: CommitResult)
      modifies this`book, this`deletedPaths, this`limitReached, this`committed
      ensures (View(turn), result) == CommitManifest(cfg, w, old(View(turn)), m)
    {
      var c := w.commit(book.disk, m);
      book := book.(disk := book.disk + [Delete(m)]);
      if cfg.reportDeletes {
        deletedPaths := Cap(deletedPaths + c.paths);
      }
      book := book.(stats := book.stats.(deleted := book.stats.deleted + c.deleted));
      committed := committed + multiset{m};
      if c.result == CommitLimit {
        limitReached := true;
      }
      result := c.result;
    }

    /** receiver_handle_manifest, --delete-before */
    method HandleEarly(m: Manifest) returns (turn: Turn)
      modifies this`book, this`deletedPaths, this`limitReached, this`committed,
               this`reader, this`wire
      ensures View(turn) == EarlyManifest(cfg, w, old(View(GoOn)), m)
    {
      reader := reader.(taken := reader.taken + multiset{m});
      var result := CommitOk;
      if cfg.useDelete || cfg.deleteMissing {
        result := CommitNow(m, GoOn);
      } else {
        reader := reader.(freed := reader.freed + multiset{m});
      }
      if result == CommitError {
        wire := wire + [Code(StatusError)];
        turn := Quiet;
      } else {
        wire := wire + [Code(StatusOk)];
        turn := GoOn;
      }
    }

    /** receiver_handle_manifest, every other timing and the dry run */
    method HandleLate(m: Manifest) returns (turn: Turn)
      requires !(cfg.deleteBefore && !cfg.dryRun)
      modifies this`reader, this`wire, this`wouldDelete
      ensures var a := TakeManifest(cfg, old(reader), m);
              && reader == a.reader && wire == old(wire) + a.wire && turn == a.turn
              && wouldDelete == if a.listing.Some? then old(wouldDelete) + w.would(book.disk, a.listing.value)
                                else old(wouldDelete)
    {
      turn := GoOn;
      reader := reader.(taken := reader.taken + multiset{m});
      if cfg.dryRun {
        if cfg.useDelete {
          wouldDelete := wouldDelete + w.would(book.disk, m);
        }
        reader := reader.(freed := reader.freed + multiset{m});
        if cfg.deleteBefore {
          wire := wire + [Code(StatusOk)];
        }
      } else if cfg.useDelete || cfg.deleteMissing {
        if reader.parked.Some? {
          reader := reader.(parked := None, freed := reader.freed + multiset{reader.parked.value} + multiset{m});
          wire := wire + [Code(StatusError)];
          turn := Quiet;
        } else {
          reader := reader.(parked := Some(m));
        }
      } else {
        reader := reader.(freed := reader.freed + multiset{m});
      }
    }

    /** receiver_handle_check */
    method HandleCheckFrame(request: int) returns (turn: Turn)
      modifies this`book
      ensures View(turn) == HandleCheck(cfg, w, old(View(GoOn)), request)
    {
      turn := GoOn;
      match w.check(book.disk, request)
      case CheckSkip =>
      case CheckWould => turn := if cfg.dryRun then GoOn else Notify;
      case CheckBad => turn := Notify;
      case CheckFile(f) =>
        if cfg.dryRun {
          turn := Notify;
        } else {
          var ok := SaveEach([f]);
          turn := if ok then GoOn else Notify;
        }
    }

    /** The frames that read or change the disk on the reading side. */
    method DispatchDisk(f: Frame) returns (turn: Turn)
      requires TouchesDisk(cfg, f)
      modifies this
      ensures View(turn) == match f
                            case Check(request) => HandleCheck(cfg, w, old(View(GoOn)), request)
                            case CheckBatch(batch) =>
                              if w.batch(old(book.disk), batch) then old(View(GoOn)) else old(View(Quiet))
                            case ManifestFrame(m) => EarlyManifest(cfg, w, old(View(GoOn)), m)
    {
      match f
      case Check(request) => turn := HandleCheckFrame(request);
      case CheckBatch(batch) => turn := if w.batch(book.disk, batch) then GoOn else Quiet;
      case ManifestFrame(m) => turn := HandleEarly(m);
    }

    /** The frames that carry entries. */
    method HandleData(files: seq<File>, complete: bool) returns (turn: Turn)
      modifies this`book
      ensures View(turn) == SaveFrame(cfg, w, old(View(GoOn)), files, if complete then GoOn else Notify)
    {
      var ok := SaveEach(files);
      turn := if ok && complete then GoOn else Notify;
    }

    /** The frames that neither carry entries nor concern the disk. */
    method HandleControl(f: Frame) returns (turn: Turn)
      requires !f.Data? && !TouchesDisk(cfg, f)
      modifies this`reader, this`wire, this`wouldDelete
      ensures var a := Handled(cfg, old(reader), f);
              && reader == a.reader && wire == old(wire) + a.wire && turn == a.turn
              && wouldDelete == if a.listing.Some? then old(wouldDelete) + w.would(book.disk, a.listing.value)
                                else old(wouldDelete)
    {
      match f
      case Keepalive(echoed) =>
        if echoed {
          wire := wire + [Code(StatusKeepalive)];
        }
        turn := if echoed then GoOn else Quiet;
      case ManifestFrame(m) => turn := HandleLate(m);
      case BadManifest =>
        wire := wire + [Code(StatusError)];
        turn := Quiet;
      case DeletePlan =>
        wire := wire + [Code(StatusError)];
        turn := Quiet;
      case Abort => turn := Quiet;
      case Finished => turn := Complete;
      case UnknownStatus => turn := Notify;
    }

    /** receiver_note_status and receiver_dispatch_status for every frame that leaves
        the disk to the sink. */
    method DispatchStream(start: int, t: Timed) returns (turn: Turn)
      requires !TouchesDisk(cfg, t.frame)
      modifies this
      ensures View(turn) == StStep(cfg, w, start, old(View(GoOn)), t)
    {
      if Progress(t.frame) {
        reader := reader.(last := t.now);
      }
      if t.now - start >= cfg.wallLimit || t.now - reader.last >= cfg.idleLimit {
        wire := wire + [Code(StatusError)];
        turn := Quiet;
      } else if t.frame.Data? {
        turn := HandleData(t.frame.files, t.frame.complete);
      } else {
        turn := HandleControl(t.frame);
      }
    }

    /** One turn of the receive loop. */
    method Step(start: int, t: Timed) returns (turn: Turn)
      modifies this
      ensures View(turn) == StStep(cfg, w, start, old(View(GoOn)), t)
    {
      if !TouchesDisk(cfg, t.frame) {
        turn := DispatchStream(start, t);
      } else {
        if Progress(t.frame) {
          reader := reader.(last := t.now);
        }
        if t.now - start >= cfg.wallLimit || t.now - reader.last >= cfg.idleLimit {
          wire := wire + [Code(StatusError)];
          turn := Quiet;
        } else {
          turn := DispatchDisk(t.frame);
        }
      }
    }

    /** receiver_send_success_frame */
    method SendSuccess() returns (ok: bool)
      modifies this`book, this`wire
      ensures Outcome(book.disk, wire, ok, reader.taken, committed, reader.freed) == SuccessFrame(cfg, w, old(View(Complete)))
    {
      var status := FinalStatus(limitReached, book.failed);
      wire := wire + StatsReply(cfg, book.stats, wouldDelete, deletedPaths);
      if !cfg.dryRun {
        if cfg.delayUpdates {
          var published := w.publish(book.disk);
          book := book.(disk := book.disk + [Publish]);
          if !published {
            wire := wire + [Code(StatusError)];
            return false;
          }
        }
        book := book.(disk := book.disk + [StampDirs(book.dirTimes)]);
      }
      wire := wire + (Acks(cfg, book.outcomes) + [Code(status)]);
      ok := true;
    }

    /** Commit the parked keep-set, or answer that it could not be committed. */
    method CommitParked() returns (result: CommitResult)
      requires reader.parked.Some?
      modifies this
      ensures var (s, r) := CommitManifest(cfg, w, Unparked(old(View(Complete))), old(reader.parked.value));
              result == r && View(Complete) == if r == CommitError then s.(wire := s.wire + [Code(StatusError)]) else s
    {
      var m := reader.parked.value;
      ghost var s0 := View(Complete);
      reader := reader.(parked := None);
      assert View(Complete) == Unparked(s0);
      result := CommitNow(m, Complete);
      if result == CommitError {
        wire := wire + [Code(StatusError)];
      }
    }

    /** The teardown of a failed stream. */
    method Discard(turn: Turn, silent: bool)
      requires turn != Complete
      modifies this`reader, this`wire
      ensures Outcome(book.disk, wire, false, reader.taken, committed, reader.freed) == StFinish(cfg, w, old(View(turn)), silent)
    {
      if reader.parked.Some? {
        reader := reader.(parked := None, freed := reader.freed + multiset{reader.parked.value});
      }
      if turn != Quiet && !silent {
        wire := wire + [Code(StatusError)];
      }
    }

    /** The commit point, or the teardown of a failed stream. */
    method Finish(turn: Turn, silent: bool) returns (ok: bool)
      modifies this
      ensures Outcome(book.disk, wire, ok, reader.taken, committed, reader.freed) == StFinish(cfg, w, old(View(turn)), silent)
    {
      if turn != Complete {
        Discard(turn, silent);
        return false;
      }
      var result := CommitOk;
      if reader.parked.Some? {
        result := CommitParked();
      }
      if result == CommitError {
        return false;
      }
      ok := SendSuccess();
    }

    /** receiver_process_pending over a whole stream, for the receiver that commits
        its own deletions. */
    method ReceiveFiles(start: int, ts: seq<Timed>) returns (ok: bool)
      requires View(GoOn) == StInit(start)
      modifies this
      ensures Outcome(book.disk, wire, ok, reader.taken, committed, reader.freed) == Sequential(cfg, w, start, ts)
      ensures !cfg.deleteBefore && !cfg.dryRun ==> forall m :: Delete(m) in book.disk <==>
        Deletes(cfg) && exists k: nat :: LateDelete.FinishesAt(cfg, w, start, ts, k) && LateDelete.Manifests(ts[..k]) == [m]
    {
      var turn := GoOn;
      var i := 0;
      while i < |ts| && turn == GoOn
        invariant 0 <= i <= |ts|
        invariant View(turn) == StRun(cfg, w, start, ts[..i])
      {
        turn := Step(start, ts[i]);
        assert ts[..i + 1][..i] == ts[..i];
        i := i + 1;
      }
      assert ts[..|ts|] == ts;
      if turn != GoOn {
        LateDelete.StoppedLoop(cfg, w, start, ts, i);
      }
      ok := Finish(turn, |ts| == 0);
      if !cfg.deleteBefore && !cfg.dryRun {
        forall m ensures Delete(m) in book.disk <==>
          Deletes(cfg) && exists k: nat :: LateDelete.FinishesAt(cfg, w, start, ts, k) && LateDelete.Manifests(ts[..k]) == [m]
        {
          LateDelete.LateDeleteExactly(cfg, w, start, ts, m);
        }
      }
    }
  }
}
