/** When a late deletion is committed: exactly when the whole stream was sound. */
module LateDelete {
  import opened Protocol
  import opened Receiver

  // ---- An account of a stream that does not mention the receive loop ----

  /** The entries a frame asks to have stored, given the disk it arrives at. */
  function FilesOf(cfg: Config, w: World, disk: Disk, f: Frame): seq<File> {
    match f
    case Data(_, files, _) => files
    case Check(request) =>
      var reply := w.check(disk, request);
      if !cfg.dryRun && reply.CheckFile? then [reply.file] else []
    case _ => []
  }

  /** The frame is well formed, is not an abort, and was answered. */
  predicate Fine(cfg: Config, w: World, disk: Disk, f: Frame) {
    match f
    case Data(_, _, complete) => complete
    case Keepalive(echoed) => echoed
    case Check(request) =>
      var reply := w.check(disk, request);
      reply.CheckSkip? || (if cfg.dryRun then reply.CheckWould? else reply.CheckFile?)
    case CheckBatch(batch) => w.batch(disk, batch)
    case ManifestFrame(_) => true
    case _ => false
  }

  function Laid(cfg: Config, files: seq<File>): Disk {
    if Writes(cfg) then seq(|files|, i requires 0 <= i < |files| => Store(files[i])) else []
  }

  function Requested(cfg: Config, w: World, ts: seq<Timed>): seq<File> {
    if ts == [] then []
    else
      var before := Requested(cfg, w, ts[..|ts| - 1]);
      before + FilesOf(cfg, w, Laid(cfg, before), ts[|ts| - 1].frame)
  }

  function Manifests(ts: seq<Timed>): seq<Manifest> {
    if ts == [] then []
    else
      var before := Manifests(ts[..|ts| - 1]);
      if ts[|ts| - 1].frame.ManifestFrame? then before + [ts[|ts| - 1].frame.manifest] else before
  }

  /** A frame a sender cannot send for nothing moves the transfer on; a sign of life does not,
      nor does a list that may be empty. */
  predicate Moves(f: Frame) {
    match f
    case Data(dirTimes, _, _) => !dirTimes
    case Check(_) => true
    case ManifestFrame(_) => true
    case BadManifest => true
    case DeletePlan => true
    case Finished => true
    case UnknownStatus => true
    case CheckBatch(_) => false
    case Keepalive(_) => false
    case Abort => false
  }

  function LastProgress(start: int, ts: seq<Timed>): int {
    if ts == [] then start
    else if Moves(ts[|ts| - 1].frame) then ts[|ts| - 1].now
    else LastProgress(start, ts[..|ts| - 1])
  }

  predicate InTime(cfg: Config, start: int, ts: seq<Timed>, i: nat)
    requires i < |ts|
  {
    ts[i].now < start + cfg.wallLimit && ts[i].now < LastProgress(start, ts[..i + 1]) + cfg.idleLimit
  }

  predicate AllSaved(cfg: Config, w: World, files: seq<File>) {
    Writes(cfg) ==> forall i :: 0 <= i < |files| ==> w.save(Laid(cfg, files[..i]), files[i]).result != SaveError
  }

  ghost predicate AllInTime(cfg: Config, start: int, ts: seq<Timed>) {
    forall i :: 0 <= i < |ts| ==> InTime(cfg, start, ts, i)
  }

  ghost predicate FineAt(cfg: Config, w: World, ts: seq<Timed>, i: nat)
    requires i < |ts|
  {
    Fine(cfg, w, Laid(cfg, Requested(cfg, w, ts[..i])), ts[i].frame)
  }

  ghost predicate AllFine(cfg: Config, w: World, ts: seq<Timed>) {
    forall i :: 0 <= i < |ts| ==> FineAt(cfg, w, ts, i)
  }

  ghost predicate OneKeepSet(cfg: Config, ts: seq<Timed>) {
    !cfg.dryRun && Deletes(cfg) ==> |Manifests(ts)| <= 1
  }

  /** Every frame arrived in time and well formed, everything asked for was
      stored, and at most one keep-set was sent. */
  ghost predicate Sound(cfg: Config, w: World, start: int, ts: seq<Timed>) {
    && AllInTime(cfg, start, ts)
    && AllFine(cfg, w, ts)
    && AllSaved(cfg, w, Requested(cfg, w, ts))
    && OneKeepSet(cfg, ts)
  }

  /** The stream is sound up to a timely FINISHED at position k. */
  ghost predicate FinishesAt(cfg: Config, w: World, start: int, ts: seq<Timed>, k: nat) {
    k < |ts| && ts[k].frame.Finished? && InTime(cfg, start, ts, k) && Sound(cfg, w, start, ts[..k])
  }

  // ---- The loop agrees with that account ----

  lemma LaidSnoc(cfg: Config, xs: seq<File>, f: File)
    ensures Laid(cfg, xs + [f]) == Touch(cfg, Laid(cfg, xs), f)
  {
  }

  /** Saving a list from a disk that already holds `done`. */
  lemma {:induction false} SavedFiles(cfg: Config, w: World, sink: Sink, b: Book, done: seq<File>, files: seq<File>)
    requires b.disk == Laid(cfg, done) && AllSaved(cfg, w, done)
    ensures var r := SaveAll(cfg, w, sink, b, files);
            r.1 == AllSaved(cfg, w, done + files) && (r.1 ==> r.0.disk == Laid(cfg, done + files))
  {
    if files == [] {
      assert done + files == done;
    } else {
      var n := |files| - 1;
      SavedFiles(cfg, w, sink, b, done, files[..n]);
      var all := done + files;
      var most := done + files[..n];
      assert all == most + [files[n]];
      LaidSnoc(cfg, most, files[n]);
      assert all[..|most|] == most;
      if AllSaved(cfg, w, all) && Writes(cfg) {
        forall i | 0 <= i < |most| ensures w.save(Laid(cfg, most[..i]), most[i]).result != SaveError {
          assert most[..i] == all[..i] && most[i] == all[i];
        }
      }
      if AllSaved(cfg, w, most) && Writes(cfg) {
        forall i | 0 <= i < |most| ensures w.save(Laid(cfg, all[..i]), all[i]).result != SaveError {
          assert most[..i] == all[..i] && most[i] == all[i];
        }
        assert all[|most|] == files[n];
      }
    }
  }

  lemma LastProgressSnoc(start: int, ts: seq<Timed>)
    requires ts != []
    ensures LastProgress(start, ts) == Refresh(LastProgress(start, ts[..|ts| - 1]), ts[|ts| - 1])
  {
  }

  lemma InTimeSnoc(cfg: Config, start: int, ts: seq<Timed>)
    requires ts != []
    ensures AllInTime(cfg, start, ts)
            == (AllInTime(cfg, start, ts[..|ts| - 1]) && InTime(cfg, start, ts, |ts| - 1))
  {
    var most := ts[..|ts| - 1];
    forall i | 0 <= i < |most| ensures InTime(cfg, start, ts, i) == InTime(cfg, start, most, i) {
      assert ts[..i + 1] == most[..i + 1];
    }
  }

  lemma FineSnoc(cfg: Config, w: World, ts: seq<Timed>)
    requires ts != []
    ensures AllFine(cfg, w, ts) == (AllFine(cfg, w, ts[..|ts| - 1]) && FineAt(cfg, w, ts, |ts| - 1))
  {
    var most := ts[..|ts| - 1];
    forall i | 0 <= i < |most| ensures FineAt(cfg, w, ts, i) == FineAt(cfg, w, most, i) {
      assert ts[..i] == most[..i];
    }
  }

  lemma AllSavedPrefix(cfg: Config, w: World, xs: seq<File>, ys: seq<File>)
    ensures AllSaved(cfg, w, xs + ys) ==> AllSaved(cfg, w, xs)
  {
    forall i | 0 <= i < |xs| ensures (xs + ys)[..i] == xs[..i] && (xs + ys)[i] == xs[i] {
    }
  }

  /** What one more frame adds to soundness. */
  lemma SoundSnoc(cfg: Config, w: World, start: int, ts: seq<Timed>)
    requires ts != []
    ensures Sound(cfg, w, start, ts)
            == (Sound(cfg, w, start, ts[..|ts| - 1])
                && InTime(cfg, start, ts, |ts| - 1)
                && FineAt(cfg, w, ts, |ts| - 1)
                && AllSaved(cfg, w, Requested(cfg, w, ts))
                && OneKeepSet(cfg, ts))
  {
    InTimeSnoc(cfg, start, ts);
    FineSnoc(cfg, w, ts);
    var before := Requested(cfg, w, ts[..|ts| - 1]);
    AllSavedPrefix(cfg, w, before, FilesOf(cfg, w, Laid(cfg, before), ts[|ts| - 1].frame));
  }

  function ParkedAfter(cfg: Config, ms: seq<Manifest>): Option<Manifest> {
    if !cfg.dryRun && Deletes(cfg) && ms != [] then Some(ms[0]) else None
  }

  /** A loop state that matches the account so far. */
  ghost predicate Matches(cfg: Config, w: World, s: St, files: seq<File>, ms: seq<Manifest>) {
    && s.turn.GoOn?
    && s.book.disk == Laid(cfg, files) && AllSaved(cfg, w, files)
    && s.reader.parked == ParkedAfter(cfg, ms)
  }

  /** What the next frame must satisfy for the loop to go on. */
  ghost predicate Passes(cfg: Config, w: World, start: int, s: St, t: Timed, before: seq<File>, ms: seq<Manifest>) {
    && !TimedOut(cfg, start, Refresh(s.reader.last, t), t.now)
    && Fine(cfg, w, Laid(cfg, before), t.frame)
    && AllSaved(cfg, w, before + FilesOf(cfg, w, Laid(cfg, before), t.frame))
    && (t.frame.ManifestFrame? && !cfg.dryRun && Deletes(cfg) ==> ms == [])
  }

  function ManifestsAfter(ms: seq<Manifest>, t: Timed): seq<Manifest> {
    if t.frame.ManifestFrame? then ms + [t.frame.manifest] else ms
  }

  lemma DiskFrameMeetsAccount(cfg: Config, w: World, start: int, s: St, t: Timed, before: seq<File>, ms: seq<Manifest>)
    requires !cfg.deleteBefore && TouchesDisk(cfg, t.frame) && Matches(cfg, w, s, before, ms)
    ensures var s1 := StStep(cfg, w, start, s, t);
            var files := before + FilesOf(cfg, w, Laid(cfg, before), t.frame);
            && (s1.turn.GoOn? <==> Passes(cfg, w, start, s, t, before, ms))
            && (s1.turn.GoOn? ==> s1.reader.last == Refresh(s.reader.last, t)
                                  && Matches(cfg, w, s1, files, ManifestsAfter(ms, t)))
  {
    assert before + [] == before;
    SavedFiles(cfg, w, Direct, s.book, before, FilesOf(cfg, w, Laid(cfg, before), t.frame));
  }

  lemma StreamFrameMeetsAccount(cfg: Config, w: World, start: int, s: St, t: Timed, before: seq<File>, ms: seq<Manifest>)
    requires !cfg.deleteBefore && !TouchesDisk(cfg, t.frame) && Matches(cfg, w, s, before, ms)
    ensures var s1 := StStep(cfg, w, start, s, t);
            var files := before + FilesOf(cfg, w, Laid(cfg, before), t.frame);
            && (s1.turn.GoOn? <==> Passes(cfg, w, start, s, t, before, ms))
            && (s1.turn.GoOn? ==> s1.reader.last == Refresh(s.reader.last, t)
                                  && Matches(cfg, w, s1, files, ManifestsAfter(ms, t)))
  {
    assert before + [] == before;
    SavedFiles(cfg, w, Direct, s.book, before, FilesOf(cfg, w, Laid(cfg, before), t.frame));
  }

  /** The loop goes on exactly through the sound streams, and its disk then holds
      exactly what they asked for. */
  lemma {:induction false} LoopMeetsAccount(cfg: Config, w: World, start: int, ts: seq<Timed>)
    requires !cfg.deleteBefore
    ensures var s := StRun(cfg, w, start, ts);
            && (s.turn.GoOn? <==> Sound(cfg, w, start, ts))
            && (s.turn.GoOn? ==>
                && s.book.disk == Laid(cfg, Requested(cfg, w, ts))
                && s.reader.last == LastProgress(start, ts)
                && s.reader.parked == ParkedAfter(cfg, Manifests(ts)))
  {
    if ts == [] {
    } else {
      var n := |ts| - 1;
      LoopMeetsAccount(cfg, w, start, ts[..n]);
      SoundSnoc(cfg, w, start, ts);
      var s := StRun(cfg, w, start, ts[..n]);
      if s.turn.GoOn? {
        LastProgressSnoc(start, ts);
        assert ts[..n + 1] == ts;
        var before, ms := Requested(cfg, w, ts[..n]), Manifests(ts[..n]);
        if TouchesDisk(cfg, ts[n].frame) {
          DiskFrameMeetsAccount(cfg, w, start, s, ts[n], before, ms);
        } else {
          StreamFrameMeetsAccount(cfg, w, start, s, ts[n], before, ms);
        }
      }
    }
  }

  // ---- The main results ----

  lemma {:induction false} StoppedLoop(cfg: Config, w: World, start: int, ts: seq<Timed>, k: nat)
    requires k <= |ts| && !StRun(cfg, w, start, ts[..k]).turn.GoOn?
    ensures StRun(cfg, w, start, ts) == StRun(cfg, w, start, ts[..k])
  {
    if k == |ts| {
      assert ts[..k] == ts;
    } else {
      var most := ts[..|ts| - 1];
      assert most[..k] == ts[..k];
      StoppedLoop(cfg, w, start, most, k);
    }
  }

  lemma FinishedFrame(cfg: Config, w: World, start: int, s: St, t: Timed)
    requires t.frame.Finished? && !TimedOut(cfg, start, Refresh(s.reader.last, t), t.now)
    ensures var s1 := StStep(cfg, w, start, s, t);
            s1.turn.Complete? && s1.book == s.book && s1.reader.parked == s.reader.parked
  {
  }

  lemma OneMoreFrame(cfg: Config, w: World, start: int, ts: seq<Timed>, k: nat)
    requires k < |ts| && StRun(cfg, w, start, ts[..k]).turn.GoOn?
    ensures StRun(cfg, w, start, ts[..k + 1]) == StStep(cfg, w, start, StRun(cfg, w, start, ts[..k]), ts[k])
    ensures LastProgress(start, ts[..k + 1]) == Refresh(LastProgress(start, ts[..k]), ts[k])
  {
    assert ts[..k + 1][..k] == ts[..k] && ts[..k + 1][k] == ts[k];
  }

  /** Reaching FINISHED leaves the state of the sound stream before it. */
  lemma FinishState(cfg: Config, w: World, start: int, ts: seq<Timed>, k: nat)
    requires !cfg.deleteBefore && FinishesAt(cfg, w, start, ts, k)
    ensures var s := StRun(cfg, w, start, ts);
            && s.turn.Complete?
            && s.book.disk == Laid(cfg, Requested(cfg, w, ts[..k]))
            && s.reader.parked == ParkedAfter(cfg, Manifests(ts[..k]))
  {
    LoopMeetsAccount(cfg, w, start, ts[..k]);
    OneMoreFrame(cfg, w, start, ts, k);
    FinishedFrame(cfg, w, start, StRun(cfg, w, start, ts[..k]), ts[k]);
    StoppedLoop(cfg, w, start, ts, k + 1);
  }

  lemma CompletingFrame(cfg: Config, w: World, start: int, s: St, t: Timed)
    requires s.turn.GoOn?
    ensures StStep(cfg, w, start, s, t).turn.Complete?
            <==> t.frame.Finished? && !TimedOut(cfg, start, Refresh(s.reader.last, t), t.now)
  {
  }

  /** The loop reaches the commit point only through a sound stream and FINISHED. */
  lemma {:induction false} OnlyFinishCompletes(cfg: Config, w: World, start: int, ts: seq<Timed>)
    requires !cfg.deleteBefore && StRun(cfg, w, start, ts).turn.Complete?
    ensures exists k: nat :: FinishesAt(cfg, w, start, ts, k)
  {
    var n := |ts| - 1;
    var most := ts[..n];
    if StRun(cfg, w, start, most).turn.GoOn? {
      LoopMeetsAccount(cfg, w, start, most);
      LastProgressSnoc(start, ts);
      CompletingFrame(cfg, w, start, StRun(cfg, w, start, most), ts[n]);
      assert ts[..n + 1] == ts;
      assert FinishesAt(cfg, w, start, ts, n);
    } else {
      OnlyFinishCompletes(cfg, w, start, most);
      var k: nat :| FinishesAt(cfg, w, start, most, k);
      assert ts[..k] == most[..k] && ts[..k + 1] == most[..k + 1];
      assert FinishesAt(cfg, w, start, ts, k);
    }
  }

  /** Until the commit point the late receiver does nothing but store. */
  lemma {:induction false} OnlyStores(cfg: Config, w: World, start: int, ts: seq<Timed>)
    requires !cfg.deleteBefore
    ensures forall e :: e in StRun(cfg, w, start, ts).book.disk ==> e.Store?
  {
    if ts != [] {
      OnlyStores(cfg, w, start, ts[..|ts| - 1]);
      var s, t := StRun(cfg, w, start, ts[..|ts| - 1]), ts[|ts| - 1];
      StepSaves(cfg, w, start, s, t);
      SaveOnlyStores(cfg, w, s.book, FilesOf(cfg, w, s.book.disk, t.frame));
    }
  }

  /** Without an early deletion a step touches the disk only by saving what it is asked
      to, or nothing. */
  ghost predicate Saves(cfg: Config, w: World, b: Book, f: Frame, after: Disk) {
    after == SaveAll(cfg, w, Direct, b, FilesOf(cfg, w, b.disk, f)).0.disk || after == b.disk
  }

  lemma StepSaves(cfg: Config, w: World, start: int, s: St, t: Timed)
    requires !(cfg.deleteBefore && !cfg.dryRun)
    ensures Saves(cfg, w, s.book, t.frame, StStep(cfg, w, start, s, t).book.disk)
  {
  }

  lemma {:induction false} SaveOnlyStores(cfg: Config, w: World, b: Book, files: seq<File>)
    requires forall e :: e in b.disk ==> e.Store?
    ensures forall e :: e in SaveAll(cfg, w, Direct, b, files).0.disk ==> e.Store?
  {
    if files != [] {
      SaveOnlyStores(cfg, w, b, files[..|files| - 1]);
    }
  }

  predicate Tail(d: Disk) {
    d == [] || (|d| == 1 && (d[0].Publish? || d[0].StampDirs?)) || (|d| == 2 && d[0].Publish? && d[1].StampDirs?)
  }

  lemma SuccessDisk(cfg: Config, w: World, s: St)
    ensures var d := SuccessFrame(cfg, w, s).disk; s.book.disk <= d && Tail(d[|s.book.disk|..])
  {
  }

  /** What the commit point does to the disk when a keep-set is parked. */
  lemma FinishDisk(cfg: Config, w: World, s: St, silent: bool, m: Manifest)
    requires s.turn.Complete? && s.reader.parked == Some(m)
    ensures var d := StFinish(cfg, w, s, silent).disk;
            s.book.disk + [Delete(m)] <= d && Tail(d[|s.book.disk| + 1..])
  {
    SuccessDisk(cfg, w, CommitManifest(cfg, w, s.(reader := s.reader.(parked := None)), m).0);
  }

  lemma TailDeletesNothing(before: Disk, d: Disk, m: Manifest)
    requires before <= d && Tail(d[|before|..])
    ensures Delete(m) in d <==> Delete(m) in before
  {
    assert d == before + d[|before|..];
  }

  /** With the loop at the commit point, only the parked keep-set is deleted. */
  lemma CommitsOnlyParked(cfg: Config, w: World, s: St, silent: bool, m: Manifest)
    requires !cfg.dryRun && Delete(m) !in s.book.disk
    ensures Delete(m) in StFinish(cfg, w, s, silent).disk <==> s.turn.Complete? && s.reader.parked == Some(m)
  {
    var d := StFinish(cfg, w, s, silent).disk;
    if s.turn.Complete? {
      if s.reader.parked.Some? {
        var p := s.reader.parked.value;
        FinishDisk(cfg, w, s, silent, p);
        TailDeletesNothing(s.book.disk + [Delete(p)], d, m);
      } else {
        SuccessDisk(cfg, w, s);
        TailDeletesNothing(s.book.disk, d, m);
      }
    }
  }

  /** A late keep-set is committed exactly when the stream was sound up to a timely
      FINISHED and carried that keep-set and no other. */
  lemma LateDeleteExactly(cfg: Config, w: World, start: int, ts: seq<Timed>, m: Manifest)
    requires !cfg.deleteBefore && !cfg.dryRun
    ensures Delete(m) in Sequential(cfg, w, start, ts).disk
            <==> Deletes(cfg) && exists k: nat :: FinishesAt(cfg, w, start, ts, k) && Manifests(ts[..k]) == [m]
  {
    var s := StRun(cfg, w, start, ts);
    OnlyStores(cfg, w, start, ts);
    CommitsOnlyParked(cfg, w, s, ts == [], m);
    if s.turn.Complete? {
      OnlyFinishCompletes(cfg, w, start, ts);
      var k: nat :| FinishesAt(cfg, w, start, ts, k);
      FinishState(cfg, w, start, ts, k);
    }
    if k: nat :| FinishesAt(cfg, w, start, ts, k) && Manifests(ts[..k]) == [m] {
      FinishState(cfg, w, start, ts, k);
    }
  }

  /** The deletion comes after every store, each of which succeeded, and before
      publication and directory times. */
  lemma DeleteAfterEveryStore(cfg: Config, w: World, start: int, ts: seq<Timed>, k: nat, m: Manifest)
    requires !cfg.deleteBefore && !cfg.dryRun && Deletes(cfg)
    requires FinishesAt(cfg, w, start, ts, k) && Manifests(ts[..k]) == [m]
    ensures var stores := Laid(cfg, Requested(cfg, w, ts[..k]));
            var disk := Sequential(cfg, w, start, ts).disk;
            && stores + [Delete(m)] <= disk
            && Tail(disk[|stores| + 1..])
            && AllSaved(cfg, w, Requested(cfg, w, ts[..k]))
  {
    FinishState(cfg, w, start, ts, k);
    FinishDisk(cfg, w, StRun(cfg, w, start, ts), ts == [], m);
  }

  /** A stream that never reaches a sound FINISHED deletes, publishes and stamps
      nothing, whatever broke it and whenever. */
  lemma BrokenStreamOnlyStores(cfg: Config, w: World, start: int, ts: seq<Timed>)
    requires !cfg.deleteBefore
    requires !exists k: nat :: FinishesAt(cfg, w, start, ts, k)
    ensures var o := Sequential(cfg, w, start, ts);
            !o.ok && o.committed == multiset{} && forall e :: e in o.disk ==> e.Store?
  {
    OnlyStores(cfg, w, start, ts);
    NothingCommitted(cfg, w, start, ts);
    if StRun(cfg, w, start, ts).turn.Complete? {
      OnlyFinishCompletes(cfg, w, start, ts);
    }
  }

  lemma {:induction false} NothingCommitted(cfg: Config, w: World, start: int, ts: seq<Timed>)
    requires !cfg.deleteBefore
    ensures StRun(cfg, w, start, ts).committed == multiset{}
  {
    if ts != [] {
      NothingCommitted(cfg, w, start, ts[..|ts| - 1]);
    }
  }

  /** The manifests equal to x that were taken are committed, freed or still parked. */
  predicate Balanced(r: Reader, committed: multiset<Manifest>, x: Manifest) {
    r.taken[x] == committed[x] + r.freed[x] + if r.parked == Some(x) then 1 else 0
  }

  lemma ReactBalanced(cfg: Config, reports: bool, start: int, r: Reader, t: Timed,
                      committed: multiset<Manifest>, x: Manifest)
    requires !TouchesDisk(cfg, t.frame) && Balanced(r, committed, x)
    ensures Balanced(React(cfg, reports, start, r, t).reader, committed, x)
  {
  }

  lemma EarlyBalanced(cfg: Config, w: World, s: St, m: Manifest, x: Manifest)
    requires Balanced(s.reader, s.committed, x)
    ensures var s1 := EarlyManifest(cfg, w, s, m); Balanced(s1.reader, s1.committed, x)
  {
  }

  lemma CheckKeepsReader(cfg: Config, w: World, s: St, request: int)
    ensures var s1 := HandleCheck(cfg, w, s, request); s1.reader == s.reader && s1.committed == s.committed
  {
  }

  lemma {:induction false} Ledger(cfg: Config, w: World, start: int, ts: seq<Timed>, x: Manifest)
    ensures var s := StRun(cfg, w, start, ts); Balanced(s.reader, s.committed, x)
  {
    if ts != [] {
      Ledger(cfg, w, start, ts[..|ts| - 1], x);
      var s := StRun(cfg, w, start, ts[..|ts| - 1]);
      var t := ts[|ts| - 1];
      if !TouchesDisk(cfg, t.frame) {
        ReactBalanced(cfg, true, start, s.reader, t, s.committed, x);
      } else {
        var s1 := s.(reader := s.reader.(last := Refresh(s.reader.last, t)));
        match t.frame
        case ManifestFrame(m) => EarlyBalanced(cfg, w, s1, m, x);
        case Check(request) => CheckKeepsReader(cfg, w, s1, request);
        case _ =>
      }
    }
  }

  lemma SuccessKeepsLedger(cfg: Config, w: World, s: St)
    ensures var o := SuccessFrame(cfg, w, s);
            o.taken == s.reader.taken && o.committed == s.committed && o.freed == s.reader.freed
  {
  }

  lemma CommitBalanced(cfg: Config, w: World, s: St, m: Manifest, x: Manifest)
    requires Balanced(s.reader, s.committed, x) && s.reader.parked == Some(m)
    ensures var s1 := CommitManifest(cfg, w, s.(reader := s.reader.(parked := None)), m).0;
            s1.reader.taken[x] == s1.committed[x] + s1.reader.freed[x]
  {
  }

  lemma DropBalanced(r: Reader, committed: multiset<Manifest>, x: Manifest)
    requires Balanced(r, committed, x)
    ensures Drop(r).taken[x] == committed[x] + Drop(r).freed[x]
  {
  }

  lemma FinishBalanced(cfg: Config, w: World, s: St, silent: bool, x: Manifest)
    requires Balanced(s.reader, s.committed, x)
    ensures var o := StFinish(cfg, w, s, silent); o.taken[x] == o.committed[x] + o.freed[x]
  {
    if !s.turn.Complete? {
      DropBalanced(s.reader, s.committed, x);
    } else if s.reader.parked.None? {
      SuccessKeepsLedger(cfg, w, s);
    } else {
      CommitBalanced(cfg, w, s, s.reader.parked.value, x);
      SuccessKeepsLedger(cfg, w, CommitManifest(cfg, w, s.(reader := s.reader.(parked := None)), s.reader.parked.value).0);
    }
  }

  /** Whatever the timing and whatever breaks the stream, each manifest read off
      the wire is committed or freed, once. */
  lemma EveryManifestRetiredOnce(cfg: Config, w: World, start: int, ts: seq<Timed>, x: Manifest)
    ensures var o := Sequential(cfg, w, start, ts); o.taken[x] == o.committed[x] + o.freed[x]
  {
    Ledger(cfg, w, start, ts, x);
    FinishBalanced(cfg, w, StRun(cfg, w, start, ts), ts == [], x);
  }

  /** A dry run changes nothing, early or late, whatever frames arrive. */
  lemma DryRunTouchesNothing(cfg: Config, w: World, start: int, ts: seq<Timed>)
    requires cfg.dryRun
    ensures var o := Sequential(cfg, w, start, ts); o.disk == [] && o.committed == multiset{}
  {
    DryRunLoop(cfg, w, start, ts);
  }

  lemma {:induction false} DryRunLoop(cfg: Config, w: World, start: int, ts: seq<Timed>)
    requires cfg.dryRun
    ensures var s := StRun(cfg, w, start, ts);
            s.book.disk == [] && s.committed == multiset{} && s.reader.parked == None
  {
    if ts != [] {
      DryRunLoop(cfg, w, start, ts[..|ts| - 1]);
      DryStep(cfg, w, start, StRun(cfg, w, start, ts[..|ts| - 1]), ts[|ts| - 1]);
    }
  }

  lemma DryStep(cfg: Config, w: World, start: int, s: St, t: Timed)
    requires cfg.dryRun && s.reader.parked == None
    ensures var s1 := StStep(cfg, w, start, s, t);
            s1.book.disk == s.book.disk && s1.committed == s.committed && s1.reader.parked == None
  {
    StepSaves(cfg, w, start, s, t);
    DrySaves(cfg, w, s.book, FilesOf(cfg, w, s.book.disk, t.frame));
    StepParks(cfg, w, start, s, t);
  }

  lemma StepParks(cfg: Config, w: World, start: int, s: St, t: Timed)
    requires cfg.dryRun && s.reader.parked == None
    ensures var s1 := StStep(cfg, w, start, s, t); s1.committed == s.committed && s1.reader.parked == None
  {
  }

  lemma {:induction false} DrySaves(cfg: Config, w: World, b: Book, files: seq<File>)
    requires cfg.dryRun
    ensures SaveAll(cfg, w, Direct, b, files).0.disk == b.disk
  {
    if files != [] {
      DrySaves(cfg, w, b, files[..|files| - 1]);
    }
  }
}
