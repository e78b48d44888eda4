/** --delete-before at the receiver: what it deletes by, and when. */
module EarlyDelete {
  import opened Protocol
  import opened Receiver
  import opened LateDelete

  predicate Early(cfg: Config) { cfg.deleteBefore && !cfg.dryRun }

  /** Stored entries, and deletions by manifests the stream carries. */
  ghost predicate Accounted(disk: Disk, ts: seq<Timed>) {
    forall e <- disk :: e.Store? || (e.Delete? && e.manifest in Manifests(ts))
  }

  lemma {:induction false} SaveAccounted(cfg: Config, w: World, b: Book, files: seq<File>, ts: seq<Timed>)
    requires Accounted(b.disk, ts)
    ensures Accounted(SaveAll(cfg, w, Direct, b, files).0.disk, ts)
    ensures b.disk <= SaveAll(cfg, w, Direct, b, files).0.disk
  {
    if files != [] {
      SaveAccounted(cfg, w, b, files[..|files| - 1], ts);
    }
  }

  /** One frame of an early run: a manifest is committed on arrival and never parked, and
      every other frame only stores. */
  lemma EarlyStep(cfg: Config, w: World, start: int, s: St, t: Timed)
    requires Early(cfg) && s.reader.parked.None?
    ensures var s1 := StStep(cfg, w, start, s, t);
            && s1.reader.parked.None?
            && (Saves(cfg, w, s.book, t.frame, s1.book.disk)
                || (t.frame.ManifestFrame? && s1.book.disk == s.book.disk + [Delete(t.frame.manifest)]))
  {
  }

  lemma {:induction false} EarlyLoop(cfg: Config, w: World, start: int, ts: seq<Timed>)
    requires Early(cfg)
    ensures var s := StRun(cfg, w, start, ts); s.reader.parked.None? && Accounted(s.book.disk, ts)
  {
    if ts != [] {
      var n := |ts| - 1;
      EarlyLoop(cfg, w, start, ts[..n]);
      var s := StRun(cfg, w, start, ts[..n]);
      EarlyStep(cfg, w, start, s, ts[n]);
      SaveAccounted(cfg, w, s.book, FilesOf(cfg, w, s.book.disk, ts[n].frame), ts[..n]);
    }
  }

  /** An early run deletes only by manifests it received. */
  lemma EarlyDeletesSent(cfg: Config, w: World, start: int, ts: seq<Timed>, m: Manifest)
    requires Early(cfg) && Delete(m) in Sequential(cfg, w, start, ts).disk
    ensures m in Manifests(ts)
  {
    var s := StRun(cfg, w, start, ts);
    EarlyLoop(cfg, w, start, ts);
    if Delete(m) !in s.book.disk { CommitsOnlyParked(cfg, w, s, ts == [], m); }
  }

  // ---- A stream that begins with its manifest ----

  /** Disk and wire only grow, frame by frame. */
  lemma StepGrows(cfg: Config, w: World, start: int, s: St, t: Timed)
    requires Early(cfg) && s.reader.parked.None?
    ensures s.book.disk <= StStep(cfg, w, start, s, t).book.disk && s.wire <= StStep(cfg, w, start, s, t).wire
  {
    EarlyStep(cfg, w, start, s, t);
    SaveGrows(cfg, w, s.book, FilesOf(cfg, w, s.book.disk, t.frame));
  }

  lemma {:induction false} SaveGrows(cfg: Config, w: World, b: Book, files: seq<File>)
    ensures b.disk <= SaveAll(cfg, w, Direct, b, files).0.disk
  {
    if files != [] {
      SaveGrows(cfg, w, b, files[..|files| - 1]);
    }
  }

  lemma {:induction false} RunGrows(cfg: Config, w: World, start: int, ts: seq<Timed>)
    requires Early(cfg) && ts != []
    ensures var first, s := StRun(cfg, w, start, ts[..1]), StRun(cfg, w, start, ts);
            first.book.disk <= s.book.disk && first.wire <= s.wire
  {
    var n := |ts| - 1;
    if n == 0 {
      assert ts[..1] == ts;
    } else {
      assert ts[..n][..1] == ts[..1];
      RunGrows(cfg, w, start, ts[..n]);
      EarlyLoop(cfg, w, start, ts[..n]);
      StepGrows(cfg, w, start, StRun(cfg, w, start, ts[..n]), ts[n]);
    }
  }

  lemma FinishGrows(cfg: Config, w: World, s: St, silent: bool)
    requires s.reader.parked.None?
    ensures s.book.disk <= StFinish(cfg, w, s, silent).disk && s.wire <= StFinish(cfg, w, s, silent).wire
  {
  }

  /** A stream that begins with its manifest, in time: the deletion is the first thing that
      happens to the disk and its result the first thing the sender hears; if it failed,
      nothing else happens at all. */
  lemma EarlyDeletesFirst(cfg: Config, w: World, start: int, ts: seq<Timed>, m: Manifest)
    requires Early(cfg) && Deletes(cfg) && ts != [] && ts[0].frame == ManifestFrame(m)
    requires !TimedOut(cfg, start, ts[0].now, ts[0].now)
    ensures var o, failed := Sequential(cfg, w, start, ts), w.commit([], m).result.CommitError?;
            && [Delete(m)] <= o.disk && [Code(if failed then StatusError else StatusOk)] <= o.wire
            && (failed ==> o.disk == [Delete(m)] && !o.ok)
  {
    var s := StRun(cfg, w, start, ts);
    assert ts[..0] == [];
    OneMoreFrame(cfg, w, start, ts, 0);
    RunGrows(cfg, w, start, ts);
    EarlyLoop(cfg, w, start, ts);
    FinishGrows(cfg, w, s, ts == []);
    if w.commit([], m).result.CommitError? { StoppedLoop(cfg, w, start, ts, 1); }
  }
}
