/** Everything a run of the receiver that reaches its end does and says, from the stream and
    the file system's answers and not from the code after the loop. */
module FinishedRun {
  import opened Protocol
  import opened Receiver
  import opened LateDelete
  import opened EarlyDelete
  import AckProtocol

  // ---- What became of the entries ----

  /** An entry and what came of saving it. */
  datatype Fate = Fate(file: File, saved: Saved)

  /** The entries of a stream in order, each saved after those before it; a run that does not
      write skips them all. */
  function Fates(cfg: Config, w: World, files: seq<File>): seq<Fate> {
    if files == [] then []
    else
      var n := |files| - 1;
      Fates(cfg, w, files[..n])
      + [Fate(files[n], if cfg.dryRun || !cfg.saveToDisk then Saved(Skipped, false, 0) else w.save(Laid(cfg, files[..n]), files[n]))]
  }

  function Sum(fates: seq<Fate>, part: Fate -> nat): nat {
    if fates == [] then 0 else Sum(fates[..|fates| - 1], part) + part(fates[|fates| - 1])
  }

  /** Written and not taken over from a basis directory. */
  predicate Fresh(x: Fate) { x.saved.result == Written && !x.file.basisSourced }

  predicate Regular(f: File) { !f.isDir && !f.isSymlink && !f.isSpecial }

  function Matched(x: Fate): nat { x.file.matched }

  /** Bytes that came over the wire: all of a file that says nothing about it. */
  function Literal(x: Fate): nat {
    if !Fresh(x) || !Regular(x.file) || x.file.sibling then 0
    else if x.file.literal + x.file.matched == 0 then x.file.size else x.file.literal
  }

  function One(b: bool): nat { if b then 1 else 0 }

  function NewRegular(x: Fate): nat { One(Fresh(x) && x.saved.created && Regular(x.file)) }
  function NewLink(x: Fate): nat { One(Fresh(x) && x.saved.created && !x.file.isDir && x.file.isSymlink) }
  function NewSpecial(x: Fate): nat { One(Fresh(x) && x.saved.created && !x.file.isDir && !x.file.isSymlink && x.file.isSpecial) }

  /** Directories made for an entry count besides the entry. */
  function NewDirs(x: Fate): nat {
    if Fresh(x) then x.saved.createdDirs + One(x.saved.created && x.file.isDir) else 0
  }

  function Failed(x: Fate): nat { One(x.saved.result == SaveFailed) }

  /** The directories whose metadata is stamped at the end. */
  function Stamped(cfg: Config, fates: seq<Fate>): seq<File> {
    if fates == [] then []
    else
      var x := fates[|fates| - 1];
      Stamped(cfg, fates[..|fates| - 1]) + if cfg.captureDirs && x.file.isDir && x.file.hasMetadata then [x.file] else []
  }

  /** What each entry the sender might remove is answered with. */
  function Answers(cfg: Config, fates: seq<Fate>): seq<Reply> {
    if fates == [] then []
    else
      var x := fates[|fates| - 1];
      Answers(cfg, fates[..|fates| - 1])
      + if cfg.dryRun || !cfg.removeSource || x.file.isDir || x.file.isSpecial || x.file.skip then []
        else [Code(if x.saved.result == Written then StatusNext else if x.saved.result == SaveFailed then StatusError else StatusOk)]
  }

  /** The counters of the run, without the deletions. */
  ghost predicate Counted(stats: Stats, fates: seq<Fate>) {
    && stats.matched == Sum(fates, Matched) && stats.literal == Sum(fates, Literal)
    && stats.createdReg == Sum(fates, NewRegular) && stats.createdDir == Sum(fates, NewDirs)
    && stats.createdLink == Sum(fates, NewLink) && stats.createdSpecial == Sum(fates, NewSpecial)
  }

  /** One entry's share in the counters. */
  lemma ShareCounted(st: Stats, f: File, s: Saved)
    ensures var x, st1 := Fate(f, s), if s.result == Written then NoteSaved(st, f, s.created, s.createdDirs) else st;
            && st1.literal == st.literal + Literal(x) && st1.createdReg == st.createdReg + NewRegular(x)
            && st1.createdDir == st.createdDir + NewDirs(x) && st1.createdLink == st.createdLink + NewLink(x)
            && st1.createdSpecial == st.createdSpecial + NewSpecial(x)
            && st1.matched == st.matched && st1.deleted == st.deleted
  {
  }

  /** What saving one more entry adds to a book. */
  ghost predicate Adds(cfg: Config, b: Book, x: Fate, b1: Book) {
    && b1.stats == Stats(b.stats.matched + Matched(x), b.stats.deleted, b.stats.literal + Literal(x),
                         b.stats.createdReg + NewRegular(x), b.stats.createdDir + NewDirs(x),
                         b.stats.createdLink + NewLink(x), b.stats.createdSpecial + NewSpecial(x))
    && b1.failed == b.failed + Failed(x)
    && b1.dirTimes == b.dirTimes + Stamped(cfg, [x])
    && Acks(cfg, b1.outcomes) == Acks(cfg, b.outcomes) + Answers(cfg, [x])
  }

  lemma SaveAdds(cfg: Config, w: World, b: Book, f: File)
    requires SaveFile(cfg, w, Direct, b, f).1
    ensures Adds(cfg, b, Fate(f, Attempt(cfg, w, b.disk, f)), SaveFile(cfg, w, Direct, b, f).0)
  {
    var saved := Attempt(cfg, w, b.disk, f);
    var x := Fate(f, saved);
    ShareCounted(b.stats.(matched := b.stats.matched + f.matched), f, saved);
    assert [x][..0] == [];
  }

  lemma {:induction false} SavedDisk(cfg: Config, w: World, files: seq<File>)
    requires SaveAll(cfg, w, Direct, EmptyBook, files).1
    ensures SaveAll(cfg, w, Direct, EmptyBook, files).0.disk == Laid(cfg, files)
  {
    SavedFiles(cfg, w, Direct, EmptyBook, [], files);
    assert [] + files == files;
  }

  /** A book with exactly these sums. */
  ghost predicate Tallied(cfg: Config, book: Book, fates: seq<Fate>) {
    && Counted(book.stats, fates) && book.stats.deleted == 0
    && book.failed == Sum(fates, Failed) && book.dirTimes == Stamped(cfg, fates)
    && Acks(cfg, book.outcomes) == Answers(cfg, fates)
  }

  lemma StampedSnoc(cfg: Config, fates: seq<Fate>, x: Fate)
    ensures Stamped(cfg, fates + [x]) == Stamped(cfg, fates) + Stamped(cfg, [x])
    ensures Answers(cfg, fates + [x]) == Answers(cfg, fates) + Answers(cfg, [x])
  {
    assert (fates + [x])[..|fates|] == fates && [x][..0] == [];
  }

  lemma SumSnoc(fates: seq<Fate>, x: Fate, part: Fate -> nat)
    ensures Sum(fates + [x], part) == Sum(fates, part) + part(x)
  {
    assert (fates + [x])[..|fates|] == fates;
  }

  lemma TalliedSnoc(cfg: Config, b: Book, fates: seq<Fate>, x: Fate, b1: Book)
    requires Tallied(cfg, b, fates) && Adds(cfg, b, x, b1)
    ensures Tallied(cfg, b1, fates + [x])
  {
    StampedSnoc(cfg, fates, x);
    SumSnoc(fates, x, Matched);
    SumSnoc(fates, x, Literal);
    SumSnoc(fates, x, NewRegular);
    SumSnoc(fates, x, NewDirs);
    SumSnoc(fates, x, NewLink);
    SumSnoc(fates, x, NewSpecial);
    SumSnoc(fates, x, Failed);
  }

  /** Saving all entries leaves a book with exactly the sums of their fates. */
  lemma {:induction false} BookTallied(cfg: Config, w: World, files: seq<File>)
    requires SaveAll(cfg, w, Direct, EmptyBook, files).1
    ensures Tallied(cfg, SaveAll(cfg, w, Direct, EmptyBook, files).0, Fates(cfg, w, files))
  {
    if files != [] {
      var n := |files| - 1;
      var b := SaveAll(cfg, w, Direct, EmptyBook, files[..n]).0;
      BookTallied(cfg, w, files[..n]);
      SavedDisk(cfg, w, files[..n]);
      SaveAdds(cfg, w, b, files[n]);
      TalliedSnoc(cfg, b, Fates(cfg, w, files[..n]), Fate(files[n], Attempt(cfg, w, b.disk, files[n])),
                  SaveAll(cfg, w, Direct, EmptyBook, files).0);
    }
  }

  /** Every entry created is counted once, under one kind. */
  lemma {:induction false} CreatedOnce(fates: seq<Fate>)
    ensures Sum(fates, NewRegular) + Sum(fates, NewDirs) + Sum(fates, NewLink) + Sum(fates, NewSpecial) == Sum(fates, Created)
  {
    if fates != [] { CreatedOnce(fates[..|fates| - 1]); }
  }

  function Created(x: Fate): nat { if Fresh(x) then One(x.saved.created) + x.saved.createdDirs else 0 }

  // ---- What the stream says besides ----

  /** One echo for each keepalive. */
  function Echoes(ts: seq<Timed>): seq<Reply> {
    if ts == [] then []
    else Echoes(ts[..|ts| - 1]) + if ts[|ts| - 1].frame.Keepalive? then [Code(StatusKeepalive)] else []
  }

  /** What a dry run would delete. */
  function Listed(cfg: Config, w: World, ms: seq<Manifest>): seq<string> {
    if ms == [] || !cfg.dryRun || !cfg.useDelete then []
    else Listed(cfg, w, ms[..|ms| - 1]) + w.would([], ms[|ms| - 1])
  }

  lemma {:induction false} LoopSays(cfg: Config, w: World, start: int, ts: seq<Timed>)
    requires !cfg.deleteBefore && StRun(cfg, w, start, ts).turn.GoOn?
    ensures var s := StRun(cfg, w, start, ts);
            s.wire == Echoes(ts) && s.wouldDelete == Listed(cfg, w, Manifests(ts)) && s.deletedPaths == [] && !s.limit
  {
    if ts != [] {
      var most, t := ts[..|ts| - 1], ts[|ts| - 1];
      LoopSays(cfg, w, start, most);
      LoopMeetsAccount(cfg, w, start, most);
      FrameSays(cfg, w, start, StRun(cfg, w, start, most), t);
      if t.frame.ManifestFrame? {
        var ms := Manifests(ts);
        assert ms[..|ms| - 1] == Manifests(most) && ms[|ms| - 1] == t.frame.manifest;
      }
    }
  }

  lemma FrameSays(cfg: Config, w: World, start: int, s: St, t: Timed)
    requires !cfg.deleteBefore && s.turn.GoOn? && StStep(cfg, w, start, s, t).turn.GoOn?
    ensures var s1 := StStep(cfg, w, start, s, t);
            && s1.wire == s.wire + (if t.frame.Keepalive? then [Code(StatusKeepalive)] else [])
            && s1.wouldDelete == s.wouldDelete + (if t.frame.ManifestFrame? && cfg.dryRun && cfg.useDelete
                                                  then w.would(s.book.disk, t.frame.manifest) else [])
            && s1.deletedPaths == s.deletedPaths && s1.limit == s.limit
  {
  }

  // ---- The end of a late run ----

  /** The deletion a late stream asks for: a run that deletes has one manifest at most. */
  function Deletion(cfg: Config, ts: seq<Timed>): Disk {
    if cfg.dryRun || !(cfg.useDelete || cfg.deleteMissing) || Manifests(ts) == [] then [] else [Delete(Manifests(ts)[0])]
  }

  /** What the file system makes of it. */
  function Verdict(cfg: Config, w: World, ts: seq<Timed>): Commit {
    if Deletion(cfg, ts) == [] then Commit(CommitOk, 0, [])
    else w.commit(Laid(cfg, Requested(cfg, w, ts)), Deletion(cfg, ts)[0].manifest)
  }

  predicate CommitFails(cfg: Config, w: World, ts: seq<Timed>) { Verdict(cfg, w, ts).result == CommitError }

  /** Publication is asked for and does not succeed. */
  predicate PublishFails(cfg: Config, w: World, ts: seq<Timed>) {
    !cfg.dryRun && cfg.delayUpdates && !w.publish(Laid(cfg, Requested(cfg, w, ts)) + Deletion(cfg, ts))
  }

  /** At its end the loop is in the state of the account, with the keep-set still parked. */
  lemma AtTheEnd(cfg: Config, w: World, start: int, ts: seq<Timed>, k: nat)
    requires !cfg.deleteBefore && FinishesAt(cfg, w, start, ts, k)
    ensures var s, fates := StRun(cfg, w, start, ts), Fates(cfg, w, Requested(cfg, w, ts[..k]));
            && s.turn.Complete? && s.book.disk == Laid(cfg, Requested(cfg, w, ts[..k])) && Tallied(cfg, s.book, fates)
            && s.reader.parked == (if Deletion(cfg, ts[..k]) == [] then None else Some(Deletion(cfg, ts[..k])[0].manifest))
            && s.wire == Echoes(ts[..k]) && s.wouldDelete == Listed(cfg, w, Manifests(ts[..k]))
            && s.deletedPaths == [] && !s.limit
  {
    FinishState(cfg, w, start, ts, k);
    AckProtocol.CompleteBook(cfg, w, start, ts, k);
    BookTallied(cfg, w, Requested(cfg, w, ts[..k]));
    LoopMeetsAccount(cfg, w, start, ts[..k]);
    LoopSays(cfg, w, start, ts[..k]);
    OneMoreFrame(cfg, w, start, ts, k);
    StoppedLoop(cfg, w, start, ts, k + 1);
    FinishSays(cfg, w, start, StRun(cfg, w, start, ts[..k]), ts[k]);
  }

  lemma FinishSays(cfg: Config, w: World, start: int, s: St, t: Timed)
    requires t.frame.Finished? && StStep(cfg, w, start, s, t).turn.Complete?
    ensures var s1 := StStep(cfg, w, start, s, t);
            s1.wire == s.wire && s1.wouldDelete == s.wouldDelete && s1.deletedPaths == s.deletedPaths && s1.limit == s.limit
  {
  }

  /** The code after the loop, for a state with nothing parked. */
  lemma SuccessIs(cfg: Config, w: World, s: St)
    ensures var o, failed := SuccessFrame(cfg, w, s), !cfg.dryRun && cfg.delayUpdates && !w.publish(s.book.disk);
            && o.disk == s.book.disk + Published(cfg, failed, s.book.dirTimes) && (o.ok <==> !failed)
            && o.wire == s.wire + (StatsReply(cfg, s.book.stats, s.wouldDelete, s.deletedPaths)
                                   + LastFrames(failed, Acks(cfg, s.book.outcomes), FinalStatus(s.limit, s.book.failed)))
  {
  }

  /** Publication exactly under --delay-updates, and directory times unless it failed. */
  function Published(cfg: Config, failed: bool, dirs: seq<File>): Disk {
    if cfg.dryRun then [] else (if cfg.delayUpdates then [Publish] else []) + (if failed then [] else [StampDirs(dirs)])
  }

  function LastFrames(failed: bool, answers: seq<Reply>, last: Status): seq<Reply> {
    if failed then [Code(StatusError)] else answers + [Code(last)]
  }

  /** The state in which the code after the loop ends a run whose keep-set is committed. */
  function Done(cfg: Config, w: World, s: St): St {
    if s.reader.parked.None? then s
    else CommitManifest(cfg, w, s.(reader := s.reader.(parked := None)), s.reader.parked.value).0
  }

  lemma FinishIs(cfg: Config, w: World, s: St, silent: bool, c: Commit)
    requires s.turn.Complete?
    requires c == if s.reader.parked.None? then Commit(CommitOk, 0, []) else w.commit(s.book.disk, s.reader.parked.value)
    ensures var o, d := StFinish(cfg, w, s, silent), Done(cfg, w, s);
            && d.book.disk == s.book.disk + (if s.reader.parked.None? then [] else [Delete(s.reader.parked.value)])
            && (if c.result == CommitError then o.disk == d.book.disk && !o.ok && o.wire == s.wire + [Code(StatusError)]
                else o == SuccessFrame(cfg, w, d))
  {
  }

  /** What the commit leaves of the rest of the state. */
  lemma DoneIs(cfg: Config, w: World, s: St, c: Commit)
    requires c == if s.reader.parked.None? then Commit(CommitOk, 0, []) else w.commit(s.book.disk, s.reader.parked.value)
    requires s.deletedPaths == [] && !s.limit && s.book.stats.deleted == 0
    ensures var d := Done(cfg, w, s);
            && d.book.dirTimes == s.book.dirTimes && d.book.outcomes == s.book.outcomes && d.book.failed == s.book.failed
            && d.book.stats == s.book.stats.(deleted := c.deleted) && d.wire == s.wire && d.wouldDelete == s.wouldDelete
            && d.limit == (c.result == CommitLimit)
            && d.deletedPaths == (if cfg.reportDeletes then Cap(c.paths) else [])
  {
    assert [] + c.paths == c.paths;
  }

  /** The disk after a run that reached its end: everything stored, then the deletion, then
      exactly under --delay-updates publication, then unless that failed the directory times
      of the directories stored with metadata; a failed deletion ends it all. */
  lemma FinishedDisk(cfg: Config, w: World, start: int, ts: seq<Timed>, k: nat)
    requires !cfg.deleteBefore && FinishesAt(cfg, w, start, ts, k)
    ensures var o, files := Sequential(cfg, w, start, ts), Requested(cfg, w, ts[..k]);
            && o.disk == Laid(cfg, files) + Deletion(cfg, ts[..k])
                         + (if CommitFails(cfg, w, ts[..k]) then []
                            else Published(cfg, PublishFails(cfg, w, ts[..k]), Stamped(cfg, Fates(cfg, w, files))))
            && (o.ok <==> !CommitFails(cfg, w, ts[..k]) && !PublishFails(cfg, w, ts[..k]))
  {
    var s, c := StRun(cfg, w, start, ts), Verdict(cfg, w, ts[..k]);
    AtTheEnd(cfg, w, start, ts, k);
    FinishIs(cfg, w, s, ts == [], c);
    DoneIs(cfg, w, s, c);
    SuccessIs(cfg, w, Done(cfg, w, s));
  }

  /** The statistics a run reports, if it does: the sums of its entries and its deletions,
      with the names a dry run would delete or those deleted, where that is asked for. */
  ghost predicate Reports(cfg: Config, w: World, ts: seq<Timed>, report: seq<Reply>) {
    if !cfg.reportStats then report == []
    else
      && |report| == 1 && report[0].StatsFrame?
      && Counted(report[0].record, Fates(cfg, w, Requested(cfg, w, ts)))
      && report[0].record.deleted == Verdict(cfg, w, ts).deleted
      && report[0].paths == Cap(if cfg.dryRun then Listed(cfg, w, Manifests(ts))
                                else if cfg.reportDeletes then Cap(Verdict(cfg, w, ts).paths) else [])
  }

  /** The last word: a capped deletion, else an entry that failed, else success. */
  function LastWord(cfg: Config, w: World, ts: seq<Timed>): Status {
    if Verdict(cfg, w, ts).result == CommitLimit then StatusDeleteLimit
    else if Sum(Fates(cfg, w, Requested(cfg, w, ts)), Failed) > 0 then StatusError else StatusOk
  }

  /** What is said after the echoes. */
  ghost predicate Says(cfg: Config, w: World, ts: seq<Timed>, report: seq<Reply>, said: seq<Reply>) {
    if CommitFails(cfg, w, ts) then said == [Code(StatusError)]
    else
      && Reports(cfg, w, ts, report)
      && said == report + LastFrames(PublishFails(cfg, w, ts), Answers(cfg, Fates(cfg, w, Requested(cfg, w, ts))), LastWord(cfg, w, ts))
  }

  /** All that a run that reached its end tells the sender. */
  lemma FinishedWire(cfg: Config, w: World, start: int, ts: seq<Timed>, k: nat) returns (report: seq<Reply>, said: seq<Reply>)
    requires !cfg.deleteBefore && FinishesAt(cfg, w, start, ts, k)
    ensures Sequential(cfg, w, start, ts).wire == Echoes(ts[..k]) + said
    ensures Says(cfg, w, ts[..k], report, said)
  {
    var s, c := StRun(cfg, w, start, ts), Verdict(cfg, w, ts[..k]);
    AtTheEnd(cfg, w, start, ts, k);
    FinishIs(cfg, w, s, ts == [], c);
    DoneIs(cfg, w, s, c);
    var done := Done(cfg, w, s);
    SuccessIs(cfg, w, done);
    report := StatsReply(cfg, done.book.stats, done.wouldDelete, done.deletedPaths);
    said := if CommitFails(cfg, w, ts[..k]) then [Code(StatusError)]
            else report + LastFrames(PublishFails(cfg, w, ts[..k]), Answers(cfg, Fates(cfg, w, Requested(cfg, w, ts[..k]))),
                                     LastWord(cfg, w, ts[..k]));
  }

  // ---- A late run that does not reach its end ----

  /** The stream is sound up to its k-th frame, which is neither sound nor a timely end, or up
      to where it breaks off. */
  ghost predicate BreaksAt(cfg: Config, w: World, start: int, ts: seq<Timed>, k: nat) {
    && k <= |ts| && Sound(cfg, w, start, ts[..k])
    && (k < |ts| ==> !Sound(cfg, w, start, ts[..k + 1]) && !(ts[k].frame.Finished? && InTime(cfg, start, ts, k)))
  }

  /** The sender is not told: it aborted, cannot be reached, or never said anything, or a
      batch of checks failed, which is left to the code that reads the batch. */
  ghost predicate Unheard(cfg: Config, w: World, start: int, ts: seq<Timed>, k: nat)
    requires k <= |ts|
  {
    if k == |ts| then ts == []
    else
      && InTime(cfg, start, ts, k)
      && (ts[k].frame.Abort? || ts[k].frame == Keepalive(false) || ts[k].frame.CheckBatch?)
  }

  lemma BreakSays(cfg: Config, w: World, start: int, s: St, t: Timed)
    requires !cfg.deleteBefore && s.turn.GoOn?
    ensures var s1 := StStep(cfg, w, start, s, t);
            var silent := !TimedOut(cfg, start, Refresh(s.reader.last, t), t.now)
                          && (t.frame.Abort? || t.frame == Keepalive(false) || t.frame.CheckBatch?);
            s1.turn.Quiet? || s1.turn.Notify? ==>
              s1.wire + (if s1.turn.Quiet? then [] else [Code(StatusError)]) == s.wire + if silent then [] else [Code(StatusError)]
  {
  }

  lemma BrokenState(cfg: Config, w: World, start: int, ts: seq<Timed>, k: nat)
    requires !cfg.deleteBefore && BreaksAt(cfg, w, start, ts, k)
    ensures StRun(cfg, w, start, ts[..k]).turn.GoOn?
    ensures k < |ts| ==>
      var s := StRun(cfg, w, start, ts);
      s == StStep(cfg, w, start, StRun(cfg, w, start, ts[..k]), ts[k]) && (s.turn.Quiet? || s.turn.Notify?)
  {
    LoopMeetsAccount(cfg, w, start, ts[..k]);
    if k < |ts| {
      LoopMeetsAccount(cfg, w, start, ts[..k + 1]);
      OneMoreFrame(cfg, w, start, ts, k);
      CompletingFrame(cfg, w, start, StRun(cfg, w, start, ts[..k]), ts[k]);
      StoppedLoop(cfg, w, start, ts, k + 1);
    }
  }

  /** A run that breaks off fails, and tells the sender so with one error, unless it is not
      heard. */
  lemma BrokenWire(cfg: Config, w: World, start: int, ts: seq<Timed>, k: nat)
    requires !cfg.deleteBefore && BreaksAt(cfg, w, start, ts, k)
    ensures var o := Sequential(cfg, w, start, ts);
            !o.ok && o.wire == Echoes(ts[..k]) + if Unheard(cfg, w, start, ts, k) then [] else [Code(StatusError)]
  {
    BrokenState(cfg, w, start, ts, k);
    LoopSays(cfg, w, start, ts[..k]);
    if k < |ts| {
      LoopMeetsAccount(cfg, w, start, ts[..k]);
      OneMoreFrame(cfg, w, start, ts, k);
      BreakSays(cfg, w, start, StRun(cfg, w, start, ts[..k]), ts[k]);
    } else {
      assert ts[..k] == ts;
    }
  }

  // ---- The end of an early run ----

  function StoredIn(disk: Disk): seq<File> {
    if disk == [] then []
    else StoredIn(disk[..|disk| - 1]) + if disk[|disk| - 1].Store? then [disk[|disk| - 1].file] else []
  }

  lemma StoredSnoc(disk: Disk, e: Effect)
    ensures StoredIn(disk + [e]) == StoredIn(disk) + if e.Store? then [e.file] else []
  {
    assert (disk + [e])[..|disk + [e]| - 1] == disk;
  }

  function WithMetadata(cfg: Config, files: seq<File>): seq<File> {
    if files == [] then []
    else
      var f := files[|files| - 1];
      WithMetadata(cfg, files[..|files| - 1]) + if cfg.captureDirs && f.isDir && f.hasMetadata then [f] else []
  }

  lemma {:induction false} SaveKeepsDirs(cfg: Config, w: World, b: Book, files: seq<File>)
    requires Writes(cfg) && b.dirTimes == WithMetadata(cfg, StoredIn(b.disk)) && SaveAll(cfg, w, Direct, b, files).1
    ensures var b1 := SaveAll(cfg, w, Direct, b, files).0; b1.dirTimes == WithMetadata(cfg, StoredIn(b1.disk))
  {
    if files != [] {
      var n := |files| - 1;
      SaveKeepsDirs(cfg, w, b, files[..n]);
      var d := SaveAll(cfg, w, Direct, b, files[..n]).0.disk;
      assert (d + [Store(files[n])])[..|d|] == d;
      var fs := StoredIn(d);
      assert (fs + [files[n]])[..|fs|] == fs;
    }
  }

  lemma EarlyStepBooks(cfg: Config, w: World, start: int, s: St, t: Timed)
    requires Early(cfg) && s.turn.GoOn?
    ensures var s1 := StStep(cfg, w, start, s, t);
            s1.turn.GoOn? || s1.turn.Complete? ==>
              || (s1.book, true) == SaveAll(cfg, w, Direct, s.book, FilesOf(cfg, w, s.book.disk, t.frame))
              || (s1.book.dirTimes == s.book.dirTimes && t.frame.ManifestFrame? && s1.book.disk == s.book.disk + [Delete(t.frame.manifest)])
  {
  }

  ghost predicate DirsNoted(cfg: Config, b: Book) { b.dirTimes == WithMetadata(cfg, StoredIn(b.disk)) }

  lemma EarlyStepNotes(cfg: Config, w: World, b: Book, f: Frame, b1: Book)
    requires Writes(cfg) && DirsNoted(cfg, b)
    requires || (b1, true) == SaveAll(cfg, w, Direct, b, FilesOf(cfg, w, b.disk, f))
             || (b1.dirTimes == b.dirTimes && f.ManifestFrame? && b1.disk == b.disk + [Delete(f.manifest)])
    ensures DirsNoted(cfg, b1)
  {
    if (b1, true) == SaveAll(cfg, w, Direct, b, FilesOf(cfg, w, b.disk, f)) {
      SaveKeepsDirs(cfg, w, b, FilesOf(cfg, w, b.disk, f));
    } else {
      StoredSnoc(b.disk, Delete(f.manifest));
      assert StoredIn(b1.disk) == StoredIn(b.disk);
    }
  }

  lemma {:induction false} EarlyDirs(cfg: Config, w: World, start: int, ts: seq<Timed>)
    requires Early(cfg) && cfg.saveToDisk
    ensures var s := StRun(cfg, w, start, ts); s.turn.GoOn? || s.turn.Complete? ==> DirsNoted(cfg, s.book)
  {
    if ts != [] {
      var most, t := ts[..|ts| - 1], ts[|ts| - 1];
      EarlyDirs(cfg, w, start, most);
      var s := StRun(cfg, w, start, most);
      if s.turn.GoOn? {
        var s1 := StStep(cfg, w, start, s, t);
        EarlyStepBooks(cfg, w, start, s, t);
        if s1.turn.GoOn? || s1.turn.Complete? { EarlyStepNotes(cfg, w, s.book, t.frame, s1.book); }
      }
    }
  }

  /** The disk after an early run that reached its end: what the loop stored and deleted, then
      exactly under --delay-updates publication, then unless that failed the directory times
      of the directories stored with metadata. */
  lemma EarlyFinishedDisk(cfg: Config, w: World, start: int, ts: seq<Timed>)
    requires Early(cfg) && StRun(cfg, w, start, ts).turn.Complete?
    ensures var o, d := Sequential(cfg, w, start, ts), StRun(cfg, w, start, ts).book.disk;
            var failed := cfg.delayUpdates && !w.publish(d);
            && (o.ok <==> !failed)
            && (failed ==> o.disk == d + [Publish])
            && (!failed && cfg.saveToDisk ==>
                  o.disk == d + (if cfg.delayUpdates then [Publish] else []) + [StampDirs(WithMetadata(cfg, StoredIn(d)))])
  {
    EarlyLoop(cfg, w, start, ts);
    if cfg.saveToDisk { EarlyDirs(cfg, w, start, ts); }
  }
}
