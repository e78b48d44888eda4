/** The receive loop and the single-threaded receiver built on it. */
module Receiver {
  import opened Protocol

  /** Everything saving a file can touch. */
  datatype Book = Book(disk: Disk, outcomes: seq<SaveResult>, dirTimes: seq<File>, failed: nat, stats: Stats)

  const NoStats := Stats(0, 0, 0, 0, 0, 0, 0)
  const EmptyBook := Book([], [], [], 0, NoStats)

  /** Which of the two sinks is running: they save alike, but the pipeline counts
      matched bytes on the other thread and keeps no directory times in a dry run. */
  datatype Sink = Direct | Pipelined

  function NoteSaved(st: Stats, f: File, created: bool, createdDirs: nat): Stats {
    if f.basisSourced then st else
    var plain := !f.isDir && !f.isSymlink && !f.isSpecial && !f.sibling;
    var literal := if f.literal == 0 && f.matched == 0 then f.size else f.literal;
    var st1 := if plain then st.(literal := st.literal + literal) else st;
    var st2 := st1.(createdDir := st1.createdDir + createdDirs);
    if !created then st2
    else if f.isDir then st2.(createdDir := st2.createdDir + 1)
    else if f.isSymlink then st2.(createdLink := st2.createdLink + 1)
    else if f.isSpecial then st2.(createdSpecial := st2.createdSpecial + 1)
    else st2.(createdReg := st2.createdReg + 1)
  }

  predicate Writes(cfg: Config) { cfg.saveToDisk && !cfg.dryRun }

  predicate Acked(cfg: Config, f: File) {
    !cfg.dryRun && cfg.removeSource && !f.isDir && !f.isSpecial && !f.skip
  }

  /** The disk's answer to saving `f`; a run that does not write skips it. */
  function Attempt(cfg: Config, w: World, disk: Disk, f: File): Saved {
    if Writes(cfg) then w.save(disk, f) else Saved(Skipped, false, 0)
  }

  function Touch(cfg: Config, disk: Disk, f: File): Disk {
    if Writes(cfg) then disk + [Store(f)] else disk
  }

  /** The bookkeeping after an attempt. */
  function Account(cfg: Config, sink: Sink, b: Book, f: File, s: Saved): Book {
    var st0 := if sink.Direct? && s.result != SaveError
               then b.stats.(matched := b.stats.matched + f.matched) else b.stats;
    var st1 := if s.result == Written then NoteSaved(st0, f, s.created, s.createdDirs) else st0;
    var dirs := if s.result != SaveError && f.isDir && f.hasMetadata && cfg.captureDirs
                   && (sink.Direct? || !cfg.dryRun) then b.dirTimes + [f] else b.dirTimes;
    var outs := if s.result != SaveError && Acked(cfg, f) then b.outcomes + [s.result] else b.outcomes;
    Book(b.disk, outs, dirs, if s.result == SaveFailed then b.failed + 1 else b.failed, st1)
  }

  function SaveFile(cfg: Config, w: World, sink: Sink, b: Book, f: File): (Book, bool) {
    var s := Attempt(cfg, w, b.disk, f);
    (Account(cfg, sink, b.(disk := Touch(cfg, b.disk, f)), f, s), s.result != SaveError)
  }

  /** Save in order, stopping after the first entry that cannot be saved. */
  function SaveAll(cfg: Config, w: World, sink: Sink, b: Book, files: seq<File>): (Book, bool) {
    if files == [] then (b, true)
    else
      var r := SaveAll(cfg, w, sink, b, files[..|files| - 1]);
      if r.1 then SaveFile(cfg, w, sink, r.0, files[|files| - 1]) else r
  }

  lemma {:induction false} SaveAllConcat(cfg: Config, w: World, sink: Sink, b: Book, xs: seq<File>, ys: seq<File>)
    ensures var r := SaveAll(cfg, w, sink, b, xs);
            SaveAll(cfg, w, sink, b, xs + ys) == if r.1 then SaveAll(cfg, w, sink, r.0, ys) else r
  {
    if ys == [] {
      assert xs + ys == xs;
    } else {
      assert (xs + ys)[..|xs + ys| - 1] == xs + ys[..|ys| - 1];
      SaveAllConcat(cfg, w, sink, b, xs, ys[..|ys| - 1]);
    }
  }

  // ---- The receive loop, up to what it asks of its sink ----

  /** The loop's own state: the parked keep-set, the last moment of progress, and
      a tally of what became of each manifest read off the wire. */
  datatype Reader = Reader(parked: Option<Manifest>, last: int,
                           taken: multiset<Manifest>, freed: multiset<Manifest>)

  datatype Turn = GoOn | Notify | Quiet | Complete

  datatype Reaction = Reaction(reader: Reader, wire: seq<Reply>, files: seq<File>,
                               listing: Option<Manifest>, turn: Turn)

  predicate Progress(f: Frame) {
    !f.Keepalive? && !f.Abort? && !f.CheckBatch? && !(f.Data? && f.dirTimes)
  }

  function Refresh(last: int, t: Timed): int { if Progress(t.frame) then t.now else last }

  predicate TimedOut(cfg: Config, start: int, last: int, now: int) {
    now - start >= cfg.wallLimit || now - last >= cfg.idleLimit
  }

  predicate Deletes(cfg: Config) { cfg.useDelete || cfg.deleteMissing }

  /** A frame whose handling reads or changes the disk on the reading side. */
  predicate TouchesDisk(cfg: Config, f: Frame) {
    f.Check? || f.CheckBatch? || (f.ManifestFrame? && cfg.deleteBefore && !cfg.dryRun)
  }

  function Drop(r: Reader): Reader {
    match r.parked
    case None => r
    case Some(m) => r.(parked := None, freed := r.freed + multiset{m})
  }

  function TakeManifest(cfg: Config, r: Reader, m: Manifest): Reaction
    requires !(cfg.deleteBefore && !cfg.dryRun)
  {
    var r1 := r.(taken := r.taken + multiset{m});
    if cfg.dryRun then
      Reaction(r1.(freed := r1.freed + multiset{m}),
               if cfg.deleteBefore then [Code(StatusOk)] else [], [],
               if cfg.useDelete then Some(m) else None, GoOn)
    else if !Deletes(cfg) then
      Reaction(r1.(freed := r1.freed + multiset{m}), [], [], None, GoOn)
    else if r.parked.Some? then
      Reaction(r1.(parked := None, freed := r1.freed + multiset{r.parked.value} + multiset{m}),
               [Code(StatusError)], [], None, Quiet)
    else
      Reaction(r1.(parked := Some(m)), [], [], None, GoOn)
  }

  /** receiver_dispatch_status, for a frame that leaves the disk alone. */
  function Handled(cfg: Config, r: Reader, f: Frame): Reaction
    requires !TouchesDisk(cfg, f)
  {
    match f
    case Data(_, files, complete) => Reaction(r, [], files, None, if complete then GoOn else Notify)
    case Keepalive(echoed) =>
      if echoed then Reaction(r, [Code(StatusKeepalive)], [], None, GoOn) else Reaction(r, [], [], None, Quiet)
    case Abort => Reaction(r, [], [], None, Quiet)
    case ManifestFrame(m) => TakeManifest(cfg, r, m)
    case BadManifest => Reaction(r, [Code(StatusError)], [], None, Quiet)
    case DeletePlan => Reaction(r, [Code(StatusError)], [], None, Quiet)
    case Finished => Reaction(r, [], [], None, Complete)
    case UnknownStatus => Reaction(r, [], [], None, Notify)
  }

  /** What the loop does with one such frame, the time bounds first. */
  function React(cfg: Config, reports: bool, start: int, r: Reader, t: Timed): Reaction
    requires !TouchesDisk(cfg, t.frame)
  {
    var r1 := r.(last := Refresh(r.last, t));
    if TimedOut(cfg, start, r1.last, t.now) then
      Reaction(r1, if reports then [Code(StatusError)] else [], [], None, Quiet)
    else Handled(cfg, r1, t.frame)
  }

  // ---- The single-threaded receiver ----

  datatype St = St(book: Book, reader: Reader, wire: seq<Reply>, wouldDelete: seq<string>,
                   deletedPaths: seq<string>, limit: bool, committed: multiset<Manifest>, turn: Turn)

  function StartReader(start: int): Reader { Reader(None, start, multiset{}, multiset{}) }

  function StInit(start: int): St {
    St(EmptyBook, StartReader(start), [], [], [], false, multiset{}, GoOn)
  }

  /** Commit one manifest against the disk. */
  function CommitManifest(cfg: Config, w: World, s: St, m: Manifest): (St, CommitResult) {
    var c := w.commit(s.book.disk, m);
    var paths := if cfg.reportDeletes then Cap(s.deletedPaths + c.paths) else s.deletedPaths;
    var book := s.book.(disk := s.book.disk + [Delete(m)],
                        stats := s.book.stats.(deleted := s.book.stats.deleted + c.deleted));
    (s.(book := book, deletedPaths := paths, limit := s.limit || c.result == CommitLimit,
        committed := s.committed + multiset{m}),
     c.result)
  }

  /** --delete-before: delete as soon as the manifest arrives, then acknowledge. */
  function EarlyManifest(cfg: Config, w: World, s: St, m: Manifest): St {
    var s1 := s.(reader := s.reader.(taken := s.reader.taken + multiset{m}));
    if Deletes(cfg) then
      var (s2, result) := CommitManifest(cfg, w, s1, m);
      if result == CommitError then s2.(wire := s2.wire + [Code(StatusError)], turn := Quiet)
      else s2.(wire := s2.wire + [Code(StatusOk)])
    else
      s1.(reader := s1.reader.(freed := s1.reader.freed + multiset{m}), wire := s1.wire + [Code(StatusOk)])
  }

  function SaveFrame(cfg: Config, w: World, s: St, files: seq<File>, turn: Turn): St {
    var (b, ok) := SaveAll(cfg, w, Direct, s.book, files);
    s.(book := b, turn := if ok then turn else Notify)
  }

  function HandleCheck(cfg: Config, w: World, s: St, request: int): St {
    match w.check(s.book.disk, request)
    case CheckSkip => s
    case CheckWould => if cfg.dryRun then s else s.(turn := Notify)
    case CheckBad => s.(turn := Notify)
    case CheckFile(f) => if cfg.dryRun then s.(turn := Notify) else SaveFrame(cfg, w, s, [f], GoOn)
  }

  /** One turn of the receive loop with the single-threaded sink. */
  function StStep(cfg: Config, w: World, start: int, s: St, t: Timed): St {
    if TouchesDisk(cfg, t.frame) then
      var s1 := s.(reader := s.reader.(last := Refresh(s.reader.last, t)));
      if TimedOut(cfg, start, s1.reader.last, t.now) then
        s1.(wire := s1.wire + [Code(StatusError)], turn := Quiet)
      else match t.frame
      case Check(request) => HandleCheck(cfg, w, s1, request)
      case CheckBatch(batch) => if w.batch(s1.book.disk, batch) then s1 else s1.(turn := Quiet)
      case ManifestFrame(m) => EarlyManifest(cfg, w, s1, m)
    else
      var a := React(cfg, true, start, s.reader, t);
      var s1 := s.(reader := a.reader, wire := s.wire + a.wire,
                   wouldDelete := if a.listing.Some?
                                  then s.wouldDelete + w.would(s.book.disk, a.listing.value)
                                  else s.wouldDelete);
      SaveFrame(cfg, w, s1, a.files, a.turn)
  }

  /** The loop over a whole stream: a frame is read only while the loop goes on. */
  function StRun(cfg: Config, w: World, start: int, ts: seq<Timed>): St {
    if ts == [] then StInit(start)
    else
      var s := StRun(cfg, w, start, ts[..|ts| - 1]);
      if s.turn.GoOn? then StStep(cfg, w, start, s, ts[|ts| - 1]) else s
  }

  function FinalStatus(limit: bool, failed: nat): Status {
    if limit then StatusDeleteLimit else if failed > 0 then StatusError else StatusOk
  }

  function AckOf(r: SaveResult): Status {
    match r case Written => StatusNext case SaveFailed => StatusError case _ => StatusOk
  }

  function Acks(cfg: Config, outcomes: seq<SaveResult>): seq<Reply> {
    if cfg.removeSource then seq(|outcomes|, i requires 0 <= i < |outcomes| => Code(AckOf(outcomes[i]))) else []
  }

  function StatsReply(cfg: Config, stats: Stats, would: seq<string>, deleted: seq<string>): seq<Reply> {
    if !cfg.reportStats then []
    else [StatsFrame(stats, Cap(if cfg.dryRun then would else if cfg.reportDeletes then deleted else []))]
  }

  datatype Outcome = Outcome(disk: Disk, wire: seq<Reply>, ok: bool,
                             taken: multiset<Manifest>, committed: multiset<Manifest>, freed: multiset<Manifest>)

  function Close(s: St, ok: bool): Outcome {
    Outcome(s.book.disk, s.wire, ok, s.reader.taken, s.committed, s.reader.freed)
  }

  /** receiver_send_success_frame: statistics, publication, directory times, acks. */
  function SuccessFrame(cfg: Config, w: World, s: St): Outcome {
    var status := FinalStatus(s.limit, s.book.failed);
    var s1 := s.(wire := s.wire + StatsReply(cfg, s.book.stats, s.wouldDelete, s.deletedPaths));
    var tail := Acks(cfg, s.book.outcomes) + [Code(status)];
    if cfg.dryRun then Close(s1.(wire := s1.wire + tail), true)
    else
      var disk := if cfg.delayUpdates then s1.book.disk + [Publish] else s1.book.disk;
      if cfg.delayUpdates && !w.publish(s1.book.disk) then
        Close(s1.(book := s1.book.(disk := disk), wire := s1.wire + [Code(StatusError)]), false)
      else
        Close(s1.(book := s1.book.(disk := disk + [StampDirs(s1.book.dirTimes)]), wire := s1.wire + tail), true)
  }

  function StFinish(cfg: Config, w: World, s: St, silent: bool): Outcome {
    match s.turn
    case Complete =>
      (match s.reader.parked
       case None => SuccessFrame(cfg, w, s)
       case Some(m) =>
         var (s1, result) := CommitManifest(cfg, w, s.(reader := s.reader.(parked := None)), m);
         if result == CommitError then Close(s1.(wire := s1.wire + [Code(StatusError)]), false)
         else SuccessFrame(cfg, w, s1))
    case Quiet => Close(s.(reader := Drop(s.reader)), false)
    case _ =>  // an error the peer is told of; running out of input before the first frame is silent
      Close(s.(reader := Drop(s.reader), wire := s.wire + if silent then [] else [Code(StatusError)]), false)
  }

  function Sequential(cfg: Config, w: World, start: int, ts: seq<Timed>): Outcome {
    StFinish(cfg, w, StRun(cfg, w, start, ts), ts == [])
  }
}
