/** The multithreaded receiver: a receive thread and a write thread joined by a
    queue that is bounded by element count and by payload bytes.

    A state records both threads' positions and the shared context; a move runs
    one thread up to the end of its next critical section.  A thread waiting on a
    condition variable is asleep until another thread signals it. */
module Pipeline {
  import opened Protocol
  import opened Receiver

  /** A transfer: its configuration, the file system, the client's stream, and the
      two bounds of the queue. */
  datatype Env = Env(cfg: Config, w: World, start: int, ts: seq<Timed>, capacity: nat, maxBytes: nat)

  /** A late or dry-run transfer whose frames leave the disk to the write thread. */
  ghost predicate Supported(e: Env) {
    e.capacity > 0 && !e.cfg.deleteBefore && forall i :: 0 <= i < |e.ts| ==> !TouchesDisk(e.cfg, e.ts[i].frame)
  }

  datatype RPc =
    | RRead
    | RCount(todo: seq<File>, turn: Turn)
    | REnqueue(todo: seq<File>, turn: Turn)
    | RAsleep(todo: seq<File>, turn: Turn)
    | RFailing
    | RClosing
    | RExit(ok: bool)

  datatype WPc =
    | WReady
    | WAsleep
    | WHold(file: File)
    | WSaved(file: File, saved: Saved)
    | WRelease(file: File, fatal: bool)
    | WCancel
    | WExit(ok: bool)

  /** `sent` and `taken` remember what has been enqueued and dequeued so far. */
  datatype Mt = Mt(
    next: nat, reader: Reader, rpc: RPc, wpc: WPc,
    queue: seq<File>, queuedBytes: nat, done: bool, cancelled: bool,
    book: Book, wire: seq<Reply>, wouldDelete: seq<string>, handed: Option<Manifest>,
    sent: seq<File>, taken: nat)

  function MtInit(e: Env): Mt {
    Mt(0, StartReader(e.start), RRead, WReady, [], 0, false, false, EmptyBook, [], [], None, [], 0)
  }

  function WakeR(p: RPc): RPc { if p.RAsleep? then REnqueue(p.todo, p.turn) else p }
  function WakeW(p: WPc): WPc { if p.WAsleep? then WReady else p }

  predicate BlockedByCount(e: Env, s: Mt) { |s.queue| >= e.capacity }

  predicate BlockedByBudget(e: Env, s: Mt, f: File) {
    e.maxBytes > 0 &&
    (s.queuedBytes >= e.maxBytes || (f.size > e.maxBytes - s.queuedBytes && s.queuedBytes != 0))
  }

  predicate Blocked(e: Env, s: Mt, f: File) { BlockedByCount(e, s) || BlockedByBudget(e, s, f) }

  function Resume(turn: Turn): RPc {
    match turn case GoOn => RRead case Complete => RClosing case _ => RFailing
  }

  predicate RCan(s: Mt) {
    match s.rpc
    case RAsleep(_, _) => false
    case RExit(_) => false
    case RCount(todo, _) => todo != []
    case REnqueue(todo, _) => todo != []
    case _ => true
  }

  predicate WCan(s: Mt) { !s.wpc.WAsleep? && !s.wpc.WExit? }

  function ReadMove(e: Env, s: Mt): Mt
    requires Supported(e) && s.rpc.RRead?
  {
    if s.next >= |e.ts| then s.(rpc := RFailing)
    else
      var a := React(e.cfg, false, e.start, s.reader, e.ts[s.next]);
      s.(next := s.next + 1, reader := a.reader, wire := s.wire + a.wire,
         wouldDelete := if a.listing.Some? then s.wouldDelete + e.w.would(s.book.disk, a.listing.value)
                        else s.wouldDelete,
         rpc := if a.files == [] then Resume(a.turn) else RCount(a.files, a.turn))
  }

  function EnqueueMove(e: Env, s: Mt): Mt
    requires s.rpc.REnqueue? && s.rpc.todo != []
  {
    var todo := s.rpc.todo;
    if s.cancelled then s.(rpc := RFailing)
    else if Blocked(e, s, todo[0]) then s.(rpc := RAsleep(todo, s.rpc.turn))
    else
      s.(queue := s.queue + [todo[0]], queuedBytes := s.queuedBytes + todo[0].size,
         sent := s.sent + [todo[0]], wpc := WakeW(s.wpc),
         rpc := if |todo| == 1 then Resume(s.rpc.turn) else RCount(todo[1..], s.rpc.turn))
  }

  function RMove(e: Env, s: Mt): Mt
    requires Supported(e) && RCan(s)
  {
    match s.rpc
    case RRead => ReadMove(e, s)
    case RCount(todo, turn) =>
      s.(book := s.book.(stats := s.book.stats.(matched := s.book.stats.matched + todo[0].matched)),
         rpc := REnqueue(todo, turn))
    case REnqueue(_, _) => EnqueueMove(e, s)
    case RFailing =>
      s.(reader := Drop(s.reader), cancelled := true, done := true, wpc := WakeW(s.wpc), rpc := RExit(false))
    case RClosing =>
      s.(handed := s.reader.parked, reader := s.reader.(parked := None),
         done := true, wpc := WakeW(s.wpc), rpc := RExit(true))
  }

  /** The saturating release of a payload. */
  function Released(e: Env, used: nat, size: nat): nat {
    if e.maxBytes == 0 || size == 0 then used else if size >= used then 0 else used - size
  }

  function WMove(e: Env, s: Mt): Mt
    requires WCan(s)
  {
    match s.wpc
    case WReady =>
      if s.queue == [] then s.(wpc := if s.done then WExit(true) else WAsleep)
      else s.(queue := s.queue[1..], taken := s.taken + 1, wpc := WHold(s.queue[0]), rpc := WakeR(s.rpc))
    case WHold(f) =>
      s.(book := s.book.(disk := Touch(e.cfg, s.book.disk, f)), wpc := WSaved(f, Attempt(e.cfg, e.w, s.book.disk, f)))
    case WSaved(f, saved) =>
      s.(book := Account(e.cfg, Sink.Pipelined, s.book, f, saved), wpc := WRelease(f, saved.result == SaveError))
    case WRelease(f, fatal) =>
      s.(queuedBytes := Released(e, s.queuedBytes, f.size),
         rpc := if e.maxBytes > 0 && f.size > 0 then WakeR(s.rpc) else s.rpc,
         wpc := if fatal then WCancel else WReady)
    case WCancel =>
      s.(cancelled := true, done := true, rpc := WakeR(s.rpc), wpc := WExit(false))
  }

  datatype Mover = R | W | SpuriousR | SpuriousW

  predicate Can(s: Mt, mv: Mover) {
    match mv
    case R => RCan(s)
    case W => WCan(s)
    case SpuriousR => s.rpc.RAsleep?
    case SpuriousW => s.wpc.WAsleep?
  }

  function Move(e: Env, s: Mt, mv: Mover): Mt
    requires Supported(e) && Can(s, mv)
  {
    match mv
    case R => RMove(e, s)
    case W => WMove(e, s)
    case SpuriousR => s.(rpc := WakeR(s.rpc))
    case SpuriousW => s.(wpc := WakeW(s.wpc))
  }

  /** The state after a schedule, if each of its moves was possible in turn. */
  function After(e: Env, schedule: seq<Mover>): Option<Mt>
    requires Supported(e)
  {
    if schedule == [] then Some(MtInit(e))
    else
      var s := After(e, schedule[..|schedule| - 1]);
      var mv := schedule[|schedule| - 1];
      if s.Some? && Can(s.value, mv) then Some(Move(e, s.value, mv)) else None
  }

  predicate Joined(s: Mt) { s.rpc.RExit? && s.wpc.WExit? }

  /** The deferred deletion, once both threads have been joined. */
  function MtCommit(cfg: Config, w: World, st: St, handed: Option<Manifest>, joinedOk: bool): (St, bool) {
    match handed
    case None => (st, joinedOk)
    case Some(m) =>
      if joinedOk && !cfg.dryRun then
        var (c, result) := CommitManifest(cfg, w, st, m);
        (c, result != CommitError)
      else (st.(reader := st.reader.(freed := st.reader.freed + multiset{m})), joinedOk)
  }

  /** Publication, directory times and the terminal frames. */
  function MtClose(cfg: Config, w: World, st: St, ok: bool): Outcome {
    var published := ok && !cfg.dryRun && cfg.delayUpdates;
    var disk1 := if published then st.book.disk + [Publish] else st.book.disk;
    var ok2 := ok && (!published || w.publish(st.book.disk));
    var disk2 := if ok2 && !cfg.dryRun then disk1 + [StampDirs(st.book.dirTimes)] else disk1;
    var closing := if ok2 then
                     StatsReply(cfg, st.book.stats, st.wouldDelete, st.deletedPaths)
                     + (Acks(cfg, st.book.outcomes) + [Code(FinalStatus(st.limit, st.book.failed))])
                   else [ErrorDetail];
    Close(st.(book := st.book.(disk := disk2), wire := st.wire + closing), ok2)
  }

  /** server_run_mt_receiver after the joins. */
  function MtFinish(e: Env, s: Mt): Outcome
    requires Joined(s)
  {
    var st := St(s.book, s.reader, s.wire, s.wouldDelete, [], false, multiset{}, Complete);
    var (st1, ok) := MtCommit(e.cfg, e.w, st, s.handed, s.rpc.ok && s.wpc.ok);
    MtClose(e.cfg, e.w, st1, ok)
  }
}
