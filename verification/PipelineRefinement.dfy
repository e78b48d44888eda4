/** Every interleaving of the two receiver threads does what the single-threaded
    receiver does. */
module PipelineRefinement {
  import opened Protocol
  import opened Receiver
  import opened Pipeline
  import P = PipelineProgress
  import L = LateDelete

  // ---- The reading side on its own ----

  /** What reading a stream amounts to when nothing but reading is considered. */
  datatype Plan = Plan(reader: Reader, wire: seq<Reply>, files: seq<File>, would: seq<string>, turn: Turn)

  function PlanStep(e: Env, reports: bool, p: Plan, t: Timed): Plan
    requires !TouchesDisk(e.cfg, t.frame)
  {
    var a := React(e.cfg, reports, e.start, p.reader, t);
    Plan(a.reader, p.wire + a.wire, p.files + a.files,
         if a.listing.Some? then p.would + e.w.would([], a.listing.value) else p.would, a.turn)
  }

  function ReadPlan(e: Env, reports: bool, n: nat): Plan
    requires Supported(e) && n <= |e.ts|
  {
    if n == 0 then Plan(StartReader(e.start), [], [], [], GoOn)
    else
      var p := ReadPlan(e, reports, n - 1);
      if p.turn.GoOn? then PlanStep(e, reports, p, e.ts[n - 1]) else p
  }

  lemma {:induction false} PlanStops(e: Env, reports: bool, n: nat, m: nat)
    requires Supported(e) && n <= m <= |e.ts| && !ReadPlan(e, reports, n).turn.GoOn?
    ensures ReadPlan(e, reports, m) == ReadPlan(e, reports, n)
  {
    if n < m { PlanStops(e, reports, n, m - 1); }
  }

  lemma {:induction false} PlanGrows(e: Env, n: nat, m: nat)
    requires Supported(e) && n <= m <= |e.ts|
    ensures ReadPlan(e, false, n).files <= ReadPlan(e, false, m).files
  {
    if n < m { PlanGrows(e, n, m - 1); }
  }

  /** Reporting errors to the peer changes the wire only when the loop fails. */
  lemma {:induction false} ReportsOnlyFailures(e: Env, n: nat)
    requires Supported(e) && n <= |e.ts|
    ensures var p := ReadPlan(e, false, n); var q := ReadPlan(e, true, n);
            && q.(wire := p.wire) == p
            && (p.turn.GoOn? || p.turn.Complete? ==> q.wire == p.wire)
  {
    if n > 0 { ReportsOnlyFailures(e, n - 1); }
  }

  // ---- Saving the planned files ----

  function Unmatched(b: Book): Book { b.(stats := b.stats.(matched := 0)) }

  function Matched(fs: seq<File>): nat {
    if fs == [] then 0 else Matched(fs[..|fs| - 1]) + fs[|fs| - 1].matched
  }

  /** What the write thread's book holds after the first n files it was given. */
  function Kept(e: Env, fs: seq<File>): (Book, bool) {
    SaveAll(e.cfg, e.w, Sink.Pipelined, EmptyBook, fs)
  }

  lemma {:induction false} KeptUnmatched(e: Env, fs: seq<File>)
    ensures Unmatched(Kept(e, fs).0) == Kept(e, fs).0
  {
    if fs != [] { KeptUnmatched(e, fs[..|fs| - 1]); }
  }

  lemma {:induction false} KeptDry(e: Env, fs: seq<File>)
    requires e.cfg.dryRun
    ensures Kept(e, fs).0.disk == [] && Kept(e, fs).1
  {
    if fs != [] { KeptDry(e, fs[..|fs| - 1]); }
  }

  lemma KeptFailsForGood(e: Env, xs: seq<File>, ys: seq<File>)
    requires xs <= ys && !Kept(e, xs).1
    ensures Kept(e, ys) == Kept(e, xs)
  {
    SaveAllConcat(e.cfg, e.w, Sink.Pipelined, EmptyBook, xs, ys[|xs|..]);
    assert ys == xs + ys[|xs|..];
  }

  /** The two sinks save alike; the direct one also counts the matched bytes. */
  lemma {:induction false} SinksAgree(e: Env, fs: seq<File>)
    ensures var d := SaveAll(e.cfg, e.w, Direct, EmptyBook, fs); var p := Kept(e, fs);
            && d.1 == p.1
            && Unmatched(d.0).(dirTimes := p.0.dirTimes) == p.0
            && (!e.cfg.dryRun ==> d.0.dirTimes == p.0.dirTimes)
            && (d.1 ==> d.0.stats.matched == Matched(fs))
  {
    if fs != [] {
      SinksAgree(e, fs[..|fs| - 1]);
      KeptUnmatched(e, fs[..|fs| - 1]);
    }
  }

  // ---- The invariant relating a pipeline state to plan and book ----

  function Counted(s: Mt): seq<File> {
    if (s.rpc.REnqueue? || s.rpc.RAsleep?) && s.rpc.todo != [] then s.sent + [s.rpc.todo[0]] else s.sent
  }

  /** Where the reading side stands in its plan. */
  ghost predicate ReadsPlan(e: Env, s: Mt)
    requires Supported(e)
  {
    s.next <= |e.ts| &&
    var p := ReadPlan(e, false, s.next);
    && s.wire == p.wire
    && s.wouldDelete == p.would
    && s.sent <= p.files
    && (s.handed.Some? ==> s.rpc == RExit(true))
    && (match s.rpc
        case RRead => s.reader == p.reader && p.turn.GoOn? && s.sent == p.files
        case RClosing => s.reader == p.reader && p.turn.Complete? && s.sent == p.files
        case RFailing => s.reader == p.reader && GaveUp(e, s, p)
        case RExit(ok) =>
          if ok then && s.reader == p.reader.(parked := None) && s.handed == p.reader.parked
                     && p.turn.Complete? && s.sent == p.files
          else s.reader == Drop(p.reader) && GaveUp(e, s, p)
        case RCount(todo, turn) => s.reader == p.reader && p.turn == turn && s.sent + todo == p.files
        case REnqueue(todo, turn) => s.reader == p.reader && p.turn == turn && s.sent + todo == p.files
        case RAsleep(todo, turn) => s.reader == p.reader && p.turn == turn && s.sent + todo == p.files)
  }

  /** The reader failed on the stream itself, or because the writer had failed. */
  ghost predicate GaveUp(e: Env, s: Mt, p: Plan) {
    || s.wpc == WExit(false)
    || (s.sent == p.files && (p.turn.Notify? || p.turn.Quiet? || (p.turn.GoOn? && s.next == |e.ts|)))
  }

  /** Where the writing side stands among the files sent to it. */
  ghost predicate WritesSent(e: Env, s: Mt) {
    && s.taken <= |s.sent|
    && s.queue == s.sent[s.taken..]
    && (match s.wpc
        case WHold(f) =>
          s.taken > 0 && f == s.sent[s.taken - 1] && Kept(e, s.sent[..s.taken - 1]) == (Unmatched(s.book), true)
        case WSaved(f, saved) =>
          s.taken > 0 && f == s.sent[s.taken - 1] &&
          var k := Kept(e, s.sent[..s.taken - 1]);
          && k.1
          && saved == Attempt(e.cfg, e.w, k.0.disk, f)
          && Unmatched(s.book) == k.0.(disk := Touch(e.cfg, k.0.disk, f))
        case WRelease(_, fatal) => Kept(e, s.sent[..s.taken]) == (Unmatched(s.book), !fatal)
        case WCancel => Kept(e, s.sent[..s.taken]) == (Unmatched(s.book), false)
        case WExit(ok) => Kept(e, s.sent[..s.taken]) == (Unmatched(s.book), ok)
        case _ => Kept(e, s.sent[..s.taken]) == (Unmatched(s.book), true))
  }

  ghost predicate CountsMatched(s: Mt) {
    s.rpc.RFailing? || s.rpc == RExit(false) || s.book.stats.matched == Matched(Counted(s))
  }

  ghost predicate DryLeavesDisk(e: Env, s: Mt) { e.cfg.dryRun ==> s.book.disk == [] }

  lemma ReadKeepsPlan(e: Env, s: Mt)
    requires Supported(e) && s.rpc.RRead? && ReadsPlan(e, s) && DryLeavesDisk(e, s)
    ensures ReadsPlan(e, ReadMove(e, s))
  {
    if s.next < |e.ts| {
      var p := ReadPlan(e, false, s.next);
      var q := ReadPlan(e, false, s.next + 1);
      assert q == PlanStep(e, false, p, e.ts[s.next]);
    }
  }

  lemma EnqueueKeepsPlan(e: Env, s: Mt)
    requires Supported(e) && P.Synced(e, s) && s.rpc.REnqueue? && s.rpc.todo != [] && ReadsPlan(e, s)
    ensures ReadsPlan(e, EnqueueMove(e, s))
  {
    var todo := s.rpc.todo;
    assert s.sent + todo == (s.sent + [todo[0]]) + todo[1..];
  }

  lemma RKeepsPlan(e: Env, s: Mt)
    requires Supported(e) && P.Synced(e, s) && RCan(s) && ReadsPlan(e, s) && DryLeavesDisk(e, s)
    ensures ReadsPlan(e, RMove(e, s))
  {
    if s.rpc.RRead? {
      ReadKeepsPlan(e, s);
    } else if s.rpc.REnqueue? {
      EnqueueKeepsPlan(e, s);
    }
  }

  lemma WKeepsPlan(e: Env, s: Mt)
    requires Supported(e) && P.Synced(e, s) && WCan(s) && ReadsPlan(e, s)
    ensures ReadsPlan(e, WMove(e, s))
  {
    PlanIgnoresWriter(e, s, WMove(e, s));
  }

  /** The reading side's place in its plan survives whatever only wakes it. */
  lemma PlanIgnoresWriter(e: Env, s: Mt, s1: Mt)
    requires Supported(e) && ReadsPlan(e, s) && s1.next == s.next && s1.reader == s.reader && s1.wire == s.wire
    requires s1.wouldDelete == s.wouldDelete && s1.sent == s.sent && s1.handed == s.handed
    requires s1.rpc == s.rpc || s1.rpc == WakeR(s.rpc)
    requires s.wpc == WExit(false) ==> s1.wpc == WExit(false)
    ensures ReadsPlan(e, s1)
  {
  }

  lemma RKeepsWrites(e: Env, s: Mt)
    requires Supported(e) && P.Synced(e, s) && RCan(s) && WritesSent(e, s)
    ensures WritesSent(e, RMove(e, s))
  {
    var s1 := RMove(e, s);
    assert s.taken <= |s.sent|;
    assert s1.sent[..s.taken] == s.sent[..s.taken];
    if s.taken > 0 { assert s1.sent[..s.taken - 1] == s.sent[..s.taken - 1]; }
  }

  lemma WAccounts(e: Env, s: Mt)
    requires Supported(e) && s.wpc.WSaved? && WritesSent(e, s)
    ensures WritesSent(e, WMove(e, s))
  {
    var most := s.sent[..s.taken - 1];
    var k := Kept(e, most);
    KeptUnmatched(e, most);
    assert s.sent[..s.taken][..s.taken - 1] == most && s.sent[..s.taken][s.taken - 1] == s.wpc.file;
    assert Kept(e, s.sent[..s.taken]) == SaveFile(e.cfg, e.w, Sink.Pipelined, k.0, s.wpc.file);
    AccountUnmatched(e, s.book, s.wpc.file, s.wpc.saved);
  }

  lemma AccountUnmatched(e: Env, b: Book, f: File, saved: Saved)
    ensures Unmatched(Account(e.cfg, Sink.Pipelined, b, f, saved))
            == Account(e.cfg, Sink.Pipelined, Unmatched(b), f, saved)
  {
  }

  lemma WKeepsWrites(e: Env, s: Mt)
    requires Supported(e) && P.Synced(e, s) && WCan(s) && WritesSent(e, s)
    ensures WritesSent(e, WMove(e, s))
  {
    if s.wpc.WSaved? {
      WAccounts(e, s);
    } else {
      var s1 := WMove(e, s);
      assert s.wpc.WHold? ==> Unmatched(s.book).disk == s.book.disk;
    }
  }

  lemma MatchedSnoc(fs: seq<File>, f: File)
    ensures Matched(fs + [f]) == Matched(fs) + f.matched
  {
    assert (fs + [f])[..|fs|] == fs;
  }

  lemma RKeepsMatched(e: Env, s: Mt)
    requires Supported(e) && P.Synced(e, s) && RCan(s) && CountsMatched(s)
    ensures CountsMatched(RMove(e, s))
  {
    var s1 := RMove(e, s);
    if s.rpc.RCount? {
      MatchedSnoc(s.sent, s.rpc.todo[0]);
    } else {
      assert s1.rpc.RFailing? || s1.rpc == RExit(false) || Counted(s1) == Counted(s);
    }
  }

  lemma WKeepsMatched(e: Env, s: Mt)
    requires Supported(e) && P.Synced(e, s) && WCan(s) && CountsMatched(s)
    ensures CountsMatched(WMove(e, s))
  {
    if s.wpc.WSaved? {
      AccountKeepsMatched(e, s.book, s.wpc.file, s.wpc.saved);
    }
  }

  lemma AccountKeepsMatched(e: Env, b: Book, f: File, saved: Saved)
    ensures Account(e.cfg, Sink.Pipelined, b, f, saved).stats.matched == b.stats.matched
  {
  }

  ghost predicate Related(e: Env, s: Mt)
    requires Supported(e)
  {
    P.Synced(e, s) && ReadsPlan(e, s) && WritesSent(e, s) && CountsMatched(s) && DryLeavesDisk(e, s)
  }

  /** Every reachable state is related to the plan and to the files sent. */
  lemma {:induction false} EveryStateRelated(e: Env, schedule: seq<Mover>)
    requires Supported(e) && After(e, schedule).Some?
    ensures Related(e, After(e, schedule).value)
  {
    if schedule == [] {
      assert ReadsPlan(e, MtInit(e));
    } else {
      var most := schedule[..|schedule| - 1];
      EveryStateRelated(e, most);
      MoveKeepsRelated(e, After(e, most).value, schedule[|schedule| - 1]);
    }
  }

  lemma RKeepsRelated(e: Env, s: Mt)
    requires Supported(e) && Related(e, s) && RCan(s)
    ensures Related(e, RMove(e, s))
  {
    P.RKeepsSync(e, s);
    RKeepsPlan(e, s);
    RKeepsWrites(e, s);
    RKeepsMatched(e, s);
    assert RMove(e, s).book.disk == s.book.disk;
  }

  lemma WKeepsRelated(e: Env, s: Mt)
    requires Supported(e) && Related(e, s) && WCan(s)
    ensures Related(e, WMove(e, s))
  {
    P.WKeepsSync(e, s);
    WKeepsPlan(e, s);
    WKeepsWrites(e, s);
    WKeepsMatched(e, s);
    assert e.cfg.dryRun ==> WMove(e, s).book.disk == s.book.disk;
  }

  lemma WakingKeepsRelated(e: Env, s: Mt)
    requires Supported(e) && Related(e, s)
    ensures Related(e, s.(rpc := WakeR(s.rpc))) && Related(e, s.(wpc := WakeW(s.wpc)))
  {
    PlanIgnoresWriter(e, s, s.(rpc := WakeR(s.rpc)));
    PlanIgnoresWriter(e, s, s.(wpc := WakeW(s.wpc)));
  }

  lemma MoveKeepsRelated(e: Env, s: Mt, mv: Mover)
    requires Supported(e) && Related(e, s) && Can(s, mv)
    ensures Related(e, Move(e, s, mv))
  {
    match mv
    case R => RKeepsRelated(e, s);
    case W => WKeepsRelated(e, s);
    case _ => WakingKeepsRelated(e, s);
  }

  // ---- Both receivers come to the same end ----

  /** Once joined, the write thread's book is that of the whole plan, and the
      transfer succeeded exactly when the plan completed and every save did. */
  lemma JoinedState(e: Env, s: Mt)
    requires Supported(e) && Related(e, s) && Joined(s)
    ensures var p := ReadPlan(e, false, |e.ts|);
            && Kept(e, p.files) == (Unmatched(s.book), s.wpc.ok)
            && (s.rpc.ok && s.wpc.ok <==> p.turn.Complete? && Kept(e, p.files).1)
            && (s.rpc.ok && s.wpc.ok ==>
                && s.reader == p.reader.(parked := None) && s.handed == p.reader.parked
                && s.wire == p.wire && s.wouldDelete == p.would
                && s.book.stats.matched == Matched(p.files))
  {
    var here := ReadPlan(e, false, s.next);
    var full := ReadPlan(e, false, |e.ts|);
    if !here.turn.GoOn? { PlanStops(e, false, s.next, |e.ts|); }
    if s.wpc.ok {
      assert s.sent[..s.taken] == s.sent;
      assert here == full;
    } else {
      PlanGrows(e, s.next, |e.ts|);
      assert s.sent[..s.taken] <= full.files;
      KeptFailsForGood(e, s.sent[..s.taken], full.files);
    }
  }

  /** The single-threaded loop has saved the plan so far, or stopped on the way. */
  ghost predicate Follows(e: Env, s: St, p: Plan) {
    var d := SaveAll(e.cfg, e.w, Direct, EmptyBook, p.files);
    && s.book == d.0
    && !s.limit && s.deletedPaths == [] && s.committed == multiset{}
    && (if d.1 then s.reader == p.reader && s.wire == p.wire && s.wouldDelete == p.would && s.turn == p.turn
        else s.turn.Notify?)
  }

  lemma DirectStep(e: Env, s: St, p: Plan, t: Timed)
    requires !TouchesDisk(e.cfg, t.frame) && Follows(e, s, p) && s.turn.GoOn?
    ensures Follows(e, StStep(e.cfg, e.w, e.start, s, t), PlanStep(e, true, p, t))
  {
    var a := React(e.cfg, true, e.start, p.reader, t);
    SaveAllConcat(e.cfg, e.w, Direct, EmptyBook, p.files, a.files);
    if e.cfg.dryRun {
      SinksAgree(e, p.files);
      KeptDry(e, p.files);
    }
  }

  lemma PlanOutrunsSaves(e: Env, s: St, p: Plan, t: Timed)
    requires !TouchesDisk(e.cfg, t.frame) && Follows(e, s, p) && s.turn.Notify?
    requires !SaveAll(e.cfg, e.w, Direct, EmptyBook, p.files).1
    ensures Follows(e, s, PlanStep(e, true, p, t))
  {
    SaveAllConcat(e.cfg, e.w, Direct, EmptyBook, p.files, React(e.cfg, true, e.start, p.reader, t).files);
  }

  /** The single-threaded loop follows the same plan, saving as it reads. */
  lemma {:induction false} DirectFollowsPlan(e: Env, n: nat)
    requires Supported(e) && n <= |e.ts|
    ensures Follows(e, StRun(e.cfg, e.w, e.start, e.ts[..n]), ReadPlan(e, true, n))
  {
    if n > 0 {
      DirectFollowsPlan(e, n - 1);
      var p := ReadPlan(e, true, n - 1);
      var s := StRun(e.cfg, e.w, e.start, e.ts[..n - 1]);
      assert e.ts[..n][..n - 1] == e.ts[..n - 1] && e.ts[..n][n - 1] == e.ts[n - 1];
      if s.turn.GoOn? {
        DirectStep(e, s, p, e.ts[n - 1]);
      } else if p.turn.GoOn? {
        PlanOutrunsSaves(e, s, p, e.ts[n - 1]);
      }
    }
  }

  /** The books the two receivers close with differ in nothing they report. */
  lemma ClosingBooksAgree(e: Env, s: Mt, d: Book, files: seq<File>)
    requires SaveAll(e.cfg, e.w, Direct, EmptyBook, files) == (d, true)
    requires Kept(e, files) == (Unmatched(s.book), true) && s.book.stats.matched == Matched(files)
    ensures d.(dirTimes := s.book.dirTimes) == s.book
    ensures !e.cfg.dryRun ==> d == s.book
  {
    SinksAgree(e, files);
  }

  /** Up to the order in which frames and publication are attempted, the two
      closing sequences do the same. */
  lemma SameTail(cfg: Config, w: World, a: St, b: St)
    requires a.(book := b.book, turn := b.turn) == b
    requires a.book.(dirTimes := b.book.dirTimes) == b.book && (!cfg.dryRun ==> a.book == b.book)
    ensures var m := MtClose(cfg, w, b, true); var o := SuccessFrame(cfg, w, a);
            m.disk == o.disk && m.ok == o.ok && m.committed == o.committed && (m.ok ==> m == o)
  {
    var stats := StatsReply(cfg, a.book.stats, a.wouldDelete, a.deletedPaths);
    var tail := Acks(cfg, a.book.outcomes) + [Code(FinalStatus(a.limit, a.book.failed))];
    assert (a.wire + stats) + tail == a.wire + (stats + tail);
  }

  /** With equal books the two endings are equal. */
  lemma SameClosing(e: Env, s: Mt, q: St)
    requires Joined(s) && s.rpc.ok && s.wpc.ok && q.turn.Complete?
    requires q.book.(dirTimes := s.book.dirTimes) == s.book && (!e.cfg.dryRun ==> q.book == s.book)
    requires q.reader.(parked := None) == s.reader && q.reader.parked == s.handed
    requires q.wire == s.wire && q.wouldDelete == s.wouldDelete
    requires !q.limit && q.deletedPaths == [] && q.committed == multiset{}
    requires e.cfg.dryRun ==> s.handed == None
    ensures var m := MtFinish(e, s); var o := StFinish(e.cfg, e.w, q, false);
            m.disk == o.disk && m.ok == o.ok && m.committed == o.committed && (m.ok ==> m == o)
  {
    var st := St(s.book, s.reader, s.wire, s.wouldDelete, [], false, multiset{}, Complete);
    if s.handed.None? {
      SameTail(e.cfg, e.w, q, st);
    } else {
      assert st == q.(reader := q.reader.(parked := None));
      var (c, result) := CommitManifest(e.cfg, e.w, st, s.handed.value);
      if result != CommitError {
        SameTail(e.cfg, e.w, c, c);
      }
    }
  }

  lemma {:induction false} DryParksNothing(e: Env, n: nat)
    requires Supported(e) && e.cfg.dryRun && n <= |e.ts|
    ensures ReadPlan(e, true, n).reader.parked == None
  {
    if n > 0 { DryParksNothing(e, n - 1); }
  }

  /** Every complete interleaving of the two threads, on every supported stream and
      every file system, leaves the disk effects of the single-threaded receiver in
      the same order, succeeds exactly when it does, deletes exactly what it
      deletes, and on success sends exactly the same frames. */
  lemma PipelineRefinesSequential(e: Env, schedule: seq<Mover>)
    requires Supported(e) && After(e, schedule).Some? && Joined(After(e, schedule).value)
    ensures var m := MtFinish(e, After(e, schedule).value);
            var o := Sequential(e.cfg, e.w, e.start, e.ts);
            && m.disk == o.disk && m.ok == o.ok && m.committed == o.committed
            && (m.ok ==> m == o)
            && (!m.ok ==> m.wire != [] && m.wire[|m.wire| - 1] == ErrorDetail)
  {
    EveryStateRelated(e, schedule);
    var s := After(e, schedule).value;
    JoinedState(e, s);
    var n := |e.ts|;
    assert e.ts[..n] == e.ts;
    DirectFollowsPlan(e, n);
    ReportsOnlyFailures(e, n);
    var p := ReadPlan(e, true, n);
    var q := StRun(e.cfg, e.w, e.start, e.ts);
    SinksAgree(e, p.files);
    if s.rpc.ok && s.wpc.ok {
      ClosingBooksAgree(e, s, q.book, p.files);
      if e.cfg.dryRun { DryParksNothing(e, n); }
      SameClosing(e, s, q);
    }
  }

  lemma {:induction false} PlanBalanced(e: Env, n: nat, x: Manifest)
    requires Supported(e) && n <= |e.ts|
    ensures L.Balanced(ReadPlan(e, false, n).reader, multiset{}, x)
  {
    if n > 0 {
      PlanBalanced(e, n - 1, x);
      var p := ReadPlan(e, false, n - 1);
      L.ReactBalanced(e.cfg, false, e.start, p.reader, e.ts[n - 1], multiset{}, x);
    }
  }

  /** However the threads interleave and whichever of them fails, each manifest the
      pipeline read is committed or freed, once. */
  lemma PipelineRetiresManifests(e: Env, schedule: seq<Mover>, x: Manifest)
    requires Supported(e) && After(e, schedule).Some? && Joined(After(e, schedule).value)
    ensures var m := MtFinish(e, After(e, schedule).value); m.taken[x] == m.committed[x] + m.freed[x]
  {
    EveryStateRelated(e, schedule);
    var s := After(e, schedule).value;
    PlanBalanced(e, s.next, x);
    L.DropBalanced(ReadPlan(e, false, s.next).reader, multiset{}, x);
  }
}
