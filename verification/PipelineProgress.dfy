/** The byte budget of the receive pipeline, and why it never gets stuck. */
module PipelineProgress {
  import opened Protocol
  import opened Receiver
  import opened Pipeline

  function Bytes(fs: seq<File>): nat {
    if fs == [] then 0 else fs[0].size + Bytes(fs[1..])
  }

  /** How many of the files carry any payload at all. */
  function Payloads(fs: seq<File>): nat {
    if fs == [] then 0 else (if fs[0].size > 0 then 1 else 0) + Payloads(fs[1..])
  }

  function InHand(p: WPc): seq<File> {
    match p
    case WHold(f) => [f]
    case WSaved(f, _) => [f]
    case WRelease(f, _) => [f]
    case _ => []
  }

  /** Received but not yet released: in the writer's hand, then queued. */
  function InFlight(s: Mt): seq<File> { InHand(s.wpc) + s.queue }

  lemma {:induction false} Snoc(fs: seq<File>, f: File)
    ensures Bytes(fs + [f]) == Bytes(fs) + f.size
    ensures Payloads(fs + [f]) == Payloads(fs) + if f.size > 0 then 1 else 0
  {
    if fs == [] {
      assert fs + [f] == [f];
    } else {
      assert (fs + [f])[1..] == fs[1..] + [f];
      Snoc(fs[1..], f);
    }
  }

  lemma {:induction false} NoBytesNoPayload(fs: seq<File>)
    ensures Bytes(fs) == 0 <==> Payloads(fs) == 0
  {
    if fs != [] { NoBytesNoPayload(fs[1..]); }
  }

  /** The budget counts exactly what is in flight, and only a lone oversized
      payload ever exceeds it. */
  ghost predicate BudgetKept(e: Env, s: Mt) {
    e.maxBytes > 0 ==>
      && s.queuedBytes == Bytes(InFlight(s))
      && (s.queuedBytes > e.maxBytes ==> Payloads(InFlight(s)) == 1)
  }

  /** How the flags and the two threads' positions go together. */
  ghost predicate Synced(e: Env, s: Mt) {
    && |s.queue| <= e.capacity
    && (s.rpc.RExit? ==> s.done && (s.rpc.ok || s.cancelled))
    && (s.cancelled ==> s.done && (s.rpc == RExit(false) || s.wpc == WExit(false)))
    && (s.done ==> s.rpc.RExit? || s.cancelled)
    && (s.wpc == WExit(false) ==> s.cancelled)
    && (s.wpc == WExit(true) ==> s.done && s.queue == [])
    && (s.wpc.WAsleep? ==> s.queue == [] && !s.done)
    && (s.rpc.RAsleep? ==> s.rpc.todo != [] && !s.cancelled && Blocked(e, s, s.rpc.todo[0]))
    && (s.rpc.RCount? || s.rpc.REnqueue? ==> s.rpc.todo != [])
  }

  lemma RKeepsBudget(e: Env, s: Mt)
    requires Supported(e) && Synced(e, s) && BudgetKept(e, s) && RCan(s)
    ensures BudgetKept(e, RMove(e, s))
  {
    if s.rpc.REnqueue? {
      Snoc(InFlight(s), s.rpc.todo[0]);
      NoBytesNoPayload(InFlight(s));
      assert InFlight(s) + [s.rpc.todo[0]] == InHand(s.wpc) + (s.queue + [s.rpc.todo[0]]);
    }
  }

  /** Only a release takes an entry out of flight. */
  lemma WKeepsFlight(e: Env, s: Mt)
    requires WCan(s) && !s.wpc.WRelease? && !s.wpc.WCancel?
    ensures InFlight(WMove(e, s)) == InFlight(s) && WMove(e, s).queuedBytes == s.queuedBytes
  {
    if s.wpc.WReady? && s.queue != [] { assert [s.queue[0]] + s.queue[1..] == s.queue; }
  }

  lemma ReleaseKeepsBudget(e: Env, used: nat, f: File, rest: seq<File>)
    requires e.maxBytes > 0 && used == Bytes([f] + rest) && (used > e.maxBytes ==> Payloads([f] + rest) == 1)
    ensures Released(e, used, f.size) == Bytes(rest)
    ensures Bytes(rest) > e.maxBytes ==> Payloads(rest) == 1
  {
    assert ([f] + rest)[1..] == rest;
    NoBytesNoPayload(rest);
  }

  lemma WKeepsBudget(e: Env, s: Mt)
    requires Supported(e) && Synced(e, s) && BudgetKept(e, s) && WCan(s)
    ensures BudgetKept(e, WMove(e, s))
  {
    match s.wpc
    case WRelease(f, _) =>
      if e.maxBytes > 0 {
        ReleaseKeepsBudget(e, s.queuedBytes, f, s.queue);
        assert InFlight(WMove(e, s)) == s.queue;
      }
    case WCancel =>
    case _ => WKeepsFlight(e, s);
  }

  lemma RKeepsSync(e: Env, s: Mt)
    requires Supported(e) && Synced(e, s) && RCan(s)
    ensures Synced(e, RMove(e, s))
  {
  }

  lemma WKeepsSync(e: Env, s: Mt)
    requires Supported(e) && Synced(e, s) && WCan(s)
    ensures Synced(e, WMove(e, s))
  {
  }

  /** Budget and synchronization hold in every reachable state, spurious wake-ups
      included. */
  lemma {:induction false} EveryReachableState(e: Env, schedule: seq<Mover>)
    requires Supported(e) && After(e, schedule).Some?
    ensures var s := After(e, schedule).value; BudgetKept(e, s) && Synced(e, s)
  {
    if schedule != [] {
      var most := schedule[..|schedule| - 1];
      EveryReachableState(e, most);
      var s := After(e, most).value;
      match schedule[|schedule| - 1]
      case R => RKeepsBudget(e, s); RKeepsSync(e, s);
      case W => WKeepsBudget(e, s); WKeepsSync(e, s);
      case _ =>
    }
  }

  /** With a positive limit the counter equals the payload in flight, the limit is
      passed only by one payload alone, and releasing never saturates. */
  lemma BudgetTheorem(e: Env, schedule: seq<Mover>)
    requires Supported(e) && After(e, schedule).Some? && e.maxBytes > 0
    ensures var s := After(e, schedule).value;
            && s.queuedBytes == Bytes(s.queue) + Bytes(InHand(s.wpc))
            && (s.queuedBytes > e.maxBytes ==> Payloads(InFlight(s)) == 1)
            && (s.wpc.WRelease? ==>
                && s.wpc.file.size <= s.queuedBytes
                && Released(e, s.queuedBytes, s.wpc.file.size) == s.queuedBytes - s.wpc.file.size)
  {
    EveryReachableState(e, schedule);
    var s := After(e, schedule).value;
    if InHand(s.wpc) == [] {
      assert InFlight(s) == s.queue;
    } else {
      assert InFlight(s)[1..] == s.queue && InFlight(s)[0] == InHand(s.wpc)[0];
    }
  }

  /** A blocked receiver always leaves the writer a move: the threads are never
      both waiting, and a thread is never left waiting by an exited one. */
  lemma NeverStuck(e: Env, schedule: seq<Mover>)
    requires Supported(e) && After(e, schedule).Some?
    ensures var s := After(e, schedule).value; RCan(s) || WCan(s) || Joined(s)
    ensures var s := After(e, schedule).value; s.rpc.RAsleep? ==> WCan(s)
    ensures var s := After(e, schedule).value; s.wpc.WAsleep? ==> RCan(s)
  {
    EveryReachableState(e, schedule);
  }

  // ---- Every schedule of real moves comes to an end ----

  function FrameWork(ts: seq<Timed>): nat {
    if ts == [] then 0
    else 1 + (if ts[0].frame.Data? then 6 * |ts[0].frame.files| else 0) + FrameWork(ts[1..])
  }

  function RWork(e: Env, s: Mt): nat {
    var rest := if s.next <= |e.ts| then FrameWork(e.ts[s.next..]) + 2 else 2;
    match s.rpc
    case RRead => rest
    case RCount(todo, _) => 6 * |todo| + rest
    case REnqueue(todo, _) => if todo == [] then rest else 6 * |todo| - 1 + rest
    case RAsleep(todo, _) => if todo == [] then rest else 6 * |todo| - 1 + rest
    case RExit(_) => 0
    case _ => 1
  }

  function WWork(p: WPc): nat {
    match p
    case WHold(_) => 5
    case WSaved(_, _) => 4
    case WRelease(_, _) => 3
    case WCancel => 1
    case WExit(_) => 0
    case _ => 2
  }

  /** Work left, with a little credit for each thread that is awake. */
  function Measure(e: Env, s: Mt): nat {
    3 * (RWork(e, s) + 4 * |s.queue| + WWork(s.wpc))
    + (if s.rpc.RAsleep? then 0 else 1) + (if s.wpc.WAsleep? then 0 else 1)
  }

  lemma ReadShrinks(e: Env, s: Mt)
    requires Supported(e) && s.next <= |e.ts| && s.rpc.RRead?
    ensures RWork(e, ReadMove(e, s)) < RWork(e, s)
    ensures ReadMove(e, s).next <= |e.ts|
  {
    if s.next < |e.ts| {
      assert e.ts[s.next..][1..] == e.ts[s.next + 1..];
      assert e.ts[s.next..][0] == e.ts[s.next];
    }
  }

  lemma RShrinks(e: Env, s: Mt)
    requires Supported(e) && Synced(e, s) && s.next <= |e.ts| && RCan(s)
    ensures Measure(e, RMove(e, s)) < Measure(e, s)
    ensures RMove(e, s).next <= |e.ts|
  {
    if s.rpc.RRead? { ReadShrinks(e, s); }
  }

  lemma WShrinks(e: Env, s: Mt)
    requires Supported(e) && Synced(e, s) && s.next <= |e.ts| && WCan(s)
    ensures Measure(e, WMove(e, s)) < Measure(e, s)
    ensures WMove(e, s).next <= |e.ts|
  {
    assert RWork(e, WMove(e, s)) == RWork(e, s);
  }

  lemma MoveShrinks(e: Env, s: Mt, mv: Mover)
    requires Supported(e) && Synced(e, s) && s.next <= |e.ts|
    requires (mv.R? && RCan(s)) || (mv.W? && WCan(s))
    ensures Measure(e, Move(e, s, mv)) < Measure(e, s)
    ensures Move(e, s, mv).next <= |e.ts|
  {
    if mv.R? { RShrinks(e, s); } else { WShrinks(e, s); }
  }

  predicate Genuine(schedule: seq<Mover>) {
    forall i :: 0 <= i < |schedule| ==> schedule[i].R? || schedule[i].W?
  }

  /** A schedule without spurious wake-ups is never longer than a bound fixed by the
      stream, and one that cannot be continued has joined both threads. */
  lemma {:induction false} EveryRunEnds(e: Env, schedule: seq<Mover>)
    requires Supported(e) && After(e, schedule).Some? && Genuine(schedule)
    ensures |schedule| + Measure(e, After(e, schedule).value) <= Measure(e, MtInit(e))
    ensures After(e, schedule).value.next <= |e.ts|
  {
    if schedule != [] {
      var most := schedule[..|schedule| - 1];
      EveryRunEnds(e, most);
      EveryReachableState(e, most);
      MoveShrinks(e, After(e, most).value, schedule[|schedule| - 1]);
    }
  }
}
