/** The parallel scanner at run time: workers that hand chunks to one consumer over
    a bounded queue, as a machine whose every interleaving is a schedule. */
module ParallelScan {
  import opened SourceTree

  type Chunk = seq<Item>

  /** A worker still has, for each of its directories, the chunks to come. */
  type Share = seq<seq<Chunk>>

  datatype Phase = Running | Asleep | Woken | Finished
  datatype Consumer = Creating | Taking | Dozing | Roused | Ended

  /** `unborn` are the shares of workers still to be created and `expected` the number of
      completions awaited; `quit` says that the consumer itself gave up. */
  datatype Par = Par(queue: seq<Chunk>, unborn: seq<Share>, shares: seq<Share>, phases: seq<Phase>, expected: nat,
                     completed: nat, done: bool, cancelled: bool, failed: bool, quit: bool,
                     consumer: Consumer, out: seq<Chunk>)

  /** `first` goes straight to the consumer; `preloaded` is queued before any worker
      starts. Without workers the scan counts as done from the start. */
  function Init(first: seq<Chunk>, preloaded: seq<Chunk>, shares: seq<Share>): Par {
    Par(preloaded, shares, [], [], |shares|, 0, shares == [], false, false, false,
        if shares == [] then Taking else Creating, first)
  }

  /** Spawn and SpawnFail: the next worker is created, or cannot be. Take(w): the consumer
      takes a chunk and the signal wakes worker w, if any sleeps. Cancel: the consumer gives
      up and destroys the scanner. Fail(i, all): worker i cannot make a scanner for its next
      directory and drops all the others, or its scanner of one directory fails. The last
      two are wake-ups without a signal. */
  datatype Mover =
    | Spawn | SpawnFail
    | Work(i: nat) | Fail(i: nat, all: bool)
    | Take(w: nat) | Look | Cancel
    | SpuriousWork(i: nat) | SpuriousTake

  function Signal(c: Consumer): Consumer { if c.Dozing? then Roused else c }

  predicate Sleeper(s: Par, w: nat) { w < |s.phases| && s.phases[w].Asleep? }

  ghost predicate AnySleeper(s: Par) { exists w :: Sleeper(s, w) }

  predicate Awake(s: Par, i: nat) { i < |s.phases| && i < |s.shares| && (s.phases[i].Running? || s.phases[i].Woken?) }

  predicate Listening(s: Par) { s.consumer.Taking? || s.consumer.Roused? }

  ghost predicate Can(s: Par, m: Mover) {
    match m
    case Spawn => s.unborn != []
    case SpawnFail => s.unborn != []
    case Work(i) => Awake(s, i)
    case Fail(i, _) => Awake(s, i) && s.phases[i].Running? && s.shares[i] != []
    case Take(w) => Listening(s) && s.queue != [] && (AnySleeper(s) ==> Sleeper(s, w))
    case Look => Listening(s) && s.queue == []
    case Cancel => s.consumer.Taking?
    case SpuriousWork(i) => Sleeper(s, i)
    case SpuriousTake => s.consumer.Dozing?
  }

  /** One turn of a worker under the mutex: finish, go to the next directory, or hand
      a chunk over unless the queue is full or the scan was cancelled. */
  function WorkMove(cap: nat, s: Par, i: nat): Par
    requires Awake(s, i)
  {
    var share := s.shares[i];
    if share == [] then
      s.(phases := s.phases[i := Finished], completed := s.completed + 1,
         done := s.done || s.completed + 1 >= s.expected,
         consumer := if s.completed + 1 >= s.expected then Signal(s.consumer) else s.consumer)
    else if share[0] == [] then
      s.(shares := s.shares[i := share[1..]], phases := s.phases[i := Running])
    else if |s.queue| >= cap && !s.cancelled then
      s.(phases := s.phases[i := Asleep])
    else if s.cancelled then
      s.(shares := s.shares[i := [[]] + share[1..]], phases := s.phases[i := Running])
    else
      s.(queue := s.queue + [share[0][0]], shares := s.shares[i := [share[0][1..]] + share[1..]],
         phases := s.phases[i := Running], consumer := Signal(s.consumer))
  }

  function TakeMove(s: Par, w: nat): Par
    requires s.queue != []
  {
    s.(queue := s.queue[1..], out := s.out + [s.queue[0]], consumer := Taking,
       phases := if Sleeper(s, w) then s.phases[w := Woken] else s.phases)
  }

  function Wake(phases: seq<Phase>): seq<Phase> {
    seq(|phases|, i requires 0 <= i < |phases| => if phases[i].Asleep? then Woken else phases[i])
  }

  /** Whoever cancels wakes everybody. */
  function FailMove(s: Par, i: nat, all: bool): Par
    requires i < |s.shares| && s.shares[i] != []
  {
    s.(shares := s.shares[i := if all then [] else s.shares[i][1..]], failed := true, cancelled := true,
       phases := Wake(s.phases), consumer := Signal(s.consumer))
  }

  function SpawnMove(s: Par): Par
    requires s.unborn != []
  {
    s.(unborn := s.unborn[1..], shares := s.shares + [s.unborn[0]], phases := s.phases + [Running],
       consumer := if |s.unborn| == 1 then Taking else s.consumer)
  }

  /** No more workers than there are already are waited for. */
  function SpawnFailMove(s: Par): Par {
    s.(unborn := [], expected := |s.phases|, done := s.done || s.completed >= |s.phases|,
       failed := true, cancelled := true, phases := Wake(s.phases), consumer := Taking)
  }

  function Move(cap: nat, s: Par, m: Mover): Par
    requires Can(s, m)
  {
    match m
    case Spawn => SpawnMove(s)
    case SpawnFail => SpawnFailMove(s)
    case Work(i) => WorkMove(cap, s, i)
    case Fail(i, all) => FailMove(s, i, all)
    case Take(w) => TakeMove(s, w)
    case Look => s.(consumer := if s.done then Ended else Dozing)
    case Cancel => s.(done := true, cancelled := true, quit := true, phases := Wake(s.phases), consumer := Ended)
    case SpuriousWork(i) => s.(phases := s.phases[i := Woken])
    case SpuriousTake => s.(consumer := Roused)
  }

  /** The state after a schedule; a mover that cannot move is passed over. */
  ghost function After(cap: nat, s: Par, run: seq<Mover>): Par {
    if run == [] then s
    else
      var before := After(cap, s, run[..|run| - 1]);
      if Can(before, run[|run| - 1]) then Move(cap, before, run[|run| - 1]) else before
  }

  // ---- What every reachable state keeps ----

  /** The chunks a worker has still to hand over. */
  function Left(share: Share): multiset<Chunk> {
    if share == [] then multiset{} else multiset(share[0]) + Left(share[1..])
  }

  function AllLeft(shares: seq<Share>): multiset<Chunk> {
    if shares == [] then multiset{} else Left(shares[0]) + AllLeft(shares[1..])
  }

  lemma {:induction false} AllLeftUpdate(shares: seq<Share>, i: nat, share: Share, c: Chunk)
    requires i < |shares|
    ensures AllLeft(shares[i := share])[c] + Left(shares[i])[c] == AllLeft(shares)[c] + Left(share)[c]
  {
    if i == 0 {
      assert shares[0 := share][1..] == shares[1..];
    } else {
      assert shares[i := share][1..] == shares[1..][i - 1 := share];
      AllLeftUpdate(shares[1..], i - 1, share, c);
    }
  }

  function Count(phases: seq<Phase>, p: Phase): nat {
    if phases == [] then 0 else (if phases[0] == p then 1 else 0) + Count(phases[1..], p)
  }

  lemma {:induction false} CountUpdate(phases: seq<Phase>, i: nat, to: Phase, p: Phase)
    requires i < |phases|
    ensures Count(phases[i := to], p) + (if phases[i] == p then 1 else 0) == Count(phases, p) + (if to == p then 1 else 0)
  {
    if i == 0 {
      assert phases[0 := to][1..] == phases[1..];
    } else {
      assert phases[i := to][1..] == phases[1..][i - 1 := to];
      CountUpdate(phases[1..], i - 1, to, p);
    }
  }

  lemma {:induction false} CountBound(phases: seq<Phase>, p: Phase)
    ensures Count(phases, p) <= |phases|
    ensures Count(phases, p) == |phases| ==> forall i :: 0 <= i < |phases| ==> phases[i] == p
    ensures Count(phases, p) > 0 <==> p in phases
  {
    if phases != [] { CountBound(phases[1..], p); }
  }

  /** How often a chunk occurs with the consumer, queued and still to come. */
  function Held(s: Par, c: Chunk): nat {
    multiset(s.out)[c] + multiset(s.queue)[c] + AllLeft(s.shares)[c] + AllLeft(s.unborn)[c]
  }

  /** No chunk is doubled, and none is lost before the scan is cancelled. */
  ghost predicate Conserved(all: multiset<Chunk>, s: Par) {
    forall c :: Held(s, c) <= all[c] && (!s.cancelled ==> Held(s, c) == all[c])
  }

  /** The bookkeeping agrees with the threads. */
  ghost predicate Counted(s: Par) {
    && |s.shares| == |s.phases| && s.expected == |s.phases| + |s.unborn|
    && s.completed == Count(s.phases, Finished)
    && (forall i :: 0 <= i < |s.phases| && s.phases[i].Finished? ==> s.shares[i] == [])
    && (forall i :: 0 <= i < |s.phases| && (s.phases[i].Asleep? || s.phases[i].Woken?) ==>
          s.shares[i] != [] && s.shares[i][0] != [])
    && (s.done <==> s.completed == s.expected || s.quit)
    && (s.consumer.Ended? ==> s.quit || (s.queue == [] && s.done))
    && (s.quit ==> s.consumer.Ended? && s.cancelled)
    && (s.cancelled <==> s.failed || s.quit)
    && (s.consumer.Creating? <==> s.unborn != [])
  }

  /** No wake-up is lost: a worker sleeps only while the queued chunks, together with
      the workers already woken, fill the queue; the consumer dozes only on an empty
      queue before the end. */
  ghost predicate Wakeful(cap: nat, s: Par) {
    && (AnySleeper(s) ==> |s.queue| + Count(s.phases, Woken) >= cap && !s.cancelled)
    && (s.consumer.Dozing? ==> s.queue == [] && !s.done)
  }

  lemma LeftTaken(share: Share, c: Chunk)
    requires share != [] && share[0] != []
    ensures Left(share)[c] == Left([share[0][1..]] + share[1..])[c] + (if c == share[0][0] then 1 else 0)
  {
    assert share[0] == [share[0][0]] + share[0][1..];
    assert ([share[0][1..]] + share[1..])[1..] == share[1..];
  }

  /** A worker's share as it is after some of it was dropped. */
  ghost predicate Dropped(share: Share, rest: Share) {
    rest == [] || (share != [] && (rest == share[1..] || rest == [[]] + share[1..]))
  }

  lemma LeftDropped(share: Share, rest: Share, c: Chunk)
    requires Dropped(share, rest)
    ensures Left(rest)[c] <= Left(share)[c]
    ensures share != [] && share[0] == [] && rest == share[1..] ==> Left(rest)[c] == Left(share)[c]
  {
    if share != [] && rest == [[]] + share[1..] { assert rest[1..] == share[1..]; }
  }

  lemma HeldByDropping(shares: seq<Share>, i: nat, rest: Share, c: Chunk)
    requires i < |shares| && Dropped(shares[i], rest)
    ensures AllLeft(shares[i := rest])[c] <= AllLeft(shares)[c]
    ensures shares[i] != [] && shares[i][0] == [] && rest == shares[i][1..] ==> AllLeft(shares[i := rest])[c] == AllLeft(shares)[c]
  {
    AllLeftUpdate(shares, i, rest, c);
    LeftDropped(shares[i], rest, c);
  }

  lemma HeldByHandingOver(queue: seq<Chunk>, shares: seq<Share>, i: nat, c: Chunk)
    requires i < |shares| && shares[i] != [] && shares[i][0] != []
    ensures multiset(queue + [shares[i][0][0]])[c] + AllLeft(shares[i := [shares[i][0][1..]] + shares[i][1..]])[c]
         == multiset(queue)[c] + AllLeft(shares)[c]
  {
    var share := shares[i];
    AllLeftUpdate(shares, i, [share[0][1..]] + share[1..], c);
    LeftTaken(share, c);
  }

  lemma HeldByWork(cap: nat, s: Par, i: nat, c: Chunk)
    requires Awake(s, i)
    ensures Held(WorkMove(cap, s, i), c) <= Held(s, c)
    ensures !s.cancelled ==> Held(WorkMove(cap, s, i), c) == Held(s, c)
  {
    var share := s.shares[i];
    if share != [] && share[0] == [] {
      HeldByDropping(s.shares, i, share[1..], c);
    } else if share != [] && s.cancelled {
      HeldByDropping(s.shares, i, [[]] + share[1..], c);
    } else if share != [] && |s.queue| < cap {
      HeldByHandingOver(s.queue, s.shares, i, c);
    }
  }

  lemma {:induction false} AllLeftSnoc(shares: seq<Share>, share: Share, c: Chunk)
    ensures AllLeft(shares + [share])[c] == AllLeft(shares)[c] + Left(share)[c]
  {
    if shares == [] {
      assert (shares + [share])[1..] == [];
    } else {
      assert (shares + [share])[1..] == shares[1..] + [share];
      AllLeftSnoc(shares[1..], share, c);
    }
  }

  lemma HeldByMove(cap: nat, s: Par, m: Mover, c: Chunk)
    requires Can(s, m)
    ensures Held(Move(cap, s, m), c) <= Held(s, c)
    ensures !Move(cap, s, m).cancelled ==> Held(Move(cap, s, m), c) == Held(s, c)
  {
    match m {
      case Spawn => AllLeftSnoc(s.shares, s.unborn[0], c);
      case Work(i) => HeldByWork(cap, s, i, c);
      case Fail(i, all) => HeldByDropping(s.shares, i, if all then [] else s.shares[i][1..], c);
      case Take(_) => assert s.queue == [s.queue[0]] + s.queue[1..];
      case _ =>
    }
  }

  lemma ConservedByMove(cap: nat, all: multiset<Chunk>, s: Par, m: Mover)
    requires Can(s, m) && Conserved(all, s)
    ensures Conserved(all, Move(cap, s, m))
  {
    var t := Move(cap, s, m);
    assert s.cancelled ==> t.cancelled;
    forall c ensures Held(t, c) <= all[c] && (!t.cancelled ==> Held(t, c) == all[c]) { HeldByMove(cap, s, m, c); }
  }

  lemma CountedByFinish(s: Par, i: nat)
    requires Awake(s, i) && Counted(s) && s.shares[i] == []
    ensures Counted(WorkMove(0, s, i))
  {
    CountUpdate(s.phases, i, Finished, Finished);
    CountBound(s.phases[i := Finished], Finished);
  }

  /** A worker that has not finished leaves the count as it was. */
  lemma CountedOnward(s: Par, t: Par, i: nat)
    requires Counted(s) && i < |s.phases| && !s.phases[i].Finished? && s.completed < |s.phases|
    requires |t.phases| == |s.phases| == |t.shares|
    requires t.phases == s.phases[i := t.phases[i]] && t.shares == s.shares[i := t.shares[i]]
    requires SameCounters(s, t)
    requires Count(t.phases, Finished) == Count(s.phases, Finished) && !t.phases[i].Finished?
    requires t.phases[i].Asleep? ==> t.shares[i] != [] && t.shares[i][0] != []
    requires !t.phases[i].Woken?
    ensures Counted(t)
  {
  }

  ghost predicate SameCounters(s: Par, t: Par) {
    && t.unborn == s.unborn && t.expected == s.expected && t.completed == s.completed && t.done == s.done
    && t.cancelled == s.cancelled && t.failed == s.failed && t.quit == s.quit
    && (t.consumer.Ended? <==> s.consumer.Ended?) && (t.consumer.Creating? <==> s.consumer.Creating?)
  }

  lemma CountedByWork(cap: nat, s: Par, i: nat)
    requires Awake(s, i) && Counted(s)
    ensures Counted(WorkMove(cap, s, i))
  {
    CountBound(s.phases, Finished);
    if s.shares[i] == [] {
      CountedByFinish(s, i);
    } else {
      CountUpdate(s.phases, i, WorkMove(cap, s, i).phases[i], Finished);
      CountBound(s.phases[i := WorkMove(cap, s, i).phases[i]], Finished);
      CountedOnward(s, WorkMove(cap, s, i), i);
    }
  }

  lemma CountedByFail(s: Par, i: nat, all: bool)
    requires Counted(s) && Can(s, Fail(i, all))
    ensures Counted(FailMove(s, i, all))
  {
    WakeCount(s.phases);
    CountUpdate(s.phases, i, Finished, Finished);
    CountBound(s.phases[i := Finished], Finished);
  }

  lemma {:induction false} CountSnoc(phases: seq<Phase>, p: Phase, q: Phase)
    ensures Count(phases + [p], q) == Count(phases, q) + (if p == q then 1 else 0)
  {
    if phases == [] {
      assert (phases + [p])[1..] == [];
    } else {
      assert (phases + [p])[1..] == phases[1..] + [p];
      CountSnoc(phases[1..], p, q);
    }
  }

  lemma {:induction false} WakeCount(phases: seq<Phase>)
    ensures Count(Wake(phases), Finished) == Count(phases, Finished)
    ensures Count(Wake(phases), Asleep) == 0
  {
    if phases != [] {
      assert Wake(phases)[1..] == Wake(phases[1..]);
      WakeCount(phases[1..]);
    }
  }

  lemma CountedByMove(cap: nat, s: Par, m: Mover)
    requires Can(s, m) && Counted(s)
    ensures Counted(Move(cap, s, m))
  {
    match m {
      case Spawn => CountSnoc(s.phases, Running, Finished);
      case SpawnFail => CountBound(s.phases, Finished); WakeCount(s.phases);
      case Work(i) => CountedByWork(cap, s, i);
      case Fail(i, all) => CountedByFail(s, i, all);
      case Take(w) => if Sleeper(s, w) { CountUpdate(s.phases, w, Woken, Finished); }
      case Look =>
      case Cancel => WakeCount(s.phases);
      case SpuriousWork(i) => CountUpdate(s.phases, i, Woken, Finished);
      case SpuriousTake =>
    }
  }

  lemma SleeperCount(s: Par)
    ensures AnySleeper(s) <==> Count(s.phases, Asleep) > 0
  {
    CountBound(s.phases, Asleep);
    if Asleep in s.phases { var w :| 0 <= w < |s.phases| && s.phases[w] == Asleep; assert Sleeper(s, w); }
  }

  lemma WakefulByWork(cap: nat, s: Par, i: nat)
    requires Awake(s, i) && Wakeful(cap, s) && Counted(s)
    ensures Wakeful(cap, WorkMove(cap, s, i))
  {
    var t := WorkMove(cap, s, i);
    SleeperCount(s);
    SleeperCount(t);
    CountUpdate(s.phases, i, t.phases[i], Asleep);
    CountUpdate(s.phases, i, t.phases[i], Woken);
  }

  lemma WakefulByMove(cap: nat, s: Par, m: Mover)
    requires Can(s, m) && Wakeful(cap, s) && Counted(s)
    ensures Wakeful(cap, Move(cap, s, m))
  {
    var t := Move(cap, s, m);
    SleeperCount(s);
    SleeperCount(t);
    match m {
      case Spawn => CountSnoc(s.phases, Running, Asleep); CountSnoc(s.phases, Running, Woken);
      case SpawnFail => WakeCount(s.phases);
      case Work(i) => WakefulByWork(cap, s, i);
      case Fail(_, _) => WakeCount(s.phases);
      case Take(w) =>
        if Sleeper(s, w) {
          CountUpdate(s.phases, w, Woken, Asleep);
          CountUpdate(s.phases, w, Woken, Woken);
        }
      case Look =>
      case Cancel => WakeCount(s.phases);
      case SpuriousWork(i) =>
        CountUpdate(s.phases, i, Woken, Asleep);
        CountUpdate(s.phases, i, Woken, Woken);
      case SpuriousTake =>
    }
  }

  function Everything(first: seq<Chunk>, preloaded: seq<Chunk>, shares: seq<Share>): multiset<Chunk> {
    multiset(first) + multiset(preloaded) + AllLeft(shares)
  }

  lemma {:induction false} EveryReachableState(cap: nat, first: seq<Chunk>, preloaded: seq<Chunk>, shares: seq<Share>, run: seq<Mover>)
    ensures var s := After(cap, Init(first, preloaded, shares), run);
            Conserved(Everything(first, preloaded, shares), s) && Counted(s) && Wakeful(cap, s)
  {
    var init := Init(first, preloaded, shares);
    if run == [] {
      SleeperCount(init);
      assert AllLeft([]) == multiset{};
    } else {
      var n := |run| - 1;
      EveryReachableState(cap, first, preloaded, shares, run[..n]);
      var before := After(cap, init, run[..n]);
      if Can(before, run[n]) {
        ConservedByMove(cap, Everything(first, preloaded, shares), before, run[n]);
        CountedByMove(cap, before, run[n]);
        WakefulByMove(cap, before, run[n]);
      }
    }
  }

  lemma {:induction false} NothingLeft(shares: seq<Share>)
    requires forall i :: 0 <= i < |shares| ==> shares[i] == []
    ensures AllLeft(shares) == multiset{}
  {
    if shares != [] { NothingLeft(shares[1..]); }
  }

  /** A consumer that did not give up is told there are no more chunks only when every
      worker that was created has completed and the queue is drained. By then it was given
      no chunk twice, and unless the scan counts as failed, every chunk. */
  lemma NullMeansAllDelivered(cap: nat, first: seq<Chunk>, preloaded: seq<Chunk>, shares: seq<Share>, run: seq<Mover>)
    ensures var s := After(cap, Init(first, preloaded, shares), run);
            s.consumer.Ended? && !s.quit ==>
              && s.completed == |s.phases| && s.unborn == [] && s.queue == []
              && (forall i :: 0 <= i < |s.phases| ==> s.phases[i].Finished?)
              && multiset(s.out) <= Everything(first, preloaded, shares)
              && (!s.failed ==> multiset(s.out) == Everything(first, preloaded, shares))
  {
    var s := After(cap, Init(first, preloaded, shares), run);
    var all := Everything(first, preloaded, shares);
    EveryReachableState(cap, first, preloaded, shares, run);
    if s.consumer.Ended? && !s.quit {
      CountBound(s.phases, Finished);
      NothingLeft(s.shares);
      forall c ensures multiset(s.out)[c] <= all[c] && (!s.failed ==> multiset(s.out)[c] == all[c]) {
        assert Held(s, c) == multiset(s.out)[c];
      }
    }
  }

  /** The scan has ended and every worker can be joined. */
  ghost predicate Over(s: Par) {
    s.consumer.Ended? && s.unborn == [] && forall i :: 0 <= i < |s.phases| ==> s.phases[i].Finished?
  }

  ghost predicate Spurious(m: Mover) { m.SpuriousWork? || m.SpuriousTake? }

  lemma SomeoneCanMove(cap: nat, s: Par)
    requires cap > 0 && Counted(s) && Wakeful(cap, s) && !Over(s)
    ensures exists m :: Can(s, m) && !Spurious(m)
  {
    CountBound(s.phases, Woken);
    CountBound(s.phases, Finished);
    if s.unborn != [] {
      assert Can(s, Spawn);
    } else if i :| 0 <= i < |s.phases| && Awake(s, i) {
      assert Can(s, Work(i));
    } else if Listening(s) {
      if s.queue == [] {
        assert Can(s, Look);
      } else if AnySleeper(s) {
        var w :| Sleeper(s, w);
        assert Can(s, Take(w));
      } else {
        assert Can(s, Take(0));
      }
    } else {
      NoneAwake(cap, s);
    }
  }

  /** With nobody awake and the consumer not listening, the run is over. */
  lemma NoneAwake(cap: nat, s: Par)
    requires cap > 0 && Counted(s) && Wakeful(cap, s) && !Listening(s) && s.unborn == []
    requires forall i :: 0 <= i < |s.phases| ==> !Awake(s, i)
    ensures Over(s)
  {
    CountBound(s.phases, Woken);
    CountBound(s.phases, Asleep);
    CountBound(s.phases, Finished);
    SleeperCount(s);
    forall i | 0 <= i < |s.phases| ensures s.phases[i].Asleep? || s.phases[i].Finished? { assert !Awake(s, i); }
    assert Woken !in s.phases;
    if s.consumer.Dozing? {
      assert !AnySleeper(s);
      assert forall i :: 0 <= i < |s.phases| ==> !Sleeper(s, i);
      AllFinished(s.phases);
      assert false;
    }
    assert forall i :: 0 <= i < |s.phases| ==> (s.phases[i].Asleep? <==> Sleeper(s, i));
  }

  lemma {:induction false} AllFinished(phases: seq<Phase>)
    requires forall i :: 0 <= i < |phases| ==> phases[i].Finished?
    ensures Count(phases, Finished) == |phases|
  {
    if phases != [] { AllFinished(phases[1..]); }
  }

  /** No reachable state is stuck: until the consumer has ended and every worker can be
      joined, some thread can move without a spurious wake-up. */
  lemma NeverStuck(cap: nat, first: seq<Chunk>, preloaded: seq<Chunk>, shares: seq<Share>, run: seq<Mover>)
    requires cap > 0
    ensures var s := After(cap, Init(first, preloaded, shares), run);
            Over(s) || exists m :: Can(s, m) && !Spurious(m)
  {
    EveryReachableState(cap, first, preloaded, shares, run);
    var s := After(cap, Init(first, preloaded, shares), run);
    if !Over(s) { SomeoneCanMove(cap, s); }
  }

  // ---- Every run ends ----

  function Units(share: Share): nat {
    if share == [] then 0 else 1 + |share[0]| + Units(share[1..])
  }

  function AllUnits(shares: seq<Share>): nat {
    if shares == [] then 0 else Units(shares[0]) + AllUnits(shares[1..])
  }

  lemma {:induction false} AllUnitsUpdate(shares: seq<Share>, i: nat, share: Share)
    requires i < |shares|
    ensures AllUnits(shares[i := share]) + Units(shares[i]) == AllUnits(shares) + Units(share)
  {
    if i == 0 {
      assert shares[0 := share][1..] == shares[1..];
    } else {
      assert shares[i := share][1..] == shares[1..][i - 1 := share];
      AllUnitsUpdate(shares[1..], i - 1, share);
    }
  }

  function Effort(p: Phase): nat {
    match p case Finished => 0 case Asleep => 8 case Running => 9 case Woken => 9
  }

  function Efforts(phases: seq<Phase>): nat {
    if phases == [] then 0 else Effort(phases[0]) + Efforts(phases[1..])
  }

  lemma {:induction false} EffortsUpdate(phases: seq<Phase>, i: nat, to: Phase)
    requires i < |phases|
    ensures Efforts(phases[i := to]) + Effort(phases[i]) == Efforts(phases) + Effort(to)
  {
    if i == 0 {
      assert phases[0 := to][1..] == phases[1..];
    } else {
      assert phases[i := to][1..] == phases[1..][i - 1 := to];
      EffortsUpdate(phases[1..], i - 1, to);
    }
  }

  lemma {:induction false} WakeEfforts(phases: seq<Phase>)
    ensures Efforts(Wake(phases)) <= Efforts(phases) + |phases|
  {
    if phases != [] {
      assert Wake(phases)[1..] == Wake(phases[1..]);
      WakeEfforts(phases[1..]);
    }
  }

  function Attention(c: Consumer): nat {
    match c case Ended => 0 case Dozing => 1 case _ => 2
  }

  function Measure(s: Par): nat {
    8 * AllUnits(s.shares) + 8 * AllUnits(s.unborn) + 11 * |s.unborn| + 3 * |s.queue|
    + Efforts(s.phases) + Attention(s.consumer)
    + if s.cancelled then 0 else |s.phases|
  }

  /** What a turn of worker i that does not change who waits costs and saves. */
  lemma TurnShrinks(s: Par, t: Par, i: nat)
    requires i < |s.phases| == |s.shares| && |t.phases| == |s.phases| && |t.shares| == |s.shares|
    requires t.phases == s.phases[i := t.phases[i]] && t.shares == s.shares[i := t.shares[i]]
    requires t.unborn == s.unborn && t.cancelled == s.cancelled
    requires 8 * Units(t.shares[i]) + 3 * |t.queue| + Effort(t.phases[i]) + Attention(t.consumer)
           < 8 * Units(s.shares[i]) + 3 * |s.queue| + Effort(s.phases[i]) + Attention(s.consumer)
    ensures Measure(t) < Measure(s)
  {
    EffortsUpdate(s.phases, i, t.phases[i]);
    AllUnitsUpdate(s.shares, i, t.shares[i]);
  }

  lemma WorkShrinks(cap: nat, s: Par, i: nat)
    requires Awake(s, i) && Counted(s)
    ensures Measure(WorkMove(cap, s, i)) < Measure(s)
  {
    if s.shares[i] != [] { UnitsShrink(s.shares[i]); }
    TurnShrinks(s, WorkMove(cap, s, i), i);
  }

  lemma UnitsShrink(share: Share)
    requires share != []
    ensures Units(share[1..]) < Units(share)
    ensures share[0] != [] ==> Units([[]] + share[1..]) < Units(share)
    ensures share[0] != [] ==> Units([share[0][1..]] + share[1..]) < Units(share)
  {
    assert ([[]] + share[1..])[1..] == share[1..];
    if share[0] != [] { assert ([share[0][1..]] + share[1..])[1..] == share[1..]; }
  }

  lemma {:induction false} UnitsSnoc(shares: seq<Share>, share: Share)
    ensures AllUnits(shares + [share]) == AllUnits(shares) + Units(share)
  {
    if shares == [] {
      assert (shares + [share])[1..] == [];
    } else {
      assert (shares + [share])[1..] == shares[1..] + [share];
      UnitsSnoc(shares[1..], share);
    }
  }

  lemma {:induction false} EffortsSnoc(phases: seq<Phase>, p: Phase)
    ensures Efforts(phases + [p]) == Efforts(phases) + Effort(p)
  {
    if phases == [] {
      assert (phases + [p])[1..] == [];
    } else {
      assert (phases + [p])[1..] == phases[1..] + [p];
      EffortsSnoc(phases[1..], p);
    }
  }

  /** Waking everybody costs at most what cancelling saves. */
  lemma WakeCosts(cap: nat, s: Par)
    requires Wakeful(cap, s)
    ensures Efforts(Wake(s.phases)) <= Efforts(s.phases) + if s.cancelled then 0 else |s.phases|
  {
    WakeEfforts(s.phases);
    if s.cancelled {
      forall i | 0 <= i < |s.phases| ensures Wake(s.phases)[i] == s.phases[i] { assert !Sleeper(s, i); }
      assert Wake(s.phases) == s.phases;
    }
  }

  lemma FailShrinks(cap: nat, s: Par, i: nat, all: bool)
    requires Can(s, Fail(i, all)) && Wakeful(cap, s)
    ensures Measure(FailMove(s, i, all)) < Measure(s)
  {
    WakeCosts(cap, s);
    UnitsShrink(s.shares[i]);
    AllUnitsUpdate(s.shares, i, if all then [] else s.shares[i][1..]);
  }

  lemma MoveShrinks(cap: nat, s: Par, m: Mover)
    requires Can(s, m) && !Spurious(m) && Wakeful(cap, s) && Counted(s)
    ensures Measure(Move(cap, s, m)) < Measure(s)
  {
    match m {
      case Spawn => UnitsSnoc(s.shares, s.unborn[0]); EffortsSnoc(s.phases, Running);
      case SpawnFail => WakeCosts(cap, s);
      case Work(i) => WorkShrinks(cap, s, i);
      case Fail(i, all) => FailShrinks(cap, s, i, all);
      case Take(w) => if Sleeper(s, w) { EffortsUpdate(s.phases, w, Woken); }
      case Look =>
      case Cancel => WakeCosts(cap, s);
    }
  }

  /** Every step of the schedule is a real one, made without a spurious wake-up. */
  ghost predicate Genuine(cap: nat, s: Par, run: seq<Mover>) {
    run != [] ==>
      var n := |run| - 1;
      Genuine(cap, s, run[..n]) && Can(After(cap, s, run[..n]), run[n]) && !Spurious(run[n])
  }

  /** A run without spurious wake-ups is never longer than a bound fixed by the work. */
  lemma {:induction false} EveryRunEnds(cap: nat, first: seq<Chunk>, preloaded: seq<Chunk>, shares: seq<Share>, run: seq<Mover>)
    requires Genuine(cap, Init(first, preloaded, shares), run)
    ensures |run| + Measure(After(cap, Init(first, preloaded, shares), run)) <= Measure(Init(first, preloaded, shares))
  {
    if run != [] {
      var n := |run| - 1;
      EveryRunEnds(cap, first, preloaded, shares, run[..n]);
      EveryReachableState(cap, first, preloaded, shares, run[..n]);
      MoveShrinks(cap, After(cap, Init(first, preloaded, shares), run[..n]), run[n]);
    }
  }
}
