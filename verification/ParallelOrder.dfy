/** The parallel scan keeps order where there is one: what the root pass found comes first,
    and the chunks of each worker are delivered in the order it made them. */
module ParallelOrder {
  import opened SourceTree
  import opened ParallelScan

  /** `a` is `b` with some elements left out. */
  ghost predicate Sub(a: seq<Chunk>, b: seq<Chunk>) {
    || a == []
    || (b != [] && (|| (a[|a| - 1] == b[|b| - 1] && Sub(a[..|a| - 1], b[..|b| - 1]))
                    || Sub(a, b[..|b| - 1])))
  }

  lemma SubSnoc(a: seq<Chunk>, b: seq<Chunk>, x: Chunk)
    requires Sub(a, b)
    ensures Sub(a + [x], b + [x]) && Sub(a, b + [x])
  {
    assert (a + [x])[..|a|] == a && (b + [x])[..|b|] == b;
  }

  /** The chunks of a share, in order. */
  function Flat(share: Share): seq<Chunk> { if share == [] then [] else share[0] + Flat(share[1..]) }

  /** What has come out of the workers so far, delivered or queued. */
  function Stream(s: Par): seq<Chunk> { s.out + s.queue }

  /** Worker i has handed over `done`, in order; until the scan is cancelled that and what it
      still has make up its share. */
  ghost predicate HandedOver(share: Share, left: Share, cancelled: bool, stream: seq<Chunk>, done: seq<Chunk>) {
    Sub(done, stream) && done <= Flat(share) && (!cancelled ==> Flat(share) == done + Flat(left))
  }

  ghost predicate InStep(all: seq<Share>, s: Par, done: seq<seq<Chunk>>) {
    && |done| == |s.shares| <= |all|
    && (s.unborn != [] ==> s.unborn == all[|s.shares|..])
    && (!s.cancelled && s.unborn == [] ==> |s.shares| == |all|)
    && forall i :: 0 <= i < |done| ==> HandedOver(all[i], s.shares[i], s.cancelled, Stream(s), done[i])
  }

  /** Nothing handed over: the share may change only in form, or after cancellation. */
  lemma NothingHanded(all: seq<Share>, s: Par, t: Par, i: nat, left: Share, done: seq<seq<Chunk>>)
    requires InStep(all, s, done) && i < |s.shares| && t.shares == s.shares[i := left] && t.unborn == s.unborn
    requires t.cancelled == s.cancelled && Stream(t) == Stream(s) && (!s.cancelled ==> Flat(left) == Flat(s.shares[i]))
    ensures InStep(all, t, done)
  {
  }

  lemma ChunkHanded(all: seq<Share>, s: Par, t: Par, i: nat, left: Share, x: Chunk, done: seq<seq<Chunk>>)
    requires InStep(all, s, done) && i < |s.shares| && t.shares == s.shares[i := left] && t.unborn == s.unborn
    requires !s.cancelled && !t.cancelled && Stream(t) == Stream(s) + [x] && Flat(s.shares[i]) == [x] + Flat(left)
    ensures InStep(all, t, done[i := done[i] + [x]])
  {
    var next := done[i := done[i] + [x]];
    forall j | 0 <= j < |next| ensures HandedOver(all[j], t.shares[j], t.cancelled, Stream(t), next[j]) {
      SubSnoc(done[j], Stream(s), x);
      if j == i { assert Flat(all[i]) == done[i] + [x] + Flat(left); }
    }
  }

  lemma WorkInStep(cap: nat, all: seq<Share>, s: Par, i: nat, done: seq<seq<Chunk>>) returns (next: seq<seq<Chunk>>)
    requires InStep(all, s, done) && Awake(s, i)
    ensures InStep(all, WorkMove(cap, s, i), next) && Stream(s) <= Stream(WorkMove(cap, s, i))
  {
    var share, t := s.shares[i], WorkMove(cap, s, i);
    next := done;
    if share == [] {
      assert s.shares[i := share] == s.shares;
      NothingHanded(all, s, t, i, share, done);
    } else if share[0] == [] {
      NothingHanded(all, s, t, i, share[1..], done);
    } else if s.cancelled {
      NothingHanded(all, s, t, i, [[]] + share[1..], done);
    } else if |s.queue| >= cap {
      assert s.shares[i := share] == s.shares;
      NothingHanded(all, s, t, i, share, done);
    } else {
      Uncons(share);
      assert Stream(t) == Stream(s) + [share[0][0]];
      ChunkHanded(all, s, t, i, [share[0][1..]] + share[1..], share[0][0], done);
      next := done[i := done[i] + [share[0][0]]];
    }
  }

  lemma Uncons(share: Share)
    requires share != [] && share[0] != []
    ensures Flat(share) == [share[0][0]] + Flat([share[0][1..]] + share[1..])
  {
    var rest := [share[0][1..]] + share[1..];
    assert rest[1..] == share[1..] && share[0] == [share[0][0]] + share[0][1..];
  }

  lemma SpawnInStep(all: seq<Share>, s: Par, done: seq<seq<Chunk>>) returns (next: seq<seq<Chunk>>)
    requires InStep(all, s, done) && s.unborn != []
    ensures InStep(all, SpawnMove(s), next) && Stream(SpawnMove(s)) == Stream(s)
  {
    next := done + [[]];
    var n := |s.shares|;
    assert s.unborn[0] == all[n] && s.unborn[1..] == all[n + 1..] && [] + Flat(all[n]) == Flat(all[n]);
  }

  lemma MoveInStep(cap: nat, all: seq<Share>, s: Par, m: Mover, done: seq<seq<Chunk>>) returns (next: seq<seq<Chunk>>)
    requires InStep(all, s, done) && Can(s, m)
    ensures InStep(all, Move(cap, s, m), next) && Stream(s) <= Stream(Move(cap, s, m))
  {
    next := done;
    match m {
      case Work(i) => next := WorkInStep(cap, all, s, i, done);
      case Spawn => next := SpawnInStep(all, s, done);
      case Take(w) => assert Stream(TakeMove(s, w)) == Stream(s);
      case SpawnFail =>
      case Fail(i, every) =>
      case Look =>
      case Cancel =>
      case SpuriousWork(i) =>
      case SpuriousTake =>
    }
  }

  /** In every reachable state each worker's chunks have come out in its order, after what the
      root pass found. */
  lemma {:induction false} EveryStateInOrder(cap: nat, first: seq<Chunk>, preloaded: seq<Chunk>, shares: seq<Share>, run: seq<Mover>)
    returns (done: seq<seq<Chunk>>)
    ensures var s := After(cap, Init(first, preloaded, shares), run);
            InStep(shares, s, done) && first + preloaded <= Stream(s)
  {
    if run == [] {
      done := [];
      assert shares[0..] == shares;
    } else {
      var n := |run| - 1;
      done := EveryStateInOrder(cap, first, preloaded, shares, run[..n]);
      var before := After(cap, Init(first, preloaded, shares), run[..n]);
      if Can(before, run[n]) { done := MoveInStep(cap, shares, before, run[n], done); }
    }
  }

  /** A scan that ends well delivered first what the root pass found, in order, and of each
      worker all chunks in the order it made them. */
  lemma DeliveredInOrder(cap: nat, first: seq<Chunk>, preloaded: seq<Chunk>, shares: seq<Share>, run: seq<Mover>, i: nat)
    requires var s := After(cap, Init(first, preloaded, shares), run); s.consumer.Ended? && !s.quit && !s.failed
    requires i < |shares|
    ensures var s := After(cap, Init(first, preloaded, shares), run);
            first + preloaded <= s.out && Sub(Flat(shares[i]), s.out)
  {
    var s := After(cap, Init(first, preloaded, shares), run);
    var done := EveryStateInOrder(cap, first, preloaded, shares, run);
    EveryReachableState(cap, first, preloaded, shares, run);
    NullMeansAllDelivered(cap, first, preloaded, shares, run);
    assert s.queue == [] && Stream(s) == s.out && s.shares[i] == [] && done[i] + [] == done[i];
  }
}
