/** The parallel scan covers what the sequential scan covers. */
module ParallelCoverage {
  import opened FilterChain
  import opened SourceTree
  import opened ScanOrder
  import opened Scanner
  import opened ParallelSplit
  import opened ParallelScan

  /** The options under which the two scans agree: no depth limit and no listing of
      directories. */
  predicate Comparable(o: Options) { o.maxDepth <= 0 && !o.listDirs }

  // ---- Without a depth limit the depth does not matter ----

  lemma EntryAnyDepth(o: Options, rel: Path, d1: nat, d2: nat, node: Chain, e: Entry)
    requires o.maxDepth <= 0
    ensures EntryEvents(o, rel, d1, node, e) == EntryEvents(o, rel, d2, node, e)
    ensures Produces(o, rel, d1, node, e) == Produces(o, rel, d2, node, e)
    ensures Descends(o, rel, d1, node, e) == Descends(o, rel, d2, node, e)
  {
  }

  lemma {:induction false} EntriesAnyDepth(o: Options, rel: Path, d1: nat, d2: nat, node: Chain, es: seq<Entry>)
    requires o.maxDepth <= 0
    ensures Inline(o, rel, d1, node, es) == Inline(o, rel, d2, node, es)
    ensures AnyProduces(o, rel, d1, node, es) == AnyProduces(o, rel, d2, node, es)
    ensures SpotsEvents(o, Kids(o, rel, d1, node, es)) == SpotsEvents(o, Kids(o, rel, d2, node, es))
    decreases Weights(es), |es|
  {
    if es != [] {
      EntriesAnyDepth(o, rel, d1, d2, node, es[1..]);
      EntryAnyDepth(o, rel, d1, d2, node, es[0]);
      KidAnyDepth(o, rel, d1, d2, node, es[0]);
      SpotsConcat(o, Kid(o, rel, d1, node, es[0]), Kids(o, rel, d1, node, es[1..]));
      SpotsConcat(o, Kid(o, rel, d2, node, es[0]), Kids(o, rel, d2, node, es[1..]));
    }
  }

  lemma {:induction false} KidAnyDepth(o: Options, rel: Path, d1: nat, d2: nat, node: Chain, e: Entry)
    requires o.maxDepth <= 0
    ensures SpotsEvents(o, Kid(o, rel, d1, node, e)) == SpotsEvents(o, Kid(o, rel, d2, node, e))
    decreases (if e.SubDir? then Weight(e.dir) else 0), 1
  {
    if Descends(o, rel, d1, node, e) {
      var k1, k2 := Kid(o, rel, d1, node, e), Kid(o, rel, d2, node, e);
      AnyDepth(o, k1[0], d2 + 1);
      assert k1[1..] == [] && k2[1..] == [];
      assert k1[0].(depth := d2 + 1) == k2[0];
      assert SpotsEvents(o, k1) == DirEvents(o, k1[0]) + SpotsEvents(o, k1[1..]);
      assert SpotsEvents(o, k2) == DirEvents(o, k2[0]) + SpotsEvents(o, k2[1..]);
    }
  }

  lemma {:induction false} AnyDepth(o: Options, s: Spot, d: nat)
    requires o.maxDepth <= 0
    ensures DirEvents(o, s.(depth := d)) == DirEvents(o, s)
    decreases Weight(s.dir), 0
  {
    if s.dir.readable {
      SortWeights(s.dir.entries);
      EntriesAnyDepth(o, s.rel, s.depth, d, Node(s), Sort(s.dir.entries));
      assert Node(s.(depth := d)) == Node(s);
    }
  }

  // ---- The order of the root directory does not matter ----

  /** Everything the entries of the root and the directories below them give rise to. */
  function Tally(o: Options, node: Chain, es: seq<Entry>): multiset<Event> {
    multiset(Inline(o, [], 0, node, es)) + multiset(SpotsEvents(o, Kids(o, [], 0, node, es)))
  }

  function TallyOne(o: Options, node: Chain, e: Entry): multiset<Event> {
    multiset(EntryEvents(o, [], 0, node, e)) + multiset(SpotsEvents(o, Kid(o, [], 0, node, e)))
  }

  lemma TallyStep(o: Options, node: Chain, es: seq<Entry>)
    requires es != []
    ensures Tally(o, node, es) == TallyOne(o, node, es[0]) + Tally(o, node, es[1..])
  {
    SpotsConcat(o, Kid(o, [], 0, node, es[0]), Kids(o, [], 0, node, es[1..]));
  }

  lemma {:induction false} TallyInsert(o: Options, node: Chain, e: Entry, es: seq<Entry>)
    ensures Tally(o, node, Insert(e, es)) == TallyOne(o, node, e) + Tally(o, node, es)
  {
    var r := Insert(e, es);
    TallyStep(o, node, r);
    if es == [] || Before(e, es[0]) {
      assert r[1..] == es;
    } else {
      assert r[1..] == Insert(e, es[1..]);
      TallyInsert(o, node, e, es[1..]);
      TallyStep(o, node, es);
    }
  }

  lemma {:induction false} TallySort(o: Options, node: Chain, es: seq<Entry>)
    ensures Tally(o, node, Sort(es)) == Tally(o, node, es)
  {
    if es != [] {
      TallySort(o, node, es[1..]);
      TallyInsert(o, node, es[0], Sort(es[1..]));
      TallyStep(o, node, es);
    }
  }

  /** The sequential scan of the root gives rise to the same, whatever the order. */
  lemma RootTally(o: Options, root: Dir)
    requires root.readable
    ensures multiset(DirEvents(o, Spot(root, [], 0, Root))) == Tally(o, Context(Root, root.own), root.entries)
  {
    TallySort(o, Context(Root, root.own), root.entries);
  }

  lemma {:induction false} EmittedCount(ev: seq<Event>, i: Item)
    ensures multiset(Emitted(ev))[i] == multiset(ev)[Emit(i)]
  {
    if ev != [] {
      var n := |ev| - 1;
      EmittedCount(ev[..n], i);
      assert ev == ev[..n] + [ev[n]];
    }
  }

  // ---- Chunks in any order hold the same items ----

  lemma {:induction false} JoinedConcat<T>(a: seq<seq<T>>, b: seq<seq<T>>)
    ensures Joined(a + b) == Joined(a) + Joined(b)
  {
    if b == [] {
      assert a + b == a;
    } else {
      var n := |b| - 1;
      JoinedConcat(a, b[..n]);
      assert (a + b)[..|a + b| - 1] == a + b[..n];
    }
  }

  lemma JoinedFirst<T>(part: seq<T>, parts: seq<seq<T>>)
    ensures Joined([part] + parts) == part + Joined(parts)
  {
    JoinedConcat([part], parts);
    assert [part][..0] == [];
  }

  lemma Removed(a: seq<Chunk>, b: seq<Chunk>, i: nat)
    requires a != [] && i < |b| && b[i] == a[0] && multiset(a) == multiset(b)
    ensures multiset(b[..i] + b[i + 1..]) == multiset(a[1..])
  {
    assert a == [a[0]] + a[1..] && b == b[..i] + [b[i]] + b[i + 1..];
    assert multiset(a[1..]) == multiset(a) - multiset{a[0]};
    assert multiset(b[..i] + b[i + 1..]) == multiset(b) - multiset{b[i]};
  }

  lemma {:induction false} JoinedPermuted(a: seq<Chunk>, b: seq<Chunk>)
    requires multiset(a) == multiset(b)
    ensures multiset(Joined(a)) == multiset(Joined(b))
  {
    if a == [] {
      assert |multiset(b)| == 0;
    } else {
      assert a[0] in multiset(b);
      var i :| 0 <= i < |b| && b[i] == a[0];
      var rest := b[..i] + b[i + 1..];
      assert a == [a[0]] + a[1..] && b == b[..i] + ([b[i]] + b[i + 1..]);
      Removed(a, b, i);
      JoinedPermuted(a[1..], rest);
      JoinedFirst(a[0], a[1..]);
      JoinedConcat(b[..i], [b[i]] + b[i + 1..]);
      JoinedFirst(b[i], b[i + 1..]);
      JoinedConcat(b[..i], b[i + 1..]);
    }
  }

  // ---- What the workers deliver ----

  /** A worker's chunks are what scanning each of its directories sends. */
  ghost predicate Scans(o: Options, dirs: seq<Spot>, share: Share) {
    && |share| == |dirs|
    && forall i :: 0 <= i < |dirs| ==> Joined(share[i]) == Emitted(DirEvents(o, dirs[i]))
  }

  lemma {:induction false} ShareItems(o: Options, dirs: seq<Spot>, share: Share)
    requires Scans(o, dirs, share)
    ensures Joined(Joined(share)) == Emitted(SpotsEvents(o, dirs))
    ensures multiset(Joined(share)) == Left(share)
  {
    if dirs != [] {
      assert Scans(o, dirs[1..], share[1..]);
      ShareItems(o, dirs[1..], share[1..]);
      FirstShare(share);
      EmittedConcat(DirEvents(o, dirs[0]), SpotsEvents(o, dirs[1..]));
    }
  }

  lemma FirstShare(share: Share)
    requires share != []
    ensures Joined(share) == share[0] + Joined(share[1..])
    ensures Joined(Joined(share)) == Joined(share[0]) + Joined(Joined(share[1..]))
  {
    assert share == [share[0]] + share[1..];
    JoinedFirst(share[0], share[1..]);
    JoinedConcat(share[0], Joined(share[1..]));
  }

  /** A worker: one scanner after another, each starting at depth 0 in a directory of its
      own; what it sends goes to the queue chunk by chunk, what it shields to the sinks. */
  method RunWorker(o: Options, dirs: seq<Spot>) returns (share: Share, record: seq<Event>)
    ensures Scans(o, dirs, share) && record == SpotsEvents(o, dirs)
  {
    share, record := [], [];
    var i := 0;
    assert dirs[..0] == [];
    while i < |dirs|
      invariant 0 <= i <= |dirs| && Scans(o, dirs[..i], share)
      invariant record == SpotsEvents(o, dirs[..i])
    {
      var chunks, done, failed := ScanFrom(o, dirs[i]);
      assert dirs[..i + 1] == dirs[..i] + [dirs[i]];
      SpotsConcat(o, dirs[..i], [dirs[i]]);
      OneSpot(o, dirs[i]);
      share, record := share + [chunks], record + done;
      i := i + 1;
    }
    assert dirs[..i] == dirs;
  }

  lemma OneSpot(o: Options, d: Spot)
    ensures SpotsEvents(o, [d]) == DirEvents(o, d)
  {
    assert [d][1..] == [] && SpotsEvents(o, [d][1..]) == [];
    assert DirEvents(o, d) + [] == DirEvents(o, d);
  }

  function FlatShares(shares: seq<Share>): seq<Chunk> {
    if shares == [] then [] else Joined(shares[0]) + FlatShares(shares[1..])
  }

  lemma {:induction false} SharesItems(o: Options, dirs: seq<seq<Spot>>, shares: seq<Share>)
    requires |dirs| == |shares| && forall i :: 0 <= i < |dirs| ==> Scans(o, dirs[i], shares[i])
    ensures Joined(FlatShares(shares)) == Emitted(SpotsEvents(o, Joined(dirs)))
    ensures multiset(FlatShares(shares)) == AllLeft(shares)
  {
    if dirs != [] {
      SharesItems(o, dirs[1..], shares[1..]);
      ShareItems(o, dirs[0], shares[0]);
      assert dirs == [dirs[0]] + dirs[1..];
      JoinedFirst(dirs[0], dirs[1..]);
      SpotsConcat(o, dirs[0], Joined(dirs[1..]));
      EmittedConcat(SpotsEvents(o, dirs[0]), SpotsEvents(o, Joined(dirs[1..])));
      JoinedConcat(Joined(shares[0]), FlatShares(shares[1..]));
    }
  }

  // ---- Preparing a parallel scan ----

  /** What a root entry is sent as: at the root neither a depth limit nor a listing of
      directories is looked at. */
  function RootSent(o: Options, node: Chain, e: Entry): seq<Item> {
    if e.Passed? || !o.select(node, SourceTree.Subject([], e)).passes then []
    else if e.Leaf? then (if e.unsupported then [] else [Item([e.name], false, e.size)])
    else if e.mountPoint && o.oneFileSystem == 1 then [Item([e.name], true, 0)] else []
  }

  /** The directory a root entry gives a worker to start from. */
  function RootKid(o: Options, node: Chain, e: Entry): seq<Spot> {
    if e.SubDir? && o.select(node, SourceTree.Subject([], e)).passes && !(e.mountPoint && o.oneFileSystem > 0)
    then [Spot(e.dir, [e.name], 0, node)] else []
  }

  function RootItems(o: Options, node: Chain, es: seq<Entry>): seq<Item> {
    if es == [] then [] else RootSent(o, node, es[0]) + RootItems(o, node, es[1..])
  }

  function RootKids(o: Options, node: Chain, es: seq<Entry>): seq<Spot> {
    if es == [] then [] else RootKid(o, node, es[0]) + RootKids(o, node, es[1..])
  }

  function RootGuards(o: Options, node: Chain, es: seq<Entry>): seq<Event> {
    if es == [] then [] else Guards(o, [], node, es[0]) + RootGuards(o, node, es[1..])
  }

  /** Under comparable options the root's own part is that of the sequential scan. */
  lemma {:induction false} RootPart(o: Options, node: Chain, es: seq<Entry>)
    requires Comparable(o)
    ensures RootItems(o, node, es) == Emitted(Inline(o, [], 0, node, es))
    ensures SpotsEvents(o, RootKids(o, node, es)) == SpotsEvents(o, Kids(o, [], 0, node, es))
    ensures RootGuards(o, node, es) == Quiet(Inline(o, [], 0, node, es))
  {
    if es != [] {
      RootPart(o, node, es[1..]);
      EntryPart(o, node, es[0]);
      EmittedConcat(EntryEvents(o, [], 0, node, es[0]), Inline(o, [], 0, node, es[1..]));
      QuietConcat(EntryEvents(o, [], 0, node, es[0]), Inline(o, [], 0, node, es[1..]));
      SpotsConcat(o, RootKid(o, node, es[0]), RootKids(o, node, es[1..]));
      SpotsConcat(o, Kid(o, [], 0, node, es[0]), Kids(o, [], 0, node, es[1..]));
    }
  }

  lemma EntryPart(o: Options, node: Chain, e: Entry)
    requires Comparable(o)
    ensures RootSent(o, node, e) == Emitted(EntryEvents(o, [], 0, node, e))
    ensures SpotsEvents(o, RootKid(o, node, e)) == SpotsEvents(o, Kid(o, [], 0, node, e))
    ensures Guards(o, [], node, e) == Quiet(EntryEvents(o, [], 0, node, e))
  {
    assert [] + [e.name] == [e.name];
    EntryEmits(o, node, e);
    var guards := Guards(o, [], node, e);
    AllQuiet(guards);
    if Sent(o, [], 0, node, e) != [] { QuietConcat(guards, [Emit(Sent(o, [], 0, node, e)[0])]); }
    if RootKid(o, node, e) != [] {
      var k := RootKid(o, node, e)[0];
      AnyDepth(o, k, 1);
      OneSpot(o, k);
      OneSpot(o, k.(depth := 1));
      assert Kid(o, [], 0, node, e) == [k.(depth := 1)];
    }
  }

  /** What is not sent: shields and errors. */
  function Quiet(ev: seq<Event>): (q: seq<Event>)
    ensures forall e <- q :: !e.Emit?
  {
    if ev == [] then [] else (if ev[0].Emit? then [] else [ev[0]]) + Quiet(ev[1..])
  }

  lemma {:induction false} QuietConcat(a: seq<Event>, b: seq<Event>)
    ensures Quiet(a + b) == Quiet(a) + Quiet(b)
  {
    if a == [] {
      assert a + b == b;
    } else {
      assert (a + b)[1..] == a[1..] + b;
      QuietConcat(a[1..], b);
    }
  }

  lemma {:induction false} AllQuiet(ev: seq<Event>)
    requires forall e <- ev :: !e.Emit?
    ensures Quiet(ev) == ev
  {
    if ev != [] { AllQuiet(ev[1..]); }
  }

  lemma {:induction false} QuietCount(ev: seq<Event>, x: Event)
    ensures multiset(Quiet(ev))[x] == if x.Emit? then 0 else multiset(ev)[x]
  {
    if ev != [] {
      QuietCount(ev[1..], x);
      assert ev == [ev[0]] + ev[1..];
    }
  }

  lemma EntryEmits(o: Options, node: Chain, e: Entry)
    ensures Emitted(EntryEvents(o, [], 0, node, e)) == Sent(o, [], 0, node, e)
  {
    var guards, sent := Guards(o, [], node, e), Sent(o, [], 0, node, e);
    NothingSent(guards);
    GuardsAndSent(guards, sent, EntryEvents(o, [], 0, node, e));
  }

  lemma GuardsAndSent(guards: seq<Event>, sent: seq<Item>, both: seq<Event>)
    requires |sent| <= 1 && both == (if sent == [] then guards else guards + [Emit(sent[0])])
    requires Emitted(guards) == []
    ensures Emitted(both) == sent
  {
    if sent != [] {
      SentOne(guards, Emit(sent[0]));
      assert sent == [sent[0]];
    }
  }

  /** scan_root_entry: shield it, take it as a root file, or keep it for a worker. */
  method ScanRootEntry(o: Options, node: Chain, e: Entry) returns (record: seq<Event>, files: seq<Item>, subdirs: seq<Spot>)
    ensures record == Guards(o, [], node, e)
    ensures files == RootSent(o, node, e)
    ensures subdirs == RootKid(o, node, e)
  {
    record, files, subdirs := [], [], [];
    var path := [e.name];
    assert [] + [e.name] == path;
    if e.Passed? {
      if e.referentError {
        record := record + [IoError];
      }
      if e.excluded {
        record := record + [if e.sizeExcluded then ShieldSize(path) else Shield(path)];
      }
      return;
    }
    var v := o.select(node, SourceTree.Subject([], e));
    if !v.passes || v.protect {
      record := record + [Shield(path)];
    }
    if !v.passes {
      return;
    }
    if e.SubDir? {
      if e.mountPoint && o.oneFileSystem > 0 {
        if o.oneFileSystem > 1 {
          return;
        }
        files := [Item(path, true, 0)];
        return;
      }
      subdirs := [Spot(e.dir, path, 0, node)];
      return;
    }
    if !e.unsupported {
      files := [Item(path, false, e.size)];
    }
  }

  /** scan_root_directory */
  method ScanRoot(o: Options, node: Chain, es: seq<Entry>) returns (record: seq<Event>, files: seq<Item>, subdirs: seq<Spot>)
    ensures record == RootGuards(o, node, es)
    ensures files == RootItems(o, node, es)
    ensures subdirs == RootKids(o, node, es)
  {
    record, files, subdirs := [], [], [];
    var i := 0;
    assert es[0..] == es;
    while i < |es|
      invariant 0 <= i <= |es|
      invariant record + RootGuards(o, node, es[i..]) == RootGuards(o, node, es)
      invariant files + RootItems(o, node, es[i..]) == RootItems(o, node, es)
      invariant subdirs + RootKids(o, node, es[i..]) == RootKids(o, node, es)
    {
      var r, f, d := ScanRootEntry(o, node, es[i]);
      assert es[i..][1..] == es[i + 1..];
      Regrouped(record, r, RootGuards(o, node, es[i + 1..]));
      Regrouped(files, f, RootItems(o, node, es[i + 1..]));
      Regrouped(subdirs, d, RootKids(o, node, es[i + 1..]));
      record, files, subdirs := record + r, files + f, subdirs + d;
      i := i + 1;
    }
  }

  lemma Regrouped<T>(a: seq<T>, b: seq<T>, c: seq<T>)
    ensures a + (b + c) == (a + b) + c
  {
  }

  /** parallel_scanner_create: root files cut into chunks, the first set aside and the
      rest queued, and the root's subdirectories shared out. */
  method Prepare(o: Options, root: Dir, threads: int)
    returns (first: seq<Chunk>, preloaded: seq<Chunk>, dirs: seq<seq<Spot>>, record: seq<Event>)
    ensures var node := Context(Root, root.own);
            && record == RootGuards(o, node, root.entries)
            && Joined(first + preloaded) == RootItems(o, node, root.entries)
            && Joined(dirs) == RootKids(o, node, root.entries)
    ensures |first| <= 1 && forall i :: 0 <= i < |dirs| ==> dirs[i] != []
  {
    var node := Context(Root, root.own);
    var files, subdirs;
    record, files, subdirs := ScanRoot(o, node, root.entries);
    var slots := new Slot<Item>[|files|](i requires 0 <= i < |files| => Full(files[i]));
    HeldAt(slots[..]);
    assert ParallelSplit.Held(slots[..]) == files;
    var chunks := BatchFiles(slots, o.chunkSize);
    first, preloaded := chunks, [];
    if |chunks| > 1 {
      first, preloaded := chunks[..1], chunks[1..];
    }
    assert first + preloaded == chunks;
    dirs := ShareOut(subdirs, threads);
  }

  /** Every worker over its own directories. */
  method RunWorkers(o: Options, dirs: seq<seq<Spot>>) returns (shares: seq<Share>, record: seq<Event>)
    ensures |shares| == |dirs| && forall i :: 0 <= i < |dirs| ==> Scans(o, dirs[i], shares[i])
    ensures record == SpotsEvents(o, Joined(dirs))
  {
    shares, record := [], [];
    var i := 0;
    assert dirs[..0] == [];
    while i < |dirs|
      invariant 0 <= i <= |dirs| && |shares| == i
      invariant forall k :: 0 <= k < i ==> Scans(o, dirs[k], shares[k])
      invariant record == SpotsEvents(o, Joined(dirs[..i]))
    {
      var share, done := RunWorker(o, dirs[i]);
      assert dirs[..i + 1] == dirs[..i] + [dirs[i]];
      JoinedOne(dirs[..i], dirs[i]);
      SpotsConcat(o, Joined(dirs[..i]), dirs[i]);
      shares, record := shares + [share], record + done;
      i := i + 1;
    }
    assert dirs[..i] == dirs;
  }

  // ---- The two scans agree ----

  /** However the workers and the consumer are interleaved, whatever is created late or
      fails, a consumer told that there are no more chunks, of a scan that does not count as
      failed, was given exactly the items of the sequential scan, each as often. */
  ghost predicate DeliversAll(cap: nat, first: seq<Chunk>, preloaded: seq<Chunk>, shares: seq<Share>, items: multiset<Item>) {
    forall run :: Delivered(After(cap, Init(first, preloaded, shares), run), items)
  }

  ghost predicate Delivered(s: Par, items: multiset<Item>) {
    s.consumer.Ended? && !s.quit && !s.failed ==> multiset(Joined(s.out)) == items
  }

  /** The parallel scan from start to end. Under comparable options the items delivered
      are those of the sequential scan, in every interleaving, and so are the shields
      and errors recorded. An unreadable root makes no scanner. */
  method ScanInParallel(o: Options, root: Dir, threads: int, cap: nat)
    returns (ok: bool, first: seq<Chunk>, preloaded: seq<Chunk>, shares: seq<Share>, record: seq<Event>)
    ensures ok <==> root.readable
    ensures ok && Comparable(o) ==>
      DeliversAll(cap, first, preloaded, shares, multiset(Emitted(DirEvents(o, Spot(root, [], 0, Root)))))
    ensures ok && Comparable(o) ==>
      multiset(Quiet(record)) == multiset(Quiet(DirEvents(o, Spot(root, [], 0, Root))))
  {
    ok, first, preloaded, shares, record := root.readable, [], [], [], [];
    if !ok {
      return;
    }
    var dirs, below;
    first, preloaded, dirs, record := Prepare(o, root, threads);
    shares, below := RunWorkers(o, dirs);
    if Comparable(o) {
      ParallelEmitsTheSame(o, root, first, preloaded, dirs, shares, cap);
      ParallelRecordsTheSame(o, root, record, below);
    }
    record := record + below;
  }

  lemma ParallelEmitsTheSame(o: Options, root: Dir, first: seq<Chunk>, preloaded: seq<Chunk>, dirs: seq<seq<Spot>>,
                             shares: seq<Share>, cap: nat)
    requires Comparable(o) && root.readable
    requires Joined(first + preloaded) == RootItems(o, Context(Root, root.own), root.entries)
    requires Joined(dirs) == RootKids(o, Context(Root, root.own), root.entries)
    requires |dirs| == |shares| && forall i :: 0 <= i < |dirs| ==> Scans(o, dirs[i], shares[i])
    ensures DeliversAll(cap, first, preloaded, shares, multiset(Emitted(DirEvents(o, Spot(root, [], 0, Root)))))
  {
    var all := first + preloaded + FlatShares(shares);
    SharesItems(o, dirs, shares);
    JoinedConcat(first + preloaded, FlatShares(shares));
    RootPart(o, Context(Root, root.own), root.entries);
    AllItems(o, root);
    forall run ensures Delivered(After(cap, Init(first, preloaded, shares), run), multiset(Emitted(DirEvents(o, Spot(root, [], 0, Root))))) {
      var s := After(cap, Init(first, preloaded, shares), run);
      NullMeansAllDelivered(cap, first, preloaded, shares, run);
      if s.consumer.Ended? && !s.quit && !s.failed { JoinedPermuted(s.out, all); }
    }
  }

  lemma ParallelRecordsTheSame(o: Options, root: Dir, record: seq<Event>, below: seq<Event>)
    requires Comparable(o) && root.readable
    requires record == RootGuards(o, Context(Root, root.own), root.entries)
    requires below == SpotsEvents(o, RootKids(o, Context(Root, root.own), root.entries))
    ensures multiset(Quiet(record + below)) == multiset(Quiet(DirEvents(o, Spot(root, [], 0, Root))))
  {
    var node := Context(Root, root.own);
    var all, inline := DirEvents(o, Spot(root, [], 0, Root)), Inline(o, [], 0, node, root.entries);
    RootPart(o, node, root.entries);
    RootTally(o, root);
    QuietConcat(record, below);
    AllQuiet(Quiet(inline));
    forall x ensures multiset(Quiet(record + below))[x] == multiset(Quiet(all))[x] {
      QuietCount(inline, x);
      QuietCount(below, x);
      QuietCount(all, x);
    }
  }

  lemma EmittedSplit(all: seq<Event>, a: seq<Event>, b: seq<Event>)
    requires multiset(all) == multiset(a) + multiset(b)
    ensures multiset(Emitted(all)) == multiset(Emitted(a)) + multiset(Emitted(b))
  {
    forall i ensures multiset(Emitted(all))[i] == (multiset(Emitted(a)) + multiset(Emitted(b)))[i] {
      EmittedCount(all, i);
      EmittedCount(a, i);
      EmittedCount(b, i);
    }
  }

  lemma AllItems(o: Options, root: Dir)
    requires root.readable
    ensures multiset(Emitted(DirEvents(o, Spot(root, [], 0, Root))))
         == multiset(Emitted(Inline(o, [], 0, Context(Root, root.own), root.entries)))
          + multiset(Emitted(SpotsEvents(o, Kids(o, [], 0, Context(Root, root.own), root.entries))))
  {
    var node := Context(Root, root.own);
    RootTally(o, root);
    EmittedSplit(DirEvents(o, Spot(root, [], 0, Root)), Inline(o, [], 0, node, root.entries),
                 SpotsEvents(o, Kids(o, [], 0, node, root.entries)));
  }
}
