/** The incremental scanner: a stack of directories and one open directory, cut
    into chunks on demand, proved to walk the tree exactly as the recursive
    account does. */
module Scanner {
  import opened FilterChain
  import opened SourceTree

  // ---- The walk as a machine: one directory opened, one entry taken or one
  // ---- directory finished at a time.

  datatype Open = Shut | Open(spot: Spot, node: Chain)

  /** `dirs` is LIFO, its last element scanned next; `todo` are the entries of the
      open directory still to take, `pending` its subdirectories collected so far. */
  datatype Scan = Scan(dirs: seq<Spot>, current: Open, todo: seq<Entry>, pending: seq<Spot>, produced: bool)

  function Rev(spots: seq<Spot>): seq<Spot> {
    if spots == [] then [] else Rev(spots[1..]) + [spots[0]]
  }

  predicate Done(m: Scan) { m.current.Shut? && m.dirs == [] }

  function Opening(m: Scan): Scan
    requires m.current.Shut? && m.dirs != []
  {
    var n := |m.dirs| - 1;
    var s := m.dirs[n];
    if s.dir.readable then Scan(m.dirs[..n], Open(s, Node(s)), Sort(s.dir.entries), [], false)
    else m.(dirs := m.dirs[..n])
  }

  /** The transfer root, as against a directory a worker starts from. */
  predicate IsRoot(s: Spot) { s.rel == [] && s.depth == 0 }

  /** An unreadable transfer root ends the scan. */
  predicate Fatal(m: Scan)
    requires m.current.Shut? && m.dirs != []
  {
    var s := m.dirs[|m.dirs| - 1];
    !s.dir.readable && IsRoot(s)
  }

  function Taking(o: Options, m: Scan): Scan
    requires m.current.Open? && m.todo != []
  {
    var s, e := m.current.spot, m.todo[0];
    m.(todo := m.todo[1..],
       pending := m.pending + Kid(o, s.rel, s.depth, m.current.node, e),
       produced := m.produced || Produces(o, s.rel, s.depth, m.current.node, e))
  }

  /** Children are stacked in reverse, so that the first is scanned first. */
  function Finishing(m: Scan): Scan {
    Scan(m.dirs + Rev(m.pending), Shut, [], [], false)
  }

  function Step(o: Options, m: Scan): Scan
    requires !Done(m)
  {
    if m.current.Shut? then Opening(m) else if m.todo != [] then Taking(o, m) else Finishing(m)
  }

  /** What one step does. */
  function Acts(o: Options, m: Scan): seq<Event>
    requires !Done(m)
  {
    if m.current.Shut? then (if m.dirs[|m.dirs| - 1].dir.readable then [] else [IoError])
    else if m.todo != [] then EntryEvents(o, m.current.spot.rel, m.current.spot.depth, m.current.node, m.todo[0])
    else Hollow(o, m.current.spot.rel, m.produced)
  }

  /** The recursive account of everything a state still has to do. */
  function Future(o: Options, m: Scan): seq<Event> {
    var below := SpotsEvents(o, Rev(m.dirs));
    match m.current
    case Shut => below
    case Open(s, node) => Ahead(o, s, node, m.todo, m.produced, m.pending) + below
  }

  /** What is left of one open directory and the directories below it. */
  function Ahead(o: Options, s: Spot, node: Chain, todo: seq<Entry>, produced: bool, pending: seq<Spot>): seq<Event> {
    Inline(o, s.rel, s.depth, node, todo)
    + Hollow(o, s.rel, produced || AnyProduces(o, s.rel, s.depth, node, todo))
    + SpotsEvents(o, pending + Kids(o, s.rel, s.depth, node, todo))
  }

  function Work(m: Scan): nat {
    SpotWeights(m.dirs) + SpotWeights(m.pending) + if m.current.Open? then 1 + Weights(m.todo) else 0
  }

  // ---- Sequences of directories ----

  lemma {:induction false} RevConcat(a: seq<Spot>, b: seq<Spot>)
    ensures Rev(a + b) == Rev(b) + Rev(a)
  {
    if a == [] {
      assert a + b == b;
    } else {
      assert (a + b)[1..] == a[1..] + b;
      RevConcat(a[1..], b);
    }
  }

  lemma {:induction false} RevRev(a: seq<Spot>)
    ensures Rev(Rev(a)) == a && SpotWeights(Rev(a)) == SpotWeights(a)
  {
    if a != [] {
      RevRev(a[1..]);
      RevConcat(Rev(a[1..]), [a[0]]);
      WeightsConcat(Rev(a[1..]), [a[0]]);
      assert Rev([a[0]]) == [a[0]];
    }
  }

  lemma {:induction false} SpotsConcat(o: Options, a: seq<Spot>, b: seq<Spot>)
    ensures SpotsEvents(o, a + b) == SpotsEvents(o, a) + SpotsEvents(o, b)
  {
    if a == [] {
      assert a + b == b;
    } else {
      assert (a + b)[1..] == a[1..] + b;
      SpotsConcat(o, a[1..], b);
    }
  }

  lemma {:induction false} WeightsConcat(a: seq<Spot>, b: seq<Spot>)
    ensures SpotWeights(a + b) == SpotWeights(a) + SpotWeights(b)
  {
    if a == [] {
      assert a + b == b;
    } else {
      assert (a + b)[1..] == a[1..] + b;
      WeightsConcat(a[1..], b);
    }
  }

  lemma Regroup(a: seq<Event>, b: seq<Event>, c: seq<Event>, d: seq<Event>)
    ensures (a + b) + c + d == a + (b + c + d)
  {
  }

  /** Doing what comes next moves it from the future to the past. */
  lemma Shift(past: seq<Event>, now: seq<Event>, rest: seq<Event>)
    ensures (past + now) + rest == past + (now + rest) && past <= past + now
  {
  }

  // ---- Every step moves its acts from the future to the past ----

  lemma TopOfStack(o: Options, dirs: seq<Spot>)
    requires dirs != []
    ensures var n := |dirs| - 1;
            SpotsEvents(o, Rev(dirs)) == DirEvents(o, dirs[n]) + SpotsEvents(o, Rev(dirs[..n]))
    ensures SpotWeights(dirs) == SpotWeights(dirs[..|dirs| - 1]) + Weight(dirs[|dirs| - 1].dir)
  {
    var n := |dirs| - 1;
    assert dirs == dirs[..n] + [dirs[n]];
    RevConcat(dirs[..n], [dirs[n]]);
    assert Rev([dirs[n]]) == [dirs[n]];
    assert Rev(dirs)[1..] == Rev(dirs[..n]);
    WeightsConcat(dirs[..n], [dirs[n]]);
  }

  lemma OpeningActs(o: Options, m: Scan)
    requires m.current.Shut? && m.dirs != []
    ensures Future(o, m) == Acts(o, m) + Future(o, Opening(m))
    ensures m.pending == [] ==> Work(Opening(m)) < Work(m)
  {
    var s := m.dirs[|m.dirs| - 1];
    TopOfStack(o, m.dirs);
    if s.dir.readable {
      assert [] + KidsOf(o, s) == KidsOf(o, s);
      SortWeights(s.dir.entries);
    }
  }

  lemma TakingActs(o: Options, m: Scan)
    requires m.current.Open? && m.todo != []
    ensures Future(o, m) == Acts(o, m) + Future(o, Taking(o, m))
    ensures Work(Taking(o, m)) < Work(m)
  {
    var s, node, e, rest := m.current.spot, m.current.node, m.todo[0], m.todo[1..];
    var kid, kids := Kid(o, s.rel, s.depth, node, e), Kids(o, s.rel, s.depth, node, rest);
    assert m.pending + (kid + kids) == (m.pending + kid) + kids;
    var hollow := Hollow(o, s.rel, m.produced || AnyProduces(o, s.rel, s.depth, node, m.todo));
    Regroup(Acts(o, m), Inline(o, s.rel, s.depth, node, rest), hollow, SpotsEvents(o, (m.pending + kid) + kids));
    Shift(Acts(o, m), Ahead(o, s, node, rest, Taking(o, m).produced, m.pending + kid), SpotsEvents(o, Rev(m.dirs)));
    WeightsConcat(m.pending, kid);
  }

  lemma Stacked(o: Options, dirs: seq<Spot>, pending: seq<Spot>)
    ensures SpotsEvents(o, Rev(dirs + Rev(pending))) == SpotsEvents(o, pending) + SpotsEvents(o, Rev(dirs))
  {
    RevConcat(dirs, Rev(pending));
    RevRev(pending);
    SpotsConcat(o, pending, Rev(dirs));
  }

  lemma FinishingActs(o: Options, m: Scan)
    requires m.current.Open? && m.todo == []
    ensures Future(o, m) == Acts(o, m) + Future(o, Finishing(m))
  {
    Stacked(o, m.dirs, m.pending);
    assert m.pending + [] == m.pending;
    Shift(Acts(o, m), SpotsEvents(o, m.pending), SpotsEvents(o, Rev(m.dirs)));
    assert [] + Acts(o, m) == Acts(o, m);
  }

  lemma FinishingWork(m: Scan)
    requires m.current.Open?
    ensures Work(Finishing(m)) < Work(m)
  {
    RevRev(m.pending);
    WeightsConcat(m.dirs, Rev(m.pending));
  }

  ghost predicate Tidy(m: Scan) { m.current.Shut? ==> m.pending == [] }

  /** One step does the first of what is to be done, and leaves the rest. */
  lemma StepActs(o: Options, m: Scan)
    requires !Done(m) && Tidy(m)
    ensures Future(o, m) == Acts(o, m) + Future(o, Step(o, m))
    ensures Work(Step(o, m)) < Work(m) && Tidy(Step(o, m))
  {
    if m.current.Shut? {
      OpeningActs(o, m);
    } else if m.todo != [] {
      TakingActs(o, m);
    } else {
      FinishingActs(o, m);
      FinishingWork(m);
    }
  }

  /** The directory the scan starts from is scanned first, alone; nothing follows it if
      it cannot be read, and what follows lies deeper than the transfer root. */
  ghost predicate Rooted(root: Spot, m: Scan) {
    || (m.dirs == [root] && m.current.Shut?)
    || (&& (forall i :: 0 <= i < |m.pending| ==> m.pending[i].depth > 0)
        && (forall i :: 0 <= i < |m.dirs| ==> m.dirs[i].depth > 0)
        && (root.dir.readable || Done(m)))
  }

  lemma {:induction false} RevDepths(a: seq<Spot>)
    requires forall i :: 0 <= i < |a| ==> a[i].depth > 0
    ensures forall i :: 0 <= i < |Rev(a)| ==> Rev(a)[i].depth > 0
  {
    if a != [] { RevDepths(a[1..]); }
  }

  lemma StepRooted(o: Options, root: Spot, m: Scan)
    requires !Done(m) && Rooted(root, m) && Tidy(m)
    ensures Rooted(root, Step(o, m))
    ensures m.current.Shut? && Fatal(m) <==> IsRoot(root) && !root.dir.readable
    ensures !root.dir.readable ==> Done(Step(o, m))
  {
    if m.current.Open? && m.todo == [] { RevDepths(m.pending); }
  }

  // ---- What a step sends ----

  lemma SentOne(a: seq<Event>, e: Event)
    ensures Emitted(a + [e]) == if e.Emit? then Emitted(a) + [e.item] else Emitted(a)
  {
    assert (a + [e])[..|a + [e]| - 1] == a;
  }

  lemma {:induction false} EmittedConcat(a: seq<Event>, b: seq<Event>)
    ensures Emitted(a + b) == Emitted(a) + Emitted(b)
  {
    if b == [] {
      assert a + b == a;
    } else {
      var n := |b| - 1;
      EmittedConcat(a, b[..n]);
      SentOne(a + b[..n], b[n]);
      assert (a + b[..n]) + [b[n]] == a + b;
    }
  }

  lemma {:induction false} NothingSent(ev: seq<Event>)
    requires forall e <- ev :: !e.Emit?
    ensures Emitted(ev) == []
  {
    if ev != [] { NothingSent(ev[..|ev| - 1]); }
  }

  lemma PayloadOne(items: seq<Item>, i: Item)
    ensures Payload(items + [i]) == Payload(items) + i.size
  {
    assert (items + [i])[..|items + [i]| - 1] == items;
  }

  /** A step sends one item at most. */
  lemma ActsSend(o: Options, m: Scan)
    requires !Done(m)
    ensures |Emitted(Acts(o, m))| <= 1
    ensures m.current.Open? && m.todo != [] ==>
      Emitted(Acts(o, m)) == Sent(o, m.current.spot.rel, m.current.spot.depth, m.current.node, m.todo[0])
    ensures m.current.Shut? ==> Emitted(Acts(o, m)) == []
    ensures m.current.Open? && m.todo == [] ==>
      Emitted(Acts(o, m)) == if Acts(o, m) == [] then [] else [Item(m.current.spot.rel, true, 0)]
  {
    if m.current.Shut? {
      NothingSent(Acts(o, m));
    } else if m.todo != [] {
      var s, node, e := m.current.spot, m.current.node, m.todo[0];
      NothingSent(Guards(o, s.rel, node, e));
      var sent := Sent(o, s.rel, s.depth, node, e);
      if sent != [] { SentOne(Guards(o, s.rel, node, e), Emit(sent[0])); }
    } else if m.todo == [] && Acts(o, m) != [] {
      SentOne([], Acts(o, m)[0]);
      assert [] + [Acts(o, m)[0]] == Acts(o, m);
    }
  }

  ghost predicate Grows(chunk: seq<Item>, extended: seq<Item>) {
    extended == chunk || (|extended| == |chunk| + 1 && extended[..|chunk|] == chunk)
  }

  lemma Grown(base: seq<Item>, chunk: seq<Item>, extended: seq<Item>, size: nat)
    requires Grows(chunk, extended) && Payload(chunk) <= size && Fits(chunk, size)
    ensures base + chunk + extended[|chunk|..] == base + extended
    ensures Fits(extended, size)
  {
    assert extended == chunk + extended[|chunk|..];
    assert extended != chunk ==> extended[..|extended| - 1] == chunk;
  }

  /** Every chunk is closed by the item that takes it over the size, and only there;
      the last one may fall short once the tree is done. */
  ghost predicate Cut(chunks: seq<seq<Item>>, size: nat, done: bool) {
    forall i :: 0 <= i < |chunks| ==> Closed(chunks[i], size, done && i == |chunks| - 1)
  }

  ghost predicate Fits(chunk: seq<Item>, size: nat) {
    chunk != [] ==> Payload(chunk[..|chunk| - 1]) <= size
  }

  ghost predicate Closed(chunk: seq<Item>, size: nat, last: bool) {
    chunk != [] && Fits(chunk, size) && (Payload(chunk) > size || last)
  }

  lemma CutOne(chunks: seq<seq<Item>>, chunk: seq<Item>, size: nat, done: bool)
    requires Cut(chunks, size, false)
    requires Closed(chunk, size, done)
    ensures Cut(chunks + [chunk], size, done)
  {
  }

  lemma Longer(before: seq<Event>, record: seq<Event>, chunk: seq<Item>)
    requires before <= record && Emitted(record) == Emitted(before) + chunk && chunk != []
    ensures |before| < |record|
  {
    assert |before| == |record| ==> before == record;
  }

  // ---- The scanner object ----

  class DirectoryScanner {
    const o: Options
    ghost const root: Spot
    /** Everything there is to do. */
    ghost const all: seq<Event>
    var directories: seq<Spot>
    var current: Open
    var sorted: seq<Entry>
    var index: nat
    var pending: seq<Spot>
    var produced: bool
    var failed: bool
    /** Everything done so far, in order: items handed out, paths put on the excluded
        and the size-skipped sink, I/O errors. */
    var record: seq<Event>

    /** The state of the walk. */
    ghost function View(): Scan
      reads `directories, `current, `sorted, `index, `pending, `produced
    {
      Scan(directories, current, if index <= |sorted| then sorted[index..] else [], pending, produced)
    }

    constructor (o: Options, root: Spot)
      ensures Sound() && this.o == o && this.root == root
      ensures record == [] && !failed && all == DirEvents(o, root)
    {
      this.o, this.root, all := o, root, DirEvents(o, root);
      directories := [root];
      current := Shut;
      sorted, index, pending, produced := [], 0, [], false;
      failed, record := false, [];
      new;
      TopOfStack(o, directories);
    }

    /** Open one readable directory: find the rules in force in it, buffer and sort it. */
    method OpenDirectory(s: Spot)
      modifies `current, `sorted, `index, `pending, `produced
      ensures View() == Scan(directories, Open(s, Node(s)), Sort(s.dir.entries), [], false) && index <= |sorted|
    {
      current := Open(s, Node(s));
      sorted := Sort(s.dir.entries);
      index, pending, produced := 0, [], false;
      assert sorted[index..] == sorted;
    }

    /** open_next_directory, one directory: open it, or note an I/O error, which for the
        transfer root is fatal. */
    method OpenNext()
      requires current.Shut? && directories != [] && index <= |sorted|
      modifies this
      ensures View() == Opening(old(View())) && index <= |sorted|
      ensures record == old(record) + Acts(o, old(View()))
      ensures failed <==> old(failed) || Fatal(old(View()))
    {
      var n := |directories| - 1;
      var s := directories[n];
      directories := directories[..n];
      if s.dir.readable {
        OpenDirectory(s);
      } else {
        record := record + [IoError];
        failed := failed || IsRoot(s);
      }
    }

    /** A skipped entry: note a missing referent, shield what a rule or a size limit
        left out. */
    method HandleSkipped(e: Entry)
      requires current.Open? && e.Passed?
      modifies `record
      ensures record == old(record) + Guards(o, current.spot.rel, current.node, e)
    {
      if e.referentError {
        record := record + [IoError];
      }
      if e.excluded {
        var path := current.spot.rel + [e.name];
        record := record + [if e.sizeExcluded then ShieldSize(path) else Shield(path)];
      }
    }

    /** A selected directory: emit a mount point without entering it, or collect it. */
    method HandleDirectory(e: Entry) returns (sent: seq<Item>)
      requires current.Open? && e.SubDir?
      requires o.select(current.node, SourceTree.Subject(current.spot.rel, e)).passes
      modifies `produced, `pending
      ensures sent == Sent(o, current.spot.rel, current.spot.depth, current.node, e)
      ensures produced == (old(produced) || Produces(o, current.spot.rel, current.spot.depth, current.node, e))
      ensures pending == old(pending) + Kid(o, current.spot.rel, current.spot.depth, current.node, e)
    {
      var path := current.spot.rel + [e.name];
      sent := [];
      if e.mountPoint && o.oneFileSystem > 0 {
        if o.oneFileSystem > 1 {
          return;
        }
        sent := [Item(path, true, 0)];
        produced := true;
        return;
      }
      if o.listDirs {
        sent := [Item(path, true, 0)];
      }
      produced := true;
      var nextDepth := current.spot.depth + 1;
      if o.maxDepth <= 0 || nextDepth < o.maxDepth {
        pending := pending + [Spot(e.dir, path, nextDepth, current.node)];
      }
    }

    /** scanner_process_entry, and the skipped-entry branch before it. */
    method ProcessEntry(e: Entry) returns (sent: seq<Item>)
      requires current.Open?
      modifies `record, `produced, `pending
      ensures record == old(record) + Guards(o, current.spot.rel, current.node, e)
      ensures sent == Sent(o, current.spot.rel, current.spot.depth, current.node, e)
      ensures produced == (old(produced) || Produces(o, current.spot.rel, current.spot.depth, current.node, e))
      ensures pending == old(pending) + Kid(o, current.spot.rel, current.spot.depth, current.node, e)
    {
      sent := [];
      if e.Passed? {
        HandleSkipped(e);
        return;
      }
      var path := current.spot.rel + [e.name];
      var v := o.select(current.node, SourceTree.Subject(current.spot.rel, e));
      if !v.passes || v.protect {
        record := record + [Shield(path)];
      }
      if !v.passes {
        return;
      }
      if e.SubDir? {
        sent := HandleDirectory(e);
        return;
      }
      if (o.maxDepth > 0 && current.spot.depth + 1 > o.maxDepth) || e.unsupported {
        return;
      }
      sent := [Item(path, false, e.size)];
      produced := true;
    }

    /** Take the next buffered entry of the open directory. */
    method TakeEntry() returns (sent: seq<Item>)
      requires current.Open? && index < |sorted|
      modifies `record, `produced, `pending, `index
      ensures View() == Taking(o, old(View())) && index <= |sorted|
      ensures record == old(record) + Acts(o, old(View()))
      ensures sent == Emitted(Acts(o, old(View())))
    {
      ActsSend(o, View());
      assert sorted[index..][1..] == sorted[index + 1..];
      var e := sorted[index];
      index := index + 1;
      sent := ProcessEntry(e);
      if sent != [] {
        Shift(old(record), Guards(o, current.spot.rel, current.node, e), [Emit(sent[0])]);
        record := record + [Emit(sent[0])];
      }
    }

    /** scanner_push_pending_dirs */
    method PushPending()
      modifies `directories, `pending
      ensures pending == [] && directories == old(directories + Rev(pending))
    {
      ghost var was := directories;
      var i := |pending|;
      while i > 0
        modifies `directories
        invariant 0 <= i <= |pending|
        invariant directories == was + Rev(pending[i..])
      {
        i := i - 1;
        assert pending[i..][1..] == pending[i + 1..];
        directories := directories + [pending[i]];
      }
      assert pending[0..] == pending;
      pending := [];
    }

    /** scanner_finish_current_directory: send the directory as itself if nothing came
        of it, stack its children and close it. */
    method FinishDirectory() returns (sent: seq<Item>)
      requires current.Open? && index == |sorted|
      modifies `directories, `current, `sorted, `index, `pending, `produced, `record
      ensures View() == Finishing(old(View())) && index <= |sorted|
      ensures record == old(record) + Acts(o, old(View()))
      ensures sent == Emitted(Acts(o, old(View())))
    {
      ActsSend(o, View());
      sent := [];
      if o.emitEmpty && !produced && !o.prune && !o.listDirs && current.spot.rel != [] {
        sent := [Item(current.spot.rel, true, 0)];
        record := record + [Emit(sent[0])];
      }
      PushPending();
      current, sorted, index, produced := Shut, [], 0, false;
    }

    /** One turn of the loop: open a directory, take an entry or finish a directory. */
    method Advance() returns (sent: seq<Item>)
      requires !Done(View()) && index <= |sorted|
      modifies this
      ensures View() == Step(o, old(View())) && index <= |sorted|
      ensures record == old(record) + Acts(o, old(View()))
      ensures sent == Emitted(Acts(o, old(View()))) && |sent| <= 1
      ensures failed <==> old(failed) || (old(current).Shut? && Fatal(old(View())))
    {
      ActsSend(o, View());
      if current.Shut? {
        OpenNext();
        sent := [];
      } else if index < |sorted| {
        sent := TakeEntry();
      } else {
        sent := FinishDirectory();
      }
    }

    /** The walk is in good order, what was done and what is to do make up the whole,
        and only a root that cannot be read fails it. */
    ghost predicate Sound()
      reads this
    {
      && index <= |sorted| && Tidy(View()) && Rooted(root, View())
      && (failed <==> IsRoot(root) && !root.dir.readable && Done(View()))
      && record + Future(o, View()) == all
    }

    /** A turn moves what it does from the future to the past. */
    method Turn() returns (sent: seq<Item>)
      requires Sound() && !Done(View()) && !failed
      modifies this
      ensures Sound() && Work(View()) < old(Work(View())) && old(record) <= record
      ensures Emitted(record) == old(Emitted(record)) + sent && |sent| <= 1
    {
      ghost var now := Acts(o, View());
      StepActs(o, View());
      StepRooted(o, root, View());
      EmittedConcat(record, now);
      sent := Advance();
      Shift(old(record), now, Future(o, View()));
    }

    /** A turn, and what it sent added to the chunk. */
    method Collect(chunk: seq<Item>, size: nat) returns (extended: seq<Item>, total: nat)
      requires Sound() && !Done(View()) && !failed && size == Payload(chunk)
      modifies this
      ensures Sound() && Work(View()) < old(Work(View())) && old(record) <= record
      ensures Grows(chunk, extended) && total == Payload(extended)
      ensures Emitted(record) == old(Emitted(record)) + extended[|chunk|..]
    {
      var sent := Turn();
      extended, total := chunk, size;
      if sent != [] {
        PayloadOne(chunk, sent[0]);
        extended, total := chunk + sent, size + sent[0].size;
      }
      assert extended[|chunk|..] == sent;
    }

    /** directory_scanner_next: the next chunk, or nothing when the tree is done. A
        chunk is cut by the item that takes it over the chunk size, and only there. */
    method Next() returns (chunk: seq<Item>)
      requires Sound() && !failed
      modifies this
      ensures Sound() && old(record) <= record
      ensures Emitted(record) == old(Emitted(record)) + chunk
      ensures Fits(chunk, o.chunkSize) && (chunk != [] ==> !old(Done(View())))
      ensures Done(View()) || (chunk != [] && Payload(chunk) > o.chunkSize)
    {
      ghost var sent, done := Emitted(record), Done(View());
      chunk := [];
      var size := 0;
      while size <= o.chunkSize && (current.Open? || directories != []) && !failed
        invariant Sound() && old(record) <= record
        invariant Emitted(record) == sent + chunk
        invariant size == Payload(chunk)
        invariant Fits(chunk, o.chunkSize) && (chunk != [] ==> !done)
        invariant done ==> Done(View())
        decreases Work(View())
      {
        ghost var was := chunk;
        chunk, size := Collect(chunk, size);
        Grown(sent, was, chunk, o.chunkSize);
      }
    }

    /** Asking for chunks until there are none: each item in exactly one chunk. */
    method Drain() returns (chunks: seq<seq<Item>>)
      requires Sound() && !failed && record == []
      modifies this
      ensures record == all
      ensures failed <==> IsRoot(root) && !root.dir.readable
      ensures Joined(chunks) == Emitted(record)
      ensures Cut(chunks, o.chunkSize, true)
    {
      chunks := [];
      while !failed
        invariant Sound()
        invariant Joined(chunks) == Emitted(record)
        invariant Cut(chunks, o.chunkSize, Done(View()))
        decreases |all| - |record|
      {
        ghost var before := record;
        var chunk := Next();
        if chunk == [] {
          break;
        }
        Longer(before, record, chunk);
        JoinedOne(chunks, chunk);
        CutOne(chunks, chunk, o.chunkSize, Done(View()));
        chunks := chunks + [chunk];
      }
    }
  }

  /** A scan from any directory, the transfer root or one a worker was given: what it
      records is the recursive account, in its order. */
  method ScanFrom(o: Options, start: Spot)
    returns (chunks: seq<seq<Item>>, record: seq<Event>, failed: bool)
    ensures record == DirEvents(o, start)
    ensures Joined(chunks) == Emitted(record)
    ensures Cut(chunks, o.chunkSize, true)
    ensures failed <==> IsRoot(start) && !start.dir.readable
  {
    var scanner := new DirectoryScanner(o, start);
    chunks := scanner.Drain();
    record, failed := scanner.record, scanner.failed;
  }

  /** A whole scan of a source tree. */
  method ScanAll(o: Options, root: Dir, inherited: Chain)
    returns (chunks: seq<seq<Item>>, record: seq<Event>, failed: bool)
    ensures record == DirEvents(o, Spot(root, [], 0, inherited))
    ensures Joined(chunks) == Emitted(record)
    ensures Cut(chunks, o.chunkSize, true)
    ensures failed <==> !root.readable
  {
    chunks, record, failed := ScanFrom(o, Spot(root, [], 0, inherited));
  }
}
