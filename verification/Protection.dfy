/** End to end: what the source scan sends or shields, the receiver's deletion walk
    does not remove. */
module Protection {
  import opened FilterChain
  import opened SourceTree
  import opened ScanOrder
  import opened ScanCoverage
  import opened WirePaths
  import opened DeleteWalk

  // ---- The destination tree ----

  /** File names are clean and distinct, here and below. */
  ghost predicate Sane(kids: seq<Kid>) {
    && (forall i, j :: 0 <= i < j < |kids| ==> kids[i].name != kids[j].name)
    && (forall k <- kids :: CleanName(k.name) && (k.tree.Folder? ==> Sane(k.tree.kids)))
  }

  /** The entry a path leads to. */
  ghost predicate Stands(kids: seq<Kid>, p: Path, at: Kid)
    decreases |p|, 1
  {
    p != [] && exists k <- kids :: StandsIn(k, p, at)
  }

  ghost predicate StandsIn(k: Kid, p: Path, at: Kid)
    requires p != []
    decreases |p|, 0
  {
    k.name == p[0] && if |p| == 1 then k == at else k.tree.Folder? && Stands(k.tree.kids, p[1..], at)
  }

  ghost predicate Present(kids: seq<Kid>, p: Path) { exists at :: Stands(kids, p, at) }

  lemma SameName(kids: seq<Kid>, a: Kid, b: Kid)
    requires Sane(kids) && a in kids && b in kids && a.name == b.name
    ensures a == b
  {
  }

  lemma {:induction false} AllGoneHas(sc: Scope, rel: Path, deletable: bool, kids: seq<Kid>, k: Kid)
    requires AllGone(sc, rel, deletable, kids) && k in kids
    ensures Gone(sc, rel, deletable, k)
  {
    assert kids == [kids[0]] + kids[1..];
    if k != kids[0] { AllGoneHas(sc, rel, deletable, kids[1..], k); }
  }

  /** An extra at p is neither kept nor under a protected prefix, and if it is a directory
      then nothing kept lies below it and it is not synchronized. */
  ghost predicate Free(sc: Scope, p: Path, at: Kid) {
    && p != [] && Join(p) !in sc.keep && !UnderSkip(Join(p), |p| == 1, sc.skips)
    && (at.tree.Folder? && Join(p) != "" ==> !HasChild(sc.keep, Join(p)))
    && (at.tree.Folder? && sc.dirs.Only? ==> Join(p) !in sc.dirs.names)
  }

  /** When a directory goes, whatever stands below it was an extra. */
  lemma {:induction false} GoneBelow(sc: Scope, rel: Path, deletable: bool, kids: seq<Kid>, p: Path, at: Kid)
    requires AllGone(sc, rel, deletable, kids) && Stands(kids, p, at)
    ensures Free(sc, rel + p, at)
    decreases |p|
  {
    var k :| k in kids && StandsIn(k, p, at);
    AllGoneHas(sc, rel, deletable, kids, k);
    if |p| == 1 {
      assert p == [k.name];
    } else {
      GoneBelow(sc, rel + [k.name], Deletable(sc, rel + [k.name], deletable), k.tree.kids, p[1..], at);
      assert rel + [k.name] + p[1..] == rel + p;
    }
  }

  /** If a removal takes in what stands at p, that was an extra itself. */
  lemma {:induction false} TakenIsFree(sc: Scope, rel: Path, deletable: bool, kids: seq<Kid>, q: Path, p: Path, at: Kid)
    requires Sane(kids) && Removable(sc, rel, deletable, kids, q) && q <= p && Stands(kids, p, at)
    ensures Free(sc, rel + p, at)
    decreases |q|
  {
    var k :| k in kids && k.name == q[0] && RemovableIn(sc, rel, deletable, k, q);
    var l :| l in kids && StandsIn(l, p, at);
    SameName(kids, k, l);
    if |p| == 1 {
      assert p == [k.name];
    } else {
      var sub := rel + [k.name];
      if |q| == 1 {
        GoneBelow(sc, sub, Deletable(sc, sub, deletable), k.tree.kids, p[1..], at);
      } else {
        TakenIsFree(sc, sub, Deletable(sc, sub, deletable), k.tree.kids, q[1..], p[1..], at);
      }
      assert sub + p[1..] == rel + p;
    }
  }

  /** No directory on the way to a removal, nor the removed entry, is under a
      protected prefix. */
  lemma {:induction false} UnshieldedOnTheWay(sc: Scope, rel: Path, deletable: bool, kids: seq<Kid>, q: Path, n: nat)
    requires Removable(sc, rel, deletable, kids, q) && 0 < n <= |q|
    ensures !UnderSkip(Join(rel + q[..n]), rel + q[..n - 1] == [], sc.skips)
    decreases |q|
  {
    var k :| k in kids && k.name == q[0] && RemovableIn(sc, rel, deletable, k, q);
    if n == 1 {
      assert q[..1] == [k.name] && rel + q[..0] == rel;
    } else {
      UnshieldedOnTheWay(sc, rel + [k.name], Deletable(sc, rel + [k.name], deletable), k.tree.kids, q[1..], n - 1);
      assert q[..n] == [k.name] + q[1..][..n - 1] && q[..n - 1] == [k.name] + q[1..][..n - 2];
      assert rel + [k.name] + q[1..][..n - 1] == rel + q[..n];
      assert rel + [k.name] + q[1..][..n - 2] == rel + q[..n - 1];
    }
  }

  // ---- What a manifest guarantees ----

  /** An entry at a kept path is not removed, nor is a directory above it. */
  lemma KeptIsSpared(sc: Scope, kids: seq<Kid>, p: Path, at: Kid, q: Path)
    requires Sane(kids) && Stands(kids, p, at) && Join(p) in sc.keep
    requires q in Walk(sc, [], false, kids)
    ensures !(q <= p)
  {
    RemovedExactly(sc, kids, q);
    assert [] + p == p;
    if q <= p { TakenIsFree(sc, [], Synced(sc, []), kids, q, p, at); }
  }

  lemma ProtectedItself(sc: Scope, p: Path, atRoot: bool)
    requires Skip(Join(p), false) in sc.skips
    ensures UnderSkip(Join(p), atRoot, sc.skips)
  {
    var i :| 0 <= i < |sc.skips| && sc.skips[i] == Skip(Join(p), false);
    assert StrWithin(sc.skips[i].prefix, Join(p));
  }

  /** Nothing at or below a protected path is removed. */
  lemma ProtectedIsSpared(sc: Scope, kids: seq<Kid>, p: Path, q: Path)
    requires p != [] && Skip(Join(p), false) in sc.skips
    requires q in Walk(sc, [], false, kids)
    ensures !(p <= q)
  {
    RemovedExactly(sc, kids, q);
    ProtectedItself(sc, p, |p| == 1);
    if p <= q {
      assert q[..|p|] == p && [] + p == p;
      UnshieldedOnTheWay(sc, [], Synced(sc, []), kids, q, |p|);
      assert false;
    }
  }

  /** If something stands at a protected path, no directory above it is removed. */
  lemma AboveProtectedIsSpared(sc: Scope, kids: seq<Kid>, p: Path, at: Kid, q: Path)
    requires Sane(kids) && Stands(kids, p, at) && Skip(Join(p), false) in sc.skips
    requires q in Walk(sc, [], false, kids)
    ensures !(q <= p)
  {
    RemovedExactly(sc, kids, q);
    ProtectedItself(sc, p, |p| == 1);
    assert [] + p == p;
    if q <= p { TakenIsFree(sc, [], Synced(sc, []), kids, q, p, at); }
  }

  /** A synchronized directory is not removed, nor is one above it. */
  lemma SyncedIsSpared(sc: Scope, kids: seq<Kid>, p: Path, at: Kid, q: Path)
    requires Sane(kids) && Stands(kids, p, at) && at.tree.Folder? && sc.dirs.Only? && Join(p) in sc.dirs.names
    requires q in Walk(sc, [], false, kids)
    ensures !(q <= p)
  {
    RemovedExactly(sc, kids, q);
    assert [] + p == p;
    if q <= p { TakenIsFree(sc, [], Synced(sc, []), kids, q, p, at); }
  }

  /** A directory with a kept path below it is not removed, nor is one above it, whether
      or not the kept entry itself is there. */
  lemma AboveKeptIsSpared(sc: Scope, kids: seq<Kid>, p: Path, at: Kid, w: Path, q: Path)
    requires Sane(kids) && Stands(kids, p, at) && at.tree.Folder? && Clean(w) && p < w && Join(w) in sc.keep
    requires q in Walk(sc, [], false, kids)
    ensures !(q <= p)
  {
    RemovedExactly(sc, kids, q);
    assert [] + p == p && Clean(p);
    WithinStrings(p, w);
    JoinEnds(p);
    var i :| 0 <= i < |sc.keep| && sc.keep[i] == Join(w);
    assert StartsWith(sc.keep[i], Join(p) + "/");
    if q <= p { TakenIsFree(sc, [], Synced(sc, []), kids, q, p, at); }
  }

  // ---- Names on the wire ----

  /** The path a scan below root `r` gives an entry. */
  function FsPath(r: string, p: Path): string {
    if p == [] then r else PathCat(FsPath(r, p[..|p| - 1]), p[|p| - 1])
  }

  /** The name sent for it: one leading slash removed. */
  function Wire(r: string, p: Path): string {
    var s := FsPath(r, p);
    if s != "" && s[0] == '/' then s[1..] else s
  }

  /** The source root is "/", or clean components with a slash or none at either end. */
  ghost predicate TidyRoot(r: string, rc: Path) {
    && Clean(rc)
    && if rc == [] then r == "/" else r in {Join(rc), "/" + Join(rc), Join(rc) + "/", "/" + Join(rc) + "/"}
  }

  function Lead(r: string): string { if r != "" && r[0] == '/' then "/" else "" }

  lemma {:induction false} FsPathIs(r: string, rc: Path, p: Path)
    requires TidyRoot(r, rc) && Clean(p) && p != []
    ensures FsPath(r, p) == Lead(r) + Join(rc + p)
  {
    var n := |p| - 1;
    JoinLast(rc, p);
    if n == 0 {
      FirstStep(r, rc, p[0]);
    } else {
      FsPathIs(r, rc, p[..n]);
      JoinEnds(rc + p[..n]);
      NextStep(Lead(r), Join(rc + p[..n]), p[n]);
    }
  }

  lemma JoinLast(rc: Path, p: Path)
    requires p != []
    ensures var n := |p| - 1;
            Join(rc + p) == if rc + p[..n] == [] then p[n] else Join(rc + p[..n]) + "/" + p[n]
    ensures |p| == 1 ==> rc + p[..0] == rc
  {
    var n := |p| - 1;
    assert (rc + p)[..|rc + p| - 1] == rc + p[..n] && (rc + p)[|rc + p| - 1] == p[n];
  }

  lemma NextStep(lead: string, j: string, n: string)
    requires j != "" && j[|j| - 1] != '/' && CleanName(n)
    ensures PathCat(lead + j, n) == lead + (j + "/" + n)
  {
    assert n[0] in n && (lead + j)[|lead + j| - 1] == j[|j| - 1];
  }

  lemma FirstStep(r: string, rc: Path, n: string)
    requires TidyRoot(r, rc) && CleanName(n)
    ensures PathCat(r, n) == Lead(r) + (if rc == [] then n else Join(rc) + "/" + n)
  {
    assert n[0] in n;
    if rc != [] {
      JoinEnds(rc);
      var j := Join(rc);
      assert ("/" + j)[0] == '/' && (j + "/")[..|j|] == j && ("/" + j + "/")[..|j| + 1] == "/" + j;
    }
  }

  /** Under a tidy root the name on the wire is the walker's name for the mirror. */
  lemma WireIsMirror(r: string, rc: Path, p: Path)
    requires TidyRoot(r, rc) && Clean(p) && p != []
    ensures Wire(r, p) == Join(rc + p)
  {
    FsPathIs(r, rc, p);
    JoinEnds(rc + p);
    assert Lead(r) == "/" ==> ("/" + Join(rc + p))[1..] == Join(rc + p);
    assert Lead(r) == "" ==> "" + Join(rc + p) == Join(rc + p);
  }

  // ---- What a scan's manifest shelters ----

  /** A shield that reaches the manifest; under --delete-excluded (`all` false) only those
      of the size limits do. */
  predicate Guarded(all: bool, ev: seq<Event>, z: Path) {
    ShieldSize(z) in ev || (all && Shield(z) in ev)
  }

  /** The manifest of a scan: every item sent is kept, every guarded path is protected. */
  ghost predicate Covers(all: bool, ev: seq<Event>, r: string, sc: Scope) {
    && (forall i :: Emit(i) in ev ==> Wire(r, i.path) in sc.keep)
    && (forall p :: Guarded(all, ev, p) ==> Skip(Wire(r, p), false) in sc.skips)
  }

  /** Something was sent as x, or for a directory below it, or x is at or below a guarded
      path. */
  ghost predicate Sheltered(all: bool, ev: seq<Event>, x: Path, folder: bool) {
    || (exists i :: Emit(i) in ev && (i.path == x || (folder && x <= i.path)))
    || (exists z :: Guarded(all, ev, z) && z <= x)
  }

  /** Source names are clean, here and below. */
  ghost predicate CleanDir(d: Dir) {
    forall e <- d.entries :: CleanName(e.name) && (e.SubDir? ==> CleanDir(e.dir))
  }

  lemma {:induction false} WithinClean(o: Options, s: Spot, p: Path, t: Spot)
    requires CleanDir(s.dir) && Within(o, s, p, t)
    ensures Clean(p) && CleanDir(t.dir)
    decreases |p|
  {
    if p != [] {
      var e :| GoesInto(o, s, e) && e.name == p[0] && Within(o, Enter(s, e), p[1..], t);
      WithinClean(o, Enter(s, e), p[1..], t);
      assert p == [p[0]] + p[1..];
    }
  }

  /** The path an event is about. */
  function PathOf(ev: Event): Path
    requires !ev.IoError?
  {
    if ev.Emit? then ev.item.path else ev.path
  }

  lemma OwnedPath(o: Options, t: Spot, ev: Event)
    requires Owns(o, t, ev) && !ev.IoError?
    ensures t.dir.readable
    ensures (ev.Emit? && ev.item.path == t.rel != []) || exists e <- t.dir.entries ::
              PathOf(ev) == t.rel + [e.name] && ev in EntryEvents(o, t.rel, t.depth, Node(t), e)
  {
    if e :| e in t.dir.entries && ev in EntryEvents(o, t.rel, t.depth, Node(t), e) {
      var sent := Sent(o, t.rel, t.depth, Node(t), e);
      assert PathOf(ev) == t.rel + [e.name];
    }
  }

  /** Paths in the events of a clean tree are clean, and none is the root's. */
  lemma EventsClean(o: Options, s: Spot, ev: Event)
    requires s.rel == [] && CleanDir(s.dir) && ev in DirEvents(o, s) && !ev.IoError?
    ensures PathOf(ev) != [] && Clean(PathOf(ev))
  {
    var p, t := Arises(o, s, ev);
    Placed(o, s, p, t);
    WithinClean(o, s, p, t);
    assert [] + p == p;
    OwnedPath(o, t, ev);
  }

  lemma {:induction false} StandsAbove(kids: seq<Kid>, p: Path, at: Kid, z: Path) returns (above: Kid)
    requires Stands(kids, p, at) && z != [] && z <= p
    ensures Stands(kids, z, above)
    decreases |p|
  {
    var k :| k in kids && StandsIn(k, p, at);
    if |z| == 1 {
      above := k;
      assert StandsIn(k, z, k);
    } else {
      assert z[1..] <= p[1..];
      above := StandsAbove(k.tree.kids, p[1..], at, z[1..]);
      assert StandsIn(k, z, above);
    }
  }

  lemma MirrorSpared(sc: Scope, kids: seq<Kid>, p: Path, at: Kid, w: Path, q: Path)
    requires Sane(kids) && Stands(kids, p, at) && Clean(w) && Join(w) in sc.keep
    requires p == w || (at.tree.Folder? && p <= w)
    requires q in Walk(sc, [], false, kids)
    ensures !(q <= p)
  {
    if w == p {
      KeptIsSpared(sc, kids, p, at, q);
    } else {
      AboveKeptIsSpared(sc, kids, p, at, w, q);
    }
  }

  lemma BelowProtectedIsSpared(sc: Scope, kids: seq<Kid>, p: Path, at: Kid, z: Path, q: Path)
    requires Sane(kids) && Stands(kids, p, at) && z != [] && z <= p && Skip(Join(z), false) in sc.skips
    requires q in Walk(sc, [], false, kids)
    ensures !(q <= p)
  {
    ProtectedIsSpared(sc, kids, z, q);
    if q <= p {
      assert !(z <= q);
      assert q <= z;
      var above := StandsAbove(kids, p, at, z);
      AboveProtectedIsSpared(sc, kids, z, above, q);
    }
  }

  lemma BelowGuardSurvives(all: bool, o: Options, s: Spot, r: string, rc: Path, sc: Scope, kids: seq<Kid>,
                           x: Path, at: Kid, z: Path, q: Path)
    requires s.rel == [] && CleanDir(s.dir) && TidyRoot(r, rc) && Covers(all, DirEvents(o, s), r, sc) && Sane(kids)
    requires Guarded(all, DirEvents(o, s), z) && z <= x
    requires Stands(kids, rc + x, at) && q in Walk(sc, [], false, kids)
    ensures !(q <= rc + x)
  {
    EventsClean(o, s, if ShieldSize(z) in DirEvents(o, s) then ShieldSize(z) else Shield(z));
    WireIsMirror(r, rc, z);
    assert (rc + x)[..|rc + z|] == rc + z;
    BelowProtectedIsSpared(sc, kids, rc + x, at, rc + z, q);
  }

  lemma AboveSentSurvives(o: Options, s: Spot, r: string, rc: Path, sc: Scope, kids: seq<Kid>,
                          x: Path, at: Kid, i: Item, q: Path)
    requires s.rel == [] && CleanDir(s.dir) && TidyRoot(r, rc) && Wire(r, i.path) in sc.keep && Sane(kids)
    requires Emit(i) in DirEvents(o, s) && (i.path == x || (at.tree.Folder? && x <= i.path))
    requires Stands(kids, rc + x, at) && q in Walk(sc, [], false, kids)
    ensures !(q <= rc + x)
  {
    EventsClean(o, s, Emit(i));
    WireIsMirror(r, rc, i.path);
    assert (rc + i.path)[..|rc + x|] == rc + x;
    MirrorSpared(sc, kids, rc + x, at, rc + i.path, q);
  }

  /** Whatever is sheltered survives the deletion, and so do the directories above it. */
  lemma ShelteredSurvives(all: bool, o: Options, s: Spot, r: string, rc: Path, sc: Scope, kids: seq<Kid>,
                          x: Path, at: Kid, q: Path)
    requires s.rel == [] && CleanDir(s.dir) && TidyRoot(r, rc) && Covers(all, DirEvents(o, s), r, sc) && Sane(kids)
    requires x != [] && Sheltered(all, DirEvents(o, s), x, at.tree.Folder?)
    requires Stands(kids, rc + x, at) && q in Walk(sc, [], false, kids)
    ensures !(q <= rc + x)
  {
    var ev := DirEvents(o, s);
    if z :| Guarded(all, ev, z) && z <= x {
      BelowGuardSurvives(all, o, s, r, rc, sc, kids, x, at, z, q);
    } else {
      var i :| Emit(i) in ev && (i.path == x || (at.tree.Folder? && x <= i.path));
      AboveSentSurvives(o, s, r, rc, sc, kids, x, at, i, q);
    }
  }

  // ---- Which entries are sheltered ----

  /** The scan sends the entry, or shields its mirror in a way that reaches the manifest. */
  ghost predicate Recorded(all: bool, o: Options, t: Spot, e: Entry) {
    Sent(o, t.rel, t.depth, Node(t), e) != [] || Guarded(all, Guards(o, t.rel, Node(t), e), t.rel + [e.name])
  }

  lemma RecordedIsSheltered(all: bool, o: Options, s: Spot, p: Path, t: Spot, e: Entry, folder: bool)
    requires s.rel == [] && Within(o, s, p, t) && t.dir.readable && e in t.dir.entries && Recorded(all, o, t, e)
    ensures Sheltered(all, DirEvents(o, s), p + [e.name], folder)
  {
    Placed(o, s, p, t);
    assert [] + p == p;
    var path, sent := p + [e.name], Sent(o, t.rel, t.depth, Node(t), e);
    var ev := if sent != [] then Emit(sent[0])
              else if ShieldSize(path) in Guards(o, t.rel, Node(t), e) then ShieldSize(path) else Shield(path);
    assert ev in EntryEvents(o, t.rel, t.depth, Node(t), e);
    assert Owns(o, t, ev);
    Happens(o, s, p, t, ev);
    if sent == [] { assert Guarded(all, DirEvents(o, s), path); }
  }

  /** Whatever the scan met and sent or shielded, its mirror survives the deletion and so
      do the directories above it. */
  lemma MirrorSurvives(all: bool, o: Options, s: Spot, r: string, rc: Path, sc: Scope, kids: seq<Kid>,
                       p: Path, t: Spot, e: Entry, at: Kid, q: Path)
    requires s.rel == [] && CleanDir(s.dir) && TidyRoot(r, rc) && Covers(all, DirEvents(o, s), r, sc) && Sane(kids)
    requires Within(o, s, p, t) && t.dir.readable && e in t.dir.entries && Recorded(all, o, t, e)
    requires Stands(kids, rc + (p + [e.name]), at) && q in Walk(sc, [], false, kids)
    ensures !(q <= rc + (p + [e.name]))
  {
    RecordedIsSheltered(all, o, s, p, t, e, at.tree.Folder?);
    ShelteredSurvives(all, o, s, r, rc, sc, kids, p + [e.name], at, q);
  }

  /** What a rule or a size limit left out is protected with everything below it; under
      --delete-excluded, what a size limit left out. */
  lemma PrunedMirrorSurvives(all: bool, o: Options, s: Spot, r: string, rc: Path, sc: Scope, kids: seq<Kid>,
                             p: Path, t: Spot, e: Entry, q: Path)
    requires s.rel == [] && CleanDir(s.dir) && TidyRoot(r, rc) && Covers(all, DirEvents(o, s), r, sc)
    requires Within(o, s, p, t) && t.dir.readable && e in t.dir.entries
    requires if e.Passed? then e.excluded && (all || e.sizeExcluded)
             else all && !o.select(Node(t), SourceTree.Subject(t.rel, e)).passes
    requires q in Walk(sc, [], false, kids)
    ensures !(rc + (p + [e.name]) <= q)
  {
    var path := p + [e.name];
    Placed(o, s, p, t);
    WithinClean(o, s, p, t);
    assert [] + p == p && Clean(path);
    var ev := if e.Passed? && e.sizeExcluded then ShieldSize(path) else Shield(path);
    assert ev in Guards(o, t.rel, Node(t), e);
    assert ev in EntryEvents(o, t.rel, t.depth, Node(t), e);
    Happens(o, s, p, t, ev);
    assert Guarded(all, DirEvents(o, s), path);
    WireIsMirror(r, rc, path);
    ProtectedIsSpared(sc, kids, rc + path, q);
  }

  ghost predicate AllReadable(d: Dir) {
    d.readable && forall e <- d.entries :: e.SubDir? ==> AllReadable(e.dir)
  }

  /** Every directory is represented: no pruning of empty ones, no depth limit, no listing
      and no file system boundary. */
  predicate Represents(o: Options) {
    o.emitEmpty && !o.prune && !o.listDirs && o.maxDepth <= 0 && o.oneFileSystem <= 0
  }

  /** What a subdirectory does, the directory does. */
  lemma FromKid(o: Options, s: Spot, e: Entry, ev: Event)
    requires GoesInto(o, s, e) && ev in DirEvents(o, Enter(s, e))
    ensures ev in DirEvents(o, s) && Weight(e.dir) < Weight(s.dir)
  {
    KidsOfHas(o, s, Enter(s, e));
    SpotWeightOf(KidsOf(o, s), Enter(s, e));
    SpotsHave(o, KidsOf(o, s), ev);
  }

  lemma KidIsLighter(o: Options, s: Spot, e: Entry)
    requires GoesInto(o, s, e)
    ensures Weight(e.dir) < Weight(s.dir)
  {
    KidsOfHas(o, s, Enter(s, e));
    SpotWeightOf(KidsOf(o, s), Enter(s, e));
  }

  /** What a directory within a scan does, the scan does. */
  lemma {:induction false} FromBelow(o: Options, s: Spot, p: Path, t: Spot, ev: Event)
    requires Within(o, s, p, t) && ev in DirEvents(o, t)
    ensures ev in DirEvents(o, s)
    decreases |p|
  {
    if p != [] {
      var e :| GoesInto(o, s, e) && e.name == p[0] && Within(o, Enter(s, e), p[1..], t);
      FromBelow(o, Enter(s, e), p[1..], t, ev);
      FromKid(o, s, e, ev);
    }
  }

  lemma LeafSent(o: Options, s: Spot, e: Entry)
    requires s.dir.readable && e in s.dir.entries && e.Leaf? && Produces(o, s.rel, s.depth, Node(s), e)
    ensures Emit(Item(s.rel + [e.name], false, e.size)) in DirEvents(o, s)
  {
    var ev := Emit(Item(s.rel + [e.name], false, e.size));
    assert ev in EntryEvents(o, s.rel, s.depth, Node(s), e);
    LocalHas(o, s, ev);
  }

  lemma HollowSent(o: Options, s: Spot)
    requires Represents(o) && s.dir.readable && s.rel != []
    requires forall e <- s.dir.entries :: !Produces(o, s.rel, s.depth, Node(s), e)
    ensures Emit(Item(s.rel, true, 0)) in DirEvents(o, s)
  {
    LocalHas(o, s, Emit(Item(s.rel, true, 0)));
  }

  /** Something is sent at or below every directory the scan goes into. */
  lemma {:induction false} SomethingSent(o: Options, s: Spot) returns (i: Item)
    requires Represents(o) && AllReadable(s.dir) && s.rel != []
    ensures Emit(i) in DirEvents(o, s) && s.rel <= i.path
    decreases Weight(s.dir)
  {
    if e :| e in s.dir.entries && Produces(o, s.rel, s.depth, Node(s), e) {
      if e.Leaf? {
        LeafSent(o, s, e);
        i := Item(s.rel + [e.name], false, e.size);
      } else {
        assert GoesInto(o, s, e);
        KidIsLighter(o, s, e);
        i := SomethingSent(o, Enter(s, e));
        FromKid(o, s, e, Emit(i));
      }
    } else {
      HollowSent(o, s);
      i := Item(s.rel, true, 0);
    }
  }

  /** A directory the scan went into is sheltered, if everything below it could be read. */
  lemma ScannedIsSheltered(all: bool, o: Options, s: Spot, p: Path, t: Spot)
    requires s.rel == [] && Represents(o) && Within(o, s, p, t) && p != [] && AllReadable(t.dir)
    ensures Sheltered(all, DirEvents(o, s), p, true)
  {
    Placed(o, s, p, t);
    assert [] + p == p;
    var i := SomethingSent(o, t);
    FromBelow(o, s, p, t, Emit(i));
  }

  /** Its mirror then survives. */
  lemma ScannedDirectorySurvives(all: bool, o: Options, s: Spot, r: string, rc: Path, sc: Scope, kids: seq<Kid>,
                                 p: Path, t: Spot, at: Kid, q: Path)
    requires s.rel == [] && CleanDir(s.dir) && TidyRoot(r, rc) && Covers(all, DirEvents(o, s), r, sc) && Sane(kids)
    requires Represents(o) && Within(o, s, p, t) && p != [] && AllReadable(t.dir)
    requires Stands(kids, rc + p, at) && at.tree.Folder? && q in Walk(sc, [], false, kids)
    ensures !(q <= rc + p)
  {
    ScannedIsSheltered(all, o, s, p, t);
    ShelteredSurvives(all, o, s, r, rc, sc, kids, p, at, q);
  }
}
