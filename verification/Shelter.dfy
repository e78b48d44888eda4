/** Exactly what a run's own deletion spares: the mirror of an entry survives in every
    destination if and only if the scan sheltered it. */
module Shelter {
  import opened FilterChain
  import opened SourceTree
  import opened ScanOrder
  import opened ScanCoverage
  import opened WirePaths
  import opened DeleteWalk
  import opened Protection
  import opened Sender
  import opened EndToEnd

  // ---- Survival in every destination ----

  ghost predicate Spared(sc: Scope, kids: seq<Kid>, m: Path) {
    forall q :: q in Walk(sc, [], false, kids) ==> !(q <= m)
  }

  /** Whatever else the destination holds, an entry at m stays. */
  ghost predicate AlwaysSpared(sc: Scope, m: Path, folder: bool) {
    forall kids, at :: Sane(kids) && Stands(kids, m, at) && at.tree.Folder? == folder ==> Spared(sc, kids, m)
  }

  /** The receiver's scope for a manifest and nothing besides: no rules and no protected
      prefixes of its own. */
  ghost predicate ScopeIs(sc: Scope, keep: seq<string>, protect: seq<string>) {
    && ScopeOf(sc, keep, protect) && sc.dirs == Only(["."])
    && (forall x :: !sc.protects(x))
    && (forall k <- sc.skips :: !k.topLevelOnly && k.prefix in protect)
  }

  /** A destination that holds one entry. */
  function Lone(m: Path, folder: bool): seq<Kid>
    requires m != []
  {
    [Kid(m[0], if |m| > 1 then Folder(Lone(m[1..], folder)) else if folder then Folder([]) else File)]
  }

  lemma {:induction false} LoneStands(m: Path, folder: bool) returns (at: Kid)
    requires m != [] && Clean(m)
    ensures Sane(Lone(m, folder)) && Stands(Lone(m, folder), m, at) && at.tree.Folder? == folder
  {
    var k := Lone(m, folder)[0];
    at := k;
    if |m| > 1 { at := LoneStands(m[1..], folder); }
    assert StandsIn(k, m, at);
  }

  /** Nothing protects the way from rel to the end of m, and what is there is an extra. */
  ghost predicate Exposed(sc: Scope, rel: Path, m: Path, folder: bool)
    requires m != []
  {
    && (forall n :: 0 < n <= |m| ==> !UnderSkip(Join(rel + m[..n]), rel + m[..n - 1] == [], sc.skips))
    && Join(rel + m) !in sc.keep && Join(rel + m) != "."
    && (folder ==> !HasChild(sc.keep, Join(rel + m)))
  }

  lemma {:induction false} ExposedGoes(sc: Scope, rel: Path, m: Path, folder: bool)
    requires m != [] && sc.dirs == Only(["."]) && (forall x :: !sc.protects(x)) && Exposed(sc, rel, m, folder)
    ensures Removable(sc, rel, true, Lone(m, folder), m)
    decreases |m|
  {
    var k := Lone(m, folder)[0];
    assert m[..1] == [k.name] && rel + m[..0] == rel;
    assert !Shielded(sc, rel, k);
    if |m| == 1 {
      assert m == [k.name];
    } else {
      var sub := rel + [k.name];
      assert sub + m[1..] == rel + m;
      forall n | 0 < n <= |m[1..]|
        ensures !UnderSkip(Join(sub + m[1..][..n]), sub + m[1..][..n - 1] == [], sc.skips)
      {
        assert sub + m[1..][..n] == rel + m[..n + 1] && sub + m[1..][..n - 1] == rel + m[..n];
      }
      ExposedGoes(sc, sub, m[1..], folder);
    }
    assert RemovableIn(sc, rel, true, k, m);
  }

  // ---- What is not sheltered is exposed ----

  lemma UnderSkipIsGuarded(cfg: Config, o: Options, s: Spot, rc: Path, scan: Sender.Scan, sc: Scope, x: Path, m: Path, atRoot: bool)
    returns (z: Path)
    requires s.rel == [] && CleanDir(s.dir) && ScanOf(o, s, scan) && TidyRoot(cfg.root, rc) && cfg.useDelete
    requires ScopeIs(sc, Names(cfg.root, Joined(scan.chunks)), Protected(cfg, scan))
    requires Clean(x) && m <= rc + x && UnderSkip(Join(m), atRoot, sc.skips)
    ensures Guarded(!cfg.deleteExcluded, DirEvents(o, s), z) && z <= x
  {
    var i :| 0 <= i < |sc.skips| && StrWithin(sc.skips[i].prefix, Join(m));
    assert sc.skips[i] in sc.skips;
    ProtectedExactly(cfg, o, s, scan, sc.skips[i].prefix);
    z :| Guarded(!cfg.deleteExcluded, DirEvents(o, s), z) && sc.skips[i].prefix == Wire(cfg.root, z);
    EventsClean(o, s, if ShieldSize(z) in DirEvents(o, s) then ShieldSize(z) else Shield(z));
    WireIsMirror(cfg.root, rc, z);
    WithinMeansPrefix(rc + z, m);
    BelowCommon(rc, z, x);
  }

  lemma BelowCommon(rc: Path, z: Path, x: Path)
    ensures rc + z <= rc + x <==> z <= x
  {
    if rc + z <= rc + x {
      forall i | 0 <= i < |z| ensures z[i] == x[i] { assert (rc + z)[|rc| + i] == (rc + x)[|rc| + i]; }
    }
    if z <= x { assert (rc + x)[..|rc + z|] == rc + z; }
  }

  lemma KeptIsSent(cfg: Config, o: Options, s: Spot, rc: Path, scan: Sender.Scan, x: Path, n: string) returns (i: Item)
    requires s.rel == [] && CleanDir(s.dir) && ScanOf(o, s, scan) && TidyRoot(cfg.root, rc) && x != [] && Clean(x)
    requires n in Names(cfg.root, Joined(scan.chunks)) && StrWithin(Join(rc + x), n)
    ensures Emit(i) in DirEvents(o, s) && x <= i.path && (n == Join(rc + x) ==> i.path == x)
  {
    KeptExactly(cfg, o, s, scan, n);
    i :| Emit(i) in DirEvents(o, s) && n == Wire(cfg.root, i.path);
    EventsClean(o, s, Emit(i));
    WireIsMirror(cfg.root, rc, i.path);
    WithinMeansPrefix(rc + x, rc + i.path);
    BelowCommon(rc, x, i.path);
    if n == Join(rc + x) {
      JoinInjective(rc + x, rc + i.path);
      BelowCommon(rc, i.path, x);
    }
  }

  lemma NotTheRoot(m: Path)
    requires m != [] && Clean(m)
    ensures Join(m) != "."
  {
    JoinFirst(m);
  }

  lemma NotSentNotKept(cfg: Config, o: Options, s: Spot, rc: Path, scan: Sender.Scan, sc: Scope, x: Path, folder: bool)
    requires s.rel == [] && CleanDir(s.dir) && ScanOf(o, s, scan) && TidyRoot(cfg.root, rc) && x != [] && Clean(x)
    requires sc.keep == Names(cfg.root, Joined(scan.chunks))
    requires !Sheltered(!cfg.deleteExcluded, DirEvents(o, s), x, folder)
    ensures Join(rc + x) !in sc.keep && (folder ==> !HasChild(sc.keep, Join(rc + x)))
  {
    var name := Join(rc + x);
    if name in sc.keep {
      var i := KeptIsSent(cfg, o, s, rc, scan, x, name);
    }
    if folder && HasChild(sc.keep, name) {
      var k :| 0 <= k < |sc.keep| && StartsWith(sc.keep[k], name + "/");
      assert sc.keep[k][..|name|] == (name + "/")[..|name|] == name && (name + "/")[|name|] == '/';
      var i := KeptIsSent(cfg, o, s, rc, scan, x, sc.keep[k]);
    }
  }

  lemma UnshelteredIsExposed(cfg: Config, o: Options, s: Spot, rc: Path, scan: Sender.Scan, sc: Scope, x: Path, folder: bool)
    requires s.rel == [] && CleanDir(s.dir) && ScanOf(o, s, scan) && TidyRoot(cfg.root, rc) && cfg.useDelete && x != [] && Clean(x)
    requires ScopeIs(sc, Names(cfg.root, Joined(scan.chunks)), Protected(cfg, scan))
    requires !Sheltered(!cfg.deleteExcluded, DirEvents(o, s), x, folder)
    ensures Exposed(sc, [], rc + x, folder)
  {
    var m := rc + x;
    assert [] + m == m;
    NotTheRoot(m);
    NotSentNotKept(cfg, o, s, rc, scan, sc, x, folder);
    forall n | 0 < n <= |m| ensures !UnderSkip(Join([] + m[..n]), [] + m[..n - 1] == [], sc.skips) {
      assert [] + m[..n] == m[..n];
      if UnderSkip(Join(m[..n]), [] + m[..n - 1] == [], sc.skips) {
        var z := UnderSkipIsGuarded(cfg, o, s, rc, scan, sc, x, m[..n], [] + m[..n - 1] == []);
      }
    }
  }

  /** What is not sheltered goes, from a destination that holds nothing else. */
  lemma UnshelteredGoes(cfg: Config, o: Options, s: Spot, rc: Path, scan: Sender.Scan, sc: Scope, x: Path, folder: bool)
    requires s.rel == [] && CleanDir(s.dir) && ScanOf(o, s, scan) && TidyRoot(cfg.root, rc) && cfg.useDelete && x != [] && Clean(x)
    requires ScopeIs(sc, Names(cfg.root, Joined(scan.chunks)), Protected(cfg, scan))
    requires !Sheltered(!cfg.deleteExcluded, DirEvents(o, s), x, folder)
    ensures rc + x in Walk(sc, [], false, Lone(rc + x, folder))
  {
    UnshelteredIsExposed(cfg, o, s, rc, scan, sc, x, folder);
    ExposedGoes(sc, [], rc + x, folder);
    RemovedExactly(sc, Lone(rc + x, folder), rc + x);
  }

  /** For every tree, all options with or without --delete-excluded and every tidy root: a
      path's mirror survives the run's own manifest in every destination if and only if the
      scan sent something as it, or for a directory below it, or shielded it or a directory
      above it in a way that reaches the manifest. */
  lemma SurvivesExactly(cfg: Config, o: Options, root: Dir, rc: Path, scan: Sender.Scan, sc: Scope, x: Path, folder: bool)
    requires ScanOf(o, Spot(root, [], 0, Root), scan) && CleanDir(root) && TidyRoot(cfg.root, rc) && cfg.useDelete
    requires ScopeIs(sc, Names(cfg.root, Joined(scan.chunks)), Protected(cfg, scan)) && x != [] && Clean(x)
    ensures AlwaysSpared(sc, rc + x, folder)
       <==> Sheltered(!cfg.deleteExcluded, DirEvents(o, Spot(root, [], 0, Root)), x, folder)
  {
    var s := Spot(root, [], 0, Root);
    if Sheltered(!cfg.deleteExcluded, DirEvents(o, s), x, folder) {
      forall kids, at, q | Sane(kids) && Stands(kids, rc + x, at) && at.tree.Folder? == folder && q in Walk(sc, [], false, kids)
        ensures !(q <= rc + x)
      {
        DeletionIsSafe(cfg, o, root, rc, scan, sc, kids, x, at, q);
      }
    } else {
      UnshelteredGoes(cfg, o, s, rc, scan, sc, x, folder);
      var at := LoneStands(rc + x, folder);
      assert !Spared(sc, Lone(rc + x, folder), rc + x);
    }
  }

  // ---- Entry by entry ----

  lemma SameEntry(d: Dir, a: Entry, b: Entry)
    requires Distinct(d.entries) && a in d.entries && b in d.entries && a.name == b.name
    ensures a == b
  {
  }

  lemma {:induction false} WithinNeat(o: Options, s: Spot, p: Path, t: Spot)
    requires Neat(s.dir) && Within(o, s, p, t)
    ensures Neat(t.dir)
    decreases |p|
  {
    if p != [] {
      var e :| GoesInto(o, s, e) && e.name == p[0] && Within(o, Enter(s, e), p[1..], t);
      WithinNeat(o, Enter(s, e), p[1..], t);
    }
  }

  /** In a neat tree a path leads to one directory. */
  lemma {:induction false} WithinUnique(o: Options, s: Spot, p: Path, t: Spot, u: Spot)
    requires Neat(s.dir) && Within(o, s, p, t) && Within(o, s, p, u)
    ensures t == u
    decreases |p|
  {
    if p != [] {
      var e :| GoesInto(o, s, e) && e.name == p[0] && Within(o, Enter(s, e), p[1..], t);
      var f :| GoesInto(o, s, f) && f.name == p[0] && Within(o, Enter(s, f), p[1..], u);
      SameEntry(s.dir, e, f);
      WithinUnique(o, Enter(s, e), p[1..], t, u);
    }
  }

  /** A way that starts with p and a name goes through that entry of the directory at p. */
  lemma {:induction false} Through(o: Options, s: Spot, p: Path, t: Spot, e: Entry, way: Path, u: Spot)
    requires Neat(s.dir) && Within(o, s, p, t) && e in t.dir.entries && Within(o, s, way, u) && p + [e.name] <= way
    ensures GoesInto(o, t, e) && Within(o, Enter(t, e), way[|p| + 1..], u)
    decreases |p|
  {
    var f :| GoesInto(o, s, f) && f.name == way[0] && Within(o, Enter(s, f), way[1..], u);
    if p == [] {
      SameEntry(s.dir, e, f);
    } else {
      var g :| GoesInto(o, s, g) && g.name == p[0] && Within(o, Enter(s, g), p[1..], t);
      assert way[0] == (p + [e.name])[0] == p[0];
      SameEntry(s.dir, f, g);
      assert (p + [e.name])[1..] == p[1..] + [e.name] <= way[1..];
      Through(o, Enter(s, g), p[1..], t, e, way[1..], u);
      assert way[1..][|p[1..]| + 1..] == way[|p| + 1..];
    }
  }

  lemma OwnEntry(o: Options, s: Spot, p: Path, t: Spot, e: Entry, way: Path, u: Spot, f: Entry)
    requires Neat(s.dir) && Within(o, s, p, t) && e in t.dir.entries && Within(o, s, way, u) && f in u.dir.entries
    requires p + [e.name] == way + [f.name]
    ensures u == t && f == e
  {
    assert p == (p + [e.name])[..|p|] && way == (way + [f.name])[..|way|] && |p| == |way|;
    assert e.name == (p + [e.name])[|p|] == (way + [f.name])[|way|] == f.name;
    WithinUnique(o, s, p, t, u);
    WithinNeat(o, s, p, t);
    SameEntry(t.dir, e, f);
  }

  /** What a scan says about the path of an entry it says about that entry, or it says it
      within that entry. */
  lemma AboutEntry(o: Options, s: Spot, p: Path, t: Spot, e: Entry, ev: Event)
    requires s.rel == [] && Neat(s.dir) && Within(o, s, p, t) && t.dir.readable && e in t.dir.entries
    requires ev in DirEvents(o, s) && !ev.IoError? && p + [e.name] <= PathOf(ev)
    ensures ev in EntryEvents(o, t.rel, t.depth, Node(t), e) || (GoesInto(o, t, e) && ev in DirEvents(o, Enter(t, e)))
  {
    var way, u := Arises(o, s, ev);
    Placed(o, s, way, u);
    assert [] + way == way;
    OwnedPath(o, u, ev);
    if p + [e.name] <= way {
      Through(o, s, p, t, e, way, u);
      Happens(o, Enter(t, e), way[|p| + 1..], u, ev);
    } else {
      var f :| f in u.dir.entries && PathOf(ev) == way + [f.name] && ev in EntryEvents(o, u.rel, u.depth, Node(u), f);
      LongerByOne(p + [e.name], way, f.name);
      OwnEntry(o, s, p, t, e, way, u, f);
    }
  }

  lemma LongerByOne(x: Path, way: Path, name: string)
    requires x <= way + [name]
    ensures x <= way || x == way + [name]
  {
  }

  ghost predicate GuardedAbove(all: bool, ev: seq<Event>, p: Path) { exists z :: Guarded(all, ev, z) && z <= p }

  /** Something is sent within a directory: as itself, or for a directory at its mirror
      below it. */
  ghost predicate SendsWithin(o: Options, t: Spot, e: Entry, x: Path, folder: bool) {
    GoesInto(o, t, e) && exists i :: Emit(i) in DirEvents(o, Enter(t, e)) && (i.path == x || (folder && x <= i.path))
  }

  /** Every entry of every directory the scan reads is sheltered if and only if a directory
      above it is guarded, or it is sent or guarded itself, or the scan goes into it and
      sends something there. */
  lemma EntryShelteredExactly(all: bool, o: Options, s: Spot, p: Path, t: Spot, e: Entry, folder: bool)
    requires s.rel == [] && Neat(s.dir) && Within(o, s, p, t) && t.dir.readable && e in t.dir.entries
    ensures Sheltered(all, DirEvents(o, s), p + [e.name], folder) <==>
      || GuardedAbove(all, DirEvents(o, s), p)
      || Recorded(all, o, t, e)
      || SendsWithin(o, t, e, p + [e.name], folder)
  {
    if Sheltered(all, DirEvents(o, s), p + [e.name], folder) { ShelteredBy(all, o, s, p, t, e, folder); }
    if Recorded(all, o, t, e) { RecordedIsSheltered(all, o, s, p, t, e, folder); }
    if SendsWithin(o, t, e, p + [e.name], folder) { WithinIsSheltered(all, o, s, p, t, e, folder); }
    if z :| Guarded(all, DirEvents(o, s), z) && z <= p { assert z <= p + [e.name]; }
  }

  lemma WithinIsSheltered(all: bool, o: Options, s: Spot, p: Path, t: Spot, e: Entry, folder: bool)
    requires Within(o, s, p, t) && SendsWithin(o, t, e, p + [e.name], folder)
    ensures Sheltered(all, DirEvents(o, s), p + [e.name], folder)
  {
    var i :| Emit(i) in DirEvents(o, Enter(t, e)) && (i.path == p + [e.name] || (folder && p + [e.name] <= i.path));
    FromKid(o, t, e, Emit(i));
    FromBelow(o, s, p, t, Emit(i));
  }

  lemma ShelteredBy(all: bool, o: Options, s: Spot, p: Path, t: Spot, e: Entry, folder: bool)
    requires s.rel == [] && Neat(s.dir) && Within(o, s, p, t) && t.dir.readable && e in t.dir.entries
    requires Sheltered(all, DirEvents(o, s), p + [e.name], folder)
    ensures || GuardedAbove(all, DirEvents(o, s), p)
            || Recorded(all, o, t, e)
            || SendsWithin(o, t, e, p + [e.name], folder)
  {
    var ev, x := DirEvents(o, s), p + [e.name];
    if i :| Emit(i) in ev && (i.path == x || (folder && x <= i.path)) {
      SentOfEntry(all, o, s, p, t, e, folder, i);
    } else {
      var z :| Guarded(all, ev, z) && z <= x;
      if z == x {
        GuardOfEntry(all, o, s, p, t, e);
      } else {
        LongerByOne(z, p, e.name);
      }
    }
  }

  lemma SentOfEntry(all: bool, o: Options, s: Spot, p: Path, t: Spot, e: Entry, folder: bool, i: Item)
    requires s.rel == [] && Neat(s.dir) && Within(o, s, p, t) && t.dir.readable && e in t.dir.entries
    requires Emit(i) in DirEvents(o, s) && (i.path == p + [e.name] || (folder && p + [e.name] <= i.path))
    ensures Recorded(all, o, t, e) || SendsWithin(o, t, e, p + [e.name], folder)
  {
    AboutEntry(o, s, p, t, e, Emit(i));
    if Emit(i) in EntryEvents(o, t.rel, t.depth, Node(t), e) { assert Sent(o, t.rel, t.depth, Node(t), e) != []; }
  }

  /** A scan of a directory shields only what lies below it. */
  lemma ShieldsBelow(o: Options, s: Spot, ev: Event)
    requires ev in DirEvents(o, s) && (ev.Shield? || ev.ShieldSize?)
    ensures |ev.path| > |s.rel|
  {
    var p, t := Arises(o, s, ev);
    Placed(o, s, p, t);
    OwnedPath(o, t, ev);
  }

  lemma GuardOfEntry(all: bool, o: Options, s: Spot, p: Path, t: Spot, e: Entry)
    requires s.rel == [] && Neat(s.dir) && Within(o, s, p, t) && t.dir.readable && e in t.dir.entries
    requires Guarded(all, DirEvents(o, s), p + [e.name])
    ensures Recorded(all, o, t, e)
  {
    var x := p + [e.name];
    Placed(o, s, p, t);
    assert [] + p == p;
    var ev := if ShieldSize(x) in DirEvents(o, s) then ShieldSize(x) else Shield(x);
    AboutEntry(o, s, p, t, e, ev);
    if ev !in EntryEvents(o, t.rel, t.depth, Node(t), e) { ShieldsBelow(o, Enter(t, e), ev); }
    assert ev in Guards(o, t.rel, Node(t), e);
  }

  // ---- What is lost ----

  /** Selected by the rules and not protected by them. */
  predicate Plain(o: Options, t: Spot, e: Entry) {
    o.select(Node(t), SourceTree.Subject(t.rel, e)) == Verdict(true, false)
  }

  /** A directory that cannot be read is sheltered only by a guard above it. */
  lemma UnreadableExposed(all: bool, o: Options, s: Spot, p: Path, t: Spot, e: Entry, folder: bool)
    requires s.rel == [] && Neat(s.dir) && Within(o, s, p, t) && GoesInto(o, t, e) && Plain(o, t, e)
    requires !e.dir.readable && !o.listDirs
    ensures Sheltered(all, DirEvents(o, s), p + [e.name], folder) <==> GuardedAbove(all, DirEvents(o, s), p)
  {
    EntryShelteredExactly(all, o, s, p, t, e, folder);
  }

  /** So is one beyond the depth limit, with all that is in it. */
  lemma TooDeepExposed(all: bool, o: Options, s: Spot, p: Path, t: Spot, e: Entry, folder: bool)
    requires s.rel == [] && Neat(s.dir) && Within(o, s, p, t) && t.dir.readable && e in t.dir.entries && Plain(o, t, e)
    requires e.SubDir? && !e.mountPoint && 0 < o.maxDepth <= t.depth + 1 && !o.listDirs
    ensures Sheltered(all, DirEvents(o, s), p + [e.name], folder) <==> GuardedAbove(all, DirEvents(o, s), p)
  {
    EntryShelteredExactly(all, o, s, p, t, e, folder);
  }

  lemma NothingAboveRoot(all: bool, o: Options, s: Spot, z: Path)
    requires s.rel == [] && CleanDir(s.dir) && Guarded(all, DirEvents(o, s), z)
    ensures !(z <= [])
  {
    EventsClean(o, s, if ShieldSize(z) in DirEvents(o, s) then ShieldSize(z) else Shield(z));
  }

  function TwoEntries(): Dir {
    Dir(true, [], [Leaf("f", 1, false), SubDir("d", false, Dir(false, [], []))])
  }

  lemma TwoAreNeat()
    ensures Neat(TwoEntries()) && CleanDir(TwoEntries()) && Clean(["d"])
  {
    assert CleanName("f") && CleanName("d");
  }

  /** A file beside a directory that cannot be read: under --ignore-errors the keep-set
      goes out, and the mirror of the directory is deleted. */
  lemma UnreadableDirectoryIsLost(cfg: Config, o: Options, rc: Path, scan: Sender.Scan, sc: Scope)
    requires (forall c, x :: o.select(c, x) == Verdict(true, false)) && o.maxDepth <= 0 && !o.listDirs
    requires ScanOf(o, Spot(TwoEntries(), [], 0, Root), scan) && TidyRoot(cfg.root, rc) && cfg.useDelete && cfg.ignoreErrors
    requires ScopeIs(sc, Names(cfg.root, Joined(scan.chunks)), Protected(cfg, scan))
    ensures Names(cfg.root, Joined(scan.chunks)) != [] && AllowsDelete(cfg, scan.ioError)
    ensures rc + ["d"] in Walk(sc, [], false, Lone(rc + ["d"], true))
  {
    var s := Spot(TwoEntries(), [], 0, Root);
    var f, d := s.dir.entries[0], s.dir.entries[1];
    TwoAreNeat();
    LeafSent(o, s, f);
    KeptExactly(cfg, o, s, scan, Wire(cfg.root, [] + ["f"]));
    LoneUnsheltered(!cfg.deleteExcluded, o, s, d);
    UnshelteredGoes(cfg, o, s, rc, scan, sc, ["d"], true);
  }

  lemma LoneUnsheltered(all: bool, o: Options, s: Spot, e: Entry)
    requires s.rel == [] && Neat(s.dir) && CleanDir(s.dir) && s.dir.readable && e in s.dir.entries && e.SubDir? && Plain(o, s, e)
    requires !e.mountPoint && !o.listDirs && (if Descends(o, [], s.depth, Node(s), e) then !e.dir.readable else 0 < o.maxDepth <= s.depth + 1)
    ensures !Sheltered(all, DirEvents(o, s), [e.name], true)
  {
    assert [] + [e.name] == [e.name] && Within(o, s, [], s);
    if Descends(o, [], s.depth, Node(s), e) {
      UnreadableExposed(all, o, s, [], s, e, true);
    } else {
      TooDeepExposed(all, o, s, [], s, e, true);
    }
    if GuardedAbove(all, DirEvents(o, s), []) {
      var z :| Guarded(all, DirEvents(o, s), z) && z <= [];
      NothingAboveRoot(all, o, s, z);
    }
  }

  function DeepEntry(): Dir { Dir(true, [], [SubDir("d", false, Dir(true, [], [Leaf("f", 1, false)]))]) }

  lemma DeepIsNeat()
    ensures Neat(DeepEntry()) && CleanDir(DeepEntry()) && Clean(["d"])
  {
    assert CleanName("f") && CleanName("d");
  }

  /** A directory beyond the depth limit is not entered, not sent and not shielded: its
      mirror is deleted by a run without any error. */
  lemma DeepDirectoryIsLost(cfg: Config, o: Options, rc: Path, scan: Sender.Scan, sc: Scope)
    requires (forall c, x :: o.select(c, x) == Verdict(true, false)) && o.maxDepth == 1 && !o.listDirs
    requires ScanOf(o, Spot(DeepEntry(), [], 0, Root), scan) && TidyRoot(cfg.root, rc) && cfg.useDelete
    requires ScopeIs(sc, Names(cfg.root, Joined(scan.chunks)), Protected(cfg, scan))
    ensures !scan.failed && rc + ["d"] in Walk(sc, [], false, Lone(rc + ["d"], true))
  {
    var s := Spot(DeepEntry(), [], 0, Root);
    DeepIsNeat();
    LoneUnsheltered(!cfg.deleteExcluded, o, s, s.dir.entries[0]);
    UnshelteredGoes(cfg, o, s, rc, scan, sc, ["d"], true);
  }
}
