/** From scan to deletion: the keep-set and the protected section a late run sends
    cover everything the scan sent or shielded. */
module EndToEnd {
  import opened FilterChain
  import opened SourceTree
  import opened ScanCoverage
  import opened Scanner
  import opened WirePaths
  import opened DeleteWalk
  import opened Protection
  import opened Sender

  function Shields(ev: seq<Event>): seq<Path> {
    if ev == [] then [] else
    var rest := Shields(ev[..|ev| - 1]);
    if ev[|ev| - 1].Shield? then rest + [ev[|ev| - 1].path] else rest
  }

  function SizeShields(ev: seq<Event>): seq<Path> {
    if ev == [] then [] else
    var rest := SizeShields(ev[..|ev| - 1]);
    if ev[|ev| - 1].ShieldSize? then rest + [ev[|ev| - 1].path] else rest
  }

  /** What a scan recorded, handed to the sender. */
  ghost predicate ScanOf(o: Options, s: Spot, scan: Sender.Scan) {
    && Joined(scan.chunks) == Emitted(DirEvents(o, s))
    && scan.excluded == Shields(DirEvents(o, s))
    && scan.sizeSkipped == SizeShields(DirEvents(o, s))
    && (scan.ioError <==> IoError in DirEvents(o, s))
    && (scan.failed <==> !s.dir.readable)
  }

  /** The scanner's run is such a scan. */
  method ScanSource(o: Options, root: Dir) returns (scan: Sender.Scan)
    ensures ScanOf(o, Spot(root, [], 0, Root), scan)
  {
    var chunks, record, failed := ScanAll(o, root, Root);
    scan := Sender.Scan(chunks, Shields(record), SizeShields(record), failed, IoError in record);
  }

  /** The lists handed over hold exactly what the events say. */
  lemma {:induction false} Recovered(ev: seq<Event>)
    ensures forall i :: i in Emitted(ev) <==> Emit(i) in ev
    ensures forall p :: p in Shields(ev) <==> Shield(p) in ev
    ensures forall p :: p in SizeShields(ev) <==> ShieldSize(p) in ev
  {
    if ev != [] {
      var n := |ev| - 1;
      assert ev == ev[..n] + [ev[n]];
      Recovered(ev[..n]);
    }
  }

  lemma {:induction false} NamesAre(root: string, items: seq<Item>, n: string)
    ensures n in Names(root, items) <==> exists i <- items :: n == Wire(root, i.path)
  {
    if items != [] {
      var k := |items| - 1;
      assert items == items[..k] + [items[k]];
      NamesAre(root, items[..k], n);
    }
  }

  lemma {:induction false} PathNamesAre(root: string, paths: seq<Path>, n: string)
    ensures n in PathNames(root, paths) <==> exists p <- paths :: n == Wire(root, p)
  {
    if paths != [] {
      var k := |paths| - 1;
      assert paths == paths[..k] + [paths[k]];
      PathNamesAre(root, paths[..k], n);
    }
  }

  /** The receiver's scope for a manifest: its keep-set, and its protected names among
      the prefixes to skip. */
  ghost predicate ScopeOf(sc: Scope, keep: seq<string>, protect: seq<string>) {
    sc.keep == keep && forall n <- protect :: Skip(n, false) in sc.skips
  }

  /** A name is kept exactly if it is that of an item sent. */
  lemma KeptExactly(cfg: Config, o: Options, s: Spot, scan: Sender.Scan, n: string)
    requires ScanOf(o, s, scan)
    ensures n in Names(cfg.root, Joined(scan.chunks)) <==> exists i :: Emit(i) in DirEvents(o, s) && n == Wire(cfg.root, i.path)
  {
    Recovered(DirEvents(o, s));
    NamesAre(cfg.root, Joined(scan.chunks), n);
  }

  /** A name is protected exactly if it is that of a guarded path. */
  lemma ProtectedExactly(cfg: Config, o: Options, s: Spot, scan: Sender.Scan, n: string)
    requires ScanOf(o, s, scan) && cfg.useDelete
    ensures n in Protected(cfg, scan) <==>
      exists p :: Guarded(!cfg.deleteExcluded, DirEvents(o, s), p) && n == Wire(cfg.root, p)
  {
    Recovered(DirEvents(o, s));
    PathNamesAre(cfg.root, scan.excluded, n);
    PathNamesAre(cfg.root, scan.sizeSkipped, n);
    if n in Protected(cfg, scan) {
      if n in PathNames(cfg.root, scan.sizeSkipped) {
        var p :| p in scan.sizeSkipped && n == Wire(cfg.root, p);
        assert Guarded(!cfg.deleteExcluded, DirEvents(o, s), p);
      } else {
        var p :| p in scan.excluded && n == Wire(cfg.root, p);
        assert Guarded(!cfg.deleteExcluded, DirEvents(o, s), p);
      }
    }
  }

  /** The manifest covers everything sent, and everything shielded; under
      --delete-excluded, everything shielded for its size. */
  lemma ManifestCovers(cfg: Config, o: Options, s: Spot, scan: Sender.Scan, sc: Scope)
    requires ScanOf(o, s, scan) && cfg.useDelete
    requires ScopeOf(sc, Names(cfg.root, Joined(scan.chunks)), Protected(cfg, scan))
    ensures Covers(!cfg.deleteExcluded, DirEvents(o, s), cfg.root, sc)
  {
    var ev := DirEvents(o, s);
    forall i | Emit(i) in ev ensures Wire(cfg.root, i.path) in sc.keep {
      KeptExactly(cfg, o, s, scan, Wire(cfg.root, i.path));
    }
    forall p | Guarded(!cfg.deleteExcluded, ev, p) ensures Skip(Wire(cfg.root, p), false) in sc.skips {
      ProtectedExactly(cfg, o, s, scan, Wire(cfg.root, p));
    }
  }

  /** A scan's own manifest never costs the mirror of anything sheltered, nor a directory
      above it: for every tree, all options, every tidy root and every destination. */
  lemma DeletionIsSafe(cfg: Config, o: Options, root: Dir, rc: Path, scan: Sender.Scan, sc: Scope, kids: seq<Kid>,
                       x: Path, at: Kid, q: Path)
    requires ScanOf(o, Spot(root, [], 0, Root), scan) && CleanDir(root) && TidyRoot(cfg.root, rc) && cfg.useDelete
    requires ScopeOf(sc, Names(cfg.root, Joined(scan.chunks)), Protected(cfg, scan)) && Sane(kids)
    requires x != [] && Sheltered(!cfg.deleteExcluded, DirEvents(o, Spot(root, [], 0, Root)), x, at.tree.Folder?)
    requires Stands(kids, rc + x, at) && q in Walk(sc, [], false, kids)
    ensures !(q <= rc + x)
  {
    var s := Spot(root, [], 0, Root);
    ManifestCovers(cfg, o, s, scan, sc);
    ShelteredSurvives(!cfg.deleteExcluded, o, s, cfg.root, rc, sc, kids, x, at, q);
  }
}
