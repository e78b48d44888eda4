/** Both sides together: what the sender puts on the wire, when the receiver commits it, and
    what the deletion walk then removes. */
module WholeRun {
  import opened FilterChain
  import opened SourceTree
  import opened ScanCoverage
  import opened WirePaths
  import opened DeleteWalk
  import opened Protection
  import opened EndToEnd
  import opened SourceRoot
  import opened LateDelete
  import opened EarlyDelete
  import opened MissingArgs
  import Sender
  import SenderBefore
  import Protocol
  import Receiver

  // ---- A manifest across the wire ----

  /** The manifest the receiver reads from the sender's frame. */
  function Decoded(f: Sender.Frame): Protocol.Manifest
    requires f.Manifest?
  {
    Protocol.Manifest(if f.keep.Keep? then f.keep.names else [], f.protect, f.missing, f.dirs)
  }

  /** Whatever the stream carries as manifests was sent as such. */
  ghost predicate Received(wire: seq<Sender.Frame>, ts: seq<Protocol.Timed>) {
    forall m <- Manifests(ts) :: exists f <- wire :: f.Manifest? && m == Decoded(f)
  }

  function Skips(protect: seq<string>): (skips: seq<Skip>)
    ensures forall n <- protect :: Skip(n, false) in skips
    ensures forall k <- skips :: k.prefix in protect && !k.topLevelOnly
  {
    if protect == [] then [] else [Skip(protect[0], false)] + Skips(protect[1..])
  }

  /** The scope the receiver deletes in: the manifest's sections, with prefixes and rules of
      its own. */
  function ScopeFor(m: Protocol.Manifest, own: seq<Skip>, protects: FilterChain.Subject -> bool): Scope {
    Scope(m.keeps, Only(m.dirs), Skips(m.protect) + own, protects)
  }

  lemma {:induction false} EarlierManifest(ts: seq<Protocol.Timed>, k: nat, m: Protocol.Manifest)
    requires k <= |ts| && m in Manifests(ts[..k])
    ensures m in Manifests(ts)
  {
    if k == |ts| {
      assert ts[..k] == ts;
    } else {
      assert ts[..|ts| - 1][..k] == ts[..k];
      EarlierManifest(ts[..|ts| - 1], k, m);
    }
  }

  lemma OnlyDataSent(chunks: seq<Sender.Chunk>, f: Sender.Frame)
    requires f in Sender.DataFrames(chunks)
    ensures !f.Manifest?
  {
    Sender.OnlyDataFrames(chunks);
  }

  /** Of a late run's frames only one can be a manifest. */
  lemma TheManifest(cfg: Sender.Config, scan: Sender.Scan, w: Sender.World, wire: seq<Sender.Frame>, f: Sender.Frame)
    requires Sender.LateWire(cfg, scan, w, wire) && f in wire && f.Manifest?
    ensures f == Sender.ManifestFrame(cfg, scan, Sender.KeepOf(cfg, scan.chunks))
    ensures Sender.Trusted(cfg, scan, w)
  {
    if f in Sender.DataFrames(scan.chunks) { OnlyDataSent(scan.chunks, f); }
  }

  /** Whatever the receiver's run deletes by was sent by a run that had scanned the source
      to its end, and names exactly what that scan sent and shielded. */
  lemma CommittedManifest(cfg: Sender.Config, scan: Sender.Scan, w: Sender.World, wire: seq<Sender.Frame>,
                          rcfg: Protocol.Config, rw: Protocol.World, start: int, ts: seq<Protocol.Timed>, m: Protocol.Manifest)
    requires Sender.LateWire(cfg, scan, w, wire) && Received(wire, ts) && !rcfg.deleteBefore && !rcfg.dryRun
    requires Protocol.Delete(m) in Receiver.Sequential(rcfg, rw, start, ts).disk
    ensures Sender.Trusted(cfg, scan, w)
    ensures m == Decoded(Sender.ManifestFrame(cfg, scan, Sender.KeepOf(cfg, scan.chunks)))
  {
    LateDeleteExactly(rcfg, rw, start, ts, m);
    var k: nat :| FinishesAt(rcfg, rw, start, ts, k) && Manifests(ts[..k]) == [m];
    EarlierManifest(ts, k, m);
    var f :| f in wire && f.Manifest? && m == Decoded(f);
    TheManifest(cfg, scan, w, wire, f);
  }

  /** An early run's one manifest goes out only after a scan that may delete. */
  lemma TheEarlyManifest(cfg: Sender.Config, scan: Sender.Scan, w: Sender.World, reply: SenderBefore.Reply, sent: nat,
                         wire: seq<Sender.Frame>, f: Sender.Frame)
    requires SenderBefore.BeforeWire(cfg, scan, w, reply, sent, wire) && f in wire && f.Manifest?
    ensures f == SenderBefore.EarlyManifest(cfg, scan) && SenderBefore.Judge(cfg, scan).Ask?
  {
    if f in Sender.DataFrames(scan.chunks[..sent]) { OnlyDataSent(scan.chunks[..sent], f); }
  }

  // ---- What a commit leaves of the destination ----

  /** A commit against a destination: first trees at or below the requests of
      --delete-missing-args, then what the walk finds in the rest, either of them perhaps
      cut short by a failure or by --max-delete. */
  ghost predicate Commits(rcfg: Protocol.Config, m: Protocol.Manifest, own: seq<Skip>,
                          protects: FilterChain.Subject -> bool, kids: seq<Kid>, gone: seq<Path>, removed: seq<Path>) {
    && (if rcfg.deleteMissing then OnlyRequested(own, m.missing, gone) else gone == [])
    && [] !in removed
    && (if rcfg.useDelete then forall q <- removed :: q in Walk(ScopeFor(m, own, protects), [], false, Swept(kids, gone))
        else removed == [])
  }

  /** A commit of a scan's own manifest leaves the mirror of anything the scan sent or
      shielded standing, unless it lies in a tree removed for a missing argument. */
  lemma CommitIsSafe(cfg: Sender.Config, o: Options, root: Dir, rc: Path, scan: Sender.Scan, rcfg: Protocol.Config,
                     m: Protocol.Manifest, own: seq<Skip>, protects: FilterChain.Subject -> bool,
                     kids: seq<Kid>, gone: seq<Path>, removed: seq<Path>, x: Path, at: Kid)
    requires ScanOf(o, Spot(root, [], 0, Root), scan) && CleanDir(root) && TidyRoot(cfg.root, rc) && cfg.useDelete
    requires m == Decoded(Sender.ManifestFrame(cfg, scan, Sender.Keep(Sender.Names(cfg.root, Joined(scan.chunks)))))
    requires x != [] && Sheltered(!cfg.deleteExcluded, DirEvents(o, Spot(root, [], 0, Root)), x, at.tree.Folder?)
    requires Sane(kids) && Stands(kids, rc + x, at) && Commits(rcfg, m, own, protects, kids, gone, removed)
    ensures Present(Swept(Swept(kids, gone), removed), rc + x) <==> forall p <- gone :: !(p <= rc + x)
  {
    var left := Swept(kids, gone);
    PresentExactly(left, removed, rc + x);
    PresentExactly(kids, gone, rc + x);
    if forall p <- gone :: !(p <= rc + x) {
      var now := StandsAfter(kids, gone, rc + x, at);
      SweptSane(kids, gone);
      forall q | q in removed ensures !(q <= rc + x) {
        DeletionIsSafe(cfg, o, root, rc, scan, ScopeFor(m, own, protects), left, x, now, q);
      }
    }
  }

  /** From the source tree to the destination: if a late run deletes, then the scan was
      complete and trusted, and of what it sent or shielded nothing loses its mirror but
      what lies in a tree removed for a missing argument, whatever the file system answers,
      whatever the destination holds, and whatever else the receiver protects. */
  lemma WholeRunIsSafe(cfg: Sender.Config, o: Options, root: Dir, rc: Path, scan: Sender.Scan, w: Sender.World,
                       wire: seq<Sender.Frame>, rcfg: Protocol.Config, rw: Protocol.World, start: int,
                       ts: seq<Protocol.Timed>, m: Protocol.Manifest, own: seq<Skip>, protects: FilterChain.Subject -> bool,
                       kids: seq<Kid>, gone: seq<Path>, removed: seq<Path>, x: Path, at: Kid)
    requires ScanOf(o, Spot(root, [], 0, Root), scan) && CleanDir(root) && TidyRoot(cfg.root, rc) && cfg.useDelete
    requires Sender.LateWire(cfg, scan, w, wire) && Received(wire, ts) && !rcfg.deleteBefore && !rcfg.dryRun
    requires Protocol.Delete(m) in Receiver.Sequential(rcfg, rw, start, ts).disk
    requires x != [] && Sheltered(!cfg.deleteExcluded, DirEvents(o, Spot(root, [], 0, Root)), x, at.tree.Folder?)
    requires Sane(kids) && Stands(kids, rc + x, at) && Commits(rcfg, m, own, protects, kids, gone, removed)
    ensures Sender.Trusted(cfg, scan, w) && m.missing == cfg.missing
    ensures Present(Swept(Swept(kids, gone), removed), rc + x) <==> forall p <- gone :: !(p <= rc + x)
  {
    CommittedManifest(cfg, scan, w, wire, rcfg, rw, start, ts, m);
    CommitIsSafe(cfg, o, root, rc, scan, rcfg, m, own, protects, kids, gone, removed, x, at);
  }

  /** The same under --delete-before: what the receiver deletes by is the keep-set of a
      scan that did not fail and that the scan errors let through. */
  lemma EarlyRunIsSafe(cfg: Sender.Config, o: Options, root: Dir, rc: Path, scan: Sender.Scan, w: Sender.World,
                       reply: SenderBefore.Reply, sent: nat, wire: seq<Sender.Frame>,
                       rcfg: Protocol.Config, rw: Protocol.World, start: int,
                       ts: seq<Protocol.Timed>, m: Protocol.Manifest, own: seq<Skip>, protects: FilterChain.Subject -> bool,
                       kids: seq<Kid>, gone: seq<Path>, removed: seq<Path>, x: Path, at: Kid)
    requires ScanOf(o, Spot(root, [], 0, Root), scan) && CleanDir(root) && TidyRoot(cfg.root, rc) && cfg.useDelete
    requires SenderBefore.BeforeWire(cfg, scan, w, reply, sent, wire) && Received(wire, ts) && Early(rcfg)
    requires Protocol.Delete(m) in Receiver.Sequential(rcfg, rw, start, ts).disk
    requires x != [] && Sheltered(!cfg.deleteExcluded, DirEvents(o, Spot(root, [], 0, Root)), x, at.tree.Folder?)
    requires Sane(kids) && Stands(kids, rc + x, at) && Commits(rcfg, m, own, protects, kids, gone, removed)
    ensures SenderBefore.Judge(cfg, scan).Ask? && m.missing == cfg.missing
    ensures Present(Swept(Swept(kids, gone), removed), rc + x) <==> forall p <- gone :: !(p <= rc + x)
  {
    EarlyDeletesSent(rcfg, rw, start, ts, m);
    var f :| f in wire && f.Manifest? && m == Decoded(f);
    TheEarlyManifest(cfg, scan, w, reply, sent, wire, f);
    CommitIsSafe(cfg, o, root, rc, scan, rcfg, m, own, protects, kids, gone, removed, x, at);
  }

  // ---- A root that is not in normal form ----

  /** The keep-set and the protected section of a scan name things below its root. */
  lemma ScanNamesBelow(cfg: Sender.Config, o: Options, s: Spot, scan: Sender.Scan)
    requires s.rel == [] && CleanDir(s.dir) && ScanOf(o, s, scan) && cfg.useDelete
    ensures KeepsBelow(cfg.root, Sender.Names(cfg.root, Joined(scan.chunks)))
    ensures ShieldsBelow(cfg.root, Skips(Sender.Protected(cfg, scan)))
  {
    var ev := DirEvents(o, s);
    forall n | n in Sender.Names(cfg.root, Joined(scan.chunks)) ensures NameBelow(cfg.root, n) {
      KeptExactly(cfg, o, s, scan, n);
      var i :| Emit(i) in ev && n == Wire(cfg.root, i.path);
      EventsClean(o, s, Emit(i));
    }
    forall k | k in Skips(Sender.Protected(cfg, scan)) ensures NameBelow(cfg.root, k.prefix) {
      ProtectedExactly(cfg, o, s, scan, k.prefix);
      var z :| Guarded(!cfg.deleteExcluded, ev, z) && k.prefix == Wire(cfg.root, z);
      EventsClean(o, s, if ShieldSize(z) in ev then ShieldSize(z) else Shield(z));
    }
  }

  /** The scope of a scan's own manifest at a receiver that protects nothing besides. */
  function OwnScope(cfg: Sender.Config, scan: Sender.Scan): Scope {
    ScopeFor(Decoded(Sender.ManifestFrame(cfg, scan, Sender.KeepOf(cfg, scan.chunks))), [], _ => false)
  }

  /** A run that sent a file deletes its own copy of it if and only if the source root is
      not in normal form, whatever else it sent, left out or shielded. */
  lemma OwnFileDeletedExactly(cfg: Sender.Config, o: Options, root: Dir, scan: Sender.Scan, kids: seq<Kid>, i: Item, at: Kid)
    requires cfg.root != "" && cfg.useDelete && CleanDir(root) && ScanOf(o, Spot(root, [], 0, Root), scan) && Sane(kids)
    requires i in Joined(scan.chunks) && Stands(kids, Lands(Wire(cfg.root, i.path)), at) && at.tree.File?
    ensures Lands(Wire(cfg.root, i.path)) in Walk(OwnScope(cfg, scan), [], false, kids) <==> !NormalRoot(cfg.root)
  {
    var s, sc := Spot(root, [], 0, Root), OwnScope(cfg, scan);
    Recovered(DirEvents(o, s));
    EventsClean(o, s, Emit(i));
    ScanNamesBelow(cfg, o, s, scan);
    KeptExactly(cfg, o, s, scan, Wire(cfg.root, i.path));
    assert sc.skips == Skips(Sender.Protected(cfg, scan));
    StoredFileDeletedExactly(cfg.root, i.path, sc, kids, at);
  }
}
