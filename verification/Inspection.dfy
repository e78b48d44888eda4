/** How an entry on disk becomes an entry of the scan: what symbolic links are turned into,
    which entries are dropped, and which of the dropped ones keep their mirrors. */
module Inspection {
  import opened FilterChain
  import opened SourceTree
  import opened ScanOrder
  import opened ScanCoverage
  import opened WirePaths
  import opened DeleteWalk
  import opened Protection
  import opened Sender
  import opened EndToEnd
  import opened Shelter
  import Protocol

  // ---- What is on disk ----

  datatype Kind = Regular | Device | Pipe

  /** What lstat and, for a link, readlink and stat say. `Absent` is gone by then. */
  datatype Raw =
    | Absent(name: string)
    | Plain(name: string, kind: Kind, size: nat)
    | Branch(name: string, mount: bool, tree: RawDir)
    | Symlink(name: string, size: nat, target: Protocol.Option<string>, referent: Referent)

  datatype Referent = Dangling | ToPlain(kind: Kind, size: nat) | ToBranch(mount: bool, tree: RawDir)

  datatype RawDir = RawDir(readable: bool, own: Rules, entries: seq<Raw>)

  /** The options inspection looks at; a size limit of 0 is none. */
  datatype Choices = Choices(
    follow: bool, copyLinks: bool, copyUnsafe: bool, copyDirlinks: bool, safeLinks: bool, munge: bool,
    glob: Glob, excludes: seq<string>, includes: seq<string>, maxSize: nat, minSize: nat,
    devices: bool, specials: bool, copyDevices: bool)

  // ---- Targets that lead out of the tree ----

  /** The components of a path, a run of slashes counting once; the last may be empty. */
  function Parts(head: string, w: string): (parts: seq<string>)
    ensures parts != []
    decreases |w|
  {
    if w == "" then [head]
    else if w[0] != '/' then Parts(head + [w[0]], w[1..])
    else if |w| > 1 && w[1] == '/' then Parts(head, w[1..])
    else [head] + Parts("", w[1..])
  }

  /** How deep a link lies: names before the last count, ".." starts over. */
  function LinkDepth(parts: seq<string>): nat
    requires parts != []
  {
    var n := |parts| - 1;
    if parts[n] == ".." then 0 else DirDepth(parts[..n])
  }

  function DirDepth(parts: seq<string>): nat {
    if parts == [] then 0
    else
      var n := |parts| - 1;
      if parts[n] == ".." then 0 else DirDepth(parts[..n]) + if parts[n] == "." then 0 else 1
  }

  /** Follow a target's components from a depth; false as soon as it is left upwards. */
  predicate Climbs(depth: nat, parts: seq<string>)
    decreases |parts|
  {
    if parts == [] then true
    else if parts[0] == ".." then depth > 0 && Climbs(depth - 1, parts[1..])
    else Climbs(if parts[0] == "." || |parts| == 1 then depth else depth + 1, parts[1..])
  }

  /** The leading run of ".." that something follows. */
  function Lead(parts: seq<string>): nat {
    if |parts| > 1 && parts[0] == ".." then 1 + Lead(parts[1..]) else 0
  }

  /** A ".." after something else, unless it is the target's only component. */
  predicate Backtracks(parts: seq<string>) {
    || (exists i :: Lead(parts) <= i < |parts| - 1 && parts[i] == "..")
    || (|parts| > 1 && parts[|parts| - 1] == "..")
  }

  /** file_symlink_unsafe */
  predicate Unsafe(target: string, link: string) {
    || target == "" || target[0] == '/'
    || Backtracks(Parts("", target))
    || !Climbs(LinkDepth(Parts("", link)), Parts("", target))
  }

  /** Where a target leads from a directory of the tree, if it stays inside. */
  function Resolve(dir: Path, parts: seq<string>): Protocol.Option<Path>
    decreases |parts|
  {
    if parts == [] then Protocol.Some(dir)
    else if parts[0] == "" || parts[0] == "." then Resolve(dir, parts[1..])
    else if parts[0] != ".." then Resolve(dir + [parts[0]], parts[1..])
    else if dir == [] then Protocol.None
    else Resolve(dir[..|dir| - 1], parts[1..])
  }

  /** Components before the last are not empty. */
  predicate Filled(parts: seq<string>) { forall i :: 0 <= i < |parts| - 1 ==> parts[i] != "" }

  lemma {:induction false} ClimbsInside(dir: Path, parts: seq<string>)
    requires Filled(parts)
    ensures Climbs(|dir|, parts) <==> Resolve(dir, parts).Some?
    decreases |parts|
  {
    if parts != [] {
      var rest := parts[1..];
      assert Filled(rest);
      if parts[0] == ".." {
        if dir != [] { ClimbsInside(dir[..|dir| - 1], rest); }
      } else if |parts| > 1 && parts[0] != "." {
        ClimbsInside(dir + [parts[0]], rest);
      } else if parts[0] == "." {
        ClimbsInside(dir, rest);
      }
    }
  }

  lemma {:induction false} PartsFilled(head: string, w: string)
    requires head != "" || (w != "" && w[0] != '/')
    ensures Filled(Parts(head, w))
    decreases |w|
  {
    if w != "" {
      if w[0] != '/' {
        PartsFilled(head + [w[0]], w[1..]);
      } else if |w| > 1 && w[1] == '/' {
        PartsFilled(head, w[1..]);
      } else if |w| > 1 {
        PartsFilled("", w[1..]);
      }
    }
  }

  lemma {:induction false} PartsOfName(head: string, n: string, rest: string)
    requires '/' !in n && (rest == "" || rest[0] == '/')
    ensures Parts(head, n + rest) == Parts(head + n, rest)
    decreases |n|
  {
    if n == "" {
      assert n + rest == rest && head + n == head;
    } else {
      var w := n + rest;
      assert w[0] == n[0] && n[0] in n && w[1..] == n[1..] + rest;
      PartsOfName(head + [n[0]], n[1..], rest);
      assert head + [n[0]] + n[1..] == head + n;
    }
  }

  lemma {:induction false} PartsOfPath(p: Path)
    requires p != [] && Clean(p)
    ensures Parts("", Join(p)) == p
  {
    if |p| == 1 {
      PartsOfName("", p[0], "");
      assert p[0] + "" == p[0] && "" + p[0] == p[0] && p == [p[0]];
    } else {
      var rest := Join(p[1..]);
      JoinFront(p);
      JoinEnds(p[1..]);
      assert Join(p) == p[0] + ("/" + rest) && ("/" + rest)[1..] == rest;
      PartsOfName("", p[0], "/" + rest);
      assert "" + p[0] == p[0];
      PartsOfPath(p[1..]);
      assert p == [p[0]] + p[1..];
    }
  }

  lemma {:induction false} DepthOfPath(p: Path)
    requires Clean(p)
    ensures DirDepth(p) == |p|
  {
    if p != [] { DepthOfPath(p[..|p| - 1]); }
  }

  /** The target of a link is safe if and only if it is relative, goes up only at its
      start, and followed from the link's own directory never leaves the transfer root. */
  lemma SafeExactly(rel: Path, name: string, target: string)
    requires Clean(rel + [name])
    ensures !Unsafe(target, Join(rel + [name])) <==>
      && target != "" && target[0] != '/'
      && !Backtracks(Parts("", target)) && Resolve(rel, Parts("", target)).Some?
  {
    PartsOfPath(rel + [name]);
    assert (rel + [name])[..|rel|] == rel;
    assert forall i :: 0 <= i < |rel| ==> rel[i] == (rel + [name])[i];
    DepthOfPath(rel);
    if target != "" && target[0] != '/' {
      PartsFilled("", target);
      ClimbsInside(rel, Parts("", target));
    }
  }

  // ---- One entry ----

  datatype LinkAction = SkipLink | SkipProtected | Deref | Carry

  /** scanner_link_action */
  function ActionOn(c: Choices, link: string, target: Protocol.Option<string>, referent: Referent): LinkAction {
    if !c.follow && !c.copyLinks && !c.safeLinks && !c.copyUnsafe && !c.copyDirlinks then SkipLink
    else if target.None? then SkipLink
    else
      var unsafe := Unsafe(target.value, link);
      if c.copyLinks || (c.copyUnsafe && unsafe) then Deref
      else if c.copyDirlinks && referent.ToBranch? then Deref
      else if c.safeLinks && (unsafe || c.munge) then SkipProtected
      else if !c.follow || target.value == "" then SkipLink
      else Carry
  }

  /** What inspection makes of an entry. */
  datatype Found =
    | Dropped(excluded: bool, sizeExcluded: bool, referentError: bool)
    | FoundLeaf(size: nat, unsupported: bool)
    | FoundDir(mount: bool, tree: RawDir)

  predicate NamedOut(c: Choices, name: string) {
    || (exists i :: 0 <= i < |c.excludes| && c.glob(c.excludes[i], name))
    || (c.includes != [] && !exists i :: 0 <= i < |c.includes| && c.glob(c.includes[i], name))
  }

  predicate SizedOut(c: Choices, size: nat) {
    (c.maxSize > 0 && size > c.maxSize) || (c.minSize > 0 && size < c.minSize)
  }

  /** The name patterns, then the size limits; `sent` is what the entry is sent as. */
  function Filtered(c: Choices, name: string, size: nat, sent: Found): Found {
    if NamedOut(c, name) then Dropped(true, false, false)
    else if SizedOut(c, size) then Dropped(true, true, false)
    else sent
  }

  /** scanner_prepare_special: what a node that is not a link is sent as. */
  function NodeAs(c: Choices, kind: Kind, size: nat): Found {
    match kind
    case Regular => FoundLeaf(size, false)
    case Device => if c.copyDevices then FoundLeaf(size, false) else FoundLeaf(0, !c.devices)
    case Pipe => FoundLeaf(0, !c.specials)
  }

  /** scanner_inspect_entry, with the special files the caller then decides about. */
  function Inspected(c: Choices, rel: Path, raw: Raw): (found: Found)
    ensures found.FoundDir? ==>
      (raw.Branch? && found.tree == raw.tree) || (raw.Symlink? && raw.referent.ToBranch? && found.tree == raw.referent.tree)
  {
    match raw
    case Absent(_) => Dropped(false, false, false)
    case Plain(name, kind, size) => Filtered(c, name, size, NodeAs(c, kind, size))
    case Branch(_, mount, tree) => FoundDir(mount, tree)
    case Symlink(name, size, target, referent) =>
      match ActionOn(c, Join(rel + [name]), target, referent)
      case SkipLink => Dropped(false, false, false)
      case SkipProtected => Dropped(true, false, false)
      case Carry => Filtered(c, name, size, FoundLeaf(0, false))
      case Deref =>
        match referent
        case Dangling => Dropped(false, false, true)
        case ToBranch(mount, tree) => FoundDir(mount, tree)
        case ToPlain(kind, refSize) => Filtered(c, name, refSize, NodeAs(c, kind, refSize))
  }

  method AnyMatch(glob: Glob, patterns: seq<string>, name: string) returns (hit: bool)
    ensures hit <==> exists i :: 0 <= i < |patterns| && glob(patterns[i], name)
  {
    hit := false;
    var i := 0;
    while i < |patterns|
      invariant 0 <= i <= |patterns|
      invariant hit <==> exists k :: 0 <= k < i && glob(patterns[k], name)
    {
      if glob(patterns[i], name) {
        hit := true;
      }
      i := i + 1;
    }
  }

  /** The part after the label apply_filters. */
  method ApplyFilters(c: Choices, name: string, size: nat, sent: Found) returns (found: Found)
    ensures found == Filtered(c, name, size, sent)
  {
    var excluded := AnyMatch(c.glob, c.excludes, name);
    if excluded {
      return Dropped(true, false, false);
    }
    if |c.includes| > 0 {
      var included := AnyMatch(c.glob, c.includes, name);
      if !included {
        return Dropped(true, false, false);
      }
    }
    if (c.maxSize > 0 && size > c.maxSize) || (c.minSize > 0 && size < c.minSize) {
      return Dropped(true, true, false);
    }
    found := sent;
  }

  /** scanner_inspect_entry as it runs. */
  method InspectEntry(c: Choices, rel: Path, raw: Raw) returns (found: Found)
    ensures found == Inspected(c, rel, raw)
  {
    if raw.Absent? {
      return Dropped(false, false, false);
    }
    if raw.Symlink? {
      var action := ActionOn(c, Join(rel + [raw.name]), raw.target, raw.referent);
      match action
      case SkipLink => return Dropped(false, false, false);
      case SkipProtected => return Dropped(true, false, false);
      case Carry =>
        found := ApplyFilters(c, raw.name, raw.size, FoundLeaf(0, false));
        return;
      case Deref =>
        if raw.referent.Dangling? {
          return Dropped(false, false, true);
        }
        if raw.referent.ToBranch? {
          return FoundDir(raw.referent.mount, raw.referent.tree);
        }
        found := ApplyFilters(c, raw.name, raw.referent.size, NodeAs(c, raw.referent.kind, raw.referent.size));
        return;
    }
    if raw.Branch? {
      return FoundDir(raw.mount, raw.tree);
    }
    found := ApplyFilters(c, raw.name, raw.size, NodeAs(c, raw.kind, raw.size));
  }

  // ---- A whole tree ----

  function EntryOf(c: Choices, rel: Path, raw: Raw): (e: Entry)
    ensures e.name == raw.name
    decreases raw
  {
    match Inspected(c, rel, raw)
    case Dropped(excluded, sizeExcluded, referentError) => Passed(raw.name, excluded, sizeExcluded, referentError)
    case FoundLeaf(size, unsupported) => Leaf(raw.name, size, unsupported)
    case FoundDir(mount, tree) => SubDir(raw.name, mount, Survey(c, rel + [raw.name], tree))
  }

  function EntriesOf(c: Choices, rel: Path, raws: seq<Raw>): (es: seq<Entry>)
    ensures |es| == |raws| && forall i :: 0 <= i < |es| ==> es[i] == EntryOf(c, rel, raws[i])
    decreases raws
  {
    if raws == [] then [] else [EntryOf(c, rel, raws[0])] + EntriesOf(c, rel, raws[1..])
  }

  /** The tree as the scan meets it. */
  function Survey(c: Choices, rel: Path, d: RawDir): Dir
    decreases d
  {
    Dir(d.readable, d.own, EntriesOf(c, rel, d.entries))
  }

  /** `d` is found on disk along `way`, through directories and links followed to them. */
  ghost predicate OnDisk(c: Choices, rel: Path, top: RawDir, way: Path, d: RawDir)
    decreases |way|
  {
    if way == [] then d == top
    else exists raw, tree :: raw in top.entries && raw.name == way[0] && Opens(c, rel, raw, tree)
                             && OnDisk(c, rel + [raw.name], tree, way[1..], d)
  }

  ghost predicate Opens(c: Choices, rel: Path, raw: Raw, tree: RawDir) {
    Inspected(c, rel, raw).FoundDir? && Inspected(c, rel, raw).tree == tree
  }

  lemma SurveyedEntry(c: Choices, rel: Path, top: RawDir, e: Entry) returns (raw: Raw, tree: RawDir)
    requires e in Survey(c, rel, top).entries && e.SubDir?
    ensures raw in top.entries && raw.name == e.name && Opens(c, rel, raw, tree)
    ensures e.dir == Survey(c, rel + [e.name], tree)
  {
    var es := Survey(c, rel, top).entries;
    var i :| 0 <= i < |es| && es[i] == e;
    raw := top.entries[i];
    tree := Inspected(c, rel, raw).tree;
  }

  lemma OnDiskStep(c: Choices, rel: Path, top: RawDir, way: Path, d: RawDir, raw: Raw, tree: RawDir)
    requires way != [] && raw in top.entries && raw.name == way[0] && Opens(c, rel, raw, tree)
    requires OnDisk(c, rel + [raw.name], tree, way[1..], d)
    ensures OnDisk(c, rel, top, way, d)
  {
  }

  /** Every directory a scan reaches was surveyed from one on disk. */
  lemma {:induction false} Surveyed(c: Choices, o: Options, s: Spot, top: RawDir, way: Path, t: Spot) returns (d: RawDir)
    requires s.dir == Survey(c, s.rel, top) && Within(o, s, way, t)
    ensures OnDisk(c, s.rel, top, way, d) && t.dir == Survey(c, t.rel, d)
    decreases |way|
  {
    if way == [] {
      d := top;
    } else {
      var e :| GoesInto(o, s, e) && e.name == way[0] && Within(o, Enter(s, e), way[1..], t);
      var raw, tree := SurveyedEntry(c, s.rel, top, e);
      d := Surveyed(c, o, Enter(s, e), tree, way[1..], t);
      OnDiskStep(c, s.rel, top, way, d, raw, tree);
    }
  }

  // ---- Which drops protect ----

  /** Left out by --safe-links and by nothing that comes before it. */
  predicate SafeDrop(c: Choices, rel: Path, raw: Raw) {
    raw.Symlink? && ActionOn(c, Join(rel + [raw.name]), raw.target, raw.referent).SkipProtected?
  }

  /** The size the limits are held against: the node's own, that of a link carried as a link,
      or that of the node a link is followed to. */
  function Measured(c: Choices, rel: Path, raw: Raw): Protocol.Option<nat> {
    match raw
    case Plain(_, _, size) => Protocol.Some(size)
    case Symlink(name, size, target, referent) =>
      (match ActionOn(c, Join(rel + [name]), target, referent)
       case Carry => Protocol.Some(size)
       case Deref => if referent.ToPlain? then Protocol.Some(referent.size) else Protocol.None
       case _ => Protocol.None)
    case _ => Protocol.None
  }

  predicate NameDrop(c: Choices, rel: Path, raw: Raw) { Measured(c, rel, raw).Some? && NamedOut(c, raw.name) }

  predicate SizeDrop(c: Choices, rel: Path, raw: Raw) {
    Measured(c, rel, raw).Some? && !NamedOut(c, raw.name) && SizedOut(c, Measured(c, rel, raw).value)
  }

  /** Left out without a trace in the manifest: an entry that vanished, a link nobody asked
      for, that cannot be read or has an empty target, and a followed link without referent. */
  predicate SilentDrop(c: Choices, rel: Path, raw: Raw) {
    || raw.Absent?
    || (raw.Symlink? && var a := ActionOn(c, Join(rel + [raw.name]), raw.target, raw.referent);
                        a.SkipLink? || (a.Deref? && raw.referent.Dangling?))
  }

  /** An entry is dropped for one of four reasons; it goes on the size-skipped sink for its
      size, on the excluded sink for its name or for --safe-links, and on none otherwise. */
  lemma DropsExactly(c: Choices, rel: Path, raw: Raw)
    ensures var f := Inspected(c, rel, raw);
            && (f.Dropped? <==> SafeDrop(c, rel, raw) || NameDrop(c, rel, raw) || SizeDrop(c, rel, raw) || SilentDrop(c, rel, raw))
            && (f.Dropped? ==> (f.sizeExcluded <==> SizeDrop(c, rel, raw)))
            && (f.Dropped? ==> (f.excluded <==> !SilentDrop(c, rel, raw)))
    ensures SilentDrop(c, rel, raw) ==> !SafeDrop(c, rel, raw) && !NameDrop(c, rel, raw) && !SizeDrop(c, rel, raw)
  {
  }

  lemma DroppedGuards(all: bool, c: Choices, o: Options, t: Spot, raw: Raw)
    requires Inspected(c, t.rel, raw).Dropped?
    ensures Recorded(all, o, t, EntryOf(c, t.rel, raw))
       <==> SizeDrop(c, t.rel, raw) || (all && (SafeDrop(c, t.rel, raw) || NameDrop(c, t.rel, raw)))
  {
    DropsExactly(c, t.rel, raw);
  }

  /** A directory the scan read, as it is on disk. */
  ghost predicate Reads(c: Choices, o: Options, s: Spot, p: Path, t: Spot, d: RawDir) {
    Within(o, s, p, t) && t.dir == Survey(c, t.rel, d) && d.readable
  }

  lemma EntryThere(c: Choices, rel: Path, d: RawDir, raw: Raw)
    requires raw in d.entries
    ensures EntryOf(c, rel, raw) in Survey(c, rel, d).entries
  {
    var i :| 0 <= i < |d.entries| && d.entries[i] == raw;
    assert Survey(c, rel, d).entries[i] == EntryOf(c, rel, raw);
  }

  /** Of the entries dropped on inspection exactly these are sheltered: those dropped for
      their size, and, unless --delete-excluded, those dropped for their name or by
      --safe-links; any other only by a guarded directory above it. */
  lemma DropShelteredExactly(all: bool, c: Choices, o: Options, s: Spot, p: Path, t: Spot, d: RawDir, raw: Raw, folder: bool)
    requires s.rel == [] && Neat(s.dir) && Reads(c, o, s, p, t, d)
    requires raw in d.entries && Inspected(c, t.rel, raw).Dropped?
    ensures Sheltered(all, DirEvents(o, s), p + [raw.name], folder) <==>
      || GuardedAbove(all, DirEvents(o, s), p)
      || SizeDrop(c, t.rel, raw) || (all && (SafeDrop(c, t.rel, raw) || NameDrop(c, t.rel, raw)))
  {
    EntryThere(c, t.rel, d, raw);
    EntryShelteredExactly(all, o, s, p, t, EntryOf(c, t.rel, raw), folder);
    DroppedGuards(all, c, o, t, raw);
  }

  /** From the disk to the deletion: the mirror of an entry dropped on inspection survives
      in every destination if and only if a size limit dropped it, or without
      --delete-excluded a name pattern or --safe-links did, or a directory above it is
      guarded. */
  lemma DropSurvivesExactly(cfg: Config, c: Choices, o: Options, root: Dir, rc: Path, scan: Sender.Scan, sc: Scope,
                            p: Path, t: Spot, d: RawDir, raw: Raw, folder: bool)
    requires Neat(root) && CleanDir(root) && ScanOf(o, Spot(root, [], 0, Root), scan) && TidyRoot(cfg.root, rc) && cfg.useDelete
    requires ScopeIs(sc, Names(cfg.root, Joined(scan.chunks)), Protected(cfg, scan))
    requires Reads(c, o, Spot(root, [], 0, Root), p, t, d) && raw in d.entries && Inspected(c, t.rel, raw).Dropped?
    ensures AlwaysSpared(sc, rc + (p + [raw.name]), folder) <==>
      || GuardedAbove(!cfg.deleteExcluded, DirEvents(o, Spot(root, [], 0, Root)), p)
      || SizeDrop(c, t.rel, raw) || (!cfg.deleteExcluded && (SafeDrop(c, t.rel, raw) || NameDrop(c, t.rel, raw)))
  {
    WithinClean(o, Spot(root, [], 0, Root), p, t);
    EntryThere(c, t.rel, d, raw);
    SurvivesExactly(cfg, o, root, rc, scan, sc, p + [raw.name], folder);
    DropShelteredExactly(!cfg.deleteExcluded, c, o, Spot(root, [], 0, Root), p, t, d, raw, folder);
  }
}
