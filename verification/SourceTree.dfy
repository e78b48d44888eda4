/** A source tree as the scanner meets it, the order it sorts a directory in, and
    a recursive account of what scanning the tree should produce. */
module SourceTree {
  import opened FilterChain

  /** Path components below the transfer root; [] is the root itself. */
  type Path = seq<string>

  function Join(p: Path): string {
    if p == [] then "" else if |p| == 1 then p[0] else Join(p[..|p| - 1]) + "/" + p[|p| - 1]
  }

  /** One inspected directory entry. `Passed` entries were skipped on inspection;
      an `unsupported` leaf is a device or FIFO nobody asked to preserve. */
  datatype Entry =
    | Passed(name: string, excluded: bool, sizeExcluded: bool, referentError: bool)
    | Leaf(name: string, size: nat, unsupported: bool)
    | SubDir(name: string, mountPoint: bool, dir: Dir)

  datatype Dir = Dir(readable: bool, own: Rules, entries: seq<Entry>)

  datatype Item = Item(path: Path, isDir: bool, size: nat)

  /** What a scan does: send an item, shield a destination mirror from deletion, or
      note a source that could not be read. */
  datatype Event = Emit(item: Item) | Shield(path: Path) | ShieldSize(path: Path) | IoError

  /** How entries are selected: any function of the rules in force and the entry. */
  type Selector = (Chain, FilterChain.Subject) -> Verdict

  datatype Options = Options(select: Selector, maxDepth: int, chunkSize: nat, emitEmpty: bool,
                             prune: bool, listDirs: bool, oneFileSystem: int)

  /** A directory waiting to be scanned. */
  datatype Spot = Spot(dir: Dir, rel: Path, depth: nat, inherited: Chain)

  // ---- The order of a directory ----

  /** strcmp(a, b) <= 0 */
  predicate StrLe(a: string, b: string) {
    if a == [] then true else if b == [] then false
    else if a[0] == b[0] then StrLe(a[1..], b[1..]) else a[0] < b[0]
  }

  predicate Before(a: Entry, b: Entry) {
    if a.SubDir? == b.SubDir? then StrLe(a.name, b.name) else b.SubDir?
  }

  function Insert(e: Entry, es: seq<Entry>): seq<Entry> {
    if es == [] || Before(e, es[0]) then [e] + es else [es[0]] + Insert(e, es[1..])
  }

  /** The buffered directory after qsort with sorted_entry_cmp. */
  function Sort(es: seq<Entry>): seq<Entry> {
    if es == [] then [] else Insert(es[0], Sort(es[1..]))
  }

  // ---- The recursive account ----

  function Subject(rel: Path, e: Entry): FilterChain.Subject {
    FilterChain.Subject(Join(rel + [e.name]), e.name, e.SubDir?)
  }

  /** The rules in force inside a directory: its own, then what it inherited. */
  function Context(inherited: Chain, own: Rules): Chain {
    if own == [] then inherited else Link(own, inherited)
  }

  /** The shields and errors one entry gives rise to. */
  function Guards(o: Options, rel: Path, ctx: Chain, e: Entry): seq<Event> {
    var path := rel + [e.name];
    match e
    case Passed(_, excluded, sizeExcluded, referentError) =>
      (if referentError then [IoError] else [])
      + (if !excluded then [] else if sizeExcluded then [ShieldSize(path)] else [Shield(path)])
    case _ =>
      var v := o.select(ctx, Subject(rel, e));
      if !v.passes || v.protect then [Shield(path)] else []
  }

  /** The item one entry is sent as, if any, leaving its descendants aside. */
  function Sent(o: Options, rel: Path, depth: nat, ctx: Chain, e: Entry): (items: seq<Item>)
    ensures |items| <= 1
  {
    var path := rel + [e.name];
    if e.Passed? || !o.select(ctx, Subject(rel, e)).passes then []
    else if e.Leaf? then
      (if (o.maxDepth > 0 && depth + 1 > o.maxDepth) || e.unsupported then [] else [Item(path, false, e.size)])
    else if e.mountPoint && o.oneFileSystem > 0 then
      (if o.oneFileSystem > 1 then [] else [Item(path, true, 0)])
    else if o.listDirs then [Item(path, true, 0)] else []
  }

  /** What one entry adds to the event stream, leaving its descendants aside. */
  function EntryEvents(o: Options, rel: Path, depth: nat, ctx: Chain, e: Entry): seq<Event> {
    var sent := Sent(o, rel, depth, ctx, e);
    if sent == [] then Guards(o, rel, ctx, e) else Guards(o, rel, ctx, e) + [Emit(sent[0])]
  }

  /** Does the entry count as content of its directory? */
  predicate Produces(o: Options, rel: Path, depth: nat, ctx: Chain, e: Entry) {
    match e
    case Passed(_, _, _, _) => false
    case Leaf(_, _, unsupported) =>
      o.select(ctx, Subject(rel, e)).passes && !(o.maxDepth > 0 && depth + 1 > o.maxDepth) && !unsupported
    case SubDir(_, mountPoint, _) =>
      o.select(ctx, Subject(rel, e)).passes && !(mountPoint && o.oneFileSystem > 1)
  }

  /** Is the entry a directory the scan goes into? */
  predicate Descends(o: Options, rel: Path, depth: nat, ctx: Chain, e: Entry) {
    && e.SubDir?
    && o.select(ctx, Subject(rel, e)).passes
    && !(e.mountPoint && o.oneFileSystem > 0)
    && (o.maxDepth <= 0 || depth + 1 < o.maxDepth)
  }

  function Inline(o: Options, rel: Path, depth: nat, ctx: Chain, es: seq<Entry>): seq<Event> {
    if es == [] then [] else EntryEvents(o, rel, depth, ctx, es[0]) + Inline(o, rel, depth, ctx, es[1..])
  }

  predicate AnyProduces(o: Options, rel: Path, depth: nat, ctx: Chain, es: seq<Entry>) {
    es != [] && (Produces(o, rel, depth, ctx, es[0]) || AnyProduces(o, rel, depth, ctx, es[1..]))
  }

  function Kid(o: Options, rel: Path, depth: nat, ctx: Chain, e: Entry): seq<Spot> {
    if Descends(o, rel, depth, ctx, e) then [Spot(e.dir, rel + [e.name], depth + 1, ctx)] else []
  }

  function Kids(o: Options, rel: Path, depth: nat, ctx: Chain, es: seq<Entry>): seq<Spot> {
    if es == [] then []
    else Kid(o, rel, depth, ctx, es[0]) + Kids(o, rel, depth, ctx, es[1..])
  }

  /** A directory from which nothing came is sent as itself, except the root. */
  function Hollow(o: Options, rel: Path, produced: bool): seq<Event> {
    if o.emitEmpty && !produced && !o.prune && !o.listDirs && rel != [] then [Emit(Item(rel, true, 0))] else []
  }

  /** How much there is to scan. */
  function Weight(d: Dir): nat { 2 + Weights(d.entries) }

  function Weights(es: seq<Entry>): nat {
    if es == [] then 0 else 1 + (if es[0].SubDir? then Weight(es[0].dir) else 0) + Weights(es[1..])
  }

  function SpotWeights(spots: seq<Spot>): nat {
    if spots == [] then 0 else Weight(spots[0].dir) + SpotWeights(spots[1..])
  }

  lemma {:induction false} InsertWeights(e: Entry, es: seq<Entry>)
    ensures Weights(Insert(e, es)) == Weights([e] + es)
  {
    if es == [] || Before(e, es[0]) {
    } else {
      InsertWeights(e, es[1..]);
      var r := Insert(e, es);
      assert r[0] == es[0] && r[1..] == Insert(e, es[1..]);
      assert ([e] + es)[1..] == es && ([e] + es[1..])[1..] == es[1..];
    }
  }

  lemma {:induction false} SortWeights(es: seq<Entry>)
    ensures Weights(Sort(es)) == Weights(es)
  {
    if es != [] {
      SortWeights(es[1..]);
      InsertWeights(es[0], Sort(es[1..]));
      assert ([es[0]] + Sort(es[1..]))[1..] == Sort(es[1..]);
    }
  }

  lemma {:induction false} KidsWeights(o: Options, rel: Path, depth: nat, ctx: Chain, es: seq<Entry>)
    ensures SpotWeights(Kids(o, rel, depth, ctx, es)) <= Weights(es)
  {
    if es != [] {
      KidsWeights(o, rel, depth, ctx, es[1..]);
      var kids := Kids(o, rel, depth, ctx, es);
      if Descends(o, rel, depth, ctx, es[0]) {
        assert kids[1..] == Kids(o, rel, depth, ctx, es[1..]);
        assert SpotWeights(kids) == Weight(es[0].dir) + SpotWeights(kids[1..]);
      } else {
        assert kids == Kids(o, rel, depth, ctx, es[1..]);
      }
    }
  }

  /** The rules in force in a directory. */
  function Node(s: Spot): Chain { Context(s.inherited, s.dir.own) }

  /** What one readable directory adds, its subdirectories aside. */
  function Local(o: Options, s: Spot): seq<Event> {
    var es := Sort(s.dir.entries);
    Inline(o, s.rel, s.depth, Node(s), es) + Hollow(o, s.rel, AnyProduces(o, s.rel, s.depth, Node(s), es))
  }

  /** The subdirectories a scan goes into, in the order it visits them. */
  function KidsOf(o: Options, s: Spot): (kids: seq<Spot>)
    ensures SpotWeights(kids) < Weight(s.dir)
  {
    SortWeights(s.dir.entries);
    KidsWeights(o, s.rel, s.depth, Node(s), Sort(s.dir.entries));
    Kids(o, s.rel, s.depth, Node(s), Sort(s.dir.entries))
  }

  /** The depth-first account of scanning one directory: its entries in order, itself
      if nothing came of them, then each directory below it. */
  function DirEvents(o: Options, s: Spot): seq<Event>
    decreases Weight(s.dir), 1
  {
    if !s.dir.readable then [IoError] else Local(o, s) + SpotsEvents(o, KidsOf(o, s))
  }

  function SpotsEvents(o: Options, spots: seq<Spot>): seq<Event>
    decreases SpotWeights(spots), 2
  {
    if spots == [] then [] else DirEvents(o, spots[0]) + SpotsEvents(o, spots[1..])
  }

  /** The items sent, in order. */
  function Emitted(ev: seq<Event>): seq<Item> {
    if ev == [] then [] else
    var last := ev[|ev| - 1];
    if last.Emit? then Emitted(ev[..|ev| - 1]) + [last.item] else Emitted(ev[..|ev| - 1])
  }

  function Payload(items: seq<Item>): nat {
    if items == [] then 0 else Payload(items[..|items| - 1]) + items[|items| - 1].size
  }

  function Joined<T>(parts: seq<seq<T>>): seq<T> {
    if parts == [] then [] else Joined(parts[..|parts| - 1]) + parts[|parts| - 1]
  }

  lemma JoinedOne<T>(parts: seq<seq<T>>, part: seq<T>)
    ensures Joined(parts + [part]) == Joined(parts) + part
  {
    assert (parts + [part])[..|parts + [part]| - 1] == parts;
  }
}
