/** What a scan covers, said from the tree and not from the walk: which entries it
    sends or shields, under which rules, and that it sends no path twice. */
module ScanCoverage {
  import opened FilterChain
  import opened SourceTree
  import opened ScanOrder
  import opened Scanner

  // ---- Which directories are scanned ----

  function Enter(s: Spot, e: Entry): Spot
    requires e.SubDir?
  {
    Spot(e.dir, s.rel + [e.name], s.depth + 1, Node(s))
  }

  /** `e` is a directory entry of `s` the scan goes into. */
  ghost predicate GoesInto(o: Options, s: Spot, e: Entry) {
    s.dir.readable && e in s.dir.entries && Descends(o, s.rel, s.depth, Node(s), e)
  }

  /** Going from `s` through subdirectories named `p`, each one entered, leads to `t`. */
  ghost predicate Within(o: Options, s: Spot, p: Path, t: Spot)
    decreases |p|
  {
    if p == [] then s == t
    else exists e :: GoesInto(o, s, e) && e.name == p[0] && Within(o, Enter(s, e), p[1..], t)
  }

  /** What a directory gives rise to itself. */
  ghost predicate Owns(o: Options, t: Spot, ev: Event) {
    if !t.dir.readable then ev == IoError
    else
      || ev in Hollow(o, t.rel, exists e <- t.dir.entries :: Produces(o, t.rel, t.depth, Node(t), e))
      || exists e <- t.dir.entries :: ev in EntryEvents(o, t.rel, t.depth, Node(t), e)
  }

  lemma {:induction false} InlineHas(o: Options, rel: Path, depth: nat, node: Chain, es: seq<Entry>, ev: Event)
    ensures ev in Inline(o, rel, depth, node, es) <==> exists e <- es :: ev in EntryEvents(o, rel, depth, node, e)
  {
    if es != [] {
      InlineHas(o, rel, depth, node, es[1..], ev);
      assert es == [es[0]] + es[1..];
    }
  }

  lemma {:induction false} AnyProducesHas(o: Options, rel: Path, depth: nat, node: Chain, es: seq<Entry>)
    ensures AnyProduces(o, rel, depth, node, es) <==> exists e <- es :: Produces(o, rel, depth, node, e)
  {
    if es != [] {
      AnyProducesHas(o, rel, depth, node, es[1..]);
      assert es == [es[0]] + es[1..];
    }
  }

  lemma {:induction false} KidsHas(o: Options, rel: Path, depth: nat, node: Chain, es: seq<Entry>, k: Spot)
    ensures k in Kids(o, rel, depth, node, es)
      <==> exists e <- es :: Descends(o, rel, depth, node, e) && k == Spot(e.dir, rel + [e.name], depth + 1, node)
  {
    if es != [] {
      KidsHas(o, rel, depth, node, es[1..], k);
      assert es == [es[0]] + es[1..];
    }
  }

  lemma SortHas(es: seq<Entry>, e: Entry)
    ensures e in Sort(es) <==> e in es
  {
    SortIs(es);
    assert e in multiset(Sort(es)) <==> e in multiset(es);
  }

  lemma LocalHas(o: Options, s: Spot, ev: Event)
    requires s.dir.readable
    ensures ev in Local(o, s) <==> Owns(o, s, ev)
  {
    var es := Sort(s.dir.entries);
    InlineHas(o, s.rel, s.depth, Node(s), es, ev);
    AnyProducesHas(o, s.rel, s.depth, Node(s), es);
    forall e ensures e in es <==> e in s.dir.entries { SortHas(s.dir.entries, e); }
  }

  lemma KidsOfHas(o: Options, s: Spot, k: Spot)
    requires s.dir.readable
    ensures k in KidsOf(o, s) <==> exists e :: GoesInto(o, s, e) && k == Enter(s, e)
  {
    var es := Sort(s.dir.entries);
    KidsHas(o, s.rel, s.depth, Node(s), es, k);
    forall e ensures e in es <==> e in s.dir.entries { SortHas(s.dir.entries, e); }
    if k in KidsOf(o, s) {
      var e :| e in es && Descends(o, s.rel, s.depth, Node(s), e) && k == Spot(e.dir, s.rel + [e.name], s.depth + 1, Node(s));
      assert GoesInto(o, s, e);
    }
  }

  lemma {:induction false} SpotsHave(o: Options, spots: seq<Spot>, ev: Event)
    ensures ev in SpotsEvents(o, spots) <==> exists k <- spots :: ev in DirEvents(o, k)
  {
    if spots != [] {
      var rest := spots[1..];
      SpotsHave(o, rest, ev);
      assert ev in SpotsEvents(o, spots) <==> ev in DirEvents(o, spots[0]) || ev in SpotsEvents(o, rest);
      if ev in SpotsEvents(o, rest) { var k :| k in rest && ev in DirEvents(o, k); assert k in spots; }
      if k :| k in spots && ev in DirEvents(o, k) { assert k == spots[0] || k in rest; }
    }
  }

  lemma {:induction false} SpotWeightOf(spots: seq<Spot>, k: Spot)
    requires k in spots
    ensures Weight(k.dir) <= SpotWeights(spots)
  {
    assert spots == [spots[0]] + spots[1..];
    if k != spots[0] { SpotWeightOf(spots[1..], k); }
  }

  lemma {:induction false} Arises(o: Options, s: Spot, ev: Event) returns (p: Path, t: Spot)
    requires ev in DirEvents(o, s)
    ensures Within(o, s, p, t) && Owns(o, t, ev)
    decreases Weight(s.dir)
  {
    p, t := [], s;
    if s.dir.readable {
      LocalHas(o, s, ev);
      if ev !in Local(o, s) {
        SpotsHave(o, KidsOf(o, s), ev);
        var k :| k in KidsOf(o, s) && ev in DirEvents(o, k);
        KidsOfHas(o, s, k);
        var e :| GoesInto(o, s, e) && k == Enter(s, e);
        SpotWeightOf(KidsOf(o, s), k);
        var q;
        q, t := Arises(o, k, ev);
        p := [e.name] + q;
        assert p[1..] == q;
      }
    }
  }

  lemma {:induction false} Happens(o: Options, s: Spot, p: Path, t: Spot, ev: Event)
    requires Within(o, s, p, t) && Owns(o, t, ev)
    ensures ev in DirEvents(o, s)
    decreases |p|
  {
    if p == [] {
      if s.dir.readable { LocalHas(o, s, ev); }
    } else {
      var e :| GoesInto(o, s, e) && e.name == p[0] && Within(o, Enter(s, e), p[1..], t);
      Happens(o, Enter(s, e), p[1..], t, ev);
      KidsOfHas(o, s, Enter(s, e));
      SpotsHave(o, KidsOf(o, s), ev);
    }
  }

  /** Some directory the scan reaches, through directories it goes into, owns it. */
  ghost predicate Reached(o: Options, s: Spot, ev: Event) {
    exists p, t :: Within(o, s, p, t) && Owns(o, t, ev)
  }

  /** A scan does something if and only if a directory it reaches gives rise to it. */
  lemma CoversExactly(o: Options, s: Spot, ev: Event)
    ensures ev in DirEvents(o, s) <==> Reached(o, s, ev)
  {
    if ev in DirEvents(o, s) {
      var p, t := Arises(o, s, ev);
    } else if Reached(o, s, ev) {
      HappensAnyway(o, s, ev);
    }
  }

  lemma HappensAnyway(o: Options, s: Spot, ev: Event)
    requires Reached(o, s, ev)
    ensures ev in DirEvents(o, s)
  {
    var p, t :| Within(o, s, p, t) && Owns(o, t, ev);
    Happens(o, s, p, t, ev);
  }

  // ---- Under which rules ----

  /** The rules of a line of directories, innermost first. */
  function Lineage(dirs: seq<Dir>): Rules {
    if dirs == [] then [] else dirs[|dirs| - 1].own + Lineage(dirs[..|dirs| - 1])
  }

  /** `dirs` are the directories met going from `d` along `p`. */
  ghost predicate Line(d: Dir, p: Path, dirs: seq<Dir>)
    decreases |p|
  {
    && |dirs| == |p| + 1 && dirs[0] == d
    && (p != [] ==> exists e <- d.entries :: e.SubDir? && e.name == p[0] && Line(e.dir, p[1..], dirs[1..]))
  }

  lemma {:induction false} LineageFront(d: Dir, dirs: seq<Dir>)
    ensures Lineage([d] + dirs) == Lineage(dirs) + d.own
  {
    var all := [d] + dirs;
    if dirs == [] {
      assert all[..|all| - 1] == [];
    } else {
      assert all[..|all| - 1] == [d] + dirs[..|dirs| - 1];
      LineageFront(d, dirs[..|dirs| - 1]);
    }
  }

  lemma FlattenNode(s: Spot, base: Rules)
    ensures Flatten(Node(s), base) == s.dir.own + Flatten(s.inherited, base)
  {
    assert [] + Flatten(s.inherited, base) == Flatten(s.inherited, base);
  }

  /** A directory found along `p` lies at `p`. */
  lemma {:induction false} Placed(o: Options, s: Spot, p: Path, t: Spot)
    requires Within(o, s, p, t)
    ensures t.rel == s.rel + p && t.depth == s.depth + |p|
    decreases |p|
  {
    if p != [] {
      var e :| GoesInto(o, s, e) && e.name == p[0] && Within(o, Enter(s, e), p[1..], t);
      Placed(o, Enter(s, e), p[1..], t);
      assert s.rel + [p[0]] + p[1..] == s.rel + p;
    }
  }

  /** A directory at depth n below the start is judged under its own rules, then its
      parents' from the nearest outwards, then what the start inherited. */
  lemma {:induction false} RulesInForce(o: Options, s: Spot, p: Path, t: Spot, base: Rules) returns (dirs: seq<Dir>)
    requires Within(o, s, p, t)
    ensures Line(s.dir, p, dirs) && dirs[|p|] == t.dir
    ensures Flatten(Node(t), base) == Lineage(dirs) + Flatten(s.inherited, base)
    decreases |p|
  {
    FlattenNode(s, base);
    if p == [] {
      dirs := [s.dir];
      LineageFront(s.dir, []);
      assert [s.dir] + [] == dirs;
    } else {
      var e :| GoesInto(o, s, e) && e.name == p[0] && Within(o, Enter(s, e), p[1..], t);
      var rest := RulesInForce(o, Enter(s, e), p[1..], t, base);
      dirs := [s.dir] + rest;
      Longer(s.dir, e, p, rest);
      LineageFront(s.dir, rest);
    }
  }

  /** Selection by filter rules. */
  function ByRules(sel: Selection): Selector { (chain: Chain, x: FilterChain.Subject) => Select(sel, chain, x) }

  /** In a scan by filter rules an entry of a directory found along `p` is left out if and
      only if it is a rule file to be left out, or the first rule that fires on it, among
      those of its directory, of the directories above it from the nearest outwards, and of
      the command line, excludes it; and it is protected by the first rule of the receiver's
      side likewise. */
  lemma JudgedByLineage(o: Options, sel: Selection, root: Dir, p: Path, t: Spot, x: FilterChain.Subject) returns (dirs: seq<Dir>)
    requires o.select == ByRules(sel)
    requires Within(o, Spot(root, [], 0, Root), p, t)
    ensures Line(root, p, dirs) && dirs[|p|] == t.dir
    ensures !o.select(Node(t), x).passes <==>
      sel.filtering && (FilterFile(sel, x) || FirstExcludes(sel.glob, Lineage(dirs) + sel.base, x, Sender))
    ensures o.select(Node(t), x).protect <==>
      sel.filtering && !FilterFile(sel, x) && FirstExcludes(sel.glob, Lineage(dirs) + sel.base, x, Receiver)
  {
    dirs := RulesInForce(o, Spot(root, [], 0, Root), p, t, sel.base);
    FirstExactly(sel.glob, Lineage(dirs) + sel.base, x, Sender);
    FirstExactly(sel.glob, Lineage(dirs) + sel.base, x, Receiver);
  }

  lemma Longer(d: Dir, e: Entry, p: Path, rest: seq<Dir>)
    requires p != [] && e in d.entries && e.SubDir? && e.name == p[0] && Line(e.dir, p[1..], rest)
    ensures Line(d, p, [d] + rest) && ([d] + rest)[|p|] == rest[|p| - 1]
  {
    assert ([d] + rest)[1..] == rest;
  }

  // ---- No path twice ----

  /** Distinct names in this directory and in every one below it. */
  ghost predicate Neat(d: Dir) {
    Distinct(d.entries) && forall e <- d.entries :: e.SubDir? ==> Neat(e.dir)
  }

  /** How often a path is sent. */
  function Times(ev: seq<Event>, q: Path): nat {
    if ev == [] then 0 else (if ev[0].Emit? && ev[0].item.path == q then 1 else 0) + Times(ev[1..], q)
  }

  lemma {:induction false} TimesConcat(a: seq<Event>, b: seq<Event>, q: Path)
    ensures Times(a + b, q) == Times(a, q) + Times(b, q)
  {
    if a == [] { assert a + b == b; } else { assert (a + b)[1..] == a[1..] + b; TimesConcat(a[1..], b, q); }
  }

  lemma {:induction false} NeverSent(ev: seq<Event>, q: Path)
    requires forall x <- ev :: x.Emit? ==> x.item.path != q
    ensures Times(ev, q) == 0
  {
    if ev != [] { NeverSent(ev[1..], q); }
  }

  /** An entry is sent once at most, under its own name. */
  lemma EntryTimes(o: Options, rel: Path, depth: nat, node: Chain, e: Entry, q: Path)
    ensures Times(EntryEvents(o, rel, depth, node, e), q) <= 1
    ensures q != rel + [e.name] ==> Times(EntryEvents(o, rel, depth, node, e), q) == 0
    ensures Sent(o, rel, depth, node, e) == [] ==> Times(EntryEvents(o, rel, depth, node, e), q) == 0
  {
    var guards, sent := Guards(o, rel, node, e), Sent(o, rel, depth, node, e);
    NeverSent(guards, q);
    if sent != [] { TimesConcat(guards, [Emit(sent[0])], q); }
  }

  lemma HollowTimes(o: Options, rel: Path, produced: bool, q: Path)
    ensures Times(Hollow(o, rel, produced), q) <= 1
    ensures q != rel || o.listDirs ==> Times(Hollow(o, rel, produced), q) == 0
  {
  }

  /** What the entries `es` and the directories among them send of `q`. */
  function TimesBelow(o: Options, rel: Path, depth: nat, node: Chain, es: seq<Entry>, q: Path): nat {
    Times(Inline(o, rel, depth, node, es), q) + Times(SpotsEvents(o, Kids(o, rel, depth, node, es)), q)
  }

  lemma TimesBelowStep(o: Options, rel: Path, depth: nat, node: Chain, es: seq<Entry>, q: Path)
    requires es != []
    ensures TimesBelow(o, rel, depth, node, es, q)
         == Times(EntryEvents(o, rel, depth, node, es[0]), q)
          + Times(SpotsEvents(o, Kid(o, rel, depth, node, es[0])), q)
          + TimesBelow(o, rel, depth, node, es[1..], q)
  {
    var kid, kids := Kid(o, rel, depth, node, es[0]), Kids(o, rel, depth, node, es[1..]);
    TimesConcat(EntryEvents(o, rel, depth, node, es[0]), Inline(o, rel, depth, node, es[1..]), q);
    SpotsConcat(o, kid, kids);
    TimesConcat(SpotsEvents(o, kid), SpotsEvents(o, kids), q);
  }

  lemma DirTimes(o: Options, s: Spot, q: Path)
    ensures Times(DirEvents(o, s), q) == if !s.dir.readable then 0 else
      TimesBelow(o, s.rel, s.depth, Node(s), Sort(s.dir.entries), q)
      + Times(Hollow(o, s.rel, AnyProduces(o, s.rel, s.depth, Node(s), Sort(s.dir.entries))), q)
  {
    var es := Sort(s.dir.entries);
    var inline, hollow := Inline(o, s.rel, s.depth, Node(s), es), Hollow(o, s.rel, AnyProduces(o, s.rel, s.depth, Node(s), es));
    if s.dir.readable {
      TimesConcat(inline, hollow, q);
      TimesConcat(inline + hollow, SpotsEvents(o, KidsOf(o, s)), q);
    }
  }

  /** A scan of a directory sends only paths at or below it. */
  lemma {:induction false} SendsBelow(o: Options, s: Spot, q: Path)
    requires !(s.rel <= q)
    ensures Times(DirEvents(o, s), q) == 0
    decreases Weight(s.dir), 1, 0
  {
    DirTimes(o, s, q);
    if s.dir.readable {
      var es := Sort(s.dir.entries);
      SortWeights(s.dir.entries);
      EntriesSendBelow(o, s.rel, s.depth, Node(s), es, q);
    }
  }

  lemma {:induction false} EntriesSendBelow(o: Options, rel: Path, depth: nat, node: Chain, es: seq<Entry>, q: Path)
    requires forall i :: 0 <= i < |es| ==> !(rel + [es[i].name] <= q)
    ensures TimesBelow(o, rel, depth, node, es, q) == 0
    decreases Weights(es), 2, |es|
  {
    if es != [] {
      TimesBelowStep(o, rel, depth, node, es, q);
      EntryTimes(o, rel, depth, node, es[0], q);
      KidTimes(o, rel, depth, node, es[0], q);
      EntriesSendBelow(o, rel, depth, node, es[1..], q);
    }
  }

  lemma {:induction false} KidTimes(o: Options, rel: Path, depth: nat, node: Chain, e: Entry, q: Path)
    requires !(rel + [e.name] <= q)
    ensures Times(SpotsEvents(o, Kid(o, rel, depth, node, e)), q) == 0
    decreases (if e.SubDir? then Weight(e.dir) else 0), 2, 0
  {
    KidAlone(o, rel, depth, node, e, q);
    if Descends(o, rel, depth, node, e) { SendsBelow(o, Kid(o, rel, depth, node, e)[0], q); }
  }

  lemma KidAlone(o: Options, rel: Path, depth: nat, node: Chain, e: Entry, q: Path)
    ensures Times(SpotsEvents(o, Kid(o, rel, depth, node, e)), q)
         == if Descends(o, rel, depth, node, e) then Times(DirEvents(o, Kid(o, rel, depth, node, e)[0]), q) else 0
  {
    var kid := Kid(o, rel, depth, node, e);
    if kid != [] {
      assert kid[1..] == [] && SpotsEvents(o, kid[1..]) == [];
      assert DirEvents(o, kid[0]) + [] == DirEvents(o, kid[0]);
    }
  }

  lemma {:induction false} OneEntryOnce(o: Options, rel: Path, depth: nat, node: Chain, e: Entry, q: Path)
    requires e.SubDir? ==> Neat(e.dir)
    ensures Times(EntryEvents(o, rel, depth, node, e), q) + Times(SpotsEvents(o, Kid(o, rel, depth, node, e)), q) <= 1
    decreases (if e.SubDir? then Weight(e.dir) else 0), 2, 0
  {
    EntryTimes(o, rel, depth, node, e, q);
    KidAlone(o, rel, depth, node, e, q);
    if Descends(o, rel, depth, node, e) { SentOnce(o, Kid(o, rel, depth, node, e)[0], q); }
  }

  lemma {:induction false} EntriesOnce(o: Options, rel: Path, depth: nat, node: Chain, es: seq<Entry>, q: Path)
    requires Distinct(es) && forall e <- es :: e.SubDir? ==> Neat(e.dir)
    ensures TimesBelow(o, rel, depth, node, es, q) <= 1
    decreases Weights(es), 2, |es|
  {
    if es != [] {
      TimesBelowStep(o, rel, depth, node, es, q);
      if rel + [es[0].name] <= q {
        forall i | 0 <= i < |es[1..]| ensures !(rel + [es[1..][i].name] <= q) {
          assert es[0].name != es[i + 1].name && q[|rel|] == es[0].name;
        }
        EntriesSendBelow(o, rel, depth, node, es[1..], q);
        OneEntryOnce(o, rel, depth, node, es[0], q);
      } else {
        EntryTimes(o, rel, depth, node, es[0], q);
        KidTimes(o, rel, depth, node, es[0], q);
        EntriesOnce(o, rel, depth, node, es[1..], q);
      }
    }
  }

  /** A scan sends no path twice. */
  lemma {:induction false} SentOnce(o: Options, s: Spot, q: Path)
    requires Neat(s.dir)
    ensures Times(DirEvents(o, s), q) <= 1
    ensures q == s.rel && o.listDirs ==> Times(DirEvents(o, s), q) == 0
    decreases Weight(s.dir), 1, 0
  {
    DirTimes(o, s, q);
    if s.dir.readable {
      var es := Sort(s.dir.entries);
      SortWeights(s.dir.entries);
      HollowTimes(o, s.rel, AnyProduces(o, s.rel, s.depth, Node(s), es), q);
      if q == s.rel {
        EntriesSendBelow(o, s.rel, s.depth, Node(s), es, q);
      } else {
        SortIs(s.dir.entries);
        DistinctPermuted(s.dir.entries, es);
        forall e <- es ensures e.SubDir? ==> Neat(e.dir) { SortHas(s.dir.entries, e); }
        EntriesOnce(o, s.rel, s.depth, Node(s), es, q);
      }
    }
  }
}
