/** The order in which a scan sends, said of pairs of paths: the entries of a directory in the
    order of its listing, then what lies below its subdirectories, one after the other. */
module ScanSequence {
  import opened FilterChain
  import opened SourceTree
  import opened Scanner
  import opened ScanCoverage
  import opened ScanLaws
  import opened Protection

  /** The scan goes into the entry. */
  ghost predicate Enters(o: Options, s: Spot, e: Entry) {
    e.SubDir? && Chosen(o, s, e) && (o.oneFileSystem >= 1 ==> !e.mountPoint) && Shallow(o, s.depth + 1)
  }

  /** What is sent for the entry itself, as it is met; a directory the scan goes into only
      where directories are listed. */
  ghost predicate AtOnce(o: Options, s: Spot, e: Entry, p: Path) { |p| == 1 && (o.listDirs || !Enters(o, s, e)) }

  /** Of two paths below a directory the first is sent before the second. */
  ghost predicate SentSooner(o: Options, s: Spot, p: Path, q: Path)
    decreases |p|
  {
    var es := Sort(s.dir.entries);
    && p != [] && q != []
    && exists x: nat, y: nat ::
         && x < |es| && y < |es| && es[x].name == p[0] && es[y].name == q[0]
         && if x == y then
              |q| > 1 && es[x].SubDir? && (|p| == 1 || SentSooner(o, Enter(s, es[x]), p[1..], q[1..]))
            else
              var a, b := AtOnce(o, s, es[x], p), AtOnce(o, s, es[y], q);
              (a && !b) || (a == b && x < y)
  }

  ghost predicate SentBefore(o: Options, s: Spot, a: Item, b: Item) {
    s.rel <= a.path && s.rel <= b.path && SentSooner(o, s, a.path[|s.rel|..], b.path[|s.rel|..])
  }

  ghost predicate Sequenced(o: Options, s: Spot, items: seq<Item>) {
    forall i, j :: 0 <= i < j < |items| ==> SentBefore(o, s, items[i], items[j])
  }

  /** The item is sent for the x-th entry, or for something in it. */
  ghost predicate OfEntry(o: Options, s: Spot, i: Item, x: nat, now: bool) {
    var es := Sort(s.dir.entries);
    && x < |es| && s.rel + [es[x].name] <= i.path
    && (AtOnce(o, s, es[x], i.path[|s.rel|..]) <==> now) && (!now ==> Enters(o, s, es[x]))
  }

  lemma SequencedConcat(o: Options, s: Spot, a: seq<Item>, b: seq<Item>)
    requires Sequenced(o, s, a) && Sequenced(o, s, b) && forall i, j :: i in a && j in b ==> SentBefore(o, s, i, j)
    ensures Sequenced(o, s, a + b)
  {
    var all := a + b;
    forall i, j | 0 <= i < j < |all| ensures SentBefore(o, s, all[i], all[j]) {
      if j < |a| {
        assert all[i] == a[i] && all[j] == a[j];
      } else if i < |a| {
        assert all[i] in a && all[j] in b;
      } else {
        assert all[i] == b[i - |a|] && all[j] == b[j - |a|];
      }
    }
  }

  lemma OfEntries(o: Options, s: Spot, i: Item, x: nat, a: bool, j: Item, y: nat, b: bool)
    requires OfEntry(o, s, i, x, a) && OfEntry(o, s, j, y, b) && x != y && ((a && !b) || (a == b && x < y))
    ensures SentBefore(o, s, i, j)
  {
    var es := Sort(s.dir.entries);
    assert i.path[|s.rel|..][0] == (s.rel + [es[x].name])[|s.rel|] && j.path[|s.rel|..][0] == (s.rel + [es[y].name])[|s.rel|];
  }

  // ---- The entries themselves ----

  lemma EntryItem(o: Options, s: Spot, x: nat, i: Item)
    requires x < |Sort(s.dir.entries)| && i in Emitted(EntryEvents(o, s.rel, s.depth, Node(s), Sort(s.dir.entries)[x]))
    ensures i.path == s.rel + [Sort(s.dir.entries)[x].name] && OfEntry(o, s, i, x, true)
  {
    var e := Sort(s.dir.entries)[x];
    EntryEmits(o, s, e);
    ItselfAtOnce(o, s, e, i);
    assert i.path[|s.rel|..] == [e.name];
  }

  /** A directory the scan goes into is sent as it is met only where directories are listed. */
  lemma ItselfAtOnce(o: Options, s: Spot, e: Entry, i: Item)
    requires Sent(o, s.rel, s.depth, Node(s), e) == [i]
    ensures i.path == s.rel + [e.name] && (o.listDirs || !Enters(o, s, e))
  {
  }

  lemma {:induction false} NoneEmitted(ev: seq<Event>)
    requires forall x <- ev :: !x.Emit?
    ensures Emitted(ev) == []
  {
    if ev != [] { NoneEmitted(ev[..|ev| - 1]); }
  }

  lemma EntryEmits(o: Options, s: Spot, e: Entry)
    ensures Emitted(EntryEvents(o, s.rel, s.depth, Node(s), e)) == Sent(o, s.rel, s.depth, Node(s), e)
  {
    var guards, sent := Guards(o, s.rel, Node(s), e), Sent(o, s.rel, s.depth, Node(s), e);
    NoneEmitted(guards);
    if sent != [] {
      EmittedConcat(guards, [Emit(sent[0])]);
      assert [Emit(sent[0])][..0] == [] && Emitted([Emit(sent[0])]) == [sent[0]];
    }
  }

  ghost predicate AllOf(o: Options, s: Spot, items: seq<Item>, n: nat, now: bool) {
    forall i <- items :: exists x: nat :: n <= x && OfEntry(o, s, i, x, now)
  }

  lemma {:induction false} InlineSequenced(o: Options, s: Spot, n: nat)
    requires n <= |Sort(s.dir.entries)|
    ensures var items := Emitted(Inline(o, s.rel, s.depth, Node(s), Sort(s.dir.entries)[n..]));
            Sequenced(o, s, items) && AllOf(o, s, items, n, true)
    decreases |Sort(s.dir.entries)| - n
  {
    var es := Sort(s.dir.entries);
    if n < |es| {
      assert es[n..][1..] == es[n + 1..];
      InlineSequenced(o, s, n + 1);
      EntryEmits(o, s, es[n]);
      var first, later := EntryEvents(o, s.rel, s.depth, Node(s), es[n]), Inline(o, s.rel, s.depth, Node(s), es[n + 1..]);
      EmittedConcat(first, later);
      forall i | i in Emitted(first) ensures OfEntry(o, s, i, n, true) { EntryItem(o, s, n, i); }
      forall i, j | i in Emitted(first) && j in Emitted(later) ensures SentBefore(o, s, i, j) {
        var y: nat :| n + 1 <= y && OfEntry(o, s, j, y, true);
        OfEntries(o, s, i, n, true, j, y, true);
      }
      SequencedConcat(o, s, Emitted(first), Emitted(later));
    }
  }

  // ---- The directories below ----

  /** All that a scan of a directory sends lies there or below. */
  lemma SendsThere(o: Options, s: Spot, i: Item)
    requires i in Emitted(DirEvents(o, s))
    ensures s.rel <= i.path
  {
    EmittedIs(DirEvents(o, s), i);
    var p, t := Arises(o, s, Emit(i));
    Placed(o, s, p, t);
    OwnedPath(o, t, Emit(i));
  }

  lemma {:induction false} EmittedIs(ev: seq<Event>, i: Item)
    ensures i in Emitted(ev) <==> Emit(i) in ev
  {
    if ev != [] {
      var n := |ev| - 1;
      assert ev == ev[..n] + [ev[n]];
      EmittedIs(ev[..n], i);
    }
  }

  lemma EntersIs(o: Options, s: Spot, e: Entry)
    ensures Enters(o, s, e) <==> Descends(o, s.rel, s.depth, Node(s), e)
  {
  }

  /** What is sent within the x-th entry is sequenced for the directory around it. */
  lemma InsideSequenced(o: Options, s: Spot, x: nat)
    requires var es := Sort(s.dir.entries); x < |es| && Enters(o, s, es[x])
    requires Sequenced(o, Enter(s, Sort(s.dir.entries)[x]), Emitted(DirEvents(o, Enter(s, Sort(s.dir.entries)[x]))))
    ensures var items := Emitted(DirEvents(o, Enter(s, Sort(s.dir.entries)[x])));
            Sequenced(o, s, items) && forall i <- items :: OfEntry(o, s, i, x, false)
  {
    var e := Sort(s.dir.entries)[x];
    var k := Enter(s, e);
    var items := Emitted(DirEvents(o, k));
    forall i | i in items ensures OfEntry(o, s, i, x, false) { Inside(o, s, x, i); }
    forall i, j | 0 <= i < j < |items| ensures SentBefore(o, s, items[i], items[j]) {
      SendsThere(o, k, items[i]);
      SendsThere(o, k, items[j]);
      var p, q := items[i].path[|s.rel|..], items[j].path[|s.rel|..];
      assert p[1..] == items[i].path[|k.rel|..] && q[1..] == items[j].path[|k.rel|..];
      assert p[0] == k.rel[|s.rel|] && q[0] == k.rel[|s.rel|];
      assert SentSooner(o, k, p[1..], q[1..]);
    }
  }

  /** Where directories are listed none is sent for being empty. */
  lemma ListedInside(o: Options, k: Spot, i: Item)
    requires o.listDirs && i in Emitted(DirEvents(o, k))
    ensures |i.path| > |k.rel|
  {
    EmittedIs(DirEvents(o, k), i);
    var p, t := Arises(o, k, Emit(i));
    Placed(o, k, p, t);
    OwnedByEntry(o, t, i);
  }

  lemma OwnedByEntry(o: Options, t: Spot, i: Item)
    requires o.listDirs && Owns(o, t, Emit(i))
    ensures |i.path| == |t.rel| + 1
  {
    var e :| e in t.dir.entries && Emit(i) in EntryEvents(o, t.rel, t.depth, Node(t), e);
    PathOfEntry(o, t, e, i);
  }

  lemma PathOfEntry(o: Options, t: Spot, e: Entry, i: Item)
    requires Emit(i) in EntryEvents(o, t.rel, t.depth, Node(t), e)
    ensures i.path == t.rel + [e.name]
  {
  }

  lemma Inside(o: Options, s: Spot, x: nat, i: Item)
    requires var es := Sort(s.dir.entries); x < |es| && Enters(o, s, es[x])
    requires i in Emitted(DirEvents(o, Enter(s, Sort(s.dir.entries)[x])))
    ensures OfEntry(o, s, i, x, false)
  {
    var k := Enter(s, Sort(s.dir.entries)[x]);
    SendsThere(o, k, i);
    if o.listDirs { ListedInside(o, k, i); }
  }

  lemma {:induction false} KidsSequenced(o: Options, s: Spot, n: nat)
    requires n <= |Sort(s.dir.entries)|
    requires forall e <- s.dir.entries :: Enters(o, s, e) ==> Sequenced(o, Enter(s, e), Emitted(DirEvents(o, Enter(s, e))))
    ensures SequencedKids(o, s, Kids(o, s.rel, s.depth, Node(s), Sort(s.dir.entries)[n..]), n)
    decreases |Sort(s.dir.entries)| - n
  {
    var es := Sort(s.dir.entries);
    if n < |es| {
      KidsSequenced(o, s, n + 1);
      KidsAt(o, s, n);
      SortHas(s.dir.entries, es[n]);
      var kids := Kids(o, s.rel, s.depth, Node(s), es[n + 1..]);
      if Enters(o, s, es[n]) {
        InsideSequenced(o, s, n);
        KidThenKids(o, s, n, kids);
      } else {
        FromEarlier(o, s, kids, n);
      }
    } else {
      NoKids(o, s, n);
    }
  }

  lemma KidsAt(o: Options, s: Spot, n: nat)
    requires n < |Sort(s.dir.entries)|
    ensures var es := Sort(s.dir.entries);
            var kids := Kids(o, s.rel, s.depth, Node(s), es[n + 1..]);
            Kids(o, s.rel, s.depth, Node(s), es[n..]) == if Enters(o, s, es[n]) then [Enter(s, es[n])] + kids else kids
  {
    var es := Sort(s.dir.entries);
    assert es[n..][1..] == es[n + 1..];
    EntersIs(o, s, es[n]);
  }

  ghost predicate SequencedKids(o: Options, s: Spot, kids: seq<Spot>, n: nat) {
    var items := Emitted(SpotsEvents(o, kids));
    Sequenced(o, s, items) && AllOf(o, s, items, n, false)
  }

  lemma NoKids(o: Options, s: Spot, n: nat)
    ensures SequencedKids(o, s, [], n)
  {
  }

  lemma FromEarlier(o: Options, s: Spot, kids: seq<Spot>, n: nat)
    requires SequencedKids(o, s, kids, n + 1)
    ensures SequencedKids(o, s, kids, n)
  {
    var items := Emitted(SpotsEvents(o, kids));
    forall i | i in items ensures exists x: nat :: n <= x && OfEntry(o, s, i, x, false) {
      var x: nat :| n + 1 <= x && OfEntry(o, s, i, x, false);
    }
  }

  lemma KidThenKids(o: Options, s: Spot, n: nat, kids: seq<Spot>)
    requires var es := Sort(s.dir.entries); n < |es| && es[n].SubDir?
    requires var first := Emitted(DirEvents(o, Enter(s, Sort(s.dir.entries)[n])));
             Sequenced(o, s, first) && forall i <- first :: OfEntry(o, s, i, n, false)
    requires SequencedKids(o, s, kids, n + 1)
    ensures SequencedKids(o, s, [Enter(s, Sort(s.dir.entries)[n])] + kids, n)
  {
    var k := Enter(s, Sort(s.dir.entries)[n]);
    assert ([k] + kids)[1..] == kids;
    EmittedConcat(DirEvents(o, k), SpotsEvents(o, kids));
    var first, later := Emitted(DirEvents(o, k)), Emitted(SpotsEvents(o, kids));
    forall i, j | i in first && j in later ensures SentBefore(o, s, i, j) {
      var y: nat :| n + 1 <= y && OfEntry(o, s, j, y, false);
      OfEntries(o, s, i, n, false, j, y, false);
    }
    SequencedConcat(o, s, first, later);
  }

  // ---- A directory ----

  /** A directory sent for being empty is all that is sent of it. */
  lemma HollowAlone(o: Options, s: Spot)
    requires s.dir.readable && Hollow(o, s.rel, AnyProduces(o, s.rel, s.depth, Node(s), Sort(s.dir.entries))) != []
    ensures Emitted(Inline(o, s.rel, s.depth, Node(s), Sort(s.dir.entries))) == [] && KidsOf(o, s) == []
  {
    NothingProduced(o, s, Sort(s.dir.entries));
  }

  lemma {:induction false} NothingProduced(o: Options, s: Spot, es: seq<Entry>)
    requires !AnyProduces(o, s.rel, s.depth, Node(s), es) && !o.listDirs
    ensures Emitted(Inline(o, s.rel, s.depth, Node(s), es)) == [] && Kids(o, s.rel, s.depth, Node(s), es) == []
  {
    if es != [] {
      NothingProduced(o, s, es[1..]);
      EntryEmits(o, s, es[0]);
      EmittedConcat(EntryEvents(o, s.rel, s.depth, Node(s), es[0]), Inline(o, s.rel, s.depth, Node(s), es[1..]));
    }
  }

  lemma DirSequenced(o: Options, s: Spot)
    requires s.dir.readable
    requires forall e <- s.dir.entries :: Enters(o, s, e) ==> Sequenced(o, Enter(s, e), Emitted(DirEvents(o, Enter(s, e))))
    ensures Sequenced(o, s, Emitted(DirEvents(o, s)))
  {
    var es := Sort(s.dir.entries);
    var inline, hollow := Inline(o, s.rel, s.depth, Node(s), es), Hollow(o, s.rel, AnyProduces(o, s.rel, s.depth, Node(s), es));
    var below := SpotsEvents(o, KidsOf(o, s));
    assert es[0..] == es;
    EmittedConcat(inline, hollow);
    EmittedConcat(inline + hollow, below);
    if hollow != [] {
      HollowAlone(o, s);
      assert hollow[..0] == [] && Emitted(hollow) == [hollow[0].item] && Emitted(below) == [];
    } else {
      InlineSequenced(o, s, 0);
      KidsSequenced(o, s, 0);
      var first, later := Emitted(inline), Emitted(below);
      forall i, j | i in first && j in later ensures SentBefore(o, s, i, j) { EntryThenInside(o, s, i, j); }
      SequencedConcat(o, s, first, later);
      assert Emitted(hollow) == [] && first + [] == first;
    }
  }

  /** What is sent for entries themselves comes before anything sent within one. */
  lemma EntryThenInside(o: Options, s: Spot, i: Item, j: Item)
    requires exists x: nat :: 0 <= x && OfEntry(o, s, i, x, true)
    requires exists y: nat :: 0 <= y && OfEntry(o, s, j, y, false)
    ensures SentBefore(o, s, i, j)
  {
    var es := Sort(s.dir.entries);
    var x: nat :| 0 <= x && OfEntry(o, s, i, x, true);
    var y: nat :| 0 <= y && OfEntry(o, s, j, y, false);
    if x != y {
      OfEntries(o, s, i, x, true, j, y, false);
    } else {
      var p, q := i.path[|s.rel|..], j.path[|s.rel|..];
      assert p[0] == (s.rel + [es[x].name])[|s.rel|] == q[0] && |p| == 1 && |q| > 1;
    }
  }

  /** A scan sends in order: of two items the one met earlier comes first. */
  lemma {:induction false} SentInOrder(o: Options, s: Spot)
    ensures Sequenced(o, s, Emitted(DirEvents(o, s)))
    decreases Weight(s.dir)
  {
    if s.dir.readable {
      forall e | e in s.dir.entries && Enters(o, s, e)
        ensures Sequenced(o, Enter(s, e), Emitted(DirEvents(o, Enter(s, e))))
      {
        EntersIs(o, s, e);
        KidsOfHas(o, s, Enter(s, e));
        SpotWeightOf(KidsOf(o, s), Enter(s, e));
        SentInOrder(o, Enter(s, e));
      }
      DirSequenced(o, s);
    } else {
      assert [IoError][..0] == [] && Emitted([IoError]) == [];
    }
  }
}
