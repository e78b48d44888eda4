/** Exactly what a scan sends, shields and enters, said from the tree and the options. */
module ScanLaws {
  import opened FilterChain
  import opened SourceTree
  import opened Scanner
  import opened ScanCoverage

  /** The rules in force in a directory let an entry of it through. */
  predicate Chosen(o: Options, t: Spot, e: Entry) {
    o.select(Node(t), FilterChain.Subject(Join(t.rel + [e.name]), e.name, e.SubDir?)).passes
  }

  /** They protect its mirror. */
  predicate Protected(o: Options, t: Spot, e: Entry) {
    o.select(Node(t), FilterChain.Subject(Join(t.rel + [e.name]), e.name, e.SubDir?)).protect
  }

  // ---- Which directories are entered ----

  /** The way from `s` along `p` leads to `t`: through readable directories, each chosen, and
      under -x and -xx through no mount point. */
  ghost predicate Leads(o: Options, s: Spot, p: Path, t: Spot)
    decreases |p|
  {
    if p == [] then s == t
    else
      && s.dir.readable
      && exists e <- s.dir.entries ::
           && e.SubDir? && e.name == p[0] && Chosen(o, s, e) && (o.oneFileSystem >= 1 ==> !e.mountPoint)
           && Leads(o, Enter(s, e), p[1..], t)
  }

  /** A depth limit of n lets a scan into directories less than n below its start. */
  ghost predicate Shallow(o: Options, depth: nat) { o.maxDepth >= 1 ==> depth < o.maxDepth }

  /** A scan enters a directory below its start exactly if a way leads there and the depth
      limit is not reached. */
  lemma {:induction false} EntersExactly(o: Options, s: Spot, p: Path, t: Spot)
    ensures Within(o, s, p, t) <==> Leads(o, s, p, t) && (p != [] ==> Shallow(o, s.depth + |p|))
    decreases |p|
  {
    if p != [] {
      forall e | e in s.dir.entries && e.SubDir?
        ensures Within(o, Enter(s, e), p[1..], t) <==>
          Leads(o, Enter(s, e), p[1..], t) && (p[1..] != [] ==> Shallow(o, s.depth + |p|))
      {
        EntersExactly(o, Enter(s, e), p[1..], t);
      }
      if Within(o, s, p, t) {
        var e :| GoesInto(o, s, e) && e.name == p[0] && Within(o, Enter(s, e), p[1..], t);
        assert Shallow(o, s.depth + 1) && Leads(o, Enter(s, e), p[1..], t);
      }
      if Leads(o, s, p, t) && Shallow(o, s.depth + |p|) {
        var e :| e in s.dir.entries && e.SubDir? && e.name == p[0] && Chosen(o, s, e)
                 && (o.oneFileSystem >= 1 ==> !e.mountPoint) && Leads(o, Enter(s, e), p[1..], t);
        assert GoesInto(o, s, e);
      }
    }
  }

  /** A scan from the root enters the directory at `p`. */
  ghost predicate Entered(o: Options, root: Dir, p: Path, t: Spot) {
    Leads(o, Spot(root, [], 0, Root), p, t) && (p != [] ==> Shallow(o, |p|))
  }

  lemma EnteredIs(o: Options, root: Dir, p: Path, t: Spot)
    ensures Entered(o, root, p, t) <==> Within(o, Spot(root, [], 0, Root), p, t)
    ensures Entered(o, root, p, t) ==> t.rel == p && t.depth == |p|
  {
    var s := Spot(root, [], 0, Root);
    EntersExactly(o, s, p, t);
    if Within(o, s, p, t) {
      Placed(o, s, p, t);
      assert [] + p == p;
    }
  }

  /** `e` is an entry of a directory a scan from the root reads, which lies at `p`. */
  ghost predicate Met(o: Options, root: Dir, p: Path, t: Spot, e: Entry) {
    Entered(o, root, p, t) && t.dir.readable && e in t.dir.entries
  }

  // ---- Files ----

  ghost predicate FileMet(o: Options, root: Dir, q: Path, size: nat, p: Path, t: Spot, e: Entry) {
    Met(o, root, p, t, e) && q == p + [e.name] && e.Leaf? && !e.unsupported && e.size == size && Chosen(o, t, e)
  }

  lemma EntryFile(o: Options, t: Spot, e: Entry, q: Path, size: nat)
    ensures Emit(Item(q, false, size)) in EntryEvents(o, t.rel, t.depth, Node(t), e) <==>
      && q == t.rel + [e.name] && e.Leaf? && !e.unsupported && e.size == size && Chosen(o, t, e)
      && (o.maxDepth >= 1 ==> t.depth + 1 <= o.maxDepth)
  {
  }

  /** A file is sent exactly if it stands in a directory the scan reads, is chosen and of a
      supported kind, and lies no deeper than the depth limit. */
  lemma FilesSentExactly(o: Options, root: Dir, q: Path, size: nat)
    ensures Emit(Item(q, false, size)) in DirEvents(o, Spot(root, [], 0, Root)) <==>
      (exists p, t, e :: FileMet(o, root, q, size, p, t, e)) && (o.maxDepth >= 1 ==> |q| <= o.maxDepth)
  {
    var s, ev := Spot(root, [], 0, Root), Emit(Item(q, false, size));
    if ev in DirEvents(o, s) {
      var p, t := Arises(o, s, ev);
      var e :| e in t.dir.entries && ev in EntryEvents(o, t.rel, t.depth, Node(t), e);
      EnteredIs(o, root, p, t);
      EntryFile(o, t, e, q, size);
      assert FileMet(o, root, q, size, p, t, e);
    }
    if p, t, e :| FileMet(o, root, q, size, p, t, e) && (o.maxDepth >= 1 ==> |q| <= o.maxDepth) {
      EnteredIs(o, root, p, t);
      EntryFile(o, t, e, q, size);
      assert Owns(o, t, ev);
      Happens(o, s, p, t, ev);
    }
  }

  // ---- Directories ----

  /** A subdirectory is sent for itself: a mount point not crossed under -x, though not under
      -xx, and any other where directories are listed. */
  ghost predicate FolderMet(o: Options, root: Dir, q: Path, p: Path, t: Spot, e: Entry) {
    && Met(o, root, p, t, e) && q == p + [e.name] && e.SubDir? && Chosen(o, t, e)
    && if e.mountPoint && o.oneFileSystem >= 1 then o.oneFileSystem == 1 else o.listDirs
  }

  /** Something comes of the entry, so that its directory need not be sent for itself. */
  ghost predicate Content(o: Options, t: Spot, e: Entry) {
    && !e.Passed? && Chosen(o, t, e)
    && (e.Leaf? ==> !e.unsupported && (o.maxDepth >= 1 ==> t.depth + 1 <= o.maxDepth))
    && (e.SubDir? ==> !(e.mountPoint && o.oneFileSystem >= 2))
  }

  /** A directory below the root that was read and gave nothing is sent where empty
      directories are wanted and not pruned. */
  ghost predicate EmptyMet(o: Options, root: Dir, q: Path, t: Spot) {
    && q != [] && Entered(o, root, q, t) && t.dir.readable && o.emitEmpty && !o.prune && !o.listDirs
    && forall e <- t.dir.entries :: !Content(o, t, e)
  }

  lemma ContentIs(o: Options, t: Spot, e: Entry)
    ensures Produces(o, t.rel, t.depth, Node(t), e) <==> Content(o, t, e)
  {
  }

  lemma EntryFolder(o: Options, t: Spot, e: Entry, q: Path, size: nat)
    ensures Emit(Item(q, true, size)) in EntryEvents(o, t.rel, t.depth, Node(t), e) <==>
      && q == t.rel + [e.name] && size == 0 && e.SubDir? && Chosen(o, t, e)
      && (if e.mountPoint && o.oneFileSystem >= 1 then o.oneFileSystem == 1 else o.listDirs)
  {
  }

  lemma HollowIs(o: Options, t: Spot, q: Path, size: nat)
    ensures Emit(Item(q, true, size)) in Hollow(o, t.rel, exists e <- t.dir.entries :: Produces(o, t.rel, t.depth, Node(t), e)) <==>
      && q == t.rel && q != [] && size == 0 && o.emitEmpty && !o.prune && !o.listDirs
      && forall e <- t.dir.entries :: !Content(o, t, e)
  {
    forall e ensures Produces(o, t.rel, t.depth, Node(t), e) <==> Content(o, t, e) { ContentIs(o, t, e); }
  }

  /** A directory is sent exactly if it is sent for itself or gave nothing. */
  lemma DirectoriesSentExactly(o: Options, root: Dir, q: Path, size: nat)
    ensures Emit(Item(q, true, size)) in DirEvents(o, Spot(root, [], 0, Root)) <==>
      size == 0 && ((exists p, t, e :: FolderMet(o, root, q, p, t, e)) || exists t :: EmptyMet(o, root, q, t))
  {
    var s, ev := Spot(root, [], 0, Root), Emit(Item(q, true, size));
    if ev in DirEvents(o, s) {
      var p, t := Arises(o, s, ev);
      EnteredIs(o, root, p, t);
      HollowIs(o, t, q, size);
      if e :| e in t.dir.entries && ev in EntryEvents(o, t.rel, t.depth, Node(t), e) {
        EntryFolder(o, t, e, q, size);
        assert FolderMet(o, root, q, p, t, e);
      } else {
        assert EmptyMet(o, root, q, t);
      }
    }
    if p, t, e :| FolderMet(o, root, q, p, t, e) && size == 0 { FolderSent(o, root, q, p, t, e); }
    if t :| EmptyMet(o, root, q, t) && size == 0 { EmptySent(o, root, q, t); }
  }

  lemma FolderSent(o: Options, root: Dir, q: Path, p: Path, t: Spot, e: Entry)
    requires FolderMet(o, root, q, p, t, e)
    ensures Emit(Item(q, true, 0)) in DirEvents(o, Spot(root, [], 0, Root))
  {
    EnteredIs(o, root, p, t);
    EntryFolder(o, t, e, q, 0);
    Happens(o, Spot(root, [], 0, Root), p, t, Emit(Item(q, true, 0)));
  }

  lemma EmptySent(o: Options, root: Dir, q: Path, t: Spot)
    requires EmptyMet(o, root, q, t)
    ensures Emit(Item(q, true, 0)) in DirEvents(o, Spot(root, [], 0, Root))
  {
    EnteredIs(o, root, q, t);
    HollowIs(o, t, q, 0);
    Happens(o, Spot(root, [], 0, Root), q, t, Emit(Item(q, true, 0)));
  }

  // ---- Shields and errors ----

  /** Left out by the rules or on inspection, or protected by the rules though sent. */
  ghost predicate ShieldMet(o: Options, root: Dir, q: Path, p: Path, t: Spot, e: Entry) {
    && Met(o, root, p, t, e) && q == p + [e.name]
    && if e.Passed? then e.excluded && !e.sizeExcluded else !Chosen(o, t, e) || Protected(o, t, e)
  }

  ghost predicate SizeShieldMet(o: Options, root: Dir, q: Path, p: Path, t: Spot, e: Entry) {
    Met(o, root, p, t, e) && q == p + [e.name] && e.Passed? && e.excluded && e.sizeExcluded
  }

  lemma EntryShields(o: Options, t: Spot, e: Entry, q: Path)
    ensures Shield(q) in EntryEvents(o, t.rel, t.depth, Node(t), e) <==>
      q == t.rel + [e.name] && if e.Passed? then e.excluded && !e.sizeExcluded else !Chosen(o, t, e) || Protected(o, t, e)
    ensures ShieldSize(q) in EntryEvents(o, t.rel, t.depth, Node(t), e) <==>
      q == t.rel + [e.name] && e.Passed? && e.excluded && e.sizeExcluded
    ensures IoError in EntryEvents(o, t.rel, t.depth, Node(t), e) <==> e.Passed? && e.referentError
  {
  }

  /** A path is shielded exactly if it was met and left out, or protected; and as one of its
      size exactly if it was left out for its size. */
  lemma ShieldsExactly(o: Options, root: Dir, q: Path)
    ensures Shield(q) in DirEvents(o, Spot(root, [], 0, Root)) <==> exists p, t, e :: ShieldMet(o, root, q, p, t, e)
    ensures ShieldSize(q) in DirEvents(o, Spot(root, [], 0, Root)) <==> exists p, t, e :: SizeShieldMet(o, root, q, p, t, e)
  {
    var s := Spot(root, [], 0, Root);
    if Shield(q) in DirEvents(o, s) { var p, t, e := ShieldArose(o, root, q, Shield(q)); }
    if ShieldSize(q) in DirEvents(o, s) { var p, t, e := ShieldArose(o, root, q, ShieldSize(q)); }
    if p, t, e :| ShieldMet(o, root, q, p, t, e) { EntryHappens(o, root, p, t, e, q, Shield(q)); }
    if p, t, e :| SizeShieldMet(o, root, q, p, t, e) { EntryHappens(o, root, p, t, e, q, ShieldSize(q)); }
  }

  lemma ShieldArose(o: Options, root: Dir, q: Path, ev: Event) returns (p: Path, t: Spot, e: Entry)
    requires ev in DirEvents(o, Spot(root, [], 0, Root)) && ev in {Shield(q), ShieldSize(q)}
    ensures if ev.Shield? then ShieldMet(o, root, q, p, t, e) else SizeShieldMet(o, root, q, p, t, e)
  {
    p, t := Arises(o, Spot(root, [], 0, Root), ev);
    EnteredIs(o, root, p, t);
    e :| e in t.dir.entries && ev in EntryEvents(o, t.rel, t.depth, Node(t), e);
    EntryShields(o, t, e, q);
  }

  lemma EntryHappens(o: Options, root: Dir, p: Path, t: Spot, e: Entry, q: Path, ev: Event)
    requires if ev.Shield? then ev.path == q && ShieldMet(o, root, q, p, t, e)
             else ev == ShieldSize(q) && SizeShieldMet(o, root, q, p, t, e)
    ensures ev in DirEvents(o, Spot(root, [], 0, Root))
  {
    EnteredIs(o, root, p, t);
    EntryShields(o, t, e, q);
    Happens(o, Spot(root, [], 0, Root), p, t, ev);
  }

  /** A scan meets an error exactly if a directory it enters cannot be read, or what a link
      leads to cannot be examined. */
  lemma ErrorsExactly(o: Options, root: Dir)
    ensures IoError in DirEvents(o, Spot(root, [], 0, Root)) <==>
      || (exists p, t :: Entered(o, root, p, t) && !t.dir.readable)
      || (exists p, t, e :: Met(o, root, p, t, e) && e.Passed? && e.referentError)
  {
    var s := Spot(root, [], 0, Root);
    if IoError in DirEvents(o, s) {
      var p, t := Arises(o, s, IoError);
      EnteredIs(o, root, p, t);
      if t.dir.readable {
        var e :| e in t.dir.entries && IoError in EntryEvents(o, t.rel, t.depth, Node(t), e);
        EntryShields(o, t, e, []);
        assert Met(o, root, p, t, e);
      }
    }
    if p, t :| Entered(o, root, p, t) && !t.dir.readable {
      EnteredIs(o, root, p, t);
      Happens(o, s, p, t, IoError);
    }
    if p, t, e :| Met(o, root, p, t, e) && e.Passed? && e.referentError {
      EnteredIs(o, root, p, t);
      EntryShields(o, t, e, []);
      Happens(o, s, p, t, IoError);
    }
  }
}
