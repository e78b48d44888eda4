/** Exactly what inspection makes of an entry, said from the options and from what is on
    disk, one outcome at a time. */
module InspectionLaws {
  import opened FilterChain
  import opened SourceTree
  import opened WirePaths
  import opened SourceRoot
  import opened Inspection
  import Protocol

  // ---- Targets ----

  /** The components of a target that name something. */
  function Solid(parts: seq<string>): Path {
    if parts == [] then []
    else (if parts[0] == "" || parts[0] == "." then [] else [parts[0]]) + Solid(parts[1..])
  }

  /** Two ways to take a path apart agree on what it names. */
  lemma {:induction false} PartsName(head: string, w: string)
    ensures Solid(Parts(head, w)) == LandsFrom(head, w)
    decreases |w|
  {
    if w == "" {
      assert [head][1..] == [];
    } else if w[0] != '/' {
      PartsName(head + [w[0]], w[1..]);
    } else if |w| > 1 && w[1] == '/' {
      PartsName(head, w[1..]);
      assert w[1..][0] == '/';
      assert LandsFrom(head, w[1..]) == Part(head) + LandsFrom("", w[1..][1..]);
      assert LandsFrom("", w[1..]) == Part("") + LandsFrom("", w[1..][1..]);
    } else {
      PartsName("", w[1..]);
      var rest := Parts("", w[1..]);
      assert ([head] + rest)[1..] == rest;
    }
  }

  lemma {:induction false} ResolveSolid(dir: Path, parts: seq<string>)
    ensures Resolve(dir, parts) == Resolve(dir, Solid(parts))
    decreases |parts|
  {
    if parts != [] {
      var rest := parts[1..];
      if parts[0] == "" || parts[0] == "." {
        ResolveSolid(dir, rest);
        assert Solid(parts) == Solid(rest);
      } else {
        assert Solid(parts)[1..] == Solid(rest);
        if parts[0] != ".." {
          ResolveSolid(dir + [parts[0]], rest);
        } else if dir != [] {
          ResolveSolid(dir[..|dir| - 1], rest);
        }
      }
    }
  }

  /** A target goes back on itself: some ".." comes after another component, or it ends in
      one and has more. */
  ghost predicate GoesBack(parts: seq<string>) {
    || (exists i, j :: 0 <= i < j < |parts| - 1 && parts[i] != ".." && parts[j] == "..")
    || (|parts| >= 2 && parts[|parts| - 1] == "..")
  }

  lemma {:induction false} LeadIs(parts: seq<string>)
    ensures Lead(parts) <= |parts| && (parts != [] ==> Lead(parts) < |parts|)
    ensures forall i :: 0 <= i < Lead(parts) ==> parts[i] == ".."
    ensures Lead(parts) < |parts| - 1 ==> parts[Lead(parts)] != ".."
  {
    if |parts| > 1 && parts[0] == ".." { LeadIs(parts[1..]); }
  }

  lemma GoesBackExactly(parts: seq<string>)
    ensures Backtracks(parts) <==> GoesBack(parts)
  {
    LeadIs(parts);
    if k :| Lead(parts) <= k < |parts| - 1 && parts[k] == ".." {
      assert 0 <= Lead(parts) < k < |parts| - 1 && parts[Lead(parts)] != "..";
    }
  }

  /** A link below the transfer root leads out of it, or might. */
  ghost predicate Astray(rel: Path, target: string) {
    target == "" || target[0] == '/' || GoesBack(Parts("", target)) || Resolve(rel, Lands(target)).None?
  }

  lemma UnsafeExactly(rel: Path, name: string, target: string)
    requires Clean(rel + [name])
    ensures Unsafe(target, Join(rel + [name])) <==> Astray(rel, target)
  {
    SafeExactly(rel, name, target);
    GoesBackExactly(Parts("", target));
    ResolveSolid(rel, Parts("", target));
    PartsName("", target);
  }

  // ---- Links ----

  /** A link is followed under --copy-links, under --copy-unsafe-links if it leads astray,
      and under -k if it leads to a directory. */
  ghost predicate Followed(c: Choices, rel: Path, target: string, referent: Referent) {
    c.copyLinks || (c.copyUnsafe && Astray(rel, target)) || (c.copyDirlinks && referent.ToBranch?)
  }

  /** --safe-links leaves it out, all of them when targets are munged. */
  ghost predicate HeldBack(c: Choices, rel: Path, target: string) {
    c.safeLinks && (c.munge || Astray(rel, target))
  }

  /** Each of the four things that can happen to a link happens exactly under its own
      condition; a link that cannot be read is left out without a trace. */
  lemma LinksExactly(c: Choices, rel: Path, name: string, target: Protocol.Option<string>, referent: Referent)
    requires Clean(rel + [name])
    ensures var action := ActionOn(c, Join(rel + [name]), target, referent);
            && (action.Deref? <==> target.Some? && Followed(c, rel, target.value, referent))
            && (action.SkipProtected? <==>
                  target.Some? && !Followed(c, rel, target.value, referent) && HeldBack(c, rel, target.value))
            && (action.Carry? <==>
                  && target.Some? && target.value != "" && c.follow
                  && !Followed(c, rel, target.value, referent) && !HeldBack(c, rel, target.value))
  {
    if target.Some? { UnsafeExactly(rel, name, target.value); }
  }

  // ---- Names and sizes ----

  ghost predicate NameWelcome(c: Choices, name: string) {
    && (forall x <- c.excludes :: !c.glob(x, name))
    && (|c.includes| == 0 || exists x <- c.includes :: c.glob(x, name))
  }

  ghost predicate SizeWelcome(c: Choices, size: nat) {
    c.minSize <= size && (c.maxSize == 0 || size <= c.maxSize)
  }

  lemma WelcomeExactly(c: Choices, name: string, size: nat)
    ensures NamedOut(c, name) <==> !NameWelcome(c, name)
    ensures SizedOut(c, size) <==> !SizeWelcome(c, size)
  {
    if i :| 0 <= i < |c.excludes| && c.glob(c.excludes[i], name) { assert c.excludes[i] in c.excludes; }
    if x :| x in c.includes && c.glob(x, name) { var i :| 0 <= i < |c.includes| && c.includes[i] == x; }
    if i :| 0 <= i < |c.includes| && c.glob(c.includes[i], name) { assert c.includes[i] in c.includes; }
  }

  /** The node an entry stands for: itself, or what a followed link leads to; and a carried
      link for itself, with the size of its target. */
  datatype Stand = Nothing | Node(kind: Kind, size: nat) | Symbolic(size: nat) | Subtree(mount: bool, tree: RawDir)

  ghost predicate StandsFor(c: Choices, rel: Path, raw: Raw, x: Stand) {
    match raw
    case Absent(_) => x == Nothing
    case Plain(_, kind, size) => x == Node(kind, size)
    case Branch(_, mount, tree) => x == Subtree(mount, tree)
    case Symlink(_, size, target, referent) =>
      if target.None? then x == Nothing
      else if Followed(c, rel, target.value, referent) then
        (match referent
         case Dangling => x == Nothing
         case ToPlain(kind, refSize) => x == Node(kind, refSize)
         case ToBranch(mount, tree) => x == Subtree(mount, tree))
      else if c.follow && target.value != "" && !HeldBack(c, rel, target.value) then x == Symbolic(size)
      else x == Nothing
  }

  /** A node that is asked for: regular files always, devices if they are preserved or read,
      pipes if they are preserved. Of those only what is read has a size. */
  ghost predicate Supported(c: Choices, kind: Kind) {
    match kind
    case Regular => true
    case Device => c.copyDevices || c.devices
    case Pipe => c.specials
  }

  function Carried(c: Choices, kind: Kind, size: nat): nat {
    if kind.Regular? || (kind.Device? && c.copyDevices) then size else 0
  }

  /** What inspection finds is what the entry stands for, if its name and size are welcome. */
  lemma FoundExactly(c: Choices, rel: Path, raw: Raw, x: Stand)
    requires Clean(rel + [raw.name]) && StandsFor(c, rel, raw, x)
    ensures var found := Inspected(c, rel, raw);
            match x
            case Subtree(mount, tree) => found == FoundDir(mount, tree)
            case Node(kind, size) =>
              if !NameWelcome(c, raw.name) then found == Dropped(true, false, false)
              else if !SizeWelcome(c, size) then found == Dropped(true, true, false)
              else found == FoundLeaf(Carried(c, kind, size), !Supported(c, kind))
            case Symbolic(size) =>
              if !NameWelcome(c, raw.name) then found == Dropped(true, false, false)
              else if !SizeWelcome(c, size) then found == Dropped(true, true, false)
              else found == FoundLeaf(0, false)
            case Nothing =>
              && found.Dropped? && !found.sizeExcluded
              && (found.excluded <==> raw.Symlink? && raw.target.Some? && HeldBack(c, rel, raw.target.value)
                                      && !Followed(c, rel, raw.target.value, raw.referent))
              && (found.referentError <==> raw.Symlink? && raw.target.Some? && Followed(c, rel, raw.target.value, raw.referent))
  {
    if raw.Symlink? { LinksExactly(c, rel, raw.name, raw.target, raw.referent); }
    if !x.Nothing? && !x.Subtree? { WelcomeExactly(c, raw.name, x.size); }
  }
}
