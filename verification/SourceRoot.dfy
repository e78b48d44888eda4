/** A source root is sent as the user typed it, and the receiver's walk compares names
    literally. A file stored through a name that is not in normal form is therefore not
    recognised as kept; here is exactly when that happens. */
module SourceRoot {
  import opened FilterChain
  import opened SourceTree
  import opened WirePaths
  import opened DeleteWalk
  import opened Protection

  // ---- Where a name lands ----

  /** The file system ignores empty and "." components. */
  function Part(head: string): Path { if head == "" || head == "." then [] else [head] }

  /** The components of a name, `head` being the start of the first. */
  function LandsFrom(head: string, w: string): Path
    decreases |w|
  {
    if w == "" then Part(head)
    else if w[0] == '/' then Part(head) + LandsFrom("", w[1..])
    else LandsFrom(head + [w[0]], w[1..])
  }

  function Lands(w: string): Path { LandsFrom("", w) }

  lemma {:induction false} LandsFromConcat(head: string, x: string, y: string)
    ensures LandsFrom(head, x + "/" + y) == LandsFrom(head, x) + Lands(y)
    decreases |x|
  {
    var w := x + "/" + y;
    if x == "" {
      assert w[0] == '/' && w[1..] == y;
    } else {
      assert w[0] == x[0] && w[1..] == x[1..] + "/" + y;
      if x[0] == '/' {
        LandsFromConcat("", x[1..], y);
      } else {
        LandsFromConcat(head + [x[0]], x[1..], y);
      }
    }
  }

  /** Components add up over a slash. */
  lemma LandsConcat(x: string, y: string)
    ensures Lands(x + "/" + y) == Lands(x) + Lands(y)
  {
    LandsFromConcat("", x, y);
  }

  lemma {:induction false} LandsFromName(head: string, x: string)
    requires '/' !in x
    ensures LandsFrom(head, x) == Part(head + x)
    decreases |x|
  {
    if x == "" {
      assert head + x == head;
    } else {
      assert x[0] in x && forall c <- x[1..] :: c in x;
      LandsFromName(head + [x[0]], x[1..]);
      assert head + [x[0]] + x[1..] == head + x;
    }
  }

  lemma LandsOne(x: string)
    requires '/' !in x
    ensures Lands(x) == Part(x)
  {
    LandsFromName("", x);
    assert "" + x == x;
  }

  lemma LandsName(n: string)
    requires CleanName(n)
    ensures Lands(n) == [n]
  {
    LandsOne(n);
  }

  lemma LandsSnoc(j: string, n: string)
    requires CleanName(n)
    ensures Lands(j + "/" + n) == Lands(j) + [n]
  {
    LandsName(n);
    LandsConcat(j, n);
  }

  lemma {:induction false} LandsJoin(p: Path)
    requires Clean(p)
    ensures Lands(Join(p)) == p
  {
    if |p| == 1 {
      LandsName(p[0]);
      assert p == [p[0]];
    } else if |p| > 1 {
      var n := |p| - 1;
      LandsJoin(p[..n]);
      LandsSnoc(Join(p[..n]), p[n]);
      assert p == p[..n] + [p[n]];
    }
  }

  lemma {:induction false} JoinConcat(a: Path, b: Path)
    requires a != [] && b != []
    ensures Join(a + b) == Join(a) + "/" + Join(b)
  {
    var n := |b| - 1;
    assert (a + b)[..|a + b| - 1] == a + b[..n];
    if n == 0 {
      assert a + b[..0] == a;
    } else {
      JoinConcat(a, b[..n]);
    }
  }

  // ---- When a name on the wire is in normal form ----

  predicate NormalName(w: string) { Join(Lands(w)) == w }

  /** A source root without one trailing slash. */
  function Body(r: string): string { if r != "" && r[|r| - 1] == '/' then r[..|r| - 1] else r }

  function Unrooted(s: string): string { if s != "" && s[0] == '/' then s[1..] else s }

  /** A root in normal form: "/", or, without a slash at either end, a non-empty name
      that is its own normal form. */
  predicate NormalRoot(r: string) {
    Body(r) == "" || (Unrooted(Body(r)) != "" && NormalName(Unrooted(Body(r))))
  }

  lemma {:induction false} FsPathBelow(r: string, p: Path)
    requires r != "" && Clean(p) && p != []
    ensures FsPath(r, p) == Body(r) + "/" + Join(p)
  {
    var n := |p| - 1;
    assert p[n][0] in p[n];
    if n > 0 {
      FsPathBelow(r, p[..n]);
      JoinEnds(p[..n]);
      NextStep(Body(r) + "/", Join(p[..n]), p[n]);
    } else {
      assert p[..0] == [];
    }
  }

  lemma JoinedSame(a: Path, p: Path, x: string)
    requires p != []
    ensures Join(a + p) == x + "/" + Join(p) <==> a != [] && Join(a) == x
  {
    if a == [] {
      assert a + p == p && |Join(p)| < |x + "/" + Join(p)|;
    } else {
      JoinConcat(a, p);
      assert x + "/" + Join(p) == x + ("/" + Join(p));
      assert Join(a) + "/" + Join(p) == Join(a) + ("/" + Join(p));
      Cancel(Join(a), x, "/" + Join(p));
    }
  }

  lemma BelowNormalExactly(x: string, p: Path)
    requires Clean(p) && p != []
    ensures Lands(x + "/" + Join(p)) == Lands(x) + p
    ensures NormalName(x + "/" + Join(p)) <==> x != "" && NormalName(x)
  {
    LandsJoin(p);
    LandsConcat(x, Join(p));
    JoinedSame(Lands(x), p, x);
  }

  /** A name on the wire is in normal form if and only if the root is. */
  lemma WireNormalExactly(r: string, p: Path)
    requires r != "" && Clean(p) && p != []
    ensures Lands(Wire(r, p)) == Lands(Unrooted(Body(r))) + p
    ensures NormalName(Wire(r, p)) <==> NormalRoot(r)
  {
    FsPathBelow(r, p);
    var x := Unrooted(Body(r));
    if Body(r) == "" {
      LandsJoin(p);
      assert Wire(r, p) == Join(p) && [] + p == p;
    } else {
      assert Wire(r, p) == x + "/" + Join(p);
      BelowNormalExactly(x, p);
    }
  }

  lemma Cancel(a: string, b: string, tail: string)
    ensures a + tail == b + tail <==> a == b
  {
    if a + tail == b + tail {
      assert a == (a + tail)[..|a|] && b == (b + tail)[..|b|] && |a| == |b|;
    }
  }

  // ---- What the walk then does ----

  /** Nothing is shielded and the whole destination is in scope. */
  ghost predicate Plain(sc: Scope) { sc.skips == [] && Synced(sc, []) && forall x :: !sc.protects(x) }

  /** No protected prefix covers the way from rel along p, nor its end. */
  ghost predicate Unshielded(sc: Scope, rel: Path, p: Path) {
    forall n :: 0 < n <= |p| ==> !UnderSkip(Join(rel + p[..n]), rel + p[..n - 1] == [], sc.skips)
  }

  lemma {:induction false} OpenWay(sc: Scope, rel: Path, kids: seq<Kid>, p: Path, at: Kid)
    requires Unshielded(sc, rel, p) && (forall x :: !sc.protects(x))
    requires Stands(kids, p, at) && at.tree.File? && Join(rel + p) !in sc.keep
    ensures Removable(sc, rel, true, kids, p)
    decreases |p|
  {
    var k :| k in kids && StandsIn(k, p, at);
    assert p[..1] == [k.name] && rel + p[..0] == rel;
    assert !Shielded(sc, rel, k);
    if |p| == 1 {
      assert p == [k.name];
    } else {
      var sub := rel + [k.name];
      assert sub + p[1..] == rel + p;
      forall n | 0 < n <= |p[1..]| ensures !UnderSkip(Join(sub + p[1..][..n]), sub + p[1..][..n - 1] == [], sc.skips) {
        assert sub + p[1..][..n] == rel + p[..n + 1] && sub + p[1..][..n - 1] == rel + p[..n];
      }
      OpenWay(sc, sub, k.tree.kids, p[1..], at);
    }
    assert RemovableIn(sc, rel, true, k, p);
  }

  /** In a plain run a file goes if and only if its own path is not literally kept. */
  lemma FileRemovedExactly(sc: Scope, kids: seq<Kid>, p: Path, at: Kid)
    requires Plain(sc) && Sane(kids) && Stands(kids, p, at) && at.tree.File?
    ensures p in Walk(sc, [], false, kids) <==> Join(p) !in sc.keep
  {
    RemovedExactly(sc, kids, p);
    assert [] + p == p;
    if Join(p) in sc.keep {
      if p in Walk(sc, [], false, kids) { KeptIsSpared(sc, kids, p, at, p); }
    } else {
      OpenWay(sc, [], kids, p, at);
    }
  }

  /** A name on the wire of something below root r. */
  ghost predicate NameBelow(r: string, n: string) { exists x :: x != [] && Clean(x) && n == Wire(r, x) }

  /** Every kept name and every protected prefix is one. */
  ghost predicate KeepsBelow(r: string, keep: seq<string>) { forall n <- keep :: NameBelow(r, n) }

  ghost predicate ShieldsBelow(r: string, skips: seq<Skip>) { forall k <- skips :: NameBelow(r, k.prefix) }

  lemma SlashBefore(p: Path, n: nat)
    requires p != [] && Clean(p) && n < |Join(p)| && Join(p)[n] == '/'
    ensures |p| > 1 && n <= |Join(p[..|p| - 1])|
  {
    var last := p[|p| - 1];
    assert forall i :: 0 <= i < |last| ==> last[i] != '/';
  }

  /** What ends at a slash or at the end of a joined path is a joined path. */
  lemma {:induction false} InitialPart(p: Path, n: nat) returns (k: nat)
    requires p != [] && Clean(p) && 0 < n <= |Join(p)| && (n == |Join(p)| || Join(p)[n] == '/')
    ensures 0 < k <= |p| && Join(p)[..n] == Join(p[..k])
  {
    k := |p|;
    assert p[..k] == p && Join(p)[..|Join(p)|] == Join(p);
    if n < |Join(p)| {
      SlashBefore(p, n);
      var most := p[..|p| - 1];
      assert Join(p)[..n] == Join(most)[..n];
      assert n < |Join(most)| ==> Join(p)[n] == Join(most)[n];
      k := InitialPart(most, n);
      assert most[..k] == p[..k];
    }
  }

  lemma NameNotEmpty(r: string, n: string)
    requires r != "" && NameBelow(r, n)
    ensures n != ""
  {
    var x :| x != [] && Clean(x) && n == Wire(r, x);
    WireNormalExactly(r, x);
  }

  /** A protected prefix covers a clean path only under a normal root. */
  lemma ShieldedNormally(r: string, skips: seq<Skip>, p: Path, atRoot: bool)
    requires r != "" && ShieldsBelow(r, skips) && p != [] && Clean(p) && UnderSkip(Join(p), atRoot, skips)
    ensures NormalRoot(r)
  {
    var i :| 0 <= i < |skips| && StrWithin(skips[i].prefix, Join(p));
    assert skips[i] in skips;
    CoversNormally(r, skips[i].prefix, p);
  }

  lemma CoversNormally(r: string, n: string, p: Path)
    requires r != "" && NameBelow(r, n) && p != [] && Clean(p) && StrWithin(n, Join(p))
    ensures NormalRoot(r)
  {
    NameNotEmpty(r, n);
    var k := InitialPart(p, |n|);
    var x :| x != [] && Clean(x) && n == Wire(r, x);
    LandsJoin(p[..k]);
    WireNormalExactly(r, x);
  }

  lemma {:induction false} StandsClean(kids: seq<Kid>, p: Path, at: Kid)
    requires Sane(kids) && Stands(kids, p, at)
    ensures Clean(p)
    decreases |p|
  {
    var k :| k in kids && StandsIn(k, p, at);
    if |p| > 1 {
      StandsClean(k.tree.kids, p[1..], at);
      assert p == [p[0]] + p[1..];
    }
  }

  /** A normal name is kept only under a normal root. */
  lemma KeptNormally(r: string, keep: seq<string>, p: Path)
    requires r != "" && KeepsBelow(r, keep) && Clean(p) && Join(p) in keep
    ensures NormalRoot(r)
  {
    var x :| x != [] && Clean(x) && Join(p) == Wire(r, x);
    LandsJoin(p);
    WireNormalExactly(r, x);
  }

  /** Whatever else is sent or shielded from below root r, a file stored and kept under its
      name on the wire is deleted by the same run if and only if r is not in normal form. */
  lemma StoredFileDeletedExactly(r: string, p: Path, sc: Scope, kids: seq<Kid>, at: Kid)
    requires r != "" && Clean(p) && p != [] && Sane(kids)
    requires Synced(sc, []) && forall x :: !sc.protects(x)
    requires KeepsBelow(r, sc.keep) && ShieldsBelow(r, sc.skips) && Wire(r, p) in sc.keep
    requires Stands(kids, Lands(Wire(r, p)), at) && at.tree.File?
    ensures Lands(Wire(r, p)) in Walk(sc, [], false, kids) <==> !NormalRoot(r)
  {
    var landed := Lands(Wire(r, p));
    StandsClean(kids, landed, at);
    WireNormalExactly(r, p);
    if NormalRoot(r) {
      if landed in Walk(sc, [], false, kids) { KeptIsSpared(sc, kids, landed, at, landed); }
    } else {
      NotNormalGoes(r, sc, kids, landed, at);
    }
  }

  lemma NotNormalGoes(r: string, sc: Scope, kids: seq<Kid>, landed: Path, at: Kid)
    requires r != "" && !NormalRoot(r) && Clean(landed) && landed != []
    requires Synced(sc, []) && forall x :: !sc.protects(x)
    requires KeepsBelow(r, sc.keep) && ShieldsBelow(r, sc.skips) && Stands(kids, landed, at) && at.tree.File?
    ensures landed in Walk(sc, [], false, kids)
  {
    assert [] + landed == landed;
    if Join(landed) in sc.keep { KeptNormally(r, sc.keep, landed); }
    forall n | 0 < n <= |landed| ensures !UnderSkip(Join([] + landed[..n]), [] + landed[..n - 1] == [], sc.skips) {
      assert [] + landed[..n] == landed[..n];
      if UnderSkip(Join(landed[..n]), [] + landed[..n - 1] == [], sc.skips) {
        ShieldedNormally(r, sc.skips, landed[..n], [] + landed[..n - 1] == []);
      }
    }
    OpenWay(sc, [], kids, landed, at);
    RemovedExactly(sc, kids, landed);
  }

  lemma DotWire()
    ensures Wire(".", ["f"]) == "./f" && Lands("./f") == ["f"]
  {
    FsPathBelow(".", ["f"]);
    assert Join(["f"]) == "f" && "." + "/" + "f" == "./f";
    LandsConcat(".", "f");
    LandsName("f");
    DotLands();
  }

  lemma DotLands()
    ensures Lands(".") == [] && !NormalRoot(".")
  {
    LandsOne(".");
    assert Body(".") == "." && Unrooted(".") == ".";
  }

  /** Sending "." with --delete-after stores the file f and then removes it. */
  lemma DotRootLosesItsFiles(sc: Scope, kids: seq<Kid>)
    requires sc.keep == [Wire(".", ["f"])] && sc.dirs == Only(["."]) && sc.skips == [] && forall x :: !sc.protects(x)
    requires kids == [Kid("f", File)]
    ensures Lands(Wire(".", ["f"])) == ["f"] && ["f"] in Walk(sc, [], false, kids)
  {
    DotWire();
    DotLands();
    assert StandsIn(kids[0], ["f"], kids[0]);
    assert CleanName("f") && Clean(["f"]);
    StoredFileDeletedExactly(".", ["f"], sc, kids, kids[0]);
  }
}
