/** Exactly which paths a deletion walk removes, said of each path and what stands there
    and not of the walk. */
module RemovedPaths {
  import opened FilterChain
  import opened SourceTree
  import opened WirePaths
  import opened DeleteWalk
  import opened Protection

  // ---- One path ----

  /** A prefix is the path's name or that of a directory above it; some prefixes count in the
      root only. */
  ghost predicate Prefixed(skips: seq<Skip>, p: Path) {
    exists k <- skips :: (|p| > 1 ==> !k.topLevelOnly) && (Join(p) == k.prefix || StartsWith(Join(p), k.prefix + "/"))
  }

  lemma PrefixedExactly(skips: seq<Skip>, p: Path)
    requires p != []
    ensures UnderSkip(Join(p), |p| == 1, skips) <==> Prefixed(skips, p)
  {
    forall k <- skips ensures StrWithin(k.prefix, Join(p)) <==> (Join(p) == k.prefix || StartsWith(Join(p), k.prefix + "/")) {
      WithinPrefix(k.prefix, Join(p));
    }
    if k :| k in skips && (|p| > 1 ==> !k.topLevelOnly) && StrWithin(k.prefix, Join(p)) {
      var i :| 0 <= i < |skips| && skips[i] == k;
    }
  }

  lemma WithinPrefix(prefix: string, s: string)
    ensures StrWithin(prefix, s) <==> s == prefix || StartsWith(s, prefix + "/")
  {
    if |s| > |prefix| { assert s[..|prefix| + 1] == s[..|prefix|] + [s[|prefix|]]; }
    if StartsWith(s, prefix + "/") { assert s[..|prefix|] == (prefix + "/")[..|prefix|] && s[|prefix|] == (prefix + "/")[|prefix|]; }
  }

  /** A protected prefix or the receiver's own rules speak for what stands at p. */
  ghost predicate SpokenFor(sc: Scope, p: Path, at: Kid)
    requires p != []
  {
    || Prefixed(sc.skips, p)
    || sc.protects(FilterChain.Subject(Join(p), p[|p| - 1], at.tree.Folder?))
  }

  /** The manifest asks for what stands at p: as a kept name, or for a directory as one
      above a kept name or as a synchronized one. */
  ghost predicate Wanted(sc: Scope, p: Path, at: Kid) {
    || Join(p) in sc.keep
    || (at.tree.Folder? && Join(p) != "" && exists n <- sc.keep :: StartsWith(n, Join(p) + "/"))
    || (at.tree.Folder? && sc.dirs.Only? && Join(p) in sc.dirs.names)
  }

  function DirName(d: Path): string { if d == [] then "." else Join(d) }

  /** The directory d or one above it is synchronized. */
  ghost predicate InSync(sc: Scope, d: Path) {
    sc.dirs.Everywhere? || exists m :: 0 <= m <= |d| && DirName(d[..m]) in sc.dirs.names
  }

  /** What stands at p has no claim to stay. */
  ghost predicate Unclaimed(sc: Scope, p: Path, at: Kid)
    requires p != []
  {
    !SpokenFor(sc, p, at) && !Wanted(sc, p, at) && InSync(sc, p[..|p| - 1])
  }

  lemma InSyncBelow(sc: Scope, d: Path, name: string)
    ensures InSync(sc, d + [name]) <==> Deletable(sc, d + [name], InSync(sc, d))
  {
    var sub := d + [name];
    if m :| 0 <= m <= |d| && sc.dirs.Only? && DirName(d[..m]) in sc.dirs.names {
      assert sub[..m] == d[..m];
    }
    if m :| 0 <= m <= |sub| && sc.dirs.Only? && DirName(sub[..m]) in sc.dirs.names {
      if m <= |d| { assert sub[..m] == d[..m]; } else { assert sub[..m] == sub; }
    }
    assert sub[..|sub|] == sub;
  }

  lemma InSyncAtRoot(sc: Scope)
    ensures InSync(sc, []) <==> Synced(sc, [])
  {
    var root: Path := [];
    assert root[..0] == root;
  }

  /** The walk's test of one entry. */
  lemma ExtraExactly(sc: Scope, rel: Path, k: Kid)
    ensures Extra(sc, rel, InSync(sc, rel), k) <==> Unclaimed(sc, rel + [k.name], k)
    ensures Shielded(sc, rel, k) <==> SpokenFor(sc, rel + [k.name], k)
  {
    var p := rel + [k.name];
    assert p[..|p| - 1] == rel;
    PrefixedExactly(sc.skips, p);
  }

  // ---- Everything below ----

  /** Whatever stands at or below q has no claim. */
  ghost predicate ClearFrom(sc: Scope, rel: Path, kids: seq<Kid>, q: Path) {
    forall p, at :: p != [] && q <= p && Stands(kids, p, at) ==> Unclaimed(sc, rel + p, at)
  }

  lemma {:induction false} AllGoneIfEach(sc: Scope, rel: Path, deletable: bool, kids: seq<Kid>)
    requires forall k <- kids :: Gone(sc, rel, deletable, k)
    ensures AllGone(sc, rel, deletable, kids)
  {
    if kids != [] { AllGoneIfEach(sc, rel, deletable, kids[1..]); }
  }

  lemma ClearInside(sc: Scope, rel: Path, kids: seq<Kid>, k: Kid, q: Path)
    requires k in kids && k.tree.Folder? && q != [] && q[0] == k.name && ClearFrom(sc, rel, kids, q)
    ensures ClearFrom(sc, rel + [k.name], k.tree.kids, q[1..])
  {
    forall p, at | p != [] && q[1..] <= p && Stands(k.tree.kids, p, at) ensures Unclaimed(sc, rel + [k.name] + p, at) {
      var whole := [k.name] + p;
      assert whole[1..] == p && StandsIn(k, whole, at);
      assert q == [q[0]] + q[1..] && q <= whole;
      assert rel + whole == rel + [k.name] + p;
    }
  }

  lemma {:induction false} ClearIsGone(sc: Scope, rel: Path, kids: seq<Kid>, k: Kid)
    requires k in kids && ClearFrom(sc, rel, kids, [k.name])
    ensures Gone(sc, rel, InSync(sc, rel), k)
    decreases k
  {
    assert StandsIn(k, [k.name], k);
    ExtraExactly(sc, rel, k);
    if k.tree.Folder? {
      var sub := rel + [k.name];
      ClearInside(sc, rel, kids, k, [k.name]);
      InSyncBelow(sc, rel, k.name);
      forall x | x in k.tree.kids ensures Gone(sc, sub, InSync(sc, sub), x) {
        ClearNamed(sc, sub, k.tree.kids, x.name);
        ClearIsGone(sc, sub, k.tree.kids, x);
      }
      AllGoneIfEach(sc, sub, InSync(sc, sub), k.tree.kids);
    }
  }

  lemma ClearNamed(sc: Scope, rel: Path, kids: seq<Kid>, name: string)
    requires ClearFrom(sc, rel, kids, [])
    ensures ClearFrom(sc, rel, kids, [name])
  {
  }

  lemma {:induction false} GoneIsClear(sc: Scope, rel: Path, k: Kid, p: Path, at: Kid)
    requires Gone(sc, rel, InSync(sc, rel), k) && p != [] && StandsIn(k, p, at)
    ensures Unclaimed(sc, rel + p, at)
    decreases |p|
  {
    ExtraExactly(sc, rel, k);
    if |p| == 1 {
      assert p == [k.name];
    } else {
      var sub := rel + [k.name];
      InSyncBelow(sc, rel, k.name);
      var x :| x in k.tree.kids && StandsIn(x, p[1..], at);
      AllGoneHas(sc, sub, InSync(sc, sub), k.tree.kids, x);
      GoneIsClear(sc, sub, x, p[1..], at);
      assert sub + p[1..] == rel + p;
    }
  }

  // ---- The way there ----

  /** Nothing that stands at q or on the way there is spoken for. */
  ghost predicate OpenTo(sc: Scope, rel: Path, kids: seq<Kid>, q: Path) {
    forall n, at :: 0 < n <= |q| && Stands(kids, q[..n], at) ==> !SpokenFor(sc, rel + q[..n], at)
  }

  lemma OpenInside(sc: Scope, rel: Path, kids: seq<Kid>, k: Kid, q: Path)
    requires k in kids && k.tree.Folder? && q != [] && q[0] == k.name && OpenTo(sc, rel, kids, q)
    ensures OpenTo(sc, rel + [k.name], k.tree.kids, q[1..])
  {
    forall n, at | 0 < n <= |q[1..]| && Stands(k.tree.kids, q[1..][..n], at)
      ensures !SpokenFor(sc, rel + [k.name] + q[1..][..n], at)
    {
      var whole := q[..n + 1];
      assert whole[1..] == q[1..][..n] && StandsIn(k, whole, at);
      assert rel + whole == rel + [k.name] + q[1..][..n];
    }
  }

  lemma OpenOutside(sc: Scope, rel: Path, kids: seq<Kid>, k: Kid, q: Path)
    requires Sane(kids) && k in kids && q != [] && q[0] == k.name && !SpokenFor(sc, rel + [k.name], k)
    requires k.tree.Folder? ==> OpenTo(sc, rel + [k.name], k.tree.kids, q[1..])
    ensures OpenTo(sc, rel, kids, q)
  {
    forall n, at | 0 < n <= |q| && Stands(kids, q[..n], at) ensures !SpokenFor(sc, rel + q[..n], at) {
      var l :| l in kids && StandsIn(l, q[..n], at);
      SameName(kids, k, l);
      if n == 1 {
        assert q[..1] == [k.name];
      } else {
        assert q[..n][1..] == q[1..][..n - 1];
        assert rel + [k.name] + q[1..][..n - 1] == rel + q[..n];
      }
    }
  }

  lemma {:induction false} RemovableWhenClear(sc: Scope, rel: Path, kids: seq<Kid>, q: Path, at: Kid)
    requires Stands(kids, q, at) && OpenTo(sc, rel, kids, q) && ClearFrom(sc, rel, kids, q)
    ensures Removable(sc, rel, InSync(sc, rel), kids, q)
    decreases |q|
  {
    var k :| k in kids && StandsIn(k, q, at);
    if |q| == 1 {
      assert q == [k.name];
      ClearIsGone(sc, rel, kids, k);
    } else {
      assert q[..1] == [k.name] && StandsIn(k, q[..1], k);
      ExtraExactly(sc, rel, k);
      OpenInside(sc, rel, kids, k, q);
      ClearInside(sc, rel, kids, k, q);
      InSyncBelow(sc, rel, k.name);
      RemovableWhenClear(sc, rel + [k.name], k.tree.kids, q[1..], at);
    }
    assert RemovableIn(sc, rel, InSync(sc, rel), k, q);
  }

  lemma {:induction false} ClearWhenRemovable(sc: Scope, rel: Path, kids: seq<Kid>, q: Path) returns (at: Kid)
    requires Sane(kids) && Removable(sc, rel, InSync(sc, rel), kids, q)
    ensures Stands(kids, q, at) && OpenTo(sc, rel, kids, q) && ClearFrom(sc, rel, kids, q)
    decreases |q|
  {
    var k :| k in kids && k.name == q[0] && RemovableIn(sc, rel, InSync(sc, rel), k, q);
    ExtraExactly(sc, rel, k);
    at := k;
    if |q| == 1 {
      assert q == [k.name];
      forall p, x | p != [] && q <= p && Stands(kids, p, x) ensures Unclaimed(sc, rel + p, x) {
        var l :| l in kids && StandsIn(l, p, x);
        assert p[0] == k.name;
        SameName(kids, k, l);
        GoneIsClear(sc, rel, k, p, x);
      }
      NothingFurther(sc, rel + [k.name], k);
    } else {
      InSyncBelow(sc, rel, k.name);
      at := ClearWhenRemovable(sc, rel + [k.name], k.tree.kids, q[1..]);
      ClearOutside(sc, rel, kids, k, q);
    }
    assert StandsIn(k, q, at);
    OpenOutside(sc, rel, kids, k, q);
  }

  lemma NothingFurther(sc: Scope, rel: Path, k: Kid)
    ensures k.tree.Folder? ==> OpenTo(sc, rel, k.tree.kids, [])
  {
  }

  lemma ClearOutside(sc: Scope, rel: Path, kids: seq<Kid>, k: Kid, q: Path)
    requires Sane(kids) && k in kids && k.tree.Folder? && |q| > 1 && q[0] == k.name
    requires ClearFrom(sc, rel + [k.name], k.tree.kids, q[1..])
    ensures ClearFrom(sc, rel, kids, q)
  {
    forall p, at | p != [] && q <= p && Stands(kids, p, at) ensures Unclaimed(sc, rel + p, at) {
      var l :| l in kids && StandsIn(l, p, at);
      SameName(kids, k, l);
      assert q[1..] <= p[1..] && rel + [k.name] + p[1..] == rel + p;
    }
  }

  // ---- The main results ----

  lemma RemovedIsClear(sc: Scope, kids: seq<Kid>, q: Path) returns (at: Kid)
    requires Sane(kids) && q in Walk(sc, [], false, kids)
    ensures Stands(kids, q, at) && OpenTo(sc, [], kids, q) && ClearFrom(sc, [], kids, q)
  {
    RemovedExactly(sc, kids, q);
    InSyncAtRoot(sc);
    at := ClearWhenRemovable(sc, [], kids, q);
  }

  lemma ClearIsRemoved(sc: Scope, kids: seq<Kid>, q: Path, at: Kid)
    requires Stands(kids, q, at) && OpenTo(sc, [], kids, q) && ClearFrom(sc, [], kids, q)
    ensures q in Walk(sc, [], false, kids)
  {
    InSyncAtRoot(sc);
    RemovableWhenClear(sc, [], kids, q, at);
    RemovedExactly(sc, kids, q);
  }

  /** A path is removed if and only if something stands there, neither a protected prefix
      nor a rule of the receiver speaks for it or for a directory on the way, and nothing at
      or below it is spoken for, wanted by the manifest, or outside every synchronized
      directory. */
  lemma RemovedPathsExactly(sc: Scope, kids: seq<Kid>, q: Path)
    requires Sane(kids)
    ensures q in Walk(sc, [], false, kids) <==>
      Present(kids, q) && OpenTo(sc, [], kids, q) && ClearFrom(sc, [], kids, q)
  {
    if q in Walk(sc, [], false, kids) {
      var at := RemovedIsClear(sc, kids, q);
    } else if Present(kids, q) && OpenTo(sc, [], kids, q) && ClearFrom(sc, [], kids, q) {
      var at :| Stands(kids, q, at);
      ClearIsRemoved(sc, kids, q, at);
    }
  }

  lemma SpokenForOnTheWay(sc: Scope, kids: seq<Kid>, p: Path, at: Kid, q: Path)
    requires Stands(kids, p, at) && SpokenFor(sc, p, at) && p <= q
    ensures !OpenTo(sc, [], kids, q)
  {
    assert q[..|p|] == p && [] + p == p;
  }

  lemma SpokenForBelow(sc: Scope, kids: seq<Kid>, p: Path, at: Kid, q: Path)
    requires Stands(kids, p, at) && SpokenFor(sc, p, at) && q <= p
    ensures !ClearFrom(sc, [], kids, q)
  {
    assert [] + p == p;
  }

  /** What a rule of the receiver protects stays with all below it, and so does every
      directory above it. */
  lemma RuledIsSpared(sc: Scope, kids: seq<Kid>, p: Path, at: Kid, q: Path)
    requires Sane(kids) && Stands(kids, p, at) && sc.protects(FilterChain.Subject(Join(p), p[|p| - 1], at.tree.Folder?))
    requires q in Walk(sc, [], false, kids)
    ensures !(p <= q) && !(q <= p)
  {
    var there := RemovedIsClear(sc, kids, q);
    if p <= q { SpokenForOnTheWay(sc, kids, p, at, q); }
    if q <= p { SpokenForBelow(sc, kids, p, at, q); }
  }

  /** The receiver's protect rules, as the walk consults them. */
  function ByProtectRules(glob: Glob, rules: Rules): FilterChain.Subject -> bool {
    (x: FilterChain.Subject) => FirstAction(glob, rules, x, Receiver) == Protect
  }

  /** The same for a list of rules: the first that fires on the receiver's side decides. */
  lemma ProtectRulesSpare(sc: Scope, glob: Glob, rules: Rules, kids: seq<Kid>, p: Path, at: Kid, q: Path)
    requires Sane(kids) && Stands(kids, p, at) && sc.protects == ByProtectRules(glob, rules)
    requires FirstExcludes(glob, rules, FilterChain.Subject(Join(p), p[|p| - 1], at.tree.Folder?), Receiver)
    requires q in Walk(sc, [], false, kids)
    ensures !(p <= q) && !(q <= p)
  {
    FirstExactly(glob, rules, FilterChain.Subject(Join(p), p[|p| - 1], at.tree.Folder?), Receiver);
    RuledIsSpared(sc, kids, p, at, q);
  }
}
