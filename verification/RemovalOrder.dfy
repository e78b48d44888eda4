/** The order in which a deletion walk removes, said of pairs of paths: contents before their
    directory, and in each directory the extra subdirectories, then the extra files, then
    what is left to remove below the subdirectories that stay. */
module RemovalOrder {
  import opened SourceTree
  import opened DeleteWalk
  import opened Protection
  import opened RemovedPaths

  /** The pass over a directory that deals with an entry. */
  ghost function Pass(sc: Scope, rel: Path, k: Kid): nat {
    if k.tree.File? then 1 else if Unclaimed(sc, rel + [k.name], k) then 0 else 2
  }

  /** The x-th entry is dealt with before the y-th: by an earlier pass, or by the same in the
      order of the listing, backwards in the last. */
  ghost predicate Ahead(sc: Scope, rel: Path, kids: seq<Kid>, x: nat, y: nat)
    requires x < |kids| && y < |kids|
  {
    var a, b := Pass(sc, rel, kids[x]), Pass(sc, rel, kids[y]);
    a < b || (a == b && if a == 2 then x > y else x < y)
  }

  /** Of two paths below a directory the first is removed before the second. */
  ghost predicate Sooner(sc: Scope, rel: Path, kids: seq<Kid>, p: Path, q: Path)
    decreases |p|
  {
    && p != [] && q != []
    && exists x: nat, y: nat ::
         && x < |kids| && y < |kids| && kids[x].name == p[0] && kids[y].name == q[0]
         && if x != y then Ahead(sc, rel, kids, x, y)
            else
              && kids[x].tree.Folder? && |p| > 1
              && (|q| == 1 || Sooner(sc, rel + [kids[x].name], kids[x].tree.kids, p[1..], q[1..]))
  }

  /** The path lies in the x-th entry, which the given pass deals with. */
  ghost predicate From(sc: Scope, rel: Path, kids: seq<Kid>, q: Path, x: nat, pass: nat) {
    x < |kids| && rel + [kids[x].name] <= q && Pass(sc, rel, kids[x]) == pass
  }

  /** Sooner, for paths from the root. */
  ghost predicate Precedes(sc: Scope, rel: Path, kids: seq<Kid>, p: Path, q: Path) {
    rel <= p && rel <= q && Sooner(sc, rel, kids, p[|rel|..], q[|rel|..])
  }

  ghost predicate InOrder(sc: Scope, rel: Path, kids: seq<Kid>, s: seq<Path>) {
    forall i, j :: 0 <= i < j < |s| ==> Precedes(sc, rel, kids, s[i], s[j])
  }

  ghost predicate AllFrom(sc: Scope, rel: Path, kids: seq<Kid>, s: seq<Path>, n: nat, pass: nat) {
    forall q <- s :: exists x: nat :: n <= x && From(sc, rel, kids, q, x, pass)
  }

  lemma AheadIsSooner(sc: Scope, rel: Path, kids: seq<Kid>, p: Path, q: Path, x: nat, y: nat, a: nat, b: nat)
    requires From(sc, rel, kids, p, x, a) && From(sc, rel, kids, q, y, b) && x != y && Ahead(sc, rel, kids, x, y)
    ensures Precedes(sc, rel, kids, p, q)
  {
    assert p[|rel|..][0] == (rel + [kids[x].name])[|rel|] && q[|rel|..][0] == (rel + [kids[y].name])[|rel|];
  }

  /** Two runs, every path of one before every path of the other. */
  lemma OneAfterOther(sc: Scope, rel: Path, kids: seq<Kid>, s: seq<Path>, t: seq<Path>)
    requires InOrder(sc, rel, kids, s) && InOrder(sc, rel, kids, t)
    requires forall p, q :: p in s && q in t ==> Precedes(sc, rel, kids, p, q)
    ensures InOrder(sc, rel, kids, s + t)
  {
    var all := s + t;
    forall i, j | 0 <= i < j < |all|
      ensures Precedes(sc, rel, kids, all[i], all[j])
    {
      if j < |s| {
        assert all[i] == s[i] && all[j] == s[j];
      } else if i < |s| {
        assert all[i] in s && all[j] in t;
      } else {
        assert all[i] == t[i - |s|] && all[j] == t[j - |s|];
      }
    }
  }

  // ---- One subdirectory ----

  /** What a walk of the x-th entry removes, below that entry. */
  lemma {:induction false} KidInOrder(sc: Scope, rel: Path, kids: seq<Kid>, x: nat)
    requires x < |kids| && kids[x].tree.Folder?
    ensures InOrder(sc, rel, kids, WalkKid(sc, rel, InSync(sc, rel), kids[x]))
    ensures forall q <- WalkKid(sc, rel, InSync(sc, rel), kids[x]) :: rel + [kids[x].name] <= q
    decreases kids[x], 0
  {
    var k := kids[x];
    var sub := rel + [k.name];
    var inside := Walk(sc, sub, InSync(sc, rel), k.tree.kids);
    InSyncBelow(sc, rel, k.name);
    WalkInOrder(sc, sub, InSync(sc, rel), k.tree.kids);
    forall q | q in inside ensures sub < q { BelowIt(sc, sub, InSync(sc, rel), k.tree.kids, q); }
    Nested(sc, rel, kids, x, inside);
    if Gone(sc, rel, InSync(sc, rel), k) {
      forall p, q | p in inside && q in [sub] ensures Precedes(sc, rel, kids, p, q) { ContentsFirst(sc, rel, kids, x, p); }
      OneAfterOther(sc, rel, kids, inside, [sub]);
    }
  }

  lemma ContentsFirst(sc: Scope, rel: Path, kids: seq<Kid>, x: nat, p: Path)
    requires x < |kids| && kids[x].tree.Folder? && rel + [kids[x].name] < p
    ensures Precedes(sc, rel, kids, p, rel + [kids[x].name])
  {
    var sub := rel + [kids[x].name];
    assert p[|rel|..][0] == sub[|rel|] && sub[|rel|..] == [kids[x].name];
  }

  lemma BelowIt(sc: Scope, rel: Path, above: bool, kids: seq<Kid>, q: Path)
    requires q in Walk(sc, rel, above, kids)
    ensures rel < q
  {
    var p := RemovedIsRemovable(sc, rel, above, kids, q);
  }

  lemma Nested(sc: Scope, rel: Path, kids: seq<Kid>, x: nat, s: seq<Path>)
    requires x < |kids| && kids[x].tree.Folder? && InOrder(sc, rel + [kids[x].name], kids[x].tree.kids, s)
    requires forall q <- s :: rel + [kids[x].name] < q
    ensures InOrder(sc, rel, kids, s)
  {
    var sub := rel + [kids[x].name];
    forall i, j | 0 <= i < j < |s| ensures Precedes(sc, rel, kids, s[i], s[j]) {
      assert s[i] in s && s[j] in s;
      var p, q := s[i][|rel|..], s[j][|rel|..];
      assert p[0] == sub[|rel|] && q[0] == sub[|rel|];
      assert p[1..] == s[i][|sub|..] && q[1..] == s[j][|sub|..];
    }
  }

  // ---- The three passes ----

  lemma {:induction false} DirsInOrder(sc: Scope, rel: Path, kids: seq<Kid>, n: nat)
    requires n <= |kids|
    ensures InOrder(sc, rel, kids, ExtraDirs(sc, rel, InSync(sc, rel), kids[n..]))
    ensures AllFrom(sc, rel, kids, ExtraDirs(sc, rel, InSync(sc, rel), kids[n..]), n, 0)
    decreases kids, 1, |kids| - n
  {
    if n < |kids| {
      var k := kids[n];
      DirsInOrder(sc, rel, kids, n + 1);
      assert kids[n..][1..] == kids[n + 1..];
      ExtraExactly(sc, rel, k);
      var rest := ExtraDirs(sc, rel, InSync(sc, rel), kids[n + 1..]);
      if k.tree.Folder? && Extra(sc, rel, InSync(sc, rel), k) {
        var own := WalkKid(sc, rel, InSync(sc, rel), k);
        KidInOrder(sc, rel, kids, n);
        forall p, q | p in own && q in rest ensures Precedes(sc, rel, kids, p, q) {
          var y: nat :| n + 1 <= y && From(sc, rel, kids, q, y, 0);
          AheadIsSooner(sc, rel, kids, p, q, n, y, 0, 0);
        }
        OneAfterOther(sc, rel, kids, own, rest);
        forall q | q in own + rest ensures exists x: nat :: n <= x && From(sc, rel, kids, q, x, 0) {
          if q in own { assert From(sc, rel, kids, q, n, 0); }
        }
      } else {
        assert ExtraDirs(sc, rel, InSync(sc, rel), kids[n..]) == rest;
      }
    }
  }

  lemma {:induction false} FilesInOrder(sc: Scope, rel: Path, kids: seq<Kid>, n: nat)
    requires n <= |kids|
    ensures InOrder(sc, rel, kids, ExtraFiles(sc, rel, InSync(sc, rel), kids[n..]))
    ensures AllFrom(sc, rel, kids, ExtraFiles(sc, rel, InSync(sc, rel), kids[n..]), n, 1)
    decreases |kids| - n
  {
    if n < |kids| {
      var k := kids[n];
      FilesInOrder(sc, rel, kids, n + 1);
      assert kids[n..][1..] == kids[n + 1..];
      var rest := ExtraFiles(sc, rel, InSync(sc, rel), kids[n + 1..]);
      if k.tree.File? && Extra(sc, rel, InSync(sc, rel), k) {
        var own := [rel + [k.name]];
        forall p, q | p in own && q in rest ensures Precedes(sc, rel, kids, p, q) {
          var y: nat :| n + 1 <= y && From(sc, rel, kids, q, y, 1);
          AheadIsSooner(sc, rel, kids, p, q, n, y, 1, 1);
        }
        OneAfterOther(sc, rel, kids, own, rest);
        forall q | q in own + rest ensures exists x: nat :: n <= x && From(sc, rel, kids, q, x, 1) {
          if q in own { assert From(sc, rel, kids, q, n, 1); }
        }
      } else {
        assert ExtraFiles(sc, rel, InSync(sc, rel), kids[n..]) == rest;
      }
    }
  }

  lemma {:induction false} KeptInOrder(sc: Scope, rel: Path, kids: seq<Kid>, n: nat)
    requires n <= |kids|
    ensures InOrder(sc, rel, kids, KeptDirs(sc, rel, InSync(sc, rel), kids[n..]))
    ensures AllFrom(sc, rel, kids, KeptDirs(sc, rel, InSync(sc, rel), kids[n..]), n, 2)
    decreases kids, 1, |kids| - n
  {
    if n < |kids| {
      var k := kids[n];
      KeptInOrder(sc, rel, kids, n + 1);
      assert kids[n..][1..] == kids[n + 1..];
      ExtraExactly(sc, rel, k);
      var rest := KeptDirs(sc, rel, InSync(sc, rel), kids[n + 1..]);
      if k.tree.Folder? && !Extra(sc, rel, InSync(sc, rel), k) && !Shielded(sc, rel, k) {
        var own := WalkKid(sc, rel, InSync(sc, rel), k);
        KidInOrder(sc, rel, kids, n);
        forall p, q | p in rest && q in own ensures Precedes(sc, rel, kids, p, q) {
          var y: nat :| n + 1 <= y && From(sc, rel, kids, p, y, 2);
          AheadIsSooner(sc, rel, kids, p, q, y, n, 2, 2);
        }
        OneAfterOther(sc, rel, kids, rest, own);
        forall q | q in rest + own ensures exists x: nat :: n <= x && From(sc, rel, kids, q, x, 2) {
          if q in own { assert From(sc, rel, kids, q, n, 2); }
        }
      } else {
        assert KeptDirs(sc, rel, InSync(sc, rel), kids[n..]) == rest;
      }
    }
  }

  /** A later pass comes after an earlier one. */
  lemma PassAfterPass(sc: Scope, rel: Path, kids: seq<Kid>, s: seq<Path>, t: seq<Path>, a: nat, b: nat)
    requires InOrder(sc, rel, kids, s) && InOrder(sc, rel, kids, t) && a < b
    requires forall p <- s :: exists x: nat, c: nat :: c <= a && From(sc, rel, kids, p, x, c)
    requires AllFrom(sc, rel, kids, t, 0, b)
    ensures InOrder(sc, rel, kids, s + t)
  {
    forall p, q | p in s && q in t ensures Precedes(sc, rel, kids, p, q) {
      var x: nat, c: nat :| c <= a && From(sc, rel, kids, p, x, c);
      var y: nat :| 0 <= y && From(sc, rel, kids, q, y, b);
      AheadIsSooner(sc, rel, kids, p, q, x, y, c, b);
    }
    OneAfterOther(sc, rel, kids, s, t);
  }

  lemma {:induction false} WalkInOrder(sc: Scope, rel: Path, above: bool, kids: seq<Kid>)
    requires Deletable(sc, rel, above) == InSync(sc, rel)
    ensures InOrder(sc, rel, kids, Walk(sc, rel, above, kids))
    decreases kids, 2
  {
    var d := InSync(sc, rel);
    assert kids[0..] == kids;
    DirsInOrder(sc, rel, kids, 0);
    FilesInOrder(sc, rel, kids, 0);
    KeptInOrder(sc, rel, kids, 0);
    var dirs, files, kept := ExtraDirs(sc, rel, d, kids), ExtraFiles(sc, rel, d, kids), KeptDirs(sc, rel, d, kids);
    PassAfterPass(sc, rel, kids, dirs, files, 0, 1);
    PassAfterPass(sc, rel, kids, dirs + files, kept, 1, 2);
  }

  // ---- The main result ----

  /** A walk removes in order; in particular nothing twice, and a directory only after all
      that it removes below it. */
  lemma RemovesInOrder(sc: Scope, kids: seq<Kid>, i: nat, j: nat)
    requires Sane(kids) && i < j < |Walk(sc, [], false, kids)|
    ensures var removed := Walk(sc, [], false, kids);
            Sooner(sc, [], kids, removed[i], removed[j]) && !(removed[i] <= removed[j])
  {
    InSyncAtRoot(sc);
    WalkInOrder(sc, [], false, kids);
    var p, q := Walk(sc, [], false, kids)[i], Walk(sc, [], false, kids)[j];
    assert p[0..] == p && q[0..] == q;
    NotAbove(sc, [], kids, p, q);
  }

  lemma {:induction false} NotAbove(sc: Scope, rel: Path, kids: seq<Kid>, p: Path, q: Path)
    requires Sane(kids) && Sooner(sc, rel, kids, p, q)
    ensures !(p <= q)
    decreases |p|
  {
    var x: nat, y: nat :| x < |kids| && y < |kids| && kids[x].name == p[0] && kids[y].name == q[0]
      && if x != y then Ahead(sc, rel, kids, x, y)
         else kids[x].tree.Folder? && |p| > 1
              && (|q| == 1 || Sooner(sc, rel + [kids[x].name], kids[x].tree.kids, p[1..], q[1..]));
    if x == y && |q| > 1 {
      NotAbove(sc, rel + [kids[x].name], kids[x].tree.kids, p[1..], q[1..]);
      assert p[1..] <= q[1..] || !(p <= q);
    } else if x != y {
      assert kids[x].name != kids[y].name;
    }
  }
}
