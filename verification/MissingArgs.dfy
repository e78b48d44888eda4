/** --delete-missing-args: the exact-path deletions a commit starts with, and what a
    destination still holds after removals. */
module MissingArgs {
  import opened SourceTree
  import opened WirePaths
  import opened DeleteWalk
  import opened Protection
  import opened SourceRoot
  import FramedLists
  import opened Protocol

  // ---- A destination after a removal ----

  predicate Stays(k: Kid, p: Path)
    requires p != []
  {
    !(k.name == p[0] && |p| == 1)
  }

  /** The entry without what stood below it at p. */
  function Trim(k: Kid, p: Path): Kid
    requires p != []
    decreases |p|, 0
  {
    if k.name == p[0] && |p| > 1 && k.tree.Folder? then Kid(k.name, Folder(Without(k.tree.kids, p[1..]))) else k
  }

  /** The entries without the tree at p. */
  function Without(kids: seq<Kid>, p: Path): seq<Kid>
    requires p != []
    decreases |p|, 1, |kids|
  {
    if kids == [] then []
    else (if Stays(kids[0], p) then [Trim(kids[0], p)] else []) + Without(kids[1..], p)
  }

  lemma {:induction false} WithoutHas(kids: seq<Kid>, p: Path, t: Kid)
    requires p != []
    ensures t in Without(kids, p) <==> exists k <- kids :: Stays(k, p) && t == Trim(k, p)
  {
    if kids != [] {
      WithoutHas(kids[1..], p, t);
      assert kids == [kids[0]] + kids[1..];
    }
  }

  lemma {:induction false} WithoutSane(kids: seq<Kid>, p: Path)
    requires Sane(kids) && p != []
    ensures Sane(Without(kids, p))
    decreases |p|, |kids|
  {
    if kids != [] {
      var k, rest := kids[0], kids[1..];
      WithoutSane(rest, p);
      if k.name == p[0] && |p| > 1 && k.tree.Folder? { WithoutSane(k.tree.kids, p[1..]); }
      forall t | t in Without(rest, p) ensures t.name != k.name { WithoutHas(rest, p, t); }
    }
  }

  /** Everything but the tree at p still stands, as a directory if it was one. */
  lemma {:induction false} StillStands(kids: seq<Kid>, p: Path, x: Path, at: Kid) returns (now: Kid)
    requires p != [] && Stands(kids, x, at) && !(p <= x)
    ensures Stands(Without(kids, p), x, now) && now.tree.Folder? == at.tree.Folder?
    decreases |x|
  {
    var k :| k in kids && StandsIn(k, x, at);
    var t := Trim(k, p);
    WithoutHas(kids, p, t);
    if k.name != p[0] {
      now := at;
    } else if |x| == 1 {
      now := t;
    } else {
      assert p == [p[0]] + p[1..] && x == [x[0]] + x[1..];
      now := StillStands(k.tree.kids, p[1..], x[1..], at);
    }
    assert StandsIn(t, x, now);
  }

  lemma {:induction false} StoodBefore(kids: seq<Kid>, p: Path, x: Path, now: Kid) returns (at: Kid)
    requires p != [] && Stands(Without(kids, p), x, now)
    ensures Stands(kids, x, at) && !(p <= x)
    decreases |x|
  {
    var t :| t in Without(kids, p) && StandsIn(t, x, now);
    WithoutHas(kids, p, t);
    var k :| k in kids && Stays(k, p) && t == Trim(k, p);
    if |x| == 1 {
      at := k;
    } else if k.name != p[0] {
      at := now;
    } else {
      assert p[1..] <= x[1..] || !(p <= x);
      at := StoodBefore(k.tree.kids, p[1..], x[1..], now);
    }
    assert StandsIn(k, x, at);
  }

  /** The entries after a series of removals. */
  function Swept(kids: seq<Kid>, gone: seq<Path>): seq<Kid>
    requires [] !in gone
  {
    if gone == [] then kids else Without(Swept(kids, gone[..|gone| - 1]), gone[|gone| - 1])
  }

  lemma {:induction false} SweptSane(kids: seq<Kid>, gone: seq<Path>)
    requires Sane(kids) && [] !in gone
    ensures Sane(Swept(kids, gone))
  {
    if gone != [] {
      SweptSane(kids, gone[..|gone| - 1]);
      WithoutSane(Swept(kids, gone[..|gone| - 1]), gone[|gone| - 1]);
    }
  }

  lemma {:induction false} StandsAfter(kids: seq<Kid>, gone: seq<Path>, x: Path, at: Kid) returns (now: Kid)
    requires [] !in gone && Stands(kids, x, at) && forall p <- gone :: !(p <= x)
    ensures Stands(Swept(kids, gone), x, now) && now.tree.Folder? == at.tree.Folder?
  {
    now := at;
    if gone != [] {
      var most, p := gone[..|gone| - 1], gone[|gone| - 1];
      assert gone == most + [p];
      forall q | q in most ensures !(q <= x) { assert q in gone; }
      assert p in gone;
      now := StandsAfter(kids, most, x, at);
      now := StillStands(Swept(kids, most), p, x, now);
    }
  }

  /** After removals exactly what was there and is not at or below a removed path is
      there. */
  lemma {:induction false} PresentExactly(kids: seq<Kid>, gone: seq<Path>, x: Path)
    requires [] !in gone
    ensures Present(Swept(kids, gone), x) <==> Present(kids, x) && forall p <- gone :: !(p <= x)
  {
    if gone != [] {
      var most, p := gone[..|gone| - 1], gone[|gone| - 1];
      assert gone == most + [p];
      PresentExactly(kids, most, x);
      if now :| Stands(Swept(kids, gone), x, now) { var at := StoodBefore(Swept(kids, most), p, x, now); }
      if at :| Stands(kids, x, at) && forall p <- gone :: !(p <= x) { var now := StandsAfter(kids, gone, x, at); }
    }
  }

  lemma {:induction false} StandsAbove(kids: seq<Kid>, p: Path, x: Path, at: Kid) returns (top: Kid)
    requires Stands(kids, x, at) && p <= x && p != []
    ensures Stands(kids, p, top)
    decreases |p|
  {
    var k :| k in kids && StandsIn(k, x, at);
    if |p| == 1 {
      top := k;
    } else {
      assert p[1..] <= x[1..];
      top := StandsAbove(k.tree.kids, p[1..], x[1..], at);
    }
    assert StandsIn(k, p, top);
  }

  /** The entry at a path, if there is one. */
  function Find(kids: seq<Kid>, p: Path): Option<Kid>
    requires p != []
    decreases |p|, |kids|
  {
    if kids == [] then None
    else if kids[0].name != p[0] then Find(kids[1..], p)
    else if |p| == 1 then Some(kids[0])
    else if kids[0].tree.Folder? then Find(kids[0].tree.kids, p[1..]) else None
  }

  lemma {:induction false} FindIsHere(kids: seq<Kid>, k: Kid, p: Path)
    requires Sane(kids) && p != [] && k in kids && k.name == p[0]
    ensures Find(kids, p) == Find([k], p)
  {
    assert kids == [kids[0]] + kids[1..];
    if kids[0].name == p[0] {
      SameName(kids, k, kids[0]);
    } else {
      FindIsHere(kids[1..], k, p);
    }
  }

  lemma {:induction false} FoundIfThere(kids: seq<Kid>, p: Path, at: Kid)
    requires Sane(kids) && Stands(kids, p, at)
    ensures Find(kids, p) == Some(at)
    decreases |p|
  {
    var k :| k in kids && StandsIn(k, p, at);
    FindIsHere(kids, k, p);
    if |p| > 1 { FoundIfThere(k.tree.kids, p[1..], at); }
  }

  // ---- The requests ----

  /** What follows the last slash. */
  function Leaf(n: string): string {
    if n == "" || n[|n| - 1] == '/' then "" else Leaf(n[..|n| - 1]) + [n[|n| - 1]]
  }

  lemma {:induction false} LeafSplits(n: string)
    ensures '/' !in Leaf(n) && (Leaf(n) == n || exists d :: n == d + "/" + Leaf(n))
  {
    if n != "" {
      var most, c := n[..|n| - 1], n[|n| - 1];
      assert n == most + [c];
      if c == '/' {
        assert n == most + "/" + "";
      } else {
        LeafSplits(most);
        if Leaf(most) != most {
          var d :| most == d + "/" + Leaf(most);
          assert n == d + "/" + Leaf(n);
        }
      }
    }
  }

  /** A name the commit acts on: a valid one with a last part, unless the receiver's own
      prefixes cover it; the protected section does not count. */
  predicate Requested(own: seq<Skip>, n: string) {
    FramedLists.ValidPath(n) && !UnderSkip(n, '/' !in n, own) && Leaf(n) != "" && Leaf(n) != "."
  }

  lemma RequestLands(n: string)
    requires Leaf(n) != "" && Leaf(n) != "."
    ensures Lands(n) != []
  {
    LeafSplits(n);
    LandsOne(Leaf(n));
    if Leaf(n) != n {
      var d :| n == d + "/" + Leaf(n);
      LandsConcat(d, Leaf(n));
    }
  }

  /** A path at or below a requested one. */
  ghost predicate AtRequest(own: seq<Skip>, missing: seq<string>, x: Path) {
    exists n <- missing :: Requested(own, n) && Lands(n) <= x
  }

  ghost predicate AtRemoved(gone: seq<Path>, x: Path) { exists p <- gone :: p <= x }

  /** Only what was requested goes. */
  ghost predicate OnlyRequested(own: seq<Skip>, missing: seq<string>, gone: seq<Path>) {
    [] !in gone && forall p <- gone :: AtRequest(own, missing, p)
  }

  // ---- The loop ----

  /** What the system makes of a request: an error may end the loop or only fail it. */
  datatype Answer = Fine | Fault | Halt

  const Everything := Scope([], Everywhere, [], _ => false)

  /** How many entries there are. */
  function Entries(kids: seq<Kid>): nat {
    if kids == [] then 0
    else 1 + (if kids[0].tree.Folder? then Entries(kids[0].tree.kids) else 0) + Entries(kids[1..])
  }

  /** With nothing to keep, every entry goes. */
  lemma {:induction false} EverythingGoes(rel: Path, above: bool, kids: seq<Kid>)
    ensures AllGone(Everything, rel, true, kids) && KeptDirs(Everything, rel, true, kids) == []
    ensures |ExtraDirs(Everything, rel, true, kids)| + |ExtraFiles(Everything, rel, true, kids)| == Entries(kids)
    ensures |Walk(Everything, rel, above, kids)| == Entries(kids)
    decreases kids
  {
    if kids != [] {
      var k := kids[0];
      EverythingGoes(rel, above, kids[1..]);
      if k.tree.Folder? { EverythingGoes(rel + [k.name], true, k.tree.kids); }
      assert Gone(Everything, rel, true, k);
    }
  }

  function Below(p: Path, qs: seq<Path>): (r: seq<Path>)
    ensures |r| == |qs| && forall q <- r :: p <= q
  {
    if qs == [] then [] else [p + qs[0]] + Below(p, qs[1..])
  }

  /** How many entries an entry has inside. */
  function Inside(at: Kid): nat { if at.tree.Folder? then Entries(at.tree.kids) else 0 }

  /** One entry that is there, with `left` removals to spend: a file or an empty directory
      goes; a directory with contents only where deletion or force is asked for, its
      contents first, one by one; and nothing goes once the budget is spent. */
  method Remove(at: Kid, p: Path, forced: bool, left: nat) returns (more: seq<Path>, limit: bool)
    ensures |more| <= left && forall q <- more :: p <= q
    ensures forced && !limit ==> p in more
    ensures forced && !limit ==> more[|more| - 1] == p
    ensures !forced ==> more == if left == 0 || (at.tree.Folder? && at.tree.kids != []) then [] else [p]
    ensures limit <==> left == 0 || (forced && left <= Inside(at))
    ensures limit ==> |more| == left
  {
    more, limit := [], left == 0;
    if limit {
      return;
    }
    if at.tree.Folder? && at.tree.kids != [] {
      if !forced {
        return;
      }
      var walk := LimitedWalk(Everything, [], false, at.tree.kids, left);
      WalkAgrees(Everything, [], false, at.tree.kids, left);
      EverythingGoes([], false, at.tree.kids);
      more := Below(p, walk.removed);
      limit := !walk.all || |more| == left;
      if limit {
        return;
      }
    }
    more := more + [p];
  }

  lemma MoreRequested(own: seq<Skip>, missing: seq<string>, i: nat, gone: seq<Path>, more: seq<Path>)
    requires i < |missing| && OnlyRequested(own, missing[..i], gone)
    requires forall q <- more :: Requested(own, missing[i]) && Lands(missing[i]) <= q && q != []
    ensures OnlyRequested(own, missing[..i + 1], gone + more)
  {
    forall q | q in gone + more ensures AtRequest(own, missing[..i + 1], q) && q != [] {
      if q in gone {
        OneMoreRequest(own, missing, i, q);
      } else {
        assert missing[i] in missing[..i + 1];
      }
    }
  }

  lemma OneMoreRequest(own: seq<Skip>, missing: seq<string>, i: nat, x: Path)
    requires i < |missing|
    ensures AtRequest(own, missing[..i + 1], x)
            <==> AtRequest(own, missing[..i], x) || (Requested(own, missing[i]) && Lands(missing[i]) <= x)
  {
    assert missing[..i + 1] == missing[..i] + [missing[i]];
  }

  /** Of what was there, exactly what lies at or below a request has been removed. */
  ghost predicate Served(own: seq<Skip>, missing: seq<string>, kids: seq<Kid>, gone: seq<Path>) {
    forall x :: Present(kids, x) ==> (AtRemoved(gone, x) <==> AtRequest(own, missing, x))
  }

  lemma RemovedByEither(gone: seq<Path>, more: seq<Path>, x: Path)
    ensures AtRemoved(gone + more, x) <==> AtRemoved(gone, x) || AtRemoved(more, x)
  {
    if p :| p in gone && p <= x { assert p in gone + more; }
    if p :| p in more && p <= x { assert p in gone + more; }
  }

  /** A request is served when its tree is removed or was not there any more. */
  lemma ServesOneMore(own: seq<Skip>, missing: seq<string>, i: nat, kids: seq<Kid>, gone: seq<Path>, more: seq<Path>)
    requires i < |missing| && [] !in gone && Served(own, missing[..i], kids, gone) && (Requested(own, missing[i]) ==> Lands(missing[i]) != [])
    requires forall q <- more :: Requested(own, missing[i]) && Lands(missing[i]) <= q
    requires Requested(own, missing[i]) ==> Lands(missing[i]) in more || !Present(Swept(kids, gone), Lands(missing[i]))
    ensures Served(own, missing[..i + 1], kids, gone + more)
  {
    forall x | Present(kids, x) ensures AtRemoved(gone + more, x) <==> AtRequest(own, missing[..i + 1], x) {
      OneMoreRequest(own, missing, i, x);
      if Requested(own, missing[i]) && Lands(missing[i]) <= x && Lands(missing[i]) !in more {
        var at :| Stands(kids, x, at);
        var top := StandsAbove(kids, Lands(missing[i]), x, at);
        PresentExactly(kids, gone, Lands(missing[i]));
        var p :| p in gone && p <= Lands(missing[i]);
        assert p <= x;
      }
      RemovedByEither(gone, more, x);
    }
  }

  /** A directory is at the path; the root always is one. */
  predicate IsFolder(kids: seq<Kid>, p: Path) {
    p == [] || (Find(kids, p).Some? && Find(kids, p).value.tree.Folder?)
  }

  /** The request is for something that is there and not covered; a name that ends in a dot
      is for the directory before it, which cannot be removed so. */
  ghost predicate ForSomething(own: seq<Skip>, n: string, kids: seq<Kid>) {
    && FramedLists.ValidPath(n) && !UnderSkip(n, '/' !in n, own) && Leaf(n) != ""
    && if Leaf(n) == "." then IsFolder(kids, Lands(n)) else Lands(n) != [] && Find(kids, Lands(n)).Some?
  }

  /** It fails: an invalid name, an error of the system, or a name that ends in a dot. */
  ghost predicate Troubled(own: seq<Skip>, n: string, kids: seq<Kid>, left: nat, answer: Answer) {
    || !FramedLists.ValidPath(n)
    || (!UnderSkip(n, '/' !in n, own) && answer.Fault?)
    || (left > 0 && ForSomething(own, n, kids) && (answer.Halt? || Leaf(n) == "."))
  }

  /** The budget does not cover it. */
  ghost predicate Overspent(own: seq<Skip>, n: string, kids: seq<Kid>, forced: bool, left: nat) {
    && ForSomething(own, n, kids)
    && (left == 0 || (forced && Leaf(n) != "." && left <= Inside(Find(kids, Lands(n)).value)))
  }

  /** One request against what is left of the destination. */
  method Serve(own: seq<Skip>, n: string, kids: seq<Kid>, forced: bool, left: nat, answer: Answer)
    returns (more: seq<Path>, ok: bool, stop: bool, limit: bool)
    requires Sane(kids)
    ensures |more| <= left && forall q <- more :: Requested(own, n) && Lands(n) <= q
    ensures stop ==> !ok
    ensures !ok <==> Troubled(own, n, kids, left, answer)
    ensures stop <==> !ok && FramedLists.ValidPath(n) && !answer.Fault?
    ensures limit ==> |more| == left
    ensures limit <==> !Troubled(own, n, kids, left, answer) && Overspent(own, n, kids, forced, left)
    ensures ok && !limit && forced && Requested(own, n) ==> Lands(n) in more || !Present(kids, Lands(n))
  {
    more, ok, stop, limit := [], true, false, false;
    if !FramedLists.ValidPath(n) {
      return [], false, false, false;
    }
    var covered := FindSkip(n, '/' !in n, own);
    if covered {
      return;
    }
    if answer.Fault? {
      return [], false, false, false;
    }
    var p := Lands(n);
    if Leaf(n) == "" || Leaf(n) == "." {
      // the first names nothing; the second names a directory that cannot be removed so
      if Leaf(n) == "." && IsFolder(kids, p) {
        limit := left == 0;
        ok := limit;
        stop := !limit;
      }
      return;
    }
    RequestLands(n);
    var at := Find(kids, p);
    if at.None? {
      if there :| Stands(kids, p, there) { FoundIfThere(kids, p, there); }
      return;
    }
    if answer.Halt? && left > 0 {
      return [], false, true, false;
    }
    more, limit := Remove(at.value, p, forced, left);
  }

  /** delete_missing_args_budgeted_observed: only requested trees lose anything, no more
      goes than the budget allows, and a run without error or limit that may remove
      directories with their contents removes exactly the requested trees. */
  method DeleteMissing(own: seq<Skip>, missing: seq<string>, kids: seq<Kid>, forced: bool, max: nat, answers: nat -> Answer)
    returns (gone: seq<Path>, ok: bool, limit: bool)
    requires Sane(kids)
    ensures OnlyRequested(own, missing, gone) && |gone| <= max
    ensures ok && !limit && forced ==> Served(own, missing, kids, gone)
    ensures limit ==> |gone| == max
    ensures ok ==> forall n <- missing :: FramedLists.ValidPath(n)
    ensures !ok ==> exists i :: 0 <= i < |missing| && (!FramedLists.ValidPath(missing[i]) || !answers(i).Fine? || Leaf(missing[i]) == ".")
  {
    gone, ok, limit := [], true, false;
    var i, stop := 0, false;
    while i < |missing| && !stop
      invariant 0 <= i <= |missing| && OnlyRequested(own, missing[..i], gone) && |gone| <= max && (stop ==> !ok)
      invariant ok && !limit && forced ==> Served(own, missing[..i], kids, gone)
      invariant limit ==> |gone| == max
      invariant ok ==> forall j :: 0 <= j < i ==> FramedLists.ValidPath(missing[j])
      invariant !ok ==> exists j :: 0 <= j < i && (!FramedLists.ValidPath(missing[j]) || !answers(j).Fine? || Leaf(missing[j]) == ".")
    {
      SweptSane(kids, gone);
      var more, fine, spent;
      more, fine, stop, spent := Serve(own, missing[i], Swept(kids, gone), forced, max - |gone|, answers(i));
      if Requested(own, missing[i]) { RequestLands(missing[i]); }
      MoreRequested(own, missing, i, gone, more);
      if ok && !limit && forced && fine && !spent { ServesOneMore(own, missing, i, kids, gone, more); }
      gone, ok, limit, i := gone + more, ok && fine, limit || spent, i + 1;
    }
    MoreNames(own, missing, i, gone);
    assert i == |missing| ==> missing[..i] == missing;
  }

  lemma MoreNames(own: seq<Skip>, missing: seq<string>, i: nat, gone: seq<Path>)
    requires i <= |missing| && OnlyRequested(own, missing[..i], gone)
    ensures OnlyRequested(own, missing, gone)
  {
    forall q | q in gone ensures AtRequest(own, missing, q) {
      var n :| n in missing[..i] && Requested(own, n) && Lands(n) <= q;
      assert n in missing;
    }
  }

  /** However it went, a path with no request at or above it is there afterwards if and only
      if it was there before; and if exactly the requested trees went, any path is there
      afterwards if and only if it was there and lies in none of them. */
  lemma MissingExactly(own: seq<Skip>, missing: seq<string>, kids: seq<Kid>, gone: seq<Path>, x: Path)
    requires OnlyRequested(own, missing, gone)
    ensures !AtRequest(own, missing, x) ==> (Present(Swept(kids, gone), x) <==> Present(kids, x))
    ensures Served(own, missing, kids, gone) ==>
      (Present(Swept(kids, gone), x) <==> Present(kids, x) && !AtRequest(own, missing, x))
  {
    PresentExactly(kids, gone, x);
    if p :| p in gone && p <= x {
      var n :| n in missing && Requested(own, n) && Lands(n) <= p;
      assert Lands(n) <= x;
    }
  }
}
