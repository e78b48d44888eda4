/** The receiver's deletion walk over a destination tree: what it removes, in which
    order, and what --max-delete leaves of it. */
module DeleteWalk {
  import opened FilterChain
  import opened SourceTree
  import opened WirePaths
  import opened ScanOrder

  /** A destination directory lists its entries in the walker's order (subdirectories
      first, each group by descending name). */
  datatype Tree = File | Folder(kids: seq<Kid>)
  datatype Kid = Kid(name: string, tree: Tree)

  datatype Skip = Skip(prefix: string, topLevelOnly: bool)

  datatype Dirs = Everywhere | Only(names: seq<string>)

  /** The manifest as the walker uses it: names to keep, synchronized directories,
      protected prefixes, and the receiver's own protect rules. */
  datatype Scope = Scope(keep: seq<string>, dirs: Dirs, skips: seq<Skip>, protects: FilterChain.Subject -> bool)

  // ---- Tests on one entry ----

  predicate UnderSkip(s: string, atRoot: bool, skips: seq<Skip>) {
    exists i :: 0 <= i < |skips| && (skips[i].topLevelOnly ==> atRoot) && StrWithin(skips[i].prefix, s)
  }

  /** path_under_skip_prefix */
  method FindSkip(s: string, atRoot: bool, skips: seq<Skip>) returns (under: bool)
    ensures under <==> UnderSkip(s, atRoot, skips)
  {
    var i := 0;
    while i < |skips|
      invariant 0 <= i <= |skips| && !UnderSkip(s, atRoot, skips[..i])
    {
      if (!skips[i].topLevelOnly || atRoot) && StrWithin(skips[i].prefix, s) {
        return true;
      }
      i := i + 1;
    }
    assert skips[..i] == skips;
    under := false;
  }

  predicate HasChild(keep: seq<string>, s: string) {
    exists i :: 0 <= i < |keep| && StartsWith(keep[i], s + "/")
  }

  /** strncmp against the key, then the next byte against a slash: how an entry sorts
      against the key followed by a slash. */
  function ComparePrefix(entry: string, key: string): int {
    if key == "" then (if entry == "" then -1 else entry[0] as int - '/' as int)
    else if entry == "" then -1
    else if entry[0] != key[0] then entry[0] as int - key[0] as int
    else ComparePrefix(entry[1..], key[1..])
  }

  lemma {:induction false} CompareIs(entry: string, key: string)
    ensures ComparePrefix(entry, key) < 0 <==> !StrLe(key + "/", entry)
  {
    if key == "" {
      assert (key + "/")[1..] == "";
    } else if entry != "" && entry[0] == key[0] {
      CompareIs(entry[1..], key[1..]);
      assert (key + "/")[1..] == key[1..] + "/";
    }
  }

  lemma {:induction false} PrefixLe(p: string, s: string)
    requires StartsWith(s, p)
    ensures StrLe(p, s)
  {
    if p != "" { PrefixLe(p[1..], s[1..]); }
  }

  /** What sorts between a prefix and a string that has it, has it too. */
  lemma {:induction false} Squeeze(p: string, x: string, s: string)
    requires StrLe(p, x) && StrLe(x, s) && StartsWith(s, p)
    ensures StartsWith(x, p)
  {
    if p != "" {
      Squeeze(p[1..], x[1..], s[1..]);
      assert x == [x[0]] + x[1..] && p == [p[0]] + p[1..];
    }
  }

  /** str_sorted_array_has_child_prefix: a binary search for the first name not before
      the key and a slash decides whether any name lies below the key. */
  method HasChildPrefix(names: seq<string>, key: string) returns (found: bool)
    requires Ascending(names)
    ensures found <==> key != "" && HasChild(names, key)
  {
    if |names| == 0 || key == "" {
      return false;
    }
    var lo, hi := 0, |names|;
    while lo < hi
      invariant 0 <= lo <= hi <= |names|
      invariant forall i :: 0 <= i < lo ==> !StrLe(key + "/", names[i])
      invariant forall i :: hi <= i < |names| ==> StrLe(key + "/", names[i])
    {
      var mid := lo + (hi - lo) / 2;
      CompareIs(names[mid], key);
      if ComparePrefix(names[mid], key) < 0 {
        forall i | 0 <= i <= mid ensures !StrLe(key + "/", names[i]) {
          if StrLe(key + "/", names[i]) { StrTransitive(key + "/", names[i], names[mid]); }
        }
        lo := mid + 1;
      } else {
        forall i | mid <= i < |names| ensures StrLe(key + "/", names[i]) {
          StrTransitive(key + "/", names[mid], names[i]);
        }
        hi := mid;
      }
    }
    if i :| 0 <= i < |names| && StartsWith(names[i], key + "/") {
      PrefixLe(key + "/", names[i]);
      Squeeze(key + "/", names[lo], names[i]);
    }
    found := lo < |names| && StartsWith(names[lo], key + "/");
  }

  predicate Synced(sc: Scope, rel: Path) {
    sc.dirs.Everywhere? || (if rel == [] then "." else Join(rel)) in sc.dirs.names
  }

  predicate Shielded(sc: Scope, rel: Path, k: Kid) {
    var child := Join(rel + [k.name]);
    UnderSkip(child, rel == [], sc.skips) || sc.protects(FilterChain.Subject(child, k.name, k.tree.Folder?))
  }

  predicate Extra(sc: Scope, rel: Path, deletable: bool, k: Kid) {
    var child := Join(rel + [k.name]);
    && !Shielded(sc, rel, k) && deletable && child !in sc.keep
    && (k.tree.Folder? ==> !(sc.dirs.Only? && child in sc.dirs.names) && !(child != "" && HasChild(sc.keep, child)))
  }

  // ---- The walk ----

  /** Deletable: this directory or one above it is synchronized. */
  predicate Deletable(sc: Scope, rel: Path, above: bool) { above || Synced(sc, rel) }

  /** Everything at or below the entry is an extra. */
  predicate Gone(sc: Scope, rel: Path, deletable: bool, k: Kid)
    decreases k, 0
  {
    && Extra(sc, rel, deletable, k)
    && (k.tree.Folder? ==> AllGone(sc, rel + [k.name], Deletable(sc, rel + [k.name], deletable), k.tree.kids))
  }

  predicate AllGone(sc: Scope, rel: Path, deletable: bool, kids: seq<Kid>)
    decreases kids, 1
  {
    kids == [] || (Gone(sc, rel, deletable, kids[0]) && AllGone(sc, rel, deletable, kids[1..]))
  }

  /** What the walk removes below and including one subdirectory. */
  function WalkKid(sc: Scope, rel: Path, deletable: bool, k: Kid): seq<Path>
    requires k.tree.Folder?
    decreases k, 0
  {
    Walk(sc, rel + [k.name], deletable, k.tree.kids)
    + (if Gone(sc, rel, deletable, k) then [rel + [k.name]] else [])
  }

  function ExtraDirs(sc: Scope, rel: Path, deletable: bool, kids: seq<Kid>): seq<Path>
    decreases kids, 1
  {
    if kids == [] then []
    else (if kids[0].tree.Folder? && Extra(sc, rel, deletable, kids[0]) then WalkKid(sc, rel, deletable, kids[0]) else [])
         + ExtraDirs(sc, rel, deletable, kids[1..])
  }

  function ExtraFiles(sc: Scope, rel: Path, deletable: bool, kids: seq<Kid>): seq<Path> {
    if kids == [] then []
    else (if kids[0].tree.File? && Extra(sc, rel, deletable, kids[0]) then [rel + [kids[0].name]] else [])
         + ExtraFiles(sc, rel, deletable, kids[1..])
  }

  /** Kept subdirectories are entered last, in ascending order. */
  function KeptDirs(sc: Scope, rel: Path, deletable: bool, kids: seq<Kid>): seq<Path>
    decreases kids, 1
  {
    if kids == [] then []
    else KeptDirs(sc, rel, deletable, kids[1..])
         + (if kids[0].tree.Folder? && !Extra(sc, rel, deletable, kids[0]) && !Shielded(sc, rel, kids[0])
            then WalkKid(sc, rel, deletable, kids[0]) else [])
  }

  /** The removals of an unlimited walk, in order; also what -n reports. */
  function Walk(sc: Scope, rel: Path, above: bool, kids: seq<Kid>): seq<Path>
    decreases kids, 2
  {
    var deletable := Deletable(sc, rel, above);
    ExtraDirs(sc, rel, deletable, kids) + ExtraFiles(sc, rel, deletable, kids) + KeptDirs(sc, rel, deletable, kids)
  }

  // ---- Which paths are removed ----

  /** Said from the tree: going along p, no directory on the way is shielded, and at the
      end everything at or below is an extra. */
  ghost predicate Removable(sc: Scope, rel: Path, deletable: bool, kids: seq<Kid>, p: Path)
    decreases |p|, 1
  {
    p != [] && exists k <- kids :: k.name == p[0] && RemovableIn(sc, rel, deletable, k, p)
  }

  ghost predicate RemovableIn(sc: Scope, rel: Path, deletable: bool, k: Kid, p: Path)
    requires p != []
    decreases |p|, 0
  {
    if |p| == 1 then Gone(sc, rel, deletable, k)
    else
      && k.tree.Folder? && !Shielded(sc, rel, k)
      && Removable(sc, rel + [k.name], Deletable(sc, rel + [k.name], deletable), k.tree.kids, p[1..])
  }

  lemma {:induction false} ExtraFilesHas(sc: Scope, rel: Path, deletable: bool, kids: seq<Kid>, q: Path)
    ensures q in ExtraFiles(sc, rel, deletable, kids)
      <==> exists k <- kids :: k.tree.File? && Extra(sc, rel, deletable, k) && q == rel + [k.name]
  {
    if kids != [] {
      ExtraFilesHas(sc, rel, deletable, kids[1..], q);
      assert kids == [kids[0]] + kids[1..];
    }
  }

  lemma {:induction false} ExtraDirsHas(sc: Scope, rel: Path, deletable: bool, kids: seq<Kid>, q: Path)
    ensures q in ExtraDirs(sc, rel, deletable, kids)
      <==> exists k <- kids :: k.tree.Folder? && Extra(sc, rel, deletable, k) && q in WalkKid(sc, rel, deletable, k)
  {
    if kids != [] {
      ExtraDirsHas(sc, rel, deletable, kids[1..], q);
      assert kids == [kids[0]] + kids[1..];
    }
  }

  lemma {:induction false} KeptDirsHas(sc: Scope, rel: Path, deletable: bool, kids: seq<Kid>, q: Path)
    ensures q in KeptDirs(sc, rel, deletable, kids)
      <==> exists k <- kids :: k.tree.Folder? && !Extra(sc, rel, deletable, k) && !Shielded(sc, rel, k)
                               && q in WalkKid(sc, rel, deletable, k)
  {
    if kids != [] {
      KeptDirsHas(sc, rel, deletable, kids[1..], q);
      assert kids == [kids[0]] + kids[1..];
    }
  }

  /** The walk enters every subdirectory that is not shielded, and removes extras. */
  lemma WalkHas(sc: Scope, rel: Path, above: bool, kids: seq<Kid>, q: Path)
    ensures var deletable := Deletable(sc, rel, above);
            q in Walk(sc, rel, above, kids) <==> exists k <- kids :: Yields(sc, rel, deletable, k, q)
  {
    var deletable := Deletable(sc, rel, above);
    ExtraFilesHas(sc, rel, deletable, kids, q);
    ExtraDirsHas(sc, rel, deletable, kids, q);
    KeptDirsHas(sc, rel, deletable, kids, q);
  }

  ghost predicate Yields(sc: Scope, rel: Path, deletable: bool, k: Kid, q: Path) {
    if k.tree.File? then Extra(sc, rel, deletable, k) && q == rel + [k.name]
    else !Shielded(sc, rel, k) && q in WalkKid(sc, rel, deletable, k)
  }

  lemma {:induction false} RemovedIsRemovable(sc: Scope, rel: Path, above: bool, kids: seq<Kid>, q: Path) returns (p: Path)
    requires q in Walk(sc, rel, above, kids)
    ensures q == rel + p && Removable(sc, rel, Deletable(sc, rel, above), kids, p)
    decreases kids, 1
  {
    WalkHas(sc, rel, above, kids, q);
    var k :| k in kids && Yields(sc, rel, Deletable(sc, rel, above), k, q);
    p := YieldIsRemovable(sc, rel, Deletable(sc, rel, above), k, q);
  }

  lemma {:induction false} YieldIsRemovable(sc: Scope, rel: Path, deletable: bool, k: Kid, q: Path) returns (p: Path)
    requires Yields(sc, rel, deletable, k, q)
    ensures q == rel + p && p != [] && p[0] == k.name && RemovableIn(sc, rel, deletable, k, p)
    decreases k, 0
  {
    p := [k.name];
    if k.tree.Folder? && q in Walk(sc, rel + [k.name], deletable, k.tree.kids) {
      var rest := RemovedIsRemovable(sc, rel + [k.name], deletable, k.tree.kids, q);
      p := [k.name] + rest;
      assert p[1..] == rest;
    }
  }

  lemma {:induction false} RemovableIsRemoved(sc: Scope, rel: Path, above: bool, kids: seq<Kid>, p: Path)
    requires Removable(sc, rel, Deletable(sc, rel, above), kids, p)
    ensures rel + p in Walk(sc, rel, above, kids)
    decreases |p|, 1
  {
    var deletable := Deletable(sc, rel, above);
    WalkHas(sc, rel, above, kids, rel + p);
    var k :| k in kids && k.name == p[0] && RemovableIn(sc, rel, deletable, k, p);
    RemovableIsYielded(sc, rel, deletable, k, p);
  }

  lemma {:induction false} RemovableIsYielded(sc: Scope, rel: Path, deletable: bool, k: Kid, p: Path)
    requires p != [] && k.name == p[0] && RemovableIn(sc, rel, deletable, k, p)
    ensures Yields(sc, rel, deletable, k, rel + p)
    decreases |p|, 0
  {
    if |p| == 1 {
      assert p == [k.name];
    } else {
      RemovableIsRemoved(sc, rel + [k.name], deletable, k.tree.kids, p[1..]);
      assert rel + [k.name] + p[1..] == rel + p;
    }
  }

  /** A path is removed if and only if it is removable. */
  lemma RemovedExactly(sc: Scope, kids: seq<Kid>, p: Path)
    ensures p in Walk(sc, [], false, kids) <==> Removable(sc, [], Synced(sc, []), kids, p)
  {
    assert [] + p == p;
    if p in Walk(sc, [], false, kids) {
      var q := RemovedIsRemovable(sc, [], false, kids, p);
      assert [] + q == q;
    }
    if Removable(sc, [], Synced(sc, []), kids, p) { RemovableIsRemoved(sc, [], false, kids, p); }
  }

  // ---- --max-delete ----

  datatype Limited = Limited(removed: seq<Path>, all: bool)

  /** The walk with `left` removals to spend: once they are spent everything else
      survives, and a directory is tried only when all below it went. */
  function LimitedKid(sc: Scope, rel: Path, deletable: bool, k: Kid, left: nat): Limited
    requires k.tree.Folder?
    decreases k, 0
  {
    var below := LimitedWalk(sc, rel + [k.name], deletable, k.tree.kids, left);
    if below.all && Extra(sc, rel, deletable, k) && |below.removed| < left
    then Limited(below.removed + [rel + [k.name]], true) else Limited(below.removed, false)
  }

  function Spend(left: nat, spent: nat): nat { if spent <= left then left - spent else 0 }

  function LimitedDirs(sc: Scope, rel: Path, deletable: bool, kids: seq<Kid>, left: nat): Limited
    decreases kids, 1
  {
    if kids == [] then Limited([], true)
    else if !kids[0].tree.Folder? then LimitedDirs(sc, rel, deletable, kids[1..], left)
    else if !Extra(sc, rel, deletable, kids[0]) then Limited(LimitedDirs(sc, rel, deletable, kids[1..], left).removed, false)
    else
      var first := LimitedKid(sc, rel, deletable, kids[0], left);
      var rest := LimitedDirs(sc, rel, deletable, kids[1..], Spend(left, |first.removed|));
      Limited(first.removed + rest.removed, first.all && rest.all)
  }

  function LimitedFiles(sc: Scope, rel: Path, deletable: bool, kids: seq<Kid>, left: nat): Limited {
    if kids == [] then Limited([], true)
    else if kids[0].tree.Folder? then LimitedFiles(sc, rel, deletable, kids[1..], left)
    else if !Extra(sc, rel, deletable, kids[0]) || left == 0
    then Limited(LimitedFiles(sc, rel, deletable, kids[1..], left).removed, false)
    else
      var rest := LimitedFiles(sc, rel, deletable, kids[1..], left - 1);
      Limited([rel + [kids[0].name]] + rest.removed, rest.all)
  }

  function LimitedKept(sc: Scope, rel: Path, deletable: bool, kids: seq<Kid>, left: nat): seq<Path>
    decreases kids, 1
  {
    if kids == [] then []
    else
      var rest := LimitedKept(sc, rel, deletable, kids[1..], left);
      if kids[0].tree.Folder? && !Extra(sc, rel, deletable, kids[0]) && !Shielded(sc, rel, kids[0])
      then rest + LimitedKid(sc, rel, deletable, kids[0], Spend(left, |rest|)).removed else rest
  }

  function LimitedWalk(sc: Scope, rel: Path, above: bool, kids: seq<Kid>, left: nat): Limited
    decreases kids, 2
  {
    var deletable := Deletable(sc, rel, above);
    var dirs := LimitedDirs(sc, rel, deletable, kids, left);
    var files := LimitedFiles(sc, rel, deletable, kids, Spend(left, |dirs.removed|));
    var kept := LimitedKept(sc, rel, deletable, kids, Spend(left, |dirs.removed| + |files.removed|));
    Limited(dirs.removed + files.removed + kept, dirs.all && files.all)
  }

  function Take(ps: seq<Path>, n: nat): seq<Path> { if n <= |ps| then ps[..n] else ps }

  /** A limited run removes the first of what an unlimited run removes, and clears
      everything only if it could afford to. */
  ghost predicate Agrees(l: Limited, full: seq<Path>, all: bool, left: nat) {
    l.removed == Take(full, left) && l.all == (all && |full| <= left)
  }

  lemma TakeConcat(a: seq<Path>, b: seq<Path>, left: nat)
    ensures Take(a + b, left) == Take(a, left) + Take(b, Spend(left, |Take(a, left)|))
    ensures |Take(a, left)| <= left
  {
  }

  lemma {:induction false} KidAgrees(sc: Scope, rel: Path, deletable: bool, k: Kid, left: nat)
    requires k.tree.Folder?
    ensures Agrees(LimitedKid(sc, rel, deletable, k, left), WalkKid(sc, rel, deletable, k), Gone(sc, rel, deletable, k), left)
    decreases k, 0
  {
    WalkAgrees(sc, rel + [k.name], deletable, k.tree.kids, left);
    TakeConcat(Walk(sc, rel + [k.name], deletable, k.tree.kids), [rel + [k.name]], left);
  }

  predicate DirsGone(sc: Scope, rel: Path, deletable: bool, kids: seq<Kid>) {
    kids == [] || ((kids[0].tree.Folder? ==> Gone(sc, rel, deletable, kids[0])) && DirsGone(sc, rel, deletable, kids[1..]))
  }

  predicate FilesGone(sc: Scope, rel: Path, deletable: bool, kids: seq<Kid>) {
    kids == [] || ((kids[0].tree.File? ==> Gone(sc, rel, deletable, kids[0])) && FilesGone(sc, rel, deletable, kids[1..]))
  }

  lemma {:induction false} GoneSplits(sc: Scope, rel: Path, deletable: bool, kids: seq<Kid>)
    ensures AllGone(sc, rel, deletable, kids) <==> DirsGone(sc, rel, deletable, kids) && FilesGone(sc, rel, deletable, kids)
    ensures AllGone(sc, rel, deletable, kids) ==> KeptDirs(sc, rel, deletable, kids) == []
  {
    if kids != [] { GoneSplits(sc, rel, deletable, kids[1..]); }
  }

  lemma {:induction false} DirsAgree(sc: Scope, rel: Path, deletable: bool, kids: seq<Kid>, left: nat)
    ensures Agrees(LimitedDirs(sc, rel, deletable, kids, left), ExtraDirs(sc, rel, deletable, kids),
                   DirsGone(sc, rel, deletable, kids), left)
    decreases kids, 1
  {
    if kids != [] {
      var k := kids[0];
      if k.tree.Folder? && Extra(sc, rel, deletable, k) {
        KidAgrees(sc, rel, deletable, k, left);
        var first := LimitedKid(sc, rel, deletable, k, left);
        TakeConcat(WalkKid(sc, rel, deletable, k), ExtraDirs(sc, rel, deletable, kids[1..]), left);
        DirsAgree(sc, rel, deletable, kids[1..], Spend(left, |first.removed|));
      } else {
        DirsAgree(sc, rel, deletable, kids[1..], left);
        assert ExtraDirs(sc, rel, deletable, kids) == ExtraDirs(sc, rel, deletable, kids[1..]);
      }
    }
  }

  lemma {:induction false} FilesAgree(sc: Scope, rel: Path, deletable: bool, kids: seq<Kid>, left: nat)
    ensures Agrees(LimitedFiles(sc, rel, deletable, kids, left), ExtraFiles(sc, rel, deletable, kids),
                   FilesGone(sc, rel, deletable, kids), left)
  {
    if kids != [] {
      var k := kids[0];
      if k.tree.File? && Extra(sc, rel, deletable, k) && left > 0 {
        FilesAgree(sc, rel, deletable, kids[1..], left - 1);
        TakeConcat([rel + [k.name]], ExtraFiles(sc, rel, deletable, kids[1..]), left);
      } else {
        FilesAgree(sc, rel, deletable, kids[1..], left);
      }
    }
  }

  lemma {:induction false} KeptAgree(sc: Scope, rel: Path, deletable: bool, kids: seq<Kid>, left: nat)
    ensures LimitedKept(sc, rel, deletable, kids, left) == Take(KeptDirs(sc, rel, deletable, kids), left)
    decreases kids, 1
  {
    if kids != [] {
      var k := kids[0];
      KeptAgree(sc, rel, deletable, kids[1..], left);
      var rest := LimitedKept(sc, rel, deletable, kids[1..], left);
      if k.tree.Folder? && !Extra(sc, rel, deletable, k) && !Shielded(sc, rel, k) {
        KidAgrees(sc, rel, deletable, k, Spend(left, |rest|));
        TakeConcat(KeptDirs(sc, rel, deletable, kids[1..]), WalkKid(sc, rel, deletable, k), left);
      } else {
        assert KeptDirs(sc, rel, deletable, kids) == KeptDirs(sc, rel, deletable, kids[1..]);
      }
    }
  }

  /** --max-delete=N removes exactly the first N entries of the unlimited run. */
  lemma {:induction false} WalkAgrees(sc: Scope, rel: Path, above: bool, kids: seq<Kid>, left: nat)
    ensures Agrees(LimitedWalk(sc, rel, above, kids, left), Walk(sc, rel, above, kids),
                   AllGone(sc, rel, Deletable(sc, rel, above), kids), left)
    decreases kids, 2
  {
    var deletable := Deletable(sc, rel, above);
    var dirs, files, kept := ExtraDirs(sc, rel, deletable, kids), ExtraFiles(sc, rel, deletable, kids), KeptDirs(sc, rel, deletable, kids);
    DirsAgree(sc, rel, deletable, kids, left);
    var spent := |Take(dirs, left)|;
    FilesAgree(sc, rel, deletable, kids, Spend(left, spent));
    TakeConcat(dirs, files, left);
    KeptAgree(sc, rel, deletable, kids, Spend(left, |Take(dirs + files, left)|));
    TakeConcat(dirs + files, kept, left);
    GoneSplits(sc, rel, deletable, kids);
  }
}
