/** Progress output: directories are announced before what is in them, from a sorted
    list of directory names without duplicates. */
module Report {
  import opened FilterChain
  import opened SourceTree
  import opened ScanOrder

  // ---- The list of directories ----

  ghost predicate Strict(s: seq<string>) { forall i, j :: 0 <= i < j < |s| ==> StrLe(s[i], s[j]) && s[i] != s[j] }

  /** Adjacent duplicates dropped. */
  function Dedup(s: seq<string>): seq<string> {
    if s == [] then []
    else
      var n := |s| - 1;
      if n > 0 && s[n - 1] == s[n] then Dedup(s[..n]) else Dedup(s[..n]) + [s[n]]
  }

  /** Dropping adjacent duplicates of a sorted list keeps exactly its set of names, ends
      with the same name, and leaves it strictly ascending. */
  lemma {:induction false} DedupKeepsNames(s: seq<string>)
    requires Ascending(s)
    ensures Strict(Dedup(s)) && |Dedup(s)| <= |s|
    ensures forall x :: x in Dedup(s) <==> x in s
    ensures s != [] ==> Dedup(s) != [] && Dedup(s)[|Dedup(s)| - 1] == s[|s| - 1]
  {
    if s != [] {
      var n := |s| - 1;
      DedupKeepsNames(s[..n]);
      assert s == s[..n] + [s[n]];
      var d := Dedup(s[..n]);
      if n > 0 && s[n - 1] != s[n] {
        forall i | 0 <= i < |d| ensures StrLe(d[i], s[n]) && d[i] != s[n] {
          assert d[i] in s[..n];
          var k :| 0 <= k < n && s[k] == d[i];
          assert StrLe(d[i], d[|d| - 1]) && d[|d| - 1] == s[n - 1];
          StrTotal(s[n - 1], s[n]);
        }
      }
    }
  }

  /** The loop of progress_precount_dedup_dirs after its sort: read and write indices over
      one array. */
  method DedupInPlace(names: array<string>, size: nat) returns (write: nat)
    requires size <= names.Length
    modifies names
    ensures write <= size && names[..write] == Dedup(old(names[..size]))
  {
    ghost var all := names[..size];
    write := 0;
    var read := 0;
    assert all[..0] == [];
    while read < size
      invariant 0 <= write <= read <= size
      invariant names[..write] == Dedup(all[..read])
      invariant forall k :: read <= k < size ==> names[k] == all[k]
      invariant read > 0 ==> write > 0 && names[write - 1] == all[read - 1]
    {
      var current := names[read];
      assert all[..read + 1][..read] == all[..read];
      if write > 0 && names[write - 1] == current {
        read := read + 1;
      } else {
        names[write] := current;
        write, read := write + 1, read + 1;
      }
    }
    assert all[..size] == all;
  }

  /** progress_dir_lookup: the binary search finds exactly the names present. */
  method Lookup(names: seq<string>, name: string) returns (found: bool, at: nat)
    requires Strict(names)
    ensures found <==> name in names
    ensures found ==> at < |names| && names[at] == name
  {
    var lo, hi := 0, |names|;
    while lo < hi
      invariant 0 <= lo <= hi <= |names|
      invariant forall i :: 0 <= i < |names| && names[i] == name ==> lo <= i < hi
    {
      var mid := lo + (hi - lo) / 2;
      StrTotal(names[mid], name);
      if names[mid] == name {
        return true, mid;
      }
      if StrLe(names[mid], name) {
        Elsewhere(names, mid, name);
        lo := mid + 1;
      } else {
        Elsewhere(names, mid, name);
        hi := mid;
      }
    }
    found, at := false, 0;
  }

  lemma Elsewhere(names: seq<string>, mid: nat, name: string)
    requires Strict(names) && mid < |names| && names[mid] != name
    ensures forall i :: 0 <= i < |names| && names[i] == name ==> (if StrLe(names[mid], name) then mid < i else i < mid)
  {
    forall i | 0 <= i < |names| && names[i] == name ensures if StrLe(names[mid], name) then mid < i else i < mid {
      StrTotal(names[mid], name);
      assert i < mid ==> StrLe(names[i], names[mid]);
      assert mid < i ==> StrLe(names[mid], names[i]);
    }
  }

  // ---- Announcing directories ----

  /** The proper ancestors of a path, outermost first: what precedes each slash before
      position i. */
  function Ancestors(rel: string, i: nat): seq<string>
    requires i <= |rel|
  {
    if i == 0 then []
    else if rel[i - 1] == '/' then Ancestors(rel, i - 1) + [rel[..i - 1]] else Ancestors(rel, i - 1)
  }

  /** A line about a directory, or about an entry itself. */
  datatype Line = DirLine(name: string) | EntryLine(rel: string)

  function AnnounceOne(index: set<string>, lines: seq<Line>, name: string): seq<Line> {
    if name in index && DirLine(name) !in lines then lines + [DirLine(name)] else lines
  }

  /** Announce those of some ancestors that are known and not yet announced. */
  function Announce(index: set<string>, lines: seq<Line>, ancestors: seq<string>): seq<Line> {
    if ancestors == [] then lines
    else
      var n := |ancestors| - 1;
      AnnounceOne(index, Announce(index, lines, ancestors[..n]), ancestors[n])
  }

  lemma AnnounceNext(index: set<string>, lines: seq<Line>, ancestors: seq<string>, name: string)
    ensures Announce(index, lines, ancestors + [name]) == AnnounceOne(index, Announce(index, lines, ancestors), name)
  {
    assert (ancestors + [name])[..|ancestors|] == ancestors;
  }

  function ReportOne(index: set<string>, lines: seq<Line>, rel: string): seq<Line> {
    Announce(index, lines, Ancestors(rel, |rel|)) + [EntryLine(rel)]
  }

  /** The lines of a run over some entries. */
  function Run(index: set<string>, rels: seq<string>): seq<Line> {
    if rels == [] then [] else ReportOne(index, Run(index, rels[..|rels| - 1]), rels[|rels| - 1])
  }

  class Announcer {
    const index: set<string>
    /** Names announced so far. */
    var emitted: seq<string>
    var lines: seq<Line>

    ghost predicate Valid()
      reads this
    {
      forall name :: name in emitted <==> DirLine(name) in lines
    }

    constructor (index: set<string>)
      ensures Valid() && this.index == index && lines == []
    {
      this.index, emitted, lines := index, [], [];
    }

    method EmitOne(name: string)
      requires Valid()
      modifies this
      ensures Valid() && lines == AnnounceOne(index, old(lines), name)
    {
      if name in index && name !in emitted {
        emitted := emitted + [name];
        lines := lines + [DirLine(name)];
      }
    }

    /** client_progress_emit_ancestors */
    method EmitAncestors(rel: string)
      requires Valid()
      modifies this
      ensures Valid() && lines == Announce(index, old(lines), Ancestors(rel, |rel|))
    {
      var i := 0;
      while i < |rel|
        invariant 0 <= i <= |rel| && Valid()
        invariant lines == Announce(index, old(lines), Ancestors(rel, i))
      {
        if rel[i] == '/' {
          AnnounceNext(index, old(lines), Ancestors(rel, i), rel[..i]);
          EmitOne(rel[..i]);
        }
        i := i + 1;
      }
    }

    /** An entry's ancestors, then its own line. */
    method ReportEntry(rel: string)
      requires Valid()
      modifies this
      ensures Valid() && lines == ReportOne(index, old(lines), rel)
    {
      EmitAncestors(rel);
      lines := lines + [EntryLine(rel)];
    }
  }

  // ---- What every run keeps ----

  /** No directory is announced twice; every known proper ancestor of a reported entry or of
      an announced directory is announced before it. */
  ghost predicate InOrder(index: set<string>, lines: seq<Line>) {
    && (forall i, j :: 0 <= i < j < |lines| && lines[i].DirLine? ==> lines[i] != lines[j])
    && (forall k :: 0 <= k < |lines| ==> Covered(index, lines, k))
  }

  function NameOf(l: Line): string { match l case DirLine(name) => name case EntryLine(rel) => rel }

  ghost predicate Covered(index: set<string>, lines: seq<Line>, k: nat)
    requires k < |lines|
  {
    forall a <- Ancestors(NameOf(lines[k]), |NameOf(lines[k])|) :: a in index ==> DirLine(a) in lines[..k]
  }

  lemma {:induction false} AncestorsOfAncestor(rel: string, i: nat, j: nat)
    requires j <= i <= |rel|
    ensures Ancestors(rel[..i], j) == Ancestors(rel, j)
  {
    if j > 0 {
      AncestorsOfAncestor(rel, i, j - 1);
      assert rel[..i][..j - 1] == rel[..j - 1];
    }
  }

  /** Each ancestor's own ancestors come before it in the list. */
  lemma {:induction false} OutermostFirst(rel: string, i: nat, m: nat)
    requires i <= |rel| && m < |Ancestors(rel, i)|
    ensures var a := Ancestors(rel, i)[m]; Ancestors(a, |a|) == Ancestors(rel, i)[..m]
  {
    var up := Ancestors(rel, i);
    if rel[i - 1] == '/' && m == |up| - 1 {
      AncestorsOfAncestor(rel, i - 1, i - 1);
    } else {
      OutermostFirst(rel, i - 1, m);
      assert up[..m] == Ancestors(rel, i - 1)[..m];
    }
  }

  lemma CoveredExtends(index: set<string>, lines: seq<Line>, more: seq<Line>, k: nat)
    requires k < |lines| && Covered(index, lines, k)
    ensures Covered(index, lines + more, k)
  {
    assert (lines + more)[..k] == lines[..k];
  }

  lemma OneMore(index: set<string>, lines: seq<Line>, l: Line)
    requires InOrder(index, lines) && (l.DirLine? ==> l !in lines)
    requires forall a <- Ancestors(NameOf(l), |NameOf(l)|) :: a in index ==> DirLine(a) in lines
    ensures InOrder(index, lines + [l])
  {
    var all := lines + [l];
    forall k | 0 <= k < |all| ensures Covered(index, all, k) {
      if k < |lines| { CoveredExtends(index, lines, [l], k); } else { assert all[..k] == lines; }
    }
  }

  /** Announcing the first m ancestors keeps the order and announces them all. */
  lemma {:induction false} AnnounceInOrder(index: set<string>, lines: seq<Line>, rel: string, m: nat)
    requires InOrder(index, lines) && m <= |Ancestors(rel, |rel|)|
    ensures var up := Ancestors(rel, |rel|)[..m];
            var after := Announce(index, lines, up);
            InOrder(index, after) && lines <= after && forall a <- up :: a in index ==> DirLine(a) in after
  {
    var up := Ancestors(rel, |rel|)[..m];
    if m > 0 {
      AnnounceInOrder(index, lines, rel, m - 1);
      assert up[..m - 1] == Ancestors(rel, |rel|)[..m - 1];
      var before, a := Announce(index, lines, up[..m - 1]), up[m - 1];
      OutermostFirst(rel, |rel|, m - 1);
      assert forall b <- up :: b in up[..m - 1] || b == a;
      if a in index && DirLine(a) !in before { OneMore(index, before, DirLine(a)); }
    }
  }

  /** Over every run each directory is announced at most once, after the known directories
      above it and before every entry below it. */
  lemma {:induction false} EveryRunInOrder(index: set<string>, rels: seq<string>)
    ensures InOrder(index, Run(index, rels))
  {
    if rels != [] {
      var n := |rels| - 1;
      var rel, before := rels[n], Run(index, rels[..n]);
      EveryRunInOrder(index, rels[..n]);
      AnnounceInOrder(index, before, rel, |Ancestors(rel, |rel|)|);
      assert Ancestors(rel, |rel|)[..|Ancestors(rel, |rel|)|] == Ancestors(rel, |rel|);
      OneMore(index, Announce(index, before, Ancestors(rel, |rel|)), EntryLine(rel));
    }
  }

  /** The ancestors are exactly the prefixes that a slash follows. */
  lemma {:induction false} AncestorsExactly(rel: string, i: nat, a: string)
    requires i <= |rel|
    ensures a in Ancestors(rel, i) <==> |a| < i && rel[..|a|] == a && rel[|a|] == '/'
  {
    if i > 0 { AncestorsExactly(rel, i - 1, a); }
  }
}
