/** Paths as strings and as components: how the receiver's string tests on relative
    paths read as statements about the tree. */
module WirePaths {
  import opened FilterChain
  import opened SourceTree

  /** A name a directory can hold. */
  predicate CleanName(n: string) { n != "" && n != "." && n != ".." && '/' !in n }

  predicate Clean(p: Path) { forall i :: 0 <= i < |p| ==> CleanName(p[i]) }

  /** path_cat */
  function PathCat(a: string, b: string): string {
    if a == "" then b else if b == "" then a
    else (if a[|a| - 1] == '/' then a[..|a| - 1] else a) + "/" + (if b[0] == '/' then b[1..] else b)
  }

  lemma {:induction false} JoinFront(p: Path)
    requires |p| > 1
    ensures Join(p) == p[0] + "/" + Join(p[1..])
  {
    var n := |p| - 1;
    if n > 1 {
      JoinFront(p[..n]);
      assert p[..n][1..] == p[1..][..n - 1];
    }
  }

  lemma JoinFirst(p: Path)
    requires p != [] && Clean(p)
    ensures |Join(p)| >= |p[0]| && Join(p)[..|p[0]|] == p[0]
    ensures |p| == 1 ==> Join(p) == p[0]
    ensures |p| > 1 ==> |Join(p)| > |p[0]| && Join(p)[|p[0]|] == '/' && Join(p)[|p[0]| + 1..] == Join(p[1..])
  {
    if |p| > 1 { JoinFront(p); }
  }

  lemma {:induction false} JoinEnds(p: Path)
    requires p != [] && Clean(p)
    ensures Join(p) != "" && Join(p)[|Join(p)| - 1] != '/' && Join(p)[0] != '/'
  {
    if |p| == 1 {
      assert p[0][0] in p[0] && p[0][|p[0]| - 1] in p[0];
    } else {
      JoinEnds(p[1..]);
      JoinFirst(p);
      assert p[0][0] in p[0];
      assert Join(p)[|Join(p)| - 1] == Join(p[1..])[|Join(p[1..])| - 1];
    }
  }

  /** On clean names path_cat appends a component. */
  lemma PathCatJoins(p: Path, n: string)
    requires Clean(p) && CleanName(n)
    ensures PathCat(Join(p), n) == Join(p + [n])
  {
    assert (p + [n])[..|p|] == p;
    assert n[0] in n;
    if p != [] { JoinEnds(p); }
  }

  /** The string test for "at or below": equal, or followed by a slash. */
  predicate StrWithin(prefix: string, s: string) {
    StartsWith(s, prefix) && (|s| == |prefix| || s[|prefix|] == '/')
  }

  /** The part up to the first slash tells first components apart. */
  lemma FirstComponent(a: Path, b: Path)
    requires a != [] && b != [] && Clean(a) && Clean(b) && StrWithin(Join(a), Join(b))
    ensures a[0] == b[0]
  {
    JoinFirst(a);
    JoinFirst(b);
    var x, y := a[0], b[0];
    assert forall i :: 0 <= i < |x| ==> x[i] != '/';
    assert forall i :: 0 <= i < |y| ==> y[i] != '/';
    assert x == Join(a)[..|x|] == Join(b)[..|x|];
  }

  /** A clean path is determined by its string. */
  lemma {:induction false} JoinInjective(a: Path, b: Path)
    requires Clean(a) && Clean(b) && Join(a) == Join(b)
    ensures a == b
  {
    if a == [] || b == [] {
      if a != [] { JoinEnds(a); } else if b != [] { JoinEnds(b); }
    } else {
      FirstComponent(a, b);
      JoinFirst(a);
      JoinFirst(b);
      if |a| > 1 && |b| > 1 {
        JoinInjective(a[1..], b[1..]);
      }
      assert a == [a[0]] + a[1..] && b == [b[0]] + b[1..];
    }
  }

  lemma {:induction false} WithinStrings(a: Path, b: Path)
    requires a != [] && Clean(a) && Clean(b) && a <= b
    ensures StrWithin(Join(a), Join(b))
    ensures |a| < |b| ==> StartsWith(Join(b), Join(a) + "/")
    decreases |b|
  {
    var n := |b| - 1;
    if a == b {
    } else if a == b[..n] {
      assert Join(b) == Join(a) + "/" + b[n];
    } else {
      WithinStrings(a, b[..n]);
      assert Join(b) == Join(b[..n]) + "/" + b[n];
    }
  }

  lemma {:induction false} WithinPaths(a: Path, b: Path)
    requires a != [] && Clean(a) && Clean(b) && StrWithin(Join(a), Join(b))
    ensures a <= b
  {
    JoinEnds(a);
    assert b != [];
    FirstComponent(a, b);
    JoinFirst(a);
    JoinFirst(b);
    if |a| > 1 {
      assert |b| > 1;
      WithinPaths(a[1..], b[1..]);
      assert a == [a[0]] + a[1..] && b == [b[0]] + b[1..];
    }
  }

  /** On clean paths the string test holds if and only if one path is at or below the
      other: "a" covers "a" and "a/b" but not "ab". */
  lemma WithinMeansPrefix(a: Path, b: Path)
    requires a != [] && Clean(a) && Clean(b)
    ensures StrWithin(Join(a), Join(b)) <==> a <= b
  {
    if StrWithin(Join(a), Join(b)) { WithinPaths(a, b); }
    if a <= b { WithinStrings(a, b); }
  }
}
