/** The order of a directory: names in a directory are distinct, so the sorted
    listing does not depend on the order readdir gives or on how qsort works. */
module ScanOrder {
  import opened SourceTree

  lemma {:induction false} StrTotal(a: string, b: string)
    ensures StrLe(a, b) || StrLe(b, a)
    ensures StrLe(a, b) && StrLe(b, a) ==> a == b
  {
    if a != [] && b != [] && a[0] == b[0] {
      StrTotal(a[1..], b[1..]);
      assert a == [a[0]] + a[1..] && b == [b[0]] + b[1..];
    }
  }

  lemma {:induction false} StrTransitive(a: string, b: string, c: string)
    requires StrLe(a, b) && StrLe(b, c)
    ensures StrLe(a, c)
  {
    if a != [] && b != [] && c != [] && a[0] == b[0] == c[0] {
      StrTransitive(a[1..], b[1..], c[1..]);
    }
  }

  ghost predicate Ascending(names: seq<string>) {
    forall i, j :: 0 <= i <= j < |names| ==> StrLe(names[i], names[j])
  }

  lemma BeforeTransitive(a: Entry, b: Entry, c: Entry)
    requires Before(a, b) && Before(b, c)
    ensures Before(a, c)
  {
    if StrLe(a.name, b.name) && StrLe(b.name, c.name) { StrTransitive(a.name, b.name, c.name); }
  }

  lemma BeforeTotal(a: Entry, b: Entry)
    ensures Before(a, b) || Before(b, a)
    ensures Before(a, b) && Before(b, a) ==> a.name == b.name
  {
    StrTotal(a.name, b.name);
  }

  /** No two entries of a directory share a name. */
  ghost predicate Distinct(es: seq<Entry>) {
    forall i, j :: 0 <= i < j < |es| ==> es[i].name != es[j].name
  }

  ghost predicate Ordered(es: seq<Entry>) {
    forall i, j :: 0 <= i < j < |es| ==> Before(es[i], es[j])
  }

  lemma {:induction false} InsertKeeps(e: Entry, es: seq<Entry>)
    ensures multiset(Insert(e, es)) == multiset(es) + multiset{e}
  {
    if es != [] && !Before(e, es[0]) {
      InsertKeeps(e, es[1..]);
      assert es == [es[0]] + es[1..];
    }
  }

  lemma {:induction false} InsertOrders(e: Entry, es: seq<Entry>)
    requires Ordered(es)
    ensures Ordered(Insert(e, es))
  {
    if es == [] {
    } else if Before(e, es[0]) {
      forall j | 0 < j < |es| ensures Before(e, es[j]) { BeforeTransitive(e, es[0], es[j]); }
    } else {
      InsertOrders(e, es[1..]);
      InsertKeeps(e, es[1..]);
      BeforeTotal(e, es[0]);
      var r := Insert(e, es[1..]);
      forall x <- r ensures Before(es[0], x) {
        assert x in multiset(r);
        if x != e { var i :| 0 <= i < |es[1..]| && es[1..][i] == x; }
      }
    }
  }

  /** Sort orders a directory and loses nothing. */
  lemma {:induction false} SortIs(es: seq<Entry>)
    ensures multiset(Sort(es)) == multiset(es) && Ordered(Sort(es))
  {
    if es != [] {
      SortIs(es[1..]);
      InsertKeeps(es[0], Sort(es[1..]));
      InsertOrders(es[0], Sort(es[1..]));
      assert es == [es[0]] + es[1..];
    }
  }

  lemma InMultiset(es: seq<Entry>, fs: seq<Entry>, x: Entry)
    requires multiset(es) == multiset(fs) && x in es
    ensures x in fs
  {
    assert x in multiset(es);
  }

  /** Two ordered listings of the same distinctly named entries are the same. */
  lemma {:induction false} OrderedUnique(es: seq<Entry>, fs: seq<Entry>)
    requires multiset(es) == multiset(fs) && Ordered(es) && Ordered(fs) && Distinct(es)
    ensures es == fs
  {
    SameLength(es, fs);
    if es != [] {
      FirstSame(es, fs);
      SameTail(es, fs);
      OrderedUnique(es[1..], fs[1..]);
      assert es == [es[0]] + es[1..] && fs == [fs[0]] + fs[1..];
    }
  }

  lemma SameLength(es: seq<Entry>, fs: seq<Entry>)
    requires multiset(es) == multiset(fs)
    ensures |es| == |fs|
  {
    assert |multiset(es)| == |es| && |multiset(fs)| == |fs|;
  }

  lemma SameTail(es: seq<Entry>, fs: seq<Entry>)
    requires multiset(es) == multiset(fs) && es != [] && fs != [] && es[0] == fs[0]
    ensures multiset(es[1..]) == multiset(fs[1..])
  {
    assert es == [es[0]] + es[1..] && fs == [fs[0]] + fs[1..];
    assert multiset(es[1..]) == multiset(es) - multiset{es[0]};
    assert multiset(fs[1..]) == multiset(fs) - multiset{fs[0]};
  }

  lemma FirstSame(es: seq<Entry>, fs: seq<Entry>)
    requires multiset(es) == multiset(fs) && Ordered(es) && Ordered(fs) && Distinct(es)
    requires es != [] && fs != []
    ensures es[0] == fs[0]
  {
    InMultiset(es, fs, es[0]);
    InMultiset(fs, es, fs[0]);
    var i :| 0 <= i < |fs| && fs[i] == es[0];
    var j :| 0 <= j < |es| && es[j] == fs[0];
    BeforeTotal(es[0], fs[0]);
  }

  /** Whatever permutation of the entries readdir returns and whichever ordered
      permutation of them qsort leaves, the scanner walks the same listing. */
  lemma ListingIsCanonical(es: seq<Entry>, readdir: seq<Entry>, qsorted: seq<Entry>)
    requires Distinct(es)
    requires multiset(readdir) == multiset(es) && multiset(qsorted) == multiset(readdir) && Ordered(qsorted)
    ensures qsorted == Sort(es) == Sort(readdir)
  {
    SortIs(es);
    SortIs(readdir);
    DistinctPermuted(es, Sort(es));
    OrderedUnique(Sort(es), qsorted);
    OrderedUnique(Sort(es), Sort(readdir));
  }

  lemma {:induction false} TwoCopies(es: seq<Entry>, x: Entry)
    requires Distinct(es)
    ensures multiset(es)[x] <= 1
  {
    if es != [] {
      TwoCopies(es[1..], x);
      assert es == [es[0]] + es[1..];
      if x in es[1..] { var i :| 0 <= i < |es[1..]| && es[1..][i] == x; assert es[i + 1] == x; }
    }
  }

  lemma DistinctPermuted(es: seq<Entry>, fs: seq<Entry>)
    requires multiset(es) == multiset(fs) && Distinct(es)
    ensures Distinct(fs)
  {
    forall i, j | 0 <= i < j < |fs| ensures fs[i].name != fs[j].name {
      InMultiset(fs, es, fs[i]);
      InMultiset(fs, es, fs[j]);
      var k :| 0 <= k < |es| && es[k] == fs[i];
      var l :| 0 <= l < |es| && es[l] == fs[j];
      if k == l {
        assert fs == fs[..j] + [fs[j]] + fs[j + 1..] && fs[i] in fs[..j];
        TwoCopies(es, fs[j]);
      }
    }
  }
}
