/** Lists that cross the wire in bounded pieces: directory times from the sender, and
    the paths of the statistics frame from the receiver. */
module FramedLists {
  import opened SourceTree
  import opened Protocol
  import opened DeleteWalk
  import SourceRoot
  import WirePaths

  const MAX_BYTES: nat := 16 * 1024 * 1024

  /** What one retained path costs beside its characters: a pointer and 16 bytes. */
  const ENTRY_COST: nat := 24

  // ---- Directory times ----

  /** Every frame carries something within the bound, and only the last may fall short. */
  ghost predicate WellCut<T>(frames: seq<seq<T>>) {
    && (forall i :: 0 <= i < |frames| ==> 1 <= |frames[i]| <= MAX_MANIFEST_ENTRIES)
    && (forall i :: 0 <= i < |frames| - 1 ==> |frames[i]| == MAX_MANIFEST_ENTRIES)
  }

  /** send_dir_times */
  method SendDirTimes<T>(entries: seq<T>) returns (frames: seq<seq<T>>)
    ensures Joined(frames) == entries && WellCut(frames)
  {
    frames := [];
    var index := 0;
    assert entries[..0] == [];
    while index < |entries|
      invariant 0 <= index <= |entries| && Joined(frames) == entries[..index]
      invariant WellCut(frames) && (index < |entries| ==> forall i :: 0 <= i < |frames| ==> |frames[i]| == MAX_MANIFEST_ENTRIES)
    {
      var remaining := |entries| - index;
      var chunk := if remaining > MAX_MANIFEST_ENTRIES then MAX_MANIFEST_ENTRIES else remaining;
      var frame := entries[index..index + chunk];
      JoinedOne(frames, frame);
      assert entries[..index] + frame == entries[..index + chunk];
      frames := frames + [frame];
      index := index + chunk;
    }
    assert entries[..index] == entries;
  }

  /** receiver_process_dir_times over repeated frames: a count out of range is an error. */
  method ReceiveDirTimes<T>(frames: seq<seq<T>>) returns (entries: seq<T>, ok: bool)
    ensures ok <==> forall i :: 0 <= i < |frames| ==> |frames[i]| <= MAX_MANIFEST_ENTRIES
    ensures ok ==> entries == Joined(frames)
  {
    entries := [];
    var f := 0;
    assert frames[..0] == [];
    while f < |frames|
      invariant 0 <= f <= |frames| && entries == Joined(frames[..f])
      invariant forall i :: 0 <= i < f ==> |frames[i]| <= MAX_MANIFEST_ENTRIES
    {
      var frame := frames[f];
      if |frame| > MAX_MANIFEST_ENTRIES {
        return entries, false;
      }
      ghost var before := entries;
      var i := 0;
      while i < |frame|
        invariant 0 <= i <= |frame| && entries == before + frame[..i]
      {
        entries := entries + [frame[i]];
        i := i + 1;
      }
      assert frame[..i] == frame;
      JoinedOne(frames[..f], frame);
      assert frames[..f + 1] == frames[..f] + [frame];
      f := f + 1;
    }
    assert frames[..f] == frames;
    ok := true;
  }

  /** The receiver rebuilds every list, in order. */
  method DirTimesRoundTrip<T>(entries: seq<T>) returns (rebuilt: seq<T>, ok: bool)
    ensures ok && rebuilt == entries
  {
    var frames := SendDirTimes(entries);
    rebuilt, ok := ReceiveDirTimes(frames);
  }

  // ---- Paths in the statistics frame ----

  predicate ValidPath(p: string) { p != "" && p[0] != '/' && ".." !in SourceRoot.Lands(p) }

  function Cost(paths: seq<string>): nat {
    if paths == [] then 0 else Cost(paths[..|paths| - 1]) + |paths[|paths| - 1]| + ENTRY_COST
  }

  lemma CostOne(paths: seq<string>, i: nat)
    requires i < |paths|
    ensures Cost(paths[..i + 1]) == Cost(paths[..i]) + |paths[i]| + ENTRY_COST
  {
    assert paths[..i + 1][..i] == paths[..i];
  }

  lemma {:induction false} CostGrows(paths: seq<string>, i: nat)
    requires i <= |paths|
    ensures Cost(paths[..i]) <= Cost(paths)
  {
    if i == |paths| {
      assert paths[..i] == paths;
    } else {
      assert paths[..|paths| - 1][..i] == paths[..i];
      CostGrows(paths[..|paths| - 1], i);
    }
  }

  /** receive_stats_record: retain the paths within one byte budget. */
  method ReceivePaths(paths: seq<string>) returns (kept: seq<string>, ok: bool)
    ensures ok <==> |paths| <= MAX_MANIFEST_ENTRIES && (forall p <- paths :: ValidPath(p)) && Cost(paths) <= MAX_BYTES
    ensures ok ==> kept == paths
  {
    kept := [];
    if |paths| > MAX_MANIFEST_ENTRIES {
      return kept, false;
    }
    var bytes, i := 0, 0;
    while i < |paths|
      invariant 0 <= i <= |paths| && kept == paths[..i]
      invariant bytes == Cost(paths[..i]) <= MAX_BYTES
      invariant forall k :: 0 <= k < i ==> ValidPath(paths[k])
    {
      var path := paths[i];
      if !ValidPath(path) {
        assert path in paths;
        return kept, false;
      }
      var size := |path| + ENTRY_COST;
      CostOne(paths, i);
      CostGrows(paths, i + 1);
      if size > MAX_BYTES - bytes {
        return kept, false;
      }
      bytes, kept := bytes + size, kept + [path];
      i := i + 1;
    }
    assert paths[..i] == paths;
    ok := true;
  }

  /** The client retains exactly the paths the receiver sent if and only if they are valid
      and within the byte budget; the entry bound never interferes. */
  method StatsPathsExchange(paths: seq<string>) returns (kept: seq<string>, ok: bool)
    ensures ok <==> (forall p <- Cap(paths) :: ValidPath(p)) && Cost(Cap(paths)) <= MAX_BYTES
    ensures ok ==> kept == Cap(paths)
  {
    kept, ok := ReceivePaths(Cap(paths));
  }

  // ---- A list within every bound of the receiver that the client refuses ----

  /** The server's own bound on one commit. */
  const MAX_SERVER_DELETE_COUNT: nat := 100000

  function Pow10(n: nat): nat { if n == 0 then 1 else 10 * Pow10(n - 1) }

  function Digits(i: nat, n: nat): (d: string)
    ensures |d| == n && '/' !in d
  {
    if n == 0 then "" else Digits(i / 10, n - 1) + [('0' as int + i % 10) as char]
  }

  lemma {:induction false} DigitsInjective(i: nat, j: nat, n: nat)
    requires i < Pow10(n) && j < Pow10(n) && Digits(i, n) == Digits(j, n)
    ensures i == j
  {
    if n > 0 {
      var a, b := Digits(i, n), Digits(j, n);
      assert a[..n - 1] == Digits(i / 10, n - 1) && b[..n - 1] == Digits(j / 10, n - 1);
      assert a[n - 1] == b[n - 1];
      DigitsInjective(i / 10, j / 10, n - 1);
    }
  }

  function Fs(n: nat): (s: string)
    ensures |s| == n && forall c <- s :: c == 'f'
  {
    if n == 0 then "" else Fs(n - 1) + "f"
  }

  /** A file name of 144 characters, one for each number below 100000. */
  function LongName(i: nat): (n: string)
    ensures |n| == 144
  {
    Fs(139) + Digits(i, 5)
  }

  lemma LongNamesDiffer(i: nat, j: nat)
    requires i < j < MAX_SERVER_DELETE_COUNT
    ensures LongName(i) != LongName(j)
  {
    assert Pow10(5) == 100000;
    if LongName(i) == LongName(j) {
      assert LongName(i)[139..] == Digits(i, 5) && LongName(j)[139..] == Digits(j, 5);
      DigitsInjective(i, j, 5);
    }
  }

  lemma LongNameValid(i: nat)
    ensures ValidPath(LongName(i)) && WirePaths.CleanName(LongName(i))
  {
    var n := LongName(i);
    var stem := Fs(139);
    assert stem[0] in stem;
    assert n[0] == 'f' && '/' !in n;
    SourceRoot.LandsOne(n);
  }

  /** The first n of them as files of one directory, in the walker's order. */
  function ManyFiles(n: nat): (kids: seq<Kid>)
    ensures |kids| == n && forall i :: 0 <= i < n ==> kids[i] == Kid(LongName(n - 1 - i), Tree.File)
  {
    if n == 0 then [] else [Kid(LongName(n - 1), Tree.File)] + ManyFiles(n - 1)
  }

  function NamesOf(kids: seq<Kid>): (names: seq<string>)
    ensures |names| == |kids|
  {
    if kids == [] then [] else [kids[0].name] + NamesOf(kids[1..])
  }

  lemma {:induction false} NameAt(kids: seq<Kid>, i: nat)
    requires i < |kids|
    ensures NamesOf(kids)[i] == kids[i].name
  {
    if i > 0 { NameAt(kids[1..], i - 1); }
  }

  function Strings(paths: seq<Path>): seq<string> {
    if paths == [] then [] else [Join(paths[0])] + Strings(paths[1..])
  }

  lemma {:induction false} FlatWalk(sc: Scope, kids: seq<Kid>)
    requires SourceRoot.Plain(sc) && sc.keep == [] && forall k <- kids :: k.tree.File?
    ensures ExtraDirs(sc, [], true, kids) == [] && KeptDirs(sc, [], true, kids) == []
    ensures Strings(ExtraFiles(sc, [], true, kids)) == NamesOf(kids)
  {
    if kids != [] {
      FlatWalk(sc, kids[1..]);
      assert Extra(sc, [], true, kids[0]);
      var files := ExtraFiles(sc, [], true, kids);
      assert files[0] == [kids[0].name] && files[1..] == ExtraFiles(sc, [], true, kids[1..]);
    }
  }

  lemma {:induction false} CostOfLong(names: seq<string>, length: nat)
    requires forall n <- names :: |n| == length
    ensures Cost(names) == |names| * (length + ENTRY_COST)
  {
    if names != [] {
      CostOfLong(names[..|names| - 1], length);
      assert names[|names| - 1] in names;
    }
  }

  lemma ManyNames(n: nat)
    requires n <= MAX_SERVER_DELETE_COUNT
    ensures var names := NamesOf(ManyFiles(n));
            && |names| == n
            && (forall i :: 0 <= i < n ==> names[i] == LongName(n - 1 - i) && ValidPath(names[i]))
            && (forall i, j :: 0 <= i < j < n ==> names[i] != names[j])
  {
    var names := NamesOf(ManyFiles(n));
    forall i | 0 <= i < n ensures names[i] == LongName(n - 1 - i) && ValidPath(names[i]) {
      NameAt(ManyFiles(n), i);
      LongNameValid(n - 1 - i);
    }
    forall i, j | 0 <= i < j < n ensures names[i] != names[j] {
      LongNamesDiffer(n - 1 - j, n - 1 - i);
    }
  }

  /** The receiver removes 100000 files, which its own bound allows, and reports their
      distinct and valid names in full; the client's budget refuses the list. */
  lemma FullListCanBeRefused(sc: Scope, n: nat)
    requires SourceRoot.Plain(sc) && sc.keep == [] && n == MAX_SERVER_DELETE_COUNT
    ensures var removed := Strings(Walk(sc, [], false, ManyFiles(n)));
            && |removed| <= MAX_SERVER_DELETE_COUNT && Cap(removed) == removed
            && (forall i, j :: 0 <= i < j < |removed| ==> removed[i] != removed[j])
            && (forall i :: 0 <= i < |removed| ==> ValidPath(removed[i]))
            && Cost(removed) > MAX_BYTES
  {
    FlatWalk(sc, ManyFiles(n));
    assert Walk(sc, [], false, ManyFiles(n)) == ExtraFiles(sc, [], true, ManyFiles(n));
    ManyNames(n);
    CostOfLong(NamesOf(ManyFiles(n)), 144);
  }
}
