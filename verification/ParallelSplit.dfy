/** How the parallel scanner divides the work: root files into chunks, root
    subdirectories among workers. */
module ParallelSplit {
  import opened SourceTree

  datatype Slot<T> = Empty | Full(value: T)

  /** The files the slots hold. */
  function Held(slots: seq<Slot<Item>>): seq<Item>
    requires forall i :: 0 <= i < |slots| ==> slots[i].Full?
  {
    if slots == [] then [] else Held(slots[..|slots| - 1]) + [slots[|slots| - 1].value]
  }

  lemma {:induction false} HeldAt(slots: seq<Slot<Item>>)
    requires forall k :: 0 <= k < |slots| ==> slots[k].Full?
    ensures |Held(slots)| == |slots| && forall k :: 0 <= k < |slots| ==> Held(slots)[k] == slots[k].value
  {
    if slots != [] { HeldAt(slots[..|slots| - 1]); }
  }

  /** A root chunk is cut as soon as it reaches the size; only the last may fall short. */
  ghost predicate Short(chunk: seq<Item>, size: nat) {
    chunk != [] && (|chunk| > 1 ==> Payload(chunk[..|chunk| - 1]) < size)
  }

  ghost predicate CutAt(chunks: seq<seq<Item>>, size: nat, done: bool) {
    forall i :: 0 <= i < |chunks| ==>
      Short(chunks[i], size) && (Payload(chunks[i]) >= size || (done && i == |chunks| - 1))
  }

  lemma CutOne(chunks: seq<seq<Item>>, chunk: seq<Item>, size: nat, done: bool)
    requires CutAt(chunks, size, false) && Short(chunk, size) && (Payload(chunk) >= size || done)
    ensures CutAt(chunks + [chunk], size, done)
  {
  }

  /** Hand the files of one batch over: their slots are emptied, no other. */
  method Release(files: array<Slot<Item>>, from: nat, to: nat)
    requires from <= to <= files.Length
    modifies files
    ensures forall k :: from <= k < to ==> files[k].Empty?
    ensures forall k :: 0 <= k < files.Length && !(from <= k < to) ==> files[k] == old(files[k])
  {
    var j := from;
    while j < to
      invariant from <= j <= to
      invariant forall k :: from <= k < j ==> files[k].Empty?
      invariant forall k :: 0 <= k < files.Length && !(from <= k < j) ==> files[k] == old(files[k])
    {
      files[j] := Empty;
      j := j + 1;
    }
  }

  lemma BatchGrows(batch: seq<Item>, f: Item, size: nat)
    requires batch != [] ==> Payload(batch) < size
    ensures Short(batch + [f], size) && Payload(batch + [f]) == Payload(batch) + f.size
  {
    assert (batch + [f])[..|batch + [f]| - 1] == batch;
  }

  /** The first n slots are empty, the others hold their files. */
  ghost predicate Emptied(slots: seq<Slot<Item>>, items: seq<Item>, n: nat) {
    && |slots| == |items|
    && forall k :: 0 <= k < |slots| ==> slots[k] == if k < n then Empty else Full(items[k])
  }

  lemma BatchTaken(done: seq<Item>, batch: seq<Item>, items: seq<Item>, i: nat)
    requires i < |items| && done + batch == items[..i]
    ensures done + (batch + [items[i]]) == items[..i + 1]
  {
    assert done + (batch + [items[i]]) == done + batch + [items[i]];
  }

  /** The first i files are in closed chunks or in the open batch, and those in closed
      chunks have left their slots. */
  ghost predicate Batching(slots: seq<Slot<Item>>, items: seq<Item>, chunks: seq<seq<Item>>, batch: seq<Item>, i: nat, size: nat) {
    && |batch| <= i <= |items| && Emptied(slots, items, i - |batch|)
    && Joined(chunks) + batch == items[..i]
    && CutAt(chunks, size, i == |items| && batch == [])
  }

  /** batch_files: the chunks hold the files in order, each exactly once, and every
      slot is emptied as its file changes hands. */
  method BatchFiles(files: array<Slot<Item>>, size: nat) returns (chunks: seq<seq<Item>>)
    requires forall i :: 0 <= i < files.Length ==> files[i].Full?
    modifies files
    ensures Joined(chunks) == Held(old(files[..]))
    ensures CutAt(chunks, size, true)
    ensures forall i :: 0 <= i < files.Length ==> files[i].Empty?
  {
    chunks := [];
    HeldAt(files[..]);
    ghost var items := Held(files[..]);
    var batch: seq<Item>, total, i := [], 0, 0;
    while i < files.Length
      invariant i <= files.Length == |items|
      invariant Batching(files[..], items, chunks, batch, i, size)
      invariant total == Payload(batch) && (batch != [] ==> total < size && i < files.Length)
    {
      assert files[..][i] == Full(items[i]);
      var f := files[i].value;
      BatchTaken(Joined(chunks), batch, items, i);
      BatchGrows(batch, f, size);
      batch, total, i := batch + [f], total + f.size, i + 1;
      if total >= size || i == files.Length {
        chunks := Flush(files, chunks, batch, size, i, items);
        batch, total := [], 0;
      }
    }
    BatchingEnds(files[..], items, chunks, size);
    assert forall k :: 0 <= k < files.Length ==> files[k] == files[..][k];
  }

  lemma BatchingEnds(slots: seq<Slot<Item>>, items: seq<Item>, chunks: seq<seq<Item>>, size: nat)
    requires Batching(slots, items, chunks, [], |items|, size)
    ensures Joined(chunks) == items && CutAt(chunks, size, true)
    ensures forall k :: 0 <= k < |slots| ==> slots[k].Empty?
  {
    assert Joined(chunks) + [] == Joined(chunks) && items[..|items|] == items;
  }

  /** Close a batch: the chunk takes its files, their slots are emptied. */
  method Flush(files: array<Slot<Item>>, chunks: seq<seq<Item>>, batch: seq<Item>, size: nat, i: nat, ghost items: seq<Item>)
    returns (more: seq<seq<Item>>)
    requires files.Length == |items| && Batching(files[..], items, chunks, batch, i, size)
    requires Short(batch, size) && (Payload(batch) >= size || i == files.Length)
    modifies files
    ensures Batching(files[..], items, more, [], i, size)
  {
    JoinedOne(chunks, batch);
    CutOne(chunks, batch, size, i == files.Length);
    more := chunks + [batch];
    assert Joined(more) + [] == Joined(chunks) + batch;
    ghost var before := files[..];
    Release(files, i - |batch|, i);
    forall k | 0 <= k < files.Length ensures files[k] == if k < i then Empty else Full(items[k]) {
      assert before[k] == if k < i - |batch| then Empty else Full(items[k]);
    }
  }

  /** Where worker t's share starts. */
  function Start(each: nat, remainder: nat, t: nat): nat {
    if t == 0 then 0 else Start(each, remainder, t - 1) + each + (if t - 1 < remainder then 1 else 0)
  }

  lemma {:induction false} StartIs(each: nat, remainder: nat, t: nat)
    ensures Start(each, remainder, t) == t * each + (if t < remainder then t else remainder)
  {
    if t > 0 {
      StartIs(each, remainder, t - 1);
      assert t * each == (t - 1) * each + each;
    }
  }

  lemma {:induction false} StartGrows(each: nat, remainder: nat, t: nat, n: nat)
    requires t <= n
    ensures Start(each, remainder, t) <= Start(each, remainder, n)
  {
    if t < n { StartGrows(each, remainder, t, n - 1); }
  }

  /** spawn_parallel_workers: every subdirectory goes to exactly one worker, in order,
      no worker is idle, and shares differ by one at most. */
  method ShareOut<T>(subdirs: seq<T>, requested: int) returns (shares: seq<seq<T>>)
    ensures Joined(shares) == subdirs
    ensures subdirs != [] ==> 1 <= |shares| <= (if requested > 0 then requested else 4)
    ensures forall i :: 0 <= i < |shares| ==> shares[i] != []
    ensures forall i, j :: 0 <= i <= j < |shares| ==> |shares[j]| <= |shares[i]| <= |shares[j]| + 1
  {
    shares := [];
    if |subdirs| == 0 {
      return;
    }
    var n := if requested > 0 then requested else 4;
    if n > |subdirs| {
      n := |subdirs|;
    }
    SharesAddUp(|subdirs|, n);
    shares := Slices(subdirs, n, |subdirs| / n, |subdirs| % n);
  }

  lemma SharesAddUp(total: nat, n: nat)
    requires 0 < n <= total
    ensures Start(total / n, total % n, n) == total && total / n > 0
  {
    StartIs(total / n, total % n, n);
  }

  method Slices<T>(subdirs: seq<T>, n: nat, each: nat, remainder: nat) returns (shares: seq<seq<T>>)
    requires Start(each, remainder, n) == |subdirs|
    ensures Joined(shares) == subdirs && |shares| == n
    ensures forall i :: 0 <= i < n ==> |shares[i]| == each + (if i < remainder then 1 else 0)
  {
    shares := [];
    var start, t := 0, 0;
    while t < n
      invariant 0 <= t <= n && |shares| == t
      invariant start == Start(each, remainder, t) <= |subdirs| && Joined(shares) == subdirs[..start]
      invariant forall i :: 0 <= i < t ==> |shares[i]| == each + (if i < remainder then 1 else 0)
    {
      var count := each + if t < remainder then 1 else 0;
      StartGrows(each, remainder, t + 1, n);
      var share := subdirs[start..start + count];
      JoinedOne(shares, share);
      assert subdirs[..start] + share == subdirs[..start + count];
      shares, start, t := shares + [share], start + count, t + 1;
    }
    assert subdirs[..start] == subdirs;
  }
}
