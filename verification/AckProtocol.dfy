/** The acknowledgement protocol behind --remove-source-files: the receiver reports
    one status per stored entry and a terminal status, and the client removes a source
    only if its own status and the terminal status allow it. */
module AckProtocol {
  import opened Protocol
  import opened Receiver
  import opened LateDelete

  // ---- The client's reading of the final frames ----

  datatype Final = Final(ok: bool, limit: bool, skipped: seq<bool>, read: nat)

  /** Read one status per remembered source: skipped, written, or something that ends
      the exchange. */
  datatype AckRead = Broken | Flags(skipped: seq<bool>)

  function ReadAcks(frames: seq<Reply>, n: nat): (r: AckRead)
    ensures r.Flags? ==> |r.skipped| == n
  {
    if n == 0 then Flags([])
    else
      var before := ReadAcks(frames, n - 1);
      if before.Broken? || |frames| < n then Broken
      else if frames[n - 1] == Code(StatusOk) then Flags(before.skipped + [true])
      else if frames[n - 1] == Code(StatusNext) then Flags(before.skipped + [false])
      else Broken
  }

  function Terminal(frames: seq<Reply>, at: nat, skipped: seq<bool>, base: nat): Final {
    if |frames| <= at then Final(false, false, skipped, base + |frames|)
    else Final(frames[at] == Code(StatusOk) || frames[at] == Code(StatusDeleteLimit),
               frames[at] == Code(StatusDeleteLimit), skipped, base + at + 1)
  }

  /** The client's verdict on the receiver's frames, with `sources` remembered. */
  function Verdict(frames: seq<Reply>, removing: bool, sources: nat): (v: Final)
    ensures removing && v.ok ==> |v.skipped| == sources
  {
    var base := if frames != [] && frames[0].StatsFrame? then 1 else 0;
    var rest := frames[base..];
    if removing && sources > 0 then
      match ReadAcks(rest, sources)
      case Broken => Final(false, false, [], 0)
      case Flags(skipped) => Terminal(rest, sources, skipped, base)
    else Terminal(rest, 0, [], base)
  }

  lemma {:induction false} BrokenStays(frames: seq<Reply>, n: nat, m: nat)
    requires n <= m && ReadAcks(frames, n).Broken?
    ensures ReadAcks(frames, m).Broken?
  {
    if n < m { BrokenStays(frames, n, m - 1); }
  }

  /** finalize_transfer: flags skipped sources in place and says how many frames it took. */
  method FinalizeTransfer(frames: seq<Reply>, removing: bool, skipped: array<bool>)
    returns (ok: bool, limit: bool, read: nat)
    requires forall i :: 0 <= i < skipped.Length ==> !skipped[i]
    modifies skipped
    ensures var v := Verdict(frames, removing, skipped.Length);
            ok == v.ok && limit == v.limit && (ok ==> read == v.read && (removing ==> skipped[..] == v.skipped))
    ensures !removing ==> forall i :: 0 <= i < skipped.Length ==> !skipped[i]
  {
    ok, limit, read := false, false, 0;
    if |frames| == 0 {
      return;
    }
    if frames[0].StatsFrame? {
      read := 1;
    }
    ghost var rest := frames[read..];
    if removing && skipped.Length > 0 {
      ghost var base := read;
      var i := 0;
      while i < skipped.Length
        invariant 0 <= i <= skipped.Length && read == base + i <= |frames|
        invariant ReadAcks(rest, i) == Flags(skipped[..i])
        invariant !ok && !limit
      {
        if read < |frames| { assert rest[i] == frames[read]; }
        if read == |frames| || (frames[read] != Code(StatusOk) && frames[read] != Code(StatusNext)) {
          BrokenStays(rest, i + 1, skipped.Length);
          return;
        }
        skipped[i] := frames[read] == Code(StatusOk);
        i, read := i + 1, read + 1;
        assert skipped[..i] == skipped[..i - 1] + [skipped[i - 1]];
      }
      assert skipped[..i] == skipped[..];
    }
    if read == |frames| {
      return;
    }
    limit := frames[read] == Code(StatusDeleteLimit);
    ok := limit || frames[read] == Code(StatusOk);
    read := read + 1;
  }

  // ---- What the two sides count ----

  /** An entry as it was sent, and whether the client, looking at its source just then
      without following links, finds a regular file. */
  datatype Sent = Sent(file: File, regular: bool)

  function Files(sent: seq<Sent>): seq<File> {
    if sent == [] then [] else Files(sent[..|sent| - 1]) + [sent[|sent| - 1].file]
  }

  /** The sources the client remembers: regular files on disk; outside chunks only those
      sent as files of their own that the receiver did not turn down. */
  predicate Remembered(chunked: bool, s: Sent) {
    s.regular && (chunked || (!s.file.isDir && !s.file.sibling && !s.file.isSymlink && !s.file.isSpecial && !s.file.skip))
  }

  /** The entries the receiver acknowledges. */
  predicate Counted(f: File) { !f.isDir && !f.isSpecial && !f.skip }

  function CountedOf(files: seq<File>): seq<File> {
    if files == [] then [] else
    var rest := CountedOf(files[..|files| - 1]);
    if Counted(files[|files| - 1]) then rest + [files[|files| - 1]] else rest
  }

  /** Counted by one side and not by the other. */
  predicate Astray(chunked: bool, s: Sent) { Remembered(chunked, s) != Counted(s.file) }

  /** As long as nothing but a plain file is a regular file on disk, the entries astray are
      the acknowledged ones that are not: symlinks, files sent for a dereferenced link, and
      copied devices; and, outside chunks, hard-link siblings. */
  lemma AstrayKinds(chunked: bool, s: Sent)
    requires s.regular ==> !s.file.isDir && !s.file.isSpecial && !s.file.isSymlink && !s.file.skip
    ensures Astray(chunked, s) <==> Counted(s.file) && (!s.regular || (!chunked && s.file.sibling))
  {
  }

  /** The receiver's outcomes: one per counted entry, in order. */
  function ResultsOf(cfg: Config, w: World, disk: Disk, files: seq<File>): seq<SaveResult> {
    if files == [] then [] else
    var n := |files| - 1;
    var rest := ResultsOf(cfg, w, disk, files[..n]);
    if Acked(cfg, files[n]) then rest + [Attempt(cfg, w, DiskAfter(cfg, disk, files[..n]), files[n]).result] else rest
  }

  function DiskAfter(cfg: Config, disk: Disk, files: seq<File>): Disk {
    if files == [] then disk else Touch(cfg, DiskAfter(cfg, disk, files[..|files| - 1]), files[|files| - 1])
  }

  /** The place of each remembered source among the counted entries, if it has one. */
  function Places(chunked: bool, sent: seq<Sent>): seq<Option<nat>> {
    if sent == [] then [] else
    var n := |sent| - 1;
    var rest := Places(chunked, sent[..n]);
    if !Remembered(chunked, sent[n]) then rest
    else rest + [if Counted(sent[n].file) then Some(|CountedOf(Files(sent[..n]))|) else None]
  }

  ghost predicate Placed(places: seq<Option<nat>>, n: nat) {
    forall j :: 0 <= j < |places| ==> places[j].Some? ==> places[j].value < n
  }

  ghost predicate AllPlaced(places: seq<Option<nat>>) { forall j :: 0 <= j < |places| ==> places[j].Some? }

  lemma AllPlacedSnoc(places: seq<Option<nat>>, last: Option<nat>)
    ensures AllPlaced(places + [last]) <==> AllPlaced(places) && last.Some?
  {
    var all := places + [last];
    if AllPlaced(all) {
      assert all[|places|] == last;
      forall j | 0 <= j < |places| ensures places[j].Some? { assert all[j] == places[j]; }
    }
  }

  ghost predicate InStep(places: seq<Option<nat>>) { forall j :: 0 <= j < |places| ==> places[j] == Some(j) }

  ghost predicate NoneAstray(chunked: bool, sent: seq<Sent>) { forall s <- sent :: !Astray(chunked, s) }

  function Both(chunked: bool, sent: seq<Sent>): nat {
    if sent == [] then 0 else
    var n := |sent| - 1;
    Both(chunked, sent[..n]) + if Remembered(chunked, sent[n]) && Counted(sent[n].file) then 1 else 0
  }

  lemma Snoc(chunked: bool, sent: seq<Sent>)
    requires sent != []
    ensures var n := |sent| - 1;
            && Files(sent)[..|Files(sent)| - 1] == Files(sent[..n]) && Files(sent) != [] && Files(sent)[|Files(sent)| - 1] == sent[n].file
            && (NoneAstray(chunked, sent) <==> NoneAstray(chunked, sent[..n]) && !Astray(chunked, sent[n]))
  {
    var n := |sent| - 1;
    assert sent == sent[..n] + [sent[n]];
  }

  lemma {:induction false} BothCounts(chunked: bool, sent: seq<Sent>)
    ensures var places := Places(chunked, sent);
            && Both(chunked, sent) <= |places| && Both(chunked, sent) <= |CountedOf(Files(sent))|
            && Placed(places, |CountedOf(Files(sent))|)
            && (Both(chunked, sent) == |places| <==> AllPlaced(places))
            && (Both(chunked, sent) == |places| == |CountedOf(Files(sent))| <==> NoneAstray(chunked, sent))
  {
    if sent != [] {
      var n := |sent| - 1;
      Snoc(chunked, sent);
      BothCounts(chunked, sent[..n]);
      AllPlacedSnoc(Places(chunked, sent[..n]), if Counted(sent[n].file) then Some(|CountedOf(Files(sent[..n]))|) else None);
    }
  }

  lemma {:induction false} NoneAstrayInStep(chunked: bool, sent: seq<Sent>)
    requires NoneAstray(chunked, sent)
    ensures InStep(Places(chunked, sent)) && |Places(chunked, sent)| == |CountedOf(Files(sent))|
  {
    if sent != [] {
      Snoc(chunked, sent);
      NoneAstrayInStep(chunked, sent[..|sent| - 1]);
    }
  }

  /** The j-th status is for the j-th remembered source, and there are no others, if and
      only if no entry went astray. */
  lemma AlignedExactly(chunked: bool, sent: seq<Sent>)
    ensures InStep(Places(chunked, sent)) && |Places(chunked, sent)| == |CountedOf(Files(sent))| <==> NoneAstray(chunked, sent)
  {
    BothCounts(chunked, sent);
    assert InStep(Places(chunked, sent)) ==> AllPlaced(Places(chunked, sent));
    if NoneAstray(chunked, sent) { NoneAstrayInStep(chunked, sent); }
  }

  /** The receiver's outcome list after storing some entries: one outcome per counted
      entry, in the order they were sent. */
  lemma {:induction false} OutcomesAre(cfg: Config, w: World, sink: Sink, b: Book, files: seq<File>)
    requires cfg.removeSource && !cfg.dryRun && SaveAll(cfg, w, sink, b, files).1
    ensures var after := SaveAll(cfg, w, sink, b, files).0;
            && after.outcomes == b.outcomes + ResultsOf(cfg, w, b.disk, files)
            && after.disk == DiskAfter(cfg, b.disk, files)
            && |ResultsOf(cfg, w, b.disk, files)| == |CountedOf(files)|
  {
    if files != [] {
      var n := |files| - 1;
      OutcomesAre(cfg, w, sink, b, files[..n]);
    }
  }

  // ---- The exchange ----

  /** The frames that end a successful run. */
  function Closing(cfg: Config, stats: seq<Reply>, outcomes: seq<SaveResult>, final: Status): seq<Reply> {
    stats + Acks(cfg, outcomes) + [Code(final)]
  }

  ghost predicate StatsOrNothing(stats: seq<Reply>) {
    stats == [] || (|stats| == 1 && stats[0].StatsFrame?)
  }

  /** No counted entry failed outright. */
  ghost predicate NoneFailed(outcomes: seq<SaveResult>, n: nat)
    requires n <= |outcomes|
  {
    forall i :: 0 <= i < n ==> outcomes[i] != SaveFailed
  }

  lemma {:induction false} AcksRead(cfg: Config, outcomes: seq<SaveResult>, final: Status, n: nat)
    requires cfg.removeSource && n <= |outcomes|
    ensures var r := ReadAcks(Acks(cfg, outcomes) + [Code(final)], n);
            if NoneFailed(outcomes, n)
            then r.Flags? && |r.skipped| == n && forall i :: 0 <= i < n ==> r.skipped[i] == (outcomes[i] != Written)
            else r.Broken?
  {
    if n > 0 {
      AcksRead(cfg, outcomes, final, n - 1);
      var frames := Acks(cfg, outcomes) + [Code(final)];
      assert frames[n - 1] == Code(AckOf(outcomes[n - 1]));
    }
  }

  /** When both sides agree, the client takes exactly the receiver's frames; it accepts if
      and only if no entry failed and the terminal status was OK or a capped deletion; and
      a source is up for removal if and only if, further, its own outcome was WRITTEN. */
  lemma AlignedExchange(cfg: Config, stats: seq<Reply>, outcomes: seq<SaveResult>, final: Status)
    requires cfg.removeSource && StatsOrNothing(stats)
    ensures var frames := Closing(cfg, stats, outcomes, final);
            var v := Verdict(frames, true, |outcomes|);
            && (v.ok <==> NoneFailed(outcomes, |outcomes|) && (final == StatusOk || final == StatusDeleteLimit))
            && (v.ok ==> v.read == |frames| && |v.skipped| == |outcomes|)
            && (v.ok ==> forall i :: 0 <= i < |outcomes| ==> (!v.skipped[i] <==> outcomes[i] == Written))
            && (v.limit <==> v.ok && final == StatusDeleteLimit)
  {
    var frames := Closing(cfg, stats, outcomes, final);
    var n := |outcomes|;
    var tail := Acks(cfg, outcomes) + [Code(final)];
    RestOf(cfg, stats, outcomes, final);
    AcksRead(cfg, outcomes, final, n);
    assert tail[n] == Code(final);
  }

  /** Without removal the terminal status alone decides, and is the last frame taken. */
  lemma PlainExchange(cfg: Config, stats: seq<Reply>, outcomes: seq<SaveResult>, final: Status, sources: nat)
    requires !cfg.removeSource && StatsOrNothing(stats)
    ensures var frames := Closing(cfg, stats, outcomes, final);
            var v := Verdict(frames, false, sources);
            && (v.ok <==> final == StatusOk || final == StatusDeleteLimit)
            && (v.limit <==> final == StatusDeleteLimit) && v.read == |frames|
  {
    RestOf(cfg, stats, outcomes, final);
  }

  lemma RestOf(cfg: Config, stats: seq<Reply>, outcomes: seq<SaveResult>, final: Status)
    requires StatsOrNothing(stats)
    ensures var frames := Closing(cfg, stats, outcomes, final);
            var base := if frames != [] && frames[0].StatsFrame? then 1 else 0;
            base == |stats| && frames[base..] == Acks(cfg, outcomes) + [Code(final)]
  {
    var tail := Acks(cfg, outcomes) + [Code(final)];
    assert !tail[0].StatsFrame?;
    assert Closing(cfg, stats, outcomes, final) == stats + tail;
  }

  /** Every source the client would remove was stored and the run ended well. `mine[j]` is
      the place of the j-th remembered source among the counted entries, if it has one. */
  ghost predicate RemovesOnlyStored(cfg: Config, stats: seq<Reply>, outcomes: seq<SaveResult>, final: Status, mine: seq<Option<nat>>) {
    var v := Verdict(Closing(cfg, stats, outcomes, final), true, |mine|);
    v.ok ==> forall j :: 0 <= j < |mine| && !v.skipped[j] ==>
      && mine[j].Some? && mine[j].value < |outcomes| && outcomes[mine[j].value] == Written
      && (final == StatusOk || final == StatusDeleteLimit)
  }

  /** What the client makes of the statuses when it waits for m of them, m being fewer: the
      status after those it takes for the terminal one. */
  lemma ReadsAhead(cfg: Config, stats: seq<Reply>, outcomes: seq<SaveResult>, final: Status, m: nat)
    requires cfg.removeSource && StatsOrNothing(stats) && 0 < m < |outcomes|
    ensures var v := Verdict(Closing(cfg, stats, outcomes, final), true, m);
            && (v.ok ==> NoneFailed(outcomes, m + 1))
            && (NoneFailed(outcomes, m) && outcomes[m] == Skipped ==> v.ok)
            && (v.ok ==> forall i :: 0 <= i < m ==> v.skipped[i] == (outcomes[i] != Written))
  {
    RestOf(cfg, stats, outcomes, final);
    AcksRead(cfg, outcomes, final, m);
    assert (Acks(cfg, outcomes) + [Code(final)])[m] == Code(AckOf(outcomes[m]));
  }

  /** Waiting for more statuses than are sent fails the run. */
  lemma WaitsInVain(cfg: Config, stats: seq<Reply>, outcomes: seq<SaveResult>, final: Status, m: nat)
    requires cfg.removeSource && StatsOrNothing(stats) && |outcomes| < m
    ensures var v := Verdict(Closing(cfg, stats, outcomes, final), true, m); !v.ok && !v.limit
  {
    RestOf(cfg, stats, outcomes, final);
    var tail := Acks(cfg, outcomes) + [Code(final)];
    assert |tail| == |outcomes| + 1;
    if |tail| < m { BrokenStays(tail, |tail| + 1, m); }
  }

  // ---- When removal is sound ----

  /** A file system on which only some entries can fail without ending the run. */
  ghost predicate Allowed(w: World, fails: File -> bool) {
    forall disk, f :: w.save(disk, f).result == SaveFailed ==> fails(f)
  }

  /** In this run of the receiver, if it stores everything, the client removes only what was
      stored. */
  ghost predicate RunRemoves(cfg: Config, w: World, limit: bool, stats: seq<Reply>, chunked: bool, sent: seq<Sent>) {
    var r := SaveAll(cfg, w, Direct, EmptyBook, Files(sent));
    r.1 ==> RemovesOnlyStored(cfg, stats, r.0.outcomes, FinalStatus(limit, r.0.failed), Places(chunked, sent))
  }

  /** Removal is sound in every run over these entries: on every such file system, whether or
      not a deletion was capped, whatever the statistics. */
  ghost predicate AlwaysSound(cfg: Config, fails: File -> bool, chunked: bool, sent: seq<Sent>) {
    forall w, limit, stats :: Allowed(w, fails) && StatsOrNothing(stats) ==> RunRemoves(cfg, w, limit, stats, chunked, sent)
  }

  /** An entry other than the first m + 1 counted ones can fail. */
  ghost predicate FailsBeyond(fails: File -> bool, files: seq<File>, m: nat) {
    exists i :: 0 <= i < |files| && fails(files[i]) && !(Counted(files[i]) && |CountedOf(files[..i])| <= m)
  }

  /** A run that counts a failure had one, and tells it if the entry is acknowledged. */
  lemma {:induction false} FailedFrom(cfg: Config, w: World, fails: File -> bool, files: seq<File>) returns (i: nat)
    requires cfg.removeSource && Writes(cfg) && Allowed(w, fails)
    requires SaveAll(cfg, w, Direct, EmptyBook, files).1 && SaveAll(cfg, w, Direct, EmptyBook, files).0.failed > 0
    ensures i < |files| && fails(files[i])
    ensures var place, results := |CountedOf(files[..i])|, ResultsOf(cfg, w, [], files);
            Counted(files[i]) ==> place < |results| && results[place] == SaveFailed
  {
    var n := |files| - 1;
    OutcomesAre(cfg, w, Direct, EmptyBook, files[..n]);
    var before := SaveAll(cfg, w, Direct, EmptyBook, files[..n]).0;
    if w.save(before.disk, files[n]).result == SaveFailed {
      i := n;
    } else {
      i := FailedFrom(cfg, w, fails, files[..n]);
      assert files[..n][..i] == files[..i];
    }
  }

  lemma SoundRun(cfg: Config, fails: File -> bool, chunked: bool, sent: seq<Sent>, w: World, limit: bool, stats: seq<Reply>)
    requires cfg.removeSource && Writes(cfg) && Allowed(w, fails) && StatsOrNothing(stats)
    requires var m, n := |Places(chunked, sent)|, |CountedOf(Files(sent))|;
             m == 0 || m > n || (InStep(Places(chunked, sent)) && (m == n || !FailsBeyond(fails, Files(sent), m)))
    ensures RunRemoves(cfg, w, limit, stats, chunked, sent)
  {
    var files := Files(sent);
    var r := SaveAll(cfg, w, Direct, EmptyBook, files);
    if r.1 {
      OutcomesAre(cfg, w, Direct, EmptyBook, files);
      var m, n, o, final := |Places(chunked, sent)|, |CountedOf(files)|, r.0.outcomes, FinalStatus(limit, r.0.failed);
      assert o == ResultsOf(cfg, w, [], files);
      if m > n {
        WaitsInVain(cfg, stats, o, final, m);
      } else if m == n {
        AlignedExchange(cfg, stats, o, final);
      } else if m > 0 {
        ReadsAhead(cfg, stats, o, final, m);
        if r.0.failed > 0 {
          var i := FailedFrom(cfg, w, fails, files);
          assert Counted(files[i]) && |CountedOf(files[..i])| <= m;
        }
      }
    }
  }

  // ---- Runs that show the opposite ----

  /** A file system that answers by the number of entries stored before. */
  function Picker(pick: nat -> SaveResult, fails: File -> bool): World {
    World((disk, f) => Saved(if pick(|disk|) == SaveFailed && !fails(f) then Written else pick(|disk|), false, 0),
          (disk, m) => Commit(CommitOk, 0, []), (disk, m) => [], disk => true,
          (disk, request) => CheckSkip, (disk, request) => true)
  }

  function Picked(pick: nat -> SaveResult, files: seq<File>): seq<SaveResult> {
    if files == [] then [] else
    var n := |files| - 1;
    if Counted(files[n]) then Picked(pick, files[..n]) + [pick(n)] else Picked(pick, files[..n])
  }

  lemma {:induction false} PickedRun(cfg: Config, pick: nat -> SaveResult, fails: File -> bool, files: seq<File>)
    requires cfg.removeSource && Writes(cfg)
    requires forall i :: 0 <= i < |files| ==> pick(i) != SaveError && (pick(i) == SaveFailed ==> fails(files[i]))
    ensures var r := SaveAll(cfg, Picker(pick, fails), Direct, EmptyBook, files);
            && r.1 && |r.0.disk| == |files| && r.0.outcomes == Picked(pick, files)
            && (r.0.failed > 0 <==> exists i :: 0 <= i < |files| && pick(i) == SaveFailed)
  {
    if files != [] {
      var n := |files| - 1;
      PickedRun(cfg, pick, fails, files[..n]);
      PickedStep(cfg, pick, fails, SaveAll(cfg, Picker(pick, fails), Direct, EmptyBook, files[..n]).0, files[n]);
    }
  }

  lemma PickedStep(cfg: Config, pick: nat -> SaveResult, fails: File -> bool, b: Book, f: File)
    requires cfg.removeSource && Writes(cfg)
    requires pick(|b.disk|) != SaveError && (pick(|b.disk|) == SaveFailed ==> fails(f))
    ensures var r := SaveFile(cfg, Picker(pick, fails), Direct, b, f);
            && r.1 && |r.0.disk| == |b.disk| + 1
            && r.0.outcomes == (if Counted(f) then b.outcomes + [pick(|b.disk|)] else b.outcomes)
            && r.0.failed == b.failed + if pick(|b.disk|) == SaveFailed then 1 else 0
  {
  }

  lemma {:induction false} PickedAt(pick: nat -> SaveResult, files: seq<File>, i: nat)
    requires i < |files| && Counted(files[i])
    ensures |Picked(pick, files)| == |CountedOf(files)| && |CountedOf(files[..i])| < |CountedOf(files)|
    ensures Picked(pick, files)[|CountedOf(files[..i])|] == pick(i)
  {
    var n := |files| - 1;
    PickedSize(pick, files);
    PickedSize(pick, files[..n]);
    if i < n {
      PickedAt(pick, files[..n], i);
      assert files[..n][..i] == files[..i];
    }
  }

  lemma {:induction false} PickedSize(pick: nat -> SaveResult, files: seq<File>)
    ensures |Picked(pick, files)| == |CountedOf(files)|
  {
    if files != [] { PickedSize(pick, files[..|files| - 1]); }
  }

  /** Where the c-th counted entry stands among the files. */
  lemma {:induction false} PositionOf(files: seq<File>, c: nat) returns (a: nat)
    requires c < |CountedOf(files)|
    ensures a < |files| && Counted(files[a]) && |CountedOf(files[..a])| == c
  {
    var n := |files| - 1;
    if Counted(files[n]) && c == |CountedOf(files[..n])| {
      a := n;
    } else {
      a := PositionOf(files[..n], c);
      assert files[..n][..a] == files[..a];
    }
  }

  /** Everything is written but what stands at two places, and what stands at a third fails;
      a place beyond the end is none. */
  function But(x: nat, y: nat, z: nat): nat -> SaveResult {
    i => if i == x || i == y then Skipped else if i == z then SaveFailed else Written
  }

  lemma ButWritten(files: seq<File>, x: nat, y: nat, z: nat, c: nat)
    requires c < |CountedOf(files)|
    requires forall i :: 0 <= i < |files| && i in {x, y, z} && Counted(files[i]) ==> |CountedOf(files[..i])| != c
    ensures |Picked(But(x, y, z), files)| == |CountedOf(files)| && Picked(But(x, y, z), files)[c] == Written
  {
    var a := PositionOf(files, c);
    PickedAt(But(x, y, z), files, a);
  }

  lemma ButSkipped(files: seq<File>, x: nat, y: nat, z: nat, a: nat)
    requires a < |files| && Counted(files[a]) && (a == x || a == y)
    ensures |Picked(But(x, y, z), files)| == |CountedOf(files)| && |CountedOf(files[..a])| < |CountedOf(files)|
    ensures Picked(But(x, y, z), files)[|CountedOf(files[..a])|] == Skipped
  {
    PickedAt(But(x, y, z), files, a);
  }

  lemma PickerAllowed(pick: nat -> SaveResult, fails: File -> bool)
    ensures Allowed(Picker(pick, fails), fails)
  {
  }

  /** A run of the chosen kind, and what comes of it. */
  lemma ButRun(cfg: Config, fails: File -> bool, files: seq<File>, x: nat, y: nat, z: nat)
    requires cfg.removeSource && Writes(cfg) && (z < |files| && z != x && z != y ==> fails(files[z]))
    ensures var r := SaveAll(cfg, Picker(But(x, y, z), fails), Direct, EmptyBook, files);
            && r.1 && r.0.outcomes == Picked(But(x, y, z), files)
            && FinalStatus(false, r.0.failed) == if z < |files| && z != x && z != y then StatusError else StatusOk
  {
    PickedRun(cfg, But(x, y, z), fails, files);
    if z < |files| && z != x && z != y { assert But(x, y, z)(z) == SaveFailed; }
  }

  /** Sources out of step with the statuses: a run that ends well and removes one that was
      not stored. */
  lemma OutOfStep(cfg: Config, fails: File -> bool, chunked: bool, sent: seq<Sent>)
    requires cfg.removeSource && Writes(cfg)
    requires 0 < |Places(chunked, sent)| <= |CountedOf(Files(sent))| && !InStep(Places(chunked, sent))
    ensures !AlwaysSound(cfg, fails, chunked, sent)
  {
    var files, mine := Files(sent), Places(chunked, sent);
    var m, n := |mine|, |CountedOf(Files(sent))|;
    BothCounts(chunked, sent);
    var j :| 0 <= j < m && mine[j] != Some(j);
    var none := |files|;
    var x, y := none, none;
    if m < n { x := PositionOf(files, m); }
    if mine[j].Some? { y := PositionOf(files, mine[j].value); }
    var pick := But(x, y, none);
    var o := Picked(pick, files);
    ButRun(cfg, fails, files, x, y, none);
    ButWritten(files, x, y, none, j);
    if m < n { ButSkipped(files, x, y, none, x); }
    if mine[j].Some? { ButSkipped(files, x, y, none, y); }
    ButNoneFailed(files, x, y);
    WrongVerdict(cfg, o, StatusOk, mine, j);
    PickerAllowed(pick, fails);
    assert StatsOrNothing([]);
    assert !RunRemoves(cfg, Picker(pick, fails), false, [], chunked, sent);
  }

  lemma ButNoneFailed(files: seq<File>, x: nat, y: nat)
    ensures var o := Picked(But(x, y, |files|), files); forall c :: 0 <= c < |o| ==> o[c] != SaveFailed
  {
    var o := Picked(But(x, y, |files|), files);
    PickedSize(But(x, y, |files|), files);
    forall c | 0 <= c < |o| ensures o[c] != SaveFailed {
      var a := PositionOf(files, c);
      PickedAt(But(x, y, |files|), files, a);
    }
  }

  /** The client accepts such a run and takes source j for removal. */
  lemma WrongVerdict(cfg: Config, o: seq<SaveResult>, final: Status, mine: seq<Option<nat>>, j: nat)
    requires cfg.removeSource && j < |mine| <= |o| && NoneFailed(o, |mine|) && o[j] == Written
    requires if |mine| < |o| then o[|mine|] == Skipped else final == StatusOk
    requires mine[j].None? || mine[j].value >= |o| || o[mine[j].value] != Written || final == StatusError
    ensures !RemovesOnlyStored(cfg, [], o, final, mine)
  {
    if |mine| < |o| {
      ReadsAhead(cfg, [], o, final, |mine|);
    } else {
      AlignedExchange(cfg, [], o, final);
    }
    assert !Verdict(Closing(cfg, [], o, final), true, |mine|).skipped[j];
  }

  /** Sources in step but fewer than the statuses, and a failure the client does not see: it
      accepts a run that the receiver reports as failed. */
  lemma UnseenFailure(cfg: Config, fails: File -> bool, chunked: bool, sent: seq<Sent>)
    requires cfg.removeSource && Writes(cfg) && FailsBeyond(fails, Files(sent), |Places(chunked, sent)|)
    requires 0 < |Places(chunked, sent)| < |CountedOf(Files(sent))|
    ensures !AlwaysSound(cfg, fails, chunked, sent)
  {
    var files, mine := Files(sent), Places(chunked, sent);
    var m := |mine|;
    var z :| 0 <= z < |files| && fails(files[z]) && !(Counted(files[z]) && |CountedOf(files[..z])| <= m);
    var x := PositionOf(files, m);
    var pick := But(x, x, z);
    var o := Picked(pick, files);
    ButRun(cfg, fails, files, x, x, z);
    forall c | 0 <= c < m ensures |o| == |CountedOf(files)| && o[c] == Written { ButWritten(files, x, x, z, c); }
    ButSkipped(files, x, x, z, x);
    WrongVerdict(cfg, o, StatusError, mine, 0);
    PickerAllowed(pick, fails);
    assert StatsOrNothing([]);
    assert !RunRemoves(cfg, Picker(pick, fails), false, [], chunked, sent);
  }

  /** For any list of sent entries, removal is sound in every run if and only if the client
      remembers nothing, or waits for more statuses than are sent, or its sources are the
      first of the acknowledged entries in order and either there are no others, or nothing
      else but the entry right after them can fail. */
  lemma RemovalSoundExactly(cfg: Config, fails: File -> bool, chunked: bool, sent: seq<Sent>)
    requires cfg.removeSource && Writes(cfg)
    ensures var m, n := |Places(chunked, sent)|, |CountedOf(Files(sent))|;
            AlwaysSound(cfg, fails, chunked, sent) <==>
              || m == 0 || m > n
              || (InStep(Places(chunked, sent)) && (m == n || !FailsBeyond(fails, Files(sent), m)))
  {
    var m, n := |Places(chunked, sent)|, |CountedOf(Files(sent))|;
    if m == 0 || m > n || (InStep(Places(chunked, sent)) && (m == n || !FailsBeyond(fails, Files(sent), m))) {
      forall w, limit, stats | Allowed(w, fails) && StatsOrNothing(stats) ensures RunRemoves(cfg, w, limit, stats, chunked, sent) {
        SoundRun(cfg, fails, chunked, sent, w, limit, stats);
      }
    } else if !InStep(Places(chunked, sent)) {
      OutOfStep(cfg, fails, chunked, sent);
    } else {
      UnseenFailure(cfg, fails, chunked, sent);
    }
  }

  /** What storing can report as failed without ending the run: special nodes. */
  function Specials(): File -> bool { (f: File) => f.isSpecial }

  lemma {:induction false} FileAt(sent: seq<Sent>, i: nat)
    requires i < |sent|
    ensures |Files(sent)| == |sent| && Files(sent)[i] == sent[i].file
  {
    if i < |sent| - 1 { FileAt(sent[..|sent| - 1], i); } else if i > 0 { FileAt(sent[..|sent| - 1], 0); }
  }

  lemma SpecialsBeyond(sent: seq<Sent>, m: nat)
    ensures FailsBeyond(Specials(), Files(sent), m) <==> exists s <- sent :: s.file.isSpecial
  {
    forall i | 0 <= i < |sent| ensures |Files(sent)| == |sent| && Files(sent)[i] == sent[i].file { FileAt(sent, i); }
    if s :| s in sent && s.file.isSpecial {
      var i :| 0 <= i < |sent| && sent[i] == s;
      assert Specials()(Files(sent)[i]) && !Counted(Files(sent)[i]);
    }
  }

  /** On the file systems the program knows, where only special nodes fail without ending the
      run, removal is sound in every run if and only if no entry went astray, or the client
      remembers nothing or more than is acknowledged, or those astray come after every
      source and no special node was sent. */
  lemma RemovalSoundForFiles(cfg: Config, chunked: bool, sent: seq<Sent>)
    requires cfg.removeSource && Writes(cfg)
    ensures AlwaysSound(cfg, Specials(), chunked, sent) <==>
      || NoneAstray(chunked, sent)
      || Places(chunked, sent) == [] || |Places(chunked, sent)| > |CountedOf(Files(sent))|
      || (InStep(Places(chunked, sent)) && forall s <- sent :: !s.file.isSpecial)
  {
    RemovalSoundExactly(cfg, Specials(), chunked, sent);
    AlignedExactly(chunked, sent);
    SpecialsBeyond(sent, |Places(chunked, sent)|);
  }

  // ---- A shift ----

  /** An acknowledged entry the client does not remember, then a file it does: when the
      first is stored and the second is not, the client takes the second for removal. */
  lemma ShiftedRun(cfg: Config, w: World, chunked: bool, stray: Sent, file: Sent)
    requires cfg.removeSource && Writes(cfg)
    requires Counted(stray.file) && !Remembered(chunked, stray) && Counted(file.file) && Remembered(chunked, file)
    requires w.save([], stray.file).result == Written && w.save([Store(stray.file)], file.file).result == Skipped
    ensures Places(chunked, [stray, file]) == [Some(1)]
    ensures var (book, ok) := SaveAll(cfg, w, Direct, EmptyBook, Files([stray, file]));
            var v := Verdict(Closing(cfg, [], book.outcomes, FinalStatus(false, book.failed)), true, 1);
            ok && book.outcomes == [Written, Skipped] && v.ok && v.skipped == [false]
  {
    TwoSent(chunked, stray, file);
    TwoSaved(cfg, w, stray.file, file.file);
    ReadsAhead(cfg, [], [Written, Skipped], StatusOk, 1);
  }

  lemma TwoSent(chunked: bool, a: Sent, b: Sent)
    requires Counted(a.file) && !Remembered(chunked, a) && Counted(b.file) && Remembered(chunked, b)
    ensures Files([a, b]) == [a.file, b.file] && Places(chunked, [a, b]) == [Some(1)]
  {
    assert [a, b][..1] == [a] && [a][..0] == [];
    assert Files([a]) == [a.file] && Places(chunked, [a]) == [];
    assert [a.file][..0] == [] && CountedOf([a.file]) == [a.file];
  }

  lemma TwoSaved(cfg: Config, w: World, a: File, b: File)
    requires cfg.removeSource && Writes(cfg) && Counted(a) && Counted(b)
    requires w.save([], a).result == Written && w.save([Store(a)], b).result == Skipped
    ensures var (book, ok) := SaveAll(cfg, w, Direct, EmptyBook, [a, b]);
            ok && book.outcomes == [Written, Skipped] && book.failed == 0
  {
    assert [a, b][..1] == [a] && [a][..0] == [];
    var one := SaveAll(cfg, w, Direct, EmptyBook, [a]);
    assert SaveAll(cfg, w, Direct, EmptyBook, [a][..0]) == (EmptyBook, true);
    assert one == SaveFile(cfg, w, Direct, EmptyBook, a);
    assert one.0.disk == [Store(a)] && one.0.outcomes == [Written] && one.0.failed == 0;
  }

  /** A file system that stores the first entry of a run and skips the others. */
  function FirstOnly(): World {
    World((disk, f) => Saved(if disk == [] then Written else Skipped, false, 0),
          (disk, m) => Commit(CommitOk, 0, []), (disk, m) => [], disk => true,
          (disk, request) => CheckSkip, (disk, request) => true)
  }

  function Entry(path: string, isSymlink: bool): File {
    File(path, 1, false, isSymlink, false, false, false, false, false, 0, 0)
  }

  /** A symlink carried as such before a file; and a file sent in place of a dereferenced
      link before a file: in either case the file is taken for removal though it was not
      stored, in chunks and outside. */
  lemma LinksShiftAcks(cfg: Config, chunked: bool, carried: bool)
    requires cfg.removeSource && Writes(cfg)
    ensures var sent := [Sent(Entry("link", carried), false), Sent(Entry("file", false), true)];
            var (book, ok) := SaveAll(cfg, FirstOnly(), Direct, EmptyBook, Files(sent));
            var v := Verdict(Closing(cfg, [], book.outcomes, FinalStatus(false, book.failed)), true, 1);
            Places(chunked, sent) == [Some(1)] && ok && book.outcomes == [Written, Skipped] && v.ok && v.skipped == [false]
  {
    ShiftedRun(cfg, FirstOnly(), chunked, Sent(Entry("link", carried), false), Sent(Entry("file", false), true));
  }

  // ---- The receiver's run ----

  lemma StepBooks(cfg: Config, w: World, start: int, s: St, t: Timed)
    requires !cfg.deleteBefore && s.turn.GoOn? && StStep(cfg, w, start, s, t).turn.GoOn?
    ensures (StStep(cfg, w, start, s, t).book, true) == SaveAll(cfg, w, Direct, s.book, FilesOf(cfg, w, s.book.disk, t.frame))
  {
  }

  /** While the loop goes on its book is that of everything asked for, saved in order. */
  lemma {:induction false} BookOfRun(cfg: Config, w: World, start: int, ts: seq<Timed>)
    requires !cfg.deleteBefore && StRun(cfg, w, start, ts).turn.GoOn?
    ensures SaveAll(cfg, w, Direct, EmptyBook, Requested(cfg, w, ts)) == (StRun(cfg, w, start, ts).book, true)
  {
    if ts != [] {
      var most, t := ts[..|ts| - 1], ts[|ts| - 1];
      var s := StRun(cfg, w, start, most);
      BookOfRun(cfg, w, start, most);
      LoopMeetsAccount(cfg, w, start, most);
      StepBooks(cfg, w, start, s, t);
      var before := Requested(cfg, w, most);
      SaveAllConcat(cfg, w, Direct, EmptyBook, before, FilesOf(cfg, w, Laid(cfg, before), t.frame));
    }
  }

  lemma CompleteBook(cfg: Config, w: World, start: int, ts: seq<Timed>, k: nat)
    requires !cfg.deleteBefore && FinishesAt(cfg, w, start, ts, k)
    ensures var s := StRun(cfg, w, start, ts);
            s.turn.Complete? && SaveAll(cfg, w, Direct, EmptyBook, Requested(cfg, w, ts[..k])) == (s.book, true)
  {
    LoopMeetsAccount(cfg, w, start, ts[..k]);
    BookOfRun(cfg, w, start, ts[..k]);
    OneMoreFrame(cfg, w, start, ts, k);
    FinishedFrame(cfg, w, start, StRun(cfg, w, start, ts[..k]), ts[k]);
    StoppedLoop(cfg, w, start, ts, k + 1);
  }

  lemma SuccessEndsWithClosing(cfg: Config, w: World, s: St)
    requires SuccessFrame(cfg, w, s).ok
    ensures var stats := StatsReply(cfg, s.book.stats, s.wouldDelete, s.deletedPaths);
            && StatsOrNothing(stats)
            && SuccessFrame(cfg, w, s).wire == s.wire + Closing(cfg, stats, s.book.outcomes, FinalStatus(s.limit, s.book.failed))
  {
    var stats := StatsReply(cfg, s.book.stats, s.wouldDelete, s.deletedPaths);
    var acks, last := Acks(cfg, s.book.outcomes), [Code(FinalStatus(s.limit, s.book.failed))];
    assert s.wire + stats + (acks + last) == s.wire + (stats + acks + last);
  }

  /** The frames of a run end with the closing frames for these outcomes. */
  ghost predicate EndsWith(cfg: Config, wire: seq<Reply>, before: seq<Reply>, stats: seq<Reply>, outcomes: seq<SaveResult>, final: Status) {
    StatsOrNothing(stats) && wire == before + Closing(cfg, stats, outcomes, final)
  }

  /** A successful run ends its wire with the closing frames for its own outcomes, the
      terminal status saying whether a deletion was capped or an entry failed. */
  lemma RunEndsWithClosing(cfg: Config, w: World, start: int, ts: seq<Timed>) returns (before: seq<Reply>, stats: seq<Reply>, limit: bool)
    requires Sequential(cfg, w, start, ts).ok
    ensures var book := StRun(cfg, w, start, ts).book;
            EndsWith(cfg, Sequential(cfg, w, start, ts).wire, before, stats, book.outcomes, FinalStatus(limit, book.failed))
  {
    var s := StRun(cfg, w, start, ts);
    if s.reader.parked.Some? {
      s := CommitManifest(cfg, w, s.(reader := s.reader.(parked := None)), s.reader.parked.value).0;
    }
    SuccessEndsWithClosing(cfg, w, s);
    before, stats, limit := s.wire, StatsReply(cfg, s.book.stats, s.wouldDelete, s.deletedPaths), s.limit;
  }

  /** From the sent entries to the client's verdict: if none went astray, the closing
      frames of a successful run of the receiver are taken whole, and a source is up for
      removal if and only if storing that very entry wrote it and the run ended well. */
  lemma RemovalFollowsStorage(cfg: Config, w: World, start: int, ts: seq<Timed>, k: nat, chunked: bool, sent: seq<Sent>)
    returns (before: seq<Reply>, closing: seq<Reply>)
    requires cfg.removeSource && !cfg.dryRun && !cfg.deleteBefore
    requires FinishesAt(cfg, w, start, ts, k) && Sequential(cfg, w, start, ts).ok
    requires Files(sent) == Requested(cfg, w, ts[..k]) && NoneAstray(chunked, sent)
    ensures Sequential(cfg, w, start, ts).wire == before + closing
    ensures var results := ResultsOf(cfg, w, [], Files(sent));
            var v := Verdict(closing, true, |Places(chunked, sent)|);
            && InStep(Places(chunked, sent)) && |Places(chunked, sent)| == |results|
            && (v.ok ==> v.read == |closing| && forall i :: 0 <= i < |results| ==> (!v.skipped[i] <==> results[i] == Written))
  {
    OutcomesOfRun(cfg, w, start, ts, k);
    NoneAstrayInStep(chunked, sent);
    var results := ResultsOf(cfg, w, [], Files(sent));
    var stats, limit;
    before, stats, limit := RunEndsWithClosing(cfg, w, start, ts);
    var final := FinalStatus(limit, StRun(cfg, w, start, ts).book.failed);
    closing := Closing(cfg, stats, results, final);
    AlignedExchange(cfg, stats, results, final);
  }

  lemma OutcomesOfRun(cfg: Config, w: World, start: int, ts: seq<Timed>, k: nat)
    requires cfg.removeSource && !cfg.dryRun && !cfg.deleteBefore && FinishesAt(cfg, w, start, ts, k)
    ensures var files := Requested(cfg, w, ts[..k]);
            && StRun(cfg, w, start, ts).book.outcomes == ResultsOf(cfg, w, [], files)
            && |ResultsOf(cfg, w, [], files)| == |CountedOf(files)|
  {
    CompleteBook(cfg, w, start, ts, k);
    OutcomesAre(cfg, w, Direct, EmptyBook, Requested(cfg, w, ts[..k]));
  }
}
