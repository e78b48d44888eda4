/** The sender's side of deletion: when a keep-set goes out, what it lists, and how
    --delete-before replays one file list. */
module Sender {
  import opened SourceTree
  import opened Protection

  type Chunk = seq<Item>

  datatype Keep = NoKeep | Keep(names: seq<string>)

  /** Frames the sender puts on the wire. */
  datatype Frame =
    | Data(chunk: Chunk)
    | Manifest(keep: Keep, protect: seq<string>, missing: seq<string>, dirs: seq<string>)
    | Abort
    | Tail

  /** `missing` are the destination paths of source arguments that do not exist. */
  datatype Config = Config(root: string, useDelete: bool, deleteMissing: bool, ignoreErrors: bool, deleteExcluded: bool,
                           missing: seq<string>)

  /** What scanning the source yields. */
  datatype Scan = Scan(chunks: seq<Chunk>, excluded: seq<Path>, sizeSkipped: seq<Path>, failed: bool, ioError: bool)

  /** The world during a run: whether an abort was requested or the stop deadline had
      passed at a given moment, and whether loading and sending the i-th chunk succeeds. */
  datatype World = World(abort: nat -> bool, stop: nat -> bool, load: nat -> bool, send: nat -> bool)

  /** A deadline stays reached. */
  ghost predicate Monotone(stop: nat -> bool) { forall i: nat, j: nat :: i <= j && stop(i) ==> stop(j) }

  // ---- The keep-set ----

  /** The names of a chunk's entries as the manifest lists them. */
  function Names(root: string, items: seq<Item>): seq<string> {
    if items == [] then [] else Names(root, items[..|items| - 1]) + [Wire(root, items[|items| - 1].path)]
  }

  function PathNames(root: string, paths: seq<Path>): seq<string> {
    if paths == [] then [] else PathNames(root, paths[..|paths| - 1]) + [Wire(root, paths[|paths| - 1])]
  }

  /** The protected section; the sinks exist only in a run that deletes. */
  function Protected(cfg: Config, scan: Scan): seq<string> {
    if !cfg.useDelete then []
    else (if cfg.deleteExcluded then [] else PathNames(cfg.root, scan.excluded)) + PathNames(cfg.root, scan.sizeSkipped)
  }

  /** The four sections of a manifest. A recursive run marks the receive root itself as
      synchronized. */
  function ManifestFrame(cfg: Config, scan: Scan, keep: Keep): Frame {
    Manifest(keep, Protected(cfg, scan), cfg.missing, if cfg.useDelete then ["."] else [])
  }

  lemma {:induction false} NamesConcat(root: string, a: seq<Item>, b: seq<Item>)
    ensures Names(root, a + b) == Names(root, a) + Names(root, b)
  {
    if b == [] {
      assert a + b == a;
    } else {
      var n := |b| - 1;
      NamesConcat(root, a, b[..n]);
      assert (a + b)[..|a + b| - 1] == a + b[..n];
    }
  }

  /** add_chunk_to_manifest */
  method AddChunk(root: string, manifest: seq<string>, chunk: Chunk) returns (more: seq<string>)
    ensures more == manifest + Names(root, chunk)
  {
    more := manifest;
    var i := 0;
    while i < |chunk|
      invariant 0 <= i <= |chunk|
      invariant more == manifest + Names(root, chunk[..i])
    {
      var path := FsPath(root, chunk[i].path);
      var name := if path != "" && path[0] == '/' then path[1..] else path;
      assert chunk[..i + 1][..i] == chunk[..i];
      more := more + [name];
      i := i + 1;
    }
    assert chunk[..i] == chunk;
  }

  /** ignore_errors_allows_delete */
  predicate AllowsDelete(cfg: Config, ioError: bool) { !ioError || cfg.ignoreErrors }

  // ---- Late deletion ----

  /** When the deadline is looked at: by the scanner before the i-th chunk, by the loop
      after it, and by the completion tail. */
  function ScanTick(i: nat): nat { 2 * i }
  function LoopTick(i: nat): nat { 2 * i + 1 }
  function TailTick(scan: Scan): nat { 2 * |scan.chunks| + 2 }

  /** Nothing went wrong up to the i-th chunk. */
  ghost predicate Undisturbed(w: World, n: nat) {
    forall i :: 0 <= i < n ==> !w.abort(i) && w.load(i) && w.send(i)
  }

  /** The keep-set may be trusted: the scan ran to its end, no abort was seen, no deadline
      cut it short, and an I/O error is tolerated and left something to keep. */
  ghost predicate Trusted(cfg: Config, scan: Scan, w: World) {
    && !scan.failed
    && Undisturbed(w, |scan.chunks|) && !w.abort(|scan.chunks|)
    && !w.stop(TailTick(scan))
    && (scan.ioError ==> cfg.ignoreErrors)
    && (scan.ioError && cfg.useDelete ==> Joined(scan.chunks) != [])
  }

  /** Nothing kept the loop from the first n chunks. */
  ghost predicate RanThrough(w: World, n: nat) {
    Undisturbed(w, n) && forall i :: 0 <= i < n ==> !w.stop(ScanTick(i)) && !w.stop(LoopTick(i))
  }

  /** With `sent` of n chunks out the loop came to an end of its own: the scan's end, or the
      deadline as the scanner or the loop saw it. */
  ghost predicate WoundUp(w: World, n: nat, sent: nat) {
    sent == n || w.stop(ScanTick(sent)) || (!w.abort(sent) && w.stop(LoopTick(sent)))
  }

  /** It broke off before the next chunk, on an abort or because the chunk failed. */
  ghost predicate BrokeOff(w: World, n: nat, sent: nat) {
    sent < n && !WoundUp(w, n, sent) && (w.abort(sent) || !w.load(sent) || !w.send(sent))
  }

  class LateSender {
    const cfg: Config
    var manifest: Keep
    var stoppedEarly: bool
    var wire: seq<Frame>

    constructor (cfg: Config)
      ensures this.cfg == cfg && !stoppedEarly && wire == []
      ensures manifest == if cfg.useDelete then Keep([]) else NoKeep
    {
      this.cfg := cfg;
      manifest := if cfg.useDelete then Keep([]) else NoKeep;
      stoppedEarly, wire := false, [];
    }

    /** Only data has gone out, the first n chunks in order, and the manifest lists them. */
    ghost predicate Sent(scan: Scan, n: nat)
      reads this
    {
      n <= |scan.chunks| && wire == DataFrames(scan.chunks[..n]) && manifest == KeepOf(cfg, scan.chunks[..n])
    }

    /** Put a chunk that loaded and went out on the wire. */
    method Append(ghost chunks: seq<Chunk>, ghost i: nat, chunk: Chunk)
      requires i < |chunks| && chunks[i] == chunk && wire == DataFrames(chunks[..i])
      modifies `wire
      ensures wire == DataFrames(chunks[..i + 1])
    {
      Next(chunks, i, cfg.root);
      wire := wire + [Data(chunk)];
    }

    /** Give up on a chunk, telling the receiver if an abort was requested. */
    method GiveUp(ghost chunks: seq<Chunk>, abort: bool)
      requires wire == DataFrames(chunks)
      modifies `wire
      ensures wire == old(wire) + if abort then [Abort] else []
    {
      if abort {
        wire := wire + [Abort];
      }
    }

    /** Extend the manifest by a chunk that is about to be sent. */
    method Collect(ghost chunks: seq<Chunk>, ghost i: nat, chunk: Chunk)
      requires i < |chunks| && chunks[i] == chunk && manifest == KeepOf(cfg, chunks[..i])
      modifies `manifest
      ensures manifest == KeepOf(cfg, chunks[..i + 1])
    {
      Next(chunks, i, cfg.root);
      if manifest.Keep? {
        var names := AddChunk(cfg.root, manifest.names, chunk);
        manifest := Keep(names);
      }
    }

    /** send_files_run: stream chunks until the scan ends, the deadline passes, an abort is
        requested or a chunk fails. */
    method Run(scan: Scan, w: World) returns (ok: bool, ghost sent: nat)
      requires manifest == (if cfg.useDelete then Keep([]) else NoKeep) && wire == [] && !stoppedEarly
      modifies this
      ensures ok ==> Sent(scan, sent) && Undisturbed(w, sent)
      ensures ok && stoppedEarly ==> w.stop(LoopTick(sent))
      ensures ok && !stoppedEarly ==> sent == |scan.chunks| || w.stop(ScanTick(sent))
      ensures !ok ==> !Undisturbed(w, |scan.chunks|)
      ensures sent <= |scan.chunks| && RanThrough(w, sent)
      ensures ok ==> WoundUp(w, |scan.chunks|, sent)
      ensures !ok ==> BrokeOff(w, |scan.chunks|, sent)
                      && wire == DataFrames(scan.chunks[..sent]) + if w.abort(sent) then [Abort] else []
    {
      var i := 0;
      assert scan.chunks[..0] == [];
      while true
        invariant Sent(scan, i) && RanThrough(w, i) && !stoppedEarly
        decreases |scan.chunks| - i
      {
        if i == |scan.chunks| || w.stop(ScanTick(i)) {
          return true, i;
        }
        var chunk := scan.chunks[i];
        if w.abort(i) {
          GiveUp(scan.chunks[..i], true);
          return false, i;
        }
        if w.stop(LoopTick(i)) {
          stoppedEarly := true;
          return true, i;
        }
        Collect(scan.chunks, i, chunk);
        if !w.load(i) || !w.send(i) {
          GiveUp(scan.chunks[..i], false);
          return false, i;
        }
        Append(scan.chunks, i, chunk);
        i := i + 1;
      }
    }

    /** send_files_finalize: decide about the keep-set, then the rest of the tail. */
    method Finalize(scan: Scan, w: World) returns (code: int)
      modifies this
      ensures wire == old(wire) + old(TailFrames(cfg, scan, w, manifest, stoppedEarly))
      ensures code == if Tail !in old(TailFrames(cfg, scan, w, manifest, stoppedEarly)) then 1 else if scan.ioError then 23 else 0
    {
      if scan.failed {
        return 1;
      }
      if w.abort(|scan.chunks|) {
        wire := wire + [Abort];
        return 1;
      }
      stoppedEarly := stoppedEarly || w.stop(TailTick(scan));
      if !stoppedEarly {
        if scan.ioError && manifest == Keep([]) {
          return 1;
        }
        if (manifest.Keep? || cfg.deleteMissing) && AllowsDelete(cfg, scan.ioError) {
          wire := wire + [ManifestFrame(cfg, scan, manifest)];
        }
      }
      wire := wire + [Tail];
      code := if scan.ioError then 23 else 0;
    }
  }

  /** The keep-set of some chunks, for a run that deletes. */
  function KeepOf(cfg: Config, chunks: seq<Chunk>): Keep {
    if cfg.useDelete then Keep(Names(cfg.root, Joined(chunks))) else NoKeep
  }

  function DataFrames(chunks: seq<Chunk>): seq<Frame> {
    if chunks == [] then [] else DataFrames(chunks[..|chunks| - 1]) + [Data(chunks[|chunks| - 1])]
  }

  ghost predicate OnlyData(wire: seq<Frame>) { forall f <- wire :: !f.Manifest? }

  lemma {:induction false} OnlyDataFrames(chunks: seq<Chunk>)
    ensures OnlyData(DataFrames(chunks))
  {
    if chunks != [] { OnlyDataFrames(chunks[..|chunks| - 1]); }
  }

  lemma Next(chunks: seq<Chunk>, i: nat, root: string)
    requires i < |chunks|
    ensures DataFrames(chunks[..i + 1]) == DataFrames(chunks[..i]) + [Data(chunks[i])]
    ensures Names(root, Joined(chunks[..i + 1])) == Names(root, Joined(chunks[..i])) + Names(root, chunks[i])
  {
    assert chunks[..i + 1][..i] == chunks[..i];
    NamesConcat(root, Joined(chunks[..i]), chunks[i]);
  }

  /** The frames of the completion tail, by cases. */
  function TailFrames(cfg: Config, scan: Scan, w: World, manifest: Keep, stoppedEarly: bool): seq<Frame> {
    if scan.failed then []
    else if w.abort(|scan.chunks|) then [Abort]
    else if stoppedEarly || w.stop(TailTick(scan)) then [Tail]
    else if scan.ioError && manifest == Keep([]) then []
    else if (manifest.Keep? || cfg.deleteMissing) && AllowsDelete(cfg, scan.ioError)
    then [ManifestFrame(cfg, scan, manifest), Tail]
    else [Tail]
  }

  /** A keep-set is on the wire if and only if deletion was asked for and the scan can be
      trusted; it then follows all the data, and lists exactly the names of everything the
      scan emitted. */
  ghost predicate LateWire(cfg: Config, scan: Scan, w: World, wire: seq<Frame>) {
    && ((exists f <- wire :: f.Manifest?) <==> (cfg.useDelete || cfg.deleteMissing) && Trusted(cfg, scan, w))
    && ((exists f <- wire :: f.Manifest?) ==>
          wire == DataFrames(scan.chunks) + [ManifestFrame(cfg, scan, KeepOf(cfg, scan.chunks)), Tail])
  }

  /** The run is closed in form: no failure, no abort, and not refused for an error that left
      nothing to keep. */
  ghost predicate Closed(cfg: Config, scan: Scan, w: World, sent: nat) {
    && WoundUp(w, |scan.chunks|, sent) && !scan.failed && !w.abort(|scan.chunks|)
    && (scan.ioError && cfg.useDelete && !w.stop(TailTick(scan)) ==> Joined(scan.chunks) != [])
  }

  /** The receiver is told of an abort. */
  ghost predicate AbortTold(scan: Scan, w: World, sent: nat) {
    if WoundUp(w, |scan.chunks|, sent) then !scan.failed && w.abort(|scan.chunks|) else w.abort(sent)
  }

  /** All a late run puts on the wire: the chunks in order up to the first one the deadline,
      an abort or a failure kept back, then no more data; the tail exactly if the run is
      closed in form, as the last frame; and an abort exactly if one was seen. */
  ghost predicate LateAccount(cfg: Config, scan: Scan, w: World, sent: nat, wire: seq<Frame>) {
    && sent <= |scan.chunks| && RanThrough(w, sent)
    && (WoundUp(w, |scan.chunks|, sent) || BrokeOff(w, |scan.chunks|, sent))
    && DataFrames(scan.chunks[..sent]) <= wire
    && (forall f <- wire[|DataFrames(scan.chunks[..sent])|..] :: !f.Data?)
    && (Tail in wire <==> Closed(cfg, scan, w, sent)) && (Tail in wire ==> wire[|wire| - 1] == Tail)
    && (Abort in wire <==> AbortTold(scan, w, sent))
  }

  lemma {:induction false} AllData(chunks: seq<Chunk>)
    ensures forall f <- DataFrames(chunks) :: f.Data?
  {
    if chunks != [] { AllData(chunks[..|chunks| - 1]); }
  }

  /** Frames that are no data after the data of some chunks. */
  lemma AfterData(chunks: seq<Chunk>, end: seq<Frame>)
    requires forall f <- end :: !f.Data?
    ensures var wire := DataFrames(chunks) + end;
            && DataFrames(chunks) <= wire && wire[|DataFrames(chunks)|..] == end
            && (forall f: Frame :: !f.Data? ==> (f in wire <==> f in end))
  {
    AllData(chunks);
  }

  lemma BrokenOffRun(cfg: Config, scan: Scan, w: World, sent: nat, wire: seq<Frame>)
    requires sent <= |scan.chunks| && RanThrough(w, sent) && BrokeOff(w, |scan.chunks|, sent)
    requires wire == DataFrames(scan.chunks[..sent]) + if w.abort(sent) then [Abort] else []
    ensures LateAccount(cfg, scan, w, sent, wire)
    ensures OnlyData(wire)
  {
    AfterData(scan.chunks[..sent], if w.abort(sent) then [Abort] else []);
    OnlyDataFrames(scan.chunks[..sent]);
  }

  /** What the tail holds, said from the scan and the world. */
  lemma TailHolds(cfg: Config, scan: Scan, w: World, sent: nat, manifest: Keep, stopped: bool)
    requires Monotone(w.stop) && sent <= |scan.chunks| && WoundUp(w, |scan.chunks|, sent)
    requires stopped ==> w.stop(LoopTick(sent))
    requires !stopped ==> sent == |scan.chunks| || w.stop(ScanTick(sent))
    requires manifest == KeepOf(cfg, scan.chunks[..sent])
    ensures var end := TailFrames(cfg, scan, w, manifest, stopped);
            && (forall f <- end :: !f.Data?)
            && (Tail in end <==> Closed(cfg, scan, w, sent)) && (Tail in end ==> end[|end| - 1] == Tail)
            && (Abort in end <==> AbortTold(scan, w, sent))
  {
    assert w.stop(LoopTick(sent)) || w.stop(ScanTick(sent)) ==> w.stop(TailTick(scan));
    if sent == |scan.chunks| { assert scan.chunks[..sent] == scan.chunks; }
  }

  lemma WoundUpRun(cfg: Config, scan: Scan, w: World, sent: nat, end: seq<Frame>)
    requires sent <= |scan.chunks| && RanThrough(w, sent) && WoundUp(w, |scan.chunks|, sent)
    requires forall f <- end :: !f.Data?
    requires (Tail in end <==> Closed(cfg, scan, w, sent)) && (Tail in end ==> end[|end| - 1] == Tail)
    requires Abort in end <==> AbortTold(scan, w, sent)
    ensures LateAccount(cfg, scan, w, sent, DataFrames(scan.chunks[..sent]) + end)
  {
    AfterData(scan.chunks[..sent], end);
  }

  /** A late run. */
  method SendLate(cfg: Config, scan: Scan, w: World) returns (wire: seq<Frame>, ghost sent: nat)
    requires Monotone(w.stop)
    ensures LateWire(cfg, scan, w, wire)
    ensures LateAccount(cfg, scan, w, sent, wire)
  {
    var sender := new LateSender(cfg);
    var ok;
    ok, sent := sender.Run(scan, w);
    if !ok {
      BrokenOffRun(cfg, scan, w, sent, sender.wire);
      return sender.wire, sent;
    }
    ghost var keep, stopped := sender.manifest, sender.stoppedEarly;
    var code := sender.Finalize(scan, w);
    wire := sender.wire;
    ghost var end := TailFrames(cfg, scan, w, keep, stopped);
    TailHolds(cfg, scan, w, sent, keep, stopped);
    WoundUpRun(cfg, scan, w, sent, end);
    Decided(cfg, scan, w, sent, keep, stopped);
    Announced(cfg, scan, w, sent, end);
  }

  lemma Announced(cfg: Config, scan: Scan, w: World, sent: nat, end: seq<Frame>)
    requires sent <= |scan.chunks|
    requires (exists f <- end :: f.Manifest?) <==> (cfg.useDelete || cfg.deleteMissing) && Trusted(cfg, scan, w)
    requires (exists f <- end :: f.Manifest?) ==>
      scan.chunks[..sent] == scan.chunks && end == [ManifestFrame(cfg, scan, KeepOf(cfg, scan.chunks)), Tail]
    ensures LateWire(cfg, scan, w, DataFrames(scan.chunks[..sent]) + end)
  {
    var data := DataFrames(scan.chunks[..sent]);
    OnlyDataFrames(scan.chunks[..sent]);
    if f :| f in end && f.Manifest? { assert f in data + end; }
  }

  lemma Decided(cfg: Config, scan: Scan, w: World, sent: nat, manifest: Keep, stopped: bool)
    requires Monotone(w.stop) && sent <= |scan.chunks| && Undisturbed(w, sent)
    requires stopped ==> w.stop(LoopTick(sent))
    requires !stopped ==> sent == |scan.chunks| || w.stop(ScanTick(sent))
    requires manifest == KeepOf(cfg, scan.chunks[..sent])
    ensures (exists f <- TailFrames(cfg, scan, w, manifest, stopped) :: f.Manifest?)
       <==> (cfg.useDelete || cfg.deleteMissing) && Trusted(cfg, scan, w)
    ensures (exists f <- TailFrames(cfg, scan, w, manifest, stopped) :: f.Manifest?) ==> scan.chunks[..sent] == scan.chunks
  {
    assert w.stop(LoopTick(sent)) || w.stop(ScanTick(sent)) ==> w.stop(TailTick(scan));
    if sent == |scan.chunks| { assert scan.chunks[..sent] == scan.chunks; }
    if !w.stop(TailTick(scan)) && !scan.failed && !w.abort(|scan.chunks|) {
      if !(scan.ioError && manifest == Keep([])) && (manifest.Keep? || cfg.deleteMissing) && AllowsDelete(cfg, scan.ioError) {
        assert TailFrames(cfg, scan, w, manifest, stopped)[0].Manifest?;
      }
    }
  }
}
