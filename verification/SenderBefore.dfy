/** --delete-before: the scan that builds the keep-set is also the file list of the
    data pass. */
module SenderBefore {
  import opened SourceTree
  import opened ParallelSplit
  import opened Sender

  /** What the wait for the receiver's answer comes to; it ends without one when it takes
      too long, when the connection is lost, or when the user aborts the run. */
  datatype Reply = Accepted | Refused | Silence(aborted: bool)

  /** 0, 1, .., n - 1 */
  function Upto(n: nat): seq<nat> { if n == 0 then [] else Upto(n - 1) + [n - 1] }

  /** What the pre-scan leads to. */
  datatype Verdict = Fail | Proceed | Ask

  function Judge(cfg: Config, scan: Scan): Verdict {
    if scan.failed then Fail
    else if scan.ioError && Names(cfg.root, Joined(scan.chunks)) == [] then Fail
    else if !AllowsDelete(cfg, scan.ioError) then Proceed
    else Ask
  }

  lemma NoNames(root: string, items: seq<Item>)
    ensures Names(root, items) == [] <==> items == []
  {
  }

  /** The keep-set goes out exactly after a scan that did not fail and either met no error or
      was told to ignore errors and still found something; a scan that met an error and was
      not told so sends its data without deleting, if it found any. */
  lemma JudgedExactly(cfg: Config, scan: Scan)
    ensures Judge(cfg, scan).Ask? <==> !scan.failed && (scan.ioError ==> cfg.ignoreErrors && Joined(scan.chunks) != [])
    ensures Judge(cfg, scan).Proceed? <==> !scan.failed && scan.ioError && !cfg.ignoreErrors && Joined(scan.chunks) != []
  {
    NoNames(cfg.root, Joined(scan.chunks));
  }

  function EarlyManifest(cfg: Config, scan: Scan): Frame {
    ManifestFrame(cfg, scan, Keep(Names(cfg.root, Joined(scan.chunks))))
  }

  /** What goes out before any data. */
  function Preamble(cfg: Config, scan: Scan, reply: Reply): seq<Frame> {
    if !Judge(cfg, scan).Ask? then []
    else [EarlyManifest(cfg, scan)] + if reply == Silence(true) then [Abort] else []
  }

  /** Whether the data pass is entered. */
  predicate Cleared(cfg: Config, scan: Scan, reply: Reply) {
    Judge(cfg, scan).Proceed? || (Judge(cfg, scan).Ask? && reply.Accepted?)
  }

  /** What goes out first and whether data may follow, from the scan and the reply. */
  lemma ClearedExactly(cfg: Config, scan: Scan, reply: Reply)
    ensures var asks := !scan.failed && (scan.ioError ==> cfg.ignoreErrors && Joined(scan.chunks) != []);
            && (EarlyManifest(cfg, scan) in Preamble(cfg, scan, reply) <==> asks)
            && (Abort in Preamble(cfg, scan, reply) <==> asks && reply == Silence(true))
            && (asks ==> Preamble(cfg, scan, reply)[0] == EarlyManifest(cfg, scan))
            && |Preamble(cfg, scan, reply)| <= 2
            && (Cleared(cfg, scan, reply) <==>
                  if asks then reply == Accepted else !scan.failed && !cfg.ignoreErrors && Joined(scan.chunks) != [])
  {
    JudgedExactly(cfg, scan);
  }

  /** Nothing stood in the way of the first n chunks. */
  ghost predicate Unhindered(w: World, n: nat) {
    Undisturbed(w, n) && forall i :: 0 <= i < n ==> !w.stop(LoopTick(i))
  }

  /** Something stood in the way of the n-th chunk: an abort, the deadline, or the chunk. */
  ghost predicate Hindered(w: World, n: nat) {
    w.abort(n) || w.stop(LoopTick(n)) || !w.load(n) || !w.send(n)
  }

  /** What follows the data when `sent` of n chunks went out: an abort is told, a chunk that
      failed ends the run without a word, and otherwise comes the tail. */
  function Closing(w: World, n: nat, sent: nat): seq<Frame> {
    if sent < n && w.abort(sent) then [Abort]
    else if sent < n && !w.stop(LoopTick(sent)) then []
    else if w.abort(n) then [Abort] else [Tail]
  }

  /** The tail comes exactly if the list or the deadline ended the pass and no abort was seen
      by then; an abort is told exactly if it stopped the pass or was seen at its end. */
  lemma ClosingExactly(w: World, n: nat, sent: nat)
    requires sent <= n && (sent < n ==> Hindered(w, sent))
    ensures var ended := sent == n || (!w.abort(sent) && w.stop(LoopTick(sent)));
            && (Tail in Closing(w, n, sent) <==> ended && !w.abort(n))
            && (Abort in Closing(w, n, sent) <==> if ended then w.abort(n) else w.abort(sent))
            && |Closing(w, n, sent)| <= 1 && OnlyData(Closing(w, n, sent))
  {
  }

  /** The data pass sent all chunks up to the first one hindered, then closed. */
  ghost predicate Streamed(w: World, before: seq<Frame>, chunks: seq<Chunk>, sent: nat, wire: seq<Frame>) {
    && sent <= |chunks| && Unhindered(w, sent) && (sent < |chunks| ==> Hindered(w, sent))
    && wire == before + DataFrames(chunks[..sent]) + Closing(w, |chunks|, sent)
  }

  class ReplaySender {
    const cfg: Config
    /** The retained chunks; a slot is emptied when its chunk is taken out. */
    var chunks: array<Slot<Chunk>>
    var wire: seq<Frame>
    /** Which chunks were destroyed, in order. */
    ghost var freed: seq<nat>

    /** The first n chunks were taken and destroyed, the others are still held. */
    ghost predicate Holds(all: seq<Chunk>, n: nat)
      reads this, chunks
    {
      && chunks.Length == |all| && n <= |all| && freed == Upto(n)
      && forall i :: 0 <= i < |all| ==> chunks[i] == if i < n then Empty else Full(all[i])
    }

    constructor (cfg: Config, all: seq<Chunk>)
      ensures this.cfg == cfg && wire == [] && fresh(chunks) && Holds(all, 0)
    {
      this.cfg := cfg;
      var held := new Slot<Chunk>[|all|](i requires 0 <= i < |all| => Full(all[i]));
      chunks, wire, freed := held, [], [];
    }

    /** send_files_prepare_delete for --delete-before. */
    method Prepare(scan: Scan, reply: Reply) returns (go: bool)
      modifies `wire
      ensures wire == old(wire) + Preamble(cfg, scan, reply) && (go <==> Cleared(cfg, scan, reply))
    {
      if scan.failed {
        return false;
      }
      var manifest: seq<string> := [];
      var i := 0;
      assert scan.chunks[..0] == [];
      while i < |scan.chunks|
        invariant 0 <= i <= |scan.chunks|
        invariant manifest == Names(cfg.root, Joined(scan.chunks[..i]))
        invariant wire == old(wire)
      {
        Next(scan.chunks, i, cfg.root);
        manifest := AddChunk(cfg.root, manifest, scan.chunks[i]);
        i := i + 1;
      }
      assert scan.chunks[..i] == scan.chunks;
      if scan.ioError && |manifest| == 0 {
        return false;
      }
      if !AllowsDelete(cfg, scan.ioError) {
        return true;
      }
      wire := wire + [ManifestFrame(cfg, scan, Keep(manifest))];
      if reply == Silence(true) {
        wire := wire + [Abort];
      }
      go := reply.Accepted?;
    }

    /** Take a chunk out of its slot and destroy it. */
    method Consume(ghost all: seq<Chunk>, i: nat)
      requires Holds(all, i) && i < |all|
      modifies chunks, `freed
      ensures Holds(all, i + 1)
    {
      chunks[i] := Empty;
      freed := freed + [i];
    }

    /** Put a chunk that loaded and went out on the wire. */
    method Append(ghost before: seq<Frame>, ghost all: seq<Chunk>, ghost i: nat, chunk: Chunk)
      requires i < |all| && all[i] == chunk && wire == before + DataFrames(all[..i])
      modifies `wire
      ensures wire == before + DataFrames(all[..i + 1])
    {
      Next(all, i, cfg.root);
      wire := wire + [Data(chunk)];
    }

    /** send_files_run over the retained list. */
    method Replay(ghost all: seq<Chunk>, w: World) returns (ok: bool, sent: nat, ghost taken: nat)
      requires Holds(all, 0)
      modifies this, chunks
      ensures chunks == old(chunks) && Holds(all, taken) && sent <= taken && Unhindered(w, sent)
      ensures ok && sent < |all| ==> !w.abort(sent) && w.stop(LoopTick(sent))
      ensures !ok ==> sent < |all| && (w.abort(sent) || (!w.stop(LoopTick(sent)) && (!w.load(sent) || !w.send(sent))))
      ensures wire == old(wire) + DataFrames(all[..sent]) + if !ok && w.abort(sent) then [Abort] else []
    {
      sent, taken := 0, 0;
      assert all[..0] == [];
      while sent < chunks.Length
        invariant chunks == old(chunks) && Holds(all, sent) && taken == sent && Unhindered(w, sent)
        invariant wire == old(wire) + DataFrames(all[..sent])
      {
        var chunk := chunks[sent].value;
        Consume(all, sent);
        taken := sent + 1;
        if w.abort(sent) {
          wire := wire + [Abort];
          return false, sent, taken;
        }
        if w.stop(LoopTick(sent)) {
          return true, sent, taken;
        }
        if !w.load(sent) || !w.send(sent) {
          return false, sent, taken;
        }
        Append(old(wire), all, sent, chunk);
        sent := sent + 1;
      }
      ok := true;
    }

    /** The data pass and what follows it. */
    method Transfer(ghost all: seq<Chunk>, w: World) returns (sent: nat)
      requires Holds(all, 0)
      modifies this, chunks
      ensures Holds(all, |all|) && Streamed(w, old(wire), all, sent, wire)
    {
      var ok;
      ghost var taken;
      ok, sent, taken := Replay(all, w);
      if ok {
        wire := wire + [if w.abort(chunks.Length) then Abort else Tail];
      }
      Cleanup(all, taken);
    }

    /** send_files_cleanup: destroy what is still held. */
    method Cleanup(ghost all: seq<Chunk>, ghost taken: nat)
      requires Holds(all, taken)
      modifies chunks, `freed
      ensures Holds(all, |all|)
    {
      var i := 0;
      while i < chunks.Length
        invariant 0 <= i <= chunks.Length
        invariant Holds(all, if i < taken then taken else i)
      {
        if chunks[i].Full? {
          Consume(all, i);
        }
        i := i + 1;
      }
    }
  }

  /** What a run of --delete-before puts on the wire: no data goes out unless the receiver
      accepted the keep-set or deletion was suppressed by a scan error; and then the data
      pass sends exactly the chunks the keep-set lists, in order, up to the first one
      hindered. */
  ghost predicate BeforeWire(cfg: Config, scan: Scan, w: World, reply: Reply, sent: nat, wire: seq<Frame>) {
    if Cleared(cfg, scan, reply) then Streamed(w, Preamble(cfg, scan, reply), scan.chunks, sent, wire)
    else sent == 0 && wire == Preamble(cfg, scan, reply)
  }

  /** The whole run; every retained chunk is destroyed exactly once, and a cleared run that
      nothing hinders sends everything. */
  method SendBefore(cfg: Config, scan: Scan, w: World, reply: Reply)
    returns (wire: seq<Frame>, sent: nat, ghost freed: seq<nat>)
    ensures BeforeWire(cfg, scan, w, reply, sent, wire) && freed == Upto(|scan.chunks|)
    ensures Cleared(cfg, scan, reply) && Unhindered(w, |scan.chunks|) && !w.abort(|scan.chunks|) ==>
      wire == Preamble(cfg, scan, reply) + DataFrames(scan.chunks) + [Tail]
  {
    var sender := new ReplaySender(cfg, scan.chunks);
    var go := sender.Prepare(scan, reply);
    if go {
      sent := sender.Transfer(scan.chunks, w);
      assert sent == |scan.chunks| ==> scan.chunks[..sent] == scan.chunks;
    } else {
      sent := 0;
      sender.Cleanup(scan.chunks, 0);
    }
    wire, freed := sender.wire, sender.freed;
  }
}
