/** The per-file conversation of an incremental run: check, verdict, and one of whole
    file, delta, or append tail. */
module Handshake {

  type Bytes = seq<bv8>

  datatype Config = Config(reportDest: bool, dryRun: bool, appendVerify: bool, delta: bool)

  /** What the receiver can say. A signature or an offset may fail to arrive intact. */
  datatype Said = Ok | Next | Error | DestInfo | Signature(intact: bool) | Append(intact: bool, offset: nat)
                | AppendOk | DryRunTransfer | Other

  /** What the sender says. AppendSig stands for the 64-bit hash of the prefix it carries. */
  datatype Say = Check | GoAhead | Fault | DeltaData | AppendSig(prefix: Bytes) | AppendData(tail: Bytes) | Whole(content: Bytes)

  datatype Event = Sent(say: Say) | Got(said: Said)

  // ---- The protocol, as the receiver follows it ----

  /** Signed: a signature awaits its answer. Clear: the receiver is reading a whole file.
      Resume: it offered to keep `offset` bytes; Proving: it is comparing that prefix;
      Proven: it is reading a tail. Garbled: it awaits an error. */
  datatype Phase = Idle | Asked | Told | Signed | Clear | Resume(offset: nat) | Proving(offset: nat)
                 | Proven(offset: nat) | Garbled | Over | Wrong

  function Hear(cfg: Config, p: Phase, said: Said): Phase {
    if p.Asked? && cfg.reportDest then (if said.DestInfo? then Told else Garbled)
    else if p.Asked? || p.Told? then
      match said
      case Ok => Over
      case Error => Over
      case Next => Clear
      case Signature(_) => Signed
      case Append(true, offset) => Resume(offset)
      case _ => Garbled
    else if p.Proving? then
      match said
      case Next => Clear
      case AppendOk => Proven(p.offset)
      case _ => Garbled
    else Wrong
  }

  function Speak(cfg: Config, source: Bytes, p: Phase, say: Say): Phase {
    match say
    case Check => if p.Idle? then Asked else Wrong
    case GoAhead => if p.Signed? then Clear else Wrong
    case DeltaData => if p.Signed? then Over else Wrong
    case Fault => if p.Signed? || p.Garbled? || p.Resume? then Over else Wrong
    case Whole(content) => if p.Clear? && content == source then Over else Wrong
    case AppendSig(prefix) =>
      if p.Resume? && cfg.appendVerify && p.offset < |source| && prefix == source[..p.offset] then Proving(p.offset) else Wrong
    case AppendData(tail) =>
      if ((p.Resume? && !cfg.appendVerify) || p.Proven?) && p.offset < |source| && tail == source[p.offset..] then Over else Wrong
  }

  function Take(cfg: Config, source: Bytes, p: Phase, e: Event): Phase {
    match e
    case Sent(say) => Speak(cfg, source, p, say)
    case Got(said) => Hear(cfg, p, said)
  }

  function Follow(cfg: Config, source: Bytes, trace: seq<Event>): Phase {
    if trace == [] then Idle
    else Take(cfg, source, Follow(cfg, source, trace[..|trace| - 1]), trace[|trace| - 1])
  }

  lemma FollowOne(cfg: Config, source: Bytes, trace: seq<Event>, e: Event)
    ensures Follow(cfg, source, trace + [e]) == Take(cfg, source, Follow(cfg, source, trace), e)
  {
    assert (trace + [e])[..|trace + [e]| - 1] == trace;
  }

  // ---- What following the protocol implies, for every trace ----

  predicate Payload(e: Event) { e.Sent? && (e.say.Whole? || e.say.DeltaData? || e.say.AppendData?) }

  function Payloads(trace: seq<Event>): nat {
    if trace == [] then 0 else Payloads(trace[..|trace| - 1]) + if Payload(trace[|trace| - 1]) then 1 else 0
  }

  predicate Answer(e: Event) { e.Sent? && (e.say.DeltaData? || e.say.GoAhead? || e.say.Fault?) }

  lemma {:induction false} WrongStays(cfg: Config, source: Bytes, trace: seq<Event>, i: nat)
    requires i <= |trace| && Follow(cfg, source, trace[..i]).Wrong?
    ensures Follow(cfg, source, trace).Wrong?
  {
    if i == |trace| {
      assert trace[..i] == trace;
    } else {
      var n := |trace| - 1;
      assert trace[..n][..i] == trace[..i];
      WrongStays(cfg, source, trace[..n], i);
    }
  }

  lemma StepAt(cfg: Config, source: Bytes, trace: seq<Event>, i: nat)
    requires i < |trace| && !Follow(cfg, source, trace).Wrong?
    ensures !Follow(cfg, source, trace[..i]).Wrong? && !Follow(cfg, source, trace[..i + 1]).Wrong?
    ensures Follow(cfg, source, trace[..i + 1]) == Take(cfg, source, Follow(cfg, source, trace[..i]), trace[i])
  {
    assert trace[..i + 1] == trace[..i] + [trace[i]];
    FollowOne(cfg, source, trace[..i], trace[i]);
    if Follow(cfg, source, trace[..i + 1]).Wrong? { WrongStays(cfg, source, trace, i + 1); }
  }

  /** A whole file is the source itself, and goes out only right after a NEXT from the
      receiver, or after the sender answered a signature with NEXT. */
  lemma WholeOnlyWhenWanted(cfg: Config, source: Bytes, trace: seq<Event>, i: nat)
    requires i < |trace| && !Follow(cfg, source, trace).Wrong? && trace[i].Sent? && trace[i].say.Whole?
    ensures trace[i].say.content == source
    ensures i > 0 && (trace[i - 1] == Got(Next) || (trace[i - 1] == Sent(GoAhead) && i > 1 && trace[i - 2].Got? && trace[i - 2].said.Signature?))
  {
    assert trace[..0] == [];
    StepAt(cfg, source, trace, i);
    StepAt(cfg, source, trace, i - 1);
    if trace[i - 1] == Sent(GoAhead) { StepAt(cfg, source, trace, i - 2); }
  }

  lemma {:induction false} NoAnswerYet(cfg: Config, source: Bytes, trace: seq<Event>)
    requires var p := Follow(cfg, source, trace); p.Idle? || p.Asked? || p.Told? || p.Signed?
    ensures forall j :: 0 <= j < |trace| ==> !Answer(trace[j])
  {
    if trace != [] {
      var n := |trace| - 1;
      NoAnswerYet(cfg, source, trace[..n]);
      assert trace == trace[..n] + [trace[n]];
    }
  }

  lemma OverIsLast(cfg: Config, source: Bytes, trace: seq<Event>, i: nat)
    requires i <= |trace| && !Follow(cfg, source, trace).Wrong? && Follow(cfg, source, trace[..i]).Over?
    ensures i == |trace|
  {
    if i < |trace| { StepAt(cfg, source, trace, i); }
  }

  lemma NoAnswerAfter(cfg: Config, source: Bytes, trace: seq<Event>, k: nat)
    requires k <= |trace| && !Follow(cfg, source, trace).Wrong?
    requires Follow(cfg, source, trace[..k]).Over? || Follow(cfg, source, trace[..k]).Clear?
    ensures forall j :: k <= j < |trace| ==> !Answer(trace[j])
  {
    if Follow(cfg, source, trace[..k]).Over? {
      OverIsLast(cfg, source, trace, k);
    } else if k < |trace| {
      StepAt(cfg, source, trace, k);
      OverIsLast(cfg, source, trace, k + 1);
    }
  }

  /** A signature gets exactly one answer: a delta, NEXT or an error, right after it. */
  lemma SignatureAnsweredOnce(cfg: Config, source: Bytes, trace: seq<Event>, i: nat)
    requires i < |trace| && Follow(cfg, source, trace[..i + 1]).Signed?
    requires !Follow(cfg, source, trace).Wrong? && !Follow(cfg, source, trace).Signed?
    ensures i + 1 < |trace| && Answer(trace[i + 1])
    ensures forall j :: 0 <= j < |trace| && j != i + 1 ==> !Answer(trace[j])
  {
    assert trace[..|trace|] == trace;
    StepAt(cfg, source, trace, i + 1);
    NoAnswerYet(cfg, source, trace[..i + 1]);
    forall j | 0 <= j < i + 1 ensures !Answer(trace[j]) { assert trace[..i + 1][j] == trace[j]; }
    NoAnswerAfter(cfg, source, trace, i + 2);
  }

  /** Each phase says how many payloads and answers went before. */
  lemma {:induction false} PayloadCount(cfg: Config, source: Bytes, trace: seq<Event>)
    requires !Follow(cfg, source, trace).Wrong?
    ensures Payloads(trace) <= 1
    ensures !Follow(cfg, source, trace).Over? ==> Payloads(trace) == 0
  {
    if trace != [] {
      var n := |trace| - 1;
      StepAt(cfg, source, trace, n);
      assert trace[..n + 1] == trace;
      PayloadCount(cfg, source, trace[..n]);
    }
  }

  /** A tail goes out only for an offset the receiver named and the source exceeds; it is
      exactly the rest of the source; and under --append-verify the receiver accepted the
      prefix just before. */
  lemma TailIsTheRest(cfg: Config, source: Bytes, trace: seq<Event>, i: nat)
    requires i < |trace| && !Follow(cfg, source, trace).Wrong? && trace[i].Sent? && trace[i].say.AppendData?
    ensures i > 0 && var p := Follow(cfg, source, trace[..i]);
            && (p.Resume? || p.Proven?) && p.offset < |source| && trace[i].say.tail == source[p.offset..]
            && (cfg.appendVerify ==> trace[i - 1] == Got(AppendOk))
            && (!cfg.appendVerify ==> trace[i - 1] == Got(Append(true, p.offset)))
  {
    assert trace[..0] == [];
    StepAt(cfg, source, trace, i);
    StepAt(cfg, source, trace, i - 1);
  }

  /** What the receiver has when it appends a tail to the bytes it kept is the source exactly
      if those bytes are the source's first; and under --append-verify it accepted the tail
      only after it was sent the source's first bytes, as many as it kept, to compare. */
  lemma AppendRestores(cfg: Config, source: Bytes, trace: seq<Event>, i: nat, kept: Bytes)
    requires i < |trace| && !Follow(cfg, source, trace).Wrong? && trace[i].Sent? && trace[i].say.AppendData?
    requires Follow(cfg, source, trace[..i]) in {Resume(|kept|), Proven(|kept|)}
    ensures |kept| < |source| && (kept + trace[i].say.tail == source <==> kept == source[..|kept|])
    ensures cfg.appendVerify ==> i > 1 && trace[i - 2] == Sent(AppendSig(source[..|kept|]))
  {
    TailIsTheRest(cfg, source, trace, i);
    assert source == source[..|kept|] + source[|kept|..];
    if kept + trace[i].say.tail == source { assert kept == source[..|kept|]; }
    if cfg.appendVerify {
      assert trace[..0] == [];
      StepAt(cfg, source, trace, i - 1);
      StepAt(cfg, source, trace, i - 2);
    }
  }

  // ---- The sender ----

  datatype Reply = Nothing | Reply(said: Said)

  datatype Verdict = Failed | Unchanged | SendWhole | HaveSignature | KeepPrefix(offset: nat) | WouldTransfer

  // ---- What the replies ask for ----

  /** What comes before the verdict: a report on the destination, where that is asked for. */
  function Prelude(cfg: Config): seq<Said> { if cfg.reportDest then [DestInfo] else [] }

  /** A verdict arrived, after what has to come before it. */
  predicate Answered(cfg: Config, replies: seq<Said>) { Prelude(cfg) <= replies && |replies| > |Prelude(cfg)| }

  function Decisive(cfg: Config, replies: seq<Said>): Said
    requires Answered(cfg, replies)
  {
    replies[|Prelude(cfg)|]
  }

  /** The sender can act on the verdict; one that did not arrive intact counts as a fault. */
  predicate Usable(cfg: Config, said: Said) {
    said in {Ok, Next, Signature(true)} || (said.Append? && said.intact) || (said.DryRunTransfer? && cfg.dryRun)
  }

  function Meaning(said: Said): Verdict {
    match said
    case Ok => Unchanged
    case Next => SendWhole
    case Signature(_) => HaveSignature
    case Append(_, offset) => KeepPrefix(offset)
    case DryRunTransfer => WouldTransfer
    case _ => Failed
  }

  /** A tail or, after a comparison that failed, the whole file is due. */
  predicate Resumes(cfg: Config, source: Bytes, offset: nat, rest: seq<Said>) {
    offset < |source| && (cfg.appendVerify ==> rest != [] && (rest[0].Next? || rest[0].AppendOk?))
  }

  /** A payload is due after a verdict and what follows it. */
  predicate Asks(cfg: Config, source: Bytes, said: Said, rest: seq<Said>) {
    || said in {Next, Signature(true)}
    || (said.Append? && said.intact && Resumes(cfg, source, said.offset, rest))
  }

  /** Which one: a delta for a signature if that is possible and pays, the tail for bytes the
      receiver keeps, and the whole file otherwise. */
  function Owed(cfg: Config, source: Bytes, delta: bool, said: Said, rest: seq<Said>): Say
    requires Asks(cfg, source, said, rest)
  {
    if said.Signature? && delta then DeltaData
    else if said.Append? && !(cfg.appendVerify && rest[0].Next?) then AppendData(source[said.offset..])
    else Whole(source)
  }

  class Conversation {
    const cfg: Config
    const source: Bytes
    /** Replies still to be read; reading past the end is a receive failure. */
    var replies: seq<Said>
    var trace: seq<Event>

    constructor (cfg: Config, source: Bytes, replies: seq<Said>)
      ensures this.cfg == cfg && this.source == source && this.replies == replies && Now() == Idle
    {
      this.cfg, this.source, this.replies, trace := cfg, source, replies, [];
    }

    ghost function Now(): Phase
      reads `trace
    {
      Follow(cfg, source, trace)
    }

    ghost function Last(): Event
      reads `trace
    {
      if trace == [] then Got(Other) else trace[|trace| - 1]
    }

    method Say(say: Say)
      modifies `trace
      ensures Now() == Speak(cfg, source, old(Now()), say)
      ensures Payloads(trace) == old(Payloads(trace)) + (if Payload(Sent(say)) then 1 else 0)
      ensures Last() == Sent(say)
    {
      FollowOne(cfg, source, trace, Sent(say));
      trace := trace + [Sent(say)];
      assert trace[..|trace| - 1] == old(trace);
    }

    method Listen() returns (reply: Reply)
      modifies `trace, `replies
      ensures reply.Nothing? ==> Now() == old(Now())
      ensures reply.Reply? ==> Now() == Hear(cfg, old(Now()), reply.said)
      ensures Payloads(trace) == old(Payloads(trace))
      ensures reply == if old(replies) == [] then Nothing else Reply(old(replies)[0])
      ensures replies == if old(replies) == [] then [] else old(replies)[1..]
    {
      if |replies| == 0 {
        return Nothing;
      }
      var said := replies[0];
      FollowOne(cfg, source, trace, Got(said));
      trace, replies := trace + [Got(said)], replies[1..];
      assert trace[..|trace| - 1] == old(trace);
      reply := Reply(said);
    }

    /** The receiver waits for nothing, or the connection ended while the sender waited. */
    ghost predicate Settled()
      reads `trace
    {
      Now().Over? || Now().Asked? || Now().Told? || Now().Proving?
    }

    /** The request and the wait for a verdict, with the report that may precede it. */
    method Ask() returns (reply: Reply)
      requires Now().Idle?
      modifies `trace, `replies
      ensures Payloads(trace) == old(Payloads(trace))
      ensures reply.Nothing? <==> !Answered(cfg, old(replies))
      ensures reply.Nothing? ==> Settled()
      ensures reply.Reply? ==>
        && reply.said == Decisive(cfg, old(replies)) && Now() == Hear(cfg, Told, reply.said)
        && replies == old(replies)[|Prelude(cfg)| + 1..]
    {
      Say(Check);
      reply := Listen();
      if reply.Nothing? {
        return;
      }
      if cfg.reportDest {
        if !reply.said.DestInfo? {
          Say(Fault);
          return Nothing;
        }
        reply := Listen();
      }
    }

    /** What a verdict means; one the sender cannot act on is answered with an error. */
    method Weigh(said: Said) returns (v: Verdict)
      requires Now() == Hear(cfg, Told, said)
      modifies `trace
      ensures Payloads(trace) == old(Payloads(trace))
      ensures v == if Usable(cfg, said) then Meaning(said) else Failed
      ensures if v.Failed? then Now().Over? else Now() == old(Now())
    {
      match said {
        case Error => return Failed;
        case Ok => return Unchanged;
        case Next => return SendWhole;
        case Signature(intact) =>
          if !intact {
            Say(Fault);
            return Failed;
          }
          return HaveSignature;
        case Append(intact, offset) =>
          if !intact {
            Say(Fault);
            return Failed;
          }
          return KeepPrefix(offset);
        case DryRunTransfer =>
          if cfg.dryRun {
            return WouldTransfer;
          }
          Say(Fault);
          return Failed;
        case _ =>
          Say(Fault);
          return Failed;
      }
    }

    /** incremental_check */
    method IncrementalCheck() returns (v: Verdict)
      requires Now().Idle?
      modifies `trace, `replies
      ensures Payloads(trace) == old(Payloads(trace))
      ensures match v
              case Failed => Settled()
              case Unchanged => Now().Over?
              case SendWhole => Now().Clear?
              case HaveSignature => Now().Signed?
              case KeepPrefix(offset) => Now() == Resume(offset)
              case WouldTransfer => Now().Garbled? && cfg.dryRun
      ensures v.Failed? <==> !Answered(cfg, old(replies)) || !Usable(cfg, Decisive(cfg, old(replies)))
      ensures !v.Failed? ==> v == Meaning(Decisive(cfg, old(replies))) && replies == old(replies)[|Prelude(cfg)| + 1..]
    {
      var reply := Ask();
      if reply.Nothing? {
        return Failed;
      }
      v := Weigh(reply.said);
    }

    /** send_append: 0 tail sent, 1 whole file sent instead, -1 failed. */
    method SendAppend(offset: nat) returns (rc: int)
      requires Now() == Resume(offset) && Payloads(trace) == 0
      modifies `trace, `replies
      ensures Settled() && -1 <= rc <= 1
      ensures rc >= 0 ==> Now().Over? && Payloads(trace) == 1
      ensures rc < 0 ==> Payloads(trace) == 0
      ensures rc >= 0 <==> Resumes(cfg, source, offset, old(replies))
      ensures rc >= 0 ==> Last() == Sent(if rc == 0 then AppendData(source[offset..]) else Whole(source))
      ensures rc == 1 ==> cfg.appendVerify && old(replies)[0].Next?
      ensures rc == 0 ==> cfg.appendVerify ==> old(replies)[0].AppendOk?
    {
      if offset >= |source| {
        Say(Fault);
        return -1;
      }
      if cfg.appendVerify {
        Say(AppendSig(source[..offset]));
        var reply := Listen();
        if reply.Nothing? {
          return -1;
        }
        if reply.said.Next? {
          Say(Whole(source));
          return 1;
        }
        if !reply.said.AppendOk? {
          Say(Fault);
          return -1;
        }
      }
      Say(AppendData(source[offset..]));
      rc := 0;
    }

    /** send_single_file on the incremental path: 0 sent, 1 unchanged, -1 failed. `useful`
        says whether a delta could be built and is worthwhile. */
    method SendSingleFile(sendfile: bool, useful: bool) returns (rc: int)
      requires Now().Idle? && Payloads(trace) == 0
      modifies `trace, `replies
      ensures Settled() && -1 <= rc <= 1
      ensures rc == 0 ==> Now().Over? && Payloads(trace) == 1
      ensures rc != 0 ==> Payloads(trace) == 0
      ensures rc == 1 ==> Now().Over?
      ensures rc == 1 <==> Answered(cfg, old(replies)) && Decisive(cfg, old(replies)).Ok?
      ensures rc == 0 <==> Answered(cfg, old(replies)) && Asks(cfg, source, Decisive(cfg, old(replies)), old(replies)[|Prelude(cfg)| + 1..])
      ensures rc == 0 ==>
        Last() == Sent(Owed(cfg, source, !sendfile && cfg.delta && useful, Decisive(cfg, old(replies)), old(replies)[|Prelude(cfg)| + 1..]))
    {
      var v := IncrementalCheck();
      match v {
        case Failed => return -1;
        case Unchanged => return 1;
        case KeepPrefix(offset) =>
          var arc := SendAppend(offset);
          return if arc >= 0 then 0 else -1;
        case WouldTransfer =>
          Say(Fault);
          return -1;
        case HaveSignature =>
          if !sendfile && cfg.delta && useful {
            Say(DeltaData);
            return 0;
          }
          Say(GoAhead);
        case SendWhole =>
      }
      Say(Whole(source));
      rc := 0;
    }
  }
}
