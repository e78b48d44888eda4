/** The --chmod language: its meaning is a list of clauses, each an and-mask and an
    or-mask. Bit fields are records of bits; `Num` and `Value` give the integers the
    program computes with. */
module Chmod {

  /** Three bits: rwx for a class, or set-uid, set-gid and sticky, or the classes u, g, o. */
  datatype Three = Three(a: bool, b: bool, c: bool)

  const NONE: Three := Three(false, false, false)
  const ALL: Three := Three(true, true, true)

  /** Twelve permission bits. */
  datatype Perm = Perm(top: Three, u: Three, g: Three, o: Three)

  const EMPTY: Perm := Perm(NONE, NONE, NONE, NONE)
  const FULL: Perm := Perm(ALL, ALL, ALL, ALL)

  /** A mode: the file type, and the permissions. */
  datatype Mode = Mode(kind: nat, perm: Perm)

  const DIRECTORY: nat := 4

  function Bit(b: bool): nat { if b then 1 else 0 }
  function Num(t: Three): nat { 4 * Bit(t.a) + 2 * Bit(t.b) + Bit(t.c) }
  function Value(p: Perm): nat { 512 * Num(p.top) + 64 * Num(p.u) + 8 * Num(p.g) + Num(p.o) }

  function Or3(s: Three, t: Three): Three { Three(s.a || t.a, s.b || t.b, s.c || t.c) }
  function And3(s: Three, t: Three): Three { Three(s.a && t.a, s.b && t.b, s.c && t.c) }
  function Not3(s: Three): Three { Three(!s.a, !s.b, !s.c) }

  function Or(p: Perm, q: Perm): Perm { Perm(Or3(p.top, q.top), Or3(p.u, q.u), Or3(p.g, q.g), Or3(p.o, q.o)) }
  function And(p: Perm, q: Perm): Perm { Perm(And3(p.top, q.top), And3(p.u, q.u), And3(p.g, q.g), And3(p.o, q.o)) }
  function Not(p: Perm): Perm { Perm(Not3(p.top), Not3(p.u), Not3(p.g), Not3(p.o)) }

  /** The three execute bits. */
  const EXEC: Perm := Perm(NONE, Three(false, false, true), Three(false, false, true), Three(false, false, true))

  // ---- Parsing ----

  datatype Op = NoOp | Add | Sub | Eq | Set

  datatype Half = First | Second | Octal | Bad

  /** What the parser has read of a clause. */
  datatype Clause = Clause(half: Half, op: Op, who: Three, what: Three, number: Perm, topBits: Three, topOct: Three,
                           keepX: bool, dirsOnly: bool, filesOnly: bool)

  const FRESH: Clause := Clause(First, NoOp, NONE, NONE, EMPTY, NONE, NONE, false, false, false)

  predicate Digit(c: char) { '0' <= c <= '7' }

  function DigitBits(c: char): (t: Three)
    requires Digit(c)
    ensures Num(t) == c as int - '0' as int
  {
    Three(c >= '4', c == '2' || c == '3' || c >= '6', c == '1' || c == '3' || c == '5' || c == '7')
  }

  function FeedFirst(s: Clause, c: char): Clause {
    if c == 'D' then (if s.filesOnly then s.(half := Bad) else s.(dirsOnly := true))
    else if c == 'F' then (if s.dirsOnly then s.(half := Bad) else s.(filesOnly := true))
    else if c == 'u' then s.(who := Or3(s.who, Three(true, false, false)), topBits := Or3(s.topBits, Three(true, false, false)))
    else if c == 'g' then s.(who := Or3(s.who, Three(false, true, false)), topBits := Or3(s.topBits, Three(false, true, false)))
    else if c == 'o' then s.(who := Or3(s.who, Three(false, false, true)))
    else if c == 'a' then s.(who := ALL)
    else if c == '+' then s.(op := Add, half := Second)
    else if c == '-' then s.(op := Sub, half := Second)
    else if c == '=' then s.(op := Eq, half := Second)
    else if Digit(c) && s.who == NONE then s.(op := Set, half := Octal, number := Perm(NONE, NONE, NONE, DigitBits(c)))
    else s.(half := Bad)
  }

  function FeedSecond(s: Clause, c: char): Clause {
    if c == 'r' then s.(what := Or3(s.what, Three(true, false, false)))
    else if c == 'w' then s.(what := Or3(s.what, Three(false, true, false)))
    else if c == 'X' then s.(what := Or3(s.what, Three(false, false, true)), keepX := true)
    else if c == 'x' then s.(what := Or3(s.what, Three(false, false, true)))
    else if c == 's' then s.(topOct := if s.topBits != NONE then Or3(s.topOct, s.topBits) else Three(true, false, false))
    else if c == 't' then s.(topOct := Or3(s.topOct, Three(false, false, true)))
    else s.(half := Bad)
  }

  /** The number times eight plus a digit, refused once it would exceed twelve bits. */
  function FeedOctal(s: Clause, c: char): Clause {
    if !Digit(c) || s.number.top != NONE then s.(half := Bad)
    else s.(number := Perm(s.number.u, s.number.g, s.number.o, DigitBits(c)))
  }

  function Feed(s: Clause, c: char): Clause {
    match s.half
    case First => FeedFirst(s, c)
    case Second => FeedSecond(s, c)
    case Octal => FeedOctal(s, c)
    case Bad => s
  }

  datatype Parsed = Rejected | Accepted(clauses: seq<Clause>)

  function Before(c: Clause, rest: Parsed): Parsed {
    if rest.Rejected? then Rejected else Accepted([c] + rest.clauses)
  }

  /** The clauses of the rest of a spec, `s` being the clause under way. */
  function Clauses(spec: string, s: Clause): Parsed
    decreases |spec|
  {
    if s.half.Bad? then Rejected
    else if spec == "" then (if s.op.NoOp? then Rejected else Accepted([s]))
    else if spec[0] == ',' then (if s.op.NoOp? then Rejected else Before(s, Clauses(spec[1..], FRESH)))
    else Clauses(spec[1..], Feed(s, spec[0]))
  }

  function Parse(spec: string): Parsed { Clauses(spec, FRESH) }

  // ---- The masks of a clause ----

  /** `what` for every class `who` names. */
  function Spread(who: Three, what: Three): Perm {
    Perm(NONE, if who.a then what else NONE, if who.b then what else NONE, if who.c then what else NONE)
  }

  function Who(c: Clause): Three { if c.who != NONE then c.who else ALL }

  /** The bits a clause names; without a class, those the umask lets through. */
  function Bits(c: Clause, umask: Perm): Perm {
    if c.op.Set? then c.number
    else if c.who != NONE then Spread(c.who, c.what) else And(Spread(ALL, c.what), Not(umask))
  }

  function Top(t: Three): Perm { Perm(t, NONE, NONE, NONE) }

  function AndMask(c: Clause, umask: Perm): Perm {
    match c.op
    case Add => FULL
    case Sub => Not(Or(Bits(c, umask), Top(c.topOct)))
    case Eq => Not(Or(Spread(Who(c), ALL), Top(if c.topOct != NONE then c.topBits else NONE)))
    case _ => EMPTY
  }

  function OrMask(c: Clause, umask: Perm): Perm {
    match c.op
    case Add => Or(Bits(c, umask), Top(c.topOct))
    case Sub => EMPTY
    case Eq => Or(Bits(c, umask), Top(c.topOct))
    case _ => Bits(c, umask)
  }

  predicate Executable(p: Perm) { p.u.c || p.g.c || p.o.c }

  /** Who a clause is applied for. */
  datatype Target = Target(isDir: bool, executable: bool, umask: Perm)

  predicate Applies(c: Clause, t: Target) { !(c.dirsOnly && !t.isDir) && !(c.filesOnly && t.isDir) }

  /** What a clause does to the permissions of a target. */
  datatype Effect = Untouched | Masks(and: Perm, or: Perm)

  function EffectOf(c: Clause, t: Target): Effect {
    if !Applies(c, t) then Untouched
    else Masks(AndMask(c, t.umask),
               if c.keepX && !t.executable && !t.isDir then And(OrMask(c, t.umask), Not(EXEC)) else OrMask(c, t.umask))
  }

  function EffectsOf(cs: seq<Clause>, t: Target): seq<Effect> {
    if cs == [] then [] else EffectsOf(cs[..|cs| - 1], t) + [EffectOf(cs[|cs| - 1], t)]
  }

  function Act(e: Effect, p: Perm): Perm {
    if e.Untouched? then p else Or(And(p, e.and), e.or)
  }

  function ActAll(es: seq<Effect>, p: Perm): Perm {
    if es == [] then p else Act(es[|es| - 1], ActAll(es[..|es| - 1], p))
  }

  function TargetOf(mode: Mode, umask: Perm): Target {
    Target(mode.kind == DIRECTORY, Executable(mode.perm), umask)
  }

  datatype Applied = Invalid | Applied(mode: Mode)

  /** What applying a spec to a mode means. */
  function Meaning(spec: string, mode: Mode, umask: Perm): Applied {
    match Parse(spec)
    case Rejected => Invalid
    case Accepted(cs) => Applied(Mode(mode.kind, ActAll(EffectsOf(cs, TargetOf(mode, umask)), mode.perm)))
  }

  function After(done: seq<Clause>, rest: Parsed): Parsed {
    if rest.Rejected? then Rejected else Accepted(done + rest.clauses)
  }

  lemma AfterOne(done: seq<Clause>, s: Clause, rest: Parsed)
    ensures After(done, Before(s, rest)) == After(done + [s], rest)
  {
    if rest.Accepted? { assert done + ([s] + rest.clauses) == done + [s] + rest.clauses; }
  }

  lemma ActOne(cs: seq<Clause>, c: Clause, t: Target, p: Perm)
    ensures ActAll(EffectsOf(cs + [c], t), p) == Act(EffectOf(c, t), ActAll(EffectsOf(cs, t), p))
  {
    assert (cs + [c])[..|cs + [c]| - 1] == cs;
    var es, e := EffectsOf(cs, t), EffectOf(c, t);
    assert (es + [e])[..|es + [e]| - 1] == es;
  }

  /** Where a one-pass run stands: some clauses done, one under way, the rest ahead. */
  ghost predicate Underway(spec: string, p: nat, s: Clause, done: seq<Clause>) {
    p <= |spec| && Parse(spec) == After(done, Clauses(spec[p..], s))
  }

  lemma NextChar(spec: string, p: nat, s: Clause, done: seq<Clause>)
    requires Underway(spec, p, s, done) && p < |spec| && spec[p] != ',' && !s.half.Bad?
    ensures Underway(spec, p + 1, Feed(s, spec[p]), done)
  {
    assert spec[p..][1..] == spec[p + 1..];
  }

  lemma NextClause(spec: string, p: nat, s: Clause, done: seq<Clause>)
    requires Underway(spec, p, s, done) && p < |spec| && spec[p] == ',' && !s.half.Bad? && !s.op.NoOp?
    ensures Underway(spec, p + 1, FRESH, done + [s])
  {
    assert spec[p..][1..] == spec[p + 1..];
    AfterOne(done, s, Clauses(spec[p + 1..], FRESH));
  }
}
