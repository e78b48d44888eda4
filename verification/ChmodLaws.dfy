/** Laws of the --chmod language. */
module ChmodLaws {
  import opened Chmod

  // ---- The integer arithmetic is masking ----

  /** A class selection as the integer 0100, 0010, 0001 or a sum of these. */
  function Where(who: Three): nat { 64 * Bit(who.a) + 8 * Bit(who.b) + Bit(who.c) }

  lemma ProductIsSpread(who: Three, what: Three)
    ensures Value(Spread(who, what)) == Where(who) * Num(what)
  {
    if who.a { if who.b { if who.c {} } else if who.c {} } else { if who.b { if who.c {} } else if who.c {} }
  }

  lemma OrNone(t: Three)
    ensures Or3(t, NONE) == t && Or3(NONE, t) == t
  {
  }

  lemma SumIsUnion(p: Perm, t: Three)
    requires p.top == NONE
    ensures Value(Or(p, Top(t))) == Value(p) + 512 * Num(t)
  {
    OrNone(t);
    OrNone(p.u);
    OrNone(p.g);
    OrNone(p.o);
  }

  lemma NotNum(t: Three)
    ensures Num(Not3(t)) == 7 - Num(t)
  {
  }

  lemma DifferenceIsComplement(p: Perm)
    ensures Value(Not(p)) == 4095 - Value(p)
  {
    NotNum(p.top);
    NotNum(p.u);
    NotNum(p.g);
    NotNum(p.o);
  }

  /** For +, - and = the masks the program computes with sums, products and differences
      are these unions, spreads and complements: no carry, no borrow. */
  lemma ArithmeticIsMasking(c: Clause, umask: Perm)
    requires !c.op.Set? && !c.op.NoOp?
    ensures c.who != NONE ==> Value(Bits(c, umask)) == Where(c.who) * Num(c.what)
    ensures !c.op.Sub? ==> Value(OrMask(c, umask)) == Value(Bits(c, umask)) + 512 * Num(c.topOct)
    ensures c.op.Sub? ==> Value(AndMask(c, umask)) == 4095 - Value(Bits(c, umask)) - 512 * Num(c.topOct)
    ensures c.op.Eq? ==>
      Value(AndMask(c, umask)) == 4095 - Where(Who(c)) * 7 - 512 * Num(if c.topOct != NONE then c.topBits else NONE)
  {
    ProductIsSpread(c.who, c.what);
    SumIsUnion(Bits(c, umask), c.topOct);
    DifferenceIsComplement(Or(Bits(c, umask), Top(c.topOct)));
    ProductIsSpread(Who(c), ALL);
    var top := if c.topOct != NONE then c.topBits else NONE;
    SumIsUnion(Spread(Who(c), ALL), top);
    DifferenceIsComplement(Or(Spread(Who(c), ALL), Top(top)));
  }

  /** Reading an octal digit multiplies by eight and adds it, and is refused exactly when
      that would exceed 07777. */
  lemma OctalIsShift(s: Clause, c: char)
    requires s.half.Octal? && Digit(c)
    ensures Feed(s, c).half.Bad? <==> Value(s.number) * 8 + Num(DigitBits(c)) > 4095
    ensures !Feed(s, c).half.Bad? ==> Value(Feed(s, c).number) == Value(s.number) * 8 + Num(DigitBits(c))
  {
    NumRange(s.number.top);
    NumRange(DigitBits(c));
    ShiftValue(s.number, DigitBits(c));
    ValueRange(s.number);
  }

  /** Dropping the top three bits and appending three. */
  lemma ShiftValue(p: Perm, d: Three)
    ensures Value(Perm(p.u, p.g, p.o, d)) == Value(p) * 8 + Num(d) - 4096 * Num(p.top)
  {
  }

  lemma ValueRange(p: Perm)
    ensures 512 * Num(p.top) <= Value(p) < 512 * Num(p.top) + 512
  {
    NumRange(p.u);
    NumRange(p.g);
    NumRange(p.o);
  }

  lemma NumRange(t: Three)
    ensures Num(t) <= 7 && (Num(t) == 0 <==> t == NONE)
  {
  }

  // ---- Acceptance ----

  /** Acceptance does not depend on the mode or the umask, so a probe with mode 0 decides
      it for all. */
  lemma ProbeDecides(spec: string, umask: Perm)
    ensures Meaning(spec, Mode(0, EMPTY), umask).Applied? <==> forall mode, other :: Meaning(spec, mode, other).Applied?
  {
    if !Meaning(spec, Mode(0, EMPTY), umask).Applied? {
      assert !(forall mode, other :: Meaning(spec, mode, other).Applied?);
    }
  }

  function Joined(a: Parsed, b: Parsed): Parsed {
    if a.Rejected? || b.Rejected? then Rejected else Accepted(a.clauses + b.clauses)
  }

  lemma {:induction false} ClausesJoin(a: string, s: Clause, b: string)
    ensures Clauses(a + "," + b, s) == Joined(Clauses(a, s), Parse(b))
    decreases |a|
  {
    var spec := a + "," + b;
    if a == "" {
      assert spec[0] == ',' && spec[1..] == b;
    } else {
      assert spec[0] == a[0] && spec[1..] == a[1..] + "," + b;
      if !s.half.Bad? {
        if a[0] == ',' {
          ClausesJoin(a[1..], FRESH, b);
          var rest := Clauses(a[1..], FRESH);
          if rest.Accepted? && Parse(b).Accepted? {
            assert [s] + (rest.clauses + Parse(b).clauses) == [s] + rest.clauses + Parse(b).clauses;
          }
        } else {
          ClausesJoin(a[1..], Feed(s, a[0]), b);
        }
      }
    }
  }

  /** Joining two specs with a comma is accepted if and only if both are, and means the
      clauses of the one followed by those of the other. */
  lemma CommaJoins(a: string, b: string)
    ensures Parse(a + "," + b) == Joined(Parse(a), Parse(b))
  {
    ClausesJoin(a, FRESH, b);
  }

  // ---- A spec is one pair of masks ----

  datatype Pair = Pair(and: Perm, or: Perm)

  function Merge(p: Pair, e: Effect): Pair {
    if e.Untouched? then p else Pair(And(p.and, e.and), Or(And(p.or, e.and), e.or))
  }

  function PairOf(es: seq<Effect>): Pair {
    if es == [] then Pair(FULL, EMPTY) else Merge(PairOf(es[..|es| - 1]), es[|es| - 1])
  }

  function Do(p: Pair, m: Perm): Perm { Or(And(m, p.and), p.or) }

  lemma MergeDoes(p: Pair, e: Effect, m: Perm)
    ensures Do(Merge(p, e), m) == Act(e, Do(p, m))
  {
  }

  /** A list of clauses acts as one and-mask and one or-mask. */
  lemma {:induction false} OnePair(es: seq<Effect>, m: Perm)
    ensures ActAll(es, m) == Do(PairOf(es), m)
  {
    if es != [] {
      OnePair(es[..|es| - 1], m);
      MergeDoes(PairOf(es[..|es| - 1]), es[|es| - 1], m);
    }
  }

  lemma {:induction false} ActConcat(a: seq<Effect>, b: seq<Effect>, m: Perm)
    ensures ActAll(a + b, m) == ActAll(b, ActAll(a, m))
  {
    if b == [] {
      assert a + b == a;
    } else {
      var n := |b| - 1;
      assert (a + b)[..|a + b| - 1] == a + b[..n];
      ActConcat(a, b[..n], m);
    }
  }

  lemma {:induction false} EffectsConcat(a: seq<Clause>, b: seq<Clause>, t: Target)
    ensures EffectsOf(a + b, t) == EffectsOf(a, t) + EffectsOf(b, t)
  {
    if b == [] {
      assert a + b == a;
    } else {
      var n := |b| - 1;
      assert (a + b)[..|a + b| - 1] == a + b[..n];
      EffectsConcat(a, b[..n], t);
    }
  }

  // ---- What X changes ----

  function PairFor(cs: seq<Clause>, t: Target): Pair { PairOf(EffectsOf(cs, t)) }

  predicate Below3(s: Three, t: Three) { (s.a ==> t.a) && (s.b ==> t.b) && (s.c ==> t.c) }

  predicate Below(p: Perm, q: Perm) { Below3(p.top, q.top) && Below3(p.u, q.u) && Below3(p.g, q.g) && Below3(p.o, q.o) }

  predicate MoreExec3(more: Three, less: Three) { more.a == less.a && more.b == less.b && (less.c ==> more.c) }

  /** Two or-masks that differ in execute bits only, the first having more of them. */
  predicate MoreExec(more: Perm, less: Perm) {
    more.top == less.top && MoreExec3(more.u, less.u) && MoreExec3(more.g, less.g) && MoreExec3(more.o, less.o)
  }

  /** Without X a spec is the same pair of masks for executable files and others. */
  lemma {:induction false} XFreeIgnoresExecutable(cs: seq<Clause>, t: Target, x: bool)
    requires forall c <- cs :: !c.keepX
    ensures EffectsOf(cs, t.(executable := x)) == EffectsOf(cs, t)
  {
    if cs != [] { XFreeIgnoresExecutable(cs[..|cs| - 1], t, x); }
  }

  lemma MergeMoreExec(y: Pair, n: Pair, a: Perm, more: Perm, less: Perm)
    requires y.and == n.and && MoreExec(y.or, n.or) && MoreExec(more, less)
    ensures Merge(y, Masks(a, more)).and == Merge(n, Masks(a, less)).and
    ensures MoreExec(Merge(y, Masks(a, more)).or, Merge(n, Masks(a, less)).or)
  {
  }

  lemma EffectMoreExec(c: Clause, t: Target)
    ensures var yes, no := EffectOf(c, t.(executable := true)), EffectOf(c, t.(executable := false));
            if yes.Untouched? then no.Untouched? else no.Masks? && yes.and == no.and && MoreExec(yes.or, no.or)
  {
    var o := OrMask(c, t.umask);
    assert MoreExec(o, And(o, Not(EXEC)));
  }

  /** X can only leave execute bits out, for a file that was not executable. */
  lemma {:induction false} XOnlyAdds(cs: seq<Clause>, t: Target)
    ensures PairFor(cs, t.(executable := true)).and == PairFor(cs, t.(executable := false)).and
    ensures MoreExec(PairFor(cs, t.(executable := true)).or, PairFor(cs, t.(executable := false)).or)
  {
    if cs != [] {
      var n := |cs| - 1;
      var y, o := t.(executable := true), t.(executable := false);
      XOnlyAdds(cs[..n], t);
      EffectMoreExec(cs[n], t);
      var ey, eo := EffectOf(cs[n], y), EffectOf(cs[n], o);
      PairSnoc(EffectsOf(cs[..n], y), ey);
      PairSnoc(EffectsOf(cs[..n], o), eo);
      if ey.Masks? { MergeMoreExec(PairFor(cs[..n], y), PairFor(cs[..n], o), ey.and, ey.or, eo.or); }
    }
  }

  lemma PairSnoc(es: seq<Effect>, e: Effect)
    ensures PairOf(es + [e]) == Merge(PairOf(es), e)
  {
    assert (es + [e])[..|es + [e]| - 1] == es;
  }

  lemma DoTwice(p: Pair, m: Perm)
    ensures Do(p, Do(p, m)) == Do(p, m) && Below(p.or, Do(p, m))
  {
  }

  lemma MoreIsSameExactly(yes: Pair, no: Pair, m: Perm)
    requires yes.and == no.and && MoreExec(yes.or, no.or)
    ensures Do(yes, m) == Do(no, m) <==> Below(yes.or, Do(no, m))
  {
  }

  // ---- Applying twice, and joining with a comma ----

  /** The pairs of a list of clauses for a target that is executable and one that is not. */
  function WithX(cs: seq<Clause>, t: Target): Pair { PairFor(cs, t.(executable := true)) }
  function WithoutX(cs: seq<Clause>, t: Target): Pair { PairFor(cs, t.(executable := false)) }

  /** The bits an X would add. */
  function Extra(cs: seq<Clause>, t: Target): Perm { And(WithX(cs, t).or, Not(WithoutX(cs, t).or)) }

  lemma NoExtra(yes: Perm, no: Perm)
    requires MoreExec(yes, no)
    ensures And(yes, Not(no)) == EMPTY <==> yes == no
    ensures Below(yes, no) <==> yes == no
  {
  }

  /** A spec applied to its own result changes nothing if and only if the file is executable
      to begin with, or the spec sets no execute bit on one that is not, or no X would
      add a bit. */
  lemma IdempotentExactly(spec: string, mode: Mode, umask: Perm)
    requires Parse(spec).Accepted?
    ensures var r := Meaning(spec, mode, umask).mode;
            var cs, t := Parse(spec).clauses, TargetOf(mode, umask);
            Meaning(spec, r, umask) == Applied(r)
            <==> Executable(mode.perm) || !Executable(WithoutX(cs, t).or) || Extra(cs, t) == EMPTY
  {
    var cs, t := Parse(spec).clauses, TargetOf(mode, umask);
    var r := Meaning(spec, mode, umask).mode;
    var t2 := TargetOf(r, umask);
    assert t2 == t.(executable := Executable(r.perm));
    assert t == t.(executable := Executable(mode.perm));
    OnePair(EffectsOf(cs, t), mode.perm);
    OnePair(EffectsOf(cs, t2), r.perm);
    XOnlyAdds(cs, t);
    NoExtra(WithX(cs, t).or, WithoutX(cs, t).or);
    TwiceExactly(WithX(cs, t), WithoutX(cs, t), mode.perm);
  }

  lemma TwiceExactly(yes: Pair, no: Pair, m: Perm)
    requires yes.and == no.and && MoreExec(yes.or, no.or)
    ensures var r := Do(if Executable(m) then yes else no, m);
            Do(if Executable(r) then yes else no, r) == r <==> Executable(m) || !Executable(no.or) || yes.or == no.or
  {
    DoTwice(yes, m);
    DoTwice(no, m);
    if Executable(m) {
      StaysSame(yes, no, m);
    } else {
      BecomesExecutable(no, m);
      if Executable(no.or) { MoreIsSameExactly(yes, no, Do(no, m)); AddsToNothing(yes, no, m); }
    }
  }

  /** An executable file that loses its last execute bit to a spec had none set by it. */
  lemma StaysSame(yes: Pair, no: Pair, m: Perm)
    requires yes.and == no.and && MoreExec(yes.or, no.or)
    ensures !Executable(Do(yes, m)) ==> yes == no
  {
  }

  lemma BecomesExecutable(p: Pair, m: Perm)
    requires !Executable(m)
    ensures Executable(Do(p, m)) <==> Executable(p.or)
  {
  }

  lemma AddsToNothing(yes: Pair, no: Pair, m: Perm)
    requires yes.and == no.and && MoreExec(yes.or, no.or) && !Executable(m)
    ensures Below(yes.or, Do(no, m)) <==> yes.or == no.or
  {
  }

  /** Without X a spec is idempotent. */
  lemma IdempotentWithoutX(spec: string, mode: Mode, umask: Perm)
    requires Parse(spec).Accepted? && forall c <- Parse(spec).clauses :: !c.keepX
    ensures var r := Meaning(spec, mode, umask).mode; Meaning(spec, r, umask) == Applied(r)
  {
    var cs, t := Parse(spec).clauses, TargetOf(mode, umask);
    XFreeIgnoresExecutable(cs, t, true);
    XFreeIgnoresExecutable(cs, t, false);
    NoExtra(WithX(cs, t).or, WithoutX(cs, t).or);
    IdempotentExactly(spec, mode, umask);
  }

  /** Does a pair of masks leave a file with its executability: keep or set an execute bit
      of one that has some, set none on one that has none? */
  predicate KeepsExecutability(p: Pair, m: Perm) {
    if Executable(m) then Executable(And(m, p.and)) || Executable(p.or) else !Executable(p.or)
  }

  /** Joining specs with a comma is applying one after the other if and only if the first
      leaves the file as executable or not as it was, or no X of the second would add a bit,
      or, on a file that was not executable, the first sets every bit an X of the second
      would add and the second keeps it. */
  lemma CommaComposesExactly(a: string, b: string, mode: Mode, umask: Perm)
    requires Parse(a).Accepted? && Parse(b).Accepted?
    ensures var t := TargetOf(mode, umask);
            var first, cs := PairFor(Parse(a).clauses, t), Parse(b).clauses;
            Meaning(a + "," + b, mode, umask) == Meaning(b, Meaning(a, mode, umask).mode, umask)
            <==> || KeepsExecutability(first, mode.perm) || Extra(cs, t) == EMPTY
                 || (!Executable(mode.perm) && Below(Extra(cs, t), And(first.or, WithoutX(cs, t).and)))
  {
    var first, cs, t := Parse(a).clauses, Parse(b).clauses, TargetOf(mode, umask);
    var r := Meaning(a, mode, umask).mode;
    CommaJoins(a, b);
    EffectsConcat(first, cs, t);
    ActConcat(EffectsOf(first, t), EffectsOf(cs, t), mode.perm);
    var t2 := TargetOf(r, umask);
    assert t2 == t.(executable := Executable(r.perm));
    assert t == t.(executable := Executable(mode.perm));
    OnePair(EffectsOf(first, t), mode.perm);
    OnePair(EffectsOf(cs, t), r.perm);
    OnePair(EffectsOf(cs, t2), r.perm);
    XOnlyAdds(cs, t);
    CommaPairs(PairFor(first, t), WithX(cs, t), WithoutX(cs, t), mode.perm);
  }

  lemma CommaPairs(first: Pair, yes: Pair, no: Pair, m: Perm)
    requires yes.and == no.and && MoreExec(yes.or, no.or)
    ensures var r := Do(first, m);
            Do(if Executable(m) then yes else no, r) == Do(if Executable(r) then yes else no, r)
            <==> || KeepsExecutability(first, m) || And(yes.or, Not(no.or)) == EMPTY
                 || (!Executable(m) && Below(And(yes.or, Not(no.or)), And(first.or, no.and)))
  {
    var r := Do(first, m);
    NoExtra(yes.or, no.or);
    KeepsExactly(first, m);
    MoreIsSameExactly(yes, no, r);
    if Executable(m) {
      if !Executable(r) { AddsToNothing(yes, no, r); }
    } else if Executable(r) {
      SetByFirst(first, yes, no, m);
    }
  }

  lemma KeepsExactly(p: Pair, m: Perm)
    ensures KeepsExecutability(p, m) <==> Executable(Do(p, m)) == Executable(m)
  {
  }

  lemma SetByFirst(first: Pair, yes: Pair, no: Pair, m: Perm)
    requires yes.and == no.and && MoreExec(yes.or, no.or) && !Executable(m)
    ensures Below(yes.or, Do(no, Do(first, m))) <==> Below(And(yes.or, Not(no.or)), And(first.or, no.and))
  {
  }

  /** Without X in the second spec, a comma is composition. */
  lemma CommaComposesWithoutX(a: string, b: string, mode: Mode, umask: Perm)
    requires Parse(a).Accepted? && Parse(b).Accepted? && forall c <- Parse(b).clauses :: !c.keepX
    ensures Meaning(a + "," + b, mode, umask) == Meaning(b, Meaning(a, mode, umask).mode, umask)
  {
    var cs, t := Parse(b).clauses, TargetOf(mode, umask);
    XFreeIgnoresExecutable(cs, t, true);
    XFreeIgnoresExecutable(cs, t, false);
    NoExtra(WithX(cs, t).or, WithoutX(cs, t).or);
    CommaComposesExactly(a, b, mode, umask);
  }

  // ---- The order of s and t ----

  /** A clause after some letters of its second half. */
  function FeedAll(s: Clause, w: string): Clause {
    if w == "" then s else Feed(FeedAll(s, w[..|w| - 1]), w[|w| - 1])
  }

  predicate Letter(c: char) { c == 'r' || c == 'w' || c == 'x' || c == 'X' || c == 's' || c == 't' }

  const STICKY: Three := Three(false, false, true)
  const SETUID: Three := Three(true, false, false)

  /** The top bits the letters name, whatever their order. */
  function NamedTop(s: Clause, w: string): Three {
    Or3(if 's' !in w then NONE else if s.topBits != NONE then s.topBits else SETUID, if 't' in w then STICKY else NONE)
  }

  /** Is there a t after the last s? */
  predicate StickyLast(w: string) {
    w != "" && (w[|w| - 1] == 't' || (w[|w| - 1] != 's' && StickyLast(w[..|w| - 1])))
  }

  /** What the letters leave: with a class named, or without an s, all they name; otherwise
      s discards each t before it. */
  lemma {:induction false} TopAfter(s: Clause, w: string)
    requires s.half.Second? && s.topOct == NONE && forall i :: 0 <= i < |w| ==> Letter(w[i])
    ensures FeedAll(s, w).half.Second? && FeedAll(s, w).topBits == s.topBits
    ensures FeedAll(s, w).topOct == if s.topBits != NONE || 's' !in w then NamedTop(s, w)
                                    else if StickyLast(w) then Or3(SETUID, STICKY) else SETUID
    ensures StickyLast(w) ==> 't' in w
    ensures 's' !in w ==> (StickyLast(w) <==> 't' in w)
  {
    if w != "" {
      var n := |w| - 1;
      TopAfter(s, w[..n]);
      assert w == w[..n] + [w[n]];
      SnocHas(w, 's');
      SnocHas(w, 't');
    }
  }

  lemma SnocHas(w: string, c: char)
    requires w != ""
    ensures c in w <==> c in w[..|w| - 1] || c == w[|w| - 1]
  {
    assert w == w[..|w| - 1] + [w[|w| - 1]];
  }

  /** The letters of a second half set all the top bits they name, so that their order does
      not matter, if and only if a class that has an s is named, or s and t do not both
      occur, or a t follows the last s. */
  lemma OrderFreeExactly(s: Clause, w: string)
    requires s.half.Second? && s.topOct == NONE && forall i :: 0 <= i < |w| ==> Letter(w[i])
    ensures FeedAll(s, w).topOct == NamedTop(s, w)
       <==> s.topBits != NONE || 's' !in w || 't' !in w || StickyLast(w)
  {
    TopAfter(s, w);
  }

  // ---- Two specs that surprise ----

  /** Parsing a spec of three plain characters. */
  lemma ParseThree(spec: string)
    requires |spec| == 3 && spec[0] != ',' && spec[1] != ',' && spec[2] != ','
    requires !Feed(FRESH, spec[0]).half.Bad? && !Feed(Feed(FRESH, spec[0]), spec[1]).half.Bad?
    ensures Parse(spec) == Clauses("", Feed(Feed(Feed(FRESH, spec[0]), spec[1]), spec[2]))
  {
    var s1 := Feed(FRESH, spec[0]);
    var s2 := Feed(s1, spec[1]);
    assert spec[1..][0] == spec[1] && spec[1..][1..] == spec[2..] && spec[2..][0] == spec[2] && spec[2..][1..] == "";
    assert Clauses(spec, FRESH) == Clauses(spec[1..], s1);
    assert Clauses(spec[1..], s1) == Clauses(spec[2..], s2);
  }

  /** "+ts" sets set-uid only: without a class, s overwrites the t before it. "+st" sets both. */
  lemma StickyIsLost()
    ensures Meaning("+ts", Mode(8, EMPTY), EMPTY) == Applied(Mode(8, Top(Three(true, false, false))))
    ensures Meaning("+st", Mode(8, EMPTY), EMPTY) == Applied(Mode(8, Top(Three(true, false, true))))
  {
    ParseThree("+ts");
    ParseThree("+st");
    OneClause(Parse("+ts").clauses, TargetOf(Mode(8, EMPTY), EMPTY), EMPTY);
    OneClause(Parse("+st").clauses, TargetOf(Mode(8, EMPTY), EMPTY), EMPTY);
  }

  lemma OneClause(cs: seq<Clause>, t: Target, p: Perm)
    requires |cs| == 1
    ensures ActAll(EffectsOf(cs, t), p) == Act(EffectOf(cs[0], t), p)
  {
    assert [] + cs == cs;
    ActOne([], cs[0], t, p);
    assert [] + [cs[0]] == cs;
  }

  /** X looks at the mode a run starts from: on 0644, "u+x" then "g+X" gives 0754, while
      "u+x,g+X" gives 0744. */
  lemma XReadsTheFirstMode(p: Perm)
    requires p == Perm(NONE, Three(true, true, false), Three(true, false, false), Three(true, false, false))
    ensures Meaning("u+x,g+X", Mode(8, p), EMPTY) == Applied(Mode(8, p.(u := ALL)))
    ensures Meaning("g+X", Meaning("u+x", Mode(8, p), EMPTY).mode, EMPTY) == Applied(Mode(8, p.(u := ALL, g := Three(true, false, true))))
  {
    ParseThree("u+x");
    ParseThree("g+X");
    var t := TargetOf(Mode(8, p), EMPTY);
    OneClause(Parse("u+x").clauses, t, p);
    var q := p.(u := ALL);
    assert Meaning("u+x", Mode(8, p), EMPTY) == Applied(Mode(8, q));
    OneClause(Parse("g+X").clauses, TargetOf(Mode(8, q), EMPTY), q);
    assert "u+x" + "," + "g+X" == "u+x,g+X";
    CommaJoins("u+x", "g+X");
    ActOne(Parse("u+x").clauses, Parse("g+X").clauses[0], t, p);
  }
}
