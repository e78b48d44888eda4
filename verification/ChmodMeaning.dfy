/** What a --chmod clause is and does, said from its letters and bit by bit. */
module ChmodMeaning {
  import opened Chmod
  import opened ChmodLaws

  predicate ClassLetter(c: char) { c in "DFugoa" }

  predicate AllClass(w: string) { forall i :: 0 <= i < |w| ==> ClassLetter(w[i]) }
  predicate AllLetters(w: string) { forall i :: 0 <= i < |w| ==> Letter(w[i]) }
  predicate AllDigits(w: string) { forall i :: 0 <= i < |w| ==> '0' <= w[i] <= '7' }

  /** D and F exclude each other. */
  predicate Consistent(w: string) { !('D' in w && 'F' in w) }

  predicate SomeClass(w: string) { 'u' in w || 'g' in w || 'o' in w || 'a' in w }

  lemma {:induction false} FeedConcat(s: Clause, a: string, b: string)
    ensures FeedAll(s, a + b) == FeedAll(FeedAll(s, a), b)
  {
    if b == "" {
      assert a + b == a;
    } else {
      assert (a + b)[..|a + b| - 1] == a + b[..|b| - 1];
      FeedConcat(s, a, b[..|b| - 1]);
    }
  }

  // ---- The halves of a clause ----

  /** A clause of which only classes were read. */
  function Classes(w: string): Clause {
    Clause(First, NoOp, Three('u' in w || 'a' in w, 'g' in w || 'a' in w, 'o' in w || 'a' in w), NONE, EMPTY,
           Three('u' in w, 'g' in w, false), NONE, false, 'D' in w, 'F' in w)
  }

  lemma HasSnoc(w: string)
    requires w != ""
    ensures forall c :: c in w <==> c in w[..|w| - 1] || c == w[|w| - 1]
  {
    forall c ensures c in w <==> c in w[..|w| - 1] || c == w[|w| - 1] { SnocHas(w, c); }
  }

  lemma OneClass(w: string, c: char)
    requires ClassLetter(c) && Consistent(w)
    ensures FeedFirst(Classes(w), c) == if Consistent(w + [c]) then Classes(w + [c]) else FeedFirst(Classes(w), c)
    ensures Consistent(w + [c]) <==> !FeedFirst(Classes(w), c).half.Bad?
  {
    HasSnoc(w + [c]);
    assert (w + [c])[..|w|] == w;
  }

  lemma {:induction false} ReadsClasses(w: string)
    requires AllClass(w)
    ensures if Consistent(w) then FeedAll(FRESH, w) == Classes(w) else FeedAll(FRESH, w).half.Bad?
  {
    if w != "" {
      var n := |w| - 1;
      ReadsClasses(w[..n]);
      HasSnoc(w);
      assert w == w[..n] + [w[n]] && ClassLetter(w[n]);
      if Consistent(w[..n]) { OneClass(w[..n], w[n]); }
    }
  }

  /** The letters of a second half. */
  lemma {:induction false} ReadsLetters(s: Clause, w: string)
    requires s.half.Second? && s.what == NONE && !s.keepX && AllLetters(w)
    ensures var r := FeedAll(s, w);
            r == s.(what := Three('r' in w, 'w' in w, 'x' in w || 'X' in w), keepX := 'X' in w, topOct := r.topOct)
  {
    if w != "" {
      var n := |w| - 1;
      ReadsLetters(s, w[..n]);
      HasSnoc(w);
      OneLetter(FeedAll(s, w[..n]), w[n]);
    }
  }

  lemma OneLetter(s: Clause, c: char)
    requires s.half.Second? && Letter(c)
    ensures var r := Feed(s, c);
            r == s.(what := Three(s.what.a || c == 'r', s.what.b || c == 'w', s.what.c || c == 'x' || c == 'X'),
                    keepX := s.keepX || c == 'X', topOct := r.topOct)
  {
  }

  function Octal8(w: string): nat
    requires AllDigits(w)
  {
    if w == "" then 0 else 8 * Octal8(w[..|w| - 1]) + (w[|w| - 1] as int - '0' as int)
  }

  /** Digits are read as one octal number of four digits at most, leading zeros aside. */
  lemma {:induction false} ReadsDigits(cl: string, w: string)
    requires AllClass(cl) && Consistent(cl) && !SomeClass(cl) && w != "" && AllDigits(w)
    ensures var r := FeedAll(Classes(cl), w);
            if Octal8(w) < 4096 then r == Classes(cl).(op := Set, half := Octal, number := r.number) && Value(r.number) == Octal8(w)
            else r.half.Bad?
  {
    var n := |w| - 1;
    var s := FeedAll(Classes(cl), w[..n]);
    if n == 0 {
      assert w[..0] == "" && Octal8(w[..0]) == 0;
    } else {
      ReadsDigits(cl, w[..n]);
      if !s.half.Bad? {
        OctalIsShift(s, w[n]);
        ValueRange(s.number);
      }
    }
  }

  // ---- Whole clauses ----

  function OpOf(c: char): Op { if c == '+' then Add else if c == '-' then Sub else if c == '=' then Eq else NoOp }

  /** Classes, an operator, letters. */
  ghost predicate Symbolic(w: string, cl: string, op: char, le: string) {
    w == cl + [op] + le && AllClass(cl) && Consistent(cl) && op in "+-=" && AllLetters(le)
  }

  /** Octal digits, perhaps after D or F. */
  ghost predicate Numeric(w: string, cl: string, ds: string) {
    w == cl + ds && AllClass(cl) && Consistent(cl) && !SomeClass(cl) && ds != "" && AllDigits(ds) && Octal8(ds) < 4096
  }

  lemma OpRead(cl: string, op: char)
    requires op in "+-="
    ensures FeedFirst(Classes(cl), op) == Classes(cl).(op := OpOf(op), half := Second)
  {
  }

  /** What is read from a symbolic clause. */
  lemma ReadsSymbolic(w: string, cl: string, op: char, le: string)
    requires Symbolic(w, cl, op, le)
    ensures var r := FeedAll(FRESH, w);
            && r == Clause(Second, OpOf(op), Classes(cl).who, Three('r' in le, 'w' in le, 'x' in le || 'X' in le), EMPTY,
                           Three('u' in cl, 'g' in cl, false), r.topOct, 'X' in le, 'D' in cl, 'F' in cl)
            && r.topOct == Tops(cl, le)
  {
    FeedConcat(FRESH, cl + [op], le);
    FeedConcat(FRESH, cl, [op]);
    ReadsClasses(cl);
    OpRead(cl, op);
    var s := Classes(cl).(op := OpOf(op), half := Second);
    assert [op][..0] == "" && FeedAll(Classes(cl), [op]) == s;
    ReadsLetters(s, le);
    TopAfter(s, le);
  }

  /** The set-id and sticky bits the letters name: s means those of the classes u and g that
      are named; if neither is, the set-uid bit, and then it undoes a t before it. */
  function Tops(cl: string, le: string): Three {
    if 'u' in cl || 'g' in cl then Three('u' in cl && 's' in le, 'g' in cl && 's' in le, 't' in le)
    else Three('s' in le, false, if 's' in le then StickyLast(le) else 't' in le)
  }

  lemma ReadsNumeric(w: string, cl: string, ds: string)
    requires Numeric(w, cl, ds)
    ensures var r := FeedAll(FRESH, w);
            r == Classes(cl).(op := Set, half := Octal, number := r.number) && Value(r.number) == Octal8(ds)
  {
    FeedConcat(FRESH, cl, ds);
    ReadsClasses(cl);
    ReadsDigits(cl, ds);
  }

  // ---- What a clause does ----

  /** The i-th of three bits. */
  function At(t: Three, i: nat): bool { if i == 0 then t.a else if i == 1 then t.b else t.c }

  /** The bits of the k-th class. */
  function Of(p: Perm, k: nat): Three { if k == 0 then p.u else if k == 1 then p.g else p.o }

  /** The clause names the i-th permission of the k-th class. */
  predicate Marks(c: Clause, t: Target, k: nat, i: nat) {
    At(Who(c), k) && At(c.what, i) && (c.who != NONE || !At(Of(t.umask, k), i))
  }

  lemma BitsAt(c: Clause, t: Target, k: nat, i: nat)
    requires k < 3 && i < 3 && c.op != Set
    ensures At(Of(Bits(c, t.umask), k), i) == Marks(c, t, k, i)
  {
  }

  lemma MaskedAt(p: Perm, and: Perm, or: Perm, k: nat, i: nat)
    requires k < 3 && i < 3
    ensures At(Of(Or(And(p, and), or), k), i) == ((At(Of(p, k), i) && At(Of(and, k), i)) || At(Of(or, k), i))
  {
  }

  lemma AndMaskAt(c: Clause, t: Target, k: nat, i: nat)
    requires k < 3 && i < 3 && c.op in {Add, Sub, Eq}
    ensures At(Of(AndMask(c, t.umask), k), i) ==
      if c.op == Add then true else if c.op == Sub then !Marks(c, t, k, i) else !At(Who(c), k)
  {
    BitsAt(c, t, k, i);
  }

  lemma OrMaskAt(c: Clause, t: Target, k: nat, i: nat)
    requires k < 3 && i < 3 && c.op in {Add, Sub, Eq}
    ensures At(Of(OrMask(c, t.umask), k), i) == (c.op != Sub && Marks(c, t, k, i))
  {
    BitsAt(c, t, k, i);
  }

  lemma WithoutExec(p: Perm, k: nat, i: nat)
    requires k < 3 && i < 3
    ensures At(Of(And(p, Not(EXEC)), k), i) == (At(Of(p, k), i) && i != 2)
  {
  }

  lemma ActAt(c: Clause, t: Target, p: Perm, k: nat, i: nat)
    requires k < 3 && i < 3 && c.op in {Add, Sub, Eq} && Applies(c, t)
    ensures At(Of(Act(EffectOf(c, t), p), k), i) ==
      var gives := Marks(c, t, k, i) && !(i == 2 && c.keepX && !t.executable && !t.isDir);
      if c.op == Add then At(Of(p, k), i) || gives
      else if c.op == Sub then At(Of(p, k), i) && !Marks(c, t, k, i)
      else if At(Who(c), k) then gives else At(Of(p, k), i)
  {
    var e := EffectOf(c, t);
    MaskedAt(p, e.and, e.or, k, i);
    AndMaskAt(c, t, k, i);
    OrMaskAt(c, t, k, i);
    WithoutExec(OrMask(c, t.umask), k, i);
  }

  predicate Aimed(cl: string, t: Target) { ('D' in cl ==> t.isDir) && ('F' in cl ==> !t.isDir) }

  /** The k-th class is meant: named, or none is. */
  predicate Meant(cl: string, k: nat) {
    !SomeClass(cl) || 'a' in cl || (if k == 0 then 'u' in cl else if k == 1 then 'g' in cl else 'o' in cl)
  }

  predicate Lettered(le: string, i: nat) { if i == 0 then 'r' in le else if i == 1 then 'w' in le else 'x' in le || 'X' in le }

  /** The clause names the i-th permission of the k-th class; without a class only where the
      umask allows it. */
  predicate Names(cl: string, le: string, t: Target, k: nat, i: nat) {
    Meant(cl, k) && Lettered(le, i) && (SomeClass(cl) || !At(Of(t.umask, k), i))
  }

  /** An X keeps the clause from giving execute permission to a file that has none. */
  predicate Gives(cl: string, le: string, t: Target, k: nat, i: nat) {
    Names(cl, le, t, k, i) && !(i == 2 && 'X' in le && !t.executable && !t.isDir)
  }

  /** What a symbolic clause does to each permission of each class. */
  lemma SymbolicDoes(w: string, cl: string, op: char, le: string, t: Target, p: Perm, k: nat, i: nat)
    requires Symbolic(w, cl, op, le) && k < 3 && i < 3
    ensures var q := Act(EffectOf(FeedAll(FRESH, w), t), p);
            if !Aimed(cl, t) then q == p
            else
              At(Of(q, k), i) == if op == '+' then At(Of(p, k), i) || Gives(cl, le, t, k, i)
                                 else if op == '-' then At(Of(p, k), i) && !Names(cl, le, t, k, i)
                                 else if Meant(cl, k) then Gives(cl, le, t, k, i) else At(Of(p, k), i)
  {
    ReadsSymbolic(w, cl, op, le);
    var c := FeedAll(FRESH, w);
    MeansTheSame(c, cl, le, t, k, i);
    if Applies(c, t) { ActAt(c, t, p, k, i); }
  }

  lemma MeansTheSame(c: Clause, cl: string, le: string, t: Target, k: nat, i: nat)
    requires k < 3 && i < 3 && c.who == Classes(cl).who && c.what == Three('r' in le, 'w' in le, 'x' in le || 'X' in le)
    requires c.keepX == ('X' in le) && c.dirsOnly == ('D' in cl) && c.filesOnly == ('F' in cl)
    ensures Marks(c, t, k, i) == Names(cl, le, t, k, i) && At(Who(c), k) == Meant(cl, k) && Applies(c, t) == Aimed(cl, t)
  {
  }

  /** And to the set-id and sticky bits: '=' clears those of the classes named, if any of the
      three is given. */
  lemma SymbolicDoesTop(w: string, cl: string, op: char, le: string, t: Target, p: Perm, i: nat)
    requires Symbolic(w, cl, op, le) && i < 3
    ensures var q, tops := Act(EffectOf(FeedAll(FRESH, w), t), p), Tops(cl, le);
            Aimed(cl, t) ==>
              At(q.top, i) == if op == '+' then At(p.top, i) || At(tops, i)
                              else if op == '-' then At(p.top, i) && !At(tops, i)
                              else if tops != NONE && (if i == 0 then 'u' in cl else i == 1 && 'g' in cl) then At(tops, i)
                              else At(p.top, i) || At(tops, i)
  {
    ReadsSymbolic(w, cl, op, le);
    var c := FeedAll(FRESH, w);
    if Applies(c, t) { ActTop(c, t, p, i); }
  }

  lemma ActTop(c: Clause, t: Target, p: Perm, i: nat)
    requires i < 3 && c.op in {Add, Sub, Eq} && Applies(c, t)
    ensures At(Act(EffectOf(c, t), p).top, i) ==
      if c.op == Add then At(p.top, i) || At(c.topOct, i)
      else if c.op == Sub then At(p.top, i) && !At(c.topOct, i)
      else (At(p.top, i) && !(c.topOct != NONE && At(c.topBits, i))) || At(c.topOct, i)
  {
  }

  /** A number replaces all twelve bits. */
  lemma NumericDoes(w: string, cl: string, ds: string, t: Target, p: Perm)
    requires Numeric(w, cl, ds)
    ensures var q := Act(EffectOf(FeedAll(FRESH, w), t), p);
            if Aimed(cl, t) then Value(q) == Octal8(ds) else q == p
  {
    ReadsNumeric(w, cl, ds);
    var n := FeedAll(FRESH, w).number;
    assert Act(EffectOf(FeedAll(FRESH, w), t), p) == if Aimed(cl, t) then n else p;
  }

  // ---- Which specs are accepted ----

  ghost predicate IsSymbolic(w: string) { exists cl, op, le :: Symbolic(w, cl, op, le) }

  ghost predicate IsNumeric(w: string) { exists cl, ds :: Numeric(w, cl, ds) }

  /** What has been read so far, by the state the parser is in. */
  ghost predicate Shaped(w: string, s: Clause) {
    match s.half
    case First => AllClass(w) && Consistent(w) && s == Classes(w)
    case Second => IsSymbolic(w) && s.op in {Add, Sub, Eq}
    case Octal => IsNumeric(w) && s.op == Set
    case Bad => true
  }

  lemma {:induction false} ParserShape(w: string)
    ensures Shaped(w, FeedAll(FRESH, w))
  {
    if w != "" {
      var n := |w| - 1;
      ParserShape(w[..n]);
      assert w == w[..n] + [w[n]];
      OneMore(w[..n], w[n]);
    }
  }

  /** What a character that is not refused must be. */
  lemma NotRefused(s: Clause, c: char)
    requires !Feed(s, c).half.Bad?
    ensures s.half.Second? ==> Letter(c) && Feed(s, c).half.Second? && Feed(s, c).op == s.op
    ensures s.half.Octal? ==> '0' <= c <= '7' && Feed(s, c).half.Octal? && Feed(s, c).op == s.op
    ensures s.half.First? ==> Feed(s, c) == FeedFirst(s, c)
  {
  }

  lemma FeedSnoc(w: string, c: char)
    ensures FeedAll(FRESH, w + [c]) == Feed(FeedAll(FRESH, w), c)
  {
    assert (w + [c])[..|w|] == w;
  }

  lemma OneMore(w: string, c: char)
    requires Shaped(w, FeedAll(FRESH, w))
    ensures Shaped(w + [c], FeedAll(FRESH, w + [c]))
  {
    var s := FeedAll(FRESH, w);
    FeedSnoc(w, c);
    if !Feed(s, c).half.Bad? {
      NotRefused(s, c);
      if s.half.First? {
        AfterClasses(w, c);
      } else if s.half.Second? {
        var cl, op, le :| Symbolic(w, cl, op, le);
        assert w + [c] == cl + [op] + (le + [c]);
        assert Symbolic(w + [c], cl, op, le + [c]);
      } else if s.half.Octal? {
        var cl, ds :| Numeric(w, cl, ds);
        MoreDigits(w, cl, ds, c);
      }
    }
  }

  lemma MoreDigits(w: string, cl: string, ds: string, c: char)
    requires Numeric(w, cl, ds) && '0' <= c <= '7' && !FeedAll(FRESH, w + [c]).half.Bad?
    ensures Numeric(w + [c], cl, ds + [c])
  {
    assert w + [c] == cl + (ds + [c]);
    FeedConcat(FRESH, cl, ds + [c]);
    ReadsClasses(cl);
    ReadsDigits(cl, ds + [c]);
  }

  lemma AfterClasses(w: string, c: char)
    requires AllClass(w) && Consistent(w) && !FeedFirst(Classes(w), c).half.Bad?
    ensures Shaped(w + [c], FeedFirst(Classes(w), c))
  {
    if ClassLetter(c) {
      OneClass(w, c);
    } else if c in "+-=" {
      assert w + [c] == w + [c] + "" && Symbolic(w + [c], w, c, "");
    } else {
      assert [c][..0] == "" && Octal8([c]) == 8 * Octal8("") + (c as int - '0' as int);
      assert Numeric(w + [c], w, [c]);
    }
  }

  /** A clause is accepted if and only if it is classes, an operator and letters, or an octal
      number of twelve bits. */
  lemma ClauseAccepted(w: string)
    ensures var s := FeedAll(FRESH, w);
            !s.half.Bad? && !s.op.NoOp? <==> IsSymbolic(w) || IsNumeric(w)
  {
    ParserShape(w);
    if cl, op, le :| Symbolic(w, cl, op, le) { ReadsSymbolic(w, cl, op, le); }
    if cl, ds :| Numeric(w, cl, ds) { ReadsNumeric(w, cl, ds); }
  }

  lemma {:induction false} ParseOne(w: string, i: nat)
    requires ',' !in w && i <= |w|
    ensures Clauses(w[i..], FeedAll(FRESH, w[..i])) == Clauses("", FeedAll(FRESH, w))
    decreases |w| - i
  {
    var s := FeedAll(FRESH, w[..i]);
    if i == |w| {
      assert w[i..] == "" && w[..i] == w;
    } else {
      ParseOne(w, i + 1);
      assert w[..i + 1][..i] == w[..i] && w[i..][1..] == w[i + 1..] && w[i] in w;
      if s.half.Bad? { BadStays(w, i); }
    }
  }

  lemma {:induction false} BadStays(w: string, i: nat)
    requires i <= |w| && FeedAll(FRESH, w[..i]).half.Bad?
    ensures FeedAll(FRESH, w).half.Bad?
  {
    if i == |w| {
      assert w[..i] == w;
    } else {
      assert w[..|w| - 1][..i] == w[..i];
      BadStays(w[..|w| - 1], i);
    }
  }

  /** A spec without a comma is accepted exactly if it is such a clause, and is then that one
      clause; with CommaJoins this settles every spec. */
  lemma SpecAccepted(w: string)
    requires ',' !in w
    ensures Parse(w).Accepted? <==> IsSymbolic(w) || IsNumeric(w)
    ensures Parse(w).Accepted? ==> Parse(w).clauses == [FeedAll(FRESH, w)]
  {
    assert w[0..] == w && w[..0] == "";
    ParseOne(w, 0);
    ClauseAccepted(w);
  }
}
