/** chmod_apply as it computes: integers for modes, masks, classes and bits, with sums,
    products, differences and bitwise operations, the file type in the same word. */
module ChmodRun {
  import opened Chmod
  import opened ChmodLaws

  // ---- Bitwise operations on integers ----

  function BitAnd(x: nat, y: nat): nat
    decreases x + y
  {
    if x == 0 && y == 0 then 0 else 2 * BitAnd(x / 2, y / 2) + if x % 2 == 1 && y % 2 == 1 then 1 else 0
  }

  function BitOr(x: nat, y: nat): nat
    decreases x + y
  {
    if x == 0 && y == 0 then 0 else 2 * BitOr(x / 2, y / 2) + if x % 2 == 1 || y % 2 == 1 then 1 else 0
  }

  lemma AndStep(x: nat, a: nat, i: nat, y: nat, b: nat, j: nat, r: nat)
    requires x == 2 * a + i && y == 2 * b + j && i <= 1 && j <= 1 && r == if i == 1 && j == 1 then 1 else 0
    ensures BitAnd(x, y) == 2 * BitAnd(a, b) + r
  {
    assert x / 2 == a && y / 2 == b && x % 2 == i && y % 2 == j;
  }

  lemma AndTwo(a: nat, i1: nat, i0: nat, b: nat, j1: nat, j0: nat, r1: nat, r0: nat)
    requires i1 <= 1 && j1 <= 1 && r1 == (if i1 == 1 && j1 == 1 then 1 else 0)
    requires i0 <= 1 && j0 <= 1 && r0 == (if i0 == 1 && j0 == 1 then 1 else 0)
    ensures BitAnd(4 * a + 2 * i1 + i0, 4 * b + 2 * j1 + j0) == 4 * BitAnd(a, b) + 2 * r1 + r0
  {
    AndStep(2 * a + i1, a, i1, 2 * b + j1, b, j1, r1);
    AndStep(4 * a + 2 * i1 + i0, 2 * a + i1, i0, 4 * b + 2 * j1 + j0, 2 * b + j1, j0, r0);
  }

  lemma AndDigit(a: nat, i2: nat, i1: nat, i0: nat, b: nat, j2: nat, j1: nat, j0: nat, r2: nat, r1: nat, r0: nat)
    requires i2 <= 1 && j2 <= 1 && r2 == (if i2 == 1 && j2 == 1 then 1 else 0)
    requires i1 <= 1 && j1 <= 1 && r1 == (if i1 == 1 && j1 == 1 then 1 else 0)
    requires i0 <= 1 && j0 <= 1 && r0 == (if i0 == 1 && j0 == 1 then 1 else 0)
    ensures BitAnd(8 * a + 4 * i2 + 2 * i1 + i0, 8 * b + 4 * j2 + 2 * j1 + j0) == 8 * BitAnd(a, b) + 4 * r2 + 2 * r1 + r0
  {
    AndStep(2 * a + i2, a, i2, 2 * b + j2, b, j2, r2);
    AndTwo(2 * a + i2, i1, i0, 2 * b + j2, j1, j0, r1, r0);
  }

  /** One octal digit at a time. */
  lemma AndThree(a: nat, s: Three, b: nat, t: Three)
    ensures BitAnd(8 * a + Num(s), 8 * b + Num(t)) == 8 * BitAnd(a, b) + Num(And3(s, t))
  {
    AndDigit(a, Bit(s.a), Bit(s.b), Bit(s.c), b, Bit(t.a), Bit(t.b), Bit(t.c),
              Bit(s.a && t.a), Bit(s.b && t.b), Bit(s.c && t.c));
  }

  lemma AndDigits(a: nat, n1: nat, n0: nat, b: nat, m1: nat, m0: nat, r1: nat, r0: nat)
    requires BitAnd(8 * a + n1, 8 * b + m1) == 8 * BitAnd(a, b) + r1
    requires BitAnd(8 * (8 * a + n1) + n0, 8 * (8 * b + m1) + m0) == 8 * BitAnd(8 * a + n1, 8 * b + m1) + r0
    ensures BitAnd(64 * a + 8 * n1 + n0, 64 * b + 8 * m1 + m0) == 64 * BitAnd(a, b) + 8 * r1 + r0
  {
    assert 64 * a + 8 * n1 + n0 == 8 * (8 * a + n1) + n0 && 64 * b + 8 * m1 + m0 == 8 * (8 * b + m1) + m0;
  }

  lemma AndBelow(a: nat, n1: nat, i2: nat, i1: nat, i0: nat, b: nat, m1: nat, j2: nat, j1: nat, j0: nat,
                 r: nat, r2: nat, r1: nat, r0: nat)
    requires BitAnd(8 * a + n1, 8 * b + m1) == 8 * BitAnd(a, b) + r
    requires i2 <= 1 && j2 <= 1 && r2 == (if i2 == 1 && j2 == 1 then 1 else 0)
    requires i1 <= 1 && j1 <= 1 && r1 == (if i1 == 1 && j1 == 1 then 1 else 0)
    requires i0 <= 1 && j0 <= 1 && r0 == (if i0 == 1 && j0 == 1 then 1 else 0)
    ensures BitAnd(64 * a + 8 * n1 + 4 * i2 + 2 * i1 + i0, 64 * b + 8 * m1 + 4 * j2 + 2 * j1 + j0)
         == 64 * BitAnd(a, b) + 8 * r + 4 * r2 + 2 * r1 + r0
  {
    AndDigit(8 * a + n1, i2, i1, i0, 8 * b + m1, j2, j1, j0, r2, r1, r0);
    AndDigits(a, n1, 4 * i2 + 2 * i1 + i0, b, m1, 4 * j2 + 2 * j1 + j0, r, 4 * r2 + 2 * r1 + r0);
  }

  lemma AndSecond(a: nat, n1: nat, s0: Three, b: nat, m1: nat, t0: Three, r1: nat)
    requires BitAnd(8 * a + n1, 8 * b + m1) == 8 * BitAnd(a, b) + r1
    ensures BitAnd(64 * a + 8 * n1 + Num(s0), 64 * b + 8 * m1 + Num(t0)) == 64 * BitAnd(a, b) + 8 * r1 + Num(And3(s0, t0))
  {
    AndBelow(a, n1, Bit(s0.a), Bit(s0.b), Bit(s0.c), b, m1, Bit(t0.a), Bit(t0.b), Bit(t0.c),
             r1, Bit(s0.a && t0.a), Bit(s0.b && t0.b), Bit(s0.c && t0.c));
  }

  lemma AndSix(a: nat, s1: Three, s0: Three, b: nat, t1: Three, t0: Three)
    ensures BitAnd(64 * a + 8 * Num(s1) + Num(s0), 64 * b + 8 * Num(t1) + Num(t0))
         == 64 * BitAnd(a, b) + 8 * Num(And3(s1, t1)) + Num(And3(s0, t0))
  {
    AndThree(a, s1, b, t1);
    AndSecond(a, Num(s1), s0, b, Num(t1), t0, Num(And3(s1, t1)));
  }

  lemma OrStep(x: nat, a: nat, i: nat, y: nat, b: nat, j: nat, r: nat)
    requires x == 2 * a + i && y == 2 * b + j && i <= 1 && j <= 1 && r == if i == 1 || j == 1 then 1 else 0
    ensures BitOr(x, y) == 2 * BitOr(a, b) + r
  {
    assert x / 2 == a && y / 2 == b && x % 2 == i && y % 2 == j;
  }

  lemma OrTwo(a: nat, i1: nat, i0: nat, b: nat, j1: nat, j0: nat, r1: nat, r0: nat)
    requires i1 <= 1 && j1 <= 1 && r1 == (if i1 == 1 || j1 == 1 then 1 else 0)
    requires i0 <= 1 && j0 <= 1 && r0 == (if i0 == 1 || j0 == 1 then 1 else 0)
    ensures BitOr(4 * a + 2 * i1 + i0, 4 * b + 2 * j1 + j0) == 4 * BitOr(a, b) + 2 * r1 + r0
  {
    OrStep(2 * a + i1, a, i1, 2 * b + j1, b, j1, r1);
    OrStep(4 * a + 2 * i1 + i0, 2 * a + i1, i0, 4 * b + 2 * j1 + j0, 2 * b + j1, j0, r0);
  }

  lemma OrDigit(a: nat, i2: nat, i1: nat, i0: nat, b: nat, j2: nat, j1: nat, j0: nat, r2: nat, r1: nat, r0: nat)
    requires i2 <= 1 && j2 <= 1 && r2 == (if i2 == 1 || j2 == 1 then 1 else 0)
    requires i1 <= 1 && j1 <= 1 && r1 == (if i1 == 1 || j1 == 1 then 1 else 0)
    requires i0 <= 1 && j0 <= 1 && r0 == (if i0 == 1 || j0 == 1 then 1 else 0)
    ensures BitOr(8 * a + 4 * i2 + 2 * i1 + i0, 8 * b + 4 * j2 + 2 * j1 + j0) == 8 * BitOr(a, b) + 4 * r2 + 2 * r1 + r0
  {
    OrStep(2 * a + i2, a, i2, 2 * b + j2, b, j2, r2);
    OrTwo(2 * a + i2, i1, i0, 2 * b + j2, j1, j0, r1, r0);
  }

  /** One octal digit at a time. */
  lemma OrThree(a: nat, s: Three, b: nat, t: Three)
    ensures BitOr(8 * a + Num(s), 8 * b + Num(t)) == 8 * BitOr(a, b) + Num(Or3(s, t))
  {
    OrDigit(a, Bit(s.a), Bit(s.b), Bit(s.c), b, Bit(t.a), Bit(t.b), Bit(t.c),
              Bit(s.a || t.a), Bit(s.b || t.b), Bit(s.c || t.c));
  }

  lemma OrDigits(a: nat, n1: nat, n0: nat, b: nat, m1: nat, m0: nat, r1: nat, r0: nat)
    requires BitOr(8 * a + n1, 8 * b + m1) == 8 * BitOr(a, b) + r1
    requires BitOr(8 * (8 * a + n1) + n0, 8 * (8 * b + m1) + m0) == 8 * BitOr(8 * a + n1, 8 * b + m1) + r0
    ensures BitOr(64 * a + 8 * n1 + n0, 64 * b + 8 * m1 + m0) == 64 * BitOr(a, b) + 8 * r1 + r0
  {
    assert 64 * a + 8 * n1 + n0 == 8 * (8 * a + n1) + n0 && 64 * b + 8 * m1 + m0 == 8 * (8 * b + m1) + m0;
  }

  lemma OrBelow(a: nat, n1: nat, i2: nat, i1: nat, i0: nat, b: nat, m1: nat, j2: nat, j1: nat, j0: nat,
                 r: nat, r2: nat, r1: nat, r0: nat)
    requires BitOr(8 * a + n1, 8 * b + m1) == 8 * BitOr(a, b) + r
    requires i2 <= 1 && j2 <= 1 && r2 == (if i2 == 1 || j2 == 1 then 1 else 0)
    requires i1 <= 1 && j1 <= 1 && r1 == (if i1 == 1 || j1 == 1 then 1 else 0)
    requires i0 <= 1 && j0 <= 1 && r0 == (if i0 == 1 || j0 == 1 then 1 else 0)
    ensures BitOr(64 * a + 8 * n1 + 4 * i2 + 2 * i1 + i0, 64 * b + 8 * m1 + 4 * j2 + 2 * j1 + j0)
         == 64 * BitOr(a, b) + 8 * r + 4 * r2 + 2 * r1 + r0
  {
    OrDigit(8 * a + n1, i2, i1, i0, 8 * b + m1, j2, j1, j0, r2, r1, r0);
    OrDigits(a, n1, 4 * i2 + 2 * i1 + i0, b, m1, 4 * j2 + 2 * j1 + j0, r, 4 * r2 + 2 * r1 + r0);
  }

  lemma OrSecond(a: nat, n1: nat, s0: Three, b: nat, m1: nat, t0: Three, r1: nat)
    requires BitOr(8 * a + n1, 8 * b + m1) == 8 * BitOr(a, b) + r1
    ensures BitOr(64 * a + 8 * n1 + Num(s0), 64 * b + 8 * m1 + Num(t0)) == 64 * BitOr(a, b) + 8 * r1 + Num(Or3(s0, t0))
  {
    OrBelow(a, n1, Bit(s0.a), Bit(s0.b), Bit(s0.c), b, m1, Bit(t0.a), Bit(t0.b), Bit(t0.c),
             r1, Bit(s0.a || t0.a), Bit(s0.b || t0.b), Bit(s0.c || t0.c));
  }

  lemma OrSix(a: nat, s1: Three, s0: Three, b: nat, t1: Three, t0: Three)
    ensures BitOr(64 * a + 8 * Num(s1) + Num(s0), 64 * b + 8 * Num(t1) + Num(t0))
         == 64 * BitOr(a, b) + 8 * Num(Or3(s1, t1)) + Num(Or3(s0, t0))
  {
    OrThree(a, s1, b, t1);
    OrSecond(a, Num(s1), s0, b, Num(t1), t0, Num(Or3(s1, t1)));
  }

  lemma {:induction false} AndZero(k: nat)
    ensures BitAnd(k, 0) == 0
  {
    if k > 0 { AndZero(k / 2); }
  }

  lemma {:induction false} OrZero(k: nat)
    ensures BitOr(k, 0) == k && BitOr(0, k) == k
  {
    if k > 0 { OrZero(k / 2); }
  }

  /** A word of file type and permissions. */
  function Word(kind: nat, p: Perm): nat { 4096 * kind + Value(p) }

  lemma AndWords(k: nat, p: Perm, l: nat, q: Perm)
    ensures BitAnd(Word(k, p), Word(l, q)) == Word(BitAnd(k, l), And(p, q))
  {
    var a, b := 64 * k + 8 * Num(p.top) + Num(p.u), 64 * l + 8 * Num(q.top) + Num(q.u);
    AndSix(k, p.top, p.u, l, q.top, q.u);
    AndSix(a, p.g, p.o, b, q.g, q.o);
    AndNested(k, p, l, q, a, b);
  }

  lemma AndNested(k: nat, p: Perm, l: nat, q: Perm, a: nat, b: nat)
    requires a == 64 * k + 8 * Num(p.top) + Num(p.u) && b == 64 * l + 8 * Num(q.top) + Num(q.u)
    requires BitAnd(a, b) == 64 * BitAnd(k, l) + 8 * Num(And3(p.top, q.top)) + Num(And3(p.u, q.u))
    requires BitAnd(64 * a + 8 * Num(p.g) + Num(p.o), 64 * b + 8 * Num(q.g) + Num(q.o))
          == 64 * BitAnd(a, b) + 8 * Num(And3(p.g, q.g)) + Num(And3(p.o, q.o))
    ensures BitAnd(Word(k, p), Word(l, q)) == Word(BitAnd(k, l), And(p, q))
  {
    assert Word(k, p) == 64 * a + 8 * Num(p.g) + Num(p.o) && Word(l, q) == 64 * b + 8 * Num(q.g) + Num(q.o);
  }

  lemma OrWords(k: nat, p: Perm, l: nat, q: Perm)
    ensures BitOr(Word(k, p), Word(l, q)) == Word(BitOr(k, l), Or(p, q))
  {
    var a, b := 64 * k + 8 * Num(p.top) + Num(p.u), 64 * l + 8 * Num(q.top) + Num(q.u);
    OrSix(k, p.top, p.u, l, q.top, q.u);
    OrSix(a, p.g, p.o, b, q.g, q.o);
    OrNested(k, p, l, q, a, b);
  }

  lemma OrNested(k: nat, p: Perm, l: nat, q: Perm, a: nat, b: nat)
    requires a == 64 * k + 8 * Num(p.top) + Num(p.u) && b == 64 * l + 8 * Num(q.top) + Num(q.u)
    requires BitOr(a, b) == 64 * BitOr(k, l) + 8 * Num(Or3(p.top, q.top)) + Num(Or3(p.u, q.u))
    requires BitOr(64 * a + 8 * Num(p.g) + Num(p.o), 64 * b + 8 * Num(q.g) + Num(q.o))
          == 64 * BitOr(a, b) + 8 * Num(Or3(p.g, q.g)) + Num(Or3(p.o, q.o))
    ensures BitOr(Word(k, p), Word(l, q)) == Word(BitOr(k, l), Or(p, q))
  {
    assert Word(k, p) == 64 * a + 8 * Num(p.g) + Num(p.o) && Word(l, q) == 64 * b + 8 * Num(q.g) + Num(q.o);
  }

  /** x & y, y being a mask without file type. */
  method AndInt(x: nat, y: nat, ghost k: nat, ghost p: Perm, ghost q: Perm) returns (z: nat)
    requires x == Word(k, p) && y == Word(0, q)
    ensures z == Word(0, And(p, q))
  {
    AndWords(k, p, 0, q);
    AndZero(k);
    z := BitAnd(x, y);
  }

  /** x | y, one of them without file type. */
  method OrInt(x: nat, y: nat, ghost k: nat, ghost p: Perm, ghost l: nat, ghost q: Perm) returns (z: nat)
    requires x == Word(k, p) && y == Word(l, q) && (k == 0 || l == 0)
    ensures z == Word(k + l, Or(p, q))
  {
    OrWords(k, p, l, q);
    OrZero(k);
    OrZero(l);
    z := BitOr(x, y);
  }

  // ---- Permissions from integers ----

  function ThreeOf(d: nat): Three { Three(d >= 4, d % 4 >= 2, d % 2 == 1) }

  lemma ThreeOfIs(d: nat)
    requires d < 8
    ensures Num(ThreeOf(d)) == d
  {
  }

  function PermOf(n: nat): Perm { Perm(ThreeOf(n / 512), ThreeOf(n / 64 % 8), ThreeOf(n / 8 % 8), ThreeOf(n % 8)) }

  lemma OctalDigits(n: nat)
    requires n < 4096
    ensures n == 512 * (n / 512) + 64 * (n / 64 % 8) + 8 * (n / 8 % 8) + n % 8 && n / 512 < 8
  {
    var a, b := n / 8, n / 64;
    assert n / 64 == a / 8 && n / 512 == b / 8;
  }

  lemma PermOfIs(n: nat)
    requires n < 4096
    ensures Value(PermOf(n)) == n
  {
    OctalDigits(n);
    ThreeOfIs(n / 512);
    ThreeOfIs(n / 64 % 8);
    ThreeOfIs(n / 8 % 8);
    ThreeOfIs(n % 8);
  }

  function ModeOf(mode: nat): Mode { Mode(mode / 4096, PermOf(mode % 4096)) }

  lemma ModeOfIs(mode: nat)
    ensures Word(ModeOf(mode).kind, ModeOf(mode).perm) == mode
  {
    PermOfIs(mode % 4096);
  }

  // ---- The registers of the loop ----

  datatype Regs = Regs(half: Half, op: Op, where: nat, what: nat, topbits: nat, topoct: nat,
                       keepX: bool, dirsOnly: bool, filesOnly: bool)

  const RESET: Regs := Regs(First, NoOp, 0, 0, 0, 0, false, false, false)

  /** The registers hold a clause under way. */
  ghost predicate Holds(r: Regs, s: Clause) {
    r.half == s.half && (!s.half.Bad? ==>
      && r.op == s.op && r.keepX == s.keepX && r.dirsOnly == s.dirsOnly && r.filesOnly == s.filesOnly
      && r.topbits == 512 * Num(s.topBits) && r.topoct == 512 * Num(s.topOct)
      && (s.half.First? ==> s.op.NoOp?) && (s.half.Second? ==> s.op.Add? || s.op.Sub? || s.op.Eq?)
      && (s.half.Octal? <==> s.op.Set?)
      && (if s.op.Set? then s.who == NONE && r.where == 1 && r.what == Value(s.number)
          else r.where == Where(s.who) && r.what == Num(s.what)))
  }

  lemma TopWord(t: Three)
    ensures Word(0, Top(t)) == 512 * Num(t)
  {
  }

  lemma WhatWord(t: Three)
    ensures Word(0, Perm(NONE, NONE, NONE, t)) == Num(t)
  {
  }

  const X: Three := Three(false, false, true)

  lemma WhereWord(who: Three)
    ensures Word(0, Spread(who, X)) == Where(who)
  {
    ProductIsSpread(who, X);
  }

  method OrTop(x: nat, y: nat, ghost s: Three, ghost t: Three) returns (z: nat)
    requires x == 512 * Num(s) && y == 512 * Num(t)
    ensures z == 512 * Num(Or3(s, t))
  {
    TopWord(s);
    TopWord(t);
    TopWord(Or3(s, t));
    z := OrInt(x, y, 0, Top(s), 0, Top(t));
    assert Or(Top(s), Top(t)) == Top(Or3(s, t));
  }

  method OrWhat(x: nat, y: nat, ghost s: Three, ghost t: Three) returns (z: nat)
    requires x == Num(s) && y == Num(t)
    ensures z == Num(Or3(s, t))
  {
    WhatWord(s);
    WhatWord(t);
    WhatWord(Or3(s, t));
    ghost var p, q := Perm(NONE, NONE, NONE, s), Perm(NONE, NONE, NONE, t);
    z := OrInt(x, y, 0, p, 0, q);
    assert Or(p, q) == Perm(NONE, NONE, NONE, Or3(s, t));
  }

  method OrWhere(x: nat, y: nat, ghost s: Three, ghost t: Three) returns (z: nat)
    requires x == Where(s) && y == Where(t)
    ensures z == Where(Or3(s, t))
  {
    WhereWord(s);
    WhereWord(t);
    WhereWord(Or3(s, t));
    z := OrInt(x, y, 0, Spread(s, X), 0, Spread(t, X));
    assert Or(Spread(s, X), Spread(t, X)) == Spread(Or3(s, t), X);
  }

  /** A class letter. */
  method ReadClass(r: Regs, c: char, ghost s: Clause) returns (n: Regs)
    requires Holds(r, s) && s.half.First? && (c == 'u' || c == 'g' || c == 'o' || c == 'a')
    ensures Holds(n, FeedFirst(s, c))
  {
    var where, topbits := r.where, r.topbits;
    if c == 'u' {
      where := OrWhere(where, 64, s.who, Three(true, false, false));
      topbits := OrTop(topbits, 2048, s.topBits, Three(true, false, false));
    } else if c == 'g' {
      where := OrWhere(where, 8, s.who, Three(false, true, false));
      topbits := OrTop(topbits, 1024, s.topBits, Three(false, true, false));
    } else if c == 'o' {
      where := OrWhere(where, 1, s.who, X);
    } else {
      where := OrWhere(where, 73, s.who, ALL);
      assert Or3(s.who, ALL) == ALL;
    }
    n := r.(where := where, topbits := topbits);
  }

  /** The first half of a clause: selectors, classes and the operator. */
  method ReadFirst(r: Regs, c: char, ghost s: Clause) returns (n: Regs)
    requires Holds(r, s) && s.half.First?
    ensures Holds(n, FeedFirst(s, c))
  {
    n := r;
    if c == 'D' {
      n := if r.filesOnly then r.(half := Bad) else r.(dirsOnly := true);
    } else if c == 'F' {
      n := if r.dirsOnly then r.(half := Bad) else r.(filesOnly := true);
    } else if c == 'u' || c == 'g' || c == 'o' || c == 'a' {
      n := ReadClass(r, c, s);
    } else if c == '+' {
      n := r.(op := Add, half := Second);
    } else if c == '-' {
      n := r.(op := Sub, half := Second);
    } else if c == '=' {
      n := r.(op := Eq, half := Second);
    } else if '0' <= c <= '7' && r.where == 0 {
      n := r.(op := Set, half := Octal, where := 1, what := c as int - '0' as int);
    } else {
      n := r.(half := Bad);
    }
  }

  /** The second half: permission letters. */
  method ReadSecond(r: Regs, c: char, ghost s: Clause) returns (n: Regs)
    requires Holds(r, s) && s.half.Second?
    ensures Holds(n, FeedSecond(s, c))
  {
    var what, topoct := r.what, r.topoct;
    if c == 'r' {
      what := OrWhat(what, 4, s.what, Three(true, false, false));
    } else if c == 'w' {
      what := OrWhat(what, 2, s.what, Three(false, true, false));
    } else if c == 'X' || c == 'x' {
      what := OrWhat(what, 1, s.what, X);
    } else if c == 's' {
      NumRange(s.topBits);
      if r.topbits != 0 {
        topoct := OrTop(topoct, r.topbits, s.topOct, s.topBits);
      } else {
        topoct := 2048;
      }
    } else if c == 't' {
      topoct := OrTop(topoct, 512, s.topOct, X);
    } else {
      return r.(half := Bad);
    }
    n := r.(what := what, topoct := topoct, keepX := r.keepX || c == 'X');
  }

  /** A further octal digit. */
  method ReadOctal(r: Regs, c: char, ghost s: Clause) returns (n: Regs)
    requires Holds(r, s) && s.half.Octal?
    ensures Holds(n, FeedOctal(s, c))
  {
    n := r;
    if '0' <= c <= '7' {
      OctalIsShift(s, c);
      n := n.(what := n.what * 8 + (c as int - '0' as int));
      if n.what > 4095 {
        n := n.(half := Bad);
      }
    } else {
      n := n.(half := Bad);
    }
  }

  method Read(r: Regs, c: char, ghost s: Clause) returns (n: Regs)
    requires Holds(r, s) && !s.half.Bad?
    ensures Holds(n, Feed(s, c))
  {
    match r.half
    case First => n := ReadFirst(r, c, s);
    case Second => n := ReadSecond(r, c, s);
    case Octal => n := ReadOctal(r, c, s);
    case Bad => n := r;
  }

  // ---- Finishing a clause ----

  lemma NoWhere(who: Three)
    ensures Where(who) == 0 <==> who == NONE
  {
  }

  /** The bits a clause names: classes times permissions; without a class all of them, as
      far as the umask lets them through. */
  method NamedBits(r: Regs, umask: nat, ghost s: Clause) returns (where: nat, bits: nat)
    requires Holds(r, s) && !s.half.Bad? && !s.op.NoOp? && umask < 4096
    ensures bits == Value(Bits(s, PermOf(umask)))
    ensures !s.op.Set? ==> where == Where(Who(s))
  {
    NoWhere(s.who);
    if r.where != 0 {
      where, bits := r.where, r.where * r.what;
      if !s.op.Set? { ProductIsSpread(s.who, s.what); }
    } else {
      where := 73;
      ProductIsSpread(ALL, s.what);
      PermOfIs(umask);
      DifferenceIsComplement(PermOf(umask));
      bits := AndInt(73 * r.what, 4095 - umask, 0, Spread(ALL, s.what), Not(PermOf(umask)));
    }
  }

  lemma SetMasks(s: Clause, mask: Perm)
    requires s.op.Set?
    ensures Value(AndMask(s, mask)) == 0 && OrMask(s, mask) == Bits(s, mask)
  {
  }

  lemma AddMasks(s: Clause, mask: Perm)
    requires s.op.Add?
    ensures Value(AndMask(s, mask)) == 4095 && Value(OrMask(s, mask)) == Value(Bits(s, mask)) + 512 * Num(s.topOct)
  {
    ArithmeticIsMasking(s, mask);
  }

  lemma SubMasks(s: Clause, mask: Perm)
    requires s.op.Sub?
    ensures Value(AndMask(s, mask)) == 4095 - Value(Bits(s, mask)) - 512 * Num(s.topOct) && Value(OrMask(s, mask)) == 0
  {
    ArithmeticIsMasking(s, mask);
  }

  lemma EqMasks(s: Clause, mask: Perm)
    requires s.op.Eq?
    ensures Value(AndMask(s, mask)) == 4095 - Where(Who(s)) * 7 - (if s.topOct != NONE then 512 * Num(s.topBits) else 0)
    ensures Value(OrMask(s, mask)) == Value(Bits(s, mask)) + 512 * Num(s.topOct)
  {
    ArithmeticIsMasking(s, mask);
  }

  /** The masks of a clause. */
  method Masks(r: Regs, umask: nat, ghost s: Clause) returns (and: nat, or: nat)
    requires Holds(r, s) && !s.half.Bad? && !s.op.NoOp? && umask < 4096
    ensures and == Value(AndMask(s, PermOf(umask))) && or == Value(OrMask(s, PermOf(umask)))
  {
    var where, bits := NamedBits(r, umask, s);
    NumRange(s.topOct);
    if r.op.Add? {
      AddMasks(s, PermOf(umask));
      and, or := 4095, bits + r.topoct;
    } else if r.op.Sub? {
      SubMasks(s, PermOf(umask));
      and, or := 4095 - bits - r.topoct, 0;
    } else if r.op.Eq? {
      EqMasks(s, PermOf(umask));
      and, or := 4095 - where * 7 - (if r.topoct != 0 then r.topbits else 0), bits + r.topoct;
    } else {
      SetMasks(s, PermOf(umask));
      and, or := 0, bits;
    }
  }

  /** Apply a finished clause to the word under change. */
  method Finish(r: Regs, umask: nat, isDir: bool, executable: bool, changed: nat, ghost s: Clause, ghost k: nat, ghost p: Perm)
    returns (next: nat, ghost l: nat)
    requires Holds(r, s) && !s.half.Bad? && !s.op.NoOp? && umask < 4096 && changed == Word(k, p)
    ensures next == Word(l, Act(EffectOf(s, Target(isDir, executable, PermOf(umask))), p))
  {
    next, l := changed, k;
    if !(r.dirsOnly && !isDir) && !(r.filesOnly && isDir) {
      ghost var a, o := AndMask(s, PermOf(umask)), OrMask(s, PermOf(umask));
      var and, or := Masks(r, umask, s);
      next := AndInt(changed, and, k, p, a);
      if r.keepX && !executable && !isDir {
        DifferenceIsComplement(EXEC);
        or := AndInt(or, 4095 - 73, 0, o, Not(EXEC));
        o := And(o, Not(EXEC));
      }
      next := OrInt(next, or, 0, And(p, a), 0, o);
      l := 0;
    }
  }

  // ---- The whole ----

  lemma ExecutableBits(p: Perm)
    ensures Value(And(p, EXEC)) != 0 <==> Executable(p)
  {
    NumRange(And3(p.u, EXEC.u));
  }

  /** What the loop starts from: is it a directory, is anything executable. */
  method Look(mode: nat) returns (nonperm: nat, isDir: bool, executable: bool)
    ensures nonperm == Word(mode / 4096, EMPTY)
    ensures isDir == (ModeOf(mode).kind == DIRECTORY) && executable == Executable(ModeOf(mode).perm)
  {
    ghost var start := ModeOf(mode);
    ModeOfIs(mode);
    ExecutableBits(start.perm);
    nonperm := mode - mode % 4096;
    isDir := nonperm / 4096 == DIRECTORY;
    var bits := AndInt(mode, 73, start.kind, start.perm, EXEC);
    executable := bits != 0;
  }

  /** (changed & 07777) | nonperm */
  method Recombine(changed: nat, nonperm: nat, ghost k: nat, ghost p: Perm, ghost kind: nat) returns (result: nat)
    requires changed == Word(k, p) && nonperm == Word(kind, EMPTY)
    ensures result == Word(kind, p)
  {
    var low := AndInt(changed, 4095, k, p, FULL);
    AllBits(p);
    result := OrInt(low, nonperm, 0, p, kind, EMPTY);
  }

  lemma AllBits(p: Perm)
    ensures And(p, FULL) == p && Or(p, EMPTY) == p && Word(0, FULL) == 4095
  {
  }

  lemma TypeKept(kind: nat, p: Perm)
    ensures Word(kind, p) / 4096 == kind
  {
    ValueRange(p);
    NumRange(p.top);
  }

  /** The loop: parse and apply clause by clause. */
  method Run(spec: string, mode: nat, umask: nat, isDir: bool, executable: bool, ghost t: Target)
    returns (ok: bool, changed: nat, ghost kind: nat)
    requires umask < 4096 && t == Target(isDir, executable, PermOf(umask))
    ensures ok <==> Parse(spec).Accepted?
    ensures ok ==> changed == Word(kind, ActAll(EffectsOf(Parse(spec).clauses, t), ModeOf(mode).perm))
  {
    ghost var start := ModeOf(mode).perm;
    ModeOfIs(mode);
    ok, changed, kind := false, mode, ModeOf(mode).kind;
    var r, p := RESET, 0;
    ghost var s := FRESH;
    ghost var done: seq<Clause> := [];
    NothingDone(spec, t, start);
    FreshHolds();
    while !r.half.Bad?
      invariant Holds(r, s) && Underway(spec, p, s, done) && !ok
      invariant changed == Word(kind, ActAll(EffectsOf(done, t), start))
      decreases |spec| - p
    {
      if p == |spec| || spec[p] == ',' {
        if r.op.NoOp? {
          return;
        }
        ActOne(done, s, t, start);
        changed, kind := Finish(r, umask, isDir, executable, changed, s, kind, ActAll(EffectsOf(done, t), start));
        if p == |spec| {
          LastClause(spec, p, s, done);
          return true, changed, kind;
        }
        NextClause(spec, p, s, done);
        FreshHolds();
        done, s := done + [s], FRESH;
        p, r := p + 1, RESET;
      } else {
        NextChar(spec, p, s, done);
        r := Read(r, spec[p], s);
        s := Feed(s, spec[p]);
        p := p + 1;
      }
    }
  }

  lemma FreshHolds()
    ensures Holds(RESET, FRESH) && !RESET.half.Bad?
  {
  }

  lemma NothingDone(spec: string, t: Target, start: Perm)
    ensures Underway(spec, 0, FRESH, []) && ActAll(EffectsOf([], t), start) == start
  {
    assert spec[0..] == spec;
    assert EffectsOf([], t) == [];
    if Parse(spec).Accepted? { assert [] + Parse(spec).clauses == Parse(spec).clauses; }
  }

  lemma LastClause(spec: string, p: nat, s: Clause, done: seq<Clause>)
    requires Underway(spec, p, s, done) && p == |spec| && !s.half.Bad? && !s.op.NoOp?
    ensures Parse(spec) == Accepted(done + [s])
  {
  }

  lemma EmptySpec()
    ensures Parse("").Rejected?
  {
  }

  /** chmod_apply: the result is the meaning of the spec, and the file type bits are those of
      the mode given. */
  method Apply(spec: string, mode: nat, umask: nat) returns (ok: bool, result: nat)
    requires umask < 4096
    ensures ok <==> Meaning(spec, ModeOf(mode), PermOf(umask)).Applied?
    ensures ok ==> var m := Meaning(spec, ModeOf(mode), PermOf(umask)).mode; result == Word(m.kind, m.perm)
    ensures ok ==> result / 4096 == mode / 4096
  {
    if |spec| == 0 {
      EmptySpec();
      return false, 0;
    }
    var nonperm, isDir, executable := Look(mode);
    ghost var t := TargetOf(ModeOf(mode), PermOf(umask));
    var changed;
    ghost var kind;
    ok, changed, kind := Run(spec, mode, umask, isDir, executable, t);
    result := 0;
    if ok {
      ghost var perm := ActAll(EffectsOf(Parse(spec).clauses, t), ModeOf(mode).perm);
      result := Recombine(changed, nonperm, kind, perm, mode / 4096);
      TypeKept(mode / 4096, perm);
    }
  }
}
