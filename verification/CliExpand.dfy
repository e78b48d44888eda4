/** Short-option clusters on the command line, written out one option per token. */
module CliExpand {

  /** Does a long option take the next token as its value: any table will do. */
  type Table = string -> bool

  predicate ShortTakesValue(c: char) { c == 'e' || c == 'B' || c == 'M' || c == 'f' || c == 'T' || c == '@' }

  /** Tokens written for one argument, and whether the next argument is a value. */
  datatype Piece = Piece(toks: seq<string>, awaits: bool)

  /** One optional '=' before an attached value is dropped. */
  function Attached(rest: string): string { if rest != "" && rest[0] == '=' then rest[1..] else rest }

  /** A cluster from its j-th character on. */
  function Cluster(tok: string, j: nat): Piece
    requires j <= |tok|
    decreases |tok| - j
  {
    if j == |tok| then Piece([], false)
    else
      var flag := ['-', tok[j]];
      if ShortTakesValue(tok[j]) then
        var value := Attached(tok[j + 1..]);
        if value != "" then Piece([flag, value], false) else Piece([flag], true)
      else
        var rest := Cluster(tok, j + 1);
        Piece([flag] + rest.toks, rest.awaits)
  }

  predicate Verbatim(first: bool, awaits: bool, tok: string) { first || awaits || |tok| < 2 || tok[0] != '-' }

  function Expanded(takes: Table, first: bool, awaits: bool, tok: string): Piece {
    if Verbatim(first, awaits, tok) then Piece([tok], false)
    else if tok[1] == '-' then Piece([tok], takes(tok))
    else Cluster(tok, 1)
  }

  function ExpandFrom(takes: Table, first: bool, awaits: bool, argv: seq<string>): seq<string>
    decreases |argv|
  {
    if argv == [] then []
    else
      var p := Expanded(takes, first, awaits, argv[0]);
      p.toks + ExpandFrom(takes, false, p.awaits, argv[1..])
  }

  function Expand(takes: Table, argv: seq<string>): seq<string> { ExpandFrom(takes, true, false, argv) }

  // ---- What a cluster stands for ----

  /** One option per letter. */
  function Flags(letters: string): seq<string> {
    if letters == "" then [] else [['-', letters[0]]] + Flags(letters[1..])
  }

  /** What is left of an attached value: all of it, or what follows one '='. */
  ghost predicate ValueOf(rest: string, value: string) {
    value != "" && if rest != "" && rest[0] == '=' then rest == "=" + value else rest == value
  }

  /** A cluster is one option per letter up to the first letter that takes a value, if there
      is one; what follows that is its value, and if nothing but a '=' does, the next
      argument is. */
  lemma {:induction false} ClusterExactly(tok: string, j: nat, m: nat)
    requires j <= m <= |tok| && (forall i :: j <= i < m ==> !ShortTakesValue(tok[i])) && (m < |tok| ==> ShortTakesValue(tok[m]))
    ensures var p := Cluster(tok, j);
            if m == |tok| then p == Piece(Flags(tok[j..]), false)
            else if tok[m + 1..] == "" || tok[m + 1..] == "=" then p == Piece(Flags(tok[j..m + 1]), true)
            else exists value :: ValueOf(tok[m + 1..], value) && p == Piece(Flags(tok[j..m + 1]) + [value], false)
    decreases m - j
  {
    if j < m {
      ClusterExactly(tok, j + 1, m);
      assert tok[j..][1..] == tok[j + 1..];
      if m < |tok| {
        assert tok[j..m + 1][1..] == tok[j + 1..m + 1];
        var flags := Flags(tok[j + 1..m + 1]);
        assert Flags(tok[j..m + 1]) == [['-', tok[j]]] + flags;
        if tok[m + 1..] != "" && tok[m + 1..] != "=" {
          var value :| ValueOf(tok[m + 1..], value) && Cluster(tok, j + 1) == Piece(flags + [value], false);
          assert [['-', tok[j]]] + (flags + [value]) == Flags(tok[j..m + 1]) + [value];
        }
      }
    } else if m < |tok| {
      var rest, value := tok[m + 1..], Attached(tok[m + 1..]);
      assert tok[j..m + 1] == [tok[m]] && tok[j..m + 1][1..] == "";
      assert Flags(tok[j..m + 1]) == [['-', tok[m]]];
      if value != "" {
        assert ValueOf(rest, value);
        assert Cluster(tok, j) == Piece(Flags(tok[j..m + 1]) + [value], false);
      }
    }
  }

  // ---- Expanding twice ----

  lemma {:induction false} ClusterStable(takes: Table, tok: string, j: nat, rest: seq<string>)
    requires j <= |tok| && !takes("--")
    ensures var p := Cluster(tok, j);
            ExpandFrom(takes, false, false, p.toks + rest) == p.toks + ExpandFrom(takes, false, p.awaits, rest)
    decreases |tok| - j
  {
    var p := Cluster(tok, j);
    if j == |tok| {
      assert [] + rest == rest;
    } else if ShortTakesValue(tok[j]) {
      ValueStable(takes, tok, j, rest);
    } else {
      ClusterStable(takes, tok, j + 1, rest);
      FlagThen(takes, tok[j], Cluster(tok, j + 1).toks, rest, ExpandFrom(takes, false, p.awaits, rest));
    }
  }

  lemma FlagThen(takes: Table, c: char, tail: seq<string>, rest: seq<string>, after: seq<string>)
    requires !ShortTakesValue(c) && !takes("--") && ExpandFrom(takes, false, false, tail + rest) == tail + after
    ensures ExpandFrom(takes, false, false, ([['-', c]] + tail) + rest) == ([['-', c]] + tail) + after
  {
    FlagStable(takes, c, tail + rest);
    Regroup(['-', c], tail, rest);
    Regroup(['-', c], tail, after);
  }

  lemma Regroup(flag: string, tail: seq<string>, rest: seq<string>)
    ensures [flag] + (tail + rest) == ([flag] + tail) + rest
  {
  }

  lemma ValueStable(takes: Table, tok: string, j: nat, rest: seq<string>)
    requires j < |tok| && ShortTakesValue(tok[j]) && !takes("--")
    ensures var p := Cluster(tok, j);
            ExpandFrom(takes, false, false, p.toks + rest) == p.toks + ExpandFrom(takes, false, p.awaits, rest)
  {
    var p := Cluster(tok, j);
    if p.awaits {
      FlagStable(takes, tok[j], rest);
    } else {
      ValueThen(takes, tok[j], p.toks[1], rest);
    }
  }

  lemma ValueThen(takes: Table, c: char, value: string, rest: seq<string>)
    requires ShortTakesValue(c) && !takes("--")
    ensures ExpandFrom(takes, false, false, [['-', c], value] + rest)
            == [['-', c], value] + ExpandFrom(takes, false, false, rest)
  {
    FlagStable(takes, c, [value] + rest);
    ValueKept(takes, value, rest);
    Regroup(['-', c], [value], rest);
    Regroup(['-', c], [value], ExpandFrom(takes, false, false, rest));
  }

  lemma ValueKept(takes: Table, value: string, rest: seq<string>)
    ensures ExpandFrom(takes, false, true, [value] + rest) == [value] + ExpandFrom(takes, false, false, rest)
  {
    assert ([value] + rest)[1..] == rest;
  }

  /** A flag on its own expands to itself and expects a value if it takes one. */
  lemma FlagStable(takes: Table, c: char, tail: seq<string>)
    requires !takes("--")
    ensures ExpandFrom(takes, false, false, [['-', c]] + tail) == [['-', c]] + ExpandFrom(takes, false, ShortTakesValue(c), tail)
  {
    var flag := ['-', c];
    assert ([flag] + tail)[1..] == tail;
    if c == '-' {
      assert flag == "--";
    } else {
      assert Cluster(flag, 2).toks == [] && flag[2..] == "";
      assert [flag] + [] == [flag];
    }
  }

  lemma ExpandedStable(takes: Table, first: bool, awaits: bool, tok: string, rest: seq<string>)
    requires !takes("--")
    ensures var p := Expanded(takes, first, awaits, tok);
            ExpandFrom(takes, first, awaits, p.toks + rest) == p.toks + ExpandFrom(takes, false, p.awaits, rest)
  {
    if Verbatim(first, awaits, tok) || tok[1] == '-' {
      assert ([tok] + rest)[1..] == rest;
    } else {
      ClusterStable(takes, tok, 1, rest);
    }
  }

  lemma {:induction false} ExpandFromStable(takes: Table, first: bool, awaits: bool, argv: seq<string>)
    requires !takes("--")
    ensures ExpandFrom(takes, first, awaits, ExpandFrom(takes, first, awaits, argv)) == ExpandFrom(takes, first, awaits, argv)
    decreases |argv|
  {
    if argv != [] {
      var p := Expanded(takes, first, awaits, argv[0]);
      var rest := ExpandFrom(takes, false, p.awaits, argv[1..]);
      ExpandFromStable(takes, false, p.awaits, argv[1..]);
      ExpandedStable(takes, first, awaits, argv[0], rest);
    }
  }

  /** Expansion is idempotent, "--" itself taking no value. */
  lemma ExpandIdempotent(takes: Table, argv: seq<string>)
    requires !takes("--")
    ensures Expand(takes, Expand(takes, argv)) == Expand(takes, argv)
  {
    ExpandFromStable(takes, true, false, argv);
  }

  // ---- Where tokens come from ----

  /** Whether the i-th argument is a value. */
  function Expects(takes: Table, argv: seq<string>, i: nat): bool
    requires i <= |argv|
  {
    if i == 0 then false else Expanded(takes, i == 1, Expects(takes, argv, i - 1), argv[i - 1]).awaits
  }

  function PieceAt(takes: Table, argv: seq<string>, i: nat): Piece
    requires i < |argv|
  {
    Expanded(takes, i == 0, Expects(takes, argv, i), argv[i])
  }

  /** The tokens and origins of the first i arguments. */
  function Upto(takes: Table, argv: seq<string>, i: nat): seq<string>
    requires i <= |argv|
  {
    if i == 0 then [] else Upto(takes, argv, i - 1) + PieceAt(takes, argv, i - 1).toks
  }

  function Origins(takes: Table, argv: seq<string>, i: nat): (o: seq<nat>)
    requires i <= |argv|
    ensures |o| == |Upto(takes, argv, i)|
  {
    if i == 0 then []
    else Origins(takes, argv, i - 1) + Copies(i - 1, |PieceAt(takes, argv, i - 1).toks|)
  }

  lemma {:induction false} UptoIsExpand(takes: Table, argv: seq<string>, i: nat)
    requires i <= |argv|
    ensures Upto(takes, argv, i) + ExpandFrom(takes, i == 0, Expects(takes, argv, i), argv[i..]) == Expand(takes, argv)
  {
    if i == 0 {
      assert argv[0..] == argv;
    } else {
      UptoIsExpand(takes, argv, i - 1);
      assert argv[i - 1..][1..] == argv[i..];
    }
  }

  /** Origins are arguments and never decrease; a token that is not part of a cluster is
      its argument, unchanged; and every argument is represented. */
  ghost predicate Faithful(takes: Table, argv: seq<string>, i: nat, toks: seq<string>, o: seq<nat>)
    requires i <= |argv|
  {
    && |toks| == |o|
    && (forall k :: 0 <= k < |o| ==> o[k] < i && (toks[k] == argv[o[k]] || IsCluster(takes, argv, o[k])))
    && (forall k, l :: 0 <= k <= l < |o| ==> o[k] <= o[l])
    && (forall a :: 0 <= a < i ==> a in o)
  }

  lemma FaithfulOne(takes: Table, argv: seq<string>, i: nat, toks: seq<string>, o: seq<nat>, p: seq<string>, more: seq<nat>)
    requires i < |argv| && Faithful(takes, argv, i, toks, o)
    requires p != [] && |more| == |p| && (forall k :: 0 <= k < |more| ==> more[k] == i)
    requires IsCluster(takes, argv, i) || p == [argv[i]]
    ensures Faithful(takes, argv, i + 1, toks + p, o + more)
  {
    assert more[0] in o + more;
    forall a | 0 <= a < i + 1 ensures a in o + more {
      if a < i { assert a in o; }
    }
  }

  lemma {:induction false} OriginsAreFaithful(takes: Table, argv: seq<string>, i: nat)
    requires i <= |argv|
    ensures Faithful(takes, argv, i, Upto(takes, argv, i), Origins(takes, argv, i))
  {
    if i > 0 {
      OriginsAreFaithful(takes, argv, i - 1);
      PieceNotEmpty(takes, argv, i - 1);
      var p := PieceAt(takes, argv, i - 1).toks;
      FaithfulOne(takes, argv, i - 1, Upto(takes, argv, i - 1), Origins(takes, argv, i - 1), p, Copies(i - 1, |p|));
    }
  }

  predicate IsCluster(takes: Table, argv: seq<string>, i: nat)
    requires i < |argv|
  {
    !Verbatim(i == 0, Expects(takes, argv, i), argv[i]) && argv[i][1] != '-'
  }

  lemma PieceNotEmpty(takes: Table, argv: seq<string>, i: nat)
    requires i < |argv|
    ensures PieceAt(takes, argv, i).toks != []
    ensures !IsCluster(takes, argv, i) ==> PieceAt(takes, argv, i).toks == [argv[i]]
  {
  }

  lemma {:induction false} LaterTokens(takes: Table, argv: seq<string>, i: nat, m: nat)
    requires i <= m <= |argv|
    ensures Upto(takes, argv, i) <= Upto(takes, argv, m) && Origins(takes, argv, i) <= Origins(takes, argv, m)
    ensures forall k :: |Upto(takes, argv, i)| <= k < |Upto(takes, argv, m)| ==> Origins(takes, argv, m)[k] >= i
  {
    if i < m { LaterTokens(takes, argv, i, m - 1); }
  }

  lemma AllTokens(takes: Table, argv: seq<string>)
    ensures Upto(takes, argv, |argv|) == Expand(takes, argv)
  {
    UptoIsExpand(takes, argv, |argv|);
    assert argv[|argv|..] == [];
  }

  /** The token at one place, and no other, comes from argument i. */
  ghost predicate OnlyToken(all: seq<string>, from: seq<nat>, at: nat, tok: string, i: nat) {
    && |from| == |all| && at < |all| && all[at] == tok
    && forall k :: 0 <= k < |from| ==> (from[k] == i <==> k == at)
  }

  /** An argument that an option takes as its value, even one that starts with a dash, is
      copied: it is one token of the expansion, the only one that comes from it. So is a
      positional argument. */
  lemma ValuesAreVerbatim(takes: Table, argv: seq<string>, i: nat)
    requires i < |argv| && (Expects(takes, argv, i) || argv[i] == "" || argv[i][0] != '-')
    ensures OnlyToken(Expand(takes, argv), Origins(takes, argv, |argv|), |Upto(takes, argv, i)|, argv[i], i)
  {
    AllTokens(takes, argv);
    TokenOf(takes, argv, i);
    LaterTokens(takes, argv, i + 1, |argv|);
    EarlierOrigins(takes, argv, i);
    OneOfAll(Upto(takes, argv, i), argv[i], Expand(takes, argv),
             Origins(takes, argv, i), i, Origins(takes, argv, |argv|));
  }

  lemma EarlierOrigins(takes: Table, argv: seq<string>, i: nat)
    requires i < |argv|
    ensures forall k :: 0 <= k < |Origins(takes, argv, i)| ==> Origins(takes, argv, i)[k] < i
  {
    OriginsAreFaithful(takes, argv, i);
  }

  lemma OneOfAll(before: seq<string>, tok: string, all: seq<string>, early: seq<nat>, i: nat, from: seq<nat>)
    requires before + [tok] <= all && early + [i] <= from && |early| == |before| && |from| == |all|
    requires forall k :: 0 <= k < |early| ==> early[k] < i
    requires forall k :: |before| + 1 <= k < |all| ==> from[k] >= i + 1
    ensures OnlyToken(all, from, |before|, tok, i)
  {
    OnlyThere(early, early + [i], from, i);
  }

  lemma TokenOf(takes: Table, argv: seq<string>, i: nat)
    requires i < |argv| && (Expects(takes, argv, i) || argv[i] == "" || argv[i][0] != '-')
    ensures Upto(takes, argv, i + 1) == Upto(takes, argv, i) + [argv[i]]
    ensures Origins(takes, argv, i + 1) == Origins(takes, argv, i) + [i]
  {
    assert PieceAt(takes, argv, i).toks == [argv[i]];
    assert Copies(i, 1) == [i];
  }

  lemma OnlyThere(before: seq<nat>, upto: seq<nat>, from: seq<nat>, i: nat)
    requires upto == before + [i] && upto <= from
    requires forall k :: 0 <= k < |before| ==> before[k] < i
    requires forall k :: |upto| <= k < |from| ==> from[k] >= i + 1
    ensures forall k :: 0 <= k < |from| ==> (from[k] == i <==> k == |before|)
  {
    assert forall k :: 0 <= k < |upto| ==> from[k] == upto[k];
  }

  // ---- The expansion as it runs ----

  function Capacity(argv: seq<string>): nat {
    if argv == [] then 1 else Capacity(argv[..|argv| - 1]) + |argv[|argv| - 1]| + 2
  }

  lemma {:induction false} CapacityGrows(argv: seq<string>, i: nat)
    requires i <= |argv|
    ensures Capacity(argv[..i]) <= Capacity(argv)
  {
    if i == |argv| {
      assert argv[..i] == argv;
    } else {
      assert argv[..|argv| - 1][..i] == argv[..i];
      CapacityGrows(argv[..|argv| - 1], i);
    }
  }

  lemma CapacityOne(argv: seq<string>, i: nat)
    requires i < |argv|
    ensures Capacity(argv[..i + 1]) == Capacity(argv[..i]) + |argv[i]| + 2
  {
    assert argv[..i + 1][..i] == argv[..i];
  }

  lemma {:induction false} ClusterSize(tok: string, j: nat)
    requires j <= |tok|
    ensures |Cluster(tok, j).toks| <= |tok| - j + 1
    decreases |tok| - j
  {
    if j < |tok| { ClusterSize(tok, j + 1); }
  }

  class Expansion {
    const exp: array<string>
    const orig: array<nat>
    var n: nat

    ghost predicate Valid()
      reads this
    {
      n <= exp.Length == orig.Length
    }

    constructor (capacity: nat)
      ensures Valid() && n == 0 && exp.Length == capacity && fresh(exp) && fresh(orig)
    {
      exp := new string[capacity];
      orig := new nat[capacity];
      n := 0;
    }

    /** Append a copy of a token and where it came from. */
    method Add(tok: string, i: nat)
      requires Valid() && n < exp.Length
      modifies `n, exp, orig
      ensures Valid() && n == old(n) + 1
      ensures exp[..n] == old(exp[..n]) + [tok] && orig[..n] == old(orig[..n]) + [i]
    {
      exp[n], orig[n] := tok, i;
      n := n + 1;
    }

    /** The loop over one cluster. */
    method AddCluster(tok: string, i: nat) returns (awaits: bool)
      requires Valid() && |tok| >= 1 && n + |Cluster(tok, 1).toks| <= exp.Length
      modifies `n, exp, orig
      ensures Valid() && awaits == Cluster(tok, 1).awaits
      ensures exp[..n] == old(exp[..n]) + Cluster(tok, 1).toks
      ensures orig[..n] == old(orig[..n]) + Copies(i, |Cluster(tok, 1).toks|)
    {
      ghost var before, from, done := exp[..n], orig[..n], [];
      var j := 1;
      assert from + Copies(i, 0) == from && before + [] == before;
      while j < |tok|
        invariant 1 <= j <= |tok| && Valid()
        invariant Cluster(tok, 1) == Prepend(done, Cluster(tok, j))
        invariant exp[..n] == before + done && orig[..n] == from + Copies(i, |done|)
      {
        PrependFlag(tok, j, done);
        done := AddOne(['-', tok[j]], i, before, from, done);
        if ShortTakesValue(tok[j]) {
          var value := Attached(tok[j + 1..]);
          if value != "" {
            done := AddOne(value, i, before, from, done);
            return false;
          }
          return true;
        }
        j := j + 1;
      }
      awaits := false;
    }

    method AddOne(tok: string, i: nat, ghost before: seq<string>, ghost from: seq<nat>, ghost done: seq<string>)
      returns (ghost more: seq<string>)
      requires Valid() && n < exp.Length
      requires exp[..n] == before + done && orig[..n] == from + Copies(i, |done|)
      modifies `n, exp, orig
      ensures Valid() && n == old(n) + 1 && more == done + [tok]
      ensures exp[..n] == before + more && orig[..n] == from + Copies(i, |more|)
    {
      Add(tok, i);
      more := done + [tok];
    }
  }

  function Copies(i: nat, k: nat): (s: seq<nat>)
    ensures |s| == k && forall x :: 0 <= x < k ==> s[x] == i
  {
    if k == 0 then [] else Copies(i, k - 1) + [i]
  }

  function Prepend(done: seq<string>, p: Piece): Piece { Piece(done + p.toks, p.awaits) }

  lemma PrependFlag(tok: string, j: nat, done: seq<string>)
    requires j < |tok|
    ensures var flag, value := ['-', tok[j]], Attached(tok[j + 1..]);
            Prepend(done, Cluster(tok, j)) ==
              if !ShortTakesValue(tok[j]) then Prepend(done + [flag], Cluster(tok, j + 1))
              else if value != "" then Piece(done + [flag] + [value], false) else Piece(done + [flag], true)
  {
    var flag := ['-', tok[j]];
    assert done + ([flag] + Cluster(tok, j + 1).toks) == (done + [flag]) + Cluster(tok, j + 1).toks;
    assert done + [flag, Attached(tok[j + 1..])] == done + [flag] + [Attached(tok[j + 1..])];
  }

  lemma FitsCapacity(takes: Table, argv: seq<string>, i: nat)
    requires i < |argv|
    ensures |PieceAt(takes, argv, i).toks| <= |argv[i]| + 2
  {
    if IsCluster(takes, argv, i) { ClusterSize(argv[i], 1); }
  }

  /** expand_short_clusters: the computed capacity is never exceeded, and the arrays hold
      the expansion and the origin of each token. */
  method ExpandShortClusters(takes: Table, argv: seq<string>) returns (e: Expansion)
    ensures e.Valid() && e.exp.Length == Capacity(argv) && e.n < e.exp.Length
    ensures e.exp[..e.n] == Expand(takes, argv)
    ensures e.orig[..e.n] == Origins(takes, argv, |argv|)
  {
    e := new Expansion(Capacity(argv));
    var awaits, i := false, 0;
    assert argv[..0] == [];
    while i < |argv|
      invariant 0 <= i <= |argv| && fresh(e) && fresh(e.exp) && fresh(e.orig) && e.Valid() && e.exp.Length == Capacity(argv)
      invariant awaits == Expects(takes, argv, i) && e.n < Capacity(argv[..i])
      invariant e.exp[..e.n] == Upto(takes, argv, i) && e.orig[..e.n] == Origins(takes, argv, i)
    {
      CapacityOne(argv, i);
      CapacityGrows(argv, i + 1);
      awaits := AddArgument(takes, argv, i, awaits, e);
      i := i + 1;
    }
    UptoIsExpand(takes, argv, |argv|);
    assert argv[..|argv|] == argv && argv[|argv|..] == [];
  }

  method AddArgument(takes: Table, argv: seq<string>, i: nat, awaits: bool, e: Expansion) returns (next: bool)
    requires i < |argv| && e.Valid() && e.n + |argv[i]| + 2 <= e.exp.Length && awaits == Expects(takes, argv, i)
    requires e.exp[..e.n] == Upto(takes, argv, i) && e.orig[..e.n] == Origins(takes, argv, i)
    modifies e`n, e.exp, e.orig
    ensures e.Valid() && e.n <= old(e.n) + |argv[i]| + 2 && next == Expects(takes, argv, i + 1)
    ensures e.exp[..e.n] == Upto(takes, argv, i + 1) && e.orig[..e.n] == Origins(takes, argv, i + 1)
  {
    var tok := argv[i];
    FitsCapacity(takes, argv, i);
    if i == 0 || awaits || |tok| < 2 || tok[0] != '-' {
      e.Add(tok, i);
      return false;
    }
    if tok[1] == '-' {
      e.Add(tok, i);
      return takes(tok);
    }
    next := e.AddCluster(tok, i);
  }
}
