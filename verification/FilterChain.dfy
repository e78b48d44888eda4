/** Filter rules: per-directory rule lists chained from a directory up to the
    transfer root, then the command-line rules, each side first match wins. */
module FilterChain {

  datatype Rule = Rule(exclude: bool, sender: bool, receiver: bool,
                       anchored: bool, dirOnly: bool, negate: bool, owner: string, pattern: string)

  type Rules = seq<Rule>

  /** Does a glob pattern match a string: any function will do. */
  type Glob = (string, string) -> bool

  /** The entry under judgement. */
  datatype Subject = Subject(rel: string, leaf: string, isDir: bool)

  datatype Side = Sender | Receiver
  datatype Action = NoAction | Exclude | Include | Protect | Risk

  /** A directory's own rules and the context it inherited. */
  datatype Chain = Root | Link(own: Rules, parent: Chain)

  predicate StartsWith(s: string, prefix: string) { |prefix| <= |s| && s[..|prefix|] == prefix }

  /** Matching from any path-component boundary of `s`, at or after position i. */
  predicate SuffixMatch(glob: Glob, pattern: string, s: string, i: nat)
    requires i <= |s|
    decreases |s| - i
  {
    if i == |s| then false
    else (s[i] == '/' && glob(pattern, s[i + 1..])) || SuffixMatch(glob, pattern, s, i + 1)
  }

  predicate PatternMatches(glob: Glob, rule: Rule, rel: string, x: Subject) {
    if rule.dirOnly && !x.isDir then false
    else if rule.anchored then glob(rule.pattern, rel)
    else if '/' in rule.pattern then glob(rule.pattern, rel) || SuffixMatch(glob, rule.pattern, rel, 0)
    else glob(rule.pattern, x.leaf)
  }

  /** The part of a path below a rule's owner directory, if it is below it. */
  predicate Below(owner: string, rel: string) {
    owner == "" || (StartsWith(rel, owner) && |rel| > |owner| && rel[|owner|] == '/')
  }

  function RuleAction(glob: Glob, rule: Rule, x: Subject, side: Side): Action {
    if !(if side.Sender? then rule.sender else rule.receiver) then NoAction
    else if !Below(rule.owner, x.rel) then NoAction
    else
      var rel := if rule.owner == "" then x.rel else x.rel[|rule.owner| + 1..];
      if rel == "" || PatternMatches(glob, rule, rel, x) == rule.negate then NoAction
      else if side.Receiver? then (if rule.exclude then Protect else Risk)
      else if rule.exclude then Exclude else Include
  }

  /** The action of the first rule that has one. */
  function FirstAction(glob: Glob, rules: Rules, x: Subject, side: Side): Action {
    if rules == [] then NoAction
    else
      var a := RuleAction(glob, rules[0], x, side);
      if a != NoAction then a else FirstAction(glob, rules[1..], x, side)
  }

  // ---- When a rule fires, said from its fields ----

  /** `rel` is what is left of a path below the owner directory of a rule. */
  ghost predicate LiesAt(owner: string, path: string, rel: string) {
    rel != "" && path == if owner == "" then rel else owner + "/" + rel
  }

  /** `tail` is the path or begins right after one of its slashes. */
  ghost predicate AtBoundary(path: string, tail: string) {
    tail == path || exists d :: path == d + "/" + tail
  }

  /** What a pattern is held against: the path below the owner if it is anchored, every tail
      of that path if it has a slash, and otherwise the name alone. */
  ghost predicate Held(rule: Rule, rel: string, leaf: string, s: string) {
    if rule.anchored then s == rel else if '/' in rule.pattern then AtBoundary(rel, s) else s == leaf
  }

  ghost predicate MatchedBy(glob: Glob, rule: Rule, rel: string, x: Subject) {
    (rule.dirOnly ==> x.isDir) && exists s :: Held(rule, rel, x.leaf, s) && glob(rule.pattern, s)
  }

  /** A rule fires on the entries of its side below its owner that it fits, a negated rule on
      those it does not fit. */
  ghost predicate Fires(glob: Glob, rule: Rule, x: Subject, side: Side) {
    && (match side case Sender => rule.sender case Receiver => rule.receiver)
    && exists rel :: LiesAt(rule.owner, x.rel, rel) && (MatchedBy(glob, rule, rel, x) <==> !rule.negate)
  }

  /** The i-th rule is the first that fires. */
  ghost predicate Decides(glob: Glob, rules: Rules, x: Subject, side: Side, i: nat) {
    i < |rules| && Fires(glob, rules[i], x, side) && forall j :: 0 <= j < i ==> !Fires(glob, rules[j], x, side)
  }

  /** The first rule that fires excludes. */
  ghost predicate FirstExcludes(glob: Glob, rules: Rules, x: Subject, side: Side) {
    exists i: nat :: Decides(glob, rules, x, side, i) && rules[i].exclude
  }

  /** The first rule that fires includes. */
  ghost predicate FirstIncludes(glob: Glob, rules: Rules, x: Subject, side: Side) {
    exists i: nat :: Decides(glob, rules, x, side, i) && !rules[i].exclude
  }

  lemma {:induction false} SuffixExactly(glob: Glob, pattern: string, s: string, i: nat)
    requires i <= |s|
    ensures SuffixMatch(glob, pattern, s, i) <==> exists k :: i <= k < |s| && s[k] == '/' && glob(pattern, s[k + 1..])
    decreases |s| - i
  {
    if i < |s| { SuffixExactly(glob, pattern, s, i + 1); }
  }

  lemma FitsExactly(glob: Glob, rule: Rule, rel: string, x: Subject)
    ensures PatternMatches(glob, rule, rel, x) <==> MatchedBy(glob, rule, rel, x)
  {
    assert AtBoundary(rel, rel);
    SuffixExactly(glob, rule.pattern, rel, 0);
    if k :| 0 <= k < |rel| && rel[k] == '/' && glob(rule.pattern, rel[k + 1..]) {
      assert rel == rel[..k] + "/" + rel[k + 1..];
      assert AtBoundary(rel, rel[k + 1..]);
    }
    if s :| AtBoundary(rel, s) && s != rel && glob(rule.pattern, s) {
      var d :| rel == d + "/" + s;
      assert rel[|d|] == '/' && rel[|d| + 1..] == s;
    }
    assert Held(rule, rel, x.leaf, if rule.anchored || '/' in rule.pattern then rel else x.leaf);
  }

  lemma LiesExactly(owner: string, path: string, rel: string)
    ensures LiesAt(owner, path, rel) <==>
      rel != "" && Below(owner, path) && rel == if owner == "" then path else path[|owner| + 1..]
  {
    if owner != "" {
      if path == owner + "/" + rel { assert path[|owner| + 1..] == rel && path[..|owner|] == owner; }
      if Below(owner, path) { assert path == path[..|owner|] + [path[|owner|]] + path[|owner| + 1..]; }
    }
  }

  function ActionOf(exclude: bool, side: Side): Action {
    match side
    case Sender => if exclude then Exclude else Include
    case Receiver => if exclude then Protect else Risk
  }

  /** A rule has an action exactly if it fires, and which one follows from its kind and side. */
  lemma FiresExactly(glob: Glob, rule: Rule, x: Subject, side: Side)
    ensures Fires(glob, rule, x, side) <==> RuleAction(glob, rule, x, side) != NoAction
    ensures Fires(glob, rule, x, side) ==> RuleAction(glob, rule, x, side) == ActionOf(rule.exclude, side)
  {
    if Below(rule.owner, x.rel) {
      var rel := if rule.owner == "" then x.rel else x.rel[|rule.owner| + 1..];
      LiesExactly(rule.owner, x.rel, rel);
      FitsExactly(glob, rule, rel, x);
    }
    forall rel ensures LiesAt(rule.owner, x.rel, rel) ==>
      Below(rule.owner, x.rel) && rel == if rule.owner == "" then x.rel else x.rel[|rule.owner| + 1..]
    {
      LiesExactly(rule.owner, x.rel, rel);
    }
  }

  /** A rule without owner, anchor and slash looks at nothing but the name. */
  lemma PlainRuleFires(glob: Glob, rule: Rule, x: Subject, side: Side)
    requires rule.owner == "" && !rule.anchored && '/' !in rule.pattern && x.rel != ""
    ensures Fires(glob, rule, x, side) <==>
      && (match side case Sender => rule.sender case Receiver => rule.receiver)
      && ((!rule.dirOnly || x.isDir) && glob(rule.pattern, x.leaf)) != rule.negate
  {
    assert LiesAt("", x.rel, x.rel);
    assert Held(rule, x.rel, x.leaf, x.leaf);
  }

  lemma DecidesLater(glob: Glob, rules: Rules, x: Subject, side: Side, i: nat)
    requires rules != [] && !Fires(glob, rules[0], x, side)
    ensures Decides(glob, rules, x, side, i + 1) <==> Decides(glob, rules[1..], x, side, i)
    ensures !Decides(glob, rules, x, side, 0)
  {
    if Decides(glob, rules[1..], x, side, i) {
      forall j | 0 <= j < i + 1 ensures !Fires(glob, rules[j], x, side) {
        assert j == 0 || rules[j] == rules[1..][j - 1];
      }
    }
    if Decides(glob, rules, x, side, i + 1) {
      forall j | 0 <= j < i ensures !Fires(glob, rules[1..][j], x, side) { assert rules[1..][j] == rules[j + 1]; }
    }
  }

  /** The first rule that fires decides: an entry gets the action of that rule, and none if no
      rule fires. */
  lemma {:induction false} FirstDecides(glob: Glob, rules: Rules, x: Subject, side: Side)
    ensures forall i: nat :: Decides(glob, rules, x, side, i) ==>
      FirstAction(glob, rules, x, side) == ActionOf(rules[i].exclude, side)
    ensures FirstAction(glob, rules, x, side) != NoAction ==> exists i: nat :: Decides(glob, rules, x, side, i)
  {
    if rules != [] {
      FiresExactly(glob, rules[0], x, side);
      FirstDecides(glob, rules[1..], x, side);
      if Fires(glob, rules[0], x, side) {
        assert Decides(glob, rules, x, side, 0);
      } else {
        forall i: nat | Decides(glob, rules, x, side, i) ensures i > 0 && Decides(glob, rules[1..], x, side, i - 1) {
          DecidesLater(glob, rules, x, side, if i > 0 then i - 1 else 0);
        }
        if i: nat :| Decides(glob, rules[1..], x, side, i) { DecidesLater(glob, rules, x, side, i); }
      }
    }
  }

  /** An entry is excluded or protected exactly if the first rule that fires excludes, and
      included or at risk exactly if it includes. */
  lemma FirstExactly(glob: Glob, rules: Rules, x: Subject, side: Side)
    ensures FirstExcludes(glob, rules, x, side) <==> FirstAction(glob, rules, x, side) == ActionOf(true, side)
    ensures FirstIncludes(glob, rules, x, side) <==> FirstAction(glob, rules, x, side) == ActionOf(false, side)
  {
    FirstDecides(glob, rules, x, side);
  }

  // ---- Chains ----

  /** Innermost directory first, the command-line rules last. */
  function Flatten(chain: Chain, base: Rules): Rules {
    match chain
    case Root => base
    case Link(own, parent) => own + Flatten(parent, base)
  }

  predicate Hides(glob: Glob, chain: Chain, base: Rules, x: Subject) {
    FirstAction(glob, Flatten(chain, base), x, Sender) == Exclude
  }

  predicate Protects(glob: Glob, chain: Chain, base: Rules, x: Subject) {
    FirstAction(glob, Flatten(chain, base), x, Receiver) == Protect
  }

  lemma {:induction false} FirstOfConcat(glob: Glob, a: Rules, b: Rules, x: Subject, side: Side)
    ensures var first := FirstAction(glob, a, x, side);
            FirstAction(glob, a + b, x, side) == (if first != NoAction then first else FirstAction(glob, b, x, side))
  {
    if a == [] {
      assert a + b == b;
    } else {
      assert (a + b)[1..] == a[1..] + b;
      FirstOfConcat(glob, a[1..], b, x, side);
    }
  }

  /** filter_rules_apply_side */
  method ApplySide(glob: Glob, rules: Rules, x: Subject, side: Side) returns (action: Action)
    ensures action == FirstAction(glob, rules, x, side)
    ensures action == ActionOf(true, side) <==> FirstExcludes(glob, rules, x, side)
    ensures action == ActionOf(false, side) <==> FirstIncludes(glob, rules, x, side)
  {
    FirstExactly(glob, rules, x, side);
    var i := 0;
    while i < |rules|
      invariant 0 <= i <= |rules|
      invariant FirstAction(glob, rules, x, side) == FirstAction(glob, rules[i..], x, side)
    {
      action := RuleAction(glob, rules[i], x, side);
      if action != NoAction {
        return;
      }
      assert rules[i..][1..] == rules[i + 1..];
      i := i + 1;
    }
    action := NoAction;
  }

  /** chain_rules_outcome: one walk up the chain settles both sides, each as if it
      had been evaluated alone over the flattened list. */
  method ChainOutcome(glob: Glob, base: Rules, node: Chain, x: Subject) returns (hidden: bool, protect: bool)
    ensures hidden <==> Hides(glob, node, base, x)
    ensures protect <==> Protects(glob, node, base, x)
    ensures hidden <==> FirstExcludes(glob, Flatten(node, base), x, Sender)
    ensures protect <==> FirstExcludes(glob, Flatten(node, base), x, Receiver)
  {
    FirstExactly(glob, Flatten(node, base), x, Sender);
    FirstExactly(glob, Flatten(node, base), x, Receiver);
    hidden, protect := false, false;
    var senderDecided, receiverDecided := false, false;
    var n := node;
    ghost var s, r := FirstAction(glob, Flatten(node, base), x, Sender), FirstAction(glob, Flatten(node, base), x, Receiver);
    while !senderDecided || !receiverDecided
      invariant senderDecided ==> hidden == (s == Exclude)
      invariant receiverDecided ==> protect == (r == Protect)
      invariant !senderDecided ==> !hidden && s == FirstAction(glob, Flatten(n, base), x, Sender)
      invariant !receiverDecided ==> !protect && r == FirstAction(glob, Flatten(n, base), x, Receiver)
      decreases n
    {
      var list := if n.Link? then n.own else base;
      if n.Link? {
        FirstOfConcat(glob, n.own, Flatten(n.parent, base), x, Sender);
        FirstOfConcat(glob, n.own, Flatten(n.parent, base), x, Receiver);
      }
      if !senderDecided {
        var action := ApplySide(glob, list, x, Sender);
        if action != NoAction {
          hidden := action == Exclude;
          senderDecided := true;
        }
      }
      if !receiverDecided {
        var action := ApplySide(glob, list, x, Receiver);
        if action != NoAction {
          protect := action == Protect;
          receiverDecided := true;
        }
      }
      if n.Root? {
        break;
      }
      n := n.parent;
    }
  }

  /** How a scan selects entries. */
  datatype Selection = Selection(glob: Glob, base: Rules, filtering: bool, excludeFilterFiles: bool)

  datatype Verdict = Verdict(passes: bool, protect: bool)

  /** The rule files of the source stay behind where that is asked for. */
  predicate FilterFile(sel: Selection, x: Subject) { sel.excludeFilterFiles && !x.isDir && x.leaf == ".rsync-filter" }

  /** entry_passes_selection, without a --files-from list. */
  function Select(sel: Selection, chain: Chain, x: Subject): Verdict {
    if !sel.filtering then Verdict(true, false)
    else if sel.excludeFilterFiles && !x.isDir && x.leaf == ".rsync-filter" then Verdict(false, false)
    else Verdict(!Hides(sel.glob, chain, sel.base, x), Protects(sel.glob, chain, sel.base, x))
  }

  /** entry_passes_selection */
  method PassesSelection(sel: Selection, chain: Chain, x: Subject) returns (v: Verdict)
    ensures v == Select(sel, chain, x)
    ensures !v.passes <==> sel.filtering && (FilterFile(sel, x) || FirstExcludes(sel.glob, Flatten(chain, sel.base), x, Sender))
    ensures v.protect <==> sel.filtering && !FilterFile(sel, x) && FirstExcludes(sel.glob, Flatten(chain, sel.base), x, Receiver)
  {
    if !sel.filtering {
      return Verdict(true, false);
    }
    if sel.excludeFilterFiles && !x.isDir && x.leaf == ".rsync-filter" {
      return Verdict(false, false);
    }
    var hidden, protect := ChainOutcome(sel.glob, sel.base, chain, x);
    v := Verdict(!hidden, protect);
  }

  /** A rule with sides for both decides both, so with two-sided rules only (the
      default without --delete-excluded) hiding and protecting coincide. */
  lemma {:induction false} TwoSidedRulesAgree(glob: Glob, rules: Rules, x: Subject)
    requires forall i :: 0 <= i < |rules| ==> rules[i].sender == rules[i].receiver
    ensures FirstAction(glob, rules, x, Sender) == Exclude <==> FirstAction(glob, rules, x, Receiver) == Protect
    ensures FirstAction(glob, rules, x, Sender) == Include <==> FirstAction(glob, rules, x, Receiver) == Risk
  {
    if rules != [] { TwoSidedRulesAgree(glob, rules[1..], x); }
  }
}
