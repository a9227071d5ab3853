/**
 * `apply_remapping_rules_from_capabilities`: the rules of all nodes are
 * rewritten so that the names a required capability provides are used. For
 * each capability token, in order, every rule whose source contains the token
 * gets the target paired with the token's first occurrence.
 */
module CapabilityRemappings {
  import opened Wrappers
  import opened Names
  import opened LaunchConfig

  /** What `caps_list.get_cap_remappings(cap, from_list, to_list)` appends for one capability. */
  datatype CapRemappings = CapRemappings(from: seq<string>, to: seq<string>)

  /** The exception raised when capabilities are required but no capability list is given. */
  datatype CapabilityError = CapabilityListNotProvided

  /** The token and target lists after `get_cap_remappings` ran for each capability in turn. */
  function Collected(provided: seq<CapRemappings>): (r: (seq<string>, seq<string>))
    requires forall k :: 0 <= k < |provided| ==> |provided[k].from| == |provided[k].to|
    ensures |r.0| == |r.1|
    decreases |provided|
  {
    if provided == [] then ([], [])
    else
      var prev := Collected(provided[..|provided| - 1]);
      var last := provided[|provided| - 1];
      (prev.0 + last.from, prev.1 + last.to)
  }

  /** `xs.index(x)`: the first position of `x` in `xs`. */
  function IndexOf(xs: seq<string>, x: string): (i: nat)
    requires x in xs
    ensures i < |xs| && xs[i] == x
    ensures forall j :: 0 <= j < i ==> xs[j] != x
  {
    if xs[0] == x then 0 else 1 + IndexOf(xs[1..], x)
  }

  /** One token applied to one rule: the target is overwritten when the source contains the token. */
  function StepRule(rule: Rule, token: string, target: string): Rule
  {
    if IsSubstring(token, rule.0) then (rule.0, target) else rule
  }

  /** One token applied to a node's rules. */
  function StepRules(rules: seq<Rule>, token: string, target: string): (r: seq<Rule>)
    ensures |r| == |rules|
  {
    seq(|rules|, j requires 0 <= j < |rules| => StepRule(rules[j], token, target))
  }

  /** A rule after the first `n` tokens were applied; each token brings the target paired with its first occurrence. */
  function Overwritten(rule: Rule, from: seq<string>, to: seq<string>, n: nat): (r: Rule)
    requires n <= |from| == |to|
    ensures r.0 == rule.0
    decreases n
  {
    if n == 0 then rule
    else StepRule(Overwritten(rule, from, to, n - 1), from[n - 1], to[IndexOf(from, from[n - 1])])
  }

  /** A node's rules after the first `n` tokens were applied. */
  function OverwriteRules(rules: seq<Rule>, from: seq<string>, to: seq<string>, n: nat): (r: seq<Rule>)
    requires n <= |from| == |to|
    ensures |r| == |rules|
  {
    seq(|rules|, j requires 0 <= j < |rules| => Overwritten(rules[j], from, to, n))
  }

  /** Some rule of some node has a source containing `token`. */
  predicate MatchesSomeRule(token: string, rules: seq<seq<Rule>>)
  {
    exists i, j :: 0 <= i < |rules| && 0 <= j < |rules[i]| && IsSubstring(token, rules[i][j].0)
  }

  /** The tokens warned about, in iteration order: those no rule source contains. */
  function Unmatched(tokens: seq<string>, rules: seq<seq<Rule>>): (r: seq<string>)
    ensures forall t :: t in r <==> t in tokens && !MatchesSomeRule(t, rules)
    decreases |tokens|
  {
    if tokens == [] then []
    else
      var prefix := tokens[..|tokens| - 1];
      var last := tokens[|tokens| - 1];
      assert tokens == prefix + [last];
      Unmatched(prefix, rules) + if MatchesSomeRule(last, rules) then [] else [last]
  }

  /** The rule lists of the nodes. */
  function RulesOf(nodes: seq<Node>): (r: seq<seq<Rule>>)
    reads nodes
    ensures |r| == |nodes|
    ensures forall i :: 0 <= i < |nodes| ==> r[i] == nodes[i].remapArgs
  {
    seq(|nodes|, i requires 0 <= i < |nodes| reads nodes => nodes[i].remapArgs)
  }

  /** A rule whose source contains no token is left as it was. */
  lemma {:induction false} NoMatchUnchanged(rule: Rule, from: seq<string>, to: seq<string>, n: nat)
    requires n <= |from| == |to|
    requires forall k :: 0 <= k < n ==> !IsSubstring(from[k], rule.0)
    ensures Overwritten(rule, from, to, n) == rule
    decreases n
  {
    if n > 0 {
      NoMatchUnchanged(rule, from, to, n - 1);
    }
  }

  /**
   * When token `k` is the last of the first `n` tokens that the source
   * contains, the rule's target is the one paired with that token's first
   * occurrence in the token list.
   */
  lemma {:induction false} LastMatchingTokenDecides(rule: Rule, from: seq<string>, to: seq<string>, n: nat, k: nat)
    requires k < n <= |from| == |to|
    requires IsSubstring(from[k], rule.0)
    requires forall j :: k < j < n ==> !IsSubstring(from[j], rule.0)
    ensures Overwritten(rule, from, to, n) == (rule.0, to[IndexOf(from, from[k])])
    decreases n
  {
    if n > k + 1 {
      LastMatchingTokenDecides(rule, from, to, n - 1, k);
    }
  }

  /** Once some token matched, the outcome depends on the rule's source only, not on its old target. */
  lemma {:induction false} MatchedOutcomeIgnoresOldTarget(r1: Rule, r2: Rule, from: seq<string>, to: seq<string>, n: nat)
    requires n <= |from| == |to|
    requires r1.0 == r2.0
    requires exists k :: 0 <= k < n && IsSubstring(from[k], r1.0)
    ensures Overwritten(r1, from, to, n) == Overwritten(r2, from, to, n)
    decreases n
  {
    if !IsSubstring(from[n - 1], r1.0) {
      var k :| 0 <= k < n && IsSubstring(from[k], r1.0);
      assert k < n - 1;
      MatchedOutcomeIgnoresOldTarget(r1, r2, from, to, n - 1);
    }
  }

  /** Running the token pass a second time changes nothing more. */
  lemma OverwriteIdempotent(rule: Rule, from: seq<string>, to: seq<string>)
    requires |from| == |to|
    ensures var once := Overwritten(rule, from, to, |from|);
      Overwritten(once, from, to, |from|) == once
  {
    var once := Overwritten(rule, from, to, |from|);
    if exists k :: 0 <= k < |from| && IsSubstring(from[k], rule.0) {
      MatchedOutcomeIgnoresOldTarget(once, rule, from, to, |from|);
    } else {
      NoMatchUnchanged(rule, from, to, |from|);
    }
  }

  /** A token that no rule source contains changes no rule of any node. */
  lemma UnmatchedTokenChangesNothing(rules: seq<seq<Rule>>, from: seq<string>, to: seq<string>, k: nat)
    requires k < |from| == |to|
    requires !MatchesSomeRule(from[k], rules)
    ensures forall i :: 0 <= i < |rules| ==>
      OverwriteRules(rules[i], from, to, k + 1) == OverwriteRules(rules[i], from, to, k)
  {
    forall i | 0 <= i < |rules|
      ensures OverwriteRules(rules[i], from, to, k + 1) == OverwriteRules(rules[i], from, to, k)
    {
      forall j | 0 <= j < |rules[i]|
        ensures Overwritten(rules[i][j], from, to, k + 1) == Overwritten(rules[i][j], from, to, k)
      {
        assert !IsSubstring(from[k], rules[i][j].0);
      }
    }
  }

  /** A camera capability token reconfigures the raw image topic, whatever its old target. */
  lemma CameraTokenExample(oldTarget: string)
    ensures var from, to := ["/camera/image"], ["/capability/image"];
      Overwritten(("/camera/image_raw", oldTarget), from, to, 1) == ("/camera/image_raw", "/capability/image")
  {
    var token, source := "/camera/image", "/camera/image_raw";
    assert source[..|token|] == token;
    assert IsSubstring(token, source);
    assert IndexOf([token], token) == 0;
  }

  /** The inner loop: overwrite the target of every rule of `node` whose source contains `token`. */
  method OverwriteMatching(node: Node, token: string, target: string) returns (applied: bool)
    modifies node
    ensures node.remapArgs == StepRules(old(node.remapArgs), token, target)
    ensures applied <==> exists j :: 0 <= j < |old(node.remapArgs)| && IsSubstring(token, old(node.remapArgs)[j].0)
  {
    ghost var rules := node.remapArgs;
    applied := false;
    var j := 0;
    while j < |node.remapArgs|
      invariant 0 <= j <= |node.remapArgs| == |rules|
      invariant forall m :: 0 <= m < j ==> node.remapArgs[m] == StepRule(rules[m], token, target)
      invariant forall m :: j <= m < |rules| ==> node.remapArgs[m] == rules[m]
      invariant applied <==> exists m :: 0 <= m < j && IsSubstring(token, rules[m].0)
    {
      if IsSubstring(token, node.remapArgs[j].0) {
        node.remapArgs := node.remapArgs[j := (node.remapArgs[j].0, target)];
        applied := true;
      }
      j := j + 1;
    }
  }

  /** The middle loop: apply one token to every node; `applied` tells whether any rule matched. */
  method ApplyToken(nodes: seq<Node>, token: string, target: string) returns (applied: bool)
    requires DistinctNodes(nodes)
    modifies nodes
    ensures forall i :: 0 <= i < |nodes| ==> nodes[i].remapArgs == StepRules(old(nodes[i].remapArgs), token, target)
    ensures applied <==> MatchesSomeRule(token, old(RulesOf(nodes)))
  {
    ghost var before := RulesOf(nodes);
    applied := false;
    var i := 0;
    while i < |nodes|
      invariant 0 <= i <= |nodes|
      invariant forall m :: 0 <= m < i ==> nodes[m].remapArgs == StepRules(before[m], token, target)
      invariant forall m :: i <= m < |nodes| ==> nodes[m].remapArgs == before[m]
      invariant applied <==> exists m, j :: 0 <= m < i && 0 <= j < |before[m]| && IsSubstring(token, before[m][j].0)
    {
      var hit := OverwriteMatching(nodes[i], token, target);
      assert hit <==> exists j :: 0 <= j < |before[i]| && IsSubstring(token, before[i][j].0);
      applied := applied || hit;
      i := i + 1;
    }
  }

  /** Applying token `k` to the rules after `k` tokens gives the rules after `k + 1` tokens. */
  lemma StepIsNextToken(rules: seq<Rule>, from: seq<string>, to: seq<string>, k: nat)
    requires k < |from| == |to|
    ensures StepRules(OverwriteRules(rules, from, to, k), from[k], to[IndexOf(from, from[k])])
         == OverwriteRules(rules, from, to, k + 1)
  {
  }

  /** The warnings for one more token: that token is added when it matches no rule. */
  lemma UnmatchedStep(tokens: seq<string>, k: nat, rules: seq<seq<Rule>>)
    requires k < |tokens|
    ensures Unmatched(tokens[..k + 1], rules)
         == Unmatched(tokens[..k], rules) + if MatchesSomeRule(tokens[k], rules) then [] else [tokens[k]]
  {
    assert tokens[..k + 1][..k] == tokens[..k];
  }

  /** Overwriting targets keeps every source, so the same tokens match before and after. */
  lemma MatchesKeptByOverwrite(current: seq<seq<Rule>>, before: seq<seq<Rule>>, from: seq<string>, to: seq<string>, k: nat, token: string)
    requires k <= |from| == |to|
    requires |current| == |before|
    requires forall i :: 0 <= i < |before| ==> current[i] == OverwriteRules(before[i], from, to, k)
    ensures MatchesSomeRule(token, current) <==> MatchesSomeRule(token, before)
  {
    assert forall i, j :: 0 <= i < |before| && 0 <= j < |before[i]| ==> current[i][j].0 == before[i][j].0;
  }

  /** One pass of the token loop, stated on the rule lists of the nodes before the loop, before the pass and after it. */
  lemma TokenStep(before: seq<seq<Rule>>, current: seq<seq<Rule>>, after: seq<seq<Rule>>,
                  from: seq<string>, to: seq<string>, k: nat, applied: bool)
    requires k < |from| == |to|
    requires |current| == |before| == |after|
    requires forall i :: 0 <= i < |before| ==> current[i] == OverwriteRules(before[i], from, to, k)
    requires forall i :: 0 <= i < |before| ==> after[i] == StepRules(current[i], from[k], to[IndexOf(from, from[k])])
    requires applied <==> MatchesSomeRule(from[k], current)
    ensures forall i :: 0 <= i < |before| ==> after[i] == OverwriteRules(before[i], from, to, k + 1)
    ensures applied <==> MatchesSomeRule(from[k], before)
  {
    MatchesKeptByOverwrite(current, before, from, to, k, from[k]);
    forall i | 0 <= i < |before| ensures after[i] == OverwriteRules(before[i], from, to, k + 1) {
      StepIsNextToken(before[i], from, to, k);
    }
  }

  /**
   * The first loop: the token and target lists gathered from the capability
   * list, or the error raised when capabilities are required and no list is
   * given.
   */
  method CollectCapRemappings(required: seq<string>, capsList: Option<seq<CapRemappings>>)
    returns (result: Result<(seq<string>, seq<string>), CapabilityError>)
    requires capsList.Some? ==> |capsList.value| == |required|
    requires capsList.Some? ==> forall k :: 0 <= k < |capsList.value| ==> |capsList.value[k].from| == |capsList.value[k].to|
    ensures result.Failure? <==> |required| > 0 && capsList.None?
    ensures result.Success? ==> |result.value.0| == |result.value.1|
    ensures result.Success? && |required| == 0 ==> result.value == ([], [])
    ensures result.Success? && |required| > 0 ==> result.value == Collected(capsList.value)
  {
    var from: seq<string>, to: seq<string> := [], [];
    for c := 0 to |required|
      invariant c > 0 ==> capsList.Some?
      invariant c == 0 ==> from == [] && to == []
      invariant capsList.Some? ==> (from, to) == Collected(capsList.value[..c])
    {
      if capsList.None? {
        return Failure(CapabilityListNotProvided);
      }
      var provided := capsList.value;
      assert provided[..c + 1][..c] == provided[..c];
      from, to := from + provided[c].from, to + provided[c].to;
    }
    if |required| > 0 {
      assert capsList.value[..|required|] == capsList.value;
    }
    return Success((from, to));
  }

  /** The second loop: apply every token in order to all nodes; return the tokens that matched no rule. */
  method ApplyTokens(nodes: seq<Node>, from: seq<string>, to: seq<string>) returns (unmatched: seq<string>)
    requires DistinctNodes(nodes)
    requires |from| == |to|
    modifies nodes
    ensures forall i :: 0 <= i < |nodes| ==> nodes[i].remapArgs == OverwriteRules(old(nodes[i].remapArgs), from, to, |from|)
    ensures unmatched == Unmatched(from, old(RulesOf(nodes)))
  {
    ghost var before := RulesOf(nodes);
    unmatched := [];
    var k := 0;
    while k < |from|
      invariant 0 <= k <= |from|
      invariant forall i :: 0 <= i < |nodes| ==> nodes[i].remapArgs == OverwriteRules(before[i], from, to, k)
      invariant unmatched == Unmatched(from[..k], before)
    {
      var token := from[k];
      ghost var current := RulesOf(nodes);
      var applied := ApplyToken(nodes, token, to[IndexOf(from, token)]);
      TokenStep(before, current, RulesOf(nodes), from, to, k, applied);
      UnmatchedStep(from, k, before);
      if !applied {
        unmatched := unmatched + [token];
      }
      k := k + 1;
    }
    assert from[..k] == from;
  }

  /**
   * `apply_remapping_rules_from_capabilities`. `capsList` is the capability
   * list (`None` when it is missing or empty); when given, it holds what
   * `get_cap_remappings` yields for each required capability. The result is
   * the error the source raises, or the tokens it warns about.
   */
  method ApplyCapabilityRemappings(nodes: seq<Node>, required: seq<string>, capsList: Option<seq<CapRemappings>>)
    returns (result: Result<seq<string>, CapabilityError>)
    requires DistinctNodes(nodes)
    requires capsList.Some? ==> |capsList.value| == |required|
    requires capsList.Some? ==> forall k :: 0 <= k < |capsList.value| ==> |capsList.value[k].from| == |capsList.value[k].to|
    modifies nodes
    ensures result.Failure? <==> |required| > 0 && capsList.None?
    ensures result.Failure? || |required| == 0 ==> forall i :: 0 <= i < |nodes| ==> nodes[i].remapArgs == old(nodes[i].remapArgs)
    ensures result.Success? && |required| == 0 ==> result.value == []
    ensures result.Success? && |required| > 0 ==>
      var (from, to) := Collected(capsList.value);
      && (forall i :: 0 <= i < |nodes| ==> nodes[i].remapArgs == OverwriteRules(old(nodes[i].remapArgs), from, to, |from|))
      && result.value == Unmatched(from, old(RulesOf(nodes)))
  {
    var collected := CollectCapRemappings(required, capsList);
    if collected.Failure? {
      return Failure(collected.error);
    }
    var (from, to) := collected.value;
    var unmatched := ApplyTokens(nodes, from, to);
    forall i | 0 <= i < |nodes| && |required| == 0
      ensures nodes[i].remapArgs == old(nodes[i].remapArgs)
    {
      assert OverwriteRules(old(nodes[i].remapArgs), from, to, 0) == old(nodes[i].remapArgs);
    }
    return Success(unmatched);
  }
}
