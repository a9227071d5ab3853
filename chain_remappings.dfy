/**
 * `resolve_chain_remappings`: each node's remapping rules are rebuilt as a
 * dictionary from source to target. The first rule for a source wins, and a
 * newly accepted rule `(fr, to)` first redirects every entry that currently
 * ends at `fr` so that it ends at `to`.
 */
module ChainRemappings {
  import opened LaunchConfig

  /** The dictionary built for one node: source -> target. */
  type Table = map<string, string>

  /** Every entry of `m` whose target is `fr` is redirected to `to`. */
  function Redirect(m: Table, fr: string, to: string): Table
  {
    map k | k in m :: if m[k] == fr then to else m[k]
  }

  /** One rule offered to the table: dropped when its source is already a key, otherwise chains into its source are collapsed and the rule is inserted. */
  function Accept(m: Table, rule: Rule): Table
  {
    if rule.0 in m then m else Redirect(m, rule.0, rule.1)[rule.0 := rule.1]
  }

  /** The table obtained by offering the rules in their original order. */
  function ChainTable(rules: seq<Rule>): Table
    decreases |rules|
  {
    if rules == [] then map[] else Accept(ChainTable(rules[..|rules| - 1]), rules[|rules| - 1])
  }

  /** The rules dropped with a warning: those whose source an earlier rule already had. */
  function Ignored(rules: seq<Rule>): seq<Rule>
    decreases |rules|
  {
    if rules == [] then []
    else
      var prefix := rules[..|rules| - 1];
      Ignored(prefix) + if rules[|rules| - 1].0 in Sources(prefix) then [rules[|rules| - 1]] else []
  }

  /** `rules` lists the entries of `m`, each once, in some order (Python's `dict.items()`). */
  predicate ListsTable(rules: seq<Rule>, m: Table)
  {
    && (forall i, j :: 0 <= i < j < |rules| ==> rules[i].0 != rules[j].0)
    && (forall j :: 0 <= j < |rules| ==> rules[j].0 in m && m[rules[j].0] == rules[j].1)
    && (forall k :: k in m ==> (k, m[k]) in rules)
  }

  /** The keys of the table are exactly the distinct sources of the rules. */
  lemma {:induction false} ChainTableKeys(rules: seq<Rule>)
    ensures ChainTable(rules).Keys == Sources(rules)
    decreases |rules|
  {
    if rules != [] {
      var prefix := rules[..|rules| - 1];
      ChainTableKeys(prefix);
      assert rules == prefix + [rules[|rules| - 1]];
      assert Sources(rules) == Sources(prefix) + {rules[|rules| - 1].0};
    }
  }

  /** Every target in the table is the target of some input rule: resolution invents no names. */
  lemma {:induction false} ChainTableValues(rules: seq<Rule>)
    ensures forall k :: k in ChainTable(rules) ==> exists j :: 0 <= j < |rules| && rules[j].1 == ChainTable(rules)[k]
    decreases |rules|
  {
    if rules != [] {
      var prefix := rules[..|rules| - 1];
      ChainTableValues(prefix);
      var m := ChainTable(rules);
      forall k | k in m ensures exists j :: 0 <= j < |rules| && rules[j].1 == m[k] {
        if k !in ChainTable(prefix) || ChainTable(prefix)[k] != m[k] {
          assert rules[|rules| - 1].1 == m[k];
        } else {
          var j :| 0 <= j < |prefix| && prefix[j].1 == m[k];
          assert rules[j] == prefix[j];
        }
      }
    }
  }

  /** Each rule either adds one key or is dropped with a warning. */
  lemma {:induction false} EveryRuleAcceptedOrIgnored(rules: seq<Rule>)
    ensures |ChainTable(rules).Keys| + |Ignored(rules)| == |rules|
    decreases |rules|
  {
    if rules != [] {
      var prefix := rules[..|rules| - 1];
      var last := rules[|rules| - 1];
      EveryRuleAcceptedOrIgnored(prefix);
      ChainTableKeys(prefix);
      if last.0 !in Sources(prefix) {
        assert ChainTable(rules).Keys == ChainTable(prefix).Keys + {last.0};
      }
    }
  }

  /** A rule whose source an earlier rule already had leaves the table as it was (first wins). */
  lemma DuplicateRuleIgnored(rules: seq<Rule>, i: int)
    requires 0 <= i < |rules|
    requires exists j :: 0 <= j < i && rules[j].0 == rules[i].0
    ensures ChainTable(rules[..i + 1]) == ChainTable(rules[..i])
    ensures Ignored(rules[..i + 1]) == Ignored(rules[..i]) + [rules[i]]
  {
    assert rules[..i + 1][..i] == rules[..i];
    ChainTableKeys(rules[..i]);
    var j :| 0 <= j < i && rules[j].0 == rules[i].0;
    assert rules[..i][j] == rules[j];
  }

  /**
   * A rule `(fr, to)` with a new source: every entry ending at `fr` now ends
   * at `to`, other entries are unchanged, `fr -> to` is added, and (unless
   * `fr == to`) no entry ends at `fr` any more.
   */
  lemma AcceptedRuleCollapses(rules: seq<Rule>, i: int)
    requires 0 <= i < |rules|
    requires forall j :: 0 <= j < i ==> rules[j].0 != rules[i].0
    ensures var before, after := ChainTable(rules[..i]), ChainTable(rules[..i + 1]);
      && after.Keys == before.Keys + {rules[i].0}
      && rules[i].0 !in before
      && after[rules[i].0] == rules[i].1
      && (forall k :: k in before ==> after[k] == if before[k] == rules[i].0 then rules[i].1 else before[k])
      && (rules[i].0 != rules[i].1 ==> forall k :: k in after ==> after[k] != rules[i].0)
    ensures Ignored(rules[..i + 1]) == Ignored(rules[..i])
  {
    assert rules[..i + 1][..i] == rules[..i];
    ChainTableKeys(rules[..i]);
  }

  /**
   * The first rule for a source decides its entry: later rules with the same
   * source never replace it, and only a later rule whose source is the
   * entry's target can move it.
   */
  lemma {:induction false} FirstRuleKept(rules: seq<Rule>, i: int, n: int)
    requires 0 <= i < n <= |rules|
    requires forall j :: 0 <= j < i ==> rules[j].0 != rules[i].0
    requires forall j :: i < j < n ==> rules[j].0 != rules[i].1
    ensures rules[i].0 in ChainTable(rules[..n]) && ChainTable(rules[..n])[rules[i].0] == rules[i].1
    decreases n
  {
    if n == i + 1 {
      AcceptedRuleCollapses(rules, i);
    } else {
      FirstRuleKept(rules, i, n - 1);
      ChainStep(rules, n - 1);
      var prev := ChainTable(rules[..n - 1]);
      assert rules[n - 1].0 != prev[rules[i].0];
    }
  }

  /** The collapse of `[("/a","/b"), ("/b","/c")]`. */
  lemma CollapseExample()
    ensures ChainTable([("/a", "/b"), ("/b", "/c")]) == map["/a" := "/c", "/b" := "/c"]
  {
    var rules := [("/a", "/b"), ("/b", "/c")];
    assert rules[..1] == [("/a", "/b")];
    assert rules[..1][..0] == [];
  }

  /** `[("/a","/b"), ("/a","/d")]`: the second rule is dropped with a warning. */
  lemma DuplicateExample()
    ensures ChainTable([("/a", "/b"), ("/a", "/d")]) == map["/a" := "/b"]
    ensures Ignored([("/a", "/b"), ("/a", "/d")]) == [("/a", "/d")]
  {
    var rules := [("/a", "/b"), ("/a", "/d")];
    assert rules[..1] == [("/a", "/b")];
    assert rules[..1][..0] == [];
    assert rules[..1][0].0 == "/a";
  }

  /**
   * Chains are collapsed only when the linking rule comes later:
   * `[("/b","/c"), ("/a","/b")]` keeps the two-hop chain /a -> /b -> /c.
   */
  lemma ChainSurvivesWhenLinkComesFirst()
    ensures var m := ChainTable([("/b", "/c"), ("/a", "/b")]);
      && m == map["/b" := "/c", "/a" := "/b"]
      && m["/a"] in m && m[m["/a"]] != m["/a"]
  {
    var rules := [("/b", "/c"), ("/a", "/b")];
    assert rules[..1] == [("/b", "/c")];
    assert rules[..1][..0] == [];
  }

  /** Offering rule `i` to the table built from the rules before it. */
  lemma ChainStep(rules: seq<Rule>, i: nat)
    requires i < |rules|
    ensures ChainTable(rules[..i + 1]) == Accept(ChainTable(rules[..i]), rules[i])
    ensures Ignored(rules[..i + 1]) == Ignored(rules[..i]) + if rules[i].0 in ChainTable(rules[..i]) then [rules[i]] else []
  {
    assert rules[..i + 1][..i] == rules[..i];
    ChainTableKeys(rules[..i]);
  }

  /** The comprehension-and-loop step: redirect every entry ending at `fr` to `to`. */
  method RedirectTargets(m: Table, fr: string, to: string) returns (r: Table)
    ensures r.Keys == m.Keys
    ensures forall k :: k in m ==> r[k] == if m[k] == fr then to else m[k]
    ensures r == Redirect(m, fr, to)
  {
    var keys := set k | k in m && m[k] == fr;
    r := m;
    while keys != {}
      invariant keys <= m.Keys
      invariant r.Keys == m.Keys
      invariant forall k :: k in keys ==> m[k] == fr
      invariant forall k :: k in m ==> r[k] == if m[k] == fr && k !in keys then to else m[k]
      decreases keys
    {
      var k :| k in keys;
      r := r[k := to];
      keys := keys - {k};
    }
    assert r == Redirect(m, fr, to);
  }

  /** Builds the dictionary for one node's rules, in order. */
  method ResolveChain(rules: seq<Rule>) returns (table: Table, ignored: seq<Rule>)
    ensures table == ChainTable(rules)
    ensures ignored == Ignored(rules)
  {
    table, ignored := map[], [];
    var i := 0;
    while i < |rules|
      invariant 0 <= i <= |rules|
      invariant table == ChainTable(rules[..i])
      invariant ignored == Ignored(rules[..i])
    {
      var fr, to := rules[i].0, rules[i].1;
      ChainStep(rules, i);
      if fr in table {
        ignored := ignored + [rules[i]];
      } else {
        table := RedirectTargets(table, fr, to);
        table := table[fr := to];
      }
      i := i + 1;
    }
    assert rules[..i] == rules;
  }

  /** `dict.items()`: the entries of the table as a list, in an order the model leaves open. */
  method Items(m: Table) returns (rules: seq<Rule>)
    ensures ListsTable(rules, m)
  {
    rules := [];
    var rest := m.Keys;
    while rest != {}
      invariant rest <= m.Keys
      invariant forall j :: 0 <= j < |rules| ==> rules[j].0 in m && rules[j].0 !in rest && m[rules[j].0] == rules[j].1
      invariant forall k :: k in m && k !in rest ==> (k, m[k]) in rules
      invariant forall i, j :: 0 <= i < j < |rules| ==> rules[i].0 != rules[j].0
      decreases rest
    {
      var k :| k in rest;
      rules := rules + [(k, m[k])];
      rest := rest - {k};
    }
  }

  /**
   * `resolve_chain_remappings(nodes)`: every node's rule list is replaced by
   * the items of the table its old rules build; the rules dropped for each
   * node are returned in place of the warnings.
   */
  method ResolveChainRemappings(nodes: seq<Node>) returns (ignored: seq<seq<Rule>>)
    requires DistinctNodes(nodes)
    modifies nodes
    ensures |ignored| == |nodes|
    ensures forall i :: 0 <= i < |nodes| ==>
      && ListsTable(nodes[i].remapArgs, ChainTable(old(nodes[i].remapArgs)))
      && ignored[i] == Ignored(old(nodes[i].remapArgs))
  {
    ignored := [];
    var i := 0;
    while i < |nodes|
      invariant 0 <= i <= |nodes|
      invariant |ignored| == i
      invariant forall j :: 0 <= j < i ==>
        && ListsTable(nodes[j].remapArgs, ChainTable(old(nodes[j].remapArgs)))
        && ignored[j] == Ignored(old(nodes[j].remapArgs))
      invariant forall j :: i <= j < |nodes| ==> nodes[j].remapArgs == old(nodes[j].remapArgs)
    {
      var table, dropped := ResolveChain(nodes[i].remapArgs);
      var items := Items(table);
      nodes[i].remapArgs := items;
      ignored := ignored + [dropped];
      i := i + 1;
    }
  }
}
