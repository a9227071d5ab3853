/**
 * `apply_remapping_rules_from_start_app_request`: the rapp's public
 * interface is resolved against the remappings a client sent with its
 * start-app request. A requested name gets a rule added to every node; an
 * unrequested one is only qualified under the application namespace.
 */
module StartAppRemappings {
  import opened Wrappers
  import opened Names
  import opened LaunchConfig

  /** The five connection categories of a public interface. */
  datatype ConnectionType = Publishers | Subscribers | Services | ActionClients | ActionServers

  /** The order in which the categories are visited. */
  const ConnectionTypes: seq<ConnectionType> := [Publishers, Subscribers, Services, ActionClients, ActionServers]

  /** One `rocon_std_msgs/Remapping` of the start-app request. */
  datatype Remapping = Remapping(remapFrom: string, remapTo: string)

  /** `'/' + ns + '/' + name`: a name placed under the application namespace. */
  function InNamespace(ns: string, name: string): (r: string)
    ensures IsGlobal(r)
  {
    "/" + ns + "/" + name
  }

  /** A global name is kept; any other name is placed under the namespace. */
  function Qualify(ns: string, name: string): (r: string)
    ensures IsGlobal(r)
    ensures IsGlobal(name) ==> r == name
    ensures !IsGlobal(name) ==> r == InNamespace(ns, name)
  {
    if IsGlobal(name) then name else InNamespace(ns, name)
  }

  /** The position of the first request whose `remap_from` is `t`, if any. */
  function FindRequest(requests: seq<Remapping>, t: string): (r: Option<nat>)
    ensures r.Some? ==> r.value < |requests| && requests[r.value].remapFrom == t
    ensures r.Some? ==> forall j :: 0 <= j < r.value ==> requests[j].remapFrom != t
    ensures r.None? ==> forall j :: 0 <= j < |requests| ==> requests[j].remapFrom != t
  {
    if requests == [] then None
    else if requests[0].remapFrom == t then Some(0)
    else match FindRequest(requests[1..], t)
      case None => None
      case Some(i) => Some(i + 1)
  }

  /** The name published for the declared name `t`. */
  function ResolvedName(t: string, requests: seq<Remapping>, ns: string): string
  {
    match FindRequest(requests, t)
    case Some(i) => Qualify(ns, requests[i].remapTo)
    case None => Qualify(ns, t)
  }

  /** The published names of one category, in declaration order. */
  function ResolvedNames(declared: seq<string>, requests: seq<Remapping>, ns: string): (r: seq<string>)
    ensures |r| == |declared|
  {
    seq(|declared|, k requires 0 <= k < |declared| => ResolvedName(declared[k], requests, ns))
  }

  /** The rule added to every node for `t`: one when `t` was requested, none otherwise. */
  function RuleFor(t: string, requests: seq<Remapping>, ns: string): seq<Rule>
  {
    if FindRequest(requests, t).Some? then [(t, ResolvedName(t, requests, ns))] else []
  }

  /** The rules added to every node for a list of declared names, in order. */
  function AddedRules(declared: seq<string>, requests: seq<Remapping>, ns: string): seq<Rule>
    decreases |declared|
  {
    if declared == [] then []
    else AddedRules(declared[..|declared| - 1], requests, ns) + RuleFor(declared[|declared| - 1], requests, ns)
  }

  /** The rules added to every node for the given categories, in order. */
  function AddedRulesFor(cts: seq<ConnectionType>, publicInterface: map<ConnectionType, seq<string>>,
                         requests: seq<Remapping>, ns: string): seq<Rule>
    requires forall c :: c in publicInterface
    decreases |cts|
  {
    if cts == [] then []
    else AddedRulesFor(cts[..|cts| - 1], publicInterface, requests, ns)
         + AddedRules(publicInterface[cts[|cts| - 1]], requests, ns)
  }

  /**
   * A declared name with a request: the first request for it in request
   * order decides; its target is kept when global and placed under the
   * namespace otherwise, and the rule `(t, name)` is added.
   */
  lemma RequestedName(t: string, requests: seq<Remapping>, ns: string, i: nat)
    requires i < |requests| && requests[i].remapFrom == t
    requires forall j :: 0 <= j < i ==> requests[j].remapFrom != t
    ensures var to := requests[i].remapTo;
      && ResolvedName(t, requests, ns) == (if IsGlobal(to) then to else "/" + ns + "/" + to)
      && RuleFor(t, requests, ns) == [(t, ResolvedName(t, requests, ns))]
  {
    var k := FindRequest(requests, t).value;
    assert !(k < i) && !(i < k);
  }

  /** A declared name without a request: kept when global, placed under the namespace otherwise; no rule. */
  lemma UnrequestedName(t: string, requests: seq<Remapping>, ns: string)
    requires forall j :: 0 <= j < |requests| ==> requests[j].remapFrom != t
    ensures ResolvedName(t, requests, ns) == if IsGlobal(t) then t else "/" + ns + "/" + t
    ensures RuleFor(t, requests, ns) == []
  {
  }

  /** Every published name is global: the interface is fully resolved. */
  lemma ResolvedNamesAreGlobal(declared: seq<string>, requests: seq<Remapping>, ns: string)
    ensures forall k :: 0 <= k < |declared| ==> IsGlobal(ResolvedNames(declared, requests, ns)[k])
  {
  }

  /**
   * The added rules are exactly the rules `(t, resolved name)` for the
   * declared names that were requested: each added rule is one of them,
   * and each requested declared name has its rule.
   */
  lemma {:induction false} AddedRulesExactly(declared: seq<string>, requests: seq<Remapping>, ns: string)
    ensures forall r :: r in AddedRules(declared, requests, ns) ==>
      r.0 in declared && FindRequest(requests, r.0).Some? && r.1 == ResolvedName(r.0, requests, ns)
    ensures forall k :: 0 <= k < |declared| && FindRequest(requests, declared[k]).Some? ==>
      (declared[k], ResolvedName(declared[k], requests, ns)) in AddedRules(declared, requests, ns)
    ensures |AddedRules(declared, requests, ns)| <= |declared|
    decreases |declared|
  {
    if declared != [] {
      var prefix := declared[..|declared| - 1];
      AddedRulesExactly(prefix, requests, ns);
      assert declared == prefix + [declared[|declared| - 1]];
      forall k | 0 <= k < |declared| && FindRequest(requests, declared[k]).Some?
        ensures (declared[k], ResolvedName(declared[k], requests, ns)) in AddedRules(declared, requests, ns)
      {
        if k < |prefix| {
          assert prefix[k] == declared[k];
        }
      }
    }
  }

  /** The example `odom` in namespace `robot1`, not requested: published as `/robot1/odom`, no rule. */
  lemma UnrequestedRelativeExample()
    ensures ResolvedName("odom", [], "robot1") == "/robot1/odom"
    ensures AddedRules(["odom"], [], "robot1") == []
  {
    assert ["odom"][..0] == [];
  }

  /** `cmd_vel` requested as `teleop/cmd_vel` in `robot1`: published as `/robot1/teleop/cmd_vel`, and that rule is added. */
  lemma RequestedRelativeExample()
    ensures var req := [Remapping("cmd_vel", "teleop/cmd_vel")];
      && ResolvedName("cmd_vel", req, "robot1") == "/robot1/teleop/cmd_vel"
      && AddedRules(["cmd_vel"], req, "robot1") == [("cmd_vel", "/robot1/teleop/cmd_vel")]
  {
    var req := [Remapping("cmd_vel", "teleop/cmd_vel")];
    RequestedName("cmd_vel", req, "robot1", 0);
    var name := ResolvedName("cmd_vel", req, "robot1");
    assert name == "/robot1/teleop/cmd_vel";
    assert ["cmd_vel"][..0] == [];
    assert AddedRules(["cmd_vel"], req, "robot1") == RuleFor("cmd_vel", req, "robot1");
  }

  /** An absolute request target is published as it is; the namespace is ignored. */
  lemma RequestedAbsoluteExample(ns: string)
    ensures ResolvedName("cmd_vel", [Remapping("cmd_vel", "/shared/cmd_vel")], ns) == "/shared/cmd_vel"
  {
    RequestedName("cmd_vel", [Remapping("cmd_vel", "/shared/cmd_vel")], ns, 0);
  }

  /** One more declared name: its published name and its rule, if any, come after those of the names before it. */
  lemma DeclaredNameStep(declared: seq<string>, k: nat, requests: seq<Remapping>, ns: string)
    requires k < |declared|
    ensures ResolvedNames(declared[..k + 1], requests, ns)
         == ResolvedNames(declared[..k], requests, ns) + [ResolvedName(declared[k], requests, ns)]
    ensures AddedRules(declared[..k + 1], requests, ns)
         == AddedRules(declared[..k], requests, ns) + RuleFor(declared[k], requests, ns)
  {
    assert declared[..k + 1][..k] == declared[..k];
  }

  /** The category list names all five categories. */
  lemma EveryConnectionTypeVisited()
    ensures forall d :: d in ConnectionTypes
  {
    forall d: ConnectionType ensures d in ConnectionTypes {
      assert d == ConnectionTypes[0] || d == ConnectionTypes[1] || d == ConnectionTypes[2]
          || d == ConnectionTypes[3] || d == ConnectionTypes[4];
    }
  }

  /** The rules for one more category are appended after those of the categories before it. */
  lemma AddedRulesForSnoc(cts: seq<ConnectionType>, c: nat, publicInterface: map<ConnectionType, seq<string>>,
                          requests: seq<Remapping>, ns: string)
    requires c < |cts|
    requires forall d :: d in publicInterface
    ensures AddedRulesFor(cts[..c + 1], publicInterface, requests, ns)
         == AddedRulesFor(cts[..c], publicInterface, requests, ns) + AddedRules(publicInterface[cts[c]], requests, ns)
    ensures forall d :: d in cts[..c + 1] <==> d in cts[..c] || d == cts[c]
  {
    assert cts[..c + 1][..c] == cts[..c];
    assert cts[..c + 1] == cts[..c] + [cts[c]];
  }

  /** `for N in nodes: N.remap_args.append(rule)`. */
  method AppendToAll(nodes: seq<Node>, rule: Rule)
    requires DistinctNodes(nodes)
    modifies nodes
    ensures forall i :: 0 <= i < |nodes| ==> nodes[i].remapArgs == old(nodes[i].remapArgs) + [rule]
  {
    for i := 0 to |nodes|
      invariant forall m :: 0 <= m < i ==> nodes[m].remapArgs == old(nodes[m].remapArgs) + [rule]
      invariant forall m :: i <= m < |nodes| ==> nodes[m].remapArgs == old(nodes[m].remapArgs)
    {
      nodes[i].remapArgs := nodes[i].remapArgs + [rule];
    }
  }

  /**
   * One category: publish every declared name and add the rules for the
   * requested ones to every node.
   */
  method ResolveCategory(nodes: seq<Node>, declared: seq<string>, requests: seq<Remapping>, ns: string)
    returns (names: seq<string>)
    requires DistinctNodes(nodes)
    modifies nodes
    ensures names == ResolvedNames(declared, requests, ns)
    ensures forall i :: 0 <= i < |nodes| ==> nodes[i].remapArgs == old(nodes[i].remapArgs) + AddedRules(declared, requests, ns)
  {
    names := [];
    for k := 0 to |declared|
      invariant names == ResolvedNames(declared[..k], requests, ns)
      invariant forall i :: 0 <= i < |nodes| ==> nodes[i].remapArgs == old(nodes[i].remapArgs) + AddedRules(declared[..k], requests, ns)
    {
      var t := declared[k];
      DeclaredNameStep(declared, k, requests, ns);
      match FindRequest(requests, t)
      case Some(index) =>
        var remapped := if IsGlobal(requests[index].remapTo) then requests[index].remapTo
                        else InNamespace(ns, requests[index].remapTo);
        AppendToAll(nodes, (t, remapped));
        names := names + [remapped];
      case None =>
        var flipped := if IsGlobal(t) then t else InNamespace(ns, t);
        names := names + [flipped];
    }
    assert declared[..|declared|] == declared;
  }

  /**
   * `apply_remapping_rules_from_start_app_request`: the published interface,
   * one list per category, while every node gains the rules for the
   * requested names.
   */
  method ApplyStartAppRemappings(nodes: seq<Node>, publicInterface: map<ConnectionType, seq<string>>,
                                 requests: seq<Remapping>, ns: string)
    returns (connections: map<ConnectionType, seq<string>>)
    requires DistinctNodes(nodes)
    requires forall c :: c in publicInterface
    modifies nodes
    ensures forall c :: c in connections
    ensures forall c :: c in connections ==> connections[c] == ResolvedNames(publicInterface[c], requests, ns)
    ensures forall i :: 0 <= i < |nodes| ==>
      nodes[i].remapArgs == old(nodes[i].remapArgs) + AddedRulesFor(ConnectionTypes, publicInterface, requests, ns)
  {
    connections := map[];
    for c := 0 to |ConnectionTypes|
      invariant forall d :: d in connections <==> d in ConnectionTypes[..c]
      invariant forall d :: d in connections ==> connections[d] == ResolvedNames(publicInterface[d], requests, ns)
      invariant forall i :: 0 <= i < |nodes| ==>
        nodes[i].remapArgs == old(nodes[i].remapArgs) + AddedRulesFor(ConnectionTypes[..c], publicInterface, requests, ns)
    {
      var ct := ConnectionTypes[c];
      AddedRulesForSnoc(ConnectionTypes, c, publicInterface, requests, ns);
      var names := ResolveCategory(nodes, publicInterface[ct], requests, ns);
      connections := connections[ct := names];
    }
    assert ConnectionTypes[..|ConnectionTypes|] == ConnectionTypes;
    EveryConnectionTypeVisited();
  }
}
