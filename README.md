# Remapping rules of the rocon app manager, in Dafny

When the rocon app manager starts a rapp (a robot application), it edits the
remapping rules of every node in the rapp's roslaunch configuration. A
remapping rule `(from, to)` makes the node use the graph name `to` wherever it
would have used `from`. Three passes change these rules, and one helper writes
the launch text that wraps the rapp:

- **Chain resolution** (`resolve_chain_remappings`). Each node's rule list is
  rebuilt as a dictionary. The first rule for a source wins, and later rules
  with that source are dropped with a warning. Before a new rule `(fr, to)` is
  inserted, every entry whose target is `fr` is redirected to `to`.
- **Capability remappings** (`apply_remapping_rules_from_capabilities`). The
  capability list gives parallel lists of tokens and targets. For each token,
  every rule in every node whose source contains the token as a substring gets
  its target overwritten. The new target is the one paired with the token's
  first occurrence. A token that matches no rule gives a warning. If
  capabilities are required but no capability list is given, an exception is
  raised before any rule changes.
- **Start-app remappings** (`apply_remapping_rules_from_start_app_request`).
  The rapp declares names in five connection categories (publishers,
  subscribers, services, action clients, action servers). For each declared
  name, the first client remapping for it decides the published name: its
  target if that is global, or the target under the application namespace.
  The rule `(name, published name)` is then appended to every node. A name with
  no remapping is published as itself if global, or under the namespace
  otherwise, and no rule is added.
- **Launch text** (`_prepare_launch_text`). The rapp's launch file is wrapped
  in an `<include>` under the application namespace, with one `<arg>` per
  requested standard arg.

A name is *global* when it is non-empty and starts with `/`. Under the
namespace means `'/' + ns + '/' + name`.

Layout: `names.dfy` holds graph names (global test, substring test).
`launch_config.dfy` holds the nodes and their rules. There is one module per
pass: `chain_remappings.dfy`, `capability_remappings.dfy` and
`start_app_remappings.dfy`. `launch_text.dfy` is the launch text helper, and
`wrappers.dfy` holds `Option` and `Result`.

Nodes are objects of class `LaunchConfig.Node` with a `remapArgs` field. The
passes update that field in place, like the source updates `node.remap_args`.
Each pass is a method whose `ensures` ties every node's new rule list to a
function of its old rule list. The lemmas state what the source promises
about those functions.

Three behaviours of the code are easy to misread:

- Chain resolution does not remove every chain. A chain collapses only when
  the linking rule comes after the rule it extends. For
  `[("/b","/c"), ("/a","/b")]` the two-hop chain `/a -> /b -> /c` survives
  (`ChainSurvivesWhenLinkComesFirst`). What the model proves is the
  order-dependent property the code has: once a rule `(fr, to)` with
  `fr != to` is accepted, no entry ends at `fr` (`AcceptedRuleCollapses`).
- A name placed under the namespace is `'/' + ns + '/' + name`. There is a
  leading `/`, even when `ns` is empty.
- The code writes no line break after each `<arg .../>` element.

## Model

| member | source | states |
|---|---|---|
| Names.IsSubstringIffOccurs | rocon_app_manager/src/rocon_app_manager/utils.py:153 | The scan used for `cap_remap in node_remap[0]` succeeds exactly when the token occurs at some offset of the source (both directions). |
| ChainRemappings.ChainTableKeys | rocon_app_manager/src/rocon_app_manager/utils.py:89-101 | The keys of a node's resolved dictionary are exactly the distinct sources of its rules. |
| ChainRemappings.ChainTableValues | rocon_app_manager/src/rocon_app_manager/utils.py:92-101 | Every target in the resolved dictionary is the target of some input rule; no name is invented. |
| ChainRemappings.EveryRuleAcceptedOrIgnored | rocon_app_manager/src/rocon_app_manager/utils.py:92-101 | Each rule either adds one key or is dropped with a warning: keys plus dropped rules equals the number of rules. |
| ChainRemappings.DuplicateRuleIgnored | rocon_app_manager/src/rocon_app_manager/utils.py:93-94 | A rule whose source an earlier rule already had leaves the dictionary unchanged and is reported as dropped (first wins). |
| ChainRemappings.AcceptedRuleCollapses | rocon_app_manager/src/rocon_app_manager/utils.py:95-101 | A rule `(fr, to)` with a new source redirects every entry ending at `fr` to `to`, leaves the other entries unchanged, and adds `fr -> to`. If `fr != to`, no entry ends at `fr` afterwards. |
| ChainRemappings.FirstRuleKept | rocon_app_manager/src/rocon_app_manager/utils.py:92-101 | The first rule for a source decides its entry. The entry moves only if a later rule has the entry's target as its source; later rules with the same source never replace it. |
| ChainRemappings.CollapseExample | rocon_app_manager/src/rocon_app_manager/utils.py:96-101 | `[("/a","/b"), ("/b","/c")]` resolves to `{"/a":"/c", "/b":"/c"}`. |
| ChainRemappings.DuplicateExample | rocon_app_manager/src/rocon_app_manager/utils.py:93-94 | `[("/a","/b"), ("/a","/d")]` resolves to `{"/a":"/b"}`, and the second rule is dropped with a warning. |
| ChainRemappings.ChainSurvivesWhenLinkComesFirst | rocon_app_manager/src/rocon_app_manager/utils.py:96-101 | `[("/b","/c"), ("/a","/b")]` resolves to `{"/b":"/c", "/a":"/b"}`, so a two-hop chain remains. |
| ChainRemappings.RedirectTargets | rocon_app_manager/src/rocon_app_manager/utils.py:97-99 | Every entry whose target is `fr` now has target `to`. The other entries and the key set are unchanged. |
| ChainRemappings.ResolveChain | rocon_app_manager/src/rocon_app_manager/utils.py:90-101 | The dictionary built by the loop is the chain table of the rules. The rules it warns about are exactly those dropped as duplicates. |
| ChainRemappings.Items | rocon_app_manager/src/rocon_app_manager/utils.py:102 | `dict.items()` lists every entry of the dictionary exactly once, in some order, with no source twice. |
| ChainRemappings.ResolveChainRemappings | rocon_app_manager/src/rocon_app_manager/utils.py:81-102 | Each node's new rule list lists exactly the chain table of its old rules. The dropped rules are returned per node. |
| CapabilityRemappings.IndexOf | rocon_app_manager/src/rocon_app_manager/utils.py:154 | `list.index` returns the first position holding the token. |
| CapabilityRemappings.Overwritten | rocon_app_manager/src/rocon_app_manager/utils.py:149-157 | Applying tokens never changes a rule's source; only targets are overwritten. |
| CapabilityRemappings.Unmatched | rocon_app_manager/src/rocon_app_manager/utils.py:149-162 | A token is warned about exactly when it is in the token list and no rule source of any node contains it. |
| CapabilityRemappings.NoMatchUnchanged | rocon_app_manager/src/rocon_app_manager/utils.py:149-157 | A rule whose source contains no token keeps its target. |
| CapabilityRemappings.LastMatchingTokenDecides | rocon_app_manager/src/rocon_app_manager/utils.py:149-157 | A rule's final target is the target paired with the first occurrence of the last token that its source contains. |
| CapabilityRemappings.MatchedOutcomeIgnoresOldTarget | rocon_app_manager/src/rocon_app_manager/utils.py:153-154 | Once a token has matched, a rule's outcome depends only on its source, not on its old target. |
| CapabilityRemappings.OverwriteIdempotent | rocon_app_manager/src/rocon_app_manager/utils.py:149-157 | Running the token pass a second time changes nothing more. |
| CapabilityRemappings.UnmatchedTokenChangesNothing | rocon_app_manager/src/rocon_app_manager/utils.py:149-162 | A token that no rule source contains changes no rule of any node. |
| CapabilityRemappings.CameraTokenExample | rocon_app_manager/src/rocon_app_manager/utils.py:153-154 | Token `/camera/image` overwrites the target of the rule with source `/camera/image_raw`. |
| CapabilityRemappings.CollectCapRemappings | rocon_app_manager/src/rocon_app_manager/utils.py:141-148 | An error is raised exactly when capabilities are required and no capability list is given. Otherwise the token and target lists are those gathered per required capability, and they are empty when none is required. |
| CapabilityRemappings.OverwriteMatching | rocon_app_manager/src/rocon_app_manager/utils.py:152-157 | The node's rules after one token, and whether any of its rules matched. |
| CapabilityRemappings.ApplyToken | rocon_app_manager/src/rocon_app_manager/utils.py:150-157 | Every node's rules after one token. `remap_applied` is true exactly when some node's rule source contains the token. |
| CapabilityRemappings.ApplyTokens | rocon_app_manager/src/rocon_app_manager/utils.py:149-162 | Every node's rules after all tokens, in list order. The warnings are exactly the unmatched tokens. |
| CapabilityRemappings.ApplyCapabilityRemappings | rocon_app_manager/src/rocon_app_manager/utils.py:130-162 | With no capability list for required capabilities: the error, with every node unchanged. With no required capabilities: nothing changes and no warning is given. Otherwise: all tokens are applied and the unmatched ones are reported. |
| StartAppRemappings.InNamespace | rocon_app_manager/src/rocon_app_manager/utils.py:195-210 | A name placed under the namespace is global. |
| StartAppRemappings.Qualify | rocon_app_manager/src/rocon_app_manager/utils.py:194-211 | The result is always global. A global name is kept, and any other name is placed under the namespace. |
| StartAppRemappings.FindRequest | rocon_app_manager/src/rocon_app_manager/utils.py:184-193 | The first request in request order whose `remap_from` is the name, or none when no request names it. |
| StartAppRemappings.RequestedName | rocon_app_manager/src/rocon_app_manager/utils.py:193-201 | For a requested name, the first request decides. The published name is its target if global, else `'/' + ns + '/' + target`, and the rule `(name, published)` is added. |
| StartAppRemappings.UnrequestedName | rocon_app_manager/src/rocon_app_manager/utils.py:202-211 | An unrequested name is published as itself if global, else as `'/' + ns + '/' + name`. No rule is added. |
| StartAppRemappings.ResolvedNamesAreGlobal | rocon_app_manager/src/rocon_app_manager/utils.py:187-211 | Every published name is global. |
| StartAppRemappings.AddedRulesExactly | rocon_app_manager/src/rocon_app_manager/utils.py:193-200 | Each added rule is `(t, published name of t)` for a declared, requested `t`. Every requested declared name gets its rule. No more rules than declared names are added. |
| StartAppRemappings.UnrequestedRelativeExample | rocon_app_manager/src/rocon_app_manager/utils.py:207-211 | `odom` in namespace `robot1` with no request is published as `/robot1/odom`, and no rule is added. |
| StartAppRemappings.RequestedRelativeExample | rocon_app_manager/src/rocon_app_manager/utils.py:194-201 | `cmd_vel` requested as `teleop/cmd_vel` in `robot1` is published as `/robot1/teleop/cmd_vel`, and that rule is added. |
| StartAppRemappings.RequestedAbsoluteExample | rocon_app_manager/src/rocon_app_manager/utils.py:195-196 | An absolute request target `/shared/cmd_vel` is published unchanged, whatever the namespace. |
| StartAppRemappings.EveryConnectionTypeVisited | rocon_app_manager/src/rocon_app_manager/utils.py:187 | The category loop visits all five categories. |
| StartAppRemappings.AppendToAll | rocon_app_manager/src/rocon_app_manager/utils.py:199-200 | Every node's rule list gains the rule at its end, and nothing else changes. |
| StartAppRemappings.ResolveCategory | rocon_app_manager/src/rocon_app_manager/utils.py:188-211 | One category's published names, in declaration order. Every node gains that category's added rules. |
| StartAppRemappings.ApplyStartAppRemappings | rocon_app_manager/src/rocon_app_manager/utils.py:165-212 | The result has all five categories. Each category lists the published names of its declared names in order. Every node gains the added rules of all categories, in category order. |
| LaunchText.ArgMapping | rocon_app_manager/src/rocon_app_manager/utils.py:67-72 | The arg mapping has exactly the four standard arg names as keys, each bound to its value. A missing nodelet manager name is written `None`. |
| LaunchText.ArgElementsAppend | rocon_app_manager/src/rocon_app_manager/utils.py:75-76 | The elements for two key lists in a row are the first list's elements followed by the second's. |
| LaunchText.ArgElementAt | rocon_app_manager/src/rocon_app_manager/utils.py:75-76 | Each requested key contributes its own `<arg>` element at its own position. |
| LaunchText.ArgElementsExample | rocon_app_manager/src/rocon_app_manager/utils.py:72-76 | Two args come out in the order requested. A missing nodelet manager name is passed as `None`. |
| LaunchText.WrapLaunchFile | rocon_app_manager/src/rocon_app_manager/utils.py:74-77 | The text is the header, then one element per key, then the footer. It fails exactly when a key is missing from the mapping, naming the first such key. |
| LaunchText.PrepareLaunchText | rocon_app_manager/src/rocon_app_manager/utils.py:34-78 | The launch text is `<launch>` and an `<include ns file>`, then the requested args in order, then the closing tags. Any name other than the four standard args raises, naming the first one. |

## Left out

- `prepare_launcher` (utils.py:105-127) is left out. It writes the text to a temporary file and builds a `roslaunch` parent, which is I/O and a foreign library.
- `dict_to_KeyValue` (utils.py:18-31) is left out. It wraps a ROS message constructor, and the order of Python 2 `iteritems` is unspecified.
- `rocon_app_utilities/src/rocon_app_utilities/rapp_cmd.py` is not part of this model. It is command-line plumbing: argument parsing, cache files and package installation.
- `caps_list.get_cap_remappings` is a foreign call. Its per-capability token and target lists are inputs, and each pair of lists is assumed to have equal lengths.
- `rospy.loginfo` and `rospy.logwarn` are left out. Warnings are returned as values: the dropped rules per node, and the unmatched tokens. Info messages are dropped.
- `roslib.names.is_global` is modelled as "non-empty and starting with `/`".
- The order of `dict.items()` is not modelled. A node's rule list after chain resolution is any listing of its dictionary.
- Aliasing is not modelled. Each node in the launch configuration is assumed to be a distinct object with its own rule list.
- The order in which a caller runs the three passes is not modelled. The caller is not part of this model.
- Rule entries are not typed. In the source, chain resolution and the start-app pass leave `(from, to)` tuples, which a later capability pass could not assign into. The model treats every rule as a pair whose target can be replaced.
- A missing connection category in `public_interface` raises `KeyError` in the source. Here every category is required to be present.
