/**
 * `_prepare_launch_text`: the rapp's launch file is wrapped in an
 * `<include>` under the application namespace, passing down the selected
 * standard roslaunch args.
 */
module LaunchText {
  import opened Wrappers

  /** The `KeyError` raised for a launch arg that is not one of the standard args. */
  datatype LaunchTextError = UnknownLaunchArg(key: string)

  /** The standard values an app may ask for; the nodelet manager name defaults to `None`. */
  datatype StandardArgs = StandardArgs(
    applicationNamespace: string,
    gatewayName: string,
    roconUri: string,
    capabilityServerNodeletManagerName: Option<string>)

  /** The names of the standard args. */
  const StandardArgNames: set<string> :=
    {"application_namespace", "gateway_name", "rocon_uri", "capability_server_nodelet_manager_name"}

  /** Python's `'%s' % v`, where `None` prints as `None`. */
  function FormatOptional(v: Option<string>): string
  {
    match v
    case Some(s) => s
    case None => "None"
  }

  /** `launch_arg_mapping`: standard arg name to its value. */
  function ArgMapping(args: StandardArgs): (m: map<string, string>)
    ensures m.Keys == StandardArgNames
    ensures m["application_namespace"] == args.applicationNamespace
    ensures m["gateway_name"] == args.gatewayName
    ensures m["rocon_uri"] == args.roconUri
    ensures m["capability_server_nodelet_manager_name"] == FormatOptional(args.capabilityServerNodeletManagerName)
  {
    map["application_namespace" := args.applicationNamespace,
        "gateway_name" := args.gatewayName,
        "rocon_uri" := args.roconUri,
        "capability_server_nodelet_manager_name" := FormatOptional(args.capabilityServerNodeletManagerName)]
  }

  /** The opening of the launch text. */
  function Header(ns: string, launchFile: string): string
  {
    "<launch>\n  <include ns=\"" + ns + "\" file=\"" + launchFile + "\">\n"
  }

  /** The closing of the launch text. */
  const Footer: string := "  </include>\n</launch>\n"

  /** One `<arg>` element; the source writes no line break after it. */
  function ArgElement(name: string, value: string): string
  {
    "    <arg name=\"" + name + "\" value=\"" + value + "\"/>"
  }

  /** One `<arg>` element per key, in the order of the keys. */
  function ArgElements(keys: seq<string>, mapping: map<string, string>): string
    requires forall k :: 0 <= k < |keys| ==> keys[k] in mapping
    decreases |keys|
  {
    if keys == [] then ""
    else ArgElements(keys[..|keys| - 1], mapping) + ArgElement(keys[|keys| - 1], mapping[keys[|keys| - 1]])
  }

  /** The elements of two key lists in a row are the elements of the first followed by those of the second. */
  lemma {:induction false} ArgElementsAppend(a: seq<string>, b: seq<string>, mapping: map<string, string>)
    requires forall k :: 0 <= k < |a| ==> a[k] in mapping
    requires forall k :: 0 <= k < |b| ==> b[k] in mapping
    ensures forall k :: 0 <= k < |a + b| ==> (a + b)[k] in mapping
    ensures ArgElements(a + b, mapping) == ArgElements(a, mapping) + ArgElements(b, mapping)
    decreases |b|
  {
    if b != [] {
      var b', last := b[..|b| - 1], b[|b| - 1];
      ArgElementsAppend(a, b', mapping);
      var ab := a + b;
      assert ab[..|ab| - 1] == a + b' && ab[|ab| - 1] == last;
      calc {
        ArgElements(ab, mapping);
        ArgElements(a + b', mapping) + ArgElement(last, mapping[last]);
        ArgElements(a, mapping) + (ArgElements(b', mapping) + ArgElement(last, mapping[last]));
      }
    } else {
      assert a + b == a;
    }
  }

  /** The elements of one more key: the element of that key is appended. */
  lemma ArgElementsSnoc(keys: seq<string>, i: nat, mapping: map<string, string>)
    requires i < |keys|
    requires forall k :: 0 <= k <= i ==> keys[k] in mapping
    ensures ArgElements(keys[..i + 1], mapping) == ArgElements(keys[..i], mapping) + ArgElement(keys[i], mapping[keys[i]])
  {
    assert keys[..i + 1][..i] == keys[..i];
  }

  /** Each key in the list contributes exactly its own element, at its own place. */
  lemma ArgElementAt(keys: seq<string>, mapping: map<string, string>, i: nat)
    requires forall k :: 0 <= k < |keys| ==> keys[k] in mapping
    requires i < |keys|
    ensures ArgElements(keys, mapping)
         == ArgElements(keys[..i], mapping) + ArgElement(keys[i], mapping[keys[i]]) + ArgElements(keys[i + 1..], mapping)
  {
    assert keys == keys[..i + 1] + keys[i + 1..];
    ArgElementsAppend(keys[..i + 1], keys[i + 1..], mapping);
    assert keys[..i + 1][..i] == keys[..i];
  }

  /**
   * The loop of `_prepare_launch_text`: the header, one `<arg>` per key in
   * order with its value from `mapping`, and the footer; a key missing from
   * `mapping` raises, naming the first such key.
   */
  method WrapLaunchFile(launchFile: string, ns: string, launchArgs: seq<string>, mapping: map<string, string>)
    returns (result: Result<string, LaunchTextError>)
    ensures result.Failure? <==> exists k :: 0 <= k < |launchArgs| && launchArgs[k] !in mapping
    ensures result.Failure? ==> exists k :: 0 <= k < |launchArgs| && result.error == UnknownLaunchArg(launchArgs[k])
                                     && launchArgs[k] !in mapping
                                     && forall j :: 0 <= j < k ==> launchArgs[j] in mapping
    ensures result.Success? ==> result.value == Header(ns, launchFile) + ArgElements(launchArgs, mapping) + Footer
  {
    var text := Header(ns, launchFile);
    for i := 0 to |launchArgs|
      invariant forall j :: 0 <= j < i ==> launchArgs[j] in mapping
      invariant text == Header(ns, launchFile) + ArgElements(launchArgs[..i], mapping)
    {
      var arg := launchArgs[i];
      if arg !in mapping {
        return Failure(UnknownLaunchArg(arg));
      }
      ArgElementsSnoc(launchArgs, i, mapping);
      text := text + ArgElement(arg, mapping[arg]);
    }
    assert launchArgs[..|launchArgs|] == launchArgs;
    text := text + Footer;
    return Success(text);
  }

  /**
   * `_prepare_launch_text(launch_file, launch_args, ...)`: the launch file
   * wrapped under the application namespace with the requested standard
   * args; only the four standard arg names may be requested.
   */
  method PrepareLaunchText(launchFile: string, launchArgs: seq<string>, args: StandardArgs)
    returns (result: Result<string, LaunchTextError>)
    ensures result.Failure? <==> exists k :: 0 <= k < |launchArgs| && launchArgs[k] !in StandardArgNames
    ensures result.Failure? ==> exists k :: 0 <= k < |launchArgs| && result.error == UnknownLaunchArg(launchArgs[k])
                                     && launchArgs[k] !in StandardArgNames
                                     && forall j :: 0 <= j < k ==> launchArgs[j] in StandardArgNames
    ensures result.Success? ==>
      result.value == Header(args.applicationNamespace, launchFile) + ArgElements(launchArgs, ArgMapping(args)) + Footer
  {
    var mapping := ArgMapping(args);
    result := WrapLaunchFile(launchFile, args.applicationNamespace, launchArgs, mapping);
  }

  /** Two args in the order asked for; a missing nodelet manager name is passed as `None`. */
  lemma ArgElementsExample()
    ensures var m := ArgMapping(StandardArgs("robot1", "gw", "rocon:/", None));
      ArgElements(["rocon_uri", "capability_server_nodelet_manager_name"], m)
      == ArgElement("rocon_uri", "rocon:/") + ArgElement("capability_server_nodelet_manager_name", "None")
  {
    var keys := ["rocon_uri", "capability_server_nodelet_manager_name"];
    assert keys[..1] == ["rocon_uri"];
    assert keys[..1][..0] == [];
  }
}
