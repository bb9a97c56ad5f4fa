/** The Intermediate Canonical Policy (ICP) as typed records: the shapes and
    defaults of the pydantic models, and the dictionary each model dumps to
    (`model_dump()`), which is what the pipeline hands to the validator and the
    generator. Constructor parameters with `:=` are the models' defaults. */
module IcpTypes {
  import opened PyValues

  /** The two Cerbos effects. */
  datatype Effect = Allow | Deny

  function EffectName(e: Effect): string
  {
    match e
    case Allow => "EFFECT_ALLOW"
    case Deny => "EFFECT_DENY"
  }

  const EffectNames: seq<string> := ["EFFECT_ALLOW", "EFFECT_DENY"]

  /** Reads an effect back from its string value. */
  function ParseEffect(s: string): (r: Option<Effect>)
  {
    if s == "EFFECT_ALLOW" then Some(Allow)
    else if s == "EFFECT_DENY" then Some(Deny)
    else None
  }

  /** The enum has exactly two values, named "EFFECT_ALLOW" and "EFFECT_DENY",
      and a string names an effect exactly when ParseEffect reads it back. */
  lemma EffectValues(s: string, e: Effect)
    ensures EffectName(e) in EffectNames
    ensures ParseEffect(s) == Some(e) <==> EffectName(e) == s
    ensures ParseEffect(s).Some? <==> s in EffectNames
    ensures EffectName(Allow) != EffectName(Deny)
  {
  }

  datatype Metadata = Metadata(
    name: string,
    description: string,
    resource: string,
    topics: seq<string> := [],
    blockedTopics: seq<string> := [],
    safetyCategory: Option<string> := None,
    compliance: Option<seq<string>> := Some([]),
    tags: Option<seq<string>> := Some([]))

  datatype Rule = Rule(
    actions: seq<string>,
    effect: Effect,
    conditions: seq<string> := [],
    roles: Option<seq<string>> := None,
    description: string := "")

  datatype Policy = Policy(
    resource: string,
    version: string := "1.0.0",
    rules: seq<Rule>)

  /** A test's principal and resource are free-form dictionaries. */
  datatype TestInput = TestInput(
    principal: seq<(string, Value)>,
    resource: seq<(string, Value)>,
    actions: seq<string>)

  /** `category` is an unconstrained string at this layer; `expected` is an Effect. */
  datatype TestCase = TestCase(
    name: string,
    category: string,
    input: TestInput,
    expected: Effect,
    description: string := "")

  datatype Icp = Icp(
    version: string := "1.0.0",
    metadata: Metadata,
    policy: Policy,
    tests: seq<TestCase>)

  /** Only the fields that have no default must be given. */
  lemma Defaults(name: string, description: string, resource: string, actions: seq<string>, effect: Effect,
                 input: TestInput, category: string, metadata: Metadata, tests: seq<TestCase>)
    ensures var m := Metadata(name, description, resource);
      m.topics == [] && m.blockedTopics == [] && m.safetyCategory == None
      && m.compliance == Some([]) && m.tags == Some([])
    ensures var r := Rule(actions, effect);
      r.conditions == [] && r.roles == None && r.description == ""
    ensures Policy(resource, rules := []).version == "1.0.0"
    ensures TestCase(name, category, input, Allow).description == ""
    ensures Icp(metadata := metadata, policy := Policy(resource, rules := []), tests := tests).version == "1.0.0"
  {
  }

  // ---------------------------------------------------------------------
  // model_dump(): every field, in declaration order
  // ---------------------------------------------------------------------

  function OptStrList(o: Option<seq<string>>): Value
  {
    match o
    case None => Null
    case Some(ss) => StrList(ss)
  }

  function OptStr(o: Option<string>): Value
  {
    match o
    case None => Null
    case Some(s) => Str(s)
  }

  function DumpMetadata(m: Metadata): Value
  {
    Obj([("name", Str(m.name)), ("description", Str(m.description)), ("resource", Str(m.resource)),
         ("topics", StrList(m.topics)), ("blocked_topics", StrList(m.blockedTopics)),
         ("safety_category", OptStr(m.safetyCategory)), ("compliance", OptStrList(m.compliance)),
         ("tags", OptStrList(m.tags))])
  }

  function DumpRule(r: Rule): Value
  {
    Obj([("actions", StrList(r.actions)), ("effect", Str(EffectName(r.effect))),
         ("conditions", StrList(r.conditions)), ("roles", OptStrList(r.roles)),
         ("description", Str(r.description))])
  }

  function DumpRules(rules: seq<Rule>): (r: seq<Value>)
    ensures |r| == |rules|
    ensures forall i :: 0 <= i < |rules| ==> r[i] == DumpRule(rules[i])
  {
    seq(|rules|, i requires 0 <= i < |rules| => DumpRule(rules[i]))
  }

  function DumpPolicy(p: Policy): Value
  {
    Obj([("resource", Str(p.resource)), ("version", Str(p.version)), ("rules", Arr(DumpRules(p.rules)))])
  }

  function DumpTestInput(ti: TestInput): Value
  {
    Obj([("principal", Obj(ti.principal)), ("resource", Obj(ti.resource)), ("actions", StrList(ti.actions))])
  }

  function DumpTest(t: TestCase): Value
  {
    Obj([("name", Str(t.name)), ("category", Str(t.category)), ("input", DumpTestInput(t.input)),
         ("expected", Str(EffectName(t.expected))), ("description", Str(t.description))])
  }

  function DumpTests(tests: seq<TestCase>): (r: seq<Value>)
    ensures |r| == |tests|
    ensures forall i :: 0 <= i < |tests| ==> r[i] == DumpTest(tests[i])
  {
    seq(|tests|, i requires 0 <= i < |tests| => DumpTest(tests[i]))
  }

  function DumpIcp(icp: Icp): Value
  {
    Obj([("version", Str(icp.version)), ("metadata", DumpMetadata(icp.metadata)),
         ("policy", DumpPolicy(icp.policy)), ("tests", Arr(DumpTests(icp.tests)))])
  }
}
