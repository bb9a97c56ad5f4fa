/** The Cerbos generator: lowers a typed ICP (as the pipeline passes it, dumped
    to a dictionary) to the Cerbos policy document and the Cerbos test-suite
    document. The documents are modelled as the dictionaries that are built;
    their YAML rendering is not part of the model. */
module CerbosGenerator {
  import opened PyStrings
  import opened PyValues
  import opened IcpTypes

  const ApiVersion: string := "api.cerbos.dev/v1"

  /** Each condition wrapped in parentheses. */
  function Parenthesized(conditions: seq<string>): (r: seq<string>)
    ensures |r| == |conditions|
    ensures forall i :: 0 <= i < |conditions| ==> r[i] == "(" + conditions[i] + ")"
  {
    seq(|conditions|, i requires 0 <= i < |conditions| => "(" + conditions[i] + ")")
  }

  /** `' && '.join(f'({c})' for c in conditions)`: the CEL conjunction of the conditions. */
  function BuildExpr(conditions: seq<string>): string
  {
    Join(" && ", Parenthesized(conditions))
  }

  /** `_transform_rule`: actions and effect always, `roles` only when the rule's
      roles are a non-empty list, `condition.match.expr` only when it has conditions. */
  function TransformRule(rule: Rule): Value
  {
    var base := [("actions", StrList(rule.actions)), ("effect", Str(EffectName(rule.effect)))];
    var withRoles :=
      if rule.roles.Some? && |rule.roles.value| > 0 then base + [("roles", StrList(rule.roles.value))]
      else base;
    var withCondition :=
      if |rule.conditions| > 0 then
        withRoles + [("condition", Obj([("match", Obj([("expr", Str(BuildExpr(rule.conditions)))]))]))]
      else withRoles;
    Obj(withCondition)
  }

  function TransformRules(rules: seq<Rule>): (r: seq<Value>)
    ensures |r| == |rules|
    ensures forall i :: 0 <= i < |rules| ==> r[i] == TransformRule(rules[i])
  {
    seq(|rules|, i requires 0 <= i < |rules| => TransformRule(rules[i]))
  }

  /** `generate_policy`, before YAML rendering. */
  function GeneratePolicy(icp: Icp): Value
  {
    Obj([("apiVersion", Str(ApiVersion)),
         ("description", Str(icp.metadata.description)),
         ("resourcePolicy", Obj([("version", Str(icp.policy.version)),
                                 ("resource", Str(icp.policy.resource)),
                                 ("rules", Arr(TransformRules(icp.policy.rules)))]))])
  }

  /** One `{action, effect}` expectation per action, in order. */
  function Expectations(actions: seq<string>, expected: Effect): (r: seq<Value>)
    ensures |r| == |actions|
  {
    seq(|actions|, i requires 0 <= i < |actions| =>
      Obj([("action", Str(actions[i])), ("effect", Str(EffectName(expected)))]))
  }

  /** `d.get(key, default)` on a dictionary. */
  function GetOr(d: seq<(string, Value)>, key: string, default: Value): Value
  {
    match Lookup(d, key)
    case Some(v) => v
    case None => default
  }

  /** `_transform_test`: the resource kind always comes from the policy. */
  function TransformTest(test: TestCase, kind: string): Value
  {
    var principal := test.input.principal;
    var resource := test.input.resource;
    Obj([("name", Str(test.name)),
         ("input", Obj([("principal", Obj([("id", GetOr(principal, "id", Str("test-principal"))),
                                            ("roles", GetOr(principal, "roles", Arr([])))])),
                        ("resource", Obj([("kind", Str(kind)),
                                           ("id", GetOr(resource, "id", Str("test-resource"))),
                                           ("attr", GetOr(resource, "attr", Obj([])))])),
                        ("actions", StrList(test.input.actions))])),
         ("expected", Arr(Expectations(test.input.actions, test.expected)))])
  }

  function TransformTests(tests: seq<TestCase>, kind: string): (r: seq<Value>)
    ensures |r| == |tests|
    ensures forall i :: 0 <= i < |tests| ==> r[i] == TransformTest(tests[i], kind)
  {
    seq(|tests|, i requires 0 <= i < |tests| => TransformTest(tests[i], kind))
  }

  /** `generate_tests`, before YAML rendering. */
  function GenerateTests(icp: Icp): Value
  {
    Obj([("name", Str(icp.metadata.name + "_test_suite")),
         ("description", Str("Test suite for " + icp.metadata.name)),
         ("tests", Arr(TransformTests(icp.tests, icp.policy.resource)))])
  }
}

module CerbosGeneratorFacts {
  import opened PyStrings
  import opened PyValues
  import opened IcpTypes
  import opened IcpValidator
  import opened IcpValidatorFacts
  import opened CerbosGenerator

  // ---------------------------------------------------------------------
  // Condition expressions
  // ---------------------------------------------------------------------

  lemma BuildExprSmall(c: string)
    ensures BuildExpr([]) == ""
    ensures BuildExpr([c]) == "(" + c + ")"
  {
  }

  /** Lowering a concatenation of condition lists conjoins their expressions. */
  lemma BuildExprAppend(a: seq<string>, b: seq<string>)
    requires |a| > 0 && |b| > 0
    ensures BuildExpr(a + b) == BuildExpr(a) + " && " + BuildExpr(b)
  {
    assert Parenthesized(a + b) == Parenthesized(a) + Parenthesized(b);
    JoinAppend(" && ", Parenthesized(a), Parenthesized(b));
  }

  /** Every condition appears in the expression, wrapped in parentheses. */
  lemma {:induction false} BuildExprMentions(conditions: seq<string>, i: nat)
    requires i < |conditions|
    ensures Contains(BuildExpr(conditions), "(" + conditions[i] + ")")
  {
    var c := "(" + conditions[i] + ")";
    if |conditions| == 1 {
      BuildExprSmall(conditions[0]);
      ContainsAt(c, c, 0);
    } else {
      var first, rest := conditions[0], conditions[1..];
      var head := BuildExpr([first]) + " && ";
      assert BuildExpr(conditions) == head + BuildExpr(rest) by {
        assert conditions == [first] + rest;
        BuildExprAppend([first], rest);
      }
      if i == 0 {
        assert Contains(head, c) by {
          BuildExprSmall(first);
          ContainsAt(c, c, 0);
          ContainsInConcat(BuildExpr([first]), " && ", c);
        }
      } else {
        assert rest[i - 1] == conditions[i];
        BuildExprMentions(rest, i - 1);
      }
      ContainsInConcat(head, BuildExpr(rest), c);
    }
  }

  // ---------------------------------------------------------------------
  // Rules
  // ---------------------------------------------------------------------

  function ConditionBlock(conditions: seq<string>): Value
  {
    Obj([("match", Obj([("expr", Str(BuildExpr(conditions)))]))])
  }

  /** A lowered rule carries the rule's actions and effect verbatim. */
  lemma RuleActionsEffect(rule: Rule)
    ensures Field(TransformRule(rule), "actions") == Some(StrList(rule.actions))
    ensures Field(TransformRule(rule), "effect") == Some(Str(EffectName(rule.effect)))
  {
    var out := TransformRule(rule).fields;
    LookupAt(out, "actions", 0);
    LookupAt(out, "effect", 1);
  }

  /** A lowered rule has `roles` exactly when the rule's (dumped) roles are truthy:
      a non-empty list, not None and not []. */
  lemma RuleRolesKey(rule: Rule)
    ensures HasKey(TransformRule(rule), "roles") <==> Truthy(OptStrList(rule.roles))
    ensures Truthy(OptStrList(rule.roles)) ==> Field(TransformRule(rule), "roles") == Some(OptStrList(rule.roles))
  {
    var out := TransformRule(rule).fields;
    if rule.roles.Some? && |rule.roles.value| > 0 {
      LookupAt(out, "roles", 2);
    } else {
      assert forall i :: 0 <= i < |out| ==> out[i].0 in ["actions", "effect", "condition"];
    }
  }

  /** A lowered rule has `condition` exactly when the rule's conditions are
      truthy, and then its `match.expr` is the conjunction of the conditions. */
  lemma RuleConditionKey(rule: Rule)
    ensures HasKey(TransformRule(rule), "condition") <==> Truthy(StrList(rule.conditions))
    ensures Truthy(StrList(rule.conditions)) ==>
      Field(TransformRule(rule), "condition") == Some(ConditionBlock(rule.conditions))
  {
    var out := TransformRule(rule).fields;
    var hasRoles := rule.roles.Some? && |rule.roles.value| > 0;
    if |rule.conditions| > 0 {
      LookupAt(out, "condition", if hasRoles then 3 else 2);
    } else {
      assert forall i :: 0 <= i < |out| ==> out[i].0 in ["actions", "effect", "roles"];
    }
  }

  /** A lowered rule has no key besides actions, effect, roles and condition. */
  lemma RuleKeys(rule: Rule, k: string)
    requires HasKey(TransformRule(rule), k)
    ensures k in ["actions", "effect", "roles", "condition"]
  {
    var out := TransformRule(rule).fields;
    var i :| 0 <= i < |out| && out[i].0 == k;
  }

  /** The policy document: fixed apiVersion, the metadata description, the
      policy's version and resource, and one lowered rule per ICP rule in order. */
  lemma PolicyDocument(icp: Icp)
    ensures var doc := GeneratePolicy(icp);
      && doc.Obj? && Field(doc, "apiVersion") == Some(Str("api.cerbos.dev/v1"))
      && Field(doc, "description") == Some(Str(icp.metadata.description))
      && HasKey(doc, "resourcePolicy")
      && var body := Field(doc, "resourcePolicy").value;
      && body.Obj?
      && Field(body, "version") == Some(Str(icp.policy.version))
      && Field(body, "resource") == Some(Str(icp.policy.resource))
      && HasKey(body, "rules")
      && var rules := Field(body, "rules").value;
      && rules.Arr? && |rules.items| == |icp.policy.rules|
      && forall i :: 0 <= i < |rules.items| ==> rules.items[i] == TransformRule(icp.policy.rules[i])
  {
    var doc := GeneratePolicy(icp).fields;
    LookupAt(doc, "apiVersion", 0);
    LookupAt(doc, "description", 1);
    LookupAt(doc, "resourcePolicy", 2);
    var body := doc[2].1.fields;
    LookupAt(body, "version", 0);
    LookupAt(body, "resource", 1);
    LookupAt(body, "rules", 2);
  }

  /** The generator does not validate: a policy whose single rule allows, with
      no final deny rule, is still lowered, its condition wrapped in parentheses. */
  lemma LowersWithoutDenyRule(icp: Icp, condition: string)
    requires icp.policy.rules == [Rule(["read"], Allow, [condition])]
    ensures TransformRules(icp.policy.rules) ==
      [Obj([("actions", StrList(["read"])), ("effect", Str("EFFECT_ALLOW")), ("condition", ConditionBlock([condition]))])]
    ensures BuildExpr([condition]) == "(" + condition + ")"
  {
    var base := [("actions", StrList(["read"])), ("effect", Str("EFFECT_ALLOW"))];
    assert base + [("condition", ConditionBlock([condition]))]
        == [("actions", StrList(["read"])), ("effect", Str("EFFECT_ALLOW")), ("condition", ConditionBlock([condition]))];
  }

  /** Whatever the validator accepts lowers to a rule list ending in a rule with
      effect EFFECT_DENY and "*" among its actions. */
  lemma AcceptedEndsWithDeny(icp: Icp)
    requires Validate(DumpIcp(icp)).Ok?
    ensures var rules := TransformRules(icp.policy.rules);
      && |rules| > 0
      && Field(rules[|rules| - 1], "effect") == Some(Str("EFFECT_DENY"))
      && Str("*") in Field(rules[|rules| - 1], "actions").value.items
  {
    DumpAccepted(icp);
    var last := icp.policy.rules[|icp.policy.rules| - 1];
    RuleActionsEffect(last);
    StrListContains(last.actions, "*");
  }

  // ---------------------------------------------------------------------
  // Tests
  // ---------------------------------------------------------------------

  /** Each lowered test expects, for every input action in order, the test's
      expected effect. */
  lemma ExpectationsShape(actions: seq<string>, expected: Effect, i: nat)
    requires i < |actions|
    ensures var e := Expectations(actions, expected)[i];
      Field(e, "action") == Some(Str(actions[i])) && Field(e, "effect") == Some(Str(EffectName(expected)))
  {
    var e := Expectations(actions, expected)[i].fields;
    LookupAt(e, "action", 0);
    LookupAt(e, "effect", 1);
  }

  /** A lowered test keeps the test's name, and its expectations are the ones for
      the test's actions. */
  lemma TransformTestShape(test: TestCase, kind: string)
    ensures var out := TransformTest(test, kind);
      && out.Obj? && Field(out, "name") == Some(Str(test.name))
      && HasKey(out, "input") && Field(out, "input").value.Obj?
      && Field(out, "expected") == Some(Arr(Expectations(test.input.actions, test.expected)))
  {
    var out := TransformTest(test, kind).fields;
    LookupAt(out, "name", 0);
    LookupAt(out, "input", 1);
    LookupAt(out, "expected", 2);
  }

  /** The input of a lowered test: a principal, a resource and the test's actions. */
  lemma TransformTestInput(test: TestCase, kind: string)
    ensures var out := TransformTest(test, kind);
      && HasKey(out, "input")
      && var input := Field(out, "input").value;
      && input.Obj? && HasKey(input, "principal") && HasKey(input, "resource")
      && Field(input, "principal").value.Obj? && Field(input, "resource").value.Obj?
      && Field(input, "actions") == Some(StrList(test.input.actions))
  {
    var out := TransformTest(test, kind).fields;
    LookupAt(out, "input", 1);
    var input := out[1].1.fields;
    LookupAt(input, "principal", 0);
    LookupAt(input, "resource", 1);
    LookupAt(input, "actions", 2);
  }

  /** The principal of a lowered test: its id and roles are copied, or default to
      "test-principal" and no roles. */
  lemma TransformTestPrincipal(test: TestCase, kind: string)
    ensures var out := TransformTest(test, kind);
      && HasKey(out, "input") && Field(out, "input").value.Obj?
      && HasKey(Field(out, "input").value, "principal")
      && var principal := Field(Field(out, "input").value, "principal").value;
      && Field(principal, "id") == Some(Get(Obj(test.input.principal), "id", Str("test-principal")).value)
      && Field(principal, "roles") == Some(Get(Obj(test.input.principal), "roles", Arr([])).value)
  {
    var out := TransformTest(test, kind).fields;
    LookupAt(out, "input", 1);
    var input := out[1].1.fields;
    LookupAt(input, "principal", 0);
    var principal := input[0].1.fields;
    LookupAt(principal, "id", 0);
    LookupAt(principal, "roles", 1);
  }

  /** The resource of a lowered test: its kind is the policy's resource, and its id
      and attr are copied, or default to "test-resource" and no attributes. */
  lemma TransformTestResource(test: TestCase, kind: string)
    ensures var out := TransformTest(test, kind);
      && HasKey(out, "input") && Field(out, "input").value.Obj?
      && HasKey(Field(out, "input").value, "resource")
      && var resource := Field(Field(out, "input").value, "resource").value;
      && Field(resource, "kind") == Some(Str(kind))
      && Field(resource, "id") == Some(Get(Obj(test.input.resource), "id", Str("test-resource")).value)
      && Field(resource, "attr") == Some(Get(Obj(test.input.resource), "attr", Obj([])).value)
  {
    var out := TransformTest(test, kind).fields;
    LookupAt(out, "input", 1);
    var input := out[1].1.fields;
    LookupAt(input, "resource", 1);
    var resource := input[1].1.fields;
    LookupAt(resource, "kind", 0);
    LookupAt(resource, "id", 1);
    LookupAt(resource, "attr", 2);
  }

  /** The test suite is named after the metadata name and holds one lowered test
      per ICP test, in order. */
  lemma TestSuiteDocument(icp: Icp)
    ensures var doc := GenerateTests(icp);
      && doc.Obj? && Field(doc, "name") == Some(Str(icp.metadata.name + "_test_suite"))
      && Field(doc, "description") == Some(Str("Test suite for " + icp.metadata.name))
      && HasKey(doc, "tests")
      && var tests := Field(doc, "tests").value;
      && tests.Arr? && |tests.items| == |icp.tests|
      && forall i :: 0 <= i < |tests.items| ==> tests.items[i] == TransformTest(icp.tests[i], icp.policy.resource)
  {
    var doc := GenerateTests(icp).fields;
    LookupAt(doc, "name", 0);
    LookupAt(doc, "description", 1);
    LookupAt(doc, "tests", 2);
  }
}
