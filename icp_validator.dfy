/** The ICP validator: a fail-fast chain of structural checks over the untyped
    ICP dictionary. `Validate` returns the first violation, as the Python code
    raises it, and `Accepts` states declaratively which dictionaries pass. */
module IcpValidator {
  import opened PyStrings
  import opened PyValues
  import opened IcpTypes

  function Fail(msg: string): Result<()>
  {
    Err(ValueError(msg))
  }

  /** A ValueError whose message opens with `prefix`. */
  function FailWith(prefix: string, msg: string): (r: Result<()>)
    ensures r.Err? && r.error.ValueError? && StartsWith(r.error.msg, prefix)
  {
    StartsWithConcat(prefix, msg);
    Fail(prefix + msg)
  }

  /** `for field in fields: if field not in v: raise ValueError(...)`, the message
      being `prefix + lead + field + suffix`. */
  function RequireFields(v: Value, fields: seq<string>, prefix: string, lead: string, suffix: string): (r: Result<()>)
    ensures r.Ok? <==> forall f :: f in fields ==> HasKey(v, f)
    ensures r.Err? && r.error.ValueError? ==> StartsWith(r.error.msg, prefix)
    ensures r.Err? && v.Obj? ==>
      exists f :: f in fields && !HasKey(v, f) && r == FailWith(prefix, lead + f + suffix)
    decreases |fields|
  {
    if |fields| == 0 then Ok(())
    else
      assert fields[0] in fields;
      var present :- In(fields[0], v);
      if !present then
        FailWith(prefix, lead + fields[0] + suffix)
      else
        var r := RequireFields(v, fields[1..], prefix, lead, suffix);
        assert forall f :: f in fields <==> f == fields[0] || f in fields[1..];
        r
  }

  /** Python's rendering of a list of strings, as `str(['a', 'b'])` prints it. */
  function ReprStrList(ss: seq<string>): string
  {
    "[" + Join(", ", seq(|ss|, i requires 0 <= i < |ss| => "'" + ss[i] + "'")) + "]"
  }

  // ---------------------------------------------------------------------
  // Metadata
  // ---------------------------------------------------------------------

  const MetadataRequired: seq<string> := ["name", "description", "resource"]

  /** `name.replace('_', '').isalnum()` */
  predicate IsSnakeCase(name: string) {
    IsAlnum(ReplaceChar(name, '_', ""))
  }

  /** A snake_case name: only letters, digits and underscores, and not only underscores. */
  lemma SnakeCaseChars(name: string)
    ensures IsSnakeCase(name) <==>
      (exists i :: 0 <= i < |name| && name[i] != '_')
      && forall i :: 0 <= i < |name| ==> IsAlnumChar(name[i]) || name[i] == '_'
  {
    var t := ReplaceChar(name, '_', "");
    forall x: char {
      DeleteCharMembers(name, '_', x);
    }
    if IsSnakeCase(name) {
      assert t[0] in t;
      forall i | 0 <= i < |name| ensures IsAlnumChar(name[i]) || name[i] == '_' {
        if name[i] != '_' {
          assert name[i] in t;
        }
      }
    } else if exists i :: 0 <= i < |name| && name[i] != '_' {
      var i :| 0 <= i < |name| && name[i] != '_';
      assert name[i] in t;
      var j :| 0 <= j < |t| && !IsAlnumChar(t[j]);
      assert t[j] in name;
    }
  }

  /** What an accepted metadata section looks like; nothing but the three
      required fields, the name and `compliance` is looked at. */
  predicate MetadataOk(m: Value) {
    && m.Obj?
    && (forall f :: f in MetadataRequired ==> HasKey(m, f))
    && Field(m, "name").value.Str?
    && IsSnakeCase(Field(m, "name").value.s)
    && (HasKey(m, "compliance") ==> Field(m, "compliance").value.Arr?)
  }

  function ValidateMetadata(m: Value): (r: Result<()>)
    ensures r.Ok? <==> MetadataOk(m)
  {
    var _ :- RequireFields(m, MetadataRequired, "Metadata missing required field: ", "", "");
    var name :- Index(m, "name");
    if !name.Str? then Err(AttributeError)
    else if !IsSnakeCase(name.s) then Fail("Metadata name should be snake_case: " + name.s)
    else
      var hasCompliance :- In("compliance", m);
      if !hasCompliance then Ok(())
      else
        var compliance :- Index(m, "compliance");
        if compliance.Arr? then Ok(()) else Fail("Metadata compliance must be an array")
  }

  // ---------------------------------------------------------------------
  // Rules
  // ---------------------------------------------------------------------

  const RuleRequired: seq<string> := ["actions", "effect"]

  predicate IsEffectName(v: Value) {
    v == Str("EFFECT_ALLOW") || v == Str("EFFECT_DENY")
  }

  predicate RuleOk(rule: Value) {
    && rule.Obj?
    && (forall f :: f in RuleRequired ==> HasKey(rule, f))
    && IsEffectName(Field(rule, "effect").value)
    && Field(rule, "actions").value.Arr?
    && |Field(rule, "actions").value.items| > 0
    && (HasKey(rule, "conditions") ==> Field(rule, "conditions").value.Arr?)
  }

  function RulePrefix(index: nat): string
  {
    "Rule " + NatToString(index) + " "
  }

  /** `_validate_rule(rule, index)`: every message names the rule's 0-based index. */
  function ValidateRule(rule: Value, index: nat): (r: Result<()>)
    ensures r.Ok? <==> RuleOk(rule)
    ensures r.Err? && r.error.ValueError? ==> StartsWith(r.error.msg, RulePrefix(index))
  {
    var prefix := RulePrefix(index);
    var _ :- RequireFields(rule, RuleRequired, prefix, "missing required field: ", "");
    var effect :- Index(rule, "effect");
    if !IsEffectName(effect) then FailWith(prefix, "effect must be EFFECT_ALLOW or EFFECT_DENY")
    else
      var actions :- Index(rule, "actions");
      if !actions.Arr? || |actions.items| == 0 then FailWith(prefix, "actions must be a non-empty array")
      else
        var hasConditions :- In("conditions", rule);
        if !hasConditions then Ok(())
        else
          var conditions :- Index(rule, "conditions");
          if conditions.Arr? then Ok(()) else FailWith(prefix, "conditions must be an array")
  }

  /** `for i, rule in enumerate(rules): _validate_rule(rule, i)`, from position `from` on. */
  function ValidateRules(rules: seq<Value>, from: nat): (r: Result<()>)
    requires from <= |rules|
    ensures r.Ok? <==> forall i :: from <= i < |rules| ==> RuleOk(rules[i])
    decreases |rules| - from
  {
    if from == |rules| then Ok(())
    else
      var _ :- ValidateRule(rules[from], from);
      ValidateRules(rules, from + 1)
  }

  /** The first rule that fails is the one whose error is reported. */
  lemma {:induction false} FirstBadRuleReported(rules: seq<Value>, from: nat, k: nat)
    requires from <= k < |rules|
    requires !RuleOk(rules[k]) && forall j :: from <= j < k ==> RuleOk(rules[j])
    ensures ValidateRules(rules, from) == ValidateRule(rules[k], k)
    decreases k - from
  {
    if from < k {
      FirstBadRuleReported(rules, from + 1, k);
    }
  }

  /** `last_rule.get('effect') == 'EFFECT_DENY' and '*' in last_rule.get('actions', [])` */
  function EndsWithDeny(last: Value): (r: Result<bool>)
    ensures RuleOk(last) ==> r == Ok(IsTerminalDeny(last))
  {
    var effect :- Get(last, "effect", Null);
    if effect != Str("EFFECT_DENY") then Ok(false)
    else
      var actions :- Get(last, "actions", Arr([]));
      In("*", actions)
  }

  /** The default-deny rule: effect EFFECT_DENY and "*" among (not equal to) its actions. */
  predicate IsTerminalDeny(rule: Value)
    requires RuleOk(rule)
  {
    Field(rule, "effect").value == Str("EFFECT_DENY") && Str("*") in Field(rule, "actions").value.items
  }

  const PolicyRequired: seq<string> := ["resource", "version", "rules"]

  predicate PolicyOk(p: Value) {
    && p.Obj?
    && (forall f :: f in PolicyRequired ==> HasKey(p, f))
    && var rules := Field(p, "rules").value;
    && rules.Arr?
    && |rules.items| > 0
    && (forall i :: 0 <= i < |rules.items| ==> RuleOk(rules.items[i]))
    && IsTerminalDeny(rules.items[|rules.items| - 1])
  }

  function ValidatePolicy(p: Value): (r: Result<()>)
    ensures r.Ok? <==> PolicyOk(p)
  {
    var _ :- RequireFields(p, PolicyRequired, "Policy missing '", "", "' field");
    var rules :- Index(p, "rules");
    assert Field(p, "rules") == Some(rules);
    if !rules.Arr? || |rules.items| == 0 then Fail("Policy must have at least one rule")
    else
      var _ :- ValidateRules(rules.items, 0);
      assert RuleOk(rules.items[|rules.items| - 1]);
      var last :- LastItem(rules);
      var deny :- EndsWithDeny(last);
      if deny then Ok(()) else Fail("Policy should end with a default deny rule")
  }

  // ---------------------------------------------------------------------
  // Tests
  // ---------------------------------------------------------------------

  const TestRequired: seq<string> := ["name", "category", "input", "expected"]
  const TestCategories: seq<string> := ["positive", "negative", "boundary", "adversarial"]
  const InputRequired: seq<string> := ["principal", "resource", "actions"]

  predicate HasCategory(t: Value, category: string) {
    Field(t, "category") == Some(Str(category))
  }

  /** `any(t.get('category') == category for t in tests)`: stops at the first hit,
      and a non-dict met before it has no `.get`. */
  function AnyCategory(tests: seq<Value>, category: string): (r: Result<bool>)
    ensures r == Ok(true) ==> exists i :: 0 <= i < |tests| && HasCategory(tests[i], category)
    ensures (forall i :: 0 <= i < |tests| ==> tests[i].Obj?) ==>
      r == Ok(exists i :: 0 <= i < |tests| && HasCategory(tests[i], category))
  {
    if |tests| == 0 then Ok(false)
    else
      var c :- Get(tests[0], "category", Null);
      if c == Str(category) then Ok(true)
      else
        var r := AnyCategory(tests[1..], category);
        assert forall i :: 1 <= i < |tests| ==> tests[i] == tests[1..][i - 1];
        r
  }

  /** An accepted test; note that `input` only has to answer `in` for the three
      names, so any container holding them passes this check. */
  predicate TestOk(t: Value) {
    && t.Obj?
    && (forall f :: f in TestRequired ==> HasKey(t, f))
    && var category := Field(t, "category").value;
    && category.Str? && category.s in TestCategories
    && IsEffectName(Field(t, "expected").value)
    && (forall f :: f in InputRequired ==> HasKey(Field(t, "input").value, f))
  }

  function TestPrefix(index: nat): string
  {
    "Test " + NatToString(index) + " "
  }

  function ValidateTest(t: Value, index: nat): (r: Result<()>)
    ensures r.Ok? <==> TestOk(t)
    ensures r.Err? && r.error.ValueError? ==> StartsWith(r.error.msg, TestPrefix(index))
  {
    var prefix := TestPrefix(index);
    var _ :- RequireFields(t, TestRequired, prefix, "missing required field: ", "");
    var category :- Index(t, "category");
    if !(category.Str? && category.s in TestCategories) then
      FailWith(prefix, "category must be one of: " + ReprStrList(TestCategories))
    else
      var expected :- Index(t, "expected");
      if !IsEffectName(expected) then FailWith(prefix, "expected must be EFFECT_ALLOW or EFFECT_DENY")
      else
        var input :- Index(t, "input");
        RequireFields(input, InputRequired, prefix, "input missing '", "'")
  }

  function ValidateTestList(tests: seq<Value>, from: nat): (r: Result<()>)
    requires from <= |tests|
    ensures r.Ok? <==> forall i :: from <= i < |tests| ==> TestOk(tests[i])
    decreases |tests| - from
  {
    if from == |tests| then Ok(())
    else
      var _ :- ValidateTest(tests[from], from);
      ValidateTestList(tests, from + 1)
  }

  predicate TestsOk(v: Value) {
    && v.Arr?
    && |v.items| >= 2
    && (exists i :: 0 <= i < |v.items| && HasCategory(v.items[i], "positive"))
    && (exists i :: 0 <= i < |v.items| && HasCategory(v.items[i], "negative"))
    && (forall i :: 0 <= i < |v.items| ==> TestOk(v.items[i]))
  }

  /** The checks `_validate_tests` makes once it has at least two tests: a
      positive one, then a negative one, then each test in turn. */
  function CheckTestItems(items: seq<Value>): (r: Result<()>)
    ensures r.Ok? <==>
      && (exists i :: 0 <= i < |items| && HasCategory(items[i], "positive"))
      && (exists i :: 0 <= i < |items| && HasCategory(items[i], "negative"))
      && (forall i :: 0 <= i < |items| ==> TestOk(items[i]))
  {
    var hasPositive :- AnyCategory(items, "positive");
    var hasNegative :- AnyCategory(items, "negative");
    if !hasPositive then Fail("Must have at least one positive test case")
    else if !hasNegative then Fail("Must have at least one negative test case")
    else ValidateTestList(items, 0)
  }

  function ValidateTests(tests: Value): (r: Result<()>)
    ensures r.Ok? <==> TestsOk(tests)
  {
    if !tests.Arr? then Fail("Tests must be an array")
    else if |tests.items| < 2 then Fail("Must have at least 2 test cases (1 positive, 1 negative)")
    else CheckTestItems(tests.items)
  }

  // ---------------------------------------------------------------------
  // The whole ICP
  // ---------------------------------------------------------------------

  /** The dictionaries `validate` accepts without raising. */
  predicate Accepts(icp: Value) {
    && icp.Obj?
    && Field(icp, "version") == Some(Str("1.0.0"))
    && HasKey(icp, "metadata") && HasKey(icp, "policy") && HasKey(icp, "tests")
    && MetadataOk(Field(icp, "metadata").value)
    && PolicyOk(Field(icp, "policy").value)
    && TestsOk(Field(icp, "tests").value)
  }

  /** An accepted ICP has an accepted policy section. */
  lemma AcceptedPolicy(icp: Value)
    requires Accepts(icp)
    ensures icp.Obj? && HasKey(icp, "policy") && PolicyOk(Field(icp, "policy").value)
  {
  }

  /** An accepted policy has a non-empty rule list ending in a default deny. */
  lemma PolicyLastRule(p: Value)
    requires PolicyOk(p)
    ensures p.Obj? && HasKey(p, "rules")
    ensures var rules := Field(p, "rules").value;
      && rules.Arr? && |rules.items| > 0
      && RuleOk(rules.items[|rules.items| - 1]) && IsTerminalDeny(rules.items[|rules.items| - 1])
  {
    assert "rules" in PolicyRequired;
  }

  /** `ICPValidator.validate`: Ok(()) when the dictionary is accepted, otherwise the
      first violation. */
  function Validate(icp: Value): (r: Result<()>)
    ensures r.Ok? <==> Accepts(icp)
  {
    if !icp.Obj? then Fail("ICP must be a dictionary")
    else
      var version :- Get(icp, "version", Null);
      if version != Str("1.0.0") then Fail("ICP version must be 1.0.0")
      else
        var hasMetadata :- In("metadata", icp);
        if !hasMetadata then Fail("ICP must have 'metadata' section")
        else
          var hasPolicy :- In("policy", icp);
          if !hasPolicy then Fail("ICP must have 'policy' section")
          else
            var hasTests :- In("tests", icp);
            if !hasTests then Fail("ICP must have 'tests' section")
            else
              var metadata :- Index(icp, "metadata");
              var _ :- ValidateMetadata(metadata);
              var policy :- Index(icp, "policy");
              var _ :- ValidatePolicy(policy);
              var tests :- Index(icp, "tests");
              ValidateTests(tests)
  }
}

module IcpValidatorFacts {
  import opened PyStrings
  import opened PyValues
  import opened IcpTypes
  import opened IcpValidator

  // The dictionary from the validator's accepting example: two rules ending in a
  // default deny, one positive and one negative test.

  function SampleMetadata(): Value
  {
    Obj([("name", Str("test_policy")), ("description", Str("Test policy")), ("resource", Str("test"))])
  }

  function SampleRule(action: string, effect: string): Value
  {
    Obj([("actions", StrList([action])), ("effect", Str(effect)), ("conditions", Arr([]))])
  }

  function SamplePolicy(): Value
  {
    Obj([("resource", Str("test")), ("version", Str("1.0.0")),
         ("rules", Arr([SampleRule("read", "EFFECT_ALLOW"), SampleRule("*", "EFFECT_DENY")]))])
  }

  function SampleTest(name: string, category: string, action: string, expected: string): Value
  {
    Obj([("name", Str(name)), ("category", Str(category)),
         ("input", Obj([("principal", Obj([("id", Str("user")), ("roles", Arr([]))])),
                        ("resource", Obj([("id", Str("doc")), ("attr", Obj([]))])),
                        ("actions", StrList([action]))])),
         ("expected", Str(expected))])
  }

  function SampleTests(): Value
  {
    Arr([SampleTest("allow_read", "positive", "read", "EFFECT_ALLOW"),
         SampleTest("deny_write", "negative", "write", "EFFECT_DENY")])
  }

  function SampleIcp(): Value
  {
    Obj([("version", Str("1.0.0")), ("metadata", SampleMetadata()), ("policy", SamplePolicy()), ("tests", SampleTests())])
  }

  /** A name with a character other than a letter, digit or underscore is rejected. */
  lemma SnakeCaseBadChar(name: string, i: nat)
    requires i < |name| && !IsAlnumChar(name[i]) && name[i] != '_'
    ensures !IsSnakeCase(name)
  {
    SnakeCaseChars(name);
  }

  /** A name of underscores only is rejected. */
  lemma SnakeCaseUnderscores(name: string)
    requires forall i :: 0 <= i < |name| ==> name[i] == '_'
    ensures !IsSnakeCase(name)
  {
    SnakeCaseChars(name);
  }

  /** The empty name, a name of underscores only and a name with a dash are rejected. */
  lemma SnakeCaseRejects()
    ensures !IsSnakeCase("") && !IsSnakeCase("___") && !IsSnakeCase("pay-ment")
  {
    SnakeCaseUnderscores("___");
    SnakeCaseBadChar("pay-ment", 3);
  }

  /** Two alphanumeric words joined by an underscore make a snake_case name. */
  lemma SnakeCaseJoin(a: string, b: string)
    requires IsAlnum(a) && IsAlnum(b)
    ensures IsSnakeCase(a + "_" + b)
  {
    var name := a + "_" + b;
    SnakeCaseChars(name);
    assert name[0] == a[0];
    forall i | 0 <= i < |name| ensures IsAlnumChar(name[i]) || name[i] == '_' {
      if i < |a| {
        assert name[i] == a[i];
      } else if i > |a| {
        assert name[i] == b[i - |a| - 1];
      }
    }
  }

  lemma SnakeCaseAccepts()
    ensures IsSnakeCase("test_policy")
  {
    assert IsAlnum("test") && IsAlnum("policy");
    SnakeCaseJoin("test", "policy");
    assert "test" + "_" + "policy" == "test_policy";
  }

  /** A metadata section holding just the three required strings is accepted
      exactly when the name is snake_case. */
  lemma MinimalMetadata(name: string, description: string, resource: string)
    ensures MetadataOk(Obj([("name", Str(name)), ("description", Str(description)), ("resource", Str(resource))]))
        <==> IsSnakeCase(name)
  {
    var f := [("name", Str(name)), ("description", Str(description)), ("resource", Str(resource))];
    LookupAt(f, "name", 0);
    LookupAt(f, "description", 1);
    LookupAt(f, "resource", 2);
    assert Lookup(f, "compliance") == None;
  }

  lemma SampleMetadataOk()
    ensures MetadataOk(SampleMetadata())
  {
    MinimalMetadata("test_policy", "Test policy", "test");
    SnakeCaseAccepts();
  }

  /** A rule with only actions, effect and an empty condition list is well formed
      when it has an action and a valid effect; it is the default deny rule when
      its effect is EFFECT_DENY and "*" is one of its actions. */
  lemma PlainRule(actions: seq<string>, effect: string)
    ensures var rule := Obj([("actions", StrList(actions)), ("effect", Str(effect)), ("conditions", Arr([]))]);
      && (RuleOk(rule) <==> |actions| > 0 && effect in EffectNames)
      && (RuleOk(rule) ==> (IsTerminalDeny(rule) <==> effect == "EFFECT_DENY" && "*" in actions))
  {
    var f := [("actions", StrList(actions)), ("effect", Str(effect)), ("conditions", Arr([]))];
    LookupAt(f, "actions", 0);
    LookupAt(f, "effect", 1);
    LookupAt(f, "conditions", 2);
    StrListContains(actions, "*");
  }

  /** A policy with exactly two rules is accepted when both rules are well formed
      and the second is the default deny rule. */
  lemma TwoRulePolicy(resource: string, version: string, first: Value, last: Value)
    ensures PolicyOk(Obj([("resource", Str(resource)), ("version", Str(version)), ("rules", Arr([first, last]))]))
        <==> RuleOk(first) && RuleOk(last) && IsTerminalDeny(last)
  {
    var f := [("resource", Str(resource)), ("version", Str(version)), ("rules", Arr([first, last]))];
    LookupAt(f, "resource", 0);
    LookupAt(f, "version", 1);
    LookupAt(f, "rules", 2);
    var items := [first, last];
    var p := Obj(f);
    assert forall k :: k in PolicyRequired ==> HasKey(p, k);
    assert Field(p, "rules") == Some(Arr(items));
    assert items[|items| - 1] == last;
    assert forall i :: 0 <= i < |items| ==> items[i] == first || items[i] == last;
    if RuleOk(first) && RuleOk(last) {
      assert forall i :: 0 <= i < |items| ==> RuleOk(items[i]);
    }
    if PolicyOk(p) {
      assert RuleOk(items[0]) && RuleOk(items[1]);
    }
  }

  lemma SamplePolicyOk()
    ensures PolicyOk(SamplePolicy())
  {
    TwoRulePolicy("test", "1.0.0", SampleRule("read", "EFFECT_ALLOW"), SampleRule("*", "EFFECT_DENY"));
    PlainRule(["read"], "EFFECT_ALLOW");
    PlainRule(["*"], "EFFECT_DENY");
  }

  /** A test holding only the four required fields is well formed when its
      category and expected effect are valid and its input has the three keys. */
  lemma PlainTest(name: string, category: string, input: Value, expected: string)
    ensures TestOk(Obj([("name", Str(name)), ("category", Str(category)), ("input", input), ("expected", Str(expected))]))
        <==> category in TestCategories && expected in EffectNames
             && forall f :: f in InputRequired ==> HasKey(input, f)
    ensures HasCategory(Obj([("name", Str(name)), ("category", Str(category)), ("input", input), ("expected", Str(expected))]), category)
  {
    var f := [("name", Str(name)), ("category", Str(category)), ("input", input), ("expected", Str(expected))];
    LookupAt(f, "name", 0);
    LookupAt(f, "category", 1);
    LookupAt(f, "input", 2);
    LookupAt(f, "expected", 3);
  }

  lemma SampleInputOk(action: string)
    ensures forall f :: f in InputRequired ==>
      HasKey(Obj([("principal", Obj([("id", Str("user")), ("roles", Arr([]))])),
                  ("resource", Obj([("id", Str("doc")), ("attr", Obj([]))])),
                  ("actions", StrList([action]))]), f)
  {
    var f := [("principal", Obj([("id", Str("user")), ("roles", Arr([]))])),
              ("resource", Obj([("id", Str("doc")), ("attr", Obj([]))])),
              ("actions", StrList([action]))];
    LookupAt(f, "principal", 0);
    LookupAt(f, "resource", 1);
    LookupAt(f, "actions", 2);
  }

  /** Two tests are accepted when both are well formed and between them they
      have a positive and a negative one. */
  lemma TwoTests(a: Value, b: Value)
    ensures TestsOk(Arr([a, b])) <==>
      TestOk(a) && TestOk(b)
      && (HasCategory(a, "positive") || HasCategory(b, "positive"))
      && (HasCategory(a, "negative") || HasCategory(b, "negative"))
  {
    var items := [a, b];
    if HasCategory(a, "positive") { assert HasCategory(items[0], "positive"); }
    if HasCategory(b, "positive") { assert HasCategory(items[1], "positive"); }
    if HasCategory(a, "negative") { assert HasCategory(items[0], "negative"); }
    if HasCategory(b, "negative") { assert HasCategory(items[1], "negative"); }
  }

  lemma SampleTestsOk()
    ensures TestsOk(SampleTests())
  {
    var a := SampleTest("allow_read", "positive", "read", "EFFECT_ALLOW");
    var b := SampleTest("deny_write", "negative", "write", "EFFECT_DENY");
    SampleInputOk("read");
    SampleInputOk("write");
    PlainTest("allow_read", "positive", a.fields[2].1, "EFFECT_ALLOW");
    PlainTest("deny_write", "negative", b.fields[2].1, "EFFECT_DENY");
    TwoTests(a, b);
  }

  /** An ICP holding exactly the four top-level keys is accepted when its version
      is "1.0.0" and its three sections are. */
  lemma FourSections(version: Value, metadata: Value, policy: Value, tests: Value)
    ensures Accepts(Obj([("version", version), ("metadata", metadata), ("policy", policy), ("tests", tests)]))
        <==> version == Str("1.0.0") && MetadataOk(metadata) && PolicyOk(policy) && TestsOk(tests)
  {
    var f := [("version", version), ("metadata", metadata), ("policy", policy), ("tests", tests)];
    LookupAt(f, "version", 0);
    LookupAt(f, "metadata", 1);
    LookupAt(f, "policy", 2);
    LookupAt(f, "tests", 3);
    var icp := Obj(f);
    assert HasKey(icp, "metadata") && HasKey(icp, "policy") && HasKey(icp, "tests");
    assert Field(icp, "version") == Some(version);
    assert Field(icp, "metadata") == Some(metadata);
    assert Field(icp, "policy") == Some(policy);
    assert Field(icp, "tests") == Some(tests);
  }

  lemma SampleAccepted()
    ensures Validate(SampleIcp()).Ok?
  {
    SampleAccepts();
  }

  lemma SampleAccepts()
    ensures Accepts(SampleIcp())
  {
    SampleMetadataOk();
    SamplePolicyOk();
    SampleTestsOk();
    FourSections(Str("1.0.0"), SampleMetadata(), SamplePolicy(), SampleTests());
  }

  // ---------------------------------------------------------------------
  // Order of the checks
  // ---------------------------------------------------------------------

  /** A non-dictionary is rejected first, then a version other than exactly
      "1.0.0", then the first missing section in the order metadata, policy, tests. */
  lemma CheckOrder(icp: Value)
    ensures !icp.Obj? ==> Validate(icp) == Fail("ICP must be a dictionary")
    ensures icp.Obj? && Field(icp, "version") != Some(Str("1.0.0")) ==>
      Validate(icp) == Fail("ICP version must be 1.0.0")
    ensures icp.Obj? && Field(icp, "version") == Some(Str("1.0.0")) ==>
      && (!HasKey(icp, "metadata") ==> Validate(icp) == Fail("ICP must have 'metadata' section"))
      && (HasKey(icp, "metadata") && !HasKey(icp, "policy") ==> Validate(icp) == Fail("ICP must have 'policy' section"))
      && (HasKey(icp, "metadata") && HasKey(icp, "policy") && !HasKey(icp, "tests") ==>
            Validate(icp) == Fail("ICP must have 'tests' section"))
  {
  }

  /** The dictionary {"invalid": "data"} is rejected, at the version check. */
  lemma InvalidDataRejected()
    ensures Validate(Obj([("invalid", Str("data"))])) == Fail("ICP version must be 1.0.0")
  {
    var icp := Obj([("invalid", Str("data"))]);
    assert Lookup(icp.fields, "version") == None;
    CheckOrder(icp);
  }

  /** Only the three required fields, the name and `compliance` decide the
      outcome: topics, blocked_topics, safety_category or any other key may hold
      anything. */
  lemma MetadataOtherFieldsFree(m1: Value, m2: Value)
    requires m1.Obj? && m2.Obj?
    requires forall k :: k in MetadataRequired + ["compliance"] ==> Field(m1, k) == Field(m2, k)
    ensures ValidateMetadata(m1) == ValidateMetadata(m2)
  {
    assert forall k :: k in MetadataRequired + ["compliance"] ==> In(k, m1) == In(k, m2);
    assert RequireFields(m1, MetadataRequired, "Metadata missing required field: ", "", "")
        == RequireFields(m2, MetadataRequired, "Metadata missing required field: ", "", "") by {
      RequireFieldsAgree(m1, m2, MetadataRequired, "Metadata missing required field: ", "", "");
    }
  }

  /** Two values that answer `in` alike for every listed field give the same
      outcome of the missing-field check. */
  lemma {:induction false} RequireFieldsAgree(v1: Value, v2: Value, fields: seq<string>, prefix: string, lead: string, suffix: string)
    requires forall k :: k in fields ==> In(k, v1) == In(k, v2)
    ensures RequireFields(v1, fields, prefix, lead, suffix) == RequireFields(v2, fields, prefix, lead, suffix)
    decreases |fields|
  {
    if |fields| > 0 {
      assert fields[0] in fields;
      RequireFieldsAgree(v1, v2, fields[1..], prefix, lead, suffix);
    }
  }

  /** Every rule is checked before the default-deny check: the first bad rule is
      what gets reported, and only when all rules are well formed is a missing
      final deny rule reported. */
  lemma PolicyCheckOrder(p: Value, k: nat)
    requires p.Obj? && forall f :: f in PolicyRequired ==> HasKey(p, f)
    requires Field(p, "rules").value.Arr? && |Field(p, "rules").value.items| > 0
    ensures var rules := Field(p, "rules").value.items;
      k < |rules| && !RuleOk(rules[k]) && (forall j :: 0 <= j < k ==> RuleOk(rules[j])) ==>
        ValidatePolicy(p) == ValidateRule(rules[k], k)
    ensures var rules := Field(p, "rules").value.items;
      (forall i :: 0 <= i < |rules| ==> RuleOk(rules[i])) && !IsTerminalDeny(rules[|rules| - 1]) ==>
        ValidatePolicy(p) == Fail("Policy should end with a default deny rule")
  {
    var rules := Field(p, "rules").value.items;
    if k < |rules| && !RuleOk(rules[k]) && (forall j :: 0 <= j < k ==> RuleOk(rules[j])) {
      FirstBadRuleReported(rules, 0, k);
    }
  }

  /** The final rule need only contain "*" among its actions, not consist of it. */
  lemma TerminalDenyIsMembership()
    ensures var rule := Obj([("actions", StrList(["read", "*"])), ("effect", Str("EFFECT_DENY")), ("conditions", Arr([]))]);
      RuleOk(rule) && IsTerminalDeny(rule)
  {
    PlainRule(["read", "*"], "EFFECT_DENY");
    assert "*" in ["read", "*"];
  }

  /** The test list's length and its positive and negative categories are checked
      before any single test is, so those errors win whatever the tests hold. */
  lemma TestsCheckOrder(tests: Value)
    requires tests.Arr?
    ensures |tests.items| < 2 ==>
      ValidateTests(tests) == Fail("Must have at least 2 test cases (1 positive, 1 negative)")
    ensures |tests.items| >= 2 && (forall i :: 0 <= i < |tests.items| ==> tests.items[i].Obj?) ==>
      && ((forall i :: 0 <= i < |tests.items| ==> !HasCategory(tests.items[i], "positive")) ==>
            ValidateTests(tests) == Fail("Must have at least one positive test case"))
      && ((exists i :: 0 <= i < |tests.items| && HasCategory(tests.items[i], "positive"))
          && (forall i :: 0 <= i < |tests.items| ==> !HasCategory(tests.items[i], "negative")) ==>
            ValidateTests(tests) == Fail("Must have at least one negative test case"))
  {
  }

  // ---------------------------------------------------------------------
  // Typed ICPs, as the pipeline hands them over (`model_dump()`)
  // ---------------------------------------------------------------------

  /** The typed ICPs whose dump the validator accepts. The record types already
      guarantee the keys, the string fields and the effects; what is left is the
      version, the snake_case name, a compliance list that is not None, the rule
      list and its final deny rule, and the test list. */
  predicate WellFormed(icp: Icp) {
    && icp.version == "1.0.0"
    && IsSnakeCase(icp.metadata.name)
    && icp.metadata.compliance.Some?
    && |icp.policy.rules| > 0
    && (forall i :: 0 <= i < |icp.policy.rules| ==> |icp.policy.rules[i].actions| > 0)
    && var last := icp.policy.rules[|icp.policy.rules| - 1];
    && last.effect == Deny && "*" in last.actions
    && |icp.tests| >= 2
    && (exists i :: 0 <= i < |icp.tests| && icp.tests[i].category == "positive")
    && (exists i :: 0 <= i < |icp.tests| && icp.tests[i].category == "negative")
    && (forall i :: 0 <= i < |icp.tests| ==> icp.tests[i].category in TestCategories)
  }

  /** The fields of dumped metadata that validation looks at. */
  lemma DumpMetadataFields(m: Metadata)
    ensures var d := DumpMetadata(m);
      && d.Obj? && (forall f :: f in MetadataRequired ==> HasKey(d, f))
      && Field(d, "name") == Some(Str(m.name))
  {
    var f := DumpMetadata(m).fields;
    LookupAt(f, "name", 0);
    LookupAt(f, "description", 1);
    LookupAt(f, "resource", 2);
  }

  lemma DumpMetadataCompliance(m: Metadata)
    ensures Field(DumpMetadata(m), "compliance") == Some(OptStrList(m.compliance))
  {
    var f := DumpMetadata(m).fields;
    assert forall j :: 0 <= j < 6 ==> f[j].0 != "compliance";
    LookupAt(f, "compliance", 6);
  }

  /** A metadata dictionary with its required fields is judged by its name and its
      compliance entry alone. */
  lemma MetadataOkByFields(d: Value, name: string, compliance: Value)
    requires d.Obj? && (forall f :: f in MetadataRequired ==> HasKey(d, f))
    requires Field(d, "name") == Some(Str(name)) && Field(d, "compliance") == Some(compliance)
    ensures MetadataOk(d) <==> IsSnakeCase(name) && compliance.Arr?
  {
  }

  lemma DumpMetadataOk(m: Metadata)
    ensures MetadataOk(DumpMetadata(m)) <==> IsSnakeCase(m.name) && m.compliance.Some?
  {
    DumpMetadataFields(m);
    DumpMetadataCompliance(m);
    MetadataOkByFields(DumpMetadata(m), m.name, OptStrList(m.compliance));
  }

  lemma DumpRuleOk(r: Rule)
    ensures RuleOk(DumpRule(r)) <==> |r.actions| > 0
    ensures RuleOk(DumpRule(r)) ==> (IsTerminalDeny(DumpRule(r)) <==> r.effect == Deny && "*" in r.actions)
  {
    var f := DumpRule(r).fields;
    LookupAt(f, "actions", 0);
    LookupAt(f, "effect", 1);
    LookupAt(f, "conditions", 2);
    StrListContains(r.actions, "*");
  }

  lemma DumpRulesOk(rules: seq<Rule>)
    ensures forall i :: 0 <= i < |rules| ==> (RuleOk(DumpRules(rules)[i]) <==> |rules[i].actions| > 0)
  {
    forall i | 0 <= i < |rules| ensures RuleOk(DumpRules(rules)[i]) <==> |rules[i].actions| > 0 {
      DumpRuleOk(rules[i]);
    }
  }

  /** A policy dictionary that has the three fields is judged by its rule list alone. */
  lemma PolicyOkByRules(d: Value, items: seq<Value>)
    requires d.Obj? && forall k :: k in PolicyRequired ==> HasKey(d, k)
    requires Field(d, "rules") == Some(Arr(items))
    ensures PolicyOk(d) <==>
      |items| > 0 && (forall i :: 0 <= i < |items| ==> RuleOk(items[i])) && IsTerminalDeny(items[|items| - 1])
  {
  }

  lemma DumpPolicyFields(p: Policy)
    ensures var d := DumpPolicy(p);
      d.Obj? && (forall k :: k in PolicyRequired ==> HasKey(d, k)) && Field(d, "rules") == Some(Arr(DumpRules(p.rules)))
  {
    var d := DumpPolicy(p);
    LookupAt(d.fields, "resource", 0);
    LookupAt(d.fields, "version", 1);
    LookupAt(d.fields, "rules", 2);
  }

  /** The conditions on a typed policy under which its dump is accepted. */
  predicate TypedPolicyOk(p: Policy) {
    && |p.rules| > 0
    && (forall i :: 0 <= i < |p.rules| ==> |p.rules[i].actions| > 0)
    && p.rules[|p.rules| - 1].effect == Deny && "*" in p.rules[|p.rules| - 1].actions
  }

  /** The dump of a typed policy is judged by the dumped rules alone. */
  lemma DumpPolicyByRules(p: Policy)
    ensures var items := DumpRules(p.rules);
      PolicyOk(DumpPolicy(p)) <==>
        |items| > 0 && (forall i :: 0 <= i < |items| ==> RuleOk(items[i])) && IsTerminalDeny(items[|items| - 1])
  {
    DumpPolicyFields(p);
    PolicyOkByRules(DumpPolicy(p), DumpRules(p.rules));
  }

  lemma DumpPolicyAccepted(p: Policy)
    requires TypedPolicyOk(p)
    ensures PolicyOk(DumpPolicy(p))
  {
    var n := |p.rules| - 1;
    DumpPolicyByRules(p);
    DumpRulesOk(p.rules);
    DumpRuleOk(p.rules[n]);
  }

  lemma DumpedTerminalDeny(r: Rule, v: Value)
    requires v == DumpRule(r) && RuleOk(v) && IsTerminalDeny(v)
    ensures r.effect == Deny && "*" in r.actions
  {
    DumpRuleOk(r);
  }

  lemma DumpPolicyRejected(p: Policy)
    requires PolicyOk(DumpPolicy(p))
    ensures TypedPolicyOk(p)
  {
    var items := DumpRules(p.rules);
    DumpPolicyByRules(p);
    var n := |p.rules| - 1;
    assert forall i :: 0 <= i < |p.rules| ==> |p.rules[i].actions| > 0 by {
      DumpRulesOk(p.rules);
    }
    DumpedTerminalDeny(p.rules[n], items[n]);
  }

  lemma DumpPolicyOk(p: Policy)
    ensures PolicyOk(DumpPolicy(p)) <==>
      && |p.rules| > 0
      && (forall i :: 0 <= i < |p.rules| ==> |p.rules[i].actions| > 0)
      && p.rules[|p.rules| - 1].effect == Deny && "*" in p.rules[|p.rules| - 1].actions
  {
    if PolicyOk(DumpPolicy(p)) {
      DumpPolicyRejected(p);
    }
    if TypedPolicyOk(p) {
      DumpPolicyAccepted(p);
    }
  }

  /** A dumped test has every required field. */
  lemma DumpTestKeys(t: TestCase)
    ensures DumpTest(t).Obj? && forall f :: f in TestRequired ==> HasKey(DumpTest(t), f)
  {
    var f := DumpTest(t).fields;
    LookupAt(f, "name", 0);
    LookupAt(f, "category", 1);
    LookupAt(f, "input", 2);
    LookupAt(f, "expected", 3);
  }

  /** The fields of a dumped test that validation looks at. */
  lemma DumpTestFields(t: TestCase)
    ensures var d := DumpTest(t);
      && Field(d, "category") == Some(Str(t.category))
      && Field(d, "expected") == Some(Str(EffectName(t.expected)))
      && Field(d, "input") == Some(DumpTestInput(t.input))
  {
    var f := DumpTest(t).fields;
    LookupAt(f, "category", 1);
    LookupAt(f, "input", 2);
    LookupAt(f, "expected", 3);
  }

  lemma DumpTestInputKeys(ti: TestInput)
    ensures forall f :: f in InputRequired ==> HasKey(DumpTestInput(ti), f)
  {
    var g := DumpTestInput(ti).fields;
    LookupAt(g, "principal", 0);
    LookupAt(g, "resource", 1);
    LookupAt(g, "actions", 2);
  }

  /** A test dictionary with all its fields, whose input has all its fields, is
      judged by its category and its expected effect alone. */
  lemma TestOkByFields(d: Value, category: string, expected: Value)
    requires d.Obj? && (forall f :: f in TestRequired ==> HasKey(d, f))
    requires Field(d, "category") == Some(Str(category)) && Field(d, "expected") == Some(expected)
    requires forall f :: f in InputRequired ==> HasKey(Field(d, "input").value, f)
    ensures TestOk(d) <==> category in TestCategories && IsEffectName(expected)
  {
  }

  lemma DumpTestOk(t: TestCase)
    ensures TestOk(DumpTest(t)) <==> t.category in TestCategories
    ensures forall c :: HasCategory(DumpTest(t), c) <==> t.category == c
  {
    DumpTestKeys(t);
    DumpTestFields(t);
    DumpTestInputKeys(t.input);
    TestOkByFields(DumpTest(t), t.category, Str(EffectName(t.expected)));
  }

  lemma DumpTestsOk(tests: seq<TestCase>)
    ensures TestsOk(Arr(DumpTests(tests))) <==>
      && |tests| >= 2
      && (exists i :: 0 <= i < |tests| && tests[i].category == "positive")
      && (exists i :: 0 <= i < |tests| && tests[i].category == "negative")
      && (forall i :: 0 <= i < |tests| ==> tests[i].category in TestCategories)
  {
    var items := DumpTests(tests);
    forall i | 0 <= i < |tests|
      ensures TestOk(items[i]) <==> tests[i].category in TestCategories
      ensures HasCategory(items[i], "positive") <==> tests[i].category == "positive"
      ensures HasCategory(items[i], "negative") <==> tests[i].category == "negative"
    {
      DumpTestOk(tests[i]);
    }
  }

  /** The validator accepts the dump of a typed ICP exactly when it is WellFormed.
      In particular a `compliance` of None, which the record type allows, is
      rejected ("Metadata compliance must be an array"). */
  lemma DumpAccepted(icp: Icp)
    ensures Validate(DumpIcp(icp)).Ok? <==> WellFormed(icp)
  {
    var f := DumpIcp(icp).fields;
    LookupAt(f, "version", 0);
    LookupAt(f, "metadata", 1);
    LookupAt(f, "policy", 2);
    LookupAt(f, "tests", 3);
    DumpMetadataOk(icp.metadata);
    DumpPolicyOk(icp.policy);
    DumpTestsOk(icp.tests);
  }
}
