# GlassTape policy builder: the verified core

This project models the core of the GlassTape agent policy builder in Dafny. The builder
turns a natural-language access requirement into a Cerbos policy. It works through a
JSON "Simple ICP", an intermediate canonical policy that has metadata, rules and test
cases. The modelled core is the part that inspects and transforms that document and the
text around it:

- `icp_validator.dfy` (`IcpValidator`, `IcpValidatorFacts`): the ICP validator. It works on
  raw JSON values and reproduces the exact ValueError each check raises, in check order.
- `icp_types.dfy` (`IcpTypes`): the typed ICP records with their defaults, and their
  `model_dump` into JSON values.
- `cerbos_generator.dfy` (`CerbosGenerator`, `CerbosGeneratorFacts`): lowering an ICP to a
  Cerbos resource policy and test suite, before YAML rendering.
- `redteam_analyzer.dfy` (`RedTeamAnalyzer`, `RedTeamAnalyzerFacts`): the six static
  security checks and the Markdown report of their findings.
- `topic_taxonomy.dfy` (`TopicTaxonomy`): the content-topic table, the reverse index kept
  by the `Taxonomy` class, topic validation and the safety rating of a topic list.
- `result_types.dfy` (`ResultTypes`): the validation, test and finding records.
- `shared_utils.dfy` (`SharedUtils`): input sanitising and the two Markdown formatters.
- `cerbos_cli.dfy` (`CerbosCli`): what is read out of the Cerbos CLI's output. This covers
  error and warning lines, the compile verdict, and the pass and fail counts.
- `templates.dfy` (`Templates`): the library of five policy templates.
- `llm_adapter.dfy` (`LlmAdapter`): cutting the JSON object out of a language model's reply.
- `py_strings.dfy`, `py_values.dfy` (`PyStrings`, `PyValues`): the Python string operations
  and the untyped JSON values these rely on. A dict is an insertion-ordered list of pairs.
  Exceptions are a `Result` with the exception class and, for ValueError, its message.

Code that updates state step by step is written as methods with loops. Each method is
proved equal to a specification function. The properties are lemmas about those
functions. This applies to the taxonomy class, the analyzer's loops, the report builders
and the line extractors.

## Model

| member | source | states |
|---|---|---|
| IcpTypes.EffectValues | src/glasstape_policy_builder/types/icp.py:8-11 | The effect enum has exactly the two values EFFECT_ALLOW and EFFECT_DENY, and parsing a string gives back the effect with that value and nothing else |
| IcpTypes.Defaults | src/glasstape_policy_builder/types/icp.py:14-63 | Fields with a default need not be given: empty topic, blocked-topic, compliance, tag and condition lists, no safety category or roles, version "1.0.0", empty descriptions |
| IcpTypes.DumpIcp | src/glasstape_policy_builder/types/icp.py:58-63 | `model_dump()` of a typed ICP: version, metadata, policy and tests, in declaration order. IcpValidatorFacts.DumpAccepted states that the validator accepts it exactly when the ICP is well formed, and RedTeamAnalyzerFacts.DumpedAnalysis that the analyzer never raises on it |
| ResultTypes.ResultDefaults | src/glasstape_policy_builder/types/results.py:7-19 | A validation result defaults to no errors and no warnings, and a test result to empty details |
| IcpValidator.RequireFields | src/glasstape_policy_builder/icp_validator.py:45-48 | The required-field loop passes exactly when every field is present, and otherwise raises a ValueError with the section's message prefix |
| IcpValidator.ValidateMetadata | src/glasstape_policy_builder/icp_validator.py:43-57 | Metadata passes exactly when name, description and resource are present, the name is snake_case, and compliance, when present, is a list |
| IcpValidator.ValidateRule | src/glasstape_policy_builder/icp_validator.py:81-99 | A rule passes exactly when it is well formed, and every rejection message starts with "Rule <index>" |
| IcpValidator.ValidateRules | src/glasstape_policy_builder/icp_validator.py:72-74 | The rule loop passes exactly when every rule from the given position on is well formed |
| IcpValidator.FirstBadRuleReported | src/glasstape_policy_builder/icp_validator.py:72-74 | The error reported is the one of the first ill-formed rule |
| IcpValidator.EndsWithDeny | src/glasstape_policy_builder/icp_validator.py:77-78 | On a well-formed last rule the check yields whether it denies with "*" among its actions |
| IcpValidator.ValidatePolicy | src/glasstape_policy_builder/icp_validator.py:59-79 | A policy passes exactly when resource, version and a non-empty list of well-formed rules are present and the last rule is a default deny |
| IcpValidator.AnyCategory | src/glasstape_policy_builder/icp_validator.py:110-111 | A true answer means some test has that category; over dictionaries the answer is true exactly when one has it |
| IcpValidator.ValidateTest | src/glasstape_policy_builder/icp_validator.py:122-145 | A test passes exactly when it is well formed, and every rejection message starts with "Test <index>" |
| IcpValidator.ValidateTestList | src/glasstape_policy_builder/icp_validator.py:118-120 | The test loop passes exactly when every test from the given position on is well formed |
| IcpValidator.CheckTestItems | src/glasstape_policy_builder/icp_validator.py:110-120 | Past the count check, the tests pass exactly when one is positive, one is negative and every test is well formed |
| IcpValidator.ValidateTests | src/glasstape_policy_builder/icp_validator.py:101-120 | The tests pass exactly when they are a list of at least two well-formed tests with a positive and a negative one |
| IcpValidator.SnakeCaseChars | src/glasstape_policy_builder/icp_validator.py:50-53 | A name passes the snake_case check exactly when it has only letters, digits and underscores, and at least one letter or digit |
| IcpValidator.Validate | src/glasstape_policy_builder/icp_validator.py:9-41 | An ICP passes exactly when it is a dictionary with version "1.0.0" and metadata, policy and tests sections that all pass |
| IcpValidatorFacts.SnakeCaseRejects | src/glasstape_policy_builder/icp_validator.py:52-53 | The empty name, a name of underscores only and a name with a dash are rejected |
| IcpValidatorFacts.SnakeCaseBadChar | src/glasstape_policy_builder/icp_validator.py:52-53 | A name holding a character other than a letter, digit or underscore is rejected |
| IcpValidatorFacts.SnakeCaseUnderscores | src/glasstape_policy_builder/icp_validator.py:52-53 | A name of underscores only, including the empty name, is rejected |
| IcpValidatorFacts.SnakeCaseJoin | src/glasstape_policy_builder/icp_validator.py:52-53 | Two alphanumeric words joined by an underscore make a snake_case name |
| IcpValidatorFacts.SnakeCaseAccepts | src/glasstape_policy_builder/icp_validator.py:52-53 | "test_policy" is a snake_case name |
| IcpValidatorFacts.MinimalMetadata | src/glasstape_policy_builder/icp_validator.py:43-57 | Metadata with just the three required strings is accepted exactly when its name is snake_case |
| IcpValidatorFacts.SampleMetadataOk | tests/test_components.py:13-18 | The sample metadata is accepted |
| IcpValidatorFacts.PlainRule | src/glasstape_policy_builder/icp_validator.py:81-99 | A rule with actions, an effect and an empty condition list is well formed exactly when its effect is one of the two names and it has an action |
| IcpValidatorFacts.TwoRulePolicy | src/glasstape_policy_builder/icp_validator.py:59-79 | A two-rule policy is accepted exactly when both rules are well formed and the second is a default deny |
| IcpValidatorFacts.SamplePolicyOk | tests/test_components.py:19-34 | The sample policy is accepted |
| IcpValidatorFacts.PlainTest | src/glasstape_policy_builder/icp_validator.py:122-145 | A test with the four fields is well formed for a known category, an effect name and an input with principal, resource and actions |
| IcpValidatorFacts.TwoTests | src/glasstape_policy_builder/icp_validator.py:101-120 | Two tests are accepted exactly when both are well formed and one is positive and one negative |
| IcpValidatorFacts.SampleTestsOk | tests/test_components.py:35-59 | The sample tests are accepted |
| IcpValidatorFacts.FourSections | src/glasstape_policy_builder/icp_validator.py:9-41 | A dictionary of exactly the four sections is accepted exactly when its version is "1.0.0" and each section passes |
| IcpValidatorFacts.SampleAccepted | tests/test_components.py:9-61 | The validator accepts the sample ICP |
| IcpValidatorFacts.SampleAccepts | tests/test_components.py:9-61 | The sample ICP satisfies the acceptance predicate |
| IcpValidatorFacts.CheckOrder | src/glasstape_policy_builder/icp_validator.py:19-32 | A non-dictionary is reported first, then a wrong version, then the first missing section, each with its exact message |
| IcpValidatorFacts.InvalidDataRejected | tests/test_components.py:64-71 | {"invalid": "data"} is rejected at the version check |
| IcpValidatorFacts.MetadataOtherFieldsFree | src/glasstape_policy_builder/icp_validator.py:43-57 | Only the three required fields and compliance decide the metadata verdict |
| IcpValidatorFacts.PolicyCheckOrder | src/glasstape_policy_builder/icp_validator.py:72-79 | Every rule is checked before the default-deny check, and the first bad rule's error wins |
| IcpValidatorFacts.TerminalDenyIsMembership | src/glasstape_policy_builder/icp_validator.py:78 | A last rule whose actions merely include "*" counts as a default deny |
| IcpValidatorFacts.TestsCheckOrder | src/glasstape_policy_builder/icp_validator.py:103-120 | The count is checked before the categories, and the positive category before the negative one |
| IcpValidatorFacts.DumpMetadataOk | src/glasstape_policy_builder/icp_validator.py:43-57 | Dumped typed metadata is accepted exactly when its name is snake_case and compliance is not None |
| IcpValidatorFacts.DumpRuleOk | src/glasstape_policy_builder/icp_validator.py:81-99 | A dumped typed rule is well formed exactly when it has an action, and is a default deny exactly when it denies with "*" |
| IcpValidatorFacts.DumpPolicyOk | src/glasstape_policy_builder/icp_validator.py:59-79 | A dumped typed policy is accepted exactly when it has rules, each with an action, and the last one denies "*" |
| IcpValidatorFacts.DumpTestOk | src/glasstape_policy_builder/icp_validator.py:122-145 | A dumped typed test is well formed exactly when its category is one of the four names |
| IcpValidatorFacts.DumpTestsOk | src/glasstape_policy_builder/icp_validator.py:101-120 | Dumped typed tests are accepted exactly when there are at least two, all well formed, one positive and one negative |
| IcpValidatorFacts.DumpAccepted | src/glasstape_policy_builder/icp_validator.py:9-41 | A typed ICP's dump is accepted exactly when it is well formed |
| CerbosGenerator.BuildExpr | src/glasstape_policy_builder/cerbos_generator.py:96-99 | Each condition in parentheses, joined by " && ". CerbosGeneratorFacts.BuildExprSmall, BuildExprAppend and BuildExprMentions state its result |
| CerbosGenerator.TransformRule | src/glasstape_policy_builder/cerbos_generator.py:50-69 | One ICP rule lowered to a Cerbos rule. CerbosGeneratorFacts.RuleActionsEffect, RuleRolesKey, RuleConditionKey and RuleKeys state its result |
| CerbosGenerator.TransformRules | src/glasstape_policy_builder/cerbos_generator.py:26 | The rule comprehension: one lowered rule per ICP rule, same length and order. CerbosGeneratorFacts.PolicyDocument, LowersWithoutDenyRule and AcceptedEndsWithDeny state it inside the policy document |
| CerbosGenerator.GeneratePolicy | src/glasstape_policy_builder/cerbos_generator.py:10-30 | The resource-policy document before YAML rendering. CerbosGeneratorFacts.PolicyDocument states its result, and LowersWithoutDenyRule and AcceptedEndsWithDeny state the lowered rules it carries |
| CerbosGenerator.TransformTest | src/glasstape_policy_builder/cerbos_generator.py:71-94 | One ICP test lowered to a Cerbos test. CerbosGeneratorFacts.TransformTestShape, TransformTestInput, TransformTestPrincipal and TransformTestResource state its result, and ExpectationsShape states its expectation list |
| CerbosGenerator.TransformTests | src/glasstape_policy_builder/cerbos_generator.py:44 | The test comprehension: one lowered test per ICP test, same length and order, each with the policy resource as kind. CerbosGeneratorFacts.TestSuiteDocument states it inside the suite document |
| CerbosGenerator.GenerateTests | src/glasstape_policy_builder/cerbos_generator.py:32-48 | The test-suite document before YAML rendering. CerbosGeneratorFacts.TestSuiteDocument states its result |
| CerbosGeneratorFacts.BuildExprSmall | src/glasstape_policy_builder/cerbos_generator.py:96-99 | No condition gives the empty expression, and one condition gives it in parentheses |
| CerbosGeneratorFacts.BuildExprAppend | src/glasstape_policy_builder/cerbos_generator.py:96-99 | The expression of two non-empty condition lists is their expressions joined by " && " |
| CerbosGeneratorFacts.BuildExprMentions | src/glasstape_policy_builder/cerbos_generator.py:96-99 | Every condition occurs in the expression, in parentheses |
| CerbosGeneratorFacts.RuleActionsEffect | src/glasstape_policy_builder/cerbos_generator.py:52-55 | A lowered rule carries the rule's actions and effect name |
| CerbosGeneratorFacts.RuleRolesKey | src/glasstape_policy_builder/cerbos_generator.py:58-59 | A lowered rule has roles exactly when the rule's roles are truthy, and then they are the rule's roles |
| CerbosGeneratorFacts.RuleConditionKey | src/glasstape_policy_builder/cerbos_generator.py:62-67 | A lowered rule has a condition exactly when the rule has conditions, and it is the match expression built from them |
| CerbosGeneratorFacts.RuleKeys | src/glasstape_policy_builder/cerbos_generator.py:50-69 | A lowered rule has no key but actions, effect, roles and condition |
| CerbosGeneratorFacts.PolicyDocument | src/glasstape_policy_builder/cerbos_generator.py:20-28 | The document has the fixed apiVersion, the metadata description, and the policy's version, resource and lowered rules |
| CerbosGeneratorFacts.LowersWithoutDenyRule | src/glasstape_policy_builder/cerbos_generator.py:10-30 | The generator does not validate: a lone allow rule is lowered as it is |
| CerbosGeneratorFacts.AcceptedEndsWithDeny | src/glasstape_policy_builder/cerbos_generator.py:26 | For an ICP the validator accepts, the lowered rules end in a deny rule with "*" among its actions |
| CerbosGeneratorFacts.ExpectationsShape | src/glasstape_policy_builder/cerbos_generator.py:87-93 | There is one expectation per input action, in order, with the test's expected effect |
| CerbosGeneratorFacts.TransformTestShape | src/glasstape_policy_builder/cerbos_generator.py:71-94 | A lowered test keeps the test's name and carries one expectation list built from the test's actions and expected effect |
| CerbosGeneratorFacts.TransformTestInput | src/glasstape_policy_builder/cerbos_generator.py:71-94 | A lowered test's input holds a principal, a resource and the test's actions |
| CerbosGeneratorFacts.TransformTestPrincipal | src/glasstape_policy_builder/cerbos_generator.py:71-94 | The principal's id and roles are copied from the test, or default to "test-principal" and an empty role list |
| CerbosGeneratorFacts.TransformTestResource | src/glasstape_policy_builder/cerbos_generator.py:71-94 | The resource's kind is the policy's resource; its id and attr are copied from the test, or default to "test-resource" and no attributes |
| CerbosGeneratorFacts.TestSuiteDocument | src/glasstape_policy_builder/cerbos_generator.py:42-46 | The suite is named "<name>_test_suite", is described after the name, and holds one lowered test per test |
| RedTeamAnalyzer.OrEmpty | src/glasstape_policy_builder/redteam_analyzer.py:37 | The result is falsy exactly when the ICP is, and a truthy ICP is kept as it is |
| RedTeamAnalyzer.RulesSection | src/glasstape_policy_builder/redteam_analyzer.py:88-89 | A falsy ICP has no rules section, and a rules section that is found is the policy's rules value |
| RedTeamAnalyzer.TruthyItems | src/glasstape_policy_builder/redteam_analyzer.py:191-193 | Items are added only from a dict, and some are added exactly when the key's value is truthy |
| RedTeamAnalyzer.Detected | src/glasstape_policy_builder/redteam_analyzer.py:122 | The detected keywords are exactly the listed keywords that occur in the text |
| RedTeamAnalyzer.KeywordFinding | src/glasstape_policy_builder/redteam_analyzer.py:124-135 | Pass with the detection message when something was detected, otherwise warn. RedTeamAnalyzerFacts.KeywordFindingNeverFails states it keeps the check name and never fails, and KeywordChecks gives the pass iff for each keyword check |
| RedTeamAnalyzer.RoleFindingNames | src/glasstape_policy_builder/redteam_analyzer.py:200-212 | Without roles the check warns; with roles it passes exactly when all are strings, naming each role once |
| RedTeamAnalyzer.CollectRolesStops | src/glasstape_policy_builder/redteam_analyzer.py:190-193 | Once a rule's roles lookup raises, collecting the roles raises that exception |
| RedTeamAnalyzer.CheckRoleBasedAccess | src/glasstape_policy_builder/redteam_analyzer.py:182-212 | The loop computes the role finding that the specification function defines |
| RedTeamAnalyzer.BlockedLabels | src/glasstape_policy_builder/redteam_analyzer.py:227 | Each blocked topic becomes "blocked:" followed by its text, in order |
| RedTeamAnalyzer.TopicFindingShown | src/glasstape_policy_builder/redteam_analyzer.py:234-245 | Without topics the check warns; with topics it passes naming the first five entries, which must be strings |
| RedTeamAnalyzer.CheckTopicGovernance | src/glasstape_policy_builder/redteam_analyzer.py:214-245 | The steps compute the topic finding that the specification function defines |
| RedTeamAnalyzer.Analyze | src/glasstape_policy_builder/redteam_analyzer.py:23-54 | Appending one finding per check gives the analysis function's six findings, or its exception |
| RedTeamAnalyzer.CountStatus | src/glasstape_policy_builder/redteam_analyzer.py:60-62 | A count is at most the number of findings, and positive exactly when some finding has that status |
| RedTeamAnalyzer.AppendSections | src/glasstape_policy_builder/redteam_analyzer.py:66-74 | The loop appends, for each finding in order, its heading line and then its message followed by a blank line |
| RedTeamAnalyzer.FormatFindings | src/glasstape_policy_builder/redteam_analyzer.py:56-83 | Accumulating with += gives the report function's text |
| RedTeamAnalyzer.Repr | src/glasstape_policy_builder/redteam_analyzer.py:227 | How the f-string shows a blocked topic that is not a string, as Python's repr. RedTeamAnalyzer.BlockedLabels states the labels built with it |
| RedTeamAnalyzer.DefaultDeny | src/glasstape_policy_builder/redteam_analyzer.py:85-112 | Passes when the ICP's last rule denies with "*" among its actions, or when the text holds EFFECT_DENY and "*" in quotes. Otherwise it fails, and a rules structure that cannot be read raises. RedTeamAnalyzerFacts.AcceptedPassesDefaultDeny, DumpedDefaultDeny and EmptyIcpHasNoRules state its result |
| RedTeamAnalyzer.RateLimiting | src/glasstape_policy_builder/redteam_analyzer.py:114-135 | Passes naming the rate keywords found in the lower-cased text, and warns when there are none. RedTeamAnalyzerFacts.KeywordChecks and KeywordChecksIgnoreCase state its result |
| RedTeamAnalyzer.Sanctions | src/glasstape_policy_builder/redteam_analyzer.py:137-158 | Passes naming the screening keywords found in the lower-cased text, and warns when there are none. RedTeamAnalyzerFacts.KeywordChecks and KeywordChecksIgnoreCase state its result |
| RedTeamAnalyzer.InputValidation | src/glasstape_policy_builder/redteam_analyzer.py:160-180 | Passes naming the validation patterns found in the text, case-sensitively, and warns when there are none. RedTeamAnalyzerFacts.KeywordChecks states its result |
| RedTeamAnalyzer.RoleFinding | src/glasstape_policy_builder/redteam_analyzer.py:200-212 | The role finding for the collected roles. RedTeamAnalyzer.RoleFindingNames states its result |
| RedTeamAnalyzer.CollectRoles | src/glasstape_policy_builder/redteam_analyzer.py:190-193 | The roles of the rules, rule by rule, or the first exception. RedTeamAnalyzer.CollectRolesStops states that an exception propagates, and RedTeamAnalyzerFacts.DumpedCollectRoles gives the roles of dumped rules |
| RedTeamAnalyzer.IcpRoles | src/glasstape_policy_builder/redteam_analyzer.py:188-193 | The roles found through the ICP, or none when it has no policy rules. RedTeamAnalyzerFacts.EmptyIcpHasNoRules, RolesTextFallback and DumpedRoleAccess state its result |
| RedTeamAnalyzer.RoleBasedAccess | src/glasstape_policy_builder/redteam_analyzer.py:182-212 | Roles from the ICP's rules, else the text fallback, else a warning. RedTeamAnalyzerFacts.RoleCheckNeverFails, RolesTextFallback and DumpedRoleAccess state its result, and RedTeamAnalyzer.CheckRoleBasedAccess computes it |
| RedTeamAnalyzer.TopicGovernance | src/glasstape_policy_builder/redteam_analyzer.py:214-245 | Topics and blocked topics from the ICP's metadata, else the text fallback, else a warning. RedTeamAnalyzerFacts.TopicCheckNeverFails, TopicsTextFallback and DumpedTopicGovernance state its result, and RedTeamAnalyzer.CheckTopicGovernance computes it |
| RedTeamAnalyzer.IcpTopics | src/glasstape_policy_builder/redteam_analyzer.py:220-227 | The metadata topics, then a "blocked:" label per blocked topic. RedTeamAnalyzerFacts.TopicEntries, DumpedIcpTopics and TopicsTextFallback state its result |
| RedTeamAnalyzer.TopicFinding | src/glasstape_policy_builder/redteam_analyzer.py:234-245 | The topic finding for the collected entries. RedTeamAnalyzer.TopicFindingShown states that it warns without topics and otherwise shows the first five, and RedTeamAnalyzerFacts.TopicCheckNeverFails that it never fails |
| RedTeamAnalyzer.Analysis | src/glasstape_policy_builder/redteam_analyzer.py:23-54 | The six findings in check order, or the exception a structural check raises. RedTeamAnalyzerFacts.AnalysisShape, NoIcpUsesText and DumpedAnalysis state its result, and RedTeamAnalyzer.Analyze computes it |
| RedTeamAnalyzer.Section | src/glasstape_policy_builder/redteam_analyzer.py:66-74 | A finding's heading, with its status mark and check name, then its message and a blank line. RedTeamAnalyzerFacts.ReportHasSections states that it is in the report |
| RedTeamAnalyzer.Sections | src/glasstape_policy_builder/redteam_analyzer.py:66-74 | The findings' sections in order. RedTeamAnalyzer.AppendSections computes it |
| RedTeamAnalyzer.ScoreLine | src/glasstape_policy_builder/redteam_analyzer.py:64 | The passed count out of 6. RedTeamAnalyzerFacts.ScoreLineNamesPassed states its result |
| RedTeamAnalyzer.Report | src/glasstape_policy_builder/redteam_analyzer.py:56-83 | The whole Markdown report. RedTeamAnalyzerFacts.ReportOpening and ReportHasSections state its result, ClosingLine states its closing line, and RedTeamAnalyzer.FormatFindings computes it |
| RedTeamAnalyzerFacts.RoleCheckNeverFails | src/glasstape_policy_builder/redteam_analyzer.py:182-212 | Role-Based Access passes or warns, never fails |
| RedTeamAnalyzerFacts.TopicCheckNeverFails | src/glasstape_policy_builder/redteam_analyzer.py:214-245 | Topic Governance passes or warns, never fails |
| RedTeamAnalyzerFacts.AnalysisShape | src/glasstape_policy_builder/redteam_analyzer.py:23-54 | There are six findings in the fixed check order, and only Default Deny can fail |
| RedTeamAnalyzerFacts.EmptyIcpHasNoRules | src/glasstape_policy_builder/redteam_analyzer.py:85-112 | With the empty dict, Default Deny is decided by the text alone, and no roles or topics come from the ICP |
| RedTeamAnalyzerFacts.NoIcpUsesText | src/glasstape_policy_builder/redteam_analyzer.py:37-52 | A missing or falsy ICP is analysed like the empty dict, and the findings come from the text alone |
| RedTeamAnalyzerFacts.AcceptedPassesDefaultDeny | src/glasstape_policy_builder/redteam_analyzer.py:88-98 | An ICP the validator accepts passes Default Deny whatever the text |
| RedTeamAnalyzerFacts.DumpedRulesSection | src/glasstape_policy_builder/redteam_analyzer.py:88-89 | The structural checks find a dumped ICP's rule list |
| RedTeamAnalyzerFacts.DumpedDefaultDeny | src/glasstape_policy_builder/redteam_analyzer.py:85-112 | On a dumped ICP, Default Deny passes exactly when the last rule denies "*" or the text shows a default deny |
| RedTeamAnalyzerFacts.DetectedAppend | src/glasstape_policy_builder/redteam_analyzer.py:122 | Detection keeps list order: the detections of a concatenated list are those of each part, in turn |
| RedTeamAnalyzerFacts.KeywordChecks | src/glasstape_policy_builder/redteam_analyzer.py:114-180 | Each keyword check passes exactly when one of its keywords occurs, naming the detected ones; otherwise it warns with its fixed message |
| RedTeamAnalyzerFacts.KeywordChecksIgnoreCase | src/glasstape_policy_builder/redteam_analyzer.py:121-145 | Rate limiting and sanctions screening give the same finding for a text and its lower-cased form |
| RedTeamAnalyzerFacts.RolesTextFallback | src/glasstape_policy_builder/redteam_analyzer.py:195-198 | Roles from the ICP decide the check whatever the text; only without them is the text consulted |
| RedTeamAnalyzerFacts.DumpedRuleRoles | src/glasstape_policy_builder/redteam_analyzer.py:191-193 | A dumped rule adds its own roles, or nothing when it has none |
| RedTeamAnalyzerFacts.DumpedCollectRoles | src/glasstape_policy_builder/redteam_analyzer.py:188-193 | The roles collected from dumped rules are the rules' roles, rule by rule |
| RedTeamAnalyzerFacts.DumpedRoleAccess | src/glasstape_policy_builder/redteam_analyzer.py:182-212 | On a dumped ICP the check never raises, and it passes naming each role of the rules once when there are some |
| RedTeamAnalyzerFacts.TopicsTextFallback | src/glasstape_policy_builder/redteam_analyzer.py:229-232 | Topics from the ICP decide the check whatever the text; only without them is the text consulted |
| RedTeamAnalyzerFacts.TopicEntries | src/glasstape_policy_builder/redteam_analyzer.py:220-227 | The entries of typed metadata number its topics plus its blocked topics |
| RedTeamAnalyzerFacts.DumpedMetadataTopics | src/glasstape_policy_builder/redteam_analyzer.py:222-227 | Dumped metadata supplies its topics list |
| RedTeamAnalyzerFacts.DumpedMetadataBlocked | src/glasstape_policy_builder/redteam_analyzer.py:222-227 | Dumped metadata supplies its blocked-topics list |
| RedTeamAnalyzerFacts.DumpedIcpTopics | src/glasstape_policy_builder/redteam_analyzer.py:220-227 | A dumped ICP supplies its topics, then "blocked:" followed by each blocked topic |
| RedTeamAnalyzerFacts.DumpedTopicGovernance | src/glasstape_policy_builder/redteam_analyzer.py:214-245 | On a dumped ICP the check never raises; with topics or blocked topics it passes naming the first five entries, and otherwise the text decides |
| RedTeamAnalyzerFacts.DumpedAnalysis | src/glasstape_policy_builder/redteam_analyzer.py:23-54 | A typed ICP, dumped, never makes the analyzer raise |
| RedTeamAnalyzerFacts.CountsPartition | src/glasstape_policy_builder/redteam_analyzer.py:60-62 | The pass, warn and fail counts add up to the number of findings |
| RedTeamAnalyzerFacts.ClosingLine | src/glasstape_policy_builder/redteam_analyzer.py:76-81 | Any failure asks for action; otherwise any warning recommends; otherwise the report says ready for deployment |
| RedTeamAnalyzerFacts.HeaderNamesAnalysis | src/glasstape_policy_builder/redteam_analyzer.py:58 | The report header names the security analysis |
| RedTeamAnalyzerFacts.ScoreLineNamesPassed | src/glasstape_policy_builder/redteam_analyzer.py:64 | The score line says how many checks passed |
| RedTeamAnalyzerFacts.ReportOpening | src/glasstape_policy_builder/redteam_analyzer.py:58-64 | The report opens with its title and the score line counting passed findings out of 6 |
| RedTeamAnalyzerFacts.ReportHasSections | src/glasstape_policy_builder/redteam_analyzer.py:66-74 | Every finding has its section, with heading and message, in the report |
| TopicTaxonomy.LevelOrder | src/glasstape_policy_builder/topic_taxonomy.py:131 | Comparing the ratings' string values orders them by severity, from G to adult content, and no two ratings share a value |
| TopicTaxonomy.FindCategory | src/glasstape_policy_builder/topic_taxonomy.py:96-97 | A category is found exactly when some key of the table has that name |
| TopicTaxonomy.FindCategoryAt | src/glasstape_policy_builder/topic_taxonomy.py:96-97 | The category found is the one bound to the first matching key |
| TopicTaxonomy.TableNames | src/glasstape_policy_builder/topic_taxonomy.py:27-69 | The six keys are distinct, and each is its category's own name |
| TopicTaxonomy.TableTopicsDisjoint | src/glasstape_policy_builder/topic_taxonomy.py:27-69 | No topic is listed by two categories |
| TopicTaxonomy.AddTopics | src/glasstape_policy_builder/topic_taxonomy.py:83-84 | Adding a category's topics indexes each of them under that category and leaves the other entries alone |
| TopicTaxonomy.TopicMap | src/glasstape_policy_builder/topic_taxonomy.py:79-85 | The reverse index holds exactly the topics some category lists |
| TopicTaxonomy.TopicMapAt | src/glasstape_policy_builder/topic_taxonomy.py:79-85 | A topic is indexed under the last category that lists it |
| TopicTaxonomy.DisjointTopicMap | src/glasstape_policy_builder/topic_taxonomy.py:79-85 | When no topic is listed twice, every topic is indexed under its own category |
| TopicTaxonomy.AllTopics | src/glasstape_policy_builder/topic_taxonomy.py:89-91 | The collected topics are exactly the listed ones |
| TopicTaxonomy.Known | src/glasstape_policy_builder/topic_taxonomy.py:113-114 | The valid topics are exactly the input topics in the index |
| TopicTaxonomy.Unknown | src/glasstape_policy_builder/topic_taxonomy.py:118-119 | The invalid topics are exactly the input topics not in the index |
| TopicTaxonomy.CategoriesOf | src/glasstape_policy_builder/topic_taxonomy.py:115 | Each known topic is mapped to its indexed category, position by position |
| TopicTaxonomy.CategoryOf | src/glasstape_policy_builder/topic_taxonomy.py:100-102 | The indexed category of a topic, or "unknown". TopicTaxonomy.Taxonomy.GetTopicCategory returns it, and TableIndexed states the category it gives each listed topic |
| TopicTaxonomy.KnownAppend | src/glasstape_policy_builder/topic_taxonomy.py:112-119 | The valid topics of a concatenation are those of each part, in order |
| TopicTaxonomy.UnknownAppend | src/glasstape_policy_builder/topic_taxonomy.py:112-119 | The invalid topics of a concatenation are those of each part, in order |
| TopicTaxonomy.Validate | src/glasstape_policy_builder/topic_taxonomy.py:104-121 | The valid, invalid and categories lists built topic by topic. TopicTaxonomy.ValidateMeaning and ValidatePartition state its result, and Taxonomy.ValidateTopics computes it |
| TopicTaxonomy.ValidateMeaning | src/glasstape_policy_builder/topic_taxonomy.py:104-121 | Validation yields the known topics, the unknown topics, and the distinct categories of the known ones in first-seen order |
| TopicTaxonomy.ValidatePartition | src/glasstape_policy_builder/topic_taxonomy.py:104-121 | Every input topic lands in exactly one of the two lists, with multiplicity |
| TopicTaxonomy.KnownUnknownSplit | src/glasstape_policy_builder/topic_taxonomy.py:112-119 | The known and unknown topics together are a permutation of the input |
| TopicTaxonomy.SafetyLevel | src/glasstape_policy_builder/topic_taxonomy.py:123-134 | The running maximum of the topics' ratings, starting from G. TopicTaxonomy.SafetyLevelIsMax, SafetyLevelMonotone and SafetyLevelTwo state its result |
| TopicTaxonomy.SafetyLevelIsMax | src/glasstape_policy_builder/topic_taxonomy.py:123-134 | The rating is at least that of every known topic, and is G or the rating of some input topic |
| TopicTaxonomy.SafetyLevelMonotone | src/glasstape_policy_builder/topic_taxonomy.py:123-134 | Adding topics never lowers the rating |
| TopicTaxonomy.UnknownTopicsRateG | src/glasstape_policy_builder/topic_taxonomy.py:125-134 | A list with no known topic is rated G |
| TopicTaxonomy.AllTopicsSorted | src/glasstape_policy_builder/topic_taxonomy.py:87-92 | The sorted topics are exactly the listed ones |
| TopicTaxonomy.TableIndexed | src/glasstape_policy_builder/topic_taxonomy.py:75-85 | In the taxonomy's index every listed topic is filed under its own category |
| TopicTaxonomy.TableTopicLevel | src/glasstape_policy_builder/topic_taxonomy.py:128-130 | A listed topic brings its category's rating, and an unlisted one brings none |
| TopicTaxonomy.TopicOffered | src/glasstape_policy_builder/topic_taxonomy.py:87-92 | Every topic of the table is among all topics |
| TopicTaxonomy.AllTopicsExample | tests/test_topic_features.py:12-15 | payment, pii and recipe are among all topics |
| TopicTaxonomy.ValidateThree | src/glasstape_policy_builder/topic_taxonomy.py:104-121 | Two known topics in different categories and an unknown one are split into two valid, one invalid and two categories |
| TopicTaxonomy.InvalidTopicUnlisted | src/glasstape_policy_builder/topic_taxonomy.py:27-69 | "invalid_topic" is in no category |
| TopicTaxonomy.ValidateExample | tests/test_topic_features.py:23-28 | Validating payment, pii and invalid_topic gives valid payment and pii, invalid invalid_topic, and categories financial and privacy |
| TopicTaxonomy.SafetyLevelTwo | src/glasstape_policy_builder/topic_taxonomy.py:127-132 | Of two rated topics the more severe rating wins |
| TopicTaxonomy.SafetyLevelExample | tests/test_topic_features.py:31-32 | payment with adult is rated R |
| TopicTaxonomy.Taxonomy.constructor | src/glasstape_policy_builder/topic_taxonomy.py:75-77 | A new taxonomy holds the table and the reverse index built from it |
| TopicTaxonomy.Taxonomy.BuildTopicMap | src/glasstape_policy_builder/topic_taxonomy.py:79-85 | The nested loops build exactly the reverse index function |
| TopicTaxonomy.Taxonomy.GetAllTopics | src/glasstape_policy_builder/topic_taxonomy.py:87-92 | The loop returns all the categories' topics, sorted |
| TopicTaxonomy.Taxonomy.GetCategoryTopics | src/glasstape_policy_builder/topic_taxonomy.py:94-98 | A category in the table gives its topics, and any other name gives no topics |
| TopicTaxonomy.Taxonomy.GetTopicCategory | src/glasstape_policy_builder/topic_taxonomy.py:100-102 | A listed topic gives its category's name, and an unlisted one gives "unknown" |
| TopicTaxonomy.Taxonomy.ValidateTopics | src/glasstape_policy_builder/topic_taxonomy.py:104-121 | The loop returns the validation function's result over the index |
| TopicTaxonomy.Taxonomy.GetSafetyLevel | src/glasstape_policy_builder/topic_taxonomy.py:123-134 | The loop returns the running maximum that the rating function defines |
| SharedUtils.Sanitize | src/glasstape_policy_builder/tools/shared_utils.py:53-55 | The sanitised text has no '<', '>' or '"' |
| SharedUtils.SanitizeChar | src/glasstape_policy_builder/tools/shared_utils.py:55 | One character is replaced by its entity, or kept when it is not one of the three |
| SharedUtils.SanitizeConcat | src/glasstape_policy_builder/tools/shared_utils.py:55 | Sanitising distributes over concatenation |
| SharedUtils.SanitizeEscapes | src/glasstape_policy_builder/tools/shared_utils.py:53-55 | The three chained replacements escape the text character by character: &lt; &gt; &quot; |
| SharedUtils.SanitizeFixed | src/glasstape_policy_builder/tools/shared_utils.py:53-55 | A text is left unchanged exactly when it has none of the three characters |
| SharedUtils.SanitizeIdempotent | src/glasstape_policy_builder/tools/shared_utils.py:53-55 | Sanitising twice is sanitising once |
| SharedUtils.FormatValidationResults | src/glasstape_policy_builder/tools/shared_utils.py:58-88 | Accumulating with += gives the report function's text |
| SharedUtils.ValidationReport | src/glasstape_policy_builder/tools/shared_utils.py:58-88 | The validation report. SharedUtils.ReportLayout and SkippedReport state its result, SuccessBlock, FailureBlock and AllPassedIffNoFailures state its compilation and test blocks, and SharedUtils.FormatValidationResults computes it |
| SharedUtils.ReportLayout | src/glasstape_policy_builder/tools/shared_utils.py:60-76 | The report opens with its header and the compilation block, and without a test result ends right after it with a blank line |
| SharedUtils.SkippedReport | src/glasstape_policy_builder/tools/shared_utils.py:73-74 | Without a compilation result the report says that validation was skipped |
| SharedUtils.SuccessBlock | src/glasstape_policy_builder/tools/shared_utils.py:63-68 | A success says the syntax is valid, has a warnings block exactly when there are warnings, and lists each warning |
| SharedUtils.FailureBlock | src/glasstape_policy_builder/tools/shared_utils.py:69-72 | A failure lists each error as a bullet, in order |
| SharedUtils.AllPassedIffNoFailures | src/glasstape_policy_builder/tools/shared_utils.py:79-86 | The test block says "All tests passed!" exactly when no test failed |
| SharedUtils.FormatPolicyMetadata | src/glasstape_policy_builder/tools/shared_utils.py:91-102 | Accumulating with += gives the metadata block function's text |
| SharedUtils.MetadataReport | src/glasstape_policy_builder/tools/shared_utils.py:91-102 | The metadata block. SharedUtils.MetadataEmpty, MetadataTopicsFirst, MetadataSafetyFirst and MetadataComplianceLast state its result, and SharedUtils.FormatPolicyMetadata computes it |
| SharedUtils.MetadataEmpty | src/glasstape_policy_builder/tools/shared_utils.py:93-102 | The block is empty exactly when topics, safety category and compliance are all unset, and otherwise it is the lines plus a blank line |
| SharedUtils.MetadataTopicsFirst | src/glasstape_policy_builder/tools/shared_utils.py:95-100 | When topics are set, the block starts with the topics line |
| SharedUtils.MetadataSafetyFirst | src/glasstape_policy_builder/tools/shared_utils.py:95-100 | Without topics, a set safety category's line starts the block |
| SharedUtils.MetadataComplianceLast | src/glasstape_policy_builder/tools/shared_utils.py:95-100 | A non-empty compliance list's line is the last line before the closing blank line |
| CerbosCli.MatchingLines | src/glasstape_policy_builder/cerbos_cli.py:135-149 | No more entries than lines; every entry is the stripped form of a line whose lower-cased text contains the word and that is not blank, and every such line gives its entry |
| CerbosCli.MatchingMembers | src/glasstape_policy_builder/cerbos_cli.py:135-149 | The entries are exactly the stripped non-blank lines whose lower-cased form contains the word |
| CerbosCli.ExtractLines | src/glasstape_policy_builder/cerbos_cli.py:135-149 | The loop over the output's lines computes the extraction function |
| CerbosCli.ExtractedStripped | src/glasstape_policy_builder/cerbos_cli.py:139-140 | Every extracted entry is non-empty and already stripped |
| CerbosCli.ErrorAndWarning | src/glasstape_policy_builder/cerbos_cli.py:135-149 | A line mentioning both words is reported as an error and as a warning |
| CerbosCli.CompileResult | src/glasstape_policy_builder/cerbos_cli.py:64-91 | The result `compile` builds from a completed run, a time-out or an exception. CerbosCli.CompileRule states its result |
| CerbosCli.CompileRule | src/glasstape_policy_builder/cerbos_cli.py:64-91 | Compilation succeeds exactly when the tool ends with code 0 and no "error" in any case, success carries no errors, and a time-out or exception gives one error and no warnings |
| CerbosCli.CountOf | src/glasstape_policy_builder/cerbos_cli.py:154-158 | The number before the first match of digits, blanks and the word, or 0 without a match; a ValueError exactly when the matched digits are more than the 4300 that `int()` accepts. CerbosCli.FirstCount finds the match it reads, and SummaryCounts states its result on a test summary |
| CerbosCli.FirstCount | src/glasstape_policy_builder/cerbos_cli.py:154-155 | The match found is the leftmost one, and none is found only when there is none |
| CerbosCli.ParseTestOutput | src/glasstape_policy_builder/cerbos_cli.py:151-165 | A result exactly when both counts parse; the total is then passed plus failed and the details the output verbatim; otherwise the `int()` ValueError. CerbosCli.CountPastLimit shows a count past 4300 digits failing |
| CerbosCli.SummaryCounts | src/glasstape_policy_builder/cerbos_cli.py:153-163 | For any digit strings A and B of 1 to 4300 digits, leading zeros included, "<A> passed, <B> failed" yields the counts int(A) and int(B) |
| CerbosCli.ParseSummary | src/glasstape_policy_builder/cerbos_cli.py:153-163 | A summary "<a> passed, <b> failed" with numbers of at most 4300 digits is read back as a passed, b failed and a + b in total |
| CerbosCli.CountPastLimit | src/glasstape_policy_builder/cerbos_cli.py:157 | A passed count of more than 4300 digits makes the parse fail with the `int()` ValueError instead of returning counts |
| Templates.LibraryShape | src/glasstape_policy_builder/templates.py:17-63 | There are five templates, with pairwise different ids |
| Templates.OfCategoryMembers | src/glasstape_policy_builder/templates.py:80 | A template is kept exactly when it is in the list and has the category |
| Templates.OfCategoryAppend | src/glasstape_policy_builder/templates.py:80 | Filtering distributes over concatenation, so the kept templates keep their declared order |
| Templates.OfCategoryAllOrNone | src/glasstape_policy_builder/templates.py:80 | A list all of the category is kept whole, and a list with none of it is filtered away |
| Templates.ListTemplates | src/glasstape_policy_builder/templates.py:69-81 | The whole library, or the templates of one category. Templates.ListTemplatesMeaning and FinanceExample state its result |
| Templates.ListTemplatesMeaning | src/glasstape_policy_builder/templates.py:69-81 | Without a category, or with an empty one, all templates come back in declared order; otherwise exactly those of that category |
| Templates.FinanceExample | tests/test_components.py:130-132 | The finance category holds Payment Execution alone |
| Templates.FindTemplate | src/glasstape_policy_builder/templates.py:83-88 | The lookup gives None exactly when no template has the id, and otherwise the first one that has it |
| Templates.FindDistinct | src/glasstape_policy_builder/templates.py:83-88 | With distinct ids, each template is found by its own id |
| Templates.GetTemplate | src/glasstape_policy_builder/templates.py:83-88 | The library's template with this id, or None. Templates.GetTemplateMeaning and GetTemplateExample state its result |
| Templates.GetTemplateMeaning | src/glasstape_policy_builder/templates.py:83-88 | Every library template is found by its id, and an id no template has gives None |
| Templates.GetTemplateExample | tests/test_components.py:139-146 | payment_execution gives Payment Execution, and non_existent gives None |
| Templates.GetCategories | src/glasstape_policy_builder/templates.py:90-92 | A category is listed exactly when some template has it |
| Templates.CategoriesMeaning | src/glasstape_policy_builder/templates.py:79-92 | A category is listed exactly when filtering by it keeps some template |
| Templates.CategoriesExample | tests/test_components.py:134-137 | The categories are finance, healthcare, ai_safety, data_access and system |
| LlmAdapter.FirstIndex | src/glasstape_policy_builder/llm_adapter.py:89 | The position found holds the character and none precedes it, and there is none only when the text lacks it |
| LlmAdapter.LastIndex | src/glasstape_policy_builder/llm_adapter.py:89 | The position found holds the character and none follows it, and there is none only when the text lacks it |
| LlmAdapter.RemoveFences | src/glasstape_policy_builder/llm_adapter.py:86 | After the removal no three backticks remain in a row |
| LlmAdapter.NoFenceNotContains | src/glasstape_policy_builder/llm_adapter.py:86 | A text without three backticks in a row does not contain the fence |
| LlmAdapter.BracePairBounds | src/glasstape_policy_builder/llm_adapter.py:89 | A '{' before a '}' exists exactly when the first '{' precedes the last '}' |
| LlmAdapter.BraceSpan | src/glasstape_policy_builder/llm_adapter.py:89-95 | The greedy brace match, or the wrapped ValueError. LlmAdapter.BraceSpanMeaning states its result |
| LlmAdapter.BraceSpanMeaning | src/glasstape_policy_builder/llm_adapter.py:89-95 | The greedy match exists exactly when a '{' precedes a '}', spans the first '{' to the last '}', and otherwise the wrapped error message is raised |
| LlmAdapter.ExtractJson | src/glasstape_policy_builder/llm_adapter.py:81-95 | `_extract_json`. LlmAdapter.ExtractJsonMeaning, ExtractJsonNoFence and ExtractFenced state its result |
| LlmAdapter.ExtractJsonMeaning | src/glasstape_policy_builder/llm_adapter.py:82-95 | Extraction succeeds exactly when the cleaned reply has a '{' before a '}', and then returns text that opens with '{' and closes with '}'; otherwise it raises the "no valid JSON" ValueError |
| LlmAdapter.ExtractJsonNoFence | src/glasstape_policy_builder/llm_adapter.py:84-91 | The extracted text holds no code fence |
| LlmAdapter.StripFenceLines | src/glasstape_policy_builder/llm_adapter.py:85 | The first substitution, which deletes each fence with the rest of its line. LlmAdapter.StripFenceLinesPlain, StripFenceHead and ClosingFence state its result |
| LlmAdapter.StripFenceLinesPlain | src/glasstape_policy_builder/llm_adapter.py:85 | A text without backticks passes fence-line deletion unchanged |
| LlmAdapter.RemoveFencesPlain | src/glasstape_policy_builder/llm_adapter.py:86 | A text without backticks passes fence deletion unchanged |
| LlmAdapter.StripFenceHead | src/glasstape_policy_builder/llm_adapter.py:85 | An opening fence line with a language tag is deleted whole |
| LlmAdapter.ClosingFence | src/glasstape_policy_builder/llm_adapter.py:85-86 | A closing fence with no newline after it survives the first substitution and is removed by the second |
| LlmAdapter.CleanFenced | src/glasstape_policy_builder/llm_adapter.py:85-86 | Cleaning a fenced block leaves its body and a newline |
| LlmAdapter.ExtractFenced | src/glasstape_policy_builder/llm_adapter.py:82-95 | A JSON object wrapped in a code fence is returned exactly |

## Left out

- YAML rendering (`yaml.dump`): the generator is modelled up to the document it dumps, as ordered JSON values. The analyzer's text checks take the YAML text as an input string.
- Running the Cerbos CLI (`subprocess`, the temporary files, time-outs): a compile run is an input, either output with a return code, a time-out, or an exception whose text is given. The `test` method's RuntimeError paths are not modelled; its output goes straight to `_parse_test_output`.
- The language-model call, environment lookups and the MCP server and tool layers (`nl_to_icp`, `get_llm_adapter`, the server, the tools and `PolicyPipeline`): these are network and I/O glue around the modelled core. `_extract_json`'s try/except becomes the single error it can produce.
- `format_taxonomy`, `get_topic_guidance` and `format_templates`: these produce Markdown and prompt text. They rely on `str.title` and on set order, and the core promises nothing about them.
- CerbosGenerator.GeneratePolicy / GenerateTests: the generator is modelled over the dictionary that `model_dump()` makes of a typed ICP, which is what the pipeline passes it: `_generate_from_icp` (tools/generate_policy.py:89) hands `icp.model_dump()` to `generate_policy_artifacts` (tools/shared_utils.py:26-29). On such input every field it indexes is present and has its type. The KeyError and TypeError that the source raises on a raw dictionary with a missing or ill-typed field, such as a policy without `version`, are not modelled.
- CerbosCli.CountOf / ParseTestOutput: the `int()` limit is that of CPython 3.10.7 and later at its default of 4300 digits. Python 3.10.0 to 3.10.6 have no limit, and a changed `sys.int_max_str_digits` moves it; neither is modelled. The wording of that ValueError differs between Python versions; the model keeps one form without the digit count that ends it. `test`, which wraps it into a RuntimeError, is not modelled.
- Character semantics are ASCII: `lower`, `strip`, `isalnum`, `\d` and `\s` treat only ASCII letters, digits and whitespace specially. Python's Unicode behaviour is not modelled.
- RedTeamAnalyzer.RoleFinding: Python's `list(set(roles))` gives an unspecified order. The model names the roles in first-seen order, and its contract promises only that each role appears exactly once.
- Templates.GetCategories: returns a set, because the source's list comes from a set and its order is unspecified.
- RedTeamAnalyzer.Repr: `repr` is modelled for the JSON values only. Strings are quoted without escaping and numbers are integers; floating point is not modelled.
- Pydantic's own validation of the typed records (type coercion and error messages) is not modelled. The typed records only carry the field types and defaults.
- Behaviours that only the topic test file asserts about other modules, such as topic-aware ICP validation, follow from the validator and generator models. They have no lemmas of their own.
