/** The red-team analyzer: six fixed static security checks over a policy's text
    and, when one is given, its ICP dictionary, and the Markdown report of their
    findings. The structural checks read the ICP first and fall back to substring
    tests on the text; the other checks are keyword searches. */
module RedTeamAnalyzer {
  import opened PyStrings
  import opened PyValues
  import IcpValidator

  /** A finding's status: a closed enumeration of three values. */
  datatype Status = Pass | Warn | Fail

  function StatusName(s: Status): string
  {
    match s
    case Pass => "pass"
    case Warn => "warn"
    case Fail => "fail"
  }

  /** What a finding says: a fixed sentence, or a fixed lead-in followed by the
      detected items joined with ", ". `Text` gives the exact wording. */
  datatype Message =
    | DenyImplemented
    | DenyRuleMissing
    | RateControlsDetected(items: seq<string>)
    | NoRateLimiting
    | ScreeningDetected(items: seq<string>)
    | NoScreening
    | ValidationDetected(items: seq<string>)
    | LimitedValidation
    | RolesImplemented(items: seq<string>)
    | NoRoleRestrictions
    | TopicsImplemented(items: seq<string>)
    | NoTopicGovernance

  function Text(m: Message): string
  {
    match m
    case DenyImplemented => "Policy implements default-deny principle"
    case DenyRuleMissing => "Missing default-deny rule. Add a final rule with effect: EFFECT_DENY and actions: [\"*\"]"
    case RateControlsDetected(items) => "Rate limiting controls detected: " + Join(", ", items)
    case NoRateLimiting => "No rate limiting detected. Consider adding transaction frequency or cumulative amount limits"
    case ScreeningDetected(items) => "Sanctions/blocklist screening detected: " + Join(", ", items)
    case NoScreening => "No sanctions screening detected. Consider adding entity screening against blocked lists"
    case ValidationDetected(items) => "Input validation checks detected: " + Join(", ", items)
    case LimitedValidation => "Limited input validation. Consider adding type and range checks for all inputs"
    case RolesImplemented(items) => "Role-based access control implemented: " + Join(", ", items)
    case NoRoleRestrictions => "No role restrictions found. Consider adding role-based access control"
    case TopicsImplemented(items) => "Topic-based governance implemented: " + Join(", ", items)
    case NoTopicGovernance => "No topic governance found. Consider adding topic-based access control for content filtering"
  }

  datatype Finding = Finding(check: string, status: Status, message: Message)

  const DefaultDenyCheck: string := "Default Deny"
  const RateLimitingCheck: string := "Rate Limiting"
  const SanctionsCheck: string := "Sanctions Screening"
  const InputValidationCheck: string := "Input Validation"
  const RoleAccessCheck: string := "Role-Based Access"
  const TopicGovernanceCheck: string := "Topic Governance"

  /** The checks, in the order `analyze` runs them. */
  const CheckOrder: seq<string> :=
    [DefaultDenyCheck, RateLimitingCheck, SanctionsCheck, InputValidationCheck, RoleAccessCheck, TopicGovernanceCheck]

  // ---------------------------------------------------------------------
  // Python's str() on data, as an f-string renders it
  // ---------------------------------------------------------------------

  function IntToString(n: int): string
  {
    if n < 0 then "-" + NatToString(-n) else NatToString(n)
  }

  /** `repr(v)`; strings are shown in single quotes without escaping. */
  function Repr(v: Value): string
    decreases v
  {
    match v
    case Null => "None"
    case Bool(b) => if b then "True" else "False"
    case Num(n) => IntToString(n)
    case Str(s) => "'" + s + "'"
    case Arr(items) =>
      "[" + Join(", ", seq(|items|, i requires 0 <= i < |items| => Repr(items[i]))) + "]"
    case Obj(fields) =>
      "{" + Join(", ", seq(|fields|, i requires 0 <= i < |fields| =>
                             assert fields[i] in fields;
                             "'" + fields[i].0 + "': " + Repr(fields[i].1))) + "}"
  }

  /** `str(v)`: a string is itself, anything else its repr. */
  function PyStr(v: Value): string
  {
    if v.Str? then v.s else Repr(v)
  }

  // ---------------------------------------------------------------------
  // Reading the ICP
  // ---------------------------------------------------------------------

  /** `icp or {}`: a missing (None) or otherwise falsy ICP becomes the empty dict. */
  function OrEmpty(icp: Value): (r: Value)
    ensures Truthy(r) <==> Truthy(icp)
    ensures Truthy(icp) ==> r == icp
  {
    if Truthy(icp) then icp else Obj([])
  }

  /** The guard `icp and 'policy' in icp and 'rules' in icp['policy']` followed by
      `icp['policy']['rules']`: Some(rules) when the guard holds, None when it does
      not, or the exception one of its steps raises. */
  function RulesSection(icp: Value): (r: Result<Option<Value>>)
    ensures r == Ok(None) <== !Truthy(icp)
    ensures r.Ok? && r.value.Some? ==>
      icp.Obj? && Index(icp, "policy").Ok? && Index(Index(icp, "policy").value, "rules") == Ok(r.value.value)
  {
    if !Truthy(icp) then Ok(None)
    else
      var hasPolicy :- In("policy", icp);
      if !hasPolicy then Ok(None)
      else
        var policy :- Index(icp, "policy");
        var hasRules :- In("rules", policy);
        if !hasRules then Ok(None)
        else
          var rules :- Index(policy, "rules");
          Ok(Some(rules))
  }

  /** The items `role_info.extend(v[key])` adds when `v.get(key)` is truthy, and
      none when it is not; a value that has no `.get` or cannot be iterated raises. */
  function TruthyItems(v: Value, key: string): (r: Result<seq<Value>>)
    ensures r.Ok? ==> v.Obj?
    ensures r.Ok? ==> (|r.value| > 0 <==> Truthy(Get(v, key, Null).value))
  {
    var x :- Get(v, key, Null);
    if !Truthy(x) then Ok([])
    else
      var listed :- Index(v, key);
      Iter(listed)
  }

  /** Every element is a string. */
  predicate AllStr(vs: seq<Value>) {
    forall i :: 0 <= i < |vs| ==> vs[i].Str?
  }

  function Strs(vs: seq<Value>): (r: seq<string>)
    requires AllStr(vs)
    ensures |r| == |vs|
    ensures forall i :: 0 <= i < |vs| ==> vs[i] == Str(r[i])
  {
    seq(|vs|, i requires 0 <= i < |vs| => vs[i].s)
  }

  // ---------------------------------------------------------------------
  // Check 1: default deny
  // ---------------------------------------------------------------------

  const DenyPassed: Finding := Finding(DefaultDenyCheck, Pass, DenyImplemented)
  const DenyMissing: Finding := Finding(DefaultDenyCheck, Fail, DenyRuleMissing)

  /** The structural test: the rule list is truthy and its last rule has effect
      EFFECT_DENY and "*" among its actions (the validator's own test). */
  function RulesEndWithDeny(rules: Value): (r: Result<bool>)
  {
    if !Truthy(rules) then Ok(false)
    else
      var last :- LastItem(rules);
      IcpValidator.EndsWithDeny(last)
  }

  /** The text fallback: both `EFFECT_DENY` and `"*"` occur. */
  predicate TextHasDefaultDeny(text: string) {
    Contains(text, "EFFECT_DENY") && Contains(text, "\"*\"")
  }

  /** `_check_default_deny`: pass on structural or textual evidence, else fail. */
  function DefaultDeny(icp: Value, text: string): (r: Result<Finding>)
  {
    var section :- RulesSection(icp);
    var structural :- if section.Some? then RulesEndWithDeny(section.value) else Ok(false);
    if structural || TextHasDefaultDeny(text) then Ok(DenyPassed) else Ok(DenyMissing)
  }

  // ---------------------------------------------------------------------
  // Checks 2-4: keywords
  // ---------------------------------------------------------------------

  const RateKeywords: seq<string> :=
    ["cumulative", "count", "rate", "frequency", "limit", "per_hour", "per_minute", "txn_count", "req_count"]
  const SanctionKeywords: seq<string> :=
    ["sanction", "blocked", "blocklist", "blacklist", "restricted", "prohibited", "denied_entities"]
  const ValidationPatterns: seq<string> :=
    ["> 0", ">= 0", "!= null", "typeof", "== null", "<= ", ">= ", "!= ", " in ", "contains", "matches"]

  /** `[kw for kw in keywords if kw in text]`: the keywords that occur, in list order. */
  function Detected(keywords: seq<string>, text: string): (r: seq<string>)
    ensures forall k :: k in r <==> k in keywords && Contains(text, k)
    ensures |r| <= |keywords|
  {
    if |keywords| == 0 then []
    else
      var rest := Detected(keywords[1..], text);
      assert forall k :: k in keywords <==> k == keywords[0] || k in keywords[1..];
      if Contains(text, keywords[0]) then [keywords[0]] + rest else rest
  }

  /** Pass naming the detected keywords, or warn when there are none. */
  function KeywordFinding(check: string, detected: seq<string>, found: Message, missing: Message): Finding
  {
    if |detected| > 0 then Finding(check, Pass, found) else Finding(check, Warn, missing)
  }

  /** `_check_rate_limiting`: keywords sought in the lower-cased text. */
  function RateLimiting(text: string): Finding
  {
    var detected := Detected(RateKeywords, Lower(text));
    KeywordFinding(RateLimitingCheck, detected, RateControlsDetected(detected), NoRateLimiting)
  }

  /** `_check_sanctions_screening`: keywords sought in the lower-cased text. */
  function Sanctions(text: string): Finding
  {
    var detected := Detected(SanctionKeywords, Lower(text));
    KeywordFinding(SanctionsCheck, detected, ScreeningDetected(detected), NoScreening)
  }

  /** `_check_input_validation`: patterns sought in the text as it is (case-sensitive). */
  function InputValidation(text: string): Finding
  {
    var detected := Detected(ValidationPatterns, text);
    KeywordFinding(InputValidationCheck, detected, ValidationDetected(detected), LimitedValidation)
  }

  // ---------------------------------------------------------------------
  // Check 5: role-based access
  // ---------------------------------------------------------------------

  const NoRoles: Finding := Finding(RoleAccessCheck, Warn, NoRoleRestrictions)
  const RolesFromText: Value := Str("roles detected in YAML")

  /** The roles of every rule with truthy roles, rule by rule; the first rule
      that has no `.get` or whose roles cannot be iterated raises. */
  function CollectRoles(rules: seq<Value>): (r: Result<seq<Value>>)
  {
    if |rules| == 0 then Ok([])
    else
      var earlier :- CollectRoles(rules[..|rules| - 1]);
      var more :- TruthyItems(rules[|rules| - 1], "roles");
      Ok(earlier + more)
  }

  /** The finding for the collected roles. `list(set(role_info))` names each role
      once in an order Python leaves unspecified (first-seen order here), and
      joining raises unless every role is a string. */
  function RoleFinding(hasRoles: bool, roleInfo: seq<Value>): (r: Result<Finding>)
  {
    if !hasRoles then Ok(NoRoles)
    else if !AllStr(roleInfo) then Err(TypeError)
    else Ok(Finding(RoleAccessCheck, Pass, RolesImplemented(Distinct(Strs(roleInfo)))))
  }

  /** Without roles the check warns. With roles it passes exactly when every role
      is a string, and its message names each role exactly once. */
  lemma RoleFindingNames(hasRoles: bool, roleInfo: seq<Value>)
    ensures !hasRoles ==> RoleFinding(hasRoles, roleInfo) == Ok(NoRoles)
    ensures hasRoles ==> (RoleFinding(hasRoles, roleInfo).Ok? <==> AllStr(roleInfo))
    ensures hasRoles && AllStr(roleInfo) ==>
      exists names :: RoleFinding(hasRoles, roleInfo) == Ok(Finding(RoleAccessCheck, Pass, RolesImplemented(names)))
        && (forall x :: x in names <==> Str(x) in roleInfo)
        && (forall i, j :: 0 <= i < j < |names| ==> names[i] != names[j])
  {
    if hasRoles && AllStr(roleInfo) {
      var names := Distinct(Strs(roleInfo));
      forall x ensures x in names <==> Str(x) in roleInfo {
        if Str(x) in roleInfo {
          var i :| 0 <= i < |roleInfo| && roleInfo[i] == Str(x);
          assert Strs(roleInfo)[i] == x;
        }
      }
    }
  }

  /** The roles the ICP's rules supply, rule by rule; none without a rule list. */
  function IcpRoles(icp: Value): (r: Result<seq<Value>>)
  {
    var section :- RulesSection(icp);
    var rules :- if section.Some? then Iter(section.value) else Ok([]);
    CollectRoles(rules)
  }

  /** `_check_role_based_access`: the ICP's rule roles if any rule has some, else
      the text fallback `roles:`, else warn. */
  function RoleBasedAccess(icp: Value, text: string): (r: Result<Finding>)
  {
    var roleInfo :- IcpRoles(icp);
    if |roleInfo| > 0 then RoleFinding(true, roleInfo)
    else if Contains(text, "roles:") then RoleFinding(true, [RolesFromText])
    else RoleFinding(false, [])
  }

  /** Once a rule raises, the whole collection raises with its exception. */
  lemma {:induction false} CollectRolesStops(rules: seq<Value>, i: nat)
    requires i < |rules| && CollectRoles(rules[..i]).Ok? && TruthyItems(rules[i], "roles").Err?
    ensures CollectRoles(rules) == Err(TruthyItems(rules[i], "roles").error)
    decreases |rules|
  {
    if i + 1 < |rules| {
      var prefix := rules[..|rules| - 1];
      assert prefix[..i] == rules[..i] && prefix[i] == rules[i];
      CollectRolesStops(prefix, i);
    } else {
      assert rules[..|rules| - 1] == rules[..i];
    }
  }

  /** The loop of `_check_role_based_access`, setting `has_roles` and extending
      `role_info` rule by rule. */
  method CheckRoleBasedAccess(icp: Value, text: string) returns (r: Result<Finding>)
    ensures r == RoleBasedAccess(icp, text)
  {
    var hasRoles := false;
    var roleInfo: seq<Value> := [];
    var section :- RulesSection(icp);
    if section.Some? {
      var rules :- Iter(section.value);
      var i := 0;
      while i < |rules|
        invariant 0 <= i <= |rules|
        invariant CollectRoles(rules[..i]) == Ok(roleInfo)
        invariant hasRoles <==> |roleInfo| > 0
      {
        assert rules[..i + 1][..i] == rules[..i];
        if TruthyItems(rules[i], "roles").Err? {
          CollectRolesStops(rules, i);
        }
        var roles :- Get(rules[i], "roles", Null);
        if Truthy(roles) {
          hasRoles := true;
          var listed :- Index(rules[i], "roles");
          var items :- Iter(listed);
          assert TruthyItems(rules[i], "roles") == Ok(items);
          roleInfo := roleInfo + items;
        } else {
          assert TruthyItems(rules[i], "roles") == Ok([]);
          assert roleInfo + [] == roleInfo;
        }
        i := i + 1;
      }
      assert rules[..i] == rules;
    }
    if !hasRoles && Contains(text, "roles:") {
      hasRoles := true;
      roleInfo := [RolesFromText];
    }
    r := RoleFinding(hasRoles, roleInfo);
  }

  // ---------------------------------------------------------------------
  // Check 6: topic governance
  // ---------------------------------------------------------------------

  const NoTopics: Finding := Finding(TopicGovernanceCheck, Warn, NoTopicGovernance)
  const TopicsFromText: Value := Str("topics detected in YAML")

  /** `[f"blocked:{t}" for t in blocked]` */
  function BlockedLabels(blocked: seq<Value>): (r: seq<Value>)
    ensures |r| == |blocked|
    ensures forall i :: 0 <= i < |blocked| ==> r[i] == Str("blocked:" + PyStr(blocked[i]))
  {
    seq(|blocked|, i requires 0 <= i < |blocked| => Str("blocked:" + PyStr(blocked[i])))
  }

  /** The topic entries the ICP's metadata supplies: its topics, then its blocked
      topics labelled "blocked:". */
  function IcpTopics(icp: Value): (r: Result<seq<Value>>)
  {
    if !Truthy(icp) then Ok([])
    else
      var hasMetadata :- In("metadata", icp);
      if !hasMetadata then Ok([])
      else
        var metadata :- Index(icp, "metadata");
        var topics :- TruthyItems(metadata, "topics");
        var blocked :- TruthyItems(metadata, "blocked_topics");
        Ok(topics + BlockedLabels(blocked))
  }

  function Min(a: nat, b: nat): nat
  {
    if a < b then a else b
  }

  /** The finding for the collected topics: at most the first five entries are
      joined, and joining raises unless those five are strings. */
  function TopicFinding(hasTopics: bool, topicInfo: seq<Value>): (r: Result<Finding>)
  {
    if !hasTopics then Ok(NoTopics)
    else
      var shown := topicInfo[..Min(5, |topicInfo|)];
      if !AllStr(shown) then Err(TypeError)
      else Ok(Finding(TopicGovernanceCheck, Pass, TopicsImplemented(Strs(shown))))
  }

  /** Without topics the check warns. With topics it passes exactly when the first
      five entries are strings, and its message lists those entries only. */
  lemma TopicFindingShown(hasTopics: bool, topicInfo: seq<Value>)
    ensures !hasTopics ==> TopicFinding(hasTopics, topicInfo) == Ok(NoTopics)
    ensures hasTopics ==> (TopicFinding(hasTopics, topicInfo).Ok? <==> AllStr(topicInfo[..Min(5, |topicInfo|)]))
    ensures hasTopics && TopicFinding(hasTopics, topicInfo).Ok? ==>
      exists shown :: TopicFinding(hasTopics, topicInfo) == Ok(Finding(TopicGovernanceCheck, Pass, TopicsImplemented(shown)))
        && |shown| == Min(5, |topicInfo|) && |shown| <= 5
        && forall i :: 0 <= i < |shown| ==> topicInfo[i] == Str(shown[i])
  {
  }

  /** `_check_topic_governance`: the ICP's topics if there are any, else the text
      fallback `topics`, else warn. */
  function TopicGovernance(icp: Value, text: string): (r: Result<Finding>)
  {
    var topicInfo :- IcpTopics(icp);
    if |topicInfo| > 0 then TopicFinding(true, topicInfo)
    else if Contains(text, "topics") then TopicFinding(true, [TopicsFromText])
    else TopicFinding(false, [])
  }

  /** `_check_topic_governance` step by step, setting `has_topics` and extending
      `topic_info`. */
  method CheckTopicGovernance(icp: Value, text: string) returns (r: Result<Finding>)
    ensures r == TopicGovernance(icp, text)
  {
    var hasTopics := false;
    var topicInfo: seq<Value> := [];
    var hasMetadata := false;
    if Truthy(icp) {
      hasMetadata :- In("metadata", icp);
    }
    if hasMetadata {
      var metadata :- Index(icp, "metadata");
      var topics :- Get(metadata, "topics", Null);
      ghost var fromTopics: seq<Value> := [];
      if Truthy(topics) {
        hasTopics := true;
        var listed :- Index(metadata, "topics");
        var items :- Iter(listed);
        fromTopics := items;
        topicInfo := topicInfo + items;
      }
      assert TruthyItems(metadata, "topics") == Ok(fromTopics);
      var blocked :- Get(metadata, "blocked_topics", Null);
      ghost var fromBlocked: seq<Value> := [];
      if Truthy(blocked) {
        hasTopics := true;
        var listed :- Index(metadata, "blocked_topics");
        var items :- Iter(listed);
        fromBlocked := items;
        topicInfo := topicInfo + BlockedLabels(items);
      }
      assert TruthyItems(metadata, "blocked_topics") == Ok(fromBlocked);
      assert topicInfo == fromTopics + BlockedLabels(fromBlocked);
    }
    assert IcpTopics(icp) == Ok(topicInfo);
    assert hasTopics <==> |topicInfo| > 0;
    if !hasTopics && Contains(text, "topics") {
      hasTopics := true;
      topicInfo := [TopicsFromText];
    }
    r := TopicFinding(hasTopics, topicInfo);
  }

  // ---------------------------------------------------------------------
  // analyze
  // ---------------------------------------------------------------------

  /** The six findings in the fixed order, or the exception a structural check
      raises on a malformed ICP. */
  function Analysis(text: string, icp: Value): (r: Result<seq<Finding>>)
  {
    var context := OrEmpty(icp);
    var deny :- DefaultDeny(context, text);
    var roles :- RoleBasedAccess(context, text);
    var topics :- TopicGovernance(context, text);
    Ok([deny, RateLimiting(text), Sanctions(text), InputValidation(text), roles, topics])
  }

  /** `SimpleRedTeamAnalyzer.analyze`, appending one finding per check. */
  method Analyze(text: string, icp: Value) returns (r: Result<seq<Finding>>)
    ensures r == Analysis(text, icp)
  {
    var context := OrEmpty(icp);
    var findings: seq<Finding> := [];
    var deny :- DefaultDeny(context, text);
    findings := findings + [deny];
    var rate, sanctions, validation := RateLimiting(text), Sanctions(text), InputValidation(text);
    findings := findings + [rate];
    findings := findings + [sanctions];
    findings := findings + [validation];
    var roles :- CheckRoleBasedAccess(context, text);
    findings := findings + [roles];
    var topics :- CheckTopicGovernance(context, text);
    findings := findings + [topics];
    assert findings == [deny, rate, sanctions, validation, roles, topics];
    r := Ok(findings);
  }

  // ---------------------------------------------------------------------
  // format_findings
  // ---------------------------------------------------------------------

  function Emoji(s: Status): string
  {
    match s
    case Pass => "\U{2705}"
    case Warn => "\U{26A0}\U{FE0F}"
    case Fail => "\U{274C}"
  }

  /** How many findings have status `s`. */
  function CountStatus(fs: seq<Finding>, s: Status): (n: nat)
    ensures n <= |fs|
    ensures n > 0 <==> exists i :: 0 <= i < |fs| && fs[i].status == s
  {
    if |fs| == 0 then 0
    else
      var n := CountStatus(fs[..|fs| - 1], s);
      assert forall i :: 0 <= i < |fs| - 1 ==> fs[..|fs| - 1][i] == fs[i];
      n + if fs[|fs| - 1].status == s then 1 else 0
  }

  const ReportHeader: string := "## Security Analysis Results\n\n"
  const ActionRequired: string := "\U{1F6A8} **Action Required**: Address failed checks before deployment\n"
  const Recommendations: string := "\U{1F4A1} **Recommendations**: Consider addressing warnings to improve security\n"
  const ReadyForDeployment: string := "\U{1F3AF} **Ready for Deployment**: All security checks passed\n"

  /** A finding's heading line. */
  function SectionHead(f: Finding): string
  {
    "### " + Emoji(f.status) + " " + f.check + "\n"
  }

  /** A finding's message line followed by a blank line. */
  function SectionBody(f: Finding): string
  {
    Text(f.message) + "\n\n"
  }

  /** A finding's section: its heading, then its message. */
  function Section(f: Finding): string
  {
    SectionHead(f) + SectionBody(f)
  }

  /** The findings' sections, in order. */
  function Sections(fs: seq<Finding>): string
  {
    ConcatMap(fs, Section)
  }

  /** The score line; the denominator is always 6. */
  function ScoreLine(passed: nat): string
  {
    "**Score**: " + NatToString(passed) + "/6 checks passed\n\n"
  }

  function Closing(fs: seq<Finding>): string
  {
    if CountStatus(fs, Fail) > 0 then ActionRequired
    else if CountStatus(fs, Warn) > 0 then Recommendations
    else ReadyForDeployment
  }

  function Report(fs: seq<Finding>): string
  {
    ReportHeader + ScoreLine(CountStatus(fs, Pass)) + Sections(fs) + Closing(fs)
  }

  /** One more finding adds its section. */
  lemma SectionsStep(fs: seq<Finding>, i: nat)
    requires i < |fs|
    ensures Sections(fs[..i + 1]) == Sections(fs[..i]) + (SectionHead(fs[i]) + SectionBody(fs[i]))
  {
    assert fs[..i + 1][..i] == fs[..i];
  }

  lemma RegroupSection(start: string, sections: string, head: string, body: string)
    ensures start + sections + head + body == start + (sections + (head + body))
  {
  }

  /** The loop of `format_findings`: each finding's heading, then its message. */
  method AppendSections(start: string, findings: seq<Finding>) returns (output: string)
    ensures output == start + Sections(findings)
  {
    output := start;
    var i := 0;
    while i < |findings|
      invariant 0 <= i <= |findings|
      invariant output == start + Sections(findings[..i])
    {
      var finding := findings[i];
      output := output + SectionHead(finding);
      output := output + SectionBody(finding);
      SectionsStep(findings, i);
      RegroupSection(start, Sections(findings[..i]), SectionHead(finding), SectionBody(finding));
      i := i + 1;
    }
    assert findings[..i] == findings;
  }

  /** `format_findings`, accumulating the report with `+=`. */
  method FormatFindings(findings: seq<Finding>) returns (output: string)
    ensures output == Report(findings)
  {
    output := ReportHeader;
    var passed := CountStatus(findings, Pass);
    var warned := CountStatus(findings, Warn);
    var failed := CountStatus(findings, Fail);
    output := output + ScoreLine(passed);
    output := AppendSections(output, findings);
    if failed > 0 {
      output := output + ActionRequired;
    } else if warned > 0 {
      output := output + Recommendations;
    } else {
      output := output + ReadyForDeployment;
    }
  }

}

/** What the analyzer promises: the shape of its result, the precedence of the
    ICP over the text, its behaviour on a typed ICP, and the report's layout. */
module RedTeamAnalyzerFacts {
  import opened PyStrings
  import opened PyValues
  import opened IcpTypes
  import IcpValidator
  import opened RedTeamAnalyzer

  // ---------------------------------------------------------------------
  // analyze
  // ---------------------------------------------------------------------

  /** Role-Based Access never fails: it passes or warns. */
  lemma RoleCheckNeverFails(icp: Value, text: string)
    ensures RoleBasedAccess(icp, text).Ok? ==>
      RoleBasedAccess(icp, text).value.check == RoleAccessCheck && RoleBasedAccess(icp, text).value.status != Fail
  {
    if IcpRoles(icp).Ok? {
      var roleInfo := IcpRoles(icp).value;
      if |roleInfo| > 0 {
        RoleFindingNames(true, roleInfo);
      } else {
        RoleFindingNames(Contains(text, "roles:"), [RolesFromText]);
      }
    }
  }

  /** Topic Governance never fails: it passes or warns. */
  lemma TopicCheckNeverFails(icp: Value, text: string)
    ensures TopicGovernance(icp, text).Ok? ==>
      TopicGovernance(icp, text).value.check == TopicGovernanceCheck && TopicGovernance(icp, text).value.status != Fail
  {
    if IcpTopics(icp).Ok? {
      var topicInfo := IcpTopics(icp).value;
      if |topicInfo| > 0 {
        TopicFindingShown(true, topicInfo);
      } else {
        TopicFindingShown(Contains(text, "topics"), [TopicsFromText]);
      }
    }
  }

  /** Default Deny reports under its own name. */
  lemma DenyCheckNamed(icp: Value, text: string)
    ensures DefaultDeny(icp, text).Ok? ==> DefaultDeny(icp, text).value.check == DefaultDenyCheck
  {
  }

  /** A keyword check passes or warns, under the name it is given. */
  lemma KeywordFindingNeverFails(check: string, detected: seq<string>, found: Message, missing: Message)
    ensures KeywordFinding(check, detected, found, missing).check == check
    ensures KeywordFinding(check, detected, found, missing).status != Fail
  {
  }

  /** Six findings in the fixed check order, and only Default Deny can fail. */
  predicate InCheckOrder(fs: seq<Finding>) {
    && |fs| == |CheckOrder| == 6
    && (forall i :: 0 <= i < 6 ==> fs[i].check == CheckOrder[i])
    && (forall i :: 1 <= i < 6 ==> fs[i].status != Fail)
  }

  lemma SixFindings(deny: Finding, rate: Finding, sanctions: Finding, validation: Finding, roles: Finding, topics: Finding)
    requires deny.check == DefaultDenyCheck
    requires rate.check == RateLimitingCheck && rate.status != Fail
    requires sanctions.check == SanctionsCheck && sanctions.status != Fail
    requires validation.check == InputValidationCheck && validation.status != Fail
    requires roles.check == RoleAccessCheck && roles.status != Fail
    requires topics.check == TopicGovernanceCheck && topics.status != Fail
    ensures InCheckOrder([deny, rate, sanctions, validation, roles, topics])
  {
  }

  lemma AnalysisShape(text: string, icp: Value)
    ensures Analysis(text, icp).Ok? ==> InCheckOrder(Analysis(text, icp).value)
  {
    if Analysis(text, icp).Ok? {
      var context := OrEmpty(icp);
      DenyCheckNamed(context, text);
      RoleCheckNeverFails(context, text);
      TopicCheckNeverFails(context, text);
      var rate := Detected(RateKeywords, Lower(text));
      var sanctions := Detected(SanctionKeywords, Lower(text));
      var validation := Detected(ValidationPatterns, text);
      KeywordFindingNeverFails(RateLimitingCheck, rate, RateControlsDetected(rate), NoRateLimiting);
      KeywordFindingNeverFails(SanctionsCheck, sanctions, ScreeningDetected(sanctions), NoScreening);
      KeywordFindingNeverFails(InputValidationCheck, validation, ValidationDetected(validation), LimitedValidation);
      SixFindings(DefaultDeny(context, text).value, RateLimiting(text), Sanctions(text), InputValidation(text),
                  RoleBasedAccess(context, text).value, TopicGovernance(context, text).value);
    }
  }

  /** With an ICP that is falsy or is not a dict with a policy, the rules section is absent. */
  lemma EmptyIcpHasNoRules(text: string)
    ensures DefaultDeny(Obj([]), text) == Ok(if TextHasDefaultDeny(text) then DenyPassed else DenyMissing)
    ensures IcpRoles(Obj([])) == Ok([]) && IcpTopics(Obj([])) == Ok([])
  {
  }

  /** A missing ICP (None), like any other falsy one, is read as the empty dict;
      the structural checks then see nothing and only the text decides. */
  lemma NoIcpUsesText(text: string, icp: Value)
    requires !Truthy(icp)
    ensures Analysis(text, icp) == Analysis(text, Obj([]))
    ensures Analysis(text, icp) == Ok([
      if TextHasDefaultDeny(text) then DenyPassed else DenyMissing,
      RateLimiting(text), Sanctions(text), InputValidation(text),
      if Contains(text, "roles:") then Finding(RoleAccessCheck, Pass, RolesImplemented(["roles detected in YAML"]))
      else NoRoles,
      if Contains(text, "topics") then Finding(TopicGovernanceCheck, Pass, TopicsImplemented(["topics detected in YAML"]))
      else NoTopics])
  {
    EmptyIcpHasNoRules(text);
    assert Distinct(Strs([RolesFromText])) == ["roles detected in YAML"];
    assert RoleBasedAccess(Obj([]), text) == Ok(
      if Contains(text, "roles:") then Finding(RoleAccessCheck, Pass, RolesImplemented(["roles detected in YAML"]))
      else NoRoles);
    assert Strs([TopicsFromText][..1]) == ["topics detected in YAML"];
    assert TopicGovernance(Obj([]), text) == Ok(
      if Contains(text, "topics") then Finding(TopicGovernanceCheck, Pass, TopicsImplemented(["topics detected in YAML"]))
      else NoTopics);
  }

  // ---------------------------------------------------------------------
  // Default Deny
  // ---------------------------------------------------------------------

  /** The structural check finds the rule list of any dictionary that has a
      policy with rules. */
  lemma RulesSectionFound(icp: Value)
    requires icp.Obj? && HasKey(icp, "policy")
    requires Field(icp, "policy").value.Obj? && HasKey(Field(icp, "policy").value, "rules")
    ensures RulesSection(icp) == Ok(Some(Field(Field(icp, "policy").value, "rules").value))
  {
    assert |icp.fields| > 0;
  }

  /** A non-empty list whose last rule is the default deny passes the structural check. */
  lemma RulesEndWithDenyFound(rules: Value)
    requires rules.Arr? && |rules.items| > 0
    requires IcpValidator.RuleOk(rules.items[|rules.items| - 1])
    requires IcpValidator.IsTerminalDeny(rules.items[|rules.items| - 1])
    ensures RulesEndWithDeny(rules) == Ok(true)
  {
  }

  /** An ICP the validator accepts passes Default Deny on its rules, whatever the text. */
  lemma AcceptedPassesDefaultDeny(icp: Value, text: string)
    requires IcpValidator.Accepts(icp)
    ensures DefaultDeny(icp, text) == Ok(DenyPassed)
  {
    IcpValidator.AcceptedPolicy(icp);
    var policy := Field(icp, "policy").value;
    IcpValidator.PolicyLastRule(policy);
    RulesSectionFound(icp);
    RulesEndWithDenyFound(Field(policy, "rules").value);
  }

  /** The rule list of a dumped ICP is found by the structural checks. */
  lemma DumpedRulesSection(icp: Icp)
    ensures RulesSection(DumpIcp(icp)) == Ok(Some(Arr(DumpRules(icp.policy.rules))))
  {
    LookupAt(DumpIcp(icp).fields, "policy", 2);
    LookupAt(DumpPolicy(icp.policy).fields, "rules", 2);
  }

  /** The typed default-deny rule: the last rule denies, with "*" among its actions. */
  predicate EndsWithDenyRule(rules: seq<Rule>) {
    |rules| > 0 && rules[|rules| - 1].effect == Deny && "*" in rules[|rules| - 1].actions
  }

  /** On a dumped ICP, Default Deny passes exactly when the last rule denies "*",
      or otherwise when the text has both EFFECT_DENY and "*"; it fails otherwise. */
  lemma DumpedDefaultDeny(icp: Icp, text: string)
    ensures DefaultDeny(DumpIcp(icp), text) ==
      Ok(if EndsWithDenyRule(icp.policy.rules) || TextHasDefaultDeny(text) then DenyPassed else DenyMissing)
  {
    DumpedRulesSection(icp);
    var rules := icp.policy.rules;
    if |rules| > 0 {
      var last := rules[|rules| - 1];
      assert LastItem(Arr(DumpRules(rules))) == Ok(DumpRule(last));
      var f := DumpRule(last).fields;
      LookupAt(f, "effect", 1);
      LookupAt(f, "actions", 0);
      StrListContains(last.actions, "*");
      assert RulesEndWithDeny(Arr(DumpRules(rules))) == Ok(EndsWithDenyRule(rules));
    }
  }

  // ---------------------------------------------------------------------
  // Keyword checks
  // ---------------------------------------------------------------------

  /** Detection keeps list order: the keywords of a longer list are those of its
      parts, in sequence. */
  lemma {:induction false} DetectedAppend(a: seq<string>, b: seq<string>, text: string)
    ensures Detected(a + b, text) == Detected(a, text) + Detected(b, text)
  {
    if |a| == 0 {
      assert a + b == b;
    } else {
      assert (a + b)[1..] == a[1..] + b;
      DetectedAppend(a[1..], b, text);
    }
  }

  /** Each keyword check passes exactly when one of its keywords occurs, and then
      names exactly the keywords that occur; otherwise it warns. */
  lemma KeywordChecks(text: string)
    ensures RateLimiting(text).status == Pass <==> exists k :: k in RateKeywords && Contains(Lower(text), k)
    ensures RateLimiting(text).status == Pass ==> (RateLimiting(text).message.RateControlsDetected?
      && forall k :: k in RateLimiting(text).message.items <==> k in RateKeywords && Contains(Lower(text), k))
    ensures RateLimiting(text).status != Pass ==> RateLimiting(text) == Finding(RateLimitingCheck, Warn, NoRateLimiting)
    ensures Sanctions(text).status == Pass <==> exists k :: k in SanctionKeywords && Contains(Lower(text), k)
    ensures Sanctions(text).status == Pass ==> (Sanctions(text).message.ScreeningDetected?
      && forall k :: k in Sanctions(text).message.items <==> k in SanctionKeywords && Contains(Lower(text), k))
    ensures Sanctions(text).status != Pass ==> Sanctions(text) == Finding(SanctionsCheck, Warn, NoScreening)
    ensures InputValidation(text).status == Pass <==> exists k :: k in ValidationPatterns && Contains(text, k)
    ensures InputValidation(text).status == Pass ==> (InputValidation(text).message.ValidationDetected?
      && forall k :: k in InputValidation(text).message.items <==> k in ValidationPatterns && Contains(text, k))
    ensures InputValidation(text).status != Pass ==>
      InputValidation(text) == Finding(InputValidationCheck, Warn, LimitedValidation)
  {
    var rate := Detected(RateKeywords, Lower(text));
    assert |rate| > 0 ==> rate[0] in rate;
    var sanctions := Detected(SanctionKeywords, Lower(text));
    assert |sanctions| > 0 ==> sanctions[0] in sanctions;
    var patterns := Detected(ValidationPatterns, text);
    assert |patterns| > 0 ==> patterns[0] in patterns;
  }

  lemma LowerIdempotent(s: string)
    ensures Lower(Lower(s)) == Lower(s)
  {
  }

  /** Rate limiting and sanctions screening ignore letter case. */
  lemma KeywordChecksIgnoreCase(text: string)
    ensures RateLimiting(Lower(text)) == RateLimiting(text)
    ensures Sanctions(Lower(text)) == Sanctions(text)
  {
    LowerIdempotent(text);
  }

  // ---------------------------------------------------------------------
  // Role-Based Access
  // ---------------------------------------------------------------------

  /** Roles from the ICP take precedence: the text is consulted only when no rule
      has roles, and then the check passes exactly when the text has `roles:`. */
  lemma RolesTextFallback(icp: Value, text: string, other: string)
    ensures IcpRoles(icp).Ok? && |IcpRoles(icp).value| > 0 ==>
      RoleBasedAccess(icp, text) == RoleBasedAccess(icp, other)
    ensures IcpRoles(icp) == Ok([]) ==>
      RoleBasedAccess(icp, text).Ok? && (RoleBasedAccess(icp, text).value.status == Pass <==> Contains(text, "roles:"))
  {
    RoleFindingNames(Contains(text, "roles:"), [RolesFromText]);
  }

  /** The roles a typed rule list carries, rule by rule. */
  function TypedRoles(rules: seq<Rule>): seq<string>
  {
    if |rules| == 0 then []
    else
      var last := rules[|rules| - 1];
      TypedRoles(rules[..|rules| - 1]) + (if last.roles.Some? then last.roles.value else [])
  }

  lemma {:induction false} StrListAppend(a: seq<string>, b: seq<string>)
    ensures StrList(a + b).items == StrList(a).items + StrList(b).items
  {
    assert forall i :: 0 <= i < |a| ==> (a + b)[i] == a[i];
    assert forall i :: |a| <= i < |a| + |b| ==> (a + b)[i] == b[i - |a|];
  }

  /** A dumped rule adds its own roles, or nothing when it has none. */
  lemma DumpedRuleRoles(rule: Rule)
    ensures TruthyItems(DumpRule(rule), "roles") == Ok(StrList(if rule.roles.Some? then rule.roles.value else []).items)
  {
    LookupAt(DumpRule(rule).fields, "roles", 3);
  }

  lemma {:induction false} DumpedCollectRoles(rules: seq<Rule>)
    ensures CollectRoles(DumpRules(rules)) == Ok(StrList(TypedRoles(rules)).items)
  {
    if |rules| > 0 {
      var last := rules[|rules| - 1];
      var dumped := DumpRules(rules);
      assert dumped[..|dumped| - 1] == DumpRules(rules[..|rules| - 1]);
      DumpedCollectRoles(rules[..|rules| - 1]);
      DumpedRuleRoles(last);
      StrListAppend(TypedRoles(rules[..|rules| - 1]), if last.roles.Some? then last.roles.value else []);
    }
  }

  lemma StrsOfStrList(ss: seq<string>)
    ensures AllStr(StrList(ss).items) && Strs(StrList(ss).items) == ss
  {
  }

  /** On a dumped ICP the check never raises: it passes naming each of the rules'
      roles once when there are any, else it falls back to the text. */
  lemma DumpedRoleAccess(icp: Icp, text: string)
    ensures var roles := TypedRoles(icp.policy.rules);
      RoleBasedAccess(DumpIcp(icp), text) == Ok(
        if |roles| > 0 then Finding(RoleAccessCheck, Pass, RolesImplemented(Distinct(roles)))
        else if Contains(text, "roles:") then Finding(RoleAccessCheck, Pass, RolesImplemented(["roles detected in YAML"]))
        else NoRoles)
  {
    DumpedRulesSection(icp);
    DumpedCollectRoles(icp.policy.rules);
    StrsOfStrList(TypedRoles(icp.policy.rules));
    assert Distinct(Strs([RolesFromText])) == ["roles detected in YAML"];
  }

  // ---------------------------------------------------------------------
  // Topic Governance
  // ---------------------------------------------------------------------

  /** Topics from the ICP take precedence over the text in the same way. */
  lemma TopicsTextFallback(icp: Value, text: string, other: string)
    ensures IcpTopics(icp).Ok? && |IcpTopics(icp).value| > 0 ==>
      TopicGovernance(icp, text) == TopicGovernance(icp, other)
    ensures IcpTopics(icp) == Ok([]) ==>
      TopicGovernance(icp, text).Ok? && (TopicGovernance(icp, text).value.status == Pass <==> Contains(text, "topics"))
  {
    TopicFindingShown(Contains(text, "topics"), [TopicsFromText]);
  }

  /** The topic entries of typed metadata: its topics, then "blocked:" + each blocked topic. */
  function TopicEntries(m: Metadata): (r: seq<string>)
    ensures |r| == |m.topics| + |m.blockedTopics|
  {
    m.topics + Labels(m.blockedTopics)
  }

  function Labels(blocked: seq<string>): (r: seq<string>)
    ensures |r| == |blocked|
  {
    seq(|blocked|, i requires 0 <= i < |blocked| => "blocked:" + blocked[i])
  }

  lemma DumpedMetadataTopics(m: Metadata)
    ensures TruthyItems(DumpMetadata(m), "topics") == Ok(StrList(m.topics).items)
  {
    var f := DumpMetadata(m).fields;
    assert forall j :: 0 <= j < 3 ==> f[j].0 != "topics";
    LookupAt(f, "topics", 3);
  }

  lemma DumpedMetadataBlocked(m: Metadata)
    ensures TruthyItems(DumpMetadata(m), "blocked_topics") == Ok(StrList(m.blockedTopics).items)
  {
    var f := DumpMetadata(m).fields;
    assert forall j :: 0 <= j < 4 ==> f[j].0 != "blocked_topics";
    LookupAt(f, "blocked_topics", 4);
  }

  lemma LabelsOfStrList(blocked: seq<string>)
    ensures BlockedLabels(StrList(blocked).items) == StrList(Labels(blocked)).items
  {
  }

  lemma DumpedIcpTopics(icp: Icp)
    ensures IcpTopics(DumpIcp(icp)) == Ok(StrList(TopicEntries(icp.metadata)).items)
  {
    var m := icp.metadata;
    LookupAt(DumpIcp(icp).fields, "metadata", 1);
    DumpedMetadataTopics(m);
    DumpedMetadataBlocked(m);
    LabelsOfStrList(m.blockedTopics);
    StrListAppend(m.topics, Labels(m.blockedTopics));
  }

  /** On a dumped ICP the check never raises: it passes listing the first five
      topic entries when there are any, else it falls back to the text. */
  lemma DumpedTopicGovernance(icp: Icp, text: string)
    ensures var entries := TopicEntries(icp.metadata);
      TopicGovernance(DumpIcp(icp), text) == Ok(
        if |entries| > 0 then Finding(TopicGovernanceCheck, Pass, TopicsImplemented(entries[..Min(5, |entries|)]))
        else if Contains(text, "topics") then Finding(TopicGovernanceCheck, Pass, TopicsImplemented(["topics detected in YAML"]))
        else NoTopics)
  {
    var entries := TopicEntries(icp.metadata);
    DumpedIcpTopics(icp);
    var items := StrList(entries).items;
    var shown := items[..Min(5, |items|)];
    assert shown == StrList(entries[..Min(5, |entries|)]).items;
    StrsOfStrList(entries[..Min(5, |entries|)]);
    assert Strs([TopicsFromText][..1]) == ["topics detected in YAML"];
  }

  /** A typed ICP, dumped, never makes the analyzer raise. */
  lemma DumpedAnalysis(icp: Icp, text: string)
    ensures Analysis(text, DumpIcp(icp)).Ok?
  {
    assert OrEmpty(DumpIcp(icp)) == DumpIcp(icp);
    DumpedDefaultDeny(icp, text);
    DumpedRoleAccess(icp, text);
    DumpedTopicGovernance(icp, text);
  }

  // ---------------------------------------------------------------------
  // format_findings
  // ---------------------------------------------------------------------

  /** Every finding has exactly one of the three statuses. */
  lemma {:induction false} CountsPartition(fs: seq<Finding>)
    ensures CountStatus(fs, Pass) + CountStatus(fs, Warn) + CountStatus(fs, Fail) == |fs|
  {
    if |fs| > 0 {
      CountsPartition(fs[..|fs| - 1]);
    }
  }

  /** The closing line: any fail asks for action, else any warning recommends,
      else (all checks passed) the policy is ready. */
  lemma ClosingLine(fs: seq<Finding>)
    ensures (exists i :: 0 <= i < |fs| && fs[i].status == Fail) ==> Closing(fs) == ActionRequired
    ensures (forall i :: 0 <= i < |fs| ==> fs[i].status != Fail) && (exists i :: 0 <= i < |fs| && fs[i].status == Warn) ==>
      Closing(fs) == Recommendations
    ensures (forall i :: 0 <= i < |fs| ==> fs[i].status == Pass) ==> Closing(fs) == ReadyForDeployment
  {
  }

  lemma HeaderNamesAnalysis()
    ensures Contains(ReportHeader, "Security Analysis")
  {
    assert ReportHeader == "## " + "Security Analysis" + " Results\n\n";
    ContainsMiddle("## ", "Security Analysis", " Results\n\n");
  }

  lemma ScoreLineNamesPassed(passed: nat)
    ensures Contains(ScoreLine(passed), "checks passed")
  {
    var lead := "**Score**: " + NatToString(passed) + "/6 ";
    assert ScoreLine(passed) == lead + "checks passed" + "\n\n";
    ContainsMiddle(lead, "checks passed", "\n\n");
  }

  /** The report opens with its title and the score line. */
  lemma ReportOpening(fs: seq<Finding>)
    ensures StartsWith(Report(fs), ReportHeader + ScoreLine(CountStatus(fs, Pass)))
    ensures Contains(Report(fs), "Security Analysis") && Contains(Report(fs), "checks passed")
  {
    var score := ScoreLine(CountStatus(fs, Pass));
    var head := ReportHeader + score;
    AppendAssoc(head, Sections(fs), Closing(fs));
    StartsWithConcat(head, Sections(fs) + Closing(fs));
    HeaderNamesAnalysis();
    ContainsInConcat(ReportHeader, score, "Security Analysis");
    ContainsViaPrefix(Report(fs), head, "Security Analysis");
    ScoreLineNamesPassed(CountStatus(fs, Pass));
    ContainsInConcat(ReportHeader, score, "checks passed");
    ContainsViaPrefix(Report(fs), head, "checks passed");
  }

  /** Each finding has its section in the report. */
  lemma ReportHasSections(fs: seq<Finding>)
    ensures forall i :: 0 <= i < |fs| ==> Contains(Report(fs), Section(fs[i]))
  {
    var head := ReportHeader + ScoreLine(CountStatus(fs, Pass));
    var rest := Sections(fs) + Closing(fs);
    AppendAssoc(head, Sections(fs), Closing(fs));
    forall i | 0 <= i < |fs|
      ensures Contains(Report(fs), Section(fs[i]))
    {
      ConcatMapContains(fs, Section, i);
      ContainsInConcat(Sections(fs), Closing(fs), Section(fs[i]));
      ContainsInConcat(head, rest, Section(fs[i]));
    }
  }
}
