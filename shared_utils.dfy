/** Helpers shared by the policy tools: escaping of user text, and the markdown
    blocks that report a compilation, a test run and a policy's metadata. */
module SharedUtils {
  import opened PyStrings
  import opened PyValues
  import opened ResultTypes
  import opened IcpTypes

  // ---------------------------------------------------------------------
  // sanitize_user_input
  // ---------------------------------------------------------------------

  /** The three characters that are escaped. */
  predicate Special(c: char) {
    c == '<' || c == '>' || c == '"'
  }

  /** Three successive replacements: '<', then '>', then '"'. */
  function Sanitize(text: string): (r: string)
    ensures forall i :: 0 <= i < |r| ==> !Special(r[i])
  {
    var r := ReplaceChar(ReplaceChar(ReplaceChar(text, '<', "&lt;"), '>', "&gt;"), '"', "&quot;");
    forall x | x in r ensures !Special(x) {
      var r1 := ReplaceChar(text, '<', "&lt;");
      var r2 := ReplaceChar(r1, '>', "&gt;");
      ReplaceCharMembers(text, '<', "&lt;", x);
      ReplaceCharMembers(r1, '>', "&gt;", x);
      ReplaceCharMembers(r2, '"', "&quot;", x);
    }
    r
  }

  /** The escape of one character; every character but the three is kept as is. */
  function EscapeChar(c: char): string {
    if c == '<' then "&lt;"
    else if c == '>' then "&gt;"
    else if c == '"' then "&quot;"
    else [c]
  }

  lemma SanitizeChar(c: char)
    ensures Sanitize([c]) == EscapeChar(c)
  {
    ReplaceCharSingle(c, '<', "&lt;");
    if c == '<' {
      ReplaceCharAbsent("&lt;", '>', "&gt;");
      ReplaceCharAbsent("&lt;", '"', "&quot;");
    } else {
      ReplaceCharSingle(c, '>', "&gt;");
      if c == '>' {
        ReplaceCharAbsent("&gt;", '"', "&quot;");
      } else {
        ReplaceCharSingle(c, '"', "&quot;");
      }
    }
  }

  lemma SanitizeConcat(a: string, b: string)
    ensures Sanitize(a + b) == Sanitize(a) + Sanitize(b)
  {
    ReplaceCharConcat(a, b, '<', "&lt;");
    var a1, b1 := ReplaceChar(a, '<', "&lt;"), ReplaceChar(b, '<', "&lt;");
    ReplaceCharConcat(a1, b1, '>', "&gt;");
    var a2, b2 := ReplaceChar(a1, '>', "&gt;"), ReplaceChar(b1, '>', "&gt;");
    ReplaceCharConcat(a2, b2, '"', "&quot;");
  }

  /** Sanitising escapes the text character by character, in order. */
  lemma {:induction false} SanitizeEscapes(text: string)
    ensures Sanitize(text) == ConcatMap(text, EscapeChar)
  {
    if |text| > 0 {
      var init, c := text[..|text| - 1], text[|text| - 1];
      assert text == init + [c];
      SanitizeEscapes(init);
      SanitizeConcat(init, [c]);
      SanitizeChar(c);
    }
  }

  /** Text without the three characters is left alone, and only such text is. */
  lemma SanitizeFixed(text: string)
    ensures Sanitize(text) == text <==> forall i :: 0 <= i < |text| ==> !Special(text[i])
  {
    if forall i :: 0 <= i < |text| ==> !Special(text[i]) {
      assert '<' !in text && '>' !in text && '"' !in text;
      ReplaceCharAbsent(text, '<', "&lt;");
      ReplaceCharAbsent(text, '>', "&gt;");
      ReplaceCharAbsent(text, '"', "&quot;");
    }
  }

  /** Sanitising twice is sanitising once. */
  lemma SanitizeIdempotent(text: string)
    ensures Sanitize(Sanitize(text)) == Sanitize(text)
  {
    SanitizeFixed(Sanitize(text));
  }

  // ---------------------------------------------------------------------
  // format_validation_results
  // ---------------------------------------------------------------------

  const ResultsHeader := "## \U{2705} Validation Results\n\n"
  const SyntaxValid := "\U{2705} **Policy syntax valid**\n"
  const WarningsHead := "\n\U{26A0}\U{FE0F} **Warnings**:\n"
  const SyntaxErrors := "\U{274C} **Policy syntax errors**:\n"
  const Skipped := "\U{2139}\U{FE0F} **" + "Validation skipped" + "** (Cerbos CLI not available)\n"
  const TestsHead := "## \U{1F9EA} Test Results\n\n"
  const AllPassed := "\U{2705} **All tests passed!**\n"

  function Bullet(item: string): string {
    "- " + item + "\n"
  }

  /** One bullet line per item, in order. */
  function Bullets(items: seq<string>): string {
    ConcatMap(items, Bullet)
  }

  /** The compilation block: skipped when there is no result. */
  function ValidationSection(v: Option<ValidationResult>): string {
    match v
    case None => Skipped
    case Some(res) =>
      if res.success then
        SyntaxValid + (if |res.warnings| > 0 then WarningsHead + Bullets(res.warnings) else "")
      else
        SyntaxErrors + Bullets(res.errors)
  }

  function PassedLine(t: TestResult): string {
    "**Passed**: " + NatToString(t.passed) + "/" + NatToString(t.total) + "\n"
  }

  function FailedLine(failed: nat): string {
    "\U{274C} **" + NatToString(failed) + " tests failed**\n"
  }

  /** The test block, present only for a test result. */
  function TestSection(t: Option<TestResult>): string {
    match t
    case None => ""
    case Some(tr) =>
      TestsHead + PassedLine(tr) + (if tr.failed == 0 then AllPassed else FailedLine(tr.failed)) + "\n"
  }

  function ValidationReport(v: Option<ValidationResult>, t: Option<TestResult>): string {
    ResultsHeader + ValidationSection(v) + "\n" + TestSection(t)
  }

  /** `format_validation_results`, accumulating the report with `+=`. */
  method FormatValidationResults(v: Option<ValidationResult>, t: Option<TestResult>) returns (response: string)
    ensures response == ValidationReport(v, t)
  {
    response := ResultsHeader;
    if v.Some? {
      var res := v.value;
      if res.success {
        response := response + SyntaxValid;
        if |res.warnings| > 0 {
          response := response + WarningsHead;
          ghost var before := response;
          var i := 0;
          while i < |res.warnings|
            invariant 0 <= i <= |res.warnings|
            invariant response == before + Bullets(res.warnings[..i])
          {
            assert res.warnings[..i + 1][..i] == res.warnings[..i];
            AppendAssoc(before, Bullets(res.warnings[..i]), Bullet(res.warnings[i]));
            response := response + Bullet(res.warnings[i]);
            i := i + 1;
          }
          assert res.warnings[..i] == res.warnings;
          AppendAssoc(ResultsHeader + SyntaxValid, WarningsHead, Bullets(res.warnings));
          AppendAssoc(ResultsHeader, SyntaxValid, WarningsHead + Bullets(res.warnings));
        }
      } else {
        response := response + SyntaxErrors;
        ghost var before := response;
        var i := 0;
        while i < |res.errors|
          invariant 0 <= i <= |res.errors|
          invariant response == before + Bullets(res.errors[..i])
        {
          assert res.errors[..i + 1][..i] == res.errors[..i];
          AppendAssoc(before, Bullets(res.errors[..i]), Bullet(res.errors[i]));
          response := response + Bullet(res.errors[i]);
          i := i + 1;
        }
        assert res.errors[..i] == res.errors;
        AppendAssoc(ResultsHeader, SyntaxErrors, Bullets(res.errors));
      }
    } else {
      response := response + Skipped;
    }
    assert response == ResultsHeader + ValidationSection(v);
    response := response + "\n";
    if t.Some? {
      var tr := t.value;
      ghost var before := response;
      response := response + TestsHead;
      response := response + PassedLine(tr);
      if tr.failed == 0 {
        response := response + AllPassed;
      } else {
        response := response + FailedLine(tr.failed);
      }
      ghost var outcome := if tr.failed == 0 then AllPassed else FailedLine(tr.failed);
      assert response == before + TestsHead + PassedLine(tr) + outcome;
      response := response + "\n";
      TestSectionParts(before, tr, outcome);
    } else {
      assert TestSection(t) == "";
    }
  }

  lemma TestSectionParts(before: string, tr: TestResult, outcome: string)
    requires outcome == if tr.failed == 0 then AllPassed else FailedLine(tr.failed)
    ensures before + TestsHead + PassedLine(tr) + outcome + "\n" == before + TestSection(Some(tr))
  {
    AppendAssoc(before, TestsHead, PassedLine(tr));
    AppendAssoc(before, TestsHead + PassedLine(tr), outcome);
    AppendAssoc(before, TestsHead + PassedLine(tr) + outcome, "\n");
  }

  /** The report opens with its header and the compilation block, and ends with the
      test block. */
  lemma ReportLayout(v: Option<ValidationResult>, t: Option<TestResult>)
    ensures StartsWith(ValidationReport(v, t), ResultsHeader + ValidationSection(v))
    ensures t.None? ==> ValidationReport(v, t) == ResultsHeader + ValidationSection(v) + "\n"
  {
    var head := ResultsHeader + ValidationSection(v);
    AppendAssoc(head, "\n", TestSection(t));
    StartsWithConcat(head, "\n" + TestSection(t));
  }

  lemma SkippedNamesIt()
    ensures Contains(Skipped, "Validation skipped")
  {
    ContainsMiddle("\U{2139}\U{FE0F} **", "Validation skipped", "** (Cerbos CLI not available)\n");
  }

  /** Without a compilation result the block says that validation was skipped. */
  lemma SkippedReport(t: Option<TestResult>)
    ensures ValidationSection(None) == Skipped
    ensures Contains(ValidationReport(None, t), "Validation skipped")
  {
    SkippedNamesIt();
    ContainsMiddle(ResultsHeader, Skipped, "\n" + TestSection(t));
    AppendAssoc(ResultsHeader + Skipped, "\n", TestSection(t));
    ContainsTransitive(ValidationReport(None, t), Skipped, "Validation skipped");
  }

  lemma WarningsHeadNamesIt()
    ensures Contains(WarningsHead, "Warnings")
  {
    assert WarningsHead == "\n\U{26A0}\U{FE0F} **" + "Warnings" + "**:\n";
    ContainsMiddle("\n\U{26A0}\U{FE0F} **", "Warnings", "**:\n");
  }

  /** A successful compilation is reported valid; its warnings block is present
      exactly when there are warnings, and lists each of them. */
  lemma SuccessBlock(res: ValidationResult, i: nat)
    requires res.success
    ensures StartsWith(ValidationSection(Some(res)), SyntaxValid)
    ensures Contains(ValidationSection(Some(res)), "Warnings") <==> |res.warnings| > 0
    ensures i < |res.warnings| ==> Contains(ValidationSection(Some(res)), Bullet(res.warnings[i]))
  {
    var section := ValidationSection(Some(res));
    StartsWithConcat(SyntaxValid, section[|SyntaxValid|..]);
    assert section == SyntaxValid + section[|SyntaxValid|..];
    if |res.warnings| > 0 {
      WarningsHeadNamesIt();
      ContainsMiddle(SyntaxValid, WarningsHead, Bullets(res.warnings));
      ContainsTransitive(section, WarningsHead, "Warnings");
      if i < |res.warnings| {
        ConcatMapContains(res.warnings, Bullet, i);
        ContainsMiddle(SyntaxValid + WarningsHead, Bullets(res.warnings), "");
        assert SyntaxValid + WarningsHead + Bullets(res.warnings) + "" == section;
        ContainsTransitive(section, Bullets(res.warnings), Bullet(res.warnings[i]));
      }
    } else {
      assert 'W' !in SyntaxValid;
      MissingChar(section, "Warnings", 'W');
    }
  }

  /** A failed compilation is reported with one bullet per error. */
  lemma FailureBlock(res: ValidationResult, i: nat)
    requires !res.success
    ensures ValidationSection(Some(res)) == SyntaxErrors + Bullets(res.errors)
    ensures i < |res.errors| ==> Contains(ValidationSection(Some(res)), Bullet(res.errors[i]))
  {
    if i < |res.errors| {
      ConcatMapContains(res.errors, Bullet, i);
      ContainsMiddle(SyntaxErrors, Bullets(res.errors), "");
      assert SyntaxErrors + Bullets(res.errors) + "" == SyntaxErrors + Bullets(res.errors);
      ContainsTransitive(ValidationSection(Some(res)), Bullets(res.errors), Bullet(res.errors[i]));
    }
  }

  lemma AllPassedNamesIt()
    ensures Contains(AllPassed, "All tests passed!")
  {
    assert AllPassed == "\U{2705} **" + "All tests passed!" + "**\n";
    ContainsMiddle("\U{2705} **", "All tests passed!", "**\n");
  }

  /** The test block says "All tests passed!" exactly when no test failed. */
  lemma AllPassedIffNoFailures(tr: TestResult)
    ensures Contains(TestSection(Some(tr)), "All tests passed!") <==> tr.failed == 0
  {
    var section := TestSection(Some(tr));
    if tr.failed == 0 {
      AllPassedNamesIt();
      ContainsMiddle(TestsHead + PassedLine(tr), AllPassed, "\n");
      ContainsTransitive(section, AllPassed, "All tests passed!");
    } else {
      NoCapitalA(tr);
      MissingChar(section, "All tests passed!", 'A');
    }
  }

  /** A block reporting failures has no capital A: digits and lower-case words only. */
  lemma NoCapitalA(tr: TestResult)
    requires tr.failed > 0
    ensures 'A' !in TestSection(Some(tr))
  {
    assert 'A' !in NatToString(tr.passed) && 'A' !in NatToString(tr.total) && 'A' !in NatToString(tr.failed);
    assert 'A' !in TestsHead;
    assert 'A' !in PassedLine(tr);
    assert 'A' !in FailedLine(tr.failed);
  }

  // ---------------------------------------------------------------------
  // format_policy_metadata
  // ---------------------------------------------------------------------

  function TopicsLine(topics: seq<string>): string {
    "**Topics**: " + Join(", ", topics) + "\n"
  }

  function SafetyLine(category: string): string {
    "**Safety Level**: " + category + "\n"
  }

  function ComplianceLine(compliance: seq<string>): string {
    "**Compliance**: " + Join(", ", compliance) + "\n"
  }

  /** Python truthiness of the optional safety category and compliance list. */
  predicate HasSafety(m: Metadata) {
    m.safetyCategory.Some? && m.safetyCategory.value != ""
  }

  predicate HasCompliance(m: Metadata) {
    m.compliance.Some? && |m.compliance.value| > 0
  }

  /** Each field's line, or nothing when the field is unset. */
  function TopicsPart(m: Metadata): string {
    if |m.topics| > 0 then TopicsLine(m.topics) else ""
  }

  function SafetyPart(m: Metadata): string {
    if HasSafety(m) then SafetyLine(m.safetyCategory.value) else ""
  }

  function CompliancePart(m: Metadata): string {
    if HasCompliance(m) then ComplianceLine(m.compliance.value) else ""
  }

  /** The lines for the fields that are set, in the order topics, safety, compliance. */
  function MetadataLines(m: Metadata): string {
    TopicsPart(m) + SafetyPart(m) + CompliancePart(m)
  }

  /** The lines followed by a blank line, or nothing at all. */
  function MetadataReport(icp: Icp): string {
    var lines := MetadataLines(icp.metadata);
    if lines != "" then lines + "\n" else ""
  }

  /** `format_policy_metadata`, accumulating the block with `+=`. */
  method FormatPolicyMetadata(icp: Icp) returns (r: string)
    ensures r == MetadataReport(icp)
  {
    var m := icp.metadata;
    var response := "";
    if |m.topics| > 0 {
      response := response + TopicsLine(m.topics);
    }
    assert response == TopicsPart(m);
    if m.safetyCategory.Some? && m.safetyCategory.value != "" {
      response := response + SafetyLine(m.safetyCategory.value);
    }
    assert response == TopicsPart(m) + SafetyPart(m);
    if m.compliance.Some? && |m.compliance.value| > 0 {
      response := response + ComplianceLine(m.compliance.value);
    }
    assert response == MetadataLines(m);
    r := if response != "" then response + "\n" else "";
  }

  /** The block is empty exactly when topics, safety category and compliance are
      all unset; otherwise it ends with a blank line. */
  lemma MetadataEmpty(icp: Icp)
    ensures var m := icp.metadata;
      MetadataReport(icp) == "" <==> |m.topics| == 0 && !HasSafety(m) && !HasCompliance(m)
    ensures MetadataReport(icp) != "" ==> MetadataReport(icp) == MetadataLines(icp.metadata) + "\n"
  {
  }

  /** Lines that begin with `first` still begin with it once the blank line is added. */
  lemma LinesStartWith(lines: string, first: string, rest: string)
    requires lines == first + rest
    ensures StartsWith(lines + "\n", first)
  {
    AppendAssoc(first, rest, "\n");
    StartsWithConcat(first, rest + "\n");
  }

  /** The topics line comes first when present. */
  lemma MetadataTopicsFirst(icp: Icp)
    ensures var m := icp.metadata;
      |m.topics| > 0 ==> StartsWith(MetadataReport(icp), TopicsLine(m.topics))
  {
    var m := icp.metadata;
    if |m.topics| > 0 {
      var lines := MetadataLines(m);
      AppendAssoc(TopicsPart(m), SafetyPart(m), CompliancePart(m));
      assert |lines| > 0 by { assert |lines| >= |TopicsPart(m)| > 0; }
      LinesStartWith(lines, TopicsPart(m), SafetyPart(m) + CompliancePart(m));
    }
  }

  /** Without topics, the safety line comes first when present. */
  lemma MetadataSafetyFirst(icp: Icp)
    ensures var m := icp.metadata;
      |m.topics| == 0 && HasSafety(m) ==> StartsWith(MetadataReport(icp), SafetyLine(m.safetyCategory.value))
  {
    var m := icp.metadata;
    if |m.topics| == 0 && HasSafety(m) {
      var lines := MetadataLines(m);
      assert lines == SafetyPart(m) + CompliancePart(m);
      assert |lines| > 0 by { assert |lines| >= |SafetyPart(m)| > 0; }
      LinesStartWith(lines, SafetyPart(m), CompliancePart(m));
    }
  }

  /** The compliance line comes last, just before the closing blank line. */
  lemma MetadataComplianceLast(icp: Icp)
    ensures var m := icp.metadata;
      HasCompliance(m) ==> exists before :: MetadataReport(icp) == before + ComplianceLine(m.compliance.value) + "\n"
  {
    var m := icp.metadata;
    if HasCompliance(m) {
      var lines := MetadataLines(m);
      assert |lines| > 0 by { assert |lines| >= |CompliancePart(m)| > 0; }
      assert MetadataReport(icp) == (TopicsPart(m) + SafetyPart(m)) + CompliancePart(m) + "\n";
    }
  }
}
