/** The result records shared by the tools: the outcome of compiling a policy,
    of running its tests, and a free-form security finding. */
module ResultTypes {

  /** `success` must be given; errors and warnings default to empty lists. */
  datatype ValidationResult = ValidationResult(
    success: bool,
    errors: seq<string> := [],
    warnings: seq<string> := [])

  /** The three counters are constrained to be at least 0, hence `nat`. */
  datatype TestResult = TestResult(
    passed: nat,
    failed: nat,
    total: nat,
    details: string := "")

  /** The shared finding record; its status is any string, unlike the analyzer's
      own finding whose status is one of three values. */
  datatype Finding = Finding(check: string, status: string, message: string)

  lemma ResultDefaults(success: bool, passed: nat, failed: nat, total: nat)
    ensures ValidationResult(success).errors == [] && ValidationResult(success).warnings == []
    ensures TestResult(passed, failed, total).details == ""
  {
  }
}
