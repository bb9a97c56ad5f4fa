/** What the policy builder reads out of the Cerbos command-line tool's output:
    the error and warning lines, the verdict of `cerbos compile`, and the pass and
    fail counts of `cerbos test`. Running the tool is not modelled; its output,
    return code, time-out or failure are inputs. */
module CerbosCli {
  import opened PyStrings
  import opened PyValues
  import opened ResultTypes

  // ---------------------------------------------------------------------
  // _extract_errors / _extract_warnings
  // ---------------------------------------------------------------------

  /** A line is reported when its lower-cased form contains `word` and it is not blank. */
  predicate Reported(line: string, word: string) {
    Contains(Lower(line), word) && Strip(line) != ""
  }

  /** Some line of `lines` is reported and strips to `x`. */
  predicate StripsTo(lines: seq<string>, word: string, x: string) {
    exists i :: 0 <= i < |lines| && Reported(lines[i], word) && x == Strip(lines[i])
  }

  /** The stripped reported lines, in order: every entry comes from a reported
      line, and every reported line gives an entry. */
  function MatchingLines(lines: seq<string>, word: string): (r: seq<string>)
    ensures |r| <= |lines|
    ensures forall x :: x in r ==> StripsTo(lines, word, x)
    ensures forall i :: 0 <= i < |lines| && Reported(lines[i], word) ==> Strip(lines[i]) in r
  {
    if |lines| == 0 then []
    else
      var init, line := lines[..|lines| - 1], lines[|lines| - 1];
      var rest := MatchingLines(init, word);
      assert lines == init + [line];
      MatchingStep(init, line, word, rest);
      rest + (if Reported(line, word) then [Strip(line)] else [])
  }

  /** Extraction over `init` that is sound and complete stays so when `line` is
      appended and extracted in turn. */
  lemma MatchingStep(init: seq<string>, line: string, word: string, rest: seq<string>)
    requires forall x :: x in rest ==> StripsTo(init, word, x)
    requires forall i :: 0 <= i < |init| && Reported(init[i], word) ==> Strip(init[i]) in rest
    ensures var lines, r := init + [line], rest + (if Reported(line, word) then [Strip(line)] else []);
      && (forall x :: x in r ==> StripsTo(lines, word, x))
      && (forall i :: 0 <= i < |lines| && Reported(lines[i], word) ==> Strip(lines[i]) in r)
  {
    var lines, r := init + [line], rest + (if Reported(line, word) then [Strip(line)] else []);
    forall x | x in r ensures StripsTo(lines, word, x) {
      if x in rest {
        var i :| 0 <= i < |init| && Reported(init[i], word) && x == Strip(init[i]);
        assert lines[i] == init[i];
      } else {
        assert Reported(lines[|init|], word) && x == Strip(lines[|init|]);
      }
    }
    forall i | 0 <= i < |lines| && Reported(lines[i], word) ensures Strip(lines[i]) in r {
      if i < |init| {
        assert init[i] == lines[i];
      }
    }
  }

  /** The extracted entries are exactly the stripped forms of the reported lines. */
  lemma MatchingMembers(lines: seq<string>, word: string, x: string)
    ensures x in MatchingLines(lines, word) <==> StripsTo(lines, word, x)
  {
    if StripsTo(lines, word, x) {
      var i :| 0 <= i < |lines| && Reported(lines[i], word) && x == Strip(lines[i]);
    }
  }

  /** The lines of `output` that mention `word`, stripped. The two extractors are
      this loop with `word` = "error" and `word` = "warn". */
  method ExtractLines(output: string, word: string) returns (found: seq<string>)
    ensures found == MatchingLines(Split(output, '\n'), word)
  {
    found := [];
    var lines := Split(output, '\n');
    var i := 0;
    while i < |lines|
      invariant 0 <= i <= |lines|
      invariant found == MatchingLines(lines[..i], word)
    {
      assert lines[..i + 1][..i] == lines[..i];
      var line := lines[i];
      if Contains(Lower(line), word) && Strip(line) != "" {
        found := found + [Strip(line)];
      }
      i := i + 1;
    }
    assert lines[..i] == lines;
  }

  /** Every extracted entry is a non-blank, already stripped line. */
  lemma ExtractedStripped(lines: seq<string>, word: string, k: nat)
    requires k < |MatchingLines(lines, word)|
    ensures var x := MatchingLines(lines, word)[k]; x != "" && Strip(x) == x
  {
    var x := MatchingLines(lines, word)[k];
    MatchingMembers(lines, word, x);
    var i :| 0 <= i < |lines| && Reported(lines[i], word) && x == Strip(lines[i]);
    StripIdempotent(lines[i]);
  }

  /** A line that mentions both words is reported as an error and as a warning. */
  lemma ErrorAndWarning(output: string, i: nat)
    requires i < |Split(output, '\n')|
    requires Reported(Split(output, '\n')[i], "error") && Reported(Split(output, '\n')[i], "warn")
    ensures Strip(Split(output, '\n')[i]) in MatchingLines(Split(output, '\n'), "error")
    ensures Strip(Split(output, '\n')[i]) in MatchingLines(Split(output, '\n'), "warn")
  {
    var lines := Split(output, '\n');
    MatchingMembers(lines, "error", Strip(lines[i]));
    MatchingMembers(lines, "warn", Strip(lines[i]));
  }

  // ---------------------------------------------------------------------
  // The verdict of compile
  // ---------------------------------------------------------------------

  /** How a run of `cerbos compile` ended: with output and a return code, by the
      time-out, or with another exception whose text is given. */
  datatype CompileRun =
    | Completed(stdout: string, stderr: string, returnCode: int)
    | TimedOut
    | Raised(message: string)

  const TimeoutError := "Validation timeout - policy compilation took too long"

  /** The result `compile` builds from a run; the output is stdout then stderr. */
  function CompileResult(run: CompileRun): (r: ValidationResult)
  {
    match run
    case Completed(stdout, stderr, returnCode) =>
      var output := stdout + stderr;
      var lines := Split(output, '\n');
      if Contains(Lower(output), "error") || returnCode != 0 then
        ValidationResult(false, MatchingLines(lines, "error"), MatchingLines(lines, "warn"))
      else
        ValidationResult(true, [], MatchingLines(lines, "warn"))
    case TimedOut => ValidationResult(false, [TimeoutError], [])
    case Raised(message) => ValidationResult(false, ["Validation error: " + message], [])
  }

  /** Compilation succeeds exactly when the tool finished with return code 0 and
      no "error" in any case in its output; success carries no errors; the warnings
      are the output's warning lines whatever the verdict; a time-out or an
      exception gives one error and no warnings. */
  lemma CompileRule(run: CompileRun)
    ensures CompileResult(run).success <==>
      run.Completed? && !Contains(Lower(run.stdout + run.stderr), "error") && run.returnCode == 0
    ensures CompileResult(run).success ==> CompileResult(run).errors == []
    ensures run.Completed? ==>
      CompileResult(run).warnings == MatchingLines(Split(run.stdout + run.stderr, '\n'), "warn")
    ensures !run.Completed? ==> |CompileResult(run).errors| == 1 && CompileResult(run).warnings == []
  {
  }

  // ---------------------------------------------------------------------
  // _parse_test_output
  // ---------------------------------------------------------------------

  /** The length of the run of digits starting at `i`. */
  function DigitRun(s: string, i: nat): (n: nat)
    requires i <= |s|
    ensures i + n <= |s|
    ensures forall k :: i <= k < i + n ==> IsDigit(s[k])
    ensures i + n == |s| || !IsDigit(s[i + n])
    decreases |s| - i
  {
    if i < |s| && IsDigit(s[i]) then 1 + DigitRun(s, i + 1) else 0
  }

  /** The length of the run of whitespace starting at `i`. */
  function SpaceRun(s: string, i: nat): (n: nat)
    requires i <= |s|
    ensures i + n <= |s|
    ensures forall k :: i <= k < i + n ==> IsSpace(s[k])
    ensures i + n == |s| || !IsSpace(s[i + n])
    decreases |s| - i
  {
    if i < |s| && IsSpace(s[i]) then 1 + SpaceRun(s, i + 1) else 0
  }

  /** The pattern `(\d+)\s+word` matches at `p`. Both runs are taken whole: giving
      back a digit or a space cannot let the next part match. */
  predicate CountAt(s: string, word: string, p: nat)
    requires p <= |s|
  {
    var d := DigitRun(s, p);
    d > 0 && SpaceRun(s, p + d) > 0 && StartsWith(s[p + d + SpaceRun(s, p + d)..], word)
  }

  /** The pattern matches at no position in [a, b). */
  predicate NoCountIn(s: string, word: string, a: nat, b: nat)
    requires b <= |s| + 1
  {
    forall q :: a <= q < b ==> !CountAt(s, word, q)
  }

  /** The leftmost match at or after `from`, as a search returns it. */
  function FirstCount(s: string, word: string, from: nat): (r: Option<nat>)
    requires from <= |s|
    ensures r.Some? ==> from <= r.value <= |s| && CountAt(s, word, r.value)
    ensures r.Some? ==> NoCountIn(s, word, from, r.value)
    ensures r.None? ==> NoCountIn(s, word, from, |s| + 1)
    decreases |s| - from
  {
    if CountAt(s, word, from) then Some(from)
    else if from == |s| then None
    else
      var r := FirstCount(s, word, from + 1);
      NoCountExtend(s, word, from, if r.Some? then r.value else |s| + 1);
      r
  }

  /** A position without a match extends a match-free range to the left. */
  lemma NoCountExtend(s: string, word: string, a: nat, b: nat)
    requires a < b <= |s| + 1 && !CountAt(s, word, a) && NoCountIn(s, word, a + 1, b)
    ensures NoCountIn(s, word, a, b)
  {
  }

  /** CPython's default `sys.int_max_str_digits`: from Python 3.10.7 on, `int()`
      refuses a decimal string with more digits than this. */
  const MaxStrDigits := 4300

  /** The ValueError `int()` raises past that limit. Its wording differs between
      Python versions, and the digit count it ends with is not modelled. */
  const IntLimitError := ValueError("Exceeds the limit (4300 digits) for integer string conversion")

  /** The number in the first match, or 0 when there is none; `int()` of the digits
      fails when there are more of them than the limit allows. */
  function CountOf(s: string, word: string): (r: Result<nat>)
    ensures r.Err? <==> FirstCount(s, word, 0).Some? && DigitRun(s, FirstCount(s, word, 0).value) > MaxStrDigits
    ensures r.Err? ==> r.error == IntLimitError
    ensures FirstCount(s, word, 0).None? ==> r == Ok(0)
  {
    match FirstCount(s, word, 0)
    case Some(p) =>
      var digits := s[p..p + DigitRun(s, p)];
      if |digits| > MaxStrDigits then Err(IntLimitError) else Ok(ParseDigits(digits))
    case None => Ok(0)
  }

  /** `_parse_test_output`: the two counts, their sum, and the output verbatim, or
      the ValueError of a count too long for `int()`. */
  function ParseTestOutput(output: string): (r: Result<TestResult>)
    ensures r.Ok? <==> CountOf(output, "passed").Ok? && CountOf(output, "failed").Ok?
    ensures r.Ok? ==> r.value.total == r.value.passed + r.value.failed && r.value.details == output
    ensures r.Err? ==> r.error == IntLimitError
  {
    var passed :- CountOf(output, "passed");
    var failed :- CountOf(output, "failed");
    Ok(TestResult(passed, failed, passed + failed, output))
  }

  /** The leftmost match is the one at `p` when none starts earlier. */
  lemma FirstCountAt(s: string, word: string, p: nat)
    requires p <= |s| && CountAt(s, word, p)
    requires NoCountIn(s, word, 0, p)
    ensures FirstCount(s, word, 0) == Some(p)
  {
  }

  /** A run of `n` digits ending at a non-digit has length `n`. */
  lemma {:induction false} DigitRunIs(s: string, i: nat, n: nat)
    requires i + n <= |s|
    requires forall k :: i <= k < i + n ==> IsDigit(s[k])
    requires i + n == |s| || !IsDigit(s[i + n])
    ensures DigitRun(s, i) == n
    decreases n
  {
    if n > 0 {
      DigitRunIs(s, i + 1, n - 1);
    }
  }

  /** Digits at [p, p + n), one space, then `word`: the pattern matches at `p` and
      takes all `n` digits. */
  lemma CountHere(s: string, word: string, p: nat, n: nat)
    requires n > 0 && p + n + 1 + |word| <= |s|
    requires forall k :: p <= k < p + n ==> IsDigit(s[k])
    requires s[p + n] == ' '
    requires |word| > 0 && s[p + n + 1] == word[0] && !IsSpace(word[0])
    requires s[p + n + 1..p + n + 1 + |word|] == word
    ensures CountAt(s, word, p) && DigitRun(s, p) == n
  {
    DigitRunIs(s, p, n);
    assert SpaceRun(s, p + n + 1) == 0;
    assert SpaceRun(s, p + n) == 1;
    assert s[p + n + 1..][..|word|] == s[p + n + 1..p + n + 1 + |word|];
  }

  /** Inside the digits at [p, p + n), followed by one space and a letter other than
      the first of `word`, the pattern for `word` does not match. */
  lemma NoCountInRun(s: string, word: string, q: nat, n: nat)
    requires q + n + 1 < |s|
    requires forall k :: q <= k < q + n ==> IsDigit(s[k])
    requires s[q + n] == ' ' && !IsSpace(s[q + n + 1])
    requires |word| > 0 && s[q + n + 1] != word[0]
    ensures !CountAt(s, word, q)
  {
    DigitRunIs(s, q, n);
    assert SpaceRun(s, q + n + 1) == 0;
    assert SpaceRun(s, q + n) == 1;
  }

  /** A line laid out as `n1` digits, a space, `w1`, two separators, `n2` digits, a
      space and `w2`. */
  predicate SummaryShape(s: string, w1: string, w2: string, n1: nat, n2: nat) {
    n1 > 0 && n2 > 0 && |w1| > 0 && |w2| > 0
    && |s| == n1 + |w1| + 3 + n2 + 1 + |w2|
    && (forall k :: 0 <= k < n1 ==> IsDigit(s[k]))
    && s[n1] == ' ' && s[n1 + 1..n1 + 1 + |w1|] == w1
    && (forall k :: n1 + 1 <= k < n1 + |w1| + 3 ==> !IsDigit(s[k]))
    && (forall k :: n1 + |w1| + 3 <= k < n1 + |w1| + 3 + n2 ==> IsDigit(s[k]))
    && s[n1 + |w1| + 3 + n2] == ' ' && s[n1 + |w1| + 3 + n2 + 1..] == w2
    && !IsSpace(w1[0]) && !IsSpace(w2[0]) && w1[0] != w2[0]
  }

  /** In a line of that shape, the first count sits at the start. */
  lemma FirstWordMatch(s: string, w1: string, w2: string, n1: nat, n2: nat)
    requires SummaryShape(s, w1, w2, n1, n2)
    ensures FirstCount(s, w1, 0) == Some(0) && DigitRun(s, 0) == n1
  {
    assert s[n1 + 1] == w1[0];
    CountHere(s, w1, 0, n1);
    FirstCountAt(s, w1, 0);
  }

  /** In a line of that shape, the second count sits after the first word and its
      separators; no earlier position matches the second word. */
  lemma SecondWordMatch(s: string, w1: string, w2: string, n1: nat, n2: nat)
    requires SummaryShape(s, w1, w2, n1, n2)
    ensures FirstCount(s, w2, 0) == Some(n1 + |w1| + 3)
    ensures DigitRun(s, n1 + |w1| + 3) == n2
  {
    var P := n1 + |w1| + 3;
    assert s[P + n2 + 1] == w2[0];
    assert s[P + n2 + 1..P + n2 + 1 + |w2|] == w2;
    CountHere(s, w2, P, n2);
    assert NoCountIn(s, w2, 0, P) by {
      forall q | 0 <= q < P ensures !CountAt(s, w2, q) {
        if q < n1 {
          assert s[n1 + 1] == w1[0];
          NoCountInRun(s, w2, q, n1 - q);
        } else {
          assert !IsDigit(s[q]);
        }
      }
    }
    FirstCountAt(s, w2, P);
  }

  /** "<A> passed, <B> failed", for digit strings A and B, has that shape, with A and
      B where the counts are read. */
  lemma SummaryLayout(A: string, B: string)
    requires |A| > 0 && |B| > 0
    requires forall k :: 0 <= k < |A| ==> IsDigit(A[k])
    requires forall k :: 0 <= k < |B| ==> IsDigit(B[k])
    ensures var s := A + " passed, " + B + " failed";
      SummaryShape(s, "passed", "failed", |A|, |B|)
      && s[0..|A|] == A && s[|A| + 9..|A| + 9 + |B|] == B
  {
    var mid := " passed, ";
    var s := A + mid + B + " failed";
    assert s[..|A|] == A;
    assert s[|A|..|A| + 9] == mid;
    assert s[|A| + 9..|A| + 9 + |B|] == B;
    assert s[|A| + 9 + |B|..] == " failed";
    forall k | 0 <= k < |A| ensures IsDigit(s[k]) {
      assert s[k] == A[k];
    }
    forall k | |A| + 1 <= k < |A| + 9 ensures !IsDigit(s[k]) {
      assert s[k] == mid[k - |A|];
    }
    forall k | |A| + 9 <= k < |A| + 9 + |B| ensures IsDigit(s[k]) {
      assert s[k] == B[k - |A| - 9];
    }
  }

  /** The counts read from "<A> passed, <B> failed" are the values of A and B, as
      long as neither is longer than `int()` accepts. */
  lemma SummaryCounts(A: string, B: string)
    requires 0 < |A| <= MaxStrDigits && 0 < |B| <= MaxStrDigits
    requires forall k :: 0 <= k < |A| ==> IsDigit(A[k])
    requires forall k :: 0 <= k < |B| ==> IsDigit(B[k])
    ensures var s := A + " passed, " + B + " failed";
      CountOf(s, "passed") == Ok(ParseDigits(A)) && CountOf(s, "failed") == Ok(ParseDigits(B))
  {
    var s := A + " passed, " + B + " failed";
    SummaryLayout(A, B);
    FirstWordMatch(s, "passed", "failed", |A|, |B|);
    SecondWordMatch(s, "passed", "failed", |A|, |B|);
  }

  /** A summary line "<a> passed, <b> failed" is read back as a passed, b failed,
      when both numbers have at most 4300 digits. */
  lemma ParseSummary(a: nat, b: nat)
    requires |NatToString(a)| <= MaxStrDigits && |NatToString(b)| <= MaxStrDigits
    ensures var r := ParseTestOutput(NatToString(a) + " passed, " + NatToString(b) + " failed");
      r.Ok? && r.value.passed == a && r.value.failed == b && r.value.total == a + b
  {
    SummaryCounts(NatToString(a), NatToString(b));
    ParseNatToString(a);
    ParseNatToString(b);
  }

  /** A passed count with more digits than `int()` accepts makes the parse fail
      with its ValueError instead of giving a result. */
  lemma CountPastLimit(A: string)
    requires |A| > MaxStrDigits
    requires forall k :: 0 <= k < |A| ==> IsDigit(A[k])
    ensures ParseTestOutput(A + " passed").Err?
    ensures ParseTestOutput(A + " passed").error == IntLimitError
  {
    var s := A + " passed";
    assert s[|A|] == ' ' && s[|A| + 1] == 'p';
    assert s[|A| + 1..|A| + 7] == "passed";
    forall k | 0 <= k < |A| ensures IsDigit(s[k]) {
      assert s[k] == A[k];
    }
    CountHere(s, "passed", 0, |A|);
    FirstCountAt(s, "passed", 0);
  }
}
