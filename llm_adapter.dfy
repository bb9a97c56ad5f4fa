/** How the policy builder cuts the JSON object out of a language model's reply:
    it deletes markdown code-fence lines, then any remaining triple backticks, and
    keeps the span from the first '{' to the last '}'. The model call itself is
    not part of this module. */
module LlmAdapter {
  import opened PyStrings
  import opened PyValues

  const Fence := "```"

  /** The first position of `c` in `s`, if any. */
  function FirstIndex(s: string, c: char): (r: Option<nat>)
    ensures r.None? <==> c !in s
    ensures r.Some? ==> r.value < |s| && s[r.value] == c && c !in s[..r.value]
  {
    if |s| == 0 then None
    else if s[0] == c then Some(0)
    else
      match FirstIndex(s[1..], c)
      case None => None
      case Some(i) =>
        assert s[..i + 1] == [s[0]] + s[1..][..i];
        Some(i + 1)
  }

  /** The last position of `c` in `s`, if any. */
  function LastIndex(s: string, c: char): (r: Option<nat>)
    ensures r.None? <==> c !in s
    ensures r.Some? ==> r.value < |s| && s[r.value] == c && c !in s[r.value + 1..]
  {
    if |s| == 0 then None
    else if s[|s| - 1] == c then Some(|s| - 1)
    else
      var init := s[..|s| - 1];
      match LastIndex(init, c)
      case None =>
        assert s == init + [s[|s| - 1]];
        None
      case Some(i) =>
        assert s[i + 1..] == init[i + 1..] + [s[|s| - 1]];
        Some(i)
  }

  /** The first `c` is at `j` when none precedes it. */
  lemma FirstIndexIs(s: string, c: char, j: nat)
    requires j < |s| && s[j] == c && c !in s[..j]
    ensures FirstIndex(s, c) == Some(j)
  {
    assert s[j] in s;
    var f := FirstIndex(s, c).value;
    assert forall k :: 0 <= k < j ==> s[..j][k] == s[k];
    assert forall k :: 0 <= k < f ==> s[..f][k] == s[k];
  }

  /** The last `c` is at `j` when none follows it. */
  lemma LastIndexIs(s: string, c: char, j: nat)
    requires j < |s| && s[j] == c && c !in s[j + 1..]
    ensures LastIndex(s, c) == Some(j)
  {
    assert s[j] in s;
    var l := LastIndex(s, c).value;
    assert forall k :: l < k < |s| ==> s[l + 1..][k - l - 1] == s[k];
    assert forall k :: j < k < |s| ==> s[j + 1..][k - j - 1] == s[k];
  }

  /** The substitution of the pattern "```[^\n]*\n" by nothing: scanning from the
      left, a fence followed somewhere by a newline is deleted up to and including
      the first such newline; any other character is kept. */
  function StripFenceLines(s: string): string
    decreases |s|
  {
    if |s| == 0 then ""
    else if StartsWith(s, Fence) && FirstIndex(s[3..], '\n').Some? then
      StripFenceLines(s[3 + FirstIndex(s[3..], '\n').value + 1..])
    else [s[0]] + StripFenceLines(s[1..])
  }

  /** Three backticks in a row start at `k`. */
  predicate FenceAt(s: string, k: nat)
    requires k + 3 <= |s|
  {
    s[k] == '`' && s[k + 1] == '`' && s[k + 2] == '`'
  }

  /** No three backticks in a row. */
  predicate NoFence(s: string) {
    forall k: nat :: k + 3 <= |s| ==> !FenceAt(s, k)
  }

  /** Having no three backticks in a row is having no fence as a substring. */
  lemma NoFenceNotContains(s: string)
    requires NoFence(s)
    ensures !Contains(s, Fence)
  {
    forall i | 0 <= i <= |s| ensures !StartsWith(s[i..], Fence) {
      assert i + 3 <= |s| ==> s[i..][..3] == [s[i], s[i + 1], s[i + 2]] && !FenceAt(s, i);
      assert Fence == ['`', '`', '`'];
    }
  }

  /** The substitution of "```" by nothing, scanning from the left. What is left
      has no fence: each run of backticks loses a multiple of three and keeps
      fewer than three. */
  function RemoveFences(s: string): (r: string)
    ensures NoFence(r)
    ensures |r| > 0 && r[0] == '`' ==> |s| > 0 && s[0] == '`'
    ensures |r| > 1 && r[0] == '`' && r[1] == '`' ==> |s| > 1 && s[0] == '`' && s[1] == '`'
    decreases |s|
  {
    if |s| == 0 then ""
    else if StartsWith(s, Fence) then RemoveFences(s[3..])
    else
      var rest := RemoveFences(s[1..]);
      var r := [s[0]] + rest;
      assert forall k: nat :: 1 <= k && k + 3 <= |r| ==> FenceAt(r, k) == FenceAt(rest, k - 1);
      assert |s| >= 3 ==> s[..3] == [s[0], s[1], s[2]];
      r
  }

  /** The text `_extract_json` searches: fence lines deleted, then fences. */
  function Clean(text: string): string {
    RemoveFences(StripFenceLines(text))
  }

  const ExtractError :=
    "Failed to extract JSON from response: No valid JSON found in LLM response"

  /** The greedy match of "\{.*\}" with dot matching newlines: the text from its
      first '{' to its last '}', or the wrapped "no valid JSON" ValueError. */
  function BraceSpan(t: string): Result<string> {
    var first, last := FirstIndex(t, '{'), LastIndex(t, '}');
    if first.Some? && last.Some? && first.value < last.value then
      Ok(t[first.value..last.value + 1])
    else
      Err(ValueError(ExtractError))
  }

  /** `_extract_json`: the brace span of the cleaned reply. */
  function ExtractJson(text: string): Result<string> {
    BraceSpan(Clean(text))
  }

  /** Some '{' of `t` comes before some '}'. */
  predicate HasBracePair(t: string) {
    exists i, j :: 0 <= i < j < |t| && t[i] == '{' && t[j] == '}'
  }

  /** A '{' before a '}' exists exactly when the first '{' precedes the last '}'. */
  lemma BracePairBounds(t: string)
    ensures HasBracePair(t) <==>
      FirstIndex(t, '{').Some? && LastIndex(t, '}').Some?
      && FirstIndex(t, '{').value < LastIndex(t, '}').value
  {
    if HasBracePair(t) {
      var i, j :| 0 <= i < j < |t| && t[i] == '{' && t[j] == '}';
      assert t[i] in t && t[j] in t;
      var f, l := FirstIndex(t, '{').value, LastIndex(t, '}').value;
      assert forall k :: 0 <= k < f ==> t[..f][k] == t[k];
      assert forall k :: l < k < |t| ==> t[l + 1..][k - l - 1] == t[k];
    }
  }

  /** A slice of a text without fences has none. */
  lemma SliceNoFence(t: string, i: nat, j: nat)
    requires NoFence(t) && i <= j <= |t|
    ensures NoFence(t[i..j])
  {
    var r := t[i..j];
    assert forall k: nat :: k + 3 <= |r| ==> FenceAt(r, k) == FenceAt(t, i + k);
  }

  /** The span is found exactly when a '{' comes before a '}'; it then opens
      with '{', closes with '}', and lies between the first '{' and the last '}'
      of the text; otherwise the error is the wrapped "no valid JSON" message. */
  lemma BraceSpanMeaning(t: string)
    ensures BraceSpan(t).Ok? <==> HasBracePair(t)
    ensures BraceSpan(t).Err? ==> BraceSpan(t).error == ValueError(ExtractError)
    ensures BraceSpan(t).Ok? ==>
      var r := BraceSpan(t).value;
      |r| >= 2 && r[0] == '{' && r[|r| - 1] == '}'
      && exists i :: (0 <= i && i + |r| <= |t| && t[i..i + |r|] == r
        && '{' !in t[..i] && '}' !in t[i + |r|..])
  {
    BracePairBounds(t);
    if BraceSpan(t).Ok? {
      var f, l := FirstIndex(t, '{').value, LastIndex(t, '}').value;
      var r := t[f..l + 1];
      assert t[f..f + |r|] == r;
    }
  }

  /** Extraction succeeds exactly when the cleaned reply has a '{' before a '}';
      its result then opens with '{' and closes with '}'. */
  lemma ExtractJsonMeaning(text: string)
    ensures ExtractJson(text).Ok? <==> HasBracePair(Clean(text))
    ensures ExtractJson(text).Err? ==> ExtractJson(text).error == ValueError(ExtractError)
    ensures ExtractJson(text).Ok? ==>
      var r := ExtractJson(text).value;
      |r| >= 2 && r[0] == '{' && r[|r| - 1] == '}'
  {
    BraceSpanMeaning(Clean(text));
  }

  /** What extraction returns holds no fence. */
  lemma ExtractJsonNoFence(text: string)
    ensures ExtractJson(text).Ok? ==> !Contains(ExtractJson(text).value, Fence)
  {
    var t := Clean(text);
    if BraceSpan(t).Ok? {
      BracePairBounds(t);
      var f, l := FirstIndex(t, '{').value, LastIndex(t, '}').value;
      assert ExtractJson(text).value == t[f..l + 1];
      SliceNoFence(t, f, l + 1);
      NoFenceNotContains(t[f..l + 1]);
    }
  }


  /** A text that does not open with a backtick does not open with a fence. */
  lemma NoFenceFirst(s: string)
    requires |s| > 0 && s[0] != '`'
    ensures !StartsWith(s, Fence)
  {
    if |s| >= 3 {
      assert s[..3][0] == s[0];
    }
  }

  /** Fence-line deletion keeps a first character that is not a backtick. */
  lemma StripFenceLinesStep(s: string)
    requires |s| > 0 && s[0] != '`'
    ensures StripFenceLines(s) == [s[0]] + StripFenceLines(s[1..])
  {
    NoFenceFirst(s);
  }

  /** Fence deletion keeps a first character that is not a backtick. */
  lemma RemoveFencesStep(s: string)
    requires |s| > 0 && s[0] != '`'
    ensures RemoveFences(s) == [s[0]] + RemoveFences(s[1..])
  {
    NoFenceFirst(s);
  }

  /** A text without backticks is left alone by fence-line deletion. */
  lemma {:induction false} StripFenceLinesPlain(a: string, b: string)
    requires '`' !in a
    ensures StripFenceLines(a + b) == a + StripFenceLines(b)
    decreases |a|
  {
    if |a| > 0 {
      assert StripFenceLines(a + b) == [a[0]] + StripFenceLines(a[1..] + b) by {
        var s := a + b;
        assert a[0] in a && s[0] == a[0] && s[1..] == a[1..] + b;
        StripFenceLinesStep(s);
      }
      assert StripFenceLines(a[1..] + b) == a[1..] + StripFenceLines(b) by {
        assert '`' !in a[1..] by {
          forall k | 0 <= k < |a[1..]| ensures a[1..][k] != '`' { assert a[1..][k] == a[k + 1]; }
        }
        StripFenceLinesPlain(a[1..], b);
      }
      assert a == [a[0]] + a[1..];
      AppendAssoc([a[0]], a[1..], StripFenceLines(b));
    } else {
      assert a + b == b;
    }
  }

  /** A text without backticks is left alone by fence deletion. */
  lemma {:induction false} RemoveFencesPlain(a: string, b: string)
    requires '`' !in a
    ensures RemoveFences(a + b) == a + RemoveFences(b)
    decreases |a|
  {
    if |a| > 0 {
      assert RemoveFences(a + b) == [a[0]] + RemoveFences(a[1..] + b) by {
        var s := a + b;
        assert a[0] in a;
        assert s[0] == a[0];
        RemoveFencesStep(s);
        assert s[1..] == a[1..] + b;
      }
      assert '`' !in a[1..] by {
        forall k | 0 <= k < |a[1..]| ensures a[1..][k] != '`' { assert a[1..][k] == a[k + 1]; }
      }
      RemoveFencesPlain(a[1..], b);
      assert a == [a[0]] + a[1..];
    } else {
      assert a + b == b;
    }
  }

  /** The reply shape the prompt asks for: a fenced block "```<lang>\n<json>\n```". */
  function Fenced(lang: string, json: string): string {
    Fence + lang + "\n" + json + "\n" + Fence
  }

  /** A fence line at the front is deleted whole. */
  lemma StripFenceHead(lang: string, rest: string)
    requires '\n' !in lang
    ensures StripFenceLines(Fence + lang + "\n" + rest) == StripFenceLines(rest)
  {
    var s := Fence + lang + "\n" + rest;
    var after := lang + "\n" + rest;
    assert s == Fence + after;
    assert s[..3] == Fence && s[3..] == after;
    assert after[..|lang|] == lang && after[|lang|] == '\n';
    FirstIndexIs(after, '\n', |lang|);
    assert s[3 + |lang| + 1..] == rest;
  }

  /** A closing fence with no newline after it survives fence-line deletion
      and is removed by fence deletion. */
  lemma ClosingFence()
    ensures StripFenceLines("\n" + Fence) == "\n" + Fence
    ensures RemoveFences(Fence) == ""
  {
    assert ("\n" + Fence)[1..] == Fence;
    assert FirstIndex(Fence[3..], '\n') == None;
    assert StripFenceLines(Fence[2..]) == Fence[2..];
    assert StripFenceLines(Fence[1..]) == Fence[1..];
    assert StripFenceLines(Fence) == Fence;
    assert Fence[..3] == Fence;
  }

  /** The cleaned form of a fenced block is its body and a newline. */
  lemma CleanFenced(lang: string, json: string)
    requires '\n' !in lang && '`' !in json
    ensures Clean(Fenced(lang, json)) == json + "\n"
  {
    var tail := "\n" + Fence;
    assert Fenced(lang, json) == Fence + lang + "\n" + (json + tail);
    StripFenceHead(lang, json + tail);
    StripFenceLinesPlain(json, tail);
    ClosingFence();
    assert json + tail == (json + "\n") + Fence;
    assert '`' !in json + "\n";
    RemoveFencesPlain(json + "\n", Fence);
    assert json + "\n" + "" == json + "\n";
  }

  /** A JSON object wrapped in a code fence is returned exactly. */
  lemma ExtractFenced(lang: string, json: string)
    requires '\n' !in lang && '`' !in json
    requires |json| > 0 && json[0] == '{' && json[|json| - 1] == '}'
    ensures ExtractJson(Fenced(lang, json)) == Ok(json)
  {
    CleanFenced(lang, json);
    var t := json + "\n";
    assert t[0] == '{';
    assert t[|json| - 1] == '}' && t[|json|..] == "\n";
    LastIndexIs(t, '}', |json| - 1);
    assert t[0..|json|] == json;
  }
}
