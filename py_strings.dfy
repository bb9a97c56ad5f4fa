/** Python `str` operations used by the policy builder, over Dafny strings.
    Character classes follow Python restricted to ASCII: `isalnum`, `lower`,
    `strip` and the regex classes `\d` and `\s` are given their ASCII meaning. */
module PyStrings {

  // ---------------------------------------------------------------------
  // Character classes
  // ---------------------------------------------------------------------

  predicate IsDigit(c: char) { '0' <= c <= '9' }

  predicate IsLetter(c: char) { 'a' <= c <= 'z' || 'A' <= c <= 'Z' }

  predicate IsAlnumChar(c: char) { IsDigit(c) || IsLetter(c) }

  /** Python's `str.isspace` on ASCII: space, \t \n \v \f \r and the separators \x1c-\x1f. */
  predicate IsSpace(c: char) {
    c == ' ' || c == '\t' || c == '\n' || c == '\r' || c == '\U{000B}' || c == '\U{000C}'
    || ('\U{001C}' <= c <= '\U{001F}')
  }

  function LowerChar(c: char): (r: char)
    ensures IsLetter(c) ==> 'a' <= r <= 'z'
    ensures !('A' <= c <= 'Z') ==> r == c
  {
    if 'A' <= c <= 'Z' then (c as int + 32) as char else c
  }

  // ---------------------------------------------------------------------
  // Substrings
  // ---------------------------------------------------------------------

  predicate StartsWith(s: string, prefix: string) {
    |prefix| <= |s| && s[..|prefix|] == prefix
  }

  lemma StartsWithConcat(prefix: string, rest: string)
    ensures StartsWith(prefix + rest, prefix)
  {
    assert (prefix + rest)[..|prefix|] == prefix;
  }

  /** Python's `sub in s`. */
  predicate Contains(s: string, sub: string) {
    exists i :: 0 <= i <= |s| && StartsWith(s[i..], sub)
  }

  lemma ContainsAt(s: string, sub: string, i: nat)
    requires i + |sub| <= |s| && s[i..i + |sub|] == sub
    ensures Contains(s, sub)
  {
    assert StartsWith(s[i..], sub);
  }

  /** A substring of a substring is a substring. */
  lemma {:induction false} ContainsTransitive(s: string, mid: string, sub: string)
    requires Contains(s, mid) && Contains(mid, sub)
    ensures Contains(s, sub)
  {
    var i :| 0 <= i <= |s| && StartsWith(s[i..], mid);
    var j :| 0 <= j <= |mid| && StartsWith(mid[j..], sub);
    assert s[i + j..][..|sub|] == mid[j..][..|sub|];
    assert StartsWith(s[i + j..], sub);
  }

  lemma ContainsInConcat(a: string, b: string, sub: string)
    requires Contains(a, sub) || Contains(b, sub)
    ensures Contains(a + b, sub)
  {
    if Contains(a, sub) {
      var i :| 0 <= i <= |a| && StartsWith(a[i..], sub);
      assert (a + b)[i..][..|sub|] == a[i..][..|sub|];
      assert StartsWith((a + b)[i..], sub);
    } else {
      var i :| 0 <= i <= |b| && StartsWith(b[i..], sub);
      assert (a + b)[|a| + i..] == b[i..];
      assert StartsWith((a + b)[|a| + i..], sub);
    }
  }

  lemma ContainsMiddle(a: string, b: string, c: string)
    ensures Contains(a + b + c, b)
  {
    assert (a + b + c)[|a|..][..|b|] == b;
    assert StartsWith((a + b + c)[|a|..], b);
  }

  /** What a prefix contains, the whole string contains. */
  lemma ContainsViaPrefix(s: string, prefix: string, sub: string)
    requires StartsWith(s, prefix) && Contains(prefix, sub)
    ensures Contains(s, sub)
  {
    assert s == prefix + s[|prefix|..];
    ContainsInConcat(prefix, s[|prefix|..], sub);
  }

  /** Regrouping a concatenation; a hint where the solver would search for it. */
  lemma AppendAssoc(a: string, b: string, c: string)
    ensures a + b + c == a + (b + c)
  {
  }

  /** A string lacking one of a pattern's characters does not contain the pattern. */
  lemma MissingChar(s: string, sub: string, x: char)
    requires x in sub && x !in s
    ensures !Contains(s, sub)
  {
  }

  /** The concatenation of `f(x)` for each `x` of `xs`, in order. */
  function ConcatMap<T>(xs: seq<T>, f: T -> string): string
  {
    if |xs| == 0 then "" else ConcatMap(xs[..|xs| - 1], f) + f(xs[|xs| - 1])
  }

  lemma {:induction false} ConcatMapAppend<T>(a: seq<T>, b: seq<T>, f: T -> string)
    ensures ConcatMap(a + b, f) == ConcatMap(a, f) + ConcatMap(b, f)
    decreases |b|
  {
    if |b| == 0 {
      assert a + b == a;
    } else {
      assert (a + b)[..|a + b| - 1] == a + b[..|b| - 1];
      ConcatMapAppend(a, b[..|b| - 1], f);
    }
  }

  /** Each piece occurs in the concatenation. */
  lemma ConcatMapContains<T>(xs: seq<T>, f: T -> string, i: nat)
    requires i < |xs|
    ensures Contains(ConcatMap(xs, f), f(xs[i]))
  {
    var before, piece, after := ConcatMap(xs[..i], f), f(xs[i]), ConcatMap(xs[i + 1..], f);
    assert xs[..i + 1][..i] == xs[..i];
    assert ConcatMap(xs[..i + 1], f) == before + piece;
    ConcatMapAppend(xs[..i + 1], xs[i + 1..], f);
    assert xs[..i + 1] + xs[i + 1..] == xs;
    assert ConcatMap(xs, f) == before + piece + after;
    ContainsMiddle(before, piece, after);
  }

  // ---------------------------------------------------------------------
  // lower, strip, isalnum, replace
  // ---------------------------------------------------------------------

  /** Python's `str.lower`, on ASCII letters. */
  function Lower(s: string): (r: string)
    ensures |r| == |s|
    ensures forall i :: 0 <= i < |s| ==> r[i] == LowerChar(s[i])
  {
    seq(|s|, i requires 0 <= i < |s| => LowerChar(s[i]))
  }

  lemma LowerConcat(a: string, b: string)
    ensures Lower(a + b) == Lower(a) + Lower(b)
  {
  }

  function TrimLeft(s: string): (r: string)
    ensures |r| <= |s| && r == s[|s| - |r|..]
    ensures |r| > 0 ==> !IsSpace(r[0])
    ensures forall i :: 0 <= i < |s| - |r| ==> IsSpace(s[i])
  {
    if |s| > 0 && IsSpace(s[0]) then TrimLeft(s[1..]) else s
  }

  function TrimRight(s: string): (r: string)
    ensures |r| <= |s| && r == s[..|r|]
    ensures |r| > 0 ==> !IsSpace(r[|r| - 1])
    ensures forall i :: |r| <= i < |s| ==> IsSpace(s[i])
  {
    if |s| > 0 && IsSpace(s[|s| - 1]) then TrimRight(s[..|s| - 1]) else s
  }

  /** Python's `str.strip()`: drops leading and trailing whitespace. */
  function Strip(s: string): (r: string)
    ensures |r| > 0 ==> !IsSpace(r[0]) && !IsSpace(r[|r| - 1])
  {
    TrimRight(TrimLeft(s))
  }

  /** Stripping a stripped string changes nothing. */
  lemma StripIdempotent(s: string)
    ensures Strip(Strip(s)) == Strip(s)
  {
    var r := Strip(s);
    if |r| > 0 {
      assert TrimLeft(r) == r;
      assert TrimRight(r) == r;
    } else {
      assert TrimLeft(r) == r;
    }
  }

  /** Python's `str.isalnum`: non-empty and every character a letter or digit. */
  predicate IsAlnum(s: string) {
    |s| > 0 && forall i :: 0 <= i < |s| ==> IsAlnumChar(s[i])
  }

  /** Python's `s.replace(c, r)` for a one-character pattern `c`. */
  function ReplaceChar(s: string, c: char, r: string): (out: string)
    ensures c !in r ==> c !in out
  {
    if |s| == 0 then ""
    else (if s[0] == c then r else [s[0]]) + ReplaceChar(s[1..], c, r)
  }

  lemma {:induction false} ReplaceCharConcat(a: string, b: string, c: char, r: string)
    ensures ReplaceChar(a + b, c, r) == ReplaceChar(a, c, r) + ReplaceChar(b, c, r)
  {
    if |a| == 0 {
      assert a + b == b;
    } else {
      assert (a + b)[1..] == a[1..] + b;
      ReplaceCharConcat(a[1..], b, c, r);
    }
  }

  /** Deleting a character keeps exactly the other characters. */
  lemma {:induction false} DeleteCharMembers(s: string, c: char, x: char)
    ensures x in ReplaceChar(s, c, "") <==> x in s && x != c
  {
    if |s| > 0 {
      DeleteCharMembers(s[1..], c, x);
      assert s == [s[0]] + s[1..];
    }
  }

  /** Replacing `c` by `r` leaves only characters of `s` other than `c`, or of `r`. */
  lemma {:induction false} ReplaceCharMembers(s: string, c: char, r: string, x: char)
    ensures x in ReplaceChar(s, c, r) ==> (x in s && x != c) || x in r
  {
    if |s| > 0 {
      ReplaceCharMembers(s[1..], c, r, x);
      assert s == [s[0]] + s[1..];
    }
  }

  /** On one character, the replacement is `r` for `c` and the character otherwise. */
  lemma ReplaceCharSingle(x: char, c: char, r: string)
    ensures ReplaceChar([x], c, r) == if x == c then r else [x]
  {
    assert [x][1..] == "";
  }

  /** Replacing a character that does not occur changes nothing. */
  lemma {:induction false} ReplaceCharAbsent(s: string, c: char, r: string)
    requires c !in s
    ensures ReplaceChar(s, c, r) == s
  {
    if |s| > 0 {
      assert c !in s[1..];
      ReplaceCharAbsent(s[1..], c, r);
    }
  }

  // ---------------------------------------------------------------------
  // join, split, lines
  // ---------------------------------------------------------------------

  /** Python's `sep.join(parts)`. */
  function Join(sep: string, parts: seq<string>): string
  {
    if |parts| == 0 then ""
    else if |parts| == 1 then parts[0]
    else parts[0] + sep + Join(sep, parts[1..])
  }

  lemma {:induction false} JoinAppend(sep: string, a: seq<string>, b: seq<string>)
    requires |a| > 0 && |b| > 0
    ensures Join(sep, a + b) == Join(sep, a) + sep + Join(sep, b)
  {
    if |a| == 1 {
      assert (a + b)[1..] == b;
    } else {
      assert (a + b)[1..] == a[1..] + b;
      JoinAppend(sep, a[1..], b);
    }
  }

  /** Python's `s.split(sep)` for a one-character separator: one more piece than
      there are separators, and no piece contains the separator. */
  function Split(s: string, sep: char): (r: seq<string>)
    ensures |r| >= 1
    ensures forall k :: 0 <= k < |r| ==> sep !in r[k]
  {
    if |s| == 0 then [""]
    else
      var rest := Split(s[1..], sep);
      if s[0] == sep then [""] + rest
      else [[s[0]] + rest[0]] + rest[1..]
  }

  /** Joining the pieces with the separator gives back the original string. */
  lemma {:induction false} SplitJoin(s: string, sep: char)
    ensures Join([sep], Split(s, sep)) == s
  {
    if |s| > 0 {
      var rest := Split(s[1..], sep);
      SplitJoin(s[1..], sep);
      if s[0] == sep {
        assert Join([sep], [""] + rest) == "" + [sep] + Join([sep], rest) by {
          assert ([""] + rest)[1..] == rest;
        }
      } else {
        var parts := [[s[0]] + rest[0]] + rest[1..];
        if |rest| == 1 {
          assert Join([sep], parts) == [s[0]] + rest[0];
        } else {
          assert parts[1..] == rest[1..];
          assert Join([sep], rest) == rest[0] + [sep] + Join([sep], rest[1..]);
        }
      }
    }
  }

  /** Every piece produced by Split occurs in the original string. */
  lemma {:induction false} SplitPiecesOccur(s: string, sep: char, k: nat)
    requires k < |Split(s, sep)|
    ensures Contains(s, Split(s, sep)[k])
  {
    if |s| == 0 {
      assert StartsWith(s[0..], "");
    } else {
      var rest := Split(s[1..], sep);
      if s[0] == sep {
        if k == 0 {
          assert StartsWith(s[0..], "");
        } else {
          SplitPiecesOccur(s[1..], sep, k - 1);
          ContainsInConcat([s[0]], s[1..], rest[k - 1]);
          assert [s[0]] + s[1..] == s;
        }
      } else {
        if k == 0 {
          var p := [s[0]] + rest[0];
          SplitPiecesOccur(s[1..], sep, 0);
          var i :| 0 <= i <= |s[1..]| && StartsWith(s[1..][i..], rest[0]);
          SplitFirstPieceIsPrefix(s[1..], sep);
          assert StartsWith(s[1..], rest[0]);
          assert s[..|p|] == p;
          assert StartsWith(s[0..], p);
        } else {
          SplitPiecesOccur(s[1..], sep, k);
          ContainsInConcat([s[0]], s[1..], rest[k]);
          assert [s[0]] + s[1..] == s;
        }
      }
    }
  }

  lemma {:induction false} SplitFirstPieceIsPrefix(s: string, sep: char)
    ensures StartsWith(s, Split(s, sep)[0])
  {
    if |s| > 0 && s[0] != sep {
      SplitFirstPieceIsPrefix(s[1..], sep);
    }
  }

  /** The text of `lines`, each followed by a newline. */
  function Unlines(lines: seq<string>): string
  {
    if |lines| == 0 then "" else lines[0] + "\n" + Unlines(lines[1..])
  }

  lemma {:induction false} UnlinesAppend(a: seq<string>, b: seq<string>)
    ensures Unlines(a + b) == Unlines(a) + Unlines(b)
  {
    if |a| == 0 {
      assert a + b == b;
    } else {
      assert (a + b)[1..] == a[1..] + b;
      UnlinesAppend(a[1..], b);
    }
  }

  // ---------------------------------------------------------------------
  // Numbers as text
  // ---------------------------------------------------------------------

  function DigitChar(d: nat): (c: char)
    requires d < 10
    ensures IsDigit(c)
  {
    ('0' as int + d) as char
  }

  /** Python's `str(n)` for a natural number. */
  function NatToString(n: nat): (s: string)
    ensures |s| > 0
    ensures forall i :: 0 <= i < |s| ==> IsDigit(s[i])
    decreases n
  {
    if n < 10 then [DigitChar(n)] else NatToString(n / 10) + [DigitChar(n % 10)]
  }

  /** Python's `int(s)` for a string of ASCII digits (leading zeros allowed). */
  function ParseDigits(s: string): nat
    requires forall i :: 0 <= i < |s| ==> IsDigit(s[i])
  {
    if |s| == 0 then 0
    else
      assert IsDigit(s[|s| - 1]);
      ParseDigits(s[..|s| - 1]) * 10 + (s[|s| - 1] as int - '0' as int)
  }

  lemma {:induction false} ParseNatToString(n: nat)
    ensures ParseDigits(NatToString(n)) == n
    decreases n
  {
    if n >= 10 {
      var s := NatToString(n);
      assert s[..|s| - 1] == NatToString(n / 10);
      ParseNatToString(n / 10);
    }
  }

  // ---------------------------------------------------------------------
  // Ordering and sorting (Python compares strings by code point)
  // ---------------------------------------------------------------------

  /** Python's `a < b` on strings: lexicographic by code point, a proper prefix first. */
  predicate StrLess(a: string, b: string)
    decreases |a|
  {
    if |b| == 0 then false
    else if |a| == 0 then true
    else if a[0] != b[0] then a[0] < b[0]
    else StrLess(a[1..], b[1..])
  }

  lemma {:induction false} StrLessIrreflexive(a: string)
    ensures !StrLess(a, a)
  {
    if |a| > 0 { StrLessIrreflexive(a[1..]); }
  }

  lemma {:induction false} StrLessTransitive(a: string, b: string, c: string)
    requires StrLess(a, b) && StrLess(b, c)
    ensures StrLess(a, c)
    decreases |a|
  {
    if |a| > 0 && a[0] == b[0] && b[0] == c[0] {
      StrLessTransitive(a[1..], b[1..], c[1..]);
    }
  }

  lemma {:induction false} StrLessTotal(a: string, b: string)
    ensures a == b || StrLess(a, b) || StrLess(b, a)
    decreases |a|
  {
    if |a| > 0 && |b| > 0 && a[0] == b[0] {
      StrLessTotal(a[1..], b[1..]);
      if a[1..] == b[1..] {
        assert a == [a[0]] + a[1..] && b == [b[0]] + b[1..];
      }
    }
  }

  predicate Sorted(s: seq<string>) {
    forall i, j :: 0 <= i < j < |s| ==> !StrLess(s[j], s[i])
  }

  function Insert(x: string, s: seq<string>): (r: seq<string>)
    requires Sorted(s)
    ensures Sorted(r) && multiset(r) == multiset(s) + multiset{x}
  {
    if |s| == 0 then [x]
    else if !StrLess(s[0], x) then
      InsertFrontSorted(x, s);
      [x] + s
    else
      var t := Insert(x, s[1..]);
      assert s == [s[0]] + s[1..];
      InsertBehindSorted(x, s, t);
      [s[0]] + t
  }

  lemma InsertFrontSorted(x: string, s: seq<string>)
    requires Sorted(s) && |s| > 0 && !StrLess(s[0], x)
    ensures Sorted([x] + s)
  {
    forall i, j | 0 <= i < j < |[x] + s| ensures !StrLess(([x] + s)[j], ([x] + s)[i]) {
      if i == 0 {
        var y := s[j - 1];
        if StrLess(y, x) {
          if y != s[0] {
            assert !StrLess(y, s[0]);
            StrLessTotal(y, s[0]);
            StrLessTransitive(s[0], y, x);
          }
        }
      }
    }
  }

  lemma InsertBehindSorted(x: string, s: seq<string>, t: seq<string>)
    requires Sorted(s) && |s| > 0 && StrLess(s[0], x)
    requires Sorted(t) && multiset(t) == multiset(s[1..]) + multiset{x}
    ensures Sorted([s[0]] + t)
  {
    forall j | 0 <= j < |t| ensures !StrLess(t[j], s[0]) {
      assert t[j] in multiset(t);
      if t[j] == x {
        StrLessIrreflexive(s[0]);
        if StrLess(x, s[0]) { StrLessTransitive(x, s[0], x); StrLessIrreflexive(x); }
      } else {
        assert t[j] in multiset(s[1..]);
        var k :| 0 <= k < |s[1..]| && s[1..][k] == t[j];
        assert s[k + 1] == t[j];
      }
    }
  }

  /** Python's `sorted(...)` on a list of strings (insertion sort). */
  function SortStrings(s: seq<string>): (r: seq<string>)
    ensures Sorted(r) && multiset(r) == multiset(s)
  {
    if |s| == 0 then []
    else
      assert s == [s[0]] + s[1..];
      Insert(s[0], SortStrings(s[1..]))
  }

  // ---------------------------------------------------------------------
  // Distinct elements
  // ---------------------------------------------------------------------

  /** The distinct elements of `s`, each once, in order of first occurrence. */
  function Distinct<T(==,!new)>(s: seq<T>): (r: seq<T>)
    ensures forall x :: x in r <==> x in s
    ensures forall i, j :: 0 <= i < j < |r| ==> r[i] != r[j]
    ensures |r| <= |s|
  {
    if |s| == 0 then []
    else
      var d := Distinct(s[..|s| - 1]);
      assert forall x :: x in s <==> x in s[..|s| - 1] || x == s[|s| - 1];
      if s[|s| - 1] in d then d else d + [s[|s| - 1]]
  }
}
