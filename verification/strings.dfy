/**
  The two .NET string operations the core relies on: `String.Trim()` (with
  the whitespace class of `char.IsWhiteSpace`) and `String.Split(char)`.
 */
module Strings {

  /** `char.IsWhiteSpace`: the Unicode separators plus the C0 controls
      U+0009..U+000D and the C1 control U+0085. */
  predicate IsWhiteSpace(c: char) {
    || ('\t' <= c <= '\r')
    || c == ' '
    || c == '\U{0085}'
    || c == '\U{00A0}'
    || c == '\U{1680}'
    || ('\U{2000}' <= c <= '\U{200A}')
    || c == '\U{2028}'
    || c == '\U{2029}'
    || c == '\U{202F}'
    || c == '\U{205F}'
    || c == '\U{3000}'
  }

  predicate AllWhiteSpace(s: string) {
    forall k :: 0 <= k < |s| ==> IsWhiteSpace(s[k])
  }

  function TrimStart(s: string): string
    decreases |s|
  {
    if |s| > 0 && IsWhiteSpace(s[0]) then TrimStart(s[1..]) else s
  }

  function TrimEnd(s: string): string
    decreases |s|
  {
    if |s| > 0 && IsWhiteSpace(s[|s| - 1]) then TrimEnd(s[..|s| - 1]) else s
  }

  /** `String.Trim()`: drops leading and trailing whitespace. */
  function Trim(s: string): (r: string)
    ensures r == [] || (!IsWhiteSpace(r[0]) && !IsWhiteSpace(r[|r| - 1]))
  {
    TrimEndShape(TrimStart(s));
    TrimStartShape(s);
    TrimEnd(TrimStart(s))
  }

  lemma {:induction false} TrimStartShape(s: string)
    ensures TrimStart(s) == [] || !IsWhiteSpace(TrimStart(s)[0])
    ensures exists k :: 0 <= k <= |s| && TrimStart(s) == s[k..]
    decreases |s|
  {
    if |s| > 0 && IsWhiteSpace(s[0]) {
      TrimStartShape(s[1..]);
      var k :| 0 <= k <= |s[1..]| && TrimStart(s[1..]) == s[1..][k..];
      assert TrimStart(s) == s[k + 1..];
    } else {
      assert TrimStart(s) == s[0..];
    }
  }

  lemma {:induction false} TrimEndShape(s: string)
    ensures TrimEnd(s) == [] || !IsWhiteSpace(TrimEnd(s)[|TrimEnd(s)| - 1])
    ensures TrimEnd(s) == [] || (TrimEnd(s)[0] == s[0] && |s| > 0)
    ensures TrimEnd(s) <= s
    decreases |s|
  {
    if |s| > 0 && IsWhiteSpace(s[|s| - 1]) {
      TrimEndShape(s[..|s| - 1]);
    }
  }

  /** Trim ignores whitespace added at either end. */
  lemma {:induction false} TrimIgnoresPadding(a: string, s: string, b: string)
    requires AllWhiteSpace(a) && AllWhiteSpace(b)
    ensures Trim(a + s + b) == Trim(s)
  {
    assert a + s + b == a + (s + b);
    TrimStartPrefix(a, s + b);
    TrimStartSuffix(s, b);
  }

  lemma {:induction false} TrimStartPrefix(a: string, s: string)
    requires AllWhiteSpace(a)
    ensures TrimStart(a + s) == TrimStart(s)
    decreases |a|
  {
    if |a| > 0 {
      assert (a + s)[1..] == a[1..] + s;
      TrimStartPrefix(a[1..], s);
    } else {
      assert a + s == s;
    }
  }

  lemma {:induction false} TrimEndPrefixFree(s: string, b: string)
    requires AllWhiteSpace(b)
    ensures TrimEnd(s + b) == TrimEnd(s)
    decreases |b|
  {
    if |b| > 0 {
      assert (s + b)[..|s + b| - 1] == s + b[..|b| - 1];
      TrimEndPrefixFree(s, b[..|b| - 1]);
    } else {
      assert s + b == s;
    }
  }

  lemma {:induction false} TrimStartSuffix(s: string, b: string)
    requires AllWhiteSpace(b)
    ensures TrimEnd(TrimStart(s + b)) == TrimEnd(TrimStart(s))
    decreases |s|
  {
    if |s| > 0 && IsWhiteSpace(s[0]) {
      assert (s + b)[1..] == s[1..] + b;
      TrimStartSuffix(s[1..], b);
    } else if |s| > 0 {
      assert TrimStart(s + b) == s + b;
      TrimEndPrefixFree(s, b);
    } else {
      assert s + b == b;
      TrimStartPrefix(b, []);
      assert b + [] == b;
    }
  }

  /** Trim yields the empty string exactly when the input is all whitespace. */
  lemma {:induction false} TrimEmptyIff(s: string)
    ensures Trim(s) == [] <==> AllWhiteSpace(s)
  {
    if AllWhiteSpace(s) {
      TrimIgnoresPadding(s, [], []);
      assert s + [] + [] == s;
    } else {
      var k :| 0 <= k < |s| && !IsWhiteSpace(s[k]);
      TrimKeeps(s, k);
    }
  }

  /** A non-whitespace character survives trimming. */
  lemma {:induction false} TrimKeeps(s: string, k: int)
    requires 0 <= k < |s| && !IsWhiteSpace(s[k])
    ensures Trim(s) != []
  {
    TrimStartKeeps(s, k);
    var j :| 0 <= j < |TrimStart(s)| && !IsWhiteSpace(TrimStart(s)[j]);
    TrimEndKeeps(TrimStart(s), j);
  }

  lemma {:induction false} TrimStartKeeps(s: string, k: int)
    requires 0 <= k < |s| && !IsWhiteSpace(s[k])
    ensures exists j :: 0 <= j < |TrimStart(s)| && !IsWhiteSpace(TrimStart(s)[j])
    decreases |s|
  {
    if |s| > 0 && IsWhiteSpace(s[0]) {
      TrimStartKeeps(s[1..], k - 1);
      var j :| 0 <= j < |TrimStart(s[1..])| && !IsWhiteSpace(TrimStart(s[1..])[j]);
      assert TrimStart(s) == TrimStart(s[1..]);
      assert !IsWhiteSpace(TrimStart(s)[j]);
    } else {
      assert 0 < |TrimStart(s)| && !IsWhiteSpace(TrimStart(s)[0]);
    }
  }

  lemma {:induction false} TrimEndKeeps(s: string, k: int)
    requires 0 <= k < |s| && !IsWhiteSpace(s[k])
    ensures TrimEnd(s) != []
    decreases |s|
  {
    if |s| > 0 && IsWhiteSpace(s[|s| - 1]) {
      TrimEndKeeps(s[..|s| - 1], k);
    }
  }

  /** A string with non-whitespace at both ends is its own trim. */
  lemma TrimFixed(s: string)
    requires s == [] || (!IsWhiteSpace(s[0]) && !IsWhiteSpace(s[|s| - 1]))
    ensures Trim(s) == s
  {
  }

  /** Number of occurrences of `c` in `s`. */
  function Count(s: string, c: char): nat {
    if |s| == 0 then 0 else (if s[0] == c then 1 else 0) + Count(s[1..], c)
  }

  /** `String.Split(char)`: the maximal pieces between separators, in order;
      `k` separators give `k + 1` pieces, possibly empty. */
  function Split(s: string, sep: char): (r: seq<string>)
    ensures |r| == Count(s, sep) + 1
    ensures forall i :: 0 <= i < |r| ==> sep !in r[i]
    decreases |s|
  {
    if |s| == 0 then [[]]
    else
      var rest := Split(s[1..], sep);
      if s[0] == sep then [[]] + rest
      else [[s[0]] + rest[0]] + rest[1..]
  }

  /** Re-inserting the separators between the pieces rebuilds the input. */
  function Join(pieces: seq<string>, sep: char): string
    requires |pieces| > 0
    decreases |pieces|
  {
    if |pieces| == 1 then pieces[0] else pieces[0] + [sep] + Join(pieces[1..], sep)
  }

  lemma {:induction false} SplitJoin(s: string, sep: char)
    ensures Join(Split(s, sep), sep) == s
    decreases |s|
  {
    if |s| > 0 {
      var rest := Split(s[1..], sep);
      SplitJoin(s[1..], sep);
      if s[0] == sep {
        assert ([[]] + rest)[1..] == rest;
      } else {
        var r := [[s[0]] + rest[0]] + rest[1..];
        if |rest| > 1 {
          assert r[1..] == rest[1..];
        }
      }
    }
  }

  /** A string with exactly one separator splits into the text before and after it. */
  lemma {:induction false} SplitAtOnlySeparator(a: string, b: string, sep: char)
    requires sep !in a && sep !in b
    ensures Split(a + [sep] + b, sep) == [a, b]
    decreases |a|
  {
    if |a| == 0 {
      assert a + [sep] + b == [sep] + b;
      assert ([sep] + b)[1..] == b;
      SplitNoSeparator(b, sep);
    } else {
      assert (a + [sep] + b)[1..] == a[1..] + [sep] + b;
      SplitAtOnlySeparator(a[1..], b, sep);
      assert [a[0]] + a[1..] == a;
    }
  }

  lemma {:induction false} SplitNoSeparator(s: string, sep: char)
    requires sep !in s
    ensures Split(s, sep) == [s]
    decreases |s|
  {
    if |s| > 0 {
      SplitNoSeparator(s[1..], sep);
      assert [s[0]] + s[1..] == s;
    }
  }

  lemma {:induction false} CountAppend(a: string, b: string, c: char)
    ensures Count(a + b, c) == Count(a, c) + Count(b, c)
    decreases |a|
  {
    if |a| == 0 {
      assert a + b == b;
    } else {
      assert (a + b)[1..] == a[1..] + b;
      CountAppend(a[1..], b, c);
    }
  }

  lemma {:induction false} CountAbsent(s: string, c: char)
    ensures Count(s, c) == 0 <==> c !in s
    decreases |s|
  {
    if |s| > 0 {
      CountAbsent(s[1..], c);
      assert s == [s[0]] + s[1..];
    }
  }
}
