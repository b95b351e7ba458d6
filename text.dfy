/** String helpers with the exact semantics of the Java and JavaScript library
    calls the plugin relies on (indexOf, split, trim, replace). */
module Text {

  predicate StartsWith(s: string, prefix: string) {
    |prefix| <= |s| && s[..|prefix|] == prefix
  }

  predicate EndsWith(s: string, suffix: string) {
    |suffix| <= |s| && s[|s| - |suffix|..] == suffix
  }

  /** True when `sub` occurs in `s` starting at index `k`. */
  predicate OccursAt(s: string, sub: string, k: int) {
    0 <= k && k + |sub| <= |s| && s[k..k + |sub|] == sub
  }

  lemma AppendAssoc<T>(a: seq<T>, b: seq<T>, c: seq<T>)
    ensures a + (b + c) == (a + b) + c
  {
  }

  /** A prefix is the shorter prefix and its last element. */
  lemma TakeSnoc<T>(s: seq<T>, n: nat)
    requires 0 < n <= |s|
    ensures s[..n - 1] + [s[n - 1]] == s[..n]
  {
  }

  /** An occurrence starts with the first character of what occurs. */
  lemma OccursAtFirst(s: string, sub: string, k: int)
    ensures OccursAt(s, sub, k) && sub != [] ==> s[k] == sub[0]
  {
    if OccursAt(s, sub, k) && sub != [] {
      assert s[k..k + |sub|][0] == s[k];
    }
  }

  function Max(a: int, b: int): int { if a < b then b else a }

  /** `s.indexOf(sub, from)` in Java and JavaScript: the first occurrence at or
      after `from` (a negative `from` counts as 0), or -1. */
  function IndexOfFrom(s: string, sub: string, from: int): (r: int)
    ensures r == -1 || (Max(from, 0) <= r && OccursAt(s, sub, r))
    ensures r == -1 ==> forall k :: Max(from, 0) <= k ==> !OccursAt(s, sub, k)
    ensures r != -1 ==> forall k :: Max(from, 0) <= k < r ==> !OccursAt(s, sub, k)
    decreases |s| - from
  {
    if from < 0 then IndexOfFrom(s, sub, 0)
    else if from + |sub| > |s| then -1
    else if s[from..from + |sub|] == sub then from
    else IndexOfFrom(s, sub, from + 1)
  }

  function IndexOf(s: string, sub: string): (r: int)
    ensures r == -1 || OccursAt(s, sub, r)
    ensures r == -1 ==> forall k :: !OccursAt(s, sub, k)
    ensures r != -1 ==> forall k :: k < r ==> !OccursAt(s, sub, k)
  {
    IndexOfFrom(s, sub, 0)
  }

  /** The first occurrence is at `k` when there is one at `k` and none
      before. */
  lemma IndexOfIs(s: string, sub: string, k: nat)
    requires OccursAt(s, sub, k)
    requires forall j :: 0 <= j < k ==> !OccursAt(s, sub, j)
    ensures IndexOf(s, sub) == k
  {
  }

  /** `s.replace(from, to)` for one character in Java, and the JavaScript
      `s.replace(/x/g, y)` for a single-character pattern. */
  function ReplaceChar(s: string, from: char, to: char): (r: string)
    ensures |r| == |s|
    ensures forall i :: 0 <= i < |s| ==> r[i] == (if s[i] == from then to else s[i])
  {
    if s == [] then [] else [if s[0] == from then to else s[0]] + ReplaceChar(s[1..], from, to)
  }

  /** JavaScript `s.split(c)`: every piece, empty ones included. */
  function SplitOn(s: string, c: char): (r: seq<string>)
    ensures |r| > 0
    ensures forall i :: 0 <= i < |r| ==> c !in r[i]
  {
    if s == [] then [""]
    else
      var rest := SplitOn(s[1..], c);
      if s[0] == c then [""] + rest else [[s[0]] + rest[0]] + rest[1..]
  }

  function Join(parts: seq<string>, sep: char): string {
    if |parts| == 0 then ""
    else if |parts| == 1 then parts[0]
    else parts[0] + [sep] + Join(parts[1..], sep)
  }

  /** Three parts joined. */
  lemma JoinThree(a: string, b: string, c: string, sep: char)
    ensures Join([a, b, c], sep) == a + [sep] + b + [sep] + c
  {
    assert [a, b, c][1..] == [b, c];
    assert Join([b, c], sep) == b + [sep] + c;
    AppendAssoc(a + [sep], b + [sep], c);
    AppendAssoc(a + [sep], b, [sep]);
  }

  lemma {:induction false} JoinSplit(s: string, c: char)
    ensures Join(SplitOn(s, c), c) == s
  {
    if s != [] {
      JoinSplit(s[1..], c);
      var rest := SplitOn(s[1..], c);
      if s[0] == c {
        assert Join([""] + rest, c) == [c] + Join(rest, c);
      } else {
        var r := [[s[0]] + rest[0]] + rest[1..];
        if |rest| == 1 {
          assert Join(r, c) == [s[0]] + rest[0];
        } else {
          assert r[1..] == rest[1..];
          assert Join(r, c) == [s[0]] + rest[0] + [c] + Join(rest[1..], c);
        }
      }
    }
  }

  /** Drops the empty strings at the end of a piece list. */
  function DropTrailingEmpty(parts: seq<string>): (r: seq<string>)
    ensures |r| <= |parts| && r == parts[..|r|]
    ensures |r| > 0 ==> r[|r| - 1] != ""
    ensures forall i :: |r| <= i < |parts| ==> parts[i] == ""
  {
    if |parts| == 0 then []
    else if parts[|parts| - 1] == "" then DropTrailingEmpty(parts[..|parts| - 1])
    else parts
  }

  /** Java `s.split(c)` for a single non-special character: trailing empty
      strings are removed, and a string without the character is returned
      as the only element. */
  function JavaSplit(s: string, c: char): seq<string> {
    if c !in s then [s] else DropTrailingEmpty(SplitOn(s, c))
  }

  lemma {:induction false} SplitOnOnly(s: string, c: char)
    requires forall i :: 0 <= i < |s| ==> s[i] == c
    ensures forall i :: 0 <= i < |SplitOn(s, c)| ==> SplitOn(s, c)[i] == ""
  {
    if s != [] {
      SplitOnOnly(s[1..], c);
    }
  }

  /** A non-empty string made of the separator only splits into nothing. */
  lemma JavaSplitOfSeparatorsOnly(s: string, c: char)
    requires |s| > 0 && forall i :: 0 <= i < |s| ==> s[i] == c
    ensures JavaSplit(s, c) == []
  {
    assert s[0] == c;
    SplitOnOnly(s, c);
  }

  /** The token splitter of TeamCity's StringUtil.split(s, separator): the
      separator is excluded and empty tokens are dropped. */
  function SplitTokensFrom(s: string, sep: string, pos: nat): (r: seq<string>)
    requires |sep| > 0 && pos <= |s|
    ensures forall i :: 0 <= i < |r| ==> r[i] != ""
    decreases |s| - pos
  {
    var idx := IndexOfFrom(s, sep, pos);
    if idx == -1 then (if pos < |s| then [s[pos..]] else [])
    else
      var token := s[pos..idx];
      (if token == "" then [] else [token]) + SplitTokensFrom(s, sep, idx + |sep|)
  }

  function SplitTokens(s: string, sep: string): seq<string>
    requires |sep| > 0
  {
    SplitTokensFrom(s, sep, 0)
  }

  /** The characters JavaScript's String.prototype.trim removes
      (WhiteSpace and LineTerminator of ECMA-262). */
  predicate IsJsWhitespace(c: char) {
    c == '\t' || c == '\n' || c == '\U{000B}' || c == '\U{000C}' || c == '\r' || c == ' '
    || c == '\U{00A0}' || c == '\U{1680}' || ('\U{2000}' <= c <= '\U{200A}')
    || c == '\U{2028}' || c == '\U{2029}' || c == '\U{202F}' || c == '\U{205F}'
    || c == '\U{3000}' || c == '\U{FEFF}'
  }

  function TrimStart(s: string): string {
    if s != [] && IsJsWhitespace(s[0]) then TrimStart(s[1..]) else s
  }

  function TrimEnd(s: string): string {
    if s != [] && IsJsWhitespace(s[|s| - 1]) then TrimEnd(s[..|s| - 1]) else s
  }

  /** trimStart drops exactly the leading white space. */
  lemma {:induction false} TrimStartSpec(s: string)
    ensures var r := TrimStart(s);
            && |r| <= |s| && r == s[|s| - |r|..]
            && (r == [] || !IsJsWhitespace(r[0]))
            && forall i :: 0 <= i < |s| - |r| ==> IsJsWhitespace(s[i])
  {
    if s != [] && IsJsWhitespace(s[0]) {
      TrimStartSpec(s[1..]);
      var r := TrimStart(s);
      forall i | 0 <= i < |s| - |r|
        ensures IsJsWhitespace(s[i])
      {
        if i > 0 {
          assert s[i] == s[1..][i - 1];
        }
      }
    }
  }

  /** trimEnd drops exactly the trailing white space. */
  lemma {:induction false} TrimEndSpec(s: string)
    ensures var r := TrimEnd(s);
            && |r| <= |s| && r == s[..|r|]
            && (r == [] || !IsJsWhitespace(r[|r| - 1]))
            && forall i :: |r| <= i < |s| ==> IsJsWhitespace(s[i])
  {
    if s != [] && IsJsWhitespace(s[|s| - 1]) {
      TrimEndSpec(s[..|s| - 1]);
      var r := TrimEnd(s);
      forall i | |r| <= i < |s|
        ensures IsJsWhitespace(s[i])
      {
        if i < |s| - 1 {
          assert s[i] == s[..|s| - 1][i];
        }
      }
    }
  }

  /** JavaScript `s.trim()`. */
  function Trim(s: string): string {
    TrimEnd(TrimStart(s))
  }
}
