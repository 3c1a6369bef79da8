/** The string operations of JavaScript that the sources rely on, and two of its numeric ones. */
module TextTools {

  function Min(a: int, b: int): int { if a < b then a else b }
  function Max(a: int, b: int): int { if a < b then b else a }

  predicate IsDigit(c: char) { '0' <= c <= '9' }

  /** `s.split(separator)` on a non-empty separator. */
  function Split(s: string, separator: string): (parts: seq<string>)
    requires separator != ""
    ensures parts != []
    decreases |s|
  {
    if s == "" then [""]
    else if separator <= s then [""] + Split(s[|separator|..], separator)
    else
      var parts := Split(s[1..], separator);
      [[s[0]] + parts[0]] + parts[1..]
  }

  /** `parts.join(glue)`. */
  function Join(parts: seq<string>, glue: string): string {
    if parts == [] then ""
    else if |parts| == 1 then parts[0]
    else parts[0] + glue + Join(parts[1..], glue)
  }

  /** `s.indexOf(c)`, but the length of `s` stands for "not found". */
  function IndexOf(s: string, c: char): (n: nat)
    ensures n <= |s| && forall k | 0 <= k < n :: s[k] != c
    ensures n < |s| ==> s[n] == c
  {
    if s == "" || s[0] == c then 0 else 1 + IndexOf(s[1..], c)
  }

  /** `s.lastIndexOf(c)`. */
  function LastIndexOf(s: string, c: char): (i: int)
    ensures -1 <= i < |s| && forall k | i < k < |s| :: s[k] != c
    ensures 0 <= i ==> s[i] == c
  {
    if s == "" then -1
    else if s[|s| - 1] == c then |s| - 1
    else LastIndexOf(s[..|s| - 1], c)
  }

  /** White space and line terminators of sections 12.2 and 12.3 of ECMA-262. */
  predicate IsBlank(c: char) {
    || '\t' <= c <= '\r' || c == ' ' || c == '\U{A0}' || c == '\U{FEFF}'
    || c == '\U{1680}' || '\U{2000}' <= c <= '\U{200A}'
    || c in {'\U{2028}', '\U{2029}', '\U{202F}', '\U{205F}', '\U{3000}'}
  }

  predicate AllBlank(s: string) {
    forall i | 0 <= i < |s| :: IsBlank(s[i])
  }

  function BlanksBefore(s: string): (n: nat)
    ensures n <= |s| && AllBlank(s[..n])
    ensures n < |s| ==> !IsBlank(s[n])
  {
    if s == "" || !IsBlank(s[0]) then 0 else 1 + BlanksBefore(s[1..])
  }

  function BlanksBehind(s: string): (n: nat)
    ensures n <= |s| && AllBlank(s[|s| - n..])
    ensures n < |s| ==> !IsBlank(s[|s| - n - 1])
  {
    if s == "" || !IsBlank(s[|s| - 1]) then 0 else 1 + BlanksBehind(s[..|s| - 1])
  }

  /** `s.trim()`. */
  function Trim(s: string): string {
    var t := s[BlanksBefore(s)..];
    t[..|t| - BlanksBehind(t)]
  }

  function ToLower(c: char): char {
    if 'A' <= c <= 'Z' then c + ('a' - 'A') else c
  }

  /** `s.toLowerCase()` on ASCII letters. */
  function Lowered(s: string): (t: string)
    ensures |t| == |s|
    ensures forall i | 0 <= i < |s| :: t[i] == ToLower(s[i])
  {
    seq(|s|, i requires 0 <= i < |s| => ToLower(s[i]))
  }

  // ---- Laws ----

  lemma {:induction false} PrefixJoins(prefix: string, parts: seq<string>, glue: string)
    requires parts != []
    ensures Join([prefix + parts[0]] + parts[1..], glue) == prefix + Join(parts, glue)
  {
    var changed := [prefix + parts[0]] + parts[1..];
    if |parts| > 1 {
      assert changed[1..] == parts[1..];
      assert prefix + parts[0] + glue + Join(parts[1..], glue) == prefix + (parts[0] + glue + Join(parts[1..], glue));
    }
  }

  /** `separator` does not begin at any of the first `n` positions of `s`. */
  predicate NotWithin(separator: string, s: string, n: nat)
    requires n <= |s|
  {
    forall i | 0 <= i < n :: !(separator <= s[i..])
  }

  /** Splitting stops first where the separator first begins. */
  lemma {:induction false} SplitAtFirst(a: string, separator: string, b: string)
    requires separator != "" && NotWithin(separator, a + separator + b, |a|)
    ensures Split(a + separator + b, separator) == [a] + Split(b, separator)
    decreases |a|
  {
    var s := a + separator + b;
    if a == "" {
      assert separator <= s && s[|separator|..] == b;
    } else {
      var shorter := a[1..] + separator + b;
      assert s[1..] == shorter && s[0] == a[0];
      assert !(separator <= s) by { assert s[0..] == s; }
      forall i | 0 <= i < |a| - 1
        ensures !(separator <= shorter[i..])
      {
        assert shorter[i..] == s[i + 1..];
      }
      SplitAtFirst(a[1..], separator, b);
      assert ([a[1..]] + Split(b, separator))[1..] == Split(b, separator);
      assert [a[0]] + a[1..] == a;
    }
  }

  lemma {:induction false} NothingToSplit(a: string, separator: string)
    requires separator != "" && NotWithin(separator, a, |a|)
    ensures Split(a, separator) == [a]
    decreases |a|
  {
    if a != "" {
      assert !(separator <= a) by { assert a[0..] == a; }
      forall i | 0 <= i < |a| - 1
        ensures !(separator <= a[1..][i..])
      {
        assert a[1..][i..] == a[i + 1..];
      }
      NothingToSplit(a[1..], separator);
      assert [a[0]] + a[1..] == a;
    }
  }

  /** Splitting inverts joining when no part contains the separating character. */
  lemma {:induction false} SplitInvertsJoin(parts: seq<string>, c: char)
    requires parts != []
    requires forall i | 0 <= i < |parts| :: c !in parts[i]
    ensures Split(Join(parts, [c]), [c]) == parts
  {
    if |parts| == 1 {
      assert forall i | 0 <= i < |parts[0]| :: parts[0][i..][0] != c;
      NothingToSplit(parts[0], [c]);
    } else {
      var rest := Join(parts[1..], [c]);
      var s := parts[0] + [c] + rest;
      forall i | 0 <= i < |parts[0]|
        ensures !([c] <= s[i..])
      {
        assert s[i..][0] == parts[0][i];
      }
      SplitAtFirst(parts[0], [c], rest);
      SplitInvertsJoin(parts[1..], c);
    }
  }

  lemma {:induction false} LastIndexIs(s: string, c: char, i: int)
    requires -1 <= i < |s| && (0 <= i ==> s[i] == c)
    requires forall k | i < k < |s| :: s[k] != c
    ensures LastIndexOf(s, c) == i
  {
    hide LastIndexOf;
  }

  lemma {:induction false} IndexIs(s: string, c: char, n: nat)
    requires n <= |s| && (n < |s| ==> s[n] == c)
    requires forall k | 0 <= k < n :: s[k] != c
    ensures IndexOf(s, c) == n
  {
    hide IndexOf;
  }

  lemma {:induction false} LoweredConcat(a: string, b: string)
    ensures Lowered(a + b) == Lowered(a) + Lowered(b)
  {}

  /** Trimming removes the blanks at both ends and nothing else. */
  lemma BlanksAreTrimmed(before: string, s: string, behind: string)
    requires AllBlank(before) && AllBlank(behind)
    requires s != "" ==> !IsBlank(s[0]) && !IsBlank(s[|s| - 1])
    ensures Trim(before + s + behind) == s
  {
    hide BlanksBefore, BlanksBehind, IsBlank;
    var all := before + s + behind;
    var n := BlanksBefore(all);
    if s == "" {
      assert AllBlank(all);
      assert n == |all|;
    } else {
      assert all[|before|] == s[0];
      assert n == |before| by { assert forall i | 0 <= i < n :: all[i] == all[..n][i]; }
      var t := all[n..];
      assert t == s + behind;
      assert t[|s| - 1] == s[|s| - 1];
      assert forall i | 0 <= i < |behind| :: t[|s| + i] == behind[i];
      var m := BlanksBehind(t);
      assert m == |behind| by { assert forall i | |t| - m <= i < |t| :: t[i] == t[|t| - m..][i - (|t| - m)]; }
      assert t[..|t| - |behind|] == s;
    }
  }

  lemma {:induction false} TrimKeeps(s: string)
    requires s != "" ==> !IsBlank(s[0]) && !IsBlank(s[|s| - 1])
    ensures Trim(s) == s
  {}
}
