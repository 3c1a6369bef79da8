/** URL patterns: `compileGlob` turns a glob into the text of a regular expression by four text
    rewrites in a row (packages/connector-sdk/src/browser-network.ts). */
module UrlGlob {
  import opened TextTools
  import opened Wrappers

  // ---- Globs and their meaning ----

  /** `**`, `*`, and any other character. */
  datatype Token = AnyRun | SegmentRun | Plain(c: char)

  function Tokens(pattern: string): (ts: seq<Token>)
    ensures Plain('*') !in ts
  {
    if pattern == "" then []
    else if |pattern| >= 2 && pattern[..2] == "**" then [AnyRun] + Tokens(pattern[2..])
    else if pattern[0] == '*' then [SegmentRun] + Tokens(pattern[1..])
    else [Plain(pattern[0])] + Tokens(pattern[1..])
  }

  /** Section 12.3 of ECMA-262. */
  predicate IsLineTerminator(c: char) {
    c in {'\n', '\r', '\U{2028}', '\U{2029}'}
  }

  predicate OneLine(s: string) {
    '\n' !in s && '\r' !in s && '\U{2028}' !in s && '\U{2029}' !in s
  }

  /** `**` stands for any run of characters, or any within a line unless `breaks`; `*` for a run
      without slashes. */
  ghost predicate GlobMatches(ts: seq<Token>, s: string, breaks: bool)
    decreases |ts|
  {
    if ts == [] then s == ""
    else
      match ts[0]
      case Plain(c) => s != "" && s[0] == c && GlobMatches(ts[1..], s[1..], breaks)
      case _ => exists k | 0 <= k <= |s| :: IsRun(ts[0], s[..k], breaks) && GlobMatches(ts[1..], s[k..], breaks)
  }

  /** What the two wildcards may stand for. */
  predicate IsRun(t: Token, run: string, breaks: bool) {
    if t == SegmentRun then '/' !in run else breaks || OneLine(run)
  }

  /** Some substring glob-matches the pattern. */
  ghost predicate GlobFinds(pattern: string, url: string, breaks: bool) {
    exists i, j | 0 <= i <= j <= |url| :: GlobMatches(Tokens(pattern), url[i..j], breaks)
  }

  // ---- compileGlob ----

  const NUL: char := '\0'
  const MARK := [NUL] + "DOUBLE_STAR" + [NUL]

  function MarkDoubleStars(s: string): string {
    if s == "" then ""
    else if |s| >= 2 && s[..2] == "**" then MARK + MarkDoubleStars(s[2..])
    else [s[0]] + MarkDoubleStars(s[1..])
  }

  predicate IsSpecial(c: char) {
    c in {'.', '+', '^', '$', '{', '}', '(', ')', '|', '[', ']', '\\'}
  }

  function EscapeSpecials(s: string): string {
    if s == "" then ""
    else (if IsSpecial(s[0]) then ['\\', s[0]] else [s[0]]) + EscapeSpecials(s[1..])
  }

  function RewriteStars(s: string): string {
    if s == "" then ""
    else (if s[0] == '*' then "[^/]*" else [s[0]]) + RewriteStars(s[1..])
  }

  function CompileGlob(pattern: string): string {
    Join(Split(RewriteStars(EscapeSpecials(MarkDoubleStars(pattern))), MARK), ".*")
  }

  // ---- Reading the text of a regular expression ----

  datatype Atom = AnyChar | NotSlash | Char(c: char)

  datatype Item = One(atom: Atom) | Many(atom: Atom) | LazyMany(atom: Atom) | Optional(atom: Atom) |
      LazyOptional(atom: Atom)

  predicate IsSyntaxCharacter(c: char) {
    IsSpecial(c) || c == '*' || c == '?'
  }

  /** One atom of section 22.2.1 of ECMA-262: a dot, an escaped syntax character, a character that
      is not one, or the class `[^/]`; other classes and groups lie outside this reader. */
  function ReadAtom(s: string): Option<(Atom, string)> {
    if s == "" then None
    else if s[0] == '.' then Some((AnyChar, s[1..]))
    else if s[0] == '\\' then
      if |s| >= 2 && IsSyntaxCharacter(s[1]) then Some((Char(s[1]), s[2..])) else None
    else if "[^/]" <= s then Some((NotSlash, s[4..]))
    else if IsSyntaxCharacter(s[0]) then None
    else Some((Char(s[0]), s[1..]))
  }

  /** An atom and the quantifier behind it. */
  function ReadItem(s: string): (r: Option<(Item, string)>)
    ensures r.Some? ==> |r.value.1| < |s|
  {
    match ReadAtom(s)
    case None => None
    case Some((atom, rest)) =>
      if "*?" <= rest then Some((LazyMany(atom), rest[2..]))
      else if "*" <= rest then Some((Many(atom), rest[1..]))
      else if "??" <= rest then Some((LazyOptional(atom), rest[2..]))
      else if "?" <= rest then Some((Optional(atom), rest[1..]))
      else if "+" <= rest || "{" <= rest then None
      else Some((One(atom), rest))
  }

  function ReadRegex(s: string): Option<seq<Item>>
    decreases |s|
  {
    if s == "" then Some([])
    else
      match ReadItem(s)
      case None => None
      case Some((item, rest)) =>
        match ReadRegex(rest)
        case None => None
        case Some(items) => Some([item] + items)
  }

  // ---- Matching, by backtracking ----

  predicate AtomMatches(atom: Atom, c: char) {
    match atom
    case AnyChar => !IsLineTerminator(c)
    case NotSlash => c != '/'
    case Char(d) => c == d
  }

  /** A match of `items` begins at the start of `s`. */
  predicate MatchesHere(items: seq<Item>, s: string)
    decreases |items|, |s|
  {
    if items == [] then true
    else
      var first := s != "" && AtomMatches(items[0].atom, s[0]);
      match items[0]
      case One(_) => first && MatchesHere(items[1..], s[1..])
      case Many(_) => (first && MatchesHere(items, s[1..])) || MatchesHere(items[1..], s)
      case LazyMany(_) => MatchesHere(items[1..], s) || (first && MatchesHere(items, s[1..]))
      case Optional(_) => (first && MatchesHere(items[1..], s[1..])) || MatchesHere(items[1..], s)
      case LazyOptional(_) => MatchesHere(items[1..], s) || (first && MatchesHere(items[1..], s[1..]))
  }

  /** `RegExp.prototype.test`: a match begins anywhere. */
  predicate Test(items: seq<Item>, s: string) {
    exists i | 0 <= i <= |s| :: MatchesHere(items, s[i..])
  }

  predicate MatchesUrl(pattern: string, url: string) {
    var items := ReadRegex(CompileGlob(pattern));
    items.Some? && Test(items.value, url)
  }

  // ---- The four rewrites, token by token ----

  function Piece(t: Token): string {
    match t
    case AnyRun => ".*"
    case SegmentRun => "[^/]*"
    case Plain(c) => if IsSpecial(c) then ['\\', c] else [c]
  }

  function Text(ts: seq<Token>): string {
    if ts == [] then "" else Piece(ts[0]) + Text(ts[1..])
  }

  /** The piece of a token before the marks become `.*`. */
  function MarkedPiece(t: Token): string {
    if t.AnyRun? then MARK else Piece(t)
  }

  lemma {:induction false} EscapeConcat(a: string, b: string)
    ensures EscapeSpecials(a + b) == EscapeSpecials(a) + EscapeSpecials(b)
  {
    if a == "" {
      assert a + b == b;
    } else {
      assert (a + b)[1..] == a[1..] + b;
      EscapeConcat(a[1..], b);
    }
  }

  lemma {:induction false} RewriteConcat(a: string, b: string)
    ensures RewriteStars(a + b) == RewriteStars(a) + RewriteStars(b)
  {
    if a == "" {
      assert a + b == b;
    } else {
      assert (a + b)[1..] == a[1..] + b;
      RewriteConcat(a[1..], b);
    }
  }

  predicate Inert(s: string) {
    forall i | 0 <= i < |s| :: !IsSpecial(s[i]) && s[i] != '*'
  }

  lemma {:induction false} InertUnchanged(s: string)
    requires Inert(s)
    ensures EscapeSpecials(s) == s && RewriteStars(s) == s
  {
    if s != "" { InertUnchanged(s[1..]); }
  }

  lemma OneCharacter(c: char)
    ensures EscapeSpecials([c]) == if IsSpecial(c) then ['\\', c] else [c]
    ensures RewriteStars([c]) == if c == '*' then "[^/]*" else [c]
    ensures RewriteStars(['\\', c]) == ['\\'] + RewriteStars([c])
  {
    assert EscapeSpecials("") == "" && RewriteStars("") == "";
    assert ['\\', c][1..] == [c] && [c][1..] == "";
  }

  /** What a token looks like in the marked pattern. */
  function Source(t: Token): string {
    match t
    case AnyRun => MARK
    case SegmentRun => "*"
    case Plain(c) => [c]
  }

  lemma SourceRewritten(t: Token)
    requires t != Plain('*')
    ensures RewriteStars(EscapeSpecials(Source(t))) == MarkedPiece(t)
  {
    hide EscapeSpecials, RewriteStars;
    match t
    case AnyRun => InertUnchanged(MARK);
    case SegmentRun => OneCharacter('*');
    case Plain(c) => OneCharacter(c);
  }

  /** Escaping and rewriting one leading token of a marked pattern. */
  lemma FirstPiece(t: Token, rest: string)
    requires t != Plain('*')
    ensures RewriteStars(EscapeSpecials(Source(t) + rest)) == MarkedPiece(t) + RewriteStars(EscapeSpecials(rest))
  {
    hide EscapeSpecials, RewriteStars, Source, MarkedPiece;
    EscapeConcat(Source(t), rest);
    RewriteConcat(EscapeSpecials(Source(t)), EscapeSpecials(rest));
    SourceRewritten(t);
  }

  function MarkedText(ts: seq<Token>): string {
    if ts == [] then "" else MarkedPiece(ts[0]) + MarkedText(ts[1..])
  }

  lemma {:induction false} RewritesFollowTokens(pattern: string)
    ensures RewriteStars(EscapeSpecials(MarkDoubleStars(pattern))) == MarkedText(Tokens(pattern))
  {
    if pattern != "" {
      hide EscapeSpecials, RewriteStars, MarkedPiece;
      var t := Tokens(pattern)[0];
      if t == AnyRun {
        RewritesFollowTokens(pattern[2..]);
        FirstPiece(t, MarkDoubleStars(pattern[2..]));
      } else {
        RewritesFollowTokens(pattern[1..]);
        FirstPiece(t, MarkDoubleStars(pattern[1..]));
      }
    } else {
      assert EscapeSpecials("") == "" && RewriteStars("") == "";
    }
  }

  // ---- split and join replace the marks ----

  lemma MarkReplaced(rest: string)
    ensures Join(Split(MARK + rest, MARK), ".*") == ".*" + Join(Split(rest, MARK), ".*")
  {
    assert MARK <= MARK + rest && (MARK + rest)[|MARK|..] == rest;
    var parts := Split(rest, MARK);
    assert ([""] + parts)[1..] == parts;
  }

  lemma {:induction false} UnmarkedKept(s: string, rest: string)
    requires NUL !in s
    ensures Join(Split(s + rest, MARK), ".*") == s + Join(Split(rest, MARK), ".*")
  {
    if s == "" {
      assert s + rest == rest;
    } else {
      var all := s + rest;
      assert all[0] == s[0] && all[1..] == s[1..] + rest;
      assert MARK[0] == NUL;
      UnmarkedKept(s[1..], rest);
      var parts := Split(all[1..], MARK);
      PrefixJoins([s[0]], parts, ".*");
    }
  }

  lemma {:induction false} MarksBecomeRuns(ts: seq<Token>)
    requires Plain(NUL) !in ts
    ensures Join(Split(MarkedText(ts), MARK), ".*") == Text(ts)
  {
    if ts != [] {
      hide Split, Join;
      MarksBecomeRuns(ts[1..]);
      if ts[0] == AnyRun {
        MarkReplaced(MarkedText(ts[1..]));
      } else {
        UnmarkedKept(Piece(ts[0]), MarkedText(ts[1..]));
      }
    }
  }

  lemma {:induction false} TokensKeepCharacters(pattern: string, c: char)
    ensures c != '*' ==> (Plain(c) in Tokens(pattern) <==> c in pattern)
  {
    if pattern != "" {
      if Tokens(pattern)[0] == AnyRun {
        assert pattern == "**" + pattern[2..];
        TokensKeepCharacters(pattern[2..], c);
      } else {
        assert pattern == [pattern[0]] + pattern[1..];
        TokensKeepCharacters(pattern[1..], c);
      }
    }
  }

  /** The four rewrites together translate a pattern without NUL token by token. */
  lemma CompiledText(pattern: string)
    requires NUL !in pattern
    ensures CompileGlob(pattern) == Text(Tokens(pattern))
  {
    hide Split, Join, Tokens;
    RewritesFollowTokens(pattern);
    TokensKeepCharacters(pattern, NUL);
    MarksBecomeRuns(Tokens(pattern));
  }

  // ---- Reading the text back ----

  function ItemOf(t: Token): Item {
    match t
    case AnyRun => Many(AnyChar)
    case SegmentRun => Many(NotSlash)
    case Plain(c) => One(Char(c))
  }

  function Items(ts: seq<Token>): seq<Item> {
    if ts == [] then [] else [ItemOf(ts[0])] + Items(ts[1..])
  }

  /** Nothing behind a piece can be mistaken for its quantifier. */
  predicate NoQuantifier(rest: string) {
    rest == "" || rest[0] !in {'*', '?', '+', '{'}
  }

  lemma ReadPiece(t: Token, rest: string)
    requires t !in {Plain('*'), Plain('?')} && NoQuantifier(rest)
    ensures ReadItem(Piece(t) + rest) == Some((ItemOf(t), rest))
  {
    var s := Piece(t) + rest;
    match t
    case AnyRun =>
      assert s[1..] == "*" + rest;
      assert ("*" + rest)[1..] == rest;
    case SegmentRun =>
      assert "[^/]" <= s && s[4..] == "*" + rest;
      assert ("*" + rest)[1..] == rest;
    case Plain(c) =>
      if IsSpecial(c) { assert s[2..] == rest; } else { assert s[1..] == rest; }
  }

  lemma {:induction false} ReadText(ts: seq<Token>)
    requires Plain('*') !in ts && Plain('?') !in ts
    ensures NoQuantifier(Text(ts))
    ensures ReadRegex(Text(ts)) == Some(Items(ts))
  {
    if ts != [] {
      ReadText(ts[1..]);
      ReadPiece(ts[0], Text(ts[1..]));
    }
  }

  /** A question mark is taken for a quantifier, or for nothing at all. */
  lemma ReadQuestionMark(t: Token, rest: string)
    requires t !in {Plain('*'), Plain('?')}
    ensures ReadItem("?" + rest) == None
    ensures var r := ReadItem(Piece(t) + "?" + rest);
            r.Some? ==> r.value.0 != ItemOf(t)
  {
    assert ("?" + rest)[0] == '?';
    var s := Piece(t) + "?" + rest;
    match t
    case AnyRun =>
      assert s[1..] == "*?" + rest;
    case SegmentRun =>
      assert "[^/]" <= s && s[4..] == "*?" + rest;
    case Plain(c) =>
      if IsSpecial(c) { assert s[2..] == "?" + rest; } else { assert s[1..] == "?" + rest; }
  }

  lemma OtherFirstItem(s: string, items: seq<Item>)
    requires s != "" && items != []
    requires ReadItem(s).Some? ==> ReadItem(s).value.0 != items[0]
    ensures ReadRegex(s) != Some(items)
  {}

  lemma {:induction false} QuestionMarkMisread(ts: seq<Token>)
    requires Plain('*') !in ts && Plain('?') in ts
    ensures ReadRegex(Text(ts)) != Some(Items(ts))
  {
    var rest := Text(ts[1..]);
    if ts[0] == Plain('?') {
      ReadQuestionMark(AnyRun, rest);
    } else if ts[1] == Plain('?') {
      assert ts[1..][1..] == ts[2..];
      assert rest == "?" + Text(ts[2..]);
      assert Text(ts) == Piece(ts[0]) + "?" + Text(ts[2..]);
      ReadQuestionMark(ts[0], Text(ts[2..]));
      OtherFirstItem(Text(ts), Items(ts));
    } else {
      QuestionMarkMisread(ts[1..]);
      ReadPiece(ts[0], rest);
      assert Items(ts)[1..] == Items(ts[1..]);
      var tail := ReadRegex(rest);
      assert tail.Some? ==> ([ItemOf(ts[0])] + tail.value)[1..] == tail.value;
    }
  }

  /** The compiled text of a pattern without NUL reads back as the pattern's own tokens exactly
      when the pattern has no question mark, the one quantifier `compileGlob` leaves unescaped. */
  lemma CompiledTextReadsBack(pattern: string)
    requires NUL !in pattern
    ensures ReadRegex(CompileGlob(pattern)) == Some(Items(Tokens(pattern))) <==> '?' !in pattern
  {
    hide CompileGlob, Tokens, Items, Text, ReadRegex;
    CompiledText(pattern);
    TokensKeepCharacters(pattern, '?');
    NoPlainStar(pattern);
    if '?' in pattern {
      QuestionMarkMisread(Tokens(pattern));
    } else {
      ReadText(Tokens(pattern));
    }
  }

  lemma NoPlainStar(pattern: string)
    ensures Plain('*') !in Tokens(pattern)
  {}

  // ---- Matching means what the glob means ----

  lemma LongerRun(t: Token, c: char, run: string, breaks: bool)
    requires IsRun(t, run, breaks) && (if t == SegmentRun then c != '/' else breaks || !IsLineTerminator(c))
    ensures IsRun(t, [c] + run, breaks)
  {}

  /** Consuming one more character of a run. */
  lemma RunExtends(ts: seq<Token>, s: string, j: nat)
    requires ts != [] && ts[0] in {AnyRun, SegmentRun}
    requires s != "" && j < |s| && (if ts[0] == SegmentRun then s[0] != '/' else !IsLineTerminator(s[0]))
    requires GlobMatches(ts, s[1..][..j], false)
    ensures GlobMatches(ts, s[..j + 1], false)
  {
    var inner, outer := s[1..][..j], s[..j + 1];
    assert outer == [s[0]] + inner;
    var k :| 0 <= k <= |inner| && IsRun(ts[0], inner[..k], false) && GlobMatches(ts[1..], inner[k..], false);
    LongerRun(ts[0], s[0], inner[..k], false);
    assert outer[k + 1..] == inner[k..];
    assert outer[..k + 1] == [s[0]] + inner[..k];
  }

  lemma {:induction false} MatchIsGlob(ts: seq<Token>, s: string) returns (j: nat)
    requires MatchesHere(Items(ts), s)
    ensures j <= |s| && GlobMatches(ts, s[..j], false)
    decreases |ts|, |s|
  {
    if ts == [] {
      j := 0;
    } else {
      var items := Items(ts);
      assert items[1..] == Items(ts[1..]);
      if ts[0].Plain? {
        var i := MatchIsGlob(ts[1..], s[1..]);
        j := i + 1;
        assert s[..j][1..] == s[1..][..i];
      } else if s != "" && AtomMatches(items[0].atom, s[0]) && MatchesHere(items, s[1..]) {
        var i := MatchIsGlob(ts, s[1..]);
        j := i + 1;
        RunExtends(ts, s, i);
      } else {
        j := MatchIsGlob(ts[1..], s);
        assert s[..j][0..] == s[..j] && s[..j][..0] == "";
        assert IsRun(ts[0], s[..j][..0], false);
      }
    }
  }

  lemma {:induction false} GlobIsMatch(ts: seq<Token>, s: string, j: nat)
    requires j <= |s| && GlobMatches(ts, s[..j], false)
    ensures MatchesHere(Items(ts), s)
    decreases |ts|, |s|
  {
    if ts != [] {
      var items := Items(ts);
      assert items[1..] == Items(ts[1..]);
      var run := s[..j];
      if ts[0].Plain? {
        assert run[1..] == s[1..][..j - 1];
        GlobIsMatch(ts[1..], s[1..], j - 1);
      } else {
        var k :| 0 <= k <= j && IsRun(ts[0], run[..k], false) && GlobMatches(ts[1..], run[k..], false);
        if k == 0 {
          assert run[k..] == run;
          GlobIsMatch(ts[1..], s, j);
        } else {
          assert run[..k][0] == s[0];
          ShorterRun(ts, s, j, k);
          GlobIsMatch(ts, s[1..], j - 1);
        }
      }
    }
  }

  lemma ShorterRun(ts: seq<Token>, s: string, j: nat, k: nat)
    requires ts != [] && ts[0] in {AnyRun, SegmentRun} && 0 < k <= j <= |s|
    requires IsRun(ts[0], s[..j][..k], false) && GlobMatches(ts[1..], s[..j][k..], false)
    ensures GlobMatches(ts, s[1..][..j - 1], false)
  {
    var shorter := s[1..][..j - 1];
    assert shorter[k - 1..] == s[..j][k..];
    assert shorter[..k - 1] == s[..j][..k][1..];
    assert IsRun(ts[0], shorter[..k - 1], false);
  }

  /** A pattern without NUL and `?` matches a URL exactly when some substring of the URL
      glob-matches it, where no run passes a line break. */
  lemma PatternMatchesSubstrings(pattern: string, url: string)
    requires NUL !in pattern && '?' !in pattern
    ensures MatchesUrl(pattern, url) <==> GlobFinds(pattern, url, false)
  {
    hide CompileGlob, Tokens, Items, ReadRegex, MatchesHere, GlobMatches;
    var ts := Tokens(pattern);
    CompiledTextReadsBack(pattern);
    if MatchesUrl(pattern, url) {
      var i :| 0 <= i <= |url| && MatchesHere(Items(ts), url[i..]);
      var n := MatchIsGlob(ts, url[i..]);
      assert url[i..][..n] == url[i..i + n];
    }
    forall i, j | 0 <= i <= j <= |url| && GlobMatches(ts, url[i..j], false)
      ensures MatchesUrl(pattern, url)
    {
      assert url[i..][..j - i] == url[i..j];
      GlobIsMatch(ts, url[i..], j - i);
    }
  }

  lemma {:induction false} OneLineMatches(ts: seq<Token>, s: string)
    requires OneLine(s)
    ensures GlobMatches(ts, s, true) <==> GlobMatches(ts, s, false)
    decreases |ts|
  {
    if ts != [] {
      if ts[0].Plain? {
        if s != "" { OneLineMatches(ts[1..], s[1..]); }
      } else {
        forall k | 0 <= k <= |s|
          ensures IsRun(ts[0], s[..k], true) == IsRun(ts[0], s[..k], false)
          ensures GlobMatches(ts[1..], s[k..], true) <==> GlobMatches(ts[1..], s[k..], false)
        {
          OneLineMatches(ts[1..], s[k..]);
        }
      }
    }
  }

  /** In a URL without line breaks `**` is any run at all. */
  lemma OneLineFinds(pattern: string, url: string)
    requires OneLine(url)
    ensures GlobFinds(pattern, url, true) <==> GlobFinds(pattern, url, false)
  {
    hide Tokens, GlobMatches;
    forall i, j | 0 <= i <= j <= |url|
      ensures GlobMatches(Tokens(pattern), url[i..j], true) <==> GlobMatches(Tokens(pattern), url[i..j], false)
    {
      OneLineMatches(Tokens(pattern), url[i..j]);
    }
  }

  /** A line break in the URL stops `**`. */
  lemma LineBreaksStopRuns()
    ensures GlobFinds("a**b", "a\nb", true) && !MatchesUrl("a**b", "a\nb")
  {
    hide MatchesHere, GlobMatches, Tokens, CompileGlob, ReadRegex;
    var ts := [Plain('a'), AnyRun, Plain('b')];
    TokensOfExample();
    ExampleMatches(ts);
    assert "a\nb"[0..3] == "a\nb";
    CompiledTextReadsBack("a**b");
    assert ts[1..] == [AnyRun, Plain('b')] && ts[1..][1..] == [Plain('b')];
    assert Items([Plain('b')]) == [One(Char('b'))];
    NoMatchAcrossLines(Items(ts));
  }

  lemma TokensOfExample()
    ensures Tokens("a**b") == [Plain('a'), AnyRun, Plain('b')]
  {
    assert Tokens("b") == [Plain('b')] + Tokens("");
    assert "**b"[2..] == "b";
    assert Tokens("**b") == [AnyRun] + Tokens("b");
    assert "a**b"[1..] == "**b";
  }

  lemma ExampleMatches(ts: seq<Token>)
    requires ts == [Plain('a'), AnyRun, Plain('b')]
    ensures GlobMatches(ts, "a\nb", true)
  {
    assert ts[1..][1..] == [Plain('b')];
    assert GlobMatches([Plain('b')], "b", true) by { assert "b"[1..] == ""; }
    assert "a\nb"[1..][1..] == "b";
    assert IsRun(AnyRun, "a\nb"[1..][..1], true);
    assert GlobMatches(ts[1..], "a\nb"[1..], true);
  }

  lemma NoMatchAcrossLines(items: seq<Item>)
    requires items == [One(Char('a')), Many(AnyChar), One(Char('b'))]
    ensures !Test(items, "a\nb")
  {
    var s := "a\nb";
    assert items[1..][1..] == [One(Char('b'))];
    assert s[1..] == "\nb";
    assert !MatchesHere([One(Char('b'))], "\nb");
    assert !MatchesHere(items[1..], "\nb");
    forall i | 0 <= i <= |s|
      ensures !MatchesHere(items, s[i..])
    {
      assert i == 0 || s[i..] == "" || s[i..][0] != 'a';
    }
  }

  // ---- A question mark changes what is matched ----

  /** The text a match of `items` needs at least. */
  function Shortest(items: seq<Item>): string {
    if items == [] then ""
    else
      (match items[0]
       case One(atom) => [if atom.Char? then atom.c else 'a']
       case _ => "")
      + Shortest(items[1..])
  }

  lemma {:induction false} ShortestMatches(items: seq<Item>)
    ensures MatchesHere(items, Shortest(items))
  {
    if items != [] {
      ShortestMatches(items[1..]);
      var s := Shortest(items);
      if items[0].One? { assert s[1..] == Shortest(items[1..]); } else { assert s == Shortest(items[1..]); }
    }
  }

  /** The plain characters of a glob, its runs left empty. */
  function PlainText(ts: seq<Token>): string {
    if ts == [] then ""
    else (if ts[0].Plain? then [ts[0].c] else "") + PlainText(ts[1..])
  }

  lemma {:induction false} PlainTextMatches(ts: seq<Token>)
    ensures GlobMatches(ts, PlainText(ts), true)
  {
    if ts != [] {
      PlainTextMatches(ts[1..]);
      var s := PlainText(ts);
      if ts[0].Plain? {
        assert s[1..] == PlainText(ts[1..]);
      } else {
        assert s[0..] == PlainText(ts[1..]) && s[..0] == "" && IsRun(ts[0], s[..0], true);
      }
    }
  }

  lemma {:induction false} MatchHasCharacters(ts: seq<Token>, s: string, c: char, breaks: bool)
    requires GlobMatches(ts, s, breaks) && Plain(c) in ts
    ensures c in s
    decreases |ts|
  {
    if ts[0] != Plain(c) {
      assert Plain(c) in ts[1..];
      if ts[0].Plain? {
        MatchHasCharacters(ts[1..], s[1..], c, breaks);
      } else {
        var k :| 0 <= k <= |s| && IsRun(ts[0], s[..k], breaks) && GlobMatches(ts[1..], s[k..], breaks);
        MatchHasCharacters(ts[1..], s[k..], c, breaks);
      }
    }
  }

  /** How many question marks a quantifier takes from the tokens behind its atom. */
  function Marks(tail: seq<Token>): (n: nat)
    ensures n <= Min(|tail|, 2)
  {
    if tail == [] || tail[0] != Plain('?') then 0 else if |tail| == 1 || tail[1] != Plain('?') then 1 else 2
  }

  lemma MarksInText(tail: seq<Token>)
    requires Plain('*') !in tail
    ensures var s := Text(tail);
            && ("?" <= s <==> Marks(tail) >= 1) && ("??" <= s <==> Marks(tail) == 2)
            && !("*" <= s) && !("+" <= s) && !("{" <= s)
            && (Marks(tail) >= 1 ==> s[1..] == Text(tail[1..])) && (Marks(tail) == 2 ==> s[2..] == Text(tail[2..]))
  {
    TextStarts(tail);
    if Marks(tail) >= 1 {
      assert Text(tail) == "?" + Text(tail[1..]);
      TextStarts(tail[1..]);
      if Marks(tail) == 2 {
        assert Text(tail[1..]) == "?" + Text(tail[1..][1..]) && tail[1..][1..] == tail[2..];
      }
    }
  }

  lemma PlainItem(s: string, atom: Atom, rest: string, marks: nat)
    requires ReadAtom(s) == Some((atom, rest)) && |rest| < |s|
    requires marks <= 2 && ("?" <= rest <==> marks >= 1) && ("??" <= rest <==> marks == 2)
    requires !("*" <= rest) && !("+" <= rest) && !("{" <= rest)
    ensures marks <= |rest|
    ensures ReadItem(s).Some? && ReadItem(s).value.0.atom == atom && ReadItem(s).value.1 == rest[marks..]
  {
    hide ReadAtom;
    assert rest == "" || rest[0] != '*';
  }

  lemma RunItem(s: string, atom: Atom, rest: string)
    requires ReadAtom(s) == Some((atom, "*" + rest)) && 1 + |rest| < |s|
    ensures var marks := if "?" <= rest then 1 else 0;
            ReadItem(s).Some? && ReadItem(s).value.0.atom == atom && ReadItem(s).value.1 == rest[marks..]
  {
    hide ReadAtom;
    StarTaken(rest);
    var behind := "*" + rest;
    assert "*" <= behind;
    assert behind[1..] == rest;
  }

  /** The first piece of a text gives the first item; it may take one or two question marks. */
  lemma FirstItem(ts: seq<Token>) returns (n: nat)
    requires Plain('*') !in ts && ts != [] && ts[0] != Plain('?')
    ensures 1 <= n <= |ts|
    ensures var r := ReadItem(Text(ts));
            r.Some? && r.value.0.atom == ItemOf(ts[0]).atom && r.value.1 == Text(ts[n..])
  {
    var tail := ts[1..];
    var s, rest := Text(ts), Text(tail);
    PieceFirst(ts);
    MarksInText(tail);
    AtomOf(ts[0], rest);
    hide Text, ReadItem, ReadAtom, Marks, IsSpecial, Piece, ItemOf;
    if ts[0].Plain? {
      PlainItem(s, ItemOf(ts[0]).atom, rest, Marks(tail));
      n := 1 + Marks(tail);
    } else {
      RunItem(s, ItemOf(ts[0]).atom, rest);
      n := 1 + Min(Marks(tail), 1);
    }
    DropAfterFirst(ts, n);
    DropNothing(rest);
    DropNothing(tail);
  }

  lemma PieceFirst(ts: seq<Token>)
    requires ts != []
    ensures Text(ts) == Piece(ts[0]) + Text(ts[1..]) && |Text(ts)| > |Text(ts[1..])| + if ts[0].Plain? then 0 else 1
  {}

  lemma DropAfterFirst<T>(s: seq<T>, n: nat)
    requires 1 <= n <= |s|
    ensures s[n..] == s[1..][n - 1..]
  {}

  lemma DropNothing<T>(s: seq<T>)
    ensures s[0..] == s
  {}

  lemma AtomOf(t: Token, rest: string)
    requires t !in {Plain('*'), Plain('?')}
    ensures ReadAtom(Piece(t) + rest) == Some((ItemOf(t).atom, if t.Plain? then rest else "*" + rest))
  {
    var s := Piece(t) + rest;
    match t
    case AnyRun => assert s[1..] == "*" + rest;
    case SegmentRun => assert "[^/]" <= s && s[4..] == "*" + rest;
    case Plain(c) =>
      if IsSpecial(c) { assert s[2..] == rest; } else { assert s[1..] == rest; }
  }

  lemma StarTaken(rest: string)
    ensures var s := "*" + rest;
            ("*?" <= s <==> "?" <= rest) && s[1..] == rest && ("?" <= rest ==> s[2..] == rest[1..])
  {
    var s := "*" + rest;
    assert s[1..] == rest;
    if "?" <= rest { assert s[1] == '?'; assert s[2..] == rest[1..]; }
  }

  lemma TextStarts(ts: seq<Token>)
    requires Plain('*') !in ts
    ensures var s := Text(ts);
            if ts == [] then s == "" else s != "" && s[0] !in {'*', '+', '{'} && (s[0] == '?' <==> ts[0] == Plain('?'))
  {}

  /** Reading never yields a question mark to match literally, nor a line break. */
  lemma {:induction false} ReadItemsAreClean(ts: seq<Token>)
    requires Plain('*') !in ts && ReadRegex(Text(ts)).Some?
    requires forall t | t in ts && t.Plain? :: !IsLineTerminator(t.c)
    ensures OneLine(Shortest(ReadRegex(Text(ts)).value)) && '?' !in Shortest(ReadRegex(Text(ts)).value)
    decreases |ts|
  {
    if ts != [] {
      TextStarts(ts);
      if ts[0] == Plain('?') {
        ReadQuestionMark(AnyRun, Text(ts[1..]));
        assert false;
      } else {
        var n := FirstItem(ts);
        var item := ReadItem(Text(ts)).value.0;
        hide ReadItem, Text;
        ReadItemsAreClean(ts[n..]);
        var items := ReadRegex(Text(ts[n..])).value;
        assert ([item] + items)[1..] == items;
      }
    }
  }

  /** A one-line pattern without NUL means, on all one-line URLs, what the glob means if and only if
      it has no question mark. */
  lemma QuestionMarkChangesMeaning(pattern: string)
    requires NUL !in pattern && OneLine(pattern)
    ensures (forall url | OneLine(url) :: MatchesUrl(pattern, url) <==> GlobFinds(pattern, url, true))
        <==> '?' !in pattern
  {
    hide MatchesUrl, GlobFinds, Tokens, OneLine;
    if '?' in pattern {
      var url := MisjudgedUrl(pattern);
      assert !(MatchesUrl(pattern, url) <==> GlobFinds(pattern, url, true));
    } else {
      forall url | OneLine(url)
        ensures MatchesUrl(pattern, url) <==> GlobFinds(pattern, url, true)
      {
        PatternMatchesSubstrings(pattern, url);
        OneLineFinds(pattern, url);
      }
    }
  }

  /** The shortest match of the regular expression lacks the question mark the glob asks for; and
      where there is no regular expression, the glob still has a match. */
  lemma MisjudgedUrl(pattern: string) returns (url: string)
    requires NUL !in pattern && OneLine(pattern) && '?' in pattern
    ensures OneLine(url) && (MatchesUrl(pattern, url) <==> !GlobFinds(pattern, url, true))
  {
    hide Tokens, ReadRegex, GlobMatches, MatchesHere, Shortest, PlainText, CompileGlob;
    var ts := Tokens(pattern);
    CompiledText(pattern);
    NoPlainStar(pattern);
    TokensKeepCharacters(pattern, '?');
    PlainTokensAreOneLine(pattern);
    var items := ReadRegex(Text(ts));
    if items.Some? {
      ReadItemsAreClean(ts);
      url := Shortest(items.value);
      ShortestMatches(items.value);
      assert url[0..] == url;
      assert MatchesUrl(pattern, url);
      forall i, j | 0 <= i <= j <= |url|
        ensures !GlobMatches(ts, url[i..j], true)
      {
        if GlobMatches(ts, url[i..j], true) {
          MatchHasCharacters(ts, url[i..j], '?', true);
          assert false;
        }
      }
    } else {
      url := PlainText(ts);
      PlainTextMatches(ts);
      PlainTextIsOneLine(ts);
      assert url[0..|url|] == url;
    }
  }

  lemma PlainTokensAreOneLine(pattern: string)
    requires OneLine(pattern)
    ensures forall t | t in Tokens(pattern) && t.Plain? :: !IsLineTerminator(t.c)
  {
    hide Tokens;
    forall t | t in Tokens(pattern) && t.Plain?
      ensures !IsLineTerminator(t.c)
    {
      TokensKeepCharacters(pattern, t.c);
    }
  }

  lemma {:induction false} PlainTextIsOneLine(ts: seq<Token>)
    requires forall t | t in ts && t.Plain? :: !IsLineTerminator(t.c)
    ensures OneLine(PlainText(ts))
  {
    if ts != [] {
      PlainTextIsOneLine(ts[1..]);
      assert ts[0] in ts;
    }
  }
}
