/** The gate in front of user-written SQL: a scanner that looks for a LIMIT or OFFSET outside all
    parentheses, and the texts the accepted statement is wrapped into
    (packages/connectors/src/postgres.ts). */
module SqlScanner {
  import opened TextTools
  import opened Wrappers

  // ---- Reference: an automaton that reads one character at a time ----

  datatype Mode =
    | Code
    | Dash                 // one '-' read, a second one starts a comment
    | Slash                // one '/' read, a '*' starts a comment
    | Word(text: string)
    | Literal              // inside '...'
    | Quoted               // inside "..."
    | LineComment
    | BlockComment
    | BlockStar            // inside a block comment, just behind a '*'

  /** `seen` lists the parenthesis depth of every LIMIT and OFFSET keyword read so far; `dipped`
      records a closing parenthesis that had no partner. */
  datatype State = State(mode: Mode, depth: nat, seen: seq<nat>, dipped: bool)

  const START := State(Code, 0, [], false)

  predicate IsLetter(c: char) { 'A' <= c <= 'Z' || 'a' <= c <= 'z' }
  predicate StartsWord(c: char) { IsLetter(c) || c == '_' }
  predicate InWord(c: char) { StartsWord(c) || IsDigit(c) || c == '$' }

  predicate IsKeyword(word: string) {
    || (|word| == 5 && ToLower(word[0]) == 'l' && ToLower(word[1]) == 'i' && ToLower(word[2]) == 'm'
        && ToLower(word[3]) == 'i' && ToLower(word[4]) == 't')
    || (|word| == 6 && ToLower(word[0]) == 'o' && ToLower(word[1]) == 'f' && ToLower(word[2]) == 'f'
        && ToLower(word[3]) == 's' && ToLower(word[4]) == 'e' && ToLower(word[5]) == 't')
  }

  /** The two keywords, in any case. */
  lemma KeywordsExactly(word: string)
    ensures IsKeyword(word) <==> Lowered(word) == "limit" || Lowered(word) == "offset"
  {
    hide ToLower;
    var t := Lowered(word);
    assert |word| == 5 ==> t == [t[0], t[1], t[2], t[3], t[4]];
    assert |word| == 6 ==> t == [t[0], t[1], t[2], t[3], t[4], t[5]];
    assert "limit" == ['l', 'i', 'm', 'i', 't'] && "offset" == ['o', 'f', 'f', 's', 'e', 't'];
  }

  /** Reads `c` where a new token starts. */
  function Enter(q: State, c: char): State {
    if c == '\'' then q.(mode := Literal)
    else if c == '"' then q.(mode := Quoted)
    else if c == '-' then q.(mode := Dash)
    else if c == '/' then q.(mode := Slash)
    else if c == '(' then q.(mode := Code, depth := q.depth + 1)
    else if c == ')' then
      if q.depth > 0 then q.(mode := Code, depth := q.depth - 1) else q.(mode := Code, dipped := true)
    else if StartsWord(c) then q.(mode := Word([c]))
    else q.(mode := Code)
  }

  /** Ends a word, if one is being read. */
  function Flush(q: State): State {
    if q.mode.Word? && IsKeyword(q.mode.text) then q.(mode := Code, seen := q.seen + [q.depth])
    else if q.mode.Word? then q.(mode := Code)
    else q
  }

  function Step(q: State, c: char): State {
    match q.mode
    case Code => Enter(q, c)
    case Dash => if c == '-' then q.(mode := LineComment) else Enter(q, c)
    case Slash => if c == '*' then q.(mode := BlockComment) else Enter(q, c)
    case Word(text) => if InWord(c) then q.(mode := Word(text + [c])) else Enter(Flush(q), c)
    case Literal => if c == '\'' then q.(mode := Code) else q
    case Quoted => if c == '"' then q.(mode := Code) else q
    case LineComment => if c == '\n' then q.(mode := Code) else q
    case BlockComment => if c == '*' then q.(mode := BlockStar) else q
    case BlockStar => if c == '/' then q.(mode := Code) else if c == '*' then q else q.(mode := BlockComment)
  }

  function Read(q: State, text: string): State
    decreases |text|
  {
    if text == [] then q else Read(Step(q, text[0]), text[1..])
  }

  function Scan(sql: string): State {
    Flush(Read(START, sql))
  }

  predicate HasTopLevel(sql: string) {
    0 in Scan(sql).seen
  }

  lemma {:induction false} ReadConcat(q: State, a: string, b: string)
    ensures Read(q, a + b) == Read(Read(q, a), b)
    decreases |a|
  {
    if a == [] {
      assert a + b == b;
    } else {
      assert (a + b)[1..] == a[1..] + b;
      ReadConcat(Step(q, a[0]), a[1..], b);
    }
  }

  lemma {:induction false} SeenGrows(q: State, text: string)
    ensures q.seen <= Read(q, text).seen
    decreases |text|
  {
    hide IsKeyword, InWord, StartsWord;
    if text != [] { SeenGrows(Step(q, text[0]), text[1..]); }
  }

  // ---- What the automaton passes over ----

  lemma {:induction false} ReadUntil(q: State, text: string, end: char)
    requires (q.mode, end) in {(Literal, '\''), (Quoted, '"'), (LineComment, '\n')} && end !in text
    ensures Read(q, text + [end]) == q.(mode := Code)
    decreases |text|
  {
    if text == "" {
      assert text + [end] == [end] && [end][1..] == "";
    } else {
      assert (text + [end])[1..] == text[1..] + [end];
      ReadUntil(q, text[1..], end);
    }
  }

  lemma {:induction false} ReadBlockEnd(q: State, text: string)
    requires q.mode == BlockComment || (q.mode == BlockStar && (text == "" || text[0] != '/'))
    requires forall i | 0 <= i < |text| - 1 :: !(text[i] == '*' && text[i + 1] == '/')
    ensures Read(q, text + "*/") == q.(mode := Code)
    decreases |text|
  {
    var all := text + "*/";
    if text == "" {
      assert all[0] == '*' && all[1..] == "/" && "/"[1..] == "";
      assert Read(q.(mode := BlockStar), "/") == q.(mode := Code);
    } else {
      assert all[1..] == text[1..] + "*/";
      ReadBlockEnd(Step(q, text[0]), text[1..]);
    }
  }

  /** Literals, quoted names, line comments and block comments, whatever they contain, parentheses and
      keywords included, leave the reader where it was. */
  lemma TextsArePassedOver(q: State, text: string)
    requires q.mode == Code
    ensures '\'' !in text ==> Read(q, "'" + (text + "'")) == q
    ensures '"' !in text ==> Read(q, "\"" + (text + "\"")) == q
    ensures '\n' !in text ==> Read(q, "--" + (text + "\n")) == q
    ensures (forall i | 0 <= i < |text| - 1 :: !(text[i] == '*' && text[i + 1] == '/')) ==>
              Read(q, "/*" + (text + "*/")) == q
  {
    assert ("'" + (text + "'"))[1..] == text + "'" && ("\"" + (text + "\""))[1..] == text + "\"";
    assert "--" + (text + "\n") == "-" + ("-" + (text + "\n"));
    assert ("-" + ("-" + (text + "\n")))[1..] == "-" + (text + "\n") && ("-" + (text + "\n"))[1..] == text + "\n";
    assert "/*" + (text + "*/") == "/" + ("*" + (text + "*/"));
    assert ("/" + ("*" + (text + "*/")))[1..] == "*" + (text + "*/") && ("*" + (text + "*/"))[1..] == text + "*/";
    if '\'' !in text { ReadUntil(q.(mode := Literal), text, '\''); }
    if '"' !in text { ReadUntil(q.(mode := Quoted), text, '"'); }
    if '\n' !in text { ReadUntil(q.(mode := LineComment), text, '\n'); }
    if forall i | 0 <= i < |text| - 1 :: !(text[i] == '*' && text[i + 1] == '/') {
      ReadBlockEnd(q.(mode := BlockComment), text);
    }
  }

  // ---- The index loop ----

  /** The keywords seen in all when state `q` reads `sql` from index `i` on. */
  function SeenFrom(q: State, sql: string, i: nat): seq<nat> {
    Flush(Read(q, if i <= |sql| then sql[i..] else [])).seen
  }

  lemma OneStep(q: State, sql: string, i: nat)
    requires i < |sql|
    ensures SeenFrom(q, sql, i) == SeenFrom(Step(q, sql[i]), sql, i + 1)
  {
    assert sql[i..][1..] == sql[i + 1..];
  }

  lemma AtEnd(q: State, sql: string, i: nat)
    requires |sql| <= i
    ensures SeenFrom(q, sql, i) == Flush(q).seen
  {}

  method HasTopLevelLimitOrOffset(sql: string) returns (found: bool)
    ensures found <==> HasTopLevel(sql)
  {
    hide SeenFrom;
    var n := |sql|;
    var depth: nat := 0;
    var i: nat := 0;
    ghost var q := START;
    WholeText(sql);
    while i < n
      invariant i <= n + 2
      invariant q.mode == Code && q.depth == depth && 0 !in q.seen
      invariant SeenFrom(q, sql, i) == Scan(sql).seen
      decreases n - i
    {
      var c := sql[i];
      if c == '\'' {
        i := SkipQuoted('\'', Literal, q, sql, i);
      } else if c == '"' {
        i := SkipQuoted('"', Quoted, q, sql, i);
      } else if c == '-' && i + 1 < n && sql[i + 1] == '-' {
        i := SkipLineComment(q, sql, i);
      } else if c == '/' && i + 1 < n && sql[i + 1] == '*' {
        i := SkipBlockComment(q, sql, i);
      } else if c == '(' {
        OneStep(q, sql, i);
        q := Step(q, c);
        depth := depth + 1;
        i := i + 1;
      } else if c == ')' {
        OneStep(q, sql, i);
        q := Step(q, c);
        if depth > 0 { depth := depth - 1; }
        i := i + 1;
      } else if StartsWord(c) {
        var j := SkipWord(q, sql, i);
        q := Flush(q.(mode := Word(sql[i..j])));
        if depth == 0 {
          var word := sql[i..j];
          if IsKeyword(word) {
            SeenStays(q, sql, j);
            found := true;
            return;
          }
        }
        i := j;
      } else {
        LoneSign(q, sql, i);
        i := i + 1;
      }
    }
    AtEnd(q, sql, i);
    found := false;
  }

  lemma WholeText(sql: string)
    ensures SeenFrom(START, sql, 0) == Scan(sql).seen
  {
    assert sql[0..] == sql;
  }

  lemma SeenStays(q: State, sql: string, i: nat)
    requires i <= |sql|
    ensures q.seen <= SeenFrom(q, sql, i)
    ensures forall depth | depth in q.seen :: depth in SeenFrom(q, sql, i)
  {
    SeenGrows(q, sql[i..]);
  }

  lemma LoneSign(q: State, sql: string, i: nat)
    requires q.mode == Code && i < |sql|
    requires sql[i] !in {'\'', '"', '(', ')'} && !StartsWord(sql[i])
    requires sql[i] == '-' ==> i + 1 == |sql| || sql[i + 1] != '-'
    requires sql[i] == '/' ==> i + 1 == |sql| || sql[i + 1] != '*'
    ensures SeenFrom(q, sql, i) == SeenFrom(q, sql, i + 1)
  {
    hide SeenFrom;
    var next := Step(q, sql[i]);
    OneStep(q, sql, i);
    if i + 1 < |sql| {
      OneStep(q, sql, i + 1);
      OneStep(next, sql, i + 1);
    } else {
      AtEnd(q, sql, i + 1);
      AtEnd(next, sql, i + 1);
    }
  }

  method SkipQuoted(quote: char, mode: Mode, ghost q: State, sql: string, start: nat) returns (i: nat)
    requires (quote == '\'' && mode == Literal) || (quote == '"' && mode == Quoted)
    requires q.mode == Code && start < |sql| && sql[start] == quote
    ensures start < i <= |sql| + 1
    ensures SeenFrom(q, sql, start) == SeenFrom(q, sql, i)
  {
    hide SeenFrom;
    ghost var inside := q.(mode := mode);
    OneStep(q, sql, start);
    i := start + 1;
    while i < |sql| && sql[i] != quote
      invariant start < i <= |sql|
      invariant SeenFrom(q, sql, start) == SeenFrom(inside, sql, i)
    {
      OneStep(inside, sql, i);
      i := i + 1;
    }
    if i < |sql| {
      OneStep(inside, sql, i);
      assert Step(inside, quote) == q;
    } else {
      AtEnd(inside, sql, i);
      AtEnd(q, sql, i + 1);
    }
    i := i + 1;
  }

  method SkipLineComment(ghost q: State, sql: string, start: nat) returns (i: nat)
    requires q.mode == Code && start + 1 < |sql| && sql[start] == sql[start + 1] == '-'
    ensures start < i <= |sql|
    ensures SeenFrom(q, sql, start) == SeenFrom(q, sql, i)
  {
    hide SeenFrom;
    ghost var inside := q.(mode := LineComment);
    OneStep(q, sql, start);
    OneStep(q.(mode := Dash), sql, start + 1);
    i := start + 2;
    while i < |sql| && sql[i] != '\n'
      invariant start < i <= |sql|
      invariant SeenFrom(q, sql, start) == SeenFrom(inside, sql, i)
    {
      OneStep(inside, sql, i);
      i := i + 1;
    }
    if i < |sql| {
      OneStep(inside, sql, i);
      OneStep(q, sql, i);
      assert Step(inside, '\n') == q == Step(q, '\n');
    } else {
      AtEnd(inside, sql, i);
      AtEnd(q, sql, i);
    }
  }

  method SkipBlockComment(ghost q: State, sql: string, start: nat) returns (i: nat)
    requires q.mode == Code && start + 1 < |sql| && sql[start] == '/' && sql[start + 1] == '*'
    ensures start < i <= |sql| + 2
    ensures SeenFrom(q, sql, start) == SeenFrom(q, sql, i)
  {
    hide SeenFrom;
    ghost var inside := q.(mode := BlockComment);
    OneStep(q, sql, start);
    OneStep(q.(mode := Slash), sql, start + 1);
    i := start + 2;
    while i < |sql| && !(sql[i] == '*' && i + 1 < |sql| && sql[i + 1] == '/')
      invariant start < i <= |sql|
      invariant SeenFrom(q, sql, start) == SeenFrom(inside, sql, i)
    {
      StayInComment(q, sql, i);
      i := i + 1;
    }
    if i < |sql| {
      OneStep(inside, sql, i);
      OneStep(q.(mode := BlockStar), sql, i + 1);
      assert Step(q.(mode := BlockStar), '/') == q;
    } else {
      AtEnd(inside, sql, i);
      AtEnd(q, sql, i + 2);
    }
    i := i + 2;
  }

  lemma StayInComment(q: State, sql: string, i: nat)
    requires q.mode == Code && i < |sql| && !(sql[i] == '*' && i + 1 < |sql| && sql[i + 1] == '/')
    ensures SeenFrom(q.(mode := BlockComment), sql, i) == SeenFrom(q.(mode := BlockComment), sql, i + 1)
  {
    hide SeenFrom;
    var inside := q.(mode := BlockComment);
    var star := q.(mode := BlockStar);
    OneStep(inside, sql, i);
    if sql[i] == '*' {
      if i + 1 < |sql| {
        OneStep(star, sql, i + 1);
        OneStep(inside, sql, i + 1);
      } else {
        AtEnd(star, sql, i + 1);
        AtEnd(inside, sql, i + 1);
      }
    }
  }

  method SkipWord(ghost q: State, sql: string, start: nat) returns (j: nat)
    requires q.mode == Code && start < |sql| && StartsWord(sql[start])
    ensures start < j <= |sql|
    ensures SeenFrom(q, sql, start) == SeenFrom(Flush(q.(mode := Word(sql[start..j]))), sql, j)
  {
    hide SeenFrom;
    OneStep(q, sql, start);
    j := start + 1;
    assert sql[start..j] == [sql[start]];
    while j < |sql| && InWord(sql[j])
      invariant start < j <= |sql|
      invariant SeenFrom(q, sql, start) == SeenFrom(q.(mode := Word(sql[start..j])), sql, j)
    {
      OneStep(q.(mode := Word(sql[start..j])), sql, j);
      assert sql[start..j] + [sql[j]] == sql[start..j + 1];
      j := j + 1;
    }
    ghost var word := q.(mode := Word(sql[start..j]));
    if j < |sql| {
      OneStep(word, sql, j);
      OneStep(Flush(word), sql, j);
    } else {
      AtEnd(word, sql, j);
      AtEnd(Flush(word), sql, j);
    }
  }

  // ---- The statement inside its wrapper ----

  /** Literals, quoted names and block comments are closed; a line comment may be open. */
  predicate Closed(sql: string) {
    Scan(sql).mode !in {Literal, Quoted, BlockComment, BlockStar}
  }

  /** Parentheses balance and no prefix closes more than it opened. */
  predicate Balanced(sql: string) {
    !Scan(sql).dipped && Scan(sql).depth == 0
  }

  const OPENING := "SELECT * FROM (\n"

  function Column(name: string): string {
    "q.\"" + name + "\""
  }

  predicate IsWord(name: string) {
    && name != ""
    && StartsWord(name[0])
    && forall i | 0 <= i < |name| :: InWord(name[i])
  }

  /** No cast, or a type name behind two colons. */
  predicate IsCast(cast: string) {
    cast == "" || (|cast| > 2 && cast[..2] == "::" && IsWord(cast[2..]) && !IsKeyword(cast[2..]))
  }

  /** The keyset condition: a later cursor, or the same cursor and a later key. */
  function LaterCursor(cur: string, curCast: string): string {
    Column(cur) + " > $1" + curCast + " OR ("
  }

  function SameCursor(cur: string, pk: string, curCast: string, pkCast: string): string {
    Column(cur) + " = $1" + curCast + " AND " + Column(pk) + " > $2" + pkCast + "))\n"
  }

  function Where(cur: string, pk: string, curCast: string, pkCast: string): string {
    "WHERE (" + LaterCursor(cur, curCast) + SameCursor(cur, pk, curCast, pkCast)
  }

  function OrderBy(cur: string, pk: string): string {
    "ORDER BY " + Column(cur) + ", " + Column(pk)
  }

  function Head(sql: string): string {
    OPENING + sql + "\n" + ") q\n"
  }

  /** The wrapped statement up to the connector's limit. */
  function FirstBody(sql: string, cur: string, pk: string): string {
    Head(sql) + OrderBy(cur, pk)
  }

  function NextBody(sql: string, cur: string, pk: string, curCast: string, pkCast: string): string {
    Head(sql) + Where(cur, pk, curCast, pkCast) + OrderBy(cur, pk)
  }

  function FirstPage(sql: string, cur: string, pk: string): string {
    FirstBody(sql, cur, pk) + " LIMIT $1"
  }

  function NextPage(sql: string, cur: string, pk: string, curCast: string, pkCast: string): string {
    NextBody(sql, cur, pk, curCast, pkCast) + " LIMIT $3"
  }

  /** What the statement contributes when it is read one parenthesis down. */
  function Inside(sql: string): State {
    Flush(Read(State(Code, 1, [], false), sql))
  }

  function AfterClosing(q: State): State {
    Enter(q.(mode := Code), ')')
  }

  // ---- Reading the fixed parts ----

  function Eight(q: State, t: string): State {
    var q := if 0 < |t| then Step(q, t[0]) else q;
    var q := if 1 < |t| then Step(q, t[1]) else q;
    var q := if 2 < |t| then Step(q, t[2]) else q;
    var q := if 3 < |t| then Step(q, t[3]) else q;
    var q := if 4 < |t| then Step(q, t[4]) else q;
    var q := if 5 < |t| then Step(q, t[5]) else q;
    var q := if 6 < |t| then Step(q, t[6]) else q;
    if 7 < |t| then Step(q, t[7]) else q
  }

  lemma ReadEight(q: State, t: string)
    requires |t| <= 8
    ensures Read(q, t) == Eight(q, t)
  {
    hide Step, Read;
    assert t[0..] == t;
    var r := q;
    if 0 < |t| { ReadFrom(r, t, 0); r := Step(r, t[0]); }
    if 1 < |t| { ReadFrom(r, t, 1); r := Step(r, t[1]); }
    if 2 < |t| { ReadFrom(r, t, 2); r := Step(r, t[2]); }
    if 3 < |t| { ReadFrom(r, t, 3); r := Step(r, t[3]); }
    if 4 < |t| { ReadFrom(r, t, 4); r := Step(r, t[4]); }
    if 5 < |t| { ReadFrom(r, t, 5); r := Step(r, t[5]); }
    if 6 < |t| { ReadFrom(r, t, 6); r := Step(r, t[6]); }
    if 7 < |t| { ReadFrom(r, t, 7); r := Step(r, t[7]); }
    ReadFrom(r, t, |t|);
  }

  lemma ReadFrom(q: State, t: string, i: nat)
    requires i <= |t|
    ensures Read(q, t[i..]) == if i < |t| then Read(Step(q, t[i]), t[i + 1..]) else q
  {
    if i < |t| { assert t[i..][1..] == t[i + 1..]; }
  }

  /** Characters that begin and end nothing. */
  predicate IsIdle(c: char) {
    c in {' ', '\n', '*', '>', '=', ',', '$'} || IsDigit(c)
  }

  lemma {:induction false} ReadIdle(q: State, text: string)
    requires q.mode == Code && forall i | 0 <= i < |text| :: IsIdle(text[i])
    ensures Read(q, text) == q
    decreases |text|
  {
    if text != [] { ReadIdle(q, text[1..]); }
  }

  lemma PlainWord(word: string)
    requires word in {"SELECT", "FROM", "WHERE", "ORDER", "BY", "OR", "AND", "select"}
    ensures IsWord(word) && !IsKeyword(word)
  {
    assert word == "SELECT" || word == "select" ==> word[0] != 'o' && word[0] != 'O';
  }

  /** A word that is no keyword leaves nothing behind. */
  lemma ReadWordAnd(q: State, word: string, behind: string)
    requires q.mode == Code && word in {"SELECT", "FROM", "WHERE", "ORDER", "BY", "OR", "AND", "select"}
    requires behind != "" && !InWord(behind[0])
    ensures Read(q, word + behind) == Read(q, behind)
  {
    PlainWord(word);
    hide Read, IsWord, IsKeyword, InWord;
    ReadConcat(q, word, behind);
    ReadWord(q, word);
    ReadAfterWord(q.(mode := Word(word)), behind);
  }

  lemma ReadBlanksAnd(q: State, blanks: string, behind: string)
    requires q.mode == Code && forall i | 0 <= i < |blanks| :: IsIdle(blanks[i])
    ensures Read(q, blanks + behind) == Read(q, behind)
  {
    hide Read, IsIdle;
    ReadConcat(q, blanks, behind);
    ReadIdle(q, blanks);
  }

  lemma ReadParenthesis(q: State)
    requires q.mode == Code
    ensures Read(q, " (") == q.(depth := q.depth + 1)
  {
    hide Read, IsKeyword;
    ReadEight(q, " (");
  }

  /** An opening parenthesis and idle characters behind it. */
  lemma ReadOpen(q: State, idle: string)
    requires q.mode == Code && forall i | 0 <= i < |idle| :: IsIdle(idle[i])
    ensures Read(q, " (" + idle) == q.(depth := q.depth + 1)
  {
    hide Read, IsIdle;
    ReadParenthesis(q);
    ReadConcat(q, " (", idle);
    ReadIdle(q.(depth := q.depth + 1), idle);
  }

  lemma ReadOpening()
    ensures Read(START, OPENING) == State(Code, 1, [], false)
  {
    hide Read, IsKeyword;
    ReadOpen(START, "\n");
    ReadWordAnd(START, "FROM", " (" + "\n");
    ReadBlanksAnd(START, " * ", "FROM" + (" (" + "\n"));
    ReadWordAnd(START, "SELECT", " * " + ("FROM" + (" (" + "\n")));
    assert OPENING == "SELECT" + (" * " + ("FROM" + (" (" + "\n")));
  }

  /** A newline settles everything but an open literal, name or block comment. */
  lemma NewlineSettles(q: State)
    requires q.mode !in {Literal, Quoted, BlockComment, BlockStar}
    ensures Step(q, '\n') == Flush(q).(mode := Code)
  {}

  lemma ReadHead(sql: string)
    requires Closed(sql)
    ensures Read(START, Head(sql)) == AfterClosing(Inside(sql))
  {
    hide Read;
    var q0 := State(Code, 1, [], false);
    var q := Read(q0, sql);
    ReadOpening();
    ReadConcat(START, OPENING, sql);
    ModeIsLexical(START, q0, sql);
    ReadConcat(START, OPENING + sql, "\n");
    ReadEight(q, "\n");
    NewlineSettles(q);
    ReadConcat(START, OPENING + sql + "\n", ") q\n");
    ReadEight(Step(q, '\n'), ") q\n");
  }

  /** The lexical mode does not depend on parentheses or keywords. */
  lemma {:induction false} ModeIsLexical(q: State, r: State, text: string)
    requires q.mode == r.mode
    ensures Read(q, text).mode == Read(r, text).mode
    decreases |text|
  {
    if text != [] { ModeIsLexical(Step(q, text[0]), Step(r, text[0]), text[1..]); }
  }

  lemma {:induction false} ReadWithoutEnd(q: State, text: string)
    requires || (q.mode == Literal && '\'' !in text)
             || (q.mode == Quoted && '"' !in text)
             || (q.mode == BlockComment && '*' !in text)
    ensures Read(q, text) == q
    decreases |text|
  {
    if text != [] { ReadWithoutEnd(q, text[1..]); }
  }

  lemma ReadColumn(q: State, name: string)
    requires q.mode == Code && IsWord(name)
    ensures Read(q, Column(name)) == q
  {
    hide Read;
    var inside := q.(mode := Quoted);
    ReadEight(q, "q.\"");
    ReadConcat(q, "q.\"", name);
    ReadWithoutEnd(inside, name);
    ReadConcat(q, "q.\"" + name, "\"");
    ReadEight(inside, "\"");
  }

  lemma {:induction false} ReadRestOfWord(q: State, done: string, rest: string)
    requires q.mode == Word(done)
    requires forall i | 0 <= i < |rest| :: InWord(rest[i])
    ensures Read(q, rest) == q.(mode := Word(done + rest))
    decreases |rest|
  {
    if rest == [] {
      assert done + rest == done;
    } else {
      assert done + rest == done + [rest[0]] + rest[1..];
      ReadRestOfWord(Step(q, rest[0]), done + [rest[0]], rest[1..]);
    }
  }

  lemma ReadWord(q: State, name: string)
    requires q.mode == Code && IsWord(name)
    ensures Read(q, name) == q.(mode := Word(name))
  {
    hide Read, IsDigit;
    assert name == name[..1] + name[1..] && name[..1] == [name[0]];
    ReadConcat(q, name[..1], name[1..]);
    ReadEight(q, name[..1]);
    ReadRestOfWord(q.(mode := Word(name[..1])), name[..1], name[1..]);
  }

  /** A cast leaves nothing behind once the next character ends its type name. */
  lemma ReadCast(q: State, cast: string)
    requires q.mode == Code && IsCast(cast)
    ensures Read(q, cast).mode.Code? || Read(q, cast).mode.Word?
    ensures Flush(Read(q, cast)) == q
  {
    if cast != "" {
      hide Read, IsKeyword, IsWord;
      assert cast == "::" + cast[2..];
      ReadConcat(q, "::", cast[2..]);
      ReadEight(q, "::");
      ReadWord(q, cast[2..]);
    }
  }

  lemma ReadAfterWord(q: State, text: string)
    requires q.mode.Code? || q.mode.Word?
    requires text != "" && !InWord(text[0])
    ensures Read(q, text) == Read(Flush(q), text)
  {}

  lemma ReadSigns(q: State)
    requires q.mode == Code
    ensures Read(q, " > $1") == q && Read(q, " = $1") == q && Read(q, " > $2") == q && Read(q, ", ") == q
  {
    hide Read;
    ReadIdle(q, " > $1");
    ReadIdle(q, " = $1");
    ReadIdle(q, " > $2");
    ReadIdle(q, ", ");
  }

  lemma ReadAnd(q: State)
    requires q.mode == Code
    ensures Read(q, " AND ") == q
  {
    hide Read, IsKeyword;
    ReadIdle(q, " ");
    ReadWordAnd(q, "AND", " ");
    ReadBlanksAnd(q, " ", "AND" + " ");
    assert " AND " == " " + ("AND" + " ");
  }

  lemma ReadOrOpen(q: State)
    requires q.mode == Code
    ensures Read(q, " OR (") == q.(depth := q.depth + 1)
  {
    hide Read, IsKeyword;
    ReadOpen(q, "");
    assert " (" + "" == " (";
    ReadWordAnd(q, "OR", " (");
    ReadBlanksAnd(q, " ", "OR" + " (");
    assert " OR (" == " " + ("OR" + " (");
  }

  lemma ReadWhereOpen(q: State)
    requires q.mode == Code
    ensures Read(q, "WHERE (") == q.(depth := q.depth + 1)
  {
    hide Read, IsKeyword;
    ReadOpen(q, "");
    assert " (" + "" == " (";
    ReadWordAnd(q, "WHERE", " (");
    assert "WHERE (" == "WHERE" + " (";
  }

  lemma ReadCloseBoth(q: State)
    requires q.mode == Code && 2 <= q.depth
    ensures Read(q, "))\n") == q.(depth := q.depth - 2)
  {
    hide Read, IsKeyword;
    ReadEight(q, "))\n");
  }

  lemma ReadOrder(q: State)
    requires q.mode == Code
    ensures Read(q, "ORDER BY ") == q
  {
    hide Read, IsKeyword;
    ReadIdle(q, " ");
    ReadWordAnd(q, "BY", " ");
    ReadBlanksAnd(q, " ", "BY" + " ");
    ReadWordAnd(q, "ORDER", " " + ("BY" + " "));
    assert "ORDER BY " == "ORDER" + (" " + ("BY" + " "));
  }

  lemma ReadOrderBy(q: State, cur: string, pk: string)
    requires q.mode == Code && IsWord(cur) && IsWord(pk)
    ensures Read(q, OrderBy(cur, pk)) == q
  {
    hide Read, Column, IsWord;
    ReadOrder(q);
    ReadSigns(q);
    ReadColumn(q, cur);
    ReadColumn(q, pk);
    var t := ReadPart(q, q, q, "ORDER BY ", Column(cur));
    t := ReadPart(q, q, q, t, ", ");
    t := ReadPart(q, q, q, t, Column(pk));
  }

  lemma ReadLaterCursor(q: State, cur: string, curCast: string)
    requires q.mode == Code && IsWord(cur) && IsCast(curCast)
    ensures Read(q, LaterCursor(cur, curCast)) == q.(depth := q.depth + 1)
  {
    hide Read, Column, IsWord, IsCast, Flush;
    ReadColumn(q, cur);
    ReadSigns(q);
    ReadCast(q, curCast);
    ReadAfterWord(Read(q, curCast), " OR (");
    ReadOrOpen(q);
    var t := ReadPart(q, q, q, Column(cur), " > $1");
    t := ReadPart(q, q, Read(q, curCast), t, curCast);
    t := ReadPart(q, Read(q, curCast), q.(depth := q.depth + 1), t, " OR (");
  }

  lemma ReadSameCursor(q: State, cur: string, pk: string, curCast: string, pkCast: string)
    requires q.mode == Code && 2 <= q.depth && IsWord(cur) && IsWord(pk) && IsCast(curCast) && IsCast(pkCast)
    ensures Read(q, SameCursor(cur, pk, curCast, pkCast)) == q.(depth := q.depth - 2)
  {
    hide Read, Column, IsWord, IsCast, Flush;
    ReadColumn(q, cur);
    ReadColumn(q, pk);
    ReadSigns(q);
    ReadCast(q, curCast);
    ReadAfterWord(Read(q, curCast), " AND ");
    ReadAnd(q);
    ReadCast(q, pkCast);
    ReadAfterWord(Read(q, pkCast), "))\n");
    ReadCloseBoth(q);
    var t := ReadPart(q, q, q, Column(cur), " = $1");
    t := ReadPart(q, q, Read(q, curCast), t, curCast);
    t := ReadPart(q, Read(q, curCast), q, t, " AND ");
    t := ReadPart(q, q, q, t, Column(pk));
    t := ReadPart(q, q, q, t, " > $2");
    t := ReadPart(q, q, Read(q, pkCast), t, pkCast);
    t := ReadPart(q, Read(q, pkCast), q.(depth := q.depth - 2), t, "))\n");
  }

  lemma ReadWhere(q: State, cur: string, pk: string, curCast: string, pkCast: string)
    requires q.mode == Code && IsWord(cur) && IsWord(pk) && IsCast(curCast) && IsCast(pkCast)
    ensures Read(q, Where(cur, pk, curCast, pkCast)) == q
  {
    hide Read, LaterCursor, SameCursor, IsWord, IsCast;
    var q1, q2 := q.(depth := q.depth + 1), q.(depth := q.depth + 2);
    ReadWhereOpen(q);
    ReadLaterCursor(q1, cur, curCast);
    ReadSameCursor(q2, cur, pk, curCast, pkCast);
    var t := ReadPart(q, q1, q2, "WHERE (", LaterCursor(cur, curCast));
    t := ReadPart(q, q2, q, t, SameCursor(cur, pk, curCast, pkCast));
  }

  lemma ReadPart(q: State, before: State, after: State, text: string, part: string) returns (longer: string)
    requires Read(q, text) == before && Read(before, part) == after
    ensures longer == text + part && Read(q, longer) == after
  {
    ReadConcat(q, text, part);
    longer := text + part;
  }

  lemma ReadLimit(q: State, parameter: char)
    requires q.mode == Code && IsDigit(parameter)
    ensures Flush(Read(q, " LIMIT $" + [parameter])).seen == q.seen + [q.depth]
  {
    hide Read, IsKeyword, Flush;
    var limit := q.(mode := Word("LIMIT"));
    assert Read(q, " LIMIT") == limit by {
      ReadEight(q, " LIMIT");
    }
    assert Flush(limit) == q.(seen := q.seen + [q.depth]) by {
      LimitIsKeyword();
      assert Flush(limit) == if IsKeyword("LIMIT") then q.(seen := q.seen + [q.depth]) else q by { FlushWord(limit); }
    }
    ReadAfterWord(limit, " $" + [parameter]);
    ReadParameter(Flush(limit), parameter);
    assert " LIMIT $" + [parameter] == " LIMIT" + (" $" + [parameter]);
    ReadConcat(q, " LIMIT", " $" + [parameter]);
  }

  lemma FlushWord(q: State)
    requires q.mode.Word?
    ensures Flush(q) == q.(mode := Code, seen := if IsKeyword(q.mode.text) then q.seen + [q.depth] else q.seen)
  {}

  lemma ReadParameter(q: State, digit: char)
    requires q.mode == Code && IsDigit(digit)
    ensures Read(q, " $" + [digit]) == q && Flush(q) == q
  {
    hide Read;
    ReadEight(q, " $" + [digit]);
  }

  lemma LimitIsKeyword()
    ensures IsKeyword("LIMIT") && IsKeyword("limit") && IsKeyword("Offset")
  {}

  // ---- Open literals, quoted names and block comments ----

  predicate IsOpen(mode: Mode) { mode in {Literal, Quoted, BlockComment} }

  predicate IsPlain(text: string) {
    '\'' !in text && '"' !in text && '*' !in text
  }

  /** Reading the text leaves open what is open, and, if `silent`, leaves everything as it is. */
  ghost predicate StaysOpen(mode: Mode, text: string, silent: bool) {
    forall q: State | q.mode == mode :: Read(q, text).mode == mode && (silent ==> Read(q, text) == q)
  }

  lemma BothStayOpen(mode: Mode, a: string, b: string, silent: bool)
    requires StaysOpen(mode, a, silent) && StaysOpen(mode, b, silent)
    ensures StaysOpen(mode, a + b, silent)
  {
    hide Read;
    forall q: State | q.mode == mode
      ensures Read(q, a + b).mode == mode && (silent ==> Read(q, a + b) == q)
    {
      ReadConcat(q, a, b);
    }
  }

  lemma PlainStaysOpen(mode: Mode, text: string, silent: bool)
    requires IsOpen(mode) && IsPlain(text)
    ensures StaysOpen(mode, text, silent)
  {
    hide Read;
    forall q: State | q.mode == mode
      ensures Read(q, text) == q
    {
      ReadWithoutEnd(q, text);
    }
  }

  lemma WordIsPlain(name: string)
    requires IsWord(name)
    ensures IsPlain(name)
  {
    assert forall i | 0 <= i < |name| :: name[i] !in {'\'', '"', '*'};
  }

  lemma CastIsPlain(cast: string)
    requires IsCast(cast)
    ensures IsPlain(cast)
  {
    if cast != "" {
      WordIsPlain(cast[2..]);
      hide IsWord, IsKeyword;
      assert cast == "::" + cast[2..];
    }
  }

  /** Inside an open quoted name, a quoted column ends it and opens it again; the column's name is
      read as code in between. */
  lemma ColumnInsideQuotes(q: State, name: string)
    requires q.mode == Quoted && IsWord(name)
    ensures Read(q, Column(name)).mode == Quoted && (!IsKeyword(name) ==> Read(q, Column(name)) == q)
  {
    hide Read, IsKeyword, IsWord;
    var code := q.(mode := Code);
    ReadEight(q, "q.\"");
    ReadWord(code, name);
    ReadConcat(q, "q.\"", name);
    ReadConcat(q, "q.\"" + name, "\"");
    ReadEight(q.(mode := Word(name)), "\"");
  }

  /** The name of a column shows as a keyword only to a reader inside an open quoted name. */
  predicate IsSilent(mode: Mode, name: string) {
    mode == Quoted ==> !IsKeyword(name)
  }

  lemma ColumnStaysOpen(mode: Mode, name: string, silent: bool)
    requires IsOpen(mode) && IsWord(name) && (silent ==> IsSilent(mode, name))
    ensures StaysOpen(mode, Column(name), silent)
  {
    hide Read, IsKeyword, IsWord;
    WordIsPlain(name);
    forall q: State | q.mode == mode
      ensures Read(q, Column(name)).mode == mode && (silent ==> Read(q, Column(name)) == q)
    {
      if mode == Quoted { ColumnInsideQuotes(q, name); } else { ReadWithoutEnd(q, Column(name)); }
    }
  }

  lemma OrderByStaysOpen(mode: Mode, cur: string, pk: string, silent: bool)
    requires IsOpen(mode) && IsWord(cur) && IsWord(pk)
    requires silent ==> IsSilent(mode, cur) && IsSilent(mode, pk)
    ensures StaysOpen(mode, OrderBy(cur, pk), silent)
  {
    hide StaysOpen, Column, IsWord, IsSilent;
    PlainStaysOpen(mode, "ORDER BY ", silent);
    ColumnStaysOpen(mode, cur, silent);
    PlainStaysOpen(mode, ", ", silent);
    ColumnStaysOpen(mode, pk, silent);
    BothStayOpen(mode, "ORDER BY ", Column(cur), silent);
    BothStayOpen(mode, "ORDER BY " + Column(cur), ", ", silent);
    BothStayOpen(mode, "ORDER BY " + Column(cur) + ", ", Column(pk), silent);
  }

  lemma LaterCursorStaysOpen(mode: Mode, cur: string, curCast: string, silent: bool)
    requires IsOpen(mode) && IsWord(cur) && IsCast(curCast) && (silent ==> IsSilent(mode, cur))
    ensures StaysOpen(mode, LaterCursor(cur, curCast), silent)
  {
    hide StaysOpen, Column, IsWord, IsCast, IsSilent;
    var sign := " > $1" + curCast + " OR (";
    ColumnStaysOpen(mode, cur, silent);
    CastIsPlain(curCast);
    PlainStaysOpen(mode, sign, silent);
    BothStayOpen(mode, Column(cur), sign, silent);
    assert LaterCursor(cur, curCast) == Column(cur) + sign;
  }

  lemma SameCursorStaysOpen(mode: Mode, cur: string, pk: string, curCast: string, pkCast: string, silent: bool)
    requires IsOpen(mode) && IsWord(cur) && IsWord(pk) && IsCast(curCast) && IsCast(pkCast)
    requires silent ==> IsSilent(mode, cur) && IsSilent(mode, pk)
    ensures StaysOpen(mode, SameCursor(cur, pk, curCast, pkCast), silent)
  {
    hide StaysOpen, Column, IsWord, IsCast, IsSilent;
    var middle, last := " = $1" + curCast + " AND ", " > $2" + pkCast + "))\n";
    CastIsPlain(curCast);
    CastIsPlain(pkCast);
    ColumnStaysOpen(mode, cur, silent);
    PlainStaysOpen(mode, middle, silent);
    ColumnStaysOpen(mode, pk, silent);
    PlainStaysOpen(mode, last, silent);
    BothStayOpen(mode, Column(cur), middle, silent);
    BothStayOpen(mode, Column(cur) + middle, Column(pk), silent);
    BothStayOpen(mode, Column(cur) + middle + Column(pk), last, silent);
    Regrouped(Column(cur), " = $1", curCast, " AND ", Column(pk), " > $2", pkCast, "))\n");
  }

  lemma Regrouped(a: string, b: string, c: string, d: string, e: string, f: string, g: string, h: string)
    ensures a + b + c + d + e + f + g + h == a + (b + c + d) + e + (f + g + h)
  {}

  lemma WhereStaysOpen(mode: Mode, cur: string, pk: string, curCast: string, pkCast: string, silent: bool)
    requires IsOpen(mode) && IsWord(cur) && IsWord(pk) && IsCast(curCast) && IsCast(pkCast)
    requires silent ==> IsSilent(mode, cur) && IsSilent(mode, pk)
    ensures StaysOpen(mode, Where(cur, pk, curCast, pkCast), silent)
  {
    hide StaysOpen, LaterCursor, SameCursor, IsWord, IsCast, IsSilent;
    PlainStaysOpen(mode, "WHERE (", silent);
    LaterCursorStaysOpen(mode, cur, curCast, silent);
    SameCursorStaysOpen(mode, cur, pk, curCast, pkCast, silent);
    BothStayOpen(mode, "WHERE (", LaterCursor(cur, curCast), silent);
    BothStayOpen(mode, "WHERE (" + LaterCursor(cur, curCast), SameCursor(cur, pk, curCast, pkCast), silent);
  }

  /** What is read of the head when the statement leaves something open. */
  lemma OpenHead(sql: string) returns (q: State)
    requires !Closed(sql)
    ensures Read(START, Head(sql)) == q && IsOpen(q.mode)
    ensures q.mode == Quoted <==> Scan(sql).mode == Quoted
    ensures Flush(q).seen == Inside(sql).seen
  {
    hide Read;
    var q0 := State(Code, 1, [], false);
    var r := Read(q0, sql);
    ReadOpening();
    ModeIsLexical(START, q0, sql);
    ReadConcat(START, OPENING, sql);
    ReadConcat(START, OPENING + sql, "\n");
    ReadEight(r, "\n");
    q := Step(r, '\n');
    ReadConcat(START, OPENING + sql + "\n", ") q\n");
    ReadWithoutEnd(q, ") q\n");
  }

  /** Behind an open text a limit is no keyword. */
  lemma LimitUnread(body: string, limit: string)
    requires IsOpen(Read(START, body).mode) && IsPlain(limit)
    ensures Scan(body + limit).seen == Scan(body).seen
  {
    hide Read;
    ReadConcat(START, body, limit);
    ReadWithoutEnd(Read(START, body), limit);
  }

  /** Names and casts the connector writes into its wrapper. */
  predicate AreNames(cur: string, pk: string, curCast: string, pkCast: string) {
    IsWord(cur) && IsWord(pk) && IsCast(curCast) && IsCast(pkCast)
  }

  lemma OpenBodies(sql: string, cur: string, pk: string, curCast: string, pkCast: string, silent: bool)
    requires !Closed(sql) && AreNames(cur, pk, curCast, pkCast)
    requires silent ==> IsSilent(Scan(sql).mode, cur) && IsSilent(Scan(sql).mode, pk)
    ensures IsOpen(Read(START, FirstBody(sql, cur, pk)).mode)
    ensures IsOpen(Read(START, NextBody(sql, cur, pk, curCast, pkCast)).mode)
    ensures silent ==> Scan(FirstBody(sql, cur, pk)).seen == Inside(sql).seen
    ensures silent ==> Scan(NextBody(sql, cur, pk, curCast, pkCast)).seen == Inside(sql).seen
  {
    hide Read, Closed, Head, Where, OrderBy, Inside, IsWord, IsCast, IsKeyword;
    var q := OpenHead(sql);
    var where, order := Where(cur, pk, curCast, pkCast), OrderBy(cur, pk);
    OrderByStaysOpen(q.mode, cur, pk, silent);
    WhereStaysOpen(q.mode, cur, pk, curCast, pkCast, silent);
    ReadConcat(START, Head(sql), order);
    ReadConcat(START, Head(sql), where);
    ReadConcat(START, Head(sql) + where, order);
  }

  /** A statement that leaves a literal, quoted name or block comment open swallows the connector's
      limit.  The columns behind it may show as keywords only where it leaves a quoted name open. */
  lemma OpenTextSwallowsLimit(sql: string, cur: string, pk: string, curCast: string, pkCast: string)
    requires !Closed(sql) && AreNames(cur, pk, curCast, pkCast)
    ensures Scan(FirstPage(sql, cur, pk)).seen == Scan(FirstBody(sql, cur, pk)).seen
    ensures Scan(NextPage(sql, cur, pk, curCast, pkCast)).seen == Scan(NextBody(sql, cur, pk, curCast, pkCast)).seen
    ensures IsSilent(Scan(sql).mode, cur) && IsSilent(Scan(sql).mode, pk) ==>
              && Scan(FirstPage(sql, cur, pk)).seen == Inside(sql).seen
              && Scan(NextPage(sql, cur, pk, curCast, pkCast)).seen == Inside(sql).seen
  {
    hide Read, Closed, FirstBody, NextBody, Inside, AreNames, IsSilent, Scan;
    OpenBodies(sql, cur, pk, curCast, pkCast, IsSilent(Scan(sql).mode, cur) && IsSilent(Scan(sql).mode, pk));
    LimitUnread(FirstBody(sql, cur, pk), " LIMIT $1");
    LimitUnread(NextBody(sql, cur, pk, curCast, pkCast), " LIMIT $3");
  }

  // ---- What the wrapped statement limits ----

  /** The keywords of a wrapped statement are those of the statement, read one parenthesis down,
      followed by the connector's own LIMIT behind the closing parenthesis. */
  lemma WrappedKeywords(sql: string, cur: string, pk: string, curCast: string, pkCast: string)
    requires Closed(sql) && IsWord(cur) && IsWord(pk) && IsCast(curCast) && IsCast(pkCast)
    ensures Scan(FirstBody(sql, cur, pk)).seen == Inside(sql).seen
    ensures Scan(NextBody(sql, cur, pk, curCast, pkCast)).seen == Inside(sql).seen
    ensures Scan(FirstPage(sql, cur, pk)).seen == Inside(sql).seen + [AfterClosing(Inside(sql)).depth]
    ensures Scan(NextPage(sql, cur, pk, curCast, pkCast)).seen == Inside(sql).seen + [AfterClosing(Inside(sql)).depth]
  {
    hide Read, Closed, Head, Where, OrderBy, Inside, IsWord, IsCast;
    var q := AfterClosing(Inside(sql));
    var where, order := Where(cur, pk, curCast, pkCast), OrderBy(cur, pk);
    ReadHead(sql);
    ReadOrderBy(q, cur, pk);
    ReadConcat(START, Head(sql), order);
    ReadConcat(START, Head(sql) + order, " LIMIT $1");
    assert " LIMIT $1" == " LIMIT $" + ['1'];
    ReadLimit(q, '1');
    ReadWhere(q, cur, pk, curCast, pkCast);
    ReadConcat(START, Head(sql), where);
    ReadConcat(START, Head(sql) + where, order);
    ReadConcat(START, Head(sql) + where + order, " LIMIT $3");
    assert " LIMIT $3" == " LIMIT $" + ['3'];
    ReadLimit(q, '3');
  }

  /** The last nine characters, the connector's limit, are the only LIMIT or OFFSET outside all
      parentheses. */
  predicate OnlyOwnLimit(wrapped: string) {
    && |wrapped| >= 9
    && var body := wrapped[..|wrapped| - 9];
       0 !in Scan(body).seen && Scan(wrapped).seen == Scan(body).seen + [0]
  }

  lemma OwnLimitOf(body: string, limit: string)
    requires |limit| == 9
    ensures OnlyOwnLimit(body + limit) <==>
              0 !in Scan(body).seen && Scan(body + limit).seen == Scan(body).seen + [0]
  {
    assert (body + limit)[..|body|] == body;
  }

  lemma OwnLimitsOf(sql: string, cur: string, pk: string, curCast: string, pkCast: string)
    ensures var body, page := FirstBody(sql, cur, pk), FirstPage(sql, cur, pk);
            OnlyOwnLimit(page) <==> 0 !in Scan(body).seen && Scan(page).seen == Scan(body).seen + [0]
    ensures var body, page := NextBody(sql, cur, pk, curCast, pkCast), NextPage(sql, cur, pk, curCast, pkCast);
            OnlyOwnLimit(page) <==> 0 !in Scan(body).seen && Scan(page).seen == Scan(body).seen + [0]
  {
    hide FirstBody, NextBody, OnlyOwnLimit, Scan;
    OwnLimitOf(FirstBody(sql, cur, pk), " LIMIT $1");
    OwnLimitOf(NextBody(sql, cur, pk, curCast, pkCast), " LIMIT $3");
  }

  /** The same text read further out (`q`) and further in (`r`). */
  predicate FurtherIn(q: State, r: State) {
    q.mode == r.mode && q.depth <= r.depth && (0 in r.seen ==> 0 in q.seen)
  }

  lemma FurtherInStep(q: State, r: State, c: char)
    requires FurtherIn(q, r)
    ensures FurtherIn(Step(q, c), Step(r, c)) && FurtherIn(Flush(q), Flush(r))
  {
    hide IsKeyword, InWord, StartsWord, Enter;
    FurtherInFlush(q, r);
    FurtherInEnter(q, r, c);
    FurtherInEnter(Flush(q), Flush(r), c);
  }

  lemma FurtherInFlush(q: State, r: State)
    requires FurtherIn(q, r)
    ensures FurtherIn(Flush(q), Flush(r))
  {
    hide IsKeyword;
    assert 0 in r.seen + [r.depth] ==> 0 in q.seen + [q.depth];
  }

  lemma FurtherInEnter(q: State, r: State, c: char)
    requires FurtherIn(q, r)
    ensures FurtherIn(Enter(q, c), Enter(r, c))
  {
    hide StartsWord;
  }

  lemma {:induction false} StaysFurtherIn(q: State, r: State, text: string)
    requires FurtherIn(q, r)
    ensures FurtherIn(Flush(Read(q, text)), Flush(Read(r, text)))
    decreases |text|
  {
    hide FurtherIn, Step, Flush;
    FurtherInStep(q, r, if text == "" then ' ' else text[0]);
    if text != [] { StaysFurtherIn(Step(q, text[0]), Step(r, text[0]), text[1..]); }
  }

  /** A statement that passes the scanner is wrapped with exactly one outer limit, its connector's,
      if and only if it leaves no literal, quoted name or block comment open and no parenthesis. */
  lemma OwnLimitIffNothingLeftOpen(sql: string, cur: string, pk: string, curCast: string, pkCast: string)
    requires !HasTopLevel(sql) && AreNames(cur, pk, curCast, pkCast)
    ensures OnlyOwnLimit(FirstPage(sql, cur, pk)) <==> Closed(sql) && Inside(sql).depth <= 1
    ensures OnlyOwnLimit(NextPage(sql, cur, pk, curCast, pkCast)) <==> Closed(sql) && Inside(sql).depth <= 1
  {
    hide Read, Closed, FirstPage, NextPage, FirstBody, NextBody, IsWord, IsCast, OnlyOwnLimit, Scan, Inside;
    NoOuterKeywordInside(sql);
    OwnLimitsOf(sql, cur, pk, curCast, pkCast);
    if Closed(sql) {
      WrappedKeywords(sql, cur, pk, curCast, pkCast);
      SameTail(Inside(sql).seen, AfterClosing(Inside(sql)).depth, 0);
    } else {
      OpenTextSwallowsLimit(sql, cur, pk, curCast, pkCast);
      assert forall seen: seq<nat> :: |seen + [0]| > |seen|;
    }
  }

  lemma SameTail(seen: seq<nat>, a: nat, b: nat)
    ensures seen + [a] == seen + [b] <==> a == b
  {
    assert (seen + [a])[|seen|] == a && (seen + [b])[|seen|] == b;
  }

  lemma NoOuterKeywordInside(sql: string)
    requires !HasTopLevel(sql)
    ensures 0 !in Inside(sql).seen
  {
    hide Read;
    StaysFurtherIn(START, State(Code, 1, [], false), sql);
  }

  /** A state seen from one parenthesis further in. */
  function Raised(q: State): State {
    State(q.mode, q.depth + 1, seq(|q.seen|, i requires 0 <= i < |q.seen| => q.seen[i] + 1), q.dipped)
  }

  lemma RaisedStep(q: State, c: char)
    requires !Step(q, c).dipped
    ensures Step(Raised(q), c) == Raised(Step(q, c))
  {
    hide IsKeyword, InWord, StartsWord, Enter;
    if q.mode.Word? && IsKeyword(q.mode.text) && !InWord(c) {
      assert Raised(q).seen + [q.depth + 1] == Raised(Flush(q)).seen;
    }
    match q.mode
    case Code => RaisedEnter(q, c);
    case Dash => if c != '-' { RaisedEnter(q, c); }
    case Slash => if c != '*' { RaisedEnter(q, c); }
    case Word(_) => if !InWord(c) { RaisedEnter(Flush(q), c); }
    case _ =>
  }

  lemma RaisedEnter(q: State, c: char)
    requires !Enter(q, c).dipped
    ensures Enter(Raised(q), c) == Raised(Enter(q, c))
  {
    hide StartsWord;
  }

  lemma {:induction false} DippingStays(q: State, text: string)
    requires q.dipped
    ensures Read(q, text).dipped
    decreases |text|
  {
    if text != [] { DippingStays(Step(q, text[0]), text[1..]); }
  }

  lemma {:induction false} ReadRaised(q: State, text: string)
    requires !Read(q, text).dipped
    ensures Read(Raised(q), text) == Raised(Read(q, text))
    decreases |text|
  {
    if text != [] {
      var next := Step(q, text[0]);
      if next.dipped { DippingStays(next, text[1..]); }
      RaisedStep(q, text[0]);
      ReadRaised(next, text[1..]);
    }
  }

  lemma BalancedInside(sql: string)
    requires Balanced(sql)
    ensures Inside(sql) == Raised(Scan(sql))
  {
    hide Read;
    var q := Read(START, sql);
    assert Raised(START) == State(Code, 1, [], false);
    ReadRaised(START, sql);
    assert Flush(Raised(q)).seen == Raised(Flush(q)).seen;
  }

  /** For every balanced statement with closed literals and comments, whatever it ends in: the
      wrapped text has exactly one outer LIMIT or OFFSET, the connector's own, and the scanner
      accepts the statement exactly when the wrapped query is not itself limited, that is when no
      keyword lies directly inside the wrapper's parentheses. */
  lemma BalancedStatementsWrapSafely(sql: string, cur: string, pk: string, curCast: string, pkCast: string)
    requires Closed(sql) && IsWord(cur) && IsWord(pk) && IsCast(curCast) && IsCast(pkCast)
    requires Balanced(sql)
    ensures OnlyOwnLimit(FirstPage(sql, cur, pk))
    ensures OnlyOwnLimit(NextPage(sql, cur, pk, curCast, pkCast))
    ensures HasTopLevel(sql) <==> 1 in Scan(FirstPage(sql, cur, pk)).seen
    ensures HasTopLevel(sql) <==> 1 in Scan(NextPage(sql, cur, pk, curCast, pkCast)).seen
  {
    hide Read, Closed, FirstPage, NextPage, FirstBody, NextBody, Scan, OnlyOwnLimit;
    WrappedKeywords(sql, cur, pk, curCast, pkCast);
    OwnLimitsOf(sql, cur, pk, curCast, pkCast);
    BalancedInside(sql);
    assert AfterClosing(Inside(sql)).depth == 0;
    RaisedSeen(Scan(sql));
  }

  lemma RaisedSeen(q: State)
    ensures 0 !in Raised(q).seen
    ensures 1 in Raised(q).seen <==> 0 in q.seen
  {
    if 0 in q.seen {
      var i :| 0 <= i < |q.seen| && q.seen[i] == 0;
      assert Raised(q).seen[i] == 1;
    }
  }

  // ---- The gate ----

  datatype Rejection = Empty | ManyStatements | BindParameters | NotASelect | OuterLimit

  // Trims, then drops a final semicolon: behind a trimmed text no blanks can follow it.
  function Strip(raw: string): string {
    var t := Trim(raw);
    if t != "" && t[|t| - 1] == ';' then t[..|t| - 1] else t
  }

  predicate DollarAt(s: string, i: nat)
    requires i + 1 < |s|
  {
    s[i] == '$' && IsDigit(s[i + 1])
  }

  predicate ColonAt(s: string, i: nat)
    requires i + 1 < |s|
  {
    s[i] == ':' && StartsWord(s[i + 1]) && (i == 0 || s[i - 1] != ':')
  }

  predicate HasBindParameter(s: string) {
    exists i | 0 <= i < |s| - 1 :: DollarAt(s, i) || ColonAt(s, i)
  }

  function CountOpen(s: string): (n: nat)
    ensures n <= |s|
  {
    if s == "" || s[0] != '(' then 0 else 1 + CountOpen(s[1..])
  }

  // Drops blanks, opening parentheses without a gap, and blanks again, if there is a parenthesis.
  function DropOpening(s: string): string {
    var t := s[BlanksBefore(s)..];
    var parens := CountOpen(t);
    if parens == 0 then s else t[parens..][BlanksBefore(t[parens..])..]
  }

  predicate BeginsWithWord(s: string, word: string) {
    && word <= Lowered(s)
    && (|s| == |word| || !(StartsWord(s[|word|]) || IsDigit(s[|word|])))
  }

  function ValidateReadOnlySelect(raw: string): Result<string, Rejection> {
    var s := Strip(raw);
    if s == "" then Err(Empty)
    else if ';' in s then Err(ManyStatements)
    else if HasBindParameter(s) then Err(BindParameters)
    else if !BeginsWithWord(DropOpening(s), "select") && !BeginsWithWord(DropOpening(s), "with") then Err(NotASelect)
    else if HasTopLevel(s) then Err(OuterLimit)
    else Ok(s)
  }

  // ---- What the gate asks for, in terms of the text ----

  /** Blanks, opening parentheses, blanks, and then the word `select` or `with` in any case. */
  ghost predicate StartsAsSelect(s: string) {
    exists i, j, k | 0 <= i <= j <= k <= |s| :: SelectAt(s, i, j, k)
  }

  ghost predicate SelectAt(s: string, i: nat, j: nat, k: nat)
    requires i <= j <= k <= |s|
  {
    && AllBlank(s[..i]) && (forall n | i <= n < j :: s[n] == '(') && AllBlank(s[j..k])
    && (WordAt(s, k, "select") || WordAt(s, k, "with"))
  }

  /** The letters of the word, then the end or no letter, digit or underscore. */
  predicate WordAt(s: string, k: nat, word: string) {
    && k + |word| <= |s| && Lowered(s[k..k + |word|]) == word
    && (k + |word| < |s| ==>
          var c := s[k + |word|];
          !('a' <= c <= 'z' || 'A' <= c <= 'Z' || '0' <= c <= '9' || c == '_'))
  }

  /** A dollar sign before a digit, or a single colon before a letter or underscore. */
  ghost predicate BindsAt(s: string, i: nat)
    requires i + 1 < |s|
  {
    var c := s[i + 1];
    || (s[i] == '$' && '0' <= c <= '9')
    || (s[i] == ':' && ('a' <= c <= 'z' || 'A' <= c <= 'Z' || c == '_') && (i > 0 ==> s[i - 1] != ':'))
  }

  ghost predicate Binds(s: string) {
    exists i: nat | i + 1 < |s| :: BindsAt(s, i)
  }

  lemma WordStart(c: char)
    ensures StartsWord(c) <==> 'a' <= c <= 'z' || 'A' <= c <= 'Z' || c == '_'
  {}

  lemma BindsWhere(s: string, i: nat)
    requires i + 1 < |s|
    ensures BindsAt(s, i) <==> DollarAt(s, i) || ColonAt(s, i)
  {
    WordStart(s[i + 1]);
    hide StartsWord;
  }

  lemma BindsExactly(s: string)
    ensures HasBindParameter(s) <==> Binds(s)
  {
    hide BindsAt, DollarAt, ColonAt;
    forall i: nat | i + 1 < |s|
      ensures BindsAt(s, i) <==> DollarAt(s, i) || ColonAt(s, i)
    {
      BindsWhere(s, i);
    }
  }

  lemma BlanksBeforeIs(s: string, n: nat)
    requires n <= |s| && AllBlank(s[..n]) && (n < |s| ==> !IsBlank(s[n]))
    ensures BlanksBefore(s) == n
  {
    hide BlanksBefore, IsBlank;
    var m := BlanksBefore(s);
    assert forall i | 0 <= i < n :: s[..n][i] == s[i];
    assert forall i | 0 <= i < m :: s[..m][i] == s[i];
  }

  lemma {:induction false} CountOpenMeans(s: string)
    ensures var n := CountOpen(s);
            (forall i | 0 <= i < n :: s[i] == '(') && (n < |s| ==> s[n] != '(')
  {
    if s != "" && s[0] == '(' {
      CountOpenMeans(s[1..]);
      assert forall i | 1 <= i < CountOpen(s) :: s[i] == s[1..][i - 1];
    }
  }

  lemma WordStarts(s: string, k: nat)
    requires k <= |s| && (WordAt(s, k, "select") || WordAt(s, k, "with"))
    ensures k < |s| && s[k] in {'s', 'S', 'w', 'W'}
  {
    var n := if WordAt(s, k, "select") then 6 else 4;
    assert Lowered(s[k..k + n])[0] == ToLower(s[k]);
  }

  lemma WordInRest(s: string, k: nat, word: string)
    requires k <= |s|
    ensures WordAt(s, k, word) <==> BeginsWithWord(s[k..], word)
  {
    var rest := s[k..];
    if k + |word| <= |s| {
      assert rest[..|word|] == s[k..k + |word|];
      assert Lowered(rest)[..|word|] == Lowered(s[k..k + |word|]);
      assert k + |word| < |s| ==> rest[|word|] == s[k + |word|];
    }
  }

  lemma DropOpeningAt(s: string, j: nat)
    requires s != "" && BlanksBefore(s) == 0 && j == CountOpen(s)
    ensures DropOpening(s) == if j == 0 then s else s[j..][BlanksBefore(s[j..])..]
  {
    hide BlanksBefore, CountOpen;
    assert s[0..] == s;
  }

  lemma CutTwice(s: string, j: nat, n: nat)
    requires j <= |s| && n <= |s[j..]|
    ensures s[j..][..n] == s[j..j + n] && s[j..][n..] == s[j + n..]
  {}

  lemma BlanksFrom(s: string, j: nat) returns (k: nat)
    requires j <= |s|
    ensures j <= k <= |s| && s[j..][BlanksBefore(s[j..])..] == s[k..]
    ensures AllBlank(s[j..k]) && (k < |s| ==> !IsBlank(s[k]))
  {
    hide BlanksBefore, IsBlank, AllBlank;
    var n := BlanksBefore(s[j..]);
    k := j + n;
    CutTwice(s, j, n);
    assert k < |s| ==> s[k] == s[j..][n];
  }

  /** Where the head of a text begins that starts with no blank. */
  lemma DropOpeningCuts(s: string) returns (j: nat, k: nat)
    requires s != "" && !IsBlank(s[0])
    ensures j <= k <= |s| && DropOpening(s) == s[k..]
    ensures (forall n | 0 <= n < j :: s[n] == '(') && AllBlank(s[j..k])
    ensures (j < |s| ==> s[j] != '(') && (k < |s| ==> !IsBlank(s[k]))
  {
    BlanksBeforeIs(s, 0);
    hide BlanksBefore, CountOpen, IsBlank, DropOpening;
    j := CountOpen(s);
    CountOpenMeans(s);
    DropOpeningAt(s, j);
    if j == 0 {
      k := 0;
      assert s[0..] == s && s[0..0] == "";
    } else {
      k := BlanksFrom(s, j);
    }
  }

  lemma NoBlankFront(s: string, n: nat)
    requires s != "" && !IsBlank(s[0]) && n <= |s| && AllBlank(s[..n])
    ensures n == 0
  {
    if n > 0 {
      FirstOfFront(s, n);
      assert false;
    }
  }

  lemma FirstOfFront(s: string, n: nat)
    requires 0 < n <= |s|
    ensures s[..n][0] == s[0]
  {}

  lemma SelectIsWhereDropped(s: string, j: nat, k: nat, a: nat, b: nat, c: nat)
    requires s != "" && !IsBlank(s[0]) && j <= k <= |s| && a <= b <= c <= |s| && SelectAt(s, a, b, c)
    requires (forall n | 0 <= n < j :: s[n] == '(') && AllBlank(s[j..k])
    requires (j < |s| ==> s[j] != '(') && (k < |s| ==> !IsBlank(s[k]))
    ensures c == k
  {
    WordStarts(s, c);
    hide WordAt;
    NoBlankFront(s, a);
    assert s[c] != '(' && !IsBlank(s[c]) && !IsBlank('(');
    assert forall n | b <= n < c :: IsBlank(s[n]) by { assert forall n | b <= n < c :: s[n] == s[b..c][n - b]; }
    assert forall n | j <= n < k :: IsBlank(s[n]) by { assert forall n | j <= n < k :: s[n] == s[j..k][n - j]; }
    hide IsBlank;
  }

  /** Whether the gate takes a text without a leading blank for a query. */
  lemma SelectExactly(s: string)
    requires s != "" && !IsBlank(s[0])
    ensures BeginsWithWord(DropOpening(s), "select") || BeginsWithWord(DropOpening(s), "with") <==> StartsAsSelect(s)
  {
    var j, k := DropOpeningCuts(s);
    WordInRest(s, k, "select");
    WordInRest(s, k, "with");
    hide DropOpening, BeginsWithWord, IsBlank, WordAt;
    if WordAt(s, k, "select") || WordAt(s, k, "with") {
      assert s[..0] == "";
      assert SelectAt(s, 0, j, k);
    }
    if a, b, c :| 0 <= a <= b <= c <= |s| && SelectAt(s, a, b, c) {
      SelectIsWhereDropped(s, j, k, a, b, c);
    }
  }

  /** What is checked: the text without the blanks around it and without one final semicolon. */
  lemma StripMeans(raw: string) returns (left: string, right: string)
    ensures var s := Strip(raw);
            && AllBlank(left) && AllBlank(right)
            && (s != "" ==> !IsBlank(s[0]))
            && (raw == left + (s + ";") + right
                || (raw == left + s + right && (s != "" ==> s[|s| - 1] != ';' && !IsBlank(s[|s| - 1]))))
  {
    hide AllBlank, IsBlank, BlanksBehind, BlanksBefore;
    left, right := TrimOnlyDropsBlanks(raw);
    TrimmedEnds(raw);
    var t := Trim(raw);
    if t != "" && t[|t| - 1] == ';' { assert t == t[..|t| - 1] + ";"; }
    hide Trim;
  }

  lemma TrimmedEnds(raw: string)
    ensures var t := Trim(raw); t != "" ==> !IsBlank(t[0]) && !IsBlank(t[|t| - 1])
  {
    hide IsBlank, BlanksBehind, BlanksBefore;
  }

  /** The gate accepts a text exactly when it is not empty, has no semicolon inside, binds nothing,
      starts as a query, and has no outer limit; otherwise the first of these that fails is the
      reason. */
  lemma GateExactly(raw: string)
    ensures var s, verdict := Strip(raw), ValidateReadOnlySelect(raw);
            && (verdict == Err(Empty) <==> s == "")
            && (verdict == Err(ManyStatements) <==> ';' in s)
            && (verdict == Err(BindParameters) <==> s != "" && ';' !in s && Binds(s))
            && (verdict == Err(NotASelect) <==> s != "" && ';' !in s && !Binds(s) && !StartsAsSelect(s))
            && (verdict == Err(OuterLimit) <==>
                  s != "" && ';' !in s && !Binds(s) && StartsAsSelect(s) && HasTopLevel(s))
            && (verdict == Ok(s) <==> s != "" && ';' !in s && !Binds(s) && StartsAsSelect(s) && !HasTopLevel(s))
  {
    var s := Strip(raw);
    BindsExactly(s);
    if s != "" {
      var left, right := StripMeans(raw);
      SelectExactly(s);
    }
    hide Strip, Binds, StartsAsSelect, HasTopLevel, HasBindParameter, BeginsWithWord, DropOpening;
  }

  lemma TrimOnlyDropsBlanks(raw: string) returns (left: string, right: string)
    ensures raw == left + Trim(raw) + right && AllBlank(left) && AllBlank(right)
  {
    hide AllBlank, IsBlank, BlanksBefore, BlanksBehind;
    var t := raw[BlanksBefore(raw)..];
    left := raw[..BlanksBefore(raw)];
    right := t[|t| - BlanksBehind(t)..];
    CutInThree(raw, |left|, t, |t| - |right|);
  }

  lemma CutInThree(s: string, n: nat, behind: string, m: nat)
    requires n <= |s| && behind == s[n..] && m <= |behind|
    ensures s == s[..n] + behind[..m] + behind[m..]
  {
    assert s == s[..n] + behind && behind == behind[..m] + behind[m..];
  }

  /** An accepted text is a single statement: up to blanks around it, it is the statement handed
      on, with at most one semicolon and that one last. */
  lemma AcceptedIsOneStatement(raw: string) returns (left: string, right: string)
    requires ValidateReadOnlySelect(raw).Ok?
    ensures var s := ValidateReadOnlySelect(raw).value;
            && s != "" && ';' !in s && AllBlank(left) && AllBlank(right)
            && (raw == left + s + right || raw == left + (s + ";") + right)
  {
    hide Trim, HasBindParameter, BeginsWithWord, HasTopLevel, DropOpening;
    left, right := TrimOnlyDropsBlanks(raw);
    var t := Trim(raw);
    if t != "" && t[|t| - 1] == ';' { assert t == t[..|t| - 1] + ";"; }
  }

  /** End to end: a text that passes the gate with balanced parentheses and closed literals is
      wrapped so that only the connector's own limit applies, outside as well as inside. */
  lemma AcceptedStatementsWrapSafely(raw: string, cur: string, pk: string, curCast: string, pkCast: string)
    requires IsWord(cur) && IsWord(pk) && IsCast(curCast) && IsCast(pkCast)
    requires Closed(Strip(raw)) && Balanced(Strip(raw))
    ensures var verdict := ValidateReadOnlySelect(raw);
            verdict.Ok? ==>
              && OnlyOwnLimit(FirstPage(verdict.value, cur, pk))
              && OnlyOwnLimit(NextPage(verdict.value, cur, pk, curCast, pkCast))
              && 1 !in Scan(FirstPage(verdict.value, cur, pk)).seen
              && 1 !in Scan(NextPage(verdict.value, cur, pk, curCast, pkCast)).seen
    ensures HasTopLevel(Strip(raw)) ==> ValidateReadOnlySelect(raw).Err?
  {
    hide Strip, Closed, Balanced, HasTopLevel, FirstPage, NextPage, OnlyOwnLimit;
    BalancedStatementsWrapSafely(Strip(raw), cur, pk, curCast, pkCast);
  }

  /** And a text that passes the gate is wrapped with the connector's limit in force if and only if
      it leaves nothing open. */
  lemma AcceptedLimitedIff(raw: string, cur: string, pk: string, curCast: string, pkCast: string)
    requires ValidateReadOnlySelect(raw).Ok? && AreNames(cur, pk, curCast, pkCast)
    ensures var sql := ValidateReadOnlySelect(raw).value;
            && (OnlyOwnLimit(FirstPage(sql, cur, pk)) <==> Closed(sql) && Inside(sql).depth <= 1)
            && (OnlyOwnLimit(NextPage(sql, cur, pk, curCast, pkCast)) <==> Closed(sql) && Inside(sql).depth <= 1)
  {
    hide Strip, Closed, HasTopLevel, FirstPage, NextPage, OnlyOwnLimit, Inside, AreNames;
    OwnLimitIffNothingLeftOpen(Strip(raw), cur, pk, curCast, pkCast);
  }

  // ---- Why the conditions are needed ----

  /** What is read of the two examples, at any depth. */
  lemma ReadExamples(q: State)
    requires q.mode == Code
    ensures Flush(Read(q, "select (1")) == q.(depth := q.depth + 1)
    ensures Flush(Read(q, "select 'x")) == q.(mode := Literal)
  {
    hide Read, IsKeyword;
    ReadOpen(q, "1");
    ReadWordAnd(q, "select", " (" + "1");
    assert "select (1" == "select" + (" (" + "1");
    ReadEight(q, " 'x");
    ReadWordAnd(q, "select", " 'x");
    assert "select 'x" == "select" + " 'x";
  }

  lemma PassesGate(s: string)
    requires s != "" && Trim(s) == s && ';' !in s
    requires !HasBindParameter(s) && BeginsWithWord(DropOpening(s), "select") && !HasTopLevel(s)
    ensures ValidateReadOnlySelect(s) == Ok(s)
  {
    hide Trim, HasBindParameter, BeginsWithWord, DropOpening, HasTopLevel;
    assert s[|s| - 1] in s;
  }

  lemma IsSelect(s: string, behind: string)
    requires s == "select" + behind && behind != "" && behind[0] == ' ' && !IsBlank(behind[|behind| - 1])
    ensures Trim(s) == s && BeginsWithWord(DropOpening(s), "select")
  {
    TrimKeeps(s);
    assert s[0] == 's' && s[6] == ' ' && s[..6] == "select";
    assert BlanksBefore(s) == 0 && s[0..] == s && CountOpen(s) == 0;
    assert DropOpening(s) == s;
    hide DropOpening, BlanksBefore, CountOpen, Trim;
    assert Lowered(s)[..6] == "select";
  }

  /** Both pass the gate. */
  lemma ExampleAccepted(s: string, behind: string)
    requires s == "select" + behind && behind in {" (1", " 'x"}
    requires Scan(s).seen == []
    ensures ValidateReadOnlySelect(s) == Ok(s)
  {
    IsSelect(s, behind);
    assert ';' !in s && !HasBindParameter(s) by {
      hide Trim, BeginsWithWord, DropOpening, Scan;
      assert forall i | 0 <= i < |s| :: s[i] !in {'$', ':', ';'};
    }
    hide Trim, BeginsWithWord, DropOpening, Scan, HasBindParameter;
    PassesGate(s);
  }

  /** A parenthesis left open takes the connector's limit inside. */
  lemma OpenParenthesisHidesLimit()
    ensures ValidateReadOnlySelect("select (1") == Ok("select (1")
    ensures !HasTopLevel("select (1") && Closed("select (1")
    ensures !OnlyOwnLimit(FirstPage("select (1", "c", "p"))
  {
    hide Read, FirstPage, NextPage, OnlyOwnLimit, ValidateReadOnlySelect, IsKeyword;
    ReadExamples(START);
    ReadExamples(State(Code, 1, [], false));
    assert "select (1" == "select" + " (1";
    ExampleAccepted("select (1", " (1");
    OwnLimitIffNothingLeftOpen("select (1", "c", "p", "", "");
  }

  /** A literal left open takes it into its text. */
  lemma OpenLiteralHidesLimit()
    ensures ValidateReadOnlySelect("select 'x") == Ok("select 'x") && Scan("select 'x").mode == Literal
    ensures !OnlyOwnLimit(FirstPage("select 'x", "c", "p"))
  {
    hide Read, FirstPage, NextPage, OnlyOwnLimit, ValidateReadOnlySelect, IsKeyword;
    ReadExamples(START);
    ReadExamples(State(Code, 1, [], false));
    assert "select 'x" == "select" + " 'x";
    ExampleAccepted("select 'x", " 'x");
    OwnLimitIffNothingLeftOpen("select 'x", "c", "p", "", "");
  }
}
