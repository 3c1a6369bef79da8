/** Values as TypeScript source: the recursive printer of the use-case generator
    (scripts/gen-use-case-data.ts), and a reader for the literals it writes. */
module TsLiterals {
  import opened TextTools
  import opened Wrappers

  /** A finite number is represented by the text `String(n)` makes of it. */
  datatype Value =
    | Undefined
    | Null
    | Str(s: string)
    | Num(text: string)
    | Bool(b: bool)
    | Arr(items: seq<Value>)
    | Obj(entries: seq<(string, Value)>)

  // ---- Character classes ----

  predicate StartsName(c: char) {
    'a' <= c <= 'z' || 'A' <= c <= 'Z' || c == '_' || c == '$'
  }

  predicate InName(c: char) { StartsName(c) || IsDigit(c) }

  predicate IsName(s: string) {
    s != "" && StartsName(s[0]) && forall i | 0 <= i < |s| :: InName(s[i])
  }

  predicate InNumber(c: char) {
    IsDigit(c) || c in {'.', 'e', '+', '-'}
  }

  predicate IsNumeral(s: string) {
    s != "" && (IsDigit(s[0]) || s[0] == '-') && forall i | 0 <= i < |s| :: InNumber(s[i])
  }

  predicate IsSpace(c: char) { c == ' ' || c == '\n' }

  // ---- Strings ----

  const HEX := "0123456789abcdef"

  function CodeOf(c: char): nat { c as int }

  /** QuoteJSONString of section 25.5.2.3 of ECMA-262 on one character. */
  function EscapeJson(c: char): string {
    if c == '"' then "\\\""
    else if c == '\\' then "\\\\"
    else if c == '\n' then "\\n"
    else if c == '\r' then "\\r"
    else if c == '\t' then "\\t"
    else if CodeOf(c) == 8 then "\\b"
    else if CodeOf(c) == 12 then "\\f"
    else if CodeOf(c) < 32 then "\\u00" + [HEX[CodeOf(c) / 16], HEX[CodeOf(c) % 16]]
    else [c]
  }

  function EscapeJsonText(s: string): string {
    if s == "" then "" else EscapeJson(s[0]) + EscapeJsonText(s[1..])
  }

  function JsonStringify(s: string): string {
    "\"" + EscapeJsonText(s) + "\""
  }

  /** `s.replace(/c/g, substitute)` for one character. */
  function ReplaceAll(s: string, c: char, substitute: string): string {
    if s == "" then "" else (if s[0] == c then substitute else [s[0]]) + ReplaceAll(s[1..], c, substitute)
  }

  /** Puts a backslash before every dollar sign that opens a substitution. */
  function EscapeSubstitutions(s: string): string {
    if s == "" then ""
    else if "${" <= s then "\\${" + EscapeSubstitutions(s[2..])
    else [s[0]] + EscapeSubstitutions(s[1..])
  }

  function Template(s: string): string {
    "`" + EscapeSubstitutions(ReplaceAll(ReplaceAll(s, '\\', "\\\\"), '`', "\\`")) + "`"
  }

  function StringText(s: string): string {
    if '\n' in s then Template(s) else JsonStringify(s)
  }

  // ---- toTs ----

  function Pad(indent: nat): (pad: string)
    ensures |pad| == 2 * indent && forall i | 0 <= i < |pad| :: pad[i] == ' '
  {
    if indent == 0 then "" else "  " + Pad(indent - 1)
  }

  predicate IsShortString(v: Value) {
    v.Str? && '\n' !in v.s
  }

  predicate AllShort(items: seq<Value>) {
    items == [] || (IsShortString(items[0]) && AllShort(items[1..]))
  }

  function Inline(items: seq<Value>): seq<string>
    requires AllShort(items)
  {
    if items == [] then [] else [JsonStringify(items[0].s)] + Inline(items[1..])
  }

  function ToTs(v: Value, indent: nat): string
    decreases v
  {
    match v
    case Undefined => "undefined"
    case Null => "undefined"
    case Str(s) => StringText(s)
    case Num(text) => text
    case Bool(b) => if b then "true" else "false"
    case Arr(items) =>
      if items == [] then "[]"
      else if AllShort(items) && |Join(Inline(items), ", ")| < 80 then
        "[" + Join(Inline(items), ", ") + "]"
      else
        "[\n" + Join(ItemLines(items, indent), "\n") + "\n" + Pad(indent) + "]"
    case Obj(entries) =>
      if entries == [] then "{}"
      else "{\n" + Join(EntryLines(entries, indent), "\n") + "\n" + Pad(indent) + "}"
  }

  function ItemLines(items: seq<Value>, indent: nat): (lines: seq<string>)
    ensures |lines| == |items|
    decreases items
  {
    if items == [] then []
    else [Pad(indent + 1) + ToTs(items[0], indent + 1) + ","] + ItemLines(items[1..], indent)
  }

  function KeyText(key: string): string {
    if IsName(key) then key else JsonStringify(key)
  }

  function EntryLines(entries: seq<(string, Value)>, indent: nat): (lines: seq<string>)
    ensures |lines| == |entries|
    decreases entries
  {
    if entries == [] then []
    else
      assert entries[0].1 < entries[0];
      [Pad(indent + 1) + KeyText(entries[0].0) + ": " + ToTs(entries[0].1, indent + 1) + ","]
      + EntryLines(entries[1..], indent)
  }

  // ---- The reader ----

  function SkipSpace(s: string): (rest: string)
    ensures |rest| <= |s|
  {
    if s != "" && IsSpace(s[0]) then SkipSpace(s[1..]) else s
  }

  function HexDigit(c: char): Option<nat> {
    if '0' <= c <= '9' then Some((c - '0') as nat)
    else if 'a' <= c <= 'f' then Some((c - 'a') as nat + 10)
    else if 'A' <= c <= 'F' then Some((c - 'A') as nat + 10)
    else None
  }

  /** The character behind a backslash; octal escapes, line continuations and `\x` lie outside this
      reader. */
  function ReadEscape(s: string): (r: Option<(char, string)>)
    ensures r.Some? ==> |r.value.1| < |s|
  {
    if s == "" || IsDigit(s[0]) || s[0] in {'x', '\n', '\r'} then None
    else if s[0] == 'n' then Some(('\n', s[1..]))
    else if s[0] == 'r' then Some(('\r', s[1..]))
    else if s[0] == 't' then Some(('\t', s[1..]))
    else if s[0] == 'b' then Some((8 as char, s[1..]))
    else if s[0] == 'f' then Some((12 as char, s[1..]))
    else if s[0] == 'v' then Some((11 as char, s[1..]))
    else if s[0] == 'u' then
      if |s| < 5 || s[1] != '0' || s[2] != '0' then None
      else
        match (HexDigit(s[3]), HexDigit(s[4]))
        case (Some(high), Some(low)) => Some(((16 * high + low) as char, s[5..]))
        case _ => None
    else Some((s[0], s[1..]))
  }

  /** The rest of a double-quoted string (section 12.9.4 of ECMA-262). */
  function ReadQuoted(s: string): (r: Option<(string, string)>)
    ensures r.Some? ==> |r.value.1| < |s|
    decreases |s|
  {
    if s == "" || s[0] == '\n' || s[0] == '\r' then None
    else if s[0] == '"' then Some(("", s[1..]))
    else if s[0] == '\\' then
      match ReadEscape(s[1..])
      case None => None
      case Some((c, rest)) => Prepend(c, ReadQuoted(rest))
    else Prepend(s[0], ReadQuoted(s[1..]))
  }

  function Prepend(c: char, r: Option<(string, string)>): Option<(string, string)> {
    if r.None? then None else Some(([c] + r.value.0, r.value.1))
  }

  /** The rest of a template without substitutions, its line breaks read as section 12.9.6 of
      ECMA-262 demands: a carriage return, with or without a line feed, is a line feed. */
  function ReadTemplate(s: string): (r: Option<(string, string)>)
    ensures r.Some? ==> |r.value.1| < |s|
    decreases |s|
  {
    if s == "" || "${" <= s then None
    else if s[0] == '`' then Some(("", s[1..]))
    else if s[0] == '\\' then
      match ReadEscape(s[1..])
      case None => None
      case Some((c, rest)) => Prepend(c, ReadTemplate(rest))
    else if "\r\n" <= s then Prepend('\n', ReadTemplate(s[2..]))
    else if s[0] == '\r' then Prepend('\n', ReadTemplate(s[1..]))
    else Prepend(s[0], ReadTemplate(s[1..]))
  }

  function NumberRun(s: string): (n: nat)
    ensures n <= |s| && forall i | 0 <= i < n :: InNumber(s[i])
    ensures n < |s| ==> !InNumber(s[n])
  {
    if s == "" || !InNumber(s[0]) then 0 else 1 + NumberRun(s[1..])
  }

  function NameRun(s: string): (n: nat)
    ensures n <= |s| && forall i | 0 <= i < n :: InName(s[i])
    ensures n < |s| ==> !InName(s[n])
  {
    if s == "" || !InName(s[0]) then 0 else 1 + NameRun(s[1..])
  }

  function ReadWord(s: string): (r: Option<(Value, string)>)
    ensures r.Some? ==> |r.value.1| < |s|
  {
    var n := NameRun(s);
    if s[..n] == "true" then Some((Bool(true), s[n..]))
    else if s[..n] == "false" then Some((Bool(false), s[n..]))
    else if s[..n] == "undefined" then Some((Undefined, s[n..]))
    else if s[..n] == "null" then Some((Null, s[n..]))
    else None
  }

  function ReadValue(text: string): (r: Option<(Value, string)>)
    ensures r.Some? ==> |r.value.1| < |text|
    decreases |text|, 1
  {
    var s := SkipSpace(text);
    if s == "" then None
    else if s[0] == '"' then
      match ReadQuoted(s[1..])
      case None => None
      case Some((t, rest)) => Some((Str(t), rest))
    else if s[0] == '`' then
      match ReadTemplate(s[1..])
      case None => None
      case Some((t, rest)) => Some((Str(t), rest))
    else if s[0] == '[' then
      match ReadElements(s[1..])
      case None => None
      case Some((items, rest)) => Some((Arr(items), rest))
    else if s[0] == '{' then
      match ReadMembers(s[1..], {})
      case None => None
      case Some((entries, rest)) => Some((Obj(entries), rest))
    else if IsDigit(s[0]) || s[0] == '-' then
      var n := NumberRun(s);
      Some((Num(s[..n]), s[n..]))
    else ReadWord(s)
  }

  /** The rest of an array literal behind `[` or a comma. */
  function ReadElements(text: string): (r: Option<(seq<Value>, string)>)
    ensures r.Some? ==> |r.value.1| < |text|
    decreases |text|, 2
  {
    var s := SkipSpace(text);
    if s == "" then None
    else if s[0] == ']' then Some(([], s[1..]))
    else
      match ReadValue(s)
      case None => None
      case Some((v, behind)) =>
        var rest := SkipSpace(behind);
        if rest == "" then None
        else if rest[0] == ']' then Some(([v], rest[1..]))
        else if rest[0] == ',' then
          match ReadElements(rest[1..])
          case None => None
          case Some((items, end)) => Some(([v] + items, end))
        else None
  }

  function ReadKey(s: string): (r: Option<(string, string)>)
    requires s != ""
    ensures r.Some? ==> |r.value.1| < |s|
  {
    if s[0] == '"' then ReadQuoted(s[1..])
    else if StartsName(s[0]) then Some((s[..NameRun(s)], s[NameRun(s)..]))
    else None
  }

  /** The rest of an object literal behind `{` or a comma.  A key that repeats one of `seen`, or
      that sets the prototype, makes the text mean something else than its list of members. */
  function ReadMembers(text: string, seen: set<string>): (r: Option<(seq<(string, Value)>, string)>)
    ensures r.Some? ==> |r.value.1| < |text|
    decreases |text|, 2
  {
    var s := SkipSpace(text);
    if s == "" then None
    else if s[0] == '}' then Some(([], s[1..]))
    else
      match ReadKey(s)
      case None => None
      case Some((key, behindKey)) =>
        var colon := SkipSpace(behindKey);
        if colon == "" || colon[0] != ':' || key in seen || key == "__proto__" then None
        else
          match ReadValue(colon[1..])
          case None => None
          case Some((v, behind)) =>
            var rest := SkipSpace(behind);
            if rest == "" then None
            else if rest[0] == '}' then Some(([(key, v)], rest[1..]))
            else if rest[0] == ',' then
              match ReadMembers(rest[1..], seen + {key})
              case None => None
              case Some((entries, end)) => Some(([(key, v)] + entries, end))
            else None
  }

  // ---- What reading makes of a printed value ----

  /** Line breaks as a template reads them. */
  function LineFeeds(s: string): string
    decreases |s|
  {
    if s == "" then ""
    else if "\r\n" <= s then "\n" + LineFeeds(s[2..])
    else if s[0] == '\r' then "\n" + LineFeeds(s[1..])
    else [s[0]] + LineFeeds(s[1..])
  }

  /** Null becomes undefined, and multi-line strings lose their carriage returns. */
  function Cooked(v: Value): Value
    decreases v
  {
    match v
    case Null => Undefined
    case Str(s) => if '\n' in s then Str(LineFeeds(s)) else v
    case Arr(items) => Arr(CookedItems(items))
    case Obj(entries) => Obj(CookedEntries(entries))
    case _ => v
  }

  function CookedItems(items: seq<Value>): (cooked: seq<Value>)
    ensures |cooked| == |items|
    decreases items
  {
    if items == [] then [] else [Cooked(items[0])] + CookedItems(items[1..])
  }

  function CookedEntries(entries: seq<(string, Value)>): (cooked: seq<(string, Value)>)
    ensures |cooked| == |entries|
    decreases entries
  {
    if entries == [] then []
    else
      assert entries[0].1 < entries[0];
      [(entries[0].0, Cooked(entries[0].1))] + CookedEntries(entries[1..])
  }

  /** Numbers are finite, and an object's keys are distinct and leave the prototype alone. */
  predicate Printable(v: Value)
    decreases v
  {
    match v
    case Num(text) => IsNumeral(text)
    case Arr(items) => AllPrintable(items)
    case Obj(entries) => EntriesPrintable(entries, {})
    case _ => true
  }

  predicate AllPrintable(items: seq<Value>)
    decreases items
  {
    items == [] || (Printable(items[0]) && AllPrintable(items[1..]))
  }

  predicate EntriesPrintable(entries: seq<(string, Value)>, seen: set<string>)
    decreases entries
  {
    entries == [] ||
    (assert entries[0].1 < entries[0];
     && entries[0].0 !in seen && entries[0].0 != "__proto__"
     && Printable(entries[0].1)
     && EntriesPrintable(entries[1..], seen + {entries[0].0}))
  }

  // ---- Strings read back ----

  lemma EscapeShape(c: char)
    ensures |EscapeJson(c)| == 1 ==> EscapeJson(c) == [c] && c !in {'"', '\\', '\n', '\r'}
    ensures |EscapeJson(c)| != 1 ==> |EscapeJson(c)| > 1 && EscapeJson(c)[0] == '\\'
  {}

  lemma EscapeReads(c: char, t: string)
    ensures ReadQuoted(EscapeJson(c) + t) == Prepend(c, ReadQuoted(t))
  {
    var e := EscapeJson(c);
    EscapeShape(c);
    if |e| == 2 {
      SimpleEscapeReads(c, t);
    } else if |e| > 2 {
      ControlReads(c, t);
    }
    hide EscapeJson, ReadEscape;
    if |e| == 1 {
      assert (e + t)[1..] == t;
    } else {
      assert |e| == 2 ==> e[1..] == [e[1]];
      assert (e + t)[1..] == e[1..] + t;
    }
  }

  lemma SimpleEscapeReads(c: char, t: string)
    requires |EscapeJson(c)| == 2
    ensures EscapeJson(c)[0] == '\\'
    ensures ReadEscape([EscapeJson(c)[1]] + t) == Some((c, t))
  {
    assert ([EscapeJson(c)[1]] + t)[1..] == t;
  }

  lemma ControlReads(c: char, t: string)
    requires |EscapeJson(c)| > 2
    ensures EscapeJson(c)[0] == '\\'
    ensures ReadEscape(EscapeJson(c)[1..] + t) == Some((c, t))
  {
    var high, low := CodeOf(c) / 16, CodeOf(c) % 16;
    var s := EscapeJson(c)[1..] + t;
    assert s[..5] == "u00" + [HEX[high], HEX[low]];
    assert s[3] == HEX[high] && s[4] == HEX[low] && s[5..] == t;
    HexReads(high);
    HexReads(low);
    assert (16 * high + low) as char == c;
  }

  lemma HexReads(k: nat)
    requires k < 16
    ensures HexDigit(HEX[k]) == Some(k)
  {}

  /** A string printed by `JSON.stringify` reads back as itself. */
  lemma {:induction false} QuotedRoundTrip(s: string, rest: string)
    ensures ReadQuoted(EscapeJsonText(s) + "\"" + rest) == Some((s, rest))
  {
    if s == "" {
      assert EscapeJsonText(s) + "\"" + rest == "\"" + rest;
    } else {
      var tail := EscapeJsonText(s[1..]) + "\"" + rest;
      assert EscapeJsonText(s) + "\"" + rest == EscapeJson(s[0]) + tail;
      hide ReadQuoted, EscapeJson, EscapeJsonText;
      EscapeReads(s[0], tail);
      QuotedRoundTrip(s[1..], rest);
      assert [s[0]] + s[1..] == s;
    }
  }

  /** A quoted string is on one line: it holds no control characters. */
  lemma {:induction false} QuotedIsPrintable(s: string)
    ensures forall c | c in JsonStringify(s) :: c >= ' '
  {
    if s != "" {
      EscapeIsPrintable(s[0]);
      QuotedIsPrintable(s[1..]);
      hide EscapeJson;
      assert forall c | c in EscapeJsonText(s[1..]) :: c in JsonStringify(s[1..]);
    }
  }

  lemma EscapeIsPrintable(c: char)
    ensures forall d | d in EscapeJson(c) :: d >= ' '
  {
    assert forall i | 0 <= i < 16 :: HEX[i] >= ' ';
  }

  /** What the three replacements make of a multi-line string, in one pass. */
  function TemplateText(s: string): string
    decreases |s|
  {
    if s == "" then ""
    else if s[0] == '\\' then "\\\\" + TemplateText(s[1..])
    else if s[0] == '`' then "\\`" + TemplateText(s[1..])
    else if "${" <= s then "\\${" + TemplateText(s[2..])
    else [s[0]] + TemplateText(s[1..])
  }

  function Replaced(s: string): string {
    ReplaceAll(ReplaceAll(s, '\\', "\\\\"), '`', "\\`")
  }

  lemma ReplaceAllHead(d: char, t: string, c: char, substitute: string)
    ensures ReplaceAll([d] + t, c, substitute) ==
      (if d == c then substitute else [d]) + ReplaceAll(t, c, substitute)
  {
    assert ([d] + t)[1..] == t;
  }

  lemma ReplaceHead(c: char, t: string)
    ensures Replaced([c] + t) ==
      (if c == '\\' then "\\\\" else if c == '`' then "\\`" else [c]) + Replaced(t)
  {
    hide ReplaceAll;
    var once := ReplaceAll(t, '\\', "\\\\");
    ReplaceAllHead(c, t, '\\', "\\\\");
    if c == '\\' {
      assert "\\\\" + once == ['\\'] + (['\\'] + once);
      ReplaceAllHead('\\', ['\\'] + once, '`', "\\`");
      ReplaceAllHead('\\', once, '`', "\\`");
      assert ['\\'] + (['\\'] + Replaced(t)) == "\\\\" + Replaced(t);
    } else {
      ReplaceAllHead(c, once, '`', "\\`");
    }
  }

  lemma SubstitutionHead(c: char, t: string)
    requires c != '$' || t == "" || t[0] != '{'
    ensures EscapeSubstitutions([c] + t) == [c] + EscapeSubstitutions(t)
  {
    assert ([c] + t)[1..] == t;
    if t != "" {
      assert ([c] + t)[1] == t[0];
    }
  }

  lemma SubstitutionOpens(t: string)
    ensures EscapeSubstitutions("${" + t) == "\\${" + EscapeSubstitutions(t)
  {
    assert ("${" + t)[2..] == t;
  }

  /** The three replacements amount to one pass. */
  lemma {:induction false} ReplacementsChain(s: string)
    ensures EscapeSubstitutions(Replaced(s)) == TemplateText(s)
    decreases |s|
  {
    if s != "" {
      hide Replaced, ReplaceAll, EscapeSubstitutions;
      var t := s[1..];
      assert [s[0]] + t == s;
      ReplaceHead(s[0], t);
      if "${" <= s {
        var behind := t[1..];
        assert s[1] == t[0] && [t[0]] + behind == t && behind == s[2..];
        ReplaceHead(t[0], behind);
        ReplacementsChain(behind);
        assert Replaced(s) == "${" + Replaced(behind);
        SubstitutionOpens(Replaced(behind));
      } else {
        ReplacementsChain(t);
        ChainHead(s);
      }
    }
  }

  lemma EscapedSubstitution(c: char, r: string)
    requires c != '$'
    ensures EscapeSubstitutions(['\\', c] + r) == ['\\', c] + EscapeSubstitutions(r)
  {
    SubstitutionHead(c, r);
    SubstitutionHead('\\', [c] + r);
    hide EscapeSubstitutions;
    assert ['\\', c] + r == ['\\'] + ([c] + r);
    assert ['\\', c] + EscapeSubstitutions(r) == ['\\'] + ([c] + EscapeSubstitutions(r));
  }

  /** A carried-over dollar sign does not meet a brace. */
  lemma NoBraceBehind(s: string)
    requires s != "" && !("${" <= s)
    ensures s[0] != '$' || Replaced(s[1..]) == "" || Replaced(s[1..])[0] != '{'
  {
    var t := s[1..];
    if t == "" {
      ReplacedEmpty();
    } else {
      hide Replaced;
      assert s[1] == t[0] && [t[0]] + t[1..] == t;
      ReplaceHead(t[0], t[1..]);
    }
  }

  lemma ChainHead(s: string)
    requires s != "" && !("${" <= s)
    requires Replaced(s) ==
      (if s[0] == '\\' then "\\\\" else if s[0] == '`' then "\\`" else [s[0]]) + Replaced(s[1..])
    requires EscapeSubstitutions(Replaced(s[1..])) == TemplateText(s[1..])
    ensures EscapeSubstitutions(Replaced(s)) == TemplateText(s)
  {
    hide Replaced, ReplaceAll, EscapeSubstitutions;
    if s[0] == '\\' || s[0] == '`' {
      EscapedSubstitution(s[0], Replaced(s[1..]));
    } else {
      NoBraceBehind(s);
      SubstitutionHead(s[0], Replaced(s[1..]));
    }
  }

  lemma ReplacedEmpty()
    ensures Replaced("") == ""
  {}

  /** The text behind a character that is printed as it is starts like the string goes on. */
  lemma TemplateTextStarts(t: string, rest: string)
    ensures
      var printed := TemplateText(t) + "`" + rest;
      printed[0] in {'{', '\n'} ==> t != "" && t[0] == printed[0]
  {}

  /** A printed template reads back as the string with its line breaks as line feeds. */
  lemma {:induction false} TemplateReads(s: string, rest: string)
    ensures ReadTemplate(TemplateText(s) + "`" + rest) == Some((LineFeeds(s), rest))
    decreases |s|
  {
    if s == "" {
      assert TemplateText(s) + "`" + rest == "`" + rest;
    } else if s[0] == '\\' || s[0] == '`' {
      EscapedHeadReads(s, rest);
      TemplateReads(s[1..], rest);
    } else if "${" <= s {
      DollarBraceReads(s, rest);
      TemplateReads(s[2..], rest);
    } else if "\r\n" <= s {
      LineBreakReads(s, rest);
      TemplateReads(s[2..], rest);
    } else {
      OtherHeadReads(s, rest);
      TemplateReads(s[1..], rest);
    }
  }

  lemma EscapedHeadReads(s: string, rest: string)
    requires s != "" && s[0] in {'\\', '`'}
    ensures ReadTemplate(TemplateText(s) + "`" + rest) == Prepend(s[0], ReadTemplate(TemplateText(s[1..]) + "`" + rest))
    ensures LineFeeds(s) == [s[0]] + LineFeeds(s[1..])
  {
    hide ReadTemplate, LineFeeds;
    var tail := TemplateText(s[1..]) + "`" + rest;
    assert TemplateText(s) == ['\\', s[0]] + TemplateText(s[1..]);
    hide TemplateText;
    assert TemplateText(s) + "`" + rest == ['\\', s[0]] + tail;
    EscapedReads(s[0], tail);
    LineFeedsPlain(s[0], s[1..]);
    assert s == [s[0]] + s[1..];
  }

  lemma DollarBraceReads(s: string, rest: string)
    requires "${" <= s
    ensures ReadTemplate(TemplateText(s) + "`" + rest)
      == Prepend('$', Prepend('{', ReadTemplate(TemplateText(s[2..]) + "`" + rest)))
    ensures LineFeeds(s) == ['$'] + (['{'] + LineFeeds(s[2..]))
  {
    hide ReadTemplate, LineFeeds;
    var tail := TemplateText(s[2..]) + "`" + rest;
    assert s[0] == '$' && s[1] == '{';
    assert TemplateText(s) + "`" + rest == ['\\', '$'] + (['{'] + tail);
    EscapedReads('$', ['{'] + tail);
    PlainReads('{', tail);
    assert s[1..] == ['{'] + s[2..] && s == ['$'] + s[1..];
    LineFeedsPlain('$', s[1..]);
    LineFeedsPlain('{', s[2..]);
  }

  lemma LineBreakReads(s: string, rest: string)
    requires "\r\n" <= s
    ensures ReadTemplate(TemplateText(s) + "`" + rest) == Prepend('\n', ReadTemplate(TemplateText(s[2..]) + "`" + rest))
    ensures LineFeeds(s) == ['\n'] + LineFeeds(s[2..])
  {
    var tail := TemplateText(s[2..]) + "`" + rest;
    var text := TemplateText(s) + "`" + rest;
    assert s[0] == '\r' && s[1..][0] == '\n' && s[1..][1..] == s[2..];
    assert TemplateText(s) == ['\r'] + (['\n'] + TemplateText(s[2..]));
    hide TemplateText, ReadEscape;
    assert text == "\r\n" + tail && text[2..] == tail;
  }

  lemma OtherHeadReads(s: string, rest: string)
    requires s != "" && s[0] !in {'\\', '`'} && !("${" <= s) && !("\r\n" <= s)
    ensures ReadTemplate(TemplateText(s) + "`" + rest)
      == Prepend(if s[0] == '\r' then '\n' else s[0], ReadTemplate(TemplateText(s[1..]) + "`" + rest))
    ensures LineFeeds(s) == [if s[0] == '\r' then '\n' else s[0]] + LineFeeds(s[1..])
  {
    var tail := TemplateText(s[1..]) + "`" + rest;
    assert TemplateText(s) + "`" + rest == [s[0]] + tail;
    TemplateTextStarts(s[1..], rest);
    hide TemplateText, ReadTemplate, LineFeeds;
    assert s == [s[0]] + s[1..];
    assert |s| > 1 ==> s[1] == s[1..][0];
    if s[0] == '\r' {
      CarriageReturnReads(tail);
      LineFeedsCarriageReturn(s[1..]);
    } else {
      PlainReads(s[0], tail);
      LineFeedsPlain(s[0], s[1..]);
    }
  }

  lemma CarriageReturnReads(t: string)
    requires t == "" || t[0] != '\n'
    ensures ReadTemplate(['\r'] + t) == Prepend('\n', ReadTemplate(t))
  {
    assert (['\r'] + t)[1..] == t;
    if t != "" {
      assert (['\r'] + t)[1] == t[0];
    }
  }

  lemma LineFeedsCarriageReturn(t: string)
    requires t == "" || t[0] != '\n'
    ensures LineFeeds(['\r'] + t) == ['\n'] + LineFeeds(t)
  {
    assert (['\r'] + t)[1..] == t;
    if t != "" {
      assert (['\r'] + t)[1] == t[0];
    }
  }

  lemma EscapedReads(c: char, t: string)
    requires c in {'\\', '`', '$'}
    ensures ReadTemplate(['\\', c] + t) == Prepend(c, ReadTemplate(t))
  {
    var s := ['\\', c] + t;
    assert s[0] == '\\' && s[1..] == [c] + t;
    assert ([c] + t)[0] == c && ([c] + t)[1..] == t;
    assert ReadEscape(s[1..]) == Some((c, t));
    hide ReadEscape;
  }

  lemma PlainReads(c: char, t: string)
    requires c !in {'\\', '`', '\r'} && (c == '$' ==> t == "" || t[0] != '{')
    ensures ReadTemplate([c] + t) == Prepend(c, ReadTemplate(t))
  {
    assert ([c] + t)[1..] == t;
    if t != "" {
      assert ([c] + t)[1] == t[0];
    }
  }

  lemma LineFeedsPlain(c: char, t: string)
    requires c != '\r'
    ensures LineFeeds([c] + t) == [c] + LineFeeds(t)
  {
    var s := [c] + t;
    assert s[0] == c && s[1..] == t;
    assert !("\r\n" <= s);
  }

  // ---- One token at a time ----

  /** A number or a word ends here. */
  predicate Delimited(rest: string) {
    rest == "" || (!InNumber(rest[0]) && !InName(rest[0]))
  }

  predicate Blank(s: string) {
    forall i | 0 <= i < |s| :: IsSpace(s[i])
  }

  /** A text that begins like a printed value. */
  predicate Starts(s: string) {
    s != "" && (IsDigit(s[0]) || s[0] in {'"', '`', '[', '{', '-', 'u', 't', 'f'})
  }

  lemma {:induction false} SkipsBlanks(blanks: string, s: string)
    requires Blank(blanks) && (s == "" || !IsSpace(s[0]))
    ensures SkipSpace(blanks + s) == s
  {
    if blanks == "" {
      assert blanks + s == s;
    } else {
      assert (blanks + s)[1..] == blanks[1..] + s;
      SkipsBlanks(blanks[1..], s);
    }
  }

  lemma {:induction false} PadIsBlank(indent: nat)
    ensures Blank(Pad(indent))
  {
    if indent > 0 {
      PadIsBlank(indent - 1);
    }
  }

  lemma BlanksBeforeValue(blanks: string, s: string)
    requires Blank(blanks) && Starts(s)
    ensures ReadValue(blanks + s) == ReadValue(s)
  {
    SkipsBlanks(blanks, s);
    SkipsBlanks("", s);
    assert "" + s == s;
    hide SkipSpace, ReadQuoted, ReadTemplate, ReadElements, ReadMembers, ReadWord;
  }

  lemma QuotedValueReads(s: string, rest: string)
    ensures ReadValue(JsonStringify(s) + rest) == Some((Str(s), rest))
  {
    hide ReadQuoted, ReadTemplate, ReadElements, ReadMembers, ReadWord, SkipSpace, EscapeJsonText;
    var text := JsonStringify(s) + rest;
    var behind := EscapeJsonText(s) + "\"" + rest;
    QuotedRoundTrip(s, rest);
    assert text == ['"'] + behind && text[1..] == behind;
    SkipsBlanks("", text);
    assert "" + text == text;
  }

  lemma TemplateValueReads(s: string, rest: string)
    ensures ReadValue(Template(s) + rest) == Some((Str(LineFeeds(s)), rest))
  {
    hide ReadQuoted, ReadTemplate, ReadElements, ReadMembers, ReadWord, SkipSpace;
    hide TemplateText, ReplaceAll, EscapeSubstitutions, LineFeeds;
    var text := Template(s) + rest;
    var behind := TemplateText(s) + "`" + rest;
    ReplacementsChain(s);
    TemplateReads(s, rest);
    assert text == ['`'] + behind && text[1..] == behind;
    SkipsBlanks("", text);
    assert "" + text == text;
  }

  lemma StringReads(s: string, rest: string)
    ensures ReadValue(StringText(s) + rest) == Some((Cooked(Str(s)), rest))
  {
    hide ReadValue, Template, JsonStringify, LineFeeds;
    QuotedValueReads(s, rest);
    TemplateValueReads(s, rest);
  }

  lemma NumberRunIs(s: string, n: nat)
    requires n <= |s| && forall i | 0 <= i < n :: InNumber(s[i])
    requires n < |s| ==> !InNumber(s[n])
    ensures NumberRun(s) == n
  {
    hide NumberRun;
  }

  lemma NameRunIs(s: string, n: nat)
    requires n <= |s| && forall i | 0 <= i < n :: InName(s[i])
    requires n < |s| ==> !InName(s[n])
    ensures NameRun(s) == n
  {
    hide NameRun;
  }

  lemma NumberReads(text: string, rest: string)
    requires IsNumeral(text) && Delimited(rest)
    ensures ReadValue(text + rest) == Some((Num(text), rest))
  {
    var s := text + rest;
    NumberRunIs(s, |text|);
    SkipsBlanks("", s);
    assert "" + s == s && s[..|text|] == text && s[|text|..] == rest;
    hide NumberRun, SkipSpace, ReadQuoted, ReadTemplate, ReadElements, ReadMembers, ReadWord;
  }

  lemma WordIsName(word: string)
    requires word in {"true", "false", "undefined"}
    ensures IsName(word) && Starts(word) && !IsDigit(word[0]) && word[0] in {'t', 'f', 'u'}
  {
    if word == "true" {
      assert IsName("true");
    } else if word == "false" {
      assert IsName("false");
    } else {
      assert IsName("undefined");
    }
  }

  lemma WordReads(word: string, v: Value, rest: string)
    requires Delimited(rest)
    requires (word, v) in {("true", Bool(true)), ("false", Bool(false)), ("undefined", Undefined)}
    ensures ReadValue(word + rest) == Some((v, rest))
  {
    hide NameRun, SkipSpace, ReadQuoted, ReadTemplate, ReadElements, ReadMembers;
    var s := word + rest;
    WordIsName(word);
    NameRunIs(s, |word|);
    SkipsBlanks("", s);
    assert "" + s == s && s[..|word|] == word && s[|word|..] == rest;
    hide InName, StartsName, IsDigit, InNumber, Starts, IsName;
    assert ReadWord(s) == Some((v, rest));
    hide ReadWord, Delimited;
    assert s[0] == word[0];
  }

  // ---- One element, one member ----

  lemma ElementReads(blanks: string, x: string, behind: string, v: Value, items: seq<Value>, end: string)
    requires Blank(blanks) && Starts(x)
    requires ReadValue(x + "," + behind) == Some((v, "," + behind))
    requires ReadElements(behind) == Some((items, end))
    ensures ReadElements(blanks + x + "," + behind) == Some(([v] + items, end))
  {
    hide ReadValue, SkipSpace;
    var s := x + "," + behind;
    assert blanks + x + "," + behind == blanks + s;
    SkipsBlanks(blanks, s);
    SkipsBlanks("", "," + behind);
    assert "" + ("," + behind) == "," + behind && ("," + behind)[1..] == behind;
  }

  lemma LastElementReads(blanks: string, x: string, rest: string, v: Value)
    requires Blank(blanks) && Starts(x)
    requires ReadValue(x + "]" + rest) == Some((v, "]" + rest))
    ensures ReadElements(blanks + x + "]" + rest) == Some(([v], rest))
  {
    var s := x + "]" + rest;
    assert blanks + x + "]" + rest == blanks + s;
    SkipsBlanks(blanks, s);
    SkipsBlanks("", "]" + rest);
    assert "" + ("]" + rest) == "]" + rest && ("]" + rest)[1..] == rest;
    hide ReadValue, SkipSpace;
  }

  lemma NoElementReads(blanks: string, rest: string)
    requires Blank(blanks)
    ensures ReadElements(blanks + "]" + rest) == Some(([], rest))
  {
    assert blanks + "]" + rest == blanks + ("]" + rest);
    SkipsBlanks(blanks, "]" + rest);
    assert ("]" + rest)[1..] == rest;
    hide ReadValue, SkipSpace;
  }

  lemma NoMemberReads(blanks: string, rest: string, seen: set<string>)
    requires Blank(blanks)
    ensures ReadMembers(blanks + "}" + rest, seen) == Some(([], rest))
  {
    assert blanks + "}" + rest == blanks + ("}" + rest);
    SkipsBlanks(blanks, "}" + rest);
    assert ("}" + rest)[1..] == rest;
    hide ReadValue, SkipSpace, ReadKey;
  }

  lemma NameKeyReads(key: string, rest: string)
    requires IsName(key)
    ensures ReadKey(key + ":" + rest) == Some((key, ":" + rest))
  {
    hide NameRun, ReadQuoted;
    var s := key + ":" + rest;
    assert s[|key|] == ':' && s[0] == key[0];
    NameRunIs(s, |key|);
    assert s[..|key|] == key && s[|key|..] == ":" + rest;
  }

  lemma QuotedKeyReads(key: string, rest: string)
    ensures ReadKey(JsonStringify(key) + ":" + rest) == Some((key, ":" + rest))
  {
    hide NameRun, ReadQuoted, EscapeJsonText;
    var s := JsonStringify(key) + ":" + rest;
    var behind := EscapeJsonText(key) + "\"" + (":" + rest);
    QuotedRoundTrip(key, ":" + rest);
    assert s == ['"'] + behind && s[1..] == behind;
  }

  lemma KeyReads(key: string, rest: string)
    ensures KeyText(key) != "" && !IsSpace(KeyText(key)[0]) && KeyText(key)[0] != '}'
    ensures ReadKey(KeyText(key) + ":" + rest) == Some((key, ":" + rest))
  {
    hide ReadKey, EscapeJsonText;
    if IsName(key) {
      NameKeyReads(key, rest);
    } else {
      QuotedKeyReads(key, rest);
    }
  }

  lemma MemberReads(blanks: string, key: string, x: string, behind: string, v: Value,
                    entries: seq<(string, Value)>, end: string, seen: set<string>)
    requires Blank(blanks) && Starts(x)
    requires key !in seen && key != "__proto__"
    requires ReadValue(x + "," + behind) == Some((v, "," + behind))
    requires ReadMembers(behind, seen + {key}) == Some((entries, end))
    ensures ReadMembers(blanks + KeyText(key) + ": " + x + "," + behind, seen) == Some(([(key, v)] + entries, end))
  {
    hide ReadValue, SkipSpace, ReadKey, KeyText;
    var value := x + "," + behind;
    var s := KeyText(key) + ":" + (" " + value);
    assert blanks + KeyText(key) + ": " + x + "," + behind == blanks + s;
    KeyReads(key, " " + value);
    SkipsBlanks(blanks, s);
    var colon := ":" + (" " + value);
    SkipsBlanks("", colon);
    assert "" + colon == colon && colon[1..] == " " + value;
    BlanksBeforeValue(" ", value);
    SkipsBlanks("", "," + behind);
    assert "" + ("," + behind) == "," + behind && ("," + behind)[1..] == behind;
  }

  lemma ArrayReads(text: string, items: seq<Value>, rest: string)
    requires ReadElements(text) == Some((items, rest))
    ensures ReadValue("[" + text) == Some((Arr(items), rest))
  {
    SkipsBlanks("", "[" + text);
    assert "" + ("[" + text) == "[" + text && ("[" + text)[1..] == text;
    hide ReadElements, ReadMembers, SkipSpace, ReadQuoted, ReadTemplate, ReadWord;
  }

  lemma ObjectReads(text: string, entries: seq<(string, Value)>, rest: string)
    requires ReadMembers(text, {}) == Some((entries, rest))
    ensures ReadValue("{" + text) == Some((Obj(entries), rest))
  {
    SkipsBlanks("", "{" + text);
    assert "" + ("{" + text) == "{" + text && ("{" + text)[1..] == text;
    hide ReadElements, ReadMembers, SkipSpace, ReadQuoted, ReadTemplate, ReadWord;
  }

  // ---- Whole values ----

  /** The lines of an array or object body, each behind its line break. */
  function Body(lines: seq<string>): string {
    if lines == [] then "" else "\n" + lines[0] + Body(lines[1..])
  }

  lemma {:induction false} BodyJoins(lines: seq<string>)
    requires lines != []
    ensures "\n" + Join(lines, "\n") == Body(lines)
  {
    if |lines| == 1 {
      assert lines[1..] == [];
      assert Body(lines) == "\n" + lines[0] + "";
    } else {
      BodyJoins(lines[1..]);
      assert "\n" + (lines[0] + "\n" + Join(lines[1..], "\n")) == "\n" + lines[0] + ("\n" + Join(lines[1..], "\n"));
    }
  }

  lemma {:induction false} ToTsStarts(v: Value, indent: nat)
    requires Printable(v)
    ensures Starts(ToTs(v, indent))
  {
    match v
    case Num(text) =>
    case _ =>
      hide TemplateText, EscapeJsonText, Join, Inline, ItemLines, EntryLines, ReplaceAll, EscapeSubstitutions;
  }

  lemma CommaDelimits(behind: string)
    ensures Delimited("," + behind) && Delimited("]" + behind)
  {}

  /** The printed items read back, whatever follows the closing bracket. */
  lemma {:induction false} ItemsRead(items: seq<Value>, indent: nat, rest: string)
    requires AllPrintable(items)
    ensures ReadElements(Body(ItemLines(items, indent)) + "\n" + Pad(indent) + "]" + rest) ==
        Some((CookedItems(items), rest))
    decreases items, 0
  {
    hide ReadElements, ReadValue, ToTs, Cooked, Starts, Delimited, Printable;
    var closing := "\n" + Pad(indent) + "]" + rest;
    PadIsBlank(indent);
    if items == [] {
      NoElementReads("\n" + Pad(indent), rest);
      assert "" + "\n" + Pad(indent) + "]" + rest == closing;
    } else {
      var x := ToTs(items[0], indent + 1);
      var behind := Body(ItemLines(items[1..], indent)) + "\n" + Pad(indent) + "]" + rest;
      var blanks := "\n" + Pad(indent + 1);
      PadIsBlank(indent + 1);
      ToTsStarts(items[0], indent + 1);
      CommaDelimits(behind);
      RoundTrip(items[0], indent + 1, "," + behind);
      assert x + "," + behind == x + ("," + behind);
      ItemsRead(items[1..], indent, rest);
      ElementReads(blanks, x, behind, Cooked(items[0]), CookedItems(items[1..]), rest);
      BodyOf(blanks, x, ItemLines(items[1..], indent), ItemLines(items, indent), closing, indent, rest);
    }
  }

  lemma BodyOf(blanks: string, x: string, lines: seq<string>, all: seq<string>, closing: string, indent: nat,
               rest: string)
    requires blanks == "\n" + Pad(indent + 1) && all == [Pad(indent + 1) + x + ","] + lines
    ensures blanks + x + "," + (Body(lines) + "\n" + Pad(indent) + "]" + rest) ==
        Body(all) + "\n" + Pad(indent) + "]" + rest
  {
    hide Pad;
    assert all[1..] == lines;
    assert Body(all) == "\n" + (Pad(indent + 1) + x + ",") + Body(lines);
    assert Body(all) == blanks + x + "," + Body(lines);
  }

  /** The printed members read back, whatever follows the closing brace. */
  lemma {:induction false} MembersRead(entries: seq<(string, Value)>, seen: set<string>, indent: nat, rest: string)
    requires EntriesPrintable(entries, seen)
    ensures ReadMembers(Body(EntryLines(entries, indent)) + "\n" + Pad(indent) + "}" + rest, seen)
      == Some((CookedEntries(entries), rest))
    decreases entries, 0
  {
    hide ReadMembers, ReadValue, ToTs, Cooked, Starts, Delimited, Printable, KeyText;
    PadIsBlank(indent);
    if entries == [] {
      NoMemberReads("\n" + Pad(indent), rest, seen);
      assert "" + "\n" + Pad(indent) + "}" + rest == "\n" + Pad(indent) + "}" + rest;
    } else {
      assert entries[0].1 < entries[0];
      var key, v := entries[0].0, entries[0].1;
      var x := ToTs(v, indent + 1);
      var behind := Body(EntryLines(entries[1..], indent)) + "\n" + Pad(indent) + "}" + rest;
      var blanks := "\n" + Pad(indent + 1);
      PadIsBlank(indent + 1);
      ToTsStarts(v, indent + 1);
      CommaDelimits(behind);
      RoundTrip(v, indent + 1, "," + behind);
      assert x + "," + behind == x + ("," + behind);
      MembersRead(entries[1..], seen + {key}, indent, rest);
      MemberReads(blanks, key, x, behind, Cooked(v), CookedEntries(entries[1..]), rest, seen);
      MemberBodyOf(blanks, key, x, EntryLines(entries[1..], indent), EntryLines(entries, indent), indent, rest);
    }
  }

  lemma MemberBodyOf(blanks: string, key: string, x: string, lines: seq<string>, all: seq<string>, indent: nat,
                     rest: string)
    requires blanks == "\n" + Pad(indent + 1) && all == [Pad(indent + 1) + KeyText(key) + ": " + x + ","] + lines
    ensures blanks + KeyText(key) + ": " + x + "," + (Body(lines) + "\n" + Pad(indent) + "}" + rest)
      == Body(all) + "\n" + Pad(indent) + "}" + rest
  {
    hide Pad, KeyText;
    assert all[1..] == lines;
    assert Body(all) == "\n" + (Pad(indent + 1) + KeyText(key) + ": " + x + ",") + Body(lines);
    assert Body(all) == blanks + KeyText(key) + ": " + x + "," + Body(lines);
  }

  lemma {:induction false} ShortItemsStay(items: seq<Value>)
    requires AllShort(items)
    ensures CookedItems(items) == items
  {
    if items != [] {
      ShortItemsStay(items[1..]);
    }
  }

  lemma {:induction false} InlineReads(blanks: string, items: seq<Value>, rest: string)
    requires Blank(blanks) && AllShort(items) && items != []
    ensures ReadElements(blanks + Join(Inline(items), ", ") + "]" + rest) == Some((items, rest))
    decreases items
  {
    hide ReadElements, ReadValue, EscapeJsonText;
    var s := items[0].s;
    var x := JsonStringify(s);
    assert Starts(x) && x == StringText(s);
    if |items| == 1 {
      assert items == [Str(s)] && Inline(items) == [x];
      QuotedValueReads(s, "]" + rest);
      assert x + "]" + rest == x + ("]" + rest);
      LastElementReads(blanks, x, rest, Str(s));
    } else {
      var more := Join(Inline(items[1..]), ", ");
      var behind := " " + more + "]" + rest;
      InlineReads(" ", items[1..], rest);
      QuotedValueReads(s, "," + behind);
      assert x + "," + behind == x + ("," + behind);
      ElementReads(blanks, x, behind, Str(s), items[1..], rest);
      assert [Str(s)] + items[1..] == items;
      assert Inline(items) == [x] + Inline(items[1..]) && Inline(items)[1..] == Inline(items[1..]);
      assert Join(Inline(items), ", ") == x + ", " + more;
      hide Join, Inline, JsonStringify;
      assert blanks + (x + ", " + more) + "]" + rest == blanks + x + "," + behind;
    }
  }

  predicate PrintsInline(items: seq<Value>) {
    AllShort(items) && |Join(Inline(items), ", ")| < 80
  }

  function QuotedTexts(items: seq<Value>): seq<string> {
    seq(|items|, i requires 0 <= i < |items| => if items[i].Str? then JsonStringify(items[i].s) else "")
  }

  /** An array is printed on one line exactly when it is empty, or its items are strings without line
      feeds whose quoted texts, joined, have fewer than 80 characters. */
  lemma OneLineExactly(items: seq<Value>, indent: nat)
    ensures '\n' !in ToTs(Arr(items), indent) <==>
              || items == []
              || ((forall i | 0 <= i < |items| :: items[i].Str? && '\n' !in items[i].s)
                  && |Join(QuotedTexts(items), ", ")| < 80)
  {
    AllShortExactly(items);
    if items != [] && PrintsInline(items) {
      JoinedInline(items);
    } else if items != [] {
      assert ToTs(Arr(items), indent)[1] == '\n' by { hide Join, ItemLines, Pad; }
    }
    hide ToTs, Join;
  }

  lemma {:induction false} AllShortExactly(items: seq<Value>)
    ensures AllShort(items) <==> forall i | 0 <= i < |items| :: items[i].Str? && '\n' !in items[i].s
    ensures AllShort(items) ==> Inline(items) == QuotedTexts(items)
  {
    hide JsonStringify;
    if items != [] { AllShortExactly(items[1..]); }
  }

  lemma {:induction false} JoinedInline(items: seq<Value>)
    requires AllShort(items)
    ensures '\n' !in Join(Inline(items), ", ")
  {
    hide JsonStringify;
    if items != [] {
      QuotedIsPrintable(items[0].s);
      if |items| > 1 { JoinedInline(items[1..]); }
    }
  }

  lemma Regroup(left: string, break0: string, joined: string, body: string, break1: string, pad: string,
                right: string, rest: string)
    requires break0 + joined == body
    ensures left + break0 + joined + break1 + pad + right + rest == left + (body + break1 + pad + right + rest)
  {
    assert left + break0 + joined == left + (break0 + joined);
    assert left + body + break1 + pad + right + rest == left + (body + break1 + pad + right + rest);
  }

  lemma ArrayText(items: seq<Value>, indent: nat, rest: string)
    requires items != [] && !PrintsInline(items)
    ensures ToTs(Arr(items), indent) + rest == "[" + (Body(ItemLines(items, indent)) + "\n" + Pad(indent) + "]" + rest)
  {
    var lines := ItemLines(items, indent);
    assert ToTs(Arr(items), indent) == "[\n" + Join(lines, "\n") + "\n" + Pad(indent) + "]";
    BodyJoins(lines);
    hide *;
    assert "[\n" == "[" + "\n";
    Regroup("[", "\n", Join(lines, "\n"), Body(lines), "\n", Pad(indent), "]", rest);
  }

  lemma InlineText(items: seq<Value>, indent: nat, rest: string)
    requires items != [] && PrintsInline(items)
    ensures ToTs(Arr(items), indent) + rest == "[" + ("" + Join(Inline(items), ", ") + "]" + rest)
  {
    var body := Join(Inline(items), ", ");
    assert ToTs(Arr(items), indent) == "[" + body + "]";
    hide ToTs, Join, Inline;
    assert "" + body == body;
  }

  lemma ObjectText(entries: seq<(string, Value)>, indent: nat, rest: string)
    requires entries != []
    ensures ToTs(Obj(entries), indent) + rest
      == "{" + (Body(EntryLines(entries, indent)) + "\n" + Pad(indent) + "}" + rest)
  {
    var lines := EntryLines(entries, indent);
    assert ToTs(Obj(entries), indent) == "{\n" + Join(lines, "\n") + "\n" + Pad(indent) + "}";
    BodyJoins(lines);
    hide *;
    assert "{\n" == "{" + "\n";
    Regroup("{", "\n", Join(lines, "\n"), Body(lines), "\n", Pad(indent), "}", rest);
  }

  lemma EmptyTexts(indent: nat, rest: string)
    ensures ReadValue(ToTs(Arr([]), indent) + rest) == Some((Arr([]), rest))
    ensures ReadValue(ToTs(Obj([]), indent) + rest) == Some((Obj([]), rest))
  {
    hide ReadValue, ReadElements, ReadMembers;
    NoElementReads("", rest);
    assert "" + "]" + rest == "]" + rest;
    ArrayReads("]" + rest, [], rest);
    assert ToTs(Arr([]), indent) + rest == "[" + ("]" + rest);
    NoMemberReads("", rest, {});
    assert "" + "}" + rest == "}" + rest;
    ObjectReads("}" + rest, [], rest);
    assert ToTs(Obj([]), indent) + rest == "{" + ("}" + rest);
  }

  lemma LeafRoundTrip(v: Value, indent: nat, rest: string)
    requires Printable(v) && Delimited(rest) && !v.Arr? && !v.Obj?
    ensures ReadValue(ToTs(v, indent) + rest) == Some((Cooked(v), rest))
  {
    hide ReadValue, Delimited, StringText, LineFeeds, IsNumeral;
    match v
    case Str(s) => StringReads(s, rest);
    case Num(text) => NumberReads(text, rest);
    case Bool(b) => WordReads(if b then "true" else "false", v, rest);
    case _ => WordReads("undefined", Undefined, rest);
  }

  /** Reading a printed value gives it back, nulls as undefined and line breaks as line feeds, and
      stops where the value ends. */
  lemma {:induction false} RoundTrip(v: Value, indent: nat, rest: string)
    requires Printable(v) && Delimited(rest)
    ensures ReadValue(ToTs(v, indent) + rest) == Some((Cooked(v), rest))
    decreases v, 1
  {
    hide ReadValue, ReadElements, ReadMembers, ToTs, EntryLines, Body, Pad, IsNumeral, LineFeeds;
    match v
    case Arr(items) => ArrayRoundTrip(items, indent, rest);
    case Obj(entries) =>
      if entries == [] {
        EmptyTexts(indent, rest);
      } else {
        MembersRead(entries, {}, indent, rest);
        var text := Body(EntryLines(entries, indent)) + "\n" + Pad(indent) + "}" + rest;
        ObjectReads(text, CookedEntries(entries), rest);
        ObjectText(entries, indent, rest);
      }
    case _ => LeafRoundTrip(v, indent, rest);
  }

  lemma {:induction false} ArrayRoundTrip(items: seq<Value>, indent: nat, rest: string)
    requires AllPrintable(items)
    ensures ReadValue(ToTs(Arr(items), indent) + rest) == Some((Arr(CookedItems(items)), rest))
    decreases items, 1
  {
    hide ReadValue, ReadElements, ToTs, ItemLines, Body, Pad, Join, Inline, AllShort;
    if items == [] {
      EmptyTexts(indent, rest);
    } else if PrintsInline(items) {
      InlineReads("", items, rest);
      ShortItemsStay(items);
      ArrayReads("" + Join(Inline(items), ", ") + "]" + rest, items, rest);
      InlineText(items, indent, rest);
    } else {
      ItemsRead(items, indent, rest);
      var text := Body(ItemLines(items, indent)) + "\n" + Pad(indent) + "]" + rest;
      ArrayReads(text, CookedItems(items), rest);
      ArrayText(items, indent, rest);
    }
  }

  // ---- When nothing is lost ----

  function Defined(v: Value): Value
    decreases v
  {
    match v
    case Null => Undefined
    case Arr(items) => Arr(DefinedItems(items))
    case Obj(entries) => Obj(DefinedEntries(entries))
    case _ => v
  }

  function DefinedItems(items: seq<Value>): (r: seq<Value>)
    ensures |r| == |items|
    decreases items
  {
    if items == [] then [] else [Defined(items[0])] + DefinedItems(items[1..])
  }

  function DefinedEntries(entries: seq<(string, Value)>): (r: seq<(string, Value)>)
    ensures |r| == |entries|
    decreases entries
  {
    if entries == [] then []
    else
      assert entries[0].1 < entries[0];
      [(entries[0].0, Defined(entries[0].1))] + DefinedEntries(entries[1..])
  }

  /** No multi-line string has a carriage return; single-line strings may. */
  predicate NoMixedBreaks(v: Value)
    decreases v
  {
    match v
    case Str(s) => !('\n' in s && '\r' in s)
    case Arr(items) => NoMixedItems(items)
    case Obj(entries) => NoMixedEntries(entries)
    case _ => true
  }

  predicate NoMixedItems(items: seq<Value>)
    decreases items
  {
    items == [] || (NoMixedBreaks(items[0]) && NoMixedItems(items[1..]))
  }

  predicate NoMixedEntries(entries: seq<(string, Value)>)
    decreases entries
  {
    entries == [] ||
    (assert entries[0].1 < entries[0];
     NoMixedBreaks(entries[0].1) && NoMixedEntries(entries[1..]))
  }

  lemma {:induction false} LineFeedsKeep(s: string)
    ensures LineFeeds(s) == s <==> '\r' !in s
    ensures '\r' !in LineFeeds(s)
    decreases |s|
  {
    if s != "" {
      assert [s[0]] + s[1..] == s;
      if "\r\n" <= s {
        LineFeedsKeep(s[2..]);
      } else {
        LineFeedsKeep(s[1..]);
      }
    }
  }

  lemma {:induction false} CookedExactly(v: Value)
    ensures Cooked(v) == Defined(v) <==> NoMixedBreaks(v)
    decreases v
  {
    match v
    case Str(s) => LineFeedsKeep(s);
    case Arr(items) => CookedItemsExactly(items);
    case Obj(entries) => CookedEntriesExactly(entries);
    case _ =>
  }

  lemma {:induction false} CookedItemsExactly(items: seq<Value>)
    ensures CookedItems(items) == DefinedItems(items) <==> NoMixedItems(items)
    decreases items
  {
    if items != [] {
      CookedExactly(items[0]);
      CookedItemsExactly(items[1..]);
      hide Cooked, Defined, NoMixedBreaks;
      assert CookedItems(items)[0] == Cooked(items[0]) && CookedItems(items)[1..] == CookedItems(items[1..]);
      assert DefinedItems(items)[0] == Defined(items[0]) && DefinedItems(items)[1..] == DefinedItems(items[1..]);
    }
  }

  lemma {:induction false} CookedEntriesExactly(entries: seq<(string, Value)>)
    ensures CookedEntries(entries) == DefinedEntries(entries) <==> NoMixedEntries(entries)
    decreases entries
  {
    if entries != [] {
      assert entries[0].1 < entries[0];
      CookedExactly(entries[0].1);
      CookedEntriesExactly(entries[1..]);
      hide Cooked, Defined, NoMixedBreaks;
      assert CookedEntries(entries)[0].1 == Cooked(entries[0].1)
          && CookedEntries(entries)[1..] == CookedEntries(entries[1..]);
      assert DefinedEntries(entries)[0].1 == Defined(entries[0].1)
          && DefinedEntries(entries)[1..] == DefinedEntries(entries[1..]);
    }
  }

  /** Printing loses no more than the difference between null and undefined exactly when no
      multi-line string has a carriage return. */
  lemma PrintedExactly(v: Value, indent: nat)
    requires Printable(v)
    ensures ReadValue(ToTs(v, indent)) == Some((Defined(v), "")) <==> NoMixedBreaks(v)
  {
    RoundTrip(v, indent, "");
    CookedExactly(v);
    hide ReadValue, ToTs, Cooked, Defined, NoMixedBreaks;
    assert ToTs(v, indent) + "" == ToTs(v, indent);
  }
}
