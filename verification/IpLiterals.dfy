/** Reading IP literals in all their spellings: IPv6 expansion and the normalization of the
    database egress guard (packages/connectors/src/db-egress-guard.ts). */
module IpLiterals {
  import opened TextTools
  import opened Wrappers

  // ---- Spellings (section 2.2 of RFC 4291) ----

  predicate IsHexDigit(c: char) {
    '0' <= c <= '9' || 'a' <= c <= 'f' || 'A' <= c <= 'F'
  }

  /** One to four hexadecimal digits, in any case and with or without leading zeros. */
  predicate IsGroup(g: string) {
    1 <= |g| <= 4 && forall i | 0 <= i < |g| :: IsHexDigit(g[i])
  }

  function HexDigit(c: char): nat
    requires IsHexDigit(c)
  {
    if c <= '9' then (c - '0') as nat
    else if c <= 'F' then (c - 'A') as nat + 10
    else (c - 'a') as nat + 10
  }

  function HexValue(g: string): nat
    requires forall i | 0 <= i < |g| :: IsHexDigit(g[i])
  {
    if g == "" then 0 else 16 * HexValue(g[..|g| - 1]) + HexDigit(g[|g| - 1])
  }

  /** Four bytes and their dotted decimal text, without leading zeros. */
  datatype Quad = Quad(a: int, b: int, c: int, d: int)

  predicate IsByte(n: int) { 0 <= n < 256 }

  predicate IsQuad(q: Quad) { IsByte(q.a) && IsByte(q.b) && IsByte(q.c) && IsByte(q.d) }

  function Digit(n: int): char
    requires 0 <= n < 10
  {
    '0' + n as char
  }

  function ByteText(n: int): string
    requires IsByte(n)
  {
    if n < 10 then [Digit(n)]
    else if n < 100 then [Digit(n / 10), Digit(n % 10)]
    else [Digit(n / 100), Digit(n / 10 % 10), Digit(n % 10)]
  }

  function QuadParts(q: Quad): seq<string>
    requires IsQuad(q)
  {
    [ByteText(q.a), ByteText(q.b), ByteText(q.c), ByteText(q.d)]
  }

  function QuadText(q: Quad): string
    requires IsQuad(q)
  {
    Join(QuadParts(q), ".")
  }

  /** A spelling: groups left and right of an optional `::`, and an optional dotted tail. */
  datatype Spelling = Spelling(left: seq<string>, elided: bool, right: seq<string>, quad: Option<Quad>)

  function Units(sp: Spelling): nat {
    |sp.left| + |sp.right| + if sp.quad.Some? then 2 else 0
  }

  predicate IsSpelling(sp: Spelling) {
    && (forall i | 0 <= i < |sp.left| :: IsGroup(sp.left[i]))
    && (forall i | 0 <= i < |sp.right| :: IsGroup(sp.right[i]))
    && (sp.quad.Some? ==> IsQuad(sp.quad.value))
    && (if sp.elided then Units(sp) <= 7 else Units(sp) == 8 && sp.right == [])
  }

  function Print(sp: Spelling): string
    requires IsSpelling(sp)
  {
    var tail := if sp.quad.Some? then [QuadText(sp.quad.value)] else [];
    if sp.elided then Join(sp.left, ":") + "::" + Join(sp.right + tail, ":")
    else Join(sp.left + tail, ":")
  }

  function Values(groups: seq<string>): (values: seq<int>)
    requires forall i | 0 <= i < |groups| :: IsGroup(groups[i])
    ensures |values| == |groups|
    ensures forall i | 0 <= i < |groups| :: IsGroup(groups[i]) && values[i] == HexValue(groups[i])
  {
    if groups == [] then []
    else
      assert IsGroup(groups[0]);
      [HexValue(groups[0])] + Values(groups[1..])
  }

  function QuadWords(quad: Option<Quad>): seq<int> {
    if quad.None? then [] else [256 * quad.value.a + quad.value.b, 256 * quad.value.c + quad.value.d]
  }

  /** The eight hextets a spelling denotes: `::` stands for the zeros that are missing. */
  function Hextets(sp: Spelling): (hextets: seq<int>)
    requires IsSpelling(sp)
    ensures |hextets| == 8
  {
    Values(sp.left) + Zeros(8 - Units(sp)) + (Values(sp.right) + QuadWords(sp.quad))
  }

  function Zeros(n: int): (zeros: seq<int>)
    ensures |zeros| == if n < 0 then 0 else n
    ensures forall i | 0 <= i < |zeros| :: zeros[i] == 0
  {
    if n <= 0 then [] else [0] + Zeros(n - 1)
  }

  // ---- What `net.isIP` decides ----

  ghost predicate IsIpv4(s: string) {
    exists q :: IsQuad(q) && QuadText(q) == s
  }

  ghost predicate IsIpv6(s: string) {
    exists sp :: IsSpelling(sp) && Print(sp) == s
  }

  // ---- expandIpv6ToHextets ----

  function HexPrefix(s: string): (n: nat)
    ensures n <= |s| && forall i | 0 <= i < n :: IsHexDigit(s[i])
    ensures n < |s| ==> !IsHexDigit(s[n])
  {
    if s == "" || !IsHexDigit(s[0]) then 0 else 1 + HexPrefix(s[1..])
  }

  const NOT_A_NUMBER := -1

  /** `Number.parseInt(s, 16)` on text without sign, blanks or `0x`: the value of the leading
      digits. */
  function ParseHex(s: string): int {
    if HexPrefix(s) == 0 then NOT_A_NUMBER else HexValue(s[..HexPrefix(s)])
  }

  function DigitPrefix(s: string): (n: nat)
    ensures n <= |s| && forall i | 0 <= i < n :: IsDigit(s[i])
    ensures n < |s| ==> !IsDigit(s[n])
  {
    if s == "" || !IsDigit(s[0]) then 0 else 1 + DigitPrefix(s[1..])
  }

  function DecimalValue(s: string): nat
    requires AreDigits(s)
  {
    if s == "" then 0
    else
      assert IsDigit(s[|s| - 1]);
      10 * DecimalValue(s[..|s| - 1]) + (s[|s| - 1] - '0') as nat
  }

  function ParseDecimal(s: string): int {
    if DigitPrefix(s) == 0 then NOT_A_NUMBER else DecimalValue(s[..DigitPrefix(s)])
  }

  function EachHex(groups: seq<string>): seq<int> {
    seq(|groups|, i requires 0 <= i < |groups| => ParseHex(groups[i]))
  }

  function OctetAt(octets: seq<string>, i: nat): int {
    if i < |octets| then ParseDecimal(octets[i]) else 0
  }

  function ExpandIpv6ToHextets(addr: string): seq<int> {
    ExpandLowered(Lowered(addr))
  }

  function ExpandLowered(lower: string): seq<int> {
    var dotIdx := LastIndexOf(lower, '.');
    if dotIdx == -1 then ExpandGroups(lower, [])
    else
      var colon := LastIndexOf(lower[..dotIdx], ':');
      var octets := Split(lower[colon + 1..], ".");
      ExpandGroups(WithoutFinalColon(lower[..colon + 1]),
                   [256 * OctetAt(octets, 0) + OctetAt(octets, 1), 256 * OctetAt(octets, 2) + OctetAt(octets, 3)])
  }

  /** Drops a final colon unless it belongs to `::`. */
  function WithoutFinalColon(s: string): string {
    if s != "" && s[|s| - 1] == ':' && !(|s| >= 2 && s[|s| - 2] == ':') then s[..|s| - 1] else s
  }

  function HalfHextets(half: string): seq<int> {
    if half != "" then EachHex(Split(half, ":")) else []
  }

  function ExpandGroups(hexPart: string, suffix: seq<int>): seq<int> {
    var halves := Split(hexPart, "::");
    var left := HalfHextets(halves[0]);
    var right := if |halves| == 2 then HalfHextets(halves[1]) else [];
    Filled(left, right + suffix)
  }

  function Filled(left: seq<int>, right: seq<int>): seq<int> {
    left + Zeros(8 - |left| - |right|) + right
  }

  // ---- Digits ----

  lemma {:induction false} LoweredHex(g: string)
    requires forall i | 0 <= i < |g| :: IsHexDigit(g[i])
    ensures forall i | 0 <= i < |g| :: IsHexDigit(Lowered(g)[i])
    ensures HexValue(Lowered(g)) == HexValue(g)
  {
    if g != "" {
      LoweredHex(g[..|g| - 1]);
      assert Lowered(g)[..|g| - 1] == Lowered(g[..|g| - 1]);
    }
  }

  lemma ParseGroup(g: string)
    requires IsGroup(g)
    ensures ParseHex(g) == HexValue(g)
  {
    assert g[..|g|] == g;
  }

  predicate AreDigits(s: string) {
    forall i | 0 <= i < |s| :: IsDigit(s[i])
  }

  lemma AppendDigit(s: string, k: int)
    requires AreDigits(s) && 0 <= k < 10
    ensures AreDigits(s + [Digit(k)])
    ensures DecimalValue(s + [Digit(k)]) == 10 * DecimalValue(s) + k
  {
    assert (s + [Digit(k)])[..|s|] == s;
  }

  lemma ByteDigits(n: int)
    requires IsByte(n)
    ensures AreDigits(ByteText(n)) && 1 <= |ByteText(n)|
    ensures DecimalValue(ByteText(n)) == n
  {
    hide AreDigits, DecimalValue, Digit;
    NoDigits();
    if n < 10 {
      AppendDigit([], n);
      assert [] + [Digit(n)] == [Digit(n)];
    } else if n < 100 {
      AppendDigit([], n / 10);
      assert [] + [Digit(n / 10)] == [Digit(n / 10)];
      AppendDigit([Digit(n / 10)], n % 10);
      assert [Digit(n / 10)] + [Digit(n % 10)] == ByteText(n);
    } else {
      AppendDigit([], n / 100);
      assert [] + [Digit(n / 100)] == [Digit(n / 100)];
      AppendDigit([Digit(n / 100)], n / 10 % 10);
      assert [Digit(n / 100)] + [Digit(n / 10 % 10)] == [Digit(n / 100), Digit(n / 10 % 10)];
      AppendDigit([Digit(n / 100), Digit(n / 10 % 10)], n % 10);
      assert [Digit(n / 100), Digit(n / 10 % 10)] + [Digit(n % 10)] == ByteText(n);
    }
  }

  lemma NoDigits()
    ensures AreDigits([]) && DecimalValue([]) == 0
  {}

  lemma ParseByte(n: int)
    requires IsByte(n)
    ensures ParseDecimal(ByteText(n)) == n
  {
    ByteDigits(n);
    assert ByteText(n)[..|ByteText(n)|] == ByteText(n);
  }

  // ---- Lower case ----

  function EachLowered(parts: seq<string>): (lowered: seq<string>)
    ensures |lowered| == |parts|
    ensures forall i | 0 <= i < |parts| :: lowered[i] == Lowered(parts[i])
  {
    if parts == [] then [] else [Lowered(parts[0])] + EachLowered(parts[1..])
  }

  lemma {:induction false} LoweredJoin(parts: seq<string>, glue: string)
    requires Lowered(glue) == glue
    ensures Lowered(Join(parts, glue)) == Join(EachLowered(parts), glue)
  {
    if |parts| > 1 {
      LoweredJoin(parts[1..], glue);
      LoweredConcat(parts[0] + glue, Join(parts[1..], glue));
      LoweredConcat(parts[0], glue);
      assert EachLowered(parts)[1..] == EachLowered(parts[1..]);
    }
  }

  function LoweredSpelling(sp: Spelling): Spelling {
    sp.(left := EachLowered(sp.left), right := EachLowered(sp.right))
  }

  lemma {:induction false} LoweredValues(groups: seq<string>)
    requires forall i | 0 <= i < |groups| :: IsGroup(groups[i])
    ensures forall i | 0 <= i < |groups| :: IsGroup(EachLowered(groups)[i])
    ensures Values(EachLowered(groups)) == Values(groups)
  {
    if groups != [] {
      assert IsGroup(groups[0]);
      LoweredHex(groups[0]);
      LoweredValues(groups[1..]);
      assert EachLowered(groups)[1..] == EachLowered(groups[1..]);
    }
  }

  lemma QuadTextIsPlain(q: Quad)
    requires IsQuad(q)
    ensures forall i | 0 <= i < |QuadText(q)| :: IsDigit(QuadText(q)[i]) || QuadText(q)[i] == '.'
    ensures '.' in QuadText(q) && ':' !in QuadText(q) && Lowered(QuadText(q)) == QuadText(q)
    ensures IsDigit(QuadText(q)[0])
  {
    ByteDigits(q.a);
    ByteDigits(q.b);
    ByteDigits(q.c);
    ByteDigits(q.d);
    var parts := QuadParts(q);
    assert Join(parts[3..], ".") == parts[3];
    assert Join(parts[2..], ".") == parts[2] + "." + Join(parts[2..][1..], ".") && parts[2..][1..] == parts[3..];
    assert Join(parts[1..], ".") == parts[1] + "." + Join(parts[1..][1..], ".") && parts[1..][1..] == parts[2..];
    assert QuadText(q) == parts[0] + "." + Join(parts[1..], ".");
  }

  lemma LoweredPrint(sp: Spelling)
    requires IsSpelling(sp)
    ensures IsSpelling(LoweredSpelling(sp))
    ensures Lowered(Print(sp)) == Print(LoweredSpelling(sp))
    ensures Hextets(LoweredSpelling(sp)) == Hextets(sp)
  {
    hide IsGroup, Values, Join, EachLowered, Lowered;
    LoweredValues(sp.left);
    LoweredValues(sp.right);
    var tail := if sp.quad.Some? then [QuadText(sp.quad.value)] else [];
    if sp.quad.Some? { QuadTextIsPlain(sp.quad.value); }
    assert EachLowered(tail) == tail;
    Signs();
    if sp.elided {
      LoweredJoin(sp.left, ":");
      LoweredJoin(sp.right + tail, ":");
      LoweredConcat(Join(sp.left, ":") + "::", Join(sp.right + tail, ":"));
      LoweredConcat(Join(sp.left, ":"), "::");
      assert EachLowered(sp.right + tail) == EachLowered(sp.right) + tail;
    } else {
      LoweredJoin(sp.left + tail, ":");
      assert EachLowered(sp.left + tail) == EachLowered(sp.left) + tail;
    }
  }

  lemma Signs()
    ensures Lowered(":") == ":" && Lowered("::") == "::"
  {}

  // ---- Groups between colons ----

  predicate AreGroups(groups: seq<string>) {
    forall i | 0 <= i < |groups| :: IsGroup(groups[i])
  }

  lemma GroupIsPlain(g: string)
    requires IsGroup(g)
    ensures g != "" && ':' !in g && '.' !in g && '%' !in g
  {}

  /** Every colon between joined groups stands alone, and none stands at an end. */
  lemma {:induction false} ColonsStandAlone(groups: seq<string>)
    requires AreGroups(groups)
    ensures var x := Join(groups, ":");
            && (x == "" <==> groups == [])
            && (x != "" ==> x[0] != ':')
            && LoneColons(x)
            && '.' !in x && '%' !in x
  {
    if groups != [] {
      assert IsGroup(groups[0]);
      GroupIsPlain(groups[0]);
      if |groups| > 1 {
        ColonsStandAlone(groups[1..]);
        var x, y := Join(groups, ":"), Join(groups[1..], ":");
        forall i | 0 <= i < |x| && x[i] == ':'
          ensures i + 1 < |x| && x[i + 1] != ':'
        {
          if |groups[0]| < i { assert x[i] == y[i - |groups[0]| - 1]; }
        }
      }
    }
  }

  lemma {:induction false} EachHexOfGroups(groups: seq<string>)
    requires AreGroups(groups)
    ensures EachHex(groups) == Values(groups)
  {
    if groups != [] {
      assert IsGroup(groups[0]);
      ParseGroup(groups[0]);
      EachHexOfGroups(groups[1..]);
      assert EachHex(groups) == [ParseHex(groups[0])] + EachHex(groups[1..]);
    }
  }

  lemma SplitGroups(groups: seq<string>)
    requires AreGroups(groups) && groups != []
    ensures Split(Join(groups, ":"), ":") == groups
  {
    forall i | 0 <= i < |groups|
      ensures ':' !in groups[i]
    {
      GroupIsPlain(groups[i]);
    }
    SplitInvertsJoin(groups, ':');
  }

  /** The part before a dotted tail, or everything. */
  function HeadText(left: seq<string>, elided: bool, right: seq<string>): string {
    if elided then Join(left, ":") + "::" + Join(right, ":") else Join(left, ":")
  }

  predicate LoneColons(x: string) {
    forall i | 0 <= i < |x| && x[i] == ':' :: i + 1 < |x| && x[i + 1] != ':'
  }

  lemma NoDoubleColon(x: string, rest: string)
    requires LoneColons(x)
    ensures NotWithin("::", x + rest, |x|)
  {
    var s := x + rest;
    forall i | 0 <= i < |x|
      ensures !("::" <= s[i..])
    {
      assert s[i..][0] == x[i];
      assert x[i] == ':' ==> s[i..][1] == x[i + 1];
    }
  }

  lemma SplitHead(left: seq<string>, elided: bool, right: seq<string>)
    requires AreGroups(left) && AreGroups(right)
    ensures Split(HeadText(left, elided, right), "::")
            == if elided then [Join(left, ":"), Join(right, ":")] else [Join(left, ":")]
  {
    hide Split, Join, AreGroups, NotWithin;
    var x, y := Join(left, ":"), Join(right, ":");
    ColonsStandAlone(left);
    ColonsStandAlone(right);
    NoDoubleColon(x, "");
    NoDoubleColon(y, "");
    assert x + "" == x && y + "" == y;
    NothingToSplit(x, "::");
    NothingToSplit(y, "::");
    NoDoubleColon(x, "::" + y);
    assert x + ("::" + y) == x + "::" + y;
    if elided { SplitAtFirst(x, "::", y); }
  }

  lemma HalfOfGroups(groups: seq<string>)
    requires AreGroups(groups)
    ensures HalfHextets(Join(groups, ":")) == Values(groups)
  {
    hide Split, Join;
    ColonsStandAlone(groups);
    EachHexOfGroups(groups);
    if groups != [] { SplitGroups(groups); }
  }

  lemma ExpandHead(left: seq<string>, elided: bool, right: seq<string>, suffix: seq<int>)
    requires AreGroups(left) && AreGroups(right) && (elided || right == [])
    ensures ExpandGroups(HeadText(left, elided, right), suffix) == Filled(Values(left), Values(right) + suffix)
  {
    hide Split, Join, HeadText, AreGroups, HalfHextets, Values, Filled;
    SplitHead(left, elided, right);
    HalfOfGroups(left);
    HalfOfGroups(right);
    if !elided { NoValues(); }
  }

  lemma NoValues()
    ensures Values([]) == []
  {}

  // ---- Expansion inverts printing ----

  /** The text before a dotted tail, with the colon that leads over to it. */
  function BeforeQuad(sp: Spelling): string {
    if sp.elided && sp.right == [] then HeadText(sp.left, true, []) else HeadText(sp.left, sp.elided, sp.right) + ":"
  }

  lemma {:induction false} JoinLast(parts: seq<string>, last: string, glue: string)
    ensures Join(parts + [last], glue) == if parts == [] then last else Join(parts, glue) + glue + last
  {
    if parts != [] {
      assert (parts + [last])[1..] == parts[1..] + [last];
      JoinLast(parts[1..], last, glue);
      if |parts| > 1 {
        assert Join(parts + [last], glue) == parts[0] + glue + (Join(parts[1..], glue) + glue + last);
        assert Join(parts, glue) == parts[0] + glue + Join(parts[1..], glue);
      }
    }
  }

  lemma PrintWithQuad(sp: Spelling)
    requires IsSpelling(sp) && sp.quad.Some?
    ensures Print(sp) == BeforeQuad(sp) + QuadText(sp.quad.value)
  {
    hide Join, QuadText;
    var text := QuadText(sp.quad.value);
    if sp.elided {
      JoinLast(sp.right, text, ":");
      EmptyJoin();
      if sp.right != [] {
        assert Join(sp.left, ":") + "::" + (Join(sp.right, ":") + ":" + text)
            == Join(sp.left, ":") + "::" + Join(sp.right, ":") + ":" + text;
      }
    } else {
      JoinLast(sp.left, text, ":");
    }
  }

  lemma EmptyJoin()
    ensures Join([], ":") == ""
  {}

  lemma FinalColon(sp: Spelling)
    requires IsSpelling(sp) && sp.quad.Some?
    ensures BeforeQuad(sp) != "" && BeforeQuad(sp)[|BeforeQuad(sp)| - 1] == ':'
    ensures WithoutFinalColon(BeforeQuad(sp)) == HeadText(sp.left, sp.elided, sp.right)
  {
    hide Join;
    EmptyJoin();
    ColonsStandAlone(sp.left);
    ColonsStandAlone(sp.right);
    var head := HeadText(sp.left, sp.elided, sp.right);
    if !(sp.elided && sp.right == []) {
      assert (head + ":")[..|head|] == head;
      assert head != "" && head[|head| - 1] != ':';
    }
  }

  lemma SplitQuad(q: Quad)
    requires IsQuad(q)
    ensures Split(QuadText(q), ".") == QuadParts(q)
  {
    ByteDigits(q.a);
    ByteDigits(q.b);
    ByteDigits(q.c);
    ByteDigits(q.d);
    forall i | 0 <= i < 4
      ensures '.' !in QuadParts(q)[i]
    {}
    SplitInvertsJoin(QuadParts(q), '.');
  }

  /** The dotted tail is found by its last dot and the last colon before it. */
  lemma DottedTail(head: string, q: Quad)
    requires IsQuad(q) && head != "" && head[|head| - 1] == ':'
    ensures var s := head + QuadText(q);
            var dot := LastIndexOf(s, '.');
            dot != -1 && LastIndexOf(s[..dot], ':') == |head| - 1
  {
    hide QuadText;
    QuadTextIsPlain(q);
    var text := QuadText(q);
    var s := head + text;
    var dot := LastIndexOf(s, '.');
    var k :| 0 <= k < |text| && text[k] == '.';
    assert s[|head| + k] == '.';
    var front := s[..dot];
    forall i | |head| <= i < |front|
      ensures front[i] != ':'
    {
      assert front[i] == text[i - |head|];
    }
    LastIndexIs(front, ':', |head| - 1);
  }

  lemma OctetsOfQuad(q: Quad)
    requires IsQuad(q)
    ensures var octets := QuadParts(q);
            [256 * OctetAt(octets, 0) + OctetAt(octets, 1), 256 * OctetAt(octets, 2) + OctetAt(octets, 3)]
            == QuadWords(Some(q))
  {
    hide ParseDecimal, ByteText;
    ParseByte(q.a);
    ParseByte(q.b);
    ParseByte(q.c);
    ParseByte(q.d);
  }

  lemma ExpandDotted(head: string, q: Quad)
    requires IsQuad(q) && head != "" && head[|head| - 1] == ':'
    ensures ExpandLowered(head + QuadText(q)) == ExpandGroups(WithoutFinalColon(head), QuadWords(Some(q)))
  {
    hide Split, ExpandGroups, QuadText, QuadParts, WithoutFinalColon, OctetAt;
    var s := head + QuadText(q);
    DottedTail(head, q);
    SplitQuad(q);
    OctetsOfQuad(q);
    assert s[|head|..] == QuadText(q) && s[..|head|] == head;
  }

  lemma ExpandPrinted(sp: Spelling)
    requires IsSpelling(sp)
    ensures ExpandLowered(Print(sp)) == Hextets(sp)
  {
    hide Print, ExpandGroups, QuadText, WithoutFinalColon, BeforeQuad, Values, HeadText, Zeros;
    ExpandHead(sp.left, sp.elided, sp.right, QuadWords(sp.quad));
    if sp.quad.None? {
      PrintWithoutQuad(sp);
    } else {
      PrintWithQuad(sp);
      FinalColon(sp);
      ExpandDotted(BeforeQuad(sp), sp.quad.value);
    }
  }

  lemma PrintWithoutQuad(sp: Spelling)
    requires IsSpelling(sp) && sp.quad.None?
    ensures Print(sp) == HeadText(sp.left, sp.elided, sp.right)
    ensures LastIndexOf(Print(sp), '.') == -1
  {
    hide Join;
    ColonsStandAlone(sp.left);
    ColonsStandAlone(sp.right);
    assert sp.left + [] == sp.left && sp.right + [] == sp.right;
  }

  /** For every spelling of an IPv6 address, in any letter case, expansion returns the eight
      hextets the spelling denotes. */
  lemma ExpansionInvertsPrinting(sp: Spelling)
    requires IsSpelling(sp)
    ensures ExpandIpv6ToHextets(Print(sp)) == Hextets(sp)
  {
    hide Print, Hextets, ExpandLowered;
    LoweredPrint(sp);
    ExpandPrinted(LoweredSpelling(sp));
  }

  lemma FullSpelling(groups: seq<string>)
    requires |groups| == 8 && AreGroups(groups)
    ensures var full := Spelling(groups, false, [], None);
            IsSpelling(full) && Hextets(full) == Values(groups)
  {
    hide Values, IsGroup, HexValue;
    NoValues();
    assert Values(groups) + [] + ([] + []) == Values(groups);
  }

  lemma ElidedValues(groups: seq<string>, i: nat, j: nat)
    requires AreGroups(groups) && i <= j <= |groups|
    requires forall k | i <= k < j :: Values(groups)[k] == 0
    ensures Values(groups[..i]) + Zeros(j - i) + Values(groups[j..]) == Values(groups)
  {
    hide Values, IsGroup, HexValue;
    assert Values(groups[..i]) == Values(groups)[..i];
    assert Values(groups[j..]) == Values(groups)[j..];
    assert Zeros(j - i) == Values(groups)[i..j];
  }

  /** Every run of one or more zero groups, at the start, in the middle or at the end, may be
      written `::` without changing the address. */
  lemma ZeroRunsMayBeElided(groups: seq<string>, i: nat, j: nat)
    requires |groups| == 8 && AreGroups(groups)
    requires i < j <= 8 && forall k | i <= k < j :: Values(groups)[k] == 0
    ensures var full, short := Spelling(groups, false, [], None), Spelling(groups[..i], true, groups[j..], None);
            IsSpelling(full) && IsSpelling(short) && Hextets(short) == Hextets(full)
  {
    hide Values, IsGroup, HexValue, Zeros;
    FullSpelling(groups);
    ElidedValues(groups, i, j);
    assert Values(groups[j..]) + [] == Values(groups[j..]);
  }
}
