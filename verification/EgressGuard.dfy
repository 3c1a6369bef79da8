/** Which addresses a database connection may reach (packages/connectors/src/db-egress-guard.ts). */
module EgressGuard {
  import opened IpLiterals
  import opened TextTools
  import opened Wrappers

  datatype Policy = AllowPrivate | BlockPrivate

  // ---- Block lists ----

  /** All addresses of `bits` bits that agree with `base` on the first `prefix` of them. */
  datatype Rule = Rule(base: int, prefix: nat)

  function Power2(n: nat): (p: nat)
    ensures 1 <= p
  {
    if n == 0 then 1 else 2 * Power2(n - 1)
  }

  predicate RuleMatches(rule: Rule, address: int, bits: nat)
    requires rule.prefix <= bits
  {
    address / Power2(bits - rule.prefix) == rule.base / Power2(bits - rule.prefix)
  }

  predicate AreRules(list: seq<Rule>, bits: nat) {
    forall i | 0 <= i < |list| :: list[i].prefix <= bits
  }

  predicate Check(list: seq<Rule>, address: int, bits: nat)
    requires AreRules(list, bits)
  {
    exists i | 0 <= i < |list| :: RuleMatches(list[i], address, bits)
  }

  function QuadNumber(q: Quad): int {
    (256 * q.a + q.b) * 65536 + (256 * q.c + q.d)
  }

  function HextetsNumber(hextets: seq<int>): int {
    if hextets == [] then 0 else 65536 * HextetsNumber(hextets[..|hextets| - 1]) + hextets[|hextets| - 1]
  }

  const BLOCK_PRIVATE_V4: seq<(Quad, nat)> := [
    (Quad(0, 0, 0, 0), 8),
    (Quad(10, 0, 0, 0), 8),
    (Quad(100, 64, 0, 0), 10),
    (Quad(127, 0, 0, 0), 8),
    (Quad(169, 254, 0, 0), 16),
    (Quad(172, 16, 0, 0), 12),
    (Quad(192, 168, 0, 0), 16),
    (Quad(198, 18, 0, 0), 15),
    (Quad(224, 0, 0, 0), 4),
    (Quad(240, 0, 0, 0), 4)]

  const ALLOW_PRIVATE_V4: seq<(Quad, nat)> := [
    (Quad(0, 0, 0, 0), 8),
    (Quad(169, 254, 0, 0), 16),
    (Quad(224, 0, 0, 0), 4),
    (Quad(240, 0, 0, 0), 4)]

  /** The first hextet of the base address and the prefix length. */
  const BLOCK_PRIVATE_V6: seq<(int, nat)> := [(0xfc00, 7), (0xfe80, 10), (0xff00, 8)]
  const ALLOW_PRIVATE_V6: seq<(int, nat)> := [(0xfe80, 10), (0xff00, 8)]

  function V4Rules(ranges: seq<(Quad, nat)>): (list: seq<Rule>)
    ensures |list| == |ranges|
    ensures forall i | 0 <= i < |ranges| :: list[i] == Rule(QuadNumber(ranges[i].0), ranges[i].1)
  {
    seq(|ranges|, i requires 0 <= i < |ranges| => Rule(QuadNumber(ranges[i].0), ranges[i].1))
  }

  function V6Base(first: int): int {
    HextetsNumber([first, 0, 0, 0, 0, 0, 0, 0])
  }

  const UNSPECIFIED := Rule(0, 128)
  const LOOPBACK := Rule(1, 128)

  function V6Rules(ranges: seq<(int, nat)>): (list: seq<Rule>)
    ensures |list| == |ranges|
    ensures forall i | 0 <= i < |ranges| :: list[i] == Rule(V6Base(ranges[i].0), ranges[i].1)
  {
    seq(|ranges|, i requires 0 <= i < |ranges| => Rule(V6Base(ranges[i].0), ranges[i].1))
  }

  method BuildV4List(ranges: seq<(Quad, nat)>) returns (list: seq<Rule>)
    ensures list == V4Rules(ranges)
  {
    list := [];
    for i := 0 to |ranges|
      invariant list == V4Rules(ranges)[..i]
    {
      list := list + [Rule(QuadNumber(ranges[i].0), ranges[i].1)];
    }
  }

  method BuildV6List(ranges: seq<(int, nat)>, withUnspecified: bool) returns (list: seq<Rule>)
    ensures list == (if withUnspecified then [UNSPECIFIED] else []) + V6Rules(ranges)
  {
    list := [];
    if withUnspecified { list := [UNSPECIFIED]; }
    ghost var start := list;
    for i := 0 to |ranges|
      invariant list == start + V6Rules(ranges)[..i]
    {
      list := list + [Rule(V6Base(ranges[i].0), ranges[i].1)];
    }
  }

  function V4Table(policy: Policy): (table: seq<(Quad, nat)>)
    ensures forall i | 0 <= i < |table| :: table[i].1 <= 32
  {
    if policy == BlockPrivate then BLOCK_PRIVATE_V4 else ALLOW_PRIVATE_V4
  }

  function V4List(policy: Policy): (list: seq<Rule>)
    ensures AreRules(list, 32)
  {
    V4Rules(V4Table(policy))
  }

  function V6List(policy: Policy): (list: seq<Rule>)
    ensures AreRules(list, 128)
  {
    if policy == BlockPrivate then [UNSPECIFIED] + V6Rules(BLOCK_PRIVATE_V6) + [LOOPBACK]
    else [UNSPECIFIED] + V6Rules(ALLOW_PRIVATE_V6)
  }

  // ---- normalizeIpLiteral and isBlockedIp ----

  datatype Normalized = Ipv4(value: string) | Ipv6(value: string) | NotIp | Invalid

  predicate IsWord16(n: int) { 0 <= n < 65536 }

  function BytesOf(high: int, low: int): (q: Quad)
    requires IsWord16(high) && IsWord16(low)
    ensures IsQuad(q)
  {
    Quad(high / 256, high % 256, low / 256, low % 256)
  }

  function HextetsToIpv4(high: int, low: int): string
    requires IsWord16(high) && IsWord16(low)
  {
    QuadText(BytesOf(high, low))
  }

  function Bare(host: string): string {
    Trim(host[..IndexOf(host, '%')])
  }

  const MAPPED := "::ffff:"

  ghost function NormalizeMapped(mapped: string): Normalized {
    if '.' in mapped then
      if IsIpv4(mapped) then Ipv4(mapped) else Invalid
    else
      var parts := Split(mapped, ":");
      if |parts| != 2 then Invalid
      else
        var high, low := ParseHex(parts[0]), ParseHex(parts[1]);
        if IsWord16(high) && IsWord16(low) then Ipv4(HextetsToIpv4(high, low)) else Invalid
  }

  /** The unwrapping of NAT64 and IPv4-compatible addresses. */
  function NormalizeHextets(hextets: seq<int>, bare: string): Normalized
    requires |hextets| == 8 && IsWord16(hextets[6]) && IsWord16(hextets[7])
  {
    if hextets[..6] == [0x64, 0xff9b, 0, 0, 0, 0] then Ipv4(HextetsToIpv4(hextets[6], hextets[7]))
    else if hextets[..6] == [0, 0, 0, 0, 0, 0] && (hextets[6] != 0 || hextets[7] > 1) then
      Ipv4(HextetsToIpv4(hextets[6], hextets[7]))
    else Ipv6(bare)
  }

  ghost function NormalizeIpLiteral(host: string): Normalized {
    var bare := Bare(host);
    if bare == "" then (if '%' in host then Invalid else NotIp)
    else if IsIpv4(bare) then Ipv4(bare)
    else if !IsIpv6(bare) then (if ':' in bare then Invalid else NotIp)
    else if MAPPED <= Lowered(bare) then NormalizeMapped(Lowered(bare)[|MAPPED|..])
    else
      ExpandedWords(bare);
      NormalizeHextets(ExpandIpv6ToHextets(bare), bare)
  }

  /** The number a dotted quad spells. */
  function V4Number(text: string): int {
    var octets := Split(text, ".");
    (256 * OctetAt(octets, 0) + OctetAt(octets, 1)) * 65536 + (256 * OctetAt(octets, 2) + OctetAt(octets, 3))
  }

  ghost predicate IsBlockedIp(ip: string, policy: Policy) {
    match NormalizeIpLiteral(ip)
    case Ipv4(value) => Check(V4List(policy), V4Number(value), 32)
    case Ipv6(value) => Check(V6List(policy), HextetsNumber(ExpandIpv6ToHextets(value)), 128)
    case Invalid => true
    case NotIp => false
  }

  // ---- Hextets are 16-bit words ----

  lemma {:induction false} HexBound(g: string)
    requires forall i | 0 <= i < |g| :: IsHexDigit(g[i])
    ensures |g| == 1 ==> HexValue(g) < 16
    ensures |g| == 2 ==> HexValue(g) < 256
    ensures |g| == 3 ==> HexValue(g) < 4096
    ensures |g| == 4 ==> HexValue(g) < 65536
  {
    if g != "" && |g| <= 4 {
      assert IsHexDigit(g[|g| - 1]);
      HexBound(g[..|g| - 1]);
    }
  }

  lemma ValuesAreWords(groups: seq<string>)
    requires AreGroups(groups)
    ensures forall i | 0 <= i < |groups| :: IsWord16(Values(groups)[i])
  {
    hide Values;
    forall i | 0 <= i < |groups|
      ensures IsWord16(Values(groups)[i])
    {
      HexBound(groups[i]);
    }
  }

  lemma HextetsAreWords(sp: Spelling)
    requires IsSpelling(sp)
    ensures forall i | 0 <= i < 8 :: IsWord16(Hextets(sp)[i])
  {
    hide Values;
    ValuesAreWords(sp.left);
    ValuesAreWords(sp.right);
  }

  lemma ExpandedWords(s: string)
    requires IsIpv6(s)
    ensures var h := ExpandIpv6ToHextets(s); |h| == 8 && forall i | 0 <= i < 8 :: IsWord16(h[i])
  {
    var sp :| IsSpelling(sp) && Print(sp) == s;
    ExpansionInvertsPrinting(sp);
    HextetsAreWords(sp);
  }

  // ---- Printed addresses as hosts ----

  predicate IsAddressCharacter(c: char) {
    IsHexDigit(c) || c == ':' || c == '.'
  }

  predicate IsPlain(s: string) {
    forall i | 0 <= i < |s| :: IsAddressCharacter(s[i])
  }

  lemma {:induction false} PlainJoin(parts: seq<string>, glue: string)
    requires IsPlain(glue) && forall i | 0 <= i < |parts| :: IsPlain(parts[i])
    ensures IsPlain(Join(parts, glue))
  {
    if |parts| > 1 {
      assert IsPlain(parts[0]);
      PlainJoin(parts[1..], glue);
    }
  }

  lemma QuadIsPlain(q: Quad)
    requires IsQuad(q)
    ensures IsPlain(QuadText(q)) && QuadText(q) != ""
  {
    QuadTextIsPlain(q);
  }

  lemma GroupsArePlain(groups: seq<string>)
    requires AreGroups(groups)
    ensures forall i | 0 <= i < |groups| :: IsPlain(groups[i])
  {
    forall i | 0 <= i < |groups|
      ensures IsPlain(groups[i])
    {
      assert IsGroup(groups[i]);
    }
  }

  /** The parts that are joined by colons behind `::`, or all of them. */
  function Tail(sp: Spelling): seq<string>
    requires IsSpelling(sp)
  {
    if sp.quad.Some? then [QuadText(sp.quad.value)] else []
  }

  lemma TailIsPlain(sp: Spelling)
    requires IsSpelling(sp)
    ensures forall i | 0 <= i < |Tail(sp)| :: IsPlain(Tail(sp)[i]) && ':' !in Tail(sp)[i]
  {
    if sp.quad.Some? {
      QuadIsPlain(sp.quad.value);
      QuadTextIsPlain(sp.quad.value);
    }
  }

  lemma PrintedIsPlain(sp: Spelling)
    requires IsSpelling(sp)
    ensures IsPlain(Print(sp)) && ':' in Print(sp)
  {
    hide Join, IsGroup, IsPlain;
    GroupsArePlain(sp.left);
    GroupsArePlain(sp.right);
    TailIsPlain(sp);
    Separators();
    if sp.elided {
      PlainJoin(sp.left, ":");
      PlainJoin(sp.right + Tail(sp), ":");
      PlainConcat(Join(sp.left, ":"), "::");
      PlainConcat(Join(sp.left, ":") + "::", Join(sp.right + Tail(sp), ":"));
      assert Print(sp)[|Join(sp.left, ":")|] == ':';
    } else {
      PlainJoin(sp.left + Tail(sp), ":");
      ColonBetween(sp.left + Tail(sp));
    }
  }

  lemma Separators()
    ensures IsPlain(":") && IsPlain("::")
  {}

  lemma PlainConcat(a: string, b: string)
    requires IsPlain(a) && IsPlain(b)
    ensures IsPlain(a + b)
  {}

  lemma ColonBetween(parts: seq<string>)
    requires 2 <= |parts|
    ensures ':' in Join(parts, ":")
  {
    assert Join(parts, ":")[|parts[0]|] == ':';
  }

  lemma PlainIsBare(s: string)
    requires IsPlain(s) && s != ""
    ensures Bare(s) == s
  {
    assert forall i | 0 <= i < |s| :: IsAddressCharacter(s[i]) && s[i] != '%';
    IndexIs(s, '%', |s|);
    assert s[..|s|] == s;
    assert !IsBlank(s[0]) && !IsBlank(s[|s| - 1]);
    TrimKeeps(s);
  }

  /** A printed IPv6 address is taken as one. */
  lemma PrintedIsIpv6(sp: Spelling)
    requires IsSpelling(sp)
    ensures Bare(Print(sp)) == Print(sp) != "" && !IsIpv4(Print(sp)) && IsIpv6(Print(sp))
  {
    hide Print, QuadText;
    PrintedIsPlain(sp);
    PlainIsBare(Print(sp));
    forall q | IsQuad(q)
      ensures QuadText(q) != Print(sp)
    {
      QuadTextIsPlain(q);
    }
  }

  // ---- The textual test for mapped addresses ----

  lemma {:induction false} FirstPart(parts: seq<string>, text: string)
    requires parts != [] && forall i | 0 <= i < |parts| :: ':' !in parts[i]
    requires ':' !in text && text + ":" <= Join(parts, ":")
    ensures parts[0] == text && 2 <= |parts|
    ensures Join(parts, ":") == text + ":" + Join(parts[1..], ":")
  {
    var s := Join(parts, ":");
    assert s[|text|] == ':' && ':' in s;
    assert |parts| != 1;
    var p := parts[0];
    assert s == p + ":" + Join(parts[1..], ":");
    assert s[..|text|] == text;
    forall k | 0 <= k < |text|
      ensures s[k] != ':'
    {
      assert s[k] == text[k];
    }
    IndexIs(s, ':', |text|);
    IndexIs(s, ':', |p|);
    assert s[..|p|] == p;
  }

  /** Only an address that begins `::ffff:` passes the test, and what follows is the rest of it. */
  lemma MappedPrefix(sp: Spelling)
    requires IsSpelling(sp) && MAPPED <= Print(sp)
    ensures sp.left == [] && sp.elided && sp.right != [] && sp.right[0] == "ffff"
    ensures 1 <= |sp.right[1..] + Tail(sp)|
    ensures Print(sp) == MAPPED + Join(sp.right[1..] + Tail(sp), ":")
  {
    hide Join, QuadText;
    ColonsStandAlone(sp.left);
    var parts := sp.right + Tail(sp);
    TailIsPlain(sp);
    NoColonsIn(sp.right);
    assert Print(sp)[0] == ':' && Print(sp)[1] == ':';
    ColonFirst(sp);
    hide IsSpelling, IsGroup, IsPlain;
    assert sp.left == [];
    EmptyJoin();
    assert Print(sp)[2..] == Join(parts, ":");
    assert MAPPED[2..] == "ffff:" == "ffff" + ":";
    assert "ffff" + ":" <= Join(parts, ":");
    assert parts != [];
    FirstPart(parts, "ffff");
    if sp.quad.Some? { QuadTextIsPlain(sp.quad.value); }
    assert parts[0][0] == 'f';
    assert sp.right != [];
    assert parts[1..] == sp.right[1..] + Tail(sp);
  }

  lemma ColonFirst(sp: Spelling)
    requires IsSpelling(sp) && Print(sp) != "" && Print(sp)[0] == ':'
    ensures sp.elided
  {
    hide Join, QuadText;
    NoColonsIn(sp.left);
    TailIsPlain(sp);
    if !sp.elided {
      JoinStart(sp.left + Tail(sp));
      assert false;
    }
  }

  lemma NoColonsIn(groups: seq<string>)
    requires AreGroups(groups)
    ensures forall i | 0 <= i < |groups| :: ':' !in groups[i]
  {
    forall i | 0 <= i < |groups|
      ensures ':' !in groups[i]
    {
      GroupIsPlain(groups[i]);
    }
  }

  lemma JoinStart(parts: seq<string>)
    requires parts != [] && parts[0] != ""
    ensures Join(parts, ":") != "" && Join(parts, ":")[0] == parts[0][0]
  {}

  // ---- One address, many spellings ----

  predicate V4Blocked(q: Quad, policy: Policy) {
    Check(V4List(policy), QuadNumber(q), 32)
  }

  lemma QuadTextNumber(q: Quad)
    requires IsQuad(q)
    ensures V4Number(QuadText(q)) == QuadNumber(q)
  {
    hide QuadText, QuadParts, OctetAt;
    SplitQuad(q);
    OctetsOfQuad(q);
  }

  function HighWord(q: Quad): int { 256 * q.a + q.b }
  function LowWord(q: Quad): int { 256 * q.c + q.d }

  lemma BytesOfWords(q: Quad)
    requires IsQuad(q)
    ensures IsWord16(HighWord(q)) && IsWord16(LowWord(q)) && BytesOf(HighWord(q), LowWord(q)) == q
  {}

  /** A host that normalizes to the text of `q` gets the verdict of `q`. */
  lemma VerdictOfQuad(host: string, q: Quad, policy: Policy)
    requires IsQuad(q) && NormalizeIpLiteral(host) == Ipv4(QuadText(q))
    ensures IsBlockedIp(host, policy) <==> V4Blocked(q, policy)
  {
    hide NormalizeIpLiteral, V4Number, Check;
    QuadTextNumber(q);
  }

  lemma DottedForm(q: Quad, policy: Policy)
    requires IsQuad(q)
    ensures IsBlockedIp(QuadText(q), policy) <==> V4Blocked(q, policy)
  {
    hide QuadText, Bare, IsBlockedIp;
    QuadIsPlain(q);
    PlainIsBare(QuadText(q));
    VerdictOfQuad(QuadText(q), q, policy);
  }

  /** `::ffff:` in any letter case, followed by the dotted quad or by its two words. */
  predicate IsMappedSpelling(sp: Spelling, q: Quad) {
    && IsSpelling(sp) && sp.left == [] && sp.elided && sp.right != [] && Lowered(sp.right[0]) == "ffff"
    && if sp.quad.Some? then |sp.right| == 1 && sp.quad.value == q
       else |sp.right| == 3 && HexValue(sp.right[1]) == HighWord(q) && HexValue(sp.right[2]) == LowWord(q)
  }

  lemma MappedForms(sp: Spelling, q: Quad, policy: Policy)
    requires IsQuad(q) && IsMappedSpelling(sp, q)
    ensures IsBlockedIp(Print(sp), policy) <==> V4Blocked(q, policy)
  {
    hide QuadText, Bare, IsBlockedIp, Print, NormalizeMapped, IsGroup;
    PrintedIsIpv6(sp);
    LoweredPrint(sp);
    var lower := LoweredSpelling(sp);
    MappedText(lower);
    NormalizedMapping(lower, q) by {
      if sp.quad.None? { LoweredWords(sp); }
    }
    VerdictOfQuad(Print(sp), q, policy);
  }

  lemma LoweredWords(sp: Spelling)
    requires IsSpelling(sp)
    ensures IsSpelling(LoweredSpelling(sp))
    ensures forall i | 0 <= i < |sp.right| :: IsGroup(LoweredSpelling(sp).right[i])
                                              && HexValue(LoweredSpelling(sp).right[i]) == HexValue(sp.right[i])
  {
    LoweredPrint(sp);
    forall i | 0 <= i < |sp.right|
      ensures HexValue(Lowered(sp.right[i])) == HexValue(sp.right[i])
    {
      assert IsGroup(sp.right[i]);
      LoweredHex(sp.right[i]);
    }
  }

  lemma MappedText(sp: Spelling)
    requires IsSpelling(sp) && sp.left == [] && sp.elided && sp.right != [] && sp.right[0] == "ffff"
    requires 1 <= |sp.right[1..] + Tail(sp)|
    ensures Print(sp) == MAPPED + Join(sp.right[1..] + Tail(sp), ":")
  {
    hide QuadText, IsGroup;
    var parts := sp.right + Tail(sp);
    assert parts[0] == "ffff" && parts[1..] == sp.right[1..] + Tail(sp);
    assert Join(parts, ":") == "ffff" + ":" + Join(parts[1..], ":");
    EmptyJoin();
    assert MAPPED == "::" + ("ffff" + ":");
  }

  lemma NormalizedMapping(sp: Spelling, q: Quad)
    requires IsQuad(q) && IsMappedSpelling(sp, q)
    ensures NormalizeMapped(Join(sp.right[1..] + Tail(sp), ":")) == Ipv4(QuadText(q))
  {
    hide QuadText, HexValue, IsGroup, ParseHex;
    BytesOfWords(q);
    var parts := sp.right[1..] + Tail(sp);
    if sp.quad.Some? {
      assert parts == [QuadText(q)];
      QuadTextIsPlain(q);
    } else {
      assert parts == sp.right[1..];
      ColonsStandAlone(parts);
      SplitGroups(parts);
      ParseGroup(parts[0]);
      ParseGroup(parts[1]);
    }
  }

  /** An address outside the textual mapped form is judged by its hextets. */
  lemma JudgedByHextets(sp: Spelling)
    requires IsSpelling(sp) && !(MAPPED <= Lowered(Print(sp)))
    ensures IsWord16(Hextets(sp)[6]) && IsWord16(Hextets(sp)[7])
    ensures NormalizeIpLiteral(Print(sp)) == NormalizeHextets(Hextets(sp), Print(sp))
  {
    hide Bare, Print, Hextets, NormalizeMapped, NormalizeHextets;
    PrintedIsIpv6(sp);
    ExpansionInvertsPrinting(sp);
    HextetsAreWords(sp);
  }

  lemma MappedBeginsWithZero(sp: Spelling)
    requires IsSpelling(sp) && MAPPED <= Lowered(Print(sp))
    ensures sp.left == [] && sp.elided && sp.right != [] && HexValue(sp.right[0]) == 0xffff
    ensures 1 <= |sp.right[1..] + Tail(sp)|
    ensures Lowered(Print(sp)) == MAPPED + Join(LoweredSpelling(sp).right[1..] + Tail(sp), ":")
    ensures Hextets(sp)[0] == 0
  {
    hide Print, IsGroup, Values, HexValue;
    LoweredPrint(sp);
    MappedPrefix(LoweredSpelling(sp));
    LoweredWords(sp);
    ValueOfFfff();
    NoValues();
  }

  lemma ValueOfFfff()
    ensures HexValue("ffff") == 0xffff
  {
    assert "ffff"[..3] == "fff" && "fff"[..2] == "ff" && "ff"[..1] == "f" && "f"[..0] == "";
    assert HexValue("f") == 16 * HexValue("") + 15;
    assert HexValue("ff") == 255;
    assert HexValue("fff") == 4095;
  }

  /** Any spelling of an address under 64:ff9b::/96 (section 2.1 of RFC 6052). */
  lemma Nat64Forms(sp: Spelling, q: Quad, policy: Policy)
    requires IsQuad(q) && IsSpelling(sp)
    requires Hextets(sp) == [0x64, 0xff9b, 0, 0, 0, 0, HighWord(q), LowWord(q)]
    ensures IsBlockedIp(Print(sp), policy) <==> V4Blocked(q, policy)
  {
    hide IsBlockedIp, NormalizeIpLiteral, Print, QuadText, Hextets;
    if MAPPED <= Lowered(Print(sp)) {
      MappedBeginsWithZero(sp);
      assert false;
    }
    JudgedByHextets(sp);
    BytesOfWords(q);
    VerdictOfQuad(Print(sp), q, policy);
  }

  /** Any spelling of the IPv4-compatible address of a value above 1.  Those that happen to begin
      `::ffff:` fail to normalize; their values are reserved, and so blocked, anyway. */
  lemma CompatibleForms(sp: Spelling, q: Quad, policy: Policy)
    requires IsQuad(q) && IsSpelling(sp) && 1 < QuadNumber(q)
    requires Hextets(sp) == [0, 0, 0, 0, 0, 0, HighWord(q), LowWord(q)]
    ensures IsBlockedIp(Print(sp), policy) <==> V4Blocked(q, policy)
  {
    hide IsBlockedIp, NormalizeIpLiteral, Print, QuadText, Hextets, V4Blocked;
    if MAPPED <= Lowered(Print(sp)) {
      CompatibleLooksMapped(sp, q);
      ReservedIsBlocked(q, policy);
      InvalidIsBlocked(Print(sp), policy);
    } else {
      JudgedByHextets(sp);
      BytesOfWords(q);
      VerdictOfQuad(Print(sp), q, policy);
    }
  }

  lemma InvalidIsBlocked(host: string, policy: Policy)
    requires NormalizeIpLiteral(host) == Invalid
    ensures IsBlockedIp(host, policy)
  {}

  lemma CompatibleLooksMapped(sp: Spelling, q: Quad)
    requires IsQuad(q) && IsSpelling(sp) && MAPPED <= Lowered(Print(sp))
    requires Hextets(sp) == [0, 0, 0, 0, 0, 0, HighWord(q), LowWord(q)]
    ensures NormalizeIpLiteral(Print(sp)) == Invalid && HighWord(q) == 0xffff
  {
    hide Bare, Print, IsGroup, HexValue;
    MappedBeginsWithZero(sp);
    PrintedIsIpv6(sp);
    LoweredWords(sp);
    WhereFfffStands(sp);
    var rest := LoweredSpelling(sp).right[1..] + Tail(sp);
    assert rest == [LoweredSpelling(sp).right[1]];
    ColonsStandAlone(rest);
    SplitGroups(rest);
    assert Lowered(Print(sp))[|MAPPED|..] == Join(rest, ":");
  }

  /** With six leading zero hextets, `ffff` behind `::` leaves room for one more group only. */
  lemma WhereFfffStands(sp: Spelling)
    requires IsSpelling(sp) && sp.left == [] && sp.elided && sp.right != [] && HexValue(sp.right[0]) == 0xffff
    requires 1 <= |sp.right[1..] + Tail(sp)|
    requires forall i | 0 <= i < 6 :: Hextets(sp)[i] == 0
    ensures |sp.right| == 2 && sp.quad.None? && Hextets(sp)[6] == 0xffff
  {
    hide Values, HexValue;
    NoValues();
    assert Hextets(sp)[8 - Units(sp)] == 0xffff;
  }

  // ---- Ranges ----

  /** An address lies in the range of numbers that begins at `q` and holds all addresses sharing
      the first `prefix` bits. */
  predicate InRange(address: int, q: Quad, prefix: nat)
    requires prefix <= 32
  {
    QuadNumber(q) <= address < QuadNumber(q) + Power2(32 - prefix)
  }

  /** Some range of the policy's table holds the address. */
  predicate IsListed(q: Quad, policy: Policy) {
    exists i | 0 <= i < |V4Table(policy)| :: InRange(QuadNumber(q), V4Table(policy)[i].0, V4Table(policy)[i].1)
  }

  lemma ProductsAreMonotone(a: int, b: int, size: int)
    requires a <= b && 0 < size
    ensures a * size <= b * size
  {}

  lemma QuotientIs(x: int, k: int, size: int)
    requires 0 < size
    ensures x / size == k <==> k * size <= x < k * size + size
  {
    var d := x / size;
    assert x == d * size + x % size && 0 <= x % size < size;
    if d < k {
      ProductsAreMonotone(d + 1, k, size);
      assert (d + 1) * size == d * size + size;
    } else if k < d {
      ProductsAreMonotone(k + 1, d, size);
      assert (k + 1) * size == k * size + size;
    }
  }

  lemma SameQuotient(x: int, base: int, k: int, size: int)
    requires 0 < size && base == k * size
    ensures x / size == base / size <==> base <= x < base + size
  {
    QuotientIs(base, k, size);
    QuotientIs(x, k, size);
  }

  lemma Sizes()
    ensures Power2(16) == 0x1_0000 && Power2(17) == 0x2_0000 && Power2(20) == 0x10_0000
    ensures Power2(22) == 0x40_0000 && Power2(24) == 0x100_0000 && Power2(28) == 0x1000_0000
  {
    assert Power2(4) == 16 && Power2(8) == 256 && Power2(12) == 4096;
    assert Power2(14) == 16384 && Power2(16) == 65536;
    assert Power2(18) == 262144;
    assert Power2(20) == 1048576 && Power2(22) == 4194304 && Power2(24) == 16777216 && Power2(26) == 67108864;
  }

  /** The base address is `k` times the size of its range. */
  predicate IsMultiple(range: (Quad, nat), k: int) {
    range.1 <= 32 && QuadNumber(range.0) == k * Power2(32 - range.1)
  }

  /** The base addresses of the tables in units of their ranges. */
  function UnitsOf(policy: Policy): (units: seq<int>)
    ensures |units| == |V4Table(policy)|
  {
    if policy == BlockPrivate then [0, 10, 401, 127, 0xa9fe, 0xac1, 0xc0a8, 0x6309, 14, 15]
    else [0, 0xa9fe, 14, 15]
  }

  lemma Slash8()
    ensures IsMultiple((Quad(0, 0, 0, 0), 8), 0)
    ensures IsMultiple((Quad(10, 0, 0, 0), 8), 10)
    ensures IsMultiple((Quad(127, 0, 0, 0), 8), 127)
  {
    hide Power2, IsMultiple, QuadNumber;
    assert Power2(24) == 0x100_0000 by { Sizes(); }
    MultipleOf(Quad(0, 0, 0, 0), 0);
    MultipleOf(Quad(10, 0, 0, 0), 10);
    MultipleOf(Quad(127, 0, 0, 0), 127);
  }

  lemma MultipleOf(q: Quad, k: int)
    requires Power2(24) == 0x100_0000 && q == Quad(k, 0, 0, 0)
    ensures IsMultiple((q, 8), k)
  {
    hide Power2;
  }

  lemma Slash16()
    ensures IsMultiple((Quad(169, 254, 0, 0), 16), 0xa9fe) && IsMultiple((Quad(192, 168, 0, 0), 16), 0xc0a8)
  {
    hide Power2;
    assert Power2(16) == 0x1_0000 by { Sizes(); }
  }

  lemma OddSlashes()
    ensures IsMultiple((Quad(100, 64, 0, 0), 10), 401) && IsMultiple((Quad(172, 16, 0, 0), 12), 0xac1)
    ensures IsMultiple((Quad(198, 18, 0, 0), 15), 0x6309)
  {
    hide Power2;
    assert Power2(22) == 0x40_0000 && Power2(20) == 0x10_0000 && Power2(17) == 0x2_0000 by { Sizes(); }
  }

  lemma Slash4()
    ensures IsMultiple((Quad(224, 0, 0, 0), 4), 14) && IsMultiple((Quad(240, 0, 0, 0), 4), 15)
  {
    hide Power2;
    assert Power2(28) == 0x1000_0000 by { Sizes(); }
  }

  lemma TablesAreAligned(policy: Policy, i: nat)
    requires i < |V4Table(policy)|
    ensures IsMultiple(V4Table(policy)[i], UnitsOf(policy)[i])
  {
    hide IsMultiple;
    Slash8();
    Slash16();
    OddSlashes();
    Slash4();
  }

  /** The verdict on an IPv4 address is membership in one of the policy's ranges. */
  lemma VerdictIsRangeMembership(q: Quad, policy: Policy)
    requires IsQuad(q)
    ensures V4Blocked(q, policy) <==> IsListed(q, policy)
  {
    hide Power2, V4Table, QuadNumber, UnitsOf;
    var table := V4Table(policy);
    var list := V4List(policy);
    forall i | 0 <= i < |table|
      ensures RuleMatches(list[i], QuadNumber(q), 32) <==> InRange(QuadNumber(q), table[i].0, table[i].1)
    {
      var size := Power2(32 - table[i].1);
      TablesAreAligned(policy, i);
      SameQuotient(QuadNumber(q), list[i].base, UnitsOf(policy)[i], size);
    }
  }

  lemma ReservedIsBlocked(q: Quad, policy: Policy)
    requires IsQuad(q) && HighWord(q) == 0xffff
    ensures V4Blocked(q, policy)
  {
    hide Power2;
    Sizes();
    VerdictIsRangeMembership(q, policy);
    var last := |V4Table(policy)| - 1;
    assert InRange(QuadNumber(q), V4Table(policy)[last].0, V4Table(policy)[last].1);
  }

  // ---- IPv6 addresses ----

  function V6Table(policy: Policy): (table: seq<(int, nat)>)
    ensures forall i | 0 <= i < |table| :: table[i].1 <= 16
  {
    if policy == BlockPrivate then BLOCK_PRIVATE_V6 else ALLOW_PRIVATE_V6
  }

  /** The range of first hextets that share the first `prefix` bits with `first`. */
  predicate InV6Range(word: int, first: int, prefix: nat)
    requires prefix <= 16
  {
    first <= word < first + Power2(16 - prefix)
  }

  predicate AreHextets(h: seq<int>) {
    |h| == 8 && forall i | 0 <= i < 8 :: IsWord16(h[i])
  }

  /** The unspecified address, under `block-private` the loopback address, and whatever the first
      hextet puts into one of the policy's ranges. */
  predicate IsListedV6(h: seq<int>, policy: Policy)
    requires AreHextets(h)
  {
    || h == [0, 0, 0, 0, 0, 0, 0, 0]
    || (policy == BlockPrivate && h == [0, 0, 0, 0, 0, 0, 0, 1])
    || exists i | 0 <= i < |V6Table(policy)| :: InV6Range(h[0], V6Table(policy)[i].0, V6Table(policy)[i].1)
  }

  lemma {:induction false} PowersMultiply(a: nat, b: nat)
    ensures Power2(a + b) == Power2(a) * Power2(b)
  {
    if a > 0 {
      PowersMultiply(a - 1, b);
      Doubled(Power2(a - 1), Power2(b));
    }
  }

  lemma Doubled(x: int, y: int)
    ensures 2 * (x * y) == (2 * x) * y
  {}

  /** The first of several words is the quotient by the size of the rest. */
  lemma {:induction false} FirstWord(h: seq<int>) returns (rest: int)
    requires h != [] && forall i | 0 <= i < |h| :: IsWord16(h[i])
    ensures HextetsNumber(h) == h[0] * Power2(16 * (|h| - 1)) + rest && 0 <= rest < Power2(16 * (|h| - 1))
  {
    if |h| == 1 {
      rest := 0;
      assert HextetsNumber(h[..0]) == 0;
      assert Power2(0) == 1;
    } else {
      var front, last := h[..|h| - 1], h[|h| - 1];
      var r := FirstWord(front);
      var size := Power2(16 * (|h| - 2));
      PowersMultiply(16, 16 * (|h| - 2));
      assert Power2(16) == 65536 by { Sizes(); }
      hide Power2;
      assert Power2(16 * (|h| - 1)) == 65536 * size;
      rest := 65536 * r + last;
      Scaled(h[0], size, r);
    }
  }

  lemma Scaled(word: int, size: int, rest: int)
    ensures 65536 * (word * size + rest) == word * (65536 * size) + 65536 * rest
  {}

  lemma {:induction false} NumberIsExact(a: seq<int>, b: seq<int>)
    requires |a| == |b| && HextetsNumber(a) == HextetsNumber(b)
    requires forall i | 0 <= i < |a| :: IsWord16(a[i]) && IsWord16(b[i])
    ensures a == b
  {
    if a != [] {
      var n := |a| - 1;
      assert a[n] == b[n] && HextetsNumber(a[..n]) == HextetsNumber(b[..n]);
      NumberIsExact(a[..n], b[..n]);
      assert a == a[..n] + [a[n]] && b == b[..n] + [b[n]];
    }
  }

  lemma V6Units(policy: Policy, i: nat) returns (k: int)
    requires i < |V6Table(policy)|
    ensures V6Table(policy)[i].0 == k * Power2(16 - V6Table(policy)[i].1)
  {
    var range := V6Table(policy)[i];
    k := if range.0 == 0xfc00 then 126 else if range.0 == 0xfe80 then 1018 else 255;
    assert Power2(4) == 16 && Power2(6) == 64 && Power2(8) == 256 && Power2(9) == 512;
    hide Power2;
  }

  /** Sharing the first bits of the address is sharing those of its first hextet. */
  lemma RangeOfFirstWord(h: seq<int>, first: int, prefix: nat, k: int)
    requires AreHextets(h) && prefix <= 16 && first == k * Power2(16 - prefix) && IsWord16(first)
    ensures RuleMatches(Rule(V6Base(first), prefix), HextetsNumber(h), 128) <==> InV6Range(h[0], first, prefix)
  {
    hide Power2, HextetsNumber;
    var size, whole := Power2(16 - prefix), Power2(112);
    PowersMultiply(16 - prefix, 112);
    assert Power2(128 - prefix) == size * whole;
    var rest := FirstWord(h);
    BaseNumber(first);
    ThreeFactors(k, size, whole);
    SameQuotient(HextetsNumber(h), V6Base(first), k, size * whole);
    Between(h[0], first, size, whole, rest);
  }

  lemma ThreeFactors(k: int, size: int, whole: int)
    ensures (k * size) * whole == k * (size * whole)
  {}

  lemma {:induction false} ZerosBehind(h: seq<int>)
    requires h != [] && forall i | 1 <= i < |h| :: h[i] == 0
    ensures HextetsNumber(h) == h[0] * Power2(16 * (|h| - 1))
  {
    if |h| == 1 {
      assert HextetsNumber(h[..0]) == 0 && Power2(0) == 1;
    } else {
      var size := Power2(16 * (|h| - 2));
      ZerosBehind(h[..|h| - 1]);
      PowersMultiply(16, 16 * (|h| - 2));
      assert Power2(16) == 65536 by { Sizes(); }
      hide Power2;
      Scaled(h[0], size, 0);
    }
  }

  lemma BaseNumber(first: int)
    ensures V6Base(first) == first * Power2(112)
  {
    hide Power2, HextetsNumber;
    ZerosBehind([first, 0, 0, 0, 0, 0, 0, 0]);
  }

  lemma Between(word: int, first: int, size: int, whole: int, rest: int)
    requires 0 <= rest < whole
    ensures first * whole <= word * whole + rest < first * whole + size * whole <==> first <= word < first + size
  {
    if word < first {
      ProductsAreMonotone(word + 1, first, whole);
      assert (word + 1) * whole == word * whole + whole;
    } else {
      ProductsAreMonotone(first, word, whole);
    }
    if word < first + size {
      ProductsAreMonotone(word + 1, first + size, whole);
      assert (word + 1) * whole == word * whole + whole;
    } else {
      ProductsAreMonotone(first + size, word, whole);
    }
    assert (first + size) * whole == first * whole + size * whole;
  }

  /** The verdict on an IPv6 address is membership in one of the policy's ranges. */
  lemma V6VerdictIsRangeMembership(h: seq<int>, policy: Policy)
    requires AreHextets(h)
    ensures Check(V6List(policy), HextetsNumber(h), 128) <==> IsListedV6(h, policy)
  {
    var table, list, n := V6Table(policy), V6List(policy), HextetsNumber(h);
    forall i | 0 <= i < |table|
      ensures list[i + 1] == Rule(V6Base(table[i].0), table[i].1)
      ensures RuleMatches(list[i + 1], n, 128) <==> InV6Range(h[0], table[i].0, table[i].1)
    {
      var k := V6Units(policy, i);
      RangeOfFirstWord(h, table[i].0, table[i].1, k);
    }
    SingleAddresses(h);
    assert list[0] == UNSPECIFIED && |list| == |table| + if policy == BlockPrivate then 2 else 1;
    assert policy == BlockPrivate ==> list[|table| + 1] == LOOPBACK;
    hide Power2, HextetsNumber, RuleMatches, InV6Range, V6List, V6Table;
    MatchesOneOf(list, table, h, n, policy);
  }

  lemma SingleAddresses(h: seq<int>)
    requires AreHextets(h)
    ensures RuleMatches(UNSPECIFIED, HextetsNumber(h), 128) <==> h == [0, 0, 0, 0, 0, 0, 0, 0]
    ensures RuleMatches(LOOPBACK, HextetsNumber(h), 128) <==> h == [0, 0, 0, 0, 0, 0, 0, 1]
  {
    var zero, one := [0, 0, 0, 0, 0, 0, 0, 0], [0, 0, 0, 0, 0, 0, 0, 1];
    SmallNumbers(zero, one);
    assert Power2(0) == 1;
    hide HextetsNumber, Power2;
    if HextetsNumber(h) == 0 { NumberIsExact(h, zero); }
    if HextetsNumber(h) == 1 { NumberIsExact(h, one); }
  }

  lemma SmallNumbers(zero: seq<int>, one: seq<int>)
    requires zero == [0, 0, 0, 0, 0, 0, 0, 0] && one == [0, 0, 0, 0, 0, 0, 0, 1]
    ensures HextetsNumber(zero) == 0 && HextetsNumber(one) == 1
  {
    ZerosBehind(zero);
    ZerosBehind(zero[..7]);
    assert one[..7] == zero[..7];
    hide Power2;
  }

  lemma MatchesOneOf(list: seq<Rule>, table: seq<(int, nat)>, h: seq<int>, n: int, policy: Policy)
    requires AreRules(list, 128) && AreHextets(h) && table == V6Table(policy)
    requires |list| == |table| + (if policy == BlockPrivate then 2 else 1) && list[0] == UNSPECIFIED
    requires policy == BlockPrivate ==> list[|table| + 1] == LOOPBACK
    requires RuleMatches(UNSPECIFIED, n, 128) <==> h == [0, 0, 0, 0, 0, 0, 0, 0]
    requires RuleMatches(LOOPBACK, n, 128) <==> h == [0, 0, 0, 0, 0, 0, 0, 1]
    requires forall i | 0 <= i < |table| ::
               RuleMatches(list[i + 1], n, 128) <==> InV6Range(h[0], table[i].0, table[i].1)
    ensures Check(list, n, 128) <==> IsListedV6(h, policy)
  {
    hide RuleMatches, InV6Range, V6Table;
    if Check(list, n, 128) {
      var j :| 0 <= j < |list| && RuleMatches(list[j], n, 128);
      if 1 <= j <= |table| { assert InV6Range(h[0], table[j - 1].0, table[j - 1].1); }
    }
    if IsListedV6(h, policy) && h != [0, 0, 0, 0, 0, 0, 0, 0] && h != [0, 0, 0, 0, 0, 0, 0, 1] {
      var i :| 0 <= i < |table| && InV6Range(h[0], table[i].0, table[i].1);
      assert RuleMatches(list[i + 1], n, 128);
    }
  }

  // ---- Every spelling ----

  /** The eight hextets carry an IPv4 address: NAT64, or IPv4-compatible with a value above 1. */
  predicate CarriesV4(h: seq<int>)
    requires AreHextets(h)
  {
    || h[..6] == [0x64, 0xff9b, 0, 0, 0, 0]
    || (h[..6] == [0, 0, 0, 0, 0, 0] && (h[6] != 0 || h[7] > 1))
  }

  /** Membership in the policy's ranges, of the IPv4 address if one is carried. */
  predicate IsListedAddress(h: seq<int>, policy: Policy)
    requires AreHextets(h)
  {
    if CarriesV4(h) then IsListed(BytesOf(h[6], h[7]), policy) else IsListedV6(h, policy)
  }

  /** Every spelling of every IPv6 address, except those that begin `::ffff:`, is blocked exactly
      when its eight hextets are listed. */
  lemma VerdictOfSpelling(sp: Spelling, policy: Policy)
    requires IsSpelling(sp) && !(MAPPED <= Lowered(Print(sp)))
    ensures AreHextets(Hextets(sp))
    ensures IsBlockedIp(Print(sp), policy) <==> IsListedAddress(Hextets(sp), policy)
  {
    hide NormalizeIpLiteral, Print, QuadText, Hextets, V4Blocked, IsListed, IsListedV6, Check, V6List, V4List, Bare;
    JudgedByHextets(sp);
    HextetsAreWords(sp);
    var h := Hextets(sp);
    if CarriesV4(h) {
      var q := BytesOf(h[6], h[7]);
      VerdictOfQuad(Print(sp), q, policy);
      VerdictIsRangeMembership(q, policy);
    } else {
      ExpansionInvertsPrinting(sp);
      V6VerdictIsRangeMembership(h, policy);
    }
  }

  /** So spellings of one address get one verdict. */
  lemma SpellingsAgree(a: Spelling, b: Spelling, policy: Policy)
    requires IsSpelling(a) && IsSpelling(b) && Hextets(a) == Hextets(b)
    requires !(MAPPED <= Lowered(Print(a))) && !(MAPPED <= Lowered(Print(b)))
    ensures IsBlockedIp(Print(a), policy) <==> IsBlockedIp(Print(b), policy)
  {
    hide IsBlockedIp, Print, Hextets, IsListedAddress;
    VerdictOfSpelling(a, policy);
    VerdictOfSpelling(b, policy);
  }

  // ---- The policies ----

  lemma MoreRules(small: seq<Rule>, large: seq<Rule>, address: int, bits: nat)
    requires AreRules(small, bits) && AreRules(large, bits)
    requires forall i | 0 <= i < |small| :: small[i] in large
    ensures Check(small, address, bits) ==> Check(large, address, bits)
  {}

  lemma AllowedTablesAreSmaller()
    ensures forall i | 0 <= i < |V4List(AllowPrivate)| :: V4List(AllowPrivate)[i] in V4List(BlockPrivate)
    ensures forall i | 0 <= i < |V6List(AllowPrivate)| :: V6List(AllowPrivate)[i] in V6List(BlockPrivate)
  {
    hide QuadNumber, V6Base;
    var small, large := V4List(AllowPrivate), V4List(BlockPrivate);
    assert small[0] == large[0] && small[1] == large[4] && small[2] == large[8] && small[3] == large[9];
    var small6, large6 := V6List(AllowPrivate), V6List(BlockPrivate);
    assert small6[0] == large6[0] && small6[1] == large6[2] && small6[2] == large6[3];
  }

  /** Over all strings: what `allow-private` blocks, `block-private` blocks. */
  lemma BlockPrivateIsStricter(ip: string)
    requires IsBlockedIp(ip, AllowPrivate)
    ensures IsBlockedIp(ip, BlockPrivate)
  {
    hide NormalizeIpLiteral, V4List, V6List, Check;
    AllowedTablesAreSmaller();
    match NormalizeIpLiteral(ip)
    case Ipv4(value) => MoreRules(V4List(AllowPrivate), V4List(BlockPrivate), V4Number(value), 32);
    case Ipv6(value) =>
      MoreRules(V6List(AllowPrivate), V6List(BlockPrivate), HextetsNumber(ExpandIpv6ToHextets(value)), 128);
    case _ =>
  }

  /** Whatever the text: blanks around it and a zone behind `%` change nothing.  What is no address is
      blocked if it holds a colon, for then it looks like one, and so is a zone without an address;
      anything else is a host name and passes. */
  lemma FailsClosed(before: string, bare: string, behind: string, zone: string, policy: Policy)
    requires AllBlank(before) && AllBlank(behind) && '%' !in bare
    requires bare != "" ==> !IsBlank(bare[0]) && !IsBlank(bare[|bare| - 1])
    requires zone == "" || zone[0] == '%'
    ensures var blocked := IsBlockedIp(before + bare + behind + zone, policy);
            && (bare != "" ==> (blocked <==> IsBlockedIp(bare, policy)))
            && (bare != "" && !IsIpv4(bare) && !IsIpv6(bare) ==> (blocked <==> ':' in bare))
            && (bare == "" ==> (blocked <==> zone != ""))
  {
    assert AllBlank("");
    hide *;
    ZoneIsDropped(before, bare, behind, zone);
    ZoneIsDropped("", bare, "", "");
    assert "" + bare + "" + "" == bare;
    VerdictOfBare(before + bare + behind + zone, policy);
  }

  lemma VerdictOfBare(host: string, policy: Policy)
    ensures var bare, blocked := Bare(host), IsBlockedIp(host, policy);
            && (bare != "" && Bare(bare) == bare ==> (blocked <==> IsBlockedIp(bare, policy)))
            && (bare != "" && !IsIpv4(bare) && !IsIpv6(bare) ==> (blocked <==> ':' in bare))
            && (bare == "" ==> (blocked <==> '%' in host))
  {
    hide Bare, IsIpv4, IsIpv6, NormalizeIpLiteral, V4List, V6List, Check, V4Number, HextetsNumber;
    OnlyBareCounts(host);
  }

  lemma OnlyBareCounts(host: string)
    ensures var bare, n := Bare(host), NormalizeIpLiteral(host);
            && (bare != "" && Bare(bare) == bare ==> n == NormalizeIpLiteral(bare))
            && (bare != "" && !IsIpv4(bare) && !IsIpv6(bare) ==> n == if ':' in bare then Invalid else NotIp)
            && (bare == "" ==> n == if '%' in host then Invalid else NotIp)
  {
    hide Bare, IsIpv4, IsIpv6, NormalizeMapped, NormalizeHextets;
  }

  lemma ZoneIsDropped(before: string, bare: string, behind: string, zone: string)
    requires AllBlank(before) && AllBlank(behind) && '%' !in bare
    requires bare != "" ==> !IsBlank(bare[0]) && !IsBlank(bare[|bare| - 1])
    requires zone == "" || zone[0] == '%'
    ensures Bare(before + bare + behind + zone) == bare
    ensures '%' in before + bare + behind + zone <==> zone != ""
  {
    var front := before + bare + behind;
    var host := front + zone;
    assert '%' !in before && '%' !in behind;
    assert '%' !in front by { hide AllBlank, IsBlank; }
    assert forall i | 0 <= i < |front| :: host[i] == front[i];
    assert zone != "" ==> host[|front|] == '%';
    IndexIs(host, '%', |front|);
    assert host[..|front|] == front;
    BlanksAreTrimmed(before, bare, behind);
    hide Trim, AllBlank, IsBlank, IndexOf;
  }

  /** An address that begins `::ffff:` but goes on neither with an IPv4 address nor with two groups is
      blocked, whatever it denotes. */
  lemma MappedOrBlocked(ip: string, policy: Policy)
    requires IsIpv6(ip) && MAPPED <= Lowered(ip)
    requires var tail := Lowered(ip)[|MAPPED|..];
             if '.' in tail then !IsIpv4(tail) else |Split(tail, ":")| != 2
    ensures IsBlockedIp(ip, policy)
  {
    hide Print, IsSpelling, Lowered, Split, V4List, V6List, Check, Bare, IsIpv4;
    var sp :| IsSpelling(sp) && Print(sp) == ip;
    PrintedIsIpv6(sp);
  }

  /** All forms of one IPv4 address share one verdict, membership in the policy's ranges. */
  lemma AllFormsAgree(q: Quad, policy: Policy, mapped: Spelling, nat64: Spelling, compatible: Spelling)
    requires IsQuad(q) && IsMappedSpelling(mapped, q)
    requires IsSpelling(nat64) && Hextets(nat64) == [0x64, 0xff9b, 0, 0, 0, 0, HighWord(q), LowWord(q)]
    requires IsSpelling(compatible) && Hextets(compatible) == [0, 0, 0, 0, 0, 0, HighWord(q), LowWord(q)]
    ensures IsBlockedIp(QuadText(q), policy) <==> IsListed(q, policy)
    ensures IsBlockedIp(Print(mapped), policy) <==> IsListed(q, policy)
    ensures IsBlockedIp(Print(nat64), policy) <==> IsListed(q, policy)
    ensures 1 < QuadNumber(q) ==> (IsBlockedIp(Print(compatible), policy) <==> IsListed(q, policy))
  {
    hide IsBlockedIp, V4Blocked, QuadText, Print, Hextets, IsListed;
    VerdictIsRangeMembership(q, policy);
    DottedForm(q, policy);
    MappedForms(mapped, q, policy);
    Nat64Forms(nat64, q, policy);
    if 1 < QuadNumber(q) { CompatibleForms(compatible, q, policy); }
  }
}
