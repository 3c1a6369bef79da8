/** The hosts of a database connection string (packages/connectors/src/db-egress-guard.ts). */
module DbHosts {
  import opened TextTools
  import opened Wrappers

  // ---- extractDbHosts ----

  /** Where `text` first begins in `s`, or the length of `s`. */
  function IndexOfText(s: string, text: string): (n: nat)
    ensures n <= |s|
    ensures forall i | 0 <= i < n :: !(text <= s[i..])
    ensures n < |s| ==> text <= s[n..]
  {
    if s == "" || text <= s then 0 else
      var n := 1 + IndexOfText(s[1..], text);
      assert forall i | 0 < i < n :: s[i..] == s[1..][i - 1..];
      assert s[0..] == s;
      n
  }

  /** `authority.search` for a slash or a question mark. */
  function PathStart(s: string): (n: nat)
    ensures n <= |s| && forall i | 0 <= i < n :: s[i] != '/' && s[i] != '?'
    ensures n < |s| ==> s[n] == '/' || s[n] == '?'
  {
    if s == "" || s[0] == '/' || s[0] == '?' then 0 else 1 + PathStart(s[1..])
  }

  function HostOf(segment: string): string {
    var s := Trim(segment);
    if s != "" && s[0] == '[' then
      var close := IndexOf(s, ']');
      if close == |s| then s[1..] else s[1..close]
    else
      var colon := LastIndexOf(s, ':');
      if colon == -1 then s else s[..colon]
  }

  function HostsOf(segments: seq<string>): (hosts: seq<string>)
    ensures "" !in hosts
  {
    if segments == [] then []
    else (if HostOf(segments[0]) != "" then [HostOf(segments[0])] else []) + HostsOf(segments[1..])
  }

  /** A string without `://` names no host, and no host is empty. */
  function ExtractDbHosts(connectionString: string): (hosts: seq<string>)
    ensures (forall i | 0 <= i <= |connectionString| :: !("://" <= connectionString[i..])) ==> hosts == []
    ensures "" !in hosts
  {
    var schemeAt := IndexOfText(connectionString, "://");
    if schemeAt == |connectionString| then []
    else
      var behind := connectionString[schemeAt + 3..];
      var authority := behind[..PathStart(behind)];
      var bare := authority[LastIndexOf(authority, '@') + 1..];
      HostsOf(Split(bare, ","))
  }

  // ---- Connection strings, printed ----

  /** A host by name or IPv4 address, or an IPv6 address to be written in brackets. */
  datatype Host = Named(name: string) | Bracketed(address: string)

  /** With the blanks around it. */
  datatype Endpoint = Endpoint(before: string, host: Host, port: Option<string>, behind: string)

  predicate Excludes(s: string, chars: set<char>) {
    forall i | 0 <= i < |s| :: s[i] !in chars
  }

  const DELIMITERS := {'/', '?', '@', ',', ':', '[', ']'}

  predicate NoBlanks(s: string) {
    forall i | 0 <= i < |s| :: !IsBlank(s[i])
  }

  predicate IsEndpoint(e: Endpoint) {
    && AllBlank(e.before) && AllBlank(e.behind)
    && (match e.host
        case Named(name) => Excludes(name, DELIMITERS) && NoBlanks(name)
        case Bracketed(address) => Excludes(address, DELIMITERS - {':'}) && NoBlanks(address))
    && (e.port.Some? ==> Excludes(e.port.value, DELIMITERS) && NoBlanks(e.port.value))
  }

  /** `postgres`, `user:p@ss`, the endpoints, and `/db?sslmode=require`, say. */
  datatype Connection = Connection(scheme: string, userinfo: Option<string>, endpoints: seq<Endpoint>, rest: string)

  predicate IsConnection(c: Connection) {
    && ':' !in c.scheme
    && (c.userinfo.Some? ==> Excludes(c.userinfo.value, {'/', '?'}))
    && c.endpoints != [] && (forall i | 0 <= i < |c.endpoints| :: IsEndpoint(c.endpoints[i]))
    && (c.rest == "" || c.rest[0] == '/' || c.rest[0] == '?')
  }

  function HostText(host: Host): string {
    match host
    case Named(name) => name
    case Bracketed(address) => "[" + address + "]"
  }

  function BareText(e: Endpoint): string {
    HostText(e.host) + if e.port.Some? then ":" + e.port.value else ""
  }

  function EndpointText(e: Endpoint): string {
    e.before + BareText(e) + e.behind
  }

  function EndpointTexts(endpoints: seq<Endpoint>): (texts: seq<string>)
    ensures |texts| == |endpoints|
    ensures forall i | 0 <= i < |endpoints| :: texts[i] == EndpointText(endpoints[i])
  {
    seq(|endpoints|, i requires 0 <= i < |endpoints| => EndpointText(endpoints[i]))
  }

  function Authority(c: Connection): string {
    (if c.userinfo.Some? then c.userinfo.value + "@" else "") + Join(EndpointTexts(c.endpoints), ",")
  }

  function Print(c: Connection): string {
    c.scheme + "://" + (Authority(c) + c.rest)
  }

  function HostName(e: Endpoint): string {
    match e.host
    case Named(name) => name
    case Bracketed(address) => address
  }

  /** The hosts that are not empty. */
  function HostNames(endpoints: seq<Endpoint>): seq<string> {
    if endpoints == [] then []
    else if HostName(endpoints[0]) == "" then HostNames(endpoints[1..])
    else [HostName(endpoints[0])] + HostNames(endpoints[1..])
  }

  // ---- Extraction inverts printing ----

  /** Free of the characters that end a host list or a host in it. */
  predicate IsClean(s: string) {
    Excludes(s, {'/', '?', '@', ','}) && NoBlanks(s)
  }

  lemma CleanConcat(a: string, b: string)
    requires IsClean(a) && IsClean(b)
    ensures IsClean(a + b)
  {}

  lemma CleanSigns()
    ensures IsClean("[") && IsClean("]") && IsClean(":") && IsClean("")
  {}

  lemma BareTextIsClean(e: Endpoint)
    requires IsEndpoint(e)
    ensures IsClean(BareText(e))
  {
    PartsAreClean(e);
    hide IsClean;
    CleanSigns();
    if e.host.Bracketed? {
      CleanConcat("[", e.host.address);
      CleanConcat("[" + e.host.address, "]");
    }
    if e.port.Some? { CleanConcat(":", e.port.value); }
    CleanConcat(HostText(e.host), if e.port.Some? then ":" + e.port.value else "");
  }

  lemma PartsAreClean(e: Endpoint)
    requires IsEndpoint(e)
    ensures IsClean(HostName(e)) && (e.port.Some? ==> IsClean(e.port.value))
  {}

  lemma EndpointIsPlain(e: Endpoint)
    requires IsEndpoint(e)
    ensures Excludes(EndpointText(e), {'/', '?', '@', ','})
  {
    BareTextIsClean(e);
    hide BareText;
  }

  lemma CleanIsTrimmed(s: string)
    requires IsClean(s)
    ensures Trim(s) == s
  {
    TrimKeeps(s);
  }

  lemma HostWithoutBlanks(before: string, s: string, behind: string)
    requires AllBlank(before) && AllBlank(behind) && IsClean(s)
    ensures HostOf(before + s + behind) == HostOf(s)
  {
    CleanIsTrimmed(s);
    hide AllBlank, IsBlank, Trim, IndexOf, LastIndexOf;
    BlanksAreTrimmed(before, s, behind);
  }

  lemma BracketedHost(address: string, port: string)
    requires IsClean("[" + address + "]" + port) && Excludes(address, {'[', ']'})
    ensures HostOf("[" + address + "]" + port) == address
  {
    hide Trim, IsClean;
    var s := "[" + address + "]" + port;
    CleanIsTrimmed(s);
    assert s[|address| + 1] == ']';
    assert forall i | 1 <= i < |address| + 1 :: s[i] == address[i - 1];
    IndexIs(s, ']', |address| + 1);
    assert s[1..|address| + 1] == address;
  }

  lemma NamedHost(name: string, port: Option<string>)
    requires Excludes(name, DELIMITERS) && (port.Some? ==> Excludes(port.value, DELIMITERS))
    requires IsClean(name + if port.Some? then ":" + port.value else "")
    ensures HostOf(name + if port.Some? then ":" + port.value else "") == name
  {
    hide Trim, IsClean;
    var s := name + if port.Some? then ":" + port.value else "";
    CleanIsTrimmed(s);
    assert s != "" ==> s[0] != '[';
    assert forall i | 0 <= i < |name| :: s[i] == name[i];
    if port.Some? {
      assert forall i | |name| < i < |s| :: s[i] == port.value[i - |name| - 1];
      LastIndexIs(s, ':', |name|);
      assert s[..|name|] == name;
    } else {
      assert s == name;
      LastIndexIs(s, ':', -1);
    }
  }

  lemma HostOfEndpoint(e: Endpoint)
    requires IsEndpoint(e)
    ensures HostOf(EndpointText(e)) == HostName(e)
  {
    BareTextIsClean(e);
    HostWithoutBlanks(e.before, BareText(e), e.behind);
    hide HostOf, IsClean;
    match e.host
    case Bracketed(address) => BracketedHost(address, if e.port.Some? then ":" + e.port.value else "");
    case Named(name) => NamedHost(name, e.port);
  }

  lemma {:induction false} HostsOfEndpoints(endpoints: seq<Endpoint>)
    requires forall i | 0 <= i < |endpoints| :: IsEndpoint(endpoints[i])
    ensures HostsOf(EndpointTexts(endpoints)) == HostNames(endpoints)
  {
    hide HostOf, EndpointText, HostName, IsEndpoint;
    if endpoints != [] {
      HostOfEndpoint(endpoints[0]);
      HostsOfEndpoints(endpoints[1..]);
      assert EndpointTexts(endpoints)[1..] == EndpointTexts(endpoints[1..]);
    }
  }

  lemma {:induction false} JoinExcludes(parts: seq<string>, glue: string, chars: set<char>)
    requires Excludes(glue, chars) && forall i | 0 <= i < |parts| :: Excludes(parts[i], chars)
    ensures Excludes(Join(parts, glue), chars)
  {
    if |parts| > 1 {
      assert Excludes(parts[0], chars);
      JoinExcludes(parts[1..], glue, chars);
    }
  }

  lemma HostListIsPlain(endpoints: seq<Endpoint>)
    requires forall i | 0 <= i < |endpoints| :: IsEndpoint(endpoints[i])
    ensures Excludes(Join(EndpointTexts(endpoints), ","), {'/', '?', '@'})
    ensures forall i | 0 <= i < |endpoints| :: ',' !in EndpointTexts(endpoints)[i]
  {
    hide EndpointText, IsEndpoint, Join;
    forall i | 0 <= i < |endpoints|
      ensures Excludes(EndpointTexts(endpoints)[i], {'/', '?', '@'}) && ',' !in EndpointTexts(endpoints)[i]
    {
      EndpointIsPlain(endpoints[i]);
    }
    JoinExcludes(EndpointTexts(endpoints), ",", {'/', '?', '@'});
  }

  lemma SchemeIsFound(scheme: string, behind: string)
    requires ':' !in scheme
    ensures IndexOfText(scheme + "://" + behind, "://") == |scheme|
  {
    var s := scheme + "://" + behind;
    var n := IndexOfText(s, "://");
    assert s[|scheme|..] == "://" + behind;
    forall i | 0 <= i < |scheme|
      ensures !("://" <= s[i..])
    {
      assert s[i..][0] == scheme[i];
    }
  }

  lemma PathStartIs(s: string, n: nat)
    requires n <= |s| && forall i | 0 <= i < n :: s[i] != '/' && s[i] != '?'
    requires n < |s| ==> s[n] == '/' || s[n] == '?'
    ensures PathStart(s) == n
  {
    hide PathStart;
  }

  lemma UserinfoIsDropped(userinfo: Option<string>, hosts: string)
    requires '@' !in hosts
    ensures var authority := (if userinfo.Some? then userinfo.value + "@" else "") + hosts;
            authority[LastIndexOf(authority, '@') + 1..] == hosts
  {
    var front := if userinfo.Some? then userinfo.value + "@" else "";
    var authority := front + hosts;
    assert forall k | |front| <= k < |authority| :: authority[k] == hosts[k - |front|];
    LastIndexIs(authority, '@', |front| - 1);
  }

  /** For every scheme, userinfo, non-empty list of endpoints, blanks around them, and path or query,
      extraction returns exactly the hosts that are not empty, in order. */
  lemma ExtractionInvertsPrinting(c: Connection)
    requires IsConnection(c)
    ensures ExtractDbHosts(Print(c)) == HostNames(c.endpoints)
  {
    hide Join, Split, HostsOf, IsEndpoint, EndpointTexts, PathStart, LastIndexOf, IndexOfText;
    var texts := EndpointTexts(c.endpoints);
    var hosts := Join(texts, ",");
    var authority := Authority(c);
    HostListIsPlain(c.endpoints);
    var behind := authority + c.rest;
    SchemeIsFound(c.scheme, behind);
    assert Print(c)[|c.scheme| + 3..] == behind;
    assert Excludes(authority, {'/', '?'});
    PathStartIs(behind, |authority|);
    assert behind[..|authority|] == authority;
    UserinfoIsDropped(c.userinfo, hosts);
    SplitInvertsJoin(texts, ',');
    HostsOfEndpoints(c.endpoints);
  }
}
