/** Stargazers of a repository as events: each run compares the current listing with the snapshot
    in the checkpoint and refreshes a bounded number of profiles
    (packages/connectors/src/github.ts). */
module StargazerSync {
  import opened TextTools
  import opened Wrappers

  const PROFILE_REFRESH_MS: int := 30 * 24 * 60 * 60 * 1000
  const PROFILE_FETCH_LIMIT: nat := 25
  const PAGE_SIZE: nat := 100

  /** A listed user; an empty login stands for a missing one.  Times are in milliseconds. */
  datatype Account = Account(id: Option<int>, login: string, starredAt: Option<int>)

  /** One stargazer of the checkpoint. */
  datatype Entry = Entry(key: string, login: string, starredAt: int, userId: Option<int>, profileFetchedAt: Option<int>)

  datatype Event = Starred(key: string, login: string) | Unstarred(key: string, login: string) | Profile(login: string)

  function IntText(n: int): string
    decreases n < 0, if n < 0 then -n else n
  {
    if n < 0 then "-" + IntText(-n)
    else if n < 10 then ['0' + n as char]
    else IntText(n / 10) + ['0' + (n % 10) as char]
  }

  function GithubUserKey(id: Option<int>, login: string): string {
    if id.Some? && id.value != 0 then "github_user_id:" + IntText(id.value) else "github_login:" + Lowered(login)
  }

  function KeyOf(account: Account): string { GithubUserKey(account.id, account.login) }

  // ---- The checkpoint ----

  /** `parseStargazerCheckpoint` on stored entries: those with a blank login are dropped, and a
      blank key is derived again. */
  function ParseCheckpoint(stored: seq<Entry>): seq<Entry> {
    if stored == [] then []
    else
      var entry := stored[0];
      var key := if AllBlank(entry.key) then GithubUserKey(entry.userId, entry.login) else entry.key;
      (if AllBlank(entry.login) then [] else [entry.(key := key)]) + ParseCheckpoint(stored[1..])
  }

  /** `new Map(...)`: of several entries with one key the last counts. */
  function ByKey(entries: seq<Entry>): map<string, Entry> {
    if entries == [] then map[]
    else ByKey(entries[..|entries| - 1])[entries[|entries| - 1].key := entries[|entries| - 1]]
  }

  function Keys(entries: seq<Entry>): set<string> {
    set entry | entry in entries :: entry.key
  }

  function ListedKeys(accounts: seq<Account>): set<string> {
    set account | account in accounts && account.login != "" :: KeyOf(account)
  }

  // ---- One run ----

  predicate ShouldRefresh(previous: Option<Entry>, now: int) {
    previous.Some? && previous.value.profileFetchedAt.Some? ==>
      now - previous.value.profileFetchedAt.value >= PROFILE_REFRESH_MS
  }

  datatype Progress = Progress(entries: seq<Entry>, events: seq<Event>, budget: nat)

  function Lookup(previous: map<string, Entry>, key: string): Option<Entry> {
    if key in previous then Some(previous[key]) else None
  }

  /** What one listed user adds to a run. */
  function Visit(p: Progress, account: Account, previous: map<string, Entry>, now: int): Progress {
    if account.login == "" then p
    else
      var key := KeyOf(account);
      var known := Lookup(previous, key);
      var fetch := ShouldRefresh(known, now) && p.budget > 0;
      var fetchedAt := if fetch then Some(now) else if known.Some? then known.value.profileFetchedAt else None;
      var userId := if account.id.Some? then account.id else if known.Some? then known.value.userId else None;
      Progress(
        p.entries
        + [Entry(key, account.login, if account.starredAt.Some? then account.starredAt.value else now,
                 userId, fetchedAt)],
        p.events + (if fetch then [Profile(account.login)] else [])
                 + (if known.None? then [Starred(key, account.login)] else []),
        if fetch then p.budget - 1 else p.budget)
  }

  function VisitAll(accounts: seq<Account>, previous: map<string, Entry>, now: int): Progress {
    if accounts == [] then Progress([], [], PROFILE_FETCH_LIMIT)
    else Visit(VisitAll(accounts[..|accounts| - 1], previous, now), accounts[|accounts| - 1], previous, now)
  }

  function Departures(previous: seq<Entry>, current: set<string>): seq<Event> {
    if previous == [] then []
    else
      var last := previous[|previous| - 1];
      Departures(previous[..|previous| - 1], current)
      + if last.key in current then [] else [Unstarred(last.key, last.login)]
  }

  /** The pages a walk reads: up to the first that is empty or not full. */
  function Walk(pages: seq<seq<Account>>): seq<Account> {
    if pages == [] || pages[0] == [] then []
    else if |pages[0]| < PAGE_SIZE then pages[0]
    else pages[0] + Walk(pages[1..])
  }

  function RunEntries(stored: seq<Entry>, accounts: seq<Account>, now: int): seq<Entry> {
    VisitAll(accounts, ByKey(ParseCheckpoint(stored)), now).entries
  }

  function RunEvents(stored: seq<Entry>, accounts: seq<Account>, now: int): seq<Event> {
    VisitAll(accounts, ByKey(ParseCheckpoint(stored)), now).events
    + Departures(ParseCheckpoint(stored), Keys(RunEntries(stored, accounts, now)))
  }

  method SyncStargazers(stored: seq<Entry>, pages: seq<seq<Account>>, now: int)
    returns (events: seq<Event>, currentStargazers: seq<Entry>)
    ensures currentStargazers == RunEntries(stored, Walk(pages), now)
    ensures events == RunEvents(stored, Walk(pages), now)
    // Whatever follows the last page of a listing, the run replays to the whole listing.
    ensures forall listing, more | pages == Paged(listing) + more ::
              && Keys(currentStargazers) == ListedKeys(listing)
              && Replay(Keys(ParseCheckpoint(stored)), events) == ListedKeys(listing)
  {
    hide Visit, VisitAll, ByKey, ParseCheckpoint, Departures;
    var previous := ParseCheckpoint(stored);
    var previousByKey := ByKey(previous);
    var p := Progress([], [], PROFILE_FETCH_LIMIT);
    NothingVisited(previousByKey, now);
    ghost var walked: seq<Account> := [];
    assert pages[0..] == pages;
    var page := 0;
    while page < |pages| && pages[page] != []
      invariant 0 <= page <= |pages|
      invariant walked + Walk(pages[page..]) == Walk(pages)
      invariant p == VisitAll(walked, previousByKey, now)
    {
      p := VisitPage(p, walked, pages[page], previousByKey, now);
      WalkOn(pages[page..], walked);
      assert pages[page..][1..] == pages[page + 1..];
      walked := walked + pages[page];
      page := page + 1;
      if |pages[page - 1]| < PAGE_SIZE { break; }
    }
    assert walked == Walk(pages);
    currentStargazers := p.entries;
    events := RecordDepartures(previous, currentStargazers, p.events);
    hide Walk, RunEntries, RunEvents, Keys, ListedKeys, Replay, Paged;
    forall listing, more | pages == Paged(listing) + more
      ensures Keys(RunEntries(stored, Walk(pages), now)) == ListedKeys(listing)
      ensures Replay(Keys(ParseCheckpoint(stored)), RunEvents(stored, Walk(pages), now)) == ListedKeys(listing)
    {
      WalkVisitsAll(listing, more);
      RunReplays(stored, listing, now);
    }
  }

  /** A listing as the service pages it: pages of 100, and a last one that is shorter. */
  function Paged(listing: seq<Account>): seq<seq<Account>> {
    if |listing| < 100 then [listing] else [listing[..100]] + Paged(listing[100..])
  }

  /** Walking a listing page by page visits all of it once, and nothing behind it. */
  lemma {:induction false} WalkVisitsAll(listing: seq<Account>, more: seq<seq<Account>>)
    ensures Walk(Paged(listing) + more) == listing
    decreases |listing|
  {
    var pages := Paged(listing) + more;
    if |listing| < 100 {
      assert pages[0] == listing;
    } else {
      WalkVisitsAll(listing[100..], more);
      assert pages[0] == listing[..100] && pages[1..] == Paged(listing[100..]) + more;
      assert listing == listing[..100] + listing[100..];
    }
  }

  /** A stored entry is parsed unless its login is blank, with all it holds; one whose key is blank
      gets the key of a user listed with the same id and login. */
  lemma ParsedEntriesMean(stored: seq<Entry>, i: nat)
    requires i < |stored|
    ensures !AllBlank(stored[i].login) ==>
              exists entry | entry in ParseCheckpoint(stored) :: IsParsedFrom(stored[i], entry)
    ensures forall entry | entry in ParseCheckpoint(stored) ::
              exists k | 0 <= k < |stored| :: !AllBlank(stored[k].login) && IsParsedFrom(stored[k], entry)
  {
    hide KeyOf, GithubUserKey, AllBlank;
    ParsedFromStored(stored);
    if !AllBlank(stored[i].login) { ParsedAt(stored, i); }
  }

  /** `entry` is what the parse makes of `raw`. */
  predicate IsParsedFrom(raw: Entry, entry: Entry) {
    && entry.login == raw.login && entry.starredAt == raw.starredAt
    && entry.userId == raw.userId && entry.profileFetchedAt == raw.profileFetchedAt
    && (!AllBlank(raw.key) ==> entry.key == raw.key)
    && (AllBlank(raw.key) ==> entry.key == KeyOf(Account(raw.userId, raw.login, None)))
  }

  lemma {:induction false} ParsedFromStored(stored: seq<Entry>)
    ensures forall entry | entry in ParseCheckpoint(stored) ::
              exists k | 0 <= k < |stored| :: !AllBlank(stored[k].login) && IsParsedFrom(stored[k], entry)
  {
    hide GithubUserKey, AllBlank;
    if stored != [] {
      ParsedFromStored(stored[1..]);
      forall entry | entry in ParseCheckpoint(stored)
        ensures exists k | 0 <= k < |stored| :: !AllBlank(stored[k].login) && IsParsedFrom(stored[k], entry)
      {
        if entry in ParseCheckpoint(stored[1..]) {
          var k :| 0 <= k < |stored| - 1 && !AllBlank(stored[1..][k].login) && IsParsedFrom(stored[1..][k], entry);
          assert IsParsedFrom(stored[k + 1], entry);
        } else {
          assert IsParsedFrom(stored[0], entry);
        }
      }
    }
  }

  lemma {:induction false} ParsedAt(stored: seq<Entry>, i: nat)
    requires i < |stored| && !AllBlank(stored[i].login)
    ensures exists entry | entry in ParseCheckpoint(stored) :: IsParsedFrom(stored[i], entry)
  {
    hide GithubUserKey, AllBlank;
    if i > 0 {
      ParsedAt(stored[1..], i - 1);
      var entry :| entry in ParseCheckpoint(stored[1..]) && IsParsedFrom(stored[1..][i - 1], entry);
      assert entry in ParseCheckpoint(stored);
    } else {
      var entry := ParseCheckpoint(stored)[0];
      assert entry in ParseCheckpoint(stored) && IsParsedFrom(stored[0], entry);
    }
  }

  // ---- Keys name users ----

  /** The integer that a decimal text denotes. */
  function ReadInt(s: string): int
    decreases |s|
  {
    if s == "" then 0
    else if s[0] == '-' then -ReadInt(s[1..])
    else 10 * ReadInt(s[..|s| - 1]) + (s[|s| - 1] as int - '0' as int)
  }

  lemma {:induction false} IntTextReads(n: int)
    ensures ReadInt(IntText(n)) == n && IntText(n) != "" && (IntText(n)[0] == '-' <==> n < 0)
    decreases n < 0, if n < 0 then -n else n
  {
    var s := IntText(n);
    if n < 0 {
      IntTextReads(-n);
      assert s[1..] == IntText(-n);
    } else if n >= 10 {
      IntTextReads(n / 10);
      assert s[..|s| - 1] == IntText(n / 10);
    } else {
      assert s[..0] == "";
    }
  }

  /** Two listed users share a key exactly when they share a numeric id, or have none and the same
      login up to case. */
  lemma KeysNameUsers(a: Account, b: Account)
    ensures KeyOf(a) == KeyOf(b) <==>
              if a.id in {None, Some(0)} then b.id in {None, Some(0)} && Lowered(a.login) == Lowered(b.login)
              else a.id == b.id
  {
    hide IntText, Lowered;
    var numeric, named := "github_user_id:", "github_login:";
    var ka, kb := KeyOf(a), KeyOf(b);
    assert numeric[7] == 'u' && named[7] == 'l';
    if a.id in {None, Some(0)} {
      assert ka == named + Lowered(a.login) && ka[7] == 'l' && ka[|named|..] == Lowered(a.login);
    } else {
      assert ka == numeric + IntText(a.id.value) && ka[7] == 'u' && ka[|numeric|..] == IntText(a.id.value);
    }
    if b.id in {None, Some(0)} {
      assert kb == named + Lowered(b.login) && kb[7] == 'l' && kb[|named|..] == Lowered(b.login);
    } else {
      assert kb == numeric + IntText(b.id.value) && kb[7] == 'u' && kb[|numeric|..] == IntText(b.id.value);
    }
    if ka == kb && a.id !in {None, Some(0)} && b.id !in {None, Some(0)} {
      IntTextReads(a.id.value);
      IntTextReads(b.id.value);
    }
  }

  lemma NothingVisited(previous: map<string, Entry>, now: int)
    ensures VisitAll([], previous, now) == Progress([], [], PROFILE_FETCH_LIMIT)
  {}

  lemma WalkOn(pages: seq<seq<Account>>, walked: seq<Account>)
    requires pages != [] && pages[0] != []
    ensures walked + Walk(pages)
            == if |pages[0]| < PAGE_SIZE then walked + pages[0] else (walked + pages[0]) + Walk(pages[1..])
  {
    assert walked + (pages[0] + Walk(pages[1..])) == (walked + pages[0]) + Walk(pages[1..]);
  }

  method VisitPage(start: Progress, ghost walked: seq<Account>, stargazers: seq<Account>,
                   previousByKey: map<string, Entry>, now: int)
    returns (p: Progress)
    requires start == VisitAll(walked, previousByKey, now)
    ensures p == VisitAll(walked + stargazers, previousByKey, now)
  {
    hide Visit;
    p := start;
    assert walked + stargazers[..0] == walked;
    for i := 0 to |stargazers|
      invariant p == VisitAll(walked + stargazers[..i], previousByKey, now)
    {
      ghost var longer := walked + stargazers[..i + 1];
      assert longer[..|longer| - 1] == walked + stargazers[..i];
      p := Visit(p, stargazers[i], previousByKey, now);
    }
    assert stargazers[..|stargazers|] == stargazers;
  }

  method RecordDepartures(previous: seq<Entry>, currentStargazers: seq<Entry>, visited: seq<Event>)
    returns (events: seq<Event>)
    ensures events == visited + Departures(previous, Keys(currentStargazers))
  {
    hide Keys;
    var currentKeys := Keys(currentStargazers);
    events := visited;
    for i := 0 to |previous|
      invariant events == visited + Departures(previous[..i], currentKeys)
    {
      assert previous[..i + 1][..i] == previous[..i];
      if previous[i].key !in currentKeys {
        events := events + [Unstarred(previous[i].key, previous[i].login)];
      }
    }
    assert previous[..|previous|] == previous;
  }

  // ---- Replaying events ----

  function Replay(keys: set<string>, events: seq<Event>): set<string> {
    if events == [] then keys
    else
      var before := Replay(keys, events[..|events| - 1]);
      match events[|events| - 1]
      case Starred(key, _) => before + {key}
      case Unstarred(key, _) => before - {key}
      case Profile(_) => before
  }

  lemma {:induction false} ReplayConcat(keys: set<string>, a: seq<Event>, b: seq<Event>)
    ensures Replay(keys, a + b) == Replay(Replay(keys, a), b)
  {
    if b == [] {
      assert a + b == a;
    } else {
      assert (a + b)[..|a + b| - 1] == a + b[..|b| - 1];
      ReplayConcat(keys, a, b[..|b| - 1]);
    }
  }

  lemma {:induction false} ByKeyHasKeys(entries: seq<Entry>)
    ensures ByKey(entries).Keys == Keys(entries)
  {
    if entries != [] {
      var front, last := entries[..|entries| - 1], entries[|entries| - 1];
      ByKeyHasKeys(front);
      assert entries == front + [last];
    }
  }

  /** Visiting lists every user's key and replays to the old keys together with the listed ones. */
  lemma {:induction false} VisitsReplay(accounts: seq<Account>, previous: map<string, Entry>, now: int)
    ensures var p := VisitAll(accounts, previous, now);
            && Keys(p.entries) == ListedKeys(accounts)
            && Replay(previous.Keys, p.events) == previous.Keys + ListedKeys(accounts)
  {
    if accounts != [] {
      hide KeyOf, Visit, ListedKeys, Keys, Replay;
      var front, last := accounts[..|accounts| - 1], accounts[|accounts| - 1];
      VisitsReplay(front, previous, now);
      var p := VisitAll(front, previous, now);
      var q := VisitAll(accounts, previous, now);
      assert accounts == front + [last];
      VisitReplays(p, last, previous, now);
      OneMoreListed(front, last);
    } else {
      assert Replay(previous.Keys, []) == previous.Keys;
    }
  }

  lemma OneMoreKey(front: seq<Entry>, last: Entry)
    ensures Keys(front + [last]) == Keys(front) + {last.key}
  {}

  lemma OneMoreListed(front: seq<Account>, last: Account)
    ensures ListedKeys(front + [last]) == ListedKeys(front) + (if last.login == "" then {} else {KeyOf(last)})
  {
    hide KeyOf;
  }

  lemma VisitReplays(p: Progress, account: Account, previous: map<string, Entry>, now: int)
    requires previous.Keys <= Replay(previous.Keys, p.events)
    ensures var q := Visit(p, account, previous, now);
            var added := if account.login == "" then {} else {KeyOf(account)};
            && Keys(q.entries) == Keys(p.entries) + added
            && Replay(previous.Keys, q.events) == Replay(previous.Keys, p.events) + added
  {
    hide KeyOf, ShouldRefresh, Replay, Keys;
    if account.login != "" {
      var q := Visit(p, account, previous, now);
      var entry := q.entries[|q.entries| - 1];
      var key := KeyOf(account);
      var profile: seq<Event> :=
        if ShouldRefresh(Lookup(previous, key), now) && p.budget > 0 then [Profile(account.login)] else [];
      var starred: seq<Event> := if key in previous then [] else [Starred(key, account.login)];
      assert q.entries == p.entries + [entry] && entry.key == key;
      assert q.events == p.events + profile + starred;
      OneMoreKey(p.entries, entry);
      ReplayVisit(previous.Keys, p.events, profile, starred, key);
    }
  }

  lemma ReplayVisit(keys: set<string>, events: seq<Event>, profile: seq<Event>, starred: seq<Event>, key: string)
    requires |profile| <= 1 && |starred| <= 1 && keys <= Replay(keys, events)
    requires profile != [] ==> profile[0].Profile?
    requires if key in keys then starred == [] else starred != [] && starred[0].Starred? && starred[0].key == key
    ensures Replay(keys, events + profile + starred) == Replay(keys, events) + {key}
  {
    hide Replay;
    ReplayConcat(keys, events + profile, starred);
    ReplayConcat(keys, events, profile);
    ReplayOne(Replay(keys, events), profile);
    ReplayOne(Replay(keys, events + profile), starred);
  }

  lemma ReplayOne(keys: set<string>, events: seq<Event>)
    requires |events| <= 1
    ensures Replay(keys, events)
            == if events == [] || events[0].Profile? then keys
               else if events[0].Starred? then keys + {events[0].key} else keys - {events[0].key}
  {
    if events != [] { assert Replay(keys, events[..0]) == keys; }
  }

  lemma {:induction false} DeparturesReplay(keys: set<string>, previous: seq<Entry>, current: set<string>)
    ensures Replay(keys, Departures(previous, current)) == keys - (Keys(previous) - current)
  {
    if previous != [] {
      hide Keys, Replay;
      var front, last := previous[..|previous| - 1], previous[|previous| - 1];
      DeparturesReplay(keys, front, current);
      var one: seq<Event> := if last.key in current then [] else [Unstarred(last.key, last.login)];
      ReplayConcat(keys, Departures(front, current), one);
      ReplayOne(Replay(keys, Departures(front, current)), one);
      assert previous == front + [last];
      OneMoreKey(front, last);
    }
  }

  /** One run: its events take the keys of the parsed checkpoint to the keys of the listing, also
      when a user is listed, or stored, twice. */
  lemma RunReplays(stored: seq<Entry>, accounts: seq<Account>, now: int)
    ensures Keys(RunEntries(stored, accounts, now)) == ListedKeys(accounts)
    ensures Replay(Keys(ParseCheckpoint(stored)), RunEvents(stored, accounts, now)) == ListedKeys(accounts)
  {
    hide VisitAll, Departures, ParseCheckpoint, ByKey, ListedKeys;
    var previous := ParseCheckpoint(stored);
    ByKeyHasKeys(previous);
    VisitsReplay(accounts, ByKey(previous), now);
    var p := VisitAll(accounts, ByKey(previous), now);
    ReplayConcat(Keys(previous), p.events, Departures(previous, Keys(p.entries)));
    DeparturesReplay(Replay(Keys(previous), p.events), previous, Keys(p.entries));
  }

  // ---- Chained runs ----

  /** The listings a feed has seen, with the time of each run. */
  datatype Visitation = Visitation(accounts: seq<Account>, now: int)

  function StoredAfter(history: seq<Visitation>): seq<Entry> {
    if history == [] then []
    else
      var last := history[|history| - 1];
      RunEntries(StoredAfter(history[..|history| - 1]), last.accounts, last.now)
  }

  function AllEvents(history: seq<Visitation>): seq<Event> {
    if history == [] then []
    else
      var before, last := history[..|history| - 1], history[|history| - 1];
      AllEvents(before) + RunEvents(StoredAfter(before), last.accounts, last.now)
  }

  predicate LoginsAreVisible(accounts: seq<Account>) {
    forall account | account in accounts :: account.login == "" || !AllBlank(account.login)
  }

  predicate IsComplete(stored: seq<Entry>) {
    forall i | 0 <= i < |stored| :: !AllBlank(stored[i].login) && !AllBlank(stored[i].key)
  }

  lemma {:induction false} CompleteParses(stored: seq<Entry>)
    requires IsComplete(stored)
    ensures ParseCheckpoint(stored) == stored
  {
    if stored != [] {
      CompleteParses(stored[1..]);
      assert stored == [stored[0]] + stored[1..];
    }
  }

  lemma KeyIsVisible(account: Account)
    ensures !AllBlank(KeyOf(account))
  {
    assert KeyOf(account)[0] == 'g';
  }

  lemma {:induction false} VisitsAreComplete(accounts: seq<Account>, previous: map<string, Entry>, now: int)
    requires LoginsAreVisible(accounts)
    ensures IsComplete(VisitAll(accounts, previous, now).entries)
  {
    if accounts != [] {
      hide KeyOf, AllBlank, ShouldRefresh;
      var front, last := accounts[..|accounts| - 1], accounts[|accounts| - 1];
      VisitsAreComplete(front, previous, now);
      KeyIsVisible(last);
      assert last in accounts;
    }
  }

  /** Over every sequence of listings whose logins are not made of blanks, replaying the events of
      all runs from nothing gives exactly the keys of the latest listing. */
  lemma {:induction false} EventsReplayToLatestListing(history: seq<Visitation>)
    requires forall i | 0 <= i < |history| :: LoginsAreVisible(history[i].accounts)
    ensures IsComplete(StoredAfter(history))
    ensures Replay({}, AllEvents(history)) == Keys(StoredAfter(history))
            == if history == [] then {} else ListedKeys(history[|history| - 1].accounts)
  {
    if history != [] {
      hide RunEvents, IsComplete, LoginsAreVisible, ListedKeys, VisitAll, ParseCheckpoint, ByKey;
      var before, last := history[..|history| - 1], history[|history| - 1];
      EventsReplayToLatestListing(before);
      var stored := StoredAfter(before);
      CompleteParses(stored);
      RunReplays(stored, last.accounts, last.now);
      ReplayConcat({}, AllEvents(before), RunEvents(stored, last.accounts, last.now));
      VisitsAreComplete(last.accounts, ByKey(ParseCheckpoint(stored)), last.now);
    } else {
      assert Keys(StoredAfter(history)) == {};
    }
  }

  predicate KeysAreVisible(stored: seq<Entry>) {
    forall i | 0 <= i < |stored| :: !AllBlank(stored[i].key)
  }

  /** Which stored snapshots, keys being as every run writes them, replay correctly whatever is
      listed next: those of which every key has an entry whose login is not made of blanks. */
  lemma ReplayNeedsVisibleLogins(stored: seq<Entry>)
    requires KeysAreVisible(stored)
    ensures (forall accounts, now :: Replay(Keys(stored), RunEvents(stored, accounts, now)) == ListedKeys(accounts))
            <==> forall entry | entry in stored ::
                   exists other | other in stored :: other.key == entry.key && !AllBlank(other.login)
  {
    hide RunEvents, ParseCheckpoint, ListedKeys, AllBlank, Replay;
    ParsedKeys(stored);
    forall accounts, now | Keys(ParseCheckpoint(stored)) == Keys(stored)
      ensures Replay(Keys(stored), RunEvents(stored, accounts, now)) == ListedKeys(accounts)
    {
      RunReplays(stored, accounts, now);
    }
    EmptyListing(stored);
    assert Replay(Keys(stored), RunEvents(stored, [], 0)) == ListedKeys([]) ==>
        Keys(ParseCheckpoint(stored)) == Keys(stored);
  }

  lemma EmptyListing(stored: seq<Entry>)
    requires KeysAreVisible(stored)
    ensures ListedKeys([]) == {}
    ensures Replay(Keys(stored), RunEvents(stored, [], 0)) == {} ==> Keys(ParseCheckpoint(stored)) == Keys(stored)
  {
    hide ParseCheckpoint, AllBlank, Departures, Replay, KeysAreVisible;
    var previous := ParseCheckpoint(stored);
    assert Keys([]) == {};
    assert RunEvents(stored, [], 0) == [] + Departures(previous, Keys([])) == Departures(previous, {});
    DeparturesReplay(Keys(stored), previous, {});
    ParsedKeys(stored);
    if Keys(stored) - (Keys(previous) - {}) == {} {
      forall key | key in Keys(stored)
        ensures key in Keys(previous)
      {
        assert key in Keys(previous) || key in Keys(stored) - (Keys(previous) - {});
      }
    }
  }

  lemma {:induction false} ParsedEntries(stored: seq<Entry>, entry: Entry)
    requires KeysAreVisible(stored)
    ensures entry in ParseCheckpoint(stored) <==> entry in stored && !AllBlank(entry.login)
  {
    hide AllBlank;
    if stored != [] {
      ParsedEntries(stored[1..], entry);
      assert stored == [stored[0]] + stored[1..];
    }
  }

  /** The keys that some entry with a visible login has. */
  lemma ParsedKey(stored: seq<Entry>, key: string)
    requires KeysAreVisible(stored)
    ensures key in Keys(ParseCheckpoint(stored))
            <==> exists other | other in stored :: other.key == key && !AllBlank(other.login)
  {
    hide ParseCheckpoint, AllBlank, KeysAreVisible;
    forall entry
      ensures entry in ParseCheckpoint(stored) <==> entry in stored && !AllBlank(entry.login)
    {
      ParsedEntries(stored, entry);
    }
  }

  lemma ParsedKeys(stored: seq<Entry>)
    requires KeysAreVisible(stored)
    ensures Keys(ParseCheckpoint(stored)) <= Keys(stored)
    ensures Keys(ParseCheckpoint(stored)) == Keys(stored)
            <==> forall entry | entry in stored ::
                   exists other | other in stored :: other.key == entry.key && !AllBlank(other.login)
  {
    hide ParseCheckpoint, AllBlank, KeysAreVisible;
    var parsed := Keys(ParseCheckpoint(stored));
    forall key
      ensures key in parsed <==> exists other | other in stored :: other.key == key && !AllBlank(other.login)
    {
      ParsedKey(stored, key);
    }
    AllKeysIn(stored, parsed);
  }

  lemma AllKeysIn(entries: seq<Entry>, keys: set<string>)
    ensures Keys(entries) <= keys <==> forall entry | entry in entries :: entry.key in keys
  {
    if forall entry | entry in entries :: entry.key in keys {
      assert forall key | key in Keys(entries) :: key in keys;
    } else {
      var entry :| entry in entries && entry.key !in keys;
      assert entry.key in Keys(entries);
    }
  }
}
