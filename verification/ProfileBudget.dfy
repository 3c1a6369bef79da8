/** The profile refresh that stargazer runs share: at most 25 fetches a run, none of them wasted
    (packages/connectors/src/github.ts). */
module ProfileBudget {
  import opened StargazerSync
  import opened TextTools
  import opened Wrappers

  function FetchedKeys(entries: seq<Entry>): set<string> {
    set entry | entry in entries && entry.profileFetchedAt.Some? :: entry.key
  }

  /** The keys of a map whose profile was fetched. */
  function FetchedIn(previous: map<string, Entry>): set<string> {
    set key | key in previous && previous[key].profileFetchedAt.Some?
  }

  function CountProfiles(events: seq<Event>): nat {
    if events == [] then 0
    else CountProfiles(events[..|events| - 1]) + if events[|events| - 1].Profile? then 1 else 0
  }

  /** Every login shows, and no user comes twice. */
  predicate DistinctKeys(accounts: seq<Account>) {
    && (forall i | 0 <= i < |accounts| :: !AllBlank(accounts[i].login))
    && (forall i, j | 0 <= i < j < |accounts| :: KeyOf(accounts[i]) != KeyOf(accounts[j]))
  }

  /** A complete listing of `users`. */
  predicate IsListing(accounts: seq<Account>, users: set<string>) {
    DistinctKeys(accounts) && ListedKeys(accounts) == users
  }

  /** Every profile time of the map is too recent to be refreshed at `now`. */
  predicate AllRecent(previous: map<string, Entry>, now: int) {
    forall key | key in previous && previous[key].profileFetchedAt.Some? ::
      now - previous[key].profileFetchedAt.value < PROFILE_REFRESH_MS
  }

  lemma OneMoreFetched(front: seq<Entry>, last: Entry)
    ensures FetchedKeys(front + [last]) == FetchedKeys(front) + if last.profileFetchedAt.Some? then {last.key} else {}
  {}

  lemma {:induction false} ProfilesConcat(a: seq<Event>, b: seq<Event>)
    ensures CountProfiles(a + b) == CountProfiles(a) + CountProfiles(b)
  {
    if b == [] {
      assert a + b == a;
    } else {
      assert (a + b)[..|a + b| - 1] == a + b[..|b| - 1];
      ProfilesConcat(a, b[..|b| - 1]);
    }
  }

  /** What one visit does to the fetched profiles when all earlier ones are recent. */
  lemma VisitSpends(p: Progress, account: Account, previous: map<string, Entry>, now: int)
    requires account.login != "" && AllRecent(previous, now)
    ensures var q := Visit(p, account, previous, now);
            var key := KeyOf(account);
            var fetch := key !in FetchedIn(previous) && p.budget > 0;
            && q.budget == (if fetch then p.budget - 1 else p.budget)
            && FetchedKeys(q.entries) ==
                FetchedKeys(p.entries) + (if fetch || key in FetchedIn(previous) then {key} else {})
            && CountProfiles(q.events) == CountProfiles(p.events) + if fetch then 1 else 0
  {
    hide KeyOf, FetchedKeys, CountProfiles;
    var q := Visit(p, account, previous, now);
    var key := KeyOf(account);
    var fetch := ShouldRefresh(Lookup(previous, key), now) && p.budget > 0;
    var profile: seq<Event> := if fetch then [Profile(account.login)] else [];
    var starred: seq<Event> := if key in previous then [] else [Starred(key, account.login)];
    OneMoreFetched(p.entries, q.entries[|q.entries| - 1]);
    assert q.entries == p.entries + [q.entries[|q.entries| - 1]];
    assert q.events == p.events + profile + starred;
    ProfilesConcat(p.events + profile, starred);
    ProfilesConcat(p.events, profile);
    FewProfiles(profile, starred);
  }

  lemma FewProfiles(profile: seq<Event>, starred: seq<Event>)
    requires |profile| <= 1 && |starred| <= 1
    requires (profile != [] ==> profile[0].Profile?) && (starred != [] ==> starred[0].Starred?)
    ensures CountProfiles(profile) == |profile| && CountProfiles(starred) == 0
  {
    assert profile != [] ==> CountProfiles(profile[..0]) == 0;
    assert starred != [] ==> CountProfiles(starred[..0]) == 0;
  }

  lemma OneMoreKeyListed(accounts: seq<Account>)
    requires accounts != [] && DistinctKeys(accounts)
    ensures var front, last := accounts[..|accounts| - 1], accounts[|accounts| - 1];
            && DistinctKeys(front) && last.login != ""
            && KeyOf(last) !in ListedKeys(front)
            && ListedKeys(accounts) == ListedKeys(front) + {KeyOf(last)}
  {
    hide KeyOf;
    var front, last := accounts[..|accounts| - 1], accounts[|accounts| - 1];
    assert accounts == front + [last];
    assert !AllBlank(last.login);
  }

  /** Of the users in `listed`, `fetched` were fetched: none known before, as many as the budget
      spent, and all that were not known while budget is left. */
  predicate IsSpent<T>(known: set<T>, listed: set<T>, fetched: set<T>, budget: nat) {
    && fetched !! known && fetched <= listed
    && |fetched| + budget == PROFILE_FETCH_LIMIT
    && (budget > 0 ==> listed <= known + fetched)
  }

  lemma SpendOneMore<T>(known: set<T>, listed: set<T>, fetched: set<T>, budget: nat, key: T)
    requires IsSpent(known, listed, fetched, budget) && key !in listed
    ensures var fetch := key !in known && budget > 0;
            var fetched' := if fetch then fetched + {key} else fetched;
            && IsSpent(known, listed + {key}, fetched', if fetch then budget - 1 else budget)
            && |fetched'| == |fetched| + (if fetch then 1 else 0)
  {}

  lemma UnionOneMore<T>(known: set<T>, listed: set<T>, fetched: set<T>, fetch: bool, key: T)
    ensures known * (listed + {key}) + (if fetch then fetched + {key} else fetched)
            == known * listed + fetched + if fetch || key in known then {key} else {}
  {}

  /** The profiles fetched while visiting a listing. */
  lemma {:induction false} VisitsSpend(accounts: seq<Account>, previous: map<string, Entry>, now: int)
    returns (fetched: set<string>)
    requires DistinctKeys(accounts) && AllRecent(previous, now)
    ensures var p := VisitAll(accounts, previous, now);
            && IsSpent(FetchedIn(previous), ListedKeys(accounts), fetched, p.budget)
            && FetchedKeys(p.entries) == FetchedIn(previous) * ListedKeys(accounts) + fetched
            && CountProfiles(p.events) == |fetched|
  {
    hide KeyOf, FetchedKeys, ListedKeys, DistinctKeys, AllRecent, Visit, FetchedIn, CountProfiles;
    if accounts == [] {
      fetched := {};
      NothingListed();
    } else {
      hide IsSpent;
      var front, last := accounts[..|accounts| - 1], accounts[|accounts| - 1];
      OneMoreKeyListed(accounts);
      fetched := VisitsSpend(front, previous, now);
      var p := VisitAll(front, previous, now);
      VisitSpends(p, last, previous, now);
      SpendOneMore(FetchedIn(previous), ListedKeys(front), fetched, p.budget, KeyOf(last));
      UnionOneMore(FetchedIn(previous), ListedKeys(front), fetched,
                   KeyOf(last) !in FetchedIn(previous) && p.budget > 0, KeyOf(last));
      if KeyOf(last) !in FetchedIn(previous) && p.budget > 0 {
        fetched := fetched + {KeyOf(last)};
      }
    }
  }

  lemma NothingListed()
    ensures ListedKeys([]) == {} && FetchedKeys([]) == {} && CountProfiles([]) == 0
  {}

  // ---- From one run to the next ----

  predicate UniqueKeys(entries: seq<Entry>) {
    forall i, j | 0 <= i < j < |entries| :: entries[i].key != entries[j].key
  }

  lemma {:induction false} ByKeyOfUnique(entries: seq<Entry>)
    requires UniqueKeys(entries)
    ensures forall entry | entry in entries :: entry.key in ByKey(entries) && ByKey(entries)[entry.key] == entry
    ensures ByKey(entries).Keys == Keys(entries)
  {
    ByKeyHasKeys(entries);
    if entries != [] {
      hide Keys;
      var front, last := entries[..|entries| - 1], entries[|entries| - 1];
      ByKeyOfUnique(front);
      assert entries == front + [last];
    }
  }

  lemma FetchedThroughMap(entries: seq<Entry>)
    requires UniqueKeys(entries)
    ensures FetchedIn(ByKey(entries)) == FetchedKeys(entries)
  {
    hide ByKey;
    ByKeyOfUnique(entries);
  }

  /** Entries follow the listing, and a profile time is the present or one already known. */
  lemma {:induction false} VisitedEntries(accounts: seq<Account>, previous: map<string, Entry>, now: int)
    requires DistinctKeys(accounts)
    ensures var entries := VisitAll(accounts, previous, now).entries;
            && |entries| == |accounts|
            && (forall i | 0 <= i < |accounts| :: entries[i].key == KeyOf(accounts[i]))
            && (forall i | 0 <= i < |entries| && entries[i].profileFetchedAt.Some? ::
                  || entries[i].profileFetchedAt.value == now
                  || (entries[i].key in previous
                      && previous[entries[i].key].profileFetchedAt == entries[i].profileFetchedAt))
  {
    if accounts != [] {
      hide KeyOf, ShouldRefresh, ListedKeys;
      OneMoreKeyListed(accounts);
      VisitedEntries(accounts[..|accounts| - 1], previous, now);
    }
  }

  /** All runs fall inside one refresh window. */
  predicate WithinWindow(history: seq<Visitation>) {
    forall i, j | 0 <= i < j < |history| :: history[j].now - history[i].now < PROFILE_REFRESH_MS
  }

  predicate TimesFrom(entries: seq<Entry>, history: seq<Visitation>) {
    forall i | 0 <= i < |entries| && entries[i].profileFetchedAt.Some? ::
      exists k | 0 <= k < |history| :: history[k].now == entries[i].profileFetchedAt.value
  }

  predicate ListsAll(history: seq<Visitation>, users: set<string>) {
    forall i | 0 <= i < |history| :: IsListing(history[i].accounts, users)
  }

  lemma StoredIsRecent(stored: seq<Entry>, before: seq<Visitation>, last: Visitation)
    requires UniqueKeys(stored) && TimesFrom(stored, before) && WithinWindow(before + [last])
    ensures AllRecent(ByKey(stored), last.now)
  {
    hide ByKey;
    ByKeyOfUnique(stored);
    var history := before + [last];
    forall key | key in ByKey(stored) && ByKey(stored)[key].profileFetchedAt.Some?
      ensures last.now - ByKey(stored)[key].profileFetchedAt.value < PROFILE_REFRESH_MS
    {
      assert key in Keys(stored);
      var entry :| entry in stored && entry.key == key;
      var i :| 0 <= i < |stored| && stored[i] == entry;
      var k :| 0 <= k < |before| && before[k].now == stored[i].profileFetchedAt.value;
      assert history[|before|].now - history[k].now < PROFILE_REFRESH_MS;
    }
  }

  lemma TimesGrow(stored: seq<Entry>, accounts: seq<Account>, before: seq<Visitation>, last: Visitation)
    requires UniqueKeys(stored) && TimesFrom(stored, before) && DistinctKeys(last.accounts)
    ensures UniqueKeys(VisitAll(last.accounts, ByKey(stored), last.now).entries)
    ensures TimesFrom(VisitAll(last.accounts, ByKey(stored), last.now).entries, before + [last])
  {
    hide ByKey, KeyOf;
    VisitedEntries(last.accounts, ByKey(stored), last.now);
    ByKeyOfUnique(stored);
    var entries := VisitAll(last.accounts, ByKey(stored), last.now).entries;
    var history := before + [last];
    forall i | 0 <= i < |entries| && entries[i].profileFetchedAt.Some?
      ensures exists k | 0 <= k < |history| :: history[k].now == entries[i].profileFetchedAt.value
    {
      if entries[i].profileFetchedAt.value == last.now {
        assert history[|before|].now == entries[i].profileFetchedAt.value;
      } else {
        var entry := ByKey(stored)[entries[i].key];
        assert entries[i].key in Keys(stored);
        var other :| other in stored && other.key == entries[i].key;
        var n :| 0 <= n < |stored| && stored[n] == other;
        var k :| 0 <= k < |before| && before[k].now == stored[n].profileFetchedAt.value;
        assert history[k].now == entries[i].profileFetchedAt.value;
      }
    }
  }

  /** One run on a complete listing adds min(25, remaining) profiles to those already fetched. */
  lemma RunFetches(stored: seq<Entry>, accounts: seq<Account>, now: int, users: set<string>)
    requires IsListing(accounts, users) && UniqueKeys(stored) && IsComplete(stored)
    requires AllRecent(ByKey(stored), now) && FetchedKeys(stored) <= users
    ensures var entries := RunEntries(stored, accounts, now);
            && FetchedKeys(stored) <= FetchedKeys(entries) <= users
            && |FetchedKeys(entries)| == Min(|users|, |FetchedKeys(stored)| + PROFILE_FETCH_LIMIT)
            && CountProfiles(RunEvents(stored, accounts, now)) == |FetchedKeys(entries)| - |FetchedKeys(stored)|
  {
    hide FetchedKeys, FetchedIn, ListedKeys, AllRecent, VisitAll, ByKey, KeyOf, CountProfiles, IsComplete, UniqueKeys,
        Departures;
    CompleteParses(stored);
    FetchedThroughMap(stored);
    var fetched := VisitsSpend(accounts, ByKey(stored), now);
    var p := VisitAll(accounts, ByKey(stored), now);
    var known := FetchedKeys(stored);
    assert known * users == known;
    assert |known + fetched| == |known| + |fetched|;
    if p.budget > 0 {
      assert users == known + fetched;
    } else {
      SubsetIsSmaller(known + fetched, users);
    }
    ProfilesConcat(p.events, Departures(stored, Keys(p.entries)));
    NoProfilesInDepartures(stored, Keys(p.entries));
  }

  lemma {:induction false} NoProfilesInDepartures(previous: seq<Entry>, current: set<string>)
    ensures CountProfiles(Departures(previous, current)) == 0
  {
    if previous != [] {
      var front, last := previous[..|previous| - 1], previous[|previous| - 1];
      NoProfilesInDepartures(front, current);
      var one: seq<Event> := if last.key in current then [] else [Unstarred(last.key, last.login)];
      ProfilesConcat(Departures(front, current), one);
      assert one != [] ==> CountProfiles(one[..0]) == 0;
    }
  }

  lemma {:induction false} SubsetIsSmaller(a: set<string>, b: set<string>)
    requires a <= b
    ensures |a| <= |b|
  {
    assert b == a + (b - a);
  }

  /** On an unchanged set of users, listed completely and in any order by runs inside one refresh
      window, exactly min(n, 25 k) profiles have been fetched after k runs, each once. */
  lemma {:induction false} RefreshProgress(history: seq<Visitation>, users: set<string>)
    requires ListsAll(history, users) && WithinWindow(history)
    ensures var stored := StoredAfter(history);
            && UniqueKeys(stored) && IsComplete(stored) && TimesFrom(stored, history)
            && FetchedKeys(stored) <= users
            && |FetchedKeys(stored)| == Min(|users|, PROFILE_FETCH_LIMIT * |history|)
            && CountProfiles(AllEvents(history)) == |FetchedKeys(stored)|
  {
    if history == [] {
      NothingListed();
    } else {
      hide IsListing, UniqueKeys, IsComplete, TimesFrom, FetchedKeys, AllRecent, ByKey, VisitAll, CountProfiles,
          RunEvents;
      var before, last := history[..|history| - 1], history[|history| - 1];
      assert history == before + [last];
      RefreshProgress(before, users);
      var stored := StoredAfter(before);
      StoredIsRecent(stored, before, last);
      RunFetches(stored, last.accounts, last.now, users);
      CompleteParses(stored);
      ListingIsUsable(last.accounts, users);
      TimesGrow(stored, last.accounts, before, last);
      VisitsAreComplete(last.accounts, ByKey(stored), last.now);
      ProfilesConcat(AllEvents(before), RunEvents(stored, last.accounts, last.now));
    }
  }

  lemma ListingIsUsable(accounts: seq<Account>, users: set<string>)
    requires IsListing(accounts, users)
    ensures DistinctKeys(accounts) && LoginsAreVisible(accounts)
  {}

  /** So all users are covered as soon as 25 fetches a run suffice for them. */
  lemma AllProfilesFetched(history: seq<Visitation>, users: set<string>)
    requires ListsAll(history, users) && WithinWindow(history)
    requires |users| <= PROFILE_FETCH_LIMIT * |history|
    ensures FetchedKeys(StoredAfter(history)) == users
  {
    hide FetchedKeys, StoredAfter, ListsAll, WithinWindow;
    RefreshProgress(history, users);
    var fetched := FetchedKeys(StoredAfter(history));
    assert users == fetched + (users - fetched);
    assert |users| == |fetched| + |users - fetched|;
  }

  /** No run, on whatever listing, fetches more than its limit. */
  lemma {:induction false} AtMostTheLimit(accounts: seq<Account>, previous: map<string, Entry>, now: int)
    ensures var p := VisitAll(accounts, previous, now);
            CountProfiles(p.events) + p.budget == PROFILE_FETCH_LIMIT
  {
    if accounts != [] {
      hide CountProfiles, KeyOf, ShouldRefresh;
      var front, last := accounts[..|accounts| - 1], accounts[|accounts| - 1];
      AtMostTheLimit(front, previous, now);
      var p, q := VisitAll(front, previous, now), VisitAll(accounts, previous, now);
      if last.login != "" {
        var key := KeyOf(last);
        var profile: seq<Event> :=
          if ShouldRefresh(Lookup(previous, key), now) && p.budget > 0 then [Profile(last.login)] else [];
        var starred: seq<Event> := if key in previous then [] else [Starred(key, last.login)];
        assert q.events == p.events + profile + starred;
        ProfilesConcat(p.events + profile, starred);
        ProfilesConcat(p.events, profile);
        FewProfiles(profile, starred);
      }
    }
  }

  // ---- Which profiles a run fetches ----

  /** No profile of the user is stored that was fetched less than thirty days ago. */
  predicate IsDue(stored: seq<Entry>, account: Account, now: int) {
    forall entry | entry in stored && entry.key == KeyOf(account) && entry.profileFetchedAt.Some? ::
      now - entry.profileFetchedAt.value >= 30 * 24 * 60 * 60 * 1000
  }

  /** The logins of the listed users that are due, in the order of the listing. */
  function DueLogins(stored: seq<Entry>, accounts: seq<Account>, now: int): seq<string> {
    if accounts == [] then []
    else
      var last := accounts[|accounts| - 1];
      DueLogins(stored, accounts[..|accounts| - 1], now) + if IsDue(stored, last, now) then [last.login] else []
  }

  /** User `i` is due and among the first 25 that are. */
  predicate IsServed(stored: seq<Entry>, accounts: seq<Account>, now: int, i: nat)
    requires i < |accounts|
  {
    IsDue(stored, accounts[i], now) && |DueLogins(stored, accounts[..i], now)| < 25
  }

  function ProfileLogins(events: seq<Event>): seq<string> {
    if events == [] then []
    else
      var last := events[|events| - 1];
      ProfileLogins(events[..|events| - 1]) + if last.Profile? then [last.login] else []
  }

  /** The new entry of a listed user: the stored id and profile time stay unless there are newer
      ones. */
  predicate IsEntryOf(stored: seq<Entry>, account: Account, now: int, served: bool, entry: Entry) {
    && entry.key == KeyOf(account) && entry.login == account.login
    && entry.starredAt == (if account.starredAt.Some? then account.starredAt.value else now)
    && (account.id.Some? ==> entry.userId == account.id)
    && (served ==> entry.profileFetchedAt == Some(now))
    && (forall was | was in stored && was.key == entry.key ::
          && (!served ==> entry.profileFetchedAt == was.profileFetchedAt)
          && (account.id.None? ==> entry.userId == was.userId))
    && ((forall was | was in stored :: was.key != entry.key) ==>
          && (!served ==> entry.profileFetchedAt == None)
          && (account.id.None? ==> entry.userId == None))
  }

  lemma DueExactly(stored: seq<Entry>, account: Account, now: int)
    requires UniqueKeys(stored)
    ensures ShouldRefresh(Lookup(ByKey(stored), KeyOf(account)), now) <==> IsDue(stored, account, now)
    ensures KeyOf(account) in ByKey(stored) <==> exists entry | entry in stored :: entry.key == KeyOf(account)
    ensures forall entry | entry in stored && entry.key == KeyOf(account) ::
              Lookup(ByKey(stored), KeyOf(account)) == Some(entry)
  {
    hide KeyOf, ByKey;
    ByKeyOfUnique(stored);
    assert KeyOf(account) in ByKey(stored) <==> KeyOf(account) in Keys(stored);
  }

  lemma ProfileLoginsConcat(a: seq<Event>, b: seq<Event>)
    ensures ProfileLogins(a + b) == ProfileLogins(a) + ProfileLogins(b)
    decreases |b|
  {
    if b == [] {
      assert a + b == a;
    } else {
      assert (a + b)[..|a + b| - 1] == a + b[..|b| - 1];
      ProfileLoginsConcat(a, b[..|b| - 1]);
    }
  }

  lemma ProfileLoginsOf(profile: seq<Event>, starred: seq<Event>)
    requires |profile| <= 1 && |starred| <= 1
    requires (profile != [] ==> profile[0].Profile?) && (starred != [] ==> starred[0].Starred?)
    ensures ProfileLogins(profile) == (if profile == [] then [] else [profile[0].login]) && ProfileLogins(starred) == []
  {
    assert profile != [] ==> ProfileLogins(profile[..0]) == [];
    assert starred != [] ==> ProfileLogins(starred[..0]) == [];
  }

  /** One more visit: it fetches exactly if the user is due and something is left to spend. */
  lemma VisitServes(p: Progress, account: Account, stored: seq<Entry>, now: int)
    requires account.login != "" && UniqueKeys(stored)
    ensures var q := Visit(p, account, ByKey(stored), now);
            var served := IsDue(stored, account, now) && p.budget > 0;
            && |q.entries| == |p.entries| + 1 && q.entries[..|p.entries|] == p.entries
            && IsEntryOf(stored, account, now, served, q.entries[|p.entries|])
            && ProfileLogins(q.events) == ProfileLogins(p.events) + (if served then [account.login] else [])
            && q.budget == (if served then p.budget - 1 else p.budget)
  {
    DueExactly(stored, account, now);
    hide KeyOf, ByKey, ShouldRefresh, IsDue, ProfileLogins;
    var served := IsDue(stored, account, now) && p.budget > 0;
    var q := Visit(p, account, ByKey(stored), now);
    var profile: seq<Event> := if served then [Profile(account.login)] else [];
    var starred: seq<Event> :=
      if KeyOf(account) in ByKey(stored) then [] else [Starred(KeyOf(account), account.login)];
    assert q.events == p.events + profile + starred;
    ProfileLoginsConcat(p.events + profile, starred);
    ProfileLoginsConcat(p.events, profile);
    ProfileLoginsOf(profile, starred);
  }

  lemma {:induction false} VisitsServe(accounts: seq<Account>, stored: seq<Entry>, now: int)
    requires UniqueKeys(stored) && forall i | 0 <= i < |accounts| :: accounts[i].login != ""
    ensures var p, due := VisitAll(accounts, ByKey(stored), now), DueLogins(stored, accounts, now);
            && p.budget == 25 - Min(25, |due|)
            && ProfileLogins(p.events) == due[..Min(25, |due|)]
            && |p.entries| == |accounts|
            && forall i | 0 <= i < |accounts| ::
                 IsEntryOf(stored, accounts[i], now, IsServed(stored, accounts, now, i), p.entries[i])
  {
    hide UniqueKeys, Visit, ByKey, IsDue, IsEntryOf, ProfileLogins;
    if accounts == [] {
      assert ProfileLogins([]) == [] by { NoProfileLogins(); }
    } else {
      var n := |accounts| - 1;
      var front, last := accounts[..n], accounts[n];
      VisitsServe(front, stored, now);
      var p, q := VisitAll(front, ByKey(stored), now), VisitAll(accounts, ByKey(stored), now);
      VisitServes(p, last, stored, now);
      assert IsServed(stored, accounts, now, n) <==> IsDue(stored, last, now) && p.budget > 0;
      forall i | 0 <= i < n
        ensures IsServed(stored, accounts, now, i) == IsServed(stored, front, now, i) && q.entries[i] == p.entries[i]
      {
        assert accounts[..i] == front[..i];
        assert q.entries[..n][i] == q.entries[i];
      }
    }
  }

  lemma NoProfileLogins()
    ensures ProfileLogins([]) == []
  {}

  lemma {:induction false} DeparturesHaveNoProfiles(previous: seq<Entry>, current: set<string>)
    ensures ProfileLogins(Departures(previous, current)) == []
  {
    if previous != [] {
      var front, last := previous[..|previous| - 1], previous[|previous| - 1];
      DeparturesHaveNoProfiles(front, current);
      var one: seq<Event> := if last.key in current then [] else [Unstarred(last.key, last.login)];
      ProfileLoginsConcat(Departures(front, current), one);
      assert one != [] ==> ProfileLogins(one[..0]) == [];
    }
  }

  /** A run on any listing, from any snapshot with unique and visible keys, however old its profile
      times: it fetches exactly the first 25 users that are due, in listing order, one profile event
      each; their entries get the present time and all others keep theirs. */
  lemma RunServesTheDue(stored: seq<Entry>, accounts: seq<Account>, now: int)
    requires UniqueKeys(stored) && IsComplete(stored)
    requires forall i | 0 <= i < |accounts| :: accounts[i].login != ""
    ensures var due := DueLogins(stored, accounts, now);
            ProfileLogins(RunEvents(stored, accounts, now)) == due[..Min(25, |due|)]
    ensures |RunEntries(stored, accounts, now)| == |accounts|
    ensures forall i | 0 <= i < |accounts| ::
              IsEntryOf(stored, accounts[i], now, IsServed(stored, accounts, now, i),
                        RunEntries(stored, accounts, now)[i])
  {
    hide UniqueKeys, IsComplete, VisitAll, ByKey, IsEntryOf, ProfileLogins, DueLogins, Departures, Keys;
    CompleteParses(stored);
    VisitsServe(accounts, stored, now);
    var p := VisitAll(accounts, ByKey(stored), now);
    DeparturesHaveNoProfiles(stored, Keys(p.entries));
    ProfileLoginsConcat(p.events, Departures(stored, Keys(p.entries)));
  }
}
