/** The sync of the RSS connector (packages/connectors/src/rss.ts): newest first, without the ids
    that the checkpoint remembers, and the checkpoint remembers the last 500. */
module RssDedup {
  import opened Wrappers

  datatype Item = Item(id: string, publishedAt: int, title: string, content: string)

  datatype Checkpoint = Checkpoint(ids: seq<string>, lastPublishedAt: Option<int>)

  const MAX_DEDUP_IDS := 500

  /** The last 500 of all ids. */
  predicate IsWindow(window: seq<string>, all: seq<string>) {
    && |window| == (if |all| < 500 then |all| else 500)
    && window == all[|all| - |window|..]
  }

  /** `ids.slice(-500)`. */
  function LastIds(ids: seq<string>): (last: seq<string>)
    ensures IsWindow(last, ids)
  {
    if |ids| <= MAX_DEDUP_IDS then ids else ids[|ids| - MAX_DEDUP_IDS..]
  }

  // ---- Sorting by date, newest first ----

  function Insert(item: Item, items: seq<Item>): seq<Item> {
    if items == [] || items[0].publishedAt <= item.publishedAt then [item] + items
    else [items[0]] + Insert(item, items[1..])
  }

  /** The stable sort of `Array.prototype.sort` (section 23.1.3.30 of ECMA-262). */
  function NewestFirst(items: seq<Item>): seq<Item> {
    if items == [] then [] else Insert(items[0], NewestFirst(items[1..]))
  }

  predicate Descending(items: seq<Item>) {
    forall i, j | 0 <= i < j < |items| :: items[i].publishedAt >= items[j].publishedAt
  }

  function OfDate(items: seq<Item>, date: int): seq<Item> {
    if items == [] then []
    else (if items[0].publishedAt == date then [items[0]] else []) + OfDate(items[1..], date)
  }

  lemma {:induction false} InsertKeepsAll(item: Item, items: seq<Item>)
    ensures multiset(Insert(item, items)) == multiset{item} + multiset(items)
  {
    if items == [] || items[0].publishedAt <= item.publishedAt {
      assert Insert(item, items) == [item] + items;
    } else {
      InsertKeepsAll(item, items[1..]);
      assert items == [items[0]] + items[1..];
    }
  }

  lemma DescendingCons(first: Item, rest: seq<Item>)
    requires Descending(rest) && forall item | item in rest :: first.publishedAt >= item.publishedAt
    ensures Descending([first] + rest)
  {
    var all := [first] + rest;
    forall i, j | 0 <= i < j < |all|
      ensures all[i].publishedAt >= all[j].publishedAt
    {
      assert all[j] == rest[j - 1] && all[j] in rest;
    }
  }

  lemma {:induction false} InsertKeepsOrder(item: Item, items: seq<Item>)
    requires Descending(items)
    ensures Descending(Insert(item, items))
  {
    if !(items == [] || items[0].publishedAt <= item.publishedAt) {
      var rest := Insert(item, items[1..]);
      InsertKeepsOrder(item, items[1..]);
      InsertKeepsAll(item, items[1..]);
      forall other | other in rest
        ensures items[0].publishedAt >= other.publishedAt
      {
        assert other in multiset(rest);
        assert other == item || other in items[1..];
      }
      DescendingCons(items[0], rest);
    } else {
      forall other | other in items
        ensures item.publishedAt >= other.publishedAt
      {
        var k :| 0 <= k < |items| && items[k] == other;
        assert items[0].publishedAt >= items[k].publishedAt;
      }
      DescendingCons(item, items);
    }
  }

  lemma OfDateConcat(first: Item, rest: seq<Item>, date: int)
    ensures OfDate([first] + rest, date) == (if first.publishedAt == date then [first] else []) + OfDate(rest, date)
  {
    assert ([first] + rest)[1..] == rest;
  }

  lemma {:induction false} InsertKeepsDates(item: Item, items: seq<Item>, date: int)
    ensures OfDate(Insert(item, items), date) == OfDate([item] + items, date)
  {
    OfDateConcat(item, items, date);
    if !(items == [] || items[0].publishedAt <= item.publishedAt) {
      InsertKeepsDates(item, items[1..], date);
      OfDateConcat(item, items[1..], date);
      OfDateConcat(items[0], Insert(item, items[1..]), date);
      assert items == [items[0]] + items[1..];
    }
  }

  /** The sort orders by date, keeps every item, and keeps the order of items of the same date. */
  lemma {:induction false} SortIsStable(items: seq<Item>)
    ensures Descending(NewestFirst(items)) && multiset(NewestFirst(items)) == multiset(items)
    ensures forall date :: OfDate(NewestFirst(items), date) == OfDate(items, date)
  {
    if items != [] {
      SortIsStable(items[1..]);
      InsertKeepsOrder(items[0], NewestFirst(items[1..]));
      InsertKeepsAll(items[0], NewestFirst(items[1..]));
      assert items == [items[0]] + items[1..];
      forall date
        ensures OfDate(NewestFirst(items), date) == OfDate(items, date)
      {
        InsertKeepsDates(items[0], NewestFirst(items[1..]), date);
        OfDateConcat(items[0], NewestFirst(items[1..]), date);
      }
    }
  }

  // ---- One sync ----

  function Ids(items: seq<Item>): (ids: seq<string>)
    ensures |ids| == |items|
  {
    if items == [] then [] else [items[0].id] + Ids(items[1..])
  }

  lemma {:induction false} IdAt(items: seq<Item>, i: nat)
    requires i < |items|
    ensures Ids(items)[i] == items[i].id
  {
    if i > 0 {
      IdAt(items[1..], i - 1);
    }
  }

  /** The items whose id is neither in `seen` nor that of an earlier item. */
  function Unseen(items: seq<Item>, seen: set<string>): seq<Item> {
    if items == [] then []
    else if items[0].id in seen then Unseen(items[1..], seen)
    else [items[0]] + Unseen(items[1..], seen + {items[0].id})
  }

  function Collected(feeds: seq<Option<seq<Item>>>): seq<Item> {
    if feeds == [] then []
    else (if feeds[0].Some? then feeds[0].value else []) + Collected(feeds[1..])
  }

  function Remembered(ids: seq<string>): set<string> {
    set id | id in ids
  }

  function Events(checkpoint: Checkpoint, items: seq<Item>): seq<Item> {
    Unseen(NewestFirst(items), Remembered(checkpoint.ids))
  }

  function Next(checkpoint: Checkpoint, items: seq<Item>): Checkpoint {
    var events := Events(checkpoint, items);
    Checkpoint(LastIds(checkpoint.ids + Ids(events)),
               if events != [] then Some(events[0].publishedAt) else checkpoint.lastPublishedAt)
  }

  const NO_FEEDS := "feed_urls is required and must be a non-empty array."

  function Unpacked(checkpoint: Option<Checkpoint>): Checkpoint {
    if checkpoint.Some? then checkpoint.value else Checkpoint([], None)
  }

  lemma UnseenCons(first: Item, rest: seq<Item>, seen: set<string>)
    ensures Unseen([first] + rest, seen) ==
      if first.id in seen then Unseen(rest, seen) else [first] + Unseen(rest, seen + {first.id})
  {
    assert ([first] + rest)[1..] == rest;
  }

  lemma IdsCons(first: Item, rest: seq<Item>)
    ensures Ids([first] + rest) == [first.id] + Ids(rest)
  {
    assert ([first] + rest)[1..] == rest;
  }

  lemma {:induction false} UnseenSteps(items: seq<Item>, seen: set<string>, i: nat)
    requires i < |items|
    ensures
      var before := Unseen(items[..i], seen);
      var now := seen + Remembered(Ids(before));
      Unseen(items[..i + 1], seen) == before + if items[i].id in now then [] else [items[i]]
  {
    var first, rest := items[0], items[1..];
    if i == 0 {
      assert items[..1] == [first] + [] && items[..0] == [];
      UnseenCons(first, [], seen);
    } else {
      assert items[..i + 1] == [first] + rest[..i] && items[..i] == [first] + rest[..i - 1];
      UnseenCons(first, rest[..i], seen);
      UnseenCons(first, rest[..i - 1], seen);
      UnseenSteps(rest, if first.id in seen then seen else seen + {first.id}, i - 1);
      if first.id !in seen {
        var tail := Unseen(rest[..i - 1], seen + {first.id});
        IdsCons(first, tail);
        hide Unseen, Ids;
        assert seen + Remembered([first.id] + Ids(tail)) == seen + {first.id} + Remembered(Ids(tail));
      }
    }
  }

  lemma {:induction false} IdsConcat(a: seq<Item>, b: seq<Item>)
    ensures Ids(a + b) == Ids(a) + Ids(b)
  {
    if a == [] {
      assert a + b == b;
    } else {
      assert (a + b)[1..] == a[1..] + b;
      IdsConcat(a[1..], b);
    }
  }

  /** The deduplication loop of `sync`. */
  method Deduplicate(allItems: seq<Item>, known: seq<string>) returns (events: seq<Item>, newIds: seq<string>)
    ensures events == Unseen(allItems, Remembered(known)) && newIds == Ids(events)
  {
    hide Unseen, Ids;
    var seenIds := Remembered(known);
    events, newIds := [], [];
    assert Unseen([], Remembered(known)) == [] && Ids([]) == [] by { NothingUnseen(Remembered(known)); }
    for i := 0 to |allItems|
      invariant events == Unseen(allItems[..i], Remembered(known)) && newIds == Ids(events)
      invariant seenIds == Remembered(known) + Remembered(newIds)
    {
      var item := allItems[i];
      UnseenSteps(allItems, Remembered(known), i);
      if item.id !in seenIds {
        IdsConcat(events, [item]);
        assert Ids([item]) == [item.id] by { IdOf(item); }
        seenIds := seenIds + {item.id};
        newIds := newIds + [item.id];
        events := events + [item];
      }
    }
    assert allItems[..|allItems|] == allItems;
  }

  lemma NothingUnseen(seen: set<string>)
    ensures Unseen([], seen) == [] && Ids([]) == []
  {}

  lemma IdOf(item: Item)
    ensures Ids([item]) == [item.id]
  {
    assert [item][1..] == [];
  }

  // ---- sync ----

  /** Some readable feed lists the item. */
  ghost predicate Lists(feeds: seq<Option<seq<Item>>>, item: Item) {
    exists f, i | 0 <= f < |feeds| && feeds[f].Some? && 0 <= i < |feeds[f].value| :: feeds[f].value[i] == item
  }

  /** The checkpoint the sync started from remembers the id. */
  predicate Knows(checkpoint: Option<Checkpoint>, id: string) {
    checkpoint.Some? && id in checkpoint.value.ids
  }

  /** The events are listed items that the checkpoint does not know, one for each such id, the
      newest with that id. */
  ghost predicate EmitsOnce(checkpoint: Option<Checkpoint>, feeds: seq<Option<seq<Item>>>, events: seq<Item>) {
    && (forall event | event in events :: Lists(feeds, event) && !Knows(checkpoint, event.id))
    && (forall d, e | 0 <= d < e < |events| :: events[d].id != events[e].id)
    && (forall item | Lists(feeds, item) && !Knows(checkpoint, item.id) ::
          exists event | event in events :: event.id == item.id && event.publishedAt >= item.publishedAt)
  }

  /** The next checkpoint has the last 500 of the old ids and the new ones, and the date of the first
      event, or the old date. */
  predicate Remembers(checkpoint: Option<Checkpoint>, events: seq<Item>, next: Checkpoint) {
    && IsWindow(next.ids, (if checkpoint.Some? then checkpoint.value.ids else []) + Ids(events))
    && (events != [] ==> next.lastPublishedAt == Some(events[0].publishedAt))
    && (events == [] ==> next.lastPublishedAt == if checkpoint.Some? then checkpoint.value.lastPublishedAt else None)
  }

  /** What a sync promises; its events come newest first. */
  ghost predicate IsSyncResult(checkpoint: Option<Checkpoint>, feeds: seq<Option<seq<Item>>>, events: seq<Item>,
                               next: Checkpoint) {
    EmitsOnce(checkpoint, feeds, events) && Descending(events) && Remembers(checkpoint, events, next)
  }

  /** `sync`; `None` in `feeds` is a feed that could not be fetched or parsed. */
  method Sync(checkpoint: Option<Checkpoint>, feeds: seq<Option<seq<Item>>>)
    returns (r: Result<(seq<Item>, Checkpoint), string>)
    ensures feeds == [] ==> r == Err(NO_FEEDS)
    ensures feeds != [] ==>
      var known := Unpacked(checkpoint);
      r == Ok((Events(known, Collected(feeds)), Next(known, Collected(feeds))))
    ensures feeds != [] ==> IsSyncResult(checkpoint, feeds, r.value.0, r.value.1)
  {
    if feeds == [] {
      return Err(NO_FEEDS);
    }
    var known := Unpacked(checkpoint);
    var allItems: seq<Item> := [];
    for f := 0 to |feeds|
      invariant allItems + Collected(feeds[f..]) == Collected(feeds)
    {
      if feeds[f].Some? {
        allItems := allItems + feeds[f].value;
      }
    }
    assert allItems == Collected(feeds);
    allItems := NewestFirst(allItems);
    var events, newIds := Deduplicate(allItems, known.ids);
    var latest := if events != [] then Some(events[0].publishedAt) else known.lastPublishedAt;
    r := Ok((events, Checkpoint(LastIds(known.ids + newIds), latest)));
    SyncKeepsPromises(checkpoint, feeds);
  }

  lemma {:induction false} CollectedAre(feeds: seq<Option<seq<Item>>>, item: Item)
    ensures item in Collected(feeds) <==> Lists(feeds, item)
  {
    if feeds != [] {
      CollectedAre(feeds[1..], item);
      if Lists(feeds[1..], item) {
        var f, i :| 0 <= f < |feeds| - 1 && feeds[1..][f].Some? && 0 <= i < |feeds[1..][f].value|
          && feeds[1..][f].value[i] == item;
        assert feeds[f + 1].value[i] == item;
      }
      if Lists(feeds, item) {
        var f, i :| 0 <= f < |feeds| && feeds[f].Some? && 0 <= i < |feeds[f].value| && feeds[f].value[i] == item;
        if f > 0 { assert feeds[1..][f - 1].value[i] == item; }
      }
    }
  }

  lemma SyncKeepsPromises(checkpoint: Option<Checkpoint>, feeds: seq<Option<seq<Item>>>)
    ensures var known, items := Unpacked(checkpoint), Collected(feeds);
            IsSyncResult(checkpoint, feeds, Events(known, items), Next(known, items))
  {
    var known, items := Unpacked(checkpoint), Collected(feeds);
    EventsDescend(known, items);
    assert Remembers(checkpoint, Events(known, items), Next(known, items)) by { hide Events, IsWindow, Ids; }
    hide EmitsOnce, Events, Collected, Next, Remembers, Descending;
    EmitsItsOwn(checkpoint, feeds);
    EmitsEverything(checkpoint, feeds);
    assert EmitsOnce(checkpoint, feeds, Events(known, items)) by { Together(checkpoint, feeds, Events(known, items)); }
  }

  lemma Together(checkpoint: Option<Checkpoint>, feeds: seq<Option<seq<Item>>>, events: seq<Item>)
    requires forall event | event in events :: Lists(feeds, event) && !Knows(checkpoint, event.id)
    requires forall d, e | 0 <= d < e < |events| :: events[d].id != events[e].id
    requires forall item | Lists(feeds, item) && !Knows(checkpoint, item.id) ::
               exists event | event in events :: event.id == item.id && event.publishedAt >= item.publishedAt
    ensures EmitsOnce(checkpoint, feeds, events)
  {
    hide Lists, Knows;
  }

  lemma EmitsItsOwn(checkpoint: Option<Checkpoint>, feeds: seq<Option<seq<Item>>>)
    ensures var events := Events(Unpacked(checkpoint), Collected(feeds));
            && (forall event | event in events :: Lists(feeds, event) && !Knows(checkpoint, event.id))
            && (forall d, e | 0 <= d < e < |events| :: events[d].id != events[e].id)
  {
    var known, items := Unpacked(checkpoint), Collected(feeds);
    var events := Events(known, items);
    assert forall id :: id in known.ids <==> Knows(checkpoint, id);
    EmitsUnremembered(known, items);
    hide Lists, Events, Collected, Ids, Unpacked, Knows;
    forall event | event in events
      ensures Lists(feeds, event) && !Knows(checkpoint, event.id)
    {
      var e :| 0 <= e < |events| && events[e] == event;
      IdAt(events, e);
      assert event.id in Ids(events);
      var i :| 0 <= i < |items| && Ids(items)[i] == event.id;
      IdAt(items, i);
      EmitsNewest(known, items, e, i);
      CollectedAre(feeds, event);
    }
    forall d, e | 0 <= d < e < |events|
      ensures events[d].id != events[e].id
    {
      IdAt(events, d);
      IdAt(events, e);
    }
  }

  lemma EmitsEverything(checkpoint: Option<Checkpoint>, feeds: seq<Option<seq<Item>>>)
    ensures var events := Events(Unpacked(checkpoint), Collected(feeds));
            forall item | Lists(feeds, item) && !Knows(checkpoint, item.id) ::
              exists event | event in events :: event.id == item.id && event.publishedAt >= item.publishedAt
  {
    var known, items := Unpacked(checkpoint), Collected(feeds);
    var events := Events(known, items);
    assert forall id :: id in known.ids <==> Knows(checkpoint, id);
    EmitsUnremembered(known, items);
    hide Lists, Events, Collected, Ids, Unpacked, Knows;
    forall item | Lists(feeds, item) && !Knows(checkpoint, item.id)
      ensures exists event | event in events :: event.id == item.id && event.publishedAt >= item.publishedAt
    {
      CollectedAre(feeds, item);
      var i :| 0 <= i < |items| && items[i] == item;
      IdAt(items, i);
      assert item.id in Ids(events);
      var e :| 0 <= e < |events| && Ids(events)[e] == item.id;
      IdAt(events, e);
      EmitsNewest(known, items, e, i);
      assert events[e] in events;
    }
  }

  // ---- What one sync emits ----

  predicate Distinct(ids: seq<string>) {
    forall i, j | 0 <= i < j < |ids| :: ids[i] != ids[j]
  }

  lemma {:induction false} UnseenIds(items: seq<Item>, seen: set<string>)
    ensures Distinct(Ids(Unseen(items, seen)))
    ensures forall id :: id in Ids(Unseen(items, seen)) <==> id in Ids(items) && id !in seen
  {
    if items != [] {
      var rest := items[1..];
      if items[0].id in seen {
        UnseenIds(rest, seen);
      } else {
        UnseenIds(rest, seen + {items[0].id});
        var more := Unseen(rest, seen + {items[0].id});
        assert ([items[0]] + more)[1..] == more;
        assert Ids([items[0]] + more) == [items[0].id] + Ids(more);
      }
    }
  }

  /** Of several items with one id, the first survives. */
  lemma {:induction false} UnseenIsFirst(items: seq<Item>, seen: set<string>, e: nat, i: nat)
    requires e < |Unseen(items, seen)| && i < |items| && items[i].id == Unseen(items, seen)[e].id
    ensures exists k :: 0 <= k <= i && items[k] == Unseen(items, seen)[e]
  {
    if items[0].id in seen {
      UnseenIds(items, seen);
      IdAt(Unseen(items, seen), e);
      assert Ids(Unseen(items, seen))[e] !in seen;
      UnseenIsFirst(items[1..], seen, e, i - 1);
      var k :| 0 <= k <= i - 1 && items[1..][k] == Unseen(items, seen)[e];
      assert items[k + 1] == Unseen(items, seen)[e];
    } else if e > 0 {
      var now := seen + {items[0].id};
      var more := Unseen(items[1..], now);
      UnseenIds(items[1..], now);
      IdAt(more, e - 1);
      assert Ids(more)[e - 1] !in now;
      UnseenIsFirst(items[1..], now, e - 1, i - 1);
      var k :| 0 <= k <= i - 1 && items[1..][k] == more[e - 1];
      assert items[k + 1] == Unseen(items, seen)[e];
    } else {
      assert items[0] == Unseen(items, seen)[e];
    }
  }

  lemma {:induction false} UnseenAreItems(items: seq<Item>, seen: set<string>, e: nat)
    requires e < |Unseen(items, seen)|
    ensures Unseen(items, seen)[e] in items
  {
    if items[0].id in seen {
      UnseenAreItems(items[1..], seen, e);
    } else if e > 0 {
      UnseenAreItems(items[1..], seen + {items[0].id}, e - 1);
    }
  }

  lemma SameIds(a: seq<Item>, b: seq<Item>, id: string)
    requires multiset(a) == multiset(b) && id in Ids(a)
    ensures id in Ids(b)
  {
    var i :| 0 <= i < |Ids(a)| && Ids(a)[i] == id;
    IdAt(a, i);
    assert a[i] in multiset(b);
    var j :| 0 <= j < |b| && b[j] == a[i];
    IdAt(b, j);
  }

  /** A sync emits exactly the collected ids that its checkpoint does not remember, each once. */
  lemma EmitsUnremembered(checkpoint: Checkpoint, items: seq<Item>)
    ensures Distinct(Ids(Events(checkpoint, items)))
    ensures forall id :: id in Ids(Events(checkpoint, items)) <==> id in Ids(items) && id !in checkpoint.ids
  {
    var sorted := NewestFirst(items);
    SortIsStable(items);
    UnseenIds(sorted, Remembered(checkpoint.ids));
    hide Unseen, NewestFirst, Ids;
    forall id
      ensures id in Ids(sorted) <==> id in Ids(items)
    {
      if id in Ids(sorted) { SameIds(sorted, items, id); }
      if id in Ids(items) { SameIds(items, sorted, id); }
    }
  }

  /** An emitted event is a collected item, and the newest one with its id. */
  lemma EmitsNewest(checkpoint: Checkpoint, items: seq<Item>, e: nat, i: nat)
    requires e < |Events(checkpoint, items)| && i < |items| && items[i].id == Events(checkpoint, items)[e].id
    ensures Events(checkpoint, items)[e] in items
    ensures items[i].publishedAt <= Events(checkpoint, items)[e].publishedAt
  {
    var sorted, seen := NewestFirst(items), Remembered(checkpoint.ids);
    SortIsStable(items);
    hide Unseen, NewestFirst;
    assert items[i] in multiset(sorted);
    var j :| 0 <= j < |sorted| && sorted[j] == items[i];
    UnseenIsFirst(sorted, seen, e, j);
    UnseenAreItems(sorted, seen, e);
    assert Events(checkpoint, items)[e] in multiset(sorted);
  }

  lemma {:induction false} UnseenKeepsOrder(items: seq<Item>, seen: set<string>)
    requires Descending(items)
    ensures Descending(Unseen(items, seen))
  {
    if items != [] {
      var rest := items[1..];
      if items[0].id in seen {
        UnseenKeepsOrder(rest, seen);
      } else {
        var now := seen + {items[0].id};
        var more := Unseen(rest, now);
        UnseenKeepsOrder(rest, now);
        forall item | item in more
          ensures items[0].publishedAt >= item.publishedAt
        {
          var k :| 0 <= k < |more| && more[k] == item;
          UnseenAreItems(rest, now, k);
        }
        DescendingCons(items[0], more);
        assert Unseen(items, seen) == [items[0]] + more;
      }
    }
  }

  /** Events come newest first, so the recorded date is that of the newest event. */
  lemma EventsDescend(checkpoint: Checkpoint, items: seq<Item>)
    ensures Descending(Events(checkpoint, items))
    ensures forall e | 0 <= e < |Events(checkpoint, items)| ::
      Next(checkpoint, items).lastPublishedAt.Some?
      && Events(checkpoint, items)[e].publishedAt <= Next(checkpoint, items).lastPublishedAt.value
  {
    SortIsStable(items);
    UnseenKeepsOrder(NewestFirst(items), Remembered(checkpoint.ids));
    var events := Events(checkpoint, items);
    assert Descending(events);
    forall e | 0 <= e < |events|
      ensures Next(checkpoint, items).lastPublishedAt == Some(events[0].publishedAt)
      ensures events[e].publishedAt <= events[0].publishedAt
    {
      assert e > 0 ==> events[0].publishedAt >= events[e].publishedAt;
    }
  }

  // ---- Any sequence of syncs ----

  /** One sync: what its feeds held, what it emitted, and the checkpoint it stored. */
  datatype Round = Round(feeds: seq<Option<seq<Item>>>, events: seq<Item>, next: Checkpoint)

  /** The checkpoint behind some rounds; there is none before the first. */
  function Stored(rounds: seq<Round>): Option<Checkpoint> {
    if rounds == [] then None else Some(rounds[|rounds| - 1].next)
  }

  /** Every round keeps the promises of a sync from the checkpoint of the round before it. */
  ghost predicate IsChain(rounds: seq<Round>) {
    forall k | 0 <= k < |rounds| ::
      IsSyncResult(Stored(rounds[..k]), rounds[k].feeds, rounds[k].events, rounds[k].next)
  }

  /** Every id emitted so far, in order. */
  function Emitted(rounds: seq<Round>): seq<string> {
    if rounds == [] then [] else Emitted(rounds[..|rounds| - 1]) + Ids(rounds[|rounds| - 1].events)
  }

  function StoredIds(rounds: seq<Round>): seq<string> {
    if rounds == [] then [] else rounds[|rounds| - 1].next.ids
  }

  lemma ShorterChain(rounds: seq<Round>)
    requires IsChain(rounds) && rounds != []
    ensures IsChain(rounds[..|rounds| - 1])
    ensures var last := rounds[|rounds| - 1];
            IsSyncResult(Stored(rounds[..|rounds| - 1]), last.feeds, last.events, last.next)
  {
    hide IsSyncResult;
    var shorter := rounds[..|rounds| - 1];
    forall k | 0 <= k < |shorter|
      ensures IsSyncResult(Stored(shorter[..k]), shorter[k].feeds, shorter[k].events, shorter[k].next)
    {
      assert shorter[..k] == rounds[..k] && shorter[k] == rounds[k];
    }
  }

  /** The events of a sync bring distinct ids that its checkpoint does not know. */
  lemma NewIds(checkpoint: Option<Checkpoint>, round: Round)
    requires EmitsOnce(checkpoint, round.feeds, round.events)
    ensures Distinct(Ids(round.events)) && forall id | id in Ids(round.events) :: !Knows(checkpoint, id)
  {
    hide Lists, Knows;
    var ids := Ids(round.events);
    forall i | 0 <= i < |ids|
      ensures ids[i] == round.events[i].id
    {
      IdAt(round.events, i);
    }
    hide Ids;
  }

  lemma WindowOfWindow(window: seq<string>, all: seq<string>, more: seq<string>, next: seq<string>)
    requires IsWindow(window, all) && IsWindow(next, window + more)
    ensures IsWindow(next, all + more)
  {}

  /** The checkpoint holds the last 500 ids ever emitted. */
  lemma {:induction false} CheckpointIsWindow(rounds: seq<Round>)
    requires IsChain(rounds)
    ensures IsWindow(StoredIds(rounds), Emitted(rounds))
  {
    if rounds != [] {
      hide EmitsOnce, IsWindow, Descending;
      var shorter, last := rounds[..|rounds| - 1], rounds[|rounds| - 1];
      ShorterChain(rounds);
      CheckpointIsWindow(shorter);
      WindowOfWindow(StoredIds(shorter), Emitted(shorter), Ids(last.events), last.next.ids);
    }
  }

  lemma WindowStaysDistinct(window: seq<string>, more: seq<string>, next: seq<string>)
    requires Distinct(window) && Distinct(more) && IsWindow(next, window + more)
    requires forall id | id in more :: id !in window
    ensures Distinct(next)
  {
    assert Distinct(window + more) by {
      forall i, j | 0 <= i < j < |window + more|
        ensures (window + more)[i] != (window + more)[j]
      {
        assert j >= |window| ==> (window + more)[j] in more;
      }
    }
  }

  /** The checkpoint never holds more than 500 ids, nor an id twice. */
  lemma {:induction false} CheckpointIsDistinct(rounds: seq<Round>)
    requires IsChain(rounds)
    ensures |StoredIds(rounds)| <= 500 && Distinct(StoredIds(rounds))
  {
    if rounds != [] {
      hide EmitsOnce, Descending;
      var shorter, last := rounds[..|rounds| - 1], rounds[|rounds| - 1];
      ShorterChain(rounds);
      CheckpointIsDistinct(shorter);
      NewIds(Stored(shorter), last);
      WindowStaysDistinct(StoredIds(shorter), Ids(last.events), last.next.ids);
    }
  }

  /** The 500 ids from position `a` on are pairwise distinct, and none is `id`. */
  predicate OthersFrom(emitted: seq<string>, a: nat, id: string) {
    && a + 500 <= |emitted|
    && Distinct(emitted[a..a + 500]) && id !in emitted[a..a + 500]
  }

  /** Between two emissions of one id lie 500 pairwise distinct other ids. */
  ghost predicate Spaced(emitted: seq<string>, p: nat, q: nat)
    requires p < q < |emitted|
  {
    exists a: nat :: p < a && a + 500 <= q && OthersFrom(emitted, a, emitted[p])
  }

  lemma SpacedInLonger(emitted: seq<string>, more: seq<string>, p: nat, q: nat)
    requires p < q < |emitted| && Spaced(emitted, p, q)
    ensures Spaced(emitted + more, p, q)
  {
    var a: nat :| p < a && a + 500 <= q && OthersFrom(emitted, a, emitted[p]);
    assert (emitted + more)[a..a + 500] == emitted[a..a + 500];
    assert OthersFrom(emitted + more, a, (emitted + more)[p]);
  }

  lemma NewlySpaced(emitted: seq<string>, window: seq<string>, more: seq<string>, p: nat, q: nat)
    requires IsWindow(window, emitted) && Distinct(window) && Distinct(more)
    requires forall id | id in more :: id !in window
    requires p < q < |emitted + more| && |emitted| <= q && (emitted + more)[p] == (emitted + more)[q]
    ensures Spaced(emitted + more, p, q)
  {
    var id := more[q - |emitted|];
    assert (emitted + more)[q] == id && id in more;
    assert p < |emitted|;
    var a := |emitted| - |window|;
    assert forall k | a <= k < |emitted| :: emitted[k] == window[k - a];
    assert p < a;
    assert (emitted + more)[a..a + 500] == window;
    assert OthersFrom(emitted + more, a, id);
  }

  /** No id comes back before 500 others were recorded behind it. */
  lemma {:induction false} RepeatsAreSpaced(rounds: seq<Round>, p: nat, q: nat)
    requires IsChain(rounds)
    requires p < q < |Emitted(rounds)| && Emitted(rounds)[p] == Emitted(rounds)[q]
    ensures Spaced(Emitted(rounds), p, q)
  {
    hide EmitsOnce, Descending, IsWindow, Spaced;
    var shorter, last := rounds[..|rounds| - 1], rounds[|rounds| - 1];
    var more := Ids(last.events);
    ShorterChain(rounds);
    if q < |Emitted(shorter)| {
      RepeatsAreSpaced(shorter, p, q);
      SpacedInLonger(Emitted(shorter), more, p, q);
    } else {
      CheckpointIsDistinct(shorter);
      CheckpointIsWindow(shorter);
      NewIds(Stored(shorter), last);
      NewlySpaced(Emitted(shorter), StoredIds(shorter), more, p, q);
    }
  }

  /** What the sync behind a chain emits: exactly the listed ids that are not among the last 500
      emitted ones. */
  lemma NextSyncEmits(rounds: seq<Round>, round: Round, window: seq<string>, id: string)
    requires IsChain(rounds) && IsWindow(window, Emitted(rounds))
    requires IsSyncResult(Stored(rounds), round.feeds, round.events, round.next)
    ensures (exists event | event in round.events :: event.id == id)
            <==> id !in window && exists item :: Lists(round.feeds, item) && item.id == id
  {
    hide Lists, IsChain, Emitted, Remembers, Descending;
    CheckpointIsWindow(rounds);
    assert Knows(Stored(rounds), id) <==> id in window;
    hide IsWindow, Knows, Stored;
  }
}
