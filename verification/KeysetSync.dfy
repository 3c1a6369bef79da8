/** The incremental sync of the PostgreSQL connector: every run reads the next page of a query
    result behind a compound checkpoint (cursor, primary key) that is stored as text and may
    lose precision on the way (packages/connectors/src/postgres.ts). */
module KeysetSync {
  import opened TextTools
  import opened Wrappers

  /** `id` is the text of the primary key. */
  datatype Row = Row(cursor: int, pk: int, id: string, payload: string)

  datatype Key = Key(cursor: int, pk: int)

  type Checkpoint = Option<Key>

  /** What storing a cursor and a primary key as text and casting the text back makes of them. */
  datatype Serializer = Serializer(cursor: int -> int, pk: int -> int)

  function KeyOf(row: Row): Key { Key(row.cursor, row.pk) }

  predicate Less(a: Key, b: Key) {
    a.cursor < b.cursor || (a.cursor == b.cursor && a.pk < b.pk)
  }

  /** A query result in the order of its `ORDER BY`, with unique (cursor, pk) pairs. */
  predicate Sorted(rows: seq<Row>) {
    forall i, j | 0 <= i < j < |rows| :: Less(KeyOf(rows[i]), KeyOf(rows[j]))
  }

  /** The `WHERE` condition of the wrapped query. */
  predicate Above(row: Row, ck: Checkpoint) {
    ck.Some? ==> Less(ck.value, KeyOf(row))
  }

  function Selected(rows: seq<Row>, ck: Checkpoint): seq<Row> {
    if rows == [] then []
    else (if Above(rows[0], ck) then [rows[0]] else []) + Selected(rows[1..], ck)
  }

  /** What the database returns: `SELECT ... WHERE ... ORDER BY ... LIMIT`. */
  function Page(rows: seq<Row>, ck: Checkpoint, limit: nat): seq<Row> {
    var selected := Selected(rows, ck);
    selected[..Min(limit, |selected|)]
  }

  function RowLimit(configured: Option<int>): (limit: nat)
    ensures 1 <= limit <= 50000
    ensures configured == None ==> limit == 5000
    ensures configured.Some? && 1 <= configured.value <= 50000 ==> limit == configured.value
    ensures configured.Some? && configured.value < 1 ==> limit == 1
    ensures configured.Some? && configured.value > 50000 ==> limit == 50000
  {
    Min(Max(if configured.Some? then configured.value else 5000, 1), 50000)
  }

  /** An event, reduced to the identity it is stored under and the row it carries. */
  datatype Event = Event(originId: string, row: Row)

  function OriginId(prefix: string, row: Row): string {
    prefix + ":" + row.id
  }

  function EventsOf(prefix: string, page: seq<Row>): (events: seq<Event>)
    ensures |events| == |page|
    ensures forall i | 0 <= i < |page| :: events[i] == Event(OriginId(prefix, page[i]), page[i])
  {
    seq(|page|, i requires 0 <= i < |page| => Event(OriginId(prefix, page[i]), page[i]))
  }

  function StoredKey(row: Row, s: Serializer): Key {
    Key(s.cursor(row.cursor), s.pk(row.pk))
  }

  function NextCheckpoint(page: seq<Row>, ck: Checkpoint, s: Serializer): Checkpoint {
    if page == [] then ck else Some(StoredKey(page[|page| - 1], s))
  }

  /** One run: maps rows to events and moves the checkpoint to the last row. */
  method Sync(rows: seq<Row>, checkpoint: Checkpoint, maxRows: Option<int>, prefix: string, s: Serializer)
    returns (events: seq<Event>, newCheckpoint: Checkpoint)
    ensures events == EventsOf(prefix, Page(rows, checkpoint, RowLimit(maxRows)))
    ensures newCheckpoint == NextCheckpoint(Page(rows, checkpoint, RowLimit(maxRows)), checkpoint, s)
  {
    var page := Page(rows, checkpoint, RowLimit(maxRows));
    events := [];
    newCheckpoint := checkpoint;
    for i := 0 to |page|
      invariant events == EventsOf(prefix, page[..i])
      invariant newCheckpoint == NextCheckpoint(page[..i], checkpoint, s)
    {
      events := events + [Event(OriginId(prefix, page[i]), page[i])];
      newCheckpoint := Some(StoredKey(page[i], s));
    }
    assert page[..|page|] == page;
  }

  // ---- Serializers ----

  /** Monotone, rounding down, and stable on what it has already rounded. */
  ghost predicate RoundsDown(f: int -> int) {
    && (forall x :: f(x) <= x && f(f(x)) == f(x))
    && (forall x, y | x <= y :: f(x) <= f(y))
  }

  ghost predicate Faithful(s: Serializer) {
    RoundsDown(s.cursor) && RoundsDown(s.pk)
  }

  ghost predicate Lossless(s: Serializer) {
    forall x :: s.cursor(x) == x && s.pk(x) == x
  }

  /** `String(v)` keeps a number; a timestamp in microseconds becomes a `Date` in milliseconds. */
  const PLAIN := Serializer(x => x, x => x)
  const DATE_CURSOR := Serializer(x => ToMilliseconds(x), x => x)

  function ToMilliseconds(x: int): (r: int)
    ensures r % 1000 == 0 && r <= x < r + 1000
  {
    x - x % 1000
  }

  lemma KnownSerializers()
    ensures Lossless(PLAIN) && Faithful(PLAIN) && Faithful(DATE_CURSOR) && !Lossless(DATE_CURSOR)
  {
    hide ToMilliseconds;
    assert DATE_CURSOR.cursor(1) == ToMilliseconds(1) <= 1;
    assert DATE_CURSOR.cursor(1) != 1;
    forall x
      ensures ToMilliseconds(ToMilliseconds(x)) == ToMilliseconds(x)
    {
      MillisecondsOf(ToMilliseconds(x), ToMilliseconds(x));
    }
    forall x, y | x <= y
      ensures ToMilliseconds(x) <= ToMilliseconds(y)
    {
      MillisecondsAreMonotone(x, y);
    }
  }

  lemma MillisecondsOf(x: int, r: int)
    requires r % 1000 == 0 && r <= x < r + 1000
    ensures ToMilliseconds(x) == r
  {}

  lemma MillisecondsAreMonotone(x: int, y: int)
    requires x <= y
    ensures ToMilliseconds(x) <= ToMilliseconds(y)
  {}

  // ---- Pages are segments of the sorted result ----

  /** How many rows lie at or below the checkpoint. */
  function Start(rows: seq<Row>, ck: Checkpoint): (n: nat)
    ensures n <= |rows|
    ensures forall i | 0 <= i < n :: !Above(rows[i], ck)
    ensures n < |rows| ==> Above(rows[n], ck)
  {
    if rows == [] || Above(rows[0], ck) then 0 else 1 + Start(rows[1..], ck)
  }

  lemma {:induction false} SelectedIsSuffix(rows: seq<Row>, ck: Checkpoint)
    requires Sorted(rows)
    ensures Selected(rows, ck) == rows[Start(rows, ck)..]
  {
    if rows != [] {
      SelectedIsSuffix(rows[1..], ck);
      if Above(rows[0], ck) {
        AllAbove(rows, ck);
        assert Start(rows[1..], ck) == 0;
      }
    }
  }

  /** Everything from `Start` on is above the checkpoint. */
  lemma AllAbove(rows: seq<Row>, ck: Checkpoint)
    requires Sorted(rows)
    ensures forall i | Start(rows, ck) <= i < |rows| :: Above(rows[i], ck)
  {}

  function End(rows: seq<Row>, ck: Checkpoint, limit: nat): nat {
    Min(Start(rows, ck) + limit, |rows|)
  }

  lemma PageIsSegment(rows: seq<Row>, ck: Checkpoint, limit: nat)
    requires Sorted(rows)
    ensures Page(rows, ck, limit) == rows[Start(rows, ck)..End(rows, ck, limit)]
  {
    SelectedIsSuffix(rows, ck);
  }

  /** The stored checkpoint never lies above the row it was taken from. */
  lemma StartIsBehind(rows: seq<Row>, last: nat, s: Serializer)
    requires Sorted(rows) && last < |rows| && Faithful(s)
    ensures Start(rows, Some(StoredKey(rows[last], s))) <= last + 1
  {
    var ck := Some(StoredKey(rows[last], s));
    assert s.cursor(rows[last].cursor) <= rows[last].cursor && s.pk(rows[last].pk) <= rows[last].pk;
    if last + 1 < |rows| {
      assert Less(KeyOf(rows[last]), KeyOf(rows[last + 1]));
      assert Above(rows[last + 1], ck);
    }
  }

  // ---- The store ----

  type Store = map<string, Row>

  /** Storing events under their origin id; a later event supersedes an earlier one. */
  function Absorb(store: Store, events: seq<Event>): Store {
    if events == [] then store
    else Absorb(store, events[..|events| - 1])[events[|events| - 1].originId := events[|events| - 1].row]
  }

  predicate UniqueIds(rows: seq<Row>) {
    forall i, j | 0 <= i < j < |rows| :: rows[i].id != rows[j].id
  }

  predicate Holds(store: Store, prefix: string, rows: seq<Row>) {
    && (forall i | 0 <= i < |rows| :: OriginId(prefix, rows[i]) in store && store[OriginId(prefix, rows[i])] == rows[i])
    && (forall id | id in store :: exists i | 0 <= i < |rows| :: OriginId(prefix, rows[i]) == id)
  }

  /** Two stores that hold the same rows are equal. */
  lemma HoldsIsExact(a: Store, b: Store, prefix: string, rows: seq<Row>)
    requires Holds(a, prefix, rows) && Holds(b, prefix, rows)
    ensures a == b
  {
    assert forall id :: id in a <==> id in b;
  }

  lemma OriginIdIsInjective(prefix: string, a: Row, b: Row)
    requires OriginId(prefix, a) == OriginId(prefix, b)
    ensures a.id == b.id
  {
    assert OriginId(prefix, a)[|prefix| + 1..] == a.id;
    assert OriginId(prefix, b)[|prefix| + 1..] == b.id;
  }

  lemma AbsorbRow(store: Store, prefix: string, rows: seq<Row>, m: nat, i: nat)
    requires UniqueIds(rows) && i <= m <= |rows| && i < |rows|
    requires Holds(store, prefix, rows[..m])
    ensures Holds(store[OriginId(prefix, rows[i]) := rows[i]], prefix, rows[..Max(m, i + 1)])
  {
    hide OriginId;
    var store' := store[OriginId(prefix, rows[i]) := rows[i]];
    var seen := rows[..Max(m, i + 1)];
    forall k | 0 <= k < |seen|
      ensures OriginId(prefix, seen[k]) in store' && store'[OriginId(prefix, seen[k])] == seen[k]
    {
      if k != i {
        assert seen[k] == rows[..m][k];
        if OriginId(prefix, rows[k]) == OriginId(prefix, rows[i]) {
          OriginIdIsInjective(prefix, rows[k], rows[i]);
        }
      }
    }
    forall id | id in store'
      ensures exists k | 0 <= k < |seen| :: OriginId(prefix, seen[k]) == id
    {
      if id == OriginId(prefix, rows[i]) {
        assert OriginId(prefix, seen[i]) == id;
      } else {
        var k :| 0 <= k < m && OriginId(prefix, rows[..m][k]) == id;
        assert OriginId(prefix, seen[k]) == id;
      }
    }
  }

  lemma {:induction false} AbsorbSegment(store: Store, prefix: string, rows: seq<Row>, m: nat, i: nat, j: nat)
    requires UniqueIds(rows) && i <= m <= |rows| && i <= j <= |rows|
    requires Holds(store, prefix, rows[..m])
    ensures Holds(Absorb(store, EventsOf(prefix, rows[i..j])), prefix, rows[..Max(m, j)])
  {
    hide Holds, UniqueIds, OriginId;
    if i < j {
      AbsorbSegment(store, prefix, rows, m, i, j - 1);
      var events := EventsOf(prefix, rows[i..j]);
      assert events[..|events| - 1] == EventsOf(prefix, rows[i..j - 1]);
      AbsorbRow(Absorb(store, events[..|events| - 1]), prefix, rows, Max(m, j - 1), j - 1);
    }
  }

  // ---- Runs over an unchanging result ----

  /** The feed between two runs: its checkpoint and the store it has filled. */
  datatype Feed = Feed(ck: Checkpoint, store: Store)

  function Run(feed: Feed, rows: seq<Row>, limit: nat, prefix: string, s: Serializer): Feed {
    var page := Page(rows, feed.ck, limit);
    Feed(NextCheckpoint(page, feed.ck, s), Absorb(feed.store, EventsOf(prefix, page)))
  }

  function Runs(k: nat, rows: seq<Row>, limit: nat, prefix: string, s: Serializer): Feed {
    if k == 0 then Feed(None, map[])
    else Run(Runs(k - 1, rows, limit, prefix, s), rows, limit, prefix, s)
  }

  /** The store holds exactly the first `m` rows and no row behind the checkpoint is missing. */
  ghost predicate HoldsPrefix(feed: Feed, rows: seq<Row>, prefix: string, m: nat) {
    && m <= |rows|
    && Holds(feed.store, prefix, rows[..m])
    && Start(rows, feed.ck) <= m
  }

  lemma StartOfNothing(rows: seq<Row>)
    ensures Start(rows, None) == 0
  {}

  lemma NoCheckpointNoPrefix(rows: seq<Row>, prefix: string)
    ensures HoldsPrefix(Feed(None, map[]), rows, prefix, 0)
  {}

  /** One run keeps the store a prefix, and the prefix becomes longer exactly when fewer than
      `limit` of the rows already stored lie above the checkpoint and rows are left. */
  lemma RunExtendsPrefix(feed: Feed, rows: seq<Row>, limit: nat, prefix: string, s: Serializer, m: nat)
    returns (m': nat)
    requires Sorted(rows) && UniqueIds(rows) && Faithful(s) && 1 <= limit
    requires HoldsPrefix(feed, rows, prefix, m)
    ensures HoldsPrefix(Run(feed, rows, limit, prefix, s), rows, prefix, m')
    ensures m' == Max(m, End(rows, feed.ck, limit))
    ensures m < m' <==> m < |rows| && m - Start(rows, feed.ck) < limit
  {
    hide Holds, UniqueIds, Faithful, Page, Absorb, EventsOf, Sorted;
    var i, j := Start(rows, feed.ck), End(rows, feed.ck, limit);
    PageIsSegment(rows, feed.ck, limit);
    AbsorbSegment(feed.store, prefix, rows, m, i, j);
    m' := Max(m, j);
    if i < j {
      StartIsBehind(rows, j - 1, s);
    }
  }

  /** Chained runs: the store always equals a prefix of the result in (cursor, pk) order. */
  lemma {:induction false} StoreIsAlwaysPrefix(k: nat, rows: seq<Row>, limit: nat, prefix: string, s: Serializer)
    returns (m: nat)
    requires Sorted(rows) && UniqueIds(rows) && Faithful(s) && 1 <= limit
    ensures HoldsPrefix(Runs(k, rows, limit, prefix, s), rows, prefix, m)
    ensures 0 < k ==> Min(limit, |rows|) <= m
    ensures Runs(k, rows, limit, prefix, s).ck.None? ==> k == 0 || rows == []
  {
    if k == 0 {
      m := 0;
    } else {
      var before := StoreIsAlwaysPrefix(k - 1, rows, limit, prefix, s);
      m := RunExtendsPrefix(Runs(k - 1, rows, limit, prefix, s), rows, limit, prefix, s, before);
      PageIsSegment(rows, Runs(k - 1, rows, limit, prefix, s).ck, limit);
    }
  }

  // ---- Which rows are ever stored ----

  /** Reading the page that begins at row `i` leads back to row `i` or before. */
  predicate LeadsBack(rows: seq<Row>, limit: nat, s: Serializer, i: nat)
    requires 1 <= limit
  {
    i + limit <= |rows| && Above(rows[i], Some(StoredKey(rows[i + limit - 1], s)))
  }

  /** And rows are left behind that page. */
  predicate Stalls(rows: seq<Row>, limit: nat, s: Serializer, i: nat)
    requires 1 <= limit
  {
    i + limit < |rows| && LeadsBack(rows, limit, s, i)
  }

  /** The end of the first page that stalls, from row `i` on, or of all rows. */
  function ReachFrom(rows: seq<Row>, limit: nat, s: Serializer, i: nat): (n: nat)
    requires 1 <= limit
    ensures n <= |rows| && Min(i + limit, |rows|) <= n
    ensures n == |rows| || (i + limit <= n && Stalls(rows, limit, s, n - limit))
    ensures forall k | i <= k && k + limit < n :: !Stalls(rows, limit, s, k)
    decreases |rows| - i
  {
    if |rows| <= i + limit then |rows|
    else if Stalls(rows, limit, s, i) then i + limit
    else ReachFrom(rows, limit, s, i + 1)
  }

  function Reach(rows: seq<Row>, limit: nat, s: Serializer): nat
    requires 1 <= limit
  {
    ReachFrom(rows, limit, s, 0)
  }

  /** No row is above what is stored of itself or of a later row with the same stored cursor as
      its own, unrounded one.  So it is when no cursor survives serialization, when nothing is
      rounded, and when primary keys grow with the cursor and are stored without loss. */
  predicate KeysGrow(rows: seq<Row>, s: Serializer) {
    forall i, j | 0 <= i <= j < |rows| :: rows[i].cursor == s.cursor(rows[j].cursor) ==> rows[i].pk <= s.pk(rows[j].pk)
  }

  /** Behind a checkpoint taken from the last of the first `m` rows lie fewer than `limit` of them,
      unless the page that ends with them leads back. */
  lemma FewRowsAreReadAgain(rows: seq<Row>, m: nat, s: Serializer, limit: nat)
    requires Sorted(rows) && 1 <= limit && 0 < m <= |rows|
    requires limit <= m ==> !LeadsBack(rows, limit, s, m - limit)
    ensures m - Start(rows, Some(StoredKey(rows[m - 1], s))) < limit
  {
    AllAbove(rows, Some(StoredKey(rows[m - 1], s)));
  }

  /** Every run stores at least one row not stored before, until the first stalling page is out. */
  lemma {:induction false} RunsReach(k: nat, rows: seq<Row>, limit: nat, prefix: string, s: Serializer) returns (m: nat)
    requires Sorted(rows) && UniqueIds(rows) && Faithful(s) && 1 <= limit
    ensures HoldsPrefix(Runs(k, rows, limit, prefix, s), rows, prefix, m)
    ensures Min(k, Reach(rows, limit, s)) <= m
    ensures m < Reach(rows, limit, s) || (m == |rows| && (limit <= m ==> !LeadsBack(rows, limit, s, m - limit))) ==>
              Runs(k, rows, limit, prefix, s).ck == if m == 0 then None else Some(StoredKey(rows[m - 1], s))
  {
    hide Holds, UniqueIds, Faithful, Page, Run, Sorted, Start, LeadsBack;
    if k == 0 {
      NoCheckpointNoPrefix(rows, prefix);
      m := 0;
    } else {
      var feed := Runs(k - 1, rows, limit, prefix, s);
      var before := RunsReach(k - 1, rows, limit, prefix, s);
      m := RunExtendsPrefix(feed, rows, limit, prefix, s, before);
      StartOfNothing(rows);
      assert limit <= before < Reach(rows, limit, s) ==> !Stalls(rows, limit, s, before - limit);
      if 0 < before && (limit <= before ==> !LeadsBack(rows, limit, s, before - limit)) {
        FewRowsAreReadAgain(rows, before, s, limit);
      }
      PageIsSegment(rows, feed.ck, limit);
      RunAfterPage(feed, rows, limit, prefix, s);
    }
  }

  /** A page whose last row is stored below the cursor of its first stays above every checkpoint
      that a row up to its end leaves. */
  lemma StaysAbove(rows: seq<Row>, limit: nat, s: Serializer, i: nat, last: nat)
    requires Sorted(rows) && Faithful(s) && 1 <= limit && Stalls(rows, limit, s, i) && last < i + limit
    requires s.cursor(rows[i + limit - 1].cursor) < rows[i].cursor
    ensures Start(rows, Some(StoredKey(rows[last], s))) <= i
  {
    var e := i + limit - 1;
    assert rows[last].cursor <= rows[e].cursor by {
      if last < e { assert Less(KeyOf(rows[last]), KeyOf(rows[e])); }
    }
    assert s.cursor(rows[last].cursor) <= s.cursor(rows[e].cursor);
    assert Above(rows[i], Some(StoredKey(rows[last], s)));
  }

  /** Where cursors round below the first row of a page, no number of runs gets past that page:
      whenever the last row of rows i to i + limit - 1 is stored below the cursor of row i, only
      rows before i + limit are ever stored. */
  lemma {:induction false} StallIsPermanent(k: nat, rows: seq<Row>, limit: nat, prefix: string, s: Serializer, i: nat)
    returns (m: nat)
    requires Sorted(rows) && UniqueIds(rows) && Faithful(s) && 1 <= limit
    requires i + limit < |rows| && s.cursor(rows[i + limit - 1].cursor) < rows[i].cursor
    ensures HoldsPrefix(Runs(k, rows, limit, prefix, s), rows, prefix, m) && m <= i + limit
    ensures var ck := Runs(k, rows, limit, prefix, s).ck;
            ck.None? || exists last | 0 <= last < i + limit :: ck == Some(StoredKey(rows[last], s))
  {
    hide Holds, UniqueIds, Faithful, Page, Run, Sorted, Start;
    if k == 0 {
      NoCheckpointNoPrefix(rows, prefix);
      m := 0;
    } else {
      var feed := Runs(k - 1, rows, limit, prefix, s);
      var before := StallIsPermanent(k - 1, rows, limit, prefix, s, i);
      m := RunExtendsPrefix(feed, rows, limit, prefix, s, before);
      StartOfNothing(rows);
      if feed.ck.Some? {
        var last :| 0 <= last < i + limit && feed.ck == Some(StoredKey(rows[last], s));
        StaysAbove(rows, limit, s, i, last);
      }
      PageIsSegment(rows, feed.ck, limit);
      RunAfterPage(feed, rows, limit, prefix, s);
      var j := End(rows, feed.ck, limit);
      assert j <= i + limit;
    }
  }

  /** With growing keys a page stalls exactly when its last row is stored below its first. */
  lemma StallsWhenRounded(rows: seq<Row>, limit: nat, s: Serializer, i: nat)
    requires 1 <= limit && KeysGrow(rows, s)
    ensures Stalls(rows, limit, s, i) <==>
              i + limit < |rows| && s.cursor(rows[i + limit - 1].cursor) < rows[i].cursor
  {}

  /** What the runs store in the end: after k runs at least k rows or all that are ever stored, and
      never more; as many runs as rows suffice.  What is ever stored ends with the first page whose
      last row is stored below its first. */
  lemma StoreReachesExactly(k: nat, rows: seq<Row>, limit: nat, prefix: string, s: Serializer) returns (m: nat)
    requires Sorted(rows) && UniqueIds(rows) && Faithful(s) && 1 <= limit && KeysGrow(rows, s)
    ensures HoldsPrefix(Runs(k, rows, limit, prefix, s), rows, prefix, m)
    ensures Min(k, Reach(rows, limit, s)) <= m <= Reach(rows, limit, s)
    ensures |rows| <= k ==> Runs(k, rows, limit, prefix, s).store == Runs(|rows|, rows, limit, prefix, s).store
  {
    hide Sorted, Faithful, Run, Runs, KeysGrow, Reach, Holds, UniqueIds, Start;
    m := ReachIsExact(k, rows, limit, prefix, s);
    if |rows| <= k {
      var n := ReachIsExact(|rows|, rows, limit, prefix, s);
      HoldsIsExact(Runs(k, rows, limit, prefix, s).store, Runs(|rows|, rows, limit, prefix, s).store, prefix,
          rows[..m]);
    }
  }

  lemma ReachIsExact(k: nat, rows: seq<Row>, limit: nat, prefix: string, s: Serializer) returns (m: nat)
    requires Sorted(rows) && UniqueIds(rows) && Faithful(s) && 1 <= limit && KeysGrow(rows, s)
    ensures HoldsPrefix(Runs(k, rows, limit, prefix, s), rows, prefix, m)
    ensures Min(k, Reach(rows, limit, s)) <= m <= Reach(rows, limit, s)
    ensures Reach(rows, limit, s) <= |rows|
  {
    hide Holds, Sorted, Faithful, KeysGrow, Start, Run;
    m := RunsReach(k, rows, limit, prefix, s);
    var n := Reach(rows, limit, s);
    if n < |rows| {
      StallsWhenRounded(rows, limit, s, n - limit);
      var m' := StallIsPermanent(k, rows, limit, prefix, s, n - limit);
      PrefixIsUnique(Runs(k, rows, limit, prefix, s).store, prefix, rows, m, m');
    }
  }

  lemma PrefixIsUnique(store: Store, prefix: string, rows: seq<Row>, m: nat, m': nat)
    requires UniqueIds(rows) && m <= |rows| && m' <= |rows|
    requires Holds(store, prefix, rows[..m]) && Holds(store, prefix, rows[..m'])
    ensures m == m'
  {
    NotLonger(store, prefix, rows, m, m');
    NotLonger(store, prefix, rows, m', m);
  }

  lemma NotLonger(store: Store, prefix: string, rows: seq<Row>, m: nat, m': nat)
    requires UniqueIds(rows) && m <= |rows| && m' <= |rows|
    requires Holds(store, prefix, rows[..m]) && Holds(store, prefix, rows[..m'])
    ensures m' <= m
  {
    hide OriginId;
    if m < m' {
      assert OriginId(prefix, rows[..m'][m]) in store;
      var i :| 0 <= i < m && OriginId(prefix, rows[..m][i]) == OriginId(prefix, rows[m]);
      OriginIdIsInjective(prefix, rows[i], rows[m]);
      assert false;
    }
  }

  /** The whole result is stored by some number of runs if and only if no page, except one that
      ends the result, has its last row stored below its first. */
  lemma CompletesExactly(rows: seq<Row>, limit: nat, prefix: string, s: Serializer)
    requires Sorted(rows) && UniqueIds(rows) && Faithful(s) && 1 <= limit && KeysGrow(rows, s)
    ensures (exists k: nat :: Holds(Runs(k, rows, limit, prefix, s).store, prefix, rows))
            <==> forall i: nat | i + limit < |rows| :: rows[i].cursor <= s.cursor(rows[i + limit - 1].cursor)
  {
    hide Holds, Sorted, Faithful, KeysGrow, Run, Runs;
    forall i: nat | i + limit < |rows|
      ensures Stalls(rows, limit, s, i) <==> s.cursor(rows[i + limit - 1].cursor) < rows[i].cursor
    {
      StallsWhenRounded(rows, limit, s, i);
    }
    var n := Reach(rows, limit, s);
    assert rows[..|rows|] == rows;
    var m := ReachIsExact(|rows|, rows, limit, prefix, s);
    forall k: nat | Holds(Runs(k, rows, limit, prefix, s).store, prefix, rows)
      ensures n == |rows|
    {
      var m' := ReachIsExact(k, rows, limit, prefix, s);
      PrefixIsUnique(Runs(k, rows, limit, prefix, s).store, prefix, rows, m', |rows|);
    }
  }

  /** No cursor survives serialization unchanged. */
  predicate OffGrid(rows: seq<Row>, s: Serializer) {
    forall i | 0 <= i < |rows| :: s.cursor(rows[i].cursor) < rows[i].cursor
  }

  /** In particular, when no cursor survives serialization: the whole result is stored if and only
      if no page, except one that ends the result, begins and ends on one stored cursor. */
  lemma OffGridCompletesExactly(rows: seq<Row>, limit: nat, prefix: string, s: Serializer)
    requires Sorted(rows) && UniqueIds(rows) && Faithful(s) && 1 <= limit && OffGrid(rows, s)
    ensures (exists k: nat :: Holds(Runs(k, rows, limit, prefix, s).store, prefix, rows))
            <==> forall i: nat | i + limit < |rows| :: s.cursor(rows[i].cursor) != s.cursor(rows[i + limit - 1].cursor)
  {
    OffGridKeysGrow(rows, s);
    CompletesExactly(rows, limit, prefix, s);
    forall i: nat | i + limit < |rows|
      ensures rows[i].cursor <= s.cursor(rows[i + limit - 1].cursor)
          <==> s.cursor(rows[i].cursor) != s.cursor(rows[i + limit - 1].cursor)
    {
      RoundedBetween(rows, s, i, i + limit - 1);
    }
    hide Holds, Sorted, Runs;
  }

  lemma RoundedBetween(rows: seq<Row>, s: Serializer, i: nat, j: nat)
    requires Sorted(rows) && Faithful(s) && OffGrid(rows, s) && i <= j < |rows|
    ensures rows[i].cursor <= s.cursor(rows[j].cursor) <==> s.cursor(rows[i].cursor) != s.cursor(rows[j].cursor)
  {
    assert rows[i].cursor <= rows[j].cursor by {
      if i < j { assert Less(KeyOf(rows[i]), KeyOf(rows[j])); }
    }
    var v := s.cursor(rows[j].cursor);
    if v < rows[i].cursor {
      assert s.cursor(v) <= s.cursor(rows[i].cursor) <= s.cursor(rows[j].cursor);
    } else {
      assert s.cursor(rows[i].cursor) < rows[i].cursor <= v;
    }
  }

  lemma OffGridKeysGrow(rows: seq<Row>, s: Serializer)
    requires Faithful(s) && OffGrid(rows, s)
    ensures KeysGrow(rows, s)
  {
    forall i, j | 0 <= i <= j < |rows|
      ensures rows[i].cursor != s.cursor(rows[j].cursor)
    {
      assert s.cursor(s.cursor(rows[j].cursor)) == s.cursor(rows[j].cursor);
    }
  }

  // ---- As many runs as rows decide, whatever the keys ----

  /** Where the run that starts behind `start` rows leads the next one. */
  function NextStart(rows: seq<Row>, limit: nat, s: Serializer, start: nat): nat
    requires 1 <= limit && start <= |rows|
  {
    if start == |rows| then start else Start(rows, Some(StoredKey(rows[Min(start + limit, |rows|) - 1], s)))
  }

  lemma StartMoves(feed: Feed, rows: seq<Row>, limit: nat, prefix: string, s: Serializer)
    requires Sorted(rows) && 1 <= limit
    ensures Start(rows, Run(feed, rows, limit, prefix, s).ck) == NextStart(rows, limit, s, Start(rows, feed.ck))
  {
    hide Sorted, Start, Run, Page;
    PageIsSegment(rows, feed.ck, limit);
    RunAfterPage(feed, rows, limit, prefix, s);
  }

  /** How many rows lie at or below the checkpoint after `k` runs. */
  function StartAfter(k: nat, rows: seq<Row>, limit: nat, prefix: string, s: Serializer): (start: nat)
    ensures start <= |rows|
  {
    Start(rows, Runs(k, rows, limit, prefix, s).ck)
  }

  /** Everything is stored once a run came near enough to the end. */
  lemma {:induction false} StoredOnceNear(k: nat, rows: seq<Row>, limit: nat, prefix: string, s: Serializer)
    returns (m: nat)
    requires Sorted(rows) && UniqueIds(rows) && Faithful(s) && 1 <= limit
    ensures HoldsPrefix(Runs(k, rows, limit, prefix, s), rows, prefix, m)
    ensures m == |rows|
        <==> rows == [] || exists j: nat | j < k :: |rows| <= StartAfter(j, rows, limit, prefix, s) + limit
  {
    hide Holds, Sorted, UniqueIds, Faithful, Run, Start;
    if k == 0 {
      NoCheckpointNoPrefix(rows, prefix);
      m := 0;
    } else {
      var before := StoredOnceNear(k - 1, rows, limit, prefix, s);
      m := RunExtendsPrefix(Runs(k - 1, rows, limit, prefix, s), rows, limit, prefix, s, before);
      assert m == |rows| <==> before == |rows| || |rows| <= StartAfter(k - 1, rows, limit, prefix, s) + limit;
    }
  }

  lemma {:induction false} StartsRepeat(k: nat, a: nat, b: nat, rows: seq<Row>, limit: nat, prefix: string,
                                        s: Serializer) returns (j: nat)
    requires Sorted(rows) && 1 <= limit && a < b
    requires StartAfter(a, rows, limit, prefix, s) == StartAfter(b, rows, limit, prefix, s)
    ensures j < b && StartAfter(k, rows, limit, prefix, s) == StartAfter(j, rows, limit, prefix, s)
  {
    hide Sorted, Start, Run, NextStart;
    if k == 0 {
      j := 0;
    } else {
      var i := StartsRepeat(k - 1, a, b, rows, limit, prefix, s);
      StartMoves(Runs(k - 1, rows, limit, prefix, s), rows, limit, prefix, s);
      StartMoves(Runs(i, rows, limit, prefix, s), rows, limit, prefix, s);
      j := if i + 1 == b then a else i + 1;
    }
  }

  lemma {:induction false} Pigeonhole(values: seq<nat>, n: nat)
    requires (forall i | 0 <= i < |values| :: values[i] < n) && n < |values|
    ensures exists a, b | 0 <= a < b < |values| :: values[a] == values[b]
    decreases |values|
  {
    var last := values[|values| - 1];
    if a :| 0 <= a < |values| - 1 && values[a] == last {
      assert values[a] == values[|values| - 1];
    } else {
      var rest := seq(|values| - 1, i requires 0 <= i < |values| - 1 => if values[i] == n - 1 then last else values[i]);
      Pigeonhole(rest, n - 1);
      var a, b :| 0 <= a < b < |rest| && rest[a] == rest[b];
      assert values[a] == values[b];
    }
  }

  /** For every faithful serializer: if as many runs as there are rows have not stored the whole
      result, no number of runs will. */
  lemma RunsDecide(k: nat, rows: seq<Row>, limit: nat, prefix: string, s: Serializer)
    requires Sorted(rows) && UniqueIds(rows) && Faithful(s) && 1 <= limit
    requires Holds(Runs(k, rows, limit, prefix, s).store, prefix, rows)
    ensures Holds(Runs(|rows|, rows, limit, prefix, s).store, prefix, rows)
  {
    hide Holds, Sorted, UniqueIds, Faithful, Runs, StartAfter;
    var m := StoredOnceNear(k, rows, limit, prefix, s);
    var m' := StoredOnceNear(|rows|, rows, limit, prefix, s);
    assert rows[..|rows|] == rows;
    PrefixIsUnique(Runs(k, rows, limit, prefix, s).store, prefix, rows, m, |rows|);
    if rows != [] {
      var late: nat :| late < k && |rows| <= StartAfter(late, rows, limit, prefix, s) + limit;
      SomeRunIsEarly(late, rows, limit, prefix, s);
    }
  }

  lemma SomeRunIsEarly(late: nat, rows: seq<Row>, limit: nat, prefix: string, s: Serializer)
    requires Sorted(rows) && 1 <= limit && rows != []
    requires |rows| <= StartAfter(late, rows, limit, prefix, s) + limit
    ensures exists j: nat | j < |rows| :: |rows| <= StartAfter(j, rows, limit, prefix, s) + limit
  {
    hide Sorted, StartAfter;
    var n := |rows|;
    if forall j: nat | j < n :: StartAfter(j, rows, limit, prefix, s) < n - 1 {
      var starts: seq<nat> := seq(n, j requires 0 <= j < n => StartAfter(j, rows, limit, prefix, s));
      Pigeonhole(starts, n - 1);
      var a, b :| 0 <= a < b < n && starts[a] == starts[b];
      var j := StartsRepeat(late, a, b, rows, limit, prefix, s);
    } else {
      var j: nat :| j < n && n - 1 <= StartAfter(j, rows, limit, prefix, s);
    }
  }

  lemma LosslessKeysGrow(rows: seq<Row>, s: Serializer)
    requires Sorted(rows) && Lossless(s)
    ensures KeysGrow(rows, s)
  {
    forall i, j | 0 <= i <= j < |rows| && rows[i].cursor == s.cursor(rows[j].cursor)
      ensures rows[i].pk <= s.pk(rows[j].pk)
    {
      if i < j { assert Less(KeyOf(rows[i]), KeyOf(rows[j])); }
    }
  }

  /** With a lossless checkpoint as many runs as rows store every result, ties on the cursor
      included. */
  lemma LosslessCompletes(rows: seq<Row>, limit: nat, prefix: string, s: Serializer)
    requires Sorted(rows) && UniqueIds(rows) && Lossless(s) && 1 <= limit
    ensures Holds(Runs(|rows|, rows, limit, prefix, s).store, prefix, rows)
  {
    LosslessKeysGrow(rows, s);
    forall i: nat | i + limit < |rows|
      ensures rows[i].cursor <= s.cursor(rows[i + limit - 1].cursor)
    {
      if limit > 1 { assert Less(KeyOf(rows[i]), KeyOf(rows[i + limit - 1])); }
    }
    hide Holds, Runs, KeysGrow, Sorted;
    CompletesExactly(rows, limit, prefix, s);
    var k: nat :| Holds(Runs(k, rows, limit, prefix, s).store, prefix, rows);
    RunsDecide(k, rows, limit, prefix, s);
  }

  /** Where run `k` starts, computed from the keys alone. */
  function Position(k: nat, rows: seq<Row>, limit: nat, s: Serializer): (start: nat)
    requires 1 <= limit
    ensures start <= |rows|
  {
    if k == 0 then 0 else NextStart(rows, limit, s, Position(k - 1, rows, limit, s))
  }

  lemma {:induction false} RunsFollowPositions(k: nat, rows: seq<Row>, limit: nat, prefix: string, s: Serializer)
    requires Sorted(rows) && 1 <= limit
    ensures StartAfter(k, rows, limit, prefix, s) == Position(k, rows, limit, s)
  {
    hide Sorted, Start, Run, NextStart;
    if k == 0 {
      StartOfNothing(rows);
    } else {
      RunsFollowPositions(k - 1, rows, limit, prefix, s);
      StartMoves(Runs(k - 1, rows, limit, prefix, s), rows, limit, prefix, s);
    }
  }

  /** For every faithful serializer, whatever the keys: some number of runs stores the whole result
      if and only if one of the first |rows| positions is at most `limit` rows from the end. */
  lemma CompletesWhenNear(rows: seq<Row>, limit: nat, prefix: string, s: Serializer)
    requires Sorted(rows) && UniqueIds(rows) && Faithful(s) && 1 <= limit
    ensures (exists k: nat :: Holds(Runs(k, rows, limit, prefix, s).store, prefix, rows))
            <==> rows == [] || exists j: nat | j < |rows| :: |rows| <= Position(j, rows, limit, s) + limit
  {
    hide Holds, Sorted, UniqueIds, Faithful, Runs, StartAfter, Position;
    var m := StoredOnceNear(|rows|, rows, limit, prefix, s);
    assert rows[..|rows|] == rows;
    forall k: nat | Holds(Runs(k, rows, limit, prefix, s).store, prefix, rows)
      ensures m == |rows|
    {
      RunsDecide(k, rows, limit, prefix, s);
      PrefixIsUnique(Runs(|rows|, rows, limit, prefix, s).store, prefix, rows, m, |rows|);
    }
    forall j: nat | j < |rows| && |rows| <= Position(j, rows, limit, s) + limit
      ensures m == |rows|
    {
      RunsFollowPositions(j, rows, limit, prefix, s);
      assert |rows| <= StartAfter(j, rows, limit, prefix, s) + limit;
    }
    if m == |rows| && rows != [] {
      var j: nat :| j < |rows| && |rows| <= StartAfter(j, rows, limit, prefix, s) + limit;
      RunsFollowPositions(j, rows, limit, prefix, s);
      assert |rows| <= Position(j, rows, limit, s) + limit;
    }
  }

  // ---- Few rows to a stored cursor ----

  function SharingCursor(rows: seq<Row>, s: Serializer, v: int): nat {
    if rows == [] then 0
    else (if s.cursor(rows[0].cursor) == v then 1 else 0) + SharingCursor(rows[1..], s, v)
  }

  /** No stored cursor value is shared by as many rows as a page holds. */
  ghost predicate SparseCursors(rows: seq<Row>, s: Serializer, limit: nat) {
    forall v :: SharingCursor(rows, s, v) < limit
  }

  lemma {:induction false} SegmentShares(rows: seq<Row>, s: Serializer, v: int, i: nat, j: nat)
    requires i <= j <= |rows|
    requires forall k | i <= k < j :: s.cursor(rows[k].cursor) == v
    ensures j - i <= SharingCursor(rows, s, v)
  {
    if rows != [] && i < j {
      SegmentShares(rows[1..], s, v, Max(i - 1, 0), j - 1);
    }
  }

  /** A page that leads back begins and ends on one stored cursor. */
  lemma LeadingBackShares(rows: seq<Row>, limit: nat, s: Serializer, i: nat)
    requires Sorted(rows) && Faithful(s) && 1 <= limit && LeadsBack(rows, limit, s, i)
    ensures s.cursor(rows[i].cursor) == s.cursor(rows[i + limit - 1].cursor)
  {
    var e := i + limit - 1;
    assert rows[i].cursor <= rows[e].cursor by { if i < e { assert Less(KeyOf(rows[i]), KeyOf(rows[e])); } }
    var v := s.cursor(rows[e].cursor);
    assert s.cursor(v) <= s.cursor(rows[i].cursor) <= v;
  }

  /** For every faithful serializer and all keys: when no page, except one that ends the result,
      begins and ends on one stored cursor, as many runs as rows store the whole result. */
  lemma MovingPagesComplete(k: nat, rows: seq<Row>, limit: nat, prefix: string, s: Serializer)
    requires Sorted(rows) && UniqueIds(rows) && Faithful(s) && 1 <= limit && |rows| <= k
    requires forall i: nat | i + limit < |rows| :: s.cursor(rows[i].cursor) != s.cursor(rows[i + limit - 1].cursor)
    ensures Holds(Runs(k, rows, limit, prefix, s).store, prefix, rows)
  {
    hide Holds, Sorted, UniqueIds, Faithful, Runs, LeadsBack;
    var n := Reach(rows, limit, s);
    if n < |rows| {
      LeadingBackShares(rows, limit, s, n - limit);
      assert false;
    }
    var m := RunsReach(k, rows, limit, prefix, s);
    assert rows[..m] == rows;
  }

  /** With sparse cursors no page at all begins and ends on one stored cursor. */
  lemma SparsePagesMove(rows: seq<Row>, limit: nat, s: Serializer, i: nat)
    requires Sorted(rows) && Faithful(s) && 1 <= limit && SparseCursors(rows, s, limit) && i + limit <= |rows|
    ensures s.cursor(rows[i].cursor) != s.cursor(rows[i + limit - 1].cursor)
  {
    var e := i + limit - 1;
    var v := s.cursor(rows[e].cursor);
    assert SharingCursor(rows, s, v) < limit;
    if s.cursor(rows[i].cursor) == v {
      forall k | i <= k < e + 1
        ensures s.cursor(rows[k].cursor) == v
      {
        assert rows[i].cursor <= rows[k].cursor by { if i < k { assert Less(KeyOf(rows[i]), KeyOf(rows[k])); } }
        assert rows[k].cursor <= rows[e].cursor by { if k < e { assert Less(KeyOf(rows[k]), KeyOf(rows[e])); } }
        assert s.cursor(rows[i].cursor) <= s.cursor(rows[k].cursor) <= s.cursor(rows[e].cursor);
      }
      SegmentShares(rows, s, v, i, e + 1);
      assert false;
    }
  }

  /** With sparse cursors every run stores at least one row not stored before, until all are. */
  lemma SparseCursorsProgress(k: nat, rows: seq<Row>, limit: nat, prefix: string, s: Serializer)
    returns (m: nat)
    requires Sorted(rows) && UniqueIds(rows) && Faithful(s) && 1 <= limit
    requires SparseCursors(rows, s, limit)
    ensures HoldsPrefix(Runs(k, rows, limit, prefix, s), rows, prefix, m)
    ensures Min(k, |rows|) <= m
    ensures 0 < m ==> Runs(k, rows, limit, prefix, s).ck == Some(StoredKey(rows[m - 1], s))
    ensures m == 0 ==> Runs(k, rows, limit, prefix, s).ck == None
  {
    hide Holds, UniqueIds, Faithful, Sorted, Run, Runs, SparseCursors, LeadsBack;
    m := RunsReach(k, rows, limit, prefix, s);
    var n := Reach(rows, limit, s);
    if limit <= n {
      SparsePagesMove(rows, limit, s, n - limit);
      if LeadsBack(rows, limit, s, n - limit) { LeadingBackShares(rows, limit, s, n - limit); assert false; }
    }
    assert n == |rows|;
  }

  /** As many runs as rows always suffice. */
  lemma SparseCursorsComplete(k: nat, rows: seq<Row>, limit: nat, prefix: string, s: Serializer)
    requires Sorted(rows) && UniqueIds(rows) && Faithful(s) && 1 <= limit
    requires SparseCursors(rows, s, limit) && |rows| <= k
    ensures Holds(Runs(k, rows, limit, prefix, s).store, prefix, rows)
  {
    hide Holds, Sorted, UniqueIds, Faithful, Runs, SparseCursors;
    forall i: nat | i + limit < |rows|
      ensures s.cursor(rows[i].cursor) != s.cursor(rows[i + limit - 1].cursor)
    {
      SparsePagesMove(rows, limit, s, i);
    }
    MovingPagesComplete(k, rows, limit, prefix, s);
  }

  // ---- Results that change between runs ----

  /** Rows came or went above the checkpoint only. */
  ghost predicate ChangedAbove(rows: seq<Row>, rows': seq<Row>, ck: Checkpoint) {
    forall row | !Above(row, ck) :: row in rows <==> row in rows'
  }

  /** A history of runs: the result each run saw, the checkpoint it started from, and the rows it
      emitted. */
  datatype Pass = Pass(rows: seq<Row>, ck: Checkpoint, limit: nat)

  function Emitted(pass: Pass): seq<Row> {
    Page(pass.rows, pass.ck, pass.limit)
  }

  function After(pass: Pass, s: Serializer): Checkpoint {
    NextCheckpoint(Emitted(pass), pass.ck, s)
  }

  function AllEmitted(history: seq<Pass>): seq<Row> {
    if history == [] then []
    else AllEmitted(history[..|history| - 1]) + Emitted(history[|history| - 1])
  }

  ghost predicate IsHistory(history: seq<Pass>, s: Serializer) {
    && (forall k | 0 <= k < |history| :: Sorted(history[k].rows) && 1 <= history[k].limit)
    && (0 < |history| ==> history[0].ck == None)
    && (forall k | 0 < k < |history| ::
          && history[k].ck == After(history[k - 1], s)
          && ChangedAbove(history[k - 1].rows, history[k].rows, history[k].ck))
  }

  lemma PassSkipsNothing(pass: Pass, s: Serializer, row: Row)
    requires Sorted(pass.rows) && Faithful(s)
    requires row in pass.rows && Above(row, pass.ck) && !Above(row, After(pass, s))
    ensures row in Emitted(pass)
  {
    hide Page, Start, Above, Faithful;
    var i, j := Start(pass.rows, pass.ck), End(pass.rows, pass.ck, pass.limit);
    PageIsSegment(pass.rows, pass.ck, pass.limit);
    if i < j { StartIsBehind(pass.rows, j - 1, s); }
    AllAbove(pass.rows, After(pass, s));
    var k :| 0 <= k < |pass.rows| && pass.rows[k] == row;
    assert Emitted(pass)[k - i] == row;
  }

  /** However the result grows above the checkpoint, no row behind the checkpoint was skipped. */
  lemma {:induction false} NothingIsSkipped(history: seq<Pass>, s: Serializer, row: Row)
    requires IsHistory(history, s) && history != [] && Faithful(s)
    requires var last := history[|history| - 1];
             row in last.rows && !Above(row, After(last, s))
    ensures row in AllEmitted(history)
  {
    hide Emitted, After, Faithful, Sorted;
    var last := history[|history| - 1];
    var before := history[..|history| - 1];
    if Above(row, last.ck) {
      PassSkipsNothing(last, s, row);
    } else {
      var previous := before[|before| - 1];
      assert row in previous.rows;
      NothingIsSkipped(before, s, row);
    }
  }

  lemma EmissionContinues(pass: Pass, s: Serializer)
    requires Sorted(pass.rows) && Lossless(s)
    ensures pass.rows[..Start(pass.rows, pass.ck)] + Emitted(pass)
            == pass.rows[..Start(pass.rows, After(pass, s))]
  {
    hide Page, Start, Sorted;
    var i, j := Start(pass.rows, pass.ck), End(pass.rows, pass.ck, pass.limit);
    PageIsSegment(pass.rows, pass.ck, pass.limit);
    if i < j { StartOfRow(pass.rows, j - 1, s); }
  }

  /** With a lossless checkpoint the rows emitted over any history are exactly the rows behind
      the checkpoint, in order and hence each exactly once. */
  lemma {:induction false} EmittedOnceInOrder(history: seq<Pass>, s: Serializer)
    requires IsHistory(history, s) && history != [] && Lossless(s)
    ensures var last := history[|history| - 1];
            AllEmitted(history) == last.rows[..Start(last.rows, After(last, s))]
    ensures Sorted(AllEmitted(history))
  {
    hide Emitted, Start, After, ChangedAbove;
    var last := history[|history| - 1];
    var before := history[..|history| - 1];
    EmissionContinues(last, s);
    if before == [] {
      StartOfNothing(last.rows);
    } else {
      var previous := before[|before| - 1];
      EmittedOnceInOrder(before, s);
      SameBelow(previous.rows, last.rows, last.ck);
    }
  }

  lemma StartOfRow(rows: seq<Row>, k: nat, s: Serializer)
    requires Sorted(rows) && k < |rows| && Lossless(s)
    ensures Start(rows, Some(StoredKey(rows[k], s))) == k + 1
  {
    var ck := Some(StoredKey(rows[k], s));
    AllAbove(rows, ck);
    assert ck.value == KeyOf(rows[k]) && !Above(rows[k], ck);
    if k + 1 < |rows| { assert Above(rows[k + 1], ck); }
  }

  lemma SameBelow(rows: seq<Row>, rows': seq<Row>, ck: Checkpoint)
    requires Sorted(rows) && Sorted(rows') && ChangedAbove(rows, rows', ck)
    ensures rows[..Start(rows, ck)] == rows'[..Start(rows', ck)]
  {
    var a, b := rows[..Start(rows, ck)], rows'[..Start(rows', ck)];
    AllAbove(rows, ck);
    AllAbove(rows', ck);
    forall row
      ensures row in a <==> row in b
    {
      assert row in a <==> row in rows && !Above(row, ck);
      assert row in b <==> row in rows' && !Above(row, ck);
    }
    SortedIsUnique(a, b);
  }

  lemma FirstIsLeast(rows: seq<Row>, row: Row)
    requires Sorted(rows) && row in rows
    ensures row == rows[0] || Less(KeyOf(rows[0]), KeyOf(row))
  {
    var k :| 0 <= k < |rows| && rows[k] == row;
    if 0 < k { assert Less(KeyOf(rows[0]), KeyOf(rows[k])); }
  }

  lemma {:induction false} SortedIsUnique(a: seq<Row>, b: seq<Row>)
    requires Sorted(a) && Sorted(b)
    requires forall row :: row in a <==> row in b
    ensures a == b
  {
    assert a != [] ==> a[0] in a;
    assert b != [] ==> b[0] in b;
    if a != [] {
      FirstIsLeast(a, b[0]);
      FirstIsLeast(b, a[0]);
      assert a[0] == b[0];
      forall row
        ensures row in a[1..] <==> row in b[1..]
      {
        NotTwice(a, row);
        NotTwice(b, row);
      }
      SortedIsUnique(a[1..], b[1..]);
    }
  }

  lemma NotTwice(rows: seq<Row>, row: Row)
    requires Sorted(rows) && rows != []
    ensures row in rows[1..] <==> row in rows && row != rows[0]
  {
    if row in rows[1..] {
      var k :| 0 <= k < |rows| - 1 && rows[1..][k] == row;
      assert Less(KeyOf(rows[0]), KeyOf(rows[k + 1]));
    }
  }

  /** A row that appears at or below a lossless checkpoint is never emitted afterwards: the
      restriction to rows above it is needed. */
  lemma RowsBelowAreLost(rows: seq<Row>, ck: Checkpoint, limit: nat, row: Row)
    requires Sorted(rows) && !Above(row, ck)
    ensures row !in Page(rows, ck, limit)
  {
    PageIsSegment(rows, ck, limit);
    AllAbove(rows, ck);
  }

  lemma LosslessRun(feed: Feed, rows: seq<Row>, limit: nat, prefix: string, s: Serializer)
    requires Sorted(rows) && Lossless(s)
    ensures Start(rows, Run(feed, rows, limit, prefix, s).ck) == End(rows, feed.ck, limit)
    ensures Start(rows, feed.ck) == |rows| ==> Run(feed, rows, limit, prefix, s) == feed
  {
    hide Page, Start, Sorted, Lossless, Run, StoredKey;
    var j := End(rows, feed.ck, limit);
    PageIsSegment(rows, feed.ck, limit);
    RunAfterPage(feed, rows, limit, prefix, s);
    if Start(rows, feed.ck) < j {
      StartOfRow(rows, j - 1, s);
    }
  }

  lemma RunAfterPage(feed: Feed, rows: seq<Row>, limit: nat, prefix: string, s: Serializer)
    ensures var page := Page(rows, feed.ck, limit);
            var next := Run(feed, rows, limit, prefix, s);
            if page == [] then next == feed else next.ck == Some(StoredKey(page[|page| - 1], s))
  {
    hide Page, Absorb, EventsOf;
    EmptyPageKeepsStore(feed.store, prefix);
  }

  /** On an unchanging result of n rows, lossless runs return full pages until n rows are out:
      run k + 1 returns rows exactly when k * limit < n, and no later run changes the feed. */
  lemma {:induction false} LosslessRuns(k: nat, rows: seq<Row>, limit: nat, prefix: string, s: Serializer)
    requires Sorted(rows) && Lossless(s) && 1 <= limit
    ensures var feed := Runs(k, rows, limit, prefix, s);
            && Start(rows, feed.ck) == Min(k * limit, |rows|)
            && Page(rows, feed.ck, limit) == rows[Min(k * limit, |rows|)..Min(k * limit + limit, |rows|)]
            && (|rows| <= k * limit ==> Run(feed, rows, limit, prefix, s) == feed)
  {
    hide Page, Start, Run, Sorted, Lossless;
    PageIsSegment(rows, Runs(k, rows, limit, prefix, s).ck, limit);
    LosslessRun(Runs(k, rows, limit, prefix, s), rows, limit, prefix, s);
    if k == 0 {
      StartOfNothing(rows);
    } else {
      LosslessRuns(k - 1, rows, limit, prefix, s);
      LosslessRun(Runs(k - 1, rows, limit, prefix, s), rows, limit, prefix, s);
      assert k * limit == (k - 1) * limit + limit;
    }
  }

  lemma EmptyPageKeepsStore(store: Store, prefix: string)
    ensures Absorb(store, EventsOf(prefix, [])) == store
  {}

  // ---- Where rounding stalls ----

  /** Two rows in the same millisecond and a page of one row: the second is never reached. */
  lemma RoundingCanStall(n: nat)
    ensures var rows := [Row(1001, 1, "1", ""), Row(1002, 2, "2", "")];
            Holds(Runs(n + 1, rows, 1, "f", DATE_CURSOR).store, "f", rows[..1])
  {
    hide Holds, ToMilliseconds, Start, Sorted, Faithful, Run, Stalls;
    var rows := [Row(1001, 1, "1", ""), Row(1002, 2, "2", "")];
    KnownSerializers();
    TwoRows(rows);
    var m := RunsReach(n + 1, rows, 1, "f", DATE_CURSOR);
    var m' := StallIsPermanent(n + 1, rows, 1, "f", DATE_CURSOR, 0);
    PrefixIsUnique(Runs(n + 1, rows, 1, "f", DATE_CURSOR).store, "f", rows, m, m');
  }

  lemma TwoRows(rows: seq<Row>)
    requires rows == [Row(1001, 1, "1", ""), Row(1002, 2, "2", "")]
    ensures Sorted(rows) && UniqueIds(rows)
    ensures DATE_CURSOR.cursor(rows[0].cursor) < rows[0].cursor
  {
    assert ToMilliseconds(1001) == 1000;
  }

  const SMALL_KEY_BEHIND := [Row(1000, 5, "5", ""), Row(1001, 1, "1", ""), Row(2001, 6, "6", "")]

  /** Why keys have to grow: no row rounds below the first row of its page here, and still a row
      with a smaller key behind a whole millisecond leads pages of two rows back for ever. */
  lemma SmallKeysStall(k: nat)
    ensures !KeysGrow(SMALL_KEY_BEHIND, DATE_CURSOR)
    ensures forall i: nat | i + 2 < 3 ::
              SMALL_KEY_BEHIND[i].cursor <= DATE_CURSOR.cursor(SMALL_KEY_BEHIND[i + 1].cursor)
    ensures !Holds(Runs(k, SMALL_KEY_BEHIND, 2, "f", DATE_CURSOR).store, "f", SMALL_KEY_BEHIND)
  {
    hide Holds, Runs, ToMilliseconds, Start, Faithful;
    var rows := SMALL_KEY_BEHIND;
    MillisecondsOf(1001, 1000);
    assert rows[0].cursor == DATE_CURSOR.cursor(rows[1].cursor) && DATE_CURSOR.pk(rows[1].pk) < rows[0].pk;
    KnownSerializers();
    var m := StoredOnceNear(k, rows, 2, "f", DATE_CURSOR);
    forall j: nat
      ensures StartAfter(j, rows, 2, "f", DATE_CURSOR) == 0
    {
      AlwaysFromTheStart(j);
    }
    assert m < 3 && rows[..3] == rows;
    if Holds(Runs(k, rows, 2, "f", DATE_CURSOR).store, "f", rows) {
      PrefixIsUnique(Runs(k, rows, 2, "f", DATE_CURSOR).store, "f", rows, m, 3);
      assert false;
    }
  }

  lemma {:induction false} AlwaysFromTheStart(j: nat)
    ensures StartAfter(j, SMALL_KEY_BEHIND, 2, "f", DATE_CURSOR) == 0
  {
    hide Start, Run, ToMilliseconds;
    var rows := SMALL_KEY_BEHIND;
    if j == 0 {
      StartOfNothing(rows);
    } else {
      AlwaysFromTheStart(j - 1);
      StartMoves(Runs(j - 1, rows, 2, "f", DATE_CURSOR), rows, 2, "f", DATE_CURSOR);
      MillisecondsOf(1001, 1000);
      assert StoredKey(rows[1], DATE_CURSOR) == Key(1000, 1);
      assert Above(rows[0], Some(Key(1000, 1)));
      NothingBelow(rows, Some(Key(1000, 1)));
    }
  }

  lemma NothingBelow(rows: seq<Row>, ck: Checkpoint)
    requires rows != [] && Above(rows[0], ck)
    ensures Start(rows, ck) == 0
  {}
}
