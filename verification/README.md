# A verified model of Lobu's connectors and client

Lobu's connectors carry data from feeds, databases and browsers into a store, and its client reads
agents' answers from an event stream.  This project models the small pieces of that code whose
correctness is not obvious from reading them, in Dafny, and proves what they are relied on for.
Nothing here executes the original; only its logic is modelled.

`dafny verify dfyconfig.toml` checks everything.

| module | what it models |
|---|---|
| `CivilCalendar`, `WatcherTime` | the proleptic Gregorian calendar of section 21.4.1 of ECMA-262 over unbounded integers, and the watcher windows that are aligned and shifted through UTC date setters that overflow |
| `SqlScanner` | the scanner in front of user-written SQL, and the texts an accepted statement is wrapped into |
| `KeysetSync` | the incremental sync over (cursor, primary key), whose checkpoint goes through a serializer that may round |
| `KeysetQuery` | a reader for the condition and the order of the wrapped query, which ties its text to the sync |
| `EventPump`, `AskSession` | the queue between the SSE callbacks and the reader of `streamEvents`, as interleaved run-to-completion steps, and `ask`, which reads it |
| `UrlGlob` | the glob compiler, four text rewrites in a row, and a reader and matcher for the regular expressions it writes |
| `IpLiterals`, `EgressGuard`, `DbHosts` | IPv6 expansion, the collapse of the spellings of an IPv4 address, CIDR lists, and the hosts of a connection string |
| `StargazerSync`, `ProfileBudget` | stargazer snapshots turned into events, and the profile refresh budget that runs share |
| `ExtensionDriver` | the browser-extension session: a protocol against a dispatcher that may fail at any step |
| `TsLiterals` | the recursive printer of values as TypeScript source, and a reader for its output |
| `RssDedup` | the RSS sync with its memory of 500 ids |
| `TextTools`, `Wrappers` | the JavaScript string operations in use, `Option` and `Result` |

Code that works step by step is a method with loops, or a class where the original updates an
object or shared variables; its contract ties it to a function, and the lemmas are about that
function.  Code made of expressions is a function.

## What the proofs found

Some expectations hold only under a condition.  The code is modelled as it is, and the condition is
proved to be exact.

* Shifting a period there and back is the identity exactly when the month in between has a day of
  that number (`WatcherTime.ShiftThereAndBack`).
* Of any two granularities the second alignment absorbs the first exactly when its start is not
  behind the first one's (`WatcherTime.AbsorbsExactly`).  For weeks against months and quarters that
  is a comparison of days since Monday with days since the first of the month or quarter
  (`WatcherTime.WeeksInMonths`).
* A statement that the SQL scanner accepts is wrapped with the connector's limit in force exactly
  when it leaves no string literal, quoted name, block comment or parenthesis open
  (`SqlScanner.OwnLimitIffNothingLeftOpen`, `SqlScanner.AcceptedLimitedIff`).  An open literal, name
  or comment swallows the limit (`SqlScanner.OpenTextSwallowsLimit`); two texts that pass the gate and
  lose it are `select (1` and `select 'x` (`SqlScanner.OpenParenthesisHidesLimit`,
  `SqlScanner.OpenLiteralHidesLimit`).
* Chained keyset runs store exactly the rows up to the end of the first page, rows i to
  i + `limit` - 1, whose last row is stored with a cursor below that of its first; that the whole
  result is stored means that no page but one at the end is like that
  (`KeysetSync.StoreReachesExactly`, `KeysetSync.CompletesExactly`).  Where no cursor survives
  serialization, these are the pages that begin and end on one stored cursor
  (`KeysetSync.OffGridCompletesExactly`).  Both need keys that grow along equal stored cursors, as
  they do with a serializer that changes every cursor and with a lossless one, with which every sync
  completes (`KeysetSync.LosslessCompletes`); without that, small keys can stall the sync too
  (`KeysetSync.SmallKeysStall`).  For every faithful serializer and all keys, a result without pages
  that begin and end on one stored cursor is stored (`KeysetSync.MovingPagesComplete`), as many runs
  as rows decide (`KeysetSync.RunsDecide`), and the positions that the keys lead to tell how
  (`KeysetSync.CompletesWhenNear`).
* A compiled glob reads back as its tokens exactly when the pattern has no question mark, which
  `compileGlob` leaves unescaped (`UrlGlob.CompiledTextReadsBack`), and on one-line URLs a one-line
  pattern matches what the glob matches exactly then (`UrlGlob.QuestionMarkChangesMeaning`).
* Stargazer events replay to the current listing from every stored snapshot whose keys each have an
  entry with a login that is not made of blanks, and from no other; the checkpoint parse drops
  blank logins (`StargazerSync.ReplayNeedsVisibleLogins`).
* A printed value reads back exactly, up to null becoming undefined, exactly when no multi-line
  string has a carriage return (`TsLiterals.PrintedExactly`).
* The extension session stops its intercept exactly when starting it returned a non-empty id; an
  empty id counts as "never started", though the drains go on under it (`ExtensionDriver.CleansUp`).

## Model

| member | source | states |
|---|---|---|
| CivilCalendar.DayToCivilAndBack | packages/connector-sdk/src/watcher-time.ts:83-98 | Every day number, split into year, month and date as the UTC getters do and put together again, is the same day. |
| CivilCalendar.CivilToDayAndBack | packages/connector-sdk/src/watcher-time.ts:83-98 | Every valid date, its month counted relative to any year, survives the way to a day number and back. |
| CivilCalendar.MonthIsUnique | packages/connector-sdk/src/watcher-time.ts:83-98 | A day between the start of a month and the start of the next is assigned that month and no other. |
| CivilCalendar.MonthLengths | packages/connector-sdk/src/watcher-time.ts:83-98 | Every month of every year has its length in the Gregorian calendar, leap years included, and day 0 is the first of January 1970. |
| CivilCalendar.DateOverflows | packages/connector-sdk/src/watcher-time.ts:92-97 | A date past the end of its month lands in the following month, by exactly the excess. |
| WatcherTime.JsDate.SetUTCDate | packages/connector-sdk/src/watcher-time.ts:87-90 | The date setter moves to the given day counted from the start of the current month, overflowing, and keeps the time of day. |
| WatcherTime.JsDate.SetUTCMonth | packages/connector-sdk/src/watcher-time.ts:93-96 | The month setter moves to the given month counted from January, overflowing, and keeps the time of day. |
| WatcherTime.JsDate.SetUTCMidnight | packages/connector-sdk/src/watcher-time.ts:116 | Setting the hours to zero goes back to the midnight of the same UTC day. |
| WatcherTime.ShiftWatcherPeriod | packages/connector-sdk/src/watcher-time.ts:78-101 | The result is a new date shifted by one period, and the argument is left alone. |
| WatcherTime.AlignToWatcherWindowStart | packages/connector-sdk/src/watcher-time.ts:111-139 | The result is a new date, the latest window start not after the argument. |
| WatcherTime.AlignIsLatestStart | packages/connector-sdk/src/watcher-time.ts:111-139 | For every instant and granularity the aligned instant is a start, not later than the instant, and no start lies in between. |
| WatcherTime.WindowsTile | packages/connector-sdk/src/watcher-time.ts:78-139 | Every instant lies in the window from its aligned start to that start shifted once; the shifted start is the next start, shifting back returns, and alignment is idempotent. |
| WatcherTime.AddVisitsEveryStart | packages/connector-sdk/src/watcher-time.ts:103-105 | Repeated addition from a start visits exactly the starts from there on, each once and in order. |
| WatcherTime.CoarserAbsorbsFiner | packages/connector-sdk/src/watcher-time.ts:111-139 | Coarser alignment after finer alignment is the coarser alignment alone. |
| WatcherTime.AbsorbsExactly | packages/connector-sdk/src/watcher-time.ts:111-139 | For every instant and any two granularities, aligning by the first and then by the second is the second alignment if and only if the second start does not lie behind the first. |
| WatcherTime.WeeksInMonths | packages/connector-sdk/src/watcher-time.ts:118-136 | Weekly alignment against monthly or quarterly, in either order: absorbed if and only if the days since Monday and the days since the first of the month or quarter compare accordingly. |
| WatcherTime.WeeksAndMonthsDoNotNest | packages/connector-sdk/src/watcher-time.ts:118-128 | There are instants at which weekly and monthly alignment do not absorb each other, in either order. |
| WatcherTime.ShiftThereAndBack | packages/connector-sdk/src/watcher-time.ts:78-109 | A shift and its opposite give the instant back if and only if the month in between has a day of that number. |
| WatcherTime.EarlyDaysShiftBack | packages/connector-sdk/src/watcher-time.ts:78-109 | Every instant on day 1 to 28 of its month comes back, for every granularity. |
| SqlScanner.HasTopLevelLimitOrOffset | packages/connectors/src/postgres.ts:156-208 | The index-loop scanner finds a keyword exactly when the character automaton records one at depth zero, on all texts. |
| SqlScanner.KeywordsExactly | packages/connectors/src/postgres.ts:195-204 | The keywords looked for are LIMIT and OFFSET in any case, and no other word. |
| SqlScanner.TextsArePassedOver | packages/connectors/src/postgres.ts:162-184 | A literal, a quoted name, a line comment or a block comment, whatever stands in it, parentheses and keywords included, leaves the automaton as it was. |
| SqlScanner.SkipQuoted | packages/connectors/src/postgres.ts:162-173 | Skipping a quoted literal or name, closed or not, leaves the automaton's findings from there on the same. |
| SqlScanner.SkipBlockComment | packages/connectors/src/postgres.ts:179-184 | Skipping a block comment, closed or not, leaves the automaton's findings the same. |
| SqlScanner.SkipWord | packages/connectors/src/postgres.ts:195-204 | A word is taken whole and counts as a keyword, in any case, at the current depth. |
| SqlScanner.WrappedKeywords | packages/connectors/src/postgres.ts:385-405 | The keywords of a wrapped statement with closed literals and comments are the statement's own, one parenthesis down, and then the connector's, behind the closing parenthesis, also when the statement ends in a line comment. |
| SqlScanner.BalancedStatementsWrapSafely | packages/connectors/src/postgres.ts:385-405 | For every balanced statement with closed literals and comments the wrapped text has exactly one outer LIMIT or OFFSET, the connector's, and the scanner rejects exactly those statements that would limit themselves inside. |
| SqlScanner.OwnLimitIffNothingLeftOpen | packages/connectors/src/postgres.ts:385-405 | Every statement that passes the scanner is wrapped, on the first page as on the next, with exactly one outer limit, the connector's, if and only if it leaves no literal, quoted name or block comment open and no parenthesis. |
| SqlScanner.OpenParenthesisHidesLimit | packages/connectors/src/postgres.ts:229-249 | A concrete text that passes the gate, its literals and comments closed, and whose open parenthesis takes the connector's limit inside. |
| SqlScanner.OpenLiteralHidesLimit | packages/connectors/src/postgres.ts:229-249 | A concrete text that passes the gate and whose open literal takes the connector's limit into itself. |
| SqlScanner.OpenTextSwallowsLimit | packages/connectors/src/postgres.ts:385-405 | Behind a statement that ends inside a literal, quoted name or block comment the connector's limit is not read as a keyword, on the first page as on the next; nor is anything else, unless behind an open quoted name a column is called LIMIT or OFFSET. |
| SqlScanner.AcceptedIsOneStatement | packages/connectors/src/postgres.ts:229-249 | An accepted text is, up to blanks around it, the statement handed on, which is not empty, with at most one semicolon and that one last. |
| SqlScanner.GateExactly | packages/connectors/src/postgres.ts:229-249 | Each of the five rejections holds exactly for its own reason when none before it does, and a text passes exactly when none does: not empty, no semicolon inside, no bind parameter, begun as a query, no outer limit. |
| SqlScanner.StripMeans | packages/connectors/src/postgres.ts:230 | What is checked and handed on is the text without blanks around it and without one final semicolon. |
| SqlScanner.SelectExactly | packages/connectors/src/postgres.ts:238-242 | Begun as a query means: opening parentheses, if any, blanks behind them, then the letters of `select` or `with` in any case, and then the end or a character that is no letter, digit or underscore. |
| SqlScanner.BindsExactly | packages/connectors/src/postgres.ts:235-237 | A bind parameter is a dollar sign before a digit, or a colon before a letter or underscore that does not stand behind another colon. |
| SqlScanner.AcceptedStatementsWrapSafely | packages/connectors/src/postgres.ts:229-249 | End to end, a balanced and closed text that passes the gate is limited by the connector alone, outside and inside, on the first page as on the next; one with its own limit does not pass. |
| SqlScanner.AcceptedLimitedIff | packages/connectors/src/postgres.ts:229-249 | A text that passes the gate is wrapped with the connector's limit in force if and only if it leaves nothing open. |
| KeysetSync.Sync | packages/connectors/src/postgres.ts:385-426 | A run emits the page behind the checkpoint and moves the checkpoint to its last row, or nowhere if there is none. |
| KeysetQuery.QueryAsksForRowsAbove | packages/connectors/src/postgres.ts:398-401 | The condition of the wrapped query, read back from its text for any column names and casts, holds for a row exactly when the row is above the checkpoint passed as its parameters. |
| KeysetQuery.QueryAsksForOrder | packages/connectors/src/postgres.ts:400-403 | Rows are in the order of the query's ORDER BY clause, read back from its text, exactly when they are in the order the sync relies on. |
| KeysetSync.RowLimit | packages/connectors/src/postgres.ts:351 | The limit is the configured one, or 5000, kept within 1 to 50000. |
| KeysetSync.RunExtendsPrefix | packages/connectors/src/postgres.ts:385-426 | With any monotone serializer that rounds down, a run keeps the store, keyed by origin id, a prefix of the result, and the prefix grows if and only if rows are left and fewer than `limit` stored rows lie above the checkpoint. |
| KeysetSync.StoreIsAlwaysPrefix | packages/connectors/src/postgres.ts:385-426 | After any number of chained runs the store is a downward-closed prefix of the (cursor, primary key) order. |
| KeysetSync.SparseCursorsProgress | packages/connectors/src/postgres.ts:385-426 | When fewer than `limit` rows share a rounded cursor, every run stores a new row until all are stored. |
| KeysetSync.MovingPagesComplete | packages/connectors/src/postgres.ts:385-426 | For every faithful serializer and all keys: if no page, but one that ends the result, begins and ends on one stored cursor, as many runs as rows store the whole result. |
| KeysetSync.LosslessCompletes | packages/connectors/src/postgres.ts:385-426 | With a lossless checkpoint as many runs as rows store every result, ties on the cursor included. |
| KeysetSync.SparseCursorsComplete | packages/connectors/src/postgres.ts:385-426 | Then as many runs as there are rows store the whole result. |
| KeysetSync.StallIsPermanent | packages/connectors/src/postgres.ts:283-286 | If the last row of a page that does not end the result is stored with a cursor below that of the page's first row, no number of runs stores anything behind that page. |
| KeysetSync.RunsReach | packages/connectors/src/postgres.ts:385-426 | Every run stores a new row until the first page that leads back to its own start is out. |
| KeysetSync.StoreReachesExactly | packages/connectors/src/postgres.ts:385-426 | With growing keys the store ends with the first page that is stored below its start: never more, at least k rows of it after k runs, and unchanged from as many runs as there are rows. |
| KeysetSync.CompletesExactly | packages/connectors/src/postgres.ts:385-426 | With growing keys some number of runs stores the whole result if and only if no page, but one that ends it, has its last row stored with a cursor below that of its first. |
| KeysetSync.OffGridCompletesExactly | packages/connectors/src/postgres.ts:385-426 | Where no cursor survives serialization: if and only if no page, but one that ends the result, begins and ends on one stored cursor. |
| KeysetSync.RunsDecide | packages/connectors/src/postgres.ts:385-426 | For every faithful serializer, a result that any number of runs stores completely is stored completely by as many runs as it has rows. |
| KeysetSync.CompletesWhenNear | packages/connectors/src/postgres.ts:385-426 | For every faithful serializer and all keys, some number of runs stores the whole result if and only if, among as many positions as rows, computed from the keys alone, one is at most `limit` rows from the end. |
| KeysetSync.SmallKeysStall | packages/connectors/src/postgres.ts:283-286 | Three rows on which keys do not grow: no page is stored below its start, and still the result is never stored. |
| KeysetSync.HoldsIsExact | packages/connectors/src/postgres.ts:494-521 | A store keyed by origin id is determined by the rows it holds. |
| KeysetSync.RoundingCanStall | packages/connectors/src/postgres.ts:283-286 | Two rows within one millisecond and pages of one row: the second row is never reached. |
| KeysetSync.KnownSerializers | packages/connectors/src/postgres.ts:283-286 | Plain cursors are stored without loss; dates are rounded down to milliseconds, monotonically and with loss. |
| KeysetSync.NothingIsSkipped | packages/connectors/src/postgres.ts:385-426 | However the result changes above the checkpoint between runs, every row behind the checkpoint was emitted. |
| KeysetSync.EmittedOnceInOrder | packages/connectors/src/postgres.ts:385-426 | With a lossless checkpoint the rows emitted over any history are exactly those behind the checkpoint, in order, each once, ties on the cursor and rows inserted above the checkpoint included. |
| KeysetSync.RowsBelowAreLost | packages/connectors/src/postgres.ts:388-404 | A row that appears at or below the checkpoint is not returned. |
| KeysetSync.LosslessRuns | packages/connectors/src/postgres.ts:385-426 | On n unchanging rows run k + 1 returns the next full page exactly while k times `limit` is below n, and from then on nothing changes. |
| KeysetSync.OriginIdIsInjective | packages/connectors/src/postgres.ts:494-521 | Equal origin ids under one prefix mean equal primary-key texts. |
| EventPump.EventStream.OnSseError | packages/client/src/rest.ts:104-110 | The error callback is the model's error step: ignored after an abort, otherwise the first error is kept and the reader woken. |
| EventPump.EventStream.OnSseEvent | packages/client/src/rest.ts:111-119 | The event callback is the model's push step, with the default event name. |
| EventPump.EventStream.FinishPump | packages/client/src/rest.ts:122-134 | The end of the pump is the model's end step: done is set, a thrown error kept if it is the first, the reader woken. |
| EventPump.EventStream.Read | packages/client/src/rest.ts:136-148 | The reader between two suspension points is the model's reader step. |
| EventPump.EventsAreConserved | packages/client/src/rest.ts:79-154 | In every interleaving, what was yielded followed by what is queued is exactly what was pushed. |
| EventPump.PushedAsDelivered | packages/client/src/rest.ts:111-118 | In every run each delivered event is pushed in its place with its own data, id, retry time and name; one is called "message" only if it came without a name. |
| EventPump.CallbacksUntilTheEnd | packages/client/src/rest.ts:104-134 | An event, an error or the end of the pump may come at every point of a run until the pump has ended, and at none behind that. |
| EventPump.CallbacksOnlyWake | packages/client/src/rest.ts:84-134 | Callbacks and aborts never move a reader that is not parked; an event or the end of the pump makes a parked one ready. |
| EventPump.ParkedOnlyWhenIdle | packages/client/src/rest.ts:84-87 | A wake callback is installed exactly while the reader is parked, and a parked reader has no event, failure or end waiting for it. |
| EventPump.FirstFailureIsKept | packages/client/src/rest.ts:104-130 | The recorded failure is the first that was not caused by an abort. |
| EventPump.AbortedOnceAsked | packages/client/src/rest.ts:104-107 | The caller may abort at any point of a run; the stream counts as aborted, so that errors are ignored, exactly once the caller has aborted or the reader has left. |
| EventPump.HowTheReaderLeaves | packages/client/src/rest.ts:136-154 | An error is thrown only after everything pushed until then was yielded, and it is the first; a plain return means the pump was done, nothing failed and everything was yielded. |
| EventPump.ReaderCanMove | packages/client/src/rest.ts:136-154 | A reader with an event, a failure or a finished pump before it always has an enabled step. |
| EventPump.StepsCountDown | packages/client/src/rest.ts:136-154 | Once the pump is done every reader step brings the end nearer and no other step puts it off. |
| EventPump.DonePumpDrains | packages/client/src/rest.ts:136-154 | From every run with a finished pump the reader ends by itself, having yielded everything pushed, with the first failure or none. |
| AskSession.Ask | packages/client/src/session.ts:120-172 | Let n be the position of the first settling event. The message is sent at most once, right behind the first `connected` event, exactly when that comes before n; a send that fails is the answer. Otherwise the answer is a reply with the text before n exactly when event n is named `complete`, and that event's agent error exactly when it is named `error` or `agent-error`. Without a settling event it is the failure of the stream, or the abort, the timeout or the early end, in this order. |
| AskSession.SettlingEvents | packages/client/src/session.ts:151-161 | An event settles a message exactly when it completes it, alone or among the processed ones, or is an error of that message. |
| AskSession.AnswerIsFixed | packages/client/src/session.ts:134-171 | Once a terminal event of the message is in the stream, nothing behind it, and neither timer nor abort, changes the answer. |
| AskSession.AnswerFromAnyRun | packages/client/src/session.ts:134-171 | Over every interleaving of the event stream the answer is the one determined by all pushed events, and its text is that of the deltas pushed before the settling event. |
| AskSession.TextSplits | packages/client/src/session.ts:149-150 | The text of any events splits around each event: a delta of the message contributes its content in place, every other event nothing. |
| UrlGlob.CompiledText | packages/connector-sdk/src/browser-network.ts:346-358 | The four rewrites of a pattern without NUL amount to translating its tokens one by one. |
| UrlGlob.CompiledTextReadsBack | packages/connector-sdk/src/browser-network.ts:346-358 | Read as a regular expression, the result is exactly the pattern's tokens if and only if the pattern has no question mark. |
| UrlGlob.MatchIsGlob | packages/connector-sdk/src/browser-network.ts:346-358 | A match of the compiled expression at a position is a glob match of a piece of the URL, where `**` stays within a line. |
| UrlGlob.GlobIsMatch | packages/connector-sdk/src/browser-network.ts:346-358 | A glob match of a piece of any URL, where `**` stays within a line, is a match of the compiled expression. |
| UrlGlob.PatternMatchesSubstrings | packages/connector-sdk/src/browser-network.ts:226-230 | A pattern without NUL and question mark matches a URL, line breaks or not, if and only if some substring of it glob-matches, where `**` stays within a line. |
| UrlGlob.OneLineFinds | packages/connector-sdk/src/browser-network.ts:346-358 | In a URL without line breaks `**` may as well be any run at all. |
| UrlGlob.QuestionMarkChangesMeaning | packages/connector-sdk/src/browser-network.ts:346-358 | A one-line pattern without NUL matches, of all one-line URLs, just those the glob finds if and only if it has no question mark. |
| UrlGlob.LineBreaksStopRuns | packages/connector-sdk/src/browser-network.ts:346-358 | A URL in which the glob is found across a line break and which the compiled pattern does not match. |
| IpLiterals.ExpansionInvertsPrinting | packages/connectors/src/db-egress-guard.ts:116-141 | For every spelling of an IPv6 address by section 2.2 of RFC 4291, full, elided anywhere, or with a dotted tail, in any letter case, expansion returns the eight hextets it denotes. |
| IpLiterals.ZeroRunsMayBeElided | packages/connectors/src/db-egress-guard.ts:135-140 | Any run of one or more zero groups may be written `::` without changing the hextets. |
| EgressGuard.BuildV4List | packages/connectors/src/db-egress-guard.ts:73-77 | The loop lists one rule for every range of the table, in order. |
| EgressGuard.BuildV6List | packages/connectors/src/db-egress-guard.ts:79-87 | The loop lists the unspecified address if asked for, and one rule for every range. |
| EgressGuard.VerdictIsRangeMembership | packages/connectors/src/db-egress-guard.ts:36-103 | The prefix-by-prefix verdict on an IPv4 address is arithmetic membership in one of the policy's ranges. |
| EgressGuard.DottedForm | packages/connectors/src/db-egress-guard.ts:149-232 | The dotted form of an address gets the verdict of its four bytes. |
| EgressGuard.MappedForms | packages/connectors/src/db-egress-guard.ts:162-183 | Both forms behind `::ffff:`, dotted and hexadecimal, get the verdict of the IPv4 address. |
| EgressGuard.Nat64Forms | packages/connectors/src/db-egress-guard.ts:185-195 | Every spelling under 64:ff9b::/96 (section 2.1 of RFC 6052) gets the verdict of the IPv4 address. |
| EgressGuard.CompatibleForms | packages/connectors/src/db-egress-guard.ts:196-210 | Every spelling of the IPv4-compatible form of a value above 1 gets the verdict of the IPv4 address. |
| EgressGuard.AllFormsAgree | packages/connectors/src/db-egress-guard.ts:149-232 | Dotted, mapped, NAT64 and compatible forms of one address are blocked together, namely when the address is in one of the policy's ranges. |
| EgressGuard.V6VerdictIsRangeMembership | packages/connectors/src/db-egress-guard.ts:51-103 | The prefix-by-prefix verdict on eight hextets is whether they are the unspecified address, under block-private the loopback address, or begin with a hextet in one of the policy's ranges. |
| EgressGuard.VerdictOfSpelling | packages/connectors/src/db-egress-guard.ts:149-232 | Every spelling of every IPv6 address that does not begin `::ffff:` is blocked if and only if the address is in one of the policy's ranges, or the IPv4 address it carries is. |
| EgressGuard.SpellingsAgree | packages/connectors/src/db-egress-guard.ts:149-232 | Any two such spellings of one address get the same verdict. |
| EgressGuard.FailsClosed | packages/connectors/src/db-egress-guard.ts:149-232 | For every text, blanks around the address and a zone behind it change nothing; a text that is no address is blocked exactly when it holds a colon, or when nothing but a zone is there, and passes as a host name otherwise. |
| EgressGuard.MappedOrBlocked | packages/connectors/src/db-egress-guard.ts:162-183 | An IPv6 address that begins `::ffff:` and goes on neither with an IPv4 address nor with two groups is blocked. |
| EgressGuard.BlockPrivateIsStricter | packages/connectors/src/db-egress-guard.ts:219-232 | Over all strings, what allow-private blocks, block-private blocks. |
| DbHosts.ExtractionInvertsPrinting | packages/connectors/src/db-egress-guard.ts:289-309 | For every scheme, userinfo, non-empty host list with optional ports and blanks around the entries, and path or query, extraction returns exactly the hosts that are not empty, in order. |
| DbHosts.UserinfoIsDropped | packages/connectors/src/db-egress-guard.ts:295-297 | Whatever stands before the last at-sign, further at-signs included, is dropped from the authority. |
| StargazerSync.SyncStargazers | packages/connectors/src/github.ts:997-1108 | A run walks the pages up to the first empty or short one; over the pages of any listing, whatever follows the last, its entries have the keys of the whole listing and its events take the parsed keys there. |
| StargazerSync.WalkVisitsAll | packages/connectors/src/github.ts:1011-1079 | A listing of any length, cut into pages of 100, is walked completely, once and in order, and nothing behind its last page is. |
| StargazerSync.KeysNameUsers | packages/connectors/src/github.ts:1216-1218 | Two listed users have one key exactly when they have one numeric id, or both none and the same login up to case. |
| StargazerSync.VisitPage | packages/connectors/src/github.ts:1025-1080 | Visiting a page continues the visits of all pages before it, budget included. |
| StargazerSync.RecordDepartures | packages/connectors/src/github.ts:1082-1105 | Every stored user missing from the listing is recorded as departed, in stored order. |
| StargazerSync.RunReplays | packages/connectors/src/github.ts:1002-1107 | One run's events take the keys of the parsed checkpoint to the keys of the listing, duplicates on either side included. |
| StargazerSync.EventsReplayToLatestListing | packages/connectors/src/github.ts:1002-1107 | Over every sequence of listings without blank logins, folding all events from nothing gives the keys of the latest listing, through the checkpoint parse. |
| StargazerSync.ReplayNeedsVisibleLogins | packages/connectors/src/github.ts:1280-1306 | A stored snapshot replays correctly whatever is listed next if and only if each of its keys has an entry whose login is not blank. |
| StargazerSync.CompleteParses | packages/connectors/src/github.ts:1280-1306 | A snapshot whose keys and logins are not blank, as a run writes it from a listing without blank logins, parses back to itself. |
| StargazerSync.ParsedEntriesMean | packages/connectors/src/github.ts:1280-1306 | A stored entry is parsed with all it holds exactly when its login is not blank, and a missing key is made up from its id and login. |
| ProfileBudget.AtMostTheLimit | packages/connectors/src/github.ts:1009-1046 | Profiles fetched and budget left always add up to 25, on any listing. |
| ProfileBudget.RunServesTheDue | packages/connectors/src/github.ts:1009-1117 | Of any listing and any snapshot, however old its profile times, a run fetches exactly the first 25 users in listing order that have no profile time or one at least 30 days back, one profile event each; their entries get the present time and all others keep theirs. |
| ProfileBudget.RunFetches | packages/connectors/src/github.ts:1009-1046 | A run on a complete listing inside the refresh window fetches exactly the lesser of 25 and the number of profiles missing. |
| ProfileBudget.RefreshProgress | packages/connectors/src/github.ts:1009-1117 | After k runs on an unchanging set of n users, in any order, exactly the lesser of n and 25 k profiles have been fetched, each once. |
| ProfileBudget.AllProfilesFetched | packages/connectors/src/github.ts:1009-1117 | All users are covered as soon as 25 k reaches n. |
| ExtensionDriver.ExtensionNetworkSync | packages/connector-sdk/src/extension-network.ts:144-313 | For every dispatcher, the exchanges are a session that follows the script up to the first step that fails or ends it, followed by the cleanup, and the result is that step's error or everything drained; the next rows spell script, ends and errors out. |
| ExtensionDriver.StepsSpelledOut | packages/connector-sdk/src/extension-network.ts:184-288 | Every step is the source's: blank tab, intercept, navigation, then drains with a scroll or the caller's trigger between them, in the opened tab and under the returned id, each behind success of all before it. |
| ExtensionDriver.AuthDecides | packages/connector-sdk/src/extension-network.ts:222-242 | An auth check is asked for the URL the real navigation arrived at: where it refuses, the session ends there with the auth error and nothing drained; where it accepts or is absent, the session goes on to the first drain; so whatever is reported comes from a page that it accepts. |
| ExtensionDriver.WhyItFails | packages/connector-sdk/src/extension-network.ts:184-313 | A run fails exactly when the dispatcher fails a step, the auth check refuses or the caller's parser throws on a drained response; each ends the session at once, with its own error. |
| ExtensionDriver.DrainInto | packages/connector-sdk/src/extension-network.ts:282-312 | A drain appends the items of its responses in order, skips binary and non-JSON bodies, counts all of them, and fails with the first error of the caller's parser. |
| ExtensionDriver.OneResponse | packages/connector-sdk/src/extension-network.ts:292-309 | One response gives nothing if its body is binary or no JSON, and otherwise what the caller's parser makes of its URL and JSON. |
| ExtensionDriver.AllItemsConcat | packages/connector-sdk/src/extension-network.ts:290-312 | The items of two lists of responses in a row are those of the first followed by those of the second, and the first error decides. |
| ExtensionDriver.CleansUp | packages/connector-sdk/src/extension-network.ts:276-333 | An opened tab is closed exactly once, as the last step; the intercept is stopped exactly once, right before, if and only if starting it returned an id; a tab that did not open needs nothing. |
| ExtensionDriver.StartPrecedesNavigation | packages/connector-sdk/src/extension-network.ts:199-228 | The real page is navigated at most once, in the opened tab, and only behind a successful start. |
| ExtensionDriver.DrainsAreBounded | packages/connector-sdk/src/extension-network.ts:240-273 | There is at most one drain more than there are scrolls. |
| ExtensionDriver.ReportIsComplete | packages/connector-sdk/src/extension-network.ts:240-312 | A reported run met no failure; its items are those of all readable responses in drain order, and its count that of all responses. |
| ExtensionDriver.UnreadableAddNothing | packages/connector-sdk/src/extension-network.ts:291-310 | Leaving unreadable responses out changes neither the items nor the failure. |
| ExtensionDriver.ScrollingEnds | packages/connector-sdk/src/extension-network.ts:244-275 | A reported run stopped because a drain behind a scroll brought nothing or no scroll was left. |
| ExtensionDriver.EveryScrollBroughtItems | packages/connector-sdk/src/extension-network.ts:244-273 | Whenever the session goes on behind a scroll's drain, that drain brought items. |
| ExtensionDriver.SessionIsDetermined | packages/connector-sdk/src/extension-network.ts:184-275 | The contract leaves nothing open: two sessions against one dispatcher are the same exchanges. |
| ExtensionDriver.CleanupCannotFail | packages/connector-sdk/src/extension-network.ts:276-333 | Dispatchers that differ only in their answers to stopping and closing give the same outcome. |
| TsLiterals.QuotedRoundTrip | scripts/gen-use-case-data.ts:224 | A string printed as JSON reads back as itself, control characters included. |
| TsLiterals.ReplacementsChain | scripts/gen-use-case-data.ts:222 | The three replacements in a row amount to escaping backslashes, backquotes and the openings of substitutions in one pass. |
| TsLiterals.TemplateReads | scripts/gen-use-case-data.ts:221-223 | A printed template reads back, by section 12.9.6 of ECMA-262, as the string with its line breaks as line feeds. |
| TsLiterals.KeyReads | scripts/gen-use-case-data.ts:242 | A key reads back whether it is printed as a name or quoted. |
| TsLiterals.InlineReads | scripts/gen-use-case-data.ts:231-234 | A one-line array of strings reads back as its strings. |
| TsLiterals.QuotedIsPrintable | scripts/gen-use-case-data.ts:224 | A quoted string holds no control characters, so no line breaks. |
| TsLiterals.OneLineExactly | scripts/gen-use-case-data.ts:229-237 | An array is printed on one line exactly when it is empty, or its items are strings without line feeds whose quoted texts, joined, have fewer than 80 characters. |
| TsLiterals.RoundTrip | scripts/gen-use-case-data.ts:215-248 | For every nested value and every indent, reading the printed text, whatever delimited text follows, gives the value back with nulls as undefined and line breaks of multi-line strings as line feeds, and stops where the value ends. |
| TsLiterals.PrintedExactly | scripts/gen-use-case-data.ts:215-248 | Printing loses no more than null against undefined if and only if no multi-line string has a carriage return. |
| RssDedup.Sync | packages/connectors/src/rss.ts:126-198 | A sync without feeds fails. Any other emits an id exactly when a readable feed lists it and the stored checkpoint, if there is one, does not hold it; each once, as a newest item with that id, newest first. The returned checkpoint has the last 500 of the stored ids followed by the emitted ones, and the date of the first event or, without one, the stored date. |
| RssDedup.Deduplicate | packages/connectors/src/rss.ts:155-176 | The loop keeps the first item of every id that is not remembered, and records the ids in the same order. |
| RssDedup.SortIsStable | packages/connectors/src/rss.ts:152 | The sort orders by date, newest first, keeps every item, and keeps the order of items of one date. |
| RssDedup.EmitsUnremembered | packages/connectors/src/rss.ts:137-176 | On collected items: exactly the ids that the checkpoint does not remember are emitted, each once. |
| RssDedup.EmitsNewest | packages/connectors/src/rss.ts:152-176 | The event of an id is a collected item, and none with that id is newer. |
| RssDedup.EventsDescend | packages/connectors/src/rss.ts:152-188 | Events come newest first, so the recorded date bounds all of them. |
| RssDedup.CheckpointIsWindow | packages/connectors/src/rss.ts:178-188 | After any chain of syncs, each started with what the one before returned, the checkpoint is the last 500 ids ever emitted. |
| RssDedup.CheckpointIsDistinct | packages/connectors/src/rss.ts:178-180 | After any such chain the checkpoint holds at most 500 ids, pairwise distinct. |
| RssDedup.RepeatsAreSpaced | packages/connectors/src/rss.ts:134-188 | In any such chain 500 pairwise distinct other ids lie between two emissions of one id. |
| RssDedup.NextSyncEmits | packages/connectors/src/rss.ts:134-188 | The sync behind any such chain emits an id if and only if a readable feed lists it and it is not among the last 500 emitted. |

## Left out

* HTTP, browsers, the PostgreSQL driver, DNS, clocks and timers: their results are parameters (pages, rows, replies, the present time).
* The other connectors, command-line code, definitions and type-only files: page loops and field mapping.
* Range limits of `Date` and floating point: instants are unbounded integers, and a number is the text `String` makes of it, so -0 is 0.
* UTF-16: characters are Unicode scalar values, so a length counts scalars, and lone surrogates do not occur. This concerns the limit of 80 on one-line arrays.
* `toLowerCase` changes ASCII letters only.
* Field mapping of events: titles, metadata, scores and default links; an event carries what the properties speak of.
* SqlScanner: nested block comments and dollar quotes, which the original scanner does not know either; the live `query()` wrap and the probe; a cast is any one-word type name other than LIMIT and OFFSET, or none, instead of one from the connector's table.
* KeysetSync.CompletesExactly: the condition on single pages is for keys that grow along equal stored cursors; where they do not, a sync's progress depends on the order of the keys inside a rounded cursor, and `CompletesWhenNear` gives the condition on the positions the keys lead to.
* KeysetSync: rows with a null cursor or key, and the row-by-row streaming of the driver.
* KeysetQuery: the reader knows the clauses the connector writes, not SQL; values are compared as numbers, and a cast parameter is the checkpoint's value.
* EventPump: the retry loop of the generated SSE client, whose callbacks are the steps; thrown errors are non-empty values, so that an error is there exactly when it is truthy.
* AskSession: removal of listeners and the token refresh.
* UrlGlob: the regular-expression syntax beyond what `compileGlob` writes; patterns given as regular expressions.
* EgressGuard.MappedForms: speaks of the forms that begin with the text `::ffff:`, which is what the original looks for; any other spelling of a mapped address is for `VerdictOfSpelling`.
* EgressGuard: `assertHostAllowed` and DNS results; `net.isIP` and `net.BlockList` are taken at their documented meaning, zone ids included.
* DbHosts.ExtractionInvertsPrinting: host names and ports without delimiters and blanks; a userinfo without slash and question mark.
* StargazerSync: what a profile event contains, and failed page requests.
* ExtensionDriver: what a custom pagination trigger dispatches on its own; it is one exchange that may fail. The caller's parser and auth check are functions without state. The tab id and a missing session id or response list read as defaults.
* TsLiterals: values that are no JSON data, such as functions and dates; the key `__proto__`, which sets the prototype when the text is evaluated; hexadecimal and octal escapes in the reader, which the printer never writes.
* RssDedup: fetching and parsing feeds, and hashing ids.
