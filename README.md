# Steam parser: crawler, sync engine and run loop

A model of the core of a Steam store scraper and its PostgreSQL sync engine.

- **The crawler** (`SteamCrawler`) walks the top-sellers listing 50 games per page, and page *i* is fetched at offset `50*i`. It reads each game's steam id from the third-last `/`-separated part of its URL. For every game whose page parses it appends a record to `datastream`, and it counts every game it attempted in `games_processed`. A game whose page lacks an element is skipped by the corrected handler; as written, that handler aborts the page when no earlier game on it parsed (Findings).
- **The sync engine** (`DBConnection`) works on the database and two caches:
  - it keeps `translation_data`, a cache of the four attribute tables (genres, tags, developers, publishers) from name to id;
  - it keeps `game_data`, a cache of each game's attribute ids per kind;
  - it registers attribute names a record brings that are not yet known, then reloads the translation. The reloaded translation is adopted only when its genre table is non-empty;
  - it upserts a game on `steam_id` and gets `game_id` back;
  - it syncs each association table by a set difference against the cached ids;
  - it appends a price row only when the price differs from the latest one;
  - at the end of a run it flags as unavailable the games the run did not sync.
- **The run loop** (`run_crawler.main`) does the rest:
  - it drains the crawler's stream and skips a steam id it has already handled;
  - it registers names and then sanitises the record: names become ids, the date becomes an ISO date, and `available` is set;
  - it upserts the record and refreshes the cache;
  - finally it marks the games that were known before the run but not synced as unavailable.

The model has five parts:

- **The database** is one value, `Store.Tables`, and each storage operation is a pure function on it. A storage error is an explicit flag: the failing statement is not committed and leaves the tables as they were.
- **Objects that mutate fields** are Dafny classes with `modifies` frames: `DBConnection` (its caches and its database) and `SteamCrawler` (its stream and counters). Each method's `ensures` ties the new state to those functions.
- **The network** is a parameter `fetch` from URL to response. A response is a failure or a list of entries, and each entry is parsed, missing an element, or failing a number conversion.
- **Storage failures** are a `Faults` value per record.
- **The date parser** `steam_date_to_postgres_date` and the URL and offset arithmetic are pure functions, with round-trip lemmas.

Modules: `Common` (kinds, options, sets and sequences), `Text` (digits, `split`, whitespace words, `replace`), `Dates`, `Store`, `DbConnection`, `Search` (the filter list of `search_games`), `SteamCrawler` and `RunCrawler`.

These are the decisions where the source cannot run as written:

- **Duplicate skipping.** `main` tests and records `data['game_id']`, but records carry no `game_id`, so that lookup raises on the first record (Findings). The model keys the skip on `steam_id`.
- **The `update_game_data` call.** It passes one argument where two are needed. The model calls it with the `game_id` the upsert returned, and skips it when the upsert returned `None`.
- **Finalisation.** Unavailability is computed from the pre-run `games.game_id`s minus the returned `game_id`s. That is what the sets are meant to be in the same id space.
- **A `get_game_ids` failure.** It returns `None`, and then `set(None)` raises; `RunMain` reports that as `Crashed` with nothing changed.
- **An empty list passed to `set_unavailable_games`.** The SQL `IN ()` is then malformed and the statement fails. No row changes either way, so the model treats it as a no-op.
- **A failed link write.** The cache (`update_game_data`) is overwritten even when the association write fails. Coherence of cache and table is therefore proved only for the kinds whose write did not fail (`Store.SyncKeepsCoherence`).

## Model

| member | source | states |
|---|---|---|
| Common.ListOf | run_crawler.py:71 | the list built from a set holds exactly that set's elements, each once |
| Text.Split | steam_crawler/steam_crawler.py:82 | `split` yields at least one part and no part contains the separator |
| Text.SplitJoin | steam_crawler/steam_crawler.py:82 | splitting a join of separator-free parts gives the parts back |
| Text.JoinSplit | steam_crawler/steam_crawler.py:82 | joining the parts of a split gives the string back |
| Text.NatToStringRoundTrip | steam_crawler/steam_crawler.py:61 | the decimal rendering of `num*50` reads back as that number |
| Text.ParseInt | steam_crawler/steam_crawler.py:82 | `int()` of a run of ASCII digits is their value, with a leading `-` its negation and `+` ignored; anything else is None |
| Text.ParseIntOfString | steam_crawler/steam_crawler.py:82 | `int()` of a rendered natural number is that number |
| Text.Words | run_crawler.py:20 | whitespace `split()` yields non-empty words free of whitespace |
| Text.ReplaceSingle | steam_crawler/steam_crawler.py:61 | replacing a placeholder that occurs once substitutes exactly that occurrence and leaves the rest |
| Dates.MonthOf | run_crawler.py:8 | `%b` accepts only the twelve English abbreviations and returns the month they name |
| Dates.YearOf | run_crawler.py:8 | `%Y` takes exactly four digits, so the text is the year padded to four digits |
| Dates.QuarterStart | run_crawler.py:21-27 | Q1-Q4 give months 1, 4, 7, 10, and the label is `Q` followed by the quarter's number; any other label is a KeyError |
| Dates.DayMonthYearWords | run_crawler.py:8 | on a text without leading or trailing whitespace: a date exactly when its three words spell it, as a `%d` day, the month's abbreviation with its comma, and the four-digit year of a real date |
| Dates.ParseDayMonthYear | run_crawler.py:8 | the `%d %b, %Y` parse gives a date exactly when the text is trimmed, or has the one leading space of `%d`'s ` [1-9]` alternative before a lone digit, and its words spell a real calendar date (day within its month, leap years); any whitespace run separates words |
| Dates.ParseMonthYear | run_crawler.py:14 | the `%b %Y` parse gives a date exactly when the trimmed text's two words are a month's abbreviation and a four-digit year, and the date is the first of that month |
| Dates.ParseQuarter | run_crawler.py:19-29 | the quarter parse gives a date exactly when the text's two words are a quarter label `Q1`-`Q4` and a four-digit year, and the date is the first day of that quarter (month 1, 4, 7 or 10) |
| Dates.MonthYearIsNoQuarter | run_crawler.py:13-29 | no text parses both as month and year and as quarter and year |
| Dates.ParseSteamDate | run_crawler.py:6-33 | the result is present exactly when one of the three formats parses; no two formats both parse, so the result is the one that did, and it is a real date |
| Dates.IsoDateRoundTrip | run_crawler.py:9 | the `%Y-%m-%d` rendering of a valid date is well formed and reads back as that date |
| Dates.SteamDateToPostgresDate | run_crawler.py:6-33 | the result is present exactly when one of the three formats parses, and it is the ISO form of the parsed date |
| Dates.FullDateParses | run_crawler.py:8-9 | "D Mon, YYYY" converts to its ISO date exactly when the date exists (31 Feb gives None) |
| Dates.MonthYearParses | run_crawler.py:14-15 | "Mon YYYY" converts to the first of that month (year 0 gives None) |
| Dates.ZeroPaddedDayParses | run_crawler.py:8-9 | a day below 10 written with a leading zero ("07 Mar, 2021") gives that date |
| Dates.LeadingSpaceDayParses | run_crawler.py:8-9 | a lone-digit day after one leading space (" 5 Mar, 2021") gives that date |
| Dates.WideMonthYearParses | run_crawler.py:14-15 | "Mon  YYYY" with a run of spaces gives the first of that month |
| Dates.QuarterParses | run_crawler.py:19-29 | "Qn YYYY" converts to the first day of the quarter's first month |
| Dates.OtherWordCountsGiveNone | run_crawler.py:20 | a string of neither two nor three words converts to None |
| Dates.OtherLabelsGiveNone | run_crawler.py:27 | two words whose first is neither a month nor Q1-Q4 convert to None |
| Store.Missing | db_connection/db_connection.py:458-461 | the new names of a kind are exactly the record's names absent from the translation |
| Store.DiffIsExact | db_connection/db_connection.py:492-494 | to-add and to-remove are disjoint and turn the old id set into the new one |
| Store.SyncLinks | db_connection/db_connection.py:488-516 | no statement is issued exactly when old and new sets agree; a failure leaves the table; rows of other games never change |
| Store.SyncIgnoresDuplicates | db_connection/db_connection.py:492-494 | the sync depends only on the sets of old and new ids, not on order or repetition |
| Store.StoredAfterUpdate | db_connection/db_connection.py:497-507 | after the insert and the delete a game's stored ids are (stored − removed) + added |
| Store.SyncReachesNewSet | db_connection/db_connection.py:497-510 | from a table agreeing with the cache, the sync fails only on a storage error, and otherwise leaves exactly the new ids stored |
| Store.SyncAgainIsNoOp | db_connection/db_connection.py:509-510 | syncing to the ids already held issues nothing and commits nothing |
| Store.AppendPrice | db_connection/db_connection.py:617-623 | a row is appended exactly when the store works and the price differs from the latest (or there is none); history is only extended |
| Store.PriceTwiceOneRow | db_connection/db_connection.py:617 | recording the same price twice adds one row |
| Store.PriceStep | db_connection/db_connection.py:605-627 | only this game's price history changes, and by the append rule |
| Store.PriceStepLatest | db_connection/db_connection.py:617 | a price equal to the latest row changes nothing |
| Store.Upsert | db_connection/db_connection.py:633-652 | a known steam_id keeps its game_id, a new one gets a fresh one; the row replaces that game's row; the steam_id/game_id bijection holds |
| Store.UpsertSameRow | db_connection/db_connection.py:636-646 | upserting the row already stored changes nothing and returns its game_id |
| Store.Overwrite | db_connection/db_connection.py:482-486 | the cache of every kind maps the game to its new ids and keeps every other entry |
| Store.SyncAll | db_connection/db_connection.py:656-663 | each kind's table is synced from the cached ids (empty when absent) to the record's ids |
| Store.SyncAllFromCurrent | db_connection/db_connection.py:656-663 | when the cache already holds the record's ids, no table changes |
| Store.CachedIsStored | db_connection/db_connection.py:656 | under coherence the cached ids `Cached` reads for a game (`.get(game_id, [])`, the empty list for an unseen game) are exactly its stored ids |
| Store.AddOrUpdate | db_connection/db_connection.py:630-671 | the upsert failing returns None with nothing changed; otherwise a game_id is returned |
| Store.AddOrUpdateRow | db_connection/db_connection.py:633-652 | after a successful upsert the game's row is the record's row under its (old or fresh) game_id, and the steam_id maps to that game_id; no other row or mapping changes |
| Store.AddOrUpdateLinks | db_connection/db_connection.py:656-664 | the four link tables and the price history change exactly by their syncs; attribute tables are untouched |
| Store.SyncKeepsCoherence | db_connection/db_connection.py:656-663 | a kind whose write did not fail stays coherent with the cache once it is overwritten with the record's ids |
| Store.ResyncIsNoOp | db_connection/db_connection.py:630-671 | processing the same record again, with the refreshed cache, changes nothing and returns the same game_id |
| Store.MarkUnavailable | db_connection/db_connection.py:674-687 | exactly the listed games become unavailable unless the store fails; nothing else changes |
| DbConnection.GroupByGame | db_connection/db_connection.py:349-360 | the grouped map lists, for each game with rows, exactly its ids, each once |
| DbConnection.GroupedIsCoherent | db_connection/db_connection.py:21-26 | a freshly grouped cache agrees with its table |
| DbConnection.LoadKind | db_connection/db_connection.py:349-360 | a failed load gives the empty map, otherwise the grouping of the table |
| DbConnection.LoadSnapshot | db_connection/db_connection.py:21-26 | each kind's cache is empty if its load failed, otherwise its table grouped by game |
| DbConnection.Reloaded | db_connection/db_connection.py:297-347 | a reloaded translation is each kind's name table, or {} where its getter failed |
| DbConnection.AssignIds | db_connection/db_connection.py:429-441 | the inserted names get distinct fresh serial ids and existing names keep theirs |
| DbConnection.MissingNames | db_connection/db_connection.py:458-461 | per kind, the new names are those the translation lacks |
| DbConnection.RegisteredCoversRecord | db_connection/db_connection.py:457-470 | after registering the missing names without failure, every name of the record is in the tables |
| DbConnection.DBConnection.constructor | db_connection/db_connection.py:14-26 | the translation is the reloaded name tables and each cache is coherent with its table unless its load failed |
| DbConnection.DBConnection.AddNames | db_connection/db_connection.py:401-455 | exactly the given names are registered in one kind's table, unless the batch is refused |
| DbConnection.DBConnection.RegisterMissing | db_connection/db_connection.py:463-470 | each kind registers its new names independently; nothing but the name tables changes |
| DbConnection.DBConnection.UpdateTranslationData | db_connection/db_connection.py:457-480 | the missing names get registered; the translation is reloaded only if something was new and kept only if genres are non-empty; then every name of the record translates |
| DbConnection.DBConnection.UpdateGameData | db_connection/db_connection.py:482-486 | the cache is overwritten for this game in all four kinds |
| DbConnection.DBConnection.ProcessGameLinks | db_connection/db_connection.py:488-603 | only the one association table changes, exactly by its sync |
| DbConnection.DBConnection.ProcessGamePrice | db_connection/db_connection.py:605-627 | the tables change exactly by the price step |
| DbConnection.DBConnection.AddOrUpdateGameInfo | db_connection/db_connection.py:630-671 | the tables and the returned id are those of the add-or-update function over the current cache |
| DbConnection.DBConnection.SetUnavailableGames | db_connection/db_connection.py:674-687 | the tables change exactly by the unavailability update |
| DbConnection.DBConnection.GetGameIds | db_connection/db_connection.py:285-295 | None exactly on a storage error, otherwise every game_id once |
| Search.BuildStep | db_connection/db_connection.py:186-249 | testing one more criterion extends the lists exactly when it is supplied |
| Search.AddIfSupplied | db_connection/db_connection.py:186-249 | appending a condition when supplied keeps the lists exact up to that criterion |
| Search.AddScalarFilters | db_connection/db_connection.py:186-204 | the title, price, year and score conditions appear exactly when supplied, in order |
| Search.AddListFilters | db_connection/db_connection.py:207-249 | the four name-list conditions appear exactly when their list is non-empty, in order |
| Search.BuildFilters | db_connection/db_connection.py:183-249 | one condition per supplied criterion and no other, in fixed order, each with its own parameter |
| Search.WhereClause | db_connection/db_connection.py:251 | the clause is empty exactly when there are no conditions and otherwise starts with WHERE |
| SteamCrawler.GameIdOf | steam_crawler/steam_crawler.py:82 | an id is read only from a URL of at least three `/`-separated parts, and it is `int()` of the third-last part; a URL without `/` gives none |
| SteamCrawler.GetGameIds | steam_crawler/steam_crawler.py:81-82 | ids are produced exactly when every URL's third-last part is an integer, one per URL in order |
| SteamCrawler.AppUrlId | steam_crawler/steam_crawler.py:82 | a store URL `…/app/ID/slug/…` yields ID |
| SteamCrawler.ScrollPageOffset | steam_crawler/steam_crawler.py:60-61 | page num's URL is the listing URL with start = 50·num and nothing else changed |
| SteamCrawler.StartRequestIsFirstPage | steam_crawler/steam_crawler.py:170 | the start request is the URL of page 0 |
| SteamCrawler.PageCount | steam_crawler/steam_crawler.py:175 | total // 50 + 1 pages for a non-negative total, none for a negative one |
| SteamCrawler.PagesCoverTotal | steam_crawler/steam_crawler.py:174-175 | the pages requested span the total count, with at most one extra page |
| SteamCrawler.Collect | steam_crawler/steam_crawler.py:157-167 | a page aborts exactly when some game fails a number conversion; otherwise it has at most one record per game |
| SteamCrawler.ParsedIndices | steam_crawler/steam_crawler.py:157-162 | the positions of the games that parsed, each once, increasing, and every parsed game's position among them |
| SteamCrawler.CollectYieldsParsed | steam_crawler/steam_crawler.py:150-162 | a page that goes through yields exactly its parsed games, in page order, each record with that game's parsed fields, its own URL as `link` and its own id as `steam_id` |
| SteamCrawler.PageOutcomeMeaning | steam_crawler/steam_crawler.py:152-167 | get_games_info aborts exactly when the fetch fails, an id cannot be read or a game fails a number conversion; otherwise its records are the parsed games in page order, each with its own URL and the id that URL gives |
| SteamCrawler.CountedUpToAbort | steam_crawler/steam_crawler.py:158-166 | the loop counts every game, or the games up to and including the first that fails a number conversion |
| SteamCrawler.CountedPrefix | steam_crawler/steam_crawler.py:158-166 | the games before the first failing one are counted one each |
| SteamCrawler.Counted | steam_crawler/steam_crawler.py:152-166 | nothing is counted when the page aborts before its loop; all its games when it goes through |
| SteamCrawler.CollectRecordsMatchUrls | steam_crawler/steam_crawler.py:158-162 | every record's link yields its steam_id, and there are no more records than games |
| SteamCrawler.FirstMissingAbortsPage | steam_crawler/steam_crawler.py:163-164 | as written, a missing element on the page's first game aborts the page; the corrected handler skips that game |
| SteamCrawler.AsWrittenOkIsIntended | steam_crawler/steam_crawler.py:158-164 | whenever the handler as written lets the page through, its records are those of the corrected handler |
| SteamCrawler.AsWrittenAgreesAfterParse | steam_crawler/steam_crawler.py:158-167 | once one game parsed, the handler as written and the corrected one agree |
| SteamCrawler.FirstAbort | steam_crawler/steam_crawler.py:175-177 | the first aborting page found among pages 0..n−1 is below n and aborts |
| SteamCrawler.FirstAbortStep | steam_crawler/steam_crawler.py:175-177 | while no page has aborted, the next page is the first to abort exactly when it aborts |
| SteamCrawler.FirstAbortStays | steam_crawler/steam_crawler.py:175-177 | later pages do not change the first aborting page |
| SteamCrawler.FirstAbortIsFirst | steam_crawler/steam_crawler.py:175-177 | every page before the first aborting one, and every page when none aborts, goes through |
| SteamCrawler.FetchedStep | steam_crawler/steam_crawler.py:176-177 | a page that succeeds extends the stream by its records and the counter by its game count |
| SteamCrawler.SteamCrawler.constructor | steam_crawler/steam_crawler.py:13-15 | empty stream, nothing processed, total 1 |
| SteamCrawler.SteamCrawler.CollectEntries | steam_crawler/steam_crawler.py:157-167 | the page's records, which on success are exactly its parsed games in page order with their own URLs and ids; the counter grows by the games counted up to the abort, so on success by every game and on an abort up to the first failing game |
| SteamCrawler.SteamCrawler.GetGamesInfo | steam_crawler/steam_crawler.py:152-167 | the page outcome, whose records on success are exactly the parsed games in page order with their own URLs and the ids read from them; the counter grows by the page's counted games; a failed fetch or an unreadable id aborts before any game is counted |
| SteamCrawler.SteamCrawler.FetchPage | steam_crawler/steam_crawler.py:176-177 | it reports success exactly when the page goes through; then its records are appended and its games counted; on an abort the stream is unchanged and the games counted before the abort stay counted |
| SteamCrawler.SteamCrawler.FetchPages | steam_crawler/steam_crawler.py:175-177 | it returns the first aborting page, if any; the stream and counter hold all pages, or the pages before the aborting one plus that page's counted games |
| SteamCrawler.SteamCrawler.Run | steam_crawler/steam_crawler.py:169-177 | a failed start changes nothing; otherwise total is set; a finished run went through every page, and the stream and counter hold all of them; a crashed run stopped at the first aborting page, holding the pages before it and that page's counted games |
| RunCrawler.TranslateNames | run_crawler.py:37-40 | translation succeeds exactly when every name is known, mapping each name in order |
| RunCrawler.TranslatableByKind | run_crawler.py:37-40 | a record translates exactly when each of its four lists does |
| RunCrawler.SanitizedDate | run_crawler.py:46-47 | a non-empty date becomes its ISO conversion (None when unparseable); an absent or empty one is kept |
| RunCrawler.SanitizeData | run_crawler.py:36-48 | defined exactly when all names translate; ids translate pointwise; the row is available; steam id, title, link, price, platform flags and review counts are kept; the date is sanitised |
| RunCrawler.FirstOccurrencesOnce | run_crawler.py:59-67 | the processing order covers every steam id of the stream exactly once |
| RunCrawler.SeenAsWrittenRaises | run_crawler.py:61 | as written (`SeenAsWritten`), the duplicate test raises for every record; only steam_id identifies it |
| RunCrawler.SyncInfo | run_crawler.py:65-66 | the tables and the id are those of add-or-update over the cache; the cache is overwritten for the returned game_id; no id exactly when the upsert fails |
| RunCrawler.SanitizeAndSync | run_crawler.py:64-66 | it crashes exactly when a name has no id; otherwise the sync of the sanitised record, with no id exactly when the upsert fails |
| RunCrawler.SyncRecord | run_crawler.py:63-66 | the names are registered as update_translation_data does; it crashes exactly when a name still has no id, which cannot happen when translation and tables agreed and no storage step failed; otherwise the sanitised record is synced, its game available under its steam_id and no other game changed |
| RunCrawler.HandleRecord | run_crawler.py:59-67 | a sync is attempted exactly when the steam_id was not seen; a seen one changes nothing; an attempted one crashes only when its names do not translate, otherwise moves the connection by the registration and sync of that record, and gets a game_id unless its upsert fails; a crash leaves the connection with that record's names registered and committed, the translation as the reload left it, and the cache and every other table untouched |
| RunCrawler.DrainedStep | run_crawler.py:59-67 | handling one more record keeps the loop invariant, including the game_id of every first occurrence whose upsert succeeded |
| RunCrawler.HistoryStep | run_crawler.py:59-67 | one more record extends the history of connection states: a first occurrence by its sync, a repeat by no change |
| RunCrawler.DrainOne | run_crawler.py:59-67 | one popped record: the stream loses its head; unless it crashes, the loop invariant, the first-occurrence order and the state history all extend by that record; a crash is at a first occurrence whose names do not translate, with the loop state kept and the connection moved by that record's name registration alone |
| RunCrawler.DrainStream | run_crawler.py:58-67 | the states between records form a history in which a repeated steam_id leaves the connection unchanged and a first occurrence moves it by exactly its sync; a finished drain empties the stream, sees every steam id, attempts each once in first-seen order, and maps each first occurrence whose upsert succeeded to a synced game_id; a crash is at the first occurrence of a record whose names do not translate, with the records after it left in the stream and the connection moved from the last history state by that record's name registration alone |
| RunCrawler.Finalize | run_crawler.py:71-72 | the list passed to set_unavailable_games holds each known game not synced this run once; the tables become MarkUnavailable of that list, so only those games' availability changes and every other field and table is kept; a failing update changes nothing; unless it fails, afterwards a game is available exactly when it was synced this run |
| RunCrawler.DrainAndFinalize | run_crawler.py:58-73 | the drain history as in DrainStream; when it finishes, the tables are MarkUnavailable, from the last history state, of a list holding each known game not synced once, leaving available exactly the synced games unless the update fails, in which case they are the last history state's; a crash passes no list and leaves the connection moved by the crashing record's name registration alone, so the final update does not run |
| RunCrawler.RunMain | run_crawler.py:51-73 | no known ids crashes with nothing changed; otherwise the drain history holds (a repeated steam_id changes nothing, a first occurrence is synced); a finished run drains the stream, adds only synced games, maps every steam id whose upsert succeeded to a synced game, and leaves available exactly the synced ones; a finished run's tables are MarkUnavailable, from the last history state, of the known games not synced, each listed once; any other crash is a record whose names do not translate, after which the connection is where that record's name registration left it and the final update does not run |

## Left out

- The crawler and the run loop are concurrent under asyncio, and the loop's `games_processed < total_games` condition is not modelled. The model runs the consumer over the stream the producer left, so it drains everything.
- HTTP fetching, the age gate, BeautifulSoup parsing and `json.loads` are outside the model. A page fetch is the `fetch` parameter, and each game's parse is an outcome: parsed, a missing element (AttributeError) or a bad number (ValueError from `int`/`float`).
- Prices are floats in the source. The model uses integer hundredths, so the `!=` comparison at db_connection.py:617 is exact.
- `CURRENT_TIMESTAMP` is modelled as position: each game's price history is ordered oldest first.
- psycopg2's aborted-transaction state, commit granularity and foreign keys are outside the model. A failing statement changes nothing, and faults are an oracle per record and statement.
- The percent-escaping of the search query, the SQL text itself, sorting, and executing the query are outside the model. `Search` models only the filter and parameter lists. `get_game_info`, `get_game_prices` and the other read-only query methods are not part of this model.
- run_server.py is not part of this model.
- `strptime` is modelled case-sensitively and with ASCII whitespace only. `int()` is modelled as an optional sign followed by ASCII digits; its leniences (surrounding whitespace, digit-group underscores, non-ASCII digits) are left out.
- `print` and logging calls are left out: they have no effect on state.
- The merge `{**main, **detail, "steam_id": id}` is a record constructor, because its parts have disjoint keys.
- `sanitize_data` mutates the popped dict in place. It is a value update in the model, since nothing else refers to that dict.
- RunMain: the per-record faults are shared between the translation update and the upsert of that record.
- Dates.FullDateParses: it converts the canonical form only, single spaces and a day without a leading zero. The other spellings `%d %b, %Y` accepts are covered by the iff contract of Dates.ParseDayMonthYear, with Dates.ZeroPaddedDayParses and Dates.LeadingSpaceDayParses as instances.
- Store.SyncLinks: the association tables are taken to have a unique constraint on (game_id, attribute id), so they are sets of pairs; the schema is not part of this model.
- DbConnection.DBConnection.AddNames: the attribute tables are taken to have unique names, so a batch holding a name already in the table is refused as a whole, as a failing insert is (`InsertRefused`); the schema is not part of this model.

## Findings

| source | as written | input that shows it | evidently intended | confidence | as-written member | corrected member |
|---|---|---|---|---|---|---|
| steam_crawler/steam_crawler.py:163-164 | the AttributeError handler prints `game_info['title']`, where `game_info` is bound only by an earlier successful parse, so the handler itself raises UnboundLocalError and the page's whole `get_games_info` call aborts | a scroll page whose first game's detail page lacks an expected element (for example an age-gate page) | report the game and skip it, continuing with the rest of the page | not executed | SteamCrawler.FirstMissingAbortsPage | SteamCrawler.SteamCrawler.CollectEntries |
| run_crawler.py:61 | the duplicate test reads `data['game_id']`, a key no crawler record has, so it raises KeyError on the first record drained | any non-empty stream | skip records whose `steam_id` was already handled | not executed | RunCrawler.SeenAsWrittenRaises | RunCrawler.DrainStream |
