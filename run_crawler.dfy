/** The consumer: records are taken from the crawler's stream oldest first,
    their names registered and translated, and the game synced; at the end
    every known game the run did not sync is marked unavailable. */
module RunCrawler {
  import opened Common
  import opened Dates
  import opened Store
  import opened DbConnection
  import SC = SteamCrawler

  // ---------------------------------------------------------------------
  // sanitize_data
  // ---------------------------------------------------------------------

  /** `[table[n] for n in names]`: None where a name is missing and Python
      raises KeyError. */
  function TranslateNames(names: seq<string>, table: map<string, int>): (ids: Option<seq<int>>)
    ensures ids.Some? <==> forall i :: 0 <= i < |names| ==> names[i] in table
    ensures ids.Some? ==> |ids.value| == |names| && forall i :: 0 <= i < |names| ==> ids.value[i] == table[names[i]]
    decreases |names|
  {
    if names == [] then Some([])
    else if names[0] !in table then None
    else
      match TranslateNames(names[1..], table)
      case Some(rest) => Some([table[names[0]]] + rest)
      case None => None
  }

  /** Whether every name of the record has an id in the translation. */
  predicate Translatable(names: PerKind<seq<string>>, translation: PerKind<map<string, int>>)
  {
    forall k: Kind, n :: n in names.Get(k) ==> n in translation.Get(k)
  }

  lemma TranslatableByKind(names: PerKind<seq<string>>, translation: PerKind<map<string, int>>)
    ensures Translatable(names, translation) <==>
      TranslateNames(names.genres, translation.genres).Some?
      && TranslateNames(names.tags, translation.tags).Some?
      && TranslateNames(names.developers, translation.developers).Some?
      && TranslateNames(names.publishers, translation.publishers).Some?
  {
    forall k: Kind
      ensures (forall n :: n in names.Get(k) ==> n in translation.Get(k)) <==> TranslateNames(names.Get(k), translation.Get(k)).Some?
    {
    }
    var _ := names.Get(Genre);
    var _ := names.Get(Tag);
    var _ := names.Get(Developer);
    var _ := names.Get(Publisher);
  }

  /** The release date as sanitize_data leaves it: converted when it is a
      non-empty string, kept as it is (None or empty) otherwise. */
  function SanitizedDate(d: Option<string>): (r: Option<string>)
    ensures d.Some? && d.value != [] ==>
      (r.Some? <==> ParseSteamDate(d.value).Some?)
      && (r.Some? ==> IsIsoCalendarDate(r.value) && ReadIsoDate(r.value) == ParseSteamDate(d.value).value)
    ensures d.None? || d.value == [] ==> r == d
  {
    if d.Some? && d.value != [] then SteamDateToPostgresDate(d.value) else d
  }

  /** sanitize_data: the four name lists become id lists, available is set
      and the release date normalised; the result is what
      add_or_update_game_info is given. None is the KeyError of a name
      without an id. The source updates the popped dict in place, which
      nothing else refers to, so the update is a new value here. */
  function SanitizeData(data: SC.RawRecord, translation: PerKind<map<string, int>>): (r: Option<GameInfo>)
    ensures r.Some? <==> Translatable(data.detail.names, translation)
    ensures r.Some? ==> forall k: Kind ::
      |r.value.ids.Get(k)| == |data.detail.names.Get(k)|
      && forall i :: 0 <= i < |data.detail.names.Get(k)| ==>
        r.value.ids.Get(k)[i] == translation.Get(k)[data.detail.names.Get(k)[i]]
    ensures r.Some? ==> r.value.row.available && r.value.row.steamId == data.steamId
    ensures r.Some? ==> r.value.row.link == data.link && r.value.row.title == data.main.title
    ensures r.Some? ==> r.value.row.releaseDate == SanitizedDate(data.detail.releaseDate)
    ensures r.Some? ==> r.value.price == data.main.price
    ensures r.Some? ==>
      r.value.row.supportsWin == data.main.supportsWin && r.value.row.supportsMac == data.main.supportsMac
      && r.value.row.supportsLinux == data.main.supportsLinux
    ensures r.Some? ==>
      r.value.row.positiveReviews == data.detail.positiveReviews && r.value.row.totalReviews == data.detail.totalReviews
  {
    var names := data.detail.names;
    TranslatableByKind(names, translation);
    var genres := TranslateNames(names.genres, translation.genres);
    var tags := TranslateNames(names.tags, translation.tags);
    var developers := TranslateNames(names.developers, translation.developers);
    var publishers := TranslateNames(names.publishers, translation.publishers);
    if genres.None? || tags.None? || developers.None? || publishers.None? then None
    else
      var row := Game(
        data.steamId, data.main.title, data.link, true, SanitizedDate(data.detail.releaseDate),
        data.main.supportsWin, data.main.supportsLinux, data.main.supportsMac,
        data.detail.positiveReviews, data.detail.totalReviews);
      Some(GameInfo(row, PerKind(genres.value, tags.value, developers.value, publishers.value), data.main.price))
  }

  // ---------------------------------------------------------------------
  // The consumer loop of main
  // ---------------------------------------------------------------------

  function SteamIds(records: seq<SC.RawRecord>): (ids: seq<int>)
    ensures |ids| == |records| && forall i :: 0 <= i < |records| ==> ids[i] == records[i].steamId
  {
    seq(|records|, i requires 0 <= i < |records| => records[i].steamId)
  }

  /** The ids in order of first appearance, each once. */
  function FirstOccurrences(xs: seq<int>): seq<int>
    decreases |xs|
  {
    if xs == [] then []
    else
      var n := |xs| - 1;
      if xs[n] in xs[..n] then FirstOccurrences(xs[..n]) else FirstOccurrences(xs[..n]) + [xs[n]]
  }

  /** Every id of the stream is synced once and only ids of the stream are. */
  lemma {:induction false} FirstOccurrencesOnce(xs: seq<int>)
    ensures Elems(FirstOccurrences(xs)) == Elems(xs)
    ensures Distinct(FirstOccurrences(xs))
    decreases |xs|
  {
    if xs != [] {
      var n := |xs| - 1;
      FirstOccurrencesOnce(xs[..n]);
      assert xs == xs[..n] + [xs[n]];
      assert Elems(xs) == Elems(xs[..n]) + {xs[n]};
      var p := FirstOccurrences(xs[..n]);
      if xs[n] !in xs[..n] {
        assert Elems(p + [xs[n]]) == Elems(p) + {xs[n]};
        assert xs[n] !in p;
      }
    }
  }

  /** add_or_update_game_info followed, when it returns a game_id, by
      update_game_data with that id: the storage does what the upsert and
      its syncs do, and the snapshot takes the sanitised id lists of that
      game. */
  method SyncInfo(conn: DBConnection, info: GameInfo, f: Faults) returns (id: Option<int>)
    requires conn.Valid()
    modifies conn`db, conn`gameData
    ensures conn.Valid()
    ensures (conn.db, id) == AddOrUpdate(old(conn.db), old(conn.gameData), info, f)
    ensures conn.gameData == if id.Some? then Overwrite(old(conn.gameData), id.value, info.ids) else old(conn.gameData)
    ensures id.None? <==> f.upsertFails
    ensures id.Some? ==>
      conn.db.games == old(conn.db.games)[id.value := info.row]
      && conn.db.gameIds == old(conn.db.gameIds)[info.row.steamId := id.value]
  {
    var t := conn.db;
    id := conn.AddOrUpdateGameInfo(info, f);
    if id.Some? {
      AddOrUpdateRow(t, conn.gameData, info, f);
      conn.UpdateGameData(id.value, info.ids);
    }
  }

  /** sanitize_data, which raises (`crashed`) exactly when a name of the
      record has no id in the translation, then the sync of the sanitised
      record. */
  method SanitizeAndSync(conn: DBConnection, data: SC.RawRecord, f: Faults) returns (crashed: bool, id: Option<int>)
    requires conn.Valid()
    modifies conn`db, conn`gameData
    ensures conn.Valid()
    ensures crashed <==> !Translatable(data.detail.names, conn.translation)
    ensures crashed ==> id.None? && conn.db == old(conn.db) && conn.gameData == old(conn.gameData)
    ensures !crashed ==>
      (conn.db, id) == AddOrUpdate(old(conn.db), old(conn.gameData), SanitizeData(data, conn.translation).value, f)
      && conn.gameData == (if id.Some? then Overwrite(old(conn.gameData), id.value, SanitizeData(data, conn.translation).value.ids) else old(conn.gameData))
      && (id.None? <==> f.upsertFails)
    ensures id.Some? ==>
      id.value in conn.db.games && conn.db.games[id.value].available
      && conn.db.games[id.value].steamId == data.steamId
      && conn.db.games == old(conn.db.games)[id.value := conn.db.games[id.value]]
      && conn.db.gameIds == old(conn.db.gameIds)[data.steamId := id.value]
    ensures id.None? ==> conn.db.games == old(conn.db.games) && conn.db.gameIds == old(conn.db.gameIds)
  {
    var info := SanitizeData(data, conn.translation);
    if info.None? {
      return true, None;
    }
    id := SyncInfo(conn, info.value, f);
    crashed := false;
  }

  /** The body of the loop for one popped record that was not seen before:
      update_translation_data with its names, giving `registered`, then
      sanitize_data and the sync. The game_id the upsert returns is what
      gets recorded. */
  method SyncRecord(conn: DBConnection, data: SC.RawRecord, f: Faults) returns (crashed: bool, id: Option<int>, ghost registered: Tables)
    requires conn.Valid()
    modifies conn`translation, conn`db, conn`gameData
    ensures conn.Valid() && Store.Valid(registered)
    // The registration step: only the name tables change.
    ensures registered.(names := old(conn.db.names), nextName := old(conn.db.nextName)) == old(conn.db)
    ensures forall k: Kind ::
      KindRegistered(old(conn.db), registered, k, MissingNames(data.detail.names, old(conn.translation)).Get(k), k in f.insertFails)
    ensures !AnyMissing(MissingNames(data.detail.names, old(conn.translation))) ==> conn.translation == old(conn.translation)
    ensures AnyMissing(MissingNames(data.detail.names, old(conn.translation))) ==>
      conn.translation == if Reloaded(registered, f.reloadFails).genres != map[] then Reloaded(registered, f.reloadFails) else old(conn.translation)
    // When it crashes.
    ensures crashed <==> !Translatable(data.detail.names, conn.translation)
    ensures (forall k: Kind :: old(conn.translation.Get(k)) == old(conn.db.names.Get(k)))
      && f.insertFails == {} && f.reloadFails == {}
      && (AnyMissing(MissingNames(data.detail.names, old(conn.translation))) ==> registered.names.genres != map[])
      ==> !crashed
    ensures crashed ==> id.None? && conn.db == registered && conn.gameData == old(conn.gameData)
    // The sync step.
    ensures !crashed ==>
      (conn.db, id) == AddOrUpdate(registered, old(conn.gameData), SanitizeData(data, conn.translation).value, f)
      && conn.gameData == (if id.Some? then Overwrite(old(conn.gameData), id.value, SanitizeData(data, conn.translation).value.ids) else old(conn.gameData))
      && (id.None? <==> f.upsertFails)
    ensures id.Some? ==>
      id.value in conn.db.games && conn.db.games[id.value].available
      && conn.db.games[id.value].steamId == data.steamId
      && conn.db.games == old(conn.db.games)[id.value := conn.db.games[id.value]]
      && conn.db.gameIds == old(conn.db.gameIds)[data.steamId := id.value]
    ensures id.None? ==> conn.db.games == old(conn.db.games) && conn.db.gameIds == old(conn.db.gameIds)
  {
    conn.UpdateTranslationData(data.detail.names, f);
    registered := conn.db;
    crashed, id := SanitizeAndSync(conn, data, f);
  }

  /** The integer entries of a record dict, None standing for Python's
      None; its other entries hold text, flags, prices or lists. The keys
      are those the crawler's dicts are built with: `_get_game_info_main`
      (steam_crawler/steam_crawler.py:84-107) sets no integer entry,
      `_get_game_info_detail` (:109-145) sets `total_reviews` and
      `positive_reviews`, and the merge at :150 adds `steam_id`. None of
      them sets `game_id`. */
  function IntEntries(r: SC.RawRecord): map<string, Option<int>>
  {
    map["steam_id" := Some(r.steamId), "total_reviews" := r.detail.totalReviews,
        "positive_reviews" := r.detail.positiveReviews]
  }

  /** The duplicate test of the loop as written, `data['game_id'] in
      processed_game_ids`; None is the KeyError it raises. */
  function SeenAsWritten(r: SC.RawRecord, processed: set<int>): Option<bool>
  {
    if "game_id" in IntEntries(r) && IntEntries(r)["game_id"].Some? then Some(IntEntries(r)["game_id"].value in processed)
    else None
  }

  /** No record carries a `game_id`, so the written test raises on the first
      record popped; the id the record does carry is its steam_id. */
  lemma SeenAsWrittenRaises(r: SC.RawRecord, processed: set<int>)
    ensures SeenAsWritten(r, processed) == None
    ensures IntEntries(r)["steam_id"] == Some(r.steamId)
  {
  }

  /** The j-th record is the first of the stream with its steam_id. */
  predicate FirstAt(records: seq<SC.RawRecord>, j: int)
    requires 0 <= j < |records|
  {
    records[j].steamId !in SteamIds(records)[..j]
  }

  /** What the loop has established after the first i records: the seen
      steam_ids, the games the run synced, and every first occurrence whose
      upsert did not fail mapped to a synced game_id. */
  predicate Drained(known: set<int>, records: seq<SC.RawRecord>, i: int, seen: set<int>, synced: set<int>,
                    db: Tables, faultsAt: nat -> Faults)
    requires 0 <= i <= |records|
  {
    seen == Elems(SteamIds(records)[..i])
    && db.games.Keys == known + synced
    && (forall g :: g in synced ==> g in db.games && db.games[g].available && db.games[g].steamId in seen)
    && (forall j :: 0 <= j < i && FirstAt(records, j) && !faultsAt(j).upsertFails ==>
          records[j].steamId in db.gameIds && db.gameIds[records[j].steamId] in synced)
  }

  lemma FirstOccurrencesStep(xs: seq<int>, x: int)
    ensures FirstOccurrences(xs + [x]) == if x in xs then FirstOccurrences(xs) else FirstOccurrences(xs) + [x]
  {
    assert (xs + [x])[..|xs|] == xs;
  }

  /** One record of the stream handled: a seen steam_id is skipped, a new
      one synced, with a game_id unless its upsert fails. */
  lemma DrainedStep(known: set<int>, records: seq<SC.RawRecord>, i: int, seen: set<int>, synced: set<int>,
                    db: Tables, db': Tables, faultsAt: nat -> Faults, id: Option<int>)
    requires 0 <= i < |records| && Drained(known, records, i, seen, synced, db, faultsAt)
    requires records[i].steamId in seen ==> id.None?
    requires records[i].steamId !in seen && !faultsAt(i).upsertFails ==> id.Some?
    requires id.Some? ==>
      id.value in db'.games && db'.games[id.value].available && db'.games[id.value].steamId == records[i].steamId
      && db'.games == db.games[id.value := db'.games[id.value]]
      && db'.gameIds == db.gameIds[records[i].steamId := id.value]
    requires id.None? ==> db'.games == db.games && db'.gameIds == db.gameIds
    ensures Drained(known, records, i + 1, seen + {records[i].steamId},
      if id.Some? then synced + {id.value} else synced, db', faultsAt)
  {
    var ids := SteamIds(records);
    var synced' := if id.Some? then synced + {id.value} else synced;
    assert ids[..i + 1] == ids[..i] + [records[i].steamId];
    assert Elems(ids[..i + 1]) == Elems(ids[..i]) + {records[i].steamId};
    forall j | 0 <= j < i + 1 && FirstAt(records, j) && !faultsAt(j).upsertFails
      ensures records[j].steamId in db'.gameIds && db'.gameIds[records[j].steamId] in synced'
    {
      if j < i && records[j].steamId == records[i].steamId {
        assert records[i].steamId in Elems(ids[..i]) by { assert ids[..i][j] == records[i].steamId; }
      }
    }
  }

  /** Drained looks only at the games and the game_id of each steam_id. */
  lemma DrainedKeepsGames(known: set<int>, records: seq<SC.RawRecord>, i: int, seen: set<int>, synced: set<int>,
                          db: Tables, db': Tables, faultsAt: nat -> Faults)
    requires 0 <= i <= |records| && Drained(known, records, i, seen, synced, db, faultsAt)
    requires db'.games == db.games && db'.gameIds == db.gameIds
    ensures Drained(known, records, i, seen, synced, db', faultsAt)
  {
  }

  /** What the consumer can change on the connection. */
  datatype Snapshot = Snapshot(translation: PerKind<map<string, int>>, gameData: Cache, db: Tables)

  function StateOf(conn: DBConnection): Snapshot
    reads conn
  {
    Snapshot(conn.translation, conn.gameData, conn.db)
  }

  /** update_translation_data for one record, from `before`: `registered`
      are the tables once its missing names are inserted, which touches
      only the name tables, and `after.translation` the translation it
      leaves. */
  predicate RegisteredBy(before: Snapshot, data: SC.RawRecord, f: Faults, registered: Tables, after: Snapshot)
  {
    var missing := MissingNames(data.detail.names, before.translation);
    && Store.Valid(registered)
    && registered.(names := before.db.names, nextName := before.db.nextName) == before.db
    && (forall k: Kind :: KindRegistered(before.db, registered, k, missing.Get(k), k in f.insertFails))
    && after.translation == (if !AnyMissing(missing) then before.translation
                             else if Reloaded(registered, f.reloadFails).genres != map[] then Reloaded(registered, f.reloadFails)
                             else before.translation)
  }

  /** One record that crashes sanitize_data, from `before` to `after`: its
      names are registered and committed, a name still lacks an id, and
      nothing else is written. */
  predicate CrashedOn(before: Snapshot, data: SC.RawRecord, f: Faults, after: Snapshot)
  {
    && RegisteredBy(before, data, f, after.db, after)
    && !Translatable(data.detail.names, after.translation)
    && after.gameData == before.gameData
  }

  /** One record synced without a crash, from `before` to `after`, with
      `registered` the tables once its names are registered: the steps of
      SyncRecord, each from the state the previous one left. */
  predicate SyncedBy(before: Snapshot, data: SC.RawRecord, f: Faults, registered: Tables, after: Snapshot)
  {
    && RegisteredBy(before, data, f, registered, after)
    && Translatable(data.detail.names, after.translation)
    && var info := SanitizeData(data, after.translation).value;
       var (db, id) := AddOrUpdate(registered, before.gameData, info, f);
       after.db == db && after.gameData == (if id.Some? then Overwrite(before.gameData, id.value, info.ids) else before.gameData)
  }

  /** The states of the connection before each of the first |regs| records
      and after the last of them: a first occurrence of a steam_id moves the
      state by its sync, a repeated one leaves it as it was. */
  predicate History(records: seq<SC.RawRecord>, faultsAt: nat -> Faults, states: seq<Snapshot>, regs: seq<Tables>)
    requires |states| == |regs| + 1 && |regs| <= |records|
  {
    forall j :: 0 <= j < |regs| ==>
      if FirstAt(records, j) then SyncedBy(states[j], records[j], faultsAt(j), regs[j], states[j + 1])
      else states[j + 1] == states[j]
  }

  lemma HistoryStep(records: seq<SC.RawRecord>, faultsAt: nat -> Faults, states: seq<Snapshot>, regs: seq<Tables>,
                    next: Snapshot, registered: Tables)
    requires |states| == |regs| + 1 && |regs| < |records| && History(records, faultsAt, states, regs)
    requires FirstAt(records, |regs|) ==> SyncedBy(states[|regs|], records[|regs|], faultsAt(|regs|), registered, next)
    requires !FirstAt(records, |regs|) ==> next == states[|regs|]
    ensures History(records, faultsAt, states + [next], regs + [registered])
  {
    var states', regs' := states + [next], regs + [registered];
    forall j | 0 <= j < |regs'|
      ensures if FirstAt(records, j) then SyncedBy(states'[j], records[j], faultsAt(j), regs'[j], states'[j + 1])
              else states'[j + 1] == states'[j]
    {
      if j < |regs| {
        assert states'[j] == states[j] && states'[j + 1] == states[j + 1] && regs'[j] == regs[j];
      }
    }
  }

  /** One popped record: skipped when its steam_id was seen, synced
      otherwise. */
  method HandleRecord(conn: DBConnection, data: SC.RawRecord, seen: set<int>, f: Faults)
    returns (attempted: bool, crashed: bool, id: Option<int>, ghost registered: Tables)
    requires conn.Valid()
    modifies conn`translation, conn`db, conn`gameData
    ensures conn.Valid()
    ensures attempted <==> data.steamId !in seen
    ensures !attempted ==> !crashed && id.None? && unchanged(conn)
    ensures attempted && !crashed ==> SyncedBy(old(StateOf(conn)), data, f, registered, StateOf(conn))
    ensures crashed ==> id.None? && !Translatable(data.detail.names, conn.translation)
    ensures crashed ==> CrashedOn(old(StateOf(conn)), data, f, StateOf(conn))
    ensures attempted && !crashed && !f.upsertFails ==> id.Some?
    ensures id.Some? ==>
      id.value in conn.db.games && conn.db.games[id.value].available
      && conn.db.games[id.value].steamId == data.steamId
      && conn.db.games == old(conn.db.games)[id.value := conn.db.games[id.value]]
      && conn.db.gameIds == old(conn.db.gameIds)[data.steamId := id.value]
    ensures id.None? ==> conn.db.games == old(conn.db.games) && conn.db.gameIds == old(conn.db.gameIds)
  {
    attempted, crashed, id, registered := false, false, None, conn.db;
    if data.steamId !in seen {
      attempted := true;
      crashed, id, registered := SyncRecord(conn, data, f);
    }
  }

  /** One iteration of the loop of main: pop the oldest record, skip it if
      its steam_id was seen, otherwise sync it, then mark it seen; `stop`
      is the crash of sanitize_data on a name without an id. */
  method DrainOne(conn: DBConnection, crawler: SC.SteamCrawler, known: set<int>, faultsAt: nat -> Faults,
                  ghost records: seq<SC.RawRecord>, i: nat, seen: set<int>, synced: set<int>,
                  ghost order: seq<int>, ghost states: seq<Snapshot>, ghost regs: seq<Tables>)
    returns (stop: bool, seen': set<int>, synced': set<int>, ghost order': seq<int>,
             ghost states': seq<Snapshot>, ghost regs': seq<Tables>)
    requires conn.Valid() && i < |records| && crawler.datastream == records[i..]
    requires Drained(known, records, i, seen, synced, conn.db, faultsAt)
    requires order == FirstOccurrences(SteamIds(records)[..i])
    requires |states| == i + 1 && |regs| == i && states[i] == StateOf(conn) && History(records, faultsAt, states, regs)
    modifies conn`translation, conn`db, conn`gameData, crawler`datastream
    ensures conn.Valid() && crawler.datastream == records[i + 1..]
    ensures !stop ==>
      Drained(known, records, i + 1, seen', synced', conn.db, faultsAt)
      && order' == FirstOccurrences(SteamIds(records)[..i + 1])
      && states' == states + [StateOf(conn)] && |regs'| == i + 1
      && History(records, faultsAt, states', regs')
    ensures stop ==>
      FirstAt(records, i) && !Translatable(records[i].detail.names, conn.translation)
      && CrashedOn(states[i], records[i], faultsAt(i), StateOf(conn))
      && Drained(known, records, i, seen, synced, conn.db, faultsAt)
      && seen' == seen && synced' == synced && order' == order && states' == states && regs' == regs
  {
    ghost var ids := SteamIds(records);
    ghost var db := conn.db;
    seen', synced', order', states', regs' := seen, synced, order, states, regs;
    var data := crawler.datastream[0];
    crawler.datastream := crawler.datastream[1..];
    assert data == records[i];
    assert ids[..i + 1] == ids[..i] + [data.steamId];
    assert FirstAt(records, i) <==> data.steamId !in seen by { assert seen == Elems(ids[..i]); }
    FirstOccurrencesStep(ids[..i], data.steamId);
    var attempted, id;
    ghost var registered;
    attempted, stop, id, registered := HandleRecord(conn, data, seen, faultsAt(i));
    if stop {
      DrainedKeepsGames(known, records, i, seen, synced, db, conn.db, faultsAt);
      return;
    }
    if attempted {
      order' := order + [data.steamId];
    }
    HistoryStep(records, faultsAt, states, regs, StateOf(conn), registered);
    states', regs' := states + [StateOf(conn)], regs + [registered];
    DrainedStep(known, records, i, seen, synced, db, conn.db, faultsAt, id);
    if id.Some? {
      synced' := synced + {id.value};
    }
    seen' := seen + {data.steamId};
  }

  /** The loop of main over the stream, record by record until it is empty
      or a record crashes sanitize_data; the records after that one stay in
      the stream. `states` are the states of the connection between the
      records handled, and `order` the steam_ids a sync was attempted for. */
  method DrainStream(conn: DBConnection, crawler: SC.SteamCrawler, known: set<int>, faultsAt: nat -> Faults)
    returns (crashed: bool, seen: set<int>, synced: set<int>, ghost order: seq<int>,
             ghost states: seq<Snapshot>, ghost regs: seq<Tables>)
    requires conn.Valid() && conn.db.games.Keys == known
    modifies conn`translation, conn`db, conn`gameData, crawler`datastream
    ensures conn.Valid()
    ensures |states| == |regs| + 1 && |regs| <= |old(crawler.datastream)| && states[0] == old(StateOf(conn))
    ensures History(old(crawler.datastream), faultsAt, states, regs)
    ensures !crashed ==>
      crawler.datastream == []
      && |regs| == |old(crawler.datastream)| && states[|regs|] == StateOf(conn)
      && Drained(known, old(crawler.datastream), |old(crawler.datastream)|, seen, synced, conn.db, faultsAt)
      && order == FirstOccurrences(SteamIds(old(crawler.datastream)))
    ensures crashed ==>
      var j := |old(crawler.datastream)| - |crawler.datastream| - 1;
      0 <= j < |old(crawler.datastream)| && |regs| == j
      && crawler.datastream == old(crawler.datastream)[j + 1..]
      && FirstAt(old(crawler.datastream), j)
      && !Translatable(old(crawler.datastream)[j].detail.names, conn.translation)
      && CrashedOn(states[j], old(crawler.datastream)[j], faultsAt(j), StateOf(conn))
      && Drained(known, old(crawler.datastream), j, seen, synced, conn.db, faultsAt)
      && order == FirstOccurrences(SteamIds(old(crawler.datastream))[..j])
  {
    ghost var records := crawler.datastream;
    seen, synced, order := {}, {}, [];
    states, regs := [StateOf(conn)], [];
    crashed := false;
    var i := 0;
    while crawler.datastream != []
      invariant conn.Valid()
      invariant 0 <= i <= |records| && crawler.datastream == records[i..]
      invariant Drained(known, records, i, seen, synced, conn.db, faultsAt)
      invariant order == FirstOccurrences(SteamIds(records)[..i])
      invariant |states| == i + 1 && |regs| == i && states[0] == old(StateOf(conn)) && states[i] == StateOf(conn)
      invariant History(records, faultsAt, states, regs)
      decreases |crawler.datastream|
    {
      var stop;
      stop, seen, synced, order, states, regs := DrainOne(conn, crawler, known, faultsAt, records, i, seen, synced, order, states, regs);
      if stop {
        assert |records| - |crawler.datastream| - 1 == i;
        return true, seen, synced, order, states, regs;
      }
      i := i + 1;
    }
    assert SteamIds(records)[..i] == SteamIds(records);
  }

  /** The end of main: every known game the run did not sync is marked
      unavailable, the synced ones keep the availability their sync gave;
      only availability changes. `unavailable` is the list given to
      set_unavailable_games. */
  method Finalize(conn: DBConnection, known: set<int>, synced: set<int>, fails: bool) returns (unavailable: seq<int>)
    requires conn.Valid() && conn.db.games.Keys == known + synced
    requires forall g :: g in synced ==> conn.db.games[g].available
    modifies conn`db
    ensures Elems(unavailable) == known - synced && Distinct(unavailable)
    ensures conn.db == MarkUnavailable(old(conn.db), unavailable, fails)
    ensures fails ==> conn.db == old(conn.db)
    ensures conn.Valid() && conn.db.games.Keys == old(conn.db.games.Keys)
    ensures conn.db.(games := old(conn.db.games)) == old(conn.db)
    ensures forall g :: g in conn.db.games ==> conn.db.games[g].steamId == old(conn.db.games[g].steamId)
    ensures !fails ==> forall g :: g in conn.db.games ==> (conn.db.games[g].available <==> g in synced)
    ensures fails ==> conn.db.games == old(conn.db.games)
  {
    unavailable := ListOf(known - synced);
    conn.SetUnavailableGames(unavailable, fails);
    forall g | g in conn.db.games
      ensures !fails ==> (conn.db.games[g].available <==> g in synced)
    {
      assert g in unavailable <==> g in known - synced;
    }
  }

  /** The part of main after the known game ids are loaded: drain the
      stream, then, unless that crashed, mark the known games the run did
      not sync as unavailable. */
  method DrainAndFinalize(conn: DBConnection, crawler: SC.SteamCrawler, known: set<int>, faultsAt: nat -> Faults, finalizeFails: bool)
    returns (outcome: SC.RunOutcome, seen: set<int>, synced: set<int>, unavailable: seq<int>, ghost order: seq<int>,
             ghost states: seq<Snapshot>, ghost regs: seq<Tables>)
    requires conn.Valid() && conn.db.games.Keys == known
    modifies conn`translation, conn`db, conn`gameData, crawler`datastream
    ensures conn.Valid()
    ensures |states| == |regs| + 1 && |regs| <= |old(crawler.datastream)| && states[0] == old(StateOf(conn))
    ensures History(old(crawler.datastream), faultsAt, states, regs)
    ensures outcome == SC.Finished ==>
      crawler.datastream == []
      && |regs| == |old(crawler.datastream)|
      && conn.translation == states[|regs|].translation && conn.gameData == states[|regs|].gameData
      && conn.db.(games := states[|regs|].db.games) == states[|regs|].db
      && Store.Valid(states[|regs|].db) && conn.db == MarkUnavailable(states[|regs|].db, unavailable, finalizeFails)
      && Elems(unavailable) == known - synced && Distinct(unavailable)
      && (finalizeFails ==> conn.db == states[|regs|].db)
      && seen == Elems(SteamIds(old(crawler.datastream)))
      && order == FirstOccurrences(SteamIds(old(crawler.datastream)))
      && conn.db.games.Keys == known + synced
      && (forall g :: g in synced ==> conn.db.games[g].steamId in seen)
      && (forall j :: 0 <= j < |old(crawler.datastream)| && FirstAt(old(crawler.datastream), j) && !faultsAt(j).upsertFails ==>
            old(crawler.datastream)[j].steamId in conn.db.gameIds
            && conn.db.gameIds[old(crawler.datastream)[j].steamId] in synced)
      && (!finalizeFails ==> forall g :: g in conn.db.games ==> (conn.db.games[g].available <==> g in synced))
      && (finalizeFails ==> forall g :: g in synced ==> conn.db.games[g].available)
    ensures outcome == SC.Crashed ==> unavailable == []
    ensures outcome == SC.Crashed ==>
      var j := |old(crawler.datastream)| - |crawler.datastream| - 1;
      0 <= j < |old(crawler.datastream)| && |regs| == j
      && crawler.datastream == old(crawler.datastream)[j + 1..]
      && FirstAt(old(crawler.datastream), j)
      && !Translatable(old(crawler.datastream)[j].detail.names, conn.translation)
      && CrashedOn(states[j], old(crawler.datastream)[j], faultsAt(j), StateOf(conn))
      && Drained(known, old(crawler.datastream), j, seen, synced, conn.db, faultsAt)
      && order == FirstOccurrences(SteamIds(old(crawler.datastream))[..j])
  {
    var crashed;
    crashed, seen, synced, order, states, regs := DrainStream(conn, crawler, known, faultsAt);
    if crashed {
      return SC.Crashed, seen, synced, [], order, states, regs;
    }
    assert SteamIds(old(crawler.datastream))[..|old(crawler.datastream)|] == SteamIds(old(crawler.datastream));
    unavailable := Finalize(conn, known, synced, finalizeFails);
    outcome := SC.Finished;
  }

  /** main, run after the producer: load the known game ids, drain the
      stream, then mark the known games the run did not sync as
      unavailable. `noKnownIds` is a failing get_game_ids, whose None the
      source passes to set() and so stops; `faultsAt(i)` are the storage
      errors met by the i-th popped record and `finalizeFails` that of the
      final update. A crash while draining skips the final update. */
  method RunMain(conn: DBConnection, crawler: SC.SteamCrawler, noKnownIds: bool, faultsAt: nat -> Faults, finalizeFails: bool)
    returns (outcome: SC.RunOutcome, seen: set<int>, synced: set<int>, unavailable: seq<int>, ghost order: seq<int>,
             ghost states: seq<Snapshot>, ghost regs: seq<Tables>)
    requires conn.Valid()
    modifies conn`translation, conn`db, conn`gameData, crawler`datastream
    ensures conn.Valid()
    ensures |states| == |regs| + 1 && |regs| <= |old(crawler.datastream)| && states[0] == old(StateOf(conn))
    ensures History(old(crawler.datastream), faultsAt, states, regs)
    ensures outcome == SC.Crashed ==> unavailable == []
    ensures noKnownIds ==>
      outcome == SC.Crashed && conn.db == old(conn.db) && conn.translation == old(conn.translation)
      && conn.gameData == old(conn.gameData) && crawler.datastream == old(crawler.datastream)
    ensures outcome == SC.Finished ==>
      crawler.datastream == []
      && |regs| == |old(crawler.datastream)|
      && conn.translation == states[|regs|].translation && conn.gameData == states[|regs|].gameData
      && conn.db.(games := states[|regs|].db.games) == states[|regs|].db
      && Store.Valid(states[|regs|].db) && conn.db == MarkUnavailable(states[|regs|].db, unavailable, finalizeFails)
      && Elems(unavailable) == old(conn.db.games.Keys) - synced && Distinct(unavailable)
      && (finalizeFails ==> conn.db == states[|regs|].db)
      && seen == Elems(SteamIds(old(crawler.datastream)))
      && order == FirstOccurrences(SteamIds(old(crawler.datastream)))
      && conn.db.games.Keys == old(conn.db.games.Keys) + synced
      && (forall g :: g in synced ==> conn.db.games[g].steamId in seen)
      && (forall j :: 0 <= j < |old(crawler.datastream)| && FirstAt(old(crawler.datastream), j) && !faultsAt(j).upsertFails ==>
            old(crawler.datastream)[j].steamId in conn.db.gameIds
            && conn.db.gameIds[old(crawler.datastream)[j].steamId] in synced)
      && (!finalizeFails ==> forall g :: g in conn.db.games ==> (conn.db.games[g].available <==> g in synced))
      && (finalizeFails ==> forall g :: g in synced ==> conn.db.games[g].available)
    ensures outcome == SC.Crashed && !noKnownIds ==>
      var j := |old(crawler.datastream)| - |crawler.datastream| - 1;
      0 <= j < |old(crawler.datastream)| && |regs| == j
      && crawler.datastream == old(crawler.datastream)[j + 1..]
      && FirstAt(old(crawler.datastream), j)
      && !Translatable(old(crawler.datastream)[j].detail.names, conn.translation)
      && CrashedOn(states[j], old(crawler.datastream)[j], faultsAt(j), StateOf(conn))
      && Drained(old(conn.db.games.Keys), old(crawler.datastream), j, seen, synced, conn.db, faultsAt)
      && order == FirstOccurrences(SteamIds(old(crawler.datastream))[..j])
  {
    var knownIds := conn.GetGameIds(noKnownIds);
    if knownIds.None? {
      return SC.Crashed, {}, {}, [], [], [StateOf(conn)], [];
    }
    outcome, seen, synced, unavailable, order, states, regs := DrainAndFinalize(conn, crawler, Elems(knownIds.value), faultsAt, finalizeFails);
  }
}
