/** The relational tables written by the sync engine, held as one value, and
    the effect of each storage operation on them. A storage error is an
    explicit `fails` flag: the failing statement is not committed and leaves
    its table as it was. */
module Store {
  import opened Common

  /** A row of `games`. `steamId` is the natural key the upsert conflicts on. */
  datatype Game = Game(
    steamId: int,
    title: string,
    link: string,
    available: bool,
    releaseDate: Option<string>,
    supportsWin: bool,
    supportsLinux: bool,
    supportsMac: bool,
    positiveReviews: Option<int>,
    totalReviews: Option<int>)

  /** A price observation, in hundredths of the currency unit rather than as
      a float. Its timestamp is its position in the game's history. */
  datatype Price = Price(withoutDiscount: int, withDiscount: int)

  /** A sanitised record as add_or_update_game_info receives it: the scalar
      fields, the four id lists and the two prices. */
  datatype GameInfo = GameInfo(row: Game, ids: PerKind<seq<int>>, price: Price)

  /** The database. `names` are the four attribute tables (name to serial id,
      next serial in `nextName`); `gameIds` is the unique index from steam_id
      to game_id over `games`; `links` are the four association tables of
      (game_id, attribute id) pairs; `prices` is price_history per game,
      oldest first. */
  datatype Tables = Tables(
    names: PerKind<map<string, int>>,
    nextName: PerKind<int>,
    gameIds: map<int, int>,
    games: map<int, Game>,
    nextGame: int,
    links: PerKind<set<(int, int)>>,
    prices: map<int, seq<Price>>)

  /** Serial ids lie below their sequence, and steam_id and game_id are in
      one-to-one correspondence. */
  predicate Valid(t: Tables)
  {
    (forall k: Kind, n :: n in t.names.Get(k) ==> t.names.Get(k)[n] < t.nextName.Get(k))
    && (forall s :: s in t.gameIds ==> t.gameIds[s] in t.games && t.games[t.gameIds[s]].steamId == s)
    && (forall g :: g in t.games ==> g < t.nextGame && t.games[g].steamId in t.gameIds && t.gameIds[t.games[g].steamId] == g)
  }

  // ---------------------------------------------------------------------
  // Attribute registration (add_genres, add_tags, add_developers,
  // add_publishers and the reload in update_translation_data)
  // ---------------------------------------------------------------------

  /** The names of a record not yet known for one kind. */
  function Missing(names: seq<string>, known: map<string, int>): (m: set<string>)
    ensures forall n :: n in m <==> n in names && n !in known
  {
    Elems(names) - known.Keys
  }

  /** `after` is `before` with exactly the names `added` added, each with its
      own id drawn from the sequence between `next0` and `next1`. */
  predicate Registered(before: map<string, int>, after: map<string, int>, added: set<string>, next0: int, next1: int)
  {
    after.Keys == before.Keys + added
    && (forall n :: n in before ==> after[n] == before[n])
    && (forall n :: n in added ==> next0 <= after[n] < next1)
    && (forall n, m :: n in added && m in added && n != m ==> after[n] != after[m])
  }

  /** A batch insert of names fails as a whole when the store fails or when it
      would violate the uniqueness of attribute names. */
  predicate InsertRefused(known: map<string, int>, added: set<string>, fails: bool)
  {
    fails || added * known.Keys != {}
  }

  // ---------------------------------------------------------------------
  // Association sync (_process_game_genres and its three copies)
  // ---------------------------------------------------------------------

  datatype Status = Unchanged | Committed | Failed

  /** The attribute ids stored for game `g` in one association table. */
  function Stored(links: set<(int, int)>, g: int): set<int>
  {
    set p | p in links && p.0 == g :: p.1
  }

  function Pairs(g: int, ids: set<int>): set<(int, int)>
  {
    set a | a in ids :: (g, a)
  }

  function ToAdd(oldIds: seq<int>, newIds: seq<int>): set<int>
  {
    Elems(newIds) - Elems(oldIds)
  }

  function ToRemove(oldIds: seq<int>, newIds: seq<int>): set<int>
  {
    Elems(oldIds) - Elems(newIds)
  }

  /** The two differences never share an id, and applying them to the old
      set gives the new one. */
  lemma DiffIsExact(oldIds: seq<int>, newIds: seq<int>)
    ensures ToAdd(oldIds, newIds) * ToRemove(oldIds, newIds) == {}
    ensures (Elems(oldIds) - ToRemove(oldIds, newIds)) + ToAdd(oldIds, newIds) == Elems(newIds)
  {
  }

  /** One association table after syncing game `g` from `oldIds` (the cached
      set) to `newIds`: nothing is issued when both differences are empty;
      otherwise the insert of the additions, then the delete of the
      removals, then the commit; a failing insert or delete (including a
      duplicate pair) commits nothing. */
  function SyncLinks(links: set<(int, int)>, g: int, oldIds: seq<int>, newIds: seq<int>, fails: bool): (r: (set<(int, int)>, Status))
    ensures r.1 == Unchanged <==> Elems(oldIds) == Elems(newIds)
    ensures r.1 == Failed ==> fails || ToAdd(oldIds, newIds) * Stored(links, g) != {}
    ensures r.1 != Committed ==> r.0 == links
    ensures forall p :: p in links && p.0 != g ==> p in r.0
    ensures forall p :: p in r.0 && p.0 != g ==> p in links
  {
    var add := ToAdd(oldIds, newIds);
    var remove := ToRemove(oldIds, newIds);
    if add == {} && remove == {} then (links, Unchanged)
    else if fails || add * Stored(links, g) != {} then (links, Failed)
    else ((links - Pairs(g, remove)) + Pairs(g, add), Committed)
  }

  /** Duplicates and order in the id lists make no difference. */
  lemma SyncIgnoresDuplicates(links: set<(int, int)>, g: int, old1: seq<int>, new1: seq<int>, old2: seq<int>, new2: seq<int>, fails: bool)
    requires Elems(old1) == Elems(old2) && Elems(new1) == Elems(new2)
    ensures SyncLinks(links, g, old1, new1, fails) == SyncLinks(links, g, old2, new2, fails)
  {
  }

  lemma StoredAfterUpdate(links: set<(int, int)>, g: int, remove: set<int>, add: set<int>)
    ensures Stored((links - Pairs(g, remove)) + Pairs(g, add), g) == (Stored(links, g) - remove) + add
  {
    var after := (links - Pairs(g, remove)) + Pairs(g, add);
    forall a
      ensures a in Stored(after, g) <==> a in (Stored(links, g) - remove) + add
    {
      if a in Stored(after, g) {
        var p :| p in after && p.0 == g && p.1 == a;
        assert p == (g, a);
      }
      if a in add {
        assert (g, a) in Pairs(g, add);
      }
      if a in Stored(links, g) - remove {
        var p :| p in links && p.0 == g && p.1 == a;
        assert p == (g, a);
        assert p !in Pairs(g, remove);
      }
    }
  }

  /** When the table holds exactly the cached set for the game, the sync
      fails only by a store error, and otherwise leaves exactly the new set. */
  lemma SyncReachesNewSet(links: set<(int, int)>, g: int, oldIds: seq<int>, newIds: seq<int>, fails: bool)
    requires Stored(links, g) == Elems(oldIds)
    ensures SyncLinks(links, g, oldIds, newIds, fails).1 == Failed <==> fails && Elems(oldIds) != Elems(newIds)
    ensures SyncLinks(links, g, oldIds, newIds, fails).1 != Failed ==> Stored(SyncLinks(links, g, oldIds, newIds, fails).0, g) == Elems(newIds)
  {
    var add, remove := ToAdd(oldIds, newIds), ToRemove(oldIds, newIds);
    assert add * Stored(links, g) == {};
    StoredAfterUpdate(links, g, remove, add);
    DiffIsExact(oldIds, newIds);
  }

  /** Syncing to a set and then syncing again from that set issues nothing. */
  lemma SyncAgainIsNoOp(links: set<(int, int)>, g: int, newIds: seq<int>, fails: bool)
    ensures SyncLinks(links, g, newIds, newIds, fails) == (links, Unchanged)
  {
  }

  // ---------------------------------------------------------------------
  // Price history (_process_game_price)
  // ---------------------------------------------------------------------

  function PricesOf(t: Tables, g: int): seq<Price>
  {
    if g in t.prices then t.prices[g] else []
  }

  /** The history after observing `p`: a row is appended only when there is
      none yet or the latest one differs in either component. */
  function AppendPrice(history: seq<Price>, p: Price, fails: bool): (r: seq<Price>)
    ensures |r| > |history| <==> !fails && (history == [] || history[|history| - 1] != p)
    ensures |history| <= |r| <= |history| + 1 && r[..|history|] == history
    ensures !fails ==> |r| > 0 && r[|r| - 1] == p
  {
    if fails || (history != [] && history[|history| - 1] == p) then history else history + [p]
  }

  /** Observing the same pair twice leaves a single row for it. */
  lemma PriceTwiceOneRow(history: seq<Price>, p: Price, fails: bool)
    ensures AppendPrice(AppendPrice(history, p, false), p, fails) == AppendPrice(history, p, false)
  {
  }

  function PriceStep(t: Tables, g: int, p: Price, fails: bool): (r: Tables)
    ensures r.(prices := t.prices) == t
    ensures PricesOf(r, g) == AppendPrice(PricesOf(t, g), p, fails)
    ensures forall h :: h != g ==> PricesOf(r, h) == PricesOf(t, h)
  {
    var after := AppendPrice(PricesOf(t, g), p, fails);
    if after == PricesOf(t, g) then t else t.(prices := t.prices[g := after])
  }

  // ---------------------------------------------------------------------
  // Game upsert (add_or_update_game_info) and the snapshot cache
  // ---------------------------------------------------------------------

  /** INSERT ... ON CONFLICT (steam_id) DO UPDATE ... RETURNING game_id. */
  function Upsert(t: Tables, row: Game): (r: (Tables, int))
    requires Valid(t)
    ensures Valid(r.0)
    ensures row.steamId in t.gameIds ==> r.1 == t.gameIds[row.steamId]
    ensures row.steamId !in t.gameIds ==> r.1 !in t.games
    ensures r.0.games == t.games[r.1 := row]
    ensures r.0.gameIds == t.gameIds[row.steamId := r.1]
    ensures r.0.names == t.names && r.0.nextName == t.nextName
    ensures r.0.links == t.links && r.0.prices == t.prices
  {
    if row.steamId in t.gameIds then
      var g := t.gameIds[row.steamId];
      (t.(games := t.games[g := row]), g)
    else
      var g := t.nextGame;
      (t.(games := t.games[g := row], gameIds := t.gameIds[row.steamId := g], nextGame := g + 1), g)
  }

  /** The snapshot cache: per kind, game_id to the id list last synced. */
  type Cache = PerKind<map<int, seq<int>>>

  /** The old set read for a game, the empty list when the game is unseen. */
  function Cached(cache: Cache, k: Kind, g: int): seq<int>
  {
    if g in cache.Get(k) then cache.Get(k)[g] else []
  }

  /** update_game_data: overwrite one game's entry in each kind. */
  function Overwrite(cache: Cache, g: int, ids: PerKind<seq<int>>): (c: Cache)
    ensures forall k: Kind :: c.Get(k) == cache.Get(k)[g := ids.Get(k)]
  {
    PerKind(
      cache.genres[g := ids.genres],
      cache.tags[g := ids.tags],
      cache.developers[g := ids.developers],
      cache.publishers[g := ids.publishers])
  }

  /** Storage failures a sync can meet, per step. */
  datatype Faults = Faults(
    insertFails: set<Kind>,
    reloadFails: set<Kind>,
    upsertFails: bool,
    linkFails: set<Kind>,
    priceFails: bool)

  /** The four association syncs. The source runs them one after another
      (genres, tags, publishers, developers); each reads and writes only its
      own table, so they are given side by side. */
  function SyncAll(links: PerKind<set<(int, int)>>, cache: Cache, g: int, ids: PerKind<seq<int>>, linkFails: set<Kind>): (r: PerKind<set<(int, int)>>)
    ensures forall k: Kind :: r.Get(k) == SyncLinks(links.Get(k), g, Cached(cache, k, g), ids.Get(k), k in linkFails).0
  {
    PerKind(
      SyncKind(links, cache, g, ids, linkFails, Genre),
      SyncKind(links, cache, g, ids, linkFails, Tag),
      SyncKind(links, cache, g, ids, linkFails, Developer),
      SyncKind(links, cache, g, ids, linkFails, Publisher))
  }

  /** One kind's association table after its sync. */
  function SyncKind(links: PerKind<set<(int, int)>>, cache: Cache, g: int, ids: PerKind<seq<int>>, linkFails: set<Kind>, k: Kind): set<(int, int)>
  {
    SyncLinks(links.Get(k), g, Cached(cache, k, g), ids.Get(k), k in linkFails).0
  }

  /** add_or_update_game_info: the upsert, then genres, tags, publishers and
      developers against the cached sets, then the price; the game_id, or
      None when the upsert fails. */
  function AddOrUpdate(t: Tables, cache: Cache, info: GameInfo, f: Faults): (r: (Tables, Option<int>))
    requires Valid(t)
    ensures Valid(r.0)
    ensures r.1.None? <==> f.upsertFails
    ensures r.1.None? ==> r.0 == t
  {
    if f.upsertFails then (t, None)
    else
      var (t1, g) := Upsert(t, info.row);
      var t2 := t1.(links := SyncAll(t1.links, cache, g, info.ids, f.linkFails));
      (PriceStep(t2, g, info.price, f.priceFails), Some(g))
  }

  /** A successful upsert keeps the game_id of a known steam_id, gives a new
      steam_id a game_id no other row has, overwrites the row and records
      the steam_id's game_id; the other rows stay as they were. */
  lemma AddOrUpdateRow(t: Tables, cache: Cache, info: GameInfo, f: Faults)
    requires Valid(t) && !f.upsertFails
    ensures AddOrUpdate(t, cache, info, f).1.Some?
    ensures var (r, g) := AddOrUpdate(t, cache, info, f);
      && (info.row.steamId in t.gameIds ==> g.value == t.gameIds[info.row.steamId])
      && (info.row.steamId !in t.gameIds ==> g.value !in t.games)
      && r.games == t.games[g.value := info.row]
      && r.gameIds == t.gameIds[info.row.steamId := g.value]
  {
  }

  /** The association tables and price history the upsert leaves. */
  lemma AddOrUpdateLinks(t: Tables, cache: Cache, info: GameInfo, f: Faults)
    requires Valid(t) && !f.upsertFails
    ensures var (r, g) := AddOrUpdate(t, cache, info, f);
      && (forall k: Kind :: r.links.Get(k) == SyncLinks(t.links.Get(k), g.value, Cached(cache, k, g.value), info.ids.Get(k), k in f.linkFails).0)
      && PricesOf(r, g.value) == AppendPrice(PricesOf(t, g.value), info.price, f.priceFails)
      && (forall h :: h != g.value ==> PricesOf(r, h) == PricesOf(t, h))
      && r.names == t.names && r.nextName == t.nextName
  {
  }

  /** The cache agrees with one association table: a cached entry holds
      exactly the stored set, and a game with stored pairs is cached. */
  predicate CoherentKind(t: Tables, cache: Cache, k: Kind)
  {
    (forall g :: g in cache.Get(k) ==> Elems(cache.Get(k)[g]) == Stored(t.links.Get(k), g))
    && (forall p :: p in t.links.Get(k) ==> p.0 in cache.Get(k))
  }

  predicate Coherent(t: Tables, cache: Cache)
  {
    forall k: Kind :: CoherentKind(t, cache, k)
  }

  lemma CachedIsStored(t: Tables, cache: Cache, k: Kind, g: int)
    requires CoherentKind(t, cache, k)
    ensures Stored(t.links.Get(k), g) == Elems(Cached(cache, k, g))
  {
    if g !in cache.Get(k) {
      assert forall p :: p in t.links.Get(k) ==> p.0 != g;
    }
  }

  /** After a successful upsert and the cache overwrite that follows it, the
      cache still agrees with every association table whose write did not
      fail; the failing kind is the only place the two can part. */
  lemma SyncKeepsCoherence(t: Tables, cache: Cache, info: GameInfo, f: Faults, k: Kind)
    requires Valid(t) && !f.upsertFails
    requires CoherentKind(t, cache, k) && k !in f.linkFails
    ensures var (r, g) := AddOrUpdate(t, cache, info, f);
      CoherentKind(r, Overwrite(cache, g.value, info.ids), k)
  {
    AddOrUpdateLinks(t, cache, info, f);
    var (r, g) := AddOrUpdate(t, cache, info, f);
    var gid := g.value;
    var before := t.links.Get(k);
    var after := r.links.Get(k);
    assert after == SyncLinks(before, gid, Cached(cache, k, gid), info.ids.Get(k), false).0;
    CachedIsStored(t, cache, k, gid);
    SyncReachesNewSet(before, gid, Cached(cache, k, gid), info.ids.Get(k), false);
    var c := Overwrite(cache, gid, info.ids);
    forall h | h in c.Get(k)
      ensures Elems(c.Get(k)[h]) == Stored(after, h)
    {
      if h != gid {
        assert Stored(after, h) == Stored(before, h);
      }
    }
  }

  /** Upserting the row a steam_id already has changes nothing. */
  lemma UpsertSameRow(t: Tables, row: Game)
    requires Valid(t) && row.steamId in t.gameIds && t.games[t.gameIds[row.steamId]] == row
    ensures Upsert(t, row) == (t, t.gameIds[row.steamId])
  {
    var g := t.gameIds[row.steamId];
    assert t.games[g := row] == t.games;
  }

  /** Syncing every kind from the set just cached changes no table. */
  lemma SyncAllFromCurrent(links: PerKind<set<(int, int)>>, cache: Cache, g: int, ids: PerKind<seq<int>>, linkFails: set<Kind>)
    requires forall k: Kind :: Cached(cache, k, g) == ids.Get(k)
    ensures SyncAll(links, cache, g, ids, linkFails) == links
  {
    var r := SyncAll(links, cache, g, ids, linkFails);
    forall k: Kind
      ensures r.Get(k) == links.Get(k)
    {
      SyncAgainIsNoOp(links.Get(k), g, ids.Get(k), k in linkFails);
    }
    assert r.genres == links.Get(Genre) && r.tags == links.Get(Tag);
    assert r.developers == links.Get(Developer) && r.publishers == links.Get(Publisher);
  }

  /** Observing the latest price again changes nothing. */
  lemma PriceStepLatest(t: Tables, g: int, p: Price, fails: bool)
    requires PricesOf(t, g) != [] && PricesOf(t, g)[|PricesOf(t, g)| - 1] == p
    ensures PriceStep(t, g, p, fails) == t
  {
  }

  /** Syncing a record again, right after it was synced and cached, changes
      no table, whatever the second attempt meets: every difference is empty
      and the latest price already matches. */
  lemma ResyncIsNoOp(t: Tables, cache: Cache, info: GameInfo, f1: Faults, f2: Faults)
    requires Valid(t) && !f1.upsertFails && !f1.priceFails
    ensures var (r, g) := AddOrUpdate(t, cache, info, f1);
      && AddOrUpdate(r, Overwrite(cache, g.value, info.ids), info, f2).0 == r
      && (!f2.upsertFails ==> AddOrUpdate(r, Overwrite(cache, g.value, info.ids), info, f2).1 == g)
  {
    AddOrUpdateRow(t, cache, info, f1);
    AddOrUpdateLinks(t, cache, info, f1);
    var (r, g) := AddOrUpdate(t, cache, info, f1);
    var gid := g.value;
    var c := Overwrite(cache, gid, info.ids);
    if !f2.upsertFails {
      UpsertSameRow(r, info.row);
      SyncAllFromCurrent(r.links, c, gid, info.ids, f2.linkFails);
      PriceStepLatest(r, gid, info.price, f2.priceFails);
      assert r.(links := SyncAll(r.links, c, gid, info.ids, f2.linkFails)) == r;
    }
  }

  // ---------------------------------------------------------------------
  // End-of-run marking (set_unavailable_games)
  // ---------------------------------------------------------------------

  /** UPDATE games SET available = FALSE WHERE game_id IN ids. An empty list
      would build `IN ()`, a syntax error the source swallows, so it changes
      nothing, as a failing update does. */
  function MarkUnavailable(t: Tables, ids: seq<int>, fails: bool): (r: Tables)
    requires Valid(t)
    ensures Valid(r)
    ensures r.(games := t.games) == t
    ensures r.games.Keys == t.games.Keys
    ensures forall g :: g in r.games ==>
      r.games[g] == if g in ids && !fails then t.games[g].(available := false) else t.games[g]
  {
    if ids == [] || fails then t
    else t.(games := map g | g in t.games :: if g in ids then t.games[g].(available := false) else t.games[g])
  }
}
