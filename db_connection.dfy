/** The DBConnection object: the name-to-id translation, the per-game
    snapshot of association ids, and the database it writes to. */
module DbConnection {
  import opened Common
  import opened Store

  /** The ids stored for game g are the elements of m[g], each once, for
      every game the table mentions: what `SELECT game_id, array_agg(x_id)
      ... GROUP BY game_id` returns over a table of distinct pairs. */
  predicate GroupedBy(m: map<int, seq<int>>, links: set<(int, int)>)
  {
    m.Keys == (set p | p in links :: p.0)
    && (forall g :: g in m ==> Elems(m[g]) == Stored(links, g))
    && (forall g :: g in m ==> Distinct(m[g]))
  }

  lemma StoredAddOne(done: set<(int, int)>, p: (int, int), g: int)
    ensures Stored(done + {p}, g) == Stored(done, g) + (if p.0 == g then {p.1} else {})
  {
    var after := done + {p};
    forall a
      ensures a in Stored(after, g) <==> a in Stored(done, g) + (if p.0 == g then {p.1} else {})
    {
      if a in Stored(after, g) {
        var q :| q in after && q.0 == g && q.1 == a;
      }
      if p.0 == g && a == p.1 {
        assert p in after;
      }
      if a in Stored(done, g) {
        var q :| q in done && q.0 == g && q.1 == a;
        assert q in after;
      }
    }
  }

  /** A pair not yet moved contributes an id its game does not have yet. */
  lemma NotYetStored(done: set<(int, int)>, p: (int, int))
    requires p !in done
    ensures p.1 !in Stored(done, p.0)
  {
  }

  lemma DistinctSnoc(xs: seq<int>, x: int)
    requires Distinct(xs) && x !in Elems(xs)
    ensures Distinct(xs + [x])
  {
    forall i | 0 <= i < |xs|
      ensures (xs + [x])[i] != x
    {
      assert xs[i] in Elems(xs);
    }
  }

  /** Moving one pair out of `rest` keeps `m` a grouping, each id once, of
      the pairs moved so far. */
  lemma GroupStep(m: map<int, seq<int>>, links: set<(int, int)>, rest: set<(int, int)>, p: (int, int))
    requires rest <= links && p in rest
    requires m.Keys == (set q | q in links - rest :: q.0)
    requires forall g :: g in m ==> Elems(m[g]) == Stored(links - rest, g) && Distinct(m[g])
    ensures var m' := m[p.0 := (if p.0 in m then m[p.0] else []) + [p.1]];
      m'.Keys == (set q | q in links - (rest - {p}) :: q.0)
      && forall g :: g in m' ==> Elems(m'[g]) == Stored(links - (rest - {p}), g) && Distinct(m'[g])
  {
    var done := links - rest;
    assert p.0 !in m ==> Stored(done, p.0) == {};
    var prev := if p.0 in m then m[p.0] else [];
    assert Elems(prev + [p.1]) == Elems(prev) + {p.1};
    NotYetStored(done, p);
    DistinctSnoc(prev, p.1);
    var m' := m[p.0 := prev + [p.1]];
    assert links - (rest - {p}) == done + {p};
    forall g | g in m'
      ensures Elems(m'[g]) == Stored(done + {p}, g)
    {
      StoredAddOne(done, p, g);
    }
  }

  /** Groups the pairs of one association table by game. The order of the
      ids inside a group is the aggregate's, which is unspecified. */
  method GroupByGame(links: set<(int, int)>) returns (m: map<int, seq<int>>)
    ensures GroupedBy(m, links)
  {
    m := map[];
    var rest := links;
    while rest != {}
      invariant rest <= links
      invariant m.Keys == (set p | p in links - rest :: p.0)
      invariant forall g :: g in m ==> Elems(m[g]) == Stored(links - rest, g) && Distinct(m[g])
      decreases |rest|
    {
      var p :| p in rest;
      GroupStep(m, links, rest, p);
      m := m[p.0 := (if p.0 in m then m[p.0] else []) + [p.1]];
      rest := rest - {p};
    }
  }

  /** Grouping the whole table gives a snapshot that agrees with it. */
  lemma GroupedIsCoherent(t: Tables, cache: Cache, k: Kind)
    requires GroupedBy(cache.Get(k), t.links.Get(k))
    ensures CoherentKind(t, cache, k)
  {
    forall p | p in t.links.Get(k)
      ensures p.0 in cache.Get(k)
    {
    }
  }

  /** One of the get_game_* loads: the grouped table, or `{}` on an error. */
  method LoadKind(links: set<(int, int)>, fails: bool) returns (m: map<int, seq<int>>)
    ensures fails ==> m == map[]
    ensures !fails ==> GroupedBy(m, links)
  {
    if fails {
      m := map[];
    } else {
      m := GroupByGame(links);
    }
  }

  /** The snapshot as the constructor loads it, kind by kind. */
  method LoadSnapshot(links: PerKind<set<(int, int)>>, fails: set<Kind>) returns (cache: Cache)
    ensures forall k: Kind :: k in fails ==> cache.Get(k) == map[]
    ensures forall k: Kind :: k !in fails ==> GroupedBy(cache.Get(k), links.Get(k))
  {
    var genres := LoadKind(links.genres, Genre in fails);
    var tags := LoadKind(links.tags, Tag in fails);
    var publishers := LoadKind(links.publishers, Publisher in fails);
    var developers := LoadKind(links.developers, Developer in fails);
    cache := PerKind(genres, tags, developers, publishers);
  }

  /** The four name tables as update_translation_data reloads them, a
      failing read giving the empty map. */
  function Reloaded(t: Tables, reloadFails: set<Kind>): (r: PerKind<map<string, int>>)
    ensures forall k: Kind :: r.Get(k) == if k in reloadFails then map[] else t.names.Get(k)
  {
    PerKind(
      if Genre in reloadFails then map[] else t.names.genres,
      if Tag in reloadFails then map[] else t.names.tags,
      if Developer in reloadFails then map[] else t.names.developers,
      if Publisher in reloadFails then map[] else t.names.publishers)
  }

  lemma RegisterOne(before: map<string, int>, table: map<string, int>, done: set<string>, next0: int, next: int, n: string)
    requires forall m :: m in before ==> before[m] < next0
    requires Registered(before, table, done, next0, next) && next0 <= next
    requires n !in before && n !in done
    ensures Registered(before, table[n := next], done + {n}, next0, next + 1)
  {
    var after := table[n := next];
    assert after.Keys == before.Keys + (done + {n});
    forall a, b | a in done + {n} && b in done + {n} && a != b
      ensures after[a] != after[b]
    {
      if a == n {
        assert after[b] == table[b] < next;
      } else if b == n {
        assert after[a] == table[a] < next;
      }
    }
  }

  /** Every id of a registered table lies below the sequence. */
  lemma RegisteredBelow(before: map<string, int>, table: map<string, int>, done: set<string>, next0: int, next: int)
    requires forall m :: m in before ==> before[m] < next0
    requires Registered(before, table, done, next0, next) && next0 <= next
    ensures forall m :: m in table ==> table[m] < next
  {
  }

  lemma MoveOne<T>(done: set<T>, rest: set<T>, all: set<T>, x: T)
    requires done + rest == all && done * rest == {} && x in rest
    ensures (done + {x}) + (rest - {x}) == all && (done + {x}) * (rest - {x}) == {}
    ensures x !in done && x in all
  {
    assert x !in done by {
      assert x !in done * rest;
    }
    forall y
      ensures y in (done + {x}) + (rest - {x}) <==> y in all
    {
    }
    forall y | y in done + {x}
      ensures y !in rest - {x}
    {
      assert y !in done * rest;
    }
  }

  /** Gives each name of `added` the next serial id, in some order. */
  method AssignIds(before: map<string, int>, added: set<string>, next0: int) returns (table: map<string, int>, next: int)
    requires forall n :: n in before ==> before[n] < next0
    requires added * before.Keys == {}
    ensures Registered(before, table, added, next0, next)
    ensures forall n :: n in table ==> table[n] < next
  {
    table, next := before, next0;
    var rest, done := added, {};
    while rest != {}
      invariant done + rest == added && done * rest == {}
      invariant next0 <= next && Registered(before, table, done, next0, next)
      decreases |rest|
    {
      var n :| n in rest;
      MoveOne(done, rest, added, n);
      assert n !in before by {
        assert n in added * before.Keys ==> false;
      }
      RegisterOne(before, table, done, next0, next, n);
      table, next := table[n := next], next + 1;
      rest, done := rest - {n}, done + {n};
    }
    assert done == added;
    RegisteredBelow(before, table, done, next0, next);
  }

  /** What one batch of names did to its table: nothing when it was empty or
      refused, otherwise exactly those names registered. */
  predicate KindRegistered(t0: Tables, t1: Tables, k: Kind, added: set<string>, fails: bool)
  {
    if added == {} || InsertRefused(t0.names.Get(k), added, fails) then
      t1.names.Get(k) == t0.names.Get(k) && t1.nextName.Get(k) == t0.nextName.Get(k)
    else Registered(t0.names.Get(k), t1.names.Get(k), added, t0.nextName.Get(k), t1.nextName.Get(k))
  }

  /** The name table of kind k and its sequence are the same in both. */
  predicate SameKind(t0: Tables, t1: Tables, k: Kind)
  {
    t1.names.Get(k) == t0.names.Get(k) && t1.nextName.Get(k) == t0.nextName.Get(k)
  }

  /** Only the name tables of kind k may differ. */
  predicate OnlyNamesOf(t0: Tables, t1: Tables, k: Kind)
  {
    t1.(names := t0.names, nextName := t0.nextName) == t0
    && forall j: Kind :: j != k ==> SameKind(t0, t1, j)
  }

  /** What a batch did is judged against the table as it was before it. */
  lemma KindRegisteredRebase(t0: Tables, t1: Tables, t2: Tables, k: Kind, added: set<string>, fails: bool)
    requires SameKind(t0, t1, k) && KindRegistered(t1, t2, k, added, fails)
    ensures KindRegistered(t0, t2, k, added, fails)
  {
  }

  lemma KindRegisteredKeep(t0: Tables, t1: Tables, t2: Tables, k: Kind, added: set<string>, fails: bool)
    requires KindRegistered(t0, t1, k, added, fails) && SameKind(t1, t2, k)
    ensures KindRegistered(t0, t2, k, added, fails)
  {
  }

  /** The record's names missing from the translation, per kind. */
  function MissingNames(names: PerKind<seq<string>>, translation: PerKind<map<string, int>>): (m: PerKind<set<string>>)
    ensures forall k: Kind :: m.Get(k) == Missing(names.Get(k), translation.Get(k))
  {
    PerKind(
      Missing(names.genres, translation.genres),
      Missing(names.tags, translation.tags),
      Missing(names.developers, translation.developers),
      Missing(names.publishers, translation.publishers))
  }

  predicate AnyMissing(added: PerKind<set<string>>)
  {
    added.genres != {} || added.tags != {} || added.developers != {} || added.publishers != {}
  }

  /** When the translation agreed with the name tables and no insert failed,
      every name of the record is in the tables afterwards. */
  lemma RegisteredCoversRecord(t0: Tables, t1: Tables, translation: PerKind<map<string, int>>, names: PerKind<seq<string>>, insertFails: set<Kind>)
    requires forall k: Kind :: translation.Get(k) == t0.names.Get(k)
    requires insertFails == {}
    requires forall k: Kind :: KindRegistered(t0, t1, k, MissingNames(names, translation).Get(k), false)
    ensures forall k: Kind, n :: n in names.Get(k) ==> n in t1.names.Get(k)
  {
    forall k: Kind, n | n in names.Get(k)
      ensures n in t1.names.Get(k)
    {
      var added := MissingNames(names, translation).Get(k);
      assert added * t0.names.Get(k).Keys == {};
      assert KindRegistered(t0, t1, k, added, false);
      if n !in translation.Get(k) {
        assert n in added;
      }
    }
  }

  class DBConnection {
    /** translation_data: per kind, attribute name to id. */
    var translation: PerKind<map<string, int>>
    /** game_data: per kind, game_id to the ids last synced. */
    var gameData: Cache
    /** The database behind the connection. */
    var db: Tables

    predicate Valid()
      reads this
    {
      Store.Valid(db)
    }

    /** Opens the connection and loads both caches; a kind whose load fails
        starts empty, as the source's getters return `{}` on an error. */
    constructor (db0: Tables, nameLoadFails: set<Kind>, cacheLoadFails: set<Kind>)
      requires Store.Valid(db0)
      ensures Valid() && db == db0
      ensures translation == Reloaded(db0, nameLoadFails)
      ensures forall k: Kind :: k in cacheLoadFails ==> gameData.Get(k) == map[]
      ensures forall k: Kind :: k !in cacheLoadFails ==> CoherentKind(db, gameData, k)
    {
      db := db0;
      translation := Reloaded(db0, nameLoadFails);
      var cache := LoadSnapshot(db0.links, cacheLoadFails);
      forall k: Kind | k !in cacheLoadFails
        ensures CoherentKind(db0, cache, k)
      {
        GroupedIsCoherent(db0, cache, k);
      }
      gameData := cache;
    }

    /** add_genres / add_tags / add_developers / add_publishers: one batch
        insert of names, each given the next serial id in some order. An
        empty batch is a syntax error and a batch holding a known name a
        uniqueness violation; either, or a store error, inserts nothing. */
    method AddNames(k: Kind, added: set<string>, fails: bool)
      requires Valid()
      modifies this`db
      ensures Valid()
      ensures OnlyNamesOf(old(db), db, k)
      ensures KindRegistered(old(db), db, k, added, fails)
    {
      if added == {} || InsertRefused(db.names.Get(k), added, fails) {
        return;
      }
      var table, next := AssignIds(db.names.Get(k), added, db.nextName.Get(k));
      db := db.(names := db.names.Set(k, table), nextName := db.nextName.Set(k, next));
    }

    /** The inserts of update_translation_data: for each kind, in the order
        genres, tags, developers, publishers, the batch of its new names
        when that batch is not empty. */
    method RegisterMissing(added: PerKind<set<string>>, insertFails: set<Kind>)
      requires Valid()
      modifies this`db
      ensures Valid()
      ensures db.(names := old(db.names), nextName := old(db.nextName)) == old(db)
      ensures forall k: Kind :: KindRegistered(old(db), db, k, added.Get(k), k in insertFails)
    {
      var kinds := [Genre, Tag, Developer, Publisher];
      var t0 := db;
      for i := 0 to 4
        invariant Valid()
        invariant db.(names := t0.names, nextName := t0.nextName) == t0
        invariant forall j :: 0 <= j < i ==> KindRegistered(t0, db, kinds[j], added.Get(kinds[j]), kinds[j] in insertFails)
        invariant forall j :: i <= j < 4 ==> SameKind(t0, db, kinds[j])
      {
        var k := kinds[i];
        var before := db;
        if added.Get(k) != {} {
          AddNames(k, added.Get(k), k in insertFails);
        }
        KindRegisteredRebase(t0, before, db, k, added.Get(k), k in insertFails);
        forall j | 0 <= j < i
          ensures KindRegistered(t0, db, kinds[j], added.Get(kinds[j]), kinds[j] in insertFails)
        {
          KindRegisteredKeep(t0, before, db, kinds[j], added.Get(kinds[j]), kinds[j] in insertFails);
        }
        forall j | i + 1 <= j < 4
          ensures SameKind(t0, db, kinds[j])
        {
          assert kinds[j] != k;
          assert SameKind(before, db, kinds[j]);
        }
      }
      forall k: Kind
        ensures KindRegistered(t0, db, k, added.Get(k), k in insertFails)
      {
        var j := match k case Genre => 0 case Tag => 1 case Developer => 2 case Publisher => 3;
        assert kinds[j] == k;
      }
    }

    /** update_translation_data: insert the record's names not yet
        translated; if any kind had such names, reload all four maps and
        keep the reload only when its genre map is non-empty. */
    method UpdateTranslationData(names: PerKind<seq<string>>, f: Faults)
      requires Valid()
      modifies this`translation, this`db
      ensures Valid()
      ensures db.(names := old(db.names), nextName := old(db.nextName)) == old(db)
      ensures forall k: Kind ::
        KindRegistered(old(db), db, k, MissingNames(names, old(translation)).Get(k), k in f.insertFails)
      ensures !AnyMissing(MissingNames(names, old(translation))) ==> translation == old(translation)
      ensures AnyMissing(MissingNames(names, old(translation))) ==>
        translation == if Reloaded(db, f.reloadFails).genres != map[] then Reloaded(db, f.reloadFails) else old(translation)
      // When the translation agreed with the tables and nothing failed,
      // every name of the record translates afterwards, provided the
      // genre table is not left empty.
      ensures (forall k: Kind :: old(translation.Get(k)) == old(db.names.Get(k)))
        && f.insertFails == {} && f.reloadFails == {}
        && (AnyMissing(MissingNames(names, old(translation))) ==> db.names.genres != map[])
        ==> forall k: Kind, n :: n in names.Get(k) ==> n in translation.Get(k)
    {
      var t0 := db;
      var added := MissingNames(names, translation);
      RegisterMissing(added, f.insertFails);
      if AnyMissing(added) {
        var reloaded := Reloaded(db, f.reloadFails);
        if reloaded.genres != map[] {
          translation := reloaded;
        }
      }
      if (forall k: Kind :: old(translation.Get(k)) == t0.names.Get(k)) && f.insertFails == {} {
        RegisteredCoversRecord(t0, db, old(translation), names, f.insertFails);
      }
    }

    /** update_game_data: overwrite this game's entry in each of the four
        snapshots, nothing else. */
    method UpdateGameData(g: int, ids: PerKind<seq<int>>)
      modifies this`gameData
      ensures gameData == Overwrite(old(gameData), g, ids)
    {
      gameData := Overwrite(gameData, g, ids);
    }

    /** _process_game_genres and its three copies, for any kind. */
    method ProcessGameLinks(k: Kind, g: int, oldIds: seq<int>, newIds: seq<int>, fails: bool) returns (status: Status)
      requires Valid()
      modifies this`db
      ensures Valid()
      ensures db == old(db).(links := old(db.links).Set(k, db.links.Get(k)))
      ensures (db.links.Get(k), status) == SyncLinks(old(db.links.Get(k)), g, oldIds, newIds, fails)
    {
      var s := SyncLinks(db.links.Get(k), g, oldIds, newIds, fails);
      db := db.(links := db.links.Set(k, s.0));
      status := s.1;
    }

    /** _process_game_price. */
    method ProcessGamePrice(g: int, p: Price, fails: bool)
      requires Valid()
      modifies this`db
      ensures Valid()
      ensures db == PriceStep(old(db), g, p, fails)
    {
      db := PriceStep(db, g, p, fails);
    }

    /** add_or_update_game_info: the upsert, then each kind against the
        snapshot (the empty list for a game it has not seen), then the
        price; the game_id, or None when the upsert fails. */
    method AddOrUpdateGameInfo(info: GameInfo, f: Faults) returns (id: Option<int>)
      requires Valid()
      modifies this`db
      ensures Valid()
      ensures (db, id) == AddOrUpdate(old(db), gameData, info, f)
    {
      if f.upsertFails {
        return None;
      }
      var t0 := db;
      var (t1, g) := Upsert(db, info.row);
      db := t1;
      var _ := ProcessGameLinks(Genre, g, Cached(gameData, Genre, g), info.ids.genres, Genre in f.linkFails);
      var _ := ProcessGameLinks(Tag, g, Cached(gameData, Tag, g), info.ids.tags, Tag in f.linkFails);
      var _ := ProcessGameLinks(Publisher, g, Cached(gameData, Publisher, g), info.ids.publishers, Publisher in f.linkFails);
      var _ := ProcessGameLinks(Developer, g, Cached(gameData, Developer, g), info.ids.developers, Developer in f.linkFails);
      assert db.links == SyncAll(t1.links, gameData, g, info.ids, f.linkFails);
      assert db == t1.(links := SyncAll(t1.links, gameData, g, info.ids, f.linkFails));
      ProcessGamePrice(g, info.price, f.priceFails);
      id := Some(g);
    }

    /** set_unavailable_games. */
    method SetUnavailableGames(ids: seq<int>, fails: bool)
      requires Valid()
      modifies this`db
      ensures Valid()
      ensures db == MarkUnavailable(old(db), ids, fails)
    {
      db := MarkUnavailable(db, ids, fails);
    }

    /** get_game_ids: every game_id once, in the order the rows come; a
        failing query returns None. */
    method GetGameIds(fails: bool) returns (ids: Option<seq<int>>)
      ensures ids.None? <==> fails
      ensures ids.Some? ==> Elems(ids.value) == db.games.Keys && Distinct(ids.value)
    {
      if fails {
        return None;
      }
      var out := ListOf(db.games.Keys);
      ids := Some(out);
    }
  }
}
