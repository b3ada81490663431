// The cache manager in front of the store, as one replica runs it: per-config entries in
// two levels, names resolved per agent under an epoch, and the list of rolling canaries.
module Manager {
  import opened Wrappers
  import opened Canary
  import opened ConfigStore
  import opened BackfillProtocol
  import opened Reconciler
  import ResolveKey
  import EpochProtocol

  datatype Caches = Caches(l1: map<ConfigKey, Row>, l2: map<ConfigKey, Row>, names: map<(nat, nat), set<ConfigKey>>,
                           epoch: nat, canaries: Option<map<ConfigKey, Release>>)

  // ── What is served ──────────────────────────────────────────────────────────

  // A onetime command without a version is served with the one caches compare it by.
  function Served(key: ConfigKey, row: Row): Row {
    if key.kind == Onetime && row.version == 0 then row.(version := OnetimeCacheVersion(row)) else row
  }

  // The rows of the given names, with the canary overlay of the agent.
  function Hydrated(env: Env, db: Db, m: Match, names: set<ConfigKey>): Delivery {
    map k | k in names && k in db.rows :: Overlaid(env, ActiveCanaries(db), m, k, Served(k, db.rows[k]))
  }

  lemma OneMoreHydrated(env: Env, db: Db, m: Match, names: set<ConfigKey>, k: ConfigKey)
    ensures k in db.rows ==>
              Hydrated(env, db, m, names + {k}) ==
              Hydrated(env, db, m, names)[k := Overlaid(env, ActiveCanaries(db), m, k, Served(k, db.rows[k]))]
    ensures k !in db.rows ==> Hydrated(env, db, m, names + {k}) == Hydrated(env, db, m, names)
  {}

  // The agent is assigned a onetime command for which a version is derived.
  ghost predicate AssignedUnversioned(env: Env, db: Db, m: Match) {
    exists k :: k in Names(env, db, m) && k.kind == Onetime && db.rows[k].version == 0 && db.rows[k].createdAt != 0
  }

  // Serving all but some of the assigned names is what the store delivers if and only if
  // none of them is assigned and no served version is derived.
  lemma ServedIsDelivered(env: Env, db: Db, m: Match, missing: set<ConfigKey>)
    ensures Hydrated(env, db, m, Names(env, db, m) - missing) == Delivered(env, db, m) <==>
            Names(env, db, m) !! missing && !AssignedUnversioned(env, db, m)
  {
    var served, delivered := Hydrated(env, db, m, Names(env, db, m) - missing), Delivered(env, db, m);
    assert delivered.Keys == Names(env, db, m) && served.Keys == Names(env, db, m) - missing;
    forall k | k in served
      ensures served[k] == delivered[k] <==> !(k.kind == Onetime && db.rows[k].version == 0 && db.rows[k].createdAt != 0)
    {}
  }

  // Such a command in the default group: the store delivers version zero, the manager
  // its creation time.
  lemma UnversionedCommandDiffers(env: Env, name: string, createdAt: int, m: Match)
    requires createdAt > 0
    ensures var key := ConfigKey(Onetime, name);
            var db := Db(map[], {}, {Mapping(DEFAULT_GROUP, key)}, map[key := Row(0, [], 0, createdAt)], map[]);
            && Names(env, db, m) == {key}
            && Delivered(env, db, m)[key].version == 0
            && Hydrated(env, db, m, {key})[key].version == createdAt
  {
    var key := ConfigKey(Onetime, name);
    var db := Db(map[], {}, {Mapping(DEFAULT_GROUP, key)}, map[key := Row(0, [], 0, createdAt)], map[]);
    assert Mapping(DEFAULT_GROUP, key) in db.mappings && GroupMatches(env, db, m, DEFAULT_GROUP);
    assert key in Names(env, db, m);
  }

  // ── Coherence ───────────────────────────────────────────────────────────────

  ghost predicate RowsCoherent(cache: map<ConfigKey, Row>, db: Db) {
    forall k :: k in cache ==> k in db.rows && cache[k] == Served(k, db.rows[k])
  }

  // On the current epoch an entry lacks of the assigned names exactly those among
  // `created`, the configs created since it was filled.
  ghost predicate NamesCoherent(c: EpochProtocol.Const, names: map<(nat, nat), set<ConfigKey>>, epoch: nat,
                                created: map<(nat, nat), set<ConfigKey>>, recent: set<ConfigKey>, db: Db)
  {
    forall k :: k in names ==>
      && k in created && k.0 <= epoch
      && (k.0 == epoch ==> created[k] <= recent && EntryCoherent(c, k.1, names[k], created[k], db))
  }

  ghost predicate EntryCoherent(c: EpochProtocol.Const, hash: nat, names: set<ConfigKey>, created: set<ConfigKey>, db: Db) {
    forall m :: m in c.fleet && ResolveKey.Hash(c.env, m) == hash ==> names == Names(c.env, db, m) - created
  }

  ghost predicate Coherent(c: EpochProtocol.Const, caches: Caches, created: map<(nat, nat), set<ConfigKey>>, recent: set<ConfigKey>, db: Db) {
    && RowsCoherent(caches.l1, db) && RowsCoherent(caches.l2, db)
    && NamesCoherent(c, caches.names, caches.epoch, created, recent, db)
    && (caches.canaries.Some? ==> caches.canaries.value == ActiveCanaries(db))
  }

  // The names an agent is assigned after a write that keeps the epoch: a created config
  // joins them if and only if a mapping was waiting for it, and nothing else changes.
  lemma NamesAfterWrite(env: Env, db: Db, w: Write, m: Match)
    requires KeepsEpoch(w) && Written(db, w).Some?
    ensures Names(env, Written(db, w).value, m) ==
            Names(env, db, m) + (if w.CreateConfig? && Waiting(env, db, w.key, m) then {w.key} else {})
    ensures w.CreateConfig? ==> w.key !in Names(env, db, m)
    ensures ActiveCanaries(Written(db, w).value) == ActiveCanaries(db)
  {
    var after := Written(db, w).value;
    forall g ensures GroupMatches(env, after, m, g) <==> GroupMatches(env, db, m, g) {}
    if w.UpdateConfig? {
      if w.key in db.rows {
        UpdateKeepsNames(env, db, w.key, db.rows[w.key].(version := w.version, detail := w.detail), m);
      }
    } else {
      forall k | k != w.key ensures k in Names(env, after, m) <==> k in Names(env, db, m) {}
      assert w.key in Names(env, after, m) <==> Waiting(env, db, w.key, m);
    }
  }

  // A cache without the written key is coherent with the new rows.
  lemma OtherRowsUntouched(cache: map<ConfigKey, Row>, db: Db, w: Write)
    requires RowsCoherent(cache, db) && Written(db, w).Some?
    ensures w.CreateConfig? || w.UpdateConfig? || w.DeleteConfig? ==> RowsCoherent(cache - {w.key}, Written(db, w).value)
    ensures !(w.CreateConfig? || w.UpdateConfig? || w.DeleteConfig?) ==> RowsCoherent(cache, Written(db, w).value)
  {}

  lemma OneMoreRow(cache: map<ConfigKey, Row>, db: Db, key: ConfigKey)
    requires RowsCoherent(cache, db) && key in db.rows
    ensures RowsCoherent(cache[key := Served(key, db.rows[key])], db)
  {}

  function Noted(created: map<(nat, nat), set<ConfigKey>>, keys: set<ConfigKey>): map<(nat, nat), set<ConfigKey>> {
    map k | k in created :: created[k] + keys
  }

  function CreatedBy(w: Write): set<ConfigKey> {
    if w.CreateConfig? then {w.key} else {}
  }

  lemma NamesStayCoherent(c: EpochProtocol.Const, names: map<(nat, nat), set<ConfigKey>>, epoch: nat,
                          created: map<(nat, nat), set<ConfigKey>>, recent: set<ConfigKey>, db: Db, w: Write)
    requires NamesCoherent(c, names, epoch, created, recent, db) && KeepsEpoch(w) && Written(db, w).Some?
    ensures NamesCoherent(c, names, epoch, Noted(created, CreatedBy(w)), recent + CreatedBy(w), Written(db, w).value)
  {
    forall k | k in names && k.0 == epoch
      ensures EntryCoherent(c, k.1, names[k], created[k] + CreatedBy(w), Written(db, w).value)
    {
      EntryStaysCoherent(c, k.1, names[k], created[k], db, w);
    }
  }

  lemma EntryStaysCoherent(c: EpochProtocol.Const, hash: nat, names: set<ConfigKey>, created: set<ConfigKey>, db: Db, w: Write)
    requires EntryCoherent(c, hash, names, created, db) && KeepsEpoch(w) && Written(db, w).Some?
    ensures EntryCoherent(c, hash, names, created + CreatedBy(w), Written(db, w).value)
  {
    forall m | m in c.fleet && ResolveKey.Hash(c.env, m) == hash
      ensures names == Names(c.env, Written(db, w).value, m) - (created + CreatedBy(w))
    {
      NamesAfterWrite(c.env, db, w, m);
    }
  }

  // The smallest such run: a name mapped to the default group before it exists.
  lemma WaitingMappingGoesStale(env: Env, key: ConfigKey, row: Row, m: Match)
    ensures var before := Db(map[], {}, {Mapping(DEFAULT_GROUP, key)}, map[], map[]);
            var after := Written(before, CreateConfig(key, row)).value;
            Names(env, before, m) == {} && Names(env, after, m) == {key}
  {
    var after := Db(map[], {}, {Mapping(DEFAULT_GROUP, key)}, map[key := row], map[]);
    assert Mapping(DEFAULT_GROUP, key) in after.mappings && GroupMatches(env, after, m, DEFAULT_GROUP);
    assert key in Names(env, after, m);
  }

  class Manager {
    const store: Store
    ghost const c: EpochProtocol.Const
    var caches: Caches
    ghost var created: map<(nat, nat), set<ConfigKey>>  // since each entry was filled
    ghost var recent: set<ConfigKey>  // since the epoch began

    ghost predicate Valid()
      reads this, store
    {
      EpochProtocol.Sound(c) && c.env == store.env && Coherent(c, caches, created, recent, store.db)
    }

    constructor (store: Store, ghost c: EpochProtocol.Const)
      requires EpochProtocol.Sound(c) && c.env == store.env
      ensures Valid() && this.store == store && this.c == c && recent == {}
    {
      this.store, this.c := store, c;
      caches := Caches(map[], map[], map[], 0, None);
      created, recent := map[], {};
    }

    // ── Invalidation ──────────────────────────────────────────────────────────

    method Invalidate(key: ConfigKey)
      modifies this`caches
      ensures caches == old(caches).(l1 := old(caches).l1 - {key}, l2 := old(caches).l2 - {key})
    {
      caches := caches.(l1 := caches.l1 - {key});
      caches := caches.(l2 := caches.l2 - {key});
    }

    method InvalidateResolveCache()
      modifies this`caches, this`recent
      ensures recent == {} && caches == old(caches).(epoch := old(caches).epoch + 1, canaries := None)
    {
      caches := caches.(epoch := caches.epoch + 1);
      caches := caches.(canaries := None);
      recent := {};
    }

    // A lost pub/sub connection clears what might have gone stale.
    method ConnectionLost()
      requires Valid()
      modifies this
      ensures Valid() && recent == {}
      ensures caches == old(caches).(l1 := map[], epoch := old(caches).epoch + 1, canaries := None)
    {
      caches := caches.(l1 := map[]);
      InvalidateResolveCache();
    }

    // Entries expire and are evicted at any time.
    method Expire(keepL1: set<ConfigKey>, keepL2: set<ConfigKey>, keepNames: set<(nat, nat)>, keepCanaries: bool)
      requires Valid()
      modifies this`caches
      ensures Valid()
    {
      caches := caches.(l1 := map k | k in caches.l1 && k in keepL1 :: caches.l1[k],
                        l2 := map k | k in caches.l2 && k in keepL2 :: caches.l2[k],
                        names := map k | k in caches.names && k in keepNames :: caches.names[k],
                        canaries := if keepCanaries then caches.canaries else None);
    }

    // ── Writes ────────────────────────────────────────────────────────────────

    // The store first, then the caches: the key of a config write, and a new epoch for
    // every write that can change who receives what. A failed write invalidates nothing.
    method Write(w: Write, now: int) returns (ok: bool)
      requires Valid()
      modifies this, store
      ensures Valid()
      ensures ok == Written(old(store.db), Stamped(w, now)).Some?
      ensures store.db == if ok then Written(old(store.db), Stamped(w, now)).value else old(store.db)
      ensures recent == if !ok then old(recent) else if KeepsEpoch(w) then old(recent) + CreatedBy(w) else {}
      ensures ok && w.CreateConfig? ==>
                w.key in store.db.rows && store.db.rows[w.key].detail == w.row.detail &&
                store.db.rows[w.key].version == if w.key.kind == Onetime && w.row.version == 0 then now else w.row.version
      ensures !ok ==> caches == old(caches)
      ensures ok ==> caches.names == old(caches).names
      ensures ok && (w.CreateConfig? || w.UpdateConfig? || w.DeleteConfig?) ==>
                caches.l1 == old(caches).l1 - {w.key} && caches.l2 == old(caches).l2 - {w.key}
      ensures ok && !(w.CreateConfig? || w.UpdateConfig? || w.DeleteConfig?) ==> caches.l1 == old(caches).l1 && caches.l2 == old(caches).l2
      ensures ok && (w.UpdateConfig? || (w.CreateConfig? && w.key.kind != Onetime)) ==>
                caches.epoch == old(caches).epoch && caches.canaries == old(caches).canaries
      ensures ok && !(w.UpdateConfig? || (w.CreateConfig? && w.key.kind != Onetime)) ==>
                caches.epoch == old(caches).epoch + 1 && caches.canaries == None
    {
      ghost var db := store.db;
      var stamped := Stamped(w, now);
      ok := store.Apply(stamped);
      if !ok {
        return;
      }
      OtherRowsUntouched(caches.l1, db, stamped);
      OtherRowsUntouched(caches.l2, db, stamped);
      if KeepsEpoch(stamped) {
        NamesStayCoherent(c, caches.names, caches.epoch, created, recent, db, stamped);
        WriteKeepsCanaries(db, stamped);
        created, recent := Noted(created, CreatedBy(stamped)), recent + CreatedBy(stamped);
      }
      if stamped.CreateConfig? || stamped.UpdateConfig? || stamped.DeleteConfig? {
        Invalidate(stamped.key);
      }
      if !KeepsEpoch(stamped) {
        InvalidateResolveCache();
      }
    }

    // ── Reads ─────────────────────────────────────────────────────────────────

    // First level, second level, store with backfill. A missing version is derived.
    method GetConfig(key: ConfigKey) returns (row: Option<Row>)
      requires Valid()
      modifies this`caches
      ensures Valid() && caches == old(caches).(l1 := caches.l1, l2 := caches.l2)
      ensures caches.l1 == if row.None? || key in old(caches).l1 then old(caches).l1 else old(caches).l1[key := row.value]
      ensures caches.l2 == if row.None? || key in old(caches).l1 || key in old(caches).l2 then old(caches).l2
                           else if (if key.kind == Onetime && row.value.version <= 0 then row.value.createdAt else row.value.version) <= 0
                           then old(caches).l2
                           else old(caches).l2[key := row.value]
      ensures row == if key in store.db.rows then Some(Served(key, store.db.rows[key])) else None
      ensures key in store.db.rows ==>
                row.Some? && row.value ==
                if key.kind == Onetime && store.db.rows[key].version == 0
                then store.db.rows[key].(version := store.db.rows[key].createdAt) else store.db.rows[key]
    {
      if key in caches.l1 {
        return Some(caches.l1[key]);
      }
      if key in caches.l2 {
        row := Some(caches.l2[key]);
        OneMoreRow(caches.l1, store.db, key);
        caches := caches.(l1 := caches.l1[key := row.value]);
        return;
      }
      if key !in store.db.rows {
        return None;
      }
      row := Some(store.db.rows[key]);
      if key.kind == Onetime && row.value.version == 0 {
        row := Some(row.value.(version := OnetimeCacheVersion(row.value)));
      }
      OneMoreRow(caches.l1, store.db, key);
      OneMoreRow(caches.l2, store.db, key);
      caches := caches.(l1 := caches.l1[key := row.value]);
      if Accepts(None, VersionOf(key.kind, row.value)) {
        caches := caches.(l2 := caches.l2[key := row.value]);
      }
    }

    method GetActiveCanaries() returns (rolling: map<ConfigKey, Release>)
      requires Valid()
      modifies this`caches
      ensures Valid() && caches == old(caches).(canaries := Some(rolling))
      ensures rolling == ActiveCanaries(store.db)
      ensures forall k :: k in rolling <==> k in store.db.canaries && store.db.canaries[k].status == Status.Rolling
      ensures forall k :: k in rolling ==> rolling[k] == store.db.canaries[k]
    {
      if caches.canaries.Some? {
        return caches.canaries.value;
      }
      rolling := ActiveCanaries(store.db);
      caches := caches.(canaries := Some(rolling));
    }

    // Turns names into rows and lays the canaries over them. A name without a row is
    // skipped; a canary that cannot be evaluated leaves the stable row.
    method Hydrate(names: set<ConfigKey>, m: Match) returns (delivery: Delivery)
      requires Valid()
      modifies this`caches
      ensures Valid() && caches.names == old(caches).names && caches.epoch == old(caches).epoch
      ensures delivery == Hydrated(store.env, store.db, m, names)
      ensures delivery.Keys == names * store.db.rows.Keys
      ensures forall k :: k in delivery ==>
                k in store.db.rows && delivery[k] ==
                if k.kind != Onetime && k in store.db.canaries && store.db.canaries[k].status == Status.Rolling &&
                   Eligible(store.env, store.db.canaries[k], m, k.name) == Ok(true)
                then Row(store.db.canaries[k].version, store.db.canaries[k].detail, store.db.rows[k].expireTime, store.db.rows[k].createdAt)
                else if k.kind == Onetime && store.db.rows[k].version == 0
                then store.db.rows[k].(version := store.db.rows[k].createdAt)
                else store.db.rows[k]
    {
      var rolling := GetActiveCanaries();
      delivery := map[];
      var todo := names;
      while todo != {}
        invariant Valid() && todo <= names && caches.names == old(caches).names && caches.epoch == old(caches).epoch
        invariant delivery == Hydrated(store.env, store.db, m, names - todo)
        decreases |todo|
      {
        var k: ConfigKey :| k in todo;
        OneMoreHydrated(store.env, store.db, m, names - todo, k);
        assert names - (todo - {k}) == names - todo + {k};
        todo := todo - {k};
        var row := GetConfig(k);
        if row.Some? {
          var delivered := row.value;
          if k.kind != Onetime && k in rolling {
            var eligible := Eligible(store.env, rolling[k], m, k.name);
            if eligible == Ok(true) {
              delivered := delivered.(detail := rolling[k].detail, version := rolling[k].version);
            }
          }
          delivery := delivery[k := delivered];
        }
      }
      assert names - todo == names;
    }

    // What a warm entry lacks: the configs created since it was filled.
    ghost function Missing(m: Match): set<ConfigKey>
      reads this, store
      requires Valid()
    {
      var key := (caches.epoch, ResolveKey.Hash(store.env, m));
      if key in caches.names then created[key] else {}
    }

    // Cold or warm, an agent receives the assigned configs, canaries included, except what
    // the warm entry lacks. Only a cold query can fail, and only when the store's would.
    method GetConfigsForAgent(m: Match) returns (r: Result<Delivery, ConfigStore.Error>)
      requires Valid() && m in c.fleet
      modifies this`caches, this`created
      ensures Valid()
      ensures r.Err? ==> !Resolvable(store.env, store.db, m)
      ensures old(Missing(m)) <= recent
      ensures r.Ok? ==> r.value == Hydrated(store.env, store.db, m, Names(store.env, store.db, m) - old(Missing(m)))
      ensures r.Ok? ==> r.value.Keys == Names(store.env, store.db, m) - old(Missing(m))
      ensures caches.epoch == old(caches).epoch
      ensures var key := (caches.epoch, ResolveKey.Hash(store.env, m));
              caches.names == if r.Err? || key in old(caches).names then old(caches).names
                              else old(caches).names[key := Names(store.env, store.db, m)]
      ensures r.Ok? ==> forall k :: k in r.value ==>
                k in store.db.rows && r.value[k] ==
                if k.kind != Onetime && k in store.db.canaries && store.db.canaries[k].status == Status.Rolling &&
                   Eligible(store.env, store.db.canaries[k], m, k.name) == Ok(true)
                then Row(store.db.canaries[k].version, store.db.canaries[k].detail, store.db.rows[k].expireTime, store.db.rows[k].createdAt)
                else if k.kind == Onetime && store.db.rows[k].version == 0
                then store.db.rows[k].(version := store.db.rows[k].createdAt)
                else store.db.rows[k]
    {
      var key := (caches.epoch, ResolveKey.Hash(store.env, m));
      var names: set<ConfigKey>;
      if key in caches.names {
        names := caches.names[key];
      } else {
        var resolved := store.GetConfigsForAgent(m);
        if resolved.Err? {
          return resolved;
        }
        names := resolved.value.Keys;
        DeliveredNames(store.env, store.db, m);
        SharedNames(c, store.db, m);
        caches := caches.(names := caches.names[key := names]);
        created := created[key := {}];
      }
      assert names == Names(store.env, store.db, m) - old(Missing(m));
      var delivery := Hydrate(names, m);
      return Ok(delivery);
    }
  }

  // An unversioned onetime command gets its version from the clock.
  function Stamped(w: Write, now: int): Write {
    if w.CreateConfig? && w.key.kind == Onetime && w.row.version == 0 then w.(row := w.row.(version := now)) else w
  }

  lemma WriteKeepsCanaries(db: Db, w: Write)
    requires KeepsEpoch(w) && Written(db, w).Some?
    ensures ActiveCanaries(Written(db, w).value) == ActiveCanaries(db)
  {}

  lemma DeliveredNames(env: Env, db: Db, m: Match)
    ensures Delivered(env, db, m).Keys == Names(env, db, m)
  {}

  lemma SharedNames(c: EpochProtocol.Const, db: Db, m: Match)
    requires EpochProtocol.Sound(c) && m in c.fleet
    ensures forall n :: n in c.fleet && ResolveKey.Hash(c.env, n) == ResolveKey.Hash(c.env, m) ==> Names(c.env, db, n) == Names(c.env, db, m)
  {
    forall n | n in c.fleet && ResolveKey.Hash(c.env, n) == ResolveKey.Hash(c.env, m) ensures Names(c.env, db, n) == Names(c.env, db, m) {
      ResolveKey.SameAttributesSameNames(c.env, db, n, m);
    }
  }

  // ── Runs ────────────────────────────────────────────────────────────────────

  datatype Op =
    | Change(write: Write, now: int)
    | Ask(agent: Match)
    | Read(key: ConfigKey)
    | Forget(l1: set<ConfigKey>, l2: set<ConfigKey>, names: set<(nat, nat)>, canaries: bool)
    | Reconnected

  function DbNext(db: Db, op: Op): Db {
    if op.Change? && Written(db, Stamped(op.write, op.now)).Some? then Written(db, Stamped(op.write, op.now)).value else db
  }

  // The database after a run; caches have no part in it.
  function DbAfter(db: Db, ops: seq<Op>): Db {
    if ops == [] then db else DbNext(DbAfter(db, ops[..|ops| - 1]), ops[|ops| - 1])
  }

  // The pipeline and instance configs created since the last write or reconnection that
  // began a new epoch.
  function RecentNext(db: Db, recent: set<ConfigKey>, op: Op): set<ConfigKey> {
    match op
    case Change(w, now) =>
      if Written(db, Stamped(w, now)).None? then recent
      else if KeepsEpoch(w) then recent + CreatedBy(w)
      else {}
    case Reconnected => {}
    case _ => recent
  }

  function RecentAfter(db: Db, recent: set<ConfigKey>, ops: seq<Op>): set<ConfigKey> {
    if ops == [] then recent
    else
      var before := ops[..|ops| - 1];
      RecentNext(DbAfter(db, before), RecentAfter(db, recent, before), ops[|ops| - 1])
  }

  datatype Answer = Done(ok: bool) | Assigned(result: Result<Delivery, ConfigStore.Error>) | Found(row: Option<Row>) | Silent

  // What the database at the moment of the operation allows as an answer.
  ghost predicate AnswersRight(env: Env, db: Db, recent: set<ConfigKey>, op: Op, answer: Answer) {
    match op
    case Change(w, now) => answer == Done(Written(db, Stamped(w, now)).Some?)
    case Ask(m) =>
      && answer.Assigned?
      && (answer.result.Err? ==> !Resolvable(env, db, m))
      && (answer.result.Ok? ==>
            exists missing :: missing <= recent && answer.result.value == Hydrated(env, db, m, Names(env, db, m) - missing))
    case Read(key) => answer == Found(if key in db.rows then Some(Served(key, db.rows[key])) else None)
    case _ => answer == Silent
  }

  // An agent whose names include no config created since the epoch began, and no command
  // with a derived version, receives exactly what the store delivers.
  lemma AskedIsDelivered(env: Env, db: Db, recent: set<ConfigKey>, m: Match, answer: Answer)
    requires AnswersRight(env, db, recent, Ask(m), answer) && Resolvable(env, db, m)
    requires Names(env, db, m) !! recent && !AssignedUnversioned(env, db, m)
    ensures answer == Assigned(Ok(Delivered(env, db, m)))
  {
    var missing :| missing <= recent && answer.result.value == Hydrated(env, db, m, Names(env, db, m) - missing);
    ServedIsDelivered(env, db, m, missing);
  }

  ghost predicate Legal(c: EpochProtocol.Const, ops: seq<Op>) {
    forall i :: 0 <= i < |ops| && ops[i].Ask? ==> ops[i].agent in c.fleet
  }

  method ServeOne(manager: Manager, op: Op) returns (answer: Answer)
    requires manager.Valid() && (op.Ask? ==> op.agent in manager.c.fleet)
    modifies manager, manager.store
    ensures manager.Valid() && manager.store.db == DbNext(old(manager.store.db), op)
    ensures manager.recent == RecentNext(old(manager.store.db), old(manager.recent), op)
    ensures AnswersRight(manager.store.env, old(manager.store.db), old(manager.recent), op, answer)
  {
    answer := Silent;
    match op {
      case Change(w, now) =>
        var ok := manager.Write(w, now);
        answer := Done(ok);
      case Ask(m) =>
        ghost var missing := manager.Missing(m);
        var r := manager.GetConfigsForAgent(m);
        answer := Assigned(r);
      case Read(key) =>
        var row := manager.GetConfig(key);
        answer := Found(row);
      case Forget(l1, l2, names, canaries) => manager.Expire(l1, l2, names, canaries);
      case Reconnected => manager.ConnectionLost();
    }
  }

  // The i-th answer of a run is right in the database of that moment.
  ghost predicate RightAt(env: Env, db: Db, recent: set<ConfigKey>, ops: seq<Op>, i: nat, answer: Answer) {
    i < |ops| && AnswersRight(env, DbAfter(db, ops[..i]), RecentAfter(db, recent, ops[..i]), ops[i], answer)
  }

  // Over every run each operation is answered as the database at that moment says.
  method Serve(manager: Manager, ops: seq<Op>) returns (answers: seq<Answer>)
    requires manager.Valid() && Legal(manager.c, ops)
    modifies manager, manager.store
    ensures manager.Valid() && manager.store.db == DbAfter(old(manager.store.db), ops)
    ensures |answers| == |ops|
    ensures forall i :: 0 <= i < |ops| ==>
              RightAt(manager.store.env, old(manager.store.db), old(manager.recent), ops, i, answers[i])
  {
    answers := [];
    ghost var db0, recent0 := manager.store.db, manager.recent;
    assert ops[..0] == [];
    for i := 0 to |ops|
      invariant manager.Valid() && manager.store.db == DbAfter(db0, ops[..i])
      invariant manager.recent == RecentAfter(db0, recent0, ops[..i])
      invariant |answers| == i
      invariant forall j :: 0 <= j < i ==> RightAt(manager.store.env, db0, recent0, ops, j, answers[j])
    {
      assert ops[..i + 1][..i] == ops[..i];
      var answer := ServeOne(manager, ops[i]);
      assert RightAt(manager.store.env, db0, recent0, ops, i, answer);
      answers := answers + [answer];
    }
    assert ops[..|ops|] == ops;
  }
}
