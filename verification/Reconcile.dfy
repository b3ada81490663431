// The reconciler: one pass over the shared cache that removes entries whose version is
// not the database's and keys whose row is gone.
module Reconciler {
  import opened Wrappers
  import opened ConfigStore
  import opened Levels
  import opened BackfillProtocol

  function Prefix(kind: Kind): string {
    match kind
    case Pipeline => "cfg:pipeline:"
    case Instance => "cfg:instance:"
    case Onetime => "cfg:onetime:"
  }

  const LOCK: string := "cfg:reconcile_lock"
  const AGENT_PREFIX: string := "agent:"
  const STATUS_PREFIX: string := "agent_status:"

  // No key carries two of the prefixes, and the lock and the agent keys carry none.
  lemma PrefixesAreDisjoint(key: string, a: Kind, b: Kind)
    requires Prefix(a) <= key
    ensures Prefix(b) <= key ==> a == b
    ensures key != LOCK && !(AGENT_PREFIX <= key) && !(STATUS_PREFIX <= key)
  {
    assert key[0] == 'c' && key[4] == Prefix(a)[4];
    assert Prefix(b) <= key ==> key[4] == Prefix(b)[4];
    assert LOCK[4] == 'r';
    assert AGENT_PREFIX[0] == 'a' && STATUS_PREFIX[0] == 'a';
  }

  // The version a cached onetime command is compared by; a zero creation time is unset.
  function OnetimeCacheVersion(row: Row): int {
    if row.version > 0 then row.version
    else if row.createdAt != 0 then row.createdAt
    else 0
  }

  function VersionOf(kind: Kind, row: Row): int {
    if kind == Onetime then OnetimeCacheVersion(row) else row.version
  }

  // The rows of one kind by name, or nothing if the listing failed.
  type Listing = Option<map<string, Row>>

  datatype Lists = Lists(pipelines: Listing, instances: Listing, onetimes: Listing)

  function Of(lists: Lists, kind: Kind): Listing {
    match kind
    case Pipeline => lists.pipelines
    case Instance => lists.instances
    case Onetime => lists.onetimes
  }

  // An entry of a listed kind survives if its row exists and its bytes do not decode to
  // another version.
  predicate Consistent(kind: Kind, rows: map<string, Row>, name: string, cell: Cell) {
    name in rows && (cell.Valid? ==> VersionOf(kind, cell.row) == VersionOf(kind, rows[name]))
  }

  predicate KindKeeps(kind: Kind, listing: Listing, key: string, cell: Cell) {
    listing.Some? && Prefix(kind) <= key ==> Consistent(kind, listing.value, key[|Prefix(kind)|..], cell)
  }

  predicate Keeps(lists: Lists, key: string, cell: Cell) {
    && KindKeeps(Pipeline, lists.pipelines, key, cell)
    && KindKeeps(Instance, lists.instances, key, cell)
    && KindKeeps(Onetime, lists.onetimes, key, cell)
  }

  // What a pass leaves of the shared cache.
  function Reconciled(l2: map<string, Cell>, lists: Lists): map<string, Cell> {
    map k | k in l2 && Keeps(lists, k, l2[k]) :: l2[k]
  }

  predicate Outdated(kind: Kind, rows: map<string, Row>, key: string, cell: Cell) {
    && Prefix(kind) <= key
    && key[|Prefix(kind)|..] in rows
    && cell.Valid?
    && VersionOf(kind, cell.row) != VersionOf(kind, rows[key[|Prefix(kind)|..]])
  }

  predicate Orphaned(kind: Kind, existing: set<string>, key: string) {
    Prefix(kind) <= key && key[|Prefix(kind)|..] !in existing
  }

  function OutdatedKeys(kind: Kind, rows: map<string, Row>, l2: map<string, Cell>, names: set<string>): set<string> {
    set k | k in l2 && Outdated(kind, rows, k, l2[k]) && k[|Prefix(kind)|..] in names
  }

  function OrphanedKeys(kind: Kind, existing: set<string>, l2: map<string, Cell>): set<string> {
    set k | k in l2 && Orphaned(kind, existing, k)
  }

  lemma OneName(kind: Kind, rows: map<string, Row>, l2: map<string, Cell>, names: set<string>, name: string)
    requires name in rows && name !in names
    ensures var key := Prefix(kind) + name;
            && key !in OutdatedKeys(kind, rows, l2, names)
            && OutdatedKeys(kind, rows, l2, names + {name}) ==
               OutdatedKeys(kind, rows, l2, names) + (if IsOutdated(kind, rows, l2, name) then {key} else {})
  {
    var key := Prefix(kind) + name;
    assert key[|Prefix(kind)|..] == name;
    forall k | Prefix(kind) <= k && k[|Prefix(kind)|..] == name ensures k == key {
      assert k == k[..|Prefix(kind)|] + k[|Prefix(kind)|..];
    }
  }

  predicate IsOutdated(kind: Kind, rows: map<string, Row>, l2: map<string, Cell>, name: string)
    requires name in rows
  {
    var key := Prefix(kind) + name;
    key in l2 && l2[key].Valid? && VersionOf(kind, l2[key].row) != VersionOf(kind, rows[name])
  }

  // The caches of one replica, the shared one and the announcements so far.
  datatype View = View(l1: map<string, Row>, l2: map<string, Cell>, published: set<string>)

  // The keys are gone from both levels and announced; nothing else changed.
  function Dropped(v: View, keys: set<string>): View {
    View(v.l1 - keys, v.l2 - keys, v.published + keys)
  }

  lemma DropOneMore(v: View, keys: set<string>, key: string)
    ensures Dropped(Dropped(v, keys), {key}) == Dropped(v, keys + {key})
    ensures Dropped(v, {}) == v
  {
    assert (v.l1 - keys) - {key} == v.l1 - (keys + {key});
    assert (v.l2 - keys) - {key} == v.l2 - (keys + {key});
    assert (v.published + keys) + {key} == v.published + (keys + {key});
  }

  lemma DropTwice(v: View, a: set<string>, b: set<string>)
    ensures Dropped(Dropped(v, a), b) == Dropped(v, a + b)
  {
    assert (v.l1 - a) - b == v.l1 - (a + b);
    assert (v.l2 - a) - b == v.l2 - (a + b);
    assert (v.published + a) + b == v.published + (a + b);
  }

  // One turn of the version comparison.
  lemma CompareOne(kind: Kind, rows: map<string, Row>, v0: View, todo: set<string>, name: string)
    requires name in todo && todo <= rows.Keys
    ensures var gone := OutdatedKeys(kind, rows, v0.l2, rows.Keys - todo);
            var next := OutdatedKeys(kind, rows, v0.l2, rows.Keys - (todo - {name}));
            var key := Prefix(kind) + name;
            && (IsOutdated(kind, rows, v0.l2 - gone, name) ==> next == gone + {key} && Dropped(Dropped(v0, gone), {key}) == Dropped(v0, next))
            && (!IsOutdated(kind, rows, v0.l2 - gone, name) ==> next == gone)
  {
    var gone, key := OutdatedKeys(kind, rows, v0.l2, rows.Keys - todo), Prefix(kind) + name;
    OneName(kind, rows, v0.l2, rows.Keys - todo, name);
    DropOneMore(v0, gone, key);
    assert (rows.Keys - todo) + {name} == rows.Keys - (todo - {name});
    assert key in v0.l2 - gone <==> key in v0.l2;
    assert gone + {} == gone;
  }

  // The keys the two loops remove for one kind, given the cache before the pass.
  function OutdatedIn(kind: Kind, listing: Listing, l2: map<string, Cell>): set<string> {
    if listing.None? then {} else OutdatedKeys(kind, listing.value, l2, listing.value.Keys)
  }

  function OrphanedIn(kind: Kind, listing: Listing, l2: map<string, Cell>): set<string> {
    if listing.None? then {} else OrphanedKeys(kind, listing.value.Keys, l2)
  }

  // Removing keys first does not change what else is removed.
  lemma RemovalCommutes(kind: Kind, listing: Listing, l2: map<string, Cell>, gone: set<string>)
    ensures gone + OutdatedIn(kind, listing, l2 - gone) == gone + OutdatedIn(kind, listing, l2)
    ensures gone + OrphanedIn(kind, listing, l2 - gone) == gone + OrphanedIn(kind, listing, l2)
  {}

  lemma KindRemoves(kind: Kind, listing: Listing, l2: map<string, Cell>, k: string)
    requires k in l2
    ensures KindKeeps(kind, listing, k, l2[k]) <==> k !in OutdatedIn(kind, listing, l2) && k !in OrphanedIn(kind, listing, l2)
  {}

  // One turn of the clean-up.
  lemma CleanupOne(v0: View, orphans: set<string>, todo: set<string>, key: string)
    requires key in todo
    ensures var next := Dropped(v0, orphans - (todo - {key}));
            next == if key in orphans then Dropped(Dropped(v0, orphans - todo), {key}) else Dropped(v0, orphans - todo)
  {
    assert orphans - (todo - {key}) == (orphans - todo) + (if key in orphans then {key} else {});
    assert (orphans - todo) + {} == orphans - todo;
    DropOneMore(v0, orphans - todo, key);
  }

  class Cache {
    var v: View

    // Deletes the key on this replica and in the shared cache, and announces it.
    method Invalidate(key: string)
      modifies this
      ensures v == Dropped(old(v), {key})
    {
      v := v.(l1 := v.l1 - {key});
      v := v.(l2 := v.l2 - {key});
      v := v.(published := v.published + {key});
    }

    // The cached versions of one kind are compared with the listed rows.
    method CompareVersions(kind: Kind, rows: map<string, Row>)
      modifies this
      ensures v == Dropped(old(v), OutdatedKeys(kind, rows, old(v).l2, rows.Keys))
      ensures forall k :: k in v.l1 ==> k in old(v).l1 && v.l1[k] == old(v).l1[k]
      ensures forall k :: k in old(v).l2 && k !in v.l2 ==> k !in v.l1 && k in v.published
    {
      ghost var v0, gone := v, {};
      var todo := rows.Keys;
      DropOneMore(v0, {}, "");
      while todo != {}
        invariant todo <= rows.Keys
        invariant gone == OutdatedKeys(kind, rows, v0.l2, rows.Keys - todo)
        invariant v == Dropped(v0, gone)
        decreases |todo|
      {
        var name :| name in todo;
        var key := Prefix(kind) + name;
        CompareOne(kind, rows, v0, todo, name);
        if IsOutdated(kind, rows, v.l2, name) {
          Invalidate(key);
          gone := gone + {key};
        }
        todo := todo - {name};
      }
      assert rows.Keys - todo == rows.Keys;
    }

    // Keys of the kind without a row are removed.
    method CleanupDeleted(kind: Kind, existing: set<string>)
      modifies this
      ensures v == Dropped(old(v), OrphanedKeys(kind, existing, old(v).l2))
      ensures forall k :: k in v.l1 ==> k in old(v).l1 && v.l1[k] == old(v).l1[k]
      ensures forall k :: k in old(v).l2 && k !in v.l2 ==> k !in v.l1 && k in v.published
    {
      ghost var v0, orphans := v, OrphanedKeys(kind, existing, v.l2);
      var scanned := set k | k in v.l2 && Prefix(kind) <= k;
      var todo := scanned;
      DropOneMore(v0, {}, "");
      assert orphans - scanned == {};
      while todo != {}
        invariant todo <= scanned
        invariant v == Dropped(v0, orphans - todo)
        decreases |todo|
      {
        var key :| key in todo;
        CleanupOne(v0, orphans, todo, key);
        assert key in orphans <==> key[|Prefix(kind)|..] !in existing;
        if key[|Prefix(kind)|..] !in existing {
          Invalidate(key);
        }
        todo := todo - {key};
      }
      assert orphans - todo == orphans;
    }

    method CompareListed(kind: Kind, listing: Listing, ghost v0: View, ghost before: set<string>) returns (ghost gone: set<string>)
      requires v == Dropped(v0, before)
      modifies this
      ensures v == Dropped(v0, gone) && gone == before + OutdatedIn(kind, listing, v0.l2)
    {
      RemovalCommutes(kind, listing, v0.l2, before);
      gone := before + OutdatedIn(kind, listing, v0.l2);
      DropTwice(v0, before, OutdatedIn(kind, listing, v.l2));
      if listing.Some? {
        CompareVersions(kind, listing.value);
      }
    }

    method CleanupListed(kind: Kind, listing: Listing, ghost v0: View, ghost before: set<string>) returns (ghost gone: set<string>)
      requires v == Dropped(v0, before)
      modifies this
      ensures v == Dropped(v0, gone) && gone == before + OrphanedIn(kind, listing, v0.l2)
    {
      RemovalCommutes(kind, listing, v0.l2, before);
      gone := before + OrphanedIn(kind, listing, v0.l2);
      DropTwice(v0, before, OrphanedIn(kind, listing, v.l2));
      if listing.Some? {
        CleanupDeleted(kind, listing.value.Keys);
      }
    }

    // First all versions, then all deleted rows; a kind whose listing failed is left alone.
    // What disappears is deleted on this replica too, and announced.
    method ReconcileCache(lists: Lists)
      modifies this
      ensures v.l2 == Reconciled(old(v).l2, lists)
      ensures v == Dropped(old(v), old(v).l2.Keys - v.l2.Keys)
      ensures v.l1 == old(v).l1 - (old(v).l2.Keys - v.l2.Keys)
      ensures v.published == old(v).published + (old(v).l2.Keys - v.l2.Keys)
    {
      ghost var v0 := v;
      DropOneMore(v0, {}, "");
      ghost var gone := CompareListed(Pipeline, lists.pipelines, v0, {});
      gone := CompareListed(Instance, lists.instances, v0, gone);
      gone := CompareListed(Onetime, lists.onetimes, v0, gone);
      gone := CleanupListed(Pipeline, lists.pipelines, v0, gone);
      gone := CleanupListed(Instance, lists.instances, v0, gone);
      gone := CleanupListed(Onetime, lists.onetimes, v0, gone);
      AllRemoved(v0.l2, lists, gone);
    }
  }

  lemma AllRemoved(l2: map<string, Cell>, lists: Lists, gone: set<string>)
    requires gone == {} + OutdatedIn(Pipeline, lists.pipelines, l2) + OutdatedIn(Instance, lists.instances, l2)
                     + OutdatedIn(Onetime, lists.onetimes, l2) + OrphanedIn(Pipeline, lists.pipelines, l2)
                     + OrphanedIn(Instance, lists.instances, l2) + OrphanedIn(Onetime, lists.onetimes, l2)
    ensures l2 - gone == Reconciled(l2, lists)
    ensures l2.Keys - (l2 - gone).Keys == gone
  {
    forall k | k in l2 ensures k in gone <==> !Keeps(lists, k, l2[k]) {
      KindRemoves(Pipeline, lists.pipelines, l2, k);
      KindRemoves(Instance, lists.instances, l2, k);
      KindRemoves(Onetime, lists.onetimes, l2, k);
    }
    assert gone <= l2.Keys;
  }

  // ── What a pass achieves ────────────────────────────────────────────────────

  // A pass leaves of a listed kind exactly the keys that have a row and do not decode to
  // another version than it, and of everything else (kinds whose listing failed, keys
  // without a config prefix) exactly what was there.
  lemma PassIsExact(l2: map<string, Cell>, lists: Lists, kind: Kind, key: string)
    ensures var after := Reconciled(l2, lists);
            && (key in after ==> key in l2 && after[key] == l2[key])
            && (Prefix(kind) <= key && Of(lists, kind).Some? ==>
                  var rows, name := Of(lists, kind).value, key[|Prefix(kind)|..];
                  key in after <==>
                    key in l2 && name in rows &&
                    (l2[key].Valid? ==>
                       (if kind == Onetime && l2[key].row.version <= 0 then l2[key].row.createdAt else l2[key].row.version) ==
                       (if kind == Onetime && rows[name].version <= 0 then rows[name].createdAt else rows[name].version)))
            && (Prefix(kind) <= key && Of(lists, kind).None? ==> (key in after <==> key in l2))
            && ((forall other: Kind :: !(Prefix(other) <= key)) ==> (key in after <==> key in l2))
  {
    if Prefix(kind) <= key {
      PrefixesAreDisjoint(key, kind, Pipeline);
      PrefixesAreDisjoint(key, kind, Instance);
      PrefixesAreDisjoint(key, kind, Onetime);
    }
  }

  function KeyText(key: ConfigKey): string { Prefix(key.kind) + key.name }

  // A pass repairs what an overtaken reader left in the shared cache: the entry goes if
  // and only if its row is gone or has another version.
  lemma PassRepairsStaleEntry(s: BackfillProtocol.State, key: ConfigKey, l2: map<string, Cell>, lists: Lists)
    requires BackfillProtocol.Stale(s, key)
    requires KeyText(key) in l2 && l2[KeyText(key)] == s.l2[key].cell
    requires Of(lists, key.kind).Some? && Get(BackfillProtocol.Db(s), key) ==
             if key.name in Of(lists, key.kind).value then Some(Of(lists, key.kind).value[key.name]) else None
    ensures KeyText(key) !in Reconciled(l2, lists) <==>
            key !in BackfillProtocol.Db(s) ||
            var row, cached := BackfillProtocol.Db(s)[key], s.l2[key].cell.row;
            (if key.kind == Onetime && row.version <= 0 then row.createdAt else row.version) !=
            (if key.kind == Onetime && cached.version <= 0 then cached.createdAt else cached.version)
  {
    assert KeyText(key)[|Prefix(key.kind)|..] == key.name;
    PassIsExact(l2, lists, key.kind, KeyText(key));
  }

  // ── Onetime versions ────────────────────────────────────────────────────────

  // Rows stored before versions existed get one from their creation time, or the clock.
  function Backfilled(row: Row, now: int): Row {
    if row.version != 0 then row
    else row.(version := if row.createdAt > 0 then row.createdAt else now)
  }

  method BackfillOnetimeVersions(rows: map<string, Row>, now: int) returns (updated: map<string, Row>)
    ensures updated == map name | name in rows :: Backfilled(rows[name], now)
  {
    updated := rows;
    var todo := set name | name in rows && rows[name].version == 0;
    while todo != {}
      invariant updated.Keys == rows.Keys && forall name :: name in todo ==> name in rows && rows[name].version == 0
      invariant forall name :: name in rows ==>
                  updated[name] == if name in todo then rows[name] else Backfilled(rows[name], now)
      decreases |todo|
    {
      var name :| name in todo;
      var created := rows[name].createdAt;
      var version := if created <= 0 then now else created;
      updated := updated[name := updated[name].(version := version)];
      todo := todo - {name};
    }
  }

  // The backfill keeps the version that caches are compared by, and so makes no consistent
  // entry outdated, exactly on rows that had a version or a creation time after the epoch;
  // running it again changes nothing.
  lemma BackfillKeepsCacheVersion(row: Row, now: int, later: int)
    requires now > 0
    ensures OnetimeCacheVersion(Backfilled(row, now)) == OnetimeCacheVersion(row) <==> row.version != 0 || row.createdAt > 0
    ensures Backfilled(row, now).version != 0
    ensures Backfilled(Backfilled(row, now), later) == Backfilled(row, now)
  {}
}
