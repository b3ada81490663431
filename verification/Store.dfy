// The configuration database and its resolution query: which configs an agent receives.
module ConfigStore {
  import opened Wrappers
  import opened Canary
  import Fnv
  import IpSelector
  import SemVer

  const DEFAULT_GROUP: string := "default"

  datatype Kind = Pipeline | Instance | Onetime

  datatype ConfigKey = ConfigKey(kind: Kind, name: string)

  // A pipeline or instance config, or a onetime command (which alone has a deadline).
  datatype Row = Row(version: int, detail: Fnv.Bytes, expireTime: int, createdAt: int)

  datatype Group = Group(description: string, ipSelector: string, versionConstraint: string)

  datatype GroupTag = GroupTag(group: string, tag: Tag)

  datatype Mapping = Mapping(group: string, key: ConfigKey)

  datatype Db = Db(groups: map<string, Group>, tags: set<GroupTag>, mappings: set<Mapping>,
                   rows: map<ConfigKey, Row>, canaries: map<ConfigKey, Release>)

  datatype Error = BadSelector(reason: Canary.Error)

  type Delivery = map<ConfigKey, Row>

  // ── Which groups match ──────────────────────────────────────────────────────

  predicate TagMatches(db: Db, group: string, m: Match) {
    exists t :: t in m.tags && GroupTag(group, t) in db.tags
  }

  predicate SelectorAccepts(env: Env, selector: string, ip: string) {
    selector != "" && ip != "" && IpSelector.IPSelectorMatches(env.ip, selector, ip) == Ok(true)
  }

  // The closed form: a version constraint decides alone; without one a shared tag or a
  // matching address is enough. The default group matches everyone.
  predicate GroupMatches(env: Env, db: Db, m: Match, group: string) {
    || group == DEFAULT_GROUP
    || (&& group in db.groups
        && if db.groups[group].versionConstraint != ""
           then SemVer.MatchVersionConstraint(db.groups[group].versionConstraint, m.version)
           else TagMatches(db, group, m) || SelectorAccepts(env, db.groups[group].ipSelector, m.ip))
  }

  // The existing configs mapped to a matching group.
  function Names(env: Env, db: Db, m: Match): set<ConfigKey> {
    set mapping | mapping in db.mappings && mapping.key in db.rows && GroupMatches(env, db, m, mapping.group) :: mapping.key
  }

  // A selector that cannot be read fails every query of an agent with an address.
  predicate BrokenSelector(env: Env, db: Db, m: Match) {
    m.ip != "" && exists g :: g in db.groups && db.groups[g].ipSelector != "" &&
                              IpSelector.IPSelectorMatches(env.ip, db.groups[g].ipSelector, m.ip).Err?
  }

  // ── One resolution, query by query ──────────────────────────────────────────

  // The query takes no transaction: its parts may read different databases. In order:
  // groups by tag, by address, the constrained ones, their constraints, the mappings, and
  // the rows kind by kind.
  const QUERIES: nat := 8
  const MAPPINGS: nat := 4

  function RowsQuery(kind: Kind): nat {
    match kind
    case Pipeline => 5
    case Instance => 6
    case Onetime => 7
  }

  predicate StagedMatch(env: Env, dbs: seq<Db>, m: Match, g: string)
    requires |dbs| == QUERIES
  {
    || g == DEFAULT_GROUP
    || (&& (|| (g in dbs[0].groups && TagMatches(dbs[0], g, m))
            || (g in dbs[1].groups && SelectorAccepts(env, dbs[1].groups[g].ipSelector, m.ip))
            || (g in dbs[2].groups && dbs[2].groups[g].versionConstraint != ""))
        && !(g in dbs[3].groups && Excluded(dbs[3], m, g)))
  }

  // The names that a resolution finds.
  function StagedNames(env: Env, dbs: seq<Db>, m: Match): set<ConfigKey>
    requires |dbs| == QUERIES
  {
    set mapping | mapping in dbs[MAPPINGS].mappings && mapping.key in dbs[RowsQuery(mapping.key.kind)].rows &&
                  StagedMatch(env, dbs, m, mapping.group) :: mapping.key
  }

  // Queries that see the same groups, tags and mappings find the assigned names whose rows
  // were there when they were looked up.
  lemma StagedIsNames(env: Env, dbs: seq<Db>, db: Db, m: Match)
    requires |dbs| == QUERIES
    requires forall q :: 0 <= q < QUERIES ==>
               dbs[q].groups == db.groups && dbs[q].tags == db.tags && dbs[q].mappings == db.mappings &&
               dbs[q].rows.Keys <= db.rows.Keys
    ensures StagedNames(env, dbs, m) == set k | k in Names(env, db, m) && k in dbs[RowsQuery(k.kind)].rows
  {
    forall g ensures StagedMatch(env, dbs, m, g) <==> GroupMatches(env, db, m, g) {
      assert TagMatches(dbs[0], g, m) <==> TagMatches(db, g, m);
    }
    var staged, names := StagedNames(env, dbs, m), Names(env, db, m);
    forall k ensures k in staged <==> k in names && k in dbs[RowsQuery(k.kind)].rows {
      if k in staged {
        var mapping :| mapping in dbs[MAPPINGS].mappings && mapping.key == k && StagedMatch(env, dbs, m, mapping.group);
        assert mapping in db.mappings && k in db.rows;
      }
      if k in names && k in dbs[RowsQuery(k.kind)].rows {
        var mapping :| mapping in db.mappings && mapping.key == k && GroupMatches(env, db, m, mapping.group);
        assert mapping in dbs[MAPPINGS].mappings;
      }
    }
  }

  // ── The canary overlay ──────────────────────────────────────────────────────

  function ActiveCanaries(db: Db): map<ConfigKey, Release> {
    map k | k in db.canaries && db.canaries[k].status == Status.Rolling :: db.canaries[k]
  }

  function Overlaid(env: Env, rolling: map<ConfigKey, Release>, m: Match, key: ConfigKey, row: Row): Row {
    if key.kind != Onetime && key in rolling && Eligible(env, rolling[key], m, key.name) == Ok(true)
    then row.(detail := rolling[key].detail, version := rolling[key].version)
    else row
  }

  predicate CanaryFails(env: Env, rolling: map<ConfigKey, Release>, m: Match, key: ConfigKey) {
    key.kind != Onetime && key in rolling && Eligible(env, rolling[key], m, key.name).Err?
  }

  predicate BrokenCanary(env: Env, rolling: map<ConfigKey, Release>, m: Match, keys: set<ConfigKey>) {
    exists k :: k in keys && CanaryFails(env, rolling, m, k)
  }

  // Where the overlay stands: `todo` is still to be visited.
  ghost predicate OverlaidSoFar(env: Env, rolling: map<ConfigKey, Release>, rows: map<ConfigKey, Row>, m: Match,
                                keys: set<ConfigKey>, todo: set<ConfigKey>, delivery: Delivery)
    requires keys <= rows.Keys
  {
    && delivery.Keys == keys
    && (forall k :: k in keys && k in todo ==> delivery[k] == rows[k])
    && (forall k :: k in keys && k !in todo ==> !CanaryFails(env, rolling, m, k) && delivery[k] == Overlaid(env, rolling, m, k, rows[k]))
  }

  lemma OverlayStep(env: Env, rolling: map<ConfigKey, Release>, rows: map<ConfigKey, Row>, m: Match,
                    keys: set<ConfigKey>, todo: set<ConfigKey>, delivery: Delivery, k: ConfigKey)
    requires keys <= rows.Keys && OverlaidSoFar(env, rolling, rows, m, keys, todo, delivery)
    requires k in todo && todo <= keys && !CanaryFails(env, rolling, m, k)
    ensures OverlaidSoFar(env, rolling, rows, m, keys, todo - {k}, delivery[k := Overlaid(env, rolling, m, k, rows[k])])
  {}

  lemma OverlayEnd(env: Env, rolling: map<ConfigKey, Release>, rows: map<ConfigKey, Row>, m: Match,
                   keys: set<ConfigKey>, delivery: Delivery)
    requires keys <= rows.Keys && OverlaidSoFar(env, rolling, rows, m, keys, {}, delivery)
    ensures !BrokenCanary(env, rolling, m, keys)
    ensures delivery == map k | k in keys :: Overlaid(env, rolling, m, k, rows[k])
  {}

  // What the database says an agent receives.
  function Delivered(env: Env, db: Db, m: Match): Delivery {
    map k | k in Names(env, db, m) && k in db.rows :: Overlaid(env, ActiveCanaries(db), m, k, db.rows[k])
  }

  predicate Resolvable(env: Env, db: Db, m: Match) {
    !BrokenSelector(env, db, m) && !BrokenCanary(env, ActiveCanaries(db), m, Names(env, db, m))
  }

  // What an assignment takes in terms of the tables: the config exists and is mapped to the
  // default group, or to a group whose version constraint the agent meets, or that has no
  // constraint and shares a tag with the agent or selects its address.
  lemma AssignedMeans(env: Env, db: Db, m: Match, key: ConfigKey)
    ensures key in Names(env, db, m) <==>
            key in db.rows &&
            exists mapping :: mapping in db.mappings && mapping.key == key &&
              (mapping.group == "default" ||
               (mapping.group in db.groups &&
                var group := db.groups[mapping.group];
                if group.versionConstraint != "" then SemVer.MatchVersionConstraint(group.versionConstraint, m.version)
                else (exists t :: t in m.tags && GroupTag(mapping.group, t) in db.tags) ||
                     (group.ipSelector != "" && m.ip != "" && IpSelector.IPSelectorMatches(env.ip, group.ipSelector, m.ip) == Ok(true))))
  {}

  // A delivered config carries content and version of its rolling canary if that accepts
  // the agent, and is its row otherwise.
  lemma DeliveredRow(env: Env, rolling: map<ConfigKey, Release>, db: Db, m: Match, key: ConfigKey, row: Row)
    requires rolling == ActiveCanaries(db)
    ensures var accepted := key.kind != Onetime && key in db.canaries && db.canaries[key].status == Status.Rolling &&
                            Eligible(env, db.canaries[key], m, key.name) == Ok(true);
            Overlaid(env, rolling, m, key, row) ==
            if accepted then Row(db.canaries[key].version, db.canaries[key].detail, row.expireTime, row.createdAt) else row
  {}

  // The query fails exactly on a selector of a group that cannot be read for an agent with
  // an address, or of the rolling canary of an assigned config.
  lemma FailsMeans(env: Env, db: Db, m: Match)
    ensures !Resolvable(env, db, m) <==>
            || (m.ip != "" && exists g :: g in db.groups && db.groups[g].ipSelector != "" &&
                                          IpSelector.IPSelectorMatches(env.ip, db.groups[g].ipSelector, m.ip).Err?)
            || (exists k :: k in Names(env, db, m) && k.kind != Onetime && k in db.canaries &&
                            db.canaries[k].status == Status.Rolling && Eligible(env, db.canaries[k], m, k.name).Err?)
  {
    forall k ensures CanaryFails(env, ActiveCanaries(db), m, k) <==>
                     k.kind != Onetime && k in db.canaries && db.canaries[k].status == Status.Rolling &&
                     Eligible(env, db.canaries[k], m, k.name).Err?
    {}
  }

  // More tags never lose a config.
  lemma MoreTagsMoreConfigs(env: Env, db: Db, m: Match, tags: seq<Tag>)
    requires forall t :: t in m.tags ==> t in tags
    ensures Names(env, db, m) <= Names(env, db, m.(tags := tags))
  {
    forall g | GroupMatches(env, db, m, g) ensures GroupMatches(env, db, m.(tags := tags), g) {}
  }

  // ── Writes ──────────────────────────────────────────────────────────────────

  datatype Write =
    | CreateGroup(name: string, group: Group)
    | SaveGroup(name: string, group: Group)
    | DeleteGroup(name: string)
    | SetGroupTags(name: string, tags: set<Tag>)
    | AddGroupConfig(mapping: Mapping)
    | RemoveGroupConfig(mapping: Mapping)
    | CreateConfig(key: ConfigKey, row: Row)
    | UpdateConfig(key: ConfigKey, version: int, detail: Fnv.Bytes)
    | DeleteConfig(key: ConfigKey)
    | CreateCanary(key: ConfigKey, release: Release)
    | SaveCanary(key: ConfigKey, release: Release)
    | DeleteCanary(key: ConfigKey)

  // The database after a write, or nothing if the write fails: a primary key that is
  // taken, or the default group. Deleting a config deletes its mappings.
  function Written(db: Db, w: Write): Option<Db> {
    match w
    case CreateGroup(name, group) => if name in db.groups then None else Some(db.(groups := db.groups[name := group]))
    case SaveGroup(name, group) => Some(db.(groups := db.groups[name := group]))
    case DeleteGroup(name) =>
      if name == DEFAULT_GROUP then None
      else Some(db.(groups := db.groups - {name},
                    tags := (set t | t in db.tags && t.group != name),
                    mappings := (set mapping | mapping in db.mappings && mapping.group != name)))
    case SetGroupTags(name, tags) =>
      Some(db.(tags := (set t | t in db.tags && t.group != name) + (set t | t in tags :: GroupTag(name, t))))
    case AddGroupConfig(mapping) => Some(db.(mappings := db.mappings + {mapping}))
    case RemoveGroupConfig(mapping) => Some(db.(mappings := db.mappings - {mapping}))
    case CreateConfig(key, row) => if key in db.rows then None else Some(db.(rows := db.rows[key := row]))
    case UpdateConfig(key, version, detail) =>
      Some(if key in db.rows then db.(rows := db.rows[key := db.rows[key].(version := version, detail := detail)]) else db)
    case DeleteConfig(key) =>
      Some(db.(rows := db.rows - {key}, mappings := (set mapping | mapping in db.mappings && mapping.key != key)))
    case CreateCanary(key, release) => if key in db.canaries then None else Some(db.(canaries := db.canaries[key := release]))
    case SaveCanary(key, release) => Some(db.(canaries := db.canaries[key := release]))
    case DeleteCanary(key) => Some(db.(canaries := db.canaries - {key}))
  }

  // What a write leaves in each table. It fails on a taken key and on the default group.
  lemma WriteFails(db: Db, w: Write)
    ensures Written(db, w).None? <==>
            || (w.CreateGroup? && w.name in db.groups) || w == DeleteGroup("default")
            || (w.CreateConfig? && w.key in db.rows) || (w.CreateCanary? && w.key in db.canaries)
  {}

  lemma GroupsAfter(db: Db, w: Write, g: string)
    requires Written(db, w).Some?
    ensures var after, saved := Written(db, w).value.groups, (w.CreateGroup? || w.SaveGroup?) && w.name == g;
            && (g in after <==> saved || (g in db.groups && w != DeleteGroup(g)))
            && (g in after ==> if saved then after[g] == w.group else g in db.groups && after[g] == db.groups[g])
  {}

  lemma TagsAfter(db: Db, w: Write, g: string, t: Tag)
    requires Written(db, w).Some?
    ensures GroupTag(g, t) in Written(db, w).value.tags <==>
            if w.SetGroupTags? && w.name == g then t in w.tags else GroupTag(g, t) in db.tags && w != DeleteGroup(g)
  {}

  lemma MappingsAfter(db: Db, w: Write, mapping: Mapping)
    requires Written(db, w).Some?
    ensures mapping in Written(db, w).value.mappings <==>
            || w == AddGroupConfig(mapping)
            || (mapping in db.mappings && w != RemoveGroupConfig(mapping) && w != DeleteGroup(mapping.group) && w != DeleteConfig(mapping.key))
  {}

  lemma RowsAfter(db: Db, w: Write, key: ConfigKey)
    requires Written(db, w).Some?
    ensures var after, created := Written(db, w).value.rows, w.CreateConfig? && w.key == key;
            && (key in after <==> created || (key in db.rows && w != DeleteConfig(key)))
            && (key in after ==>
                  if created then after[key] == w.row
                  else key in db.rows &&
                       if w.UpdateConfig? && w.key == key then after[key] == db.rows[key].(version := w.version, detail := w.detail)
                       else after[key] == db.rows[key])
  {}

  lemma CanariesAfter(db: Db, w: Write, key: ConfigKey)
    requires Written(db, w).Some?
    ensures var after, saved := Written(db, w).value.canaries, (w.CreateCanary? || w.SaveCanary?) && w.key == key;
            && (key in after <==> saved || (key in db.canaries && w != DeleteCanary(key)))
            && (key in after ==> if saved then after[key] == w.release else key in db.canaries && after[key] == db.canaries[key])
  {}

  lemma SameMatches(env: Env, a: Db, b: Db, m: Match)
    requires a.groups == b.groups && a.tags == b.tags
    ensures forall g :: GroupMatches(env, a, m, g) <==> GroupMatches(env, b, m, g)
  {
    forall g ensures GroupMatches(env, a, m, g) <==> GroupMatches(env, b, m, g) {
      assert TagMatches(a, g, m) <==> TagMatches(b, g, m);
    }
  }

  // A config that leaves a group is assigned only through another mapping, one that joins
  // a group through that one too, and leaving undoes joining.
  lemma RemovalUnassigns(env: Env, db: Db, mapping: Mapping, m: Match, key: ConfigKey)
    ensures var after := Written(db, RemoveGroupConfig(mapping)).value;
            && (key in Names(env, after, m) <==>
                  key in db.rows && exists other :: other in db.mappings && other != mapping && other.key == key && GroupMatches(env, db, m, other.group))
            && (key != mapping.key ==> (key in Names(env, after, m) <==> key in Names(env, db, m)))
  {
    var after := Written(db, RemoveGroupConfig(mapping)).value;
    SameMatches(env, db, after, m);
    forall other { MappingsAfter(db, RemoveGroupConfig(mapping), other); }
  }

  lemma AdditionAssigns(env: Env, db: Db, mapping: Mapping, m: Match, key: ConfigKey)
    ensures key in Names(env, Written(db, AddGroupConfig(mapping)).value, m) <==>
            key in Names(env, db, m) || (key == mapping.key && key in db.rows && GroupMatches(env, db, m, mapping.group))
  {
    var after := Written(db, AddGroupConfig(mapping)).value;
    SameMatches(env, db, after, m);
    forall other { MappingsAfter(db, AddGroupConfig(mapping), other); }
  }

  lemma AddThenRemove(env: Env, db: Db, mapping: Mapping, m: Match)
    requires mapping !in db.mappings
    ensures var added := Written(db, AddGroupConfig(mapping)).value;
            var removed := Written(added, RemoveGroupConfig(mapping)).value;
            removed == db && Names(env, removed, m) == Names(env, db, m)
  {}

  // Nothing is assigned through a deleted group, nor through one created anew in its name.
  lemma DeletedGroupAssignsNothing(env: Env, db: Db, g: string, group: Group, m: Match, key: ConfigKey)
    requires g != "default"
    ensures Written(db, DeleteGroup(g)).Some?
    ensures var after := Written(db, DeleteGroup(g)).value;
            && (key in Names(env, after, m) <==>
                  key in db.rows && exists other :: other in db.mappings && other.group != g && other.key == key && GroupMatches(env, db, m, other.group))
            && Written(after, CreateGroup(g, group)).Some?
            && (key in Names(env, Written(after, CreateGroup(g, group)).value, m) <==> key in Names(env, after, m))
  {
    var after := Written(db, DeleteGroup(g)).value;
    var anew := Written(after, CreateGroup(g, group)).value;
    forall h | h != g ensures GroupMatches(env, after, m, h) <==> GroupMatches(env, db, m, h)
                      ensures GroupMatches(env, anew, m, h) <==> GroupMatches(env, db, m, h)
    {
      OtherGroupMatches(env, db, after, m, h);
      OtherGroupMatches(env, db, anew, m, h);
    }
  }

  lemma OtherGroupMatches(env: Env, a: Db, b: Db, m: Match, g: string)
    requires g in a.groups <==> g in b.groups
    requires g in a.groups ==> a.groups[g] == b.groups[g]
    requires forall t :: GroupTag(g, t) in a.tags <==> GroupTag(g, t) in b.tags
    ensures GroupMatches(env, a, m, g) <==> GroupMatches(env, b, m, g)
  {
    assert TagMatches(a, g, m) <==> TagMatches(b, g, m);
  }

  // New tags decide whom their group matches, if it has no other condition, and no other
  // group.
  lemma NewTagsDecide(env: Env, db: Db, g: string, tags: set<Tag>, m: Match, h: string)
    requires g != "default" && g in db.groups && db.groups[g].versionConstraint == "" && db.groups[g].ipSelector == ""
    ensures var after := Written(db, SetGroupTags(g, tags)).value;
            && (GroupMatches(env, after, m, g) <==> exists t :: t in m.tags && t in tags)
            && (h != g ==> (GroupMatches(env, after, m, h) <==> GroupMatches(env, db, m, h)))
  {
    var after := Written(db, SetGroupTags(g, tags)).value;
    forall t { TagsAfter(db, SetGroupTags(g, tags), g, t); }
    if h != g {
      OtherGroupMatches(env, db, after, m, h);
    }
  }

  // Pipeline and instance configs are created and updated without a new epoch.
  predicate KeepsEpoch(w: Write) {
    (w.CreateConfig? && w.key.kind != Onetime) || w.UpdateConfig?
  }

  // A mapping for the name is there, in a group the agent matches.
  ghost predicate Waiting(env: Env, db: Db, key: ConfigKey, m: Match) {
    exists mapping :: mapping in db.mappings && mapping.key == key && GroupMatches(env, db, m, mapping.group)
  }

  // Creating a config changes what an agent is assigned exactly when a mapping for the
  // name was already waiting in one of its groups.
  lemma CreationChangesNames(env: Env, db: Db, key: ConfigKey, row: Row, m: Match)
    requires key !in db.rows
    ensures var after := db.(rows := db.rows[key := row]);
            Names(env, after, m) == Names(env, db, m) <==> !Waiting(env, db, key, m)
  {
    var after := db.(rows := db.rows[key := row]);
    forall g ensures GroupMatches(env, after, m, g) <==> GroupMatches(env, db, m, g) {}
    assert key !in Names(env, db, m);
    forall k | k != key ensures k in Names(env, after, m) <==> k in Names(env, db, m) {}
    assert key in Names(env, after, m) <==> Waiting(env, db, key, m);
  }

  lemma UpdateKeepsNames(env: Env, db: Db, key: ConfigKey, row: Row, m: Match)
    requires key in db.rows
    ensures Names(env, db.(rows := db.rows[key := row]), m) == Names(env, db, m)
  {
    var after := db.(rows := db.rows[key := row]);
    forall g ensures GroupMatches(env, after, m, g) <==> GroupMatches(env, db, m, g) {}
  }

  // ── The database ────────────────────────────────────────────────────────────

  class Store {
    var db: Db
    const env: Env

    constructor (env: Env)
      ensures this.env == env
      ensures db == Db(map[DEFAULT_GROUP := Group("", "", "")], {}, {}, map[], map[])
    {
      this.env := env;
      db := Db(map[DEFAULT_GROUP := Group("", "", "")], {}, {}, map[], map[]);
    }

    method Apply(w: Write) returns (ok: bool)
      modifies this
      ensures ok == Written(old(db), w).Some?
      ensures db == if ok then Written(old(db), w).value else old(db)
    {
      var after := Written(db, w);
      ok := after.Some?;
      if ok {
        db := after.value;
      }
    }

    // The groups whose address selector accepts the agent.
    method AddressGroups(m: Match) returns (r: Result<set<string>, Error>)
      requires m.ip != ""
      ensures r.Err? <==> BrokenSelector(env, db, m)
      ensures r.Ok? ==> forall g :: g in r.value <==> g in db.groups && SelectorAccepts(env, db.groups[g].ipSelector, m.ip)
    {
      var selected := set g | g in db.groups && db.groups[g].ipSelector != "";
      var names, todo := {}, selected;
      while todo != {}
        invariant todo <= selected
        invariant forall g :: g in selected - todo ==> AddressMatch(env, db.groups[g], m.ip).Ok?
        invariant forall g :: g in names <==> g in selected - todo && AddressMatch(env, db.groups[g], m.ip) == Ok(true)
        decreases |todo|
      {
        var g :| g in todo;
        match AddressMatch(env, db.groups[g], m.ip) {
          case Err(e) => return Err(BadSelector(BadIpSelector(e)));
          case Ok(matched) => if matched { names := names + {g}; }
        }
        todo := todo - {g};
      }
      return Ok(names);
    }

    // Removes the non-default groups whose version constraint the agent fails.
    method FilterVersions(m: Match, candidates: set<string>) returns (names: set<string>)
      requires DEFAULT_GROUP in candidates && candidates <= db.groups.Keys + {DEFAULT_GROUP}
      ensures forall g :: g in names <==> g in candidates && (g == DEFAULT_GROUP || !Excluded(db, m, g))
    {
      names := candidates;
      if |candidates| > 1 {
        var constrained := candidates - {DEFAULT_GROUP};
        var todo := constrained;
        while todo != {}
          invariant todo <= constrained
          invariant forall g :: g in names <==> g in candidates && !(g in constrained - todo && Excluded(db, m, g))
          decreases |todo|
        {
          var g :| g in todo;
          if Excluded(db, m, g) {
            names := names - {g};
          }
          todo := todo - {g};
        }
      } else {
        OnlyDefault(candidates);
      }
    }

    // The staged selection: groups with a matching tag, then a matching address, then
    // every constrained group, from which the version filter removes.
    method MatchedGroups(m: Match) returns (r: Result<set<string>, Error>)
      ensures r.Err? <==> BrokenSelector(env, db, m)
      ensures r.Ok? ==> DEFAULT_GROUP in r.value
      ensures r.Ok? ==> forall g :: g in r.value <==> GroupMatches(env, db, m, g)
    {
      var names := {DEFAULT_GROUP};
      if |m.tags| > 0 {
        names := names + set g | g in db.groups && TagMatches(db, g, m);
      }
      if m.ip != "" {
        var addressed := AddressGroups(m);
        if addressed.Err? {
          return addressed;
        }
        names := names + addressed.value;
      }
      names := names + set g | g in db.groups && db.groups[g].versionConstraint != "";
      names := FilterVersions(m, names);
      return Ok(names);
    }

    // Replaces detail and version of the configs whose rolling canary accepts the agent.
    method ApplyCanaries(m: Match, keys: set<ConfigKey>) returns (r: Result<Delivery, Error>)
      requires keys <= db.rows.Keys
      ensures r.Err? <==> BrokenCanary(env, ActiveCanaries(db), m, keys)
      ensures r.Ok? ==> r.value == map k | k in keys :: Overlaid(env, ActiveCanaries(db), m, k, db.rows[k])
      ensures r.Ok? ==> forall k :: k in r.value ==>
                k in db.rows && r.value[k] ==
                if k.kind != Onetime && k in db.canaries && db.canaries[k].status == Status.Rolling &&
                   Eligible(env, db.canaries[k], m, k.name) == Ok(true)
                then Row(db.canaries[k].version, db.canaries[k].detail, db.rows[k].expireTime, db.rows[k].createdAt)
                else db.rows[k]
    {
      var delivery: Delivery := map k | k in keys :: db.rows[k];
      var rolling := ActiveCanaries(db);
      var todo := keys;
      while todo != {}
        invariant todo <= keys && OverlaidSoFar(env, rolling, db.rows, m, keys, todo, delivery)
        decreases |todo|
      {
        var k: ConfigKey :| k in todo;
        ghost var before := delivery;
        if k.kind != Onetime && k in rolling {
          var release, row := rolling[k], db.rows[k];
          match Eligible(env, release, m, k.name) {
            case Err(e) => return Err(BadSelector(e));
            case Ok(eligible) =>
              if eligible {
                delivery := delivery[k := row.(detail := release.detail, version := release.version)];
              }
          }
        }
        OverlayStep(env, rolling, db.rows, m, keys, todo, before, k);
        assert delivery == before[k := Overlaid(env, rolling, m, k, db.rows[k])];
        todo := todo - {k};
      }
      OverlayEnd(env, rolling, db.rows, m, keys, delivery);
      forall k | k in keys { DeliveredRow(env, rolling, db, m, k, db.rows[k]); }
      return Ok(delivery);
    }

    method GetConfigsForAgent(m: Match) returns (r: Result<Delivery, Error>)
      ensures r.Ok? <==> Resolvable(env, db, m)
      ensures r.Ok? ==> r.value == Delivered(env, db, m)
      ensures r.Ok? ==> forall k :: k in r.value ==>
                k in db.rows && r.value[k] ==
                if k.kind != Onetime && k in db.canaries && db.canaries[k].status == Status.Rolling &&
                   Eligible(env, db.canaries[k], m, k.name) == Ok(true)
                then Row(db.canaries[k].version, db.canaries[k].detail, db.rows[k].expireTime, db.rows[k].createdAt)
                else db.rows[k]
    {
      var groups := MatchedGroups(m);
      if groups.Err? {
        return Err(groups.error);
      }
      var keys := set mapping | mapping in db.mappings && mapping.group in groups.value && mapping.key in db.rows :: mapping.key;
      assert keys == Names(env, db, m);
      r := ApplyCanaries(m, keys);
    }
  }

  function AddressMatch(env: Env, group: Group, ip: string): Result<bool, IpSelector.Error> {
    IpSelector.IPSelectorMatches(env.ip, group.ipSelector, ip)
  }

  predicate Excluded(db: Db, m: Match, group: string)
    requires group in db.groups
  {
    && db.groups[group].versionConstraint != ""
    && !SemVer.MatchVersionConstraint(db.groups[group].versionConstraint, m.version)
  }

  lemma OnlyDefault(names: set<string>)
    requires DEFAULT_GROUP in names && |names| <= 1
    ensures names == {DEFAULT_GROUP}
  {
    assert |names - {DEFAULT_GROUP}| == 0;
    assert names == (names - {DEFAULT_GROUP}) + {DEFAULT_GROUP};
  }
}
