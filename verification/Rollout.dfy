// From the admin's change to the agent: what a canary, an update or a withdrawn mapping
// leaves on an agent after its next heartbeat.
module Rollout {
  import opened Wrappers
  import opened Canary
  import opened ConfigStore
  import opened History
  import H = Heartbeat
  import M = Manager

  // The configs of one kind in a delivery, in some order.
  ghost predicate Lists(delivery: Delivery, kind: Kind, server: seq<H.Config>) {
    && H.DistinctNames(server)
    && (forall c :: c in server ==>
          var key := ConfigKey(kind, c.name);
          key in delivery && c.version == delivery[key].version && c.detail == delivery[key].detail)
    && (forall key :: key in delivery && key.kind == kind ==> H.Config(key.name, delivery[key].version, delivery[key].detail) in server)
  }

  // What the store delivers, or the manager for some names.
  ghost predicate Answers(env: Env, db: Db, m: Match, delivery: Delivery, names: set<ConfigKey>) {
    delivery == Delivered(env, db, m) || delivery == M.Hydrated(env, db, m, names)
  }

  // An agent the rolling canary accepts has its content and version after one heartbeat,
  // whatever other version it held.
  lemma CanaryReachesAgent(env: Env, db: Db, m: Match, names: set<ConfigKey>, delivery: Delivery, key: ConfigKey,
                           server: seq<H.Config>, state: H.AgentState, fullState: bool, updates: seq<H.Config>)
    requires Answers(env, db, m, delivery, names) && key in delivery && key.kind != Onetime
    requires key in db.canaries && db.canaries[key].status == Status.Rolling && Eligible(env, db.canaries[key], m, key.name) == Ok(true)
    requires db.canaries[key].detail != [] && db.canaries[key].version != H.DELETED
    requires Lists(delivery, key.kind, server) && H.IsDiff(server, H.Versions(state), fullState, updates)
    requires fullState || key.name !in state || state[key.name].version != db.canaries[key].version
    ensures key.name in H.Apply(state, updates)
    ensures H.Apply(state, updates)[key.name] == H.Held(db.canaries[key].version, db.canaries[key].detail)
  {
    var c := H.Config(key.name, db.canaries[key].version, db.canaries[key].detail);
    assert key == ConfigKey(key.kind, c.name) && c in server;
    H.OutdatedIsReplaced(state, server, fullState, updates, c);
  }

  // Any other agent has the stable row.
  lemma OthersKeepStable(env: Env, db: Db, m: Match, names: set<ConfigKey>, delivery: Delivery, key: ConfigKey,
                         server: seq<H.Config>, state: H.AgentState, fullState: bool, updates: seq<H.Config>)
    requires Answers(env, db, m, delivery, names) && key in delivery && key.kind != Onetime
    requires !(key in db.canaries && db.canaries[key].status == Status.Rolling && Eligible(env, db.canaries[key], m, key.name) == Ok(true))
    requires key in db.rows && db.rows[key].detail != [] && db.rows[key].version != H.DELETED
    requires Lists(delivery, key.kind, server) && H.IsDiff(server, H.Versions(state), fullState, updates)
    requires fullState || key.name !in state || state[key.name].version != db.rows[key].version
    ensures key.name in H.Apply(state, updates)
    ensures H.Apply(state, updates)[key.name] == H.Held(db.rows[key].version, db.rows[key].detail)
  {
    var c := H.Config(key.name, db.rows[key].version, db.rows[key].detail);
    assert key == ConfigKey(key.kind, c.name) && c in server;
    H.OutdatedIsReplaced(state, server, fullState, updates, c);
  }

  // A config that leaves its last group, or is deleted, is gone from every agent after its
  // next heartbeat.
  lemma WithdrawnIsRemoved(env: Env, db: Db, w: Write, m: Match, key: ConfigKey, server: seq<H.Config>, state: H.AgentState,
                           fullState: bool, updates: seq<H.Config>)
    requires || w == Write.DeleteConfig(key)
             || (w.RemoveGroupConfig? && w.mapping.key == key &&
                 forall other :: other in db.mappings && other.key == key ==> other == w.mapping)
    requires Lists(Delivered(env, Written(db, w).value, m), key.kind, server) && H.Issued(server)
    requires H.IsDiff(server, H.Versions(state), fullState, updates)
    ensures key.name !in H.Apply(state, updates)
  {
    var after := Written(db, w).value;
    if w.RemoveGroupConfig? {
      RemovalUnassigns(env, db, w.mapping, m, key);
    } else {
      RowsAfter(db, w, key);
    }
    assert key !in Names(env, after, m);
    forall c | c in server ensures c.name != key.name {
      assert ConfigKey(key.kind, c.name) in Delivered(env, after, m);
    }
    H.UnassignedIsRemoved(state, server, fullState, updates, key.name);
  }

  // ── What the admin operations deliver ───────────────────────────────────────

  // An accepted update is what agents without a canary receive, at the clock's version.
  lemma UpdateIsDelivered(env: Env, valid: seq<Fnv.Byte> -> bool, s: State, t: State, key: ConfigKey, detail: Bytes, now: int, m: Match)
    requires Updates(valid, s, t, key, detail, now, Response.Done) && !IsCurrent(s, key, detail)
    requires key.kind != Onetime && key in Names(env, s.db, m)
    requires key in s.db.canaries ==> s.db.canaries[key].status != Status.Rolling
    ensures key in Delivered(env, t.db, m)
    ensures Delivered(env, t.db, m)[key].version == now && Delivered(env, t.db, m)[key].detail == detail
  {
    SameGroupsSameNames(env, s.db, t.db, m);
  }

  // So is a content that was rolled back to.
  lemma RollbackIsDelivered(env: Env, s: State, t: State, key: ConfigKey, id: nat, now: int, m: Match)
    requires RollsBack(s, t, key, id, now, Response.Done)
    requires key.kind != Onetime && key in Names(env, s.db, m)
    requires key in s.db.canaries ==> s.db.canaries[key].status != Status.Rolling
    ensures id < |s.history| && key in Delivered(env, t.db, m)
    ensures Delivered(env, t.db, m)[key].version == now && Delivered(env, t.db, m)[key].detail == s.history[id].detail
  {
    SameGroupsSameNames(env, s.db, t.db, m);
  }

  // A created config is what the agents of a waiting mapping receive.
  lemma CreationIsDelivered(env: Env, valid: seq<Fnv.Byte> -> bool, s: State, t: State, key: ConfigKey, detail: Bytes, now: int, m: Match)
    requires Creates(valid, s, t, key, detail, now, NewlyCreated)
    requires key.kind != Onetime && key !in s.db.canaries && Waiting(env, s.db, key, m)
    ensures key in Delivered(env, t.db, m)
    ensures Delivered(env, t.db, m)[key].version == now && Delivered(env, t.db, m)[key].detail == detail
  {
    forall g ensures GroupMatches(env, t.db, m, g) <==> GroupMatches(env, s.db, m, g) {
      OtherGroupMatches(env, s.db, t.db, m, g);
    }
  }

  // What an agent receives while a canary rolls.
  ghost predicate Receives(env: Env, db: Db, m: Match, key: ConfigKey, release: Release) {
    key in Delivered(env, db, m) && key in db.rows &&
    var row := Delivered(env, db, m)[key];
    if Eligible(env, release, m, key.name) == Ok(true) then row.version == release.version && row.detail == release.detail
    else row == db.rows[key]
  }

  // A canary that was started is offered at once: with the payload's selectors and
  // percentage, at the clock's version.
  lemma StartIsDelivered(env: Env, valid: seq<Fnv.Byte> -> bool, s: State, t: State, key: ConfigKey, payload: Payload, now: int, m: Match)
    requires Starts(valid, s, t, key, payload, now, NewlyCreated)
    requires key.kind != Onetime && key in Names(env, s.db, m)
    ensures Receives(env, t.db, m, key,
              Release(payload.detail, now, payload.percent, payload.versionConstraint, payload.ipSelector, payload.tagSelector, Status.Rolling))
  {
    SameGroupsSameNames(env, s.db, t.db, m);
    DeliveredRow(env, ActiveCanaries(t.db), t.db, m, key, t.db.rows[key]);
  }

  // An edit of a rolling canary takes effect at once; new content has the clock's version.
  lemma EditIsDelivered(env: Env, valid: seq<Fnv.Byte> -> bool, s: State, t: State, key: ConfigKey, payload: Payload, now: int, m: Match)
    requires Edits(valid, s, t, key, payload, now, Response.Done)
    requires key.kind != Onetime && key in Names(env, s.db, m)
    requires key in s.db.canaries && s.db.canaries[key].status == Status.Rolling
    ensures var version := if payload.detail == s.db.canaries[key].detail then s.db.canaries[key].version else now;
            Receives(env, t.db, m, key,
              Release(payload.detail, version, payload.percent, payload.versionConstraint, payload.ipSelector, payload.tagSelector, Status.Rolling))
  {
    SameGroupsSameNames(env, s.db, t.db, m);
    DeliveredRow(env, ActiveCanaries(t.db), t.db, m, key, t.db.rows[key]);
  }

  // A new percentage decides who receives the canary from then on; content, version and
  // selectors stay.
  lemma PercentIsDelivered(env: Env, s: State, t: State, key: ConfigKey, percent: int, m: Match)
    requires SetsPercent(s, t, key, percent, Response.Done)
    requires key.kind != Onetime && key in Names(env, s.db, m)
    ensures key in s.db.canaries && Receives(env, t.db, m, key, s.db.canaries[key].(percent := percent))
    ensures Targeted(env, s.db.canaries[key], m) == Ok(true) && Bucket(env, m, key.name).Some? ==>
              var row := Delivered(env, t.db, m)[key];
              if Bucket(env, m, key.name).value < percent then row.detail == s.db.canaries[key].detail else row == s.db.rows[key]
  {
    SameGroupsSameNames(env, s.db, t.db, m);
    DeliveredRow(env, ActiveCanaries(t.db), t.db, m, key, t.db.rows[key]);
    var release := s.db.canaries[key].(percent := percent);
    EligibleIsTargetedInBucket(env, release, m, key.name);
    assert Targeted(env, release, m) == Targeted(env, s.db.canaries[key], m);
  }

  // Promotion gives all agents the canary's content, at the clock's version if the stable
  // content was another one.
  lemma PromotionIsDelivered(env: Env, s: State, t: State, key: ConfigKey, now: int, m: Match)
    requires key in s.db.canaries && Promotes(s, t, key, now, Response.Done)
    requires key.kind != Onetime && key in Names(env, s.db, m)
    ensures key in Delivered(env, t.db, m) && Delivered(env, t.db, m)[key].detail == s.db.canaries[key].detail
    ensures key in s.db.rows && Delivered(env, t.db, m)[key].version ==
            if s.db.rows[key].detail == s.db.canaries[key].detail then s.db.rows[key].version else now
  {
    PromotionShowsCanaryToAll(env, s, t, key, now, m);
  }
}
