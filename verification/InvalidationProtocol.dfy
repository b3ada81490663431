// The config cache under concurrency: a database, a shared second level (Redis) and a
// first level on every replica. A write goes to the database, then deletes the key in its
// own first level and in the second, then publishes the key. Lookups are atomic here;
// BackfillProtocol takes them apart.
module InvalidationProtocol {
  import opened Wrappers
  import opened ConfigStore
  import opened Levels

  // `missed` are the keys whose notice was lost and not flushed for: with the connection
  // broken the flush is due, otherwise it is left to the next broken connection.
  datatype Replica = Replica(l1: map<ConfigKey, Row>, queue: seq<ConfigKey>, missed: set<ConfigKey>, link: Link)

  datatype Writer = Writer(replica: nat, key: ConfigKey, phase: Phase)

  datatype State = State(db: map<ConfigKey, Row>, l2: map<ConfigKey, Row>, replicas: map<nat, Replica>, writers: map<nat, Writer>)

  datatype Step =
    | Commit(writer: nat, replica: nat, key: ConfigKey, row: Option<Row>)
    | Advance(writer: nat)
    | Deliver(replica: nat)
    | Lose(replica: nat)
    | Reconnect(replica: nat)
    | Flush(replica: nat)
    | Lookup(replica: nat, key: ConfigKey)
    | ExpireL1(replica: nat, key: ConfigKey)
    | ExpireL2(key: ConfigKey)

  // First level, second level, database: the first that has the key answers.
  function Answer(s: State, r: nat, key: ConfigKey): Option<Row>
    requires r in s.replicas
  {
    if key in s.replicas[r].l1 then Some(s.replicas[r].l1[key])
    else if key in s.l2 then Some(s.l2[key])
    else Get(s.db, key)
  }

  // A database answer goes to the second level only with a positive version.
  function L2After(s: State, r: nat, key: ConfigKey): map<ConfigKey, Row>
    requires r in s.replicas
  {
    if key in s.replicas[r].l1 || key in s.l2 || key !in s.db || s.db[key].version <= 0 then s.l2
    else s.l2[key := s.db[key]]
  }

  function Announced(p: Replica, key: ConfigKey): Replica {
    if p.link != Up then p.(missed := p.missed + {key}) else p.(queue := p.queue + [key])
  }

  predicate Enabled(s: State, step: Step) {
    match step
    case Commit(w, r, _, _) => w !in s.writers && r in s.replicas
    case Advance(w) => w in s.writers && s.writers[w].replica in s.replicas
    case Deliver(r) => r in s.replicas && s.replicas[r].link == Up && s.replicas[r].queue != []
    case Lose(r) => r in s.replicas && s.replicas[r].link == Up
    case Reconnect(r) => r in s.replicas && s.replicas[r].link == Cleared
    case Flush(r) => r in s.replicas && s.replicas[r].link != Up
    case Lookup(r, _) => r in s.replicas
    case ExpireL1(r, _) => r in s.replicas
    case ExpireL2(_) => true
  }

  function Do(s: State, step: Step): State
    requires Enabled(s, step)
  {
    match step
    case Commit(w, r, k, row) =>
      s.(db := Put(s.db, k, row), writers := s.writers[w := Writer(r, k, DeleteOwn)])
    case Advance(w) =>
      var writer := s.writers[w];
      var p := s.replicas[writer.replica];
      (match writer.phase
       case DeleteOwn =>
         s.(replicas := s.replicas[writer.replica := p.(l1 := p.l1 - {writer.key})],
            writers := s.writers[w := writer.(phase := DeleteShared)])
       case DeleteShared =>
         s.(l2 := s.l2 - {writer.key}, writers := s.writers[w := writer.(phase := Announce)])
       case Announce =>
         s.(replicas := map r | r in s.replicas :: Announced(s.replicas[r], writer.key), writers := s.writers - {w}))
    case Deliver(r) =>
      var p := s.replicas[r];
      s.(replicas := s.replicas[r := p.(l1 := p.l1 - {p.queue[0]}, queue := p.queue[1..])])
    case Lose(r) =>
      var p := s.replicas[r];
      s.(replicas := s.replicas[r := p.(queue := [], missed := p.missed + (set k | k in p.queue), link := Broken)])
    case Reconnect(r) =>
      s.(replicas := s.replicas[r := s.replicas[r].(link := Up)])
    case Flush(r) =>
      s.(replicas := s.replicas[r := s.replicas[r].(l1 := map[], missed := {}, link := Cleared)])
    case Lookup(r, k) =>
      var p := s.replicas[r];
      s.(l2 := L2After(s, r, k), replicas := s.replicas[r := p.(l1 := Put(p.l1, k, Answer(s, r, k)))])
    case ExpireL1(r, k) =>
      s.(replicas := s.replicas[r := s.replicas[r].(l1 := s.replicas[r].l1 - {k})])
    case ExpireL2(k) =>
      s.(l2 := s.l2 - {k})
  }

  // What a writer's phases do: its key leaves its own first level, then the second, and
  // then every replica is told of it or has missed it.
  lemma WriterPhases(s: State, w: nat)
    requires Enabled(s, Advance(w))
    ensures var Writer(r, key, phase) := s.writers[w];
            var t := Do(s, Advance(w));
            && t.db == s.db && t.replicas.Keys == s.replicas.Keys
            && (phase == DeleteOwn ==> key !in t.replicas[r].l1 && w in t.writers && t.writers[w].phase == DeleteShared)
            && (phase == DeleteShared ==> key !in t.l2 && w in t.writers && t.writers[w].phase == Announce)
            && (phase == Announce ==>
                  w !in t.writers &&
                  forall p :: p in s.replicas ==>
                    if s.replicas[p].link == Up then t.replicas[p].queue == s.replicas[p].queue + [key]
                    else t.replicas[p].missed == s.replicas[p].missed + {key})
  {}

  // What a connection does: breaking, it loses what waits; the flush that follows empties
  // the first level and makes up for it; a reconnection does neither.
  lemma ConnectionSteps(s: State, step: Step)
    requires Enabled(s, step) && (step.Lose? || step.Flush? || step.Reconnect?)
    ensures var p, q := s.replicas[step.replica], Do(s, step).replicas[step.replica];
            match step
            case Lose(_) => q == Replica(p.l1, [], p.missed + (set k | k in p.queue), Broken)
            case Flush(_) => q == Replica(map[], p.queue, {}, Cleared)
            case Reconnect(_) => q == Replica(p.l1, p.queue, p.missed, Up)
  {}

  // A lookup fills the first level with its answer, and the second from the database only
  // if neither level had the key and the row has a positive version.
  lemma LookupFills(s: State, r: nat, key: ConfigKey)
    requires Enabled(s, Lookup(r, key))
    ensures var t := Do(s, Lookup(r, key));
            && (if key in s.replicas[r].l1 then t.replicas[r].l1 == s.replicas[r].l1
                else if key in s.l2 then t.replicas[r].l1 == s.replicas[r].l1[key := s.l2[key]]
                else if key in s.db then t.replicas[r].l1 == s.replicas[r].l1[key := s.db[key]]
                else t.replicas[r].l1 == s.replicas[r].l1)
            && (if key !in s.replicas[r].l1 && key !in s.l2 && key in s.db && s.db[key].version > 0 then t.l2 == s.l2[key := s.db[key]]
                else t.l2 == s.l2)
  {}

  function Init(db: map<ConfigKey, Row>, replicas: set<nat>): State {
    State(db, map[], map r | r in replicas :: Replica(map[], [], {}, Up), map[])
  }

  function Run(db: map<ConfigKey, Row>, replicas: set<nat>, steps: seq<Step>): Option<State> {
    if steps == [] then Some(Init(db, replicas))
    else
      var before := Run(db, replicas, steps[..|steps| - 1]);
      var step := steps[|steps| - 1];
      if before.Some? && Enabled(before.value, step) then Some(Do(before.value, step)) else None
  }

  // ── What every step keeps ───────────────────────────────────────────────────

  ghost predicate Stale(rows: map<ConfigKey, Row>, db: map<ConfigKey, Row>, key: ConfigKey) {
    key in rows && Get(db, key) != Some(rows[key])
  }

  // A writer of the key that has not deleted it in the second level yet.
  ghost predicate Deleting(s: State, key: ConfigKey) {
    exists w :: w in s.writers && s.writers[w].key == key && s.writers[w].phase != Announce
  }

  ghost predicate Writing(s: State, key: ConfigKey) {
    exists w :: w in s.writers && s.writers[w].key == key
  }

  ghost predicate L2Inv(s: State) {
    forall k :: Stale(s.l2, s.db, k) ==> Deleting(s, k)
  }

  ghost predicate L1Excused(s: State, p: Replica, key: ConfigKey) {
    Writing(s, key) || key in p.queue || key in p.missed
  }

  ghost predicate L1Inv(s: State) {
    forall r, k :: r in s.replicas && Stale(s.replicas[r].l1, s.db, k) ==> L1Excused(s, s.replicas[r], k)
  }

  ghost predicate Inv(s: State) { L2Inv(s) && L1Inv(s) }

  // Writers that go on existing keep excusing what they excused.
  lemma WritersKeepExcusing(s: State, t: State, w: nat, key: ConfigKey)
    requires forall x :: x in s.writers && x != w ==> x in t.writers && t.writers[x] == s.writers[x]
    requires w in s.writers && key == s.writers[w].key ==> w in t.writers && t.writers[w].key == key
    ensures Writing(s, key) ==> Writing(t, key)
  {
    if Writing(s, key) {
      var x :| x in s.writers && s.writers[x].key == key;
      assert x in t.writers && t.writers[x].key == key;
    }
  }

  lemma CommitKeepsInv(s: State, step: Step)
    requires Inv(s) && Enabled(s, step) && step.Commit?
    ensures Inv(Do(s, step))
  {
    var t := Do(s, step);
    assert t.writers[step.writer].key == step.key && t.writers[step.writer].phase != Announce;
    forall k | Stale(t.l2, t.db, k) ensures Deleting(t, k) {
      if k != step.key {
        assert Stale(s.l2, s.db, k);
        var w :| w in s.writers && s.writers[w].key == k && s.writers[w].phase != Announce;
        assert t.writers[w] == s.writers[w];
      }
    }
    forall r, k | r in t.replicas && Stale(t.replicas[r].l1, t.db, k) ensures L1Excused(t, t.replicas[r], k) {
      if k != step.key {
        assert Stale(s.replicas[r].l1, s.db, k);
        WritersKeepExcusing(s, t, step.writer, k);
      }
    }
  }

  lemma AdvanceKeepsInv(s: State, step: Step)
    requires Inv(s) && Enabled(s, step) && step.Advance?
    ensures Inv(Do(s, step))
  {
    var t := Do(s, step);
    var writer := s.writers[step.writer];
    forall k | Stale(t.l2, t.db, k) ensures Deleting(t, k) {
      assert Stale(s.l2, s.db, k);
      var w :| w in s.writers && s.writers[w].key == k && s.writers[w].phase != Announce;
      assert w in t.writers && t.writers[w].key == k && t.writers[w].phase != Announce;
    }
    forall r, k | r in t.replicas && Stale(t.replicas[r].l1, t.db, k) ensures L1Excused(t, t.replicas[r], k) {
      assert Stale(s.replicas[r].l1, s.db, k);
      assert L1Excused(s, s.replicas[r], k);
      if writer.phase == Announce && k == writer.key {
        assert t.replicas[r] == Announced(s.replicas[r], k);
      } else {
        WritersKeepExcusing(s, t, step.writer, k);
      }
    }
  }

  // A step of one replica that only drops first-level entries or links.
  lemma ReplicaStepKeepsInv(s: State, step: Step)
    requires Inv(s) && Enabled(s, step)
    requires step.Deliver? || step.Lose? || step.Reconnect? || step.Flush? || step.ExpireL1?
    ensures Inv(Do(s, step))
  {
    var t := Do(s, step);
    forall k | Stale(t.l2, t.db, k) ensures Deleting(t, k) {
      assert Stale(s.l2, s.db, k);
    }
    forall r, k | r in t.replicas && Stale(t.replicas[r].l1, t.db, k) ensures L1Excused(t, t.replicas[r], k) {
      var p := s.replicas[r];
      assert Stale(p.l1, s.db, k) && L1Excused(s, p, k);
      assert Writing(s, k) ==> Writing(t, k);
      if step.Deliver? && r == step.replica {
        assert p.queue == [p.queue[0]] + p.queue[1..];
      }
    }
  }

  lemma LookupKeepsInv(s: State, step: Step)
    requires Inv(s) && Enabled(s, step) && (step.Lookup? || step.ExpireL2?)
    ensures Inv(Do(s, step))
  {
    var t := Do(s, step);
    forall k | Stale(t.l2, t.db, k) ensures Deleting(t, k) {
      assert Stale(s.l2, s.db, k);
    }
    forall r, k | r in t.replicas && Stale(t.replicas[r].l1, t.db, k) ensures L1Excused(t, t.replicas[r], k) {
      assert Writing(s, k) ==> Writing(t, k);
      if !Stale(s.replicas[r].l1, s.db, k) {
        // Filled just now: a stale value can only have come from the second level.
        assert Stale(s.l2, s.db, k) && Deleting(s, k);
      }
    }
  }

  lemma StepKeepsInv(s: State, step: Step)
    requires Inv(s) && Enabled(s, step)
    ensures Inv(Do(s, step))
  {
    match step
    case Commit(_, _, _, _) => CommitKeepsInv(s, step);
    case Advance(_) => AdvanceKeepsInv(s, step);
    case Lookup(_, _) => LookupKeepsInv(s, step);
    case ExpireL2(_) => LookupKeepsInv(s, step);
    case _ => ReplicaStepKeepsInv(s, step);
  }

  // ── Safety over whole runs ──────────────────────────────────────────────────

  // In every reachable state a stale second-level entry has a writer between its database
  // write and its second-level delete; a stale first-level entry has an unpublished
  // writer, a queued invalidation, or one that was lost and not flushed for.
  lemma {:induction false} StaleEntriesAreExcused(db: map<ConfigKey, Row>, replicas: set<nat>, steps: seq<Step>)
    requires Run(db, replicas, steps).Some?
    ensures Inv(Run(db, replicas, steps).value)
  {
    if steps != [] {
      var before := steps[..|steps| - 1];
      StaleEntriesAreExcused(db, replicas, before);
      StepKeepsInv(Run(db, replicas, before).value, steps[|steps| - 1]);
    }
  }

  // A lookup answers with the database row, or that there is none, unless the key is
  // being invalidated or its notice was lost and not flushed for.
  lemma LookupIsFresh(db: map<ConfigKey, Row>, replicas: set<nat>, steps: seq<Step>, s: State, r: nat, key: ConfigKey)
    requires Run(db, replicas, steps) == Some(s) && r in s.replicas && !L1Excused(s, s.replicas[r], key)
    ensures Answer(s, r, key) == Get(s.db, key)
  {
    StaleEntriesAreExcused(db, replicas, steps);
    assert !Stale(s.replicas[r].l1, s.db, key);
    assert Deleting(s, key) ==> Writing(s, key);
    assert !Stale(s.l2, s.db, key);
  }

  // ── Lost notices ────────────────────────────────────────────────────────────

  // A notice is lost with a breaking connection, which flushes next, or while there is no
  // connection; only a flush takes it off the list, a reconnection does not.
  lemma LostWithoutConnection(s: State, step: Step, r: nat, key: ConfigKey)
    requires Enabled(s, step) && r in s.replicas
    ensures var p, q := s.replicas[r], Do(s, step).replicas[r];
            && (key in q.missed && key !in p.missed ==>
                  q.link != Up && if p.link == Up then q.link == Broken && key in p.queue else q.link == p.link)
            && (key in p.missed && key !in q.missed ==> step == Flush(r) && q.l1 == map[])
  {}

  lemma Append(db: map<ConfigKey, Row>, replicas: set<nat>, steps: seq<Step>, s: State, step: Step) returns (more: seq<Step>, t: State)
    requires Run(db, replicas, steps) == Some(s) && Enabled(s, step)
    ensures Run(db, replicas, more) == Some(t) && t == Do(s, step)
  {
    more, t := steps + [step], Do(s, step);
    assert more[..|steps|] == steps;
  }

  // A notice published between the last flush and the reconnection is never flushed for:
  // nothing is pending, the connection is up, and the old row stays in the first level.
  lemma LostNoticeLeavesOldRow(key: ConfigKey, prior: Row, next: Row) returns (steps: seq<Step>, s: State)
    ensures Run(map[key := prior], {0, 1}, steps) == Some(s)
    ensures s.writers == map[] && s.db == map[key := next] && key !in s.l2
    ensures forall r :: r in s.replicas ==> s.replicas[r].link == Up && s.replicas[r].queue == []
    ensures 0 in s.replicas && s.replicas[0].l1 == map[key := prior] && s.replicas[0].missed == {key}
  {
    var db, all := map[key := prior], {0, 1};
    steps, s := CachesThenCommits(key, prior, next);
    steps, s := Invalidates(db, all, steps, s, key);
    steps, s := Append(db, all, steps, s, Reconnect(0));
    steps, s := Append(db, all, steps, s, Deliver(1));
  }

  // Replica 0 caches the row after its flush, then replica 1 writes.
  lemma CachesThenCommits(key: ConfigKey, prior: Row, next: Row) returns (steps: seq<Step>, s: State)
    ensures Run(map[key := prior], {0, 1}, steps) == Some(s)
    ensures s.writers == map[0 := Writer(1, key, DeleteOwn)] && s.db == map[key := next] && s.replicas.Keys == {0, 1}
    ensures s.replicas[0] == Replica(map[key := prior], [], {}, Cleared) && s.replicas[1] == Replica(map[], [], {}, Up)
  {
    var db, all := map[key := prior], {0, 1};
    steps, s := Append(db, all, [], Init(db, all), Lose(0));
    steps, s := Append(db, all, steps, s, Flush(0));
    assert s.replicas[0] == Replica(map[], [], {}, Cleared) && s.replicas[1] == Replica(map[], [], {}, Up);
    steps, s := Append(db, all, steps, s, Lookup(0, key));
    steps, s := Append(db, all, steps, s, Commit(0, 1, key, Some(next)));
    assert s.db == map[key := next];
  }

  // The whole invalidation of a key by replica 1, while replica 0 has no connection.
  lemma Invalidates(db: map<ConfigKey, Row>, all: set<nat>, steps: seq<Step>, s: State, key: ConfigKey) returns (more: seq<Step>, t: State)
    requires Run(db, all, steps) == Some(s) && s.writers == map[0 := Writer(1, key, DeleteOwn)]
    requires s.replicas.Keys == {0, 1} && s.replicas[0].link == Cleared && s.replicas[1] == Replica(map[], [], {}, Up)
    ensures Run(db, all, more) == Some(t) && t.writers == map[] && t.db == s.db && key !in t.l2
    ensures t.replicas.Keys == {0, 1} && t.replicas[1].link == Up && t.replicas[1].queue == [key]
    ensures t.replicas[0] == s.replicas[0].(missed := s.replicas[0].missed + {key})
  {
    more, t := Append(db, all, steps, s, Advance(0));
    assert t.writers == map[0 := Writer(1, key, DeleteShared)] && t.replicas[1].queue == [];
    more, t := Append(db, all, more, t, Advance(0));
    assert t.writers == map[0 := Writer(1, key, Announce)];
    more, t := Append(db, all, more, t, Advance(0));
    assert t.writers == map[] && [] + [key] == [key];
  }
}
