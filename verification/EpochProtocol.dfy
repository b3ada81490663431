// The resolution cache under concurrency: any number of replicas, readers and structural
// writers. Entries are stored under the epoch their reader loaded before its first query;
// every invalidation that reaches a replica bumps its epoch. Configs are created and updated
// without one.
module EpochProtocol {
  import opened Wrappers
  import opened Canary
  import opened ConfigStore
  import opened Levels
  import ResolveKey

  // The agents that ask.
  datatype Const = Const(env: Env, fleet: set<Match>, replicas: set<nat>)

  // Agents of the fleet that share a key hash agree in what resolution looks at.
  ghost predicate Sound(c: Const) {
    forall m, n :: m in c.fleet && n in c.fleet && ResolveKey.Hash(c.env, m) == ResolveKey.Hash(c.env, n) ==>
      ResolveKey.SameAttributes(m, n)
  }

  // It holds when no attribute has a NUL byte, no tag name has '=', and the 64-bit hash
  // does not collide on the fleet's key texts.
  lemma PlainFleetIsSound(c: Const)
    requires forall m :: m in c.fleet ==> ResolveKey.NulFree(m) && ResolveKey.NoEquals(m.tags)
    requires forall m, n :: m in c.fleet && n in c.fleet && ResolveKey.Hash(c.env, m) == ResolveKey.Hash(c.env, n) ==>
               ResolveKey.KeyText(m) == ResolveKey.KeyText(n)
    ensures Sound(c)
  {
    forall m, n | m in c.fleet && n in c.fleet && ResolveKey.Hash(c.env, m) == ResolveKey.Hash(c.env, n)
      ensures ResolveKey.SameAttributes(m, n)
    {
      ResolveKey.KeyDeterminesAttributes(m, n);
      forall t ensures t in m.tags <==> t in n.tags {
        assert t in m.tags <==> t in multiset(m.tags);
        assert t in n.tags <==> t in multiset(n.tags);
      }
    }
  }

  // The names that a resolution found: its q-th query read the database after
  // snapshots[q] writes.
  datatype Entry = Entry(snapshots: seq<nat>, names: set<ConfigKey>)

  // The rolling canaries in the database after `snapshot` writes, with the epoch and the
  // seen writes of the replica at that moment.
  datatype CanaryList = CanaryList(snapshot: nat, epoch: nat, before: set<nat>)

  // `seen` records the writes whose invalidation has reached the replica, `missed` those
  // whose message was lost and not flushed for: with the connection broken the flush is
  // due, otherwise it is left to the next broken connection.
  datatype Replica = Replica(epoch: nat, cache: map<(nat, nat), Entry>, queue: seq<nat>, link: Link,
                             seen: set<nat>, missed: set<nat>, canaries: Option<CanaryList>)

  datatype Reader =
    | Resolving(replica: nat, agent: Match, epoch: nat, snapshots: seq<nat>)
    | CanariesFetched(replica: nat, list: CanaryList)

  // A structural write that is in the database: before or after the bump on its replica.
  datatype Writer = Stored(replica: nat, write: nat) | Bumped(replica: nat, write: nat)

  // Write number w took the database from history[w] to history[w + 1]; the silent ones are
  // the creations and updates that invalidate no names.
  datatype State = State(history: seq<Db>, silent: map<nat, ConfigStore.Write>, replicas: map<nat, Replica>,
                         readers: map<nat, Reader>, writers: map<nat, Writer>)

  datatype Step =
    | Write(writer: nat, replica: nat, db: Db)
    | WriteSilently(write: ConfigStore.Write)
    | Bump(writer: nat)
    | Publish(writer: nat)
    | Deliver(replica: nat)
    | Lose(replica: nat)
    | Reconnect(replica: nat)
    | Flush(replica: nat)
    | Load(reader: nat, replica: nat, agent: Match)
    | Query(reader: nat)
    | Keep(reader: nat)
    | FetchCanaries(reader: nat, replica: nat)
    | KeepCanaries(reader: nat)
    | Expire(replica: nat, key: (nat, nat))

  function Current(s: State): nat
    requires s.history != []
  {
    |s.history| - 1
  }

  // The epoch bump and the removal of the canary list.
  function Invalidated(r: Replica, writes: set<nat>): Replica {
    r.(epoch := r.epoch + 1, seen := r.seen + writes, canaries := None)
  }

  function Queued(r: Replica, write: nat): Replica {
    if r.link != Up then r.(missed := r.missed + {write}) else r.(queue := r.queue + [write])
  }

  predicate Enabled(c: Const, s: State, step: Step) {
    s.history != [] &&
    match step
    case Write(w, r, _) => w !in s.writers && r in s.replicas
    case WriteSilently(write) => KeepsEpoch(write) && Written(s.history[Current(s)], write).Some?
    case Bump(w) => w in s.writers && s.writers[w].Stored? && s.writers[w].replica in s.replicas
    case Publish(w) => w in s.writers && s.writers[w].Bumped?
    case Deliver(r) => r in s.replicas && s.replicas[r].link == Up && s.replicas[r].queue != []
    case Lose(r) => r in s.replicas && s.replicas[r].link == Up
    case Flush(r) => r in s.replicas && s.replicas[r].link != Up
    case Reconnect(r) => r in s.replicas && s.replicas[r].link == Cleared
    case Load(i, r, m) => i !in s.readers && r in s.replicas && m in c.fleet
    case Query(i) => i in s.readers && s.readers[i].Resolving? && |s.readers[i].snapshots| < QUERIES
    case Keep(i) =>
      && i in s.readers && s.readers[i].Resolving? && s.readers[i].replica in s.replicas
      && Readable(s.history, s.readers[i].snapshots)
    case FetchCanaries(i, r) => i !in s.readers && r in s.replicas
    case KeepCanaries(i) => i in s.readers && s.readers[i].CanariesFetched? && s.readers[i].replica in s.replicas
    case Expire(r, _) => r in s.replicas
  }

  // All queries are done.
  predicate Readable(history: seq<Db>, snapshots: seq<nat>) {
    |snapshots| == QUERIES && forall q :: 0 <= q < QUERIES ==> snapshots[q] < |history|
  }

  function Databases(history: seq<Db>, snapshots: seq<nat>): (dbs: seq<Db>)
    requires Readable(history, snapshots)
    ensures |dbs| == QUERIES && forall q :: 0 <= q < QUERIES ==> dbs[q] == history[snapshots[q]]
  {
    seq(QUERIES, q requires 0 <= q < QUERIES => history[snapshots[q]])
  }

  function NamesAt(c: Const, history: seq<Db>, snapshots: seq<nat>, m: Match): set<ConfigKey>
    requires Readable(history, snapshots)
  {
    StagedNames(c.env, Databases(history, snapshots), m)
  }

  function SetReplica(s: State, r: nat, p: Replica): State { s.(replicas := s.replicas[r := p]) }

  function SetReader(s: State, i: nat, reader: Reader): State { s.(readers := s.readers[i := reader]) }

  function DropReader(s: State, i: nat): State { s.(readers := s.readers - {i}) }

  function Lost(p: Replica): Replica {
    p.(queue := [], missed := p.missed + (set w | w in p.queue), link := Broken)
  }

  function Flushed(p: Replica): Replica {
    Invalidated(p, p.missed).(missed := {}, link := Cleared)
  }

  function Delivered(p: Replica): Replica
    requires p.queue != []
  {
    Invalidated(p.(queue := p.queue[1..]), {p.queue[0]})
  }

  function Kept(c: Const, s: State, reader: Reader): Replica
    requires reader.Resolving? && reader.replica in s.replicas && Readable(s.history, reader.snapshots)
  {
    var p := s.replicas[reader.replica];
    var entry := Entry(reader.snapshots, NamesAt(c, s.history, reader.snapshots, reader.agent));
    p.(cache := p.cache[(reader.epoch, ResolveKey.Hash(c.env, reader.agent)) := entry])
  }

  function Do(c: Const, s: State, step: Step): State
    requires Enabled(c, s, step)
  {
    match step
    case Write(w, r, db) =>
      s.(history := s.history + [db], writers := s.writers[w := Stored(r, Current(s))])
    case WriteSilently(write) =>
      s.(history := s.history + [Written(s.history[Current(s)], write).value], silent := s.silent[Current(s) := write])
    case Bump(w) =>
      var Stored(r, n) := s.writers[w];
      SetReplica(s, r, Invalidated(s.replicas[r], {n})).(writers := s.writers[w := Bumped(r, n)])
    case Publish(w) =>
      s.(replicas := map r | r in s.replicas :: Queued(s.replicas[r], s.writers[w].write), writers := s.writers - {w})
    case Deliver(r) => SetReplica(s, r, Delivered(s.replicas[r]))
    case Lose(r) => SetReplica(s, r, Lost(s.replicas[r]))
    case Flush(r) => SetReplica(s, r, Flushed(s.replicas[r]))
    case Reconnect(r) => SetReplica(s, r, s.replicas[r].(link := Up))
    case Load(i, r, m) => SetReader(s, i, Resolving(r, m, s.replicas[r].epoch, []))
    case Query(i) => SetReader(s, i, s.readers[i].(snapshots := s.readers[i].snapshots + [Current(s)]))
    case Keep(i) => DropReader(SetReplica(s, s.readers[i].replica, Kept(c, s, s.readers[i])), i)
    case FetchCanaries(i, r) =>
      SetReader(s, i, CanariesFetched(r, CanaryList(Current(s), s.replicas[r].epoch, s.replicas[r].seen)))
    case KeepCanaries(i) =>
      var CanariesFetched(r, list) := s.readers[i];
      DropReader(SetReplica(s, r, s.replicas[r].(canaries := Some(list))), i)
    case Expire(r, k) => SetReplica(s, r, s.replicas[r].(cache := s.replicas[r].cache - {k}))
  }

  function Init(c: Const, db: Db): State {
    State([db], map[], map r | r in c.replicas :: Replica(0, map[], [], Up, {}, {}, None), map[], map[])
  }

  // Every invalidation, the writer's own bump, a delivered message or a flush, begins a new
  // epoch on its replica and drops the canary list; the entries stay under their epochs.
  lemma InvalidationsReplace(c: Const, s: State, step: Step, r: nat)
    requires Enabled(c, s, step)
    requires step == Deliver(r) || step == Flush(r) || (step.Bump? && s.writers[step.writer].replica == r)
    ensures var p, q := s.replicas[r], Do(c, s, step).replicas[r];
            && q.epoch == p.epoch + 1 && q.canaries == None && q.cache == p.cache
            && q.seen == p.seen + (if step.Bump? then {s.writers[step.writer].write} else if step.Flush? then p.missed else {p.queue[0]})
  {}

  // What a connection does: breaking, it loses what waits; the flush that follows makes up
  // for it; a reconnection does not.
  lemma ConnectionSteps(c: Const, s: State, step: Step)
    requires Enabled(c, s, step) && (step.Lose? || step.Flush? || step.Reconnect?)
    ensures var p, q := s.replicas[step.replica], Do(c, s, step).replicas[step.replica];
            match step
            case Lose(_) => q.queue == [] && q.missed == p.missed + (set w | w in p.queue) && q.link == Broken && q.epoch == p.epoch
            case Flush(_) => q.queue == p.queue && q.missed == {} && q.link == Cleared
            case Reconnect(_) => q == p.(link := Up)
  {}

  // The state after a run, if every step of it is possible.
  function Run(c: Const, db: Db, steps: seq<Step>): Option<State> {
    if steps == [] then Some(Init(c, db))
    else
      var before := Run(c, db, steps[..|steps| - 1]);
      var step := steps[|steps| - 1];
      if before.Some? && Enabled(c, before.value, step) then Some(Do(c, before.value, step)) else None
  }

  // ── What every step keeps ───────────────────────────────────────────────────

  // Every write seen so far happened before the snapshot was taken.
  ghost predicate Covers(snapshot: nat, seen: set<nat>) {
    forall w :: w in seen ==> w < snapshot
  }

  ghost predicate AllCover(snapshots: seq<nat>, seen: set<nat>) {
    forall q :: 0 <= q < |snapshots| ==> Covers(snapshots[q], seen)
  }

  ghost predicate ReplicaInv(c: Const, history: seq<Db>, p: Replica) {
    && history != []
    && (forall w: nat :: Knows(p, w) ==> w < |history| - 1)
    && (p.link != Up ==> p.queue == [])
    && (forall k :: k in p.cache ==> EntryInv(c, history, p, k, p.cache[k]))
    && (p.canaries.Some? ==> ListInv(history, p, p.canaries.value))
  }

  // A list contains the writes that were seen when it was fetched, and on the current
  // epoch there are no others.
  ghost predicate ListInv(history: seq<Db>, p: Replica, list: CanaryList) {
    && list.snapshot < |history|
    && list.epoch <= p.epoch
    && list.before <= p.seen
    && Covers(list.snapshot, list.before)
    && (list.epoch == p.epoch ==> list.before == p.seen)
  }

  ghost predicate EntryInv(c: Const, history: seq<Db>, p: Replica, k: (nat, nat), entry: Entry) {
    && k.0 <= p.epoch
    && Readable(history, entry.snapshots)
    && (k.0 == p.epoch ==> AllCover(entry.snapshots, p.seen))
    && (forall m :: m in c.fleet && ResolveKey.Hash(c.env, m) == k.1 ==> entry.names == NamesAt(c, history, entry.snapshots, m))
  }

  ghost predicate ReaderInv(c: Const, s: State, reader: Reader) {
    reader.replica in s.replicas &&
    var p := s.replicas[reader.replica];
    match reader
    case Resolving(_, m, e, snapshots) =>
      && m in c.fleet && e <= p.epoch
      && |snapshots| <= QUERIES && (forall q :: 0 <= q < |snapshots| ==> snapshots[q] < |s.history|)
      && (e == p.epoch ==> AllCover(snapshots, p.seen))
    case CanariesFetched(_, list) => ListInv(s.history, p, list)
  }

  // The writes that a replica has been told of, will be, or lost.
  ghost predicate Knows(p: Replica, w: nat) {
    w in p.seen || w in p.queue || w in p.missed
  }

  ghost predicate Pending(s: State, w: nat) {
    exists i :: i in s.writers && s.writers[i].write == w
  }

  // Where the invalidation of a write is, as seen from a replica.
  ghost predicate Accounted(s: State, p: Replica, w: nat) {
    w in s.silent || Knows(p, w) || Pending(s, w)
  }

  ghost predicate AllAccounted(s: State)
    requires s.history != []
  {
    forall r, w: nat :: r in s.replicas && w < Current(s) ==> Accounted(s, s.replicas[r], w)
  }

  ghost predicate SilentInv(s: State) {
    forall w :: w in s.silent ==>
      && w < |s.history| - 1 && KeepsEpoch(s.silent[w])
      && Written(s.history[w], s.silent[w]) == Some(s.history[w + 1])
  }

  ghost predicate Inv(c: Const, s: State) {
    && s.history != []
    && SilentInv(s)
    && (forall r :: r in s.replicas ==> ReplicaInv(c, s.history, s.replicas[r]))
    && (forall i :: i in s.readers ==> ReaderInv(c, s, s.readers[i]))
    && (forall i :: i in s.writers ==> s.writers[i].write < Current(s))
    && AllAccounted(s)
  }

  // Bumping a replica's epoch puts all its entries and readers on a dead epoch.
  lemma InvalidatedInv(c: Const, history: seq<Db>, p: Replica, writes: set<nat>)
    requires ReplicaInv(c, history, p)
    requires forall w :: w in writes ==> w < |history| - 1
    ensures ReplicaInv(c, history, Invalidated(p, writes))
  {
    var q := Invalidated(p, writes);
    forall w: nat | Knows(q, w) ensures w < |history| - 1 {
      assert Knows(p, w) || w in writes;
    }
    forall k | k in q.cache ensures EntryInv(c, history, q, k, q.cache[k]) {
      assert EntryInv(c, history, p, k, p.cache[k]);
    }
  }

  // A replica that knows at least as much, and has seen no more on the same epoch.
  ghost predicate Succeeds(p: Replica, q: Replica) {
    && p.seen <= q.seen
    && (p.epoch < q.epoch || (p.epoch == q.epoch && p.seen == q.seen))
    && (forall w: nat :: Knows(p, w) ==> Knows(q, w))
  }

  // Replacing one replica by such a one keeps everything else.
  lemma ReplaceReplica(c: Const, s: State, r: nat, q: Replica)
    requires Inv(c, s) && r in s.replicas && ReplicaInv(c, s.history, q) && Succeeds(s.replicas[r], q)
    ensures Inv(c, SetReplica(s, r, q))
  {
    var t := SetReplica(s, r, q);
    forall i | i in t.readers ensures ReaderInv(c, t, t.readers[i]) {
      assert ReaderInv(c, s, s.readers[i]);
    }
    forall x, w: nat | x in t.replicas && w < Current(t) ensures Accounted(t, t.replicas[x], w) {
      assert Accounted(s, s.replicas[x], w);
      assert Pending(s, w) ==> Pending(t, w);
    }
  }

  // A longer history leaves what was read in it as it was.
  lemma LongerHistory(c: Const, history: seq<Db>, longer: seq<Db>, p: Replica)
    requires ReplicaInv(c, history, p) && history <= longer
    ensures ReplicaInv(c, longer, p)
  {
    forall k | k in p.cache ensures EntryInv(c, longer, p, k, p.cache[k]) {
      var entry := p.cache[k];
      assert EntryInv(c, history, p, k, entry);
      assert Databases(longer, entry.snapshots) == Databases(history, entry.snapshots);
    }
  }

  // One more write, which is pending or silent.
  lemma GrownInv(c: Const, s: State, t: State)
    requires Inv(c, s) && |t.history| == |s.history| + 1 && s.history <= t.history
    requires t.replicas == s.replicas && t.readers == s.readers && SilentInv(t)
    requires forall w :: w in s.silent || (w == Current(s) && !Pending(t, w)) ==> w in t.silent
    requires forall i :: i in s.writers ==> i in t.writers && t.writers[i] == s.writers[i]
    requires forall i :: i in t.writers ==> t.writers[i].write < Current(t)
    ensures Inv(c, t)
  {
    forall r | r in t.replicas ensures ReplicaInv(c, t.history, t.replicas[r]) {
      LongerHistory(c, s.history, t.history, s.replicas[r]);
    }
    forall i | i in t.readers ensures ReaderInv(c, t, t.readers[i]) {
      assert ReaderInv(c, s, s.readers[i]);
    }
    forall r, w: nat | r in t.replicas && w < Current(t) ensures Accounted(t, t.replicas[r], w) {
      if w < Current(s) {
        assert Accounted(s, s.replicas[r], w);
        StillPending(s, t, w);
      }
    }
  }

  lemma StillPending(s: State, t: State, w: nat)
    requires forall i :: i in s.writers ==> i in t.writers && t.writers[i].write == s.writers[i].write
    ensures Pending(s, w) ==> Pending(t, w)
  {
    if i :| i in s.writers && s.writers[i].write == w {
      assert t.writers[i].write == w;
    }
  }

  lemma SilentStays(s: State, t: State)
    requires SilentInv(s) && s.history <= t.history && t.silent == s.silent
    ensures SilentInv(t)
  {
    forall w | w in s.silent ensures t.history[w] == s.history[w] && t.history[w + 1] == s.history[w + 1] {}
  }

  lemma WriteKeepsInv(c: Const, s: State, step: Step)
    requires Inv(c, s) && Enabled(c, s, step) && step.Write?
    ensures Inv(c, Do(c, s, step))
  {
    var t := Do(c, s, step);
    assert t.writers[step.writer].write == Current(s) && Pending(t, Current(s));
    SilentStays(s, t);
    GrownInv(c, s, t);
  }

  lemma SilentWriteKeepsInv(c: Const, s: State, step: Step)
    requires Inv(c, s) && Enabled(c, s, step) && step.WriteSilently?
    ensures Inv(c, Do(c, s, step))
  {
    var t := Do(c, s, step);
    forall w | w in t.silent && w != Current(s) ensures t.history[w] == s.history[w] && t.history[w + 1] == s.history[w + 1] {}
    assert t.history[Current(s)] == s.history[Current(s)];
    GrownInv(c, s, t);
  }

  lemma BumpKeepsInv(c: Const, s: State, step: Step)
    requires Inv(c, s) && Enabled(c, s, step) && step.Bump?
    ensures Inv(c, Do(c, s, step))
  {
    var Stored(r, n) := s.writers[step.writer];
    var mid := s.(writers := s.writers[step.writer := Bumped(r, n)]);
    assert Inv(c, mid) by {
      forall i | i in mid.readers ensures ReaderInv(c, mid, mid.readers[i]) {
        assert ReaderInv(c, s, s.readers[i]);
      }
      forall x, w: nat | x in mid.replicas && w < Current(mid) ensures Accounted(mid, mid.replicas[x], w) {
        assert Accounted(s, s.replicas[x], w);
        StillPending(s, mid, w);
      }
    }
    InvalidatedInv(c, s.history, s.replicas[r], {n});
    ReplaceReplica(c, mid, r, Invalidated(s.replicas[r], {n}));
    assert Do(c, s, step) == SetReplica(mid, r, Invalidated(s.replicas[r], {n}));
  }

  lemma QueuedInv(c: Const, history: seq<Db>, p: Replica, n: nat)
    requires ReplicaInv(c, history, p) && n < |history| - 1
    ensures ReplicaInv(c, history, Queued(p, n)) && Succeeds(p, Queued(p, n)) && Knows(Queued(p, n), n)
  {
    var q := Queued(p, n);
    forall w: nat | Knows(q, w) ensures w < |history| - 1 {
      assert Knows(p, w) || w == n;
    }
    forall w: nat | Knows(p, w) ensures Knows(q, w) {}
    forall k | k in q.cache ensures EntryInv(c, history, q, k, q.cache[k]) {
      assert EntryInv(c, history, p, k, p.cache[k]);
    }
  }

  lemma PublishedAccounts(c: Const, s: State, w: nat, r: nat, n: nat)
    requires Enabled(c, s, Publish(w)) && r in s.replicas && Accounted(s, s.replicas[r], n)
    requires Succeeds(s.replicas[r], Queued(s.replicas[r], s.writers[w].write))
    requires Knows(Queued(s.replicas[r], s.writers[w].write), s.writers[w].write)
    ensures Accounted(Do(c, s, Publish(w)), Do(c, s, Publish(w)).replicas[r], n)
  {
    var t := Do(c, s, Publish(w));
    if n != s.writers[w].write && Pending(s, n) {
      var i :| i in s.writers && s.writers[i].write == n;
      assert i in t.writers;
    }
  }

  lemma PublishAccounts(c: Const, s: State, step: Step)
    requires Inv(c, s) && Enabled(c, s, step) && step.Publish?
    ensures AllAccounted(Do(c, s, step))
  {
    var t := Do(c, s, step);
    forall r, w: nat | r in t.replicas && w < Current(t) ensures Accounted(t, t.replicas[r], w) {
      QueuedInv(c, s.history, s.replicas[r], s.writers[step.writer].write);
      PublishedAccounts(c, s, step.writer, r, w);
    }
  }

  lemma PublishKeepsReplicas(c: Const, s: State, step: Step)
    requires Inv(c, s) && Enabled(c, s, step) && step.Publish?
    ensures var t := Do(c, s, step);
            && t.history == s.history && t.silent == s.silent && t.readers == s.readers && t.replicas.Keys == s.replicas.Keys
            && (forall i :: i in t.writers ==> i in s.writers && t.writers[i] == s.writers[i])
            && (forall r :: r in t.replicas ==> ReplicaInv(c, t.history, t.replicas[r]) && Succeeds(s.replicas[r], t.replicas[r]))
  {
    var t := Do(c, s, step);
    forall r | r in t.replicas ensures ReplicaInv(c, t.history, t.replicas[r]) && Succeeds(s.replicas[r], t.replicas[r]) {
      QueuedInv(c, s.history, s.replicas[r], s.writers[step.writer].write);
    }
  }

  lemma PublishKeepsInv(c: Const, s: State, step: Step)
    requires Inv(c, s) && Enabled(c, s, step) && step.Publish?
    ensures Inv(c, Do(c, s, step))
  {
    var t := Do(c, s, step);
    PublishKeepsReplicas(c, s, step);
    PublishAccounts(c, s, step);
    forall i | i in t.readers ensures ReaderInv(c, t, t.readers[i]) {
      assert ReaderInv(c, s, s.readers[i]);
    }
  }

  // A replica with other notices waiting, on the same epoch.
  lemma RequeuedInv(c: Const, history: seq<Db>, p: Replica, q: Replica)
    requires ReplicaInv(c, history, p) && q == p.(cache := q.cache, queue := q.queue, missed := q.missed, link := q.link)
    requires forall k :: k in q.cache ==> k in p.cache && q.cache[k] == p.cache[k]
    requires forall w :: w in q.queue || w in q.missed ==> w in p.queue || w in p.missed
    requires q.link != Up ==> q.queue == []
    ensures ReplicaInv(c, history, q)
  {
    forall w: nat | Knows(q, w) ensures w < |history| - 1 {
      assert Knows(p, w);
    }
    forall k | k in q.cache ensures EntryInv(c, history, q, k, q.cache[k]) {
      assert EntryInv(c, history, p, k, p.cache[k]);
    }
  }

  lemma LinkInv(c: Const, history: seq<Db>, p: Replica)
    requires ReplicaInv(c, history, p)
    ensures ReplicaInv(c, history, Lost(p)) && Succeeds(p, Lost(p))
    ensures ReplicaInv(c, history, p.(link := Up)) && Succeeds(p, p.(link := Up))
  {
    RequeuedInv(c, history, p, Lost(p));
    RequeuedInv(c, history, p, p.(link := Up));
    forall w: nat | Knows(p, w) ensures Knows(Lost(p), w) && Knows(p.(link := Up), w) {}
  }

  lemma FlushedInv(c: Const, history: seq<Db>, p: Replica)
    requires ReplicaInv(c, history, p) && p.link != Up
    ensures ReplicaInv(c, history, Flushed(p)) && Succeeds(p, Flushed(p))
  {
    forall w | w in p.missed ensures w < |history| - 1 {
      assert Knows(p, w);
    }
    InvalidatedInv(c, history, p, p.missed);
    RequeuedInv(c, history, Invalidated(p, p.missed), Flushed(p));
    forall w: nat | Knows(p, w) ensures Knows(Flushed(p), w) {}
  }

  lemma DeliveredInv(c: Const, history: seq<Db>, p: Replica)
    requires ReplicaInv(c, history, p) && p.link == Up && p.queue != []
    ensures ReplicaInv(c, history, Delivered(p)) && Succeeds(p, Delivered(p))
  {
    var q := p.(queue := p.queue[1..]);
    assert p.queue == [p.queue[0]] + p.queue[1..];
    assert Knows(p, p.queue[0]);
    RequeuedInv(c, history, p, q);
    InvalidatedInv(c, history, q, {p.queue[0]});
    forall w: nat | Knows(p, w) ensures Knows(Delivered(p), w) {}
  }

  lemma ReplicaStepKeepsInv(c: Const, s: State, step: Step)
    requires Inv(c, s) && Enabled(c, s, step) && (step.Deliver? || step.Lose? || step.Reconnect? || step.Flush?)
    ensures Inv(c, Do(c, s, step))
  {
    var p := s.replicas[step.replica];
    assert ReplicaInv(c, s.history, p);
    match step
    case Deliver(r) =>
      DeliveredInv(c, s.history, p);
      ReplaceReplica(c, s, r, Delivered(p));
    case Flush(r) =>
      FlushedInv(c, s.history, p);
      ReplaceReplica(c, s, r, Flushed(p));
    case Lose(r) =>
      LinkInv(c, s.history, p);
      ReplaceReplica(c, s, r, Lost(p));
    case Reconnect(r) =>
      LinkInv(c, s.history, p);
      ReplaceReplica(c, s, r, p.(link := Up));
  }

  lemma ExpireKeepsInv(c: Const, s: State, step: Step)
    requires Inv(c, s) && Enabled(c, s, step) && step.Expire?
    ensures Inv(c, Do(c, s, step))
  {
    var p := s.replicas[step.replica];
    var q := p.(cache := p.cache - {step.key});
    assert ReplicaInv(c, s.history, p);
    RequeuedInv(c, s.history, p, q);
    forall w: nat | Knows(p, w) ensures Knows(q, w) {}
    ReplaceReplica(c, s, step.replica, q);
  }

  lemma SetReaderInv(c: Const, s: State, i: nat, reader: Reader)
    requires Inv(c, s) && ReaderInv(c, s, reader)
    ensures Inv(c, SetReader(s, i, reader))
  {
    var t := SetReader(s, i, reader);
    forall j | j in t.readers ensures ReaderInv(c, t, t.readers[j]) {
      assert ReaderInv(c, s, if j == i then reader else s.readers[j]);
    }
    AccountingKept(c, s, t);
  }

  lemma DropReaderInv(c: Const, s: State, i: nat)
    requires Inv(c, s)
    ensures Inv(c, DropReader(s, i))
  {
    var t := DropReader(s, i);
    forall j | j in t.readers ensures ReaderInv(c, t, t.readers[j]) {
      assert ReaderInv(c, s, s.readers[j]);
    }
    AccountingKept(c, s, t);
  }

  lemma AccountingKept(c: Const, s: State, t: State)
    requires s.history != [] && AllAccounted(s) && t == s.(readers := t.readers)
    ensures AllAccounted(t)
  {
    forall r, w: nat | r in t.replicas && w < Current(t) ensures Accounted(t, t.replicas[r], w) {
      assert Accounted(s, s.replicas[r], w);
      assert Pending(s, w) ==> Pending(t, w);
    }
  }

  lemma SeenIsPast(c: Const, history: seq<Db>, p: Replica)
    requires ReplicaInv(c, history, p)
    ensures Covers(|history| - 1, p.seen)
  {
    forall w | w in p.seen ensures w < |history| - 1 {
      assert Knows(p, w);
    }
  }

  lemma LoadKeepsInv(c: Const, s: State, step: Step)
    requires Inv(c, s) && Enabled(c, s, step) && step.Load?
    ensures Inv(c, Do(c, s, step))
  {
    SetReaderInv(c, s, step.reader, Do(c, s, step).readers[step.reader]);
  }

  lemma QueryKeepsInv(c: Const, s: State, step: Step)
    requires Inv(c, s) && Enabled(c, s, step) && step.Query?
    ensures Inv(c, Do(c, s, step))
  {
    var reader := s.readers[step.reader];
    assert ReaderInv(c, s, reader);
    SeenIsPast(c, s.history, s.replicas[reader.replica]);
    SetReaderInv(c, s, step.reader, Do(c, s, step).readers[step.reader]);
  }

  lemma FetchCanariesKeepsInv(c: Const, s: State, step: Step)
    requires Inv(c, s) && Enabled(c, s, step) && step.FetchCanaries?
    ensures Inv(c, Do(c, s, step))
  {
    SeenIsPast(c, s.history, s.replicas[step.replica]);
    SetReaderInv(c, s, step.reader, Do(c, s, step).readers[step.reader]);
  }

  lemma KeptInv(c: Const, s: State, reader: Reader)
    requires Sound(c) && reader.Resolving? && ReaderInv(c, s, reader) && Readable(s.history, reader.snapshots)
    requires ReplicaInv(c, s.history, s.replicas[reader.replica])
    ensures ReplicaInv(c, s.history, Kept(c, s, reader)) && Succeeds(s.replicas[reader.replica], Kept(c, s, reader))
  {
    var Resolving(r, m, e, snapshots) := reader;
    var p, q, key := s.replicas[r], Kept(c, s, reader), (e, ResolveKey.Hash(c.env, m));
    assert EntryInv(c, s.history, q, key, q.cache[key]) by {
      forall a | a in c.fleet && ResolveKey.Hash(c.env, a) == key.1 ensures q.cache[key].names == NamesAt(c, s.history, snapshots, a) {
        ResolveKey.SameAttributesSameStaged(c.env, Databases(s.history, snapshots), m, a);
      }
    }
    forall k | k in q.cache ensures EntryInv(c, s.history, q, k, q.cache[k]) {
      if k != key {
        assert EntryInv(c, s.history, p, k, p.cache[k]);
      }
    }
    forall w: nat ensures Knows(q, w) <==> Knows(p, w) {}
  }

  // The one step that fills the cache: on the reader's epoch, current or dead.
  lemma KeepKeepsInv(c: Const, s: State, step: Step)
    requires Sound(c) && Inv(c, s) && Enabled(c, s, step) && step.Keep?
    ensures Inv(c, Do(c, s, step))
  {
    var reader := s.readers[step.reader];
    assert ReaderInv(c, s, reader) && ReplicaInv(c, s.history, s.replicas[reader.replica]);
    KeptInv(c, s, reader);
    ReplaceReplica(c, s, reader.replica, Kept(c, s, reader));
    DropReaderInv(c, SetReplica(s, reader.replica, Kept(c, s, reader)), step.reader);
  }

  lemma KeepCanariesKeepsInv(c: Const, s: State, step: Step)
    requires Inv(c, s) && Enabled(c, s, step) && step.KeepCanaries?
    ensures Inv(c, Do(c, s, step))
  {
    var CanariesFetched(r, list) := s.readers[step.reader];
    var p := s.replicas[r];
    var q := p.(canaries := Some(list));
    assert ReaderInv(c, s, s.readers[step.reader]) && ReplicaInv(c, s.history, p);
    forall k | k in q.cache ensures EntryInv(c, s.history, q, k, q.cache[k]) {
      assert EntryInv(c, s.history, p, k, p.cache[k]);
    }
    forall w: nat ensures Knows(q, w) <==> Knows(p, w) {}
    ReplaceReplica(c, s, r, q);
    DropReaderInv(c, SetReplica(s, r, q), step.reader);
  }

  lemma ReaderStepKeepsInv(c: Const, s: State, step: Step)
    requires Sound(c) && Inv(c, s) && Enabled(c, s, step)
    requires step.Load? || step.Query? || step.FetchCanaries? || step.Keep? || step.KeepCanaries?
    ensures Inv(c, Do(c, s, step))
  {
    match step
    case Load(_, _, _) => LoadKeepsInv(c, s, step);
    case Query(_) => QueryKeepsInv(c, s, step);
    case FetchCanaries(_, _) => FetchCanariesKeepsInv(c, s, step);
    case Keep(_) => KeepKeepsInv(c, s, step);
    case KeepCanaries(_) => KeepCanariesKeepsInv(c, s, step);
  }

  lemma StepKeepsInv(c: Const, s: State, step: Step)
    requires Sound(c) && Inv(c, s) && Enabled(c, s, step)
    ensures Inv(c, Do(c, s, step))
  {
    match step
    case Write(_, _, _) => WriteKeepsInv(c, s, step);
    case WriteSilently(_) => SilentWriteKeepsInv(c, s, step);
    case Bump(_) => BumpKeepsInv(c, s, step);
    case Publish(_) => PublishKeepsInv(c, s, step);
    case Expire(_, _) => ExpireKeepsInv(c, s, step);
    case Deliver(_) => ReplicaStepKeepsInv(c, s, step);
    case Lose(_) => ReplicaStepKeepsInv(c, s, step);
    case Flush(_) => ReplicaStepKeepsInv(c, s, step);
    case Reconnect(_) => ReplicaStepKeepsInv(c, s, step);
    case _ => ReaderStepKeepsInv(c, s, step);
  }

  lemma {:induction false} RunKeepsInv(c: Const, db: Db, steps: seq<Step>)
    requires Sound(c) && Run(c, db, steps).Some?
    ensures Inv(c, Run(c, db, steps).value)
  {
    if steps != [] {
      RunKeepsInv(c, db, steps[..|steps| - 1]);
      StepKeepsInv(c, Run(c, db, steps[..|steps| - 1]).value, steps[|steps| - 1]);
    }
  }

  // ── Safety over whole runs ──────────────────────────────────────────────────

  ghost predicate Reachable(c: Const, s: State, r: nat, m: Match) {
    r in s.replicas && (s.replicas[r].epoch, ResolveKey.Hash(c.env, m)) in s.replicas[r].cache
  }

  ghost function EntryFor(c: Const, s: State, r: nat, m: Match): Entry
    requires Reachable(c, s, r, m)
  {
    s.replicas[r].cache[(s.replicas[r].epoch, ResolveKey.Hash(c.env, m))]
  }

  // The entry holds what its queries found, and every one of them read a database with all
  // writes whose invalidation has reached the replica. A write that a query missed
  // invalidates no names, or is still being invalidated, is queued for the replica, or its
  // message was lost and not flushed for.
  ghost predicate FreshEntry(c: Const, s: State, p: Replica, entry: Entry, m: Match) {
    && Readable(s.history, entry.snapshots)
    && entry.names == NamesAt(c, s.history, entry.snapshots, m)
    && AllCover(entry.snapshots, p.seen)
    && forall q, w: nat :: 0 <= q < QUERIES && entry.snapshots[q] <= w < |s.history| - 1 ==>
         w in s.silent || Pending(s, w) || w in p.queue || w in p.missed
  }

  lemma EntryIsFresh(c: Const, s: State, r: nat, m: Match)
    requires Inv(c, s) && m in c.fleet && Reachable(c, s, r, m)
    ensures FreshEntry(c, s, s.replicas[r], EntryFor(c, s, r, m), m)
  {
    var p, entry := s.replicas[r], EntryFor(c, s, r, m);
    assert ReplicaInv(c, s.history, p);
    assert EntryInv(c, s.history, p, (p.epoch, ResolveKey.Hash(c.env, m)), entry);
    forall q, w: nat | 0 <= q < QUERIES && entry.snapshots[q] <= w < |s.history| - 1
      ensures w in s.silent || Pending(s, w) || w in p.queue || w in p.missed
    {
      assert Accounted(s, p, w) && Covers(entry.snapshots[q], p.seen);
    }
  }

  // Over every run, whatever an agent can reach is fresh.
  lemma ReachableEntriesAreFresh(c: Const, db: Db, steps: seq<Step>, s: State, r: nat, m: Match)
    requires Sound(c) && Run(c, db, steps) == Some(s) && m in c.fleet && Reachable(c, s, r, m)
    ensures FreshEntry(c, s, s.replicas[r], EntryFor(c, s, r, m), m)
  {
    RunKeepsInv(c, db, steps);
    EntryIsFresh(c, s, r, m);
  }

  // ── Silent creations ────────────────────────────────────────────────────────

  // A config created silently by a write from n up to j.
  ghost predicate Creates(s: State, w: nat, key: ConfigKey) {
    w in s.silent && s.silent[w].CreateConfig? && s.silent[w].key == key
  }

  ghost predicate CreatedIn(s: State, n: nat, j: nat, key: ConfigKey) {
    exists w :: n <= w < j && Creates(s, w, key)
  }

  ghost predicate AllSilent(s: State, n: nat, j: nat) {
    forall w :: n <= w < j ==> w in s.silent
  }

  ghost predicate SameSelection(a: Db, b: Db) {
    a.groups == b.groups && a.tags == b.tags && a.mappings == b.mappings && a.canaries == b.canaries
  }

  // Silent writes only add rows, those of the created configs.
  lemma {:induction false} SilentStretch(s: State, n: nat, j: nat)
    requires SilentInv(s) && n <= j < |s.history| && AllSilent(s, n, j)
    ensures SameSelection(s.history[n], s.history[j])
    ensures forall k :: k in s.history[j].rows <==> k in s.history[n].rows || CreatedIn(s, n, j, k)
    ensures forall k :: CreatedIn(s, n, j, k) ==> k !in s.history[n].rows
    decreases j
  {
    if n < j {
      SilentStretch(s, n, j - 1);
      assert j - 1 in s.silent;
      forall k ensures CreatedIn(s, n, j, k) <==> CreatedIn(s, n, j - 1, k) || Creates(s, j - 1, k) {}
    }
  }

  // The names the database of a moment assigns, without the configs created since their
  // rows were looked up.
  ghost function NamesLooked(c: Const, s: State, snapshots: seq<nat>, j: nat, m: Match): set<ConfigKey>
    requires |snapshots| == QUERIES && j < |s.history|
  {
    set k | k in Names(c.env, s.history[j], m) && !CreatedIn(s, snapshots[RowsQuery(k.kind)], j, k)
  }

  // An entry whose queries missed only silent writes up to a moment holds the names that
  // the database of that moment assigns, without those created since.
  lemma SilentlyBehind(c: Const, s: State, snapshots: seq<nat>, j: nat, m: Match)
    requires SilentInv(s) && j < |s.history| && Readable(s.history, snapshots)
    requires forall q :: 0 <= q < QUERIES ==> snapshots[q] <= j && AllSilent(s, snapshots[q], j)
    ensures NamesAt(c, s.history, snapshots, m) == NamesLooked(c, s, snapshots, j, m)
  {
    var dbs, now := Databases(s.history, snapshots), s.history[j];
    forall q | 0 <= q < QUERIES
      ensures SameSelection(dbs[q], now) && dbs[q].rows.Keys <= now.rows.Keys
      ensures forall k :: k in now.rows ==> (k in dbs[q].rows <==> !CreatedIn(s, snapshots[q], j, k))
    {
      SilentStretch(s, snapshots[q], j);
    }
    StagedIsNames(c.env, dbs, now, m);
  }

  // Nothing is on its way, and no message was lost without a flush since.
  ghost predicate Quiet(s: State) {
    s.writers == map[] && forall r :: r in s.replicas ==> s.replicas[r].queue == [] && s.replicas[r].missed == {}
  }

  lemma OnlySilentMissed(c: Const, s: State, p: Replica, entry: Entry, m: Match)
    requires FreshEntry(c, s, p, entry, m) && s.writers == map[] && p.queue == [] && p.missed == {}
    ensures forall q :: 0 <= q < QUERIES ==>
              entry.snapshots[q] <= |s.history| - 1 && AllSilent(s, entry.snapshots[q], |s.history| - 1)
  {
    forall w: nat ensures !Pending(s, w) {}
  }

  lemma QuietEntry(c: Const, s: State, r: nat, m: Match)
    requires Inv(c, s) && m in c.fleet && Reachable(c, s, r, m) && Quiet(s)
    ensures var entry := EntryFor(c, s, r, m);
            && |entry.snapshots| == QUERIES
            && entry.names == NamesLooked(c, s, entry.snapshots, |s.history| - 1, m)
            && forall q :: 0 <= q < QUERIES ==> AllSilent(s, entry.snapshots[q], |s.history| - 1)
  {
    var entry := EntryFor(c, s, r, m);
    EntryIsFresh(c, s, r, m);
    OnlySilentMissed(c, s, s.replicas[r], entry, m);
    SilentlyBehind(c, s, entry.snapshots, |s.history| - 1, m);
  }

  // Once all invalidations have arrived, an agent can reach exactly the names the database
  // assigns to it, except the configs created since their rows were looked up.
  lemma QuietMeansCurrent(c: Const, db: Db, steps: seq<Step>, s: State, r: nat, m: Match)
    requires Sound(c) && Run(c, db, steps) == Some(s) && m in c.fleet && Reachable(c, s, r, m) && Quiet(s)
    ensures s.history != [] && |EntryFor(c, s, r, m).snapshots| == QUERIES
    ensures EntryFor(c, s, r, m).names == NamesLooked(c, s, EntryFor(c, s, r, m).snapshots, |s.history| - 1, m)
  {
    RunKeepsInv(c, db, steps);
    QuietEntry(c, s, r, m);
  }

  // And such a config is one the agent is assigned if and only if a mapping for it was
  // waiting, in a group the agent matches, when it was created.
  lemma MissingWasWaiting(c: Const, db: Db, steps: seq<Step>, s: State, r: nat, m: Match, w: nat, key: ConfigKey)
    requires Sound(c) && Run(c, db, steps) == Some(s) && m in c.fleet && Reachable(c, s, r, m) && Quiet(s)
    requires Creates(s, w, key) && CreatedAfterLook(EntryFor(c, s, r, m), w, key) && w < |s.history| - 1
    ensures key !in EntryFor(c, s, r, m).names
    ensures key in Names(c.env, s.history[|s.history| - 1], m) <==> Waiting(c.env, s.history[w], key, m)
  {
    RunKeepsInv(c, db, steps);
    MissingEntry(c, s, r, m, w, key);
  }

  lemma MissingEntry(c: Const, s: State, r: nat, m: Match, w: nat, key: ConfigKey)
    requires Inv(c, s) && m in c.fleet && Reachable(c, s, r, m) && Quiet(s)
    requires Creates(s, w, key) && CreatedAfterLook(EntryFor(c, s, r, m), w, key) && w < |s.history| - 1
    ensures key !in EntryFor(c, s, r, m).names
    ensures key in Names(c.env, s.history[|s.history| - 1], m) <==> Waiting(c.env, s.history[w], key, m)
  {
    QuietEntry(c, s, r, m);
    CreatedWasWaiting(c, s, EntryFor(c, s, r, m).snapshots[RowsQuery(key.kind)], w, |s.history| - 1, key, m);
  }

  predicate CreatedAfterLook(entry: Entry, w: nat, key: ConfigKey) {
    |entry.snapshots| == QUERIES && entry.snapshots[RowsQuery(key.kind)] <= w
  }

  lemma CreatedWasWaiting(c: Const, s: State, n: nat, w: nat, now: nat, key: ConfigKey, m: Match)
    requires SilentInv(s) && n <= w < now < |s.history| && AllSilent(s, n, now) && Creates(s, w, key)
    ensures CreatedIn(s, n, now, key)
    ensures key in Names(c.env, s.history[now], m) <==> Waiting(c.env, s.history[w], key, m)
  {
    assert AllSilent(s, w, now) && CreatedIn(s, w, now, key);
    SilentStretch(s, w, now);
    forall g ensures GroupMatches(c.env, s.history[now], m, g) <==> GroupMatches(c.env, s.history[w], m, g) {
      assert TagMatches(s.history[now], g, m) <==> TagMatches(s.history[w], g, m);
    }
  }

  // ── Straddling readers ──────────────────────────────────────────────────────

  lemma RunOneMore(c: Const, db: Db, steps: seq<Step>, step: Step)
    ensures Run(c, db, steps + [step]) ==
            if Run(c, db, steps).Some? && Enabled(c, Run(c, db, steps).value, step)
            then Some(Do(c, Run(c, db, steps).value, step)) else None
  {
    assert (steps + [step])[..|steps|] == steps;
  }

  lemma EpochStepRises(c: Const, s: State, step: Step, r: nat)
    requires Enabled(c, s, step) && r in s.replicas
    ensures r in Do(c, s, step).replicas && s.replicas[r].epoch <= Do(c, s, step).replicas[r].epoch
  {}

  lemma {:induction false} EpochsOnlyRise(c: Const, db: Db, steps: seq<Step>, more: seq<Step>, r: nat)
    requires Run(c, db, steps).Some? && r in Run(c, db, steps).value.replicas
    requires Run(c, db, steps + more).Some?
    ensures r in Run(c, db, steps + more).value.replicas
    ensures Run(c, db, steps).value.replicas[r].epoch <= Run(c, db, steps + more).value.replicas[r].epoch
  {
    if more == [] {
      assert steps + more == steps;
    } else {
      var front, last := more[..|more| - 1], more[|more| - 1];
      assert steps + more == (steps + front) + [last];
      RunOneMore(c, db, steps + front, last);
      EpochsOnlyRise(c, db, steps, front, r);
      EpochStepRises(c, Run(c, db, steps + front).value, last, r);
    }
  }

  // A reader of whose queries one missed a write whose invalidation has returned on its
  // replica holds an epoch the replica has left for good: it stores an entry nobody will
  // look up.
  lemma StraddlersStoreUnderDeadEpochs(c: Const, db: Db, steps: seq<Step>, s: State, more: seq<Step>, i: nat, q: nat, w: nat)
    requires Sound(c) && Run(c, db, steps) == Some(s) && Run(c, db, steps + more).Some?
    requires i in s.readers && s.readers[i].Resolving? && s.readers[i].replica in s.replicas
    requires q < |s.readers[i].snapshots| && s.readers[i].snapshots[q] <= w && w in s.replicas[s.readers[i].replica].seen
    ensures var reader, t := s.readers[i], Run(c, db, steps + more).value;
            reader.replica in t.replicas && reader.epoch < t.replicas[reader.replica].epoch
  {
    RunKeepsInv(c, db, steps);
    assert ReaderInv(c, s, s.readers[i]);
    assert !Covers(s.readers[i].snapshots[q], s.replicas[s.readers[i].replica].seen);
    EpochsOnlyRise(c, db, steps, more, s.readers[i].replica);
  }

  // ── The canary list ─────────────────────────────────────────────────────────

  // A write that was invalidated on the replica after the list was fetched, though the
  // list does not contain it.
  ghost predicate Overtaken(p: Replica, list: CanaryList) {
    exists w :: w in p.seen && w !in list.before && list.snapshot <= w
  }

  lemma MissingFromList(s: State, r: nat, list: CanaryList)
    requires s.history != [] && AllAccounted(s) && r in s.replicas
    ensures forall w: nat :: list.snapshot <= w < |s.history| - 1 && w !in s.replicas[r].seen ==>
              w in s.silent || Pending(s, w) || w in s.replicas[r].queue || w in s.replicas[r].missed
  {
    forall w: nat | w < |s.history| - 1 && w !in s.replicas[r].seen
      ensures w in s.silent || Pending(s, w) || w in s.replicas[r].queue || w in s.replicas[r].missed
    {
      assert Accounted(s, s.replicas[r], w);
    }
  }

  lemma QuietList(s: State, r: nat, list: CanaryList)
    requires s.history != [] && SilentInv(s) && AllAccounted(s) && Quiet(s) && r in s.replicas
    requires ListInv(s.history, s.replicas[r], list) && !Overtaken(s.replicas[r], list)
    ensures ActiveCanaries(s.history[list.snapshot]) == ActiveCanaries(s.history[|s.history| - 1])
  {
    MissingFromList(s, r, list);
    forall w: nat ensures !Pending(s, w) {}
    forall w | list.snapshot <= w < |s.history| - 1 ensures w in s.silent {
      assert w in s.replicas[r].seen ==> w in list.before;
    }
    SilentStretch(s, list.snapshot, |s.history| - 1);
  }

  // The list sits under a fixed key, not under an epoch. Over every run a cached list
  // lacks a write whose invalidation has returned if and only if that write overtook its
  // reader between fetch and store; on the epoch of its fetch it lacks none. What else it
  // lacks invalidates no names or is still on its way, and when nothing is, the list is the
  // rolling canaries unless it was overtaken.
  lemma CanaryListFreshness(c: Const, db: Db, steps: seq<Step>, s: State, r: nat)
    requires Sound(c) && Run(c, db, steps) == Some(s) && r in s.replicas && s.replicas[r].canaries.Some?
    ensures var p := s.replicas[r];
            var list := p.canaries.value;
            && list.snapshot < |s.history|
            && (Covers(list.snapshot, p.seen) <==> !Overtaken(p, list))
            && (list.epoch == p.epoch ==> !Overtaken(p, list))
            && (forall w: nat :: list.snapshot <= w < |s.history| - 1 && w !in p.seen ==>
                  w in s.silent || Pending(s, w) || w in p.queue || w in p.missed)
            && (Quiet(s) && !Overtaken(p, list) ==>
                  ActiveCanaries(s.history[list.snapshot]) == ActiveCanaries(s.history[|s.history| - 1]))
  {
    RunKeepsInv(c, db, steps);
    var p := s.replicas[r];
    assert ReplicaInv(c, s.history, p) && ListInv(s.history, p, p.canaries.value);
    MissingFromList(s, r, p.canaries.value);
    if Quiet(s) && !Overtaken(p, p.canaries.value) {
      QuietList(s, r, p.canaries.value);
    }
  }

  // The step that stores a list: it leaves the cache without a returned write if and only
  // if such a write overtook the reader.
  lemma KeepStoresStaleList(c: Const, db: Db, steps: seq<Step>, s: State, i: nat)
    requires Sound(c) && Run(c, db, steps) == Some(s) && Enabled(c, s, KeepCanaries(i))
    ensures var CanariesFetched(r, list) := s.readers[i];
            var q := Do(c, s, KeepCanaries(i)).replicas[r];
            && q.canaries == Some(list) && q.seen == s.replicas[r].seen
            && (!Covers(list.snapshot, q.seen) <==> Overtaken(s.replicas[r], list))
  {
    RunOneMore(c, db, steps, KeepCanaries(i));
    CanaryListFreshness(c, db, steps + [KeepCanaries(i)], Do(c, s, KeepCanaries(i)), s.readers[i].replica);
  }

  // Such runs exist: the last invalidation overtakes a reader, and nothing is left that
  // would remove its list before it expires.
  lemma CanaryListCanStayStale(c: Const, before: Db, after: Db) returns (steps: seq<Step>, s: State)
    requires 0 in c.replicas
    ensures Run(c, before, steps) == Some(s)
    ensures Quiet(s) && s.history == [before, after] && 0 in s.replicas
    ensures s.replicas[0].canaries == Some(CanaryList(0, 0, {}))
  {
    steps, s := Straddle(c, before, after);
    steps, s := DeliverAll(c, before, steps, s, c.replicas);
    steps, s := Append(c, before, steps, s, KeepCanaries(0));
  }

  lemma Append(c: Const, db: Db, steps: seq<Step>, s: State, step: Step) returns (more: seq<Step>, t: State)
    requires Run(c, db, steps) == Some(s) && Enabled(c, s, step)
    ensures Run(c, db, more) == Some(t) && t == Do(c, s, step)
  {
    RunOneMore(c, db, steps, step);
    more, t := steps + [step], Do(c, s, step);
  }

  // Nothing waits for the replica but these messages.
  ghost predicate Waits(p: Replica, queue: seq<nat>) {
    p.link == Up && p.queue == queue && p.missed == {}
  }

  // A reader fetches the list, then a writer writes, bumps and publishes.
  lemma Straddle(c: Const, before: Db, after: Db) returns (steps: seq<Step>, s: State)
    requires 0 in c.replicas
    ensures Run(c, before, steps) == Some(s)
    ensures s.replicas.Keys == c.replicas && s.history == [before, after] && s.writers == map[]
    ensures s.readers == map[0 := CanariesFetched(0, CanaryList(0, 0, {}))]
    ensures forall r :: r in s.replicas ==> Waits(s.replicas[r], [0])
  {
    steps, s := Append(c, before, [], Init(c, before), FetchCanaries(0, 0));
    steps, s := Append(c, before, steps, s, Write(0, 0, after));
    assert s.readers == map[0 := CanariesFetched(0, CanaryList(0, 0, {}))] && s.history == [before, after];
    assert s.writers == map[0 := Stored(0, 0)];
    steps, s := BumpAndPublish(c, before, steps, s);
  }

  lemma BumpAndPublish(c: Const, db: Db, steps: seq<Step>, s: State) returns (more: seq<Step>, t: State)
    requires Run(c, db, steps) == Some(s) && 0 in s.replicas && s.history != []
    requires s.writers == map[0 := Stored(0, 0)] && forall r :: r in s.replicas ==> Waits(s.replicas[r], [])
    ensures Run(c, db, more) == Some(t) && t == s.(replicas := t.replicas, writers := map[])
    ensures t.replicas.Keys == s.replicas.Keys && forall r :: r in t.replicas ==> Waits(t.replicas[r], [0])
  {
    BumpOnly(c, s);
    more, t := Append(c, db, steps, s, Bump(0));
    PublishOnly(c, t);
    more, t := Append(c, db, more, t, Publish(0));
  }

  lemma BumpOnly(c: Const, s: State)
    requires 0 in s.replicas && s.history != []
    requires s.writers == map[0 := Stored(0, 0)] && forall r :: r in s.replicas ==> Waits(s.replicas[r], [])
    ensures Enabled(c, s, Bump(0))
    ensures var t := Do(c, s, Bump(0));
            && t == s.(replicas := t.replicas, writers := map[0 := Bumped(0, 0)]) && t.replicas.Keys == s.replicas.Keys
            && forall r :: r in t.replicas ==> Waits(t.replicas[r], [])
  {
    assert Do(c, s, Bump(0)).writers == map[0 := Bumped(0, 0)];
  }

  lemma PublishOnly(c: Const, s: State)
    requires s.history != [] && s.writers == map[0 := Bumped(0, 0)]
    requires forall r :: r in s.replicas ==> Waits(s.replicas[r], [])
    ensures Enabled(c, s, Publish(0))
    ensures var t := Do(c, s, Publish(0));
            && t == s.(replicas := t.replicas, writers := map[]) && t.replicas.Keys == s.replicas.Keys
            && forall r :: r in t.replicas ==> Waits(t.replicas[r], [0])
  {
    assert Do(c, s, Publish(0)).writers == map[];
    assert [] + [0] == [0];
  }

  lemma DeliverOne(c: Const, s: State, r: nat, left: set<nat>)
    requires r in left && left <= s.replicas.Keys && s.history != []
    requires forall x :: x in s.replicas ==> Waits(s.replicas[x], if x in left then [0] else [])
    ensures Enabled(c, s, Deliver(r))
    ensures var t := Do(c, s, Deliver(r));
            && t == s.(replicas := t.replicas) && t.replicas.Keys == s.replicas.Keys
            && forall x :: x in t.replicas ==> Waits(t.replicas[x], if x in left - {r} then [0] else [])
  {}

  // Delivers the one queued message of each replica in `left`.
  lemma {:induction false} DeliverAll(c: Const, db: Db, steps: seq<Step>, s: State, left: set<nat>) returns (more: seq<Step>, t: State)
    requires Run(c, db, steps) == Some(s) && left <= s.replicas.Keys && s.writers == map[] && s.history != []
    requires forall r :: r in s.replicas ==> Waits(s.replicas[r], if r in left then [0] else [])
    ensures Run(c, db, more) == Some(t)
    ensures t.replicas.Keys == s.replicas.Keys && t.history == s.history && t.readers == s.readers && Quiet(t)
    decreases left
  {
    more, t := steps, s;
    if left != {} {
      var r :| r in left;
      DeliverOne(c, s, r, left);
      more, t := Append(c, db, steps, s, Deliver(r));
      more, t := DeliverAll(c, db, more, t, left - {r});
    }
  }
}
