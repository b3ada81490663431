// Lookups taken apart: a reader may stop for any time between its read, its first-level
// store and its second-level compare-and-set, while writers go through the phases of
// InvalidationProtocol. Rows stand as they are cached, with the version they are compared by.
module BackfillProtocol {
  import opened Wrappers
  import opened ConfigStore
  import opened Levels

  // A cached value is a row, or bytes that do not decode.
  datatype Cell = Valid(row: Row) | Garbage

  // The compare-and-set script: a positive version, and nothing cached that is as new.
  predicate Accepts(current: Option<Cell>, version: int) {
    version > 0 && !(current.Some? && current.value.Valid? && current.value.row.version >= version)
  }

  datatype Commit = Commit(key: ConfigKey, row: Option<Row>)

  // The invalidation of a commit, by the commit's number.
  datatype Notice = Notice(key: ConfigKey, commit: nat)

  // The phase is what the writer does next.
  datatype Writer = Writer(replica: nat, notice: Notice, phase: Phase)

  // The database, as its commits, and the writers that are not done.
  datatype Commits = Commits(first: map<ConfigKey, Row>, log: seq<Commit>, writers: map<nat, Writer>)

  // A row of the database after `asOf` commits. `passed` collects the later commits of the
  // key whose invalidation was over before the row was stored.
  datatype Copy = Copy(row: Row, asOf: nat, passed: set<nat>)

  datatype Shared = Shared(cell: Cell, asOf: nat, passed: set<nat>)

  datatype Stage = FromShared | FromDb | Backfilling

  // `passed` and `deleted` collect the later commits of the key that have been announced
  // on the replica, or deleted in the second level, since the read.
  datatype Reader = Reader(replica: nat, key: ConfigKey, row: Row, asOf: nat, stage: Stage, passed: set<nat>, deleted: set<nat>)

  // `missed` are the notices that were lost and not flushed for: with the connection broken
  // the flush is due, otherwise it is left to the next broken connection.
  datatype Mail = Mail(queue: seq<Notice>, missed: set<Notice>, link: Link)

  datatype Replica = Replica(l1: map<ConfigKey, Copy>, mail: Mail)

  datatype State = State(commits: Commits, l2: map<ConfigKey, Shared>, replicas: map<nat, Replica>, readers: map<nat, Reader>)

  datatype Step =
    | Write(writer: nat, replica: nat, key: ConfigKey, row: Option<Row>)
    | Advance(writer: nat)
    | Deliver(replica: nat)
    | Lose(replica: nat)
    | Reconnect(replica: nat)
    | Flush(replica: nat)
    | ReadShared(reader: nat, replica: nat, key: ConfigKey)
    | ReadDb(reader: nat, replica: nat, key: ConfigKey)
    | SetL1(reader: nat)
    | CompareAndSet(reader: nat)
    | ExpireL1(replica: nat, key: ConfigKey)
    | ExpireL2(key: ConfigKey)
    | Spoil(key: ConfigKey)

  // The database after a sequence of commits.
  function Rows(first: map<ConfigKey, Row>, log: seq<Commit>): map<ConfigKey, Row> {
    if log == [] then first
    else Put(Rows(first, log[..|log| - 1]), log[|log| - 1].key, log[|log| - 1].row)
  }

  function Db(s: State): map<ConfigKey, Row> { Rows(s.commits.first, s.commits.log) }

  // ── The steps ───────────────────────────────────────────────────────────────

  function GetCell(l2: map<ConfigKey, Shared>, key: ConfigKey): Option<Cell> {
    if key in l2 then Some(l2[key].cell) else None
  }

  function SetReplica(s: State, r: nat, p: Replica): State { s.(replicas := s.replicas[r := p]) }

  function SetReader(s: State, i: nat, x: Reader): State { s.(readers := s.readers[i := x]) }

  function DropReader(s: State, i: nat): State { s.(readers := s.readers - {i}) }

  function SetPhase(c: Commits, w: nat, phase: Phase): Commits
    requires w in c.writers
  {
    c.(writers := c.writers[w := c.writers[w].(phase := phase)])
  }

  function Received(mail: Mail, notice: Notice): Mail {
    if mail.link != Up then mail.(missed := mail.missed + {notice}) else mail.(queue := mail.queue + [notice])
  }

  function LoseMail(mail: Mail): Mail {
    mail.(queue := [], missed := mail.missed + (set n | n in mail.queue), link := Broken)
  }

  predicate Concerns(x: Reader, notice: Notice) {
    x.key == notice.key && x.asOf <= notice.commit
  }

  // A reader, once notices have been acted on at a replica.
  function Told(x: Reader, replica: nat, notices: set<Notice>): Reader {
    if x.replica != replica then x
    else x.(passed := x.passed + (set n | n in notices && Concerns(x, n) :: n.commit))
  }

  // A reader, once a commit's key has been deleted in the second level.
  function Overtaken(x: Reader, notice: Notice): Reader {
    if Concerns(x, notice) then x.(deleted := x.deleted + {notice.commit}) else x
  }

  // Acting on notices drops the entries they concern and tells the replica's readers.
  function Act(s: State, r: nat, p: Replica, notices: set<Notice>): State {
    SetReplica(s, r, p).(readers := map i | i in s.readers :: Told(s.readers[i], r, notices))
  }

  function DeleteInShared(s: State, w: nat): State
    requires w in s.commits.writers
  {
    var notice := s.commits.writers[w].notice;
    s.(l2 := s.l2 - {notice.key}, readers := map i | i in s.readers :: Overtaken(s.readers[i], notice),
       commits := SetPhase(s.commits, w, Announce))
  }

  function Publish(s: State, w: nat): State
    requires w in s.commits.writers
  {
    var notice := s.commits.writers[w].notice;
    s.(replicas := map r | r in s.replicas :: s.replicas[r].(mail := Received(s.replicas[r].mail, notice)),
       commits := s.commits.(writers := s.commits.writers - {w}))
  }

  predicate Enabled(s: State, step: Step) {
    match step
    case Write(w, r, _, _) => w !in s.commits.writers && r in s.replicas
    case Advance(w) => w in s.commits.writers && s.commits.writers[w].replica in s.replicas
    case Deliver(r) => r in s.replicas && s.replicas[r].mail.link == Up && s.replicas[r].mail.queue != []
    case Lose(r) => r in s.replicas && s.replicas[r].mail.link == Up
    case Reconnect(r) => r in s.replicas && s.replicas[r].mail.link == Cleared
    case Flush(r) => r in s.replicas && s.replicas[r].mail.link != Up
    case ReadShared(i, r, k) => i !in s.readers && r in s.replicas && k in s.l2 && s.l2[k].cell.Valid?
    case ReadDb(i, r, k) => i !in s.readers && r in s.replicas && k in Db(s)
    case SetL1(i) => i in s.readers && s.readers[i].stage != Backfilling && s.readers[i].replica in s.replicas
    case CompareAndSet(i) => i in s.readers && s.readers[i].stage == Backfilling
    case ExpireL1(r, _) => r in s.replicas
    case ExpireL2(_) => true
    case Spoil(_) => true
  }

  function Do(s: State, step: Step): State
    requires Enabled(s, step)
  {
    match step
    case Write(w, r, k, row) =>
      var c := s.commits;
      s.(commits := c.(log := c.log + [Commit(k, row)], writers := c.writers[w := Writer(r, Notice(k, |c.log|), DeleteOwn)]))
    case Advance(w) =>
      var Writer(r, notice, phase) := s.commits.writers[w];
      var p := s.replicas[r];
      (match phase
       case DeleteOwn => SetReplica(s, r, p.(l1 := p.l1 - {notice.key})).(commits := SetPhase(s.commits, w, DeleteShared))
       case DeleteShared => DeleteInShared(s, w)
       case Announce => Publish(s, w))
    case Deliver(r) =>
      var p := s.replicas[r];
      var notice := p.mail.queue[0];
      Act(s, r, Replica(p.l1 - {notice.key}, p.mail.(queue := p.mail.queue[1..])), {notice})
    case Lose(r) => SetReplica(s, r, s.replicas[r].(mail := LoseMail(s.replicas[r].mail)))
    case Reconnect(r) => SetReplica(s, r, s.replicas[r].(mail := s.replicas[r].mail.(link := Up)))
    case Flush(r) =>
      var mail := s.replicas[r].mail;
      Act(s, r, Replica(map[], mail.(missed := {}, link := Cleared)), mail.missed)
    case ReadShared(i, r, k) =>
      SetReader(s, i, Reader(r, k, s.l2[k].cell.row, s.l2[k].asOf, FromShared, s.l2[k].passed, {}))
    case ReadDb(i, r, k) =>
      SetReader(s, i, Reader(r, k, Db(s)[k], |s.commits.log|, FromDb, {}, {}))
    case SetL1(i) =>
      var x := s.readers[i];
      var p := s.replicas[x.replica];
      var t := SetReplica(s, x.replica, p.(l1 := p.l1[x.key := Copy(x.row, x.asOf, x.passed)]));
      if x.stage == FromShared then DropReader(t, i) else SetReader(t, i, x.(stage := Backfilling))
    case CompareAndSet(i) =>
      var x := s.readers[i];
      var t := if Accepts(GetCell(s.l2, x.key), x.row.version)
               then s.(l2 := s.l2[x.key := Shared(Valid(x.row), x.asOf, x.deleted)]) else s;
      DropReader(t, i)
    case ExpireL1(r, k) => SetReplica(s, r, s.replicas[r].(l1 := s.replicas[r].l1 - {k}))
    case ExpireL2(k) => s.(l2 := s.l2 - {k})
    case Spoil(k) => s.(l2 := s.l2[k := Shared(Garbage, 0, {})])
  }

  // What a writer's phases do: its key leaves its own first level, then the second, and
  // then every replica is told of it or has missed it.
  lemma WriterPhases(s: State, w: nat)
    requires Enabled(s, Advance(w))
    ensures var Writer(r, notice, phase) := s.commits.writers[w];
            var t := Do(s, Advance(w));
            && t.commits.log == s.commits.log && t.replicas.Keys == s.replicas.Keys
            && (phase == DeleteOwn ==> notice.key !in t.replicas[r].l1)
            && (phase == DeleteShared ==> notice.key !in t.l2)
            && (phase == DeleteOwn ==> w in t.commits.writers && t.commits.writers[w] == Writer(r, notice, DeleteShared))
            && (phase == DeleteShared ==> w in t.commits.writers && t.commits.writers[w] == Writer(r, notice, Announce))
            && (phase == Announce ==>
                  w !in t.commits.writers &&
                  forall p :: p in s.replicas ==>
                    if s.replicas[p].mail.link == Up then t.replicas[p].mail.queue == s.replicas[p].mail.queue + [notice]
                    else t.replicas[p].mail.missed == s.replicas[p].mail.missed + {notice})
  {}

  // What a connection does: breaking, it loses what waits; the flush that follows empties
  // the first level and makes up for it; a reconnection does neither.
  lemma ConnectionSteps(s: State, step: Step)
    requires Enabled(s, step) && (step.Lose? || step.Flush? || step.Reconnect?)
    ensures var p, q := s.replicas[step.replica], Do(s, step).replicas[step.replica];
            match step
            case Lose(_) => q.l1 == p.l1 && q.mail == Mail([], p.mail.missed + (set n | n in p.mail.queue), Broken)
            case Flush(_) => q.l1 == map[] && q.mail == Mail(p.mail.queue, {}, Cleared)
            case Reconnect(_) => q.l1 == p.l1 && q.mail == p.mail.(link := Up)
  {}

  // What the script decides: a row is stored if and only if it has a positive version and
  // what is cached, if it decodes, has a lower one. Other keys are left alone.
  lemma ScriptDecides(s: State, i: nat, other: ConfigKey)
    requires Enabled(s, CompareAndSet(i))
    ensures var x, t := s.readers[i], Do(s, CompareAndSet(i));
            && (if x.row.version > 0 && (x.key in s.l2 && s.l2[x.key].cell.Valid? ==> s.l2[x.key].cell.row.version < x.row.version)
                then x.key in t.l2 && t.l2[x.key].cell == Valid(x.row) else t.l2 == s.l2)
            && (other != x.key ==> (other in t.l2 <==> other in s.l2) && (other in t.l2 ==> t.l2[other] == s.l2[other]))
  {}

  function Init(db: map<ConfigKey, Row>, replicas: set<nat>): State {
    State(Commits(db, [], map[]), map[], map r | r in replicas :: Replica(map[], Mail([], {}, Up)), map[])
  }

  // The state after a run, if every step of it is possible.
  function Run(s: State, steps: seq<Step>): Option<State> {
    if steps == [] then Some(s)
    else
      var before := Run(s, steps[..|steps| - 1]);
      var step := steps[|steps| - 1];
      if before.Some? && Enabled(before.value, step) then Some(Do(before.value, step)) else None
  }

  // ── What every step keeps ───────────────────────────────────────────────────

  // A commit of the key that a row read after `asOf` commits does not know of.
  ghost predicate Newer(c: Commits, key: ConfigKey, asOf: nat, n: nat) {
    asOf <= n < |c.log| && c.log[n].key == key
  }

  ghost predicate Outdated(c: Commits, key: ConfigKey, asOf: nat) {
    exists n: nat :: Newer(c, key, asOf, n)
  }

  // The row was the database's after `asOf` commits.
  ghost predicate WasRow(c: Commits, key: ConfigKey, row: Row, asOf: nat) {
    asOf <= |c.log| && Get(Rows(c.first, c.log[..asOf]), key) == Some(row)
  }

  // The writer of the commit is still at work, or has yet to delete the second level.
  ghost predicate Unannounced(c: Commits, notice: Notice) {
    exists w :: w in c.writers && c.writers[w].notice == notice
  }

  ghost predicate Undeleted(c: Commits, notice: Notice) {
    exists w :: w in c.writers && c.writers[w].notice == notice && c.writers[w].phase != Announce
  }

  // The notice waits for the replica, in its queue or for its flush.
  ghost predicate Waits(mail: Mail, notice: Notice) {
    notice in mail.queue || notice in mail.missed
  }

  // The commit's invalidation has not reached the replica.
  ghost predicate OnItsWay(c: Commits, mail: Mail, notice: Notice) {
    Unannounced(c, notice) || Waits(mail, notice)
  }

  ghost predicate AllNewer(c: Commits, key: ConfigKey, asOf: nat, passed: set<nat>) {
    forall n :: n in passed ==> Newer(c, key, asOf, n)
  }

  // Every later commit has passed or is on its way; nothing else has passed.
  ghost predicate L1Accounted(c: Commits, mail: Mail, key: ConfigKey, asOf: nat, passed: set<nat>) {
    && AllNewer(c, key, asOf, passed)
    && forall n: nat :: Newer(c, key, asOf, n) && n !in passed ==> OnItsWay(c, mail, Notice(key, n))
  }

  ghost predicate L2Accounted(c: Commits, key: ConfigKey, asOf: nat, passed: set<nat>) {
    && AllNewer(c, key, asOf, passed)
    && forall n: nat :: Newer(c, key, asOf, n) && n !in passed ==> Undeleted(c, Notice(key, n))
  }

  ghost predicate SharedInv(c: Commits, key: ConfigKey, e: Shared) {
    e.cell.Valid? ==> WasRow(c, key, e.cell.row, e.asOf) && L2Accounted(c, key, e.asOf, e.passed)
  }

  ghost predicate L2Inv(c: Commits, l2: map<ConfigKey, Shared>) {
    forall k :: k in l2 ==> SharedInv(c, k, l2[k])
  }

  ghost predicate CopyInv(c: Commits, mail: Mail, key: ConfigKey, copy: Copy) {
    WasRow(c, key, copy.row, copy.asOf) && L1Accounted(c, mail, key, copy.asOf, copy.passed)
  }

  ghost predicate Logged(c: Commits, notice: Notice) {
    notice.commit < |c.log| && c.log[notice.commit].key == notice.key
  }

  ghost predicate MailInv(c: Commits, mail: Mail) {
    forall n :: Waits(mail, n) ==> Logged(c, n)
  }

  ghost predicate ReplicaInv(c: Commits, p: Replica) {
    && MailInv(c, p.mail)
    && forall k :: k in p.l1 ==> CopyInv(c, p.mail, k, p.l1[k])
  }

  ghost predicate ReaderInv(c: Commits, replicas: map<nat, Replica>, x: Reader) {
    && x.replica in replicas
    && WasRow(c, x.key, x.row, x.asOf)
    && L1Accounted(c, replicas[x.replica].mail, x.key, x.asOf, x.passed)
    && (x.stage != FromShared ==> L2Accounted(c, x.key, x.asOf, x.deleted))
  }

  ghost predicate WritersInv(c: Commits) {
    forall w :: w in c.writers ==> Logged(c, c.writers[w].notice)
  }

  ghost predicate Inv(s: State) {
    && WritersInv(s.commits) && L2Inv(s.commits, s.l2)
    && (forall r :: r in s.replicas ==> ReplicaInv(s.commits, s.replicas[r]))
    && (forall i :: i in s.readers ==> ReaderInv(s.commits, s.replicas, s.readers[i]))
  }

  // ── Steps of readers, and expiry ────────────────────────────────────────────

  // Other entries, with the same mail.
  lemma SetReplicaInv(s: State, r: nat, p: Replica)
    requires Inv(s) && r in s.replicas && p.mail == s.replicas[r].mail && ReplicaInv(s.commits, p)
    ensures Inv(SetReplica(s, r, p))
  {
    var t := SetReplica(s, r, p);
    forall i | i in t.readers ensures ReaderInv(t.commits, t.replicas, t.readers[i]) {
      assert ReaderInv(s.commits, s.replicas, s.readers[i]);
    }
  }

  lemma SetReaderInv(s: State, i: nat, x: Reader)
    requires Inv(s) && ReaderInv(s.commits, s.replicas, x)
    ensures Inv(SetReader(s, i, x)) && Inv(DropReader(s, i))
  {}

  lemma ReadSharedKeepsInv(s: State, step: Step)
    requires Inv(s) && Enabled(s, step) && step.ReadShared?
    ensures Inv(Do(s, step))
  {
    var c, key, e := s.commits, step.key, s.l2[step.key];
    var x := Reader(step.replica, key, e.cell.row, e.asOf, FromShared, e.passed, {});
    assert SharedInv(c, key, e);
    forall n: nat | Newer(c, key, e.asOf, n) && n !in e.passed ensures Unannounced(c, Notice(key, n)) {
      assert Undeleted(c, Notice(key, n));
    }
    SetReaderInv(s, step.reader, x);
  }

  lemma ReadDbKeepsInv(s: State, step: Step)
    requires Inv(s) && Enabled(s, step) && step.ReadDb?
    ensures Inv(Do(s, step))
  {
    assert s.commits.log[..|s.commits.log|] == s.commits.log;
    SetReaderInv(s, step.reader, Reader(step.replica, step.key, Db(s)[step.key], |s.commits.log|, FromDb, {}, {}));
  }

  lemma SetL1KeepsInv(s: State, step: Step)
    requires Inv(s) && Enabled(s, step) && step.SetL1?
    ensures Inv(Do(s, step))
  {
    var x := s.readers[step.reader];
    var p := s.replicas[x.replica];
    var q := p.(l1 := p.l1[x.key := Copy(x.row, x.asOf, x.passed)]);
    assert ReaderInv(s.commits, s.replicas, x) && ReplicaInv(s.commits, p);
    SetReplicaInv(s, x.replica, q);
    if x.stage == FromShared {
      SetReaderInv(SetReplica(s, x.replica, q), step.reader, x);
    } else {
      SetReaderInv(SetReplica(s, x.replica, q), step.reader, x.(stage := Backfilling));
    }
  }

  lemma CompareAndSetKeepsInv(s: State, step: Step)
    requires Inv(s) && Enabled(s, step) && step.CompareAndSet?
    ensures Inv(Do(s, step))
  {
    var x := s.readers[step.reader];
    assert ReaderInv(s.commits, s.replicas, x);
    var t := s.(l2 := s.l2[x.key := Shared(Valid(x.row), x.asOf, x.deleted)]);
    assert Inv(t);
    SetReaderInv(t, step.reader, x);
    SetReaderInv(s, step.reader, x);
  }

  lemma ExpireKeepsInv(s: State, step: Step)
    requires Inv(s) && Enabled(s, step) && (step.ExpireL1? || step.ExpireL2? || step.Spoil?)
    ensures Inv(Do(s, step))
  {
    if step.ExpireL1? {
      var p := s.replicas[step.replica];
      assert ReplicaInv(s.commits, p);
      SetReplicaInv(s, step.replica, p.(l1 := p.l1 - {step.key}));
    }
  }

  // ── Steps of the writers ────────────────────────────────────────────────────

  // The same commits, and whatever was outstanding still is.
  ghost predicate StillOutstanding(c: Commits, d: Commits) {
    && d.first == c.first && d.log == c.log
    && (forall n :: Undeleted(c, n) ==> Undeleted(d, n))
    && (forall n :: Unannounced(c, n) ==> Unannounced(d, n))
  }

  lemma PhaseOutstanding(c: Commits, w: nat, phase: Phase)
    requires w in c.writers
    ensures var d := SetPhase(c, w, phase);
            && (forall n :: Unannounced(c, n) ==> Unannounced(d, n))
            && (forall n :: Undeleted(c, n) && (n != c.writers[w].notice || phase != Announce) ==> Undeleted(d, n))
            && (WritersInv(c) ==> WritersInv(d))
  {
    var d := SetPhase(c, w, phase);
    forall n | Unannounced(c, n) ensures Unannounced(d, n) {
      var x :| x in c.writers && c.writers[x].notice == n;
      assert x in d.writers && d.writers[x].notice == n;
    }
    forall n | Undeleted(c, n) && (n != c.writers[w].notice || phase != Announce) ensures Undeleted(d, n) {
      var x :| x in c.writers && c.writers[x].notice == n && c.writers[x].phase != Announce;
      assert x in d.writers && d.writers[x].notice == n;
    }
  }

  lemma L1Carried(c: Commits, d: Commits, mail: Mail, key: ConfigKey, asOf: nat, passed: set<nat>)
    requires d.first == c.first && d.log == c.log && forall n :: Unannounced(c, n) ==> Unannounced(d, n)
    requires L1Accounted(c, mail, key, asOf, passed)
    ensures L1Accounted(d, mail, key, asOf, passed)
  {
    forall n: nat | Newer(d, key, asOf, n) && n !in passed ensures OnItsWay(d, mail, Notice(key, n)) {
      assert Newer(c, key, asOf, n) && OnItsWay(c, mail, Notice(key, n));
    }
    assert forall n :: n in passed ==> Newer(c, key, asOf, n) && Newer(d, key, asOf, n);
  }

  lemma L2Carried(c: Commits, d: Commits, key: ConfigKey, asOf: nat, passed: set<nat>)
    requires StillOutstanding(c, d) && L2Accounted(c, key, asOf, passed)
    ensures L2Accounted(d, key, asOf, passed)
  {
    forall n: nat | Newer(d, key, asOf, n) && n !in passed ensures Undeleted(d, Notice(key, n)) {
      assert Newer(c, key, asOf, n) && Undeleted(c, Notice(key, n));
    }
    assert forall n :: n in passed ==> Newer(c, key, asOf, n) && Newer(d, key, asOf, n);
  }

  lemma ReplicaCarried(c: Commits, d: Commits, p: Replica)
    requires d.first == c.first && d.log == c.log && forall n :: Unannounced(c, n) ==> Unannounced(d, n)
    requires ReplicaInv(c, p)
    ensures ReplicaInv(d, p)
  {
    forall k | k in p.l1 ensures CopyInv(d, p.mail, k, p.l1[k]) {
      assert CopyInv(c, p.mail, k, p.l1[k]);
      L1Carried(c, d, p.mail, k, p.l1[k].asOf, p.l1[k].passed);
    }
    forall n | Waits(p.mail, n) ensures Logged(d, n) {
      assert Logged(c, n);
    }
  }

  lemma CommitsCarried(s: State, d: Commits)
    requires Inv(s) && StillOutstanding(s.commits, d) && WritersInv(d)
    ensures Inv(s.(commits := d))
  {
    var c := s.commits;
    forall k | k in s.l2 ensures SharedInv(d, k, s.l2[k]) {
      var e := s.l2[k];
      assert SharedInv(c, k, e);
      if e.cell.Valid? { L2Carried(c, d, k, e.asOf, e.passed); }
    }
    forall r | r in s.replicas ensures ReplicaInv(d, s.replicas[r]) {
      ReplicaCarried(c, d, s.replicas[r]);
    }
    forall i | i in s.readers ensures ReaderInv(d, s.replicas, s.readers[i]) {
      var x := s.readers[i];
      assert ReaderInv(c, s.replicas, x);
      L1Carried(c, d, s.replicas[x.replica].mail, x.key, x.asOf, x.passed);
      if x.stage != FromShared { L2Carried(c, d, x.key, x.asOf, x.deleted); }
    }
  }

  lemma OwnDeleteKeepsInv(s: State, w: nat)
    requires Inv(s) && Enabled(s, Advance(w)) && s.commits.writers[w].phase == DeleteOwn
    ensures Inv(Do(s, Advance(w)))
  {
    var Writer(r, notice, _) := s.commits.writers[w];
    var q := s.replicas[r].(l1 := s.replicas[r].l1 - {notice.key});
    assert ReplicaInv(s.commits, s.replicas[r]);
    SetReplicaInv(s, r, q);
    PhaseOutstanding(s.commits, w, DeleteShared);
    CommitsCarried(SetReplica(s, r, q), SetPhase(s.commits, w, DeleteShared));
  }

  // The deletion in the second level: the commit passes the readers of its key.
  lemma SharedDeleteTells(c: Commits, w: nat, x: Reader)
    requires w in c.writers && Logged(c, c.writers[w].notice) && L2Accounted(c, x.key, x.asOf, x.deleted)
    ensures L2Accounted(SetPhase(c, w, Announce), x.key, x.asOf, Overtaken(x, c.writers[w].notice).deleted)
  {
    var d, y := SetPhase(c, w, Announce), Overtaken(x, c.writers[w].notice);
    PhaseOutstanding(c, w, Announce);
    forall n: nat | Newer(d, x.key, x.asOf, n) && n !in y.deleted ensures Undeleted(d, Notice(x.key, n)) {
      assert Newer(c, x.key, x.asOf, n) && n !in x.deleted && Undeleted(c, Notice(x.key, n));
    }
    forall n | n in y.deleted ensures Newer(d, x.key, x.asOf, n) {
      assert n in x.deleted ==> Newer(c, x.key, x.asOf, n);
    }
  }

  lemma SharedDeleteSpares(c: Commits, w: nat, key: ConfigKey, e: Shared)
    requires w in c.writers && key != c.writers[w].notice.key && SharedInv(c, key, e)
    ensures SharedInv(SetPhase(c, w, Announce), key, e)
  {
    var d := SetPhase(c, w, Announce);
    PhaseOutstanding(c, w, Announce);
    if e.cell.Valid? {
      forall n: nat | Newer(d, key, e.asOf, n) && n !in e.passed ensures Undeleted(d, Notice(key, n)) {
        assert Newer(c, key, e.asOf, n) && Undeleted(c, Notice(key, n));
      }
      assert forall n :: n in e.passed ==> Newer(c, key, e.asOf, n) && Newer(d, key, e.asOf, n);
    }
  }

  lemma SharedDeleteKeepsInv(s: State, w: nat)
    requires Inv(s) && w in s.commits.writers
    ensures Inv(DeleteInShared(s, w))
  {
    var c, t := s.commits, DeleteInShared(s, w);
    PhaseOutstanding(c, w, Announce);
    forall k | k in t.l2 ensures SharedInv(t.commits, k, t.l2[k]) {
      assert SharedInv(c, k, s.l2[k]);
      SharedDeleteSpares(c, w, k, s.l2[k]);
    }
    forall r | r in t.replicas ensures ReplicaInv(t.commits, t.replicas[r]) {
      ReplicaCarried(c, t.commits, s.replicas[r]);
    }
    forall i | i in t.readers ensures ReaderInv(t.commits, t.replicas, t.readers[i]) {
      SharedDeleteReader(c, w, s.replicas, s.readers[i]);
    }
  }

  lemma SharedDeleteReader(c: Commits, w: nat, replicas: map<nat, Replica>, x: Reader)
    requires w in c.writers && Logged(c, c.writers[w].notice) && ReaderInv(c, replicas, x)
    ensures ReaderInv(SetPhase(c, w, Announce), replicas, Overtaken(x, c.writers[w].notice))
  {
    PhaseOutstanding(c, w, Announce);
    L1Carried(c, SetPhase(c, w, Announce), replicas[x.replica].mail, x.key, x.asOf, x.passed);
    if x.stage != FromShared { SharedDeleteTells(c, w, x); }
  }

  // The notice goes from the writer to every replica.
  lemma Handed(c: Commits, w: nat, mail: Mail, key: ConfigKey, asOf: nat, passed: set<nat>)
    requires w in c.writers && L1Accounted(c, mail, key, asOf, passed)
    ensures L1Accounted(c.(writers := c.writers - {w}), Received(mail, c.writers[w].notice), key, asOf, passed)
  {
    var d, notice := c.(writers := c.writers - {w}), c.writers[w].notice;
    var received := Received(mail, notice);
    forall n: nat | Newer(d, key, asOf, n) && n !in passed ensures OnItsWay(d, received, Notice(key, n)) {
      assert Newer(c, key, asOf, n) && OnItsWay(c, mail, Notice(key, n));
      if Notice(key, n) != notice && Unannounced(c, Notice(key, n)) {
        var x :| x in c.writers && c.writers[x].notice == Notice(key, n);
        assert x in d.writers;
      }
    }
    assert forall n :: n in passed ==> Newer(c, key, asOf, n) && Newer(d, key, asOf, n);
  }

  lemma PublishedReplica(c: Commits, w: nat, p: Replica)
    requires w in c.writers && Logged(c, c.writers[w].notice) && ReplicaInv(c, p)
    ensures ReplicaInv(c.(writers := c.writers - {w}), p.(mail := Received(p.mail, c.writers[w].notice)))
  {
    var d, notice := c.(writers := c.writers - {w}), c.writers[w].notice;
    forall k | k in p.l1 ensures CopyInv(d, Received(p.mail, notice), k, p.l1[k]) {
      assert CopyInv(c, p.mail, k, p.l1[k]);
      Handed(c, w, p.mail, k, p.l1[k].asOf, p.l1[k].passed);
    }
    forall n | Waits(Received(p.mail, notice), n) ensures Logged(d, n) {
      assert n == notice || Waits(p.mail, n);
    }
  }

  lemma DoneOutstanding(c: Commits, w: nat)
    requires w in c.writers && c.writers[w].phase == Announce
    ensures forall n :: Undeleted(c, n) ==> Undeleted(c.(writers := c.writers - {w}), n)
  {
    var d := c.(writers := c.writers - {w});
    forall n | Undeleted(c, n) ensures Undeleted(d, n) {
      var x :| x in c.writers && c.writers[x].notice == n && c.writers[x].phase != Announce;
      assert x in d.writers;
    }
  }

  lemma DoneL2(c: Commits, w: nat, key: ConfigKey, asOf: nat, passed: set<nat>)
    requires w in c.writers && c.writers[w].phase == Announce && L2Accounted(c, key, asOf, passed)
    ensures L2Accounted(c.(writers := c.writers - {w}), key, asOf, passed)
  {
    var d := c.(writers := c.writers - {w});
    DoneOutstanding(c, w);
    forall n: nat | Newer(d, key, asOf, n) && n !in passed ensures Undeleted(d, Notice(key, n)) {
      assert Newer(c, key, asOf, n) && Undeleted(c, Notice(key, n));
    }
    assert forall n :: n in passed ==> Newer(c, key, asOf, n) && Newer(d, key, asOf, n);
  }

  lemma PublishKeepsInv(s: State, w: nat)
    requires Inv(s) && w in s.commits.writers && s.commits.writers[w].phase == Announce
    ensures Inv(Publish(s, w))
  {
    var c, t := s.commits, Publish(s, w);
    forall k | k in t.l2 ensures SharedInv(t.commits, k, t.l2[k]) {
      assert SharedInv(c, k, s.l2[k]);
      if s.l2[k].cell.Valid? { DoneL2(c, w, k, s.l2[k].asOf, s.l2[k].passed); }
    }
    forall r | r in t.replicas ensures ReplicaInv(t.commits, t.replicas[r]) {
      PublishedReplica(c, w, s.replicas[r]);
    }
    forall i | i in t.readers ensures ReaderInv(t.commits, t.replicas, t.readers[i]) {
      var x := s.readers[i];
      assert ReaderInv(c, s.replicas, x);
      Handed(c, w, s.replicas[x.replica].mail, x.key, x.asOf, x.passed);
      if x.stage != FromShared { DoneL2(c, w, x.key, x.asOf, x.deleted); }
    }
  }

  // One more commit, which is outstanding like those before it.
  ghost predicate Grown(c: Commits, d: Commits) {
    && d.first == c.first && |d.log| == |c.log| + 1 && d.log[..|c.log|] == c.log
    && (forall n :: Undeleted(c, n) || n == Notice(d.log[|c.log|].key, |c.log|) ==> Undeleted(d, n))
    && (forall n :: Unannounced(c, n) || n == Notice(d.log[|c.log|].key, |c.log|) ==> Unannounced(d, n))
  }

  lemma GrownRow(c: Commits, d: Commits, key: ConfigKey, row: Row, asOf: nat)
    requires Grown(c, d) && WasRow(c, key, row, asOf)
    ensures WasRow(d, key, row, asOf)
  {
    assert d.log[..asOf] == c.log[..asOf];
  }

  lemma GrownL1(c: Commits, d: Commits, mail: Mail, key: ConfigKey, asOf: nat, passed: set<nat>)
    requires Grown(c, d) && asOf <= |c.log| && L1Accounted(c, mail, key, asOf, passed)
    ensures L1Accounted(d, mail, key, asOf, passed)
  {
    forall n | n in passed ensures Newer(d, key, asOf, n) {
      assert Newer(c, key, asOf, n);
    }
    forall n: nat | Newer(d, key, asOf, n) && n !in passed ensures OnItsWay(d, mail, Notice(key, n)) {
      assert n < |c.log| ==> Newer(c, key, asOf, n) && OnItsWay(c, mail, Notice(key, n));
    }
  }

  lemma GrownL2(c: Commits, d: Commits, key: ConfigKey, asOf: nat, passed: set<nat>)
    requires Grown(c, d) && asOf <= |c.log| && L2Accounted(c, key, asOf, passed)
    ensures L2Accounted(d, key, asOf, passed)
  {
    forall n | n in passed ensures Newer(d, key, asOf, n) {
      assert Newer(c, key, asOf, n);
    }
    forall n: nat | Newer(d, key, asOf, n) && n !in passed ensures Undeleted(d, Notice(key, n)) {
      assert n < |c.log| ==> Newer(c, key, asOf, n) && Undeleted(c, Notice(key, n));
    }
  }

  lemma GrownReplica(c: Commits, d: Commits, p: Replica)
    requires Grown(c, d) && ReplicaInv(c, p)
    ensures ReplicaInv(d, p)
  {
    forall k | k in p.l1 ensures CopyInv(d, p.mail, k, p.l1[k]) {
      assert CopyInv(c, p.mail, k, p.l1[k]);
      GrownRow(c, d, k, p.l1[k].row, p.l1[k].asOf);
      GrownL1(c, d, p.mail, k, p.l1[k].asOf, p.l1[k].passed);
    }
    forall n | Waits(p.mail, n) ensures Logged(d, n) {
      assert Logged(c, n);
    }
  }

  lemma WriteGrows(c: Commits, w: nat, r: nat, key: ConfigKey, row: Option<Row>)
    requires WritersInv(c) && w !in c.writers
    ensures var d := c.(log := c.log + [Commit(key, row)], writers := c.writers[w := Writer(r, Notice(key, |c.log|), DeleteOwn)]);
            Grown(c, d) && WritersInv(d)
  {
    var d := c.(log := c.log + [Commit(key, row)], writers := c.writers[w := Writer(r, Notice(key, |c.log|), DeleteOwn)]);
    assert d.writers[w].notice == Notice(key, |c.log|);
    forall n | Undeleted(c, n) ensures Undeleted(d, n) {
      var x :| x in c.writers && c.writers[x].notice == n && c.writers[x].phase != Announce;
      assert d.writers[x] == c.writers[x];
    }
    forall n | Unannounced(c, n) ensures Unannounced(d, n) {
      var x :| x in c.writers && c.writers[x].notice == n;
      assert d.writers[x] == c.writers[x];
    }
  }

  // A commit is newer than everything stored, and outstanding.
  lemma WriteKeepsInv(s: State, step: Step)
    requires Inv(s) && Enabled(s, step) && step.Write?
    ensures Inv(Do(s, step))
  {
    var c, t := s.commits, Do(s, step);
    WriteGrows(c, step.writer, step.replica, step.key, step.row);
    forall k | k in t.l2 ensures SharedInv(t.commits, k, t.l2[k]) {
      var e := s.l2[k];
      assert SharedInv(c, k, e);
      if e.cell.Valid? {
        GrownRow(c, t.commits, k, e.cell.row, e.asOf);
        GrownL2(c, t.commits, k, e.asOf, e.passed);
      }
    }
    forall r | r in t.replicas ensures ReplicaInv(t.commits, t.replicas[r]) {
      GrownReplica(c, t.commits, s.replicas[r]);
    }
    forall i | i in t.readers ensures ReaderInv(t.commits, t.replicas, t.readers[i]) {
      var x := s.readers[i];
      assert ReaderInv(c, s.replicas, x);
      GrownRow(c, t.commits, x.key, x.row, x.asOf);
      GrownL1(c, t.commits, s.replicas[x.replica].mail, x.key, x.asOf, x.passed);
      if x.stage != FromShared { GrownL2(c, t.commits, x.key, x.asOf, x.deleted); }
    }
  }

  // ── Steps of the connections ────────────────────────────────────────────────

  // Other mail with the same notices on their way.
  lemma ReroutedL1(c: Commits, mail: Mail, other: Mail, key: ConfigKey, asOf: nat, passed: set<nat>)
    requires L1Accounted(c, mail, key, asOf, passed) && forall n :: Waits(mail, n) ==> Waits(other, n)
    ensures L1Accounted(c, other, key, asOf, passed)
  {
    forall n: nat | Newer(c, key, asOf, n) && n !in passed ensures OnItsWay(c, other, Notice(key, n)) {
      assert OnItsWay(c, mail, Notice(key, n));
    }
  }

  lemma ReroutedInv(s: State, r: nat, mail: Mail)
    requires Inv(s) && r in s.replicas && forall n :: Waits(s.replicas[r].mail, n) <==> Waits(mail, n)
    ensures Inv(SetReplica(s, r, s.replicas[r].(mail := mail)))
  {
    var c, p, t := s.commits, s.replicas[r], SetReplica(s, r, s.replicas[r].(mail := mail));
    assert ReplicaInv(c, p);
    forall k | k in p.l1 ensures CopyInv(c, mail, k, p.l1[k]) {
      assert CopyInv(c, p.mail, k, p.l1[k]);
      ReroutedL1(c, p.mail, mail, k, p.l1[k].asOf, p.l1[k].passed);
    }
    forall i | i in t.readers ensures ReaderInv(c, t.replicas, t.readers[i]) {
      var x := s.readers[i];
      assert ReaderInv(c, s.replicas, x);
      if x.replica == r { ReroutedL1(c, p.mail, mail, x.key, x.asOf, x.passed); }
    }
  }

  lemma LinkStepKeepsInv(s: State, step: Step)
    requires Inv(s) && Enabled(s, step) && (step.Lose? || step.Reconnect?)
    ensures Inv(Do(s, step))
  {
    var mail := s.replicas[step.replica].mail;
    var other := if step.Lose? then LoseMail(mail) else mail.(link := Up);
    forall n ensures Waits(mail, n) <==> Waits(other, n) {}
    ReroutedInv(s, step.replica, other);
  }

  // The notices leave the mail of one replica, together with the entries they concern, and
  // its readers are told.
  ghost predicate ActsOn(p: Replica, q: Replica, notices: set<Notice>) {
    && (forall n :: Waits(p.mail, n) <==> n in notices || Waits(q.mail, n))
    && (forall k :: k in q.l1 ==> k in p.l1 && q.l1[k] == p.l1[k] && forall n :: n in notices ==> n.key != k)
  }

  lemma ActedReplica(c: Commits, p: Replica, q: Replica, notices: set<Notice>)
    requires ReplicaInv(c, p) && ActsOn(p, q, notices)
    ensures ReplicaInv(c, q)
  {
    forall n | Waits(q.mail, n) ensures Logged(c, n) {
      assert Waits(p.mail, n);
    }
    forall k | k in q.l1 ensures CopyInv(c, q.mail, k, q.l1[k]) {
      var copy := p.l1[k];
      assert CopyInv(c, p.mail, k, copy);
      forall n: nat | Newer(c, k, copy.asOf, n) && n !in copy.passed ensures OnItsWay(c, q.mail, Notice(k, n)) {
        assert OnItsWay(c, p.mail, Notice(k, n));
      }
    }
  }

  lemma ActedReader(c: Commits, p: Replica, q: Replica, notices: set<Notice>, x: Reader)
    requires MailInv(c, p.mail) && ActsOn(p, q, notices)
    requires L1Accounted(c, p.mail, x.key, x.asOf, x.passed)
    ensures L1Accounted(c, q.mail, x.key, x.asOf, Told(x, x.replica, notices).passed)
  {
    var passed := Told(x, x.replica, notices).passed;
    forall n | n in passed ensures Newer(c, x.key, x.asOf, n) {
      if n !in x.passed {
        var notice :| notice in notices && Concerns(x, notice) && notice.commit == n;
        assert Waits(p.mail, notice);
      }
    }
    forall n: nat | Newer(c, x.key, x.asOf, n) && n !in passed ensures OnItsWay(c, q.mail, Notice(x.key, n)) {
      assert OnItsWay(c, p.mail, Notice(x.key, n));
    }
  }

  lemma ActKeepsInv(s: State, r: nat, q: Replica, notices: set<Notice>)
    requires Inv(s) && r in s.replicas && ActsOn(s.replicas[r], q, notices)
    ensures Inv(Act(s, r, q, notices))
  {
    var c, p, t := s.commits, s.replicas[r], Act(s, r, q, notices);
    assert ReplicaInv(c, p);
    ActedReplica(c, p, q, notices);
    forall i | i in t.readers ensures ReaderInv(c, t.replicas, t.readers[i]) {
      var x := s.readers[i];
      assert ReaderInv(c, s.replicas, x);
      if x.replica == r { ActedReader(c, p, q, notices, x); }
    }
  }

  lemma NoticeStepKeepsInv(s: State, step: Step)
    requires Inv(s) && Enabled(s, step) && (step.Deliver? || step.Flush?)
    ensures Inv(Do(s, step))
  {
    var p, q := s.replicas[step.replica], Do(s, step).replicas[step.replica];
    var notices := if step.Deliver? then {p.mail.queue[0]} else p.mail.missed;
    assert step.Deliver? ==> p.mail.queue == [p.mail.queue[0]] + p.mail.queue[1..];
    ActKeepsInv(s, step.replica, q, notices);
  }

  // ── Freshness over whole runs ───────────────────────────────────────────────

  lemma StepKeepsInv(s: State, step: Step)
    requires Inv(s) && Enabled(s, step)
    ensures Inv(Do(s, step))
  {
    match step
    case Write(_, _, _, _) => WriteKeepsInv(s, step);
    case Advance(w) =>
      match s.commits.writers[w].phase {
        case DeleteOwn => OwnDeleteKeepsInv(s, w);
        case DeleteShared => SharedDeleteKeepsInv(s, w);
        case Announce => PublishKeepsInv(s, w);
      }
    case Deliver(_) => NoticeStepKeepsInv(s, step);
    case Flush(_) => NoticeStepKeepsInv(s, step);
    case Lose(_) => LinkStepKeepsInv(s, step);
    case Reconnect(_) => LinkStepKeepsInv(s, step);
    case ReadShared(_, _, _) => ReadSharedKeepsInv(s, step);
    case ReadDb(_, _, _) => ReadDbKeepsInv(s, step);
    case SetL1(_) => SetL1KeepsInv(s, step);
    case CompareAndSet(_) => CompareAndSetKeepsInv(s, step);
    case _ => ExpireKeepsInv(s, step);
  }

  lemma {:induction false} RunKeepsInv(db: map<ConfigKey, Row>, replicas: set<nat>, steps: seq<Step>)
    requires Run(Init(db, replicas), steps).Some?
    ensures Inv(Run(Init(db, replicas), steps).value)
  {
    if steps != [] {
      var before := steps[..|steps| - 1];
      RunKeepsInv(db, replicas, before);
      StepKeepsInv(Run(Init(db, replicas), before).value, steps[|steps| - 1]);
    }
  }

  // A row that no commit of its key has followed is the database's.
  lemma {:induction false} RowLasts(first: map<ConfigKey, Row>, log: seq<Commit>, key: ConfigKey, asOf: nat)
    requires asOf <= |log| && forall n: nat :: asOf <= n < |log| ==> log[n].key != key
    ensures Get(Rows(first, log), key) == Get(Rows(first, log[..asOf]), key)
  {
    if asOf == |log| {
      assert log[..asOf] == log;
    } else {
      var before := log[..|log| - 1];
      assert before[..asOf] == log[..asOf];
      RowLasts(first, before, key, asOf);
    }
  }

  lemma CurrentRow(c: Commits, key: ConfigKey, row: Row, asOf: nat)
    requires WasRow(c, key, row, asOf) && !Outdated(c, key, asOf)
    ensures Get(Rows(c.first, c.log), key) == Some(row)
  {
    forall n: nat | asOf <= n < |c.log| ensures c.log[n].key != key {
      assert !Newer(c, key, asOf, n);
    }
    RowLasts(c.first, c.log, key, asOf);
  }

  ghost predicate DeleteOutstanding(c: Commits, key: ConfigKey, asOf: nat) {
    exists n: nat :: Newer(c, key, asOf, n) && Undeleted(c, Notice(key, n))
  }

  // In every reachable state, with readers as slow as they like: a second-level entry is
  // older than a commit of its key if and only if such a commit has still to delete it, or
  // had already deleted the key when the entry was stored. Otherwise it is the row of the
  // database.
  lemma SharedFreshness(db: map<ConfigKey, Row>, replicas: set<nat>, steps: seq<Step>, s: State, key: ConfigKey)
    requires Run(Init(db, replicas), steps) == Some(s) && key in s.l2 && s.l2[key].cell.Valid?
    ensures var e := s.l2[key];
            && (Outdated(s.commits, key, e.asOf) <==> DeleteOutstanding(s.commits, key, e.asOf) || e.passed != {})
            && (!Outdated(s.commits, key, e.asOf) ==> Get(Db(s), key) == Some(e.cell.row))
  {
    RunKeepsInv(db, replicas, steps);
    SharedIsFresh(s.commits, key, s.l2[key]);
  }

  lemma SharedIsFresh(c: Commits, key: ConfigKey, e: Shared)
    requires SharedInv(c, key, e) && e.cell.Valid?
    ensures Outdated(c, key, e.asOf) <==> DeleteOutstanding(c, key, e.asOf) || e.passed != {}
    ensures !Outdated(c, key, e.asOf) ==> Get(Rows(c.first, c.log), key) == Some(e.cell.row)
  {
    if e.passed != {} {
      var n :| n in e.passed;
      assert Newer(c, key, e.asOf, n);
    }
    if !Outdated(c, key, e.asOf) {
      CurrentRow(c, key, e.cell.row, e.asOf);
    }
  }

  // A later commit is still being announced, or its notice is queued.
  ghost predicate NoticeOutstanding(c: Commits, mail: Mail, key: ConfigKey, asOf: nat) {
    exists n: nat :: Newer(c, key, asOf, n) && (Unannounced(c, Notice(key, n)) || Notice(key, n) in mail.queue)
  }

  // The notice of a later commit was lost and not flushed for.
  ghost predicate NoticeMissed(c: Commits, mail: Mail, key: ConfigKey, asOf: nat) {
    exists n: nat :: Newer(c, key, asOf, n) && Notice(key, n) in mail.missed
  }

  // A first-level entry is older than a commit of its key if and only if the notice of
  // such a commit is on its way to the replica, or was lost and not flushed for, or had
  // already been acted on when the entry was stored. Otherwise it is the row of the
  // database.
  lemma LocalFreshness(db: map<ConfigKey, Row>, replicas: set<nat>, steps: seq<Step>, s: State, r: nat, key: ConfigKey)
    requires Run(Init(db, replicas), steps) == Some(s) && r in s.replicas && key in s.replicas[r].l1
    ensures var copy, mail := s.replicas[r].l1[key], s.replicas[r].mail;
            && (Outdated(s.commits, key, copy.asOf) <==>
                  || NoticeOutstanding(s.commits, mail, key, copy.asOf)
                  || NoticeMissed(s.commits, mail, key, copy.asOf)
                  || copy.passed != {})
            && (!Outdated(s.commits, key, copy.asOf) ==> Get(Db(s), key) == Some(copy.row))
  {
    RunKeepsInv(db, replicas, steps);
    assert ReplicaInv(s.commits, s.replicas[r]);
    CopyIsFresh(s.commits, s.replicas[r].mail, key, s.replicas[r].l1[key]);
  }

  lemma CopyIsFresh(c: Commits, mail: Mail, key: ConfigKey, copy: Copy)
    requires CopyInv(c, mail, key, copy)
    ensures Outdated(c, key, copy.asOf) <==>
            NoticeOutstanding(c, mail, key, copy.asOf) || NoticeMissed(c, mail, key, copy.asOf) || copy.passed != {}
    ensures !Outdated(c, key, copy.asOf) ==> Get(Rows(c.first, c.log), key) == Some(copy.row)
  {
    if copy.passed != {} {
      var n :| n in copy.passed;
      assert Newer(c, key, copy.asOf, n);
    }
    if n: nat :| Newer(c, key, copy.asOf, n) && n !in copy.passed {
      assert OnItsWay(c, mail, Notice(key, n));
    }
    if !Outdated(c, key, copy.asOf) {
      CurrentRow(c, key, copy.row, copy.asOf);
    }
  }

  // ── Genuine rows ────────────────────────────────────────────────────────────

  lemma {:induction false} RowsAreCommitted(first: map<ConfigKey, Row>, log: seq<Commit>, key: ConfigKey, row: Row)
    requires Get(Rows(first, log), key) == Some(row)
    ensures Get(first, key) == Some(row) || Commit(key, Some(row)) in log
  {
    if log != [] && log[|log| - 1].key != key {
      RowsAreCommitted(first, log[..|log| - 1], key, row);
    }
  }

  // Each cached row of either level was in the database at the start or was committed since.
  lemma CachedRowsWereCurrent(db: map<ConfigKey, Row>, replicas: set<nat>, steps: seq<Step>, s: State, key: ConfigKey, row: Row)
    requires Run(Init(db, replicas), steps) == Some(s)
    requires || (key in s.l2 && s.l2[key].cell == Valid(row))
             || exists r :: r in s.replicas && key in s.replicas[r].l1 && s.replicas[r].l1[key].row == row
    ensures Get(s.commits.first, key) == Some(row) || Commit(key, Some(row)) in s.commits.log
  {
    RunKeepsInv(db, replicas, steps);
    var c := s.commits;
    if key in s.l2 && s.l2[key].cell == Valid(row) {
      assert SharedInv(c, key, s.l2[key]);
      RowsAreCommitted(c.first, c.log[..s.l2[key].asOf], key, row);
    } else {
      var r :| r in s.replicas && key in s.replicas[r].l1 && s.replicas[r].l1[key].row == row;
      assert ReplicaInv(c, s.replicas[r]) && CopyInv(c, s.replicas[r].mail, key, s.replicas[r].l1[key]);
      RowsAreCommitted(c.first, c.log[..s.replicas[r].l1[key].asOf], key, row);
    }
  }

  // ── Versions in the second level ────────────────────────────────────────────

  // A step after which the key's second-level entry is gone or unreadable.
  predicate Removes(s: State, step: Step, key: ConfigKey)
    requires Enabled(s, step)
  {
    match step
    case Advance(w) => s.commits.writers[w].phase == DeleteShared && s.commits.writers[w].notice.key == key
    case ExpireL2(k) => k == key
    case Spoil(k) => k == key
    case _ => false
  }

  predicate Removed(s: State, steps: seq<Step>, key: ConfigKey)
    requires Run(s, steps).Some?
  {
    steps != [] &&
    (Removed(s, steps[..|steps| - 1], key) || Removes(Run(s, steps[..|steps| - 1]).value, steps[|steps| - 1], key))
  }

  // The entry is the same, or one of a higher version.
  predicate AtLeast(e: Shared, f: Shared) {
    e.cell.Valid? && f.cell.Valid? && (f == e || f.cell.row.version > e.cell.row.version)
  }

  lemma StepRaises(s: State, step: Step, key: ConfigKey)
    requires Enabled(s, step) && !Removes(s, step, key) && key in s.l2 && s.l2[key].cell.Valid?
    ensures key in Do(s, step).l2 && AtLeast(s.l2[key], Do(s, step).l2[key])
  {}

  // Until its key is removed a valid entry stays, or is replaced by one of a higher version.
  lemma {:induction false} VersionsOnlyRise(s: State, steps: seq<Step>, t: State, key: ConfigKey)
    requires Run(s, steps) == Some(t) && !Removed(s, steps, key)
    requires key in s.l2 && s.l2[key].cell.Valid?
    ensures key in t.l2 && AtLeast(s.l2[key], t.l2[key])
  {
    if steps != [] {
      var mid := Run(s, steps[..|steps| - 1]).value;
      VersionsOnlyRise(s, steps[..|steps| - 1], mid, key);
      StepRaises(mid, steps[|steps| - 1], key);
    }
  }

  // ── What an overtaken reader leaves behind ──────────────────────────────────

  ghost predicate Stale(s: State, key: ConfigKey) {
    key in s.l2 && s.l2[key].cell.Valid? && Get(Db(s), key) != Some(s.l2[key].cell.row)
  }

  // No writer of the key has still to delete it in the second level.
  ghost predicate Settled(c: Commits, key: ConfigKey) {
    forall w :: w in c.writers && c.writers[w].notice.key == key ==> c.writers[w].phase == Announce
  }

  predicate Leaves(step: Step, key: ConfigKey) {
    !(step.Write? && step.key == key) && step != ExpireL2(key) && step != Spoil(key)
  }

  lemma SettledStep(s: State, step: Step, key: ConfigKey)
    requires Enabled(s, step) && Settled(s.commits, key) && Leaves(step, key)
    ensures Settled(Do(s, step).commits, key) && !Removes(s, step, key)
    ensures Get(Db(Do(s, step)), key) == Get(Db(s), key)
  {
    if step.Write? {
      var log := Do(s, step).commits.log;
      assert log[..|log| - 1] == s.commits.log;
    }
  }

  lemma {:induction false} SettledRun(s: State, steps: seq<Step>, t: State, key: ConfigKey)
    requires Run(s, steps) == Some(t) && Settled(s.commits, key)
    requires forall i :: 0 <= i < |steps| ==> Leaves(steps[i], key)
    ensures !Removed(s, steps, key) && Settled(t.commits, key) && Get(Db(t), key) == Get(Db(s), key)
  {
    if steps != [] {
      var mid := Run(s, steps[..|steps| - 1]).value;
      SettledRun(s, steps[..|steps| - 1], mid, key);
      SettledStep(mid, steps[|steps| - 1], key);
    }
  }

  // A store by a reader whose row has been replaced, once all deletes of the key are done,
  // stays stale over any continuation without another write of the key or its expiry,
  // unless a reader with a higher version stores after it.
  lemma OvertakenStoreStaysStale(s: State, i: nat, u: State, steps: seq<Step>, t: State)
    requires Enabled(s, CompareAndSet(i)) && u == Do(s, CompareAndSet(i)) && Run(u, steps) == Some(t)
    requires var x := s.readers[i];
             && Accepts(GetCell(s.l2, x.key), x.row.version)
             && Settled(s.commits, x.key) && Get(Db(s), x.key) != Some(x.row)
             && forall j :: 0 <= j < |steps| ==> Leaves(steps[j], x.key)
    ensures var x := s.readers[i];
            && Stale(u, x.key)
            && x.key in t.l2 && t.l2[x.key].cell.Valid?
            && (t.l2[x.key].cell.row.version > x.row.version || (t.l2[x.key].cell.row == x.row && Stale(t, x.key)))
  {
    var key := s.readers[i].key;
    SettledRun(u, steps, t, key);
    VersionsOnlyRise(u, steps, t, key);
  }

  // ── The shortest such run ───────────────────────────────────────────────────

  lemma Append(s: State, steps: seq<Step>, t: State, step: Step) returns (more: seq<Step>, u: State)
    requires Run(s, steps) == Some(t) && Enabled(t, step)
    ensures Run(s, more) == Some(u) && u == Do(t, step)
  {
    more, u := steps + [step], Do(t, step);
    assert more[..|steps|] == steps;
  }

  // One replica without an entry for the key, and one reader of its row.
  ghost predicate Midway(t: State, x: Reader, writers: map<nat, Writer>, queue: seq<Notice>) {
    && t.commits.writers == writers && x.key !in t.l2
    && 0 in t.replicas && x.key !in t.replicas[0].l1 && t.replicas[0].mail == Mail(queue, {}, Up)
    && 0 in t.readers && t.readers[0] == x && x.replica == 0 && x.asOf == 0
  }

  // The phases of the writer of the first commit, and the delivery, past the reader.
  lemma OwnDeleteStep(t: State, x: Reader)
    requires Midway(t, x, map[0 := Writer(0, Notice(x.key, 0), DeleteOwn)], [])
    ensures Enabled(t, Advance(0)) && Do(t, Advance(0)).commits == t.commits.(writers := Do(t, Advance(0)).commits.writers)
    ensures Midway(Do(t, Advance(0)), x, map[0 := Writer(0, Notice(x.key, 0), DeleteShared)], [])
  {}

  lemma SharedDeleteStep(t: State, x: Reader)
    requires Midway(t, x, map[0 := Writer(0, Notice(x.key, 0), DeleteShared)], [])
    ensures Enabled(t, Advance(0)) && Do(t, Advance(0)).commits == t.commits.(writers := Do(t, Advance(0)).commits.writers)
    ensures Midway(Do(t, Advance(0)), x.(deleted := x.deleted + {0}), map[0 := Writer(0, Notice(x.key, 0), Announce)], [])
  {}

  lemma PublishStep(t: State, x: Reader)
    requires Midway(t, x, map[0 := Writer(0, Notice(x.key, 0), Announce)], [])
    ensures Enabled(t, Advance(0)) && Do(t, Advance(0)).commits == t.commits.(writers := Do(t, Advance(0)).commits.writers)
    ensures Midway(Do(t, Advance(0)), x, map[], [Notice(x.key, 0)])
  {
    assert Do(t, Advance(0)).commits.writers == map[];
    assert [] + [Notice(x.key, 0)] == [Notice(x.key, 0)];
  }

  lemma DeliverStep(t: State, x: Reader)
    requires Midway(t, x, map[], [Notice(x.key, 0)])
    ensures Enabled(t, Deliver(0)) && Do(t, Deliver(0)).commits == t.commits
    ensures Midway(Do(t, Deliver(0)), x.(passed := x.passed + {0}), map[], [])
  {
    assert (set n | n in {Notice(x.key, 0)} && Concerns(x, n) :: n.commit) == {0};
  }

  lemma StoreSteps(t: State, x: Reader)
    requires Midway(t, x, map[], []) && x.stage == FromDb && x.row.version > 0
    ensures Enabled(t, SetL1(0)) && Enabled(Do(t, SetL1(0)), CompareAndSet(0))
    ensures var u := Do(Do(t, SetL1(0)), CompareAndSet(0));
            && u.commits == t.commits
            && 0 in u.replicas && u.replicas[0].mail == Mail([], {}, Up)
            && x.key in u.replicas[0].l1 && u.replicas[0].l1[x.key].row == x.row
            && x.key in u.l2 && u.l2[x.key].cell == Valid(x.row)
  {
    var mid := Do(t, SetL1(0));
    assert mid.commits == t.commits && mid.l2 == t.l2 && mid.readers[0] == x.(stage := Backfilling);
  }

  // The reader reads before the write and stores after its invalidation: both levels hold
  // the old row, and nothing is on its way.
  lemma SlowReaderRevivesOldRow(key: ConfigKey, prior: Row, next: Row) returns (steps: seq<Step>, t: State)
    requires prior.version > 0
    ensures Run(Init(map[key := prior], {0}), steps) == Some(t)
    ensures Get(Db(t), key) == Some(next) && t.commits.writers == map[]
    ensures 0 in t.replicas && t.replicas[0].mail == Mail([], {}, Up)
    ensures key in t.replicas[0].l1 && t.replicas[0].l1[key].row == prior
    ensures key in t.l2 && t.l2[key].cell == Valid(prior)
  {
    var s, x := Init(map[key := prior], {0}), Reader(0, key, prior, 0, FromDb, {}, {});
    steps, t := Append(s, [], s, ReadDb(0, 0, key));
    steps, t := Append(s, steps, t, Write(0, 0, key, Some(next)));
    assert Get(Db(t), key) == Some(next) && Midway(t, x, map[0 := Writer(0, Notice(key, 0), DeleteOwn)], []);
    steps, t, x := Invalidates(s, steps, t, x);
    StoreSteps(t, x);
    steps, t := Append(s, steps, t, SetL1(0));
    steps, t := Append(s, steps, t, CompareAndSet(0));
  }

  lemma Invalidates(s: State, steps: seq<Step>, t: State, x: Reader) returns (more: seq<Step>, u: State, y: Reader)
    requires Run(s, steps) == Some(t) && Midway(t, x, map[0 := Writer(0, Notice(x.key, 0), DeleteOwn)], [])
    ensures Run(s, more) == Some(u) && Midway(u, y, map[], [])
    ensures u.commits.first == t.commits.first && u.commits.log == t.commits.log
    ensures y == x.(passed := y.passed, deleted := y.deleted)
  {
    y := x;
    OwnDeleteStep(t, y);
    more, u := Append(s, steps, t, Advance(0));
    SharedDeleteStep(u, y);
    more, u := Append(s, more, u, Advance(0));
    y := y.(deleted := y.deleted + {0});
    PublishStep(u, y);
    more, u := Append(s, more, u, Advance(0));
    DeliverStep(u, y);
    more, u := Append(s, more, u, Deliver(0));
    y := y.(passed := y.passed + {0});
  }
}
