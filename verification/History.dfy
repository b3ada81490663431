// The admin operations on pipeline and instance configs as an undo log: every change
// stores what it replaces, and a rollback is a change like any other.
module History {
  import opened Wrappers
  import opened Canary
  import opened ConfigStore
  import Fnv

  type Bytes = Fnv.Bytes

  datatype Action = Creation | Change | Deletion | Promotion | Restoration

  // The entry's id is its position.
  datatype Entry = Entry(key: ConfigKey, version: int, action: Action, detail: Bytes)

  datatype State = State(db: Db, history: seq<Entry>)

  datatype Response = Done | NewlyCreated | Conflict | BadRequest | NotFound | InternalError

  // What an administrator sends for a canary, its selectors in stored form.
  datatype Payload = Payload(detail: Bytes, percent: int, versionConstraint: string, ipSelector: string, tagSelector: string)

  datatype Op =
    | Create(key: ConfigKey, detail: Bytes, now: int)
    | Update(key: ConfigKey, detail: Bytes, now: int)
    | Delete(key: ConfigKey)
    | StartCanary(key: ConfigKey, payload: Payload, now: int)
    | EditCanary(key: ConfigKey, payload: Payload, now: int)
    | SetPercent(key: ConfigKey, percent: int)
    | SetStatus(key: ConfigKey, required: Status, status: Status)
    | Promote(key: ConfigKey, now: int)
    | Abort(key: ConfigKey)
    | Rollback(key: ConfigKey, id: nat, now: int)

  // ── What the operations promise ─────────────────────────────────────────────

  // Contents are non-empty documents; what else makes them valid is the parser's affair.
  predicate Acceptable(valid: Bytes -> bool, detail: Bytes) { detail != [] && valid(detail) }

  predicate AcceptablePayload(valid: Bytes -> bool, payload: Payload) {
    0 <= payload.percent <= 100 && Acceptable(valid, payload.detail)
  }

  function Content(s: State, key: ConfigKey): Option<Bytes> {
    if key in s.db.rows then Some(s.db.rows[key].detail) else None
  }

  predicate IsCurrent(s: State, key: ConfigKey, detail: Bytes) { Content(s, key) == Some(detail) }

  // Only the one config changed: to this content, with the clock as its version. The log
  // has one more entry.
  ghost predicate Puts(s: State, t: State, key: ConfigKey, detail: Bytes, now: int, entry: Entry) {
    && IsCurrent(t, key, detail) && t.db.rows[key].version == now
    && t.db == s.db.(rows := s.db.rows[key := t.db.rows[key]])
    && t.history == s.history + [entry]
  }

  // Only the one canary changed.
  ghost predicate PutsCanary(s: State, t: State, key: ConfigKey) {
    key in t.db.canaries && t == s.(db := s.db.(canaries := s.db.canaries[key := t.db.canaries[key]]))
  }

  ghost predicate DropsCanary(s: State, t: State, key: ConfigKey) {
    t == s.(db := s.db.(canaries := s.db.canaries - {key}))
  }

  predicate Carries(release: Release, payload: Payload) {
    && release.detail == payload.detail && release.percent == payload.percent
    && release.versionConstraint == payload.versionConstraint
    && release.ipSelector == payload.ipSelector && release.tagSelector == payload.tagSelector
  }

  // A new name gets the content; a taken one is confirmed if it has that content already,
  // and a conflict if it has another.
  ghost predicate Creates(valid: Bytes -> bool, s: State, t: State, key: ConfigKey, detail: Bytes, now: int, r: Response) {
    && (r == BadRequest <==> key.name == "" || !Acceptable(valid, detail))
    && (r == Conflict ==> Content(s, key).Some? && !IsCurrent(s, key, detail))
    && (r == Done ==> IsCurrent(s, key, detail))
    && (r == NewlyCreated ==> Content(s, key).None? && Puts(s, t, key, detail, now, Entry(key, now, Creation, detail)))
    && (r != NewlyCreated ==> t == s)
    && r in {Done, NewlyCreated, Conflict, BadRequest}
  }

  // An accepted update of an existing config makes its content current, and the log
  // holds the one it replaced; a repetition changes nothing.
  ghost predicate Updates(valid: Bytes -> bool, s: State, t: State, key: ConfigKey, detail: Bytes, now: int, r: Response) {
    && (r == BadRequest <==> !Acceptable(valid, detail))
    && (r == NotFound <==> Acceptable(valid, detail) && Content(s, key).None?)
    && (r == Done ==> IsCurrent(t, key, detail))
    && (IsCurrent(s, key, detail) || r != Done ==> t == s)
    && (r == Done && !IsCurrent(s, key, detail) ==>
          Content(s, key).Some? && Puts(s, t, key, detail, now, Entry(key, now, Change, Content(s, key).value)))
    && r in {Done, BadRequest, NotFound}
  }

  // Afterwards there is no such config and no mapping to it; the log holds its content.
  ghost predicate Deletes(s: State, t: State, key: ConfigKey, r: Response) {
    && r == Done && Content(t, key).None?
    && (Content(s, key).None? ==> t == s)
    && (Content(s, key).Some? ==>
          && t.db == s.db.(rows := s.db.rows - {key}, mappings := t.db.mappings)
          && (forall m :: m in t.db.mappings <==> m in s.db.mappings && m.key != key)
          && t.history == s.history + [Entry(key, 0, Deletion, Content(s, key).value)])
  }

  // One canary per config: a new one rolls with the payload, the same rolling one is
  // confirmed, any other is a conflict.
  ghost predicate Starts(valid: Bytes -> bool, s: State, t: State, key: ConfigKey, payload: Payload, now: int, r: Response) {
    && (r == BadRequest <==> !AcceptablePayload(valid, payload))
    && (r == NewlyCreated ==>
          && key !in s.db.canaries && PutsCanary(s, t, key)
          && var release := t.db.canaries[key];
             release.status == Rolling && release.version == now && Carries(release, payload))
    && (r == Done ==> key in s.db.canaries && s.db.canaries[key].status == Rolling && Carries(s.db.canaries[key], payload))
    && (r == Conflict ==> key in s.db.canaries && !(s.db.canaries[key].status == Rolling && Carries(s.db.canaries[key], payload)))
    && (r != NewlyCreated ==> t == s)
    && r in {Done, NewlyCreated, Conflict, BadRequest}
  }

  predicate Editable(s: State, key: ConfigKey) {
    key in s.db.canaries && s.db.canaries[key].status in {Rolling, Paused}
  }

  // The canary carries the payload and keeps its status; its version is a new one exactly
  // when the content is.
  ghost predicate Edits(valid: Bytes -> bool, s: State, t: State, key: ConfigKey, payload: Payload, now: int, r: Response) {
    && (r == Done <==> AcceptablePayload(valid, payload) && Editable(s, key))
    && (r == NotFound <==> AcceptablePayload(valid, payload) && key !in s.db.canaries)
    && (r != Done ==> t == s && r in {BadRequest, NotFound})
    && (r == Done ==>
          && PutsCanary(s, t, key) && Carries(t.db.canaries[key], payload)
          && t.db.canaries[key].status == s.db.canaries[key].status
          && t.db.canaries[key].version == if payload.detail == s.db.canaries[key].detail then s.db.canaries[key].version else now)
  }

  ghost predicate SetsPercent(s: State, t: State, key: ConfigKey, percent: int, r: Response) {
    && (r == Done <==> 0 <= percent <= 100 && key in s.db.canaries && s.db.canaries[key].status == Rolling)
    && (r == NotFound <==> 0 <= percent <= 100 && key !in s.db.canaries)
    && (r != Done ==> t == s && r in {BadRequest, NotFound})
    && (r == Done ==> PutsCanary(s, t, key) && t.db.canaries[key] == s.db.canaries[key].(percent := percent))
  }

  // The status changes only from the required one; repeating the change is fine.
  ghost predicate SetsStatus(s: State, t: State, key: ConfigKey, required: Status, status: Status, r: Response) {
    && (r == NotFound <==> key !in s.db.canaries)
    && (r == Done <==> key in s.db.canaries && s.db.canaries[key].status in {required, status})
    && (r != Done ==> t == s && r in {BadRequest, NotFound})
    && (r == Done ==> PutsCanary(s, t, key) && t.db.canaries[key] == s.db.canaries[key].(status := status))
  }

  // The canary's content becomes current, the log holds the one it replaced, and the
  // canary ends. Without a canary there is nothing to do; without the config it fails.
  ghost predicate Promotes(s: State, t: State, key: ConfigKey, now: int, r: Response) {
    && (r == InternalError <==> key in s.db.canaries && Content(s, key).None?)
    && (r != InternalError ==> r == Done && key !in t.db.canaries)
    && (key !in s.db.canaries || r == InternalError ==> t == s)
    && (key in s.db.canaries && r == Done ==>
          && IsCurrent(t, key, s.db.canaries[key].detail)
          && exists mid: State :: DropsCanary(mid, t, key) &&
               if IsCurrent(s, key, s.db.canaries[key].detail) then mid == s
               else Content(s, key).Some? &&
                    Puts(s, mid, key, s.db.canaries[key].detail, now, Entry(key, now, Promotion, Content(s, key).value)))
  }

  ghost predicate Aborts(s: State, t: State, key: ConfigKey, r: Response) {
    r == Done && DropsCanary(s, t, key)
  }

  // The entry can be rolled back to: it is this config's and has a content.
  predicate Restorable(s: State, key: ConfigKey, id: nat) {
    id < |s.history| && s.history[id].key == key && s.history[id].detail != []
  }

  // The entry's content becomes current again, whether or not the config still exists;
  // the log holds what it replaced.
  ghost predicate RollsBack(s: State, t: State, key: ConfigKey, id: nat, now: int, r: Response) {
    && (r == Done <==> Restorable(s, key, id))
    && (r == InternalError <==> id >= |s.history|)
    && (r == NotFound <==> id < |s.history| && s.history[id].key != key)
    && (r != Done ==> t == s && r in {InternalError, NotFound, BadRequest})
    && (r == Done ==>
          Puts(s, t, key, s.history[id].detail, now,
               Entry(key, now, Restoration, if Content(s, key).Some? then Content(s, key).value else [])))
  }

  ghost predicate Effect(valid: Bytes -> bool, op: Op, s: State, t: State, r: Response) {
    match op
    case Create(key, detail, now) => Creates(valid, s, t, key, detail, now, r)
    case Update(key, detail, now) => Updates(valid, s, t, key, detail, now, r)
    case Delete(key) => Deletes(s, t, key, r)
    case StartCanary(key, payload, now) => Starts(valid, s, t, key, payload, now, r)
    case EditCanary(key, payload, now) => Edits(valid, s, t, key, payload, now, r)
    case SetPercent(key, percent) => SetsPercent(s, t, key, percent, r)
    case SetStatus(key, required, status) => SetsStatus(s, t, key, required, status, r)
    case Promote(key, now) => Promotes(s, t, key, now, r)
    case Abort(key) => Aborts(s, t, key, r)
    case Rollback(key, id, now) => RollsBack(s, t, key, id, now, r)
  }

  // ── No content is lost ──────────────────────────────────────────────────────

  ghost predicate Kept(s: State, key: ConfigKey, detail: Bytes) {
    IsCurrent(s, key, detail) || exists id: nat :: id < |s.history| && s.history[id].key == key && s.history[id].detail == detail
  }

  // Whatever an operation does, the log only grows, and a content that stops being
  // current is in it.
  lemma EffectKeepsContents(valid: Bytes -> bool, op: Op, s: State, t: State, r: Response, key: ConfigKey, detail: Bytes)
    requires Effect(valid, op, s, t, r) && Kept(s, key, detail)
    ensures s.history <= t.history && Kept(t, key, detail)
  {
    if id: nat :| id < |s.history| && s.history[id].key == key && s.history[id].detail == detail {
      assert t.history[id] == s.history[id];
    } else if !IsCurrent(t, key, detail) {
      assert t.history[|s.history|].key == key && t.history[|s.history|].detail == detail;
    }
  }

  ghost predicate NonEmpty(s: State) {
    && (forall key :: key in s.db.rows ==> s.db.rows[key].detail != [])
    && (forall key :: key in s.db.canaries ==> s.db.canaries[key].detail != [])
  }

  lemma EffectStaysNonEmpty(valid: Bytes -> bool, op: Op, s: State, t: State, r: Response)
    requires Effect(valid, op, s, t, r) && NonEmpty(s)
    ensures NonEmpty(t)
  {
    forall key | key in t.db.rows ensures t.db.rows[key].detail != [] {
      if key != op.key { assert t.db.rows[key] == s.db.rows[key]; }
    }
    forall key | key in t.db.canaries ensures t.db.canaries[key].detail != [] {
      if key != op.key { assert t.db.canaries[key] == s.db.canaries[key]; }
    }
  }

  // A run: the states between the operations.
  ghost predicate Trace(valid: Bytes -> bool, ops: seq<Op>, states: seq<State>, responses: seq<Response>) {
    && |states| == |ops| + 1 && |responses| == |ops|
    && forall i :: 0 <= i < |ops| ==> Effect(valid, ops[i], states[i], states[i + 1], responses[i])
  }

  lemma {:induction false} TraceKeepsContents(valid: Bytes -> bool, ops: seq<Op>, states: seq<State>, responses: seq<Response>,
                                              i: nat, j: nat, key: ConfigKey, detail: Bytes)
    requires Trace(valid, ops, states, responses) && i <= j <= |ops|
    requires IsCurrent(states[i], key, detail) && NonEmpty(states[0])
    ensures Kept(states[j], key, detail) && detail != []
    decreases j
  {
    if i < j {
      TraceKeepsContents(valid, ops, states, responses, i, j - 1, key, detail);
      EffectKeepsContents(valid, ops[j - 1], states[j - 1], states[j], responses[j - 1], key, detail);
    } else if j > 0 {
      TraceIsNonEmpty(valid, ops, states, responses, j);
    }
  }

  lemma {:induction false} TraceIsNonEmpty(valid: Bytes -> bool, ops: seq<Op>, states: seq<State>, responses: seq<Response>, j: nat)
    requires Trace(valid, ops, states, responses) && j <= |ops| && NonEmpty(states[0])
    ensures NonEmpty(states[j])
  {
    if j > 0 {
      TraceIsNonEmpty(valid, ops, states, responses, j - 1);
      EffectStaysNonEmpty(valid, ops[j - 1], states[j - 1], states[j], responses[j - 1]);
    }
  }

  // Current, or one rollback away: some entry holds the content, and whatever rolls back
  // to that entry makes it current.
  ghost predicate Recoverable(s: State, key: ConfigKey, detail: Bytes) {
    || IsCurrent(s, key, detail)
    || exists id: nat :: Restorable(s, key, id) && s.history[id].detail == detail &&
                         forall t, now, r :: RollsBack(s, t, key, id, now, r) ==> r == Done && IsCurrent(t, key, detail)
  }

  // A content that was current at any point of any run is recoverable at its end.
  lemma NoContentIsLost(valid: Bytes -> bool, ops: seq<Op>, states: seq<State>, responses: seq<Response>, i: nat, key: ConfigKey, detail: Bytes)
    requires Trace(valid, ops, states, responses) && NonEmpty(states[0])
    requires i <= |ops| && IsCurrent(states[i], key, detail)
    ensures Recoverable(states[|ops|], key, detail)
  {
    var t := states[|ops|];
    TraceKeepsContents(valid, ops, states, responses, i, |ops|, key, detail);
    if !IsCurrent(t, key, detail) {
      var id: nat :| id < |t.history| && t.history[id].key == key && t.history[id].detail == detail;
      assert Restorable(t, key, id);
    }
  }

  // ── Contents stay valid ─────────────────────────────────────────────────────

  // Every content is a non-empty valid document; a log entry may also hold none.
  ghost predicate AllValid(valid: Bytes -> bool, s: State) {
    && (forall key :: key in s.db.rows ==> s.db.rows[key].detail != [] && valid(s.db.rows[key].detail))
    && (forall key :: key in s.db.canaries ==> s.db.canaries[key].detail != [] && valid(s.db.canaries[key].detail))
    && (forall i :: 0 <= i < |s.history| ==> s.history[i].detail == [] || valid(s.history[i].detail))
  }

  lemma LoggedStaysValid(valid: Bytes -> bool, s: State, t: State, entry: Entry)
    requires AllValid(valid, s) && t.history == s.history + [entry] && (entry.detail == [] || valid(entry.detail))
    ensures forall i :: 0 <= i < |t.history| ==> t.history[i].detail == [] || valid(t.history[i].detail)
  {
    forall i | 0 <= i < |t.history| ensures t.history[i].detail == [] || valid(t.history[i].detail) {
      if i < |s.history| { assert t.history[i] == s.history[i]; }
    }
  }

  lemma EffectKeepsValid(valid: Bytes -> bool, op: Op, s: State, t: State, r: Response)
    requires Effect(valid, op, s, t, r) && AllValid(valid, s)
    ensures AllValid(valid, t)
  {
    if t.history != s.history {
      LoggedStaysValid(valid, s, t, t.history[|s.history|]);
    }
    forall key | key in t.db.rows ensures t.db.rows[key].detail != [] && valid(t.db.rows[key].detail) {
      if key != op.key { assert t.db.rows[key] == s.db.rows[key]; }
    }
    forall key | key in t.db.canaries ensures t.db.canaries[key].detail != [] && valid(t.db.canaries[key].detail) {
      if key != op.key { assert t.db.canaries[key] == s.db.canaries[key]; }
    }
  }

  // Over every run: no content that the parser refuses, and no empty one, ever becomes
  // current or a canary, not even by a rollback.
  lemma {:induction false} ContentsStayValid(valid: Bytes -> bool, ops: seq<Op>, states: seq<State>, responses: seq<Response>,
                                             j: nat, key: ConfigKey)
    requires Trace(valid, ops, states, responses) && j <= |ops| && AllValid(valid, states[0])
    ensures key in states[j].db.rows ==> states[j].db.rows[key].detail != [] && valid(states[j].db.rows[key].detail)
    ensures key in states[j].db.canaries ==> states[j].db.canaries[key].detail != [] && valid(states[j].db.canaries[key].detail)
    ensures AllValid(valid, states[j])
  {
    if j > 0 {
      ContentsStayValid(valid, ops, states, responses, j - 1, key);
      EffectKeepsValid(valid, ops[j - 1], states[j - 1], states[j], responses[j - 1]);
    }
  }

  // ── Undoing and repeating ───────────────────────────────────────────────────

  // A rollback is itself undone by rolling back to the entry it wrote, and nothing but
  // the one config and the log changes.
  lemma RollbackUndoesItself(s: State, once: State, twice: State, key: ConfigKey, id: nat, now: int, later: int, r1: Response, r2: Response)
    requires key in s.db.rows && s.db.rows[key].detail != [] && Restorable(s, key, id)
    requires RollsBack(s, once, key, id, now, r1) && RollsBack(once, twice, key, |s.history|, later, r2)
    ensures IsCurrent(once, key, s.history[id].detail) && r2 == Done
    ensures IsCurrent(twice, key, s.db.rows[key].detail)
    ensures twice.db == s.db.(rows := s.db.rows[key := twice.db.rows[key]]) && s.history <= twice.history
  {
    assert once.history[|s.history|] == Entry(key, now, Restoration, s.db.rows[key].detail);
    assert s.db.rows[key := once.db.rows[key]][key := twice.db.rows[key]] == s.db.rows[key := twice.db.rows[key]];
  }

  // What a canary refuses: a second one beside it, a percentage that is none or while it
  // does not roll, an edit when it has ended, a status from any but the required one.
  lemma CanaryRefuses(valid: Bytes -> bool, op: Op, s: State, t: State, r: Response)
    requires Effect(valid, op, s, t, r) && op.key in s.db.canaries
    ensures var status := s.db.canaries[op.key].status;
            && (op.StartCanary? ==> t == s && r in {Done, Conflict, BadRequest})
            && (op.SetPercent? && (status != Rolling || op.percent < 0 || op.percent > 100) ==> t == s && r == BadRequest)
            && (op.EditCanary? && (status !in {Rolling, Paused} || op.payload.percent < 0 || op.payload.percent > 100) ==>
                  t == s && r == BadRequest)
            && (op.SetStatus? && status != op.required && status != op.status ==> t == s && r == BadRequest)
            && (op.SetStatus? && status == op.required ==> r == Done && op.key in t.db.canaries && t.db.canaries[op.key].status == op.status)
  {}

  // The same request at another time.
  predicate SameRequest(op: Op, again: Op) {
    match op
    case Create(key, detail, _) => again.Create? && again.key == key && again.detail == detail
    case Update(key, detail, _) => again.Update? && again.key == key && again.detail == detail
    case StartCanary(key, payload, _) => again.StartCanary? && again.key == key && again.payload == payload
    case EditCanary(key, payload, _) => again.EditCanary? && again.key == key && again.payload == payload
    case Promote(key, _) => again.Promote? && again.key == key
    case Rollback(_, _, _) => false
    case _ => again == op
  }

  // Repeating any request but a rollback, however much later, changes neither contents
  // nor versions nor the log.
  lemma RepetitionIsNeutral(valid: Bytes -> bool, op: Op, again: Op, s: State, t: State, u: State, r1: Response, r2: Response)
    requires SameRequest(op, again)
    requires Effect(valid, op, s, t, r1) && Effect(valid, again, t, u, r2)
    ensures u == t
  {}

  // Pausing and resuming a rolling canary restores it.
  lemma PauseThenResume(s: State, paused: State, resumed: State, key: ConfigKey, r1: Response, r2: Response)
    requires key in s.db.canaries && s.db.canaries[key].status == Rolling
    requires SetsStatus(s, paused, key, Rolling, Paused, r1) && SetsStatus(paused, resumed, key, Paused, Rolling, r2)
    ensures resumed == s
  {
    assert resumed.db.canaries == s.db.canaries;
  }

  // ── What the agents see of it ───────────────────────────────────────────────

  lemma SameGroupsSameNames(env: Env, a: Db, b: Db, m: Match)
    requires b == a.(rows := b.rows, canaries := b.canaries) && b.rows.Keys == a.rows.Keys
    ensures Names(env, b, m) == Names(env, a, m)
  {
    forall g ensures GroupMatches(env, b, m, g) <==> GroupMatches(env, a, m, g) {}
  }

  // Promotion delivers the canary's content to every agent that is assigned the config;
  // for those that had it from the canary the content does not change.
  lemma PromotionShowsCanaryToAll(env: Env, s: State, t: State, key: ConfigKey, now: int, m: Match)
    requires key in s.db.canaries && Promotes(s, t, key, now, Done)
    requires key.kind != Onetime && key in Names(env, s.db, m)
    ensures key in Delivered(env, t.db, m) && Delivered(env, t.db, m)[key].detail == s.db.canaries[key].detail
    ensures s.db.canaries[key].status == Rolling && Eligible(env, s.db.canaries[key], m, key.name) == Ok(true) ==>
              Delivered(env, t.db, m)[key].detail == Delivered(env, s.db, m)[key].detail
  {
    SameGroupsSameNames(env, s.db, t.db, m);
    assert key !in ActiveCanaries(t.db);
  }

  // Pausing takes the canary back: every agent receives the stable config.
  lemma PauseWithdrawsCanary(env: Env, s: State, t: State, key: ConfigKey, m: Match)
    requires SetsStatus(s, t, key, Rolling, Paused, Done) && key in Names(env, s.db, m)
    ensures key in Delivered(env, t.db, m) && Delivered(env, t.db, m)[key] == s.db.rows[key]
  {
    SameGroupsSameNames(env, s.db, t.db, m);
    assert key !in ActiveCanaries(t.db);
  }

  // So does ending it, and another canary may start.
  lemma AbortWithdrawsCanary(env: Env, s: State, t: State, key: ConfigKey, m: Match, r: Response)
    requires Aborts(s, t, key, r)
    ensures r == Done && key !in t.db.canaries && t.history == s.history
    ensures key in Names(env, s.db, m) ==> key in Delivered(env, t.db, m) && Delivered(env, t.db, m)[key] == s.db.rows[key]
  {
    SameGroupsSameNames(env, s.db, t.db, m);
    assert key !in ActiveCanaries(t.db);
  }

  // A deleted config is assigned to nobody, and creating its name anew assigns nothing: its
  // mappings went with it.
  lemma DeletedNameStartsUnmapped(env: Env, valid: Bytes -> bool, s: State, gone: State, t: State, key: ConfigKey,
                                  detail: Bytes, now: int, m: Match, r1: Response, r2: Response)
    requires key in s.db.rows && Deletes(s, gone, key, r1) && Creates(valid, gone, t, key, detail, now, r2)
    ensures key !in Names(env, gone.db, m) && key !in Names(env, t.db, m)
  {}

  // ── The handlers ────────────────────────────────────────────────────────────

  class AdminHandler {
    const store: Store
    var history: seq<Entry>
    const valid: Bytes -> bool

    ghost function View(): State
      reads this, store
    {
      State(store.db, history)
    }

    constructor (store: Store, valid: Bytes -> bool)
      ensures this.store == store && this.valid == valid && View() == State(store.db, [])
    {
      this.store, this.valid, history := store, valid, [];
    }

    method SaveHistory(entry: Entry)
      modifies this`history
      ensures history == old(history) + [entry]
    {
      history := history + [entry];
    }

    method CreateConfig(key: ConfigKey, detail: Bytes, now: int) returns (r: Response)
      modifies this, store
      ensures Creates(valid, old(View()), View(), key, detail, now, r)
    {
      if key.name == "" { return BadRequest; }
      if !Acceptable(valid, detail) { return BadRequest; }
      if key in store.db.rows {
        return if store.db.rows[key].detail == detail then Done else Conflict;
      }
      var _ := store.Apply(Write.CreateConfig(key, Row(now, detail, 0, 0)));
      SaveHistory(Entry(key, now, Creation, detail));
      return NewlyCreated;
    }

    method UpdateConfig(key: ConfigKey, detail: Bytes, now: int) returns (r: Response)
      modifies this, store
      ensures Updates(valid, old(View()), View(), key, detail, now, r)
    {
      if !Acceptable(valid, detail) { return BadRequest; }
      if key !in store.db.rows { return NotFound; }
      var previous := store.db.rows[key].detail;
      if previous == detail { return Done; }
      var _ := store.Apply(Write.UpdateConfig(key, now, detail));
      SaveHistory(Entry(key, now, Change, previous));
      return Done;
    }

    method DeleteConfig(key: ConfigKey) returns (r: Response)
      modifies this, store
      ensures Deletes(old(View()), View(), key, r)
    {
      if key !in store.db.rows { return Done; }
      var snapshot := store.db.rows[key].detail;
      var _ := store.Apply(Write.DeleteConfig(key));
      SaveHistory(Entry(key, 0, Deletion, snapshot));
      return Done;
    }

    method StartCanary(key: ConfigKey, payload: Payload, now: int) returns (r: Response)
      modifies this, store
      ensures Starts(valid, old(View()), View(), key, payload, now, r)
    {
      if payload.percent < 0 || payload.percent > 100 { return BadRequest; }
      if !Acceptable(valid, payload.detail) { return BadRequest; }
      var release := Release(payload.detail, now, payload.percent, payload.versionConstraint, payload.ipSelector, payload.tagSelector, Rolling);
      if key in store.db.canaries {
        var existing := store.db.canaries[key];
        return if existing.status == Rolling && Carries(existing, payload) then Done else Conflict;
      }
      var _ := store.Apply(Write.CreateCanary(key, release));
      return NewlyCreated;
    }

    method EditCanary(key: ConfigKey, payload: Payload, now: int) returns (r: Response)
      modifies this, store
      ensures Edits(valid, old(View()), View(), key, payload, now, r)
    {
      if payload.percent < 0 || payload.percent > 100 { return BadRequest; }
      if !Acceptable(valid, payload.detail) { return BadRequest; }
      if key !in store.db.canaries { return NotFound; }
      var release := store.db.canaries[key];
      if release.status != Rolling && release.status != Paused { return BadRequest; }
      if Carries(release, payload) {
        assert store.db.canaries == store.db.canaries[key := release];
        return Done;
      }
      if release.detail != payload.detail {
        release := release.(version := now);
      }
      release := release.(detail := payload.detail, percent := payload.percent, versionConstraint := payload.versionConstraint,
                          ipSelector := payload.ipSelector, tagSelector := payload.tagSelector);
      var _ := store.Apply(Write.SaveCanary(key, release));
      return Done;
    }

    method SetCanaryPercent(key: ConfigKey, percent: int) returns (r: Response)
      modifies this, store
      ensures SetsPercent(old(View()), View(), key, percent, r)
    {
      if percent < 0 || percent > 100 { return BadRequest; }
      if key !in store.db.canaries { return NotFound; }
      var release := store.db.canaries[key];
      if release.status != Rolling { return BadRequest; }
      if release.percent == percent {
        assert store.db.canaries == store.db.canaries[key := release];
        return Done;
      }
      var _ := store.Apply(Write.SaveCanary(key, release.(percent := percent)));
      return Done;
    }

    method SetCanaryStatus(key: ConfigKey, required: Status, status: Status) returns (r: Response)
      modifies this, store
      ensures SetsStatus(old(View()), View(), key, required, status, r)
    {
      if key !in store.db.canaries { return NotFound; }
      var release := store.db.canaries[key];
      if release.status == status {
        assert store.db.canaries == store.db.canaries[key := release];
        return Done;
      }
      if release.status != required { return BadRequest; }
      var _ := store.Apply(Write.SaveCanary(key, release.(status := status)));
      return Done;
    }

    method PromoteCanary(key: ConfigKey, now: int) returns (r: Response)
      modifies this, store
      ensures Promotes(old(View()), View(), key, now, r)
    {
      if key !in store.db.canaries { return Done; }
      if key !in store.db.rows { return InternalError; }
      var release, previous := store.db.canaries[key], store.db.rows[key].detail;
      if previous != release.detail {
        var _ := store.Apply(Write.UpdateConfig(key, now, release.detail));
        SaveHistory(Entry(key, now, Promotion, previous));
      }
      ghost var mid := View();
      var _ := store.Apply(Write.DeleteCanary(key));
      assert DropsCanary(mid, View(), key);
      return Done;
    }

    method AbortCanary(key: ConfigKey) returns (r: Response)
      modifies this, store
      ensures Aborts(old(View()), View(), key, r)
    {
      if key !in store.db.canaries {
        assert store.db.canaries == store.db.canaries - {key};
        return Done;
      }
      var _ := store.Apply(Write.DeleteCanary(key));
      return Done;
    }

    method RollbackConfig(key: ConfigKey, id: nat, now: int) returns (r: Response)
      modifies this, store
      ensures RollsBack(old(View()), View(), key, id, now, r)
    {
      if id >= |history| { return InternalError; }
      var entry := history[id];
      if entry.key != key { return NotFound; }
      if |entry.detail| == 0 { return BadRequest; }
      var replaced: Bytes := [];
      if key !in store.db.rows {
        var _ := store.Apply(Write.CreateConfig(key, Row(now, entry.detail, 0, 0)));
      } else {
        replaced := store.db.rows[key].detail;
        var _ := store.Apply(Write.UpdateConfig(key, now, entry.detail));
      }
      SaveHistory(Entry(key, now, Restoration, replaced));
      return Done;
    }

    method Handle(op: Op) returns (r: Response)
      modifies this, store
      ensures Effect(valid, op, old(View()), View(), r)
    {
      match op
      case Create(key, detail, now) => r := CreateConfig(key, detail, now);
      case Update(key, detail, now) => r := UpdateConfig(key, detail, now);
      case Delete(key) => r := DeleteConfig(key);
      case StartCanary(key, payload, now) => r := StartCanary(key, payload, now);
      case EditCanary(key, payload, now) => r := EditCanary(key, payload, now);
      case SetPercent(key, percent) => r := SetCanaryPercent(key, percent);
      case SetStatus(key, required, status) => r := SetCanaryStatus(key, required, status);
      case Promote(key, now) => r := PromoteCanary(key, now);
      case Abort(key) => r := AbortCanary(key);
      case Rollback(key, id, now) => r := RollbackConfig(key, id, now);
    }

    // Over every run of the handlers: each content that was current at any point is
    // current at the end or one rollback away.
    method HandleAll(ops: seq<Op>) returns (responses: seq<Response>, ghost states: seq<State>)
      requires NonEmpty(View())
      modifies this, store
      ensures Trace(valid, ops, states, responses) && states[0] == old(View()) && states[|ops|] == View()
      ensures forall i, key, detail :: 0 <= i <= |ops| && IsCurrent(states[i], key, detail) ==> Recoverable(View(), key, detail)
    {
      responses, states := [], [View()];
      for n := 0 to |ops|
        invariant Trace(valid, ops[..n], states, responses) && states[0] == old(View()) && states[n] == View()
      {
        var r := Handle(ops[n]);
        responses, states := responses + [r], states + [View()];
        assert ops[..n + 1][..n] == ops[..n];
      }
      assert ops[..|ops|] == ops;
      forall i, key, detail | 0 <= i <= |ops| && IsCurrent(states[i], key, detail) ensures Recoverable(View(), key, detail) {
        NoContentIsLost(valid, ops, states, responses, i, key, detail);
      }
    }
  }
}
