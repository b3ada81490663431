// Heartbeats for onetime commands: deliveries, cancellations, and the generation that
// tells a recreated command from the one it replaces.
module Onetime {
  import opened Wrappers
  import opened Text
  import Fnv

  type Bytes = Fnv.Bytes

  datatype Command = Command(name: string, detail: Bytes, expireTime: int, createdAt: int)

  const CANCELLED: int := -1

  datatype CommandDetail = CommandDetail(name: string, detail: Bytes, expireTime: int)

  // ── Generations ─────────────────────────────────────────────────────────────

  // Numbers keep their text, so nothing is lost between decoding and encoding.
  datatype Json = JNull | JBool(b: bool) | JNum(text: string) | JStr(s: string) | JArr(items: seq<Json>) | JObj(fields: map<string, Json>)

  // A number's text is a sign, digits without a leading zero, a fraction and an exponent;
  // what matters here is that plain natural numbers are among them.
  datatype Codec = Codec(decode: Bytes -> Option<Json>, encode: Json -> Bytes, number: string -> bool) {
    // All its number texts are numbers.
    ghost predicate WellFormed(j: Json) {
      match j
      case JNum(text) => number(text)
      case JArr(items) => forall i :: 0 <= i < |items| ==> WellFormed(items[i])
      case JObj(fields) => forall k :: k in fields ==> WellFormed(fields[k])
      case _ => true
    }

    // Decoding yields well-formed values, and encoded ones read back.
    ghost predicate Lawful() {
      && (forall n: nat :: number(FormatNat(n)))
      && (forall b :: decode(b).Some? ==> WellFormed(decode(b).value))
      && (forall j :: WellFormed(j) ==> decode(encode(j)) == Some(j))
    }
  }

  const GLOBAL: string := "global"
  const GENERATION: string := "__onetime_generation__"

  predicate IsObject(codec: Codec, detail: Bytes) {
    codec.decode(detail).Some? && codec.decode(detail).value.JObj?
  }

  function GlobalFields(root: map<string, Json>): map<string, Json> {
    if GLOBAL in root && root[GLOBAL].JObj? then root[GLOBAL].fields else map[]
  }

  function Marked(root: map<string, Json>, generation: nat): map<string, Json> {
    root[GLOBAL := JObj(GlobalFields(root)[GENERATION := JNum(FormatNat(generation))])]
  }

  // Marking a well-formed object leaves it one.
  lemma MarkedIsWellFormed(codec: Codec, root: map<string, Json>, generation: nat)
    requires codec.Lawful() && codec.WellFormed(JObj(root))
    ensures codec.WellFormed(JObj(Marked(root, generation)))
    ensures codec.decode(codec.encode(JObj(Marked(root, generation)))) == Some(JObj(Marked(root, generation)))
  {
    var marked := Marked(root, generation);
    if GLOBAL in root && root[GLOBAL].JObj? {
      assert codec.WellFormed(root[GLOBAL]);
    }
    assert codec.WellFormed(JNum(FormatNat(generation)));
    assert codec.WellFormed(marked[GLOBAL]) by {
      var fields := GlobalFields(root)[GENERATION := JNum(FormatNat(generation))];
      forall k | k in fields ensures codec.WellFormed(fields[k]) {}
    }
    forall k | k in marked ensures codec.WellFormed(marked[k]) {}
  }

  // The creation time goes into the "global" object; what is not an object, or has no
  // creation time, is delivered as it is.
  function DetailWithGeneration(codec: Codec, c: Command): Bytes {
    if c.createdAt <= 0 || !IsObject(codec, c.detail) then c.detail
    else codec.encode(JObj(Marked(codec.decode(c.detail).value.fields, c.createdAt)))
  }

  // Recreating a command with the same content changes the delivered bytes if and only
  // if the content is a JSON object.
  lemma GenerationShows(codec: Codec, c: Command, d: Command)
    requires codec.Lawful() && c.detail == d.detail
    requires 0 < c.createdAt && 0 < d.createdAt && c.createdAt != d.createdAt
    ensures DetailWithGeneration(codec, c) != DetailWithGeneration(codec, d) <==> IsObject(codec, c.detail)
  {
    if IsObject(codec, c.detail) {
      var root := codec.decode(c.detail).value.fields;
      var x, y := Marked(root, c.createdAt), Marked(root, d.createdAt);
      assert x[GLOBAL].fields[GENERATION] == JNum(FormatNat(c.createdAt));
      assert y[GLOBAL].fields[GENERATION] == JNum(FormatNat(d.createdAt));
      assert DigitsValue(FormatNat(c.createdAt)) != DigitsValue(FormatNat(d.createdAt));
      MarkedIsWellFormed(codec, root, c.createdAt);
      MarkedIsWellFormed(codec, root, d.createdAt);
    }
  }

  // The mark is all that changes: every other field, inside "global" and out, reads back.
  lemma GenerationKeepsContent(codec: Codec, c: Command, key: string)
    requires codec.Lawful() && c.createdAt > 0 && IsObject(codec, c.detail)
    ensures IsObject(codec, DetailWithGeneration(codec, c))
    ensures var before := codec.decode(c.detail).value.fields;
            var after := codec.decode(DetailWithGeneration(codec, c)).value.fields;
            && (key != "global" ==> (key in after <==> key in before) && (key in before ==> after[key] == before[key]))
            && (key != "__onetime_generation__" ==>
                  (key in GlobalFields(after) <==> key in GlobalFields(before)) &&
                  (key in GlobalFields(before) ==> GlobalFields(after)[key] == GlobalFields(before)[key]))
            && "global" in after && after["global"].JObj? && "__onetime_generation__" in after["global"].fields
            && after["global"].fields["__onetime_generation__"] == JNum(FormatNat(c.createdAt))
  {
    var root := codec.decode(c.detail).value.fields;
    MarkedIsWellFormed(codec, root, c.createdAt);
  }

  function Version(codec: Codec, c: Command): int { Fnv.ContentHash(DetailWithGeneration(codec, c)) }

  // ── The server's diff ───────────────────────────────────────────────────────

  predicate Expired(c: Command, now: int) { c.expireTime > 0 && c.expireTime < now }

  predicate Known(codec: Codec, c: Command, agent: map<string, int>) {
    c.name in agent && agent[c.name] == Version(codec, c)
  }

  predicate Due(codec: Codec, c: Command, agent: map<string, int>, fullState: bool, now: int) {
    !Expired(c, now) && (fullState || !Known(codec, c, agent))
  }

  function Delivery(codec: Codec, c: Command): CommandDetail {
    CommandDetail(c.name, DetailWithGeneration(codec, c), c.expireTime)
  }

  function Deliveries(codec: Codec, server: seq<Command>, agent: map<string, int>, fullState: bool, now: int): seq<CommandDetail> {
    if server == [] then []
    else
      var c := server[|server| - 1];
      Deliveries(codec, server[..|server| - 1], agent, fullState, now) +
      (if Due(codec, c, agent, fullState, now) then [Delivery(codec, c)] else [])
  }

  function Names(server: seq<Command>): set<string> { set c | c in server :: c.name }

  function Cancel(name: string): CommandDetail { CommandDetail(name, [], CANCELLED) }

  ghost predicate AreCancels(cancels: seq<CommandDetail>, names: set<string>) {
    && (forall i, j :: 0 <= i < j < |cancels| ==> cancels[i].name != cancels[j].name)
    && (forall u :: u in cancels ==> u == Cancel(u.name) && u.name in names)
    && (forall name :: name in names ==> Cancel(name) in cancels)
  }

  // Cancellations of what the store no longer has, in any order, then the deliveries.
  ghost predicate IsDiff(codec: Codec, server: seq<Command>, agent: map<string, int>, fullState: bool, now: int, updates: seq<CommandDetail>) {
    var n := |updates| - |Deliveries(codec, server, agent, fullState, now)|;
    && n >= 0
    && AreCancels(updates[..n], agent.Keys - Names(server))
    && updates[n..] == Deliveries(codec, server, agent, fullState, now)
  }

  method DiffCommands(codec: Codec, server: seq<Command>, agent: map<string, int>, fullState: bool, now: int) returns (updates: seq<CommandDetail>)
    ensures IsDiff(codec, server, agent, fullState, now, updates)
  {
    var all := Names(server);
    updates := [];
    var todo := agent.Keys;
    while todo != {}
      invariant todo <= agent.Keys
      invariant AreCancels(updates, agent.Keys - all - todo)
      decreases |todo|
    {
      var name :| name in todo;
      todo := todo - {name};
      if name !in all {
        updates := updates + [Cancel(name)];
      }
    }
    ghost var cancels := updates;
    for i := 0 to |server|
      invariant updates == cancels + Deliveries(codec, server[..i], agent, fullState, now)
    {
      assert server[..i + 1][..i] == server[..i];
      var c := server[i];
      if c.expireTime > 0 && c.expireTime < now {
        continue;
      }
      var detail := DetailWithGeneration(codec, c);
      if c.name in agent && !fullState {
        var version := Fnv.OnetimeContentHash(detail);
        if agent[c.name] == version {
          continue;
        }
      }
      updates := updates + [CommandDetail(c.name, detail, c.expireTime)];
    }
    assert server[..|server|] == server;
    var n := |cancels|;
    assert updates[..n] == cancels && updates[n..] == Deliveries(codec, server, agent, fullState, now);
  }

  // ── What a diff says about a command ────────────────────────────────────────

  ghost predicate DistinctNames(server: seq<Command>) {
    forall i, j :: 0 <= i < j < |server| ==> server[i].name != server[j].name
  }

  // Minus one is the cancel mark, so no command carries it as its deadline.
  ghost predicate Issued(server: seq<Command>) {
    forall c :: c in server ==> c.expireTime != CANCELLED
  }

  lemma {:induction false} DeliveryMembers(codec: Codec, server: seq<Command>, agent: map<string, int>, fullState: bool, now: int, u: CommandDetail)
    ensures u in Deliveries(codec, server, agent, fullState, now) <==>
            exists c :: c in server && Due(codec, c, agent, fullState, now) && u == Delivery(codec, c)
  {
    if server != [] {
      var front, last := server[..|server| - 1], server[|server| - 1];
      assert server == front + [last];
      DeliveryMembers(codec, front, agent, fullState, now, u);
    }
  }

  lemma DiffMembers(codec: Codec, server: seq<Command>, agent: map<string, int>, fullState: bool, now: int, updates: seq<CommandDetail>, u: CommandDetail)
    requires IsDiff(codec, server, agent, fullState, now, updates)
    ensures u in updates <==>
            || (u == Cancel(u.name) && u.name in agent && u.name !in Names(server))
            || (exists c :: c in server && Due(codec, c, agent, fullState, now) && u == Delivery(codec, c))
  {
    var n := |updates| - |Deliveries(codec, server, agent, fullState, now)|;
    assert updates == updates[..n] + updates[n..];
    DeliveryMembers(codec, server, agent, fullState, now, u);
  }

  // A name is cancelled exactly when it is reported and gone from the store, and
  // delivered exactly when its command is due: never both, and a passed deadline stops
  // deliveries only.
  lemma OneVerdictPerName(codec: Codec, server: seq<Command>, agent: map<string, int>, fullState: bool, now: int,
                          updates: seq<CommandDetail>, name: string)
    requires DistinctNames(server) && Issued(server) && IsDiff(codec, server, agent, fullState, now, updates)
    ensures (exists u :: u in updates && u.name == name && u.expireTime == -1) <==> name in agent && name !in Names(server)
    ensures (exists u :: u in updates && u.name == name && u.expireTime != -1) <==>
            exists c :: c in server && c.name == name && Due(codec, c, agent, fullState, now)
  {
    forall u | u in updates
      ensures u.expireTime == CANCELLED ==> u.name in agent && u.name !in Names(server)
      ensures u.expireTime != CANCELLED ==> exists c :: c in server && c.name == u.name && Due(codec, c, agent, fullState, now)
    {
      DiffMembers(codec, server, agent, fullState, now, updates, u);
      if c :| c in server && Due(codec, c, agent, fullState, now) && u == Delivery(codec, c) {
        assert c.name == u.name;
      }
    }
    DiffMembers(codec, server, agent, fullState, now, updates, Cancel(name));
    if c :| c in server && c.name == name && Due(codec, c, agent, fullState, now) {
      DiffMembers(codec, server, agent, fullState, now, updates, Delivery(codec, c));
    }
  }

  // A stored command is in the diff if and only if its deadline, if it has one, has not
  // passed and the agent does not report its version already, or reports its full state.
  // It carries its own deadline, and its content with the generation.
  lemma DeadlineDecides(codec: Codec, server: seq<Command>, agent: map<string, int>, fullState: bool, now: int,
                        updates: seq<CommandDetail>, c: Command)
    requires DistinctNames(server) && Issued(server) && IsDiff(codec, server, agent, fullState, now, updates) && c in server
    ensures (exists u :: u in updates && u.name == c.name) <==>
            && (c.expireTime <= 0 || now <= c.expireTime)
            && (fullState || c.name !in agent || agent[c.name] != Fnv.ContentHash(DetailWithGeneration(codec, c)))
    ensures forall u :: u in updates && u.name == c.name ==>
              u.expireTime == c.expireTime && u.detail == DetailWithGeneration(codec, c)
  {
    forall u | u in updates && u.name == c.name ensures u == Delivery(codec, c) && Due(codec, c, agent, fullState, now) {
      DiffMembers(codec, server, agent, fullState, now, updates, u);
      assert c.name in Names(server);
      var d :| d in server && Due(codec, d, agent, fullState, now) && u == Delivery(codec, d);
      OnlyOne(server, c, d);
    }
    DiffMembers(codec, server, agent, fullState, now, updates, Delivery(codec, c));
  }

  // No diff delivers a command past its deadline.
  lemma DeliveriesAreInTime(codec: Codec, server: seq<Command>, agent: map<string, int>, fullState: bool, now: int,
                            updates: seq<CommandDetail>, u: CommandDetail)
    requires IsDiff(codec, server, agent, fullState, now, updates) && u in updates
    ensures u.expireTime <= 0 || now <= u.expireTime
  {
    DiffMembers(codec, server, agent, fullState, now, updates, u);
  }

  // ── Runs ────────────────────────────────────────────────────────────────────

  function ApplyOne(agent: map<string, int>, u: CommandDetail): map<string, int> {
    if u.expireTime == CANCELLED then agent - {u.name} else agent[u.name := Fnv.ContentHash(u.detail)]
  }

  function Apply(agent: map<string, int>, updates: seq<CommandDetail>): map<string, int> {
    if updates == [] then agent else ApplyOne(Apply(agent, updates[..|updates| - 1]), updates[|updates| - 1])
  }

  // The store and what the agent reports.
  datatype World = World(server: seq<Command>, agent: map<string, int>)

  datatype Event =
    | Create(command: Command)
    | Delete(name: string)
    | Beat(fullState: bool, now: int, updates: seq<CommandDetail>)

  function DropName(server: seq<Command>, name: string): (rest: seq<Command>)
    ensures forall c :: c in rest <==> c in server && c.name != name
  {
    if server == [] then []
    else DropName(server[..|server| - 1], name) + (if server[|server| - 1].name == name then [] else [server[|server| - 1]])
  }

  ghost predicate Possible(codec: Codec, w: World, e: Event) {
    match e
    case Create(c) => c.name !in Names(w.server) && c.expireTime != CANCELLED
    case Delete(_) => true
    case Beat(full, now, updates) => IsDiff(codec, w.server, w.agent, full, now, updates)
  }

  function Next(w: World, e: Event): World {
    match e
    case Create(c) => w.(server := w.server + [c])
    case Delete(name) => w.(server := DropName(w.server, name))
    case Beat(_, _, updates) => w.(agent := Apply(w.agent, updates))
  }

  function After(w: World, events: seq<Event>): World {
    if events == [] then w else Next(After(w, events[..|events| - 1]), events[|events| - 1])
  }

  ghost predicate PossibleAt(codec: Codec, w: World, events: seq<Event>, i: nat) {
    i < |events| && Possible(codec, After(w, events[..i]), events[i])
  }

  ghost predicate Run(codec: Codec, w: World, events: seq<Event>) {
    forall i :: 0 <= i < |events| ==> PossibleAt(codec, w, events, i)
  }

  lemma RunPrefix(codec: Codec, w: World, events: seq<Event>, j: nat)
    requires Run(codec, w, events) && j <= |events|
    ensures Run(codec, w, events[..j])
  {
    forall i | 0 <= i < j ensures PossibleAt(codec, w, events[..j], i) {
      assert PossibleAt(codec, w, events, i);
      assert events[..j][..i] == events[..i] && events[..j][i] == events[i];
    }
  }

  lemma RunFront(codec: Codec, w: World, events: seq<Event>)
    requires Run(codec, w, events) && events != []
    ensures var front := events[..|events| - 1]; Run(codec, w, front) && Possible(codec, After(w, front), events[|events| - 1])
  {
    RunPrefix(codec, w, events, |events| - 1);
    assert PossibleAt(codec, w, events, |events| - 1);
  }

  // ── What every run keeps ────────────────────────────────────────────────────

  ghost predicate Sound(server: seq<Command>) { DistinctNames(server) && Issued(server) }

  lemma {:induction false} DropNameDistinct(server: seq<Command>, name: string)
    requires DistinctNames(server)
    ensures DistinctNames(DropName(server, name))
  {
    if server != [] {
      var front, last := server[..|server| - 1], server[|server| - 1];
      DropNameDistinct(front, name);
      var rest := DropName(front, name);
      forall i | 0 <= i < |rest| ensures rest[i].name != last.name {
        assert rest[i] in front;
        var j :| 0 <= j < |front| && front[j] == rest[i];
        assert server[j].name != server[|server| - 1].name;
      }
    }
  }

  lemma {:induction false} RunKeepsServer(codec: Codec, w: World, events: seq<Event>)
    requires Sound(w.server) && Run(codec, w, events)
    ensures Sound(After(w, events).server)
  {
    if events != [] {
      var front, e := events[..|events| - 1], events[|events| - 1];
      RunFront(codec, w, events);
      RunKeepsServer(codec, w, front);
      var server := After(w, front).server;
      if e.Create? {
        assert forall i :: 0 <= i < |server| ==> server[i].name in Names(server);
      } else if e.Delete? {
        DropNameDistinct(server, e.name);
      }
    }
  }

  lemma OnlyOne(server: seq<Command>, c: Command, d: Command)
    requires DistinctNames(server) && c in server && d in server && c.name == d.name
    ensures c == d
  {
    var i :| 0 <= i < |server| && server[i] == c;
    var j :| 0 <= j < |server| && server[j] == d;
    assert i == j;
  }

  // At every heartbeat of every run a name is cancelled if and only if it is reported and
  // gone, and delivered if and only if its command is due.
  lemma OneVerdictInRuns(codec: Codec, w: World, events: seq<Event>, i: nat, name: string)
    requires Sound(w.server) && Run(codec, w, events) && i < |events| && events[i].Beat?
    ensures var t, e := After(w, events[..i]), events[i];
            && ((exists u :: u in e.updates && u.name == name && u.expireTime == CANCELLED) <==>
                  name in t.agent && name !in Names(t.server))
            && ((exists u :: u in e.updates && u.name == name && u.expireTime != CANCELLED) <==>
                  exists c :: c in t.server && c.name == name && Due(codec, c, t.agent, e.fullState, e.now))
  {
    RunPrefix(codec, w, events, i);
    RunKeepsServer(codec, w, events[..i]);
    var t, e := After(w, events[..i]), events[i];
    assert PossibleAt(codec, w, events, i);
    OneVerdictPerName(codec, t.server, t.agent, e.fullState, e.now, e.updates, name);
  }

  // Over every run, once a heartbeat came after a deadline, no heartbeat with the same or a
  // later clock delivers a command with that deadline.
  lemma LateIsNeverDelivered(codec: Codec, w: World, events: seq<Event>, j: nat, i: nat, u: CommandDetail)
    requires Run(codec, w, events) && j <= i < |events| && events[j].Beat? && events[i].Beat?
    requires events[j].now <= events[i].now && u in events[i].updates
    ensures !(0 < u.expireTime < events[j].now)
  {
    assert PossibleAt(codec, w, events, i);
    var t := After(w, events[..i]);
    DeliveriesAreInTime(codec, t.server, t.agent, events[i].fullState, events[i].now, events[i].updates, u);
  }

  // ── What the agent reports ──────────────────────────────────────────────────

  ghost predicate Mentions(updates: seq<CommandDetail>, name: string) {
    exists u :: u in updates && u.name == name
  }

  // The j-th event sent the command to the agent.
  ghost predicate Sent(codec: Codec, w: World, events: seq<Event>, j: nat, d: Command) {
    j < |events| && events[j].Beat? && d in After(w, events[..j]).server && Delivery(codec, d) in events[j].updates
  }

  // It is the last that the agent was told of the name: no later delivery, no cancellation.
  ghost predicate LastSent(codec: Codec, w: World, events: seq<Event>, j: nat, d: Command) {
    && Sent(codec, w, events, j, d)
    && forall i {:trigger events[i]} :: j < i < |events| && events[i].Beat? ==> !Mentions(events[i].updates, d.name)
  }

  lemma {:induction false} ApplyLeaves(agent: map<string, int>, updates: seq<CommandDetail>, name: string)
    requires !Mentions(updates, name)
    ensures name in Apply(agent, updates) <==> name in agent
    ensures name in agent ==> Apply(agent, updates)[name] == agent[name]
  {
    if updates != [] {
      var front, last := updates[..|updates| - 1], updates[|updates| - 1];
      assert last in updates && forall u :: u in front ==> u in updates;
      ApplyLeaves(agent, front, name);
    }
  }

  lemma {:induction false} ApplyShows(agent: map<string, int>, updates: seq<CommandDetail>, v: CommandDetail)
    requires v in updates && forall u :: u in updates && u.name == v.name ==> u == v
    ensures v.expireTime == CANCELLED ==> v.name !in Apply(agent, updates)
    ensures v.expireTime != CANCELLED ==> v.name in Apply(agent, updates) && Apply(agent, updates)[v.name] == Fnv.ContentHash(v.detail)
  {
    var front, last := updates[..|updates| - 1], updates[|updates| - 1];
    assert last in updates && updates == front + [last];
    if last != v {
      ApplyShows(agent, front, v);
    }
  }

  // One heartbeat: the agent reports a name afterwards if it was delivered now, or if it
  // was reported before and not mentioned now.
  lemma BeatReports(codec: Codec, w: World, e: Event, name: string)
    requires Sound(w.server) && e.Beat? && Possible(codec, w, e)
    ensures var agent := Next(w, e).agent;
            && (!Mentions(e.updates, name) ==> (name in agent <==> name in w.agent) && (name in agent ==> agent[name] == w.agent[name]))
            && (forall d :: d in w.server && d.name == name && Delivery(codec, d) in e.updates ==>
                  name in agent && agent[name] == Version(codec, d))
            && (Mentions(e.updates, name) && name in agent ==>
                  exists d :: d in w.server && d.name == name && Delivery(codec, d) in e.updates)
  {
    if Mentions(e.updates, name) {
      var v :| v in e.updates && v.name == name;
      forall u | u in e.updates && u.name == name ensures u == v {
        DiffMembers(codec, w.server, w.agent, e.fullState, e.now, e.updates, u);
        DiffMembers(codec, w.server, w.agent, e.fullState, e.now, e.updates, v);
        if c, d :| c in w.server && u == Delivery(codec, c) && d in w.server && v == Delivery(codec, d) {
          OnlyOne(w.server, c, d);
        }
      }
      ApplyShows(w.agent, e.updates, v);
      DiffMembers(codec, w.server, w.agent, e.fullState, e.now, e.updates, v);
    } else {
      ApplyLeaves(w.agent, e.updates, name);
      forall d | d in w.server && d.name == name ensures Delivery(codec, d) !in e.updates {
        assert Delivery(codec, d).name == name;
      }
    }
  }

  lemma SentFront(codec: Codec, w: World, events: seq<Event>, j: nat, d: Command)
    requires events != [] && j < |events| - 1
    ensures var last := events[|events| - 1];
            LastSent(codec, w, events, j, d) <==>
            LastSent(codec, w, events[..|events| - 1], j, d) && !(last.Beat? && Mentions(last.updates, d.name))
  {
    var front := events[..|events| - 1];
    assert front[..j] == events[..j] && front[j] == events[j];
    assert forall i :: 0 <= i < |front| ==> front[i] == events[i];
  }

  lemma {:induction false} LastSentIsReported(codec: Codec, w: World, events: seq<Event>, j: nat, d: Command)
    requires Sound(w.server) && Run(codec, w, events) && LastSent(codec, w, events, j, d)
    ensures d.name in After(w, events).agent && After(w, events).agent[d.name] == Version(codec, d)
  {
    var front, e := events[..|events| - 1], events[|events| - 1];
    RunFront(codec, w, events);
    RunKeepsServer(codec, w, front);
    if e.Beat? { BeatReports(codec, After(w, front), e, d.name); }
    if j < |front| {
      SentFront(codec, w, events, j, d);
      LastSentIsReported(codec, w, front, j, d);
    }
  }

  lemma {:induction false} ReportedWasSent(codec: Codec, w: World, events: seq<Event>, name: string) returns (j: nat, d: Command)
    requires Sound(w.server) && w.agent == map[] && Run(codec, w, events)
    requires name in After(w, events).agent
    ensures d.name == name && LastSent(codec, w, events, j, d)
  {
    var front, e := events[..|events| - 1], events[|events| - 1];
    var t := After(w, front);
    RunFront(codec, w, events);
    RunKeepsServer(codec, w, front);
    if e.Beat? { BeatReports(codec, t, e, name); }
    if e.Beat? && Mentions(e.updates, name) {
      d :| d in t.server && d.name == name && Delivery(codec, d) in e.updates;
      j := |front|;
    } else {
      j, d := ReportedWasSent(codec, w, front, name);
      SentFront(codec, w, events, j, d);
    }
  }

  // Over every run of an agent that starts with nothing: it reports a name if and only if
  // a command of that name was sent and not cancelled since, and then with the version of
  // the one that was sent last.
  lemma ReportIsLastSent(codec: Codec, w: World, events: seq<Event>, name: string)
    requires Sound(w.server) && w.agent == map[] && Run(codec, w, events)
    ensures name in After(w, events).agent <==> exists j: nat, d: Command :: d.name == name && LastSent(codec, w, events, j, d)
    ensures forall j: nat, d: Command :: d.name == name && LastSent(codec, w, events, j, d) ==>
              name in After(w, events).agent && After(w, events).agent[name] == Version(codec, d)
  {
    forall j: nat, d: Command | d.name == name && LastSent(codec, w, events, j, d)
      ensures name in After(w, events).agent && After(w, events).agent[name] == Version(codec, d)
    {
      LastSentIsReported(codec, w, events, j, d);
    }
    if name in After(w, events).agent {
      var j, d := ReportedWasSent(codec, w, events, name);
    }
  }

  // At any heartbeat of any run a command of the store is passed over if and only if it is
  // past its deadline, or this is no full state and what the agent was sent last under the
  // name, not cancelled since, has its hash.
  lemma SilentOnlyForSameHash(codec: Codec, w: World, events: seq<Event>, fullState: bool, now: int, updates: seq<CommandDetail>, c: Command)
    requires Sound(w.server) && w.agent == map[] && Run(codec, w, events)
    requires c in After(w, events).server
    requires IsDiff(codec, After(w, events).server, After(w, events).agent, fullState, now, updates)
    ensures !Mentions(updates, c.name) <==>
            0 < c.expireTime < now ||
            (!fullState && exists j: nat, d: Command ::
               d.name == c.name && LastSent(codec, w, events, j, d) && Version(codec, d) == Version(codec, c))
  {
    var t := After(w, events);
    RunKeepsServer(codec, w, events);
    ReportIsLastSent(codec, w, events, c.name);
    OneVerdictPerName(codec, t.server, t.agent, fullState, now, updates, c.name);
    assert c.name in Names(t.server);
    forall d | d in t.server && d.name == c.name ensures d == c { OnlyOne(t.server, c, d); }
    assert Mentions(updates, c.name) <==> Due(codec, c, t.agent, fullState, now);
  }

  lemma {:induction false} NewlyStored(w: World, events: seq<Event>, j: nat, c: Command)
    requires j <= |events| && c in After(w, events).server && c !in After(w, events[..j]).server
    ensures exists i :: j <= i < |events| && events[i] == Create(c)
  {
    assert events[..|events|] == events;
    if j < |events| && events[|events| - 1] != Create(c) {
      var front := events[..|events| - 1];
      assert front[..j] == events[..j];
      NewlyStored(w, front, j, c);
      var i :| j <= i < |front| && front[i] == Create(c);
      assert events[i] == Create(c);
    }
  }

  // What was sent last under the name of a stored command is that command, or an earlier
  // one: the stored command was created after it was sent.
  lemma SentLastIsEarlier(codec: Codec, w: World, events: seq<Event>, j: nat, d: Command, c: Command)
    requires Sound(w.server) && Run(codec, w, events)
    requires LastSent(codec, w, events, j, d) && c in After(w, events).server && c.name == d.name
    ensures d == c || exists i :: j < i < |events| && events[i] == Create(c)
  {
    if d != c {
      RunPrefix(codec, w, events, j);
      RunKeepsServer(codec, w, events[..j]);
      if c in After(w, events[..j]).server {
        OnlyOne(After(w, events[..j]).server, c, d);
      }
      NewlyStored(w, events, j, c);
      var i :| j <= i < |events| && events[i] == Create(c);
    }
  }

  lemma {:induction false} ApplyKeeps(codec: Codec, agent: map<string, int>, updates: seq<CommandDetail>, c: Command)
    requires Known(codec, c, agent)
    requires forall u :: u in updates && u.name == c.name ==> u == Delivery(codec, c) && c.expireTime != CANCELLED
    ensures Known(codec, c, Apply(agent, updates))
  {
    if updates != [] {
      ApplyKeeps(codec, agent, updates[..|updates| - 1], c);
      assert updates[|updates| - 1] in updates;
    }
  }

  ghost predicate Unique(server: seq<Command>, c: Command) {
    c in server && forall d :: d in server && d.name == c.name ==> d == c
  }

  ghost predicate Untouched(events: seq<Event>, name: string) {
    forall i :: 0 <= i < |events| ==> events[i] != Delete(name)
  }

  ghost predicate SilentBeat(e: Event, name: string) {
    e.Beat? && !e.fullState ==> !Mentions(e.updates, name)
  }

  // Over every run in which a delivered command is not deleted, the agent goes on
  // reporting it and no ordinary heartbeat mentions it, whether or not its deadline passes.
  lemma {:induction false} DeliveredStaysSilent(codec: Codec, w: World, events: seq<Event>, c: Command)
    requires Run(codec, w, events) && Untouched(events, c.name)
    requires Unique(w.server, c) && c.expireTime != CANCELLED && Known(codec, c, w.agent)
    ensures Unique(After(w, events).server, c) && Known(codec, c, After(w, events).agent)
    ensures forall i :: 0 <= i < |events| ==> SilentBeat(events[i], c.name)
  {
    if events != [] {
      var front, e := events[..|events| - 1], events[|events| - 1];
      RunFront(codec, w, events);
      forall i | 0 <= i < |front| ensures front[i] != Delete(c.name) { assert front[i] == events[i]; }
      DeliveredStaysSilent(codec, w, front, c);
      assert e != Delete(c.name);
      SilentStep(codec, After(w, front), e, c);
      forall i | 0 <= i < |events| ensures SilentBeat(events[i], c.name) {
        assert i < |front| ==> front[i] == events[i];
      }
    }
  }

  lemma SilentStep(codec: Codec, w: World, e: Event, c: Command)
    requires Possible(codec, w, e) && e != Delete(c.name)
    requires Unique(w.server, c) && c.expireTime != CANCELLED && Known(codec, c, w.agent)
    ensures Unique(Next(w, e).server, c) && Known(codec, c, Next(w, e).agent) && SilentBeat(e, c.name)
  {
    if e.Beat? {
      forall u | u in e.updates && u.name == c.name ensures e.fullState && u == Delivery(codec, c) {
        DiffMembers(codec, w.server, w.agent, e.fullState, e.now, e.updates, u);
        assert c.name in Names(w.server);
      }
      ApplyKeeps(codec, w.agent, e.updates, c);
    } else if e.Create? {
      assert c.name in Names(w.server);
    }
  }

  // A recreated command is sent again if and only if it is in time and its hash is not
  // the one of the command the agent got.
  lemma RecreatedIsResent(codec: Codec, w: World, now: int, updates: seq<CommandDetail>, before: Command, after: Command)
    requires before.name == after.name && Known(codec, before, w.agent)
    requires Sound(w.server) && after in w.server
    requires IsDiff(codec, w.server, w.agent, false, now, updates)
    ensures Mentions(updates, after.name) <==> !(0 < after.expireTime < now) && Version(codec, after) != Version(codec, before)
  {
    OneVerdictPerName(codec, w.server, w.agent, false, now, updates, after.name);
    assert after.name in Names(w.server);
    forall c | c in w.server && c.name == after.name ensures c == after {
      OnlyOne(w.server, c, after);
    }
  }
}
