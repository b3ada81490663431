// The in-memory agent registry: a map, a doubly linked recency list and an index of
// list elements, changed together under a capacity cap.
module Registry {
  import opened Wrappers
  import opened Recency

  // ── The linked list ─────────────────────────────────────────────────────────

  class Element {
    const value: string
    var next: Element?
    var prev: Element?

    constructor (value: string)
      ensures this.value == value
    {
      this.value := value;
      next, prev := null, null;
    }
  }

  // A ring through a sentinel; `nodes` are its elements from the front to the back.
  class LruList {
    const root: Element
    ghost var nodes: seq<Element>
    ghost var repr: set<Element>  // the sentinel and every element the list ever had

    ghost function NodeAt(k: int): Element
      reads this
    {
      if 0 <= k < |nodes| then nodes[k] else root
    }

    ghost predicate Valid()
      reads this, repr
    {
      && root in repr && root !in nodes
      && (forall e :: e in nodes ==> e in repr)
      && NoRepeats(nodes)
      && (forall k :: -1 <= k < |nodes| ==> NodeAt(k).next == NodeAt(k + 1))
      && (forall k :: 0 <= k <= |nodes| ==> NodeAt(k).prev == NodeAt(k - 1))
    }

    constructor ()
      ensures Valid() && nodes == [] && fresh(repr)
    {
      var r := new Element("");
      root := r;
      nodes, repr := [], {r};
      new;
      root.next, root.prev := root, root;
    }

    method Back() returns (e: Element?)
      requires Valid()
      ensures e == if nodes == [] then null else nodes[|nodes| - 1]
    {
      assert root == NodeAt(|nodes|) && root.prev == NodeAt(|nodes| - 1);
      if root.prev == root { e := null; } else { e := root.prev; }
    }

    // Links an element that is in no list right behind the sentinel.
    method InsertFront(e: Element)
      requires Valid() && e != root && e !in nodes
      modifies this, repr, e
      ensures Valid() && nodes == [e] + old(nodes) && repr == old(repr) + {e}
    {
      var first := root.next;
      assert root == NodeAt(-1) && first == NodeAt(0);
      e.prev, e.next := root, first;
      root.next := e;
      first.prev := e;
      nodes, repr := [e] + nodes, repr + {e};
      assert forall k :: 1 <= k <= |nodes| ==> NodeAt(k) == old(NodeAt(k - 1));
    }

    // Unlinks the element at position k.
    method RemoveAt(e: Element, ghost k: nat)
      requires Valid() && k < |nodes| && nodes[k] == e
      modifies this, repr
      ensures Valid() && nodes == Removed(old(nodes), k) && repr == old(repr)
    {
      assert NodeAt(k) == e && e.prev == NodeAt(k - 1) && e.next == NodeAt(k + 1);
      RemovedMembers(nodes, k);
      var p, n := e.prev, e.next;
      p.next := n;
      n.prev := p;
      e.next, e.prev := null, null;
      nodes := Removed(nodes, k);
      assert forall i :: -1 <= i < k ==> NodeAt(i) == old(NodeAt(i));
      assert forall i :: k <= i <= |nodes| ==> NodeAt(i) == old(NodeAt(i + 1));
      assert NodeAt(k - 1) == p && NodeAt(k) == n && p.next == n && n.prev == p;
      forall i | -1 <= i < |nodes| && i != k - 1 ensures NodeAt(i).next == NodeAt(i + 1) {
        var was := if i < k then i else i + 1;
        assert NodeAt(i) == old(NodeAt(was)) && old(NodeAt(was).next) == old(NodeAt(was + 1));
        assert old(NodeAt(was)) != e && old(NodeAt(was)) != p;
      }
      forall i | 0 <= i <= |nodes| && i != k ensures NodeAt(i).prev == NodeAt(i - 1) {
        var was := if i < k then i else i + 1;
        assert NodeAt(i) == old(NodeAt(was)) && old(NodeAt(was).prev) == old(NodeAt(was - 1));
        assert old(NodeAt(was)) != e && old(NodeAt(was)) != n;
      }
    }

    method MoveToFront(e: Element, ghost k: nat)
      requires Valid() && k < |nodes| && nodes[k] == e
      modifies this, repr
      ensures Valid() && nodes == [e] + Removed(old(nodes), k) && repr == old(repr)
    {
      RemoveAt(e, k);
      InsertFront(e);
    }
  }

  // ── Config statuses ─────────────────────────────────────────────────────────

  datatype Status = Status(instanceID: string, configName: string, configType: string, code: int, message: string)

  const MAX_STATUSES: nat := MAX_AGENTS * 10

  function StatusKey(instanceID: string, configName: string, configType: string): string {
    instanceID + ":" + configName + ":" + configType
  }

  function Purged<V>(statuses: map<string, V>, prefix: string): map<string, V> {
    map k | k in statuses && !(prefix <= k) :: statuses[k]
  }

  function PurgedOldest<V>(statuses: map<string, V>, agents: seq<Agent>): map<string, V> {
    if agents == [] then statuses else Purged(statuses, agents[|agents| - 1].instanceID + "\0")
  }

  predicate EvictsFor(agents: seq<Agent>, agent: Agent) {
    !Present(agents, agent.instanceID) && |agents| >= MAX_AGENTS
  }

  // A new agent evicts one when the registry is full.
  function PurgedFor<V>(statuses: map<string, V>, agents: seq<Agent>, agent: Agent): map<string, V> {
    if EvictsFor(agents, agent) then PurgedOldest(statuses, agents) else statuses
  }

  lemma NewAgentCases<V>(statuses: map<string, V>, list: seq<Agent>, agent: Agent)
    requires !Present(list, agent.instanceID)
    ensures |list| >= MAX_AGENTS ==>
              && PurgedFor(statuses, list, agent) == PurgedOldest(statuses, list)
              && Upserted(list, agent) == [agent] + DropOldest(list) && |DropOldest(list)| == |list| - 1
    ensures |list| < MAX_AGENTS ==> PurgedFor(statuses, list, agent) == statuses && Upserted(list, agent) == [agent] + list
  {}

  // The prefix an eviction purges ends in a NUL byte: keys without one all stay.
  lemma EvictionSparesPlainKeys<V>(statuses: map<string, V>, agents: seq<Agent>)
    requires forall k :: k in statuses ==> '\0' !in k
    ensures PurgedOldest(statuses, agents) == statuses
  {
    if agents != [] {
      var prefix := agents[|agents| - 1].instanceID + "\0";
      assert prefix[|prefix| - 1] == '\0';
      forall k | k in statuses ensures !(prefix <= k) {
        StartIsPart(prefix, k);
      }
    }
  }

  lemma StartIsPart(start: string, s: string)
    ensures start <= s ==> forall c :: c in start ==> c in s
  {
    if start <= s {
      assert forall i :: 0 <= i < |start| ==> start[i] == s[i];
    }
  }

  // Every prefix of the collected agents is purged.
  function PurgedAll<V>(statuses: map<string, V>, gone: set<string>): map<string, V> {
    map k | k in statuses && !(exists id :: id in gone && id + ":" <= k) :: statuses[k]
  }

  function StatusSet(statuses: map<string, Status>, status: Status): map<string, Status> {
    var key := KeyOf(status);
    if key in statuses || |statuses| < MAX_STATUSES then statuses[key := status] else statuses
  }

  function KeyOf(status: Status): string { StatusKey(status.instanceID, status.configName, status.configType) }

  // The table after a run of reports.
  function Reported(statuses: map<string, Status>, reports: seq<Status>): map<string, Status> {
    if reports == [] then statuses
    else StatusSet(Reported(statuses, reports[..|reports| - 1]), reports[|reports| - 1])
  }

  // The keys there were and those reported.
  function Seen(statuses: map<string, Status>, reports: seq<Status>): set<string> {
    if reports == [] then statuses.Keys
    else Seen(statuses, reports[..|reports| - 1]) + {KeyOf(reports[|reports| - 1])}
  }

  // The i-th report of the key found room: fewer distinct keys than the cap had been seen.
  ghost predicate FoundRoom(statuses: map<string, Status>, reports: seq<Status>, i: nat, key: string) {
    i < |reports| && KeyOf(reports[i]) == key && |Seen(statuses, reports[..i])| < 1_000_000
  }

  // All keys seen are in the table while they fit; from then on it stays full.
  ghost predicate Filled(seen: set<string>, table: set<string>, cap: nat) {
    table <= seen && if |seen| <= cap then table == seen else |table| == cap
  }

  lemma FilledStep(seen: set<string>, table: set<string>, cap: nat, key: string)
    requires Filled(seen, table, cap)
    ensures Filled(seen + {key}, if key in table || |table| < cap then table + {key} else table, cap)
    ensures key in table || |table| < cap <==> key in table || |seen| < cap
  {
    if key in seen {
      assert seen + {key} == seen;
    }
    if key in table {
      assert table + {key} == table;
    }
  }

  lemma {:induction false} TableFills(statuses: map<string, Status>, reports: seq<Status>)
    requires |statuses| <= MAX_STATUSES
    ensures Filled(Seen(statuses, reports), Reported(statuses, reports).Keys, MAX_STATUSES)
  {
    if reports == [] {
      assert |statuses.Keys| == |statuses|;
    } else {
      var front, last := reports[..|reports| - 1], reports[|reports| - 1];
      TableFills(statuses, front);
      FilledStep(Seen(statuses, front), Reported(statuses, front).Keys, MAX_STATUSES, KeyOf(last));
      SetKeys(Reported(statuses, front), last);
    }
  }

  lemma SetKeys(statuses: map<string, Status>, status: Status)
    ensures |statuses.Keys| == |statuses|
    ensures StatusSet(statuses, status).Keys ==
            if KeyOf(status) in statuses.Keys || |statuses| < MAX_STATUSES then statuses.Keys + {KeyOf(status)} else statuses.Keys
  {}

  // Over every run of reports the table holds the keys it began with and those that found
  // room when they came, and never more than the cap.
  lemma {:induction false} TableHoldsWhoFoundRoom(statuses: map<string, Status>, reports: seq<Status>, key: string)
    requires |statuses| <= MAX_STATUSES
    ensures key in Reported(statuses, reports) <==> key in statuses || exists i: nat :: FoundRoom(statuses, reports, i, key)
    ensures |Reported(statuses, reports)| <= 1_000_000
  {
    if reports != [] {
      var front, last := reports[..|reports| - 1], reports[|reports| - 1];
      TableHoldsWhoFoundRoom(statuses, front, key);
      TableGrows(statuses, front, last, key);
      RoomBefore(statuses, front, last, key);
      assert reports == front + [last];
    }
  }

  // One more report: its key joins the table if there was room.
  lemma TableGrows(statuses: map<string, Status>, front: seq<Status>, last: Status, key: string)
    requires |statuses| <= MAX_STATUSES && |Reported(statuses, front)| <= MAX_STATUSES
    ensures var table, next := Reported(statuses, front), StatusSet(Reported(statuses, front), last);
            && |next| <= MAX_STATUSES
            && (key in next <==> key in table || (KeyOf(last) == key && |Seen(statuses, front)| < MAX_STATUSES))
  {
    var table := Reported(statuses, front);
    TableFills(statuses, front);
    FilledStep(Seen(statuses, front), table.Keys, MAX_STATUSES, KeyOf(last));
    SetKeys(table, last);
    SetKeys(StatusSet(table, last), last);
  }

  lemma RoomBefore(statuses: map<string, Status>, front: seq<Status>, last: Status, key: string)
    ensures (exists i: nat :: FoundRoom(statuses, front + [last], i, key)) <==>
            (exists i: nat :: FoundRoom(statuses, front, i, key)) || (KeyOf(last) == key && |Seen(statuses, front)| < MAX_STATUSES)
  {
    var reports, n := front + [last], |front|;
    assert reports[..n] == front && reports[n] == last;
    forall i: nat | i < n ensures FoundRoom(statuses, reports, i, key) <==> FoundRoom(statuses, front, i, key) {
      assert reports[..i] == front[..i] && reports[i] == front[i];
    }
    assert FoundRoom(statuses, reports, n, key) <==> KeyOf(last) == key && |Seen(statuses, front)| < MAX_STATUSES;
    if i: nat :| FoundRoom(statuses, front, i, key) {
      assert FoundRoom(statuses, reports, i, key);
    }
  }

  ghost predicate LastReportOf(reports: seq<Status>, i: nat, key: string) {
    i < |reports| && KeyOf(reports[i]) == key && forall j :: i < j < |reports| ==> KeyOf(reports[j]) != key
  }

  // And each with its last report: updates are never dropped.
  lemma {:induction false} TableIsUpToDate(statuses: map<string, Status>, reports: seq<Status>, i: nat, key: string)
    requires LastReportOf(reports, i, key) && key in Reported(statuses, reports)
    ensures Reported(statuses, reports)[key] == reports[i]
  {
    var front := reports[..|reports| - 1];
    if i < |front| {
      assert forall j :: 0 <= j < |front| ==> front[j] == reports[j];
      TableIsUpToDate(statuses, front, i, key);
    }
  }

  // Two texts that start the same text start one another.
  lemma CommonExtension(a: string, b: string, c: string)
    requires a <= c && b <= c
    ensures a <= b || b <= a
  {
    if |a| <= |b| {
      assert b[..|a|] == c[..|a|] == a;
    } else {
      assert a[..|b|] == c[..|b|] == b;
    }
  }

  lemma KeyStart(id: string, name: string, kind: string)
    ensures id + ":" <= StatusKey(id, name, kind)
  {
    assert StatusKey(id, name, kind) == (id + ":") + (name + ":" + kind);
  }

  // Without colons in ids and names no two statuses share a key.
  lemma StatusKeyIsInjective(id: string, name: string, kind: string, id': string, name': string, kind': string)
    requires ':' !in id && ':' !in id' && ':' !in name && ':' !in name'
    ensures StatusKey(id, name, kind) == StatusKey(id', name', kind') <==> id == id' && name == name' && kind == kind'
  {
    if StatusKey(id, name, kind) == StatusKey(id', name', kind') {
      assert StatusKey(id, name, kind) == id + ":" + (name + ":" + kind);
      assert StatusKey(id', name', kind') == id' + ":" + (name' + ":" + kind');
      FirstColon(id, name + ":" + kind, id', name' + ":" + kind');
      FirstColon(name, kind, name', kind');
    }
  }

  lemma FirstColon(a: string, rest: string, b: string, rest': string)
    requires ':' !in a && ':' !in b && a + ":" + rest == b + ":" + rest'
    ensures a == b && rest == rest'
  {
    var s, t := a + ":" + rest, b + ":" + rest';
    assert s[|a|] == ':' && t[|b|] == ':';
    assert forall i :: 0 <= i < |a| ==> s[i] == a[i] && a[i] in a;
    assert forall i :: 0 <= i < |b| ==> t[i] == b[i] && b[i] in b;
    assert |a| == |b|;
    assert a == s[..|a|] == t[..|b|] == b;
    assert rest == s[|a| + 1..] == t[|b| + 1..] == rest';
  }

  // Collecting an agent spares all statuses of another one if and only if neither id,
  // followed by a colon, starts the other.
  lemma CollectSparesStatuses(gone: string, id: string)
    ensures (forall name, kind :: !(gone + ":" <= StatusKey(id, name, kind))) <==>
            !(gone + ":" <= id + ":") && !(id + ":" <= gone + ":")
  {
    if gone + ":" <= id + ":" {
      assert StatusKey(id, "", "") == (id + ":") + ":";
      assert gone + ":" <= StatusKey(id, "", "");
    } else if id + ":" <= gone + ":" {
      var rest := gone[|id| + 1..];
      assert gone + ":" == (id + ":") + (gone + ":")[|id| + 1..];
      assert (gone + ":")[|id| + 1..] == rest + ":";
      assert StatusKey(id, rest, "") == gone + ":";
    }
    forall name, kind | gone + ":" <= StatusKey(id, name, kind) ensures gone + ":" <= id + ":" || id + ":" <= gone + ":" {
      KeyStart(id, name, kind);
      CommonExtension(gone + ":", id + ":", StatusKey(id, name, kind));
    }
  }

  // Ids without a colon never share statuses: a purge hits the collected agent alone.
  lemma PlainIdsArePurgedAlone(gone: string, id: string, name: string, kind: string)
    requires ':' !in gone && ':' !in id
    ensures gone + ":" <= StatusKey(id, name, kind) <==> gone == id
  {
    KeyStart(id, name, kind);
    if gone + ":" <= StatusKey(id, name, kind) {
      CommonExtension(gone + ":", id + ":", StatusKey(id, name, kind));
      if gone + ":" <= id + ":" {
        PlainStart(gone, id);
      } else {
        PlainStart(id, gone);
      }
    }
  }

  lemma PlainStart(a: string, b: string)
    requires ':' !in b && a + ":" <= b + ":"
    ensures a == b
  {
    assert (b + ":")[|a|] == (a + ":")[|a|] == ':';
    assert |a| == |b|;
    assert (b + ":")[..|a|] == (a + ":")[..|a|];
  }

  // An id that continues another one behind a colon loses its statuses with it.
  lemma ColonIdsArePurgedTogether()
    ensures "a" + ":" <= StatusKey("a:b", "nginx", "pipeline")
  {}

  // The capacity eviction purges by NUL, which no status key of the evicted agent
  // contains behind its id: its statuses stay.
  lemma EvictionPurgesNothingOfItsOwn(id: string, name: string, kind: string)
    ensures !(id + "\0" <= StatusKey(id, name, kind))
  {
    assert StatusKey(id, name, kind)[|id|] == ':';
    assert (id + "\0")[|id|] == '\0';
  }

  // ── Map, index and list ─────────────────────────────────────────────────────

  ghost function Ids(nodes: seq<Element>): set<string> {
    set e | e in nodes :: e.value
  }

  // The three structures describe the same agents.
  ghost predicate Consistent(agents: map<string, Agent>, idx: map<string, Element>, nodes: seq<Element>) {
    && agents.Keys == idx.Keys == Ids(nodes)
    && (forall i {:trigger nodes[i]} :: 0 <= i < |nodes| ==> nodes[i].value in idx && idx[nodes[i].value] == nodes[i])
    && (forall id {:trigger agents[id]} :: id in agents ==> agents[id].instanceID == id)
  }

  ghost predicate NoRepeats(nodes: seq<Element>) {
    forall i, j :: 0 <= i < j < |nodes| ==> nodes[i] != nodes[j]
  }

  // The registered agents in list order.
  ghost function Listed(agents: map<string, Agent>, nodes: seq<Element>): (list: seq<Agent>)
    requires Ids(nodes) <= agents.Keys
    ensures |list| == |nodes|
    ensures forall i {:trigger list[i]} {:trigger nodes[i]} :: 0 <= i < |nodes| ==> nodes[i].value in agents && list[i] == agents[nodes[i].value]
  {
    assert forall i :: 0 <= i < |nodes| ==> nodes[i] in nodes && nodes[i].value in Ids(nodes);
    seq(|nodes|, i requires 0 <= i < |nodes| => agents[nodes[i].value])
  }

  lemma Position(agents: map<string, Agent>, idx: map<string, Element>, nodes: seq<Element>, id: string) returns (k: nat)
    requires Consistent(agents, idx, nodes) && id in agents
    ensures k < |nodes| && nodes[k] == idx[id] && nodes[k].value == id
  {
    var e :| e in nodes && e.value == id;
    k :| k < |nodes| && nodes[k] == e;
  }

  lemma ListedShape(agents: map<string, Agent>, idx: map<string, Element>, nodes: seq<Element>)
    requires Consistent(agents, idx, nodes) && NoRepeats(nodes)
    ensures Distinct(Listed(agents, nodes))
    ensures forall id :: id in agents <==> Present(Listed(agents, nodes), id)
    ensures forall a :: a in Listed(agents, nodes) <==> a.instanceID in agents && agents[a.instanceID] == a
    ensures |agents| == |nodes|
  {
    var list := Listed(agents, nodes);
    forall i, j | 0 <= i < j < |list| ensures list[i].instanceID != list[j].instanceID {
      assert nodes[i] != nodes[j];
    }
    forall id | id in agents ensures Present(list, id) && agents[id] in list {
      var k := Position(agents, idx, nodes, id);
      assert list[k] == agents[id];
    }
    CountKeys(agents.Keys, list);
  }

  lemma Known(agents: map<string, Agent>, idx: map<string, Element>, nodes: seq<Element>, id: string)
    requires Consistent(agents, idx, nodes) && NoRepeats(nodes)
    ensures id in agents <==> Present(Listed(agents, nodes), id)
    ensures |agents| == |nodes|
  {
    ListedShape(agents, idx, nodes);
  }

  ghost function Removed(nodes: seq<Element>, k: nat): seq<Element>
    requires k < |nodes|
  {
    nodes[..k] + nodes[k + 1..]
  }

  lemma RemovedMembers(nodes: seq<Element>, k: nat)
    requires k < |nodes| && NoRepeats(nodes)
    ensures NoRepeats(Removed(nodes, k))
    ensures forall e :: e in Removed(nodes, k) <==> e in nodes && e != nodes[k]
  {
    forall e | e in nodes && e != nodes[k] ensures e in Removed(nodes, k) {
      var j :| 0 <= j < |nodes| && nodes[j] == e;
      assert Removed(nodes, k)[if j < k then j else j - 1] == e;
    }
  }

  lemma UnlistedIds(agents: map<string, Agent>, idx: map<string, Element>, nodes: seq<Element>, k: nat)
    requires Consistent(agents, idx, nodes) && NoRepeats(nodes) && k < |nodes|
    ensures Ids(Removed(nodes, k)) == Ids(nodes) - {nodes[k].value}
    ensures forall e :: e in Removed(nodes, k) ==> e.value != nodes[k].value
  {
    var id, rest := nodes[k].value, Removed(nodes, k);
    RemovedMembers(nodes, k);
    forall e | e in nodes ensures e in rest <==> e.value != id {
      var j :| 0 <= j < |nodes| && nodes[j] == e;
      assert idx[nodes[j].value] == nodes[j] && idx[nodes[k].value] == nodes[k];
    }
    forall x | x in Ids(nodes) && x != id ensures x in Ids(rest) {
      var e :| e in nodes && e.value == x;
      assert e in rest;
    }
  }

  lemma UnlistedConsistent(agents: map<string, Agent>, idx: map<string, Element>, nodes: seq<Element>, k: nat)
    requires Consistent(agents, idx, nodes) && NoRepeats(nodes) && k < |nodes|
    ensures Consistent(agents - {nodes[k].value}, idx - {nodes[k].value}, Removed(nodes, k))
  {
    var id, rest := nodes[k].value, Removed(nodes, k);
    RemovedMembers(nodes, k);
    UnlistedIds(agents, idx, nodes, k);
    forall i | 0 <= i < |rest| ensures rest[i].value in idx - {id} && (idx - {id})[rest[i].value] == rest[i] {
      assert rest[i] in rest;
      assert rest[i] == nodes[if i < k then i else i + 1];
    }
  }

  lemma Unlisted(agents: map<string, Agent>, idx: map<string, Element>, nodes: seq<Element>, k: nat)
    requires Consistent(agents, idx, nodes) && NoRepeats(nodes) && k < |nodes|
    ensures Consistent(agents - {nodes[k].value}, idx - {nodes[k].value}, Removed(nodes, k))
    ensures Listed(agents - {nodes[k].value}, Removed(nodes, k)) == Without(Listed(agents, nodes), {nodes[k].value})
  {
    UnlistedConsistent(agents, idx, nodes, k);
    ListedShape(agents, idx, nodes);
    WithoutOne(Listed(agents, nodes), k);
    UnlistedList(agents, nodes, k);
  }

  lemma Unlisting(agents: map<string, Agent>, idx: map<string, Element>, nodes: seq<Element>, id: string) returns (k: nat)
    requires Consistent(agents, idx, nodes) && NoRepeats(nodes) && id in idx
    ensures k < |nodes| && nodes[k] == idx[id]
    ensures NoRepeats(Removed(nodes, k)) && Consistent(agents - {id}, idx - {id}, Removed(nodes, k))
    ensures Listed(agents - {id}, Removed(nodes, k)) == Without(Listed(agents, nodes), {id})
  {
    k := Position(agents, idx, nodes, id);
    Unlisted(agents, idx, nodes, k);
    RemovedMembers(nodes, k);
  }

  lemma UnlistedList(agents: map<string, Agent>, nodes: seq<Element>, k: nat)
    requires k < |nodes| && Ids(nodes) <= agents.Keys && Ids(Removed(nodes, k)) <= agents.Keys - {nodes[k].value}
    ensures Listed(agents - {nodes[k].value}, Removed(nodes, k)) == Listed(agents, nodes)[..k] + Listed(agents, nodes)[k + 1..]
  {}

  lemma ConsistentFront(agents: map<string, Agent>, idx: map<string, Element>, nodes: seq<Element>, agent: Agent, e: Element)
    requires Consistent(agents, idx, nodes)
    requires agent.instanceID !in agents && e.value == agent.instanceID
    ensures Consistent(agents[e.value := agent], idx[e.value := e], [e] + nodes)
  {
    var nodes', idx' := [e] + nodes, idx[e.value := e];
    assert Ids(nodes') == Ids(nodes) + {e.value};
    forall i | 0 <= i < |nodes'| ensures nodes'[i].value in idx' && idx'[nodes'[i].value] == nodes'[i] {
      if i > 0 {
        assert nodes'[i] == nodes[i - 1];
      }
    }
  }

  lemma ListedFront(agents: map<string, Agent>, idx: map<string, Element>, nodes: seq<Element>, agent: Agent, e: Element)
    requires Consistent(agents, idx, nodes)
    requires agent.instanceID !in agents && e.value == agent.instanceID
    ensures Consistent(agents[e.value := agent], idx[e.value := e], [e] + nodes)
    ensures Listed(agents[e.value := agent], [e] + nodes) == [agent] + Listed(agents, nodes)
  {
    ConsistentFront(agents, idx, nodes, agent, e);
    var list, list' := Listed(agents, nodes), Listed(agents[e.value := agent], [e] + nodes);
    forall i | 0 <= i < |list'| ensures list'[i] == ([agent] + list)[i] {
      if i > 0 {
        assert ([e] + nodes)[i] == nodes[i - 1];
      }
    }
  }

  lemma Refreshed(agents: map<string, Agent>, idx: map<string, Element>, nodes: seq<Element>, agent: Agent, k: nat)
    requires Consistent(agents, idx, nodes) && NoRepeats(nodes) && k < |nodes| && nodes[k].value == agent.instanceID
    ensures Consistent(agents[agent.instanceID := agent], idx, [nodes[k]] + Removed(nodes, k))
    ensures Listed(agents[agent.instanceID := agent], [nodes[k]] + Removed(nodes, k)) == Upserted(Listed(agents, nodes), agent)
  {
    var id, e := agent.instanceID, nodes[k];
    ListedShape(agents, idx, nodes);
    Unlisted(agents, idx, nodes, k);
    PutBack(agents, id, agent);
    PutBack(idx, id, e);
    ListedFront(agents - {id}, idx - {id}, Removed(nodes, k), agent, e);
    assert Present(Listed(agents, nodes), id);
  }

  lemma PutBack<K, V>(m: map<K, V>, k: K, v: V)
    ensures (m - {k})[k := v] == m[k := v]
    ensures k in m && m[k] == v ==> (m - {k})[k := v] == m
  {}

  lemma OldestListed(agents: map<string, Agent>, idx: map<string, Element>, nodes: seq<Element>)
    requires Consistent(agents, idx, nodes) && NoRepeats(nodes) && nodes != []
    ensures var n := |nodes| - 1; var id, list := nodes[n].value, Listed(agents, nodes);
            && id in idx && idx[id] == nodes[n]
            && Without(list, {id}) == DropOldest(list)
            && list[n].instanceID == id
  {
    ListedShape(agents, idx, nodes);
    WithoutLast(Listed(agents, nodes));
  }

  lemma {:induction false} CountKeys(keys: set<string>, agents: seq<Agent>)
    requires Distinct(agents)
    requires forall id :: id in keys <==> Present(agents, id)
    ensures |keys| == |agents|
  {
    if agents == [] {
      assert forall id :: id in keys ==> Present(agents, id);
      assert keys == {};
    } else {
      var id := agents[0].instanceID;
      assert Present(agents, id);
      forall other ensures other in keys - {id} <==> Present(agents[1..], other) {
        PresentTail(agents, other);
      }
      CountKeys(keys - {id}, agents[1..]);
    }
  }

  lemma PresentTail(agents: seq<Agent>, id: string)
    requires Distinct(agents) && agents != []
    ensures Present(agents[1..], id) <==> Present(agents, id) && id != agents[0].instanceID
  {
    if Present(agents[1..], id) {
      var i :| 0 <= i < |agents| - 1 && agents[1..][i].instanceID == id;
      assert agents[i + 1].instanceID == id;
    }
    if Present(agents, id) && id != agents[0].instanceID {
      var i :| 0 <= i < |agents| && agents[i].instanceID == id;
      assert agents[1..][i - 1].instanceID == id;
    }
  }

  lemma SubsetCount<T>(a: set<T>, b: set<T>)
    requires a <= b
    ensures |a| <= |b|
  {
    assert b == a + (b - a);
  }

  // ── The registry ────────────────────────────────────────────────────────────

  class AgentRegistry {
    var agentsMap: map<string, Agent>
    const lru: LruList
    var lruIdx: map<string, Element>
    var statuses: map<string, Status>
    ghost var agents: seq<Agent>  // the most recently seen first

    // Map, index and list are consistent, and `agents` is what they hold.
    ghost predicate Linked()
      reads this`agentsMap, this`lruIdx, this`agents, lru, lru.repr
    {
      && lru.Valid() && Consistent(agentsMap, lruIdx, lru.nodes) && |lru.nodes| <= MAX_AGENTS
      && agents == Listed(agentsMap, lru.nodes)
    }

    ghost predicate Valid()
      reads this, lru, lru.repr
    {
      Linked() && |statuses| <= MAX_STATUSES
    }

    constructor ()
      ensures Valid() && agents == [] && statuses == map[]
      ensures fresh(lru) && fresh(lru.repr)
    {
      agentsMap, lruIdx, statuses, agents := map[], map[], map[], [];
      lru := new LruList();
    }

    method UpsertAgent(agent: Agent)
      requires Valid()
      modifies this, lru, lru.repr
      ensures Valid() && fresh(lru.repr - old(lru.repr))
      ensures agents == Upserted(old(agents), agent)
      ensures statuses == PurgedFor(old(statuses), old(agents), agent)
    {
      IsRegistered(agent.instanceID);
      if agent.instanceID in lruIdx {
        Refresh(agent);
      } else {
        Admit(agent);
      }
    }

    lemma IsRegistered(id: string)
      requires Linked()
      ensures id in lruIdx <==> Present(agents, id)
      ensures id in lruIdx <==> id in agentsMap
      ensures |agentsMap| == |agents| <= MAX_AGENTS
    {
      Known(agentsMap, lruIdx, lru.nodes, id);
    }

    // A new agent, for which the cap may require an eviction.
    method Admit(agent: Agent)
      requires Valid() && agent.instanceID !in agentsMap
      modifies this, lru, lru.repr
      ensures Valid() && fresh(lru.repr - old(lru.repr))
      ensures agents == Upserted(old(agents), agent)
      ensures statuses == PurgedFor(old(statuses), old(agents), agent)
    {
      IsRegistered(agent.instanceID);
      NewAgentCases(statuses, agents, agent);
      MakeRoom();
      Insert(agent);
    }

    method MakeRoom()
      requires Valid()
      modifies this, lru, lru.repr
      ensures Valid() && lru.repr == old(lru.repr)
      ensures agentsMap.Keys <= old(agentsMap.Keys) && |agents| < MAX_AGENTS
      ensures agents == if |old(agents)| >= MAX_AGENTS then DropOldest(old(agents)) else old(agents)
      ensures statuses == if |old(agents)| >= MAX_AGENTS then PurgedOldest(old(statuses), old(agents)) else old(statuses)
    {
      IsRegistered("");
      if |agentsMap| >= MAX_AGENTS {
        EvictOldest();
      }
    }

    method Refresh(agent: Agent)
      requires Valid() && agent.instanceID in agentsMap
      modifies this`agentsMap, this`agents, lru, lru.repr
      ensures Valid() && lru.repr == old(lru.repr)
      ensures agents == Upserted(old(agents), agent)
      ensures statuses == PurgedFor(old(statuses), old(agents), agent)
    {
      IsRegistered(agent.instanceID);
      assert PurgedFor(statuses, agents, agent) == statuses;
      Replace(agent);
    }

    method Replace(agent: Agent)
      requires Linked() && agent.instanceID in agentsMap
      modifies this`agentsMap, this`agents, lru, lru.repr
      ensures Linked() && lru.repr == old(lru.repr)
      ensures agents == Upserted(old(agents), agent)
    {
      var id := agent.instanceID;
      ghost var nodes := lru.nodes;
      ghost var k := Position(agentsMap, lruIdx, nodes, id);
      Refreshed(agentsMap, lruIdx, nodes, agent, k);
      RemovedMembers(nodes, k);
      agentsMap := agentsMap[id := agent];
      lru.MoveToFront(lruIdx[id], k);
      assert lru.nodes == [nodes[k]] + Removed(nodes, k);
      agents := Listed(agentsMap, lru.nodes);
    }

    method Insert(agent: Agent)
      requires Linked() && agent.instanceID !in agentsMap && |agents| < MAX_AGENTS
      modifies this`agentsMap, this`agents, this`lruIdx, lru, lru.repr
      ensures Linked() && fresh(lru.repr - old(lru.repr)) && agents == [agent] + old(agents)
    {
      var id := agent.instanceID;
      var e := new Element(id);
      ListedFront(agentsMap, lruIdx, lru.nodes, agent, e);
      agentsMap := agentsMap[id := agent];
      lru.InsertFront(e);
      lruIdx := lruIdx[id := e];
      agents := [agent] + agents;
    }

    // Drops the agent at the back of the list. The status purge looks for a prefix no
    // key of that agent has.
    method EvictOldest()
      requires Valid()
      modifies this, lru, lru.repr
      ensures Valid() && lru.repr == old(lru.repr)
      ensures agentsMap.Keys <= old(agentsMap.Keys)
      ensures agents == DropOldest(old(agents))
      ensures statuses == PurgedOldest(old(statuses), old(agents))
      ensures old(agents) != [] ==>
                forall k :: k in statuses <==> k in old(statuses) && !(old(agents)[|old(agents)| - 1].instanceID + "\0" <= k)
    {
      ghost var list := agents;
      var back := lru.Back();
      if back == null {
        assert list == [];
        return;
      }
      var id := back.value;
      ForgetLast(id, back);
      assert PurgedOldest(statuses, list) == Purged(statuses, id + "\0");
      PurgeStatuses(id + "\0");
    }

    method ForgetLast(id: string, back: Element)
      requires Linked() && lru.nodes != [] && back == lru.nodes[|lru.nodes| - 1] && id == back.value
      modifies this`agentsMap, this`agents, this`lruIdx, lru, lru.repr
      ensures Linked() && lru.repr == old(lru.repr) && agentsMap.Keys <= old(agentsMap.Keys)
      ensures old(agents) != [] && old(agents)[|old(agents)| - 1].instanceID == id
      ensures agents == DropOldest(old(agents))
    {
      OldestListed(agentsMap, lruIdx, lru.nodes);
      Forget(id, back);
    }

    method PurgeStatuses(prefix: string)
      modifies this`statuses
      ensures statuses == Purged(old(statuses), prefix) && |statuses| <= old(|statuses|)
    {
      SubsetCount(Purged(statuses, prefix).Keys, statuses.Keys);
      statuses := Purged(statuses, prefix);
    }

    // The collector forgets every agent last heard of before the cutoff, together with
    // the statuses under its id.
    method EvictStaleAgents(cutoff: int) returns (stale: set<string>)
      requires Valid()
      modifies this, lru, lru.repr
      ensures Valid() && lru.repr == old(lru.repr) && agents == NotBefore(old(agents), cutoff)
      ensures stale == StaleIds(old(agents), cutoff)
      ensures statuses == PurgedAll(old(statuses), stale)
      ensures forall k :: k in statuses <==> k in old(statuses) && forall id :: id in stale ==> !(id + ":" <= k)
      ensures forall k :: k in statuses ==> statuses[k] == old(statuses)[k]
    {
      ghost var list := agents;
      StaleKeys(agentsMap, lruIdx, lru.nodes, cutoff);
      CollectIsWithout(list, cutoff);
      stale := ForgetStale(cutoff);
      PurgeCollected(stale);
    }

    method PurgeCollected(stale: set<string>)
      modifies this`statuses
      ensures statuses == PurgedAll(old(statuses), stale) && |statuses| <= old(|statuses|)
    {
      SubsetCount(PurgedAll(statuses, stale).Keys, statuses.Keys);
      statuses := PurgedAll(statuses, stale);
    }

    // The map is visited in no particular order.
    method ForgetStale(cutoff: int) returns (stale: set<string>)
      requires Linked()
      modifies this`agentsMap, this`agents, this`lruIdx, lru, lru.repr
      ensures Linked() && lru.repr == old(lru.repr)
      ensures agents == Without(old(agents), stale)
      ensures stale == StaleOf(old(agentsMap), cutoff)
    {
      ghost var known, list := agentsMap, agents;
      stale := {};
      var todo := agentsMap.Keys;
      SweepStart(known, list, cutoff);
      while todo != {}
        invariant Linked() && lru.repr == old(lru.repr)
        invariant Sweep(known, list, cutoff, todo, stale, agentsMap, agents)
        decreases |todo|
      {
        var id :| id in todo;
        SweepStep(known, list, cutoff, todo, stale, agentsMap, agents, id);
        var gone := ForgetIfStale(id, cutoff);
        stale := if gone then stale + {id} else stale;
        todo := todo - {id};
      }
      SweepEnd(known, list, cutoff, stale, agentsMap, agents);
    }

    method ForgetIfStale(id: string, cutoff: int) returns (gone: bool)
      requires Linked() && id in agentsMap
      modifies this`agentsMap, this`agents, this`lruIdx, lru, lru.repr
      ensures Linked() && lru.repr == old(lru.repr)
      ensures gone == (old(agentsMap)[id].lastHeartbeat < cutoff)
      ensures agentsMap == if gone then old(agentsMap) - {id} else old(agentsMap)
      ensures agents == if gone then Without(old(agents), {id}) else old(agents)
    {
      gone := agentsMap[id].lastHeartbeat < cutoff;
      if gone {
        Forget(id, lruIdx[id]);
      }
    }

    method Forget(id: string, elem: Element)
      requires Linked() && id in lruIdx && lruIdx[id] == elem
      modifies this`agentsMap, this`agents, this`lruIdx, lru, lru.repr
      ensures Linked() && agentsMap == old(agentsMap) - {id}
      ensures lru.repr == old(lru.repr)
      ensures agents == Without(old(agents), {id})
    {
      ghost var k := Unlisting(agentsMap, lruIdx, lru.nodes, id);
      lru.RemoveAt(elem, k);
      agentsMap := agentsMap - {id};
      lruIdx := lruIdx - {id};
      agents := Without(agents, {id});
    }

    method UpsertAgentConfigStatus(status: Status)
      requires Valid()
      modifies this`statuses
      ensures Valid() && statuses == Reported(old(statuses), [status])
    {
      var key := StatusKey(status.instanceID, status.configName, status.configType);
      assert [status][..0] == [] && Reported(statuses, [status]) == StatusSet(statuses, status);
      if key in statuses || |statuses| < MAX_STATUSES {
        statuses := statuses[key := status];
      }
    }
  }

  // The registry after any run of heartbeats and collections holds the run's value, to
  // which the laws of recency apply.
  method Replay(ops: seq<Op>) returns (registry: AgentRegistry)
    ensures fresh(registry) && registry.Valid() && registry.agents == Run(ops)
  {
    registry := new AgentRegistry();
    assert ops[..0] == [];
    for i := 0 to |ops|
      invariant fresh(registry) && fresh(registry.lru) && fresh(registry.lru.repr)
      invariant registry.Valid() && registry.agents == Run(ops[..i])
    {
      assert ops[..i + 1][..i] == ops[..i];
      match ops[i]
      case Upsert(agent) => registry.UpsertAgent(agent);
      case Collect(cutoff) => var _ := registry.EvictStaleAgents(cutoff);
    }
    assert ops[..|ops|] == ops;
  }

  function StaleOf(agents: map<string, Agent>, cutoff: int): set<string> {
    set id | id in agents && agents[id].lastHeartbeat < cutoff
  }

  // Where the collector stands: `todo` is still to be visited, `stale` is forgotten.
  ghost predicate Sweep(agents0: map<string, Agent>, list0: seq<Agent>, cutoff: int,
                        todo: set<string>, stale: set<string>, agents: map<string, Agent>, list: seq<Agent>)
  {
    && todo <= agents0.Keys
    && stale == StaleOf(agents0, cutoff) - todo
    && agents == agents0 - stale
    && list == Without(list0, stale)
  }

  lemma SweepStart(agents: map<string, Agent>, list: seq<Agent>, cutoff: int)
    ensures Sweep(agents, list, cutoff, agents.Keys, {}, agents, list)
  {
    WithoutAbsent(list, {});
  }

  lemma SweepEnd(agents0: map<string, Agent>, list0: seq<Agent>, cutoff: int, stale: set<string>, agents: map<string, Agent>, list: seq<Agent>)
    requires Sweep(agents0, list0, cutoff, {}, stale, agents, list)
    ensures stale == StaleOf(agents0, cutoff) && list == Without(list0, stale)
  {}

  lemma SweepStep(agents0: map<string, Agent>, list0: seq<Agent>, cutoff: int,
                  todo: set<string>, stale: set<string>, agents: map<string, Agent>, list: seq<Agent>, id: string)
    requires Sweep(agents0, list0, cutoff, todo, stale, agents, list) && id in todo
    ensures id in agents
    ensures var gone := agents[id].lastHeartbeat < cutoff;
            Sweep(agents0, list0, cutoff, todo - {id}, if gone then stale + {id} else stale,
                  if gone then agents - {id} else agents, if gone then Without(list, {id}) else list)
  {
    WithoutTwice(list0, stale, id);
    assert (agents0 - stale) - {id} == agents0 - (stale + {id});
  }

  lemma StaleKeys(agents: map<string, Agent>, idx: map<string, Element>, nodes: seq<Element>, cutoff: int)
    requires Consistent(agents, idx, nodes) && NoRepeats(nodes)
    ensures Distinct(Listed(agents, nodes))
    ensures StaleOf(agents, cutoff) == StaleIds(Listed(agents, nodes), cutoff)
  {
    ListedShape(agents, idx, nodes);
    SameStale(agents, Listed(agents, nodes), cutoff);
  }

  lemma SameStale(agents: map<string, Agent>, list: seq<Agent>, cutoff: int)
    requires forall a :: a in list <==> a.instanceID in agents && agents[a.instanceID] == a
    requires forall id :: id in agents ==> agents[id].instanceID == id
    ensures StaleOf(agents, cutoff) == StaleIds(list, cutoff)
  {
    forall id | id in StaleOf(agents, cutoff) ensures id in StaleIds(list, cutoff) {
      assert agents[id] in list;
    }
  }
}
