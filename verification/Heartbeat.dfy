// Heartbeats for continuous configs: the server's diff against what an agent reports, an
// agent that applies it, and the detour over FetchConfig when the diff is too large.
module Heartbeat {
  import Fnv

  type Bytes = Fnv.Bytes

  const DELETED: int := -1
  const MAX_INLINE_BYTES: nat := 256 * 1024

  datatype ConfigInfo = ConfigInfo(name: string, version: int)

  datatype Config = Config(name: string, version: int, detail: Bytes)

  // ── The server's diff ───────────────────────────────────────────────────────

  // Reported versions by name; the last report of a name counts.
  function Index(infos: seq<ConfigInfo>): map<string, int> {
    if infos == [] then map[]
    else Index(infos[..|infos| - 1])[infos[|infos| - 1].name := infos[|infos| - 1].version]
  }

  method IndexConfigInfos(infos: seq<ConfigInfo>) returns (m: map<string, int>)
    ensures m == Index(infos)
  {
    m := map[];
    for i := 0 to |infos|
      invariant m == Index(infos[..i])
    {
      assert infos[..i + 1][..i] == infos[..i];
      m := m[infos[i].name := infos[i].version];
    }
    assert infos[..|infos|] == infos;
  }

  ghost predicate LastReport(infos: seq<ConfigInfo>, i: nat, name: string) {
    i < |infos| && infos[i].name == name && forall j :: i < j < |infos| ==> infos[j].name != name
  }

  // The index knows exactly the reported names, each with the version reported last.
  lemma {:induction false} IndexIsLastReport(infos: seq<ConfigInfo>, name: string)
    ensures name in Index(infos) <==> exists i: nat :: LastReport(infos, i, name)
    ensures forall i: nat :: LastReport(infos, i, name) ==> name in Index(infos) && Index(infos)[name] == infos[i].version
  {
    if infos != [] {
      var front, n := infos[..|infos| - 1], |infos| - 1;
      IndexIsLastReport(front, name);
      if infos[n].name == name {
        assert LastReport(infos, n, name);
        forall i: nat | LastReport(infos, i, name) ensures i == n {}
      } else {
        forall i: nat ensures LastReport(infos, i, name) <==> LastReport(front, i, name) {
          assert i < n ==> infos[i] == front[i];
          assert forall j :: 0 <= j < n ==> front[j] == infos[j];
        }
      }
    }
  }

  predicate UpToDate(c: Config, agent: map<string, int>, fullState: bool) {
    !fullState && c.name in agent && agent[c.name] == c.version
  }

  // The assigned configs the agent must be sent, in order; empty ones are not configured yet.
  function Pending(server: seq<Config>, agent: map<string, int>, fullState: bool): (pending: seq<Config>)
    ensures forall u :: u in pending <==> u in server && u.detail != [] && !UpToDate(u, agent, fullState)
  {
    if server == [] then []
    else
      var c := server[|server| - 1];
      Pending(server[..|server| - 1], agent, fullState) + (if c.detail == [] || UpToDate(c, agent, fullState) then [] else [c])
  }

  function AssignedNames(server: seq<Config>): set<string> {
    set c | c in server && c.detail != [] :: c.name
  }

  ghost predicate DistinctNames(configs: seq<Config>) {
    forall i, j :: 0 <= i < j < |configs| ==> configs[i].name != configs[j].name
  }

  // Deletions of what the agent has and is not assigned, each name once, in any order.
  ghost predicate AreDeletions(deletions: seq<Config>, names: set<string>) {
    && DistinctNames(deletions)
    && (forall d :: d in deletions ==> d == Config(d.name, DELETED, []) && d.name in names)
    && (forall name :: name in names ==> Config(name, DELETED, []) in deletions)
  }

  ghost predicate IsDiff(server: seq<Config>, agent: map<string, int>, fullState: bool, updates: seq<Config>) {
    var n := |Pending(server, agent, fullState)|;
    && n <= |updates|
    && updates[..n] == Pending(server, agent, fullState)
    && AreDeletions(updates[n..], agent.Keys - AssignedNames(server))
  }

  // Each update is an assigned config with content, or deletes a reported name; every
  // reported name without one is deleted.
  lemma DiffMarks(server: seq<Config>, agent: map<string, int>, fullState: bool, updates: seq<Config>)
    requires IsDiff(server, agent, fullState, updates)
    ensures forall u :: u in updates ==> (u in server && u.detail != []) || (u.version == -1 && u.detail == [] && u.name in agent)
    ensures forall name :: name in agent && (forall c :: c in server && c.name == name ==> c.detail == []) ==>
              Config(name, -1, []) in updates
  {
    forall u | u in updates ensures (u in server && u.detail != []) || (u.version == -1 && u.detail == [] && u.name in agent) {
      DiffMembers(server, agent, fullState, updates, u);
    }
    forall name | name in agent && (forall c :: c in server && c.name == name ==> c.detail == [])
      ensures Config(name, -1, []) in updates
    {
      DiffMembers(server, agent, fullState, updates, Config(name, DELETED, []));
    }
  }

  method DiffConfigs(server: seq<Config>, infos: seq<ConfigInfo>, fullState: bool) returns (updates: seq<Config>)
    ensures IsDiff(server, Index(infos), fullState, updates)
    ensures forall u :: u in updates ==>
              || (u in server && u.detail != [])
              || (u.version == -1 && u.detail == [] && u.name in Index(infos))
    ensures forall name :: name in Index(infos) && (forall c :: c in server && c.name == name ==> c.detail == []) ==>
              Config(name, -1, []) in updates
  {
    var agent := IndexConfigInfos(infos);
    updates := [];
    for i := 0 to |server|
      invariant updates == Pending(server[..i], agent, fullState)
    {
      assert server[..i + 1][..i] == server[..i];
      if |server[i].detail| == 0 {
        continue;
      }
      if !fullState && server[i].name in agent && agent[server[i].name] == server[i].version {
        continue;
      }
      updates := updates + [server[i]];
    }
    assert server[..|server|] == server;
    var deletions := DeleteUnassigned(agent.Keys, AssignedNames(server));
    updates := updates + deletions;
    assert updates[|updates| - |deletions|..] == deletions;
    DiffMarks(server, agent, fullState, updates);
  }

  // The reported names are visited in no particular order.
  method DeleteUnassigned(reported: set<string>, wanted: set<string>) returns (deletions: seq<Config>)
    ensures AreDeletions(deletions, reported - wanted)
  {
    deletions := [];
    var todo := reported;
    while todo != {}
      invariant todo <= reported
      invariant AreDeletions(deletions, reported - wanted - todo)
      decreases |todo|
    {
      var name :| name in todo;
      todo := todo - {name};
      if name !in wanted {
        deletions := deletions + [Config(name, DELETED, [])];
      }
    }
  }

  // ── The agent ───────────────────────────────────────────────────────────────

  datatype Held = Held(version: int, detail: Bytes)

  type AgentState = map<string, Held>

  function ApplyOne(state: AgentState, u: Config): AgentState {
    if u.version == DELETED then state - {u.name} else state[u.name := Held(u.version, u.detail)]
  }

  function Apply(state: AgentState, updates: seq<Config>): AgentState {
    if updates == [] then state else ApplyOne(Apply(state, updates[..|updates| - 1]), updates[|updates| - 1])
  }

  function Versions(state: AgentState): map<string, int> {
    map name | name in state :: state[name].version
  }

  ghost predicate Shows(state: AgentState, u: Config) {
    if u.version == DELETED then u.name !in state else u.name in state && state[u.name] == Held(u.version, u.detail)
  }

  ghost predicate SameAt(s: AgentState, t: AgentState, name: string) {
    (name in s <==> name in t) && (name in s ==> s[name] == t[name])
  }

  ghost predicate Absent(updates: seq<Config>, name: string) {
    forall u :: u in updates ==> u.name != name
  }

  // With one update per name the order does not matter: each takes effect, the rest stays.
  lemma {:induction false} ApplyLeaves(state: AgentState, updates: seq<Config>, name: string)
    requires Absent(updates, name)
    ensures SameAt(state, Apply(state, updates), name)
  {
    if updates != [] {
      ApplyLeaves(state, updates[..|updates| - 1], name);
      assert updates[|updates| - 1] in updates;
    }
  }

  lemma {:induction false} ApplyShows(state: AgentState, updates: seq<Config>, u: Config)
    requires DistinctNames(updates) && u in updates
    ensures Shows(Apply(state, updates), u)
  {
    var front, last := updates[..|updates| - 1], updates[|updates| - 1];
    if u != last {
      assert updates == front + [last];
      LastIsNew(updates);
      ApplyShows(state, front, u);
    }
  }

  lemma LastIsNew(updates: seq<Config>)
    requires DistinctNames(updates) && updates != []
    ensures DistinctNames(updates[..|updates| - 1])
    ensures Absent(updates[..|updates| - 1], updates[|updates| - 1].name)
  {
    var front := updates[..|updates| - 1];
    forall u | u in front ensures u.name != updates[|updates| - 1].name {
      var i :| 0 <= i < |front| && front[i] == u;
      assert updates[i].name != updates[|updates| - 1].name;
    }
  }

  lemma {:induction false} PendingDistinct(server: seq<Config>, agent: map<string, int>, fullState: bool)
    requires DistinctNames(server)
    ensures DistinctNames(Pending(server, agent, fullState))
  {
    if server != [] {
      var front, last := server[..|server| - 1], server[|server| - 1];
      PendingDistinct(front, agent, fullState);
      var pending := Pending(front, agent, fullState);
      forall i | 0 <= i < |pending| ensures pending[i].name != last.name {
        assert pending[i] in pending && pending[i] in front;
        var j :| 0 <= j < |front| && front[j] == pending[i];
        assert server[j].name != server[|server| - 1].name;
      }
    }
  }

  // A diff names every config at most once.
  lemma DiffIsDistinct(server: seq<Config>, agent: map<string, int>, fullState: bool, updates: seq<Config>)
    requires DistinctNames(server) && IsDiff(server, agent, fullState, updates)
    ensures DistinctNames(updates)
  {
    var pending := Pending(server, agent, fullState);
    var n := |pending|;
    PendingDistinct(server, agent, fullState);
    forall i, j | 0 <= i < j < |updates| ensures updates[i].name != updates[j].name {
      if i < n {
        assert updates[i] == updates[..n][i] && updates[i] in pending;
        if j >= n {
          assert updates[j] == updates[n..][j - n] && updates[j] in updates[n..];
        } else {
          assert updates[j] == updates[..n][j];
        }
      } else {
        assert updates[i] == updates[n..][i - n] && updates[j] == updates[n..][j - n];
      }
    }
  }

  lemma DiffMembers(server: seq<Config>, agent: map<string, int>, fullState: bool, updates: seq<Config>, u: Config)
    requires IsDiff(server, agent, fullState, updates)
    ensures u in updates <==> u in Pending(server, agent, fullState) ||
                              (u == Config(u.name, DELETED, []) && u.name in agent && u.name !in AssignedNames(server))
  {
    var n := |Pending(server, agent, fullState)|;
    assert updates == updates[..n] + updates[n..];
  }

  // ── Convergence ─────────────────────────────────────────────────────────────

  // Versions are issued by the clock, so none is the deletion mark.
  ghost predicate Issued(server: seq<Config>) {
    forall c :: c in server ==> c.version != DELETED
  }

  // What the agent holds at an assigned version has that version's content.
  ghost predicate SameContent(state: AgentState, server: seq<Config>) {
    forall c :: c in server && c.name in state && state[c.name].version == c.version ==> state[c.name].detail == c.detail
  }

  ghost predicate Converged(state: AgentState, server: seq<Config>) {
    && state.Keys == AssignedNames(server)
    && forall c :: c in server && c.detail != [] ==> c.name in state && state[c.name].version == c.version
  }

  // One heartbeat brings any agent to exactly the assigned configs at the server's
  // versions, and to their contents when versions identify contents or the full state
  // was sent.
  lemma HeartbeatConverges(state: AgentState, server: seq<Config>, fullState: bool, updates: seq<Config>)
    requires DistinctNames(server) && Issued(server)
    requires IsDiff(server, Versions(state), fullState, updates)
    ensures Converged(Apply(state, updates), server)
    ensures fullState || SameContent(state, server) ==>
              forall c :: c in server && c.detail != [] ==> Apply(state, updates)[c.name].detail == c.detail
  {
    var agent, after := Versions(state), Apply(state, updates);
    DiffIsDistinct(server, agent, fullState, updates);
    forall c | c in server && c.detail != []
      ensures c.name in after && after[c.name].version == c.version
      ensures fullState || SameContent(state, server) ==> after[c.name].detail == c.detail
    {
      DiffMembers(server, agent, fullState, updates, c);
      if UpToDate(c, agent, fullState) {
        UpToDateIsUntouched(server, agent, fullState, updates, c);
        ApplyLeaves(state, updates, c.name);
      } else {
        ApplyShows(state, updates, c);
      }
    }
    forall name | name !in AssignedNames(server) ensures name !in after {
      var d := Config(name, DELETED, []);
      DiffMembers(server, agent, fullState, updates, d);
      if name in state {
        ApplyShows(state, updates, d);
      } else {
        forall u | u in updates ensures u.name != name {
          DiffMembers(server, agent, fullState, updates, u);
        }
        ApplyLeaves(state, updates, name);
      }
    }
  }

  lemma UpToDateIsUntouched(server: seq<Config>, agent: map<string, int>, fullState: bool, updates: seq<Config>, c: Config)
    requires DistinctNames(server) && IsDiff(server, agent, fullState, updates)
    requires c in server && c.detail != [] && UpToDate(c, agent, fullState)
    ensures Absent(updates, c.name)
  {
    forall u | u in updates ensures u.name != c.name {
      DiffMembers(server, agent, fullState, updates, u);
      if u.name == c.name {
        assert c.name in AssignedNames(server);
        SameName(server, u, c);
      }
    }
  }

  lemma SameName(configs: seq<Config>, u: Config, c: Config)
    requires DistinctNames(configs) && u in configs && c in configs && u.name == c.name
    ensures u == c
  {
    var i :| 0 <= i < |configs| && configs[i] == u;
    var j :| 0 <= j < |configs| && configs[j] == c;
    assert i == j;
  }

  // Whatever the agent held under the name at another version, one heartbeat brings it to
  // the assigned version and content; what is not assigned, or empty, is gone.
  lemma OutdatedIsReplaced(state: AgentState, server: seq<Config>, fullState: bool, updates: seq<Config>, c: Config)
    requires DistinctNames(server) && IsDiff(server, Versions(state), fullState, updates)
    requires c in server && c.detail != [] && c.version != DELETED
    requires fullState || c.name !in state || state[c.name].version != c.version
    ensures c.name in Apply(state, updates) && Apply(state, updates)[c.name] == Held(c.version, c.detail)
  {
    DiffIsDistinct(server, Versions(state), fullState, updates);
    DiffMembers(server, Versions(state), fullState, updates, c);
    ApplyShows(state, updates, c);
  }

  lemma UnassignedIsRemoved(state: AgentState, server: seq<Config>, fullState: bool, updates: seq<Config>, name: string)
    requires DistinctNames(server) && Issued(server) && IsDiff(server, Versions(state), fullState, updates)
    requires forall c :: c in server && c.name == name ==> c.detail == []
    ensures name !in Apply(state, updates)
  {
    HeartbeatConverges(state, server, fullState, updates);
  }

  // After that the server is silent: the next diff of an unchanged assignment is empty.
  lemma NextHeartbeatIsEmpty(state: AgentState, server: seq<Config>, updates: seq<Config>)
    requires DistinctNames(server) && Converged(state, server)
    requires IsDiff(server, Versions(state), false, updates)
    ensures updates == []
  {
    if updates != [] {
      assert updates[0] in updates;
      DiffMembers(server, Versions(state), false, updates, updates[0]);
    }
  }

  // ── Oversized responses ─────────────────────────────────────────────────────

  function TotalBytes(updates: seq<Config>): nat {
    if updates == [] then 0 else TotalBytes(updates[..|updates| - 1]) + |updates[|updates| - 1].detail|
  }

  // The bytes of a list are those of its parts, and of one config those of its detail.
  lemma {:induction false} TotalBytesAdds(a: seq<Config>, b: seq<Config>, c: Config)
    ensures TotalBytes(a + b) == TotalBytes(a) + TotalBytes(b)
    ensures TotalBytes([]) == 0 && TotalBytes([c]) == |c.detail|
  {
    assert [c][..0] == [];
    if b == [] {
      assert a + b == a;
    } else {
      TotalBytesAdds(a, b[..|b| - 1], c);
      assert (a + b)[..|a + b| - 1] == a + b[..|b| - 1];
    }
  }

  function Stripped(updates: seq<Config>): seq<Config> {
    seq(|updates|, i requires 0 <= i < |updates| => updates[i].(detail := []))
  }

  method StripOversized(updates: seq<Config>) returns (fetch: bool, sent: seq<Config>)
    ensures fetch <==> TotalBytes(updates) > 262144
    ensures sent == if fetch then Stripped(updates) else updates
    ensures fetch ==> |sent| == |updates| && forall i :: 0 <= i < |sent| ==> sent[i] == Config(updates[i].name, updates[i].version, [])
  {
    var total := 0;
    for i := 0 to |updates|
      invariant total == TotalBytes(updates[..i])
    {
      assert updates[..i + 1][..i] == updates[..i];
      total := total + |updates[i].detail|;
    }
    assert updates[..|updates|] == updates;
    fetch, sent := total > MAX_INLINE_BYTES, updates;
    if fetch {
      for i := 0 to |sent|
        invariant |sent| == |updates|
        invariant forall k :: 0 <= k < |sent| ==> sent[k] == if k < i then updates[k].(detail := []) else updates[k]
      {
        sent := sent[i := sent[i].(detail := [])];
      }
    }
  }

  // FetchConfig looks the names up in the stable configs, without canaries.
  function FetchOne(rows: map<string, Held>, info: ConfigInfo): seq<Config> {
    if info.name !in rows then [Config(info.name, DELETED, [])]
    else if rows[info.name].detail == [] then []
    else if rows[info.name].version != info.version then [Config(info.name, rows[info.name].version, rows[info.name].detail)]
    else []
  }

  function Fetch(rows: map<string, Held>, request: seq<ConfigInfo>): seq<Config> {
    if request == [] then [] else Fetch(rows, request[..|request| - 1]) + FetchOne(rows, request[|request| - 1])
  }

  method FetchConfig(rows: map<string, Held>, request: seq<ConfigInfo>) returns (updates: seq<Config>)
    ensures updates == Fetch(rows, request)
  {
    updates := [];
    for i := 0 to |request|
      invariant updates == Fetch(rows, request[..i])
    {
      assert request[..i + 1][..i] == request[..i];
      var info := request[i];
      if info.name !in rows {
        updates := updates + [Config(info.name, DELETED, [])];
        continue;
      }
      var row := rows[info.name];
      if |row.detail| == 0 {
        continue;
      }
      if row.version != info.version {
        updates := updates + [Config(info.name, row.version, row.detail)];
      }
    }
    assert request[..|request|] == request;
  }

  // An agent asks for a name with the version it holds, or with 0, which no row has.
  function Ask(state: AgentState, name: string): ConfigInfo {
    ConfigInfo(name, if name in state then state[name].version else 0)
  }

  ghost predicate DistinctInfos(request: seq<ConfigInfo>) {
    forall i, j :: 0 <= i < j < |request| ==> request[i].name != request[j].name
  }

  lemma {:induction false} FetchMembers(rows: map<string, Held>, request: seq<ConfigInfo>, u: Config)
    ensures u in Fetch(rows, request) <==> exists info :: info in request && u in FetchOne(rows, info)
  {
    if request != [] {
      var front, last := request[..|request| - 1], request[|request| - 1];
      assert request == front + [last];
      FetchMembers(rows, front, u);
    }
  }

  lemma OneMoreDistinct(a: seq<Config>, b: seq<Config>, name: string)
    requires DistinctNames(a) && Absent(a, name) && |b| <= 1 && forall u :: u in b ==> u.name == name
    ensures DistinctNames(a + b)
  {
    forall i | 0 <= i < |a| ensures a[i].name != name { assert a[i] in a; }
    assert |b| == 1 ==> b[0] in b;
  }

  lemma FetchedNames(rows: map<string, Held>, request: seq<ConfigInfo>, name: string)
    requires forall info :: info in request ==> info.name != name
    ensures Absent(Fetch(rows, request), name)
  {
    forall u | u in Fetch(rows, request) ensures u.name != name {
      FetchMembers(rows, request, u);
      var info :| info in request && u in FetchOne(rows, info);
    }
  }

  lemma {:induction false} FetchDistinct(rows: map<string, Held>, request: seq<ConfigInfo>)
    requires DistinctInfos(request)
    ensures DistinctNames(Fetch(rows, request))
  {
    if request != [] {
      var front, last := request[..|request| - 1], request[|request| - 1];
      FetchDistinct(rows, front);
      forall info | info in front ensures info.name != last.name {
        var k :| 0 <= k < |front| && front[k] == info;
        assert request[k].name != request[|request| - 1].name;
      }
      FetchedNames(rows, front, last.name);
      OneMoreDistinct(Fetch(rows, front), FetchOne(rows, last), last.name);
    }
  }

  // What a fetch does to the agent that applies it: every name it asked for is at its
  // stable row afterwards, or gone if it has none, or untouched if the row is empty; the
  // names it did not ask for are untouched.
  lemma FetchBringsStable(state: AgentState, rows: map<string, Held>, request: seq<ConfigInfo>, name: string)
    requires DistinctInfos(request) && forall info :: info in request ==> info == Ask(state, info.name)
    requires forall n :: n in rows ==> rows[n].version > 0
    ensures var after := Apply(state, Fetch(rows, request));
            if Ask(state, name) !in request then SameAt(state, after, name)
            else if name !in rows then name !in after
            else if rows[name].detail == [] then SameAt(state, after, name)
            else name in after && after[name] ==
                 if name in state && state[name].version == rows[name].version then state[name] else rows[name]
  {
    var updates := Fetch(rows, request);
    FetchDistinct(rows, request);
    var answer := FetchOne(rows, Ask(state, name));
    if Ask(state, name) in request && answer != [] {
      FetchMembers(rows, request, answer[0]);
      ApplyShows(state, updates, answer[0]);
    } else {
      forall u | u in updates ensures u.name != name {
        FetchMembers(rows, request, u);
        var info :| info in request && u in FetchOne(rows, info);
        assert info == Ask(state, info.name);
      }
      ApplyLeaves(state, updates, name);
    }
  }

  // The agent applies the deletions at once and asks for the rest.
  function Deletions(updates: seq<Config>): seq<Config> {
    if updates == [] then []
    else Deletions(updates[..|updates| - 1]) + (if updates[|updates| - 1].version == DELETED then [updates[|updates| - 1]] else [])
  }

  function Request(state: AgentState, updates: seq<Config>): seq<ConfigInfo> {
    if updates == [] then []
    else
      var u := updates[|updates| - 1];
      Request(state, updates[..|updates| - 1]) + (if u.version == DELETED then [] else [Ask(state, u.name)])
  }

  function TwoPhase(state: AgentState, rows: map<string, Held>, updates: seq<Config>): AgentState {
    Apply(Apply(state, Deletions(updates)), Fetch(rows, Request(state, updates)))
  }

  lemma {:induction false} DeletionMembers(updates: seq<Config>)
    requires DistinctNames(updates)
    ensures DistinctNames(Deletions(updates))
    ensures forall u :: u in Deletions(updates) <==> u in updates && u.version == DELETED
  {
    if updates != [] {
      var front, last := updates[..|updates| - 1], updates[|updates| - 1];
      DeletionMembers(front);
      assert updates == front + [last];
      LastIsNew(updates);
    }
  }

  lemma {:induction false} RequestMembers(state: AgentState, updates: seq<Config>)
    requires DistinctNames(updates)
    ensures DistinctInfos(Request(state, updates))
    ensures forall info :: info in Request(state, updates) <==>
              exists u :: u in updates && u.version != DELETED && info == Ask(state, u.name)
  {
    if updates != [] {
      var front, last := updates[..|updates| - 1], updates[|updates| - 1];
      RequestMembers(state, front);
      assert updates == front + [last];
      LastIsNew(updates);
      var r := Request(state, front);
      forall i | 0 <= i < |r| ensures r[i].name != last.name {
        assert r[i] in r;
        var u :| u in front && u.version != DELETED && r[i] == Ask(state, u.name);
      }
    }
  }

  // The deletions leave the names that are asked for alone.
  lemma RequestFitsRest(state: AgentState, updates: seq<Config>)
    requires DistinctNames(updates)
    ensures DistinctInfos(Request(state, updates))
    ensures var mid := Apply(state, Deletions(updates));
            && (forall u :: u in updates && u.version != DELETED ==> SameAt(state, mid, u.name) && Ask(mid, u.name) in Request(state, updates))
            && (forall info :: info in Request(state, updates) ==>
                  info == Ask(mid, info.name) && exists u :: u in updates && u.version != DELETED && u.name == info.name)
  {
    var mid := Apply(state, Deletions(updates));
    DeletionMembers(updates);
    RequestMembers(state, updates);
    forall u | u in updates && u.version != DELETED ensures SameAt(state, mid, u.name) && Ask(mid, u.name) == Ask(state, u.name) {
      forall d | d in Deletions(updates) ensures d.name != u.name {
        if d.name == u.name { SameName(updates, d, u); }
      }
      ApplyLeaves(state, Deletions(updates), u.name);
    }
    forall info | info in Request(state, updates)
      ensures info == Ask(mid, info.name) && exists u :: u in updates && u.version != DELETED && u.name == info.name
    {
      var u :| u in updates && u.version != DELETED && info == Ask(state, u.name);
    }
  }

  // Versions identify contents, across the agent, the stable rows and the updates, and no
  // version is the deletion mark or the reserved zero. Rows may be empty.
  ghost predicate VersionsIdentify(state: AgentState, rows: map<string, Held>, updates: seq<Config>) {
    && (forall name :: name in rows ==> rows[name].version > 0)
    && (forall u :: u in updates ==> u.version == DELETED || u.version > 0)
    && (forall u :: u in updates && HasRow(rows, u.name) && rows[u.name].version == u.version ==> rows[u.name].detail == u.detail)
    && (forall name :: name in state && HasRow(rows, name) && state[name].version == rows[name].version ==> state[name] == rows[name])
  }

  predicate HasRow(rows: map<string, Held>, name: string) { name in rows && rows[name].detail != [] }

  // FetchConfig can deliver a pending entry: the stable row has its version, or is empty
  // while the agent has the entry already.
  predicate FetchDelivers(state: AgentState, rows: map<string, Held>, u: Config) {
    u.name in rows &&
    if rows[u.name].detail == [] then u.name in state && state[u.name] == Held(u.version, u.detail)
    else rows[u.name].version == u.version
  }

  lemma TwoPhaseOfPending(state: AgentState, rows: map<string, Held>, updates: seq<Config>, u: Config)
    requires DistinctNames(updates) && VersionsIdentify(state, rows, updates)
    requires u in updates && u.version != DELETED
    ensures Shows(TwoPhase(state, rows, updates), u) <==> FetchDelivers(state, rows, u)
  {
    var mid := Apply(state, Deletions(updates));
    RequestFitsRest(state, updates);
    assert SameAt(state, mid, u.name) && Ask(mid, u.name) in Request(state, updates);
    FetchBringsStable(mid, rows, Request(state, updates), u.name);
    if HasRow(rows, u.name) {
      assert u.name in state && state[u.name].version == rows[u.name].version ==> state[u.name] == rows[u.name];
      assert TwoPhase(state, rows, updates)[u.name] == rows[u.name];
    }
  }

  lemma TwoPhaseElsewhere(state: AgentState, rows: map<string, Held>, updates: seq<Config>, name: string)
    requires DistinctNames(updates) && VersionsIdentify(state, rows, updates)
    requires forall u :: u in updates && u.version != DELETED ==> u.name != name
    ensures SameAt(TwoPhase(state, rows, updates), Apply(state, updates), name)
  {
    RequestFitsRest(state, updates);
    FetchBringsStable(Apply(state, Deletions(updates)), rows, Request(state, updates), name);
    DeletionMembers(updates);
    if u :| u in updates && u.name == name {
      ApplyShows(state, Deletions(updates), u);
      ApplyShows(state, updates, u);
    } else {
      ApplyLeaves(state, Deletions(updates), name);
      ApplyLeaves(state, updates, name);
    }
  }

  ghost predicate AllDelivered(state: AgentState, rows: map<string, Held>, updates: seq<Config>) {
    forall u :: u in updates && u.version != DELETED ==> FetchDelivers(state, rows, u)
  }

  // The detour reaches the state of inline delivery if and only if FetchConfig can deliver
  // every pending entry, which fails for those under a canary.
  lemma TwoPhaseIsInline(state: AgentState, rows: map<string, Held>, updates: seq<Config>)
    requires DistinctNames(updates) && VersionsIdentify(state, rows, updates)
    ensures TwoPhase(state, rows, updates) == Apply(state, updates) <==> AllDelivered(state, rows, updates)
  {
    var two, one := TwoPhase(state, rows, updates), Apply(state, updates);
    forall u | u in updates && u.version != DELETED
      ensures Shows(one, u) && (Shows(two, u) <==> FetchDelivers(state, rows, u))
    {
      ApplyShows(state, updates, u);
      TwoPhaseOfPending(state, rows, updates, u);
    }
    if AllDelivered(state, rows, updates) {
      forall name ensures SameAt(two, one, name) {
        if u :| u in updates && u.version != DELETED && u.name == name {
          assert Shows(one, u) && Shows(two, u);
        } else {
          TwoPhaseElsewhere(state, rows, updates, name);
        }
      }
      SameEverywhere(two, one);
    }
  }

  lemma SameEverywhere(s: AgentState, t: AgentState)
    requires forall name :: SameAt(s, t, name)
    ensures s == t
  {
    assert forall name :: name in s <==> name in t by {
      forall name ensures name in s <==> name in t { assert SameAt(s, t, name); }
    }
    forall name | name in s ensures s[name] == t[name] { assert SameAt(s, t, name); }
  }

  // Stripping the details changes nothing about deletions and requests.
  lemma {:induction false} StrippedAsksTheSame(state: AgentState, updates: seq<Config>)
    requires forall u :: u in updates && u.version == DELETED ==> u.detail == []
    ensures Request(state, Stripped(updates)) == Request(state, updates)
    ensures Deletions(Stripped(updates)) == Deletions(updates)
  {
    if updates != [] {
      var front, last := updates[..|updates| - 1], updates[|updates| - 1];
      assert updates == front + [last];
      StrippedAsksTheSame(state, front);
      assert Stripped(updates)[..|updates| - 1] == Stripped(front);
    }
  }

  // With a canary on a pending config the detour leaves the agent on the stable version,
  // or without any if the stable row is empty.
  lemma CanaryIsLostInTwoPhases(name: string, stable: Held, canary: Held)
    requires 0 < stable.version && 0 < canary.version && stable.version != canary.version
    ensures var rows, updates := map[name := stable], [Config(name, canary.version, canary.detail)];
            && Apply(map[], updates) == map[name := canary]
            && TwoPhase(map[], rows, updates) == if stable.detail == [] then map[] else map[name := stable]
  {
    var u := Config(name, canary.version, canary.detail);
    ApplyOnly(map[], u);
    OnlyRequest(map[], u);
    var rows := map[name := stable];
    OnlyFetch(rows, Ask(map[], name));
    if stable.detail != [] {
      ApplyOnly(map[], Config(name, stable.version, stable.detail));
    }
  }

  lemma ApplyOnly(state: AgentState, u: Config)
    ensures Apply(state, [u]) == ApplyOne(state, u)
  {
    var updates := [u];
    assert updates[..0] == [];
  }

  lemma OnlyRequest(state: AgentState, u: Config)
    requires u.version != DELETED
    ensures Deletions([u]) == [] && Request(state, [u]) == [Ask(state, u.name)]
  {
    var updates := [u];
    assert updates[..0] == [] && Request(state, []) == [];
  }

  lemma OnlyFetch(rows: map<string, Held>, info: ConfigInfo)
    ensures Fetch(rows, [info]) == FetchOne(rows, info)
  {
    var request := [info];
    assert request[..0] == [] && Fetch(rows, []) == [];
  }
}
