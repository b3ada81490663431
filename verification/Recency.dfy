// The agent registry as a value: the agents in recency order, newest first. What every
// run of heartbeats and collections keeps is proved here.
module Recency {
  datatype Agent = Agent(instanceID: string, lastHeartbeat: int, attributes: string)

  const MAX_AGENTS: nat := 100_000

  predicate Distinct(agents: seq<Agent>) {
    forall i, j :: 0 <= i < j < |agents| ==> agents[i].instanceID != agents[j].instanceID
  }

  predicate Present(agents: seq<Agent>, id: string) {
    exists i :: 0 <= i < |agents| && agents[i].instanceID == id
  }

  // The agents whose id is not in `gone`, in order.
  function Without(agents: seq<Agent>, gone: set<string>): (kept: seq<Agent>)
    ensures |kept| <= |agents|
  {
    if agents == [] then []
    else (if agents[0].instanceID in gone then [] else [agents[0]]) + Without(agents[1..], gone)
  }

  // The agents whose last heartbeat is not before the cutoff, in order.
  function NotBefore(agents: seq<Agent>, cutoff: int): (kept: seq<Agent>)
    ensures |kept| <= |agents|
  {
    if agents == [] then []
    else (if agents[0].lastHeartbeat < cutoff then [] else [agents[0]]) + NotBefore(agents[1..], cutoff)
  }

  function DropOldest(agents: seq<Agent>): seq<Agent> {
    if agents == [] then [] else agents[..|agents| - 1]
  }

  function Upserted(agents: seq<Agent>, agent: Agent): seq<Agent> {
    if Present(agents, agent.instanceID) then [agent] + Without(agents, {agent.instanceID})
    else if |agents| >= MAX_AGENTS then [agent] + DropOldest(agents)
    else [agent] + agents
  }

  lemma {:induction false} WithoutMembers(agents: seq<Agent>, gone: set<string>, a: Agent)
    ensures a in Without(agents, gone) <==> a in agents && a.instanceID !in gone
  {
    if agents != [] {
      WithoutMembers(agents[1..], gone, a);
    }
  }

  // Collecting keeps exactly the agents heard of since the cutoff.
  lemma {:induction false} CollectKeepsFresh(agents: seq<Agent>, cutoff: int, a: Agent)
    ensures a in NotBefore(agents, cutoff) <==> a in agents && a.lastHeartbeat >= cutoff
  {
    if agents != [] {
      CollectKeepsFresh(agents[1..], cutoff, a);
    }
  }

  // ── Removing one agent ──────────────────────────────────────────────────────

  lemma {:induction false} WithoutAbsent(agents: seq<Agent>, gone: set<string>)
    requires forall a :: a in agents ==> a.instanceID !in gone
    ensures Without(agents, gone) == agents
  {
    if agents != [] {
      WithoutAbsent(agents[1..], gone);
    }
  }

  lemma CutBehindFirst(agents: seq<Agent>, k: nat)
    requires 0 < k < |agents|
    ensures agents[1..][k - 1] == agents[k]
    ensures agents[..k] + agents[k + 1..] == [agents[0]] + (agents[1..][..k - 1] + agents[1..][k..])
  {
    assert agents[..k] == [agents[0]] + agents[1..][..k - 1] && agents[k + 1..] == agents[1..][k..];
  }

  lemma {:induction false} WithoutOne(agents: seq<Agent>, k: nat)
    requires Distinct(agents) && k < |agents|
    ensures Without(agents, {agents[k].instanceID}) == agents[..k] + agents[k + 1..]
  {
    TailDistinct(agents);
    if k == 0 {
      WithoutAbsent(agents[1..], {agents[0].instanceID});
    } else {
      WithoutOne(agents[1..], k - 1);
      CutBehindFirst(agents, k);
    }
  }

  lemma TailDistinct(agents: seq<Agent>)
    requires Distinct(agents) && agents != []
    ensures Distinct(agents[1..]) && forall a :: a in agents[1..] ==> a.instanceID != agents[0].instanceID
  {
    var rest := agents[1..];
    assert forall i :: 0 <= i < |rest| ==> rest[i] == agents[i + 1];
    forall a | a in rest ensures a.instanceID != agents[0].instanceID {
      var j :| 0 <= j < |rest| && rest[j] == a;
      assert agents[j + 1].instanceID != agents[0].instanceID;
    }
  }

  lemma WithoutLast(agents: seq<Agent>)
    requires Distinct(agents) && agents != []
    ensures Without(agents, {agents[|agents| - 1].instanceID}) == DropOldest(agents)
  {
    var n := |agents| - 1;
    WithoutOne(agents, n);
    assert agents[n + 1..] == [] && agents[..n] + [] == agents[..n];
  }

  lemma {:induction false} WithoutTwice(agents: seq<Agent>, gone: set<string>, id: string)
    ensures Without(Without(agents, gone), {id}) == Without(agents, gone + {id})
  {
    if agents != [] {
      WithoutTwice(agents[1..], gone, id);
      var rest := Without(agents[1..], gone);
      if agents[0].instanceID in gone {
        assert Without(agents, gone) == rest;
      } else {
        assert Without(agents, gone)[0] == agents[0] && Without(agents, gone)[1..] == rest;
      }
    }
  }

  lemma {:induction false} WithoutStale(agents: seq<Agent>, gone: set<string>, cutoff: int)
    requires forall a :: a in agents ==> (a.instanceID in gone <==> a.lastHeartbeat < cutoff)
    ensures Without(agents, gone) == NotBefore(agents, cutoff)
  {
    if agents != [] {
      WithoutStale(agents[1..], gone, cutoff);
    }
  }

  function StaleIds(agents: seq<Agent>, cutoff: int): set<string> {
    set a | a in agents && a.lastHeartbeat < cutoff :: a.instanceID
  }

  lemma CollectIsWithout(agents: seq<Agent>, cutoff: int)
    requires Distinct(agents)
    ensures Without(agents, StaleIds(agents, cutoff)) == NotBefore(agents, cutoff)
  {
    forall a | a in agents && a.instanceID in StaleIds(agents, cutoff) ensures a.lastHeartbeat < cutoff {
      var b :| b in agents && b.lastHeartbeat < cutoff && b.instanceID == a.instanceID;
      var i :| 0 <= i < |agents| && agents[i] == a;
      var j :| 0 <= j < |agents| && agents[j] == b;
      assert i == j;
    }
    WithoutStale(agents, StaleIds(agents, cutoff), cutoff);
  }

  // ── Runs ────────────────────────────────────────────────────────────────────

  datatype Op = Upsert(agent: Agent) | Collect(cutoff: int)

  function Apply(agents: seq<Agent>, op: Op): seq<Agent> {
    match op
    case Upsert(agent) => Upserted(agents, agent)
    case Collect(cutoff) => NotBefore(agents, cutoff)
  }

  function Run(ops: seq<Op>): seq<Agent> {
    if ops == [] then [] else Apply(Run(ops[..|ops| - 1]), ops[|ops| - 1])
  }

  // The last step of the run that upserted the id, or -1.
  function LastUpsert(ops: seq<Op>, id: string): (n: int)
    ensures -1 <= n < |ops|
    ensures n >= 0 ==> ops[n].Upsert?
  {
    if ops == [] then -1
    else
      var last := ops[|ops| - 1];
      if last.Upsert? && last.agent.instanceID == id then |ops| - 1 else LastUpsert(ops[..|ops| - 1], id)
  }

  // Listed agents carry their last upserted state, the most recently upserted first.
  ghost predicate RecencyOrdered(agents: seq<Agent>, ops: seq<Op>) {
    agents == [] ||
    (&& UpToDate(agents[0], ops)
     && (forall a :: a in agents[1..] ==> LastUpsert(ops, a.instanceID) < LastUpsert(ops, agents[0].instanceID))
     && RecencyOrdered(agents[1..], ops))
  }

  ghost predicate UpToDate(a: Agent, ops: seq<Op>) {
    var n := LastUpsert(ops, a.instanceID);
    n >= 0 && ops[n] == Upsert(a)
  }

  lemma {:induction false} OrderedPairs(agents: seq<Agent>, ops: seq<Op>, i: nat, j: nat)
    requires RecencyOrdered(agents, ops) && i < j < |agents|
    ensures UpToDate(agents[i], ops) && UpToDate(agents[j], ops)
    ensures LastUpsert(ops, agents[i].instanceID) > LastUpsert(ops, agents[j].instanceID)
  {
    assert agents[j] == agents[1..][j - 1];
    if i > 0 {
      assert agents[i] == agents[1..][i - 1];
      OrderedPairs(agents[1..], ops, i - 1, j - 1);
    } else if j > 1 {
      OrderedPairs(agents[1..], ops, 0, j - 1);
    }
  }

  lemma {:induction false} WithoutOrdered(agents: seq<Agent>, gone: set<string>, ops: seq<Op>)
    requires RecencyOrdered(agents, ops)
    ensures RecencyOrdered(Without(agents, gone), ops)
  {
    if agents != [] {
      var kept := Without(agents[1..], gone);
      WithoutOrdered(agents[1..], gone, ops);
      forall a | a in kept ensures a in agents[1..] {
        WithoutMembers(agents[1..], gone, a);
      }
      if agents[0].instanceID !in gone {
        assert ([agents[0]] + kept)[1..] == kept;
      } else {
        assert [] + kept == kept;
      }
    }
  }

  lemma {:induction false} FrontOrdered(agents: seq<Agent>, ops: seq<Op>)
    requires RecencyOrdered(agents, ops) && agents != []
    ensures RecencyOrdered(agents[..|agents| - 1], ops)
  {
    if |agents| > 1 {
      var front, rest := agents[..|agents| - 1], agents[1..];
      FrontOrdered(rest, ops);
      assert front[1..] == rest[..|rest| - 1];
      assert forall a :: a in front[1..] ==> a in rest;
    }
  }

  lemma LaterUpsert(ops: seq<Op>, op: Op, id: string)
    ensures LastUpsert(ops + [op], id) ==
            if op.Upsert? && op.agent.instanceID == id then |ops| else LastUpsert(ops, id)
  {
    assert (ops + [op])[..|ops|] == ops;
  }

  lemma {:induction false} StillOrdered(agents: seq<Agent>, ops: seq<Op>, op: Op)
    requires RecencyOrdered(agents, ops)
    requires op.Upsert? ==> forall a :: a in agents ==> a.instanceID != op.agent.instanceID
    ensures RecencyOrdered(agents, ops + [op])
  {
    if agents != [] {
      LaterUpsert(ops, op, agents[0].instanceID);
      forall a | a in agents[1..] ensures LastUpsert(ops + [op], a.instanceID) == LastUpsert(ops, a.instanceID) {
        LaterUpsert(ops, op, a.instanceID);
      }
      StillOrdered(agents[1..], ops, op);
    }
  }

  lemma NewestFirst(kept: seq<Agent>, ops: seq<Op>, agent: Agent)
    requires RecencyOrdered(kept, ops)
    requires forall a :: a in kept ==> a.instanceID != agent.instanceID
    ensures RecencyOrdered([agent] + kept, ops + [Upsert(agent)])
  {
    var op := Upsert(agent);
    StillOrdered(kept, ops, op);
    LaterUpsert(ops, op, agent.instanceID);
    forall a | a in kept ensures LastUpsert(ops + [op], a.instanceID) < |ops| {
      LaterUpsert(ops, op, a.instanceID);
    }
    assert ([agent] + kept)[1..] == kept;
  }

  lemma OrderedIsDistinct(agents: seq<Agent>, ops: seq<Op>)
    requires RecencyOrdered(agents, ops)
    ensures Distinct(agents)
  {
    forall i, j | 0 <= i < j < |agents| ensures agents[i].instanceID != agents[j].instanceID {
      OrderedPairs(agents, ops, i, j);
    }
  }

  // The agents an upsert leaves behind the new front.
  function Others(agents: seq<Agent>, agent: Agent): seq<Agent> {
    if Present(agents, agent.instanceID) then Without(agents, {agent.instanceID})
    else if |agents| >= MAX_AGENTS then DropOldest(agents)
    else agents
  }

  lemma UpsertOrdered(agents: seq<Agent>, ops: seq<Op>, agent: Agent)
    requires RecencyOrdered(agents, ops) && |agents| <= MAX_AGENTS
    ensures |Upserted(agents, agent)| <= MAX_AGENTS
    ensures RecencyOrdered(Upserted(agents, agent), ops + [Upsert(agent)])
  {
    var kept := Others(agents, agent);
    if Present(agents, agent.instanceID) {
      OrderedIsDistinct(agents, ops);
      var k :| 0 <= k < |agents| && agents[k].instanceID == agent.instanceID;
      WithoutOne(agents, k);
      WithoutOrdered(agents, {agent.instanceID}, ops);
      forall a | a in kept ensures a.instanceID != agent.instanceID {
        WithoutMembers(agents, {agent.instanceID}, a);
      }
    } else {
      forall a | a in agents ensures a.instanceID != agent.instanceID {
        var i :| 0 <= i < |agents| && agents[i] == a;
      }
      if |agents| >= MAX_AGENTS {
        FrontOrdered(agents, ops);
      }
    }
    NewestFirst(kept, ops, agent);
  }

  lemma ApplyOrdered(agents: seq<Agent>, ops: seq<Op>, op: Op)
    requires RecencyOrdered(agents, ops) && |agents| <= MAX_AGENTS
    ensures |Apply(agents, op)| <= MAX_AGENTS
    ensures RecencyOrdered(Apply(agents, op), ops + [op])
  {
    match op
    case Upsert(agent) => UpsertOrdered(agents, ops, agent);
    case Collect(cutoff) =>
      var kept := NotBefore(agents, cutoff);
      OrderedIsDistinct(agents, ops);
      CollectIsWithout(agents, cutoff);
      WithoutOrdered(agents, StaleIds(agents, cutoff), ops);
      StillOrdered(kept, ops, op);
  }

  // Over every run: at most the cap, no id twice, newest upsert first, each with its
  // last upserted state.
  lemma {:induction false} RunIsOrdered(ops: seq<Op>)
    ensures |Run(ops)| <= 100_000 && Distinct(Run(ops)) && RecencyOrdered(Run(ops), ops)
  {
    if ops != [] {
      var before, op := ops[..|ops| - 1], ops[|ops| - 1];
      assert ops == before + [op];
      RunIsOrdered(before);
      OneMoreOrdered(before, op);
    }
  }

  lemma OneMoreOrdered(before: seq<Op>, op: Op)
    requires |Run(before)| <= MAX_AGENTS && RecencyOrdered(Run(before), before)
    ensures var ops := before + [op]; |Run(ops)| <= MAX_AGENTS && Distinct(Run(ops)) && RecencyOrdered(Run(ops), ops)
  {
    ApplyOrdered(Run(before), before, op);
    assert (before + [op])[..|before|] == before;
    OrderedIsDistinct(Apply(Run(before), op), before + [op]);
  }

  // ── Who is listed ───────────────────────────────────────────────────────────

  // The ids upserted since the last upsert of this one.
  function Since(ops: seq<Op>, id: string): set<string> {
    if ops == [] then {}
    else
      var last := ops[|ops| - 1];
      if last.Collect? then Since(ops[..|ops| - 1], id)
      else if last.agent.instanceID == id then {}
      else Since(ops[..|ops| - 1], id) + {last.agent.instanceID}
  }

  // A collection since then found the agent's heartbeat too old.
  predicate Collected(ops: seq<Op>, id: string) {
    if ops == [] then false
    else
      var front, last := ops[..|ops| - 1], ops[|ops| - 1];
      var n := LastUpsert(front, id);
      if last.Upsert? then last.agent.instanceID != id && Collected(front, id)
      else Collected(front, id) || (n >= 0 && front[n].agent.lastHeartbeat < last.cutoff)
  }

  function Ids(agents: seq<Agent>): set<string> { set a | a in agents :: a.instanceID }

  lemma IdsBehindFirst(agents: seq<Agent>)
    requires agents != []
    ensures Ids(agents) == {agents[0].instanceID} + Ids(agents[1..])
  {
    assert agents == [agents[0]] + agents[1..];
  }

  lemma {:induction false} CountIds(agents: seq<Agent>)
    requires Distinct(agents)
    ensures |Ids(agents)| == |agents|
  {
    if agents != [] {
      var id, rest := agents[0].instanceID, agents[1..];
      TailDistinct(agents);
      CountIds(rest);
      IdsBehindFirst(agents);
      assert id !in Ids(rest);
    }
  }

  lemma IdPresent(agents: seq<Agent>, id: string)
    ensures id in Ids(agents) <==> Present(agents, id)
  {
    if Present(agents, id) {
      var i :| 0 <= i < |agents| && agents[i].instanceID == id;
      assert agents[i] in agents;
    }
    if id in Ids(agents) {
      var a :| a in agents && a.instanceID == id;
      var i :| 0 <= i < |agents| && agents[i] == a;
    }
  }

  lemma {:induction false} LaterIsSince(ops: seq<Op>, id: string, other: string)
    requires LastUpsert(ops, other) > LastUpsert(ops, id)
    ensures other in Since(ops, id)
  {
    var last := ops[|ops| - 1];
    if !(last.Upsert? && last.agent.instanceID == other) {
      LaterIsSince(ops[..|ops| - 1], id, other);
    }
  }

  lemma {:induction false} SinceIsLater(ops: seq<Op>, id: string, other: string)
    requires other in Since(ops, id)
    ensures LastUpsert(ops, other) > LastUpsert(ops, id)
  {
    var last := ops[|ops| - 1];
    if !(last.Upsert? && last.agent.instanceID == other) {
      SinceIsLater(ops[..|ops| - 1], id, other);
    }
  }

  // The agents before a listed one were upserted since.
  lemma FrontIsSince(ops: seq<Op>, k: nat)
    requires k < |Run(ops)|
    ensures |Ids(Run(ops)[..k])| == k && Ids(Run(ops)[..k]) <= Since(ops, Run(ops)[k].instanceID)
  {
    var agents := Run(ops);
    RunIsOrdered(ops);
    CountIds(agents[..k]);
    forall x | x in Ids(agents[..k]) ensures x in Since(ops, agents[k].instanceID) {
      IdPresent(agents[..k], x);
      var i :| 0 <= i < k && agents[..k][i].instanceID == x;
      OrderedPairs(agents, ops, i, k);
      LaterIsSince(ops, agents[k].instanceID, x);
    }
  }

  lemma SubsetSize(a: set<string>, b: set<string>)
    requires a <= b
    ensures |a| <= |b|
  {
    assert b == a + (b - a);
  }

  // An upsert of another id removes a listed agent only from the end of a full list.
  lemma UpsertSpares(agents: seq<Agent>, agent: Agent, k: nat)
    requires k < |agents| && agents[k].instanceID != agent.instanceID
    requires Present(agents, agent.instanceID) || |agents| < MAX_AGENTS || k < |agents| - 1
    ensures Present(Upserted(agents, agent), agents[k].instanceID)
  {
    var after := Upserted(agents, agent);
    if Present(agents, agent.instanceID) {
      WithoutMembers(agents, {agent.instanceID}, agents[k]);
      assert agents[k] in after;
      IdPresent(after, agents[k].instanceID);
    } else {
      assert after[k + 1] == agents[k];
    }
  }

  // Then as many ids as the cap have been upserted since.
  lemma LastIsCrowded(ops: seq<Op>, agent: Agent, k: nat)
    requires k == MAX_AGENTS - 1 && |Run(ops)| == MAX_AGENTS
    requires !Present(Run(ops), agent.instanceID)
    ensures |Since(ops + [Upsert(agent)], Run(ops)[k].instanceID)| >= MAX_AGENTS
  {
    var agents, id := Run(ops), Run(ops)[k].instanceID;
    assert id != agent.instanceID;
    assert (ops + [Upsert(agent)])[..|ops|] == ops;
    FrontIsSince(ops, k);
    assert agent.instanceID !in Ids(agents[..k]) by {
      IdPresent(agents[..k], agent.instanceID);
      forall i | 0 <= i < k ensures agents[..k][i].instanceID != agent.instanceID {
        assert agents[..k][i] == agents[i];
      }
    }
    SubsetSize(Ids(agents[..k]) + {agent.instanceID}, Since(ops + [Upsert(agent)], id));
  }

  lemma UpsertKeeps(ops: seq<Op>, agent: Agent, id: string)
    requires Present(Run(ops), id) && agent.instanceID != id
    ensures Present(Upserted(Run(ops), agent), id) || |Since(ops + [Upsert(agent)], id)| >= MAX_AGENTS
  {
    var agents := Run(ops);
    var k :| 0 <= k < |agents| && agents[k].instanceID == id;
    RunIsOrdered(ops);
    if Present(agents, agent.instanceID) || |agents| < MAX_AGENTS || k < |agents| - 1 {
      UpsertSpares(agents, agent, k);
    } else {
      LastIsCrowded(ops, agent, k);
    }
  }

  lemma CollectKeeps(ops: seq<Op>, cutoff: int, id: string)
    ensures Present(NotBefore(Run(ops), cutoff), id) <==>
            Present(Run(ops), id) && LastUpsert(ops, id) >= 0 && ops[LastUpsert(ops, id)].agent.lastHeartbeat >= cutoff
  {
    var agents, kept := Run(ops), NotBefore(Run(ops), cutoff);
    RunIsOrdered(ops);
    forall a | a in agents ensures UpToDate(a, ops) {
      var i :| 0 <= i < |agents| && agents[i] == a;
      if i > 0 { OrderedPairs(agents, ops, 0, i); }
    }
    IdPresent(agents, id);
    IdPresent(kept, id);
    if a :| a in agents && a.instanceID == id {
      CollectKeepsFresh(agents, cutoff, a);
    }
    if b :| b in kept && b.instanceID == id {
      CollectKeepsFresh(agents, cutoff, b);
    }
  }

  lemma {:induction false} ListedUnlessCrowded(ops: seq<Op>, id: string)
    requires LastUpsert(ops, id) >= 0 && !Collected(ops, id) && |Since(ops, id)| < MAX_AGENTS
    ensures Present(Run(ops), id)
  {
    var front, last := ops[..|ops| - 1], ops[|ops| - 1];
    assert ops == front + [last];
    match last
    case Collect(cutoff) =>
      ListedUnlessCrowded(front, id);
      CollectKeeps(front, cutoff, id);
    case Upsert(agent) =>
      if agent.instanceID == id {
        assert Run(ops)[0] == agent;
      } else {
        SubsetSize(Since(front, id), Since(ops, id));
        ListedUnlessCrowded(front, id);
        UpsertKeeps(front, agent, id);
      }
  }

  lemma PresentBefore(agents: seq<Agent>, agent: Agent, id: string)
    requires Present(Upserted(agents, agent), id) && agent.instanceID != id
    ensures Present(agents, id)
  {
    var after := Upserted(agents, agent);
    var k :| 0 <= k < |after| && after[k].instanceID == id;
    if Present(agents, agent.instanceID) {
      assert after[k] in Without(agents, {agent.instanceID});
      WithoutMembers(agents, {agent.instanceID}, after[k]);
      IdPresent(agents, id);
    } else {
      assert agents[k - 1] == after[k];
    }
  }

  lemma {:induction false} ListedIsFresh(ops: seq<Op>, id: string)
    requires Present(Run(ops), id)
    ensures LastUpsert(ops, id) >= 0 && !Collected(ops, id)
  {
    var front, last := ops[..|ops| - 1], ops[|ops| - 1];
    match last
    case Collect(cutoff) =>
      CollectKeeps(front, cutoff, id);
      ListedIsFresh(front, id);
    case Upsert(agent) =>
      if agent.instanceID != id {
        PresentBefore(Run(front), agent, id);
        ListedIsFresh(front, id);
      }
  }

  predicate NoCollections(ops: seq<Op>) { forall i :: 0 <= i < |ops| ==> ops[i].Upsert? }

  // Without collections all that was upserted after a listed agent is listed.
  lemma {:induction false} SinceIsListed(ops: seq<Op>, id: string, other: string)
    requires NoCollections(ops) && Present(Run(ops), id) && other in Since(ops, id)
    ensures Present(Run(ops), other)
  {
    var front, agent := ops[..|ops| - 1], ops[|ops| - 1].agent;
    var agents, after := Run(front), Run(ops);
    if other == agent.instanceID {
      assert after[0].instanceID == other;
    } else {
      PresentBefore(agents, agent, id);
      SinceIsListed(front, id, other);
      var i := AheadOf(front, id, other);
      UpsertSpares(agents, agent, i);
    }
  }

  lemma AheadOf(ops: seq<Op>, id: string, other: string) returns (i: nat)
    requires Present(Run(ops), id) && Present(Run(ops), other) && other in Since(ops, id)
    ensures i < |Run(ops)| - 1 && Run(ops)[i].instanceID == other
  {
    var agents := Run(ops);
    SinceIsLater(ops, id, other);
    RunIsOrdered(ops);
    i :| 0 <= i < |agents| && agents[i].instanceID == other;
    var k :| 0 <= k < |agents| && agents[k].instanceID == id;
    if k < i { OrderedPairs(agents, ops, k, i); }
  }

  // Over every run: whoever is listed was upserted and not collected since; whoever was
  // upserted, not collected, and followed by fewer distinct ids than the cap is listed.
  // Without collections that is exactly who is listed.
  lemma WhoIsListed(ops: seq<Op>, id: string)
    ensures Present(Run(ops), id) ==> LastUpsert(ops, id) >= 0 && !Collected(ops, id)
    ensures LastUpsert(ops, id) >= 0 && !Collected(ops, id) && |Since(ops, id)| < 100_000 ==> Present(Run(ops), id)
    ensures NoCollections(ops) ==> (Present(Run(ops), id) <==> LastUpsert(ops, id) >= 0 && |Since(ops, id)| < 100_000)
  {
    if Present(Run(ops), id) {
      ListedIsFresh(ops, id);
      if NoCollections(ops) {
        ListedIsUncrowded(ops, id);
      }
    } else if LastUpsert(ops, id) >= 0 && |Since(ops, id)| < MAX_AGENTS {
      if NoCollections(ops) { NeverCollected(ops, id); }
      if !Collected(ops, id) { ListedUnlessCrowded(ops, id); }
    }
  }

  lemma {:induction false} NeverCollected(ops: seq<Op>, id: string)
    requires NoCollections(ops)
    ensures !Collected(ops, id)
  {
    if ops != [] { NeverCollected(ops[..|ops| - 1], id); }
  }

  lemma ListedIsUncrowded(ops: seq<Op>, id: string)
    requires NoCollections(ops) && Present(Run(ops), id)
    ensures |Since(ops, id)| < MAX_AGENTS
  {
    RunIsOrdered(ops);
    IdPresent(Run(ops), id);
    forall x | x in Since(ops, id) ensures x in Ids(Run(ops)) && x != id {
      SinceIsListed(ops, id, x);
      SinceIsLater(ops, id, x);
      IdPresent(Run(ops), x);
    }
    CountIds(Run(ops));
    SubsetSize(Since(ops, id) + {id}, Ids(Run(ops)));
    assert |Since(ops, id) + {id}| == |Since(ops, id)| + 1;
  }

  // At capacity a new agent displaces exactly the one whose last upsert is oldest.
  lemma EvictsLeastRecent(ops: seq<Op>, agent: Agent)
    requires |Run(ops)| == MAX_AGENTS && !Present(Run(ops), agent.instanceID)
    ensures var agents := Run(ops);
            var victim := agents[MAX_AGENTS - 1];
            && Run(ops + [Upsert(agent)]) == [agent] + agents[..MAX_AGENTS - 1]
            && forall a :: a in agents && a != victim ==>
                 LastUpsert(ops, a.instanceID) > LastUpsert(ops, victim.instanceID)
  {
    var agents := Run(ops);
    RunIsOrdered(ops);
    assert (ops + [Upsert(agent)])[..|ops|] == ops;
    forall a | a in agents && a != agents[MAX_AGENTS - 1]
      ensures LastUpsert(ops, a.instanceID) > LastUpsert(ops, agents[MAX_AGENTS - 1].instanceID)
    {
      var i :| 0 <= i < |agents| && agents[i] == a;
      OrderedPairs(agents, ops, i, MAX_AGENTS - 1);
    }
  }
}
