// Canary releases: who is targeted, which bucket an agent falls in, and the statistics
// page that counts them.
module Canary {
  import opened Wrappers
  import opened Numbers
  import Fnv
  import IpSelector
  import SemVer

  datatype Tag = Tag(name: string, value: string)

  // What the server knows about an agent when it matches configs.
  datatype Match = Match(instanceID: string, ip: string, hostid: string, hostname: string, version: string, tags: seq<Tag>)

  datatype Status = Rolling | Paused | Promoted | Aborted

  datatype Release = Release(detail: Fnv.Bytes, version: int, percent: int, versionConstraint: string,
                             ipSelector: string, tagSelector: string, status: Status)

  // Text encoding, address parsing and JSON decoding are the environment's.
  datatype Env = Env(ip: IpSelector.Env, utf8: string -> Fnv.Bytes,
                     decodeTags: string -> Option<seq<Tag>>, decodeAgentTags: string -> Option<seq<Tag>>)

  datatype Error = BadIpSelector(reason: IpSelector.Error) | BadTagSelector

  // ── Buckets ─────────────────────────────────────────────────────────────────

  const OFFSET_BASIS: nat := 2166136261
  const PRIME: nat := 16777619

  function Fold32(h: nat, bytes: Fnv.Bytes): nat
    decreases |bytes|
  {
    if bytes == [] then h else Fold32((Xor(h, bytes[0]) * PRIME) % TWO32, bytes[1..])
  }

  // The instance id, else the host id, else the host name.
  function StableKey(m: Match): Option<string> {
    if m.instanceID != "" then Some(m.instanceID)
    else if m.hostid != "" then Some(m.hostid)
    else if m.hostname != "" then Some(m.hostname)
    else None
  }

  function Bucket(env: Env, m: Match, config: string): (bucket: Option<nat>)
    ensures bucket.Some? ==> bucket.value < 100
    ensures bucket.None? <==> m.instanceID == "" && m.hostid == "" && m.hostname == ""
  {
    match StableKey(m)
    case None => None
    case Some(key) => Some(Fold32(OFFSET_BASIS, env.utf8(key) + [0] + env.utf8(config)) % 100)
  }

  // The bucket follows one identity, whichever field it is in: the instance id, else the
  // host id, else the host name. It is the FNV-1a hash of that text, a NUL byte and the
  // config's name, modulo a hundred.
  lemma BucketFollowsIdentity(env: Env, m: Match, config: string)
    ensures m.instanceID != "" ==> Bucket(env, m, config) == Some(Fold32(OFFSET_BASIS, env.utf8(m.instanceID) + [0] + env.utf8(config)) % 100)
    ensures m.instanceID == "" && m.hostid != "" ==> Bucket(env, m, config) == Some(Fold32(OFFSET_BASIS, env.utf8(m.hostid) + [0] + env.utf8(config)) % 100)
    ensures m.instanceID == "" && m.hostid == "" && m.hostname != "" ==> Bucket(env, m, config) == Some(Fold32(OFFSET_BASIS, env.utf8(m.hostname) + [0] + env.utf8(config)) % 100)
    ensures m.instanceID == "" && m.hostid == "" && m.hostname == "" ==> Bucket(env, m, config) == None
  {}

  // The hash of the text "a" in the published test vectors.
  lemma Fold32Vector()
    ensures Fold32(OFFSET_BASIS, [0x61]) == 0xE40C292C
  {
    Power8();
    XorHigh(0x811C9D, 0xC5, 0x61, 8);
    XorLetter();
    FoldOne(OFFSET_BASIS, 0x61);
  }

  lemma FoldOne(h: nat, b: Fnv.Byte)
    ensures Fold32(h, [b]) == (Xor(h, b) * PRIME) % TWO32
  {
    assert [b][1..] == [];
  }

  lemma XorLetter()
    ensures Xor(0xC5, 0x61) == 0xA4
  {
    XorOneMoreBit(1, 0, 0);
    XorOneMoreBit(3, 1, 1);
    XorOneMoreBit(6, 3, 2);
    XorOneMoreBit(12, 6, 5);
    XorOneMoreBit(24, 12, 10);
    XorOneMoreBit(49, 24, 20);
    XorOneMoreBit(98, 48, 41);
    XorOneMoreBit(197, 97, 82);
  }

  // ── Targeting ───────────────────────────────────────────────────────────────

  function MatchesIP(env: Env, selector: string, ip: string): Result<bool, Error> {
    if selector == "" then Ok(true)
    else if ip == "" then Ok(false)
    else
      match IpSelector.IPSelectorMatches(env.ip, selector, ip)
      case Err(e) => Err(BadIpSelector(e))
      case Ok(b) => Ok(b)
  }

  function MatchesTags(env: Env, selector: string, tags: seq<Tag>): Result<bool, Error> {
    if selector == "" then Ok(true)
    else
      match env.decodeTags(selector)
      case None => Err(BadTagSelector)
      case Some(wanted) => Ok(wanted == [] || exists t :: t in wanted && t in tags)
  }

  function Targeted(env: Env, release: Release, m: Match): Result<bool, Error> {
    if release.versionConstraint != "" && !SemVer.MatchVersionConstraint(release.versionConstraint, m.version) then Ok(false)
    else
      match MatchesIP(env, release.ipSelector, m.ip)
      case Err(e) => Err(e)
      case Ok(false) => Ok(false)
      case Ok(true) => MatchesTags(env, release.tagSelector, m.tags)
  }

  function Eligible(env: Env, release: Release, m: Match, config: string): Result<bool, Error> {
    if release.versionConstraint != "" && !SemVer.MatchVersionConstraint(release.versionConstraint, m.version) then Ok(false)
    else
      match MatchesIP(env, release.ipSelector, m.ip)
      case Err(e) => Err(e)
      case Ok(false) => Ok(false)
      case Ok(true) =>
        match MatchesTags(env, release.tagSelector, m.tags)
        case Err(e) => Err(e)
        case Ok(false) => Ok(false)
        case Ok(true) =>
          match Bucket(env, m, config)
          case None => Ok(false)
          case Some(bucket) => Ok(bucket < release.percent)
  }

  // Eligibility is targeting and a bucket below the percentage, errors included.
  lemma EligibleIsTargetedInBucket(env: Env, release: Release, m: Match, config: string)
    ensures Eligible(env, release, m, config) ==
            match Targeted(env, release, m)
            case Err(e) => Err(e)
            case Ok(targeted) =>
              Ok(targeted && Bucket(env, m, config).Some? && Bucket(env, m, config).value < release.percent)
  {
    if Targeted(env, release, m) == Ok(true) {
      assert Bucket(env, m, config).None? || Bucket(env, m, config).Some?;
    }
  }

  // An agent receives the canary if and only if it passes each selector that is set and
  // its bucket is below the percentage. A tag selector asks for any one of its tags.
  lemma EligibleMeaning(env: Env, release: Release, m: Match, config: string)
    ensures Eligible(env, release, m, config) == Ok(true) <==>
            && (release.versionConstraint != "" ==> SemVer.MatchVersionConstraint(release.versionConstraint, m.version))
            && (release.ipSelector != "" ==> m.ip != "" && IpSelector.IPSelectorMatches(env.ip, release.ipSelector, m.ip) == Ok(true))
            && (release.tagSelector != "" ==>
                  && env.decodeTags(release.tagSelector).Some?
                  && (env.decodeTags(release.tagSelector).value == [] ||
                      exists t :: t in env.decodeTags(release.tagSelector).value && t in m.tags))
            && Bucket(env, m, config).Some? && Bucket(env, m, config).value < release.percent
    ensures Eligible(env, release, m, config).Err? <==>
            && (release.versionConstraint != "" ==> SemVer.MatchVersionConstraint(release.versionConstraint, m.version))
            && (|| (release.ipSelector != "" && m.ip != "" && IpSelector.IPSelectorMatches(env.ip, release.ipSelector, m.ip).Err?)
                || (&& (release.ipSelector != "" ==> m.ip != "" && IpSelector.IPSelectorMatches(env.ip, release.ipSelector, m.ip) == Ok(true))
                    && release.tagSelector != "" && env.decodeTags(release.tagSelector).None?))
  {}

  // Raising the percentage never takes the canary away from an agent; zero delivers it
  // to nobody, a hundred to every targeted agent with an identity.
  lemma RolloutGrows(env: Env, release: Release, percent: int, m: Match, config: string)
    requires release.percent <= percent
    ensures Eligible(env, release, m, config) == Ok(true) ==> Eligible(env, release.(percent := percent), m, config) == Ok(true)
    ensures release.percent <= 0 ==> Eligible(env, release, m, config) != Ok(true)
    ensures percent >= 100 && Targeted(env, release, m) == Ok(true) && Bucket(env, m, config).Some? ==>
              Eligible(env, release.(percent := percent), m, config) == Ok(true)
  {
    var raised := release.(percent := percent);
    EligibleIsTargetedInBucket(env, release, m, config);
    EligibleIsTargetedInBucket(env, raised, m, config);
    assert Targeted(env, raised, m) == Targeted(env, release, m);
  }

  // ── Statistics ──────────────────────────────────────────────────────────────

  datatype AgentRecord = AgentRecord(instanceID: string, ip: string, hostid: string, hostname: string, version: string, tagsJson: string)

  // Stored tags that do not decode count as no tags.
  function MatchOf(env: Env, agent: AgentRecord): Match {
    var tags := if agent.tagsJson == "" then None else env.decodeAgentTags(agent.tagsJson);
    Match(agent.instanceID, agent.ip, agent.hostid, agent.hostname, agent.version, if tags.Some? then tags.value else [])
  }

  // What the registry stored of an agent is matched as the agent itself was.
  lemma StoredAgentMatches(env: Env, m: Match, json: string)
    requires if json == "" then m.tags == [] else env.decodeAgentTags(json) == Some(m.tags)
    ensures MatchOf(env, AgentRecord(m.instanceID, m.ip, m.hostid, m.hostname, m.version, json)) == m
  {}

  datatype Stats = Stats(canary: nat, stable: nat, notTargeted: nat, unknown: nat)

  ghost predicate Decidable(env: Env, release: Release, agent: AgentRecord) {
    StableKey(MatchOf(env, agent)).Some? ==> Targeted(env, release, MatchOf(env, agent)).Ok?
  }

  datatype Category = InCanary | InStable | Outside | Unknown

  // One turn of the statistics loop.
  function Classify(env: Env, release: Release, m: Match, config: string): Result<Category, Error> {
    match Bucket(env, m, config)
    case None => Ok(Unknown)
    case Some(bucket) =>
      match Targeted(env, release, m)
      case Err(e) => Err(e)
      case Ok(false) => Ok(Outside)
      case Ok(true) => Ok(if bucket < release.percent then InCanary else InStable)
  }

  // The categories say what eligibility, targeting and identity say.
  lemma ClassifyMeaning(env: Env, release: Release, agent: AgentRecord, config: string)
    ensures var m := MatchOf(env, agent); var c := Classify(env, release, m, config);
            && (c.Ok? <==> Decidable(env, release, agent))
            && (c == Ok(InCanary) <==> Eligible(env, release, m, config) == Ok(true))
            && (c == Ok(Unknown) <==> agent.instanceID == agent.hostid == agent.hostname == "")
            && (c == Ok(Outside) <==> StableKey(m).Some? && Targeted(env, release, m) == Ok(false))
  {
    EligibleIsTargetedInBucket(env, release, MatchOf(env, agent), config);
  }

  function Verdicts(env: Env, release: Release, config: string, agents: seq<AgentRecord>): (verdicts: seq<Result<Category, Error>>)
    ensures |verdicts| == |agents|
    ensures forall i :: 0 <= i < |agents| ==> verdicts[i] == Classify(env, release, MatchOf(env, agents[i]), config)
  {
    seq(|agents|, i requires 0 <= i < |agents| => Classify(env, release, MatchOf(env, agents[i]), config))
  }

  // The agents of one category among the first n.
  function Members(verdicts: seq<Result<Category, Error>>, category: Category, n: nat): set<nat>
    requires n <= |verdicts|
  {
    set i: nat | i < n && verdicts[i] == Ok(category)
  }

  function Count(verdicts: seq<Result<Category, Error>>, category: Category, n: nat): nat
    requires n <= |verdicts|
  {
    if n == 0 then 0 else Count(verdicts, category, n - 1) + if verdicts[n - 1] == Ok(category) then 1 else 0
  }

  lemma {:induction false} CountIsSize(verdicts: seq<Result<Category, Error>>, category: Category, n: nat)
    requires n <= |verdicts|
    ensures Count(verdicts, category, n) == |Members(verdicts, category, n)|
  {
    if n == 0 {
      assert Members(verdicts, category, 0) == {};
    } else {
      CountIsSize(verdicts, category, n - 1);
      OneMoreMember(Members(verdicts, category, n - 1), Members(verdicts, category, n), n - 1, verdicts[n - 1] == Ok(category));
    }
  }

  lemma OneMoreMember(before: set<nat>, after: set<nat>, n: nat, member: bool)
    requires n !in before && forall i :: i in after <==> i in before || (i == n && member)
    ensures |after| == |before| + if member then 1 else 0
  {
    assert after == before + if member then {n} else {};
  }

  // What the categories hold, agent by agent.
  lemma MembersMeaning(env: Env, release: Release, config: string, agents: seq<AgentRecord>)
    ensures var verdicts := Verdicts(env, release, config, agents);
            && Members(verdicts, InCanary, |agents|) ==
               (set i: nat | i < |agents| && Eligible(env, release, MatchOf(env, agents[i]), config) == Ok(true))
            && Members(verdicts, Unknown, |agents|) ==
               (set i: nat | i < |agents| && agents[i].instanceID == "" && agents[i].hostid == "" && agents[i].hostname == "")
            && Members(verdicts, Outside, |agents|) ==
               (set i: nat | i < |agents| && Bucket(env, MatchOf(env, agents[i]), config).Some? &&
                             Targeted(env, release, MatchOf(env, agents[i])) == Ok(false))
  {
    forall i: nat | i < |agents| {
      ClassifyMeaning(env, release, agents[i], config);
    }
  }

  // The loop stops at the first agent that cannot be classified.
  method Tally(verdicts: seq<Result<Category, Error>>) returns (r: Result<Stats, Error>)
    ensures r.Ok? <==> forall i :: 0 <= i < |verdicts| ==> verdicts[i].Ok?
    ensures r.Ok? ==>
              && r.value.canary + r.value.stable + r.value.notTargeted + r.value.unknown == |verdicts|
              && r.value.canary == Count(verdicts, InCanary, |verdicts|)
              && r.value.unknown == Count(verdicts, Unknown, |verdicts|)
              && r.value.notTargeted == Count(verdicts, Outside, |verdicts|)
  {
    var canary, stable, notTargeted, unknown := 0, 0, 0, 0;
    for i := 0 to |verdicts|
      invariant canary + stable + notTargeted + unknown == i
      invariant canary == Count(verdicts, InCanary, i)
      invariant unknown == Count(verdicts, Unknown, i)
      invariant notTargeted == Count(verdicts, Outside, i)
      invariant forall k :: 0 <= k < i ==> verdicts[k].Ok?
    {
      var category := verdicts[i];
      if category.Err? {
        return Err(category.error);
      }
      match category.value
      case InCanary => canary := canary + 1;
      case InStable => stable := stable + 1;
      case Outside => notTargeted := notTargeted + 1;
      case Unknown => unknown := unknown + 1;
    }
    return Ok(Stats(canary, stable, notTargeted, unknown));
  }

  // The four counts partition the agents: the canary count is the number of those that
  // eligibility accepts, the unknown ones have no identity, the others not targeted are
  // left out by a selector. An error is returned exactly when targeting fails for an agent
  // that has a bucket.
  method GetCanaryStats(env: Env, release: Release, config: string, agents: seq<AgentRecord>) returns (r: Result<Stats, Error>)
    ensures r.Ok? <==> forall i :: 0 <= i < |agents| ==> Decidable(env, release, agents[i])
    ensures r.Ok? ==>
              && r.value.canary + r.value.stable + r.value.notTargeted + r.value.unknown == |agents|
              && r.value.canary == |set i: nat | i < |agents| && Eligible(env, release, MatchOf(env, agents[i]), config) == Ok(true)|
              && r.value.unknown == |set i: nat | i < |agents| && agents[i].instanceID == "" && agents[i].hostid == "" && agents[i].hostname == ""|
              && r.value.notTargeted ==
                 |set i: nat | i < |agents| && Bucket(env, MatchOf(env, agents[i]), config).Some? &&
                               Targeted(env, release, MatchOf(env, agents[i])) == Ok(false)|
  {
    var verdicts := Verdicts(env, release, config, agents);
    r := Tally(verdicts);
    MembersMeaning(env, release, config, agents);
    forall category { CountIsSize(verdicts, category, |agents|); }
    forall i | 0 <= i < |agents| ensures Decidable(env, release, agents[i]) <==> verdicts[i].Ok? {
      ClassifyMeaning(env, release, agents[i], config);
    }
  }
}
