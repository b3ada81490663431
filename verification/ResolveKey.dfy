// The key of the resolution cache: a byte string built from the attributes that decide
// which configs an agent receives, hashed with 64-bit FNV-1a.
module ResolveKey {
  import opened Text
  import opened Canary
  import opened ConfigStore
  import Fnv

  // ── Sorting ─────────────────────────────────────────────────────────────────

  predicate Ascending(s: seq<string>) {
    forall i, j :: 0 <= i < j < |s| ==> CompareText(s[i], s[j]) <= 0
  }

  function Insert(x: string, s: seq<string>): seq<string> {
    if s == [] || CompareText(x, s[0]) <= 0 then [x] + s else [s[0]] + Insert(x, s[1..])
  }

  function Sort(s: seq<string>): seq<string> {
    if s == [] then [] else Insert(s[0], Sort(s[1..]))
  }

  lemma TailBag(s: seq<string>)
    requires s != []
    ensures multiset(s) == multiset{s[0]} + multiset(s[1..])
  {
    assert s == [s[0]] + s[1..];
  }

  lemma {:induction false} InsertBag(x: string, s: seq<string>)
    ensures multiset(Insert(x, s)) == multiset{x} + multiset(s)
  {
    if s != [] && CompareText(x, s[0]) > 0 {
      InsertBag(x, s[1..]);
      TailBag(s);
    }
  }

  lemma AscendingFront(x: string, s: seq<string>)
    requires Ascending(s) && forall y :: y in s ==> CompareText(x, y) <= 0
    ensures Ascending([x] + s)
  {}

  lemma SmallestFirst(s: seq<string>, x: string)
    requires Ascending(s) && x in s
    ensures CompareText(s[0], x) <= 0
  {
    TextOrder(x, x, x);
  }

  lemma {:induction false} InsertAscending(x: string, s: seq<string>)
    requires Ascending(s)
    ensures Ascending(Insert(x, s))
  {
    if s == [] {
    } else if CompareText(x, s[0]) <= 0 {
      forall y | y in s ensures CompareText(x, y) <= 0 {
        SmallestFirst(s, y);
        TextOrder(x, s[0], y);
      }
      AscendingFront(x, s);
    } else {
      InsertAscending(x, s[1..]);
      InsertBag(x, s[1..]);
      forall y | y in Insert(x, s[1..]) ensures CompareText(s[0], y) <= 0 {
        assert y in multiset(Insert(x, s[1..]));
        TextOrder(s[0], x, x);
        if y != x {
          assert y in s[1..];
          SmallestFirst(s, y);
        }
      }
      AscendingFront(s[0], Insert(x, s[1..]));
    }
  }

  lemma {:induction false} SortAscending(s: seq<string>)
    ensures Ascending(Sort(s)) && multiset(Sort(s)) == multiset(s)
  {
    if s != [] {
      SortAscending(s[1..]);
      InsertAscending(s[0], Sort(s[1..]));
      InsertBag(s[0], Sort(s[1..]));
      TailBag(s);
    }
  }

  lemma BagCancel(x: string, a: multiset<string>, b: multiset<string>)
    requires multiset{x} + a == multiset{x} + b
    ensures a == b
  {
    assert a == (multiset{x} + a) - multiset{x};
    assert b == (multiset{x} + b) - multiset{x};
  }

  lemma {:induction false} AscendingUnique(a: seq<string>, b: seq<string>)
    requires Ascending(a) && Ascending(b) && multiset(a) == multiset(b)
    ensures a == b
  {
    assert |a| == |multiset(a)| == |multiset(b)| == |b|;
    if a != [] {
      assert a[0] in multiset(b) && b[0] in multiset(a);
      SmallestFirst(a, b[0]);
      SmallestFirst(b, a[0]);
      TextOrder(a[0], b[0], a[0]);
      TailBag(a);
      TailBag(b);
      BagCancel(a[0], multiset(a[1..]), multiset(b[1..]));
      AscendingUnique(a[1..], b[1..]);
      assert a == [a[0]] + a[1..] && b == [b[0]] + b[1..];
    }
  }

  // ── The byte string ─────────────────────────────────────────────────────────

  const NUL: string := "\0"

  // Each part followed by a NUL byte.
  function Terminated(parts: seq<string>): string {
    if parts == [] then "" else parts[0] + NUL + Terminated(parts[1..])
  }

  function TagText(t: Tag): string { t.name + "=" + t.value }

  function TagTexts(tags: seq<Tag>): seq<string> {
    if tags == [] then [] else [TagText(tags[0])] + TagTexts(tags[1..])
  }

  function HostIdentity(m: Match): string {
    if m.hostid != "" then m.hostid else m.hostname
  }

  function KeyText(m: Match): string {
    Terminated([m.ip, HostIdentity(m), m.version] + Sort(TagTexts(m.tags)))
  }

  method WriteKey(m: Match) returns (text: string)
    ensures text == KeyText(m)
    ensures m.ip + "\0" + (if m.hostid != "" then m.hostid else m.hostname) + "\0" + m.version + "\0" <= text
  {
    text := m.ip + NUL;
    text := text + HostIdentity(m) + NUL;
    text := text + m.version + NUL;
    var tags := Sort(TagTexts(m.tags));
    ghost var head := text;
    HeadParts(m.ip, HostIdentity(m), m.version, tags);
    for i := 0 to |tags|
      invariant text + Terminated(tags[i..]) == head + Terminated(tags)
    {
      assert tags[i..][0] == tags[i] && tags[i..][1..] == tags[i + 1..];
      text := text + tags[i] + NUL;
    }
    assert tags[|tags|..] == [] && text + "" == text;
  }

  lemma HeadParts(x: string, y: string, z: string, rest: seq<string>)
    ensures Terminated([x, y, z] + rest) == x + NUL + y + NUL + z + NUL + Terminated(rest)
  {
    assert ([x, y, z] + rest)[1..] == [y, z] + rest;
    assert ([y, z] + rest)[1..] == [z] + rest;
    assert ([z] + rest)[1..] == rest;
    assert Terminated([y, z] + rest) == y + NUL + (z + NUL + Terminated(rest));
  }

  function Hash(env: Env, m: Match): nat { Fnv.Fold(Fnv.OFFSET_BASIS, env.utf8(KeyText(m))) }

  // Key texts whose encodings differ in one byte have different hashes.
  lemma OneByteChangesKey(env: Env, m: Match, n: Match, i: nat, b: Fnv.Byte)
    requires i < |env.utf8(KeyText(m))| && env.utf8(KeyText(m))[i] != b
    requires env.utf8(KeyText(n)) == env.utf8(KeyText(m))[i := b]
    ensures Hash(env, m) != Hash(env, n)
  {
    Fnv.OneByteChangesHash(env.utf8(KeyText(m)), i, b);
  }

  // The key ends each part with a NUL byte, so none of them may hold one.
  predicate NulFree(m: Match) {
    && '\0' !in m.ip && '\0' !in m.hostid && '\0' !in m.hostname && '\0' !in m.version
    && forall t :: t in m.tags ==> '\0' !in TagText(t)
  }

  predicate NoEquals(tags: seq<Tag>) { forall t :: t in tags ==> '=' !in t.name }

  predicate NoNul(parts: seq<string>) { forall p :: p in parts ==> '\0' !in p }

  lemma MarkNotBefore(p: string, c: char, rest: string, k: nat)
    requires c !in p && k < |p + [c] + rest| && (p + [c] + rest)[k] == c
    ensures |p| <= k
  {
    assert forall i :: 0 <= i < |p| ==> (p + [c] + rest)[i] == p[i] && p[i] in p;
  }

  // A mark that neither front contains splits a text in one way only.
  lemma FirstMark(p: string, q: string, c: char, rest: string, rest': string)
    requires c !in p && c !in q && p + [c] + rest == q + [c] + rest'
    ensures p == q && rest == rest'
  {
    var x, y := p + [c] + rest, q + [c] + rest';
    MarkNotBefore(p, c, rest, |q|);
    MarkNotBefore(q, c, rest', |p|);
    assert p == x[..|p|] == y[..|q|] == q;
    assert rest == x[|p| + 1..] == y[|q| + 1..] == rest';
  }

  lemma {:induction false} TerminatedInjective(a: seq<string>, b: seq<string>)
    requires NoNul(a) && NoNul(b) && Terminated(a) == Terminated(b)
    ensures a == b
  {
    if a != [] && b != [] {
      FirstMark(a[0], b[0], '\0', Terminated(a[1..]), Terminated(b[1..]));
      TerminatedInjective(a[1..], b[1..]);
      assert a == [a[0]] + a[1..] && b == [b[0]] + b[1..];
    }
  }

  lemma TagTextInjective(t: Tag, u: Tag)
    requires '=' !in t.name && '=' !in u.name && TagText(t) == TagText(u)
    ensures t == u
  {
    FirstMark(t.name, u.name, '=', t.value, u.value);
  }

  lemma {:induction false} CountTexts(tags: seq<Tag>, t: Tag)
    requires '=' !in t.name && NoEquals(tags)
    ensures multiset(TagTexts(tags))[TagText(t)] == multiset(tags)[t]
  {
    if tags != [] {
      CountTexts(tags[1..], t);
      assert tags == [tags[0]] + tags[1..];
      if TagText(tags[0]) == TagText(t) {
        TagTextInjective(tags[0], t);
      }
    }
  }

  lemma {:induction false} TagOfText(tags: seq<Tag>, text: string) returns (t: Tag)
    requires text in TagTexts(tags)
    ensures t in tags && TagText(t) == text
  {
    if TagText(tags[0]) == text {
      t := tags[0];
    } else {
      t := TagOfText(tags[1..], text);
    }
  }

  // Without '=' in the names the texts count the tags.
  lemma TextsFollowTags(a: seq<Tag>, b: seq<Tag>)
    requires NoEquals(a) && NoEquals(b)
    ensures multiset(TagTexts(a)) == multiset(TagTexts(b)) <==> multiset(a) == multiset(b)
  {
    forall t | t in a || t in b
      ensures multiset(TagTexts(a))[TagText(t)] == multiset(a)[t] && multiset(TagTexts(b))[TagText(t)] == multiset(b)[t]
    {
      CountTexts(a, t);
      CountTexts(b, t);
    }
    if multiset(a) == multiset(b) {
      forall text ensures multiset(TagTexts(a))[text] == multiset(TagTexts(b))[text] {
        if text in TagTexts(a) {
          var t := TagOfText(a, text);
        } else if text in TagTexts(b) {
          var t := TagOfText(b, text);
        }
      }
    }
    if multiset(TagTexts(a)) == multiset(TagTexts(b)) {
      forall t ensures multiset(a)[t] == multiset(b)[t] {
        if t in a || t in b {
          assert multiset(TagTexts(a))[TagText(t)] == multiset(TagTexts(b))[TagText(t)];
        }
      }
    }
  }

  lemma KeyParts(m: Match)
    requires NulFree(m)
    ensures NoNul([m.ip, HostIdentity(m), m.version] + Sort(TagTexts(m.tags)))
  {
    var texts := TagTexts(m.tags);
    SortAscending(texts);
    forall p | p in Sort(texts) ensures '\0' !in p {
      assert p in multiset(Sort(texts));
      var t := TagOfText(m.tags, p);
    }
  }

  // Agents have the same key text exactly when address, host identity and version agree
  // and the texts of their tags do, in any order.
  lemma KeyTextMeaning(m: Match, n: Match)
    requires NulFree(m) && NulFree(n)
    ensures KeyText(m) == KeyText(n) <==>
              && m.ip == n.ip && (if m.hostid != "" then m.hostid else m.hostname) == (if n.hostid != "" then n.hostid else n.hostname)
              && m.version == n.version
              && multiset(TagTexts(m.tags)) == multiset(TagTexts(n.tags))
  {
    var a, b := TagTexts(m.tags), TagTexts(n.tags);
    SortAscending(a);
    SortAscending(b);
    if multiset(a) == multiset(b) {
      AscendingUnique(Sort(a), Sort(b));
    }
    if KeyText(m) == KeyText(n) {
      KeyParts(m);
      KeyParts(n);
      var x, y := [m.ip, HostIdentity(m), m.version] + Sort(a), [n.ip, HostIdentity(n), n.version] + Sort(b);
      TerminatedInjective(x, y);
      assert x[0] == y[0] && x[1] == y[1] && x[2] == y[2] && Sort(a) == x[3..] == y[3..] == Sort(b);
    }
  }

  // With no '=' in tag names the key text determines the multiset of tags.
  lemma KeyDeterminesAttributes(m: Match, n: Match)
    requires NulFree(m) && NulFree(n) && NoEquals(m.tags) && NoEquals(n.tags)
    ensures KeyText(m) == KeyText(n) <==>
              && m.ip == n.ip && (if m.hostid != "" then m.hostid else m.hostname) == (if n.hostid != "" then n.hostid else n.hostname)
              && m.version == n.version && multiset(m.tags) == multiset(n.tags)
  {
    KeyTextMeaning(m, n);
    TextsFollowTags(m.tags, n.tags);
  }

  // ── Sharing an entry ────────────────────────────────────────────────────────

  predicate SameTags(m: Match, n: Match) {
    (forall t :: t in m.tags ==> t in n.tags) && (forall t :: t in n.tags ==> t in m.tags)
  }

  // What resolution looks at.
  predicate SameAttributes(m: Match, n: Match) {
    m.ip == n.ip && m.version == n.version && SameTags(m, n)
  }

  lemma SameAttributesSameNames(env: Env, db: Db, m: Match, n: Match)
    requires SameAttributes(m, n)
    ensures Names(env, db, m) == Names(env, db, n)
  {
    forall g ensures GroupMatches(env, db, m, g) <==> GroupMatches(env, db, n, g) {}
  }

  lemma SameAttributesSameStaged(env: Env, dbs: seq<Db>, m: Match, n: Match)
    requires |dbs| == QUERIES && SameAttributes(m, n)
    ensures StagedNames(env, dbs, m) == StagedNames(env, dbs, n)
  {
    forall g ensures StagedMatch(env, dbs, m, g) <==> StagedMatch(env, dbs, n, g) {}
  }

  // A group with the tag, and a config for it.
  function TaggedDb(t: Tag): Db {
    var key := ConfigKey(Pipeline, "nginx");
    Db(map["web" := Group("", "", "")], {GroupTag("web", t)}, {Mapping("web", key)}, map[key := Row(1, [], 0, 0)], map[])
  }

  lemma TagDecides(env: Env, t: Tag, m: Match)
    ensures ConfigKey(Pipeline, "nginx") in Names(env, TaggedDb(t), m) <==> t in m.tags
  {
    var db := TaggedDb(t);
    assert GroupMatches(env, db, m, "web") <==> TagMatches(db, "web", m);
    if t in m.tags {
      assert GroupTag("web", t) in db.tags && Mapping("web", ConfigKey(Pipeline, "nginx")) in db.mappings;
    }
  }

  // Agents that share a key text may share a cache entry, in every database, if and only
  // if they carry the same tags; only the canary choice remains per instance.
  lemma SharedKeySharesNames(env: Env, m: Match, n: Match)
    requires NulFree(m) && NulFree(n) && KeyText(m) == KeyText(n)
    ensures (forall db :: Names(env, db, m) == Names(env, db, n)) <==> SameTags(m, n)
  {
    KeyTextMeaning(m, n);
    if SameTags(m, n) {
      forall db ensures Names(env, db, m) == Names(env, db, n) {
        SameAttributesSameNames(env, db, m, n);
      }
    } else {
      var t :| (t in m.tags) != (t in n.tags);
      TagDecides(env, t, m);
      TagDecides(env, t, n);
      assert Names(env, TaggedDb(t), m) != Names(env, TaggedDb(t), n);
    }
  }

  // ── Why '=' is excluded ─────────────────────────────────────────────────────

  // The same text read with its first '=' as the separator.
  function Shifted(t: Tag, i: nat): Tag
    requires i < |t.name|
  {
    Tag(t.name[..i], t.name[i + 1..] + "=" + t.value)
  }

  function Replaced(tags: seq<Tag>, t: Tag, u: Tag): (r: seq<Tag>)
    requires t != u
    ensures t !in r
  {
    if tags == [] then [] else [if tags[0] == t then u else tags[0]] + Replaced(tags[1..], t, u)
  }

  lemma {:induction false} ReplacedTexts(tags: seq<Tag>, t: Tag, u: Tag)
    requires t != u && TagText(t) == TagText(u)
    ensures TagTexts(Replaced(tags, t, u)) == TagTexts(tags)
  {
    if tags != [] {
      ReplacedTexts(tags[1..], t, u);
    }
  }

  // Whenever an agent has a tag with '=' in its name, another agent has its key text and
  // is assigned other configs by some database.
  lemma EqualsSignCollides(env: Env, m: Match, t: Tag) returns (n: Match, db: Db)
    requires t in m.tags && '=' in t.name
    ensures n == m.(tags := n.tags) && KeyText(n) == KeyText(m)
    ensures Names(env, db, n) != Names(env, db, m)
  {
    var i :| 0 <= i < |t.name| && t.name[i] == '=';
    var u := Shifted(t, i);
    assert t.name == t.name[..i] + "=" + t.name[i + 1..];
    assert TagText(u) == TagText(t);
    n, db := m.(tags := Replaced(m.tags, t, u)), TaggedDb(t);
    ReplacedTexts(m.tags, t, u);
    TagDecides(env, t, m);
    TagDecides(env, t, n);
  }

  // A NUL byte moves the border between parts: agents with other addresses and versions
  // share the key text.
  lemma NulCollides(m: Match, a: string, b: string, c: string)
    requires b != "" && c != ""
    ensures KeyText(m.(ip := a + NUL + b, hostid := c, version := "", tags := [])) ==
            KeyText(m.(ip := a, hostid := b, version := c + NUL, tags := []))
  {
    HeadParts(a + NUL + b, c, "", []);
    HeadParts(a, b, c + NUL, []);
    assert TagTexts([]) == [] && Sort([]) == [];
    assert [a + NUL + b, c, ""] + [] == [a + NUL + b, c, ""];
    assert [a, b, c + NUL] + [] == [a, b, c + NUL];
  }
}
