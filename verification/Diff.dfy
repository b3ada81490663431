// The line diff shown in the configuration editor: a longest-common-subsequence
// table and a traceback that starts at its last corner.
module LineDiff {
  import opened Text

  datatype Kind = Equal | Add | Remove
  datatype DiffLine = DiffLine(kind: Kind, value: string)

  // ── What a diff says ────────────────────────────────────────────────────────

  // The lines of a diff whose kind is not `dropped`.
  function Without(path: seq<DiffLine>, dropped: Kind): seq<string> {
    if path == [] then []
    else (if path[0].kind == dropped then [] else [path[0].value]) + Without(path[1..], dropped)
  }

  function OldSide(path: seq<DiffLine>): seq<string> { Without(path, Add) }

  function NewSide(path: seq<DiffLine>): seq<string> { Without(path, Remove) }

  function Kept(path: seq<DiffLine>): seq<string> {
    if path == [] then []
    else (if path[0].kind == Equal then [path[0].value] else []) + Kept(path[1..])
  }

  function Reverse<T>(s: seq<T>): seq<T> {
    if s == [] then [] else [s[|s| - 1]] + Reverse(s[..|s| - 1])
  }

  // ── Common subsequences ─────────────────────────────────────────────────────

  predicate Subsequence(s: seq<string>, a: seq<string>) {
    || s == []
    || (a != [] && ((s[0] == a[0] && Subsequence(s[1..], a[1..])) || Subsequence(s, a[1..])))
  }

  ghost predicate CommonSubsequence(s: seq<string>, a: seq<string>, b: seq<string>) {
    Subsequence(s, a) && Subsequence(s, b)
  }

  // Every diff of a and b keeps a common subsequence of the two.
  lemma {:induction false} KeptIsCommon(path: seq<DiffLine>)
    ensures CommonSubsequence(Kept(path), OldSide(path), NewSide(path))
    ensures |OldSide(path)| + |NewSide(path)| == |path| + |Kept(path)|
  {
    if path != [] {
      KeptIsCommon(path[1..]);
      var d, kept, before, after := path[0], Kept(path[1..]), OldSide(path[1..]), NewSide(path[1..]);
      SubsequenceGrows(kept, before, d.value);
      SubsequenceGrows(kept, after, d.value);
      assert [] + kept == kept && [] + before == before && [] + after == after;
    }
  }

  lemma SubsequenceGrows(s: seq<string>, a: seq<string>, x: string)
    requires Subsequence(s, a)
    ensures Subsequence(s, [x] + a)
    ensures Subsequence([x] + s, [x] + a)
  {
    assert ([x] + a)[1..] == a && ([x] + s)[1..] == s;
  }

  // ── The table ───────────────────────────────────────────────────────────────

  function Max(x: nat, y: nat): nat { if x >= y then x else y }

  // The entry the table holds for the first i lines of a and the first j of b.
  function Best(a: seq<string>, b: seq<string>, i: nat, j: nat): nat
    requires i <= |a| && j <= |b|
  {
    if i == 0 || j == 0 then 0
    else if a[i - 1] == b[j - 1] then Best(a, b, i - 1, j - 1) + 1
    else Max(Best(a, b, i - 1, j), Best(a, b, i, j - 1))
  }

  // Dropping the last line of both.
  lemma {:induction false} SubsequenceLast(s: seq<string>, a: seq<string>)
    requires s != [] && Subsequence(s, a)
    ensures a != []
    ensures Subsequence(s[..|s| - 1], a[..|a| - 1])
    ensures s[|s| - 1] == a[|a| - 1] || Subsequence(s, a[..|a| - 1])
  {
    var a', s' := a[..|a| - 1], s[..|s| - 1];
    if s[0] == a[0] && Subsequence(s[1..], a[1..]) {
      if |s| > 1 {
        SubsequenceLast(s[1..], a[1..]);
        assert s'[1..] == s[1..][..|s| - 2] && a'[1..] == a[1..][..|a| - 2];
        assert s'[0] == a'[0];
      } else if |a| > 1 {
        assert s[1..] == [];
        assert a'[0] == s[0];
      }
    } else {
      SubsequenceLast(s, a[1..]);
      assert a'[1..] == a[1..][..|a| - 2];
    }
  }

  // No common subsequence is longer than the table says.
  lemma {:induction false} BestIsUpperBound(s: seq<string>, a: seq<string>, b: seq<string>, i: nat, j: nat)
    requires i <= |a| && j <= |b|
    requires CommonSubsequence(s, a[..i], b[..j])
    ensures |s| <= Best(a, b, i, j)
    decreases i + j
  {
    if s != [] {
      SubsequenceLast(s, a[..i]);
      SubsequenceLast(s, b[..j]);
      assert a[..i][..i - 1] == a[..i - 1] && b[..j][..j - 1] == b[..j - 1];
      if a[i - 1] == b[j - 1] {
        BestIsUpperBound(s[..|s| - 1], a, b, i - 1, j - 1);
      } else if s[|s| - 1] != a[i - 1] {
        BestIsUpperBound(s, a, b, i - 1, j);
      } else {
        BestIsUpperBound(s, a, b, i, j - 1);
      }
    }
  }

  // ── The algorithm ───────────────────────────────────────────────────────────

  method FillTable(a: seq<string>, b: seq<string>) returns (dp: array2<nat>)
    ensures dp.Length0 == |a| + 1 && dp.Length1 == |b| + 1
    ensures forall i, j {:trigger dp[i, j]} :: 0 <= i <= |a| && 0 <= j <= |b| ==> dp[i, j] == Best(a, b, i, j)
    ensures fresh(dp)
  {
    dp := new nat[|a| + 1, |b| + 1]((_, _) => 0);
    for i := 1 to |a| + 1
      invariant forall r, c {:trigger dp[r, c]} :: 0 <= r < i && 0 <= c <= |b| ==> dp[r, c] == Best(a, b, r, c)
      invariant forall r {:trigger dp[r, 0]} :: 0 <= r <= |a| ==> dp[r, 0] == 0
    {
      FillRow(a, b, dp, i);
    }
  }

  method FillRow(a: seq<string>, b: seq<string>, dp: array2<nat>, i: nat)
    requires dp.Length0 == |a| + 1 && dp.Length1 == |b| + 1
    requires 1 <= i <= |a| && dp[i, 0] == 0
    requires forall c {:trigger dp[i - 1, c]} :: 0 <= c <= |b| ==> dp[i - 1, c] == Best(a, b, i - 1, c)
    modifies dp
    ensures forall r, c {:trigger dp[r, c]} :: 0 <= r <= |a| && 0 <= c <= |b| && r != i ==> dp[r, c] == old(dp[r, c])
    ensures forall c {:trigger dp[i, c]} :: 0 <= c <= |b| ==> dp[i, c] == Best(a, b, i, c)
  {
    for j := 1 to |b| + 1
      invariant forall r, c {:trigger dp[r, c]} :: 0 <= r <= |a| && 0 <= c <= |b| && r != i ==> dp[r, c] == old(dp[r, c])
      invariant forall c {:trigger dp[i, c]} :: 0 <= c < j ==> dp[i, c] == Best(a, b, i, c)
    {
      dp[i, j] := if a[i - 1] == b[j - 1] then dp[i - 1, j - 1] + 1 else Max(dp[i - 1, j], dp[i, j - 1]);
    }
  }

  // Pushing a line onto the reversed path puts it in front of the diff built so far.
  lemma PushInFront(path: seq<DiffLine>, line: DiffLine)
    ensures Reverse(path + [line]) == [line] + Reverse(path)
    ensures OldSide(Reverse(path + [line])) == (if line.kind == Add then [] else [line.value]) + OldSide(Reverse(path))
    ensures NewSide(Reverse(path + [line])) == (if line.kind == Remove then [] else [line.value]) + NewSide(Reverse(path))
    ensures |Kept(Reverse(path + [line]))| == |Kept(Reverse(path))| + (if line.kind == Equal then 1 else 0)
  {
    assert (path + [line])[..|path|] == path;
    assert ([line] + Reverse(path))[1..] == Reverse(path);
  }

  // ── Removals come first ─────────────────────────────────────────────────────

  // No added line is directly followed by a removed one: a changed stretch shows what was
  // removed before what was added.
  predicate RemovedFirst(diff: seq<DiffLine>) {
    forall k :: 0 <= k < |diff| - 1 && diff[k].kind == Add ==> diff[k + 1].kind != Remove
  }

  // The path so far, which is built from its end.
  predicate Backwards(path: seq<DiffLine>) {
    forall k :: 0 <= k < |path| - 1 && path[k].kind == Remove ==> path[k + 1].kind != Add
  }

  lemma {:induction false} ReverseAt(path: seq<DiffLine>, k: nat)
    requires k < |path|
    ensures |Reverse(path)| == |path| && Reverse(path)[k] == path[|path| - 1 - k]
  {
    if |path| > 1 {
      ReverseAt(path[..|path| - 1], if k > 0 then k - 1 else 0);
    }
  }

  lemma BackwardsReversed(path: seq<DiffLine>)
    requires Backwards(path)
    ensures RemovedFirst(Reverse(path))
  {
    if path != [] {
      ReverseAt(path, 0);
      forall k | 0 <= k < |path| - 1 && Reverse(path)[k].kind == Add ensures Reverse(path)[k + 1].kind != Remove {
        ReverseAt(path, k);
        ReverseAt(path, k + 1);
      }
    }
  }

  lemma {:induction false} BestGrows(a: seq<string>, b: seq<string>, i: nat, j: nat)
    requires i < |a| && j <= |b|
    ensures Best(a, b, i, j) <= Best(a, b, i + 1, j) <= Best(a, b, i, j) + 1
    decreases i + j
  {
    if j > 0 {
      BestGrows(a, b, i, j - 1);
      BestGrowsAcross(a, b, i, j - 1);
      if i > 0 {
        BestGrows(a, b, i - 1, j - 1);
      }
    }
  }

  lemma {:induction false} BestGrowsAcross(a: seq<string>, b: seq<string>, i: nat, j: nat)
    requires i <= |a| && j < |b|
    ensures Best(a, b, i, j) <= Best(a, b, i, j + 1) <= Best(a, b, i, j) + 1
    decreases i + j
  {
    if i > 0 {
      BestGrowsAcross(a, b, i - 1, j);
      BestGrows(a, b, i - 1, j);
      if j > 0 {
        BestGrowsAcross(a, b, i - 1, j - 1);
      }
    }
  }

  // Behind a removal no line can be added: the removal was taken because it loses less.
  ghost predicate NoAddNext(a: seq<string>, b: seq<string>, path: seq<DiffLine>, i: nat, j: nat) {
    path != [] && path[|path| - 1].kind == Remove && j > 0 ==>
      i < |a| && j <= |b| && Best(a, b, i + 1, j - 1) < Best(a, b, i, j)
  }

  lemma AddAfterRemoval(a: seq<string>, b: seq<string>, i: nat, j: nat)
    requires i < |a| && 0 < j <= |b| && Best(a, b, i + 1, j - 1) < Best(a, b, i, j)
    ensures i > 0 && (a[i - 1] == b[j - 1] || Best(a, b, i, j - 1) < Best(a, b, i - 1, j))
  {
    BestGrows(a, b, i, j - 1);
  }

  // ── The walk ────────────────────────────────────────────────────────────────

  // What the walk keeps: the path so far, turned around, is a diff of what lies behind.
  ghost predicate Walked(a: seq<string>, b: seq<string>, path: seq<DiffLine>, i: nat, j: nat) {
    && i <= |a| && j <= |b|
    && OldSide(Reverse(path)) == a[i..] && NewSide(Reverse(path)) == b[j..]
    && |Kept(Reverse(path))| + Best(a, b, i, j) == Best(a, b, |a|, |b|)
    && Backwards(path) && NoAddNext(a, b, path, i, j)
  }

  lemma WalkEqual(a: seq<string>, b: seq<string>, path: seq<DiffLine>, i: nat, j: nat)
    requires Walked(a, b, path, i, j) && i > 0 && j > 0 && a[i - 1] == b[j - 1]
    ensures Walked(a, b, path + [DiffLine(Equal, a[i - 1])], i - 1, j - 1)
  {
    PushInFront(path, DiffLine(Equal, a[i - 1]));
    assert a[i - 1..] == [a[i - 1]] + a[i..] && b[j - 1..] == [b[j - 1]] + b[j..];
  }

  lemma WalkAdd(a: seq<string>, b: seq<string>, path: seq<DiffLine>, i: nat, j: nat)
    requires Walked(a, b, path, i, j) && j > 0
    requires i > 0 ==> a[i - 1] != b[j - 1] && Best(a, b, i, j - 1) >= Best(a, b, i - 1, j)
    ensures Walked(a, b, path + [DiffLine(Add, b[j - 1])], i, j - 1)
  {
    PushInFront(path, DiffLine(Add, b[j - 1]));
    if path != [] && path[|path| - 1].kind == Remove {
      AddAfterRemoval(a, b, i, j);
    }
    assert b[j - 1..] == [b[j - 1]] + b[j..] && a[i..] == [] + a[i..];
  }

  lemma WalkRemove(a: seq<string>, b: seq<string>, path: seq<DiffLine>, i: nat, j: nat)
    requires Walked(a, b, path, i, j) && i > 0
    requires j > 0 ==> a[i - 1] != b[j - 1] && Best(a, b, i, j - 1) < Best(a, b, i - 1, j)
    ensures Walked(a, b, path + [DiffLine(Remove, a[i - 1])], i - 1, j)
  {
    PushInFront(path, DiffLine(Remove, a[i - 1]));
    assert a[i - 1..] == [a[i - 1]] + a[i..] && b[j..] == [] + b[j..];
  }

  lemma WalkStarts(a: seq<string>, b: seq<string>)
    ensures Walked(a, b, [], |a|, |b|)
  {}

  lemma WalkEnds(a: seq<string>, b: seq<string>, path: seq<DiffLine>)
    requires Walked(a, b, path, 0, 0)
    ensures OldSide(Reverse(path)) == a && NewSide(Reverse(path)) == b
    ensures |Kept(Reverse(path))| == Best(a, b, |a|, |b|) && RemovedFirst(Reverse(path))
  {
    BackwardsReversed(path);
  }

  // The walk from the last corner of the table back to its first.
  method Traceback(a: seq<string>, b: seq<string>, dp: array2<nat>) returns (diff: seq<DiffLine>)
    requires dp.Length0 == |a| + 1 && dp.Length1 == |b| + 1
    requires forall i, j {:trigger dp[i, j]} :: 0 <= i <= |a| && 0 <= j <= |b| ==> dp[i, j] == Best(a, b, i, j)
    ensures OldSide(diff) == a && NewSide(diff) == b
    ensures |Kept(diff)| == Best(a, b, |a|, |b|)
    ensures RemovedFirst(diff)
  {
    var path: seq<DiffLine> := [];
    var i, j := |a|, |b|;
    WalkStarts(a, b);
    while i > 0 || j > 0
      invariant 0 <= i <= |a| && 0 <= j <= |b|
      invariant Walked(a, b, path, i, j)
      decreases i + j
    {
      if i > 0 && j > 0 && a[i - 1] == b[j - 1] {
        WalkEqual(a, b, path, i, j);
        path := path + [DiffLine(Equal, a[i - 1])];
        i, j := i - 1, j - 1;
      } else if j > 0 && (i == 0 || dp[i, j - 1] >= dp[i - 1, j]) {
        WalkAdd(a, b, path, i, j);
        path := path + [DiffLine(Add, b[j - 1])];
        j := j - 1;
      } else {
        assert j > 0 ==> Best(a, b, i, j - 1) == dp[i, j - 1] && Best(a, b, i - 1, j) == dp[i - 1, j];
        WalkRemove(a, b, path, i, j);
        path := path + [DiffLine(Remove, a[i - 1])];
        i := i - 1;
      }
    }
    assert i == 0 && j == 0;
    WalkEnds(a, b, path);
    diff := Reverse(path);
  }

  // The diff of two texts: without its added lines it is the old text, without its
  // removed lines the new one, no common subsequence is longer than what it keeps, and in
  // a changed stretch the removed lines come first.
  method ComputeDiff(oldText: string, newText: string) returns (diff: seq<DiffLine>)
    ensures Join(Without(diff, Add), "\n") == oldText
    ensures Join(Without(diff, Remove), "\n") == newText
    ensures Without(diff, Add) == Split(oldText, "\n") && Without(diff, Remove) == Split(newText, "\n")
    ensures forall k :: 0 <= k < |diff| - 1 && diff[k].kind == Add ==> diff[k + 1].kind != Remove
    ensures CommonSubsequence(Kept(diff), OldSide(diff), NewSide(diff))
    ensures forall s :: CommonSubsequence(s, OldSide(diff), NewSide(diff)) ==> |s| <= |Kept(diff)|
  {
    var a, b := Split(oldText, "\n"), Split(newText, "\n");
    var dp := FillTable(a, b);
    diff := Traceback(a, b, dp);
    JoinSplit(oldText, "\n");
    JoinSplit(newText, "\n");
    KeptIsCommon(diff);
    forall s | CommonSubsequence(s, a, b) ensures |s| <= |Kept(diff)| {
      assert a[..|a|] == a && b[..|b|] == b;
      BestIsUpperBound(s, a, b, |a|, |b|);
    }
  }

  // A diff that keeps a longest common subsequence is a shortest edit script.
  lemma ShortestScript(diff: seq<DiffLine>, other: seq<DiffLine>)
    requires forall s :: CommonSubsequence(s, OldSide(diff), NewSide(diff)) ==> |s| <= |Kept(diff)|
    requires OldSide(other) == OldSide(diff) && NewSide(other) == NewSide(diff)
    ensures |diff| <= |other|
  {
    KeptIsCommon(diff);
    KeptIsCommon(other);
  }
}
