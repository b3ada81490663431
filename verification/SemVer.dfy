// Version constraints: OR-groups of comma-separated clauses over dotted numeric versions.
module SemVer {
  import opened Wrappers
  import opened Text

  // ── Versions ────────────────────────────────────────────────────────────────

  predicate StartsLabel(c: char) { c == '-' || c == '+' }

  // The part of a segment before its first '-' or '+'.
  function StripLabel(p: string): (q: string)
    ensures forall i :: 0 <= i < |q| ==> !StartsLabel(q[i])
  {
    if p == "" || StartsLabel(p[0]) then "" else [p[0]] + StripLabel(p[1..])
  }

  // Numbers are read up to the first segment that is not one.
  function NumericPrefix(parts: seq<string>): (segments: seq<int>)
    ensures forall i :: 0 <= i < |segments| ==> segments[i] >= 0
  {
    if parts == [] then []
    else
      match Atoi(StripLabel(parts[0]))
      case None => []
      case Some(n) => [n] + NumericPrefix(parts[1..])
  }

  function Unprefixed(version: string): string {
    if version != "" && version[0] == 'v' then version[1..] else version
  }

  function Segments(version: string): seq<int> {
    NumericPrefix(Split(Unprefixed(version), "."))
  }

  method VersionSegments(version: string) returns (segments: seq<int>)
    ensures segments == Segments(version)
  {
    var parts := Split(Unprefixed(version), ".");
    segments := [];
    for i := 0 to |parts|
      invariant segments + NumericPrefix(parts[i..]) == Segments(version)
    {
      match Atoi(StripLabel(parts[i]))
      case None => return;
      case Some(n) => segments := segments + [n];
    }
  }

  // Missing segments count as zero.
  function At(segments: seq<int>, i: nat): int {
    if i < |segments| then segments[i] else 0
  }

  function Tail(segments: seq<int>): seq<int> {
    if segments == [] then [] else segments[1..]
  }

  // -1, 0 or 1: the order decided by the first segment that differs.
  function Compare(a: seq<int>, b: seq<int>): int
    decreases |a| + |b|
  {
    if a == [] && b == [] then 0
    else if At(a, 0) < At(b, 0) then -1
    else if At(a, 0) > At(b, 0) then 1
    else Compare(Tail(a), Tail(b))
  }

  method CompareVersions(x: string, y: string) returns (order: int)
    ensures order == Compare(Segments(x), Segments(y))
  {
    var a := VersionSegments(x);
    var b := VersionSegments(y);
    order := CompareSegments(a, b);
  }

  method CompareSegments(a: seq<int>, b: seq<int>) returns (order: int)
    ensures order == Compare(a, b)
  {
    var n := if |b| > |a| then |b| else |a|;
    for i := 0 to n
      invariant Compare(a, b) == Compare(From(a, i), From(b, i))
    {
      var p := if i < |a| then a[i] else 0;
      var q := if i < |b| then b[i] else 0;
      assert At(From(a, i), 0) == p && At(From(b, i), 0) == q;
      assert Tail(From(a, i)) == From(a, i + 1) && Tail(From(b, i)) == From(b, i + 1);
      if p < q { return -1; }
      if p > q { return 1; }
    }
    return 0;
  }

  function From(segments: seq<int>, i: nat): seq<int> {
    if i <= |segments| then segments[i..] else []
  }

  // The reference reading of the comparison: zero exactly on lists that agree once
  // padded with zeros, negative exactly when the first disagreement is in a's disfavour.
  ghost predicate Agree(a: seq<int>, b: seq<int>, n: nat) {
    forall i: nat :: i < n ==> At(a, i) == At(b, i)
  }

  lemma {:induction false} CompareMeaning(a: seq<int>, b: seq<int>)
    ensures Compare(a, b) in {-1, 0, 1}
    ensures Compare(a, b) == 0 <==> forall n: nat :: Agree(a, b, n)
    ensures Compare(a, b) < 0 <==> exists n: nat :: Agree(a, b, n) && At(a, n) < At(b, n)
    decreases |a| + |b|
  {
    if a != [] || b != [] {
      var a', b' := Tail(a), Tail(b);
      assert forall i: nat {:trigger At(a', i)} {:trigger At(b', i)} :: At(a', i) == At(a, i + 1) && At(b', i) == At(b, i + 1);
      CompareMeaning(a', b');
      if At(a, 0) == At(b, 0) {
        forall n: nat ensures Agree(a, b, n + 1) <==> Agree(a', b', n) { AgreeTail(a, b, n); }
        forall n: nat | Agree(a, b, n) && At(a, n) < At(b, n) ensures n > 0 && Agree(a', b', n - 1) && At(a', n - 1) < At(b', n - 1) {
          AgreeTail(a, b, n - 1);
        }
        forall n: nat | Agree(a', b', n) && At(a', n) < At(b', n) ensures Agree(a, b, n + 1) && At(a, n + 1) < At(b, n + 1) {}
        if Compare(a, b) == 0 {
          forall n: nat ensures Agree(a, b, n) { assert Agree(a', b', n); }
        } else {
          var m: nat :| !Agree(a', b', m);
          assert !Agree(a, b, m + 1);
        }
      } else {
        assert !Agree(a, b, 1);
        assert Agree(a, b, 0);
        forall n: nat | Agree(a, b, n) ensures n == 0 {}
      }
    }
  }

  lemma AgreeTail(a: seq<int>, b: seq<int>, n: nat)
    requires At(a, 0) == At(b, 0)
    ensures Agree(a, b, n + 1) <==> Agree(Tail(a), Tail(b), n)
  {
    var a', b' := Tail(a), Tail(b);
    assert forall i: nat {:trigger At(a', i)} {:trigger At(b', i)} :: At(a', i) == At(a, i + 1) && At(b', i) == At(b, i + 1);
    if Agree(a', b', n) {
      forall i: nat | i < n + 1 ensures At(a, i) == At(b, i) {
        if i > 0 { assert At(a', i - 1) == At(b', i - 1); }
      }
    }
  }

  // Versions are totally preordered, whatever the lengths of their segment lists.
  lemma {:induction false} ComparePreorder(a: seq<int>, b: seq<int>, c: seq<int>)
    ensures Compare(a, b) == -Compare(b, a)
    ensures Compare(a, b) <= 0 && Compare(b, c) <= 0 ==> Compare(a, c) <= 0
    ensures Compare(a, b) <= 0 && Compare(b, c) < 0 ==> Compare(a, c) < 0
    ensures Compare(a, b) < 0 && Compare(b, c) <= 0 ==> Compare(a, c) < 0
    decreases |a| + |b| + |c|
  {
    if a != [] || b != [] || c != [] {
      ComparePreorder(Tail(a), Tail(b), Tail(c));
    }
  }

  // ── Clauses ─────────────────────────────────────────────────────────────────

  datatype Operator = Ge | Le | Gt | Lt | EqEq | Eq

  datatype Clause = Clause(op: Operator, version: string)

  function OperatorText(op: Operator): string {
    match op
    case Ge => ">="
    case Le => "<="
    case Gt => ">"
    case Lt => "<"
    case EqEq => "=="
    case Eq => "="
  }

  // The operators are tried in this order, so ">=" is never read as ">".
  function Sign(text: string): (op: Option<Operator>)
    ensures op.Some? ==> OperatorText(op.value) <= text
  {
    if ">=" <= text then Some(Ge)
    else if "<=" <= text then Some(Le)
    else if ">" <= text then Some(Gt)
    else if "<" <= text then Some(Lt)
    else if "==" <= text then Some(EqEq)
    else if "=" <= text then Some(Eq)
    else None
  }

  function ParseClause(text: string): Option<Clause> {
    match Sign(text)
    case None => None
    case Some(op) => Some(Clause(op, TrimSpace(text[|OperatorText(op)|..])))
  }

  predicate Holds(op: Operator, order: int) {
    match op
    case Ge => order >= 0
    case Gt => order > 0
    case Le => order <= 0
    case Lt => order < 0
    case EqEq => order == 0
    case Eq => order == 0
  }

  predicate ClauseAccepts(clause: Clause, segments: seq<int>) {
    Holds(clause.op, Compare(segments, Segments(clause.version)))
  }

  predicate MatchClause(text: string, version: string) {
    match ParseClause(text)
    case None => false
    case Some(clause) => ClauseAccepts(clause, Segments(version))
  }

  // ── Constraints ─────────────────────────────────────────────────────────────

  function NonBlank(parts: seq<string>): (pieces: seq<string>)
    ensures forall i :: 0 <= i < |pieces| ==> pieces[i] != "" && Trimmed(pieces[i])
  {
    if parts == [] then []
    else (if TrimSpace(parts[0]) == "" then [] else [TrimSpace(parts[0])]) + NonBlank(parts[1..])
  }

  // The pieces the matcher's loops look at: trimmed, blanks skipped.
  function Pieces(text: string, sep: string): seq<string>
    requires sep != ""
  {
    NonBlank(Split(text, sep))
  }

  predicate MatchAndGroup(group: string, version: string) {
    var clauses := Pieces(group, ",");
    forall i :: 0 <= i < |clauses| ==> MatchClause(clauses[i], version)
  }

  predicate MatchVersionConstraint(constraint: string, version: string) {
    var text := TrimSpace(constraint);
    var groups := Pieces(text, "||");
    text == "" || exists i :: 0 <= i < |groups| && MatchAndGroup(groups[i], version)
  }

  predicate ValidGroup(group: string) {
    var clauses := Pieces(group, ",");
    forall i :: 0 <= i < |clauses| ==> ParseClause(clauses[i]).Some?
  }

  predicate ValidateVersionConstraint(constraint: string) {
    var text := TrimSpace(constraint);
    var groups := Pieces(text, "||");
    text == "" || forall i :: 0 <= i < |groups| ==> ValidGroup(groups[i])
  }

  // ── Syntax trees ────────────────────────────────────────────────────────────

  type Conjunction = seq<Clause>
  type Constraint = seq<Conjunction>

  predicate AcceptsAll(group: Conjunction, segments: seq<int>) {
    forall i :: 0 <= i < |group| ==> ClauseAccepts(group[i], segments)
  }

  predicate Accepts(tree: Constraint, segments: seq<int>) {
    exists i :: 0 <= i < |tree| && AcceptsAll(tree[i], segments)
  }

  function GroupTree(group: string): Conjunction
    requires ValidGroup(group)
  {
    var clauses := Pieces(group, ",");
    seq(|clauses|, i requires 0 <= i < |clauses| => ParseClause(clauses[i]).value)
  }

  function Tree(constraint: string): Constraint
    requires ValidateVersionConstraint(constraint)
    requires TrimSpace(constraint) != ""
  {
    var groups := Pieces(TrimSpace(constraint), "||");
    seq(|groups|, i requires 0 <= i < |groups| => GroupTree(groups[i]))
  }

  lemma GroupMeansTree(group: string, version: string)
    requires ValidGroup(group)
    ensures MatchAndGroup(group, version) <==> AcceptsAll(GroupTree(group), Segments(version))
  {
    var clauses, tree := Pieces(group, ","), GroupTree(group);
    forall i | 0 <= i < |clauses|
      ensures MatchClause(clauses[i], version) <==> ClauseAccepts(tree[i], Segments(version))
    {
      assert tree[i] == ParseClause(clauses[i]).value;
    }
  }

  // A validated constraint means its syntax tree: an OR of ANDs in which every clause
  // parses, so the matcher's error branch is dead. A blank constraint accepts everything.
  lemma ValidatedMeansTree(constraint: string, version: string)
    requires ValidateVersionConstraint(constraint)
    ensures TrimSpace(constraint) == "" ==> MatchVersionConstraint(constraint, version)
    ensures TrimSpace(constraint) != "" ==>
              (MatchVersionConstraint(constraint, version) <==> Accepts(Tree(constraint), Segments(version)))
  {
    if TrimSpace(constraint) != "" {
      var groups, tree := Pieces(TrimSpace(constraint), "||"), Tree(constraint);
      forall i | 0 <= i < |groups|
        ensures MatchAndGroup(groups[i], version) <==> AcceptsAll(tree[i], Segments(version))
      {
        GroupMeansTree(groups[i], version);
      }
    }
  }

  // The versions an AND-group accepts form an interval.
  lemma ConjunctionIsConvex(group: Conjunction, low: seq<int>, mid: seq<int>, high: seq<int>)
    requires Compare(low, mid) <= 0 && Compare(mid, high) <= 0
    requires AcceptsAll(group, low) && AcceptsAll(group, high)
    ensures AcceptsAll(group, mid)
  {
    forall i | 0 <= i < |group| ensures ClauseAccepts(group[i], mid) {
      var bound := Segments(group[i].version);
      assert ClauseAccepts(group[i], low) && ClauseAccepts(group[i], high);
      ComparePreorder(low, mid, bound);
      ComparePreorder(mid, high, bound);
      ComparePreorder(bound, low, mid);
    }
  }

  // ── Labels ──────────────────────────────────────────────────────────────────

  lemma {:induction false} LabelStrips(p: string, suffix: string)
    requires suffix != "" && StartsLabel(suffix[0])
    ensures StripLabel(p + suffix) == StripLabel(p)
  {
    if p == "" {
      assert p + suffix == suffix;
    } else {
      assert (p + suffix)[1..] == p[1..] + suffix;
      LabelStrips(p[1..], suffix);
    }
  }

  predicate AllNumbers(parts: seq<string>) { |NumericPrefix(parts)| == |parts| }

  lemma {:induction false} PrefixIsShorter(parts: seq<string>)
    ensures |NumericPrefix(parts)| <= |parts|
  {
    if parts != [] { PrefixIsShorter(parts[1..]); }
  }

  lemma OneNumber(p: string)
    ensures NumericPrefix([p]) == match Atoi(StripLabel(p)) case None => [] case Some(n) => [n]
  {
    var parts := [p];
    assert parts[1..] == [] && NumericPrefix(parts[1..]) == [];
  }

  lemma MoreNumbers(p: string, rest: seq<string>)
    ensures NumericPrefix([p] + rest) == match Atoi(StripLabel(p)) case None => [] case Some(n) => [n] + NumericPrefix(rest)
  {
    assert ([p] + rest)[1..] == rest;
  }

  lemma {:induction false} GluedNumbers(x: seq<string>, y: seq<string>)
    requires x != [] && y != [] && y[0] != "" && StartsLabel(y[0][0])
    ensures NumericPrefix(Glue(x, y)) == NumericPrefix(x) + (if AllNumbers(x) then NumericPrefix(y[1..]) else [])
  {
    if |x| == 1 {
      LabelStrips(x[0], y[0]);
      MoreNumbers(x[0] + y[0], y[1..]);
      OneNumber(x[0]);
      assert x == [x[0]];
    } else {
      GluedNumbers(x[1..], y);
      MoreNumbers(x[0], Glue(x[1..], y));
      PrefixIsShorter(x[1..]);
    }
  }

  // The numbers a label adds: what follows its first dot, if all segments before it count.
  function LabelSegments(core: string, suffix: string): seq<int> {
    if AllNumbers(Split(Unprefixed(core), ".")) then NumericPrefix(Split(suffix, ".")[1..]) else []
  }

  // A label loses its first part and nothing else: behind a dot its numbers count.
  lemma LabelledSegments(core: string, suffix: string)
    requires suffix != "" && StartsLabel(suffix[0])
    ensures Segments(core + suffix) == Segments(core) + LabelSegments(core, suffix)
  {
    var x, y := Split(Unprefixed(core), "."), Split(suffix, ".");
    assert Unprefixed(core + suffix) == Unprefixed(core) + suffix;
    SplitOfSum(Unprefixed(core), suffix, ".");
    FirstPart(suffix, ".");
    GluedNumbers(x, y);
  }

  predicate AllZero(segments: seq<int>) { forall i :: 0 <= i < |segments| ==> segments[i] == 0 }

  lemma {:induction false} CompareWithNothing(more: seq<int>)
    requires forall i :: 0 <= i < |more| ==> more[i] >= 0
    ensures Compare(more, []) == if AllZero(more) then 0 else 1
  {
    if more != [] {
      var rest := more[1..];
      assert more == [more[0]] + rest;
      CompareWithNothing(rest);
      assert Compare(more, []) == if more[0] > 0 then 1 else Compare(rest, []);
    }
  }

  lemma {:induction false} CompareWithPrefix(a: seq<int>, more: seq<int>)
    requires forall i :: 0 <= i < |more| ==> more[i] >= 0
    ensures Compare(a + more, a) == if AllZero(more) then 0 else 1
  {
    if a == [] {
      assert a + more == more;
      CompareWithNothing(more);
    } else {
      assert Tail(a + more) == Tail(a) + more;
      CompareWithPrefix(Tail(a), more);
    }
  }

  // A version with a pre-release or build label is never below the version without it, as
  // item 11 of Semantic Versioning 2.0.0 asks of pre-releases. It is equal if and only if
  // the label adds no number but zeros, and above otherwise.
  lemma LabelNeverLowers(core: string, suffix: string)
    requires suffix != "" && suffix[0] in {'-', '+'}
    ensures Compare(Segments(core + suffix), Segments(core)) == if AllZero(LabelSegments(core, suffix)) then 0 else 1
  {
    LabelledSegments(core, suffix);
    CompareWithPrefix(Segments(core), LabelSegments(core, suffix));
  }

  // A label without a dot is lost altogether.
  lemma PlainLabelIsLost(core: string, suffix: string)
    requires suffix != "" && suffix[0] in {'-', '+'} && '.' !in suffix
    ensures Compare(Segments(core + suffix), Segments(core)) == 0
  {
    NoSeparator(suffix, ".");
    LabelNeverLowers(core, suffix);
  }

  lemma {:induction false} DigitsKeep(p: string)
    requires AllDigits(p)
    ensures StripLabel(p) == p
  {
    if p != "" { DigitsKeep(p[1..]); }
  }

  lemma NumberRead(n: nat)
    requires n <= MAX_INT64
    ensures NumericPrefix([FormatNat(n)]) == [n] && '.' !in FormatNat(n)
  {
    var number := FormatNat(n);
    DigitsKeep(number);
    assert IsDigit(number[0]);
    assert Atoi(number) == Some(n);
    var parts := [number];
    assert parts[1..] == [];
    forall c | c in number ensures c != '.' {
      assert IsDigit(c);
    }
  }

  // A numbered one, like "-beta.2" behind "1.0.0", even raises the version.
  lemma NumberedLabelRaises(core: string, word: string, n: nat)
    requires AllNumbers(Split(Unprefixed(core), "."))
    requires word != "" && word[0] in {'-', '+'} && '.' !in word
    requires 0 < n <= MAX_INT64
    ensures Compare(Segments(core + (word + "." + FormatNat(n))), Segments(core)) == 1
  {
    var number := FormatNat(n);
    NumberRead(n);
    NumberedParts(word, number);
    LabelNeverLowers(core, word + "." + number);
    assert LabelSegments(core, word + "." + number)[0] == n;
  }

  lemma NumberedParts(word: string, number: string)
    requires '.' !in word && '.' !in number
    ensures Split(word + "." + number, ".")[1..] == [number]
  {
    var parts := [word, number];
    assert parts[1..] == [number] && Join(parts, ".") == word + "." + number;
    SplitJoin(parts, ".");
  }

  // ── Printing ────────────────────────────────────────────────────────────────

  predicate Solid(s: string) { s != "" && Trimmed(s) }

  // No two bars in a row.
  predicate BarFree(s: string) { forall j :: 0 <= j < |s| - 1 ==> !(s[j] == '|' && s[j + 1] == '|') }

  // The clauses the parser yields.
  predicate Printable(clause: Clause) {
    Trimmed(clause.version) && ',' !in clause.version && BarFree(clause.version)
  }

  predicate PrintableGroup(group: Conjunction) { forall i :: 0 <= i < |group| ==> Printable(group[i]) }

  predicate PrintableTree(tree: Constraint) { forall i :: 0 <= i < |tree| ==> PrintableGroup(tree[i]) }

  function PrintClause(clause: Clause): string {
    OperatorText(clause.op) + (if clause.version == "" then "" else " " + clause.version)
  }

  function PrintEach(group: Conjunction): (texts: seq<string>)
    ensures |texts| == |group|
    ensures forall i :: 0 <= i < |group| ==> texts[i] == PrintClause(group[i])
  {
    seq(|group|, i requires 0 <= i < |group| => PrintClause(group[i]))
  }

  // A group without clauses, which accepts everything, is a comma.
  function PrintGroup(group: Conjunction): string {
    if group == [] then "," else Join(PrintEach(group), ",")
  }

  function PrintGroups(tree: Constraint): (texts: seq<string>)
    ensures |texts| == |tree|
    ensures forall i :: 0 <= i < |tree| ==> texts[i] == PrintGroup(tree[i])
  {
    seq(|tree|, i requires 0 <= i < |tree| => PrintGroup(tree[i]))
  }

  // A tree without groups, which accepts nothing, is a separator. The blanks keep bars of
  // versions apart from it.
  function Print(tree: Constraint): string {
    if tree == [] then "||" else Join(PrintGroups(tree), " || ")
  }

  // Unless an equals sign follows, an operator is not read as a longer one.
  lemma SignReadsBack(op: Operator, tail: string)
    requires tail == "" || tail[0] != '='
    ensures Sign(OperatorText(op) + tail) == Some(op)
  {
    var sign := OperatorText(op);
    var text := sign + tail;
    assert |text| >= 2 ==> text[1] == if |sign| == 1 then tail[0] else sign[1];
    assert text[0] == sign[0] && sign <= text;
  }

  lemma OperatorReadsBack(op: Operator, tail: string)
    requires tail == "" || tail[0] != '='
    ensures ParseClause(OperatorText(op) + tail) == Some(Clause(op, TrimSpace(tail)))
  {
    SignReadsBack(op, tail);
    assert (OperatorText(op) + tail)[|OperatorText(op)|..] == tail;
  }

  lemma BlankAfter(s: string)
    requires Trimmed(s)
    ensures TrimSpace(s + " ") == s
  {
    var t := s + " ";
    assert t[..|t| - 1] == s && IsSpace(t[|t| - 1]);
    if s == "" {
      assert t[1..] == "";
    } else {
      assert t[0] == s[0] && TrimLeft(t) == t;
      assert TrimRight(t) == TrimRight(s) == s;
    }
  }

  lemma BlankBefore(s: string)
    ensures TrimSpace(" " + s) == TrimSpace(s)
  {
    assert (" " + s)[1..] == s;
    assert TrimLeft(" " + s) == TrimLeft(s);
  }

  lemma TrimBefore(before: string, t: string)
    requires before in {"", " "}
    ensures TrimSpace(before + t) == TrimSpace(t)
  {
    if before == " " {
      BlankBefore(t);
    } else {
      assert before + t == t;
    }
  }

  lemma TrimAfter(s: string, after: string)
    requires Trimmed(s) && after in {"", " "}
    ensures TrimSpace(s + after) == s
  {
    if after == " " {
      BlankAfter(s);
    } else {
      assert s + after == s;
    }
  }

  lemma BlanksAround(before: string, s: string, after: string)
    requires Trimmed(s) && before in {"", " "} && after in {"", " "}
    ensures TrimSpace(before + s + after) == s
  {
    TrimBefore(before, s + after);
    TrimAfter(s, after);
    assert before + s + after == before + (s + after);
  }

  lemma BarFreeSum(a: string, b: string)
    requires BarFree(a) && BarFree(b) && b != "" && b[0] != '|'
    ensures BarFree(a + b)
  {
    var s := a + b;
    forall j | 0 <= j < |s| - 1 ensures !(s[j] == '|' && s[j + 1] == '|') {
      if j < |a| - 1 {
        assert s[j] == a[j] && s[j + 1] == a[j + 1];
      } else if j >= |a| {
        assert s[j] == b[j - |a|] && s[j + 1] == b[j + 1 - |a|];
      }
    }
  }

  lemma MarkIsBarFree(mark: string, s: string)
    requires |mark| == 1 && mark[0] != '|' && BarFree(s)
    ensures BarFree(mark + s)
  {
    var t := mark + s;
    forall j | 0 <= j < |t| - 1 ensures !(t[j] == '|' && t[j + 1] == '|') {
      if j > 0 {
        assert t[j] == s[j - 1] && t[j + 1] == s[j];
      }
    }
  }

  lemma PrintedShape(clause: Clause)
    requires Printable(clause)
    ensures Solid(PrintClause(clause)) && ',' !in PrintClause(clause) && BarFree(PrintClause(clause))
  {
    var op, version := OperatorText(clause.op), clause.version;
    if version == "" {
      assert PrintClause(clause) == op;
    } else {
      var tail := " " + version;
      MarkIsBarFree(" ", version);
      BarFreeSum(op, tail);
      assert PrintClause(clause) == op + tail && (op + tail)[|op + tail| - 1] == version[|version| - 1];
    }
  }

  lemma ClauseRoundTrip(clause: Clause)
    requires Printable(clause)
    ensures ParseClause(PrintClause(clause)) == Some(clause)
    ensures Solid(PrintClause(clause)) && ',' !in PrintClause(clause) && BarFree(PrintClause(clause))
  {
    var version := clause.version;
    OperatorReadsBack(clause.op, if version == "" then "" else " " + version);
    BlanksAround(" ", version, "");
    assert " " + version + "" == " " + version;
    PrintedShape(clause);
  }

  lemma {:induction false} JoinSolid(parts: seq<string>, sep: string)
    requires parts != []
    requires forall i :: 0 <= i < |parts| ==> Solid(parts[i])
    ensures Solid(Join(parts, sep))
  {
    if |parts| > 1 {
      var rest := Join(parts[1..], sep);
      JoinSolid(parts[1..], sep);
      var s := parts[0] + sep + rest;
      assert s[0] == parts[0][0] && s[|s| - 1] == rest[|rest| - 1];
    }
  }

  lemma {:induction false} JoinBarFree(parts: seq<string>)
    requires parts != [] && forall i :: 0 <= i < |parts| ==> BarFree(parts[i])
    ensures BarFree(Join(parts, ","))
  {
    if |parts| > 1 {
      var tail := "," + Join(parts[1..], ",");
      JoinBarFree(parts[1..]);
      MarkIsBarFree(",", Join(parts[1..], ","));
      BarFreeSum(parts[0], tail);
      assert Join(parts, ",") == parts[0] + tail;
    }
  }

  lemma {:induction false} NonBlankSolid(parts: seq<string>)
    requires forall i :: 0 <= i < |parts| ==> Solid(parts[i])
    ensures NonBlank(parts) == parts
  {
    if parts != [] {
      NonBlankSolid(parts[1..]);
    }
  }

  lemma OnlySeparator(sep: string)
    requires sep != ""
    ensures Pieces(sep, sep) == []
  {
    assert sep[|sep|..] == "" && sep[..0] == "";
    assert IndexOf("", sep) == -1 && Split("", sep) == [""];
    assert Split(sep, sep) == ["", ""];
    assert ["", ""][1..] == [""] && [""][1..] == [];
  }

  lemma GroupShape(group: Conjunction)
    requires PrintableGroup(group)
    ensures Solid(PrintGroup(group)) && BarFree(PrintGroup(group))
  {
    var texts := PrintEach(group);
    forall i | 0 <= i < |texts| ensures Solid(texts[i]) && BarFree(texts[i]) {
      PrintedShape(group[i]);
    }
    if group != [] {
      JoinSolid(texts, ",");
      JoinBarFree(texts);
    }
  }

  lemma GroupPieces(group: Conjunction)
    requires PrintableGroup(group)
    ensures Pieces(PrintGroup(group), ",") == PrintEach(group)
  {
    var texts := PrintEach(group);
    if group == [] {
      OnlySeparator(",");
    } else {
      forall i | 0 <= i < |texts| ensures Solid(texts[i]) && ',' !in texts[i] {
        PrintedShape(group[i]);
      }
      SplitJoin(texts, ",");
      NonBlankSolid(texts);
    }
  }

  lemma GroupRoundTrip(group: Conjunction)
    requires PrintableGroup(group)
    ensures ValidGroup(PrintGroup(group)) && GroupTree(PrintGroup(group)) == group
  {
    GroupPieces(group);
    forall i | 0 <= i < |group| ensures ParseClause(PrintEach(group)[i]) == Some(group[i]) {
      ClauseRoundTrip(group[i]);
    }
  }

  lemma BarsAt(s: string, j: int)
    ensures 0 <= j && OccursAt(s, "||", j) ==> j + 1 < |s| && s[j] == '|' && s[j + 1] == '|'
  {
    if 0 <= j && OccursAt(s, "||", j) {
      assert s[j..][0] == "||"[0] && s[j..][1] == "||"[1];
    }
  }

  lemma FirstBars(p: string, rest: string)
    requires BarFree(p) && p != "" && p[|p| - 1] != '|'
    ensures IndexOf(p + "||" + rest, "||") == |p|
  {
    var s := p + "||" + rest;
    forall j | 0 <= j < |p| ensures !(s[j] == '|' && s[j + 1] == '|') {
      assert s[j] == p[j] && (j < |p| - 1 ==> s[j + 1] == p[j + 1]);
    }
    assert s[|p|..] == "||" + rest;
    IndexOfIsFirst(s, "||", |p|);
    BarsAt(s, IndexOf(s, "||"));
  }

  lemma NoBars(s: string)
    requires BarFree(s)
    ensures Split(s, "||") == [s]
  {
    IndexOfIsFirst(s, "||", 0);
    BarsAt(s, IndexOf(s, "||"));
  }

  lemma Padded(before: string, s: string, after: string)
    requires Solid(s) && BarFree(s) && before in {"", " "} && after in {"", " "}
    ensures var p := before + s + after; BarFree(p) && p != "" && (after == " " ==> p[|p| - 1] != '|')
  {
    var p := before + s + after;
    forall j | 0 <= j < |p| - 1 ensures !(p[j] == '|' && p[j + 1] == '|') {
      if |before| <= j < |before| + |s| - 1 {
        assert p[j] == s[j - |before|] && p[j + 1] == s[j + 1 - |before|];
      }
    }
  }

  lemma OnePiece(p: string)
    requires TrimSpace(p) != ""
    ensures NonBlank([p]) == [TrimSpace(p)]
  {
    var parts := [p];
    assert parts[1..] == [] && NonBlank(parts[1..]) == [];
  }

  lemma LastPiece(before: string, t: string)
    requires Solid(t) && BarFree(t) && before in {"", " "}
    ensures Pieces(before + t, "||") == [t]
  {
    Padded(before, t, "");
    BlanksAround(before, t, "");
    assert before + t + "" == before + t;
    NoBars(before + t);
    OnePiece(before + t);
  }

  lemma FirstPiece(before: string, t: string, rest: string)
    requires Solid(t) && BarFree(t) && before in {"", " "}
    ensures Pieces(before + t + " " + "||" + rest, "||") == [t] + Pieces(rest, "||")
  {
    var p := before + t + " ";
    var s := p + "||" + rest;
    Padded(before, t, " ");
    BlanksAround(before, t, " ");
    FirstBars(p, rest);
    assert s[..|p|] == p && s[|p| + 2..] == rest;
    var parts := [p] + Split(rest, "||");
    assert Split(s, "||") == parts && parts[1..] == Split(rest, "||");
  }

  // The text of a group, which a separator ends.
  predicate GroupText(s: string) { Solid(s) && BarFree(s) }

  // The printed groups are the pieces the matcher sees.
  lemma {:induction false} PrintedPieces(texts: seq<string>, before: string)
    requires texts != [] && before in {"", " "}
    requires forall i :: 0 <= i < |texts| ==> GroupText(texts[i])
    ensures Pieces(before + Join(texts, " || "), "||") == texts
    decreases |texts|
  {
    assert GroupText(texts[0]);
    if |texts| == 1 {
      LastPiece(before, texts[0]);
    } else {
      var rest := texts[1..];
      assert forall i :: 0 <= i < |rest| ==> rest[i] == texts[i + 1];
      PrintedPieces(rest, " ");
      MorePieces(before, texts[0], rest);
      assert texts == [texts[0]] + rest;
    }
  }

  lemma MorePieces(before: string, t: string, rest: seq<string>)
    requires GroupText(t) && before in {"", " "} && rest != []
    requires Pieces(" " + Join(rest, " || "), "||") == rest
    ensures Pieces(before + (t + " || " + Join(rest, " || ")), "||") == [t] + rest
  {
    FirstPiece(before, t, " " + Join(rest, " || "));
    Regroup(before, t, Join(rest, " || "));
  }

  lemma Regroup(before: string, t: string, tail: string)
    ensures before + (t + " || " + tail) == before + t + " " + "||" + (" " + tail)
  {
    assert " || " == " " + "||" + " ";
  }

  lemma TreePieces(tree: Constraint)
    requires PrintableTree(tree)
    ensures Solid(Print(tree)) && Pieces(Print(tree), "||") == PrintGroups(tree)
    ensures forall i :: 0 <= i < |tree| ==> ValidGroup(PrintGroup(tree[i])) && GroupTree(PrintGroup(tree[i])) == tree[i]
  {
    var texts := PrintGroups(tree);
    forall i | 0 <= i < |tree| ensures GroupText(texts[i]) && ValidGroup(texts[i]) && GroupTree(texts[i]) == tree[i] {
      GroupShape(tree[i]);
      GroupRoundTrip(tree[i]);
    }
    if tree == [] {
      OnlySeparator("||");
    } else {
      forall i | 0 <= i < |texts| ensures Solid(texts[i]) { assert GroupText(texts[i]); }
      JoinSolid(texts, " || ");
      PrintedPieces(texts, "");
      assert "" + Join(texts, " || ") == Join(texts, " || ");
    }
  }

  // A printed tree is valid, reads back as itself, and matches exactly what it means.
  lemma PrintRoundTrip(tree: Constraint, version: string)
    requires PrintableTree(tree)
    ensures ValidateVersionConstraint(Print(tree)) && TrimSpace(Print(tree)) != ""
    ensures Tree(Print(tree)) == tree
    ensures MatchVersionConstraint(Print(tree), version) <==> Accepts(tree, Segments(version))
  {
    TreePieces(tree);
    ValidatedMeansTree(Print(tree), version);
  }

  // ── The parser's trees are printable ────────────────────────────────────────

  // Trimming and splitting take parts of a text.
  lemma {:induction false} TrimIsPart(s: string) returns (a: nat, b: nat)
    ensures a <= b <= |s| && TrimSpace(s) == s[a..b]
    decreases |s|
  {
    var t := TrimLeft(s);
    a := LeftIsPart(s);
    var n := RightIsPart(t);
    b := a + n;
    assert s[a..][..n] == s[a..b];
  }

  lemma {:induction false} LeftIsPart(s: string) returns (a: nat)
    ensures a <= |s| && TrimLeft(s) == s[a..]
  {
    if s != "" && IsSpace(s[0]) {
      var k := LeftIsPart(s[1..]);
      a := k + 1;
    } else {
      a := 0;
    }
  }

  lemma {:induction false} RightIsPart(s: string) returns (n: nat)
    ensures n <= |s| && TrimRight(s) == s[..n]
  {
    if s != "" && IsSpace(s[|s| - 1]) {
      n := RightIsPart(s[..|s| - 1]);
      assert s[..|s| - 1][..n] == s[..n];
    } else {
      n := |s|;
    }
  }

  // Free of double bars and, if asked, of commas.
  predicate Clean(s: string, commas: bool) { BarFree(s) && (commas || ',' !in s) }

  lemma PartIsClean(s: string, a: nat, b: nat, commas: bool)
    requires a <= b <= |s| && Clean(s, commas)
    ensures Clean(s[a..b], commas)
  {
    var p := s[a..b];
    assert forall j :: 0 <= j < |p| ==> p[j] == s[a + j];
  }

  lemma TrimIsClean(s: string, commas: bool)
    requires Clean(s, commas)
    ensures Clean(TrimSpace(s), commas)
  {
    var a, b := TrimIsPart(s);
    PartIsClean(s, a, b, commas);
  }

  lemma {:induction false} NonBlankIsClean(parts: seq<string>, commas: bool)
    requires forall i :: 0 <= i < |parts| ==> Clean(parts[i], commas)
    ensures forall i :: 0 <= i < |NonBlank(parts)| ==> Clean(NonBlank(parts)[i], commas)
  {
    if parts != [] {
      TrimIsClean(parts[0], commas);
      NonBlankIsClean(parts[1..], commas);
    }
  }

  lemma {:induction false} BarPartsAreClean(s: string)
    ensures forall i :: 0 <= i < |Split(s, "||")| ==> Clean(Split(s, "||")[i], true)
    decreases |s|
  {
    var k := IndexOf(s, "||");
    var first := if k < 0 then s else s[..k];
    forall j | 0 <= j < |first| - 1 ensures !(first[j] == '|' && first[j + 1] == '|') {
      assert first[j] == s[j] && first[j + 1] == s[j + 1];
      if s[j] == '|' && s[j + 1] == '|' {
        assert s[j..][0] == '|' && s[j..][1] == '|';
        assert "||" <= s[j..];
        IndexOfIsFirst(s, "||", j);
      }
    }
    if k >= 0 {
      BarPartsAreClean(s[k + 2..]);
      assert Split(s, "||")[1..] == Split(s[k + 2..], "||");
    }
  }

  lemma {:induction false} CommaPartsAreClean(s: string)
    requires Clean(s, true)
    ensures forall i :: 0 <= i < |Split(s, ",")| ==> Clean(Split(s, ",")[i], false)
    decreases |s|
  {
    var k := IndexOf(s, ",");
    PartsAreFree(s, ",");
    if k >= 0 {
      PartIsClean(s, 0, k, true);
      PartIsClean(s, k + 1, |s|, true);
      assert s[0..k] == s[..k] && s[k + 1..|s|] == s[k + 1..];
      CommaPartsAreClean(s[k + 1..]);
      assert Split(s, ",")[1..] == Split(s[k + 1..], ",");
    }
  }

  lemma ParsedClauseIsPrintable(text: string)
    requires Clean(text, false) && ParseClause(text).Some?
    ensures Printable(ParseClause(text).value)
  {
    var n := |OperatorText(ParseClause(text).value.op)|;
    assert OperatorText(ParseClause(text).value.op) <= text;
    TailIsClean(text, n);
    TrimIsClean(text[n..], false);
  }

  lemma TailIsClean(s: string, n: nat)
    requires n <= |s| && Clean(s, false)
    ensures Clean(s[n..], false)
  {
    PartIsClean(s, n, |s|, false);
    assert s[n..|s|] == s[n..];
  }

  lemma ParsedGroupIsPrintable(group: string)
    requires Clean(group, true) && ValidGroup(group)
    ensures PrintableGroup(GroupTree(group))
  {
    var clauses := Pieces(group, ",");
    CommaPartsAreClean(group);
    NonBlankIsClean(Split(group, ","), false);
    forall i | 0 <= i < |clauses| ensures Printable(GroupTree(group)[i]) {
      ParsedClauseIsPrintable(clauses[i]);
    }
  }

  // Every tree the parser yields, groups without clauses and versions with bars included,
  // prints to a constraint that reads back as the same tree and matches the same versions.
  lemma ReprintKeepsMeaning(constraint: string, version: string)
    requires ValidateVersionConstraint(constraint) && TrimSpace(constraint) != ""
    ensures PrintableTree(Tree(constraint))
    ensures var again := Print(Tree(constraint));
            && ValidateVersionConstraint(again) && TrimSpace(again) != "" && Tree(again) == Tree(constraint)
            && (MatchVersionConstraint(again, version) <==> MatchVersionConstraint(constraint, version))
  {
    var text := TrimSpace(constraint);
    var groups := Pieces(text, "||");
    BarPartsAreClean(text);
    NonBlankIsClean(Split(text, "||"), true);
    forall i | 0 <= i < |groups| ensures PrintableGroup(Tree(constraint)[i]) {
      ParsedGroupIsPrintable(groups[i]);
    }
    PrintRoundTrip(Tree(constraint), version);
    ValidatedMeansTree(constraint, version);
  }

  // ── What constraint texts mean ──────────────────────────────────────────────

  lemma {:induction false} BlankBehind(s: string)
    requires s != "" && IsSpace(s[|s| - 1])
    ensures TrimSpace(s) == TrimSpace(s[..|s| - 1])
  {
    var u := s[..|s| - 1];
    if IsSpace(s[0]) {
      if |s| > 1 {
        BlankBehind(s[1..]);
        assert u[1..] == s[1..][..|s| - 2] && u[0] == s[0];
      } else {
        assert s[1..] == "";
      }
    } else {
      assert TrimLeft(s) == s && TrimLeft(u) == u;
    }
  }

  lemma {:induction false} TrimRightFirst(s: string)
    ensures TrimSpace(TrimRight(s)) == TrimSpace(s)
  {
    if s != "" && IsSpace(s[|s| - 1]) {
      TrimRightFirst(s[..|s| - 1]);
      BlankBehind(s);
    }
  }

  lemma {:induction false} NonBlankTrims(s: string, c: char)
    requires c in s && !IsSpace(c)
    ensures TrimSpace(s) != ""
  {
    if IsSpace(s[0]) {
      NonBlankTrims(s[1..], c);
    } else {
      FirstStays(s);
    }
  }

  lemma {:induction false} FirstStays(s: string)
    requires s != "" && !IsSpace(s[0])
    ensures TrimRight(s) != ""
  {
    if IsSpace(s[|s| - 1]) {
      FirstStays(s[..|s| - 1]);
    }
  }

  // Blanks around a text do not change its pieces.
  lemma BlankBeforePieces(s: string, sep: string)
    requires s != "" && IsSpace(s[0]) && sep != "" && !IsSpace(sep[0])
    ensures Pieces(s, sep) == Pieces(s[1..], sep)
  {
    var x, y := Split(s, sep), Split(s[1..], sep);
    var k := IndexOf(s[1..], sep);
    if k >= 0 {
      assert s[..k + 1] == [s[0]] + s[1..][..k] && s[k + 1 + |sep|..] == s[1..][k + |sep|..];
    } else {
      assert s == [s[0]] + s[1..];
    }
    assert x[0] == [s[0]] + y[0] && x[1..] == y[1..];
    assert x[0][1..] == y[0];
    assert TrimSpace(x[0]) == TrimSpace(y[0]);
  }

  lemma {:induction false} AppendIndex(u: string, c: char, sep: string)
    requires sep != "" && c != sep[|sep| - 1]
    ensures IndexOf(u + [c], sep) == IndexOf(u, sep)
  {
    var s := u + [c];
    assert sep <= s <==> sep <= u;
    if !(sep <= s) && u != "" {
      assert s[1..] == u[1..] + [c];
      AppendIndex(u[1..], c, sep);
    } else if !(sep <= s) {
      assert s[1..] == "";
    }
  }

  // A first part, if it is not blank, is a piece.
  function FirstPieces(p: string): seq<string> {
    if TrimSpace(p) == "" then [] else [TrimSpace(p)]
  }

  lemma PiecesBehind(p: string, q: string, sep: string)
    requires sep != ""
    ensures NonBlank([p] + Split(q, sep)) == FirstPieces(p) + Pieces(q, sep)
  {
    assert ([p] + Split(q, sep))[1..] == Split(q, sep);
  }

  lemma {:induction false} BlankBehindPieces(u: string, c: char, sep: string)
    requires IsSpace(c) && sep != "" && !IsSpace(sep[|sep| - 1])
    ensures Pieces(u + [c], sep) == Pieces(u, sep)
    decreases |u|
  {
    var k := IndexOf(u, sep);
    AppendIndex(u, c, sep);
    if k >= 0 {
      var p, rest := u[..k], u[k + |sep|..];
      IndexOfIsFirst(u, sep, 0);
      CutAt(u, sep, k);
      BlankBehindPieces(rest, c, sep);
      BlankBehindSum(u, p, sep, rest, c);
    } else {
      assert (u + [c])[..|u|] == u;
      BlankBehind(u + [c]);
      OnlyPieces(u + [c], sep);
      OnlyPieces(u, sep);
    }
  }

  lemma BlankBehindSum(u: string, p: string, sep: string, rest: string, c: char)
    requires sep != "" && u == p + sep + rest && IndexOf(u, sep) == |p| == IndexOf(u + [c], sep)
    requires Pieces(rest + [c], sep) == Pieces(rest, sep)
    ensures Pieces(u + [c], sep) == Pieces(u, sep)
  {
    assert u + [c] == p + sep + (rest + [c]);
    PiecesOfSum(p, sep, rest);
    PiecesOfSum(p, sep, rest + [c]);
  }

  lemma OnlyPieces(s: string, sep: string)
    requires sep != "" && IndexOf(s, sep) == -1
    ensures Pieces(s, sep) == FirstPieces(s)
  {
    var parts := [s];
    assert parts[1..] == [] && NonBlank(parts[1..]) == [];
  }

  lemma {:induction false} TrimLeftPieces(s: string, sep: string)
    requires sep != "" && !IsSpace(sep[0])
    ensures Pieces(TrimLeft(s), sep) == Pieces(s, sep)
  {
    if s != "" && IsSpace(s[0]) {
      TrimLeftPieces(s[1..], sep);
      BlankBeforePieces(s, sep);
    }
  }

  lemma {:induction false} TrimRightPieces(s: string, sep: string)
    requires sep != "" && !IsSpace(sep[|sep| - 1])
    ensures Pieces(TrimRight(s), sep) == Pieces(s, sep)
  {
    if s != "" && IsSpace(s[|s| - 1]) {
      TrimRightPieces(s[..|s| - 1], sep);
      BlankBehindPieces(s[..|s| - 1], s[|s| - 1], sep);
      assert s == s[..|s| - 1] + [s[|s| - 1]];
    }
  }

  lemma TrimPieces(s: string, sep: string)
    requires sep != "" && !IsSpace(sep[0]) && !IsSpace(sep[|sep| - 1])
    ensures Pieces(TrimSpace(s), sep) == Pieces(s, sep)
  {
    TrimRightPieces(TrimLeft(s), sep);
    TrimLeftPieces(s, sep);
  }

  lemma PiecesOfSum(p: string, sep: string, q: string)
    requires sep != "" && IndexOf(p + sep + q, sep) == |p|
    ensures Pieces(p + sep + q, sep) == FirstPieces(p) + Pieces(q, sep)
  {
    var s := p + sep + q;
    assert s[..|p|] == p && s[|p| + |sep|..] == q;
    PiecesBehind(p, q, sep);
  }

  lemma OneText(s: string, sep: string)
    requires sep != "" && Split(s, sep) == [s]
    ensures Pieces(s, sep) == FirstPieces(s)
  {
    var parts := [s];
    assert parts[1..] == [] && NonBlank(parts[1..]) == [];
  }

  lemma BlankGroup(s: string, version: string)
    requires TrimSpace(s) == ""
    ensures MatchAndGroup(s, version)
  {
    TrimPieces(s, ",");
    NoSeparator("", ",");
    OneText("", ",");
  }

  lemma TrimGroup(s: string, version: string)
    ensures MatchAndGroup(TrimSpace(s), version) <==> MatchAndGroup(s, version)
  {
    TrimPieces(s, ",");
  }

  // Without bars a constraint is one group, blank or not.
  lemma OneGroup(s: string, version: string)
    requires BarFree(s)
    ensures MatchVersionConstraint(s, version) <==> MatchAndGroup(s, version)
  {
    TrimPieces(s, "||");
    NoBars(s);
    OneText(s, "||");
    TrimGroup(s, version);
    if TrimSpace(s) == "" {
      BlankGroup(s, version);
    } else {
      assert FirstPieces(s)[0] == TrimSpace(s);
    }
  }

  lemma OneClause(s: string, version: string)
    requires BarFree(s) && ',' !in s && TrimSpace(s) != ""
    ensures MatchVersionConstraint(s, version) <==> MatchClause(TrimSpace(s), version)
  {
    OneGroup(s, version);
    NoSeparator(s, ",");
    OnePiece(s);
    assert Pieces(s, ",") == [TrimSpace(s)] && Pieces(s, ",")[0] == TrimSpace(s);
  }

  // A comma is AND: the first clause and what follows it must both match. Blank texts
  // match everything.
  lemma CommaIsAnd(p: string, q: string, version: string)
    requires BarFree(p) && ',' !in p && BarFree(q)
    ensures MatchVersionConstraint(p + "," + q, version) <==>
            MatchVersionConstraint(p, version) && MatchVersionConstraint(q, version)
  {
    var s := p + "," + q;
    MarkIsBarFree(",", q);
    BarFreeSum(p, "," + q);
    assert s == p + ("," + q);
    OneGroup(s, version);
    OneGroup(q, version);
    FirstSeparator(p, ",", q);
    PiecesOfSum(p, ",", q);
    GroupOfSum(s, FirstPieces(p), q, version);
    if TrimSpace(p) != "" {
      OneClause(p, version);
      assert FirstPieces(p)[0] == TrimSpace(p);
    }
  }

  lemma GroupOfSum(s: string, first: seq<string>, q: string, version: string)
    requires Pieces(s, ",") == first + Pieces(q, ",")
    ensures MatchAndGroup(s, version) <==>
            (forall i :: 0 <= i < |first| ==> MatchClause(first[i], version)) && MatchAndGroup(q, version)
  {
    var clauses, rest := Pieces(s, ","), Pieces(q, ",");
    forall i | 0 <= i < |first| ensures clauses[i] == first[i] {}
    forall i | 0 <= i < |rest| ensures clauses[|first| + i] == rest[i] {}
    if MatchAndGroup(s, version) {
      forall i | 0 <= i < |rest| ensures MatchClause(rest[i], version) {
        assert MatchClause(clauses[|first| + i], version);
      }
    }
  }

  lemma FirstGroup(p: string, version: string)
    requires BarFree(p)
    ensures (exists i :: 0 <= i < |FirstPieces(p)| && MatchAndGroup(FirstPieces(p)[i], version)) <==>
            TrimSpace(p) != "" && MatchVersionConstraint(p, version)
  {
    if TrimSpace(p) != "" {
      OneGroup(p, version);
      TrimGroup(p, version);
      assert FirstPieces(p)[0] == TrimSpace(p);
    }
  }

  lemma OtherGroups(q: string, version: string)
    ensures (exists i :: 0 <= i < |Pieces(q, "||")| && MatchAndGroup(Pieces(q, "||")[i], version)) <==>
            TrimSpace(q) != "" && MatchVersionConstraint(q, version)
  {
    TrimPieces(q, "||");
    if TrimSpace(q) == "" {
      OnlyPieces("", "||");
    }
  }

  // Double bars are OR: the first group or what follows it must match, blank ones aside.
  lemma BarsAreOr(p: string, q: string, version: string)
    requires BarFree(p) && (p == "" || p[|p| - 1] != '|')
    ensures MatchVersionConstraint(p + "||" + q, version) <==>
            || (TrimSpace(p) != "" && MatchVersionConstraint(p, version))
            || (TrimSpace(q) != "" && MatchVersionConstraint(q, version))
  {
    var s := p + "||" + q;
    assert s[|p|] == '|';
    NonBlankTrims(s, '|');
    BarsIndex(p, q);
    PiecesOfSum(p, "||", q);
    OtherGroups(s, version);
    SomeOfSum(FirstPieces(p), Pieces(q, "||"), version);
    FirstGroup(p, version);
    OtherGroups(q, version);
  }

  lemma SomeOfSum(a: seq<string>, b: seq<string>, version: string)
    ensures (exists i :: 0 <= i < |a + b| && MatchAndGroup((a + b)[i], version)) <==>
            || (exists i :: 0 <= i < |a| && MatchAndGroup(a[i], version))
            || (exists i :: 0 <= i < |b| && MatchAndGroup(b[i], version))
  {
    if i :| 0 <= i < |b| && MatchAndGroup(b[i], version) {
      assert (a + b)[|a| + i] == b[i];
    }
    if i :| 0 <= i < |a| && MatchAndGroup(a[i], version) {
      assert (a + b)[i] == a[i];
    }
  }

  lemma BarsIndex(p: string, q: string)
    requires BarFree(p) && (p == "" || p[|p| - 1] != '|')
    ensures IndexOf(p + "||" + q, "||") == |p|
  {
    if p == "" {
      assert p + "||" + q == "||" + q;
    } else {
      FirstBars(p, q);
    }
  }

  lemma {:induction false} SignStays(sign: string, v: string)
    requires sign != "" && !IsSpace(sign[|sign| - 1])
    ensures TrimRight(sign + v) == sign + TrimRight(v)
  {
    var s := sign + v;
    if v != "" && IsSpace(v[|v| - 1]) {
      assert s[..|s| - 1] == sign + v[..|v| - 1];
      SignStays(sign, v[..|v| - 1]);
    } else if v == "" {
      assert s == sign;
    }
  }

  lemma ClauseText(op: Operator, v: string)
    requires (v == "" || v[0] != '=') && ',' !in v && BarFree(v)
    ensures var s := OperatorText(op) + v;
            && BarFree(s) && ',' !in s && TrimSpace(s) != ""
            && ParseClause(TrimSpace(s)) == Some(Clause(op, TrimSpace(v)))
  {
    var sign := OperatorText(op);
    var s := sign + v;
    SignStays(sign, v);
    assert s[0] == sign[0] && TrimLeft(s) == s;
    OperatorReadsBack(op, TrimRight(v));
    TrimRightFirst(v);
    forall j | 0 <= j < |s| - 1 ensures !(s[j] == '|' && s[j + 1] == '|') {
      if j >= |sign| {
        assert s[j] == v[j - |sign|] && s[j + 1] == v[j + 1 - |sign|];
      }
    }
  }

  lemma ClauseHolds(op: Operator, v: string, version: string)
    requires (v == "" || v[0] != '=') && ',' !in v && BarFree(v)
    ensures MatchVersionConstraint(OperatorText(op) + v, version) <==>
            Holds(op, Compare(Segments(version), Segments(TrimSpace(v))))
  {
    ClauseText(op, v);
    OneClause(OperatorText(op) + v, version);
  }

  lemma CompareSigns(a: seq<int>, b: seq<int>)
    ensures Compare(a, b) == 0 <==> forall n: nat :: Agree(a, b, n)
    ensures Compare(a, b) < 0 <==> exists n: nat :: Agree(a, b, n) && At(a, n) < At(b, n)
    ensures Compare(a, b) > 0 <==> exists n: nat :: Agree(a, b, n) && At(a, n) > At(b, n)
  {
    CompareMeaning(a, b);
    CompareMeaning(b, a);
    ComparePreorder(a, b, a);
    forall n: nat ensures Agree(a, b, n) <==> Agree(b, a, n) {}
  }

  // What the six operators say about an agent's version, by its first disagreement with
  // the version behind the operator.
  lemma OperatorMeaning(v: string, version: string)
    requires (v == "" || v[0] != '=') && ',' !in v && BarFree(v)
    ensures var a, b := Segments(version), Segments(TrimSpace(v));
            && (MatchVersionConstraint("<" + v, version) <==> exists n: nat :: Agree(a, b, n) && At(a, n) < At(b, n))
            && (MatchVersionConstraint(">=" + v, version) <==> !exists n: nat :: Agree(a, b, n) && At(a, n) < At(b, n))
            && (MatchVersionConstraint(">" + v, version) <==> exists n: nat :: Agree(a, b, n) && At(a, n) > At(b, n))
            && (MatchVersionConstraint("<=" + v, version) <==> !exists n: nat :: Agree(a, b, n) && At(a, n) > At(b, n))
            && (MatchVersionConstraint("=" + v, version) <==> forall n: nat :: Agree(a, b, n))
            && (MatchVersionConstraint("==" + v, version) <==> forall n: nat :: Agree(a, b, n))
  {
    CompareSigns(Segments(version), Segments(TrimSpace(v)));
    ClauseHolds(Lt, v, version);
    ClauseHolds(Ge, v, version);
    ClauseHolds(Gt, v, version);
    ClauseHolds(Le, v, version);
    ClauseHolds(Eq, v, version);
    ClauseHolds(EqEq, v, version);
  }

  // Bounds are complements of one another, a version is what lies between itself and
  // itself, and a lower bound keeps holding for higher versions, an upper for lower ones.
  lemma BoundLaws(v: string, version: string, other: string)
    requires (v == "" || v[0] != '=') && ',' !in v && BarFree(v)
    ensures MatchVersionConstraint(">=" + v, version) <==> !MatchVersionConstraint("<" + v, version)
    ensures MatchVersionConstraint("<=" + v, version) <==> !MatchVersionConstraint(">" + v, version)
    ensures MatchVersionConstraint(">=" + v + "," + ("<=" + v), version) <==> MatchVersionConstraint("==" + v, version)
    ensures MatchVersionConstraint(">=" + v, version) && Compare(Segments(version), Segments(other)) <= 0 ==>
              MatchVersionConstraint(">=" + v, other)
    ensures MatchVersionConstraint("<=" + v, version) && Compare(Segments(other), Segments(version)) <= 0 ==>
              MatchVersionConstraint("<=" + v, other)
  {
    var a, b, c := Segments(version), Segments(TrimSpace(v)), Segments(other);
    ClauseText(Ge, v);
    ClauseText(Le, v);
    CommaIsAnd(">=" + v, "<=" + v, version);
    ClauseHolds(Lt, v, version);
    ClauseHolds(Ge, v, version);
    ClauseHolds(Gt, v, version);
    ClauseHolds(Le, v, version);
    ClauseHolds(EqEq, v, version);
    ClauseHolds(Ge, v, other);
    ClauseHolds(Le, v, other);
    ComparePreorder(b, a, c);
    ComparePreorder(c, a, b);
    ComparePreorder(a, b, c);
    ComparePreorder(a, c, b);
  }

  // ── Versions as written ─────────────────────────────────────────────────────

  function Dotted(ns: seq<nat>): string {
    if ns == [] then "" else if |ns| == 1 then FormatNat(ns[0]) else FormatNat(ns[0]) + "." + Dotted(ns[1..])
  }

  lemma SplitFirst(p: string, rest: string)
    requires '.' !in p
    ensures Split(p + "." + rest, ".") == [p] + Split(rest, ".")
  {
    var s := p + "." + rest;
    FirstSeparator(p, ".", rest);
    SplitCut(s, ".", |p|);
    assert s[..|p|] == p && s[|p| + 1..] == rest;
  }

  lemma {:induction false} DottedParts(ns: seq<nat>)
    requires ns != [] && forall i :: 0 <= i < |ns| ==> ns[i] <= MAX_INT64
    ensures NumericPrefix(Split(Dotted(ns), ".")) == ns
  {
    NumberRead(ns[0]);
    var number := FormatNat(ns[0]);
    if |ns| == 1 {
      NoSeparator(number, ".");
      assert ns == [ns[0]];
    } else {
      DottedParts(ns[1..]);
      SplitFirst(number, Dotted(ns[1..]));
      MoreNumbers(number, Split(Dotted(ns[1..]), "."));
      OneNumber(number);
      assert ns == [ns[0]] + ns[1..];
    }
  }

  lemma DottedStart(ns: seq<nat>)
    requires ns != []
    ensures Dotted(ns) != "" && Dotted(ns)[0] != 'v'
  {
    var number := FormatNat(ns[0]);
    assert IsDigit(number[0]) && Dotted(ns)[0] == number[0];
  }

  lemma PrefixIsDropped(s: string)
    ensures Unprefixed("v" + s) == s
    ensures s != "" && s[0] != 'v' ==> Unprefixed(s) == s
  {
    assert ("v" + s)[1..] == s;
  }

  // A version written as dotted numbers, with or without a "v", reads back as its numbers.
  lemma VersionReadsBack(ns: seq<nat>)
    requires ns != [] && forall i :: 0 <= i < |ns| ==> ns[i] <= MAX_INT64
    ensures Segments(Dotted(ns)) == ns && Segments("v" + Dotted(ns)) == ns
  {
    DottedParts(ns);
    DottedStart(ns);
    PrefixIsDropped(Dotted(ns));
  }
}
