// The string operations the server relies on: splitting, joining, trimming,
// and decimal numbers. Strings are sequences of Unicode scalars.
module Text {
  import opened Wrappers

  // ── Trimming ────────────────────────────────────────────────────────────────

  // The characters Go's unicode.IsSpace accepts.
  predicate IsSpace(c: char) {
    || c in {' ', '\t', '\n', '\r', '\U{000B}', '\U{000C}', '\U{0085}', '\U{00A0}', '\U{1680}'}
    || '\U{2000}' <= c <= '\U{200A}'
    || c in {'\U{2028}', '\U{2029}', '\U{202F}', '\U{205F}', '\U{3000}'}
  }

  predicate Trimmed(s: string) {
    s == "" || (!IsSpace(s[0]) && !IsSpace(s[|s| - 1]))
  }

  function TrimLeft(s: string): (t: string)
    ensures t == "" || !IsSpace(t[0])
    ensures |t| <= |s|
  {
    if s != "" && IsSpace(s[0]) then TrimLeft(s[1..]) else s
  }

  function TrimRight(s: string): (t: string)
    ensures t == "" || !IsSpace(t[|t| - 1])
    ensures |t| <= |s| && (t != "" ==> t[0] == s[0])
  {
    if s != "" && IsSpace(s[|s| - 1]) then TrimRight(s[..|s| - 1]) else s
  }

  function TrimSpace(s: string): (t: string)
    ensures Trimmed(t)
    ensures |t| <= |s|
    ensures Trimmed(s) ==> t == s
  {
    TrimRight(TrimLeft(s))
  }

  // ── Order ───────────────────────────────────────────────────────────────────

  // Lexicographic comparison: -1, 0 or 1.
  function CompareText(a: string, b: string): int {
    if a == "" && b == "" then 0
    else if a == "" then -1
    else if b == "" then 1
    else if a[0] < b[0] then -1
    else if a[0] > b[0] then 1
    else CompareText(a[1..], b[1..])
  }

  lemma {:induction false} TextOrder(a: string, b: string, c: string)
    ensures CompareText(a, b) in {-1, 0, 1}
    ensures CompareText(a, b) == 0 <==> a == b
    ensures CompareText(a, b) == -CompareText(b, a)
    ensures CompareText(a, b) <= 0 && CompareText(b, c) <= 0 ==> CompareText(a, c) <= 0
    decreases |a| + |b| + |c|
  {
    if a != "" && b != "" {
      TextOrder(a[1..], b[1..], if c == "" then c else c[1..]);
      assert a == [a[0]] + a[1..] && b == [b[0]] + b[1..];
    }
  }

  lemma SharedStart(a: string, b: string, k: nat)
    ensures 0 < k <= |a| && k <= |b| && a[..k] == b[..k] ==> a[0] == b[0]
  {
    if 0 < k <= |a| && k <= |b| {
      assert a[0] == a[..k][0] && b[0] == b[..k][0];
    }
  }

  // It is the order of the first difference, and a text comes before its continuations.
  lemma {:induction false} CompareTextIsLexicographic(a: string, b: string)
    ensures CompareText(a, b) < 0 <==>
            exists k: nat :: k <= |a| && k < |b| && a[..k] == b[..k] && (k == |a| || a[k] < b[k])
  {
    if a != "" && b != "" && a[0] == b[0] {
      var a', b' := a[1..], b[1..];
      CompareTextIsLexicographic(a', b');
      if k: nat :| k <= |a'| && k < |b'| && a'[..k] == b'[..k] && (k == |a'| || a'[k] < b'[k]) {
        assert a[..k + 1] == [a[0]] + a'[..k] && b[..k + 1] == [b[0]] + b'[..k];
      }
      if k: nat :| k <= |a| && k < |b| && a[..k] == b[..k] && (k == |a| || a[k] < b[k]) {
        assert k > 0 && a'[..k - 1] == a[..k][1..] && b'[..k - 1] == b[..k][1..];
      }
    } else if b != "" {
      assert a[..0] == b[..0];
      forall k: nat { SharedStart(a, b, k); }
    }
  }

  // ── Splitting and joining ───────────────────────────────────────────────────

  predicate OccursAt(s: string, sep: string, j: nat) {
    j <= |s| && sep <= s[j..]
  }

  // Index of the first occurrence of sep, or -1.
  function IndexOf(s: string, sep: string): (k: int)
    requires sep != ""
    ensures -1 <= k <= |s| - |sep| || k == -1
  {
    if sep <= s then 0
    else if s == "" then -1
    else
      var k := IndexOf(s[1..], sep);
      if k < 0 then -1 else k + 1
  }

  lemma OccursBehind(s: string, sep: string, j: nat)
    requires s != ""
    ensures OccursAt(s, sep, j + 1) <==> OccursAt(s[1..], sep, j)
  {
    if j < |s| {
      assert s[1..][j..] == s[j + 1..];
    }
  }

  lemma OccursFirst(s: string, sep: string)
    ensures OccursAt(s, sep, 0) <==> sep <= s
  {
    assert s[0..] == s;
  }

  lemma {:induction false} IndexOfIsFirst(s: string, sep: string, j: nat)
    requires sep != ""
    ensures IndexOf(s, sep) >= 0 ==> OccursAt(s, sep, IndexOf(s, sep))
    ensures OccursAt(s, sep, j) ==> 0 <= IndexOf(s, sep) <= j
  {
    OccursFirst(s, sep);
    if !(sep <= s) && s != "" {
      var k := IndexOf(s[1..], sep);
      if j > 0 {
        IndexOfIsFirst(s[1..], sep, j - 1);
        OccursBehind(s, sep, j - 1);
      } else {
        IndexOfIsFirst(s[1..], sep, 0);
      }
      if k >= 0 {
        OccursBehind(s, sep, k);
      }
    }
  }

  predicate Contains(s: string, sub: string)
    requires sub != ""
  {
    IndexOf(s, sub) >= 0
  }

  lemma ContainsChar(s: string, c: char)
    ensures Contains(s, [c]) <==> c in s
  {
    IndexOfIsFirst(s, [c], 0);
    var k := IndexOf(s, [c]);
    if k >= 0 {
      assert s[k] == s[k..][0];
    }
    if j :| 0 <= j < |s| && s[j] == c {
      assert s[j..][0] == c && OccursAt(s, [c], j);
      IndexOfIsFirst(s, [c], j);
    }
  }

  function Join(parts: seq<string>, sep: string): string {
    if parts == [] then ""
    else if |parts| == 1 then parts[0]
    else parts[0] + sep + Join(parts[1..], sep)
  }

  function Split(s: string, sep: string): (parts: seq<string>)
    requires sep != ""
    ensures |parts| >= 1
    decreases |s|
  {
    var k := IndexOf(s, sep);
    if k < 0 then [s] else [s[..k]] + Split(s[k + |sep|..], sep)
  }

  lemma JoinMore(p: string, rest: seq<string>, sep: string)
    requires rest != []
    ensures Join([p] + rest, sep) == p + sep + Join(rest, sep)
  {
    assert ([p] + rest)[1..] == rest;
  }

  lemma CutAt(s: string, sep: string, k: nat)
    requires OccursAt(s, sep, k)
    ensures k + |sep| <= |s| && s == s[..k] + sep + s[k + |sep|..]
  {
    assert s == s[..k] + s[k..];
    assert s[k..] == sep + s[k..][|sep|..];
  }

  lemma SplitCut(s: string, sep: string, k: nat)
    requires sep != "" && IndexOf(s, sep) == k
    ensures Split(s, sep) == [s[..k]] + Split(s[k + |sep|..], sep)
  {}

  // Splitting loses nothing: joining the parts again gives the text back.
  lemma {:induction false} JoinSplit(s: string, sep: string)
    requires sep != ""
    ensures Join(Split(s, sep), sep) == s
    decreases |s|
  {
    var k := IndexOf(s, sep);
    if k >= 0 {
      IndexOfIsFirst(s, sep, 0);
      CutAt(s, sep, k);
      JoinSplit(s[k + |sep|..], sep);
      JoinMore(s[..k], Split(s[k + |sep|..], sep), sep);
    }
  }

  lemma OccurrenceStarts(s: string, sep: string, j: nat)
    requires sep != "" && OccursAt(s, sep, j)
    ensures j < |s| && s[j] == sep[0]
  {
    assert s[j] == s[j..][0];
  }

  lemma FirstSeparator(p: string, sep: string, rest: string)
    requires sep != "" && sep[0] !in p
    ensures IndexOf(p + sep + rest, sep) == |p|
  {
    var s := p + sep + rest;
    assert s[|p|..] == sep + rest;
    IndexOfIsFirst(s, sep, |p|);
    OccurrenceStarts(s, sep, IndexOf(s, sep));
  }

  lemma NoSeparator(p: string, sep: string)
    requires sep != "" && sep[0] !in p
    ensures IndexOf(p, sep) == -1
  {
    if IndexOf(p, sep) >= 0 {
      IndexOfIsFirst(p, sep, 0);
      OccurrenceStarts(p, sep, IndexOf(p, sep));
    }
  }

  // Joining is undone by splitting as long as no part holds the separator's first character.
  lemma {:induction false} SplitJoin(parts: seq<string>, sep: string)
    requires sep != "" && parts != []
    requires forall i :: 0 <= i < |parts| ==> sep[0] !in parts[i]
    ensures Split(Join(parts, sep), sep) == parts
  {
    if |parts| == 1 {
      NoSeparator(parts[0], sep);
    } else {
      var p, rest := parts[0], Join(parts[1..], sep);
      FirstSeparator(p, sep, rest);
      assert (p + sep + rest)[|p| + |sep|..] == rest;
      SplitJoin(parts[1..], sep);
      assert (p + sep + rest)[..|p|] == p && [p] + parts[1..] == parts;
    }
  }

  // ── Splitting a sum ─────────────────────────────────────────────────────────

  // The last part of one list and the first of another become one.
  function Glue(x: seq<string>, y: seq<string>): (glued: seq<string>)
    requires x != [] && y != []
    ensures glued != []
  {
    if |x| == 1 then [x[0] + y[0]] + y[1..] else [x[0]] + Glue(x[1..], y)
  }

  lemma JoinOne(p: string, y: seq<string>, sep: string)
    requires y != []
    ensures Join([p + y[0]] + y[1..], sep) == p + Join(y, sep)
  {
    assert y == [y[0]] + y[1..];
    if |y| > 1 {
      JoinMore(p + y[0], y[1..], sep);
      assert (p + y[0]) + sep + Join(y[1..], sep) == p + (y[0] + sep + Join(y[1..], sep));
    }
  }

  lemma {:induction false} JoinGlue(x: seq<string>, y: seq<string>, sep: string)
    requires x != [] && y != []
    ensures Join(Glue(x, y), sep) == Join(x, sep) + Join(y, sep)
  {
    if |x| == 1 {
      JoinOne(x[0], y, sep);
    } else {
      JoinGlue(x[1..], y, sep);
      JoinMore(x[0], Glue(x[1..], y), sep);
      assert x[0] + sep + (Join(x[1..], sep) + Join(y, sep)) == (x[0] + sep + Join(x[1..], sep)) + Join(y, sep);
    }
  }

  lemma {:induction false} GlueFree(x: seq<string>, y: seq<string>, c: char)
    requires x != [] && y != []
    requires forall i :: 0 <= i < |x| ==> c !in x[i]
    requires forall i :: 0 <= i < |y| ==> c !in y[i]
    ensures forall i :: 0 <= i < |Glue(x, y)| ==> c !in Glue(x, y)[i]
  {
    if |x| > 1 {
      GlueFree(x[1..], y, c);
    }
  }

  // A one-character separator is in no part.
  lemma {:induction false} PartsAreFree(s: string, sep: string)
    requires |sep| == 1
    ensures forall i :: 0 <= i < |Split(s, sep)| ==> sep[0] !in Split(s, sep)[i]
    decreases |s|
  {
    var k := IndexOf(s, sep);
    forall j | 0 <= j < |s| && s[j] == sep[0] ensures 0 <= k <= j {
      assert s[j..][0] == sep[0] && sep <= s[j..];
      IndexOfIsFirst(s, sep, j);
    }
    if k >= 0 {
      PartsAreFree(s[k + 1..], sep);
      assert Split(s, sep)[1..] == Split(s[k + 1..], sep);
    }
  }

  lemma SplitOfSum(a: string, b: string, sep: string)
    requires |sep| == 1
    ensures Split(a + b, sep) == Glue(Split(a, sep), Split(b, sep))
  {
    var x, y := Split(a, sep), Split(b, sep);
    PartsAreFree(a, sep);
    PartsAreFree(b, sep);
    JoinSplit(a, sep);
    JoinSplit(b, sep);
    JoinGlue(x, y, sep);
    GlueFree(x, y, sep[0]);
    SplitJoin(Glue(x, y), sep);
  }

  lemma FirstPart(s: string, sep: string)
    requires sep != "" && s != "" && s[0] != sep[0]
    ensures Split(s, sep)[0] != "" && Split(s, sep)[0][0] == s[0]
  {
    IndexOfIsFirst(s, sep, 0);
  }

  // ── Decimal numbers ─────────────────────────────────────────────────────────

  const MAX_INT64: nat := 0x7FFF_FFFF_FFFF_FFFF

  predicate IsDigit(c: char) { '0' <= c <= '9' }

  predicate AllDigits(s: string) { forall i :: 0 <= i < |s| ==> IsDigit(s[i]) }

  function DigitsValue(s: string): nat
    requires AllDigits(s)
  {
    if s == "" then 0 else DigitsValue(s[..|s| - 1]) * 10 + (s[|s| - 1] as int - '0' as int)
  }

  // strconv.Atoi: an optional sign, at least one digit, and a value that fits 64 bits.
  function Atoi(s: string): Option<int> {
    var negative := s != "" && s[0] == '-';
    var digits := if s != "" && s[0] in {'+', '-'} then s[1..] else s;
    if digits == "" || !AllDigits(digits) then None
    else if negative then
      (if DigitsValue(digits) <= MAX_INT64 + 1 then Some(-(DigitsValue(digits) as int)) else None)
    else if DigitsValue(digits) <= MAX_INT64 then Some(DigitsValue(digits) as int)
    else None
  }

  // strconv.FormatInt of a natural number, base ten.
  function FormatNat(n: nat): (s: string)
    ensures s != "" && AllDigits(s)
    ensures DigitsValue(s) == n
  {
    var d := [('0' as int + n % 10) as char];
    if n < 10 then assert d[..0] == ""; d
    else
      var s := FormatNat(n / 10) + d;
      assert s[..|s| - 1] == FormatNat(n / 10);
      s
  }

  // Digits count by their place: one more digit is ten times the others and itself.
  lemma DecimalPlaces(s: string, c: char)
    requires AllDigits(s) && IsDigit(c)
    ensures AllDigits(s + [c]) && DigitsValue(s + [c]) == 10 * DigitsValue(s) + (c as int - 48)
    ensures DigitsValue("") == 0
  {
    assert (s + [c])[..|s|] == s;
  }

  // It has no leading zero, and reads back.
  lemma {:induction false} FormatStart(n: nat)
    requires n > 0
    ensures '1' <= FormatNat(n)[0] <= '9'
  {
    if n >= 10 {
      FormatStart(n / 10);
      assert FormatNat(n)[0] == FormatNat(n / 10)[0];
    }
  }

  lemma {:induction false} FormatLength(n: nat)
    ensures |FormatNat(n)| > 1 <==> n >= 10
  {
    if n >= 10 {
      FormatLength(n / 10);
    }
  }

  lemma DigitsRead(s: string)
    requires s != "" && AllDigits(s)
    ensures Atoi(s) == if DigitsValue(s) <= MAX_INT64 then Some(DigitsValue(s)) else None
    ensures forall c :: c in s ==> IsDigit(c)
  {
    assert IsDigit(s[0]);
  }
}
