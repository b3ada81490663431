// IP selectors: single addresses, ranges, short ranges and CIDR blocks.
module IpSelector {
  import opened Wrappers
  import opened Text
  import opened Numbers

  // ── Addresses ───────────────────────────────────────────────────────────────

  type UInt32 = n: nat | n < TWO32
  type UInt128 = n: nat | n < TWO128

  datatype Addr = V4(value4: UInt32) | V6(value6: UInt128, zone: string) {
    function Bits(): nat { if V4? then 32 else 128 }

    function Value(): nat { if V4? then value4 else value6 }

    function Limit(): nat { if V4? then TWO32 else TWO128 }

    function Zone(): string { if V4? then "" else zone }
  }

  // Family first, then value, then zone.
  function CompareAddr(a: Addr, b: Addr): int {
    if a.Bits() != b.Bits() then (if a.Bits() < b.Bits() then -1 else 1)
    else if a.Value() != b.Value() then (if a.Value() < b.Value() then -1 else 1)
    else CompareText(a.Zone(), b.Zone())
  }

  // The system's address parser and its JSON codec for lists of rules.
  datatype Env = Env(parseAddr: string -> Option<Addr>,
                     decode: string -> Option<seq<string>>,
                     encode: seq<string> -> string)
  {
    // A written list reads back, and its text is never blank.
    ghost predicate Lawful() {
      forall items :: decode(encode(items)) == Some(items) && TrimSpace(encode(items)) != ""
    }
  }

  // ── Rules ───────────────────────────────────────────────────────────────────

  datatype Rule =
    | Single(addr: Addr)
    | Range(start: Addr, end: Addr)
    | Cidr(base: Addr, length: nat)

  // The first `length` bits of the two addresses agree; zoned addresses are in no block.
  predicate InBlock(base: Addr, length: nat, a: Addr) {
    && a.Zone() == ""
    && a.Bits() == base.Bits()
    && length <= a.Bits()
    && var size := Pow2(a.Bits() - length); a.Value() / size == base.Value() / size
  }

  predicate Matches(rule: Rule, a: Addr) {
    match rule
    case Single(addr) => a == addr
    case Range(start, end) => CompareAddr(a, start) >= 0 && CompareAddr(a, end) <= 0
    case Cidr(base, length) => InBlock(base, length, a)
  }

  function LastIndexOf(s: string, c: char): (k: int)
    ensures -1 <= k < |s|
  {
    if s == "" then -1
    else if s[|s| - 1] == c then |s| - 1
    else LastIndexOf(s[..|s| - 1], c)
  }

  // A length of more than one digit has no sign and no leading zero.
  function ParseLength(text: string): Option<int> {
    if |text| > 1 && !('1' <= text[0] <= '9') then None else Atoi(text)
  }

  function ParsePrefix(env: Env, item: string): Option<Rule> {
    var slash := LastIndexOf(item, '/');
    if slash < 0 then None
    else
      match env.parseAddr(item[..slash])
      case None => None
      case Some(addr) =>
        if addr.Zone() != "" then None
        else
          match ParseLength(item[slash + 1..])
          case None => None
          case Some(n) => if 0 <= n <= addr.Bits() then Some(Cidr(addr, n)) else None
  }

  // A short end replaces the last octet of an IPv4 start.
  function ParseRangeEnd(env: Env, start: Addr, text: string): Option<Addr> {
    if Contains(text, ".") || Contains(text, ":") then env.parseAddr(text)
    else if !start.V4? then None
    else
      match Atoi(text)
      case None => None
      case Some(octet) =>
        if 0 <= octet <= 255 then Some(V4(start.value4 - start.value4 % 256 + octet)) else None
  }

  function ParseItem(env: Env, item: string): Option<Rule> {
    if Contains(item, "/") then ParsePrefix(env, item)
    else if Contains(item, "-") then
      var parts := Split(item, "-");
      if |parts| != 2 then None
      else
        match env.parseAddr(TrimSpace(parts[0]))
        case None => None
        case Some(start) =>
          match ParseRangeEnd(env, start, TrimSpace(parts[1]))
          case None => None
          case Some(end) => if CompareAddr(start, end) > 0 then None else Some(Range(start, end))
    else
      match env.parseAddr(item)
      case None => None
      case Some(addr) => Some(Single(addr))
  }

  // ── What a rule denotes ─────────────────────────────────────────────────────

  lemma BlockArithmetic(x: nat, base: nat, size: nat)
    requires size > 0
    ensures x / size == base / size <==> base - base % size <= x < base - base % size + size
  {
    Division(x, size);
    Division(base, size);
    if x / size < base / size { NextMultiple(size, x / size, base / size); }
    if x / size > base / size { NextMultiple(size, base / size, x / size); }
  }

  // A block neither reaches below zero nor past the last address of its family.
  lemma BlockFits(base: Addr, length: nat)
    requires length <= base.Bits()
    ensures var size := Pow2(base.Bits() - length);
            0 <= base.Value() - base.Value() % size && base.Value() - base.Value() % size + size <= base.Limit()
  {
    Power32();
    Power128();
    BlockFitsPower(base.Value(), length, base.Bits());
  }

  lemma BlockFitsPower(base: nat, length: nat, bits: nat)
    requires length <= bits && base < Pow2(bits)
    ensures var size := Pow2(bits - length);
            0 <= base - base % size && base - base % size + size <= Pow2(bits)
  {
    PowerSplits(length, bits - length);
    BlockEnds(base, Pow2(bits - length), Pow2(length));
  }

  lemma BlockEnds(base: nat, size: nat, count: nat)
    requires size > 0 && base < size * count
    ensures 0 <= base - base % size && base - base % size + size <= size * count
  {
    Division(base, size);
    if base / size < count {
      NextMultiple(size, base / size, count);
    } else if base / size > count {
      NextMultiple(size, count, base / size);
    }
  }

  function WithValue(family: Addr, value: nat): Addr
    requires value < family.Limit()
  {
    if family.V4? then V4(value) else V6(value, "")
  }

  predicate WellFormed(rule: Rule) {
    rule.Cidr? ==> rule.base.Zone() == "" && rule.length <= rule.base.Bits()
  }

  function Low(rule: Rule): Addr
    requires WellFormed(rule)
  {
    match rule
    case Single(addr) => addr
    case Range(start, _) => start
    case Cidr(base, length) =>
      BlockFits(base, length);
      WithValue(base, base.Value() - base.Value() % Pow2(base.Bits() - length))
  }

  function High(rule: Rule): Addr
    requires WellFormed(rule)
  {
    match rule
    case Single(addr) => addr
    case Range(_, end) => end
    case Cidr(base, length) =>
      BlockFits(base, length);
      var size := Pow2(base.Bits() - length);
      WithValue(base, base.Value() - base.Value() % size + size - 1)
  }

  // Every accepted rule is one interval of the address order (a block, of its zone-free part).
  lemma AcceptedIsInterval(env: Env, item: string, a: Addr)
    requires ParseItem(env, item).Some?
    ensures var rule := ParseItem(env, item).value;
            && WellFormed(rule)
            && CompareAddr(Low(rule), High(rule)) <= 0
            && (Matches(rule, a) <==>
                  && CompareAddr(Low(rule), a) <= 0 && CompareAddr(a, High(rule)) <= 0
                  && (rule.Cidr? ==> a.Zone() == ""))
  {
    var rule := ParseItem(env, item).value;
    TextOrder(Low(rule).Zone(), a.Zone(), "");
    TextOrder(High(rule).Zone(), a.Zone(), "");
    TextOrder(Low(rule).Zone(), High(rule).Zone(), "");
    TextOrder(Low(rule).Zone(), Low(rule).Zone(), "");
    if rule.Cidr? && rule.base.Bits() == a.Bits() {
      BlockArithmetic(a.Value(), rule.base.Value(), Pow2(a.Bits() - rule.length));
    }
  }

  function Interval(family: Addr, from: nat, count: nat): (block: set<Addr>)
    requires from + count <= family.Limit()
    ensures |block| == count
    ensures forall a: Addr :: a in block <==> a.Bits() == family.Bits() && a.Zone() == "" && from <= a.Value() < from + count
    decreases count
  {
    if count == 0 then {}
    else Interval(family, from, count - 1) + {WithValue(family, from + count - 1)}
  }

  // A CIDR of length n matches exactly the 2^(w-n) addresses of its block.
  lemma CidrIsItsBlock(env: Env, item: string)
    requires ParseItem(env, item).Some? && ParseItem(env, item).value.Cidr?
    ensures var Cidr(base, length) := ParseItem(env, item).value;
            && length <= base.Bits()
            && |Block(base, length)| == Pow2(base.Bits() - length)
            && forall a :: Matches(Cidr(base, length), a) <==> a in Block(base, length)
  {
    var Cidr(base, length) := ParseItem(env, item).value;
    forall a ensures Matches(Cidr(base, length), a) <==> a in Block(base, length) {
      BlockArithmetic(a.Value(), base.Value(), Pow2(base.Bits() - length));
    }
  }

  function Block(base: Addr, length: nat): (block: set<Addr>)
    requires length <= base.Bits()
    ensures |block| == Pow2(base.Bits() - length)
    ensures var size := Pow2(base.Bits() - length);
            var first := base.Value() - base.Value() % size;
            forall a: Addr :: a in block <==> a.Bits() == base.Bits() && a.Zone() == "" && first <= a.Value() < first + size
  {
    BlockFits(base, length);
    var size := Pow2(base.Bits() - length);
    Interval(base, base.Value() - base.Value() % size, size)
  }

  // A range with a short end stays inside the /24 of its start.
  lemma ShortRangeStaysInBlock(env: Env, start: Addr, text: string, a: Addr)
    requires !Contains(text, ".") && !Contains(text, ":")
    requires ParseRangeEnd(env, start, text).Some?
    requires Matches(Range(start, ParseRangeEnd(env, start, text).value), a)
    ensures Matches(Cidr(start, 24), a)
  {
    Power8();
    BlockArithmetic(a.Value(), start.Value(), 256);
  }

  // ── Rules as written ────────────────────────────────────────────────────────

  lemma {:induction false} LastIndexBehind(s: string, c: char, tail: string)
    requires c !in tail
    ensures LastIndexOf(s + [c] + tail, c) == |s|
  {
    var t := s + [c] + tail;
    if tail == "" {
      assert t[|t| - 1] == c;
    } else {
      assert t[..|t| - 1] == s + [c] + tail[..|tail| - 1];
      LastIndexBehind(s, c, tail[..|tail| - 1]);
    }
  }

  lemma NumberText(n: nat)
    ensures ParseLength(FormatNat(n)) == (if n <= MAX_INT64 then Some(n) else None) && '/' !in FormatNat(n)
  {
    DigitsRead(FormatNat(n));
    FormatLength(n);
    if n >= 10 {
      FormatStart(n);
    }
  }

  lemma PrefixText(env: Env, a: string, base: Addr, n: nat)
    requires env.parseAddr(a) == Some(base) && base.Zone() == ""
    ensures ParseItem(env, a + "/" + FormatNat(n)) == if n <= base.Bits() then Some(Cidr(base, n)) else None
  {
    var item := a + "/" + FormatNat(n);
    NumberText(n);
    LastIndexBehind(a, '/', FormatNat(n));
    assert item[|a|] == '/' && item[..|a|] == a && item[|a| + 1..] == FormatNat(n);
    ContainsChar(item, '/');
  }

  lemma ValueFits(a: Addr)
    ensures a.Value() < Pow2(a.Bits())
  {
    Power32();
    Power128();
  }

  lemma BlockBits(base: Addr, n: nat, x: Addr)
    requires base.Zone() == "" && n <= base.Bits()
    ensures InBlock(base, n, x) <==>
              && x.V4? == base.V4? && x.Zone() == ""
              && forall i: nat :: base.Bits() - n <= i < base.Bits() ==> Bit(x.Value(), i) == Bit(base.Value(), i)
  {
    if x.Bits() == base.Bits() {
      ValueFits(x);
      ValueFits(base);
      SharedBits(x.Value(), base.Value(), base.Bits() - n, base.Bits());
    }
  }

  // "a/n" matches the addresses of a's family, without a zone, that share its first n
  // bits; more bits than the family has are refused.
  lemma CidrText(env: Env, a: string, base: Addr, n: nat, x: Addr)
    requires env.parseAddr(a) == Some(base) && (base.V6? ==> base.zone == "")
    ensures var item, w := ParseItem(env, a + "/" + FormatNat(n)), if base.V4? then 32 else 128;
            && (item.Some? <==> n <= w)
            && (item.Some? ==>
                  (Matches(item.value, x) <==>
                     && x.V4? == base.V4? && (x.V6? ==> x.zone == "")
                     && forall i: nat :: w - n <= i < w ==> Bit(x.Value(), i) == Bit(base.Value(), i)))
  {
    PrefixText(env, a, base, n);
    if n <= base.Bits() {
      BlockBits(base, n, x);
    }
  }

  lemma RangeParts(env: Env, p: string, q: string)
    requires '-' !in p && '-' !in q && '/' !in p && '/' !in q
    ensures var item := p + "-" + q;
            && !Contains(item, "/") && Contains(item, "-") && Split(item, "-") == [p, q]
  {
    var item := p + "-" + q;
    ContainsChar(item, '/');
    assert item[|p|] == '-';
    ContainsChar(item, '-');
    assert [p, q][1..] == [q] && Join([p, q], "-") == item;
    SplitJoin([p, q], "-");
  }

  // Family, then value, then zone.
  lemma CompareZoneFree(x: Addr, s: Addr)
    requires s.V6? ==> s.zone == ""
    ensures CompareAddr(x, s) >= 0 <==> (x.V6? && s.V4?) || (x.V4? == s.V4? && x.Value() >= s.Value())
    ensures CompareAddr(x, s) <= 0 <==>
            || (x.V4? && s.V6?)
            || (x.V4? == s.V4? && (x.Value() < s.Value() || (x.Value() == s.Value() && (x.V6? ==> x.zone == ""))))
  {
    TextOrder(x.Zone(), "", "");
  }

  // "a-b" matches the addresses from a to b, IPv4 before IPv6; with the ends the wrong way
  // round it is refused.
  lemma RangeText(env: Env, p: string, q: string, s: Addr, e: Addr, x: Addr)
    requires '-' !in p && '-' !in q && '/' !in p && '/' !in q && ('.' in TrimSpace(q) || ':' in TrimSpace(q))
    requires env.parseAddr(TrimSpace(p)) == Some(s) && env.parseAddr(TrimSpace(q)) == Some(e)
    requires (s.V6? ==> s.zone == "") && (e.V6? ==> e.zone == "")
    ensures var item := ParseItem(env, p + "-" + q);
            && (item.Some? <==> (s.V4? && e.V6?) || (s.V4? == e.V4? && s.Value() <= e.Value()))
            && (item.Some? ==>
                  (Matches(item.value, x) <==>
                     && ((x.V6? && s.V4?) || (x.V4? == s.V4? && s.Value() <= x.Value()))
                     && (|| (x.V4? && e.V6?)
                         || (x.V4? == e.V4? && (x.Value() < e.Value() || (x.Value() == e.Value() && (x.V6? ==> x.zone == "")))))))
  {
    RangeParts(env, p, q);
    ContainsChar(TrimSpace(q), '.');
    ContainsChar(TrimSpace(q), ':');
    CompareZoneFree(x, s);
    CompareZoneFree(x, e);
    CompareZoneFree(s, e);
  }

  // "a-o" matches the IPv4 addresses of a's /24 from a to the last octet o.
  lemma ShortRangeText(env: Env, p: string, q: string, s: Addr, x: Addr)
    requires '-' !in p && '-' !in q && '/' !in p && '/' !in q
    requires env.parseAddr(TrimSpace(p)) == Some(s) && TrimSpace(q) != "" && AllDigits(TrimSpace(q))
    ensures var item, octet := ParseItem(env, p + "-" + q), DigitsValue(TrimSpace(q));
            && (item.Some? <==> s.V4? && s.value4 % 256 <= octet <= 255)
            && (item.Some? ==>
                  (Matches(item.value, x) <==>
                     x.V4? && x.value4 / 256 == s.value4 / 256 && s.value4 % 256 <= x.value4 % 256 <= octet))
  {
    ShortRangeParts(env, p, q, s);
    var octet := DigitsValue(TrimSpace(q));
    if s.V4? && octet <= 255 {
      LastOctet(s.value4, octet);
      var e := V4(s.value4 - s.value4 % 256 + octet);
      CompareZoneFree(x, s);
      CompareZoneFree(x, e);
      CompareZoneFree(s, e);
      if x.V4? {
        BetweenOctets(s.value4, x.value4, octet);
      }
    }
  }

  lemma ShortRangeParts(env: Env, p: string, q: string, s: Addr)
    requires '-' !in p && '-' !in q && '/' !in p && '/' !in q
    requires env.parseAddr(TrimSpace(p)) == Some(s) && TrimSpace(q) != "" && AllDigits(TrimSpace(q))
    ensures var item, octet := ParseItem(env, p + "-" + q), DigitsValue(TrimSpace(q));
            if s.V4? && octet <= 255 then
              var value := s.value4 - s.value4 % 256 + octet;
              value < TWO32 && item == if CompareAddr(s, V4(value)) > 0 then None else Some(Range(s, V4(value)))
            else item == None
  {
    RangeParts(env, p, q);
    DigitsRead(TrimSpace(q));
    ContainsChar(TrimSpace(q), '.');
    ContainsChar(TrimSpace(q), ':');
    if s.V4? {
      LastOctet(s.value4, DigitsValue(TrimSpace(q)));
    }
  }

  lemma LastOctet(s: UInt32, octet: nat)
    ensures octet <= 255 ==> 0 <= s - s % 256 + octet < TWO32 && (s <= s - s % 256 + octet <==> s % 256 <= octet)
  {}

  lemma BetweenOctets(s: nat, x: nat, octet: nat)
    requires octet <= 255
    ensures s <= x <= s - s % 256 + octet <==> x / 256 == s / 256 && s % 256 <= x % 256 <= octet
  {}

  // A rule without slash or dash matches its one address.
  lemma AddressText(env: Env, item: string, x: Addr)
    requires '/' !in item && '-' !in item
    ensures ParseItem(env, item).Some? <==> env.parseAddr(item).Some?
    ensures ParseItem(env, item).Some? ==> (Matches(ParseItem(env, item).value, x) <==> env.parseAddr(item) == Some(x))
  {
    ContainsChar(item, '/');
    ContainsChar(item, '-');
  }

  // ── Selectors ───────────────────────────────────────────────────────────────

  datatype Error = InvalidItem(item: string) | InvalidJson

  // Trimmed, blanks and repetitions dropped, every rule checked.
  function NormalizeFrom(env: Env, items: seq<string>, seen: set<string>): (r: Result<seq<string>, Error>)
    ensures r.Ok? ==> forall i :: 0 <= i < |r.value| ==> Solid(env, r.value[i]) && r.value[i] !in seen
    ensures r.Ok? ==> forall i, j :: 0 <= i < j < |r.value| ==> r.value[i] != r.value[j]
  {
    if items == [] then Ok([])
    else
      var item := TrimSpace(items[0]);
      if item == "" then NormalizeFrom(env, items[1..], seen)
      else if ParseItem(env, item).None? then Err(InvalidItem(item))
      else if item in seen then NormalizeFrom(env, items[1..], seen)
      else Prepend([item], NormalizeFrom(env, items[1..], seen + {item}))
  }

  predicate Solid(env: Env, item: string) {
    item != "" && Trimmed(item) && ParseItem(env, item).Some?
  }

  function Normalize(env: Env, items: seq<string>): Result<seq<string>, Error> {
    NormalizeFrom(env, items, {})
  }

  method NormalizeIPSelector(env: Env, ips: seq<string>) returns (r: Result<seq<string>, Error>)
    ensures r == Normalize(env, ips)
  {
    var items: seq<string>, seen: set<string> := [], {};
    ghost var goal := Normalize(env, ips);
    PrependNothing(goal);
    for i := 0 to |ips|
      invariant goal == Prepend(items, NormalizeFrom(env, ips[i..], seen))
    {
      var item := TrimSpace(ips[i]);
      NormalizeStep(env, ips, i, seen);
      if item == "" {
        continue;
      }
      if ParseItem(env, item).None? {
        return Err(InvalidItem(item));
      }
      if item in seen {
        continue;
      }
      PrependOne(items, item, NormalizeFrom(env, ips[i + 1..], seen + {item}));
      seen := seen + {item};
      items := items + [item];
    }
    assert items + [] == items;
    return Ok(items);
  }

  lemma NormalizeStep(env: Env, ips: seq<string>, i: nat, seen: set<string>)
    requires i < |ips|
    ensures var item := TrimSpace(ips[i]);
            NormalizeFrom(env, ips[i..], seen) ==
            if item == "" then NormalizeFrom(env, ips[i + 1..], seen)
            else if ParseItem(env, item).None? then Err(InvalidItem(item))
            else if item in seen then NormalizeFrom(env, ips[i + 1..], seen)
            else Prepend([item], NormalizeFrom(env, ips[i + 1..], seen + {item}))
  {
    assert ips[i..][0] == ips[i] && ips[i..][1..] == ips[i + 1..];
  }

  function Prepend(items: seq<string>, r: Result<seq<string>, Error>): Result<seq<string>, Error> {
    match r
    case Err(e) => Err(e)
    case Ok(rest) => Ok(items + rest)
  }

  lemma PrependNothing(r: Result<seq<string>, Error>)
    ensures Prepend([], r) == r
  {
    if r.Ok? {
      assert [] + r.value == r.value;
    }
  }

  lemma PrependOne(items: seq<string>, item: string, r: Result<seq<string>, Error>)
    ensures Prepend(items, Prepend([item], r)) == Prepend(items + [item], r)
  {
    if r.Ok? {
      assert items + ([item] + r.value) == items + [item] + r.value;
    }
  }

  function MarshalIPSelector(env: Env, ips: seq<string>): Result<string, Error> {
    match Normalize(env, ips)
    case Err(e) => Err(e)
    case Ok(items) => if items == [] then Ok("") else Ok(env.encode(items))
  }

  function ParseIPSelectorJSON(env: Env, raw: string): Result<seq<string>, Error> {
    if TrimSpace(raw) == "" then Ok([])
    else
      match env.decode(raw)
      case None => Err(InvalidJson)
      case Some(items) => Normalize(env, items)
  }

  predicate ItemMatches(env: Env, item: string, a: Addr) {
    ParseItem(env, TrimSpace(item)).Some? && Matches(ParseItem(env, TrimSpace(item)).value, a)
  }

  predicate AnyMatches(env: Env, items: seq<string>, a: Addr) {
    exists i :: 0 <= i < |items| && TrimSpace(items[i]) != "" && ItemMatches(env, items[i], a)
  }

  // The rules are tried in order; a rule that does not parse is an error only if it is reached.
  function AnyRule(env: Env, items: seq<string>, a: Addr): Result<bool, Error> {
    if items == [] then Ok(false)
    else
      match ParseItem(env, items[0])
      case None => Err(InvalidItem(items[0]))
      case Some(rule) => if Matches(rule, a) then Ok(true) else AnyRule(env, items[1..], a)
  }

  function IPSelectorMatches(env: Env, raw: string, ip: string): Result<bool, Error> {
    match ParseIPSelectorJSON(env, raw)
    case Err(e) => Err(e)
    case Ok(items) =>
      match env.parseAddr(TrimSpace(ip))
      case None => Ok(false)
      case Some(a) => AnyRule(env, items, a)
  }

  // Normalising keeps the set of matched addresses.
  lemma {:induction false} NormalizeFromKeepsMatches(env: Env, items: seq<string>, seen: set<string>, a: Addr)
    requires NormalizeFrom(env, items, seen).Ok?
    requires forall item :: item in seen ==> TrimSpace(item) == item && !ItemMatches(env, item, a)
    ensures AnyMatches(env, NormalizeFrom(env, items, seen).value, a) <==> AnyMatches(env, items, a)
  {
    if items != [] {
      var item, rest := TrimSpace(items[0]), items[1..];
      AnyMatchesCons(env, items, a);
      if item == "" || item in seen {
        NormalizeFromKeepsMatches(env, rest, seen, a);
      } else {
        var out := NormalizeFrom(env, items, seen).value;
        assert out[0] == item && out[1..] == NormalizeFrom(env, rest, seen + {item}).value;
        AnyMatchesCons(env, out, a);
        if !ItemMatches(env, item, a) {
          NormalizeFromKeepsMatches(env, rest, seen + {item}, a);
        }
      }
    }
  }

  lemma AnyMatchesCons(env: Env, items: seq<string>, a: Addr)
    requires items != []
    ensures AnyMatches(env, items, a) <==>
              (TrimSpace(items[0]) != "" && ItemMatches(env, items[0], a)) || AnyMatches(env, items[1..], a)
  {
    if AnyMatches(env, items[1..], a) {
      var i :| 0 <= i < |items| - 1 && TrimSpace(items[1..][i]) != "" && ItemMatches(env, items[1..][i], a);
      assert items[i + 1] == items[1..][i];
    }
    forall i | 0 < i < |items| ensures items[i] == items[1..][i - 1] {}
  }

  lemma {:induction false} NormalFormIsFixed(env: Env, items: seq<string>, seen: set<string>)
    requires forall i :: 0 <= i < |items| ==> Solid(env, items[i]) && items[i] !in seen
    requires forall i, j :: 0 <= i < j < |items| ==> items[i] != items[j]
    ensures NormalizeFrom(env, items, seen) == Ok(items)
  {
    if items != [] {
      NormalFormIsFixed(env, items[1..], seen + {items[0]});
      assert TrimSpace(items[0]) == items[0] && [items[0]] + items[1..] == items;
    }
  }

  lemma {:induction false} AnyRuleOnNormalForm(env: Env, items: seq<string>, a: Addr)
    requires forall i :: 0 <= i < |items| ==> Solid(env, items[i])
    ensures AnyRule(env, items, a) == Ok(AnyMatches(env, items, a))
  {
    if items != [] {
      AnyMatchesCons(env, items, a);
      AnyRuleOnNormalForm(env, items[1..], a);
    }
  }

  // Normalisation is idempotent and keeps the matched set.
  lemma NormalizeIsCanonical(env: Env, items: seq<string>, a: Addr)
    requires Normalize(env, items).Ok?
    ensures Normalize(env, Normalize(env, items).value) == Normalize(env, items)
    ensures AnyMatches(env, Normalize(env, items).value, a) <==> AnyMatches(env, items, a)
  {
    NormalFormIsFixed(env, Normalize(env, items).value, {});
    NormalizeFromKeepsMatches(env, items, {}, a);
  }

  // A stored selector reads back as its normal form, and matching the stored text is
  // matching the rules the user typed: no error branch is left.
  lemma StoredSelector(env: Env, items: seq<string>, ip: string)
    requires env.Lawful()
    requires Normalize(env, items).Ok?
    ensures MarshalIPSelector(env, items).Ok?
    ensures ParseIPSelectorJSON(env, MarshalIPSelector(env, items).value) == Normalize(env, items)
    ensures IPSelectorMatches(env, MarshalIPSelector(env, items).value, ip) ==
            match env.parseAddr(TrimSpace(ip))
            case None => Ok(false)
            case Some(a) =>
              Ok(exists i :: 0 <= i < |items| && TrimSpace(items[i]) != "" &&
                             ParseItem(env, TrimSpace(items[i])).Some? && Matches(ParseItem(env, TrimSpace(items[i])).value, a))
  {
    var normal := Normalize(env, items).value;
    NormalFormIsFixed(env, normal, {});
    if env.parseAddr(TrimSpace(ip)).Some? {
      var a := env.parseAddr(TrimSpace(ip)).value;
      NormalizeIsCanonical(env, items, a);
      AnyRuleOnNormalForm(env, normal, a);
      forall i | 0 <= i < |items|
        ensures ItemMatches(env, items[i], a) <==>
                ParseItem(env, TrimSpace(items[i])).Some? && Matches(ParseItem(env, TrimSpace(items[i])).value, a)
      {}
    }
  }
}
