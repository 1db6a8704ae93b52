/**
 * IP addresses and CIDR prefixes as Go's `net/netip` reads them, and the comparison
 * `sameCIDR` (hcloud/node_port_source.go) built on top.
 */
module Cidr {
  import opened Basics
  import opened Text

  datatype Family = V4 | V6

  function Width(family: Family): nat {
    if family.V4? then 32 else 128
  }

  function Pow2(n: nat): (p: nat)
    ensures p >= 1
  {
    if n == 0 then 1 else 2 * Pow2(n - 1)
  }

  /** An address without a zone; `value` is its bits read as a number. */
  datatype Addr = Addr(family: Family, value: nat)

  predicate ValidAddr(a: Addr) {
    a.value < Pow2(Width(a.family))
  }

  /** An address with a prefix length. */
  datatype Prefix = Prefix(addr: Addr, bits: nat)

  predicate ValidPrefix(p: Prefix) {
    ValidAddr(p.addr) && p.bits <= Width(p.addr.family)
  }

  // ---------- Reading addresses ----------

  /** A decimal number without a sign or a leading zero. */
  predicate PlainNumber(s: string) {
    s != [] && AllDigits(s) && (|s| > 1 ==> s[0] != '0')
  }

  predicate IsOctet(s: string) {
    PlainNumber(s) && ParseDigits(s) <= 255
  }

  /** Four dotted octets. */
  function ParseIPv4(s: string): (r: Option<nat>)
    ensures r.Some? ==> r.value < 0x1_0000_0000
  {
    var parts := Split(s, '.');
    if |parts| == 4 && IsOctet(parts[0]) && IsOctet(parts[1]) && IsOctet(parts[2]) && IsOctet(parts[3]) then
      Some(FromOctets(ParseDigits(parts[0]), ParseDigits(parts[1]), ParseDigits(parts[2]), ParseDigits(parts[3])))
    else None
  }

  function FromOctets(a: nat, b: nat, c: nat, d: nat): (v: nat)
    requires a < 256 && b < 256 && c < 256 && d < 256
    ensures v < 0x1_0000_0000
  {
    ((a * 256 + b) * 256 + c) * 256 + d
  }

  function HexValue(c: char): Option<nat> {
    if IsDigit(c) then Some(DigitValue(c))
    else if 'a' <= c <= 'f' then Some(c as int - 'a' as int + 10)
    else if 'A' <= c <= 'F' then Some(c as int - 'A' as int + 10)
    else None
  }

  /** The length of the leading run of hexadecimal digits. */
  function HexRun(s: string): (n: nat)
    ensures n <= |s|
    ensures forall i :: 0 <= i < n ==> HexValue(s[i]).Some?
  {
    if s == [] || HexValue(s[0]).None? then 0 else 1 + HexRun(s[1..])
  }

  function ParseHex(s: string): nat
    requires forall i :: 0 <= i < |s| ==> HexValue(s[i]).Some?
  {
    if s == [] then 0 else 16 * ParseHex(s[..|s| - 1]) + HexValue(s[|s| - 1]).value
  }

  lemma {:induction false} HexBound(s: string)
    requires forall i :: 0 <= i < |s| ==> HexValue(s[i]).Some?
    ensures ParseHex(s) < Pow2(4 * |s|)
  {
    if s != [] {
      HexBound(s[..|s| - 1]);
      var k := 4 * (|s| - 1);
      assert Pow2(k + 4) == 2 * Pow2(k + 3) == 4 * Pow2(k + 2) == 8 * Pow2(k + 1) == 16 * Pow2(k);
    }
  }

  /** The 16-bit groups read so far, and where a double colon stood among them. */
  datatype Groups = Groups(groups: seq<nat>, ellipsis: Option<nat>)

  /** Reads hexadecimal groups from `s`, which is not empty and starts with a group. */
  function ParseGroups(s: string, acc: Groups): Option<Groups>
    decreases |s|
  {
    var n := HexRun(s);
    if |acc.groups| >= 8 || n == 0 || n > 4 then None
    else if n < |s| && s[n] == '.' then
      // A dotted IPv4 address may stand in the last four bytes.
      var tail := ParseIPv4(s);
      if (acc.ellipsis.None? && |acc.groups| != 6) || |acc.groups| > 6 || tail.None? then None
      else Some(acc.(groups := acc.groups + [tail.value / 0x1_0000, tail.value % 0x1_0000]))
    else
      var read := acc.(groups := acc.groups + [ParseHex(s[..n])]);
      var rest := s[n..];
      if rest == "" then Some(read)
      else if rest[0] != ':' || |rest| == 1 then None
      else if rest[1] == ':' then
        if read.ellipsis.Some? then None
        else
          var read' := read.(ellipsis := Some(|read.groups|));
          if |rest| == 2 then Some(read') else ParseGroups(rest[2..], read')
      else ParseGroups(rest[1..], read)
  }

  function FromGroups(groups: seq<nat>): nat {
    if groups == [] then 0 else FromGroups(groups[..|groups| - 1]) * 0x1_0000 + groups[|groups| - 1]
  }

  /** A double colon stands for at least one group of zeros, and is needed for less than eight groups. */
  function Expand(g: Groups): Option<nat> {
    match g.ellipsis
    case None => if |g.groups| == 8 then Some(FromGroups(g.groups)) else None
    case Some(at) =>
      if |g.groups| >= 8 || at > |g.groups| then None
      else Some(FromGroups(g.groups[..at] + seq(8 - |g.groups|, _ => 0) + g.groups[at..]))
  }

  function ParseIPv6(s: string): Option<nat> {
    var start :=
      if "::" <= s then
        if |s| == 2 then Some(Groups([], Some(0))) else ParseGroups(s[2..], Groups([], Some(0)))
      else if s == "" then None
      else ParseGroups(s, Groups([], None));
    match start
    case None => None
    case Some(g) => Expand(g)
  }

  /** The first character of `s` that tells the families apart. */
  function FirstMark(s: string): Option<char> {
    if s == [] then None
    else if s[0] == '.' || s[0] == ':' || s[0] == '%' then Some(s[0])
    else FirstMark(s[1..])
  }

  /** `netip.ParseAddr`, where an address with a zone counts as unreadable. */
  function ParseAddr(s: string): Option<Addr> {
    match FirstMark(s)
    case Some('.') =>
      (match ParseIPv4(s) case Some(v) => Some(Addr(V4, v)) case None => None)
    case Some(':') =>
      (match ParseIPv6(s) case Some(v) => Some(Addr(V6, v)) case None => None)
    case _ => None
  }

  /** The index of the last slash, or -1. */
  function LastSlash(s: string): (i: int)
    ensures -1 <= i < |s|
    ensures i >= 0 ==> s[i] == '/'
    ensures forall j :: i < j < |s| ==> s[j] != '/'
  {
    if s == [] then -1
    else if s[|s| - 1] == '/' then |s| - 1
    else LastSlash(s[..|s| - 1])
  }

  /** `netip.ParsePrefix`. */
  function ParsePrefix(s: string): Option<Prefix> {
    var i := LastSlash(s);
    if i < 0 then None
    else
      var addr := ParseAddr(s[..i]);
      var bits := s[i + 1..];
      if addr.None? || !PlainNumber(bits) || ParseDigits(bits) > Width(addr.value.family) then None
      else Some(Prefix(addr.value, ParseDigits(bits)))
  }

  // ---------- Parsed values are in range ----------

  predicate GroupsInRange(groups: seq<nat>) {
    forall i :: 0 <= i < |groups| ==> groups[i] < 0x1_0000
  }

  lemma FourDigitsAreOneGroup(s: string)
    requires |s| <= 4 && forall i :: 0 <= i < |s| ==> HexValue(s[i]).Some?
    ensures ParseHex(s) < 0x1_0000
  {
    HexBound(s);
    Pow2Values();
    Pow2Monotone(4 * |s|, 16);
  }

  lemma {:induction false} ParseGroupsInRange(s: string, acc: Groups)
    requires GroupsInRange(acc.groups)
    ensures ParseGroups(s, acc).Some? ==> GroupsInRange(ParseGroups(s, acc).value.groups)
    decreases |s|
  {
    var n := HexRun(s);
    if 0 < n <= 4 && |acc.groups| < 8 && !(n < |s| && s[n] == '.') {
      FourDigitsAreOneGroup(s[..n]);
      var read := acc.(groups := acc.groups + [ParseHex(s[..n])]);
      var rest := s[n..];
      if |rest| > 1 && rest[0] == ':' {
        if rest[1] == ':' {
          if |rest| > 2 {
            ParseGroupsInRange(rest[2..], read.(ellipsis := Some(|read.groups|)));
          }
        } else {
          ParseGroupsInRange(rest[1..], read);
        }
      }
    }
  }

  lemma Pow2Values()
    ensures Pow2(16) == 0x1_0000
    ensures Pow2(32) == 0x1_0000_0000
  {
    assert Pow2(4) == 16;
    Pow2Add(4, 4);
    Pow2Add(8, 8);
    Pow2Add(16, 16);
  }

  lemma {:induction false} Pow2Monotone(m: nat, n: nat)
    requires m <= n
    ensures Pow2(m) <= Pow2(n)
  {
    if m < n {
      Pow2Monotone(m, n - 1);
    }
  }

  lemma {:induction false} FromGroupsInRange(groups: seq<nat>)
    requires GroupsInRange(groups)
    ensures FromGroups(groups) < Pow2(16 * |groups|)
  {
    if groups != [] {
      FromGroupsInRange(groups[..|groups| - 1]);
      Pow2Add(16 * (|groups| - 1), 16);
      Pow2Values();
    }
  }

  lemma {:induction false} Pow2Add(m: nat, n: nat)
    ensures Pow2(m + n) == Pow2(m) * Pow2(n)
  {
    if n > 0 {
      Pow2Add(m, n - 1);
    }
  }

  lemma ExpandInRange(g: Groups)
    requires GroupsInRange(g.groups)
    ensures Expand(g).Some? ==> Expand(g).value < Pow2(128)
  {
    if Expand(g).Some? {
      var full := if g.ellipsis.None? then g.groups else
        var at := g.ellipsis.value;
        g.groups[..at] + seq(8 - |g.groups|, _ => 0) + g.groups[at..];
      assert |full| == 8;
      FromGroupsInRange(full);
    }
  }

  lemma ParseIPv6InRange(s: string)
    ensures ParseIPv6(s).Some? ==> ParseIPv6(s).value < Pow2(128)
  {
    var acc := if "::" <= s then Groups([], Some(0)) else Groups([], None);
    var rest := if "::" <= s then s[2..] else s;
    ParseGroupsInRange(rest, acc);
    ExpandInRange(acc);
    if ParseGroups(rest, acc).Some? {
      ExpandInRange(ParseGroups(rest, acc).value);
    }
  }

  /** A prefix that was read holds an address and a length of its family. */
  lemma ParsedPrefixIsValid(s: string)
    ensures ParsePrefix(s).Some? ==> ValidPrefix(ParsePrefix(s).value)
  {
    var i := LastSlash(s);
    if i >= 0 {
      ParseIPv6InRange(s[..i]);
      Pow2Values();
    }
  }

  // ---------- Networks ----------

  /** The number of addresses in a network of this length. */
  function BlockSize(p: Prefix): nat
    requires p.bits <= Width(p.addr.family)
  {
    Pow2(Width(p.addr.family) - p.bits)
  }

  /** The largest multiple of `size` that is not above `x`. */
  function Floor(x: nat, size: nat): nat
    requires size > 0
  {
    (x / size) * size
  }

  /** `Prefix.Masked`: every bit after the prefix length is cleared. */
  function Masked(p: Prefix): Prefix
    requires p.bits <= Width(p.addr.family)
  {
    p.(addr := p.addr.(value := Floor(p.addr.value, BlockSize(p))))
  }

  /** Section 3.1 of RFC 4632: an address is in a network when it agrees with it on the leading `bits` bits. */
  predicate InNetwork(a: Addr, p: Prefix)
    requires p.bits <= Width(p.addr.family)
  {
    a.family == p.addr.family && a.value / BlockSize(p) == p.addr.value / BlockSize(p)
  }

  /** `x` and `y` have the same leading bits exactly when `x` lies in the block that holds `y`. */
  lemma SameBlock(x: nat, y: nat, d: nat)
    requires d > 0
    ensures Floor(x, d) <= x < Floor(x, d) + d
    ensures x / d == y / d <==> Floor(y, d) <= x < Floor(y, d) + d
  {
    assert x == (x / d) * d + x % d;
    if Floor(y, d) <= x < Floor(y, d) + d {
      QuotientUnique(x / d, y / d, d, x);
    }
  }

  lemma QuotientUnique(m: nat, n: nat, d: nat, x: nat)
    requires m * d <= x < m * d + d
    requires n * d <= x < n * d + d
    ensures m == n
  {
    if m < n {
      MulMonotone(m + 1, n, d);
    } else if n < m {
      MulMonotone(n + 1, m, d);
    }
  }

  /** The network is exactly the block that starts at the masked address. */
  lemma NetworkIsBlock(a: Addr, p: Prefix)
    requires ValidPrefix(p)
    ensures InNetwork(a, p) <==>
            a.family == p.addr.family
            && Masked(p).addr.value <= a.value < Masked(p).addr.value + BlockSize(p)
  {
    SameBlock(a.value, p.addr.value, BlockSize(p));
  }

  /** A network of the full length holds one address. */
  lemma FullLengthHoldsOne(a: Addr, p: Prefix)
    requires p.bits == Width(p.addr.family)
    ensures InNetwork(a, p) <==> a == p.addr
  {
    assert BlockSize(p) == Pow2(0) == 1;
    SameBlock(a.value, p.addr.value, 1);
  }

  /** The last address of a network is an address of its family. */
  lemma BlockEndIsValid(p: Prefix)
    requires ValidPrefix(p)
    ensures Masked(p).addr.value + BlockSize(p) <= Pow2(Width(p.addr.family))
  {
    var d := BlockSize(p);
    Pow2Add(p.bits, Width(p.addr.family) - p.bits);
    FloorBelow(p.addr.value, d, Pow2(p.bits));
  }

  lemma FloorBelow(x: nat, d: nat, blocks: nat)
    requires d > 0 && x < blocks * d
    ensures Floor(x, d) + d <= blocks * d
  {
    SameBlock(x, x, d);
    var q := x / d;
    assert q * d < blocks * d;
    assert q < blocks by {
      if q >= blocks {
        MulMonotone(blocks, q, d);
      }
    }
    MulMonotone(q + 1, blocks, d);
    assert (q + 1) * d == q * d + d;
  }

  lemma MulMonotone(m: nat, n: nat, d: nat)
    requires m <= n
    ensures m * d <= n * d && (m + 1) * d == m * d + d
  {
  }

  /** Two prefixes have the same masked form exactly when they hold the same addresses. */
  lemma MaskedEqualsSameAddresses(p: Prefix, q: Prefix)
    requires ValidPrefix(p) && ValidPrefix(q)
    ensures Masked(p) == Masked(q) <==>
            (forall a: Addr | ValidAddr(a) :: InNetwork(a, p) <==> InNetwork(a, q))
  {
    if Masked(p) == Masked(q) {
      forall a: Addr | ValidAddr(a)
        ensures InNetwork(a, p) <==> InNetwork(a, q)
      {
        NetworkIsBlock(a, p);
        NetworkIsBlock(a, q);
      }
    }
    if forall a: Addr | ValidAddr(a) :: InNetwork(a, p) <==> InNetwork(a, q) {
      SameAddressesIncluded(p, q);
      SameAddressesIncluded(q, p);
      Pow2Injective(Width(p.addr.family) - p.bits, Width(q.addr.family) - q.bits);
    }
  }

  /** A network that lies in another starts no earlier and ends no later. */
  lemma SameAddressesIncluded(p: Prefix, q: Prefix)
    requires ValidPrefix(p) && ValidPrefix(q)
    requires forall a: Addr | ValidAddr(a) :: InNetwork(a, p) ==> InNetwork(a, q)
    ensures p.addr.family == q.addr.family
    ensures Masked(q).addr.value <= Masked(p).addr.value
    ensures Masked(p).addr.value + BlockSize(p) <= Masked(q).addr.value + BlockSize(q)
  {
    BlockEndIsValid(p);
    var first := Masked(p).addr;
    var last := first.(value := first.value + BlockSize(p) - 1);
    NetworkIsBlock(first, p);
    NetworkIsBlock(last, p);
    NetworkIsBlock(first, q);
    NetworkIsBlock(last, q);
    assert ValidAddr(first) && ValidAddr(last);
  }

  lemma {:induction false} Pow2Injective(m: nat, n: nat)
    ensures Pow2(m) == Pow2(n) ==> m == n
  {
    if m < n {
      Pow2Monotone(m, n - 1);
    } else if n < m {
      Pow2Monotone(n, m - 1);
    }
  }

  // ---------- Comparing CIDR texts ----------

  /** `sameCIDR`: by network when both texts are prefixes, else by trimmed text. */
  predicate SameCidr(a: string, b: string) {
    var pa := ParsePrefix(TrimSpace(a));
    var pb := ParsePrefix(TrimSpace(b));
    if pa.None? || pb.None? then TrimSpace(a) == TrimSpace(b)
    else Masked(pa.value) == Masked(pb.value)
  }

  /** The canonical form that decides `SameCidr`. */
  datatype CidrKey = Network(masked: Prefix) | Unreadable(text: string)

  function KeyOf(s: string): CidrKey {
    var t := TrimSpace(s);
    match ParsePrefix(t)
    case Some(p) => Network(Masked(p))
    case None => Unreadable(t)
  }

  /** `SameCidr` is equality of keys, hence an equivalence relation. */
  lemma SameCidrIsKeyEquality(a: string, b: string)
    ensures SameCidr(a, b) <==> KeyOf(a) == KeyOf(b)
  {
  }

  lemma SameCidrIsEquivalence(a: string, b: string, c: string)
    ensures SameCidr(a, a)
    ensures SameCidr(a, b) ==> SameCidr(b, a)
    ensures SameCidr(a, b) && SameCidr(b, c) ==> SameCidr(a, c)
  {
    SameCidrIsKeyEquality(a, b);
    SameCidrIsKeyEquality(b, c);
    SameCidrIsKeyEquality(a, c);
  }

  /** Blanks around a text do not matter. */
  lemma SameCidrIgnoresBlanks(before: string, s: string, after: string)
    requires forall c <- before + after :: c in " \t\r\n"
    ensures SameCidr(before + s + after, s)
  {
    forall c | c in before || c in after
      ensures IsSpace(c)
    {
      assert c in before + after;
    }
    TrimSpaceIgnoresBlanks(before, s, after);
  }

  /** Two readable CIDRs compare equal exactly when they admit the same addresses. */
  lemma SameCidrIsSameNetwork(a: string, b: string)
    requires ParsePrefix(TrimSpace(a)).Some? && ParsePrefix(TrimSpace(b)).Some?
    ensures var p, q := ParsePrefix(TrimSpace(a)).value, ParsePrefix(TrimSpace(b)).value;
            SameCidr(a, b) <==>
            (forall x: Addr | ValidAddr(x) :: InNetwork(x, p) <==> InNetwork(x, q))
  {
    ParsedPrefixIsValid(TrimSpace(a));
    ParsedPrefixIsValid(TrimSpace(b));
    MaskedEqualsSameAddresses(ParsePrefix(TrimSpace(a)).value, ParsePrefix(TrimSpace(b)).value);
  }

  // ---------- Printing IPv4 ----------

  /** How `net.IP.String` prints the four bytes of an IPv4 address. */
  function FormatIPv4(v: nat): string
    requires v < 0x1_0000_0000
  {
    Join(OctetTexts(v), '.')
  }

  function OctetTexts(v: nat): seq<string>
    requires v < 0x1_0000_0000
  {
    [Decimal(Octet(v, 0)), Decimal(Octet(v, 1)), Decimal(Octet(v, 2)), Decimal(Octet(v, 3))]
  }

  function Octet(v: nat, i: nat): (b: nat)
    requires v < 0x1_0000_0000 && i < 4
    ensures b < 256
  {
    if i == 0 then v / 0x100_0000
    else if i == 1 then v / 0x1_0000 % 256
    else if i == 2 then v / 256 % 256
    else v % 256
  }

  /** How `net.IPNet.String` prints an IPv4 network. */
  function FormatPrefix4(v: nat, bits: nat): string
    requires v < 0x1_0000_0000 && bits <= 32
  {
    FormatIPv4(v) + "/" + Decimal(bits)
  }

  lemma DecimalIsOctet(n: nat)
    requires n < 256
    ensures IsOctet(Decimal(n)) && ParseDigits(Decimal(n)) == n
    ensures '.' !in Decimal(n) && '/' !in Decimal(n)
  {
    ParseDecimal(n);
  }

  lemma OctetsMakeAddress(v: nat)
    requires v < 0x1_0000_0000
    ensures FromOctets(Octet(v, 0), Octet(v, 1), Octet(v, 2), Octet(v, 3)) == v
  {
    assert v / 0x1_0000 == v / 256 / 256;
    assert v / 0x100_0000 == v / 0x1_0000 / 256;
  }

  lemma FormatParseIPv4(v: nat)
    requires v < 0x1_0000_0000
    ensures ParseIPv4(FormatIPv4(v)) == Some(v)
  {
    var a, b, c, d := Octet(v, 0), Octet(v, 1), Octet(v, 2), Octet(v, 3);
    OctetsMakeAddress(v);
    ParseFourOctets(a, b, c, d);
  }

  lemma ParseFourOctets(a: nat, b: nat, c: nat, d: nat)
    requires a < 256 && b < 256 && c < 256 && d < 256
    ensures ParseIPv4(Join([Decimal(a), Decimal(b), Decimal(c), Decimal(d)], '.')) == Some(FromOctets(a, b, c, d))
  {
    DecimalIsOctet(a);
    DecimalIsOctet(b);
    DecimalIsOctet(c);
    DecimalIsOctet(d);
    SplitJoin([Decimal(a), Decimal(b), Decimal(c), Decimal(d)], '.');
  }

  /** An octet prints as it was read. */
  lemma OctetIsDecimal(s: string)
    requires IsOctet(s)
    ensures s == Decimal(ParseDigits(s))
  {
    DecimalOfDigits(s);
  }

  lemma OctetsOfAddress(a: nat, b: nat, c: nat, d: nat)
    requires a < 256 && b < 256 && c < 256 && d < 256
    ensures var v := FromOctets(a, b, c, d);
            Octet(v, 0) == a && Octet(v, 1) == b && Octet(v, 2) == c && Octet(v, 3) == d
  {
    var v := FromOctets(a, b, c, d);
    assert v / 256 == (a * 256 + b) * 256 + c;
    assert v / 0x1_0000 == v / 256 / 256 == a * 256 + b;
    assert v / 0x100_0000 == v / 0x1_0000 / 256 == a;
  }

  /** The texts that are read as IPv4 addresses are exactly the printed ones. */
  lemma ParseIPv4Exactly(s: string, v: nat)
    requires v < 0x1_0000_0000
    ensures ParseIPv4(s) == Some(v) <==> s == FormatIPv4(v)
  {
    FormatParseIPv4(v);
    if ParseIPv4(s) == Some(v) {
      var parts := Split(s, '.');
      SplitIsExact(s, '.');
      OctetIsDecimal(parts[0]);
      OctetIsDecimal(parts[1]);
      OctetIsDecimal(parts[2]);
      OctetIsDecimal(parts[3]);
      OctetsOfAddress(ParseDigits(parts[0]), ParseDigits(parts[1]), ParseDigits(parts[2]), ParseDigits(parts[3]));
      assert parts == OctetTexts(v);
    }
  }

  /** A printed address is made of digits and dots, and starts and ends with a digit. */
  lemma FormatIPv4Shape(v: nat)
    requires v < 0x1_0000_0000
    ensures var s := FormatIPv4(v);
            && s != [] && IsDigit(s[0])
            && (forall c <- s :: IsDigit(c) || c == '.')
            && FirstMark(s) == Some('.')
  {
    var parts := OctetTexts(v);
    var d0, d1, d2, d3 := parts[0], parts[1], parts[2], parts[3];
    assert parts[1..] == [d1, d2, d3] && parts[1..][1..] == [d2, d3] && [d2, d3][1..] == [d3];
    assert Join([d2, d3], '.') == d2 + "." + d3;
    assert Join([d1, d2, d3], '.') == d1 + "." + (d2 + "." + d3);
    assert FormatIPv4(v) == d0 + "." + (d1 + "." + (d2 + "." + d3));
    assert d0[0] in d0;
    FirstMarkAfterDigits(d0, d1 + "." + (d2 + "." + d3));
  }

  lemma {:induction false} FirstMarkAfterDigits(digits: string, rest: string)
    requires AllDigits(digits)
    ensures FirstMark(digits + "." + rest) == Some('.')
  {
    var s := digits + "." + rest;
    if digits != [] {
      assert digits[0] in digits;
      assert s[1..] == digits[1..] + "." + rest;
      FirstMarkAfterDigits(digits[1..], rest);
    }
  }

  lemma {:induction false} LastSlashIs(head: string, tail: string)
    requires '/' !in tail
    ensures LastSlash(head + "/" + tail) == |head|
  {
    var s := head + "/" + tail;
    if tail != [] {
      assert s[|s| - 1] == tail[|tail| - 1];
      assert s[..|s| - 1] == head + "/" + tail[..|tail| - 1];
      LastSlashIs(head, tail[..|tail| - 1]);
    }
  }

  /** The ends of a printed network are digits, so trimming leaves it alone. */
  lemma FormatPrefix4IsTrimmed(v: nat, bits: nat)
    requires v < 0x1_0000_0000 && bits <= 32
    ensures var s := FormatPrefix4(v, bits); s != "" && TrimSpace(s) == s && ',' !in s
  {
    var s, head, tail := FormatPrefix4(v, bits), FormatIPv4(v), Decimal(bits);
    FormatIPv4Shape(v);
    assert s[0] == head[0] && s[|s| - 1] == tail[|tail| - 1];
    assert tail[|tail| - 1] in tail;
    assert TrimLeft(s) == s && TrimRight(s) == s;
  }

  /** A printed network reads back as itself, and no trimming or splitting at a comma touches it. */
  lemma FormatParsePrefix4(v: nat, bits: nat)
    requires v < 0x1_0000_0000 && bits <= 32
    ensures var s := FormatPrefix4(v, bits);
            && ParsePrefix(s) == Some(Prefix(Addr(V4, v), bits))
            && s != "" && TrimSpace(s) == s && ',' !in s
  {
    var s := FormatPrefix4(v, bits);
    FormatParseIPv4(v);
    FormatIPv4Shape(v);
    DecimalIsOctet(bits);
    LastSlashIs(FormatIPv4(v), Decimal(bits));
    assert s[..|FormatIPv4(v)|] == FormatIPv4(v);
    assert s[|FormatIPv4(v)| + 1..] == Decimal(bits);
    FormatPrefix4IsTrimmed(v, bits);
  }

  /** The texts that are read as IPv4 networks are exactly the printed ones. */
  lemma ParsePrefix4Exactly(s: string, v: nat, bits: nat)
    requires v < 0x1_0000_0000 && bits <= 32
    ensures ParsePrefix(s) == Some(Prefix(Addr(V4, v), bits)) <==> s == FormatPrefix4(v, bits)
  {
    FormatParsePrefix4(v, bits);
    if ParsePrefix(s) == Some(Prefix(Addr(V4, v), bits)) {
      Prefix4IsPrinted(s, v, bits);
    }
  }

  lemma Prefix4IsPrinted(s: string, v: nat, bits: nat)
    requires v < 0x1_0000_0000 && bits <= 32 && ParsePrefix(s) == Some(Prefix(Addr(V4, v), bits))
    ensures s == FormatPrefix4(v, bits)
  {
    var i := LastSlash(s);
    ParseIPv4Exactly(s[..i], v);
    DecimalOfDigits(s[i + 1..]);
    assert s == s[..i] + "/" + s[i + 1..];
  }
}
