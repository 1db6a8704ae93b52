/**
 * The printed forms of IPv6 addresses, and that reading (`Cidr.ParseIPv6`) inverts every one of them:
 * all eight groups, a double colon for a run of zeros, and an IPv4 address in the last four bytes
 * (section 2.2 of RFC 4291).
 */
module Ipv6Printing {
  import opened Basics
  import opened Text
  import opened Cidr

  // ---------- One group ----------

  function HexChar(d: nat): (c: char)
    requires d < 16
    ensures HexValue(c) == Some(d)
  {
    if d < 10 then DigitChar(d) else ('a' as int + d - 10) as char
  }

  /** A group of sixteen bits, without leading zeros. */
  function Hex(n: nat): (s: string)
    ensures s != [] && forall i :: 0 <= i < |s| ==> HexValue(s[i]).Some?
    ensures n < 0x10 ==> |s| == 1
    ensures n < 0x100 ==> |s| <= 2
    ensures n < 0x1000 ==> |s| <= 3
    ensures n < 0x1_0000 ==> |s| <= 4
  {
    if n < 16 then [HexChar(n)] else Hex(n / 16) + [HexChar(n % 16)]
  }

  lemma {:induction false} ParseHexOfHex(n: nat)
    ensures ParseHex(Hex(n)) == n
  {
    var s := Hex(n);
    if n >= 16 {
      ParseHexOfHex(n / 16);
      assert s[..|s| - 1] == Hex(n / 16);
    } else {
      assert s[..|s| - 1] == [];
    }
  }

  /** The leading run of hexadecimal digits ends where something else starts. */
  lemma {:induction false} HexRunIs(digits: string, rest: string)
    requires forall i :: 0 <= i < |digits| ==> HexValue(digits[i]).Some?
    requires rest != [] ==> HexValue(rest[0]).None?
    ensures HexRun(digits + rest) == |digits|
  {
    if digits == [] {
      assert digits + rest == rest;
    } else {
      assert (digits + rest)[1..] == digits[1..] + rest;
      HexRunIs(digits[1..], rest);
    }
  }

  // ---------- Groups ----------

  /** A group and a colon before more text. */
  function Colon(n: nat, rest: string): string {
    Hex(n) + ":" + rest
  }

  /** A group and a double colon before more text. */
  function DoubleColon(n: nat, rest: string): string {
    Hex(n) + "::" + rest
  }

  /** Groups with colons in between. */
  function GroupsText(groups: seq<nat>): string {
    if groups == [] then ""
    else if |groups| == 1 then Hex(groups[0])
    else Colon(groups[0], GroupsText(groups[1..]))
  }

  lemma GroupsTextStartsWithDigit(groups: seq<nat>)
    requires groups != []
    ensures GroupsText(groups) != [] && HexValue(GroupsText(groups)[0]).Some?
  {
  }

  /** How groups are read one after another; `parse` is `ParseGroups`, seen from outside. */
  ghost predicate ReadsGroups(parse: (string, Groups) -> Option<Groups>) {
    && (forall n, acc: Groups {:trigger parse(Hex(n), acc)} ::
          n < 0x1_0000 && |acc.groups| < 8 ==> parse(Hex(n), acc) == Some(With(acc, [n])))
    && (forall n, rest, acc: Groups {:trigger parse(Colon(n, rest), acc)} ::
          n < 0x1_0000 && |acc.groups| < 8 && rest != "" && rest[0] != ':' ==>
            parse(Colon(n, rest), acc) == parse(rest, With(acc, [n])))
    && (forall n, rest, acc: Groups {:trigger parse(DoubleColon(n, rest), acc)} ::
          n < 0x1_0000 && |acc.groups| < 8 && acc.ellipsis.None? ==>
            parse(DoubleColon(n, rest), acc) == AfterEllipsis(parse, acc.groups + [n], rest))
  }

  function With(acc: Groups, groups: seq<nat>): Groups {
    acc.(groups := acc.groups + groups)
  }

  function AfterEllipsis(parse: (string, Groups) -> Option<Groups>, groups: seq<nat>, rest: string): Option<Groups> {
    var read := Groups(groups, Some(|groups|));
    if rest == "" then Some(read) else parse(rest, read)
  }

  lemma ReadLast(n: nat, acc: Groups)
    requires n < 0x1_0000 && |acc.groups| < 8
    ensures ParseGroups(Hex(n), acc) == Some(With(acc, [n]))
  {
    assert Hex(n) + "" == Hex(n);
    ReadOneGroup(n, "", acc);
  }

  lemma ReadColon(n: nat, rest: string, acc: Groups)
    requires n < 0x1_0000 && |acc.groups| < 8 && rest != "" && rest[0] != ':'
    ensures ParseGroups(Colon(n, rest), acc) == ParseGroups(rest, With(acc, [n]))
  {
    var more := ":" + rest;
    assert Colon(n, rest) == Hex(n) + more && more[1..] == rest && more[1] == rest[0];
    ReadOneGroup(n, more, acc);
  }

  lemma ReadDoubleColon(n: nat, rest: string, acc: Groups)
    requires n < 0x1_0000 && |acc.groups| < 8 && acc.ellipsis.None?
    ensures ParseGroups(DoubleColon(n, rest), acc) == AfterEllipsis(ParseGroups, acc.groups + [n], rest)
  {
    var more := "::" + rest;
    assert DoubleColon(n, rest) == Hex(n) + more && more[2..] == rest;
    ReadOneGroup(n, more, acc);
  }

  lemma GroupsAreRead()
    ensures ReadsGroups(ParseGroups)
  {
    forall n, acc: Groups | n < 0x1_0000 && |acc.groups| < 8
      ensures ParseGroups(Hex(n), acc) == Some(With(acc, [n]))
    {
      ReadLast(n, acc);
    }
    forall n, rest, acc: Groups | n < 0x1_0000 && |acc.groups| < 8 && rest != "" && rest[0] != ':'
      ensures ParseGroups(Colon(n, rest), acc) == ParseGroups(rest, With(acc, [n]))
    {
      ReadColon(n, rest, acc);
    }
    forall n, rest, acc: Groups | n < 0x1_0000 && |acc.groups| < 8 && acc.ellipsis.None?
      ensures ParseGroups(DoubleColon(n, rest), acc) == AfterEllipsis(ParseGroups, acc.groups + [n], rest)
    {
      ReadDoubleColon(n, rest, acc);
    }
  }

  /** Reading one group that a colon follows, or nothing. */
  lemma ReadOneGroup(n: nat, rest: string, acc: Groups)
    requires n < 0x1_0000 && |acc.groups| < 8
    requires rest != [] ==> rest[0] == ':'
    ensures var read := With(acc, [n]);
            ParseGroups(Hex(n) + rest, acc) ==
            if rest == "" then Some(read)
            else if |rest| == 1 then None
            else if rest[1] == ':' then
              if read.ellipsis.Some? then None
              else
                var read' := read.(ellipsis := Some(|read.groups|));
                if |rest| == 2 then Some(read') else ParseGroups(rest[2..], read')
            else ParseGroups(rest[1..], read)
  {
    var s := Hex(n) + rest;
    HexRunIs(Hex(n), rest);
    ParseHexOfHex(n);
    assert s[..|Hex(n)|] == Hex(n) && s[|Hex(n)|..] == rest;
  }

  /** Groups are read one after another. */
  lemma {:induction false} ReadGroups(parse: (string, Groups) -> Option<Groups>, groups: seq<nat>, acc: Groups)
    requires ReadsGroups(parse)
    requires groups != [] && GroupsInRange(groups) && |acc.groups| + |groups| <= 8
    ensures parse(GroupsText(groups), acc) == Some(With(acc, groups))
    decreases |groups|
  {
    var n, more := groups[0], groups[1..];
    assert groups == [n] + more;
    if more == [] {
      assert groups == [n];
    } else {
      GroupsTextStartsWithDigit(more);
      ReadGroups(parse, more, With(acc, [n]));
      assert acc.groups + [n] + more == acc.groups + groups;
    }
  }

  /** Groups before a double colon. */
  lemma {:induction false} ReadGroupsToEllipsis(
    parse: (string, Groups) -> Option<Groups>, groups: seq<nat>, acc: Groups, tail: string)
    requires ReadsGroups(parse)
    requires groups != [] && GroupsInRange(groups) && |acc.groups| + |groups| <= 8 && acc.ellipsis.None?
    ensures parse(GroupsText(groups) + "::" + tail, acc) == AfterEllipsis(parse, acc.groups + groups, tail)
    decreases |groups|
  {
    var n, more := groups[0], groups[1..];
    assert groups == [n] + more;
    if more == [] {
      assert groups == [n];
      assert GroupsText(groups) + "::" + tail == DoubleColon(n, tail);
    } else {
      GroupsTextStartsWithDigit(more);
      var rest := GroupsText(more) + "::" + tail;
      assert GroupsText(groups) + "::" + tail == Colon(n, rest);
      ReadGroupsToEllipsis(parse, more, With(acc, [n]), tail);
      assert acc.groups + [n] + more == acc.groups + groups;
    }
  }

  /** What stands after a double colon. */
  lemma ReadAfterEllipsis(parse: (string, Groups) -> Option<Groups>, pre: seq<nat>, post: seq<nat>)
    requires ReadsGroups(parse) && GroupsInRange(post) && |pre| + |post| < 8
    ensures AfterEllipsis(parse, pre, GroupsText(post)) == Some(Groups(pre + post, Some(|pre|)))
  {
    if post == [] {
      assert pre + post == pre;
    } else {
      GroupsTextStartsWithDigit(post);
      ReadGroups(parse, post, Groups(pre, Some(|pre|)));
    }
  }

  function Expanded(g: Option<Groups>): Option<nat> {
    match g
    case None => None
    case Some(g) => Expand(g)
  }

  lemma ParseAfterEllipsis(tail: string)
    ensures ParseIPv6("::" + tail) == Expanded(AfterEllipsis(ParseGroups, [], tail))
  {
    var s := "::" + tail;
    assert s[..2] == "::" && s[2..] == tail;
  }

  lemma ParseFromGroup(s: string)
    requires s != "" && s[0] != ':'
    ensures ParseIPv6(s) == Expanded(ParseGroups(s, Groups([], None)))
  {
  }

  lemma ExpandElided(pre: seq<nat>, post: seq<nat>)
    requires |pre| + |post| < 8
    ensures Expand(Groups(pre + post, Some(|pre|))) == Some(FromGroups(pre + seq(8 - |pre| - |post|, _ => 0) + post))
  {
    var all := pre + post;
    assert all[..|pre|] == pre && all[|pre|..] == post;
  }

  /** A double colon stands for the zeros that are missing, wherever they are. */
  lemma ParseElided(pre: seq<nat>, post: seq<nat>)
    requires GroupsInRange(pre) && GroupsInRange(post) && |pre| + |post| < 8
    ensures ParseIPv6(GroupsText(pre) + "::" + GroupsText(post))
            == Some(FromGroups(pre + seq(8 - |pre| - |post|, _ => 0) + post))
  {
    ReadElided(pre, post);
    ExpandElided(pre, post);
  }

  lemma ReadElided(pre: seq<nat>, post: seq<nat>)
    requires GroupsInRange(pre) && GroupsInRange(post) && |pre| + |post| < 8
    ensures ParseIPv6(GroupsText(pre) + "::" + GroupsText(post)) == Expand(Groups(pre + post, Some(|pre|)))
  {
    GroupsAreRead();
    ReadAfterEllipsis(ParseGroups, pre, post);
    if pre == [] {
      ElidedFromStart(GroupsText(post));
    } else {
      ElidedAfterGroups(pre, GroupsText(post));
    }
  }

  lemma ElidedFromStart(tail: string)
    ensures ParseIPv6(GroupsText([]) + "::" + tail) == Expanded(AfterEllipsis(ParseGroups, [], tail))
  {
    assert GroupsText([]) + "::" + tail == "::" + tail;
    ParseAfterEllipsis(tail);
  }

  lemma ElidedAfterGroups(pre: seq<nat>, tail: string)
    requires pre != [] && GroupsInRange(pre) && |pre| <= 8
    ensures ParseIPv6(GroupsText(pre) + "::" + tail) == Expanded(AfterEllipsis(ParseGroups, pre, tail))
  {
    GroupsTextStartsWithDigit(pre);
    ParseFromGroup(GroupsText(pre) + "::" + tail);
    GroupsAreRead();
    ReadElidedFrom(ParseGroups, pre, tail);
  }

  lemma ReadElidedFrom(parse: (string, Groups) -> Option<Groups>, pre: seq<nat>, tail: string)
    requires ReadsGroups(parse) && pre != [] && GroupsInRange(pre) && |pre| <= 8
    ensures parse(GroupsText(pre) + "::" + tail, Groups([], None)) == AfterEllipsis(parse, pre, tail)
  {
    ReadGroupsToEllipsis(parse, pre, Groups([], None), tail);
    assert [] + pre == pre;
  }

  // ---------- Whole addresses ----------

  /** The last `k` groups of a number. */
  function GroupsOf(v: nat, k: nat): (groups: seq<nat>)
    ensures |groups| == k && GroupsInRange(groups)
  {
    if k == 0 then [] else GroupsOf(v / 0x1_0000, k - 1) + [v % 0x1_0000]
  }

  lemma {:induction false} GroupsMakeNumber(v: nat, k: nat)
    requires v < Pow2(16 * k)
    ensures FromGroups(GroupsOf(v, k)) == v
  {
    if k > 0 {
      Pow2Add(16 * (k - 1), 16);
      Pow2Values();
      GroupsMakeNumber(v / 0x1_0000, k - 1);
      var groups := GroupsOf(v, k);
      assert groups[..|groups| - 1] == GroupsOf(v / 0x1_0000, k - 1);
    }
  }

  /** All eight groups of an address. */
  function FormatIPv6(v: nat): string {
    GroupsText(GroupsOf(v, 8))
  }

  /** Every IPv6 address reads back as itself. */
  lemma FormatParseIPv6(v: nat)
    requires v < Pow2(128)
    ensures ParseIPv6(FormatIPv6(v)) == Some(v)
    ensures ParseAddr(FormatIPv6(v)) == Some(Addr(V6, v))
  {
    GroupsMakeNumber(v, 8);
    ParseAllGroups(GroupsOf(v, 8));
    AllGroupsHaveColons(GroupsOf(v, 8));
  }

  lemma ParseAllGroups(groups: seq<nat>)
    requires |groups| == 8 && GroupsInRange(groups)
    ensures ParseIPv6(GroupsText(groups)) == Some(FromGroups(groups))
  {
    GroupsTextStartsWithDigit(groups);
    GroupsAreRead();
    ParseFromGroup(GroupsText(groups));
    ReadGroups(ParseGroups, groups, Groups([], None));
    assert [] + groups == groups;
  }

  lemma AllGroupsHaveColons(groups: seq<nat>)
    requires |groups| > 1
    ensures FirstMark(GroupsText(groups)) == Some(':')
  {
    FirstMarkAfterHex(Hex(groups[0]), GroupsText(groups[1..]));
  }

  lemma {:induction false} FirstMarkAfterHex(digits: string, rest: string)
    requires forall i :: 0 <= i < |digits| ==> HexValue(digits[i]).Some?
    ensures FirstMark(digits + ":" + rest) == Some(':')
  {
    var s := digits + ":" + rest;
    if digits != [] {
      assert s[1..] == digits[1..] + ":" + rest;
      FirstMarkAfterHex(digits[1..], rest);
    }
  }

  /** A printed IPv6 network reads back as itself. */
  lemma FormatParsePrefix6(v: nat, bits: nat)
    requires v < Pow2(128) && bits <= 128
    ensures ParsePrefix(FormatIPv6(v) + "/" + Decimal(bits)) == Some(Prefix(Addr(V6, v), bits))
  {
    var head, tail := FormatIPv6(v), Decimal(bits);
    var s := head + "/" + tail;
    FormatParseIPv6(v);
    ParseDecimal(bits);
    LastSlashIs(head, tail);
    assert s[..|head|] == head && s[|head| + 1..] == tail;
  }

  /** Different addresses have different groups: groups in range make different numbers. */
  lemma {:induction false} FromGroupsInjective(a: seq<nat>, b: seq<nat>)
    requires GroupsInRange(a) && GroupsInRange(b) && |a| == |b| && FromGroups(a) == FromGroups(b)
    ensures a == b
  {
    if a != [] {
      var a', b' := a[..|a| - 1], b[..|b| - 1];
      assert a[|a| - 1] < 0x1_0000 && b[|b| - 1] < 0x1_0000;
      FromGroupsInjective(a', b');
      assert a == a' + [a[|a| - 1]] && b == b' + [b[|b| - 1]];
    }
  }

  // ---------- IPv4 in the last four bytes ----------

  /** A dotted text after the first groups is read as two groups. */
  lemma ReadDotted(first: string, rest: string, v: nat, acc: Groups)
    requires 1 <= |first| <= 4 && forall i :: 0 <= i < |first| ==> HexValue(first[i]).Some?
    requires rest != [] && rest[0] == '.' && ParseIPv4(first + rest) == Some(v)
    requires |acc.groups| <= 6 && (acc.ellipsis.None? ==> |acc.groups| == 6)
    ensures ParseGroups(first + rest, acc) == Some(With(acc, [v / 0x1_0000, v % 0x1_0000]))
  {
    HexRunIs(first, rest);
  }

  /** The first octet of a printed address. */
  lemma FirstOctet(v: nat) returns (first: string, rest: string)
    requires v < 0x1_0000_0000
    ensures FormatIPv4(v) == first + rest && rest != [] && rest[0] == '.'
    ensures 1 <= |first| <= 4 && forall i :: 0 <= i < |first| ==> HexValue(first[i]).Some?
  {
    var parts := OctetTexts(v);
    first, rest := parts[0], "." + Join(parts[1..], '.');
    forall i | 0 <= i < |first|
      ensures HexValue(first[i]).Some?
    {
      assert first[i] in first;
    }
    OctetIsShort(Octet(v, 0));
  }

  lemma OctetIsShort(n: nat)
    requires n < 256
    ensures |Decimal(n)| <= 3
  {
    if n >= 10 {
      assert Decimal(n) == Decimal(n / 10) + [DigitChar(n % 10)];
      if n >= 100 {
        assert Decimal(n / 10) == Decimal(n / 100) + [DigitChar(n / 10 % 10)];
      }
    }
  }

  lemma NumberOfMapped(v: nat)
    requires v < 0x1_0000_0000
    ensures FromGroups([0xFFFF, v / 0x1_0000, v % 0x1_0000]) == 0xFFFF * 0x1_0000_0000 + v
  {
    var all := [0xFFFF, v / 0x1_0000, v % 0x1_0000];
    var two := [0xFFFF, v / 0x1_0000];
    var one: seq<nat> := [0xFFFF];
    assert one[..0] == [];
    assert FromGroups(one) == 0xFFFF;
    assert two[..1] == one;
    assert FromGroups(two) == 0xFFFF * 0x1_0000 + v / 0x1_0000;
    assert all[..2] == two;
  }

  /** The groups of a mapped address. */
  lemma ReadMapped(parse: (string, Groups) -> Option<Groups>, tail: string, mapped: seq<nat>)
    requires ReadsGroups(parse) && tail != "" && tail[0] != ':'
    requires parse(tail, Groups([0xFFFF], Some(0))) == Some(Groups([0xFFFF] + mapped, Some(0)))
    ensures AfterEllipsis(parse, [], "ffff:" + tail) == Some(Groups([0xFFFF] + mapped, Some(0)))
  {
    MappedPrefix();
    assert Colon(0xFFFF, tail) == "ffff:" + tail;
    var acc := Groups([], Some(0));
    assert With(acc, [0xFFFF]) == Groups([0xFFFF], Some(0));
    assert parse(Colon(0xFFFF, tail), acc) == parse(tail, With(acc, [0xFFFF]));
  }

  lemma ExpandMapped(v: nat)
    requires v < 0x1_0000_0000
    ensures Expand(Groups([0xFFFF] + [v / 0x1_0000, v % 0x1_0000], Some(0))) == Some(0xFFFF * 0x1_0000_0000 + v)
  {
    var all := [0xFFFF] + [v / 0x1_0000, v % 0x1_0000];
    assert all == [0xFFFF, v / 0x1_0000, v % 0x1_0000] && [] + all == all;
    ExpandElided([], all);
    var zeros := seq(5, _ => 0);
    assert [] + zeros + all == zeros + all;
    ZerosFirst(zeros, all);
    NumberOfMapped(v);
  }

  /** An IPv4 address written as a mapped IPv6 address is one of the 2^32 mapped ones. */
  lemma ParseMapped(v: nat)
    requires v < 0x1_0000_0000
    ensures ParseIPv6("::ffff:" + FormatIPv4(v)) == Some(0xFFFF * 0x1_0000_0000 + v)
  {
    var tail := "ffff:" + FormatIPv4(v);
    assert "::ffff:" + FormatIPv4(v) == "::" + tail;
    ReadMappedTail(v);
    ParseAfterEllipsis(tail);
    ExpandMapped(v);
  }

  lemma ReadMappedTail(v: nat)
    requires v < 0x1_0000_0000
    ensures AfterEllipsis(ParseGroups, [], "ffff:" + FormatIPv4(v))
            == Some(Groups([0xFFFF] + [v / 0x1_0000, v % 0x1_0000], Some(0)))
  {
    ReadDottedLast(v, Groups([0xFFFF], Some(0)));
    GroupsAreRead();
    FormatIPv4Shape(v);
    ReadMapped(ParseGroups, FormatIPv4(v), [v / 0x1_0000, v % 0x1_0000]);
  }

  lemma ReadDottedLast(v: nat, acc: Groups)
    requires v < 0x1_0000_0000 && |acc.groups| <= 6 && (acc.ellipsis.None? ==> |acc.groups| == 6)
    ensures ParseGroups(FormatIPv4(v), acc) == Some(With(acc, [v / 0x1_0000, v % 0x1_0000]))
  {
    var first, rest := FirstOctet(v);
    FormatParseIPv4(v);
    ReadDotted(first, rest, v, acc);
  }

  lemma ParseMappedAddr(v: nat)
    requires v < 0x1_0000_0000
    ensures ParseAddr("::ffff:" + FormatIPv4(v)) == Some(Addr(V6, 0xFFFF * 0x1_0000_0000 + v))
  {
    ParseMapped(v);
    assert FirstMark("::ffff:" + FormatIPv4(v)) == Some(':');
  }

  lemma MappedPrefix()
    ensures Hex(0xFFFF) == "ffff"
  {
    assert Hex(0xF) == "f";
    assert Hex(0xFF) == "ff";
    assert Hex(0xFFF) == "fff";
  }

  /** Leading zeros do not count. */
  lemma {:induction false} ZerosFirst(zeros: seq<nat>, groups: seq<nat>)
    requires forall i :: 0 <= i < |zeros| ==> zeros[i] == 0
    ensures FromGroups(zeros + groups) == FromGroups(groups)
    decreases |groups|, |zeros|
  {
    if groups != [] {
      var all := zeros + groups;
      assert all[..|all| - 1] == zeros + groups[..|groups| - 1];
      ZerosFirst(zeros, groups[..|groups| - 1]);
    } else if zeros != [] {
      assert zeros + groups == zeros;
      assert zeros[..|zeros| - 1] + [] == zeros[..|zeros| - 1];
      ZerosFirst(zeros[..|zeros| - 1], []);
    }
  }
}
