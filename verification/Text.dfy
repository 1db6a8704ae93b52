/**
 * The string operations of Go's `strings` and `strconv` packages that the controller relies on,
 * with the round trips proved about them.
 */
module Text {
  import opened Basics

  // ---------- Trimming ----------

  /** Unicode white space, as `unicode.IsSpace` has it. */
  predicate IsSpace(c: char) {
    var n := c as int;
    9 <= n <= 13 || n == 0x20 || n == 0x85 || n == 0xA0 || n == 0x1680 || 0x2000 <= n <= 0x200A
    || n == 0x2028 || n == 0x2029 || n == 0x202F || n == 0x205F || n == 0x3000
  }

  function TrimLeft(s: string): string {
    if s != [] && IsSpace(s[0]) then TrimLeft(s[1..]) else s
  }

  function TrimRight(s: string): string {
    if s != [] && IsSpace(s[|s| - 1]) then TrimRight(s[..|s| - 1]) else s
  }

  /** `strings.TrimSpace`. */
  function TrimSpace(s: string): string {
    TrimRight(TrimLeft(s))
  }

  ghost predicate AllSpace(s: string) {
    forall c <- s :: IsSpace(c)
  }

  /** Neither end is white space. */
  ghost predicate IsTrimmed(s: string) {
    s != "" ==> !IsSpace(s[0]) && !IsSpace(s[|s| - 1])
  }

  lemma {:induction false} TrimLeftDrops(before: string, s: string)
    requires AllSpace(before) && (s != "" ==> !IsSpace(s[0]))
    ensures TrimLeft(before + s) == s
  {
    if before == "" {
      assert before + s == s;
    } else {
      assert (before + s)[1..] == before[1..] + s && before[0] in before;
      TrimLeftDrops(before[1..], s);
    }
  }

  lemma {:induction false} TrimRightDrops(s: string, after: string)
    requires AllSpace(after) && (s != "" ==> !IsSpace(s[|s| - 1]))
    ensures TrimRight(s + after) == s
  {
    if after == "" {
      assert s + after == s;
    } else {
      var init := after[..|after| - 1];
      assert (s + after)[..|s + after| - 1] == s + init && after[|after| - 1] in after;
      TrimRightDrops(s, init);
    }
  }

  lemma {:induction false} AllSpaceIsTrimmedAway(s: string)
    requires AllSpace(s)
    ensures TrimLeft(s) == ""
  {
    if s != "" {
      assert s[0] in s;
      AllSpaceIsTrimmedAway(s[1..]);
    }
  }

  /** Trimming drops all white space around a text, and nothing else. */
  lemma TrimSpaceExactly(before: string, s: string, after: string)
    requires AllSpace(before) && AllSpace(after) && IsTrimmed(s)
    ensures TrimSpace(before + s + after) == s
  {
    if s == "" {
      assert before + s + after == before + after;
      AllSpaceIsTrimmedAway(before + after);
    } else {
      assert before + s + after == before + (s + after) && (s + after)[0] == s[0];
      TrimLeftDrops(before, s + after);
      TrimRightDrops(s, after);
    }
  }

  lemma {:induction false} TrimLeftSplits(s: string) returns (before: string)
    ensures AllSpace(before) && s == before + TrimLeft(s)
    ensures TrimLeft(s) != "" ==> !IsSpace(TrimLeft(s)[0])
  {
    before := "";
    if s != "" && IsSpace(s[0]) {
      var more := TrimLeftSplits(s[1..]);
      before := [s[0]] + more;
    }
  }

  lemma {:induction false} TrimRightSplits(s: string) returns (after: string)
    ensures AllSpace(after) && s == TrimRight(s) + after
    ensures TrimRight(s) != "" ==> !IsSpace(TrimRight(s)[|TrimRight(s)| - 1])
  {
    after := "";
    if s != "" && IsSpace(s[|s| - 1]) {
      var more := TrimRightSplits(s[..|s| - 1]);
      after := more + [s[|s| - 1]];
      assert s == TrimRight(s) + after;
    }
  }

  /** Every text is its trimmed form with white space around it. */
  lemma TrimSpaceSplits(s: string) returns (before: string, after: string)
    ensures AllSpace(before) && AllSpace(after) && IsTrimmed(TrimSpace(s))
    ensures s == before + TrimSpace(s) + after
  {
    before := TrimLeftSplits(s);
    after := TrimRightSplits(TrimLeft(s));
    assert TrimSpace(s) != "" ==> TrimSpace(s)[0] == TrimLeft(s)[0];
  }

  /** White space around a text does not change its trimmed form. */
  lemma TrimSpaceIgnoresBlanks(before: string, s: string, after: string)
    requires AllSpace(before) && AllSpace(after)
    ensures TrimSpace(before + s + after) == TrimSpace(s)
  {
    var l, r := TrimSpaceSplits(s);
    assert before + s + after == (before + l) + TrimSpace(s) + (r + after);
    TrimSpaceExactly(before + l, TrimSpace(s), r + after);
  }

  // ---------- Splitting and joining ----------

  /** `strings.Split` on a one-character separator: the pieces between separators, at least one. */
  function Split(s: string, sep: char): (parts: seq<string>)
    ensures |parts| >= 1
  {
    if s == [] then [""]
    else if s[0] == sep then [""] + Split(s[1..], sep)
    else
      var rest := Split(s[1..], sep);
      [[s[0]] + rest[0]] + rest[1..]
  }

  /** `strings.Join` with a one-character separator. */
  function Join(parts: seq<string>, sep: char): string {
    if |parts| == 0 then ""
    else if |parts| == 1 then parts[0]
    else parts[0] + [sep] + Join(parts[1..], sep)
  }

  lemma {:induction false} SplitPrefix(head: string, tail: string, sep: char)
    requires sep !in head
    ensures Split(head + [sep] + tail, sep) == [head] + Split(tail, sep)
  {
    var s := head + [sep] + tail;
    if head == [] {
      assert s[1..] == tail;
    } else {
      SplitPrefix(head[1..], tail, sep);
      assert s[1..] == head[1..] + [sep] + tail;
      assert [head[0]] + head[1..] == head;
    }
  }

  lemma {:induction false} SplitWhole(s: string, sep: char)
    requires sep !in s
    ensures Split(s, sep) == [s]
  {
    if s != [] {
      SplitWhole(s[1..], sep);
      assert [s[0]] + s[1..] == s;
    }
  }

  /** Splitting a joined list gives the list back, when no part holds the separator. */
  lemma {:induction false} SplitJoin(parts: seq<string>, sep: char)
    requires parts != []
    requires forall p <- parts :: sep !in p
    ensures Split(Join(parts, sep), sep) == parts
  {
    if |parts| == 1 {
      SplitWhole(parts[0], sep);
    } else {
      SplitJoin(parts[1..], sep);
      SplitPrefix(parts[0], Join(parts[1..], sep), sep);
      assert [parts[0]] + parts[1..] == parts;
    }
  }

  lemma {:induction false} SplitConcat(head: string, tail: string, sep: char)
    ensures Split(head + [sep] + tail, sep) == Split(head, sep) + Split(tail, sep)
  {
    var s := head + [sep] + tail;
    if head == [] {
      assert s[1..] == tail;
    } else {
      SplitConcat(head[1..], tail, sep);
      assert s[1..] == head[1..] + [sep] + tail;
      var rest, more := Split(head[1..], sep), Split(tail, sep);
      if head[0] == sep {
        assert [""] + (rest + more) == ([""] + rest) + more;
      } else {
        FirstPart(head[0], rest, more);
      }
    }
  }

  lemma FirstPart(c: char, parts: seq<string>, more: seq<string>)
    requires parts != []
    ensures [[c] + (parts + more)[0]] + (parts + more)[1..] == ([[c] + parts[0]] + parts[1..]) + more
  {
    assert (parts + more)[1..] == parts[1..] + more;
  }

  /** The pieces of a text, joined, are the text, and none of them holds the separator. */
  lemma {:induction false} SplitIsExact(s: string, sep: char)
    ensures Join(Split(s, sep), sep) == s
    ensures forall p <- Split(s, sep) :: sep !in p
  {
    if s != [] {
      var rest := Split(s[1..], sep);
      SplitIsExact(s[1..], sep);
      assert [s[0]] + s[1..] == s && rest[0] in rest;
      if s[0] == sep {
        assert ([""] + rest)[1..] == rest;
      } else {
        JoinGrows(s[0], rest, sep);
      }
    }
  }

  lemma JoinGrows(c: char, parts: seq<string>, sep: char)
    requires parts != []
    ensures Join([[c] + parts[0]] + parts[1..], sep) == [c] + Join(parts, sep)
  {
    var longer := [[c] + parts[0]] + parts[1..];
    assert longer[1..] == parts[1..];
    if |parts| > 1 {
      assert Join(longer, sep) == [c] + parts[0] + [sep] + Join(parts[1..], sep);
    }
  }

  // ---------- Removing a substring ----------

  predicate HasPrefix(s: string, prefix: string) {
    prefix <= s
  }

  /** `strings.ReplaceAll(s, part, "")`: every occurrence of `part`, left to right, is dropped. */
  function RemoveAll(s: string, part: string): string
    requires part != []
  {
    if s == [] then []
    else if part <= s then RemoveAll(s[|part|..], part)
    else [s[0]] + RemoveAll(s[1..], part)
  }

  /** Text without the first character of `part` is left alone. */
  lemma {:induction false} RemoveAllAbsent(s: string, part: string)
    requires part != [] && part[0] !in s
    ensures RemoveAll(s, part) == s
  {
    if s != [] {
      RemoveAllAbsent(s[1..], part);
      assert s[0] != part[0];
      assert [s[0]] + s[1..] == s;
    }
  }

  /** `part` stands somewhere in `s`. */
  ghost predicate Occurs(s: string, part: string) {
    exists i :: 0 <= i <= |s| && part <= s[i..]
  }

  lemma OccursLater(s: string, part: string)
    requires s != [] && !(part <= s)
    ensures Occurs(s, part) <==> Occurs(s[1..], part)
  {
    if i :| 0 <= i <= |s| && part <= s[i..] {
      assert i > 0 by {
        assert s[0..] == s;
      }
      assert s[1..][i - 1..] == s[i..];
    }
    if i :| 0 <= i <= |s[1..]| && part <= s[1..][i..] {
      assert s[i + 1..] == s[1..][i..];
    }
  }

  /** Dropping every occurrence leaves a text as it is exactly when there is none. */
  lemma {:induction false} RemoveAllExactly(s: string, part: string)
    requires part != []
    ensures |RemoveAll(s, part)| <= |s|
    ensures RemoveAll(s, part) == s <==> !Occurs(s, part)
  {
    if s == [] {
      assert forall i :: 0 <= i <= |s| ==> s[i..] == [];
    } else if part <= s {
      assert s[0..] == s;
      RemoveAllExactly(s[|part|..], part);
    } else {
      RemoveAllExactly(s[1..], part);
      OccursLater(s, part);
      assert RemoveAll(s, part)[1..] == RemoveAll(s[1..], part);
      assert [s[0]] + s[1..] == s;
    }
  }

  /** An occurrence that no earlier one overlaps is dropped, what stands before it stays, and so on behind it. */
  lemma {:induction false} RemoveAllAt(before: string, part: string, after: string)
    requires part != []
    requires forall i :: 0 <= i < |before| ==> !(part <= (before + part + after)[i..])
    ensures RemoveAll(before + part + after, part) == before + RemoveAll(after, part)
  {
    var s := before + part + after;
    if before == [] {
      assert s == part + after && s[|part|..] == after;
    } else {
      assert s[0..] == s && s[1..] == before[1..] + part + after;
      forall i | 0 <= i < |before[1..]|
        ensures !(part <= s[1..][i..])
      {
        assert s[1..][i..] == s[i + 1..];
      }
      RemoveAllAt(before[1..], part, after);
      assert [before[0]] + (before[1..] + RemoveAll(after, part)) == before + RemoveAll(after, part);
    }
  }

  // ---------- Decimal numbers ----------

  predicate IsDigit(c: char) {
    '0' <= c <= '9'
  }

  predicate AllDigits(s: string) {
    forall c <- s :: IsDigit(c)
  }

  function DigitChar(d: nat): (c: char)
    requires d < 10
    ensures IsDigit(c)
  {
    ('0' as int + d) as char
  }

  function DigitValue(c: char): nat
    requires IsDigit(c)
  {
    c as int - '0' as int
  }

  /** The decimal text of a natural number, without leading zeros. */
  function Decimal(n: nat): (s: string)
    ensures s != [] && AllDigits(s)
    ensures s[0] == '0' ==> s == "0"
  {
    if n < 10 then [DigitChar(n)] else Decimal(n / 10) + [DigitChar(n % 10)]
  }

  function ParseDigits(s: string): nat
    requires AllDigits(s)
  {
    if s == [] then 0 else 10 * ParseDigits(s[..|s| - 1]) + DigitValue(s[|s| - 1])
  }

  lemma {:induction false} ParseDecimal(n: nat)
    ensures ParseDigits(Decimal(n)) == n
  {
    if n >= 10 {
      ParseDecimal(n / 10);
      var s := Decimal(n);
      assert s[..|s| - 1] == Decimal(n / 10);
    } else {
      var s := Decimal(n);
      assert s[..|s| - 1] == [];
    }
  }

  /** A number without a leading zero prints as it was read. */
  lemma {:induction false} DecimalOfDigits(s: string)
    requires s != [] && AllDigits(s) && (|s| > 1 ==> s[0] != '0')
    ensures Decimal(ParseDigits(s)) == s
    ensures ParseDigits(s) > 0 <==> s != "0"
  {
    var init, last := s[..|s| - 1], s[|s| - 1];
    assert last in s && s == init + [last];
    if init != [] {
      DecimalOfDigits(init);
      assert init != "0";
    }
  }

  const MIN_INT64: int := -0x8000_0000_0000_0000
  const MAX_INT64: int := 0x7FFF_FFFF_FFFF_FFFF

  /** An `int64` value. */
  type Int64 = n: int | MIN_INT64 <= n <= MAX_INT64

  /** How `%d` prints an integer. */
  function FormatInt(n: int): (s: string)
    ensures s != []
    ensures forall c <- s :: IsDigit(c) || c == '-'
  {
    if n < 0 then "-" + Decimal(-n) else Decimal(n)
  }

  /** `strconv.ParseInt(s, 10, 64)`: one optional sign, digits, and a value that fits. */
  function ParseInt(s: string): Option<Int64> {
    if s == [] then None
    else
      var signed := s[0] == '+' || s[0] == '-';
      var digits := if signed then s[1..] else s;
      if digits == [] || !AllDigits(digits) then None
      else
        var value: int := if s[0] == '-' then 0 - ParseDigits(digits) else ParseDigits(digits);
        if MIN_INT64 <= value <= MAX_INT64 then Some(value) else None
  }

  lemma ParseFormatInt(n: Int64)
    ensures ParseInt(FormatInt(n)) == Some(n)
  {
    var magnitude: nat := if n < 0 then 0 - n else n;
    ParseDecimal(magnitude);
    if n < 0 {
      assert FormatInt(n)[1..] == Decimal(magnitude);
    } else {
      assert IsDigit(FormatInt(n)[0]);
    }
  }

  function Magnitude(n: int): nat {
    if n < 0 then -n else n
  }

  ghost predicate AllZeros(s: string) {
    forall c <- s :: c == '0'
  }

  /** An optional sign that fits, any number of zeros, and the magnitude. */
  ghost predicate Spells(s: string, n: int) {
    exists sign, zeros :: IsSpelling(s, n, sign, zeros)
  }

  ghost predicate IsSpelling(s: string, n: int, sign: string, zeros: string) {
    && (sign == "" || sign == "+" || sign == "-") && AllZeros(zeros)
    && (if sign == "-" then n <= 0 else n >= 0)
    && s == sign + (zeros + Decimal(Magnitude(n)))
  }

  lemma {:induction false} ZerosDoNotCount(zeros: string, core: string)
    requires AllZeros(zeros) && AllDigits(core)
    ensures AllDigits(zeros + core) && ParseDigits(zeros + core) == ParseDigits(core)
    decreases |core|, |zeros|
  {
    var s := zeros + core;
    if core != "" {
      assert s[..|s| - 1] == zeros + core[..|core| - 1];
      ZerosDoNotCount(zeros, core[..|core| - 1]);
    } else if zeros != "" {
      var init := zeros[..|zeros| - 1];
      assert s == zeros && init + "" == init && zeros[|zeros| - 1] in zeros;
      assert AllZeros(init) by {
        assert forall c <- init :: c in zeros;
      }
      ZerosDoNotCount(init, "");
    }
  }

  lemma {:induction false} LeadingZeros(s: string) returns (zeros: string, core: string)
    requires s != "" && AllDigits(s)
    ensures AllZeros(zeros) && s == zeros + core
    ensures core != "" && AllDigits(core) && (|core| > 1 ==> core[0] != '0')
  {
    zeros, core := "", s;
    if |s| > 1 && s[0] == '0' {
      zeros, core := LeadingZeros(s[1..]);
      zeros := "0" + zeros;
    }
  }

  /** What is read after the sign. */
  lemma ParseSigned(sign: string, digits: string)
    requires (sign == "" || sign == "+" || sign == "-") && digits != "" && AllDigits(digits)
    ensures var value: int := if sign == "-" then 0 - ParseDigits(digits) else ParseDigits(digits);
            ParseInt(sign + digits) == if MIN_INT64 <= value <= MAX_INT64 then Some(value) else None
  {
    var s := sign + digits;
    assert digits[0] in digits && s[|sign|..] == digits;
    assert sign == "" ==> s == digits;
  }

  /** A readable text is a sign and digits. */
  lemma ParsedIsSigned(s: string) returns (sign: string, digits: string)
    requires ParseInt(s).Some?
    ensures (sign == "" || sign == "+" || sign == "-") && digits != "" && AllDigits(digits) && s == sign + digits
  {
    sign := if s[0] == '+' || s[0] == '-' then [s[0]] else "";
    digits := s[|sign|..];
    assert sign == "" ==> digits == s;
  }

  lemma SpellingIsRead(s: string, n: Int64, sign: string, zeros: string)
    requires IsSpelling(s, n, sign, zeros)
    ensures ParseInt(s) == Some(n)
  {
    ZerosDoNotCount(zeros, Decimal(Magnitude(n)));
    ParseDecimal(Magnitude(n));
    ParseSigned(sign, zeros + Decimal(Magnitude(n)));
  }

  lemma ReadIsSpelled(s: string, n: Int64)
    requires ParseInt(s) == Some(n)
    ensures Spells(s, n)
  {
    var sign, digits := ParsedIsSigned(s);
    var zeros, core := LeadingZeros(digits);
    ParseSigned(sign, digits);
    ZerosDoNotCount(zeros, core);
    DecimalOfDigits(core);
    assert IsSpelling(s, n, sign, zeros);
  }

  /** The texts that are read as a number are exactly its spellings. */
  lemma ParseIntExactly(s: string, n: Int64)
    ensures ParseInt(s) == Some(n) <==> Spells(s, n)
  {
    if ParseInt(s) == Some(n) {
      ReadIsSpelled(s, n);
    }
    if sign, zeros :| IsSpelling(s, n, sign, zeros) {
      SpellingIsRead(s, n, sign, zeros);
    }
  }

  /** A number has no letters. */
  lemma IntHasNoLetters(s: string, i: nat)
    requires ParseInt(s).Some? && i < |s|
    ensures IsDigit(s[i]) || s[i] == '+' || s[i] == '-'
  {
    if s[0] == '+' || s[0] == '-' {
      assert i > 0 ==> s[i] == s[1..][i - 1] && s[1..][i - 1] in s[1..];
    } else {
      assert s[i] in s;
    }
  }

  // ---------- Booleans ----------

  /** `strconv.ParseBool`. */
  function ParseBool(s: string): Option<bool> {
    if s in ["1", "t", "T", "TRUE", "true", "True"] then Some(true)
    else if s in ["0", "f", "F", "FALSE", "false", "False"] then Some(false)
    else None
  }

  function LowerAscii(c: char): char {
    if 'A' <= c <= 'Z' then (c as int + 32) as char else c
  }

  /** `strings.EqualFold` against lower-case ASCII text whose letters have no other folding. */
  predicate EqualFoldAscii(s: string, lower: string) {
    |s| == |lower| && forall i :: 0 <= i < |s| ==> LowerAscii(s[i]) == lower[i]
  }
}
