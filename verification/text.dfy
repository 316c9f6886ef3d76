/** Decimal text as the firmware reads and writes it: the `{:02d}` field of
    its format strings, MicroPython's `int()` on a query value (base prefixes included), `str(n)`,
    and `str.upper()`. Request paths reach the parser as ASCII (they are cut out
    of `str(bytes)`), so ASCII digits and letters are the whole alphabet. */
module Text {
  import opened Util

  predicate IsDigit(ch: char) {
    '0' <= ch <= '9'
  }

  function DigitChar(d: nat): (ch: char)
    requires d < 10
    ensures IsDigit(ch)
  {
    (('0' as int) + d) as char
  }

  function DigitValue(ch: char): (d: nat)
    requires IsDigit(ch)
    ensures d < 10
    ensures DigitChar(d) == ch
  {
    (ch as int) - ('0' as int)
  }

  /** `str(n)` for a natural number: its decimal digits, no leading zero. */
  function NatToString(n: nat): (s: string)
    ensures |s| >= 1
    ensures forall i :: 0 <= i < |s| ==> IsDigit(s[i])
    ensures n < 10 <==> |s| == 1
    ensures |s| > 1 ==> s[0] != '0'
    decreases n
  {
    if n < 10 then [DigitChar(n)] else NatToString(n / 10) + [DigitChar(n % 10)]
  }

  /** `str(n)` for any integer. */
  function IntToString(n: int): (s: string)
    ensures |s| >= 1
    ensures n >= 0 ==> s == NatToString(n)
    ensures n < 0 ==> s == "-" + NatToString(-n)
  {
    if n < 0 then "-" + NatToString(-n) else NatToString(n)
  }

  /** The two-character field `{n:02d}`: a leading zero below ten, the plain
      digits from ten on, and a minus sign with no padding for negatives. */
  function Pad2(n: int): (s: string)
    ensures 0 <= n < 100 ==> |s| == 2 && TwoDigitValue(s, 0) == n
    ensures n >= 10 ==> s == NatToString(n)
    ensures n < 0 ==> s == IntToString(n)
  {
    if n < 0 then "-" + NatToString(-n)
    else if n < 10 then ['0'] + NatToString(n)
    else
      assert n < 100 ==> NatToString(n) == [DigitChar(n / 10)] + [DigitChar(n % 10)];
      NatToString(n)
  }

  /** Reads back the decimal number written in `s[i]` and `s[i + 1]`. */
  function TwoDigitValue(s: string, i: nat): int
    requires i + 2 <= |s|
  {
    if IsDigit(s[i]) && IsDigit(s[i + 1]) then DigitValue(s[i]) * 10 + DigitValue(s[i + 1]) else -1
  }

  /** The weight MicroPython gives a character in a numeral: `0`-`9` are
      0-9 and the letters of either case 10-35; any other character stops
      the digits, here weight 36, above every base. */
  function DigitWeight(ch: char): (d: nat)
    ensures d <= 36
    ensures IsDigit(ch) ==> d == DigitValue(ch)
    ensures d < 10 ==> IsDigit(ch)
  {
    if IsDigit(ch) then DigitValue(ch)
    else if 'a' <= ch <= 'z' then (ch as int) - ('a' as int) + 10
    else if 'A' <= ch <= 'Z' then (ch as int) - ('A' as int) + 10
    else 36
  }

  /** Digits and underscores only: the characters a numeral in `base` may
      hold. The parser steps over every underscore, wherever it stands. */
  predicate InBase(s: string, base: nat) {
    forall i :: 0 <= i < |s| ==> DigitWeight(s[i]) < base || s[i] == '_'
  }

  /** The digit run `int()` needs after the sign and the base prefix: at
      least one character, all of them digits of the base or underscores. */
  predicate IsDigitGroup(s: string, base: nat) {
    |s| > 0 && InBase(s, base)
  }

  /** The number a digit run denotes in `base`; underscores carry no value. */
  function GroupValue(s: string, base: nat): nat
    requires InBase(s, base)
    decreases |s|
  {
    if |s| == 0 then 0
    else
      var init := s[..|s| - 1];
      InBasePrefix(s, base);
      var high: nat := GroupValue(init, base);
      if s[|s| - 1] == '_' then high
      else Shift(high, base, DigitWeight(s[|s| - 1]))
  }

  /** One more digit `d` after `high` in `base`. */
  function Shift(high: nat, base: nat, d: nat): nat {
    high * base + d
  }

  lemma InBasePrefix(s: string, base: nat)
    requires InBase(s, base) && |s| > 0
    ensures InBase(s[..|s| - 1], base)
  {
    assert forall i :: 0 <= i < |s| - 1 ==> s[..|s| - 1][i] == s[i];
  }

  /** Letters, digits and underscores: every character of an accepted
      numeral after its sign. */
  predicate IsWord(s: string) {
    forall i :: 0 <= i < |s| ==> DigitWeight(s[i]) < 36 || s[i] == '_'
  }

  /** The base an unsigned numeral is read in, and how long its prefix is:
      `0x`, `0o` or `0b` in either case select 16, 8 or 2 when at least
      two characters are there; anything else, a bare leading zero
      included, is read in base 10 from its first character. */
  function BasePrefix(s: string): (r: (nat, nat))
    ensures r.0 in {2, 8, 10, 16}
    ensures r.1 == 0 <==> r.0 == 10
    ensures r.1 != 0 ==> |s| >= 2 && r.1 == 2 && s[0] == '0' && DigitWeight(s[1]) == PrefixWeight(r.0)
    ensures |s| >= 2 && s[0] == '0' && DigitWeight(s[1]) in {11, 24, 33} ==> r.1 == 2
  {
    if |s| >= 2 && s[0] == '0' then
      if s[1] == 'x' || s[1] == 'X' then (16, 2)
      else if s[1] == 'o' || s[1] == 'O' then (8, 2)
      else if s[1] == 'b' || s[1] == 'B' then (2, 2)
      else (10, 0)
    else (10, 0)
  }

  /** The weight of the prefix letter of a base: `b` for 2, `o` for 8,
      `x` for 16. */
  function PrefixWeight(base: nat): nat {
    if base == 2 then 11 else if base == 8 then 24 else 33
  }

  /** An unsigned numeral: the base prefix, then a digit run of that base. */
  function ParseUnsigned(s: string): (r: Option<nat>)
    ensures r.Some? ==> |s| >= 1 && IsWord(s)
    ensures IsDigitGroup(s, 10) ==> r == Some(GroupValue(s, 10))
  {
    var (base, skip) := BasePrefix(s);
    if IsDigitGroup(s, 10) then
      DecimalHasNoPrefix(s);
      Some(GroupValue(s, 10))
    else if IsDigitGroup(s[skip..], base) then
      assert forall i :: skip <= i < |s| ==> s[i] == s[skip..][i - skip];
      Some(GroupValue(s[skip..], base))
    else None
  }

  /** A decimal run has no base prefix: its second character, if any, is a
      digit or an underscore, never `x`, `o` or `b`. */
  lemma DecimalHasNoPrefix(s: string)
    requires IsDigitGroup(s, 10)
    ensures BasePrefix(s) == (10, 0)
  {
    if |s| >= 2 {
      assert DigitWeight(s[1]) < 10 || s[1] == '_';
    }
  }

  /** MicroPython's `int(s)` (base 0) on ASCII text without white space: an
      optional sign, an optional base prefix, then a digit run of the base;
      anything else (nothing after the sign or the prefix, a letter beyond
      the base, a second sign) is a `ValueError`, here `None`. */
  function ParseInt(s: string): (r: Option<int>)
    ensures r.Some? ==> |s| >= 1 && IsWord(s[1..])
    ensures r.Some? && s[0] != '-' ==> r.value >= 0
    ensures r.Some? && r.value < 0 ==> s[0] == '-'
    ensures IsDigitGroup(s, 10) ==> r == Some(GroupValue(s, 10))
  {
    if |s| > 0 && (s[0] == '+' || s[0] == '-') then
      match ParseUnsigned(s[1..])
      case None => None
      case Some(magnitude) => Some(if s[0] == '-' then -(magnitude as int) else magnitude)
    else
      var r := ParseUnsigned(s);
      assert r.Some? ==> IsWord(s[1..]) by {
        if r.Some? {
          assert forall i :: 1 <= i < |s| ==> s[1..][i - 1] == s[i];
        }
      }
      assert IsDigitGroup(s, 10) ==> |s| > 0 && s[0] != '+' && s[0] != '-';
      r
  }

  lemma {:induction false} GroupValueOfDigits(n: nat)
    ensures InBase(NatToString(n), 10)
    ensures GroupValue(NatToString(n), 10) == n
    decreases n
  {
    if n >= 10 {
      var s := NatToString(n);
      assert s[..|s| - 1] == NatToString(n / 10);
      GroupValueOfDigits(n / 10);
    }
  }

  /** `int(str(n)) == n`: the parser reads back every number the firmware
      (or a browser) writes in decimal. */
  lemma ParseIntRoundTrip(n: int)
    ensures ParseInt(IntToString(n)) == Some(n)
  {
    if n < 0 {
      ParseNegative(-n);
    } else {
      GroupValueOfDigits(n);
    }
  }

  lemma ParseNegative(n: nat)
    ensures ParseInt("-" + NatToString(n)) == Some(-(n as int))
  {
    var digits := NatToString(n);
    var s := "-" + digits;
    GroupValueOfDigits(n);
    assert IsDigitGroup(digits, 10);
    Negated(digits, n);
  }

  /** A minus sign negates what the unsigned numeral after it reads. */
  lemma Negated(t: string, v: nat)
    requires ParseUnsigned(t) == Some(v)
    ensures ParseInt("-" + t) == Some(-(v as int))
  {
    var s := "-" + t;
    assert s[0] == '-' && s[1..] == t;
  }

  /** A base prefix in either case switches the reading of the digits
      after it, with or without a minus sign in front. */
  lemma ParseIntPrefixed(letter: char, base: nat, t: string)
    requires (letter, base) in {('x', 16), ('X', 16), ('o', 8), ('O', 8), ('b', 2), ('B', 2)}
    requires IsDigitGroup(t, base)
    ensures ParseInt(['0', letter] + t) == Some(GroupValue(t, base))
    ensures ParseInt(['-', '0', letter] + t) == Some(-(GroupValue(t, base) as int))
  {
    var u := ['0', letter] + t;
    PrefixedUnsigned(letter, base, t);
    Unsigned(u, GroupValue(t, base));
    Negated(u, GroupValue(t, base));
    assert ['-', '0', letter] + t == "-" + u;
  }

  /** The unsigned reading of a prefixed numeral is its digit run's value. */
  lemma PrefixedUnsigned(letter: char, base: nat, t: string)
    requires (letter, base) in {('x', 16), ('X', 16), ('o', 8), ('O', 8), ('b', 2), ('B', 2)}
    requires IsDigitGroup(t, base)
    ensures ParseUnsigned(['0', letter] + t) == Some(GroupValue(t, base))
  {
    var u := ['0', letter] + t;
    assert u[0] == '0' && u[1] == letter && u[2..] == t;
    assert !IsDigitGroup(u, 10) by { assert DigitWeight(u[1]) >= 10; }
    assert BasePrefix(u) == (base, 2);
  }

  /** Text without a sign is read as an unsigned numeral. */
  lemma Unsigned(u: string, v: nat)
    requires |u| > 0 && u[0] != '+' && u[0] != '-'
    requires ParseUnsigned(u) == Some(v)
    ensures ParseInt(u) == Some(v)
  {
  }

  /** Text that is not a signed numeral is refused: in particular the empty
      value of `?h=`, a lone sign, a letter beyond the base and a prefix
      with no digits after it. */
  lemma ParseIntRejects()
    ensures ParseInt("") == None
    ensures ParseInt("-") == None
    ensures ParseInt("+-1") == None
    ensures ParseInt("7a") == None
    ensures ParseInt("1 ") == None
    ensures ParseInt("0x") == None
    ensures ParseInt("0b2") == None
  {
    assert DigitWeight('a') == 10 && DigitWeight(' ') == 36 && DigitWeight('-') == 36;
    assert DigitWeight('2') == 2 && DigitWeight('x') == 33;
    assert "7a"[1] == 'a' && "1 "[1] == ' ' && "+-1"[1..][0] == '-';
    assert BasePrefix("-1") == (10, 0) && BasePrefix("7a") == (10, 0) && BasePrefix("1 ") == (10, 0);
    assert BasePrefix("0x") == (16, 2) && "0x"[2..] == "";
    assert BasePrefix("0b2") == (2, 2) && "0b2"[2..] == "2";
  }

  /** Leading zeros, a plus sign, underscores anywhere among the digits and
      base prefixes are all accepted; the underscores carry no value. */
  lemma ParseIntAccepts()
    ensures ParseInt("07") == Some(7)
    ensures ParseInt("+5") == Some(5)
    ensures ParseInt("1_0") == Some(10)
    ensures ParseInt("-3") == Some(-3)
    ensures ParseInt("_7") == Some(7)
    ensures ParseInt("7_") == Some(7)
    ensures ParseInt("1__0") == Some(10)
    ensures ParseInt("_") == Some(0)
    ensures ParseInt("0x1F") == Some(31)
    ensures ParseInt("-0o17") == Some(-15)
    ensures ParseInt("0b1_0") == Some(2)
  {
    DecimalExamples();
    UnderscoreExamples();
    HexExample();
    OctalExample();
    BinaryExample();
  }

  lemma DecimalExamples()
    ensures ParseInt("07") == Some(7)
    ensures ParseInt("+5") == Some(5)
    ensures ParseInt("1_0") == Some(10)
    ensures ParseInt("-3") == Some(-3)
  {
    assert "07"[..1] == "0" && "0"[..0] == "";
    assert GroupValue("07", 10) == 7;
    assert "1_0"[..2] == "1_" && "1_"[..1] == "1" && "1"[..0] == "";
    assert GroupValue("1_0", 10) == 10;
    SignedExamples();
  }

  lemma SignedExamples()
    ensures ParseInt("+5") == Some(5)
    ensures ParseInt("-3") == Some(-3)
  {
    assert "+5"[1..] == "5" && "5"[..0] == "";
    assert "-3"[1..] == "3" && "3"[..0] == "";
  }

  lemma UnderscoreExamples()
    ensures ParseInt("_7") == Some(7)
    ensures ParseInt("7_") == Some(7)
    ensures ParseInt("1__0") == Some(10)
    ensures ParseInt("_") == Some(0)
  {
    assert "_7"[..1] == "_";
    assert "_"[..0] == "";
    assert "7_"[..1] == "7";
    assert "7"[..0] == "";
    assert "1__0"[..3] == "1__";
    assert "1__"[..2] == "1_";
    assert "1_"[..1] == "1";
    assert "1"[..0] == "";
  }

  lemma HexExample()
    ensures ParseInt("0x1F") == Some(31)
  {
    var t := "1F";
    assert "0x1F" == ['0', 'x'] + t;
    assert DigitWeight('F') == 15 && DigitWeight('1') == 1;
    assert t[..1] == "1" && t[..1][..0] == "";
    assert GroupValue(t[..1], 16) == 1;
    ParseIntPrefixed('x', 16, t);
  }

  lemma OctalExample()
    ensures ParseInt("-0o17") == Some(-15)
  {
    var t := "17";
    assert "-0o17" == ['-', '0', 'o'] + t;
    assert DigitWeight('7') == 7 && DigitWeight('1') == 1;
    assert t[..1] == "1" && t[..1][..0] == "";
    assert GroupValue(t[..1], 8) == 1;
    ParseIntPrefixed('o', 8, t);
  }

  lemma BinaryExample()
    ensures ParseInt("0b1_0") == Some(2)
  {
    var t := "1_0";
    assert "0b1_0" == ['0', 'b'] + t;
    assert DigitWeight('0') == 0 && DigitWeight('1') == 1;
    assert t[..2] == "1_" && t[..2][..1] == "1" && t[..2][..1][..0] == "";
    assert GroupValue(t[..2][..1], 2) == 1;
    assert GroupValue(t[..2], 2) == 1;
    assert GroupValue(t, 2) == 2;
    ParseIntPrefixed('b', 2, t);
  }

  /** An underscore in front of a digit run changes nothing. */
  lemma {:induction false} GroupValueLeadingUnderscore(s: string, base: nat)
    requires InBase(s, base)
    ensures InBase("_" + s, base)
    ensures GroupValue("_" + s, base) == GroupValue(s, base)
    decreases |s|
  {
    var t := "_" + s;
    assert forall i :: 1 <= i < |t| ==> t[i] == s[i - 1];
    if |s| > 0 {
      assert t[..|t| - 1] == "_" + s[..|s| - 1];
      GroupValueLeadingUnderscore(s[..|s| - 1], base);
    } else {
      assert t[..0] == "";
    }
  }

  /** So a value written as `_` followed by a number's digits reads as that
      number: the parse is not `int(str(n))` alone. */
  lemma ParseIntLeadingUnderscore(n: nat)
    ensures ParseInt("_" + IntToString(n)) == Some(n)
  {
    GroupValueOfDigits(n);
    GroupValueLeadingUnderscore(NatToString(n), 10);
    assert ("_" + IntToString(n))[0] == '_';
  }

  function UpperChar(ch: char): char {
    if 'a' <= ch <= 'z' then ((ch as int) - ('a' as int) + ('A' as int)) as char else ch
  }

  /** `str.upper()` over ASCII text. */
  function Upper(s: string): (r: string)
    ensures |r| == |s|
    ensures forall i :: 0 <= i < |s| ==> r[i] == UpperChar(s[i])
  {
    seq(|s|, i requires 0 <= i < |s| => UpperChar(s[i]))
  }

  /** Upper-casing leaves no lower-case ASCII letter, so doing it twice is
      doing it once. */
  lemma UpperIdempotent(s: string)
    ensures forall i :: 0 <= i < |s| ==> !('a' <= Upper(s)[i] <= 'z')
    ensures Upper(Upper(s)) == Upper(s)
  {
  }
}
