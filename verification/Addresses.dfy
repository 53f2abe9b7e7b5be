/** The address patterns of validation.py, `\d` and `\w` as Unicode has them. */
module Addresses {
  import opened Text
  import opened Formatting

  const MAX_ADDRESS_LENGTH := 253

  predicate IsHexDigit(c: char) {
    IsDigit(c) || 'a' <= c <= 'f' || 'A' <= c <= 'F'
  }

  // ---- IPv4 ----

  /** `25[0-5]|2[0-4]\d|1\d\d|[1-9]?\d`, where `\d` is any decimal digit. */
  predicate IsOctet(s: string) {
    || (|s| == 3 && s[0] == '2' && s[1] == '5' && '0' <= s[2] <= '5')
    || (|s| == 3 && s[0] == '2' && '0' <= s[1] <= '4' && IsDecimal(s[2]))
    || (|s| == 3 && s[0] == '1' && IsDecimal(s[1]) && IsDecimal(s[2]))
    || (|s| == 2 && '1' <= s[0] <= '9' && IsDecimal(s[1]))
    || (|s| == 1 && IsDecimal(s[0]))
  }

  predicate AreOctets(parts: seq<string>) {
    forall i :: 0 <= i < |parts| ==> IsOctet(parts[i])
  }

  predicate IsIpv4(s: string) {
    var parts := Split(s, ".");
    |parts| == 4 && AreOctets(parts)
  }

  /** `_IPV4.match`: the pattern's `$` also matches before one trailing newline. */
  predicate MatchesIpv4(s: string) {
    IsIpv4(s) || (s != "" && s[|s| - 1] == '\n' && IsIpv4(s[..|s| - 1]))
  }

  predicate IsAsciiChar(c: char) {
    c < '\U{0080}'
  }

  predicate IsAscii(s: string) {
    All(s, IsAsciiChar)
  }

  /** Over ASCII, an octet is the canonical decimal text of a number up to 255: the
      dec-octet rule of section 3.2.2 of RFC 3986. */
  lemma OctetIsDecimal(s: string)
    ensures IsOctet(s) && IsAscii(s) <==> exists n: nat :: n <= 255 && s == Decimal(n)
  {
    if IsOctet(s) && IsAscii(s) {
      OctetReads(s);
    }
    if n: nat :| n <= 255 && s == Decimal(n) {
      DecimalDigits(n);
      DecimalIsOctet(s, n);
    }
  }

  lemma DecimalDigits(n: nat)
    requires n < 1000
    ensures Decimal(n) ==
            if n < 10 then [DigitOf(n)]
            else if n < 100 then [DigitOf(n / 10), DigitOf(n % 10)]
            else [DigitOf(n / 100), DigitOf(n / 10 % 10), DigitOf(n % 10)]
  {
    if n >= 100 {
      assert Decimal(n / 10) == Decimal(n / 10 / 10) + [DigitOf(n / 10 % 10)];
    }
  }

  lemma DecimalIsOctet(s: string, n: nat)
    requires n <= 255
    requires s == if n < 10 then [DigitOf(n)]
                  else if n < 100 then [DigitOf(n / 10), DigitOf(n % 10)]
                  else [DigitOf(n / 100), DigitOf(n / 10 % 10), DigitOf(n % 10)]
    ensures IsOctet(s) && IsAscii(s)
  {
    hide IsOtherDigit;
  }

  lemma DigitReads(c: char)
    requires IsDecimal(c) && IsAsciiChar(c)
    ensures IsDigit(c) && ValueOf(c) < 10 && DigitOf(ValueOf(c)) == c
  {
    AsciiDecimal(c);
    hide IsOtherDigit;
  }

  lemma OctetReads(s: string)
    requires IsOctet(s) && IsAscii(s)
    ensures exists n: nat :: n <= 255 && s == Decimal(n)
  {
    hide IsOtherDigit, ValueOf;
    DigitReads(s[0]);
    if |s| == 1 {
      DecimalDigits(ValueOf(s[0]));
      assert s == Decimal(ValueOf(s[0]));
    } else if |s| == 2 {
      DigitReads(s[1]);
      TwoDigits(s);
    } else {
      DigitReads(s[1]);
      DigitReads(s[2]);
      ThreeDigits(s);
    }
  }

  lemma TwoDigits(s: string)
    requires |s| == 2 && IsDigit(s[0]) && IsDigit(s[1]) && s[0] != '0'
    ensures exists n: nat :: n <= 255 && s == Decimal(n)
  {
    DigitReads(s[0]);
    DigitReads(s[1]);
    var a, b := ValueOf(s[0]), ValueOf(s[1]);
    var n := a * 10 + b;
    DecimalDigits(n);
    hide Decimal, IsOtherDigit, OtherValue;
    assert n / 10 == a && n % 10 == b;
    assert s == Decimal(n);
  }

  lemma ThreeDigits(s: string)
    requires |s| == 3 && IsOctet(s) && IsDigit(s[0]) && IsDigit(s[1]) && IsDigit(s[2])
    ensures exists n: nat :: n <= 255 && s == Decimal(n)
  {
    DigitReads(s[0]);
    DigitReads(s[1]);
    DigitReads(s[2]);
    var a, b, c := ValueOf(s[0]), ValueOf(s[1]), ValueOf(s[2]);
    var n := a * 100 + b * 10 + c;
    assert n <= 255 && a > 0;
    hide IsOctet, IsOtherDigit, OtherValue;
    DecimalDigits(n);
    hide Decimal;
    assert n / 100 == a && n / 10 == a * 10 + b && n % 10 == c;
    assert s == Decimal(n);
  }

  lemma OctetShape(s: string)
    requires IsOctet(s)
    ensures s != "" && Digits(s) && |s| <= 3
    ensures forall c :: c in s ==> IsDecimal(c)
  {
    hide IsOtherDigit;
  }

  lemma NumberOfThree(s: string)
    requires |s| == 3 && Digits(s)
    ensures Number(s) == ValueOf(s[0]) * 100 + ValueOf(s[1]) * 10 + ValueOf(s[2])
  {
    hide IsDecimal, ValueOf;
    NumberOfTwo(s[..2]);
  }

  lemma NumberOfOne(s: string)
    requires |s| == 1 && Digits(s)
    ensures Number(s) == ValueOf(s[0])
  {
    hide IsDecimal, ValueOf;
    assert s[..0] == "" && Number(s[..0]) == 0;
  }

  /** Every octet, whatever its digits, is read as a number up to 255. */
  lemma OctetIsByte(s: string)
    requires IsOctet(s)
    ensures Digits(s) && Number(s) <= 255
  {
    OctetShape(s);
    hide IsOtherDigit, OtherValue, Number;
    if |s| == 1 {
      NumberOfOne(s);
    } else if |s| == 2 {
      NumberOfTwo(s);
    } else {
      NumberOfThree(s);
    }
  }

  /** Beyond ASCII the octet rule fails: this digit is an octet and no canonical decimal. */
  lemma ForeignOctet()
    ensures IsOctet("\U{0664}") && IsOctet("\U{0665}")
    ensures forall n: nat :: n <= 255 ==> "\U{0664}" != Decimal(n) && "\U{0665}" != Decimal(n)
  {
    ForeignDigit(4);
    ForeignDigit(5);
    OctetIsDecimal("\U{0664}");
    OctetIsDecimal("\U{0665}");
    hide IsOtherDigit, Decimal;
    assert !IsAsciiChar("\U{0664}"[0]) && !IsAsciiChar("\U{0665}"[0]);
  }

  /** The digits of the first run outside ASCII. */
  lemma ForeignDigit(v: nat)
    requires v < 10
    ensures var c := (0x0660 + v) as char;
            IsDecimal(c) && !IsDigit(c) && ValueOf(c) == v && !IsAlnum(c) && !IsAsciiChar(c)
  {
    var c := (0x0660 + v) as char;
    assert OtherZeros(0)[0] == '\U{0660}';
    assert RunValue(c, OtherZeros(0)) == v;
  }

  function Quad(a: nat, b: nat, c: nat, d: nat): seq<string> {
    [Decimal(a), Decimal(b), Decimal(c), Decimal(d)]
  }

  predicate AreBytes(a: nat, b: nat, c: nat, d: nat) {
    a <= 255 && b <= 255 && c <= 255 && d <= 255
  }

  lemma {:induction false} PiecesSatisfy(s: string, sep: string, p: char -> bool)
    requires sep != "" && All(s, p)
    ensures forall i :: 0 <= i < |Split(s, sep)| ==> All(Split(s, sep)[i], p)
  {
    if s != "" {
      if sep <= s {
        PiecesSatisfy(s[|sep|..], sep, p);
      } else {
        PiecesSatisfy(s[1..], sep, p);
      }
    }
  }

  lemma {:induction false} JoinSatisfies(parts: seq<string>, sep: string, p: char -> bool)
    requires All(sep, p) && forall i :: 0 <= i < |parts| ==> All(parts[i], p)
    ensures All(Join(parts, sep), p)
  {
    if |parts| > 1 {
      JoinSatisfies(parts[1..], sep, p);
    }
  }

  /** Over ASCII, the IPv4address rule of section 3.2.2 of RFC 3986: four canonical
      decimals joined by dots. */
  lemma Ipv4IsQuad(s: string)
    ensures IsIpv4(s) && IsAscii(s) <==>
            exists a: nat, b: nat, c: nat, d: nat :: AreBytes(a, b, c, d) && s == Join(Quad(a, b, c, d), ".")
  {
    hide IsIpv4, Quad, Join, AreBytes, IsAscii;
    if IsIpv4(s) && IsAscii(s) {
      Ipv4Reads(s);
    }
    if a: nat, b: nat, c: nat, d: nat :| AreBytes(a, b, c, d) && s == Join(Quad(a, b, c, d), ".") {
      QuadIsIpv4(a, b, c, d);
    }
  }

  lemma Ipv4Reads(s: string)
    requires IsIpv4(s) && IsAscii(s)
    ensures exists a: nat, b: nat, c: nat, d: nat :: AreBytes(a, b, c, d) && s == Join(Quad(a, b, c, d), ".")
  {
    var parts := Split(s, ".");
    JoinSplit(s, ".");
    PiecesSatisfy(s, ".", IsAsciiChar);
    OctetReads(parts[0]);
    OctetReads(parts[1]);
    OctetReads(parts[2]);
    OctetReads(parts[3]);
    hide Split, Join, Decimal, IsOctet;
    var a: nat :| a <= 255 && parts[0] == Decimal(a);
    var b: nat :| b <= 255 && parts[1] == Decimal(b);
    var c: nat :| c <= 255 && parts[2] == Decimal(c);
    var d: nat :| d <= 255 && parts[3] == Decimal(d);
    assert parts == Quad(a, b, c, d);
    assert AreBytes(a, b, c, d);
  }

  lemma QuadIsIpv4(a: nat, b: nat, c: nat, d: nat)
    requires AreBytes(a, b, c, d)
    ensures IsIpv4(Join(Quad(a, b, c, d), ".")) && IsAscii(Join(Quad(a, b, c, d), "."))
  {
    OctetIsDecimal(Decimal(a));
    OctetIsDecimal(Decimal(b));
    OctetIsDecimal(Decimal(c));
    OctetIsDecimal(Decimal(d));
    hide Decimal, IsOctet, Split, Join;
    assert IsOctet(Decimal(a)) && IsOctet(Decimal(b)) && IsOctet(Decimal(c)) && IsOctet(Decimal(d));
    var parts := Quad(a, b, c, d);
    forall i | 0 <= i < |parts| ensures IsOctet(parts[i]) && IsAscii(parts[i]) {
      assert i == 0 || i == 1 || i == 2 || i == 3;
    }
    OctetsSplit(parts);
    JoinSatisfies(parts, ".", IsAsciiChar);
  }

  lemma OctetsSplit(parts: seq<string>)
    requires parts != [] && AreOctets(parts)
    ensures Split(Join(parts, "."), ".") == parts
  {
    hide IsDecimal, IsOctet;
    AsciiDecimal('.');
    forall i | 0 <= i < |parts| ensures '.' !in parts[i] {
      OctetShape(parts[i]);
    }
    SplitJoin(parts, ".");
  }

  lemma {:induction false} JoinSplit(s: string, sep: string)
    requires sep != ""
    ensures Join(Split(s, sep), sep) == s
  {
    if s != "" {
      if sep <= s {
        JoinSplit(s[|sep|..], sep);
        assert s == sep + s[|sep|..];
      } else {
        JoinSplit(s[1..], sep);
        var rest := Split(s[1..], sep);
        assert s == [s[0]] + s[1..];
      }
    }
  }

  // ---- IPv6 and hostnames ----

  /** What `\w` takes beyond ASCII: whatever the interpreter's table of letters says. */
  const FURTHER_LETTERS: set<char>

  predicate IsZoneChar(c: char) {
    IsAlnum(c) || c in "_.-" || (!IsAsciiChar(c) && c in FURTHER_LETTERS)
  }

  predicate IsGroup(s: string) {
    |s| <= 4 && All(s, IsHexDigit)
  }

  predicate AreGroups(parts: seq<string>) {
    forall i :: 0 <= i < |parts| ==> IsGroup(parts[i])
  }

  /** Three to eight groups of up to four hex digits: the source's loose pattern. */
  predicate IsGroups(s: string) {
    var parts := Split(s, ":");
    3 <= |parts| <= 8 && AreGroups(parts)
  }

  predicate IsIpv6(s: string) {
    IsGroups(s) || exists i :: 0 <= i < |s| && IsZoned(s, i)
  }

  /** A zone id starts at this percent sign. */
  predicate IsZoned(s: string, i: nat) {
    i + 1 < |s| && s[i] == '%' && IsGroups(s[..i]) && All(s[i + 1..], IsZoneChar)
  }

  predicate IsLabelChar(c: char) {
    IsAlnum(c) || c == '-'
  }

  predicate IsLabel(s: string) {
    1 <= |s| <= 63 && All(s, IsLabelChar) && IsAlnum(s[0]) && IsAlnum(s[|s| - 1])
  }

  predicate AreLabels(parts: seq<string>) {
    forall i :: 0 <= i < |parts| ==> IsLabel(parts[i])
  }

  predicate IsHostname(s: string) {
    var parts := Split(s, ".");
    AreLabels(parts) && !Digits(parts[|parts| - 1])
  }

  predicate IsLiteral(s: string) {
    IsIpv4(s) || IsIpv6(s)
  }

  /** `validate_ping_address`: the stripped address, or None. Stripped text has no
      trailing newline for the patterns to overlook. */
  function ValidAddress(address: string): Option<string> {
    var s := Strip(address);
    if s != "" && |s| <= MAX_ADDRESS_LENGTH && (IsLiteral(s) || IsHostname(s)) then Some(s) else None
  }

  // ---- No commas ----

  lemma {:induction false} PiecesLack(s: string, sep: char, c: char)
    requires c != sep && forall i :: 0 <= i < |Split(s, [sep])| ==> c !in Split(s, [sep])[i]
    ensures c !in s
  {
    if s != "" {
      var parts := Split(s, [sep]);
      if [sep] <= s {
        assert forall i :: 0 <= i < |parts| - 1 ==> parts[1..][i] == parts[i + 1];
        assert parts[1..] == Split(s[1..], [sep]);
        PiecesLack(s[1..], sep, c);
      } else {
        var rest := Split(s[1..], [sep]);
        assert parts[0] == [s[0]] + rest[0] && parts[1..] == rest[1..];
        assert s[0] in parts[0];
        forall i | 0 <= i < |rest| ensures c !in rest[i] {
          if i == 0 {
            assert forall x :: x in rest[0] ==> x in parts[0];
          } else {
            assert rest[i] == rest[1..][i - 1] == parts[i];
          }
        }
        PiecesLack(s[1..], sep, c);
      }
    }
  }

  lemma Ipv4HasNoComma(s: string)
    requires IsIpv4(s)
    ensures ',' !in s
  {
    var parts := Split(s, ".");
    hide IsDecimal, IsOctet;
    AsciiDecimal(',');
    forall i | 0 <= i < |parts| ensures ',' !in parts[i] {
      OctetShape(parts[i]);
    }
    PiecesLack(s, '.', ',');
  }

  lemma GroupsHaveNoComma(s: string)
    requires IsGroups(s)
    ensures ',' !in s
  {
    var parts := Split(s, ":");
    forall i | 0 <= i < |parts| ensures ',' !in parts[i] {
      assert IsGroup(parts[i]);
    }
    PiecesLack(s, ':', ',');
  }

  lemma HostnameHasNoComma(s: string)
    requires IsHostname(s)
    ensures ',' !in s
  {
    var parts := Split(s, ".");
    forall i | 0 <= i < |parts| ensures ',' !in parts[i] {
      assert IsLabel(parts[i]);
    }
    PiecesLack(s, '.', ',');
  }

  lemma ZonedHasNoComma(s: string, i: nat)
    requires IsZoned(s, i)
    ensures ',' !in s
  {
    GroupsHaveNoComma(s[..i]);
    hide IsGroups;
    forall k | 0 <= k < |s| ensures s[k] != ',' {
      if k < i {
        assert s[k] == s[..i][k];
      } else if k > i {
        assert s[k] == s[i + 1..][k - i - 1];
      }
    }
  }

  lemma Ipv6HasNoComma(s: string)
    requires IsIpv6(s)
    ensures ',' !in s
  {
    hide IsGroups, IsZoneChar;
    if IsGroups(s) {
      GroupsHaveNoComma(s);
    } else {
      var i :| 0 <= i < |s| && IsZoned(s, i);
      ZonedHasNoComma(s, i);
    }
  }

  /** No accepted address or hostname holds a comma. */
  lemma AcceptedHasNoComma(address: string)
    ensures ValidAddress(address).Some? ==> ',' !in ValidAddress(address).value
  {
    hide IsIpv4, IsIpv6, IsHostname, Strip;
    if ValidAddress(address).Some? {
      var s := ValidAddress(address).value;
      if IsIpv4(s) {
        Ipv4HasNoComma(s);
      } else if IsIpv6(s) {
        Ipv6HasNoComma(s);
      } else {
        HostnameHasNoComma(s);
      }
    }
  }
}
