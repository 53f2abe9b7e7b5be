/** Strings the way the Python source handles them: character classes, `strip`,
    `split`, `join`, and decimal text. */
module Text {

  predicate IsDigit(c: char) {
    '0' <= c <= '9'
  }

  predicate IsLetter(c: char) {
    'a' <= c <= 'z' || 'A' <= c <= 'Z'
  }

  predicate IsAlnum(c: char) {
    IsLetter(c) || IsDigit(c)
  }

  /** Python's `str.isspace`, which is also what `\s` matches. */
  predicate IsSpace(c: char) {
    || '\U{0009}' <= c <= '\U{000D}'
    || '\U{001C}' <= c <= '\U{0020}'
    || c == '\U{0085}' || c == '\U{00A0}' || c == '\U{1680}'
    || '\U{2000}' <= c <= '\U{200A}'
    || c == '\U{2028}' || c == '\U{2029}' || c == '\U{202F}' || c == '\U{205F}' || c == '\U{3000}'
  }

  predicate All(s: string, p: char -> bool) {
    forall i :: 0 <= i < |s| ==> p(s[i])
  }

  datatype Parts = Parts(head: string, tail: string)

  lemma CutStep(s: string, head: string, tail: string, p: char -> bool)
    requires s != "" && p(s[0]) && s[1..] == head + tail && All(head, p)
    ensures s == ([s[0]] + head) + tail && All([s[0]] + head, p)
  {
    assert s == [s[0]] + s[1..];
  }

  /** The longest prefix whose characters all satisfy `p`, and what follows it. */
  function Cut(s: string, p: char -> bool): (r: Parts)
    ensures s == r.head + r.tail && All(r.head, p)
    ensures r.tail == "" || !p(r.tail[0])
  {
    if s != "" && p(s[0]) then
      var r := Cut(s[1..], p);
      CutStep(s, r.head, r.tail, p);
      Parts([s[0]] + r.head, r.tail)
    else Parts("", s)
  }

  lemma {:induction false} CutAt(a: string, b: string, p: char -> bool)
    requires All(a, p) && (b == "" || !p(b[0]))
    ensures Cut(a + b, p) == Parts(a, b)
  {
    if a == "" {
      assert a + b == b;
    } else {
      assert (a + b)[1..] == a[1..] + b;
      CutAt(a[1..], b, p);
    }
  }

  // ---- Decimal digits beyond ASCII ----

  /** The zeros of the decimal digit runs outside ASCII in Unicode 15, by plane. */
  function OtherZeros(plane: int): seq<char> {
    if plane == 0 then
      ['\U{0660}', '\U{06F0}', '\U{07C0}', '\U{0966}', '\U{09E6}', '\U{0A66}', '\U{0AE6}', '\U{0B66}',
       '\U{0BE6}', '\U{0C66}', '\U{0CE6}', '\U{0D66}', '\U{0DE6}', '\U{0E50}', '\U{0ED0}', '\U{0F20}',
       '\U{1040}', '\U{1090}', '\U{17E0}', '\U{1810}', '\U{1946}', '\U{19D0}', '\U{1A80}', '\U{1A90}',
       '\U{1B50}', '\U{1BB0}', '\U{1C40}', '\U{1C50}', '\U{A620}', '\U{A8D0}', '\U{A900}', '\U{A9D0}',
       '\U{A9F0}', '\U{AA50}', '\U{ABF0}', '\U{FF10}']
    else if plane == 1 then
      ['\U{104A0}', '\U{10D30}', '\U{11066}', '\U{110F0}', '\U{11136}', '\U{111D0}', '\U{112F0}', '\U{11450}',
       '\U{114D0}', '\U{11650}', '\U{116C0}', '\U{11730}', '\U{118E0}', '\U{11950}', '\U{11C50}', '\U{11D50}',
       '\U{11DA0}', '\U{11F50}', '\U{16A60}', '\U{16AC0}', '\U{16B50}', '\U{1D7CE}', '\U{1D7D8}', '\U{1D7E2}',
       '\U{1D7EC}', '\U{1D7F6}', '\U{1E140}', '\U{1E2F0}', '\U{1E4F0}', '\U{1E950}', '\U{1FBF0}']
    else []
  }

  predicate InRun(c: char, zero: char) {
    0 <= c as int - zero as int < 10
  }

  /** The digit value of `c` in the first run that holds it, 10 if none does. */
  function RunValue(c: char, zeros: seq<char>): (value: nat)
    ensures value <= 10
  {
    if zeros == [] then 10
    else if InRun(c, zeros[0]) then c as int - zeros[0] as int
    else RunValue(c, zeros[1..])
  }

  predicate IsOtherDigit(c: char) {
    c >= '\U{0080}' && RunValue(c, OtherZeros(c as int / 0x1_0000)) < 10
  }

  function OtherValue(c: char): (value: nat)
    requires IsOtherDigit(c)
    ensures value < 10
  {
    RunValue(c, OtherZeros(c as int / 0x1_0000))
  }

  /** What `\d` matches, and `int` reads, in a Python string. */
  predicate IsDecimal(c: char) {
    IsDigit(c) || IsOtherDigit(c)
  }

  predicate Digits(s: string) {
    All(s, IsDecimal)
  }

  /** In ASCII only the ten digits are decimal; the others are no letters or marks of it. */
  lemma AsciiDecimal(c: char)
    ensures c < '\U{0080}' ==> (IsDecimal(c) <==> IsDigit(c))
    ensures IsDecimal(c) ==> IsDigit(c) || (c >= '\U{0080}' && !IsAlnum(c))
  {
  }

  lemma {:induction false} RunHolds(c: char, zeros: seq<char>) returns (i: nat)
    requires RunValue(c, zeros) < 10
    ensures i < |zeros| && InRun(c, zeros[i])
  {
    if InRun(c, zeros[0]) {
      i := 0;
    } else {
      var k := RunHolds(c, zeros[1..]);
      i := k + 1;
    }
  }

  lemma DecimalIsNoSpace(c: char)
    requires IsDecimal(c)
    ensures !IsSpace(c)
  {
    if !IsDigit(c) {
      var plane := c as int / 0x1_0000;
      var i := RunHolds(c, OtherZeros(plane));
      if plane == 0 {
        RunHasNoSpace(i, c);
      }
    }
  }

  lemma RunHasNoSpace(i: nat, c: char)
    requires i < |OtherZeros(0)| && InRun(c, OtherZeros(0)[i])
    ensures !IsSpace(c)
  {
  }

  function TrimLeft(s: string): (r: string)
    ensures |r| <= |s|
  {
    if s != "" && IsSpace(s[0]) then TrimLeft(s[1..]) else s
  }

  function TrimRight(s: string): (r: string)
    ensures |r| <= |s|
  {
    if s != "" && IsSpace(s[|s| - 1]) then TrimRight(s[..|s| - 1]) else s
  }

  function Strip(s: string): string {
    TrimRight(TrimLeft(s))
  }

  function Split(s: string, sep: string): (parts: seq<string>)
    requires sep != ""
    ensures |parts| >= 1
  {
    if s == "" then [""]
    else if sep <= s then [""] + Split(s[|sep|..], sep)
    else
      var rest := Split(s[1..], sep);
      [[s[0]] + rest[0]] + rest[1..]
  }

  function Join(parts: seq<string>, sep: string): string {
    if parts == [] then ""
    else if |parts| == 1 then parts[0]
    else parts[0] + (sep + Join(parts[1..], sep))
  }

  lemma {:induction false} SplitLast(piece: string, sep: string)
    requires sep != "" && sep[0] !in piece
    ensures Split(piece, sep) == [piece]
  {
    if piece != "" {
      SplitLast(piece[1..], sep);
      assert piece[0] != sep[0] && !(sep <= piece);
      assert [piece[0]] + piece[1..] == piece;
    }
  }

  lemma {:induction false} SplitPiece(piece: string, rest: string, sep: string)
    requires sep != "" && sep[0] !in piece
    ensures Split(piece + (sep + rest), sep) == [piece] + Split(rest, sep)
  {
    if piece == "" {
      assert piece + (sep + rest) == sep + rest;
      assert (sep + rest)[|sep|..] == rest;
    } else {
      var s := piece + (sep + rest);
      SplitPiece(piece[1..], rest, sep);
      assert s[0] == piece[0] != sep[0];
      assert s[1..] == piece[1..] + (sep + rest);
      assert [piece[0]] + piece[1..] == piece;
    }
  }

  /** Splitting undoes joining when no piece holds the separator's first character. */
  lemma {:induction false} SplitJoin(parts: seq<string>, sep: string)
    requires sep != "" && parts != []
    requires forall i :: 0 <= i < |parts| ==> sep[0] !in parts[i]
    ensures Split(Join(parts, sep), sep) == parts
  {
    if |parts| == 1 {
      SplitLast(parts[0], sep);
    } else {
      SplitPiece(parts[0], Join(parts[1..], sep), sep);
      SplitJoin(parts[1..], sep);
      assert parts == [parts[0]] + parts[1..];
    }
  }

  lemma {:induction false} JoinAppend(a: seq<string>, b: seq<string>, sep: string)
    requires a != [] && b != []
    ensures Join(a + b, sep) == Join(a, sep) + (sep + Join(b, sep))
  {
    if |a| == 1 {
      assert (a + b)[1..] == b;
    } else {
      JoinAppend(a[1..], b, sep);
      assert (a + b)[1..] == a[1..] + b;
      Regroup3(a[0], sep, Join(a[1..], sep), sep + Join(b, sep));
    }
  }

  lemma SplitAt<T>(s: seq<T>, i: nat)
    requires i < |s|
    ensures s == s[..i] + ([s[i]] + s[i + 1..])
  {
  }

  lemma Associate<T>(a: seq<T>, b: seq<T>, c: seq<T>)
    ensures (a + b) + c == a + (b + c)
  {
  }

  lemma Regroup3(a: string, b: string, c: string, d: string)
    ensures a + (b + (c + d)) == (a + (b + c)) + d
  {
  }

  predicate SolidEnds(s: string) {
    s == "" || (!IsSpace(s[0]) && !IsSpace(s[|s| - 1]))
  }

  lemma StripNothing(s: string)
    requires SolidEnds(s)
    ensures Strip(s) == s
  {
  }

  lemma {:induction false} TrimRightAppend(s: string, blanks: string)
    requires s != "" && !IsSpace(s[|s| - 1]) && All(blanks, IsSpace)
    ensures TrimRight(s + blanks) == s
  {
    if blanks == "" {
      assert s + blanks == s;
    } else {
      var t := s + blanks;
      assert t[|t| - 1] == blanks[|blanks| - 1];
      assert t[..|t| - 1] == s + blanks[..|blanks| - 1];
      TrimRightAppend(s, blanks[..|blanks| - 1]);
    }
  }

  /** What `strip` returns: a middle part with no blank at either end. */
  lemma {:induction false} TrimRightParts(s: string) returns (blanks: string)
    ensures s == TrimRight(s) + blanks && All(blanks, IsSpace)
    ensures TrimRight(s) == "" || !IsSpace(TrimRight(s)[|TrimRight(s)| - 1])
    ensures TrimRight(s) <= s
  {
    if s != "" && IsSpace(s[|s| - 1]) {
      var shorter := TrimRightParts(s[..|s| - 1]);
      blanks := shorter + [s[|s| - 1]];
      assert s == s[..|s| - 1] + [s[|s| - 1]];
    } else {
      blanks := "";
    }
  }

  predicate Contains(s: string, part: string) {
    part <= s || (s != "" && Contains(s[1..], part))
  }

  function LowerChar(c: char): char {
    if 'A' <= c <= 'Z' then c - 'A' + 'a' else c
  }

  function Lower(s: string): string {
    seq(|s|, i requires 0 <= i < |s| => LowerChar(s[i]))
  }

  function DigitOf(d: nat): char
    requires d < 10
  {
    '0' + d as char
  }

  function ValueOf(c: char): (value: nat)
    requires IsDecimal(c)
    ensures value < 10
  {
    if IsDigit(c) then (c - '0') as nat else OtherValue(c)
  }

  /** `int(s)` for a string of decimal digits. */
  function Number(s: string): nat
    requires Digits(s)
  {
    if s == "" then 0 else Number(s[..|s| - 1]) * 10 + ValueOf(s[|s| - 1])
  }

  /** `str(n)`. */
  function Decimal(n: nat): string {
    if n < 10 then [DigitOf(n)] else Decimal(n / 10) + [DigitOf(n % 10)]
  }

  function SignedDecimal(n: int): string {
    if n < 0 then "-" + Decimal(-n) else Decimal(n)
  }

  function Two(n: nat): (s: string)
    requires n < 100
    ensures |s| == 2 && Digits(s) && Number(s) == n
  {
    var s := [DigitOf(n / 10), DigitOf(n % 10)];
    assert s[..1] == [s[0]] && s[..1][..0] == "";
    assert Number(s[..1]) == n / 10;
    s
  }

  function Four(n: nat): (s: string)
    requires n < 10000
    ensures |s| == 4 && Digits(s) && Number(s) == n
  {
    var tens := n / 10;
    var hundreds := tens / 10;
    var s := [DigitOf(hundreds / 10), DigitOf(hundreds % 10), DigitOf(tens % 10), DigitOf(n % 10)];
    NumberOfFour(s);
    s
  }

  lemma NumberOfTwo(s: string)
    requires |s| == 2 && Digits(s)
    ensures Number(s) == ValueOf(s[0]) * 10 + ValueOf(s[1])
  {
    assert Number(s[..1]) == Number(s[..1][..0]) * 10 + ValueOf(s[0]);
  }

  lemma NumberOfFour(s: string)
    requires |s| == 4 && Digits(s)
    ensures Number(s) == ValueOf(s[0]) * 1000 + ValueOf(s[1]) * 100 + ValueOf(s[2]) * 10 + ValueOf(s[3])
  {
    NumberOfTwo(s[..2]);
    assert s[..3][..2] == s[..2];
    assert Number(s[..3]) == Number(s[..2]) * 10 + ValueOf(s[2]);
  }
}
