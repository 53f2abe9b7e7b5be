/** Which accepted IPv4 targets share a queue name. */
module QueueTargets {
  import opened Text
  import opened Formatting
  import opened Addresses
  import opened QueueNames

  // ---- Accepted IPv4 targets ----

  datatype Target = Target(address: string, prefix: Option<string>)

  /** `partition("/")` */
  function Partition(t: string): Target {
    if t == "" then Target("", None)
    else if t[0] == '/' then Target("", Some(t[1..]))
    else
      var rest := Partition(t[1..]);
      Target([t[0]] + rest.address, rest.prefix)
  }

  /** `validate_target` on an IPv4 target, given the stripped text it returns. */
  predicate AcceptedIpv4(t: string) {
    var p := Partition(t);
    && t != "" && Strip(t) == t && |t| <= MAX_ADDRESS_LENGTH
    && MatchesIpv4(p.address)
    && (p.prefix.Some? ==> p.prefix.value != "" && Digits(p.prefix.value) && Number(p.prefix.value) <= 32)
  }

  function Suffix(prefix: Option<string>): string {
    if prefix.Some? then "/" + prefix.value else ""
  }

  lemma {:induction false} PartitionParts(t: string)
    ensures t == Partition(t).address + Suffix(Partition(t).prefix)
    ensures '/' !in Partition(t).address
  {
    if t != "" {
      if t[0] == '/' {
        assert t == "" + ("/" + t[1..]);
      } else {
        PartitionParts(t[1..]);
        Associate([t[0]], Partition(t[1..]).address, Suffix(Partition(t[1..]).prefix));
        assert t == [t[0]] + t[1..];
      }
    }
  }

  lemma {:induction false} PartitionOf(address: string, prefix: Option<string>)
    requires '/' !in address
    ensures Partition(address + Suffix(prefix)) == Target(address, prefix)
  {
    var t := address + Suffix(prefix);
    if address == "" {
      assert t == Suffix(prefix);
      if prefix.Some? {
        assert t[1..] == prefix.value;
      }
    } else {
      assert t[1..] == address[1..] + Suffix(prefix);
      PartitionOf(address[1..], prefix);
      assert [address[0]] + address[1..] == address;
    }
  }

  /** Without the newline the pattern overlooks. */
  function Clean(address: string): string {
    if IsIpv4(address) || address == "" then address else address[..|address| - 1]
  }

  /** What the pattern overlooked: nothing, or one newline. */
  lemma CleanIsIpv4(address: string) returns (overlooked: string)
    requires MatchesIpv4(address)
    ensures IsIpv4(Clean(address)) && address == Clean(address) + overlooked
    ensures overlooked == "" || overlooked == "\n"
    ensures overlooked == "" <==> Clean(address) == address
  {
    hide IsIpv4;
    if IsIpv4(address) {
      overlooked := "";
    } else {
      overlooked := "\n";
      assert address == address[..|address| - 1] + [address[|address| - 1]];
    }
  }

  lemma EndsInNewline(a: string, overlooked: string, rest: string)
    requires overlooked == "\n"
    ensures IsSpace((a + overlooked)[|a + overlooked| - 1])
    ensures '\n' in (a + overlooked) + rest
  {
    assert ((a + overlooked) + rest)[|a|] == '\n';
  }

  lemma StrippedEnd(t: string)
    requires Strip(t) == t && t != ""
    ensures !IsSpace(t[|t| - 1])
  {
    var blanks := TrimRightParts(TrimLeft(t));
  }

  lemma {:induction false} TrimLeftFirst(t: string)
    ensures TrimLeft(t) == "" || !IsSpace(TrimLeft(t)[0])
  {
    if t != "" && IsSpace(t[0]) {
      TrimLeftFirst(t[1..]);
    }
  }

  lemma SolidWhenStripped(t: string)
    requires Strip(t) == t && t != ""
    ensures !IsSpace(t[0]) && !IsSpace(t[|t| - 1])
  {
    StrippedEnd(t);
    TrimLeftFirst(t);
    var blanks := TrimRightParts(TrimLeft(t));
    hide IsSpace;
  }

  lemma AcceptedShape(t: string)
    requires AcceptedIpv4(t)
    ensures t != "" && !IsSpace(t[0]) && !IsSpace(t[|t| - 1]) && MatchesIpv4(Partition(t).address)
    ensures t == Partition(t).address + Suffix(Partition(t).prefix) && '/' !in Partition(t).address
  {
    PartitionParts(t);
    SolidWhenStripped(t);
    hide Strip, IsSpace, MatchesIpv4, Partition, Number;
  }

  /** Stripped text without a slash has no newline for the pattern to overlook. */
  lemma HostIsClean(t: string)
    requires AcceptedIpv4(t) && Partition(t).prefix.None?
    ensures IsIpv4(t) && Clean(t) == t && Partition(t).address == t
  {
    hide AcceptedIpv4, IsIpv4, MatchesIpv4, Clean, IsSpace, Partition;
    AcceptedShape(t);
    assert Partition(t).address + "" == Partition(t).address;
    var overlooked := CleanIsIpv4(t);
    if overlooked != "" {
      EndsInNewline(Clean(t), overlooked, "");
      assert false;
    }
  }

  // ---- Plain targets ----

  /** A caller's check: ASCII, and no newline. */
  predicate Plain(t: string) {
    IsAscii(t) && '\n' !in t
  }

  lemma Ipv4Octets(a: string)
    requires IsIpv4(a)
    ensures |Split(a, ".")| == 4 && AreOctets(Split(a, ".")) && Join(Split(a, "."), ".") == a && a != ""
  {
    JoinSplit(a, ".");
    EmptyIsNoIpv4();
  }

  lemma EmptyIsNoIpv4()
    ensures !IsIpv4("")
  {
  }

  lemma AsciiDigitsAreWord(s: string)
    requires s != "" && Digits(s) && IsAscii(s)
    ensures IsWord(s)
  {
    hide IsDecimal;
    forall i | 0 <= i < |s| ensures IsAlnum(s[i]) {
      AsciiDecimal(s[i]);
    }
  }

  lemma AsciiOctetsAreWords(a: string)
    requires IsIpv4(a) && IsAscii(a)
    ensures AreWords(Split(a, "."))
  {
    var parts := Split(a, ".");
    PiecesSatisfy(a, ".", IsAsciiChar);
    hide IsOctet, Split, IsAscii, Digits;
    forall i | 0 <= i < |parts| ensures IsWord(parts[i]) {
      OctetShape(parts[i]);
      assert IsAscii(parts[i]) by { AllAscii(parts[i]); }
      AsciiDigitsAreWord(parts[i]);
    }
  }

  lemma AllAscii(s: string)
    ensures IsAscii(s) <==> All(s, IsAsciiChar)
  {
  }

  lemma {:induction false} DottedWords(words: seq<string>)
    requires words != [] && AreWords(words)
    ensures Words(Join(words, ".")) == words
  {
    hide Words;
    WordAlone(words[0]);
    if |words| > 1 {
      var rest := Join(words[1..], ".");
      assert AreWords(words[1..]) && IsWord(words[0]);
      WordsAppend(words[0], "." + rest);
      WordsSkip(".", rest);
      DottedWords(words[1..]);
      assert words == [words[0]] + words[1..];
    } else {
      assert words == [words[0]];
    }
  }

  /** The address of a plain target, seen whole. */
  lemma PlainParts(t: string)
    requires AcceptedIpv4(t) && Plain(t)
    ensures IsIpv4(Partition(t).address) && IsAscii(Partition(t).address)
    ensures Partition(t).prefix.Some? ==> IsWord(Partition(t).prefix.value)
  {
    var p := Partition(t);
    PrefixDigits(t);
    hide AcceptedIpv4, IsIpv4, MatchesIpv4, Partition, IsSpace, Digits, IsDecimal;
    AcceptedShape(t);
    var overlooked := CleanIsIpv4(p.address);
    if overlooked != "" {
      EndsInNewline(Clean(p.address), overlooked, Suffix(p.prefix));
      assert false;
    }
    forall i | 0 <= i < |p.address| ensures IsAsciiChar(p.address[i]) {
      assert t[i] == p.address[i];
    }
    if p.prefix.Some? {
      var q := p.prefix.value;
      forall i | 0 <= i < |q| ensures IsAsciiChar(q[i]) {
        assert t[|p.address| + 1 + i] == q[i];
      }
      AsciiDigitsAreWord(q);
    }
  }

  lemma PrefixDigits(t: string)
    requires AcceptedIpv4(t)
    ensures Partition(t).prefix.Some? ==> Partition(t).prefix.value != "" && Digits(Partition(t).prefix.value)
  {
  }

  /** The words of a plain target are its octets and its prefix. */
  lemma PlainWords(t: string)
    requires AcceptedIpv4(t) && Plain(t)
    ensures var p := Partition(t);
            Words(t) == Split(p.address, ".") + (if p.prefix.Some? then [p.prefix.value] else [])
  {
    hide AcceptedIpv4, Words, Split, Partition, IsSpace, MatchesIpv4, Plain, Join;
    var p := Partition(t);
    AcceptedShape(t);
    PlainParts(t);
    Ipv4Octets(p.address);
    AsciiOctetsAreWords(p.address);
    DottedWords(Split(p.address, "."));
    WordsAppend(p.address, Suffix(p.prefix));
    if p.prefix.Some? {
      WordsSkip("/", p.prefix.value);
      WordAlone(p.prefix.value);
    } else {
      NoWords();
    }
  }

  lemma NoWords()
    ensures Words("") == []
  {
  }

  /** Names are injective on the accepted IPv4 targets that are ASCII and hold no
      newline. */
  lemma NamesAreInjective(t: string, u: string)
    requires AcceptedIpv4(t) && AcceptedIpv4(u) && Plain(t) && Plain(u)
    ensures QueueName(t) == QueueName(u) <==> t == u
  {
    hide AcceptedIpv4, QueueName, Words, Split, Partition, IsSpace, MatchesIpv4, Plain, Join, IsIpv4;
    NamesCollideExactly(t, u);
    PlainWords(t);
    PlainWords(u);
    PlainParts(t);
    PlainParts(u);
    AcceptedShape(t);
    AcceptedShape(u);
    var p, q := Partition(t), Partition(u);
    Ipv4Octets(p.address);
    Ipv4Octets(q.address);
    if Words(t) == Words(u) {
      var octets, others := Split(p.address, "."), Split(q.address, ".");
      assert octets == Words(t)[..4] && others == Words(u)[..4];
      assert p.prefix.Some? <==> |Words(t)| == 5;
      assert q.prefix.Some? <==> |Words(u)| == 5;
      assert p.prefix.Some? ==> p.prefix.value == Words(t)[4];
      assert q.prefix.Some? ==> q.prefix.value == Words(u)[4];
      assert p.prefix == q.prefix;
    }
  }

  // ---- Shared names ----

  predicate GoodPrefix(prefix: Option<string>) {
    prefix.Some? ==> prefix.value != "" && Digits(prefix.value) && Number(prefix.value) <= 32
  }

  lemma PrefixIsGood(t: string)
    requires AcceptedIpv4(t)
    ensures GoodPrefix(Partition(t).prefix) && |t| <= MAX_ADDRESS_LENGTH
  {
  }

  /** What makes a composed text an accepted target. */
  lemma Accepts(address: string, prefix: Option<string>)
    requires MatchesIpv4(address) && '/' !in address && GoodPrefix(prefix)
    requires var u := address + Suffix(prefix);
             u != "" && |u| <= MAX_ADDRESS_LENGTH && !IsSpace(u[0]) && !IsSpace(u[|u| - 1])
    ensures AcceptedIpv4(address + Suffix(prefix))
    ensures Partition(address + Suffix(prefix)) == Target(address, prefix)
  {
    PartitionOf(address, prefix);
    StripNothing(address + Suffix(prefix));
    hide MatchesIpv4, Partition, Strip, Digits, Number, IsSpace;
  }

  lemma AddressIsIpv4(t: string)
    requires AcceptedIpv4(t) && '\n' !in t
    ensures IsIpv4(Partition(t).address)
  {
    var p := Partition(t);
    hide AcceptedIpv4, IsIpv4, MatchesIpv4, Partition, IsSpace;
    AcceptedShape(t);
    var overlooked := CleanIsIpv4(p.address);
    if overlooked != "" {
      EndsInNewline(Clean(p.address), overlooked, Suffix(p.prefix));
      assert false;
    }
  }

  /** The target with a newline before its slash. */
  function Twin(t: string): string {
    (Partition(t).address + "\n") + Suffix(Partition(t).prefix)
  }

  lemma NotSlashAppended(address: string)
    requires '/' !in address
    ensures '/' !in address + "\n"
  {
    var a := address + "\n";
    assert forall i :: 0 <= i < |a| ==> a[i] == if i < |address| then address[i] else '\n';
  }

  lemma Ipv4Lacks(a: string, c: char)
    requires IsIpv4(a) && c < '\U{0080}' && !IsDigit(c) && c != '.'
    ensures c !in a
  {
    var parts := Split(a, ".");
    AsciiDecimal(c);
    hide IsDecimal, IsOctet;
    forall i | 0 <= i < |parts| ensures c !in parts[i] {
      OctetShape(parts[i]);
    }
    PiecesLack(a, '.', c);
  }

  lemma NewlineAtEnd(a: string)
    ensures '\n' in a + "\n" && (a + "\n")[..|a|] == a && (a + "\n")[|a|] == '\n'
  {
    assert (a + "\n")[|a|] == '\n';
  }

  lemma TwinAddress(a: string)
    requires IsIpv4(a)
    ensures MatchesIpv4(a + "\n") && a != ""
  {
    EmptyIsNoIpv4();
    NewlineAtEnd(a);
    hide IsIpv4;
    if IsIpv4(a + "\n") {
      Ipv4Lacks(a + "\n", '\n');
    }
  }

  /** Between an address and what follows it a newline changes no word. */
  lemma NewlineBetween(a: string, prefix: Option<string>)
    ensures Words((a + "\n") + Suffix(prefix)) == Words(a + Suffix(prefix))
  {
    hide Words;
    var rest := Suffix(prefix);
    Associate(a, "\n", rest);
    WordsAppend(a, "\n" + rest);
    WordsAppend(a, rest);
    WordsSkip("\n", rest);
  }

  lemma TwinShares(t: string)
    requires AcceptedIpv4(t) && '\n' !in t && Partition(t).prefix.Some? && |t| < MAX_ADDRESS_LENGTH
    ensures AcceptedIpv4(Twin(t)) && Twin(t) != t && Words(Twin(t)) == Words(t)
  {
    hide AcceptedIpv4, IsIpv4, MatchesIpv4, Partition, GoodPrefix, IsSpace, Words;
    var p := Partition(t);
    AddressIsIpv4(t);
    AcceptedShape(t);
    PrefixIsGood(t);
    TwinAddress(p.address);
    NotSlashAppended(p.address);
    NewlineBetween(p.address, p.prefix);
    var u := Twin(t);
    assert |u| == |t| + 1 && u[0] == t[0] && u[|u| - 1] == t[|t| - 1];
    Accepts(p.address + "\n", p.prefix);
  }

  // A host gains a subnet whose only digit is not ASCII.

  const EIGHT := "\U{0668}"

  lemma EightIsForeign()
    ensures Digits(EIGHT) && Number(EIGHT) == 8 && !IsSpace(EIGHT[0])
            && All("/" + EIGHT, Unsafe) && !IsAsciiChar(EIGHT[0])
  {
    ForeignDigit(8);
    assert EIGHT[0] == (0x0660 + 8) as char;
    DecimalIsNoSpace(EIGHT[0]);
    hide IsDecimal, ValueOf, IsSpace;
    NumberOfOne(EIGHT);
  }

  lemma {:induction false} JoinLength(parts: seq<string>)
    requires parts != [] && forall i :: 0 <= i < |parts| ==> |parts[i]| <= 3
    ensures |Join(parts, ".")| < 4 * |parts|
  {
    if |parts| > 1 {
      JoinLength(parts[1..]);
    }
  }

  lemma AddressIsShort(a: string)
    requires IsIpv4(a)
    ensures |a| <= 15
  {
    var parts := Split(a, ".");
    Ipv4Octets(a);
    hide IsOctet, Split;
    forall i | 0 <= i < |parts| ensures |parts[i]| <= 3 {
      OctetShape(parts[i]);
    }
    JoinLength(parts);
  }

  lemma HostShares(t: string)
    requires AcceptedIpv4(t) && Partition(t).prefix.None?
    ensures AcceptedIpv4(t + ("/" + EIGHT)) && Words(t + ("/" + EIGHT)) == Words(t)
  {
    hide AcceptedIpv4, IsIpv4, Partition, IsSpace, Words, Digits, Number;
    var u := t + Suffix(Some(EIGHT));
    HostIsClean(t);
    AcceptedShape(t);
    AddressIsShort(t);
    EightIsForeign();
    assert u[0] == t[0] && u[|u| - 1] == EIGHT[0];
    Accepts(t, Some(EIGHT));
    UnsafeTail(t, "/" + EIGHT);
  }

  lemma UnsafeTail(t: string, tail: string)
    requires All(tail, Unsafe)
    ensures Words(t + tail) == Words(t)
  {
    WordsAppend(t, tail);
    WordsSkip(tail, "");
    NoWords();
    hide Words;
    assert tail + "" == tail;
  }

  // A newline is dropped.

  lemma NoNewlineIn(a: string, prefix: Option<string>)
    requires '\n' !in a && (prefix.Some? ==> Digits(prefix.value))
    ensures '\n' !in a + Suffix(prefix)
  {
    AsciiDecimal('\n');
    hide IsDecimal;
    var s := a + Suffix(prefix);
    if prefix.Some? {
      forall i | 0 <= i < |s| ensures s[i] != '\n' {
        if i > |a| {
          assert s[i] == prefix.value[i - |a| - 1];
        }
      }
    }
  }

  lemma NewlineIsOverlooked(t: string)
    requires AcceptedIpv4(t) && '\n' in t
    ensures IsIpv4(Clean(Partition(t).address))
    ensures Partition(t).address == Clean(Partition(t).address) + "\n"
  {
    var p := Partition(t);
    PrefixDigits(t);
    hide AcceptedIpv4, IsIpv4, MatchesIpv4, Partition, IsSpace, Clean, Digits;
    AcceptedShape(t);
    var overlooked := CleanIsIpv4(p.address);
    Ipv4Lacks(Clean(p.address), '\n');
    NoNewlineIn(Clean(p.address), p.prefix);
    assert overlooked == "" ==> p.address == Clean(p.address);
  }

  lemma DropNewline(t: string)
    requires AcceptedIpv4(t) && '\n' in t
    ensures var u := Clean(Partition(t).address) + Suffix(Partition(t).prefix);
            AcceptedIpv4(u) && u != t && Words(u) == Words(t)
  {
    hide AcceptedIpv4, IsIpv4, MatchesIpv4, Partition, GoodPrefix, IsSpace, Words, Clean;
    NewlineIsOverlooked(t);
    var p := Partition(t);
    var a := Clean(p.address);
    var u := a + Suffix(p.prefix);
    AcceptedShape(t);
    PrefixIsGood(t);
    Ipv4Lacks(a, '/');
    EmptyIsNoIpv4();
    NewlineBetween(a, p.prefix);
    assert |u| + 1 == |t| && u[0] == t[0];
    LastKept(a, p.prefix, t);
    ByItself(a);
    Accepts(a, p.prefix);
  }

  lemma ByItself(a: string)
    requires IsIpv4(a)
    ensures MatchesIpv4(a)
  {
  }

  lemma LastKept(a: string, prefix: Option<string>, t: string)
    requires t == (a + "\n") + Suffix(prefix) && a != "" && !IsSpace(t[|t| - 1])
    ensures var u := a + Suffix(prefix); u[|u| - 1] == t[|t| - 1]
  {
    hide IsSpace;
    assert prefix.None? ==> t[|t| - 1] == '\n';
    assert IsSpace('\n') by {
      NewlineIsSpace();
    }
  }

  lemma NewlineIsSpace()
    ensures IsSpace('\n')
  {
  }

  // Digits beyond ASCII are written another way.

  function OtherForm(c: char): char {
    if !IsOtherDigit(c) then c
    else if '\U{0660}' <= c <= '\U{0669}' then (0x06F0 + OtherValue(c)) as char
    else (0x0660 + OtherValue(c)) as char
  }

  function Redigit(s: string): string {
    seq(|s|, i requires 0 <= i < |s| => OtherForm(s[i]))
  }

  lemma SecondRun(v: nat)
    requires v < 10
    ensures IsOtherDigit((0x06F0 + v) as char) && OtherValue((0x06F0 + v) as char) == v
  {
    var c := (0x06F0 + v) as char;
    var zeros := OtherZeros(0);
    assert zeros[0] == '\U{0660}' && zeros[1] == '\U{06F0}' && zeros[1..][0] == zeros[1];
    assert RunValue(c, zeros[1..]) == v;
    assert RunValue(c, zeros) == v;
  }

  /** The other form is another digit of the same value. */
  lemma OtherFormIs(c: char)
    requires IsOtherDigit(c)
    ensures OtherForm(c) != c && IsOtherDigit(OtherForm(c)) && OtherValue(OtherForm(c)) == OtherValue(c)
    ensures IsDecimal(c) && IsDecimal(OtherForm(c)) && ValueOf(OtherForm(c)) == ValueOf(c)
    ensures c >= '\U{0080}' && OtherForm(c) >= '\U{0080}'
  {
    var v := OtherValue(c);
    ForeignDigit(v);
    SecondRun(v);
    AsciiDecimal(c);
    AsciiDecimal(OtherForm(c));
    hide IsOtherDigit, OtherValue;
  }

  lemma FormOfChar(c: char)
    ensures c < '\U{0080}' ==> OtherForm(c) == c
    ensures OtherForm(c) < '\U{0080}' ==> OtherForm(c) == c
    ensures IsDecimal(c) ==> IsDecimal(OtherForm(c)) && ValueOf(OtherForm(c)) == ValueOf(c)
    ensures IsDecimal(c) && c >= '\U{0080}' ==> OtherForm(c) != c
    ensures OtherForm(c) == c || (Unsafe(c) && Unsafe(OtherForm(c)) && !IsSpace(OtherForm(c)))
  {
    AsciiDecimal(c);
    if IsOtherDigit(c) {
      OtherFormIs(c);
      AsciiDecimal(OtherForm(c));
      DecimalIsNoSpace(OtherForm(c));
    }
    hide OtherForm, IsOtherDigit, OtherValue, IsSpace;
  }

  lemma RedigitOctet(s: string)
    requires IsOctet(s)
    ensures IsOctet(Redigit(s))
  {
    hide OtherForm, IsDecimal, ValueOf;
    forall i | 0 <= i < |s|
      ensures (s[i] < '\U{0080}' ==> OtherForm(s[i]) == s[i]) && (IsDecimal(s[i]) ==> IsDecimal(OtherForm(s[i])))
    {
      FormOfChar(s[i]);
    }
  }

  lemma {:induction false} RedigitNumber(s: string)
    requires Digits(s)
    ensures Digits(Redigit(s)) && Number(Redigit(s)) == Number(s)
  {
    hide OtherForm, IsDecimal, ValueOf;
    if s != "" {
      var n := |s| - 1;
      FormOfChar(s[n]);
      RedigitNumber(s[..n]);
      assert Redigit(s)[..n] == Redigit(s[..n]);
      var r := Redigit(s);
      forall i | 0 <= i < |r| ensures IsDecimal(r[i]) {
        if i < n {
          assert r[i] == Redigit(s[..n])[i];
        }
      }
    }
  }

  lemma RedigitAppend(a: string, b: string)
    ensures Redigit(a + b) == Redigit(a) + Redigit(b)
  {
    hide OtherForm;
  }

  lemma {:induction false} RedigitSplit(s: string)
    ensures SplitsAlike(s)
  {
    assert Redigit("") == "";
    if s != "" {
      RedigitSplit(s[1..]);
      assert Redigit(s)[1..] == Redigit(s[1..]);
      hide Redigit;
      if s[0] == '.' {
        RedigitDot(s);
      } else {
        RedigitPiece(s);
      }
    }
  }

  predicate SplitsAlike(s: string) {
    && |Split(Redigit(s), ".")| == |Split(s, ".")|
    && forall i :: 0 <= i < |Split(s, ".")| ==> Split(Redigit(s), ".")[i] == Redigit(Split(s, ".")[i])
  }

  lemma RedigitDot(s: string)
    requires s != "" && s[0] == '.' && SplitsAlike(s[1..])
    ensures SplitsAlike(s)
  {
    FormOfChar('.');
    DotFirst(s);
    DotFirst(Redigit(s));
    assert Redigit(s)[1..] == Redigit(s[1..]) && Redigit("") == "";
    hide OtherForm, Redigit, Split;
  }

  lemma RedigitPiece(s: string)
    requires s != "" && s[0] != '.' && SplitsAlike(s[1..])
    ensures SplitsAlike(s)
  {
    var r := Redigit(s);
    var rest, others := Split(s[1..], "."), Split(r[1..], ".");
    FormOfChar(s[0]);
    FormOfChar('.');
    PieceGrows(s);
    PieceGrows(r);
    RedigitAppend([s[0]], rest[0]);
    assert r[1..] == Redigit(s[1..]) && Redigit([s[0]]) == [r[0]];
    hide OtherForm, Redigit, Split, IsDecimal, IsSpace;
    assert forall i :: 0 < i < |rest| ==> ([[s[0]] + rest[0]] + rest[1..])[i] == rest[i];
    assert forall i :: 0 < i < |rest| ==> ([[r[0]] + others[0]] + others[1..])[i] == others[i];
  }

  lemma DotFirst(s: string)
    requires s != "" && s[0] == '.'
    ensures Split(s, ".") == [""] + Split(s[1..], ".")
  {
    assert "." <= s;
  }

  lemma PieceGrows(s: string)
    requires s != "" && s[0] != '.'
    ensures var rest := Split(s[1..], "."); Split(s, ".") == [[s[0]] + rest[0]] + rest[1..]
  {
    assert !("." <= s);
  }

  lemma RedigitIpv4(a: string)
    requires IsIpv4(a)
    ensures IsIpv4(Redigit(a))
  {
    RedigitSplit(a);
    var parts, others := Split(a, "."), Split(Redigit(a), ".");
    hide IsOctet, Redigit, Split;
    forall i | 0 <= i < |others| ensures IsOctet(others[i]) {
      RedigitOctet(parts[i]);
    }
  }

  lemma RedigitWords(s: string)
    ensures Words(Redigit(s)) == Words(s)
  {
    hide OtherForm, Words, IsSpace;
    var r := Redigit(s);
    forall i | 0 <= i < |s| ensures s[i] == r[i] || (Unsafe(s[i]) && Unsafe(r[i])) {
      FormOfChar(s[i]);
    }
    AlikeWords(s, r);
  }

  lemma RedigitEnd(s: string, i: nat)
    requires i < |s| && !IsSpace(s[i])
    ensures !IsSpace(Redigit(s)[i])
  {
    FormOfChar(s[i]);
    hide OtherForm, IsSpace;
  }

  predicate IsTargetChar(c: char) {
    IsDecimal(c) || c == '.' || c == '/'
  }

  lemma TargetChars(t: string)
    requires AcceptedIpv4(t) && '\n' !in t
    ensures All(t, IsTargetChar)
  {
    var p := Partition(t);
    PrefixDigits(t);
    hide AcceptedIpv4, IsIpv4, MatchesIpv4, Partition, IsSpace, IsDecimal, IsOctet;
    AcceptedShape(t);
    AddressIsIpv4(t);
    Ipv4Octets(p.address);
    var parts := Split(p.address, ".");
    forall i | 0 <= i < |parts| ensures All(parts[i], IsTargetChar) {
      OctetShape(parts[i]);
    }
    JoinSatisfies(parts, ".", IsTargetChar);
    hide Join, Split;
    forall i | 0 <= i < |t| ensures IsTargetChar(t[i]) {
      if i < |p.address| {
        assert t[i] == p.address[i];
      } else if i > |p.address| {
        assert t[i] == p.prefix.value[i - |p.address| - 1];
      }
    }
  }

  lemma RedigitShares(t: string)
    requires AcceptedIpv4(t) && '\n' !in t && !IsAscii(t)
    ensures AcceptedIpv4(Redigit(t)) && Redigit(t) != t && Words(Redigit(t)) == Words(t)
  {
    TargetChars(t);
    RedigitWords(t);
    var i :| 0 <= i < |t| && !IsAsciiChar(t[i]);
    assert IsTargetChar(t[i]);
    FormOfChar(t[i]);
    assert Redigit(t)[i] != t[i];
    RedigitAccepted(t);
    hide AcceptedIpv4, Redigit, Words;
  }

  lemma RedigitAccepted(t: string)
    requires AcceptedIpv4(t) && '\n' !in t
    ensures AcceptedIpv4(Redigit(t))
  {
    hide AcceptedIpv4, IsIpv4, Partition, IsSpace, Digits, Number, OtherForm;
    var p := Partition(t);
    AddressIsIpv4(t);
    AcceptedShape(t);
    PrefixIsGood(t);
    RedigitIpv4(p.address);
    ByItself(Redigit(p.address));
    hide MatchesIpv4;
    Ipv4Lacks(Redigit(p.address), '/');
    RedigitAppend(p.address, Suffix(p.prefix));
    RedigitEnd(t, 0);
    RedigitEnd(t, |t| - 1);
    if p.prefix.Some? {
      RedigitNumber(p.prefix.value);
      RedigitAppend("/", p.prefix.value);
      FormOfChar('/');
      assert Redigit("/") == "/";
      var prefix := Some(Redigit(p.prefix.value));
      assert Redigit(t) == Redigit(p.address) + Suffix(prefix);
      Accepts(Redigit(p.address), prefix);
    } else {
      assert Redigit("") == "";
      assert Redigit(t) == Redigit(p.address) + Suffix(None);
      Accepts(Redigit(p.address), None);
    }
  }

  // At the length limit there is no room for anything but the words.

  lemma {:induction false} JoinUnsafes(parts: seq<string>)
    requires parts != []
    ensures Unsafes(Join(parts, ".")) >= |parts| - 1
    ensures Unsafes(Join(parts, ".")) == |parts| - 1 <==> forall i :: 0 <= i < |parts| ==> All(parts[i], IsAlnum)
  {
    NoUnsafes(parts[0]);
    if |parts| > 1 {
      var rest := Join(parts[1..], ".");
      JoinUnsafes(parts[1..]);
      UnsafesAppend(parts[0], "." + rest);
      UnsafesAppend(".", rest);
      assert Unsafes(".") == 1;
      assert forall i :: 0 < i < |parts| ==> parts[i] == parts[1..][i - 1];
    }
  }

  function Separators(prefix: Option<string>): nat {
    if prefix.Some? then 4 else 3
  }

  lemma SuffixUnsafes(prefix: Option<string>)
    ensures Unsafes(Suffix(prefix)) == if prefix.Some? then 1 + Unsafes(prefix.value) else 0
  {
    if prefix.Some? {
      UnsafesAppend("/", prefix.value);
      assert Unsafes("/") == 1;
    }
  }

  lemma AddressUnsafes(a: string)
    requires IsIpv4(a)
    ensures Unsafes(a) >= 3
    ensures Unsafes(a) == 3 ==> IsAscii(a)
    ensures IsAscii(a) ==> Unsafes(a) == 3
  {
    var parts := Split(a, ".");
    Ipv4Octets(a);
    JoinUnsafes(parts);
    hide Join, Split, IsOctet;
    if IsAscii(a) {
      AsciiOctetsAreWords(a);
      forall i | 0 <= i < |parts| ensures All(parts[i], IsAlnum) {
        assert IsWord(parts[i]);
      }
    }
    if Unsafes(a) == 3 {
      forall i | 0 <= i < |parts| ensures All(parts[i], IsAsciiChar) {
        assert All(parts[i], IsAlnum);
      }
      JoinSatisfies(parts, ".", IsAsciiChar);
    }
  }

  /** A target has its separators and, if it is not plain, more. */
  lemma TargetUnsafes(t: string)
    requires AcceptedIpv4(t)
    ensures var p := Partition(t);
            Unsafes(t) >= Separators(p.prefix) && (Unsafes(t) == Separators(p.prefix) <==> Plain(t))
  {
    var p := Partition(t);
    PrefixDigits(t);
    hide AcceptedIpv4, IsIpv4, MatchesIpv4, Partition, IsSpace, Clean, Digits, IsAscii;
    AcceptedShape(t);
    var overlooked := CleanIsIpv4(p.address);
    var a := Clean(p.address);
    AddressUnsafes(a);
    UnsafesAppend(p.address, Suffix(p.prefix));
    UnsafesAppend(a, overlooked);
    SuffixUnsafes(p.prefix);
    assert Unsafes("\n") == 1 && Unsafes("") == 0;
    if p.prefix.Some? {
      PrefixPlain(p.prefix.value);
    }
    Ipv4Lacks(a, '\n');
    NoNewlineIn(a, p.prefix);
    NewlineAtEnd(a);
    PlainIs(a, overlooked, p.prefix, t);
  }

  lemma PrefixPlain(s: string)
    requires s != "" && Digits(s)
    ensures Unsafes(s) == 0 <==> IsAscii(s)
  {
    NoUnsafes(s);
    if IsAscii(s) {
      AsciiDigitsAreWord(s);
    }
  }

  lemma PlainIs(a: string, overlooked: string, prefix: Option<string>, t: string)
    requires t == (a + overlooked) + Suffix(prefix) && (overlooked == "" || overlooked == "\n")
    requires '\n' !in a + Suffix(prefix)
    ensures Plain(t) <==> overlooked == "" && IsAscii(a) && (prefix.Some? ==> IsAscii(prefix.value))
  {
    if overlooked == "" {
      assert t == a + Suffix(prefix);
      if Plain(t) {
        assert forall i :: 0 <= i < |a| ==> a[i] == t[i];
        assert prefix.Some? ==> forall i :: 0 <= i < |prefix.value| ==> prefix.value[i] == t[|a| + 1 + i];
      }
    } else {
      assert t[|a|] == '\n';
    }
  }

  lemma FullTargetIsAlone(t: string, u: string)
    requires AcceptedIpv4(t) && Plain(t) && |t| == MAX_ADDRESS_LENGTH
    requires AcceptedIpv4(u) && Words(u) == Words(t)
    ensures u == t
  {
    hide AcceptedIpv4, Partition, Words, Plain, Unsafes, Letters, QueueName;
    LengthByWords(t);
    LengthByWords(u);
    TargetUnsafes(t);
    TargetUnsafes(u);
    HostIsShort(t);
    HostIsShort(u);
    PrefixIsGood(u);
    NamesCollideExactly(t, u);
    assert Unsafes(u) == Separators(Partition(u).prefix);
    NamesAreInjective(t, u);
  }

  lemma HostIsShort(t: string)
    requires AcceptedIpv4(t)
    ensures Partition(t).prefix.None? ==> |t| <= 15
  {
    hide AcceptedIpv4, Partition;
    if Partition(t).prefix.None? {
      HostIsClean(t);
      AddressIsShort(t);
    }
  }

  /** Which targets share their name: all but the plain ones at the length limit. Any
      other has room for a newline, or for a subnet of one digit beyond ASCII, or
      already holds a newline or such a digit that can be written otherwise. */
  lemma SharedNameExactly(t: string)
    requires AcceptedIpv4(t)
    ensures (exists u :: AcceptedIpv4(u) && u != t && QueueName(u) == QueueName(t)) <==>
            |t| < MAX_ADDRESS_LENGTH || !Plain(t)
  {
    PrefixIsGood(t);
    hide AcceptedIpv4, QueueName, Words, Partition, IsAscii;
    if '\n' in t {
      DropNewline(t);
      NamesCollideExactly(Clean(Partition(t).address) + Suffix(Partition(t).prefix), t);
    } else if !IsAscii(t) {
      RedigitShares(t);
      NamesCollideExactly(Redigit(t), t);
    } else if |t| < MAX_ADDRESS_LENGTH {
      if Partition(t).prefix.Some? {
        TwinShares(t);
        NamesCollideExactly(Twin(t), t);
      } else {
        HostShares(t);
        NamesCollideExactly(t + ("/" + EIGHT), t);
      }
    } else {
      forall u | AcceptedIpv4(u) && QueueName(u) == QueueName(t) ensures u == t {
        NamesCollideExactly(u, t);
        FullTargetIsAlone(t, u);
      }
    }
  }

  // ---- Concrete pairs ----

  lemma ExampleSplit(last: string)
    requires last != "" && '.' !in last
    ensures Split("1.2.3." + last, ".") == ["1", "2", "3", last]
  {
    var parts := ["1", "2", "3", last];
    assert Join(parts[3..], ".") == last;
    assert parts[2..][1..] == parts[3..] && parts[1..][1..] == parts[2..];
    assert Join(parts[2..], ".") == "3." + last;
    assert Join(parts[1..], ".") == "2.3." + last;
    assert Join(parts, ".") == "1.2.3." + last;
    SplitJoin(parts, ".");
  }

  lemma ExampleAddress(last: string)
    requires IsOctet(last) && '.' !in last && |last| == 1
    ensures IsIpv4("1.2.3." + last)
  {
    ExampleSplit(last);
    hide Split, IsOtherDigit;
    var parts := ["1", "2", "3", last];
    assert IsOctet("1") && IsOctet("2") && IsOctet("3");
    assert AreOctets(parts);
  }

  lemma AddressEnds(a: string)
    requires IsIpv4(a)
    ensures a != "" && !IsSpace(a[0]) && !IsSpace(a[|a| - 1]) && '/' !in a && '\n' !in a && |a| <= 15
  {
    var parts := Split(a, ".");
    Ipv4Octets(a);
    AddressIsShort(a);
    Ipv4Lacks(a, '/');
    Ipv4Lacks(a, '\n');
    hide IsSpace, IsDecimal, IsOctet, Split, IsIpv4;
    forall i | 0 <= i < |parts| ensures All(parts[i], IsTargetChar) {
      OctetShape(parts[i]);
    }
    JoinSatisfies(parts, ".", IsTargetChar);
    TargetCharIsNoSpace(a[0]);
    TargetCharIsNoSpace(a[|a| - 1]);
  }

  lemma TargetCharIsNoSpace(c: char)
    requires IsTargetChar(c)
    ensures !IsSpace(c)
  {
    if IsDecimal(c) {
      DecimalIsNoSpace(c);
    }
  }

  /** Every address is an accepted target, by itself and with a prefix up to 32. */
  lemma AddressAccepted(a: string, prefix: Option<string>)
    requires IsIpv4(a) && GoodPrefix(prefix) && (prefix.Some? ==> |prefix.value| == 1)
    ensures AcceptedIpv4(a + Suffix(prefix)) && Partition(a + Suffix(prefix)) == Target(a, prefix)
    ensures '\n' !in a + Suffix(prefix)
  {
    AddressEnds(a);
    ByItself(a);
    NoNewlineIn(a, prefix);
    var t := a + Suffix(prefix);
    if prefix.Some? {
      DecimalIsNoSpace(prefix.value[0]);
      assert t[|t| - 1] == prefix.value[0];
    }
    hide AcceptedIpv4, IsIpv4, MatchesIpv4, IsSpace, IsDecimal, Partition, Number;
    Accepts(a, prefix);
  }

  /** An accepted subnet and the same text with a newline before its slash. */
  lemma NewlineTwinExample()
    ensures AcceptedIpv4("1.2.3.4/8") && AcceptedIpv4("1.2.3.4\n/8")
    ensures QueueName("1.2.3.4/8") == QueueName("1.2.3.4\n/8")
  {
    hide AcceptedIpv4, IsIpv4, QueueName, Partition, Number, Words, IsOtherDigit;
    ExampleAddress("4");
    assert "1.2.3." + "4" == "1.2.3.4";
    NumberOfOne("8");
    NewlineTwin("1.2.3.4", "8");
    assert "1.2.3.4" + "/8" == "1.2.3.4/8" && "1.2.3.4" + "\n/8" == "1.2.3.4\n/8";
    assert "/" + "8" == "/8" && "\n/" + "8" == "\n/8";
  }

  lemma NewlineTwin(a: string, prefix: string)
    requires IsIpv4(a) && |prefix| == 1 && Digits(prefix) && Number(prefix) <= 32
    ensures AcceptedIpv4(a + ("/" + prefix)) && AcceptedIpv4(a + ("\n/" + prefix))
    ensures QueueName(a + ("/" + prefix)) == QueueName(a + ("\n/" + prefix))
  {
    AddressEnds(a);
    hide AcceptedIpv4, IsIpv4, QueueName, Number, Words, Digits, IsSpace;
    TwinIs(a, prefix);
    hide Twin, Partition;
    var t := a + Suffix(Some(prefix));
    AddressAccepted(a, Some(prefix));
    TwinShares(t);
    NamesCollideExactly(t, Twin(t));
  }

  lemma TwinIs(a: string, prefix: string)
    requires '/' !in a
    ensures Twin(a + ("/" + prefix)) == a + ("\n/" + prefix)
  {
    PartitionOf(a, Some(prefix));
    hide Partition;
    Associate(a, "\n", "/" + prefix);
    assert "\n" + ("/" + prefix) == "\n/" + prefix;
  }

  lemma UnsafeLastOctet(head: string, digit: string)
    requires IsIpv4((head + ".") + digit) && All(digit, Unsafe)
    ensures AcceptedIpv4((head + ".") + digit) && '\n' !in (head + ".") + digit
    ensures Words((head + ".") + digit) == Words(head)
  {
    var t := (head + ".") + digit;
    hide AcceptedIpv4, IsIpv4, Words, Partition;
    assert t + Suffix(None) == t;
    AddressAccepted(t, None);
    Associate(head, ".", digit);
    UnsafeTail(head, "." + digit);
  }

  lemma ForeignHost(v: nat)
    requires v < 10
    ensures var digit := [(0x0660 + v) as char];
            && AcceptedIpv4("1.2.3." + digit) && '\n' !in "1.2.3." + digit
            && Words("1.2.3." + digit) == Words("1.2.3")
  {
    var digit := [(0x0660 + v) as char];
    ForeignDigit(v);
    ForeignIsOctet(v);
    hide AcceptedIpv4, IsIpv4, Words, IsDecimal, IsOctet, IsAlnum;
    assert digit[0] != '.' by { AsciiDecimal('.'); }
    ExampleAddress(digit);
    assert "1.2.3" + "." == "1.2.3.";
    UnsafeLastOctet("1.2.3", digit);
  }

  lemma ForeignIsOctet(v: nat)
    requires v < 10
    ensures IsOctet([(0x0660 + v) as char])
  {
    ForeignDigit(v);
    hide IsOtherDigit;
  }

  /** Two accepted newline-free hosts with one name: their last octets are digits
      beyond ASCII. */
  lemma ForeignDigitExample()
    ensures AcceptedIpv4("1.2.3.\U{0664}") && AcceptedIpv4("1.2.3.\U{0665}")
    ensures "1.2.3.\U{0664}" != "1.2.3.\U{0665}" && QueueName("1.2.3.\U{0664}") == QueueName("1.2.3.\U{0665}")
  {
    var t, u := "1.2.3.\U{0664}", "1.2.3.\U{0665}";
    hide AcceptedIpv4, QueueName, Words;
    ForeignHost(4);
    ForeignHost(5);
    assert "1.2.3." + [(0x0660 + 4) as char] == t && "1.2.3." + [(0x0660 + 5) as char] == u;
    NamesCollideExactly(t, u);
    assert t[6] != u[6];
  }
}
