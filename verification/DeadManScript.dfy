/** The on-event script of a dead-man: the package's printers, and the device's
    reader of the three statement shapes they emit. */
module DeadManScript {
  import opened Text
  import opened Formatting
  import opened RevertCommand

  datatype Field = Field(key: string, value: string)

  // ---- Printers ----

  function PrintField(f: Field): string {
    f.key + "=" + f.value
  }

  function Tokens(fields: seq<Field>): seq<string> {
    seq(|fields|, i requires 0 <= i < |fields| => PrintField(fields[i]))
  }

  function PrintFields(fields: seq<Field>): string {
    Join(Tokens(fields), " ")
  }

  const SET_PREFIX := "/interface/wireless set [find name=\""
  const LOG_PREFIX := ":log warning \""
  const REMOVE_PREFIX := "/system scheduler remove [find name=\""

  /** The revert command of `_arm_wireless_revert`. */
  function PrintRevert(name: string, fields: seq<Field>): string {
    SET_PREFIX + (name + ("\"] " + PrintFields(fields)))
  }

  function PrintLog(name: string): string {
    LOG_PREFIX + ("mcp-mikrotik dead-man reverting " + name + "\"")
  }

  function PrintRemove(name: string): string {
    REMOVE_PREFIX + (name + "\"]")
  }

  /** `_build_dead_man_script`. */
  function BuildScript(name: string, commands: seq<string>): string {
    PrintLog(name) + ("; " + (Join(commands, "; ") + ("; " + PrintRemove(name))))
  }

  // ---- Names ----

  predicate IsHex(c: char) {
    IsDigit(c) || 'a' <= c <= 'f'
  }

  /** `^deadman-[0-9a-f]{1,32}$` on a stripped value. */
  predicate IsDeadManName(s: string) {
    "deadman-" <= s && 9 <= |s| <= 40 && forall i :: 8 <= i < |s| ==> IsHex(s[i])
  }

  // ---- The device's reader ----

  datatype Statement =
    | Log
    | SetWireless(name: string, fields: map<string, string>)
    | RemoveScheduler(name: string)
    | Unknown

  /** `pair.split("=", 1)` of every token that has an equals sign; a later token
      overrides an earlier one. */
  function ReadTokens(tokens: seq<string>): map<string, string> {
    if tokens == [] then map[]
    else
      var last := tokens[|tokens| - 1];
      var rest := ReadTokens(tokens[..|tokens| - 1]);
      var c := Cut(last, NotEquals);
      if c.tail == "" then rest else rest[c.head := c.tail[1..]]
  }

  predicate NotEquals(c: char) { c != '=' }
  predicate NotBlank(c: char) { c != ' ' }
  predicate NotNewline(c: char) { c != '\n' }

  function ReadQuoted(s: string, prefix: string): Option<Parts> {
    if !(prefix <= s) then None
    else
      var c := Cut(Drop(s, prefix), NotQuote);
      if c.head == "" then None else Some(c)
  }

  predicate IsLog(s: string) {
    LOG_PREFIX <= s && Cut(Drop(s, LOG_PREFIX), NotQuote).tail == "\""
  }

  function ReadStatement(s: string): Statement {
    if IsLog(s) then Log
    else
      var change := ReadQuoted(s, SET_PREFIX);
      if change.Some? && "\"] " <= change.value.tail && |change.value.tail| > 3
         && All(change.value.tail, NotNewline)
      then SetWireless(change.value.head, ReadTokens(Split(Drop(change.value.tail, "\"] "), " ")))
      else
        var removal := ReadQuoted(s, REMOVE_PREFIX);
        if removal.Some? && removal.value.tail == "\"]" then RemoveScheduler(removal.value.head)
        else Unknown
  }

  function ReadScript(script: string): seq<Statement> {
    var parts := Split(script, "; ");
    seq(|parts|, i requires 0 <= i < |parts| => ReadStatement(Strip(parts[i])))
  }

  // ---- The printed revert command and the validator ----

  predicate KeysAreIdentifiers(fields: seq<Field>) {
    forall i :: 0 <= i < |fields| ==> IsIdentifier(fields[i].key)
  }

  predicate DistinctKeys(fields: seq<Field>) {
    forall i, j :: 0 <= i < j < |fields| ==> fields[i].key != fields[j].key
  }

  predicate ValuesAre(fields: seq<Field>, p: char -> bool) {
    forall i :: 0 <= i < |fields| ==> All(fields[i].value, p)
  }

  predicate ProperFields(fields: seq<Field>) {
    forall i :: 0 <= i < |fields| ==> IsIdentifier(fields[i].key) && IsValue(fields[i].value)
  }

  function AsAssignments(fields: seq<Field>): seq<Assignment> {
    seq(|fields|, i requires 0 <= i < |fields| => Assignment(" ", fields[i].key, fields[i].value))
  }

  function AsCommand(name: string, sets: seq<Assignment>): Command {
    Command("/interface/wireless", " ", " ", " ", "name", name, sets)
  }

  /** The text after the first assignment. */
  function LaterText(fields: seq<Field>): string
    requires fields != []
  {
    if |fields| == 1 then "" else " " + PrintFields(fields[1..])
  }

  lemma PrintFieldsStep(fields: seq<Field>)
    requires fields != []
    ensures PrintFields(fields) == PrintField(fields[0]) + LaterText(fields)
  {
    assert Tokens(fields)[1..] == Tokens(fields[1..]);
  }

  lemma {:induction false} PrintFieldsRender(fields: seq<Field>)
    requires fields != []
    ensures " " + PrintFields(fields) == RenderSets(AsAssignments(fields))
  {
    PrintFieldsStep(fields);
    hide PrintFields;
    var a := AsAssignments(fields);
    assert a[1..] == AsAssignments(fields[1..]);
    assert RenderAssignment(a[0]) == " " + PrintField(fields[0]);
    Associate(" ", PrintField(fields[0]), LaterText(fields));
    hide PrintField, RenderAssignment;
    if |fields| > 1 {
      PrintFieldsRender(fields[1..]);
    }
  }

  lemma PrintRevertRenders(name: string, fields: seq<Field>, sets: seq<Assignment>)
    requires RenderSets(sets) == " " + PrintFields(fields)
    ensures PrintRevert(name, fields) == Render(AsCommand(name, sets))
  {
    var c, text := AsCommand(name, sets), PrintFields(fields);
    hide PrintFields, RenderSets;
    RegroupSelector(c, RenderSets(c.sets));
    assert "\"] " + text == "\"]" + (" " + text);
    SetPrefixPieces(name + ("\"]" + (" " + text)));
    WirelessHead(c);
    hide RenderHead, RenderSelector;
  }

  lemma WirelessHead(c: Command)
    requires c.path == "/interface/wireless" && c.gap1 == " " && c.gap2 == " "
    ensures RenderHead(c) == "/interface/wireless set "
  {
  }

  lemma WirelessPath()
    ensures IsPath("/interface/wireless")
  {
  }

  /** A printed revert whose fields read as assignments is recognised as those. */
  lemma RenderedMatches(name: string, fields: seq<Field>, sets: seq<Assignment>)
    requires sets != [] && WellFormedSets(sets) && RenderSets(sets) == " " + PrintFields(fields)
    requires All(name, IsSelectorChar)
    ensures ParseCommand(PrintRevert(name, fields)) == Some(AsCommand(name, sets))
  {
    var c := AsCommand(name, sets);
    PrintRevertRenders(name, fields, sets);
    WirelessPath();
    assert WellFormed(c) by {
      hide IsPath;
    }
    ParseCommandFinds(c);
  }

  /** A printed revert whose name and values stay in the pattern's classes is
      recognised as its own assignments. */
  lemma PrintedMatches(name: string, fields: seq<Field>)
    requires fields != [] && All(name, IsSelectorChar) && ProperFields(fields)
    ensures ParseCommand(PrintRevert(name, fields)) == Some(AsCommand(name, AsAssignments(fields)))
  {
    PrintFieldsRender(fields);
    hide PrintFields, ParseCommand, IsValue, IsIdentifier;
    assert WellFormedSets(AsAssignments(fields));
    RenderedMatches(name, fields, AsAssignments(fields));
  }

  predicate NotSpace(c: char) { !IsSpace(c) }

  lemma {:induction false} SetsHaveNoQuote(sets: seq<Assignment>)
    requires WellFormedSets(sets)
    ensures All(RenderSets(sets), NotQuote)
  {
    if sets != [] {
      var a := sets[0];
      assert WellFormedAssignment(a) && WellFormedSets(sets[1..]);
      SetsHaveNoQuote(sets[1..]);
      assert All(a.gap, NotQuote) by {
        assert forall i :: 0 <= i < |a.gap| && IsSpace(a.gap[i]) ==> a.gap[i] != '"';
      }
      assert All(a.key, NotQuote) && All(a.value, NotQuote);
    }
  }

  lemma SetPrefixPieces(t: string)
    ensures SET_PREFIX + t == "/interface/wireless set " + ("[find" + (" " + ("name" + ("=\"" + t))))
  {
    assert SET_PREFIX == "/interface/wireless set " + "[find name=\"";
    assert "[find name=\"" == "[find" + " name=\"";
    assert " name=\"" == " " + "name=\"";
    assert "name=\"" == "name" + "=\"";
    Concat5("/interface/wireless set ", "[find", " ", "name", "=\"", t);
  }

  lemma Concat5(a: string, b: string, c: string, d: string, e: string, t: string)
    ensures (a + (b + (c + (d + e)))) + t == a + (b + (c + (d + (e + t))))
  {
  }

  /** Cutting a printed command before its bracket, then through to the quote. */
  lemma CutHead(rest: string)
    ensures Cut("/interface/wireless set " + ("[find" + rest), NotBracket) ==
            Parts("/interface/wireless set ", "[find" + rest)
  {
    CutAt("/interface/wireless set ", "[find" + rest, NotBracket);
  }

  lemma CutGap(t: string)
    ensures Cut(" " + ("name" + t), IsSpace) == Parts(" ", "name" + t)
  {
    assert ("name" + t)[0] == 'n';
    CutAt(" ", "name" + t, IsSpace);
  }

  lemma CutField(t: string)
    ensures Cut("name" + ("=\"" + t), IsIdChar) == Parts("name", "=\"" + t)
  {
    assert ("=\"" + t)[0] == '=';
    CutAt("name", "=\"" + t, IsIdChar);
  }

  /** What the selector parser sees after the opening quote. */
  lemma ParseAfterQuote(t: string)
    requires ParseCommand(SET_PREFIX + t).Some?
    ensures var v := Cut(t, NotQuote);
            All(v.head, IsSelectorChar) && "\"]" <= v.tail && ParseSets(Drop(v.tail, "\"]")).Some?
  {
    hide ParseHead, ParseSets;
    SetPrefixPieces(t);
    var afterFind := " " + ("name" + ("=\"" + t));
    CutHead(afterFind);
    CutGap("=\"" + t);
    CutField(t);
    DropToken("[find", afterFind);
    DropToken("=\"", t);
    assert ParseSelector("[find" + afterFind).Some?;
  }

  lemma QuotedNameIsRefused(name: string, sets: string)
    requires '"' in name
    ensures var v := Cut(name + ("\"]" + sets), NotQuote);
            !("\"]" <= v.tail && ParseSets(Drop(v.tail, "\"]")).Some?)
  {
    hide ParseSets;
    var n := Cut(name, NotQuote);
    QuoteLeft(name);
    var second := "\"]" + sets;
    assert name + second == n.head + (n.tail + second);
    CutAt(n.head, n.tail + second, NotQuote);
    hide Cut, Drop;
    SecondQuoteIsRefused(n.tail, second);
  }

  lemma SecondQuoteIsRefused(first: string, second: string)
    requires "\"" <= first && "\"" <= second
    ensures !("\"]" <= first + second && ParseSets(Drop(first + second, "\"]")).Some?)
  {
    hide ParseSets;
    var w := first + second;
    if "\"]" <= w {
      var rest, i := Drop(w, "\"]"), |first| - 2;
      assert w[|first|] == '"' && w[1] == ']' && i >= 0;
      assert rest[i] == '"';
      if ParseSets(rest).Some? {
        SetsTextHasNoQuote(rest, i);
      }
    }
  }

  lemma SetsTextHasNoQuote(s: string, i: nat)
    requires ParseSets(s).Some? && i < |s|
    ensures s[i] != '"'
  {
    ParseSetsSound(s);
    SetsHaveNoQuote(ParseSets(s).value);
    assert NotQuote(s[i]);
  }

  lemma QuoteLeft(name: string)
    ensures Cut(name, NotQuote).tail == "" ==> '"' !in name
  {
    var n := Cut(name, NotQuote);
    if n.tail == "" {
      assert n.head == name;
      assert forall i :: 0 <= i < |name| ==> NotQuote(name[i]);
    }
  }

  /** Only a name of selector characters gets through; a quote in the name is
      refused, never read as the end of the selector. */
  lemma PrintedNameIsClean(name: string, fields: seq<Field>)
    requires ParseCommand(PrintRevert(name, fields)).Some?
    ensures All(name, IsSelectorChar) && ParseSets(" " + PrintFields(fields)).Some?
  {
    hide PrintFields, ParseCommand, ParseSets;
    var text := PrintFields(fields);
    var sets := " " + text;
    ParseAfterQuote(name + ("\"] " + text));
    assert "\"] " + text == "\"]" + sets;
    if '"' in name {
      QuotedNameIsRefused(name, sets);
    } else {
      assert forall i :: 0 <= i < |name| ==> NotQuote(name[i]);
      CutAt(name, "\"]" + sets, NotQuote);
      DropToken("\"]", sets);
    }
  }

  lemma CutPrintedField(f: Field, tail: string)
    requires IsIdentifier(f.key)
    ensures Cut(" " + (PrintField(f) + tail), IsSpace) == Parts(" ", PrintField(f) + tail)
    ensures Cut(PrintField(f) + tail, IsIdChar) == Parts(f.key, "=" + (f.value + tail))
  {
    var u := "=" + (f.value + tail);
    assert PrintField(f) + tail == f.key + u;
    CharClasses(f.key[0]);
    assert (f.key + u)[0] == f.key[0] && u[0] == '=';
    hide IsSpace, IsIdentifier;
    CutAt(" ", f.key + u, IsSpace);
    CutAt(f.key, u, IsIdChar);
  }

  lemma ParsePrintedField(f: Field, tail: string)
    requires IsIdentifier(f.key)
    ensures var v := Cut(f.value + tail, IsValueChar);
            ParseAssignment(" " + (PrintField(f) + tail)) ==
            if v.head == "" then None else Some(Step(Assignment(" ", f.key, v.head), v.tail))
  {
    CutPrintedField(f, tail);
    ParsePairIs(" " + (PrintField(f) + tail));
    hide Cut, ParseAssignment, PrintField, IsIdentifier, IsSpace, IsIdChar, IsValueChar;
    DropToken("=", f.value + tail);
  }

  // ---- Values that run on into assignments ----

  /** A value, then perhaps further assignments. */
  predicate IsSpread(value: string) {
    var v := Cut(value, IsValueChar);
    v.head != "" && IsRun(v.tail)
  }

  predicate AllSpread(fields: seq<Field>) {
    forall i :: 0 <= i < |fields| ==> IsSpread(fields[i].value)
  }

  lemma SpreadField(f: Field, tail: string)
    requires IsIdentifier(f.key) && (tail == "" || tail[0] == ' ')
    ensures var v := Cut(f.value, IsValueChar);
            IsRun(" " + (PrintField(f) + tail)) <==> v.head != "" && IsRun(v.tail + tail)
  {
    assert !IsValueChar(' ');
    FieldIsNoBlank(f, tail);
    RunStep(" " + (PrintField(f) + tail));
    ParsePrintedField(f, tail);
    hide ParseAssignment, IsRun, Cut, IsSpace, IsValueChar, PrintField, All;
    CutExtends(f.value, tail, IsValueChar);
  }

  lemma FieldIsNoBlank(f: Field, tail: string)
    requires IsIdentifier(f.key)
    ensures var s := PrintField(f) + tail;
            s != "" && !IsSpace(s[0]) && !All(" " + s, IsSpace)
  {
    var s := PrintField(f) + tail;
    CharClasses(f.key[0]);
    hide IsSpace;
    assert s[0] == f.key[0] && (" " + s)[1] == s[0];
  }

  lemma {:induction false} FieldsAreRuns(fields: seq<Field>)
    requires fields != [] && KeysAreIdentifiers(fields)
    ensures IsRun(" " + PrintFields(fields)) <==> AllSpread(fields)
  {
    hide IsRun, PrintFields, IsIdentifier, IsSpread;
    FirstIsRun(fields);
    var rest := fields[1..];
    assert forall i :: 1 <= i < |fields| ==> fields[i] == rest[i - 1];
    if rest != [] {
      FieldsAreRuns(rest);
    }
  }

  lemma FirstIsRun(fields: seq<Field>)
    requires fields != [] && KeysAreIdentifiers(fields)
    ensures IsRun(" " + PrintFields(fields)) <==>
            IsSpread(fields[0].value) && (|fields| > 1 ==> IsRun(" " + PrintFields(fields[1..])))
  {
    PrintFieldsStep(fields);
    hide IsRun, PrintFields, Cut, IsIdentifier, PrintField, IsSpace, IsValueChar;
    var rest, v := fields[1..], Cut(fields[0].value, IsValueChar);
    SpreadField(fields[0], LaterText(fields));
    if rest == [] {
      assert v.tail + "" == v.tail;
    } else {
      PrintFieldsStep(rest);
      FieldIsNoBlank(rest[0], LaterText(rest));
      RunsJoin(v.tail, PrintFields(rest));
    }
  }

  lemma {:induction false} FieldsEnd(fields: seq<Field>)
    requires fields != []
    ensures var text := " " + PrintFields(fields);
            EndsInSpace(fields[|fields| - 1].value) || fields[|fields| - 1].value == "" || !EndsInSpace(text)
    ensures EndsInSpace(fields[|fields| - 1].value) ==> EndsInSpace(" " + PrintFields(fields))
  {
    PrintFieldsStep(fields);
    hide PrintFields, IsSpace;
    var rest := fields[1..];
    if rest != [] {
      FieldsEnd(rest);
      assert rest[|rest| - 1] == fields[|fields| - 1];
      SuffixEnds(" " + PrintField(fields[0]), " " + PrintFields(rest));
      Associate(" ", PrintField(fields[0]), " " + PrintFields(rest));
    } else {
      var f := fields[0];
      if f.value != "" {
        SuffixEnds(" " + (f.key + "="), f.value);
        assert " " + PrintFields(fields) == (" " + (f.key + "=")) + f.value;
      }
    }
  }

  lemma SuffixEnds(a: string, b: string)
    requires b != ""
    ensures EndsInSpace(a + b) <==> EndsInSpace(b)
  {
    hide IsSpace;
  }

  /** The printed fields read as assignments exactly when every value is one, perhaps
      run on into more, and the last does not end in a blank. */
  lemma PrintedSets(fields: seq<Field>)
    requires fields != [] && KeysAreIdentifiers(fields)
    ensures ParseSets(" " + PrintFields(fields)).Some? <==>
            AllSpread(fields) && !EndsInSpace(fields[|fields| - 1].value)
  {
    hide ParseSets, IsRun, PrintFields, IsIdentifier, Cut, EndsInSpace;
    SetsAreRuns(" " + PrintFields(fields));
    FieldsAreRuns(fields);
    FieldsEnd(fields);
    SpreadIsNotEmpty();
    assert AllSpread(fields) ==> IsSpread(fields[|fields| - 1].value);
  }

  lemma SpreadIsNotEmpty()
    ensures !IsSpread("")
  {
  }

  /** A blank-free value runs on into nothing. */
  lemma BlankFreeSpread(value: string)
    requires All(value, NotSpace)
    ensures IsSpread(value) <==> IsValue(value)
  {
    hide IsSpace, IsValueChar;
    var v := Cut(value, IsValueChar);
    if v.tail == "" {
      assert v.head == value;
    } else {
      assert v.tail[0] == value[|v.head|] && NotSpace(value[|v.head|]);
      assert Cut(v.tail, IsSpace).head == "";
    }
  }

  lemma SelectorIsSafe(name: string)
    requires All(name, IsSelectorChar)
    ensures All(name, IsSafeChar)
  {
    assert forall i :: 0 <= i < |name| && IsSelectorChar(name[i]) ==> IsSafeChar(name[i]);
  }

  lemma SafeConcat(a: string, b: string)
    ensures All(a + b, IsSafeChar) <==> All(a, IsSafeChar) && All(b, IsSafeChar)
  {
    hide IsSafeChar;
    assert forall i :: 0 <= i < |a| ==> a[i] == (a + b)[i];
    assert forall i :: 0 <= i < |b| ==> b[i] == (a + b)[|a| + i];
  }

  lemma RevertIsSafe(name: string, fields: seq<Field>)
    requires fields != [] && All(name, IsSelectorChar) && KeysAreIdentifiers(fields)
    ensures All(PrintRevert(name, fields), IsSafeChar) <==> ValuesAre(fields, IsSafeChar)
  {
    PrintFieldsAreSafe(fields);
    SelectorIsSafe(name);
    FixedTextIsSafe();
    hide PrintFields, IsSafeChar, IsSelectorChar, IsIdentifier;
    var text := PrintFields(fields);
    SafeConcat("\"] ", text);
    SafeConcat(name, "\"] " + text);
    SafeConcat(SET_PREFIX, name + ("\"] " + text));
  }

  lemma FixedTextIsSafe()
    ensures All(SET_PREFIX, IsSafeChar) && All("\"] ", IsSafeChar)
  {
  }

  lemma SignsAreSafe()
    ensures All(" ", IsSafeChar) && All("=", IsSafeChar)
  {
  }

  lemma IdentifierIsSafe(key: string)
    requires IsIdentifier(key)
    ensures All(key, IsSafeChar)
  {
    assert forall i :: 0 <= i < |key| && IsIdChar(key[i]) ==> IsSafeChar(key[i]);
  }

  lemma FieldIsSafe(f: Field)
    requires IsIdentifier(f.key)
    ensures All(PrintField(f), IsSafeChar) <==> All(f.value, IsSafeChar)
  {
    IdentifierIsSafe(f.key);
    SignsAreSafe();
    hide IsSafeChar, All, IsIdentifier;
    SafeConcat(f.key, "=");
    SafeConcat(f.key + "=", f.value);
  }

  lemma {:induction false} PrintFieldsAreSafe(fields: seq<Field>)
    requires fields != [] && KeysAreIdentifiers(fields)
    ensures All(PrintFields(fields), IsSafeChar) <==> ValuesAre(fields, IsSafeChar)
  {
    PrintFieldsStep(fields);
    FieldIsSafe(fields[0]);
    SignsAreSafe();
    hide PrintFields, IsSafeChar, All, IsIdentifier, PrintField;
    SafeConcat(PrintField(fields[0]), LaterText(fields));
    var rest := fields[1..];
    assert forall i :: 1 <= i < |fields| ==> fields[i] == rest[i - 1];
    if rest != [] {
      PrintFieldsAreSafe(rest);
      SafeConcat(" ", PrintFields(rest));
    } else {
      EmptyIsSafe();
    }
  }

  lemma EmptyIsSafe()
    ensures All("", IsSafeChar)
  {
  }

  /** The printed command is accepted exactly when the name stays in the selector's
      class, every value is one, perhaps run on into further assignments, the last ends
      in no blank, no value holds an unsafe character, and the text fits in 500
      characters and names no denied verb. */
  lemma PrintedAccepted(name: string, fields: seq<Field>)
    requires fields != [] && KeysAreIdentifiers(fields)
    ensures ValidCommand(PrintRevert(name, fields)) <==>
            && All(name, IsSelectorChar) && AllSpread(fields) && !EndsInSpace(fields[|fields| - 1].value)
            && ValuesAre(fields, IsSafeChar)
            && |PrintRevert(name, fields)| <= MAX_LENGTH && !IsDenied(PrintRevert(name, fields))
  {
    hide ParseCommand, ParseSets, PrintFields, IsDenied, IsRun, IsIdentifier, Cut, EndsInSpace, AllSpread, PrintRevert,
      IsSafeChar, IsSelectorChar, ValuesAre;
    var s := PrintRevert(name, fields);
    PrintedSets(fields);
    if ParseCommand(s).Some? {
      PrintedNameIsClean(name, fields);
    }
    if All(name, IsSelectorChar) && ParseSets(" " + PrintFields(fields)).Some? {
      ParsedMatches(name, fields);
      ParsedIsNotBlank(s);
    }
    if All(name, IsSelectorChar) {
      RevertIsSafe(name, fields);
    }
  }

  lemma ParsedMatches(name: string, fields: seq<Field>)
    requires All(name, IsSelectorChar) && ParseSets(" " + PrintFields(fields)).Some?
    ensures ParseCommand(PrintRevert(name, fields)).Some?
  {
    var sets := ParseSets(" " + PrintFields(fields)).value;
    ParseSetsSound(" " + PrintFields(fields));
    assert sets != [];
    hide PrintFields, ParseCommand, ParseSets, WellFormedSets, PrintRevert;
    RenderedMatches(name, fields, sets);
  }

  lemma ParsedIsNotBlank(s: string)
    requires ParseCommand(s).Some?
    ensures Strip(s) != ""
  {
    hide *;
    ValidCommandEnds(s);
    SlashIsNoSpace();
    StripNothing(s);
  }

  lemma SlashIsNoSpace()
    ensures !IsSpace('/')
  {
  }

  // ---- Denied verbs ----

  lemma {:induction false} ContainsSomewhere(s: string, part: string) returns (i: nat)
    requires Contains(s, part)
    ensures i <= |s| && part <= s[i..]
  {
    if part <= s {
      i := 0;
    } else {
      var k := ContainsSomewhere(s[1..], part);
      i := k + 1;
    }
  }

  predicate NotSlash(c: char) { c != '/' }

  /** Every denied verb opens with a slash before an `s` or a `u`. */
  predicate OpensDenied(s: string, i: nat) {
    i + 1 < |s| && s[i] == '/' && (s[i + 1] == 's' || s[i + 1] == 'u')
  }

  lemma DeniedOpens(s: string) returns (i: nat)
    requires IsDenied(s)
    ensures OpensDenied(Lower(s), i)
  {
    var k :| 0 <= k < |DENIED| && Contains(Lower(s), DENIED[k]);
    var verb := DENIED[k];
    VerbsOpen(k);
    hide Lower, IsDenied;
    i := ContainsSomewhere(Lower(s), verb);
    assert Lower(s)[i..][0] == verb[0] && Lower(s)[i..][1] == verb[1];
  }

  lemma VerbsOpen(k: nat)
    requires k < |DENIED|
    ensures OpensDenied(DENIED[k], 0)
  {
  }

  lemma LowerKeeps(s: string, i: nat)
    requires i < |s|
    ensures Lower(s)[i] == LowerChar(s[i])
  {
  }

  lemma PrefixSlashes(i: nat)
    requires i < |SET_PREFIX| && SET_PREFIX[i] == '/'
    ensures i + 1 < |SET_PREFIX| && (SET_PREFIX[i + 1] == 'i' || SET_PREFIX[i + 1] == 'w')
  {
  }

  /** A slash of the printed prefix opens no denied verb, and nothing after it does. */
  lemma OnlyTwoSlashes(rest: string, i: nat)
    requires All(rest, NotSlash)
    ensures !OpensDenied(Lower(SET_PREFIX + rest), i)
  {
    SlashFollowed(SET_PREFIX, rest, i);
    if i < |SET_PREFIX| && SET_PREFIX[i] == '/' {
      PrefixSlashes(i);
      LowerOthers(SET_PREFIX[i + 1]);
    }
  }

  lemma LowerOthers(c: char)
    requires c == 'i' || c == 'w'
    ensures LowerChar(c) != 's' && LowerChar(c) != 'u'
  {
  }

  /** Where a text that goes on without slashes can open a denied verb. */
  lemma SlashFollowed(prefix: string, rest: string, i: nat)
    requires All(rest, NotSlash)
    ensures OpensDenied(Lower(prefix + rest), i) && i + 1 < |prefix| ==>
              prefix[i] == '/' && (LowerChar(prefix[i + 1]) == 's' || LowerChar(prefix[i + 1]) == 'u')
    ensures OpensDenied(Lower(prefix + rest), i) ==> i < |prefix| && prefix[i] == '/'
  {
    var s := prefix + rest;
    hide Lower;
    if i + 1 < |s| {
      LowerKeeps(s, i);
      LowerKeeps(s, i + 1);
      SlashKept(s[i]);
      assert |prefix| <= i ==> NotSlash(rest[i - |prefix|]);
    }
    LowerLength(s);
  }

  lemma SlashKept(c: char)
    ensures LowerChar(c) == '/' <==> c == '/'
  {
  }

  lemma LowerLength(s: string)
    ensures |Lower(s)| == |s|
  {
  }

  /** A printed revert whose name and fields hold no slash names no denied verb. */
  lemma SlashFreeIsAllowed(name: string, fields: seq<Field>)
    requires All(name, NotSlash) && All(PrintFields(fields), NotSlash)
    ensures !IsDenied(PrintRevert(name, fields))
  {
    hide IsDenied, PrintFields, OpensDenied, Lower;
    if IsDenied(PrintRevert(name, fields)) {
      var i := DeniedOpens(PrintRevert(name, fields));
      var rest := name + ("\"] " + PrintFields(fields));
      assert All(rest, NotSlash);
      OnlyTwoSlashes(rest, i);
      assert false;
    }
  }

  // ---- The printed revert command and the device's reader ----

  function MapOf(fields: seq<Field>): map<string, string> {
    if fields == [] then map[]
    else
      var last := fields[|fields| - 1];
      MapOf(fields[..|fields| - 1])[last.key := last.value]
  }

  lemma CutToken(f: Field)
    requires IsIdentifier(f.key)
    ensures Cut(PrintField(f), NotEquals) == Parts(f.key, "=" + f.value)
  {
    assert PrintField(f) == f.key + ("=" + f.value);
    assert All(f.key, NotEquals) by {
      assert forall i :: 0 <= i < |f.key| && IsIdChar(f.key[i]) ==> NotEquals(f.key[i]);
    }
    CutAt(f.key, "=" + f.value, NotEquals);
  }

  lemma {:induction false} ReadPrintedTokens(fields: seq<Field>)
    requires KeysAreIdentifiers(fields)
    ensures ReadTokens(Tokens(fields)) == MapOf(fields)
  {
    if fields != [] {
      var n := |fields| - 1;
      assert Tokens(fields)[..n] == Tokens(fields[..n]);
      CutToken(fields[n]);
      ReadPrintedTokens(fields[..n]);
    }
  }

  lemma SplitPrintedFields(fields: seq<Field>)
    requires fields != [] && KeysAreIdentifiers(fields) && ValuesAre(fields, NotBlank)
    ensures Split(PrintFields(fields), " ") == Tokens(fields)
  {
    var tokens := Tokens(fields);
    forall i | 0 <= i < |tokens|
      ensures ' ' !in tokens[i]
    {
      TokenHasNoBlank(fields[i]);
    }
    SplitJoin(tokens, " ");
  }

  lemma TokenHasNoBlank(f: Field)
    requires IsIdentifier(f.key) && All(f.value, NotBlank)
    ensures ' ' !in PrintField(f)
  {
    assert forall i :: 0 <= i < |f.key| && IsIdChar(f.key[i]) ==> f.key[i] != ' ';
    assert forall i :: 0 <= i < |f.value| ==> NotBlank(f.value[i]);
  }

  lemma OnlySetStarts(t: string)
    ensures !(LOG_PREFIX <= SET_PREFIX + t) && !(REMOVE_PREFIX <= SET_PREFIX + t)
  {
    var s := SET_PREFIX + t;
    assert s[0] == '/' && s[1] == 'i';
    assert LOG_PREFIX[0] == ':' && REMOVE_PREFIX[1] == 's';
  }

  lemma QuotedRead(prefix: string, name: string, rest: string)
    requires All(name, NotQuote) && rest != "" && rest[0] == '"'
    ensures ReadQuoted(prefix + (name + rest), prefix) == if name == "" then None else Some(Parts(name, rest))
  {
    DropToken(prefix, name + rest);
    CutAt(name, rest, NotQuote);
  }

  lemma ReadPrinted(name: string, text: string)
    requires All(name, NotQuote) && text != "" && All(text, NotNewline)
    ensures ReadStatement(SET_PREFIX + (name + ("\"] " + text))) ==
            if name == "" then Unknown else SetWireless(name, ReadTokens(Split(text, " ")))
  {
    var rest := "\"] " + text;
    OnlySetStarts(name + rest);
    QuotedRead(SET_PREFIX, name, rest);
    DropToken("\"] ", text);
    assert All(rest, NotNewline) && "\"] " <= rest;
    hide ReadTokens, Split, Cut, Drop, All;
    assert !IsLog(SET_PREFIX + (name + rest));
    assert ReadQuoted(SET_PREFIX + (name + rest), REMOVE_PREFIX).None?;
    hide ReadQuoted, IsLog;
  }

  lemma SafeTextHasNoNewline(s: string)
    requires All(s, IsSafeChar)
    ensures All(s, NotNewline)
  {
    assert forall i :: 0 <= i < |s| && IsSafeChar(s[i]) ==> NotNewline(s[i]);
  }

  lemma PrintFieldsNotEmpty(fields: seq<Field>)
    requires fields != []
    ensures PrintFields(fields) != ""
  {
    PrintFieldsStep(fields);
  }

  lemma SuffixSatisfies(a: string, b: string, c: string, d: string, p: char -> bool)
    requires All(a + (b + (c + d)), p)
    ensures All(d, p)
  {
    var s := a + (b + (c + d));
    assert forall i :: 0 <= i < |d| ==> d[i] == s[|s| - |d| + i];
  }

  /** What the device makes of an accepted printed command, whatever the values. */
  lemma ReadAccepted(name: string, fields: seq<Field>)
    requires fields != [] && ValidCommand(PrintRevert(name, fields))
    ensures ReadStatement(PrintRevert(name, fields)) ==
            if name == "" then Unknown else SetWireless(name, ReadTokens(Split(PrintFields(fields), " ")))
  {
    hide ParseCommand, ReadStatement, IsDenied;
    var s, text := PrintRevert(name, fields), PrintFields(fields);
    PrintFieldsNotEmpty(fields);
    PrintedNameIsClean(name, fields);
    SelectorHasNoQuote(name);
    SafeTextHasNoNewline(s);
    hide PrintFields, IsSafeChar, ValidCommand;
    SuffixSatisfies(SET_PREFIX, name, "\"] ", text, NotNewline);
    ReadPrinted(name, text);
  }

  lemma {:induction false} MapOfLooksUp(fields: seq<Field>, j: nat)
    requires DistinctKeys(fields) && j < |fields|
    ensures fields[j].key in MapOf(fields) && MapOf(fields)[fields[j].key] == fields[j].value
  {
    var n := |fields| - 1;
    if j < n {
      MapOfLooksUp(fields[..n], j);
      assert fields[j].key != fields[n].key;
    }
  }

  lemma {:induction false} SplitPiecesHaveNoBlank(s: string)
    ensures AllNotBlank(Split(s, " "))
  {
    if s != "" {
      SplitPiecesHaveNoBlank(s[1..]);
    }
  }

  predicate AllNotBlank(tokens: seq<string>) {
    forall i :: 0 <= i < |tokens| ==> All(tokens[i], NotBlank)
  }

  lemma TokenValueHasNoBlank(token: string)
    requires All(token, NotBlank)
    ensures var c := Cut(token, NotEquals); c.tail == "" || All(c.tail[1..], NotBlank)
  {
    var c := Cut(token, NotEquals);
    assert forall i :: 0 <= i < |c.tail| ==> c.tail[i] == token[|c.head| + i];
  }

  lemma {:induction false} ReadValuesHaveNoBlank(tokens: seq<string>)
    requires AllNotBlank(tokens)
    ensures forall k :: k in ReadTokens(tokens) ==> All(ReadTokens(tokens)[k], NotBlank)
  {
    if tokens != [] {
      var n := |tokens| - 1;
      TokenValueHasNoBlank(tokens[n]);
      hide Cut, NotBlank;
      ReadValuesHaveNoBlank(tokens[..n]);
    }
  }

  /** An accepted printed command restores exactly the printed fields on exactly the
      printed interface if and only if the name is not empty and no value holds a
      blank: the printer does not quote values. */
  lemma ReadsBackExactly(name: string, fields: seq<Field>)
    requires fields != [] && KeysAreIdentifiers(fields) && DistinctKeys(fields)
    requires ValidCommand(PrintRevert(name, fields))
    ensures ReadStatement(PrintRevert(name, fields)) == SetWireless(name, MapOf(fields))
            <==> name != "" && ValuesAre(fields, NotBlank)
  {
    ReadAccepted(name, fields);
    hide ValidCommand, ReadStatement, PrintRevert, Split, ReadTokens, PrintFields;
    var tokens := Split(PrintFields(fields), " ");
    if ValuesAre(fields, NotBlank) {
      SplitPrintedFields(fields);
      ReadPrintedTokens(fields);
    }
    if ReadTokens(tokens) == MapOf(fields) {
      SplitPiecesHaveNoBlank(PrintFields(fields));
      ReadValuesHaveNoBlank(tokens);
      forall j | 0 <= j < |fields|
        ensures All(fields[j].value, NotBlank)
      {
        MapOfLooksUp(fields, j);
      }
    }
  }

  // ---- What the device reads back ----

  /** The field map the device reads from printed fields. */
  function ReadBack(fields: seq<Field>): map<string, string> {
    ReadTokens(Split(PrintFields(fields), " "))
  }

  lemma AcceptedReadsBack(name: string, fields: seq<Field>)
    requires fields != [] && ValidCommand(PrintRevert(name, fields)) && name != ""
    ensures ReadStatement(PrintRevert(name, fields)) == SetWireless(name, ReadBack(fields))
  {
    ReadAccepted(name, fields);
    hide ValidCommand, ReadStatement, PrintRevert, ReadTokens, Split, PrintFields;
  }

  lemma {:induction false} SplitOverBlank(a: string, b: string)
    ensures Split(a + (" " + b), " ") == Split(a, " ") + Split(b, " ")
  {
    if a == "" {
      assert a + (" " + b) == " " + b && (" " + b)[1..] == b;
    } else {
      var s := a + (" " + b);
      assert s[0] == a[0] && s[1..] == a[1..] + (" " + b);
      SplitOverBlank(a[1..], b);
      if a[0] == ' ' {
        assert " " <= s && " " <= a;
        Associate([""], Split(a[1..], " "), Split(b, " "));
      } else {
        assert !(" " <= s) && !(" " <= a);
        var rest, tail := Split(a[1..], " "), Split(b, " ");
        assert (rest + tail)[0] == rest[0] && (rest + tail)[1..] == rest[1..] + tail;
        Associate([[a[0]] + rest[0]], rest[1..], tail);
      }
    }
  }

  /** The first token of a printed field still opens with its key. */
  lemma FirstPiece(f: Field)
    requires IsIdentifier(f.key)
    ensures Split(PrintField(f), " ")[0] == f.key + ("=" + Split(f.value, " ")[0])
  {
    var head := f.key + "=";
    assert forall i :: 0 <= i < |f.key| && IsIdChar(f.key[i]) ==> f.key[i] != ' ';
    PieceBefore(head, f.value);
  }

  lemma {:induction false} PieceBefore(head: string, rest: string)
    requires ' ' !in head
    ensures Split(head + rest, " ")[0] == head + Split(rest, " ")[0]
  {
    if head == "" {
      assert head + rest == rest;
    } else {
      var s := head + rest;
      assert s[0] == head[0] && s[1..] == head[1..] + rest && !(" " <= s);
      PieceBefore(head[1..], rest);
      assert [head[0]] + head[1..] == head;
      Associate([head[0]], head[1..], Split(rest, " ")[0]);
    }
  }

  lemma {:induction false} TokensHaveKey(tokens: seq<string>, i: nat, key: string, value: string)
    requires i < |tokens| && tokens[i] == key + ("=" + value) && All(key, NotEquals)
    ensures key in ReadTokens(tokens)
  {
    var n := |tokens| - 1;
    if i == n {
      CutAt(key, "=" + value, NotEquals);
    } else {
      TokensHaveKey(tokens[..n], i, key, value);
    }
  }

  lemma PrintedPieces(fields: seq<Field>)
    requires fields != []
    ensures Split(PrintFields(fields), " ") ==
            Split(PrintField(fields[0]), " ")
            + if |fields| == 1 then [] else Split(PrintFields(fields[1..]), " ")
  {
    PrintFieldsStep(fields);
    hide PrintField, PrintFields, Split;
    var first, rest := PrintField(fields[0]), fields[1..];
    if rest == [] {
      assert first + "" == first;
    } else {
      SplitOverBlank(first, PrintFields(rest));
    }
  }

  lemma {:induction false} FieldPiece(fields: seq<Field>, j: nat) returns (i: nat)
    requires KeysAreIdentifiers(fields) && j < |fields|
    ensures var pieces := Split(PrintFields(fields), " ");
            i < |pieces| && pieces[i] == fields[j].key + ("=" + Split(fields[j].value, " ")[0])
  {
    hide IsIdentifier, PrintField, PrintFields, Split;
    PrintedPieces(fields);
    if j == 0 {
      FirstPiece(fields[0]);
      i := 0;
    } else {
      var k := FieldPiece(fields[1..], j - 1);
      i := |Split(PrintField(fields[0]), " ")| + k;
    }
  }

  lemma ReadBackHasKey(fields: seq<Field>, j: nat)
    requires KeysAreIdentifiers(fields) && j < |fields|
    ensures fields[j].key in ReadBack(fields)
  {
    var i := FieldPiece(fields, j);
    var key := fields[j].key;
    assert IsIdentifier(key);
    assert All(key, NotEquals) by {
      assert forall k :: 0 <= k < |key| && IsIdChar(key[k]) ==> NotEquals(key[k]);
    }
    hide PrintFields, Split, ReadTokens;
    TokensHaveKey(Split(PrintFields(fields), " "), i, key, Split(fields[j].value, " ")[0]);
  }

  /** What is read back holds every printed key, never a blank in a value, and for
      blank-free values exactly the printed map. */
  lemma ReadBackValues(fields: seq<Field>)
    requires fields != [] && KeysAreIdentifiers(fields)
    ensures forall k :: k in ReadBack(fields) ==> All(ReadBack(fields)[k], NotBlank)
    ensures forall j :: 0 <= j < |fields| ==> fields[j].key in ReadBack(fields)
    ensures ValuesAre(fields, NotBlank) ==> ReadBack(fields) == MapOf(fields)
  {
    SplitPiecesHaveNoBlank(PrintFields(fields));
    ReadValuesHaveNoBlank(Split(PrintFields(fields), " "));
    forall j | 0 <= j < |fields| ensures fields[j].key in ReadBack(fields) {
      ReadBackHasKey(fields, j);
    }
    if ValuesAre(fields, NotBlank) {
      SplitPrintedFields(fields);
      ReadPrintedTokens(fields);
    }
    hide PrintFields, Split, ReadTokens, MapOf, Tokens;
  }

  /** The failing family: a blank and an equals sign in a value print the same text
      as two assignments. */
  lemma BlankValuePrintsTwoFields(name: string, key: string, value: string, extra: Field)
    ensures var one := [Field(key, value + (" " + PrintField(extra)))];
            var two := [Field(key, value), extra];
            PrintFields(one) == PrintFields(two) && PrintRevert(name, one) == PrintRevert(name, two)
  {
    var one := [Field(key, value + (" " + PrintField(extra)))];
    var two := [Field(key, value), extra];
    PrintFieldsStep(one);
    PrintFieldsStep(two);
    assert two[1..] == [extra];
    PrintFieldsStep([extra]);
    assert PrintField(extra) + "" == PrintField(extra);
    assert PrintFields(one) == key + "=" + (value + (" " + PrintField(extra))) + "";
    assert PrintFields(two) == (key + "=" + value) + (" " + PrintField(extra));
    assert PrintFields(one) == PrintFields(two);
  }

  /** And the device takes it for two: such a value passes the validator whenever the
      text is short and names no denied verb, is cut at its blank when it is put back,
      and sets a field nobody saved. */
  lemma BlankValueIsMisread(name: string, key: string, value: string, extra: Field)
    requires name != "" && All(name, IsSelectorChar) && key != extra.key
    requires IsIdentifier(key) && IsValue(value) && IsIdentifier(extra.key) && IsValue(extra.value)
    ensures var fields := [Field(key, value + (" " + PrintField(extra)))];
            var text, read := PrintRevert(name, fields), map[key := value, extra.key := extra.value];
            && ReadBack(fields) == read && read != MapOf(fields)
            && (|text| <= MAX_LENGTH && !IsDenied(text) ==>
                  ValidCommand(text) && ReadStatement(text) == SetWireless(name, read))
  {
    var one, two := [Field(key, value + (" " + PrintField(extra)))], [Field(key, value), extra];
    var text := PrintRevert(name, one);
    BlankValuePrintsTwoFields(name, key, value, extra);
    TwoFields(key, value, extra);
    hide PrintFields, PrintRevert, IsValue, IsIdentifier, IsDenied, ReadStatement, ValidCommand, ReadBack;
    ReadBackValues(two);
    assert ReadBack(one) == ReadBack(two) by {
      SameTextReadsBack(one, two);
    }
    if |text| <= MAX_LENGTH && !IsDenied(text) {
      ProperAccepted(name, two);
      AcceptedReadsBack(name, one);
    }
  }

  lemma SameTextReadsBack(a: seq<Field>, b: seq<Field>)
    requires PrintFields(a) == PrintFields(b)
    ensures ReadBack(a) == ReadBack(b)
  {
  }

  lemma TwoFields(key: string, value: string, extra: Field)
    requires key != extra.key
    requires IsIdentifier(key) && IsValue(value) && IsIdentifier(extra.key) && IsValue(extra.value)
    ensures var two := [Field(key, value), extra];
            && ProperFields(two) && KeysAreIdentifiers(two) && ValuesAre(two, NotBlank)
            && MapOf(two) == map[key := value, extra.key := extra.value]
    ensures MapOf([Field(key, value + (" " + PrintField(extra)))]) !=
            map[key := value, extra.key := extra.value]
  {
    ValueHasNoBlank(value);
    ValueHasNoBlank(extra.value);
    hide IsIdentifier, IsValue, PrintField, NotBlank;
    var one, two := [Field(key, value + (" " + PrintField(extra)))], [Field(key, value), extra];
    assert two[..1] == [Field(key, value)] && [Field(key, value)][..0] == [] && one[..0] == [];
    assert MapOf([Field(key, value)]) == map[key := value];
    assert MapOf(two) == MapOf([Field(key, value)])[extra.key := extra.value];
    assert two[0].key == key && two[1] == extra;
    assert extra.key !in MapOf(one);
  }

  lemma ValueHasNoBlank(value: string)
    requires IsValue(value)
    ensures All(value, NotBlank)
  {
    assert forall i :: 0 <= i < |value| && IsValueChar(value[i]) ==> NotBlank(value[i]);
  }

  lemma ProperAccepted(name: string, fields: seq<Field>)
    requires fields != [] && All(name, IsSelectorChar) && ProperFields(fields)
    requires |PrintRevert(name, fields)| <= MAX_LENGTH && !IsDenied(PrintRevert(name, fields))
    ensures ValidCommand(PrintRevert(name, fields))
  {
    assert KeysAreIdentifiers(fields);
    hide PrintRevert, IsIdentifier, IsDenied, ValidCommand, IsSpread, EndsInSpace;
    forall i | 0 <= i < |fields|
      ensures IsSpread(fields[i].value) && !EndsInSpace(fields[i].value) && All(fields[i].value, IsSafeChar)
    {
      ValueIsSpread(fields[i].value);
    }
    PrintedAccepted(name, fields);
  }

  lemma ValueIsSpread(value: string)
    requires IsValue(value)
    ensures IsSpread(value) && !EndsInSpace(value) && All(value, IsSafeChar)
  {
    forall i | 0 <= i < |value| ensures NotSpace(value[i]) && IsSafeChar(value[i]) {
      assert IsValueChar(value[i]);
      CharClasses(value[i]);
    }
    BlankFreeSpread(value);
  }

  // ---- The whole script ----

  lemma DeadManNameIsPlain(name: string)
    requires IsDeadManName(name)
    ensures All(name, NotQuote) && ';' !in name && name != "" && SolidEnds(name)
  {
    var prefix := "deadman-";
    forall i | 0 <= i < |name|
      ensures name[i] != '"' && name[i] != ';' && !IsSpace(name[i])
    {
      if i < 8 {
        assert name[i] == prefix[i];
      } else {
        assert IsHex(name[i]);
      }
    }
  }

  predicate IsStatementText(s: string) {
    Strip(s) == s && ';' !in s
  }

  lemma LogIsStatementText(name: string)
    requires ';' !in name
    ensures IsStatementText(PrintLog(name))
  {
    var s := PrintLog(name);
    assert s[0] == ':' && s[|s| - 1] == '"';
    StripNothing(s);
    hide Strip;
    assert ';' !in LOG_PREFIX && ';' !in "mcp-mikrotik dead-man reverting ";
  }

  lemma RemoveIsStatementText(name: string)
    requires ';' !in name
    ensures IsStatementText(PrintRemove(name))
  {
    var s := PrintRemove(name);
    assert s[0] == '/' && s[|s| - 1] == ']';
    StripNothing(s);
    hide Strip;
    assert ';' !in REMOVE_PREFIX;
  }

  lemma LogReads(name: string)
    requires All(name, NotQuote)
    ensures ReadStatement(PrintLog(name)) == Log
  {
    var text := "mcp-mikrotik dead-man reverting " + name;
    DropToken(LOG_PREFIX, text + "\"");
    assert All("mcp-mikrotik dead-man reverting ", NotQuote);
    CutAt(text, "\"", NotQuote);
  }

  lemma RemoveReads(name: string)
    requires All(name, NotQuote) && name != ""
    ensures ReadStatement(PrintRemove(name)) == RemoveScheduler(name)
  {
    var s := PrintRemove(name);
    assert s[0] == '/' && s[1] == 's';
    assert !(LOG_PREFIX <= s) && !(SET_PREFIX <= s) by {
      assert LOG_PREFIX[0] == ':' && SET_PREFIX[1] == 'i';
    }
    DropToken(REMOVE_PREFIX, name + "\"]");
    CutAt(name, "\"]", NotQuote);
  }

  function ScriptParts(name: string, commands: seq<string>): seq<string> {
    [PrintLog(name)] + (commands + [PrintRemove(name)])
  }

  predicate AreStatementTexts(parts: seq<string>) {
    forall i :: 0 <= i < |parts| ==> IsStatementText(parts[i])
  }

  lemma CommandsAreStatementTexts(commands: seq<string>)
    requires ValidCommands(commands)
    ensures AreStatementTexts(commands)
  {
    hide ValidCommand, Strip;
    forall i | 0 <= i < |commands|
      ensures IsStatementText(commands[i])
    {
      ValidCommandShape(commands[i]);
    }
  }

  lemma PartsAreStatementTexts(name: string, commands: seq<string>)
    requires IsDeadManName(name) && ValidCommands(commands)
    ensures AreStatementTexts(ScriptParts(name, commands))
  {
    hide ValidCommand, IsStatementText, PrintLog, PrintRemove;
    DeadManNameIsPlain(name);
    LogIsStatementText(name);
    RemoveIsStatementText(name);
    CommandsAreStatementTexts(commands);
  }

  /** Splitting the built script gives the log statement, the commands in order and
      the self-remove: no command adds, merges or hides a statement. */
  lemma SplitScript(name: string, commands: seq<string>)
    requires IsDeadManName(name) && ValidCommands(commands)
    ensures Split(BuildScript(name, commands), "; ") == ScriptParts(name, commands)
  {
    PartsAreStatementTexts(name, commands);
    hide ValidCommand, PrintLog, PrintRemove, Strip;
    JoinAppend(commands, [PrintRemove(name)], "; ");
    JoinAppend([PrintLog(name)], commands + [PrintRemove(name)], "; ");
    var parts := ScriptParts(name, commands);
    assert forall i :: 0 <= i < |parts| ==> IsStatementText(parts[i]);
    SplitJoin(parts, "; ");
  }

  function ReadAll(commands: seq<string>): seq<Statement> {
    seq(|commands|, i requires 0 <= i < |commands| => ReadStatement(commands[i]))
  }

  /** Read by the device, the script logs, runs the commands in order and removes
      its own entry. */
  lemma ReadBuiltScript(name: string, commands: seq<string>)
    requires IsDeadManName(name) && ValidCommands(commands)
    ensures ReadScript(BuildScript(name, commands)) == [Log] + (ReadAll(commands) + [RemoveScheduler(name)])
  {
    SplitScript(name, commands);
    PartsAreStatementTexts(name, commands);
    DeadManNameIsPlain(name);
    LogReads(name);
    RemoveReads(name);
    hide ValidCommands, PrintLog, PrintRemove, BuildScript, Split, Strip, ReadStatement, IsDeadManName, ReadAll;
    ReadParts(ScriptParts(name, commands));
    ReadAllInOrder(PrintLog(name), commands, PrintRemove(name));
  }

  lemma ReadAllInOrder(first: string, middle: seq<string>, last: string)
    ensures ReadAll([first] + (middle + [last])) ==
            [ReadStatement(first)] + (ReadAll(middle) + [ReadStatement(last)])
  {
    hide ReadStatement;
  }

  lemma ReadParts(parts: seq<string>)
    requires AreStatementTexts(parts)
    ensures seq(|parts|, i requires 0 <= i < |parts| => ReadStatement(Strip(parts[i]))) == ReadAll(parts)
  {
    assert forall i :: 0 <= i < |parts| ==> IsStatementText(parts[i]);
  }
}
