/** The `set [find ...]` statements a dead-man may carry: the validator's regular
    expression as a grammar, a recogniser for it, and the printer the wireless
    writes use. */
module RevertCommand {
  import opened Text
  import opened Formatting

  const MAX_LENGTH := 500
  const MAX_COMMANDS := 10
  const DENIED: seq<string> :=
    ["/system reboot", "/system backup load", "/user", "/system reset-configuration", "/system routerboard"]

  // ---- Character classes of the pattern ----

  predicate IsIdChar(c: char) {
    IsAlnum(c) || c == '_' || c == '-'
  }

  predicate IsIdentifier(s: string) {
    s != "" && IsLetter(s[0]) && All(s, IsIdChar)
  }

  predicate IsSelectorChar(c: char) {
    IsAlnum(c) || c in " _.:/-"
  }

  predicate IsValueChar(c: char) {
    IsAlnum(c) || c in "_./:-"
  }

  predicate IsValue(s: string) {
    s != "" && All(s, IsValueChar)
  }

  predicate IsGap(s: string) {
    s != "" && All(s, IsSpace)
  }

  predicate IsPathSeparator(c: char) {
    c == ' ' || c == '/'
  }

  /** `/ID([ /]ID)*` */
  predicate IsPath(s: string) {
    && |s| >= 2 && s[0] == '/'
    && IsIdChar(s[|s| - 1])
    && forall i, j :: 0 <= i && j == i + 1 < |s| ==> IsPathStep(s[i], s[j])
  }

  predicate IsPathStep(previous: char, next: char) {
    if IsPathSeparator(previous) then IsLetter(next) else IsIdChar(next) || IsPathSeparator(next)
  }

  // ---- The grammar ----

  datatype Assignment = Assignment(gap: string, key: string, value: string)

  datatype Command = Command(path: string, gap1: string, gap2: string, gap3: string,
                             field: string, value: string, sets: seq<Assignment>)

  predicate WellFormedSets(sets: seq<Assignment>) {
    forall i :: 0 <= i < |sets| ==> WellFormedAssignment(sets[i])
  }

  predicate WellFormed(c: Command) {
    && IsPath(c.path) && IsGap(c.gap1) && IsGap(c.gap2) && IsGap(c.gap3)
    && IsIdentifier(c.field) && All(c.value, IsSelectorChar)
    && c.sets != [] && WellFormedSets(c.sets)
  }

  function RenderAssignment(a: Assignment): string {
    a.gap + (a.key + ("=" + a.value))
  }

  function RenderSets(sets: seq<Assignment>): string {
    if sets == [] then "" else RenderAssignment(sets[0]) + RenderSets(sets[1..])
  }

  function RenderHead(c: Command): string {
    c.path + c.gap1 + "set" + c.gap2
  }

  function RenderSelector(c: Command): string {
    "[find" + (c.gap3 + (c.field + ("=\"" + (c.value + "\"]"))))
  }

  function Render(c: Command): string {
    RenderHead(c) + (RenderSelector(c) + RenderSets(c.sets))
  }

  // ---- The recogniser ----

  function Drop(s: string, token: string): (r: string)
    requires token <= s
    ensures s == token + r
  {
    s[|token|..]
  }

  lemma DropToken(token: string, rest: string)
    ensures token <= token + rest && Drop(token + rest, token) == rest
  {
  }

  lemma Regroup(a: string, b: string, c: string, d: string, e: string)
    ensures a + (b + (c + (d + e))) == a + (b + (c + d)) + e
  {
  }

  predicate NotBracket(c: char) { c != '[' }
  predicate NotQuote(c: char) { c != '"' }

  datatype Step = Step(first: Assignment, rest: string)

  /** One `\s+ID=VALUE`. */
  function ParseAssignment(s: string): Option<Step> {
    var g := Cut(s, IsSpace);
    var k := Cut(g.tail, IsIdChar);
    if g.head == "" || !IsIdentifier(k.head) || !("=" <= k.tail) then None
    else
      var v := Cut(Drop(k.tail, "="), IsValueChar);
      if v.head == "" then None else Some(Step(Assignment(g.head, k.head, v.head), v.tail))
  }

  predicate WellFormedAssignment(a: Assignment) {
    IsGap(a.gap) && IsIdentifier(a.key) && IsValue(a.value)
  }

  lemma ParseAssignmentSound(s: string)
    requires ParseAssignment(s).Some?
    ensures var r := ParseAssignment(s).value;
            s == RenderAssignment(r.first) + r.rest && WellFormedAssignment(r.first) && |r.rest| < |s|
  {
    var r := ParseAssignment(s).value;
    Regroup(r.first.gap, r.first.key, "=", r.first.value, r.rest);
  }

  lemma CharClasses(c: char)
    ensures IsLetter(c) ==> IsIdChar(c)
    ensures IsIdChar(c) || IsValueChar(c) ==> !IsSpace(c)
    ensures IsValueChar(c) ==> c != ']'
    ensures !IsIdChar('=')
  {
  }

  lemma CutAssignment(a: Assignment, rest: string)
    requires WellFormedAssignment(a) && (rest == "" || !IsValueChar(rest[0]))
    ensures Cut(a.value + rest, IsValueChar) == Parts(a.value, rest)
    ensures Cut(a.key + ("=" + (a.value + rest)), IsIdChar) == Parts(a.key, "=" + (a.value + rest))
    ensures Cut(a.gap + (a.key + ("=" + (a.value + rest))), IsSpace) ==
            Parts(a.gap, a.key + ("=" + (a.value + rest)))
  {
    var u := "=" + (a.value + rest);
    CharClasses(a.key[0]);
    assert u[0] == '=' && (a.key + u)[0] == a.key[0];
    CutAt(a.value, rest, IsValueChar);
    CutAt(a.key, u, IsIdChar);
    CutAt(a.gap, a.key + u, IsSpace);
  }

  lemma ParseAssignmentFinds(a: Assignment, rest: string)
    requires WellFormedAssignment(a) && (rest == "" || !IsValueChar(rest[0]))
    ensures ParseAssignment(RenderAssignment(a) + rest) == Some(Step(a, rest))
  {
    Regroup(a.gap, a.key, "=", a.value, rest);
    CutAssignment(a, rest);
    DropToken("=", a.value + rest);
  }

  function ParseSets(s: string): Option<seq<Assignment>>
    decreases |s|
  {
    if s == "" then Some([])
    else if ParseAssignment(s).None? then None
    else
      ParseAssignmentSound(s);
      var step := ParseAssignment(s).value;
      var more := ParseSets(step.rest);
      if more.None? then None else Some([step.first] + more.value)
  }

  lemma {:induction false} ParseSetsSound(s: string)
    requires ParseSets(s).Some?
    ensures WellFormedSets(ParseSets(s).value) && RenderSets(ParseSets(s).value) == s
    decreases |s|
  {
    if s != "" {
      ParseAssignmentSound(s);
      var step := ParseAssignment(s).value;
      ParseSetsSound(step.rest);
      var sets := ParseSets(s).value;
      assert sets[0] == step.first && sets[1..] == ParseSets(step.rest).value;
      assert forall i :: 1 <= i < |sets| ==> sets[i] == sets[1..][i - 1];
    }
  }

  datatype Head = Head(path: string, gap1: string, gap2: string)

  /** Everything before the bracket: path, `set` and the blanks around it. */
  function ParseHead(s: string): (r: Option<Head>) {
    var t := TrimRight(s);
    if |t| < 3 || t[|t| - 3..] != "set" then None
    else
      var u := t[..|t| - 3];
      var path := TrimRight(u);
      if !IsPath(path) || |path| == |u| || |t| == |s| then None
      else Some(Head(path, u[|path|..], s[|t|..]))
  }

  datatype Selector = Selector(gap3: string, field: string, value: string, rest: string)

  function ParseSelector(s: string): Option<Selector> {
    if !("[find" <= s) then None
    else
      var g := Cut(Drop(s, "[find"), IsSpace);
      var k := Cut(g.tail, IsIdChar);
      if g.head == "" || !IsIdentifier(k.head) || !("=\"" <= k.tail) then None
      else
        var v := Cut(Drop(k.tail, "=\""), NotQuote);
        if !All(v.head, IsSelectorChar) || !("\"]" <= v.tail) then None
        else Some(Selector(g.head, k.head, v.head, Drop(v.tail, "\"]")))
  }

  function ParseCommand(s: string): Option<Command> {
    var b := Cut(s, NotBracket);
    var head := ParseHead(b.head);
    var selector := ParseSelector(b.tail);
    if head.None? || selector.None? then None
    else
      var sets := ParseSets(selector.value.rest);
      if sets.None? || sets.value == [] then None
      else Some(Command(head.value.path, head.value.gap1, head.value.gap2, selector.value.gap3,
                        selector.value.field, selector.value.value, sets.value))
  }

  // ---- The recogniser meets the grammar ----

  lemma {:induction false} ParseSetsFinds(sets: seq<Assignment>)
    requires WellFormedSets(sets)
    ensures ParseSets(RenderSets(sets)) == Some(sets)
  {
    if sets != [] {
      var a, tail := sets[0], RenderSets(sets[1..]);
      assert WellFormedAssignment(a) && WellFormedSets(sets[1..]);
      ParseSetsFinds(sets[1..]);
      GapFirst(sets[1..]);
      ParseAssignmentFinds(a, tail);
      assert RenderSets(sets) != "" && sets == [a] + sets[1..];
    }
  }

  lemma GapFirst(sets: seq<Assignment>)
    requires WellFormedSets(sets)
    ensures RenderSets(sets) == "" || !IsValueChar(RenderSets(sets)[0])
  {
    if sets != [] {
      assert WellFormedAssignment(sets[0]);
      assert RenderSets(sets)[0] == sets[0].gap[0];
      CharClasses(sets[0].gap[0]);
    }
  }

  lemma ParseHeadFinds(c: Command)
    requires WellFormed(c)
    ensures ParseHead(RenderHead(c)) == Some(Head(c.path, c.gap1, c.gap2))
  {
    var t := c.path + c.gap1 + "set";
    TrimRightAppend(t, c.gap2);
    var u := c.path + c.gap1;
    TrimRightAppend(c.path, c.gap1);
    assert RenderHead(c)[|t|..] == c.gap2;
    assert t[..|t| - 3] == u && t[|t| - 3..] == "set" && u[|c.path|..] == c.gap1;
  }

  lemma CutSelector(c: Command, rest: string)
    requires WellFormed(c)
    ensures Cut(c.value + ("\"]" + rest), NotQuote) == Parts(c.value, "\"]" + rest)
    ensures var x := "=\"" + (c.value + ("\"]" + rest));
            && Cut(c.field + x, IsIdChar) == Parts(c.field, x)
            && Cut(c.gap3 + (c.field + x), IsSpace) == Parts(c.gap3, c.field + x)
  {
    var w := "\"]" + rest;
    var x := "=\"" + (c.value + w);
    SelectorHasNoQuote(c.value);
    CutAt(c.value, w, NotQuote);
    CharClasses(c.field[0]);
    assert x[0] == '=';
    CutAt(c.field, x, IsIdChar);
    assert (c.field + x)[0] == c.field[0];
    CutAt(c.gap3, c.field + x, IsSpace);
  }

  lemma ParseSelectorFinds(c: Command, rest: string)
    requires WellFormed(c)
    ensures ParseSelector(RenderSelector(c) + rest) == Some(Selector(c.gap3, c.field, c.value, rest))
  {
    hide IsPath, WellFormedSets;
    var w := "\"]" + rest;
    var x := "=\"" + (c.value + w);
    RegroupSelector(c, rest);
    CutSelector(c, rest);
    DropToken("\"]", rest);
    DropToken("=\"", c.value + w);
    DropToken("[find", c.gap3 + (c.field + x));
  }

  lemma RegroupSelector(c: Command, rest: string)
    ensures RenderSelector(c) + rest ==
            "[find" + (c.gap3 + (c.field + ("=\"" + (c.value + ("\"]" + rest)))))
  {
    var v := c.value + "\"]";
    assert v + rest == c.value + ("\"]" + rest);
    Regroup("[find", c.gap3, c.field, "=\"" + v, rest);
    assert ("=\"" + v) + rest == "=\"" + (v + rest);
  }

  lemma SelectorHasNoQuote(value: string)
    requires All(value, IsSelectorChar)
    ensures All(value, NotQuote)
  {
    assert forall i :: 0 <= i < |value| && IsSelectorChar(value[i]) ==> value[i] != '"';
  }

  lemma HeadHasNoBracket(c: Command)
    requires WellFormed(c)
    ensures All(RenderHead(c), NotBracket)
  {
    forall i | 0 <= i < |c.path|
      ensures c.path[i] != '['
    {
      if i > 0 {
        assert IsPathStep(c.path[i - 1], c.path[i]);
      }
    }
  }

  lemma ParseCommandFinds(c: Command)
    requires WellFormed(c)
    ensures ParseCommand(Render(c)) == Some(c)
  {
    HeadHasNoBracket(c);
    var tail := RenderSelector(c) + RenderSets(c.sets);
    assert tail[0] == '[';
    CutAt(RenderHead(c), tail, NotBracket);
    ParseHeadFinds(c);
    ParseSelectorFinds(c, RenderSets(c.sets));
    ParseSetsFinds(c.sets);
  }

  lemma ParseHeadSound(s: string)
    requires ParseHead(s).Some?
    ensures var h := ParseHead(s).value;
            IsPath(h.path) && IsGap(h.gap1) && IsGap(h.gap2) && s == h.path + h.gap1 + "set" + h.gap2
  {
    var h := ParseHead(s).value;
    var t := TrimRight(s);
    var blanks2 := TrimRightParts(s);
    var u := t[..|t| - 3];
    var blanks1 := TrimRightParts(u);
    assert h.gap2 == blanks2 && h.gap1 == blanks1;
    assert t == u + "set";
  }

  lemma ParseSelectorSound(s: string)
    requires ParseSelector(s).Some?
    ensures var r := ParseSelector(s).value;
            && IsGap(r.gap3) && IsIdentifier(r.field) && All(r.value, IsSelectorChar)
            && s == "[find" + (r.gap3 + (r.field + ("=\"" + (r.value + ("\"]" + r.rest)))))
  {
  }

  lemma ParseCommandSound(s: string)
    requires ParseCommand(s).Some?
    ensures WellFormed(ParseCommand(s).value) && Render(ParseCommand(s).value) == s
  {
    var b := Cut(s, NotBracket);
    ParseHeadSound(b.head);
    ParseSelectorSound(b.tail);
    var c := ParseCommand(s).value;
    var rest := ParseSelector(b.tail).value.rest;
    ParseSetsSound(rest);
    RegroupSelector(c, rest);
  }

  /** The recogniser accepts exactly the pattern's language, and a text has one
      reading: one path, one selector, one list of assignments. */
  lemma RecogniserMeetsGrammar(s: string, c: Command)
    ensures ParseCommand(s) == Some(c) <==> WellFormed(c) && Render(c) == s
  {
    if ParseCommand(s) == Some(c) {
      ParseCommandSound(s);
    }
    if WellFormed(c) && Render(c) == s {
      ParseCommandFinds(c);
    }
  }

  // ---- Assignments that may end in blanks ----

  predicate EndsInSpace(s: string) {
    s != "" && IsSpace(s[|s| - 1])
  }

  /** `(\s+ID=VALUE)*\s*` */
  predicate IsRun(s: string)
    decreases |s|
  {
    All(s, IsSpace) ||
    (ParseAssignment(s).Some? && (ParseAssignmentSound(s); IsRun(ParseAssignment(s).value.rest)))
  }

  lemma BlanksAreNoAssignment(s: string)
    requires All(s, IsSpace)
    ensures ParseAssignment(s).None?
  {
    CutAt(s, "", IsSpace);
    assert s + "" == s;
  }

  lemma AssignmentEnds(s: string)
    requires ParseAssignment(s).Some?
    ensures var rest := ParseAssignment(s).value.rest;
            EndsInSpace(s) <==> EndsInSpace(rest)
  {
    ParseAssignmentSound(s);
    hide ParseAssignment;
    var r := ParseAssignment(s).value;
    var value := r.first.value;
    if r.rest == "" {
      assert s[|s| - 1] == value[|value| - 1];
      CharClasses(s[|s| - 1]);
    } else {
      assert s[|s| - 1] == r.rest[|r.rest| - 1];
    }
  }

  /** A list of assignments is such a run that does not end in a blank. */
  lemma {:induction false} SetsAreRuns(s: string)
    ensures ParseSets(s).Some? <==> IsRun(s) && !EndsInSpace(s)
    decreases |s|
  {
    hide ParseAssignment;
    if s != "" {
      if ParseAssignment(s).Some? {
        ParseAssignmentSound(s);
        AssignmentEnds(s);
        SetsAreRuns(ParseAssignment(s).value.rest);
        if All(s, IsSpace) {
          BlanksAreNoAssignment(s);
        }
      }
    }
  }

  lemma CutExtends(a: string, b: string, p: char -> bool)
    requires Cut(a, p).tail != "" || b == "" || !p(b[0])
    ensures Cut(a + b, p) == Parts(Cut(a, p).head, Cut(a, p).tail + b)
  {
    var c := Cut(a, p);
    Associate(c.head, c.tail, b);
    CutAt(c.head, c.tail + b, p);
  }

  lemma NotAllBlank(s: string)
    requires !All(s, IsSpace)
    ensures Cut(s, IsSpace).tail != ""
  {
    hide IsSpace;
    assert Cut(s, IsSpace).tail == "" ==> Cut(s, IsSpace).head == s;
  }

  /** What follows the gap, read as `ID=VALUE`. */
  function ParsePair(gap: string, s: string): Option<Step> {
    var k := Cut(s, IsIdChar);
    if !IsIdentifier(k.head) || !("=" <= k.tail) then None
    else
      var v := Cut(Drop(k.tail, "="), IsValueChar);
      if v.head == "" then None else Some(Step(Assignment(gap, k.head, v.head), v.tail))
  }

  lemma ParsePairIs(s: string)
    ensures var g := Cut(s, IsSpace);
            ParseAssignment(s) == if g.head == "" then None else ParsePair(g.head, g.tail)
  {
    hide Cut, IsIdentifier, IsSpace, IsValueChar, IsIdChar;
  }

  lemma DropExtends(s: string, more: string)
    requires "=" <= s
    ensures "=" <= s + more && Drop(s + more, "=") == Drop(s, "=") + more
  {
  }

  lemma PairExtends(gap: string, s: string, more: string)
    requires more != "" && more[0] == ' '
    ensures match ParsePair(gap, s)
            case None => ParsePair(gap, s + more).None?
            case Some(step) => ParsePair(gap, s + more) == Some(Step(step.first, step.rest + more))
  {
    assert !IsIdChar(' ') && !IsValueChar(' ');
    hide Cut, IsIdentifier, IsSpace, IsValueChar, IsIdChar, All;
    var k := Cut(s, IsIdChar);
    CutExtends(s, more, IsIdChar);
    if "=" <= k.tail {
      var value := Drop(k.tail, "=");
      DropExtends(k.tail, more);
      hide Drop;
      CutExtends(value, more, IsValueChar);
    } else {
      assert !("=" <= k.tail + more);
    }
  }

  /** An assignment is read the same when a blank and more follow. */
  lemma AssignmentExtends(s: string, more: string)
    requires !All(s, IsSpace) && more != "" && more[0] == ' '
    ensures match ParseAssignment(s)
            case None => ParseAssignment(s + more).None?
            case Some(step) => ParseAssignment(s + more) == Some(Step(step.first, step.rest + more))
  {
    NotAllBlank(s);
    hide Cut, IsSpace, ParseAssignment, ParsePair;
    var g := Cut(s, IsSpace);
    CutExtends(s, more, IsSpace);
    ParsePairIs(s);
    ParsePairIs(s + more);
    PairExtends(g.head, g.tail, more);
  }

  lemma GapDecidesNothing(gap: string, s: string)
    requires IsGap(gap) && s != "" && !IsSpace(s[0])
    ensures match ParseAssignment(" " + s)
            case None => ParseAssignment(gap + s).None?
            case Some(step) => ParseAssignment(gap + s).Some? && ParseAssignment(gap + s).value.rest == step.rest
    ensures !All(gap + s, IsSpace)
  {
    CutAt(gap, s, IsSpace);
    CutAt(" ", s, IsSpace);
    assert (gap + s)[|gap|] == s[0];
    hide Cut, IsSpace, ParseAssignment, IsIdentifier;
    ParsePairIs(gap + s);
    ParsePairIs(" " + s);
  }

  lemma RunStep(s: string)
    requires !All(s, IsSpace)
    ensures IsRun(s) <==> ParseAssignment(s).Some? && IsRun(ParseAssignment(s).value.rest)
  {
    hide ParseAssignment, IsSpace;
    if ParseAssignment(s).Some? {
      ParseAssignmentSound(s);
    }
  }

  lemma SameRun(gap: string, s: string)
    requires IsGap(gap) && s != "" && !IsSpace(s[0])
    ensures IsRun(gap + s) <==> IsRun(" " + s)
  {
    GapDecidesNothing(gap, s);
    GapDecidesNothing(" ", s);
    RunStep(gap + s);
    RunStep(" " + s);
    hide ParseAssignment, IsSpace, IsRun, All;
  }

  lemma MoreBlanks(blanks: string, s: string)
    requires All(blanks, IsSpace) && s != "" && !IsSpace(s[0])
    ensures IsRun(blanks + (" " + s)) <==> IsRun(" " + s)
  {
    hide IsRun;
    Associate(blanks, " ", s);
    SameRun(blanks + " ", s);
  }

  /** Runs joined by a blank are a run. */
  lemma {:induction false} RunsJoin(a: string, b: string)
    requires b != "" && !IsSpace(b[0])
    ensures IsRun(a + (" " + b)) <==> IsRun(a) && IsRun(" " + b)
    decreases |a|
  {
    hide ParseAssignment;
    if All(a, IsSpace) {
      MoreBlanks(a, b);
    } else {
      var more := " " + b;
      var i :| 0 <= i < |a| && !IsSpace(a[i]);
      assert (a + more)[i] == a[i] && !All(a + more, IsSpace);
      AssignmentExtends(a, more);
      if ParseAssignment(a).Some? {
        ParseAssignmentSound(a);
        RunsJoin(ParseAssignment(a).value.rest, b);
      }
    }
  }

  // ---- The validator ----

  predicate IsControl(c: char) {
    '\U{0000}' <= c <= '\U{001F}' || c == '\U{007F}'
  }

  predicate IsSafeChar(c: char) {
    !IsControl(c) && c !in "$;{}\\`"
  }

  predicate IsDenied(s: string) {
    exists i :: 0 <= i < |DENIED| && Contains(Lower(s), DENIED[i])
  }

  /** `validate_revert_command` returns; false is its ValidationError. */
  predicate ValidCommand(s: string) {
    && Strip(s) != ""
    && |s| <= MAX_LENGTH
    && All(s, IsSafeChar)
    && ParseCommand(s).Some?
    && !IsDenied(s)
  }

  /** `validate_revert_commands` returns. */
  predicate ValidCommands(commands: seq<string>) {
    0 < |commands| <= MAX_COMMANDS && forall i :: 0 <= i < |commands| ==> ValidCommand(commands[i])
  }

  lemma {:induction false} SetsEndInValue(sets: seq<Assignment>)
    requires sets != [] && WellFormedSets(sets)
    ensures RenderSets(sets) != "" && IsValueChar(RenderSets(sets)[|RenderSets(sets)| - 1])
  {
    var a, tail := sets[0], RenderSets(sets[1..]);
    var r := RenderSets(sets);
    assert WellFormedAssignment(a);
    if |sets| == 1 {
      assert tail == "";
      assert r[|r| - 1] == a.value[|a.value| - 1];
    } else {
      assert WellFormedSets(sets[1..]);
      SetsEndInValue(sets[1..]);
      assert r[|r| - 1] == tail[|tail| - 1];
    }
  }

  lemma RenderedEnds(c: Command)
    requires WellFormed(c)
    ensures var s := Render(c);
            s != "" && s[0] == '/' && IsValueChar(s[|s| - 1])
  {
    var tail := RenderSets(c.sets);
    SetsEndInValue(c.sets);
    var s := Render(c);
    assert s[0] == c.path[0];
    assert s[|s| - 1] == tail[|tail| - 1];
  }

  /** A valid command starts at its slash and ends in an assigned value. */
  lemma ValidCommandEnds(s: string)
    requires ParseCommand(s).Some?
    ensures s != "" && s[0] == '/' && !IsSpace(s[|s| - 1]) && s[|s| - 1] != ']'
  {
    ParseCommandSound(s);
    RenderedEnds(ParseCommand(s).value);
    CharClasses(s[|s| - 1]);
    hide ParseCommand, Render, WellFormed, IsSpace, IsValueChar;
  }

  lemma NoSeparator(s: string)
    requires All(s, IsSafeChar)
    ensures ';' !in s
  {
    forall i | 0 <= i < |s|
      ensures s[i] != ';'
    {
      assert IsSafeChar(s[i]);
    }
  }

  /** No statement separator, and a blank-trimming reader changes nothing. */
  lemma ValidCommandShape(s: string)
    requires ValidCommand(s)
    ensures ';' !in s && Strip(s) == s && s != "" && s[0] == '/'
  {
    hide ParseCommand;
    assert Strip(s) == s && s != "" && s[0] == '/' by {
      ValidCommandEnds(s);
      assert s[0] == '/' && !IsSpace(s[|s| - 1]);
      StripNothing(s);
    }
    assert ';' !in s by {
      NoSeparator(s);
    }
  }
}
