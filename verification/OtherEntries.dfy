/** The dead-man calls share the scheduler menu with the administrator: whatever is
    armed, cancelled or fired, every other entry keeps its row and its place. */
module OtherEntries {
  import opened Text
  import opened Formatting
  import opened RevertCommand
  import opened DeadManScript
  import opened Device
  import opened RowLemmas
  import opened DeadMan
  import opened DeadManStages
  import opened GuardedCalls
  import opened GuardRuns

  /** An entry of the package: its name has the dead-man shape. */
  predicate IsDeadMan(row: Row) {
    "name" in row && IsDeadManName(row["name"])
  }

  function Strangers(rows: seq<Row>): seq<Row> {
    if rows == [] then [] else (if IsDeadMan(rows[0]) then [] else [rows[0]]) + Strangers(rows[1..])
  }

  lemma {:induction false} StrangersAppend(a: seq<Row>, b: seq<Row>)
    ensures Strangers(a + b) == Strangers(a) + Strangers(b)
  {
    hide IsDeadMan;
    if a == [] {
      assert a + b == b;
    } else {
      assert (a + b)[1..] == a[1..] + b;
      StrangersAppend(a[1..], b);
      Associate(if IsDeadMan(a[0]) then [] else [a[0]], Strangers(a[1..]), Strangers(b));
    }
  }

  // ---- The invariant ----

  ghost predicate PackageBuilt(row: Row) {
    exists commands: seq<string> ::
      ValidCommands(commands) && GetOr(row, "on-event", "") == BuildScript(GetOr(row, "name", ""), commands)
  }

  /** Every dead-man on the menu was built by the package, for any validated commands,
      and the menu's ids are distinct. */
  ghost predicate Kept(rows: seq<Row>) {
    && DistinctIds(rows)
    && (forall row :: row in rows && IsDeadMan(row) ==> PackageBuilt(row))
  }

  // ---- Firing ----

  /** A validated command can rewrite wireless rows or stop the script; it can never
      remove a scheduler entry. */
  lemma CommandNeverRemoves(command: string)
    requires ValidCommand(command)
    ensures !ReadStatement(command).RemoveScheduler?
  {
    ValidCommandEnds(command);
    RemovalEnds(command);
    hide ValidCommand, ReadStatement;
  }

  lemma RemovalEnds(s: string)
    ensures ReadStatement(s).RemoveScheduler? ==> s != "" && s[|s| - 1] == ']'
  {
    hide IsLog, ReadTokens, Split;
    var removal := ReadQuoted(s, REMOVE_PREFIX);
    if ReadStatement(s).RemoveScheduler? {
      var rest := Drop(s, REMOVE_PREFIX);
      QuotedEnds(rest);
      assert rest[|rest| - 1] == s[|s| - 1];
    }
  }

  lemma QuotedEnds(rest: string)
    ensures Cut(rest, NotQuote).tail == "\"]" ==> rest != "" && rest[|rest| - 1] == ']'
  {
    var c := Cut(rest, NotQuote);
    if c.tail == "\"]" {
      assert rest == c.head + c.tail;
    }
  }

  /** Whatever entries the statements remove have dead-man names. */
  predicate RemovesDeadMen(statements: seq<Statement>) {
    forall i :: 0 <= i < |statements| && statements[i].RemoveScheduler? ==> IsDeadManName(statements[i].name)
  }

  lemma ScriptRemovesDeadMen(name: string, commands: seq<string>)
    requires IsDeadManName(name) && ValidCommands(commands)
    ensures RemovesDeadMen(ReadScript(BuildScript(name, commands)))
  {
    hide *;
    ReadBuiltScript(name, commands);
    NoCommandRemoves(commands);
    LastRemoves(ReadAll(commands), name);
  }

  predicate NoneRemoves(statements: seq<Statement>) {
    forall i :: 0 <= i < |statements| ==> !statements[i].RemoveScheduler?
  }

  lemma NoCommandRemoves(commands: seq<string>)
    requires ValidCommands(commands)
    ensures NoneRemoves(ReadAll(commands))
  {
    hide ReadStatement, ValidCommand;
    forall i | 0 <= i < |commands|
      ensures !ReadAll(commands)[i].RemoveScheduler?
    {
      CommandNeverRemoves(commands[i]);
    }
  }

  lemma LastRemoves(middle: seq<Statement>, name: string)
    requires NoneRemoves(middle) && IsDeadManName(name)
    ensures RemovesDeadMen([Log] + (middle + [RemoveScheduler(name)]))
  {
    hide IsDeadManName;
  }

  lemma {:induction false} RemoveNamedKeeps(rows: seq<Row>, name: string)
    requires IsDeadManName(name)
    ensures Strangers(RemoveNamed(rows, name)) == Strangers(rows)
  {
    hide IsDeadManName;
    if rows != [] {
      RemoveNamedKeeps(rows[1..], name);
      StrangersAppend(if Has(rows[0], "name", name) then [] else [rows[0]], RemoveNamed(rows[1..], name));
      StrangersOfOne(rows[0]);
    }
  }

  lemma StrangersOfOne(row: Row)
    ensures Strangers([row]) == if IsDeadMan(row) then [] else [row]
    ensures Strangers([]) == []
  {
    assert [row][1..] == [];
  }

  lemma {:induction false} RemoveNamedKeepsIds(rows: seq<Row>, name: string)
    ensures DistinctIds(rows) ==> DistinctIds(RemoveNamed(rows, name))
  {
    RemoveNamedKeepsSome(rows, name);
    if rows != [] && DistinctIds(rows) {
      DistinctTail(rows);
      RemoveNamedKeepsIds(rows[1..], name);
      RemoveNamedKeepsSome(rows[1..], name);
      if !Has(rows[0], "name", name) {
        DistinctCons(rows, RemoveNamed(rows[1..], name));
      }
    }
  }

  lemma DistinctTail(rows: seq<Row>)
    requires DistinctIds(rows) && rows != []
    ensures DistinctIds(rows[1..])
  {
    assert forall i :: 0 <= i < |rows[1..]| ==> rows[1..][i] == rows[i + 1];
  }

  lemma DistinctCons(rows: seq<Row>, some: seq<Row>)
    requires DistinctIds(rows) && rows != [] && DistinctIds(some)
    requires forall r :: r in some ==> r in rows[1..]
    ensures DistinctIds([rows[0]] + some)
  {
    forall i | 0 <= i < |some|
      ensures some[i][".id"] != rows[0][".id"]
    {
      assert some[i] in rows[1..];
      var j :| 0 <= j < |rows[1..]| && rows[1..][j] == some[i];
      assert rows[j + 1] == some[i];
    }
  }

  lemma {:induction false} RemoveByIdKeeps(rows: seq<Row>, id: Option<string>)
    requires forall r :: r in rows && Get(r, ".id") == id ==> IsDeadMan(r)
    ensures Strangers(RemoveById(rows, id)) == Strangers(rows)
    ensures DistinctIds(rows) ==> DistinctIds(RemoveById(rows, id))
  {
    hide IsDeadMan;
    if rows != [] {
      RemoveByIdKeeps(rows[1..], id);
      RemoveByIdKeepsSome(rows[1..], id);
      assert rows[0] in rows;
      StrangersOfOne(rows[0]);
      StrangersAppend(if Get(rows[0], ".id") == id then [] else [rows[0]], RemoveById(rows[1..], id));
      hide DistinctIds;
      if DistinctIds(rows) {
        DistinctTail(rows);
        if Get(rows[0], ".id") != id {
          DistinctCons(rows, RemoveById(rows[1..], id));
        }
      }
    }
  }

  // ---- One happening ----

  /** The menu as the package's own entries come and go. */
  ghost predicate OnlyOwnChange(rows: seq<Row>, after: seq<Row>) {
    Kept(after) && Strangers(after) == Strangers(rows)
  }

  lemma {:induction false} RunKeeps(d: Device, statements: seq<Statement>)
    requires Kept(d.scheduler) && RemovesDeadMen(statements)
    ensures OnlyOwnChange(d.scheduler, RunStatements(d, statements).scheduler)
    decreases |statements|
  {
    hide Kept, SetNamed, IsDeadManName;
    if statements != [] && !statements[0].Unknown? {
      var st, rest := statements[0], statements[1..];
      assert forall i :: 0 <= i < |rest| ==> rest[i] == statements[i + 1];
      if st.RemoveScheduler? {
        assert IsDeadManName(statements[0].name);
        RemoveNamedKeepsAll(d.scheduler, st.name);
      }
      RunKeeps(RunOne(d, st), rest);
    }
  }

  lemma RemoveNamedKeepsAll(rows: seq<Row>, name: string)
    requires Kept(rows) && IsDeadManName(name)
    ensures OnlyOwnChange(rows, RemoveNamed(rows, name))
  {
    hide IsDeadManName, PackageBuilt, DistinctIds;
    RemoveNamedKeeps(rows, name);
    RemoveNamedKeepsIds(rows, name);
    RemoveNamedKeepsSome(rows, name);
  }

  /** The entry of this name, should there be one, removes only dead-men. */
  predicate FiresHarmlessly(d: Device, name: string) {
    var entry := FindRow(d.scheduler, "name", name);
    entry.Some? ==> RemovesDeadMen(ReadScript(GetOr(entry.value, "on-event", "")))
  }

  lemma DeadMenAreHarmless(d: Device, name: string)
    requires Kept(d.scheduler) && IsDeadManName(name)
    ensures FiresHarmlessly(d, name)
  {
    var entry := FindRow(d.scheduler, "name", name);
    FoundIsMember(d.scheduler, "name", name);
    if entry.Some? {
      assert IsDeadMan(entry.value) && PackageBuilt(entry.value);
      var commands :| ValidCommands(commands) && GetOr(entry.value, "on-event", "") == BuildScript(name, commands);
      ScriptRemovesDeadMen(name, commands);
    }
  }

  lemma FireKeeps(d: Device, name: string)
    requires Kept(d.scheduler) && (IsDeadManName(name) || FiresHarmlessly(d, name))
    ensures OnlyOwnChange(d.scheduler, Fire(d, name).scheduler)
  {
    if IsDeadManName(name) {
      DeadMenAreHarmless(d, name);
    }
    hide Kept, IsDeadManName, ReadScript, RemovesDeadMen, Due;
    if CanFire(d, name) {
      RunKeeps(d, ReadScript(GetOr(FindRow(d.scheduler, "name", name).value, "on-event", "")));
    }
  }

  lemma CancelKeeps(allow: bool, d: Device, name: string, fault: Fault)
    requires Kept(d.scheduler)
    ensures OnlyOwnChange(d.scheduler, Cancel(allow, d, name, fault).scheduler)
  {
    var wanted := Strip(name);
    var entry := FindRow(d.scheduler, "name", wanted);
    FoundIsMember(d.scheduler, "name", wanted);
    hide IsDeadManName, PackageBuilt, Strip;
    if entry.Some? && IsDeadManName(wanted) {
      SameIdSameRow(d.scheduler, entry.value);
      RemoveByIdKeeps(d.scheduler, Get(entry.value, ".id"));
      RemoveByIdKeepsSome(d.scheduler, Get(entry.value, ".id"));
    }
  }

  lemma SameIdSameRow(rows: seq<Row>, entry: Row)
    requires DistinctIds(rows) && entry in rows
    ensures forall r :: r in rows && Get(r, ".id") == Get(entry, ".id") ==> r == entry
  {
  }

  /** The menu is as it was, or carries one more entry built by the package. */
  ghost predicate Adds(rows: seq<Row>, after: seq<Row>, name: string, id: string) {
    after == rows ||
    exists due: Moment, commands: seq<string> ::
      ValidCommands(commands) && after == AddRow(rows, id, SchedulerFields(name, due, commands))
  }

  lemma ArmAdds(allow: bool, w: World, a: ArmCall, fates: seq<Fault>)
    ensures Adds(w.dev.scheduler, ArmBody(allow, w, a, fates).world.dev.scheduler, a.name, a.id)
    ensures ArmBody(allow, w, a, fates).world.dev.wireless == w.dev.wireless
  {
    hide ValidCommands, DeadlineFrom, SchedulerFields, AddRow;
  }

  lemma WirelessAdds(c: Config, w: World, fates: seq<Fault>)
    ensures Adds(w.dev.scheduler, WirelessBody(c, w, Starting, fates).world.dev.scheduler, c.name, c.id)
  {
    var next, rest := Start(c, w.dev, FateOf(fates, 0)), Rest(fates);
    var w1 := AfterStart(c, w, next);
    StartsWith(c, w, fates);
    StartChoices(c, w.dev, FateOf(fates, 0));
    hide WirelessBody, Start, ValidCall, Arming, ValidCommands, RevertText, ArmBody, Adds;
    assert Adds(w.dev.scheduler, w.dev.scheduler, c.name, c.id) by {
      SameMenu(w.dev.scheduler, c.name, c.id);
    }
    match next {
      case Done(_) =>
      case Writing(before) =>
        WriteKeepsMenu(c, w1, before, rest);
      case Checked(before) =>
        var a := RevertCall(c, before);
        ArmsInside(c, w1, before, rest);
        ArmAdds(true, w1, a, rest);
        var armed := Audited(ArmTool, true, ArmBody(true, w1, a, rest));
        if !armed.outcome.Failed? {
          WriteKeepsMenu(c, armed.world, before, Rest(Rest(rest)));
        }
    }
  }

  lemma SameMenu(rows: seq<Row>, name: string, id: string)
    ensures Adds(rows, rows, name, id)
  {
  }

  lemma WriteKeepsMenu(c: Config, w: World, before: Row, fates: seq<Fault>)
    ensures WirelessBody(c, w, Writing(before), fates).world.dev.scheduler == w.dev.scheduler
  {
    EndsWith(c, w, before, fates);
    hide WirelessBody, HasId, UpdateById, Writes;
  }

  lemma AddKeeps(rows: seq<Row>, after: seq<Row>, name: string, id: string)
    requires Kept(rows) && Adds(rows, after, name, id) && IsDeadManName(name) && NoId(rows, id)
    ensures OnlyOwnChange(rows, after)
  {
    if after != rows {
      var due: Moment, commands: seq<string> :|
        ValidCommands(commands) && after == AddRow(rows, id, SchedulerFields(name, due, commands));
      EntryIsBuilt(name, id, due, commands);
      hide SchedulerFields, PackageBuilt, IsDeadManName, ValidCommands, Kept, NoId;
      BuiltRowKeeps(rows, SchedulerFields(name, due, commands)[".id" := id], id);
    }
  }

  lemma BuiltRowKeeps(rows: seq<Row>, row: Row, id: string)
    requires Kept(rows) && NoId(rows, id) && Get(row, ".id") == Some(id) && IsDeadMan(row) && PackageBuilt(row)
    ensures OnlyOwnChange(rows, rows + [row])
  {
    hide PackageBuilt, IsDeadMan;
    StrangersOfOne(row);
    StrangersAppend(rows, [row]);
    hide Strangers;
    assert Strangers(rows) + [] == Strangers(rows);
  }

  lemma EntryIsBuilt(name: string, id: string, due: Moment, commands: seq<string>)
    requires IsDeadManName(name) && ValidCommands(commands)
    ensures var row := SchedulerFields(name, due, commands)[".id" := id];
            IsDeadMan(row) && PackageBuilt(row) && Get(row, ".id") == Some(id)
  {
    hide IsDeadManName, ValidCommands, BuildScript, FormatDate, FormatTime;
    var row := SchedulerFields(name, due, commands)[".id" := id];
    assert |".id"| == 3 && |"name"| == 4 && |"on-event"| == 8 && |"interval"| == 8 && |"policy"| == 6;
    assert "on-event"[0] != "interval"[0] && |"start-date"| == 10;
    assert GetOr(row, "name", "") == name && GetOr(row, "on-event", "") == BuildScript(name, commands);
  }

  // ---- Whole runs ----

  /** What the package promises of itself and assumes of the device: entry names of
      the dead-man shape, fresh ids, and that no administrator script that fires
      removes an administrator's entry. */
  ghost predicate Regular(w: World, h: Happening) {
    match h
    case Invoked(Arms(a), _) => IsDeadManName(a.name) && NoId(w.dev.scheduler, a.id)
    case Invoked(SetsWireless(_, entry, id), _) => IsDeadManName(entry) && NoId(w.dev.scheduler, id)
    case Invoked(CancelsEntry(_, _), _) => true
    case Passes(_) => true
    case FiresEntry(name) => IsDeadManName(name) || FiresHarmlessly(w.dev, name)
  }

  ghost predicate RegularRun(allow: bool, w: World, hs: seq<Happening>)
    decreases |hs|
  {
    hs == [] || (Regular(w, hs[0]) && RegularRun(allow, Live(allow, w, hs[0]), hs[1..]))
  }

  lemma HappeningKeeps(allow: bool, w: World, h: Happening)
    requires Kept(w.dev.scheduler) && Regular(w, h)
    ensures OnlyOwnChange(w.dev.scheduler, Live(allow, w, h).dev.scheduler)
  {
    var rows := w.dev.scheduler;
    hide Kept, NoId, IsDeadManName, ArmBody, WirelessBody, Fire, FiresHarmlessly;
    match h {
      case Invoked(Arms(a), fates) =>
        ArmAdds(allow, w, a, fates);
        AddKeeps(rows, ArmBody(allow, w, a, fates).world.dev.scheduler, a.name, a.id);
      case Invoked(SetsWireless(call, entry, id), fates) =>
        var c := Config(allow, call, entry, id);
        WirelessAdds(c, w, fates);
        AddKeeps(rows, WirelessBody(c, w, Starting, fates).world.dev.scheduler, entry, id);
      case Invoked(CancelsEntry(name, confirm), fates) =>
        CancelKeeps(true, w.dev, name, FateOf(fates, 1));
        hide Cancel, FindRow, Strip;
      case Passes(seconds) => hide Now, PrintClock;
      case FiresEntry(name) => FireKeeps(w.dev, name);
    }
  }

  /** Over any run of arming, cancelling, wireless writes, passing time and firing
      entries, every entry of other origin keeps its row and its place. */
  lemma {:induction false} StrangersAreKept(allow: bool, w: World, hs: seq<Happening>)
    requires Kept(w.dev.scheduler) && RegularRun(allow, w, hs)
    ensures OnlyOwnChange(w.dev.scheduler, LiveAll(allow, w, hs).dev.scheduler)
    decreases |hs|
  {
    hide Kept, Live, Regular, Strangers;
    if hs != [] {
      HappeningKeeps(allow, w, hs[0]);
      StrangersAreKept(allow, Live(allow, w, hs[0]), hs[1..]);
    }
  }
}
