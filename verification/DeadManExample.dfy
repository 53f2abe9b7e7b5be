/** A device and a call that meet everything the run theorems ask for. */
module DeadManExample {
  import opened Text
  import opened Calendar
  import opened Formatting
  import opened RevertCommand
  import opened DeadManScript
  import opened Device
  import opened RowLemmas
  import opened DeadMan
  import opened DeadManStages
  import opened DeadManTheorems
  import opened DeadManOutcomes
  import opened DeadManProgress

  const CALL := Call("wlan1", Tuning(None, Some(Km(9))), true, 3, true)
  const CONFIG := Config(true, CALL, "deadman-0", "*2")
  const MIDNIGHT: Moment := DateTime(1, 1, 1, 0, 0, 0)

  /** The interface's row, with this distance setting. */
  function ExampleRow(distance: string): Row {
    map["name" := "wlan1", ".id" := "*1", "distance" := distance]
  }

  function ExampleDevice(distance: string): Device {
    Device([PrintClock(map[], MIDNIGHT)], [ExampleRow(distance)], [])
  }

  lemma RowFields(distance: string)
    ensures var row := ExampleRow(distance);
            Get(row, "name") == Some("wlan1") && Get(row, ".id") == Some("*1") && Get(row, "distance") == Some(distance)
  {
    assert |".id"| == 3 && |"name"| == 4 && |"distance"| == 8;
  }

  lemma SavedIs(distance: string)
    ensures var row, keys := ExampleRow(distance), RevertKeys(CALL.request);
            AllPresent(row, keys) && Saved(row, keys) == [Field("distance", distance)]
  {
    RowFields(distance);
    assert RevertKeys(CALL.request) == ["distance"];
  }

  lemma DeviceIsSetUp(distance: string)
    ensures DeviceFits(CONFIG, "*1", ExampleRow(distance), [], ExampleDevice(distance))
  {
    RowFields(distance);
    var dev, row := ExampleDevice(distance), ExampleRow(distance);
    hide PrintClock, ExampleRow;
    assert dev.wireless == [row] && dev.scheduler == [] && [row][1..] == [];
    assert Named(dev.wireless, CONFIG.call.iface) == [row];
    assert IdLinked(dev.wireless, CONFIG.call.iface, "*1");
    assert Named(dev.scheduler, CONFIG.name) == [];
    assert Others(CONFIG, dev.scheduler);
  }

  lemma NameIsDeadMan()
    ensures IsDeadManName("deadman-0")
  {
  }

  lemma RevertMapOf(distance: string)
    ensures RevertMap(CONFIG, ExampleRow(distance)) == ReadBack([Field("distance", distance)])
    ensures Faithful(CONFIG, ExampleRow(distance)) <==> All(distance, NotBlank)
  {
    SavedIs(distance);
    hide ExampleRow, Saved, RevertKeys, ReadBack;
    assert Faithful(CONFIG, ExampleRow(distance)) == ValuesAre([Field("distance", distance)], NotBlank);
    assert [Field("distance", distance)][0].value == distance;
  }

  lemma IsSetUp(distance: string)
    requires KeepsIdentity(ReadBack([Field("distance", distance)]))
    ensures Setup(CONFIG, ExampleRow(distance), ExampleDevice(distance))
  {
    NameIsDeadMan();
    RowFields(distance);
    RevertMapOf(distance);
    DeviceIsSetUp(distance);
    hide DeviceFits, IsDeadManName, Saved, RevertKeys, RevertMap, ExampleRow, ExampleDevice;
  }

  lemma FieldText(distance: string)
    ensures PrintFields([Field("distance", distance)]) == "distance=" + distance
  {
    var f := Field("distance", distance);
    PrintFieldsStep([f]);
    assert PrintField(f) + "" == "distance=" + distance;
  }

  /** What the validator lets through as a saved distance, short of its other checks. */
  predicate Passable(distance: string) {
    |distance| <= 100 && All(distance, NotSlash) && All(distance, IsSafeChar) && IsSpread(distance)
    && !EndsInSpace(distance)
  }

  lemma SelectorName()
    ensures All("wlan1", IsSelectorChar) && "wlan1" != ""
  {
  }

  lemma NothingObjects(distance: string)
    requires Passable(distance)
    ensures Objection(CALL, ExampleRow(distance)).None?
  {
    SavedIs(distance);
    FieldText(distance);
    hide Objection, Saved, RevertKeys, PrintFields, IsDenied, IsSpread, EndsInSpace, IsSafeChar, ExampleRow;
    var fields := [Field("distance", distance)];
    SelectorName();
    assert All("wlan1", NotSlash) && All("distance=", NotSlash);
    SlashFreeIsAllowed("wlan1", fields);
    RefusedExactly(CALL, ExampleRow(distance));
  }

  // ---- The clock ----

  lemma MidnightIsFirst()
    ensures Representable(MIDNIGHT) && ToSeconds(MIDNIGHT) == 0
  {
  }

  lemma FirstDay(d: DateTime)
    requires Proper(d) && ToSeconds(d) < DAY_SECONDS
    ensures Representable(d)
  {
    SplitSeconds(d);
    DayWithinYear(d);
    ToSecondsNonNegative(d);
    hide ToSeconds, DayNumber, DaysBeforeYear;
    assert DayNumber(d) == 1 && DaysBeforeYear(2) >= 1;
    if d.year > 1 {
      YearsDoNotOverlap(1, d.year);
    }
  }

  /** The device's clock a while into its first day. */
  function Early(seconds: nat): Moment
    requires seconds < DAY_SECONDS
  {
    var d := FromSeconds(seconds);
    FirstDay(d);
    d
  }

  lemma EarlyMinutes(t: DateTime, seconds: nat)
    requires Representable(t) && ToSeconds(t) == 0 && seconds < DAY_SECONDS
    ensures AddSeconds(t, seconds) == At(Early(seconds)) && ToSeconds(Early(seconds)) == seconds
  {
    FirstDay(FromSeconds(seconds));
    hide FromSeconds, ToSeconds;
  }

  lemma DeadlineOfReadClock(clock: seq<Row>, t: Moment)
    requires Now(clock) == Option<DateTime>.Some(t) && ToSeconds(t) == 0
    ensures DeadlineFrom(clock, 3) == DueAt(Early(180))
  {
    hide Now, AddSeconds, ToSeconds, Early, FromSeconds, ParseRosDateTime;
    NowIsRepresentable(clock);
    EarlyMinutes(t, 180);
  }

  lemma ClockReads(distance: string)
    ensures Now(ExampleDevice(distance).clock) == Option<DateTime>.Some(MIDNIGHT)
  {
    PrintedClockReads(map[], MIDNIGHT, []);
    hide Now, PrintClock;
    assert [PrintClock(map[], MIDNIGHT)] + [] == ExampleDevice(distance).clock;
  }

  lemma DeadlineExists(distance: string)
    ensures DeadlineFrom(ExampleDevice(distance).clock, 3) == DueAt(Early(180))
  {
    MidnightIsFirst();
    ClockReads(distance);
    hide Now, ToSeconds, ExampleDevice, DeadlineFrom;
    DeadlineOfReadClock(ExampleDevice(distance).clock, MIDNIGHT);
  }

  lemma LaterIsDue(dev: Device, t: Moment)
    requires Now(dev.clock) == Option<DateTime>.Some(t) && ToSeconds(t) == 0
    ensures PastDue(Elapse(dev, 180).clock, Early(180))
  {
    hide Now, AddSeconds, ToSeconds, Early, PrintClock, FromSeconds, ParseRosDateTime;
    NowIsRepresentable(dev.clock);
    EarlyMinutes(t, 180);
    PrintedClockReads(dev.clock[0], Early(180), dev.clock[1..]);
  }

  lemma ThreeMinutesLater(distance: string)
    ensures PastDue(Elapse(ExampleDevice(distance), 180).clock, Early(180))
  {
    MidnightIsFirst();
    ClockReads(distance);
    hide Now, ToSeconds, ExampleDevice, PastDue, Elapse;
    LaterIsDue(ExampleDevice(distance), MIDNIGHT);
  }

  lemma SomethingChanges(distance: string)
    requires distance != "9"
    ensures Differs(CONFIG, ExampleRow(distance), ChangedRow(CONFIG, ExampleRow(distance)))
  {
    var row := ExampleRow(distance);
    RowFields(distance);
    NineIsWritten();
    hide ExampleRow, Writes;
    assert RevertKeys(CALL.request)[0] == "distance";
    assert Get(ChangedRow(CONFIG, row), "distance") == Some("9");
  }

  lemma NineIsWritten()
    ensures Writes(CALL.request) == map["distance" := "9"]
  {
    assert Decimal(9) == "9";
  }

  lemma GoesThrough(distance: string)
    requires Passable(distance) && KeepsIdentity(ReadBack([Field("distance", distance)])) && distance != "9"
    ensures var row, dev := ExampleRow(distance), ExampleDevice(distance);
            && Setup(CONFIG, row, dev) && LetThrough(CONFIG, row, dev)
            && Differs(CONFIG, row, ChangedRow(CONFIG, row))
            && PastDue(Elapse(dev, 180).clock, DueMoment(CONFIG, dev))
  {
    hide Setup, Objection, Differs, PastDue, DeadlineFrom, Elapse, Early, ExampleDevice, ExampleRow, Passable,
      KeepsIdentity, ReadBack;
    IsSetUp(distance);
    NothingObjects(distance);
    DeadlineExists(distance);
    ThreeMinutesLater(distance);
    SomethingChanges(distance);
  }

  /** The hypotheses of the run theorems hold together: this call goes through, changes
      something, saves no blank, and can have its window pass. */
  lemma ExampleIsProtected()
    ensures var row, dev := ExampleRow("dynamic"), ExampleDevice("dynamic");
            && Setup(CONFIG, row, dev) && LetThrough(CONFIG, row, dev) && Faithful(CONFIG, row)
            && Differs(CONFIG, row, ChangedRow(CONFIG, row))
            && PastDue(Elapse(dev, 180).clock, DueMoment(CONFIG, dev))
  {
    PlainDistance();
    hide Passable, ReadBack;
    RevertMapOf("dynamic");
    hide Setup, LetThrough, Faithful, Differs, PastDue, Elapse, ExampleRow, ExampleDevice;
    GoesThrough("dynamic");
  }

  lemma PlainDistance()
    ensures Passable("dynamic") && All("dynamic", NotBlank)
    ensures KeepsIdentity(ReadBack([Field("distance", "dynamic")]))
  {
    hide IsValue, IsSpread, EndsInSpace, IsSafeChar, NotBlank, ReadBack, IsIdentifier;
    ExampleTexts();
    ValueIsSpread("dynamic");
    ValueHasNoBlank("dynamic");
    PlainReadsBack("distance", "dynamic");
    DistanceIsNoIdentity();
  }

  lemma ExampleTexts()
    ensures IsValue("dynamic") && All("dynamic", NotSlash) && IsIdentifier("distance")
    ensures IsValue("y") && IsIdentifier("x") && All("x=y", NotSlash)
  {
  }

  lemma PlainReadsBack(key: string, value: string)
    requires IsIdentifier(key) && All(value, NotBlank)
    ensures ReadBack([Field(key, value)]) == map[key := value]
  {
    hide ReadBack, NotBlank, IsIdentifier;
    var fields := [Field(key, value)];
    assert KeysAreIdentifiers(fields) && ValuesAre(fields, NotBlank);
    ReadBackValues(fields);
    assert fields[..0] == [] && MapOf(fields) == map[key := value];
  }

  lemma DistanceIsNoIdentity()
    ensures "distance" != "name" && "distance" != ".id" && "x" != "name" && "x" != ".id" && "distance" != "x"
  {
    assert |"distance"| == 8 && |"name"| == 4 && |".id"| == 3 && |"x"| == 1;
  }

  // ---- A saved value with a blank ----

  function Blank(value: string, extra: string): string {
    value + (" " + extra)
  }

  /** A value, a blank and an assignment pass. */
  lemma BlankIsPassable(value: string, key: string, more: string)
    requires IsValue(value) && IsIdentifier(key) && IsValue(more)
    requires |value| + |key| + |more| <= 98 && All(value, NotSlash) && All(key + "=" + more, NotSlash)
    ensures Passable(Blank(value, key + "=" + more)) && !All(Blank(value, key + "=" + more), NotBlank)
  {
    var extra := key + "=" + more;
    BlankIsSafe(value, key, more);
    BlankIsSpread(value, Assignment(" ", key, more));
    assert WellFormedAssignment(Assignment(" ", key, more));
    BlankEnds(value, key, more);
    hide IsSafeChar, IsSpread, IsValue, IsIdentifier, EndsInSpace, RenderAssignment;
    var text := Blank(value, extra);
    assert text[|value|] == ' ';
    assert All(text, NotSlash);
  }

  lemma BlankEnds(value: string, key: string, more: string)
    requires IsValue(more)
    ensures var text := Blank(value, key + "=" + more);
            text == value + RenderAssignment(Assignment(" ", key, more)) && !EndsInSpace(text)
  {
    ValueIsSpread(more);
    hide IsSpace, IsSpread, IsSafeChar, IsValueChar;
    var text := Blank(value, key + "=" + more);
    assert text == value + RenderAssignment(Assignment(" ", key, more));
    assert text[|text| - 1] == more[|more| - 1];
  }

  lemma BlankIsSafe(value: string, key: string, more: string)
    requires IsValue(value) && IsIdentifier(key) && IsValue(more)
    ensures All(Blank(value, key + "=" + more), IsSafeChar)
  {
    ValueIsSpread(value);
    ValueIsSpread(more);
    IdentifierIsSafe(key);
    SignsAreSafe();
    hide IsSafeChar, IsSpread, IsValue, IsIdentifier, EndsInSpace, All;
    SafeConcat(key, "=");
    SafeConcat(key + "=", more);
    SafeConcat(" ", key + "=" + more);
    SafeConcat(value, " " + (key + "=" + more));
  }

  lemma BlankIsSpread(value: string, a: Assignment)
    requires IsValue(value) && WellFormedAssignment(a) && a.gap == " "
    ensures IsSpread(value + RenderAssignment(a))
  {
    assert !IsValueChar(' ');
    CutAt(value, RenderAssignment(a), IsValueChar);
    AssignmentIsRun(a);
  }

  lemma AssignmentIsRun(a: Assignment)
    requires WellFormedAssignment(a)
    ensures IsRun(RenderAssignment(a))
  {
    ParseAssignmentFinds(a, "");
    assert RenderAssignment(a) + "" == RenderAssignment(a);
    hide ParseAssignment, WellFormedAssignment;
    assert IsRun("");
  }

  /** The failing input: a saved distance of `dynamic x=y` is let through like any
      other, and once the dead-man has fired and gone the row is not restored. */
  lemma BlankIsNotRestored()
    ensures var row, dev := ExampleRow("dynamic x=y"), ExampleDevice("dynamic x=y");
            var pending := Next(CONFIG, Run(CONFIG, Opening(dev), Undisturbed()), Pass(180));
            && Setup(CONFIG, row, dev) && LetThrough(CONFIG, row, dev) && !Faithful(CONFIG, row)
            && exists end :: !RestoredTo(CONFIG, row, end)
                             && Settled(CONFIG, end, Next(CONFIG, pending, Fires(CONFIG.name)).dev)
  {
    BlankDistance();
    hide *;
    var distance := "dynamic x=y";
    GoesThrough(distance);
    RevertMapOf(distance);
    FullCycle(CONFIG, ExampleRow(distance), ExampleDevice(distance), 180);
  }

  lemma BlankDistance()
    ensures var distance := "dynamic x=y";
            && Passable(distance) && !All(distance, NotBlank) && distance != "9"
            && KeepsIdentity(ReadBack([Field("distance", distance)]))
  {
    hide IsValue, IsSpread, EndsInSpace, IsSafeChar, NotBlank, ReadBack, IsIdentifier, NotSlash;
    ExampleTexts();
    DistanceIsNoIdentity();
    SelectorName();
    assert "x" + "=" + "y" == "x=y";
    BlankIsPassable("dynamic", "x", "y");
    assert Blank("dynamic", "x" + "=" + "y") == "dynamic x=y";
    BlankValueIsMisread("wlan1", "distance", "dynamic", Field("x", "y"));
  }

  /** Such a value can even rename the interface, which is what `Setup` excludes. */
  lemma BlankCanRename()
    ensures var row := ExampleRow("dynamic name=x");
            var statement := ReadStatement(RevertText(CALL, row));
            && Objection(CALL, row).None?
            && statement == SetWireless("wlan1", map["distance" := "dynamic", "name" := "x"])
            && Named(RunStatements(ExampleDevice("dynamic name=x"), [statement]).wireless, "wlan1") == []
  {
    RenamingDistance();
    NothingObjects("dynamic name=x");
    RevertMapOf("dynamic name=x");
    hide Objection, Passable, ReadBack, RevertMap, RevertText, ReadStatement, ExampleRow, ExampleDevice;
    RevertReadsBack(CONFIG, ExampleRow("dynamic name=x"));
    Renamed("dynamic name=x", ReadStatement(RevertText(CALL, ExampleRow("dynamic name=x"))));
  }

  lemma RenamingDistance()
    ensures Passable("dynamic name=x")
    ensures ReadBack([Field("distance", "dynamic name=x")]) == map["distance" := "dynamic", "name" := "x"]
  {
    hide IsValue, IsSpread, EndsInSpace, IsSafeChar, NotBlank, ReadBack, IsIdentifier, NotSlash;
    ExampleTexts();
    RenamingTexts();
    DistanceIsNoIdentity();
    SelectorName();
    assert "name" + "=" + "x" == "name=x";
    BlankIsPassable("dynamic", "name", "x");
    assert Blank("dynamic", "name" + "=" + "x") == "dynamic name=x";
    BlankValueIsMisread("wlan1", "distance", "dynamic", Field("name", "x"));
  }

  lemma RenamingTexts()
    ensures IsValue("x") && IsIdentifier("name") && All("name=x", NotSlash)
  {
  }

  lemma Renamed(distance: string, statement: Statement)
    requires statement == SetWireless("wlan1", map["distance" := "dynamic", "name" := "x"])
    ensures Named(RunStatements(ExampleDevice(distance), [statement]).wireless, "wlan1") == []
  {
    RowFields(distance);
    var dev, row := ExampleDevice(distance), ExampleRow(distance);
    hide ExampleRow, PrintClock;
    assert [statement][1..] == [] && dev.wireless == [row] && [row][1..] == [];
    var after := row + statement.fields;
    assert Get(after, "name") == Some("x") && !Has(after, "name", "wlan1");
    assert SetNamed([row], "wlan1", statement.fields) == [after];
    assert [after][1..] == [];
  }
}
