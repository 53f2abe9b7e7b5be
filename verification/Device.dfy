/** The device as the test double in tests/fakes.py gives it: menus of rows, a
    clock row, and a scheduler that runs an entry's script when it falls due. */
module Device {
  import opened Text
  import opened Calendar
  import opened Formatting
  import opened DeadManScript

  type Row = map<string, string>

  function Get(row: Row, key: string): Option<string> {
    if key in row then Some(row[key]) else None
  }

  function GetOr(row: Row, key: string, default: string): string {
    if key in row then row[key] else default
  }

  predicate Has(row: Row, key: string, value: string) {
    key in row && row[key] == value
  }

  // ---- Row lists ----

  /** `_find_row_by_field`: the first match. */
  function FindRow(rows: seq<Row>, key: string, value: string): Option<Row> {
    if rows == [] then None
    else if Has(rows[0], key, value) then Some(rows[0])
    else FindRow(rows[1..], key, value)
  }

  function Named(rows: seq<Row>, name: string): seq<Row> {
    if rows == [] then []
    else (if Has(rows[0], "name", name) then [rows[0]] else []) + Named(rows[1..], name)
  }

  function SetOne(row: Row, name: string, fields: Row): Row {
    if Has(row, "name", name) then row + fields else row
  }

  function SetNamed(rows: seq<Row>, name: string, fields: Row): seq<Row> {
    seq(|rows|, i requires 0 <= i < |rows| => SetOne(rows[i], name, fields))
  }

  function RemoveNamed(rows: seq<Row>, name: string): seq<Row> {
    if rows == [] then []
    else (if Has(rows[0], "name", name) then [] else [rows[0]]) + RemoveNamed(rows[1..], name)
  }

  /** `remove(id)`, where the id may be None: a row without one. */
  function RemoveById(rows: seq<Row>, id: Option<string>): seq<Row> {
    if rows == [] then []
    else (if Get(rows[0], ".id") == id then [] else [rows[0]]) + RemoveById(rows[1..], id)
  }

  predicate HasId(rows: seq<Row>, id: string) {
    FindRow(rows, ".id", id).Some?
  }

  /** `update(**{".id": id, ...})`: the first row with that id; unchanged when there is none. */
  function UpdateById(rows: seq<Row>, id: string, fields: Row): seq<Row> {
    if rows == [] then []
    else if Has(rows[0], ".id", id) then [rows[0] + fields] + rows[1..]
    else [rows[0]] + UpdateById(rows[1..], id, fields)
  }

  lemma {:induction false} UpdateAt(rows: seq<Row>, i: nat, id: string, fields: Row)
    requires i < |rows| && Has(rows[i], ".id", id)
    requires forall j :: 0 <= j < i ==> !Has(rows[j], ".id", id)
    ensures UpdateById(rows, id, fields) == rows[i := rows[i] + fields]
    ensures HasId(rows, id)
  {
    if i > 0 {
      UpdateAt(rows[1..], i - 1, id, fields);
      assert rows[i := rows[i] + fields] == [rows[0]] + rows[1..][i - 1 := rows[i] + fields];
    }
  }

  lemma {:induction false} UpdateNowhere(rows: seq<Row>, id: string, fields: Row)
    requires forall j :: 0 <= j < |rows| ==> !Has(rows[j], ".id", id)
    ensures UpdateById(rows, id, fields) == rows && !HasId(rows, id)
  {
    if rows != [] {
      UpdateNowhere(rows[1..], id, fields);
      assert rows == [rows[0]] + rows[1..];
    }
  }

  /** The device's `set` on one row: the first with that id, if any. */
  method UpdateRow(rows: seq<Row>, id: string, fields: Row) returns (after: seq<Row>, ok: bool)
    ensures ok == HasId(rows, id) && after == UpdateById(rows, id, fields)
    ensures !ok ==> after == rows
  {
    for i := 0 to |rows|
      invariant forall j :: 0 <= j < i ==> !Has(rows[j], ".id", id)
    {
      if Has(rows[i], ".id", id) {
        UpdateAt(rows, i, id, fields);
        return rows[i := rows[i] + fields], true;
      }
    }
    UpdateNowhere(rows, id, fields);
    after, ok := rows, false;
  }

  /** The device's `remove`: every row with that id. */
  method DropId(rows: seq<Row>, id: Option<string>) returns (kept: seq<Row>)
    ensures kept == RemoveById(rows, id)
  {
    var rest := rows;
    kept := [];
    while rest != []
      invariant RemoveById(rows, id) == kept + RemoveById(rest, id)
      decreases |rest|
    {
      if Get(rest[0], ".id") != id {
        Associate(kept, [rest[0]], RemoveById(rest[1..], id));
        kept := kept + [rest[0]];
      }
      rest := rest[1..];
    }
  }

  method FindFirst(rows: seq<Row>, key: string, value: string) returns (row: Option<Row>)
    ensures row == FindRow(rows, key, value)
  {
    var i := 0;
    while i < |rows|
      invariant 0 <= i <= |rows| && FindRow(rows, key, value) == FindRow(rows[i..], key, value)
    {
      if Has(rows[i], key, value) {
        return Some(rows[i]);
      }
      assert rows[i..][1..] == rows[i + 1..];
      i := i + 1;
    }
    row := None;
  }

  function AddRow(rows: seq<Row>, id: string, fields: Row): seq<Row> {
    rows + [fields[".id" := id]]
  }

  // ---- The device ----

  datatype Device = Device(clock: seq<Row>, wireless: seq<Row>, scheduler: seq<Row>)

  function ReadMoment(row: Row, date: string, time: string): Option<DateTime> {
    ParseRosDateTime(GetOr(row, date, "") + " " + GetOr(row, time, ""))
  }

  function Now(clock: seq<Row>): Option<DateTime> {
    if clock == [] then None else ReadMoment(clock[0], "date", "time")
  }

  /** Time passing: the clock row is reprinted. Nothing moves when the clock cannot
      be read or would leave year 9999. */
  function Elapse(d: Device, seconds: nat): Device {
    var now := Now(d.clock);
    if now.None? then d
    else
      NowIsRepresentable(d.clock);
      match AddSeconds(now.value, seconds)
      case Overflow => d
      case At(later) => d.(clock := [PrintClock(d.clock[0], later)] + d.clock[1..])
  }

  lemma NowIsRepresentable(clock: seq<Row>)
    ensures Now(clock).Some? ==> clock != [] && Representable(Now(clock).value)
  {
    if Now(clock).Some? {
      ParseMeets(ClockText(clock[0]), Now(clock).value);
    }
  }

  function ClockText(row: Row): string {
    GetOr(row, "date", "") + " " + GetOr(row, "time", "")
  }

  function PrintClock(row: Row, t: DateTime): Row
    requires Representable(t)
  {
    row["date" := FormatDate(t)]["time" := FormatTime(t)]
  }

  // ---- Firing ----

  function RunOne(d: Device, statement: Statement): Device {
    match statement
    case SetWireless(name, fields) => d.(wireless := SetNamed(d.wireless, name, fields))
    case RemoveScheduler(name) => d.(scheduler := RemoveNamed(d.scheduler, name))
    case _ => d
  }

  /** Statements run in order; the first one the device cannot read ends the run. */
  function RunStatements(d: Device, statements: seq<Statement>): Device
    decreases |statements|
  {
    if statements == [] || statements[0].Unknown? then d
    else RunStatements(RunOne(d, statements[0]), statements[1..])
  }

  predicate Due(d: Device, entry: Row) {
    var now := Now(d.clock);
    var deadline := ReadMoment(entry, "start-date", "start-time");
    && now.Some? && deadline.Some?
    && Proper(now.value) && Proper(deadline.value)
    && ToSeconds(deadline.value) <= ToSeconds(now.value)
  }

  predicate CanFire(d: Device, name: string) {
    var entry := FindRow(d.scheduler, "name", name);
    entry.Some? && Due(d, entry.value)
  }

  /** `fire_scheduler(name)`; a refusal leaves the device as it is. */
  function Fire(d: Device, name: string): Device {
    if CanFire(d, name) then
      RunStatements(d, ReadScript(GetOr(FindRow(d.scheduler, "name", name).value, "on-event", "")))
    else d
  }

  /** The stateful device. */
  class Connection {
    var clock: seq<Row>
    var wireless: seq<Row>
    var scheduler: seq<Row>

    constructor (d: Device)
      ensures View() == d
    {
      clock, wireless, scheduler := d.clock, d.wireless, d.scheduler;
    }

    function View(): Device
      reads this
    {
      Device(clock, wireless, scheduler)
    }

    method AddScheduler(id: string, fields: Row)
      modifies this`scheduler
      ensures scheduler == AddRow(old(scheduler), id, fields)
    {
      scheduler := scheduler + [fields[".id" := id]];
    }

    method UpdateWireless(id: string, fields: Row) returns (ok: bool)
      modifies this`wireless
      ensures ok == HasId(old(wireless), id)
      ensures wireless == UpdateById(old(wireless), id, fields)
      ensures !ok ==> wireless == old(wireless)
    {
      wireless, ok := UpdateRow(wireless, id, fields);
    }

    method RemoveScheduler(id: Option<string>)
      modifies this`scheduler
      ensures scheduler == RemoveById(old(scheduler), id)
    {
      scheduler := DropId(scheduler, id);
    }

    method AdvanceClock(seconds: nat)
      modifies this`clock
      ensures View() == Elapse(old(View()), seconds)
    {
      var now := Now(clock);
      if now.None? {
        return;
      }
      NowIsRepresentable(clock);
      hide Now, AddSeconds, PrintClock;
      var later := AddSeconds(now.value, seconds);
      if later.At? {
        clock := [PrintClock(clock[0], later.when)] + clock[1..];
      }
    }

    method SetNamedWireless(name: string, fields: Row)
      modifies this`wireless
      ensures wireless == SetNamed(old(wireless), name, fields)
    {
      for i := 0 to |wireless|
        invariant |wireless| == |old(wireless)|
        invariant forall j :: 0 <= j < i ==> wireless[j] == SetOne(old(wireless)[j], name, fields)
        invariant forall j :: i <= j < |wireless| ==> wireless[j] == old(wireless)[j]
      {
        if Has(wireless[i], "name", name) {
          wireless := wireless[i := wireless[i] + fields];
        }
      }
    }

    method RemoveNamedScheduler(name: string)
      modifies this`scheduler
      ensures scheduler == RemoveNamed(old(scheduler), name)
    {
      var kept, rest := [], scheduler;
      while rest != []
        invariant RemoveNamed(old(scheduler), name) == kept + RemoveNamed(rest, name)
        decreases |rest|
      {
        if !Has(rest[0], "name", name) {
          Associate(kept, [rest[0]], RemoveNamed(rest[1..], name));
          kept := kept + [rest[0]];
        }
        rest := rest[1..];
      }
      scheduler := kept;
    }

    /** One statement; the device stops at the first it cannot read. */
    method RunStatement(statement: Statement) returns (read: bool)
      modifies this`wireless, this`scheduler
      ensures read == !statement.Unknown?
      ensures View() == RunOne(old(View()), statement)
    {
      match statement {
        case Log =>
        case SetWireless(target, fields) => SetNamedWireless(target, fields);
        case RemoveScheduler(entry) => RemoveNamedScheduler(entry);
        case Unknown =>
      }
      read := !statement.Unknown?;
    }

    method RunScript(statements: seq<Statement>)
      modifies this`wireless, this`scheduler
      ensures View() == RunStatements(old(View()), statements)
    {
      hide SetNamed, RemoveNamed;
      var rest := statements;
      while rest != []
        invariant RunStatements(View(), rest) == RunStatements(old(View()), statements)
        decreases |rest|
      {
        var read := RunStatement(rest[0]);
        if !read {
          return;
        }
        rest := rest[1..];
      }
    }

    method FireScheduler(name: string) returns (fired: bool)
      modifies this
      ensures fired == CanFire(old(View()), name)
      ensures View() == Fire(old(View()), name)
    {
      fired := CanFire(View(), name);
      if !fired {
        return;
      }
      RunScript(ReadScript(GetOr(FindRow(scheduler, "name", name).value, "on-event", "")));
    }
  }
}
