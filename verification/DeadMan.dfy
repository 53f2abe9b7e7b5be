/** The lockout-proof wireless writes of guard.py as a protocol: each call is a
    sequence of device commands, between which time passes, entries fire and the
    operator may cancel. */
module DeadMan {
  import opened Text
  import opened Calendar
  import opened Formatting
  import opened RevertCommand
  import opened DeadManScript
  import opened Device

  // ---- Requests ----

  datatype Distance = Km(km: int) | Dynamic | Indoors

  /** The three lockout-risk writes. Enumerated values are taken as validated. */
  datatype Request =
    | Channel(frequency: int, width: Option<string>)
    | TxPower(power: int)
    | Tuning(immunity: Option<string>, distance: Option<Distance>)

  datatype Call = Call(iface: string, request: Request, arm: bool, minutes: int, confirm: bool)

  datatype Error =
    | WriteDisabled
    | Invalid
    | NotFound
    | WindowTooShort(minutes: int)
    | NothingToRestore
    | BadCommand
    | NoClock
    | ClockOverflow
    | Transport
    | NoSuchItem

  predicate ValidMinutes(minutes: int) {
    1 <= minutes <= 60
  }

  predicate ValidRequest(r: Request) {
    match r
    case Channel(frequency, _) => 2192 <= frequency <= 6100
    case TxPower(power) => -30 <= power <= 40
    case Tuning(immunity, distance) =>
      && (immunity.Some? || distance.Some?)
      && (distance.Some? && distance.value.Km? ==> 1 <= distance.value.km <= 1000)
  }

  predicate LockoutRisk(r: Request) {
    r.Tuning? ==> r.distance.Some? && r.distance.value.Km?
  }

  predicate Arming(call: Call) {
    call.arm && LockoutRisk(call.request)
  }

  predicate ValidCall(call: Call) {
    ValidRequest(call.request) && (Arming(call) ==> ValidMinutes(call.minutes))
  }

  /** The fields the write sends. */
  function Writes(r: Request): Row {
    match r
    case Channel(frequency, width) =>
      map["frequency" := SignedDecimal(frequency)]
      + (if width.Some? then map["channel-width" := width.value] else map[])
    case TxPower(power) => map["tx-power-mode" := "all-rates-fixed", "tx-power" := SignedDecimal(power)]
    case Tuning(immunity, distance) =>
      (if immunity.Some? then map["adaptive-noise-immunity" := immunity.value] else map[])
      + (if distance.Some? then map["distance" := DistanceText(distance.value)] else map[])
  }

  function DistanceText(d: Distance): string {
    match d
    case Km(km) => SignedDecimal(km)
    case Dynamic => "dynamic"
    case Indoors => "indoors"
  }

  /** The fields the dead-man restores, in the order they are printed. */
  function RevertKeys(r: Request): seq<string> {
    match r
    case Channel(_, width) => if width.Some? then ["frequency", "channel-width"] else ["frequency"]
    case TxPower(_) => ["tx-power-mode", "tx-power"]
    case Tuning(_, _) => ["distance"]
  }

  predicate AllPresent(row: Row, keys: seq<string>) {
    forall i :: 0 <= i < |keys| ==> keys[i] in row
  }

  function Saved(row: Row, keys: seq<string>): seq<Field> {
    seq(|keys|, i requires 0 <= i < |keys| => Field(keys[i], GetOr(row, keys[i], "")))
  }

  // ---- Radar checks ----

  const CAC_SECONDS := 60
  const WEATHER_CAC_SECONDS := 600

  /** `_dfs_cac_seconds`. */
  function CacSeconds(frequency: int, mode: string): nat {
    if Lower(Strip(mode)) == "superchannel" then 0
    else if 5600 <= frequency <= 5650 then WEATHER_CAC_SECONDS
    else if 5250 <= frequency <= 5725 then CAC_SECONDS
    else 0
  }

  /** `-(-seconds // 60)` */
  function CeilMinutes(seconds: nat): nat {
    (seconds + 59) / 60
  }

  function RequiredCac(r: Request, before: Row): nat {
    if r.Channel? then CacSeconds(r.frequency, GetOr(before, "frequency-mode", "")) else 0
  }

  // ---- Arming ----

  function RevertText(call: Call, before: Row): string {
    PrintRevert(call.iface, Saved(before, RevertKeys(call.request)))
  }

  /** The local checks between reading the row and touching the clock; None lets the
      call go on. */
  function Objection(call: Call, before: Row): Option<Error> {
    var cac := RequiredCac(call.request, before);
    if cac > call.minutes * 60 then Some(WindowTooShort(CeilMinutes(cac)))
    else if !AllPresent(before, RevertKeys(call.request)) then Some(NothingToRestore)
    else if !ValidCommands([RevertText(call, before)]) then Some(BadCommand)
    else None
  }

  /** A moment the RouterOS date text can carry. */
  type Moment = d: DateTime | Representable(d) witness DateTime(1, 1, 1, 0, 0, 0)

  datatype Deadline = DueAt(when: Moment) | NoDeadline(error: Error)

  /** `_dead_man_deadline`, before printing. */
  function DeadlineFrom(clock: seq<Row>, minutes: nat): Deadline {
    var now := Now(clock);
    if now.None? then NoDeadline(NoClock)
    else
      NowIsRepresentable(clock);
      match AddSeconds(now.value, minutes * 60)
      case Overflow => NoDeadline(ClockOverflow)
      case At(when) => DueAt(when)
  }

  const POLICY := "read,write,test,policy,reboot"

  /** The scheduler entry `arm_dead_man` adds. */
  function SchedulerFields(name: string, deadline: Moment, commands: seq<string>): Row {
    map["name" := name,
        "start-date" := FormatDate(deadline),
        "start-time" := FormatTime(deadline),
        "interval" := "00:00:00",
        "policy" := POLICY,
        "on-event" := BuildScript(name, commands)]
  }

  // ---- The protocol ----

  /** What becomes of one device command: it arrives and is answered, it never
      arrives, or it takes effect and the answer is lost. */
  datatype Fault = Delivered | LostRequest | LostReply

  datatype Outcome = Previewed | Applied | Failed(error: Error)

  /** Where a call stands: about to read the row, to read the clock, to add the
      entry, to write, or returned. */
  datatype Client =
    | Starting
    | Checked(before: Row)
    | Timed(before: Row, deadline: Moment)
    | Writing(before: Row)
    | Done(outcome: Outcome)

  /** One call, the entry name it generates and the id the device will give it. */
  datatype Config = Config(allowWrite: bool, call: Call, name: string, id: string)

  datatype System = System(dev: Device, client: Client)

  /** A cancel reads the menu and then drops the id it found; `Drops` is the second
      command, with whatever happened since the read before it. */
  datatype Event =
    | Advance(fault: Fault)
    | Pass(seconds: nat)
    | Fires(name: string)
    | Drops(id: Option<string>, dropFault: Fault)

  function Fail(error: Error): Client {
    Done(Failed(error))
  }

  function Start(c: Config, dev: Device, fault: Fault): Client {
    if !c.allowWrite then Fail(WriteDisabled)
    else if !ValidCall(c.call) then Fail(Invalid)
    else if fault != Delivered then Fail(Transport)
    else
      var row := FindRow(dev.wireless, "name", c.call.iface);
      if row.None? then Fail(NotFound)
      else if !c.call.confirm then Done(Previewed)
      else if !Arming(c.call) then Writing(row.value)
      else
        var objection := Objection(c.call, row.value);
        if objection.Some? then Fail(objection.value) else Checked(row.value)
  }

  function ReadClock(c: Config, dev: Device, before: Row, fault: Fault): Client {
    if !ValidMinutes(c.call.minutes) then Fail(Invalid)
    else if fault != Delivered then Fail(Transport)
    else
      var deadline := DeadlineFrom(dev.clock, c.call.minutes);
      if deadline.NoDeadline? then Fail(deadline.error) else Timed(before, deadline.when)
  }

  function Entry(c: Config, before: Row, deadline: Moment): Row {
    SchedulerFields(c.name, deadline, [RevertText(c.call, before)])
  }

  function Arm(c: Config, dev: Device, before: Row, deadline: Moment, fault: Fault): System {
    var armed := dev.(scheduler := AddRow(dev.scheduler, c.id, Entry(c, before, deadline)));
    match fault
    case Delivered => System(armed, Writing(before))
    case LostRequest => System(dev, Fail(Transport))
    case LostReply => System(armed, Fail(Transport))
  }

  function Write(c: Config, dev: Device, before: Row, fault: Fault): System {
    var id := GetOr(before, ".id", "");
    if fault == LostRequest then System(dev, Fail(Transport))
    else if !HasId(dev.wireless, id) then System(dev, Fail(NoSuchItem))
    else
      System(dev.(wireless := UpdateById(dev.wireless, id, Writes(c.call.request))),
             if fault == Delivered then Done(Applied) else Fail(Transport))
  }

  /** The call's next device command. */
  function NextCommand(c: Config, s: System, fault: Fault): System {
    match s.client
    case Starting => s.(client := Start(c, s.dev, fault))
    case Checked(before) => s.(client := ReadClock(c, s.dev, before, fault))
    case Timed(before, deadline) => Arm(c, s.dev, before, deadline, fault)
    case Writing(before) => Write(c, s.dev, before, fault)
    case Done(_) => s
  }

  /** The id `cancel_dead_man(name, confirm=True)` finds on the menu it reads. */
  function CancelTarget(allowWrite: bool, dev: Device, name: string): Option<Option<string>> {
    if !allowWrite || !IsDeadManName(Strip(name)) then None
    else
      var row := FindRow(dev.scheduler, "name", Strip(name));
      if row.None? then None else Some(Get(row.value, ".id"))
  }

  /** Its removal of that id; the device takes an id it does not have in silence. */
  function RemoveFound(dev: Device, id: Option<string>, fault: Fault): Device {
    if fault == LostRequest then dev else dev.(scheduler := RemoveById(dev.scheduler, id))
  }

  /** The two at once. */
  function Cancel(allowWrite: bool, dev: Device, name: string, fault: Fault): Device {
    var target := CancelTarget(allowWrite, dev, name);
    if target.None? then dev else RemoveFound(dev, target.value, fault)
  }

  function Next(c: Config, s: System, e: Event): System {
    match e
    case Advance(fault) => NextCommand(c, s, fault)
    case Pass(seconds) => s.(dev := Elapse(s.dev, seconds))
    case Fires(name) => s.(dev := Fire(s.dev, name))
    case Drops(id, fault) => s.(dev := RemoveFound(s.dev, id, fault))
  }

  function Run(c: Config, s: System, events: seq<Event>): System
    decreases |events|
  {
    if events == [] then s else Run(c, Next(c, s, events[0]), events[1..])
  }
}
