/** The guarded calls themselves: the read-only gate, the preview, the arming inside a
    wireless write and the journal decorator, over a device whose every command can
    be lost. */
module GuardedCalls {
  import opened Text
  import opened RevertCommand
  import opened DeadManScript
  import opened Device
  import opened DeadMan

  // ---- What a call leaves behind ----

  datatype Verb = Read | Add | Set | Remove

  datatype Tool = ArmTool | CancelTool | WirelessTool

  datatype Ending = Preview | Success | Error

  datatype Record = Record(tool: Tool, confirm: bool, ending: Ending)

  /** The device, the commands sent to it so far and the journal so far. */
  datatype World = World(dev: Device, sent: seq<Verb>, journal: seq<Record>)

  datatype Reply = Reply(world: World, outcome: Outcome)

  function EndingOf(o: Outcome): Ending {
    match o
    case Previewed => Preview
    case Applied => Success
    case Failed(_) => Error
  }

  /** What becomes of the k-th command of a call. */
  function FateOf(fates: seq<Fault>, k: nat): Fault {
    if k < |fates| then fates[k] else Delivered
  }

  function Rest(fates: seq<Fault>): seq<Fault> {
    if fates == [] then [] else fates[1..]
  }

  function Sent(w: World, verbs: seq<Verb>): World {
    w.(sent := w.sent + verbs)
  }

  /** `_audited`: one record for the call, whatever its end. */
  function Audited(tool: Tool, confirm: bool, r: Reply): Reply {
    r.(world := r.world.(journal := r.world.journal + [Record(tool, confirm, EndingOf(r.outcome))]))
  }

  // ---- The three calls ----

  datatype ArmCall = ArmCall(commands: seq<string>, minutes: int, confirm: bool, name: string, id: string)

  function ArmedDevice(dev: Device, a: ArmCall, due: Moment, fate: Fault): Device {
    if fate == LostRequest then dev
    else dev.(scheduler := AddRow(dev.scheduler, a.id, SchedulerFields(a.name, due, a.commands)))
  }

  function Answer(fate: Fault): Outcome {
    if fate == Delivered then Applied else Failed(Transport)
  }

  function ArmBody(allow: bool, w: World, a: ArmCall, fates: seq<Fault>): Reply {
    if !allow then Reply(w, Failed(WriteDisabled))
    else if !ValidMinutes(a.minutes) then Reply(w, Failed(Invalid))
    else if !ValidCommands(a.commands) then Reply(w, Failed(BadCommand))
    else if FateOf(fates, 0) != Delivered then Reply(Sent(w, [Read]), Failed(Transport))
    else
      match DeadlineFrom(w.dev.clock, a.minutes)
      case NoDeadline(error) => Reply(Sent(w, [Read]), Failed(error))
      case DueAt(due) =>
        if !a.confirm then Reply(Sent(w, [Read]), Previewed)
        else Reply(World(ArmedDevice(w.dev, a, due, FateOf(fates, 1)), w.sent + [Read, Add], w.journal),
                   Answer(FateOf(fates, 1)))
  }

  function CancelBody(allow: bool, w: World, name: string, confirm: bool, fates: seq<Fault>): Reply {
    if !allow then Reply(w, Failed(WriteDisabled))
    else if !IsDeadManName(Strip(name)) then Reply(w, Failed(Invalid))
    else if FateOf(fates, 0) != Delivered then Reply(Sent(w, [Read]), Failed(Transport))
    else
      var row := FindRow(w.dev.scheduler, "name", Strip(name));
      if row.None? then Reply(Sent(w, [Read]), Failed(NotFound))
      else if !confirm then Reply(Sent(w, [Read]), Previewed)
      else
        Reply(World(Cancel(true, w.dev, name, FateOf(fates, 1)), w.sent + [Read, Remove], w.journal),
              Answer(FateOf(fates, 1)))
  }

  // The wireless write is the protocol of DeadMan, run without interruption.

  /** The command a step sends. */
  function StepVerbs(c: Config, client: Client): seq<Verb> {
    match client
    case Starting => if c.allowWrite && ValidCall(c.call) then [Read] else []
    case Checked(_) => if ValidMinutes(c.call.minutes) then [Read] else []
    case Timed(_, _) => [Add]
    case Writing(_) => [Set]
    case Done(_) => []
  }

  /** The journal record of `arm_dead_man` when this step ends it. */
  function StepRecords(client: Client, next: Client): seq<Record> {
    match client
    case Starting => if next == Fail(BadCommand) then [Record(ArmTool, true, Error)] else []
    case Checked(_) => if next.Done? then [Record(ArmTool, true, Error)] else []
    case Timed(_, _) => [Record(ArmTool, true, if next.Done? then Error else Success)]
    case _ => []
  }

  function StepsLeft(client: Client): nat {
    match client
    case Starting => 4
    case Checked(_) => 3
    case Timed(_, _) => 2
    case Writing(_) => 1
    case Done(_) => 0
  }

  function StepWorld(c: Config, w: World, client: Client, fate: Fault): World {
    var next := NextCommand(c, System(w.dev, client), fate);
    World(next.dev, w.sent + StepVerbs(c, client), w.journal + StepRecords(client, next.client))
  }

  function StepClient(c: Config, w: World, client: Client, fate: Fault): Client {
    NextCommand(c, System(w.dev, client), fate).client
  }

  lemma StepsShrink(c: Config, w: World, client: Client, fate: Fault)
    ensures !client.Done? ==> StepsLeft(StepClient(c, w, client, fate)) < StepsLeft(client)
  {
    hide Objection, ValidCall, Arming, FindRow, UpdateById, HasId, Entry, AddRow, DeadlineFrom, Writes;
  }

  function WirelessBody(c: Config, w: World, client: Client, fates: seq<Fault>): Reply
    decreases StepsLeft(client)
  {
    if client.Done? then Reply(w, client.outcome)
    else
      var fate := FateOf(fates, 0);
      StepsShrink(c, w, client, fate);
      WirelessBody(c, StepWorld(c, w, client, fate), StepClient(c, w, client, fate), Rest(fates))
  }

  function RevertCall(c: Config, before: Row): ArmCall {
    ArmCall([RevertText(c.call, before)], c.call.minutes, true, c.name, c.id)
  }

  /** The two protocol steps between reading the row and writing it are one audited
      call of `arm_dead_man`. */
  lemma ArmsInside(c: Config, w: World, before: Row, fates: seq<Fault>)
    requires c.allowWrite && ValidCommands([RevertText(c.call, before)])
    ensures var armed := Audited(ArmTool, true, ArmBody(true, w, RevertCall(c, before), fates));
            WirelessBody(c, w, Checked(before), fates) ==
            if armed.outcome.Failed? then armed
            else WirelessBody(c, armed.world, Writing(before), Rest(Rest(fates)))
  {
    hide ValidCommands, RevertText, DeadlineFrom, SchedulerFields, AddRow;
    var fate := FateOf(fates, 0);
    var w1, c1 := StepWorld(c, w, Checked(before), fate), StepClient(c, w, Checked(before), fate);
    assert WirelessBody(c, w, Checked(before), fates) == WirelessBody(c, w1, c1, Rest(fates));
    assert w.sent + [] == w.sent && w.journal + [] == w.journal;
    if c1.Timed? {
      assert w1 == Sent(w, [Read]);
      assert FateOf(fates, 1) == FateOf(Rest(fates), 0);
      assert w.sent + [Read] + [Add] == w.sent + [Read, Add];
      var fate2 := FateOf(fates, 1);
      var w2, c2 := StepWorld(c, w1, c1, fate2), StepClient(c, w1, c1, fate2);
      assert Entry(c, before, c1.deadline) == SchedulerFields(c.name, c1.deadline, RevertCall(c, before).commands);
      assert WirelessBody(c, w1, c1, Rest(fates)) == WirelessBody(c, w2, c2, Rest(Rest(fates)));
    }
  }

  function AfterStart(c: Config, w: World, next: Client): World {
    World(w.dev, w.sent + StepVerbs(c, Starting),
          if next == Fail(BadCommand) then w.journal + [Record(ArmTool, true, Error)] else w.journal)
  }

  lemma StartsWith(c: Config, w: World, fates: seq<Fault>)
    ensures var next := Start(c, w.dev, FateOf(fates, 0));
            WirelessBody(c, w, Starting, fates) ==
            if next.Done? then Reply(AfterStart(c, w, next), next.outcome)
            else WirelessBody(c, AfterStart(c, w, next), next, Rest(fates))
  {
    hide Start, ValidCall;
    assert w.journal + [] == w.journal;
    var next := Start(c, w.dev, FateOf(fates, 0));
    assert WirelessBody(c, w, Starting, fates) == WirelessBody(c, AfterStart(c, w, next), next, Rest(fates));
  }

  lemma EndsWith(c: Config, w: World, before: Row, fates: seq<Fault>)
    ensures var s := Write(c, w.dev, before, FateOf(fates, 0));
            s.client.Done? &&
            WirelessBody(c, w, Writing(before), fates) ==
            Reply(World(s.dev, w.sent + [Set], w.journal), s.client.outcome)
  {
    WriteEnds(c, w.dev, before, FateOf(fates, 0));
    hide Write;
    assert w.journal + [] == w.journal;
  }

  lemma WriteEnds(c: Config, dev: Device, before: Row, fate: Fault)
    ensures Write(c, dev, before, fate).client.Done? && !Write(c, dev, before, fate).client.outcome.Previewed?
  {
    hide HasId, UpdateById;
  }

  // ---- The code ----

  /** The write tools of guard.py over one connection. */
  class Guard {
    const allowWrite: bool
    const wire: Connection
    var sent: seq<Verb>
    var journal: seq<Record>

    constructor (allowWrite: bool, wire: Connection)
      ensures this.allowWrite == allowWrite && this.wire == wire && sent == [] && journal == []
    {
      this.allowWrite, this.wire, sent, journal := allowWrite, wire, [], [];
    }

    function View(): World
      reads this, wire
    {
      World(wire.View(), sent, journal)
    }

    method ArmDeadMan(a: ArmCall, fates: seq<Fault>) returns (outcome: Outcome)
      modifies this`sent, this`journal, wire`scheduler
      ensures Reply(View(), outcome) == Audited(ArmTool, a.confirm, ArmBody(allowWrite, old(View()), a, fates))
    {
      outcome := ArmUnaudited(a, fates);
      journal := journal + [Record(ArmTool, a.confirm, EndingOf(outcome))];
    }

    method ArmUnaudited(a: ArmCall, fates: seq<Fault>) returns (outcome: Outcome)
      modifies this`sent, wire`scheduler
      ensures Reply(View(), outcome) == ArmBody(allowWrite, old(View()), a, fates)
    {
      if !allowWrite {
        return Failed(WriteDisabled);
      }
      if !ValidMinutes(a.minutes) {
        return Failed(Invalid);
      }
      if !ValidCommands(a.commands) {
        return Failed(BadCommand);
      }
      sent := sent + [Read];
      if FateOf(fates, 0) != Delivered {
        return Failed(Transport);
      }
      var deadline := DeadlineFrom(wire.clock, a.minutes);
      if deadline.NoDeadline? {
        return Failed(deadline.error);
      }
      if !a.confirm {
        return Previewed;
      }
      sent := sent + [Add];
      assert sent == old(sent) + [Read, Add];
      if FateOf(fates, 1) != LostRequest {
        wire.AddScheduler(a.id, SchedulerFields(a.name, deadline.when, a.commands));
      }
      outcome := Answer(FateOf(fates, 1));
    }

    method CancelDeadMan(name: string, confirm: bool, fates: seq<Fault>) returns (outcome: Outcome)
      modifies this`sent, this`journal, wire`scheduler
      ensures Reply(View(), outcome) ==
              Audited(CancelTool, confirm, CancelBody(allowWrite, old(View()), name, confirm, fates))
    {
      outcome := CancelUnaudited(name, confirm, fates);
      journal := journal + [Record(CancelTool, confirm, EndingOf(outcome))];
    }

    method CancelUnaudited(name: string, confirm: bool, fates: seq<Fault>) returns (outcome: Outcome)
      modifies this`sent, wire`scheduler
      ensures Reply(View(), outcome) == CancelBody(allowWrite, old(View()), name, confirm, fates)
    {
      if !allowWrite {
        return Failed(WriteDisabled);
      }
      var wanted := Strip(name);
      if !IsDeadManName(wanted) {
        return Failed(Invalid);
      }
      sent := sent + [Read];
      if FateOf(fates, 0) != Delivered {
        return Failed(Transport);
      }
      var row := FindRow(wire.scheduler, "name", wanted);
      if row.None? {
        return Failed(NotFound);
      }
      if !confirm {
        return Previewed;
      }
      sent := sent + [Remove];
      assert sent == old(sent) + [Read, Remove];
      if FateOf(fates, 1) != LostRequest {
        wire.RemoveScheduler(Get(row.value, ".id"));
      }
      outcome := Answer(FateOf(fates, 1));
    }

    method SetWireless(call: Call, name: string, id: string, fates: seq<Fault>) returns (outcome: Outcome)
      modifies this, wire
      ensures Reply(View(), outcome) ==
              Audited(WirelessTool, call.confirm,
                      WirelessBody(Config(allowWrite, call, name, id), old(View()), Starting, fates))
    {
      outcome := WirelessUnaudited(call, name, id, fates);
      journal := journal + [Record(WirelessTool, call.confirm, EndingOf(outcome))];
    }

    method WirelessUnaudited(call: Call, name: string, id: string, fates: seq<Fault>) returns (outcome: Outcome)
      modifies this, wire
      ensures Reply(View(), outcome) ==
              WirelessBody(Config(allowWrite, call, name, id), old(View()), Starting, fates)
    {
      ghost var c, w := Config(allowWrite, call, name, id), View();
      StartsWith(c, w, fates);
      assert w.sent + [] == w.sent;
      hide WirelessBody, ValidCommands, RevertText, ValidRequest, CacSeconds, Arming;
      if !allowWrite {
        return Failed(WriteDisabled);
      }
      if !ValidCall(call) {
        return Failed(Invalid);
      }
      sent := sent + [Read];
      if FateOf(fates, 0) != Delivered {
        return Failed(Transport);
      }
      var row := FindRow(wire.wireless, "name", call.iface);
      if row.None? {
        return Failed(NotFound);
      }
      if !call.confirm {
        return Previewed;
      }
      var before, rest := row.value, Rest(fates);
      if Arming(call) {
        var cac := RequiredCac(call.request, before);
        if cac > call.minutes * 60 {
          return Failed(WindowTooShort(CeilMinutes(cac)));
        }
        if !AllPresent(before, RevertKeys(call.request)) {
          return Failed(NothingToRestore);
        }
        ghost var w1 := View();
        assert w1 == Sent(w, [Read]);
        if ValidCommands([RevertText(call, before)]) {
          ArmsInside(c, w1, before, rest);
        }
        var armed := ArmDeadMan(ArmCall([RevertText(call, before)], call.minutes, true, name, id), rest);
        if armed.Failed? {
          return armed;
        }
        rest := Rest(Rest(rest));
      }
      outcome := ApplyWireless(Config(allowWrite, call, name, id), before, rest);
    }

    method ApplyWireless(c: Config, before: Row, fates: seq<Fault>) returns (outcome: Outcome)
      modifies this`sent, wire`wireless
      ensures Reply(View(), outcome) == WirelessBody(c, old(View()), Writing(before), fates)
    {
      EndsWith(c, View(), before, fates);
      hide WirelessBody, Writes;
      sent := sent + [Set];
      var fate := FateOf(fates, 0);
      if fate == LostRequest {
        return Failed(Transport);
      }
      var ok := wire.UpdateWireless(GetOr(before, ".id", ""), Writes(c.call.request));
      outcome := if ok then Answer(fate) else Failed(NoSuchItem);
    }
  }
}
