/** What the guard keeps over whole sequences of calls: the gate, the preview and the
    journal. */
module GuardRuns {
  import opened Text
  import opened RevertCommand
  import opened DeadManScript
  import opened Device
  import opened DeadMan
  import opened DeadManOutcomes
  import opened GuardedCalls

  // ---- Runs of calls ----

  datatype Invocation =
    | Arms(a: ArmCall)
    | CancelsEntry(name: string, confirmCancel: bool)
    | SetsWireless(call: Call, entry: string, id: string)

  /** A call, or the device going on by itself. */
  datatype Happening =
    | Invoked(inv: Invocation, fates: seq<Fault>)
    | Passes(seconds: nat)
    | FiresEntry(name: string)

  function ToolOf(inv: Invocation): Tool {
    match inv
    case Arms(_) => ArmTool
    case CancelsEntry(_, _) => CancelTool
    case SetsWireless(_, _, _) => WirelessTool
  }

  function Confirms(inv: Invocation): bool {
    match inv
    case Arms(a) => a.confirm
    case CancelsEntry(_, confirm) => confirm
    case SetsWireless(call, _, _) => call.confirm
  }

  function Body(allow: bool, w: World, inv: Invocation, fates: seq<Fault>): Reply {
    match inv
    case Arms(a) => ArmBody(allow, w, a, fates)
    case CancelsEntry(name, confirm) => CancelBody(allow, w, name, confirm, fates)
    case SetsWireless(call, entry, id) => WirelessBody(Config(allow, call, entry, id), w, Starting, fates)
  }

  /** One call of a write tool. */
  function Perform(allow: bool, w: World, inv: Invocation, fates: seq<Fault>): Reply {
    Audited(ToolOf(inv), Confirms(inv), Body(allow, w, inv, fates))
  }

  /** The device going on by itself. */
  function OnItsOwn(dev: Device, h: Happening): Device {
    match h
    case Invoked(_, _) => dev
    case Passes(seconds) => Elapse(dev, seconds)
    case FiresEntry(name) => Fire(dev, name)
  }

  function Live(allow: bool, w: World, h: Happening): World {
    match h
    case Invoked(inv, fates) => Perform(allow, w, inv, fates).world
    case _ => w.(dev := OnItsOwn(w.dev, h))
  }

  function LiveAll(allow: bool, w: World, hs: seq<Happening>): World
    decreases |hs|
  {
    if hs == [] then w else LiveAll(allow, Live(allow, w, hs[0]), hs[1..])
  }

  // ---- The protocol behind a wireless write ----

  predicate OnlyAdvances(events: seq<Event>) {
    forall i :: 0 <= i < |events| ==> events[i].Advance?
  }

  /** The events of an uninterrupted call. */
  function Course(c: Config, w: World, client: Client, fates: seq<Fault>): seq<Event>
    decreases StepsLeft(client)
  {
    if client.Done? then []
    else
      var fate := FateOf(fates, 0);
      StepsShrink(c, w, client, fate);
      [Advance(fate)] + Course(c, StepWorld(c, w, client, fate), StepClient(c, w, client, fate), Rest(fates))
  }

  /** The code, left alone, is one run of the protocol: everything proved of all runs
      holds of it. */
  lemma {:induction false} CallIsRun(c: Config, w: World, client: Client, fates: seq<Fault>)
    ensures OnlyAdvances(Course(c, w, client, fates))
    ensures var r := WirelessBody(c, w, client, fates);
            Run(c, System(w.dev, client), Course(c, w, client, fates)) == System(r.world.dev, Done(r.outcome))
    decreases StepsLeft(client)
  {
    BodyStep(c, w, client, fates);
    CourseStep(c, w, client, fates);
    if client.Done? {
      assert Run(c, System(w.dev, client), []) == System(w.dev, client);
    } else {
      var fate := FateOf(fates, 0);
      StepsShrink(c, w, client, fate);
      var w1, c1 := StepWorld(c, w, client, fate), StepClient(c, w, client, fate);
      hide NextCommand, StepWorld, StepClient, WirelessBody, Course;
      CallIsRun(c, w1, c1, Rest(fates));
      StepIsNext(c, w, client, fate);
      RunNext(c, System(w.dev, client), Advance(fate), Course(c, w1, c1, Rest(fates)));
    }
  }

  lemma StepIsNext(c: Config, w: World, client: Client, fate: Fault)
    ensures Next(c, System(w.dev, client), Advance(fate)) ==
            System(StepWorld(c, w, client, fate).dev, StepClient(c, w, client, fate))
  {
    hide NextCommand, StepVerbs, StepRecords;
  }

  lemma CourseStep(c: Config, w: World, client: Client, fates: seq<Fault>)
    ensures client.Done? ==> Course(c, w, client, fates) == []
    ensures !client.Done? ==>
              var fate := FateOf(fates, 0);
              Course(c, w, client, fates) ==
              [Advance(fate)] + Course(c, StepWorld(c, w, client, fate), StepClient(c, w, client, fate), Rest(fates))
  {
    hide StepWorld, StepClient;
  }

  lemma BodyStep(c: Config, w: World, client: Client, fates: seq<Fault>)
    ensures client.Done? ==> WirelessBody(c, w, client, fates) == Reply(w, client.outcome)
    ensures !client.Done? ==>
              var fate := FateOf(fates, 0);
              WirelessBody(c, w, client, fates) ==
              WirelessBody(c, StepWorld(c, w, client, fate), StepClient(c, w, client, fate), Rest(fates))
  {
    hide StepWorld, StepClient;
  }

  /** So is the code of a cancel: its read, which finds the id, and its removal. */
  lemma CancelIsRun(allow: bool, w: World, name: string, fates: seq<Fault>, c: Config, client: Client)
    ensures var r := CancelBody(allow, w, name, true, fates);
            var target := CancelTarget(allow, w.dev, name);
            if FateOf(fates, 0) == Delivered && target.Some?
            then Next(c, System(w.dev, client), Drops(target.value, FateOf(fates, 1))) == System(r.world.dev, client)
                 && r.outcome == Answer(FateOf(fates, 1))
            else r.world.dev == w.dev && r.outcome.Failed?
  {
    hide FindRow, RemoveById, IsDeadManName, Strip;
  }

  // ---- Traces ----

  /** What a call adds: the commands it sends and the records it writes. */
  ghost predicate Traced(w: World, r: Reply, verbs: seq<Verb>, records: seq<Record>) {
    r.world.sent == w.sent + verbs && r.world.journal == w.journal + records
  }

  const ARM_FAILED := Record(ArmTool, true, Error)
  const ARM_MADE := Record(ArmTool, true, Success)

  /** From the clock reading on: a failed arming stops the call, a made one is
      followed by the write. */
  predicate ArmTrace(verbs: seq<Verb>, records: seq<Record>) {
    || (records == [ARM_FAILED] && (verbs == [] || verbs == [Read] || verbs == [Read, Add]))
    || (records == [ARM_MADE] && verbs == [Read, Add, Set])
  }

  /** `arm_dead_man` by itself: what it sends, and that only a sent add changes anything. */
  lemma ArmSends(allow: bool, w: World, a: ArmCall, fates: seq<Fault>) returns (verbs: seq<Verb>)
    ensures var r := ArmBody(allow, w, a, fates);
            && Traced(w, r, verbs, [])
            && (r.outcome.Applied? || Add in verbs ==> a.confirm && verbs == [Read, Add])
            && (Add !in verbs ==> r.world.dev == w.dev && (verbs == [] || verbs == [Read]))
            && (!allow ==> verbs == []) && (!a.confirm ==> !r.outcome.Applied?)
            && (r.outcome.Previewed? ==> !a.confirm)
  {
    hide ValidCommands, DeadlineFrom, SchedulerFields, AddRow;
    var r := ArmBody(allow, w, a, fates);
    verbs := if r.world.sent == w.sent then [] else if r.world.sent == w.sent + [Read] then [Read] else [Read, Add];
  }

  lemma TraceFromChecked(c: Config, w: World, before: Row, fates: seq<Fault>)
    returns (verbs: seq<Verb>, records: seq<Record>)
    requires c.allowWrite && ValidCommands([RevertText(c.call, before)])
    ensures ArmTrace(verbs, records) && Traced(w, WirelessBody(c, w, Checked(before), fates), verbs, records)
    ensures records == [ARM_FAILED] ==> WirelessBody(c, w, Checked(before), fates).outcome.Failed?
    ensures !WirelessBody(c, w, Checked(before), fates).outcome.Previewed?
    ensures Add !in verbs ==> WirelessBody(c, w, Checked(before), fates).world.dev == w.dev
  {
    hide WirelessBody, ArmBody, ValidCommands, RevertText, EndingOf;
    var body := ArmBody(true, w, RevertCall(c, before), fates);
    verbs := ArmSends(true, w, RevertCall(c, before), fates);
    ArmsInside(c, w, before, fates);
    EndingOfArm(body);
    if body.outcome.Failed? {
      records := [ARM_FAILED];
    } else {
      MadeThenWritten(c, w, body, verbs, before, Rest(Rest(fates)));
      verbs, records := [Read, Add, Set], [ARM_MADE];
    }
  }

  lemma MadeThenWritten(c: Config, w: World, body: Reply, verbs: seq<Verb>, before: Row, fates: seq<Fault>)
    requires Traced(w, body, verbs, []) && verbs == [Read, Add] && body.outcome.Applied?
    ensures Traced(w, WirelessBody(c, Audited(ArmTool, true, body).world, Writing(before), fates),
                   [Read, Add, Set], [ARM_MADE])
    ensures !WirelessBody(c, Audited(ArmTool, true, body).world, Writing(before), fates).outcome.Previewed?
  {
    var armed := Audited(ArmTool, true, body).world;
    EndsWith(c, armed, before, fates);
    WriteEnds(c, armed.dev, before, FateOf(fates, 0));
    hide WirelessBody, Write;
    Associate(w.sent, verbs, [Set]);
    assert verbs + [Set] == [Read, Add, Set];
    assert w.journal + [] == w.journal;
  }

  lemma EndingOfArm(body: Reply)
    ensures !body.outcome.Previewed? ==> Audited(ArmTool, true, body).world.journal ==
                                         body.world.journal + [if body.outcome.Failed? then ARM_FAILED else ARM_MADE]
  {
  }

  /** Every trace a wireless write can leave. */
  predicate WirelessTrace(c: Config, verbs: seq<Verb>, records: seq<Record>) {
    || (records == [] && (verbs == [] || verbs == [Read]))
    || (c.allowWrite && c.call.confirm && !Arming(c.call) && records == [] && verbs == [Read, Set])
    || (c.allowWrite && c.call.confirm && Arming(c.call) && records == [ARM_FAILED]
        && (verbs == [Read] || verbs == [Read, Read] || verbs == [Read, Read, Add]))
    || (c.allowWrite && c.call.confirm && Arming(c.call) && records == [ARM_MADE] && verbs == [Read, Read, Add, Set])
  }

  predicate OnlyReads(verbs: seq<Verb>) {
    forall i :: 0 <= i < |verbs| ==> verbs[i] == Read
  }

  lemma StartChoices(c: Config, dev: Device, fate: Fault)
    ensures var next := Start(c, dev, fate);
            && (next.Done? || next.Checked? || next.Writing?)
            && (next.Checked? ==> c.allowWrite && ValidCall(c.call) && c.call.confirm && Arming(c.call)
                                  && ValidCommands([RevertText(c.call, next.before)]))
            && (next.Writing? ==> c.allowWrite && ValidCall(c.call) && c.call.confirm && !Arming(c.call))
            && (next == Fail(BadCommand) ==> c.allowWrite && ValidCall(c.call) && c.call.confirm && Arming(c.call))
  {
    hide ValidCommands, RevertText, Arming, ValidRequest, CacSeconds, FindRow;
  }

  /** What one wireless write leaves: its trace, and a device touched only by a
      command that is not a read. */
  ghost predicate WirelessLeaves(c: Config, w: World, r: Reply, verbs: seq<Verb>, records: seq<Record>) {
    && WirelessTrace(c, verbs, records) && Traced(w, r, verbs, records)
    && (OnlyReads(verbs) ==> r.world.dev == w.dev)
    && (records == [ARM_FAILED] ==> r.outcome.Failed?)
    && (!c.allowWrite ==> verbs == [])
    && (r.outcome.Previewed? ==> OnlyReads(verbs))
  }

  lemma TraceFromStart(c: Config, w: World, fates: seq<Fault>) returns (verbs: seq<Verb>, records: seq<Record>)
    ensures WirelessLeaves(c, w, WirelessBody(c, w, Starting, fates), verbs, records)
  {
    var next := Start(c, w.dev, FateOf(fates, 0));
    StartsWith(c, w, fates);
    StartChoices(c, w.dev, FateOf(fates, 0));
    hide WirelessBody, Start, ValidCall, Arming, ValidCommands, RevertText, WirelessLeaves, AfterStart;
    match next {
      case Done(_) => verbs, records := LeavesAtOnce(c, w, next);
      case Checked(before) => verbs, records := LeavesArming(c, w, before, Rest(fates));
      case Writing(before) => verbs, records := LeavesPlain(c, w, before, Rest(fates));
    }
  }

  lemma LeavesAtOnce(c: Config, w: World, next: Client) returns (verbs: seq<Verb>, records: seq<Record>)
    requires next.Done?
    requires next == Fail(BadCommand) ==> c.allowWrite && ValidCall(c.call) && c.call.confirm && Arming(c.call)
    ensures WirelessLeaves(c, w, Reply(AfterStart(c, w, next), next.outcome), verbs, records)
  {
    hide ValidCall, Arming;
    assert w.journal + [] == w.journal && w.sent + [] == w.sent;
    verbs, records := StepVerbs(c, Starting), if next == Fail(BadCommand) then [ARM_FAILED] else [];
  }

  lemma LeavesPlain(c: Config, w: World, before: Row, fates: seq<Fault>)
    returns (verbs: seq<Verb>, records: seq<Record>)
    requires c.allowWrite && ValidCall(c.call) && c.call.confirm && !Arming(c.call)
    ensures WirelessLeaves(c, w, WirelessBody(c, AfterStart(c, w, Writing(before)), Writing(before), fates),
                           verbs, records)
  {
    var w1 := AfterStart(c, w, Writing(before));
    EndsWith(c, w1, before, fates);
    WriteEnds(c, w1.dev, before, FateOf(fates, 0));
    hide WirelessBody, ValidCall, Arming, Write;
    assert w.journal + [] == w.journal;
    Associate(w.sent, [Read], [Set]);
    verbs, records := [Read, Set], [];
    assert verbs[1] == Set;
  }

  lemma LeavesArming(c: Config, w: World, before: Row, fates: seq<Fault>)
    returns (verbs: seq<Verb>, records: seq<Record>)
    requires c.allowWrite && ValidCall(c.call) && c.call.confirm && Arming(c.call)
    requires ValidCommands([RevertText(c.call, before)])
    ensures WirelessLeaves(c, w, WirelessBody(c, AfterStart(c, w, Checked(before)), Checked(before), fates),
                           verbs, records)
  {
    var w1 := AfterStart(c, w, Checked(before));
    var later, recorded := TraceFromChecked(c, w1, before, fates);
    hide WirelessBody, ValidCall, Arming, ValidCommands, RevertText, ArmTrace, WirelessTrace, OnlyReads;
    verbs, records := ReadThen(w, w1, WirelessBody(c, w1, Checked(before), fates), later, recorded);
    LiftTrace(c, later, recorded);
  }

  lemma LiftTrace(c: Config, later: seq<Verb>, recorded: seq<Record>)
    requires c.allowWrite && c.call.confirm && Arming(c.call) && ArmTrace(later, recorded)
    ensures WirelessTrace(c, [Read] + later, recorded)
    ensures OnlyReads([Read] + later) ==> Add !in later
  {
    hide Arming;
    var verbs := [Read] + later;
    if Add in later {
      assert verbs[2] == Add;
    }
  }

  lemma ReadThen(w: World, w1: World, r: Reply, later: seq<Verb>, recorded: seq<Record>)
    returns (verbs: seq<Verb>, records: seq<Record>)
    requires w1 == Sent(w, [Read]) && Traced(w1, r, later, recorded)
    ensures verbs == [Read] + later && records == recorded && Traced(w, r, verbs, records)
  {
    Associate(w.sent, [Read], later);
    verbs, records := [Read] + later, recorded;
  }

  // ---- Gate, preview and journal ----

  function Own(inv: Invocation, outcome: Outcome): Record {
    Record(ToolOf(inv), Confirms(inv), EndingOf(outcome))
  }

  /** Whether the call is a wireless write that arms. */
  predicate ArmsFirst(inv: Invocation) {
    inv.SetsWireless? && Arming(inv.call) && inv.call.confirm
  }

  /** What one call of any kind leaves; `inner` is the record of the arming inside it. */
  ghost predicate Leaves(allow: bool, w: World, inv: Invocation, r: Reply, verbs: seq<Verb>, inner: seq<Record>) {
    && r.world.sent == w.sent + verbs
    && r.world.journal == w.journal + (inner + [Own(inv, r.outcome)])
    && (OnlyReads(verbs) ==> r.world.dev == w.dev)
    && (!allow ==> verbs == [])
    && (!Confirms(inv) || r.outcome.Previewed? ==> OnlyReads(verbs))
    && (inner == [] ||
        (ArmsFirst(inv) && allow && (inner == [ARM_MADE] || (inner == [ARM_FAILED] && r.outcome.Failed?))))
    && (ArmsFirst(inv) && Set in verbs ==> verbs == [Read, Read, Add, Set] && inner == [ARM_MADE])
  }

  lemma AuditAdds(tool: Tool, confirm: bool, w: World, r: Reply, verbs: seq<Verb>, inner: seq<Record>)
    requires Traced(w, r, verbs, inner)
    ensures var a := Audited(tool, confirm, r);
            && a.world.dev == r.world.dev && a.outcome == r.outcome && a.world.sent == w.sent + verbs
            && a.world.journal == w.journal + (inner + [Record(tool, confirm, EndingOf(r.outcome))])
  {
    Associate(w.journal, inner, [Record(tool, confirm, EndingOf(r.outcome))]);
  }

  lemma CancelSends(allow: bool, w: World, name: string, confirm: bool, fates: seq<Fault>) returns (verbs: seq<Verb>)
    ensures var r := CancelBody(allow, w, name, confirm, fates);
            && Traced(w, r, verbs, [])
            && (OnlyReads(verbs) ==> r.world.dev == w.dev) && (!allow ==> verbs == [])
            && (!confirm || r.outcome.Previewed? ==> OnlyReads(verbs))
  {
    hide Cancel, FindRow, IsDeadManName, Strip;
    var r := CancelBody(allow, w, name, confirm, fates);
    verbs := if r.world.sent == w.sent then [] else if r.world.sent == w.sent + [Read] then [Read] else [Read, Remove];
    assert verbs == [Read, Remove] ==> verbs[1] == Remove;
  }

  lemma CallLeaves(allow: bool, w: World, inv: Invocation, fates: seq<Fault>)
    returns (verbs: seq<Verb>, inner: seq<Record>)
    ensures Leaves(allow, w, inv, Perform(allow, w, inv, fates), verbs, inner)
  {
    hide ArmBody, CancelBody, WirelessBody, Audited, Arming;
    var body := Body(allow, w, inv, fates);
    match inv {
      case Arms(a) =>
        verbs := ArmSends(allow, w, a, fates);
        inner := [];
        assert verbs == [Read, Add] ==> verbs[1] == Add;
      case CancelsEntry(name, confirm) =>
        verbs := CancelSends(allow, w, name, confirm, fates);
        inner := [];
      case SetsWireless(call, entry, id) =>
        verbs, inner := TraceFromStart(Config(allow, call, entry, id), w, fates);
    }
    AuditAdds(ToolOf(inv), Confirms(inv), w, body, verbs, inner);
  }

  /** The gate and the preview: with writes disabled nothing is sent at all, and an
      unconfirmed or previewed call sends reads only and changes nothing. */
  lemma GateAndPreview(allow: bool, w: World, inv: Invocation, fates: seq<Fault>)
    ensures var r := Perform(allow, w, inv, fates);
            && w.sent <= r.world.sent
            && (!allow ==> r.world == w.(journal := r.world.journal) && r.outcome == Failed(WriteDisabled))
            && (!Confirms(inv) || r.outcome.Previewed? ==>
                  r.world.dev == w.dev && OnlyReads(r.world.sent[|w.sent|..]))
  {
    var verbs, inner := CallLeaves(allow, w, inv, fates);
    var r := Perform(allow, w, inv, fates);
    assert r.world.sent[|w.sent|..] == verbs;
    if !allow {
      DisabledFails(w, inv, fates);
      assert w.sent + [] == w.sent;
    }
  }

  lemma DisabledFails(w: World, inv: Invocation, fates: seq<Fault>)
    ensures Perform(false, w, inv, fates).outcome == Failed(WriteDisabled)
  {
    if inv.SetsWireless? {
      StartsWith(Config(false, inv.call, inv.entry, inv.id), w, fates);
    }
  }

  /** The journal: the call's own record comes last, alone or after the record of the
      arming inside it. An arming call sends its write only after a successful arming,
      and then both records are there even if the write fails. */
  lemma JournalOfCall(allow: bool, w: World, inv: Invocation, fates: seq<Fault>)
    ensures var r := Perform(allow, w, inv, fates);
            && w.journal <= r.world.journal && w.sent <= r.world.sent
            && var records, verbs := r.world.journal[|w.journal|..], r.world.sent[|w.sent|..];
            && (records == [Own(inv, r.outcome)] ||
                (ArmsFirst(inv) && (records == [ARM_MADE, Own(inv, r.outcome)]
                                    || records == [ARM_FAILED, Record(WirelessTool, true, Error)])))
            && (ArmsFirst(inv) && Set in verbs ==>
                  verbs == [Read, Read, Add, Set] && records == [ARM_MADE, Own(inv, r.outcome)])
  {
    var verbs, inner := CallLeaves(allow, w, inv, fates);
    var r := Perform(allow, w, inv, fates);
    assert r.world.sent[|w.sent|..] == verbs && r.world.journal[|w.journal|..] == inner + [Own(inv, r.outcome)];
  }

  // ---- Whole runs ----

  function Records(journal: seq<Record>, tool: Tool): nat {
    if journal == [] then 0 else (if journal[0].tool == tool then 1 else 0) + Records(journal[1..], tool)
  }

  function Calls(hs: seq<Happening>, tool: Tool): nat {
    if hs == [] then 0 else (if hs[0].Invoked? && ToolOf(hs[0].inv) == tool then 1 else 0) + Calls(hs[1..], tool)
  }

  function ArmingCalls(hs: seq<Happening>): nat {
    if hs == [] then 0 else (if hs[0].Invoked? && ArmsFirst(hs[0].inv) then 1 else 0) + ArmingCalls(hs[1..])
  }

  lemma {:induction false} RecordsAppend(a: seq<Record>, b: seq<Record>, tool: Tool)
    ensures Records(a + b, tool) == Records(a, tool) + Records(b, tool)
  {
    if a == [] {
      assert a + b == b;
    } else {
      assert (a + b)[1..] == a[1..] + b;
      RecordsAppend(a[1..], b, tool);
    }
  }

  lemma RecordsOfCall(inner: seq<Record>, own: Record, tool: Tool)
    requires inner == [] || inner == [ARM_MADE] || inner == [ARM_FAILED]
    ensures Records(inner + [own], tool) == (if own.tool == tool then 1 else 0) +
                                            (if tool == ArmTool then |inner| else 0)
  {
    RecordsAppend(inner, [own], tool);
  }

  lemma JournalOfHappening(allow: bool, w: World, h: Happening, tool: Tool)
    ensures w.journal <= Live(allow, w, h).journal
    ensures Records(w.journal, tool) + Calls([h], tool) <= Records(Live(allow, w, h).journal, tool)
            <= Records(w.journal, tool) + Calls([h], tool) + (if tool == ArmTool then ArmingCalls([h]) else 0)
  {
    if h.Invoked? {
      var verbs, inner := CallLeaves(allow, w, h.inv, h.fates);
      var r := Perform(allow, w, h.inv, h.fates);
      hide Perform, ArmsFirst, OnlyReads, Own, Records, Calls, ArmingCalls;
      RecordsAppend(w.journal, inner + [Own(h.inv, r.outcome)], tool);
      RecordsOfCall(inner, Own(h.inv, r.outcome), tool);
      OneCall(h, tool, r.outcome);
    } else {
      hide Records;
      OneCall(h, tool, Applied);
    }
  }

  lemma OneCall(h: Happening, tool: Tool, outcome: Outcome)
    ensures Calls([h], tool) == if h.Invoked? && Own(h.inv, outcome).tool == tool then 1 else 0
    ensures ArmingCalls([h]) == if h.Invoked? && ArmsFirst(h.inv) then 1 else 0
  {
    assert [h][1..] == [];
    hide ArmsFirst;
  }

  /** Over any sequence of calls the journal only grows, by exactly one record a call:
      the armings hidden in wireless writes are the only extra ones. */
  lemma {:induction false} JournalOfRun(allow: bool, w: World, hs: seq<Happening>, tool: Tool)
    ensures var end := LiveAll(allow, w, hs);
            && w.journal <= end.journal
            && Records(w.journal, tool) + Calls(hs, tool) <= Records(end.journal, tool)
               <= Records(w.journal, tool) + Calls(hs, tool) + (if tool == ArmTool then ArmingCalls(hs) else 0)
    decreases |hs|
  {
    if hs != [] {
      JournalOfHappening(allow, w, hs[0], tool);
      OneCall(hs[0], tool, Applied);
      hide Live, Records, ArmsFirst;
      JournalOfRun(allow, Live(allow, w, hs[0]), hs[1..], tool);
    }
  }

  /** The device as it would be had nobody called anything. */
  function LeftAlone(dev: Device, hs: seq<Happening>): Device
    decreases |hs|
  {
    if hs == [] then dev else LeftAlone(OnItsOwn(dev, hs[0]), hs[1..])
  }

  /** With writes disabled, no sequence of calls is noticed by the device. */
  lemma {:induction false} ReadOnlyRun(w: World, hs: seq<Happening>)
    ensures LiveAll(false, w, hs).sent == w.sent && LiveAll(false, w, hs).dev == LeftAlone(w.dev, hs)
    decreases |hs|
  {
    if hs != [] {
      if hs[0].Invoked? {
        GateAndPreview(false, w, hs[0].inv, hs[0].fates);
      }
      hide Perform, Elapse, Fire;
      ReadOnlyRun(Live(false, w, hs[0]), hs[1..]);
    }
  }
}
