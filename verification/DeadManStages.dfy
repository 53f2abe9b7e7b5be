/** The protocol refines a small automaton: whatever the order of commands, lost
    answers, passing time, firing entries and cancellations, a protected call is
    always in one of five stages. */
module DeadManStages {
  import opened Text
  import opened Calendar
  import opened Formatting
  import opened RevertCommand
  import opened DeadManScript
  import opened Device
  import opened RowLemmas
  import opened DeadMan

  /** `due` is the deadline of the pending entry, None once it is gone; `early` that it
      fired before the call's write. */
  datatype Stage =
    | Unarmed
    | Armed(due: Option<Moment>, early: bool)
    | Kept(due: Option<Moment>, early: bool)
    | Changed(due: Option<Moment>, early: bool)
    | Restored

  function DueOf(stage: Stage): Option<Moment> {
    match stage
    case Unarmed => None
    case Restored => None
    case _ => stage.due
  }

  /** The dead-man has run. */
  predicate Spent(stage: Stage) {
    match stage
    case Unarmed => false
    case Restored => true
    case Armed(_, early) => early
    case Kept(_, early) => early
    case Changed(_, early) => early
  }

  function Disarm(stage: Stage): Stage {
    match stage
    case Unarmed => Unarmed
    case Restored => Restored
    case Armed(_, early) => Armed(None, early)
    case Kept(_, early) => Kept(None, early)
    case Changed(_, early) => Changed(None, early)
  }

  /** The row after the write. */
  function ChangedRow(c: Config, r0: Row): Row {
    r0 + Writes(c.call.request)
  }

  /** The fields the device reads from the revert command. */
  function RevertMap(c: Config, r0: Row): Row {
    ReadBack(Saved(r0, RevertKeys(c.call.request)))
  }

  /** The row after the write and the revert. */
  function RestoredRow(c: Config, r0: Row): Row {
    ChangedRow(c, r0) + RevertMap(c, r0)
  }

  /** The row the write finds. */
  function BaseRow(c: Config, r0: Row, early: bool): Row {
    if early then r0 + RevertMap(c, r0) else r0
  }

  function RowOf(c: Config, r0: Row, stage: Stage): Row {
    match stage
    case Unarmed => r0
    case Armed(_, early) => BaseRow(c, r0, early)
    case Kept(_, early) => BaseRow(c, r0, early)
    case Changed(_, early) => BaseRow(c, r0, early) + Writes(c.call.request)
    case Restored => RestoredRow(c, r0)
  }

  function PendingEntry(c: Config, r0: Row, due: Moment): Row {
    Entry(c, r0, due)[".id" := c.id]
  }

  function Pending(c: Config, r0: Row, due: Option<Moment>): seq<Row> {
    if due.None? then [] else [PendingEntry(c, r0, due.value)]
  }

  // ---- Entries of other origin ----

  predicate Harmless(c: Config, statement: Statement) {
    match statement
    case SetWireless(name, fields) => name != c.call.iface && KeepsIdentity(fields)
    case RemoveScheduler(name) => name != c.name
    case _ => true
  }

  predicate AllHarmless(c: Config, statements: seq<Statement>) {
    forall i :: 0 <= i < |statements| ==> Harmless(c, statements[i])
  }

  /** An entry that neither rewrites the interface nor removes the dead-man. */
  predicate Foreign(c: Config, row: Row) {
    && Get(row, ".id") != Some(c.id)
    && AllHarmless(c, ReadScript(GetOr(row, "on-event", "")))
  }

  ghost predicate Others(c: Config, scheduler: seq<Row>) {
    forall r :: r in scheduler ==> Has(r, "name", c.name) || Foreign(c, r)
  }

  /** The menus as one stage sees them: one row for the interface, `own` for the
      dead-man's name, and only foreign entries besides. */
  ghost predicate DeviceFits(c: Config, id: string, row: Row, own: seq<Row>, dev: Device) {
    && Named(dev.wireless, c.call.iface) == [row]
    && IdLinked(dev.wireless, c.call.iface, id)
    && Named(dev.scheduler, c.name) == own
    && Others(c, dev.scheduler)
  }

  /** Where the theorems start: one row for the interface, carrying its own id, and a
      revert that does not rename it; a fresh entry name and id. */
  ghost predicate Setup(c: Config, r0: Row, dev: Device) {
    && IsDeadManName(c.name) && c.call.iface != "" && Arming(c.call)
    && ".id" in r0
    && KeepsIdentity(RevertMap(c, r0))
    && DeviceFits(c, r0[".id"], r0, [], dev)
  }

  ghost predicate ClientFits(c: Config, r0: Row, stage: Stage, client: Client) {
    match stage
    case Unarmed =>
      client.Starting? || ((client.Checked? || client.Timed?) && client.before == r0 && Objection(c.call, r0).None?)
    case Armed(_, _) => client == Writing(r0) && Objection(c.call, r0).None?
    case Kept(_, _) => client.Done? && !client.outcome.Applied?
    case _ => client.Done?
  }

  ghost predicate Matches(c: Config, r0: Row, stage: Stage, s: System)
    requires ".id" in r0
  {
    && DeviceFits(c, r0[".id"], RowOf(c, r0, stage), Pending(c, r0, DueOf(stage)), s.dev)
    && ClientFits(c, r0, stage, s.client)
    && (WasArmed(stage) ==> Objection(c.call, r0).None?)
    && (DueOf(stage).Some? ==> !Spent(stage))
  }

  predicate WasArmed(stage: Stage) {
    DueOf(stage).Some? || stage.Armed? || stage.Changed? || Spent(stage)
  }

  // ---- What the revert does to a row ----

  predicate ProperKeys(keys: seq<string>) {
    && keys != [] && "name" !in keys && ".id" !in keys
    && (forall i :: 0 <= i < |keys| ==> IsIdentifier(keys[i]))
    && (forall i, j :: 0 <= i < j < |keys| ==> keys[i] != keys[j])
  }

  lemma KeysAreProper(r: Request)
    ensures ProperKeys(RevertKeys(r))
  {
    if r.TxPower? {
      assert |"tx-power-mode"| != |"tx-power"|;
    } else if r.Channel? {
      assert "frequency"[0] != "channel-width"[0];
    }
  }

  lemma {:induction false} SavedMapIs(row: Row, keys: seq<string>)
    requires AllPresent(row, keys)
    ensures forall k :: k in MapOf(Saved(row, keys)) <==> k in keys
    ensures forall k :: k in keys ==> k in row && MapOf(Saved(row, keys))[k] == row[k]
  {
    if keys != [] {
      var n := |keys| - 1;
      assert Saved(row, keys)[..n] == Saved(row, keys[..n]);
      SavedMapIs(row, keys[..n]);
      assert keys == keys[..n] + [keys[n]];
    }
  }

  lemma WritesKeepIdentity(r: Request)
    ensures KeepsIdentity(Writes(r))
  {
    hide SignedDecimal;
    assert |".id"| == 3 && |"name"| == 4 && |"frequency"| == 9 && |"channel-width"| == 13 && |"distance"| == 8;
    assert |"tx-power-mode"| == 13 && |"tx-power"| == 8 && |"adaptive-noise-immunity"| == 23;
  }

  // ---- When the revert restores ----

  /** No saved value holds a blank. */
  predicate Faithful(c: Config, r0: Row) {
    ValuesAre(Saved(r0, RevertKeys(c.call.request)), NotBlank)
  }

  lemma RevertFields(c: Config, r0: Row)
    ensures var fields := Saved(r0, RevertKeys(c.call.request));
            KeysAreIdentifiers(fields) && DistinctKeys(fields) && fields != []
  {
    KeysAreProper(c.call.request);
    hide RevertKeys, IsIdentifier;
  }

  /** The revert puts a key back for blank-free values; otherwise some saved key ends
      without the value it had. */
  lemma RevertMapIs(c: Config, r0: Row)
    requires Objection(c.call, r0).None?
    ensures var keys := RevertKeys(c.call.request);
            && (forall k :: k in keys ==> k in r0 && k in RevertMap(c, r0))
            && (Faithful(c, r0) ==> forall k :: k in RevertMap(c, r0) ==> k in keys && RevertMap(c, r0)[k] == r0[k])
            && (!Faithful(c, r0) ==> exists i :: 0 <= i < |keys| && RevertMap(c, r0)[keys[i]] != r0[keys[i]])
  {
    hide ValidCommands, RevertText, CacSeconds, RevertKeys, MapOf, ReadBack, KeysAreIdentifiers, DistinctKeys;
    var keys := RevertKeys(c.call.request);
    var fields := Saved(r0, keys);
    RevertFields(c, r0);
    ReadBackValues(fields);
    SavedMapIs(r0, keys);
    forall k | k in keys ensures k in r0 && k in RevertMap(c, r0) {
      var i :| 0 <= i < |keys| && keys[i] == k;
      assert fields[i].key == k;
    }
    if !Faithful(c, r0) {
      var i :| 0 <= i < |fields| && !All(fields[i].value, NotBlank);
      assert fields[i].key == keys[i] && fields[i].value == r0[keys[i]];
      assert All(RevertMap(c, r0)[keys[i]], NotBlank);
    }
  }

  /** A revert that restores renames nothing. */
  lemma FaithfulKeepsIdentity(c: Config, r0: Row)
    requires Objection(c.call, r0).None? && Faithful(c, r0)
    ensures KeepsIdentity(RevertMap(c, r0))
  {
    RevertMapIs(c, r0);
    KeysAreProper(c.call.request);
    hide Objection, Faithful, RevertMap, RevertKeys;
  }

  // ---- Firing ----

  predicate Protectable(c: Config, r0: Row) {
    && IsDeadManName(c.name) && c.call.iface != "" && Objection(c.call, r0).None?
    && KeepsIdentity(RevertMap(c, r0))
  }

  function Reverted(c: Config, r0: Row, dev: Device): Device {
    dev.(wireless := SetNamed(dev.wireless, c.call.iface, RevertMap(c, r0)),
         scheduler := RemoveNamed(dev.scheduler, c.name))
  }

  lemma EntryReads(c: Config, r0: Row, due: Moment)
    ensures var e := PendingEntry(c, r0, due);
            && GetOr(e, "on-event", "") == BuildScript(c.name, [RevertText(c.call, r0)])
            && GetOr(e, "start-date", "") == FormatDate(due) && GetOr(e, "start-time", "") == FormatTime(due)
            && Has(e, "name", c.name) && Get(e, ".id") == Some(c.id)
  {
    hide BuildScript, RevertText, FormatDate, FormatTime;
    var e := PendingEntry(c, r0, due);
    assert |".id"| == 3 && |"name"| == 4 && |"on-event"| == 8 && |"interval"| == 8 && |"policy"| == 6;
    assert "on-event"[0] != "interval"[0] && |"start-date"| == 10;
    assert "start-date"[6] != "start-time"[6];
  }

  lemma RunOwnScript(c: Config, r0: Row, due: Moment, dev: Device)
    requires Protectable(c, r0)
    ensures RunStatements(dev, ReadScript(GetOr(PendingEntry(c, r0, due), "on-event", ""))) == Reverted(c, r0, dev)
  {
    var command := RevertText(c.call, r0);
    var change := SetWireless(c.call.iface, RevertMap(c, r0));
    RevertReadsBack(c, r0);
    EntryReads(c, r0, due);
    assert IsDeadManName(c.name);
    hide *;
    ReadBuiltScript(c.name, [command]);
    ReadOne(command);
    RunThree(dev, change, RemoveScheduler(c.name));
    RevertedIs(c, r0, dev);
  }

  lemma RevertedIs(c: Config, r0: Row, dev: Device)
    ensures Reverted(c, r0, dev) == dev.(wireless := SetNamed(dev.wireless, c.call.iface, RevertMap(c, r0)),
                                         scheduler := RemoveNamed(dev.scheduler, c.name))
  {
  }

  lemma ReadOne(command: string)
    ensures ReadAll([command]) == [ReadStatement(command)]
  {
  }

  lemma RevertReadsBack(c: Config, r0: Row)
    requires Objection(c.call, r0).None? && c.call.iface != ""
    ensures ValidCommands([RevertText(c.call, r0)])
    ensures ReadStatement(RevertText(c.call, r0)) == SetWireless(c.call.iface, RevertMap(c, r0))
  {
    RevertFields(c, r0);
    hide RevertKeys, ValidCommand, ReadStatement, PrintRevert, ReadBack, Saved, CacSeconds;
    assert ValidCommand([RevertText(c.call, r0)][0]);
    AcceptedReadsBack(c.call.iface, Saved(r0, RevertKeys(c.call.request)));
  }

  lemma RunThree(dev: Device, change: Statement, removal: Statement)
    requires change.SetWireless? && removal.RemoveScheduler?
    ensures RunStatements(dev, [Log] + ([change] + [removal])) ==
            dev.(wireless := SetNamed(dev.wireless, change.name, change.fields),
                 scheduler := RemoveNamed(dev.scheduler, removal.name))
  {
    hide SetNamed, RemoveNamed;
    var all := [Log] + ([change] + [removal]);
    assert all[1..] == [change, removal] && [change, removal][1..] == [removal] && [removal][1..] == [];
    var d1 := dev.(wireless := SetNamed(dev.wireless, change.name, change.fields));
    var d2 := d1.(scheduler := RemoveNamed(dev.scheduler, removal.name));
    assert RunStatements(d2, []) == d2;
    assert RunStatements(d1, [removal]) == d2;
    assert RunStatements(dev, [change, removal]) == d2;
  }

  lemma FireOwnEffect(c: Config, r0: Row, due: Moment, dev: Device)
    requires Protectable(c, r0)
    requires Named(dev.scheduler, c.name) == [PendingEntry(c, r0, due)] && CanFire(dev, c.name)
    ensures Fire(dev, c.name) == Reverted(c, r0, dev)
  {
    FindIsFirstNamed(dev.scheduler, c.name);
    RunOwnScript(c, r0, due, dev);
    hide PendingEntry, RunStatements, ReadScript, Reverted, Protectable, CanFire, Named;
  }

  lemma RevertedFits(c: Config, r0: Row, id: string, row: Row, own: seq<Row>, dev: Device)
    requires KeepsIdentity(RevertMap(c, r0)) && DeviceFits(c, id, row, own, dev)
    ensures DeviceFits(c, id, row + RevertMap(c, r0), [], Reverted(c, r0, dev))
  {
    hide RevertMap, Named, SetNamed, RemoveNamed, IdLinked, Foreign;
    var fields := RevertMap(c, r0);
    NamedAfterSet(dev.wireless, c.call.iface, fields, c.call.iface);
    SetKeepsLink(dev.wireless, c.call.iface, fields, c.call.iface, id);
    NamedAfterRemove(dev.scheduler, c.name, c.name);
    RemoveNamedKeepsSome(dev.scheduler, c.name);
  }

  lemma {:induction false} RunHarmless(c: Config, id: string, row: Row, own: seq<Row>, dev: Device,
                                       statements: seq<Statement>)
    requires DeviceFits(c, id, row, own, dev) && AllHarmless(c, statements)
    ensures DeviceFits(c, id, row, own, RunStatements(dev, statements))
    decreases |statements|
  {
    if statements != [] && !statements[0].Unknown? {
      var st := statements[0];
      assert Harmless(c, st);
      StepHarmless(c, id, row, own, dev, st);
      hide RunOne, DeviceFits, Harmless;
      assert forall i :: 0 <= i < |statements[1..]| ==> statements[1..][i] == statements[i + 1];
      RunHarmless(c, id, row, own, RunOne(dev, st), statements[1..]);
    }
  }

  lemma StepHarmless(c: Config, id: string, row: Row, own: seq<Row>, dev: Device, st: Statement)
    requires DeviceFits(c, id, row, own, dev) && Harmless(c, st)
    ensures DeviceFits(c, id, row, own, RunOne(dev, st))
  {
    hide SetNamed, RemoveNamed, Named, Foreign;
    match st {
      case SetWireless(name, fields) =>
        NamedAfterSet(dev.wireless, name, fields, c.call.iface);
        SetKeepsLink(dev.wireless, name, fields, c.call.iface, id);
      case RemoveScheduler(name) =>
        NamedAfterRemove(dev.scheduler, name, c.name);
        RemoveNamedKeepsSome(dev.scheduler, name);
      case _ =>
    }
  }

  lemma {:induction false} FoundIsMember(rows: seq<Row>, key: string, value: string)
    ensures FindRow(rows, key, value).Some? ==>
              FindRow(rows, key, value).value in rows && Has(FindRow(rows, key, value).value, key, value)
  {
    if rows != [] {
      FoundIsMember(rows[1..], key, value);
    }
  }

  lemma FireForeign(c: Config, id: string, row: Row, own: seq<Row>, dev: Device, name: string)
    requires DeviceFits(c, id, row, own, dev) && name != c.name
    ensures DeviceFits(c, id, row, own, Fire(dev, name))
  {
    FoundIsMember(dev.scheduler, "name", name);
    if CanFire(dev, name) {
      var entry := FindRow(dev.scheduler, "name", name).value;
      hide ReadScript, RunStatements, Named, Due, IdLinked;
      assert Foreign(c, entry);
      RunHarmless(c, id, row, own, dev, ReadScript(GetOr(entry, "on-event", "")));
    }
  }

  // ---- One step ----

  /** The stage after an event; the system only decides whether the call survives a
      read, whether the entry is due, and whether a cancel gets through. */
  function NextStage(c: Config, s: System, stage: Stage, e: Event): Stage {
    match e
    case Pass(_) => stage
    case Fires(name) => if name == c.name && CanFire(s.dev, name) then AfterFiring(stage) else stage
    case Drops(_, _) => if CancelLands(c, s, e) then Disarm(stage) else stage
    case Advance(fault) =>
      match stage
      case Unarmed =>
        if s.client.Timed? then
          match fault
          case Delivered => Armed(Some(s.client.deadline), false)
          case LostRequest => Kept(None, false)
          case LostReply => Kept(Some(s.client.deadline), false)
        else if NextCommand(c, s, fault).client.Done? then Kept(None, false)
        else Unarmed
      case Armed(due, early) => if fault == LostRequest then Kept(due, early) else Changed(due, early)
      case _ => stage
  }

  function AfterFiring(stage: Stage): Stage {
    match stage
    case Armed(due, early) => Armed(None, early || due.Some?)
    case Kept(due, early) => Kept(None, early || due.Some?)
    case Changed(due, _) => if due.Some? then Restored else stage
    case _ => stage
  }

  /** A cancel takes the dead-man off the menu before it has fired. */
  predicate CancelLands(c: Config, s: System, e: Event) {
    e.Drops? && e.id == Some(c.id) && e.dropFault != LostRequest && Named(s.dev.scheduler, c.name) != []
  }

  lemma FireStep(c: Config, r0: Row, stage: Stage, s: System, name: string)
    requires ".id" in r0 && Matches(c, r0, stage, s)
    requires DueOf(stage).Some? ==> Protectable(c, r0)
    ensures Matches(c, r0, NextStage(c, s, stage, Fires(name)), Next(c, s, Fires(name)))
  {
    hide Protectable, DeviceFits, Objection, Writes, Fire, CanFire, PendingEntry, RevertMap;
    var row, own := RowOf(c, r0, stage), Pending(c, r0, DueOf(stage));
    if name != c.name {
      FireForeign(c, r0[".id"], row, own, s.dev, name);
    } else {
      FireByName(c, r0, row, DueOf(stage), s.dev);
    }
  }

  /** An attempt to fire the dead-man: it reverts if it is pending and due, else nothing. */
  lemma FireByName(c: Config, r0: Row, row: Row, due: Option<Moment>, dev: Device)
    requires ".id" in r0 && DeviceFits(c, r0[".id"], row, Pending(c, r0, due), dev)
    requires due.Some? ==> Protectable(c, r0)
    ensures due.None? ==> !CanFire(dev, c.name)
    ensures DeviceFits(c, r0[".id"], if CanFire(dev, c.name) then row + RevertMap(c, r0) else row,
                       if CanFire(dev, c.name) then [] else Pending(c, r0, due), Fire(dev, c.name))
  {
    FindIsFirstNamed(dev.scheduler, c.name);
    if CanFire(dev, c.name) {
      FireOwnEffect(c, r0, due.value, dev);
      hide Fire, CanFire, Reverted, PendingEntry, RevertMap;
      RevertedFits(c, r0, r0[".id"], row, Pending(c, r0, due), dev);
    }
  }

  lemma PassStep(c: Config, r0: Row, stage: Stage, s: System, seconds: nat)
    requires ".id" in r0 && Matches(c, r0, stage, s)
    ensures Matches(c, r0, stage, Next(c, s, Pass(seconds)))
  {
    hide Named, Others, IdLinked, Objection, Entry, AddSeconds, Now;
  }

  predicate OwnId(c: Config, own: seq<Row>) {
    forall i :: 0 <= i < |own| ==> Get(own[i], ".id") == Some(c.id)
  }

  /** Removing an id drops the dead-man exactly when it is the dead-man's. */
  lemma RemovalFits(c: Config, id: string, row: Row, own: seq<Row>, dev: Device, gone: Option<string>)
    requires DeviceFits(c, id, row, own, dev) && OwnId(c, own)
    ensures DeviceFits(c, id, row, if gone == Some(c.id) then [] else own,
                       dev.(scheduler := RemoveById(dev.scheduler, gone)))
  {
    var rows := dev.scheduler;
    hide IdLinked, Named, AllHarmless, ReadScript;
    forall i | 0 <= i < |rows| && Has(rows[i], "name", c.name)
      ensures (Get(rows[i], ".id") == gone) == (gone == Some(c.id))
    {
      NamedHolds(rows, c.name, i);
    }
    NamedAfterRemoveById(rows, gone, c.name, gone == Some(c.id));
    RemoveByIdKeepsSome(rows, gone);
  }

  lemma PendingHasOwnId(c: Config, r0: Row, due: Option<Moment>)
    ensures OwnId(c, Pending(c, r0, due))
  {
    if due.Some? {
      EntryReads(c, r0, due.value);
    }
  }

  lemma DropStep(c: Config, r0: Row, stage: Stage, s: System, id: Option<string>, fault: Fault)
    requires ".id" in r0 && Matches(c, r0, stage, s)
    ensures Matches(c, r0, NextStage(c, s, stage, Drops(id, fault)), Next(c, s, Drops(id, fault)))
  {
    var row, own := RowOf(c, r0, stage), Pending(c, r0, DueOf(stage));
    PendingHasOwnId(c, r0, DueOf(stage));
    hide Objection, ChangedRow, PendingEntry, RestoredRow, OwnId, Others, IdLinked, Named;
    if fault != LostRequest {
      RemovalFits(c, r0[".id"], row, own, s.dev, id);
    }
  }

  lemma StartFits(c: Config, r0: Row, s: System, fault: Fault)
    requires ".id" in r0 && Arming(c.call) && Named(s.dev.wireless, c.call.iface) == [r0]
    ensures var next := Start(c, s.dev, fault);
            next.Done? || (next == Checked(r0) && Objection(c.call, r0).None?)
  {
    hide Objection, ValidRequest, Arming;
    FindIsFirstNamed(s.dev.wireless, c.call.iface);
  }

  lemma ArmFits(c: Config, r0: Row, dev: Device, due: Moment)
    requires ".id" in r0 && DeviceFits(c, r0[".id"], r0, [], dev)
    ensures DeviceFits(c, r0[".id"], r0, [PendingEntry(c, r0, due)],
                       dev.(scheduler := AddRow(dev.scheduler, c.id, Entry(c, r0, due))))
  {
    EntryReads(c, r0, due);
    NamedAfterAdd(dev.scheduler, PendingEntry(c, r0, due), c.name);
    hide Entry, Foreign, IdLinked;
  }

  lemma WriteFits(c: Config, id: string, row: Row, own: seq<Row>, dev: Device)
    requires DeviceFits(c, id, row, own, dev) && KeepsIdentity(Writes(c.call.request))
    ensures HasId(dev.wireless, id)
    ensures DeviceFits(c, id, row + Writes(c.call.request), own,
                       dev.(wireless := UpdateById(dev.wireless, id, Writes(c.call.request))))
  {
    hide Others, Writes, KeepsIdentity, HasId;
    UpdateFindsNamed(dev.wireless, c.call.iface, id, Writes(c.call.request), row);
  }

  lemma AdvanceStep(c: Config, r0: Row, stage: Stage, s: System, fault: Fault)
    requires ".id" in r0 && Arming(c.call) && Matches(c, r0, stage, s)
    ensures Matches(c, r0, NextStage(c, s, stage, Advance(fault)), Next(c, s, Advance(fault)))
  {
    hide Objection, Writes, Entry, Arming, HasId, UpdateById, DeadlineFrom, PendingEntry;
    match s.client {
      case Starting =>
        StartFits(c, r0, s, fault);
      case Checked(_) =>
      case Timed(_, due) =>
        ArmFits(c, r0, s.dev, due);
        hide DeviceFits;
      case Writing(_) =>
        WritesKeepIdentity(c.call.request);
        WriteFits(c, r0[".id"], RowOf(c, r0, stage), Pending(c, r0, DueOf(stage)), s.dev);
        hide DeviceFits, RevertMap;
      case Done(_) =>
    }
  }
}
