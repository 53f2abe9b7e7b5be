/** The ends a protected write can come to: restored once, accepted for good, or
    refused without a trace; and the one race that defeats it. */
module DeadManOutcomes {
  import opened Calendar
  import opened Formatting
  import opened DeadManScript
  import opened Device
  import opened RowLemmas
  import opened DeadMan
  import opened DeadManStages
  import opened DeadManTheorems

  // ---- Restoration ----

  /** The interface's row, and that no entry of the dead-man's name is left. */
  ghost predicate Settled(c: Config, row: Row, dev: Device) {
    Named(dev.wireless, c.call.iface) == [row] && Named(dev.scheduler, c.name) == []
  }

  lemma RestoredStage(c: Config, r0: Row, stage: Stage, s: System)
    requires Sound(c, r0) && Matches(c, r0, stage, s) && Spent(stage) && !stage.Changed?
    ensures Settled(c, RowOf(c, r0, stage), s.dev)
    ensures RestoredTo(c, r0, RowOf(c, r0, stage)) <==> Faithful(c, r0)
  {
    PendingHides(c, r0, stage, s);
    PendingIsFresh(c, r0, stage, s);
    SoundRisk(c, r0);
    hide Matches, Objection, RestoredRow, Sound, Faithful, RestoredTo;
    RestoredRowIs(c, r0);
  }

  /** Over every uncancelled run whose write was on time: if the dead-man fired, it
      fired exactly once and its entry is gone; and the row is restored if and only if
      no saved value holds a blank. */
  lemma Restoration(c: Config, r0: Row, dev: Device, events: seq<Event>)
    requires Setup(c, r0, dev) && NoCancel(c, Opening(dev), events) && WritesOnTime(c, Opening(dev), events)
    requires Firings(c, Opening(dev), events) > 0
    ensures Firings(c, Opening(dev), events) == 1
    ensures var end := Run(c, Opening(dev), events).dev;
            exists row :: Settled(c, row, end) && (RestoredTo(c, r0, row) <==> Faithful(c, r0))
  {
    OpeningMatches(c, r0, dev);
    Refinement(c, r0, dev, events);
    var s, stage := Run(c, Opening(dev), events), Stages(c, Opening(dev), Unarmed, events);
    hide Setup, Sound, Matches, NoCancel, WritesOnTime, Run, Stages, Firings, RestoredTo, Settled, Faithful;
    FiresAtMostOnce(c, r0, Unarmed, Opening(dev), events);
    ChangedUnguarded(c, r0, Unarmed, Opening(dev), events);
    ChangedPending(c, r0, stage, s);
    RestoredStage(c, r0, stage, s);
  }

  /** The device clock is readable and has reached the deadline. */
  ghost predicate PastDue(clock: seq<Row>, due: Moment) {
    Now(clock).Some? && Representable(Now(clock).value) && ToSeconds(due) <= ToSeconds(Now(clock).value)
  }

  lemma FiringEnds(c: Config, s: System, stage: Stage)
    requires DueOf(stage).Some? && CanFire(s.dev, c.name)
    ensures var next := NextStage(c, s, stage, Fires(c.name));
            Spent(next) && !next.Changed?
  {
    hide CanFire, CancelLands, NextCommand;
  }

  /** And it does fire: after any run that leaves the entry pending with the device
      clock at or past its deadline, the scheduler's next attempt removes the entry and
      restores the row exactly when no saved value holds a blank. */
  lemma FiringRestores(c: Config, r0: Row, dev: Device, events: seq<Event>, due: Moment)
    requires Setup(c, r0, dev)
    requires DueOf(Stages(c, Opening(dev), Unarmed, events)) == Some(due)
    requires PastDue(Run(c, Opening(dev), events).dev.clock, due)
    ensures var end := Next(c, Run(c, Opening(dev), events), Fires(c.name)).dev;
            exists row :: Settled(c, row, end) && (RestoredTo(c, r0, row) <==> Faithful(c, r0))
  {
    OpeningMatches(c, r0, dev);
    Refinement(c, r0, dev, events);
    var s, stage := Run(c, Opening(dev), events), Stages(c, Opening(dev), Unarmed, events);
    DueExactly(c, r0, stage, s);
    assert CanFire(s.dev, c.name);
    FiringEnds(c, s, stage);
    hide *;
    StepRefines(c, r0, stage, s, Fires(c.name));
    RestoredStage(c, r0, NextStage(c, s, stage, Fires(c.name)), Next(c, s, Fires(c.name)));
  }

  // ---- Armed before written ----

  /** Some entry carries a script that, run on this device, restores the row. */
  ghost predicate RestorerPending(c: Config, r0: Row, dev: Device) {
    exists entry, row :: entry in dev.scheduler && Has(entry, "name", c.name) && RestoredTo(c, r0, row)
      && Settled(c, row, RunStatements(dev, ReadScript(GetOr(entry, "on-event", ""))))
  }

  lemma RevertSettles(c: Config, r0: Row, own: seq<Row>, dev: Device)
    requires Sound(c, r0) && Objection(c.call, r0).None?
    requires DeviceFits(c, r0[".id"], ChangedRow(c, r0), own, dev)
    ensures Settled(c, RestoredRow(c, r0), Reverted(c, r0, dev))
    ensures RestoredTo(c, r0, RestoredRow(c, r0)) <==> Faithful(c, r0)
  {
    SoundRisk(c, r0);
    RestoredRowIs(c, r0);
    RevertedFits(c, r0, r0[".id"], ChangedRow(c, r0), own, dev);
    hide Objection, ChangedRow, RevertMap, IdLinked, Others, Reverted, Faithful, RestoredTo;
  }

  lemma PendingReverts(c: Config, r0: Row, due: Moment, s: System)
    requires Sound(c, r0) && Matches(c, r0, Changed(Some(due), false), s)
    ensures var entry := PendingEntry(c, r0, due);
            && Named(s.dev.scheduler, c.name) == [entry]
            && entry in s.dev.scheduler && Has(entry, "name", c.name)
            && Settled(c, RestoredRow(c, r0), RunStatements(s.dev, ReadScript(GetOr(entry, "on-event", ""))))
    ensures RestoredTo(c, r0, RestoredRow(c, r0)) <==> Faithful(c, r0)
  {
    var stage, entry := Changed(Some(due), false), PendingEntry(c, r0, due);
    PendingIsProtected(c, r0, stage, s);
    PendingIsFirst(c, r0, stage, s);
    FoundIsMember(s.dev.scheduler, "name", c.name);
    RunOwnScript(c, r0, due, s.dev);
    hide Protectable, DeviceFits, PendingEntry, RunStatements, ReadScript, Objection, ChangedRow,
      RestoredRow, Reverted, Settled, RestoredTo, RevertMap, Faithful;
    RevertSettles(c, r0, [entry], s.dev);
    FitsOwn(c, r0[".id"], ChangedRow(c, r0), [entry], s.dev);
  }

  lemma FitsOwn(c: Config, id: string, row: Row, own: seq<Row>, dev: Device)
    requires DeviceFits(c, id, row, own, dev)
    ensures Named(dev.scheduler, c.name) == own
  {
  }

  lemma OnlyEntry(rows: seq<Row>, name: string, entry: Row, row: Row)
    requires Named(rows, name) == [entry] && row in rows && Has(row, "name", name)
    ensures row == entry
  {
    var i :| 0 <= i < |rows| && rows[i] == row;
    NamedHolds(rows, name, i);
  }

  lemma PendingRestores(c: Config, r0: Row, due: Moment, s: System)
    requires Sound(c, r0) && Matches(c, r0, Changed(Some(due), false), s)
    ensures RestorerPending(c, r0, s.dev) <==> Faithful(c, r0)
  {
    PendingReverts(c, r0, due, s);
    var entry := PendingEntry(c, r0, due);
    hide Sound, Matches, PendingEntry, RunStatements, ReadScript, RestoredRow, RestoredTo, Faithful, Named;
    if RestorerPending(c, r0, s.dev) {
      var other, row :| other in s.dev.scheduler && Has(other, "name", c.name) && RestoredTo(c, r0, row)
        && Settled(c, row, RunStatements(s.dev, ReadScript(GetOr(other, "on-event", ""))));
      OnlyEntry(s.dev.scheduler, c.name, entry, other);
      assert [row] == [RestoredRow(c, r0)];
      assert row == RestoredRow(c, r0);
    }
  }

  lemma NothingPending(c: Config, r0: Row, dev: Device)
    requires Named(dev.scheduler, c.name) == []
    ensures !RestorerPending(c, r0, dev)
  {
    forall entry | entry in dev.scheduler ensures !Has(entry, "name", c.name) {
      if Has(entry, "name", c.name) {
        var i :| 0 <= i < |dev.scheduler| && dev.scheduler[i] == entry;
        NamedHolds(dev.scheduler, c.name, i);
      }
    }
    hide RestoredTo, Settled, RunStatements, ReadScript;
  }

  /** In every state an uncancelled on-time run passes through, a changed protected
      field has a pending entry whose script puts it back, exactly when no saved value
      holds a blank. */
  lemma ArmedBeforeWritten(c: Config, r0: Row, dev: Device, events: seq<Event>)
    requires Setup(c, r0, dev) && NoCancel(c, Opening(dev), events) && WritesOnTime(c, Opening(dev), events)
    ensures var end := Run(c, Opening(dev), events).dev;
            |Named(end.wireless, c.call.iface)| == 1
            && (Differs(c, r0, Named(end.wireless, c.call.iface)[0]) ==>
                  (RestorerPending(c, r0, end) <==> Faithful(c, r0)))
  {
    assert !Unguarded(Unarmed);
    hide *;
    OpeningMatches(c, r0, dev);
    Refinement(c, r0, dev, events);
    SoundRisk(c, r0);
    var s, stage := Run(c, Opening(dev), events), Stages(c, Opening(dev), Unarmed, events);
    ChangedUnguarded(c, r0, Unarmed, Opening(dev), events);
    PendingHides(c, r0, stage, s);
    StageRestores(c, r0, stage, s);
  }

  lemma StageRestores(c: Config, r0: Row, stage: Stage, s: System)
    requires Sound(c, r0) && Matches(c, r0, stage, s) && !Unguarded(stage)
    ensures ".id" in r0
    ensures Differs(c, r0, RowOf(c, r0, stage)) ==> (RestorerPending(c, r0, s.dev) <==> Faithful(c, r0))
  {
    SoundRisk(c, r0);
    PendingHides(c, r0, stage, s);
    PendingIsFresh(c, r0, stage, s);
    hide Sound, Matches, Differs, RestorerPending, Faithful, RowOf, Objection, ClientFits;
    if stage.Changed? {
      PendingRestores(c, r0, stage.due.value, s);
    } else if Faithful(c, r0) {
      NotChangedIsOriginal(c, r0, stage, s);
    } else if Spent(stage) {
      NothingPending(c, r0, s.dev);
    } else {
      UnspentIsOriginal(c, r0, stage);
    }
  }

  lemma UnspentIsOriginal(c: Config, r0: Row, stage: Stage)
    requires !Spent(stage) && !stage.Changed?
    ensures !Differs(c, r0, RowOf(c, r0, stage))
  {
    hide RevertMap, Writes, RevertKeys;
  }

  lemma NotChangedIsOriginal(c: Config, r0: Row, stage: Stage, s: System)
    requires Sound(c, r0) && Faithful(c, r0) && Matches(c, r0, stage, s) && !stage.Changed?
    ensures !Differs(c, r0, RowOf(c, r0, stage))
  {
    PendingHides(c, r0, stage, s);
    hide Sound, Matches, Objection, RevertMap, Faithful, RevertKeys, ChangedRow;
    assert !Differs(c, r0, r0);
    if Spent(stage) {
      RevertedDiffers(c, r0, r0);
      RevertedDiffers(c, r0, ChangedRow(c, r0));
    }
  }

  // ---- Several dead-men on one interface ----

  /** A dead-man: the call that armed it, the row that call read, and its deadline. */
  datatype Guarding = Guarding(config: Config, before: Row, due: Moment)

  ghost predicate PendingAndDue(g: Guarding, dev: Device) {
    && Protectable(g.config, g.before) && CanFire(dev, g.config.name)
    && Named(dev.scheduler, g.config.name) == [PendingEntry(g.config, g.before, g.due)]
  }

  ghost predicate AllDue(iface: string, gs: seq<Guarding>, dev: Device) {
    && (forall i :: 0 <= i < |gs| ==> gs[i].config.call.iface == iface && PendingAndDue(gs[i], dev))
    && (forall i, j :: 0 <= i < j < |gs| ==> gs[i].config.name != gs[j].config.name)
  }

  function FireAll(dev: Device, gs: seq<Guarding>): Device
    decreases |gs|
  {
    if gs == [] then dev else FireAll(Fire(dev, gs[0].config.name), gs[1..])
  }

  /** The row after each dead-man in turn has put its values into it. */
  function Leave(row: Row, gs: seq<Guarding>): Row
    decreases |gs|
  {
    if gs == [] then row else Leave(row + RevertMap(gs[0].config, gs[0].before), gs[1..])
  }

  lemma ClockDecidesFiring(c: Config, a: Device, b: Device)
    requires a.clock == b.clock && Named(a.scheduler, c.name) == Named(b.scheduler, c.name)
    ensures CanFire(a, c.name) == CanFire(b, c.name)
  {
    FindIsFirstNamed(a.scheduler, c.name);
    FindIsFirstNamed(b.scheduler, c.name);
    hide ReadMoment, Now;
  }

  lemma RevertedRow(c: Config, r0: Row, dev: Device, row: Row)
    requires Protectable(c, r0) && Named(dev.wireless, c.call.iface) == [row]
    ensures Named(Reverted(c, r0, dev).wireless, c.call.iface) == [row + RevertMap(c, r0)]
    ensures forall name :: Named(Reverted(c, r0, dev).scheduler, name) ==
                           if name == c.name then [] else Named(dev.scheduler, name)
  {
    hide RevertMap, Objection;
    NamedAfterSet(dev.wireless, c.call.iface, RevertMap(c, r0), c.call.iface);
    forall name ensures Named(RemoveNamed(dev.scheduler, c.name), name) ==
                        if name == c.name then [] else Named(dev.scheduler, name) {
      NamedAfterRemove(dev.scheduler, c.name, name);
    }
  }

  lemma StillDue(g: Guarding, dev: Device, next: Device)
    requires PendingAndDue(g, dev) && next.clock == dev.clock
    requires Named(next.scheduler, g.config.name) == Named(dev.scheduler, g.config.name)
    ensures PendingAndDue(g, next)
  {
    hide Protectable, PendingEntry, CanFire, Named;
    ClockDecidesFiring(g.config, dev, next);
  }

  /** One dead-man fires: its values enter the row, its entries and no others go. */
  lemma FireEffect(g: Guarding, dev: Device, row: Row)
    requires PendingAndDue(g, dev) && Named(dev.wireless, g.config.call.iface) == [row]
    ensures var next := Fire(dev, g.config.name);
            && next.clock == dev.clock
            && Named(next.wireless, g.config.call.iface) == [row + RevertMap(g.config, g.before)]
            && forall name :: Named(next.scheduler, name) ==
                              if name == g.config.name then [] else Named(dev.scheduler, name)
  {
    FireOwnEffect(g.config, g.before, g.due, dev);
    RevertedRow(g.config, g.before, dev, row);
    hide Protectable, PendingEntry, CanFire, Named, Fire, RevertMap;
  }

  lemma FireFirst(iface: string, gs: seq<Guarding>, dev: Device, row: Row)
    requires gs != [] && AllDue(iface, gs, dev) && Named(dev.wireless, iface) == [row]
    ensures var g, next := gs[0], Fire(dev, gs[0].config.name);
            && Named(next.wireless, iface) == [row + RevertMap(g.config, g.before)]
            && AllDue(iface, gs[1..], next)
            && (forall name :: Named(next.scheduler, name) ==
                               if name == g.config.name then [] else Named(dev.scheduler, name))
  {
    hide Fire, RevertMap, Named, PendingAndDue;
    var next, rest := Fire(dev, gs[0].config.name), gs[1..];
    FireEffect(gs[0], dev, row);
    forall i | 0 <= i < |rest| ensures PendingAndDue(rest[i], next) && rest[i].config.call.iface == iface {
      assert rest[i] == gs[1 + i] && PendingAndDue(gs[1 + i], dev);
      StillDue(rest[i], dev, next);
    }
  }

  /** Nothing serialises dead-men on one interface: whatever their number, all that are
      due fire, each putting its own values into the row, and no entry is left. */
  lemma {:induction false} AllFire(iface: string, gs: seq<Guarding>, dev: Device, row: Row)
    requires AllDue(iface, gs, dev) && Named(dev.wireless, iface) == [row]
    ensures var end := FireAll(dev, gs);
            && Named(end.wireless, iface) == [Leave(row, gs)]
            && (forall i :: 0 <= i < |gs| ==> Named(end.scheduler, gs[i].config.name) == [])
            && (forall name :: Named(dev.scheduler, name) == [] ==> Named(end.scheduler, name) == [])
    decreases |gs|
  {
    hide AllDue, Fire, RevertMap, Named;
    if gs != [] {
      FireFirst(iface, gs, dev, row);
      AllFire(iface, gs[1..], Fire(dev, gs[0].config.name), row + RevertMap(gs[0].config, gs[0].before));
      assert forall i :: 1 <= i < |gs| ==> gs[i] == gs[1..][i - 1];
    }
  }

  /** What the dead-man puts back. */
  function PutBack(g: Guarding): Row {
    RevertMap(g.config, g.before)
  }

  /** The i-th is the last of the dead-men that sets the key. */
  predicate LastSetter(gs: seq<Guarding>, i: int, key: string) {
    0 <= i < |gs| && key in PutBack(gs[i]) && forall j :: i < j < |gs| ==> key !in PutBack(gs[j])
  }

  lemma {:induction false} LeftAlone(row: Row, gs: seq<Guarding>, key: string)
    requires forall i :: 0 <= i < |gs| ==> key !in PutBack(gs[i])
    ensures Get(Leave(row, gs), key) == Get(row, key)
    decreases |gs|
  {
    hide RevertMap;
    if gs != [] {
      var rest := gs[1..];
      assert forall i :: 0 <= i < |rest| ==> rest[i] == gs[1 + i];
      assert key !in PutBack(gs[0]);
      LeftAlone(row + PutBack(gs[0]), rest, key);
    }
  }

  /** A key ends with the value the last dead-man setting it puts back. */
  lemma {:induction false} LeftValue(row: Row, gs: seq<Guarding>, i: nat, key: string)
    requires LastSetter(gs, i, key)
    ensures Get(Leave(row, gs), key) == Get(PutBack(gs[i]), key)
    decreases |gs|
  {
    hide RevertMap;
    var rest, next := gs[1..], row + PutBack(gs[0]);
    assert forall k :: 0 <= k < |rest| ==> rest[k] == gs[1 + k];
    if i == 0 {
      LeftAlone(next, rest, key);
    } else {
      LeftValue(next, rest, i - 1, key);
    }
  }

  lemma {:induction false} SomeLastSetter(gs: seq<Guarding>, i: nat, key: string) returns (last: nat)
    requires i < |gs| && key in PutBack(gs[i])
    ensures LastSetter(gs, last, key)
    decreases |gs| - i
  {
    hide PutBack;
    if j :| i < j < |gs| && key in PutBack(gs[j]) {
      last := SomeLastSetter(gs, j, key);
    } else {
      last := i;
    }
  }

  /** Every field a dead-man sets has this row's value. */
  predicate AgreesOn(gs: seq<Guarding>, row: Row, original: Row) {
    forall i, key :: 0 <= i < |gs| && key in PutBack(gs[i]) ==> Get(row, key) == Get(original, key)
  }

  /** The last dead-man to set a field puts this row's value back. */
  ghost predicate LastPutsBack(gs: seq<Guarding>, original: Row) {
    forall i, key :: LastSetter(gs, i, key) ==> Get(PutBack(gs[i]), key) == Get(original, key)
  }

  lemma LeavesLast(row: Row, gs: seq<Guarding>, original: Row)
    ensures AgreesOn(gs, Leave(row, gs), original) <==> LastPutsBack(gs, original)
  {
    hide PutBack, Leave, Get;
    forall i, key | LastSetter(gs, i, key) ensures Get(Leave(row, gs), key) == Get(PutBack(gs[i]), key) {
      LeftValue(row, gs, i, key);
    }
    forall i, key | 0 <= i < |gs| && key in PutBack(gs[i])
      ensures exists j :: LastSetter(gs, j, key)
    {
      var j := SomeLastSetter(gs, i, key);
    }
  }

  /** So the last to fire wins: the interface ends with some row's values, say those
      before any of the changes, if and only if for each field a dead-man sets, the last
      to set it puts that row's value back. For blank-free saved values that is the value
      it had saved, of each field it guards. */
  lemma LastToFireWins(iface: string, gs: seq<Guarding>, dev: Device, row: Row, original: Row)
    requires AllDue(iface, gs, dev) && Named(dev.wireless, iface) == [row]
    ensures Named(FireAll(dev, gs).wireless, iface) == [Leave(row, gs)]
    ensures AgreesOn(gs, Leave(row, gs), original) <==> LastPutsBack(gs, original)
    ensures forall i :: 0 <= i < |gs| && Faithful(gs[i].config, gs[i].before) ==> PutsBackSaved(gs[i])
  {
    AllFire(iface, gs, dev, row);
    LeavesLast(row, gs, original);
    forall i | 0 <= i < |gs| && Faithful(gs[i].config, gs[i].before) ensures PutsBackSaved(gs[i]) {
      assert PendingAndDue(gs[i], dev);
      SavedIsPutBack(gs[i]);
    }
  }

  /** The dead-man sets the fields it guards, to the values its call had read. */
  ghost predicate PutsBackSaved(g: Guarding) {
    forall key :: (key in PutBack(g) <==> key in RevertKeys(g.config.call.request))
                  && (key in PutBack(g) ==> Get(PutBack(g), key) == Get(g.before, key))
  }

  lemma SavedIsPutBack(g: Guarding)
    requires Objection(g.config.call, g.before).None? && Faithful(g.config, g.before)
    ensures PutsBackSaved(g)
  {
    RevertMapIs(g.config, g.before);
    hide Objection, Faithful, RevertMap, RevertKeys;
  }

  // ---- The race ----

  /** Arm, then let the window run out before the write gets through. */
  function RaceEvents(c: Config, wait: nat): seq<Event> {
    [Advance(Delivered), Advance(Delivered), Advance(Delivered), Pass(wait), Fires(c.name), Advance(Delivered)]
  }

  /** One late write anywhere in a run spoils it. */
  lemma {:induction false} LateSomewhere(c: Config, s: System, before: seq<Event>, e: Event, after: seq<Event>)
    requires LateWrite(c, Run(c, s, before), e)
    ensures !WritesOnTime(c, s, before + [e] + after)
    decreases |before|
  {
    hide LateWrite, Next;
    var all := before + [e] + after;
    if before == [] {
      assert all[0] == e;
    } else {
      assert all[0] == before[0] && all[1..] == before[1..] + [e] + after;
      LateSomewhere(c, Next(c, s, before[0]), before[1..], e, after);
    }
  }

  lemma RunNext(c: Config, s: System, e: Event, rest: seq<Event>)
    ensures Run(c, s, [e] + rest) == Run(c, Next(c, s, e), rest)
  {
    hide Next;
    assert ([e] + rest)[1..] == rest;
  }

  /** Up to the write: arm, wait, let the entry fire. */
  function UntilWrite(c: Config, wait: nat): seq<Event> {
    [Advance(Delivered)] + ([Advance(Delivered)] + ([Advance(Delivered)] + ([Pass(wait)] + ([Fires(c.name)] + []))))
  }

  lemma RunUntilWrite(c: Config, s: System, wait: nat)
    ensures var go := Advance(Delivered);
            Run(c, s, UntilWrite(c, wait)) ==
            Next(c, Next(c, Next(c, Next(c, Next(c, s, go), go), go), Pass(wait)), Fires(c.name))
  {
    hide Next;
    var go := Advance(Delivered);
    var s1 := Next(c, s, go);
    var s2 := Next(c, s1, go);
    var s3 := Next(c, s2, go);
    var s4 := Next(c, s3, Pass(wait));
    RunNext(c, s, go, [go] + ([go] + ([Pass(wait)] + ([Fires(c.name)] + []))));
    RunNext(c, s1, go, [go] + ([Pass(wait)] + ([Fires(c.name)] + [])));
    RunNext(c, s2, go, [Pass(wait)] + ([Fires(c.name)] + []));
    RunNext(c, s3, Pass(wait), [Fires(c.name)] + []);
    RunNext(c, s4, Fires(c.name), []);
  }

  lemma RaceIsUntilWrite(c: Config, wait: nat)
    ensures RaceEvents(c, wait) == UntilWrite(c, wait) + [Advance(Delivered)] + []
  {
  }

  lemma RaceHasNoCancel(c: Config, s: System, wait: nat)
    ensures NoCancel(c, s, RaceEvents(c, wait))
  {
    NoDropsNoCancel(c, s, RaceEvents(c, wait));
  }

  lemma {:induction false} NoDropsNoCancel(c: Config, s: System, events: seq<Event>)
    requires forall i :: 0 <= i < |events| ==> !events[i].Drops?
    ensures NoCancel(c, s, events)
    decreases |events|
  {
    hide Next;
    if events != [] {
      assert forall i :: 0 <= i < |events[1..]| ==> events[1..][i] == events[i + 1];
      NoDropsNoCancel(c, Next(c, s, events[0]), events[1..]);
    }
  }

  /** Whenever a call gets as far as arming, a write delayed past the deadline lands
      after the revert, with nothing left to undo it. */
  lemma DelayedWriteIsLate(c: Config, r0: Row, dev: Device, due: Moment, wait: nat)
    requires Setup(c, r0, dev)
    requires Start(c, dev, Delivered) == Checked(r0) && ReadClock(c, dev, r0, Delivered) == Timed(r0, due)
    requires PastDue(Elapse(dev, wait).clock, due)
    ensures NoCancel(c, Opening(dev), RaceEvents(c, wait)) && !WritesOnTime(c, Opening(dev), RaceEvents(c, wait))
  {
    var go := Advance(Delivered);
    OpeningMatches(c, r0, dev);
    FirstThree(c, r0, dev, due, wait);
    RaceIsUntilWrite(c, wait);
    RaceHasNoCancel(c, Opening(dev), wait);
    RunUntilWrite(c, Opening(dev), wait);
    hide *;
    ArmedAfterThree(c, r0, dev, due);
    var s3 := Next(c, Next(c, Next(c, Opening(dev), go), go), go);
    ArmedThenLate(c, r0, s3, due, wait);
    LateSomewhere(c, Opening(dev), UntilWrite(c, wait), go, []);
  }

  lemma ArmedAfterThree(c: Config, r0: Row, dev: Device, due: Moment)
    requires Sound(c, r0) && Matches(c, r0, Unarmed, Opening(dev))
    requires var s1 := Next(c, Opening(dev), Advance(Delivered));
             var s2 := Next(c, s1, Advance(Delivered));
             s1.client == Checked(r0) && s2.client == Timed(r0, due)
    ensures var s1 := Next(c, Opening(dev), Advance(Delivered));
            var s2 := Next(c, s1, Advance(Delivered));
            Matches(c, r0, Armed(Some(due), false), Next(c, s2, Advance(Delivered)))
  {
    hide Sound, Matches, Next, NextStage;
    var go := Advance(Delivered);
    var s0 := Opening(dev);
    var s1 := Next(c, s0, go);
    var s2 := Next(c, s1, go);
    StageOfAdvance(c, s0);
    StageOfAdvance(c, s1);
    StageOfAdvance(c, s2);
    StepRefines(c, r0, Unarmed, s0, go);
    StepRefines(c, r0, Unarmed, s1, go);
    StepRefines(c, r0, Unarmed, s2, go);
  }

  lemma FirstThree(c: Config, r0: Row, dev: Device, due: Moment, wait: nat)
    requires Start(c, dev, Delivered) == Checked(r0) && ReadClock(c, dev, r0, Delivered) == Timed(r0, due)
    ensures var go := Advance(Delivered);
            var s1 := Next(c, Opening(dev), go);
            var s2 := Next(c, s1, go);
            var s3 := Next(c, s2, go);
            && s1.client == Checked(r0) && s2.client == Timed(r0, due) && s3.client == Writing(r0)
            && Next(c, s3, Pass(wait)).dev.clock == Elapse(dev, wait).clock
  {
    hide Start, ReadClock, Entry, AddRow, Now, AddSeconds, PrintClock;
    var s1, s2 := System(dev, Checked(r0)), System(dev, Timed(r0, due));
    assert Next(c, Opening(dev), Advance(Delivered)) == s1 && Next(c, s1, Advance(Delivered)) == s2;
    assert Next(c, s2, Advance(Delivered)).dev.clock == dev.clock;
  }

  lemma ArmedThenLate(c: Config, r0: Row, s: System, due: Moment, wait: nat)
    requires Sound(c, r0) && Matches(c, r0, Armed(Some(due), false), s)
    requires PastDue(Next(c, s, Pass(wait)).dev.clock, due)
    ensures LateWrite(c, Next(c, Next(c, s, Pass(wait)), Fires(c.name)), Advance(Delivered))
  {
    var armed := Armed(Some(due), false);
    var s4 := Next(c, s, Pass(wait));
    hide Sound, Matches, Next, Now, ToSeconds, CanFire, LateWrite;
    StepRefines(c, r0, armed, s, Pass(wait));
    DueExactly(c, r0, armed, s4);
    StepRefines(c, r0, armed, s4, Fires(c.name));
    LateWriteIsLate(c, r0, Armed(None, true), Next(c, s4, Fires(c.name)), Advance(Delivered));
  }

  lemma StageOfAdvance(c: Config, s: System)
    ensures NextStage(c, s, Unarmed, Advance(Delivered)) ==
            if s.client.Timed? then Armed(Some(s.client.deadline), false)
            else if Next(c, s, Advance(Delivered)).client.Done? then Kept(None, false) else Unarmed
  {
    hide NextCommand;
  }

  // ---- Refusal ----

  /** A failure the call itself decides on, not a lost command or a vanished row. */
  predicate Refusal(client: Client) {
    client.Done? && client.outcome.Failed? && !client.outcome.error.Transport? && !client.outcome.error.NoSuchItem?
  }

  /** Nothing written and nothing armed, on purpose. */
  predicate TurnedAway(client: Client) {
    Refusal(client) || client == Done(Previewed)
  }

  /** The device without the call: what else happens, happens. */
  function WithoutCall(c: Config, dev: Device, events: seq<Event>): Device
    decreases |events|
  {
    if events == [] then dev
    else WithoutCall(c, if events[0].Advance? then dev else Next(c, Opening(dev), events[0]).dev, events[1..])
  }

  /** Between the call's commands the device goes its own way. */
  lemma OtherwiseAlike(c: Config, s: System, e: Event)
    requires !e.Advance?
    ensures Next(c, s, e) == System(Next(c, Opening(s.dev), e).dev, s.client)
  {
    hide Elapse, Fire, RemoveFound;
  }

  lemma {:induction false} DoneStays(c: Config, s: System, events: seq<Event>)
    requires s.client.Done?
    ensures Run(c, s, events) == System(WithoutCall(c, s.dev, events), s.client)
    decreases |events|
  {
    if events != [] {
      if events[0].Advance? {
        assert Next(c, s, events[0]) == s;
      } else {
        OtherwiseAlike(c, s, events[0]);
      }
      hide Next;
      DoneStays(c, Next(c, s, events[0]), events[1..]);
    }
  }

  /** A call that is about to arm or to write is not turned away any more. */
  lemma LateCommand(c: Config, s: System, fault: Fault)
    requires s.client.Timed? || s.client.Writing?
    ensures var next := NextCommand(c, s, fault).client;
            !TurnedAway(next) && (next.Writing? || next.Done?)
  {
    hide UpdateById, HasId, Entry, AddRow, Writes;
  }

  lemma {:induction false} LateNeverTurnedAway(c: Config, s: System, events: seq<Event>)
    requires s.client.Timed? || s.client.Writing?
    ensures !TurnedAway(Run(c, s, events).client)
    decreases |events|
  {
    if events != [] {
      var next := Next(c, s, events[0]);
      if events[0].Advance? {
        LateCommand(c, s, events[0].fault);
      } else {
        OtherwiseAlike(c, s, events[0]);
      }
      hide Next, TurnedAway;
      if next.client.Done? {
        DoneStays(c, next, events[1..]);
      } else {
        LateNeverTurnedAway(c, next, events[1..]);
      }
    }
  }

  lemma EarlyCommand(c: Config, s: System, fault: Fault)
    requires s.client.Starting? || s.client.Checked?
    ensures NextCommand(c, s, fault).dev == s.dev
  {
    hide Start, ReadClock;
  }

  lemma {:induction false} TurnedAwayFrom(c: Config, s: System, events: seq<Event>)
    requires s.client.Starting? || s.client.Checked?
    ensures TurnedAway(Run(c, s, events).client) ==> Run(c, s, events).dev == WithoutCall(c, s.dev, events)
    decreases |events|
  {
    if events != [] {
      var next := Next(c, s, events[0]);
      if events[0].Advance? {
        EarlyCommand(c, s, events[0].fault);
      } else {
        OtherwiseAlike(c, s, events[0]);
      }
      hide Next, TurnedAway;
      if next.client.Done? {
        DoneStays(c, next, events[1..]);
      } else if next.client.Timed? || next.client.Writing? {
        LateNeverTurnedAway(c, next, events[1..]);
      } else {
        TurnedAwayFrom(c, next, events[1..]);
      }
    }
  }

  /** A refused or previewed call, of any kind, with any losses and whatever goes on
      meanwhile, leaves the device that all the rest alone would have left. */
  lemma RefusalLeavesNoTrace(c: Config, dev: Device, events: seq<Event>)
    ensures TurnedAway(Run(c, Opening(dev), events).client) ==>
              Run(c, Opening(dev), events).dev == WithoutCall(c, dev, events)
  {
    TurnedAwayFrom(c, Opening(dev), events);
  }
}
