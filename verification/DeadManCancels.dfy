/** Cancelling a dead-man: the read finds its entry, the removal drops the id found,
    and the entry may fire in between. */
module DeadManCancels {
  import opened Text
  import opened Calendar
  import opened Formatting
  import opened DeadManScript
  import opened Device
  import opened RowLemmas
  import opened DeadMan
  import opened DeadManStages
  import opened DeadManTheorems
  import opened DeadManOutcomes
  import opened DeadManProgress

  // ---- What a cancel finds ----

  /** A cancel goes after the dead-man exactly when it gives its name and the dead-man
      is pending as the menu is read. */
  lemma TargetIsOwn(c: Config, r0: Row, stage: Stage, s: System, name: string)
    requires Sound(c, r0) && Matches(c, r0, stage, s)
    ensures CancelTarget(c.allowWrite, s.dev, name) == Some(Some(c.id)) <==>
            c.allowWrite && Strip(name) == c.name && DueOf(stage).Some?
  {
    PendingHides(c, r0, stage, s);
    FindIsFirstNamed(s.dev.scheduler, c.name);
    FoundIsMember(s.dev.scheduler, "name", Strip(name));
    PendingHasOwnId(c, r0, DueOf(stage));
    ForeignId(c, r0, stage, s);
    SoundName(c, r0);
    hide Sound, Matches, PendingEntry, Named, Strip, RowOf, ClientFits, Objection, IsDeadManName;
  }


  // ---- After the removal ----

  /** The next command the call sends gets through. */
  predicate Lands(events: seq<Event>) {
    events != [] && if events[0].Advance? then events[0].fault != LostRequest else Lands(events[1..])
  }

  /** With nothing pending, only the call's own write moves the stage. */
  lemma UnpendingStage(c: Config, s: System, stage: Stage, e: Event)
    requires !stage.Unarmed? && DueOf(stage).None? && !CanFire(s.dev, c.name)
    ensures NextStage(c, s, stage, e) ==
            if !stage.Armed? || !e.Advance? then stage
            else if e.fault == LostRequest then Kept(None, stage.early)
            else Changed(None, stage.early)
  {
    hide CanFire, CancelLands, NextCommand;
  }

  function OwnWrite(c: Config, written: bool): Row {
    if written then Writes(c.call.request) else map[]
  }

  lemma RowOfUnpending(c: Config, r0: Row, early: bool)
    ensures RowOf(c, r0, Changed(None, early)) == RowOf(c, r0, Armed(None, early)) + OwnWrite(c, true)
    ensures RowOf(c, r0, Kept(None, early)) == RowOf(c, r0, Armed(None, early))
    ensures forall row: Row :: row + OwnWrite(c, false) == row
  {
    hide Writes, RevertMap;
  }

  /** With nothing pending any more, the call's own outstanding write is all that can
      still change the row. */
  lemma {:induction false} OnlyTheWrite(c: Config, r0: Row, stage: Stage, s: System, events: seq<Event>)
    requires Sound(c, r0) && Matches(c, r0, stage, s) && !stage.Unarmed? && DueOf(stage).None?
    ensures Firings(c, s, events) == 0
    ensures var end := Stages(c, s, stage, events);
            && DueOf(end).None?
            && RowOf(c, r0, end) == RowOf(c, r0, stage) + OwnWrite(c, stage.Armed? && Lands(events))
    decreases |events|
  {
    hide Sound, Matches, Next, NextStage, CanFire, OwnWrite, RowOf;
    if stage.Armed? {
      RowOfUnpending(c, r0, stage.early);
    } else {
      RowOfUnpending(c, r0, false);
    }
    if events != [] {
      var e := events[0];
      FireNeedsPending(c, r0, stage, s, e);
      UnpendingStage(c, s, stage, e);
      StepRefines(c, r0, stage, s, e);
      OnlyTheWrite(c, r0, NextStage(c, s, stage, e), Next(c, s, e), events[1..]);
    }
  }

  /** The removal is final, whatever has happened since the read: in no later run is
      anything reverted, and the row stays as it is but for the call's own write,
      should that still be outstanding. */
  lemma CancelIsFinal(c: Config, r0: Row, dev: Device, before: seq<Event>, fault: Fault, after: seq<Event>)
    requires Setup(c, r0, dev) && fault != LostRequest
    requires Run(c, Opening(dev), before).client.Writing? || Run(c, Opening(dev), before).client.Done?
    ensures var s := Run(c, Opening(dev), before);
            var removed, rows := Next(c, s, Drops(Some(c.id), fault)), Named(s.dev.wireless, c.call.iface);
            && |rows| == 1 && Firings(c, removed, after) == 0
            && Settled(c, rows[0] + OwnWrite(c, s.client.Writing? && Lands(after)), Run(c, removed, after).dev)
  {
    hide *;
    OpeningMatches(c, r0, dev);
    Refinement(c, r0, dev, before);
    SoundRisk(c, r0);
    var s, stage := Run(c, Opening(dev), before), Stages(c, Opening(dev), Unarmed, before);
    var removed := Next(c, s, Drops(Some(c.id), fault));
    PendingHides(c, r0, stage, s);
    ClientOfStage(c, r0, stage, s);
    DoneIsNotUnarmed(c, r0, stage, s);
    RemovalDisarms(c, r0, stage, s, fault);
    CancelEnds(c, r0, stage, removed, after);
    DisarmKeepsRow(c, r0, stage);
  }

  lemma RemovalDisarms(c: Config, r0: Row, stage: Stage, s: System, fault: Fault)
    requires Sound(c, r0) && Matches(c, r0, stage, s) && fault != LostRequest
    ensures Matches(c, r0, Disarm(stage), Next(c, s, Drops(Some(c.id), fault)))
  {
    var e := Drops(Some(c.id), fault);
    hide Sound, Matches, Next, Named, RowOf, ClientFits, Objection, NextStage;
    StepRefines(c, r0, stage, s, e);
    SoundRisk(c, r0);
    PendingHides(c, r0, stage, s);
    StageOfRemoval(c, s, stage, fault);
  }

  lemma StageOfRemoval(c: Config, s: System, stage: Stage, fault: Fault)
    requires fault != LostRequest && (Named(s.dev.scheduler, c.name) == [] ==> DueOf(stage).None?)
    ensures NextStage(c, s, stage, Drops(Some(c.id), fault)) == Disarm(stage)
  {
    hide Named;
  }

  lemma DoneIsNotUnarmed(c: Config, r0: Row, stage: Stage, s: System)
    requires ".id" in r0 && Matches(c, r0, stage, s) && (s.client.Writing? || s.client.Done?)
    ensures !stage.Unarmed?
  {
    hide DeviceFits, Objection;
  }

  lemma CancelEnds(c: Config, r0: Row, stage: Stage, s: System, events: seq<Event>)
    requires Sound(c, r0) && Matches(c, r0, Disarm(stage), s) && !stage.Unarmed?
    ensures Firings(c, s, events) == 0
    ensures var written := OwnWrite(c, stage.Armed? && Lands(events));
            Settled(c, RowOf(c, r0, Disarm(stage)) + written, Run(c, s, events).dev)
  {
    hide Sound, Matches, Run, Stages, Firings, RowOf, OwnWrite, Lands, Named, ClientFits, Objection;
    var next := Disarm(stage);
    OnlyTheWrite(c, r0, next, s, events);
    RunRefines(c, r0, next, s, events);
    SoundRisk(c, r0);
    PendingHides(c, r0, Stages(c, s, next, events), Run(c, s, events));
  }

  lemma DisarmKeepsRow(c: Config, r0: Row, stage: Stage)
    ensures RowOf(c, r0, Disarm(stage)) == RowOf(c, r0, stage)
  {
    hide Writes, RevertMap;
  }

  // ---- Between the read and the removal ----

  lemma ForeignId(c: Config, r0: Row, stage: Stage, s: System)
    requires ".id" in r0 && Matches(c, r0, stage, s)
    ensures forall r :: r in s.dev.scheduler && Get(r, ".id") == Some(c.id) ==> Has(r, "name", c.name)
  {
    hide IdLinked, Named, Objection, RowOf, AllHarmless, ReadScript;
  }

  lemma SoundName(c: Config, r0: Row)
    requires Sound(c, r0)
    ensures IsDeadManName(c.name) && ".id" in r0
  {
  }

  function OwnRevert(c: Config, r0: Row, reverted: bool): Row {
    if reverted then RevertMap(c, r0) else map[]
  }

  lemma ReturnedStage(c: Config, r0: Row, stage: Stage, s: System, e: Event)
    requires Sound(c, r0) && Matches(c, r0, stage, s) && s.client.Done?
    ensures Next(c, s, e).client.Done?
    ensures RowOf(c, r0, NextStage(c, s, stage, e)) == RowOf(c, r0, stage) + OwnRevert(c, r0, FiresOwn(c, s, e))
  {
    SoundRisk(c, r0);
    DoneIsNotUnarmed(c, r0, stage, s);
    ClientOfStage(c, r0, stage, s);
    FireNeedsPending(c, r0, stage, s, e);
    PendingIsFresh(c, r0, stage, s);
    hide Sound, Matches, CanFire, CancelLands, Writes, RevertMap;
    StageOfReturned(c, r0, stage, s, e);
  }

  lemma StageOfReturned(c: Config, r0: Row, stage: Stage, s: System, e: Event)
    requires s.client.Done? && !stage.Unarmed? && !stage.Armed?
    requires (DueOf(stage).Some? ==> !Spent(stage)) && (DueOf(stage).None? ==> !CanFire(s.dev, c.name))
    ensures Next(c, s, e).client.Done?
    ensures RowOf(c, r0, NextStage(c, s, stage, e)) == RowOf(c, r0, stage) + OwnRevert(c, r0, FiresOwn(c, s, e))
  {
    hide CanFire, CancelLands, Writes, RevertMap, Elapse, Fire, RemoveFound;
  }

  /** Once the call has returned, only the dead-man's firing changes the row. */
  lemma {:induction false} ReturnedRow(c: Config, r0: Row, stage: Stage, s: System, events: seq<Event>)
    requires Sound(c, r0) && Matches(c, r0, stage, s) && s.client.Done?
    ensures Run(c, s, events).client.Done?
    ensures RowOf(c, r0, Stages(c, s, stage, events)) ==
            RowOf(c, r0, stage) + OwnRevert(c, r0, Firings(c, s, events) > 0)
    decreases |events|
  {
    hide Sound, Matches, Next, NextStage, FiresOwn, RowOf, RevertMap;
    if events != [] {
      var e := events[0];
      StepRefines(c, r0, stage, s, e);
      ReturnedStage(c, r0, stage, s, e);
      FiresAtMostOnce(c, r0, stage, s, events);
      ReturnedRow(c, r0, NextStage(c, s, stage, e), Next(c, s, e), events[1..]);
    }
  }

  /** What a cancel that gets through means. Once the call has returned and the read has
      found the dead-man, nothing has fired before and nothing fires after the removal,
      and the change is kept if and only if the dead-man did not fire between the two;
      the cancel is answered alike in either case. */
  lemma CancelKeepsExactly(c: Config, r0: Row, dev: Device, before: seq<Event>, name: string, between: seq<Event>,
                           fault: Fault, after: seq<Event>)
    requires Setup(c, r0, dev) && fault != LostRequest && Run(c, Opening(dev), before).client.Done?
    requires CancelTarget(c.allowWrite, Run(c, Opening(dev), before).dev, name) == Some(Some(c.id))
    ensures var s := Run(c, Opening(dev), before);
            var removed := Next(c, Run(c, s, between), Drops(Some(c.id), fault));
            var rows := Named(s.dev.wireless, c.call.iface);
            && Firings(c, Opening(dev), before) == 0 && Firings(c, removed, after) == 0 && |rows| == 1
            && (s.client == Done(Applied) ==> rows[0] == ChangedRow(c, r0))
            && Settled(c, rows[0] + OwnRevert(c, r0, Firings(c, s, between) > 0), Run(c, removed, after).dev)
  {
    hide *;
    OpeningMatches(c, r0, dev);
    Refinement(c, r0, dev, before);
    SoundRisk(c, r0);
    var s, stage := Run(c, Opening(dev), before), Stages(c, Opening(dev), Unarmed, before);
    TargetIsOwn(c, r0, stage, s, name);
    PendingHides(c, r0, stage, s);
    FoundUnfired(c, r0, dev, before);
    ReturnedRow(c, r0, stage, s, between);
    RunRefines(c, r0, stage, s, between);
    AppliedRow(c, r0, stage, s);
    var later, now := Stages(c, s, stage, between), Run(c, s, between);
    DoneIsNotUnarmed(c, r0, later, now);
    ClientOfStage(c, r0, later, now);
    RemovalDisarms(c, r0, later, now, fault);
    CancelEnds(c, r0, later, Next(c, now, Drops(Some(c.id), fault)), after);
    DisarmKeepsRow(c, r0, later);
    NoWrite(c, RowOf(c, r0, later));
  }

  lemma NoWrite(c: Config, row: Row)
    ensures row + OwnWrite(c, false) == row
  {
  }

  lemma FoundUnfired(c: Config, r0: Row, dev: Device, before: seq<Event>)
    requires Setup(c, r0, dev) && DueOf(Stages(c, Opening(dev), Unarmed, before)).Some?
    ensures Firings(c, Opening(dev), before) == 0
  {
    OpeningMatches(c, r0, dev);
    Refinement(c, r0, dev, before);
    SoundRisk(c, r0);
    hide Setup, Sound, Matches, Firings, Stages, Run;
    PendingIsFresh(c, r0, Stages(c, Opening(dev), Unarmed, before), Run(c, Opening(dev), before));
    FiresAtMostOnce(c, r0, Unarmed, Opening(dev), before);
  }

  lemma AppliedRow(c: Config, r0: Row, stage: Stage, s: System)
    requires ".id" in r0 && Matches(c, r0, stage, s) && DueOf(stage).Some?
    ensures s.client == Done(Applied) ==> RowOf(c, r0, stage) == ChangedRow(c, r0)
  {
    hide Matches, Objection, RowOf, ChangedRow;
    PendingIsFresh(c, r0, stage, s);
    PendingHides(c, r0, stage, s);
    if s.client == Done(Applied) {
      assert stage.Changed?;
      UnspentChanged(c, r0, stage.due);
    }
  }

  lemma UnspentChanged(c: Config, r0: Row, due: Option<Moment>)
    ensures RowOf(c, r0, Changed(due, false)) == ChangedRow(c, r0)
  {
    hide Writes, RevertMap;
  }

  /** And it did not, for as long as the device clock was short of the deadline at the
      removal. */
  lemma {:induction false} NoEarlyFiring(c: Config, r0: Row, stage: Stage, s: System, events: seq<Event>, due: Moment)
    requires Sound(c, r0) && Matches(c, r0, stage, s) && !stage.Unarmed?
    requires DueOf(stage).Some? ==> DueOf(stage).value == due
    requires ClockBefore(Run(c, s, events).dev.clock, due)
    ensures Firings(c, s, events) == 0
    decreases |events|
  {
    if events != [] {
      var e := events[0];
      hide Sound, Matches, Next, NextStage, CanFire, ClockBefore, DueOf;
      FireNeedsPending(c, r0, stage, s, e);
      if DueOf(stage).Some? {
        NotDueYet(c, r0, stage, s, events);
      }
      StepRefines(c, r0, stage, s, e);
      UnfiredStage(c, s, stage, e);
      NoEarlyFiring(c, r0, NextStage(c, s, stage, e), Next(c, s, e), events[1..], due);
    }
  }

  lemma UnfiredStage(c: Config, s: System, stage: Stage, e: Event)
    requires !stage.Unarmed? && !CanFire(s.dev, c.name)
    ensures var next := NextStage(c, s, stage, e);
            !next.Unarmed? && (DueOf(next).Some? ==> DueOf(next) == DueOf(stage))
  {
    hide CanFire, CancelLands, NextCommand;
  }

  // ---- A cancel that comes too late ----

  /** Every call that goes through can be reverted under an operator who has already
      found its dead-man: the window passes between the read and the removal, and the
      removal of what is gone is still answered. */
  lemma CancelTooLate(c: Config, r0: Row, dev: Device, wait: nat)
    requires Setup(c, r0, dev) && LetThrough(c, r0, dev) && PastDue(Elapse(dev, wait).clock, DueMoment(c, dev))
    ensures var s := Run(c, Opening(dev), Undisturbed());
            var fired := Next(c, Next(c, s, Pass(wait)), Fires(c.name));
            && CancelTarget(c.allowWrite, s.dev, c.name) == Some(Some(c.id)) && s.client == Done(Applied)
            && Settled(c, RestoredRow(c, r0), Next(c, fired, Drops(Some(c.id), Delivered)).dev)
  {
    hide *;
    RestoredStays();
    UndisturbedStage(c, r0, dev);
    UndisturbedTarget(c, r0, dev);
    ClockAfterWait(c, dev, wait);
    var s, stage := Run(c, Opening(dev), Undisturbed()), Changed(Some(DueMoment(c, dev)), false);
    var later := Next(c, s, Pass(wait));
    var fired := Next(c, later, Fires(c.name));
    PassKeepsStage(c, s, stage, wait);
    StepRefines(c, r0, stage, s, Pass(wait));
    RevertsAtDue(c, r0, DueMoment(c, dev), later);
    RemovalDisarms(c, r0, Restored, fired, Delivered);
    RestoredSettles(c, r0, Next(c, fired, Drops(Some(c.id), Delivered)));
  }

  lemma RestoredStays()
    ensures Disarm(Restored) == Restored
  {
  }

  lemma UndisturbedTarget(c: Config, r0: Row, dev: Device)
    requires Setup(c, r0, dev) && LetThrough(c, r0, dev)
    ensures var s := Run(c, Opening(dev), Undisturbed());
            CancelTarget(c.allowWrite, s.dev, c.name) == Some(Some(c.id)) && s.client == Done(Applied)
    ensures DeadlineFrom(dev.clock, c.call.minutes).DueAt? && c.call.minutes >= 0
  {
    UndisturbedStage(c, r0, dev);
    LetThroughIsDue(c, r0, dev);
    var s := Run(c, Opening(dev), Undisturbed());
    SoundName(c, r0);
    NameIsStripped(c.name);
    hide Setup, Sound, Matches, Run, IsDeadManName, Objection, CancelTarget, DeadlineFrom, ValidCall;
    TargetIsOwn(c, r0, Changed(Some(DueMoment(c, dev)), false), s, c.name);
  }

  lemma NameIsStripped(name: string)
    requires IsDeadManName(name)
    ensures Strip(name) == name
  {
    var last := name[|name| - 1];
    assert name[0] == 'd' && IsHex(last);
    HexIsNoSpace(last);
    hide IsSpace, Strip;
    StripNothing(name);
  }

  lemma HexIsNoSpace(c: char)
    ensures IsHex(c) ==> !IsSpace(c)
    ensures !IsSpace('d')
  {
  }

  lemma RevertsAtDue(c: Config, r0: Row, due: Moment, s: System)
    requires Sound(c, r0) && Matches(c, r0, Changed(Some(due), false), s) && PastDue(s.dev.clock, due)
    ensures Matches(c, r0, Restored, Next(c, s, Fires(c.name)))
  {
    var stage := Changed(Some(due), false);
    hide Sound, Matches, Next, Now, ToSeconds, CanFire, NextStage;
    DueExactly(c, r0, stage, s);
    StepRefines(c, r0, stage, s, Fires(c.name));
    FiringReverts(c, s, due);
  }

  lemma FiringReverts(c: Config, s: System, due: Moment)
    requires CanFire(s.dev, c.name)
    ensures NextStage(c, s, Changed(Some(due), false), Fires(c.name)) == Restored
  {
    hide CanFire;
  }

  lemma RestoredSettles(c: Config, r0: Row, s: System)
    requires Sound(c, r0) && Matches(c, r0, Restored, s)
    ensures Settled(c, RestoredRow(c, r0), s.dev)
  {
    SoundName(c, r0);
    PendingHides(c, r0, Restored, s);
    hide Sound, Matches, RestoredRow, Named;
  }
}
