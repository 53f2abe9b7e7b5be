/** What a protected call achieves when nothing gets in its way, and exactly when. */
module DeadManProgress {
  import opened Text
  import opened Calendar
  import opened Formatting
  import opened RevertCommand
  import opened DeadManScript
  import opened Device
  import opened RowLemmas
  import opened DeadMan
  import opened DeadManStages
  import opened DeadManTheorems
  import opened DeadManOutcomes

  /** Arming is refused before the clock is read exactly when the window is too short,
      a field to restore is missing, the name leaves the accepted class, a value is
      neither one nor runs on into further assignments, or the printed revert is unsafe,
      too long or denied. */
  lemma RefusedExactly(call: Call, before: Row)
    ensures var keys := RevertKeys(call.request);
            var fields, text := Saved(before, keys), RevertText(call, before);
            Objection(call, before).None? <==>
            && RequiredCac(call.request, before) <= call.minutes * 60 && AllPresent(before, keys)
            && All(call.iface, IsSelectorChar)
            && AllSpread(fields) && !EndsInSpace(fields[|fields| - 1].value) && ValuesAre(fields, IsSafeChar)
            && |text| <= MAX_LENGTH && !IsDenied(text)
  {
    hide RevertKeys, Saved, ValidCommand, ValidCommands, RequiredCac, PrintRevert, IsDenied, AllPresent,
      IsIdentifier, ValuesAre, AllSpread, EndsInSpace, ProperKeys, IsSelectorChar, IsSafeChar;
    KeysAreProper(call.request);
    SavedKeys(before, RevertKeys(call.request));
    OneCommand(RevertText(call, before));
    PrintedAccepted(call.iface, Saved(before, RevertKeys(call.request)));
  }

  lemma SavedKeys(row: Row, keys: seq<string>)
    requires ProperKeys(keys)
    ensures KeysAreIdentifiers(Saved(row, keys)) && Saved(row, keys) != []
  {
    hide IsIdentifier;
  }

  lemma OneCommand(text: string)
    ensures ValidCommands([text]) <==> ValidCommand(text)
  {
    hide ValidCommand;
    assert [text][0] == text;
  }

  // ---- An undisturbed call ----

  /** Every command of the call answered at once. */
  function Undisturbed(): seq<Event> {
    [Advance(Delivered)] + ([Advance(Delivered)] + ([Advance(Delivered)] + ([Advance(Delivered)] + [])))
  }

  function AfterEach(c: Config, s: System): System {
    Next(c, s, Advance(Delivered))
  }

  lemma RunUndisturbed(c: Config, s: System)
    ensures Run(c, s, Undisturbed()) == AfterEach(c, AfterEach(c, AfterEach(c, AfterEach(c, s))))
  {
    hide Next;
    var go := Advance(Delivered);
    var s1 := AfterEach(c, s);
    var s2 := AfterEach(c, s1);
    var s3 := AfterEach(c, s2);
    RunNext(c, s, go, [go] + ([go] + ([go] + [])));
    RunNext(c, s1, go, [go] + ([go] + []));
    RunNext(c, s2, go, [go] + []);
    RunNext(c, s3, go, []);
  }

  /** What lets a call through. */
  ghost predicate LetThrough(c: Config, r0: Row, dev: Device) {
    && c.allowWrite && ValidCall(c.call) && c.call.confirm && Objection(c.call, r0).None?
    && DeadlineFrom(dev.clock, c.call.minutes).DueAt?
  }

  lemma StartsThrough(c: Config, r0: Row, dev: Device)
    requires Sound(c, r0) && Named(dev.wireless, c.call.iface) == [r0]
    ensures var next := Start(c, dev, Delivered);
            && (next == Checked(r0) <==>
                  c.allowWrite && ValidCall(c.call) && c.call.confirm && Objection(c.call, r0).None?)
            && (next != Checked(r0) ==> next.Done? && !next.outcome.Applied?)
  {
    FindIsFirstNamed(dev.wireless, c.call.iface);
    hide Objection, ValidRequest, ValuesAre, IsDeadManName;
  }

  lemma DoneIsDone(c: Config, s: System)
    requires s.client.Done?
    ensures AfterEach(c, s) == s
  {
  }

  lemma TimedGoesThrough(c: Config, r0: Row, due: Moment, s: System)
    requires Sound(c, r0) && Matches(c, r0, Unarmed, s) && s.client == Timed(r0, due)
    ensures var end := AfterEach(c, AfterEach(c, s));
            Matches(c, r0, Changed(Some(due), false), end) && end.client == Done(Applied)
  {
    var go := Advance(Delivered);
    var s1 := AfterEach(c, s);
    StageOfAdvance(c, s);
    StepRefines(c, r0, Unarmed, s, go);
    WriteStage(c, due, s1);
    StepRefines(c, r0, Armed(Some(due), false), s1, go);
    WriteAnswers(c, r0, due, s1);
    hide Sound, Matches, Next, NextStage;
  }

  lemma WriteStage(c: Config, due: Moment, s: System)
    ensures NextStage(c, s, Armed(Some(due), false), Advance(Delivered)) == Changed(Some(due), false)
  {
    hide NextCommand;
  }

  lemma WriteAnswers(c: Config, r0: Row, due: Moment, s: System)
    requires Sound(c, r0) && Matches(c, r0, Armed(Some(due), false), s)
    ensures AfterEach(c, s).client == Done(Applied)
  {
    WritesKeepIdentity(c.call.request);
    hide RevertMap, Objection, Writes, DeviceFits, HasId, UpdateById, PendingEntry, KeepsIdentity;
    WriteFits(c, r0[".id"], r0, Pending(c, r0, Some(due)), s.dev);
  }

  /** The interface's row and the rows of the dead-man's name. */
  ghost predicate Holds(c: Config, row: Row, own: seq<Row>, dev: Device) {
    Named(dev.wireless, c.call.iface) == [row] && Named(dev.scheduler, c.name) == own
  }

  lemma ChangedHolds(c: Config, r0: Row, due: Moment, s: System)
    requires ".id" in r0 && Matches(c, r0, Changed(Some(due), false), s)
    ensures Holds(c, ChangedRow(c, r0), [PendingEntry(c, r0, due)], s.dev)
  {
    hide Objection, Writes, RevertMap, PendingEntry, IdLinked, Others;
  }

  lemma ClockThrough(c: Config, r0: Row, dev: Device)
    requires Sound(c, r0) && ValidCall(c.call)
    ensures var next := ReadClock(c, dev, r0, Delivered);
            var deadline := DeadlineFrom(dev.clock, c.call.minutes);
            && (deadline.DueAt? ==> next == Timed(r0, deadline.when))
            && (!deadline.DueAt? ==> next.Done? && !next.outcome.Applied?)
  {
    hide DeadlineFrom, ValidRequest, ValuesAre, IsDeadManName;
  }

  lemma StaysUnarmed(c: Config, r0: Row, s: System)
    requires Sound(c, r0) && Matches(c, r0, Unarmed, s) && !s.client.Timed? && !AfterEach(c, s).client.Done?
    ensures Matches(c, r0, Unarmed, AfterEach(c, s))
  {
    StageOfAdvance(c, s);
    hide Sound, Matches, Next, NextStage;
    StepRefines(c, r0, Unarmed, s, Advance(Delivered));
  }

  lemma FirstSteps(c: Config, dev: Device, before: Row)
    ensures AfterEach(c, Opening(dev)) == System(dev, Start(c, dev, Delivered))
    ensures AfterEach(c, System(dev, Checked(before))) == System(dev, ReadClock(c, dev, before, Delivered))
  {
    hide Start, ReadClock;
  }

  function DueMoment(c: Config, dev: Device): Moment
    requires c.call.minutes >= 0 && DeadlineFrom(dev.clock, c.call.minutes).DueAt?
  {
    DeadlineFrom(dev.clock, c.call.minutes).when
  }

  lemma UndisturbedStage(c: Config, r0: Row, dev: Device)
    requires Setup(c, r0, dev)
    ensures var end := Run(c, Opening(dev), Undisturbed());
            && Sound(c, r0)
            && (end.client == Done(Applied) <==> LetThrough(c, r0, dev))
            && (LetThrough(c, r0, dev) ==> Matches(c, r0, Changed(Some(DueMoment(c, dev)), false), end))
  {
    OpeningMatches(c, r0, dev);
    SetupRow(c, r0, dev);
    RunUndisturbed(c, Opening(dev));
    hide Sound, Matches, Setup, Named, Objection, AfterEach, Start, ReadClock, DeadlineFrom, Run, ValidCall;
    StartsThrough(c, r0, dev);
    FirstSteps(c, dev, r0);
    var s1 := AfterEach(c, Opening(dev));
    if s1.client.Done? {
      DoneIsDone(c, s1);
    } else {
      StaysUnarmed(c, r0, Opening(dev));
      ClockThrough(c, r0, dev);
      var s2 := AfterEach(c, s1);
      if s2.client.Done? {
        DoneIsDone(c, s2);
      } else {
        StaysUnarmed(c, r0, s1);
        TimedGoesThrough(c, r0, s2.client.deadline, s2);
      }
    }
  }

  /** An undisturbed call is applied if and only if writes are enabled, its arguments
      are valid, it is confirmed, nothing objects to arming and the deadline can be
      computed; and then the row has the new values and the entry that restores the
      old ones is pending at the exact deadline. */
  lemma UndisturbedCall(c: Config, r0: Row, dev: Device)
    requires Setup(c, r0, dev)
    ensures var end := Run(c, Opening(dev), Undisturbed());
            && (end.client == Done(Applied) <==> LetThrough(c, r0, dev))
            && (LetThrough(c, r0, dev) ==>
                  Holds(c, ChangedRow(c, r0), [PendingEntry(c, r0, DueMoment(c, dev))], end.dev))
  {
    UndisturbedStage(c, r0, dev);
    SoundId(c, r0);
    hide Setup, LetThrough, Sound, Matches, Run, ChangedRow, PendingEntry, Holds;
    if LetThrough(c, r0, dev) {
      LetThroughIsDue(c, r0, dev);
      ChangedHolds(c, r0, DueMoment(c, dev), Run(c, Opening(dev), Undisturbed()));
    }
  }

  lemma SoundId(c: Config, r0: Row)
    requires Sound(c, r0)
    ensures ".id" in r0
  {
  }

  lemma LetThroughIsDue(c: Config, r0: Row, dev: Device)
    requires LetThrough(c, r0, dev)
    ensures c.call.minutes >= 0 && DeadlineFrom(dev.clock, c.call.minutes).DueAt?
  {
  }

  /** The whole cycle: once such a call's window has passed unattended, the entry
      fires and is gone, and the row is back if and only if no saved value holds a
      blank. */
  lemma FullCycle(c: Config, r0: Row, dev: Device, wait: nat)
    requires Setup(c, r0, dev) && LetThrough(c, r0, dev)
    requires PastDue(Elapse(dev, wait).clock, DueMoment(c, dev))
    ensures var end := Next(c, Next(c, Run(c, Opening(dev), Undisturbed()), Pass(wait)), Fires(c.name)).dev;
            exists row :: Settled(c, row, end) && (RestoredTo(c, r0, row) <==> Faithful(c, r0))
  {
    UndisturbedStage(c, r0, dev);
    ClockAfterWait(c, dev, wait);
    var due, s := DueMoment(c, dev), Run(c, Opening(dev), Undisturbed());
    hide Setup, LetThrough, Sound, Matches, Run, Next, NextStage, PastDue, CanFire, RestoredTo, Settled,
      Faithful;
    var stage, later := Changed(Some(due), false), Next(c, s, Pass(wait));
    StepRefines(c, r0, stage, s, Pass(wait));
    assert NextStage(c, s, stage, Pass(wait)) == stage by {
      PassKeepsStage(c, s, stage, wait);
    }
    DueFires(c, r0, due, later);
    StepRefines(c, r0, stage, later, Fires(c.name));
    RestoredStage(c, r0, NextStage(c, later, stage, Fires(c.name)), Next(c, later, Fires(c.name)));
  }

  lemma ClockAfterWait(c: Config, dev: Device, wait: nat)
    ensures Next(c, Run(c, Opening(dev), Undisturbed()), Pass(wait)).dev.clock == Elapse(dev, wait).clock
  {
    RunUndisturbed(c, Opening(dev));
    var s := Opening(dev);
    CommandKeepsClock(c, s, Delivered);
    CommandKeepsClock(c, AfterEach(c, s), Delivered);
    CommandKeepsClock(c, AfterEach(c, AfterEach(c, s)), Delivered);
    CommandKeepsClock(c, AfterEach(c, AfterEach(c, AfterEach(c, s))), Delivered);
    hide NextCommand, AddSeconds, Now, PrintClock, Run;
  }

  lemma PassKeepsStage(c: Config, s: System, stage: Stage, wait: nat)
    ensures NextStage(c, s, stage, Pass(wait)) == stage
  {
  }

  lemma DueFires(c: Config, r0: Row, due: Moment, s: System)
    requires Sound(c, r0) && Matches(c, r0, Changed(Some(due), false), s) && PastDue(s.dev.clock, due)
    ensures var next := NextStage(c, s, Changed(Some(due), false), Fires(c.name));
            Spent(next) && !next.Changed?
  {
    DueExactly(c, r0, Changed(Some(due), false), s);
    hide Sound, Matches, Now, CanFire, NextStage;
    FiringEnds(c, s, Changed(Some(due), false));
  }

  lemma SetupRow(c: Config, r0: Row, dev: Device)
    requires Setup(c, r0, dev)
    ensures Named(dev.wireless, c.call.iface) == [r0]
  {
  }

  // ---- The same call, delayed ----

  lemma LetThroughSteps(c: Config, r0: Row, dev: Device)
    requires Setup(c, r0, dev) && LetThrough(c, r0, dev)
    ensures Start(c, dev, Delivered) == Checked(r0)
    ensures ReadClock(c, dev, r0, Delivered) == Timed(r0, DueMoment(c, dev))
  {
    OpeningMatches(c, r0, dev);
    SetupRow(c, r0, dev);
    hide Setup, Sound, Objection, Start, ReadClock, Named, ValidCall;
    StartsThrough(c, r0, dev);
    ClockThrough(c, r0, dev);
  }

  /** The protection is not absolute: every call that undisturbed would be protected,
      and that changes something, leaves the device exposed in the run where its
      window passes before its write lands. */
  lemma DelayExposes(c: Config, r0: Row, dev: Device, wait: nat)
    requires Setup(c, r0, dev) && LetThrough(c, r0, dev) && Differs(c, r0, ChangedRow(c, r0))
    requires PastDue(Elapse(dev, wait).clock, DueMoment(c, dev))
    ensures NoCancel(c, Opening(dev), RaceEvents(c, wait)) && !WritesOnTime(c, Opening(dev), RaceEvents(c, wait))
    ensures Exposed(c, r0, Run(c, Opening(dev), RaceEvents(c, wait)).dev)
  {
    LetThroughSteps(c, r0, dev);
    hide Setup, LetThrough, Differs, PastDue, ChangedRow, Elapse, NoCancel, WritesOnTime, Exposed, Run, RaceEvents,
      Start, ReadClock;
    DelayedWriteIsLate(c, r0, dev, DueMoment(c, dev), wait);
    ExposedExactly(c, r0, dev, RaceEvents(c, wait));
  }
}
