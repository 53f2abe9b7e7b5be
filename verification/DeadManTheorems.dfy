/** What the dead-man protocol guarantees over whole runs. */
module DeadManTheorems {
  import opened Text
  import opened Calendar
  import opened Formatting
  import opened RevertCommand
  import opened DeadManScript
  import opened Device
  import opened RowLemmas
  import opened DeadMan
  import opened DeadManStages

  // ---- Runs ----

  function Stages(c: Config, s: System, stage: Stage, events: seq<Event>): Stage
    decreases |events|
  {
    if events == [] then stage
    else Stages(c, Next(c, s, events[0]), NextStage(c, s, stage, events[0]), events[1..])
  }

  function Opening(dev: Device): System {
    System(dev, Starting)
  }

  /** The configuration half of `Setup`. */
  ghost predicate Sound(c: Config, r0: Row) {
    && IsDeadManName(c.name) && c.call.iface != "" && Arming(c.call) && ".id" in r0
    && KeepsIdentity(RevertMap(c, r0))
  }

  lemma StepRefines(c: Config, r0: Row, stage: Stage, s: System, e: Event)
    requires Sound(c, r0) && Matches(c, r0, stage, s)
    ensures Matches(c, r0, NextStage(c, s, stage, e), Next(c, s, e))
  {
    hide Objection, Matches, NextStage, Next, Arming, ValuesAre, IsDeadManName;
    match e {
      case Advance(fault) => AdvanceStep(c, r0, stage, s, fault);
      case Pass(seconds) => PassRefines(c, r0, stage, s, seconds);
      case Fires(name) =>
        PendingIsProtected(c, r0, stage, s);
        FireStep(c, r0, stage, s, name);
      case Drops(id, fault) => DropStep(c, r0, stage, s, id, fault);
    }
  }

  lemma PassRefines(c: Config, r0: Row, stage: Stage, s: System, seconds: nat)
    requires ".id" in r0 && Matches(c, r0, stage, s)
    ensures Matches(c, r0, NextStage(c, s, stage, Pass(seconds)), Next(c, s, Pass(seconds)))
  {
    PassStep(c, r0, stage, s, seconds);
    hide Matches, Next;
  }

  lemma PendingIsProtected(c: Config, r0: Row, stage: Stage, s: System)
    requires Sound(c, r0) && Matches(c, r0, stage, s)
    ensures DueOf(stage).Some? ==> Protectable(c, r0)
  {
    hide Objection, DeviceFits, ClientFits, ValuesAre, IsDeadManName, Arming;
  }

  lemma {:induction false} RunRefines(c: Config, r0: Row, stage: Stage, s: System, events: seq<Event>)
    requires Sound(c, r0) && Matches(c, r0, stage, s)
    ensures Matches(c, r0, Stages(c, s, stage, events), Run(c, s, events))
    decreases |events|
  {
    hide Sound, Matches, Next, NextStage;
    if events != [] {
      StepRefines(c, r0, stage, s, events[0]);
      RunRefines(c, r0, NextStage(c, s, stage, events[0]), Next(c, s, events[0]), events[1..]);
    }
  }

  lemma OpeningMatches(c: Config, r0: Row, dev: Device)
    requires Setup(c, r0, dev)
    ensures Sound(c, r0) && Matches(c, r0, Unarmed, Opening(dev))
  {
    hide DeviceFits, Arming, IsDeadManName, ValuesAre, Objection, Saved;
  }

  /** Every run, with any losses, delays, firings and cancellations, follows the
      stage automaton. */
  lemma Refinement(c: Config, r0: Row, dev: Device, events: seq<Event>)
    requires Setup(c, r0, dev)
    ensures Sound(c, r0)
    ensures Matches(c, r0, Stages(c, Opening(dev), Unarmed, events), Run(c, Opening(dev), events))
  {
    OpeningMatches(c, r0, dev);
    hide Setup, Sound, Matches;
    RunRefines(c, r0, Unarmed, Opening(dev), events);
  }

  // ---- Exposure ----

  /** Some field the dead-man protects has left its original value. */
  predicate Differs(c: Config, r0: Row, row: Row) {
    var keys := RevertKeys(c.call.request);
    exists i :: 0 <= i < |keys| && Get(row, keys[i]) != Get(r0, keys[i])
  }

  /** A protected field has changed and no entry is left to put it back. */
  predicate Exposed(c: Config, r0: Row, dev: Device) {
    var rows := Named(dev.wireless, c.call.iface);
    rows != [] && Differs(c, r0, rows[0]) && Named(dev.scheduler, c.name) == []
  }

  /** No cancel takes the dead-man off the menu while it is pending. */
  predicate NoCancel(c: Config, s: System, events: seq<Event>)
    decreases |events|
  {
    events == [] || (!CancelLands(c, s, events[0]) && NoCancel(c, Next(c, s, events[0]), events[1..]))
  }

  /** A write reaches the device with no entry pending. */
  predicate LateWrite(c: Config, s: System, e: Event) {
    e.Advance? && e.fault != LostRequest && s.client.Writing? && Named(s.dev.scheduler, c.name) == []
  }

  predicate WritesOnTime(c: Config, s: System, events: seq<Event>)
    decreases |events|
  {
    events == [] || (!LateWrite(c, s, events[0]) && WritesOnTime(c, Next(c, s, events[0]), events[1..]))
  }

  lemma PendingHides(c: Config, r0: Row, stage: Stage, s: System)
    requires ".id" in r0 && Matches(c, r0, stage, s)
    ensures Named(s.dev.scheduler, c.name) == [] <==> DueOf(stage).None?
    ensures Named(s.dev.wireless, c.call.iface) == [RowOf(c, r0, stage)]
    ensures WasArmed(stage) ==> Objection(c.call, r0).None?
    ensures ClientFits(c, r0, stage, s.client)
  {
    hide Objection, IdLinked, Others, PendingEntry, RowOf;
  }

  /** Over any row, the revert restores the protected fields exactly when no saved
      value holds a blank. */
  lemma RevertedDiffers(c: Config, r0: Row, row: Row)
    requires Objection(c.call, r0).None?
    ensures Differs(c, r0, row + RevertMap(c, r0)) <==> !Faithful(c, r0)
  {
    RevertMapIs(c, r0);
    hide Objection, RevertMap, RevertKeys, Faithful;
    var keys := RevertKeys(c.call.request);
    assert forall i :: 0 <= i < |keys| ==> keys[i] in keys;
    if !Faithful(c, r0) {
      var i :| 0 <= i < |keys| && RevertMap(c, r0)[keys[i]] != r0[keys[i]];
      assert Get(row + RevertMap(c, r0), keys[i]) != Get(r0, keys[i]);
    }
  }

  /** The write decides every protected field, whatever row it finds. */
  lemma WriteDecides(c: Config, r0: Row, row: Row)
    requires LockoutRisk(c.call.request)
    ensures Differs(c, r0, row + Writes(c.call.request)) <==> Differs(c, r0, ChangedRow(c, r0))
  {
    WrittenKeys(c.call.request);
    hide Writes, RevertKeys, LockoutRisk;
    var keys := RevertKeys(c.call.request);
    assert forall i :: 0 <= i < |keys| ==> keys[i] in keys;
    assert forall i :: 0 <= i < |keys| ==>
        Get(row + Writes(c.call.request), keys[i]) == Get(ChangedRow(c, r0), keys[i]);
  }

  /** What counts as restored: the original row, or for a tuning write the original
      but for its noise immunity. */
  ghost predicate RestoredTo(c: Config, r0: Row, row: Row) {
    && (forall k :: k != "adaptive-noise-immunity" ==> Get(row, k) == Get(r0, k))
    && (!c.call.request.Tuning? ==> row == r0)
  }

  lemma KeysExclude(r: Request)
    ensures "adaptive-noise-immunity" !in RevertKeys(r)
  {
    assert |"adaptive-noise-immunity"| == 23 && |"frequency"| == 9 && |"channel-width"| == 13;
    assert |"tx-power-mode"| == 13 && |"tx-power"| == 8 && |"distance"| == 8;
  }

  lemma DiffersIsNotRestored(c: Config, r0: Row, row: Row)
    ensures Differs(c, r0, row) ==> !RestoredTo(c, r0, row)
  {
    KeysExclude(c.call.request);
    hide RevertKeys;
    var keys := RevertKeys(c.call.request);
    assert forall i :: 0 <= i < |keys| ==> keys[i] in keys;
  }

  /** Written and reverted, or reverted before any write, the row is restored exactly
      when no saved value holds a blank. */
  lemma RestoredRowIs(c: Config, r0: Row)
    requires Objection(c.call, r0).None? && LockoutRisk(c.call.request)
    ensures RestoredTo(c, r0, RestoredRow(c, r0)) <==> Faithful(c, r0)
    ensures RestoredTo(c, r0, r0 + RevertMap(c, r0)) <==> Faithful(c, r0)
    ensures RestoredTo(c, r0, r0)
  {
    hide Objection, RevertMap, Writes, RevertKeys, LockoutRisk, Faithful, Differs, RestoredTo;
    RevertedDiffers(c, r0, ChangedRow(c, r0));
    RevertedDiffers(c, r0, r0);
    DiffersIsNotRestored(c, r0, RestoredRow(c, r0));
    DiffersIsNotRestored(c, r0, r0 + RevertMap(c, r0));
    if Faithful(c, r0) {
      FaithfulRestores(c, r0);
    }
    SameIsRestored(c, r0);
  }

  lemma SameIsRestored(c: Config, r0: Row)
    ensures RestoredTo(c, r0, r0)
  {
  }

  lemma FaithfulRestores(c: Config, r0: Row)
    requires Objection(c.call, r0).None? && LockoutRisk(c.call.request) && Faithful(c, r0)
    ensures RestoredTo(c, r0, RestoredRow(c, r0)) && RestoredTo(c, r0, r0 + RevertMap(c, r0))
  {
    RevertMapIs(c, r0);
    WrittenKeys(c.call.request);
    hide Objection, RevertMap, Writes, RevertKeys, LockoutRisk, Faithful, RestoredTo;
    assert r0 + RevertMap(c, r0) == r0;
    SameIsRestored(c, r0);
    OverlayRestores(c, r0, Writes(c.call.request), RevertMap(c, r0), RevertKeys(c.call.request));
  }

  /** Writing and then putting the written keys back, noise immunity perhaps excepted. */
  lemma OverlayRestores(c: Config, r0: Row, written: Row, reverted: Row, keys: seq<string>)
    requires forall k :: k in keys ==> k in r0 && k in reverted
    requires forall k :: k in reverted ==> k in keys && reverted[k] == r0[k]
    requires forall k :: k in written ==> k in keys || (c.call.request.Tuning? && k == "adaptive-noise-immunity")
    ensures RestoredTo(c, r0, r0 + written + reverted)
  {
    var row := r0 + written + reverted;
    forall k | k != "adaptive-noise-immunity" || !c.call.request.Tuning? ensures Get(row, k) == Get(r0, k) {
      if k in keys {
        assert k in reverted && k in r0;
      }
    }
    if !c.call.request.Tuning? {
      assert forall k :: k in row <==> k in r0;
      assert row == r0;
    }
  }

  lemma WrittenKeys(r: Request)
    ensures forall k :: k in Writes(r) ==>
              k in RevertKeys(r) || (r.Tuning? && (k == "adaptive-noise-immunity" || !LockoutRisk(r)))
    ensures LockoutRisk(r) ==> forall k :: k in RevertKeys(r) ==> k in Writes(r)
  {
    hide SignedDecimal;
    match r {
      case Channel(_, width) =>
        assert RevertKeys(r)[0] == "frequency";
        assert width.Some? ==> RevertKeys(r)[1] == "channel-width";
      case TxPower(_) =>
        assert RevertKeys(r)[0] == "tx-power-mode" && RevertKeys(r)[1] == "tx-power";
      case Tuning(_, _) =>
        assert RevertKeys(r)[0] == "distance";
    }
  }

  /** Changed with nothing pending. */
  predicate Unguarded(stage: Stage) {
    stage.Changed? && stage.due.None?
  }

  lemma SoundRisk(c: Config, r0: Row)
    requires Sound(c, r0)
    ensures LockoutRisk(c.call.request) && ".id" in r0
  {
  }

  lemma StageExposure(c: Config, r0: Row, stage: Stage, s: System)
    requires Sound(c, r0) && Matches(c, r0, stage, s)
    ensures Exposed(c, r0, s.dev) <==>
            if stage.Changed? then stage.due.None? && Differs(c, r0, ChangedRow(c, r0))
            else Spent(stage) && !Faithful(c, r0)
  {
    SoundRisk(c, r0);
    PendingHides(c, r0, stage, s);
    hide Matches, Sound, Objection, ChangedRow, RevertMap, Writes, RevertKeys, ClientFits, Faithful, LockoutRisk;
    assert !Differs(c, r0, r0);
    if WasArmed(stage) {
      RevertedDiffers(c, r0, r0);
      RevertedDiffers(c, r0, ChangedRow(c, r0));
      if stage.Changed? {
        WriteDecides(c, r0, BaseRow(c, r0, stage.early));
      }
    }
    hide Differs;
  }

  lemma LateWriteIsLate(c: Config, r0: Row, stage: Stage, s: System, e: Event)
    requires Sound(c, r0) && Matches(c, r0, stage, s)
    ensures LateWrite(c, s, e) <==> stage.Armed? && stage.due.None? && e.Advance? && e.fault != LostRequest
  {
    PendingHides(c, r0, stage, s);
    hide Matches, Sound, Objection, RowOf;
  }

  /** Without a cancel, the automaton is left unguarded only by a late write. */
  lemma {:induction false} ChangedUnguarded(c: Config, r0: Row, stage: Stage, s: System, events: seq<Event>)
    requires Sound(c, r0) && Matches(c, r0, stage, s) && NoCancel(c, s, events)
    ensures Unguarded(Stages(c, s, stage, events)) <==> Unguarded(stage) || !WritesOnTime(c, s, events)
    decreases |events|
  {
    hide Sound, Matches, Next, CancelLands, CanFire, LateWrite, Unguarded;
    if events != [] {
      var e := events[0];
      StepRefines(c, r0, stage, s, e);
      ChangedUnguarded(c, r0, NextStage(c, s, stage, e), Next(c, s, e), events[1..]);
      hide NextStage;
      UnguardedStep(c, r0, stage, s, e);
    }
  }

  lemma UnguardedStep(c: Config, r0: Row, stage: Stage, s: System, e: Event)
    requires Sound(c, r0) && Matches(c, r0, stage, s)
    requires !CancelLands(c, s, e)
    ensures Unguarded(NextStage(c, s, stage, e)) <==> Unguarded(stage) || LateWrite(c, s, e)
  {
    LateWriteIsLate(c, r0, stage, s, e);
    FireNeedsPending(c, r0, stage, s, e);
    hide Sound, Matches, CancelLands, CanFire, LateWrite, NextStage, Unguarded;
    StageUnguards(c, s, stage, e);
  }

  lemma StageUnguards(c: Config, s: System, stage: Stage, e: Event)
    requires !CancelLands(c, s, e)
    ensures Unguarded(NextStage(c, s, stage, e)) <==>
            Unguarded(stage) || (stage.Armed? && stage.due.None? && e.Advance? && e.fault != LostRequest)
  {
    hide CancelLands, CanFire, NextCommand;
  }

  // ---- How often it fires ----

  predicate FiresOwn(c: Config, s: System, e: Event) {
    e.Fires? && e.name == c.name && CanFire(s.dev, c.name)
  }

  /** How often the dead-man runs during the events. */
  function Firings(c: Config, s: System, events: seq<Event>): nat
    decreases |events|
  {
    if events == [] then 0
    else (if FiresOwn(c, s, events[0]) then 1 else 0) + Firings(c, Next(c, s, events[0]), events[1..])
  }

  function Spending(stage: Stage): nat {
    if Spent(stage) then 1 else 0
  }

  lemma FiringSpends(c: Config, r0: Row, stage: Stage, s: System, e: Event)
    requires Sound(c, r0) && Matches(c, r0, stage, s)
    ensures Spending(NextStage(c, s, stage, e)) == Spending(stage) + if FiresOwn(c, s, e) then 1 else 0
  {
    FireNeedsPending(c, r0, stage, s, e);
    SoundRisk(c, r0);
    PendingIsFresh(c, r0, stage, s);
    hide Matches, Sound, CanFire;
    StageSpends(c, s, stage, e);
  }

  lemma StageSpends(c: Config, s: System, stage: Stage, e: Event)
    requires (DueOf(stage).Some? ==> !Spent(stage)) && (DueOf(stage).None? ==> !CanFire(s.dev, c.name))
    ensures Spending(NextStage(c, s, stage, e)) == Spending(stage) + if FiresOwn(c, s, e) then 1 else 0
  {
    hide CanFire, NextCommand, CancelLands;
  }

  lemma PendingIsFresh(c: Config, r0: Row, stage: Stage, s: System)
    requires ".id" in r0 && Matches(c, r0, stage, s)
    ensures DueOf(stage).Some? ==> !Spent(stage)
  {
    hide DeviceFits, ClientFits, Objection;
  }

  /** The dead-man of a call fires at most once in any run, and the stage tells whether
      it has. */
  lemma {:induction false} FiresAtMostOnce(c: Config, r0: Row, stage: Stage, s: System, events: seq<Event>)
    requires Sound(c, r0) && Matches(c, r0, stage, s)
    ensures Firings(c, s, events) + Spending(stage) == Spending(Stages(c, s, stage, events)) <= 1
    decreases |events|
  {
    if events != [] {
      var e := events[0];
      SoundRisk(c, r0);
      StepRefines(c, r0, stage, s, e);
      FiringSpends(c, r0, stage, s, e);
      hide Sound, Matches, Next, NextStage, FiresOwn, Spent;
      FiresAtMostOnce(c, r0, NextStage(c, s, stage, e), Next(c, s, e), events[1..]);
    }
  }

  lemma ClientOfStage(c: Config, r0: Row, stage: Stage, s: System)
    requires Sound(c, r0) && Matches(c, r0, stage, s)
    ensures stage.Armed? <==> s.client.Writing?
  {
    hide DeviceFits, Objection;
  }

  lemma FireNeedsPending(c: Config, r0: Row, stage: Stage, s: System, e: Event)
    requires Sound(c, r0) && Matches(c, r0, stage, s)
    ensures DueOf(stage).None? ==> !CanFire(s.dev, c.name)
  {
    PendingIsProtected(c, r0, stage, s);
    hide Protectable, Objection, RowOf, PendingEntry, CanFire;
    FireByName(c, r0, RowOf(c, r0, stage), DueOf(stage), s.dev);
  }

  /** The exact condition of lockout protection: over every uncancelled run of an
      armed write that changes something, the device ends exposed if and only if the
      write reached it after the dead-man had already fired, or the dead-man fired and
      a saved value held a blank. */
  lemma ExposedExactly(c: Config, r0: Row, dev: Device, events: seq<Event>)
    requires Setup(c, r0, dev) && NoCancel(c, Opening(dev), events) && Differs(c, r0, ChangedRow(c, r0))
    ensures Exposed(c, r0, Run(c, Opening(dev), events).dev) <==>
            !WritesOnTime(c, Opening(dev), events)
            || (Firings(c, Opening(dev), events) > 0 && !Faithful(c, r0))
  {
    OpeningMatches(c, r0, dev);
    Refinement(c, r0, dev, events);
    hide Setup, Sound, Matches, NoCancel, Exposed, Differs, WritesOnTime, Run, Stages, Firings, Faithful;
    ChangedUnguarded(c, r0, Unarmed, Opening(dev), events);
    FiresAtMostOnce(c, r0, Unarmed, Opening(dev), events);
    StageExposure(c, r0, Stages(c, Opening(dev), Unarmed, events), Run(c, Opening(dev), events));
    ChangedPending(c, r0, Stages(c, Opening(dev), Unarmed, events), Run(c, Opening(dev), events));
  }

  lemma ChangedPending(c: Config, r0: Row, stage: Stage, s: System)
    requires Sound(c, r0) && Matches(c, r0, stage, s)
    ensures stage.Changed? && stage.due.Some? ==> !Spent(stage)
  {
    SoundRisk(c, r0);
    PendingIsFresh(c, r0, stage, s);
    hide Sound, Matches;
  }

  /** With blank-free saved values, only a late write exposes. */
  lemma ExposedExactlyByLateWrite(c: Config, r0: Row, dev: Device, events: seq<Event>)
    requires Setup(c, r0, dev) && NoCancel(c, Opening(dev), events) && Differs(c, r0, ChangedRow(c, r0))
             && Faithful(c, r0)
    ensures Exposed(c, r0, Run(c, Opening(dev), events).dev) <==> !WritesOnTime(c, Opening(dev), events)
  {
    hide Setup, NoCancel, Differs, Faithful, Exposed, WritesOnTime;
    ExposedExactly(c, r0, dev, events);
  }

  // ---- Deadlines ----

  /** The armed deadline is exactly the requested minutes of odometer seconds after
      the device's own clock, and its printed text reads back as that moment. Arming
      fails only on an unreadable clock or past year 9999. */
  lemma DeadlineIsExact(clock: seq<Row>, minutes: nat)
    ensures DeadlineFrom(clock, minutes) == NoDeadline(NoClock) <==> Now(clock).None?
    ensures Now(clock).Some? ==>
              Representable(Now(clock).value) &&
              DeadlineFrom(clock, minutes) ==
              var due := Ticks(Now(clock).value, minutes * 60);
              if due.year <= MAX_YEAR then DueAt(due) else NoDeadline(ClockOverflow)
    ensures var d := DeadlineFrom(clock, minutes);
            d.DueAt? ==>
              && ToSeconds(d.when) == ToSeconds(Now(clock).value) + minutes * 60
              && ParseRosDateTime(FormatDate(d.when) + " " + FormatTime(d.when)) == Option<DateTime>.Some(d.when)
  {
    NowIsRepresentable(clock);
    hide Now, ToSeconds, Ticks, ParseRosDateTime, FormatDate, FormatTime, AddSeconds;
    if Now(clock).Some? {
      AddSecondsIsTicking(Now(clock).value, minutes * 60);
      if DeadlineFrom(clock, minutes).DueAt? {
        RoundTrip(DeadlineFrom(clock, minutes).when);
      }
    }
  }

  /** An armed channel change always outlasts the radar check of its target. */
  lemma WindowCoversRadarCheck(c: Config, r0: Row, stage: Stage, s: System)
    requires Sound(c, r0) && Matches(c, r0, stage, s) && WasArmed(stage)
    ensures RequiredCac(c.call.request, r0) <= c.call.minutes * 60
  {
    PendingHides(c, r0, stage, s);
  }

  predicate Superchannel(mode: string) {
    Lower(Strip(mode)) == "superchannel"
  }

  /** The radar checks as disjoint bands: ten minutes in the weather band, one minute
      in the rest of the radar range, none outside it or in superchannel. */
  lemma RadarBands(frequency: int, mode: string)
    ensures CacSeconds(frequency, mode) == 600 <==> !Superchannel(mode) && 5600 <= frequency <= 5650
    ensures CacSeconds(frequency, mode) == 60 <==>
            !Superchannel(mode) && (5250 <= frequency < 5600 || 5650 < frequency <= 5725)
    ensures CacSeconds(frequency, mode) == 0 <==> Superchannel(mode) || frequency < 5250 || 5725 < frequency
  {
    hide Lower, Strip;
  }

  /** The minutes named in a refusal are the least that would be accepted. */
  lemma RefusedMinutesAreLeast(call: Call, before: Row, minutes: int)
    requires Objection(call, before).Some? && Objection(call, before).value.WindowTooShort?
    ensures minutes >= Objection(call, before).value.minutes <==>
            !(Objection(call.(minutes := minutes), before).Some?
              && Objection(call.(minutes := minutes), before).value.WindowTooShort?)
  {
    hide ValidCommands, CacSeconds, RevertText, AllPresent;
    var cac := RequiredCac(call.request, before);
    assert cac <= CeilMinutes(cac) * 60 < cac + 60;
  }

  lemma PendingReads(c: Config, r0: Row, due: Moment)
    ensures ReadMoment(PendingEntry(c, r0, due), "start-date", "start-time") == Option<DateTime>.Some(due)
  {
    EntryReads(c, r0, due);
    RoundTrip(due);
    hide PendingEntry, ParseRosDateTime, FormatDate, FormatTime, BuildScript, RevertText;
  }

  lemma PendingIsFirst(c: Config, r0: Row, stage: Stage, s: System)
    requires Sound(c, r0) && Matches(c, r0, stage, s) && DueOf(stage).Some?
    ensures FindRow(s.dev.scheduler, "name", c.name) == Some(PendingEntry(c, r0, DueOf(stage).value))
  {
    FindIsFirstNamed(s.dev.scheduler, c.name);
    hide Objection, RowOf, IdLinked, Others, PendingEntry, Arming, ValuesAre, IsDeadManName;
  }

  /** The pending entry can fire exactly once the device clock reaches the deadline. */
  lemma DueExactly(c: Config, r0: Row, stage: Stage, s: System)
    requires Sound(c, r0) && Matches(c, r0, stage, s) && DueOf(stage).Some?
    ensures CanFire(s.dev, c.name) <==>
            Now(s.dev.clock).Some? && Representable(Now(s.dev.clock).value)
            && ToSeconds(DueOf(stage).value) <= ToSeconds(Now(s.dev.clock).value)
  {
    PendingIsFirst(c, r0, stage, s);
    PendingReads(c, r0, DueOf(stage).value);
    NowIsRepresentable(s.dev.clock);
    hide Sound, Matches, PendingEntry, Now, ToSeconds, ReadMoment;
  }

  // ---- The device clock only advances ----

  ghost predicate NotBefore(earlier: seq<Row>, later: seq<Row>) {
    && (Now(earlier).None? ==> Now(later).None?)
    && (Now(earlier).Some? ==>
          Now(later).Some? && Representable(Now(earlier).value) && Representable(Now(later).value)
          && ToSeconds(Now(earlier).value) <= ToSeconds(Now(later).value))
  }

  lemma PrintedClockReads(row: Row, t: Moment, rest: seq<Row>)
    ensures Now([PrintClock(row, t)] + rest) == Option<DateTime>.Some(t)
  {
    RoundTrip(t);
    var printed := PrintClock(row, t);
    hide ParseRosDateTime, FormatDate, FormatTime;
    assert "date" != "time" by {
      assert "date"[0] != "time"[0];
    }
    assert GetOr(printed, "date", "") == FormatDate(t) && GetOr(printed, "time", "") == FormatTime(t);
  }

  lemma ElapseAdvances(d: Device, seconds: nat)
    ensures NotBefore(d.clock, Elapse(d, seconds).clock)
  {
    NowIsRepresentable(d.clock);
    if Now(d.clock).Some? {
      var now := Now(d.clock).value;
      AddSecondsIsTicking(now, seconds);
      var later := AddSeconds(now, seconds);
      if later.At? {
        PrintedClockReads(d.clock[0], later.when, d.clock[1..]);
      }
      hide Now, AddSeconds, ToSeconds, Ticks, PrintClock;
    }
  }

  lemma {:induction false} StatementsKeepClock(d: Device, statements: seq<Statement>)
    ensures RunStatements(d, statements).clock == d.clock
    decreases |statements|
  {
    if statements != [] && !statements[0].Unknown? {
      StatementsKeepClock(RunOne(d, statements[0]), statements[1..]);
    }
  }

  lemma CommandKeepsClock(c: Config, s: System, fault: Fault)
    ensures NextCommand(c, s, fault).dev.clock == s.dev.clock
  {
    hide Entry, Start, ReadClock, HasId, UpdateById, Writes, AddRow;
  }

  lemma FireKeepsClock(d: Device, name: string)
    ensures Fire(d, name).clock == d.clock
  {
    if CanFire(d, name) {
      hide ReadScript, Due, RunStatements;
      StatementsKeepClock(d, ReadScript(GetOr(FindRow(d.scheduler, "name", name).value, "on-event", "")));
    }
  }

  lemma StepAdvancesClock(c: Config, s: System, e: Event)
    ensures NotBefore(s.dev.clock, Next(c, s, e).dev.clock)
  {
    SameClock(s.dev.clock);
    hide NotBefore, Fire, Elapse, NextCommand;
    match e {
      case Pass(seconds) => ElapseAdvances(s.dev, seconds);
      case Fires(name) => FireKeepsClock(s.dev, name);
      case Advance(fault) => CommandKeepsClock(c, s, fault);
      case Drops(_, _) => hide RemoveById;
    }
  }

  lemma SameClock(clock: seq<Row>)
    ensures NotBefore(clock, clock)
  {
    NowIsRepresentable(clock);
  }

  lemma {:induction false} RunAdvancesClock(c: Config, s: System, events: seq<Event>)
    ensures NotBefore(s.dev.clock, Run(c, s, events).dev.clock)
    decreases |events|
  {
    NowIsRepresentable(s.dev.clock);
    hide Next, Now;
    if events != [] {
      StepAdvancesClock(c, s, events[0]);
      RunAdvancesClock(c, Next(c, s, events[0]), events[1..]);
    }
  }

  ghost predicate ClockBefore(clock: seq<Row>, due: Moment) {
    Now(clock).Some? && Representable(Now(clock).value) && ToSeconds(Now(clock).value) < ToSeconds(due)
  }

  lemma KeepsDue(c: Config, r0: Row, stage: Stage, s: System, e: Event)
    requires Sound(c, r0) && Matches(c, r0, stage, s) && DueOf(stage).Some?
    requires !CancelLands(c, s, e)
    ensures DueOf(NextStage(c, s, stage, e)) == DueOf(stage) || CanFire(s.dev, c.name)
  {
    hide CancelLands, CanFire, Matches, Sound, NextCommand;
    match stage {
      case Armed(_, _) =>
      case Kept(_, _) =>
      case Changed(_, _) =>
    }
  }

  lemma NotDueYet(c: Config, r0: Row, stage: Stage, s: System, events: seq<Event>)
    requires Sound(c, r0) && Matches(c, r0, stage, s) && DueOf(stage).Some?
    requires ClockBefore(Run(c, s, events).dev.clock, DueOf(stage).value)
    ensures !CanFire(s.dev, c.name)
  {
    RunAdvancesClock(c, s, events);
    DueExactly(c, r0, stage, s);
    hide Sound, Matches, Run, CanFire, Now, ToSeconds, DueOf;
  }

  /** Uncancelled, a pending entry stays pending for as long as the device clock is
      short of its deadline. */
  lemma {:induction false} PendingUntilDeadline(c: Config, r0: Row, stage: Stage, s: System, events: seq<Event>)
    requires Sound(c, r0) && Matches(c, r0, stage, s) && DueOf(stage).Some? && NoCancel(c, s, events)
    requires ClockBefore(Run(c, s, events).dev.clock, DueOf(stage).value)
    ensures DueOf(Stages(c, s, stage, events)) == DueOf(stage)
    decreases |events|
  {
    if events != [] {
      var e := events[0];
      hide Sound, Matches, Next, NextStage, CanFire, ClockBefore, CancelLands, DueOf;
      NotDueYet(c, r0, stage, s, events);
      StepRefines(c, r0, stage, s, e);
      KeepsDue(c, r0, stage, s, e);
      PendingUntilDeadline(c, r0, NextStage(c, s, stage, e), Next(c, s, e), events[1..]);
    }
  }

  /** So a write that reaches the device before the deadline is never late. */
  lemma WriteBeforeDeadlineIsOnTime(c: Config, r0: Row, due: Moment, s: System, events: seq<Event>, fault: Fault)
    requires Sound(c, r0) && Matches(c, r0, Armed(Some(due), false), s) && NoCancel(c, s, events)
    requires ClockBefore(Run(c, s, events).dev.clock, due)
    ensures !LateWrite(c, Run(c, s, events), Advance(fault))
  {
    hide Sound, Matches, NoCancel, ClockBefore, Run, Stages, LateWrite;
    var stage := Armed(Some(due), false);
    PendingUntilDeadline(c, r0, stage, s, events);
    RunRefines(c, r0, stage, s, events);
    LateWriteIsLate(c, r0, Stages(c, s, stage, events), Run(c, s, events), Advance(fault));
  }
}
