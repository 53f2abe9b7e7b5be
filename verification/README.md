# MikroTik write-guard verification

A Dafny model of the write guard of an MCP server for MikroTik routers, and proofs of
what it promises. The model works over a small abstract RouterOS device: menus of
rows, each row a string map, a clock row and a scheduler that fires entries. The
device semantics are those of the in-memory double in `tests/fakes.py`, except that
adding a row gives it a new `.id`, as a real device does.

What is modelled, hardest first:

- **The lockout-proof wireless write** (`DeadMan`, `DeadManStages`, `DeadManTheorems`,
  `DeadManOutcomes`, `DeadManProgress`, `DeadManCancels`, `DeadManExample`). A risky
  write first puts a self-removing scheduler entry on the device that restores the old
  values unless cancelled. A call is a sequence of device commands; between any two of
  them time passes, entries fire, a cancel removes what it had found, and each command
  can arrive, be lost, or take effect with its answer lost. All interleavings follow a
  five-stage automaton, from which the safety, restoration and cancel theorems follow.
- **The text it rests on** (`Calendar`, `Formatting`, `RevertCommand`,
  `DeadManScript`). Gregorian seconds, with the leap-year rule of Appendix C and the
  month lengths of section 5.7 of RFC 3339; the date printer and parser; the
  revert-command printer, its recogniser and the device's reader; the script builder.
- **The guarded calls** (`GuardedCalls`, `GuardRuns`, `OtherEntries`). The imperative
  code of arming, cancelling and the wireless writes, with gate, preview and journal,
  proved to be uninterrupted runs of the protocol.
- **Circuit breaker and read retry** (`Breaker`, `ReadRetry`).
- **Other guarded writes**: stable resolution (`Resolution`), rule reordering
  (`RuleOrder`), keyed menus (`KeyedMenus`, `UniqueKeys`), NTP servers (`NtpServers`),
  address patterns (`Addresses`), queue names (`QueueNames`, `QueueTargets`) and journal
  redaction (`Redaction`).

`Text` and `RowLemmas` hold the string and row-list facts the others share.
`dafny verify dfyconfig.toml` checks the whole project.

Where the code falls short of its own words, the model follows the code and the proofs
give the exact condition:

- A write delayed past its own deadline lands after the revert, with nothing left to
  undo it. `DelayExposes` has the run, for every call.
- A cancel reads the menu before it removes the id it found. If the dead-man fires
  between the two, the cancel still reports success and the change is gone
  (`CancelKeepsExactly`, `CancelTooLate`).
- Revert values are printed unquoted, which the code takes to be harmless. The script
  restores exactly the saved fields if and only if no saved value holds a blank
  (`ReadsBackExactly`, `BlankValueIsMisread`); such a value passes the validator, and the
  row is then not restored (`BlankIsNotRestored`). A late write and such a value are
  exactly what can leave an uncancelled write exposed with no pending entry
  (`ExposedExactly`).
- The half-open breaker admits every check until a result is recorded, not exactly one
  (`HalfOpenAdmitsAll`, `SerialTrialIsSingle`).
- Two targets get one queue name exactly when their ASCII letters and digits fall into
  the same words (`NamesCollideExactly`). Accepted targets do so in two ways: a subnet
  may carry a newline before its slash, and `\d` and `isdigit` take decimal digits
  beyond ASCII, which the name drops (`SharedNameExactly`, `NewlineTwinExample`,
  `ForeignDigitExample`). The octet and quad grammars hold over ASCII alone
  (`OctetIsDecimal`, `ForeignOctet`).
- Dead-men on one interface are not serialised; the last to fire wins
  (`LastToFireWins`).

## Model

The rows marked "Code against its function" tie the imperative code to the function the
theorems above them speak of; those marked "Helper" follow from a definition or two.

| member | source | states |
|---|---|---|
| `Calendar.TickAddsOne` | src/mcp_mikrotik/guard.py:3799-3800 | One second of the odometer calendar (carrying through midnight, month end, 29 February and year end) adds exactly one to the ordinal the deadline is computed with |
| `Calendar.FromSecondsUndoes` | src/mcp_mikrotik/guard.py:3799-3800 | Turning a moment into seconds and back gives the moment: the ordinal is a bijection |
| `Calendar.AddSecondsIsTicking` | src/mcp_mikrotik/guard.py:3799-3800 | `now + timedelta` is that many odometer seconds, and overflows exactly when the odometer leaves year 9999 |
| `Formatting.ParseMeets` | src/mcp_mikrotik/formatting.py:242-289 | The parser returns a moment if and only if the text has one of the two declared shapes for it and it is a real calendar moment up to year 9999 |
| `Formatting.RoundTrip` | src/mcp_mikrotik/formatting.py:246-317 | Parsing the printed date and time, joined by a blank, gives every representable moment back |
| `RevertCommand.RecogniserMeetsGrammar` | src/mcp_mikrotik/validation.py:1428-1432 | The recogniser accepts exactly the language of the pattern, and every accepted text has one decomposition into path, selector and assignments |
| `RevertCommand.ValidCommandShape` | src/mcp_mikrotik/validation.py:1448-1512 | A valid command has no statement separator, no blank ends, and starts at its slash |
| `DeadManScript.PrintedMatches` | src/mcp_mikrotik/guard.py:4007-4008 | A printed revert whose name and values stay in the accepted classes is recognised as exactly that name and those assignments |
| `DeadManScript.PrintedAccepted` | src/mcp_mikrotik/guard.py:4007-4009 | A printed revert is accepted if and only if the name stays in the selector's class, every value is one or runs on into further assignments, the last ends in no blank, no value holds an unsafe character, and the text fits in 500 characters and names no denied verb |
| `DeadManScript.ReadsBackExactly` | tests/fakes.py:407-413 | An accepted printed revert is read by the device as the same name and field map if and only if the name is not empty and no value holds a blank |
| `DeadManScript.BlankValuePrintsTwoFields` | src/mcp_mikrotik/guard.py:3995-4008 | The failing family of the line above: a value with a blank and an equals sign prints the text of two assignments |
| `DeadManScript.BlankValueIsMisread` | src/mcp_mikrotik/guard.py:3995-4010 | And it gets through: such a value is accepted whenever the text is short and names no denied verb, and the device reads it cut at its blank plus a field nobody saved |
| `DeadManScript.SplitScript` | src/mcp_mikrotik/guard.py:3818-3821 | Splitting the built on-event on the statement separator gives the log statement, the commands in order and the self-remove |
| `DeadManScript.ReadBuiltScript` | tests/fakes.py:403-420 | The device reads the built script as: log, the commands in order, remove own entry |
| `DeadManTheorems.Refinement` | src/mcp_mikrotik/guard.py:4089-4236 | Every run of an arming write, with lost commands and answers, passing time, firing entries and cancellations in any order, is a run of a five-stage automaton, whatever the saved values short of one that renames the interface |
| `DeadManTheorems.ExposedExactly` | src/mcp_mikrotik/guard.py:4179-4235 | Over uncancelled runs of a write that changes something: a protected field ends changed with no pending entry if and only if the write reached the device after the dead-man was gone, or the dead-man fired and a saved value held a blank |
| `DeadManTheorems.ExposedExactlyByLateWrite` | src/mcp_mikrotik/guard.py:4179-4235 | So with blank-free saved values, if and only if the write was late |
| `DeadManTheorems.FiresAtMostOnce` | tests/fakes.py:384-420 | From any reachable state the dead-man of a call fires at most once in the rest of any run, and not again once it has |
| `DeadManTheorems.WriteBeforeDeadlineIsOnTime` | src/mcp_mikrotik/guard.py:4222-4225 | A write that reaches the device before the deadline is never late |
| `DeadManTheorems.PendingUntilDeadline` | src/mcp_mikrotik/guard.py:3783-3800 | An uncancelled entry stays pending, with the same deadline, for as long as the device clock is short of it |
| `DeadManTheorems.DueExactly` | tests/fakes.py:384-401 | The pending entry can fire exactly once the device clock reaches the armed deadline |
| `DeadManTheorems.DeadlineIsExact` | src/mcp_mikrotik/guard.py:3777-3800 | The armed deadline is exactly minutes*60 odometer seconds after the device clock, its printed text reads back as that moment, and arming fails only on an unreadable clock or past year 9999 |
| `DeadManTheorems.RestoredRowIs` | src/mcp_mikrotik/guard.py:4310-4331 | Writing and then reverting, or reverting alone, restores every protected field, and the whole row for a channel or power change, if and only if no saved value holds a blank; a tuning change keeps only its noise immunity |
| `DeadManStages.FaithfulKeepsIdentity` | src/mcp_mikrotik/guard.py:3995-4010 | A revert of blank-free values never renames the interface |
| `DeadManOutcomes.ArmedBeforeWritten` | src/mcp_mikrotik/guard.py:4310-4331 | In every state of an uncancelled on-time run, a changed protected field has a pending entry whose own script restores the row and removes the entry, if and only if no saved value holds a blank |
| `DeadManOutcomes.Restoration` | src/mcp_mikrotik/guard.py:4179-4235 | Over uncancelled on-time runs, a dead-man that fired did so exactly once and its entry is gone; and the row is restored if and only if no saved value holds a blank |
| `DeadManOutcomes.FiringRestores` | tests/fakes.py:384-420 | From any state with the entry pending and the clock past the deadline, the next firing attempt removes the entry, and restores the row if and only if no saved value holds a blank |
| `DeadManCancels.TargetIsOwn` | src/mcp_mikrotik/guard.py:3929-3938 | The read of a cancel finds the dead-man's id if and only if writes are enabled, the stripped name is the dead-man's and it is pending at that moment |
| `DeadManCancels.CancelIsFinal` | src/mcp_mikrotik/guard.py:3929-3947 | Once a cancel's removal gets through, whatever happened since its read, no later run fires the dead-man or brings its entry back, and the row stays as it was but for the call's own write, should that still get through |
| `DeadManCancels.CancelKeepsExactly` | src/mcp_mikrotik/guard.py:3931-3947 | A cancel of a returned call, with anything happening between its read and its removal: nothing fired before the read or fires after the removal, and the row keeps the call's change if and only if the dead-man did not fire between the two, else it ends reverted |
| `DeadManCancels.NoEarlyFiring` | tests/fakes.py:384-401 | It did not fire in between if the device clock was still short of the deadline at the removal |
| `DeadManCancels.CancelTooLate` | src/mcp_mikrotik/guard.py:3931-3947 | Every call that goes through has the run in which its window passes between the read and the removal: the removal gets through and the row is the reverted one |
| `DeadManOutcomes.AllFire` | tests/fakes.py:384-420 | Any number of dead-men due on one interface all fire, each putting its values into the row the ones before it left, and none of their entries stays |
| `DeadManOutcomes.LastToFireWins` | src/mcp_mikrotik/guard.py:3988-4010 | However many dead-men are due on one interface, all fire; the fields they set end with a given row's values, such as those before any change, if and only if for each field the last dead-man to set it puts that row's value back, which for blank-free saved values is the value it had saved |
| `DeadManProgress.UndisturbedCall` | src/mcp_mikrotik/guard.py:4089-4236 | An undisturbed call is applied if and only if writes are enabled, arguments valid, confirmed, nothing objects and the deadline exists; then the row has the new values and the entry restoring the old ones is pending at the exact deadline |
| `DeadManProgress.RefusedExactly` | src/mcp_mikrotik/guard.py:4179-4223 | Nothing objects to arming if and only if the window covers the radar check, every field to restore is present, and the printed revert is accepted by the conditions of `PrintedAccepted` |
| `DeadManProgress.FullCycle` | tests/fakes.py:354-420 | Once such a call's window has passed unattended, the entry fires and is gone, and the row is back if and only if no saved value holds a blank |
| `DeadManScript.SlashFreeIsAllowed` | src/mcp_mikrotik/validation.py:1439-1445 | A printed revert whose name and values hold no slash names no denied verb |
| `DeadManExample.ExampleIsProtected` | src/mcp_mikrotik/guard.py:4344-4452 | A concrete device and tuning call meet the hypotheses of the run theorems together, with a blank-free saved value |
| `DeadManExample.BlankIsNotRestored` | src/mcp_mikrotik/guard.py:3995-4010 | The failing input: with a saved distance of `dynamic x=y` the same call is let through and applied, and once its dead-man has fired and gone the row is not restored |
| `DeadManExample.BlankCanRename` | src/mcp_mikrotik/guard.py:3995-4010 | With `dynamic name=x` the accepted revert renames the interface |
| `DeadManProgress.DelayExposes` | src/mcp_mikrotik/guard.py:4223-4226 | The protection is not absolute: every such call that changes something leaves the device exposed in the run where its window passes before its write lands |
| `DeadManOutcomes.RefusalLeavesNoTrace` | src/mcp_mikrotik/guard.py:4179-4220 | A refused or previewed call of any kind, with any losses and whatever goes on between its commands, leaves exactly the device that all the rest alone would have left |
| `GuardedCalls.Guard.SetWireless` | src/mcp_mikrotik/guard.py:4089-4452 | The three wireless writes as written leave what the uninterrupted protocol leaves, with the arming's record before their own |
| `GuardRuns.CallIsRun` | src/mcp_mikrotik/guard.py:4179-4235 | The code of a wireless write, left alone, is one run of the protocol, so everything proved of all runs holds of it |
| `GuardRuns.GateAndPreview` | src/mcp_mikrotik/guard.py:743-751 | With writes disabled no call sends anything; an unconfirmed or previewed call sends only reads and changes nothing |
| `GuardRuns.JournalOfCall` | src/mcp_mikrotik/guard.py:785-821 | One record per call, last; an arming call's write is sent only after a successful arming, and then both records stand even if the write fails |
| `GuardRuns.JournalOfRun` | src/mcp_mikrotik/guard.py:785-821 | Over any sequence of calls the journal only grows, by exactly one record a call under its own tool; the armings inside wireless writes are the only extra ones |
| `GuardRuns.ReadOnlyRun` | src/mcp_mikrotik/guard.py:743-751 | With writes disabled the device ends any sequence of calls as if nobody had called |
| `OtherEntries.CommandNeverRemoves` | src/mcp_mikrotik/validation.py:1448-1470 | No validated revert command is read by the device as the removal of a scheduler entry |
| `OtherEntries.StrangersAreKept` | src/mcp_mikrotik/guard.py:3929-3947 | Over any run of arming, cancelling, wireless writes, passing time and firing entries, every entry whose name lacks the dead-man shape keeps its row and place, as long as no administrator script that fires removes one |
| `Breaker.InterleavingInvariant` | src/mcp_mikrotik/client.py:135-163 | Under any interleaving of the locked sections: the counter is the failures since the last success, open implies threshold reached, and it is open exactly since the last such failure that no success, failure or expired check followed |
| `Breaker.HalfOpenAdmitsAll` | src/mcp_mikrotik/client.py:149-152 | Against the comment there: once an expired check has passed, every further check passes until a result is recorded |
| `Breaker.FailingStreakBound` | src/mcp_mikrotik/client.py:135-163 | A device that never answers is dialled at most threshold + floor(W / cooldown) times within W seconds |
| `Breaker.BoundIsMet` | src/mcp_mikrotik/client.py:135-163 | That bound is reached, for every threshold, cooldown and whole number of cooldowns |
| `ReadRetry.MikrotikClient.RunRead` | src/mcp_mikrotik/client.py:308-338 | The retry loop computes the recursive reading of its attempts: outcome, state, dials, calls and sleeps |
| `ReadRetry.ReadStopsAtFirst` | src/mcp_mikrotik/client.py:308-338 | A read ends at its first attempt that is not a transient failure, at most retries + 1 of them, with that attempt's outcome; it sleeps the stated delays between attempts |
| `ReadRetry.DialsBounded` | src/mcp_mikrotik/client.py:308-338 | With gaps shorter than the cooldown a read dials at most min(retries + 1, threshold - failures) times from a closed circuit, once from an expired one, never during the cooldown, and exactly so often when no connect succeeds |
| `ReadRetry.ConnectedNeverDials` | src/mcp_mikrotik/client.py:278-279 | With a cached connection a read never dials |
| `RuleOrder.PlansExactly` | src/mcp_mikrotik/guard.py:3366-3403 | A move is planned if and only if exactly one rule fits and, to go before another, exactly one of the remaining rules fits that |
| `RuleOrder.MoveIsAsPreviewed` | src/mcp_mikrotik/guard.py:3386-3417 | The move is a permutation that keeps the others' order and fields, the previewed position is the real index, and a rule moved before another stands immediately before it |
| `RuleOrder.MovingBackRestores` | src/mcp_mikrotik/guard.py:3386-3417 | Moving the rule back to its previewed old position restores the menu exactly |
| `Resolution.RoutesNarrowed` | src/mcp_mikrotik/guard.py:1635-1641 | Narrowing routes one key at a time selects exactly the rows that fit all the given keys |
| `Resolution.RulesNarrowed` | src/mcp_mikrotik/guard.py:2567-2577 | The same for firewall rules |
| `Resolution.ResolvesExactlyOne` | src/mcp_mikrotik/guard.py:1635-1652 | Resolution succeeds with a row if and only if that row is the only one fitting all keys |
| `Resolution.ResolutionIsStable` | src/mcp_mikrotik/guard.py:1616-1652 | Any additions, removals, edits and reorderings of rows that do not fit leave the resolved row the same |
| `Resolution.ConfirmedWriteHitsPreview` | src/mcp_mikrotik/guard.py:1616-1652 | After any such edits the confirmed write changes the previewed row and no other |
| `UniqueKeys.AddedExactly` | src/mcp_mikrotik/guard.py:2243-2307 | An entry is added if and only if no row has its key, an absent or empty DNS type read as A, and a peer's interface exists |
| `UniqueKeys.KeysStayUnique` | src/mcp_mikrotik/guard.py:2243-2380 | From unique keys, and whatever interfaces come and go between calls, no run of guarded calls, previewed, lost or carried out, puts two rows of one key on a menu (DNS name and type, lease MAC, netwatch host, address-list pair, WireGuard interface and key, queue target) |
| `UniqueKeys.AddThenRemove` | src/mcp_mikrotik/guard.py:2305-2380 | Adding an entry and removing it by its key restores the menu, on each of the five menus |
| `UniqueKeys.LimitIsIdempotent` | src/mcp_mikrotik/guard.py:1097-1137 | Repeating a bandwidth limit is an update and changes nothing, whether the first call made or found the queue |
| `UniqueKeys.LimitThenRemove` | src/mcp_mikrotik/guard.py:1189-1229 | A limit that made its queue is undone by removing the queue of that target |
| `NtpServers.NtpClient.SetServers` | src/mcp_mikrotik/guard.py:3576-3682 | What is written, refused and warned on either RouterOS generation, and that a preview writes nothing |
| `NtpServers.Ros6Plan` | src/mcp_mikrotik/guard.py:3641-3676 | The slot loop: each literal address in its own slot, hostnames in the DNS names or a warning; refused exactly when nothing applies |
| `NtpServers.Ros6Conserves` | src/mcp_mikrotik/guard.py:3641-3676 | Slots, DNS names and warnings together hold exactly the given servers, each part in order, and a write has at least one field |
| `NtpServers.Ros7RoundTrip` | src/mcp_mikrotik/guard.py:3677-3680 | Splitting the written list on commas gives the validated servers back |
| `Addresses.AcceptedHasNoComma` | src/mcp_mikrotik/validation.py:58-77 | No accepted address or hostname holds a comma |
| `Addresses.OctetIsDecimal` | src/mcp_mikrotik/validation.py:19 | An ASCII text is an octet if and only if it is the canonical decimal of a number up to 255: the dec-octet rule of section 3.2.2 of RFC 3986 |
| `Addresses.OctetIsByte` | src/mcp_mikrotik/validation.py:19 | Every octet, in whatever decimal digits, is read as a number up to 255 |
| `Addresses.ForeignOctet` | src/mcp_mikrotik/validation.py:19 | Beyond ASCII the dec-octet rule fails: an Arabic digit is an octet and no canonical decimal |
| `Addresses.Ipv4IsQuad` | src/mcp_mikrotik/validation.py:19-20 | An ASCII text is accepted if and only if it is four canonical decimals joined by dots: the IPv4address rule of section 3.2.2 of RFC 3986 |
| `Redaction.RedactionIsExact` | src/mcp_mikrotik/audit.py:74-82 | No sensitive key remains at any depth, redaction is idempotent, and it leaves a value alone exactly when that is clean |
| `Redaction.PathsAreKept` | src/mcp_mikrotik/audit.py:74-82 | A path through no sensitive key leads to the same value, redacted; a path through one leads nowhere |
| `Redaction.WordIsCaught` | src/mcp_mikrotik/audit.py:66-69 | A key holding one of the words anywhere, in any letter case, is sensitive |
| `Redaction.PreSharedIsCaught` | src/mcp_mikrotik/audit.py:66-69 | So is one with at most one character other than a newline between its two halves |
| `Redaction.KeyFieldsAreCaught` | src/mcp_mikrotik/audit.py:47-69 | Every listed word is caught by itself, and so are the WPA2 and WireGuard key fields |
| `QueueNames.NamesCollideExactly` | src/mcp_mikrotik/guard.py:1040-1055 | Any two texts get one name if and only if their maximal runs of ASCII letters and digits agree in order, whatever stands between: punctuation, a newline or digits beyond ASCII |
| `QueueTargets.NamesAreInjective` | src/mcp_mikrotik/guard.py:1040-1055 | Names are injective on the accepted IPv4 targets that are ASCII and hold no newline |
| `QueueTargets.SharedNameExactly` | src/mcp_mikrotik/validation.py:132-164 | An accepted IPv4 target shares its name with another one if and only if it is shorter than 253 characters, holds a newline or holds a digit beyond ASCII |
| `QueueTargets.NewlineTwinExample` | src/mcp_mikrotik/validation.py:132-164 | A concrete pair of accepted subnets, one with a newline before its slash, with one name |
| `QueueTargets.ForeignDigitExample` | src/mcp_mikrotik/validation.py:19-20 | A concrete pair of accepted newline-free hosts, their last octets digits beyond ASCII, with one name |
| `Device.Connection.FireScheduler` | tests/fakes.py:354-434 | Code against its function: firing needs the named entry and a clock at or past its deadline, then applies the statements in order up to the first unreadable one |
| `Device.Connection.AdvanceClock` | tests/fakes.py:337-352 | Code against its function: the device clock row after time passes, other rows and columns kept |
| `Device.UpdateRow` | tests/fakes.py:43-62 | Code against its function: the device's `set`: the first row with the id is changed and no other; nothing is when there is none |
| `Device.DropId` | tests/fakes.py:82-83 | Code against its function: the device's `remove`: every row with the id goes, the rest stay in order |
| `Device.FindFirst` | src/mcp_mikrotik/guard.py:858-866 | Code against its function: the first row with the given field value, or none |
| `GuardedCalls.Guard.ArmDeadMan` | src/mcp_mikrotik/guard.py:3824-3908 | Code against its function: arming as written, over commands that may be lost: outcome, commands sent, device and the one journal record |
| `GuardedCalls.Guard.CancelDeadMan` | src/mcp_mikrotik/guard.py:3911-3947 | Code against its function: cancelling as written: outcome, commands sent, device and the one journal record |
| `Breaker.CircuitBreaker.BeforeConnect` | src/mcp_mikrotik/client.py:135-152 | Code against its function: passes exactly when closed or past the cooldown; a refusal names a positive wait after which it passes |
| `Breaker.CircuitBreaker.RecordFailure` | src/mcp_mikrotik/client.py:159-163 | Code against its function: the counter and, at the threshold, the opening time |
| `Breaker.CircuitBreaker.RecordSuccess` | src/mcp_mikrotik/client.py:154-157 | Code against its function: back to a fresh breaker |
| `ReadRetry.MikrotikClient.ExecuteOnce` | src/mcp_mikrotik/client.py:271-306 | Code against its function: one attempt through the cached connection and the breaker |
| `RuleOrder.FilterMenu.Move` | tests/fakes.py:115-140 | Code against its function: the device's move in place, undone when the destination is unknown |
| `RuleOrder.FilterMenu.MoveRule` | src/mcp_mikrotik/guard.py:3333-3425 | Code against its function: preview and confirmed move decide alike; only a confirmed plan moves a row |
| `KeyedMenus.Menu.AddEntry` | src/mcp_mikrotik/guard.py:2305-2331 | Code against its function: the guarded adds: refuse a duplicate key, preview without change, add otherwise |
| `KeyedMenus.Menu.LimitBandwidth` | src/mcp_mikrotik/guard.py:1089-1137 | Code against its function: update the queue of a target or make one |
| `KeyedMenus.Menu.RemoveEntry` | src/mcp_mikrotik/guard.py:2353-2380 | Code against its function: the guarded removes: drop exactly the chosen row's id |
| `GuardRuns.CancelIsRun` | src/mcp_mikrotik/guard.py:3929-3947 | Helper: the code of a confirmed cancel, left alone, is its read and its removal in the protocol, and its answer depends on the removal's delivery alone |
| `DeadManTheorems.WindowCoversRadarCheck` | src/mcp_mikrotik/guard.py:4181-4195 | Helper: every armed change has a window at least as long as the radar check of its target |
| `DeadManTheorems.RefusedMinutesAreLeast` | src/mcp_mikrotik/guard.py:4187-4195 | Helper: the minutes named in a refusal are the least that are not refused as too short |
| `DeadManTheorems.RadarBands` | src/mcp_mikrotik/guard.py:4060-4083 | Helper: the radar checks as disjoint bands: ten minutes in the weather band, one in the rest of the radar range, none outside it or in superchannel |
| `Breaker.SerialTrialIsSingle` | src/mcp_mikrotik/client.py:149-152 | Helper: when the result is recorded before the next check, a failed trial refuses exactly the checks of the following cooldown |

## Left out

- DeadManTheorems.Refinement: leaves out saved values whose revert renames the interface, since no row of that name is then left to speak of; that takes a blank in a saved value (`FaithfulKeepsIdentity`, `BlankCanRename`).
- DeadManOutcomes.Restoration: a tuning write's noise immunity is not restored, because the code reverts `distance` alone (src/mcp_mikrotik/guard.py:4439).
- OtherEntries.StrangersAreKept: an administrator's own script that removes an administrator's entry does not fire, because it would; and every call runs uninterrupted there, the interleavings being those of `DeadManTheorems` and `DeadManCancels`.
- QueueTargets.NamesAreInjective: excludes newlines and digits beyond ASCII, because the names of all accepted IPv4 targets are not injective; `SharedNameExactly` says which are shared.
- The wireless theorems take one row per interface with its own `.id`, and scheduler entries of other origin that neither rewrite that interface nor remove the dead-man; overlapping dead-men are covered by `LastToFireWins` alone.
- An interface with an empty name: the device's reader matches no empty name, so such a revert is inert.
- RouterOS script beyond the three statement shapes the package emits: a validated command on another path stops the fired script, as in `tests/fakes.py`, where a real device would execute it.
- A target row without an `.id`, for which `tests/fakes.py` updates the first row; the model answers that there is no such item.
- Enumerated arguments (channel width, noise immunity) are taken as validated; the other validators of ports, ids and modes are one-branch facts.
- A clock row without a `time` column reads as midnight, as in the code; a real device always carries both.
- RouterOS booleans are text in rows; `coerce_ros_bool` on Python booleans is not modelled.
- Decimal digits are those of Unicode 15; an interpreter with a later table accepts a few more runs, to which the same lemmas would apply.
- Acceptance of IPv6 targets; `NamesCollideExactly` covers their names, so the loosely accepted `1:2:3:4` shares that of `1.2.3.4`.
- Which letters beyond ASCII `\w` takes in the zone id of an IPv6 address is left open: the lemmas hold for every such set.
- Warnings, error wording and the risk callouts of a preview, except those of the NTP client.
- `WritePreview.before` and `after` beyond the planned position, decision or fields they come from.
- The rule-order, keyed-menu and NTP calls have no lost commands and no journal of their own; the gate, losses and journal are modelled on the dead-man and wireless calls, which share the same decorator.
- Operations of other menus (interfaces, containers, PPP secrets, Wi-Fi, hotspot, backup, DNS cache): the same resolve, preview and write shape with easier properties.
- Sockets, TLS, the `librouteros` library, environment variables, files and logging: a connect or a command is an outcome given from outside, the settings are parameters.
- Thread scheduling inside a locked section; the sections themselves interleave freely.
- Randomness of entry names: names and ids are parameters, assumed fresh where a theorem needs it.
- The read tools, the security audit, correlation ids and the client pool.
