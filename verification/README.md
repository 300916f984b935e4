# Calibration, mailbox and game invariants of CoLendaFPGA

This project models, in Dafny, the parts of CoLendaFPGA whose correctness is not visible from a single function, and proves
what they promise.

* **DDR3 calibration** (`sequencer.c`). Delay taps are swept against a pass/fail hardware test, the passing window of every
  pin is recovered, and all pins are centred. The hardware is a parameter: pin *i* passes exactly when
  `lo <= DQS delay - DQ delay <= hi` for windows that may be any intervals, empty ones included; the DQS-enable search and
  the data-mask search are proved against any verdicts at all. The tap range `m` and the number of pins are symbolic.
  * `Windows` says what the deskew is for: edges, centring targets, which results still pass. `Sweeps` holds the delay
    registers (`Pins`) and the sweep loops; `ReadDeskew` and `WriteDeskew` are the two deskew routines, the second with the
    data-mask search.
  * `DqsEnable` is the DQS-enable search over (VFIFO pointer, phase, delay); `DqsEnableArc` proves exactly which widths of
    window it is sure to find.
  * `Calibrate` runs all stages of all groups, with the retry nest, the read-latency search and the failure record.
  * `ReadTest` assembles pass bits from error words; `IdleDelay` compiles a wait into loop counters; `Bits` defines the
    C bit operations on unsigned words.
* **Debug mailbox** (`tclrpt.c`). Host and sequencer share three words; `Mailbox` is the interleaved state machine, and
  `MailboxCommands` says what the commands do.
* **Asteroid animation** (`Collenda_animation_asteroids.c`) and the graphics library's sprite motion
  (`graphic_processor.c`): `Asteroids` keeps a packed instruction word up to date incrementally, `Motion` is the wrap and
  clamp arithmetic.
* **Space Invaders** (`space_invaders_game_sprite.c`): `Formation` is the alien formation as values, `Invaders` the main
  loop and the loss of a life.

The build modelled is the one in `sequencer_defines.h`: Cyclone V, DDR3, hard PHY, full rate, phase tap 0 of DQS enable
skipped, DQS centring on for reads and off for writes, one rank, one read group per write group.

## What turned out false of the code

* Read deskew is sound but not complete. It fails exactly when a window is missed by the sweeps or is out of reach of the
  DQS delay it moves to; `Windows.ReadDeskewMissesASetting` gives two pins that DQS 5 would serve and that it gives up on at
  DQS 10, starting from the delay 4 that every group starts from. Only raising DQS can cause this
  (`Windows.OnlyRaisingDqsLosesAPin`). Write deskew has no such gap.
* A write deskew that misses a window leaves DQS at its largest delay; the read deskew restores it (`WritesCenter`,
  `VfifoCenter`).
* When the first passing DQS-enable phase is phase 1, the recorded right edge is one phase tap short
  (`DqsEnableArc.MeasuresTheWindow` states the exact deficit).
* The DQS-enable search is sure to find a window exactly when it is between 948 ps and 34943 ps wide. Of every smaller width
  one window is missed, from 12 ps on although a usable setting passes, and of every greater width one keeps the search
  from starting (`DqsEnableArc.WideWindowIsFound`, `NarrowWindowIsMissed`, `WiderWindowIsMissed`).
* The delay taps per phase tap reported for tracking are wrong for two kinds of windows, among all of two phase taps or more.
  They are doubled when the window ends at phase 1 and the delay chain still reaches its edge from two phase taps back. When
  the first pass is at phase 1 and the window ends before the first step tried after it, they are what is left of the window
  after the step between, as little as 1. `DqsEnableArc.TrackedTaps` gives the value in every case and the exact condition
  for 12 or 13; `TrackedDoubled` and `TrackedAsOne` are windows that are calibrated and reported wrong.
* The two checks of the DQS-enable search for a missing right edge and for an empty range can never fire.
* The retry nest reads its starting DQS delay again in every round, so it does not cover the product of its two ranges:
  `Calibrate.CalibrateVfifo` gives the exact condition for its success, and `Calibrate.LaterRoundsTryOneDelay` a whole family
  of runs in which every round but the first tries one delay only.
* The read deskew after writes can only fail because its test, which writes first, sees other windows: on the same windows it
  is redundant (`Calibrate.RedundantOnSameWindows`).
* Wrapping both axes but repairing only one corrects every run exactly when the direction is an axis, x does not move, or the
  vertical step is at most 480 (`Motion.CorrectsExactly`, `Motion.TallStepsRunAway`). Clamping keeps a sprite on the screen
  exactly when the direction is an axis or one step is zero (`Motion.ClampKeepsOnScreenExactly`); the asteroids' direction 7
  is clamped and is not (`Motion.ClampedDiagonalRunsAway`).
* Losing the last life sets the alien counter to 13 without restoring the aliens (`Invaders.Game.LoseLife`).

## Model

| member | source | states |
|---|---|---|
| `Windows.TestWordBits` | DE1-SoC/hps_isw_handoff/soc_system_hps_0/sequencer.c:5147-5154 | the verdict word of a test carries the verdict of pin i in bit i and nothing above the last pin |
| `Windows.EdgesAreExtremes` | DE1-SoC/hps_isw_handoff/soc_system_hps_0/sequencer.c:5159-5258 | what an edge means for the tests: the last delay that passes, or how far the first passing one is on the other side |
| `Windows.MinSpreadIs` | DE1-SoC/hps_isw_handoff/soc_system_hps_0/sequencer.c:5300-5309 | the spread of a pin that no other pin undercuts is the minimum that centring starts from |
| `Windows.TargetIsBalanced` | DE1-SoC/hps_isw_handoff/soc_system_hps_0/sequencer.c:5311-5316 | rounding included, centring aims where the two margins of a pin differ by at most one tap and neither is negative |
| `Windows.ReadClamps` | DE1-SoC/hps_isw_handoff/soc_system_hps_0/sequencer.c:5322-5363 | the upper DQS limit is unreachable, final delays stay in range, and a DQS pulled up to 0 is absorbed by the DQ shifts without any DQ limit |
| `Windows.ReadCentrePasses` | DE1-SoC/hps_isw_handoff/soc_system_hps_0/sequencer.c:5355-5379 | at the final delays a pin passes exactly when some DQ delay could pass at the DQS chosen, exactly when both its margins are non-negative |
| `Windows.LevelledRead` | DE1-SoC/hps_isw_handoff/soc_system_hps_0/sequencer.c:5349-5379 | the clamped shift computed for a pin is its centred delay, and the two margin tests decide whether the pin passes there |
| `Windows.UnclampedReadsAreBalanced` | DE1-SoC/hps_isw_handoff/soc_system_hps_0/sequencer.c:5353-5379 | if no DQ delay is cut off, every pin passes with margins at most one tap apart |
| `Windows.ReadsAreBalanced` | DE1-SoC/hps_isw_handoff/soc_system_hps_0/sequencer.c:5349-5379 | every read pin ends with margins at most one tap apart unless its delay is cut off at the largest, and the pin with the smallest spread is not delayed unless DQS could not follow |
| `Windows.OnlyRaisingDqsLosesAPin` | DE1-SoC/hps_isw_handoff/soc_system_hps_0/sequencer.c:5322-5339 | if DQS does not move up, no window found by the sweeps can go out of reach |
| `Windows.RedeskewKeepsReach` | DE1-SoC/hps_isw_handoff/soc_system_hps_0/sequencer.c:5300-5339 | a second deskew, from the DQS the first one chose, never moves DQS up, and so reaches every window it finds |
| `Windows.ReadDeskewMissesASetting` | DE1-SoC/hps_isw_handoff/soc_system_hps_0/sequencer.c:5300-5339 | from the DQS delay every group starts with, two concrete windows for which a common setting exists and read deskew still fails |
| `Windows.WriteCentrePasses` | DE1-SoC/hps_isw_handoff/soc_system_hps_0/sequencer.c:7451-7487 | with DQS fixed, the centred delay is in range and passes exactly when any DQ delay would |
| `Windows.WritesAreBalanced` | DE1-SoC/hps_isw_handoff/soc_system_hps_0/sequencer.c:7451-7487 | every write pin that is moved ends with margins at most one tap apart, and any other has no more margin on the left |
| `Windows.LevelledWrite` | DE1-SoC/hps_isw_handoff/soc_system_hps_0/sequencer.c:7462-7492 | the clamped write shift is the centred delay, and the two margin tests decide whether the pin passes |
| `Windows.UnmetIsUnreachable` | DE1-SoC/hps_isw_handoff/soc_system_hps_0/sequencer.c:7402-7411 | a pin rejected for a missing window passes at no DQ delay |
| `Sweeps.EdgesAreExact` | DE1-SoC/hps_isw_handoff/soc_system_hps_0/sequencer.c:5138-5262 | both edges are found exactly for windows that meet the swept range, and are then the window's ends cut to that range |
| `Sweeps.Pins.LeftSweep` | DE1-SoC/hps_isw_handoff/soc_system_hps_0/sequencer.c:5130-5176 | the DQ sweep, with its early stop, records the same edges as a full sweep and leaves all DQ delays at 0 |
| `Sweeps.Pins.ResetEdges` | DE1-SoC/hps_isw_handoff/soc_system_hps_0/sequencer.c:5177-5200 | right edges without a left edge are dropped, and only pins seen passing count as accounted for |
| `Sweeps.Pins.RightSweep` | DE1-SoC/hps_isw_handoff/soc_system_hps_0/sequencer.c:5202-5262 | the DQS sweep, with its early stop, records the same edges as a full sweep; it stops early only when every window has been met |
| `Sweeps.RecordLeft` | DE1-SoC/hps_isw_handoff/soc_system_hps_0/sequencer.c:5159-5172 | one test advances every pin's edge entries from "d delays swept" to "d + 1 delays swept" |
| `Sweeps.RecordRight` | DE1-SoC/hps_isw_handoff/soc_system_hps_0/sequencer.c:5232-5261 | one test of the DQS sweep updates each pin by the verdict bit of that pin alone |
| `Sweeps.RightStepAdvances` | DE1-SoC/hps_isw_handoff/soc_system_hps_0/sequencer.c:5232-5261 | that update keeps the entries equal to the closed form of the sweep |
| `Sweeps.RightStopIsFinal` | DE1-SoC/hps_isw_handoff/soc_system_hps_0/sequencer.c:5223-5231 | stopping early on a pin already accounted for leaves it with its final entries |
| `Sweeps.MarkMarginal` | DE1-SoC/hps_isw_handoff/soc_system_hps_0/sequencer.c:7352-7361 | the write path marks exactly the pins with a left edge only |
| `Sweeps.Pins.FirstMissing` | DE1-SoC/hps_isw_handoff/soc_system_hps_0/sequencer.c:5274-5298 | the pin reported is the first whose window misses the swept range; if there is none, all edges are exact |
| `Sweeps.Narrowest` | DE1-SoC/hps_isw_handoff/soc_system_hps_0/sequencer.c:5300-5309 | the pin found has the smallest spread of all pins |
| `Sweeps.HalfRoundedUp` | DE1-SoC/hps_isw_handoff/soc_system_hps_0/sequencer.c:5311-5316 | adding one to positive values before a truncating division halves and rounds up for either sign |
| `Sweeps.Pins.Level` | DE1-SoC/hps_isw_handoff/soc_system_hps_0/sequencer.c:5349-5379 | every pin gets its levelled delay, and the two running minima are non-negative exactly when every pin's margins are |
| `ReadDeskew.CentreReads` | DE1-SoC/hps_isw_handoff/soc_system_hps_0/sequencer.c:5300-5443 | final DQS and DQ delays; the result is success exactly when every pin passes, exactly when every window is in reach |
| `ReadDeskew.VfifoCenter` | DE1-SoC/hps_isw_handoff/soc_system_hps_0/sequencer.c:5095-5444 | success implies every pin passes and has an exact condition on the windows; otherwise the first pin without a window is named, DQS is restored and DQ is 0 |
| `ReadDeskew.CentresAgain` | DE1-SoC/hps_isw_handoff/soc_system_hps_0/sequencer.c:5095-5444 | a second run of a read deskew that succeeded, on the same windows, succeeds |
| `WriteDeskew.TracksPass` | DE1-SoC/hps_isw_handoff/soc_system_hps_0/sequencer.c:7663-7675 | a pass extends the current run and keeps the best run leftmost among the longest |
| `WriteDeskew.RestIsTooShort` | DE1-SoC/hps_isw_handoff/soc_system_hps_0/sequencer.c:7718-7728 | the early exit never changes the answer |
| `WriteDeskew.BestRunIsUnique` | DE1-SoC/hps_isw_handoff/soc_system_hps_0/sequencer.c:7645-7734 | there is one leftmost longest passing run |
| `WriteDeskew.LineIsRelativeDelay` | DE1-SoC/hps_isw_handoff/soc_system_hps_0/sequencer.c:7656-7705 | what the joined line is: mask delays to the left, DQS delays to the right |
| `WriteDeskew.Search.Passed` | DE1-SoC/hps_isw_handoff/soc_system_hps_0/sequencer.c:7663-7675 | one passing test, including a second look at the position the two sweeps share |
| `WriteDeskew.Search.Failed` | DE1-SoC/hps_isw_handoff/soc_system_hps_0/sequencer.c:7676-7680 | one failing test ends the run in progress and keeps the best |
| `WriteDeskew.Search.Join` | DE1-SoC/hps_isw_handoff/soc_system_hps_0/sequencer.c:7689-7693 | the run in progress crosses from the mask sweep to the DQS sweep exactly when it reaches 0 |
| `WriteDeskew.MaskSweep` | DE1-SoC/hps_isw_handoff/soc_system_hps_0/sequencer.c:7656-7683 | the mask sweep has looked at the whole left half of the line |
| `WriteDeskew.MaskWindow` | DE1-SoC/hps_isw_handoff/soc_system_hps_0/sequencer.c:7645-7741 | for any verdicts the two sweeps find the leftmost longest passing run of the joined line, or none exists; DQS is restored |
| `WriteDeskew.MaskMargin` | DE1-SoC/hps_isw_handoff/soc_system_hps_0/sequencer.c:7745-7758 | the mask margin is non-negative exactly when the mask delay chosen lies in the run, exactly when the run starts at or left of 0 |
| `WriteDeskew.MaskIsCentred` | DE1-SoC/hps_isw_handoff/soc_system_hps_0/sequencer.c:7742-7751 | the two margins of the mask differ by at most one tap, the larger on the left, or the mask is not delayed because the middle of its run is right of 0 |
| `WriteDeskew.CentreMask` | DE1-SoC/hps_isw_handoff/soc_system_hps_0/sequencer.c:7732-7763 | success exactly when the best run reaches 0 or further left, and then the masked write passes at the delay set, which is the middle of the run with margins at most one tap apart |
| `WriteDeskew.CentreWrites` | DE1-SoC/hps_isw_handoff/soc_system_hps_0/sequencer.c:7413-7506 | DQS is put back, and success exactly when every pin passes, exactly when every pin has some passing DQ delay |
| `WriteDeskew.WritesCenter` | DE1-SoC/hps_isw_handoff/soc_system_hps_0/sequencer.c:7223-7944 | success exactly when every pin has a passing DQ delay at the unmoved DQS and the mask run, at the DQ delays this leaves, reaches 0; then all pins and the mask pass, and the mask is in the middle of its run; a missing window leaves DQS at its maximum |
| `DqsEnable.Enable.IncrVfifo` | DE1-SoC/hps_isw_handoff/soc_system_hps_0/sequencer.c:3874-3906 | the pointer moves one cycle on a ring of 16 |
| `DqsEnable.Enable.DecrVfifo` | DE1-SoC/hps_isw_handoff/soc_system_hps_0/sequencer.c:3922-3929 | fifteen increments undo one increment |
| `DqsEnable.AtPhase` | DE1-SoC/hps_isw_handoff/soc_system_hps_0/sequencer.c:4153-4181 | pointer and phase together are one step counter on the ring |
| `DqsEnable.FullTurn` | DE1-SoC/hps_isw_handoff/soc_system_hps_0/sequencer.c:4153-4181 | sixteen increments are one turn, so a full inner sweep leaves the pointer where it was |
| `DqsEnable.DtapsPerPtap` | DE1-SoC/hps_isw_handoff/soc_system_hps_0/sequencer.c:4082-4089 | the number of delay taps strictly inside one phase tap |
| `DqsEnable.Enable.FindFailingRead` | DE1-SoC/hps_isw_handoff/soc_system_hps_0/sequencer.c:4120-4141 | succeeds exactly when two of the 16 cycles fail, and then leaves the pointer at a failing cycle |
| `DqsEnable.Enable.SweepPhases` | DE1-SoC/hps_isw_handoff/soc_system_hps_0/sequencer.c:4154-4174 | the first passing phase of a cycle, skipping phase 0 but counting its delay |
| `DqsEnable.Enable.SweepPointers` | DE1-SoC/hps_isw_handoff/soc_system_hps_0/sequencer.c:4153-4181 | work_bgn is the delay tap plus 312 ps per ring step; the pointer is back after a full sweep |
| `DqsEnable.Enable.FindBegin` | DE1-SoC/hps_isw_handoff/soc_system_hps_0/sequencer.c:4145-4192 | finds the first passing setting in search order, or none of the settings passes |
| `DqsEnable.Enable.FindLeftEdge` | DE1-SoC/hps_isw_handoff/soc_system_hps_0/sequencer.c:4199-4233 | left edge in delay taps within the phase tap before, and where the slip of one phase comes from |
| `DqsEnable.Enable.ForwardPhases` | DE1-SoC/hps_isw_handoff/soc_system_hps_0/sequencer.c:4334-4360 | the first failing usable step of a cycle, with the first step tried forgiven |
| `DqsEnable.Enable.FindRightPhase` | DE1-SoC/hps_isw_handoff/soc_system_hps_0/sequencer.c:4314-4377 | the first failing step is always found, and work_end is its position less the slip |
| `DqsEnable.RingCloses` | DE1-SoC/hps_isw_handoff/soc_system_hps_0/sequencer.c:4373-4377 | the failing read of step 1 comes round again, so the right-edge failure exit is dead |
| `DqsEnable.Enable.BackToLastPhase` | DE1-SoC/hps_isw_handoff/soc_system_hps_0/sequencer.c:4379-4398 | backs off to the previous usable step, over phase 0 if need be, pointer and work_end together |
| `DqsEnable.Enable.FindRightDelay` | DE1-SoC/hps_isw_handoff/soc_system_hps_0/sequencer.c:4427-4441 | every delay before the one returned passes and that one fails or is past the chain |
| `DqsEnable.Enable.TrackDtaps` | DE1-SoC/hps_isw_handoff/soc_system_hps_0/sequencer.c:4469-4545 | the number reported is the distance to the failing edge seen from the usable step before, or the static one when no edge shows |
| `DqsEnable.MeasuredRange` | DE1-SoC/hps_isw_handoff/soc_system_hps_0/sequencer.c:4463-4469 | the range recorded starts at one phase tap or later and is never empty, so the empty-range exit is dead |
| `DqsEnable.FoldIntoCycle` | DE1-SoC/hps_isw_handoff/soc_system_hps_0/sequencer.c:4556-4560 | the middle is reduced into one VFIFO cycle of 2496 ps without reaching 0 |
| `DqsEnable.Enable.ProgramCentre` | DE1-SoC/hps_isw_handoff/soc_system_hps_0/sequencer.c:4549-4580 | phase in 1..7 and delay at most 13, at or less than one delay tap after the folded middle, except the move up to phase 1 |
| `DqsEnable.Enable.FindCyclePointer` | DE1-SoC/hps_isw_handoff/soc_system_hps_0/sequencer.c:4582-4598 | ends at a passing setting, or all 16 cycles fail |
| `DqsEnable.Enable.MeasurePhases` | DE1-SoC/hps_isw_handoff/soc_system_hps_0/sequencer.c:4198-4403 | the window measured in whole phase taps: left edge, fuzzy-edge correction, last usable step |
| `DqsEnable.Enable.MeasureRange` | DE1-SoC/hps_isw_handoff/soc_system_hps_0/sequencer.c:4194-4461 | the range recorded by steps 3 to 5, on both paths: never empty, never starting below one phase tap |
| `DqsEnable.Enable.FindDqsEnPhase` | DE1-SoC/hps_isw_handoff/soc_system_hps_0/sequencer.c:4043-4613 | for any verdicts: what each outcome means, what range was measured, and that success leaves a passing setting |
| `DqsEnableArc.AtOnArc` | DE1-SoC/hps_isw_handoff/soc_system_hps_0/sequencer.c:4145-4181 | when verdicts depend on the delay alone, ring steps and picoseconds agree modulo one turn |
| `DqsEnableArc.BeginsInside` | DE1-SoC/hps_isw_handoff/soc_system_hps_0/sequencer.c:4145-4192 | a window of two phase taps or more is entered with no delay tap, within one phase tap of its left end, or two if that is at phase 1 |
| `DqsEnableArc.RightStep` | DE1-SoC/hps_isw_handoff/soc_system_hps_0/sequencer.c:4314-4398 | the last usable step kept is the last one inside the window |
| `DqsEnableArc.MeasuresTheWindow` | DE1-SoC/hps_isw_handoff/soc_system_hps_0/sequencer.c:4198-4441 | unless the first pass is at phase 1 both recorded ends are within one delay tap; then the right end is one phase tap short, or the range is a single point |
| `DqsEnableArc.EndsAtOnce` | DE1-SoC/hps_isw_handoff/soc_system_hps_0/sequencer.c:4324-4377 | when the first step tried is past the window, the range recorded is the one phase tap after the first pass |
| `DqsEnableArc.CentreIsInside` | DE1-SoC/hps_isw_handoff/soc_system_hps_0/sequencer.c:4549-4598 | the programmed centre lies in the window at some pointer |
| `DqsEnableArc.CentreUnfolded` | DE1-SoC/hps_isw_handoff/soc_system_hps_0/sequencer.c:4552-4582 | folded into one cycle, rounded up and kept off phase 0, the centre is not moved past the right end |
| `DqsEnableArc.TwoCyclesFail` | DE1-SoC/hps_isw_handoff/soc_system_hps_0/sequencer.c:4120-4141 | a window that leaves two cycles out lets step 1 succeed |
| `DqsEnableArc.WideWindowIsFound` | DE1-SoC/hps_isw_handoff/soc_system_hps_0/sequencer.c:4043-4613 | from any pointer, every window of at least 948 ps that leaves two cycles out is calibrated successfully |
| `DqsEnableArc.NarrowWindowIsMissed` | DE1-SoC/hps_isw_handoff/soc_system_hps_0/sequencer.c:4043-4613 | of every width below 948 ps, some window is never calibrated, whatever the starting pointer, although from 12 ps on a usable setting passes |
| `DqsEnableArc.WiderWindowIsMissed` | DE1-SoC/hps_isw_handoff/soc_system_hps_0/sequencer.c:4120-4141 | of every width from 34944 ps on, some window is never calibrated, because step 1 sees one failing cycle only |
| `DqsEnableArc.TrackedTaps` | DE1-SoC/hps_isw_handoff/soc_system_hps_0/sequencer.c:4463-4545 | the number reported for tracking in every case, right, doubled or cut short, and the exact condition for 12 or 13, for every window of two phase taps or more |
| `DqsEnableArc.TrackedAsOne` | DE1-SoC/hps_isw_handoff/soc_system_hps_0/sequencer.c:4463-4545 | one window that is calibrated successfully from any pointer and reported with a single tap |
| `DqsEnableArc.TrackedDoubled` | DE1-SoC/hps_isw_handoff/soc_system_hps_0/sequencer.c:4463-4545 | one window that is calibrated successfully from any pointer and reported with twice the taps |
| `DqsEnableArc.TrackedAtOnce` | DE1-SoC/hps_isw_handoff/soc_system_hps_0/sequencer.c:4473-4545 | seen from the last step of a window, the number reported is what is left of the window, or the static value past its end |
| `Calibrate.Globals.SetFailingGroupStage` | DE1-SoC/hps_isw_handoff/soc_system_hps_0/sequencer.c:591-611 | the record is the first failure reported, all three parts together, and later reports leave it alone |
| `Calibrate.Globals.CalibrateLfifo` | DE1-SoC/hps_isw_handoff/soc_system_hps_0/sequencer.c:6143-6217 | success exactly when the first latency passes; all latencies from final - 1 up passed, final - 2 is 0 or failed; a failure is the one report made |
| `Calibrate.RampAppend` | DE1-SoC/hps_isw_handoff/soc_system_hps_0/sequencer.c:5850-5850 | the delays tried in one round, extended at the far end |
| `Calibrate.Attempt` | DE1-SoC/hps_isw_handoff/soc_system_hps_0/sequencer.c:5850-5962 | one attempt succeeds exactly when the search does and the windows found centre; else it leaves a known DQS delay and substage behind |
| `Calibrate.TryDqsDelays` | DE1-SoC/hps_isw_handoff/soc_system_hps_0/sequencer.c:5845-5966 | a round succeeds exactly when some DQS delay from its start works, stops at the first that does with its deskewed registers, and otherwise has tried them all and leaves the DQS delay of its last attempt |
| `Calibrate.TryRound` | DE1-SoC/hps_isw_handoff/soc_system_hps_0/sequencer.c:5783-5974 | one round works exactly when its guaranteed read and one of its attempts do; else it leaves the start of the next round |
| `Calibrate.CalibrateVfifo` | DE1-SoC/hps_isw_handoff/soc_system_hps_0/sequencer.c:5745-6009 | the nest succeeds exactly when one of its rounds works, each from the DQS delay the round before left, and ends at the first attempt that does; then every pin passes; a failure has tried exactly the settings listed and blames the substage that failed |
| `Calibrate.BlamesTheCause` | DE1-SoC/hps_isw_handoff/soc_system_hps_0/sequencer.c:5783-5995 | the substage blamed is the guaranteed read exactly if that never passed, the DQS-enable search or the centring only if that failed in a round |
| `Calibrate.OneWinner` | DE1-SoC/hps_isw_handoff/soc_system_hps_0/sequencer.c:5783-5974 | the attempt at which the nest ends is unique |
| `Calibrate.FailedRoundsNeverLowerDqs` | DE1-SoC/hps_isw_handoff/soc_system_hps_0/sequencer.c:5849-5962 | after failed rounds the DQS delay is never below the first and never past the chain |
| `Calibrate.WideWindowsLetTheNestWork` | DE1-SoC/hps_isw_handoff/soc_system_hps_0/sequencer.c:5783-5974 | if at some attempt reads pass on one window of 948 to 34943 ps and the pins' windows found there centre, the nest works |
| `Calibrate.LaterRoundsTryOneDelay` | DE1-SoC/hps_isw_handoff/soc_system_hps_0/sequencer.c:5849-5866 | while the DQS-enable search fails, every round but the first tries the largest DQS delay only |
| `Calibrate.Group.CalibrateWrites` | DE1-SoC/hps_isw_handoff/soc_system_hps_0/sequencer.c:8130-8155 | success exactly when write deskew can succeed, and then all write pins and the mask pass; what is reported, and that a failure names the group last |
| `Calibrate.Group.CalibrateVfifoEnd` | DE1-SoC/hps_isw_handoff/soc_system_hps_0/sequencer.c:6088-6138 | success exactly when the windows of the test after writes centre from the DQS left behind; what is reported, and that a failure names the group last |
| `Calibrate.WinnersAgree` | DE1-SoC/hps_isw_handoff/soc_system_hps_0/sequencer.c:9257-9326 | what the reads of a group need is decided at the attempt where the nest ends |
| `Calibrate.RedundantOnSameWindows` | DE1-SoC/hps_isw_handoff/soc_system_hps_0/sequencer.c:6088-6138 | if the test after writes sees the windows of the first deskew, it cannot fail: the nest alone decides the reads |
| `Calibrate.Group.Calibrate` | DE1-SoC/hps_isw_handoff/soc_system_hps_0/sequencer.c:9242-9332 | all stages of a group succeed exactly when the nest, the write deskew and the read deskew after writes can, and then reads under the test after writes at the winning setting, writes and masked writes all pass; reports name this group or its pins and a substage that failed |
| `Calibrate.CalibrateGroup` | DE1-SoC/hps_isw_handoff/soc_system_hps_0/sequencer.c:9242-9332 | calibrating one group disturbs neither what another group has reached nor whether it can be calibrated |
| `Calibrate.CalibrateGroups` | DE1-SoC/hps_isw_handoff/soc_system_hps_0/sequencer.c:9208-9398 | the failure counter counts groups that cannot be calibrated, it is zero exactly when there are none, and every other group works |
| `Calibrate.MemCalibrate` | DE1-SoC/hps_isw_handoff/soc_system_hps_0/sequencer.c:9148-9437 | success exactly when every group that takes part can be calibrated through all three stages and a latency is found, and then they all work; a failing run explains itself, in both modes, by its first report: a group or pin that took part, at a stage and substage that failed, or the latency |
| `ReadTest.RankWord` | DE1-SoC/hps_isw_handoff/soc_system_hps_0/sequencer.c:3800-3816 | shifting the virtual groups in, last first, puts lane j of group g at its own bit |
| `ReadTest.LaneIsDivMod` | DE1-SoC/hps_isw_handoff/soc_system_hps_0/sequencer.c:3800-3816 | bit k of a result is lane k mod W of virtual group k div W |
| `ReadTest.Test` | DE1-SoC/hps_isw_handoff/soc_system_hps_0/sequencer.c:3750-3837 | a result bit is set exactly when every rank that takes part reported no error on that lane; the verdict means all lanes or some lane |
| `ReadTest.AllLanes` | DE1-SoC/hps_isw_handoff/soc_system_hps_0/sequencer.c:3825-3830 | comparing with the full mask asks for all lanes |
| `ReadTest.AnyLane` | DE1-SoC/hps_isw_handoff/soc_system_hps_0/sequencer.c:3831-3836 | comparing with zero asks for some lane |
| `ReadTest.TestAllRanks` | DE1-SoC/hps_isw_handoff/soc_system_hps_0/sequencer.c:3840-3857 | yes exactly when every try passes, at least one being made, and the first that fails is the last made |
| `IdleDelay.NestedIdlesAre` | DE1-SoC/hps_isw_handoff/soc_system_hps_0/sequencer.c:2048-2062 | the nested idle program executes the product of the two counters plus one each |
| `IdleDelay.Counters` | DE1-SoC/hps_isw_handoff/soc_system_hps_0/sequencer.c:2019-2046 | no counter is cut off by its width, and the loops round the request up |
| `IdleDelay.DelayForMemClocks` | DE1-SoC/hps_isw_handoff/soc_system_hps_0/sequencer.c:2019-2088 | idles at least the clocks requested for every 32-bit request: exactly, or rounded up to 256 or 65536 |
| `Mailbox.SequencerKeepsInv` | DE1-SoC/hps_isw_handoff/soc_system_hps_0/tclrpt.c:613-732 | every step of the polling loop keeps the protocol invariant |
| `Mailbox.HostKeepsInv` | DE1-SoC/hps_isw_handoff/soc_system_hps_0/tclrpt.c:661-676 | every step of a host that posts only when ready and acknowledges once keeps it |
| `Mailbox.ExactlyOnce` | DE1-SoC/hps_isw_handoff/soc_system_hps_0/tclrpt.c:639-1022 | in every interleaving each command runs once and in order, each is answered once, and each answer is the one the command earned |
| `Mailbox.StatusTellsTheAnswer` | DE1-SoC/hps_isw_handoff/soc_system_hps_0/tclrpt.c:623-636 | until it is read, the status word tells whether the last command was legal |
| `MailboxCommands.LegalExactly` | DE1-SoC/hps_isw_handoff/soc_system_hps_0/tclrpt.c:674-1020 | which commands and parameters are answered as legal, and that the others change nothing |
| `MailboxCommands.EffectOnGroups` | DE1-SoC/hps_isw_handoff/soc_system_hps_0/tclrpt.c:711-732 | the effect of every command on every bit of the group mask |
| `MailboxCommands.EffectOnRanks` | DE1-SoC/hps_isw_handoff/soc_system_hps_0/tclrpt.c:733-755 | the effect of every command on every rank |
| `MailboxCommands.EffectOnFlags` | DE1-SoC/hps_isw_handoff/soc_system_hps_0/tclrpt.c:756-775 | the effect of every command on every flag bit |
| `MailboxCommands.GroupsSkipped` | DE1-SoC/hps_isw_handoff/soc_system_hps_0/tclrpt.c:711-732 | a group is skipped exactly when it was marked after the last command 14, or was at first and there was none |
| `MailboxCommands.RanksSkipped` | DE1-SoC/hps_isw_handoff/soc_system_hps_0/tclrpt.c:733-755 | a rank is skipped exactly when it was marked after the last command 17, or was at first and there was none |
| `MailboxCommands.FlagsSet` | DE1-SoC/hps_isw_handoff/soc_system_hps_0/tclrpt.c:756-767 | the flags of commands 21 to 23 are set exactly when they were before or the command was executed |
| `MailboxCommands.NonDestructiveIsLast` | DE1-SoC/hps_isw_handoff/soc_system_hps_0/tclrpt.c:768-775 | the non-destructive flag is what the last command 24 said |
| `MailboxCommands.CalibrationsRun` | DE1-SoC/hps_isw_handoff/soc_system_hps_0/tclrpt.c:687-705 | calibration runs once for each command 5 or 42 |
| `MailboxCommands.RunsLeave` | DE1-SoC/hps_isw_handoff/soc_system_hps_0/tclrpt.c:645-732 | in every interleaving, from an empty mask, a group is skipped exactly when it was marked after the last time all were marked as valid, and calibration has run once for each command executed that asks for it |
| `Mailbox.NeverOverwritten` | DE1-SoC/hps_isw_handoff/soc_system_hps_0/tclrpt.c:613-622 | a waiting command and its parameter are still in the shared words when it runs |
| `Mailbox.AnsweredInFourSteps` | DE1-SoC/hps_isw_handoff/soc_system_hps_0/tclrpt.c:661-732 | from every reachable wait, four steps of the loop answer the command, whatever the host does in between |
| `Mailbox.SwappedOrderLosesACommand` | DE1-SoC/hps_isw_handoff/soc_system_hps_0/tclrpt.c:617-621 | with the two writes of the ready mark swapped, a run of a well-behaved host loses a command |
| `Mailbox.LostForever` | DE1-SoC/hps_isw_handoff/soc_system_hps_0/tclrpt.c:617-621 | a command lost that way is never answered in any continuation |
| `Mailbox.PostingAckLosesTheReply` | DE1-SoC/hps_isw_handoff/soc_system_hps_0/tclrpt.c:661-672 | a host that posts the acknowledgement code as a command can lose its reply |
| `Motion.Sprite.IncreaseCoordinate` | DE0-Nano/software/CollendaProgram/lib_graphic_processor/graphic_processor.c:91-210 | all eight directions and both modes are one shift of each axis and at most one repair, the vertical one first |
| `Motion.MirroredMove` | DE0-Nano/software/CollendaProgram/lib_graphic_processor/graphic_processor.c:91-210 | for every direction and all positions and steps, where a mirrored move ends, in numbers: by its step, or in again at the opposite edge |
| `Motion.ClampedMove` | DE0-Nano/software/CollendaProgram/lib_graphic_processor/graphic_processor.c:91-210 | for every direction and all positions and steps, where a clamped move ends, in numbers |
| `Motion.StraightInside` | DE0-Nano/software/CollendaProgram/lib_graphic_processor/graphic_processor.c:91-210 | as long as a run stays inside it is a straight line in the direction's heading |
| `Motion.SelfCorrects` | DE0-Nano/software/CollendaProgram/lib_graphic_processor/graphic_processor.c:91-210 | in mirror mode, unless a diagonal moves in x by steps taller than the screen, in every frame of every run y is on the screen, x overshoots by at most one step, and never in two frames running |
| `Motion.TallStepsRunAway` | DE0-Nano/software/CollendaProgram/lib_graphic_processor/graphic_processor.c:103-110 | for every diagonal that moves in x, above 480 pixels a vertical step lets x leave the screen by any distance for good |
| `Motion.CorrectsExactly` | DE0-Nano/software/CollendaProgram/lib_graphic_processor/graphic_processor.c:91-210 | the exact condition on direction and steps for mirror mode to correct every run |
| `Motion.ClampKeepsOnScreenExactly` | DE0-Nano/software/CollendaProgram/lib_graphic_processor/graphic_processor.c:91-210 | the exact condition on direction and steps for clamp mode to keep every position on the screen |
| `Motion.ClampedRunsStay` | DE0-Nano/software/CollendaProgram/lib_graphic_processor/graphic_processor.c:91-210 | in clamp mode, under that condition, every run stays on the screen |
| `Motion.ClampedDiagonalRunsAway` | DE0-Nano/Collenda_C_Code/Collenda_animation_asteroids.c:378-390 | every clamped diagonal slides along the edge it clamps to, and x grows or falls without bound |
| `Asteroids.PositionWordIsSum` | DE0-Nano/Collenda_C_Code/Collenda_animation_asteroids.c:410-420 | shifting and OR-ing packs a position in field range into disjoint fields |
| `Asteroids.WordRoundTrip` | DE0-Nano/Collenda_C_Code/Collenda_animation_asteroids.c:410-420 | position and offset can be read back from the word |
| `Asteroids.StepMask` | DE0-Nano/Collenda_C_Code/Collenda_animation_asteroids.c:429-430 | a step up to 1023 survives masking and unpacking on both axes |
| `Asteroids.FollowedIsFresh` | DE0-Nano/Collenda_C_Code/Collenda_animation_asteroids.c:298-392 | on the screen, the sum of fields that the cached word follows is the freshly packed word |
| `Asteroids.Asteroid.ShiftXBy` | DE0-Nano/Collenda_C_Code/Collenda_animation_asteroids.c:301-309 | adding or subtracting the packed step keeps the word in step with the coordinate, modulo 2^32 |
| `Asteroids.Asteroid.constructor` | DE0-Nano/Collenda_C_Code/Collenda_animation_asteroids.c:422-442 | an in-range start establishes the invariant |
| `Asteroids.Asteroid.IncreaseCoordinate` | DE0-Nano/Collenda_C_Code/Collenda_animation_asteroids.c:298-392 | after every call the cached word equals a fresh packing, corner frames included, and the position moves as in mirror mode |
| `Asteroids.Asteroid.Animate` | DE0-Nano/Collenda_C_Code/Collenda_animation_asteroids.c:219-392 | every word sent in any run is the freshly packed word of the mirrored motion |
| `Formation.RefreshCounts` | DE0-Nano/Collenda_C_Code/Space_Invaders/space_invaders_game_sprite.c:303-353 | a refresh removes exactly the aliens hit, given that hit aliens are shown |
| `Formation.RefreshKeepsFormation` | DE0-Nano/Collenda_C_Code/Space_Invaders/space_invaders_game_sprite.c:286-361 | columns and rows stay rigid, the first alien stays on its grid in 8..230, and the losses are counted |
| `Formation.RefreshMoves` | DE0-Nano/Collenda_C_Code/Space_Invaders/space_invaders_game_sprite.c:286-353 | where one refresh takes every alien, in numbers |
| `Formation.LapsAcross` | DE0-Nano/Collenda_C_Code/Space_Invaders/space_invaders_game_sprite.c:286-353 | the march takes 37 refreshes from edge to edge and comes down ten pixels a lap, over any number of laps |
| `Formation.FirstAlienMarches` | DE0-Nano/Collenda_C_Code/Space_Invaders/space_invaders_game_sprite.c:286-353 | refreshes move the first alien and the march by that rule, shown or not |
| `Formation.FreshIsFormation` | DE0-Nano/Collenda_C_Code/Space_Invaders/space_invaders_game_sprite.c:418-432 | a new stage or life starts from a complete rigid formation |
| `Formation.FreshLayout` | DE0-Nano/Collenda_C_Code/Space_Invaders/space_invaders_game_sprite.c:418-432 | the position of every alien at the start of a stage or life, in numbers |
| `Formation.AliensKeepApart` | DE0-Nano/Collenda_C_Code/Space_Invaders/space_invaders_game_sprite.c:286-361 | no two shown aliens come closer than 40 pixels in a row or 50 from row to row |
| `Formation.ShownOnScreen` | DE0-Nano/Collenda_C_Code/Space_Invaders/space_invaders_game_sprite.c:286-361 | every shown alien has x in 8..610 |
| `Formation.MarchesForEver` | DE0-Nano/Collenda_C_Code/Space_Invaders/space_invaders_game_sprite.c:286-509 | over every history of refreshes, hits, stages and lives the counter is the number of aliens shown and the formation is rigid and on track |
| `Invaders.Game.constructor` | DE0-Nano/Collenda_C_Code/Space_Invaders/space_invaders_game_sprite.c:73-185 | the start of a game satisfies the invariant |
| `Invaders.FiredAt` | DE0-Nano/Collenda_C_Code/Space_Invaders/space_invaders_game_sprite.c:270-284 | a new shot takes the first slot that is free, and no shot is fired if none is |
| `Invaders.Game.CountScreen` | DE0-Nano/Collenda_C_Code/Space_Invaders/space_invaders_game_sprite.c:190-209 | each wait is enabled exactly when its number of screens has passed |
| `Invaders.Game.ShotAgainstAliens` | DE0-Nano/Collenda_C_Code/Space_Invaders/space_invaders_game_sprite.c:539-549 | exactly the shown aliens that overlap the flying shot are marked, and the shot exactly if there is one |
| `Invaders.Game.ShotsAgainstAliens` | DE0-Nano/Collenda_C_Code/Space_Invaders/space_invaders_game_sprite.c:232-234 | both shots together mark exactly the aliens overlapped by a flying shot, and exactly the shots that overlap one, as if they came at once |
| `Invaders.MarkTwice` | DE0-Nano/Collenda_C_Code/Space_Invaders/space_invaders_game_sprite.c:232-234 | the second shot marks what it would have marked alone |
| `Invaders.Game.ShipMeetsAlien` | DE0-Nano/Collenda_C_Code/Space_Invaders/space_invaders_game_sprite.c:211-224 | true exactly when the ship overlaps a shown alien |
| `Invaders.Game.ShipMeetsShot` | DE0-Nano/Collenda_C_Code/Space_Invaders/space_invaders_game_sprite.c:226-230 | true exactly when the ship overlaps a shot still flying |
| `Invaders.Game.Analyze` | DE0-Nano/Collenda_C_Code/Space_Invaders/space_invaders_game_sprite.c:210-235 | ship, shots and aliens are marked as the overlaps before the analysis say, and the formation invariant survives |
| `Invaders.ShipIsHitBy` | DE0-Nano/Collenda_C_Code/Space_Invaders/space_invaders_game_sprite.c:210-230 | the ship is hit exactly by a shown alien or a flying shot of theirs near it, in pixels |
| `Invaders.AliensAreHitBy` | DE0-Nano/Collenda_C_Code/Space_Invaders/space_invaders_game_sprite.c:232-234 | an alien is hit exactly if shown and near a flying shot, a shot exactly if near a shown alien, in pixels |
| `Invaders.Game.Control` | DE0-Nano/Collenda_C_Code/Space_Invaders/space_invaders_game_sprite.c:236-284 | the new direction, the shots fired and the waits restarted, for every input; nothing in a pause |
| `Invaders.SteeringMovesTheShip` | DE0-Nano/Collenda_C_Code/Space_Invaders/space_invaders_game_sprite.c:237-249 | held right, the ship moves 5 pixels right at its turn, held left 5 left, up to 620 and 1, and otherwise not at all |
| `Invaders.SteeringIsRemembered` | DE0-Nano/Collenda_C_Code/Space_Invaders/space_invaders_game_sprite.c:237-249 | between its turns the ship stands still and the joystick is remembered as held last, or as held before a pause |
| `Invaders.Game.AlienShoots` | DE0-Nano/Collenda_C_Code/Space_Invaders/space_invaders_game_sprite.c:270-273 | a shown alien takes the first free slot, any other none |
| `Invaders.Game.ShipShoots` | DE0-Nano/Collenda_C_Code/Space_Invaders/space_invaders_game_sprite.c:276-282 | the ship takes its first free slot, if there is one |
| `Invaders.Game.MarchOn` | DE0-Nano/Collenda_C_Code/Space_Invaders/space_invaders_game_sprite.c:288-353 | the loop over the aliens is one refresh of the formation, counter included |
| `Invaders.Game.RefreshAliens` | DE0-Nano/Collenda_C_Code/Space_Invaders/space_invaders_game_sprite.c:285-361 | the formation marches exactly when its screen count is reached and the game is not paused |
| `Invaders.Game.RefreshShip` | DE0-Nano/Collenda_C_Code/Space_Invaders/space_invaders_game_sprite.c:362-407 | ship and shots move exactly every second screen outside a pause, spent shots disappear, and the ship stays on its line |
| `Invaders.Game.NextStage` | DE0-Nano/Collenda_C_Code/Space_Invaders/space_invaders_game_sprite.c:409-444 | the next stage starts exactly when no alien is left: whole formation, all shots spent, faster down to 3 screens; otherwise nothing changes |
| `Invaders.Game.StartOrPause` | DE0-Nano/Collenda_C_Code/Space_Invaders/space_invaders_game_sprite.c:445-454 | the button toggles the pause exactly when its wait is over |
| `Invaders.Game.Iterate` | DE0-Nano/Collenda_C_Code/Space_Invaders/space_invaders_game_sprite.c:186-454 | the whole state after an iteration, and the invariant: collisions or a screen counted, then what the inputs and the counters say moves, and a new stage exactly when nobody is left |
| `Invaders.AdvancedIs` | DE0-Nano/Collenda_C_Code/Space_Invaders/space_invaders_game_sprite.c:285-444 | whom a finished screen removes, when the stage is over, and what formation follows |
| `Invaders.Game.LoseLife` | DE0-Nano/Collenda_C_Code/Space_Invaders/space_invaders_game_sprite.c:455-509 | a life less, a fresh formation and all shots spent, or the end of the game with a counter that no longer counts |
| `Invaders.RestartClearsTheField` | DE0-Nano/Collenda_C_Code/Space_Invaders/space_invaders_game_sprite.c:460-502 | after a stage or life has started, the next turn of the shots clears the field, and the ship stands unhurt at its start |
| `Invaders.Game.Play` | DE0-Nano/Collenda_C_Code/Space_Invaders/space_invaders_game_sprite.c:171-510 | for every sequence of inputs the invariant holds while lives are left |
| `Invaders.ShotsFlyStraight` | DE0-Nano/Collenda_C_Code/Space_Invaders/space_invaders_game_sprite.c:186-454 | over an iteration a flying shot keeps its slot and column and disappears only if hit, overlapping a shown alien, or at the top |
| `Invaders.AlienShotsFlyStraight` | DE0-Nano/Collenda_C_Code/Space_Invaders/space_invaders_game_sprite.c:186-454 | over an iteration a flying shot of the aliens falls straight, and is stopped by nothing but line 396 and the end of a stage or life |
| `Invaders.ShotsComeFromTheShip` | DE0-Nano/Collenda_C_Code/Space_Invaders/space_invaders_game_sprite.c:274-283 | a shot appears exactly when the ship fires, in the first free slot, 20 pixels above it |
| `Invaders.ShotsComeFromTheAliens` | DE0-Nano/Collenda_C_Code/Space_Invaders/space_invaders_game_sprite.c:250-273 | a shot of theirs appears exactly when the alien drawn by lot is shown and may fire, in the first free slot, 20 pixels below it |
| `Invaders.ShotEnds` | DE0-Nano/Collenda_C_Code/Space_Invaders/space_invaders_game_sprite.c:370-379 | every shot of the ship disappears after a number of moves given by its height, and frees its slot |
| `Invaders.AlienShotEnds` | DE0-Nano/Collenda_C_Code/Space_Invaders/space_invaders_game_sprite.c:381-405 | every shot of the aliens disappears after a number of moves given by its height |
| `Invaders.FiringRate` | DE0-Nano/Collenda_C_Code/Space_Invaders/space_invaders_game_sprite.c:198-209 | over every run, fire is opened at most once in as many screens as the wait lasts |

## Left out

- Hardware: tests are parameters. Windows are intervals of DQS minus DQ delay for the deskew, and verdicts are otherwise arbitrary but repeatable; noise between two reads of one setting is not modelled.
- Register input and output, the SCC update strobes, waiting for full FIFOs, drawing, button decoding and random numbers: registers are fields, and player, screen and random choices are inputs.
- Compiled-out variants (QDRII, RLDRAM, LPDDR2, shadow registers, quick calibration, write levelling, DQS output centring, shifting DQS enable with DQS) and the older versions of the algorithms.
- Figures of merit, debug reports and `max_working_cnt`: they are written and never read by the calibration.
- The output phase loop of the retry nest has a single phase on this board, and output delays are not registers of the model; the guaranteed read and the read windows per attempt are arbitrary functions of the position in the nest instead.
- The windows of the test after writes are an arbitrary function of the pin and of the enable setting found; how they follow from the write delays is hardware.
- `tclrpt_loop` is not compiled for the hard processor system; it is modelled as compiled for the soft sequencer, without the delay-chain and margining commands that its settings leave out, with one parameter word, and from the moment the interface has first been marked ready. Memory commands only count as run.
- Mailbox.Execute: eye-diagram and calibration runs change nothing else in the model, because their results go to the report.
- The alien that shoots is any of the thirteen, which covers the unassigned choice in the source, and all collision flags start at 0.
- The vertical position of the aliens is not bounded by the source and so not by the model.
- The idle program of the read-write manager is hardware: a counter is tested before it is decremented and reloaded when it falls through, as the comments beside the code describe.
