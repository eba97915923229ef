# Verification of the load-fault notifier and its embedded library

The repository is the firmware of a notifier of electrical load faults (`ade/`) built on the BeRTOS
embedded library (`bertos/`). This project models its stateful and arithmetic cores in Dafny and proves
what they are there for. Routines that change memory in place are methods over classes and arrays, each
proved equal to a function of the state before it; the properties are proved of those functions, over
every input, every run or every reachable state.

| files | core |
|---|---|
| `Common` | what several cores use |
| `Octets`, `At45`, `Dataflash` | the write-back page cache of the AT45DB driver, and the chip it drives over a byte-serial line |
| `Md2`, `Md2Laws` | the one-pass MD2 digest, against the several passes of RFC 1319 sections 3.1 to 3.4, and that definition byte by byte |
| `Supervision`, `SupervisionInvariant`, `FromSetup`, `Suspension`, `FaultCount`, `Calibration`, `Sampling`, `Detection`, `Switches`, `Controller` | the supervisor of sixteen channels: state machine, invariant, and laws over its runs |
| `Rle` | the run-length codec with a look-back encoder |
| `Ramp` | the fixed-point acceleration ramp |
| `BitDivision`, `MessageBits`, `Crc16`, `CrcCcitt` | the two table-driven CRCs, against bit-at-a-time polynomial division |
| `Tea` | the TEA block cipher |
| `Randpool` | the entropy ring, on top of `Md2` |

## Main results

1. **The data flash is a flat byte file.** Over every admissible sequence of reads, writes, seeks, flushes,
   closes and reopens, driver and chip give the replies of, and end up holding, a plain array with a
   position (`DataFlash.Run`); what that array replies is stated call by call (`CallsReply`, `WriteReply`, `ReadReply`). The chip is a separate machine that sees only select-line edges and bytes.
2. **One pass is the definition.** Update and end, with the context's own checksum fed back in while it is
   being replaced, compute the digest of the multi-pass definition, for every message, every way of cutting
   it into pieces and every substitution (`OnePassDigest`, `Md2Context.Update`, `Md2Context.End`). The definition is
   pinned byte by byte (`WorkArea`, `RoundBytes`, `ChecksumBytes`, `PaddedBytes`, `DigestParts`).
3. **The supervisor keeps its invariant** in every reachable state (`StepInv`, `Run`, `Supervisor.Drive`);
   a channel is marked faulted exactly at the R * S-th consecutive reading that shows a loss
   (`FaultExactlyAtLimit`, `LossIsShown`);
   calibration ends only after S stable samples and, on a steady load, ends exactly when it can
   (`CalibratedOnlyAfterStable`, `CalibratesInRunIff`); a suspension lasts at most 16 T ticks more, which a
   run from set-up reaches, and its length is accounted for tick by tick (`SuspensionBounded`,
   `BoundIsReached`, `TicksAccounted`); sampling is fair over runs (`FairOverRun`); a lasting loss is marked by
   its R * S-th sample, with at most (R - 1) (16 T + 1) ticks of suspension before that (`LossIsMarked`); the fault light shows
   over every run whether a critical channel is faulted (`LightFromSetup`).
4. **The run-length codec** round-trips every byte string, stops on the closing byte whatever follows it,
   its size bound is both kept and reached at every length, and n equal bytes take
   2 ceil(n / 127) + 1 (`RoundTrip`, `EncodedSize`, `SizeBoundIsReached`, `EqualBytesShrink`).
5. **The ramp**: the value returned is the delay, or 0 at exactly the clocks where the delay is cut by its
   16-bit type. Everywhere else it is at least the minimum wavelength, at most the maximum and the error of
   the stored ratio, never grows, is never below the formula it approximates, and is above it by a bounded
   part of itself (`DelayNearIdeal`). Cut clocks, clocks that
   divide by zero, and ramps free of either have exact conditions (`ReturnedIsDelayUnlessCut`, `RampBounds`,
   `RampMonotone`, `RampEnd`, `FasterThanIdealIffCut`, `SomeClockCutIff`, `DividesByZeroIff`).
6. **Both CRCs are polynomial division**, and therefore catch every difference confined to 16 consecutive
   bits; a CRC with two bytes appended is zero exactly when they are its own (`Crc16IsDivision`,
   `CrcCcittIsDivision`, `Crc16DetectsBursts`, `Crc16Residue`, `CrcCcittResidue`).
7. **TEA and the entropy ring** are inverted by decryption and by repeating a push (`TeaRoundTrip`,
   `PushClosedForm`, `PushTwice`); the bytes read are digests of given ring bytes (`FirstDigest`,
   `SecondDigest`, `ReadMovesOn`).

## Where the code does less than it seems to

* A suspension is meant to last one countdown. A channel suspended after the countdown ran out and before
  the next tick clears the mask starts it again for all (`ade/control.c:300-304`, `876-883`), so the limit
  is 16 T ticks and not T + 1: a run from set-up gets there (`BoundIsReached`). A suspension outlasts the
  countdown it found exactly when, at countdown 0, a monitored sample of another calibrated channel fails a
  check that is not its last (`OutlastsIffRestarted`).
* With one fault check (R = 1) a channel is marked faulted without having been spoiled, four readings after
  set-up (`SingleCheckFaultsUnspoiled`). This is the only way it can happen (`StepFaultedSpoiled`).
* With a fault level below the calibration divisor the tolerance is zero, and a load that is not equal to
  the reading is never calibrated (`CalibratesInRunIff`, `NoToleranceFromSetup`). Such a channel, once it is
  the current one, is then the only one sampled, and no loss on any other is ever found
  (`UncalibratableStarves`, from set-up `StarvedFromSetup`).
* When the 16-bit ratio r of the wavelengths rounds down to the minimum wavelength itself, the delay at the
  clocks with t (65536 - r) < 65536 is 65536, and `bertos/algo/ramp.c:193` returns it as 0: the motor is
  stepped without a wait where the wait should be longest. Wavelengths 65534 and 65535 over 4000 clocks lose
  the first half of the ramp (`CutExample`). No clock of a ramp is cut when its first defined one is not, and
  none at all when (minWL + 1) maxWL <= 65536 minWL (`SomeClockCutIff`, `RampBounds`).
* The assertion at `bertos/algo/ramp.c:111` admits equal wavelengths, but their ratio then wraps to 0, and the
  delay is the wavelength over the time fraction modulo 65536: too slow for one wavelength, too fast for
  another (`EqualWavelengths`, `EqualWavelengthsExamples`). The note at `bertos/algo/ramp.h:150` excludes clock 0 only; the evaluation
  divides by zero at every clock whose time fraction rounds to 0 (`DividesByZeroIff`). The comment at
  `bertos/algo/ramp.c:126-130` speaks of 25 bits; the assertion after it allows 26.
* Set-up of the data flash does not wait for a chip that is still busy (`bertos/drv/dataflash.c:571-587`).
  Without a reset line a chip that stays busy beyond the status read, as modelled, ignores the load of page 0:
  set-up succeeds, and the driver is right exactly if the buffer held that page by chance (`DataFlash.Init`;
  `SetUpBusy` is a chip with which it is not).
* RFC 1319 section 3.2 sets a checksum byte; its reference implementation and the code at
  `bertos/algo/md2.c:180` exclusive-or into it. The model's definition has the latter.

## Model

| member | source | states |
|---|---|---|
| Dataflash.AddressRoundTrip | bertos/drv/dataflash.c:150-155 | for every device, page and offset, the three address bytes sent are decoded by the chip to that page and offset |
| Dataflash.WriteReadBack | bertos/drv/dataflash.c:429-532 | of the flat reference: after a write and any calls without one, seeking back and reading replies what was written |
| Dataflash.DataFlash.RunReadBack | bertos/drv/dataflash.c:429-532 | the same of the driver: what is written inside the file is read back after any flushes, closes, reopens, seeks and reads |
| Dataflash.QuietKeepsBytes | bertos/drv/dataflash.c:373-466 | of the flat reference: no sequence of calls without a write changes the bytes |
| Dataflash.CallsReply | bertos/io/kfile.c:176-205 | of the flat reference: a seek by k leaves and replies k, the position plus or minus k, or the end minus k; flushing and closing change nothing, reopening goes to 0 |
| Dataflash.WriteReply | bertos/drv/dataflash.c:479-532 | a write that fits replaces exactly its bytes and is counted whole; one that does not is a write of what fits |
| Dataflash.ReadReply | bertos/drv/dataflash.c:429-466 | a read replies the bytes from the position on, past the end what is left, and moves on by that |
| Dataflash.ReadAgain | bertos/io/kfile.c:176-205 | seeking back by what was read and reading again replies the same bytes |
| Dataflash.ReadTail | bertos/io/kfile.c:176-205 | seeking to k before the end and reading k replies the last k bytes |
| Dataflash.SpanFitsPage | bertos/drv/dataflash.c:63-96 | the offset part of an address is `page_bits` wide, which a page needs and no less would do |
| Dataflash.Capacities | bertos/drv/dataflash.c:63-96 | the bytes on each of the four devices |
| At45.ChipCommands | bertos/drv/dataflash.h:128-173 | by their codes: which opcode moves a page which way, which writes the buffer, and how many don't-care bytes each read takes |
| Dataflash.DataFlash.RunQuiet | bertos/drv/dataflash.c:373-466 | the same of the driver and the file it keeps |
| Dataflash.DataFlash.constructor | bertos/drv/dataflash.c:554-558 | a fresh driver has no page cached dirty, no size and position 0 |
| Dataflash.DataFlash.SetCS | bertos/drv/dataflash.c:106-110 | selecting resets the chip's decoder, releasing makes it act on what it received, for any busy time |
| Dataflash.DataFlash.SendCmd | bertos/drv/dataflash.c:117-156 | the chip ends up selected with exactly opcode and encoded address received, and nothing else changed |
| Dataflash.DataFlash.Stat | bertos/drv/dataflash.c:183-192 | gives the status of the moment and leaves both memories alone |
| Dataflash.DataFlash.Await | bertos/drv/dataflash.c:212-215 | polling ends, with the chip idle and both memories unchanged |
| Dataflash.DataFlash.Command | bertos/drv/dataflash.c:200-224 | the two transfers move exactly one page, in the direction of the opcode, unless the chip was still busy, which changes nothing; the chip ends idle and released |
| Dataflash.DataFlash.BeginRead | bertos/drv/dataflash.c:230-244 | after the device's own number of don't-care bytes the chip is in continuous read at the address meant |
| Dataflash.DataFlash.ReadBlock | bertos/drv/dataflash.c:230-248 | the block holds the bytes of main memory from the address on, across page ends; memories and the rest of the block are unchanged |
| Dataflash.DataFlash.WriteBlock | bertos/drv/dataflash.c:258-268 | exactly the given bytes of the buffer are replaced; main memory is unchanged |
| Dataflash.DataFlash.LoadPage | bertos/drv/dataflash.c:274-277 | the buffer becomes the page, unless the chip was busy; main memory is unchanged |
| Dataflash.DataFlash.Init | bertos/drv/dataflash.c:545-590 | from any state of the chip, a pending transfer included, succeeds exactly on the configured device; then the driver is right, and the file what main memory holds, exactly if there was a reset pulse, or the released chip was idle after the status read, or its buffer was page 0 already |
| Dataflash.SetUpBusy | bertos/drv/dataflash.c:571-587 | a busy chip without a reset line with which set-up succeeds and the driver is not right |
| Dataflash.DataFlash.ResetChip | bertos/drv/dataflash.c:166-177 | the select line is released, which may start a pending transfer, and a reset pulse ends what is under way |
| Dataflash.DataFlash.Probe | bertos/drv/dataflash.c:572-580 | the density bits tell the configured device from all others |
| Dataflash.DataFlash.Flush | bertos/drv/dataflash.c:373-385 | the file is unchanged and afterwards main memory alone holds it |
| Dataflash.DataFlash.Close | bertos/drv/dataflash.c:391-396 | as flush |
| Dataflash.DataFlash.Reopen | bertos/drv/dataflash.c:401-414 | the file is unchanged and all in main memory, the position is 0 |
| Dataflash.DataFlash.Seek | bertos/io/kfile.c:176-205 | the position left and returned is the offset, the position plus the offset, or the size plus the offset, unchecked; nothing else changes |
| Dataflash.DataFlash.Locate | bertos/drv/dataflash.c:446-447 | page and offset are the position in pages; inside the file the page exists |
| Dataflash.DataFlash.Read | bertos/drv/dataflash.c:429-466 | returns the file from the position on, cut at its end; advances by that; the file and the rest of the caller's buffer are unchanged |
| Dataflash.DataFlash.SwitchPage | bertos/drv/dataflash.c:507-516 | the page is cached and the file unchanged, a dirty page having been saved first |
| Dataflash.DataFlash.WriteCached | bertos/drv/dataflash.c:521-522 | exactly the given bytes of the file are replaced inside the cached page, which becomes dirty |
| Dataflash.DataFlash.WriteInPage | bertos/drv/dataflash.c:495-528 | some bytes, at least one, are written at the position, and exactly they |
| Dataflash.DataFlash.Write | bertos/drv/dataflash.c:479-532 | over any number of pages exactly the clamped range of the file is replaced and the count returned |
| Dataflash.DataFlash.Serve | bertos/drv/dataflash.c:373-532 | each call has the reply and the effect of the flat file |
| Dataflash.DataFlash.Run | bertos/drv/dataflash.c:373-532 | so has every admissible sequence of calls |
| Md2.StandInIsPermutation | bertos/algo/md2.c:100-110 | the substitution of the default build is a permutation of the byte values |
| Md2.SumBlockIsChecksum | bertos/algo/md2.c:176-182 | the checksum pass over one block continues the checksum of RFC 1319 section 3.2 |
| Md2Laws.OneByte | bertos/algo/md2.c:163-182 | setting a byte changes it by a substituted byte: of the last byte set in the rounds, of that and the message byte in the checksum |
| Md2Laws.RoundBytes | bertos/algo/md2.c:163-172 | for every substitution, each byte of a round is set from the one before it, the first from the last byte of the round before plus that round's number |
| Md2Laws.WorkArea | bertos/algo/md2.c:151-163 | a block starts its eighteen rounds from state, block and their exclusive or, byte by byte |
| Md2Laws.ChecksumBytes | bertos/algo/md2.c:176-182 | for every substitution, each checksum byte is set from the message byte and the checksum byte before it, the first from the last of the block before |
| Md2Laws.PaddedBytes | bertos/algo/md2.c:264-269 | the message, then one to sixteen bytes whose value is their number |
| Md2Laws.DigestParts | bertos/algo/md2.c:256-278 | what is hashed is the padded message and its checksum in one block more; the digest is the state after it |
| Md2Laws.ConstantRounds | bertos/algo/md2.c:163-172 | a constant substitution masks every byte in odd rounds and unmasks it in even ones |
| Md2Laws.ConstantCarry | bertos/algo/md2.c:171-171 | what the next round starts from, in closed form: the last byte so masked plus the number of the round |
| Md2Laws.ConstantDigest | bertos/algo/md2.c:163-172 | so any message has the zero digest: eighteen is even |
| Md2Laws.ConstantChecksum | bertos/algo/md2.c:176-182 | and its checksum is the constant in every byte after an odd number of blocks, zero after an even one |
| Md2Laws.StandInValues | bertos/algo/md2.c:94-109 | what the default substitution makes of no bit, each single bit and all bits |
| Md2.ContextMeaning | bertos/algo/md2.c:206-247 | after any message, state and checksum are those of the definition at the last full block, and the buffer holds the rest |
| Md2.AtBoundary | bertos/algo/md2.c:206-247 | on whole blocks the context is the definition's checksum and state over all of them |
| Md2.CounterIsRemainder | bertos/algo/md2.c:216-244 | between calls the counter is the message length modulo 16, so below 16 |
| Md2.OnePassDigest | bertos/algo/md2.c:256-278 | padding and then feeding the context's own checksum gives the completed message and its digest |
| Md2.CopyInBlock | bertos/algo/md2.c:225-234 | a piece that does not fill the buffer is one copy into it |
| Md2.CopyToBlockEnd | bertos/algo/md2.c:225-243 | a piece that fills the buffer is one copy and one block |
| Md2.Encrypt | bertos/algo/md2.c:163-172 | in place, the eighteen rounds of RFC 1319 section 3.4 |
| Md2.SweepInPlace | bertos/algo/md2.c:165-169 | one round over the work area, in place |
| Md2.LoadWork | bertos/algo/md2.c:150-157 | the work area is state, block and their exclusive or |
| Md2.UpdateChecksum | bertos/algo/md2.c:176-182 | in place, the checksum of one more block |
| Md2.Compute | bertos/algo/md2.c:135-189 | state and checksum, in place, after one more block; the block is unchanged |
| Md2.Pad | bertos/algo/md2.c:120-133 | n bytes of value n |
| Md2.Md2Context.constructor | bertos/algo/md2.c:196-201 | the context of the empty message |
| Md2.Md2Context.Feed | bertos/algo/md2.c:215-243 | takes at least one byte, and leaves the context of the longer message |
| Md2.Md2Context.Update | bertos/algo/md2.c:206-247 | the context is that of the message so far followed by the piece, also when the piece is the context's own checksum |
| Md2.Md2Context.PadOut | bertos/algo/md2.c:264-269 | the message absorbed is padded as in RFC 1319 section 3.1 |
| Md2.Md2Context.FeedChecksum | bertos/algo/md2.c:274-274 | the checksum as it was before the call is absorbed |
| Md2.Md2Context.End | bertos/algo/md2.c:256-278 | returns the digest, by the definition, of everything absorbed |
| SupervisionInvariant.SampleEligible | ade/control.c:567-624 | sampling is refused exactly when no channel is active, enabled and unsuspended; else an eligible one is taken |
| SupervisionInvariant.SampleFrame | ade/control.c:567-624 | sampling changes only the multiplexer and readings, and stores the reading made after the switch |
| SupervisionInvariant.SampleOnMux | ade/control.c:472-492 | when a reading is stored the multiplexer is on its channel |
| SupervisionInvariant.SelectionIsInjective | ade/control.c:451-454 | no two channels share a multiplexer code |
| SupervisionInvariant.SelectionCodes | ade/control.c:451-454 | channel ch has code (24 - ch) mod 16 |
| SupervisionInvariant.SetupInv | ade/control.c:1041-1094 | the invariant holds after set-up |
| SupervisionInvariant.EnabledChanges | ade/control.c:678-694 | exactly the newly enabled channels start calibration blank, exactly the disabled ones leave it, the others keep all that is known of them |
| SupervisionInvariant.CalibrationForgets | ade/control.c:697-715 | a forced calibration clears every fault, suspension and spoiling and restarts exactly the enabled channels |
| SupervisionInvariant.LossIsShown | ade/control.c:764-780 | the loss test in readings: the reading is below the load, and the difference d has (d + 1) detDiv > level; every law below speaks of a lossy sample in these terms |
| SupervisionInvariant.MonitorCases | ade/control.c:914-942 | the whole state after each of the four outcomes of a monitored sample: a good one, a lossy one, a failed check, a fault; no 8-bit counter wraps |
| SupervisionInvariant.LoopInv | ade/control.c:1098-1156 | a loop iteration keeps the invariant |
| SupervisionInvariant.TickInv | ade/control.c:300-312 | a one-second tick keeps it |
| SupervisionInvariant.StepInv | ade/control.c:647-942 | every event keeps it: uncalibrated within enabled, suspended within spoiled, lossy bit exactly when a counter is not 0, counters at most 254 |
| SupervisionInvariant.Run | ade/control.c:1098-1156 | it holds after every run |
| SupervisionInvariant.MonitorFaultedSpoiled | ade/control.c:894-942 | monitoring leaves faulted within spoiled unless, and only unless, one check is asked for and this sample completes it |
| SupervisionInvariant.StepFaultedSpoiled | ade/control.c:894-942 | the same of every event: no other can leave a faulted channel unspoiled |
| SupervisionInvariant.FaultedWithinSpoiled | ade/control.c:894-942 | over runs with at least two checks, faulted is within spoiled |
| FromSetup.SingleCheckFaultsUnspoiled | ade/control.c:894-942 | with one check it is not: for every channel, a run of four readings from set-up |
| FromSetup.Settle | ade/control.c:718-757 | three readings give a blank channel its load and end its calibration, and touch no other channel |
| Suspension.LoopSuspends | ade/control.c:876-911 | an iteration suspends exactly the channel whose monitored sample fails a check that is not the last, and starts the countdown exactly if it had run out |
| Suspension.SuspendsIff | ade/control.c:894-911 | that guard, read before the iteration, is equivalent to a new suspension after it |
| Suspension.StepRemaining | ade/control.c:300-304 | unsuspended channels times T plus the countdown never grows while a channel stays suspended, and every tick lowers it |
| Suspension.SuspensionBounded | ade/control.c:300-304 | no channel stays suspended through 16 T + 1 ticks, whatever else happens |
| Suspension.CountdownWithinTime | ade/control.c:876-883 | the countdown never exceeds T in a run that keeps T |
| Suspension.TicksAccounted | ade/control.c:300-304 | ticks spent suspended are exactly the first countdown plus T per restart, less what is left |
| Suspension.OutlastsIffRestarted | ade/control.c:876-883 | a suspension outlasts the countdown it found exactly if a failing check at countdown 0 restarted it |
| Suspension.BoundIsReached | ade/control.c:876-892 | for every T a run from set-up keeps a channel suspended for 16 T ticks |
| FaultCount.StepCount | ade/control.c:761-791 | each event moves the two counters as one count of consecutive lossy samples, and faults exactly at R * S |
| FaultCount.CountsOverRun | ade/control.c:761-911 | over every run that keeps S and R, checks times S plus samples is the number of consecutive lossy samples |
| FaultCount.FaultExactlyAtLimit | ade/control.c:761-942 | from set-up on, an event marks a channel faulted exactly when it brings the number of consecutive readings that show a loss to R * S |
| Calibration.StepAdvances | ade/control.c:718-757 | the sample counter is what is left of S after the consecutive stable samples, over every event |
| Calibration.CalibratedOnlyAfterStable | ade/control.c:718-757 | from set-up on, a channel is marked calibrated only after exactly S consecutive stable samples |
| Calibration.StabilityIsShown | ade/control.c:738-751 | the stability test in readings: the distance d to the load has d calDiv <= level; the laws here speak of a stable sample in these terms |
| Calibration.DistanceHalves | ade/control.c:737-745 | a sample takes the distance between load and reading to its half, rounded up, with the load on the same side of the reading |
| Calibration.CalibrationTerminates | ade/control.c:718-757 | with tolerance at least 1, a constant reading calibrates a channel within 33 + S samples, from any load |
| Calibration.NoToleranceNeverCalibrates | ade/control.c:748-751 | with tolerance 0 and a load off the reading, no number of samples does |
| Calibration.CalibratesIff | ade/control.c:718-757 | exactly when a constant reading calibrates a channel, and that it never does otherwise |
| Calibration.CalibratesInRunIff | ade/control.c:718-757 | the same over runs, with other events and other channels' samples in between, after 33 + S samples |
| Calibration.NoToleranceFromSetup | ade/control.c:748-751 | set up with a level below the divisor, a channel with a load is calibrated by a constant reading in no run |
| Sampling.SamplingPolicy | ade/control.c:567-624 | refused exactly when no channel is active, enabled and unsuspended; lossy channels first, then uncalibrated ones, keeping the current one where allowed, and the reading is the channel's own |
| Sampling.TakesNextAbove | ade/control.c:607-613 | without those, the lowest eligible channel above the current one, or the lowest of all if none is above |
| Sampling.RoundIsFair | ade/control.c:607-613 | one scan round over a set takes each member exactly once |
| Sampling.FairSampling | ade/control.c:567-624 | with a fixed eligible set, none lossy or uncalibrated, as many samples as members take each member once |
| Sampling.FairOverRun | ade/control.c:567-624 | in a run whose iterations find the same eligible set, as many iterations as members sample each member once, whatever events come between |
| Detection.LossIsMarked | ade/control.c:761-942 | over runs: a lasting loss on a monitored channel is marked once it has been sampled R * S times or kept suspended for more than (R - 1) (16 T + 1) ticks |
| Detection.StepDelay | ade/control.c:885-911 | every tick of suspension uses up that delay, and a failed check pays for the suspension it starts |
| Detection.LossIsFollowed | ade/control.c:578-587 | after a lossy sample, unless marked or suspended by it, every iteration that finds the channel powered samples it again |
| Detection.UncalibratableStarves | ade/control.c:592-601 | a current channel a steady reading cannot calibrate is the only one sampled over the run, and nothing is marked faulted |
| Detection.StarvedFromSetup | ade/control.c:592-601 | from set-up with a level below the divisor, the last channel, powered and loaded, starves all others |
| Switches.DisabledFindsNothing | ade/control.c:1152-1154 | over every run without switching it on again, disabled monitoring marks nothing faulted, suspended, spoiled or lossy |
| Switches.LightFromSetup | ade/control.c:925-929 | over every run from set-up the fault light is on exactly when a critical channel is faulted, as long as the choice of critical channels stands |
| Switches.StepLight | ade/control.c:925-929 | every event but that choice keeps it so |
| Switches.RecalibratesAfterWeeks | ade/control.c:277-312 | from set-up the first periodic calibration comes with exactly the tick that completes 604800 seconds per week set, 255 weeks if none is; no earlier tick touches calibration, faults or data |
| Controller.Supervisor.SelectNext | ade/control.c:607-613 | the loop stops on the first target after the current channel |
| Controller.Supervisor.SwitchAnalogMux | ade/control.c:472-492 | switches and discards one reading, or does nothing on the same channel |
| Controller.Supervisor.SampleChannel | ade/control.c:567-624 | new state and channel are those the sampling laws are about |
| Controller.Supervisor.ChRecalibrate | ade/control.c:647-663 | blanks the data of an enabled channel, leaves others alone |
| Controller.Supervisor.ControlSetEnabled | ade/control.c:678-694 | the masks and the loop over the new channels give the change `EnabledChanges` is about |
| Controller.Supervisor.ControlCalibration | ade/control.c:697-715 | the clearing and the loop give the change `CalibrationForgets` is about |
| Controller.Supervisor.RecalibrateAll | ade/control.c:712-714 | the loop over all channels restarts exactly the enabled ones |
| Controller.Supervisor.CalibrateChannel | ade/control.c:718-757 | the statements in their order give the calibration step the laws are about |
| Controller.Supervisor.ChLoadLoss | ade/control.c:761-791 | the same for the loss test |
| Controller.Supervisor.ChSetSpoiled | ade/control.c:885-892 | suspends and spoils, starting the countdown only if it is not running |
| Controller.Supervisor.ChSetSuspendCountdown | ade/control.c:876-883 | a running countdown is kept |
| Controller.Supervisor.ChCheckFault | ade/control.c:894-911 | counts a check, and spoils the channel when it is not the last |
| Controller.Supervisor.MonitorChannel | ade/control.c:914-942 | the whole monitoring step |
| Controller.Supervisor.CmdTask | ade/control.c:300-312 | the whole tick |
| Controller.Supervisor.Iterate | ade/control.c:1098-1156 | the decision part of a loop iteration |
| Controller.Supervisor.Serve | ade/control.c:647-1156 | each event takes the object's state by one step of the machine |
| Controller.Supervisor.Drive | ade/control.c:1098-1156 | every run of the object is a run of the machine and keeps the invariant |
| Controller.Supervisor.constructor | ade/control.c:418-447 | static initial values and set-up give the start state of the machine |
| Rle.RunRoundTrip | bertos/algo/rle.c:57-103 | a run decodes to its bytes; its length byte is never 0, so never the closing one, and never 128 |
| Rle.RoundTrip | bertos/algo/rle.c:119-150 | decoding an encoding gives the bytes back and uses exactly the encoding, whatever follows it |
| Rle.LiteralStops | bertos/algo/rle.c:70-88 | a literal run ends at the end, at 127 bytes, or before three equal bytes |
| Rle.ReplicateStops | bertos/algo/rle.c:62-64 | a stretch of equal bytes is taken whole: to its end, or to 127 bytes |
| Rle.LiteralHasNoTriple | bertos/algo/rle.c:70-88 | no three equal bytes are inside a literal run |
| Rle.EqualBytesShrink | bertos/algo/rle.c:48-109 | n equal bytes encode to 2 ceil(n / 127) + 1 bytes |
| Rle.StreamForms | bertos/algo/rle.c:119-150 | of any stream, encoded here or not: length bytes up to 127 repeat the next byte, from 128 on copy the next 256 minus themselves, 0 ends |
| Rle.RunEnd | bertos/algo/rle.c:57-88 | every run is 1 to 127 bytes long, the step back included |
| Rle.SizeFrom | bertos/algo/rle.c:48-109 | a run cut short is paid for by the three equal bytes after it |
| Rle.EncodedSize | bertos/algo/rle.c:48-109 | at most n + ceil(n / 127) + 1 bytes for n |
| Rle.SizeBoundIsReached | bertos/algo/rle.c:48-109 | for every n some input needs that many |
| Rle.FindRunEnd | bertos/algo/rle.c:59-88 | the two scans with the step back find the end of the run and its kind |
| Rle.EmitRun | bertos/algo/rle.c:90-103 | writes the run and nothing else |
| Rle.Rle | bertos/algo/rle.c:48-109 | the output starts with the encoding, its length is returned, the rest of the output is unchanged |
| Rle.CopyRun | bertos/algo/rle.c:130-146 | decodes one run, the other output unchanged |
| Rle.Unrle | bertos/algo/rle.c:119-150 | the output starts with what the stream stands for, its length is returned |
| StepperRamp.SplitMultiply | bertos/algo/ramp.c:172-181 | no byte product leaves 32 bits, and weighted they sum to the product |
| StepperRamp.FixMult32Bytewise | bertos/algo/ramp.c:172-181 | eight bits at a time gives the 64-bit product without its low 16 bits |
| StepperRamp.RatioInRange | bertos/algo/ramp.c:124-124 | the ratio is neither 0 nor wrapped, and within one unit of exact |
| StepperRamp.RatioKeptIff | bertos/algo/ramp.c:111-124 | it is kept exactly when the wavelengths differ |
| StepperRamp.EqualWavelengths | bertos/algo/ramp.c:189-196 | with equal wavelengths the delay returned is the wavelength over the time fraction modulo 65536, uncut exactly while the fraction is above the wavelength |
| StepperRamp.EqualWavelengthsExamples | bertos/algo/ramp.c:111-124 | one ramp that is too slow by this and one that is too fast |
| StepperRamp.OperandsFit | bertos/algo/ramp.c:131-133 | the assertions keep the factors of the evaluation within 24 bits |
| StepperRamp.TimeInRange | bertos/algo/ramp.c:191-191 | inside the ramp the time fraction is below 1 and not cut |
| StepperRamp.DenominatorValue | bertos/algo/ramp.c:192-192 | it is r + floor(t (1 - r)) with nothing cut and at least r, except that at fraction 0 it is 0 |
| StepperRamp.DividesByZeroIff | bertos/algo/ramp.c:189-196 | the evaluation divides by zero exactly where the time fraction rounds to 0 |
| StepperRamp.ShortRampStarts | bertos/algo/ramp.h:150-151 | for ramps below 2^18 clocks the evaluation is defined exactly from clock 4 on |
| StepperRamp.RatioAboveMinimum | bertos/algo/ramp.c:124-124 | the stored ratio is never below the minimum wavelength, and above it exactly when (minWL + 1) maxWL <= 65536 minWL |
| StepperRamp.ReturnedIsDelayUnlessCut | bertos/algo/ramp.c:193-195 | the value returned is the delay, except exactly at the cut clocks, where the delay is 65536 and 0 is returned |
| StepperRamp.CutExample | bertos/algo/ramp.c:189-196 | a ramp that set-up accepts and whose first half returns 0 |
| StepperRamp.CutFirst | bertos/algo/ramp.c:189-196 | once a clock is not cut, no later one is |
| StepperRamp.FirstClockIsFirst | bertos/algo/ramp.c:191-193 | the first clock at which the evaluation does not divide by zero |
| StepperRamp.SomeClockCutIff | bertos/algo/ramp.c:189-196 | a ramp has a cut clock exactly if its first defined clock is cut |
| StepperRamp.RampBounds | bertos/algo/ramp.c:189-196 | the value returned is 0 exactly at cut clocks, else at least the minimum and at most the maximum plus maximum over r; never 0 under the wavelength condition |
| StepperRamp.RampMonotone | bertos/algo/ramp.c:189-196 | the value returned never grows along the ramp, except exactly from a cut clock to one that is not |
| StepperRamp.RampEnd | bertos/algo/ramp.c:189-196 | at the end of every ramp the value returned is the minimum to within one part in 255 |
| StepperRamp.FasterThanIdealIffCut | bertos/algo/ramp.c:78-86 | the value returned is below the formula it stands for exactly at cut clocks |
| StepperRamp.NeverFasterThanIdeal | bertos/algo/ramp.c:78-86 | so never under the wavelength condition |
| StepperRamp.DelayNearIdeal | bertos/algo/ramp.c:78-99 | an uncut delay exceeds the formula by at most (3 + c / 2^16) / 2^16 of itself over the formula's divisor at clock c |
| StepperRamp.DenominatorShortfall | bertos/algo/ramp.c:191-192 | the fixed-point divisor is short of the formula's by at most 3 * 2^16 + c in units of 2^-32 |
| StepperRamp.Ramp.EvaluateBytewise | bertos/algo/ramp.c:172-196 | under the assertions of set-up, evaluation with the eight-bits-at-a-time multiply returns the same delay |
| StepperRamp.Ramp.Compute | bertos/algo/ramp.c:109-136 | under the assertions, the stored ratio and reciprocal are those the laws are about |
| StepperRamp.Ramp.Evaluate | bertos/algo/ramp.c:189-196 | returns the 16-bit value all the laws are about |
| BitDivision.BurstDetected | bertos/algo/crc.c:59-101 | messages that differ within 16 consecutive bits leave different remainders |
| BitDivision.WindowDetected | bertos/algo/crc.c:59-101 | the same for messages given whole, equal outside a window of 16 bits |
| BitDivision.ShortInjective | bertos/algo/crc.h:87-94 | up to 16 message bits act one-to-one on the remainder |
| BitDivision.DivideInjective | bertos/algo/crc.h:87-94 | the same message bits keep different remainders different |
| BitDivision.DivideAtOnce | bertos/algo/crc.h:87-94 | n bits one at a time are one exclusive or and n shifts |
| MessageBits.BitsInjective | bertos/algo/crc.c:94-101 | different buffers of one length are different bit messages, in either bit order |
| Crc16.Crc16Tab | bertos/algo/crc.c:59-92 | every entry of the table is the division of its index |
| Crc16.StepIsDivision | bertos/algo/crc.h:87-94 | one table step is eight bits of division by 0x1021 |
| Crc16.Crc16 | bertos/algo/crc.c:94-101 | the loop runs the step over the buffer |
| Crc16.Crc16IsDivision | bertos/algo/crc.c:94-101 | for every buffer and start value the CRC is the bit-at-a-time remainder |
| Crc16.Crc16DetectsBursts | bertos/algo/crc.c:94-101 | buffers that differ only within 16 consecutive bits never have the same CRC |
| Crc16.AdjacentBytesDetected | bertos/algo/crc.c:94-101 | so for buffers that differ within two adjacent bytes |
| Crc16.Crc16Residue | bertos/algo/crc.c:94-101 | with two bytes appended the CRC is 0 exactly when they are its own, high byte first |
| CrcCcitt.CrcCcittTab | bertos/algo/crc_ccitt.c:40-73 | every entry of the table is the division of its index, low bit first |
| CrcCcitt.MirrorDivide | bertos/algo/crc_ccitt.h:56-59 | division by 0x8408 low bit first is the mirror image of division by 0x1021 |
| CrcCcitt.StepIsDivision | bertos/algo/crc_ccitt.h:56-59 | one table step is eight bits of that division |
| CrcCcitt.CrcCcitt | bertos/algo/crc_ccitt.c:75-82 | the loop runs the step over the buffer |
| CrcCcitt.CrcCcittIsDivision | bertos/algo/crc_ccitt.c:75-82 | for every buffer and start value the CRC is the bit-at-a-time remainder |
| CrcCcitt.CrcCcittDetectsBursts | bertos/algo/crc_ccitt.c:75-82 | buffers that differ only within 16 consecutive bits never have the same CRC |
| CrcCcitt.AdjacentBytesDetected | bertos/algo/crc_ccitt.c:75-82 | so for buffers that differ within two adjacent bytes |
| CrcCcitt.CrcCcittResidue | bertos/algo/crc_ccitt.c:75-82 | with two bytes appended the CRC is 0 exactly when they are its own, low byte first |
| Tea.RoundUndone | bertos/algo/tea.c:69-72 | each direction of a round undoes the other |
| Tea.RoundFunctionOfNothing | bertos/algo/tea.c:69-72 | on a word of zero the round function is the exclusive or of its two key words and the sum |
| Tea.RoundFunctionShifts | bertos/algo/tea.c:69-72 | for every word, with sum and key cancelled, it is the word up by four bits and down by five |
| Tea.RoundFunctionKeys | bertos/algo/tea.c:69-72 | the first key word is added to the one, the second to the other |
| Tea.FirstRound | bertos/algo/tea.c:92-97 | one round on given words: which key words go where, and which half comes first |
| Tea.ZerosEncrypt | bertos/algo/tea.c:81-101 | the 32 rounds on a block and a key of zeros give 41EA3A0A 94BAA940 |
| Tea.Le32Reverses | bertos/algo/tea.c:89-90 | on a big-endian processor the four bytes of a word change places end for end |
| Tea.DecryptEncrypt | bertos/algo/tea.c:81-130 | decryption undoes encryption, for every key, block and number of rounds |
| Tea.EncryptDecrypt | bertos/algo/tea.c:81-130 | encryption undoes decryption |
| Tea.SumIsMultiple | bertos/algo/tea.c:94-94 | after any number of rounds the sum is that multiple of DELTA in 32-bit arithmetic |
| Tea.DecryptionSum | bertos/algo/tea.c:113-113 | decryption starts from the sum encryption ends with |
| Tea.TeaRoundTrip | bertos/algo/tea.c:81-130 | the same of the memory of a block, on processors of either byte order |
| Tea.TeaEnc | bertos/algo/tea.c:81-101 | the block in memory is replaced by its encryption |
| Tea.TeaDec | bertos/algo/tea.c:110-130 | the block in memory is replaced by its decryption |
| Randpool.PushClosedForm | bertos/algo/randpool.c:58-76 | byte k of the ring is combined with exactly the data bytes j for which (start + j) mod 64 is k |
| Randpool.PushAppend | bertos/algo/randpool.c:58-76 | pushes compose over concatenation |
| Randpool.PushTwice | bertos/algo/randpool.c:58-76 | repeating a push from the same position undoes it |
| Randpool.GetPrefix | bertos/algo/randpool.c:205-248 | a shorter read gives a prefix of a longer one from the same pool |
| Randpool.AddClosedForm | bertos/algo/randpool.c:120-154 | a whole addition changes each ring byte by exactly the data, timer, separator (four bytes AA) and difference bytes that fall on it |
| Randpool.StirPassClosedForm | bertos/algo/randpool.c:92-109 | a pass changes each by the digest bytes that fall on it, of all hashed so far, the whole ring and the text |
| Randpool.StirUnfolds | bertos/algo/randpool.c:83-115 | stirring is four passes, each with its own text, between two additions of timer values alone |
| Randpool.StirCounts | bertos/algo/randpool.c:83-115 | it counts four, and the write position moves only by the two additions |
| Randpool.FirstDigest | bertos/algo/randpool.c:205-226 | the first sixteen bytes read are the digest of the sixteen ring bytes at the read position |
| Randpool.SecondDigest | bertos/algo/randpool.c:219-242 | the next are the digest of that message completed and the next sixteen ring bytes, of the stirred ring after its end |
| Randpool.ReadMovesOn | bertos/algo/randpool.c:219-245 | the read position moves on by 16 for every digest and comes back to where this pool's reading started after each stirring; a read that stays inside leaves the ring alone |
| Randpool.RoundUp8 | bertos/algo/randpool.c:123-123 | bits of data count as bytes begun |
| Randpool.EntropyPool.constructor | bertos/algo/randpool.c:161-186 | an empty pool, or at most 64 given bytes and zeros |
| Randpool.EntropyPool.PushBytes | bertos/algo/randpool.c:58-76 | the loop pushes the bytes the laws are about |
| Randpool.EntropyPool.AddData | bertos/algo/randpool.c:120-154 | data, timer value, separator and difference are pushed in that order |
| Randpool.EntropyPool.HashPool | bertos/algo/randpool.c:92-109 | one pass: the digest of all that was hashed so far, pool and text is pushed |
| Randpool.EntropyPool.StirPool | bertos/algo/randpool.c:83-115 | four passes between two additions; the read position is kept |
| Randpool.EntropyPool.TakeDigest | bertos/algo/randpool.c:223-226 | the start of the digest of the sixteen ring bytes at the position, after all hashed so far, is copied out; the rest of the data is unchanged |
| Randpool.EntropyPool.MoveOn | bertos/algo/randpool.c:233-241 | on to the next sixteen bytes, or after the last ones the ring is stirred and reading starts from its read position |
| Randpool.EntropyPool.GetBytes | bertos/algo/randpool.c:205-248 | terminates, writes exactly n bytes, those the laws are about, and leaves positions in range, so the assertion at line 217 holds of every reachable pool |

## Left out

* SMS, GSM and console dialogue, message texts, LEDs, relay, watchdog, delays and interrupt wiring: no effect on the modelled state. Notification is nothing; console and button commands that reach the supervisor are events of their own.
* The `rmode` value `MONITORING`, which no shown code sets: the invariant records that it is never reached.
* The flag `CF_SPOILED`, which is cleared but never set in the source.
* Channel masks are sets of channel numbers, not 16-bit words; bit operations on them are set operations.
* The RMS, voltage and current fields of a channel, which no decision reads, and the arithmetic of the meter: a power reading is any 32-bit number.
* EEPROM access: the settings are a value an event may replace at any moment, within the widths of their fields and with divisors above 0, since the source divides by them.
* The timing of the pulse on the reset line of the flash chip (`bertos/drv/dataflash.c:166-177`), which ends whatever keeps the chip busy, its disabled file-system interface (`#if 0`), log output, and the SPI transfer below the byte.
* The flash chip is modelled from the opcode comments and the device table of the driver; opcodes the driver does not send do nothing, and a busy chip ignores transfers.
* Dataflash.DataFlash.Read: needs a position inside the file, as its assertion does; a seek outside it is modelled, reading there is not.
* Dataflash.DataFlash.Write: as for reading; sizes that do not fit the 32-bit signed offset type are not modelled.
* The 256-byte substitution from the digits of pi and the vectors of the self-test (`bertos/algo/md2.c:288-333`): the digest is proved for any substitution. Clearing the scratch array after a block is not modelled.
* Rle.Unrle: needs a stream that is not cut short and room for the output; the source reads and writes past its buffers otherwise.
* Rle.Rle: needs room for the encoding of its input; the source writes past a smaller buffer.
* The floating-point branch of the ramp, its unit conversions and default values (`bertos/algo/ramp.c:139-168`).
* StepperRamp.Ramp.Evaluate: needs a clock inside the ramp whose time fraction is not 0, where the source divides by zero.
* Reading the CRC tables from program memory on Harvard processors.
* Amounts of entropy, formatted texts and timer values of the entropy ring, which are arbitrary inputs; the strength of the hash and of the cipher. Offering the pool its own memory as data to add.
* Motor, buzzer and ADC drivers, PID control, moving average and rotating hash: clamps, I/O or one-line arithmetic.
