# Verification of the solar-cell life tester

This project models the firmware of the life tester and the Arduino core it is built
with, and proves properties of the model with Dafny 4.11. `dafny verify dfyconfig.toml`
checks everything.

## What is modelled

**The tester** (`TesterSpec`, `Tester`, `TesterRuns`, `TesterTimes`, `TesterJudge`,
`TesterTracking`, `TesterCycles`, `TesterJourney`). A channel of the tester waits for enough short-circuit current, scans
the DAC codes 0 to 100 for the maximum power point, and then climbs the power curve for
ever, one code at a time.
`Tester.LifeTester` is the hierarchical state machine in the source's form: a state
pointer, parents, entry, step, exit and transition functions. `TesterSpec.Step` is the
same machine without the hierarchy, and `UpdateStep` is proved to refine it. The theorems
are about whole runs of it: any resets and updates with any clock, converter and
configuration readings. The clock is an unbounded number of which the code sees the low
32 bits; `bus` records what the channel does to its converters. Where a theorem depends on
it, a run keeps the pace of the converter (`TesterRuns.Paced`): time does not go backwards,
updates are less than 49 days apart, and a conversion takes at least 2 milliseconds, of the
160 that the driver takes. `TesterTimes` and `TesterJudge` say on the clock and the bus
alone when a channel converts and moves on, and which error its conversions earn it.

**The controller** (`ControllerSpec`, `ControllerDevice`). The I2C command register, the
data and parameter frames, and the slave side of `Wire`. `ControllerSpec` has the protocol
on the fields of the register, `ControllerDevice` the bit and byte code that implements it.

**The firmware** (`Firmware`). Two channels, the controller and the main loop together.
Every channel is always the result of a run of `TesterRuns`, and the controller of a run
of `ControllerSpec`; each step of the main loop says by what it lengthens them. `Remote`
puts the bus in front: a master writes commands and reads frames through the interrupt
handlers of both ends; what the bytes mean is said on those bytes.

**The Arduino core.** The TWI interrupt handler on both ends of a bus (`TwiSpec`,
`TwiTransfers`, `TwiDevice`, `TwiLink`), the stream search (`Streams`), the serial receive
ring (`SerialRing`), in-place string replacement (`WString`), printing and parsing of
numbers and addresses (`Numbers`), SPI block transfer (`Spi`) and timekeeping (`Timer`).
`AdcGain` is the gain control of the MX7705 driver. `Words`, `Bits` and `Options` hold the
integer widths, the bit macros and optional values.

Pointers into the measurement data (`vActive`, `iActive`, `pActive`) are a selector that
also has a null value. Interrupts are arbitrary: the serial receive interrupt may fire
between any two memory accesses of the main program, bus handlers between any two steps of
the main loop.

## Results that differ from what one would expect

- The state machine by itself averages a measurement correctly exactly if it makes at most
  65535 conversions, because its counter has 16 bits (`TesterRuns.MeansAreExact`). On the
  device that never fails: at the pace of the converter no measurement makes more
  (`TesterRuns.RunKeepsWindow`, `TesterRuns.MeasurementSound`).
- A scan whose last code has as much power as its peak is rejected even if the first peak
  lies inside (`TesterRuns.InteriorPeak`, `TesterJourney.TiedScanIsRejected`).
- Bad initial readings are not forgotten when a good one begins the scan: 20 of them and
  one dark tracking measurement stop the channel in its first cycle
  (`TesterJudge.StopsAfter21`, `TesterJourney.OldReadingsStop`).
- Between two measurements of a scan a data frame shows the current of the last code with
  the number of the next, and after a tracking cycle the current of the old next code with
  the number of the new one (`Remote.Session.ReadChannel`).
- A hill whose top is at code 100 or beyond is always rejected by the scan
  (`TesterJourney.ScanThenTrack`).
- The working voltage steps from code 0 to 255 exactly when the current measured at code 1
  is zero (`TesterTracking.VoltageMoves`), and there is a run from a reset that does so
  (`TesterJourney.VoltageWraps`).
- A master that reads data before the main loop has carried out its command gets the last
  frame loaded, perhaps of the other channel, and no error (`ControllerSpec.ReplyIsFresh`,
  `ControllerSpec.EarlyReadIsStale`).
- The checksum of a data frame includes one empty byte behind the payload
  (`ControllerSpec.DataFrameRoundTrip`).
- Once a number has begun, `parseInt` fails to return exactly if the character to be
  ignored is -1, that is `(char)0xFF`, and the text runs out inside the number: every
  timeout then counts as one more ignored character (`Numbers.ReturnsUnless`). Ignored
  characters below -1 match nothing, as `char` is signed.
- `printNumber` drops digits exactly in bases above 208, where a digit is stored as a NUL
  (`Numbers.WholeNumerals`).
- `fromString` accepts empty groups (`Numbers.AcceptsExactly`): three dots alone are the
  address 0.0.0.0 (`Numbers.DotsAlone`).
- `micros()` is wrong exactly when an overflow has been pending for 255 timer ticks
  (`Timer.MicrosIsExact`). Such a reading can end a `delay()` early (`Timer.StartDecides`,
  `Timer.LowReadingEndsEarly`); soon after the start it can lose the whole delay, of up to
  71 minutes (`Timer.LowReadingLosesAll`, `Timer.LowReadingLosesDelay`). As long as no
  overflow is lost, nothing else can (`Timer.NeverEarly`). `millis()` loses time at any
  overflow period that is not a multiple of 8 microseconds (`Timer.Drift`).

## Model

| member | source | states |
|---|---|---|
| Tester.LifeTester.UpdateStep | LifeTester/StateMachine.cpp:823-831 | one update of the hierarchical machine keeps the invariant, does exactly the flat step, and leaves the other channel's DAC alone; the nested error transitions of entry functions are proved dead |
| Tester.LifeTester.Reset | LifeTester/StateMachine.cpp:816-821 | a reset, from any state, establishes the invariant and does what the flat reset does |
| Tester.LifeTester.TransitionToState | LifeTester/StateMachine.cpp:745-784 | the exit and entry functions run by a transition compose to the intended effect; no transition crosses both levels |
| Tester.LifeTester.TransitionOnEvent | LifeTester/StateMachine.cpp:345-362 | what each event does in each state, through the transition functions |
| Tester.LifeTester.MeasureDataPointEntry | LifeTester/StateMachine.cpp:454-474 | begins a measurement; neither of its error branches is ever taken |
| Tester.LifeTester.MeasureDataPointStep | LifeTester/StateMachine.cpp:476-516 | sampling, averaging and retrying do the flat measuring step |
| Tester.LifeTester.ScanningModeStep | LifeTester/StateMachine.cpp:400-432 | does the flat scanning step, and nothing when run as a parent's step |
| Tester.LifeTester.TrackingModeStep | LifeTester/StateMachine.cpp:546-572 | does the flat tracking step, and nothing when run as a parent's step |
| Tester.LifeTester.UpdateScanData | LifeTester/StateMachine.cpp:249-275 | keeps the running maximum and the first and last powers |
| TesterSpec.InvStep | LifeTester/StateMachine.cpp:823-831 | every update keeps the invariant, with any readings |
| TesterRuns.Run | LifeTester/StateMachine.cpp:816-831 | the invariant holds after every run of resets and updates |
| TesterRuns.ErrorReadsBounded | LifeTester/StateMachine.cpp:300-343 | in every run the bad readings stay below 22, below 21 while scanning, waiting or measuring; in the error state the DAC is 0 and the error set; it is never entered from a measurement |
| TesterRuns.ErrorLatches | LifeTester/StateMachine.cpp:694-707 | updates never leave the error state |
| TesterRuns.ScanIsOrdered | LifeTester/StateMachine.cpp:444-448 | at every point of every run the scan has measured exactly the codes below the current one, in order, and keeps the first peak of their powers |
| TesterRuns.ScanVerdict | LifeTester/StateMachine.cpp:400-432 | a scan measures all 101 codes; it goes on to tracking if and only if the first peak is strictly inside and above the last code, and then at that peak; else it ends in an invalid-scan error |
| TesterRuns.InteriorPeak | LifeTester/StateMachine.cpp:368-374 | a scan whose first peak lies inside has the shape of a hill if and only if its last code does not tie with the peak |
| TesterJourney.TiedScanIsRejected | LifeTester/StateMachine.cpp:368-432 | a run from any reset whose scan has its first peak inside and is rejected for a tie with the last code |
| TesterJourney.OldReadingsStop | LifeTester/StateMachine.cpp:546-572 | a run from any reset with 20 bad initial readings that stops in its first tracking cycle after a single dark measurement |
| TesterRuns.TrackingOnlyAfterScan | LifeTester/StateMachine.cpp:376-398 | tracking is entered in no other way |
| TesterRuns.MeasurementSound | LifeTester/StateMachine.cpp:454-516 | at the pace of the converter, every finished measurement stores the mean of exactly the conversions made since the DAC was set to its code, each at least the settling time later, across clock wraps; the mean lies between two of them |
| TesterRuns.RunKeepsWindow | LifeTester/StateMachine.cpp:480-494 | at that pace no measurement outlives its times, and its counter counts every conversion |
| TesterRuns.RunIsSettled | LifeTester/StateMachine.cpp:241-247 | the sums agree with the recorded conversions in every run, and with a monotone clock none is early |
| TesterRuns.MeansAreExact | LifeTester/StateMachine.cpp:489-500 | at any pace, n conversions in a window are averaged correctly, whatever their times and readings, if and only if n fits the 16-bit counter |
| TesterTimes.UpdateKeepsTimes | LifeTester/StateMachine.cpp:300-343 | what every update does, by clock, reading and four numbers: it never converts before the settling time since the DAC write; a scan begins exactly at a settled reading from the threshold up, below saturation, and any other is one of 21 bad ones with its error; delay and measurements last their times and end at the first update after them; a window without a conversion starts again |
| TesterTimes.ScanNeedsThreshold | LifeTester/StateMachine.cpp:300-343 | in every run that scans or tracks, the scan was begun, since the last reset, by a conversion from the threshold up, below saturation and at least the settling time after that reset |
| TesterTimes.ConfiguredBusIsSettled | LifeTester/StateMachine.cpp:476-516 | once the parameters stay, every conversion on the bus comes at least the settling time after the DAC write before it |
| TesterJudge.MeasurementIsJudged | LifeTester/StateMachine.cpp:624-642 | a tracking measurement ends with LowCurrent if and only if the mean of its conversions is below 200, CurrentLimit if and only if it is 0xFFFF, else Ok |
| TesterJudge.JudgedIsCounted | LifeTester/StateMachine.cpp:624-642 | in every run the channel counts the bad judgements in a row, and its error is the last of them |
| TesterJudge.StopsAfter21 | LifeTester/StateMachine.cpp:546-572 | a channel that initialises or tracks stops if and only if 21 judgements in a row were bad, initial readings included, with the error of the last |
| TesterJudge.KeptIsLastMean | LifeTester/StateMachine.cpp:495-501 | each point keeps the mean of the last measurement of it that has ended |
| TesterJudge.ActiveIsShown | LifeTester/StateMachine.cpp:364-398 | the active point is that of the last measurement begun, or that of the scan's beginning or end since then |
| TesterTracking.VoltageMoves | LifeTester/StateMachine.cpp:650-668 | the voltage moves only at the end of a cycle, and by exactly one unless code 1 measured zero current at code 0; from 255 it steps down |
| TesterTracking.TrackingConverges | LifeTester/StateMachine.cpp:546-572 | on a stationary curve with one hill, in every run at the pace of the converter, the voltage after n cycles is that of the walk that goes straight to the top and then alternates, and there is no error |
| TesterCycles.TopIsReached | LifeTester/StateMachine.cpp:546-572 | in every such run whose configuration stays, whose updates are at most a given gap apart and which misses no sampling window, a cycle takes at most its delay, both measurements and seven gaps; once more than one cycle for each code between the start and the top has passed, the voltage is at the top or one below |
| TesterCycles.ShortGapsHit | LifeTester/StateMachine.cpp:484-494 | no sampling window is missed if each update after which the channel has made no conversion is followed by another within less than the window; the gaps after its conversions do not matter |
| TesterCycles.EveryCycleIsReached | LifeTester/StateMachine.cpp:612-668 | with any configuration that samples at all, some run whose clock advances at the pace of the converter completes any number of cycles |
| TesterJourney.ScanFollowsCurve | LifeTester/StateMachine.cpp:400-448 | on a stationary curve, the scan of every run from a reset has logged exactly the currents of the curve |
| TesterJourney.ScanThenTrack | LifeTester/StateMachine.cpp:364-668 | on any stationary hill, every run from a reset that passes the threshold tracks if and only if the top m is strictly inside the scan and the last code scanned has less power, and then begins at m and alternates between m-1 and m; else it stops with an invalid scan |
| TesterJourney.ScanCompletes | LifeTester/StateMachine.cpp:376-432 | on any curve some run from any reset completes the scan, with the verdict on that curve |
| TesterJourney.TrackingIsReached | LifeTester/StateMachine.cpp:376-432 | on a hill that peaks inside, some run reaches tracking at the top |
| TesterJourney.VoltageWraps | LifeTester/StateMachine.cpp:650-668 | a run from a reset in which the voltage goes from code 0 to code 255 with only four bad readings |
| Firmware.Board.UpdateA | LifeTester/LifeTester.cpp:58 | lengthens the run of channel A by one update with the parameters in force, and changes nothing else |
| Firmware.Board.UpdateB | LifeTester/LifeTester.cpp:59 | the same for channel B |
| Firmware.Board.Loop | LifeTester/LifeTester.cpp:56-63 | one pass, with any bus traffic between its steps, updates each channel once with the parameters in force by then and carries out the command held by then; this lengthens the runs of the channels and the controller by exactly that |
| Firmware.Board.Operate | LifeTester/LifeTester.cpp:56-63 | while (settle, delay, sample, threshold) are in force, any number of passes with any other bus traffic lengthens both runs by updates that keep these four numbers, each in its own role, and by resets |
| Firmware.Board.Consume | LifeTester/LifeTester.cpp:62 | a pending reset resets the channel it names, once, and only that one; the frame loaded is the report of the named channel |
| Firmware.Board.OnRequest | LifeTester/Controller.cpp:195-215 | a request gets the register if it was asked for, else the transmit buffer, and changes no channel |
| Firmware.Board.EveryResetOnce | LifeTester/Controller.cpp:283-323 | for the whole firmware: accepted resets equal resets carried out on that channel, but for one still pending |
| Remote.Session.Write | Arduino/Wire.cpp:276-298 | a message that the master writes over the bus reaches the controller's handler once, whole and unchanged |
| Remote.Session.Read | Arduino/Wire.cpp:301-313 | a read over the bus gets the answer of the controller's request handler, and a high line behind its end |
| Remote.Session.ReadChannel | LifeTester/Controller.cpp:103-114 | two messages, a pass of the main loop and a read give 13 bytes: when the timer was set; while the named channel measures, the code its DAC holds; when it has just ended a measurement, the mean of its conversions and their code, or in a scan the next one; at other times the last mean of the point shown; temperature and light of the pass; the error by its place in the enumeration; and a sum |
| Remote.CheckIsTold | LifeTester/Controller.cpp:80-90 | the last byte is the sum of the twelve others and 0xFF |
| Remote.Session.ReadStatus | LifeTester/Controller.cpp:263-266 | from any state that does not await parameters, a request and a read of one byte give the register as it was, once; register, parameters and transmit buffer stay |
| Remote.Session.Poll | LifeTester/Controller.cpp:195-215 | the read after a status read gets the transmit buffer again |
| Remote.Session.Configure | LifeTester/Controller.cpp:228-236 | a parameters write over the bus puts its four numbers in force and touches no channel |
| Remote.Session.ConfigureAndOperate | LifeTester/Controller.cpp:128-134 | from then on, until new ones are written, both channels keep the four numbers written: settling, delay, sampling and threshold, told by their clocks and buses |
| Remote.Session.ReadParams | LifeTester/Controller.cpp:116-123 | a parameters read over the bus gives back the frame that would write those in force |
| Remote.Session.ResetChannel | LifeTester/Controller.cpp:288-296 | a reset over the bus starts the channel it names anew in the next pass, and the other is only updated |
| ControllerSpec.InvHolds | LifeTester/Controller.cpp:146-184 | in every run a busy register holds a command the main loop finishes, and the transmit buffer holds 0, 8 or 13 bytes |
| ControllerSpec.BusyUntilConsumed | LifeTester/Controller.cpp:220-323 | until it is consumed an accepted command keeps its code and channel; one pass of the main loop always ends the busy period |
| ControllerSpec.ResetsAreExact | LifeTester/Controller.cpp:283-296 | accepted resets equal performed resets plus the pending one, for each channel, in every run |
| ControllerSpec.NeverStuck | LifeTester/Controller.cpp:220-281 | from every reachable state, with one pass of the main loop in between, the master can get any command taken: one that the main loop acts on makes the register busy with it, any other sets the error |
| ControllerSpec.Refusals | LifeTester/Controller.cpp:220-281 | what is refused, with which error, and that nothing else changes |
| ControllerSpec.ParamsStay | LifeTester/Controller.cpp:228-236 | only a message of eight bytes can change the parameters |
| ControllerSpec.ReplyIsFresh | LifeTester/Controller.cpp:195-215 | a data read finds the frame of the channel it names, loaded after the command, if and only if the register is ready; before, the last frame of either channel, without an error; a busy error only if there has never been one |
| ControllerSpec.EarlyReadIsStale | LifeTester/Controller.cpp:195-215 | reading channel B too early gets the frame of channel A |
| ControllerSpec.DecodeIsInjective | LifeTester/Controller_Private.h:8-15 | the fields determine the command register |
| ControllerSpec.DecodeIs | LifeTester/Controller_Private.h:8-15 | where the fields are in the command register |
| ControllerSpec.DataFrameRoundTrip | LifeTester/Controller.cpp:103-114 | a data frame gives back timer, voltage, current, temperature, light and error; its last byte checks the others |
| ControllerSpec.ParamsFrameRoundTrip | LifeTester/Controller.cpp:116-134 | a parameters frame gives back all four parameters |
| ControllerSpec.ParamsRestored | LifeTester/Controller.cpp:228-236 | writing a parameters frame restores the parameters and ends the wait for them |
| ControllerDevice.Controller.ReceiveHandler | LifeTester/Controller.cpp:220-281 | the bit code does the protocol's receive step and leaves nothing unread |
| ControllerDevice.Controller.RequestHandler | LifeTester/Controller.cpp:195-215 | sends the status or the buffer, or notes that there is nothing |
| ControllerDevice.Controller.ConsumeCommand | LifeTester/Controller.cpp:283-323 | does the protocol's consume step, resets the named channel exactly when a reset is pending, never touches the other |
| ControllerDevice.Controller.LoadNewCmdToReg | LifeTester/Controller.cpp:138-144 | copies all fields but ready, and clears the error |
| ControllerDevice.Controller.UpdateStatusBits | LifeTester/Controller.cpp:146-184 | which commands make the register busy and which set an error |
| ControllerDevice.Controller.OnReceive | Arduino/Wire.cpp:276-298 | no message from the bus is dropped, as every handler drains the buffer |
| ControllerDevice.DataBuffer.CheckSum | LifeTester/Controller.cpp:80-90 | the sum of the contents and one empty byte |
| ControllerDevice.Wire.OnReceiveService | Arduino/Wire.cpp:276-298 | a message is taken exactly when the last one has been read |
| ControllerDevice.Wire.Read | Arduino/Wire.cpp:243-254 | takes the first unread byte, or -1 |
| TwiLink.Link.WriteTo | Arduino/twi.c:226-290 | for every message of up to 32 bytes the slave's callback gets exactly it, once, the result is 0, both devices are ready again and the bus is free or held for a repeated start; 1 and nothing done when longer; 2 without a slave |
| TwiLink.Link.ReadFrom | Arduino/twi.c:147-209 | reading n bytes acknowledges all but the last and returns the slave's first n, padded by a high line; both devices are ready again and the bus is free or held as asked |
| TwiTransfers.SendStep | Arduino/twi.c:411-430 | one byte to the slave carries the transfer from byte i to i + 1, or ends it with the message handed over |
| TwiTransfers.ReceiveStep | Arduino/twi.c:445-470 | one byte from the slave is stored and answered correctly; no buffer index leaves its buffer |
| TwiTransfers.AnswerStep | Arduino/twi.c:534-550 | the slave's side of a read: next byte, last byte, end |
| TwiTransfers.AddressNackStep | Arduino/twi.c:431-434 | an address nobody has ends the transfer, and no slave notices |
| TwiTransfers.ReadsWhatIsQueued | Arduino/twi.c:302-323 | however many calls queue them, a read returns the first queued bytes |
| TwiDevice.Twi.Isr | Arduino/twi.c:399-560 | the interrupt handler does the modelled effect for every bus status, also for arbitration loss, general calls and bus errors |
| TwiLink.OtherEndings | Arduino/twi.c:411-560 | which result code arbitration loss, a bus error and a refused byte or address give, and whether the master stops the bus; a byte too many is refused and changes nothing |
| TwiLink.OtherAddresses | Arduino/twi.c:445-550 | a general call and a lost arbitration are received as ordinary messages are |
| TwiDevice.Twi.Transmit | Arduino/twi.c:302-323 | appends what fits, refuses the rest, says which |
| Streams.Stream.FindMulti | Arduino/Stream.cpp:256-319 | stops at the shortest consumed text that ends with a target, at the lowest such target, or at the timeout if none occurs; every index is the longest proper prefix the text ends with |
| Streams.Stream.WalkBack | Arduino/Stream.cpp:285-314 | the walk back finds the longest prefix that can be kept |
| Streams.MismatchStep | Arduino/Stream.cpp:278-314 | the longest reusable prefix of the old match is the longest prefix of the new text |
| Streams.OutcomeIsUnique | Arduino/Stream.cpp:256-319 | the contract of the search determines its result |
| Streams.Stream.FindUntil | Arduino/Stream.cpp:114-123 | true if and only if the target is read no later than the terminator |
| SerialRing.HardwareSerial.RxComplete | Arduino/HardwareSerial_private.h:101-121 | stores a byte behind the others; drops it only on a parity error or when size - 1 are held |
| SerialRing.ArriveIs | Arduino/HardwareSerial_private.h:101-121 | of the frames that arrive, those without a parity error are kept in order up to size - 1 |
| SerialRing.HardwareSerial.Read | Arduino/HardwareSerial.cpp:166-176 | takes the oldest byte, or -1; with interrupts in any of its gaps, what was accepted is what was read and then what is held |
| SerialRing.HardwareSerial.Peek | Arduino/HardwareSerial.cpp:157-164 | the oldest byte, under the same interrupts |
| SerialRing.HardwareSerial.Available | Arduino/HardwareSerial.cpp:152-155 | the number of bytes held when the head was loaded |
| SerialRing.HardwareSerial.End | Arduino/HardwareSerial.cpp:138-150 | discards what is held |
| SerialRing.AvailableForWrite | Arduino/HardwareSerial.cpp:178-191 | counts the free slots of a ring that keeps one empty |
| SerialRing.ArriveTwice | Arduino/HardwareSerial_private.h:101-121 | arrivals in two gaps are one sequence of arrivals |
| WString.ArduinoString.Replace | Arduino/WString.cpp:643-665 | leaves the text with all leftmost non-overlapping occurrences replaced, terminated, with matching length |
| WString.ArduinoString.MoveAndInsert | Arduino/WString.cpp:656-664 | one round of the shrinking loop spoils nothing that is still to be read |
| WString.ReplacedIsJoin | Arduino/WString.cpp:643-665 | replacing is splitting at the pattern and joining with the replacement; joining with the pattern gives the text back |
| WString.SplitIsLeftmost | Arduino/WString.cpp:650-656 | the split takes each occurrence at its first place |
| WString.ArduinoString.LastIndexOf | Arduino/WString.cpp:601-612 | the last occurrence at or before a position, or -1 if there is none |
| Numbers.PrintNumber | Arduino/Print.cpp:203-221 | writes the numeral of any 32-bit number in any base, up to its first NUL, and stays inside its 33-byte buffer |
| Numbers.WholeNumerals | Arduino/Print.cpp:213-220 | no numeral has a NUL if and only if the base is at most 208 |
| Numbers.NumeralDenotes | Arduino/Print.cpp:203-221 | up to base 36 the numeral has the value of the number, in digits of the base, without a leading zero |
| Numbers.PrintLong | Arduino/Print.cpp:87-101 | a sign and the numeral in base ten, the low byte in base zero, the two's complement in the low byte of any other base |
| Numbers.NumeralLength | Arduino/Print.cpp:205-218 | a number below 2^k has at most k digits in any base |
| Numbers.ParseInt | Arduino/Stream.cpp:130-156 | where it returns, it returns the parsed value and leaves the rest unread; the ignored character is a signed `char` |
| Numbers.ReturnsUnless | Arduino/Stream.cpp:141-151 | once a number has begun, the loop runs for ever if and only if -1 is ignored and only digits follow before the timeout |
| Numbers.PeekNextDigit | Arduino/Stream.cpp:56-82 | discards exactly what the lookahead mode may skip |
| Numbers.SkipsExactly | Arduino/Stream.cpp:56-82 | what each mode discards, character by character, and where it stops |
| Numbers.ParsesThroughIgnored | Arduino/Stream.cpp:130-156 | any minus, digits and ignored characters before a delimiter parse as the digits without the ignored character, modulo 2^32; an ignored minus does not negate, an ignored digit does not count |
| Numbers.PrintThenParse | Arduino/Stream.cpp:130-156 | parsing what was printed gives it back, for every 32-bit number, behind any skipped text and before any delimiter; it returns unless -1 is ignored and nothing follows |
| Numbers.IPAddress.FromString | Arduino/IPAddress.cpp:46-84 | succeeds exactly on acceptable text and then holds its octets |
| Numbers.AcceptsExactly | Arduino/IPAddress.cpp:46-84 | acceptable text is exactly four groups of digits worth at most 255, with dots between, and its octets are the values of the groups |
| Numbers.DotsAlone | Arduino/IPAddress.cpp:46-84 | three dots alone are 0.0.0.0 |
| Numbers.IPAddress.PrintTo | Arduino/IPAddress.cpp:103-113 | writes the four numerals with dots |
| Numbers.AddressRoundTrip | Arduino/IPAddress.cpp:46-84 | reading what was printed gives the address back |
| Spi.SpiBus.Transfer | Arduino/SPI.h:192-205 | the pipelined transfer sends the bytes in order, leaves each answer in its place, never writes while shifting, and leaves the peripheral as the simple one does |
| Spi.SpiBus.TransferEach | Arduino/SPI.h:156-167 | the byte-by-byte transfer has the same contract |
| Spi.ClockDivider | Arduino/SPI.h:77-84 | the loop and the cascade choose the same divider |
| Spi.FastestNotAbove | Arduino/SPI.h:36-97 | the packed registers select the fastest clock not above the requested one |
| Timer.Timer0.Overflow | Arduino/wiring.c:42-63 | the counts stay exact, modulo their widths |
| Timer.Drift | Arduino/wiring.c:27-36 | no drift for ever if the period is a multiple of 8 microseconds; else time is lost within 1000 overflows |
| Timer.MicrosIsExact | Arduino/wiring.c:79-104 | micros() is the time modulo 2^32 unless an overflow was pending for 255 ticks |
| Timer.Delay | Arduino/wiring.c:106-117 | the loops do what the count of milliseconds over the readings of micros() says |
| Timer.NeverEarly | Arduino/wiring.c:106-117 | unless a reading is an overflow short, delay() never returns early, across any clock wraps |
| Timer.StartDecides | Arduino/wiring.c:106-117 | with all later readings good, delays are on time if and only if the first reading is good |
| Timer.LowReadingEndsEarly | Arduino/wiring.c:106-117 | each later reading that is short ends some delay early |
| Timer.LowReadingLosesAll | Arduino/wiring.c:106-117 | if the reading after the start is short and all later polls come faster than one per millisecond, each of them counts for a millisecond |
| Timer.LowReadingLosesDelay | Arduino/wiring.c:106-117 | so for every short reading any delay of up to 4294967 milliseconds can be over after 8 microseconds |
| Timer.ReturnsAtOnce | Arduino/wiring.c:106-117 | polled at least once a millisecond, delay() returns at the first poll at which its time is over |
| Timer.ReturnsAfterStall | Arduino/wiring.c:106-117 | however unevenly it is polled, if all polls are within 2^32 microseconds of the start, it returns within as many further polls as it has milliseconds once its time is over |
| AdcGain.Driver.Execute | Hardware/MX7705.cpp:252-308 | over any commands to any channels, each channel's gain follows its own walk saturating in 0..7; no other bit or register changes; the gain read back is the walk's |
| AdcGain.Driver.SetGain | Hardware/MX7705.cpp:264-294 | sets the gain bits only, and ignores gains above 7 |
| AdcGain.Driver.IncrementGain | Hardware/MX7705.cpp:296-301 | one step up, saturating |
| AdcGain.Driver.DecrementGain | Hardware/MX7705.cpp:303-308 | one step down, saturating through the wrap of the byte |
| AdcGain.Driver.GetGain | Hardware/MX7705.cpp:252-262 | reads the gain and changes nothing |
| AdcGain.WalkSaturates | Hardware/MX7705.cpp:264-308 | n steps up or down end n further, or at 7 or 0 |
| AdcGain.CommandRoundTrip | Hardware/MX7705.cpp:90-103 | the converter decodes the register, channel and direction that the driver encodes |

## Left out

- TesterSpec.Power: products of voltage and current are taken in an `int` of at least 32 bits, as in the unit-test build; on the AVR, where `int` has 16 bits, they are cut to 16 bits, and the sums of settling and sampling time wrap as well.
- TesterRuns.MeasurementSound: needs the pace of the converter, as do TesterTracking.TrackingConverges and what follows from it; the driver's delays, which guarantee it, are not part of the model of the tester.
- TesterCycles.TopIsReached: with gaps longer than the sampling time a window can be missed and the measurement starts again; how often is not bounded here.
- WString.ArduinoString.Replace: the branch for a replacement longer than the pattern is not modelled; it rescans text it has just written and is a different function. `memcpy` on overlapping regions is taken to copy from the left, as the AVR library does.
- Timer.MicrosIsExact: at most one overflow is pending, here and in all that is said about delay(); with interrupts off for more than 1024 microseconds an overflow is lost, and readings fall behind for good.
- Streams.Stream.FindMulti: the indices start at zero, as all callers pass them; a stream is what arrives before a read times out.
- TwiLink.Link.WriteTo: the wait for a ready bus is a precondition; the bus has one master, so arbitration and bus errors do not arise on it.
- TwiLink.Link.ReadFrom: reads of zero bytes are excluded.
- Timer.Delay: what other programs do inside `yield()` is not modelled; its time is in the ticks of the polls.
- ControllerDevice.Controller.ConsumeCommand: until a channel is first measured, the pointers that a data frame reads through are null; the two values are then unspecified.
- Handlers of bus messages and the three steps of the main loop are taken as atomic.
- The serial transmit path, except for the count of free slots.
- LEDs, serial printing, pins, PWM, tone, USB, floating-point printing and parsing, the temperature sensor, MX7705 initialisation and data reads, and the DAC driver below its cached copy.
