# LM3S811 FreeRTOS demo: task, queue and interrupt coordination

A Dafny model of the application logic in `Demo/CORTEX_LM3S811_GCC/main.c`:

- the check task, which latches any failure of the four background demo
  workloads and queues "PASS" or "FAIL" on an anchored 5000-tick period;
- the temperature task, which queues "Temp: n" for a pseudo-random reading
  and then sleeps with a relative 100-tick delay;
- the print task, the single consumer of the three-slot print queue, which
  clears the display and draws each message at a moving column and row;
- the UART transmit interrupt, which pushes a zero-terminated string out one
  character per interrupt;
- the GPIO interrupt, which gives the binary button semaphore;
- `main`, which creates the semaphore (then takes it with no wait), the
  queue and the tasks.

Modules, one per component: `Ticks` (32-bit tick arithmetic,
`vTaskDelayUntil` and `vTaskDelay`), `Mailbox` (the print queue as a class
whose ghost `sent`/`delivered` histories carry the FIFO law), `Check`, `Sensor`,
`Display` (the print task), `Uart`, `Button` and `Demo` (the application as
`main` builds it, with one method per task iteration or interrupt). State
that the C code updates in place (the error flag, the last wake time, the
line and row counters, the cursor, the queue, the semaphore count) is held in
class fields; the arithmetic and formatting are functions with lemmas.

Conventions of the model:

- The tick counter `TickType_t` and the counters `uxLine`/`uxRow` are 32-bit
  unsigned and wrap modulo 2^32; a 1000 Hz tick (`portTICK_PERIOD_MS` = 1) is
  assumed, since the port's configuration header is not part of this model.
- A send on a full queue and a receive on an empty one use `portMAX_DELAY`:
  the caller waits. They appear as preconditions of the step methods, so no
  message is ever dropped or overwritten.
- Health query results are `portBASE_TYPE` values; any value other than
  `pdTRUE` (1) counts as a failure, as in the source's `!= pdTRUE` tests.
- The UART cursor is a string and an index; index `|text|` is the
  terminating zero. The TX-status bit and the TXFF flag are inputs, and the
  data register is an output log.
- The display is an output log of `Clear` and `StringDraw(text, column, row)`.
- The UART handler moves past a character even when TXFF is set
  (`main.c:259-265`): a character under a full TXFF is dropped, not retried
  on the next interrupt.

## Model

| member | source | states |
|---|---|---|
| Ticks.DelayUntil | Demo/CORTEX_LM3S811_GCC/main.c:172 | the new wake time is the previous wake time plus the period, wrapping at 2^32; the current tick plays no part |
| Ticks.Delay | Demo/CORTEX_LM3S811_GCC/main.c:318 | the sensor wakes the delay after the tick at which it calls `vTaskDelay`, wrapping at 2^32 |
| Ticks.AnchoredWakeClosedForm | Demo/CORTEX_LM3S811_GCC/main.c:167-172 | after k cycles of `vTaskDelayUntil` from t0 the wake time is (t0 + k·period) mod 2^32, whatever the cycle bodies took |
| Ticks.AnchoredWakeBeforeWrap | Demo/CORTEX_LM3S811_GCC/main.c:167-172 | before the tick counter wraps, the k-th wake of the check task is exactly t0 + k·period |
| Ticks.RelativeWakeClosedForm | Demo/CORTEX_LM3S811_GCC/main.c:316-318 | with the relative `vTaskDelay`, the wake time after cycles of busy times b1..bk is t0 + k·period + Σbi (mod 2^32): the sensor's cadence drifts |
| Mailbox.PrintQueue.constructor | Demo/CORTEX_LM3S811_GCC/main.c:135 | the queue starts empty with nothing sent or received |
| Mailbox.PrintQueue.Send | Demo/CORTEX_LM3S811_GCC/main.c:201-205 | a send with room appends the message at the tail and keeps at most 3 items and received ++ waiting == sent |
| Mailbox.PrintQueue.Receive | Demo/CORTEX_LM3S811_GCC/main.c:293 | a receive returns the oldest message, which is the next one in global send order |
| Check.LatchStep | Demo/CORTEX_LM3S811_GCC/main.c:174-194 | the flag after the four checks is set iff it was set before or some query returned other than pdTRUE |
| Check.Verdict | Demo/CORTEX_LM3S811_GCC/main.c:199-206 | the queued message is "FAIL" iff the flag is set and "PASS" iff it is clear |
| Check.MessagesAfter | Demo/CORTEX_LM3S811_GCC/main.c:169-206 | each cycle queues exactly one message |
| Check.LatchAfterIff | Demo/CORTEX_LM3S811_GCC/main.c:160-194 | starting from pdFALSE, the flag is set iff some cycle so far saw a failed query |
| Check.MessageAt | Demo/CORTEX_LM3S811_GCC/main.c:196-206 | the j-th message is "FAIL" iff a failure was seen in cycles 0..j, otherwise "PASS" |
| Check.FailIsSticky | Demo/CORTEX_LM3S811_GCC/main.c:196-206 | after one "FAIL" every later message of the check task is "FAIL" |
| Check.CheckTask.constructor | Demo/CORTEX_LM3S811_GCC/main.c:160-167 | the flag starts false and the last wake time is the tick count at start |
| Check.CheckTask.Cycle | Demo/CORTEX_LM3S811_GCC/main.c:169-207 | one iteration advances the wake time by mainCHECK_DELAY from the previous wake, updates the latch and queues the matching verdict; the task's invariant keeps the latch, the anchored schedule and the messages it has queued equal to LatchAfter, AnchoredWake and MessagesAfter of its history |
| Uart.CharAt | Demo/CORTEX_LM3S811_GCC/main.c:259 | `*pcNextChar` is zero exactly at the terminator of a C string |
| Uart.TxInterrupt | Demo/CORTEX_LM3S811_GCC/main.c:256-266 | on a TX interrupt before the terminator the cursor advances by exactly one and the character is written iff TXFF is clear; otherwise nothing is written and the cursor stays; the cursor never passes the terminator |
| Uart.RunTx | Demo/CORTEX_LM3S811_GCC/main.c:245-268 | over a run of interrupts the cursor never moves back or past the terminator |
| Uart.RunTxSnoc | Demo/CORTEX_LM3S811_GCC/main.c:245-268 | one more interrupt after a run is that run followed by one handler step, so the handler's state is always RunTx of the interrupts seen |
| Uart.RunTxSafe | Demo/CORTEX_LM3S811_GCC/main.c:245-268 | over any run of interrupts the cursor only moves forward, never past the terminator, and the characters written are a subsequence of the string in order |
| Uart.RunTxAtTerminator | Demo/CORTEX_LM3S811_GCC/main.c:259 | at the terminator every interrupt writes nothing and leaves the cursor |
| Uart.RunTxSendsRest | Demo/CORTEX_LM3S811_GCC/main.c:256-266 | with TX interrupts and TXFF always clear, enough interrupts write exactly the rest of the string and stop on the terminator |
| Uart.TransmitAB | Demo/CORTEX_LM3S811_GCC/main.c:256-266 | for "AB", two interrupts write 'A' then 'B' and a third is a no-op |
| Uart.MessageSentWhole | Demo/CORTEX_LM3S811_GCC/main.c:112 | cMessage is a C string, and armed at its start it is sent whole by one free-register TX interrupt per character |
| Uart.UartTransmitter.constructor | Demo/CORTEX_LM3S811_GCC/main.c:112-113 | a transmission is armed on a C string with a cursor no further than its terminator |
| Uart.UartTransmitter.Isr | Demo/CORTEX_LM3S811_GCC/main.c:245-268 | the handler updates the cursor and appends to the data register as TxInterrupt says; its invariant keeps the cursor and the register log equal to RunTx of the interrupts since arming |
| Button.Give | Demo/CORTEX_LM3S811_GCC/main.c:279 | a give leaves the count at 1 and succeeds iff the semaphore was empty |
| Button.TakeNoWait | Demo/CORTEX_LM3S811_GCC/main.c:132 | a take with no wait leaves the count at 0 and succeeds iff the semaphore was given |
| Button.GiveIsIdempotent | Demo/CORTEX_LM3S811_GCC/main.c:279 | a second give before a take fails and leaves the same single-pending state |
| Button.BinarySemaphore.CreateBinary | Demo/CORTEX_LM3S811_GCC/main.c:131 | the legacy creation macro leaves the semaphore given |
| Button.BinarySemaphore.Take | Demo/CORTEX_LM3S811_GCC/main.c:132 | the object's take follows TakeNoWait |
| Button.BinarySemaphore.GiveFromIsr | Demo/CORTEX_LM3S811_GCC/main.c:279 | the object's give follows Give and readies no task |
| Button.GpioIsr | Demo/CORTEX_LM3S811_GCC/main.c:271-282 | after the GPIO interrupt the semaphore is available and no context switch is requested |
| Display.Increment | Demo/CORTEX_LM3S811_GCC/main.c:296-297 | `++` on a 32-bit unsigned counter adds one, and wraps to 0 after 2^32 - 1 |
| Display.Column | Demo/CORTEX_LM3S811_GCC/main.c:299 | the draw column is always in 0..63 |
| Display.Row | Demo/CORTEX_LM3S811_GCC/main.c:299 | the draw row is always 0 or 1 |
| Display.MaskIsMod | Demo/CORTEX_LM3S811_GCC/main.c:299 | on 32-bit values `& 0x3f` is the remainder by 64 and `& 0x01` the remainder by 2 (the justification for Column and Row, not a proved link to them) |
| Display.Draws | Demo/CORTEX_LM3S811_GCC/main.c:296-299 | each received message yields exactly two display calls |
| Display.DrawAt | Demo/CORTEX_LM3S811_GCC/main.c:288-299 | the k-th message is drawn right after a clear, at column k mod 64 and row k mod 2, however often the counters wrapped |
| Display.PrintTask.constructor | Demo/CORTEX_LM3S811_GCC/main.c:288 | both counters start at 0 with nothing drawn |
| Display.PrintTask.Cycle | Demo/CORTEX_LM3S811_GCC/main.c:290-300 | one iteration takes the oldest message, bumps both counters, then clears and draws it at (uxLine & 0x3f, uxRow & 1) |
| Sensor.Reading | Demo/CORTEX_LM3S811_GCC/main.c:312 | the reading lies in [0, 40) and is congruent to rand() modulo 40 |
| Sensor.DecimalString | Demo/CORTEX_LM3S811_GCC/main.c:314 | `%d` of a non-negative value prints at least one character, all decimal digits |
| Sensor.DecimalRoundTrip | Demo/CORTEX_LM3S811_GCC/main.c:314 | reading the printed digits back gives the value |
| Sensor.DecimalLength | Demo/CORTEX_LM3S811_GCC/main.c:314 | a value below 100 prints as one digit below 10 and two otherwise |
| Sensor.Snprintf | Demo/CORTEX_LM3S811_GCC/main.c:314 | snprintf stores a prefix of the formatted text of at most size-1 characters, the whole text when it fits |
| Sensor.FormatTemp | Demo/CORTEX_LM3S811_GCC/main.c:314 | the stored text is a prefix of "Temp: " followed by the digits, and at most 9 characters |
| Sensor.FormatNeverTruncates | Demo/CORTEX_LM3S811_GCC/main.c:87-88 | for every reading "Temp: n" fits the 10-byte buffer untruncated and has 7 or 8 characters |
| Sensor.FormatRoundTrip | Demo/CORTEX_LM3S811_GCC/main.c:312-314 | the message starts with "Temp: " and its remaining digits parse back to the reading |
| Sensor.TempSensorCycle | Demo/CORTEX_LM3S811_GCC/main.c:309-319 | one iteration queues "Temp: n" for rand() % 40 and wakes 100 ticks after the delay call |
| Demo.Application.constructor | Demo/CORTEX_LM3S811_GCC/main.c:124-149 | after start-up the semaphore is empty, the queue is empty, the latch is clear and the print task has drawn nothing |
| Demo.Application.CheckCycle | Demo/CORTEX_LM3S811_GCC/main.c:169-207 | a check cycle keeps the application invariant and queues the verdict |
| Demo.Application.TempSensorCycle | Demo/CORTEX_LM3S811_GCC/main.c:309-319 | a sensor cycle keeps the application invariant and queues the formatted reading |
| Demo.Application.PrintCycle | Demo/CORTEX_LM3S811_GCC/main.c:290-300 | the print task shows messages in global send order, the k-th after a clear at column k mod 64, row k mod 2 |
| Demo.Application.UartInterrupt | Demo/CORTEX_LM3S811_GCC/main.c:245-268 | the UART interrupt acts on the transmitter as TxInterrupt says |
| Demo.Application.ButtonInterrupt | Demo/CORTEX_LM3S811_GCC/main.c:271-282 | the GPIO interrupt leaves the button semaphore available |

## Left out

- Hardware set-up in `prvSetupHardware` (clock, UART, GPIO, interrupt controller, display initialisation): device register programming.
- Interrupt acknowledgement (`UARTIntClear`, `GPIOPinIntClear`): hardware side effects with no state in the model.
- Display rendering by `OSRAMClear`/`OSRAMStringDraw`: a foreign driver; only the calls and their arguments are recorded.
- The scheduler itself: task creation, priorities, preemption, the interleaving of tasks and interrupts, and the real queue and semaphore implementations. Each task iteration and interrupt is a separate method; a wait on a full or empty queue is a precondition.
- Ticks.DelayUntil: whether the task actually blocks (the wake time may already have passed) is the scheduler's decision and is not modelled; only the advance of the last wake time is.
- The standard demo tasks (integer maths, polled queue, semaphore, blocking queue): their `xAre...StillRunning` results are inputs of the check cycle.
- `rand()`: an arbitrary non-negative input.
- The transmit cursor `pcNextChar` is never set in the source, so the first TX interrupt dereferences a null pointer; the model starts from a valid cursor given by whoever arms the transmission.
- Sensor.TempSensorCycle: queues the formatted text itself. The source's queue item is pointer-sized but it passes the address of the reused buffer, so the print task receives the buffer's first four bytes taken as a pointer; that reinterpretation is not modelled.
- Button.BinarySemaphore.GiveFromIsr: always reports that no higher-priority task was woken, because no task ever waits on the button semaphore; a waiting task is not invented.
- The TX interrupt is never disabled once the terminator is reached; the model keeps that behaviour (further interrupts are no-ops) and does not add a disable.
- The features listed only in the file's header comment (low-pass filter, UART commands to change its window, task statistics, stack analysis) are not implemented in the source and are not modelled.
