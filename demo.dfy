/** The application as `main` wires it: the button semaphore, the print
    queue, the three tasks of this demo and the transmit side of UART0.
    The objects are created once before the scheduler starts and the handles
    never change afterwards. Each method below is one task-loop iteration or
    one interrupt; which of them runs when is the scheduler's business and is
    left to the caller. */
module Demo {
  import opened Ticks
  import opened Mailbox
  import opened Check
  import opened Uart
  import opened Button
  import opened Display
  import Sensor

  class Application {
    /** xButtonSemaphore */
    const button: BinarySemaphore
    /** xPrintQueue */
    const queue: PrintQueue
    const checkTask: CheckTask
    const printTask: PrintTask
    const uart: UartTransmitter

    ghost predicate Valid()
      reads this, button, queue, checkTask, printTask, uart
    {
      button.Valid() && queue.Valid() && checkTask.Valid() && printTask.Valid() && uart.Valid()
      // vPrintTask is the only receiver of the print queue.
      && printTask.received == queue.delivered
    }

    /** main(): create the semaphore and take it with no wait, create the
        queue, create the tasks. `tickCount` is the tick count when the check
        task starts; the transmission on `txText` from `txStart` is armed by
        code outside this model. */
    constructor (tickCount: Tick, txText: string, txStart: nat)
      requires IsCString(txText) && txStart <= |txText|
      ensures Valid()
      ensures fresh(button) && fresh(queue) && fresh(checkTask) && fresh(printTask) && fresh(uart)
      ensures button.count == 0
      ensures queue.items == [] && queue.sent == []
      ensures !checkTask.errorOccurred && checkTask.lastExecutionTime == tickCount
      ensures printTask.display == []  // the print task has drawn nothing yet
      ensures uart.text == txText && uart.cursor == txStart && uart.dataRegister == []
    {
      var semaphore := new BinarySemaphore.CreateBinary();
      var _ := semaphore.Take();
      button := semaphore;
      queue := new PrintQueue();
      checkTask := new CheckTask(tickCount);
      printTask := new PrintTask();
      uart := new UartTransmitter(txText, txStart);
    }

    /** One cycle of vCheckTask, once the queue has room for its report. */
    method CheckCycle(r: HealthReport)
      requires Valid() && |queue.items| < QUEUE_SIZE
      modifies checkTask, queue
      ensures Valid()
      ensures checkTask.history == old(checkTask.history) + [r]
      ensures checkTask.lastExecutionTime == DelayUntil(old(checkTask.lastExecutionTime), CHECK_DELAY)
      ensures checkTask.errorOccurred <==> old(checkTask.errorOccurred) || !AllStillRunning(r)
      ensures queue.items == old(queue.items) + [Verdict(checkTask.errorOccurred)]
      ensures queue.sent == old(queue.sent) + [Verdict(checkTask.errorOccurred)]
    {
      checkTask.Cycle(queue, r);
    }

    /** One cycle of vTempSensorTask, once the queue has room for its message. */
    method TempSensorCycle(rand: nat, now: Tick) returns (wake: Tick)
      requires Valid() && |queue.items| < QUEUE_SIZE
      modifies queue
      ensures Valid()
      ensures queue.items == old(queue.items) + [Sensor.FormatTemp(Sensor.Reading(rand))]
      ensures queue.sent == old(queue.sent) + [Sensor.FormatTemp(Sensor.Reading(rand))]
      ensures wake == Delay(now, SENSOR_DELAY)
    {
      var message;
      message, wake := Sensor.TempSensorCycle(queue, rand, now);
    }

    /** One cycle of vPrintTask, once a message is waiting. Messages are
        shown in the global order in which the two producers sent them, and
        the k-th one is drawn, after a clear, at column k mod 64, row k mod 2. */
    method PrintCycle() returns (message: string)
      requires Valid() && |queue.items| > 0
      modifies printTask, queue
      ensures Valid()
      ensures queue.delivered == old(queue.delivered) + [message] && queue.sent == old(queue.sent)
      ensures message == queue.sent[|old(queue.delivered)|]
      ensures queue.items == old(queue.items)[1..]
      ensures printTask.display == old(printTask.display)
              + [Clear, StringDraw(message, |queue.delivered| % 64, |queue.delivered| % 2)]
    {
      message := printTask.Cycle(queue);
      DrawAt(queue.delivered, |queue.delivered| - 1);
    }

    /** vUART_ISR */
    method UartInterrupt(txPending: bool, txFifoFull: bool)
      requires Valid()
      modifies uart
      ensures Valid() && uart.text == old(uart.text)
      ensures uart.cursor == TxInterrupt(uart.text, old(uart.cursor), txPending, txFifoFull).cursor
      ensures uart.dataRegister
              == old(uart.dataRegister) + TxInterrupt(uart.text, old(uart.cursor), txPending, txFifoFull).written
    {
      uart.Isr(txPending, txFifoFull);
    }

    /** vGPIO_ISR */
    method ButtonInterrupt() returns (switchRequired: bool)
      requires Valid()
      modifies button
      ensures Valid() && button.count == 1 && !switchRequired
    {
      switchRequired := GpioIsr(button);
    }
  }
}
