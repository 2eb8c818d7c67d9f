/** The print queue xPrintQueue: a FIFO of at most mainQUEUE_SIZE messages
    shared by the check task and the temperature task (senders) and the print
    task (the only receiver). Every send and receive in the demo waits with
    portMAX_DELAY, so a send on a full queue or a receive on an empty one
    blocks the caller; here that is the precondition of Send and Receive, and
    the queue never drops or overwrites a message. */
module Mailbox {

  /** mainQUEUE_SIZE */
  const QUEUE_SIZE: nat := 3

  /** The queue items are modelled as the text each sender means to pass. */
  class PrintQueue {
    /** Messages waiting, oldest first. */
    var items: seq<string>
    /** Every message ever sent, in global send order. */
    ghost var sent: seq<string>
    /** Every message ever received, in receive order. */
    ghost var delivered: seq<string>

    /** The bound and the FIFO law: what has been received followed by what
        is still waiting is exactly what has been sent. */
    ghost predicate Valid()
      reads this
    {
      |items| <= QUEUE_SIZE && sent == delivered + items
    }

    /** xQueueCreate(mainQUEUE_SIZE, ...) */
    constructor ()
      ensures Valid() && items == [] && sent == [] && delivered == []
    {
      items, sent, delivered := [], [], [];
    }

    /** xQueueSend(xPrintQueue, &m, portMAX_DELAY) once the queue has room. */
    method Send(m: string)
      requires Valid() && |items| < QUEUE_SIZE
      modifies this
      ensures Valid()
      ensures items == old(items) + [m]
      ensures sent == old(sent) + [m] && delivered == old(delivered)
    {
      items := items + [m];
      sent := sent + [m];
    }

    /** xQueueReceive(xPrintQueue, &m, portMAX_DELAY) once a message is waiting. */
    method Receive() returns (m: string)
      requires Valid() && |items| > 0
      modifies this
      ensures Valid()
      ensures m == old(items)[0] && items == old(items)[1..]
      ensures delivered == old(delivered) + [m] && sent == old(sent)
      ensures m == sent[|old(delivered)|]
    {
      m := items[0];
      items := items[1..];
      delivered := delivered + [m];
    }
  }
}
