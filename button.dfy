/** The push-button signal xButtonSemaphore, a binary semaphore, and the
    GPIO interrupt handler vGPIO_ISR that gives it. A binary semaphore is a
    queue of length one with no payload, so its whole state is a count that
    is 0 or 1. */
module Button {

  /** Outcome of a give or take: the new count and whether the call succeeded
      (pdPASS / pdTRUE) rather than failing at once (errQUEUE_FULL / pdFALSE). */
  datatype SemResult = SemResult(count: nat, ok: bool)

  /** xSemaphoreGive / xSemaphoreGiveFromISR on a semaphore holding `count`. */
  function Give(count: nat): (r: SemResult)
    requires count <= 1
    ensures r.count == 1
    ensures r.ok <==> count == 0
  {
    if count < 1 then SemResult(count + 1, true) else SemResult(count, false)
  }

  /** xSemaphoreTake with a block time of zero: never waits. */
  function TakeNoWait(count: nat): (r: SemResult)
    requires count <= 1
    ensures r.count == 0
    ensures r.ok <==> count == 1
  {
    if count > 0 then SemResult(count - 1, true) else SemResult(count, false)
  }

  /** A second give before any take is refused and leaves the semaphore in
      the same single-pending state as one give: gives are not counted. */
  lemma GiveIsIdempotent(count: nat)
    requires count <= 1
    ensures Give(Give(count).count).count == Give(count).count
    ensures !Give(Give(count).count).ok
  {
  }

  class BinarySemaphore {
    var count: nat

    ghost predicate Valid()
      reads this
    {
      count <= 1
    }

    /** vSemaphoreCreateBinary: the legacy macro creates the semaphore already given. */
    constructor CreateBinary()
      ensures Valid() && count == 1
    {
      count := 1;
    }

    method Take() returns (taken: bool)
      requires Valid()
      modifies this
      ensures Valid()
      ensures SemResult(count, taken) == TakeNoWait(old(count))
    {
      taken := count > 0;
      if taken {
        count := count - 1;
      }
    }

    /** xSemaphoreGiveFromISR. No task ever waits on xButtonSemaphore, so a
        give never readies a task and the woken flag stays pdFALSE. */
    method GiveFromIsr() returns (given: bool, higherPriorityTaskWoken: bool)
      requires Valid()
      modifies this
      ensures Valid()
      ensures SemResult(count, given) == Give(old(count))
      ensures !higherPriorityTaskWoken
    {
      given := count < 1;
      if given {
        count := count + 1;
      }
      higherPriorityTaskWoken := false;
    }
  }

  /** vGPIO_ISR: clear the pin interrupt (hardware, not modelled), give the
      semaphore, and return the flag passed to portEND_SWITCHING_ISR. */
  method GpioIsr(button: BinarySemaphore) returns (switchRequired: bool)
    requires button.Valid()
    modifies button
    ensures button.Valid() && button.count == 1
    ensures !switchRequired
  {
    var given;
    given, switchRequired := button.GiveFromIsr();
  }
}
