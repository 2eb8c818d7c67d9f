/** The 'check' task vCheckTask: every mainCHECK_DELAY ticks it polls four
    background demo workloads, latches any failure for good, and queues one
    "PASS" or "FAIL" message for the print task. */
module Check {
  import opened Ticks
  import opened Mailbox

  /** pdTRUE of portBASE_TYPE. */
  const PD_TRUE: int := 1

  const PASS_MESSAGE: string := "PASS"
  const FAIL_MESSAGE: string := "FAIL"

  /** What the four xAre...StillRunning() queries returned in one cycle.
      Each is a portBASE_TYPE, so any value other than pdTRUE is a failure. */
  datatype HealthReport = HealthReport(
    integerMath: int,
    pollingQueues: int,
    semaphores: int,
    blockingQueues: int)

  /** The workloads are healthy in this cycle: every query gave pdTRUE. */
  predicate AllStillRunning(r: HealthReport)
  {
    r.integerMath == PD_TRUE && r.pollingQueues == PD_TRUE
    && r.semaphores == PD_TRUE && r.blockingQueues == PD_TRUE
  }

  /** The four checks of one cycle applied to xErrorOccurred, in source order:
      each failed query sets the flag, nothing clears it. */
  function LatchStep(errorOccurred: bool, r: HealthReport): (e: bool)
    ensures e <==> errorOccurred || !AllStillRunning(r)
  {
    var e1 := if r.integerMath != PD_TRUE then true else errorOccurred;
    var e2 := if r.pollingQueues != PD_TRUE then true else e1;
    var e3 := if r.semaphores != PD_TRUE then true else e2;
    if r.blockingQueues != PD_TRUE then true else e3
  }

  /** The message queued at the end of a cycle. */
  function Verdict(errorOccurred: bool): (message: string)
    ensures message == FAIL_MESSAGE <==> errorOccurred
    ensures message == PASS_MESSAGE <==> !errorOccurred
  {
    if errorOccurred then FAIL_MESSAGE else PASS_MESSAGE
  }

  /** xErrorOccurred after the cycles that saw `reports` (it starts pdFALSE). */
  function LatchAfter(reports: seq<HealthReport>): bool
  {
    if reports == [] then false
    else LatchStep(LatchAfter(reports[..|reports| - 1]), reports[|reports| - 1])
  }

  /** The messages the check task has queued after the cycles that saw `reports`. */
  function MessagesAfter(reports: seq<HealthReport>): (messages: seq<string>)
    ensures |messages| == |reports|
  {
    if reports == [] then []
    else MessagesAfter(reports[..|reports| - 1]) + [Verdict(LatchAfter(reports))]
  }

  /** The latch is set exactly when some cycle so far saw a failed query. */
  lemma {:induction false} LatchAfterIff(reports: seq<HealthReport>)
    ensures LatchAfter(reports) <==> exists i :: 0 <= i < |reports| && !AllStillRunning(reports[i])
  {
    if reports != [] {
      var init := reports[..|reports| - 1];
      LatchAfterIff(init);
      if LatchAfter(init) {
        var i :| 0 <= i < |init| && !AllStillRunning(init[i]);
        assert reports[i] == init[i];
      }
      if exists i :: 0 <= i < |reports| && !AllStillRunning(reports[i]) {
        var i :| 0 <= i < |reports| && !AllStillRunning(reports[i]);
        if i < |init| {
          assert init[i] == reports[i];
        }
      }
    }
  }

  /** Exactly one message per cycle, and message j is "FAIL" iff some cycle up
      to and including j saw a failed query; otherwise it is "PASS". */
  lemma {:induction false} MessageAt(reports: seq<HealthReport>, j: nat)
    requires j < |reports|
    ensures MessagesAfter(reports)[j] == FAIL_MESSAGE
            <==> exists i :: 0 <= i <= j && !AllStillRunning(reports[i])
    ensures MessagesAfter(reports)[j] != FAIL_MESSAGE ==> MessagesAfter(reports)[j] == PASS_MESSAGE
  {
    var init := reports[..|reports| - 1];
    if j < |init| {
      MessageAt(init, j);
      assert MessagesAfter(reports)[j] == MessagesAfter(init)[j];
      forall i | 0 <= i <= j
        ensures init[i] == reports[i]
      {
      }
    } else {
      if init != [] {
        MessageAt(init, 0);
      }
      LatchAfterIff(reports);
    }
  }

  /** The failure is sticky: once a "FAIL" has been queued, every later
      report of the check task is "FAIL", whatever the later queries return. */
  lemma {:induction false} FailIsSticky(reports: seq<HealthReport>, i: nat, j: nat)
    requires i <= j < |reports|
    requires MessagesAfter(reports)[i] == FAIL_MESSAGE
    ensures MessagesAfter(reports)[j] == FAIL_MESSAGE
  {
    MessageAt(reports, i);
    MessageAt(reports, j);
  }

  /** The local state of one running vCheckTask. */
  class CheckTask {
    /** xErrorOccurred */
    var errorOccurred: bool
    /** xLastExecutionTime */
    var lastExecutionTime: Tick
    /** xTaskGetTickCount() when the task started. */
    ghost var start: Tick
    /** The health reports of the cycles run so far. */
    ghost var history: seq<HealthReport>
    /** The messages this task has queued so far. */
    ghost var reported: seq<string>

    ghost predicate Valid()
      reads this
    {
      errorOccurred == LatchAfter(history)
      && lastExecutionTime == AnchoredWake(start, CHECK_DELAY, |history|)
      && reported == MessagesAfter(history)
    }

    /** Task entry: xErrorOccurred = pdFALSE, xLastExecutionTime = xTaskGetTickCount(). */
    constructor (tickCount: Tick)
      ensures Valid() && history == [] && reported == [] && start == tickCount
      ensures !errorOccurred && lastExecutionTime == tickCount
    {
      errorOccurred := false;
      lastExecutionTime := tickCount;
      start := tickCount;
      history := [];
      reported := [];
    }

    /** One iteration of the task's loop: the anchored delay, the four
        checks, and the send (which the precondition lets complete). */
    method Cycle(queue: PrintQueue, r: HealthReport)
      requires Valid() && queue.Valid() && |queue.items| < QUEUE_SIZE
      modifies this, queue
      ensures Valid() && queue.Valid()
      ensures history == old(history) + [r] && start == old(start)
      ensures reported == old(reported) + [Verdict(errorOccurred)]
      ensures lastExecutionTime == DelayUntil(old(lastExecutionTime), CHECK_DELAY)
      ensures errorOccurred <==> old(errorOccurred) || !AllStillRunning(r)
      ensures queue.items == old(queue.items) + [Verdict(errorOccurred)]
      ensures queue.sent == old(queue.sent) + [Verdict(errorOccurred)]
      ensures queue.delivered == old(queue.delivered)
    {
      lastExecutionTime := DelayUntil(lastExecutionTime, CHECK_DELAY);

      if r.integerMath != PD_TRUE {
        errorOccurred := true;
      }
      if r.pollingQueues != PD_TRUE {
        errorOccurred := true;
      }
      if r.semaphores != PD_TRUE {
        errorOccurred := true;
      }
      if r.blockingQueues != PD_TRUE {
        errorOccurred := true;
      }

      if errorOccurred {
        queue.Send(FAIL_MESSAGE);
      } else {
        queue.Send(PASS_MESSAGE);
      }
      history := history + [r];
      reported := reported + [Verdict(errorOccurred)];
      assert history[..|history| - 1] == old(history);
    }
  }
}
