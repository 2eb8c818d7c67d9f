/** The print task vPrintTask, the only task that touches the OLED display:
    it takes each message off the print queue, clears the display and draws
    the message at a position that moves on with every message. */
module Display {
  import opened Mailbox

  /** uxLine and uxRow are unsigned portBASE_TYPE, 32 bits wide. */
  const COUNTER_MODULUS: nat := 0x1_0000_0000

  type Counter = n: nat | n < COUNTER_MODULUS

  /** `++` on an unsigned 32-bit counter. */
  function Increment(c: Counter): (next: Counter)
    ensures next == if c + 1 < COUNTER_MODULUS then c + 1 else 0
  {
    (c + 1) % COUNTER_MODULUS
  }

  /** uxLine & 0x3f: the low six bits (see MaskIsMod). */
  function Column(uxLine: Counter): (column: nat)
    ensures column < 64
  {
    uxLine % 64
  }

  /** uxRow & 0x01: the low bit (see MaskIsMod). */
  function Row(uxRow: Counter): (row: nat)
    ensures row <= 1
  {
    uxRow % 2
  }

  /** On a 32-bit unsigned value the masks of the source are remainders.
      This justifies writing Column and Row with `%` on the counters; it is
      not a proved link between the bit-vector and the integer forms. */
  lemma MaskIsMod(u: bv32)
    ensures u & 0x3f == u % 64
    ensures u & 0x01 == u % 2
  {
  }

  /** The calls the print task makes on the display driver. */
  datatype DisplayOp = Clear | StringDraw(text: string, column: nat, row: nat)

  /** The display calls made after the print task has received `received`:
      for message n (counting from 1) both counters hold n mod 2^32. */
  function Draws(received: seq<string>): (ops: seq<DisplayOp>)
    ensures |ops| == 2 * |received|
  {
    if received == [] then []
    else
      var n := |received|;
      var counter := n % COUNTER_MODULUS;
      Draws(received[..n - 1]) + [Clear, StringDraw(received[n - 1], Column(counter), Row(counter))]
  }

  lemma ShiftMod64(x: int, k: int)
    ensures (x + k * 64) % 64 == x % 64
  {
  }

  lemma ShiftMod2(x: int, k: int)
    ensures (x + k * 2) % 2 == x % 2
  {
  }

  lemma ModOfMod(n: nat)
    ensures (n % COUNTER_MODULUS) % 64 == n % 64
    ensures (n % COUNTER_MODULUS) % 2 == n % 2
  {
    var q := n / COUNTER_MODULUS;
    var r := n % COUNTER_MODULUS;
    assert n == r + q * COUNTER_MODULUS;
    assert q * COUNTER_MODULUS == (q * 0x400_0000) * 64 == (q * 0x8000_0000) * 2;
    ShiftMod64(r, q * 0x400_0000);
    ShiftMod2(r, q * 0x8000_0000);
  }

  /** Every draw is preceded by a clear, and the k-th message (counting from 1)
      is drawn in column k mod 64 (0..63) and row k mod 2 (0 or 1), however
      often the 32-bit counters have wrapped. */
  lemma {:induction false} DrawAt(received: seq<string>, j: nat)
    requires j < |received|
    ensures Draws(received)[2 * j] == Clear
    ensures Draws(received)[2 * j + 1] == StringDraw(received[j], (j + 1) % 64, (j + 1) % 2)
  {
    var n := |received|;
    var init := received[..n - 1];
    if j < n - 1 {
      DrawAt(init, j);
      assert Draws(received)[2 * j] == Draws(init)[2 * j];
      assert Draws(received)[2 * j + 1] == Draws(init)[2 * j + 1];
    } else {
      ModOfMod(n);
    }
  }

  /** The state of one running vPrintTask, with the display it draws on. */
  class PrintTask {
    var uxLine: Counter
    var uxRow: Counter
    /** The calls the print task has made on the display driver so far, in
        order (the start-up banner drawn before the scheduler runs is not in it). */
    var display: seq<DisplayOp>
    /** The messages taken off the queue so far. */
    ghost var received: seq<string>

    ghost predicate Valid()
      reads this
    {
      uxLine == |received| % COUNTER_MODULUS
      && uxRow == |received| % COUNTER_MODULUS
      && display == Draws(received)
    }

    /** Task entry: uxLine = 0, uxRow = 0. */
    constructor ()
      ensures Valid() && received == [] && display == []
      ensures uxLine == 0 && uxRow == 0
    {
      uxLine, uxRow, display, received := 0, 0, [], [];
    }

    /** One iteration of the task's loop: receive (the precondition lets it
        complete at once), bump both counters, clear, draw. */
    method Cycle(queue: PrintQueue) returns (message: string)
      requires Valid() && queue.Valid() && |queue.items| > 0
      modifies this, queue
      ensures Valid() && queue.Valid()
      ensures message == old(queue.items)[0] && queue.items == old(queue.items)[1..]
      ensures queue.delivered == old(queue.delivered) + [message] && queue.sent == old(queue.sent)
      ensures received == old(received) + [message]
      ensures uxLine == Increment(old(uxLine)) && uxRow == Increment(old(uxRow))
      ensures display == old(display) + [Clear, StringDraw(message, Column(uxLine), Row(uxRow))]
    {
      message := queue.Receive();
      uxRow := Increment(uxRow);
      uxLine := Increment(uxLine);
      display := display + [Clear];
      display := display + [StringDraw(message, Column(uxLine), Row(uxRow))];
      received := received + [message];
      assert received[..|received| - 1] == old(received);
      assert (|old(received)| % COUNTER_MODULUS + 1) % COUNTER_MODULUS == |received| % COUNTER_MODULUS;
    }
  }
}
