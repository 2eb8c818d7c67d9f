/** The simulated temperature sensor vTempSensorTask: each cycle it draws a
    pseudo-random reading, formats it as "Temp: n" into a 10-byte buffer,
    queues it for the print task and then sleeps with a RELATIVE delay, so
    its cadence is not anchored the way the check task's is. */
module Sensor {
  import opened Ticks
  import opened Mailbox

  const MAX_TEMP: nat := 40
  const MAX_TEMP_STRING_LENGTH: nat := 10
  const TEMP_PREFIX: string := "Temp: "

  /** rand() % MAX_TEMP. rand() is never negative, so C's truncating
      remainder and Dafny's Euclidean one agree. The reading is congruent to
      the random value and lies in [0, MAX_TEMP). */
  function Reading(rand: nat): (temp: nat)
    ensures temp < MAX_TEMP
    ensures temp <= rand && (rand - temp) % MAX_TEMP == 0
  {
    var q := rand / MAX_TEMP;
    assert rand == q * MAX_TEMP + rand % MAX_TEMP;
    assert rand - rand % MAX_TEMP == q * MAX_TEMP;
    ShiftMod40(0, q);
    rand % MAX_TEMP
  }

  lemma ShiftMod40(x: int, k: int)
    ensures (x + k * 40) % 40 == x % 40
  {
  }

  predicate IsDigit(c: char)
  {
    '0' <= c <= '9'
  }

  function DigitChar(d: nat): (c: char)
    requires d < 10
    ensures IsDigit(c)
  {
    ('0' as int + d) as char
  }

  /** What %d prints for a non-negative int: its decimal digits, no sign, no
      leading zeros. */
  function DecimalString(n: nat): (s: string)
    ensures |s| >= 1
    ensures forall i :: 0 <= i < |s| ==> IsDigit(s[i])
    decreases n
  {
    if n < 10 then [DigitChar(n)] else DecimalString(n / 10) + [DigitChar(n % 10)]
  }

  /** The value of a string of decimal digits (the inverse of DecimalString). */
  function ParseDecimal(s: string): nat
    requires forall i :: 0 <= i < |s| ==> IsDigit(s[i])
  {
    if s == [] then 0
    else
      assert IsDigit(s[|s| - 1]);
      ParseDecimal(s[..|s| - 1]) * 10 + (s[|s| - 1] as int - '0' as int)
  }

  /** Printing a reading and reading the digits back gives the reading. */
  lemma {:induction false} DecimalRoundTrip(n: nat)
    ensures ParseDecimal(DecimalString(n)) == n
    decreases n
  {
    if n >= 10 {
      DecimalRoundTrip(n / 10);
      var s := DecimalString(n);
      assert s[..|s| - 1] == DecimalString(n / 10);
    }
  }

  /** Two digits at most for a value below 100, one below 10. */
  lemma DecimalLength(n: nat)
    requires n < 100
    ensures |DecimalString(n)| == if n < 10 then 1 else 2
  {
  }

  /** snprintf(buf, size, ...) stores at most size - 1 characters of the
      formatted text (then the terminator): the text itself when it fits,
      otherwise its truncated beginning. */
  function Snprintf(size: nat, formatted: string): (stored: string)
    requires size > 0
    ensures |stored| <= size - 1
    ensures stored <= formatted
    ensures |formatted| < size ==> stored == formatted
  {
    if |formatted| < size then formatted else formatted[..size - 1]
  }

  /** snprintf(tempString, MAX_TEMP_STRING_LENGTH, "Temp: %d", temp) */
  function FormatTemp(temp: nat): (message: string)
    ensures |message| <= MAX_TEMP_STRING_LENGTH - 1
    ensures message <= TEMP_PREFIX + DecimalString(temp)
  {
    Snprintf(MAX_TEMP_STRING_LENGTH, TEMP_PREFIX + DecimalString(temp))
  }

  /** For every reading the buffer is big enough: nothing is truncated and
      the text has 7 or 8 characters, below the 9 the buffer allows. */
  lemma FormatNeverTruncates(temp: nat)
    requires temp < MAX_TEMP
    ensures FormatTemp(temp) == TEMP_PREFIX + DecimalString(temp)
    ensures 7 <= |FormatTemp(temp)| <= 8
  {
    DecimalLength(temp);
  }

  /** The message carries the reading: it starts with "Temp: " and the rest
      parses back to the reading. */
  lemma FormatRoundTrip(temp: nat)
    requires temp < MAX_TEMP
    ensures |FormatTemp(temp)| > |TEMP_PREFIX|
    ensures FormatTemp(temp)[..|TEMP_PREFIX|] == TEMP_PREFIX
    ensures forall i :: |TEMP_PREFIX| <= i < |FormatTemp(temp)| ==> IsDigit(FormatTemp(temp)[i])
    ensures ParseDecimal(FormatTemp(temp)[|TEMP_PREFIX|..]) == temp
  {
    FormatNeverTruncates(temp);
    var s := FormatTemp(temp);
    assert s[|TEMP_PREFIX|..] == DecimalString(temp);
    DecimalRoundTrip(temp);
  }

  /** One iteration of vTempSensorTask. `rand` is what rand() returned; the
      send completes at once (the precondition), and `now` is the tick count
      when vTaskDelay is called. The message is the formatted text; the
      source actually queues the first pointer-sized bytes of the reused
      buffer, which this model does not reproduce. */
  method TempSensorCycle(queue: PrintQueue, rand: nat, now: Tick) returns (message: string, wake: Tick)
    requires queue.Valid() && |queue.items| < QUEUE_SIZE
    modifies queue
    ensures queue.Valid()
    ensures message == FormatTemp(Reading(rand))
    ensures queue.items == old(queue.items) + [message]
    ensures queue.sent == old(queue.sent) + [message] && queue.delivered == old(queue.delivered)
    ensures wake == Delay(now, SENSOR_DELAY)
  {
    var temp := rand % MAX_TEMP;
    message := Snprintf(MAX_TEMP_STRING_LENGTH, TEMP_PREFIX + DecimalString(temp));
    queue.Send(message);
    wake := Delay(now, SENSOR_DELAY);
  }
}
