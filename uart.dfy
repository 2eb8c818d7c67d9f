/** The UART0 interrupt handler vUART_ISR: on a transmit interrupt it pushes
    the character under the cursor pcNextChar into the data register, unless
    the transmit FIFO is full, and moves the cursor on while it has not
    reached the string's terminator. The cursor is modelled as a string and
    an index into it; index |text| is the position of the terminating zero. */
module Uart {

  const NUL: char := 0 as char

  /** cMessage, the string the demo means to transmit. */
  const MESSAGE: string := "Task woken by button interrupt! --- "

  /** A C string's characters: no zero before the terminator. */
  predicate IsCString(text: string)
  {
    forall i :: 0 <= i < |text| ==> text[i] != NUL
  }

  /** *pcNextChar: the character at the cursor, the terminator at the end. */
  function CharAt(text: string, cursor: nat): (c: char)
    requires IsCString(text) && cursor <= |text|
    ensures c == NUL <==> cursor == |text|
  {
    if cursor < |text| then text[cursor] else NUL
  }

  /** The cursor after an interrupt, and what was written to the data register. */
  datatype TxResult = TxResult(cursor: nat, written: seq<char>)

  /** What vUART_ISR does for one interrupt. `txPending` is the UART_INT_TX
      bit of the status read by UARTIntStatus; `txFifoFull` is UART_FR_TXFF
      of the flag register. The cursor moves past a non-zero character even
      when the register was full, so such a character is skipped, not retried. */
  function TxInterrupt(text: string, cursor: nat, txPending: bool, txFifoFull: bool): (r: TxResult)
    requires IsCString(text) && cursor <= |text|
    ensures r.cursor <= |text|
    ensures r.cursor == if txPending && cursor < |text| then cursor + 1 else cursor
    ensures |r.written| <= 1
    ensures r.written == if txPending && cursor < |text| && !txFifoFull then [text[cursor]] else []
  {
    if txPending && CharAt(text, cursor) != NUL then
      TxResult(cursor + 1, if !txFifoFull then [CharAt(text, cursor)] else [])
    else
      TxResult(cursor, [])
  }

  /** The two hardware inputs seen by one interrupt. */
  datatype TxEvent = TxEvent(txPending: bool, txFifoFull: bool)

  /** A sequence of interrupts from a cursor: the final cursor and every
      character written to the data register, in order. */
  function RunTx(text: string, cursor: nat, events: seq<TxEvent>): (r: TxResult)
    requires IsCString(text) && cursor <= |text|
    ensures cursor <= r.cursor <= |text|
    decreases |events|
  {
    if events == [] then TxResult(cursor, [])
    else
      var first := TxInterrupt(text, cursor, events[0].txPending, events[0].txFifoFull);
      var rest := RunTx(text, first.cursor, events[1..]);
      TxResult(rest.cursor, first.written + rest.written)
  }

  /** `a` is obtained from `b` by deleting characters. */
  predicate IsSubsequence(a: seq<char>, b: seq<char>)
    decreases |b|
  {
    a == [] || (b != [] && ((a[0] == b[0] && IsSubsequence(a[1..], b[1..])) || IsSubsequence(a, b[1..])))
  }

  /** Whatever the interrupts, the cursor only moves forward and never past
      the terminator, and the line carries the string's characters in order,
      some possibly skipped, none repeated or invented. */
  lemma {:induction false} RunTxSafe(text: string, cursor: nat, events: seq<TxEvent>)
    requires IsCString(text) && cursor <= |text|
    ensures cursor <= RunTx(text, cursor, events).cursor <= |text|
    ensures IsSubsequence(RunTx(text, cursor, events).written,
                          text[cursor..RunTx(text, cursor, events).cursor])
    decreases |events|
  {
    if events != [] {
      var first := TxInterrupt(text, cursor, events[0].txPending, events[0].txFifoFull);
      var rest := RunTx(text, first.cursor, events[1..]);
      RunTxSafe(text, first.cursor, events[1..]);
      assert RunTx(text, cursor, events) == TxResult(rest.cursor, first.written + rest.written);
      if first.cursor != cursor {
        var b := text[cursor..rest.cursor];
        assert b[1..] == text[first.cursor..rest.cursor];
        if first.written == [] {
          assert first.written + rest.written == rest.written;
          assert IsSubsequence(rest.written, b[1..]);
        } else {
          var a := first.written + rest.written;
          assert a[0] == b[0] && a[1..] == rest.written;
        }
      } else {
        assert first.written + rest.written == rest.written;
      }
    }
  }

  /** At the terminator every interrupt is a no-op. */
  lemma {:induction false} RunTxAtTerminator(text: string, events: seq<TxEvent>)
    requires IsCString(text)
    ensures RunTx(text, |text|, events) == TxResult(|text|, [])
    decreases |events|
  {
    if events != [] {
      RunTxAtTerminator(text, events[1..]);
    }
  }

  /** When every interrupt is a transmit interrupt with the register free,
      enough interrupts send the rest of the string exactly and leave the
      cursor on the terminator. */
  lemma {:induction false} RunTxSendsRest(text: string, cursor: nat, events: seq<TxEvent>)
    requires IsCString(text) && cursor <= |text|
    requires forall k :: 0 <= k < |events| ==> events[k] == TxEvent(true, false)
    requires |events| >= |text| - cursor
    ensures RunTx(text, cursor, events) == TxResult(|text|, text[cursor..])
    decreases |events|
  {
    if cursor == |text| {
      RunTxAtTerminator(text, events);
    } else {
      RunTxSendsRest(text, cursor + 1, events[1..]);
      assert [text[cursor]] + text[cursor + 1..] == text[cursor..];
    }
  }

  /** The string "AB": two interrupts write 'A' then 'B'; a third writes
      nothing and the cursor stays on the terminator. */
  lemma TransmitAB()
    ensures RunTx("AB", 0, [TxEvent(true, false)]) == TxResult(1, "A")
    ensures RunTx("AB", 0, [TxEvent(true, false), TxEvent(true, false)]) == TxResult(2, "AB")
    ensures RunTx("AB", 0, [TxEvent(true, false), TxEvent(true, false), TxEvent(true, false)])
            == TxResult(2, "AB")
  {
  }

  /** Once armed on cMessage from its start, one transmit interrupt per
      character with the register free sends the whole message. */
  lemma MessageSentWhole(events: seq<TxEvent>)
    requires forall k :: 0 <= k < |events| ==> events[k] == TxEvent(true, false)
    requires |events| >= |MESSAGE|
    ensures IsCString(MESSAGE)
    ensures RunTx(MESSAGE, 0, events) == TxResult(|MESSAGE|, MESSAGE)
  {
    RunTxSendsRest(MESSAGE, 0, events);
    assert MESSAGE[0..] == MESSAGE;
  }

  /** Running one more interrupt after a run is the run followed by that
      interrupt's step. */
  lemma {:induction false} RunTxSnoc(text: string, cursor: nat, events: seq<TxEvent>, e: TxEvent)
    requires IsCString(text) && cursor <= |text|
    ensures var r := RunTx(text, cursor, events);
            var s := TxInterrupt(text, r.cursor, e.txPending, e.txFifoFull);
            RunTx(text, cursor, events + [e]) == TxResult(s.cursor, r.written + s.written)
    decreases |events|
  {
    if events == [] {
      assert events + [e] == [e];
      var s := TxInterrupt(text, cursor, e.txPending, e.txFifoFull);
      assert RunTx(text, cursor, [e]) == TxResult(s.cursor, s.written + []);
      assert s.written + [] == [] + s.written;
    } else {
      var first := TxInterrupt(text, cursor, events[0].txPending, events[0].txFifoFull);
      var tail := events[1..];
      RunTxSnoc(text, first.cursor, tail, e);
      var rest := RunTx(text, first.cursor, tail);
      var s := TxInterrupt(text, rest.cursor, e.txPending, e.txFifoFull);
      var longer := RunTx(text, first.cursor, tail + [e]);
      assert longer == TxResult(s.cursor, rest.written + s.written);
      assert (events + [e])[0] == events[0];
      assert (events + [e])[1..] == tail + [e];
      assert RunTx(text, cursor, events) == TxResult(rest.cursor, first.written + rest.written);
      assert RunTx(text, cursor, events + [e]) == TxResult(longer.cursor, first.written + longer.written);
      assert first.written + (rest.written + s.written) == (first.written + rest.written) + s.written;
    }
  }

  /** The transmit side of UART0 as the interrupt handler sees it. */
  class UartTransmitter {
    /** The string pcNextChar points into. */
    var text: string
    /** pcNextChar, as an index into `text`. */
    var cursor: nat
    /** Every character written to the UART data register, in order. */
    var dataRegister: seq<char>
    /** Where the transmission was armed. */
    ghost var armedAt: nat
    /** The interrupts handled since then. */
    ghost var interrupts: seq<TxEvent>

    /** The cursor and the register log are what RunTx gives for the
        interrupts seen since arming, so RunTxSafe applies to them. */
    ghost predicate Valid()
      reads this
    {
      IsCString(text) && cursor <= |text| && armedAt <= |text|
      && RunTx(text, armedAt, interrupts) == TxResult(cursor, dataRegister)
    }

    /** A transmission armed on `s` at position `start` (done outside the handler). */
    constructor (s: string, start: nat)
      requires IsCString(s) && start <= |s|
      ensures Valid() && text == s && cursor == start && dataRegister == []
      ensures armedAt == start && interrupts == []
    {
      text, cursor, dataRegister := s, start, [];
      armedAt, interrupts := start, [];
    }

    /** vUART_ISR */
    method Isr(txPending: bool, txFifoFull: bool)
      requires Valid()
      modifies this
      ensures Valid() && text == old(text) && armedAt == old(armedAt)
      ensures interrupts == old(interrupts) + [TxEvent(txPending, txFifoFull)]
      ensures cursor == TxInterrupt(text, old(cursor), txPending, txFifoFull).cursor
      ensures dataRegister
              == old(dataRegister) + TxInterrupt(text, old(cursor), txPending, txFifoFull).written
    {
      if txPending {
        if CharAt(text, cursor) != NUL {
          if !txFifoFull {
            dataRegister := dataRegister + [CharAt(text, cursor)];
          }
          cursor := cursor + 1;
        }
      }
      RunTxSnoc(text, armedAt, interrupts, TxEvent(txPending, txFifoFull));
      interrupts := interrupts + [TxEvent(txPending, txFifoFull)];
    }
  }
}
