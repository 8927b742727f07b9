/** The interrupt-driven SPI transmitter: a request fills the transmit FIFO, and every TX_EMPTY
    interrupt refills it from the saved buffer until the request is finished. */
module SpiTransmit {
  import opened Wrappers

  const FIFO_SIZE: nat := 32
  const WORD: nat := 0x1_0000_0000
  const PREVENT_RX: bv32 := 0x08

  datatype Status =
    | Success | NotInitialized | TransmitterBusy | InvalidChipSelect
    | DmaHandlesTx | BufferMissing | BufferTooLong

  /** The settings a transmit looks at; SPI1 has one chip select, SPI0 as many as configured. */
  datatype Settings = Settings(isSpi1: bool, chipSelects: nat, controller: bool, dmaTx: bool)

  /** One SPI.  `written` lists what went to the transmit data register, `buffer` is the raw
      transmit buffer (`None` when the user gave none), `remembered` the configured AUX control. */
  datatype Spi = Spi(
    settings: Settings, initialized: bool, active: bool,
    started: nat, finished: nat, sent: nat, remaining: nat,
    remembered: bv32, aux: bv32, selected: nat,
    buffer: Option<seq<byte>>, written: seq<byte>)

  // ---- the operations on values --------------------------------------------------------------

  function Min(a: nat, b: nat): (m: nat) { if a < b then a else b }

  predicate FalseAlarm(t: Spi) { t.active && t.finished >= t.started }

  function CheckReady(t: Spi): (s: Status)
  {
    if !t.initialized then NotInitialized
    else if t.active && !FalseAlarm(t) then TransmitterBusy
    else Success
  }

  /** The check clears the flag when the counters say that nothing is being sent. */
  function AfterCheck(t: Spi): (t': Spi)
  {
    if t.initialized && FalseAlarm(t) then t.(active := false) else t
  }

  predicate ChipSelectValid(s: Settings, cs: nat) {
    if s.isSpi1 then cs == 0 else cs < s.chipSelects
  }

  function SelectBit(cs: nat): (bit: nat)
  {
    match cs { case 0 => 1 case 1 => 2 case 2 => 4 case 3 => 8 case _ => 0 }
  }

  /** The AUX control with receiving switched off. */
  function Deaf(remembered: bv32): (aux: bv32) { remembered | PREVENT_RX }

  function SuppressReceive(t: Spi, receive: bool): (t': Spi)
  {
    if receive then t else t.(aux := Deaf(t.remembered))
  }

  function Select(t: Spi, cs: nat): (t': Spi)
  {
    if t.settings.controller then t.(selected := SelectBit(cs)) else t
  }

  /** The verdict of the buffer checks, for requests that exceed the FIFO. */
  function CheckBuffer(t: Spi, n: nat): (s: Status)
  {
    if n <= FIFO_SIZE then Success
    else if t.buffer == None then BufferMissing
    else if n > |t.buffer.value| then BufferTooLong
    else Success
  }

  function TxBufferStatus(t: Spi, cs: nat, bytes: seq<byte>): (s: Status)
  {
    if CheckReady(t) != Success then CheckReady(t)
    else if !ChipSelectValid(t.settings, cs) then InvalidChipSelect
    else if t.settings.dmaTx then DmaHandlesTx
    else CheckBuffer(t, |bytes|)
  }

  /** `memcpy` into the start of the saved buffer. */
  function Saved(t: Spi, bytes: seq<byte>): (t': Spi)
    requires |bytes| > FIFO_SIZE ==> CheckBuffer(t, |bytes|) == Success
  {
    if |bytes| <= FIFO_SIZE then t
    else t.(buffer := Some(bytes + t.buffer.value[|bytes|..]))
  }

  function Begin(t: Spi, cs: nat, bytes: seq<byte>): (t': Spi)
    requires CheckBuffer(t, |bytes|) == Success
  {
    var n, now := |bytes|, Min(|bytes|, FIFO_SIZE);
    Select(Saved(t, bytes), cs).(
      active := true,
      started := (t.started + 1) % WORD,
      written := t.written + bytes[..now],
      sent := if n > FIFO_SIZE then FIFO_SIZE else 0,
      remaining := n - now)
  }

  /** The raw transmit call.  The AUX control is written before the buffer checks can fail. */
  function TxBuffer(t: Spi, cs: nat, bytes: seq<byte>, receive: bool): (t': Spi)
  {
    var checked := AfterCheck(t);
    match TxBufferStatus(t, cs, bytes)
    case Success => Begin(SuppressReceive(checked, receive), cs, bytes)
    case BufferMissing => SuppressReceive(checked, receive)
    case BufferTooLong => SuppressReceive(checked, receive)
    case _ => checked
  }

  function TxByteStatus(t: Spi, cs: nat): (s: Status)
  {
    if CheckReady(t) != Success then CheckReady(t)
    else if !ChipSelectValid(t.settings, cs) then InvalidChipSelect
    else if t.settings.dmaTx then DmaHandlesTx
    else Success
  }

  /** The single-byte call, which leaves the refill counters as they are. */
  function TxByte(t: Spi, cs: nat, b: byte, receive: bool): (t': Spi)
  {
    var checked := AfterCheck(t);
    if TxByteStatus(t, cs) != Success then checked
    else
      Select(SuppressReceive(checked, receive), cs).(
        active := true, started := (t.started + 1) % WORD, written := t.written + [b])
  }

  /** The buffer still holds what remains to be sent. */
  predicate Refillable(t: Spi) {
    t.remaining > 0 ==> t.buffer.Some? && t.sent + t.remaining <= |t.buffer.value|
  }

  /** Where the refill loop stops. */
  function RefillEnd(t: Spi): (finish: nat)
  {
    t.sent + Min(t.remaining, FIFO_SIZE)
  }

  /** The refill loop never ends: its index is eight bits wide and cannot reach the end. */
  predicate Hangs(t: Spi) {
    t.active && t.remaining > 0 && RefillEnd(t) > 255
  }

  /** The TX_EMPTY interrupt. */
  function TxEmpty(t: Spi): (t': Spi)
    requires Refillable(t) && !Hangs(t)
  {
    if !t.active then t
    else if t.remaining > 0 then
      t.(written := t.written + t.buffer.value[t.sent..RefillEnd(t)],
         sent := RefillEnd(t), remaining := t.remaining - Min(t.remaining, FIFO_SIZE))
    else
      t.(active := false, finished := (t.finished + 1) % WORD, aux := t.remembered)
  }

  // ---- the invariant -------------------------------------------------------------------------

  /** Started runs one ahead of finished exactly while a request is active, and what remains of it
      is in the saved buffer. */
  predicate Good(t: Spi) {
    && t.started < WORD && t.finished < WORD
    && t.started == (if t.active then (t.finished + 1) % WORD else t.finished)
    && (t.remaining > 0 ==> t.active)
    && Refillable(t)
  }

  /** The bytes accepted but not yet written. */
  function Pending(t: Spi): (bytes: seq<byte>)
    requires Refillable(t)
  {
    if t.remaining == 0 then [] else t.buffer.value[t.sent..t.sent + t.remaining]
  }

  /** The counter of started requests has not just wrapped to zero under an active request. */
  predicate NotWrapped(t: Spi) { t.active ==> t.started != 0 }

  /** From `t` to `t'` the accepted bytes joined those written and pending, and nothing was lost,
      repeated or reordered; the FIFO took one filling at most. */
  predicate Conserved(t: Spi, t': Spi, accepted: seq<byte>) {
    && Refillable(t) && Refillable(t')
    && t'.written + Pending(t') == t.written + Pending(t) + accepted
    && |t.written| <= |t'.written| <= |t.written| + FIFO_SIZE
  }

  /** The state `init` leaves. */
  function Ready(settings: Settings, remembered: bv32, buffer: Option<seq<byte>>): (t: Spi)
    ensures Good(t) && NotWrapped(t) && Pending(t) == []
  {
    Spi(settings, true, false, 0, 0, 0, 0, remembered, remembered, 0, buffer, [])
  }

  // ---- what a request does, field by field ---------------------------------------------------

  /** The checks that both transmit calls make. */
  predicate ChecksPass(t: Spi, cs: nat) {
    && t.initialized && (t.active ==> t.started <= t.finished)
    && (if t.settings.isSpi1 then cs == 0 else cs < t.settings.chipSelects) && !t.settings.dmaTx
  }

  /** The verdicts of these checks, in their order. */
  predicate ChecksAnswer(t: Spi, cs: nat, s: Status) {
    var busy := t.active && t.started > t.finished;
    var selectable := if t.settings.isSpi1 then cs == 0 else cs < t.settings.chipSelects;
    && (s == NotInitialized <==> !t.initialized)
    && (s == TransmitterBusy <==> t.initialized && busy)
    && (s == InvalidChipSelect <==> t.initialized && !busy && !selectable)
    && (s == DmaHandlesTx <==> t.initialized && !busy && selectable && t.settings.dmaTx)
  }

  /** A request of more bytes than the FIFO holds needs a buffer that is long enough. */
  predicate BufferAnswers(t: Spi, cs: nat, n: nat, s: Status) {
    && ChecksAnswer(t, cs, s)
    && (s == BufferMissing <==> ChecksPass(t, cs) && n > 32 && t.buffer == None)
    && (s == BufferTooLong <==> ChecksPass(t, cs) && n > 32 && t.buffer.Some? && n > |t.buffer.value|)
    && (s == Success <==> ChecksPass(t, cs) && (n <= 32 || (t.buffer.Some? && n <= |t.buffer.value|)))
  }

  /** An accepted request: the controller selects exactly the peripheral with the given index, none for
      an index that has no bit; receiving is off if it is not wanted; one more request is active. */
  predicate Sends(t: Spi, t': Spi, cs: nat, receive: bool) {
    && t'.selected == (if !t.settings.controller then t.selected else if cs < 4 then [1, 2, 4, 8][cs] else 0)
    && t'.aux == (if receive then t.aux else t.remembered | 0x08)
    && t'.active && t'.started == (t.started + 1) % 0x1_0000_0000 && t'.finished == t.finished
    && t'.settings == t.settings && t'.remembered == t.remembered && t'.initialized
  }

  /** What was put into the FIFO and what is left of a request of `n` bytes. */
  predicate Counts(t: Spi, n: nat) {
    if n <= 32 then t.sent == 0 && t.remaining == 0 else t.sent == 32 && t.remaining == n - 32
  }

  lemma SelectIs(t: Spi, cs: nat)
    ensures Select(t, cs).selected
         == if !t.settings.controller then t.selected else if cs < 4 then [1, 2, 4, 8][cs] else 0
  {
  }

  lemma SavedKeeps(t: Spi, bytes: seq<byte>)
    requires CheckBuffer(t, |bytes|) == Success
    ensures Saved(t, bytes) == t.(buffer := Saved(t, bytes).buffer)
  {
  }

  lemma SelectAlike(t: Spi, u: Spi, cs: nat)
    requires u.settings == t.settings && u.selected == t.selected
    ensures Select(u, cs).selected == Select(t, cs).selected
  {
    hide SelectBit;
  }

  lemma BeginSends(t: Spi, cs: nat, bytes: seq<byte>)
    requires CheckBuffer(t, |bytes|) == Success
    ensures var t' := Begin(t, cs, bytes);
            && t'.selected == Select(t, cs).selected && t'.aux == t.aux && t'.initialized == t.initialized
            && t'.active && t'.started == (t.started + 1) % WORD && t'.finished == t.finished
            && t'.settings == t.settings && t'.remembered == t.remembered && Counts(t', |bytes|)
  {
    SavedKeeps(t, bytes);
    SelectKeeps(Saved(t, bytes), cs, true);
    SelectAlike(t, Saved(t, bytes), cs);
    hide Saved, Select, CheckBuffer;
  }

  lemma TxBufferSends(t: Spi, cs: nat, bytes: seq<byte>, receive: bool)
    requires TxBufferStatus(t, cs, bytes) == Success
    ensures Sends(t, TxBuffer(t, cs, bytes, receive), cs, receive) && Counts(TxBuffer(t, cs, bytes, receive), |bytes|)
  {
    CheckKeeps(t);
    BeginSends(SuppressReceive(AfterCheck(t), receive), cs, bytes);
    SelectIs(SuppressReceive(AfterCheck(t), receive), cs);
    hide Begin, Select, ChipSelectValid, AfterCheck;
  }

  lemma TxByteSends(t: Spi, cs: nat, b: byte, receive: bool)
    requires TxByteStatus(t, cs) == Success
    ensures Sends(t, TxByte(t, cs, b, receive), cs, receive)
  {
    CheckKeeps(t);
    hide Select, ChipSelectValid, AfterCheck;
    SelectIs(SuppressReceive(AfterCheck(t), receive), cs);
    SelectKeeps(SuppressReceive(AfterCheck(t), receive), cs, receive);
  }

  lemma TxBufferVerdict(t: Spi, cs: nat, bytes: seq<byte>)
    ensures BufferAnswers(t, cs, |bytes|, TxBufferStatus(t, cs, bytes))
  {
  }

  lemma TxByteVerdict(t: Spi, cs: nat)
    ensures ChecksAnswer(t, cs, TxByteStatus(t, cs)) && (TxByteStatus(t, cs) == Success <==> ChecksPass(t, cs))
  {
  }

  lemma TxBufferRefused(t: Spi, cs: nat, bytes: seq<byte>, receive: bool)
    requires TxBufferStatus(t, cs, bytes) != Success
    ensures var t' := TxBuffer(t, cs, bytes, receive); t'.selected == t.selected && t'.written == t.written
  {
    hide CheckReady, ChipSelectValid;
  }

  /** All that a caller of the one-byte call gets. */
  lemma TxByteMeets(t: Spi, cs: nat, b: byte, receive: bool)
    ensures var s, t' := TxByteStatus(t, cs), TxByte(t, cs, b, receive);
            && ChecksAnswer(t, cs, s) && (s == Success <==> ChecksPass(t, cs))
            && (if s == Success then Sends(t, t', cs, receive)
                else t'.selected == t.selected && t'.aux == t.aux && t'.written == t.written)
            && (Good(t) && NotWrapped(t) ==> Good(t') && Conserved(t, t', if s == Success then [b] else []))
  {
    hide Good, NotWrapped, Conserved, Sends, ChecksAnswer, ChecksPass, TxByteStatus;
    TxByteVerdict(t, cs);
    if Good(t) && NotWrapped(t) {
      TxByteKeeps(t, cs, b, receive);
    }
    if TxByteStatus(t, cs) == Success {
      TxByteSends(t, cs, b, receive);
    }
  }

  /** All that a caller of the buffer call gets. */
  lemma TxBufferMeets(t: Spi, cs: nat, bytes: seq<byte>, receive: bool)
    ensures var s, t' := TxBufferStatus(t, cs, bytes), TxBuffer(t, cs, bytes, receive);
            && BufferAnswers(t, cs, |bytes|, s)
            && (if s == Success then Sends(t, t', cs, receive)
                else t'.selected == t.selected && t'.written == t.written)
            && (s == Success ==> Counts(t', |bytes|))
            && (Good(t) && NotWrapped(t) ==> Good(t') && Conserved(t, t', if s == Success then bytes else []))
  {
    hide Good, NotWrapped, Conserved, Sends, BufferAnswers, TxBufferStatus, TxBuffer;
    TxBufferVerdict(t, cs, bytes);
    if Good(t) && NotWrapped(t) {
      TxBufferKeeps(t, cs, bytes, receive);
    }
    if TxBufferStatus(t, cs, bytes) == Success {
      TxBufferSends(t, cs, bytes, receive);
    } else {
      TxBufferRefused(t, cs, bytes, receive);
    }
  }

  /** The peripheral register holds the bit of the index, and no other. */
  lemma SelectedBit(t: Spi, t': Spi, cs: nat, receive: bool)
    requires Sends(t, t', cs, receive) && t.settings.controller && cs < 4
    ensures t'.selected < 16 && t'.selected as bv32 == 1 << cs
  {
  }

  // ---- the driver ----------------------------------------------------------------------------

  class Driver {
    const settings: Settings
    var initialized: bool
    var active: bool
    var started: nat
    var finished: nat
    var sent: nat
    var remaining: nat
    const remembered: bv32
    var aux: bv32
    var selected: nat
    const buffer: array?<byte>
    var written: seq<byte>

    ghost function View(): (t: Spi)
      reads this, buffer
    {
      Spi(settings, initialized, active, started, finished, sent, remaining, remembered, aux, selected,
          if buffer == null then None else Some(buffer[..]), written)
    }

    ghost predicate Valid()
      reads this, buffer
    {
      Good(View())
    }

    constructor (settings: Settings, remembered: bv32, buffer: array?<byte>)
      ensures Valid() && this.buffer == buffer
      ensures View() == Ready(settings, remembered, if buffer == null then None else Some(buffer[..]))
      ensures initialized && !active && started == finished == sent == remaining == selected == 0 && aux == remembered
    {
      this.settings, this.remembered, this.buffer := settings, remembered, buffer;
      initialized, active := true, false;
      started, finished, sent, remaining := 0, 0, 0, 0;
      aux, selected, written := remembered, 0, [];
    }

    method CheckReadyForTx() returns (s: Status)
      modifies this`active
      ensures s == CheckReady(old(View())) && View() == AfterCheck(old(View()))
      ensures old(Valid()) && old(NotWrapped(View())) ==>
                && View() == old(View())
                && s == (if !initialized then NotInitialized else if active then TransmitterBusy else Success)
    {
      if !initialized {
        return NotInitialized;
      }
      if active {
        if finished >= started {
          active := false;
          return Success;
        }
        return TransmitterBusy;
      }
      return Success;
    }

    method SetReceive(receive: bool)
      modifies this`aux
      ensures View() == SuppressReceive(old(View()), receive)
    {
      if !receive {
        aux := remembered | PREVENT_RX;
      }
    }

    method SelectChip(cs: nat)
      modifies this`selected
      ensures View() == Select(old(View()), cs)
    {
      if settings.controller {
        selected := SelectBit(cs);
      }
    }

    method RawTxOneByte(cs: nat, b: byte, receive: bool) returns (s: Status)
      modifies this
      ensures s == TxByteStatus(old(View()), cs) && View() == TxByte(old(View()), cs, b, receive)
      ensures ChecksAnswer(old(View()), cs, s) && (s == Success <==> ChecksPass(old(View()), cs))
      ensures if s == Success then Sends(old(View()), View(), cs, receive)
              else selected == old(selected) && aux == old(aux) && written == old(written)
      ensures old(Valid()) && old(NotWrapped(View())) ==>
                Valid() && Conserved(old(View()), View(), if s == Success then [b] else [])
    {
      hide CheckReady, AfterCheck, SuppressReceive, Select, ChipSelectValid, Good, Conserved, NotWrapped, Refillable,
        Pending;
      CheckKeeps(View());
      TxByteMeets(View(), cs, b, receive);
      hide Sends, ChecksAnswer, ChecksPass;
      s := CheckReadyForTx();
      if s != Success {
        return;
      }
      if !ChipSelectValid(settings, cs) {
        return InvalidChipSelect;
      }
      if settings.dmaTx {
        return DmaHandlesTx;
      }
      SetReceive(receive);
      SelectChip(cs);
      SelectKeeps(AfterCheck(old(View())), cs, receive);
      active, started, written := true, (started + 1) % WORD, written + [b];
    }

    method CopyToBuffer(bytes: seq<byte>)
      requires buffer != null && |bytes| <= buffer.Length
      modifies buffer
      ensures buffer[..] == bytes + old(buffer[..])[|bytes|..]
    {
      ghost var was := buffer[..];
      for i := 0 to |bytes|
        invariant forall k :: 0 <= k < buffer.Length ==> buffer[k] == if k < i then bytes[k] else was[k]
      {
        buffer[i] := bytes[i];
      }
    }

    method RawTxBuffer(cs: nat, bytes: seq<byte>, receive: bool) returns (s: Status)
      requires |bytes| < 0x1_0000
      modifies this, buffer
      ensures s == TxBufferStatus(old(View()), cs, bytes)
      ensures View() == TxBuffer(old(View()), cs, bytes, receive)
      ensures BufferAnswers(old(View()), cs, |bytes|, s)
      ensures if s == Success then Sends(old(View()), View(), cs, receive)
              else selected == old(selected) && written == old(written)
      ensures s == Success ==> if |bytes| <= 32 then sent == 0 && remaining == 0
                               else sent == 32 && remaining == |bytes| - 32
      ensures old(Valid()) && old(NotWrapped(View())) ==>
                Valid() && Conserved(old(View()), View(), if s == Success then bytes else [])
    {
      hide CheckReady, AfterCheck, SuppressReceive, ChipSelectValid, Begin, Good, Conserved, NotWrapped;
      CheckKeeps(View());
      TxBufferMeets(View(), cs, bytes, receive);
      hide Sends, BufferAnswers;
      s := CheckReadyForTx();
      if s != Success {
        return;
      }
      if !ChipSelectValid(settings, cs) {
        return InvalidChipSelect;
      }
      if settings.dmaTx {
        return DmaHandlesTx;
      }
      SetReceive(receive);
      SelectKeeps(AfterCheck(old(View())), cs, receive);
      if |bytes| > FIFO_SIZE {
        if buffer == null {
          return BufferMissing;
        }
        if |bytes| > buffer.Length {
          return BufferTooLong;
        }
      }
      StartTransmit(cs, bytes);
    }

    /** The rest of the raw transmit call, once every check has passed. */
    method StartTransmit(cs: nat, bytes: seq<byte>)
      requires CheckBuffer(View(), |bytes|) == Success
      modifies this, buffer
      ensures View() == Begin(old(View()), cs, bytes)
    {
      hide Select;
      var now := |bytes|;
      if |bytes| > FIFO_SIZE {
        now := FIFO_SIZE;
        CopyToBuffer(bytes);
      }
      assert View() == Saved(old(View()), bytes);
      SelectChip(cs);
      SelectKeeps(Saved(old(View()), bytes), cs, true);
      active, started := true, (started + 1) % WORD;
      WriteFifo(bytes, now);
      if |bytes| > FIFO_SIZE {
        sent, remaining := FIFO_SIZE, |bytes| - FIFO_SIZE;
      } else {
        sent, remaining := 0, 0;
      }
    }

    /** Write the first `n` bytes to the transmit data register. */
    method WriteFifo(bytes: seq<byte>, n: nat)
      requires n <= |bytes|
      modifies this`written
      ensures written == old(written) + bytes[..n]
    {
      for i := 0 to n
        invariant written == old(written) + bytes[..i]
      {
        written := written + [bytes[i]];
        assert bytes[..i + 1] == bytes[..i] + [bytes[i]];
      }
    }

    /** `hal_spi_internal_tx_more_bytes`; `hung` says that its loop would never end. */
    method TxMoreBytes() returns (hung: bool)
      requires active && remaining > 0 && Refillable(View())
      modifies this
      ensures hung == Hangs(old(View()))
      ensures View() == if hung then old(View()) else TxEmpty(old(View()))
    {
      var count := if remaining > FIFO_SIZE then FIFO_SIZE else remaining;
      var index, finish := sent % 256, sent + count;
      if finish > 255 {
        return true;
      }
      while index < finish
        invariant sent <= index <= finish
        invariant written == old(written) + buffer[sent..index]
        invariant unchanged(`initialized, `active, `started, `finished, `sent, `remaining, `aux, `selected)
      {
        written := written + [buffer[index]];
        assert buffer[sent..index + 1] == buffer[sent..index] + [buffer[index]];
        index := (index + 1) % 256;
      }
      remaining, sent, hung := remaining - count, sent + count, false;
      assert old(View()).buffer.value[old(sent)..finish] == buffer[old(sent)..finish];
    }

    /** The TX_EMPTY branch of the interrupt handler. */
    method HandleTxEmpty() returns (hung: bool)
      requires Refillable(View())
      modifies this
      ensures hung == Hangs(old(View()))
      ensures View() == if hung then old(View()) else TxEmpty(old(View()))
      ensures selected == old(selected) && (aux == old(aux) || (aux == remembered && old(active) && !active))
      ensures old(Valid()) && !hung ==> Valid() && Conserved(old(View()), View(), [])
    {
      if Good(View()) && !Hangs(View()) {
        TxEmptyKeeps(View());
      }
      hung := false;
      if active {
        if remaining > 0 {
          hung := TxMoreBytes();
        } else {
          active := false;
          finished := (finished + 1) % WORD;
          aux := remembered;
        }
      }
    }
  }

  lemma CheckKeeps(t: Spi)
    ensures AfterCheck(t) == t.(active := AfterCheck(t).active)
    ensures CheckReady(t).Success? || CheckReady(t).NotInitialized? || CheckReady(t).TransmitterBusy?
  {
  }

  lemma SelectKeeps(t: Spi, cs: nat, receive: bool)
    ensures SuppressReceive(t, receive) == t.(aux := SuppressReceive(t, receive).aux)
    ensures Select(t, cs) == t.(selected := Select(t, cs).selected)
    ensures Select(SuppressReceive(t, receive), cs)
         == t.(aux := SuppressReceive(t, receive).aux, selected := Select(t, cs).selected)
  {
  }

  // ---- the refill loop's index ---------------------------------------------------------------

  /** The eight-bit index after `k` increments. */
  function IndexAfter(start: nat, k: nat): (i: nat)
    ensures i < 256
  {
    if k == 0 then start % 256 else (IndexAfter(start, k - 1) + 1) % 256
  }

  lemma {:induction false} IndexClimbs(start: nat, k: nat)
    requires start + k <= 255
    ensures IndexAfter(start, k) == start + k
  {
    if k > 0 {
      IndexClimbs(start, k - 1);
    }
  }

  /** The loop `for (uint8_t index = start; index < finish; index++)` reaches its end exactly when
      the end is at most 255. */
  lemma RefillStops(start: nat, finish: nat)
    requires start <= finish
    ensures (exists k: nat :: IndexAfter(start, k) >= finish) <==> finish <= 255
  {
    if finish <= 255 {
      IndexClimbs(start, finish - start);
      assert IndexAfter(start, finish - start) >= finish;
    }
  }

  /** So a refill hangs exactly when its loop index never reaches the end. */
  lemma HangsExactly(t: Spi)
    requires t.active && t.remaining > 0
    ensures Hangs(t) <==> forall k: nat :: IndexAfter(t.sent, k) < RefillEnd(t)
  {
    RefillStops(t.sent, RefillEnd(t));
  }

  // ---- what every step keeps -----------------------------------------------------------------

  /** A busy transmitter turns requests away exactly as long as the counter of started requests has
      not just wrapped to zero. */
  lemma BusyExactly(t: Spi)
    requires Good(t) && t.initialized && t.active
    ensures CheckReady(t) == TransmitterBusy <==> t.started != 0
  {
  }

  lemma TxBufferKeeps(t: Spi, cs: nat, bytes: seq<byte>, receive: bool)
    requires Good(t) && NotWrapped(t)
    ensures Good(TxBuffer(t, cs, bytes, receive))
    ensures Conserved(t, TxBuffer(t, cs, bytes, receive), if TxBufferStatus(t, cs, bytes) == Success then bytes else [])
  {
    if TxBufferStatus(t, cs, bytes) == Success {
      BeginKeeps(SuppressReceive(t, receive), cs, bytes);
    }
  }

  /** What a new request leaves to write is the request, whatever was pending before. */
  lemma BeginWrites(t: Spi, cs: nat, bytes: seq<byte>)
    requires CheckBuffer(t, |bytes|) == Success
    ensures var t' := Begin(t, cs, bytes);
            && Refillable(t') && t'.written + Pending(t') == t.written + bytes
            && |t.written| <= |t'.written| <= |t.written| + FIFO_SIZE
  {
    var t', now := Begin(t, cs, bytes), Min(|bytes|, FIFO_SIZE);
    assert bytes == bytes[..now] + bytes[now..];
    Assoc(t.written, bytes[..now], bytes[now..]);
    if |bytes| > FIFO_SIZE {
      assert t'.buffer.value[now..|bytes|] == bytes[now..];
    }
  }

  lemma BeginKeeps(t: Spi, cs: nat, bytes: seq<byte>)
    requires Good(t) && !t.active && CheckBuffer(t, |bytes|) == Success
    ensures Good(Begin(t, cs, bytes)) && Conserved(t, Begin(t, cs, bytes), bytes)
  {
    BeginWrites(t, cs, bytes);
    hide Pending;
    GoodFacts(t);
  }

  lemma TxByteKeeps(t: Spi, cs: nat, b: byte, receive: bool)
    requires Good(t) && NotWrapped(t)
    ensures Good(TxByte(t, cs, b, receive))
    ensures Conserved(t, TxByte(t, cs, b, receive), if TxByteStatus(t, cs) == Success then [b] else [])
  {
  }

  lemma TxEmptyKeeps(t: Spi)
    requires Good(t) && !Hangs(t)
    ensures Good(TxEmpty(t)) && Conserved(t, TxEmpty(t), [])
  {
    if t.active && t.remaining > 0 {
      var finish, all := RefillEnd(t), t.sent + t.remaining;
      assert Pending(t) == t.buffer.value[t.sent..finish] + t.buffer.value[finish..all];
      Assoc(t.written, t.buffer.value[t.sent..finish], t.buffer.value[finish..all]);
    }
  }

  // ---- runs ----------------------------------------------------------------------------------

  datatype Event =
    | SendBuffer(cs: nat, bytes: seq<byte>, receive: bool)
    | SendByte(cs: nat, b: byte, receive: bool)
    | EmptyInterrupt

  function Step(t: Spi, e: Event): (t': Spi)
    requires Refillable(t) && !(e.EmptyInterrupt? && Hangs(t))
  {
    match e
    case SendBuffer(cs, bytes, receive) => TxBuffer(t, cs, bytes, receive)
    case SendByte(cs, b, receive) => TxByte(t, cs, b, receive)
    case EmptyInterrupt => TxEmpty(t)
  }

  /** The bytes an event adds to the traffic: those of an accepted request. */
  function Accepted(t: Spi, e: Event): (bytes: seq<byte>)
  {
    match e
    case SendBuffer(cs, bytes, _) => if TxBufferStatus(t, cs, bytes) == Success then bytes else []
    case SendByte(cs, b, _) => if TxByteStatus(t, cs) == Success then [b] else []
    case EmptyInterrupt => []
  }

  /** Requests of at most 255 bytes. */
  predicate Short(e: Event) { e.SendBuffer? ==> |e.bytes| <= 255 }

  /** What keeps every refill within the reach of the loop index. */
  predicate Bounded(t: Spi) { t.remaining > 0 ==> t.sent + t.remaining <= 255 }

  lemma NoHang(t: Spi)
    requires Bounded(t)
    ensures !Hangs(t)
  {
  }

  lemma StepConserves(t: Spi, e: Event)
    requires Good(t) && (if e.EmptyInterrupt? then !Hangs(t) else NotWrapped(t))
    ensures Good(Step(t, e)) && Conserved(t, Step(t, e), Accepted(t, e))
  {
    GoodFacts(t);
    hide Good, Hangs, Conserved, TxBuffer, TxByte, TxEmpty, TxBufferStatus, TxByteStatus, Refillable;
    match e
    case SendBuffer(cs, bytes, receive) => TxBufferKeeps(t, cs, bytes, receive);
    case SendByte(cs, b, receive) => TxByteKeeps(t, cs, b, receive);
    case EmptyInterrupt => TxEmptyKeeps(t);
  }

  lemma StepBounded(t: Spi, e: Event)
    requires Refillable(t) && Bounded(t) && Short(e)
    ensures Bounded(Step(t, e))
  {
    NoHang(t);
  }

  lemma StepCounts(t: Spi, e: Event)
    requires Refillable(t) && !Hangs(t) && t.started + 1 < WORD && NotWrapped(t)
    ensures Step(t, e).started <= t.started + 1 && NotWrapped(Step(t, e))
  {
    hide Refillable, Hangs;
    match e
    case SendBuffer(cs, bytes, receive) => TxBufferCounts(t, cs, bytes, receive);
    case SendByte(cs, b, receive) =>
    case EmptyInterrupt =>
  }

  lemma TxBufferCounts(t: Spi, cs: nat, bytes: seq<byte>, receive: bool)
    requires t.started + 1 < WORD && NotWrapped(t)
    ensures TxBuffer(t, cs, bytes, receive).started <= t.started + 1 && NotWrapped(TxBuffer(t, cs, bytes, receive))
  {
    hide CheckBuffer, ChipSelectValid, Saved, SelectBit;
  }

  /** A run of events with the bytes it accepted; `None` if an interrupt never returned. */
  function Run(t: Spi, events: seq<Event>): (r: Option<(Spi, seq<byte>)>)
  {
    if events == [] then Some((t, []))
    else
      var before :- Run(t, events[..|events| - 1]);
      var e := events[|events| - 1];
      if !Refillable(before.0) || (e.EmptyInterrupt? && Hangs(before.0)) then None
      else Some((Step(before.0, e), before.1 + Accepted(before.0, e)))
  }

  lemma RunNext(t: Spi, events: seq<Event>, e: Event)
    ensures Run(t, events + [e])
         == match Run(t, events)
            case None => None
            case Some((u, accepted)) =>
              if !Refillable(u) || (e.EmptyInterrupt? && Hangs(u)) then None
              else Some((Step(u, e), accepted + Accepted(u, e)))
  {
    assert (events + [e])[..|events + [e]| - 1] == events;
  }

  /** No request is made while the counter of started requests stands wrapped at zero under an active
      one. */
  ghost predicate NeverWrapped(t: Spi, events: seq<Event>) {
    forall i :: 0 <= i < |events| && !events[i].EmptyInterrupt? ==>
      Run(t, events[..i]).Some? && NotWrapped(Run(t, events[..i]).value.0)
  }

  lemma NeverWrappedBefore(t: Spi, events: seq<Event>)
    requires events != [] && NeverWrapped(t, events)
    ensures var before, e := events[..|events| - 1], events[|events| - 1];
            && NeverWrapped(t, before)
            && (!e.EmptyInterrupt? ==> Run(t, before).Some? && NotWrapped(Run(t, before).value.0))
  {
    hide Run, NotWrapped;
    var before := events[..|events| - 1];
    assert forall i :: 0 <= i <= |before| ==> before[..i] == events[..i];
  }

  /** Over every run of short requests and interrupts, of whatever length, no interrupt hangs, and what
      was written followed by what is pending is exactly what was accepted, in order and once each;
      started is one ahead of finished exactly while a request is active. */
  lemma {:induction false} RunConserves(t: Spi, events: seq<Event>)
    requires Good(t) && Bounded(t) && !t.active && NeverWrapped(t, events)
    requires forall i :: 0 <= i < |events| ==> Short(events[i])
    ensures Run(t, events).Some?
    ensures var (t', accepted) := Run(t, events).value;
            && Good(t') && Bounded(t')
            && t'.written + Pending(t') == t.written + accepted
            && (!t'.active ==> t'.written == t.written + accepted)
  {
    if events == [] {
      assert t.written + Pending(t) == t.written + [];
    } else {
      hide Good, Bounded, Pending, Step, Accepted, NeverWrapped;
      var before, e := events[..|events| - 1], events[|events| - 1];
      NeverWrappedBefore(t, events);
      RunConserves(t, before);
      var (u, accepted) := Run(t, before).value;
      GoodFacts(u);
      NoHang(u);
      StepConserves(u, e);
      StepBounded(u, e);
      GoodFacts(Step(u, e));
      Assoc(t.written, accepted, Accepted(u, e));
    }
  }

  /** Fewer than 2^32 events never wrap the counter. */
  lemma {:induction false} FewNeverWrap(t: Spi, events: seq<Event>)
    requires Good(t) && Bounded(t) && !t.active && t.started + |events| < WORD
    requires forall i :: 0 <= i < |events| ==> Short(events[i])
    ensures NeverWrapped(t, events) && Run(t, events).Some?
    ensures var t' := Run(t, events).value.0;
            t'.started <= t.started + |events| && NotWrapped(t')
  {
    if events != [] {
      hide Good, Bounded, Step, Accepted, Refillable, Hangs, NotWrapped, NeverWrapped, Pending;
      var before, e := events[..|events| - 1], events[|events| - 1];
      assert events == before + [e];
      FewNeverWrap(t, before);
      RunConserves(t, before);
      NeverWrappedNext(t, before, e);
      var (u, accepted) := Run(t, before).value;
      GoodFacts(u);
      NoHang(u);
      StepCounts(u, e);
    }
  }

  lemma NeverWrappedNext(t: Spi, before: seq<Event>, e: Event)
    requires NeverWrapped(t, before) && Run(t, before).Some? && NotWrapped(Run(t, before).value.0)
    ensures NeverWrapped(t, before + [e])
  {
    hide Run, NotWrapped;
    assert forall i :: 0 <= i <= |before| ==> (before + [e])[..i] == before[..i];
  }

  /** A buffer request that slips past the busy check at the wrapped counter loses exactly what was
      pending. */
  lemma WrappedRequestExact(t: Spi, cs: nat, bytes: seq<byte>, receive: bool)
    requires Good(t) && !NotWrapped(t) && TxBufferStatus(t, cs, bytes) == Success
    ensures Refillable(TxBuffer(t, cs, bytes, receive))
    ensures var t' := TxBuffer(t, cs, bytes, receive);
            && t'.written + Pending(t') == t.written + bytes
            && (Conserved(t, t', bytes) <==> Pending(t) == [])
  {
    var u := SuppressReceive(AfterCheck(t), receive);
    assert u.written == t.written && TxBuffer(t, cs, bytes, receive) == Begin(u, cs, bytes);
    hide TxBuffer, Begin, SuppressReceive, AfterCheck, TxBufferStatus, CheckBuffer;
    BeginWrites(u, cs, bytes);
    if Pending(t) == [] {
      assert t.written + Pending(t) == t.written;
    } else {
      assert |t.written + Pending(t) + bytes| != |t.written + bytes|;
    }
  }

  predicate AllAre(bytes: seq<byte>, b: byte) { forall x :: x in bytes ==> x == b }

  lemma {:induction false} SwapExact(bytes: seq<byte>, b: byte)
    ensures [b] + bytes == bytes + [b] <==> AllAre(bytes, b)
  {
    if bytes != [] {
      var last, rest := bytes[|bytes| - 1], bytes[..|bytes| - 1];
      assert bytes == rest + [last];
      SwapExact(rest, b);
      if [b] + bytes == bytes + [b] {
        assert last == ([b] + bytes)[|bytes|] == b;
        assert [b] + rest == ([b] + bytes)[..|bytes|];
      }
      if AllAre(bytes, b) {
        assert last in bytes && forall x :: x in rest ==> x in bytes;
        assert [b] + bytes == [b] + rest + [b];
      }
    }
  }

  /** Behind the same prefix, a byte in front of a text reads as the byte behind it only if the text is
      that byte repeated. */
  lemma OvertakingExact(prefix: seq<byte>, bytes: seq<byte>, b: byte)
    ensures prefix + ([b] + bytes) == prefix + (bytes + [b]) <==> AllAre(bytes, b)
  {
    hide AllAre;
    var front, back := [b] + bytes, bytes + [b];
    if prefix + front == prefix + back {
      assert front == (prefix + front)[|prefix|..] && back == (prefix + back)[|prefix|..];
    }
    SwapExact(bytes, b);
  }

  lemma TxByteFacts(t: Spi, cs: nat, b: byte, receive: bool)
    requires Refillable(t) && TxByteStatus(t, cs) == Success
    ensures var t' := TxByte(t, cs, b, receive);
            Refillable(t') && t'.written == t.written + [b] && Pending(t') == Pending(t)
  {
    CheckKeeps(t);
    SelectKeeps(AfterCheck(t), cs, receive);
    hide TxByteStatus, AfterCheck, SuppressReceive, Select, CheckReady;
  }

  /** A single byte that slips past it loses nothing, but it is written in front of what is pending:
      the order stays right only if all of that is the same byte. */
  lemma WrappedByteExact(t: Spi, cs: nat, b: byte, receive: bool)
    requires Good(t) && !NotWrapped(t) && TxByteStatus(t, cs) == Success
    ensures Refillable(TxByte(t, cs, b, receive))
    ensures var t' := TxByte(t, cs, b, receive);
            && t'.written + Pending(t') == t.written + [b] + Pending(t)
            && (Conserved(t, t', [b]) <==> AllAre(Pending(t), b))
  {
    TxByteFacts(t, cs, b, receive);
    hide TxByte, TxByteStatus, Good, NotWrapped, AllAre, Refillable, Pending;
    var t' := TxByte(t, cs, b, receive);
    Assoc(t.written, [b], Pending(t));
    Assoc(t.written, Pending(t), [b]);
    OvertakingExact(t.written, Pending(t), b);
  }

  lemma GoodFacts(t: Spi)
    requires Good(t)
    ensures Refillable(t) && (!t.active ==> t.written + Pending(t) == t.written)
  {
  }

  // ---- one request from start to end ---------------------------------------------------------

  /** How many interrupts a request of `n` bytes takes: one for each filling of the FIFO. */
  function Fillings(n: nat): (k: nat)
    ensures 1 <= k && n <= 32 * k && (k > 1 ==> 32 * (k - 1) < n)
  {
    if n == 0 then 1 else (n + 31) / 32
  }

  /** The state after `k` interrupts; `None` once one of them hangs. */
  function EmptyTimes(t: Spi, k: nat): (r: Option<Spi>)
  {
    if k == 0 then Some(t)
    else
      var before :- EmptyTimes(t, k - 1);
      if !Refillable(before) || Hangs(before) then None else Some(TxEmpty(before))
  }

  function Written(n: nat, k: nat): (m: nat)
    ensures m <= n
  {
    Min(n, FIFO_SIZE * (k + 1))
  }

  /** `t` is what `k` interrupts make of a request for `bytes` that `t0` accepted. */
  ghost predicate Sending(t0: Spi, t: Spi, bytes: seq<byte>, k: nat) {
    var n, m, done := |bytes|, Written(|bytes|, k), k == Fillings(|bytes|);
    && t.written == t0.written + bytes[..m] && t.remaining == n - m
    && (n > FIFO_SIZE ==>
          && t.buffer.Some? && n <= |t.buffer.value| && t.buffer.value[..n] == bytes
          && t.sent == m)
    && t.active == !done
    && t.started == (t0.started + 1) % WORD
    && t.finished == (if done then (t0.finished + 1) % WORD else t0.finished)
    && t.remembered == t0.remembered && (done ==> t.aux == t.remembered)
  }

  lemma SendingStarts(t0: Spi, cs: nat, bytes: seq<byte>, receive: bool)
    requires Good(t0) && !t0.active && TxBufferStatus(t0, cs, bytes) == Success
    ensures Sending(t0, TxBuffer(t0, cs, bytes, receive), bytes, 0)
  {
  }

  lemma SendingRefills(t0: Spi, t: Spi, bytes: seq<byte>, k: nat)
    requires Sending(t0, t, bytes, k) && k < Fillings(|bytes|) && t.remaining > 0
    ensures Refillable(t) && (Hangs(t) <==> Written(|bytes|, k + 1) > 255)
    ensures !Hangs(t) ==> Sending(t0, TxEmpty(t), bytes, k + 1)
  {
    var m, m' := Written(|bytes|, k), Written(|bytes|, k + 1);
    assert m == FIFO_SIZE * (k + 1) && RefillEnd(t) == m';
    if !Hangs(t) {
      var part := t.buffer.value[m..m'];
      assert part == bytes[m..m'] by {
        assert part == t.buffer.value[..|bytes|][m..m'];
      }
      assert bytes[..m] + bytes[m..m'] == bytes[..m'];
      Assoc(t0.written, bytes[..m], bytes[m..m']);
    }
  }

  lemma SendingEnds(t0: Spi, t: Spi, bytes: seq<byte>, k: nat)
    requires Sending(t0, t, bytes, k) && k < Fillings(|bytes|) && t.remaining == 0
    ensures Refillable(t) && !Hangs(t) && k + 1 == Fillings(|bytes|)
    ensures Sending(t0, TxEmpty(t), bytes, k + 1)
  {
  }

  /** One request, interrupt by interrupt: after `k` of them exactly the first `32 * (k + 1)` bytes
      have been written, what was sent and what remains add up to the request, and the transmitter
      goes idle with the last of the fillings and not before.  For requests of more than 255 bytes
      this holds up to the sixth interrupt. */
  lemma {:induction false} RequestRuns(t0: Spi, cs: nat, bytes: seq<byte>, receive: bool, k: nat)
    requires Good(t0) && !t0.active && TxBufferStatus(t0, cs, bytes) == Success
    requires k <= Fillings(|bytes|) && (|bytes| <= 255 || k <= 6)
    ensures EmptyTimes(TxBuffer(t0, cs, bytes, receive), k).Some?
    ensures Sending(t0, EmptyTimes(TxBuffer(t0, cs, bytes, receive), k).value, bytes, k)
  {
    hide TxBuffer, TxBufferStatus, Sending, TxEmpty, Hangs, Good, Fillings, Refillable, Written;
    if k == 0 {
      SendingStarts(t0, cs, bytes, receive);
    } else {
      var j := k - 1;
      RequestRuns(t0, cs, bytes, receive, j);
      var t := EmptyTimes(TxBuffer(t0, cs, bytes, receive), j).value;
      SendingGoesOn(t0, t, bytes, j);
    }
  }

  lemma SendingGoesOn(t0: Spi, t: Spi, bytes: seq<byte>, k: nat)
    requires Sending(t0, t, bytes, k) && k < Fillings(|bytes|) && (|bytes| <= 255 || k < 6)
    ensures Refillable(t) && !Hangs(t) && Sending(t0, TxEmpty(t), bytes, k + 1)
  {
    hide Sending, TxEmpty, Hangs, Fillings;
    if t.remaining > 0 {
      SendingRefills(t0, t, bytes, k);
    } else {
      SendingEnds(t0, t, bytes, k);
    }
  }

  lemma {:induction false} IdleStays(t: Spi, k: nat, j: nat)
    requires EmptyTimes(t, k).Some? && !EmptyTimes(t, k).value.active && EmptyTimes(t, k).value.remaining == 0
    ensures EmptyTimes(t, k + j) == EmptyTimes(t, k)
  {
    if j > 0 {
      var i := j - 1;
      IdleStays(t, k, i);
      assert k + j == (k + i) + 1;
    }
  }

  lemma HangsNext(t: Spi, k: nat)
    requires EmptyTimes(t, k).Some? && Hangs(EmptyTimes(t, k).value)
    ensures EmptyTimes(t, k + 1) == None
  {
  }

  /** An accepted request ends, and returns the transmitter to idle, exactly when it is at most 255
      bytes long; a longer one hangs in the seventh interrupt. */
  lemma RequestEndsExactly(t0: Spi, cs: nat, bytes: seq<byte>, receive: bool)
    requires Good(t0) && !t0.active && TxBufferStatus(t0, cs, bytes) == Success
    ensures (forall k: nat :: EmptyTimes(TxBuffer(t0, cs, bytes, receive), k).Some?) <==> |bytes| <= 255
  {
    hide TxBuffer, TxBufferStatus, Good;
    var t, last := TxBuffer(t0, cs, bytes, receive), Fillings(|bytes|);
    if |bytes| <= 255 {
      RequestRuns(t0, cs, bytes, receive, last);
      forall k: nat
        ensures EmptyTimes(t, k).Some?
      {
        if k <= last {
          RequestRuns(t0, cs, bytes, receive, k);
        } else {
          IdleStays(t, last, k - last);
        }
      }
    } else {
      RequestRuns(t0, cs, bytes, receive, 6);
      SendingRefills(t0, EmptyTimes(t, 6).value, bytes, 6);
      HangsNext(t, 6);
    }
  }

  // ---- refused requests ----------------------------------------------------------------------

  /** A refused request leaves the driver as it was, except that one refused for its buffer has
      already switched receiving off, and that the busy check has cleared the flag of a request whose
      counter had wrapped. */
  lemma RefusalExact(t: Spi, cs: nat, bytes: seq<byte>, receive: bool)
    requires TxBufferStatus(t, cs, bytes) != Success
    ensures TxBuffer(t, cs, bytes, receive) == t
       <==> && !(t.initialized && FalseAlarm(t))
            && (receive || CheckReady(t) != Success || !ChipSelectValid(t.settings, cs) || t.settings.dmaTx
                || t.aux == Deaf(t.remembered))
  {
    hide Deaf, Begin, ChipSelectValid;
  }

  /** Receiving stays off until the transmitter goes idle: no call that wants to receive, and no
      refill, touches the AUX control. */
  lemma SuppressionStays(t: Spi, e: Event)
    requires Refillable(t) && !(e.EmptyInterrupt? && Hangs(t))
    requires if e.EmptyInterrupt? then !t.active || t.remaining > 0 else e.receive
    ensures Step(t, e).aux == t.aux
  {
    hide ChipSelectValid, SelectBit, Begin;
    if e.SendBuffer? && TxBufferStatus(t, e.cs, e.bytes) == Success {
      BeginKeepsAux(AfterCheck(t), e.cs, e.bytes);
    }
  }

  lemma BeginKeepsAux(t: Spi, cs: nat, bytes: seq<byte>)
    requires CheckBuffer(t, |bytes|) == Success
    ensures Begin(t, cs, bytes).aux == t.aux
  {
  }

  // ---- states that show the exceptions -------------------------------------------------------

  const PLAIN := Settings(true, 1, true, false)

  /** After init without a raw buffer, a transmit-only request of 33 bytes is refused, and the next
      request, which wants to receive, is accepted with receiving switched off. */
  lemma RefusalExample(bytes: seq<byte>, b: byte)
    requires |bytes| == 33
    ensures var t := Ready(PLAIN, 0, None);
            var refused := TxBuffer(t, 0, bytes, false);
            && TxBufferStatus(t, 0, bytes) == BufferMissing && refused != t
            && TxByteStatus(refused, 0) == Success && TxByte(refused, 0, b, true).aux == PREVENT_RX
  {
  }

  /** A request of 256 bytes into a buffer of that size is accepted and hangs. */
  lemma LongRequestExample(bytes: seq<byte>)
    requires |bytes| == 256
    ensures var t := Ready(PLAIN, 0, Some(bytes));
            && TxBufferStatus(t, 0, bytes) == Success
            && EmptyTimes(TxBuffer(t, 0, bytes, true), 6).Some?
            && EmptyTimes(TxBuffer(t, 0, bytes, true), 7) == None
  {
    var t := Ready(PLAIN, 0, Some(bytes));
    assert TxBufferStatus(t, 0, bytes) == Success;
    hide TxBuffer, TxBufferStatus, Good;
    RequestRuns(t, 0, bytes, true, 6);
    SendingRefills(t, EmptyTimes(TxBuffer(t, 0, bytes, true), 6).value, bytes, 6);
    HangsNext(TxBuffer(t, 0, bytes, true), 6);
  }

  /** `n` single bytes, each followed by its interrupt. */
  function Singles(n: nat): (events: seq<Event>)
  {
    if n == 0 then [] else Singles(n - 1) + [SendByte(0, 0, true)] + [EmptyInterrupt]
  }

  /** Idle and ready for a single byte. */
  predicate Idle(t: Spi) {
    Good(t) && t.initialized && !t.active && TxByteStatus(t, 0) == Success
  }

  /** The counter after `n` more requests. */
  function Counted(started: nat, n: nat): (c: nat)
  {
    (started + n) % WORD
  }

  lemma CountedNext(started: nat, n: nat)
    requires started < WORD
    ensures Counted(started, 0) == started && (Counted(started, n) + 1) % WORD == Counted(started, n + 1)
  {
  }

  lemma LastCount(n: nat)
    requires n + 1 == WORD
    ensures (Counted(0, n) + 1) % WORD == 0
  {
  }

  lemma {:induction false} SinglesCount(t: Spi, n: nat)
    requires Idle(t) && t.started < WORD
    ensures Run(t, Singles(n)).Some?
    ensures var t' := Run(t, Singles(n)).value.0;
            Idle(t') && t'.started == Counted(t.started, n) && t'.buffer == t.buffer
  {
    hide Idle, Counted, Run;
    CountedNext(t.started, 0);
    if n == 0 {
      NoSingles(t);
    } else {
      SinglesCount(t, n - 1);
      OneMoreSingle(t, Singles(n - 1));
      CountedNext(t.started, n - 1);
    }
  }

  lemma NoSingles(t: Spi)
    ensures Run(t, Singles(0)) == Some((t, []))
  {
  }

  lemma OneMoreSingle(t: Spi, events: seq<Event>)
    requires Run(t, events).Some? && Idle(Run(t, events).value.0)
    ensures Run(t, events + [SendByte(0, 0, true)] + [EmptyInterrupt]).Some?
    ensures var t' := Run(t, events + [SendByte(0, 0, true)] + [EmptyInterrupt]).value.0;
            var u := Run(t, events).value.0;
            Idle(t') && t'.started == (u.started + 1) % WORD && t'.buffer == u.buffer
  {
    hide Idle, TxByte, TxEmpty, Run, Refillable, Hangs, Accepted;
    OneSingle(Run(t, events).value.0);
    RunNext(t, events, SendByte(0, 0, true));
    RunNext(t, events + [SendByte(0, 0, true)], EmptyInterrupt);
  }

  lemma OneSingle(t: Spi)
    requires Idle(t)
    ensures Refillable(t)
    ensures var u := TxByte(t, 0, 0, true);
            && Refillable(u) && !Hangs(u) && u.active && u.started == (t.started + 1) % WORD
            && CheckReady(u) == (if u.started == 0 then Success else TransmitterBusy)
            && Idle(TxEmpty(u)) && TxEmpty(u).started == u.started && TxEmpty(u).buffer == t.buffer
  {
  }

  /** After 2^32 - 1 finished requests from init the next one leaves the counter at zero, and a
      further request is accepted although that one is still active. */
  lemma WrapExample(n: nat)
    requires n + 1 == WORD
    ensures Run(Ready(PLAIN, 0, None), Singles(n) + [SendByte(0, 0, true)]).Some?
    ensures var t := Run(Ready(PLAIN, 0, None), Singles(n) + [SendByte(0, 0, true)]).value.0;
            t.active && t.started == 0 && CheckReady(t) == Success
  {
    var t := Ready(PLAIN, 0, None);
    assert Idle(t) && t.started == 0;
    hide Ready, Idle, TxByte, CheckReady, Refillable, Hangs, Run, Singles, Accepted, Counted;
    LastCount(n);
    SinglesCount(t, n);
    OneSingle(Run(t, Singles(n)).value.0);
    RunNext(t, Singles(n), SendByte(0, 0, true));
  }

  lemma LastRequest(t: Spi, bytes: seq<byte>)
    requires Idle(t) && (t.started + 1) % WORD == 0 && |bytes| == 33 && t.buffer == Some(bytes)
    ensures Refillable(t)
    ensures var u := TxBuffer(t, 0, bytes, true);
            Good(u) && !NotWrapped(u) && TxByteStatus(u, 0) == Success && Pending(u) == [bytes[32]]
  {
  }

  /** There a request of 33 bytes leaves its last one pending, and a single byte sent next overtakes
      it. */
  lemma OvertakeExample(n: nat, bytes: seq<byte>, b: byte)
    requires n + 1 == WORD && |bytes| == 33 && b != bytes[32]
    ensures Run(Ready(PLAIN, 0, Some(bytes)), Singles(n) + [SendBuffer(0, bytes, true)]).Some?
    ensures var t := Run(Ready(PLAIN, 0, Some(bytes)), Singles(n) + [SendBuffer(0, bytes, true)]).value.0;
            && Good(t) && TxByteStatus(t, 0) == Success && Pending(t) == [bytes[32]]
            && !Conserved(t, TxByte(t, 0, b, true), [b])
  {
    var t := Ready(PLAIN, 0, Some(bytes));
    assert Idle(t) && t.started == 0 && t.buffer == Some(bytes);
    hide Ready, Idle, TxBuffer, TxByte, TxByteStatus, Good, Conserved, Refillable, Hangs, Run, Singles, Accepted,
      Counted, Pending, NotWrapped;
    LastCount(n);
    SinglesCount(t, n);
    var u := Run(t, Singles(n)).value.0;
    LastRequest(u, bytes);
    RunNext(t, Singles(n), SendBuffer(0, bytes, true));
    WrappedByteExact(TxBuffer(u, 0, bytes, true), 0, b, true);
    assert bytes[32] in Pending(TxBuffer(u, 0, bytes, true));
  }
}
