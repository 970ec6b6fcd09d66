/** The interrupt-mode master transfer as a state machine.

    `log` is every word the driver wrote to DATA_CMD in this transfer. Of these the first
    `at.executed` have left the TX FIFO, `at.flushed` of them thrown away by an abort. `at.bus` is
    every byte the target sent and `at.incoming` those that found room in the RX FIFO, of which
    the driver read the first `popped`. `at.abort` is the raw abort bit.
    A start pushes first and unmasks the interrupts later; a handler call samples the unmasked
    status bits, clears the interrupts, and then serves what it sampled. Each of these is an
    event of its own, and the controller may be at work between any two of them. */
module I2cTransfer {
  import opened Common
  import opened I2cWords

  datatype Op = Read | Write

  datatype Signal = Success | Nack

  /** What the caller asked for. */
  datatype Request = Request(op: Op, buf: seq<byte>, noStop: bool)

  /** The three sources of the interrupt mask register that a master transfer uses. */
  datatype Mask = Mask(txEmpty: bool, rxFull: bool, txAbort: bool)

  const MASKED := Mask(false, false, false)

  /** How far the controller got with the words and bytes of a transfer. */
  datatype Progress = Progress(executed: nat, flushed: nat, bus: seq<byte>, incoming: seq<byte>, abort: bool)

  /** The controller. `holds` is the control bit that makes it hold the bus while the RX FIFO is
      full; without it a byte that finds the FIFO full is dropped. */
  datatype Controller = Controller(
    depth: nat,
    rxDepth: nat,
    holds: bool,
    mask: Mask,
    log: seq<nat>,
    at: Progress,
    popped: nat)

  /** Where the interrupt handler is, with the status bits it sampled and has not served yet. */
  datatype Handler =
    | Out
    | Sampled(abort: bool, txEmpty: bool, rxFull: bool)
    | Serving(abort: bool, txEmpty: bool, rxFull: bool)

  /** The driver's descriptor with its controller, and the outcomes signalled so far. `starting` is
      before the interrupts are unmasked. */
  datatype Xfer = Xfer(
    op: Op,
    async: bool,
    noStop: bool,
    aborted: bool,
    buf: seq<byte>,
    pos: nat,
    bytesLeft: nat,
    rdCmdsLeft: nat,
    hw: Controller,
    signals: seq<Signal>,
    starting: bool,
    phase: Handler)

  datatype Event =
    | Hw(to: Progress)
    | Unmask
    | Sample
    | Clear
    | TxAbort
    | TxEmpty(pushed: nat, to: Progress)
    | RxFull(pushed: nat, taken: nat, to: Progress)

  // ---------- the controller ----------

  function Lost(p: Progress): int {
    |p.bus| - |p.incoming|
  }

  /** At most one byte has come for each read command that was executed and not flushed, and as
      long as none was dropped they are all in the log of the RX FIFO. */
  predicate Received(op: Op, p: Progress) {
    && p.flushed <= p.executed && |p.bus| <= (if op.Read? then p.executed - p.flushed else 0)
    && 0 <= Lost(p) && (Lost(p) == 0 ==> p.incoming == p.bus)
  }

  /** The controller may get from `c.at` to `to` while the driver reads bytes, or not: words are
      consumed and bytes arrive in order, and a byte is dropped only when the RX FIFO is full.
      An abort comes with a word that fails; while its bit is set, and only then, words are
      flushed. */
  ghost predicate Flows(op: Op, c: Controller, to: Progress) {
    && c.at.executed <= to.executed && c.at.bus <= to.bus && c.at.incoming <= to.incoming
    && c.at.flushed <= to.flushed && Received(op, to)
    && Lost(c.at) <= Lost(to)
    && (Lost(c.at) < Lost(to) ==> !c.holds && |to.incoming| >= c.popped + c.rxDepth)
    && (c.at.abort ==> to.abort)
    && (c.at.flushed < to.flushed ==> to.abort)
    && (to.abort && !c.at.abort ==> c.at.flushed < to.flushed)
  }

  lemma FlowsOn(op: Op, c: Controller, c1: Controller, to: Progress)
    requires Flows(op, c, c1.at) && Flows(op, c1, to)
    requires c1.rxDepth == c.rxDepth && c1.holds == c.holds && c.popped <= c1.popped
    ensures Flows(op, c, to)
  {
  }

  /** The same when the driver reads nothing: then the RX FIFO cannot hold more than its depth. */
  ghost predicate Advances(m: Xfer, to: Progress) {
    && Flows(m.op, m.hw, to) && to.executed <= |m.hw.log|
    && |to.incoming| <= m.hw.popped + m.hw.rxDepth
  }

  function Advanced(m: Xfer, to: Progress): Xfer {
    m.(hw := m.hw.(at := to))
  }

  // ---------- the driver's actions ----------

  ghost predicate Sized(m: Xfer) {
    && m.pos + m.bytesLeft == |m.buf|
    && m.hw.popped <= |m.hw.at.incoming| <= m.hw.popped + m.hw.rxDepth
    && m.hw.at.executed <= |m.hw.log| && Received(m.op, m.hw.at)
  }

  /** `i2c_write_fifo` on the rest of the buffer, `k` words accepted. */
  function PushWrites(m: Xfer, k: nat): Xfer
    requires m.pos + m.bytesLeft == |m.buf| && k <= m.bytesLeft
  {
    Moved(m.(hw := m.hw.(log := m.hw.log + EncodeWrite(m.buf[m.pos..], m.noStop)[..k])), k)
  }

  /** `i2c_enq_read_cmd` for the commands still owed, `k` accepted. */
  function PushReads(m: Xfer, k: nat): Xfer
    requires k <= m.rdCmdsLeft
  {
    m.(hw := m.hw.(log := m.hw.log + EncodeRead(m.rdCmdsLeft, m.noStop)[..k]),
       rdCmdsLeft := m.rdCmdsLeft - ToU16(k))
  }

  function WithMask(m: Xfer, mask: Mask): Xfer {
    m.(hw := m.hw.(mask := mask))
  }

  /** Account for `k` bytes moved, as far as the 16-bit result tells. */
  function Moved(m: Xfer, k: nat): Xfer
    requires k <= m.bytesLeft
  {
    m.(bytesLeft := m.bytesLeft - ToU16(k), pos := m.pos + ToU16(k))
  }

  /** `i2c_read_fifo` into the rest of the buffer, `k` bytes taken. */
  function TakeBytes(m: Xfer, k: nat): Xfer
    requires m.pos + m.bytesLeft == |m.buf| && k <= m.bytesLeft
    requires m.hw.popped + k <= |m.hw.at.incoming|
  {
    var bytes := m.hw.at.incoming[m.hw.popped..m.hw.popped + k];
    Moved(m.(buf := Overlay(m.buf, m.pos, bytes), hw := m.hw.(popped := m.hw.popped + k)), k)
  }

  lemma TakeNone(m: Xfer)
    requires Sized(m)
    ensures TakeBytes(m, 0) == m
  {
    OverlayNothing(m.buf, m.pos);
    assert m.hw.at.incoming[m.hw.popped..m.hw.popped] == [];
  }

  /** Signal success, by the callback (the flags are reset first) or by the semaphore. */
  function Succeed(m: Xfer): Xfer {
    m.(signals := m.signals + [Success], noStop := m.noStop && !m.async)
  }

  function OnTxAbort(m: Xfer): Xfer {
    m.(hw := m.hw.(mask := MASKED), aborted := true, signals := m.signals + [Nack], phase := Out)
  }

  /** How many items the TX_EMPTY branch tries to push. */
  function Wanted(m: Xfer): nat {
    if m.op.Read? then m.rdCmdsLeft else m.bytesLeft
  }

  function OnTxEmpty(m: Xfer, k: nat): Xfer
    requires m.pos + m.bytesLeft == |m.buf| && k <= Wanted(m)
  {
    if m.op.Read? then
      if m.rdCmdsLeft > 0 then PushReads(m, k) else WithMask(m, m.hw.mask.(txEmpty := false))
    else
      if m.bytesLeft > 0 then PushWrites(m, k)
      else Succeed(WithMask(m, m.hw.mask.(txEmpty := false)))
  }

  /** The end of the RX_FULL branch. */
  function Finished(m: Xfer): Xfer {
    if m.bytesLeft == 0 then Succeed(WithMask(m, m.hw.mask.(rxFull := false))) else m
  }

  function OnRxFull(m: Xfer, taken: nat): Xfer
    requires m.pos + m.bytesLeft == |m.buf|
    requires taken <= m.bytesLeft && m.hw.popped + taken <= |m.hw.at.incoming|
  {
    Finished(TakeBytes(m, taken))
  }

  /** `i2c_enable_interrupt` at the end of the start. */
  function Unmasked(m: Xfer): Xfer {
    var mask := m.hw.mask;
    WithMask(m, if m.op.Write? then mask.(txAbort := true, txEmpty := true) else Mask(true, true, true))
      .(starting := false)
  }

  /** The clear after the sample. It removes the abort bit, also one that was not sampled. */
  function Cleared(m: Xfer): Xfer
    requires m.phase.Sampled?
  {
    var p := m.phase;
    m.(hw := m.hw.(at := m.hw.at.(abort := false)), phase := Serving(p.abort, p.txEmpty, p.rxFull))
  }

  // ---------- events ----------

  predicate AbortDue(m: Xfer) {
    m.hw.mask.txAbort && m.hw.at.abort
  }

  predicate TxEmptyDue(m: Xfer) {
    m.hw.mask.txEmpty && m.hw.at.executed == |m.hw.log|
  }

  predicate RxFullDue(m: Xfer) {
    m.hw.mask.rxFull && m.hw.popped < |m.hw.at.incoming|
  }

  /** The FIFO loops stop when the TX FIFO is full, so they never push beyond its depth. */
  ghost predicate FifoRespected(m: Xfer, pushed: nat) {
    pushed > 0 ==> |m.hw.log| - m.hw.at.executed <= m.hw.depth
  }

  /** The TX_EMPTY branch pushes `k` items, at least one if there is any to push. */
  ghost predicate TxEmptyOk(m: Xfer, k: nat, to: Progress)
    requires Sized(m)
  {
    && k <= Wanted(m) && (Wanted(m) > 0 ==> k > 0)
    && Advances(OnTxEmpty(m, k), to)
    && FifoRespected(Advanced(OnTxEmpty(m, k), to), k)
  }

  /** The RX_FULL branch pushes `k` commands and then takes `taken` bytes, at least one if any is
      wanted. */
  ghost predicate RxFullOk(m: Xfer, k: nat, taken: nat, to: Progress) {
    && k <= m.rdCmdsLeft
    && Flows(m.op, m.hw, to) && to.executed <= |PushReads(m, k).hw.log|
    && FifoRespected(Advanced(PushReads(m, k), to), k)
    && taken <= m.bytesLeft && (m.bytesLeft > 0 ==> taken > 0)
    && m.hw.popped + taken <= |to.incoming| <= m.hw.popped + taken + m.hw.rxDepth
  }

  /** What may happen in state `m`. */
  ghost predicate EventOk(m: Xfer, e: Event) {
    && Sized(m)
    && match e
       case Hw(to) => Advances(m, to)
       case Unmask => m.starting && m.phase.Out?
       case Sample => m.phase.Out? && (AbortDue(m) || TxEmptyDue(m) || RxFullDue(m))
       case Clear => m.phase.Sampled?
       case TxAbort => m.phase.Serving? && m.phase.abort
       case TxEmpty(k, to) => m.phase.Serving? && !m.phase.abort && m.phase.txEmpty && TxEmptyOk(m, k, to)
       case RxFull(k, taken, to) =>
         && m.phase.Serving? && !m.phase.abort && !m.phase.txEmpty && m.phase.rxFull
         && RxFullOk(m, k, taken, to)
  }

  /** The state after it. A handler that has served all it sampled is out. */
  ghost function Step(m: Xfer, e: Event): Xfer
    requires EventOk(m, e)
  {
    match e
    case Hw(to) => Advanced(m, to)
    case Unmask => Unmasked(m)
    case Sample => m.(phase := Sampled(AbortDue(m), TxEmptyDue(m), RxFullDue(m)))
    case Clear => Cleared(m)
    case TxAbort => OnTxAbort(m)
    case TxEmpty(k, to) =>
      Advanced(OnTxEmpty(m, k), to).(phase := if m.phase.rxFull then Serving(false, false, true) else Out)
    case RxFull(k, taken, to) =>
      OnRxFull(Advanced(PushReads(m, k), to), taken).(phase := Out)
  }

  /** The descriptor and empty FIFOs as a transfer begins; the interrupt mask is what the last
      transfer left. */
  function Prepared(idle: Xfer, r: Request): Xfer {
    Xfer(r.op, idle.async, r.noStop, false, r.buf, 0, |r.buf|,
         if r.op.Read? then |r.buf| else idle.rdCmdsLeft,
         idle.hw.(log := [], at := Progress(0, 0, [], [], false), popped := 0), [],
         true, Out)
  }

  /** The pushes of `i2c_start_xfer_int_mode`, `k` items accepted. */
  function Pushed(idle: Xfer, r: Request, k: nat): Xfer
    requires k <= |r.buf|
  {
    var m := Prepared(idle, r);
    if r.op.Write? then PushWrites(m, k) else PushReads(m, k)
  }

  /** TX_EMPTY and RX_FULL are masked between transfers, as a success leaves them (lemma
      HaltedRests). */
  predicate Rested(mask: Mask) {
    !mask.txEmpty && !mask.rxFull
  }

  /** The states in which the pushes may leave a transfer that is starting: the controller was at
      work meanwhile, and the TX FIFO is not beyond its depth. */
  ghost predicate Starts(idle: Xfer, r: Request, k: nat, m: Xfer) {
    && k <= |r.buf| && Rested(idle.hw.mask) && Advances(Pushed(idle, r, k), m.hw.at)
    && m == Advanced(Pushed(idle, r, k), m.hw.at)
    && |m.hw.log| - m.hw.at.executed <= m.hw.depth
  }

  // ---------- what every step keeps ----------

  ghost predicate WriteData(m: Xfer, r: Request) {
    && m.buf == r.buf && m.pos <= |r.buf|
    && m.hw.log == EncodeWrite(r.buf, r.noStop)[..m.pos]
    && m.hw.popped == 0
  }

  ghost predicate ReadData(m: Xfer, r: Request) {
    && |m.buf| == |r.buf|
    && |m.hw.log| + m.rdCmdsLeft == |r.buf|
    && m.hw.log == EncodeRead(|r.buf|, r.noStop)[..|m.hw.log|]
    && m.hw.popped == m.pos
    && m.pos <= |m.hw.at.incoming| && m.pos <= |r.buf|
    && m.buf == Overlay(r.buf, 0, m.hw.at.incoming[..m.pos])
  }

  /** The buffer, the counters and the words agree. */
  ghost predicate Data(m: Xfer, r: Request) {
    && r.buf != [] && m.op == r.op && Sized(m)
    && if r.op.Write? then WriteData(m, r) else ReadData(m, r)
  }

  /** The interrupts are unmasked, and no failure has masked them again. */
  predicate Live(m: Xfer) {
    !m.starting && m.hw.mask.txAbort
  }

  /** What may have been signalled before a failure: nothing or success, and before that a
      failure while the transfer was starting. */
  predicate Going(signals: seq<Signal>) {
    signals == [] || signals == [Success] || signals == [Nack] || signals == [Nack, Success]
  }

  predicate Failed(signals: seq<Signal>) {
    signals == [Nack] || signals == [Success, Nack] || signals == [Nack, Nack] || signals == [Nack, Success, Nack]
  }

  predicate SignalsOk(m: Xfer) {
    && (m.aborted <==> Nack in m.signals)
    && (m.starting ==> Rested(m.hw.mask) && (m.signals == [] || (m.signals == [Nack] && !m.hw.mask.txAbort)))
    && (Live(m) ==> Going(m.signals))
    && (!m.starting && !m.hw.mask.txAbort ==> m.hw.mask == MASKED && Failed(m.signals))
  }

  /** What is unmasked is what the transfer still waits for, and success comes at its end. */
  ghost predicate Awaits(m: Xfer, r: Request) {
    && m.noStop == (r.noStop && !(m.async && Success in m.signals))
    && if r.op.Write? then
         && (Success in m.signals ==> m.bytesLeft == 0 && m.hw.at.executed == |m.hw.log| && !m.hw.mask.txEmpty)
         && (Live(m) && Success !in m.signals ==> m.hw.mask.txEmpty)
         && !m.hw.mask.rxFull
       else
         && (Success in m.signals <==> m.bytesLeft == 0)
         && (Success in m.signals ==> !m.hw.mask.rxFull)
         && (Live(m) && Success !in m.signals ==> m.hw.mask.rxFull && (m.rdCmdsLeft > 0 ==> m.hw.mask.txEmpty))
  }

  /** What the handler sampled still holds when it serves it. */
  ghost predicate PhaseOk(m: Xfer) {
    m.phase.Out?
    || (&& (m.phase.abort || m.phase.txEmpty || m.phase.rxFull)
        && (m.phase.abort ==> m.hw.mask.txAbort)
        && (m.phase.txEmpty ==> TxEmptyDue(m)) && (m.phase.rxFull ==> RxFullDue(m)))
  }

  ghost predicate Inv(m: Xfer, r: Request) {
    Data(m, r) && SignalsOk(m) && Awaits(m, r) && PhaseOk(m)
  }

  lemma {:induction false} StartInv(idle: Xfer, r: Request, k: nat, m: Xfer)
    requires 0 < |r.buf| < U16_RANGE && Starts(idle, r, k, m)
    ensures Inv(m, r)
  {
    assert r.buf[0..] == r.buf;
    match r.op
    case Read =>
    case Write =>
  }

  /** In every reachable state the words consumed hold as many read commands as the rule of
      `Received` takes them to. */
  lemma {:induction false} BytesMatchCommands(m: Xfer, r: Request, x: nat)
    requires Data(m, r) && x <= |m.hw.log|
    ensures Reads(m.hw.log[..x]) == if m.op.Read? then x else 0
  {
    if r.op.Write? {
      assert m.hw.log[..x] == EncodeWrite(r.buf, r.noStop)[..x];
      ReadsOfWrite(r.buf, r.noStop, x);
    } else {
      assert m.hw.log[..x] == EncodeRead(|r.buf|, r.noStop)[..x];
      ReadsOfRead(|r.buf|, r.noStop, x);
    }
  }

  lemma {:induction false} HwKeeps(m: Xfer, r: Request, to: Progress)
    requires Inv(m, r) && Advances(m, to)
    ensures Inv(Advanced(m, to), r)
  {
    match r.op
    case Read =>
    case Write =>
  }

  lemma {:induction false} HwInv(m: Xfer, r: Request, to: Progress)
    requires Inv(m, r) && EventOk(m, Hw(to))
    ensures Inv(Step(m, Hw(to)), r)
  {
    HwKeeps(m, r, to);
  }

  lemma {:induction false} UnmaskInv(m: Xfer, r: Request)
    requires Inv(m, r) && EventOk(m, Unmask)
    ensures Inv(Step(m, Unmask), r)
  {
  }

  lemma {:induction false} SampleInv(m: Xfer, r: Request)
    requires Inv(m, r) && EventOk(m, Sample)
    ensures Inv(Step(m, Sample), r)
  {
  }

  lemma {:induction false} ClearInv(m: Xfer, r: Request)
    requires Inv(m, r) && EventOk(m, Clear)
    ensures Inv(Step(m, Clear), r)
  {
    match r.op
    case Read =>
    case Write =>
  }

  lemma {:induction false} AbortInv(m: Xfer, r: Request)
    requires Inv(m, r) && EventOk(m, TxAbort)
    ensures Inv(Step(m, TxAbort), r)
  {
    match r.op
    case Read =>
    case Write =>
  }

  lemma PrefixGrows(words: seq<nat>, p: nat, k: nat)
    requires p + k <= |words|
    ensures words[..p] + words[p..][..k] == words[..p + k]
  {
  }

  lemma {:induction false} PushWritesShape(m: Xfer, r: Request, k: nat)
    requires Data(m, r) && r.op.Write? && m.noStop == r.noStop && k <= m.bytesLeft && k < U16_RANGE
    ensures PushWrites(m, k)
            == m.(bytesLeft := m.bytesLeft - k, pos := m.pos + k,
                  hw := m.hw.(log := EncodeWrite(r.buf, r.noStop)[..m.pos + k]))
  {
    EncodeWriteSuffix(r.buf, r.noStop, m.pos);
    PrefixGrows(EncodeWrite(r.buf, r.noStop), m.pos, k);
  }

  lemma {:induction false} PushReadsShape(m: Xfer, r: Request, k: nat)
    requires Data(m, r) && r.op.Read? && m.noStop == r.noStop && k <= m.rdCmdsLeft && k < U16_RANGE
    ensures PushReads(m, k)
            == m.(rdCmdsLeft := m.rdCmdsLeft - k,
                  hw := m.hw.(log := EncodeRead(|r.buf|, r.noStop)[..|m.hw.log| + k]))
  {
    EncodeReadSuffix(|r.buf|, r.noStop, |m.hw.log|);
    PrefixGrows(EncodeRead(|r.buf|, r.noStop), |m.hw.log|, k);
  }

  /** The phase of the handler after its TX_EMPTY branch. */
  function AfterTxEmpty(p: Handler): Handler {
    if p.Serving? && p.rxFull then Serving(false, false, true) else Out
  }

  /** The transfer after `k` words of a write, or `k` read commands, were pushed. */
  function Fed(m: Xfer, r: Request, k: nat): Xfer
    requires Data(m, r) && k <= Wanted(m)
  {
    if r.op.Write? then
      m.(bytesLeft := m.bytesLeft - k, pos := m.pos + k,
         hw := m.hw.(log := EncodeWrite(r.buf, r.noStop)[..m.pos + k]))
    else
      m.(rdCmdsLeft := m.rdCmdsLeft - k,
         hw := m.hw.(log := EncodeRead(|r.buf|, r.noStop)[..|m.hw.log| + k]))
  }

  lemma {:induction false} FedShape(m: Xfer, r: Request, k: nat)
    requires Data(m, r) && m.noStop == r.noStop && k <= Wanted(m) && k < U16_RANGE && Wanted(m) > 0
    ensures OnTxEmpty(m, k) == Fed(m, r, k)
  {
    if r.op.Write? {
      PushWritesShape(m, r, k);
    } else {
      PushReadsShape(m, r, k);
    }
  }

  lemma {:induction false} FedWriteInv(m: Xfer, r: Request, k: nat)
    requires Inv(m, r) && r.op.Write? && Success !in m.signals && k <= Wanted(m) && m.hw.mask.txEmpty
    ensures Inv(Fed(m, r, k).(phase := AfterTxEmpty(m.phase)), r)
  {
  }

  lemma {:induction false} FedReadInv(m: Xfer, r: Request, k: nat)
    requires Inv(m, r) && r.op.Read? && Success !in m.signals && k <= Wanted(m) && m.hw.mask.txEmpty
    ensures Inv(Fed(m, r, k).(phase := AfterTxEmpty(m.phase)), r)
  {
  }

  /** Nothing is left to push: TX_EMPTY is masked, and a write is done. */
  function Drained(m: Xfer): Xfer {
    var m1 := WithMask(m, m.hw.mask.(txEmpty := false));
    if m.op.Read? then m1 else Succeed(m1)
  }

  lemma {:induction false} DrainedWriteInv(m: Xfer, r: Request)
    requires Inv(m, r) && r.op.Write? && Wanted(m) == 0 && TxEmptyDue(m)
    ensures Inv(Drained(m).(phase := AfterTxEmpty(m.phase)), r)
  {
  }

  lemma {:induction false} DrainedReadInv(m: Xfer, r: Request)
    requires Inv(m, r) && r.op.Read? && Wanted(m) == 0 && TxEmptyDue(m)
    ensures Inv(Drained(m).(phase := AfterTxEmpty(m.phase)), r)
  {
  }

  /** What the TX_EMPTY branch does to the descriptor. */
  lemma {:induction false} OnTxEmptyInv(m: Xfer, r: Request, k: nat)
    requires Inv(m, r) && |r.buf| < U16_RANGE && TxEmptyDue(m) && k <= Wanted(m)
    ensures Inv(OnTxEmpty(m, k).(phase := AfterTxEmpty(m.phase)), r)
  {
    if Wanted(m) > 0 {
      FedShape(m, r, k);
      if r.op.Write? {
        FedWriteInv(m, r, k);
      } else {
        FedReadInv(m, r, k);
      }
    } else if r.op.Write? {
      DrainedWriteInv(m, r);
    } else {
      DrainedReadInv(m, r);
    }
  }

  lemma {:induction false} TxEmptyShape(m: Xfer, k: nat, to: Progress)
    requires EventOk(m, TxEmpty(k, to))
    ensures k <= Wanted(m)
    ensures var m' := OnTxEmpty(m, k).(phase := AfterTxEmpty(m.phase));
            Advances(m', to) && Step(m, TxEmpty(k, to)) == Advanced(m', to)
  {
  }

  lemma {:induction false} TxEmptyInv(m: Xfer, r: Request, k: nat, to: Progress)
    requires Inv(m, r) && |r.buf| < U16_RANGE && EventOk(m, TxEmpty(k, to))
    ensures Inv(Step(m, TxEmpty(k, to)), r)
  {
    TxEmptyShape(m, k, to);
    OnTxEmptyInv(m, r, k);
    HwKeeps(OnTxEmpty(m, k).(phase := AfterTxEmpty(m.phase)), r, to);
  }

  lemma TakeBytesStores(m: Xfer, data: seq<byte>, taken: nat)
    requires |m.buf| == |data| && m.pos + m.bytesLeft == |data|
    requires m.pos == m.hw.popped && m.hw.popped + taken <= |m.hw.at.incoming|
    requires m.buf == Overlay(data, 0, m.hw.at.incoming[..m.pos]) && taken <= m.bytesLeft
    ensures TakeBytes(m, taken).buf == Overlay(data, 0, m.hw.at.incoming[..m.pos + taken])
  {
    var inc, p := m.hw.at.incoming, m.pos;
    assert inc[..p] + inc[p..p + taken] == inc[..p + taken];
    OverlayTwice(data, 0, inc[..p], inc[p..p + taken]);
  }

  lemma {:induction false} TakenShape(m: Xfer, r: Request, to: Progress, taken: nat)
    requires Data(m, r) && r.op.Read? && |r.buf| < U16_RANGE
    requires m.hw.at.incoming <= to.incoming && taken <= m.bytesLeft
    requires m.hw.popped + taken <= |to.incoming|
    ensures TakeBytes(Advanced(m, to), taken)
            == m.(bytesLeft := m.bytesLeft - taken, pos := m.pos + taken,
                  buf := Overlay(r.buf, 0, to.incoming[..m.pos + taken]),
                  hw := m.hw.(at := to, popped := m.pos + taken))
  {
    assert to.incoming[..m.pos] == m.hw.at.incoming[..m.pos];
    TakeBytesStores(Advanced(m, to), r.buf, taken);
  }

  /** The transfer after the pushes and reads of the RX_FULL branch, field by field. */
  function Taken(m: Xfer, r: Request, k: nat, taken: nat, to: Progress): Xfer
    requires Data(m, r) && r.op.Read? && k <= m.rdCmdsLeft
    requires taken <= m.bytesLeft && m.pos + taken <= |to.incoming|
  {
    m.(rdCmdsLeft := m.rdCmdsLeft - k, bytesLeft := m.bytesLeft - taken, pos := m.pos + taken,
       buf := Overlay(r.buf, 0, to.incoming[..m.pos + taken]),
       hw := m.hw.(log := EncodeRead(|r.buf|, r.noStop)[..|m.hw.log| + k], at := to, popped := m.pos + taken))
  }

  lemma {:induction false} RxFullShape(m: Xfer, r: Request, k: nat, taken: nat, to: Progress)
    requires Data(m, r) && r.op.Read? && m.noStop == r.noStop && |r.buf| < U16_RANGE
    requires k <= m.rdCmdsLeft && taken <= m.bytesLeft
    requires m.hw.at.incoming <= to.incoming && m.hw.popped + taken <= |to.incoming|
    ensures |PushReads(m, k).hw.log| == |m.hw.log| + k
    ensures TakeBytes(Advanced(PushReads(m, k), to), taken) == Taken(m, r, k, taken, to)
  {
    PushReadsShape(m, r, k);
    var log := EncodeRead(|r.buf|, r.noStop)[..|m.hw.log| + k];
    var m1 := m.(rdCmdsLeft := m.rdCmdsLeft - k, hw := m.hw.(log := log));
    assert PushReads(m, k) == m1;
    TakenShape(m1, r, to, taken);
  }

  lemma {:induction false} TakenInv(m: Xfer, r: Request, k: nat, taken: nat, to: Progress)
    requires Inv(m, r) && r.op.Read? && k <= m.rdCmdsLeft && taken <= m.bytesLeft && m.hw.mask.rxFull
    requires Received(m.op, to) && to.executed <= |m.hw.log| + k
    requires m.pos + taken <= |to.incoming| <= m.pos + taken + m.hw.rxDepth
    ensures Inv(Finished(Taken(m, r, k, taken, to)).(phase := Out), r)
  {
    if taken == m.bytesLeft {
    } else {
    }
  }

  lemma {:induction false} RxFullInv(m: Xfer, r: Request, k: nat, taken: nat, to: Progress)
    requires Inv(m, r) && |r.buf| < U16_RANGE && EventOk(m, RxFull(k, taken, to))
    ensures Inv(Step(m, RxFull(k, taken, to)), r)
  {
    RxFullShape(m, r, k, taken, to);
    TakenInv(m, r, k, taken, to);
  }

  /** Every step keeps the invariant, for a request whose length fits the 16-bit results. */
  lemma {:induction false} StepInv(m: Xfer, r: Request, e: Event)
    requires Inv(m, r) && EventOk(m, e) && |r.buf| < U16_RANGE
    ensures Inv(Step(m, e), r)
  {
    match e
    case Hw(to) => HwInv(m, r, to);
    case Unmask => UnmaskInv(m, r);
    case Sample => SampleInv(m, r);
    case Clear => ClearInv(m, r);
    case TxAbort => AbortInv(m, r);
    case TxEmpty(k, to) => TxEmptyInv(m, r, k, to);
    case RxFull(k, taken, to) => RxFullInv(m, r, k, taken, to);
  }

  predicate SameRoom(c: Controller, c': Controller) {
    c'.rxDepth == c.rxDepth && c'.holds == c.holds && c'.depth == c.depth
  }

  lemma {:induction false} OnTxEmptyFrame(m: Xfer, k: nat)
    requires m.pos + m.bytesLeft == |m.buf| && k <= Wanted(m)
    ensures var m1 := OnTxEmpty(m, k);
            && m1.op == m.op
            && m1.hw == m.hw.(log := m1.hw.log, mask := m.hw.mask.(txEmpty := m1.hw.mask.txEmpty))
            && m1.aborted == m.aborted && m1.starting == m.starting
            && |m1.hw.log| == |m.hw.log| + k
  {
    match m.op
    case Read =>
      if m.rdCmdsLeft > 0 {
      } else {
      }
    case Write =>
      if m.bytesLeft > 0 {
      } else {
      }
  }

  lemma {:induction false} OnRxFullFrame(m: Xfer, taken: nat)
    requires m.pos + m.bytesLeft == |m.buf|
    requires taken <= m.bytesLeft && m.hw.popped + taken <= |m.hw.at.incoming|
    ensures var m1 := OnRxFull(m, taken);
            && m1.hw == m.hw.(popped := m.hw.popped + taken, mask := m1.hw.mask)
            && m1.aborted == m.aborted
  {
  }

  lemma {:induction false} TxEmptyProgress(m: Xfer, k: nat, to: Progress)
    requires EventOk(m, TxEmpty(k, to))
    ensures var m1 := Step(m, TxEmpty(k, to));
            && m1.hw == m.hw.(log := m1.hw.log, mask := m1.hw.mask, at := to) && m1.aborted == m.aborted
            && Flows(m.op, m.hw, to)
  {
    OnTxEmptyFrame(m, k);
  }

  lemma {:induction false} RxFullProgress(m: Xfer, k: nat, taken: nat, to: Progress)
    requires EventOk(m, RxFull(k, taken, to))
    ensures var m1 := Step(m, RxFull(k, taken, to));
            && m1.hw == m.hw.(log := m1.hw.log, mask := m1.hw.mask, at := to, popped := m1.hw.popped)
            && m1.aborted == m.aborted && Flows(m.op, m.hw, to)
  {
    OnRxFullFrame(Advanced(PushReads(m, k), to), taken);
  }

  /** What a step does to the controller's progress. */
  ghost predicate Progresses(m: Xfer, e: Event, m1: Xfer) {
    match e
    case Hw(to) => m1.hw.at == to && Flows(m.op, m.hw, to)
    case TxEmpty(_, to) => m1.hw.at == to && Flows(m.op, m.hw, to)
    case RxFull(_, _, to) => m1.hw.at == to && Flows(m.op, m.hw, to)
    case Clear => m1.hw.at == m.hw.at.(abort := false)
    case _ => m1.hw.at == m.hw.at
  }

  lemma {:induction false} StepProgress(m: Xfer, e: Event)
    requires EventOk(m, e)
    ensures SameRoom(m.hw, Step(m, e).hw) && Progresses(m, e, Step(m, e))
    ensures Step(m, e).aborted == (m.aborted || e.TxAbort?)
  {
    match e
    case TxEmpty(k, to) => TxEmptyProgress(m, k, to);
    case RxFull(k, taken, to) => RxFullProgress(m, k, taken, to);
    case _ =>
  }

  // ---------- whole runs ----------

  ghost predicate Reaches(m: Xfer, es: seq<Event>, m': Xfer)
    decreases |es|
  {
    if es == [] then m' == m
    else EventOk(m, es[0]) && Reaches(Step(m, es[0]), es[1..], m')
  }

  /** Some run of the request `r`, from some start, leads to `m`. */
  ghost predicate Reachable(idle: Xfer, r: Request, m: Xfer) {
    exists k, m0, es :: Starts(idle, r, k, m0) && Reaches(m0, es, m)
  }

  lemma {:induction false} RunInv(m: Xfer, r: Request, es: seq<Event>, m': Xfer)
    requires Inv(m, r) && Reaches(m, es, m') && |r.buf| < U16_RANGE
    ensures Inv(m', r)
    decreases |es|
  {
    if es != [] {
      StepInv(m, r, es[0]);
      RunInv(Step(m, es[0]), r, es[1..], m');
    }
  }

  lemma {:induction false} ReachableInv(idle: Xfer, r: Request, m: Xfer)
    requires 0 < |r.buf| < U16_RANGE && Reachable(idle, r, m)
    ensures Inv(m, r)
  {
    var k, m0, es :| Starts(idle, r, k, m0) && Reaches(m0, es, m);
    StartInv(idle, r, k, m0);
    RunInv(m0, r, es, m);
  }

  lemma {:induction false} ReachesOne(m: Xfer, e: Event, m': Xfer)
    requires EventOk(m, e) && m' == Step(m, e)
    ensures Reaches(m, [e], m')
  {
    assert [e][1..] == [];
  }

  lemma HeadOfConcat(es1: seq<Event>, es2: seq<Event>)
    requires es1 != []
    ensures (es1 + es2)[0] == es1[0] && (es1 + es2)[1..] == es1[1..] + es2
  {
  }

  /** Runs can be put one behind the other. */
  lemma {:induction false} ReachesThen(m: Xfer, es1: seq<Event>, m1: Xfer, es2: seq<Event>, m2: Xfer)
    requires Reaches(m, es1, m1) && Reaches(m1, es2, m2)
    ensures Reaches(m, es1 + es2, m2)
    decreases |es1|
  {
    if es1 == [] {
      assert es1 + es2 == es2;
    } else {
      HeadOfConcat(es1, es2);
      ReachesThen(Step(m, es1[0]), es1[1..], m1, es2, m2);
    }
  }

  lemma {:induction false} ReachesMore(m: Xfer, es: seq<Event>, m1: Xfer, e: Event, m2: Xfer)
    returns (es2: seq<Event>)
    requires Reaches(m, es, m1) && EventOk(m1, e) && m2 == Step(m1, e)
    ensures Reaches(m, es2, m2)
  {
    ReachesOne(m1, e, m2);
    ReachesThen(m, es, m1, [e], m2);
    es2 := es + [e];
  }

  /** Safety of an interrupt-mode write over every run: what has been pushed is always a prefix
      of the encoding of the caller's buffer, and once success is signalled it is all of it and
      none of it is left in the TX FIFO. */
  lemma {:induction false} WriteRun(idle: Xfer, r: Request, m: Xfer)
    requires r.op.Write? && 0 < |r.buf| < U16_RANGE && Reachable(idle, r, m)
    ensures m.hw.log <= EncodeWrite(r.buf, r.noStop) && m.buf == r.buf
    ensures |m.hw.log| == |r.buf| - m.bytesLeft
    ensures Success in m.signals ==>
              m.hw.log == EncodeWrite(r.buf, r.noStop) && m.hw.at.executed == |m.hw.log|
  {
    ReachableInv(idle, r, m);
  }

  lemma {:induction false} StoredBytes(m: Xfer, r: Request)
    requires Data(m, r) && r.op.Read?
    ensures var stored := |r.buf| - m.bytesLeft;
            && 0 <= stored <= |m.hw.at.incoming| <= |m.hw.at.bus| <= |m.hw.log|
            && m.buf == m.hw.at.incoming[..stored] + r.buf[stored..]
    ensures m.bytesLeft == 0 ==> m.hw.log == EncodeRead(|r.buf|, r.noStop) && m.buf == m.hw.at.bus
  {
    if m.bytesLeft == 0 {
      assert r.buf[m.pos..] == [] && m.hw.at.incoming[..m.pos] == m.hw.at.incoming;
    }
  }

  /** Safety of an interrupt-mode read over every run, whatever the RX FIFO drops and an abort
      flushes: the commands issued are always a prefix of the encoding, never fewer than the bytes
      stored, and the buffer holds the bytes that entered the RX FIFO, in order, followed by what
      it held before. Success is signalled exactly when no byte is left, and then the buffer is
      what the target sent. */
  lemma {:induction false} ReadRun(idle: Xfer, r: Request, m: Xfer)
    requires r.op.Read? && 0 < |r.buf| < U16_RANGE && Reachable(idle, r, m)
    ensures m.hw.log <= EncodeRead(|r.buf|, r.noStop)
    ensures |m.hw.log| == |r.buf| - m.rdCmdsLeft
    ensures var stored := |r.buf| - m.bytesLeft;
            && 0 <= stored <= |m.hw.at.incoming| <= |m.hw.at.bus| <= |m.hw.log|
            && m.buf == m.hw.at.incoming[..stored] + r.buf[stored..]
    ensures Success in m.signals <==> m.bytesLeft == 0
    ensures Success in m.signals ==>
              m.hw.log == EncodeRead(|r.buf|, r.noStop) && m.buf == m.hw.at.bus
  {
    ReachableInv(idle, r, m);
    StoredBytes(m, r);
  }

  // ---------- the limit of the `uint16_t` results ----------

  function Encoded(r: Request): seq<nat> {
    if r.op.Write? then EncodeWrite(r.buf, r.noStop) else EncodeRead(|r.buf|, r.noStop)
  }

  /** The first call of a transfer queues `n` items, and the controller gets to `to` meanwhile. */
  lemma {:induction false} StartsAt(idle: Xfer, r: Request, n: nat, to: Progress) returns (m: Xfer)
    requires n <= |r.buf| && Rested(idle.hw.mask)
    requires Flows(r.op, Prepared(idle, r).hw, to) && to.executed == n && |to.incoming| <= idle.hw.rxDepth
    ensures m == Advanced(Pushed(idle, r, n), to) && Starts(idle, r, n, m) && Sized(m)
    ensures |m.hw.log| == n
  {
    m := Advanced(Pushed(idle, r, n), to);
    match r.op
    case Read =>
    case Write =>
  }

  /** The first call queues everything. */
  lemma {:induction false} StartsWhole(idle: Xfer, r: Request, to: Progress) returns (m: Xfer)
    requires 0 < |r.buf| < U16_RANGE && Rested(idle.hw.mask) && to.executed == |r.buf|
    requires Flows(r.op, Prepared(idle, r).hw, to) && |to.incoming| <= idle.hw.rxDepth
    ensures Starts(idle, r, |r.buf|, m) && Sized(m) && m.op == r.op && Wanted(m) == 0
    ensures m.hw == idle.hw.(log := m.hw.log, at := to, popped := 0) && |m.hw.log| == |r.buf|
    ensures m.starting && m.phase.Out? && m.signals == [] && (r.op.Read? ==> m.bytesLeft == |r.buf|)
  {
    m := StartsAt(idle, r, |r.buf|, to);
    match r.op
    case Read =>
    case Write =>
  }

  /** The start unmasks, and a handler call samples and clears: TX_EMPTY alone is due. */
  lemma {:induction false} ServesTxEmpty(m0: Xfer) returns (es: seq<Event>, m: Xfer)
    requires Sized(m0) && m0.starting && m0.phase.Out? && !m0.hw.at.abort
    requires m0.hw.at.executed == |m0.hw.log| && m0.hw.popped == |m0.hw.at.incoming|
    ensures m == Cleared(Unmasked(m0).(phase := Sampled(false, true, false)))
    ensures Reaches(m0, es, m)
  {
    var m1 := Unmasked(m0);
    var m2 := m1.(phase := Sampled(false, true, false));
    m := Cleared(m2);
    ReachesOne(m0, Unmask, m1);
    es := ReachesMore(m0, [Unmask], m1, Sample, m2);
    es := ReachesMore(m0, es, m2, Clear, m);
  }

  /** The TX_EMPTY branch while the controller rests. */
  lemma {:induction false} TxEmptyEvent(m: Xfer, k: nat) returns (e: Event)
    requires Sized(m) && m.hw.at.executed == |m.hw.log|
    requires m.phase.Serving? && !m.phase.abort && m.phase.txEmpty
    requires k <= Wanted(m) && k <= m.hw.depth && (Wanted(m) > 0 ==> k > 0)
    ensures e == TxEmpty(k, m.hw.at) && EventOk(m, e)
    ensures Step(m, e) == OnTxEmpty(m, k).(phase := AfterTxEmpty(m.phase))
    ensures |Step(m, e).hw.log| == |m.hw.log| + k
  {
    e := TxEmpty(k, m.hw.at);
    OnTxEmptyFrame(m, k);
    var m1 := OnTxEmpty(m, k);
    assert Flows(m1.op, m1.hw, m.hw.at);
    assert Advanced(m1, m.hw.at) == m1;
  }

  /** The same with nothing left to push. */
  lemma {:induction false} DrainEvent(m: Xfer) returns (e: Event, m1: Xfer)
    requires Sized(m) && m.hw.at.executed == |m.hw.log| && Wanted(m) == 0
    requires m.phase.Serving? && !m.phase.abort && m.phase.txEmpty
    ensures EventOk(m, e) && m1 == Step(m, e) && m1 == Drained(m).(phase := AfterTxEmpty(m.phase))
  {
    e := TxEmptyEvent(m, 0);
    m1 := Step(m, e);
  }

  /** A single call may take 65536 words, and the driver counts them as none. */
  lemma {:induction false} PushCanOverflow(idle: Xfer, r: Request) returns (m: Xfer)
    requires |r.buf| >= U16_RANGE && Rested(idle.hw.mask)
    ensures Starts(idle, r, U16_RANGE, m) && |m.hw.log| == U16_RANGE && Wanted(m) == |r.buf|
  {
    m := StartsAt(idle, r, U16_RANGE, Progress(U16_RANGE, 0, [], [], false));
  }

  /** When a single call of a long transfer takes everything, its 16-bit result is short, and the
      next interrupt pushes words again. */
  lemma {:induction false} PushesTooMuch(idle: Xfer, r: Request)
    returns (m0: Xfer, es: seq<Event>, m: Xfer)
    requires |r.buf| >= U16_RANGE && idle.hw.depth > 0 && Rested(idle.hw.mask)
    ensures Starts(idle, r, |r.buf|, m0) && Reaches(m0, es, m) && |m.hw.log| > |Encoded(r)|
  {
    m0 := StartsAt(idle, r, |r.buf|, Progress(|r.buf|, 0, [], [], false));
    var m1;
    es, m1 := ServesTxEmpty(m0);
    var e := TxEmptyEvent(m1, 1);
    m := Step(m1, e);
    es := ReachesMore(m0, es, m1, e, m);
  }

  /** On every run the words pushed are a prefix of the encoding if and only if the length of the
      request fits the 16-bit results of the FIFO functions. */
  lemma {:induction false} RequestFitsIff(idle: Xfer, r: Request)
    requires r.buf != [] && idle.hw.depth > 0 && Rested(idle.hw.mask)
    ensures (forall m | Reachable(idle, r, m) :: m.hw.log <= Encoded(r)) <==> |r.buf| < U16_RANGE
  {
    if |r.buf| < U16_RANGE {
      forall m | Reachable(idle, r, m) ensures m.hw.log <= Encoded(r) {
        ReachableInv(idle, r, m);
      }
    } else {
      var m0, es, m := PushesTooMuch(idle, r);
      assert Reachable(idle, r, m);
    }
  }

  // ---------- the limit of the RX FIFO ----------

  /** Either the controller waits for room, or all bytes of the request fit the RX FIFO. */
  predicate RoomForAll(c: Controller, r: Request) {
    r.op.Write? || c.holds || |r.buf| <= c.rxDepth
  }

  lemma {:induction false} NoLossStep(m: Xfer, r: Request, e: Event)
    requires Inv(m, r) && EventOk(m, e) && |r.buf| < U16_RANGE
    ensures SameRoom(m.hw, Step(m, e).hw) && Lost(m.hw.at) <= Lost(Step(m, e).hw.at)
    ensures m.hw.at.flushed <= Step(m, e).hw.at.flushed
    ensures RoomForAll(m.hw, r) && Lost(m.hw.at) == 0 ==> Lost(Step(m, e).hw.at) == 0
  {
    StepInv(m, r, e);
    StepProgress(m, e);
  }

  lemma {:induction false} NoLossRun(m: Xfer, r: Request, es: seq<Event>, m': Xfer)
    requires Inv(m, r) && Reaches(m, es, m') && |r.buf| < U16_RANGE
    ensures SameRoom(m.hw, m'.hw) && Lost(m.hw.at) <= Lost(m'.hw.at)
    ensures m.hw.at.flushed <= m'.hw.at.flushed
    ensures RoomForAll(m.hw, r) && Lost(m.hw.at) == 0 ==> Lost(m'.hw.at) == 0
    decreases |es|
  {
    if es != [] {
      StepInv(m, r, es[0]);
      NoLossStep(m, r, es[0]);
      NoLossRun(Step(m, es[0]), r, es[1..], m');
    }
  }

  lemma {:induction false} NoLossAtStart(idle: Xfer, r: Request, k: nat, m: Xfer)
    requires 0 < |r.buf| < U16_RANGE && Starts(idle, r, k, m)
    ensures SameRoom(idle.hw, m.hw)
    ensures RoomForAll(idle.hw, r) ==> Lost(m.hw.at) == 0
  {
    StartInv(idle, r, k, m);
  }

  lemma {:induction false} ReachableRoom(idle: Xfer, r: Request, m: Xfer)
    requires 0 < |r.buf| < U16_RANGE && Reachable(idle, r, m)
    ensures Inv(m, r) && SameRoom(idle.hw, m.hw) && (RoomForAll(idle.hw, r) ==> Lost(m.hw.at) == 0)
  {
    var k, m0, es :| Starts(idle, r, k, m0) && Reaches(m0, es, m);
    NoLossAtStart(idle, r, k, m0);
    StartInv(idle, r, k, m0);
    NoLossRun(m0, r, es, m);
    RunInv(m0, r, es, m);
  }

  function Zeros(n: nat): (bytes: seq<byte>)
    ensures |bytes| == n
  {
    if n == 0 then [] else Zeros(n - 1) + [0]
  }

  /** The first call queues every command while the controller works, and all bytes arrive
      before an interrupt is served: those beyond the depth of the RX FIFO are dropped. */
  lemma {:induction false} Overrun(idle: Xfer, r: Request) returns (m0: Xfer)
    requires 0 < |r.buf| < U16_RANGE && !RoomForAll(idle.hw, r) && Rested(idle.hw.mask)
    ensures Starts(idle, r, |r.buf|, m0) && m0.starting && m0.phase.Out? && m0.op.Read?
    ensures var bytes := Zeros(|r.buf|);
            m0.hw.at == Progress(|r.buf|, 0, bytes, bytes[..idle.hw.rxDepth], false)
    ensures m0.rdCmdsLeft == 0 && m0.bytesLeft == |r.buf| && |m0.hw.log| == |r.buf|
    ensures m0.signals == [] && m0.hw.popped == 0 && m0.hw.rxDepth == idle.hw.rxDepth
  {
    var bytes := Zeros(|r.buf|);
    m0 := StartsWhole(idle, r, Progress(|r.buf|, 0, bytes, bytes[..idle.hw.rxDepth], false));
  }

  /** Every run of a request loses no byte if and only if the request is a write, the controller
      holds the bus while the RX FIFO is full, or the bytes all fit the RX FIFO. */
  lemma {:induction false} NoByteLostIff(idle: Xfer, r: Request)
    requires 0 < |r.buf| < U16_RANGE && Rested(idle.hw.mask)
    ensures (forall m | Reachable(idle, r, m) :: m.hw.at.incoming == m.hw.at.bus)
            <==> RoomForAll(idle.hw, r)
  {
    if RoomForAll(idle.hw, r) {
      forall m | Reachable(idle, r, m) ensures m.hw.at.incoming == m.hw.at.bus {
        ReachableRoom(idle, r, m);
      }
    } else {
      var m0 := Overrun(idle, r);
      assert Reaches(m0, [], m0) && Reachable(idle, r, m0);
      assert |m0.hw.at.incoming| < |m0.hw.at.bus|;
    }
  }

  /** Once a byte has been dropped, or a read command flushed, the transfer never succeeds. */
  lemma {:induction false} LossIsForever(m: Xfer, r: Request, es: seq<Event>, m': Xfer)
    requires Inv(m, r) && r.op.Read? && Reaches(m, es, m') && |r.buf| < U16_RANGE
    requires Lost(m.hw.at) > 0 || m.hw.at.flushed > 0
    ensures m'.bytesLeft > 0 && Success !in m'.signals
  {
    RunInv(m, r, es, m');
    NoLossRun(m, r, es, m');
  }

  // ---------- the outcomes ----------

  /** The four signal histories of one transfer: an abort may still arrive after success,
      since completing a transfer does not mask it. */
  predicate OneOutcome(signals: seq<Signal>) {
    signals == [] || signals == [Success] || signals == [Nack] || signals == [Success, Nack]
  }

  /** Success at most once, failure at most once and never before success; and a failure leaves
      all three interrupt sources masked. */
  predicate Clean(m: Xfer) {
    OneOutcome(m.signals) && (Nack in m.signals ==> m.hw.mask == MASKED)
  }

  lemma {:induction false} TxEmptySignals(m: Xfer, r: Request, k: nat)
    requires Inv(m, r) && TxEmptyDue(m) && k <= Wanted(m)
    ensures var m1 := OnTxEmpty(m, k);
            && (m1.signals == m.signals || (m1.signals == m.signals + [Success] && Success !in m.signals))
            && m1.starting == m.starting
  {
    match m.op
    case Read =>
      if m.rdCmdsLeft > 0 {
      } else {
      }
    case Write =>
      if m.bytesLeft > 0 {
      } else {
      }
  }

  lemma {:induction false} RxFullSignals(m: Xfer, k: nat, taken: nat, to: Progress)
    requires Sized(m) && k <= m.rdCmdsLeft && taken <= m.bytesLeft && m.hw.popped + taken <= |to.incoming|
    ensures var m1 := OnRxFull(Advanced(PushReads(m, k), to), taken);
            (m1.signals == m.signals || m1.signals == m.signals + [Success]) && m1.starting == m.starting
  {
  }

  /** What a step signals: a failure when an abort is served, success at most once and only while
      something is unmasked. */
  lemma {:induction false} StepSignals(m: Xfer, r: Request, e: Event)
    requires Inv(m, r) && EventOk(m, e)
    ensures var m1 := Step(m, e);
            match e
            case TxAbort => m1.signals == m.signals + [Nack] && m1.hw.mask == MASKED && m.hw.mask.txAbort
            case Unmask => m1.signals == m.signals
            case _ =>
              && (m1.signals == m.signals || (m1.signals == m.signals + [Success] && Success !in m.signals))
              && (m.hw.mask == MASKED || m.starting ==> m1.signals == m.signals && m1.hw.mask == m.hw.mask)
    ensures Step(m, e).starting == (m.starting && !e.Unmask?)
  {
    match e
    case TxEmpty(k, to) => TxEmptySignals(m, r, k);
    case RxFull(k, taken, to) => RxFullSignals(m, k, taken, to);
    case _ =>
  }

  lemma {:induction false} CleanStep(m: Xfer, r: Request, e: Event)
    requires Inv(m, r) && EventOk(m, e) && |r.buf| < U16_RANGE
    requires Clean(m) && (m.starting ==> m.signals == [] && !m.hw.mask.txAbort)
    ensures var m1 := Step(m, e);
            Clean(m1) && (m1.starting ==> m1.signals == [] && !m1.hw.mask.txAbort)
  {
    StepSignals(m, r, e);
  }

  lemma {:induction false} CleanRun(m: Xfer, r: Request, es: seq<Event>, m': Xfer)
    requires Inv(m, r) && Reaches(m, es, m') && |r.buf| < U16_RANGE
    requires Clean(m) && (m.starting ==> m.signals == [] && !m.hw.mask.txAbort)
    ensures Clean(m')
    decreases |es|
  {
    if es != [] {
      StepInv(m, r, es[0]);
      CleanStep(m, r, es[0]);
      CleanRun(Step(m, es[0]), r, es[1..], m');
    }
  }

  /** While the transfer is starting, a handler call that finds only an abort due. */
  lemma {:induction false} ServesAbort(m0: Xfer) returns (es: seq<Event>, m: Xfer)
    requires Sized(m0) && m0.starting && m0.phase.Out? && Rested(m0.hw.mask) && AbortDue(m0)
    ensures m == OnTxAbort(m0.(hw := m0.hw.(at := m0.hw.at.(abort := false))))
    ensures Reaches(m0, es, m)
  {
    var m1 := m0.(phase := Sampled(true, false, false));
    var m2 := Cleared(m1);
    m := OnTxAbort(m2);
    ReachesOne(m0, Sample, m1);
    es := ReachesMore(m0, [Sample], m1, Clear, m2);
    es := ReachesMore(m0, es, m2, TxAbort, m);
  }

  /** If the last transfer left TX_ABRT unmasked, an abort may be served between the pushes and
      the unmasking. */
  lemma {:induction false} AbortInStart(idle: Xfer, r: Request, n: nat)
    returns (m0: Xfer, es: seq<Event>, m: Xfer)
    requires 0 < n <= |r.buf| && Rested(idle.hw.mask) && idle.hw.mask.txAbort
    ensures Starts(idle, r, n, m0) && Reaches(m0, es, m)
    ensures Sized(m) && m.op == r.op && m.starting && m.phase.Out? && m.signals == [Nack]
    ensures m.hw.at == Progress(n, 1, [], [], false) && |m.hw.log| == n && m.hw.popped == 0
    ensures n == |r.buf| < U16_RANGE ==> Wanted(m) == 0
  {
    m0 := StartsAt(idle, r, n, Progress(n, 1, [], [], true));
    es, m := ServesAbort(m0);
    match r.op
    case Read =>
    case Write =>
  }

  /** Every run of a request signals cleanly if and only if TX_ABRT is masked when it starts. */
  lemma {:induction false} SignalsIff(idle: Xfer, r: Request)
    requires 0 < |r.buf| < U16_RANGE && Rested(idle.hw.mask)
    ensures (forall m | Reachable(idle, r, m) :: Clean(m)) <==> !idle.hw.mask.txAbort
  {
    if idle.hw.mask.txAbort {
      var m0, es, m1 := AbortInStart(idle, r, 1);
      var m := Unmasked(m1);
      es := ReachesMore(m0, es, m1, Unmask, m);
      assert Reachable(idle, r, m) && !Clean(m);
    } else {
      forall m | Reachable(idle, r, m) ensures Clean(m) {
        var k, m0, es :| Starts(idle, r, k, m0) && Reaches(m0, es, m);
        StartInv(idle, r, k, m0);
        CleanRun(m0, r, es, m);
      }
    }
  }

  /** A write can then end with a failure and a success after it. */
  lemma {:induction false} FailureThenSuccess(idle: Xfer, r: Request) returns (m: Xfer)
    requires r.op.Write? && 0 < |r.buf| < U16_RANGE && Rested(idle.hw.mask) && idle.hw.mask.txAbort
    ensures Reachable(idle, r, m) && m.signals == [Nack, Success] && m.hw.at.flushed > 0
  {
    var m0, es1, m1 := AbortInStart(idle, r, |r.buf|);
    var es2, m2 := ServesTxEmpty(m1);
    var e;
    e, m := DrainEvent(m2);
    ReachesThen(m0, es1, m1, es2, m2);
    var es := ReachesMore(m0, es1 + es2, m2, e, m);
  }

  /** A transfer whose last outcome is success leaves TX_ABRT unmasked. */
  lemma {:induction false} SuccessLeavesAbort(idle: Xfer, r: Request, m: Xfer)
    requires 0 < |r.buf| < U16_RANGE && Reachable(idle, r, m)
    requires m.signals != [] && m.signals[|m.signals| - 1] == Success
    ensures m.hw.mask.txAbort && !m.starting
  {
    ReachableInv(idle, r, m);
  }

  // ---------- the no-stop flag ----------

  lemma {:induction false} AsyncKept(m: Xfer, es: seq<Event>, m': Xfer)
    requires Reaches(m, es, m')
    ensures m'.async == m.async
    decreases |es|
  {
    if es != [] {
      AsyncStep(m, es[0]);
      AsyncKept(Step(m, es[0]), es[1..], m');
    }
  }

  lemma {:induction false} AsyncStep(m: Xfer, e: Event)
    requires EventOk(m, e)
    ensures Step(m, e).async == m.async
  {
    match e
    case TxEmpty(k, to) =>
      match m.op {
        case Read =>
        case Write =>
      }
    case RxFull(k, taken, to) =>
    case _ =>
  }

  /** On every run the flag is the caller's, until an asynchronous transfer succeeds; then it is
      reset. */
  lemma {:induction false} NoStopRun(idle: Xfer, r: Request, m: Xfer)
    requires 0 < |r.buf| < U16_RANGE && Reachable(idle, r, m)
    ensures m.noStop == (r.noStop && !(idle.async && Success in m.signals))
  {
    var k, m0, es :| Starts(idle, r, k, m0) && Reaches(m0, es, m);
    AsyncKept(m0, es, m);
    AsyncAtStart(idle, r, k, m0);
    ReachableInv(idle, r, m);
  }

  lemma {:induction false} AsyncAtStart(idle: Xfer, r: Request, k: nat, m: Xfer)
    requires Starts(idle, r, k, m)
    ensures m.async == idle.async
  {
    match r.op
    case Read =>
    case Write =>
  }

  /** So after an asynchronous success the next transfer, which takes the flag as it finds it, ends
      with a STOP, whatever it is. */
  lemma {:induction false} NextStops(idle: Xfer, r: Request, m: Xfer, r': Request)
    requires 0 < |r.buf| < U16_RANGE && Reachable(idle, r, m) && idle.async && Success in m.signals
    requires r'.buf != [] && r'.noStop == m.noStop
    ensures HasStop(Encoded(r')[|r'.buf| - 1])
  {
    NoStopRun(idle, r, m);
    if r'.op.Write? {
      EncodeWriteMeaning(r'.buf, false, |r'.buf| - 1);
    } else {
      EncodeReadMeaning(|r'.buf|, false, |r'.buf| - 1);
    }
  }

  // ---------- aborts the handler does not see ----------

  /** The handler clears an abort that it has not sampled. */
  predicate Misses(m: Xfer, e: Event) {
    e.Clear? && m.hw.at.abort && m.phase.Sampled? && !m.phase.abort
  }

  /** No abort is missed on this run. */
  ghost predicate Heeds(m: Xfer, es: seq<Event>)
    decreases |es|
  {
    es == [] || (EventOk(m, es[0]) && !Misses(m, es[0]) && Heeds(Step(m, es[0]), es[1..]))
  }

  predicate AbortSampled(m: Xfer) {
    !m.phase.Out? && m.phase.abort
  }

  /** Words were flushed if there was an abort, and then it is pending, sampled or signalled. */
  predicate Accounted(m: Xfer) {
    m.hw.at.flushed > 0 ==> m.hw.at.abort || AbortSampled(m) || m.aborted
  }

  predicate AbortsFlush(m: Xfer) {
    m.hw.at.abort || AbortSampled(m) ==> m.hw.at.flushed > 0
  }

  lemma {:induction false} AccountedStep(m: Xfer, e: Event)
    requires EventOk(m, e) && AbortsFlush(m)
    ensures AbortsFlush(Step(m, e)) && (Misses(m, e) ==> m.hw.at.flushed > 0)
    ensures m.hw.at.flushed <= Step(m, e).hw.at.flushed
    ensures Accounted(m) && !Misses(m, e) ==> Accounted(Step(m, e))
  {
    StepProgress(m, e);
  }

  lemma {:induction false} AccountedRun(m: Xfer, es: seq<Event>, m': Xfer)
    requires Reaches(m, es, m') && AbortsFlush(m)
    ensures AbortsFlush(m') && m.hw.at.flushed <= m'.hw.at.flushed
    ensures Accounted(m) && Heeds(m, es) ==> Accounted(m')
    ensures !Heeds(m, es) ==> m'.hw.at.flushed > 0
    decreases |es|
  {
    if es != [] {
      AccountedStep(m, es[0]);
      AccountedRun(Step(m, es[0]), es[1..], m');
    }
  }

  lemma {:induction false} AccountedAtStart(idle: Xfer, r: Request, k: nat, m: Xfer)
    requires Starts(idle, r, k, m)
    ensures AbortsFlush(m) && Accounted(m)
  {
  }

  // ---------- progress ----------

  predicate Stutters(m: Xfer, e: Event) {
    e.Hw? && e.to == m.hw.at
  }

  /** What the controller can still consume, flush and send, of `n` items. */
  function Ahead(n: nat, p: Progress): int {
    (n - p.executed) + (n - |p.bus|) + 2 * (n - p.flushed) + if p.abort then 1 else 0
  }

  /** What is left to unmask and to mask again. */
  function ToMask(mask: Mask, starting: bool): nat {
    (if mask.txEmpty then 1 else 0) + (if mask.txAbort then 1 else 0) + if starting then 3 else 0
  }

  function Todo(m: Xfer): int {
    m.bytesLeft + m.rdCmdsLeft + Ahead(|m.buf|, m.hw.at) + ToMask(m.hw.mask, m.starting)
  }

  /** A handler call takes three events, of which the last does something. */
  function Work(m: Xfer): int {
    3 * Todo(m) + if m.phase.Out? then 2 else if m.phase.Sampled? then 1 else 0
  }

  lemma {:induction false} WorkIsNat(m: Xfer, r: Request)
    requires Inv(m, r)
    ensures 0 <= Work(m)
  {
  }

  lemma {:induction false} FlowsDropsAhead(op: Op, c: Controller, n: nat, to: Progress)
    requires Flows(op, c, to)
    ensures Ahead(n, to) <= Ahead(n, c.at)
    ensures to != c.at ==> Ahead(n, to) < Ahead(n, c.at)
  {
  }

  lemma {:induction false} AdvancedTodo(m: Xfer, to: Progress)
    requires Flows(m.op, m.hw, to)
    ensures Todo(Advanced(m, to)) <= Todo(m)
    ensures to != m.hw.at ==> Todo(Advanced(m, to)) < Todo(m)
  {
    FlowsDropsAhead(m.op, m.hw, |m.buf|, to);
  }

  lemma {:induction false} TakenTodo(m: Xfer, r: Request, k: nat, taken: nat, to: Progress)
    requires Data(m, r) && r.op.Read? && k <= m.rdCmdsLeft && taken <= m.bytesLeft
    requires m.pos + taken <= |to.incoming|
    ensures Todo(Taken(m, r, k, taken, to)) == Todo(Advanced(m, to)) - k - taken
  {
  }

  lemma {:induction false} FinishedTodo(m: Xfer)
    ensures Todo(Finished(m)) == Todo(m)
  {
  }

  lemma {:induction false} OnRxFullTodo(m: Xfer, r: Request, k: nat, taken: nat, to: Progress)
    requires Data(m, r) && r.op.Read? && m.noStop == r.noStop && |r.buf| < U16_RANGE
    requires k <= m.rdCmdsLeft && 0 < taken <= m.bytesLeft
    requires Flows(m.op, m.hw, to) && m.hw.popped + taken <= |to.incoming|
    ensures Todo(OnRxFull(Advanced(PushReads(m, k), to), taken)) < Todo(m)
  {
    RxFullShape(m, r, k, taken, to);
    AdvancedTodo(m, to);
    TakenTodo(m, r, k, taken, to);
    FinishedTodo(Taken(m, r, k, taken, to));
  }

  lemma {:induction false} FedTodo(m: Xfer, r: Request, k: nat)
    requires Data(m, r) && k <= Wanted(m)
    ensures Todo(Fed(m, r, k)) == Todo(m) - k
  {
    match r.op
    case Read =>
    case Write =>
  }

  lemma {:induction false} DrainedTodo(m: Xfer)
    requires m.hw.mask.txEmpty
    ensures Todo(Drained(m)) == Todo(m) - 1
  {
    match m.op
    case Read =>
    case Write =>
  }

  lemma {:induction false} OnTxEmptyTodo(m: Xfer, r: Request, k: nat)
    requires Inv(m, r) && TxEmptyDue(m) && k <= Wanted(m) && |r.buf| < U16_RANGE
    requires Wanted(m) > 0 ==> k > 0
    ensures Todo(OnTxEmpty(m, k)) < Todo(m)
  {
    if Wanted(m) > 0 {
      FedShape(m, r, k);
      FedTodo(m, r, k);
    } else {
      DrainedTodo(m);
    }
  }

  lemma {:induction false} WorkOf(m: Xfer, p: Handler)
    ensures Work(m.(phase := p)) == 3 * Todo(m) + if p.Out? then 2 else if p.Sampled? then 1 else 0
  {
  }

  lemma {:induction false} TxEmptyDropsWork(m: Xfer, r: Request, k: nat, to: Progress)
    requires Inv(m, r) && EventOk(m, TxEmpty(k, to)) && |r.buf| < U16_RANGE
    ensures Work(Step(m, TxEmpty(k, to))) < Work(m)
  {
    OnTxEmptyTodo(m, r, k);
    var m1 := OnTxEmpty(m, k);
    AdvancedTodo(m1, to);
    WorkOf(Advanced(m1, to), AfterTxEmpty(m.phase));
  }

  lemma {:induction false} RxFullDropsWork(m: Xfer, r: Request, k: nat, taken: nat, to: Progress)
    requires Inv(m, r) && EventOk(m, RxFull(k, taken, to)) && |r.buf| < U16_RANGE
    ensures Work(Step(m, RxFull(k, taken, to))) < Work(m)
  {
    OnRxFullTodo(m, r, k, taken, to);
    WorkOf(OnRxFull(Advanced(PushReads(m, k), to), taken), Out);
  }

  lemma {:induction false} DriverDropsWork(m: Xfer, r: Request, e: Event)
    requires Inv(m, r) && EventOk(m, e) && (e.Unmask? || e.Sample? || e.Clear? || e.TxAbort?)
    ensures Work(Step(m, e)) < Work(m)
  {
    match e
    case Unmask =>
    case Sample =>
    case Clear =>
    case TxAbort =>
  }

  /** Every event but a stuttering one uses up some of the work. */
  lemma {:induction false} WorkDrops(m: Xfer, r: Request, e: Event)
    requires Inv(m, r) && EventOk(m, e) && |r.buf| < U16_RANGE && !Stutters(m, e)
    ensures Work(Step(m, e)) < Work(m)
  {
    match e
    case Hw(to) => AdvancedTodo(m, to);
    case TxEmpty(k, to) => TxEmptyDropsWork(m, r, k, to);
    case RxFull(k, taken, to) => RxFullDropsWork(m, r, k, taken, to);
    case _ => DriverDropsWork(m, r, e);
  }

  ghost predicate Busy(m: Xfer, es: seq<Event>)
    decreases |es|
  {
    es == [] || (EventOk(m, es[0]) && !Stutters(m, es[0]) && Busy(Step(m, es[0]), es[1..]))
  }

  /** A run without stuttering is no longer than the work there was. */
  lemma {:induction false} RunsAreShort(m: Xfer, r: Request, es: seq<Event>, m': Xfer)
    requires Inv(m, r) && Reaches(m, es, m') && |r.buf| < U16_RANGE && Busy(m, es)
    ensures |es| <= Work(m) - Work(m') && Inv(m', r)
    decreases |es|
  {
    if es != [] {
      StepInv(m, r, es[0]);
      WorkDrops(m, r, es[0]);
      RunsAreShort(Step(m, es[0]), r, es[1..], m');
    }
  }

  /** Every transfer comes to an end: from its start the work bounds every run. */
  lemma {:induction false} TransferEnds(idle: Xfer, r: Request, k: nat, m0: Xfer, es: seq<Event>, m: Xfer)
    requires 0 < |r.buf| < U16_RANGE && Starts(idle, r, k, m0)
    requires Reaches(m0, es, m) && Busy(m0, es)
    ensures |es| <= Work(m0)
  {
    StartInv(idle, r, k, m0);
    RunsAreShort(m0, r, es, m);
    WorkIsNat(m, r);
  }

  /** An event that needs no further failure on the bus, and changes something. */
  ghost predicate Moves(m: Xfer, e: Event) {
    EventOk(m, e) && !Stutters(m, e) && !(e.Hw? && e.to.abort && !m.hw.at.abort)
  }

  lemma {:induction false} ControllerCanMove(m: Xfer, r: Request) returns (e: Event)
    requires Inv(m, r) && m.hw.at.executed < |m.hw.log|
    ensures Moves(m, e)
  {
    e := Hw(m.hw.at.(executed := m.hw.at.executed + 1));
  }

  lemma {:induction false} ByteCanArrive(m: Xfer, r: Request) returns (e: Event)
    requires Inv(m, r) && r.op.Read? && |m.hw.at.bus| < m.hw.at.executed - m.hw.at.flushed
    requires Lost(m.hw.at) == 0 && m.hw.popped == |m.hw.at.incoming| && m.hw.rxDepth > 0
    ensures Moves(m, e)
  {
    e := Hw(m.hw.at.(bus := m.hw.at.bus + [0], incoming := m.hw.at.incoming + [0]));
  }

  lemma {:induction false} RxFullIsServed(m: Xfer, r: Request) returns (e: Event)
    requires Inv(m, r) && m.phase.Serving? && !m.phase.abort && !m.phase.txEmpty
    ensures Moves(m, e)
  {
    assert r.op.Read? && m.bytesLeft > 0;
    assert PushReads(m, 0).hw.log == m.hw.log;
    e := RxFull(0, 1, m.hw.at);
  }

  /** A handler that has begun can go on. */
  lemma {:induction false} HandlerGoesOn(m: Xfer, r: Request) returns (e: Event)
    requires Inv(m, r) && !m.phase.Out? && m.hw.depth > 0
    ensures Moves(m, e)
  {
    if m.phase.Sampled? {
      e := Clear;
    } else if m.phase.abort {
      e := TxAbort;
    } else if m.phase.txEmpty {
      e := TxEmptyEvent(m, if Wanted(m) > 0 then 1 else 0);
    } else {
      e := RxFullIsServed(m, r);
    }
  }

  /** No unfinished transfer is stuck, unless it is a read that has lost a byte or a command: the
      driver has to unmask or to go on serving, an unmasked interrupt is due, or the controller
      has a word to consume or a byte to receive. */
  lemma {:induction false} NeverStuck(m: Xfer, r: Request) returns (e: Event)
    requires Inv(m, r) && m.signals == [] && m.hw.depth > 0 && m.hw.rxDepth > 0
    requires r.op.Read? ==> Lost(m.hw.at) == 0 && m.hw.at.flushed == 0
    ensures Moves(m, e)
  {
    if !m.phase.Out? {
      e := HandlerGoesOn(m, r);
    } else if m.starting {
      e := Unmask;
    } else if AbortDue(m) || TxEmptyDue(m) || RxFullDue(m) {
      e := Sample;
    } else if m.hw.at.executed < |m.hw.log| {
      e := ControllerCanMove(m, r);
    } else {
      assert r.op.Read? && m.rdCmdsLeft == 0 && m.hw.popped == |m.hw.at.incoming|;
      e := ByteCanArrive(m, r);
    }
  }

  /** Nothing is left to happen, unless a word fails. */
  ghost predicate Halted(m: Xfer) {
    forall e :: !Moves(m, e)
  }

  /** Then the handler is out, the start is over and no interrupt is due. */
  lemma {:induction false} HaltedIsQuiet(m: Xfer, r: Request)
    requires Inv(m, r) && Halted(m) && m.hw.depth > 0
    ensures m.phase.Out? && !m.starting && !AbortDue(m) && !TxEmptyDue(m) && !RxFullDue(m)
    ensures m.hw.at.executed == |m.hw.log|
  {
    if !m.phase.Out? {
      var e := HandlerGoesOn(m, r);
    } else if m.hw.at.executed < |m.hw.log| {
      var e := ControllerCanMove(m, r);
    }
    assert !Moves(m, Unmask) && !Moves(m, Sample);
  }

  /** What a successful transfer leaves, once nothing is left to happen: TX_EMPTY and RX_FULL are
      masked and no abort is pending, as the next start expects. */
  lemma {:induction false} HaltedRests(idle: Xfer, r: Request, m: Xfer)
    requires 0 < |r.buf| < U16_RANGE && Reachable(idle, r, m) && Halted(m) && m.hw.depth > 0
    requires m.signals != [] && m.signals[|m.signals| - 1] == Success
    ensures Rested(m.hw.mask) && m.hw.mask.txAbort && !m.hw.at.abort
  {
    ReachableInv(idle, r, m);
    HaltedIsQuiet(m, r);
  }

  /** So after any success the next request, whatever it is, has runs that do not signal cleanly. */
  lemma {:induction false} NextIsExposed(idle: Xfer, r: Request, m: Xfer, r': Request)
    requires 0 < |r.buf| < U16_RANGE && Reachable(idle, r, m) && Halted(m) && m.hw.depth > 0
    requires m.signals != [] && m.signals[|m.signals| - 1] == Success
    requires 0 < |r'.buf| < U16_RANGE
    ensures !forall m' | Reachable(m, r', m') :: Clean(m')
  {
    HaltedRests(idle, r, m);
    SignalsIff(m, r');
  }

  /** A finished read has lost nothing, unless it failed. */
  lemma {:induction false} FinishedIsWhole(m: Xfer, r: Request)
    requires Inv(m, r) && r.op.Read? && m.signals != [] && !m.aborted
    ensures Lost(m.hw.at) == 0 && m.hw.at.flushed == 0
  {
    assert m.signals[0] != Nack;
  }

  /** A run that cannot go on has signalled an outcome if and only if it is a write, it signalled
      a failure, or it missed no abort and lost no byte. */
  lemma {:induction false} FinishedIff(idle: Xfer, r: Request, k: nat, m0: Xfer, es: seq<Event>, m: Xfer)
    requires 0 < |r.buf| < U16_RANGE && idle.hw.depth > 0 && idle.hw.rxDepth > 0
    requires Starts(idle, r, k, m0) && Reaches(m0, es, m) && Halted(m)
    ensures m.signals != []
            <==> r.op.Write? || Nack in m.signals || (Heeds(m0, es) && Lost(m.hw.at) == 0)
  {
    assert Reachable(idle, r, m);
    ReachableRoom(idle, r, m);
    HaltedIsQuiet(m, r);
    AccountedAtStart(idle, r, k, m0);
    AccountedRun(m0, es, m);
    if m.signals != [] {
      if r.op.Read? && !m.aborted {
        FinishedIsWhole(m, r);
      }
    } else if r.op.Write? || (Heeds(m0, es) && Lost(m.hw.at) == 0) {
      var e := NeverStuck(m, r);
    }
  }

  /** When a run without a failure signal cannot go on, every word reached the bus if and only if
      the run missed no abort. */
  lemma {:induction false} DeliveredIff(idle: Xfer, r: Request, k: nat, m0: Xfer, es: seq<Event>, m: Xfer)
    requires 0 < |r.buf| < U16_RANGE && idle.hw.depth > 0
    requires Starts(idle, r, k, m0) && Reaches(m0, es, m) && Halted(m) && Nack !in m.signals
    ensures m.hw.at.executed == |m.hw.log|
    ensures m.hw.at.flushed == 0 <==> Heeds(m0, es)
  {
    assert Reachable(idle, r, m);
    ReachableRoom(idle, r, m);
    HaltedIsQuiet(m, r);
    AccountedAtStart(idle, r, k, m0);
    AccountedRun(m0, es, m);
  }

  lemma {:induction false} HaltsAt(m: Xfer, r: Request)
    requires Inv(m, r) && m.phase.Out? && !m.starting && m.hw.at.executed == |m.hw.log|
    requires !AbortDue(m) && !TxEmptyDue(m) && !RxFullDue(m)
    requires m.op.Read? ==> |m.hw.at.bus| == m.hw.at.executed - m.hw.at.flushed
    requires !m.hw.at.abort
    ensures Halted(m)
  {
    forall e ensures !Moves(m, e) {
    }
  }

  /** TX_EMPTY is sampled, then a word fails and all words are flushed, and the clear removes the
      abort bit. */
  lemma {:induction false} MissesAbort(m0: Xfer) returns (es: seq<Event>, m: Xfer)
    requires Sized(m0) && m0.starting && m0.phase.Out? && m0.hw.at == Progress(|m0.hw.log|, 0, [], [], false)
    requires |m0.hw.log| > 0
    ensures m == Unmasked(m0).(hw := Unmasked(m0).hw.(at := Progress(|m0.hw.log|, |m0.hw.log|, [], [], false)),
                               phase := Serving(false, true, false))
    ensures Reaches(m0, es, m)
  {
    var n := |m0.hw.log|;
    var m1 := Unmasked(m0);
    var m2 := m1.(phase := Sampled(false, true, false));
    var to := Progress(n, n, [], [], true);
    var m3 := Advanced(m2, to);
    m := Cleared(m3);
    ReachesOne(m0, Unmask, m1);
    es := ReachesMore(m0, [Unmask], m1, Sample, m2);
    es := ReachesMore(m0, es, m2, Hw(to), m3);
    es := ReachesMore(m0, es, m3, Clear, m);
  }

  lemma {:induction false} AbortMissedRun(idle: Xfer, r: Request)
    returns (m0: Xfer, es: seq<Event>, m: Xfer)
    requires 0 < |r.buf| < U16_RANGE && Rested(idle.hw.mask)
    ensures Starts(idle, r, |r.buf|, m0) && Reaches(m0, es, m)
    ensures m.op == r.op && m.phase.Out? && !m.starting && !TxEmptyDue(m)
    ensures m.hw.at == Progress(|r.buf|, |r.buf|, [], [], false) && |m.hw.log| == |r.buf|
    ensures m.hw.depth == idle.hw.depth && m.signals == if r.op.Write? then [Success] else []
  {
    m0 := StartsWhole(idle, r, Progress(|r.buf|, 0, [], [], false));
    var m1;
    es, m1 := MissesAbort(m0);
    var e;
    e, m := DrainEvent(m1);
    es := ReachesMore(m0, es, m1, e, m);
  }

  /** The abort that no handler call sees, when all items have been pushed: a write then signals
      success; a read signals nothing, and nothing is left to happen. */
  lemma {:induction false} AbortMissed(idle: Xfer, r: Request)
    returns (m0: Xfer, es: seq<Event>, m: Xfer)
    requires 0 < |r.buf| < U16_RANGE && idle.hw.depth > 0 && Rested(idle.hw.mask)
    ensures Starts(idle, r, |r.buf|, m0) && Reaches(m0, es, m) && Halted(m) && !Heeds(m0, es)
    ensures m.signals == (if r.op.Write? then [Success] else []) && m.hw.at.flushed == |r.buf|
  {
    m0, es, m := AbortMissedRun(idle, r);
    assert Reachable(idle, r, m);
    ReachableInv(idle, r, m);
    HaltsAt(m, r);
    DeliveredIff(idle, r, |r.buf|, m0, es, m);
  }

  lemma {:induction false} SamplesBoth(m0: Xfer) returns (es: seq<Event>, m: Xfer)
    requires Sized(m0) && m0.op.Read? && m0.starting && m0.phase.Out? && !m0.hw.at.abort
    requires m0.hw.at.executed == |m0.hw.log| && m0.hw.popped < |m0.hw.at.incoming|
    ensures Reaches(m0, es, m) && m == Unmasked(m0).(phase := Serving(false, true, true))
  {
    var m1 := Unmasked(m0);
    var m2 := m1.(phase := Sampled(false, true, true));
    m := Cleared(m2);
    ReachesOne(m0, Unmask, m1);
    es := ReachesMore(m0, [Unmask], m1, Sample, m2);
    es := ReachesMore(m0, es, m2, Clear, m);
  }

  lemma {:induction false} RxFullEvent(m: Xfer, taken: nat) returns (e: Event, m1: Xfer)
    requires Sized(m) && m.phase == Serving(false, false, true) && m.rdCmdsLeft == 0
    requires 0 < taken < m.bytesLeft < U16_RANGE && m.hw.popped + taken == |m.hw.at.incoming|
    ensures EventOk(m, e) && m1 == Step(m, e)
    ensures m1.hw == m.hw.(popped := |m.hw.at.incoming|) && m1.op == m.op && m1.phase == Out
    ensures m1.signals == m.signals && m1.starting == m.starting
  {
    assert PushReads(m, 0) == m;
    e := RxFull(0, taken, m.hw.at);
    m1 := Step(m, e);
  }

  /** TX_EMPTY and RX_FULL are served with nothing left to push, and the RX FIFO is emptied. */
  lemma {:induction false} ServesBoth(m0: Xfer) returns (es: seq<Event>, m: Xfer)
    requires Sized(m0) && m0.op.Read? && m0.starting && m0.phase.Out? && m0.rdCmdsLeft == 0
    requires !m0.hw.at.abort && m0.hw.at.executed == |m0.hw.log| && m0.hw.depth > 0
    requires 0 < |m0.hw.at.incoming| - m0.hw.popped < m0.bytesLeft < U16_RANGE
    ensures Reaches(m0, es, m) && m.signals == m0.signals && !m.starting && m.phase.Out?
    ensures m.hw == m0.hw.(mask := Mask(false, true, true), popped := |m0.hw.at.incoming|) && m.op.Read?
  {
    var m1, e1, m2, e2;
    es, m1 := SamplesBoth(m0);
    e1, m2 := DrainEvent(m1);
    e2, m := RxFullEvent(m2, |m0.hw.at.incoming| - m0.hw.popped);
    es := ReachesMore(m0, es, m1, e1, m2);
    es := ReachesMore(m0, es, m2, e2, m);
  }

  /** After an overrun the driver reads what the RX FIFO holds and masks TX_EMPTY; then nothing
      is left to happen, and no outcome has been signalled. */
  lemma {:induction false} OverrunHangs(idle: Xfer, r: Request)
    returns (m0: Xfer, es: seq<Event>, m: Xfer)
    requires 0 < |r.buf| < U16_RANGE && !RoomForAll(idle.hw, r) && idle.hw.rxDepth > 0
    requires idle.hw.depth > 0 && Rested(idle.hw.mask)
    ensures Starts(idle, r, |r.buf|, m0) && Reaches(m0, es, m) && Heeds(m0, es)
    ensures Halted(m) && m.signals == []
  {
    m0 := Overrun(idle, r);
    es, m := ServesBoth(m0);
    assert Reachable(idle, r, m);
    ReachableInv(idle, r, m);
    HaltsAt(m, r);
    DeliveredIff(idle, r, |r.buf|, m0, es, m);
  }

  /** The same for runs on which no abort is missed. */
  ghost predicate ReachableHeeding(idle: Xfer, r: Request, m: Xfer) {
    exists k, m0, es :: Starts(idle, r, k, m0) && Reaches(m0, es, m) && Heeds(m0, es)
  }

  /** Every run that cannot go on has signalled an outcome if and only if the request is a write. */
  lemma {:induction false} AlwaysFinishesIff(idle: Xfer, r: Request)
    requires 0 < |r.buf| < U16_RANGE && idle.hw.depth > 0 && idle.hw.rxDepth > 0 && Rested(idle.hw.mask)
    ensures (forall m | Reachable(idle, r, m) && Halted(m) :: m.signals != []) <==> r.op.Write?
  {
    if r.op.Write? {
      forall m | Reachable(idle, r, m) && Halted(m) ensures m.signals != [] {
        var k, m0, es :| Starts(idle, r, k, m0) && Reaches(m0, es, m);
        FinishedIff(idle, r, k, m0, es, m);
      }
    } else {
      var m0, es, m := AbortMissed(idle, r);
      assert Reachable(idle, r, m);
    }
  }

  /** If no abort is missed, every run that cannot go on has signalled an outcome if and only if
      no byte can be lost. */
  lemma {:induction false} TransferFinishesIff(idle: Xfer, r: Request)
    requires 0 < |r.buf| < U16_RANGE && idle.hw.depth > 0 && idle.hw.rxDepth > 0 && Rested(idle.hw.mask)
    ensures (forall m | ReachableHeeding(idle, r, m) && Halted(m) :: m.signals != [])
            <==> RoomForAll(idle.hw, r)
  {
    if RoomForAll(idle.hw, r) {
      forall m | ReachableHeeding(idle, r, m) && Halted(m) ensures m.signals != [] {
        var k, m0, es :| Starts(idle, r, k, m0) && Reaches(m0, es, m) && Heeds(m0, es);
        assert Reachable(idle, r, m);
        ReachableRoom(idle, r, m);
        FinishedIff(idle, r, k, m0, es, m);
      }
    } else {
      var m0, es, m := OverrunHangs(idle, r);
      assert ReachableHeeding(idle, r, m);
    }
  }
}
