/** The interrupt-mode master driver: the FIFO loops, the start of a transfer and the master
    branch of the interrupt handler, proved against the state machine of I2cTransfer. */
module I2cMaster {
  import opened Common
  import opened I2cWords
  import opened I2cTransfer

  lemma AppendNext(base: seq<nat>, words: seq<nat>, i: nat)
    requires i < |words|
    ensures base + words[..i] + [words[i]] == base + words[..i + 1]
  {
  }

  /** One more byte stored behind those already taken. */
  lemma StoredNext(buf: seq<byte>, pos: nat, incoming: seq<byte>, i: nat, j: nat)
    requires i <= j < |incoming| && pos + (j - i) < |buf|
    ensures Overlay(buf, pos, incoming[i..j])[pos + (j - i) := incoming[j]]
            == Overlay(buf, pos, incoming[i..j + 1])
  {
    assert incoming[i..j + 1] == incoming[i..j] + [incoming[j]];
    OverlayAppend(buf, pos, incoming[i..j], incoming[j]);
  }

  lemma SameSlice(s: seq<byte>, longer: seq<byte>, i: nat, j: nat)
    requires s <= longer && i <= j <= |s|
    ensures longer[i..j] == s[i..j]
  {
  }

  lemma TakesAt(m: Xfer, k: nat, m1: Xfer, to: Progress)
    requires k <= m.rdCmdsLeft && m1 == Advanced(PushReads(m, k), m1.hw.at)
    ensures Advanced(m1, to) == Advanced(PushReads(m, k), to) && m1.hw.log == PushReads(m, k).hw.log
  {
  }

  /** The two parts of the RX_FULL branch: `k` commands lead from `m` to `m1`, and `taken` bytes from
      there to `m2`. Each loop stops early only on a full or an empty FIFO. */
  ghost predicate RxFullParts(m: Xfer, k: nat, m1: Xfer, taken: nat, m2: Xfer) {
    var to := m2.hw.at;
    && Sized(m) && k <= m.rdCmdsLeft
    && Flows(m.op, m.hw, m1.hw.at) && m1 == Advanced(PushReads(m, k), m1.hw.at)
    && m1.hw.at.executed <= |m1.hw.log| <= m1.hw.at.executed + m1.hw.depth
    && Flows(m1.op, m1.hw, to) && to.executed <= |m1.hw.log|
    && taken <= m.bytesLeft && (m.bytesLeft > 0 ==> taken > 0)
    && m.hw.popped + taken <= |to.incoming| <= m.hw.popped + taken + m.hw.rxDepth
    && m2 == OnRxFull(Advanced(m1, to), taken).(phase := Out)
    && (k == m.rdCmdsLeft || |m1.hw.log| >= m.hw.at.executed + m.hw.depth)
    && (taken == m.bytesLeft || |to.incoming| == m.hw.popped + taken)
  }

  /** All commands owed were queued or the TX FIFO was full; all bytes wanted were taken or the RX
      FIFO was empty. */
  predicate NoneSpared(m: Xfer, k: nat, taken: nat, m2: Xfer) {
    && (k == m.rdCmdsLeft || |m2.hw.log| >= m.hw.at.executed + m.hw.depth)
    && (taken == m.bytesLeft || m2.hw.popped == |m2.hw.at.incoming|)
  }

  /** They make up one event. */
  lemma RxFullInParts(m: Xfer, k: nat, m1: Xfer, taken: nat, m2: Xfer)
    requires m.phase == Serving(false, false, true) && RxFullParts(m, k, m1, taken, m2)
    ensures Reaches(m, [RxFull(k, taken, m2.hw.at)], m2)
    ensures NoneSpared(m, k, taken, m2)
  {
    var to := m2.hw.at;
    FlowsOn(m.op, m.hw, m1.hw, to);
    TakesAt(m, k, m1, to);
    ReachesOne(m, RxFull(k, taken, to), m2);
  }

  /** All that was wanted was pushed, or as much as the TX FIFO holds. */
  predicate PushedAll(m: Xfer, k: nat) {
    k == Wanted(m) || k >= m.hw.depth
  }

  /** The TX_EMPTY branch: `k` items lead from `m` to `m1`, and then the branch is left. */
  ghost predicate TxEmptyParts(m: Xfer, k: nat, m1: Xfer, m2: Xfer) {
    && Sized(m) && m.phase.Serving? && k <= Wanted(m) && PushedAll(m, k)
    && Flows(m.op, m.hw, m1.hw.at) && m1 == Advanced(OnTxEmpty(m, k), m1.hw.at)
    && m1.hw.at.executed <= |m1.hw.log| <= m1.hw.at.executed + m1.hw.depth
    && |m1.hw.at.incoming| <= m1.hw.popped + m1.hw.rxDepth
    && m2 == m1.(phase := AfterTxEmpty(m.phase))
  }

  lemma TxEmptyInParts(m: Xfer, k: nat, m1: Xfer, m2: Xfer)
    requires TxEmptyParts(m, k, m1, m2) && m.hw.depth > 0
    requires !m.phase.abort && m.phase.txEmpty
    ensures Reaches(m, [TxEmpty(k, m2.hw.at)], m2)
    ensures RxFullDue(m) ==> RxFullDue(m2)
  {
    OnTxEmptyFrame(m, k);
    assert Advances(OnTxEmpty(m, k), m1.hw.at);
    ReachesOne(m, TxEmpty(k, m2.hw.at), m2);
  }

  /** Bytes stored and accounted for. */
  lemma TakenInParts(m: Xfer, k: nat, m1: Xfer)
    requires Sized(m) && k <= m.bytesLeft && m.hw.popped + k <= |m1.hw.at.incoming|
    requires m1.hw == m.hw.(at := m1.hw.at, popped := m.hw.popped + k)
    requires m1 == m.(hw := m1.hw, buf := m1.buf, bytesLeft := m.bytesLeft - ToU16(k), pos := m.pos + ToU16(k))
    requires m1.buf == Overlay(m.buf, m.pos, m1.hw.at.incoming[m.hw.popped..m1.hw.popped])
    ensures m1 == TakeBytes(Advanced(m, m1.hw.at), k)
  {
  }

  /** The first push of a transfer, with the controller at work. */
  lemma StartedAt(idle: Xfer, r: Request, k: nat, m: Xfer, m1: Xfer)
    requires k <= |r.buf| && m == Prepared(idle, r) && Rested(idle.hw.mask)
    requires m1 == Advanced(if r.op.Write? then PushWrites(m, k) else PushReads(m, k), m1.hw.at)
    requires Flows(r.op, m.hw, m1.hw.at) && |m1.hw.at.incoming| <= m1.hw.popped + m1.hw.rxDepth
    requires m1.hw.at.executed <= |m1.hw.log| <= m1.hw.at.executed + m1.hw.depth
    ensures Starts(idle, r, k, m1)
  {
    match r.op
    case Read =>
    case Write =>
  }

  class I2cMaster {
    // the driver's descriptor
    var operation: Op
    var isAsync: bool
    var noStop: bool
    var isXferAbort: bool
    var buffer: array<byte>
    var pos: nat // how far the `buffer` pointer has moved
    var bytesLeft: nat
    var rdCmdsLeft: nat
    // the controller's registers
    var hw: Controller
    // semaphore posts or callbacks
    var signals: seq<Signal>
    // how far the start, and a handler call, got
    ghost var starting: bool
    ghost var phase: Handler

    ghost function View(): Xfer
      reads this, buffer
    {
      Xfer(operation, isAsync, noStop, isXferAbort, buffer[..], pos, bytesLeft, rdCmdsLeft,
           hw, signals, starting, phase)
    }

    ghost predicate Valid()
      reads this, buffer
    {
      && hw.depth > 0 && pos + bytesLeft == buffer.Length && HwOk()
    }

    /** The FIFOs hold no more than their depths. */
    ghost predicate HwOk()
      reads this
    {
      && hw.popped <= |hw.at.incoming| <= hw.popped + hw.rxDepth
      && hw.at.executed <= |hw.log| <= hw.at.executed + hw.depth
      && Received(operation, hw.at)
    }

    /** What the controller did since `from` is what it may do. */
    ghost predicate Watched(from: Controller)
      reads this
    {
      && Flows(operation, from, hw.at) && from.popped <= hw.popped
      && hw.rxDepth == from.rxDepth && hw.holds == from.holds
    }

    /** The driver's initialisation leaves the control bit clear that would hold the bus while
        the RX FIFO is full. */
    constructor (depth: nat, rxDepth: nat, isAsync: bool)
      requires depth > 0
      ensures Valid() && hw.depth == depth && hw.rxDepth == rxDepth && !hw.holds
      ensures this.isAsync == isAsync && Rested(hw.mask) && phase.Out? && fresh(buffer)
    {
      this.isAsync := isAsync;
      operation, noStop, isXferAbort, pos, bytesLeft, rdCmdsLeft := Read, false, false, 0, 0, 0;
      hw, signals := Controller(depth, rxDepth, false, MASKED, [], Progress(0, 0, [], [], false), 0), [];
      starting, phase := false, Out;
      buffer := new byte[0];
    }

    /** A byte arrives for a read command: it enters the RX FIFO, or finds it full. */
    method Arrive(b: byte)
      requires HwOk() && operation.Read? && |hw.at.bus| < hw.at.executed - hw.at.flushed
      modifies `hw
      ensures HwOk() && hw == old(hw).(at := hw.at) && Flows(operation, old(hw), hw.at)
    {
      var at := hw.at;
      if |at.incoming| < hw.popped + hw.rxDepth {
        hw := hw.(at := at.(bus := at.bus + [b], incoming := at.incoming + [b]));
      } else if !hw.holds {
        hw := hw.(at := at.(bus := at.bus + [b]));
      }
    }

    /** A word fails, or is flushed after one that failed. */
    method Fail()
      requires HwOk() && |hw.at.bus| < hw.at.executed - hw.at.flushed
      modifies `hw
      ensures HwOk() && hw == old(hw).(at := hw.at) && Flows(operation, old(hw), hw.at)
    {
      hw := hw.(at := hw.at.(flushed := hw.at.flushed + 1, abort := true));
    }

    /** One step of the controller, or none. */
    method HardwareStep()
      requires HwOk()
      modifies `hw
      ensures HwOk() && hw == old(hw).(at := hw.at) && Flows(operation, old(hw), hw.at)
    {
      var what: int := *;
      if what == 0 && hw.at.executed < |hw.log| {
        hw := hw.(at := hw.at.(executed := hw.at.executed + 1));
      } else if what == 1 && operation.Read? && |hw.at.bus| < hw.at.executed - hw.at.flushed {
        var b: byte := *;
        Arrive(b);
      } else if what == 2 && |hw.at.bus| < hw.at.executed - hw.at.flushed {
        Fail();
      }
    }

    /** The controller makes some progress of its own; called at every register read. `from` is
        where the caller began to watch it. */
    method Hardware(ghost from: Controller)
      requires HwOk() && Watched(from)
      modifies `hw
      ensures HwOk() && hw == old(hw).(at := hw.at) && Watched(from)
      ensures old(hw.at.incoming) <= hw.at.incoming
    {
      var n: int := *;
      if n < 0 {
        return;
      }
      for i := 0 to n
        invariant HwOk() && hw == old(hw).(at := hw.at) && Watched(from)
        invariant old(hw.at.incoming) <= hw.at.incoming
      {
        ghost var c := hw;
        HardwareStep();
        FlowsOn(operation, from, c, hw.at);
      }
    }

    /** A write to DATA_CMD while the TX FIFO is not full. */
    method WriteDataCmd(word: nat)
      requires HwOk() && |hw.log| - hw.at.executed < hw.depth
      modifies `hw
      ensures HwOk() && hw == old(hw).(log := old(hw.log) + [word])
    {
      hw := hw.(log := hw.log + [word]);
    }

    /** The word for byte `i` of the rest of the buffer. */
    method WriteWord(i: nat) returns (word: nat)
      requires Valid() && i < bytesLeft
      ensures word == EncodeWrite(buffer[..][pos..], noStop)[i]
    {
      EncodeWriteAt(buffer[..][pos..], noStop, i);
      word := buffer[pos + i];
      if i == bytesLeft - 1 && !noStop {
        word := word + STOP_FLAG;
      }
    }

    /** The word for command `i` of those still owed. */
    method ReadWord(i: nat) returns (word: nat)
      requires i < rdCmdsLeft
      ensures word == EncodeRead(rdCmdsLeft, noStop)[i]
    {
      EncodeReadAt(rdCmdsLeft, noStop, i);
      word := CMD_FLAG;
      if i == rdCmdsLeft - 1 && !noStop {
        word := word + STOP_FLAG;
      }
    }

    /** `i2c_write_fifo` on the rest of the buffer. `k` is how many words were accepted; the
        result is what is left of it in 16 bits. */
    method WriteFifo() returns (written: nat, ghost k: nat)
      requires Valid()
      modifies `hw
      ensures Valid()
      ensures k <= bytesLeft && written == ToU16(k)
      ensures hw == old(hw).(log := old(hw.log) + EncodeWrite(buffer[..][pos..], noStop)[..k], at := hw.at)
      ensures Flows(operation, old(hw), hw.at)
      ensures k < bytesLeft ==> |hw.log| - hw.at.executed == hw.depth
      ensures old(hw.at.executed) == |old(hw.log)| && bytesLeft > 0 ==> k > 0
    {
      ghost var base, words := hw.log, EncodeWrite(buffer[..][pos..], noStop);
      var nwr := 0;
      while nwr < bytesLeft
        invariant HwOk() && nwr <= bytesLeft && Watched(old(hw))
        invariant hw == old(hw).(log := base + words[..nwr], at := hw.at)
      {
        Hardware(old(hw));
        if |hw.log| - hw.at.executed == hw.depth {
          break;
        }
        var word := WriteWord(nwr);
        AppendNext(base, words, nwr);
        WriteDataCmd(word);
        nwr := nwr + 1;
      }
      k := nwr;
      written := ToU16(nwr);
    }

    /** `i2c_enq_read_cmd` for the commands still owed. */
    method EnqueueReads() returns (queued: nat, ghost k: nat)
      requires Valid()
      modifies `hw
      ensures Valid()
      ensures k <= rdCmdsLeft && queued == ToU16(k)
      ensures hw == old(hw).(log := old(hw.log) + EncodeRead(rdCmdsLeft, noStop)[..k], at := hw.at)
      ensures Flows(operation, old(hw), hw.at)
      ensures k < rdCmdsLeft ==> |hw.log| - hw.at.executed == hw.depth
      ensures old(hw.at.executed) == |old(hw.log)| && rdCmdsLeft > 0 ==> k > 0
    {
      ghost var base, words := hw.log, EncodeRead(rdCmdsLeft, noStop);
      var ncmd := 0;
      while ncmd < rdCmdsLeft
        invariant HwOk() && ncmd <= rdCmdsLeft && Watched(old(hw))
        invariant hw == old(hw).(log := base + words[..ncmd], at := hw.at)
      {
        Hardware(old(hw));
        if |hw.log| - hw.at.executed == hw.depth {
          break;
        }
        var word := ReadWord(ncmd);
        AppendNext(base, words, ncmd);
        WriteDataCmd(word);
        ncmd := ncmd + 1;
      }
      k := ncmd;
      queued := ToU16(ncmd);
    }

    /** A read of DATA_CMD while the RX FIFO is not empty, stored at index `to`. */
    method ReadDataCmd(to: nat)
      requires HwOk() && hw.popped < |hw.at.incoming| && to < buffer.Length
      modifies `hw, buffer
      ensures HwOk() && hw == old(hw).(popped := old(hw.popped) + 1)
      ensures buffer[..] == old(buffer[..])[to := hw.at.incoming[old(hw.popped)]]
    {
      buffer[to] := hw.at.incoming[hw.popped];
      hw := hw.(popped := hw.popped + 1);
    }

    /** The same behind the bytes taken since `popped` was `p0`. */
    method StoreNext(to: nat, ghost b0: seq<byte>, ghost p0: nat)
      requires HwOk() && hw.popped < |hw.at.incoming| && p0 <= hw.popped
      requires to == pos + (hw.popped - p0) < buffer.Length == |b0|
      requires buffer[..] == Overlay(b0, pos, hw.at.incoming[p0..hw.popped])
      modifies `hw, buffer
      ensures HwOk() && hw == old(hw).(popped := old(hw.popped) + 1)
      ensures buffer[..] == Overlay(b0, pos, hw.at.incoming[p0..hw.popped])
    {
      StoredNext(b0, pos, hw.at.incoming, p0, hw.popped);
      ReadDataCmd(to);
    }

    /** `i2c_read_fifo` into the rest of the buffer. */
    method ReadFifo() returns (read: nat, ghost k: nat)
      requires Valid()
      modifies `hw, buffer
      ensures Valid()
      ensures k <= bytesLeft && read == ToU16(k)
      ensures hw == old(hw).(at := hw.at, popped := old(hw.popped) + k)
      ensures Flows(operation, old(hw), hw.at)
      ensures buffer[..] == Overlay(old(buffer[..]), pos, hw.at.incoming[old(hw.popped)..hw.popped])
      ensures k < bytesLeft ==> hw.popped == |hw.at.incoming|
      ensures old(hw.popped) < |old(hw.at.incoming)| && bytesLeft > 0 ==> k > 0
    {
      ghost var b0, p0 := buffer[..], hw.popped;
      var nrd := 0;
      OverlayNothing(b0, pos);
      while nrd < bytesLeft
        invariant HwOk() && nrd <= bytesLeft && Watched(old(hw))
        invariant hw == old(hw).(at := hw.at, popped := p0 + nrd)
        invariant buffer[..] == Overlay(b0, pos, hw.at.incoming[p0..hw.popped])
      {
        ghost var before := hw.at.incoming;
        Hardware(old(hw));
        SameSlice(before, hw.at.incoming, p0, hw.popped);
        if hw.popped == |hw.at.incoming| {
          break;
        }
        StoreNext(pos + nrd, b0, p0);
        nrd := nrd + 1;
      }
      k := nrd;
      read := ToU16(nrd);
    }

    /** Push what fits of the rest of the buffer and account for it. */
    method FeedWrites() returns (ghost k: nat)
      requires Valid()
      modifies `hw, `bytesLeft, `pos
      ensures Valid() && k <= old(bytesLeft)
      ensures Flows(operation, old(hw), hw.at)
      ensures View() == Advanced(PushWrites(old(View()), k), hw.at)
      ensures k < old(bytesLeft) ==> |hw.log| >= old(hw.at.executed) + hw.depth
      ensures old(hw.at.executed) == |old(hw.log)| && old(bytesLeft) > 0 ==> k > 0
    {
      var moved;
      moved, k := WriteFifo();
      bytesLeft, pos := bytesLeft - moved, pos + moved;
    }

    /** Queue what fits of the read commands still owed and account for them. */
    method FeedReads() returns (ghost k: nat)
      requires Valid()
      modifies `hw, `rdCmdsLeft
      ensures Valid() && k <= old(rdCmdsLeft)
      ensures Flows(operation, old(hw), hw.at)
      ensures View() == Advanced(PushReads(old(View()), k), hw.at)
      ensures k < old(rdCmdsLeft) ==> |hw.log| >= old(hw.at.executed) + hw.depth
      ensures old(hw.at.executed) == |old(hw.log)| && old(rdCmdsLeft) > 0 ==> k > 0
    {
      k := 0;
      if rdCmdsLeft > 0 {
        var moved;
        moved, k := EnqueueReads();
        rdCmdsLeft := rdCmdsLeft - moved;
      }
    }

    method TakeFromFifo() returns (ghost k: nat)
      requires Valid()
      modifies `hw, `bytesLeft, `pos, buffer
      ensures Valid() && k <= old(bytesLeft) && old(hw.popped) + k <= |hw.at.incoming|
      ensures Flows(operation, old(hw), hw.at) && hw.popped == old(hw.popped) + k
      ensures View() == TakeBytes(Advanced(old(View()), hw.at), k)
      ensures k == old(bytesLeft) || hw.popped == |hw.at.incoming|
      ensures old(hw.popped) < |old(hw.at.incoming)| && old(bytesLeft) > 0 ==> k > 0
    {
      ghost var m := View();
      var moved;
      moved, k := ReadFifo();
      bytesLeft, pos := bytesLeft - moved, pos + moved;
      TakenInParts(m, k, View());
    }

    /** Take what the RX FIFO holds and account for it. */
    method DrainBytes() returns (ghost k: nat)
      requires Valid()
      modifies `hw, `bytesLeft, `pos, buffer
      ensures Valid() && k <= old(bytesLeft) && old(hw.popped) + k <= |hw.at.incoming|
      ensures Flows(operation, old(hw), hw.at) && hw.popped == old(hw.popped) + k
      ensures View() == TakeBytes(Advanced(old(View()), hw.at), k)
      ensures k == old(bytesLeft) || hw.popped == |hw.at.incoming|
      ensures old(hw.popped) < |old(hw.at.incoming)| && old(bytesLeft) > 0 ==> k > 0
    {
      k := 0;
      TakeNone(View());
      if bytesLeft > 0 {
        k := TakeFromFifo();
      }
    }

    /** Empty FIFOs and nothing signalled yet. */
    method Reset()
      modifies `hw, `signals, `starting, `phase
      ensures hw == old(hw).(log := [], at := Progress(0, 0, [], [], false), popped := 0)
      ensures signals == [] && starting && phase == Out
    {
      hw := hw.(log := [], at := Progress(0, 0, [], [], false), popped := 0);
      starting, phase, signals := true, Out, [];
    }

    method Prepare(op: Op, buf: array<byte>)
      requires hw.depth > 0
      modifies this
      ensures Valid() && buffer == buf && bytesLeft == buf.Length
      ensures View() == Prepared(old(View()), Request(op, buf[..], old(noStop)))
    {
      Reset();
      operation, isXferAbort, buffer, pos, bytesLeft := op, false, buf, 0, buf.Length;
      if op.Read? {
        rdCmdsLeft := buf.Length;
      }
    }

    /** The pushes of a start. */
    method Begin(op: Op, buf: array<byte>) returns (ghost k: nat)
      requires hw.depth > 0 && Rested(hw.mask)
      modifies this
      ensures Valid() && buffer == buf && starting && phase.Out?
      ensures Starts(old(View()), Request(op, buf[..], old(noStop)), k, View())
      ensures k == buf.Length || k >= hw.depth
    {
      ghost var r := Request(op, buf[..], noStop);
      Prepare(op, buf);
      ghost var m := View();
      if op.Write? {
        k := FeedWrites();
      } else {
        k := FeedReads();
      }
      StartedAt(old(View()), r, k, m, View());
    }

    /** `i2c_enable_interrupt` at the end of a start. */
    method EnableInterrupts()
      requires Valid() && starting && phase.Out?
      modifies `hw, `starting
      ensures Valid() && !starting && Reaches(old(View()), [Unmask], View())
    {
      if operation.Write? {
        hw := hw.(mask := hw.mask.(txAbort := true, txEmpty := true));
      } else {
        hw := hw.(mask := Mask(true, true, true));
      }
      starting := false;
      ReachesOne(old(View()), Unmask, View());
    }

    /** The handler may be called if an abort is due. */
    method Interrupted() returns (ghost es: seq<Event>)
      requires Valid() && phase.Out?
      modifies `hw, `rdCmdsLeft, `bytesLeft, `pos, `noStop, `isXferAbort, `signals, `phase, buffer
      ensures Valid() && phase.Out? && Reaches(old(View()), es, View()) && |es| in {0, 4}
    {
      es := [];
      var called: bool := *;
      if called && hw.mask.txAbort && hw.at.abort {
        es := Isr();
      }
    }

    /** `i2c_start_xfer_int_mode`. The handler may be called before the interrupts are unmasked. */
    method Start(op: Op, buf: array<byte>) returns (ghost k: nat, ghost m0: Xfer, ghost es: seq<Event>)
      requires hw.depth > 0 && Rested(hw.mask)
      modifies this, buf
      ensures Valid() && buffer == buf && phase.Out? && !starting
      ensures Starts(old(View()), Request(op, old(buf[..]), old(noStop)), k, m0)
      ensures k == buf.Length || k >= old(hw.depth)
      ensures Reaches(m0, es, View()) && |es| in {1, 5} && es[|es| - 1] == Unmask
    {
      k := Begin(op, buf);
      m0 := View();
      ghost var served := Interrupted();
      ghost var m1 := View();
      EnableInterrupts();
      ReachesThen(m0, served, m1, [Unmask], View());
      es := served + [Unmask];
    }

    /** The end of a synchronous call, once its semaphore has been posted: the no-stop flag is reset,
        and the result says whether a failure was signalled. */
    method AfterWait(ghost r: Request) returns (ret: Ret)
      requires Valid() && Inv(View(), r) && signals != []
      modifies `noStop
      ensures Valid() && !noStop && View() == old(View()).(noStop := false)
      ensures ret == if Nack in signals then EIO else OK
      ensures ret == OK && r.op.Read? ==> buffer[..] == hw.at.bus
      ensures ret == OK && r.op.Write? ==> hw.log == EncodeWrite(r.buf, r.noStop) && hw.at.executed == |hw.log|
    {
      if r.op.Read? {
        StoredBytes(View(), r);
      }
      assert signals[0] in {Success, Nack};
      noStop := false;
      ret := if isXferAbort then EIO else OK;
    }

    /** Signal success as the handler does. */
    method SignalSuccess()
      requires Valid()
      modifies `noStop, `signals
      ensures Valid() && View() == Succeed(old(View()))
    {
      if isAsync {
        noStop := false;
      }
      signals := signals + [Success];
    }

    method FinishRead()
      requires Valid()
      modifies `hw, `noStop, `signals
      ensures Valid() && View() == Finished(old(View())) && hw == old(hw).(mask := hw.mask)
    {
      if bytesLeft == 0 {
        hw := hw.(mask := hw.mask.(rxFull := false));
        SignalSuccess();
      }
    }

    ghost predicate AbortRaised()
      reads this
    {
      hw.mask.txAbort && hw.at.abort
    }

    ghost predicate TxEmptyRaised()
      reads this
    {
      hw.mask.txEmpty && hw.at.executed == |hw.log|
    }

    ghost predicate RxFullRaised()
      reads this
    {
      hw.mask.rxFull && hw.popped < |hw.at.incoming|
    }

    /** The handler may serve TX_EMPTY, or RX_FULL. */
    ghost predicate ServesTx()
      reads this
    {
      TxEmptyRaised() && phase.Serving? && !phase.abort && phase.txEmpty
    }

    ghost predicate ServesRx()
      reads this
    {
      RxFullRaised() && phase == Serving(false, false, true)
    }

    /** The work of the TX_EMPTY branch in a read. */
    method FeedOrMaskRead() returns (ghost k: nat)
      requires Valid() && operation.Read?
      modifies `hw, `rdCmdsLeft
      ensures Valid() && k <= old(rdCmdsLeft) && Flows(operation, old(hw), hw.at)
      ensures View() == Advanced(OnTxEmpty(old(View()), k), hw.at)
      ensures old(hw.at.executed) == |old(hw.log)| ==> k == old(rdCmdsLeft) || k >= hw.depth
    {
      k := 0;
      if rdCmdsLeft > 0 {
        k := FeedReads();
      } else {
        hw := hw.(mask := hw.mask.(txEmpty := false));
      }
    }

    /** The same in a write. */
    method FeedOrFinishWrite() returns (ghost k: nat)
      requires Valid() && operation.Write?
      modifies `hw, `bytesLeft, `pos, `noStop, `signals
      ensures Valid() && k <= old(bytesLeft) && Flows(operation, old(hw), hw.at)
      ensures View() == Advanced(OnTxEmpty(old(View()), k), hw.at)
      ensures old(hw.at.executed) == |old(hw.log)| ==> k == old(bytesLeft) || k >= hw.depth
    {
      k := 0;
      if bytesLeft > 0 {
        k := FeedWrites();
      } else {
        hw := hw.(mask := hw.mask.(txEmpty := false));
        SignalSuccess();
      }
    }

    /** The work of the TX_EMPTY branch. */
    method FeedOrMask() returns (ghost k: nat)
      requires Valid()
      modifies `hw, `rdCmdsLeft, `bytesLeft, `pos, `noStop, `signals
      ensures Valid() && k <= Wanted(old(View())) && Flows(operation, old(hw), hw.at)
      ensures View() == Advanced(OnTxEmpty(old(View()), k), hw.at)
      ensures old(hw.at.executed) == |old(hw.log)| ==> PushedAll(old(View()), k)
    {
      if operation.Read? {
        k := FeedOrMaskRead();
      } else {
        k := FeedOrFinishWrite();
      }
    }

    method FeedAndLeave() returns (ghost k: nat, ghost m1: Xfer)
      requires Valid() && TxEmptyRaised() && phase.Serving?
      modifies `hw, `rdCmdsLeft, `bytesLeft, `pos, `noStop, `signals, `phase
      ensures Valid() && TxEmptyParts(old(View()), k, m1, View())
    {
      k := FeedOrMask();
      m1 := View();
      phase := AfterTxEmpty(phase);
    }

    /** The TX_EMPTY branch of the handler. */
    method HandleTxEmpty() returns (ghost e: Event)
      requires Valid() && ServesTx()
      modifies `hw, `rdCmdsLeft, `bytesLeft, `pos, `noStop, `signals, `phase
      ensures Valid() && e.TxEmpty? && Reaches(old(View()), [e], View()) && PushedAll(old(View()), e.pushed)
      ensures phase == AfterTxEmpty(old(phase)) && (RxFullDue(old(View())) ==> RxFullDue(View()))
    {
      ghost var k, m1 := FeedAndLeave();
      e := TxEmpty(k, View().hw.at);
      TxEmptyInParts(old(View()), k, m1, View());
    }

    /** The reads of the RX_FULL branch, and its end. */
    method DrainAndFinish() returns (ghost taken: nat)
      requires Valid()
      modifies `hw, `bytesLeft, `pos, `noStop, `signals, `phase, buffer
      ensures Valid() && phase.Out? && taken <= old(bytesLeft) && old(hw.popped) + taken <= |hw.at.incoming|
      ensures Flows(operation, old(hw), hw.at) && hw.popped == old(hw.popped) + taken && hw.log == old(hw.log)
      ensures View() == OnRxFull(Advanced(old(View()), hw.at), taken).(phase := Out)
      ensures taken == old(bytesLeft) || hw.popped == |hw.at.incoming|
      ensures old(hw.popped) < |old(hw.at.incoming)| && old(bytesLeft) > 0 ==> taken > 0
    {
      taken := DrainBytes();
      FinishRead();
      phase := Out;
    }

    /** The work of the RX_FULL branch. */
    method QueueAndDrain() returns (ghost k: nat, ghost m1: Xfer, ghost taken: nat)
      requires Valid() && RxFullRaised()
      modifies `hw, `rdCmdsLeft, `bytesLeft, `pos, `noStop, `signals, `phase, buffer
      ensures Valid() && phase.Out? && RxFullParts(old(View()), k, m1, taken, View())
    {
      k := FeedReads();
      m1 := View();
      taken := DrainAndFinish();
    }

    /** The RX_FULL branch of the handler. */
    method HandleRxFull() returns (ghost e: Event)
      requires Valid() && ServesRx()
      modifies `hw, `rdCmdsLeft, `bytesLeft, `pos, `noStop, `signals, `phase, buffer
      ensures Valid() && phase.Out?
      ensures e.RxFull? && Reaches(old(View()), [e], View()) && NoneSpared(old(View()), e.pushed, e.taken, View())
    {
      ghost var k, m1, taken := QueueAndDrain();
      e := RxFull(k, taken, hw.at);
      RxFullInParts(old(View()), k, m1, taken, View());
    }

    /** The abort branch of the handler. */
    method HandleAbort()
      requires Valid() && phase.Serving? && phase.abort
      modifies `hw, `isXferAbort, `signals, `phase
      ensures Valid() && phase.Out? && Reaches(old(View()), [TxAbort], View())
    {
      hw := hw.(mask := MASKED);
      isXferAbort := true;
      signals := signals + [Nack];
      phase := Out;
      ReachesOne(old(View()), TxAbort, View());
    }

    /** `i2c_get_interrupt_status`: a status bit is the masked condition. */
    method Sample() returns (abort: bool, txEmpty: bool, rxFull: bool)
      requires Valid() && phase.Out? && (AbortRaised() || TxEmptyRaised() || RxFullRaised())
      modifies `phase
      ensures Valid() && Reaches(old(View()), [Event.Sample], View())
      ensures abort == AbortRaised() && txEmpty == TxEmptyRaised() && rxFull == RxFullRaised()
      ensures phase == Sampled(abort, txEmpty, rxFull)
    {
      abort := hw.mask.txAbort && hw.at.abort;
      txEmpty := hw.mask.txEmpty && hw.at.executed == |hw.log|;
      rxFull := hw.mask.rxFull && hw.popped < |hw.at.incoming|;
      phase := Sampled(abort, txEmpty, rxFull);
      ReachesOne(old(View()), Event.Sample, View());
    }

    /** What the controller does between the sample and the clear. */
    method Meanwhile() returns (ghost e: Event)
      requires Valid()
      modifies `hw
      ensures Valid() && e.Hw? && Reaches(old(View()), [e], View())
      ensures hw == old(hw).(at := hw.at) && old(hw.at.incoming) <= hw.at.incoming
      ensures old(hw.at.executed) == |hw.log| ==> hw.at.executed == |hw.log|
    {
      Hardware(hw);
      e := Hw(hw.at);
      ReachesOne(old(View()), e, View());
    }

    /** `i2c_clear_interrupt`: it removes the abort bit, sampled or not. */
    method Clear()
      requires Valid() && phase.Sampled?
      modifies `hw, `phase
      ensures Valid() && Reaches(old(View()), [Event.Clear], View())
      ensures phase == Serving(old(phase.abort), old(phase.txEmpty), old(phase.rxFull))
      ensures hw == old(hw).(at := old(hw.at).(abort := false))
    {
      hw := hw.(at := hw.at.(abort := false));
      phase := Serving(phase.abort, phase.txEmpty, phase.rxFull);
      ReachesOne(old(View()), Event.Clear, View());
    }

    /** The status is sampled first and the interrupts are cleared after that. */
    method SampleAndClear() returns (abort: bool, txEmpty: bool, rxFull: bool, ghost es: seq<Event>)
      requires Valid() && phase.Out? && (AbortRaised() || TxEmptyRaised() || RxFullRaised())
      modifies `hw, `phase
      ensures Valid() && Reaches(old(View()), es, View())
      ensures |es| == 3 && es[0] == Event.Sample && es[1].Hw? && es[2] == Event.Clear
      ensures abort == old(AbortRaised()) && txEmpty == old(TxEmptyRaised()) && rxFull == old(RxFullRaised())
      ensures phase == Serving(abort, txEmpty, rxFull)
      ensures (txEmpty ==> TxEmptyRaised()) && (rxFull ==> RxFullRaised())
    {
      ghost var m := View();
      abort, txEmpty, rxFull := Sample();
      ghost var m1 := View();
      ghost var e := Meanwhile();
      ghost var m2 := View();
      Clear();
      ReachesThen(m, [Event.Sample], m1, [e], m2);
      ReachesThen(m, [Event.Sample] + [e], m2, [Event.Clear], View());
      es := [Event.Sample] + [e] + [Event.Clear];
    }

    /** The branches for the two other status bits. */
    method ServeFifos(txEmpty: bool, rxFull: bool) returns (ghost es: seq<Event>)
      requires Valid() && phase == Serving(false, txEmpty, rxFull) && (txEmpty || rxFull)
      requires (txEmpty ==> TxEmptyRaised()) && (rxFull ==> RxFullRaised())
      modifies `hw, `rdCmdsLeft, `bytesLeft, `pos, `noStop, `signals, `phase, buffer
      ensures Valid() && phase.Out?
      ensures Reaches(old(View()), es, View()) && Serves(es, txEmpty, rxFull)
    {
      ghost var m := View();
      es := [];
      if txEmpty {
        ghost var first := HandleTxEmpty();
        es := [first];
      }
      if rxFull {
        ghost var m1 := View();
        ghost var second := HandleRxFull();
        ReachesThen(m, es, m1, [second], View());
        es := es + [second];
      }
    }

    /** The master branch of `i2c_isr`, called while an interrupt is raised. It is a run of the
        state machine: the sample, what the controller does until the clear, the clear, and then
        the abort alone, or one event for each of the other two bits. */
    method Isr() returns (ghost es: seq<Event>)
      requires Valid() && phase.Out? && (AbortRaised() || TxEmptyRaised() || RxFullRaised())
      modifies `hw, `rdCmdsLeft, `bytesLeft, `pos, `noStop, `isXferAbort, `signals, `phase, buffer
      ensures Valid() && phase.Out? && Reaches(old(View()), es, View())
      ensures |es| > 3 && es[0] == Event.Sample && es[1].Hw? && es[2] == Event.Clear
      ensures if old(AbortRaised()) then es[3..] == [TxAbort]
              else Serves(es[3..], old(TxEmptyRaised()), old(RxFullRaised()))
    {
      ghost var m := View();
      var abort, txEmpty, rxFull;
      ghost var first, rest;
      abort, txEmpty, rxFull, first := SampleAndClear();
      ghost var m1 := View();
      if abort {
        HandleAbort();
        rest := [TxAbort];
      } else {
        rest := ServeFifos(txEmpty, rxFull);
      }
      ReachesThen(m, first, m1, rest, View());
      es := first + rest;
      assert es[3..] == rest;
    }
  }

  /** The events of a handler call without an abort, by the status bits. */
  predicate Serves(es: seq<Event>, txEmpty: bool, rxFull: bool) {
    && |es| == (if txEmpty then 1 else 0) + (if rxFull then 1 else 0)
    && (txEmpty ==> es[0].TxEmpty?) && (rxFull ==> es[|es| - 1].RxFull?)
  }
}
