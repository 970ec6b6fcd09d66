/** The slave side of the I2C interrupt handler without DMA and with all callbacks registered:
    which callbacks it makes, in which order, for any sequence of raw interrupt masks. */
module I2cSlave {
  import opened Common

  /** What an observer sees: the five callbacks, and the transmit abort that is served silently. */
  datatype Mark =
    | WriteRequested
    | WriteReceived(data: byte)
    | ReadRequested
    | ReadProcessed
    | Stopped
    | TxAborted

  datatype Raw = Raw(txAbort: bool, rxOver: bool, rdReq: bool, rxFull: bool, stopDet: bool)

  datatype Slave = Slave(
    depth: nat,
    writeStarted: bool,
    readInProgress: bool,
    rx: seq<byte>,
    tx: seq<byte>,
    trace: seq<Mark>)

  /** The bus fills the RX FIFO and drains the TX FIFO, or an interrupt is served; `reply` is
      the byte the read callback leaves in place of the default. */
  datatype Event =
    | Bus(rx: seq<byte>, tx: seq<byte>)
    | Interrupt(raw: Raw, reply: byte)

  function Emit(s: Slave, mark: Mark): Slave {
    s.(trace := s.trace + [mark])
  }

  function OnTxAbort(s: Slave): Slave {
    Emit(s.(readInProgress := false), TxAborted)
  }

  function OnReadRequest(s: Slave, reply: byte): Slave {
    var s' := if s.readInProgress then Emit(s, ReadProcessed)
              else Emit(s.(readInProgress := true), ReadRequested);
    if |s'.tx| < s'.depth then s'.(tx := s'.tx + [reply]) else s'
  }

  function OnRxFull(s: Slave): Slave {
    if s.rx == [] then s
    else
      var s' := s.(rx := s.rx[1..]);
      var s'' := if s'.writeStarted then s'
                 else Emit(s'.(writeStarted := true), WriteRequested);
      Emit(s'', WriteReceived(s.rx[0]))
  }

  function OnStop(s: Slave): Slave {
    Emit(s.(writeStarted := false, readInProgress := false), Stopped)
  }

  /** The slave branch of `i2c_isr`, up to its read request. */
  function Upto(s: Slave, raw: Raw, reply: byte): Slave {
    var s1 := if raw.txAbort then OnTxAbort(s) else s;
    var s2 := if raw.rxOver then s1.(rx := []) else s1;
    if raw.rdReq then OnReadRequest(s2, reply) else s2
  }

  /** The rest of it. */
  function Rest(s: Slave, raw: Raw): Slave {
    var s' := if raw.rxFull then OnRxFull(s) else s;
    if raw.stopDet then OnStop(s') else s'
  }

  function Served(s: Slave, raw: Raw, reply: byte): Slave {
    Rest(Upto(s, raw, reply), raw)
  }

  function Step(s: Slave, e: Event): Slave {
    match e
    case Bus(rx, tx) => s.(rx := rx, tx := tx)
    case Interrupt(raw, reply) => Served(s, raw, reply)
  }

  function Run(s: Slave, es: seq<Event>): Slave
    decreases |es|
  {
    if es == [] then s else Run(Step(s, es[0]), es[1..])
  }

  /** The state `i2c_slave_init` leaves. */
  function Initial(depth: nat, rx: seq<byte>): Slave {
    Slave(depth, false, false, rx, [], [])
  }

  // ---------- the protocol an observer may rely on ----------

  /** Some `opener` in `t` is not followed by any of `closers`. */
  predicate Open(t: seq<Mark>, opener: Mark, closers: set<Mark>) {
    exists i | 0 <= i < |t| ::
      t[i] == opener && forall k | i < k < |t| :: t[k] !in closers
  }

  const WRITE_ENDS := {Stopped}
  const READ_ENDS := {Stopped, TxAborted}

  predicate Allowed(t: seq<Mark>, mark: Mark) {
    match mark
    case WriteRequested => !Open(t, WriteRequested, WRITE_ENDS)
    case WriteReceived(_) => Open(t, WriteRequested, WRITE_ENDS)
    case ReadRequested => !Open(t, ReadRequested, READ_ENDS)
    case ReadProcessed => Open(t, ReadRequested, READ_ENDS)
    case _ => true
  }

  /** Every mark is allowed by what came before it. */
  predicate Orderly(t: seq<Mark>) {
    forall j | 0 <= j < |t| :: Allowed(t[..j], t[j])
  }

  lemma OpenAppend(t: seq<Mark>, mark: Mark, opener: Mark, closers: set<Mark>)
    requires opener !in closers
    ensures Open(t + [mark], opener, closers)
            <==> mark == opener || (Open(t, opener, closers) && mark !in closers)
  {
    var t' := t + [mark];
    if mark == opener {
      assert t'[|t|] == opener;
    } else if Open(t, opener, closers) && mark !in closers {
      var i :| 0 <= i < |t| && t[i] == opener && forall k | i < k < |t| :: t[k] !in closers;
      assert t'[i] == opener;
    } else {
      forall i | 0 <= i < |t'| && t'[i] == opener
        ensures exists k | i < k < |t'| :: t'[k] in closers
      {
        assert t[i] == opener;
        if mark in closers {
          assert t'[|t|] in closers;
        } else {
          var k :| i < k < |t| && t[k] in closers;
          assert t'[k] in closers;
        }
      }
    }
  }

  lemma OrderlyAppend(t: seq<Mark>, mark: Mark)
    requires Orderly(t) && Allowed(t, mark)
    ensures Orderly(t + [mark])
  {
    var t' := t + [mark];
    forall j | 0 <= j < |t'| ensures Allowed(t'[..j], t'[j]) {
      assert t'[..j] == if j < |t| then t[..j] else t;
    }
  }

  /** The two flags say exactly which transactions are open, and the trace is orderly. */
  ghost predicate Inv(s: Slave) {
    && s.writeStarted == Open(s.trace, WriteRequested, WRITE_ENDS)
    && s.readInProgress == Open(s.trace, ReadRequested, READ_ENDS)
    && Orderly(s.trace)
  }

  lemma EmitInv(s: Slave, mark: Mark, s': Slave)
    requires Inv(s) && Allowed(s.trace, mark) && s'.trace == s.trace + [mark]
    requires s'.writeStarted == (mark == WriteRequested || (s.writeStarted && mark !in WRITE_ENDS))
    requires s'.readInProgress == (mark == ReadRequested || (s.readInProgress && mark !in READ_ENDS))
    ensures Inv(s')
  {
    OpenAppend(s.trace, mark, WriteRequested, WRITE_ENDS);
    OpenAppend(s.trace, mark, ReadRequested, READ_ENDS);
    OrderlyAppend(s.trace, mark);
  }

  lemma OnReadRequestInv(s: Slave, reply: byte)
    requires Inv(s)
    ensures Inv(OnReadRequest(s, reply))
  {
    EmitInv(s, if s.readInProgress then ReadProcessed else ReadRequested, OnReadRequest(s, reply));
  }

  lemma OnRxFullInv(s: Slave)
    requires Inv(s)
    ensures Inv(OnRxFull(s))
  {
    if s.rx != [] {
      var s' := s.(rx := s.rx[1..]);
      assert Inv(s');
      if !s'.writeStarted {
        var s'' := Emit(s'.(writeStarted := true), WriteRequested);
        EmitInv(s', WriteRequested, s'');
        s' := s'';
      }
      EmitInv(s', WriteReceived(s.rx[0]), OnRxFull(s));
    }
  }

  lemma ServedInv(s: Slave, raw: Raw, reply: byte)
    requires Inv(s)
    ensures Inv(Served(s, raw, reply))
  {
    var s1 := if raw.txAbort then OnTxAbort(s) else s;
    if raw.txAbort {
      EmitInv(s, TxAborted, s1);
    }
    var s2 := if raw.rxOver then s1.(rx := []) else s1;
    var s3 := if raw.rdReq then OnReadRequest(s2, reply) else s2;
    if raw.rdReq {
      OnReadRequestInv(s2, reply);
    }
    var s4 := if raw.rxFull then OnRxFull(s3) else s3;
    if raw.rxFull {
      OnRxFullInv(s3);
    }
    if raw.stopDet {
      EmitInv(s4, Stopped, OnStop(s4));
    }
  }

  lemma {:induction false} RunInv(s: Slave, es: seq<Event>)
    requires Inv(s)
    ensures Inv(Run(s, es))
    decreases |es|
  {
    if es != [] {
      match es[0] {
        case Bus(_, _) =>
        case Interrupt(raw, reply) => ServedInv(s, raw, reply);
      }
      RunInv(Step(s, es[0]), es[1..]);
    }
  }

  /** For any sequence of raw masks: two write requests always have a stop between them, every
      received byte follows a write request of the same transaction, and every processed read
      follows a read request with neither a stop nor a transmit abort in between. */
  lemma CallbackProtocol(depth: nat, rx: seq<byte>, es: seq<Event>)
    ensures var t := Run(Initial(depth, rx), es).trace;
            && (forall i, j | 0 <= i < j < |t| && t[i] == WriteRequested && t[j] == WriteRequested ::
                  Stopped in t[i + 1..j])
            && (forall j | 0 <= j < |t| && t[j].WriteReceived? ::
                  exists i | 0 <= i < j :: t[i] == WriteRequested && Stopped !in t[i + 1..j])
            && (forall j | 0 <= j < |t| && t[j] == ReadProcessed ::
                  exists i | 0 <= i < j :: t[i] == ReadRequested
                                           && Stopped !in t[i + 1..j] && TxAborted !in t[i + 1..j])
  {
    var t := Run(Initial(depth, rx), es).trace;
    RunInv(Initial(depth, rx), es);
    forall i, j | 0 <= i < j < |t| && t[i] == WriteRequested && t[j] == WriteRequested
      ensures Stopped in t[i + 1..j]
    {
      assert Allowed(t[..j], t[j]);
      assert t[..j][i] == WriteRequested;
      var k :| i < k < j && t[..j][k] in WRITE_ENDS;
      assert t[i + 1..j][k - i - 1] == Stopped;
    }
    forall j | 0 <= j < |t| && t[j].WriteReceived?
      ensures exists i | 0 <= i < j :: t[i] == WriteRequested && Stopped !in t[i + 1..j]
    {
      var i := LastOpener(t, j, WriteRequested, WRITE_ENDS);
    }
    forall j | 0 <= j < |t| && t[j] == ReadProcessed
      ensures exists i | 0 <= i < j :: t[i] == ReadRequested
                                       && Stopped !in t[i + 1..j] && TxAborted !in t[i + 1..j]
    {
      var i := LastOpener(t, j, ReadRequested, READ_ENDS);
    }
  }

  lemma LastOpener(t: seq<Mark>, j: nat, opener: Mark, closers: set<Mark>) returns (i: nat)
    requires j < |t| && Open(t[..j], opener, closers)
    ensures i < j && t[i] == opener
    ensures forall c | c in closers :: c !in t[i + 1..j]
  {
    i :| 0 <= i < j && t[..j][i] == opener && forall k | i < k < j :: t[..j][k] !in closers;
    forall c | c in t[i + 1..j] ensures c !in closers {
      var k :| 0 <= k < j - i - 1 && t[i + 1..j][k] == c;
      assert t[..j][i + 1 + k] == c;
    }
  }

  /** What one interrupt does to the transactions. An abort ends the read before the read request
      is looked at, a stop ends both after everything else; a write begins with the first byte, and
      an overrun leaves no byte. */
  lemma {:induction false} TransactionsAfter(s: Slave, raw: Raw, reply: byte)
    ensures var s' := Served(s, raw, reply);
            && (s'.writeStarted <==> !raw.stopDet && (s.writeStarted || (raw.rxFull && !raw.rxOver && s.rx != [])))
            && (s'.readInProgress <==> !raw.stopDet && ((s.readInProgress && !raw.txAbort) || raw.rdReq))
            && (raw.stopDet ==> s'.trace != [] && s'.trace[|s'.trace| - 1] == Stopped)
  {
    var s3 := Upto(s, raw, reply);
    assert s3.writeStarted == s.writeStarted;
  }

  lemma RestGrows(s: Slave, raw: Raw)
    ensures s.trace <= Rest(s, raw).trace
  {
  }

  /** A read request makes the first callback of a read if none is open once the abort has been
      served, and the callback for a later byte otherwise. */
  lemma {:induction false} ReadCallback(s: Slave, raw: Raw, reply: byte)
    requires raw.rdReq
    ensures var mark := if s.readInProgress && !raw.txAbort then ReadProcessed else ReadRequested;
            s.trace + (if raw.txAbort then [TxAborted] else []) + [mark] <= Served(s, raw, reply).trace
  {
    RestGrows(Upto(s, raw, reply), raw);
  }

  // ---------- no byte and no request is forgotten ----------

  /** The bytes handed to the application, in order. */
  function Received(t: seq<Mark>): seq<byte> {
    if t == [] then []
    else
      var last := t[|t| - 1];
      Received(t[..|t| - 1]) + if last.WriteReceived? then [last.data] else []
  }

  /** How often the application was asked for a byte. */
  function Asked(t: seq<Mark>): nat {
    if t == [] then 0
    else
      var last := t[|t| - 1];
      Asked(t[..|t| - 1]) + if last.ReadRequested? || last.ReadProcessed? then 1 else 0
  }

  lemma MarkAppend(t: seq<Mark>, mark: Mark)
    ensures Received(t + [mark]) == Received(t) + (if mark.WriteReceived? then [mark.data] else [])
    ensures Asked(t + [mark]) == Asked(t) + (if mark.ReadRequested? || mark.ReadProcessed? then 1 else 0)
  {
    assert (t + [mark])[..|t|] == t;
  }

  /** The byte an interrupt takes from the RX FIFO, if any; an overrun empties the FIFO first. */
  function TakenBy(s: Slave, e: Event): seq<byte> {
    if e.Interrupt? && e.raw.rxFull && !e.raw.rxOver && s.rx != [] then [s.rx[0]] else []
  }

  /** The bytes the RX FIFO and the TX FIFO hold after an interrupt. */
  function RxAfter(s: Slave, raw: Raw): seq<byte> {
    if raw.rxOver || s.rx == [] then [] else if raw.rxFull then s.rx[1..] else s.rx
  }

  function TxAfter(s: Slave, raw: Raw, reply: byte): seq<byte> {
    if raw.rdReq && |s.tx| < s.depth then s.tx + [reply] else s.tx
  }

  /** Between `s` and `s'` the application got `bytes` and was asked `n` times. */
  predicate Adds(s: Slave, s': Slave, bytes: seq<byte>, n: nat) {
    && Received(s'.trace) == Received(s.trace) + bytes && Asked(s'.trace) == Asked(s.trace) + n
    && s'.depth == s.depth
  }

  lemma AbortAccounts(s: Slave)
    ensures Adds(s, OnTxAbort(s), [], 0) && OnTxAbort(s).rx == s.rx && OnTxAbort(s).tx == s.tx
  {
    MarkAppend(s.trace, TxAborted);
  }

  lemma ReadAccounts(s: Slave, reply: byte)
    ensures var s' := OnReadRequest(s, reply);
            Adds(s, s', [], 1) && s'.rx == s.rx && s'.tx == if |s.tx| < s.depth then s.tx + [reply] else s.tx
  {
    MarkAppend(s.trace, if s.readInProgress then ReadProcessed else ReadRequested);
  }

  lemma RxFullAccounts(s: Slave)
    ensures var s' := OnRxFull(s);
            && Adds(s, s', if s.rx == [] then [] else [s.rx[0]], 0)
            && s'.rx == (if s.rx == [] then [] else s.rx[1..]) && s'.tx == s.tx
  {
    if s.rx != [] {
      if !s.writeStarted {
        MarkAppend(s.trace, WriteRequested);
        MarkAppend(s.trace + [WriteRequested], WriteReceived(s.rx[0]));
      } else {
        MarkAppend(s.trace, WriteReceived(s.rx[0]));
      }
    }
  }

  lemma StopAccounts(s: Slave)
    ensures Adds(s, OnStop(s), [], 0) && OnStop(s).rx == s.rx && OnStop(s).tx == s.tx
  {
    MarkAppend(s.trace, Stopped);
  }

  lemma {:induction false} UptoAccounts(s: Slave, raw: Raw, reply: byte)
    ensures var s' := Upto(s, raw, reply);
            && Adds(s, s', [], if raw.rdReq then 1 else 0)
            && s'.rx == (if raw.rxOver then [] else s.rx) && s'.tx == TxAfter(s, raw, reply)
  {
    if raw.txAbort {
      AbortAccounts(s);
    }
    var s1 := if raw.txAbort then OnTxAbort(s) else s;
    var s2 := if raw.rxOver then s1.(rx := []) else s1;
    if raw.rdReq {
      ReadAccounts(s2, reply);
    }
  }

  lemma {:induction false} RestAccounts(s: Slave, raw: Raw)
    ensures var s' := Rest(s, raw);
            && Adds(s, s', if raw.rxFull && s.rx != [] then [s.rx[0]] else [], 0)
            && s'.rx == (if raw.rxFull && s.rx != [] then s.rx[1..] else s.rx) && s'.tx == s.tx
  {
    if raw.rxFull {
      RxFullAccounts(s);
    }
    if raw.stopDet {
      StopAccounts(if raw.rxFull then OnRxFull(s) else s);
    }
  }

  /** One interrupt hands exactly the byte it takes to the application, asks it once for each read
      request, and queues the answer if there is room. */
  lemma {:induction false} ServedAccounts(s: Slave, raw: Raw, reply: byte)
    ensures var s' := Served(s, raw, reply);
            && Adds(s, s', TakenBy(s, Interrupt(raw, reply)), if raw.rdReq then 1 else 0)
            && s'.rx == RxAfter(s, raw) && s'.tx == TxAfter(s, raw, reply)
  {
    UptoAccounts(s, raw, reply);
    RestAccounts(Upto(s, raw, reply), raw);
  }

  /** The bytes that the interrupts of a run take, and how many of them are read requests. */
  function TakenIn(s: Slave, es: seq<Event>): seq<byte>
    decreases |es|
  {
    if es == [] then [] else TakenBy(s, es[0]) + TakenIn(Step(s, es[0]), es[1..])
  }

  function ReadRequests(es: seq<Event>): nat {
    if es == [] then 0
    else (if es[0].Interrupt? && es[0].raw.rdReq then 1 else 0) + ReadRequests(es[1..])
  }

  /** On every run the application gets exactly the bytes taken from the RX FIFO, in order, and is
      asked for a byte exactly once for each read request. */
  lemma {:induction false} NothingForgotten(s: Slave, es: seq<Event>)
    ensures Received(Run(s, es).trace) == Received(s.trace) + TakenIn(s, es)
    ensures Asked(Run(s, es).trace) == Asked(s.trace) + ReadRequests(es)
    decreases |es|
  {
    if es != [] {
      match es[0] {
        case Bus(_, _) =>
        case Interrupt(raw, reply) => ServedAccounts(s, raw, reply);
      }
      NothingForgotten(Step(s, es[0]), es[1..]);
    }
  }

  // ---------- the driver ----------

  class I2cSlave {
    const depth: nat
    var slaveWriteStarted: bool
    var slaveReadInProgress: bool
    var rx: seq<byte>
    var tx: seq<byte>
    var trace: seq<Mark>

    ghost function View(): Slave
      reads this
    {
      Slave(depth, slaveWriteStarted, slaveReadInProgress, rx, tx, trace)
    }

    constructor (depth: nat, rx: seq<byte>)
      ensures View() == Initial(depth, rx)
    {
      this.depth, this.rx, tx, trace := depth, rx, [], [];
      slaveWriteStarted, slaveReadInProgress := false, false;
    }

    /** `i2c_read_fifo` for one byte. */
    method ReadOne() returns (count: nat, data: byte)
      modifies `rx
      ensures count == if old(rx) == [] then 0 else 1
      ensures count == 1 ==> data == old(rx)[0] && rx == old(rx)[1..]
      ensures count == 0 ==> rx == []
    {
      count, data := 0, 0;
      if rx != [] {
        count, data, rx := 1, rx[0], rx[1..];
      }
    }

    /** `i2c_drain_rx_fifo`. */
    method DrainRx()
      modifies `rx
      ensures rx == []
    {
      var count, discard := ReadOne();
      while count == 1
        invariant count == 0 ==> rx == []
        decreases |rx| + count
      {
        count, discard := ReadOne();
      }
    }

    /** `i2c_slave_handle_read_request`. */
    method HandleReadRequest(reply: byte)
      modifies `slaveReadInProgress, `tx, `trace
      ensures View() == OnReadRequest(old(View()), reply)
    {
      if !slaveReadInProgress {
        trace := trace + [ReadRequested];
        slaveReadInProgress := true;
      } else {
        trace := trace + [ReadProcessed];
      }
      if |tx| < depth {
        tx := tx + [reply];
      }
    }

    method HandleRxFull()
      modifies `slaveWriteStarted, `rx, `trace
      ensures View() == OnRxFull(old(View()))
    {
      var count, data := ReadOne();
      if count == 1 {
        if !slaveWriteStarted {
          slaveWriteStarted := true;
          trace := trace + [WriteRequested];
        }
        trace := trace + [WriteReceived(data)];
      }
    }

    /** The slave branch of `i2c_isr`. */
    method Isr(raw: Raw, reply: byte)
      modifies this
      ensures View() == Served(old(View()), raw, reply)
    {
      if raw.txAbort {
        slaveReadInProgress := false;
        trace := trace + [TxAborted];
      }
      if raw.rxOver {
        DrainRx();
      }
      if raw.rdReq {
        HandleReadRequest(reply);
      }
      if raw.rxFull {
        HandleRxFull();
      }
      if raw.stopDet {
        slaveWriteStarted := false;
        slaveReadInProgress := false;
        trace := trace + [Stopped];
      }
    }
  }
}
