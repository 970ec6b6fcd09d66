/** The console: a byte ring between the writers and the UART, with a count of dropped bytes. */
module Console {
  import opened Common

  // ---------- the bounded queue and its history ----------

  /** What the UART driver is given: data, or the message that reports `count` dropped bytes. */
  datatype Out = Data(bytes: seq<byte>) | Report(count: nat)

  /** The buffers offered so far and the part of each that was kept; bytes offered through a null
      buffer; bytes dropped since the counter was last cleared; and bytes dropped before that but
      not reported. */
  datatype History = History(calls: seq<seq<byte>>, pieces: seq<seq<byte>>, nulls: nat,
                             since: nat, missed: int)

  /** `held` are the bytes in the intermediate buffer, on their way from the ring to the UART. */
  datatype State = State(queue: seq<byte>, held: seq<byte>, dropped: nat, snapshot: Option<nat>,
                         uart: seq<Out>, past: History)

  /** The drain loop takes bytes from the ring one by one and hands them to the UART together. A
      report reads the counter at `Snapshot` and clears it at `Clear`. Interrupts may write
      between any two of these. */
  datatype Event = Write(buf: seq<byte>) | WriteNull(len: nat) | Direct(bytes: seq<byte>)
                 | Take | Hand | Snapshot | Clear

  function Total(bufs: seq<seq<byte>>): nat {
    if bufs == [] then 0 else Total(bufs[..|bufs| - 1]) + |bufs[|bufs| - 1]|
  }

  function Flatten(bufs: seq<seq<byte>>): (r: seq<byte>)
    ensures |r| == Total(bufs)
  {
    if bufs == [] then [] else Flatten(bufs[..|bufs| - 1]) + bufs[|bufs| - 1]
  }

  function DataOf(uart: seq<Out>): seq<byte> {
    if uart == [] then []
    else
      var last := |uart| - 1;
      DataOf(uart[..last]) + (if uart[last].Data? then uart[last].bytes else [])
  }

  function Reported(uart: seq<Out>): nat {
    if uart == [] then 0
    else
      var last := |uart| - 1;
      Reported(uart[..last]) + (if uart[last].Report? then uart[last].count else 0)
  }

  lemma CallsAppend(bufs: seq<seq<byte>>, b: seq<byte>)
    ensures Total(bufs + [b]) == Total(bufs) + |b|
    ensures Flatten(bufs + [b]) == Flatten(bufs) + b
  {
    assert (bufs + [b])[..|bufs|] == bufs;
  }

  lemma UartAppend(uart: seq<Out>, o: Out)
    ensures DataOf(uart + [o]) == DataOf(uart) + (if o.Data? then o.bytes else [])
    ensures Reported(uart + [o]) == Reported(uart) + (if o.Report? then o.count else 0)
  {
    assert (uart + [o])[..|uart|] == uart;
  }

  /** How much of `len` bytes a queue of `used` out of `cap` bytes takes. */
  function Room(used: nat, cap: nat, len: nat): (n: nat)
    ensures n <= len
  {
    if used + len <= cap then len else if used <= cap then cap - used else 0
  }

  function Bump(dropped: nat, more: nat): (r: nat)
    requires dropped < U32_RANGE && more < U32_RANGE
    ensures r < U32_RANGE && r == (dropped + more) % U32_RANGE
  {
    if dropped + more < U32_RANGE then dropped + more else dropped + more - U32_RANGE
  }

  function Lose(s: State, more: nat): State
    requires s.dropped < U32_RANGE && more < U32_RANGE
  {
    s.(dropped := Bump(s.dropped, more),
       past := s.past.(since := s.past.since + more))
  }

  /** A call that offered `buf` and of which `n` bytes survive. */
  function Recorded(h: History, buf: seq<byte>, n: nat): History
    requires n <= |buf|
  {
    h.(calls := h.calls + [buf], pieces := h.pieces + [buf[..n]])
  }

  predicate Enabled(s: State, cap: nat, e: Event) {
    && s.dropped < U32_RANGE && |s.queue| <= cap
    && match e
       case Write(buf) => |buf| < U32_RANGE
       case WriteNull(len) => len < U32_RANGE
       case Direct(buf) => true
       case Take => s.queue != []
       case Hand => true
       case Snapshot => s.snapshot.None? && s.dropped > 0
       case Clear => s.snapshot.Some?
  }

  function Step(s: State, cap: nat, e: Event): State
    requires Enabled(s, cap, e)
  {
    match e
    case Write(buf) =>
      var n := Room(|s.queue|, cap, |buf|);
      Lose(s.(queue := s.queue + buf[..n], past := Recorded(s.past, buf, n)), |buf| - n)
    case WriteNull(len) =>
      Lose(s.(past := s.past.(nulls := s.past.nulls + len)), len)
    case Direct(buf) =>
      s.(uart := s.uart + [Data(buf)],
         past := Recorded(s.past, buf, |buf|))
    case Take =>
      s.(queue := s.queue[1..], held := s.held + [s.queue[0]])
    case Hand =>
      s.(held := [], uart := s.uart + [Data(s.held)])
    case Snapshot =>
      s.(snapshot := Some(s.dropped))
    case Clear =>
      var n := s.snapshot.value;
      s.(dropped := 0, snapshot := None, uart := s.uart + [Report(n)],
         past := s.past.(since := 0, missed := s.past.missed + s.past.since - n))
  }

  // ---------- conservation ----------

  function Offered(h: History): nat {
    h.nulls + Total(h.calls)
  }

  /** The bytes of a state that were dropped: reported, not yet reported, or missed. */
  function Lost(s: State): int {
    Reported(s.uart) + s.past.since + s.past.missed
  }

  /** Each call survives as a prefix of its buffer. */
  predicate PrefixEach(h: History) {
    |h.calls| == |h.pieces| && forall i | 0 <= i < |h.calls| :: h.pieces[i] <= h.calls[i]
  }

  /** The counts are right but for `more` dropped bytes that are not counted yet. */
  ghost predicate Due(s: State, cap: nat, more: nat) {
    && |s.queue| <= cap && PrefixEach(s.past)
    && Total(s.past.pieces) == |DataOf(s.uart)| + |s.held| + |s.queue|
    && Offered(s.past) == Total(s.past.pieces) + Lost(s) + more
    && s.dropped == s.past.since % U32_RANGE
    && 0 <= s.past.missed && (s.snapshot.Some? ==> s.snapshot.value <= s.past.since)
  }

  ghost predicate Counts(s: State, cap: nat) {
    Due(s, cap, 0)
  }

  lemma RecordedHistory(h: History, buf: seq<byte>, n: nat)
    requires PrefixEach(h) && n <= |buf|
    ensures var h' := Recorded(h, buf, n);
            && PrefixEach(h') && Total(h'.pieces) == Total(h.pieces) + n
            && Flatten(h'.pieces) == Flatten(h.pieces) + buf[..n]
            && Offered(h') == Offered(h) + |buf|
  {
    CallsAppend(h.calls, buf);
    CallsAppend(h.pieces, buf[..n]);
  }

  lemma WrapsOn(dropped: nat, since: nat, more: nat)
    requires dropped == since % U32_RANGE && more < U32_RANGE
    ensures Bump(dropped, more) == (since + more) % U32_RANGE
  {
  }

  lemma {:induction false} LoseCounts(s: State, cap: nat, more: nat)
    requires Due(s, cap, more) && more < U32_RANGE
    ensures Counts(Lose(s, more), cap)
  {
    WrapsOn(s.dropped, s.past.since, more);
  }

  lemma {:induction false} KeptCounts(s: State, cap: nat, buf: seq<byte>, n: nat)
    requires Counts(s, cap) && n <= |buf| && |s.queue| + n <= cap
    ensures Due(s.(queue := s.queue + buf[..n], past := Recorded(s.past, buf, n)), cap, |buf| - n)
  {
    RecordedHistory(s.past, buf, n);
  }

  lemma {:induction false} WriteCounts(s: State, cap: nat, buf: seq<byte>)
    requires Counts(s, cap) && |buf| < U32_RANGE
    ensures Counts(Step(s, cap, Write(buf)), cap)
  {
    var n := Room(|s.queue|, cap, |buf|);
    KeptCounts(s, cap, buf, n);
    LoseCounts(s.(queue := s.queue + buf[..n], past := Recorded(s.past, buf, n)), cap, |buf| - n);
  }

  /** A write keeps all its bytes or fills the ring: what is kept is the longest prefix that fits. */
  lemma {:induction false} WriteKeepsMost(s: State, cap: nat, buf: seq<byte>)
    requires Enabled(s, cap, Write(buf))
    ensures var t := Step(s, cap, Write(buf)); var n := |t.queue| - |s.queue|;
            && 0 <= n <= |buf| && t.queue == s.queue + buf[..n] && |t.queue| <= cap
            && t.past.pieces == s.past.pieces + [buf[..n]] && t.past.since == s.past.since + |buf| - n
            && (n == |buf| || |t.queue| == cap)
  {
  }

  lemma {:induction false} DirectCounts(s: State, cap: nat, buf: seq<byte>)
    requires Counts(s, cap) && Enabled(s, cap, Direct(buf))
    ensures Counts(Step(s, cap, Direct(buf)), cap)
  {
    RecordedHistory(s.past, buf, |buf|);
    UartAppend(s.uart, Data(buf));
  }

  lemma {:induction false} ClearCounts(s: State, cap: nat)
    requires Counts(s, cap) && Enabled(s, cap, Clear)
    ensures Counts(Step(s, cap, Clear), cap)
  {
    UartAppend(s.uart, Report(s.snapshot.value));
  }

  lemma {:induction false} NullCounts(s: State, cap: nat, len: nat)
    requires Counts(s, cap) && len < U32_RANGE
    ensures Counts(Step(s, cap, WriteNull(len)), cap)
  {
    LoseCounts(s.(past := s.past.(nulls := s.past.nulls + len)), cap, len);
  }

  lemma {:induction false} TakeCounts(s: State, cap: nat)
    requires Counts(s, cap) && Enabled(s, cap, Take)
    ensures Counts(Step(s, cap, Take), cap)
  {
  }

  lemma {:induction false} HandCounts(s: State, cap: nat)
    requires Counts(s, cap)
    ensures Counts(Step(s, cap, Hand), cap)
  {
    UartAppend(s.uart, Data(s.held));
  }

  lemma {:induction false} CountsStep(s: State, cap: nat, e: Event)
    requires Counts(s, cap) && Enabled(s, cap, e)
    ensures Counts(Step(s, cap, e), cap)
  {
    match e {
      case Write(buf) =>
        WriteCounts(s, cap, buf);
      case WriteNull(len) =>
        NullCounts(s, cap, len);
      case Direct(buf) =>
        DirectCounts(s, cap, buf);
      case Take =>
        TakeCounts(s, cap);
      case Hand =>
        HandCounts(s, cap);
      case Snapshot =>
      case Clear =>
        ClearCounts(s, cap);
    }
  }

  predicate Initial(s: State) {
    && |s.queue| == |s.held| == |s.uart| == s.dropped == 0 && s.snapshot == None
    && |s.past.calls| == |s.past.pieces| == s.past.nulls == s.past.since == 0 == s.past.missed
  }

  ghost predicate Runs(s: State, cap: nat, es: seq<Event>, s': State)
    decreases |es|
  {
    if es == [] then s' == s
    else Enabled(s, cap, es[0]) && Runs(Step(s, cap, es[0]), cap, es[1..], s')
  }

  /** Whenever the counter is cleared in this run, the report has what was dropped since it was
      last cleared: fewer than 2^32 bytes, and none after the counter was read. */
  ghost predicate ReportsWhole(s: State, cap: nat, es: seq<Event>)
    decreases |es|
  {
    es == []
    || (Enabled(s, cap, es[0])
        && (es[0].Clear? ==> s.past.since == s.snapshot.value)
        && ReportsWhole(Step(s, cap, es[0]), cap, es[1..]))
  }

  lemma {:induction false} CountsRun(s: State, cap: nat, es: seq<Event>, s': State)
    requires Counts(s, cap) && Runs(s, cap, es, s')
    ensures Counts(s', cap)
    decreases |es|
  {
    if es != [] {
      CountsStep(s, cap, es[0]);
      CountsRun(Step(s, cap, es[0]), cap, es[1..], s');
    }
  }

  /** Bytes are missed in a run if and only if one of its reports is not whole. */
  lemma {:induction false} MissedRun(s: State, cap: nat, es: seq<Event>, s': State)
    requires Counts(s, cap) && Runs(s, cap, es, s')
    ensures s'.past.missed >= s.past.missed
    ensures s'.past.missed == s.past.missed <==> ReportsWhole(s, cap, es)
    decreases |es|
  {
    if es != [] {
      CountsStep(s, cap, es[0]);
      MissedRun(Step(s, cap, es[0]), cap, es[1..], s');
    }
  }

  lemma {:induction false} InitialCounts(s: State, cap: nat)
    requires Initial(s)
    ensures Counts(s, cap)
  {
  }

  /** On every run, every byte offered was handed to the UART, is on its way there or in the ring,
      or was counted as dropped: reported, not yet reported, or missed by a report. What was kept
      of the calls are prefixes of their buffers, and exactly the bytes sent or waiting. */
  lemma {:induction false} Conservation(start: State, cap: nat, es: seq<Event>, s: State)
    requires Initial(start) && Runs(start, cap, es, s)
    ensures Offered(s.past)
            == |DataOf(s.uart)| + |s.held| + |s.queue| + Reported(s.uart) + s.past.since + s.past.missed
    ensures Total(s.past.pieces) == |DataOf(s.uart)| + |s.held| + |s.queue|
    ensures PrefixEach(s.past) && |s.queue| <= cap && s.dropped == s.past.since % U32_RANGE
  {
    InitialCounts(start, cap);
    CountsRun(start, cap, es, s);
  }

  /** How many bytes an event drops. */
  function Drops(s: State, cap: nat, e: Event): nat {
    match e
    case Write(buf) => |buf| - Room(|s.queue|, cap, |buf|)
    case WriteNull(len) => len
    case _ => 0
  }

  /** The bytes dropped since a clearing, and since the counter was read, after one more event. */
  function SinceClear(s: State, cap: nat, e: Event, n: nat): nat {
    if e.Clear? then 0 else n + Drops(s, cap, e)
  }

  function SinceRead(s: State, cap: nat, e: Event, n: nat): nat {
    if e.Clear? || e.Snapshot? then 0 else n + Drops(s, cap, e)
  }

  /** No write drops bytes between a reading of the counter and the clearing after it, and fewer
      than 2^32 bytes are dropped between two clearings, or after the last one. So far `n` bytes
      were dropped since a clearing, `late` of them after the counter was read. */
  ghost predicate Timely(s: State, cap: nat, es: seq<Event>, n: nat, late: nat)
    decreases |es|
  {
    if es == [] then n < U32_RANGE
    else
      && Enabled(s, cap, es[0]) && (es[0].Clear? ==> late == 0 && n < U32_RANGE)
      && Timely(Step(s, cap, es[0]), cap, es[1..], SinceClear(s, cap, es[0], n), SinceRead(s, cap, es[0], late))
  }

  /** What the history says of the current window, and the counter read in it. */
  predicate Window(s: State, n: nat, late: nat) {
    && n == s.past.since && late <= n
    && (s.snapshot.Some? ==> s.snapshot.value == (n - late) % U32_RANGE)
  }

  lemma RemainderIsWhole(n: nat)
    ensures n % U32_RANGE <= n && (n % U32_RANGE == n <==> n < U32_RANGE)
  {
  }

  lemma WholeIffTimely(n: nat, late: nat)
    requires late <= n
    ensures n == (n - late) % U32_RANGE <==> late == 0 && n < U32_RANGE
  {
    RemainderIsWhole(n - late);
  }

  lemma ClearWindow(s: State, cap: nat, n: nat, late: nat)
    requires Enabled(s, cap, Clear) && Window(s, n, late)
    ensures s.past.since == s.snapshot.value <==> late == 0 && n < U32_RANGE
    ensures Window(Step(s, cap, Clear), 0, 0)
  {
    WholeIffTimely(n, late);
  }

  lemma SnapshotWindow(s: State, cap: nat, n: nat, late: nat)
    requires Counts(s, cap) && Enabled(s, cap, Snapshot) && Window(s, n, late)
    ensures Window(Step(s, cap, Snapshot), n, 0)
  {
  }

  lemma DropsWindow(s: State, cap: nat, e: Event, n: nat, late: nat)
    requires Enabled(s, cap, e) && !e.Clear? && !e.Snapshot? && Window(s, n, late)
    ensures var d := Drops(s, cap, e); Window(Step(s, cap, e), n + d, late + d)
  {
  }

  lemma WindowStep(s: State, cap: nat, e: Event, n: nat, late: nat)
    requires Counts(s, cap) && Enabled(s, cap, e) && Window(s, n, late)
    ensures Window(Step(s, cap, e), SinceClear(s, cap, e, n), SinceRead(s, cap, e, late))
    ensures e.Clear? ==> (s.past.since == s.snapshot.value <==> late == 0 && n < U32_RANGE)
  {
    match e
    case Clear => ClearWindow(s, cap, n, late);
    case Snapshot => SnapshotWindow(s, cap, n, late);
    case _ => DropsWindow(s, cap, e, n, late);
  }

  lemma {:induction false} TimelyIsWhole(s: State, cap: nat, es: seq<Event>, s': State, n: nat, late: nat)
    requires Counts(s, cap) && Runs(s, cap, es, s') && Window(s, n, late)
    ensures Timely(s, cap, es, n, late) <==> ReportsWhole(s, cap, es) && s'.past.since < U32_RANGE
    decreases |es|
  {
    if es != [] {
      var e := es[0];
      CountsStep(s, cap, e);
      WindowStep(s, cap, e, n, late);
      TimelyIsWhole(Step(s, cap, e), cap, es[1..], s', SinceClear(s, cap, e, n), SinceRead(s, cap, e, late));
    }
  }

  /** On every run, the reports and the counter account for every byte that was offered and not
      kept, if and only if no write drops bytes inside a report and fewer than 2^32 bytes are
      dropped between two of them. */
  lemma {:induction false} DropsAccounted(start: State, cap: nat, es: seq<Event>, s: State)
    requires Initial(start) && Runs(start, cap, es, s)
    ensures Reported(s.uart) + s.dropped == Offered(s.past) - Total(s.past.pieces)
            <==> Timely(start, cap, es, 0, 0)
  {
    InitialCounts(start, cap);
    CountsRun(start, cap, es, s);
    MissedRun(start, cap, es, s);
    RemainderIsWhole(s.past.since);
    TimelyIsWhole(start, cap, es, s, 0, 0);
  }

  /** A write that loses bytes between the two halves of a report is not accounted for. */
  lemma {:induction false} ReportRace(s: State, cap: nat, buf: seq<byte>)
    requires Counts(s, cap) && s.snapshot.None? && 0 < s.dropped && |buf| < U32_RANGE
    ensures var t := Step(Step(Step(s, cap, Snapshot), cap, Write(buf)), cap, Clear);
            (Offered(t.past) - Total(t.past.pieces) - Reported(t.uart) - t.dropped)
            - (Offered(s.past) - Total(s.past.pieces) - Reported(s.uart) - s.dropped)
            == |buf| - Room(|s.queue|, cap, |buf|)
  {
    RecordedHistory(s.past, buf, Room(|s.queue|, cap, |buf|));
    UartAppend(s.uart, Report(s.dropped));
  }

  // ---------- order ----------

  /** What has not reached the UART yet. */
  function Waiting(s: State): seq<byte> {
    s.held + s.queue
  }

  /** What survives of the calls, in call order, is what the UART has and then what waits. */
  predicate InOrder(s: State) {
    Flatten(s.past.pieces) == DataOf(s.uart) + Waiting(s)
  }

  lemma Reassociate(a: seq<byte>, b: seq<byte>, c: seq<byte>)
    ensures (a + b) + c == a + (b + c)
  {
  }

  lemma {:induction false} TakeWaits(s: State, cap: nat)
    requires Enabled(s, cap, Take)
    ensures Waiting(Step(s, cap, Take)) == Waiting(s)
  {
    assert s.queue == [s.queue[0]] + s.queue[1..];
    Reassociate(s.held, [s.queue[0]], s.queue[1..]);
  }

  lemma {:induction false} WriteKeepsOrder(s: State, cap: nat, buf: seq<byte>)
    requires InOrder(s) && Enabled(s, cap, Write(buf))
    ensures InOrder(Step(s, cap, Write(buf)))
  {
    var n := Room(|s.queue|, cap, |buf|);
    CallsAppend(s.past.pieces, buf[..n]);
    Reassociate(DataOf(s.uart), Waiting(s), buf[..n]);
    Reassociate(s.held, s.queue, buf[..n]);
  }

  /** One event keeps the order if and only if it is no direct write that overtakes the ring. */
  lemma {:induction false} OrderStep(s: State, cap: nat, e: Event)
    requires InOrder(s) && Enabled(s, cap, e)
    ensures InOrder(Step(s, cap, e)) <==> (e.Direct? ==> Waiting(s) + e.bytes == e.bytes + Waiting(s))
  {
    match e {
      case Write(buf) =>
        WriteKeepsOrder(s, cap, buf);
      case WriteNull(len) =>
      case Direct(buf) =>
        CallsAppend(s.past.pieces, buf[..|buf|]);
        UartAppend(s.uart, Data(buf));
        Reassociate(DataOf(s.uart), Waiting(s), buf);
        Reassociate(DataOf(s.uart), buf, Waiting(s));
        SamePrefix(DataOf(s.uart), Waiting(s) + buf, buf + Waiting(s));
      case Take =>
        TakeWaits(s, cap);
      case Hand =>
        UartAppend(s.uart, Data(s.held));
        Reassociate(DataOf(s.uart), s.held, s.queue);
      case Snapshot =>
      case Clear =>
        UartAppend(s.uart, Report(s.snapshot.value));
    }
  }

  lemma SamePrefix(a: seq<byte>, b: seq<byte>, c: seq<byte>)
    ensures a + b == a + c <==> b == c
  {
    if a + b == a + c {
      assert (a + b)[|a|..] == b && (a + c)[|a|..] == c;
    }
  }

  /** Every direct write keeps the order if and only if nothing waits. */
  lemma {:induction false} DirectNeedsEmptyRing(waiting: seq<byte>)
    ensures (forall buf: seq<byte> :: waiting + buf == buf + waiting) <==> waiting == []
  {
    if waiting == [] {
      forall buf: seq<byte> ensures waiting + buf == buf + waiting {
        assert waiting + buf == buf && buf + waiting == buf;
      }
    } else {
      var other: byte := if waiting[0] == 0 then 1 else 0;
      assert (waiting + [other])[0] != ([other] + waiting)[0];
    }
  }

  /** Before the kernel starts writes go straight to the UART; these find the ring empty. */
  ghost predicate DirectsFirst(s: State, cap: nat, es: seq<Event>)
    decreases |es|
  {
    es == []
    || (Enabled(s, cap, es[0]) && (es[0].Direct? ==> Waiting(s) == [])
        && DirectsFirst(Step(s, cap, es[0]), cap, es[1..]))
  }

  /** On every run whose direct writes find the ring empty, what the UART gets and what is in the
      ring are the surviving prefixes in call order. */
  lemma {:induction false} OutputInOrder(s: State, cap: nat, es: seq<Event>, s': State)
    requires InOrder(s) && Runs(s, cap, es, s') && DirectsFirst(s, cap, es)
    ensures InOrder(s')
    decreases |es|
  {
    if es != [] {
      OrderStep(s, cap, es[0]);
      if es[0].Direct? {
        DirectNeedsEmptyRing(Waiting(s));
      }
      OutputInOrder(Step(s, cap, es[0]), cap, es[1..], s');
    }
  }

  lemma {:induction false} RunsAppend(s: State, cap: nat, es: seq<Event>, s': State, e: Event)
    requires Runs(s, cap, es, s') && Enabled(s', cap, e)
    ensures Runs(s, cap, es + [e], Step(s', cap, e))
    decreases |es|
  {
    if es == [] {
      assert es + [e] == [e];
    } else {
      assert (es + [e])[1..] == es[1..] + [e];
      RunsAppend(Step(s, cap, es[0]), cap, es[1..], s', e);
    }
  }

  /** The events of one call that empties the ring: what it does itself, and the writes of
      interrupts in between. */
  predicate Own(e: Event, arrivals: seq<seq<byte>>) {
    match e
    case Write(buf) => buf in arrivals
    case WriteNull(len) => false
    case Direct(buf) => false
    case _ => true
  }

  ghost predicate Empties(s: State, cap: nat, arrivals: seq<seq<byte>>, es: seq<Event>, s': State) {
    Runs(s, cap, es, s') && forall i | 0 <= i < |es| :: Own(es[i], arrivals)
  }

  lemma {:induction false} EmptiesAppend(s: State, cap: nat, arrivals: seq<seq<byte>>, es: seq<Event>,
                                         s': State, e: Event)
    requires Empties(s, cap, arrivals, es, s') && Enabled(s', cap, e) && Own(e, arrivals)
    ensures Empties(s, cap, arrivals, es + [e], Step(s', cap, e))
  {
    RunsAppend(s, cap, es, s', e);
  }

  /** Without interrupts such a call moves bytes from the ring to the UART and nothing else. */
  lemma {:induction false} EmptyingSends(s: State, cap: nat, es: seq<Event>, s': State)
    requires Empties(s, cap, [], es, s')
    ensures DataOf(s'.uart) + Waiting(s') == DataOf(s.uart) + Waiting(s)
    ensures s'.past.calls == s.past.calls && s'.past.pieces == s.past.pieces
    decreases |es|
  {
    if es != [] {
      var e, t := es[0], Step(s, cap, es[0]);
      assert Own(e, []);
      if e.Take? {
        TakeWaits(s, cap);
      } else if e.Hand? {
        UartAppend(s.uart, Data(s.held));
        Reassociate(DataOf(s.uart), s.held, s.queue);
      } else if e.Clear? {
        UartAppend(s.uart, Report(s.snapshot.value));
      }
      EmptyingSends(t, cap, es[1..], s');
    }
  }

  // ---------- the ring ----------

  /** The ring holds `queue` in order from `tail`, and `head` is where the next byte goes. */
  predicate RingHolds(ring: seq<byte>, tail: nat, head: nat, queue: seq<byte>) {
    && tail < |ring| && |queue| < |ring| && head == RingSlot(tail, |queue|, |ring|)
    && forall i | 0 <= i < |queue| :: ring[RingSlot(tail, i, |ring|)] == queue[i]
  }

  /** The test for a full ring is exact: one slot always stays free. */
  lemma FullIsExact(ring: seq<byte>, tail: nat, head: nat, queue: seq<byte>)
    requires RingHolds(ring, tail, head, queue)
    ensures Next(head, |ring|) == tail <==> |queue| == |ring| - 1
    ensures head == tail <==> queue == []
  {
  }

  lemma PushKeepsRing(ring: seq<byte>, tail: nat, head: nat, queue: seq<byte>, b: byte)
    requires RingHolds(ring, tail, head, queue) && |queue| < |ring| - 1
    ensures RingHolds(ring[head := b], tail, Next(head, |ring|), queue + [b])
  {
    forall i | 0 <= i < |queue| + 1
      ensures ring[head := b][RingSlot(tail, i, |ring|)] == (queue + [b])[i]
    {
      if i < |queue| {
        assert RingSlot(tail, i, |ring|) != head;
      }
    }
  }

  lemma PopKeepsRing(ring: seq<byte>, tail: nat, head: nat, queue: seq<byte>)
    requires RingHolds(ring, tail, head, queue) && queue != []
    ensures ring[tail] == queue[0]
    ensures RingHolds(ring, Next(tail, |ring|), head, queue[1..])
  {
    assert RingSlot(tail, 0, |ring|) == tail;
    forall i | 0 <= i < |queue| - 1
      ensures ring[RingSlot(Next(tail, |ring|), i, |ring|)] == queue[1..][i]
    {
      assert RingSlot(Next(tail, |ring|), i, |ring|) == RingSlot(tail, i + 1, |ring|);
    }
  }

  // ---------- the driver ----------

  class ConsoleDriver {
    const ringbuf: array<byte>
    const intBuf: array<byte>
    var ringHead: nat
    var ringTail: nat
    var droppedBytes: nat
    var uart: seq<Out>
    ghost var queue: seq<byte>
    ghost var held: seq<byte>
    ghost var snapshot: Option<nat>
    ghost var past: History

    constructor (size: nat)
      requires size >= 2
      ensures Valid() && Initial(View()) && Cap() == size - 1
      ensures fresh(ringbuf) && fresh(intBuf)
    {
      ringbuf := new byte[size](_ => 0);
      intBuf := new byte[size](_ => 0);
      ringHead, ringTail, droppedBytes := 0, 0, 0;
      uart, queue, held, snapshot, past := [], [], [], None, History([], [], 0, 0, 0);
    }

    ghost predicate Valid()
      reads this, ringbuf
    {
      && ringbuf != intBuf && intBuf.Length == ringbuf.Length >= 2
      && RingHolds(ringbuf[..], ringTail, ringHead, queue) && droppedBytes < U32_RANGE
    }

    ghost function View(): State
      reads this
    {
      State(queue, held, droppedBytes, snapshot, uart, past)
    }

    ghost function Cap(): nat
      requires Valid()
      reads this, ringbuf
    {
      ringbuf.Length - 1
    }

    method IsRingbufFull() returns (full: bool)
      requires Valid()
      ensures full <==> |queue| == Cap()
    {
      FullIsExact(ringbuf[..], ringTail, ringHead, queue);
      full := Next(ringHead, ringbuf.Length) == ringTail;
    }

    /** `console_write_ringbuf`; a null buffer is None. */
    method WriteRingbuf(buf: Option<seq<byte>>, length: nat) returns (ret: int)
      requires Valid() && length < U32_RANGE && (buf.Some? ==> |buf.value| == length)
      modifies this`ringHead, this`droppedBytes, this`queue, this`past, ringbuf
      ensures Valid()
      ensures buf.None? || length == 0 ==> ret == -1 && View() == old(View())
      ensures buf.Some? && length > 0 ==>
                ret == 0 && Enabled(old(View()), old(Cap()), Write(buf.value))
                && View() == Step(old(View()), old(Cap()), Write(buf.value))
      ensures buf.Some? && length > 0 ==>
                |queue| == old(|queue|) + length || |queue| == Cap()
    {
      if buf.None? || length == 0 {
        ret := -1;
        return;
      }
      var b := buf.value;
      var idx := 0;
      ghost var n := Room(|queue|, Cap(), length);
      while idx < length
        invariant idx <= n && Valid() && queue == old(queue) + b[..idx]
        invariant droppedBytes == old(droppedBytes) && past == old(past)
      {
        var full := IsRingbufFull();
        if full {
          break;
        }
        PushKeepsRing(ringbuf[..], ringTail, ringHead, queue, b[idx]);
        assert b[..idx + 1] == b[..idx] + [b[idx]];
        ringbuf[ringHead] := b[idx];
        ringHead := Next(ringHead, ringbuf.Length);
        queue := queue + [b[idx]];
        idx := idx + 1;
      }
      assert idx == n;
      past := Recorded(past, b, idx);
      CountDropped(length - idx);
      ret := 0;
    }

    /** Add to the 32-bit counter of dropped bytes. */
    method CountDropped(more: nat)
      requires droppedBytes < U32_RANGE && more < U32_RANGE
      modifies this`droppedBytes, this`past
      ensures View() == Lose(old(View()), more)
    {
      past := past.(since := past.since + more);
      droppedBytes := (droppedBytes + more) % U32_RANGE;
    }

    /** `console_fill_buf`. `polled` is what the polling write answers. */
    method FillBuf(isOpen: bool, buf: Option<seq<byte>>, length: int, inInterrupt: bool,
                   started: bool, polled: int) returns (ret: int)
      requires Valid() && length < U32_RANGE && (buf.Some? && length > 0 ==> |buf.value| == length)
      modifies this, ringbuf
      ensures Valid() && Cap() == old(Cap())
      ensures !isOpen || length <= 0 ==> ret == MINUS_EINVAL && View() == old(View())
      ensures isOpen && length > 0 && !inInterrupt && !started ==>
                if buf.None? then ret == MINUS_EINVAL && View() == old(View())
                else ret == (if polled == 0 then length else polled)
                     && Enabled(old(View()), Cap(), Direct(buf.value))
                     && View() == Step(old(View()), Cap(), Direct(buf.value))
      ensures isOpen && length > 0 && (inInterrupt || started) ==>
                var e := if buf.None? then WriteNull(length) else Write(buf.value);
                ret == (if buf.None? then MINUS_ENOMEM else length)
                && Enabled(old(View()), Cap(), e) && View() == Step(old(View()), Cap(), e)
    {
      if !isOpen || length <= 0 {
        ret := MINUS_EINVAL;
        return;
      }
      if !inInterrupt && !started {
        if buf.None? {
          ret := MINUS_EINVAL;
        } else {
          uart := uart + [Data(buf.value)];
          past := Recorded(past, buf.value, length);
          ret := if polled == 0 then length else polled;
        }
        return;
      }
      ret := WriteRingbuf(buf, length);
      if ret != 0 {
        past := past.(nulls := past.nulls + length);
        CountDropped(length);
        ret := MINUS_ENOMEM;
      } else {
        ret := length;
      }
    }

    /** Interrupts may write any number of the `arrivals` from `j` on. */
    method Interrupts(arrivals: seq<seq<byte>>, j: nat, ghost from: State, ghost es: seq<Event>)
      returns (j': nat, ghost es': seq<Event>)
      requires Valid() && j <= |arrivals| && AllSized(arrivals) && Empties(from, Cap(), arrivals, es, View())
      modifies this`ringHead, this`droppedBytes, this`queue, this`past, ringbuf
      ensures Valid() && Cap() == old(Cap()) && Empties(from, Cap(), arrivals, es', View())
      ensures j <= j' <= |arrivals| && (j' == j ==> View() == old(View()))
      ensures old(queue) <= queue
    {
      j', es' := j, es;
      var more: bool := *;
      while more && j' < |arrivals|
        invariant Valid() && Cap() == old(Cap()) && Empties(from, Cap(), arrivals, es', View())
        invariant j <= j' <= |arrivals| && (j' == j ==> View() == old(View()))
        invariant old(queue) <= queue
        decreases |arrivals| - j'
      {
        EmptiesAppend(from, Cap(), arrivals, es', View(), Write(arrivals[j']));
        es' := es' + [Write(arrivals[j'])];
        var r := WriteRingbuf(Some(arrivals[j']), |arrivals[j']|);
        j', more := j' + 1, *;
      }
    }

    /** Move one byte from the ring to the buffer. */
    method TakeByte(buf: array<byte>, at: nat)
      requires Valid() && buf != ringbuf && at < buf.Length && queue != []
      requires held == buf[..at]
      modifies this`ringTail, this`queue, this`held, buf
      ensures Valid() && held == buf[..at + 1]
      ensures Enabled(old(View()), Cap(), Take) && View() == Step(old(View()), Cap(), Take)
    {
      PopKeepsRing(ringbuf[..], ringTail, ringHead, queue);
      buf[at] := ringbuf[ringTail];
      ringTail := Next(ringTail, ringbuf.Length);
      held, queue := held + [queue[0]], queue[1..];
    }

    /** `console_read_ringbuf`: take up to `length` bytes from the front of the queue, while
        interrupts write. */
    method ReadRingbuf(buf: array?<byte>, length: nat, arrivals: seq<seq<byte>>, j: nat,
                       ghost from: State, ghost es: seq<Event>)
      returns (ret: int, j': nat, ghost es': seq<Event>)
      requires Valid() && buf != ringbuf && (buf != null ==> length <= buf.Length) && held == []
      requires j <= |arrivals| && AllSized(arrivals) && Empties(from, Cap(), arrivals, es, View())
      modifies this`ringHead, this`ringTail, this`droppedBytes, this`queue, this`held, this`past, ringbuf, buf
      ensures Valid() && Cap() == old(Cap()) && Empties(from, Cap(), arrivals, es', View())
      ensures j <= j' <= |arrivals|
      ensures buf == null || length == 0 ==> ret == -1 && View() == old(View())
      ensures buf != null && length > 0 ==>
                0 <= ret <= length && held == buf[..ret] && (ret < length ==> queue == [])
      ensures buf != null && length > 0 && j' == j ==>
                ret <= old(|queue|) && held == old(queue)[..ret] && queue == old(queue)[ret..]
    {
      j', es' := j, es;
      if buf == null || length == 0 {
        ret := -1;
        return;
      }
      ret := 0;
      FullIsExact(ringbuf[..], ringTail, ringHead, queue);
      while ret < length && ringTail != ringHead
        invariant Valid() && Cap() == old(Cap()) && Empties(from, Cap(), arrivals, es', View())
        invariant 0 <= ret <= length && j <= j' <= |arrivals| && held == buf[..ret]
        invariant ringTail == ringHead <==> queue == []
        invariant j' == j ==>
                    ret <= old(|queue|) && held == old(queue)[..ret] && queue == old(queue)[ret..]
      {
        EmptiesAppend(from, Cap(), arrivals, es', View(), Take);
        es' := es' + [Take];
        TakeByte(buf, ret);
        ret := ret + 1;
        j', es' := Interrupts(arrivals, j', from, es');
        FullIsExact(ringbuf[..], ringTail, ringHead, queue);
      }
    }

    /** One pass of the drain loop: move what the ring holds into the buffer and to the UART. */
    method Pass(arrivals: seq<seq<byte>>, j: nat, ghost from: State, ghost es: seq<Event>)
      returns (n: int, j': nat, ghost es': seq<Event>)
      requires Valid() && held == [] && j <= |arrivals| && AllSized(arrivals)
      requires Empties(from, Cap(), arrivals, es, View())
      modifies this`ringHead, this`ringTail, this`droppedBytes, this`queue, this`held, this`past, this`uart,
               ringbuf, intBuf
      ensures Valid() && Cap() == old(Cap()) && Empties(from, Cap(), arrivals, es', View())
      ensures held == [] && j <= j' <= |arrivals|
      ensures j' == j ==> n == |old(queue)| && queue == []
    {
      n, j', es' := ReadRingbuf(intBuf, intBuf.Length, arrivals, j, from, es);
      EmptiesAppend(from, Cap(), arrivals, es', View(), Hand);
      es' := es' + [Hand];
      uart := uart + [Data(intBuf[..n])];
      held := [];
    }

    /** The drain loop of `console_clear_pending`. The flush task drains with blocking writes; the
        idle hook polls, and stops when the UART is busy (`busyNow` the first time) or refuses. */
    method Drained(flushTask: bool, busyNow: bool, arrivals: seq<seq<byte>>, ghost from: State,
                   ghost es: seq<Event>)
      returns (j: nat, ghost es': seq<Event>)
      requires Valid() && AllSized(arrivals) && snapshot.None? && held == []
      requires Empties(from, Cap(), arrivals, es, View())
      modifies this, ringbuf, intBuf
      ensures Valid() && Cap() == old(Cap()) && Empties(from, Cap(), arrivals, es', View())
      ensures j <= |arrivals| && snapshot.None? && held == []
      ensures arrivals == [] && (flushTask || !busyNow) ==> queue == []
    {
      j, es' := 0, es;
      var more, passed := true, false;
      while more
        invariant Valid() && Cap() == old(Cap()) && Empties(from, Cap(), arrivals, es', View())
        invariant j <= |arrivals| && snapshot.None? && held == []
        invariant passed && arrivals == [] ==> queue == []
        invariant !more ==> passed
        decreases |arrivals| - j, if more then 1 + |queue| else 0
      {
        if !flushTask {
          var busy := busyNow;
          if passed {
            busy := *;
          }
          if busy {
            break;
          }
        }
        var n;
        n, j, es' := Pass(arrivals, j, from, es');
        passed := true;
        if !flushTask {
          var status: int := *;
          if n == 0 || status != 0 {
            break;
          }
        }
        more := n != 0;
        j, es' := Interrupts(arrivals, j, from, es');
      }
    }

    /** The report of `console_clear_pending`. */
    method ReportDrops(arrivals: seq<seq<byte>>, j: nat, ghost from: State, ghost es: seq<Event>)
      returns (ghost es': seq<Event>)
      requires Valid() && AllSized(arrivals) && snapshot.None? && held == []
      requires Empties(from, Cap(), arrivals, es, View())
      requires j <= |arrivals|
      modifies this, ringbuf
      ensures Valid() && Cap() == old(Cap()) && Empties(from, Cap(), arrivals, es', View())
      ensures droppedBytes == 0 && snapshot.None? && held == []
      ensures arrivals == [] ==>
                queue == old(queue)
                && uart == old(uart) + (if old(droppedBytes) > 0 then [Report(old(droppedBytes))] else [])
    {
      es' := es;
      if droppedBytes > 0 {
        var drops := droppedBytes;
        EmptiesAppend(from, Cap(), arrivals, es', View(), Snapshot);
        es' := es' + [Snapshot];
        snapshot := Some(drops);
        var j';
        j', es' := Interrupts(arrivals, j, from, es');
        EmptiesAppend(from, Cap(), arrivals, es', View(), Clear);
        es' := es' + [Clear];
        past := past.(since := 0, missed := past.missed + past.since - drops);
        snapshot := None;
        droppedBytes := 0;
        uart := uart + [Report(drops)];
      }
    }

    /** `console_clear_pending`. `arrivals` are the writes of interrupts, which come while bytes are
        taken, between two passes of the loop, and in the middle of the report. */
    method ClearPending(isOpen: bool, flushTask: bool, busyNow: bool, arrivals: seq<seq<byte>>)
      returns (ghost es: seq<Event>)
      requires Valid() && AllSized(arrivals) && snapshot.None? && held == []
      modifies this, ringbuf, intBuf
      ensures Valid() && Cap() == old(Cap()) && Empties(old(View()), Cap(), arrivals, es, View())
      ensures !isOpen ==> View() == old(View())
      ensures isOpen ==> droppedBytes == 0
      ensures isOpen && arrivals == [] && (flushTask || !busyNow) ==>
                queue == [] && DataOf(uart) == DataOf(old(uart)) + old(queue)
      ensures snapshot.None? && held == []
    {
      es := [];
      if !isOpen {
        return;
      }
      var j := 0;
      FullIsExact(ringbuf[..], ringTail, ringHead, queue);
      if ringTail != ringHead {
        j, es := Drained(flushTask, busyNow, arrivals, old(View()), es);
      }
      es := ReportDrops(arrivals, j, old(View()), es);
      if arrivals == [] {
        EmptyingSends(old(View()), Cap(), es, View());
        assert Waiting(View()) == queue && Waiting(old(View())) == old(queue);
      }
    }
  }

  predicate AllSized(bufs: seq<seq<byte>>) {
    forall i | 0 <= i < |bufs| :: 0 < |bufs[i]| < U32_RANGE
  }
}
