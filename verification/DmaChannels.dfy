/** The channels of one DMA controller: configuration, set-up, start, stop and the completion
    interrupt, and what holds of the hardware enable bits on every run. */
module DmaChannels {
  import opened Common
  import opened DmaChain

  const NUM_CHANNELS: nat := 4
  const LLI_PER_CHANNEL: nat := 128
  const SUSPEND_TIMEOUT: nat := 100

  datatype ChState = Idle | Active

  /** The driver's context of a channel. */
  datatype Context = Context(isOpen: bool, state: ChState, dir: Direction)

  /** The CHENREG register: enable and suspend bits, each with its write-enable bit. */
  datatype Chenreg = Chenreg(en: set<nat>, enWe: set<nat>, susp: set<nat>, suspWe: set<nat>)

  /** The controller hardware. `stopping` are the enabled channels asked to disable, `pending`
      those with an unserved transfer-done interrupt; `llp` is where each chain starts. */
  datatype Hardware = Hardware(enabled: set<nat>, stopping: set<nat>, suspended: set<nat>,
                               pending: set<nat>, llp: map<nat, nat>)

  /** How far a call of `dma_stop_transfer` on a channel got: after the suspend, after the request
      to disable, or polling, with what the last read of the enable bit `saw` and the count of
      the loop. */
  datatype StopPhase = NotStopping | Suspending | Requested | Polling(saw: bool, count: nat)

  datatype Dma = Dma(ctx: seq<Context>, stops: seq<StopPhase>, hw: Hardware, mem: seq<Desc>)

  // ---------- hardware ----------

  /** Write-enable bits read as zero. */
  function ReadChenreg(hw: Hardware): Chenreg {
    Chenreg(hw.enabled, {}, hw.suspended, {})
  }

  /** Only bits whose write-enable bit is set take effect; clearing an enable bit is a request. */
  function WriteChenreg(hw: Hardware, v: Chenreg): Hardware {
    hw.(enabled := hw.enabled + v.en * v.enWe,
        stopping := (hw.stopping - v.en * v.enWe) + (hw.enabled - v.en) * v.enWe,
        suspended := (hw.suspended - (v.suspWe - v.susp)) + v.susp * v.suspWe)
  }

  /** The hardware disables a channel that was asked to stop. */
  function Disabled(hw: Hardware, ch: nat): Hardware {
    hw.(enabled := hw.enabled - {ch}, stopping := hw.stopping - {ch},
        suspended := hw.suspended - {ch})
  }

  // ---------- events ----------

  /** A request list as handed to `dma_setup_transfer`. */
  datatype Job = Job(pool: seq<XferCfg>, first: Option<nat>, n: nat,
                     srcWidth: Width, dstWidth: Width)

  /** Driver calls on a channel, and what the hardware does by itself. `region` is what set-up
      leaves in the channel's descriptors. A stop is four kinds of events, between which anything
      else may happen. */
  datatype Event =
    | Open(ch: nat)
    | Config(ch: nat, dir: Direction)
    | Setup(ch: nat, job: Job, base: nat, region: seq<Desc>)
    | Start(ch: nat)
    | StopBegin(ch: nat)
    | StopAsk(ch: nat)
    | StopPoll(ch: nat)
    | StopEnd(ch: nat)
    | Irq(ch: nat)
    | Completes(ch: nat)
    | GoesOff(ch: nat)

  predicate JobOk(job: Job) {
    && WellLinked(job.pool, job.first)
    && forall i | 0 <= i < |job.pool| :: job.pool[i].blkSize < U32_RANGE
  }

  function RegionStart(ch: nat): nat {
    ch * LLI_PER_CHANNEL
  }

  function Region(d: Dma, ch: nat): seq<Desc>
    requires ch < NUM_CHANNELS && |d.mem| == NUM_CHANNELS * LLI_PER_CHANNEL
  {
    d.mem[RegionStart(ch)..RegionStart(ch) + LLI_PER_CHANNEL]
  }

  /** The checks before the region is touched. */
  function SetupGuard(d: Dma, ch: nat, job: Job): Ret
    requires ch < |d.ctx|
  {
    if job.n > LLI_PER_CHANNEL then EINVAL
    else if job.first.None? then EFAULT
    else if !d.ctx[ch].isOpen then EIO
    else if d.ctx[ch].state != Idle then EBUSY
    else OK
  }

  function JobVerdict(job: Job): Ret
    requires JobOk(job)
  {
    Verdict(Follow(job.pool, job.first, job.n), job.n, job.srcWidth)
  }

  /** What an accepted job leaves in the channel's region. */
  ghost predicate RegionHolds(region: seq<Desc>, job: Job, dir: Direction, here: nat)
    requires JobOk(job)
  {
    IsProgram(region, Follow(job.pool, job.first, job.n),
              Format(dir, job.srcWidth, job.dstWidth), here)
  }

  ghost predicate Shaped(d: Dma) {
    |d.ctx| == |d.stops| == NUM_CHANNELS && |d.mem| == NUM_CHANNELS * LLI_PER_CHANNEL
  }

  /** The polling loop goes on, and ends. */
  predicate PollsOn(p: StopPhase) {
    p.Requested? || (p.Polling? && p.saw && p.count < SUSPEND_TIMEOUT)
  }

  predicate PollsNoMore(p: StopPhase) {
    p.Polling? && !(p.saw && p.count < SUSPEND_TIMEOUT)
  }

  /** The stop is about to mark its channel idle: its last read saw the channel off in time. */
  predicate Ending(p: StopPhase) {
    PollsNoMore(p) && p.count != SUSPEND_TIMEOUT
  }

  ghost predicate EventOk(d: Dma, e: Event) {
    && Shaped(d) && e.ch < NUM_CHANNELS
    && match e
       case Setup(ch, job, base, region) =>
         && JobOk(job) && |region| == LLI_PER_CHANNEL
         && (SetupGuard(d, ch, job) == OK && JobVerdict(job) == OK ==>
               RegionHolds(region, job, d.ctx[ch].dir, base + DESC_SIZE * RegionStart(ch)))
       case StopBegin(ch) => d.stops[ch].NotStopping? && d.ctx[ch].state != Idle
       case StopAsk(ch) => d.stops[ch].Suspending?
       case StopPoll(ch) => PollsOn(d.stops[ch])
       case StopEnd(ch) => PollsNoMore(d.stops[ch])
       case Completes(ch) => ch in d.hw.enabled
       case GoesOff(ch) => ch in d.hw.stopping
       case _ => true
  }

  // ---------- the driver ----------

  function Started(d: Dma, ch: nat): Dma
    requires ch < |d.ctx|
  {
    var v := ReadChenreg(d.hw);
    d.(ctx := d.ctx[ch := d.ctx[ch].(state := Active)],
       hw := WriteChenreg(d.hw, v.(en := v.en + {ch}, enWe := v.enWe + {ch})))
  }

  function Suspended(hw: Hardware, ch: nat): Hardware {
    var v := ReadChenreg(hw);
    WriteChenreg(hw, v.(susp := v.susp + {ch}, suspWe := v.suspWe + {ch}))
  }

  function OffRequested(hw: Hardware, ch: nat): Hardware {
    var v := ReadChenreg(hw);
    WriteChenreg(hw, v.(en := v.en - {ch}, enWe := v.enWe + {ch}))
  }

  /** The loop's count after one more read; the first read is not counted. */
  function NextCount(p: StopPhase): nat {
    if p.Polling? then p.count + 1 else 0
  }

  function InPhase(d: Dma, ch: nat, p: StopPhase): Dma
    requires ch < |d.stops|
  {
    d.(stops := d.stops[ch := p])
  }

  function Step(d: Dma, e: Event): (d': Dma)
    requires Shaped(d) && e.ch < NUM_CHANNELS
    requires e.Setup? ==> |e.region| == LLI_PER_CHANNEL && JobOk(e.job)
    ensures Shaped(d')
  {
    var ch := e.ch;
    var c := d.ctx[ch];
    match e
    case Open(_) =>
      if !c.isOpen && c.state == Idle then d.(ctx := d.ctx[ch := c.(isOpen := true)]) else d
    case Config(_, dir) =>
      if c.isOpen && c.state == Idle then d.(ctx := d.ctx[ch := c.(dir := dir)]) else d
    case Setup(_, job, base, region) =>
      if SetupGuard(d, ch, job) != OK then d
      else
        var s := RegionStart(ch);
        d.(hw := if JobVerdict(job) == OK
                 then d.hw.(llp := d.hw.llp[ch := base + DESC_SIZE * s]) else d.hw,
           mem := Overlay(d.mem, s, region))
    case Start(_) =>
      if c.isOpen && c.state == Idle then Started(d, ch) else d
    case StopBegin(_) => InPhase(d, ch, Suspending).(hw := Suspended(d.hw, ch))
    case StopAsk(_) => InPhase(d, ch, Requested).(hw := OffRequested(d.hw, ch))
    case StopPoll(_) => InPhase(d, ch, Polling(ch in d.hw.enabled, NextCount(d.stops[ch])))
    case StopEnd(_) =>
      var d1 := InPhase(d, ch, NotStopping);
      if Ending(d.stops[ch]) then d1.(ctx := d.ctx[ch := c.(state := Idle)]) else d1
    case Irq(_) =>
      if ch !in d.hw.pending then d
      else d.(ctx := d.ctx[ch := c.(state := Idle)], hw := d.hw.(pending := d.hw.pending - {ch}))
    case Completes(_) =>
      d.(hw := Disabled(d.hw, ch).(pending := d.hw.pending + {ch}))
    case GoesOff(_) =>
      d.(hw := Disabled(d.hw, ch))
  }

  // ---------- what every run keeps ----------

  /** Nothing is under way that would mark the channel idle: no done interrupt is outstanding, and
      no stop has seen the channel off and is about to end. */
  ghost predicate Settled(d: Dma, ch: nat)
    requires ch < |d.stops|
  {
    ch !in d.hw.pending && !Ending(d.stops[ch])
  }

  /** An enabled channel is active, and settled. */
  ghost predicate Inv(d: Dma) {
    && Shaped(d)
    && d.hw.stopping <= d.hw.enabled
    && forall ch | ch in d.hw.enabled ::
         ch < NUM_CHANNELS && d.ctx[ch].isOpen && d.ctx[ch].state == Active && Settled(d, ch)
  }

  /** A channel is started only when it is settled. */
  ghost predicate Served(d: Dma, e: Event)
    requires Shaped(d) && e.ch < NUM_CHANNELS
  {
    e.Start? ==> Settled(d, e.ch)
  }

  /** What the driver writes back to CHENREG changes only the bits of its own channel, even if the
      value it read is stale: the write-enable bits it read were zero. */
  lemma ChenregEffects(hw: Hardware, v: Chenreg, ch: nat)
    requires hw.stopping <= hw.enabled && v.enWe == v.suspWe == {}
    ensures WriteChenreg(hw, v.(en := v.en + {ch}, enWe := v.enWe + {ch}))
            == hw.(enabled := hw.enabled + {ch}, stopping := hw.stopping - {ch})
    ensures WriteChenreg(hw, v.(susp := v.susp + {ch}, suspWe := v.suspWe + {ch}))
            == hw.(suspended := hw.suspended + {ch})
    ensures WriteChenreg(hw, v.(en := v.en - {ch}, enWe := v.enWe + {ch}))
            == hw.(stopping := if ch in hw.enabled then hw.stopping + {ch} else hw.stopping)
  {
  }

  lemma RequestEffects(hw: Hardware, ch: nat)
    requires hw.stopping <= hw.enabled
    ensures var v := ReadChenreg(hw);
            WriteChenreg(hw, v.(en := v.en + {ch}, enWe := v.enWe + {ch}))
            == hw.(enabled := hw.enabled + {ch}, stopping := hw.stopping - {ch})
    ensures Suspended(hw, ch) == hw.(suspended := hw.suspended + {ch})
    ensures OffRequested(hw, ch)
            == hw.(stopping := if ch in hw.enabled then hw.stopping + {ch} else hw.stopping)
  {
    ChenregEffects(hw, ReadChenreg(hw), ch);
  }

  /** Every step keeps the invariant when a channel is started only when it is settled. */
  lemma StepInv(d: Dma, e: Event)
    requires Inv(d) && EventOk(d, e) && Served(d, e)
    ensures Inv(Step(d, e))
  {
    RequestEffects(d.hw, e.ch);
  }

  /** One step touches no other channel: its context, its stop, its bits and descriptors stay. */
  lemma OthersUntouched(d: Dma, e: Event, ch: nat)
    requires d.hw.stopping <= d.hw.enabled && EventOk(d, e) && ch < NUM_CHANNELS && ch != e.ch
    ensures var d' := Step(d, e);
            && d'.ctx[ch] == d.ctx[ch] && d'.stops[ch] == d.stops[ch] && Region(d', ch) == Region(d, ch)
            && (ch in d'.hw.enabled <==> ch in d.hw.enabled)
            && (ch in d'.hw.pending <==> ch in d.hw.pending)
            && (ch in d'.hw.stopping <==> ch in d.hw.stopping)
            && (ch in d'.hw.suspended <==> ch in d.hw.suspended)
            && (ch in d'.hw.llp <==> ch in d.hw.llp)
            && (ch in d.hw.llp ==> d'.hw.llp[ch] == d.hw.llp[ch])
  {
    RequestEffects(d.hw, e.ch);
    if e.Setup? && SetupGuard(d, e.ch, e.job) == OK {
      OverlayElsewhere(d.mem, e.ch, e.region, ch);
    }
  }

  lemma OverlayElsewhere(mem: seq<Desc>, at: nat, region: seq<Desc>, ch: nat)
    requires |mem| == NUM_CHANNELS * LLI_PER_CHANNEL && |region| == LLI_PER_CHANNEL
    requires at < NUM_CHANNELS && ch < NUM_CHANNELS && at != ch
    ensures var mem' := Overlay(mem, RegionStart(at), region);
            mem'[RegionStart(ch)..RegionStart(ch) + LLI_PER_CHANNEL]
            == mem[RegionStart(ch)..RegionStart(ch) + LLI_PER_CHANNEL]
  {
  }

  /** A channel that is not open, or not idle, can be neither configured nor set up nor started. */
  lemma GuardedIsInert(d: Dma, e: Event)
    requires EventOk(d, e) && (e.Config? || e.Setup? || e.Start?)
    requires !d.ctx[e.ch].isOpen || d.ctx[e.ch].state != Idle
    ensures Step(d, e) == d
  {
  }

  /** The chain and the start pointer of an enabled channel are never rewritten. */
  lemma EnabledChainKept(d: Dma, e: Event, ch: nat)
    requires Inv(d) && EventOk(d, e) && ch in d.hw.enabled
    ensures Region(Step(d, e), ch) == Region(d, ch)
    ensures ch in d.hw.llp ==>
              ch in Step(d, e).hw.llp && Step(d, e).hw.llp[ch] == d.hw.llp[ch]
  {
    if ch != e.ch {
      OthersUntouched(d, e, ch);
    }
  }

  // ---------- whole runs ----------

  function Initial(mem: seq<Desc>): Dma {
    Dma(seq(NUM_CHANNELS, _ => Context(false, Idle, MemToMemDmac)),
        seq(NUM_CHANNELS, _ => NotStopping), Hardware({}, {}, {}, {}, map[]), mem)
  }

  /** A run in which channels are started only when they are settled. */
  ghost predicate SafeRun(d: Dma, es: seq<Event>, d': Dma)
    decreases |es|
  {
    if es == [] then d' == d
    else EventOk(d, es[0]) && Served(d, es[0]) && SafeRun(Step(d, es[0]), es[1..], d')
  }

  predicate EnabledAreActive(d: Dma) {
    forall ch | ch in d.hw.enabled :: ch < |d.ctx| && d.ctx[ch].isOpen && d.ctx[ch].state == Active
  }

  lemma {:induction false} RunInv(d: Dma, es: seq<Event>, d': Dma)
    requires Inv(d) && SafeRun(d, es, d')
    ensures Inv(d')
    decreases |es|
  {
    if es != [] {
      StepInv(d, es[0]);
      RunInv(Step(d, es[0]), es[1..], d');
    }
  }

  /** On every such run of every mix of calls on all channels, an enabled channel is active,
      also while one of them is being stopped and after a stop that timed out. */
  lemma ChannelsSafe(mem: seq<Desc>, es: seq<Event>, d: Dma)
    requires |mem| == NUM_CHANNELS * LLI_PER_CHANNEL && SafeRun(Initial(mem), es, d)
    ensures EnabledAreActive(d)
  {
    RunInv(Initial(mem), es, d);
  }

  /** The channel is enabled in every state of the run but perhaps the last. */
  ghost predicate EnabledDuring(d: Dma, es: seq<Event>, d': Dma, ch: nat)
    requires SafeRun(d, es, d')
    decreases |es|
  {
    es == [] || (ch in d.hw.enabled && EnabledDuring(Step(d, es[0]), es[1..], d', ch))
  }

  /** Whatever happens on any channel, the hardware never sees the chain of an enabled channel
      change under it. */
  lemma {:induction false} ChainKeptWhileEnabled(d: Dma, es: seq<Event>, d': Dma, ch: nat)
    requires Inv(d) && SafeRun(d, es, d') && ch < NUM_CHANNELS && EnabledDuring(d, es, d', ch)
    ensures Shaped(d') && Region(d', ch) == Region(d, ch)
    ensures ch in d.hw.llp ==> ch in d'.hw.llp && d'.hw.llp[ch] == d.hw.llp[ch]
    decreases |es|
  {
    if es != [] {
      StepInv(d, es[0]);
      EnabledChainKept(d, es[0], ch);
      ChainKeptWhileEnabled(Step(d, es[0]), es[1..], d', ch);
    }
  }

  /** That is exactly what a start needs: after a successful start, the next interrupt, and the end
      of a stop that is due to end, leave every enabled channel active if and only if the channel
      was settled. */
  lemma StartNeedsSettled(d: Dma, ch: nat)
    requires Inv(d) && ch < NUM_CHANNELS && d.ctx[ch].isOpen && d.ctx[ch].state == Idle
    ensures var d1 := Step(d, Start(ch));
            Settled(d, ch)
            <==> EnabledAreActive(Step(d1, Irq(ch)))
                 && (EventOk(d1, StopEnd(ch)) ==> EnabledAreActive(Step(d1, StopEnd(ch))))
  {
    RequestEffects(d.hw, ch);
    var d1 := Step(d, Start(ch));
    assert ch in d1.hw.enabled;
    if ch in d.hw.pending {
      assert ch in Step(d1, Irq(ch)).hw.enabled;
    } else if Ending(d.stops[ch]) {
      assert EventOk(d1, StopEnd(ch)) && ch in Step(d1, StopEnd(ch)).hw.enabled;
    }
  }

  lemma {:induction false} RunsOn(d: Dma, es: seq<Event>, d1: Dma, e: Event)
    requires SafeRun(d, es, d1) && EventOk(d1, e) && Served(d1, e)
    ensures SafeRun(d, es + [e], Step(d1, e))
    decreases |es|
  {
    if es == [] {
      assert [e][1..] == [];
    } else {
      assert (es + [e])[1..] == es[1..] + [e];
      RunsOn(Step(d, es[0]), es[1..], d1, e);
    }
  }

  /** From an enabled channel: it completes, and a stop that was already polling sees it off. */
  lemma {:induction false} StopSeesOff(d0: Dma, ch: nat) returns (es: seq<Event>, d: Dma)
    requires Inv(d0) && ch in d0.hw.enabled && d0.stops[ch].NotStopping?
    ensures SafeRun(d0, es, d) && Inv(d) && ch in d.hw.pending && d.stops[ch] == Polling(false, 0)
    ensures d.ctx == d0.ctx
  {
    RequestEffects(d0.hw, ch);
    var d1 := Step(d0, StopBegin(ch));
    StepInv(d0, StopBegin(ch));
    RequestEffects(d1.hw, ch);
    var d2 := Step(d1, StopAsk(ch));
    StepInv(d1, StopAsk(ch));
    var d3 := Step(d2, Completes(ch));
    StepInv(d2, Completes(ch));
    d := Step(d3, StopPoll(ch));
    StepInv(d3, StopPoll(ch));
    es := [];
    RunsOn(d0, es, d0, StopBegin(ch));
    es := es + [StopBegin(ch)];
    RunsOn(d0, es, d1, StopAsk(ch));
    es := es + [StopAsk(ch)];
    RunsOn(d0, es, d2, Completes(ch));
    es := es + [Completes(ch)];
    RunsOn(d0, es, d3, StopPoll(ch));
    es := es + [StopPoll(ch)];
  }

  /** A transfer is started and completes while it is being stopped. */
  lemma {:induction false} CompletesInStop(mem: seq<Desc>) returns (es: seq<Event>, d: Dma)
    requires |mem| == NUM_CHANNELS * LLI_PER_CHANNEL
    ensures SafeRun(Initial(mem), es, d) && Inv(d) && d.ctx[0].isOpen
    ensures 0 in d.hw.pending && d.stops[0] == Polling(false, 0)
  {
    var d0 := Initial(mem);
    var d1 := Step(d0, Open(0));
    StepInv(d0, Open(0));
    var d2 := Step(d1, Start(0));
    StepInv(d1, Start(0));
    RequestEffects(d1.hw, 0);
    es, d := StopSeesOff(d2, 0);
    es := [Open(0), Start(0)] + es;
    assert es[1..] == [Start(0)] + es[2..] && es[1..][1..] == es[2..];
  }

  /** The driver can get to both. If the stop ends before the done interrupt is served, the stale
      interrupt marks the next transfer idle; if the interrupt is served first, and the channel
      started again, the end of the stop does. */
  lemma {:induction false} StaleMarks(mem: seq<Desc>, interruptFirst: bool)
    returns (es: seq<Event>, d: Dma, last: Event)
    requires |mem| == NUM_CHANNELS * LLI_PER_CHANNEL
    ensures Shaped(d) && SafeRun(Initial(mem), es, d) && d.ctx[0].isOpen && d.ctx[0].state == Idle
    ensures last == if interruptFirst then StopEnd(0) else Irq(0)
    ensures !Settled(d, 0) && EventOk(Step(d, Start(0)), last)
    ensures !EnabledAreActive(Step(Step(d, Start(0)), last))
  {
    var d0;
    es, d0 := CompletesInStop(mem);
    var first := if interruptFirst then Irq(0) else StopEnd(0);
    last := if interruptFirst then StopEnd(0) else Irq(0);
    RunsOn(Initial(mem), es, d0, first);
    es, d := es + [first], Step(d0, first);
    StepInv(d0, first);
    RequestEffects(d.hw, 0);
    assert 0 in Step(Step(d, Start(0)), last).hw.enabled;
  }

  /** What the hardware was told of the stop that is in progress: to suspend the channel, and then
      to disable it, unless it is off already. */
  predicate Told(d: Dma, ch: nat)
    requires ch < |d.stops|
  {
    ch in d.hw.enabled ==>
      && (!d.stops[ch].NotStopping? ==> ch in d.hw.suspended)
      && (d.stops[ch].Requested? || d.stops[ch].Polling? ==> ch in d.hw.stopping)
  }

  lemma {:induction false} ToldStep(d: Dma, e: Event, ch: nat)
    requires EventOk(d, e) && ch < NUM_CHANNELS && e != Start(ch) && Told(d, ch)
    ensures Told(Step(d, e), ch)
  {
    match e
    case StopBegin(_) => assert Suspended(d.hw, e.ch).suspended == d.hw.suspended + {e.ch};
    case StopAsk(_) => assert d.hw.enabled * {e.ch} <= OffRequested(d.hw, e.ch).stopping;
    case _ =>
  }

  /** A stop really stops: whatever happens on all channels, unless the channel itself is started
      again, from its first step on it is off or suspended, and from its second on it is off or the
      hardware is asked to disable it, so it can go off. */
  lemma {:induction false} StopIsTold(d: Dma, es: seq<Event>, d': Dma, ch: nat)
    requires Shaped(d) && SafeRun(d, es, d') && ch < NUM_CHANNELS && Start(ch) !in es && Told(d, ch)
    ensures Shaped(d') && Told(d', ch)
    ensures (d'.stops[ch].Requested? || d'.stops[ch].Polling?) && ch in d'.hw.enabled ==> EventOk(d', GoesOff(ch))
    decreases |es|
  {
    if es != [] {
      ToldStep(d, es[0], ch);
      assert Start(ch) !in es[1..];
      StopIsTold(Step(d, es[0]), es[1..], d', ch);
    }
  }

  /** A completed transfer whose interrupt is served leaves a channel that can be started again on
      the same program. */
  lemma ServedIsFree(d: Dma, ch: nat)
    requires Inv(d) && ch < NUM_CHANNELS && d.ctx[ch].isOpen && ch in d.hw.enabled && d.stops[ch].NotStopping?
    ensures var d1 := Step(d, Completes(ch)); var d2 := Step(d1, Irq(ch));
            && ch !in d1.hw.enabled && ch in d1.hw.pending && d1.ctx == d.ctx
            && d2.ctx == d.ctx[ch := d.ctx[ch].(state := Idle)] && Settled(d2, ch)
            && ch in Step(d2, Start(ch)).hw.enabled && Region(Step(d2, Start(ch)), ch) == Region(d, ch)
            && Step(d2, Start(ch)).ctx == d.ctx
  {
    var d2 := Step(Step(d, Completes(ch)), Irq(ch));
    RequestEffects(d2.hw, ch);
  }

  // ---------- what the hardware executes ----------

  /** While a channel's region still holds what an accepted set-up left there, the program the
      hardware reads for that channel terminates and moves exactly the bytes asked for. */
  lemma {:induction false} SetupMeaning(d: Dma, base: nat, ch: nat, job: Job, dir: Direction,
                                        here: nat, moves: seq<Move>)
    requires Shaped(d) && ch < NUM_CHANNELS && JobOk(job) && !PeriToPeri(dir)
    requires job.n > 0 && JobVerdict(job) == OK
    requires here == base + DESC_SIZE * RegionStart(ch) && RegionHolds(Region(d, ch), job, dir, here)
    requires moves == Asked(Follow(job.pool, job.first, job.n), Format(dir, job.srcWidth, job.dstWidth))
    ensures RunsAs(d.mem, base, here, LLI_PER_CHANNEL, moves)
  {
    var cfgs, start := Follow(job.pool, job.first, job.n), RegionStart(ch);
    FollowedFrom(job.pool, job.first, job.n);
    SliceOfSlice(d.mem, start, LLI_PER_CHANNEL, |cfgs|);
    ProgramMeaning(d.mem, base, start, cfgs, Format(dir, job.srcWidth, job.dstWidth),
                   LLI_PER_CHANNEL, here, moves);
  }

  lemma SliceOfSlice(mem: seq<Desc>, start: nat, size: nat, k: nat)
    requires start + size <= |mem| && k <= size
    ensures mem[start..start + size][..k] == mem[start..start + k]
  {
  }

  lemma {:induction false} FollowedFrom(pool: seq<XferCfg>, first: Option<nat>, n: nat)
    requires WellLinked(pool, first)
    ensures forall i | 0 <= i < |Follow(pool, first, n)| :: Follow(pool, first, n)[i] in pool
    decreases n
  {
    if n > 0 && first.Some? {
      FollowedFrom(pool, pool[first.value].next, n - 1);
    }
  }

  // ---------- the driver ----------

  class DmaController {
    const base: nat
    const mem: array<Desc>
    var ctx: seq<Context>
    var hw: Hardware
    var withCallback: set<nat> // channels configured with a completion callback
    var notified: seq<nat> // channels whose callback was made, in order
    ghost var stops: seq<StopPhase>

    ghost function View(): Dma
      reads this, mem
    {
      Dma(ctx, stops, hw, mem[..])
    }

    ghost predicate Valid()
      reads this
    {
      |ctx| == |stops| == NUM_CHANNELS && mem.Length == NUM_CHANNELS * LLI_PER_CHANNEL
    }

    constructor (base: nat)
      ensures Valid() && this.base == base && fresh(mem) && View() == Initial(mem[..])
    {
      this.base := base;
      mem := new Desc[NUM_CHANNELS * LLI_PER_CHANNEL](_ => ZERO);
      ctx := seq(NUM_CHANNELS, _ => Context(false, Idle, MemToMemDmac));
      hw := Hardware({}, {}, {}, {}, map[]);
      withCallback, notified, stops := {}, [], seq(NUM_CHANNELS, _ => NotStopping);
    }

    /** `dma_open` on a channel of this controller. `resetOk` and `registered` are the answers of
        the reset manager and of the interrupt controller; the handle is the channel's number. */
    method Open(ch: nat, resetOk: bool, registered: bool) returns (handle: Option<nat>)
      requires Valid()
      modifies `ctx
      ensures Valid()
      ensures handle == Some(ch) <==> ch < NUM_CHANNELS && !old(ctx)[ch].isOpen && old(ctx)[ch].state == Idle
                                      && resetOk && registered
      ensures handle == None || handle == Some(ch)
      ensures if handle == None then View() == old(View())
              else ch < NUM_CHANNELS && View() == Step(old(View()), Event.Open(ch)) && ctx[ch].isOpen
    {
      if ch >= NUM_CHANNELS || ctx[ch].isOpen || ctx[ch].state != Idle || !resetOk || !registered {
        return None;
      }
      ctx := ctx[ch := ctx[ch].(isOpen := true)];
      return Some(ch);
    }

    /** `dma_config`, as far as the direction and the callback go. */
    method Config(ch: nat, dir: Direction, callback: bool) returns (ret: Ret)
      requires Valid() && ch < NUM_CHANNELS
      modifies `ctx, `withCallback
      ensures Valid() && View() == Step(old(View()), Event.Config(ch, dir))
      ensures ret == if !old(ctx)[ch].isOpen then EFAULT
                     else if old(ctx)[ch].state != Idle then EBUSY else OK
      ensures ret == OK ==> ctx[ch].dir == dir
      ensures withCallback == if ret != OK then old(withCallback)
                              else if callback then old(withCallback) + {ch} else old(withCallback) - {ch}
    {
      if !ctx[ch].isOpen {
        return EFAULT;
      }
      if ctx[ch].state != Idle {
        return EBUSY;
      }
      ctx := ctx[ch := ctx[ch].(dir := dir)];
      withCallback := if callback then withCallback + {ch} else withCallback - {ch};
      return OK;
    }

    /** Build the chain in the channel's region and program the start pointer. */
    method Program(ch: nat, job: Job) returns (ret: Ret)
      requires Valid() && ch < NUM_CHANNELS && JobOk(job) && job.n <= LLI_PER_CHANNEL
      modifies `hw, mem
      ensures Valid() && ret == JobVerdict(job)
      ensures mem[..] == Overlay(old(mem[..]), RegionStart(ch), Region(View(), ch))
      ensures var here := base + DESC_SIZE * RegionStart(ch);
              && (ret == OK ==> RegionHolds(Region(View(), ch), job, ctx[ch].dir, here))
              && hw == if ret == OK then old(hw).(llp := old(hw).llp[ch := here]) else old(hw)
    {
      var place := Place(base, RegionStart(ch), LLI_PER_CHANNEL);
      ret := BuildChain(mem, place, job.pool, job.first, job.n,
                        Format(ctx[ch].dir, job.srcWidth, job.dstWidth));
      SameOutsideIsOverlay(old(mem[..]), mem[..], place);
      if ret == OK {
        hw := hw.(llp := hw.llp[ch := base + DESC_SIZE * RegionStart(ch)]);
      }
    }

    /** The guards of `dma_setup_transfer`. */
    method CheckSetup(ch: nat, job: Job) returns (ret: Ret)
      requires Valid() && ch < NUM_CHANNELS
      ensures ret == SetupGuard(View(), ch, job)
    {
      if job.n > LLI_PER_CHANNEL {
        return EINVAL;
      }
      if job.first.None? {
        return EFAULT;
      }
      if !ctx[ch].isOpen {
        return EIO;
      }
      if ctx[ch].state != Idle {
        return EBUSY;
      }
      return OK;
    }

    /** `dma_setup_transfer`. */
    method SetupTransfer(ch: nat, job: Job) returns (ret: Ret)
      requires Valid() && ch < NUM_CHANNELS && JobOk(job)
      modifies `hw, mem
      ensures Valid()
      ensures ret == if SetupGuard(old(View()), ch, job) != OK then SetupGuard(old(View()), ch, job)
                     else JobVerdict(job)
      ensures ret == OK ==> ctx[ch].isOpen && ctx[ch].state == Idle && 0 <= job.n <= LLI_PER_CHANNEL
      ensures var e := Setup(ch, job, base, Region(View(), ch));
              EventOk(old(View()), e) && View() == Step(old(View()), e)
    {
      ret := CheckSetup(ch, job);
      if ret == OK {
        ret := Program(ch, job);
      }
    }

    /** `dma_start_transfer`. */
    method StartTransfer(ch: nat) returns (ret: Ret)
      requires Valid() && ch < NUM_CHANNELS
      modifies `ctx, `hw
      ensures Valid() && View() == Step(old(View()), Start(ch))
      ensures ret == if !old(ctx)[ch].isOpen then EIO
                     else if old(ctx)[ch].state != Idle then EBUSY else OK
      ensures if ret == OK then ctx[ch].state == Active && hw.enabled == old(hw.enabled) + {ch}
              else ctx == old(ctx) && hw == old(hw)
    {
      if !ctx[ch].isOpen {
        return EIO;
      }
      if ctx[ch].state != Idle {
        return EBUSY;
      }
      var val := ReadChenreg(hw);
      val := val.(en := val.en + {ch});
      val := val.(enWe := val.enWe + {ch});
      ctx := ctx[ch := ctx[ch].(state := Active)];
      hw := WriteChenreg(hw, val);
      return OK;
    }

    /** `pdma_irq_handler`. */
    method IrqHandler(ch: nat)
      requires Valid() && ch < NUM_CHANNELS
      modifies `ctx, `hw, `notified
      ensures Valid() && View() == Step(old(View()), Irq(ch))
      ensures ch in old(hw.pending) ==> ctx[ch].state == Idle && ch !in hw.pending
      ensures notified == old(notified) + if ch in old(hw.pending) && ch in withCallback then [ch] else []
    {
      if ch in hw.pending {
        hw := hw.(pending := hw.pending - {ch});
        ctx := ctx[ch := ctx[ch].(state := Idle)];
        if ch in withCallback {
          notified := notified + [ch];
        }
      }
    }

    /** The hardware may disable a channel that was asked to stop, or complete its transfer. */
    method HardwareActs(ch: nat, ghost from: Dma, ghost es: seq<Event>) returns (ghost es': seq<Event>)
      requires Valid() && ch < NUM_CHANNELS && SafeRun(from, es, View()) && AllDuringStop(es, ch)
      modifies `hw
      ensures Valid() && SafeRun(from, es', View()) && AllDuringStop(es', ch) && es <= es'
      ensures hw.enabled <= old(hw.enabled) && (Irq(ch) in es' <==> Irq(ch) in es)
    {
      es' := es;
      var what: int := *;
      if what == 0 && ch in hw.stopping {
        RunsOn(from, es, View(), GoesOff(ch));
        hw := Disabled(hw, ch);
        es' := es + [GoesOff(ch)];
      } else if what == 1 && ch in hw.enabled {
        RunsOn(from, es, View(), Completes(ch));
        hw := Disabled(hw, ch).(pending := hw.pending + {ch});
        es' := es + [Completes(ch)];
      }
    }

    /** While a stop waits the hardware may act, and the interrupt handler may be called. */
    method Meanwhile(ch: nat, ghost from: Dma, ghost es: seq<Event>) returns (ghost es': seq<Event>)
      requires Valid() && ch < NUM_CHANNELS && SafeRun(from, es, View()) && AllDuringStop(es, ch)
      modifies `ctx, `hw, `notified
      ensures Valid() && SafeRun(from, es', View()) && AllDuringStop(es', ch) && es <= es'
      ensures hw.enabled <= old(hw.enabled) && (Irq(ch) !in es' ==> ctx == old(ctx) && Irq(ch) !in es)
      ensures ctx == old(ctx) || ctx == old(ctx)[ch := old(ctx)[ch].(state := Idle)]
    {
      es' := HardwareActs(ch, from, es);
      var called: bool := *;
      if called {
        RunsOn(from, es', View(), Irq(ch));
        IrqHandler(ch);
        es' := es' + [Irq(ch)];
      }
    }

    /** Suspend the channel, which is not idle. */
    method Suspend(ch: nat) returns (ghost es: seq<Event>)
      requires Valid() && ch < NUM_CHANNELS && stops[ch].NotStopping? && ctx[ch].state != Idle
      modifies `hw, `stops
      ensures Valid() && es == [StopBegin(ch)] && SafeRun(old(View()), es, View()) && AllDuringStop(es, ch)
      ensures stops[ch] == Suspending
    {
      RunsOn(View(), [], View(), StopBegin(ch));
      var val := ReadChenreg(hw);
      hw := WriteChenreg(hw, val.(susp := val.susp + {ch}, suspWe := val.suspWe + {ch}));
      stops := stops[ch := Suspending];
      es := [] + [StopBegin(ch)];
    }

    /** Ask for the channel to be disabled. */
    method AskOff(ch: nat, ghost from: Dma, ghost es: seq<Event>) returns (ghost es': seq<Event>)
      requires Valid() && ch < NUM_CHANNELS && SafeRun(from, es, View()) && AllDuringStop(es, ch)
      requires stops[ch].Suspending?
      modifies `hw, `stops
      ensures Valid() && SafeRun(from, es', View()) && AllDuringStop(es', ch) && es' == es + [StopAsk(ch)]
      ensures stops[ch] == Requested
    {
      RunsOn(from, es, View(), StopAsk(ch));
      var val := ReadChenreg(hw);
      hw := WriteChenreg(hw, val.(en := val.en - {ch}, enWe := val.enWe + {ch}));
      stops := stops[ch := Requested];
      es' := es + [StopAsk(ch)];
    }

    /** One read of the enable bit in the polling loop. */
    method Poll(ch: nat, ghost from: Dma, ghost es: seq<Event>) returns (enabled: bool, ghost es': seq<Event>)
      requires Valid() && ch < NUM_CHANNELS && SafeRun(from, es, View()) && AllDuringStop(es, ch)
      requires PollsOn(stops[ch])
      modifies `stops
      ensures Valid() && SafeRun(from, es', View()) && AllDuringStop(es', ch)
      ensures es' == es + [StopPoll(ch)] && enabled == (ch in hw.enabled)
      ensures stops[ch] == Polling(enabled, NextCount(old(stops[ch])))
    {
      RunsOn(from, es, View(), StopPoll(ch));
      enabled := ch in ReadChenreg(hw).en;
      stops := stops[ch := Polling(enabled, NextCount(stops[ch]))];
      es' := es + [StopPoll(ch)];
    }

    /** The bounded polling loop of a stop. */
    method PollLoop(ch: nat, ghost from: Dma, ghost es: seq<Event>) returns (waitCount: nat, ghost es': seq<Event>)
      requires Valid() && ch < NUM_CHANNELS && SafeRun(from, es, View()) && AllDuringStop(es, ch)
      requires stops[ch].Requested?
      modifies `ctx, `hw, `notified, `stops
      ensures Valid() && SafeRun(from, es', View()) && AllDuringStop(es', ch) && es <= es'
      ensures PollsNoMore(stops[ch]) && stops[ch].count == waitCount
      ensures Ending(stops[ch]) ==> ch !in hw.enabled
      ensures Irq(ch) !in es' ==> ctx == old(ctx)
      ensures ctx == old(ctx) || ctx == old(ctx)[ch := old(ctx)[ch].(state := Idle)]
    {
      var enabled;
      enabled, es' := Poll(ch, from, es);
      waitCount := 0;
      while enabled && waitCount < SUSPEND_TIMEOUT
        invariant Valid() && SafeRun(from, es', View()) && AllDuringStop(es', ch) && es <= es'
        invariant waitCount <= SUSPEND_TIMEOUT && stops[ch] == Polling(enabled, waitCount)
        invariant !enabled ==> ch !in hw.enabled
        invariant Irq(ch) !in es' ==> ctx == old(ctx)
        invariant ctx == old(ctx) || ctx == old(ctx)[ch := old(ctx)[ch].(state := Idle)]
      {
        es' := Meanwhile(ch, from, es');
        enabled, es' := Poll(ch, from, es');
        waitCount := waitCount + 1;
      }
    }

    /** The end of a stop: the channel becomes idle unless the loop timed out. */
    method EndStop(ch: nat, waitCount: nat, ghost from: Dma, ghost es: seq<Event>)
      returns (ret: Ret, ghost es': seq<Event>)
      requires Valid() && ch < NUM_CHANNELS && SafeRun(from, es, View()) && AllDuringStop(es, ch)
      requires PollsNoMore(stops[ch]) && stops[ch].count == waitCount
      modifies `ctx, `stops
      ensures Valid() && SafeRun(from, es', View()) && AllDuringStop(es', ch) && es' == es + [StopEnd(ch)]
      ensures ret == (if old(Ending(stops[ch])) then OK else ETIMEDOUT) && stops[ch].NotStopping?
      ensures ctx == if ret == OK then old(ctx)[ch := old(ctx)[ch].(state := Idle)] else old(ctx)
    {
      RunsOn(from, es, View(), StopEnd(ch));
      stops := stops[ch := NotStopping];
      es' := es + [StopEnd(ch)];
      if waitCount == SUSPEND_TIMEOUT {
        ret := ETIMEDOUT;
        return;
      }
      ctx := ctx[ch := ctx[ch].(state := Idle)];
      ret := OK;
    }

    /** `dma_stop_transfer`, with the hardware and the interrupt handler at work in between. */
    method StopTransfer(ch: nat) returns (ret: Ret, ghost es: seq<Event>)
      requires Valid() && ch < NUM_CHANNELS && stops[ch].NotStopping?
      modifies `ctx, `hw, `notified, `stops
      ensures Valid() && SafeRun(old(View()), es, View()) && AllDuringStop(es, ch) && stops[ch].NotStopping?
      ensures ret in {OK, EIO, ETIMEDOUT} && (old(ctx)[ch].state == Idle <==> ret == EIO)
      ensures if ret == EIO then es == [] else |es| > 1 && es[0] == StopBegin(ch) && es[|es| - 1] == StopEnd(ch)
      ensures ret == OK ==> ctx[ch].state == Idle && ch !in hw.enabled
      ensures ret == ETIMEDOUT && Irq(ch) !in es ==> ctx == old(ctx)
      ensures ret != EIO ==> ch !in hw.enabled || (ch in hw.suspended && ch in hw.stopping)
    {
      es := [];
      if ctx[ch].state == Idle {
        ret := EIO;
        return;
      }
      ghost var from := View();
      es := Suspend(ch);
      es := Meanwhile(ch, from, es);
      es := AskOff(ch, from, es);
      es := Meanwhile(ch, from, es);
      var waitCount;
      waitCount, es := PollLoop(ch, from, es);
      assert Start(ch) !in es;
      StopIsTold(from, es, View(), ch);
      ret, es := EndStop(ch, waitCount, from, es);
    }
  }

  /** What may happen on a channel while one call stops it: the steps of the call, the hardware and
      the interrupt handler. */
  predicate AllDuringStop(es: seq<Event>, ch: nat) {
    forall e | e in es :: e in {StopBegin(ch), StopAsk(ch), StopPoll(ch), StopEnd(ch),
                                GoesOff(ch), Completes(ch), Irq(ch)}
  }
}
