/** The transmit descriptor ring of the XGMAC driver: any number of transmitters, split at the
    semaphore wait, the mutex and the ring update, interleaved with one reclaimer. */
module XgmacTx {
  import opened Common

  /** A buffer handed to `xgmac_dma_transmit`; `release` transfers its ownership. */
  datatype Frame = Frame(buf: nat, size: nat, release: bool)

  datatype Desc = Desc(addr: nat, len: nat, own: bool)

  /** A ring slot: its descriptor (`None` when zeroed) and the buffer pointer kept beside it. */
  datatype Slot = Slot(desc: Option<Desc>, ap: Option<nat>)

  datatype Holder = Nobody | Transmitter(t: nat) | Reclaimer

  /** Where the reclaimer is: it reads the head, then the semaphore count, then locks, clears a
      slot, posts the semaphore, moves the tail on, and unlocks; or it returns early with the
      mutex still locked, and blocks on it in its next call. */
  datatype Phase =
    | Resting
    | SawHead(head: nat)
    | SawCount(head: nat, used: nat)
    | Locked(head: nat, used: nat)
    | Cleared
    | Posted
    | Leaving

  /** `sent` are the slots whose present descriptor the hardware has sent. */
  datatype Tx = Tx(n: nat, sem: nat, reserved: set<nat>, holder: Holder, head: nat, tail: nat,
                   slots: seq<Slot>, sent: set<nat>, phase: Phase,
                   submitted: seq<Frame>, returned: seq<Option<nat>>)

  datatype Event =
    | Reserve(t: nat)
    | Lock(t: nat)
    | Fill(t: nat, f: Frame)
    | Unlock(t: nat)
    | ReadHead
    | ReadCount
    | RcLock
    | RcAct
    | RcPost
    | RcAdvance
    | RcUnlock
    | Sent(slot: nat)

  function Written(f: Frame): Slot {
    Slot(Some(Desc(f.buf, f.size % LEN_RANGE, true)), if f.release then Some(f.buf) else None)
  }

  /** The hardware takes a descriptor only while its own bit is set. */
  predicate HardwareOwns(slot: Slot) {
    slot.desc.Some? && slot.desc.value.own
  }

  /** Frames submitted whose slot has not been cleared yet. */
  function Queue(s: Tx): seq<Frame>
    requires |s.returned| <= |s.submitted|
  {
    s.submitted[|s.returned|..]
  }

  predicate Enabled(s: Tx, e: Event) {
    match e
    case Reserve(t) => s.sem > 0 && t !in s.reserved && s.holder != Transmitter(t)
    case Lock(t) => t in s.reserved && s.holder == Nobody
    case Fill(t, _) => t in s.reserved && s.holder == Transmitter(t) && s.head < |s.slots|
    case Unlock(t) => t !in s.reserved && s.holder == Transmitter(t)
    case ReadHead => s.phase == Resting
    case ReadCount => s.phase.SawHead? && s.sem <= s.n
    case RcLock => s.phase.SawCount? && s.holder == Nobody
    case RcAct => s.phase.Locked? && s.tail < |s.slots|
    case RcPost => s.phase == Cleared
    case RcAdvance => s.phase == Posted
    case RcUnlock => s.phase == Leaving
    case Sent(i) => i < |s.slots| && HardwareOwns(s.slots[i])
  }

  /** What the reclaimer does under the mutex, given its earlier snapshot. */
  function Reclaim(s: Tx): Tx
    requires s.phase.Locked? && s.tail < |s.slots|
  {
    if s.phase.used == 0 then s.(phase := Leaving)
    else if s.tail == s.phase.head && s.phase.used != s.n then s.(phase := Resting)
    else
      s.(slots := s.slots[s.tail := s.slots[s.tail].(desc := None)], sent := s.sent - {s.tail},
         returned := s.returned + [s.slots[s.tail].ap], phase := Cleared)
  }

  function Step(s: Tx, e: Event): Tx
    requires Enabled(s, e)
  {
    match e
    case Reserve(t) => s.(sem := s.sem - 1, reserved := s.reserved + {t})
    case Lock(t) => s.(holder := Transmitter(t))
    case Fill(t, f) =>
      s.(slots := s.slots[s.head := Written(f)], sent := s.sent - {s.head}, head := Next(s.head, s.n),
         reserved := s.reserved - {t}, submitted := s.submitted + [f])
    case Unlock(t) => s.(holder := Nobody)
    case ReadHead => s.(phase := SawHead(s.head))
    case ReadCount => s.(phase := SawCount(s.phase.head, s.n - s.sem))
    case RcLock => s.(phase := Locked(s.phase.head, s.phase.used), holder := Reclaimer)
    case RcAct => Reclaim(s)
    case RcPost => s.(sem := s.sem + 1, phase := Posted)
    case RcAdvance => s.(tail := Next(s.tail, s.n), phase := Leaving)
    case RcUnlock => s.(holder := Nobody, phase := Resting)
    case Sent(i) =>
      s.(slots := s.slots[i := s.slots[i].(desc := Some(s.slots[i].desc.value.(own := false)))],
         sent := s.sent + {i})
  }

  // ---------- the invariant ----------

  /** A slot holds this frame: the descriptor of a frame already sent has lost its own bit. */
  predicate Holds(slot: Slot, f: Frame) {
    && slot.desc.Some? && slot.desc.value.addr == f.buf && slot.desc.value.len == f.size % LEN_RANGE
    && slot.ap == Written(f).ap
  }

  /** The first occupied slot: the tail, or the one after it once the tail has been cleared. */
  function First(s: Tx): nat
    requires s.tail < s.n
  {
    if s.phase in {Cleared, Posted} then Next(s.tail, s.n) else s.tail
  }

  /** The occupied slots hold the queued frames in order, all other slots are empty. */
  ghost predicate RingHolds(slots: seq<Slot>, first: nat, queue: seq<Frame>) {
    && first < |slots| && |queue| <= |slots|
    && (forall i | 0 <= i < |queue| :: Holds(slots[RingSlot(first, i, |slots|)], queue[i]))
    && forall i | |queue| <= i < |slots| :: slots[RingSlot(first, i, |slots|)].desc == None
  }

  /** A frame in the ring belongs to the hardware until it has been sent. */
  ghost predicate OwnedUntilSent(s: Tx) {
    forall i | 0 <= i < |s.slots| :: s.slots[i].desc.Some? ==> (HardwareOwns(s.slots[i]) <==> i !in s.sent)
  }

  function Pointer(f: Frame): Option<nat> {
    if f.release then Some(f.buf) else None
  }

  /** Free tokens, tokens of transmitters that have not filled a slot, occupied slots, and the
      token of a slot just cleared, are together the size of the ring. */
  ghost predicate Conserved(s: Tx)
    requires |s.returned| <= |s.submitted|
  {
    s.sem + |s.reserved| + |Queue(s)| + (if s.phase == Cleared then 1 else 0) == s.n
  }

  /** What the reclaimer's snapshot is worth: if it lets the reclaimer go on, the ring is not
      empty. */
  ghost predicate SnapshotSound(s: Tx)
    requires |s.returned| <= |s.submitted|
  {
    match s.phase
    case SawHead(h) => h != s.tail ==> Queue(s) != []
    case SawCount(h, used) => h != s.tail || used == s.n ==> Queue(s) != []
    case Locked(h, used) => h != s.tail || used == s.n ==> Queue(s) != []
    case _ => true
  }

  /** `ts` are the transmitters there are. */
  ghost predicate Inv(s: Tx, ts: set<nat>) {
    && s.n > 0 && |s.slots| == s.n && s.head < s.n && s.tail < s.n
    && |s.returned| <= |s.submitted|
    && s.reserved <= ts && (s.holder.Transmitter? ==> s.holder.t in ts)
    && Conserved(s)
    && RingHolds(s.slots, First(s), Queue(s)) && OwnedUntilSent(s)
    && s.head == RingSlot(First(s), |Queue(s)|, s.n)
    && (s.phase.Locked? || s.phase in {Cleared, Posted, Leaving} ==> s.holder == Reclaimer)
    && SnapshotSound(s)
    && forall i | 0 <= i < |s.returned| :: s.returned[i] == Pointer(s.submitted[i])
  }

  /** The state `dma_set_descs` leaves. */
  function Initial(n: nat): Tx {
    Tx(n, n, {}, Nobody, 0, 0, seq(n, _ => Slot(None, None)), {}, Resting, [], [])
  }

  lemma InitialInv(n: nat, ts: set<nat>)
    requires n > 0
    ensures Inv(Initial(n), ts)
  {
  }

  lemma SubsetSize(a: set<nat>, b: set<nat>)
    requires a <= b
    ensures |a| <= |b|
  {
    if a != {} {
      var x :| x in a;
      SubsetSize(a - {x}, b - {x});
    }
  }

  lemma FillKeepsRing(slots: seq<Slot>, first: nat, queue: seq<Frame>, f: Frame)
    requires RingHolds(slots, first, queue) && |queue| < |slots|
    ensures var head := RingSlot(first, |queue|, |slots|);
            && RingHolds(slots[head := Written(f)], first, queue + [f])
            && Next(head, |slots|) == RingSlot(first, |queue| + 1, |slots|)
  {
  }

  lemma ClearKeepsRing(slots: seq<Slot>, first: nat, queue: seq<Frame>)
    requires RingHolds(slots, first, queue) && queue != []
    ensures var second := Next(first, |slots|);
            && RingHolds(slots[first := slots[first].(desc := None)], second, queue[1..])
            && RingSlot(second, |queue| - 1, |slots|) == RingSlot(first, |queue|, |slots|)
  {
    var n, second := |slots|, Next(first, |slots|);
    var slots' := slots[first := slots[first].(desc := None)];
    assert forall i | 0 <= i < n - 1 :: RingSlot(second, i, n) == RingSlot(first, i + 1, n);
    assert RingSlot(second, n - 1, n) == first == RingSlot(first, 0, n);
    forall i | 0 <= i < |queue[1..]| ensures Holds(slots'[RingSlot(second, i, n)], queue[1..][i]) {
      assert Holds(slots[RingSlot(first, i + 1, n)], queue[i + 1]);
    }
    forall i | |queue[1..]| <= i < n ensures slots'[RingSlot(second, i, n)].desc == None {
      assert i < n - 1 ==> slots[RingSlot(first, i + 1, n)].desc == None;
    }
  }

  lemma SentKeepsRing(slots: seq<Slot>, first: nat, queue: seq<Frame>, k: nat)
    requires RingHolds(slots, first, queue) && k < |slots| && slots[k].desc.Some?
    ensures RingHolds(slots[k := slots[k].(desc := Some(slots[k].desc.value.(own := false)))],
                      first, queue)
  {
  }

  lemma FillInv(s: Tx, ts: set<nat>, t: nat, f: Frame)
    requires Inv(s, ts) && Enabled(s, Fill(t, f))
    ensures s.slots[s.head].desc == None
    ensures Inv(Step(s, Fill(t, f)), ts)
  {
    assert |s.reserved| > 0;
    FillKeepsRing(s.slots, First(s), Queue(s), f);
    var s' := Step(s, Fill(t, f));
    assert Queue(s') == Queue(s) + [f];
    assert |s'.reserved| == |s.reserved| - 1;
  }

  lemma ReclaimInv(s: Tx, ts: set<nat>)
    requires Inv(s, ts) && Enabled(s, RcAct)
    ensures Inv(Step(s, RcAct), ts)
    ensures Step(s, RcAct).phase == Cleared ==>
              Queue(s) != [] && Holds(s.slots[s.tail], Queue(s)[0])
  {
    var s' := Step(s, RcAct);
    if s'.phase == Cleared {
      ClearKeepsRing(s.slots, s.tail, Queue(s));
      assert Holds(s.slots[RingSlot(s.tail, 0, s.n)], Queue(s)[0]);
      assert Queue(s') == Queue(s)[1..];
    }
  }

  lemma ReadCountInv(s: Tx, ts: set<nat>)
    requires Inv(s, ts) && Enabled(s, ReadCount) && |ts| < s.n
    ensures Inv(Step(s, ReadCount), ts)
  {
    SubsetSize(s.reserved, ts);
  }

  lemma ReserveInv(s: Tx, ts: set<nat>, t: nat)
    requires Inv(s, ts) && Enabled(s, Reserve(t)) && t in ts
    ensures Inv(Step(s, Reserve(t)), ts)
  {
    assert |s.reserved + {t}| == |s.reserved| + 1;
  }

  lemma SentInv(s: Tx, ts: set<nat>, i: nat)
    requires Inv(s, ts) && Enabled(s, Sent(i))
    ensures Inv(Step(s, Sent(i)), ts)
  {
    SentKeepsRing(s.slots, First(s), Queue(s), i);
  }

  /** The locking, and the reclaimer's steps that leave the slots alone. */
  lemma QuietInv(s: Tx, ts: set<nat>, e: Event)
    requires Inv(s, ts) && Enabled(s, e)
    requires e.Lock? || e.Unlock? || e.ReadHead? || e.RcLock? || e.RcPost? || e.RcAdvance? || e.RcUnlock?
    ensures Inv(Step(s, e), ts)
  {
  }

  /** Every step of every thread keeps the invariant, when there are fewer transmitters than
      slots. */
  lemma StepInv(s: Tx, ts: set<nat>, e: Event)
    requires Inv(s, ts) && Enabled(s, e) && |ts| < s.n
    requires e.Reserve? ==> e.t in ts
    ensures Inv(Step(s, e), ts) && Step(s, e).n == s.n
  {
    match e
    case Reserve(t) => ReserveInv(s, ts, t);
    case Fill(t, f) => FillInv(s, ts, t, f);
    case ReadCount => ReadCountInv(s, ts);
    case RcAct => ReclaimInv(s, ts);
    case Sent(i) => SentInv(s, ts, i);
    case _ => QuietInv(s, ts, e);
  }

  // ---------- whole runs ----------

  ghost predicate Runs(s: Tx, es: seq<Event>, s': Tx, ts: set<nat>)
    decreases |es|
  {
    if es == [] then s' == s
    else
      && Enabled(s, es[0]) && (es[0].Reserve? ==> es[0].t in ts)
      && Runs(Step(s, es[0]), es[1..], s', ts)
  }

  /** A transmit writes an empty slot, a reclaim clears an occupied one, and its semaphore post
      cannot exceed the maximum count. */
  predicate Safe(s: Tx, e: Event)
    requires Enabled(s, e)
  {
    match e
    case Fill(_, _) => s.slots[s.head].desc == None
    case RcAct => Reclaim(s).phase == Cleared ==> s.slots[s.tail].desc.Some?
    case RcPost => s.sem < s.n
    case _ => true
  }

  ghost predicate AllSafe(s: Tx, es: seq<Event>, s': Tx, ts: set<nat>)
    requires Runs(s, es, s', ts)
    decreases |es|
  {
    es == [] || (Safe(s, es[0]) && AllSafe(Step(s, es[0]), es[1..], s', ts))
  }

  lemma {:induction false} RunInv(s: Tx, es: seq<Event>, s': Tx, ts: set<nat>)
    requires Inv(s, ts) && |ts| < s.n && Runs(s, es, s', ts)
    ensures Inv(s', ts) && s'.n == s.n && AllSafe(s, es, s', ts)
    decreases |es|
  {
    if es != [] {
      StepInv(s, ts, es[0]);
      match es[0] {
        case Fill(t, f) => FillInv(s, ts, t, f);
        case RcAct => ReclaimInv(s, ts);
        case _ =>
      }
      RunInv(Step(s, es[0]), es[1..], s', ts);
    }
  }

  /** Every interleaving of fewer than `n` transmitters with one reclaimer is safe and conserves
      the ring's tokens, and the reclaimer gets the submitted frames back first in, first out:
      the pointer if the frame transferred its ownership, and null if not. The frames not yet
      returned are in the ring, in order, and each can be sent until it has been, and then no
      more. */
  lemma TransmitRing(n: nat, ts: set<nat>, es: seq<Event>, s: Tx)
    requires 0 < n && |ts| < n && Runs(Initial(n), es, s, ts)
    ensures AllSafe(Initial(n), es, s, ts)
    ensures |s.returned| <= |s.submitted| && Conserved(s)
    ensures forall i | 0 <= i < |s.returned| :: s.returned[i] == Pointer(s.submitted[i])
    ensures s.n == n && s.tail < n && RingHolds(s.slots, First(s), Queue(s))
    ensures s.head == RingSlot(First(s), |Queue(s)|, n)
    ensures forall i | 0 <= i < |Queue(s)| ::
              var k := RingSlot(First(s), i, n); Enabled(s, Sent(k)) <==> k !in s.sent
  {
    InitialInv(n, ts);
    RunInv(Initial(n), es, s, ts);
    forall i | 0 <= i < |Queue(s)|
      ensures var k := RingSlot(First(s), i, n); Enabled(s, Sent(k)) <==> k !in s.sent
    {
      assert Holds(s.slots[RingSlot(First(s), i, n)], Queue(s)[i]);
    }
  }

  // ---------- the bound on the transmitters is exact ----------

  lemma {:induction false} RunsAppend(s: Tx, es: seq<Event>, s1: Tx, e: Event, ts: set<nat>)
    requires Runs(s, es, s1, ts) && Enabled(s1, e) && (e.Reserve? ==> e.t in ts)
    ensures Runs(s, es + [e], Step(s1, e), ts)
    decreases |es|
  {
    if es == [] {
      assert [e][1..] == [];
    } else {
      RunsAppend(Step(s, es[0]), es[1..], s1, e, ts);
      assert (es + [e])[1..] == es[1..] + [e];
    }
  }

  lemma Outsider(a: set<nat>, b: set<nat>) returns (x: nat)
    requires a <= b && |a| < |b|
    ensures x in b && x !in a
  {
    if forall y | y in b :: y in a {
      SubsetSize(b, a);
    }
    x :| x in b && x !in a;
  }

  lemma {:induction false} ReserveSome(n: nat, k: nat, ts: set<nat>)
    returns (es: seq<Event>, s: Tx)
    requires k <= n && k <= |ts|
    ensures Runs(Initial(n), es, s, ts)
    ensures s.reserved <= ts && |s.reserved| == k
    ensures s == Initial(n).(sem := n - k, reserved := s.reserved)
    decreases k
  {
    if k == 0 {
      es, s := [], Initial(n);
    } else {
      es, s := ReserveSome(n, k - 1, ts);
      var t := Outsider(s.reserved, ts);
      RunsAppend(Initial(n), es, s, Reserve(t), ts);
      es, s := es + [Reserve(t)], Step(s, Reserve(t));
    }
  }

  /** With as many transmitters as slots, all may hold a token before any has filled a slot;
      the reclaimer then takes the empty ring for a full one. */
  lemma TooManyTransmitters(n: nat, ts: set<nat>) returns (es: seq<Event>, s: Tx)
    requires 0 < n <= |ts|
    ensures Runs(Initial(n), es, s, ts) && Enabled(s, RcAct) && !Safe(s, RcAct)
  {
    es, s := ReserveSome(n, n, ts);
    RunsAppend(Initial(n), es, s, ReadHead, ts);
    es, s := es + [ReadHead], Step(s, ReadHead);
    RunsAppend(Initial(n), es, s, ReadCount, ts);
    es, s := es + [ReadCount], Step(s, ReadCount);
    RunsAppend(Initial(n), es, s, RcLock, ts);
    es, s := es + [RcLock], Step(s, RcLock);
  }

  // ---------- the reclaimer may keep the mutex ----------

  /** The reclaimer is outside its critical section and its mutex is still locked. */
  predicate Kept(s: Tx) {
    s.holder == Reclaimer && (s.phase == Resting || s.phase.SawHead? || s.phase.SawCount?)
  }

  predicate Others(es: seq<Event>) {
    forall e | e in es :: e.Reserve? || e.Lock? || e.Fill? || e.Unlock? || e.Sent?
  }

  /** What the transmitters and the hardware do leaves the reclaimer where it is. */
  lemma {:induction false} OthersKeep(s: Tx, es: seq<Event>, s': Tx, ts: set<nat>)
    requires Inv(s, ts) && |ts| < s.n && Runs(s, es, s', ts) && Others(es)
    ensures Inv(s', ts) && s'.n == s.n && s'.tail == s.tail && s'.phase == s.phase
    ensures s.holder == Reclaimer ==> s'.holder == Reclaimer
    decreases |es|
  {
    if es != [] {
      StepInv(s, ts, es[0]);
      assert es[0] in es;
      OthersKeep(Step(s, es[0]), es[1..], s', ts);
    }
  }

  /** One reclaim call in any interleaving: it begins in `s0`, reads the semaphore count in `s1`,
      locks in `s2` and decides in `s3`. */
  datatype Call = Call(s0: Tx, es1: seq<Event>, s1: Tx, es2: seq<Event>, s2: Tx, es3: seq<Event>, s3: Tx)

  ghost predicate IsCall(c: Call, ts: set<nat>) {
    && c.s0.phase == Resting && Others(c.es1) && Others(c.es2) && Others(c.es3)
    && Runs(Step(c.s0, ReadHead), c.es1, c.s1, ts) && Enabled(c.s1, ReadCount)
    && Runs(Step(c.s1, ReadCount), c.es2, c.s2, ts) && Enabled(c.s2, RcLock)
    && Runs(Step(c.s2, RcLock), c.es3, c.s3, ts)
  }

  lemma {:induction false} Stage(s: Tx, e: Event, es: seq<Event>, s': Tx, ts: set<nat>)
    requires Inv(s, ts) && |ts| < s.n && Enabled(s, e) && e in {ReadHead, ReadCount, RcLock}
    requires Runs(Step(s, e), es, s', ts) && Others(es)
    ensures Inv(Step(s, e), ts) && Inv(s', ts) && s'.n == s.n && s'.tail == s.tail
    ensures s'.phase == Step(s, e).phase
  {
    StepInv(s, ts, e);
    OthersKeep(Step(s, e), es, s', ts);
  }

  lemma {:induction false} CallSnapshot(c: Call, ts: set<nat>)
    requires Inv(c.s0, ts) && |ts| < c.s0.n && IsCall(c, ts)
    ensures c.s1.n == c.s3.n == c.s0.n && c.s3.tail == c.s0.tail && Inv(c.s3, ts)
    ensures c.s3.phase == Locked(c.s0.head, c.s1.n - c.s1.sem)
    ensures |Queue(c.s0)| == c.s0.n ==> c.s1.sem == 0
  {
    Stage(c.s0, ReadHead, c.es1, c.s1, ts);
    Stage(c.s1, ReadCount, c.es2, c.s2, ts);
    Stage(c.s2, RcLock, c.es3, c.s3, ts);
    if |Queue(c.s0)| == c.s0.n {
      FullStaysFull(Step(c.s0, ReadHead), c.es1, c.s1, ts);
    }
  }

  /** A reclaim call returns with the mutex locked if and only if the ring was empty when it read
      the head and some, but not all, tokens were out when it read the count, whatever the
      transmitters do meanwhile. */
  lemma {:induction false} KeepsMutexIff(c: Call, ts: set<nat>)
    requires Inv(c.s0, ts) && |ts| < c.s0.n && IsCall(c, ts)
    ensures Inv(c.s3, ts) && Enabled(c.s3, RcAct)
    ensures Kept(Step(c.s3, RcAct)) <==> Queue(c.s0) == [] && 0 < c.s1.n - c.s1.sem < c.s1.n
  {
    CallSnapshot(c, ts);
    HeadIsTail(c.s0, ts);
  }

  lemma HeadIsTail(s: Tx, ts: set<nat>)
    requires Inv(s, ts) && s.phase == Resting
    ensures s.head == s.tail <==> |Queue(s)| == 0 || |Queue(s)| == s.n
  {
  }

  /** A full ring stays full while the reclaimer does nothing. */
  lemma {:induction false} FullStaysFull(s: Tx, es: seq<Event>, s': Tx, ts: set<nat>)
    requires Inv(s, ts) && |ts| < s.n && Runs(s, es, s', ts) && Others(es)
    requires s.sem == 0 && s.reserved == {}
    ensures s'.sem == 0 && s'.n == s.n
    decreases |es|
  {
    if es != [] {
      StepInv(s, ts, es[0]);
      assert es[0] in es;
      FullStaysFull(Step(s, es[0]), es[1..], s', ts);
    }
  }

  /** From then on nothing is ever submitted or returned again: transmitters wait for the mutex,
      and so does the next reclaim call. */
  lemma {:induction false} StuckForever(s: Tx, es: seq<Event>, s': Tx, ts: set<nat>)
    requires Kept(s) && Runs(s, es, s', ts)
    ensures Kept(s') && s'.submitted == s.submitted && s'.returned == s.returned
    decreases |es|
  {
    if es != [] {
      StuckForever(Step(s, es[0]), es[1..], s', ts);
    }
  }

  /** The frame that a call is for may be in the ring: one transmitter submits it between the two
      reads, and the call still returns with the mutex locked. */
  lemma {:induction false} StuckWithFrame(n: nat, f: Frame, ts: set<nat>) returns (c: Call)
    requires n >= 2 && |ts| < n && 0 in ts
    ensures c.s0 == Initial(n) && IsCall(c, ts) && Enabled(c.s3, RcAct)
    ensures var s := Step(c.s3, RcAct);
            Kept(s) && s.reserved == {} && s.returned == [] && s.submitted == [f]
  {
    var s0 := Initial(n);
    InitialInv(n, ts);
    var s := Step(s0, ReadHead);
    var s1 := Submitted(s, f);
    SubmittedIsRun(s, 0, f, ts);
    var s2 := Step(s1, ReadCount);
    var s3 := Step(s2, RcLock);
    c := Call(s0, [Reserve(0), Lock(0), Fill(0, f), Unlock(0)], s1, [], s2, [], s3);
    assert Others(c.es1) && Others([]);
    assert Runs(s2, [], s2, ts) && Runs(s3, [], s3, ts);
  }

  /** A resting ring after one more frame has been submitted. */
  function Submitted(s: Tx, f: Frame): Tx
    requires s.sem > 0 && s.head < |s.slots|
  {
    s.(sem := s.sem - 1, slots := s.slots[s.head := Written(f)], sent := s.sent - {s.head},
       head := Next(s.head, s.n), submitted := s.submitted + [f])
  }

  /** A resting ring after its oldest frame has been reclaimed. */
  function Released(s: Tx): Tx
    requires s.tail < |s.slots|
  {
    s.(slots := s.slots[s.tail := s.slots[s.tail].(desc := None)], sent := s.sent - {s.tail},
       returned := s.returned + [s.slots[s.tail].ap],
       sem := s.sem + 1, tail := Next(s.tail, s.n))
  }

  // ---------- the driver ----------

  /** The ring as the driver's two calls update it. `reserved` are the tokens held by
      transmitters that are elsewhere in `xgmac_dma_transmit`. */
  class XgmacTxRing {
    const n: nat
    const slots: array<Slot>
    var head: nat
    var tail: nat
    var sem: nat
    ghost var holder: Holder
    ghost var phase: Phase
    ghost var reserved: set<nat>
    ghost var sent: set<nat>
    ghost var submitted: seq<Frame>
    ghost var returned: seq<Option<nat>>

    ghost function View(): Tx
      reads this, slots
    {
      Tx(n, sem, reserved, holder, head, tail, slots[..], sent, phase, submitted, returned)
    }

    /** `dma_set_descs`, transmit side. */
    constructor (n: nat)
      requires n > 0
      ensures View() == Initial(n) && fresh(slots)
    {
      this.n := n;
      slots := new Slot[n];
      head, tail, sem := 0, 0, n;
      holder, phase, reserved, sent, submitted, returned := Nobody, Resting, {}, {}, [], [];
      new;
      for i := 0 to n
        invariant forall j | 0 <= j < i :: slots[j] == Slot(None, None)
        invariant View() == Initial(n).(slots := slots[..])
      {
        slots[i] := Slot(None, None);
      }
    }

    /** `xgmac_dma_transmit`, undisturbed: the frame is submitted, or no slot is free. */
    method Transmit(f: Frame) returns (ret: Ret)
      requires holder == Nobody && head < slots.Length
      modifies `head, `sem, `sent, `submitted, slots
      ensures ret == if old(sem) == 0 then EIO else OK
      ensures View() == if ret == OK then Submitted(old(View()), f) else old(View())
      ensures ret == OK ==> Enabled(View(), Sent(old(head)))
    {
      if sem == 0 {
        return EIO;
      }
      sem := sem - 1;
      slots[head] := Slot(Some(Desc(f.buf, f.size % LEN_RANGE, true)),
                          if f.release then Some(f.buf) else None);
      sent := sent - {head};
      var next := head + 1;
      if next == n {
        next := 0;
      }
      head := next;
      submitted := submitted + [f];
      return OK;
    }

    /** `xgmac_dma_tx_done`, undisturbed: reclaims the oldest frame; or there is nothing to
        reclaim; or the ring is empty with a token out, and the mutex is kept. */
    method TxDone(ghost ts: set<nat>) returns (ret: Ret, release: Option<nat>)
      requires Inv(View(), ts) && |ts| < n && holder == Nobody && phase == Resting
      modifies `tail, `sem, `holder, `sent, `returned, slots
      ensures ret == if old(Queue(View())) != [] then OK else if reserved == {} then EAGAIN else EINVAL
      ensures ret == OK ==> release == Pointer(old(Queue(View()))[0])
      ensures View() == if ret == OK then Released(old(View()))
                        else if ret == EAGAIN then old(View())
                        else old(View()).(holder := Reclaimer)
    {
      TxDoneSteps(View(), ts);
      release := None;
      var t, h := tail, head;
      var used := n - sem;
      holder := Reclaimer;
      if used > 0 {
        if t == h && used != n {
          ret := EINVAL;
          return;
        }
        ret, release := ReleaseSlot(t);
      } else {
        ret := EAGAIN;
      }
      holder := Nobody;
    }

    /** Clear the slot at the tail, give its token back and move the tail on. */
    method ReleaseSlot(t: nat) returns (ret: Ret, release: Option<nat>)
      requires t == tail && t < slots.Length == n && sem < n
      modifies `tail, `sem, `sent, `returned, slots
      ensures ret == OK && release == old(slots[t].ap)
      ensures View() == Released(old(View()))
    {
      ret := OK;
      release := slots[t].ap;
      slots[t] := slots[t].(desc := None);
      sent := sent - {t};
      returned := returned + [release];
      if sem == n {
        ret := EIO;
      } else {
        sem := sem + 1;
      }
      var next := t + 1;
      if next == n {
        next := 0;
      }
      tail := next;
    }
  }

  /** An undisturbed transmit is the four steps of a thread, and adds to the end of the queue. */
  lemma SubmittedIsRun(s: Tx, t: nat, f: Frame, ts: set<nat>)
    requires Inv(s, ts) && t in ts && t !in s.reserved && s.holder == Nobody && s.sem > 0
    ensures Runs(s, [Reserve(t), Lock(t), Fill(t, f), Unlock(t)], Submitted(s, f), ts)
  {
    var es := [Reserve(t), Lock(t), Fill(t, f), Unlock(t)];
    var s1 := Step(s, es[0]);
    var s2 := Step(s1, es[1]);
    var s3 := Step(s2, es[2]);
    assert s3.reserved == s.reserved;
    var s4 := Step(s3, es[3]);
    assert s4 == Submitted(s, f);
    assert Runs(s4, es[1..][1..][1..][1..], s4, ts);
    assert Runs(s3, es[1..][1..][1..], s4, ts);
    assert Runs(s2, es[1..][1..], s4, ts);
  }

  lemma RunsBefore(s: Tx, es: seq<Event>, e: Event, s': Tx, ts: set<nat>)
    requires Enabled(s, e) && !e.Reserve? && Runs(Step(s, e), es, s', ts)
    ensures Runs(s, [e] + es, s', ts)
  {
    assert ([e] + es)[1..] == es;
  }

  /** What the reclaimer does once it holds the mutex and goes on. */
  lemma ReclaimedIsRun(s: Tx, s4: Tx, s': Tx, ts: set<nat>)
    requires Enabled(s, RcAct) && s4 == Reclaim(s) && s4.phase == Cleared && s4.sem < s4.n
    requires s' == s4.(sem := s4.sem + 1, tail := Next(s4.tail, s4.n), phase := Resting, holder := Nobody)
    ensures Runs(s, [RcAct] + ([RcPost] + ([RcAdvance] + ([RcUnlock] + []))), s', ts)
  {
    var s5 := Step(s4, RcPost);
    var s6 := Step(s5, RcAdvance);
    assert Step(s6, RcUnlock) == s';
    RunsBefore(s6, [], RcUnlock, s', ts);
    RunsBefore(s5, [RcUnlock] + [], RcAdvance, s', ts);
    RunsBefore(s4, [RcAdvance] + ([RcUnlock] + []), RcPost, s', ts);
    RunsBefore(s, [RcPost] + ([RcAdvance] + ([RcUnlock] + [])), RcAct, s', ts);
  }

  /** An undisturbed reclaim of a frame is the seven steps of the reclaimer. */
  lemma ReleasedIsRun(s: Tx, ts: set<nat>)
    requires Inv(s, ts) && |ts| < s.n && s.holder == Nobody && s.phase == Resting
    requires Queue(s) != []
    ensures Runs(s, [ReadHead, ReadCount, RcLock, RcAct, RcPost, RcAdvance, RcUnlock], Released(s), ts)
  {
    TxDoneSteps(s, ts);
    var s1 := Step(s, ReadHead);
    var s2 := Step(s1, ReadCount);
    var s3 := Step(s2, RcLock);
    var es := [RcAct] + ([RcPost] + ([RcAdvance] + ([RcUnlock] + [])));
    assert Reclaim(s3) == Decided(s);
    ReclaimedIsRun(s3, Reclaim(s3), Released(s), ts);
    RunsBefore(s2, es, RcLock, Released(s), ts);
    RunsBefore(s1, [RcLock] + es, ReadCount, Released(s), ts);
    RunsBefore(s, [ReadCount] + ([RcLock] + es), ReadHead, Released(s), ts);
    assert [ReadHead] + ([ReadCount] + ([RcLock] + es))
        == [ReadHead, ReadCount, RcLock, RcAct, RcPost, RcAdvance, RcUnlock];
  }

  lemma SubmittedInv(s: Tx, f: Frame, ts: set<nat>)
    requires Inv(s, ts) && s.sem > 0 && s.phase == Resting
    ensures Inv(Submitted(s, f), ts) && Queue(Submitted(s, f)) == Queue(s) + [f]
  {
    FillKeepsRing(s.slots, First(s), Queue(s), f);
    assert Queue(Submitted(s, f)) == Queue(s) + [f];
  }

  /** A reclaim call that runs without interruption up to its decision. */
  function Decided(s: Tx): Tx
    requires s.phase == Resting && s.holder == Nobody && s.sem <= s.n && s.tail < |s.slots|
  {
    Reclaim(s.(phase := Locked(s.head, s.n - s.sem), holder := Reclaimer))
  }

  /** What an undisturbed reclaim call makes of a resting ring. */
  lemma TxDoneSteps(s: Tx, ts: set<nat>)
    requires Inv(s, ts) && |ts| < s.n && s.holder == Nobody && s.phase == Resting
    ensures s.sem < s.n <==> Queue(s) != [] || s.reserved != {}
    ensures Decided(s).phase == Resting <==> Queue(s) == [] && s.reserved != {}
    ensures Queue(s) != [] ==>
              && s.slots[s.tail].ap == Pointer(Queue(s)[0])
              && Inv(Released(s), ts) && Queue(Released(s)) == Queue(s)[1..]
  {
    SubsetSize(s.reserved, ts);
    assert s.reserved != {} <==> |s.reserved| > 0;
    if Queue(s) != [] {
      ReleasedInv(s, ts);
    }
  }

  // ---------- calls one after another ----------

  datatype Request = Transmit(f: Frame) | TxDone

  /** The ring after a call that no other disturbs. */
  function After(s: Tx, c: Request): Tx {
    match c
    case Transmit(f) =>
      if s.sem > 0 && s.head < |s.slots| then Submitted(s, f) else s
    case TxDone =>
      if |s.returned| < |s.submitted| && s.tail < |s.slots| then Released(s) else s
  }

  function AfterAll(s: Tx, cs: seq<Request>): Tx {
    if cs == [] then s else After(AfterAll(s, cs[..|cs| - 1]), cs[|cs| - 1])
  }

  /** A plain queue of at most `n` frames under the same call. */
  function QueueAfter(q: seq<Frame>, n: nat, c: Request): seq<Frame> {
    match c
    case Transmit(f) => if |q| < n then q + [f] else q
    case TxDone => if q != [] then q[1..] else q
  }

  function QueueAfterAll(n: nat, cs: seq<Request>): seq<Frame> {
    if cs == [] then [] else QueueAfter(QueueAfterAll(n, cs[..|cs| - 1]), n, cs[|cs| - 1])
  }

  /** Over any sequence of undisturbed calls the ring is a queue of `n` frames: it holds exactly
      the frames of the plain queue in order, the head is the tail plus their number, and what was
      returned are the pointers of the frames in the order they were submitted. */
  lemma {:induction false} RingIsQueue(n: nat, cs: seq<Request>)
    requires 0 < n
    ensures var s, q := AfterAll(Initial(n), cs), QueueAfterAll(n, cs);
            && Inv(s, {}) && s.n == n && s.phase == Resting && s.holder == Nobody
            && Queue(s) == q && RingHolds(s.slots, s.tail, q) && s.head == RingSlot(s.tail, |q|, n)
            && forall i | 0 <= i < |s.returned| :: s.returned[i] == Pointer(s.submitted[i])
    decreases |cs|
  {
    if cs == [] {
      InitialInv(n, {});
    } else {
      RingIsQueue(n, cs[..|cs| - 1]);
      AfterIsQueue(AfterAll(Initial(n), cs[..|cs| - 1]), cs[|cs| - 1]);
    }
  }

  lemma {:induction false} AfterIsQueue(s: Tx, c: Request)
    requires Inv(s, {}) && s.phase == Resting && s.holder == Nobody
    ensures Inv(After(s, c), {}) && After(s, c).n == s.n
    ensures After(s, c).phase == Resting && After(s, c).holder == Nobody
    ensures Queue(After(s, c)) == QueueAfter(Queue(s), s.n, c)
  {
    assert |s.reserved| == 0;
    match c
    case Transmit(f) =>
      if s.sem > 0 {
        SubmittedInv(s, f, {});
      }
    case TxDone =>
      if Queue(s) != [] {
        ReleasedInv(s, {});
      }
  }

  lemma ReleasedInv(s: Tx, ts: set<nat>)
    requires Inv(s, ts) && |ts| < s.n && s.holder == Nobody && s.phase == Resting
    requires Queue(s) != []
    ensures s.slots[s.tail].ap == Pointer(Queue(s)[0])
    ensures Inv(Released(s), ts) && Queue(Released(s)) == Queue(s)[1..]
  {
    ClearKeepsRing(s.slots, s.tail, Queue(s));
    assert Holds(s.slots[RingSlot(s.tail, 0, s.n)], Queue(s)[0]);
    assert Queue(Released(s)) == Queue(s)[1..];
  }
}
