/** The receive descriptor ring of the XGMAC driver, between the hardware that fills posted
    buffers in ring order and a stack that takes one and posts another. */
module XgmacRx {
  import opened Common

  /** A ring slot: the buffer address programmed in the descriptor, the own bit (set while the
      hardware may fill the buffer), the length of the received packet, and the buffer pointer
      the driver keeps beside the descriptor. */
  datatype Slot = Slot(addr: Option<nat>, own: bool, len: nat, ap: Option<nat>)

  const EMPTY := Slot(None, false, 0, None)

  /** `done` slots from the head on are filled and not yet reposted; `pending` is whether the
      stack has taken the one at the head. `posted` and `received` are the buffers that went
      each way, oldest first, and `lens` the lengths of the packets that came. */
  datatype Rx = Rx(n: nat, head: nat, slots: seq<Slot>, done: nat, pending: bool,
                   posted: seq<nat>, received: seq<nat>, lens: seq<nat>)

  datatype Event = Complete(len: nat) | Receive | Refill(buf: Option<nat>)

  /** The stack posts a buffer after each successful receive, and only then; another receive
      before that returns the same buffer again. */
  predicate Enabled(s: Rx, e: Event) {
    && s.head < s.n == |s.slots|
    && match e
       case Complete(len) =>
         s.done < s.n && s.slots[RingSlot(s.head, s.done, s.n)].own && len < LEN_RANGE
       case Receive => true
       case Refill(_) => s.pending && s.slots[s.head].ap.Some?
  }

  /** What `xgmac_dma_receive` returns: the buffer at the head once the hardware gave it up. */
  function Taken(s: Rx): Option<nat>
    requires s.head < |s.slots|
  {
    if s.slots[s.head].own then None else s.slots[s.head].ap
  }

  /** A slot after `xgmac_refill_rx_desc`: a null buffer leaves the old pointers in place. */
  function Reposted(slot: Slot, buf: Option<nat>): Slot {
    if buf.Some? then Slot(buf, true, 0, buf) else Slot(slot.addr, true, 0, slot.ap)
  }

  function Step(s: Rx, e: Event): Rx
    requires Enabled(s, e)
  {
    match e
    case Complete(len) =>
      var i := RingSlot(s.head, s.done, s.n);
      s.(slots := s.slots[i := s.slots[i].(own := false, len := len)], done := s.done + 1, lens := s.lens + [len])
    case Receive =>
      if Taken(s).Some? && !s.pending
      then s.(pending := true, received := s.received + [Taken(s).value]) else s
    case Refill(buf) =>
      var slot := Reposted(s.slots[s.head], buf);
      s.(slots := s.slots[s.head := slot], head := Next(s.head, s.n), done := Pred(s.done),
         pending := false, posted := s.posted + [if slot.ap.Some? then slot.ap.value else 0])
  }

  function Pred(k: nat): nat {
    if k == 0 then 0 else k - 1
  }

  /** The buffers in the ring, from the head on: the last `n` posted. */
  function Window(s: Rx): seq<nat>
    requires s.n <= |s.posted|
  {
    s.posted[|s.posted| - s.n..]
  }

  /** The slots hold the window in order; the hardware still owns all but the first `done`. */
  predicate RingHolds(slots: seq<Slot>, head: nat, window: seq<nat>, done: nat) {
    && head < |slots| == |window| && done <= |slots|
    && forall i | 0 <= i < |slots| ::
         var slot := slots[RingSlot(head, i, |slots|)];
         slot.ap == Some(window[i]) && slot.addr == slot.ap && slot.own == (i >= done)
  }

  /** Every packet that came is in a slot that has not been reposted since, with its own length. */
  predicate LensHeld(slots: seq<Slot>, head: nat, done: nat, lens: seq<nat>, first: nat) {
    && head < |slots| && done <= |slots| && |lens| == first + done
    && forall i | 0 <= i < done :: slots[RingSlot(head, i, |slots|)].len == lens[first + i] < LEN_RANGE
  }

  ghost predicate Inv(s: Rx) {
    && s.n <= |s.posted| && |s.slots| == s.n && s.n > 0
    && RingHolds(s.slots, s.head, Window(s), s.done)
    && (s.pending ==> s.done > 0)
    && |s.received| == |s.posted| - s.n + (if s.pending then 1 else 0)
    && s.received <= s.posted
    && LensHeld(s.slots, s.head, s.done, s.lens, |s.posted| - s.n)
  }

  /** The ring after each of `n` buffers has been posted once. */
  function Initial(bufs: seq<nat>): Rx {
    Rx(|bufs|, 0, seq(|bufs|, i requires 0 <= i < |bufs| => Slot(Some(bufs[i]), true, 0, Some(bufs[i]))),
       0, false, bufs, [], [])
  }

  lemma CompleteKeepsRing(slots: seq<Slot>, head: nat, window: seq<nat>, done: nat, len: nat)
    requires RingHolds(slots, head, window, done) && done < |slots|
    ensures var i := RingSlot(head, done, |slots|);
            RingHolds(slots[i := slots[i].(own := false, len := len)], head, window, done + 1)
  {
  }

  lemma CompleteKeepsLens(slots: seq<Slot>, head: nat, done: nat, lens: seq<nat>, first: nat, len: nat)
    requires LensHeld(slots, head, done, lens, first) && done < |slots| && len < LEN_RANGE
    ensures var i := RingSlot(head, done, |slots|);
            LensHeld(slots[i := slots[i].(own := false, len := len)], head, done + 1, lens + [len], first)
  {
  }

  lemma RefillKeepsLens(slots: seq<Slot>, head: nat, done: nat, lens: seq<nat>, first: nat, slot: Slot)
    requires LensHeld(slots, head, done, lens, first) && done > 0
    ensures LensHeld(slots[head := slot], Next(head, |slots|), done - 1, lens, first + 1)
  {
    var n, head' := |slots|, Next(head, |slots|);
    forall i | 0 <= i < done - 1
      ensures slots[head := slot][RingSlot(head', i, n)].len == lens[first + 1 + i] < LEN_RANGE
    {
      assert RingSlot(head', i, n) == RingSlot(head, i + 1, n) != head;
    }
  }

  lemma RefillKeepsRing(slots: seq<Slot>, head: nat, window: seq<nat>, done: nat, b: nat)
    requires RingHolds(slots, head, window, done) && done > 0
    ensures RingHolds(slots[head := Slot(Some(b), true, 0, Some(b))], Next(head, |slots|),
                      window[1..] + [b], done - 1)
  {
    var n, head' := |slots|, Next(head, |slots|);
    var slots' := slots[head := Slot(Some(b), true, 0, Some(b))];
    forall i | 0 <= i < n
      ensures var slot := slots'[RingSlot(head', i, n)];
              slot.ap == Some((window[1..] + [b])[i]) && slot.addr == slot.ap
              && slot.own == (i >= done - 1)
    {
      if i < n - 1 {
        assert RingSlot(head', i, n) == RingSlot(head, i + 1, n) != head;
      } else {
        assert RingSlot(head', i, n) == head;
      }
    }
  }

  lemma CompleteInv(s: Rx, len: nat)
    requires Inv(s) && Enabled(s, Complete(len))
    ensures Inv(Step(s, Complete(len)))
  {
    CompleteKeepsRing(s.slots, s.head, Window(s), s.done, len);
    CompleteKeepsLens(s.slots, s.head, s.done, s.lens, |s.posted| - s.n, len);
  }

  /** The head slot holds the oldest buffer of the window. */
  lemma HeadHolds(s: Rx)
    requires Inv(s)
    ensures s.slots[s.head].ap == Some(Window(s)[0]) && s.slots[s.head].addr == Some(Window(s)[0])
    ensures s.slots[s.head].own <==> s.done == 0
  {
    assert RingSlot(s.head, 0, s.n) == s.head;
  }

  lemma ReceiveTakesHead(s: Rx)
    requires Inv(s) && Enabled(s, Receive)
    ensures Step(s, Receive)
            == if s.done > 0 && !s.pending
               then s.(pending := true, received := s.received + [s.posted[|s.received|]]) else s
  {
    HeadHolds(s);
  }

  lemma ReceiveInv(s: Rx)
    requires Inv(s) && Enabled(s, Receive)
    ensures Inv(Step(s, Receive))
  {
    ReceiveTakesHead(s);
  }

  lemma RefillShifts(s: Rx, buf: Option<nat>)
    requires Inv(s) && Enabled(s, Refill(buf))
    ensures var b := if buf.Some? then buf.value else Window(s)[0];
            && Reposted(s.slots[s.head], buf) == Slot(Some(b), true, 0, Some(b))
            && Step(s, Refill(buf))
               == s.(slots := s.slots[s.head := Slot(Some(b), true, 0, Some(b))], head := Next(s.head, s.n),
                     done := Pred(s.done), pending := false, posted := s.posted + [b])
            && Window(Step(s, Refill(buf))) == Window(s)[1..] + [b]
  {
    HeadHolds(s);
  }

  lemma RefillInv(s: Rx, buf: Option<nat>)
    requires Inv(s) && Enabled(s, Refill(buf))
    ensures Inv(Step(s, Refill(buf)))
  {
    RefillShifts(s, buf);
    var b := if buf.Some? then buf.value else Window(s)[0];
    RefillKeepsRing(s.slots, s.head, Window(s), s.done, b);
    RefillKeepsLens(s.slots, s.head, s.done, s.lens, |s.posted| - s.n, Slot(Some(b), true, 0, Some(b)));
  }

  lemma StepInv(s: Rx, e: Event)
    requires Inv(s) && Enabled(s, e)
    ensures Inv(Step(s, e)) && Step(s, e).n == s.n
  {
    match e
    case Complete(len) => CompleteInv(s, len);
    case Receive => ReceiveInv(s);
    case Refill(buf) => RefillInv(s, buf);
  }

  // ---------- whole runs ----------

  ghost predicate Runs(s: Rx, es: seq<Event>, s': Rx)
    decreases |es|
  {
    if es == [] then s' == s else Enabled(s, es[0]) && Runs(Step(s, es[0]), es[1..], s')
  }

  lemma {:induction false} RunInv(s: Rx, es: seq<Event>, s': Rx)
    requires Inv(s) && Runs(s, es, s')
    ensures Inv(s') && s'.n == s.n
    decreases |es|
  {
    if es != [] {
      StepInv(s, es[0]);
      RunInv(Step(s, es[0]), es[1..], s');
    }
  }

  /** The ring is a queue of posted buffers: receives return buffers in the order they were
      posted, each exactly `n` postings after its own, from the descriptor it was programmed
      into; and a receive succeeds exactly when the hardware has filled the oldest one, whose slot
      then has the length of the packet that came into it. */
  lemma ReceiveRing(bufs: seq<nat>, es: seq<Event>, s: Rx)
    requires bufs != [] && Runs(Initial(bufs), es, s)
    ensures s.n == |bufs| <= |s.posted| && bufs <= s.posted && s.received <= s.posted
    ensures |s.posted| == |bufs| + |s.received| - (if s.pending then 1 else 0)
    ensures RingHolds(s.slots, s.head, Window(s), s.done)
    ensures Taken(s) == if s.done > 0 then Some(s.posted[|s.posted| - s.n]) else None
    ensures |s.lens| == |s.posted| - s.n + s.done
    ensures s.done > 0 ==> s.slots[s.head].len % LEN_RANGE == s.lens[|s.posted| - s.n]
  {
    RunInv(Initial(bufs), es, s);
    PostedGrows(Initial(bufs), es, s);
    assert s.slots[RingSlot(s.head, 0, s.n)].ap == Some(Window(s)[0]);
    if s.done > 0 {
      assert s.slots[RingSlot(s.head, 0, s.n)].len == s.lens[|s.posted| - s.n];
    }
  }

  lemma {:induction false} PostedGrows(s: Rx, es: seq<Event>, s': Rx)
    requires Runs(s, es, s')
    ensures s.posted <= s'.posted
    decreases |es|
  {
    if es != [] {
      PostedGrows(Step(s, es[0]), es[1..], s');
    }
  }

  // ---------- who owns a buffer ----------

  predicate Distinct(xs: seq<nat>) {
    forall i, j | 0 <= i < j < |xs| :: xs[i] != xs[j]
  }

  /** A refill with a buffer that no slot holds, the one being replaced included. */
  predicate Fresh(s: Rx, e: Event) {
    e.Refill? ==> e.buf.Some? && forall k | 0 <= k < |s.slots| :: s.slots[k].ap != e.buf
  }

  ghost predicate AllFresh(s: Rx, es: seq<Event>, s': Rx)
    requires Runs(s, es, s')
    decreases |es|
  {
    es == [] || (Fresh(s, es[0]) && AllFresh(Step(s, es[0]), es[1..], s'))
  }

  lemma FreshKeepsDistinct(s: Rx, e: Event)
    requires Inv(s) && Enabled(s, e) && Fresh(s, e) && Distinct(Window(s))
    ensures Inv(Step(s, e)) && Distinct(Window(Step(s, e)))
  {
    StepInv(s, e);
    if e.Refill? {
      forall i | 0 <= i < s.n ensures Window(s)[i] != e.buf.value {
        assert s.slots[RingSlot(s.head, i, s.n)].ap == Some(Window(s)[i]);
      }
      RefillShifts(s, e.buf);
    }
  }

  /** With fresh buffers every buffer is in at most one slot at any time. */
  lemma {:induction false} OneSlotEach(s: Rx, es: seq<Event>, s': Rx)
    requires Inv(s) && Runs(s, es, s') && AllFresh(s, es, s') && Distinct(Window(s))
    ensures s'.n <= |s'.posted| && Distinct(Window(s'))
    decreases |es|
  {
    if es != [] {
      FreshKeepsDistinct(s, es[0]);
      OneSlotEach(Step(s, es[0]), es[1..], s');
    }
  }

  predicate InRing(s: Rx, b: nat) {
    exists k | 0 <= k < |s.slots| :: s.slots[k].ap == Some(b)
  }

  /** The stack has received the buffer and has not posted it since. */
  predicate WithStack(s: Rx, b: nat) {
    exists i | 0 <= i < |s.received| :: s.received[i] == b && NotAfter(s.posted, i, b)
  }

  predicate NotAfter(xs: seq<nat>, i: nat, b: nat) {
    forall k | i < k < |xs| :: xs[k] != b
  }

  lemma RingIsWindow(s: Rx, b: nat)
    requires Inv(s)
    ensures InRing(s, b) <==> b in Window(s)
  {
    if b in Window(s) {
      var i :| 0 <= i < s.n && Window(s)[i] == b;
      assert s.slots[RingSlot(s.head, i, s.n)].ap == Some(b);
    }
    if InRing(s, b) {
      var k :| 0 <= k < |s.slots| && s.slots[k].ap == Some(b);
      var i := if k >= s.head then k - s.head else k + s.n - s.head;
      assert RingSlot(s.head, i, s.n) == k;
      assert Window(s)[i] == b;
    }
  }

  lemma {:induction false} LastPosting(xs: seq<nat>, b: nat) returns (j: nat)
    requires b in xs
    ensures j < |xs| && xs[j] == b && NotAfter(xs, j, b)
    decreases |xs|
  {
    var last := |xs| - 1;
    if xs[last] == b {
      j := last;
    } else {
      j := LastPosting(xs[..last], b);
      assert xs[j] == b;
      assert forall k | j < k < last :: xs[k] == xs[..last][k];
    }
  }

  /** On every run with fresh buffers, every buffer ever posted is in exactly one slot of the ring
      or with the stack, and in both places only while the stack has not refilled yet: then it is
      the one at the head. */
  lemma {:induction false} Ownership(bufs: seq<nat>, es: seq<Event>, s: Rx, b: nat)
    requires bufs != [] && Distinct(bufs) && Runs(Initial(bufs), es, s) && AllFresh(Initial(bufs), es, s)
    requires b in s.posted
    ensures InRing(s, b) || WithStack(s, b)
    ensures InRing(s, b) && WithStack(s, b)
            <==> s.pending && s.head < |s.slots| && s.slots[s.head].ap == Some(b)
    ensures forall k, l | 0 <= k < l < |s.slots| :: s.slots[k].ap != s.slots[l].ap
  {
    RunInv(Initial(bufs), es, s);
    assert Window(Initial(bufs)) == bufs;
    OneSlotEach(Initial(bufs), es, s);
    RingIsWindow(s, b);
    HeadIsOldest(s);
    SomewhereNow(s, b);
    if b in Window(s) && WithStack(s, b) {
      BothOnlyAtHead(s, b);
    }
    if s.pending && Window(s)[0] == b {
      HeadIsInBoth(s, b);
    }
    SlotsDistinct(s);
  }

  lemma HeadIsOldest(s: Rx)
    requires Inv(s)
    ensures s.slots[s.head].ap == Some(Window(s)[0])
  {
    assert s.slots[RingSlot(s.head, 0, s.n)].ap == Some(Window(s)[0]);
  }

  lemma SlotsDistinct(s: Rx)
    requires Inv(s) && Distinct(Window(s))
    ensures forall k, l | 0 <= k < l < |s.slots| :: s.slots[k].ap != s.slots[l].ap
  {
    forall k, l | 0 <= k < l < |s.slots| ensures s.slots[k].ap != s.slots[l].ap {
      var i := if k >= s.head then k - s.head else k + s.n - s.head;
      var j := if l >= s.head then l - s.head else l + s.n - s.head;
      assert RingSlot(s.head, i, s.n) == k && RingSlot(s.head, j, s.n) == l;
      assert Window(s)[i] != Window(s)[j];
    }
  }

  lemma {:induction false} SomewhereNow(s: Rx, b: nat)
    requires Inv(s) && b in s.posted
    ensures b in Window(s) || WithStack(s, b)
  {
    var first := |s.posted| - s.n;
    var j := LastPosting(s.posted, b);
    if j < first {
      assert s.received[j] == s.posted[j];
    } else {
      assert Window(s)[j - first] == b;
    }
  }

  lemma {:induction false} BothOnlyAtHead(s: Rx, b: nat)
    requires Inv(s) && b in Window(s) && WithStack(s, b)
    ensures s.pending && Window(s)[0] == b
  {
    var first := |s.posted| - s.n;
    var i :| 0 <= i < |s.received| && s.received[i] == b && NotAfter(s.posted, i, b);
    var k :| 0 <= k < s.n && Window(s)[k] == b;
    assert s.posted[first + k] == b;
    assert first + k <= i;
    assert s.received[i] == s.posted[i];
  }

  lemma {:induction false} HeadIsInBoth(s: Rx, b: nat)
    requires Inv(s) && Distinct(Window(s)) && s.pending && Window(s)[0] == b
    ensures WithStack(s, b)
  {
    var first := |s.posted| - s.n;
    assert s.received[first] == s.posted[first] == b;
    forall k | first < k < |s.posted| ensures s.posted[k] != b {
      assert Window(s)[k - first] != Window(s)[0];
    }
    assert NotAfter(s.posted, first, b);
  }

  /** Once the stack has refilled, the buffer it took is out of the ring if and only if the
      buffer it posted is not null and not that same buffer. */
  lemma TakenBufferLeavesRing(s: Rx, buf: Option<nat>)
    requires Inv(s) && Enabled(s, Refill(buf)) && Distinct(Window(s))
    ensures Inv(Step(s, Refill(buf))) && s.received != []
    ensures var taken := s.received[|s.received| - 1];
            taken !in Window(Step(s, Refill(buf))) <==> buf.Some? && buf.value != taken
  {
    StepInv(s, Refill(buf));
    assert s.slots[RingSlot(s.head, 0, s.n)].ap == Some(Window(s)[0]);
    var b := if buf.Some? then buf.value else Window(s)[0];
    var window' := Window(Step(s, Refill(buf)));
    assert window' == Window(s)[1..] + [b];
    assert s.received[|s.received| - 1] == Window(s)[0];
    assert window'[s.n - 1] == b;
  }

  // ---------- the driver ----------

  class XgmacRxRing {
    const n: nat
    const slots: array<Slot>
    var head: nat
    ghost var done: nat
    ghost var pending: bool
    ghost var posted: seq<nat>
    ghost var received: seq<nat>
    ghost var lens: seq<nat>

    ghost function View(): Rx
      reads this, slots
    {
      Rx(n, head, slots[..], done, pending, posted, received, lens)
    }

    /** `dma_set_descs`, receive side. */
    constructor (n: nat)
      requires n > 0
      ensures View() == Rx(n, 0, seq(n, _ => EMPTY), 0, false, [], [], []) && fresh(slots)
    {
      this.n, head := n, 0;
      slots := new Slot[n];
      done, pending, posted, received, lens := 0, false, [], [], [];
      new;
      for i := 0 to n
        invariant forall j | 0 <= j < i :: slots[j] == EMPTY
        invariant View() == Rx(n, 0, slots[..], 0, false, [], [], [])
      {
        slots[i] := EMPTY;
      }
    }

    /** `xgmac_dma_receive`. */
    method ReceiveFrame() returns (ret: Ret, buf: Option<nat>, len: nat)
      requires head < slots.Length == n
      modifies `pending, `received
      ensures ret == if slots[head].own then EAGAIN else if slots[head].ap.None? then EINVAL else OK
      ensures buf == Taken(old(View())) && View() == Step(old(View()), Receive)
      ensures ret == OK ==> len == slots[head].len % LEN_RANGE
    {
      buf, len := None, 0;
      if slots[head].own {
        ret := EAGAIN;
        return;
      }
      buf := slots[head].ap;
      if buf.None? {
        ret := EINVAL;
        return;
      }
      len := slots[head].len % LEN_RANGE;
      if !pending {
        pending, received := true, received + [buf.value];
      }
      ret := OK;
    }

    /** `xgmac_refill_rx_desc`. */
    method RefillDesc(buf: Option<nat>)
      requires head < slots.Length == n
      modifies `head, `done, `pending, `posted, slots
      ensures slots[..] == old(slots[..])[old(head) := Reposted(old(slots[head]), buf)]
      ensures head == Next(old(head), n) && done == Pred(old(done)) && !pending
      ensures posted == old(posted) + if slots[old(head)].ap.Some? then [slots[old(head)].ap.value] else []
      ensures Enabled(old(View()), Refill(buf)) ==> View() == Step(old(View()), Refill(buf))
    {
      var slot := slots[head];
      if buf.Some? {
        slot := slot.(addr := buf, ap := buf);
      }
      slots[head] := slot.(len := 0, own := true);
      if slots[head].ap.Some? {
        posted := posted + [slots[head].ap.value];
      }
      NextIsModulo(head, n);
      head := (head + 1) % n;
      done, pending := Pred(done), false;
    }

    /** The stack's first `n` refills take an empty ring to its initial state. */
    method FirstRefills(bufs: seq<nat>)
      requires |bufs| == n > 0 && View() == Rx(n, 0, seq(n, _ => EMPTY), 0, false, [], [], [])
      modifies `head, `done, `pending, `posted, slots
      ensures View() == Initial(bufs) && Inv(View())
    {
      assert |View().slots| == n;
      for i := 0 to n
        invariant slots.Length == n && head == (if i == n then 0 else i)
        invariant done == 0 && !pending && posted == bufs[..i] && received == [] && lens == []
        invariant forall j | 0 <= j < i :: slots[j] == Slot(Some(bufs[j]), true, 0, Some(bufs[j]))
      {
        RefillDesc(Some(bufs[i]));
      }
      assert bufs[..n] == bufs;
    }
  }
}
