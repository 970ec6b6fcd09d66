/** The session table of the crypto driver: which slots hold a session, under which UUID. */
module FcsSession {
  import opened Common

  const UUID_SIZE: nat := 16
  const ZERO: seq<byte> := [0, 0, 0, 0, 0, 0, 0, 0, 0, 0, 0, 0, 0, 0, 0, 0]
  const STATUS_RANGE := 0x800

  datatype Slot = Slot(uuid: seq<byte>, id: nat, handle: Option<nat>)

  const EMPTY: Slot := Slot(ZERO, 0, None)

  datatype Table = Table(slots: seq<Slot>, count: int)

  // ---------- UUIDs ----------

  /** A version 4 UUID: version and variant bits as in section 5.4 of RFC 9562. */
  predicate IsV4(u: seq<byte>) {
    |u| == UUID_SIZE && u[6] / 16 == 4 && u[8] / 64 == 2
  }

  /** Overwrite the version and variant bits. */
  function Stamp(u: seq<byte>): (r: seq<byte>)
    requires |u| == UUID_SIZE
    ensures IsV4(r)
    ensures forall k | 0 <= k < UUID_SIZE && k != 6 && k != 8 :: r[k] == u[k]
    ensures r[6] % 16 == u[6] % 16 && r[8] % 64 == u[8] % 64
  {
    u[6 := u[6] % 16 + 0x40][8 := u[8] % 64 + 0x80]
  }

  // ---------- searching the table ----------

  /** The first slot from `i` on without a session. */
  function FreeFrom(slots: seq<Slot>, i: nat): (r: nat)
    requires i <= |slots|
    ensures i <= r <= |slots|
    ensures forall k | i <= k < r :: slots[k].id != 0
    ensures r < |slots| ==> slots[r].id == 0
    decreases |slots| - i
  {
    if i == |slots| || slots[i].id == 0 then i else FreeFrom(slots, i + 1)
  }

  /** The last of the first `n` slots with this UUID. */
  function LastMatch(slots: seq<Slot>, uuid: seq<byte>, n: nat): (r: Option<nat>)
    requires n <= |slots|
    ensures r.Some? ==> r.value < n && slots[r.value].uuid == uuid
    ensures forall k | 0 <= k < n && slots[k].uuid == uuid :: r.Some? && k <= r.value
  {
    if n == 0 then None
    else if slots[n - 1].uuid == uuid then Some(n - 1)
    else LastMatch(slots, uuid, n - 1)
  }

  function Find(t: Table, uuid: seq<byte>): Option<nat> {
    if t.count == 0 then None else LastMatch(t.slots, uuid, |t.slots|)
  }

  /** How many slots hold a session. */
  function Busy(slots: seq<Slot>): (n: nat)
    ensures n <= |slots|
  {
    if slots == [] then 0
    else
      var last := |slots| - 1;
      Busy(slots[..last]) + (if slots[last].id != 0 then 1 else 0)
  }

  /** How many slots have this id. */
  function Matches(slots: seq<Slot>, id: nat): nat {
    if slots == [] then 0
    else
      var last := |slots| - 1;
      Matches(slots[..last], id) + (if slots[last].id == id then 1 else 0)
  }

  function ClearId(slots: seq<Slot>, id: nat): (r: seq<Slot>)
    ensures |r| == |slots|
  {
    if slots == [] then []
    else
      var last := |slots| - 1;
      ClearId(slots[..last], id) + [if slots[last].id == id then EMPTY else slots[last]]
  }

  /** Clearing an id empties exactly the slots that have it. */
  lemma {:induction false} ClearIdAt(slots: seq<Slot>, id: nat, k: nat)
    requires k < |slots|
    ensures ClearId(slots, id)[k] == if slots[k].id == id then EMPTY else slots[k]
  {
    if k < |slots| - 1 {
      ClearIdAt(slots[..|slots| - 1], id, k);
    }
  }

  lemma {:induction false} BusyUpdate(slots: seq<Slot>, i: nat, s: Slot)
    requires i < |slots|
    ensures Busy(slots[i := s])
            == Busy(slots) - (if slots[i].id != 0 then 1 else 0) + (if s.id != 0 then 1 else 0)
  {
    var last := |slots| - 1;
    if i < last {
      assert slots[i := s][..last] == slots[..last][i := s];
      BusyUpdate(slots[..last], i, s);
    } else {
      assert slots[i := s][..last] == slots[..last];
    }
  }

  /** Pigeonhole: while fewer sessions are open than there are slots, the search for a free slot
      stays inside the table. */
  lemma {:induction false} FreeSlotExists(slots: seq<Slot>)
    requires Busy(slots) < |slots|
    ensures FreeFrom(slots, 0) < |slots|
  {
    if forall k | 0 <= k < |slots| :: slots[k].id != 0 {
      AllBusy(slots);
    }
  }

  lemma {:induction false} AllBusy(slots: seq<Slot>)
    requires forall k | 0 <= k < |slots| :: slots[k].id != 0
    ensures Busy(slots) == |slots|
  {
    if slots != [] {
      AllBusy(slots[..|slots| - 1]);
    }
  }

  lemma {:induction false} MatchesNone(slots: seq<Slot>, id: nat)
    requires forall k | 0 <= k < |slots| :: slots[k].id != id
    ensures Matches(slots, id) == 0
  {
    if slots != [] {
      MatchesNone(slots[..|slots| - 1], id);
    }
  }

  lemma {:induction false} MatchesSome(slots: seq<Slot>, id: nat, i: nat)
    requires i < |slots| && slots[i].id == id
    ensures Matches(slots, id) > 0
  {
    if i < |slots| - 1 {
      MatchesSome(slots[..|slots| - 1], id, i);
    }
  }

  lemma {:induction false} MatchesUnique(slots: seq<Slot>, id: nat, i: nat)
    requires i < |slots|
    requires forall k | 0 <= k < |slots| :: slots[k].id == id <==> k == i
    ensures Matches(slots, id) == 1
  {
    var last := |slots| - 1;
    if i < last {
      MatchesUnique(slots[..last], id, i);
    } else {
      MatchesNone(slots[..last], id);
    }
  }

  /** Emptying slots that hold no session changes no count. */
  lemma {:induction false} ClearZeroBusy(slots: seq<Slot>)
    ensures Busy(ClearId(slots, 0)) == Busy(slots)
  {
    if slots != [] {
      var last := |slots| - 1;
      ClearZeroBusy(slots[..last]);
      assert ClearId(slots, 0)[..last] == ClearId(slots[..last], 0);
    }
  }

  // ---------- opening and closing ----------

  /** What the mailbox and the device answer to an open. `rng` is None when no random bytes come
      back; then the caller's buffer is stamped as it is. */
  datatype OpenReply = OpenReply(client: Option<nat>, callback: int, send: int, signalled: bool,
                                 status: nat, id: nat, rng: Option<seq<byte>>)

  datatype CloseReply = CloseReply(send: int, signalled: bool, status: nat, closed: int)

  datatype Outcome = Outcome(table: Table, ret: int, uuid: Option<seq<byte>>)

  predicate UuidSized(u: Option<seq<byte>>) {
    u.Some? ==> |u.value| == UUID_SIZE
  }

  /** What an open needs to stay inside the table: a free slot while the count admits a session. */
  predicate Sized(t: Table) {
    && 0 <= t.count && (t.count < |t.slots| ==> Busy(t.slots) < |t.slots|)
    && forall k | 0 <= k < |t.slots| :: |t.slots[k].uuid| == UUID_SIZE
  }

  function Hold(t: Table, client: Option<nat>): (h: Table)
    requires Sized(t) && t.count < |t.slots|
    ensures |h.slots| == |t.slots| && h.count == t.count
  {
    FreeSlotExists(t.slots);
    var i := FreeFrom(t.slots, 0);
    t.(slots := t.slots[i := t.slots[i].(handle := client)])
  }

  /** Whether an open gets as far as recording the new session. */
  predicate Registers(t: Table, uuid: Option<seq<byte>>, e: OpenReply)
    requires Sized(t)
  {
    && t.count < |t.slots| && uuid.Some? && e.client.Some?
    && Hold(t, e.client).slots[t.count].handle.Some?
    && e.callback == 0 && e.send == 0 && e.signalled && e.status == 0
  }

  function Open(t: Table, uuid: Option<seq<byte>>, e: OpenReply): (r: Outcome)
    requires Sized(t) && UuidSized(uuid) && UuidSized(e.rng)
    ensures |r.table.slots| == |t.slots|
  {
    if t.count >= |t.slots| then Outcome(t, MINUS_EIO, uuid)
    else if uuid.None? then Outcome(t, MINUS_EINVAL, uuid)
    else
      var held := Hold(t, e.client);
      if e.client.None? then Outcome(held, MINUS_EIO, uuid)
      else if held.slots[t.count].handle.None? then Outcome(held, MINUS_EINVAL, uuid)
      else if e.callback != 0 then Outcome(held, MINUS_ENOMEM, uuid)
      else if e.send != 0 || !e.signalled then Outcome(held, e.send, uuid)
      else if e.status != 0 then Outcome(held, e.status % STATUS_RANGE, uuid)
      else
        FreeSlotExists(t.slots);
        var u := Stamp(if e.rng.Some? then e.rng.value else uuid.value);
        Outcome(Table(held.slots[FreeFrom(t.slots, 0) := Slot(u, e.id, e.client)], t.count + 1),
                0, Some(u))
  }

  /** Whether a close gets as far as clearing slots. */
  predicate Clears(t: Table, uuid: seq<byte>, e: CloseReply) {
    var m := Find(t, uuid);
    m.Some? && t.slots[m.value].handle.Some? && e == CloseReply(0, true, 0, 0)
  }

  function Close(t: Table, uuid: seq<byte>, e: CloseReply): (r: Outcome)
    ensures |r.table.slots| == |t.slots|
  {
    var m := Find(t, uuid);
    if m.None? || t.slots[m.value].handle.None? then Outcome(t, MINUS_EIO, Some(uuid))
    else if e.send != 0 || !e.signalled then Outcome(t, e.send, Some(uuid))
    else if e.status != 0 then Outcome(t, e.status % U16_RANGE, Some(uuid))
    else if e.closed != 0 then Outcome(t, e.closed, Some(uuid))
    else
      var id := t.slots[m.value].id;
      Outcome(Table(ClearId(t.slots, id), t.count - Matches(t.slots, id)), 0, Some(uuid))
  }

  // ---------- the invariant ----------

  /** An empty slot has a zero UUID; a session has a version 4 UUID and a client. */
  predicate SlotOk(s: Slot) {
    if s.id == 0 then s.uuid == ZERO else IsV4(s.uuid) && s.handle.Some?
  }

  predicate Distinct(slots: seq<Slot>) {
    forall i, j | 0 <= i < j < |slots| && slots[i].id != 0 :: slots[i].id != slots[j].id
  }

  predicate Inv(t: Table) {
    && t.count == Busy(t.slots)
    && (forall k | 0 <= k < |t.slots| :: SlotOk(t.slots[k]))
    && Distinct(t.slots)
  }

  predicate Used(slots: seq<Slot>, id: nat) {
    exists k | 0 <= k < |slots| :: slots[k].id == id
  }

  lemma HoldInv(t: Table, client: Option<nat>)
    requires Inv(t) && Sized(t) && t.count < |t.slots|
    ensures Inv(Hold(t, client)) && Sized(Hold(t, client))
    ensures FreeFrom(t.slots, 0) < |t.slots|
  {
    FreeSlotExists(t.slots);
    var i := FreeFrom(t.slots, 0);
    BusyUpdate(t.slots, i, t.slots[i].(handle := client));
  }

  lemma {:induction false} RegisterInv(t: Table, i: nat, s: Slot)
    requires Inv(t) && i < |t.slots| && t.slots[i].id == 0 && IsV4(s.uuid) && s.handle.Some?
    ensures Inv(Table(t.slots[i := s], t.count + 1)) <==> s.id != 0 && !Used(t.slots, s.id)
  {
    var next := t.slots[i := s];
    BusyUpdate(t.slots, i, s);
    if s.id != 0 && Used(t.slots, s.id) {
      var k :| 0 <= k < |t.slots| && t.slots[k].id == s.id;
      assert next[k].id == next[i].id && k != i;
    }
  }

  lemma HoldUses(t: Table, client: Option<nat>, id: nat)
    requires Sized(t) && t.count < |t.slots|
    ensures Used(Hold(t, client).slots, id) <==> Used(t.slots, id)
  {
    if Used(t.slots, id) {
      var k :| 0 <= k < |t.slots| && t.slots[k].id == id;
      assert Hold(t, client).slots[k].id == id;
    }
    if Used(Hold(t, client).slots, id) {
      var k :| 0 <= k < |t.slots| && Hold(t, client).slots[k].id == id;
      assert t.slots[k].id == id;
    }
  }

  /** An open keeps the table in order if and only if it records no session or the device's id
      is nonzero and not in use. */
  lemma {:induction false} OpenInv(t: Table, uuid: Option<seq<byte>>, e: OpenReply)
    requires Inv(t) && Sized(t) && UuidSized(uuid) && UuidSized(e.rng)
    ensures Inv(Open(t, uuid, e).table)
            <==> (Registers(t, uuid, e) ==> e.id != 0 && !Used(t.slots, e.id))
  {
    if t.count < |t.slots| {
      HoldInv(t, e.client);
      HoldUses(t, e.client, e.id);
    }
    if Registers(t, uuid, e) {
      var u := Stamp(if e.rng.Some? then e.rng.value else uuid.value);
      RegisterInv(Hold(t, e.client), FreeFrom(t.slots, 0), Slot(u, e.id, e.client));
    }
  }

  /** Clearing the id of a session empties exactly its slot. */
  lemma {:induction false} ClearSession(t: Table, i: nat)
    requires Inv(t) && i < |t.slots| && t.slots[i].id != 0
    ensures var id := t.slots[i].id;
            && ClearId(t.slots, id) == t.slots[i := EMPTY] && Matches(t.slots, id) == 1
            && Inv(Table(t.slots[i := EMPTY], t.count - 1))
  {
    MatchesUnique(t.slots, t.slots[i].id, i);
    forall k | 0 <= k < |t.slots|
      ensures ClearId(t.slots, t.slots[i].id)[k] == t.slots[i := EMPTY][k]
    {
      ClearIdAt(t.slots, t.slots[i].id, k);
    }
    assert ClearId(t.slots, t.slots[i].id) == t.slots[i := EMPTY];
    BusyUpdate(t.slots, i, EMPTY);
  }

  lemma {:induction false} ClearNoSession(t: Table, i: nat)
    requires Inv(t) && i < |t.slots| && t.slots[i].id == 0
    ensures !Inv(Table(ClearId(t.slots, 0), t.count - Matches(t.slots, 0)))
  {
    MatchesSome(t.slots, 0, i);
    ClearZeroBusy(t.slots);
  }

  /** A close keeps the table in order if and only if it clears nothing or the slot it found
      holds a session: the clearing loop takes every empty slot for a match of id zero. */
  lemma {:induction false} CloseInv(t: Table, uuid: seq<byte>, e: CloseReply)
    requires Inv(t)
    ensures Inv(Close(t, uuid, e).table)
            <==> (Clears(t, uuid, e) ==> t.slots[Find(t, uuid).value].id != 0)
  {
    if Clears(t, uuid, e) {
      var i := Find(t, uuid).value;
      var id := t.slots[i].id;
      assert Close(t, uuid, e).table == Table(ClearId(t.slots, id), t.count - Matches(t.slots, id));
      if id != 0 {
        ClearSession(t, i);
      } else {
        ClearNoSession(t, i);
      }
    }
  }

  /** A stamped UUID finds a session or nothing, never an empty slot. */
  lemma V4FindsSession(t: Table, uuid: seq<byte>)
    requires Inv(t) && IsV4(uuid)
    ensures Find(t, uuid).Some? ==>
              t.slots[Find(t, uuid).value].id != 0 && t.slots[Find(t, uuid).value].handle.Some?
  {
    assert ZERO[6] / 16 == 0;
  }

  // ---------- return codes ----------

  /** The same sessions in the same slots; a mailbox handle left in an empty slot may differ. */
  predicate SameSessions(a: seq<Slot>, b: seq<Slot>) {
    |a| == |b| && forall k | 0 <= k < |a| :: a[k].uuid == b[k].uuid && a[k].id == b[k].id
  }

  /** The request to open went out, and its result says nothing although no session was opened: no
      answer was signalled, or its status has the bits of the mask clear. */
  predicate OpensSilently(t: Table, uuid: Option<seq<byte>>, e: OpenReply)
    requires Sized(t)
  {
    && Registers(t, uuid, e.(signalled := true, status := 0))
    && (!e.signalled || (e.status > 0 && e.status % STATUS_RANGE == 0))
  }

  /** An open returns zero if and only if it records a session, or failed silently. A session is
      recorded under the device's id, in the slot that was free, with a UUID that keeps the bits of
      the random bytes, or of the caller's buffer if there are none; the caller gets that UUID, and
      in every other case no session appears and the buffer stays. */
  lemma {:induction false} OpenReturns(t: Table, uuid: Option<seq<byte>>, e: OpenReply)
    requires Sized(t) && UuidSized(uuid) && UuidSized(e.rng)
    ensures var r := Open(t, uuid, e);
            && (r.ret == 0 <==> Registers(t, uuid, e) || OpensSilently(t, uuid, e))
            && if Registers(t, uuid, e)
               then
                 && r.uuid.Some? && IsV4(r.uuid.value)
                 && SameRandomBits(r.uuid.value, if e.rng.Some? then e.rng.value else uuid.value)
                 && r.table.count == t.count + 1
                 && Holds(r.table.slots, t.slots, Slot(r.uuid.value, e.id, e.client))
               else
                 && r.uuid == uuid && r.table.count == t.count
                 && SameSessions(r.table.slots, t.slots)
  {
    if Registers(t, uuid, e) {
      FreeSlotExists(t.slots);
      var i := FreeFrom(t.slots, 0);
      assert t.slots[i].id == 0;
      assert Open(t, uuid, e).table.slots
          == t.slots[i := Slot(Open(t, uuid, e).uuid.value, e.id, e.client)];
    }
  }

  /** All bits but the version and the variant. */
  predicate SameRandomBits(u: seq<byte>, v: seq<byte>)
    requires |u| == |v| == UUID_SIZE
  {
    && (forall k | 0 <= k < UUID_SIZE && k != 6 && k != 8 :: u[k] == v[k])
    && u[6] % 16 == v[6] % 16 && u[8] % 64 == v[8] % 64
  }

  /** The session is in a slot that had none, and nothing else changed. */
  predicate Holds(slots: seq<Slot>, before: seq<Slot>, s: Slot) {
    exists i | 0 <= i < |before| :: before[i].id == 0 && slots == before[i := s]
  }

  /** A close that got as far as the device, whose answer was lost or cut down to zero. */
  predicate ClosesSilently(t: Table, uuid: seq<byte>, e: CloseReply) {
    && Clears(t, uuid, CloseReply(0, true, 0, 0)) && e.send == 0
    && (!e.signalled || (e.status > 0 && e.status % U16_RANGE == 0))
  }

  /** A close returns zero if and only if it cleared the slots, or failed silently; it clears every
      slot that has the id of the one it found, and leaves all others as they were. */
  lemma {:induction false} CloseReturns(t: Table, uuid: seq<byte>, e: CloseReply)
    ensures var r := Close(t, uuid, e);
            && (r.ret == 0 <==> Clears(t, uuid, e) || ClosesSilently(t, uuid, e))
            && if Clears(t, uuid, e)
               then
                 var id := t.slots[Find(t, uuid).value].id;
                 forall k | 0 <= k < |t.slots| ::
                   r.table.slots[k] == if t.slots[k].id == id then EMPTY else t.slots[k]
               else r.table == t
  {
    if Clears(t, uuid, e) {
      var id := t.slots[Find(t, uuid).value].id;
      forall k | 0 <= k < |t.slots|
        ensures ClearId(t.slots, id)[k] == if t.slots[k].id == id then EMPTY else t.slots[k]
      {
        ClearIdAt(t.slots, id, k);
      }
    }
  }

  // ---------- runs ----------

  datatype Event =
    | OpenCall(uuid: Option<seq<byte>>, open: OpenReply)
    | CloseCall(session: seq<byte>, close: CloseReply)

  /** The device gives fresh nonzero ids, and callers close with a UUID that an open stamped. */
  predicate Trusted(t: Table, e: Event) {
    match e
    case OpenCall(uuid, r) =>
      UuidSized(uuid) && UuidSized(r.rng) && r.id != 0 && !Used(t.slots, r.id)
    case CloseCall(uuid, r) => IsV4(uuid)
  }

  function Step(t: Table, e: Event): Table
    requires Sized(t) && Trusted(t, e)
  {
    match e
    case OpenCall(uuid, r) => Open(t, uuid, r).table
    case CloseCall(uuid, r) => Close(t, uuid, r).table
  }

  lemma InvSized(t: Table)
    requires Inv(t)
    ensures Sized(t)
  {
  }

  ghost predicate Runs(t: Table, es: seq<Event>, t': Table)
    decreases |es|
  {
    if es == [] then t' == t
    else Sized(t) && Trusted(t, es[0]) && Runs(Step(t, es[0]), es[1..], t')
  }

  predicate Initial(t: Table) {
    t.count == 0 && forall k | 0 <= k < |t.slots| :: t.slots[k] == EMPTY
  }

  lemma {:induction false} InitialInv(t: Table)
    requires Initial(t)
    ensures Inv(t)
  {
    if Busy(t.slots) > 0 {
      BusyWitness(t.slots);
    }
  }

  lemma {:induction false} BusyWitness(slots: seq<Slot>)
    requires Busy(slots) > 0
    ensures exists k | 0 <= k < |slots| :: slots[k].id != 0
  {
    var last := |slots| - 1;
    if slots[last].id == 0 {
      BusyWitness(slots[..last]);
      var k :| 0 <= k < last && slots[..last][k].id != 0;
      assert slots[k].id != 0;
    }
  }

  lemma {:induction false} StepInv(t: Table, e: Event)
    requires Inv(t) && Sized(t) && Trusted(t, e)
    ensures Inv(Step(t, e)) && |Step(t, e).slots| == |t.slots|
  {
    match e {
      case OpenCall(uuid, r) => OpenInv(t, uuid, r);
      case CloseCall(uuid, r) =>
        V4FindsSession(t, uuid);
        CloseInv(t, uuid, r);
    }
  }

  lemma {:induction false} RunInv(t: Table, es: seq<Event>, t': Table)
    requires Inv(t) && Runs(t, es, t')
    ensures Inv(t') && |t'.slots| == |t.slots|
    decreases |es|
  {
    if es != [] {
      StepInv(t, es[0]);
      RunInv(Step(t, es[0]), es[1..], t');
    }
  }

  /** On every run from the empty table the count is the number of sessions and their ids are
      distinct, so the next call finds the table as it needs it: while the count admits another
      open, the search for a free slot ends in the table. */
  lemma {:induction false} SessionTable(t: Table, es: seq<Event>, t': Table)
    requires Initial(t) && Runs(t, es, t')
    ensures Inv(t') && Sized(t') && |t'.slots| == |t.slots|
    ensures 0 <= t'.count <= |t'.slots|
    ensures t'.count < |t'.slots| ==> FreeFrom(t'.slots, 0) < |t'.slots|
  {
    InitialInv(t);
    RunInv(t, es, t');
    InvSized(t');
    if t'.count < |t'.slots| {
      FreeSlotExists(t'.slots);
    }
  }

  // ---------- open, then close ----------

  lemma RemovedAgain(before: seq<Slot>, i: nat, s: Slot, j: nat)
    requires i < |before| && before[i].id == 0 && before[i].uuid == ZERO && s.id != 0
    requires j < |before|
    ensures SameSessions(before[i := s][j := EMPTY], before) <==> j == i
  {
    if j != i {
      assert before[i := s][j := EMPTY][i].id != before[i].id;
    }
  }

  /** The lookup finds the new session unless a later slot has the same UUID. */
  lemma FindsNew(before: seq<Slot>, i: nat, s: Slot)
    requires i < |before|
    ensures var j := LastMatch(before[i := s], s.uuid, |before|);
            j.Some? && (j.value == i <==> forall k | i < k < |before| :: before[k].uuid != s.uuid)
  {
    var slots := before[i := s];
    assert slots[i].uuid == s.uuid;
    var j := LastMatch(slots, s.uuid, |before|).value;
    if j == i {
      forall k | i < k < |before| ensures before[k].uuid != s.uuid {
        assert slots[k] == before[k];
      }
    }
  }

  lemma {:induction false} OpenedTable(t: Table, uuid: Option<seq<byte>>, e: OpenReply)
    requires Inv(t) && Sized(t) && UuidSized(uuid) && UuidSized(e.rng)
    requires Registers(t, uuid, e) && e.id != 0 && !Used(t.slots, e.id)
    ensures var made := Open(t, uuid, e);
            var i := FreeFrom(t.slots, 0);
            && i < |t.slots| && t.slots[i].id == 0
            && made.uuid.Some? && IsV4(made.uuid.value) && Inv(made.table)
            && made.table == Table(t.slots[i := Slot(made.uuid.value, e.id, e.client)], t.count + 1)
  {
    OpenInv(t, uuid, e);
    FreeSlotExists(t.slots);
  }

  lemma {:induction false} ClosesAgain(t: Table, i: nat, s: Slot)
    requires Inv(t) && i < |t.slots| && t.slots[i].id == 0 && s.id != 0 && IsV4(s.uuid)
    requires Inv(Table(t.slots[i := s], t.count + 1))
    ensures var after := Close(Table(t.slots[i := s], t.count + 1), s.uuid, CloseReply(0, true, 0, 0)).table;
            && after.count == t.count
            && (SameSessions(after.slots, t.slots)
                <==> forall k | i < k < |t.slots| :: t.slots[k].uuid != s.uuid)
  {
    var made := Table(t.slots[i := s], t.count + 1);
    V4FindsSession(made, s.uuid);
    FindsNew(t.slots, i, s);
    var j := Find(made, s.uuid).value;
    ClearSession(made, j);
    RemovedAgain(t.slots, i, s, j);
  }

  /** Closing the session just opened brings back the sessions there were before if and only if
      no later slot happens to hold the same UUID: the lookup takes the last match. */
  lemma {:induction false} OpenThenClose(t: Table, uuid: Option<seq<byte>>, e: OpenReply)
    requires Inv(t) && Sized(t) && UuidSized(uuid) && UuidSized(e.rng)
    requires Registers(t, uuid, e) && e.id != 0 && !Used(t.slots, e.id)
    ensures var made := Open(t, uuid, e);
            var i := FreeFrom(t.slots, 0);
            var done := Close(made.table, made.uuid.value, CloseReply(0, true, 0, 0));
            done.table.count == t.count && i < |t.slots|
            && (SameSessions(done.table.slots, t.slots)
                <==> forall k | i < k < |t.slots| :: t.slots[k].uuid != made.uuid.value)
  {
    OpenedTable(t, uuid, e);
    ClosesAgain(t, FreeFrom(t.slots, 0), Slot(Open(t, uuid, e).uuid.value, e.id, e.client));
  }

  lemma {:induction false} EmptyOrBusy(slots: seq<Slot>)
    ensures Matches(slots, 0) + Busy(slots) == |slots|
  {
    if slots != [] {
      EmptyOrBusy(slots[..|slots| - 1]);
    }
  }

  /** After a failed open has left a client in an empty slot, closing the zero UUID subtracts the
      number of empty slots from the count. With half of the slots in use the count becomes zero
      and no lookup finds any of the open sessions again. */
  lemma {:induction false} ZeroUuidLosesSessions(t: Table, i: nat)
    requires Inv(t) && t.count > 0
    requires i < |t.slots| && t.slots[i].id == 0 && t.slots[i].handle.Some?
    requires forall k | i < k < |t.slots| :: t.slots[k].id != 0
    ensures var after := Close(t, ZERO, CloseReply(0, true, 0, 0)).table;
            && after.count == 2 * t.count - |t.slots| && Busy(after.slots) == t.count
            && (2 * t.count == |t.slots| ==> forall uuid :: Find(after, uuid) == None)
  {
    assert ZERO[6] / 16 == 0;
    assert Find(t, ZERO) == Some(i);
    EmptyOrBusy(t.slots);
    ClearZeroBusy(t.slots);
  }

  lemma {:induction false} RunsAppend(t: Table, es: seq<Event>, t1: Table, e: Event)
    requires Runs(t, es, t1) && Sized(t1) && Trusted(t1, e)
    ensures Runs(t, es + [e], Step(t1, e))
    decreases |es|
  {
    if es == [] {
      assert [e][1..] == [];
    } else {
      assert (es + [e])[1..] == es[1..] + [e];
      RunsAppend(Step(t, es[0]), es[1..], t1, e);
    }
  }

  /** The first `k` slots hold sessions, the others were never used. */
  predicate FilledUpTo(t: Table, k: nat) {
    && k <= |t.slots| && t.count == k
    && (forall j | 0 <= j < k :: t.slots[j].id == j + 1)
    && forall j | k <= j < |t.slots| :: t.slots[j] == EMPTY
  }

  /** What one more open makes of such a table, if the device or the mailbox accepts it or not. */
  lemma {:induction false} OpenNext(t: Table, k: nat, callback: int) returns (e: Event)
    requires Inv(t) && Sized(t) && FilledUpTo(t, k) && k < |t.slots|
    ensures Trusted(t, e) && Inv(Step(t, e)) && |Step(t, e).slots| == |t.slots|
    ensures callback == 0 ==> FilledUpTo(Step(t, e), k + 1)
    ensures callback != 0 ==>
              Step(t, e) == t.(slots := t.slots[k := EMPTY.(handle := Some(0))])
  {
    e := OpenCall(Some(ZERO), OpenReply(Some(0), callback, 0, true, 0, k + 1, None));
    StepInv(t, e);
    FreeSlotExists(t.slots);
    assert FreeFrom(t.slots, 0) == k;
    var held := Hold(t, Some(0));
    assert held.slots == t.slots[k := EMPTY.(handle := Some(0))];
    assert held.slots[t.count].handle == Some(0);
  }

  lemma {:induction false} FillSlots(t0: Table, k: nat) returns (es: seq<Event>, t: Table)
    requires Initial(t0) && k <= |t0.slots|
    ensures Runs(t0, es, t) && Inv(t) && Sized(t) && |t.slots| == |t0.slots| && FilledUpTo(t, k)
  {
    InitialInv(t0);
    if k == 0 {
      es, t := [], t0;
    } else {
      es, t := FillSlots(t0, k - 1);
      var e := OpenNext(t, k - 1, 0);
      RunsAppend(t0, es, t, e);
      es, t := es + [e], Step(t, e);
    }
    InvSized(t);
  }

  /** The driver gets there: sessions are opened until one slot is left, and the next open fails
      after its client was opened. Closing the zero UUID then makes the count one too small, and
      with two slots in all no lookup finds the open session any more. */
  lemma {:induction false} ZeroUuidReachable(t0: Table) returns (es: seq<Event>, t: Table)
    requires Initial(t0) && |t0.slots| >= 2
    ensures Runs(t0, es, t) && Inv(t) && Busy(t.slots) == |t0.slots| - 1
    ensures var after := Close(t, ZERO, CloseReply(0, true, 0, 0)).table;
            && after.count == Busy(after.slots) - 1
            && (|t0.slots| == 2 ==> Busy(after.slots) == 1 && forall uuid :: Find(after, uuid) == None)
  {
    var k := |t0.slots| - 1;
    es, t := FillSlots(t0, k);
    var e := OpenNext(t, k, 1);
    RunsAppend(t0, es, t, e);
    es, t := es + [e], Step(t, e);
    ZeroUuidLosesSessions(t, k);
  }

  // ---------- the driver ----------

  class FcsSessions {
    const sessionMap: array<Slot>
    var sessionCount: int

    constructor (instances: nat)
      ensures Initial(View()) && |View().slots| == instances && fresh(sessionMap)
    {
      sessionMap := new Slot[instances](_ => EMPTY);
      sessionCount := 0;
    }

    function View(): Table
      reads this, sessionMap
    {
      Table(sessionMap[..], sessionCount)
    }

    /** `get_client_handle`. */
    method GetClientHandle(uuid: seq<byte>) returns (handle: Option<nat>, id: nat)
      ensures var m := Find(View(), uuid);
              if m.Some? then handle == View().slots[m.value].handle && id == View().slots[m.value].id
              else handle == None
    {
      handle, id := None, 0;
      if sessionCount != 0 {
        ghost var slots := sessionMap[..];
        for i := 0 to sessionMap.Length
          invariant var m := LastMatch(slots, uuid, i);
                    if m.Some? then handle == slots[m.value].handle && id == slots[m.value].id
                    else handle == None
        {
          if sessionMap[i].uuid == uuid {
            handle, id := sessionMap[i].handle, sessionMap[i].id;
          }
        }
      }
    }

    /** `fcs_open_session`; `uuid` is the caller's buffer, None for a null pointer. */
    method OpenSession(uuid: Option<seq<byte>>, e: OpenReply)
      returns (ret: int, uuid': Option<seq<byte>>)
      requires Sized(View()) && UuidSized(uuid) && UuidSized(e.rng)
      modifies this, sessionMap
      ensures Outcome(View(), ret, uuid') == Open(old(View()), uuid, e)
      ensures old(sessionCount) >= sessionMap.Length ==> ret == MINUS_EIO && View() == old(View())
      ensures old(sessionCount) < sessionMap.Length && uuid.None? ==> ret == MINUS_EINVAL && View() == old(View())
      ensures old(sessionCount) < sessionMap.Length && uuid.Some? && e.client.None? ==> ret == MINUS_EIO
      ensures Registers(old(View()), uuid, e.(callback := 0, send := 0, signalled := true, status := 0)) ==>
                ret == if e.callback != 0 then MINUS_ENOMEM else if e.send != 0 then e.send
                       else if e.signalled then e.status % STATUS_RANGE else 0
    {
      uuid' := uuid;
      if sessionCount >= sessionMap.Length {
        ret := MINUS_EIO;
        return;
      }
      if uuid.None? {
        ret := MINUS_EINVAL;
        return;
      }
      var i := 0;
      while i < sessionMap.Length && sessionMap[i].id != 0
        invariant i <= sessionMap.Length && FreeFrom(sessionMap[..], 0) == FreeFrom(sessionMap[..], i)
      {
        i := i + 1;
      }
      FreeSlotExists(sessionMap[..]);
      sessionMap[i] := sessionMap[i].(handle := e.client);
      assert View() == Hold(old(View()), e.client);
      if e.client.None? {
        ret := MINUS_EIO;
        return;
      }
      if sessionMap[sessionCount].handle.None? {
        ret := MINUS_EINVAL;
        return;
      }
      if e.callback != 0 {
        ret := MINUS_ENOMEM;
        return;
      }
      ret := e.send;
      if ret == 0 && e.signalled {
        if e.status == 0 {
          var u := if e.rng.Some? then e.rng.value else uuid.value;
          u := u[6 := u[6] % 16 + 0x40];
          u := u[8 := u[8] % 64 + 0x80];
          sessionMap[i] := Slot(u, e.id, sessionMap[i].handle);
          sessionCount := sessionCount + 1;
          uuid' := Some(u);
        }
        ret := e.status % STATUS_RANGE;
      }
    }

    /** The clearing loop of `fcs_close_session`. */
    method ClearSlots(id: nat)
      modifies this, sessionMap
      ensures sessionMap[..] == ClearId(old(sessionMap[..]), id)
      ensures sessionCount == old(sessionCount) - Matches(old(sessionMap[..]), id)
    {
      ghost var slots := sessionMap[..];
      for i := 0 to sessionMap.Length
        invariant forall k | 0 <= k < i :: sessionMap[k] == ClearId(slots, id)[k]
        invariant forall k | i <= k < sessionMap.Length :: sessionMap[k] == slots[k]
        invariant sessionCount == old(sessionCount) - Matches(slots[..i], id)
      {
        assert slots[..i + 1][..i] == slots[..i];
        ClearIdAt(slots, id, i);
        if sessionMap[i].id == id {
          sessionMap[i] := EMPTY;
          sessionCount := sessionCount - 1;
        }
      }
      assert slots[..sessionMap.Length] == slots;
    }

    /** `fcs_close_session`. */
    method CloseSession(uuid: seq<byte>, e: CloseReply) returns (ret: int)
      modifies this, sessionMap
      ensures Outcome(View(), ret, Some(uuid)) == Close(old(View()), uuid, e)
      ensures ret == if !old(Clears(View(), uuid, CloseReply(0, true, 0, 0))) then MINUS_EIO
                     else if e.send != 0 then e.send else if !e.signalled then 0
                     else if e.status != 0 then e.status % U16_RANGE else e.closed
    {
      var handle, id := GetClientHandle(uuid);
      if handle.None? {
        ret := MINUS_EIO;
        return;
      }
      ret := e.send;
      if ret == 0 && e.signalled {
        ret := e.closed;
        if e.status == 0 {
          if ret != 0 {
            return;
          }
          ClearSlots(id);
        }
        ret := e.status % U16_RANGE;
      }
    }
  }
}
