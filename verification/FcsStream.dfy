/** Streaming a long input to the crypto device in blocks, with a trailer (a MAC, or a signature
    and a public key) that the last call must carry whole. */
module FcsStream {
  import opened Common

  const MIN_FINAL: nat := 8

  // ---------- how the loops cut a length ----------

  datatype Chunk = Chunk(len: nat, final: bool)

  /** What one pass of the verify loops takes from `remaining` bytes, trailer included, on
      32-bit arithmetic. */
  function NextChunk(remaining: nat, trailer: nat, blk: nat): Chunk {
    if remaining > blk then
      if remaining - blk >= MIN_FINAL + trailer then Chunk(blk, false)
      else Chunk(Sub32(remaining, MIN_FINAL + trailer), false)
    else Chunk(remaining, true)
  }

  /** Within `fuel` passes the loop ends with one final call: every earlier chunk is nonempty and
      fits a block, and the final one fits a block and holds the whole trailer. */
  predicate Streams(remaining: nat, trailer: nat, blk: nat, fuel: nat)
    decreases fuel
  {
    && fuel > 0 && remaining > 0
    && var c := NextChunk(remaining, trailer, blk);
       c.len <= blk && c.len <= remaining
       && if c.final then trailer <= c.len
          else c.len > 0 && Streams(remaining - c.len, trailer, blk, fuel - 1)
  }

  ghost predicate CanStream(total: nat, trailer: nat, blk: nat) {
    exists fuel: nat :: Streams(total, trailer, blk, fuel)
  }

  lemma {:induction false} SmallTrailerStreams(remaining: nat, trailer: nat, blk: nat, fuel: nat)
    requires 0 < remaining < U32_RANGE && trailer <= remaining && remaining <= fuel
    requires remaining <= blk || MIN_FINAL + trailer <= blk
    ensures Streams(remaining, trailer, blk, fuel)
    decreases fuel
  {
    if remaining > blk {
      var c := NextChunk(remaining, trailer, blk);
      SmallTrailerStreams(remaining - c.len, trailer, blk, fuel - 1);
    }
  }

  lemma {:induction false} LargeTrailerFails(remaining: nat, trailer: nat, blk: nat, fuel: nat)
    requires blk < remaining < U32_RANGE && blk < MIN_FINAL + trailer < U32_RANGE
    ensures !Streams(remaining, trailer, blk, fuel)
    decreases fuel
  {
    var c := NextChunk(remaining, trailer, blk);
    if fuel > 0 && 0 < c.len <= blk && c.len <= remaining {
      LargeTrailerFails(remaining - c.len, trailer, blk, fuel - 1);
    }
  }

  /** The loops stream a length correctly if and only if there is something to send, it contains
      the trailer, and either one call takes it all or eight bytes and the trailer fit a block. */
  lemma {:induction false} StreamsIff(total: nat, trailer: nat, blk: nat)
    requires total < U32_RANGE && MIN_FINAL + trailer < U32_RANGE
    ensures CanStream(total, trailer, blk)
            <==> 0 < total && trailer <= total && (total <= blk || MIN_FINAL + trailer <= blk)
  {
    if 0 < total && trailer <= total && (total <= blk || MIN_FINAL + trailer <= blk) {
      SmallTrailerStreams(total, trailer, blk, total);
      assert Streams(total, trailer, blk, total);
    } else {
      forall fuel: nat ensures !Streams(total, trailer, blk, fuel) {
        if 0 < total && total > blk {
          if MIN_FINAL + trailer > blk {
            LargeTrailerFails(total, trailer, blk, fuel);
          }
        }
      }
    }
  }

  /** Signature verification adds three sizes on 32 bits. Its loop streams them if and only if
      the sum does not wrap. */
  lemma {:induction false} SumMustFit(source: nat, trailer: nat, blk: nat)
    requires MIN_FINAL <= source < U32_RANGE && MIN_FINAL + trailer <= blk < U32_RANGE
    ensures CanStream((source + trailer) % U32_RANGE, trailer, blk)
            <==> source + trailer < U32_RANGE
  {
    StreamsIff((source + trailer) % U32_RANGE, trailer, blk);
  }

  // ---------- what the device is given ----------

  /** One update or finalize call: the data bytes and the trailer bytes the device reads. */
  datatype Call = Call(data: seq<byte>, trailer: seq<byte>, final: bool)

  function DataOf(calls: seq<Call>): seq<byte> {
    if calls == [] then []
    else
      var last := |calls| - 1;
      DataOf(calls[..last]) + calls[last].data
  }

  lemma DataOfAppend(calls: seq<Call>, c: Call)
    ensures DataOf(calls + [c]) == DataOf(calls) + c.data
  {
    assert (calls + [c])[..|calls|] == calls;
  }

  predicate IsUpdate(c: Call, blk: nat) {
    !c.final && c.trailer == [] && 0 < |c.data| <= blk
  }

  /** Nonempty updates of at most a block each, handing over a prefix of the data. */
  predicate Updates(calls: seq<Call>, data: seq<byte>, blk: nat) {
    (forall i | 0 <= i < |calls| :: IsUpdate(calls[i], blk)) && DataOf(calls) <= data
  }

  /** The last call is the only final one, fits a block, carries the whole trailer and, if there
      were eight data bytes at all, at least eight of them. */
  predicate IsFinal(c: Call, data: seq<byte>, trailer: seq<byte>, blk: nat) {
    && c.final && c.trailer == trailer && |c.data| + |trailer| <= blk
    && (|data| >= MIN_FINAL ==> |c.data| >= MIN_FINAL)
  }

  /** A complete delivery: the data parts of all calls are exactly the data, in order. */
  predicate Delivers(calls: seq<Call>, data: seq<byte>, trailer: seq<byte>, blk: nat) {
    && calls != []
    && Updates(calls[..|calls| - 1], data, blk)
    && IsFinal(calls[|calls| - 1], data, trailer, blk)
    && DataOf(calls) == data
  }

  /** A delivery that the device cut short: nothing it accepted or refused is out of order. */
  predicate Begins(calls: seq<Call>, data: seq<byte>, trailer: seq<byte>, blk: nat) {
    Updates(calls, data, blk) || Delivers(calls, data, trailer, blk)
  }

  predicate Whole8(n: int) {
    n % 8 == 0
  }

  /** Every call hands over whole 8-byte groups of data. */
  predicate Aligned(calls: seq<Call>) {
    forall i | 0 <= i < |calls| :: Whole8(|calls[i].data|)
  }

  lemma AlignedAppend(calls: seq<Call>, c: Call)
    requires Aligned(calls) && Whole8(|c.data|)
    ensures Aligned(calls + [c])
  {
  }

  lemma UpdatesAppend(calls: seq<Call>, data: seq<byte>, blk: nat, c: Call)
    requires Updates(calls, data, blk) && IsUpdate(c, blk)
    requires DataOf(calls) + c.data <= data
    ensures Updates(calls + [c], data, blk)
  {
    DataOfAppend(calls, c);
  }

  lemma DeliversAppend(calls: seq<Call>, data: seq<byte>, trailer: seq<byte>, blk: nat, c: Call)
    requires Updates(calls, data, blk) && IsFinal(c, data, trailer, blk)
    requires DataOf(calls) + c.data == data
    ensures Delivers(calls + [c], data, trailer, blk)
  {
    DataOfAppend(calls, c);
    assert (calls + [c])[..|calls|] == calls;
  }

  // ---------- what the device answers ----------

  /** How one call was answered: the result of handing it over, and the device's 64-bit status. */
  datatype Reply = Reply(send: int, status: nat)

  /** The result of one call: the driver keeps 16 bits of the status. */
  function Answer(r: Reply): int {
    if r.send != 0 then r.send else r.status % U16_RANGE
  }

  /** The call was handed over and the device accepted it. */
  predicate Accepted(r: Reply) {
    r.send == 0 && r.status == 0
  }

  /** The result tells whether the call was accepted, if and only if the device did not refuse it
      with a status of which the low 16 bits are zero. */
  lemma AnswerTells(r: Reply)
    ensures (Answer(r) == 0 <==> Accepted(r)) <==> !(r.send == 0 && r.status > 0 && r.status % U16_RANGE == 0)
  {
  }

  predicate AllZero(got: seq<Reply>) {
    forall i | 0 <= i < |got| :: Answer(got[i]) == 0
  }

  /** The result of a streaming loop: it stops at the first call that is not answered by zero,
      and its result is the answer to the last call made. */
  predicate Reports(ret: int, got: seq<Reply>) {
    got != [] && ret == Answer(got[|got| - 1]) && AllZero(got[..|got| - 1])
  }

  lemma ReportsNext(got: seq<Reply>, r: Reply)
    requires AllZero(got)
    ensures Reports(Answer(r), got + [r]) && (Answer(r) == 0 ==> AllZero(got + [r]))
  {
    assert (got + [r])[..|got|] == got;
  }

  /** The device accepted every call. */
  predicate AllAccepted(got: seq<Reply>) {
    forall i | 0 <= i < |got| :: Accepted(got[i])
  }

  /** No status is cut down to zero. */
  predicate NoneCut(got: seq<Reply>) {
    forall i | 0 <= i < |got| :: got[i].status > 0 ==> got[i].status % U16_RANGE > 0
  }

  /** A loop returns zero if and only if all its calls were answered by zero. That means that the
      device accepted every call made, if and only if the result is not a zero for a status that
      was cut down to zero. */
  lemma VerdictIff(ret: int, got: seq<Reply>)
    requires Reports(ret, got)
    ensures ret == 0 <==> AllZero(got)
    ensures (ret == 0 <==> AllAccepted(got)) <==> ret != 0 || NoneCut(got)
    ensures AllAccepted(got) ==> ret == 0
  {
    assert got == got[..|got| - 1] + [got[|got| - 1]];
    forall i | 0 <= i < |got|
      ensures Accepted(got[i]) ==> Answer(got[i]) == 0
      ensures NoneCut(got) && Answer(got[i]) == 0 ==> Accepted(got[i])
    {
      AnswerTells(got[i]);
    }
  }

  /** A finalize call that the device refuses with a multiple of 65536 is taken for success. */
  lemma CutVerdict(got: seq<Reply>, k: nat)
    requires k > 0 && AllAccepted(got)
    ensures Reports(0, got + [Reply(0, k * U16_RANGE)]) && !AllAccepted(got + [Reply(0, k * U16_RANGE)])
  {
    var last := Reply(0, k * U16_RANGE);
    assert (k * U16_RANGE) % U16_RANGE == 0;
    forall i | 0 <= i < |got| ensures Answer(got[i]) == 0 {
      assert Accepted(got[i]);
    }
    ReportsNext(got, last);
    assert !Accepted((got + [last])[|got|]);
  }

  // ---------- one pass of a verify loop ----------

  /** What the verify loops keep: `off` data bytes went out as updates, and the rest still holds
      eight bytes and the trailer unless nothing has been sent yet. */
  predicate Midway(sent: seq<Call>, data: seq<byte>, trailerSize: nat, blk: nat, off: nat, remaining: nat) {
    && off <= |data| && off + remaining == |data| + trailerSize
    && (remaining >= MIN_FINAL + trailerSize || off == 0)
    && Updates(sent, data, blk) && DataOf(sent) == data[..off]
  }

  lemma {:induction false} NextUpdate(sent: seq<Call>, data: seq<byte>, trailerSize: nat, blk: nat,
                                      off: nat, remaining: nat, c: Call)
    requires Midway(sent, data, trailerSize, blk, off, remaining)
    requires MIN_FINAL + trailerSize <= blk < remaining < U32_RANGE
    requires c == Call(c.data, [], false)
    requires |c.data| == NextChunk(remaining, trailerSize, blk).len
    requires off + |c.data| <= |data| && c.data == data[off..off + |c.data|]
    ensures 0 < |c.data| < remaining
    ensures Midway(sent + [c], data, trailerSize, blk, off + |c.data|, remaining - |c.data|)
  {
    assert data[..off] + c.data == data[..off + |c.data|];
    UpdatesAppend(sent, data, blk, c);
    DataOfAppend(sent, c);
  }

  /** Whole 8-byte groups stay whole: the chunk is one, and so is what is left. */
  lemma ChunkWhole8(remaining: nat, trailer: nat, blk: nat)
    requires Whole8(remaining - trailer) && Whole8(blk) && trailer <= remaining < U32_RANGE
    requires remaining <= blk || MIN_FINAL + trailer <= blk
    ensures (remaining > blk ==> Whole8(remaining - blk - trailer))
    ensures var c := NextChunk(remaining, trailer, blk);
            Whole8(if c.final then c.len - trailer else c.len)
            && (!c.final ==> Whole8(remaining - c.len - trailer))
  {
  }

  /** Without a trailer the rule of the verify loops is the plain one of the digest loop. */
  lemma NoTrailer(remaining: nat, blk: nat)
    requires Whole8(remaining) && Whole8(blk) && 0 < blk && 0 < remaining < U32_RANGE
    ensures NextChunk(remaining, 0, blk)
            == if remaining > blk then Chunk(blk, false) else Chunk(remaining, true)
    ensures MIN_FINAL <= blk && MIN_FINAL <= remaining
  {
  }

  lemma {:induction false} LastCall(sent: seq<Call>, data: seq<byte>, trailerSize: nat, blk: nat,
                                    off: nat, remaining: nat, c: Call)
    requires Midway(sent, data, trailerSize, blk, off, remaining)
    requires remaining <= blk && c.final && |c.trailer| <= trailerSize
    requires c.data == data[off..]
    ensures Delivers(sent + [c], data, c.trailer, blk)
  {
    assert data[..off] + c.data == data;
    DeliversAppend(sent, data, c.trailer, blk, c);
  }

  /** A loop so far: all calls were answered by zero, and either something remains or everything
      has been delivered. */
  predicate Streamed(sent: seq<Call>, got: seq<Reply>, data: seq<byte>, trailer: seq<byte>, blk: nat,
                     off: nat, remaining: nat) {
    && |got| == |sent| && AllZero(got)
    && if remaining > 0 then Midway(sent, data, |trailer|, blk, off, remaining)
       else got != [] && Delivers(sent, data, trailer, blk)
  }

  /** What a loop leaves: the verdict of the device, and what it was given. */
  predicate Ended(ret: int, sent: seq<Call>, got: seq<Reply>, data: seq<byte>, trailer: seq<byte>, blk: nat) {
    && |got| == |sent| && Reports(ret, got)
    && if ret == 0 then Delivers(sent, data, trailer, blk) else Begins(sent, data, trailer, blk)
  }

  lemma StreamedEnds(sent: seq<Call>, got: seq<Reply>, data: seq<byte>, trailer: seq<byte>, blk: nat, off: nat)
    requires Streamed(sent, got, data, trailer, blk, off, 0)
    ensures Ended(0, sent, got, data, trailer, blk)
  {
  }

  /** One more update and its answer. */
  lemma {:induction false} UpdateSent(sent: seq<Call>, got: seq<Reply>, data: seq<byte>, trailer: seq<byte>,
                                      blk: nat, off: nat, remaining: nat, c: Call, r: Reply)
    requires Streamed(sent, got, data, trailer, blk, off, remaining)
    requires MIN_FINAL + |trailer| <= blk < remaining < U32_RANGE
    requires c == Call(c.data, [], false) && |c.data| == NextChunk(remaining, |trailer|, blk).len
    requires off + |c.data| <= |data| && c.data == data[off..off + |c.data|]
    ensures |c.data| < remaining
    ensures if Answer(r) == 0
            then Streamed(sent + [c], got + [r], data, trailer, blk, off + |c.data|, remaining - |c.data|)
            else Ended(Answer(r), sent + [c], got + [r], data, trailer, blk)
  {
    NextUpdate(sent, data, |trailer|, blk, off, remaining, c);
    ReportsNext(got, r);
  }

  /** The final call and its answer. */
  lemma {:induction false} FinalSent(sent: seq<Call>, got: seq<Reply>, data: seq<byte>, trailer: seq<byte>,
                                     blk: nat, off: nat, remaining: nat, c: Call, r: Reply)
    requires Streamed(sent, got, data, trailer, blk, off, remaining)
    requires 0 < remaining <= blk && c.final && |c.trailer| <= |trailer| && c.data == data[off..]
    ensures if Answer(r) == 0
            then Streamed(sent + [c], got + [r], data, c.trailer, blk, off + remaining, 0)
            else Ended(Answer(r), sent + [c], got + [r], data, c.trailer, blk)
  {
    LastCall(sent, data, |trailer|, blk, off, remaining, c);
    ReportsNext(got, r);
  }

  // ---------- staging a signature ----------

  /** The staging buffer is an array of 32-bit words, so the signature and the key are copied to
      whole-word offsets. */
  function WordOffset(bytes: nat): (r: nat)
    ensures r <= bytes < r + 4
  {
    bytes / 4 * 4
  }

  /** The copies land where the previous part ends. */
  predicate WordsFit(src: nat, sig: nat, key: nat) {
    src % 4 == 0 && (sig % 4 == 0 || key == 0)
  }

  lemma OffsetsExact(src: nat, sig: nat, key: nat)
    requires src % 4 == 0
    ensures WordOffset(src) == src
    ensures WordsFit(src, sig, key) ==> WordOffset(src + sig) == src + sig || key == 0
    ensures src <= WordOffset(src + sig)
    ensures !WordsFit(src, sig, key) ==> WordOffset(src + sig) < src + sig
  {
  }

  /** Three copies into a buffer: the source at its start, then the signature and the key. */
  function Copied(buf: seq<byte>, src: seq<byte>, sig: seq<byte>, sigAt: nat, key: seq<byte>, keyAt: nat):
    (r: seq<byte>)
    requires |src| <= |buf| && sigAt + |sig| <= |buf| && keyAt + |key| <= |buf|
    ensures |r| == |buf|
  {
    Overlay(Overlay(Overlay(buf, 0, src), sigAt, sig), keyAt, key)
  }

  lemma CopiedWhole(buf: seq<byte>, src: seq<byte>, sig: seq<byte>, key: seq<byte>, keyAt: nat)
    requires |src| + |sig| + |key| <= |buf| && keyAt + |key| <= |buf|
    requires keyAt == |src| + |sig| || key == []
    ensures Copied(buf, src, sig, |src|, key, keyAt)[..|src| + |sig| + |key|] == src + sig + key
  {
    var one := Overlay(buf, 0, src);
    OverlayHere(buf, 0, src);
    var two := Overlay(one, |src|, sig);
    OverlayHere(one, |src|, sig);
    assert two[..|src| + |sig|] == src + sig;
    if key == [] {
      OverlayNothing(two, keyAt);
      assert src + sig + key == src + sig;
    } else {
      OverlayHere(two, |src| + |sig|, key);
    }
  }

  lemma CopiedSource(buf: seq<byte>, src: seq<byte>, sig: seq<byte>, key: seq<byte>, keyAt: nat)
    requires |src| + |sig| + |key| <= |buf| && |src| <= keyAt && keyAt + |key| <= |buf|
    ensures Copied(buf, src, sig, |src|, key, keyAt)[..|src|] == src
  {
    var one := Overlay(buf, 0, src);
    OverlayHere(buf, 0, src);
    var two := Overlay(one, |src|, sig);
    OverlayBefore(one, |src|, sig, |src|);
    OverlayBefore(two, keyAt, key, |src|);
  }

  lemma CopiedOver(buf: seq<byte>, src: seq<byte>, sig: seq<byte>, key: seq<byte>, keyAt: nat)
    requires |src| + |sig| + |key| <= |buf| && |src| <= keyAt < |src| + |sig| && key != []
    ensures Copied(buf, src, sig, |src|, key, keyAt)[keyAt] == key[0]
    ensures (src + sig + key)[keyAt] == sig[keyAt - |src|]
  {
  }

  function Staged(buf: seq<byte>, src: seq<byte>, sig: seq<byte>, key: seq<byte>): (r: seq<byte>)
    requires |src| + |sig| + |key| <= |buf|
    ensures |r| == |buf|
  {
    Copied(buf, src, sig, WordOffset(|src|), key, WordOffset(|src| + |sig|))
  }

  /** The payload is the source, the signature and the key, when both copies land on the word
      where the previous one ends. */
  lemma StagedWhole(buf: seq<byte>, src: seq<byte>, sig: seq<byte>, key: seq<byte>)
    requires |src| + |sig| + |key| <= |buf| && WordsFit(|src|, |sig|, |key|)
    ensures Staged(buf, src, sig, key)[..|src| + |sig| + |key|] == src + sig + key
  {
    OffsetsExact(|src|, |sig|, |key|);
    CopiedWhole(buf, src, sig, key, WordOffset(|src| + |sig|));
  }

  /** Where the signature is not whole words, the key starts inside its last word. */
  lemma KeyOverwrites(buf: seq<byte>, src: seq<byte>, sig: seq<byte>, key: seq<byte>)
    requires |src| + |sig| + |key| <= |buf| && |src| % 4 == 0
    requires !WordsFit(|src|, |sig|, |key|)
    ensures |src| <= WordOffset(|src| + |sig|) < |src| + |sig|
    ensures Staged(buf, src, sig, key)[WordOffset(|src| + |sig|)] == key[0]
    ensures (src + sig + key)[WordOffset(|src| + |sig|)] == sig[WordOffset(|src| + |sig|) - |src|]
  {
    OffsetsExact(|src|, |sig|, |key|);
    CopiedOver(buf, src, sig, key, WordOffset(|src| + |sig|));
  }

  /** For a source of whole words, the payload is right for all contents if and only if the
      signature is whole words too or there is no key: otherwise the key overwrites the end of
      the signature. */
  lemma StagedIff(src: seq<byte>, sigLen: nat, keyLen: nat)
    requires |src| % 4 == 0
    ensures (forall buf: seq<byte>, sig: seq<byte>, key: seq<byte> |
               |sig| == sigLen && |key| == keyLen && |src| + sigLen + keyLen <= |buf| ::
               Staged(buf, src, sig, key)[..|src| + sigLen + keyLen] == src + sig + key)
            <==> sigLen % 4 == 0 || keyLen == 0
  {
    if sigLen % 4 == 0 || keyLen == 0 {
      forall buf: seq<byte>, sig: seq<byte>, key: seq<byte> |
        |sig| == sigLen && |key| == keyLen && |src| + sigLen + keyLen <= |buf|
        ensures Staged(buf, src, sig, key)[..|src| + sigLen + keyLen] == src + sig + key
      {
        StagedWhole(buf, src, sig, key);
      }
    } else {
      var sig: seq<byte> := seq(sigLen, _ => 0);
      var key: seq<byte> := seq(keyLen, _ => 1);
      var buf: seq<byte> := seq(|src| + sigLen + keyLen, _ => 0);
      var at := WordOffset(|src| + sigLen);
      KeyOverwrites(buf, src, sig, key);
      assert Staged(buf, src, sig, key)[..|src| + sigLen + keyLen][at] == 1;
    }
  }

  /** The device reads `size` bytes of the staged buffer, the first `data` of them as data. */
  function CallOf(staged: seq<byte>, data: nat, size: nat, final: bool): Call
    requires data <= size <= |staged|
  {
    var payload := staged[..size];
    Call(payload[..data], payload[data..], final)
  }

  /** A source of whole words reaches the device whole, whatever happens to the trailer. */
  lemma StagedSource(buf: seq<byte>, src: seq<byte>, sig: seq<byte>, key: seq<byte>, final: bool)
    requires |src| + |sig| + |key| <= |buf| && |src| % 4 == 0
    ensures var c := CallOf(Staged(buf, src, sig, key), |src|, |src| + |sig| + |key|, final);
            c.data == src && |c.trailer| == |sig| + |key|
  {
    OffsetsExact(|src|, |sig|, |key|);
    var staged := Staged(buf, src, sig, key);
    CopiedSource(buf, src, sig, key, WordOffset(|src| + |sig|));
    assert staged[..|src| + |sig| + |key|][..|src|] == staged[..|src|];
  }

  lemma StagedCall(buf: seq<byte>, src: seq<byte>, sig: seq<byte>, key: seq<byte>, final: bool)
    requires |src| + |sig| + |key| <= |buf| && WordsFit(|src|, |sig|, |key|)
    ensures CallOf(Staged(buf, src, sig, key), |src|, |src| + |sig| + |key|, final)
            == Call(src, sig + key, final)
  {
    StagedWhole(buf, src, sig, key);
    var payload := src + sig + key;
    assert payload == src + (sig + key);
    assert payload[|src|..] == sig + key;
  }

  lemma GroupsAreWords(src: nat, sig: nat, key: nat)
    requires Whole8(src)
    ensures src % 4 == 0 && (WordsFit(0, sig, key) ==> WordsFit(src, sig, key))
  {
  }

  /** What is staged for the key: nothing when the caller has no key. */
  function KeyBytes(key: Option<seq<byte>>): seq<byte> {
    if key.Some? then key.value else []
  }

  /** The trailer has the right length, and where the copies line up it is the signature and the
      key. */
  predicate IsTrailer(trailer: seq<byte>, sig: seq<byte>, key: Option<seq<byte>>) {
    && |trailer| == |sig| + |KeyBytes(key)|
    && (WordsFit(0, |sig|, |KeyBytes(key)|) ==> trailer == sig + KeyBytes(key))
  }

  // ---------- the driver ----------

  /** The source sizes the drivers accept. */
  predicate SizeOk(n: nat) {
    n >= MIN_FINAL && n % 8 == 0
  }

  /** The addresses a caller passes; zero is a null pointer. */
  datatype Pointers = Pointers(src: nat, dst: nat, size: nat, sig: nat)

  predicate DigestPointersOk(p: Pointers) {
    p.src != 0 && p.src % 8 == 0 && p.dst != 0 && p.dst % 8 == 0 && p.size != 0
  }

  predicate VerifyPointersOk(p: Pointers) {
    p.src != 0 && p.src % 8 == 0 && p.dst != 0 && p.size != 0
  }

  predicate SignatureArgsOk(keyId: nat, p: Pointers, key: Option<seq<byte>>, size: nat) {
    VerifyPointersOk(p) && p.sig != 0 && (keyId != 0 || key.Some?) && SizeOk(size)
  }

  lemma SliceOfPrefix<T>(s: seq<T>, n: nat, from: nat, to: nat)
    requires from <= to <= n <= |s|
    ensures s[from..to] == s[..n][from..to]
    ensures to == n ==> s[from..to] == s[..n][from..]
    ensures s[n..n + (|s| - n)] == s[n..]
  {
  }

  /** Room for the trailer as the loop counts it, also when nothing is staged for the key. */
  ghost function Room(sig: seq<byte>, keySize: nat): (room: seq<byte>)
    ensures |room| == |sig| + keySize
  {
    sig + seq(keySize, _ => 0)
  }

  lemma BeginsAnyway(sent: seq<Call>, data: seq<byte>, trailer: seq<byte>, other: seq<byte>, blk: nat)
    requires sent != [] && !sent[|sent| - 1].final && Begins(sent, data, trailer, blk)
    ensures Begins(sent, data, other, blk)
  {
  }

  class FcsDriver {
    const blk: nat
    const inOpsBuf: array<byte>
    var calls: seq<Call> // what the device was given, in order
    var replies: seq<Reply> // how it answered

    constructor (blk: nat)
      requires blk > 0 && blk % 8 == 0
      ensures Valid() && this.blk == blk && calls == [] && replies == []
    {
      this.blk := blk;
      inOpsBuf := new byte[blk](_ => 0);
      calls, replies := [], [];
    }

    predicate Valid() {
      blk > 0 && blk % 8 == 0 && inOpsBuf.Length == blk
    }

    /** Hand a call to the device and wait for its answer. */
    method Submit(c: Call) returns (status: int, r: Reply)
      modifies `calls, `replies
      ensures calls == old(calls) + [c] && replies == old(replies) + [r] && status == Answer(r)
    {
      calls := calls + [c];
      status := *;
      var answer: int := *;
      if status == 0 && answer >= 0 {
        r := Reply(0, answer);
        status := answer % U16_RANGE;
      } else {
        r := Reply(status, 0);
      }
      replies := replies + [r];
    }

    /** One pass of the digest loop. */
    method SendDigestBlock(src: seq<byte>, off: nat, remaining: nat)
      returns (ret: int, written: nat, ghost c: Call, ghost r: Reply)
      requires Valid() && off + remaining == |src| && 0 < remaining < U32_RANGE && Whole8(remaining)
      modifies `calls, `replies
      ensures calls == old(calls) + [c] && replies == old(replies) + [r] && ret == Answer(r)
      ensures written == NextChunk(remaining, 0, blk).len <= remaining && Whole8(written)
      ensures c == Call(src[off..off + written], [], remaining <= blk)
      ensures remaining <= blk ==> written == remaining
    {
      ChunkWhole8(remaining, 0, blk);
      NoTrailer(remaining, blk);
      written := if remaining > blk then blk else remaining;
      var call := Call(src[off..off + written], [], remaining <= blk);
      c := call;
      ret, r := Submit(call);
    }

    /** The same after the calls `sent`, which were answered by `got`. */
    method DigestPass(src: seq<byte>, off: nat, remaining: nat, ghost sent: seq<Call>, ghost got: seq<Reply>)
      returns (ret: int, written: nat, ghost c: Call, ghost r: Reply)
      requires Valid() && off + remaining == |src| && 0 < remaining < U32_RANGE && Whole8(remaining)
      requires Streamed(sent, got, src, [], blk, off, remaining) && Aligned(sent)
      modifies `calls, `replies
      ensures calls == old(calls) + [c] && replies == old(replies) + [r] && written <= remaining
      ensures if ret == 0
              then Streamed(sent + [c], got + [r], src, [], blk, off + written, remaining - written)
              else Ended(ret, sent + [c], got + [r], src, [], blk)
      ensures Aligned(sent + [c]) && Whole8(remaining - written)
    {
      NoTrailer(remaining, blk);
      ret, written, c, r := SendDigestBlock(src, off, remaining);
      if remaining > blk {
        UpdateSent(sent, got, src, [], blk, off, remaining, c, r);
      } else {
        FinalSent(sent, got, src, [], blk, off, remaining, c, r);
      }
      AlignedAppend(sent, c);
    }

    /** The loop of `fcs_obtain_digest`; the one of `fcs_ecdsa_sha2_data_signing` is the same. */
    method StreamDigest(src: seq<byte>) returns (ret: int, ghost sent: seq<Call>, ghost got: seq<Reply>)
      requires Valid() && SizeOk(|src|) && |src| < U32_RANGE
      modifies `calls, `replies
      ensures calls == old(calls) + sent && replies == old(replies) + got
      ensures Ended(ret, sent, got, src, [], blk) && Aligned(sent)
    {
      var off, remaining := 0, |src|;
      sent, got := [], [];
      ret := 0;
      while remaining > 0
        invariant 0 <= remaining && off + remaining == |src| && ret == 0 && Whole8(remaining)
        invariant calls == old(calls) + sent && replies == old(replies) + got
        invariant Streamed(sent, got, src, [], blk, off, remaining) && Aligned(sent)
      {
        var written;
        ghost var c, r;
        ret, written, c, r := DigestPass(src, off, remaining, sent, got);
        sent, got := sent + [c], got + [r];
        if ret != 0 {
          return;
        }
        remaining, off := remaining - written, off + written;
      }
      StreamedEnds(sent, got, src, [], blk, off);
    }

    /** `fcs_obtain_digest`. */
    method ObtainDigest(client: bool, p: Pointers, src: seq<byte>, initStatus: int)
      returns (ret: int, ghost sent: seq<Call>, ghost got: seq<Reply>)
      requires Valid() && |src| < U32_RANGE
      modifies `calls, `replies
      ensures calls == old(calls) + sent && replies == old(replies) + got && |got| == |sent|
      ensures !client ==> ret == MINUS_EIO && sent == []
      ensures client && !(DigestPointersOk(p) && SizeOk(|src|)) ==> ret == MINUS_EINVAL && sent == []
      ensures client && DigestPointersOk(p) && SizeOk(|src|) && initStatus != 0 ==>
                ret == initStatus && sent == []
      ensures client && DigestPointersOk(p) && SizeOk(|src|) && initStatus == 0 ==>
                Ended(ret, sent, got, src, [], blk)
      ensures Aligned(sent)
    {
      sent, got := [], [];
      if !client {
        ret := MINUS_EIO;
        return;
      }
      if p.src % 8 != 0 || p.dst % 8 != 0 || p.size == 0 {
        ret := MINUS_EINVAL;
        return;
      }
      if p.src == 0 || p.dst == 0 {
        ret := MINUS_EINVAL;
        return;
      }
      if |src| < 8 || |src| % 8 != 0 {
        ret := MINUS_EINVAL;
        return;
      }
      ret := initStatus;
      if ret != 0 {
        return;
      }
      ret, sent, got := StreamDigest(src);
    }

    /** One pass of the loop of `fcs_do_mac_verification`. */
    method SendMacBlock(src: seq<byte>, user: nat, off: nat, remaining: nat)
      returns (ret: int, written: nat, ghost c: Call, ghost r: Reply)
      requires Valid() && user <= |src| && off + remaining == |src| && off <= user && 0 < remaining < U32_RANGE
      requires remaining > blk ==> MIN_FINAL + (|src| - user) <= blk
      modifies `calls, `replies
      ensures calls == old(calls) + [c] && replies == old(replies) + [r] && ret == Answer(r)
      ensures written == NextChunk(remaining, |src| - user, blk).len <= remaining
      ensures remaining > blk ==> off + written <= user && c == Call(src[..user][off..off + written], [], false)
      ensures remaining <= blk ==> c == Call(src[..user][off..], src[user..], true)
    {
      var macSize := |src| - user;
      var call: Call;
      if remaining > blk {
        if remaining - blk >= 8 + macSize {
          written := blk;
        } else {
          written := Sub32(remaining, 8 + macSize);
        }
        call := Call(src[off..off + written], [], false);
        SliceOfPrefix(src, user, off, off + written);
      } else {
        written := remaining;
        call := Call(src[off..off + (remaining - macSize)], src[user..user + macSize], true);
        SliceOfPrefix(src, user, off, user);
      }
      c := call;
      ret, r := Submit(call);
    }

    /** The same after the calls `sent`, which were answered by `got`. */
    method MacPass(src: seq<byte>, user: nat, off: nat, remaining: nat,
                   ghost sent: seq<Call>, ghost got: seq<Reply>)
      returns (ret: int, written: nat, ghost c: Call, ghost r: Reply)
      requires Valid() && user <= |src| && off + remaining == |src| && 0 < remaining < U32_RANGE
      requires remaining > blk ==> MIN_FINAL + (|src| - user) <= blk
      requires Streamed(sent, got, src[..user], src[user..], blk, off, remaining)
      modifies `calls, `replies
      ensures calls == old(calls) + [c] && replies == old(replies) + [r] && written <= remaining
      ensures if ret == 0
              then Streamed(sent + [c], got + [r], src[..user], src[user..],
                            blk, off + written, remaining - written)
              else Ended(ret, sent + [c], got + [r], src[..user], src[user..], blk)
      ensures Aligned(sent) && Whole8(remaining - (|src| - user)) ==>
                Aligned(sent + [c]) && (written < remaining ==> Whole8(remaining - written - (|src| - user)))
    {
      ghost var data, mac := src[..user], src[user..];
      ret, written, c, r := SendMacBlock(src, user, off, remaining);
      if remaining > blk {
        UpdateSent(sent, got, data, mac, blk, off, remaining, c, r);
      } else {
        FinalSent(sent, got, data, mac, blk, off, remaining, c, r);
      }
      if Aligned(sent) && Whole8(remaining - |mac|) {
        ChunkWhole8(remaining, |mac|, blk);
        AlignedAppend(sent, c);
      }
    }

    /** The loop of `fcs_do_mac_verification`. */
    method StreamMac(src: seq<byte>, user: nat) returns (ret: int, ghost sent: seq<Call>, ghost got: seq<Reply>)
      requires Valid() && user <= |src| && 0 < |src| < U32_RANGE
      requires |src| <= blk || MIN_FINAL + (|src| - user) <= blk
      modifies `calls, `replies
      ensures calls == old(calls) + sent && replies == old(replies) + got
      ensures Ended(ret, sent, got, src[..user], src[user..], blk)
      ensures Whole8(user) ==> Aligned(sent)
    {
      ghost var data, mac := src[..user], src[user..];
      var off, remaining := 0, |src|;
      sent, got := [], [];
      ret := 0;
      while remaining > 0
        invariant 0 <= remaining && off + remaining == |src| && ret == 0
        invariant calls == old(calls) + sent && replies == old(replies) + got
        invariant Streamed(sent, got, data, mac, blk, off, remaining)
        invariant Whole8(user) ==> Aligned(sent) && (remaining > 0 ==> Whole8(remaining - |mac|))
      {
        var written;
        ghost var c, r;
        ret, written, c, r := MacPass(src, user, off, remaining, sent, got);
        sent, got := sent + [c], got + [r];
        if ret != 0 {
          return;
        }
        remaining, off := remaining - written, off + written;
      }
      StreamedEnds(sent, got, data, mac, blk, off);
    }

    /** `fcs_do_mac_verification` on user data followed by its MAC. */
    method VerifyMac(client: bool, keyId: nat, p: Pointers, src: seq<byte>, user: nat, initStatus: int)
      returns (ret: int, ghost sent: seq<Call>, ghost got: seq<Reply>)
      requires Valid() && user <= |src| < U32_RANGE
      requires |src| <= blk || MIN_FINAL + (|src| - user) <= blk
      modifies `calls, `replies
      ensures calls == old(calls) + sent && replies == old(replies) + got && |got| == |sent|
      ensures !client ==> ret == MINUS_EIO && sent == []
      ensures client && (keyId == 0 || !VerifyPointersOk(p) || !SizeOk(|src|)) ==>
                ret == MINUS_EINVAL && sent == []
      ensures client && keyId != 0 && VerifyPointersOk(p) && SizeOk(|src|) && initStatus != 0 ==>
                ret == initStatus && sent == []
      ensures client && keyId != 0 && VerifyPointersOk(p) && SizeOk(|src|) && initStatus == 0 ==>
                Ended(ret, sent, got, src[..user], src[user..], blk)
      ensures Whole8(user) ==> Aligned(sent)
    {
      sent, got := [], [];
      if !client {
        ret := MINUS_EIO;
        return;
      }
      if keyId == 0 {
        ret := MINUS_EINVAL;
        return;
      }
      if p.src % 8 != 0 || p.dst == 0 || p.size == 0 {
        ret := MINUS_EINVAL;
        return;
      }
      if |src| < 8 || |src| % 8 != 0 {
        ret := MINUS_EINVAL;
        return;
      }
      if p.src == 0 || p.dst == 0 {
        ret := MINUS_EINVAL;
        return;
      }
      ret := initStatus;
      if ret != 0 {
        return;
      }
      ret, sent, got := StreamMac(src, user);
    }

    /** `memcpy` into the staging buffer. */
    method CopyIn(at: nat, bytes: seq<byte>)
      requires at + |bytes| <= inOpsBuf.Length
      modifies inOpsBuf
      ensures inOpsBuf[..] == Overlay(old(inOpsBuf[..]), at, bytes)
    {
      for k := 0 to |bytes|
        invariant inOpsBuf[..] == Overlay(old(inOpsBuf[..]), at, bytes[..k])
      {
        assert bytes[..k + 1] == bytes[..k] + [bytes[k]];
        OverlayAppend(old(inOpsBuf[..]), at, bytes[..k], bytes[k]);
        inOpsBuf[at + k] := bytes[k];
      }
      assert bytes[..|bytes|] == bytes;
    }

    /** The copies of `fcs_ecdsa_sha2_data_sign_verification_update`. */
    method Stage(src: seq<byte>, sig: seq<byte>, key: seq<byte>)
      requires |src| + |sig| + |key| <= inOpsBuf.Length
      modifies inOpsBuf
      ensures inOpsBuf[..] == Staged(old(inOpsBuf[..]), src, sig, key)
    {
      CopyIn(0, src);
      CopyIn(WordOffset(|src|), sig);
      CopyIn(WordOffset(|src| + |sig|), key);
    }

    /** `fcs_ecdsa_sha2_data_sign_verification_update`: stage the payload and hand it over. */
    method StageAndSubmit(src: seq<byte>, sig: seq<byte>, key: seq<byte>, final: bool)
      returns (status: int, ghost c: Call, r: Reply)
      requires Valid() && |src| + |sig| + |key| <= blk
      modifies `calls, `replies, inOpsBuf
      ensures calls == old(calls) + [c] && replies == old(replies) + [r]
      ensures status == Answer(r)
      ensures c == CallOf(Staged(old(inOpsBuf[..]), src, sig, key), |src|, |src| + |sig| + |key|, final)
      ensures |src| % 4 == 0 ==> c.data == src && |c.trailer| == |sig| + |key|
      ensures WordsFit(|src|, |sig|, |key|) ==> c == Call(src, sig + key, final)
    {
      Stage(src, sig, key);
      var call := CallOf(inOpsBuf[..], |src|, |src| + |sig| + |key|, final);
      if |src| % 4 == 0 {
        StagedSource(old(inOpsBuf[..]), src, sig, key, final);
      }
      if WordsFit(|src|, |sig|, |key|) {
        StagedCall(old(inOpsBuf[..]), src, sig, key, final);
      }
      c := call;
      status, r := Submit(call);
    }

    /** An update of the signature loop: the next block of the source, nothing else. */
    method SendBlock(src: seq<byte>, trailerSize: nat, off: nat, remaining: nat)
      returns (ret: int, written: nat, ghost c: Call, r: Reply)
      requires Valid() && off <= |src| && off + remaining == |src| + trailerSize
      requires MIN_FINAL + trailerSize <= blk < remaining < U32_RANGE
      requires Whole8(remaining - trailerSize)
      modifies `calls, `replies, inOpsBuf
      ensures calls == old(calls) + [c] && replies == old(replies) + [r]
      ensures ret == Answer(r)
      ensures written == NextChunk(remaining, trailerSize, blk).len && off + written <= |src|
      ensures c == Call(src[off..off + written], [], false)
    {
      ChunkWhole8(remaining, trailerSize, blk);
      if remaining - blk >= 8 + trailerSize {
        written := blk;
      } else {
        written := Sub32(remaining, 8 + trailerSize);
      }
      GroupsAreWords(written, 0, 0);
      ret, c, r := StageAndSubmit(src[off..off + written], [], [], false);
    }

    /** The final call: the rest of the source, the signature and the key. */
    method SendRest(src: seq<byte>, sig: seq<byte>, key: seq<byte>, off: nat)
      returns (ret: int, ghost c: Call, r: Reply)
      requires Valid() && off <= |src| && |src| - off + |sig| + |key| <= blk && Whole8(|src| - off)
      modifies `calls, `replies, inOpsBuf
      ensures calls == old(calls) + [c] && replies == old(replies) + [r] && ret == Answer(r)
      ensures c.final && c.data == src[off..]
      ensures |c.trailer| == |sig| + |key|
      ensures WordsFit(0, |sig|, |key|) ==> c.trailer == sig + key
    {
      GroupsAreWords(|src| - off, |sig|, |key|);
      ret, c, r := StageAndSubmit(src[off..], sig, key, true);
    }

    /** One pass of the loop of `fcs_do_ecdsa_sha2_data_sign_verification`. Without a key the key
        size still counts towards the length, but nothing is staged for it. */
    method SendNext(src: seq<byte>, sig: seq<byte>, key: Option<seq<byte>>, keySize: nat,
                    off: nat, remaining: nat)
      returns (ret: int, written: nat, ghost c: Call, r: Reply)
      requires Valid() && |KeyBytes(key)| <= keySize
      requires off + remaining == |src| + |sig| + keySize && off <= |src| && remaining < U32_RANGE
      requires remaining > blk ==> MIN_FINAL + |sig| + keySize <= blk
      requires Whole8(remaining - (|sig| + keySize))
      modifies `calls, `replies, inOpsBuf
      ensures calls == old(calls) + [c] && replies == old(replies) + [r]
      ensures ret == Answer(r)
      ensures written == NextChunk(remaining, |sig| + keySize, blk).len
      ensures off + written <= |src| + |sig| + keySize
      ensures remaining > blk ==>
                off + written <= |src| && c == Call(src[off..off + written], [], false)
      ensures remaining <= blk ==> c.final && c.data == src[off..] && IsTrailer(c.trailer, sig, key)
    {
      if remaining > blk {
        ret, written, c, r := SendBlock(src, |sig| + keySize, off, remaining);
      } else {
        written := remaining;
        ret, c, r := SendRest(src, sig, KeyBytes(key), off);
      }
    }

    /** The same after the calls `sent`, which were answered by `got`. `room` stands for the trailer
        as the loop counts it; `trailer` is the one handed over. */
    method SignaturePass(src: seq<byte>, sig: seq<byte>, key: Option<seq<byte>>, keySize: nat,
                         off: nat, remaining: nat, ghost sent: seq<Call>, ghost got: seq<Reply>)
      returns (ret: int, written: nat, ghost c: Call, ghost r: Reply, ghost trailer: seq<byte>)
      requires Valid() && |KeyBytes(key)| <= keySize
      requires off + remaining == |src| + |sig| + keySize && 0 < remaining < U32_RANGE
      requires remaining > blk ==> MIN_FINAL + |sig| + keySize <= blk
      requires Whole8(remaining - (|sig| + keySize)) && Aligned(sent)
      requires Streamed(sent, got, src, Room(sig, keySize), blk, off, remaining)
      modifies `calls, `replies, inOpsBuf
      ensures calls == old(calls) + [c] && replies == old(replies) + [r] && written <= remaining
      ensures var next := if written < remaining then Room(sig, keySize) else trailer;
              if ret == 0
              then Streamed(sent + [c], got + [r], src, next, blk, off + written, remaining - written)
              else Ended(ret, sent + [c], got + [r], src, trailer, blk)
      ensures Aligned(sent + [c]) && IsTrailer(trailer, sig, key)
      ensures written < remaining ==> Whole8(remaining - written - (|sig| + keySize))
    {
      ghost var room := Room(sig, keySize);
      ChunkWhole8(remaining, |room|, blk);
      ret, written, c, r := SendNext(src, sig, key, keySize, off, remaining);
      if remaining > blk {
        trailer := sig + KeyBytes(key);
        UpdateSent(sent, got, src, room, blk, off, remaining, c, r);
        BeginsAnyway(sent + [c], src, room, trailer, blk);
      } else {
        trailer := c.trailer;
        FinalSent(sent, got, src, room, blk, off, remaining, c, r);
      }
      AlignedAppend(sent, c);
    }

    /** The loop of `fcs_do_ecdsa_sha2_data_sign_verification`. */
    method StreamSignature(src: seq<byte>, sig: seq<byte>, key: Option<seq<byte>>, keySize: nat)
      returns (ret: int, ghost sent: seq<Call>, ghost got: seq<Reply>, ghost trailer: seq<byte>)
      requires Valid() && SizeOk(|src|) && |src| + |sig| + keySize < U32_RANGE
      requires key.Some? ==> |key.value| == keySize
      requires |src| + |sig| + keySize <= blk || MIN_FINAL + |sig| + keySize <= blk
      modifies `calls, `replies, inOpsBuf
      ensures calls == old(calls) + sent && replies == old(replies) + got
      ensures Ended(ret, sent, got, src, trailer, blk) && IsTrailer(trailer, sig, key)
      ensures Aligned(sent)
    {
      trailer := sig + KeyBytes(key);
      var off, remaining := 0, |src| + |sig| + keySize;
      sent, got := [], [];
      ret := 0;
      while remaining > 0
        invariant 0 <= remaining && off + remaining == |src| + |sig| + keySize && ret == 0
        invariant calls == old(calls) + sent && replies == old(replies) + got
        invariant Streamed(sent, got, src, if remaining > 0 then Room(sig, keySize) else trailer,
                  blk, off, remaining)
        invariant remaining > 0 ==> Whole8(remaining - (|sig| + keySize))
        invariant Aligned(sent) && IsTrailer(trailer, sig, key)
      {
        var written;
        ghost var c, r;
        ret, written, c, r, trailer := SignaturePass(src, sig, key, keySize, off, remaining, sent, got);
        sent, got := sent + [c], got + [r];
        if ret != 0 {
          return;
        }
        remaining, off := remaining - written, off + written;
      }
      StreamedEnds(sent, got, src, trailer, blk, off);
    }

    /** `fcs_do_ecdsa_sha2_data_sign_verification`. */
    method VerifySignature(client: bool, keyId: nat, p: Pointers, src: seq<byte>, sig: seq<byte>,
                           key: Option<seq<byte>>, keySize: nat, initStatus: int)
      returns (ret: int, ghost sent: seq<Call>, ghost got: seq<Reply>, ghost trailer: seq<byte>)
      requires Valid() && |src| + |sig| + keySize < U32_RANGE
      requires key.Some? ==> |key.value| == keySize
      requires |src| + |sig| + keySize <= blk || MIN_FINAL + |sig| + keySize <= blk
      modifies `calls, `replies, inOpsBuf
      ensures calls == old(calls) + sent && replies == old(replies) + got && |got| == |sent|
      ensures !client ==> ret == MINUS_EIO && sent == []
      ensures client && !SignatureArgsOk(keyId, p, key, |src|) ==> ret == MINUS_EINVAL && sent == []
      ensures client && SignatureArgsOk(keyId, p, key, |src|) && initStatus != 0 ==>
                ret == initStatus && sent == []
      ensures client && SignatureArgsOk(keyId, p, key, |src|) && initStatus == 0 ==>
                Ended(ret, sent, got, src, trailer, blk)
      ensures IsTrailer(trailer, sig, key)
      ensures Aligned(sent)
    {
      sent, got, trailer := [], [], sig + KeyBytes(key);
      if !client {
        ret := MINUS_EIO;
        return;
      }
      if p.src == 0 || p.sig == 0 || p.dst == 0 {
        ret := MINUS_EINVAL;
        return;
      }
      if keyId == 0 && key.None? {
        ret := MINUS_EINVAL;
        return;
      }
      if p.src % 8 != 0 || p.dst == 0 || p.size == 0 {
        ret := MINUS_EINVAL;
        return;
      }
      if |src| < 8 || |src| % 8 != 0 {
        ret := MINUS_EINVAL;
        return;
      }
      ret := initStatus;
      if ret != 0 {
        return;
      }
      ret, sent, got, trailer := StreamSignature(src, sig, key, keySize);
    }
  }
}
