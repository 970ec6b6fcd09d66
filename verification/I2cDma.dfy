/** DMA-mode transfers of the I2C master: a buffer is cut into blocks, the blocks become a
    descriptor chain, and the chain must move exactly the buffer through DATA_CMD. */
module I2cDma {
  import opened Common
  import opened I2cWords
  import opened DmaChain
  import opened DmaChannels

  datatype Op = Read | Write

  const WIDTH1: Width := 0
  const WIDTH4: Width := 2

  /** A buffer of `n` items at address `addr`, to be moved to or from the register at `port` in
      blocks of at most `blk` items and in bursts of the length `code` stands for. Words to send
      are 4 bytes, received bytes 1. */
  datatype Cut = Cut(op: Op, addr: nat, port: nat, n: nat, blk: nat, code: nat)

  function WidthOf(op: Op): (w: Width)
    ensures Bytes(w) == if op == Write then 4 else 1
  {
    assert Bytes(0) == 1 && Bytes(1) == 2;
    if op == Write then WIDTH4 else WIDTH1
  }

  function DirOf(op: Op): Direction {
    if op == Write then MemToPeriDmac else PeriToMemDmac
  }

  /** How many items the block that begins at item `at` has. */
  function BlockLen(c: Cut, at: nat): nat
    requires at <= c.n
  {
    if c.n - at > c.blk then c.blk else c.n - at
  }

  predicate IsBlock(cfg: XferCfg, c: Cut, at: nat)
    requires at <= c.n
  {
    var size := Bytes(WidthOf(c.op));
    && cfg.src == (if c.op == Write then c.addr + size * at else c.port)
    && cfg.dst == (if c.op == Write then c.port else c.addr + size * at)
    && cfg.blkSize == size * BlockLen(c, at)
    && cfg.srcBurst == cfg.dstBurst == c.code
  }

  /** `cfgs` are the blocks of the buffer from item `at` to its end, in order. */
  predicate IsCut(cfgs: seq<XferCfg>, c: Cut, at: nat)
    requires at <= c.n && c.blk > 0
    decreases |cfgs|
  {
    if at == c.n then cfgs == []
    else cfgs != [] && IsBlock(cfgs[0], c, at) && IsCut(cfgs[1..], c, at + BlockLen(c, at))
  }

  /** Block `i` links to block `i + 1`, and the last one nowhere. */
  predicate Linked(pool: seq<XferCfg>, count: nat) {
    && count <= |pool|
    && forall k | 0 <= k < count ::
         pool[k].next == if k + 1 < count then Some(k + 1) else None
  }

  function FormatOf(op: Op): Format {
    Format(DirOf(op), WidthOf(op), WidthOf(op))
  }

  /** The moves of `len` items of the buffer from item `i` on. */
  function Part(c: Cut, i: nat, len: nat): seq<Move> {
    if c.op == Write
    then Moves(Side(c.addr + 4 * i, false, WIDTH4), Side(c.port, true, WIDTH4), 4 * len)
    else Moves(Side(c.port, true, WIDTH1), Side(c.addr + i, false, WIDTH1), len)
  }

  /** The moves of the whole buffer: byte by byte, in order, always to or from the register. */
  function Whole(c: Cut): seq<Move> {
    Part(c, 0, c.n)
  }

  // ---------- the blocks add up to the buffer ----------

  /** The same side, `k` bytes further on. */
  function Later(s: Side, k: nat): Side {
    if s.fixed then s else s.(addr := s.addr + k)
  }

  /** A register sees no difference after whole items. */
  predicate WholeItems(s: Side, k: nat) {
    !s.fixed || s.width == WIDTH1 || (s.width == WIDTH4 && k % 4 == 0)
  }

  lemma AtLater(s: Side, k: nat, i: nat)
    requires WholeItems(s, k)
    ensures At(s, k + i) == At(Later(s, k), i)
  {
    assert Bytes(WIDTH1) == 1 && Bytes(WIDTH4) == 4;
    if s.fixed && s.width == WIDTH4 {
      ModFourLater(k, i);
    }
  }

  lemma ModFourLater(k: nat, i: nat)
    requires k % 4 == 0
    ensures (k + i) % 4 == i % 4
  {
    assert k + i == 4 * (k / 4 + i / 4) + i % 4;
  }

  lemma {:induction false} MovesSplit(src: Side, dst: Side, k: nat, more: nat)
    requires WholeItems(src, k) && WholeItems(dst, k)
    ensures Moves(src, dst, k + more) == Moves(src, dst, k) + Moves(Later(src, k), Later(dst, k), more)
    decreases more
  {
    if more > 0 {
      MovesSplit(src, dst, k, more - 1);
      AtLater(src, k, more - 1);
      AtLater(dst, k, more - 1);
    }
  }

  lemma FourTimes(n: nat)
    ensures 4 * n % 4 == 0 && 4 * n / 4 == n
  {
  }

  /** What one block asks for is its part of the buffer. */
  lemma {:induction false} BlockIsPart(cfg: XferCfg, c: Cut, at: nat)
    requires at <= c.n && IsBlock(cfg, c, at)
    ensures ItemCount(cfg, WidthOf(c.op)) == BlockLen(c, at)
    ensures AskedBlock(cfg, FormatOf(c.op)) == Part(c, at, BlockLen(c, at))
  {
    FourTimes(BlockLen(c, at));
  }

  lemma {:induction false} PartSplit(c: Cut, i: nat, len: nat, more: nat)
    ensures Part(c, i, len + more) == Part(c, i, len) + Part(c, i + len, more)
  {
    if c.op == Write {
      FourTimes(len);
      var src, dst := Side(c.addr + 4 * i, false, WIDTH4), Side(c.port, true, WIDTH4);
      MovesSplit(src, dst, 4 * len, 4 * more);
      assert 4 * (len + more) == 4 * len + 4 * more;
      assert Later(src, 4 * len) == Side(c.addr + 4 * (i + len), false, WIDTH4);
    } else {
      var src, dst := Side(c.port, true, WIDTH1), Side(c.addr + i, false, WIDTH1);
      MovesSplit(src, dst, len, more);
      assert Later(dst, len) == Side(c.addr + (i + len), false, WIDTH1);
    }
  }

  /** From item `at` on, the requested moves are those of the rest of the buffer. */
  lemma {:induction false} CutIsWhole(cfgs: seq<XferCfg>, c: Cut, at: nat)
    requires at <= c.n && c.blk > 0 && IsCut(cfgs, c, at)
    ensures Asked(cfgs, FormatOf(c.op)) == Part(c, at, c.n - at)
    decreases |cfgs|
  {
    if at < c.n {
      var len := BlockLen(c, at);
      BlockIsPart(cfgs[0], c, at);
      CutIsWhole(cfgs[1..], c, at + len);
      PartSplit(c, at, len, c.n - at - len);
    }
  }

  lemma {:induction false} CutFits(cfgs: seq<XferCfg>, c: Cut, at: nat)
    requires at <= c.n && 0 < c.blk <= MAX_BLOCK_TS + 1 && IsCut(cfgs, c, at)
    ensures forall i | 0 <= i < |cfgs| :: FitsBlock(cfgs[i], WidthOf(c.op))
    decreases |cfgs|
  {
    if at < c.n {
      CutFits(cfgs[1..], c, at + BlockLen(c, at));
      BlockIsPart(cfgs[0], c, at);
      assert forall i | 0 < i < |cfgs| :: cfgs[i] == cfgs[1..][i - 1];
    }
  }

  lemma {:induction false} FollowLinks(pool: seq<XferCfg>, count: nat, i: nat)
    requires i < count && Linked(pool, count) && WellLinked(pool, Some(i))
    ensures Follow(pool, Some(i), count - i) == pool[i..count]
    decreases count - i
  {
    if i + 1 < count {
      FollowLinks(pool, count, i + 1);
    }
    assert [pool[i]] + pool[i + 1..count] == pool[i..count];
  }

  // ---------- what the moves do ----------

  /** A 32-bit word by its bytes, lowest address first. */
  datatype Word = Word(b0: byte, b1: byte, b2: byte, b3: byte)

  predicate HoldsWords(words: seq<Word>, addr: nat, load: nat -> byte) {
    forall j | 0 <= j < |words| ::
      words[j] == Word(load(addr + 4 * j), load(addr + 4 * j + 1),
                       load(addr + 4 * j + 2), load(addr + 4 * j + 3))
  }

  /** The words a register of four bytes is written with: each is complete when its last byte
      comes. */
  function Sent(moves: seq<Move>, load: nat -> byte): seq<Word> {
    if |moves| < 4 then []
    else
      var k := |moves| - 4;
      Sent(moves[..k], load)
      + [Word(load(moves[k].src), load(moves[k + 1].src), load(moves[k + 2].src), load(moves[k + 3].src))]
  }

  lemma LastWord(moves: seq<Move>, addr: nat, words: seq<Word>, load: nat -> byte)
    requires words != [] && |moves| == 4 * |words| && HoldsWords(words, addr, load)
    requires forall k | 0 <= k < |moves| :: moves[k].src == addr + k
    ensures Sent(moves, load) == Sent(moves[..|moves| - 4], load) + [words[|words| - 1]]
    ensures words == words[..|words| - 1] + [words[|words| - 1]]
  {
    var last := |words| - 1;
    assert words[last] == Word(load(addr + 4 * last), load(addr + 4 * last + 1),
                               load(addr + 4 * last + 2), load(addr + 4 * last + 3));
  }

  lemma {:induction false} SentInOrder(moves: seq<Move>, addr: nat, words: seq<Word>, load: nat -> byte)
    requires |moves| == 4 * |words| && HoldsWords(words, addr, load)
    requires forall k | 0 <= k < |moves| :: moves[k].src == addr + k
    ensures Sent(moves, load) == words
    decreases |words|
  {
    if words != [] {
      var last, k := |words| - 1, |moves| - 4;
      assert HoldsWords(words[..last], addr, load);
      SentInOrder(moves[..k], addr, words[..last], load);
      LastWord(moves, addr, words, load);
    }
  }

  /** A whole write delivers exactly the caller's words, in order, to the register. */
  lemma {:induction false} WriteSendsWords(c: Cut, words: seq<Word>, load: nat -> byte)
    requires c.op == Write && |words| == c.n && HoldsWords(words, c.addr, load)
    ensures |Whole(c)| == 4 * c.n && Sent(Whole(c), load) == words
    ensures forall k | 0 <= k < |Whole(c)| :: Whole(c)[k].dst == c.port + k % 4
  {
    assert Bytes(WIDTH4) == 4;
    forall k | 0 <= k < 4 * c.n ensures Whole(c)[k] == Move(c.addr + k, c.port + k % 4) {
      MovesAt(Side(c.addr, false, WIDTH4), Side(c.port, true, WIDTH4), 4 * c.n, k);
    }
    SentInOrder(Whole(c), c.addr, words, load);
  }

  /** Memory after the moves have stored the received bytes one after another. */
  function Stored(moves: seq<Move>, received: seq<byte>, mem: map<nat, byte>): map<nat, byte>
    requires |moves| == |received|
  {
    if moves == [] then mem
    else
      var k := |moves| - 1;
      Stored(moves[..k], received[..k], mem)[moves[k].dst := received[k]]
  }

  function ByteFor(a: nat, addr: nat, bytes: seq<byte>): byte
    requires addr <= a < addr + |bytes|
  {
    bytes[a - addr]
  }

  /** The bytes of a buffer at their addresses. */
  function Image(addr: nat, bytes: seq<byte>): map<nat, byte> {
    map a: nat | addr <= a < addr + |bytes| :: ByteFor(a, addr, bytes)
  }

  lemma ImageNext(addr: nat, bytes: seq<byte>, b: byte)
    ensures Image(addr, bytes + [b]) == Image(addr, bytes)[addr + |bytes| := b]
  {
  }

  lemma UpdateLast(mem: map<nat, byte>, added: map<nat, byte>, a: nat, b: byte)
    ensures (mem + added)[a := b] == mem + added[a := b]
  {
  }

  lemma {:induction false} StoredRun(moves: seq<Move>, received: seq<byte>, mem: map<nat, byte>,
                                     addr: nat)
    requires |moves| == |received|
    requires forall i | 0 <= i < |moves| :: moves[i].dst == addr + i
    ensures Stored(moves, received, mem) == mem + Image(addr, received)
  {
    if moves != [] {
      var k := |moves| - 1;
      StoredRun(moves[..k], received[..k], mem, addr);
      assert received == received[..k] + [received[k]];
      ImageNext(addr, received[..k], received[k]);
      UpdateLast(mem, Image(addr, received[..k]), addr + k, received[k]);
      assert moves[k].dst == addr + k;
    }
  }

  /** A whole read takes every byte from the register and leaves the bytes received in the
      buffer, in order, and nothing else changed. */
  lemma {:induction false} ReadStoresBytes(c: Cut, received: seq<byte>, mem: map<nat, byte>)
    requires c.op == Read && |received| == c.n
    ensures forall i | 0 <= i < c.n :: Whole(c)[i].src == c.port
    ensures Stored(Whole(c), received, mem) == mem + Image(c.addr, received)
  {
    assert Bytes(WIDTH1) == 1;
    forall k | 0 <= k < c.n ensures Whole(c)[k] == Move(c.port, c.addr + k) {
      MovesAt(Side(c.port, true, WIDTH1), Side(c.addr, false, WIDTH1), c.n, k);
    }
    StoredRun(Whole(c), received, mem, c.addr);
  }

  // ---------- two stages ----------

  /** The job that the driver hands to the DMA driver for a cut. */
  function JobOf(pool: seq<XferCfg>, count: nat, op: Op): Job {
    Job(pool, Some(0), count, WidthOf(op), WidthOf(op))
  }

  /** The first `count` nodes of the driver's static array are the linked blocks of a cut. */
  predicate IsPool(pool: seq<XferCfg>, count: nat, c: Cut) {
    && 0 < count <= LLI_PER_CHANNEL && JobOk(JobOf(pool, count, c.op))
    && 0 < c.blk <= MAX_BLOCK_TS + 1
    && Linked(pool, count) && IsCut(pool[..count], c, 0)
  }

  /** Channel `ch` runs the moves of the whole buffer when it is started. */
  ghost predicate Runs(d: Dma, base: nat, ch: nat, c: Cut) {
    ch in d.hw.llp && RunsAs(d.mem, base, d.hw.llp[ch], LLI_PER_CHANNEL, Whole(c))
  }

  /** The DMA driver accepts the blocks, and what they ask for is the whole buffer. */
  lemma {:induction false} PoolMeaning(pool: seq<XferCfg>, count: nat, c: Cut)
    requires IsPool(pool, count, c)
    ensures JobVerdict(JobOf(pool, count, c.op)) == OK
    ensures Asked(Follow(pool, Some(0), count), FormatOf(c.op)) == Whole(c)
  {
    FollowLinks(pool, count, 0);
    assert pool[0..count] == pool[..count];
    CutIsWhole(pool[..count], c, 0);
    CutFits(pool[..count], c, 0);
  }

  /** What a successful set-up of the driver's blocks leaves behind for channel `ch`. */
  ghost predicate Ready(d: Dma, base: nat, ch: nat, pool: seq<XferCfg>, count: nat, c: Cut)
    requires Shaped(d) && ch < NUM_CHANNELS
  {
    && IsPool(pool, count, c)
    && ch in d.hw.llp && d.hw.llp[ch] == base + DESC_SIZE * RegionStart(ch)
    && RegionHolds(Region(d, ch), JobOf(pool, count, c.op), DirOf(c.op), d.hw.llp[ch])
  }

  /** Two-stage compilation preserves meaning: once the driver's blocks are set up, and for as
      long as nobody rewrites the channel's region, the channel runs exactly the buffer. */
  lemma {:induction false} TwoStages(d: Dma, base: nat, ch: nat, pool: seq<XferCfg>, count: nat,
                                     c: Cut)
    requires Shaped(d) && ch < NUM_CHANNELS && Ready(d, base, ch, pool, count, c)
    ensures Runs(d, base, ch, c)
  {
    PoolMeaning(pool, count, c);
    SetupMeaning(d, base, ch, JobOf(pool, count, c.op), DirOf(c.op), d.hw.llp[ch], Whole(c));
  }

  /** An accepted set-up event makes the channel ready. */
  lemma {:induction false} SetupMakesReady(d: Dma, base: nat, ch: nat, pool: seq<XferCfg>,
                                           count: nat, c: Cut, e: Event)
    requires Shaped(d) && ch < NUM_CHANNELS && IsPool(pool, count, c)
    requires e.Setup? && e.ch == ch && e.base == base && e.job == JobOf(pool, count, c.op)
    requires EventOk(d, e) && d.ctx[ch].dir == DirOf(c.op)
    ensures SetupGuard(d, ch, e.job) == if !d.ctx[ch].isOpen then EIO
                                        else if d.ctx[ch].state != Idle then EBUSY else OK
    ensures JobVerdict(e.job) == OK
    ensures SetupGuard(d, ch, e.job) == OK ==> Ready(Step(d, e), base, ch, pool, count, c)
  {
    PoolMeaning(pool, count, c);
    if SetupGuard(d, ch, e.job) == OK {
      OverlayHere(d.mem, RegionStart(ch), e.region);
    }
  }

  /** Readiness only depends on the channel's own region and start pointer. */
  lemma {:induction false} StaysReady(d: Dma, d': Dma, base: nat, ch: nat, pool: seq<XferCfg>,
                                      count: nat, c: Cut)
    requires Shaped(d) && Shaped(d') && ch < NUM_CHANNELS && Ready(d, base, ch, pool, count, c)
    requires Region(d', ch) == Region(d, ch) && ch in d'.hw.llp && d'.hw.llp[ch] == d.hw.llp[ch]
    ensures Ready(d', base, ch, pool, count, c)
  {
  }

  /** What a channel that runs a write delivers: walking its chain ends, and it sends exactly the
      words in memory, in order, always to the register. */
  lemma {:induction false} WriteDelivered(d: Dma, base: nat, ch: nat, c: Cut, words: seq<Word>,
                                          load: nat -> byte)
    requires Runs(d, base, ch, c) && c.op == Write && |words| == c.n && HoldsWords(words, c.addr, load)
    ensures var walked := Walk(d.mem, base, d.hw.llp[ch], LLI_PER_CHANNEL);
            && walked.Some? && |Execute(walked.value)| == 4 * c.n
            && Sent(Execute(walked.value), load) == words
            && forall k | 0 <= k < 4 * c.n :: Execute(walked.value)[k].dst == c.port + k % 4
  {
    WriteSendsWords(c, words, load);
  }

  /** What a channel that runs a read stores: the bytes the register yields fill the buffer in
      order, and nothing else in memory changes. */
  lemma {:induction false} ReadDelivered(d: Dma, base: nat, ch: nat, c: Cut, received: seq<byte>,
                                         mem: map<nat, byte>)
    requires Runs(d, base, ch, c) && c.op == Read && |received| == c.n
    ensures var walked := Walk(d.mem, base, d.hw.llp[ch], LLI_PER_CHANNEL);
            && walked.Some? && |Execute(walked.value)| == c.n
            && Stored(Execute(walked.value), received, mem) == mem + Image(c.addr, received)
            && forall move | move in Execute(walked.value) :: move.src == c.port
  {
    ReadStoresBytes(c, received, mem);
  }

  /** Whatever happens on other channels, and whatever is called for this one, a ready channel
      runs the whole buffer for as long as it stays enabled. */
  lemma {:induction false} KeepsRunning(d: Dma, es: seq<Event>, d': Dma, base: nat, ch: nat,
                                        pool: seq<XferCfg>, count: nat, c: Cut)
    requires Inv(d) && SafeRun(d, es, d') && ch < NUM_CHANNELS && EnabledDuring(d, es, d', ch)
    requires Ready(d, base, ch, pool, count, c)
    ensures Shaped(d') && Ready(d', base, ch, pool, count, c) && Runs(d', base, ch, c)
  {
    ChainKeptWhileEnabled(d, es, d', ch);
    StaysReady(d, d', base, ch, pool, count, c);
    TwoStages(d', base, ch, pool, count, c);
  }

  // ---------- the bursts of the program ----------

  lemma {:induction false} CutBursts(cfgs: seq<XferCfg>, c: Cut, at: nat, i: nat)
    requires at <= c.n && c.blk > 0 && IsCut(cfgs, c, at) && i < |cfgs|
    ensures cfgs[i].srcBurst == cfgs[i].dstBurst == c.code
    decreases |cfgs|
  {
    if i > 0 {
      CutBursts(cfgs[1..], c, at + BlockLen(c, at), i - 1);
    }
  }

  /** Every descriptor moves in bursts of the length `code` stands for, on both sides. */
  predicate AllBurst(chain: seq<Desc>, code: nat) {
    forall i | 0 <= i < |chain| :: chain[i].ctl.srcBurst == chain[i].ctl.dstBurst == code
  }

  lemma {:induction false} ChainBursts(chain: seq<Desc>, cfgs: seq<XferCfg>, c: Cut, here: nat)
    requires IsChain(chain, cfgs, FormatOf(c.op), here) && c.blk > 0 && IsCut(cfgs, c, 0)
    ensures AllBurst(chain, c.code)
  {
    forall i | 0 <= i < |chain| ensures chain[i].ctl.srcBurst == chain[i].ctl.dstBurst == c.code {
      CutBursts(cfgs, c, 0, i);
    }
  }

  lemma PoolFollowed(pool: seq<XferCfg>, count: nat)
    requires WellLinked(pool, Some(0)) && 0 < count && Linked(pool, count)
    ensures Follow(pool, Some(0), count) == pool[..count]
  {
    FollowLinks(pool, count, 0);
    assert pool[0..count] == pool[..count];
  }

  lemma ProgramChain(mem: seq<Desc>, start: nat, size: nat, cfgs: seq<XferCfg>, f: Format, here: nat)
    requires start + size <= |mem| && IsProgram(mem[start..start + size], cfgs, f, here)
    ensures start + |cfgs| <= |mem| && IsChain(mem[start..start + |cfgs|], cfgs, f, here)
  {
    SliceOfSlice(mem, start, size, |cfgs|);
  }

  /** The hardware reads the chain from the start of a region. */
  lemma {:induction false} ChainIsWalked(mem: seq<Desc>, base: nat, start: nat, cfgs: seq<XferCfg>, f: Format,
                                         here: nat, fuel: nat)
    requires cfgs != [] && start + |cfgs| <= |mem| && fuel >= |cfgs| && here == base + DESC_SIZE * start
    requires IsChain(mem[start..start + |cfgs|], cfgs, f, here)
    ensures Walk(mem, base, here, fuel) == Some(mem[start..start + |cfgs|])
  {
    WalkRest(mem, base, start, cfgs, f, 0, fuel);
    assert start + 0 == start;
  }

  lemma {:induction false} RegionChain(d: Dma, ch: nat, pool: seq<XferCfg>, count: nat, f: Format, here: nat)
    requires Shaped(d) && ch < NUM_CHANNELS
    requires WellLinked(pool, Some(0)) && 0 < count <= LLI_PER_CHANNEL && Linked(pool, count)
    requires IsProgram(Region(d, ch), Follow(pool, Some(0), count), f, here)
    ensures IsChain(d.mem[RegionStart(ch)..RegionStart(ch) + count], pool[..count], f, here)
  {
    PoolFollowed(pool, count);
    ProgramChain(d.mem, RegionStart(ch), LLI_PER_CHANNEL, pool[..count], f, here);
  }

  /** The descriptors that a ready channel reads are as many as there are blocks, and carry the
      burst length the blocks were cut for. */
  lemma {:induction false} ReadyBursts(d: Dma, base: nat, ch: nat, pool: seq<XferCfg>, count: nat, c: Cut)
    requires Shaped(d) && ch < NUM_CHANNELS && Ready(d, base, ch, pool, count, c)
    ensures var walked := Walk(d.mem, base, d.hw.llp[ch], LLI_PER_CHANNEL);
            walked.Some? && |walked.value| == count && AllBurst(walked.value, c.code)
  {
    var here, start := d.hw.llp[ch], RegionStart(ch);
    RegionChain(d, ch, pool, count, FormatOf(c.op), here);
    ChainIsWalked(d.mem, base, start, pool[..count], FormatOf(c.op), here, LLI_PER_CHANNEL);
    ChainBursts(d.mem[start..start + count], pool[..count], c, here);
  }

  // ---------- FIFO watermarks ----------

  predicate IsBurst(b: nat) {
    b in {1, 4, 8}
  }

  /** The TX side of the controller: a granted request brings up to one burst of items, the bus
      takes single ones. A request is raised while the level is not above the threshold. */
  datatype TxFlow = TxGrant(items: nat) | TxDrain

  /** From this level on no granted burst overflows the TX FIFO. */
  ghost predicate TxSafe(depth: nat, tdlr: nat, level: nat, fs: seq<TxFlow>, burst: nat)
    decreases |fs|
  {
    fs == []
    || match fs[0]
       case TxGrant(items) =>
         level <= tdlr && items <= burst ==>
           level + items <= depth && TxSafe(depth, tdlr, level + items, fs[1..], burst)
       case TxDrain => level > 0 ==> TxSafe(depth, tdlr, level - 1, fs[1..], burst)
  }

  /** The RX side: a request is raised while the level is above the threshold, and takes up to one
      burst of items; the bus brings single ones. */
  datatype RxFlow = RxGrant(items: nat) | RxFill

  /** From this level on no granted burst reads more than the RX FIFO holds. */
  ghost predicate RxSafe(depth: nat, rdlr: nat, level: nat, fs: seq<RxFlow>, burst: nat)
    decreases |fs|
  {
    fs == []
    || match fs[0]
       case RxGrant(items) =>
         level > rdlr && items <= burst ==>
           items <= level && RxSafe(depth, rdlr, level - items, fs[1..], burst)
       case RxFill => level < depth ==> RxSafe(depth, rdlr, level + 1, fs[1..], burst)
  }

  lemma {:induction false} TxStaysSafe(depth: nat, tdlr: nat, level: nat, fs: seq<TxFlow>, burst: nat)
    requires tdlr + burst <= depth && level <= depth
    ensures TxSafe(depth, tdlr, level, fs, burst)
    decreases |fs|
  {
    if fs != [] {
      match fs[0] {
        case TxGrant(items) =>
          if level <= tdlr && items <= burst {
            TxStaysSafe(depth, tdlr, level + items, fs[1..], burst);
          }
        case TxDrain =>
          if level > 0 {
            TxStaysSafe(depth, tdlr, level - 1, fs[1..], burst);
          }
      }
    }
  }

  /** Single items up to the threshold, and then a whole burst. */
  lemma {:induction false} TxOverflows(depth: nat, tdlr: nat, level: nat, burst: nat) returns (fs: seq<TxFlow>)
    requires tdlr <= depth < tdlr + burst && level <= tdlr
    ensures !TxSafe(depth, tdlr, level, fs, burst)
    decreases tdlr - level
  {
    if level == tdlr {
      fs := [TxGrant(burst)];
    } else {
      var rest := TxOverflows(depth, tdlr, level + 1, burst);
      fs := [TxGrant(1)] + rest;
      assert fs[1..] == rest;
    }
  }

  /** No run of bursts of this length overflows the TX FIFO. */
  ghost predicate TxNeverOverflows(depth: nat, tdlr: nat, burst: nat) {
    forall fs :: TxSafe(depth, tdlr, 0, fs, burst)
  }

  /** A threshold is safe for a burst length in every run if and only if one more burst fits above
      it. */
  lemma {:induction false} TxWatermarkIff(depth: nat, tdlr: nat, burst: nat)
    requires tdlr <= depth && burst > 0
    ensures TxNeverOverflows(depth, tdlr, burst) <==> tdlr + burst <= depth
  {
    if tdlr + burst <= depth {
      forall fs ensures TxSafe(depth, tdlr, 0, fs, burst) {
        TxStaysSafe(depth, tdlr, 0, fs, burst);
      }
    } else {
      var fs := TxOverflows(depth, tdlr, 0, burst);
      assert !TxSafe(depth, tdlr, 0, fs, burst);
    }
  }

  lemma {:induction false} RxStaysSafe(depth: nat, rdlr: nat, level: nat, fs: seq<RxFlow>, burst: nat)
    requires burst <= rdlr + 1
    ensures RxSafe(depth, rdlr, level, fs, burst)
    decreases |fs|
  {
    if fs != [] {
      match fs[0] {
        case RxGrant(items) =>
          if level > rdlr && items <= burst {
            RxStaysSafe(depth, rdlr, level - items, fs[1..], burst);
          }
        case RxFill => RxStaysSafe(depth, rdlr, level + 1, fs[1..], burst);
      }
    }
  }

  lemma {:induction false} RxUnderruns(depth: nat, rdlr: nat, level: nat, burst: nat) returns (fs: seq<RxFlow>)
    requires rdlr < depth && burst > rdlr + 1 && level <= rdlr + 1
    ensures !RxSafe(depth, rdlr, level, fs, burst)
    decreases rdlr + 1 - level
  {
    if level == rdlr + 1 {
      fs := [RxGrant(burst)];
    } else {
      var rest := RxUnderruns(depth, rdlr, level + 1, burst);
      fs := [RxFill] + rest;
      assert fs[1..] == rest;
    }
  }

  /** No run of bursts of this length reads from the RX FIFO what is not there. */
  ghost predicate RxNeverUnderruns(depth: nat, rdlr: nat, burst: nat) {
    forall fs :: RxSafe(depth, rdlr, 0, fs, burst)
  }

  /** The same on the RX side, if and only if a raised request means that a burst is there. */
  lemma {:induction false} RxWatermarkIff(depth: nat, rdlr: nat, burst: nat)
    requires rdlr < depth && burst > 0
    ensures RxNeverUnderruns(depth, rdlr, burst) <==> burst <= rdlr + 1
  {
    if burst <= rdlr + 1 {
      forall fs ensures RxSafe(depth, rdlr, 0, fs, burst) {
        RxStaysSafe(depth, rdlr, 0, fs, burst);
      }
    } else {
      var fs := RxUnderruns(depth, rdlr, 0, burst);
      assert !RxSafe(depth, rdlr, 0, fs, burst);
    }
  }

  ghost predicate ChainFitsTx(chain: seq<Desc>, depth: nat, tdlr: nat) {
    forall i | 0 <= i < |chain| :: TxNeverOverflows(depth, tdlr, BurstItems(chain[i].ctl.dstBurst))
  }

  ghost predicate ChainFitsRx(chain: seq<Desc>, depth: nat, rdlr: nat) {
    forall i | 0 <= i < |chain| :: RxNeverUnderruns(depth, rdlr, BurstItems(chain[i].ctl.srcBurst))
  }

  /** No burst that any descriptor of a channel's program makes, in any run, overflows the TX FIFO. */
  ghost predicate NeverOverflows(d: Dma, base: nat, ch: nat, depth: nat, tdlr: nat) {
    && ch in d.hw.llp
    && var walked := Walk(d.mem, base, d.hw.llp[ch], LLI_PER_CHANNEL);
       walked.Some? && ChainFitsTx(walked.value, depth, tdlr)
  }

  /** And none reads from the RX FIFO what is not there. */
  ghost predicate NeverUnderruns(d: Dma, base: nat, ch: nat, depth: nat, rdlr: nat) {
    && ch in d.hw.llp
    && var walked := Walk(d.mem, base, d.hw.llp[ch], LLI_PER_CHANNEL);
       walked.Some? && ChainFitsRx(walked.value, depth, rdlr)
  }

  lemma {:induction false} ChainFitsIff(chain: seq<Desc>, code: nat, depth: nat, tdlr: nat, rdlr: nat)
    requires AllBurst(chain, code) && chain != [] && tdlr <= depth && rdlr < depth
    ensures ChainFitsTx(chain, depth, tdlr) <==> tdlr + BurstItems(code) <= depth
    ensures ChainFitsRx(chain, depth, rdlr) <==> BurstItems(code) <= rdlr + 1
  {
    TxWatermarkIff(depth, tdlr, BurstItems(code));
    RxWatermarkIff(depth, rdlr, BurstItems(code));
    assert chain[0].ctl.srcBurst == chain[0].ctl.dstBurst == code;
  }

  /** The program of a ready channel fits the TX threshold if and only if one of its bursts fits
      above it, and the RX threshold if and only if a raised request means that a burst is there. */
  lemma {:induction false} BurstsFitIff(d: Dma, base: nat, ch: nat, pool: seq<XferCfg>, count: nat, c: Cut,
                                        depth: nat, tdlr: nat, rdlr: nat)
    requires Shaped(d) && ch < NUM_CHANNELS && Ready(d, base, ch, pool, count, c)
    requires tdlr <= depth && rdlr < depth
    ensures NeverOverflows(d, base, ch, depth, tdlr) <==> tdlr + BurstItems(c.code) <= depth
    ensures NeverUnderruns(d, base, ch, depth, rdlr) <==> BurstItems(c.code) <= rdlr + 1
  {
    ReadyBursts(d, base, ch, pool, count, c);
    ChainFitsIff(Walk(d.mem, base, d.hw.llp[ch], LLI_PER_CHANNEL).value, c.code, depth, tdlr, rdlr);
  }

  /** What an accepted start means: with the thresholds it programs for its burst, no burst that a
      descriptor of a ready channel makes overflows the TX FIFO, or reads from the RX FIFO what is
      not there. */
  lemma {:induction false} WatermarksSafe(d: Dma, base: nat, ch: nat, pool: seq<XferCfg>, count: nat, c: Cut,
                                          depth: nat, burst: nat)
    requires Shaped(d) && ch < NUM_CHANNELS && Ready(d, base, ch, pool, count, c)
    requires burst == BurstItems(c.code) && 0 < burst <= depth
    ensures NeverOverflows(d, base, ch, depth, depth - burst)
    ensures NeverUnderruns(d, base, ch, depth, burst - 1)
  {
    BurstsFitIff(d, base, ch, pool, count, c, depth, depth - burst, burst - 1);
  }

  // ---------- the driver ----------

  predicate IsBlockAt(cfg: XferCfg, c: Cut, k: nat) {
    k * c.blk <= c.n && IsBlock(cfg, c, k * c.blk)
  }

  /** `n` items make `count` blocks, all full but perhaps the last. */
  predicate CutsInto(n: nat, blk: nat, count: nat) {
    (count - 1) * blk < n <= count * blk
  }

  function LastLen(n: nat, blk: nat, count: nat): int {
    n - (count - 1) * blk
  }

  lemma BlockStarts(c: Cut, count: nat, k: nat)
    requires c.blk > 0 && CutsInto(c.n, c.blk, count) && k < count
    ensures k * c.blk < c.n && (k + 1) * c.blk == k * c.blk + c.blk
    ensures k * c.blk + BlockLen(c, k * c.blk) == if k + 1 < count then (k + 1) * c.blk else c.n
  {
    assert k * c.blk <= (count - 1) * c.blk;
    if k + 1 < count {
      assert (k + 1) * c.blk <= (count - 1) * c.blk;
    }
  }

  lemma {:induction false} BlocksAreCut(pool: seq<XferCfg>, c: Cut, count: nat, k: nat)
    requires c.blk > 0 && CutsInto(c.n, c.blk, count) && k < count <= |pool|
    requires forall j | 0 <= j < count :: IsBlockAt(pool[j], c, j)
    ensures k * c.blk <= c.n && IsCut(pool[k..count], c, k * c.blk)
    decreases count - k
  {
    BlockStarts(c, count, k);
    assert IsBlockAt(pool[k], c, k);
    assert pool[k..count][1..] == pool[k + 1..count];
    if k + 1 < count {
      BlocksAreCut(pool, c, count, k + 1);
    }
  }

  /** A set-up of `ch` leaves the channel contexts and every other channel's program alone. */
  ghost predicate OnlySetUp(d: Dma, d': Dma, ch: nat) {
    && Inv(d') && Shaped(d) && d'.ctx == d.ctx
    && d'.stops == d.stops && d'.hw.enabled == d.hw.enabled && d'.hw.pending == d.hw.pending
    && forall k | 0 <= k < NUM_CHANNELS && k != ch ::
         && Region(d', k) == Region(d, k)
         && (k in d'.hw.llp <==> k in d.hw.llp)
         && (k in d.hw.llp ==> d'.hw.llp[k] == d.hw.llp[k])
  }

  lemma SetupOnly(d: Dma, e: Event)
    requires Inv(d) && EventOk(d, e) && e.Setup?
    ensures OnlySetUp(d, Step(d, e), e.ch)
  {
    StepInv(d, e);
    forall k | 0 <= k < NUM_CHANNELS && k != e.ch
      ensures Region(Step(d, e), k) == Region(d, k)
    {
      OthersUntouched(d, e, k);
    }
  }

  /** A start of `ch` changes nobody's program and no other channel's state. */
  ghost predicate OnlyStarted(d: Dma, d': Dma, ch: nat) {
    && Inv(d') && Shaped(d) && ch < NUM_CHANNELS && d'.mem == d.mem && d'.hw.llp == d.hw.llp
    && d'.stops == d.stops && d'.hw.enabled == d.hw.enabled + {ch} && d'.hw.pending == d.hw.pending
    && d'.ctx == d.ctx[ch := d.ctx[ch].(state := Active)]
  }

  lemma StartOnly(d: Dma, ch: nat)
    requires Inv(d) && ch < NUM_CHANNELS && Free(d, ch) && Settled(d, ch)
    ensures OnlyStarted(d, Step(d, Start(ch)), ch)
  {
    StepInv(d, Start(ch));
    RequestEffects(d.hw, ch);
  }

  /** From `d` to `d'` the channels outside `mine` keep their state and their program. */
  ghost predicate OthersKept(d: Dma, d': Dma, mine: set<nat>) {
    && Shaped(d) && Shaped(d')
    && forall k | 0 <= k < NUM_CHANNELS && k !in mine ::
         && d'.ctx[k] == d.ctx[k] && Region(d', k) == Region(d, k)
         && (k in d'.hw.enabled <==> k in d.hw.enabled)
         && (k in d'.hw.llp <==> k in d.hw.llp)
         && (k in d.hw.llp ==> d'.hw.llp[k] == d.hw.llp[k])
  }

  lemma SetupKeepsOthers(d: Dma, d': Dma, ch: nat, mine: set<nat>)
    requires OnlySetUp(d, d', ch) && ch in mine
    ensures OthersKept(d, d', mine) && NothingStarted(d, d')
  {
  }

  lemma StartKeepsOthers(d0: Dma, d: Dma, d': Dma, ch: nat, mine: set<nat>)
    requires OthersKept(d0, d, mine) && OnlyStarted(d, d', ch) && ch in mine
    ensures OthersKept(d0, d', mine)
  {
    forall k | 0 <= k < NUM_CHANNELS ensures Region(d', k) == Region(d, k) {
    }
  }

  lemma KeptOn(d0: Dma, d: Dma, d': Dma, mine: set<nat>)
    requires OthersKept(d0, d, mine) && OthersKept(d, d', mine)
    ensures OthersKept(d0, d', mine)
  {
  }

  /** No channel became active. */
  predicate NothingStarted(d: Dma, d': Dma) {
    d'.ctx == d.ctx && d'.hw.enabled == d.hw.enabled
  }

  predicate Free(d: Dma, ch: nat)
    requires ch < |d.ctx|
  {
    d.ctx[ch].isOpen && d.ctx[ch].state == Idle
  }

  lemma MulMono(a: int, b: int, c: nat)
    requires a <= b
    ensures a * c <= b * c
  {
  }

  lemma CeilDiv(n: nat, blk: nat, maxBlks: nat)
    requires n > 0 && blk > 0
    ensures var count := (n + blk - 1) / blk;
            && count > 0 && CutsInto(n, blk, count)
            && (count > maxBlks <==> n > maxBlks * blk)
  {
    var count := (n + blk - 1) / blk;
    assert n + blk - 1 == count * blk + (n + blk - 1) % blk;
    assert (count - 1) * blk == count * blk - blk;
    if count > maxBlks {
      MulMono(maxBlks, count - 1, blk);
    } else {
      MulMono(count, maxBlks, blk);
    }
  }

  lemma RemainderIs(n: nat, blk: nat, q: nat, r: nat)
    requires n == q * blk + r && r < blk
    ensures n % blk == r
  {
    var d, m := n / blk, n % blk;
    assert n == d * blk + m;
    assert (q + 1) * blk == q * blk + blk && (d + 1) * blk == d * blk + blk;
    if d > q {
      MulMono(q + 1, d, blk);
    } else if d < q {
      MulMono(d + 1, q, blk);
    }
  }

  /** The length of the last of `count` blocks. */
  lemma LastBlock(n: nat, blk: nat, count: nat)
    requires blk > 0 && count > 0 && CutsInto(n, blk, count)
    ensures (if n % blk == 0 then blk else n % blk) == LastLen(n, blk, count)
  {
    var r := n - (count - 1) * blk;
    assert count * blk == (count - 1) * blk + blk;
    if r < blk {
      RemainderIs(n, blk, count - 1, r);
    } else {
      RemainderIs(n, blk, count, 0);
    }
  }

  predicate LargestBurst(burst: nat, items: nat) {
    IsBurst(burst) && burst <= items && forall b: nat | IsBurst(b) && b <= items :: b <= burst
  }

  /** Any node of a static block array can be handed on. */
  predicate NodesOk(pool: seq<XferCfg>) {
    forall i | 0 <= i < |pool| ::
      pool[i].blkSize < U32_RANGE && (pool[i].next.Some? ==> pool[i].next.value < |pool|)
  }

  class I2cDmaMaster {
    const depth: nat
    const blk: nat
    const maxBlks: nat
    const port: nat
    const wdmaBufAddr: nat
    const dma: DmaController
    const wch: nat
    const rch: nat
    const wdmaXferCfg: array<XferCfg>
    const rdmaXferCfg: array<XferCfg>
    const wdmaBuf: array<nat>
    var noStop: bool
    var tdlr: nat
    var rdlr: nat
    var tdmaEnabled: bool // the controller raises DMA requests
    var rdmaEnabled: bool
    var abortUnmasked: bool

    ghost predicate Valid()
      reads this, dma, dma.mem, wdmaXferCfg, rdmaXferCfg, wdmaBuf
    {
      && depth >= 8 && 0 < blk <= MAX_BLOCK_TS + 1 && 0 < maxBlks <= LLI_PER_CHANNEL
      && wdmaXferCfg.Length == maxBlks && rdmaXferCfg.Length == maxBlks
      && wdmaXferCfg != rdmaXferCfg && wdmaBuf.Length == maxBlks * blk
      && NodesOk(wdmaXferCfg[..]) && NodesOk(rdmaXferCfg[..])
      && wch < NUM_CHANNELS && rch < NUM_CHANNELS && wch != rch
      && dma.Valid() && Inv(dma.View())
      && dma.ctx[wch].dir == MemToPeriDmac && dma.ctx[rch].dir == PeriToMemDmac
    }

    constructor (dma: DmaController, wch: nat, rch: nat, depth: nat, blk: nat, maxBlks: nat,
                 port: nat, wdmaBufAddr: nat)
      requires depth >= 8 && 0 < blk <= MAX_BLOCK_TS + 1 && 0 < maxBlks <= LLI_PER_CHANNEL
      requires wch < NUM_CHANNELS && rch < NUM_CHANNELS && wch != rch
      requires dma.Valid() && Inv(dma.View())
      requires dma.ctx[wch].dir == MemToPeriDmac && dma.ctx[rch].dir == PeriToMemDmac
      ensures Valid() && this.dma == dma && this.wch == wch && this.rch == rch
    {
      this.dma, this.wch, this.rch := dma, wch, rch;
      this.depth, this.blk, this.maxBlks := depth, blk, maxBlks;
      this.port, this.wdmaBufAddr := port, wdmaBufAddr;
      wdmaXferCfg := new XferCfg[maxBlks](_ => XferCfg(0, 0, 0, 0, 0, None));
      rdmaXferCfg := new XferCfg[maxBlks](_ => XferCfg(0, 0, 0, 0, 0, None));
      wdmaBuf := new nat[maxBlks * blk];
      noStop, tdlr, rdlr := false, 0, 0;
      tdmaEnabled, rdmaEnabled, abortUnmasked := false, false, false;
    }

    /** `i2c_find_burst_params`. */
    static method FindBurst(n: nat) returns (burst: nat, code: nat)
      ensures IsBurst(burst) && burst == BurstItems(code) && (n > 0 ==> LargestBurst(burst, n))
    {
      var lens, codes := [1, 4, 8], [0, 1, 2];
      burst, code := 1, 0;
      var i := 2;
      while i >= 0
        invariant -1 <= i <= 2 && burst == 1 && code == 0
        invariant (i < 2 ==> 8 > n) && (i < 1 ==> 4 > n) && (i < 0 ==> 1 > n)
        decreases i
      {
        if lens[i] <= n {
          burst, code := lens[i], codes[i];
          return;
        }
        i := i - 1;
      }
    }

    /** The loop of `i2c_dma_setup_wdma`. */
    method FillWdma(addr: nat, n: nat, count: nat, code: nat)
      requires 0 < blk <= MAX_BLOCK_TS + 1 && 0 < count <= wdmaXferCfg.Length
      requires CutsInto(n, blk, count) && NodesOk(wdmaXferCfg[..])
      modifies wdmaXferCfg
      ensures NodesOk(wdmaXferCfg[..])
      ensures Linked(wdmaXferCfg[..], count)
      ensures forall k | 0 <= k < count ::
                IsBlockAt(wdmaXferCfg[k], Cut(Write, addr, port, n, blk, code), k)
    {
      ghost var c := Cut(Write, addr, port, n, blk, code);
      var rem := n;
      for i := 0 to count
        invariant i < count ==> rem == n - i * blk
        invariant NodesOk(wdmaXferCfg[..])
        invariant forall k | 0 <= k < i ::
                    && IsBlockAt(wdmaXferCfg[k], c, k)
                    && wdmaXferCfg[k].next == if k + 1 < count then Some(k + 1) else None
      {
        BlockStarts(c, count, i);
        var chunk := rem;
        if chunk > blk {
          chunk := blk;
        }
        wdmaXferCfg[i] := XferCfg(addr + 4 * (i * blk), port, chunk * 4, code, code,
                                  if i + 1 < count then Some(i + 1) else None);
        rem := rem - chunk;
      }
    }

    /** The loop of `i2c_dma_setup_rdma`. */
    method FillRdma(addr: nat, n: nat, count: nat, code: nat)
      requires 0 < blk <= MAX_BLOCK_TS + 1 && 0 < count <= rdmaXferCfg.Length
      requires CutsInto(n, blk, count) && NodesOk(rdmaXferCfg[..])
      modifies rdmaXferCfg
      ensures NodesOk(rdmaXferCfg[..])
      ensures Linked(rdmaXferCfg[..], count)
      ensures forall k | 0 <= k < count ::
                IsBlockAt(rdmaXferCfg[k], Cut(Read, addr, port, n, blk, code), k)
    {
      ghost var c := Cut(Read, addr, port, n, blk, code);
      var rem := n;
      for i := 0 to count
        invariant i < count ==> rem == n - i * blk
        invariant NodesOk(rdmaXferCfg[..])
        invariant forall k | 0 <= k < i ::
                    && IsBlockAt(rdmaXferCfg[k], c, k)
                    && rdmaXferCfg[k].next == if k + 1 < count then Some(k + 1) else None
      {
        BlockStarts(c, count, i);
        var chunk := rem;
        if chunk > blk {
          chunk := blk;
        }
        rdmaXferCfg[i] := XferCfg(port, addr + i * blk, chunk, code, code,
                                  if i + 1 < count then Some(i + 1) else None);
        rem := rem - chunk;
      }
    }

    /** `i2c_dma_setup_wdma`. */
    method SetupWdma(addr: nat, n: nat, count: nat, code: nat) returns (ret: Ret)
      requires Valid() && 0 < count <= maxBlks && CutsInto(n, blk, count)
      modifies wdmaXferCfg, dma`hw, dma.mem
      ensures Valid()
      ensures ret == if old(dma.ctx)[wch].isOpen && old(dma.ctx)[wch].state == Idle then OK else EIO
      ensures ret == OK ==>
                Ready(dma.View(), dma.base, wch, wdmaXferCfg[..], count,
                      Cut(Write, addr, port, n, blk, code))
      ensures OnlySetUp(old(dma.View()), dma.View(), wch)
    {
      ghost var d, c := dma.View(), Cut(Write, addr, port, n, blk, code);
      FillWdma(addr, n, count, code);
      ghost var pool := wdmaXferCfg[..];
      BlocksAreCut(pool, c, count, 0);
      var job := JobOf(wdmaXferCfg[..], count, Write);
      ret := dma.SetupTransfer(wch, job);
      ghost var e := Setup(wch, job, dma.base, Region(dma.View(), wch));
      SetupMakesReady(d, dma.base, wch, pool, count, c, e);
      SetupOnly(d, e);
      if ret != OK {
        return EIO;
      }
    }

    /** `i2c_dma_setup_rdma`. */
    method SetupRdma(addr: nat, n: nat, count: nat, code: nat) returns (ret: Ret)
      requires Valid() && 0 < count <= maxBlks && CutsInto(n, blk, count)
      modifies rdmaXferCfg, dma`hw, dma.mem
      ensures Valid()
      ensures ret == if old(dma.ctx)[rch].isOpen && old(dma.ctx)[rch].state == Idle then OK else EIO
      ensures ret == OK ==>
                Ready(dma.View(), dma.base, rch, rdmaXferCfg[..], count,
                      Cut(Read, addr, port, n, blk, code))
      ensures OnlySetUp(old(dma.View()), dma.View(), rch)
    {
      ghost var d, c := dma.View(), Cut(Read, addr, port, n, blk, code);
      FillRdma(addr, n, count, code);
      ghost var pool := rdmaXferCfg[..];
      BlocksAreCut(pool, c, count, 0);
      var job := JobOf(rdmaXferCfg[..], count, Read);
      ret := dma.SetupTransfer(rch, job);
      ghost var e := Setup(rch, job, dma.base, Region(dma.View(), rch));
      SetupMakesReady(d, dma.base, rch, pool, count, c, e);
      SetupOnly(d, e);
      if ret != OK {
        return EIO;
      }
    }

    /** The read commands of a read, one word for each byte. */
    method FillReadCommands(n: nat)
      requires n <= wdmaBuf.Length
      modifies wdmaBuf
      ensures wdmaBuf[..n] == EncodeRead(n, noStop)
    {
      for i := 0 to n
        invariant forall j | 0 <= j < i :: wdmaBuf[j] == CMD_FLAG
      {
        wdmaBuf[i] := CMD_FLAG;
      }
      if n > 0 && !noStop {
        wdmaBuf[n - 1] := STOP_FLAG + CMD_FLAG;
      }
      forall i | 0 <= i < n ensures wdmaBuf[..n][i] == EncodeRead(n, noStop)[i] {
        EncodeReadAt(n, noStop, i);
      }
    }

    /** The requests of the controller are enabled last, with the abort interrupt. */
    method EnableRequests(receives: bool)
      modifies `tdmaEnabled, `rdmaEnabled, `abortUnmasked
      ensures tdmaEnabled && abortUnmasked && rdmaEnabled == (old(rdmaEnabled) || receives)
    {
      if receives {
        rdmaEnabled := true;
      }
      tdmaEnabled := true;
      abortUnmasked := true;
    }

    /** `dma_start_transfer` on a channel that is set up. */
    method Launch(ch: nat)
      requires Valid() && (ch == wch || ch == rch)
      requires dma.ctx[ch].isOpen && dma.ctx[ch].state == Idle && Settled(dma.View(), ch)
      modifies dma`ctx, dma`hw
      ensures Valid() && ch in dma.hw.enabled
      ensures OnlyStarted(old(dma.View()), dma.View(), ch)
    {
      ghost var d := dma.View();
      StartOnly(d, ch);
      var ret := dma.StartTransfer(ch);
    }

    /** The end of a read's start: first the channel that stores, then the one that sends commands. */
    method LaunchBoth(ghost sends: Cut, ghost stores: Cut, ghost count: nat)
      requires Valid() && Free(dma.View(), wch) && Free(dma.View(), rch)
      requires Settled(dma.View(), wch) && Settled(dma.View(), rch)
      requires Ready(dma.View(), dma.base, wch, wdmaXferCfg[..], count, sends)
      requires Ready(dma.View(), dma.base, rch, rdmaXferCfg[..], count, stores)
      modifies dma`ctx, dma`hw
      ensures Valid() && wch in dma.hw.enabled && rch in dma.hw.enabled
      ensures OthersKept(old(dma.View()), dma.View(), {wch, rch})
      ensures Ready(dma.View(), dma.base, wch, wdmaXferCfg[..], count, sends)
      ensures Ready(dma.View(), dma.base, rch, rdmaXferCfg[..], count, stores)
    {
      ghost var d := dma.View();
      Launch(rch);
      ghost var d1 := dma.View();
      Launch(wch);
      StartKeepsOthers(d, d, d1, rch, {wch, rch});
      StartKeepsOthers(d, d1, dma.View(), wch, {wch, rch});
      StaysReady(d, dma.View(), dma.base, wch, wdmaXferCfg[..], count, sends);
      StaysReady(d, dma.View(), dma.base, rch, rdmaXferCfg[..], count, stores);
    }

    /** The write branch of `i2c_start_xfer_dma_mode`. */
    method StartWrite(addr: nat, n: nat, count: nat, burst: nat, code: nat) returns (ret: Ret)
      requires Valid() && 0 < count <= maxBlks && CutsInto(n, blk, count)
      requires IsBurst(burst) && Settled(dma.View(), wch)
      modifies `tdlr, wdmaXferCfg, dma`ctx, dma`hw, dma.mem
      ensures Valid() && tdlr == depth - burst
      ensures ret == if Free(old(dma.View()), wch) then OK else EIO
      ensures OthersKept(old(dma.View()), dma.View(), {wch})
      ensures if ret == OK then wch in dma.hw.enabled else NothingStarted(old(dma.View()), dma.View())
      ensures ret == OK ==>
                Ready(dma.View(), dma.base, wch, wdmaXferCfg[..], count, Cut(Write, addr, port, n, blk, code))
    {
      ghost var d0 := dma.View();
      tdlr := depth - burst;
      ret := SetupWdma(addr, n, count, code);
      ghost var d := dma.View();
      SetupKeepsOthers(d0, d, wch, {wch});
      if ret != OK {
        return EIO;
      }
      Launch(wch);
      StartKeepsOthers(d0, d, dma.View(), wch, {wch});
      StaysReady(d, dma.View(), dma.base, wch, wdmaXferCfg[..], count,
                 Cut(Write, addr, port, n, blk, code));
    }

    /** The set-ups of a read: commands for one channel, the buffer for the other. */
    method SetupBoth(addr: nat, n: nat, count: nat, code: nat) returns (ret: Ret)
      requires Valid() && 0 < count <= maxBlks && CutsInto(n, blk, count)
      modifies wdmaXferCfg, rdmaXferCfg, dma`hw, dma.mem
      ensures Valid() && dma.hw.pending == old(dma.hw.pending)
      ensures OthersKept(old(dma.View()), dma.View(), {wch, rch}) && NothingStarted(old(dma.View()), dma.View())
      ensures ret == if Free(old(dma.View()), wch) && Free(old(dma.View()), rch) then OK else EIO
      ensures ret == OK ==>
                && Free(dma.View(), wch) && Free(dma.View(), rch)
                && Ready(dma.View(), dma.base, rch, rdmaXferCfg[..], count, Cut(Read, addr, port, n, blk, code))
                && Ready(dma.View(), dma.base, wch, wdmaXferCfg[..], count,
                         Cut(Write, wdmaBufAddr, port, n, blk, code))
    {
      ghost var d0 := dma.View();
      ret := SetupWdma(wdmaBufAddr, n, count, code);
      ghost var d1 := dma.View();
      SetupKeepsOthers(d0, d1, wch, {wch, rch});
      if ret != OK {
        return EIO;
      }
      ret := SetupRdma(addr, n, count, code);
      SetupKeepsOthers(d1, dma.View(), rch, {wch, rch});
      KeptOn(d0, d1, dma.View(), {wch, rch});
      if ret != OK {
        return EIO;
      }
      StaysReady(d1, dma.View(), dma.base, wch, wdmaXferCfg[..], count,
                 Cut(Write, wdmaBufAddr, port, n, blk, code));
    }

    /** The read branch: one channel sends the commands, the other stores the bytes. */
    method StartRead(addr: nat, n: nat, count: nat, burst: nat, code: nat) returns (ret: Ret)
      requires Valid() && 0 < count <= maxBlks && CutsInto(n, blk, count)
      requires n <= wdmaBuf.Length
      requires IsBurst(burst) && Settled(dma.View(), wch) && Settled(dma.View(), rch)
      modifies `tdlr, `rdlr, wdmaXferCfg, rdmaXferCfg, wdmaBuf, dma`ctx, dma`hw, dma.mem
      ensures Valid() && tdlr == depth - burst && rdlr == burst - 1
      ensures ret == if Free(old(dma.View()), wch) && Free(old(dma.View()), rch) then OK else EIO
      ensures wdmaBuf[..n] == EncodeRead(n, noStop)
      ensures OthersKept(old(dma.View()), dma.View(), {wch, rch})
      ensures if ret == OK then wch in dma.hw.enabled && rch in dma.hw.enabled
              else NothingStarted(old(dma.View()), dma.View())
      ensures ret == OK ==>
                && Ready(dma.View(), dma.base, rch, rdmaXferCfg[..], count, Cut(Read, addr, port, n, blk, code))
                && Ready(dma.View(), dma.base, wch, wdmaXferCfg[..], count,
                         Cut(Write, wdmaBufAddr, port, n, blk, code))
    {
      FillReadCommands(n);
      tdlr := depth - burst;
      rdlr := burst - 1;
      ghost var d := dma.View();
      ret := SetupBoth(addr, n, count, code);
      ghost var d1 := dma.View();
      if ret != OK {
        return EIO;
      }
      LaunchBoth(Cut(Write, wdmaBufAddr, port, n, blk, code), Cut(Read, addr, port, n, blk, code), count);
      KeptOn(d, d1, dma.View(), {wch, rch});
    }

    /** The burst for a transfer follows the size of its last block. */
    method PickBurst(n: nat, ghost count: nat) returns (burst: nat, code: nat)
      requires n > 0 && blk > 0 && count > 0 && CutsInto(n, blk, count)
      ensures LargestBurst(burst, LastLen(n, blk, count)) && burst == BurstItems(code)
    {
      var items := n % blk;
      if items == 0 {
        assert n >= blk by {
          LastBlock(n, blk, count);
        }
        items := if n >= blk then blk else n;
      }
      LastBlock(n, blk, count);
      burst, code := FindBurst(items);
    }

    /** The write branch and its end. */
    method ArmWrite(addr: nat, n: nat, count: nat, burst: nat, code: nat) returns (ret: Ret)
      requires Valid() && 0 < count <= maxBlks && CutsInto(n, blk, count)
      requires IsBurst(burst) && Settled(dma.View(), wch)
      modifies `tdlr, `tdmaEnabled, `rdmaEnabled, `abortUnmasked, wdmaXferCfg, dma`ctx, dma`hw, dma.mem
      ensures Valid() && tdlr == depth - burst
      ensures ret == if Free(old(dma.View()), wch) then OK else EIO
      ensures OthersKept(old(dma.View()), dma.View(), {wch})
      ensures if ret == OK then wch in dma.hw.enabled && tdmaEnabled && abortUnmasked
              else NothingStarted(old(dma.View()), dma.View())
                   && unchanged(this`tdmaEnabled, this`rdmaEnabled, this`abortUnmasked)
      ensures ret == OK ==>
                Ready(dma.View(), dma.base, wch, wdmaXferCfg[..], count, Cut(Write, addr, port, n, blk, code))
    {
      ret := StartWrite(addr, n, count, burst, code);
      if ret == OK {
        EnableRequests(false);
      }
    }

    /** The read branch and its end. */
    method ArmRead(addr: nat, n: nat, count: nat, burst: nat, code: nat) returns (ret: Ret)
      requires Valid() && 0 < count <= maxBlks && CutsInto(n, blk, count) && n <= wdmaBuf.Length
      requires IsBurst(burst) && Settled(dma.View(), wch) && Settled(dma.View(), rch)
      modifies `tdlr, `rdlr, `tdmaEnabled, `rdmaEnabled, `abortUnmasked, wdmaXferCfg, rdmaXferCfg, wdmaBuf,
               dma`ctx, dma`hw, dma.mem
      ensures Valid() && tdlr == depth - burst && rdlr == burst - 1
      ensures ret == if Free(old(dma.View()), wch) && Free(old(dma.View()), rch) then OK else EIO
      ensures wdmaBuf[..n] == EncodeRead(n, noStop)
      ensures OthersKept(old(dma.View()), dma.View(), {wch, rch})
      ensures if ret == OK
              then wch in dma.hw.enabled && rch in dma.hw.enabled && tdmaEnabled && rdmaEnabled && abortUnmasked
              else NothingStarted(old(dma.View()), dma.View())
                   && unchanged(this`tdmaEnabled, this`rdmaEnabled, this`abortUnmasked)
      ensures ret == OK ==>
                && Ready(dma.View(), dma.base, rch, rdmaXferCfg[..], count, Cut(Read, addr, port, n, blk, code))
                && Ready(dma.View(), dma.base, wch, wdmaXferCfg[..], count,
                         Cut(Write, wdmaBufAddr, port, n, blk, code))
    {
      ret := StartRead(addr, n, count, burst, code);
      if ret == OK {
        EnableRequests(true);
      }
    }

    /** `i2c_start_xfer_dma_mode`. The buffer is cut into `count` blocks, moved in bursts of the
        length `code` stands for. */
    method StartXfer(op: Op, addr: nat, n: nat)
      returns (ret: Ret, ghost burst: nat, ghost code: nat, ghost count: nat)
      requires Valid() && Settled(dma.View(), wch) && Settled(dma.View(), rch)
      modifies `tdlr, `rdlr, `tdmaEnabled, `rdmaEnabled, `abortUnmasked, wdmaXferCfg, rdmaXferCfg, wdmaBuf,
               dma`ctx, dma`hw, dma.mem
      ensures Valid()
      ensures ret == if n == 0 || n > maxBlks * blk then EINVAL
                     else if !Free(old(dma.View()), wch) then EIO
                     else if op == Read && !Free(old(dma.View()), rch) then EIO else OK
      ensures OthersKept(old(dma.View()), dma.View(), if op == Read then {wch, rch} else {wch})
      ensures ret != OK ==> NothingStarted(old(dma.View()), dma.View())
                            && unchanged(this`tdmaEnabled, this`rdmaEnabled, this`abortUnmasked)
      ensures ret == OK ==>
                && 0 < count && CutsInto(n, blk, count) && wch in dma.hw.enabled
                && LargestBurst(burst, LastLen(n, blk, count)) && burst == BurstItems(code)
                && tdlr == depth - burst && tdmaEnabled && abortUnmasked
      ensures ret == OK && op == Write ==>
                && Runs(dma.View(), dma.base, wch, Cut(Write, addr, port, n, blk, code))
                && Ready(dma.View(), dma.base, wch, wdmaXferCfg[..], count, Cut(Write, addr, port, n, blk, code))
      ensures ret == OK && op == Read ==>
                && rch in dma.hw.enabled && rdlr == burst - 1 && rdmaEnabled
                && wdmaBuf[..n] == EncodeRead(n, noStop)
      ensures ret == OK && op == Read ==>
                && Runs(dma.View(), dma.base, rch, Cut(Read, addr, port, n, blk, code))
                && Ready(dma.View(), dma.base, rch, rdmaXferCfg[..], count, Cut(Read, addr, port, n, blk, code))
      ensures ret == OK && op == Read ==>
                && Runs(dma.View(), dma.base, wch, Cut(Write, wdmaBufAddr, port, n, blk, code))
                && Ready(dma.View(), dma.base, wch, wdmaXferCfg[..], count,
                         Cut(Write, wdmaBufAddr, port, n, blk, code))
    {
      burst, code, count := 1, 0, 0;
      if n == 0 {
        ret := EINVAL;
        return;
      }
      var blkCnt := (n + blk - 1) / blk;
      CeilDiv(n, blk, maxBlks);
      if blkCnt > maxBlks {
        ret := EINVAL;
        return;
      }
      var b, c := PickBurst(n, blkCnt);
      burst, code, count := b, c, blkCnt;
      if op == Write {
        ret := ArmWrite(addr, n, blkCnt, b, c);
        if ret == OK {
          TwoStages(dma.View(), dma.base, wch, wdmaXferCfg[..], count, Cut(Write, addr, port, n, blk, code));
        }
      } else {
        ret := ArmRead(addr, n, blkCnt, b, c);
        if ret == OK {
          TwoStages(dma.View(), dma.base, wch, wdmaXferCfg[..], count,
                    Cut(Write, wdmaBufAddr, port, n, blk, code));
          TwoStages(dma.View(), dma.base, rch, rdmaXferCfg[..], count, Cut(Read, addr, port, n, blk, code));
        }
      }
    }
  }
}
