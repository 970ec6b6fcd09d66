/** Compiling a linked list of block transfers into the descriptor chain of a DMA channel, and
    the meaning of that chain for the hardware that walks it. */
module DmaChain {
  import opened Common

  const DESC_SIZE := 64
  const MAX_BLOCK_TS := 0x7FFF

  datatype Direction =
    | MemToMemDmac
    | MemToPeriDmac
    | PeriToMemDmac
    | PeriToPeriDmac
    | PeriToMemSrc
    | PeriToPeriSrc
    | MemToPeriDst
    | PeriToPeriDst

  /** The enumerated transfer widths: `w` stands for 2^w bytes. */
  type Width = w: nat | w <= 6

  function Bytes(w: Width): (bytes: nat)
    ensures bytes > 0
  {
    if w == 0 then 1 else if w == 1 then 2 else if w == 2 then 4 else if w == 3 then 8
    else if w == 4 then 16 else if w == 5 then 32 else 64
  }

  /** The enumerated burst lengths, in items. */
  function BurstItems(code: nat): nat {
    if code == 0 then 1 else if code == 1 then 4 else if code == 2 then 8 else if code == 3 then 16
    else if code == 4 then 32 else if code == 5 then 64 else if code == 6 then 128
    else if code == 7 then 256 else if code == 8 then 512 else 1024
  }

  const BURST_16 := 3

  /** A node of the caller's list; `next` is an index into the pool the nodes live in. */
  datatype XferCfg = XferCfg(src: nat, dst: nat, blkSize: nat, srcBurst: nat, dstBurst: nat,
                             next: Option<nat>)

  /** The fields of the CTL word of a descriptor that the driver programs. */
  datatype Ctl = Ctl(srcWidth: Width, dstWidth: Width, srcBurst: nat, dstBurst: nat,
                     srcStat: bool, dstStat: bool, ioc: bool,
                     valid: bool, last: bool, sinc: bool, dinc: bool)

  datatype Desc = Desc(sar: nat, dar: nat, blockTs: nat, llp: nat, ctl: Ctl)

  const ZERO_CTL := Ctl(0, 0, 0, 0, false, false, false, false, false, false, false)
  const ZERO := Desc(0, 0, 0, 0, ZERO_CTL)

  // ---------- what the caller asked for ----------

  predicate WellLinked(pool: seq<XferCfg>, first: Option<nat>) {
    && (first.Some? ==> first.value < |pool|)
    && forall i | 0 <= i < |pool| :: pool[i].next.Some? ==> pool[i].next.value < |pool|
  }

  /** The first `n` nodes reached from `first`, fewer if a null link comes earlier. */
  function Follow(pool: seq<XferCfg>, first: Option<nat>, n: nat): (cfgs: seq<XferCfg>)
    requires WellLinked(pool, first)
    ensures |cfgs| <= n
    decreases n
  {
    if n == 0 || first.None? then []
    else [pool[first.value]] + Follow(pool, pool[first.value].next, n - 1)
  }

  /** How many items a block moves. */
  function ItemCount(cfg: XferCfg, width: Width): nat {
    cfg.blkSize / Bytes(width)
  }

  predicate SourceIsPeripheral(dir: Direction) {
    dir in {PeriToMemDmac, PeriToMemSrc, PeriToPeriDmac, PeriToPeriSrc, PeriToPeriDst}
  }

  predicate DestIsPeripheral(dir: Direction) {
    dir in {MemToPeriDmac, MemToPeriDst, PeriToPeriDmac, PeriToPeriSrc, PeriToPeriDst}
  }

  /** One byte moved: from which address, to which address. */
  datatype Move = Move(src: nat, dst: nat)

  /** One side of a transfer: memory, or a register of a fixed address and this width. */
  datatype Side = Side(addr: nat, fixed: bool, width: Width)

  /** Where byte `k` of a transfer is on this side: in a register, at its place in the item. */
  function At(s: Side, k: nat): nat {
    if s.fixed then s.addr + k % Bytes(s.width) else s.addr + k
  }

  function Moves(src: Side, dst: Side, count: nat): (moves: seq<Move>)
    ensures |moves| == count
  {
    if count == 0 then []
    else Moves(src, dst, count - 1) + [Move(At(src, count - 1), At(dst, count - 1))]
  }

  lemma {:induction false} MovesAt(src: Side, dst: Side, count: nat, k: nat)
    requires k < count
    ensures Moves(src, dst, count)[k] == Move(At(src, k), At(dst, k))
  {
    if k < count - 1 {
      MovesAt(src, dst, count - 1, k);
    }
  }

  /** What all descriptors of a transfer share. */
  datatype Format = Format(dir: Direction, srcWidth: Width, dstWidth: Width)

  /** The bytes of one requested block: memory addresses advance, peripheral addresses do not. */
  function AskedBlock(cfg: XferCfg, f: Format): seq<Move> {
    Moves(Side(cfg.src, SourceIsPeripheral(f.dir), f.srcWidth),
          Side(cfg.dst, DestIsPeripheral(f.dir), f.dstWidth),
          ItemCount(cfg, f.srcWidth) * Bytes(f.srcWidth))
  }

  /** What a list of requests means: every byte of every block in order. */
  function Asked(cfgs: seq<XferCfg>, f: Format): seq<Move> {
    if cfgs == [] then [] else AskedBlock(cfgs[0], f) + Asked(cfgs[1..], f)
  }

  // ---------- what the hardware does ----------

  /** The descriptor at an address of the memory `mem` placed at `base`. */
  function Fetch(mem: seq<Desc>, base: nat, addr: nat): Option<Desc> {
    if base <= addr && (addr - base) % DESC_SIZE == 0 && (addr - base) / DESC_SIZE < |mem|
    then Some(mem[(addr - base) / DESC_SIZE]) else None
  }

  /** Follow the links from `addr` to the descriptor marked last; `None` if a fetch fails, a
      descriptor is not valid, or the end is not reached in `fuel` descriptors. */
  function Walk(mem: seq<Desc>, base: nat, addr: nat, fuel: nat): Option<seq<Desc>>
    decreases fuel
  {
    if fuel == 0 then None
    else
      match Fetch(mem, base, addr)
      case None => None
      case Some(d) =>
        if !d.ctl.valid then None
        else if d.ctl.last then Some([d])
        else
          match Walk(mem, base, d.llp, fuel - 1)
          case None => None
          case Some(rest) => Some([d] + rest)
  }

  /** The bytes one descriptor moves: `blockTs` is one less than the number of source items, and
      an increment bit that is set means a fixed address. */
  function ExecuteBlock(d: Desc): seq<Move> {
    Moves(Side(d.sar, d.ctl.sinc, d.ctl.srcWidth), Side(d.dar, d.ctl.dinc, d.ctl.dstWidth),
          (d.blockTs + 1) * Bytes(d.ctl.srcWidth))
  }

  function Execute(chain: seq<Desc>): seq<Move> {
    if chain == [] then [] else ExecuteBlock(chain[0]) + Execute(chain[1..])
  }

  /** The program at `addr` terminates and makes exactly these moves. */
  ghost predicate RunsAs(mem: seq<Desc>, base: nat, addr: nat, fuel: nat, moves: seq<Move>) {
    var walked := Walk(mem, base, addr, fuel);
    walked.Some? && Execute(walked.value) == moves
  }

  // ---------- the compiler ----------

  /** `block_ts` as the C expression computes it, on 64 bits. */
  function BlockTs(cfg: XferCfg, width: Width): nat {
    (ItemCount(cfg, width) - 1) % U64_RANGE
  }

  /** The descriptor for one request, to be stored at address `here`. */
  function Compiled(cfg: XferCfg, f: Format, here: nat, last: bool): Desc {
    var memToMem := f.dir == MemToMemDmac;
    Desc(cfg.src, cfg.dst, BlockTs(cfg, f.srcWidth), if last then 0 else here + DESC_SIZE,
         Ctl(f.srcWidth, f.dstWidth,
             if memToMem then BURST_16 else cfg.srcBurst,
             if memToMem then BURST_16 else cfg.dstBurst,
             true, true, true, true, last,
             f.dir == PeriToMemDmac || f.dir == PeriToMemSrc,
             f.dir == MemToPeriDmac || f.dir == MemToPeriDst))
  }

  /** `descs`, stored from address `here` on, are the compiled form of `cfgs`. */
  ghost predicate IsChain(descs: seq<Desc>, cfgs: seq<XferCfg>, f: Format, here: nat) {
    && |descs| == |cfgs|
    && forall i | 0 <= i < |descs| ::
         descs[i] == Compiled(cfgs[i], f, here + DESC_SIZE * i, i + 1 == |cfgs|)
  }

  lemma IsChainTail(descs: seq<Desc>, cfgs: seq<XferCfg>, f: Format, here: nat)
    requires IsChain(descs, cfgs, f, here) && descs != []
    ensures descs[0] == Compiled(cfgs[0], f, here, |cfgs| == 1)
    ensures IsChain(descs[1..], cfgs[1..], f, here + DESC_SIZE)
  {
    assert descs[0] == Compiled(cfgs[0], f, here + DESC_SIZE * 0, 0 + 1 == |cfgs|);
  }

  predicate FitsBlock(cfg: XferCfg, width: Width) {
    1 <= ItemCount(cfg, width) <= MAX_BLOCK_TS + 1
  }

  /** The verdict on the nodes found when `n` were asked for. */
  function Verdict(cfgs: seq<XferCfg>, n: nat, width: Width): Ret {
    if exists i | 0 <= i < |cfgs| :: !FitsBlock(cfgs[i], width) then EINVAL
    else if |cfgs| < n then EFAULT
    else OK
  }

  /** The range check on `block_ts` also rejects a block of less than one item, because zero
      minus one wraps around. */
  lemma BlockTsCheck(cfg: XferCfg, width: Width)
    requires cfg.blkSize < U32_RANGE
    ensures BlockTs(cfg, width) > MAX_BLOCK_TS <==> !FitsBlock(cfg, width)
    ensures FitsBlock(cfg, width) ==> BlockTs(cfg, width) + 1 == ItemCount(cfg, width)
  {
    assert ItemCount(cfg, width) <= cfg.blkSize;
  }

  /** The `memset` of a channel's region. */
  method ClearRegion(mem: array<Desc>, start: nat, size: nat)
    requires start + size <= mem.Length
    modifies mem
    ensures forall j | 0 <= j < mem.Length ::
              mem[j] == if start <= j < start + size then ZERO else old(mem[j])
  {
    for k := 0 to size
      invariant forall j | 0 <= j < mem.Length ::
                  mem[j] == if start <= j < start + k then ZERO else old(mem[j])
    {
      mem[start + k] := ZERO;
    }
  }

  /** Program the descriptor at index `at` for `cfg`. */
  method WriteDescriptor(mem: array<Desc>, base: nat, at: nat, cfg: XferCfg, last: bool, f: Format)
    returns (ok: bool)
    requires at < mem.Length && cfg.blkSize < U32_RANGE
    modifies mem
    ensures mem[..] == old(mem[..])[at := mem[at]]
    ensures ok == FitsBlock(cfg, f.srcWidth)
    ensures ok ==> mem[at] == Compiled(cfg, f, base + DESC_SIZE * at, last)
  {
    var memToMem := f.dir == MemToMemDmac;
    var srcBurst := if memToMem then BURST_16 else cfg.srcBurst;
    var dstBurst := if memToMem then BURST_16 else cfg.dstBurst;
    var ctl := Ctl(f.srcWidth, f.dstWidth, srcBurst, dstBurst, true, true, true,
                   false, false, false, false);
    var blockTs := (cfg.blkSize / Bytes(f.srcWidth) - 1) % U64_RANGE;
    mem[at] := Desc(cfg.src, cfg.dst, blockTs, 0, ctl);
    BlockTsCheck(cfg, f.srcWidth);
    if blockTs > MAX_BLOCK_TS {
      return false;
    }
    var llp := base + DESC_SIZE * (at + 1);
    ctl := ctl.(valid := true);
    if last {
      ctl := ctl.(last := true);
      llp := 0;
    }
    if f.dir == MemToPeriDmac || f.dir == MemToPeriDst {
      ctl := ctl.(dinc := true);
    } else if f.dir == PeriToMemDmac || f.dir == PeriToMemSrc {
      ctl := ctl.(sinc := true);
    }
    mem[at] := mem[at].(llp := llp, ctl := ctl);
    return true;
  }

  /** Where a chain is built: `size` slots from index `start` of a memory placed at `base`. */
  datatype Place = Place(base: nat, start: nat, size: nat)

  predicate SameOutside(mem0: seq<Desc>, mem: seq<Desc>, p: Place) {
    && |mem| == |mem0|
    && forall j | 0 <= j < |mem| && !(p.start <= j < p.start + p.size) :: mem[j] == mem0[j]
  }

  /** After `i` passes over a cleared region: `i` descriptors written, the rest of the region
      zero, everything else as it was in `mem0`. */
  ghost predicate Partial(mem0: seq<Desc>, mem: seq<Desc>, p: Place, cfgs: seq<XferCfg>, n: nat,
                          f: Format, i: nat)
  {
    && SameOutside(mem0, mem, p) && p.start + p.size <= |mem|
    && i <= |cfgs| && i <= n <= p.size
    && (forall j | p.start + i <= j < p.start + p.size :: mem[j] == ZERO)
    && forall j | p.start <= j < p.start + i ::
         mem[j] == Compiled(cfgs[j - p.start], f, p.base + DESC_SIZE * j, j - p.start + 1 == n)
  }

  lemma PartialNext(mem0: seq<Desc>, mem: seq<Desc>, p: Place, cfgs: seq<XferCfg>, n: nat,
                    f: Format, i: nat, d: Desc)
    requires Partial(mem0, mem, p, cfgs, n, f, i) && i < |cfgs| && i < n
    requires d == Compiled(cfgs[i], f, p.base + DESC_SIZE * (p.start + i), i + 1 == n)
    ensures Partial(mem0, mem[p.start + i := d], p, cfgs, n, f, i + 1)
  {
  }

  /** A region holding the compiled form of `cfgs` followed by zeroes. */
  ghost predicate IsProgram(region: seq<Desc>, cfgs: seq<XferCfg>, f: Format, here: nat) {
    && |cfgs| <= |region|
    && IsChain(region[..|cfgs|], cfgs, f, here)
    && forall j | |cfgs| <= j < |region| :: region[j] == ZERO
  }

  lemma PartialIsProgram(mem0: seq<Desc>, mem: seq<Desc>, p: Place, cfgs: seq<XferCfg>, f: Format)
    requires Partial(mem0, mem, p, cfgs, |cfgs|, f, |cfgs|)
    ensures IsProgram(mem[p.start..p.start + p.size], cfgs, f, p.base + DESC_SIZE * p.start)
  {
  }

  lemma SameOutsideIsOverlay(mem0: seq<Desc>, mem: seq<Desc>, p: Place)
    requires SameOutside(mem0, mem, p) && p.start + p.size <= |mem|
    ensures mem == Overlay(mem0, p.start, mem[p.start..p.start + p.size])
  {
  }

  /** The loop has followed `i` links to `p` and found blocks of an acceptable size only. */
  ghost predicate Found(pool: seq<XferCfg>, p: Option<nat>, n: nat, i: nat, cfgs: seq<XferCfg>,
                        width: Width)
  {
    && i <= |cfgs| <= n && WellLinked(pool, p) && cfgs[i..] == Follow(pool, p, n - i)
    && forall j | 0 <= j < i :: FitsBlock(cfgs[j], width)
  }

  lemma FoundNext(pool: seq<XferCfg>, p: Option<nat>, n: nat, i: nat, cfgs: seq<XferCfg>,
                  width: Width)
    requires Found(pool, p, n, i, cfgs, width) && i < n && p.Some?
    ensures i < |cfgs| && cfgs[i] == pool[p.value]
    ensures if FitsBlock(cfgs[i], width)
            then Found(pool, pool[p.value].next, n, i + 1, cfgs, width)
            else Verdict(cfgs, n, width) == EINVAL
  {
    assert cfgs[i..][0] == cfgs[i];
    assert cfgs[i + 1..] == cfgs[i..][1..];
  }

  lemma FoundEnd(pool: seq<XferCfg>, p: Option<nat>, n: nat, i: nat, cfgs: seq<XferCfg>,
                 width: Width)
    requires Found(pool, p, n, i, cfgs, width) && (i == n || p.None?)
    ensures |cfgs| == i && Verdict(cfgs, n, width) == if i == n then OK else EFAULT
  {
    assert |cfgs[i..]| == 0;
  }

  /** One pass of the loop, for the node at `p`. */
  method BuildNode(mem: array<Desc>, place: Place, pool: seq<XferCfg>, p: nat, i: nat, n: nat,
                   f: Format, ghost mem0: seq<Desc>, ghost cfgs: seq<XferCfg>) returns (ok: bool)
    requires Found(pool, Some(p), n, i, cfgs, f.srcWidth) && i < n
    requires Partial(mem0, mem[..], place, cfgs, n, f, i)
    requires pool[p].blkSize < U32_RANGE
    modifies mem
    ensures SameOutside(mem0, mem[..], place)
    ensures !ok ==> Verdict(cfgs, n, f.srcWidth) == EINVAL
    ensures ok ==> Found(pool, pool[p].next, n, i + 1, cfgs, f.srcWidth)
    ensures ok ==> Partial(mem0, mem[..], place, cfgs, n, f, i + 1)
  {
    FoundNext(pool, Some(p), n, i, cfgs, f.srcWidth);
    ok := WriteDescriptor(mem, place.base, place.start + i, pool[p], n == i + 1, f);
    if ok {
      PartialNext(mem0, old(mem[..]), place, cfgs, n, f, i, mem[place.start + i]);
    }
  }

  /** The loop of `dma_setup_transfer`: clear the region, then write one descriptor for each
      node while following the links. */
  method BuildChain(mem: array<Desc>, place: Place, pool: seq<XferCfg>, first: Option<nat>, n: nat,
                    f: Format) returns (ret: Ret)
    requires place.start + place.size <= mem.Length && n <= place.size
    requires WellLinked(pool, first)
    requires forall i | 0 <= i < |pool| :: pool[i].blkSize < U32_RANGE
    modifies mem
    ensures SameOutside(old(mem[..]), mem[..], place)
    ensures ret == Verdict(Follow(pool, first, n), n, f.srcWidth)
    ensures ret == OK ==>
              IsProgram(mem[..][place.start..place.start + place.size], Follow(pool, first, n), f,
                        place.base + DESC_SIZE * place.start)
  {
    ghost var cfgs, mem0 := Follow(pool, first, n), mem[..];
    ClearRegion(mem, place.start, place.size);
    var p, i := first, 0;
    while i < n
      invariant Found(pool, p, n, i, cfgs, f.srcWidth)
      invariant Partial(mem0, mem[..], place, cfgs, n, f, i)
    {
      if p.None? {
        FoundEnd(pool, p, n, i, cfgs, f.srcWidth);
        return EFAULT;
      }
      var ok := BuildNode(mem, place, pool, p.value, i, n, f, mem0, cfgs);
      if !ok {
        return EINVAL;
      }
      p, i := pool[p.value].next, i + 1;
    }
    FoundEnd(pool, p, n, i, cfgs, f.srcWidth);
    PartialIsProgram(mem0, mem[..], place, cfgs, f);
    ret := OK;
  }

  // ---------- the compiled chain means what was asked ----------

  predicate AllFit(cfgs: seq<XferCfg>, width: Width) {
    forall i | 0 <= i < |cfgs| :: FitsBlock(cfgs[i], width) && cfgs[i].blkSize < U32_RANGE
  }

  /** The block is one item that the destination takes at once. */
  predicate OneItem(cfg: XferCfg, f: Format) {
    ItemCount(cfg, f.srcWidth) == 1 && Bytes(f.srcWidth) <= Bytes(f.dstWidth)
  }

  predicate SingleItems(cfgs: seq<XferCfg>, f: Format) {
    cfgs == [] || (OneItem(cfgs[0], f) && SingleItems(cfgs[1..], f))
  }

  predicate PeriToPeri(dir: Direction) {
    dir in {PeriToPeriDmac, PeriToPeriSrc, PeriToPeriDst}
  }

  lemma FetchSlot(mem: seq<Desc>, base: nat, j: nat)
    requires j < |mem|
    ensures Fetch(mem, base, base + DESC_SIZE * j) == Some(mem[j])
  {
  }

  /** From descriptor `i` of a chain the hardware reads exactly the rest of it. */
  lemma {:induction false} WalkRest(mem: seq<Desc>, base: nat, start: nat, cfgs: seq<XferCfg>,
                                    f: Format, i: nat, fuel: nat)
    requires i < |cfgs| && start + |cfgs| <= |mem| && fuel >= |cfgs| - i
    requires IsChain(mem[start..start + |cfgs|], cfgs, f, base + DESC_SIZE * start)
    ensures Walk(mem, base, base + DESC_SIZE * (start + i), fuel)
            == Some(mem[start + i..start + |cfgs|])
    decreases |cfgs| - i
  {
    var n := |cfgs|;
    var d := mem[start..start + n][i];
    assert d == mem[start + i];
    FetchSlot(mem, base, start + i);
    if i + 1 < n {
      WalkRest(mem, base, start, cfgs, f, i + 1, fuel - 1);
      assert d.llp == base + DESC_SIZE * (start + i + 1);
      assert [d] + mem[start + i + 1..start + n] == mem[start + i..start + n];
    } else {
      assert [d] == mem[start + i..start + n];
    }
  }

  /** A descriptor as the hardware wants it: valid, marked last exactly at the end, where its link
      is null, with an aligned link, and moving 1 to 0x8000 items, floor(size / width) of them, in
      the bursts asked for, or of 16 items from memory to memory. It reports its completion. */
  predicate IsLink(d: Desc, cfg: XferCfg, f: Format, last: bool) {
    && d.ctl.valid && (d.ctl.last <==> last) && (last ==> d.llp == 0) && d.llp % DESC_SIZE == 0
    && d.blockTs + 1 == ItemCount(cfg, f.srcWidth) && d.blockTs <= MAX_BLOCK_TS
    && (if f.dir.MemToMemDmac? then BurstItems(d.ctl.srcBurst) == BurstItems(d.ctl.dstBurst) == 16
        else d.ctl.srcBurst == cfg.srcBurst && d.ctl.dstBurst == cfg.dstBurst)
    && d.ctl.ioc && d.ctl.srcStat && d.ctl.dstStat
  }

  lemma AlignedSlot(base: nat, k: nat)
    requires base % DESC_SIZE == 0
    ensures (base + DESC_SIZE * k) % DESC_SIZE == 0
  {
    assert base == DESC_SIZE * (base / DESC_SIZE);
    assert base + DESC_SIZE * k == DESC_SIZE * (base / DESC_SIZE + k);
  }

  lemma {:induction false} CompiledIsLink(cfg: XferCfg, f: Format, base: nat, k: nat, last: bool)
    requires base % DESC_SIZE == 0 && cfg.blkSize < U32_RANGE && FitsBlock(cfg, f.srcWidth)
    ensures IsLink(Compiled(cfg, f, base + DESC_SIZE * k, last), cfg, f, last)
  {
    BlockTsCheck(cfg, f.srcWidth);
    AlignedSlot(base, k + 1);
  }

  /** Walking a compiled chain of at least one descriptor terminates: it reads exactly the
      compiled descriptors, and each is as the hardware wants it. */
  lemma {:induction false} ChainWalks(mem: seq<Desc>, base: nat, start: nat, cfgs: seq<XferCfg>,
                                      f: Format, fuel: nat)
    requires cfgs != [] && start + |cfgs| <= |mem| && fuel >= |cfgs| && base % DESC_SIZE == 0
    requires AllFit(cfgs, f.srcWidth)
    requires IsChain(mem[start..start + |cfgs|], cfgs, f, base + DESC_SIZE * start)
    ensures var walked := Walk(mem, base, base + DESC_SIZE * start, fuel);
            && walked.Some? && |walked.value| == |cfgs|
            && forall i | 0 <= i < |cfgs| :: IsLink(walked.value[i], cfgs[i], f, i + 1 == |cfgs|)
  {
    WalkRest(mem, base, start, cfgs, f, 0, fuel);
    var chain := mem[start..start + |cfgs|];
    forall i | 0 <= i < |cfgs|
      ensures IsLink(chain[i], cfgs[i], f, i + 1 == |cfgs|)
    {
      ChainLink(chain, cfgs, f, base, start, i);
    }
  }

  lemma {:induction false} ChainLink(chain: seq<Desc>, cfgs: seq<XferCfg>, f: Format, base: nat,
                                     start: nat, i: nat)
    requires i < |cfgs| && base % DESC_SIZE == 0 && AllFit(cfgs, f.srcWidth)
    requires IsChain(chain, cfgs, f, base + DESC_SIZE * start)
    ensures IsLink(chain[i], cfgs[i], f, i + 1 == |cfgs|)
  {
    assert base + DESC_SIZE * start + DESC_SIZE * i == base + DESC_SIZE * (start + i);
    CompiledIsLink(cfgs[i], f, base, start + i, i + 1 == |cfgs|);
  }

  /** No descriptors at all is accepted too, but that program does not run: the hardware finds
      a descriptor that is not valid. */
  lemma {:induction false} EmptyChainDoesNotRun(mem: seq<Desc>, base: nat, start: nat, fuel: nat)
    requires start < |mem| && mem[start] == ZERO && fuel > 0
    ensures Walk(mem, base, base + DESC_SIZE * start, fuel) == None
  {
    FetchSlot(mem, base, start);
  }

  lemma ModSmall(k: nat, n: nat)
    requires k < n
    ensures k % n == k
  {
  }

  lemma ModSelf(n: nat)
    requires n > 0
    ensures n % n == 0
  {
  }

  lemma AtLeastOne(n: nat, size: nat)
    requires n > 1 && size > 0
    ensures size < n * size
  {
  }

  /** Two registers taken for memory: the bytes go elsewhere unless each takes the block at once. */
  lemma {:induction false} RegistersAsMemory(cfg: XferCfg, f: Format)
    requires ItemCount(cfg, f.srcWidth) > 0
    ensures var n := ItemCount(cfg, f.srcWidth) * Bytes(f.srcWidth);
            Moves(Side(cfg.src, false, f.srcWidth), Side(cfg.dst, false, f.dstWidth), n)
            == Moves(Side(cfg.src, true, f.srcWidth), Side(cfg.dst, true, f.dstWidth), n)
            <==> OneItem(cfg, f)
  {
    var sw, dw, items := Bytes(f.srcWidth), Bytes(f.dstWidth), ItemCount(cfg, f.srcWidth);
    var n := items * sw;
    var s, d := Side(cfg.src, false, f.srcWidth), Side(cfg.dst, false, f.dstWidth);
    var s', d' := Side(cfg.src, true, f.srcWidth), Side(cfg.dst, true, f.dstWidth);
    if items > 1 {
      AtLeastOne(items, sw);
      ModSelf(sw);
      MovesAt(s, d, n, sw);
      MovesAt(s', d', n, sw);
    } else if sw > dw {
      ModSelf(dw);
      MovesAt(s, d, n, dw);
      MovesAt(s', d', n, dw);
    } else {
      forall k | 0 <= k < n ensures Moves(s, d, n)[k] == Moves(s', d', n)[k] {
        MovesAt(s, d, n, k);
        MovesAt(s', d', n, k);
        ModSmall(k, sw);
        ModSmall(k, dw);
      }
    }
  }

  /** A descriptor moves what was asked, unless both sides are peripherals and the block is not a
      single item that fits the destination. */
  lemma {:induction false} BlockMeaning(d: Desc, cfg: XferCfg, f: Format, here: nat, last: bool)
    requires FitsBlock(cfg, f.srcWidth) && cfg.blkSize < U32_RANGE
    requires d == Compiled(cfg, f, here, last)
    ensures |ExecuteBlock(d)| == |AskedBlock(cfg, f)|
    ensures ExecuteBlock(d) == AskedBlock(cfg, f) <==> !PeriToPeri(f.dir) || OneItem(cfg, f)
  {
    BlockTsCheck(cfg, f.srcWidth);
    if PeriToPeri(f.dir) {
      RegistersAsMemory(cfg, f);
    }
  }

  /** Executing a compiled chain moves exactly the bytes asked for, in order, if and only if
      the direction is not peripheral-to-peripheral or every block is a single item that fits the
      destination. The driver sets neither fixed-address bit for that direction. */
  lemma {:induction false} ChainMeaning(chain: seq<Desc>, cfgs: seq<XferCfg>, f: Format, here: nat)
    requires AllFit(cfgs, f.srcWidth) && IsChain(chain, cfgs, f, here)
    ensures Execute(chain) == Asked(cfgs, f)
            <==> !PeriToPeri(f.dir) || SingleItems(cfgs, f)
    decreases |chain|
  {
    if chain != [] {
      var d, cfg := chain[0], cfgs[0];
      IsChainTail(chain, cfgs, f, here);
      BlockMeaning(d, cfg, f, here, |cfgs| == 1);
      ChainMeaning(chain[1..], cfgs[1..], f, here + DESC_SIZE);
      assert Execute(chain) == ExecuteBlock(d) + Execute(chain[1..]);
      assert Asked(cfgs, f)
          == AskedBlock(cfg, f) + Asked(cfgs[1..], f);
      ConcatEqual(ExecuteBlock(d), Execute(chain[1..]),
                  AskedBlock(cfg, f), Asked(cfgs[1..], f));
    }
  }

  /** The two halves together: the program the hardware reads from the start of the region
      terminates and moves what was asked for. */
  lemma {:induction false} ProgramMeaning(mem: seq<Desc>, base: nat, start: nat,
                                          cfgs: seq<XferCfg>, f: Format, fuel: nat,
                                          here: nat, moves: seq<Move>)
    requires cfgs != [] && start + |cfgs| <= |mem| && fuel >= |cfgs|
    requires AllFit(cfgs, f.srcWidth) && !PeriToPeri(f.dir)
    requires here == base + DESC_SIZE * start && moves == Asked(cfgs, f)
    requires IsChain(mem[start..start + |cfgs|], cfgs, f, here)
    ensures RunsAs(mem, base, here, fuel, moves)
  {
    WalkRest(mem, base, start, cfgs, f, 0, fuel);
    ChainMeaning(mem[start..start + |cfgs|], cfgs, f, here);
  }

  lemma {:induction false} ConcatEqual(a: seq<Move>, b: seq<Move>, c: seq<Move>, d: seq<Move>)
    requires |a| == |c|
    ensures a + b == c + d <==> a == c && b == d
  {
    if a + b == c + d {
      assert a == (a + b)[..|a|] == (c + d)[..|a|] == c;
      assert b == (a + b)[|a|..] == (c + d)[|a|..] == d;
    }
  }
}
