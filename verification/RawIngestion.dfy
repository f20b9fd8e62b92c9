/** The raw pipeline's durability protocol: src/raw/database.ts over the batches of
    src/raw/store.ts, with the flush triggers of src/raw/flushPolicy.ts.

    Everything that survives a crash is a log of completed inserts, in the order the code awaits
    them; a crash between any two of them leaves a prefix. */
module RawIngestion {
  import opened Wrappers
  import opened RowBuffers

  datatype Write =
    | InsertRows(rows: seq<Row>)
    | SaveCheckpoint(height: int)
    | CompleteRange

  datatype Range = Range(fromBlock: int, toBlock: int)

  datatype Limits = Limits(blocks: int, rows: int, elapsedMs: int)

  /** `fromBlock` is the command line's first block, if given; `rowsOf` what one block yields in
      one table, the first table being `raw_blocks`; `full` closes an insert chunk. */
  datatype Config = Config(
    tables: nat,
    rowsOf: (int, nat) -> seq<Row>,
    full: (nat, seq<Row>, Row) -> bool,
    range: Option<Range>,
    fromBlock: Option<nat>,
    limits: Limits)
  {
    ghost predicate Valid() {
      && 1 <= tables
      && (forall b :: |rowsOf(b, 0)| == 1)
      && (forall b, t, r | r in rowsOf(b, t) :: r.table == t && r.height == b)
      && (range.Some? ==> fromBlock.Some? && fromBlock.value == range.value.fromBlock <= range.value.toBlock)
    }
  }

  /** What a batch brings: the new head, whether it is the chain's, and the two clock readings. */
  datatype Info = Info(nextHead: int, isOnTop: bool, now: int, flushedAt: int)

  /** The process's state: one buffer per table, and the height delivered so far. */
  datatype Memory = Memory(buffers: seq<seq<Row>>, rangeFinalized: bool, lastFlushAt: int, head: int)

  // ---------------------------------------------------------------- flush policy

  datatype FlushState = FlushState(pendingBlocks: nat, pendingRows: nat, msSinceLastFlush: int, atChainHead: bool, reachedRangeEnd: bool)

  predicate ShouldFlush(s: FlushState, limits: Limits) {
    || s.atChainHead || s.reachedRangeEnd
    || s.pendingBlocks >= limits.blocks || s.pendingRows >= limits.rows || s.msSinceLastFlush >= limits.elapsedMs
  }

  /** Size of the largest buffer. */
  function PendingRows(buffers: seq<seq<Row>>): nat {
    if buffers == [] then 0
    else
      var rest, last := PendingRows(buffers[..|buffers| - 1]), |buffers[|buffers| - 1]|;
      if last > rest then last else rest
  }

  predicate ReachedEnd(cfg: Config, info: Info) { cfg.range.Some? && info.nextHead >= cfg.range.value.toBlock }

  function PolicyState(cfg: Config, buffers: seq<seq<Row>>, lastFlushAt: int, info: Info): FlushState
    requires buffers != []
  {
    FlushState(|buffers[0]|, PendingRows(buffers), info.now - lastFlushAt, info.isOnTop, ReachedEnd(cfg, info))
  }

  // ---------------------------------------------------------------- buffering and flushing

  function Inserts(chunks: seq<seq<Row>>): seq<Write> {
    if chunks == [] then [] else Inserts(chunks[..|chunks| - 1]) + [InsertRows(chunks[|chunks| - 1])]
  }

  /** `flushAll` over the first `n` tables. */
  function FlushWrites(cfg: Config, buffers: seq<seq<Row>>, n: nat): seq<Write>
    requires n <= |buffers|
  {
    if n == 0 then [] else FlushWrites(cfg, buffers, n - 1) + Inserts(Chunks(cfg.full, n - 1, buffers[n - 1]))
  }

  /** What a flushing transact writes: all rows, then the checkpoint, then the completed range. */
  function FlushAndSave(cfg: Config, buffers: seq<seq<Row>>, head: int, finalizes: bool): seq<Write> {
    FlushWrites(cfg, buffers, |buffers|) + [SaveCheckpoint(head)] + if finalizes then [CompleteRange] else []
  }

  // ---------------------------------------------------------------- one transact

  predicate Flushes(cfg: Config, m: Memory, info: Info)
    requires m.buffers != []
  {
    ShouldFlush(PolicyState(cfg, Buffered(cfg.rowsOf, m.buffers, m.head + 1, info.nextHead), m.lastFlushAt, info), cfg.limits)
  }

  /** `transact`: the process's next state, and what it makes durable, in order. */
  function Transact(cfg: Config, m: Memory, info: Info): (r: (Memory, seq<Write>))
    requires m.buffers != []
    ensures |r.0.buffers| == |m.buffers| && r.0.head == info.nextHead
  {
    var buffers := Buffered(cfg.rowsOf, m.buffers, m.head + 1, info.nextHead);
    if !Flushes(cfg, m, info) then (m.(buffers := buffers, head := info.nextHead), [])
    else
      var finalizes := ReachedEnd(cfg, info) && !m.rangeFinalized;
      (Memory(EmptyBuffers(|buffers|), m.rangeFinalized || finalizes, info.flushedAt, info.nextHead),
       FlushAndSave(cfg, buffers, info.nextHead, finalizes))
  }

  // ---------------------------------------------------------------- connecting

  /** `getIngestionState`: the newest checkpoint, if any. */
  function CheckpointOf(log: seq<Write>): Option<int> {
    if log == [] then None
    else if log[|log| - 1].SaveCheckpoint? then Some(log[|log| - 1].height) else CheckpointOf(log[..|log| - 1])
  }

  /** `rawResumeHead`: height 0 stands for a missing checkpoint, except for a new genesis range. */
  function ResumeHead(cfg: Config, checkpoint: Option<int>): int {
    if cfg.range.Some? && cfg.range.value.fromBlock == 0 && checkpoint.None? then -1
    else if checkpoint.Some? then checkpoint.value else 0
  }

  /** The first block a process is asked for: the command line's, or the checkpoint's, or the
      chain's head at that moment, or 0 when the head cannot be resolved. */
  function Asked(cfg: Config, log: seq<Write>, chainHead: Option<nat>): int {
    var resumed := ResumeHead(cfg, CheckpointOf(log));
    if cfg.fromBlock.Some? then cfg.fromBlock.value
    else if resumed > 0 then resumed
    else if chainHead.Some? then chainHead.value else 0
  }

  /** The processor delivers blocks above the resumed head, and not below the block asked for. */
  function FirstBlock(cfg: Config, log: seq<Write>, chainHead: Option<nat>): int {
    var next, asked := ResumeHead(cfg, CheckpointOf(log)) + 1, Asked(cfg, log, chainHead);
    if next < asked then asked else next
  }

  /** `runRaw`: a worker whose checkpoint already reached its range end only finalises. */
  predicate OnlyFinalizes(cfg: Config, log: seq<Write>) {
    cfg.range.Some? && ResumeHead(cfg, CheckpointOf(log)) >= cfg.range.value.toBlock
  }

  function Connect(cfg: Config, log: seq<Write>, chainHead: Option<nat>, now: int): Memory {
    Memory(EmptyBuffers(cfg.tables), OnlyFinalizes(cfg, log), now, FirstBlock(cfg, log, chainHead) - 1)
  }

  // ---------------------------------------------------------------- lives and crashes

  /** One process from its connect to its crash: the chain's head when it started, the batches it
      was given, and how many of its inserts had completed when it died. */
  datatype Life = Life(chainHead: Option<nat>, startedAt: int, batches: seq<Info>, survived: nat)

  /** The process after its first `n` batches, and everything it wrote. */
  function Lived(cfg: Config, log: seq<Write>, life: Life, n: nat): (r: (Memory, seq<Write>))
    requires n <= |life.batches| && 1 <= cfg.tables
    ensures |r.0.buffers| == cfg.tables
    decreases n
  {
    if n == 0 then
      (Connect(cfg, log, life.chainHead, life.startedAt), if OnlyFinalizes(cfg, log) then [CompleteRange] else [])
    else
      var (m, writes) := Lived(cfg, log, life, n - 1);
      var (m', more) := Transact(cfg, m, life.batches[n - 1]);
      (m', writes + more)
  }

  function LifeWrites(cfg: Config, log: seq<Write>, life: Life): seq<Write>
    requires 1 <= cfg.tables
  {
    Lived(cfg, log, life, |life.batches|).1
  }

  /** Batches arrive in block order and within the range; a finished worker gets none. */
  ghost predicate InOrder(cfg: Config, log: seq<Write>, life: Life) {
    && (OnlyFinalizes(cfg, log) ==> life.batches == [])
    && (forall i {:trigger IsNext(cfg, log, life, i)} | 0 <= i < |life.batches| :: IsNext(cfg, log, life, i))
  }

  predicate IsNext(cfg: Config, log: seq<Write>, life: Life, i: nat)
    requires i < |life.batches|
  {
    && life.batches[i].nextHead > HeadBefore(cfg, log, life, i)
    && (cfg.range.Some? ==> life.batches[i].nextHead <= cfg.range.value.toBlock)
  }

  /** Where a process stands before its batch `n`. */
  function HeadBefore(cfg: Config, log: seq<Write>, life: Life, n: nat): int
    requires n <= |life.batches|
  {
    if n == 0 then FirstBlock(cfg, log, life.chainHead) - 1 else life.batches[n - 1].nextHead
  }

  /** The disk after one life: a crash keeps an arbitrary prefix of what the life wrote. */
  function AfterLife(cfg: Config, log: seq<Write>, life: Life): seq<Write>
    requires 1 <= cfg.tables
  {
    var writes := LifeWrites(cfg, log, life);
    log + if life.survived < |writes| then writes[..life.survived] else writes
  }

  ghost predicate IsHistory(cfg: Config, lives: seq<Life>)
    requires 1 <= cfg.tables
    decreases |lives|, 0
  {
    lives == [] || (IsHistory(cfg, lives[..|lives| - 1]) && InOrder(cfg, Disk(cfg, lives[..|lives| - 1]), lives[|lives| - 1]))
  }

  ghost function Disk(cfg: Config, lives: seq<Life>): seq<Write>
    requires 1 <= cfg.tables && IsHistory(cfg, lives)
    decreases |lives|, 1
  {
    if lives == [] then [] else AfterLife(cfg, Disk(cfg, lives[..|lives| - 1]), lives[|lives| - 1])
  }
}
