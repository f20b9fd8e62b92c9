/** The price pipeline's publication protocol: src/db/database.ts over the store of
    src/store/clickhouseStore.ts.  Every insert of a probed table first asks which keys exist;
    `blocks` is written last; a deferred run stages everything until its publication block. */
module Publication {
  import opened Wrappers
  import opened RowBuffers

  datatype Write = InsertRows(rows: seq<Row>) | SaveCheckpoint(height: int)

  // In the order both `flushAll` and `publishDeferred` write them.
  const PRICES: nat := 0
  const TRADE_VOLUMES: nat := 1
  const ASSETS: nat := 2
  const RUNTIME_UPGRADES: nat := 3
  const RUNTIME_ERROR_NAMES: nat := 4
  const BLOCKS: nat := 5
  const TABLES: nat := 6

  /** Tables whose existing keys are read before an insert; the others replace on their key. */
  predicate Probed(table: nat) { table != ASSETS && table != RUNTIME_ERROR_NAMES }

  /** `fromBlock` and `toBlock` are the command line's, if given; only a run with a last block
      defers its publication, until that block. A block's last row is its row in `blocks`. */
  datatype Config = Config(
    rowsOf: (int, nat) -> seq<Row>,
    full: (nat, seq<Row>, Row) -> bool,
    deferPublication: bool,
    fromBlock: Option<nat>,
    toBlock: Option<nat>)
  {
    ghost predicate Valid() {
      && (forall b, t, r | r in rowsOf(b, t) :: r.table == t && r.height == b)
      && (forall b :: |rowsOf(b, BLOCKS)| == 1)
      && (deferPublication ==> toBlock.Some?)
      && (fromBlock.Some? && toBlock.Some? ==> fromBlock.value <= toBlock.value)
    }

    predicate StartsAtGenesis() { fromBlock == Some(0) }
  }

  // ---------------------------------------------------------------- inserting what is new

  predicate Inserted(log: seq<Write>, r: Row) {
    exists i :: 0 <= i < |log| && log[i].InsertRows? && r in log[i].rows
  }

  /** `uniqueRowsByKey`. */
  function Unique(rows: seq<Row>): seq<Row> {
    if rows == [] then []
    else
      var rest, r := Unique(rows[..|rows| - 1]), rows[|rows| - 1];
      if r in rest then rest else rest + [r]
  }

  /** The rows a probe of the database does not find. */
  function Unseen(log: seq<Write>, rows: seq<Row>): seq<Row> {
    if rows == [] then []
    else
      var rest, r := Unseen(log, rows[..|rows| - 1]), rows[|rows| - 1];
      if Inserted(log, r) then rest else rest + [r]
  }

  /** The rows of a chunk that are inserted. */
  function NewRows(log: seq<Write>, table: nat, chunk: seq<Row>): seq<Row> {
    if Probed(table) then Unseen(log, Unique(chunk)) else Unique(chunk)
  }

  function ChunkWrites(log: seq<Write>, table: nat, chunk: seq<Row>): seq<Write> {
    var rows := NewRows(log, table, chunk);
    if rows == [] then [] else [InsertRows(rows)]
  }

  /** One table's chunks, each probed against everything written before it. */
  function TableWrites(log: seq<Write>, table: nat, chunks: seq<seq<Row>>): seq<Write> {
    if chunks == [] then []
    else
      var before := TableWrites(log, table, chunks[..|chunks| - 1]);
      before + ChunkWrites(log + before, table, chunks[|chunks| - 1])
  }

  /** The first `n` tables, in order. */
  function PublishWrites(cfg: Config, log: seq<Write>, buffers: seq<seq<Row>>, n: nat): seq<Write>
    requires n <= |buffers|
  {
    if n == 0 then []
    else
      var before := PublishWrites(cfg, log, buffers, n - 1);
      before + TableWrites(log + before, n - 1, Chunks(cfg.full, n - 1, buffers[n - 1]))
  }

  /** Everything staged, then the checkpoint. */
  function Publish(cfg: Config, log: seq<Write>, staged: seq<seq<Row>>, height: int): seq<Write> {
    PublishWrites(cfg, log, staged, |staged|) + [SaveCheckpoint(height)]
  }

  // ---------------------------------------------------------------- one transact

  /** `staged` are the deferred lists; without deferral they are empty between transacts. */
  datatype Memory = Memory(staged: seq<seq<Row>>, pendingCheckpoint: Option<int>, published: bool, head: int)

  function Max(x: int, y: int): int { if x > y then x else y }

  function PendingAfter(m: Memory, nextHead: int): int {
    Max(if m.pendingCheckpoint.Some? then m.pendingCheckpoint.value else 0, nextHead)
  }

  predicate Publishes(cfg: Config, m: Memory, nextHead: int) {
    !cfg.deferPublication || (!m.published && cfg.toBlock.Some? && nextHead >= cfg.toBlock.value)
  }

  function Transact(cfg: Config, log: seq<Write>, m: Memory, nextHead: int): (r: (Memory, seq<Write>))
    requires |m.staged| == TABLES
    ensures |r.0.staged| == TABLES && r.0.head == nextHead
  {
    var staged := Buffered(cfg.rowsOf, m.staged, m.head + 1, nextHead);
    var pending := if cfg.deferPublication then Some(PendingAfter(m, nextHead)) else None;
    if !Publishes(cfg, m, nextHead) then (Memory(staged, pending, m.published, nextHead), [])
    else
      (Memory(EmptyBuffers(TABLES), pending, cfg.deferPublication, nextHead),
       Publish(cfg, log, staged, if cfg.deferPublication then pending.value else nextHead))
  }

  /** The two outcomes of a transact. */
  lemma TransactCases(cfg: Config, log: seq<Write>, m: Memory, nextHead: int, staged: seq<seq<Row>>, h: int)
    requires |m.staged| == TABLES && staged == Buffered(cfg.rowsOf, m.staged, m.head + 1, nextHead)
    requires h == if cfg.deferPublication then PendingAfter(m, nextHead) else nextHead
    ensures Transact(cfg, log, m, nextHead).1 == if Publishes(cfg, m, nextHead) then Publish(cfg, log, staged, h) else []
    ensures Transact(cfg, log, m, nextHead).0
         == Memory(if Publishes(cfg, m, nextHead) then EmptyBuffers(TABLES) else staged,
                   if cfg.deferPublication then Some(h) else None,
                   if Publishes(cfg, m, nextHead) then cfg.deferPublication else m.published,
                   nextHead)
  {
  }

  // ---------------------------------------------------------------- lives and crashes

  function CheckpointOf(log: seq<Write>): Option<int> {
    if log == [] then None
    else if log[|log| - 1].SaveCheckpoint? then Some(log[|log| - 1].height) else CheckpointOf(log[..|log| - 1])
  }

  /** `connect`: a genesis run starts over whatever was saved; height 0 stands for no checkpoint. */
  function ResumeHead(cfg: Config, log: seq<Write>): int {
    if cfg.StartsAtGenesis() then -1 else if CheckpointOf(log).Some? then CheckpointOf(log).value else 0
  }

  /** The first block a process is asked for: the command line's, or the checkpoint's, or for an
      unbounded run the chain's head at that moment; 0 when there is none of these. */
  function Asked(cfg: Config, log: seq<Write>, chainHead: Option<nat>): int {
    if cfg.fromBlock.Some? then cfg.fromBlock.value
    else if ResumeHead(cfg, log) > 0 then ResumeHead(cfg, log)
    else if cfg.toBlock.None? && chainHead.Some? then chainHead.value else 0
  }

  /** The processor delivers blocks above the resumed head, and not below the block asked for. */
  function FirstBlock(cfg: Config, log: seq<Write>, chainHead: Option<nat>): int {
    Max(ResumeHead(cfg, log) + 1, Asked(cfg, log, chainHead))
  }

  function Connect(first: int): Memory { Memory(EmptyBuffers(TABLES), None, false, first - 1) }

  /** One process: the chain's head when it started, the heads of the batches it was given, and
      how many of its inserts completed. */
  datatype Life = Life(chainHead: Option<nat>, heads: seq<int>, survived: nat)

  /** A process that begins with block `first`, after these batches. */
  function Lived(cfg: Config, log: seq<Write>, first: int, heads: seq<int>): (r: (Memory, seq<Write>))
    ensures |r.0.staged| == TABLES
  {
    if heads == [] then (Connect(first), [])
    else
      var before := Lived(cfg, log, first, heads[..|heads| - 1]);
      var step := Transact(cfg, log + before.1, before.0, heads[|heads| - 1]);
      (step.0, before.1 + step.1)
  }

  /** Batches arrive in block order and end with the last block asked for. */
  ghost predicate InOrder(cfg: Config, first: int, heads: seq<int>) {
    heads == [] ||
    (var last := heads[|heads| - 1];
     && InOrder(cfg, first, heads[..|heads| - 1])
     && last > HeadAfter(first, heads[..|heads| - 1]) && (cfg.toBlock.Some? ==> last <= cfg.toBlock.value))
  }

  /** Where a process stands after these batches. */
  function HeadAfter(first: int, heads: seq<int>): int {
    if heads == [] then first - 1 else heads[|heads| - 1]
  }

  function LifeWrites(cfg: Config, log: seq<Write>, life: Life): seq<Write> {
    Lived(cfg, log, FirstBlock(cfg, log, life.chainHead), life.heads).1
  }

  function AfterLife(cfg: Config, log: seq<Write>, life: Life): seq<Write> {
    var writes := LifeWrites(cfg, log, life);
    log + if life.survived < |writes| then writes[..life.survived] else writes
  }

  ghost predicate MayLive(cfg: Config, log: seq<Write>, life: Life) {
    InOrder(cfg, FirstBlock(cfg, log, life.chainHead), life.heads)
  }

  ghost predicate IsHistory(cfg: Config, lives: seq<Life>)
    decreases |lives|, 0
  {
    lives == [] || (IsHistory(cfg, lives[..|lives| - 1]) && MayLive(cfg, Disk(cfg, lives[..|lives| - 1]), lives[|lives| - 1]))
  }

  ghost function Disk(cfg: Config, lives: seq<Life>): seq<Write>
    requires IsHistory(cfg, lives)
    decreases |lives|, 1
  {
    if lives == [] then [] else AfterLife(cfg, Disk(cfg, lives[..|lives| - 1]), lives[|lives| - 1])
  }
}
