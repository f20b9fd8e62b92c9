/** What the price pipeline's publication protocol promises. */
module PublicationProofs {
  import opened Wrappers
  import opened RowBuffers
  import opened Publication

  /** Every row of a block in the tables below `n` is on disk. */
  ghost predicate DurableBelow(cfg: Config, log: seq<Write>, b: int, n: nat) {
    forall t, r | 0 <= t < n && r in cfg.rowsOf(b, t) :: Inserted(log, r)
  }

  /** No row is inserted twice into a table where that would double it, or the candle volumes its
      views add up: neither within one insert nor across inserts. */
  ghost predicate FirstTime(log: seq<Write>, rows: seq<Row>) {
    && Distinct(rows)
    && (forall r | r in rows && (r.table == PRICES || r.table == TRADE_VOLUMES || r.table == RUNTIME_UPGRADES || r.table == BLOCKS) ::
          !Inserted(log, r))
  }

  /** A visible `blocks` row means everything else of that block is visible. */
  ghost predicate Watermark(cfg: Config, log: seq<Write>, rows: seq<Row>) {
    forall r {:trigger DurableBelow(cfg, log, r.height, BLOCKS)} | r in rows && r.table == BLOCKS ::
      DurableBelow(cfg, log, r.height, BLOCKS)
  }

  ghost predicate DurableFrom(cfg: Config, log: seq<Write>, first: int, last: int) {
    forall b {:trigger DurableBelow(cfg, log, b, TABLES)} | first <= b <= last :: DurableBelow(cfg, log, b, TABLES)
  }

  /** A checkpoint covers every block from `from` on. */
  ghost predicate MayFollow(cfg: Config, from: int, log: seq<Write>, w: Write) {
    match w
    case InsertRows(rows) => FirstTime(log, rows) && Watermark(cfg, log, rows)
    case SaveCheckpoint(h) => from <= h && DurableFrom(cfg, log, from, h)
  }

  ghost predicate Safe(cfg: Config, from: int, log: seq<Write>) {
    forall i {:trigger SafeAt(cfg, from, log, i)} | 0 <= i < |log| :: SafeAt(cfg, from, log, i)
  }

  ghost predicate SafeAt(cfg: Config, from: int, log: seq<Write>, i: nat)
    requires i < |log|
  {
    MayFollow(cfg, from, log[..i], log[i])
  }

  ghost predicate Distinct(rows: seq<Row>) { forall i, j | 0 <= i < j < |rows| :: rows[i] != rows[j] }

  lemma {:induction false} UniqueKeepsOne(rows: seq<Row>)
    ensures Distinct(Unique(rows)) && forall r :: r in Unique(rows) <==> r in rows
  {
    if rows != [] {
      UniqueKeepsOne(rows[..|rows| - 1]);
      assert rows == rows[..|rows| - 1] + [rows[|rows| - 1]];
    }
  }

  lemma {:induction false} UnseenFilters(log: seq<Write>, rows: seq<Row>)
    requires Distinct(rows)
    ensures Distinct(Unseen(log, rows)) && forall r :: r in Unseen(log, rows) <==> r in rows && !Inserted(log, r)
  {
    if rows != [] {
      UnseenFilters(log, rows[..|rows| - 1]);
      assert rows == rows[..|rows| - 1] + [rows[|rows| - 1]];
    }
  }

  /** One row per key, and none that a probe already found. */
  lemma NewRowsAreNew(log: seq<Write>, table: nat, chunk: seq<Row>)
    ensures Distinct(NewRows(log, table, chunk))
    ensures forall r :: r in NewRows(log, table, chunk) <==> r in chunk && !(Probed(table) && Inserted(log, r))
  {
    UniqueKeepsOne(chunk);
    UnseenFilters(log, Unique(chunk));
  }

  lemma InsertedGrows(log: seq<Write>, more: seq<Write>, r: Row)
    ensures Inserted(log + more, r) <==> Inserted(log, r) || Inserted(more, r)
  {
    var all := log + more;
    if Inserted(log, r) {
      var i :| 0 <= i < |log| && log[i].InsertRows? && r in log[i].rows;
      assert all[i] == log[i];
    }
    if Inserted(more, r) {
      var i :| 0 <= i < |more| && more[i].InsertRows? && r in more[i].rows;
      assert all[|log| + i] == more[i];
    }
    if Inserted(all, r) {
      var i :| 0 <= i < |all| && all[i].InsertRows? && r in all[i].rows;
      if i < |log| { assert all[i] == log[i]; } else { assert all[i] == more[i - |log|]; }
    }
  }

  lemma DurableGrows(cfg: Config, log: seq<Write>, more: seq<Write>, b: int, n: nat)
    requires DurableBelow(cfg, log, b, n)
    ensures DurableBelow(cfg, log + more, b, n)
  {
    forall t, r | 0 <= t < n && r in cfg.rowsOf(b, t) ensures Inserted(log + more, r) {
      InsertedGrows(log, more, r);
    }
  }

  lemma SafePrefix(cfg: Config, from: int, log: seq<Write>, n: nat)
    requires Safe(cfg, from, log) && n <= |log|
    ensures Safe(cfg, from, log[..n])
  {
    forall i | 0 <= i < n ensures SafeAt(cfg, from, log[..n], i) {
      assert SafeAt(cfg, from, log, i);
      assert log[..n][..i] == log[..i] && log[..n][i] == log[i];
    }
  }

  lemma SafeExtends(cfg: Config, from: int, log: seq<Write>, w: Write)
    requires Safe(cfg, from, log) && MayFollow(cfg, from, log, w)
    ensures Safe(cfg, from, log + [w])
  {
    var all := log + [w];
    forall i | 0 <= i < |all| ensures SafeAt(cfg, from, all, i) {
      if i < |log| { assert SafeAt(cfg, from, log, i) && all[..i] == log[..i]; } else { assert all[..i] == log; }
    }
  }

  // ---------------------------------------------------------------- publishing one table

  /** A table's buffer holds rows of delivered blocks only. */
  ghost predicate OwnRows(cfg: Config, table: nat, rows: seq<Row>) {
    forall r | r in rows :: r.table == table && r in cfg.rowsOf(r.height, table)
  }

  /** The blocks of these rows are complete in the tables before `blocks`. */
  ghost predicate Completed(cfg: Config, log: seq<Write>, table: nat, rows: seq<Row>) {
    table == BLOCKS ==> Watermark(cfg, log, rows)
  }

  /** Rows of one table that may be inserted now. */
  ghost predicate MayInsert(cfg: Config, log: seq<Write>, table: nat, rows: seq<Row>) {
    forall r | r in rows :: r.table == table && (table == BLOCKS ==> DurableBelow(cfg, log, r.height, BLOCKS))
  }

  ghost predicate ChunksInserted(log: seq<Write>, chunks: seq<seq<Row>>) {
    forall i {:trigger BufferInserted(log, chunks[i])} | 0 <= i < |chunks| :: BufferInserted(log, chunks[i])
  }

  lemma {:induction false} TableIsSafe(cfg: Config, from: int, log: seq<Write>, table: nat, chunks: seq<seq<Row>>)
    requires Safe(cfg, from, log) && forall i | 0 <= i < |chunks| :: MayInsert(cfg, log, table, chunks[i])
    ensures Safe(cfg, from, log + TableWrites(log, table, chunks))
    ensures ChunksInserted(log + TableWrites(log, table, chunks), chunks)
  {
    if chunks == [] {
      assert log + [] == log;
    } else {
      var front, chunk := chunks[..|chunks| - 1], chunks[|chunks| - 1];
      TableIsSafe(cfg, from, log, table, front);
      NextChunkIsSafe(cfg, from, log, table, front, chunk);
      assert chunks == front + [chunk];
    }
  }

  lemma NextChunkIsSafe(cfg: Config, from: int, log: seq<Write>, table: nat, front: seq<seq<Row>>, chunk: seq<Row>)
    requires Safe(cfg, from, log + TableWrites(log, table, front)) && ChunksInserted(log + TableWrites(log, table, front), front)
    requires MayInsert(cfg, log, table, chunk)
    ensures Safe(cfg, from, log + TableWrites(log, table, front + [chunk]))
    ensures ChunksInserted(log + TableWrites(log, table, front + [chunk]), front + [chunk])
  {
    var before := TableWrites(log, table, front);
    ChunkIsSafe(cfg, from, log, before, table, chunk);
    ChunksInsertedGrow(log + before, ChunkWrites(log + before, table, chunk), front, chunk);
    NextChunkWrites(log, table, front, chunk);
  }

  lemma NextChunkWrites(log: seq<Write>, table: nat, front: seq<seq<Row>>, chunk: seq<Row>)
    ensures var at := log + TableWrites(log, table, front);
            log + TableWrites(log, table, front + [chunk]) == at + ChunkWrites(at, table, chunk)
  {
    var before := TableWrites(log, table, front);
    assert (front + [chunk])[..|front|] == front;
    Associate(log, before, ChunkWrites(log + before, table, chunk));
  }

  lemma ChunksInsertedGrow(log: seq<Write>, more: seq<Write>, front: seq<seq<Row>>, chunk: seq<Row>)
    requires ChunksInserted(log, front) && BufferInserted(log + more, chunk)
    ensures ChunksInserted(log + more, front + [chunk])
  {
    forall i | 0 <= i < |front| ensures BufferInserted(log + more, front[i]) {
      BufferInsertedGrows(log, more, front[i]);
    }
  }

  /** Inserting the new rows of one chunk, after `before`, is safe. */
  lemma ChunkIsSafe(cfg: Config, from: int, log: seq<Write>, before: seq<Write>, table: nat, chunk: seq<Row>)
    requires Safe(cfg, from, log + before) && MayInsert(cfg, log, table, chunk)
    ensures Safe(cfg, from, (log + before) + ChunkWrites(log + before, table, chunk))
    ensures BufferInserted((log + before) + ChunkWrites(log + before, table, chunk), chunk)
  {
    var rows := NewRows(log + before, table, chunk);
    NewRowsAreNew(log + before, table, chunk);
    var own := ChunkWrites(log + before, table, chunk);
    if rows == [] {
      assert (log + before) + [] == log + before;
    } else {
      forall r | r in rows && r.table == BLOCKS ensures DurableBelow(cfg, log + before, r.height, BLOCKS) {
        DurableGrows(cfg, log, before, r.height, BLOCKS);
      }
      SafeExtends(cfg, from, log + before, InsertRows(rows));
    }
    forall r | r in chunk ensures Inserted((log + before) + own, r) {
      InsertedGrows(log + before, own, r);
      if !Inserted(log + before, r) { assert own[0] == InsertRows(rows) && r in rows; }
    }
  }

  // ---------------------------------------------------------------- publishing everything

  /** The staged rows belong to delivered blocks, and no delivered row is missing. */
  ghost predicate Staged(cfg: Config, from: int, log: seq<Write>, m: Memory) {
    && |m.staged| == TABLES
    && (forall t {:trigger OwnRows(cfg, t, m.staged[t])} | 0 <= t < TABLES :: OwnRows(cfg, t, m.staged[t]))
    && (forall t, r | 0 <= t < TABLES && r in m.staged[t] :: from <= r.height <= m.head)
    && (forall b {:trigger Reachable(cfg, log, m.staged, b)} | from <= b <= m.head :: Reachable(cfg, log, m.staged, b))
  }

  ghost predicate Reachable(cfg: Config, log: seq<Write>, staged: seq<seq<Row>>, b: int)
    requires |staged| == TABLES
  {
    forall t, r | 0 <= t < TABLES && r in cfg.rowsOf(b, t) :: Inserted(log, r) || r in staged[t]
  }

  ghost predicate BufferInserted(log: seq<Write>, buffer: seq<Row>) { forall r | r in buffer :: Inserted(log, r) }

  lemma BufferChunks(cfg: Config, table: nat, buffer: seq<Row>)
    ensures forall c, r | c in Chunks(cfg.full, table, buffer) && r in c :: r in buffer
    ensures forall r | r in buffer :: InChunks(Chunks(cfg.full, table, buffer), r)
  {
    forall c, r | c in Chunks(cfg.full, table, buffer) && r in c ensures r in buffer {
      ChunksHoldOnly(cfg.full, table, buffer, r);
    }
    forall r | r in buffer ensures InChunks(Chunks(cfg.full, table, buffer), r) {
      ChunksHoldAll(cfg.full, table, buffer, r);
    }
  }

  lemma OneTable(cfg: Config, from: int, log: seq<Write>, table: nat, buffer: seq<Row>)
    requires Safe(cfg, from, log) && OwnRows(cfg, table, buffer) && Completed(cfg, log, table, buffer)
    ensures var writes := TableWrites(log, table, Chunks(cfg.full, table, buffer));
            Safe(cfg, from, log + writes) && BufferInserted(log + writes, buffer)
  {
    var chunks := Chunks(cfg.full, table, buffer);
    BufferChunks(cfg, table, buffer);
    forall i | 0 <= i < |chunks| ensures MayInsert(cfg, log, table, chunks[i]) {
      forall r | r in chunks[i] ensures r in buffer { assert chunks[i] in chunks; }
    }
    TableIsSafe(cfg, from, log, table, chunks);
    forall r | r in buffer ensures Inserted(log + TableWrites(log, table, chunks), r) {
      assert InChunks(chunks, r);
      var i :| 0 <= i < |chunks| && r in chunks[i];
      assert BufferInserted(log + TableWrites(log, table, chunks), chunks[i]);
    }
  }

  lemma BufferInsertedGrows(log: seq<Write>, more: seq<Write>, buffer: seq<Row>)
    requires BufferInserted(log, buffer)
    ensures BufferInserted(log + more, buffer)
  {
    forall r | r in buffer ensures Inserted(log + more, r) { InsertedGrows(log, more, r); }
  }

  ghost predicate AllInserted(log: seq<Write>, buffers: seq<seq<Row>>, n: nat)
    requires n <= |buffers|
  {
    forall t {:trigger BufferInserted(log, buffers[t])} | 0 <= t < n :: BufferInserted(log, buffers[t])
  }

  /** After the first `n` tables every one of their staged rows is on disk. */
  lemma {:induction false} TablesAreSafe(cfg: Config, from: int, log: seq<Write>, m: Memory, n: nat)
    requires Safe(cfg, from, log) && Staged(cfg, from, log, m) && n <= TABLES
    ensures Safe(cfg, from, log + PublishWrites(cfg, log, m.staged, n))
    ensures AllInserted(log + PublishWrites(cfg, log, m.staged, n), m.staged, n)
  {
    if n == 0 {
      assert log + [] == log;
    } else {
      var t := n - 1;
      TablesAreSafe(cfg, from, log, m, t);
      NextIsSafe(cfg, from, log, m, t);
    }
  }

  lemma NextIsSafe(cfg: Config, from: int, log: seq<Write>, m: Memory, t: nat)
    requires Staged(cfg, from, log, m) && t < TABLES
    requires Safe(cfg, from, log + PublishWrites(cfg, log, m.staged, t))
    requires AllInserted(log + PublishWrites(cfg, log, m.staged, t), m.staged, t)
    ensures Safe(cfg, from, log + PublishWrites(cfg, log, m.staged, t + 1))
    ensures AllInserted(log + PublishWrites(cfg, log, m.staged, t + 1), m.staged, t + 1)
  {
    var before := PublishWrites(cfg, log, m.staged, t);
    assert OwnRows(cfg, t, m.staged[t]);
    if t == BLOCKS { BlocksAreCompleted(cfg, from, log, m, before); }
    NextTableIsSafe(cfg, from, log + before, m.staged, t);
    NextTableWrites(cfg, log, m.staged, t);
  }

  lemma NextTableWrites(cfg: Config, log: seq<Write>, staged: seq<seq<Row>>, t: nat)
    requires t < |staged|
    ensures var at := log + PublishWrites(cfg, log, staged, t);
            log + PublishWrites(cfg, log, staged, t + 1) == at + TableWrites(at, t, Chunks(cfg.full, t, staged[t]))
  {
    var before := PublishWrites(cfg, log, staged, t);
    Associate(log, before, TableWrites(log + before, t, Chunks(cfg.full, t, staged[t])));
  }

  lemma NextTableIsSafe(cfg: Config, from: int, at: seq<Write>, staged: seq<seq<Row>>, t: nat)
    requires t < |staged| && Safe(cfg, from, at) && AllInserted(at, staged, t)
    requires OwnRows(cfg, t, staged[t]) && Completed(cfg, at, t, staged[t])
    ensures var own := TableWrites(at, t, Chunks(cfg.full, t, staged[t]));
            Safe(cfg, from, at + own) && AllInserted(at + own, staged, t + 1)
  {
    var own := TableWrites(at, t, Chunks(cfg.full, t, staged[t]));
    OneTable(cfg, from, at, t, staged[t]);
    forall u | 0 <= u < t + 1 ensures BufferInserted(at + own, staged[u]) {
      if u < t { BufferInsertedGrows(at, own, staged[u]); }
    }
  }

  lemma BlocksAreCompleted(cfg: Config, from: int, log: seq<Write>, m: Memory, before: seq<Write>)
    requires Staged(cfg, from, log, m) && AllInserted(log + before, m.staged, BLOCKS)
    ensures Completed(cfg, log + before, BLOCKS, m.staged[BLOCKS])
  {
    forall x | x in m.staged[BLOCKS] ensures DurableBelow(cfg, log + before, x.height, BLOCKS) {
      assert Reachable(cfg, log, m.staged, x.height);
      forall t, r | 0 <= t < BLOCKS && r in cfg.rowsOf(x.height, t) ensures Inserted(log + before, r) {
        InsertedGrows(log, before, r);
        assert BufferInserted(log + before, m.staged[t]);
      }
    }
  }

  lemma PublishingIsSafe(cfg: Config, from: int, log: seq<Write>, m: Memory)
    requires Safe(cfg, from, log) && Staged(cfg, from, log, m)
    ensures var all := log + PublishWrites(cfg, log, m.staged, |m.staged|);
            Safe(cfg, from, all) && DurableFrom(cfg, all, from, m.head)
  {
    TablesAreSafe(cfg, from, log, m, TABLES);
    var writes := PublishWrites(cfg, log, m.staged, |m.staged|);
    forall b | from <= b <= m.head ensures DurableBelow(cfg, log + writes, b, TABLES) {
      assert Reachable(cfg, log, m.staged, b);
      forall t, r | 0 <= t < TABLES && r in cfg.rowsOf(b, t) ensures Inserted(log + writes, r) {
        InsertedGrows(log, writes, r);
        assert BufferInserted(log + writes, m.staged[t]);
      }
    }
  }

  // ---------------------------------------------------------------- what a process keeps

  ghost predicate Keeps(cfg: Config, from: int, log: seq<Write>, m: Memory) {
    && Safe(cfg, from, log) && Staged(cfg, from, log, m) && -1 <= m.head && from <= m.head + 1
    && (m.pendingCheckpoint.Some? ==> m.pendingCheckpoint.value <= Max(0, m.head))
  }

  lemma StagingKeeps(cfg: Config, from: int, log: seq<Write>, m: Memory, nextHead: int)
    requires cfg.Valid() && Staged(cfg, from, log, m) && m.head < nextHead && from <= m.head + 1
    ensures Staged(cfg, from, log, m.(staged := Buffered(cfg.rowsOf, m.staged, m.head + 1, nextHead), head := nextHead))
  {
    var staged := Buffered(cfg.rowsOf, m.staged, m.head + 1, nextHead);
    forall t | 0 <= t < TABLES
      ensures OwnRows(cfg, t, staged[t]) && forall r: Row | r in staged[t] :: from <= r.height <= nextHead
    {
      assert OwnRows(cfg, t, m.staged[t]);
      BlockRowsAreOwn(cfg, t, m.head + 1, nextHead);
    }
    forall b | from <= b <= nextHead ensures Reachable(cfg, log, staged, b) {
      forall t, r | 0 <= t < TABLES && r in cfg.rowsOf(b, t) ensures Inserted(log, r) || r in staged[t] {
        if b <= m.head {
          assert Reachable(cfg, log, m.staged, b);
        } else {
          BlockRowsHoldAll(cfg.rowsOf, t, m.head + 1, nextHead, b, r);
        }
      }
    }
  }

  lemma {:induction false} BlockRowsAreOwn(cfg: Config, t: nat, first: int, last: int)
    requires cfg.Valid()
    ensures forall r | r in BlockRows(cfg.rowsOf, t, first, last) :: r.table == t && first <= r.height <= last && r in cfg.rowsOf(r.height, t)
    decreases last - first
  {
    if first <= last { BlockRowsAreOwn(cfg, t, first, last - 1); }
  }

  lemma StagedGrows(cfg: Config, from: int, log: seq<Write>, more: seq<Write>, m: Memory)
    requires Staged(cfg, from, log, m)
    ensures Staged(cfg, from, log + more, m)
  {
    forall b | from <= b <= m.head ensures Reachable(cfg, log + more, m.staged, b) {
      assert Reachable(cfg, log, m.staged, b);
      forall t, r | 0 <= t < TABLES && r in cfg.rowsOf(b, t) ensures Inserted(log + more, r) || r in m.staged[t] {
        InsertedGrows(log, more, r);
      }
    }
  }

  /** Once all delivered blocks are durable nothing needs to stay staged. */
  lemma NothingStaged(cfg: Config, from: int, log: seq<Write>, m: Memory)
    requires m.staged == EmptyBuffers(TABLES) && DurableFrom(cfg, log, from, m.head)
    ensures Staged(cfg, from, log, m)
  {
    forall b | from <= b <= m.head ensures Reachable(cfg, log, m.staged, b) {
      assert DurableBelow(cfg, log, b, TABLES);
    }
  }

  lemma PublicationKeeps(cfg: Config, from: int, log: seq<Write>, m: Memory, h: int, m': Memory)
    requires Safe(cfg, from, log) && Staged(cfg, from, log, m) && from <= h <= m.head
    requires m'.staged == EmptyBuffers(TABLES) && m'.head == m.head
    ensures Safe(cfg, from, log + Publish(cfg, log, m.staged, h)) && Staged(cfg, from, log + Publish(cfg, log, m.staged, h), m')
  {
    PublishingIsSafe(cfg, from, log, m);
    var writes := PublishWrites(cfg, log, m.staged, |m.staged|);
    SafeExtends(cfg, from, log + writes, SaveCheckpoint(h));
    NothingStaged(cfg, from, log + writes, m');
    StagedGrows(cfg, from, log + writes, [SaveCheckpoint(h)], m');
    Associate(log, writes, [SaveCheckpoint(h)]);
  }

  lemma TransactKeeps(cfg: Config, from: int, log: seq<Write>, m: Memory, nextHead: int)
    requires cfg.Valid() && Keeps(cfg, from, log, m) && m.head < nextHead
    ensures Keeps(cfg, from, log + Transact(cfg, log, m, nextHead).1, Transact(cfg, log, m, nextHead).0)
  {
    StagingKeeps(cfg, from, log, m, nextHead);
    var staged := m.(staged := Buffered(cfg.rowsOf, m.staged, m.head + 1, nextHead), head := nextHead);
    var h := if cfg.deferPublication then PendingAfter(m, nextHead) else nextHead;
    TransactCases(cfg, log, m, nextHead, staged.staged, h);
    var after := Transact(cfg, log, m, nextHead).0;
    if Publishes(cfg, m, nextHead) {
      PublicationKeeps(cfg, from, log, staged, h, after);
    } else {
      assert log + [] == log;
      StagedIgnoresFlags(cfg, from, log, staged, after);
    }
  }

  lemma StagedIgnoresFlags(cfg: Config, from: int, log: seq<Write>, m: Memory, m': Memory)
    requires Staged(cfg, from, log, m) && m.staged == m'.staged && m.head == m'.head
    ensures Staged(cfg, from, log, m')
  {
  }

  lemma DurableFromGrows(cfg: Config, log: seq<Write>, more: seq<Write>, first: int, last: int)
    requires DurableFrom(cfg, log, first, last)
    ensures DurableFrom(cfg, log + more, first, last)
  {
    forall b | first <= b <= last ensures DurableBelow(cfg, log + more, b, TABLES) { DurableGrows(cfg, log, more, b, TABLES); }
  }

  lemma {:induction false} CheckpointIsDurable(cfg: Config, from: int, log: seq<Write>)
    requires Safe(cfg, from, log) && CheckpointOf(log).Some?
    ensures from <= CheckpointOf(log).value && DurableFrom(cfg, log, from, CheckpointOf(log).value)
  {
    var n := |log| - 1;
    assert log == log[..n] + [log[n]];
    if log[n].SaveCheckpoint? {
      assert SafeAt(cfg, from, log, n);
    } else {
      SafePrefix(cfg, from, log, n);
      CheckpointIsDurable(cfg, from, log[..n]);
    }
    DurableFromGrows(cfg, log[..n], [log[n]], from, CheckpointOf(log).value);
  }

  // ---------------------------------------------------------------- resuming

  /** Without a checkpoint nothing has been promised of any block. */
  lemma UnsavedIsSafe(cfg: Config, from: int, log: seq<Write>, other: int)
    requires Safe(cfg, from, log) && CheckpointOf(log).None?
    ensures Safe(cfg, other, log)
  {
    forall i | 0 <= i < |log| ensures SafeAt(cfg, other, log, i) {
      assert SafeAt(cfg, from, log, i);
      if log[i].SaveCheckpoint? { SavedStaysSaved(log, i); }
    }
  }

  lemma {:induction false} SavedStaysSaved(log: seq<Write>, i: nat)
    requires i < |log| && log[i].SaveCheckpoint?
    ensures CheckpointOf(log).Some?
  {
    if i < |log| - 1 { SavedStaysSaved(log[..|log| - 1], i); }
  }

  /** A block from which this configuration may count on its checkpoints. */
  predicate Baseline(cfg: Config, from: int) {
    if cfg.StartsAtGenesis() then from == 0 else if cfg.fromBlock.Some? then from >= cfg.fromBlock.value else from >= 1
  }

  /** A process may begin with block `first` on a disk that is safe from some block on when every
      block from there to `first` is on it. */
  ghost predicate Ready(cfg: Config, from: int, log: seq<Write>, first: int) {
    Safe(cfg, from, log) && 0 <= first && from <= first && DurableFrom(cfg, log, from, first - 1)
  }

  /** A process that finds a checkpoint skips nothing. */
  lemma CheckpointedIsReady(cfg: Config, from: int, log: seq<Write>, chainHead: Option<nat>)
    requires Baseline(cfg, from) && Safe(cfg, from, log) && CheckpointOf(log).Some?
    ensures Ready(cfg, from, log, FirstBlock(cfg, log, chainHead))
    ensures FirstBlock(cfg, log, chainHead) == if cfg.StartsAtGenesis() then 0 else CheckpointOf(log).value + 1
  {
    CheckpointIsDurable(cfg, from, log);
  }

  lemma ConnectKeeps(cfg: Config, from: int, log: seq<Write>, first: int)
    requires Ready(cfg, from, log, first)
    ensures Keeps(cfg, from, log, Connect(first))
  {
    NothingStaged(cfg, from, log, Connect(first));
  }

  // ---------------------------------------------------------------- whole histories

  lemma {:induction false} LifeKeeps(cfg: Config, from: int, log: seq<Write>, first: int, heads: seq<int>)
    requires cfg.Valid() && Ready(cfg, from, log, first) && InOrder(cfg, first, heads)
    ensures Keeps(cfg, from, log + Lived(cfg, log, first, heads).1, Lived(cfg, log, first, heads).0)
    ensures Lived(cfg, log, first, heads).0.head == HeadAfter(first, heads)
  {
    if heads == [] {
      ConnectKeeps(cfg, from, log, first);
      assert log + [] == log;
    } else {
      var front := heads[..|heads| - 1];
      LifeKeeps(cfg, from, log, first, front);
      var before := Lived(cfg, log, first, front);
      TransactKeeps(cfg, from, log + before.1, before.0, heads[|heads| - 1]);
      Associate(log, before.1, Transact(cfg, log + before.1, before.0, heads[|heads| - 1]).1);
    }
  }

  lemma LifeIsSafe(cfg: Config, from: int, log: seq<Write>, life: Life)
    requires cfg.Valid() && MayLive(cfg, log, life) && Ready(cfg, from, log, FirstBlock(cfg, log, life.chainHead))
    ensures Safe(cfg, from, AfterLife(cfg, log, life))
  {
    LifeWritesAreSafe(cfg, from, log, life);
    var writes := LifeWrites(cfg, log, life);
    if life.survived < |writes| { SafeCut(cfg, from, log, writes, life.survived); }
  }

  lemma LifeWritesAreSafe(cfg: Config, from: int, log: seq<Write>, life: Life)
    requires cfg.Valid() && MayLive(cfg, log, life) && Ready(cfg, from, log, FirstBlock(cfg, log, life.chainHead))
    ensures Safe(cfg, from, log + LifeWrites(cfg, log, life))
  {
    LifeKeeps(cfg, from, log, FirstBlock(cfg, log, life.chainHead), life.heads);
  }

  lemma SafeCut(cfg: Config, from: int, log: seq<Write>, writes: seq<Write>, n: nat)
    requires Safe(cfg, from, log + writes) && n <= |writes|
    ensures Safe(cfg, from, log + writes[..n])
  {
    SafePrefix(cfg, from, log + writes, |log| + n);
    assert (log + writes)[..|log| + n] == log + writes[..n];
  }

  /** The first block of the last process that found no checkpoint: the one that saves the first. */
  ghost function Base(cfg: Config, lives: seq<Life>): int
    requires IsHistory(cfg, lives)
  {
    if lives == [] then FirstBlock(cfg, [], None)
    else
      var log := Disk(cfg, lives[..|lives| - 1]);
      if CheckpointOf(log).None? then FirstBlock(cfg, log, lives[|lives| - 1].chainHead) else Base(cfg, lives[..|lives| - 1])
  }

  /** In every history of processes that crash at arbitrary moments, also while publishing, and
      that are each asked for a block of their own: no key of a probed table is ever inserted
      twice, a visible block is a complete block, and a checkpoint covers only complete blocks
      from the block on where the process began that saved the first one. */
  lemma {:induction false} HistoryIsSafe(cfg: Config, lives: seq<Life>)
    requires cfg.Valid() && IsHistory(cfg, lives)
    ensures Baseline(cfg, Base(cfg, lives)) && Safe(cfg, Base(cfg, lives), Disk(cfg, lives))
  {
    if lives != [] {
      var front, life := lives[..|lives| - 1], lives[|lives| - 1];
      var log := Disk(cfg, front);
      HistoryIsSafe(cfg, front);
      if CheckpointOf(log).None? {
        UnsavedIsSafe(cfg, Base(cfg, front), log, Base(cfg, lives));
      } else {
        CheckpointedIsReady(cfg, Base(cfg, front), log, life.chainHead);
      }
      LifeIsSafe(cfg, Base(cfg, lives), log, life);
    }
  }

  /** What a reader may conclude at any moment of such a history from one visible block row. */
  lemma VisibleBlockIsComplete(cfg: Config, lives: seq<Life>, r: Row)
    requires cfg.Valid() && IsHistory(cfg, lives) && r.table == BLOCKS && Inserted(Disk(cfg, lives), r)
    ensures DurableBelow(cfg, Disk(cfg, lives), r.height, BLOCKS)
    ensures forall t, q | q in cfg.rowsOf(r.height, t)
              && (t == PRICES || t == TRADE_VOLUMES || t == ASSETS || t == RUNTIME_UPGRADES || t == RUNTIME_ERROR_NAMES) ::
              Inserted(Disk(cfg, lives), q)
  {
    HistoryIsSafe(cfg, lives);
    VisibleRowIsComplete(cfg, Base(cfg, lives), Disk(cfg, lives), r);
  }

  lemma VisibleRowIsComplete(cfg: Config, from: int, log: seq<Write>, r: Row)
    requires Safe(cfg, from, log) && r.table == BLOCKS && Inserted(log, r)
    ensures DurableBelow(cfg, log, r.height, BLOCKS)
  {
    var i :| 0 <= i < |log| && log[i].InsertRows? && r in log[i].rows;
    assert SafeAt(cfg, from, log, i);
    assert DurableBelow(cfg, log[..i], r.height, BLOCKS);
    assert log == log[..i] + log[i..];
    DurableGrows(cfg, log[..i], log[i..], r.height, BLOCKS);
  }

  // ---------------------------------------------------------------- the blocks a pipeline was asked for

  /** The lowest block a process was asked for while there was no checkpoint, among `lives` and
      one more started after them. */
  ghost function Origin(cfg: Config, lives: seq<Life>, chainHead: Option<nat>): int
    requires IsHistory(cfg, lives)
  {
    var log := Disk(cfg, lives);
    if lives == [] then Asked(cfg, log, chainHead)
    else
      var before := Origin(cfg, lives[..|lives| - 1], lives[|lives| - 1].chainHead);
      if CheckpointOf(log).Some? || before <= Asked(cfg, log, chainHead) then before else Asked(cfg, log, chainHead)
  }

  /** Checkpoints cover every block asked for, not only those from the base on. */
  ghost predicate CoversAsked(cfg: Config, lives: seq<Life>)
    requires IsHistory(cfg, lives)
  {
    lives != [] ==> Safe(cfg, Origin(cfg, lives[..|lives| - 1], lives[|lives| - 1].chainHead), Disk(cfg, lives))
  }

  /** What can be checked of the disk before a process is started on it: no block asked for lies
      missing below the first one it will be given, unless it will be given none. */
  ghost predicate LeavesNoGap(cfg: Config, lives: seq<Life>, chainHead: Option<nat>)
    requires IsHistory(cfg, lives)
  {
    var first := FirstBlock(cfg, Disk(cfg, lives), chainHead);
    DurableFrom(cfg, Disk(cfg, lives), Origin(cfg, lives, chainHead), first - 1) || (cfg.toBlock.Some? && first > cfg.toBlock.value)
  }

  lemma {:induction false} OriginIsAsked(cfg: Config, lives: seq<Life>, chainHead: Option<nat>)
    requires IsHistory(cfg, lives)
    ensures 0 <= Origin(cfg, lives, chainHead)
    ensures cfg.fromBlock.Some? ==> Origin(cfg, lives, chainHead) == cfg.fromBlock.value
  {
    if lives != [] { OriginIsAsked(cfg, lives[..|lives| - 1], lives[|lives| - 1].chainHead); }
  }

  lemma {:induction false} OriginBelowBase(cfg: Config, lives: seq<Life>)
    requires IsHistory(cfg, lives) && lives != []
    ensures Origin(cfg, lives[..|lives| - 1], lives[|lives| - 1].chainHead) <= Base(cfg, lives)
  {
    if CheckpointOf(Disk(cfg, lives[..|lives| - 1])).Some? { OriginBelowBase(cfg, lives[..|lives| - 1]); }
  }

  /** A process is never given a block below the lowest one asked for. */
  lemma OriginBelowFirst(cfg: Config, lives: seq<Life>, chainHead: Option<nat>)
    requires cfg.Valid() && IsHistory(cfg, lives)
    ensures Origin(cfg, lives, chainHead) <= FirstBlock(cfg, Disk(cfg, lives), chainHead)
  {
    if CheckpointOf(Disk(cfg, lives)).Some? {
      OriginBelowBase(cfg, lives);
      HistoryIsSafe(cfg, lives);
      CheckpointedIsReady(cfg, Base(cfg, lives), Disk(cfg, lives), chainHead);
    }
  }

  /** Once a checkpoint is saved, every later start leaves no gap. */
  lemma CheckpointedLaunchIsSafe(cfg: Config, lives: seq<Life>, chainHead: Option<nat>)
    requires cfg.Valid() && IsHistory(cfg, lives) && CoversAsked(cfg, lives) && CheckpointOf(Disk(cfg, lives)).Some?
    ensures LeavesNoGap(cfg, lives, chainHead)
  {
    HistoryIsSafe(cfg, lives);
    OriginIsAsked(cfg, lives, chainHead);
    CheckpointedIsReady(cfg, Base(cfg, lives), Disk(cfg, lives), chainHead);
    CheckpointIsDurable(cfg, Origin(cfg, lives, chainHead), Disk(cfg, lives));
  }

  // ---------------------------------------------------------------- what was not delivered is not written

  lemma ChunkWasStaged(log: seq<Write>, table: nat, chunk: seq<Row>, r: Row)
    requires Inserted(ChunkWrites(log, table, chunk), r)
    ensures r in chunk
  {
    NewRowsAreNew(log, table, chunk);
  }

  lemma {:induction false} TableWasStaged(log: seq<Write>, table: nat, chunks: seq<seq<Row>>, r: Row)
    requires Inserted(TableWrites(log, table, chunks), r)
    ensures InChunks(chunks, r)
  {
    var front, chunk := chunks[..|chunks| - 1], chunks[|chunks| - 1];
    var before := TableWrites(log, table, front);
    InsertedGrows(before, ChunkWrites(log + before, table, chunk), r);
    if Inserted(before, r) {
      TableWasStaged(log, table, front, r);
      var i :| 0 <= i < |front| && r in front[i];
      assert r in chunks[i];
    } else {
      ChunkWasStaged(log + before, table, chunk, r);
    }
  }

  lemma {:induction false} PublishedWasStaged(cfg: Config, log: seq<Write>, staged: seq<seq<Row>>, n: nat, r: Row)
    requires n <= |staged| && Inserted(PublishWrites(cfg, log, staged, n), r)
    ensures exists t :: 0 <= t < n && r in staged[t]
  {
    if n > 0 {
      var t := n - 1;
      if Inserted(PublishWrites(cfg, log, staged, t), r) { PublishedWasStaged(cfg, log, staged, t, r); } else { LastTableWasStaged(cfg, log, staged, t, r); }
    }
  }

  lemma LastTableWasStaged(cfg: Config, log: seq<Write>, staged: seq<seq<Row>>, t: nat, r: Row)
    requires t < |staged| && Inserted(PublishWrites(cfg, log, staged, t + 1), r) && !Inserted(PublishWrites(cfg, log, staged, t), r)
    ensures r in staged[t]
  {
    var before := PublishWrites(cfg, log, staged, t);
    InsertedGrows(before, TableWrites(log + before, t, Chunks(cfg.full, t, staged[t])), r);
    TableWasStaged(log + before, t, Chunks(cfg.full, t, staged[t]), r);
    ChunksHoldOnly(cfg.full, t, staged[t], r);
  }

  /** Publishing other blocks does not make up for a block that is missing. */
  lemma MissedBlock(cfg: Config, from: int, log: seq<Write>, staged: seq<seq<Row>>, last: int, b: int)
    requires from <= b <= last && !DurableBelow(cfg, log, b, TABLES)
    requires forall t, r | 0 <= t < TABLES && r in cfg.rowsOf(b, t) :: forall u | 0 <= u < |staged| :: r !in staged[u]
    ensures !Safe(cfg, from, log + Publish(cfg, log, staged, last))
  {
    var writes := PublishWrites(cfg, log, staged, |staged|);
    var all := log + Publish(cfg, log, staged, last);
    var t, r :| 0 <= t < TABLES && r in cfg.rowsOf(b, t) && !Inserted(log, r);
    InsertedGrows(log, writes, r);
    if Inserted(writes, r) { PublishedWasStaged(cfg, log, staged, |staged|, r); }
    assert !DurableBelow(cfg, log + writes, b, TABLES);
    assert all[..|log + writes|] == log + writes && all[|log + writes|] == SaveCheckpoint(last);
    assert !SafeAt(cfg, from, all, |log + writes|);
  }

  function LastOf(cfg: Config, first: int): int { if cfg.toBlock.Some? then cfg.toBlock.value else first }

  /** The process that is given everything it was asked for, in one batch, saves it and ends. */
  function OneBatch(cfg: Config, log: seq<Write>, chainHead: Option<nat>): Life {
    var heads := [LastOf(cfg, FirstBlock(cfg, log, chainHead))];
    Life(chainHead, heads, |LifeWrites(cfg, log, Life(chainHead, heads, 0))|)
  }

  lemma OneBatchSaves(cfg: Config, log: seq<Write>, chainHead: Option<nat>, first: int, last: int)
    requires cfg.Valid() && first == FirstBlock(cfg, log, chainHead) && last == LastOf(cfg, first)
    requires 0 <= first <= last
    ensures var life, staged := OneBatch(cfg, log, chainHead), Buffered(cfg.rowsOf, EmptyBuffers(TABLES), first, last);
            MayLive(cfg, log, life) && AfterLife(cfg, log, life) == log + Publish(cfg, log, staged, last)
  {
    var life, staged := OneBatch(cfg, log, chainHead), Buffered(cfg.rowsOf, EmptyBuffers(TABLES), first, last);
    TransactCases(cfg, log, Connect(first), last, staged, last);
    OneBatchIs(cfg, log, first, last);
    assert InOrder(cfg, first, []) && life.heads[..0] == [];
  }

  lemma OneBatchIs(cfg: Config, log: seq<Write>, first: int, last: int)
    ensures Lived(cfg, log, first, [last]).1 == Transact(cfg, log, Connect(first), last).1
  {
    assert [last][..0] == [] && log + [] == log;
    assert Lived(cfg, log, first, []) == (Connect(first), []);
    assert [] + Transact(cfg, log, Connect(first), last).1 == Transact(cfg, log, Connect(first), last).1;
  }

  lemma GapIsMissed(cfg: Config, from: int, log: seq<Write>, first: int, last: int, b: int)
    requires cfg.Valid() && from <= b < first <= last && !DurableBelow(cfg, log, b, TABLES)
    ensures !Safe(cfg, from, log + Publish(cfg, log, Buffered(cfg.rowsOf, EmptyBuffers(TABLES), first, last), last))
  {
    var staged := Buffered(cfg.rowsOf, EmptyBuffers(TABLES), first, last);
    forall u | 0 <= u < TABLES ensures forall r: Row | r in staged[u] :: r.height >= first {
      BlockRowsAreIn(cfg.rowsOf, u, first, last);
    }
    MissedBlock(cfg, from, log, staged, last, b);
  }

  /** Starting where a block asked for is missing leads to a checkpoint past that block. */
  lemma GapIsCheckpointed(cfg: Config, lives: seq<Life>, chainHead: Option<nat>) returns (life: Life)
    requires cfg.Valid() && IsHistory(cfg, lives) && CoversAsked(cfg, lives) && !LeavesNoGap(cfg, lives, chainHead)
    ensures life.chainHead == chainHead && IsHistory(cfg, lives + [life]) && !CoversAsked(cfg, lives + [life])
  {
    var log, first, origin := Disk(cfg, lives), FirstBlock(cfg, Disk(cfg, lives), chainHead), Origin(cfg, lives, chainHead);
    var b :| origin <= b < first && !DurableBelow(cfg, log, b, TABLES);
    OriginIsAsked(cfg, lives, chainHead);
    life := OneBatch(cfg, log, chainHead);
    OneBatchSaves(cfg, log, chainHead, first, LastOf(cfg, first));
    GapIsMissed(cfg, origin, log, first, LastOf(cfg, first), b);
    assert (lives + [life])[..|lives|] == lives;
  }

  lemma NoGapIsSafe(cfg: Config, lives: seq<Life>)
    requires cfg.Valid() && IsHistory(cfg, lives) && lives != [] && CoversAsked(cfg, lives[..|lives| - 1])
    requires LeavesNoGap(cfg, lives[..|lives| - 1], lives[|lives| - 1].chainHead)
    ensures CoversAsked(cfg, lives)
  {
    var front, life := lives[..|lives| - 1], lives[|lives| - 1];
    var log, origin := Disk(cfg, front), Origin(cfg, front, life.chainHead);
    var first := FirstBlock(cfg, log, life.chainHead);
    if front != [] && CheckpointOf(log).None? {
      UnsavedIsSafe(cfg, Origin(cfg, front[..|front| - 1], front[|front| - 1].chainHead), log, origin);
    }
    OriginIsAsked(cfg, front, life.chainHead);
    OriginBelowFirst(cfg, front, life.chainHead);
    if cfg.toBlock.Some? && first > cfg.toBlock.value {
      NothingIsGiven(cfg, log, life);
    } else {
      LifeIsSafe(cfg, origin, log, life);
    }
  }

  lemma {:induction false} HeadsRise(cfg: Config, first: int, heads: seq<int>)
    requires InOrder(cfg, first, heads)
    ensures HeadAfter(first, heads) >= first - 1 + |heads|
  {
    if heads != [] { HeadsRise(cfg, first, heads[..|heads| - 1]); }
  }

  lemma NothingIsGiven(cfg: Config, log: seq<Write>, life: Life)
    requires MayLive(cfg, log, life) && cfg.toBlock.Some? && FirstBlock(cfg, log, life.chainHead) > cfg.toBlock.value
    ensures AfterLife(cfg, log, life) == log
  {
    HeadsRise(cfg, FirstBlock(cfg, log, life.chainHead), life.heads);
  }

  /** Starting one more process on a disk whose checkpoints cover all blocks asked for keeps it
      so, whatever the process is given and whenever it dies, if and only if it leaves no gap. */
  lemma LaunchIsSafeIff(cfg: Config, lives: seq<Life>, chainHead: Option<nat>)
    requires cfg.Valid() && IsHistory(cfg, lives) && CoversAsked(cfg, lives)
    ensures (forall life: Life | life.chainHead == chainHead && IsHistory(cfg, lives + [life]) :: CoversAsked(cfg, lives + [life]))
            <==> LeavesNoGap(cfg, lives, chainHead)
  {
    if LeavesNoGap(cfg, lives, chainHead) {
      forall life: Life | life.chainHead == chainHead && IsHistory(cfg, lives + [life]) ensures CoversAsked(cfg, lives + [life]) {
        assert (lives + [life])[..|lives|] == lives;
        NoGapIsSafe(cfg, lives + [life]);
      }
    } else {
      var life := GapIsCheckpointed(cfg, lives, chainHead);
    }
  }

  // ---------------------------------------------------------------- safe configurations

  /** The command line names a first block, or asks for no block but 0, which it is then never
      given. */
  predicate NamesItsStart(cfg: Config) { cfg.fromBlock.Some? || cfg.toBlock == Some(0) }

  /** A run that is asked for block 0 because it names no start and finds no head checkpoints past
      block 0 although it was never delivered. */
  lemma GenesisIsSkipped(cfg: Config) returns (lives: seq<Life>)
    requires cfg.Valid() && !NamesItsStart(cfg)
    ensures IsHistory(cfg, lives) && !CoversAsked(cfg, lives)
  {
    NothingIsDurable(cfg, 0);
    assert IsHistory(cfg, []) && Disk(cfg, []) == [];
    var life := GapIsCheckpointed(cfg, [], None);
    lives := [] + [life];
  }

  lemma NothingIsDurable(cfg: Config, b: int)
    requires cfg.Valid()
    ensures !DurableBelow(cfg, [], b, TABLES)
  {
    assert !Inserted([], cfg.rowsOf(b, BLOCKS)[0]);
  }

  /** A follower that dies before its first checkpoint and starts again at a later head leaves
      out the blocks in between, though the first of them was delivered. */
  lemma FollowerSkipsHead(cfg: Config, first: nat, later: nat) returns (lives: seq<Life>)
    requires cfg.Valid() && cfg.fromBlock.None? && cfg.toBlock.None? && 1 <= first < later
    ensures |lives| == 2 && lives[0] == Life(Some(first), [first], 0) && lives[1].chainHead == Some(later)
    ensures IsHistory(cfg, lives) && !CoversAsked(cfg, lives)
  {
    var crashed := [Life(Some(first), [first], 0)];
    assert IsHistory(cfg, []) && Disk(cfg, []) == [] && crashed[..0] == [] && [first][..0] == [];
    assert InOrder(cfg, first, []) && InOrder(cfg, first, [first]);
    assert IsHistory(cfg, crashed) && Disk(cfg, crashed) == [] + LifeWrites(cfg, [], crashed[0])[..0] == [];
    NothingIsDurable(cfg, first);
    assert Origin(cfg, crashed, Some(later)) == first;
    var life := GapIsCheckpointed(cfg, crashed, Some(later));
    lives := crashed + [life];
  }

  /** Without a checkpoint a run that names its first block begins with it. */
  lemma FreshRunBeginsAtStart(cfg: Config, log: seq<Write>, chainHead: Option<nat>)
    requires CheckpointOf(log).None?
    ensures FirstBlock(cfg, log, chainHead) == Asked(cfg, log, chainHead)
            <==> cfg.fromBlock.Some? || (cfg.toBlock.None? && chainHead.Some? && chainHead.value >= 1)
  {
  }

  lemma NamedLaunchLeavesNoGap(cfg: Config, lives: seq<Life>, chainHead: Option<nat>)
    requires cfg.Valid() && NamesItsStart(cfg) && IsHistory(cfg, lives) && CoversAsked(cfg, lives)
    ensures LeavesNoGap(cfg, lives, chainHead)
  {
    var log := Disk(cfg, lives);
    if CheckpointOf(log).Some? {
      CheckpointedLaunchIsSafe(cfg, lives, chainHead);
    } else {
      OriginIsAsked(cfg, lives, chainHead);
      FreshRunBeginsAtStart(cfg, log, chainHead);
    }
  }

  lemma {:induction false} NamedStartIsSafe(cfg: Config, lives: seq<Life>)
    requires cfg.Valid() && NamesItsStart(cfg) && IsHistory(cfg, lives)
    ensures CoversAsked(cfg, lives)
  {
    if lives != [] {
      NamedStartIsSafe(cfg, lives[..|lives| - 1]);
      NamedLaunchLeavesNoGap(cfg, lives[..|lives| - 1], lives[|lives| - 1].chainHead);
      NoGapIsSafe(cfg, lives);
    }
  }

  /** So the checkpoints of a configuration cover every block asked for, in every history, if
      and only if its command line names a first block, or asks for block 0 alone. */
  lemma SafeConfigurations(cfg: Config)
    requires cfg.Valid()
    ensures (forall lives | IsHistory(cfg, lives) :: CoversAsked(cfg, lives)) <==> NamesItsStart(cfg)
  {
    if NamesItsStart(cfg) {
      forall lives | IsHistory(cfg, lives) ensures CoversAsked(cfg, lives) { NamedStartIsSafe(cfg, lives); }
    } else {
      var lives := GenesisIsSkipped(cfg);
    }
  }

  // ---------------------------------------------------------------- deferred publication

  /** A deferred run is invisible until a batch reaches the publication block. */
  lemma {:induction false} DeferredUntilReached(cfg: Config, log: seq<Write>, first: int, heads: seq<int>)
    requires cfg.deferPublication
    ensures Lived(cfg, log, first, heads).0.published
            <==> (cfg.toBlock.Some? && exists i :: 0 <= i < |heads| && heads[i] >= cfg.toBlock.value)
    ensures !Lived(cfg, log, first, heads).0.published ==> Lived(cfg, log, first, heads).1 == []
  {
    if heads != [] {
      var front, last := heads[..|heads| - 1], heads[|heads| - 1];
      DeferredUntilReached(cfg, log, first, front);
      if Lived(cfg, log, first, front).0.published {
        var i :| 0 <= i < |front| && front[i] >= cfg.toBlock.value;
        assert heads[i] == front[i];
      } else if cfg.toBlock.Some? {
        assert forall i | 0 <= i < |front| :: heads[i] == front[i];
      }
    }
  }

  /** The publishing batch makes every block delivered so far durable, and checkpoints it. */
  lemma PublishingBatchPublishesAll(cfg: Config, from: int, log: seq<Write>, first: int, heads: seq<int>)
    requires cfg.Valid() && Ready(cfg, from, log, first) && InOrder(cfg, first, heads) && heads != []
    requires cfg.deferPublication ==>
               && heads[|heads| - 1] >= cfg.toBlock.value
               && forall i | 0 <= i < |heads| - 1 :: heads[i] < cfg.toBlock.value
    ensures CheckpointOf(log + Lived(cfg, log, first, heads).1) == Some(heads[|heads| - 1])
    ensures DurableFrom(cfg, log + Lived(cfg, log, first, heads).1, from, heads[|heads| - 1])
  {
    var front, last := heads[..|heads| - 1], heads[|heads| - 1];
    LifeKeeps(cfg, from, log, first, front);
    LifeKeeps(cfg, from, log, first, heads);
    if cfg.deferPublication {
      DeferredUntilReached(cfg, log, first, front);
      assert forall i | 0 <= i < |front| :: front[i] == heads[i];
    }
    var all := log + Lived(cfg, log, first, heads).1;
    assert all[|all| - 1] == SaveCheckpoint(last);
    CheckpointIsDurable(cfg, from, all);
  }

  /** Assets and error names are written again whenever they are staged, whatever is on disk: each
      of their rows replaces itself. */
  lemma ReplacedTablesAreRewritten(cfg: Config, log: seq<Write>, staged: seq<seq<Row>>, table: nat, r: Row)
    requires |staged| == TABLES && (table == ASSETS || table == RUNTIME_ERROR_NAMES) && r in staged[table]
    ensures Inserted(PublishWrites(cfg, log, staged, TABLES), r)
  {
    OwnTableRewrites(cfg, log, staged, table, r);
    if table == ASSETS {
      NextTableAdds(cfg, log, staged, RUNTIME_UPGRADES, r);
      NextTableAdds(cfg, log, staged, RUNTIME_ERROR_NAMES, r);
    }
    NextTableAdds(cfg, log, staged, BLOCKS, r);
  }

  lemma OwnTableRewrites(cfg: Config, log: seq<Write>, staged: seq<seq<Row>>, table: nat, r: Row)
    requires |staged| == TABLES && (table == ASSETS || table == RUNTIME_ERROR_NAMES) && r in staged[table]
    ensures Inserted(PublishWrites(cfg, log, staged, table + 1), r)
  {
    var before := PublishWrites(cfg, log, staged, table);
    ChunksHoldAll(cfg.full, table, staged[table], r);
    TableRewrites(log + before, table, Chunks(cfg.full, table, staged[table]), r);
    InsertedGrows(before, TableWrites(log + before, table, Chunks(cfg.full, table, staged[table])), r);
  }

  lemma {:induction false} TableRewrites(log: seq<Write>, table: nat, chunks: seq<seq<Row>>, r: Row)
    requires (table == ASSETS || table == RUNTIME_ERROR_NAMES) && InChunks(chunks, r)
    ensures Inserted(TableWrites(log, table, chunks), r)
  {
    var front, chunk := chunks[..|chunks| - 1], chunks[|chunks| - 1];
    var before := TableWrites(log, table, front);
    InsertedGrows(before, ChunkWrites(log + before, table, chunk), r);
    if r in chunk {
      NewRowsAreNew(log + before, table, chunk);
      assert ChunkWrites(log + before, table, chunk)[0] == InsertRows(NewRows(log + before, table, chunk));
    } else {
      var i :| 0 <= i < |chunks| && r in chunks[i];
      assert r in front[i];
      TableRewrites(log, table, front, r);
    }
  }

  lemma NextTableAdds(cfg: Config, log: seq<Write>, staged: seq<seq<Row>>, t: nat, r: Row)
    requires t < |staged| && Inserted(PublishWrites(cfg, log, staged, t), r)
    ensures Inserted(PublishWrites(cfg, log, staged, t + 1), r)
  {
    var before := PublishWrites(cfg, log, staged, t);
    InsertedGrows(before, TableWrites(log + before, t, Chunks(cfg.full, t, staged[t])), r);
  }

  // ---------------------------------------------------------------- nothing is invented

  ghost predicate Genuine(cfg: Config, r: Row) { r.table < TABLES && r in cfg.rowsOf(r.height, r.table) }

  ghost predicate StagesGenuine(cfg: Config, staged: seq<seq<Row>>) {
    forall t, r | 0 <= t < |staged| && r in staged[t] :: Genuine(cfg, r)
  }

  lemma StagingIsGenuine(cfg: Config, staged: seq<seq<Row>>, first: int, last: int)
    requires cfg.Valid() && |staged| == TABLES && StagesGenuine(cfg, staged)
    ensures StagesGenuine(cfg, Buffered(cfg.rowsOf, staged, first, last))
  {
    forall t, r | 0 <= t < TABLES && r in Buffered(cfg.rowsOf, staged, first, last)[t] ensures Genuine(cfg, r) {
      BlockRowsAreOwn(cfg, t, first, last);
    }
  }

  lemma TransactIsGenuine(cfg: Config, log: seq<Write>, m: Memory, nextHead: int, r: Row)
    requires cfg.Valid() && |m.staged| == TABLES && StagesGenuine(cfg, m.staged)
    ensures StagesGenuine(cfg, Transact(cfg, log, m, nextHead).0.staged)
    ensures Inserted(Transact(cfg, log, m, nextHead).1, r) ==> Genuine(cfg, r)
  {
    StagingIsGenuine(cfg, m.staged, m.head + 1, nextHead);
    var staged := Buffered(cfg.rowsOf, m.staged, m.head + 1, nextHead);
    if Inserted(Transact(cfg, log, m, nextHead).1, r) {
      var writes, h := PublishWrites(cfg, log, staged, |staged|), if cfg.deferPublication then PendingAfter(m, nextHead) else nextHead;
      TransactCases(cfg, log, m, nextHead, staged, h);
      InsertedGrows(writes, [SaveCheckpoint(h)], r);
      PublishedWasStaged(cfg, log, staged, |staged|, r);
    }
  }

  lemma {:induction false} LifeIsGenuine(cfg: Config, log: seq<Write>, first: int, heads: seq<int>, r: Row)
    requires cfg.Valid()
    ensures StagesGenuine(cfg, Lived(cfg, log, first, heads).0.staged)
    ensures Inserted(Lived(cfg, log, first, heads).1, r) ==> Genuine(cfg, r)
  {
    if heads != [] {
      var front, last := heads[..|heads| - 1], heads[|heads| - 1];
      LifeIsGenuine(cfg, log, first, front, r);
      var before := Lived(cfg, log, first, front);
      TransactIsGenuine(cfg, log + before.1, before.0, last, r);
      InsertedGrows(before.1, Transact(cfg, log + before.1, before.0, last).1, r);
    }
  }

  /** Every row on disk is a row of its own block. */
  lemma {:induction false} NothingIsInvented(cfg: Config, lives: seq<Life>, r: Row)
    requires cfg.Valid() && IsHistory(cfg, lives) && Inserted(Disk(cfg, lives), r)
    ensures r.table < TABLES && r in cfg.rowsOf(r.height, r.table)
  {
    var front, life := lives[..|lives| - 1], lives[|lives| - 1];
    var log := Disk(cfg, front);
    if Inserted(log, r) {
      NothingIsInvented(cfg, front, r);
    } else {
      LifeIsGenuine(cfg, log, FirstBlock(cfg, log, life.chainHead), life.heads, r);
      LifeAdds(cfg, log, life, r);
    }
  }

  lemma LifeAdds(cfg: Config, log: seq<Write>, life: Life, r: Row)
    requires Inserted(AfterLife(cfg, log, life), r)
    ensures Inserted(log, r) || Inserted(LifeWrites(cfg, log, life), r)
  {
    var writes := LifeWrites(cfg, log, life);
    if life.survived < |writes| {
      InsertedGrows(log, writes[..life.survived], r);
      InsertedGrows(writes[..life.survived], writes[life.survived..], r);
      assert writes == writes[..life.survived] + writes[life.survived..];
    } else {
      InsertedGrows(log, writes, r);
    }
  }
}
