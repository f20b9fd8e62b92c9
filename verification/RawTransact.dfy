/** One transact of the raw pipeline in its own terms: when it flushes, and what it then leaves in
    memory and on disk. */
module RawTransact {
  import opened Wrappers
  import opened RowBuffers
  import opened RawIngestion
  import opened RawDurability

  /** The head is the chain's, the range's last block is delivered, or a limit is met: by the blocks
      buffered since the last flush and those just delivered, by the rows of some table, or by the
      time since the last flush. */
  ghost predicate MustFlush(cfg: Config, m: Memory, info: Info)
    requires |m.buffers| == cfg.tables >= 1
  {
    || info.isOnTop
    || (cfg.range.Some? && cfg.range.value.toBlock <= info.nextHead)
    || |m.buffers[0]| + (info.nextHead - m.head) >= cfg.limits.blocks
    || (exists t :: 0 <= t < cfg.tables && |BufferOf(cfg, m, info, t)| >= cfg.limits.rows)
    || info.now - m.lastFlushAt >= cfg.limits.elapsedMs
  }

  /** A table's rows waiting when the transact decides. */
  ghost function BufferOf(cfg: Config, m: Memory, info: Info, t: nat): seq<Row>
    requires t < |m.buffers|
  {
    m.buffers[t] + BlockRows(cfg.rowsOf, t, m.head + 1, info.nextHead)
  }

  lemma {:induction false} PendingRowsIsReached(buffers: seq<seq<Row>>) returns (t: nat)
    requires buffers != []
    ensures t < |buffers| && |buffers[t]| == PendingRows(buffers)
  {
    if |buffers| == 1 || |buffers[|buffers| - 1]| > PendingRows(buffers[..|buffers| - 1]) {
      t := |buffers| - 1;
      if |buffers| == 1 { assert PendingRows(buffers[..0]) == 0; }
    } else {
      t := PendingRowsIsReached(buffers[..|buffers| - 1]);
    }
  }

  lemma RowsMeetLimitIff(buffers: seq<seq<Row>>, limit: int)
    requires buffers != []
    ensures PendingRows(buffers) >= limit <==> exists t :: 0 <= t < |buffers| && |buffers[t]| >= limit
  {
    var t := PendingRowsIsReached(buffers);
    forall u | 0 <= u < |buffers| ensures |buffers[u]| <= PendingRows(buffers) { PendingRowsIsMax(buffers, u); }
  }

  lemma FlushesIff(cfg: Config, m: Memory, info: Info)
    requires cfg.Valid() && |m.buffers| == cfg.tables && m.head <= info.nextHead
    ensures Flushes(cfg, m, info) <==> MustFlush(cfg, m, info)
  {
    var buffers := Buffered(cfg.rowsOf, m.buffers, m.head + 1, info.nextHead);
    OneRowPerBlock(cfg, m.head + 1, info.nextHead);
    RowsMeetLimitIff(buffers, cfg.limits.rows);
    assert forall t | 0 <= t < cfg.tables :: buffers[t] == BufferOf(cfg, m, info, t);
  }

  /** An unflushed transact writes nothing and adds the delivered rows to their buffers; it touches
      neither the clock nor the range. */
  lemma WaitingWritesNothing(cfg: Config, m: Memory, info: Info)
    requires cfg.Valid() && |m.buffers| == cfg.tables && m.head <= info.nextHead && !MustFlush(cfg, m, info)
    ensures var (m', writes) := Transact(cfg, m, info);
            && writes == [] && m'.head == info.nextHead && m'.lastFlushAt == m.lastFlushAt && m'.rangeFinalized == m.rangeFinalized
            && |m'.buffers| == cfg.tables && forall t | 0 <= t < cfg.tables :: m'.buffers[t] == BufferOf(cfg, m, info, t)
  {
    FlushesIff(cfg, m, info);
  }

  ghost predicate Waits(cfg: Config, m: Memory, info: Info, r: Row)
    requires |m.buffers| == cfg.tables
  {
    exists t: nat :: t < cfg.tables && r in BufferOf(cfg, m, info, t)
  }

  ghost predicate Ended(cfg: Config, info: Info) { cfg.range.Some? && cfg.range.value.toBlock <= info.nextHead }

  /** A flushing transact empties every buffer, starts the clock again, writes exactly the rows
      that waited and the delivered head as its checkpoint, and completes the range when its last
      block is delivered, unless this process already did. */
  lemma FlushWritesAll(cfg: Config, m: Memory, info: Info)
    requires cfg.Valid() && |m.buffers| == cfg.tables && m.head <= info.nextHead && MustFlush(cfg, m, info)
    ensures Transact(cfg, m, info).0 == Memory(EmptyBuffers(cfg.tables), m.rangeFinalized || Ended(cfg, info), info.flushedAt, info.nextHead)
    ensures CheckpointOf(Transact(cfg, m, info).1) == Some(info.nextHead)
    ensures Completions(Transact(cfg, m, info).1) == if Ended(cfg, info) && !m.rangeFinalized then 1 else 0
    ensures forall r {:trigger Waits(cfg, m, info, r)} :: Inserted(Transact(cfg, m, info).1, r) <==> Waits(cfg, m, info, r)
  {
    var buffers := Buffered(cfg.rowsOf, m.buffers, m.head + 1, info.nextHead);
    var finalizes := Ended(cfg, info) && !m.rangeFinalized;
    FlushedIs(cfg, m, info, buffers, finalizes);
    FlushCompletions(cfg, buffers, info.nextHead, finalizes);
    SavedIs(cfg, buffers, info.nextHead, finalizes);
    WaitingIsWritten(cfg, m, info, buffers, finalizes);
  }

  lemma FlushedIs(cfg: Config, m: Memory, info: Info, buffers: seq<seq<Row>>, finalizes: bool)
    requires cfg.Valid() && |m.buffers| == cfg.tables && m.head <= info.nextHead && MustFlush(cfg, m, info)
    requires buffers == Buffered(cfg.rowsOf, m.buffers, m.head + 1, info.nextHead) && finalizes == (Ended(cfg, info) && !m.rangeFinalized)
    ensures Transact(cfg, m, info).0 == Memory(EmptyBuffers(cfg.tables), m.rangeFinalized || Ended(cfg, info), info.flushedAt, info.nextHead)
    ensures Transact(cfg, m, info).1 == FlushAndSave(cfg, buffers, info.nextHead, finalizes)
  {
    FlushesIff(cfg, m, info);
  }

  lemma SavedIs(cfg: Config, buffers: seq<seq<Row>>, head: int, finalizes: bool)
    ensures CheckpointOf(FlushAndSave(cfg, buffers, head, finalizes)) == Some(head)
  {
    CheckpointOfFlush(cfg, [], buffers, head, finalizes);
    assert [] + FlushAndSave(cfg, buffers, head, finalizes) == FlushAndSave(cfg, buffers, head, finalizes);
  }

  lemma WaitingIsWritten(cfg: Config, m: Memory, info: Info, buffers: seq<seq<Row>>, finalizes: bool)
    requires |m.buffers| == cfg.tables && buffers == Buffered(cfg.rowsOf, m.buffers, m.head + 1, info.nextHead)
    ensures forall r {:trigger Waits(cfg, m, info, r)} ::
              Inserted(FlushAndSave(cfg, buffers, info.nextHead, finalizes), r) <==> Waits(cfg, m, info, r)
  {
    forall t: nat | t < cfg.tables ensures buffers[t] == BufferOf(cfg, m, info, t) {}
    forall r {:trigger Waits(cfg, m, info, r)}
      ensures Inserted(FlushAndSave(cfg, buffers, info.nextHead, finalizes), r) <==> Waits(cfg, m, info, r)
    {
      FlushInserts(cfg, buffers, info.nextHead, finalizes, r);
      HoldsIff(cfg, m, info, buffers, r);
    }
  }

  ghost predicate Holds(buffers: seq<seq<Row>>, r: Row) { exists t: nat :: t < |buffers| && r in buffers[t] }

  lemma HoldsIff(cfg: Config, m: Memory, info: Info, buffers: seq<seq<Row>>, r: Row)
    requires |m.buffers| == cfg.tables == |buffers| && forall t: nat | t < cfg.tables :: buffers[t] == BufferOf(cfg, m, info, t)
    ensures Holds(buffers, r) <==> Waits(cfg, m, info, r)
  {
    if t: nat :| t < cfg.tables && r in buffers[t] { assert r in BufferOf(cfg, m, info, t); }
    if t: nat :| t < cfg.tables && r in BufferOf(cfg, m, info, t) { assert r in buffers[t]; }
  }

  lemma FlushInserts(cfg: Config, buffers: seq<seq<Row>>, head: int, finalizes: bool, r: Row)
    ensures Inserted(FlushAndSave(cfg, buffers, head, finalizes), r) <==> Holds(buffers, r)
  {
    var rows, tail: seq<Write> := FlushWrites(cfg, buffers, |buffers|), if finalizes then [CompleteRange] else [];
    if Inserted(FlushAndSave(cfg, buffers, head, finalizes), r) {
      InsertedIsOneOf(rows + [SaveCheckpoint(head)], tail, r);
      InsertedIsOneOf(rows, [SaveCheckpoint(head)], r);
      InsertedWasBuffered(cfg, buffers, |buffers|, r);
    }
    if t: nat :| t < |buffers| && r in buffers[t] {
      FlushHoldsAll(cfg, buffers, |buffers|, t, r);
      InsertedGrows(rows, [SaveCheckpoint(head)], r);
      InsertedGrows(rows + [SaveCheckpoint(head)], tail, r);
    }
  }

  // ---------------------------------------------------------------- the order of the inserts

  /** Everything inserted, in the order of the inserts. */
  function InsertedRows(log: seq<Write>): seq<Row> {
    if log == [] then []
    else InsertedRows(log[..|log| - 1]) + if log[|log| - 1].InsertRows? then log[|log| - 1].rows else []
  }

  lemma {:induction false} InsertedRowsAdd(a: seq<Write>, b: seq<Write>)
    ensures InsertedRows(a + b) == InsertedRows(a) + InsertedRows(b)
  {
    if b == [] {
      assert a + b == a;
    } else {
      InsertedRowsAdd(a, b[..|b| - 1]);
      assert (a + b)[..|a + b| - 1] == a + b[..|b| - 1];
    }
  }

  lemma {:induction false} ChunksInOrder(chunks: seq<seq<Row>>)
    ensures InsertedRows(Inserts(chunks)) == Flatten(chunks)
  {
    if chunks != [] {
      ChunksInOrder(chunks[..|chunks| - 1]);
      assert Inserts(chunks)[..|Inserts(chunks)| - 1] == Inserts(chunks[..|chunks| - 1]);
    }
  }

  /** A flush inserts the buffers one after the other, each from its first row to its last. */
  lemma {:induction false} FlushesInOrder(cfg: Config, buffers: seq<seq<Row>>, n: nat)
    requires n <= |buffers|
    ensures InsertedRows(FlushWrites(cfg, buffers, n)) == Flatten(buffers[..n])
  {
    if n > 0 {
      var t := n - 1;
      FlushesInOrder(cfg, buffers, t);
      NextInOrder(cfg, buffers, t);
    }
  }

  lemma NextInOrder(cfg: Config, buffers: seq<seq<Row>>, t: nat)
    requires t < |buffers| && InsertedRows(FlushWrites(cfg, buffers, t)) == Flatten(buffers[..t])
    ensures InsertedRows(FlushWrites(cfg, buffers, t + 1)) == Flatten(buffers[..t + 1])
  {
    var chunks := Chunks(cfg.full, t, buffers[t]);
    ChunksAreGreedy(cfg.full, t, buffers[t]);
    ChunksInOrder(chunks);
    InsertedRowsAdd(FlushWrites(cfg, buffers, t), Inserts(chunks));
    assert buffers[..t + 1][..t] == buffers[..t];
  }
}
