/** `Database` and `ClickHouseStore` as objects: batches and deferred lists emptied table by
    table, probes and inserts awaited one after the other. */
module PublicationDatabase {
  import opened Wrappers
  import opened RowBuffers
  import opened Publication

  /** The database: the inserts that completed, oldest first. */
  class Disk {
    var log: seq<Write>

    constructor (log: seq<Write>)
      ensures this.log == log
    {
      this.log := log;
    }

    method Insert(w: Write)
      modifies this
      ensures log == old(log) + [w]
    {
      log := log + [w];
    }

    /** The probes: which of these rows are already there. */
    method Existing(rows: seq<Row>) returns (found: set<Row>)
      ensures found == set r | r in rows && Inserted(log, r)
    {
      found := set r | r in rows && Inserted(log, r);
    }
  }

  lemma TableStep(log: seq<Write>, table: nat, chunks: seq<seq<Row>>, i: nat)
    requires i < |chunks|
    ensures var at := log + TableWrites(log, table, chunks[..i]);
            log + TableWrites(log, table, chunks[..i + 1]) == at + ChunkWrites(at, table, chunks[i])
  {
    assert chunks[..i + 1][..i] == chunks[..i];
    var before := TableWrites(log, table, chunks[..i]);
    Associate(log, before, ChunkWrites(log + before, table, chunks[i]));
  }

  lemma PublishStep(cfg: Config, log: seq<Write>, buffers: seq<seq<Row>>, t: nat)
    requires t < |buffers|
    ensures log + PublishWrites(cfg, log, buffers, t + 1)
         == (log + PublishWrites(cfg, log, buffers, t))
            + TableWrites(log + PublishWrites(cfg, log, buffers, t), t, Chunks(cfg.full, t, buffers[t]))
  {
    Associate(log, PublishWrites(cfg, log, buffers, t),
              TableWrites(log + PublishWrites(cfg, log, buffers, t), t, Chunks(cfg.full, t, buffers[t])));
  }

  class Store {
    const cfg: Config
    const disk: Disk
    var batches: seq<seq<Row>>
    var deferred: seq<seq<Row>>

    ghost predicate Valid()
      reads this
    {
      |batches| == TABLES && |deferred| == TABLES && (!cfg.deferPublication ==> deferred == EmptyBuffers(TABLES))
    }

    constructor (cfg: Config, disk: Disk)
      ensures Valid() && this.cfg == cfg && this.disk == disk
      ensures batches == EmptyBuffers(TABLES) && deferred == EmptyBuffers(TABLES)
    {
      this.cfg, this.disk := cfg, disk;
      batches, deferred := EmptyBuffers(TABLES), EmptyBuffers(TABLES);
    }

    /** `cb`: the rows of the delivered blocks join their tables' batches. */
    method AddBlocks(first: int, last: int)
      requires Valid() && first <= last
      modifies this`batches
      ensures Valid() && batches == Buffered(cfg.rowsOf, old(batches), first, last)
    {
      var b := first;
      forall t | 0 <= t < |batches| ensures batches[t] == Buffered(cfg.rowsOf, batches, first, first - 1)[t] {
        assert batches[t] + [] == batches[t];
      }
      while b <= last
        invariant first <= b <= last + 1
        invariant Valid() && batches == Buffered(cfg.rowsOf, old(batches), first, b - 1)
      {
        batches := seq(|batches|, t requires 0 <= t < |batches| reads this => batches[t] + cfg.rowsOf(b, t));
        forall t | 0 <= t < |batches| ensures batches[t] == Buffered(cfg.rowsOf, old(batches), first, b)[t] {}
        b := b + 1;
      }
    }

    /** One chunk: distinct keys, minus those a probe finds, in one insert or none. */
    method InsertChunk(table: nat, chunk: seq<Row>)
      modifies disk
      ensures disk.log == old(disk.log) + ChunkWrites(old(disk.log), table, chunk)
    {
      var rows: seq<Row> := [];
      for i := 0 to |chunk|
        invariant rows == Unique(chunk[..i])
      {
        assert chunk[..i + 1][..i] == chunk[..i];
        rows := if chunk[i] in rows then rows else rows + [chunk[i]];
      }
      assert chunk[..|chunk|] == chunk;
      if Probed(table) {
        rows := Fresh(rows);
      }
      if rows != [] {
        disk.Insert(InsertRows(rows));
      }
    }

    method Fresh(rows: seq<Row>) returns (newRows: seq<Row>)
      ensures newRows == Unseen(disk.log, rows)
    {
      var existing := disk.Existing(rows);
      newRows := [];
      for i := 0 to |rows|
        invariant newRows == Unseen(disk.log, rows[..i])
      {
        assert rows[..i + 1][..i] == rows[..i];
        newRows := if rows[i] in existing then newRows else newRows + [rows[i]];
      }
      assert rows[..|rows|] == rows;
    }

    method InsertTable(table: nat, rows: seq<Row>)
      modifies disk
      ensures disk.log == old(disk.log) + TableWrites(old(disk.log), table, Chunks(cfg.full, table, rows))
    {
      var chunks := Chunks(cfg.full, table, rows);
      ghost var log := disk.log;
      for i := 0 to |chunks|
        invariant disk.log == log + TableWrites(log, table, chunks[..i])
      {
        TableStep(log, table, chunks, i);
        InsertChunk(table, chunks[i]);
      }
      assert chunks[..|chunks|] == chunks;
    }

    method StageCurrentBatches()
      requires Valid() && cfg.deferPublication
      modifies this
      ensures Valid() && batches == EmptyBuffers(TABLES)
      ensures forall t | 0 <= t < TABLES :: deferred[t] == old(deferred)[t] + old(batches)[t]
    {
      deferred := seq(TABLES, t requires 0 <= t < |deferred| && t < |batches| reads this => deferred[t] + batches[t]);
      batches := EmptyBuffers(TABLES);
    }

    method FlushAll()
      requires Valid()
      modifies this, disk
      ensures Valid() && batches == EmptyBuffers(TABLES)
      ensures cfg.deferPublication ==> disk.log == old(disk.log)
      ensures cfg.deferPublication ==> forall t | 0 <= t < TABLES :: deferred[t] == old(deferred)[t] + old(batches)[t]
      ensures !cfg.deferPublication ==>
        deferred == old(deferred) && disk.log == old(disk.log) + PublishWrites(cfg, old(disk.log), old(batches), |old(batches)|)
    {
      if cfg.deferPublication {
        StageCurrentBatches();
      } else {
        FlushBatches();
      }
    }

    /** One table: the batch is taken first, then its chunks are inserted. */
    method FlushTable(t: nat)
      requires t < |batches|
      modifies this`batches, disk
      ensures batches == old(batches)[t := []]
      ensures disk.log == old(disk.log) + TableWrites(old(disk.log), t, Chunks(cfg.full, t, old(batches)[t]))
    {
      var rows := batches[t];
      batches := batches[t := []];
      InsertTable(t, rows);
    }

    /** Every table's batch is taken and inserted, `blocks` last. */
    method FlushBatches()
      requires Valid()
      modifies this`batches, disk
      ensures Valid() && batches == EmptyBuffers(TABLES)
      ensures disk.log == old(disk.log) + PublishWrites(cfg, old(disk.log), old(batches), |old(batches)|)
    {
      ghost var before, log := batches, disk.log;
      for t := 0 to |batches|
        invariant |batches| == |before| == TABLES && deferred == old(deferred)
        invariant forall u | 0 <= u < |before| :: batches[u] == if u < t then [] else before[u]
        invariant disk.log == log + PublishWrites(cfg, log, before, t)
      {
        PublishStep(cfg, log, before, t);
        FlushTable(t);
      }
    }

    /** The deferred lists go out in the same order, then are cleared. */
    method PublishDeferred()
      requires Valid() && cfg.deferPublication && batches == EmptyBuffers(TABLES)
      modifies this, disk
      ensures Valid() && batches == EmptyBuffers(TABLES) && deferred == EmptyBuffers(TABLES)
      ensures disk.log == old(disk.log) + PublishWrites(cfg, old(disk.log), old(deferred), |old(deferred)|)
    {
      StageCurrentBatches();
      ghost var staged, log := old(deferred), disk.log;
      forall t | 0 <= t < TABLES ensures deferred[t] == staged[t] {
        assert staged[t] + [] == staged[t];
      }
      for t := 0 to |deferred|
        invariant Valid() && batches == EmptyBuffers(TABLES) && deferred == staged
        invariant disk.log == log + PublishWrites(cfg, log, staged, t)
      {
        PublishStep(cfg, log, staged, t);
        InsertTable(t, deferred[t]);
      }
      deferred := EmptyBuffers(TABLES);
    }
  }

  class Database {
    const cfg: Config
    var store: Store?
    var pendingCheckpoint: Option<int>
    var deferredPublished: bool
    /** The height delivered so far, which the processor keeps for the database. */
    var head: int

    ghost predicate Connected()
      reads this, store
    {
      && store != null && store.Valid() && store.cfg == cfg && store.batches == EmptyBuffers(TABLES)
      && (!cfg.deferPublication ==> pendingCheckpoint == None && !deferredPublished)
    }

    ghost function State(): Memory
      requires Connected()
      reads this, store
    {
      Memory(store.deferred, pendingCheckpoint, deferredPublished, head)
    }

    constructor (cfg: Config)
      ensures this.cfg == cfg && store == null && pendingCheckpoint == None && !deferredPublished
    {
      this.cfg := cfg;
      store, pendingCheckpoint, deferredPublished, head := null, None, false, 0;
    }

    method ConnectTo(disk: Disk, chainHead: Option<nat>) returns (resumed: int)
      requires pendingCheckpoint == None && !deferredPublished
      modifies this
      ensures Connected() && store.disk == disk && fresh(store)
      ensures resumed == ResumeHead(cfg, disk.log) && State() == Connect(FirstBlock(cfg, disk.log, chainHead))
    {
      store := new Store(cfg, disk);
      resumed := ResumeHead(cfg, disk.log);
      head := FirstBlock(cfg, disk.log, chainHead) - 1;
    }

    /** `transact`; `ok` is false where the source throws because it is not connected. */
    method TransactBatch(nextHead: int) returns (ok: bool)
      requires store != null ==> Connected() && head < nextHead
      modifies this, if store != null then {store, store.disk} else {}
      ensures ok == (old(store) != null) && store == old(store)
      ensures ok ==> Connected() && State() == Transact(cfg, old(store.disk.log), old(State()), nextHead).0
      ensures ok ==> store.disk.log == old(store.disk.log) + Transact(cfg, old(store.disk.log), old(State()), nextHead).1
    {
      if store == null {
        return false;
      }
      ok := true;
      ghost var log, m := store.disk.log, State();
      ghost var staged := Buffered(cfg.rowsOf, m.staged, m.head + 1, nextHead);
      TransactCases(cfg, log, m, nextHead, staged, if cfg.deferPublication then PendingAfter(m, nextHead) else nextHead);
      Deliver(nextHead);
      Settle(nextHead);
      if !cfg.deferPublication {
        Associate(log, PublishWrites(cfg, log, staged, |staged|), [SaveCheckpoint(nextHead)]);
      }
    }

    /** `cb`, then `flushAll`. */
    method Deliver(nextHead: int)
      requires Connected() && head < nextHead
      modifies this`head, store, store.disk
      ensures Connected() && store == old(store) && head == nextHead
      ensures var staged := Buffered(cfg.rowsOf, old(store.deferred), old(head) + 1, nextHead);
              if cfg.deferPublication then store.deferred == staged && store.disk.log == old(store.disk.log)
              else
                && store.deferred == old(store.deferred)
                && store.disk.log == old(store.disk.log) + PublishWrites(cfg, old(store.disk.log), staged, |staged|)
    {
      ghost var staged := Buffered(cfg.rowsOf, store.deferred, head + 1, nextHead);
      store.AddBlocks(head + 1, nextHead);
      ghost var batches := store.batches;
      head := nextHead;
      store.FlushAll();
      if cfg.deferPublication {
        forall t | 0 <= t < TABLES ensures store.deferred[t] == staged[t] {
          assert [] + BlockRows(cfg.rowsOf, t, old(head) + 1, nextHead) == BlockRows(cfg.rowsOf, t, old(head) + 1, nextHead);
        }
      } else {
        assert batches == staged;
      }
    }

    /** What follows the flush: a deferred run publishes once it reaches its block, any other
        checkpoints at once. */
    method Settle(nextHead: int)
      requires Connected() && head == nextHead
      modifies this`pendingCheckpoint, this`deferredPublished, store, store.disk
      ensures Connected() && store == old(store)
      ensures pendingCheckpoint == if cfg.deferPublication then Some(PendingAfter(old(State()), nextHead)) else None
      ensures deferredPublished == (cfg.deferPublication && (old(deferredPublished) || Publishes(cfg, old(State()), nextHead)))
      ensures cfg.deferPublication && Publishes(cfg, old(State()), nextHead) ==>
        store.deferred == EmptyBuffers(TABLES)
        && store.disk.log == old(store.disk.log) + Publish(cfg, old(store.disk.log), old(store.deferred), pendingCheckpoint.value)
      ensures cfg.deferPublication && !Publishes(cfg, old(State()), nextHead) ==>
        store.deferred == old(store.deferred) && store.disk.log == old(store.disk.log)
      ensures !cfg.deferPublication ==>
        store.deferred == old(store.deferred) && store.disk.log == old(store.disk.log) + [SaveCheckpoint(nextHead)]
    {
      if cfg.deferPublication {
        pendingCheckpoint := Some(Max(if pendingCheckpoint.Some? then pendingCheckpoint.value else 0, nextHead));
        if !deferredPublished && cfg.toBlock.Some? && nextHead >= cfg.toBlock.value {
          PublishDeferred();
        }
      } else {
        store.disk.Insert(SaveCheckpoint(nextHead));
      }
    }

    method PublishDeferred()
      requires Connected() && cfg.deferPublication && pendingCheckpoint.Some?
      modifies this`deferredPublished, store, store.disk
      ensures Connected() && deferredPublished && store.deferred == EmptyBuffers(TABLES)
      ensures store.disk.log == old(store.disk.log) + Publish(cfg, old(store.disk.log), old(store.deferred), pendingCheckpoint.value)
    {
      store.PublishDeferred();
      store.disk.Insert(SaveCheckpoint(pendingCheckpoint.value));
      deferredPublished := true;
    }
  }
}
