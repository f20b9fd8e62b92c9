/** `RawDatabase` and the store under it, as objects: buffers emptied table by table, inserts
    awaited one after the other, and the flags that live only in memory. */
module RawDatabase {
  import opened Wrappers
  import opened RowBuffers
  import opened RawIngestion

  /** The database: the inserts that completed, oldest first. It only ever grows, so whatever
      moment a crash picks, a prefix of this log survives. */
  class Disk {
    var log: seq<Write>

    constructor (log: seq<Write>)
      ensures this.log == log
    {
      this.log := log;
    }

    method Insert(w: Write)
      modifies this
      ensures log == old(log) + [w]
    {
      log := log + [w];
    }
  }

  lemma FlushStep(cfg: Config, buffers: seq<seq<Row>>, t: nat, own: seq<Write>)
    requires t < |buffers| && own == Inserts(Chunks(cfg.full, t, buffers[t]))
    ensures FlushWrites(cfg, buffers, t + 1) == FlushWrites(cfg, buffers, t) + own
  {
  }

  /** `RawClickHouseStore`. */
  class RawStore {
    const cfg: Config
    const disk: Disk
    var buffers: seq<seq<Row>>

    ghost predicate Valid()
      reads this
    {
      |buffers| == cfg.tables >= 1
    }

    constructor (cfg: Config, disk: Disk)
      requires 1 <= cfg.tables
      ensures Valid() && this.cfg == cfg && this.disk == disk && buffers == EmptyBuffers(cfg.tables)
    {
      this.cfg, this.disk := cfg, disk;
      buffers := EmptyBuffers(cfg.tables);
    }

    /** `cb`: the rows of the delivered blocks join their tables' buffers. */
    method AddBlocks(first: int, last: int)
      requires Valid()
      modifies this
      ensures Valid() && buffers == Buffered(cfg.rowsOf, old(buffers), first, last)
    {
      var b := first;
      forall t | 0 <= t < |buffers| ensures buffers[t] == Buffered(cfg.rowsOf, buffers, first, first - 1)[t] {
        assert buffers[t] + [] == buffers[t];
      }
      while b <= last
        invariant Valid() && buffers == Buffered(cfg.rowsOf, old(buffers), first, b - 1)
        invariant first <= b && (b <= last + 1 || b == first)
        decreases last - b
      {
        buffers := seq(|buffers|, t requires 0 <= t < |buffers| reads this => buffers[t] + cfg.rowsOf(b, t));
        forall t | 0 <= t < |buffers| ensures buffers[t] == Buffered(cfg.rowsOf, old(buffers), first, b)[t] {}
        b := b + 1;
      }
      forall t | 0 <= t < |buffers| ensures buffers[t] == Buffered(cfg.rowsOf, old(buffers), first, last)[t] {
        if last < first {
          assert BlockRows(cfg.rowsOf, t, first, last) == BlockRows(cfg.rowsOf, t, first, b - 1) == [];
        }
      }
    }

    method PendingRowCount() returns (n: nat)
      ensures n == PendingRows(buffers)
    {
      n := 0;
      for t := 0 to |buffers|
        invariant n == PendingRows(buffers[..t])
      {
        assert buffers[..t + 1][..t] == buffers[..t];
        n := if |buffers[t]| > n then |buffers[t]| else n;
      }
      assert buffers[..|buffers|] == buffers;
    }

    /** One table: the buffer is taken first, then its chunks are inserted one by one. */
    method FlushTable(t: nat) returns (ghost inserted: seq<Write>)
      requires Valid() && t < |buffers|
      modifies this, disk
      ensures Valid() && buffers == old(buffers)[t := []]
      ensures inserted == Inserts(Chunks(cfg.full, t, old(buffers)[t])) && disk.log == old(disk.log) + inserted
    {
      var chunks := Chunks(cfg.full, t, buffers[t]);
      buffers := buffers[t := []];
      for i := 0 to |chunks|
        invariant Valid() && buffers == old(buffers)[t := []]
        invariant disk.log == old(disk.log) + Inserts(chunks[..i])
      {
        assert chunks[..i + 1][..i] == chunks[..i];
        disk.Insert(InsertRows(chunks[i]));
      }
      assert chunks[..|chunks|] == chunks;
      inserted := Inserts(chunks);
    }

    method FlushAll()
      requires Valid()
      modifies this, disk
      ensures Valid() && buffers == EmptyBuffers(|old(buffers)|)
      ensures disk.log == old(disk.log) + FlushWrites(cfg, old(buffers), |old(buffers)|)
    {
      ghost var before, log, flushed: seq<Write> := buffers, disk.log, [];
      for t := 0 to |buffers|
        invariant Valid() && |before| == |buffers| == cfg.tables
        invariant forall u | 0 <= u < |before| :: buffers[u] == if u < t then [] else before[u]
        invariant disk.log == log + flushed && flushed == FlushWrites(cfg, before, t)
      {
        ghost var own := FlushTable(t);
        Associate(log, flushed, own);
        FlushStep(cfg, before, t, own);
        flushed := flushed + own;
      }
    }
  }

  /** `RawDatabase`. */
  class RawDatabase {
    const cfg: Config
    var store: RawStore?
    var rangeFinalized: bool
    var lastFlushAt: int
    /** The height delivered so far, which the processor keeps for the database. */
    var head: int

    ghost predicate Connected()
      reads this, store
    {
      store != null && store.Valid() && store.cfg == cfg
    }

    ghost function State(): Memory
      requires Connected()
      reads this, store
    {
      Memory(store.buffers, rangeFinalized, lastFlushAt, head)
    }

    constructor (cfg: Config, now: int)
      ensures this.cfg == cfg && store == null && !rangeFinalized && lastFlushAt == now
    {
      this.cfg := cfg;
      store, rangeFinalized, lastFlushAt, head := null, false, now, 0;
    }

    /** `connect`, then what `runRaw` asks the processor for; a finished worker only finalises. */
    method ConnectTo(disk: Disk, chainHead: Option<nat>) returns (resumed: int)
      requires 1 <= cfg.tables && !rangeFinalized
      modifies this, disk
      ensures Connected() && store.disk == disk && fresh(store)
      ensures resumed == ResumeHead(cfg, CheckpointOf(old(disk.log)))
      ensures State() == Connect(cfg, old(disk.log), chainHead, old(lastFlushAt))
      ensures disk.log == old(disk.log) + if OnlyFinalizes(cfg, old(disk.log)) then [CompleteRange] else []
    {
      store := new RawStore(cfg, disk);
      resumed := ResumeHead(cfg, CheckpointOf(disk.log));
      head := FirstBlock(cfg, disk.log, chainHead) - 1;
      if OnlyFinalizes(cfg, disk.log) {
        FinalizeRange();
      }
    }

    method FinalizeRange()
      requires Connected()
      modifies this, store.disk
      ensures Connected() && store == old(store) && rangeFinalized && lastFlushAt == old(lastFlushAt) && head == old(head)
      ensures store.disk.log == old(store.disk.log) + if old(rangeFinalized) then [] else [CompleteRange]
    {
      if rangeFinalized {
        return;
      }
      store.disk.Insert(CompleteRange);
      rangeFinalized := true;
    }

    /** `transact`; `ok` is false where the source throws because it is not connected. */
    method TransactBatch(info: Info) returns (ok: bool)
      requires store != null ==> Connected()
      modifies this, if store != null then {store, store.disk} else {}
      ensures ok == (old(store) != null) && store == old(store)
      ensures ok ==> Connected() && State() == Transact(cfg, old(State()), info).0
      ensures ok ==> store.disk.log == old(store.disk.log) + Transact(cfg, old(State()), info).1
    {
      if store == null {
        return false;
      }
      ok := true;
      store.AddBlocks(head + 1, info.nextHead);
      head := info.nextHead;
      var reachedRangeEnd := cfg.range.Some? && info.nextHead >= cfg.range.value.toBlock;
      var triggered := Triggered(info, reachedRangeEnd);
      if !triggered {
        return;
      }
      Persist(info, reachedRangeEnd);
    }

    method Triggered(info: Info, reachedRangeEnd: bool) returns (triggered: bool)
      requires Connected() && reachedRangeEnd == ReachedEnd(cfg, info)
      ensures triggered == ShouldFlush(PolicyState(cfg, store.buffers, lastFlushAt, info), cfg.limits)
    {
      var pendingRows := store.PendingRowCount();
      triggered := ShouldFlush(FlushState(|store.buffers[0]|, pendingRows, info.now - lastFlushAt, info.isOnTop, reachedRangeEnd), cfg.limits);
    }

    /** What a triggered flush does: all rows, then the checkpoint, then the range. */
    method Persist(info: Info, reachedRangeEnd: bool)
      requires Connected() && reachedRangeEnd == ReachedEnd(cfg, info)
      modifies this, store, store.disk
      ensures Connected() && store == old(store) && head == old(head) && lastFlushAt == info.flushedAt
      ensures store.buffers == EmptyBuffers(|old(store.buffers)|)
      ensures rangeFinalized == (old(rangeFinalized) || reachedRangeEnd)
      ensures store.disk.log == old(store.disk.log)
                + FlushAndSave(cfg, old(store.buffers), info.nextHead, reachedRangeEnd && !old(rangeFinalized))
    {
      store.FlushAll();
      lastFlushAt := info.flushedAt;
      store.disk.Insert(SaveCheckpoint(info.nextHead));
      if cfg.range.Some? && !rangeFinalized && reachedRangeEnd {
        FinalizeRange();
      }
    }
  }
}
