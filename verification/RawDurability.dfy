/** What the raw pipeline's durability protocol promises. */
module RawDurability {
  import opened Wrappers
  import opened RowBuffers
  import opened RawIngestion

  // ---------------------------------------------------------------- durable rows

  ghost predicate Inserted(log: seq<Write>, r: Row) {
    exists i :: 0 <= i < |log| && log[i].InsertRows? && r in log[i].rows
  }

  /** Every row of a block is on disk. */
  ghost predicate Durable(cfg: Config, log: seq<Write>, b: int) {
    forall t, r | 0 <= t < cfg.tables && r in cfg.rowsOf(b, t) :: Inserted(log, r)
  }

  ghost predicate DurableFrom(cfg: Config, log: seq<Write>, first: int, last: int) {
    forall b {:trigger Durable(cfg, log, b)} | first <= b <= last :: Durable(cfg, log, b)
  }

  /** A write may follow a log when what it announces is already on disk: a checkpoint covers
      every block from `from` on and never falls, a completed range is checkpointed. */
  ghost predicate MayFollow(cfg: Config, from: int, log: seq<Write>, w: Write) {
    match w
    case InsertRows(_) => true
    case SaveCheckpoint(h) => from <= h && NotAbove(log, h) && DurableFrom(cfg, log, from, h)
    case CompleteRange =>
      && cfg.range.Some? && CheckpointOf(log).Some? && CheckpointOf(log).value >= cfg.range.value.toBlock
      && DurableFrom(cfg, log, cfg.range.value.fromBlock, cfg.range.value.toBlock)
  }

  predicate NotAbove(log: seq<Write>, h: int) { CheckpointOf(log).Some? ==> CheckpointOf(log).value <= h }

  /** At every moment of the log, checkpoints and range completions tell the truth. */
  ghost predicate Safe(cfg: Config, from: int, log: seq<Write>) {
    forall i {:trigger log[i]} | 0 <= i < |log| :: MayFollow(cfg, from, log[..i], log[i])
  }

  lemma InsertedGrows(log: seq<Write>, more: seq<Write>, r: Row)
    requires Inserted(log, r)
    ensures Inserted(log + more, r)
  {
    var i :| 0 <= i < |log| && log[i].InsertRows? && r in log[i].rows;
    assert (log + more)[i] == log[i];
  }

  lemma DurableGrows(cfg: Config, log: seq<Write>, more: seq<Write>, b: int)
    requires Durable(cfg, log, b)
    ensures Durable(cfg, log + more, b)
  {
    forall t, r | 0 <= t < cfg.tables && r in cfg.rowsOf(b, t) ensures Inserted(log + more, r) {
      InsertedGrows(log, more, r);
    }
  }

  lemma SafePrefix(cfg: Config, from: int, log: seq<Write>, n: nat)
    requires Safe(cfg, from, log) && n <= |log|
    ensures Safe(cfg, from, log[..n])
  {
    forall i | 0 <= i < n ensures MayFollow(cfg, from, log[..n][..i], log[..n][i]) {
      assert log[..n][..i] == log[..i] && log[..n][i] == log[i];
    }
  }

  lemma SafeExtends(cfg: Config, from: int, log: seq<Write>, w: Write)
    requires Safe(cfg, from, log) && MayFollow(cfg, from, log, w)
    ensures Safe(cfg, from, log + [w])
  {
    var all := log + [w];
    forall i | 0 <= i < |all| ensures MayFollow(cfg, from, all[..i], all[i]) {
      if i < |log| { assert all[..i] == log[..i]; } else { assert all[..i] == log; }
    }
  }

  lemma {:induction false} InsertsAreSafe(cfg: Config, from: int, log: seq<Write>, writes: seq<Write>)
    requires Safe(cfg, from, log) && forall w | w in writes :: w.InsertRows?
    ensures Safe(cfg, from, log + writes)
  {
    if writes == [] {
      assert log + writes == log;
    } else {
      InsertsAreSafe(cfg, from, log, writes[..|writes| - 1]);
      SafeExtends(cfg, from, log + writes[..|writes| - 1], writes[|writes| - 1]);
      assert log + writes == (log + writes[..|writes| - 1]) + [writes[|writes| - 1]];
    }
  }

  // ---------------------------------------------------------------- flushing writes everything

  lemma {:induction false} InsertsHoldAll(chunks: seq<seq<Row>>, r: Row)
    requires InChunks(chunks, r)
    ensures Inserted(Inserts(chunks), r)
  {
    var front := chunks[..|chunks| - 1];
    if r in chunks[|chunks| - 1] {
      assert Inserts(chunks)[|Inserts(chunks)| - 1] == InsertRows(chunks[|chunks| - 1]);
    } else {
      var i :| 0 <= i < |chunks| && r in chunks[i];
      assert front[i] == chunks[i];
      InsertsHoldAll(front, r);
      InsertedGrows(Inserts(front), [InsertRows(chunks[|chunks| - 1])], r);
    }
  }

  lemma {:induction false} InsertsOnlyInsert(chunks: seq<seq<Row>>)
    ensures forall w | w in Inserts(chunks) :: w.InsertRows?
  {
    if chunks != [] { InsertsOnlyInsert(chunks[..|chunks| - 1]); }
  }

  lemma {:induction false} FlushOnlyInserts(cfg: Config, buffers: seq<seq<Row>>, n: nat)
    requires n <= |buffers|
    ensures forall w | w in FlushWrites(cfg, buffers, n) :: w.InsertRows?
  {
    if n > 0 {
      var t := n - 1;
      FlushOnlyInserts(cfg, buffers, t);
      InsertsOnlyInsert(Chunks(cfg.full, t, buffers[t]));
    }
  }

  lemma {:induction false} FlushHoldsAll(cfg: Config, buffers: seq<seq<Row>>, n: nat, t: nat, r: Row)
    requires t < n <= |buffers| && r in buffers[t]
    ensures Inserted(FlushWrites(cfg, buffers, n), r)
  {
    var front, own := FlushWrites(cfg, buffers, n - 1), Inserts(Chunks(cfg.full, n - 1, buffers[n - 1]));
    if t < n - 1 {
      FlushHoldsAll(cfg, buffers, n - 1, t, r);
      InsertedGrows(front, own, r);
    } else {
      ChunksHoldAll(cfg.full, t, buffers[t], r);
      InsertsHoldAll(Chunks(cfg.full, t, buffers[t]), r);
      var i :| 0 <= i < |own| && own[i].InsertRows? && r in own[i].rows;
      assert (front + own)[|front| + i] == own[i];
    }
  }

  // ---------------------------------------------------------------- what a process keeps

  ghost predicate Reachable(cfg: Config, log: seq<Write>, buffers: seq<seq<Row>>, b: int)
    requires |buffers| == cfg.tables
  {
    forall t, r | 0 <= t < cfg.tables && r in cfg.rowsOf(b, t) :: Inserted(log, r) || r in buffers[t]
  }

  /** Every block delivered so far is on disk or in the buffers. */
  ghost predicate NothingLost(cfg: Config, from: int, log: seq<Write>, m: Memory)
    requires |m.buffers| == cfg.tables
  {
    forall b {:trigger Reachable(cfg, log, m.buffers, b)} | from <= b <= m.head :: Reachable(cfg, log, m.buffers, b)
  }

  lemma BufferingLosesNothing(cfg: Config, from: int, log: seq<Write>, m: Memory, last: int)
    requires |m.buffers| == cfg.tables && NothingLost(cfg, from, log, m)
    ensures NothingLost(cfg, from, log, m.(buffers := Buffered(cfg.rowsOf, m.buffers, m.head + 1, last), head := last))
  {
    var buffers := Buffered(cfg.rowsOf, m.buffers, m.head + 1, last);
    forall b | from <= b <= last ensures Reachable(cfg, log, buffers, b) {
      forall t, r | 0 <= t < cfg.tables && r in cfg.rowsOf(b, t) ensures Inserted(log, r) || r in buffers[t] {
        if b <= m.head {
          assert Reachable(cfg, log, m.buffers, b);
        } else {
          BlockRowsHoldAll(cfg.rowsOf, t, m.head + 1, last, b, r);
        }
      }
    }
  }

  lemma FlushMakesDurable(cfg: Config, log: seq<Write>, buffers: seq<seq<Row>>, b: int)
    requires |buffers| == cfg.tables && Reachable(cfg, log, buffers, b)
    ensures Durable(cfg, log + FlushWrites(cfg, buffers, |buffers|), b)
  {
    var writes := FlushWrites(cfg, buffers, |buffers|);
    forall t, r | 0 <= t < cfg.tables && r in cfg.rowsOf(b, t) ensures Inserted(log + writes, r) {
      if Inserted(log, r) {
        InsertedGrows(log, writes, r);
      } else {
        FlushHoldsAll(cfg, buffers, |buffers|, t, r);
        var i :| 0 <= i < |writes| && writes[i].InsertRows? && r in writes[i].rows;
        assert (log + writes)[|log| + i] == writes[i];
      }
    }
  }

  lemma DurableFromGrows(cfg: Config, log: seq<Write>, more: seq<Write>, first: int, last: int)
    requires DurableFrom(cfg, log, first, last)
    ensures DurableFrom(cfg, log + more, first, last)
  {
    forall b | first <= b <= last ensures Durable(cfg, log + more, b) { DurableGrows(cfg, log, more, b); }
  }

  lemma {:induction false} InsertsSaveNothing(log: seq<Write>, writes: seq<Write>)
    requires forall w | w in writes :: w.InsertRows?
    ensures CheckpointOf(log + writes) == CheckpointOf(log)
  {
    if writes == [] {
      assert log + writes == log;
    } else {
      InsertsSaveNothing(log, writes[..|writes| - 1]);
      assert writes[|writes| - 1] in writes;
      assert (log + writes)[..|log + writes| - 1] == log + writes[..|writes| - 1];
    }
  }

  /** What a process keeps of the disk and its own memory between two batches. */
  ghost predicate Keeps(cfg: Config, from: int, log: seq<Write>, m: Memory)
    requires |m.buffers| == cfg.tables
  {
    && Safe(cfg, from, log) && NothingLost(cfg, from, log, m)
    && from <= m.head + 1 && NotAbove(log, m.head)
    && (cfg.range.Some? ==> from <= cfg.range.value.fromBlock)
  }

  lemma FlushedIsDurable(cfg: Config, from: int, log: seq<Write>, m: Memory)
    requires |m.buffers| == cfg.tables && Keeps(cfg, from, log, m)
    ensures var flushed := log + FlushWrites(cfg, m.buffers, |m.buffers|);
            Safe(cfg, from, flushed) && NotAbove(flushed, m.head) && DurableFrom(cfg, flushed, from, m.head)
  {
    var flush := FlushWrites(cfg, m.buffers, |m.buffers|);
    FlushOnlyInserts(cfg, m.buffers, |m.buffers|);
    InsertsAreSafe(cfg, from, log, flush);
    InsertsSaveNothing(log, flush);
    forall b | from <= b <= m.head ensures Durable(cfg, log + flush, b) {
      assert Reachable(cfg, log, m.buffers, b);
      FlushMakesDurable(cfg, log, m.buffers, b);
    }
  }

  /** Once all delivered blocks are durable, the checkpoint and then the range may be saved. */
  lemma SavingIsSafe(cfg: Config, from: int, log: seq<Write>, head: int, finalizes: bool)
    requires Safe(cfg, from, log) && NotAbove(log, head) && DurableFrom(cfg, log, from, head) && from <= head
    requires finalizes ==> cfg.range.Some? && head >= cfg.range.value.toBlock && from <= cfg.range.value.fromBlock
    ensures var saved := log + [SaveCheckpoint(head)] + if finalizes then [CompleteRange] else [];
            Safe(cfg, from, saved) && CheckpointOf(saved) == Some(head) && DurableFrom(cfg, saved, from, head)
  {
    var saved := log + [SaveCheckpoint(head)];
    SafeExtends(cfg, from, log, SaveCheckpoint(head));
    DurableFromGrows(cfg, log, [SaveCheckpoint(head)], from, head);
    assert CheckpointOf(saved) == Some(head);
    if finalizes {
      SafeExtends(cfg, from, saved, CompleteRange);
      DurableFromGrows(cfg, saved, [CompleteRange], from, head);
      assert (saved + [CompleteRange])[..|saved|] == saved;
    } else {
      assert saved + [] == saved;
    }
  }

  lemma FlushKeeps(cfg: Config, from: int, log: seq<Write>, m: Memory, finalizes: bool, m': Memory)
    requires |m.buffers| == cfg.tables == |m'.buffers| && Keeps(cfg, from, log, m) && m'.head == m.head && from <= m.head
    requires finalizes ==> cfg.range.Some? && m.head >= cfg.range.value.toBlock
    ensures Keeps(cfg, from, log + FlushAndSave(cfg, m.buffers, m.head, finalizes), m')
  {
    FlushedIsDurable(cfg, from, log, m);
    SavedKeeps(cfg, from, log + FlushWrites(cfg, m.buffers, |m.buffers|), finalizes, m');
    FlushThenSave(cfg, log, m.buffers, m.head, finalizes);
  }

  lemma FlushThenSave(cfg: Config, log: seq<Write>, buffers: seq<seq<Row>>, head: int, finalizes: bool)
    ensures log + FlushAndSave(cfg, buffers, head, finalizes)
         == log + FlushWrites(cfg, buffers, |buffers|) + [SaveCheckpoint(head)] + if finalizes then [CompleteRange] else []
  {
  }

  lemma SavedKeeps(cfg: Config, from: int, log: seq<Write>, finalizes: bool, m: Memory)
    requires |m.buffers| == cfg.tables && Safe(cfg, from, log) && NotAbove(log, m.head)
    requires DurableFrom(cfg, log, from, m.head) && from <= m.head && (cfg.range.Some? ==> from <= cfg.range.value.fromBlock)
    requires finalizes ==> cfg.range.Some? && m.head >= cfg.range.value.toBlock
    ensures Keeps(cfg, from, log + [SaveCheckpoint(m.head)] + if finalizes then [CompleteRange] else [], m)
  {
    SavingIsSafe(cfg, from, log, m.head, finalizes);
    DurableIsKept(cfg, from, log + [SaveCheckpoint(m.head)] + if finalizes then [CompleteRange] else [], m);
  }

  lemma DurableIsKept(cfg: Config, from: int, log: seq<Write>, m: Memory)
    requires |m.buffers| == cfg.tables && DurableFrom(cfg, log, from, m.head)
    ensures NothingLost(cfg, from, log, m)
  {
    forall b | from <= b <= m.head ensures Reachable(cfg, log, m.buffers, b) {
      assert Durable(cfg, log, b);
    }
  }

  lemma BufferedKeeps(cfg: Config, from: int, log: seq<Write>, m: Memory, last: int)
    requires |m.buffers| == cfg.tables && Keeps(cfg, from, log, m) && last > m.head
    ensures Keeps(cfg, from, log, m.(buffers := Buffered(cfg.rowsOf, m.buffers, m.head + 1, last), head := last))
  {
    BufferingLosesNothing(cfg, from, log, m, last);
  }

  lemma TransactKeeps(cfg: Config, from: int, log: seq<Write>, m: Memory, info: Info)
    requires |m.buffers| == cfg.tables >= 1 && Keeps(cfg, from, log, m) && info.nextHead > m.head
    ensures Keeps(cfg, from, log + Transact(cfg, m, info).1, Transact(cfg, m, info).0)
  {
    var buffered := m.(buffers := Buffered(cfg.rowsOf, m.buffers, m.head + 1, info.nextHead), head := info.nextHead);
    BufferedKeeps(cfg, from, log, m, info.nextHead);
    if Flushes(cfg, m, info) {
      FlushKeeps(cfg, from, log, buffered, ReachedEnd(cfg, info) && !m.rangeFinalized, Transact(cfg, m, info).0);
    } else {
      assert log + [] == log;
    }
  }

  // ---------------------------------------------------------------- resuming

  lemma {:induction false} CheckpointIsDurable(cfg: Config, from: int, log: seq<Write>)
    requires Safe(cfg, from, log) && CheckpointOf(log).Some?
    ensures from <= CheckpointOf(log).value && DurableFrom(cfg, log, from, CheckpointOf(log).value)
  {
    var n := |log| - 1;
    assert log == log[..n] + [log[n]];
    if log[n].SaveCheckpoint? {
      assert MayFollow(cfg, from, log[..n], log[n]);
    } else {
      SafePrefix(cfg, from, log, n);
      CheckpointIsDurable(cfg, from, log[..n]);
    }
    DurableFromGrows(cfg, log[..n], [log[n]], from, CheckpointOf(log).value);
  }

  /** Without a checkpoint nothing has been promised of any block. */
  lemma UnsavedIsSafe(cfg: Config, from: int, log: seq<Write>, other: int)
    requires Safe(cfg, from, log) && CheckpointOf(log).None?
    ensures Safe(cfg, other, log)
  {
    forall i | 0 <= i < |log| ensures MayFollow(cfg, other, log[..i], log[i]) {
      assert MayFollow(cfg, from, log[..i], log[i]);
      if log[i].SaveCheckpoint? { SavedStaysSaved(log, i); }
    }
  }

  lemma {:induction false} SavedStaysSaved(log: seq<Write>, i: nat)
    requires i < |log| && log[i].SaveCheckpoint?
    ensures CheckpointOf(log).Some?
  {
    if i < |log| - 1 { SavedStaysSaved(log[..|log| - 1], i); }
  }

  /** A block from which this configuration may count on its checkpoints. */
  predicate Baseline(cfg: Config, from: int) {
    && (if cfg.fromBlock.Some? then from >= cfg.fromBlock.value else from >= 1)
    && (cfg.range.Some? ==> from == cfg.range.value.fromBlock)
  }

  /** A process that finds a checkpoint goes on right above it. */
  lemma ResumesAboveCheckpoint(cfg: Config, from: int, log: seq<Write>, chainHead: Option<nat>)
    requires Baseline(cfg, from) && Safe(cfg, from, log) && CheckpointOf(log).Some?
    ensures FirstBlock(cfg, log, chainHead) == CheckpointOf(log).value + 1
  {
    CheckpointIsDurable(cfg, from, log);
  }

  /** A process may begin with block `first` on a disk that is safe from some block on when every
      block from there to `first` is on it. */
  ghost predicate Ready(cfg: Config, from: int, log: seq<Write>, first: int) {
    && Safe(cfg, from, log) && (cfg.range.Some? ==> from <= cfg.range.value.fromBlock)
    && from <= first && DurableFrom(cfg, log, from, first - 1)
  }

  lemma ConnectKeeps(cfg: Config, from: int, log: seq<Write>, life: Life)
    requires cfg.Valid() && Ready(cfg, from, log, FirstBlock(cfg, log, life.chainHead))
    ensures Keeps(cfg, from, log + Lived(cfg, log, life, 0).1, Lived(cfg, log, life, 0).0)
  {
    var m := Connect(cfg, log, life.chainHead, life.startedAt);
    if OnlyFinalizes(cfg, log) {
      SafeExtends(cfg, from, log, CompleteRange);
      DurableFromGrows(cfg, log, [CompleteRange], from, m.head);
      assert (log + [CompleteRange])[..|log|] == log;
      DurableIsKept(cfg, from, log + [CompleteRange], m);
    } else {
      assert log + [] == log;
      DurableIsKept(cfg, from, log, m);
    }
  }

  // ---------------------------------------------------------------- whole histories

  lemma TransactedKeeps(cfg: Config, from: int, log: seq<Write>, writes: seq<Write>, m: Memory, info: Info)
    requires |m.buffers| == cfg.tables >= 1 && Keeps(cfg, from, log + writes, m) && info.nextHead > m.head
    ensures Keeps(cfg, from, log + (writes + Transact(cfg, m, info).1), Transact(cfg, m, info).0)
  {
    TransactKeeps(cfg, from, log + writes, m, info);
    Associate(log, writes, Transact(cfg, m, info).1);
  }

  lemma {:induction false} LifeKeeps(cfg: Config, from: int, log: seq<Write>, life: Life, n: nat)
    requires cfg.Valid() && InOrder(cfg, log, life) && n <= |life.batches|
    requires Ready(cfg, from, log, FirstBlock(cfg, log, life.chainHead))
    ensures Keeps(cfg, from, log + Lived(cfg, log, life, n).1, Lived(cfg, log, life, n).0)
    ensures Lived(cfg, log, life, n).0.head == HeadBefore(cfg, log, life, n)
  {
    if n == 0 {
      ConnectKeeps(cfg, from, log, life);
    } else {
      LifeKeeps(cfg, from, log, life, n - 1);
      assert IsNext(cfg, log, life, n - 1);
      TransactedKeeps(cfg, from, log, Lived(cfg, log, life, n - 1).1, Lived(cfg, log, life, n - 1).0, life.batches[n - 1]);
    }
  }

  lemma LifeIsSafe(cfg: Config, from: int, log: seq<Write>, life: Life)
    requires cfg.Valid() && InOrder(cfg, log, life) && Ready(cfg, from, log, FirstBlock(cfg, log, life.chainHead))
    ensures Safe(cfg, from, AfterLife(cfg, log, life))
  {
    LifeWritesAreSafe(cfg, from, log, life);
    var writes := LifeWrites(cfg, log, life);
    if life.survived < |writes| { SafeCut(cfg, from, log, writes, life.survived); }
  }

  lemma LifeWritesAreSafe(cfg: Config, from: int, log: seq<Write>, life: Life)
    requires cfg.Valid() && InOrder(cfg, log, life) && Ready(cfg, from, log, FirstBlock(cfg, log, life.chainHead))
    ensures Safe(cfg, from, log + LifeWrites(cfg, log, life))
  {
    LifeKeeps(cfg, from, log, life, |life.batches|);
  }

  lemma SafeCut(cfg: Config, from: int, log: seq<Write>, writes: seq<Write>, n: nat)
    requires Safe(cfg, from, log + writes) && n <= |writes|
    ensures Safe(cfg, from, log + writes[..n])
  {
    SafePrefix(cfg, from, log + writes, |log| + n);
    assert (log + writes)[..|log| + n] == log + writes[..n];
  }

  /** The first block of the last process that found no checkpoint: the one that saves the first. */
  ghost function Base(cfg: Config, lives: seq<Life>): int
    requires 1 <= cfg.tables && IsHistory(cfg, lives)
  {
    if lives == [] then FirstBlock(cfg, [], None)
    else
      var log := Disk(cfg, lives[..|lives| - 1]);
      if CheckpointOf(log).None? then FirstBlock(cfg, log, lives[|lives| - 1].chainHead) else Base(cfg, lives[..|lives| - 1])
  }

  /** In every history of processes, each crashing at an arbitrary moment, even between two
      chunks of one flush, and each asked for a block of its own: whenever a checkpoint was
      stored it was no lower than the one before, and every block up to it was on disk from the
      block on where the process began that saved the first; and whenever a range was completed,
      all of its blocks were on disk and checkpointed. */
  lemma {:induction false} HistoryIsSafe(cfg: Config, lives: seq<Life>)
    requires cfg.Valid() && IsHistory(cfg, lives)
    ensures Baseline(cfg, Base(cfg, lives)) && Safe(cfg, Base(cfg, lives), Disk(cfg, lives))
  {
    if lives != [] {
      var front, life := lives[..|lives| - 1], lives[|lives| - 1];
      var log := Disk(cfg, front);
      HistoryIsSafe(cfg, front);
      if CheckpointOf(log).None? {
        UnsavedIsSafe(cfg, Base(cfg, front), log, Base(cfg, lives));
      } else {
        ResumesAboveCheckpoint(cfg, Base(cfg, front), log, life.chainHead);
        CheckpointIsDurable(cfg, Base(cfg, front), log);
      }
      LifeIsSafe(cfg, Base(cfg, lives), log, life);
    }
  }

  /** The process that resumes such a history at a checkpoint skips nothing: every block before
      the first it asks for is on disk. */
  lemma ResumeSkipsNothing(cfg: Config, lives: seq<Life>, chainHead: Option<nat>, b: int)
    requires cfg.Valid() && IsHistory(cfg, lives) && CheckpointOf(Disk(cfg, lives)).Some?
    requires Base(cfg, lives) <= b < FirstBlock(cfg, Disk(cfg, lives), chainHead)
    ensures Durable(cfg, Disk(cfg, lives), b)
  {
    HistoryIsSafe(cfg, lives);
    ResumesAboveCheckpoint(cfg, Base(cfg, lives), Disk(cfg, lives), chainHead);
    CheckpointIsDurable(cfg, Base(cfg, lives), Disk(cfg, lives));
  }

  // ---------------------------------------------------------------- the blocks a pipeline was asked for

  /** The lowest block a process was asked for while there was no checkpoint, among `lives` and
      one more started after them. */
  ghost function Origin(cfg: Config, lives: seq<Life>, chainHead: Option<nat>): int
    requires 1 <= cfg.tables && IsHistory(cfg, lives)
  {
    var log := Disk(cfg, lives);
    if lives == [] then Asked(cfg, log, chainHead)
    else
      var before := Origin(cfg, lives[..|lives| - 1], lives[|lives| - 1].chainHead);
      if CheckpointOf(log).Some? || before <= Asked(cfg, log, chainHead) then before else Asked(cfg, log, chainHead)
  }

  /** Checkpoints cover every block asked for, not only those from the base on. */
  ghost predicate CoversAsked(cfg: Config, lives: seq<Life>)
    requires 1 <= cfg.tables && IsHistory(cfg, lives)
  {
    lives != [] ==> Safe(cfg, Origin(cfg, lives[..|lives| - 1], lives[|lives| - 1].chainHead), Disk(cfg, lives))
  }

  /** What can be checked of the disk before a process is started on it. */
  ghost predicate LeavesNoGap(cfg: Config, lives: seq<Life>, chainHead: Option<nat>)
    requires 1 <= cfg.tables && IsHistory(cfg, lives)
  {
    DurableFrom(cfg, Disk(cfg, lives), Origin(cfg, lives, chainHead), FirstBlock(cfg, Disk(cfg, lives), chainHead) - 1)
  }

  lemma {:induction false} OriginBelowBase(cfg: Config, lives: seq<Life>)
    requires 1 <= cfg.tables && IsHistory(cfg, lives) && lives != []
    ensures Origin(cfg, lives[..|lives| - 1], lives[|lives| - 1].chainHead) <= Base(cfg, lives)
  {
    if CheckpointOf(Disk(cfg, lives[..|lives| - 1])).Some? { OriginBelowBase(cfg, lives[..|lives| - 1]); }
  }

  lemma {:induction false} OriginIsAsked(cfg: Config, lives: seq<Life>, chainHead: Option<nat>)
    requires 1 <= cfg.tables && IsHistory(cfg, lives) && cfg.fromBlock.Some?
    ensures Origin(cfg, lives, chainHead) == cfg.fromBlock.value
  {
    if lives != [] { OriginIsAsked(cfg, lives[..|lives| - 1], lives[|lives| - 1].chainHead); }
  }

  /** A process is never given a block below the lowest one asked for. */
  lemma OriginBelowFirst(cfg: Config, lives: seq<Life>, chainHead: Option<nat>)
    requires cfg.Valid() && IsHistory(cfg, lives)
    ensures Origin(cfg, lives, chainHead) <= FirstBlock(cfg, Disk(cfg, lives), chainHead)
  {
    var log := Disk(cfg, lives);
    if CheckpointOf(log).Some? {
      OriginBelowBase(cfg, lives);
      HistoryIsSafe(cfg, lives);
      ResumesAboveCheckpoint(cfg, Base(cfg, lives), log, chainHead);
      CheckpointIsDurable(cfg, Base(cfg, lives), log);
    }
  }

  lemma {:induction false} InsertedWasBuffered(cfg: Config, buffers: seq<seq<Row>>, n: nat, r: Row)
    requires n <= |buffers| && Inserted(FlushWrites(cfg, buffers, n), r)
    ensures exists t :: 0 <= t < n && r in buffers[t]
  {
    if n > 0 {
      var t := n - 1;
      LastWasBuffered(cfg, buffers, t, r);
      if Inserted(FlushWrites(cfg, buffers, t), r) { InsertedWasBuffered(cfg, buffers, t, r); }
    }
  }

  lemma LastWasBuffered(cfg: Config, buffers: seq<seq<Row>>, t: nat, r: Row)
    requires t < |buffers| && Inserted(FlushWrites(cfg, buffers, t + 1), r)
    ensures Inserted(FlushWrites(cfg, buffers, t), r) || r in buffers[t]
  {
    var own := Inserts(Chunks(cfg.full, t, buffers[t]));
    InsertedIsOneOf(FlushWrites(cfg, buffers, t), own, r);
    if Inserted(own, r) {
      InsertsComeFromChunks(Chunks(cfg.full, t, buffers[t]), r);
      ChunksHoldOnly(cfg.full, t, buffers[t], r);
    }
  }

  lemma {:induction false} InsertsComeFromChunks(chunks: seq<seq<Row>>, r: Row)
    requires Inserted(Inserts(chunks), r)
    ensures InChunks(chunks, r)
  {
    var all := Inserts(chunks);
    var i :| 0 <= i < |all| && all[i].InsertRows? && r in all[i].rows;
    var front := chunks[..|chunks| - 1];
    if i < |all| - 1 {
      assert Inserts(front)[i] == all[i];
      InsertsComeFromChunks(front, r);
      var j :| 0 <= j < |front| && r in front[j];
      assert r in chunks[j];
    } else {
      assert r in chunks[|chunks| - 1];
    }
  }

  /** A flush of other blocks does not make up for a block that is missing. */
  lemma MissedBlock(cfg: Config, from: int, log: seq<Write>, first: int, b: int, writes: seq<Write>)
    requires cfg.Valid() && from <= b < first && !Durable(cfg, log, b)
    requires var buffers := Buffered(cfg.rowsOf, EmptyBuffers(cfg.tables), first, first);
             writes == FlushAndSave(cfg, buffers, first, false)
    ensures !Safe(cfg, from, log + writes)
  {
    var buffers := Buffered(cfg.rowsOf, EmptyBuffers(cfg.tables), first, first);
    var flush := FlushWrites(cfg, buffers, |buffers|);
    var t, r :| 0 <= t < cfg.tables && r in cfg.rowsOf(b, t) && !Inserted(log, r);
    if Inserted(log + flush, r) {
      InsertedIsOneOf(log, flush, r);
      InsertedWasBuffered(cfg, buffers, |buffers|, r);
      forall u | 0 <= u < |buffers| ensures r !in buffers[u] { BlockRowsAreIn(cfg.rowsOf, u, first, first); }
    }
    assert !Durable(cfg, log + flush, b);
    var all := log + writes;
    assert all[..|log + flush|] == log + flush && all[|log + flush|] == SaveCheckpoint(first);
    assert !MayFollow(cfg, from, all[..|log + flush|], all[|log + flush|]);
  }

  lemma InsertedIsOneOf(log: seq<Write>, more: seq<Write>, r: Row)
    requires Inserted(log + more, r)
    ensures Inserted(log, r) || Inserted(more, r)
  {
    var i :| 0 <= i < |log + more| && (log + more)[i].InsertRows? && r in (log + more)[i].rows;
    if i < |log| { assert log[i] == (log + more)[i]; } else { assert more[i - |log|] == (log + more)[i]; }
  }

  /** The process that is given its first block, saves it and ends. */
  function OneBatch(cfg: Config, log: seq<Write>, chainHead: Option<nat>): Life
    requires 1 <= cfg.tables
  {
    var life := Life(chainHead, 0, [Info(FirstBlock(cfg, log, chainHead), true, 0, 0)], 0);
    life.(survived := |LifeWrites(cfg, log, life)|)
  }

  lemma OneBatchSaves(cfg: Config, log: seq<Write>, chainHead: Option<nat>)
    requires cfg.Valid() && !OnlyFinalizes(cfg, log)
    requires cfg.range.Some? ==> FirstBlock(cfg, log, chainHead) <= cfg.range.value.toBlock
    ensures var life, first := OneBatch(cfg, log, chainHead), FirstBlock(cfg, log, chainHead);
            && life.chainHead == chainHead && InOrder(cfg, log, life)
            && AfterLife(cfg, log, life)
               == log + FlushAndSave(cfg, Buffered(cfg.rowsOf, EmptyBuffers(cfg.tables), first, first), first, ReachedEnd(cfg, life.batches[0]))
  {
    var life, m := OneBatch(cfg, log, chainHead), Connect(cfg, log, chainHead, 0);
    assert Lived(cfg, log, life, 0) == (m, []);
    assert LifeWrites(cfg, log, life) == [] + Transact(cfg, m, life.batches[0]).1 == Transact(cfg, m, life.batches[0]).1;
    var same := life.(survived := 0);
    assert Lived(cfg, log, same, 0) == (m, []);
    assert LifeWrites(cfg, log, same) == [] + Transact(cfg, m, life.batches[0]).1 == LifeWrites(cfg, log, life);
  }

  /** Once a checkpoint is saved, every later start is safe. */
  lemma CheckpointedLaunchIsSafe(cfg: Config, lives: seq<Life>, chainHead: Option<nat>)
    requires cfg.Valid() && IsHistory(cfg, lives) && CoversAsked(cfg, lives) && CheckpointOf(Disk(cfg, lives)).Some?
    ensures LeavesNoGap(cfg, lives, chainHead)
  {
    HistoryIsSafe(cfg, lives);
    ResumesAboveCheckpoint(cfg, Base(cfg, lives), Disk(cfg, lives), chainHead);
    CheckpointIsDurable(cfg, Origin(cfg, lives, chainHead), Disk(cfg, lives));
  }

  /** Starting where a block asked for is missing leads to a checkpoint past that block. */
  lemma GapIsCheckpointed(cfg: Config, lives: seq<Life>, chainHead: Option<nat>) returns (life: Life)
    requires cfg.Valid() && IsHistory(cfg, lives) && CoversAsked(cfg, lives) && !LeavesNoGap(cfg, lives, chainHead)
    ensures life.chainHead == chainHead && IsHistory(cfg, lives + [life]) && !CoversAsked(cfg, lives + [life])
  {
    var log, first, origin := Disk(cfg, lives), FirstBlock(cfg, Disk(cfg, lives), chainHead), Origin(cfg, lives, chainHead);
    var b :| origin <= b < first && !Durable(cfg, log, b);
    if CheckpointOf(log).Some? { CheckpointedLaunchIsSafe(cfg, lives, chainHead); }
    if cfg.fromBlock.Some? { OriginIsAsked(cfg, lives, chainHead); }
    life := OneBatch(cfg, log, chainHead);
    OneBatchSaves(cfg, log, chainHead);
    assert (lives + [life])[..|lives|] == lives;
    MissedBlock(cfg, origin, log, first, b, FlushAndSave(cfg, Buffered(cfg.rowsOf, EmptyBuffers(cfg.tables), first, first), first, false));
  }

  lemma NoGapIsSafe(cfg: Config, lives: seq<Life>)
    requires cfg.Valid() && IsHistory(cfg, lives) && lives != [] && CoversAsked(cfg, lives[..|lives| - 1])
    requires LeavesNoGap(cfg, lives[..|lives| - 1], lives[|lives| - 1].chainHead)
    ensures CoversAsked(cfg, lives)
  {
    var front, life := lives[..|lives| - 1], lives[|lives| - 1];
    var log, origin := Disk(cfg, front), Origin(cfg, front, life.chainHead);
    if front != [] && CheckpointOf(log).None? {
      UnsavedIsSafe(cfg, Origin(cfg, front[..|front| - 1], front[|front| - 1].chainHead), log, origin);
    }
    if cfg.fromBlock.Some? { OriginIsAsked(cfg, front, life.chainHead); }
    OriginBelowFirst(cfg, front, life.chainHead);
    LifeIsSafe(cfg, origin, log, life);
  }

  /** Starting one more process on a disk whose checkpoints cover all blocks asked for keeps it
      so, whatever the process is given and whenever it dies, if and only if no block asked for
      lies missing below the first block it will be given. */
  lemma LaunchIsSafeIff(cfg: Config, lives: seq<Life>, chainHead: Option<nat>)
    requires cfg.Valid() && IsHistory(cfg, lives) && CoversAsked(cfg, lives)
    ensures (forall life: Life | life.chainHead == chainHead && IsHistory(cfg, lives + [life]) :: CoversAsked(cfg, lives + [life]))
            <==> LeavesNoGap(cfg, lives, chainHead)
  {
    if LeavesNoGap(cfg, lives, chainHead) {
      forall life: Life | life.chainHead == chainHead && IsHistory(cfg, lives + [life]) ensures CoversAsked(cfg, lives + [life]) {
        assert (lives + [life])[..|lives|] == lives;
        NoGapIsSafe(cfg, lives + [life]);
      }
    } else {
      var life := GapIsCheckpointed(cfg, lives, chainHead);
    }
  }

  // ---------------------------------------------------------------- safe configurations

  /** The command line names a first block, and block 0 only with a last one. */
  predicate NamesItsStart(cfg: Config) { cfg.fromBlock.Some? && (cfg.fromBlock.value >= 1 || cfg.range.Some?) }

  /** Height 0 stands for "no checkpoint": without one a run begins at the block it was asked
      for exactly when that is not block 0 of an unbounded run. */
  lemma FreshRunBeginsAtStartIff(cfg: Config, log: seq<Write>, chainHead: Option<nat>)
    requires cfg.Valid() && CheckpointOf(log).None?
    ensures FirstBlock(cfg, log, chainHead) == Asked(cfg, log, chainHead) <==> Asked(cfg, log, chainHead) >= 1 || cfg.range.Some?
  {
  }

  /** An unbounded run that is asked for block 0, by name or because no head was found,
      checkpoints a head although block 0 was never delivered. */
  lemma GenesisIsSkipped(cfg: Config) returns (lives: seq<Life>)
    requires cfg.Valid() && cfg.range.None? && (cfg.fromBlock.None? || cfg.fromBlock.value == 0)
    ensures IsHistory(cfg, lives) && !CoversAsked(cfg, lives)
  {
    var r := cfg.rowsOf(0, 0)[0];
    assert !Durable(cfg, [], 0) by { assert !Inserted([], r); }
    assert IsHistory(cfg, []) && Disk(cfg, []) == [];
    var life := GapIsCheckpointed(cfg, [], None);
    lives := [] + [life];
  }

  /** A follower that dies before its first checkpoint and starts again at a later head leaves
      out the blocks in between, though the first of them was delivered. */
  lemma FollowerSkipsHead(cfg: Config, first: nat, later: nat, now: int) returns (lives: seq<Life>)
    requires cfg.Valid() && cfg.fromBlock.None? && 1 <= first < later
    ensures |lives| == 2 && lives[0].chainHead == Some(first) && lives[0].batches[..] == [Info(first, false, now, now)]
    ensures lives[1].chainHead == Some(later)
    ensures IsHistory(cfg, lives) && !CoversAsked(cfg, lives)
  {
    var crashed := [Life(Some(first), now, [Info(first, false, now, now)], 0)];
    assert IsHistory(cfg, []) && Disk(cfg, []) == [] && crashed[..0] == [];
    assert IsHistory(cfg, crashed) && Disk(cfg, crashed) == [] + LifeWrites(cfg, [], crashed[0])[..0] == [];
    var r := cfg.rowsOf(first, 0)[0];
    assert !Durable(cfg, [], first) by { assert !Inserted([], r); }
    assert Origin(cfg, crashed, Some(later)) == first;
    var life := GapIsCheckpointed(cfg, crashed, Some(later));
    lives := crashed + [life];
  }

  lemma NamedLaunchLeavesNoGap(cfg: Config, lives: seq<Life>, chainHead: Option<nat>)
    requires cfg.Valid() && NamesItsStart(cfg) && IsHistory(cfg, lives) && CoversAsked(cfg, lives)
    ensures LeavesNoGap(cfg, lives, chainHead)
  {
    if CheckpointOf(Disk(cfg, lives)).Some? {
      CheckpointedLaunchIsSafe(cfg, lives, chainHead);
    } else {
      OriginIsAsked(cfg, lives, chainHead);
      FreshRunBeginsAtStartIff(cfg, Disk(cfg, lives), chainHead);
    }
  }

  lemma {:induction false} NamedStartIsSafe(cfg: Config, lives: seq<Life>)
    requires cfg.Valid() && NamesItsStart(cfg) && IsHistory(cfg, lives)
    ensures CoversAsked(cfg, lives)
  {
    if lives != [] {
      NamedStartIsSafe(cfg, lives[..|lives| - 1]);
      NamedLaunchLeavesNoGap(cfg, lives[..|lives| - 1], lives[|lives| - 1].chainHead);
      NoGapIsSafe(cfg, lives);
    }
  }

  /** So the checkpoints of a configuration cover every block asked for, in every history, if
      and only if its command line names the first block, and block 0 only with a last one. */
  lemma SafeConfigurations(cfg: Config)
    requires cfg.Valid()
    ensures (forall lives | IsHistory(cfg, lives) :: CoversAsked(cfg, lives)) <==> NamesItsStart(cfg)
  {
    if NamesItsStart(cfg) {
      forall lives | IsHistory(cfg, lives) ensures CoversAsked(cfg, lives) { NamedStartIsSafe(cfg, lives); }
    } else {
      var lives := GenesisIsSkipped(cfg);
    }
  }

  // ---------------------------------------------------------------- completing a range

  ghost function Completions(log: seq<Write>): nat { |set i | 0 <= i < |log| && log[i].CompleteRange?| }

  lemma CompletionsGrow(log: seq<Write>, w: Write)
    ensures Completions(log + [w]) == Completions(log) + if w.CompleteRange? then 1 else 0
  {
    var n := |log|;
    var before, after := set i | 0 <= i < n && log[i].CompleteRange?, set i | 0 <= i < n + 1 && (log + [w])[i].CompleteRange?;
    assert after == if w.CompleteRange? then before + {n} else before;
  }

  lemma {:induction false} CompletionsAdd(a: seq<Write>, b: seq<Write>)
    ensures Completions(a + b) == Completions(a) + Completions(b)
  {
    if b == [] {
      assert a + b == a;
    } else {
      var front, last := b[..|b| - 1], b[|b| - 1];
      CompletionsAdd(a, front);
      CompletionsGrow(a + front, last);
      CompletionsGrow(front, last);
      assert a + b == (a + front) + [last] && b == front + [last];
    }
  }

  lemma CompletionsOfOne(w: Write)
    ensures Completions([]) == 0 && Completions([w]) == if w.CompleteRange? then 1 else 0
  {
    CompletionsGrow([], w);
    assert [] + [w] == [w];
  }

  lemma NoCompletions(log: seq<Write>)
    requires forall w | w in log :: w.InsertRows?
    ensures Completions(log) == 0
  {
    assert forall i | 0 <= i < |log| :: log[i] in log;
  }

  predicate Completes(cfg: Config, m: Memory, info: Info) { ReachedEnd(cfg, info) && !m.rangeFinalized }

  lemma FlushCompletions(cfg: Config, buffers: seq<seq<Row>>, head: int, completes: bool)
    ensures Completions(FlushAndSave(cfg, buffers, head, completes)) == if completes then 1 else 0
  {
    var flush := FlushWrites(cfg, buffers, |buffers|);
    FlushOnlyInserts(cfg, buffers, |buffers|);
    NoCompletions(flush);
    CompletionsOfOne(SaveCheckpoint(head));
    CompletionsAdd(flush, [SaveCheckpoint(head)]);
    if completes {
      CompletionsOfOne(CompleteRange);
      CompletionsAdd(flush + [SaveCheckpoint(head)], [CompleteRange]);
    } else {
      CompletionsAdd(flush + [SaveCheckpoint(head)], []);
    }
  }

  lemma TransactCompletions(cfg: Config, m: Memory, info: Info)
    requires m.buffers != []
    ensures Completions(Transact(cfg, m, info).1) == if Completes(cfg, m, info) then 1 else 0
    ensures Transact(cfg, m, info).0.rangeFinalized == (m.rangeFinalized || ReachedEnd(cfg, info))
  {
    if Flushes(cfg, m, info) {
      FlushCompletions(cfg, Buffered(cfg.rowsOf, m.buffers, m.head + 1, info.nextHead), info.nextHead, Completes(cfg, m, info));
    }
  }

  /** One of the first `n` batches reached the end of the range. */
  predicate AnyReachesEnd(cfg: Config, batches: seq<Info>, n: nat)
    requires n <= |batches|
  {
    n > 0 && ((cfg.range.Some? && batches[n - 1].nextHead >= cfg.range.value.toBlock) || AnyReachesEnd(cfg, batches, n - 1))
  }

  lemma CompletionStep(cfg: Config, m: Memory, writes: seq<Write>, info: Info)
    requires m.buffers != [] && Completions(writes) == if m.rangeFinalized then 1 else 0
    ensures Completions(writes + Transact(cfg, m, info).1) == if Transact(cfg, m, info).0.rangeFinalized then 1 else 0
    ensures Transact(cfg, m, info).0.rangeFinalized == (m.rangeFinalized || ReachedEnd(cfg, info))
  {
    TransactCompletions(cfg, m, info);
    CompletionsAdd(writes, Transact(cfg, m, info).1);
  }

  /** What has been completed after `n` batches. */
  ghost predicate CompletedAt(cfg: Config, log: seq<Write>, life: Life, n: nat)
    requires 1 <= cfg.tables && n <= |life.batches|
  {
    var (m, writes) := Lived(cfg, log, life, n);
    Completions(writes) == (if m.rangeFinalized then 1 else 0) && m.rangeFinalized == (OnlyFinalizes(cfg, log) || AnyReachesEnd(cfg, life.batches, n))
  }

  lemma {:induction false} CompletedSoFar(cfg: Config, log: seq<Write>, life: Life, n: nat)
    requires 1 <= cfg.tables && n <= |life.batches|
    ensures forall k: nat | k <= n :: CompletedAt(cfg, log, life, k)
  {
    if n == 0 {
      NothingCompleted(cfg, log, life);
    } else {
      CompletedSoFar(cfg, log, life, n - 1);
      CompletedNext(cfg, log, life, n);
    }
  }

  lemma NothingCompleted(cfg: Config, log: seq<Write>, life: Life)
    requires 1 <= cfg.tables
    ensures CompletedAt(cfg, log, life, 0)
  {
    CompletionsOfOne(CompleteRange);
  }

  lemma CompletedNext(cfg: Config, log: seq<Write>, life: Life, n: nat)
    requires 1 <= cfg.tables && 0 < n <= |life.batches| && CompletedAt(cfg, log, life, n - 1)
    ensures CompletedAt(cfg, log, life, n)
  {
    var before := Lived(cfg, log, life, n - 1);
    LivedStep(cfg, log, life, n, before.0, before.1);
    CompletionStep(cfg, before.0, before.1, life.batches[n - 1]);
  }

  /** One process completes its range at most once, and it has done so as soon as a batch
      reached the range's end. */
  lemma CompletedOncePerLife(cfg: Config, log: seq<Write>, life: Life, n: nat)
    requires 1 <= cfg.tables && n <= |life.batches|
    ensures Completions(Lived(cfg, log, life, n).1) == if Lived(cfg, log, life, n).0.rangeFinalized then 1 else 0
    ensures Lived(cfg, log, life, n).0.rangeFinalized
            == (OnlyFinalizes(cfg, log) || AnyReachesEnd(cfg, life.batches, n))
  {
    CompletedSoFar(cfg, log, life, n);
    assert CompletedAt(cfg, log, life, n);
  }

  lemma LivedStep(cfg: Config, log: seq<Write>, life: Life, n: nat, m: Memory, writes: seq<Write>)
    requires 1 <= cfg.tables && 0 < n <= |life.batches| && Lived(cfg, log, life, n - 1) == (m, writes)
    ensures Lived(cfg, log, life, n).0 == Transact(cfg, m, life.batches[n - 1]).0
    ensures Lived(cfg, log, life, n).1 == writes + Transact(cfg, m, life.batches[n - 1]).1
  {
  }

  /** What was completed was checkpointed before, and stays so. */
  lemma {:induction false} CompletedIsCheckpointed(cfg: Config, from: int, log: seq<Write>)
    requires cfg.Valid() && Safe(cfg, from, log) && Completions(log) >= 1
    ensures OnlyFinalizes(cfg, log)
  {
    var n := |log| - 1;
    assert MayFollow(cfg, from, log[..n], log[n]);
    SafePrefix(cfg, from, log, n);
    CompletionsGrow(log[..n], log[n]);
    assert log == log[..n] + [log[n]];
    if !log[n].CompleteRange? { CompletedIsCheckpointed(cfg, from, log[..n]); }
  }

  /** No process that was started on a disk with a completed range lived to complete it again. */
  ghost predicate NeverRunAgain(cfg: Config, lives: seq<Life>)
    requires 1 <= cfg.tables && IsHistory(cfg, lives)
  {
    lives == [] ||
    (var front := lives[..|lives| - 1];
     NeverRunAgain(cfg, front) && (Completions(Disk(cfg, front)) >= 1 ==> lives[|lives| - 1].survived == 0))
  }

  lemma FirstCompletion(cfg: Config, log: seq<Write>, life: Life)
    requires 1 <= cfg.tables && Completions(log) == 0
    ensures Completions(AfterLife(cfg, log, life)) <= 1
  {
    var writes := LifeWrites(cfg, log, life);
    CompletedOncePerLife(cfg, log, life, |life.batches|);
    CompletionsAdd(log, writes);
    if life.survived < |writes| {
      CompletionsAdd(log, writes[..life.survived]);
      CompletionsOfPrefix(writes, life.survived);
    }
  }

  lemma CompletionsOfPrefix(log: seq<Write>, n: nat)
    requires n <= |log|
    ensures Completions(log[..n]) <= Completions(log)
  {
    CompletionsAdd(log[..n], log[n..]);
    assert log == log[..n] + log[n..];
  }

  lemma NextCompletion(cfg: Config, log: seq<Write>, life: Life)
    requires 1 <= cfg.tables && OnlyFinalizes(cfg, log) && InOrder(cfg, log, life)
    ensures Completions(AfterLife(cfg, log, life)) == Completions(log) + if life.survived == 0 then 0 else 1
  {
    assert LifeWrites(cfg, log, life) == [CompleteRange];
    CompletionsOfOne(CompleteRange);
    CompletionsAdd(log, [CompleteRange]);
    CompletionsAdd(log, [CompleteRange][..0]);
  }

  /** The flag lives in memory only. In every history, a range is completed at most once if and
      only if no worker that found it completed lived to finalise it again. */
  lemma {:induction false} CompletedOnceIff(cfg: Config, lives: seq<Life>)
    requires cfg.Valid() && IsHistory(cfg, lives)
    ensures Completions(Disk(cfg, lives)) <= 1 <==> NeverRunAgain(cfg, lives)
  {
    if lives != [] {
      var front, life := lives[..|lives| - 1], lives[|lives| - 1];
      CompletedOnceIff(cfg, front);
      if Completions(Disk(cfg, front)) == 0 {
        FirstCompletion(cfg, Disk(cfg, front), life);
      } else {
        HistoryIsSafe(cfg, front);
        CompletedIsCheckpointed(cfg, Base(cfg, front), Disk(cfg, front));
        NextCompletion(cfg, Disk(cfg, front), life);
      }
    }
  }

  /** A worker that completes its range in one batch, and a second one started after it. */
  lemma RestartCompletesAgain(cfg: Config, now: int) returns (lives: seq<Life>)
    requires cfg.Valid() && cfg.range.Some?
    ensures IsHistory(cfg, lives) && |lives| == 2 && Completions(Disk(cfg, lives)) == 2
  {
    var first := FinishedInOneBatch(cfg, now);
    var one, both := [first], [first, Life(None, now, [], 1)];
    assert both[..1] == one;
    HistoryIsSafe(cfg, one);
    CompletedIsCheckpointed(cfg, Base(cfg, one), Disk(cfg, one));
    NextCompletion(cfg, Disk(cfg, one), both[1]);
    lives := both;
  }

  lemma FinishedInOneBatch(cfg: Config, now: int) returns (life: Life)
    requires cfg.Valid() && cfg.range.Some?
    ensures IsHistory(cfg, [life]) && Completions(Disk(cfg, [life])) == 1
  {
    life := Life(None, now, [Info(cfg.range.value.toBlock, true, now, now)], 0);
    life := life.(survived := |LifeWrites(cfg, [], life)|);
    var one := [life];
    assert IsHistory(cfg, []) && Disk(cfg, []) == [] && one[..0] == [];
    assert InOrder(cfg, [], life);
    WholeLife(cfg, life);
    assert Disk(cfg, one) == AfterLife(cfg, [], life);
    assert AnyReachesEnd(cfg, life.batches, 1);
    CompletedOncePerLife(cfg, [], life, 1);
  }

  lemma WholeLife(cfg: Config, life: Life)
    requires 1 <= cfg.tables && |life.batches| == 1 && life.survived == |LifeWrites(cfg, [], life.(survived := 0))|
    ensures AfterLife(cfg, [], life) == LifeWrites(cfg, [], life)
  {
    var none := life.(survived := 0);
    assert Lived(cfg, [], life, 0) == Lived(cfg, [], none, 0);
    assert Lived(cfg, [], life, 1) == Lived(cfg, [], none, 1);
  }

  // ---------------------------------------------------------------- what stays buffered

  lemma {:induction false} PendingRowsIsMax(buffers: seq<seq<Row>>, t: nat)
    requires t < |buffers|
    ensures |buffers[t]| <= PendingRows(buffers)
  {
    if t < |buffers| - 1 { PendingRowsIsMax(buffers[..|buffers| - 1], t); }
  }

  /** After a transact that did not flush, every buffer is below all three limits. */
  lemma UnflushedIsSmall(cfg: Config, m: Memory, info: Info, t: nat)
    requires t < |m.buffers| && !Flushes(cfg, m, info)
    ensures var (m', writes) := Transact(cfg, m, info);
            && writes == [] && |m'.buffers[0]| < cfg.limits.blocks && |m'.buffers[t]| < cfg.limits.rows
            && info.now - m'.lastFlushAt < cfg.limits.elapsedMs
            && !info.isOnTop && !ReachedEnd(cfg, info)
  {
    PendingRowsIsMax(Buffered(cfg.rowsOf, m.buffers, m.head + 1, info.nextHead), t);
  }

  lemma {:induction false} OneRowPerBlock(cfg: Config, first: int, last: int)
    requires cfg.Valid() && first <= last + 1
    ensures |BlockRows(cfg.rowsOf, 0, first, last)| == last - first + 1
    decreases last - first
  {
    if first <= last { OneRowPerBlock(cfg, first, last - 1); }
  }

  /** Height up to which a process has checkpointed: its own last checkpoint or, before one,
      where it resumed. */
  function SavedHead(writes: seq<Write>, resumed: int): int {
    if CheckpointOf(writes).Some? then CheckpointOf(writes).value else resumed
  }

  lemma TransactPending(cfg: Config, m: Memory, writes: seq<Write>, info: Info, resumed: int)
    requires cfg.Valid() && |m.buffers| == cfg.tables && info.nextHead > m.head
    requires |m.buffers[0]| == m.head - SavedHead(writes, resumed)
    ensures |Transact(cfg, m, info).0.buffers[0]|
         == Transact(cfg, m, info).0.head - SavedHead(writes + Transact(cfg, m, info).1, resumed)
  {
    OneRowPerBlock(cfg, m.head + 1, info.nextHead);
    if Flushes(cfg, m, info) {
      CheckpointOfFlush(cfg, writes, Buffered(cfg.rowsOf, m.buffers, m.head + 1, info.nextHead), info.nextHead, ReachedEnd(cfg, info) && !m.rangeFinalized);
    } else {
      assert writes + [] == writes;
    }
  }

  /** The pending blocks are exactly those above the last saved head, or since the process began. */
  lemma {:induction false} PendingBlocksAreUnsaved(cfg: Config, log: seq<Write>, life: Life, n: nat)
    requires cfg.Valid() && InOrder(cfg, log, life) && n <= |life.batches|
    ensures |Lived(cfg, log, life, n).0.buffers[0]|
         == Lived(cfg, log, life, n).0.head - SavedHead(Lived(cfg, log, life, n).1, FirstBlock(cfg, log, life.chainHead) - 1)
    ensures Lived(cfg, log, life, n).0.head == HeadBefore(cfg, log, life, n)
  {
    if n == 0 {
      assert [CompleteRange][..0] == [];
    } else {
      PendingBlocksAreUnsaved(cfg, log, life, n - 1);
      assert IsNext(cfg, log, life, n - 1);
      TransactPending(cfg, Lived(cfg, log, life, n - 1).0, Lived(cfg, log, life, n - 1).1, life.batches[n - 1],
        FirstBlock(cfg, log, life.chainHead) - 1);
    }
  }

  lemma CheckpointOfFlush(cfg: Config, before: seq<Write>, buffers: seq<seq<Row>>, head: int, finalizes: bool)
    ensures CheckpointOf(before + FlushAndSave(cfg, buffers, head, finalizes)) == Some(head)
  {
    var saved := before + FlushWrites(cfg, buffers, |buffers|) + [SaveCheckpoint(head)];
    assert CheckpointOf(saved) == Some(head);
    if finalizes {
      assert (saved + [CompleteRange])[..|saved|] == saved;
      assert before + (FlushWrites(cfg, buffers, |buffers|) + [SaveCheckpoint(head)] + [CompleteRange]) == saved + [CompleteRange];
    } else {
      assert before + (FlushWrites(cfg, buffers, |buffers|) + [SaveCheckpoint(head)] + []) == saved;
    }
  }
}
