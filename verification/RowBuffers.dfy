/** Per-table row buffers and their insert chunks, as both ingestion stores keep them
    (src/store/batch.ts, src/raw/store.ts). */
module RowBuffers {
  /** A stored row: its table and its stable chain-derived key. A re-insert replaces itself. */
  datatype Row = Row(table: nat, height: int, key: int)

  /** The rows of blocks `first`..`last` in one table. */
  function BlockRows(rowsOf: (int, nat) -> seq<Row>, table: nat, first: int, last: int): seq<Row>
    decreases last - first
  {
    if first > last then [] else BlockRows(rowsOf, table, first, last - 1) + rowsOf(last, table)
  }

  function Buffered(rowsOf: (int, nat) -> seq<Row>, buffers: seq<seq<Row>>, first: int, last: int): (r: seq<seq<Row>>)
    ensures |r| == |buffers|
  {
    seq(|buffers|, t requires 0 <= t < |buffers| => buffers[t] + BlockRows(rowsOf, t, first, last))
  }

  /** Greedy chunking: a row joins the open chunk unless the chunk is full for it. */
  function Chunks(full: (nat, seq<Row>, Row) -> bool, table: nat, rows: seq<Row>): seq<seq<Row>> {
    if rows == [] then []
    else
      var before, r := Chunks(full, table, rows[..|rows| - 1]), rows[|rows| - 1];
      if before == [] || full(table, before[|before| - 1], r) then before + [[r]]
      else before[..|before| - 1] + [before[|before| - 1] + [r]]
  }

  function EmptyBuffers(n: nat): (r: seq<seq<Row>>)
    ensures |r| == n && forall i | 0 <= i < n :: r[i] == []
  {
    seq(n, _ => [])
  }

  // ---------------------------------------------------------------- what they hold

  lemma {:induction false} BlockRowsHoldAll(rowsOf: (int, nat) -> seq<Row>, table: nat, first: int, last: int, b: int, r: Row)
    requires first <= b <= last && r in rowsOf(b, table)
    ensures r in BlockRows(rowsOf, table, first, last)
    decreases last - first
  {
    if b < last { BlockRowsHoldAll(rowsOf, table, first, last - 1, b, r); }
  }

  lemma {:induction false} BlockRowsAreIn(rowsOf: (int, nat) -> seq<Row>, table: nat, first: int, last: int)
    requires forall b, t, r | r in rowsOf(b, t) :: r.table == t && r.height == b
    ensures forall r | r in BlockRows(rowsOf, table, first, last) :: r.table == table && first <= r.height <= last
    decreases last - first
  {
    if first <= last { BlockRowsAreIn(rowsOf, table, first, last - 1); }
  }

  ghost predicate InChunks(chunks: seq<seq<Row>>, r: Row) { exists i :: 0 <= i < |chunks| && r in chunks[i] }

  /** Chunking loses no row. */
  lemma {:induction false} ChunksHoldAll(full: (nat, seq<Row>, Row) -> bool, table: nat, rows: seq<Row>, r: Row)
    requires r in rows
    ensures InChunks(Chunks(full, table, rows), r)
  {
    var front, last := rows[..|rows| - 1], rows[|rows| - 1];
    assert rows == front + [last];
    var before, after := Chunks(full, table, front), Chunks(full, table, rows);
    if r in front {
      ChunksHoldAll(full, table, front, r);
      var i :| 0 <= i < |before| && r in before[i];
      assert r in after[i];
    } else {
      assert r in after[|after| - 1];
    }
  }

  /** Chunking invents no row. */
  lemma {:induction false} ChunksHoldOnly(full: (nat, seq<Row>, Row) -> bool, table: nat, rows: seq<Row>, r: Row)
    requires InChunks(Chunks(full, table, rows), r)
    ensures r in rows
  {
    var front, last := rows[..|rows| - 1], rows[|rows| - 1];
    assert rows == front + [last];
    var before, after := Chunks(full, table, front), Chunks(full, table, rows);
    var i :| 0 <= i < |after| && r in after[i];
    if r != last {
      assert i < |before| && r in before[i] by {
        if i == |after| - 1 { assert after[i] == [last] || after[i] == before[i] + [last]; } else { assert after[i] == before[i]; }
      }
      ChunksHoldOnly(full, table, front, r);
    }
  }

  function Flatten(chunks: seq<seq<Row>>): seq<Row> {
    if chunks == [] then [] else Flatten(chunks[..|chunks| - 1]) + chunks[|chunks| - 1]
  }

  /** A chunk never takes a row it is full for. */
  ghost predicate Fits(full: (nat, seq<Row>, Row) -> bool, table: nat, chunk: seq<Row>) {
    chunk != [] && forall j | 1 <= j < |chunk| :: !full(table, chunk[..j], chunk[j])
  }

  /** A chunk is only closed by a row it is full for. */
  ghost predicate ClosedBy(full: (nat, seq<Row>, Row) -> bool, table: nat, chunk: seq<Row>, next: seq<Row>) {
    next != [] && full(table, chunk, next[0])
  }

  ghost predicate Greedy(full: (nat, seq<Row>, Row) -> bool, table: nat, chunks: seq<seq<Row>>) {
    && (forall k {:trigger Fits(full, table, chunks[k])} | 0 <= k < |chunks| :: Fits(full, table, chunks[k]))
    && (forall k, n {:trigger ClosedBy(full, table, chunks[k], chunks[n])} | 0 <= k && n == k + 1 < |chunks| ::
          ClosedBy(full, table, chunks[k], chunks[n]))
  }

  lemma FitsGrows(full: (nat, seq<Row>, Row) -> bool, table: nat, chunk: seq<Row>, r: Row)
    requires Fits(full, table, chunk) && !full(table, chunk, r)
    ensures Fits(full, table, chunk + [r])
  {
    var grown := chunk + [r];
    forall j | 1 <= j < |grown| ensures !full(table, grown[..j], grown[j]) {
      assert grown[..j] == chunk[..j];
    }
  }

  /** The chunks are the rows in order, each as long as it may be. */
  lemma {:induction false} ChunksAreGreedy(full: (nat, seq<Row>, Row) -> bool, table: nat, rows: seq<Row>)
    ensures Flatten(Chunks(full, table, rows)) == rows && Greedy(full, table, Chunks(full, table, rows))
  {
    if rows != [] {
      var front, r := rows[..|rows| - 1], rows[|rows| - 1];
      ChunksAreGreedy(full, table, front);
      var before, after := Chunks(full, table, front), Chunks(full, table, rows);
      assert rows == front + [r];
      if before == [] || full(table, before[|before| - 1], r) { NextStarts(full, table, before, r); } else { LastGrows(full, table, before, r); }
      assert after == if before == [] || full(table, before[|before| - 1], r) then before + [[r]] else before[..|before| - 1] + [before[|before| - 1] + [r]];
    }
  }

  lemma FlattenSnoc(chunks: seq<seq<Row>>, chunk: seq<Row>)
    ensures Flatten(chunks + [chunk]) == Flatten(chunks) + chunk
  {
    assert (chunks + [chunk])[..|chunks|] == chunks;
  }

  /** One more chunk behind greedy ones. */
  lemma GreedySnoc(full: (nat, seq<Row>, Row) -> bool, table: nat, chunks: seq<seq<Row>>, chunk: seq<Row>)
    requires Greedy(full, table, chunks) && Fits(full, table, chunk)
    requires chunks != [] ==> ClosedBy(full, table, chunks[|chunks| - 1], chunk)
    ensures Greedy(full, table, chunks + [chunk])
  {
    var after := chunks + [chunk];
    forall k | 0 <= k < |after| ensures Fits(full, table, after[k]) {
      if k < |chunks| { assert Fits(full, table, chunks[k]); }
    }
    forall k, n | 0 <= k && n == k + 1 < |after| ensures ClosedBy(full, table, after[k], after[n]) {
      if n < |chunks| { assert ClosedBy(full, table, chunks[k], chunks[n]); }
    }
  }

  lemma GreedyFront(full: (nat, seq<Row>, Row) -> bool, table: nat, chunks: seq<seq<Row>>)
    requires Greedy(full, table, chunks) && chunks != []
    ensures Greedy(full, table, chunks[..|chunks| - 1]) && Fits(full, table, chunks[|chunks| - 1])
    ensures |chunks| >= 2 ==> ClosedBy(full, table, chunks[|chunks| - 2], chunks[|chunks| - 1])
  {
    var front := chunks[..|chunks| - 1];
    forall k | 0 <= k < |front| ensures Fits(full, table, front[k]) { assert Fits(full, table, chunks[k]); }
    forall k, n | 0 <= k && n == k + 1 < |front| ensures ClosedBy(full, table, front[k], front[n]) {
      assert ClosedBy(full, table, chunks[k], chunks[n]);
    }
  }

  lemma NextStarts(full: (nat, seq<Row>, Row) -> bool, table: nat, before: seq<seq<Row>>, r: Row)
    requires Greedy(full, table, before) && (before == [] || full(table, before[|before| - 1], r))
    ensures Flatten(before + [[r]]) == Flatten(before) + [r] && Greedy(full, table, before + [[r]])
  {
    FlattenSnoc(before, [r]);
    GreedySnoc(full, table, before, [r]);
  }

  lemma LastGrows(full: (nat, seq<Row>, Row) -> bool, table: nat, before: seq<seq<Row>>, r: Row)
    requires before != [] && Greedy(full, table, before) && !full(table, before[|before| - 1], r)
    ensures var after := before[..|before| - 1] + [before[|before| - 1] + [r]];
            Flatten(after) == Flatten(before) + [r] && Greedy(full, table, after)
  {
    var front, last := before[..|before| - 1], before[|before| - 1];
    GreedyFront(full, table, before);
    FitsGrows(full, table, last, r);
    FlattenSnoc(front, last + [r]);
    GreedySnoc(full, table, front, last + [r]);
  }

  lemma Associate<T>(a: seq<T>, b: seq<T>, c: seq<T>)
    ensures a + (b + c) == (a + b) + c
  {
  }
}
