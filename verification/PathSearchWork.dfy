/** Why the search ends on every finite graph: zero-cost wrapper cycles and re-queued evicted
    observations notwithstanding, each queue entry can only lead to assets not yet on its path. */
module PathSearchWork {
  import opened PathTypes
  import opened PathSearchSpec

  /** Every asset an edge can lead to. */
  ghost function Targets(graph: Graph): set<int> {
    set a, i | a in graph && 0 <= i < |graph[a]| :: graph[a][i].toAsset
  }

  ghost predicate BoundsDegree(graph: Graph, nodes: set<int>, d: nat)
    requires nodes <= graph.Keys
  {
    forall a | a in nodes :: |graph[a]| <= d
  }

  lemma {:induction false} DegreeIsBounded(graph: Graph, nodes: set<int>)
    requires nodes <= graph.Keys
    ensures exists d: nat :: BoundsDegree(graph, nodes, d)
  {
    if a :| a in nodes {
      DegreeIsBounded(graph, nodes - {a});
      var d: nat :| BoundsDegree(graph, nodes - {a}, d);
      var d': nat := if d < |graph[a]| then |graph[a]| else d;
      forall b | b in nodes ensures |graph[b]| <= d' {
        assert b == a || b in nodes - {a};
      }
      assert BoundsDegree(graph, nodes, d');
    } else {
      assert BoundsDegree(graph, nodes, 0);
    }
  }

  /** No asset has more edges than this. */
  ghost function Degree(graph: Graph): (d: nat)
    ensures forall a | a in graph :: |graph[a]| <= d
  {
    DegreeIsBounded(graph, graph.Keys);
    var d: nat :| BoundsDegree(graph, graph.Keys, d);
    d
  }

  /** Assets not yet on a path. */
  ghost function Free(targets: set<int>, path: seq<int>): nat { |targets - (set a | a in path)| }

  /** `n` copies of `x`, by repeated addition. */
  ghost function Times(n: nat, x: nat): nat { if n == 0 then 0 else Times(n - 1, x) + x }

  lemma {:induction false} TimesGrows(m: nat, n: nat, x: nat)
    requires m <= n
    ensures Times(m, x) <= Times(n, x)
    decreases n
  {
    if m < n { TimesGrows(m, n - 1, x); }
  }

  /** The nodes of a tree of depth `n` in which every node has `d` children: an upper bound on
      the work one queue entry can still cause. */
  ghost function Work(n: nat, d: nat): nat
    decreases n, 1
  {
    1 + Times(d, Below(n, d))
  }

  ghost function Below(n: nat, d: nat): nat
    decreases n, 0
  {
    if n == 0 then 0 else Work(n - 1, d)
  }

  ghost function QueueWork(targets: set<int>, d: nat, queue: seq<Observation>): nat {
    if queue == [] then 0
    else QueueWork(targets, d, queue[..|queue| - 1]) + Work(Free(targets, queue[|queue| - 1].path), d)
  }

  lemma {:induction false} QueueWorkHead(targets: set<int>, d: nat, queue: seq<Observation>)
    requires queue != []
    ensures QueueWork(targets, d, queue) == Work(Free(targets, queue[0].path), d) + QueueWork(targets, d, queue[1..])
  {
    var front := queue[..|queue| - 1];
    if |queue| == 1 {
      assert front == [] && queue[1..] == [];
    } else {
      QueueWorkHead(targets, d, front);
      assert queue[1..][..|queue| - 2] == front[1..];
    }
  }

  lemma {:induction false} QueueWorkAppend(targets: set<int>, d: nat, a: seq<Observation>, b: seq<Observation>)
    ensures QueueWork(targets, d, a + b) == QueueWork(targets, d, a) + QueueWork(targets, d, b)
  {
    if b == [] {
      assert a + b == a;
    } else {
      QueueWorkAppend(targets, d, a, b[..|b| - 1]);
      assert (a + b)[..|a + b| - 1] == a + b[..|b| - 1];
    }
  }

  /** Expanding the head entry leaves less work than it removes. */
  lemma ExpansionDecreases(targets: set<int>, d: nat, pending: seq<Observation>, pushed: seq<Observation>, edges: nat)
    requires pending != [] && edges <= d
    requires QueueWork(targets, d, pushed) <= Times(edges, Below(Free(targets, pending[0].path), d))
    ensures QueueWork(targets, d, pending[1..] + pushed) < QueueWork(targets, d, pending)
  {
    QueueWorkHead(targets, d, pending);
    QueueWorkAppend(targets, d, pending[1..], pushed);
    TimesGrows(edges, d, Below(Free(targets, pending[0].path), d));
  }

  lemma OneFreeFewer(targets: set<int>, path: seq<int>, a: int)
    requires a in targets && a !in path
    ensures Free(targets, path) == Free(targets, path + [a]) + 1
  {
    var here := targets - (set b | b in path);
    var there := targets - (set b | b in path + [a]);
    assert here == there + {a};
    assert a !in there;
  }

  /** Whatever was evicted and re-queued, an accepted extension has one free asset fewer, so
      what it adds is covered by one child of the entry being expanded. */
  lemma PushedWork(cfg: Config, targets: set<int>, d: nat, pending: seq<Observation>, q: Observation, e: Edge)
    requires targets == Targets(cfg.graph) && e in cfg.Adjacent(End(q.path)) && Accepts(cfg, q, e)
    ensures QueueWork(targets, d, pending + [Extend(q, e)]) == QueueWork(targets, d, pending) + Below(Free(targets, q.path), d)
  {
    assert (pending + [Extend(q, e)])[..|pending|] == pending;
    assert e.toAsset in targets;
    OneFreeFewer(targets, q.path, e.toAsset);
  }
}
