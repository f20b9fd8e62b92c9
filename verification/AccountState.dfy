/** The account-state capture of one block, src/raw/accountState.ts:325-444: delegation targets
    are added, every stored item of every account is read, and what cannot be read is warned.
    Accounts and kinds are numbered in their sort order. */
module AccountState {
  import opened Wrappers
  import opened StableSort
  import opened WorkerPool

  const VOTING: nat := 1
  const UNDELEGATED := "ConvictionVoting.Undelegated"

  /** `kinds` is `None` for an account the block itself names: all of them. */
  datatype Target = Target(account: int, triggers: set<string>, kinds: Option<set<nat>>, expand: bool)

  datatype Outcome =
    | Row(kind: nat, account: int, value: int, triggers: set<string>)
    | Warning(kind: nat, account: int)

  /** The node's answers: `None` is a failed read.  `parent` lists an account's delegation targets
      at the parent block, `query` one item for several accounts, `votes` one account's votes. */
  datatype Reads = Reads(
    parent: int -> Option<seq<int>>,
    query: (nat, seq<int>) -> Option<seq<Option<int>>>,
    fallback: nat -> int,
    votes: int -> Option<int>)

  // ---------------------------------------------------------------- delegation targets

  function Find(targets: seq<Target>, account: int): (i: nat)
    ensures i <= |targets| && (i < |targets| ==> targets[i].account == account)
    ensures forall j | 0 <= j < i :: targets[j].account != account
  {
    if targets == [] then 0
    else
      var i := Find(targets[..|targets| - 1], account);
      if i < |targets| - 1 then i else if targets[|targets| - 1].account == account then |targets| - 1 else |targets|
  }

  /** A delegation target gains the trigger, and its votes are read. */
  function Name(targets: seq<Target>, account: int): seq<Target> {
    var i := Find(targets, account);
    if i == |targets| then targets + [Target(account, {UNDELEGATED}, Some({VOTING}), false)]
    else
      var t := targets[i];
      targets[i := t.(triggers := t.triggers + {UNDELEGATED}, kinds := if t.kinds.Some? then Some(t.kinds.value + {VOTING}) else None)]
  }

  function NameAll(targets: seq<Target>, accounts: seq<int>): seq<Target> {
    if accounts == [] then targets else Name(NameAll(targets, accounts[..|accounts| - 1]), accounts[|accounts| - 1])
  }

  /** After the first `n` named targets' lookups: all targets, and the delegators whose lookup failed. */
  function Expand(node: Reads, named: seq<Target>, n: nat): (r: (seq<Target>, seq<int>))
    requires n <= |named|
  {
    if n == 0 then (named, [])
    else
      var front, t := Expand(node, named, n - 1), named[n - 1];
      if !t.expand then front
      else if node.parent(t.account).Some? then (NameAll(front.0, node.parent(t.account).value), front.1)
      else (front.0, front.1 + [t.account])
  }

  function ByAccount(): (Target, Target) -> bool { (x: Target, y: Target) => x.account <= y.account }

  predicate AnyExpands(named: seq<Target>) { exists t :: t in named && t.expand }

  /** `withDelegationTargets`: without a delegator, or in a runtime without voting, there is nothing
      to look up and the order stays as it is. */
  function WithDelegationTargets(node: Reads, votingStored: bool, named: seq<Target>): (r: (seq<Target>, seq<int>)) {
    if !AnyExpands(named) || !votingStored then (named, [])
    else
      var expanded := Expand(node, named, |named|);
      (Sort(expanded.0, ByAccount()), expanded.1)
  }

  method FindDelegationTargets(node: Reads, votingStored: bool, named: seq<Target>) returns (targets: seq<Target>, unresolved: seq<int>)
    ensures (targets, unresolved) == WithDelegationTargets(node, votingStored, named)
  {
    targets, unresolved := named, [];
    if !AnyExpands(named) || !votingStored {
      return;
    }
    for n := 0 to |named|
      invariant (targets, unresolved) == Expand(node, named, n)
    {
      if !named[n].expand {
        continue;
      }
      var found := node.parent(named[n].account);
      if found.None? {
        unresolved := unresolved + [named[n].account];
        continue;
      }
      ghost var before := targets;
      for k := 0 to |found.value|
        invariant targets == NameAll(before, found.value[..k])
      {
        assert found.value[..k + 1][..k] == found.value[..k];
        targets := Name(targets, found.value[k]);
      }
      assert found.value[..|found.value|] == found.value;
    }
    targets := Sort(targets, ByAccount());
  }

  // ---------------------------------------------------------------- reading

  predicate Asks(t: Target, kind: nat) { t.kinds.None? || kind in t.kinds.value }

  /** The targets read for a kind; an unresolved delegator's votes are held back. */
  function Relevant(targets: seq<Target>, kind: nat, unresolved: seq<int>): seq<Target> {
    if targets == [] then []
    else
      var front, t := Relevant(targets[..|targets| - 1], kind, unresolved), targets[|targets| - 1];
      if Asks(t, kind) && !(kind == VOTING && t.account in unresolved) then front + [t] else front
  }

  function Accounts(targets: seq<Target>): (a: seq<int>)
    ensures |a| == |targets|
  {
    seq(|targets|, i requires 0 <= i < |targets| => targets[i].account)
  }

  function VoteOutcome(node: Reads, t: Target): Outcome {
    if node.votes(t.account).Some? then Row(VOTING, t.account, node.votes(t.account).value, t.triggers)
    else Warning(VOTING, t.account)
  }

  /** One read for all accounts of a kind: it fails as a whole, also when an answer is missing. */
  function QueryOutcomes(node: Reads, kind: nat, ts: seq<Target>): (o: seq<Outcome>)
    ensures |o| == |ts|
  {
    var values := node.query(kind, Accounts(ts));
    seq(|ts|, i requires 0 <= i < |ts| =>
      if values.Some? && |values.value| == |ts| then
        Row(kind, ts[i].account, if values.value[i].Some? then values.value[i].value else node.fallback(kind), ts[i].triggers)
      else Warning(kind, ts[i].account))
  }

  /** Votes in the order the pool's workers finish them. */
  function VoteOutcomes(node: Reads, ts: seq<Target>, order: seq<nat>): (o: seq<Outcome>)
    requires forall k | 0 <= k < |order| :: order[k] < |ts|
    ensures |o| == |order|
  {
    seq(|order|, k requires 0 <= k < |order| => VoteOutcome(node, ts[order[k]]))
  }

  ghost predicate Finishes(targets: seq<Target>, unresolved: seq<int>, order: seq<nat>) {
    EachOnce(order, |Relevant(targets, VOTING, unresolved)|)
  }

  lemma {:induction false} CountPositive(items: seq<nat>, x: nat)
    ensures Count(items, x) > 0 <==> x in items
  {
    if items != [] {
      CountPositive(items[..|items| - 1], x);
      assert items == items[..|items| - 1] + [items[|items| - 1]];
    }
  }

  lemma OrderIsBelow(order: seq<nat>, n: nat)
    requires EachOnce(order, n)
    ensures forall k | 0 <= k < |order| :: order[k] < n
    ensures forall i: nat | i < n :: i in order
  {
    forall k | 0 <= k < |order| ensures order[k] < n {
      assert order[k] in order;
      CountPositive(order, order[k]);
    }
    forall i: nat | i < n ensures i in order { CountPositive(order, i); }
  }

  function KindOutcomes(node: Reads, kind: nat, targets: seq<Target>, unresolved: seq<int>, order: seq<nat>): seq<Outcome>
    requires Finishes(targets, unresolved, order)
  {
    var ts := Relevant(targets, kind, unresolved);
    if kind == VOTING then OrderIsBelow(order, |ts|); VoteOutcomes(node, ts, order)
    else QueryOutcomes(node, kind, ts)
  }

  function Withheld(unresolved: seq<int>): (o: seq<Outcome>)
    ensures |o| == |unresolved|
  {
    seq(|unresolved|, i requires 0 <= i < |unresolved| => Warning(VOTING, unresolved[i]))
  }

  /** Everything the capture produces, in the order it is pushed. */
  function Outcomes(node: Reads, kinds: seq<nat>, targets: seq<Target>, unresolved: seq<int>, order: seq<nat>): seq<Outcome>
    requires Finishes(targets, unresolved, order)
  {
    if kinds == [] then Withheld(unresolved)
    else
      Outcomes(node, kinds[..|kinds| - 1], targets, unresolved, order)
      + KindOutcomes(node, kinds[|kinds| - 1], targets, unresolved, order)
  }

  function Rows(outcomes: seq<Outcome>): seq<Outcome> {
    if outcomes == [] then []
    else
      var front, last := Rows(outcomes[..|outcomes| - 1]), outcomes[|outcomes| - 1];
      if last.Row? then front + [last] else front
  }

  function Warnings(outcomes: seq<Outcome>): seq<Outcome> {
    if outcomes == [] then []
    else
      var front, last := Warnings(outcomes[..|outcomes| - 1]), outcomes[|outcomes| - 1];
      if last.Warning? then front + [last] else front
  }

  function ByKey(): (Outcome, Outcome) -> bool {
    (x: Outcome, y: Outcome) => x.kind < y.kind || (x.kind == y.kind && x.account <= y.account)
  }

  /** The rows returned. */
  function Captured(node: Reads, kinds: seq<nat>, targets: seq<Target>, unresolved: seq<int>, order: seq<nat>): seq<Outcome>
    requires Finishes(targets, unresolved, order)
  {
    Sort(Rows(Outcomes(node, kinds, targets, unresolved, order)), ByKey())
  }

  lemma Snoc(outcomes: seq<Outcome>, o: Outcome)
    ensures Rows(outcomes + [o]) == Rows(outcomes) + if o.Row? then [o] else []
    ensures Warnings(outcomes + [o]) == Warnings(outcomes) + if o.Warning? then [o] else []
  {
    assert (outcomes + [o])[..|outcomes|] == outcomes;
  }

  /** Pushing one outcome after the other to the two lists. */
  method Push(outcomes: seq<Outcome>, rows: seq<Outcome>, warnings: seq<Outcome>, ghost all: seq<Outcome>)
    returns (rows': seq<Outcome>, warnings': seq<Outcome>)
    requires rows == Rows(all) && warnings == Warnings(all)
    ensures rows' == Rows(all + outcomes) && warnings' == Warnings(all + outcomes)
  {
    rows', warnings' := rows, warnings;
    assert all + outcomes[..0] == all;
    for i := 0 to |outcomes|
      invariant rows' == Rows(all + outcomes[..i]) && warnings' == Warnings(all + outcomes[..i])
    {
      Snoc(all + outcomes[..i], outcomes[i]);
      assert all + outcomes[..i + 1] == (all + outcomes[..i]) + [outcomes[i]];
      if outcomes[i].Row? {
        rows' := rows' + [outcomes[i]];
      } else {
        warnings' := warnings' + [outcomes[i]];
      }
    }
    assert outcomes[..|outcomes|] == outcomes;
  }

  method ReadKind(node: Reads, kind: nat, targets: seq<Target>, unresolved: seq<int>, order: seq<nat>) returns (outcomes: seq<Outcome>)
    requires Finishes(targets, unresolved, order)
    ensures outcomes == KindOutcomes(node, kind, targets, unresolved, order)
  {
    var ts := Relevant(targets, kind, unresolved);
    if kind == VOTING {
      OrderIsBelow(order, |ts|);
      outcomes := VoteOutcomes(node, ts, order);
    } else {
      outcomes := QueryOutcomes(node, kind, ts);
    }
  }

  /** `captureAccountState` after the targets are known, for one completion order of the pool. */
  method Capture(node: Reads, kinds: seq<nat>, targets: seq<Target>, unresolved: seq<int>, order: seq<nat>)
    returns (rows: seq<Outcome>, warnings: seq<Outcome>)
    requires Finishes(targets, unresolved, order)
    ensures rows == Captured(node, kinds, targets, unresolved, order)
    ensures warnings == Warnings(Outcomes(node, kinds, targets, unresolved, order))
  {
    rows, warnings := [], [];
    assert [] + Withheld(unresolved) == Withheld(unresolved);
    rows, warnings := Push(Withheld(unresolved), rows, warnings, []);
    for k := 0 to |kinds|
      invariant rows == Rows(Outcomes(node, kinds[..k], targets, unresolved, order))
      invariant warnings == Warnings(Outcomes(node, kinds[..k], targets, unresolved, order))
    {
      assert kinds[..k + 1][..k] == kinds[..k];
      var outcomes := ReadKind(node, kinds[k], targets, unresolved, order);
      rows, warnings := Push(outcomes, rows, warnings, Outcomes(node, kinds[..k], targets, unresolved, order));
    }
    assert kinds[..|kinds|] == kinds;
    rows := Sort(rows, ByKey());
  }
}
