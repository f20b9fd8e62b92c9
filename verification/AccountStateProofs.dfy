/** The account-state capture: exactly one outcome each, whatever the workers' interleaving. */
module AccountStateProofs {
  import opened Wrappers
  import opened StableSort
  import opened WorkerPool
  import opened AccountState

  // ---------------------------------------------------------------- counting outcomes

  function Hits(o: Outcome, kind: nat, account: int): nat { if o.kind == kind && o.account == account then 1 else 0 }

  function Tally(outcomes: seq<Outcome>, kind: nat, account: int): nat {
    if outcomes == [] then 0 else Tally(outcomes[..|outcomes| - 1], kind, account) + Hits(outcomes[|outcomes| - 1], kind, account)
  }

  /** The targets of one account. */
  function Of(targets: seq<Target>, account: int): nat {
    if targets == [] then 0
    else Of(targets[..|targets| - 1], account) + if targets[|targets| - 1].account == account then 1 else 0
  }

  lemma {:induction false} TallyAdds(a: seq<Outcome>, b: seq<Outcome>, kind: nat, account: int)
    ensures Tally(a + b, kind, account) == Tally(a, kind, account) + Tally(b, kind, account)
  {
    if b == [] {
      assert a + b == a;
    } else {
      assert (a + b)[..|a + b| - 1] == a + b[..|b| - 1];
      TallyAdds(a, b[..|b| - 1], kind, account);
    }
  }

  /** Every outcome is a row or a warning. */
  lemma {:induction false} RowsAndWarnings(outcomes: seq<Outcome>, kind: nat, account: int)
    ensures Tally(Rows(outcomes), kind, account) + Tally(Warnings(outcomes), kind, account) == Tally(outcomes, kind, account)
  {
    if outcomes != [] {
      var front, last := outcomes[..|outcomes| - 1], outcomes[|outcomes| - 1];
      RowsAndWarnings(front, kind, account);
      TallyAdds(Rows(front), [last], kind, account);
      TallyAdds(Warnings(front), [last], kind, account);
      assert [last][..0] == [];
    }
  }

  /** One outcome of the kind per target, in the targets' order. */
  ghost predicate PerTarget(outcomes: seq<Outcome>, ts: seq<Target>, kind: nat) {
    |outcomes| == |ts| && forall i | 0 <= i < |ts| :: outcomes[i].kind == kind && outcomes[i].account == ts[i].account
  }

  lemma {:induction false} PerTargetTally(outcomes: seq<Outcome>, ts: seq<Target>, kind: nat, k: nat, account: int)
    requires PerTarget(outcomes, ts, kind)
    ensures Tally(outcomes, k, account) == if k == kind then Of(ts, account) else 0
  {
    if ts != [] { PerTargetTally(outcomes[..|ts| - 1], ts[..|ts| - 1], kind, k, account); }
  }

  // ---------------------------------------------------------------- the pool's order

  lemma {:induction false} CountSplits(a: seq<nat>, b: seq<nat>, x: nat)
    ensures Count(a + b, x) == Count(a, x) + Count(b, x)
  {
    if b == [] {
      assert a + b == a;
    } else {
      assert (a + b)[..|a + b| - 1] == a + b[..|b| - 1];
      CountSplits(a, b[..|b| - 1], x);
    }
  }

  lemma CountWithout(items: seq<nat>, i: nat, x: nat)
    requires i < |items|
    ensures Count(items, x) == Count(items[..i] + items[i + 1..], x) + if items[i] == x then 1 else 0
  {
    assert items == (items[..i] + [items[i]]) + items[i + 1..];
    CountSplits(items[..i] + [items[i]], items[i + 1..], x);
    CountSplits(items[..i], [items[i]], x);
    CountSplits(items[..i], items[i + 1..], x);
    assert [items[i]][..0] == [];
  }

  lemma TallySplits(a: seq<Outcome>, o: Outcome, b: seq<Outcome>, kind: nat, account: int)
    ensures Tally(a + [o] + b, kind, account) == Tally(a + b, kind, account) + Hits(o, kind, account)
  {
    TallyAdds(a + [o], b, kind, account);
    TallyAdds(a, [o], kind, account);
    TallyAdds(a, b, kind, account);
    assert [o][..0] == [];
  }

  lemma NothingOnce(order: seq<nat>)
    requires EachOnce(order, 0)
    ensures order == []
  {
    if order != [] { CountPositive(order, order[|order| - 1]); }
  }

  lemma VotesWithout(node: Reads, ts: seq<Target>, order: seq<nat>, i: nat, rest: seq<nat>)
    requires i < |order| && ts != [] && rest == order[..i] + order[i + 1..]
    requires (forall k | 0 <= k < |order| :: order[k] < |ts|) && forall k | 0 <= k < |rest| :: rest[k] < |ts| - 1
    ensures var outs := VoteOutcomes(node, ts, order);
            && VoteOutcomes(node, ts[..|ts| - 1], rest) == outs[..i] + outs[i + 1..]
            && outs == outs[..i] + [outs[i]] + outs[i + 1..]
  {
  }

  /** Voting outcomes in any completion order tally like the targets. */
  lemma {:induction false} VotesTally(node: Reads, ts: seq<Target>, order: seq<nat>, kind: nat, account: int)
    requires EachOnce(order, |ts|) && forall k | 0 <= k < |order| :: order[k] < |ts|
    ensures Tally(VoteOutcomes(node, ts, order), kind, account) == if kind == VOTING then Of(ts, account) else 0
    decreases |ts|
  {
    var n := |ts|;
    if n == 0 {
      NothingOnce(order);
    } else {
      OrderIsBelow(order, n);
      assert n - 1 in order;
      var i :| 0 <= i < |order| && order[i] == n - 1;
      var rest := order[..i] + order[i + 1..];
      forall x: nat ensures Count(rest, x) == if x < n - 1 then 1 else 0 { CountWithout(order, i, x); }
      OrderIsBelow(rest, n - 1);
      VotesTally(node, ts[..n - 1], rest, kind, account);
      VotesWithout(node, ts, order, i, rest);
      var outs := VoteOutcomes(node, ts, order);
      TallySplits(outs[..i], outs[i], outs[i + 1..], kind, account);
    }
  }

  lemma KindTally(node: Reads, k: nat, targets: seq<Target>, unresolved: seq<int>, order: seq<nat>, kind: nat, account: int)
    requires Finishes(targets, unresolved, order)
    ensures Tally(KindOutcomes(node, k, targets, unresolved, order), kind, account)
         == if kind == k then Of(Relevant(targets, kind, unresolved), account) else 0
  {
    var ts := Relevant(targets, k, unresolved);
    if k == VOTING {
      OrderIsBelow(order, |ts|);
      VotesTally(node, ts, order, kind, account);
    } else {
      PerTargetTally(QueryOutcomes(node, k, ts), ts, k, kind, account);
    }
  }

  // ---------------------------------------------------------------- exactly one

  ghost predicate DistinctAccounts(targets: seq<Target>) { forall i, j | 0 <= i < j < |targets| :: targets[i].account != targets[j].account }

  /** Whether a target's kind is read. */
  predicate Read(t: Target, kind: nat, unresolved: seq<int>) { Asks(t, kind) && !(kind == VOTING && t.account in unresolved) }

  lemma {:induction false} RelevantOf(targets: seq<Target>, kind: nat, unresolved: seq<int>, account: int)
    requires DistinctAccounts(targets)
    ensures Of(Relevant(targets, kind, unresolved), account)
         == if Find(targets, account) < |targets| && Read(targets[Find(targets, account)], kind, unresolved) then 1 else 0
  {
    if targets != [] {
      var front, t := targets[..|targets| - 1], targets[|targets| - 1];
      RelevantOf(front, kind, unresolved, account);
      if Find(front, account) < |front| { assert targets[Find(front, account)].account != t.account || account != t.account; }
      OfSnoc(Relevant(front, kind, unresolved), t, account);
    }
  }

  lemma OfSnoc(targets: seq<Target>, t: Target, account: int)
    ensures Of(targets + [t], account) == Of(targets, account) + if t.account == account then 1 else 0
  {
    assert (targets + [t])[..|targets|] == targets;
  }

  lemma {:induction false} OutcomesTally(node: Reads, kinds: seq<nat>, targets: seq<Target>, unresolved: seq<int>, order: seq<nat>, kind: nat, account: int)
    requires Finishes(targets, unresolved, order) && DistinctAccounts(targets) && forall i, j | 0 <= i < j < |kinds| :: kinds[i] != kinds[j]
    ensures Tally(Outcomes(node, kinds, targets, unresolved, order), kind, account)
         == Tally(Withheld(unresolved), kind, account)
            + if kind in kinds then Of(Relevant(targets, kind, unresolved), account) else 0
  {
    if kinds != [] {
      var front, k := kinds[..|kinds| - 1], kinds[|kinds| - 1];
      OutcomesTally(node, front, targets, unresolved, order, kind, account);
      KindTally(node, k, targets, unresolved, order, kind, account);
      TallyAdds(Outcomes(node, front, targets, unresolved, order), KindOutcomes(node, k, targets, unresolved, order), kind, account);
      assert kinds == front + [k];
    }
  }

  lemma {:induction false} WithheldTally(unresolved: seq<int>, kind: nat, account: int)
    requires forall i, j | 0 <= i < j < |unresolved| :: unresolved[i] != unresolved[j]
    ensures Tally(Withheld(unresolved), kind, account) == if kind == VOTING && account in unresolved then 1 else 0
  {
    if unresolved != [] {
      var n := |unresolved| - 1;
      WithheldTally(unresolved[..n], kind, account);
      assert Withheld(unresolved)[..n] == Withheld(unresolved[..n]);
      assert unresolved == unresolved[..n] + [unresolved[n]];
    }
  }

  /** What a capture is given: distinct targets, distinct kinds, and unresolved delegators once. */
  ghost predicate IsCapture(kinds: seq<nat>, targets: seq<Target>, unresolved: seq<int>, order: seq<nat>) {
    && Finishes(targets, unresolved, order) && DistinctAccounts(targets)
    && (forall i, j | 0 <= i < j < |kinds| :: kinds[i] != kinds[j])
    && (forall i, j | 0 <= i < j < |unresolved| :: unresolved[i] != unresolved[j])
  }

  function Expected(kinds: seq<nat>, targets: seq<Target>, unresolved: seq<int>, kind: nat, account: int): nat {
    if kind == VOTING && account in unresolved then 1
    else if kind in kinds && Find(targets, account) < |targets| && Lists(targets[Find(targets, account)], kind) then 1
    else 0
  }

  /** A target without a list of kinds stands for every kind. */
  predicate Lists(t: Target, kind: nat) { t.kinds == None || kind in t.kinds.value }

  /** Each stored kind and each target that asks for it gets exactly one row or exactly one
      warning; an unresolved delegator's votes get exactly one warning; nothing else appears. */
  lemma ExactlyOneOutcome(node: Reads, kinds: seq<nat>, targets: seq<Target>, unresolved: seq<int>, order: seq<nat>, kind: nat, account: int)
    requires IsCapture(kinds, targets, unresolved, order)
    ensures var all := Outcomes(node, kinds, targets, unresolved, order);
            Tally(Rows(all), kind, account) + Tally(Warnings(all), kind, account) == Expected(kinds, targets, unresolved, kind, account)
  {
    OutcomesTally(node, kinds, targets, unresolved, order, kind, account);
    WithheldTally(unresolved, kind, account);
    RelevantOf(targets, kind, unresolved, account);
    RowsAndWarnings(Outcomes(node, kinds, targets, unresolved, order), kind, account);
  }

  lemma {:induction false} WarnedIsCounted(outcomes: seq<Outcome>, i: nat)
    requires i < |outcomes| && outcomes[i].Warning?
    ensures Tally(Warnings(outcomes), outcomes[i].kind, outcomes[i].account) >= 1
  {
    var n := |outcomes| - 1;
    TallyAdds(Warnings(outcomes[..n]), [outcomes[n]], outcomes[i].kind, outcomes[i].account);
    assert [outcomes[n]][..0] == [];
    if i < n {
      assert outcomes[..n][i] == outcomes[i];
      WarnedIsCounted(outcomes[..n], i);
    }
  }

  lemma {:induction false} WithheldIsFirst(node: Reads, kinds: seq<nat>, targets: seq<Target>, unresolved: seq<int>, order: seq<nat>)
    requires Finishes(targets, unresolved, order)
    ensures Withheld(unresolved) <= Outcomes(node, kinds, targets, unresolved, order)
  {
    if kinds != [] { WithheldIsFirst(node, kinds[..|kinds| - 1], targets, unresolved, order); }
  }

  /** An unresolved delegator has a warning for its votes and no row. */
  lemma UnresolvedIsWithheld(node: Reads, kinds: seq<nat>, targets: seq<Target>, unresolved: seq<int>, order: seq<nat>, account: int)
    requires IsCapture(kinds, targets, unresolved, order) && account in unresolved
    ensures var all := Outcomes(node, kinds, targets, unresolved, order);
            Tally(Rows(all), VOTING, account) == 0 && Tally(Warnings(all), VOTING, account) == 1
  {
    var i :| 0 <= i < |unresolved| && unresolved[i] == account;
    var all := Outcomes(node, kinds, targets, unresolved, order);
    WithheldIsFirst(node, kinds, targets, unresolved, order);
    assert all[i] == Withheld(unresolved)[i];
    WarnedIsCounted(all, i);
    ExactlyOneOutcome(node, kinds, targets, unresolved, order, VOTING, account);
  }

  // ---------------------------------------------------------------- scheduling does not show

  ghost predicate StrictlySorted(s: seq<Outcome>) { forall i, j | 0 <= i < j < |s| :: !ByKey()(s[j], s[i]) }

  lemma FirstIsIn(s: seq<Outcome>)
    ensures s == [] || s[0] in s
  {
  }

  lemma {:induction false} StrictlySortedIsUnique(a: seq<Outcome>, b: seq<Outcome>)
    requires StrictlySorted(a) && StrictlySorted(b) && forall x :: x in a <==> x in b
    ensures a == b
  {
    if a == [] {
      FirstIsIn(b);
    } else {
      var n, m := |a| - 1, |b| - 1;
      assert a[n] in a && (b != [] ==> b[m] in b);
      LastIsLargest(a, b);
      assert a == a[..n] + [a[n]] && b == b[..m] + [b[m]];
      forall x ensures x in a[..n] <==> x in b[..m] {
        NotAgain(a, x);
        NotAgain(b, x);
      }
      StrictlySortedIsUnique(a[..n], b[..m]);
    }
  }

  lemma NotAgain(a: seq<Outcome>, x: Outcome)
    requires StrictlySorted(a) && a != []
    ensures x in a[..|a| - 1] <==> x in a && x != a[|a| - 1]
  {
    assert a == a[..|a| - 1] + [a[|a| - 1]];
    if x in a[..|a| - 1] {
      var i :| 0 <= i < |a| - 1 && a[i] == x;
    }
  }

  lemma LastIsLargest(a: seq<Outcome>, b: seq<Outcome>)
    requires StrictlySorted(a) && StrictlySorted(b) && a != [] && forall x :: x in a <==> x in b
    ensures b != [] && a[|a| - 1] == b[|b| - 1]
  {
    var n := |a| - 1;
    assert a[n] in b;
    var i :| 0 <= i < |b| && b[i] == a[n];
    var m := |b| - 1;
    assert b[m] in a;
    var j :| 0 <= j < |a| && a[j] == b[m];
  }

  /** Sorting keeps what is there, and distinct keys make it strict. */
  lemma {:induction false} TallyOfInsert(s: seq<Outcome>, x: Outcome, kind: nat, account: int)
    ensures Tally(Insert(s, x, ByKey()), kind, account) == Tally(s, kind, account) + Hits(x, kind, account)
  {
    if s == [] {
      assert [x][..0] == [];
    } else if ByKey()(s[|s| - 1], x) {
      assert (s + [x])[..|s|] == s;
    } else {
      TallyOfInsert(s[..|s| - 1], x, kind, account);
      var r := Insert(s[..|s| - 1], x, ByKey());
      assert (r + [s[|s| - 1]])[..|r|] == r;
    }
  }

  lemma {:induction false} TallyOfSort(s: seq<Outcome>, kind: nat, account: int)
    ensures Tally(Sort(s, ByKey()), kind, account) == Tally(s, kind, account)
  {
    if s != [] {
      TallyOfSort(s[..|s| - 1], kind, account);
      TallyOfInsert(Sort(s[..|s| - 1], ByKey()), s[|s| - 1], kind, account);
    }
  }

  lemma {:induction false} TallyCounts(s: seq<Outcome>, i: nat, j: nat)
    requires i < j < |s| && s[i].kind == s[j].kind && s[i].account == s[j].account
    ensures Tally(s, s[i].kind, s[i].account) >= 2
  {
    var n := |s| - 1;
    if j < n {
      TallyCounts(s[..n], i, j);
    } else {
      TallyOne(s[..n], i);
    }
  }

  lemma {:induction false} TallyOne(s: seq<Outcome>, i: nat)
    requires i < |s|
    ensures Tally(s, s[i].kind, s[i].account) >= 1
  {
    if i < |s| - 1 { TallyOne(s[..|s| - 1], i); }
  }

  lemma ByKeyCompares()
    ensures Comparator(ByKey())
  {
  }

  lemma SortIsStrict(rows: seq<Outcome>)
    requires forall kind: nat, account :: Tally(rows, kind, account) <= 1
    ensures StrictlySorted(Sort(rows, ByKey()))
  {
    ByKeyCompares();
    SortSorts(rows, ByKey());
    var s := Sort(rows, ByKey());
    forall i, j | 0 <= i < j < |s| ensures !ByKey()(s[j], s[i]) {
      if s[i].kind == s[j].kind && s[i].account == s[j].account {
        TallyOfSort(rows, s[i].kind, s[i].account);
        TallyCounts(s, i, j);
      }
    }
  }

  lemma SortKeepsMembers(rows: seq<Outcome>, x: Outcome)
    ensures x in Sort(rows, ByKey()) <==> x in rows
  {
    SortPermutes(rows, ByKey());
    assert x in multiset(Sort(rows, ByKey())) <==> x in multiset(rows);
  }

  lemma {:induction false} RowsMembers(outcomes: seq<Outcome>, x: Outcome)
    ensures x in Rows(outcomes) <==> x in outcomes && x.Row?
  {
    if outcomes != [] {
      RowsMembers(outcomes[..|outcomes| - 1], x);
      assert outcomes == outcomes[..|outcomes| - 1] + [outcomes[|outcomes| - 1]];
    }
  }

  lemma VoteMembers(node: Reads, ts: seq<Target>, order: seq<nat>, x: Outcome)
    requires EachOnce(order, |ts|) && forall k | 0 <= k < |order| :: order[k] < |ts|
    ensures x in VoteOutcomes(node, ts, order) <==> exists i :: 0 <= i < |ts| && x == VoteOutcome(node, ts[i])
  {
    OrderIsBelow(order, |ts|);
    var outs := VoteOutcomes(node, ts, order);
    if i :| 0 <= i < |ts| && x == VoteOutcome(node, ts[i]) {
      assert i in order;
      var k :| 0 <= k < |order| && order[k] == i;
      assert outs[k] == x;
    }
  }

  lemma {:induction false} OutcomesMembers(node: Reads, kinds: seq<nat>, targets: seq<Target>, unresolved: seq<int>, order: seq<nat>, other: seq<nat>, x: Outcome)
    requires Finishes(targets, unresolved, order) && Finishes(targets, unresolved, other)
    ensures x in Outcomes(node, kinds, targets, unresolved, order) <==> x in Outcomes(node, kinds, targets, unresolved, other)
  {
    if kinds != [] {
      var k := kinds[|kinds| - 1];
      OutcomesMembers(node, kinds[..|kinds| - 1], targets, unresolved, order, other, x);
      var ts := Relevant(targets, k, unresolved);
      if k == VOTING {
        OrderIsBelow(order, |ts|);
        OrderIsBelow(other, |ts|);
        VoteMembers(node, ts, order, x);
        VoteMembers(node, ts, other, x);
      }
    }
  }

  /** A row holds what the read of its own kind and account answered, with that target's triggers;
      a warning stands for a read that failed, or for votes that are held back. */
  ghost predicate OwnRead(node: Reads, targets: seq<Target>, unresolved: seq<int>, x: Outcome) {
    || (x == Warning(VOTING, x.account) && x.account in unresolved)
    || exists i :: 0 <= i < |Relevant(targets, x.kind, unresolved)| && IsRead(node, Relevant(targets, x.kind, unresolved), i, x)
  }

  ghost predicate IsRead(node: Reads, ts: seq<Target>, i: nat, x: Outcome)
    requires i < |ts|
  {
    var values := node.query(x.kind, seq(|ts|, j requires 0 <= j < |ts| => ts[j].account));
    var answered := if x.kind == VOTING then node.votes(ts[i].account).Some? else values.Some? && |values.value| == |ts|;
    && x.account == ts[i].account && (x.Row? <==> answered)
    && (x.Row? ==>
          && x.triggers == ts[i].triggers
          && x.value == if x.kind == VOTING then node.votes(ts[i].account).value
                        else if values.value[i].Some? then values.value[i].value else node.fallback(x.kind))
  }

  lemma {:induction false} OutcomesAreOwnReads(node: Reads, kinds: seq<nat>, targets: seq<Target>, unresolved: seq<int>, order: seq<nat>, x: Outcome)
    requires Finishes(targets, unresolved, order) && x in Outcomes(node, kinds, targets, unresolved, order)
    ensures OwnRead(node, targets, unresolved, x)
  {
    if kinds != [] {
      var front, kind := kinds[..|kinds| - 1], kinds[|kinds| - 1];
      if x in Outcomes(node, front, targets, unresolved, order) {
        OutcomesAreOwnReads(node, front, targets, unresolved, order, x);
      } else {
        KindIsOwnRead(node, kind, targets, unresolved, order, x);
      }
    }
  }

  lemma KindIsOwnRead(node: Reads, kind: nat, targets: seq<Target>, unresolved: seq<int>, order: seq<nat>, x: Outcome)
    requires Finishes(targets, unresolved, order) && x in KindOutcomes(node, kind, targets, unresolved, order)
    ensures OwnRead(node, targets, unresolved, x)
  {
    var ts := Relevant(targets, kind, unresolved);
    if kind == VOTING {
      OrderIsBelow(order, |ts|);
      VoteMembers(node, ts, order, x);
      var i :| 0 <= i < |ts| && x == VoteOutcome(node, ts[i]);
      assert IsRead(node, ts, i, x);
    } else {
      var i :| 0 <= i < |ts| && QueryOutcomes(node, kind, ts)[i] == x;
      assert IsRead(node, ts, i, x);
    }
  }

  /** Each captured row is the answer to its own read. */
  lemma RowsCarryTheirReads(node: Reads, kinds: seq<nat>, targets: seq<Target>, unresolved: seq<int>, order: seq<nat>, x: Outcome)
    requires Finishes(targets, unresolved, order) && x in Captured(node, kinds, targets, unresolved, order)
    ensures x.Row? && OwnRead(node, targets, unresolved, x)
  {
    var outcomes := Outcomes(node, kinds, targets, unresolved, order);
    SortKeepsMembers(Rows(outcomes), x);
    RowsMembers(outcomes, x);
    OutcomesAreOwnReads(node, kinds, targets, unresolved, order, x);
  }

  /** The rows come kind by kind, and in the order of their accounts within a kind. */
  lemma RowsComeInOrder(node: Reads, kinds: seq<nat>, targets: seq<Target>, unresolved: seq<int>, order: seq<nat>, i: nat, j: nat)
    requires IsCapture(kinds, targets, unresolved, order) && i < j < |Captured(node, kinds, targets, unresolved, order)|
    ensures var rows := Captured(node, kinds, targets, unresolved, order);
            rows[i].kind < rows[j].kind || (rows[i].kind == rows[j].kind && rows[i].account < rows[j].account)
  {
    RowsAreStrict(node, kinds, targets, unresolved, order);
  }

  lemma RowsAreStrict(node: Reads, kinds: seq<nat>, targets: seq<Target>, unresolved: seq<int>, order: seq<nat>)
    requires IsCapture(kinds, targets, unresolved, order)
    ensures StrictlySorted(Captured(node, kinds, targets, unresolved, order))
  {
    var rows := Rows(Outcomes(node, kinds, targets, unresolved, order));
    forall kind: nat, account ensures Tally(rows, kind, account) <= 1 {
      ExactlyOneOutcome(node, kinds, targets, unresolved, order, kind, account);
    }
    SortIsStrict(rows);
  }

  /** The rows do not depend on the order in which the workers finish. */
  lemma OrderDoesNotShow(node: Reads, kinds: seq<nat>, targets: seq<Target>, unresolved: seq<int>, order: seq<nat>, other: seq<nat>)
    requires IsCapture(kinds, targets, unresolved, order) && IsCapture(kinds, targets, unresolved, other)
    ensures Captured(node, kinds, targets, unresolved, order) == Captured(node, kinds, targets, unresolved, other)
  {
    RowsAreStrict(node, kinds, targets, unresolved, order);
    RowsAreStrict(node, kinds, targets, unresolved, other);
    var a, b := Outcomes(node, kinds, targets, unresolved, order), Outcomes(node, kinds, targets, unresolved, other);
    forall x ensures x in Sort(Rows(a), ByKey()) <==> x in Sort(Rows(b), ByKey()) {
      SortKeepsMembers(Rows(a), x);
      SortKeepsMembers(Rows(b), x);
      RowsMembers(a, x);
      RowsMembers(b, x);
      OutcomesMembers(node, kinds, targets, unresolved, order, other, x);
    }
    StrictlySortedIsUnique(Sort(Rows(a), ByKey()), Sort(Rows(b), ByKey()));
  }

  /** Every interleaving of the eight workers that runs to its end is such an order. */
  lemma EveryScheduleFinishes(targets: seq<Target>, unresolved: seq<int>, schedule: seq<nat>)
    requires forall i | 0 <= i < |schedule| :: schedule[i] < Width(|Relevant(targets, VOTING, unresolved)|, 8)
    requires AllFinished(After(|Relevant(targets, VOTING, unresolved)|, 8, schedule))
    ensures Finishes(targets, unresolved, After(|Relevant(targets, VOTING, unresolved)|, 8, schedule).done)
  {
    FinishedIsComplete(|Relevant(targets, VOTING, unresolved)|, 8, schedule);
  }

  // ---------------------------------------------------------------- no delegation target is missed

  /** Some target of this account asks for the kind. */
  ghost predicate Wanted(targets: seq<Target>, account: int, kind: nat) {
    exists i :: 0 <= i < |targets| && targets[i].account == account && Asks(targets[i], kind)
  }

  lemma NameKeeps(targets: seq<Target>, named: int, account: int, kind: nat)
    ensures Wanted(targets, account, kind) ==> Wanted(Name(targets, named), account, kind)
    ensures Wanted(Name(targets, named), named, VOTING)
    ensures DistinctAccounts(targets) ==> DistinctAccounts(Name(targets, named))
  {
    var i, after := Find(targets, named), Name(targets, named);
    assert after[i].account == named && Asks(after[i], VOTING);
    if k :| 0 <= k < |targets| && targets[k].account == account && Asks(targets[k], kind) {
      assert after[k].account == account && Asks(after[k], kind);
    }
  }

  lemma {:induction false} NameAllKeeps(targets: seq<Target>, names: seq<int>, account: int, kind: nat)
    ensures Wanted(targets, account, kind) ==> Wanted(NameAll(targets, names), account, kind)
    ensures account in names ==> Wanted(NameAll(targets, names), account, VOTING)
    ensures DistinctAccounts(targets) ==> DistinctAccounts(NameAll(targets, names))
  {
    if names != [] {
      var front, last := names[..|names| - 1], names[|names| - 1];
      NameAllKeeps(targets, front, account, kind);
      NameAllKeeps(targets, front, account, VOTING);
      NameKeeps(NameAll(targets, front), last, account, kind);
      NameKeeps(NameAll(targets, front), last, account, VOTING);
      assert names == front + [last];
    }
  }

  lemma {:induction false} ExpandKeeps(node: Reads, named: seq<Target>, n: nat, account: int, kind: nat)
    requires n <= |named|
    ensures Wanted(named, account, kind) ==> Wanted(Expand(node, named, n).0, account, kind)
    ensures DistinctAccounts(named) ==> DistinctAccounts(Expand(node, named, n).0)
  {
    if n > 0 {
      ExpandKeeps(node, named, n - 1, account, kind);
      var t := named[n - 1];
      if t.expand && node.parent(t.account).Some? {
        NameAllKeeps(Expand(node, named, n - 1).0, node.parent(t.account).value, account, kind);
      }
    }
  }

  lemma {:induction false} ExpandCovers(node: Reads, named: seq<Target>, n: nat, d: nat, account: int)
    requires d < n <= |named| && named[d].expand
    ensures node.parent(named[d].account).None? ==> named[d].account in Expand(node, named, n).1
    ensures node.parent(named[d].account).Some? && account in node.parent(named[d].account).value ==>
              Wanted(Expand(node, named, n).0, account, VOTING)
  {
    var t := named[n - 1];
    if d < n - 1 { ExpandCovers(node, named, n - 1, d, account); }
    if t.expand && node.parent(t.account).Some? {
      NameAllKeeps(Expand(node, named, n - 1).0, node.parent(t.account).value, account, VOTING);
    }
  }

  lemma SortKeepsWanted(targets: seq<Target>, account: int, kind: nat)
    ensures Wanted(targets, account, kind) ==> Wanted(Sort(targets, ByAccount()), account, kind)
  {
    SortPermutes(targets, ByAccount());
    if i :| 0 <= i < |targets| && targets[i].account == account && Asks(targets[i], kind) {
      assert targets[i] in multiset(targets);
      assert targets[i] in multiset(Sort(targets, ByAccount()));
      var s := Sort(targets, ByAccount());
      assert targets[i] in s;
      var j :| 0 <= j < |s| && s[j] == targets[i];
    }
  }

  /** Every account an undelegating account had delegated to is asked for its votes, unless that
      delegator itself is reported unresolved; and nothing the block named is dropped. */
  lemma DelegationTargetsAreAsked(node: Reads, named: seq<Target>, d: nat, account: int, kind: nat)
    requires d < |named| && named[d].expand
    ensures var r := WithDelegationTargets(node, true, named);
            && (Wanted(named, account, kind) ==> Wanted(r.0, account, kind))
            && (if node.parent(named[d].account).None? then named[d].account in r.1
                else account in node.parent(named[d].account).value ==> Wanted(r.0, account, VOTING))
  {
    assert AnyExpands(named);
    ExpandKeeps(node, named, |named|, account, kind);
    ExpandCovers(node, named, |named|, d, account);
    SortKeepsWanted(Expand(node, named, |named|).0, account, kind);
    SortKeepsWanted(Expand(node, named, |named|).0, account, VOTING);
  }

  // ---------------------------------------------------------------- what the expansion makes of a target

  function TargetOf(targets: seq<Target>, account: int): Option<Target> {
    var i := Find(targets, account);
    if i < |targets| then Some(targets[i]) else None
  }

  /** Some undelegating account had delegated to this one. */
  ghost predicate WasDelegate(node: Reads, named: seq<Target>, n: nat, account: int)
    requires n <= |named|
  {
    exists d :: 0 <= d < n && named[d].expand && node.parent(named[d].account).Some? && account in node.parent(named[d].account).value
  }

  /** A former delegate is read for its votes under the undelegation's name, on top of what the
      block names it for. */
  function Delegated(account: int, t: Option<Target>): Option<Target> {
    match t
    case None => Some(Target(account, {"ConvictionVoting.Undelegated"}, Some({1}), false))
    case Some(Target(_, triggers, None, expand)) => Some(Target(account, triggers + {"ConvictionVoting.Undelegated"}, None, expand))
    case Some(Target(_, triggers, Some(kinds), expand)) => Some(Target(account, triggers + {"ConvictionVoting.Undelegated"}, Some(kinds + {1}), expand))
  }

  lemma FindIs(targets: seq<Target>, i: nat)
    requires i < |targets| && DistinctAccounts(targets)
    ensures Find(targets, targets[i].account) == i
  {
  }

  lemma NameChanges(targets: seq<Target>, named: int, account: int)
    requires DistinctAccounts(targets)
    ensures TargetOf(Name(targets, named), account) == if account == named then Delegated(account, TargetOf(targets, account)) else TargetOf(targets, account)
  {
    var i, after, k := Find(targets, named), Name(targets, named), Find(targets, account);
    NameKeeps(targets, named, account, VOTING);
    if account == named {
      FindIs(after, i);
    } else if k < |targets| {
      assert after[k] == targets[k];
      FindIs(after, k);
    } else {
      forall j | 0 <= j < |after| ensures after[j].account != account {
        assert j != i ==> after[j] == targets[j];
      }
    }
  }

  lemma {:induction false} NameAllChanges(targets: seq<Target>, names: seq<int>, account: int)
    requires DistinctAccounts(targets)
    ensures TargetOf(NameAll(targets, names), account) == if account in names then Delegated(account, TargetOf(targets, account)) else TargetOf(targets, account)
  {
    if names != [] {
      var front, last := names[..|names| - 1], names[|names| - 1];
      NameAllChanges(targets, front, account);
      NameAllKeeps(targets, front, account, VOTING);
      NameChanges(NameAll(targets, front), last, account);
      assert names == front + [last];
      DelegatedTwice(account, TargetOf(targets, account));
    }
  }

  lemma DelegatedTwice(account: int, t: Option<Target>)
    ensures Delegated(account, Delegated(account, t)) == Delegated(account, t)
  {
    var twice, once := Delegated(account, Delegated(account, t)), Delegated(account, t);
    assert twice.value.triggers == once.value.triggers;
    assert once.value.kinds.Some? ==> twice.value.kinds.value == once.value.kinds.value;
  }

  lemma {:induction false} ExpandChanges(node: Reads, named: seq<Target>, n: nat, account: int)
    requires DistinctAccounts(named) && n <= |named|
    ensures TargetOf(Expand(node, named, n).0, account)
         == if WasDelegate(node, named, n, account) then Delegated(account, TargetOf(named, account)) else TargetOf(named, account)
  {
    if n > 0 {
      ExpandChanges(node, named, n - 1, account);
      ExpandKeeps(node, named, n - 1, account, VOTING);
      DelegateStep(node, named, n - 1, account);
      var t := named[n - 1];
      if t.expand && node.parent(t.account).Some? {
        NameAllChanges(Expand(node, named, n - 1).0, node.parent(t.account).value, account);
        DelegatedTwice(account, TargetOf(named, account));
      }
    }
  }

  lemma DelegateStep(node: Reads, named: seq<Target>, d: nat, account: int)
    requires d < |named|
    ensures WasDelegate(node, named, d + 1, account)
       <==> WasDelegate(node, named, d, account)
            || (named[d].expand && node.parent(named[d].account).Some? && account in node.parent(named[d].account).value)
  {
  }

  lemma SortKeepsTarget(targets: seq<Target>, account: int)
    requires DistinctAccounts(targets)
    ensures TargetOf(Sort(targets, ByAccount()), account) == TargetOf(targets, account)
  {
    var s := Sort(targets, ByAccount());
    SortKeepsDistinct(targets);
    SortPermutes(targets, ByAccount());
    var i := Find(targets, account);
    if i < |targets| {
      assert targets[i] in multiset(s);
      var k :| 0 <= k < |s| && s[k] == targets[i];
      FindIs(s, k);
    } else {
      forall k | 0 <= k < |s| ensures s[k].account != account {
        assert s[k] in multiset(targets);
      }
    }
  }

  /** For every account: what is read of it after the lookups is what the block names it for and,
      if an undelegating account had delegated to it, its votes, and nothing else; in the order
      of the accounts. */
  lemma ExpansionIs(node: Reads, named: seq<Target>, account: int)
    requires DistinctAccounts(named) && exists t :: t in named && t.expand
    ensures TargetOf(WithDelegationTargets(node, true, named).0, account)
         == if WasDelegate(node, named, |named|, account) then Delegated(account, TargetOf(named, account)) else TargetOf(named, account)
    ensures var r := WithDelegationTargets(node, true, named).0;
            forall i, j | 0 <= i < j < |r| :: r[i].account < r[j].account
  {
    assert AnyExpands(named);
    var expanded := Expand(node, named, |named|).0;
    ExpandChanges(node, named, |named|, account);
    ExpandKeeps(node, named, |named|, account, VOTING);
    SortKeepsTarget(expanded, account);
    SortKeepsDistinct(expanded);
    AccountsCompare();
    SortSorts(expanded, ByAccount());
  }

  /** Without an undelegating account, or where votes are not stored, the capture is given what the
      block names, in its order. */
  lemma NothingToLookUp(node: Reads, votingStored: bool, named: seq<Target>)
    requires !votingStored || forall i | 0 <= i < |named| :: !named[i].expand
    ensures WithDelegationTargets(node, votingStored, named) == (named, [])
  {
  }

  lemma AccountsCompare()
    ensures Comparator(ByAccount())
  {
  }

  // ---------------------------------------------------------------- what a capture is given

  lemma {:induction false} OfInsert(s: seq<Target>, x: Target, account: int)
    ensures Of(Insert(s, x, ByAccount()), account) == Of(s, account) + if x.account == account then 1 else 0
  {
    if s == [] {
      assert [x][..0] == [];
    } else if ByAccount()(s[|s| - 1], x) {
      assert (s + [x])[..|s|] == s;
    } else {
      OfInsert(s[..|s| - 1], x, account);
      var r := Insert(s[..|s| - 1], x, ByAccount());
      assert (r + [s[|s| - 1]])[..|r|] == r;
    }
  }

  lemma {:induction false} OfSort(s: seq<Target>, account: int)
    ensures Of(Sort(s, ByAccount()), account) == Of(s, account)
  {
    if s != [] {
      OfSort(s[..|s| - 1], account);
      OfInsert(Sort(s[..|s| - 1], ByAccount()), s[|s| - 1], account);
    }
  }

  lemma {:induction false} OfDistinct(s: seq<Target>, account: int)
    requires DistinctAccounts(s)
    ensures Of(s, account) <= 1 && (Of(s, account) == 1 ==> Find(s, account) < |s|)
  {
    if s != [] {
      var front := s[..|s| - 1];
      OfDistinct(front, account);
      if Find(front, account) < |front| { assert s[Find(front, account)].account == account; }
    }
  }

  lemma {:induction false} OfAt(s: seq<Target>, i: nat, j: nat)
    requires i <= j < |s| && s[i].account == s[j].account
    ensures Of(s, s[i].account) >= if i < j then 2 else 1
  {
    var n := |s| - 1;
    if j < n {
      OfAt(s[..n], i, j);
    } else if i < j {
      OfAt(s[..n], i, i);
    }
  }

  lemma SortKeepsDistinct(s: seq<Target>)
    requires DistinctAccounts(s)
    ensures DistinctAccounts(Sort(s, ByAccount()))
  {
    var r := Sort(s, ByAccount());
    forall i, j | 0 <= i < j < |r| ensures r[i].account != r[j].account {
      OfSort(s, r[i].account);
      OfDistinct(s, r[i].account);
      if r[i].account == r[j].account { OfAt(r, i, j); }
    }
  }

  ghost predicate NamedBelow(named: seq<Target>, n: nat, account: int)
    requires n <= |named|
  {
    exists i :: 0 <= i < n && named[i].account == account
  }

  ghost predicate EachAccountOnce(accounts: seq<int>) { forall i, j | 0 <= i < j < |accounts| :: accounts[i] != accounts[j] }

  lemma {:induction false} UnresolvedOnce(node: Reads, named: seq<Target>, n: nat)
    requires n <= |named| && DistinctAccounts(named)
    ensures EachAccountOnce(Expand(node, named, n).1)
    ensures forall a | a in Expand(node, named, n).1 :: NamedBelow(named, n, a)
  {
    if n > 0 {
      UnresolvedOnce(node, named, n - 1);
      var u := Expand(node, named, n - 1).1;
      forall a | a in u ensures a != named[n - 1].account && NamedBelow(named, n, a) {
        assert NamedBelow(named, n - 1, a);
      }
      assert NamedBelow(named, n, named[n - 1].account);
    }
  }

  lemma ExpansionIsDistinct(node: Reads, votingStored: bool, named: seq<Target>)
    requires DistinctAccounts(named)
    ensures DistinctAccounts(WithDelegationTargets(node, votingStored, named).0)
    ensures EachAccountOnce(WithDelegationTargets(node, votingStored, named).1)
  {
    if AnyExpands(named) && votingStored {
      ExpandKeeps(node, named, |named|, 0, VOTING);
      SortKeepsDistinct(Expand(node, named, |named|).0);
      UnresolvedOnce(node, named, |named|);
    }
  }

  /** The accounts a block names, each once, make such a capture, whatever the lookups answer and
      however the workers interleave. */
  lemma NamedAccountsMakeACapture(node: Reads, named: seq<Target>, kinds: seq<nat>, schedule: seq<nat>, targets: seq<Target>, unresolved: seq<int>, n: nat)
    requires DistinctAccounts(named) && forall i, j | 0 <= i < j < |kinds| :: kinds[i] != kinds[j]
    requires (targets, unresolved) == WithDelegationTargets(node, VOTING in kinds, named)
    requires n == |Relevant(targets, VOTING, unresolved)|
    requires (forall i | 0 <= i < |schedule| :: schedule[i] < Width(n, 8)) && AllFinished(After(n, 8, schedule))
    ensures IsCapture(kinds, targets, unresolved, After(n, 8, schedule).done)
  {
    EveryScheduleFinishes(targets, unresolved, schedule);
    ExpansionIsDistinct(node, VOTING in kinds, named);
    assert EachAccountOnce(unresolved);
  }
}
