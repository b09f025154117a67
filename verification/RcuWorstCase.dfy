/** The bound on failed swaps is exact: a schedule that attains it, for any number of
    updates and stores. */
module RcuWorstCase {
  import opened Rcu
  import opened Tallies

  /** Updates `low` to `high` hold a computed value, current or out of date. */
  ghost predicate Waiting<V, O>(c: Cell<V, O>, low: nat, high: nat, current: bool) {
    high <= |c.updates| &&
    forall i :: low <= i < high ==>
      && c.updates[i].phase.Computed?
      && (if current then c.updates[i].phase.version == c.version else c.updates[i].phase.version < c.version)
  }

  ghost function Begins<V, O>(op: O, n: nat): seq<Event<V, O>> {
    if n == 0 then [] else Begins(op, n - 1) + [Begin(op)] + [Compute(n - 1)]
  }

  /** Updates `low` to `high` try, fail, and compute again. */
  ghost function Retries<V, O>(low: nat, high: nat): seq<Event<V, O>>
    requires low <= high
  {
    if low == high then [] else Retries(low, high - 1) + [Swap(high - 1)] + [Compute(high - 1)]
  }

  ghost function StoreRounds<V, O>(value: V, n: nat, s: nat): seq<Event<V, O>> {
    if s == 0 then [] else StoreRounds(value, n, s - 1) + [Store(value)] + Retries(0, n)
  }

  ghost function CommitRounds<V, O>(n: nat, k: nat): seq<Event<V, O>>
    requires k <= n
  {
    if k == 0 then [] else CommitRounds(n, k - 1) + [Swap(k - 1)] + Retries(k, n)
  }

  lemma {:induction false} AfterBegins<V, O>(apply: (V, O) -> V, initial: V, op: O, n: nat)
    ensures var c := Run(apply, Fresh(initial), Begins(op, n));
            |c.updates| == n && c.log == [] && c.version == 0 && c.failures == 0 && Waiting(c, 0, n, true)
  {
    if n > 0 {
      AfterBegins(apply, initial, op, n - 1);
      RunSnoc(apply, Fresh(initial), Begins(op, n - 1), Begin(op));
      RunSnoc(apply, Fresh(initial), Begins(op, n - 1) + [Begin(op)], Compute(n - 1));
    }
  }

  /** Updates `low` to `i` have tried again, and `d` is otherwise `c`. */
  ghost predicate Retried<V, O>(c: Cell<V, O>, d: Cell<V, O>, low: nat, i: nat) {
    && low <= i
    && |d.updates| == |c.updates| && d.log == c.log && d.version == c.version
    && d.failures == c.failures + (i - low)
    && Waiting(d, low, i, true) && Waiting(d, i, |d.updates|, false)
  }

  lemma OneMoreRetried<V, O>(apply: (V, O) -> V, c: Cell<V, O>, d: Cell<V, O>, low: nat, i: nat)
    requires Retried(c, d, low, i) && i < |c.updates|
    ensures Retried(c, Step(apply, Step(apply, d, Swap(i)), Compute(i)), low, i + 1)
  {}

  lemma {:induction false} AfterRetries<V, O>(apply: (V, O) -> V, c: Cell<V, O>, low: nat, high: nat)
    requires low <= high && Waiting(c, low, |c.updates|, false) && high <= |c.updates|
    ensures Retried(c, Run(apply, c, Retries(low, high)), low, high)
  {
    if low < high {
      AfterRetries(apply, c, low, high - 1);
      var before := Retries(low, high - 1);
      RunSnoc(apply, c, before, Swap(high - 1));
      RunSnoc(apply, c, before + [Swap(high - 1)], Compute(high - 1));
      OneMoreRetried(apply, c, Run(apply, c, before), low, high - 1);
    }
  }

  lemma StoreRound<V, O>(apply: (V, O) -> V, c: Cell<V, O>, value: V)
    requires Waiting(c, 0, |c.updates|, true)
    ensures var d := Run(apply, Step(apply, c, Store(value)), Retries(0, |c.updates|));
            && |d.updates| == |c.updates| && Waiting(d, 0, |d.updates|, true)
            && Stores(d.log) == Stores(c.log) + 1
            && d.failures == c.failures + |c.updates|
  {
    Append(c.log, Stored(value), IsStored());
    AfterRetries(apply, Step(apply, c, Store(value)), 0, |c.updates|);
  }

  lemma CommitRound<V, O>(apply: (V, O) -> V, c: Cell<V, O>, k: nat)
    requires k < |c.updates| && Waiting(c, k, |c.updates|, true)
    ensures var d := Run(apply, Step(apply, c, Swap(k)), Retries(k + 1, |c.updates|));
            && |d.updates| == |c.updates| && Waiting(d, k + 1, |d.updates|, true)
            && Stores(d.log) == Stores(c.log)
            && d.failures == c.failures + (|c.updates| - k - 1)
  {
    Append(c.log, Applied(k, c.updates[k].op), IsStored());
    AfterRetries(apply, Step(apply, c, Swap(k)), k + 1, |c.updates|);
  }

  lemma Then<V, O>(apply: (V, O) -> V, c: Cell<V, O>, first: seq<Event<V, O>>, e: Event<V, O>, second: seq<Event<V, O>>)
    ensures Run(apply, c, first + [e] + second) == Run(apply, Step(apply, Run(apply, c, first), e), second)
  {
    RunSnoc(apply, c, first, e);
    RunAppend(apply, c, first + [e], second);
  }

  lemma {:induction false} AfterStoreRounds<V, O>(apply: (V, O) -> V, c: Cell<V, O>, value: V, s: nat)
    requires Waiting(c, 0, |c.updates|, true)
    ensures var d := Run(apply, c, StoreRounds(value, |c.updates|, s));
            && |d.updates| == |c.updates| && Waiting(d, 0, |d.updates|, true)
            && Stores(d.log) == Stores(c.log) + s
            && d.failures == c.failures + |c.updates| * s
  {
    if s > 0 {
      AfterStoreRounds(apply, c, value, s - 1);
      var n, before := |c.updates|, StoreRounds(value, |c.updates|, s - 1);
      StoreRound(apply, Run(apply, c, before), value);
      Then(apply, c, before, Store(value), Retries(0, n));
      assert n * s == n * (s - 1) + n;
    }
  }

  /** The failures when each of `k` commits makes all later ones of `n` fail. */
  function Conflicts(n: nat, k: nat): nat
    requires k <= n
  {
    if k == 0 then 0 else Conflicts(n, k - 1) + (n - k)
  }

  lemma {:induction false} ConflictsFormula(n: nat, k: nat)
    requires k <= n
    ensures 2 * Conflicts(n, k) == k * (2 * n - k - 1)
  {
    if k > 0 {
      ConflictsFormula(n, k - 1);
      assert (k - 1) * (2 * n - k) + 2 * (n - k) == k * (2 * n - k - 1);
    }
  }

  /** `d` is `c` after `k` commits, each at the expense of all updates still waiting. */
  ghost predicate Committed<V, O>(c: Cell<V, O>, d: Cell<V, O>, k: nat)
    requires k <= |c.updates|
  {
    && |d.updates| == |c.updates| && Waiting(d, k, |d.updates|, true)
    && Stores(d.log) == Stores(c.log)
    && d.failures == c.failures + Conflicts(|c.updates|, k)
  }

  lemma OneMoreCommitted<V, O>(apply: (V, O) -> V, c: Cell<V, O>, d: Cell<V, O>, k: nat)
    requires k < |c.updates| && Committed(c, d, k)
    ensures Committed(c, Run(apply, Step(apply, d, Swap(k)), Retries(k + 1, |c.updates|)), k + 1)
  {
    CommitRound(apply, d, k);
  }

  lemma RunCommitRounds<V, O>(apply: (V, O) -> V, c: Cell<V, O>, n: nat, k: nat)
    requires k < n
    ensures Run(apply, c, CommitRounds(n, k + 1))
         == Run(apply, Step(apply, Run(apply, c, CommitRounds(n, k)), Swap(k)), Retries(k + 1, n))
  {
    Then(apply, c, CommitRounds(n, k), Swap(k), Retries(k + 1, n));
  }

  lemma {:induction false} AfterCommitRounds<V, O>(apply: (V, O) -> V, c: Cell<V, O>, k: nat)
    requires Waiting(c, 0, |c.updates|, true) && k <= |c.updates|
    ensures Committed(c, Run(apply, c, CommitRounds(|c.updates|, k)), k)
  {
    if k > 0 {
      AfterCommitRounds(apply, c, k - 1);
      OneMoreCommitted(apply, c, Run(apply, c, CommitRounds(|c.updates|, k - 1)), k - 1);
      RunCommitRounds(apply, c, |c.updates|, k - 1);
    }
  }

  /** `n` updates and `s` stores can be scheduled so that `n(n-1)/2 + n*s` swaps fail. */
  lemma RetryBoundAttained<V, O>(apply: (V, O) -> V, initial: V, op: O, value: V, n: nat, s: nat)
    ensures
      var c := Run(apply, Fresh(initial), Begins(op, n) + StoreRounds(value, n, s) + CommitRounds(n, n));
      && |c.updates| == n && Stores(c.log) == s
      && 2 * c.failures == n * (n - 1) + 2 * (n * s)
  {
    AfterBegins(apply, initial, op, n);
    RunAppend(apply, Fresh(initial), Begins(op, n), StoreRounds(value, n, s));
    RunAppend(apply, Fresh(initial), Begins(op, n) + StoreRounds(value, n, s), CommitRounds(n, n));
    var c := Run(apply, Fresh(initial), Begins(op, n));
    AfterStoreRounds(apply, c, value, s);
    AfterCommitRounds(apply, Run(apply, c, StoreRounds(value, n, s)), n);
    ConflictsFormula(n, n);
  }
}
