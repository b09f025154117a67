/**
  Concurrent copy-on-write updates of one shared cell.

  An update loads the stored value, computes a new one from it, and swaps the new one in
  if the cell still holds what was loaded; otherwise it starts over with the value found.
  Values are compared by identity. Every stored value carries a fresh version number,
  because the value an update holds stays alive and its identity is never reused.
 */
module Rcu {
  import opened Tallies

  /** Where one update is. Versions are those of the value it last loaded. */
  datatype Phase<+V> =
    | Loaded(version: nat, seen: V)
    | Computed(version: nat, built: V)
    | Done(position: nat)

  /** One call of `rcu`. `started` is the number of commits before its first load. */
  datatype Update<+V, +O> = Update(op: O, started: nat, phase: Phase<V>)

  datatype Commit<+V, +O> = Applied(update: nat, op: O) | Stored(value: V)

  /** The cell, the updates by order of invocation, and history: the commits in order and
      the number of failed swaps. */
  datatype Cell<+V, +O> = Cell(
    value: V,
    version: nat,
    updates: seq<Update<V, O>>,
    log: seq<Commit<V, O>>,
    failures: nat)

  datatype Event<+V, +O> =
    | Begin(op: O)
    | Compute(update: nat)
    | Swap(update: nat)
    | Store(value: V)

  function Fresh<V, O>(value: V): Cell<V, O> {
    Cell(value, 0, [], [], 0)
  }

  predicate Enabled<V, O>(c: Cell<V, O>, e: Event<V, O>) {
    match e
    case Begin(_) => true
    case Compute(i) => i < |c.updates| && c.updates[i].phase.Loaded?
    case Swap(i) => i < |c.updates| && c.updates[i].phase.Computed?
    case Store(_) => true
  }

  /** The swap of update `i` would succeed. */
  predicate Commits<V, O>(c: Cell<V, O>, i: nat) {
    Enabled(c, Swap(i)) && c.updates[i].phase.version == c.version
  }

  /** One atomic step of one caller. An event that is not enabled changes nothing. */
  function Step<V, O>(apply: (V, O) -> V, c: Cell<V, O>, e: Event<V, O>): Cell<V, O> {
    if !Enabled(c, e) then c else
    match e
    case Begin(op) =>
      c.(updates := c.updates + [Update(op, |c.log|, Loaded(c.version, c.value))])
    case Compute(i) =>
      var u := c.updates[i];
      c.(updates := c.updates[i := u.(phase := Computed(u.phase.version, apply(u.phase.seen, u.op)))])
    case Swap(i) =>
      var u := c.updates[i];
      if Commits(c, i) then
        c.(value := u.phase.built,
           version := c.version + 1,
           updates := c.updates[i := u.(phase := Done(|c.log|))],
           log := c.log + [Applied(i, u.op)])
      else
        c.(updates := c.updates[i := u.(phase := Loaded(c.version, c.value))],
           failures := c.failures + 1)
    case Store(v) =>
      c.(value := v, version := c.version + 1, log := c.log + [Stored(v)])
  }

  /** The cell after a schedule. */
  function Run<V, O>(apply: (V, O) -> V, c: Cell<V, O>, events: seq<Event<V, O>>): Cell<V, O> {
    if |events| == 0 then c
    else Step(apply, Run(apply, c, events[..|events| - 1]), events[|events| - 1])
  }

  /** The first `n` commits applied one after the other. */
  function ReplayUpTo<V, O>(apply: (V, O) -> V, initial: V, log: seq<Commit<V, O>>, n: nat): V
    requires n <= |log|
  {
    if n == 0 then initial
    else
      match log[n - 1]
      case Applied(_, op) => apply(ReplayUpTo(apply, initial, log, n - 1), op)
      case Stored(v) => v
  }

  function Replay<V, O>(apply: (V, O) -> V, initial: V, log: seq<Commit<V, O>>): V {
    ReplayUpTo(apply, initial, log, |log|)
  }

  lemma {:induction false} ReplayExtends<V, O>(
    apply: (V, O) -> V, initial: V, log: seq<Commit<V, O>>, more: Commit<V, O>, n: nat)
    requires n <= |log|
    ensures ReplayUpTo(apply, initial, log + [more], n) == ReplayUpTo(apply, initial, log, n)
  {
    if n > 0 {
      ReplayExtends(apply, initial, log, more, n - 1);
    }
  }

  // ---------- What was asked for ----------

  function IsStored<V, O>(): Commit<V, O> -> bool {
    (c: Commit<V, O>) => c.Stored?
  }

  /** The unconditional stores among the commits. */
  ghost function Stores<V, O>(log: seq<Commit<V, O>>): (n: nat)
    ensures n <= |log|
  {
    Tally(log, IsStored())
  }

  /** The operations of the updates that a schedule begins, in order. */
  ghost function Begun<V, O>(events: seq<Event<V, O>>): seq<O> {
    if |events| == 0 then []
    else
      var n := |events| - 1;
      Begun(events[..n]) + (if events[n].Begin? then [events[n].op] else [])
  }

  ghost function IsStoreEvent<V, O>(): Event<V, O> -> bool {
    (e: Event<V, O>) => e.Store?
  }

  /** Each update carries the operation that its caller began it with, and each store of the
      schedule is one commit. */
  lemma {:induction false} UpdatesAreBegun<V, O>(apply: (V, O) -> V, initial: V, events: seq<Event<V, O>>)
    ensures
      var c := Run(apply, Fresh(initial), events);
      && |c.updates| == |Begun(events)|
      && (forall i :: 0 <= i < |c.updates| ==> c.updates[i].op == Begun(events)[i])
      && Stores(c.log) == Tally(events, IsStoreEvent())
  {
    if |events| > 0 {
      var n := |events| - 1;
      UpdatesAreBegun(apply, initial, events[..n]);
      var c, d := Run(apply, Fresh(initial), events[..n]), Run(apply, Fresh(initial), events);
      if |d.log| > |c.log| {
        Append(c.log, d.log[|c.log|], IsStored());
      }
    }
  }

  // ---------- Linearizability ----------

  /** An update has computed from the value at its version, or has committed once. */
  ghost predicate UpdateOk<V, O>(apply: (V, O) -> V, initial: V, log: seq<Commit<V, O>>, i: nat, u: Update<V, O>) {
    match u.phase
    case Loaded(v, seen) => u.started <= v <= |log| && seen == ReplayUpTo(apply, initial, log, v)
    case Computed(v, built) => u.started <= v <= |log| && built == apply(ReplayUpTo(apply, initial, log, v), u.op)
    case Done(p) => u.started <= p < |log| && log[p] == Applied(i, u.op)
  }

  /** Every commit of an update is the one that the update records. */
  ghost predicate CommitOk<V, O>(c: Cell<V, O>, p: nat)
    requires p < |c.log|
  {
    c.log[p].Applied? ==>
      c.log[p].update < |c.updates| && c.updates[c.log[p].update].phase == Done(p)
  }

  ghost predicate Linearized<V, O>(apply: (V, O) -> V, initial: V, c: Cell<V, O>) {
    && c.version == |c.log|
    && c.value == Replay(apply, initial, c.log)
    && (forall i :: 0 <= i < |c.updates| ==> UpdateOk(apply, initial, c.log, i, c.updates[i]))
    && (forall p :: 0 <= p < |c.log| ==> CommitOk(c, p))
  }

  lemma StepLinearized<V, O>(apply: (V, O) -> V, initial: V, c: Cell<V, O>, e: Event<V, O>)
    requires Linearized(apply, initial, c)
    ensures Linearized(apply, initial, Step(apply, c, e))
  {
    var d := Step(apply, c, e);
    if |d.log| > |c.log| {
      var more := d.log[|c.log|];
      assert d.log == c.log + [more];
      forall n | 0 <= n <= |c.log|
        ensures ReplayUpTo(apply, initial, d.log, n) == ReplayUpTo(apply, initial, c.log, n)
      {
        ReplayExtends(apply, initial, c.log, more, n);
      }
    }
    forall i | 0 <= i < |d.updates| ensures UpdateOk(apply, initial, d.log, i, d.updates[i]) {
      assert i < |c.updates| ==> UpdateOk(apply, initial, c.log, i, c.updates[i]);
    }
    forall p | 0 <= p < |d.log| ensures CommitOk(d, p) {
      assert p < |c.log| ==> CommitOk(c, p);
    }
  }

  /** In every interleaving the cell holds what the commits give when each is applied
      once, in commit order; every finished update is in that order at its one position,
      no earlier than its invocation, and every commit is a finished update or a store. */
  lemma {:induction false} Linearizable<V, O>(apply: (V, O) -> V, initial: V, events: seq<Event<V, O>>)
    ensures Linearized(apply, initial, Run(apply, Fresh(initial), events))
  {
    if |events| > 0 {
      Linearizable(apply, initial, events[..|events| - 1]);
      StepLinearized(apply, initial, Run(apply, Fresh(initial), events[..|events| - 1]), events[|events| - 1]);
    }
  }

  /** `d` continues `c`: history is only added to, and finished updates stay finished. */
  ghost predicate Continues<V, O>(c: Cell<V, O>, d: Cell<V, O>) {
    && c.log <= d.log
    && |c.updates| <= |d.updates|
    && forall i :: 0 <= i < |c.updates| ==>
         && c.updates[i].op == d.updates[i].op
         && c.updates[i].started == d.updates[i].started
         && (c.updates[i].phase.Done? ==> d.updates[i] == c.updates[i])
  }

  lemma {:induction false} RunContinues<V, O>(apply: (V, O) -> V, c: Cell<V, O>, events: seq<Event<V, O>>)
    ensures Continues(c, Run(apply, c, events))
  {
    if |events| > 0 {
      RunContinues(apply, c, events[..|events| - 1]);
    }
  }

  lemma RunSnoc<V, O>(apply: (V, O) -> V, c: Cell<V, O>, events: seq<Event<V, O>>, e: Event<V, O>)
    ensures Run(apply, c, events + [e]) == Step(apply, Run(apply, c, events), e)
  {
    assert (events + [e])[..|events + [e]| - 1] == events;
  }

  lemma {:induction false} RunAppend<V, O>(
    apply: (V, O) -> V, c: Cell<V, O>, first: seq<Event<V, O>>, second: seq<Event<V, O>>)
    ensures Run(apply, c, first + second) == Run(apply, Run(apply, c, first), second)
  {
    if |second| == 0 {
      assert first + second == first;
    } else {
      var n := |second| - 1;
      RunAppend(apply, c, first, second[..n]);
      assert (first + second)[..|first + second| - 1] == first + second[..n];
    }
  }

  /** Commit order respects real time: an update that is finished when another begins
      comes before it. */
  lemma RealTimeOrder<V, O>(
    apply: (V, O) -> V, initial: V, before: seq<Event<V, O>>, op: O, after: seq<Event<V, O>>, i: nat)
    requires i < |Run(apply, Fresh(initial), before).updates|
    requires Run(apply, Fresh(initial), before).updates[i].phase.Done?
    ensures
      var c := Run(apply, Fresh(initial), before);
      var d := Run(apply, Fresh(initial), before + [Begin(op)] + after);
      var j := |c.updates|;
      && j < |d.updates| && d.updates[j].op == op
      && d.updates[i] == c.updates[i]
      && (d.updates[j].phase.Done? ==> d.updates[i].phase.position < d.updates[j].phase.position)
  {
    var c := Run(apply, Fresh(initial), before);
    var b := Step(apply, c, Begin(op));
    RunSnoc(apply, Fresh(initial), before, Begin(op));
    RunAppend(apply, Fresh(initial), before + [Begin(op)], after);
    RunContinues(apply, b, after);
    Linearizable(apply, initial, before);
    Linearizable(apply, initial, before + [Begin(op)] + after);
    var d := Run(apply, Fresh(initial), before + [Begin(op)] + after);
    assert UpdateOk(apply, initial, c.log, i, c.updates[i]);
    assert UpdateOk(apply, initial, d.log, |c.updates|, d.updates[|c.updates|]);
  }

  // ---------- How often a swap can fail ----------

  /** The versions that the unfinished updates have caught up with, added up. */
  function Caught<V, O>(updates: seq<Update<V, O>>): nat {
    if |updates| == 0 then 0
    else
      var u := updates[|updates| - 1];
      Caught(updates[..|updates| - 1]) + (if u.phase.Done? then 0 else u.phase.version)
  }

  function IsUnfinished<V, O>(): Update<V, O> -> bool {
    (u: Update<V, O>) => !u.phase.Done?
  }

  ghost function Unfinished<V, O>(updates: seq<Update<V, O>>): nat {
    Tally(updates, IsUnfinished())
  }

  function Reached<V>(p: Phase<V>): nat {
    if p.Done? then 0 else p.version
  }

  /** The steps an update has taken other than failed attempts. */
  function Progress<V>(p: Phase<V>): nat {
    match p
    case Loaded(_, _) => 1
    case Computed(_, _) => 2
    case Done(_) => 3
  }

  function TotalProgress<V, O>(updates: seq<Update<V, O>>): nat {
    if |updates| == 0 then 0
    else TotalProgress(updates[..|updates| - 1]) + Progress(updates[|updates| - 1].phase)
  }

  lemma {:induction false} ChangeOne<V, O>(updates: seq<Update<V, O>>, i: nat, u: Update<V, O>)
    requires i < |updates|
    ensures Caught(updates[i := u]) == Caught(updates) - Reached(updates[i].phase) + Reached(u.phase)
    ensures TotalProgress(updates[i := u]) == TotalProgress(updates) - Progress(updates[i].phase) + Progress(u.phase)
  {
    var n := |updates| - 1;
    if i < n {
      ChangeOne(updates[..n], i, u);
      assert updates[i := u][..n] == updates[..n][i := u];
    } else {
      assert updates[i := u][..n] == updates[..n];
    }
  }

  lemma AddOne<V, O>(updates: seq<Update<V, O>>, u: Update<V, O>)
    ensures Caught(updates + [u]) == Caught(updates) + Reached(u.phase)
    ensures TotalProgress(updates + [u]) == TotalProgress(updates) + Progress(u.phase)
  {
    assert (updates + [u])[..|updates + [u]| - 1] == updates;
  }

  /** The failures that `k` committed updates and `s` stores can have caused: a committed
      update failed at most once for each commit before its own and for each store. */
  function Budget(k: nat, s: nat): nat {
    if k == 0 then 0 else Budget(k - 1, s) + (k - 1) + s
  }

  lemma {:induction false} OneMoreStore(k: nat, s: nat)
    ensures Budget(k, s + 1) == Budget(k, s) + k
  {
    if k > 0 {
      OneMoreStore(k - 1, s);
    }
  }

  lemma {:induction false} BudgetFormula(k: nat, s: nat)
    ensures 2 * Budget(k, s) == k * (k - 1) + 2 * (k * s)
  {
    if k > 0 {
      BudgetFormula(k - 1, s);
      assert k * (k - 1) == (k - 1) * (k - 2) + 2 * (k - 1) && k * s == (k - 1) * s + s;
    }
  }

  /** With `k` updates committed and `s` stores, the failures are paid for by the pairs of
      commits, by the stores, and by the versions unfinished updates have caught up with. */
  ghost predicate Paid<V, O>(c: Cell<V, O>) {
    var s := Stores(c.log);
    var k := |c.log| - s;
    && k + Unfinished(c.updates) == |c.updates|
    && c.failures <= Budget(k, s) + Caught(c.updates)
  }

  ghost predicate NoneAhead<V, O>(c: Cell<V, O>) {
    forall i :: 0 <= i < |c.updates| && !c.updates[i].phase.Done? ==> c.updates[i].phase.version <= c.version
  }

  lemma LinearizedNoneAhead<V, O>(apply: (V, O) -> V, initial: V, c: Cell<V, O>)
    requires Linearized(apply, initial, c)
    ensures NoneAhead(c)
  {
    forall i | 0 <= i < |c.updates| && !c.updates[i].phase.Done?
      ensures c.updates[i].phase.version <= c.version
    {
      assert UpdateOk(apply, initial, c.log, i, c.updates[i]);
    }
  }

  lemma CommitPaid<V, O>(apply: (V, O) -> V, c: Cell<V, O>, i: nat)
    requires Paid(c) && c.version == |c.log| && Commits(c, i)
    ensures Paid(Step(apply, c, Swap(i)))
  {
    var d := Step(apply, c, Swap(i));
    var s := Stores(c.log);
    ChangeOne(c.updates, i, d.updates[i]);
    Change(c.updates, i, d.updates[i], IsUnfinished());
    Append(c.log, Applied(i, c.updates[i].op), IsStored());
    assert Budget(|c.log| - s + 1, s) == Budget(|c.log| - s, s) + |c.log|;
    assert Stores(d.log) == s;
  }

  lemma FailurePaid<V, O>(apply: (V, O) -> V, c: Cell<V, O>, i: nat)
    requires Paid(c) && NoneAhead(c) && Enabled(c, Swap(i)) && !Commits(c, i)
    ensures Paid(Step(apply, c, Swap(i)))
  {
    var d := Step(apply, c, Swap(i));
    ChangeOne(c.updates, i, d.updates[i]);
    Change(c.updates, i, d.updates[i], IsUnfinished());
    assert d.log == c.log;
  }

  lemma StorePaid<V, O>(apply: (V, O) -> V, c: Cell<V, O>, v: V)
    requires Paid(c)
    ensures Paid(Step(apply, c, Store(v)))
  {
    var s := Stores(c.log);
    Append(c.log, Stored(v), IsStored());
    OneMoreStore(|c.log| - s, s);
    assert Stores(Step(apply, c, Store(v)).log) == s + 1;
  }

  lemma BeginPaid<V, O>(apply: (V, O) -> V, c: Cell<V, O>, op: O)
    requires Paid(c)
    ensures Paid(Step(apply, c, Begin(op)))
  {
    var u := Update(op, |c.log|, Loaded(c.version, c.value));
    AddOne(c.updates, u);
    Append(c.updates, u, IsUnfinished());
  }

  lemma ComputePaid<V, O>(apply: (V, O) -> V, c: Cell<V, O>, i: nat)
    requires Paid(c) && Enabled(c, Compute(i))
    ensures Paid(Step(apply, c, Compute(i)))
  {
    var d := Step(apply, c, Compute(i));
    ChangeOne(c.updates, i, d.updates[i]);
    Change(c.updates, i, d.updates[i], IsUnfinished());
  }

  lemma StepPaid<V, O>(apply: (V, O) -> V, c: Cell<V, O>, e: Event<V, O>)
    requires Paid(c) && NoneAhead(c) && c.version == |c.log|
    ensures Paid(Step(apply, c, e))
  {
    if Enabled(c, e) {
      match e {
        case Begin(op) => BeginPaid(apply, c, op);
        case Compute(i) => ComputePaid(apply, c, i);
        case Swap(i) =>
          if Commits(c, i) {
            CommitPaid(apply, c, i);
          } else {
            FailurePaid(apply, c, i);
          }
        case Store(v) => StorePaid(apply, c, v);
      }
    }
  }

  lemma {:induction false} CaughtAtMost<V, O>(updates: seq<Update<V, O>>, version: nat)
    requires forall i :: 0 <= i < |updates| && !updates[i].phase.Done? ==> updates[i].phase.version <= version
    ensures Caught(updates) <= Unfinished(updates) * version
  {
    if |updates| > 0 {
      var n := |updates| - 1;
      CaughtAtMost(updates[..n], version);
      assert (Unfinished(updates[..n]) + 1) * version == Unfinished(updates[..n]) * version + version;
    }
  }

  lemma {:induction false} BudgetCovers(k: nat, s: nat, u: nat, version: nat)
    requires version == k + s
    ensures Budget(k, s) + u * version <= Budget(k + u, s)
  {
    if u > 0 {
      BudgetCovers(k, s, u - 1, version);
      assert u * version == (u - 1) * version + version;
    }
  }

  lemma {:induction false} AlwaysPaid<V, O>(apply: (V, O) -> V, initial: V, events: seq<Event<V, O>>)
    ensures Paid(Run(apply, Fresh(initial), events))
  {
    if |events| > 0 {
      var n := |events| - 1;
      AlwaysPaid(apply, initial, events[..n]);
      Linearizable(apply, initial, events[..n]);
      LinearizedNoneAhead(apply, initial, Run(apply, Fresh(initial), events[..n]));
      StepPaid(apply, Run(apply, Fresh(initial), events[..n]), events[n]);
    }
  }

  lemma PaidWithinBudget<V, O>(c: Cell<V, O>)
    requires Paid(c) && NoneAhead(c) && c.version == |c.log|
    ensures c.failures <= Budget(|c.updates|, Stores(c.log))
  {
    CaughtAtMost(c.updates, c.version);
    BudgetCovers(|c.log| - Stores(c.log), Stores(c.log), Unfinished(c.updates), c.version);
  }

  lemma FailuresWithinBudget<V, O>(apply: (V, O) -> V, initial: V, events: seq<Event<V, O>>)
    ensures
      var c := Run(apply, Fresh(initial), events);
      c.failures <= Budget(|c.updates|, Stores(c.log))
  {
    AlwaysPaid(apply, initial, events);
    Linearizable(apply, initial, events);
    var c := Run(apply, Fresh(initial), events);
    LinearizedNoneAhead(apply, initial, c);
    PaidWithinBudget(c);
  }

  /** In any interleaving of `n` updates and `s` stores at most `n(n-1)/2 + n*s` swaps fail. */
  lemma RetryBound<V, O>(apply: (V, O) -> V, initial: V, events: seq<Event<V, O>>)
    ensures
      var c := Run(apply, Fresh(initial), events);
      var n, s := |c.updates|, Stores(c.log);
      2 * c.failures <= n * (n - 1) + 2 * (n * s)
  {
    var c := Run(apply, Fresh(initial), events);
    FailuresWithinBudget(apply, initial, events);
    BudgetFormula(|c.updates|, Stores(c.log));
  }

  // ---------- Termination ----------

  /** How many events of a schedule were steps. */
  function Steps<V, O>(apply: (V, O) -> V, c: Cell<V, O>, events: seq<Event<V, O>>): nat {
    if |events| == 0 then 0
    else
      var n := |events| - 1;
      Steps(apply, c, events[..n]) + (if Enabled(Run(apply, c, events[..n]), events[n]) then 1 else 0)
  }

  /** The steps that have led to `c`. */
  ghost function Work<V, O>(c: Cell<V, O>): nat {
    Stores(c.log) + TotalProgress(c.updates) + 2 * c.failures
  }

  lemma StepWorks<V, O>(apply: (V, O) -> V, c: Cell<V, O>, e: Event<V, O>)
    ensures Work(Step(apply, c, e)) == Work(c) + (if Enabled(c, e) then 1 else 0)
  {
    if Enabled(c, e) {
      var d := Step(apply, c, e);
      match e {
        case Begin(op) => AddOne(c.updates, d.updates[|c.updates|]);
        case Compute(i) => ChangeOne(c.updates, i, d.updates[i]);
        case Swap(i) =>
          ChangeOne(c.updates, i, d.updates[i]);
          Append(c.log, Applied(i, c.updates[i].op), IsStored());
        case Store(v) => Append(c.log, Stored(v), IsStored());
      }
    }
  }

  lemma {:induction false} StepsAccounted<V, O>(apply: (V, O) -> V, initial: V, events: seq<Event<V, O>>)
    ensures Steps(apply, Fresh(initial), events) == Work(Run(apply, Fresh(initial), events))
  {
    if |events| > 0 {
      var n := |events| - 1;
      StepsAccounted(apply, initial, events[..n]);
      StepWorks(apply, Run(apply, Fresh(initial), events[..n]), events[n]);
    }
  }

  lemma {:induction false} ProgressAtMost<V, O>(updates: seq<Update<V, O>>)
    ensures TotalProgress(updates) <= 3 * |updates|
  {
    if |updates| > 0 {
      ProgressAtMost(updates[..|updates| - 1]);
    }
  }

  /** Every retry loop ends: a run of `n` updates and `s` stores takes at most
      `s + n * (n + 2) + 2 * n * s` steps, and until every update is finished some update
      has a step to take. */
  lemma EveryUpdateFinishes<V, O>(apply: (V, O) -> V, initial: V, events: seq<Event<V, O>>)
    ensures
      var c := Run(apply, Fresh(initial), events);
      var n, s := |c.updates|, Stores(c.log);
      && Steps(apply, Fresh(initial), events) <= s + n * (n + 2) + 2 * (n * s)
      && ((forall i :: !Enabled(c, Compute(i)) && !Enabled(c, Swap(i))) ==>
            forall i :: 0 <= i < n ==> c.updates[i].phase.Done?)
  {
    var c := Run(apply, Fresh(initial), events);
    StepsAccounted(apply, initial, events);
    ProgressAtMost(c.updates);
    RetryBound(apply, initial, events);
    var n := |c.updates|;
    assert n * (n + 2) == n * (n - 1) + 3 * n;
    if forall i :: !Enabled(c, Compute(i)) && !Enabled(c, Swap(i)) {
      forall i | 0 <= i < n ensures c.updates[i].phase.Done? {
        assert !Enabled(c, Compute(i)) && !Enabled(c, Swap(i));
      }
    }
  }
}
