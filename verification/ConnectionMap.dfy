/**
  The shared map of connection counts under concurrent increments and decrements.
 */
module ConnectionMap {
  import opened BackendSets
  import opened Division
  import opened Selection
  import Rcu

  datatype ConnOp = Open(addr: SocketAddr) | Close(addr: SocketAddr)

  function ApplyOp(m: Connections, op: ConnOp, modulus: Modulus): Connections {
    match op
    case Open(a) => Incremented(m, a, modulus)
    case Close(a) => Decremented(m, a)
  }

  /** The pure part of `increment` and `decrement`, as the update cell takes it. */
  function Updater(modulus: Modulus): (Connections, ConnOp) -> Connections {
    (m, op) => ApplyOp(m, op, modulus)
  }

  function CountsUpTo(ops: seq<ConnOp>, n: nat, modulus: Modulus): Connections
    requires n <= |ops|
  {
    if n == 0 then map[] else ApplyOp(CountsUpTo(ops, n - 1, modulus), ops[n - 1], modulus)
  }

  // ---------- The count is a reflected walk ----------

  /** Opens minus closes of `a` among the first `n` operations. */
  ghost function WalkUpTo(ops: seq<ConnOp>, n: nat, a: SocketAddr): int
    requires n <= |ops|
  {
    if n == 0 then 0
    else WalkUpTo(ops, n - 1, a) + (if ops[n - 1] == Open(a) then 1 else if ops[n - 1] == Close(a) then -1 else 0)
  }

  /** The lowest point of the walk, its start included. */
  ghost function LowestUpTo(ops: seq<ConnOp>, n: nat, a: SocketAddr): int
    requires n <= |ops|
  {
    if n == 0 then 0
    else
      var low := LowestUpTo(ops, n - 1, a);
      if WalkUpTo(ops, n, a) < low then WalkUpTo(ops, n, a) else low
  }

  /** How far the walk stands above its lowest point. */
  ghost function Reflected(ops: seq<ConnOp>, n: nat, a: SocketAddr): int
    requires n <= |ops|
  {
    WalkUpTo(ops, n, a) - LowestUpTo(ops, n, a)
  }

  /** The count of `a` never reaches the modulus, where an increment would wrap it. */
  ghost predicate NeverFull(ops: seq<ConnOp>, n: nat, a: SocketAddr, modulus: Modulus)
    requires n <= |ops|
  {
    forall k :: 0 <= k <= n ==> Reflected(ops, k, a) < modulus
  }

  lemma {:induction false} CountsBelowModulus(ops: seq<ConnOp>, n: nat, a: SocketAddr, modulus: Modulus)
    requires n <= |ops|
    ensures Count(CountsUpTo(ops, n, modulus), a) < modulus
    ensures a in CountsUpTo(ops, n, modulus) <==> Open(a) in ops[..n]
  {
    if n > 0 {
      CountsBelowModulus(ops, n - 1, a, modulus);
      assert ops[..n] == ops[..n - 1] + [ops[n - 1]];
    }
  }

  lemma {:induction false} CountIsReflected(ops: seq<ConnOp>, n: nat, a: SocketAddr, modulus: Modulus)
    requires n <= |ops|
    requires NeverFull(ops, n, a, modulus)
    ensures Count(CountsUpTo(ops, n, modulus), a) == Reflected(ops, n, a)
  {
    if n > 0 {
      CountIsReflected(ops, n - 1, a, modulus);
      var before := Reflected(ops, n - 1, a);
      assert Reflected(ops, n, a) < modulus;
      if ops[n - 1] == Open(a) {
        SmallMod(before + 1, modulus);
      }
    }
  }

  /** From an empty map, the count of an address is its walk of opens and closes reflected
      at its lowest point, as long as, and only as long as, that never reaches the modulus. */
  lemma CountIsReflectedWalkIff(ops: seq<ConnOp>, a: SocketAddr, modulus: Modulus)
    ensures (forall k :: 0 <= k <= |ops| ==> Count(CountsUpTo(ops, k, modulus), a) == Reflected(ops, k, a))
       <==> NeverFull(ops, |ops|, a, modulus)
  {
    if NeverFull(ops, |ops|, a, modulus) {
      forall k | 0 <= k <= |ops|
        ensures Count(CountsUpTo(ops, k, modulus), a) == Reflected(ops, k, a)
      {
        CountIsReflected(ops, k, a, modulus);
      }
    } else {
      var k :| 0 <= k <= |ops| && Reflected(ops, k, a) >= modulus;
      CountsBelowModulus(ops, k, a, modulus);
    }
  }

  /** While nothing closes `a`, its count is the number of opens modulo the modulus, past any
      number of wraps. */
  lemma {:induction false} OpensWrap(ops: seq<ConnOp>, n: nat, a: SocketAddr, modulus: Modulus)
    requires n <= |ops| && Close(a) !in ops[..n]
    ensures WalkUpTo(ops, n, a) >= 0
    ensures Count(CountsUpTo(ops, n, modulus), a) == WalkUpTo(ops, n, a) % modulus
  {
    if n > 0 {
      assert ops[..n] == ops[..n - 1] + [ops[n - 1]];
      OpensWrap(ops, n - 1, a, modulus);
      SumMod(WalkUpTo(ops, n - 1, a), 1, modulus);
    } else {
      SmallMod(0, modulus);
    }
  }

  ghost predicate NeverBelowZero(ops: seq<ConnOp>, n: nat, a: SocketAddr)
    requires n <= |ops|
  {
    forall k :: 0 <= k <= n ==> WalkUpTo(ops, k, a) >= 0
  }

  /** No close of `a` finds its count at zero, where it would be dropped. */
  ghost predicate NoCloseDropped(ops: seq<ConnOp>, n: nat, a: SocketAddr, modulus: Modulus)
    requires n <= |ops|
  {
    forall k :: 0 <= k < n && ops[k] == Close(a) ==> Count(CountsUpTo(ops, k, modulus), a) > 0
  }

  lemma {:induction false} LowestIsZero(ops: seq<ConnOp>, n: nat, a: SocketAddr)
    requires n <= |ops| && NeverBelowZero(ops, n, a)
    ensures LowestUpTo(ops, n, a) == 0
  {
    if n > 0 {
      LowestIsZero(ops, n - 1, a);
    }
  }

  lemma {:induction false} GuardIdleUpTo(ops: seq<ConnOp>, n: nat, a: SocketAddr, modulus: Modulus)
    requires n <= |ops| && NeverFull(ops, n, a, modulus)
    ensures NoCloseDropped(ops, n, a, modulus) <==> NeverBelowZero(ops, n, a)
  {
    if n > 0 {
      GuardIdleUpTo(ops, n - 1, a, modulus);
      CountIsReflected(ops, n - 1, a, modulus);
      assert NeverBelowZero(ops, n, a) <==> NeverBelowZero(ops, n - 1, a) && WalkUpTo(ops, n, a) >= 0;
      assert NoCloseDropped(ops, n, a, modulus) <==>
        NoCloseDropped(ops, n - 1, a, modulus)
        && (ops[n - 1] == Close(a) ==> Count(CountsUpTo(ops, n - 1, modulus), a) > 0);
      if NeverBelowZero(ops, n - 1, a) {
        LowestIsZero(ops, n - 1, a);
      }
    }
  }

  /** The `> 0` guard of `decrement` is idle exactly on the sequences in which no prefix
      closes an address more often than it opens it, and then the count is the number of
      open connections. */
  lemma GuardIdleIff(ops: seq<ConnOp>, a: SocketAddr, modulus: Modulus)
    requires NeverFull(ops, |ops|, a, modulus)
    ensures NoCloseDropped(ops, |ops|, a, modulus) <==> NeverBelowZero(ops, |ops|, a)
    ensures NeverBelowZero(ops, |ops|, a) ==>
              Count(CountsUpTo(ops, |ops|, modulus), a) == WalkUpTo(ops, |ops|, a)
  {
    GuardIdleUpTo(ops, |ops|, a, modulus);
    if NeverBelowZero(ops, |ops|, a) {
      LowestIsZero(ops, |ops|, a);
      CountIsReflected(ops, |ops|, a, modulus);
    }
  }

  // ---------- Under concurrency ----------

  type MapCell = Rcu.Cell<Connections, ConnOp>
  type MapEvent = Rcu.Event<Connections, ConnOp>

  /** Nothing stores into the map other than increments and decrements. */
  ghost predicate UpdatesOnly(events: seq<MapEvent>) {
    forall i :: 0 <= i < |events| ==> !events[i].Store?
  }

  ghost predicate AppliedOnly(log: seq<Rcu.Commit<Connections, ConnOp>>) {
    forall i :: 0 <= i < |log| ==> log[i].Applied?
  }

  ghost function Ops(log: seq<Rcu.Commit<Connections, ConnOp>>): seq<ConnOp>
    requires AppliedOnly(log)
  {
    seq(|log|, i requires 0 <= i < |log| => log[i].op)
  }

  lemma StepAppliedOnly(c: MapCell, e: MapEvent, modulus: Modulus)
    requires AppliedOnly(c.log) && !e.Store?
    ensures AppliedOnly(Rcu.Step(Updater(modulus), c, e).log)
  {}

  lemma {:induction false} LogAppliedOnly(events: seq<MapEvent>, modulus: Modulus)
    requires UpdatesOnly(events)
    ensures AppliedOnly(Rcu.Run(Updater(modulus), Rcu.Fresh(map[]), events).log)
  {
    if |events| > 0 {
      var n := |events| - 1;
      LogAppliedOnly(events[..n], modulus);
      StepAppliedOnly(Rcu.Run(Updater(modulus), Rcu.Fresh(map[]), events[..n]), events[n], modulus);
    }
  }

  lemma {:induction false} NoStores(log: seq<Rcu.Commit<Connections, ConnOp>>)
    requires AppliedOnly(log)
    ensures Rcu.Stores(log) == 0
  {
    if |log| > 0 {
      NoStores(log[..|log| - 1]);
    }
  }

  lemma {:induction false} ReplayIsCounts(log: seq<Rcu.Commit<Connections, ConnOp>>, n: nat, modulus: Modulus)
    requires n <= |log| && AppliedOnly(log)
    ensures Rcu.ReplayUpTo(Updater(modulus), map[], log, n) == CountsUpTo(Ops(log), n, modulus)
  {
    if n > 0 {
      ReplayIsCounts(log, n - 1, modulus);
    }
  }

  /** Each commit is of the operation with which a caller began that update. */
  ghost predicate AsBegun(log: seq<Rcu.Commit<Connections, ConnOp>>, begun: seq<ConnOp>) {
    forall p :: 0 <= p < |log| && log[p].Applied? ==>
      log[p].update < |begun| && log[p].op == begun[log[p].update]
  }

  lemma LogAsBegun(events: seq<MapEvent>, modulus: Modulus)
    ensures AsBegun(Rcu.Run(Updater(modulus), Rcu.Fresh(map[]), events).log, Rcu.Begun(events))
  {
    var c := Rcu.Run(Updater(modulus), Rcu.Fresh(map[]), events);
    Rcu.Linearizable(Updater(modulus), map[], events);
    Rcu.UpdatesAreBegun(Updater(modulus), map[], events);
    forall p | 0 <= p < |c.log| && c.log[p].Applied?
      ensures c.log[p].update < |Rcu.Begun(events)| && c.log[p].op == Rcu.Begun(events)[c.log[p].update]
    {
      assert Rcu.CommitOk(c, p);
      assert Rcu.UpdateOk(Updater(modulus), map[], c.log, c.log[p].update, c.updates[c.log[p].update]);
    }
  }

  lemma ReplayIsReflected(log: seq<Rcu.Commit<Connections, ConnOp>>, a: SocketAddr, modulus: Modulus)
    requires AppliedOnly(log) && NeverFull(Ops(log), |log|, a, modulus)
    ensures Count(Rcu.Replay(Updater(modulus), map[], log), a) == Reflected(Ops(log), |log|, a)
  {
    ReplayIsCounts(log, |log|, modulus);
    CountIsReflected(Ops(log), |log|, a, modulus);
  }

  /** However increments and decrements interleave and retry, with `n` of them at most
      `n(n-1)/2` swaps fail, and the map holds for every address the reflected walk of the
      committed operations, each one that a caller began and each counted once, unless that
      reached the modulus. */
  lemma SharedCountsAreExact(events: seq<MapEvent>, a: SocketAddr, modulus: Modulus)
    requires UpdatesOnly(events)
    ensures
      var c := Rcu.Run(Updater(modulus), Rcu.Fresh(map[]), events);
      && 2 * c.failures <= |c.updates| * (|c.updates| - 1)
      && AppliedOnly(c.log) && AsBegun(c.log, Rcu.Begun(events))
      && (NeverFull(Ops(c.log), |c.log|, a, modulus) ==>
            Count(c.value, a) == Reflected(Ops(c.log), |c.log|, a))
  {
    var c := Rcu.Run(Updater(modulus), Rcu.Fresh(map[]), events);
    LogAppliedOnly(events, modulus);
    LogAsBegun(events, modulus);
    FewFailures(events, modulus);
    Rcu.Linearizable(Updater(modulus), map[], events);
    if NeverFull(Ops(c.log), |c.log|, a, modulus) {
      ReplayIsReflected(c.log, a, modulus);
    }
  }

  lemma FewFailures(events: seq<MapEvent>, modulus: Modulus)
    requires UpdatesOnly(events)
    ensures var c := Rcu.Run(Updater(modulus), Rcu.Fresh(map[]), events);
            2 * c.failures <= |c.updates| * (|c.updates| - 1)
  {
    LogAppliedOnly(events, modulus);
    NoStores(Rcu.Run(Updater(modulus), Rcu.Fresh(map[]), events).log);
    Rcu.RetryBound(Updater(modulus), map[], events);
  }
}
