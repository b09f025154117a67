/**
  How uneven least connections can get when many clients choose at once.

  A client loads the count map and chooses by it, later starts the increment of the
  address it chose, and is in flight until that increment commits. At most `limit` clients
  are in flight at a time. No connection is closed.
 */
module Skew {
  import opened BackendSets
  import opened ConnectionMap
  import opened Division
  import opened Selection
  import opened Tallies
  import opened Wrappers
  import Rcu

  datatype Client = Chosen(seen: Connections) | Counting

  datatype State = State(cell: MapCell, clients: seq<Client>)

  datatype Event = Select | Increment(client: nat) | Compute(update: nat) | Swap(update: nat)

  datatype Config = Config(backends: BackendSet, limit: nat, modulus: Modulus) {

    /** The address a client chose when it loaded `seen`. */
    function Choice(seen: Connections): Option<SocketAddr> {
      match LeastPick(seen, backends)
      case None => None
      case Some(b) => Some(b.addr)
    }

    ghost function InFlight(s: State): nat {
      Tally(s.clients, IsChosen()) + Tally(s.cell.updates, Rcu.IsUnfinished())
    }

    /** The increments of `a` that are decided on but not committed. */
    ghost function Pending(s: State, a: SocketAddr): nat {
      Tally(s.clients, HasChosen(a)) + Tally(s.cell.updates, IsOpening(a))
    }

    function IsChosen(): Client -> bool { (c: Client) => c.Chosen? }

    function HasChosen(a: SocketAddr): Client -> bool {
      (c: Client) => c.Chosen? && Choice(c.seen) == Some(a)
    }

    function IsOpening(a: SocketAddr): Rcu.Update<Connections, ConnOp> -> bool {
      (u: Rcu.Update<Connections, ConnOp>) => !u.phase.Done? && u.op == Open(a)
    }

    ghost function Step(s: State, e: Event): State {
      match e
      case Select =>
        if InFlight(s) < limit && |backends| > 0
        then s.(clients := s.clients + [Chosen(s.cell.value)])
        else s
      case Increment(i) =>
        if i < |s.clients| && s.clients[i].Chosen? && Choice(s.clients[i].seen).Some?
        then State(
          Rcu.Step(Updater(modulus), s.cell, Rcu.Begin(Open(Choice(s.clients[i].seen).value))),
          s.clients[i := Counting])
        else s
      case Compute(u) => s.(cell := Rcu.Step(Updater(modulus), s.cell, Rcu.Compute(u)))
      case Swap(u) => s.(cell := Rcu.Step(Updater(modulus), s.cell, Rcu.Swap(u)))
    }

    ghost function Run(initial: Connections, events: seq<Event>): State {
      if |events| == 0 then State(Rcu.Fresh(initial), [])
      else Step(Run(initial, events[..|events| - 1]), events[|events| - 1])
    }

    /** The counts of all backends start equal. */
    ghost predicate Level(m: Connections, base: nat) {
      forall b :: b in backends ==> Count(m, b.addr) == base
    }

    ghost predicate OpensOnly(s: State) {
      forall i :: 0 <= i < |s.cell.updates| ==> s.cell.updates[i].op.Open?
    }

    /** The event commits an increment of a count that has no room for it. */
    ghost predicate CountWraps(s: State, e: Event) {
      && e.Swap? && Rcu.Commits(s.cell, e.update)
      && Count(s.cell.value, s.cell.updates[e.update].op.addr) + 1 >= modulus
    }

    /** No event of the run does so. */
    ghost predicate NoCountWraps(initial: Connections, events: seq<Event>) {
      |events| > 0 ==>
        && NoCountWraps(initial, events[..|events| - 1])
        && !CountWraps(Run(initial, events[..|events| - 1]), events[|events| - 1])
    }

    /** How far `b` may be ahead of `c`: by `limit`, or by as much as it was at the start. */
    function Lead(initial: Connections, b: Backend, c: Backend): int {
      var ahead := Count(initial, b.addr) - Count(initial, c.addr);
      if ahead > limit then ahead else limit
    }

    /** No backend is further ahead of another than it may be, even with the increments
        decided on. */
    ghost predicate Bounded(initial: Connections, s: State) {
      forall b, c :: b in backends && c in backends ==>
        Count(s.cell.value, b.addr) + Pending(s, b.addr) <= Count(s.cell.value, c.addr) + Lead(initial, b, c)
    }

    lemma PendingInFlight(s: State, a: SocketAddr)
      ensures Pending(s, a) <= InFlight(s)
    {
      AtMost(s.clients, HasChosen(a), IsChosen());
      AtMost(s.cell.updates, IsOpening(a), Rcu.IsUnfinished());
    }

    lemma SelectBounded(initial: Connections, s: State)
      requires Bounded(initial, s) && InFlight(s) <= limit
      ensures Bounded(initial, Step(s, Select)) && InFlight(Step(s, Select)) <= limit
    {
      var t := Step(s, Select);
      var client := Chosen(s.cell.value);
      if t != s {
        Append(s.clients, client, IsChosen());
        var chosen := LeastPick(s.cell.value, backends).value;
        forall b, c | b in backends && c in backends
          ensures Count(t.cell.value, b.addr) + Pending(t, b.addr)
               <= Count(t.cell.value, c.addr) + Lead(initial, b, c)
        {
          Append(s.clients, client, HasChosen(b.addr));
          PendingInFlight(t, b.addr);
          ChosenIsLeast(s.cell.value, c);
          assert Choice(s.cell.value) == Some(chosen.addr);
        }
      }
    }

    lemma ChosenIsLeast(m: Connections, c: Backend)
      requires c in backends
      ensures Count(m, LeastPick(m, backends).value.addr) <= Count(m, c.addr)
    {
      var j :| 0 <= j < |backends| && backends[j] == c;
    }

    lemma IncrementKeepsPending(s: State, i: nat, a: SocketAddr)
      ensures Pending(Step(s, Increment(i)), a) == Pending(s, a)
    {
      var t := Step(s, Increment(i));
      if t != s {
        Change(s.clients, i, Counting, HasChosen(a));
        Append(s.cell.updates, t.cell.updates[|s.cell.updates|], IsOpening(a));
      }
    }

    lemma IncrementKeepsInFlight(s: State, i: nat)
      ensures InFlight(Step(s, Increment(i))) == InFlight(s)
      ensures Step(s, Increment(i)).cell.value == s.cell.value
    {
      var t := Step(s, Increment(i));
      if t != s {
        Change(s.clients, i, Counting, IsChosen());
        Append(s.cell.updates, t.cell.updates[|s.cell.updates|], Rcu.IsUnfinished());
      }
    }

    lemma IncrementBounded(initial: Connections, s: State, i: nat)
      requires Bounded(initial, s) && InFlight(s) <= limit
      ensures Bounded(initial, Step(s, Increment(i))) && InFlight(Step(s, Increment(i))) <= limit
    {
      IncrementKeepsInFlight(s, i);
      SameBounded(initial, s, Step(s, Increment(i))) by {
        forall b | b in backends ensures Pending(Step(s, Increment(i)), b.addr) == Pending(s, b.addr) {
          IncrementKeepsPending(s, i, b.addr);
        }
      }
    }

    lemma SameBounded(initial: Connections, s: State, t: State)
      requires Bounded(initial, s) && t.cell.value == s.cell.value
      requires forall b :: b in backends ==> Pending(t, b.addr) == Pending(s, b.addr)
      ensures Bounded(initial, t)
    {}

    lemma ComputeBounded(initial: Connections, s: State, i: nat)
      requires Bounded(initial, s) && InFlight(s) <= limit
      ensures Bounded(initial, Step(s, Compute(i))) && InFlight(Step(s, Compute(i))) <= limit
    {
      var t := Step(s, Compute(i));
      if t != s {
        Change(s.cell.updates, i, t.cell.updates[i], Rcu.IsUnfinished());
        forall b | b in backends ensures Pending(t, b.addr) == Pending(s, b.addr) {
          Change(s.cell.updates, i, t.cell.updates[i], IsOpening(b.addr));
        }
      }
    }

    /** A commit moves one increment from pending to counted. */
    lemma SwapBounded(initial: Connections, s: State, i: nat)
      requires Bounded(initial, s) && InFlight(s) <= limit && OpensOnly(s)
      requires Rcu.Linearized(Updater(modulus), initial, s.cell) && !CountWraps(s, Swap(i))
      ensures Bounded(initial, Step(s, Swap(i))) && InFlight(Step(s, Swap(i))) <= limit
    {
      var t := Step(s, Swap(i));
      if t != s {
        var u := s.cell.updates[i];
        Change(s.cell.updates, i, t.cell.updates[i], Rcu.IsUnfinished());
        assert Rcu.UpdateOk(Updater(modulus), initial, s.cell.log, i, u);
        forall b | b in backends
          ensures Count(t.cell.value, b.addr) + Pending(t, b.addr) == Count(s.cell.value, b.addr) + Pending(s, b.addr)
          ensures Count(t.cell.value, b.addr) >= Count(s.cell.value, b.addr)
        {
          Change(s.cell.updates, i, t.cell.updates[i], IsOpening(b.addr));
          if t.cell.log != s.cell.log && u.op == Open(b.addr) {
            assert t.cell.value == Incremented(s.cell.value, b.addr, modulus);
            var count := Count(s.cell.value, b.addr);
            SmallMod(count + 1, modulus);
          }
        }
      }
    }

    lemma StepKeepsCell(initial: Connections, s: State, e: Event)
      requires OpensOnly(s) && Rcu.Linearized(Updater(modulus), initial, s.cell)
      ensures OpensOnly(Step(s, e)) && Rcu.Linearized(Updater(modulus), initial, Step(s, e).cell)
    {
      match e {
        case Select =>
        case Increment(i) =>
          if Step(s, e) != s {
            Rcu.StepLinearized(Updater(modulus), initial, s.cell, Rcu.Begin(Open(Choice(s.clients[i].seen).value)));
          }
        case Compute(u) => Rcu.StepLinearized(Updater(modulus), initial, s.cell, Rcu.Compute(u));
        case Swap(u) => Rcu.StepLinearized(Updater(modulus), initial, s.cell, Rcu.Swap(u));
      }
    }

    lemma StepBounded(initial: Connections, s: State, e: Event)
      requires Bounded(initial, s) && InFlight(s) <= limit && OpensOnly(s)
      requires Rcu.Linearized(Updater(modulus), initial, s.cell) && !CountWraps(s, e)
      ensures Bounded(initial, Step(s, e)) && InFlight(Step(s, e)) <= limit
    {
      match e {
        case Select => SelectBounded(initial, s);
        case Increment(i) => IncrementBounded(initial, s, i);
        case Compute(u) => ComputeBounded(initial, s, u);
        case Swap(u) => SwapBounded(initial, s, u);
      }
    }

    lemma {:induction false} AlwaysBounded(initial: Connections, events: seq<Event>)
      requires NoCountWraps(initial, events)
      ensures var s := Run(initial, events);
              && Bounded(initial, s) && InFlight(s) <= limit && OpensOnly(s)
              && Rcu.Linearized(Updater(modulus), initial, s.cell)
    {
      if |events| > 0 {
        var n := |events| - 1;
        AlwaysBounded(initial, events[..n]);
        StepBounded(initial, Run(initial, events[..n]), events[n]);
        StepKeepsCell(initial, Run(initial, events[..n]), events[n]);
      } else {
        Rcu.Linearizable(Updater(modulus), initial, []);
      }
    }

    /** From any counts, in every reachable state of every interleaving in which no count
        wraps: a backend is ahead of another by at most `limit` connections or by as much as
        at the start, even when the increments already decided on are added to it. */
    lemma SkewFromAnyStart(initial: Connections, events: seq<Event>, b: Backend, c: Backend)
      requires b in backends && c in backends && NoCountWraps(initial, events)
      ensures
        var s := Run(initial, events);
        Count(s.cell.value, b.addr) + Pending(s, b.addr) <= Count(s.cell.value, c.addr) + Lead(initial, b, c)
    {
      AlwaysBounded(initial, events);
      var s := Run(initial, events);
      assert Bounded(initial, s);
    }

    /** From equal counts, at most `limit`. */
    lemma SkewAtMostLimit(initial: Connections, base: nat, events: seq<Event>, b: Backend, c: Backend)
      requires Level(initial, base) && b in backends && c in backends
      requires NoCountWraps(initial, events)
      ensures var s := Run(initial, events);
              Count(s.cell.value, b.addr) + Pending(s, b.addr) <= Count(s.cell.value, c.addr) + limit
    {
      SkewFromAnyStart(initial, events, b, c);
      assert Lead(initial, b, c) == limit;
    }

    /** A place is never blocked: while fewer than `limit` clients are in flight, in any state,
        one more can choose by the current counts, and undisturbed its increment commits with
        one swap. */
    lemma OneMoreClient(s: State)
      requires InFlight(s) < limit && |backends| > 0
      ensures
        var i, u := |s.clients|, |s.cell.updates|;
        var t := Step(Step(Step(Step(s, Select), Increment(i)), Compute(u)), Swap(u));
        && t.clients == s.clients + [Counting]
        && t.cell.value == Incremented(s.cell.value, LeastPick(s.cell.value, backends).value.addr, modulus)
        && InFlight(t) == InFlight(s)
    {
      var i, u := |s.clients|, |s.cell.updates|;
      CountUndisturbed(Step(s, Select), i, u);
      var t := Step(Step(Step(Step(s, Select), Increment(i)), Compute(u)), Swap(u));
      Append(s.clients, Counting, IsChosen());
      Append(s.cell.updates, t.cell.updates[u], Rcu.IsUnfinished());
    }

    // ---------- The limit is reached ----------

    lemma RunSnoc(initial: Connections, events: seq<Event>, e: Event)
      ensures Run(initial, events + [e]) == Step(Run(initial, events), e)
    {
      assert (events + [e])[..|events + [e]| - 1] == events;
    }

    /** `n` clients have chosen by the initial counts, and none has counted. */
    ghost predicate AllChosen(initial: Connections, s: State, n: nat) {
      && s.cell == Rcu.Fresh(initial)
      && |s.clients| == n
      && forall j :: 0 <= j < n ==> s.clients[j] == Chosen(initial)
    }

    lemma SelectUndisturbed(initial: Connections, s: State, n: nat)
      requires AllChosen(initial, s, n) && n < limit && |backends| > 0
      ensures AllChosen(initial, Step(s, Select), n + 1)
    {
      assert Tally(s.cell.updates, Rcu.IsUnfinished()) == 0;
    }

    lemma NoCountWrapsSnoc(initial: Connections, events: seq<Event>, e: Event)
      requires NoCountWraps(initial, events) && !CountWraps(Run(initial, events), e)
      ensures NoCountWraps(initial, events + [e])
    {
      assert (events + [e])[..|events + [e]| - 1] == events;
    }

    lemma OneMoreSelect(initial: Connections, events: seq<Event>, n: nat)
      requires AllChosen(initial, Run(initial, events), n) && NoCountWraps(initial, events)
      requires n < limit && |backends| > 0
      ensures AllChosen(initial, Run(initial, events + [Select]), n + 1)
      ensures NoCountWraps(initial, events + [Select])
    {
      NoCountWrapsSnoc(initial, events, Select);
      RunSnoc(initial, events, Select);
      SelectUndisturbed(initial, Run(initial, events), n);
    }

    /** A run in which `n` clients choose before any of them counts. */
    lemma {:induction false} ManySelects(initial: Connections, n: nat) returns (events: seq<Event>)
      requires n <= limit && |backends| > 0
      ensures AllChosen(initial, Run(initial, events), n) && NoCountWraps(initial, events)
    {
      if n == 0 {
        events := [];
      } else {
        events := ManySelects(initial, n - 1);
        OneMoreSelect(initial, events, n - 1);
        events := events + [Select];
      }
    }

    /** Undisturbed, a client counts its choice with one swap. */
    lemma CountUndisturbed(s: State, i: nat, u: nat)
      requires i < |s.clients| && |s.cell.updates| == u && |backends| > 0 && s.clients[i].Chosen?
      ensures var t := Step(Step(Step(s, Increment(i)), Compute(u)), Swap(u));
              && t.clients == s.clients[i := Counting]
              && |t.cell.updates| == u + 1 && t.cell.updates[..u] == s.cell.updates && t.cell.updates[u].phase.Done?
              && t.cell.value == Incremented(s.cell.value, LeastPick(s.clients[i].seen, backends).value.addr, modulus)
      ensures Count(s.cell.value, LeastPick(s.clients[i].seen, backends).value.addr) + 1 < modulus ==>
                !CountWraps(Step(Step(s, Increment(i)), Compute(u)), Swap(u))
    {
      var t := Step(s, Increment(i));
      assert t.cell.updates[u].phase == Rcu.Loaded(s.cell.version, s.cell.value);
      assert Step(t, Compute(u)).cell.updates[u].phase.Computed?;
    }

    /** `n` of the clients that chose by `initial` have counted. */
    ghost predicate Counted(initial: Connections, base: nat, s: State, n: nat)
      requires |backends| > 0
    {
      var a := LeastPick(initial, backends).value.addr;
      && |s.clients| == limit && |s.cell.updates| == n
      && (forall j :: n <= j < limit ==> s.clients[j] == Chosen(initial))
      && Count(s.cell.value, a) == base + n
      && (forall c :: c != a ==> Count(s.cell.value, c) == Count(initial, c))
    }

    lemma OneMoreCounted(initial: Connections, base: nat, s: State, n: nat)
      requires |backends| > 0 && n < limit && base + limit < modulus
      requires Counted(initial, base, s, n)
      ensures Counted(initial, base, Step(Step(Step(s, Increment(n)), Compute(n)), Swap(n)), n + 1)
      ensures !CountWraps(Step(Step(s, Increment(n)), Compute(n)), Swap(n))
    {
      CountUndisturbed(s, n, n);
      SmallMod(base + n + 1, modulus);
    }

    /** One more client's increment keeps a run free of wraps if its swap does not wrap. */
    lemma RunThree(initial: Connections, events: seq<Event>, n: nat)
      requires NoCountWraps(initial, events)
      requires !CountWraps(Step(Step(Run(initial, events), Increment(n)), Compute(n)), Swap(n))
      ensures Run(initial, events + [Increment(n)] + [Compute(n)] + [Swap(n)])
           == Step(Step(Step(Run(initial, events), Increment(n)), Compute(n)), Swap(n))
      ensures NoCountWraps(initial, events + [Increment(n)] + [Compute(n)] + [Swap(n)])
    {
      RunSnoc(initial, events, Increment(n));
      RunSnoc(initial, events + [Increment(n)], Compute(n));
      RunSnoc(initial, events + [Increment(n)] + [Compute(n)], Swap(n));
      NoCountWrapsSnoc(initial, events, Increment(n));
      NoCountWrapsSnoc(initial, events + [Increment(n)], Compute(n));
      NoCountWrapsSnoc(initial, events + [Increment(n)] + [Compute(n)], Swap(n));
    }

    lemma OneMoreBurst(initial: Connections, base: nat, events: seq<Event>, n: nat)
      requires |backends| > 0 && n < limit && base + limit < modulus
      requires Counted(initial, base, Run(initial, events), n) && NoCountWraps(initial, events)
      ensures
        var more := events + [Increment(n)] + [Compute(n)] + [Swap(n)];
        Counted(initial, base, Run(initial, more), n + 1) && NoCountWraps(initial, more)
    {
      OneMoreCounted(initial, base, Run(initial, events), n);
      RunThree(initial, events, n);
    }

    /** A run in which all clients choose, and then `n` of them count one after the other. */
    lemma {:induction false} Burst(initial: Connections, base: nat, n: nat) returns (events: seq<Event>)
      requires n <= limit && |backends| > 0 && Level(initial, base) && base + limit < modulus
      ensures Counted(initial, base, Run(initial, events), n) && NoCountWraps(initial, events)
    {
      if n == 0 {
        events := ManySelects(initial, limit);
        ChosenIsInSet(initial);
      } else {
        events := Burst(initial, base, n - 1);
        OneMoreBurst(initial, base, events, n - 1);
        events := events + [Increment(n - 1)] + [Compute(n - 1)] + [Swap(n - 1)];
      }
    }

    lemma ChosenIsInSet(m: Connections)
      requires |backends| > 0
      ensures LeastPick(m, backends).value in backends
    {}

    /** The bound is exact: when all clients choose before any of them counts, the chosen
        backend ends `limit` ahead of every backend at another address. */
    lemma SkewReachesLimit(initial: Connections, base: nat, c: Backend) returns (events: seq<Event>)
      requires Level(initial, base) && base + limit < modulus
      requires c in backends && c.addr != LeastPick(initial, backends).value.addr
      ensures NoCountWraps(initial, events)
      ensures var s := Run(initial, events);
              && |s.clients| == limit
              && Count(s.cell.value, LeastPick(initial, backends).value.addr) - Count(s.cell.value, c.addr) == limit
    {
      events := Burst(initial, base, limit);
    }
  }
}
