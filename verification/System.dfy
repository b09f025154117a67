/**
  A load balancer at work: discovery callers, the refresh loop and any number of requests,
  interleaved step by step.

  A request loads the snapshot in one step and takes its ticket and its answer in another.
  A refresh loop calls `discover` in one step and stores the result in another. The server
  starts one such loop; the model has any number, and says which results need there to be
  just one.
 */
module System {
  import opened BackendSets
  import opened Balance
  import opened Discovery
  import opened Division
  import opened Fairness
  import opened Selection
  import opened Tallies
  import opened Wrappers
  import Rcu

  datatype Source = Local(cell: LocalCell) | Dns(port: nat)

  /** A refresh loop holds a result, which is the one numbered `epoch`, until it stores it. */
  datatype Refresher = Waiting | Holding(backends: BackendSet, epoch: nat)

  /** `epoch` is the discovery result that a request loaded; `place` is its turn among the
      requests that took a ticket. */
  datatype Request =
    | Loaded(seen: BackendSet, epoch: nat)
    | Answered(seen: BackendSet, epoch: nat, place: Option<nat>, answer: Option<Backend>)

  /** `found` has the initial empty set and then every discovery result; `epoch` is the one
      that `snapshot` holds; `served` has the requests that took a ticket, in turn. */
  datatype State = State(
    source: Source,
    found: seq<BackendSet>,
    refreshers: seq<Refresher>,
    snapshot: BackendSet,
    epoch: nat,
    index: nat,
    requests: seq<Request>,
    served: seq<nat>)

  datatype Event =
    | Change(change: LocalEvent)
    | Discover(loop: nat, answer: Result<seq<nat>>)
    | Publish(loop: nat)
    | Load
    | Choose(request: nat, connections: Connections, draw: nat)

  datatype Config = Config(kind: Kind, modulus: Modulus, source: Source, index: nat, loops: nat) {

    ghost predicate Valid() {
      && index < modulus
      && (source.Local? ==> UnitCell(source.cell))
    }

    /** A server that starts with a configured list of addresses starts validly. */
    lemma ServerStartIsValid(addrs: seq<SocketAddr>)
      requires source == Source.Local(Rcu.Fresh(FromAddrs(addrs))) && index < modulus
      ensures Valid()
    {
      StartsUnit(addrs);
    }

    function Initial(): State {
      State(source, [[]], seq(loops, _ => Waiting), [], 0, index, [], [])
    }

    function Discovered(s: Source, answer: Result<seq<nat>>): Result<BackendSet> {
      match s
      case Local(cell) => Ok(cell.value)
      case Dns(port) => DnsDiscover(port, answer)
    }

    /** One step. An event whose turn it is not changes nothing. */
    function Step(s: State, e: Event): State {
      match e
      case Change(change) =>
        if s.source.Local? then s.(source := Source.Local(LocalStep(s.source.cell, change))) else s
      case Discover(l, answer) =>
        if l < |s.refreshers| && s.refreshers[l].Waiting? && Discovered(s.source, answer).Ok? then
          var v := Discovered(s.source, answer).value;
          s.(found := s.found + [v], refreshers := s.refreshers[l := Holding(v, |s.found|)])
        else s
      case Publish(l) =>
        if l < |s.refreshers| && s.refreshers[l].Holding? then
          var h := s.refreshers[l];
          s.(snapshot := h.backends, epoch := h.epoch, refreshers := s.refreshers[l := Waiting])
        else s
      case Load =>
        s.(requests := s.requests + [Loaded(s.snapshot, s.epoch)])
      case Choose(i, m, draw) =>
        if i < |s.requests| && s.requests[i].Loaded? then
          var r := s.requests[i];
          var answer := Answer(kind, modulus, r.seen, s.index, m, draw);
          if TakesTicket(kind, r.seen, modulus) then
            s.(index := (s.index + 1) % modulus,
               requests := s.requests[i := Answered(r.seen, r.epoch, Some(|s.served|), answer)],
               served := s.served + [i])
          else s.(requests := s.requests[i := Answered(r.seen, r.epoch, None, answer)])
        else s
    }

    function Run(events: seq<Event>): State {
      if |events| == 0 then Initial()
      else Step(Run(events[..|events| - 1]), events[|events| - 1])
    }

    lemma RunSnoc(events: seq<Event>, e: Event)
      ensures Run(events + [e]) == Step(Run(events), e)
    {
      assert (events + [e])[..|events + [e]| - 1] == events;
    }

    lemma RunMore(events: seq<Event>, more: seq<Event>)
      requires |more| > 0
      ensures Run(events + more) == Step(Run(events + more[..|more| - 1]), more[|more| - 1])
    {
      assert (events + more)[..|events + more| - 1] == events + more[..|more| - 1];
    }

    // ---------- Provenance ----------

    /** What a request loaded is a result of that number, and its answer is from it. */
    ghost predicate RequestOk(s: State, r: Request) {
      && r.epoch < |s.found| && r.seen == s.found[r.epoch]
      && (r.Answered? && r.answer.Some? ==> r.epoch > 0 && r.answer.value in s.found[r.epoch])
    }

    ghost predicate RefresherOk(s: State, r: Refresher) {
      r.Holding? ==> 0 < r.epoch < |s.found| && r.backends == s.found[r.epoch]
    }

    /** Everything held anywhere is a result of a completed discovery, or the empty set that
        the balancer starts with; only discovered backends are answers. */
    ghost predicate Sourced(s: State) {
      && |s.found| > 0 && s.found[0] == []
      && s.epoch < |s.found| && s.snapshot == s.found[s.epoch]
      && (forall l :: 0 <= l < |s.refreshers| ==> RefresherOk(s, s.refreshers[l]))
      && (forall i :: 0 <= i < |s.requests| ==> RequestOk(s, s.requests[i]))
    }

    lemma AnswerFromSeen(seen: BackendSet, ticket: nat, m: Connections, draw: nat)
      ensures var a := Answer(kind, modulus, seen, ticket, m, draw);
              a.Some? ==> |seen| > 0 && a.value in seen
    {
      if |seen| > 0 && kind.KindWeighted? && TotalWeight(seen) % modulus != 0 {
        var total := TotalWeight(seen) % modulus;
        ModAtMost(TotalWeight(seen), modulus);
        var k := Owner(seen, |seen|, ticket % total);
        ExpandBlock(seen, |seen|, k, ticket % total);
      }
    }

    lemma StepRequestOk(s: State, e: Event, i: nat)
      requires Sourced(s) && i < |Step(s, e).requests|
      ensures RequestOk(Step(s, e), Step(s, e).requests[i])
    {
      if i < |s.requests| {
        assert RequestOk(s, s.requests[i]);
        if e.Choose? {
          AnswerFromSeen(s.requests[i].seen, s.index, e.connections, e.draw);
        }
      }
    }

    lemma StepRefresherOk(s: State, e: Event, l: nat)
      requires Sourced(s) && l < |Step(s, e).refreshers|
      ensures RefresherOk(Step(s, e), Step(s, e).refreshers[l])
    {
      assert RefresherOk(s, s.refreshers[l]);
    }

    lemma StepSourced(s: State, e: Event)
      requires Sourced(s)
      ensures Sourced(Step(s, e))
    {
      var t := Step(s, e);
      if e.Publish? && e.loop < |s.refreshers| {
        assert RefresherOk(s, s.refreshers[e.loop]);
      }
      forall l | 0 <= l < |t.refreshers| ensures RefresherOk(t, t.refreshers[l]) {
        StepRefresherOk(s, e, l);
      }
      forall i | 0 <= i < |t.requests| ensures RequestOk(t, t.requests[i]) {
        StepRequestOk(s, e, i);
      }
    }

    /** In every interleaving, with any number of refresh loops, each answer is an element of
        a set that a completed discovery returned. */
    lemma {:induction false} Provenance(events: seq<Event>)
      ensures Sourced(Run(events))
    {
      if |events| > 0 {
        Provenance(events[..|events| - 1]);
        StepSourced(Run(events[..|events| - 1]), events[|events| - 1]);
      }
    }

    /** A request keeps what it loaded, and its answer once it has one. */
    ghost predicate Kept(r: Request, q: Request) {
      q.seen == r.seen && q.epoch == r.epoch && (r.Answered? ==> q == r)
    }

    /** `t` continues `s`. */
    ghost predicate Continues(s: State, t: State) {
      && s.found <= t.found && s.served <= t.served
      && |s.requests| <= |t.requests| && |t.refreshers| == |s.refreshers|
      && (forall i :: 0 <= i < |s.requests| ==> Kept(s.requests[i], t.requests[i]))
      && (s.epoch > 0 ==> t.epoch > 0)
      && (s.source.Dns? ==> t.source == s.source)
      && (s.source.Local? ==>
            && t.source.Local? && s.source.cell.version <= t.source.cell.version
            && (s.source.cell.version == t.source.cell.version ==> s.source.cell.value == t.source.cell.value))
    }

    lemma StepContinues(s: State, e: Event)
      requires Sourced(s)
      ensures Continues(s, Step(s, e))
    {
      if e.Publish? && e.loop < |s.refreshers| {
        assert RefresherOk(s, s.refreshers[e.loop]);
      }
    }

    lemma {:induction false} RunContinues(events: seq<Event>, more: seq<Event>)
      ensures Continues(Run(events), Run(events + more))
    {
      if |more| == 0 {
        assert events + more == events;
      } else {
        var n := |more| - 1;
        RunContinues(events, more[..n]);
        RunMore(events, more);
        Provenance(events + more[..n]);
        StepContinues(Run(events + more[..n]), more[n]);
      }
    }

    lemma SourceContinues(events: seq<Event>)
      ensures
        var s := Run(events);
        && |s.refreshers| == loops && (s.source.Local? <==> source.Local?)
        && (source.Dns? ==> s.source == source)
    {
      RunContinues([], events);
      assert [] + events == events;
    }

    /** Every result is what one discovery of the schedule found at that moment: the local
        list, or one weight-1 backend for each IP of a non-empty answer, at the port of the
        source. */
    lemma {:induction false} FoundByDiscover(events: seq<Event>, k: nat) returns (j: nat)
      requires 0 < k < |Run(events).found|
      ensures j < |events| && events[j].Discover? && |Run(events[..j]).found| == k
      ensures source.Local? ==>
                Run(events[..j]).source.Local? && Run(events).found[k] == Run(events[..j]).source.cell.value
      ensures source.Dns? ==>
                && events[j].answer.Ok?
                && Elems(Run(events).found[k])
                   == set ip | ip in events[j].answer.value :: Backend(SocketAddr(ip, source.port, 0), 1)
    {
      var n := |events| - 1;
      if k < |Run(events[..n]).found| {
        j := FoundByDiscover(events[..n], k);
        assert events[..n][..j] == events[..j];
      } else {
        j := n;
        SourceContinues(events[..n]);
      }
    }

    /** From every reachable state, what a loop discovers next is what it stores next: the
        current list, or the backends of the answer; a failed lookup leaves the snapshot. A
        loop that still holds a result stores that first. */
    lemma RefreshCompletes(events: seq<Event>, l: nat, answer: Result<seq<nat>>)
      requires l < loops
      ensures
        var s, p := Run(events), Run(events + [Publish(l)]);
        var t := Run(events + [Publish(l)] + [Discover(l, answer)] + [Publish(l)]);
        && |s.refreshers| == loops
        && p.snapshot == (if s.refreshers[l].Holding? then s.refreshers[l].backends else s.snapshot)
        && (source.Local? ==> s.source.Local? && t.snapshot == s.source.cell.value)
        && (source.Local? || (answer.Ok? && |answer.value| > 0) ==> t.epoch == |s.found|)
        && (source.Dns? ==>
              if answer.Ok? && |answer.value| > 0
              then Elems(t.snapshot) == set ip | ip in answer.value :: Backend(SocketAddr(ip, source.port, 0), 1)
              else t.snapshot == p.snapshot)
    {
      SourceContinues(events);
      var p := events + [Publish(l)];
      RunSnoc(events, Publish(l));
      RunSnoc(p, Discover(l, answer));
      RunSnoc(p + [Discover(l, answer)], Publish(l));
    }

    /** Whatever happens in between, a request that loads gets an answer from the snapshot
        that it loaded. */
    lemma RequestCompletes(events: seq<Event>, more: seq<Event>, m: Connections, draw: nat)
      ensures
        var s := Run(events);
        var i := |s.requests|;
        var t := Run(events + [Load] + more + [Choose(i, m, draw)]);
        && i < |t.requests| && t.requests[i].Answered?
        && t.requests[i].seen == s.snapshot && t.requests[i].epoch == s.epoch
    {
      var i := |Run(events).requests|;
      RunSnoc(events, Load);
      RunContinues(events + [Load], more);
      RunSnoc(events + [Load] + more, Choose(i, m, draw));
      assert Kept(Run(events + [Load]).requests[i], Run(events + [Load] + more).requests[i]);
    }

    function IsLoad(): Event -> bool {
      (e: Event) => e.Load?
    }

    lemma {:induction false} RequestsAreLoads(events: seq<Event>)
      ensures |Run(events).requests| == Tally(events, IsLoad())
    {
      if |events| > 0 {
        RequestsAreLoads(events[..|events| - 1]);
      }
    }

    /** A request without a ticket was answered by one event, from the counts and the draw of
        that event: with least connections the least backend, at random the one drawn. */
    lemma {:induction false} AnsweredByItsChoose(events: seq<Event>, i: nat) returns (j: nat)
      requires i < |Run(events).requests| && Run(events).requests[i].Answered?
      ensures j < |events| && events[j].Choose? && events[j].request == i
      ensures i < |Run(events[..j]).requests| && Run(events[..j]).requests[i].Loaded?
      ensures
        var r, e := Run(events).requests[i], events[j];
        && (kind.KindLeastConnections? ==> forall b :: r.answer == Some(b) <==> Least(e.connections, r.seen, b))
        && (kind.KindRandom? && e.draw < |r.seen| ==> r.answer == Some(r.seen[e.draw]))
    {
      var n := |events| - 1;
      var s := Run(events[..n]);
      if i < |s.requests| && s.requests[i].Answered? {
        j := AnsweredByItsChoose(events[..n], i);
        assert events[..n][..j] == events[..j];
        Provenance(events[..n]);
        StepContinues(s, events[n]);
        assert Kept(s.requests[i], Run(events).requests[i]);
      } else {
        j := n;
        assert events[j].Choose? && events[j].request == i;
        AnswerWithoutTicket(s.requests[i].seen, s.index, events[j].connections, events[j].draw);
      }
    }

    lemma AnswerWithoutTicket(seen: BackendSet, ticket: nat, m: Connections, draw: nat)
      ensures
        var a := Answer(kind, modulus, seen, ticket, m, draw);
        && (kind.KindLeastConnections? ==> forall b :: a == Some(b) <==> Least(m, seen, b))
        && (kind.KindRandom? && draw < |seen| ==> a == Some(seen[draw]))
    {
      forall b ensures LeastPick(m, seen) == Some(b) <==> Least(m, seen, b) {
        LeastPickIff(m, seen, b);
      }
      if draw < |seen| {
        SmallMod(draw, |seen|);
      }
    }

    // ---------- Freshness ----------

    /** Later requests loaded results at least as new. */
    ghost predicate InOrder(s: State) {
      forall i, j :: 0 <= i < j < |s.requests| ==> s.requests[i].epoch <= s.requests[j].epoch
    }

    /** The snapshot is the newest result, or the one before while the newest is being stored,
        and no request has loaded a newer one. */
    ghost predicate Fresh(s: State) {
      && |s.refreshers| <= 1
      && (forall l :: 0 <= l < |s.refreshers| ==>
            if s.refreshers[l].Holding? then s.refreshers[l].epoch == s.epoch + 1 == |s.found| - 1
            else s.epoch == |s.found| - 1)
      && (forall i :: 0 <= i < |s.requests| ==> s.requests[i].epoch <= s.epoch)
      && InOrder(s)
    }

    lemma StepLoads(s: State, e: Event, i: nat)
      requires i < |Step(s, e).requests|
      ensures
        var r := Step(s, e).requests[i];
        r.epoch == if i < |s.requests| then s.requests[i].epoch else s.epoch
    {}

    lemma StepFresh(s: State, e: Event)
      requires Fresh(s)
      ensures Fresh(Step(s, e)) && s.epoch <= Step(s, e).epoch
    {
      var t := Step(s, e);
      forall i | 0 <= i < |t.requests| ensures t.requests[i].epoch <= t.epoch {
        StepLoads(s, e, i);
      }
      forall i, j | 0 <= i < j < |t.requests| ensures t.requests[i].epoch <= t.requests[j].epoch {
        StepLoads(s, e, i);
        StepLoads(s, e, j);
      }
    }

    /** With one refresh loop, in every interleaving the snapshot is the newest result or the
        newest but one, and no request loads an older result than an earlier request did. */
    lemma {:induction false} Freshness(events: seq<Event>)
      requires loops <= 1
      ensures Fresh(Run(events))
    {
      if |events| > 0 {
        Freshness(events[..|events| - 1]);
        StepFresh(Run(events[..|events| - 1]), events[|events| - 1]);
      }
    }

    lemma {:induction false} EpochNeverFalls(events: seq<Event>, more: seq<Event>)
      requires loops <= 1
      ensures Run(events).epoch <= Run(events + more).epoch
    {
      if |more| == 0 {
        assert events + more == events;
      } else {
        var n := |more| - 1;
        EpochNeverFalls(events, more[..n]);
        RunMore(events, more);
        Freshness(events + more[..n]);
        StepFresh(Run(events + more[..n]), more[n]);
      }
    }

    /** The first loop discovers, the second overtakes it, and the first stores its older
        result after the newer one. */
    lemma SecondLoopGoesBack() returns (events: seq<Event>)
      requires loops >= 2
      ensures !InOrder(Run(events))
    {
      var answer := Ok([0]);
      var v := Discovered(source, answer).value;
      assert Run([]) == Initial();
      RunSnoc([], Discover(0, answer));
      events := [] + [Discover(0, answer)];
      RunSnoc(events, Discover(1, answer));
      events := events + [Discover(1, answer)];
      assert Run(events).refreshers[0] == Holding(v, 1) && Run(events).refreshers[1] == Holding(v, 2);
      RunSnoc(events, Publish(1));
      events := events + [Publish(1)];
      RunSnoc(events, Load);
      events := events + [Load];
      assert Run(events).requests == [Loaded(v, 2)];
      RunSnoc(events, Publish(0));
      events := events + [Publish(0)];
      RunSnoc(events, Load);
      events := events + [Load];
      var s := Run(events);
      assert s.requests == [Loaded(v, 2), Loaded(v, 1)];
      assert s.requests[0].epoch > s.requests[1].epoch;
    }

    /** Snapshot loads never go back to an older discovery result exactly if there is at most
        one refresh loop. */
    lemma NeverGoesBackIff()
      ensures (forall events :: InOrder(Run(events))) <==> loops <= 1
    {
      if loops <= 1 {
        forall events ensures InOrder(Run(events)) {
          Freshness(events);
        }
      } else {
        var events := SecondLoopGoesBack();
      }
    }

    // ---------- Convergence ----------

    /** Over an unchanged local source, every result discovered since `s` is its content. */
    ghost predicate Settled(s: State, t: State) {
      && s.source.Local? && t.source.Local?
      && t.source.cell.value == s.source.cell.value
      && forall k :: |s.found| <= k < |t.found| ==> t.found[k] == s.source.cell.value
    }

    lemma StepSettled(s: State, t: State, e: Event)
      requires Sourced(t) && Continues(s, t) && Settled(s, t)
      requires t.source.cell.version == Step(t, e).source.cell.version
      ensures Settled(s, Step(t, e))
    {
      StepContinues(t, e);
    }

    lemma {:induction false} QuietRunSettles(events: seq<Event>, quiet: seq<Event>)
      requires Run(events).source.Local? && Run(events + quiet).source.Local?
      requires Run(events + quiet).source.cell.version == Run(events).source.cell.version
      ensures Settled(Run(events), Run(events + quiet))
    {
      if |quiet| == 0 {
        assert events + quiet == events;
      } else {
        var n := |quiet| - 1;
        var t := Run(events + quiet[..n]);
        RunContinues(events, quiet[..n]);
        RunMore(events, quiet);
        Provenance(events + quiet[..n]);
        StepContinues(t, quiet[n]);
        QuietRunSettles(events, quiet[..n]);
        StepSettled(Run(events), t, quiet[n]);
      }
    }

    /** Once local discovery falls quiet, the snapshot equals its content as soon as it holds
        a result discovered since, and with one refresh loop for as long as the quiet lasts. */
    lemma QuietSourceConverges(events: seq<Event>, quiet: seq<Event>, more: seq<Event>)
      requires Run(events).source.Local? && Run(events + quiet + more).source.Local?
      requires Run(events + quiet + more).source.cell.version == Run(events).source.cell.version
      requires Run(events + quiet).epoch >= |Run(events).found| && (loops <= 1 || more == [])
      ensures Run(events + quiet + more).snapshot == Run(events).source.cell.value
    {
      assert events + quiet + more == events + (quiet + more);
      if more == [] {
        assert events + quiet + more == events + quiet;
      } else {
        EpochNeverFalls(events + quiet, more);
      }
      QuietRunSettles(events, quiet + more);
      Provenance(events + quiet + more);
    }

    /** The changes that callers of the local list make in a schedule. */
    ghost function Changes(events: seq<Event>): seq<LocalEvent> {
      if |events| == 0 then []
      else
        var n := |events| - 1;
        Changes(events[..n]) + (if events[n].Change? then [events[n].change] else [])
    }

    lemma {:induction false} SourceIsLocalRun(addrs: seq<SocketAddr>, events: seq<Event>)
      requires source == Source.Local(Rcu.Fresh(FromAddrs(addrs)))
      ensures Run(events).source == Source.Local(LocalRun(addrs, Changes(events)))
    {
      if |events| > 0 {
        var n := |events| - 1;
        SourceIsLocalRun(addrs, events[..n]);
        if events[n].Change? {
          var changes := Changes(events);
          assert changes[..|changes| - 1] == Changes(events[..n]);
        } else {
          assert Changes(events) == Changes(events[..n]);
        }
      }
    }

    /** From the address list of the configuration to the snapshot: once the local list is
        left alone and a result discovered since is stored, the snapshot has exactly one
        weight-1 backend for each address that the callers' requests have left in it. */
    lemma SnapshotReflectsList(addrs: seq<SocketAddr>, events: seq<Event>, quiet: seq<Event>)
      requires source == Source.Local(Rcu.Fresh(FromAddrs(addrs)))
      requires Run(events).source.Local? && Run(events + quiet).source.Local?
      requires Run(events + quiet).source.cell.version == Run(events).source.cell.version
      requires Run(events + quiet).epoch >= |Run(events).found|
      ensures Elems(Run(events + quiet).snapshot)
           == UnitBackends(Plain(addrs, Changes(events)))
    {
      assert events + quiet + [] == events + quiet;
      QuietSourceConverges(events, quiet, []);
      SourceIsLocalRun(addrs, events);
      LocalRefinesAddressSet(addrs, Changes(events));
    }

    // ---------- Tickets ----------

    ghost predicate HasPlace(s: State, k: nat)
      requires k < |s.served|
    {
      && s.served[k] < |s.requests|
      && s.requests[s.served[k]].Answered?
      && s.requests[s.served[k]].place == Some(k)
    }

    ghost predicate TicketOk(s: State, i: nat)
      requires i < |s.requests|
    {
      var r := s.requests[i];
      r.Answered? ==>
        && (kind.KindRoundRobin? ==> (r.place.Some? <==> |r.seen| > 0))
        && (kind.KindWeighted? ==> (r.place.Some? <==> TotalWeight(r.seen) % modulus > 0))
        && (r.place.Some? ==> kind.KindRoundRobin? || kind.KindWeighted?)
        && (r.place.Some? ==>
              && r.place.value < |s.served| && s.served[r.place.value] == i
              && r.answer == AtTicket(r.seen, Ticket(index, r.place.value, modulus)))
    }

    /** The answer that a ticket stands for. */
    function AtTicket(seen: BackendSet, ticket: nat): Option<Backend> {
      if kind.KindWeighted? then WeightedPick(seen, ticket, modulus) else RoundRobinPick(seen, ticket)
    }

    /** The tickets taken are consecutive and each belongs to one request. */
    ghost predicate TicketsOk(s: State) {
      && s.index == Ticket(index, |s.served|, modulus)
      && (forall k :: 0 <= k < |s.served| ==> HasPlace(s, k))
      && (forall i :: 0 <= i < |s.requests| ==> TicketOk(s, i))
    }

    lemma StepHasPlace(s: State, e: Event, k: nat)
      requires TicketsOk(s) && k < |Step(s, e).served|
      ensures HasPlace(Step(s, e), k)
    {
      assert k < |s.served| ==> HasPlace(s, k);
    }

    lemma StepTicketOk(s: State, e: Event, i: nat)
      requires TicketsOk(s) && i < |Step(s, e).requests|
      ensures TicketOk(Step(s, e), i)
    {
      if i < |s.requests| {
        assert TicketOk(s, i);
        if e.Choose? && e.request == i {
          TicketAnswer(s.requests[i].seen, s.index, e.connections, e.draw);
        }
      }
    }

    lemma TicketAnswer(seen: BackendSet, ticket: nat, m: Connections, draw: nat)
      ensures TakesTicket(kind, seen, modulus) ==>
                Answer(kind, modulus, seen, ticket, m, draw) == AtTicket(seen, ticket)
    {}

    lemma StepTicketsOk(s: State, e: Event)
      requires TicketsOk(s)
      ensures TicketsOk(Step(s, e))
    {
      var t := Step(s, e);
      TicketShift(index, |s.served|, 1, modulus);
      forall k | 0 <= k < |t.served| ensures HasPlace(t, k) {
        StepHasPlace(s, e, k);
      }
      forall i | 0 <= i < |t.requests| ensures TicketOk(t, i) {
        StepTicketOk(s, e, i);
      }
    }

    /** However loads and tickets interleave, the request at turn `k` has the ticket `k`
        after the first, no turn is skipped or shared, and the counter has advanced once for
        each request that took one. */
    lemma {:induction false} TicketsConserved(events: seq<Event>)
      requires Valid()
      ensures TicketsOk(Run(events))
    {
      if |events| > 0 {
        TicketsConserved(events[..|events| - 1]);
        StepTicketsOk(Run(events[..|events| - 1]), events[|events| - 1]);
      } else {
        SmallMod(index, modulus);
      }
    }

    /** On discovered sets the weighted balancer too takes a ticket exactly for a request that
        loaded a non-empty set. */
    lemma WeightedTakesTicketIff(events: seq<Event>, i: nat)
      requires Valid() && kind.KindWeighted? && LengthsFit(Run(events)) && i < |Run(events).requests|
      ensures
        var r := Run(events).requests[i];
        r.Answered? ==> (r.place.Some? <==> |r.seen| > 0)
    {
      var s := Run(events);
      TicketsConserved(events);
      AlwaysUnit(events);
      Provenance(events);
      assert TicketOk(s, i) && RequestOk(s, s.requests[i]);
      UnitWeightedIsRoundRobin(s.requests[i].seen, 0, modulus);
    }

    /** The request has taken a ticket. */
    ghost predicate Took(s: State, i: nat) {
      i < |s.requests| && s.requests[i].Answered? && s.requests[i].place.Some?
    }

    ghost function TicketOf(s: State, i: nat): nat
      requires Took(s, i)
    {
      Ticket(index, s.requests[i].place.value, modulus)
    }

    lemma PlacesDistinct(s: State, i: nat, j: nat)
      requires TicketsOk(s) && Took(s, i) && Took(s, j) && i != j
      ensures s.requests[i].place != s.requests[j].place
      ensures s.requests[i].place.value < |s.served| && s.requests[j].place.value < |s.served|
    {
      assert TicketOk(s, i) && TicketOk(s, j);
    }

    /** Until the counter has gone all the way round, no two requests have the same ticket. */
    lemma TicketsDistinct(events: seq<Event>, i: nat, j: nat)
      requires Valid() && |Run(events).served| <= modulus
      requires Took(Run(events), i) && Took(Run(events), j) && i != j
      ensures TicketOf(Run(events), i) != TicketOf(Run(events), j)
    {
      var s := Run(events);
      TicketsConserved(events);
      PlacesDistinct(s, i, j);
      var p, q := s.requests[i].place.value, s.requests[j].place.value;
      if Ticket(index, p, modulus) == Ticket(index, q, modulus) {
        TicketInjective(index, p, q, modulus);
      }
    }

    // ---------- Even spread ----------

    /** `n` requests with consecutive turns from `first` on all loaded a set equal to `v`. */
    ghost predicate AllSaw(s: State, first: nat, n: nat, v: BackendSet) {
      && first + n <= |s.served|
      && forall k :: first <= k < first + n ==>
           s.served[k] < |s.requests| && s.requests[s.served[k]].seen == v
    }

    ghost function AnswersFrom(s: State, first: nat, n: nat): seq<Option<Backend>>
      requires first + n <= |s.served|
      requires forall k :: 0 <= k < |s.served| ==> HasPlace(s, k)
    {
      seq(n, j requires 0 <= j < n =>
        assert HasPlace(s, first + j); s.requests[s.served[first + j]].answer)
    }

    lemma AnswerAtTurn(s: State, k: nat, v: BackendSet)
      requires TicketsOk(s) && kind.KindRoundRobin? && k < |s.served|
      requires s.served[k] < |s.requests| && s.requests[s.served[k]].seen == v
      ensures s.requests[s.served[k]].Answered?
      ensures s.requests[s.served[k]].answer == RoundRobinPick(v, Ticket(index, k, modulus))
    {
      assert HasPlace(s, k) && TicketOk(s, s.served[k]);
    }

    lemma AnswersAreARun(s: State, first: nat, n: nat, v: BackendSet)
      requires TicketsOk(s) && AllSaw(s, first, n, v) && kind.KindRoundRobin?
      ensures AnswersFrom(s, first, n) == RoundRobinRun(v, modulus, Ticket(index, first, modulus), n)
    {
      var answers, run := AnswersFrom(s, first, n), RoundRobinRun(v, modulus, Ticket(index, first, modulus), n);
      forall j | 0 <= j < n ensures answers[j] == run[j] {
        AnswerAtTurn(s, first + j, v);
        TicketShift(index, first, j, modulus);
      }
    }

    /** Whatever refreshes and loads happen in between, consecutive turns that were all
        decided on equal sets are spread evenly over them: rounded down or up when no wrap
        shows, and two backends differ by at most `r + 1` across `r` wraps. */
    lemma EvenSpread(events: seq<Event>, first: nat, n: nat, v: BackendSet, i: nat, j: nat)
      requires Valid() && kind.KindRoundRobin? && i < |v| && j < |v|
      requires AllSaw(Run(events), first, n, v)
      ensures
        TicketsOk(Run(events)) &&
        EvenlySpread(AnswersFrom(Run(events), first, n), v, i, j, modulus, Ticket(index, first, modulus))
    {
      TicketsConserved(events);
      AnswersAreARun(Run(events), first, n, v);
      RoundRobinEvenSpread(v, i, j, modulus, Ticket(index, first, modulus), n);
    }

    // ---------- Weights of discovered backends ----------

    ghost predicate UnitSystem(s: State) {
      && (s.source.Local? ==> UnitCell(s.source.cell))
      && (forall i :: 0 <= i < |s.found| ==> UnitWeights(s.found[i]))
      && (s.source.Dns? ==> forall i :: 0 < i < |s.found| ==> |s.found[i]| > 0)
    }

    lemma DnsFindsUnit(port: nat, answer: Result<seq<nat>>)
      ensures var r := DnsDiscover(port, answer);
              r.Ok? ==> UnitWeights(r.value) && |r.value| > 0
    {
      var r := DnsDiscover(port, answer);
      if r.Ok? {
        forall b | b in r.value ensures b.weight == 1 {
          assert b in Elems(r.value);
        }
      }
    }

    lemma StepUnitSystem(s: State, e: Event)
      requires UnitSystem(s) && |s.found| > 0
      ensures UnitSystem(Step(s, e))
    {
      match e {
        case Change(change) =>
          if s.source.Local? {
            StepUnit(s.source.cell, change);
          }
        case Discover(_, answer) =>
          if s.source.Dns? {
            DnsFindsUnit(s.source.port, answer);
          }
        case _ =>
      }
    }

    lemma {:induction false} AlwaysUnit(events: seq<Event>)
      requires Valid()
      ensures UnitSystem(Run(events)) && (Run(events).source.Dns? <==> source.Dns?)
    {
      if |events| > 0 {
        var n := |events| - 1;
        AlwaysUnit(events[..n]);
        Provenance(events[..n]);
        StepUnitSystem(Run(events[..n]), events[n]);
        StepContinues(Run(events[..n]), events[n]);
      }
    }

    /** A set's length is a `usize`. */
    ghost predicate LengthsFit(s: State) {
      forall i :: 0 <= i < |s.found| ==> |s.found[i]| < modulus
    }

    /** A request that has been answered got nothing exactly if it loaded an empty set, with
        every selector. */
    lemma NoAnswerIffEmpty(events: seq<Event>, i: nat)
      requires Valid() && LengthsFit(Run(events)) && i < |Run(events).requests|
      ensures
        var r := Run(events).requests[i];
        r.Answered? ==> (r.answer.None? <==> |r.seen| == 0)
    {
      NoAnswerIffEmptyAll(events);
    }

    ghost predicate AnswersOk(s: State) {
      forall i :: 0 <= i < |s.requests| && s.requests[i].Answered? ==>
        (s.requests[i].answer.None? <==> |s.requests[i].seen| == 0)
    }

    lemma UnitAnswer(seen: BackendSet, ticket: nat, m: Connections, draw: nat)
      requires UnitWeights(seen) && |seen| < modulus
      ensures Answer(kind, modulus, seen, ticket, m, draw).None? <==> |seen| == 0
    {
      UnitWeightedIsRoundRobin(seen, ticket, modulus);
    }

    lemma StepAnswersOk(s: State, e: Event)
      requires AnswersOk(s) && Sourced(s) && UnitSystem(s) && LengthsFit(s)
      ensures AnswersOk(Step(s, e))
    {
      match e {
        case Choose(i, m, draw) =>
          if i < |s.requests| {
            assert RequestOk(s, s.requests[i]);
            UnitAnswer(s.requests[i].seen, s.index, m, draw);
          }
        case _ =>
      }
    }

    lemma {:induction false} NoAnswerIffEmptyAll(events: seq<Event>)
      requires Valid() && LengthsFit(Run(events))
      ensures AnswersOk(Run(events))
    {
      if |events| > 0 {
        var n := |events| - 1;
        LengthsFitBefore(events);
        NoAnswerIffEmptyAll(events[..n]);
        Provenance(events[..n]);
        AlwaysUnit(events[..n]);
        StepAnswersOk(Run(events[..n]), events[n]);
      }
    }

    lemma LengthsFitBefore(events: seq<Event>)
      requires |events| > 0 && LengthsFit(Run(events))
      ensures LengthsFit(Run(events[..|events| - 1]))
    {
      var before := events[..|events| - 1];
      Provenance(before);
      StepContinues(Run(before), events[|events| - 1]);
      ShorterFits(Run(before), Run(events));
    }

    lemma ShorterFits(s: State, t: State)
      requires s.found <= t.found && LengthsFit(t)
      ensures LengthsFit(s)
    {
      forall i | 0 <= i < |s.found| ensures |s.found[i]| < modulus {
        assert s.found[i] == t.found[i];
      }
    }

    /** DNS availability never regresses: once a refresh has succeeded, every later snapshot
        is non-empty and every request that loads later gets a backend, whatever later
        lookups answer. */
    lemma DnsAvailability(events: seq<Event>, more: seq<Event>, i: nat)
      requires Valid() && source.Dns? && Run(events).epoch > 0
      requires LengthsFit(Run(events + more))
      requires |Run(events).requests| <= i < |Run(events + more).requests|
      ensures
        var t := Run(events + more);
        && |t.snapshot| > 0 && TotalWeight(t.snapshot) > 0
        && |t.requests[i].seen| > 0
        && (t.requests[i].Answered? ==> t.requests[i].answer.Some?)
    {
      var t := Run(events + more);
      RunContinues(events, more);
      Provenance(events + more);
      AlwaysUnit(events + more);
      NoAnswerIffEmpty(events + more, i);
      UnitWeightUpTo(t.snapshot, |t.snapshot|);
      LaterLoadsAreDiscovered(events, more, i);
      assert RequestOk(t, t.requests[i]);
    }

    /** A request that loads after some result has been stored loads a result. */
    lemma {:induction false} LaterLoadsAreDiscovered(events: seq<Event>, more: seq<Event>, i: nat)
      requires Run(events).epoch > 0 && i < |Run(events + more).requests|
      ensures |Run(events).requests| <= i ==> Run(events + more).requests[i].epoch > 0
    {
      if |more| == 0 {
        assert events + more == events;
      } else {
        var n := |more| - 1;
        RunMore(events, more);
        RunContinues(events, more[..n]);
        StepLoads(Run(events + more[..n]), more[n], i);
        if i < |Run(events + more[..n]).requests| {
          LaterLoadsAreDiscovered(events, more[..n], i);
        }
      }
    }
  }

  // ---------- The two round robins ----------

  lemma SameStep(c: Config, s: State, e: Event)
    requires c.kind == KindRoundRobin && c.Sourced(s) && c.UnitSystem(s) && c.LengthsFit(s)
    ensures c.Step(s, e) == c.(kind := KindWeighted).Step(s, e)
  {
    match e {
      case Choose(i, m, draw) =>
        if i < |s.requests| {
          assert c.RequestOk(s, s.requests[i]);
          UnitWeightedIsRoundRobin(s.requests[i].seen, s.index, c.modulus);
        }
      case _ =>
    }
  }

  /** Discovery gives every backend weight 1, and so a balancer with weighted round robin
      and one with plain round robin go through the same states on every schedule: the same
      tickets, the same answers. */
  lemma {:induction false} WeightedBalancerIsRoundRobin(c: Config, events: seq<Event>)
    requires c.kind == KindRoundRobin && c.Valid() && c.LengthsFit(c.Run(events))
    ensures c.(kind := KindWeighted).Run(events) == c.Run(events)
  {
    if |events| > 0 {
      var n := |events| - 1;
      c.LengthsFitBefore(events);
      c.Provenance(events[..n]);
      c.AlwaysUnit(events[..n]);
      WeightedBalancerIsRoundRobin(c, events[..n]);
      SameStep(c, c.Run(events[..n]), events[n]);
    }
  }
}
