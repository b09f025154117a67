/**
  The snapshot cache over a discovery source, and the load balancer that selects from it.
 */
module Balance {
  import opened BackendSets
  import opened Discovery
  import opened Division
  import opened Selection
  import opened Wrappers

  /** The kinds of selector the server creates. */
  datatype Kind = KindRoundRobin | KindWeighted | KindLeastConnections | KindRandom

  /** Whether a selector of this kind takes a ticket for a choice from `seen`. */
  predicate TakesTicket(kind: Kind, seen: BackendSet, modulus: Modulus) {
    match kind
    case KindRoundRobin => |seen| > 0
    case KindWeighted => TotalWeight(seen) % modulus != 0
    case KindLeastConnections => false
    case KindRandom => false
  }

  /** What `LoadBalancer::select` answers over the snapshot `seen`, given the ticket, the
      count map and the random draw that the selector would find. */
  function Answer(
    kind: Kind, modulus: Modulus, seen: BackendSet, ticket: nat, m: Connections, draw: nat): Option<Backend>
  {
    if |seen| == 0 then None
    else
      match kind
      case KindRoundRobin => RoundRobinPick(seen, ticket)
      case KindWeighted => WeightedPick(seen, ticket, modulus)
      case KindLeastConnections => LeastPick(m, seen)
      case KindRandom => Some(seen[draw % |seen|])
  }

  datatype Discoverer = Local(local: LocalDiscovery) | Dns(port: nat)

  class Backends {
    const discovery: Discoverer
    var backends: BackendSet

    constructor (discovery: Discoverer)
      ensures this.discovery == discovery && backends == []
    {
      this.discovery := discovery;
      backends := [];
    }

    /** A discovery that fails leaves the snapshot as it was. */
    method Refresh(answer: Result<seq<nat>>) returns (ok: bool)
      modifies this`backends
      ensures discovery.Local? ==> ok && backends == discovery.local.backends
      ensures discovery.Dns? ==> (ok <==> answer.Ok? && |answer.value| > 0)
      ensures discovery.Dns? && ok ==>
                && DnsDiscover(discovery.port, answer) == Ok(backends)
                && Elems(backends) == set ip | ip in answer.value :: Backend(SocketAddr(ip, discovery.port, 0), 1)
      ensures !ok ==> backends == old(backends)
    {
      var found: Result<BackendSet>;
      match discovery {
        case Local(local) => found := local.Discover();
        case Dns(port) => found := DnsDiscover(port, answer);
      }
      match found {
        case Err => ok := false;
        case Ok(discovered) =>
          backends := discovered;
          ok := true;
      }
    }

    method GetBackends() returns (r: BackendSet)
      ensures r == backends
    {
      r := backends;
    }
  }

  datatype Selector =
    | ByRoundRobin(roundRobin: RoundRobin)
    | ByWeighted(weighted: WeightedRoundRobin)
    | ByLeastConnections(least: LeastConnections)
    | ByRandom(random: Random)
  {
    ghost function Objects(): set<object> {
      match this
      case ByRoundRobin(o) => {o}
      case ByWeighted(o) => {o}
      case ByLeastConnections(o) => {o}
      case ByRandom(o) => {o}
    }
  }

  class LoadBalancer {
    const selection: Selector
    const backends: Backends

    constructor (backends: Backends, selection: Selector)
      ensures this.backends == backends && this.selection == selection
    {
      this.backends := backends;
      this.selection := selection;
    }

    /** One snapshot decides both whether there is anything to choose and the choice. */
    method Select(draw: nat) returns (r: Option<Backend>)
      modifies selection.Objects()
      ensures backends.backends == old(backends.backends)
      ensures |backends.backends| == 0 ==> r.None?
      ensures r.Some? ==> r.value in backends.backends
      ensures selection.ByRoundRobin? ==>
                var o, s := selection.roundRobin, backends.backends;
                && r == Answer(KindRoundRobin, o.modulus, s, old(o.index), map[], 0)
                && (|s| > 0 ==> r.Some? && |Before(s, r.value)| == old(o.index) % |s|)
                && o.index == if |s| > 0 then (old(o.index) + 1) % o.modulus else old(o.index)
      ensures selection.ByWeighted? ==>
                var o, s := selection.weighted, backends.backends;
                && r == Answer(KindWeighted, o.modulus, s, old(o.index), map[], 0)
                && (r.Some? <==> TotalWeight(s) % o.modulus > 0)
                && o.index == if r.Some? then (old(o.index) + 1) % o.modulus else old(o.index)
      ensures selection.ByWeighted? && r.Some? ==>
                var o, s := selection.weighted, backends.backends;
                var reduced := old(o.index) % (TotalWeight(s) % o.modulus);
                forall i :: 0 <= i < |s| ==>
                  WeightUpTo(s, i) <= reduced < WeightUpTo(s, i + 1) ==> r == Some(s[i])
      ensures selection.ByLeastConnections? ==>
                var o, s := selection.least, backends.backends;
                && r == Answer(KindLeastConnections, o.modulus, s, 0, o.connections, 0)
                && (forall b :: r == Some(b) <==> Least(o.connections, s, b))
                && o.connections == old(o.connections)
      ensures selection.ByRandom? ==>
                var s := backends.backends;
                && (|s| > 0 ==> r.Some?)
                && (draw < |s| ==> r == Some(s[draw]))
    {
      var snapshot := backends.GetBackends();
      if |snapshot| == 0 {
        return None;
      }
      match selection {
        case ByRoundRobin(o) => r := o.Select(snapshot);
        case ByWeighted(o) => r := o.Select(snapshot);
        case ByLeastConnections(o) => r := o.Select(snapshot);
        case ByRandom(o) => r := o.Select(snapshot, draw);
      }
    }

    /** The refresh task over as many ticks as there are answers; the source does not change
        meanwhile. Errors are dropped: the last success, that of answer `last`, stays, whatever
        failed before it or after it. */
    method RefreshTask(answers: seq<Result<seq<nat>>>) returns (ghost last: int)
      modifies backends`backends
      ensures backends.discovery.Local? ==>
                backends.backends == if |answers| > 0 then backends.discovery.local.backends else old(backends.backends)
      ensures backends.discovery.Dns? ==>
                var port := backends.discovery.port;
                && -1 <= last < |answers|
                && (forall i :: last < i < |answers| ==> DnsDiscover(port, answers[i]).Err?)
                && (last < 0 ==> backends.backends == old(backends.backends))
                && (last >= 0 ==> DnsDiscover(port, answers[last]) == Ok(backends.backends))
    {
      last := -1;
      for n := 0 to |answers|
        invariant backends.discovery.Local? ==>
                    backends.backends == if n > 0 then backends.discovery.local.backends else old(backends.backends)
        invariant backends.discovery.Dns? ==>
                    var port := backends.discovery.port;
                    && -1 <= last < n
                    && (forall i :: last < i < n ==> DnsDiscover(port, answers[i]).Err?)
                    && (last < 0 ==> backends.backends == old(backends.backends))
                    && (last >= 0 ==> DnsDiscover(port, answers[last]) == Ok(backends.backends))
      {
        var ok := backends.Refresh(answers[n]);
        if ok {
          last := n;
        }
      }
    }
  }
}
