/**
  Where backend sets come from: DNS lookups, and a local list that callers change.
 */
module Discovery {
  import opened BackendSets
  import opened Division
  import opened Selection
  import opened Wrappers
  import Rcu

  /** One DNS discovery, given what the resolver answered. A failed lookup and an empty
      answer are errors. */
  function DnsDiscover(port: nat, answer: Result<seq<nat>>): (r: Result<BackendSet>)
    ensures r.Ok? <==> answer.Ok? && |answer.value| > 0
    ensures r.Ok? ==>
              |r.value| > 0 && Elems(r.value) == set ip | ip in answer.value :: Backend(SocketAddr(ip, port, 0), 1)
  {
    match answer
    case Err => Err
    case Ok(ips) =>
      var addrs := seq(|ips|, i requires 0 <= i < |ips| => SocketAddr(ips[i], port, 0));
      var found := FromAddrs(addrs);
      assert forall ip :: ip in ips ==> SocketAddr(ip, port, 0) in addrs by {
        forall ip | ip in ips ensures SocketAddr(ip, port, 0) in addrs {
          var i :| 0 <= i < |ips| && ips[i] == ip;
          assert addrs[i] == SocketAddr(ip, port, 0);
        }
      }
      assert Elems(found) == set ip | ip in ips :: Backend(SocketAddr(ip, port, 0), 1);
      assert |ips| > 0 ==> Backend(SocketAddr(ips[0], port, 0), 1) in Elems(found);
      assert |found| > 0 ==> found[0] in Elems(found);
      if |found| == 0 then Err else Ok(found)
  }

  // ---------- Local discovery, one caller ----------

  class LocalDiscovery {
    var backends: BackendSet

    ghost predicate Valid()
      reads this
    {
      UnitWeights(backends)
    }

    /** The plain set of addresses that the field represents. */
    ghost function Content(): set<SocketAddr>
      reads this
    {
      Addrs(backends)
    }

    constructor ()
      ensures Valid() && Content() == {}
    {
      backends := [];
    }

    constructor WithBackends(addrs: seq<SocketAddr>)
      ensures Valid() && Content() == AddrSet(addrs)
    {
      backends := FromAddrs(addrs);
      new;
      UnitElems(backends, AddrSet(addrs));
    }

    method AddBackend(addr: SocketAddr)
      requires Valid()
      modifies this
      ensures Valid() && Content() == old(Content()) + {addr}
      ensures addr in old(Content()) ==> backends == old(backends)
    {
      UnitContent(backends);
      backends := Insert(backends, Backend(addr, 1));
      assert UnitBackends(old(Content())) + {Backend(addr, 1)} == UnitBackends(old(Content()) + {addr});
      UnitElems(backends, old(Content()) + {addr});
      if addr in old(Content()) {
        assert old(Content()) + {addr} == old(Content());
        SameElements(backends, old(backends));
      }
    }

    method RemoveBackend(addr: SocketAddr)
      requires Valid()
      modifies this
      ensures Valid() && Content() == old(Content()) - {addr}
    {
      UnitContent(backends);
      backends := WithoutAddr(backends, addr);
      UnitElems(backends, old(Content()) - {addr});
    }

    method SetBackends(addrs: seq<SocketAddr>)
      modifies this
      ensures Valid() && Content() == AddrSet(addrs)
    {
      backends := FromAddrs(addrs);
      UnitElems(backends, AddrSet(addrs));
    }

    method ClearBackends()
      modifies this
      ensures Valid() && Content() == {}
    {
      backends := [];
    }

    method Discover() returns (r: Result<BackendSet>)
      ensures r == Ok(backends)
    {
      r := Ok(backends);
    }
  }

  lemma UnitContent(s: BackendSet)
    requires UnitWeights(s)
    ensures Elems(s) == UnitBackends(Addrs(s))
  {
    forall b | b in s ensures b == Backend(b.addr, 1) && b.addr in Addrs(s) {}
    forall a | a in Addrs(s) ensures Backend(a, 1) in s {
      var b :| b in s && b.addr == a;
      assert b == Backend(a, 1);
    }
  }

  lemma UnitElems(s: BackendSet, addrs: set<SocketAddr>)
    requires Elems(s) == UnitBackends(addrs)
    ensures UnitWeights(s) && Addrs(s) == addrs
  {
    forall b | b in s ensures b.weight == 1 && b.addr in addrs {
      assert b in Elems(s);
    }
    forall a | a in addrs ensures a in Addrs(s) {
      assert Backend(a, 1) in Elems(s);
    }
  }

  // ---------- Local discovery, many callers ----------

  datatype LocalOp = Add(addr: SocketAddr) | Remove(addr: SocketAddr)

  /** The pure part of `add_backend` and `remove_backend`. */
  function ApplyLocal(s: BackendSet, op: LocalOp): BackendSet {
    match op
    case Add(a) => Insert(s, Backend(a, 1))
    case Remove(a) => WithoutAddr(s, a)
  }

  type LocalCell = Rcu.Cell<BackendSet, LocalOp>

  /** Steps of concurrent callers; replacing and clearing are unconditional stores. */
  datatype LocalEvent =
    | Begin(op: LocalOp)
    | Compute(update: nat)
    | Swap(update: nat)
    | SetBackends(addrs: seq<SocketAddr>)
    | ClearBackends

  function CellEvent(e: LocalEvent): Rcu.Event<BackendSet, LocalOp> {
    match e
    case Begin(op) => Rcu.Begin(op)
    case Compute(i) => Rcu.Compute(i)
    case Swap(i) => Rcu.Swap(i)
    case SetBackends(addrs) => Rcu.Store(FromAddrs(addrs))
    case ClearBackends => Rcu.Store([])
  }

  function LocalStep(c: LocalCell, e: LocalEvent): LocalCell {
    Rcu.Step(ApplyLocal, c, CellEvent(e))
  }

  ghost function LocalRun(addrs: seq<SocketAddr>, events: seq<LocalEvent>): LocalCell {
    if |events| == 0 then Rcu.Fresh(FromAddrs(addrs))
    else LocalStep(LocalRun(addrs, events[..|events| - 1]), events[|events| - 1])
  }

  /** The adds and removes that callers begin, in order. */
  ghost function Asked(events: seq<LocalEvent>): seq<LocalOp> {
    if |events| == 0 then []
    else
      var n := |events| - 1;
      Asked(events[..n]) + (if events[n].Begin? then [events[n].op] else [])
  }

  /** The plain set of addresses that the callers' requests make of `addrs`: replaced and
      cleared at once, and inserted into or deleted from when the request of that number
      commits. */
  ghost function Plain(addrs: seq<SocketAddr>, events: seq<LocalEvent>): set<SocketAddr> {
    if |events| == 0 then AddrSet(addrs)
    else
      var n := |events| - 1;
      var before := Plain(addrs, events[..n]);
      match events[n]
      case SetBackends(list) => AddrSet(list)
      case ClearBackends => {}
      case Swap(i) =>
        if i < |Asked(events[..n])| && Rcu.Commits(LocalRun(addrs, events[..n]), i) then
          match Asked(events[..n])[i]
          case Add(a) => before + {a}
          case Remove(a) => before - {a}
        else before
      case _ => before
  }

  lemma FromAddrsUnit(addrs: seq<SocketAddr>)
    ensures UnitWeights(FromAddrs(addrs)) && Addrs(FromAddrs(addrs)) == AddrSet(addrs)
  {
    UnitElems(FromAddrs(addrs), AddrSet(addrs));
  }

  lemma ApplyLocalContent(s: BackendSet, op: LocalOp)
    requires UnitWeights(s)
    ensures UnitWeights(ApplyLocal(s, op))
    ensures Addrs(ApplyLocal(s, op)) == if op.Add? then Addrs(s) + {op.addr} else Addrs(s) - {op.addr}
  {
    UnitContent(s);
    var addrs := if op.Add? then Addrs(s) + {op.addr} else Addrs(s) - {op.addr};
    assert Elems(ApplyLocal(s, op)) == UnitBackends(addrs);
    UnitElems(ApplyLocal(s, op), addrs);
  }

  /** Each update does what its caller asked for. */
  lemma {:induction false} UpdatesAreAsked(addrs: seq<SocketAddr>, events: seq<LocalEvent>)
    ensures
      var c := LocalRun(addrs, events);
      && |c.updates| == |Asked(events)|
      && forall i :: 0 <= i < |c.updates| ==> c.updates[i].op == Asked(events)[i]
  {
    if |events| > 0 {
      UpdatesAreAsked(addrs, events[..|events| - 1]);
    }
  }

  lemma {:induction false} LocalRunLinearized(addrs: seq<SocketAddr>, events: seq<LocalEvent>)
    ensures Rcu.Linearized(ApplyLocal, FromAddrs(addrs), LocalRun(addrs, events))
  {
    if |events| > 0 {
      var n := |events| - 1;
      LocalRunLinearized(addrs, events[..n]);
      Rcu.StepLinearized(ApplyLocal, FromAddrs(addrs), LocalRun(addrs, events[..n]), CellEvent(events[n]));
    } else {
      Rcu.Linearizable(ApplyLocal, FromAddrs(addrs), []);
    }
  }

  /** A commit applies its operation to the content that it replaces. */
  lemma CommitApplies(initial: BackendSet, c: LocalCell, i: nat)
    requires Rcu.Linearized(ApplyLocal, initial, c) && Rcu.Commits(c, i)
    ensures LocalStep(c, Swap(i)).value == ApplyLocal(c.value, c.updates[i].op)
  {
    assert Rcu.UpdateOk(ApplyLocal, initial, c.log, i, c.updates[i]);
  }

  lemma {:induction false} ContentIsPlain(addrs: seq<SocketAddr>, events: seq<LocalEvent>)
    ensures
      var v := LocalRun(addrs, events).value;
      UnitWeights(v) && Addrs(v) == Plain(addrs, events)
  {
    if |events| == 0 {
      FromAddrsUnit(addrs);
    } else {
      var n := |events| - 1;
      var c := LocalRun(addrs, events[..n]);
      ContentIsPlain(addrs, events[..n]);
      UpdatesAreAsked(addrs, events[..n]);
      match events[n] {
        case SetBackends(list) => FromAddrsUnit(list);
        case Swap(i) =>
          if Rcu.Commits(c, i) {
            LocalRunLinearized(addrs, events[..n]);
            CommitApplies(FromAddrs(addrs), c, i);
            ApplyLocalContent(c.value, c.updates[i].op);
          }
        case _ =>
      }
    }
  }

  /** Local discovery refines a plain set of addresses: however its callers interleave, the
      content is one weight-1 backend for each address of the set that their requests make,
      and no address occurs twice. */
  lemma LocalRefinesAddressSet(addrs: seq<SocketAddr>, events: seq<LocalEvent>)
    ensures
      var v := LocalRun(addrs, events).value;
      Elems(v) == UnitBackends(Plain(addrs, events)) && DistinctAddrs(v)
  {
    var v := LocalRun(addrs, events).value;
    ContentIsPlain(addrs, events);
    UnitContent(v);
    UnitWeightsDistinctAddrs(v);
  }

  /** Choices depend on contents alone: two histories that end in the same addresses end in
      the same sequence, which is all that a selector sees of them. */
  lemma HistoriesAgree(addrs: seq<SocketAddr>, events: seq<LocalEvent>,
                       others: seq<SocketAddr>, otherEvents: seq<LocalEvent>)
    requires Plain(addrs, events) == Plain(others, otherEvents)
    ensures LocalRun(addrs, events).value == LocalRun(others, otherEvents).value
  {
    LocalRefinesAddressSet(addrs, events);
    LocalRefinesAddressSet(others, otherEvents);
    SameElements(LocalRun(addrs, events).value, LocalRun(others, otherEvents).value);
  }

  // ---------- Weights ----------

  /** Every set the cell holds, and every set an update holds, has weight-1 backends. */
  ghost predicate UnitCell(c: LocalCell) {
    && UnitWeights(c.value)
    && forall i :: 0 <= i < |c.updates| ==> UnitPhase(c.updates[i].phase)
  }

  ghost predicate UnitPhase(p: Rcu.Phase<BackendSet>) {
    match p
    case Loaded(_, v) => UnitWeights(v)
    case Computed(_, v) => UnitWeights(v)
    case Done(_) => true
  }

  lemma StartsUnit(addrs: seq<SocketAddr>)
    ensures UnitCell(Rcu.Fresh(FromAddrs(addrs)))
  {
    FromAddrsUnit(addrs);
  }

  lemma StepUnit(c: LocalCell, e: LocalEvent)
    requires UnitCell(c)
    ensures UnitCell(LocalStep(c, e))
  {
    var d := LocalStep(c, e);
    match e {
      case SetBackends(addrs) => FromAddrsUnit(addrs);
      case Compute(i) =>
        if Rcu.Enabled(c, CellEvent(e)) {
          assert UnitPhase(c.updates[i].phase);
          ApplyLocalContent(c.updates[i].phase.seen, c.updates[i].op);
        }
      case _ =>
    }
    forall i | 0 <= i < |d.updates| ensures UnitPhase(d.updates[i].phase) {
      assert i < |c.updates| ==> UnitPhase(c.updates[i].phase);
    }
  }

  // ---------- Which updates commute ----------

  /** Two updates commute on a discovered set exactly if they are not an add and a remove
      of one address. */
  lemma UpdatesCommuteIff(s: BackendSet, o: LocalOp, p: LocalOp)
    requires UnitWeights(s)
    ensures ApplyLocal(ApplyLocal(s, o), p) == ApplyLocal(ApplyLocal(s, p), o)
       <==> !(o.addr == p.addr && o.Add? != p.Add?)
  {
    ApplyLocalContent(s, o);
    ApplyLocalContent(s, p);
    var x, y := ApplyLocal(ApplyLocal(s, o), p), ApplyLocal(ApplyLocal(s, p), o);
    ApplyLocalContent(ApplyLocal(s, o), p);
    ApplyLocalContent(ApplyLocal(s, p), o);
    UnitContent(x);
    UnitContent(y);
    if o.addr == p.addr && o.Add? != p.Add? {
      assert o.addr in Addrs(x) <==> p.Add?;
      assert o.addr in Addrs(y) <==> o.Add?;
    } else {
      assert Addrs(x) == Addrs(y);
      SameElements(x, y);
    }
  }
}
