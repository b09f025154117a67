/**
  The selection algorithms. `usize` arithmetic wraps at a modulus, 2^64 on the usual
  target, that is a parameter throughout.
 */
module Selection {
  import opened BackendSets
  import opened Division
  import opened Wrappers

  type Connections = map<SocketAddr, nat>

  // ---------- Round robin ----------

  /** What round robin answers on ticket `ticket`. */
  function RoundRobinPick(s: seq<Backend>, ticket: nat): Option<Backend> {
    if |s| == 0 then None else Some(s[ticket % |s|])
  }

  class RoundRobin {
    const modulus: Modulus
    var index: nat

    constructor (modulus: Modulus)
      ensures this.modulus == modulus && index == 0
    {
      this.modulus := modulus;
      index := 0;
    }

    /** An empty set takes no ticket; any other call takes exactly one, and answers the
        backend with so many smaller ones as the ticket says. */
    method Select(backends: BackendSet) returns (r: Option<Backend>)
      modifies this`index
      ensures r == RoundRobinPick(backends, old(index))
      ensures r.Some? <==> |backends| > 0
      ensures r.Some? ==> r.value in backends && |Before(backends, r.value)| == old(index) % |backends|
      ensures index == if |backends| == 0 then old(index) else (old(index) + 1) % modulus
    {
      var len := |backends|;
      if len == 0 {
        return None;
      }
      var ticket := index;
      index := (index + 1) % modulus;
      Rank(backends, ticket % len);
      r := Some(backends[ticket % len]);
    }
  }

  /** The first ticket goes to the lowest IP address, and there to the lowest port. */
  lemma FirstTicketIsLowest(s: BackendSet, b: Backend)
    requires b in s
    ensures
      var first := RoundRobinPick(s, 0);
      && first.Some? && first.value in s
      && first.value.addr.ip <= b.addr.ip
      && (first.value.addr.ip == b.addr.ip ==> first.value.addr.port <= b.addr.port)
  {
    var j :| 0 <= j < |s| && s[j] == b;
    SmallMod(0, |s|);
    if j > 0 {
      InAddrOrder(s, 0, j);
    }
  }

  // ---------- Weighted round robin ----------

  /** The exact sum of the first `n` weights. */
  function WeightUpTo(s: seq<Backend>, n: nat): nat
    requires n <= |s|
  {
    if n == 0 then 0 else WeightUpTo(s, n - 1) + s[n - 1].weight
  }

  function TotalWeight(s: seq<Backend>): nat {
    WeightUpTo(s, |s|)
  }

  /** The first `n` backends in set order, each repeated as often as its weight. */
  function ExpandUpTo(s: seq<Backend>, n: nat): (r: seq<Backend>)
    requires n <= |s|
    ensures |r| == WeightUpTo(s, n)
  {
    if n == 0 then [] else ExpandUpTo(s, n - 1) + seq(s[n - 1].weight, _ => s[n - 1])
  }

  function Expand(s: seq<Backend>): (r: seq<Backend>)
    ensures |r| == TotalWeight(s)
  {
    ExpandUpTo(s, |s|)
  }

  /** What weighted round robin answers on ticket `ticket`: an element of the expanded
      list, where the total is the wrapping sum of the weights. */
  function WeightedPick(s: seq<Backend>, ticket: nat, modulus: Modulus): Option<Backend> {
    var total := TotalWeight(s) % modulus;
    ModAtMost(TotalWeight(s), modulus);
    if total == 0 then None else Some(Expand(s)[ticket % total])
  }

  lemma {:induction false} WeightUpToMonotone(s: seq<Backend>, i: nat, n: nat)
    requires i <= n <= |s|
    ensures WeightUpTo(s, i) <= WeightUpTo(s, n)
  {
    if i < n {
      WeightUpToMonotone(s, i, n - 1);
    }
  }

  /** Backend `i` owns the positions from the sum of the weights before it to the sum
      through it. */
  lemma {:induction false} ExpandBlock(s: seq<Backend>, n: nat, i: nat, t: nat)
    requires i < n <= |s|
    requires WeightUpTo(s, i) <= t < WeightUpTo(s, i + 1)
    ensures t < WeightUpTo(s, n) && ExpandUpTo(s, n)[t] == s[i]
  {
    WeightUpToMonotone(s, i + 1, n);
    if i < n - 1 {
      ExpandBlock(s, n - 1, i, t);
    }
  }

  lemma ScanHit(s: seq<Backend>, i: nat, t: nat)
    requires i < |s|
    requires WeightUpTo(s, i) <= t < WeightUpTo(s, i) + s[i].weight
    ensures t < TotalWeight(s) && Expand(s)[t] == s[i]
    ensures forall j :: 0 <= j < |s| && WeightUpTo(s, j) <= t < WeightUpTo(s, j + 1) ==> s[j] == s[i]
  {
    ExpandBlock(s, |s|, i, t);
    forall j | 0 <= j < |s| && WeightUpTo(s, j) <= t < WeightUpTo(s, j + 1) ensures s[j] == s[i] {
      ExpandBlock(s, |s|, j, t);
    }
  }

  lemma {:induction false} UnitWeightUpTo(s: seq<Backend>, n: nat)
    requires UnitWeights(s) && n <= |s|
    ensures WeightUpTo(s, n) == n
  {
    if n > 0 {
      UnitWeightUpTo(s, n - 1);
      assert s[n - 1] in s;
    }
  }

  /** On weight-1 backends weighted round robin is round robin. */
  lemma UnitWeightedIsRoundRobin(s: seq<Backend>, ticket: nat, modulus: Modulus)
    requires UnitWeights(s) && |s| < modulus
    ensures TotalWeight(s) % modulus == |s|
    ensures WeightedPick(s, ticket, modulus) == RoundRobinPick(s, ticket)
  {
    UnitWeightUpTo(s, |s|);
    SmallMod(|s|, modulus);
    if |s| > 0 {
      var t := ticket % |s|;
      UnitWeightUpTo(s, t);
      UnitWeightUpTo(s, t + 1);
      ExpandBlock(s, |s|, t, t);
    }
  }

  class WeightedRoundRobin {
    const modulus: Modulus
    var index: nat

    constructor (modulus: Modulus)
      ensures this.modulus == modulus && index == 0
    {
      this.modulus := modulus;
      index := 0;
    }

    /** The wrapping sum that `total_weight` is. */
    method SumWeights(backends: BackendSet) returns (total: nat)
      ensures total == TotalWeight(backends) % modulus
    {
      total := 0;
      for i := 0 to |backends|
        invariant total == WeightUpTo(backends, i) % modulus
      {
        SumMod(WeightUpTo(backends, i), backends[i].weight, modulus);
        total := (total + backends[i].weight) % modulus;
      }
    }

    /** The scan never underflows `rest`, never runs off the end of the set, and lands on
        the backend that the expanded list holds at the reduced ticket. */
    method Select(backends: BackendSet) returns (r: Option<Backend>)
      modifies this`index
      ensures r == WeightedPick(backends, old(index), modulus)
      ensures r.Some? ==> r.value in backends && r.value.weight > 0
      ensures r.None? <==> TotalWeight(backends) % modulus == 0
      ensures r.Some? ==>
                var reduced := old(index) % (TotalWeight(backends) % modulus);
                forall i :: 0 <= i < |backends| ==>
                  WeightUpTo(backends, i) <= reduced < WeightUpTo(backends, i + 1) ==> r == Some(backends[i])
      ensures index == if r.None? then old(index) else (old(index) + 1) % modulus
    {
      var total := SumWeights(backends);
      if total == 0 {
        return None;
      }
      var rest: nat := index % total;
      ghost var ticket: nat := rest;
      assert ticket < total <= TotalWeight(backends) by {
        ModAtMost(TotalWeight(backends), modulus);
      }
      index := (index + 1) % modulus;
      for i := 0 to |backends|
        invariant rest + WeightUpTo(backends, i) == ticket
      {
        if rest < backends[i].weight {
          ScanHit(backends, i, ticket);
          r := Some(backends[i]);
          return;
        }
        rest := rest - backends[i].weight;
      }
      assert false;
    }
  }

  // ---------- Least connections ----------

  /** The count of an address; absent means 0. */
  function Count(connections: Connections, addr: SocketAddr): nat {
    if addr in connections then connections[addr] else 0
  }

  function Incremented(connections: Connections, addr: SocketAddr, modulus: Modulus): Connections {
    connections[addr := (Count(connections, addr) + 1) % modulus]
  }

  function Decremented(connections: Connections, addr: SocketAddr): Connections {
    if addr in connections && connections[addr] > 0
    then connections[addr := connections[addr] - 1]
    else connections
  }

  /** The position `min_by_key` settles on among the first `n` backends: the first of
      those with the smallest count. */
  function LeastIndex(connections: Connections, s: seq<Backend>, n: nat): (k: nat)
    requires 0 < n <= |s|
    ensures k < n
    ensures forall j :: 0 <= j < n ==> Count(connections, s[k].addr) <= Count(connections, s[j].addr)
    ensures forall j :: 0 <= j < k ==> Count(connections, s[k].addr) < Count(connections, s[j].addr)
  {
    if n == 1 then 0
    else
      var k := LeastIndex(connections, s, n - 1);
      if Count(connections, s[n - 1].addr) < Count(connections, s[k].addr) then n - 1 else k
  }

  /** What least connections answers over a loaded count map. */
  function LeastPick(connections: Connections, s: seq<Backend>): (r: Option<Backend>)
    ensures r.None? <==> |s| == 0
    ensures r.Some? ==> r.value in s
  {
    if |s| == 0 then None else Some(s[LeastIndex(connections, s, |s|)])
  }

  /** `b` is preferred to `c`: a smaller count, or an equal one and an earlier place. */
  ghost predicate Preferred(m: Connections, b: Backend, c: Backend) {
    || Count(m, b.addr) < Count(m, c.addr)
    || (Count(m, b.addr) == Count(m, c.addr) && (b == c || Less(b, c)))
  }

  ghost predicate Least(m: Connections, s: seq<Backend>, b: Backend) {
    b in s && forall c :: c in s ==> Preferred(m, b, c)
  }

  /** The choice is the one backend preferred to all others; it depends on the elements of
      the set and the counts alone. */
  lemma LeastPickIff(m: Connections, s: BackendSet, b: Backend)
    ensures LeastPick(m, s) == Some(b) <==> Least(m, s, b)
  {
    if |s| > 0 {
      var k := LeastIndex(m, s, |s|);
      forall c | c in s ensures Preferred(m, s[k], c) {
        var j :| 0 <= j < |s| && s[j] == c;
        assert k < j ==> Less(s[k], s[j]);
      }
      if Least(m, s, b) {
        assert Preferred(m, b, s[k]) && Preferred(m, s[k], b);
      }
    }
  }

  /** Ties go to the lowest IP address, and there to the lowest port. */
  lemma TieGoesToLowest(m: Connections, s: BackendSet, b: Backend, c: Backend)
    requires LeastPick(m, s) == Some(b) && c in s && Count(m, c.addr) <= Count(m, b.addr)
    ensures b.addr.ip <= c.addr.ip
    ensures b.addr.ip == c.addr.ip ==> b.addr.port <= c.addr.port
  {
    LeastPickIff(m, s, b);
    assert Preferred(m, b, c);
  }

  class LeastConnections {
    const modulus: Modulus
    var connections: Connections

    constructor (modulus: Modulus)
      ensures this.modulus == modulus && connections == map[]
    {
      this.modulus := modulus;
      connections := map[];
    }

    /** An uncontended `increment`; module `Rcu` has the contended one. */
    method Increment(addr: SocketAddr)
      modifies this`connections
      ensures connections == Incremented(old(connections), addr, modulus)
      ensures addr in connections
      ensures connections[addr] == ((if addr in old(connections) then old(connections)[addr] else 0) + 1) % modulus
      ensures forall a :: a != addr ==> Count(connections, a) == Count(old(connections), a)
    {
      var count := if addr in connections then connections[addr] else 0;
      connections := connections[addr := (count + 1) % modulus];
    }

    method Decrement(addr: SocketAddr)
      modifies this`connections
      ensures connections == Decremented(old(connections), addr)
      ensures connections.Keys == old(connections).Keys
      ensures addr in connections && old(connections)[addr] > 0 ==> connections[addr] == old(connections)[addr] - 1
      ensures addr in connections && old(connections)[addr] == 0 ==> connections[addr] == 0
      ensures forall a :: a != addr ==> Count(connections, a) == Count(old(connections), a)
    {
      if addr in connections {
        var count := connections[addr];
        if count > 0 {
          connections := connections[addr := count - 1];
        }
      }
    }

    method Select(backends: BackendSet) returns (r: Option<Backend>)
      ensures r == LeastPick(connections, backends)
      ensures forall b :: r == Some(b) <==> Least(connections, backends, b)
    {
      r := LeastPick(connections, backends);
      forall b ensures r == Some(b) <==> Least(connections, backends, b) {
        LeastPickIff(connections, backends, b);
      }
    }
  }

  // ---------- Random ----------

  class Random {
    constructor () {}

    /** Every draw below the length answers the element at that place, so that any element may
        come out, and nothing else may. */
    method Select(backends: BackendSet, draw: nat) returns (r: Option<Backend>)
      ensures r.None? <==> |backends| == 0
      ensures r.Some? ==> r.value in backends
      ensures draw < |backends| ==> r == Some(backends[draw])
    {
      if |backends| == 0 {
        return None;
      }
      var index := draw % |backends|;
      r := Some(backends[index]);
    }
  }
}
