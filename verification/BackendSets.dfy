/**
  Backends, their derived order, and the ordered set (`BTreeSet`) that holds them.

  An ordered set is its iteration sequence, which is strictly increasing. `SameElements`
  shows that nothing is lost by that: the sequence is determined by the elements.
 */
module BackendSets {

  /** An address, ordered by `ip`, then `port`, then `zone`. `ip` is the rank of the IP
      address among all IP addresses, IPv4 before IPv6; `zone` ranks the flow label and the
      scope id of an IPv6 address and is 0 when there are none. */
  datatype SocketAddr = SocketAddr(ip: nat, port: nat, zone: nat)

  datatype Backend = Backend(addr: SocketAddr, weight: nat)

  predicate AddrLess(a: SocketAddr, b: SocketAddr) {
    || a.ip < b.ip
    || (a.ip == b.ip && a.port < b.port)
    || (a.ip == b.ip && a.port == b.port && a.zone < b.zone)
  }

  /** The derived order of `Backend`: by address, then by weight. */
  predicate Less(a: Backend, b: Backend) {
    AddrLess(a.addr, b.addr) || (a.addr == b.addr && a.weight < b.weight)
  }

  predicate StrictlySorted(s: seq<Backend>) {
    forall i, j :: 0 <= i < j < |s| ==> Less(s[i], s[j])
  }

  type BackendSet = s: seq<Backend> | StrictlySorted(s)

  ghost function Elems(s: seq<Backend>): set<Backend> {
    set b | b in s
  }

  ghost function Addrs(s: seq<Backend>): set<SocketAddr> {
    set b | b in s :: b.addr
  }

  ghost function AddrSet(addrs: seq<SocketAddr>): set<SocketAddr> {
    set a | a in addrs
  }

  /** The backends that discovery builds from a set of addresses: one each, of weight 1. */
  ghost function UnitBackends(addrs: set<SocketAddr>): set<Backend> {
    set a | a in addrs :: Backend(a, 1)
  }

  ghost predicate UnitWeights(s: seq<Backend>) {
    forall b :: b in s ==> b.weight == 1
  }

  ghost predicate DistinctAddrs(s: seq<Backend>) {
    forall i, j :: 0 <= i < j < |s| ==> s[i].addr != s[j].addr
  }

  /** `BTreeSet::insert`: a no-op when an equal element is present. */
  function Insert(s: BackendSet, b: Backend): (r: BackendSet)
    ensures forall x :: x in r <==> x in s || x == b
  {
    if |s| == 0 then [b]
    else if b == s[0] then s
    else if Less(b, s[0]) then [b] + s
    else
      var rest := Insert(s[1..], b);
      assert forall x :: x in s[1..] ==> Less(s[0], x);
      assert forall x :: x in rest ==> x in s[1..] || x == b;
      [s[0]] + rest
  }

  /** `BTreeSet::retain` with the predicate that drops one address. */
  function WithoutAddr(s: BackendSet, addr: SocketAddr): (r: BackendSet)
    ensures forall b :: b in r <==> b in s && b.addr != addr
  {
    if |s| == 0 then []
    else
      var rest := WithoutAddr(s[1..], addr);
      assert forall x :: x in s <==> x == s[0] || x in s[1..];
      assert forall x :: x in s[1..] ==> Less(s[0], x);
      if s[0].addr == addr then rest else [s[0]] + rest
  }

  /** Mapping addresses to weight-1 backends and collecting them into a set. */
  function FromAddrs(addrs: seq<SocketAddr>): (r: BackendSet)
    ensures Elems(r) == UnitBackends(AddrSet(addrs))
  {
    if |addrs| == 0 then []
    else
      var n := |addrs| - 1;
      var rest := FromAddrs(addrs[..n]);
      assert addrs == addrs[..n] + [addrs[n]];
      assert forall x :: x in rest <==> x in Elems(rest);
      Insert(rest, Backend(addrs[n], 1))
  }

  /** The sequence that represents a set is unique. */
  lemma {:induction false} SameElements(s: BackendSet, t: BackendSet)
    requires Elems(s) == Elems(t)
    ensures s == t
  {
    assert |s| == 0 <==> |t| == 0 by {
      if |s| > 0 { assert s[0] in Elems(t); }
      if |t| > 0 { assert t[0] in Elems(s); }
    }
    if |s| > 0 {
      assert s[0] in Elems(t) && t[0] in Elems(s);
      assert s[0] == t[0];
      assert Elems(s[1..]) == Elems(s) - {s[0]};
      assert Elems(t[1..]) == Elems(t) - {t[0]};
      SameElements(s[1..], t[1..]);
    }
  }

  /** Along a set IP addresses never fall, at one IP address ports never fall, at one port
      zones never fall, and at one address weights rise. */
  lemma InAddrOrder(s: BackendSet, i: nat, j: nat)
    requires i < j < |s|
    ensures s[i].addr.ip <= s[j].addr.ip
    ensures s[i].addr.ip == s[j].addr.ip ==> s[i].addr.port <= s[j].addr.port
    ensures s[i].addr.ip == s[j].addr.ip && s[i].addr.port == s[j].addr.port ==>
              s[i].addr.zone <= s[j].addr.zone
    ensures s[i].addr == s[j].addr ==> s[i].weight < s[j].weight
  {
    assert Less(s[i], s[j]);
  }

  /** The elements that come before `b`. */
  ghost function Before(s: seq<Backend>, b: Backend): set<Backend> {
    set x | x in s && Less(x, b)
  }

  lemma BeforeIff(s: BackendSet, j: nat, k: nat)
    requires j < |s| && k < |s|
    ensures Less(s[j], s[k]) <==> j < k
  {
    assert k < j ==> Less(s[k], s[j]);
  }

  lemma BeforeNext(s: BackendSet, k: nat)
    requires 0 < k < |s|
    ensures Before(s, s[k]) == Before(s, s[k - 1]) + {s[k - 1]} && s[k - 1] !in Before(s, s[k - 1])
  {
    forall x | x in s ensures Less(x, s[k]) <==> Less(x, s[k - 1]) || x == s[k - 1] {
      var j :| 0 <= j < |s| && s[j] == x;
      BeforeIff(s, j, k);
      BeforeIff(s, j, k - 1);
    }
  }

  /** A position is the number of smaller elements. */
  lemma {:induction false} Rank(s: BackendSet, k: nat)
    requires k < |s|
    ensures |Before(s, s[k])| == k
  {
    if k > 0 {
      BeforeNext(s, k);
      Rank(s, k - 1);
    } else {
      forall j | 0 <= j < |s| ensures !Less(s[j], s[0]) {
        BeforeIff(s, j, 0);
      }
      assert Before(s, s[0]) == {};
    }
  }

  /** A set of weight-1 backends has at most one backend for an address. */
  lemma UnitWeightsDistinctAddrs(s: BackendSet)
    requires UnitWeights(s)
    ensures DistinctAddrs(s)
  {
    forall i, j | 0 <= i < j < |s| ensures s[i].addr != s[j].addr {
      assert Less(s[i], s[j]) && s[i] in s && s[j] in s;
    }
  }

  /** Backends that share an address are neighbours in the set. */
  lemma SharedAddrAdjacent(s: BackendSet, i: nat, j: nat)
    requires i < j < |s| && s[i].addr == s[j].addr
    ensures s[i + 1].addr == s[i].addr
  {
    assert i + 1 < j ==> Less(s[i], s[i + 1]) && Less(s[i + 1], s[j]);
  }
}
