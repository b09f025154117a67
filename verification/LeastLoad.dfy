/**
  What the least-connections choice means, and when it amounts to round robin.
 */
module LeastLoad {
  import opened BackendSets
  import opened Division
  import opened Selection
  import opened Wrappers

  /** A choice survives the removal of other backends. */
  lemma ChoiceSurvivesSubset(m: Connections, s: BackendSet, t: BackendSet, b: Backend)
    requires Elems(t) <= Elems(s) && b in t
    requires LeastPick(m, s) == Some(b)
    ensures LeastPick(m, t) == Some(b)
  {
    LeastPickIff(m, s, b);
    LeastPickIff(m, t, b);
    forall c | c in t ensures c in s {
      assert c in Elems(t);
    }
  }

  /** Choosing from a union is choosing between the two choices. */
  lemma ChoiceOfUnion(m: Connections, s: BackendSet, t: BackendSet, union: BackendSet, finalists: BackendSet)
    requires |s| > 0 && |t| > 0
    requires Elems(union) == Elems(s) + Elems(t)
    requires Elems(finalists) == {LeastPick(m, s).value, LeastPick(m, t).value}
    ensures LeastPick(m, union) == LeastPick(m, finalists)
  {
    var b, c := LeastPick(m, s).value, LeastPick(m, t).value;
    LeastPickIff(m, s, b);
    LeastPickIff(m, t, c);
    assert b in Elems(finalists) && c in Elems(finalists);
    assert |finalists| > 0;
    var d := LeastPick(m, finalists).value;
    LeastPickIff(m, finalists, d);
    assert d in Elems(finalists);
    forall e | e in union ensures Preferred(m, d, e) {
      assert e in Elems(union);
      assert Preferred(m, d, b) && Preferred(m, d, c);
      assert Preferred(m, b, e) || Preferred(m, c, e);
    }
    assert d in Elems(union);
    LeastPickIff(m, union, d);
  }

  // ---------- Select, then increment, over and over ----------

  /** The count map after `n` rounds of a select followed by the increment of the chosen
      address, from the empty map. */
  ghost function AfterRounds(s: seq<Backend>, n: nat, modulus: Modulus): Connections {
    if n == 0 then map[]
    else
      var m := AfterRounds(s, n - 1, modulus);
      match LeastPick(m, s)
      case None => m
      case Some(b) => Incremented(m, b.addr, modulus)
  }

  /** The first `r` backends have `q + 1` connections and the others `q`. */
  ghost predicate Filled(m: Connections, s: seq<Backend>, q: nat, r: nat) {
    forall i :: 0 <= i < |s| ==> Count(m, s[i].addr) == q + (if i < r then 1 else 0)
  }

  lemma FilledPick(m: Connections, s: BackendSet, q: nat, r: nat)
    requires r < |s| && Filled(m, s, q, r)
    ensures LeastPick(m, s) == Some(s[r])
  {
    var k := LeastIndex(m, s, |s|);
    assert Count(m, s[k].addr) <= Count(m, s[r].addr);
  }

  lemma FilledNext(m: Connections, s: BackendSet, q: nat, r: nat, modulus: Modulus)
    requires r < |s| && DistinctAddrs(s) && Filled(m, s, q, r) && q + 1 < modulus
    ensures
      var next := Incremented(m, s[r].addr, modulus);
      if r + 1 < |s| then Filled(next, s, q, r + 1) else Filled(next, s, q + 1, 0)
  {
    SmallMod(q + 1, modulus);
    forall i | 0 <= i < |s| && i != r ensures s[i].addr != s[r].addr {}
  }

  /** The state of the rounds after `n` of them. */
  ghost predicate InOrder(s: seq<Backend>, n: nat, modulus: Modulus)
    requires |s| > 0
  {
    Filled(AfterRounds(s, n, modulus), s, n / |s|, n % |s|)
  }

  lemma FilledAfter(m: Connections, s: BackendSet, n: nat, modulus: Modulus)
    requires |s| > 0 && DistinctAddrs(s) && n + 1 < modulus
    requires Filled(m, s, n / |s|, n % |s|)
    ensures Filled(Incremented(m, s[n % |s|].addr, modulus), s, (n + 1) / |s|, (n + 1) % |s|)
  {
    NextRound(n, |s|);
    QuotientAtMost(n, |s|);
    FilledNext(m, s, n / |s|, n % |s|, modulus);
  }

  lemma NextRoundCounts(s: BackendSet, n: nat, b: Backend, modulus: Modulus)
    requires LeastPick(AfterRounds(s, n, modulus), s) == Some(b)
    ensures AfterRounds(s, n + 1, modulus) == Incremented(AfterRounds(s, n, modulus), b.addr, modulus)
  {}

  lemma NextInOrder(s: BackendSet, n: nat, modulus: Modulus)
    requires |s| > 0 && DistinctAddrs(s) && n + 1 < modulus && InOrder(s, n, modulus)
    ensures InOrder(s, n + 1, modulus)
  {
    FilledPick(AfterRounds(s, n, modulus), s, n / |s|, n % |s|);
    FilledAfter(AfterRounds(s, n, modulus), s, n, modulus);
    NextRoundCounts(s, n, s[n % |s|], modulus);
  }

  lemma StartInOrder(s: BackendSet, modulus: Modulus)
    requires |s| > 0
    ensures InOrder(s, 0, modulus)
  {
    SmallMod(0, |s|);
  }

  lemma {:induction false} AlwaysInOrder(s: BackendSet, n: nat, modulus: Modulus)
    requires |s| > 0 && DistinctAddrs(s) && n < modulus
    ensures InOrder(s, n, modulus)
  {
    if n > 0 {
      AlwaysInOrder(s, n - 1, modulus);
      NextInOrder(s, n - 1, modulus);
    } else {
      StartInOrder(s, modulus);
    }
  }

  /** After `n` rounds the first `n % len` backends are one ahead of the others, and the
      next choice is the one after them. */
  lemma RoundsFillInOrder(s: BackendSet, n: nat, modulus: Modulus)
    requires |s| > 0 && DistinctAddrs(s) && n < modulus
    ensures Filled(AfterRounds(s, n, modulus), s, n / |s|, n % |s|)
    ensures LeastPick(AfterRounds(s, n, modulus), s) == Some(s[n % |s|])
  {
    AlwaysInOrder(s, n, modulus);
    FilledPick(AfterRounds(s, n, modulus), s, n / |s|, n % |s|);
  }

  lemma NextRound(n: nat, len: Modulus)
    ensures n % len + 1 < len ==> (n + 1) / len == n / len && (n + 1) % len == n % len + 1
    ensures n % len + 1 == len ==> (n + 1) / len == n / len + 1 && (n + 1) % len == 0
  {
    DivMod(n, len);
    assert len * (n / len + 1) == len * (n / len) + len;
    if n % len + 1 < len {
      DivModUnique(n + 1, len, n / len, n % len + 1);
    } else {
      DivModUnique(n + 1, len, n / len + 1, 0);
    }
  }

  /** A backend that shares the address of the one before it is never chosen. */
  lemma SecondAtAddrNeverChosen(m: Connections, s: BackendSet, i: nat)
    requires i + 1 < |s| && s[i].addr == s[i + 1].addr
    ensures LeastPick(m, s) != Some(s[i + 1])
  {
    assert Less(s[i], s[i + 1]);
    LeastPickIff(m, s, s[i + 1]);
    assert !Preferred(m, s[i + 1], s[i]) && s[i] in s;
  }

  lemma SharedAddrBreaksRoundRobin(s: BackendSet, i: nat, j: nat, modulus: Modulus)
    requires i < j < |s| && s[i].addr == s[j].addr
    ensures LeastPick(AfterRounds(s, i + 1, modulus), s) != RoundRobinPick(s, i + 1)
  {
    SharedAddrAdjacent(s, i, j);
    SmallMod(i + 1, |s|);
    SecondAtAddrNeverChosen(AfterRounds(s, i + 1, modulus), s, i);
  }

  /** Least connections, driven by select and increment alone, is round robin from index 0
      exactly on the sets in which no two backends share an address. */
  lemma LeastConnectionsIsRoundRobinIff(s: BackendSet, modulus: Modulus)
    requires |s| < modulus
    ensures (forall n :: 0 <= n < modulus ==> LeastPick(AfterRounds(s, n, modulus), s) == RoundRobinPick(s, n))
       <==> DistinctAddrs(s)
  {
    if DistinctAddrs(s) {
      forall n | 0 <= n < modulus
        ensures LeastPick(AfterRounds(s, n, modulus), s) == RoundRobinPick(s, n)
      {
        if |s| > 0 {
          RoundsFillInOrder(s, n, modulus);
        }
      }
    } else {
      var i, j :| 0 <= i < j < |s| && s[i].addr == s[j].addr;
      SharedAddrBreaksRoundRobin(s, i, j, modulus);
    }
  }
}
