/**
  How evenly the two round robins spread a run of tickets, exactly, across any window of
  the ticket counter and across its wraparound.
 */
module Fairness {
  import opened BackendSets
  import opened Division
  import opened Selection
  import opened Wrappers

  function Abs(x: int): nat {
    if x < 0 then -x else x
  }

  // ---------- Tickets that fall in a block of residues ----------

  /** Ticket `j` of a run that starts at `start`. */
  function Ticket(start: nat, j: nat, modulus: Modulus): nat {
    (start + j) % modulus
  }

  lemma TicketShift(start: nat, first: nat, j: nat, modulus: Modulus)
    ensures Ticket(Ticket(start, first, modulus), j, modulus) == Ticket(start, first + j, modulus)
  {
    SumMod(start + first, j, modulus);
  }

  lemma TicketInjective(start: nat, i: nat, j: nat, modulus: Modulus)
    requires i < modulus && j < modulus && Ticket(start, i, modulus) == Ticket(start, j, modulus)
    ensures i == j
  {
    DivMod(start + i, modulus);
    DivMod(start + j, modulus);
    Distribute(modulus, (start + i) / modulus, (start + j) / modulus);
    NonzeroMultiple(modulus, (start + i) / modulus - (start + j) / modulus);
  }

  /** How often the counter wraps between the first and the last of `n` tickets. */
  function Wraps(start: nat, n: nat, modulus: Modulus): nat {
    if n == 0 then 0 else (start + n - 1) / modulus
  }

  /** A block of `width` residues from `low` on, modulo `period`. */
  datatype Block = Block(low: nat, width: nat, period: Modulus) {
    ghost predicate Valid() { low + width <= period }
    predicate Has(x: nat) { low <= x % period < low + width }
  }

  /** How many of `n` consecutive tickets fall in the block. */
  ghost function Hits(k: Block, modulus: Modulus, start: nat, n: nat): nat {
    if n == 0 then 0
    else Hits(k, modulus, start, n - 1) + (if k.Has(Ticket(start, n - 1, modulus)) then 1 else 0)
  }

  function Clamp(x: int, top: nat): nat {
    if x < 0 then 0 else if x > top then top else x
  }

  /** How many numbers below `x` are in the block, in closed form. */
  ghost function Below(k: Block, x: nat): nat {
    k.width * (x / k.period) + Clamp(x % k.period - k.low, k.width)
  }

  lemma BelowStep(k: Block, x: nat)
    requires k.Valid()
    ensures Below(k, x + 1) == Below(k, x) + (if k.Has(x) then 1 else 0)
  {
    DivMod(x, k.period);
    var q, r := x / k.period, x % k.period;
    if r + 1 < k.period {
      DivModUnique(x + 1, k.period, q, r + 1);
    } else {
      assert k.period * (q + 1) == k.period * q + k.period;
      DivModUnique(x + 1, k.period, q + 1, 0);
      assert k.width * (q + 1) == k.width * q + k.width;
    }
  }

  /** Without a wrap, or when the period divides the modulus and so hides it. */
  lemma {:induction false} HitsClosedForm(k: Block, modulus: Modulus, start: nat, n: nat)
    requires k.Valid()
    requires start + n <= modulus || modulus % k.period == 0
    ensures Hits(k, modulus, start, n) == Below(k, start + n) - Below(k, start)
  {
    if n > 0 {
      HitsClosedForm(k, modulus, start, n - 1);
      ModOfMod(start + n - 1, modulus, k.period);
      BelowStep(k, start + n - 1);
    }
  }

  /** `Below` tracks the line of slope width / period to within one sawtooth, whose height
      is `width * (period - width)` on the scale of the period. */
  lemma Sawtooth(k: Block, x: nat)
    requires k.Valid()
    ensures -(k.low * k.width)
         <= k.period * Below(k, x) - x * k.width
         <= k.width * (k.period - k.width) - k.low * k.width
  {
    var p, w, lo := k.period, k.width, k.low;
    var q, r := x / p, x % p;
    DivMod(x, p);
    var c := Clamp(r - lo, w);
    assert p * Below(k, x) - x * w == p * c - r * w by {
      assert p * (w * q + c) == p * (w * q) + p * c;
      assert p * (w * q) == (p * q) * w;
      assert (p * q + r) * w == (p * q) * w + r * w;
    }
    SawtoothBounds(p, w, lo, r);
  }

  lemma SawtoothBounds(p: nat, w: nat, lo: nat, r: nat)
    requires lo + w <= p && r < p
    ensures -(lo * w) <= p * Clamp(r - lo, w) - r * w <= w * (p - w) - lo * w
  {
    if r <= lo {
      BeforeBlock(p, w, lo, r);
    } else if r <= lo + w {
      InsideBlock(p, w, lo, r - lo);
    } else {
      AfterBlock(p, w, lo, r);
    }
  }

  lemma BeforeBlock(p: int, w: int, lo: int, r: int)
    requires 0 <= r <= lo && 0 <= w && lo + w <= p
    ensures -(lo * w) <= -(r * w) <= w * (p - w) - lo * w
  {
    Distribute(w, lo, r);
    NonNegative(w, lo - r);
    NonNegative(r, w);
    Distribute(w, p - w, lo);
    NonNegative(w, p - w - lo);
  }

  lemma InsideBlock(p: int, w: int, lo: int, u: int)
    requires 0 <= u <= w <= p
    ensures -(lo * w) <= p * u - (lo + u) * w <= w * (p - w) - lo * w
  {
    Distribute(w, lo + u, u);
    Distribute(u, p, w);
    NonNegative(u, p - w);
    Distribute(p - w, w, u);
    NonNegative(p - w, w - u);
  }

  lemma AfterBlock(p: int, w: int, lo: int, r: int)
    requires 0 <= lo && 0 <= w && lo + w <= r <= p
    ensures -(lo * w) <= p * w - r * w <= w * (p - w) - lo * w
  {
    Distribute(w, p, r);
    NonNegative(w, p - r);
    NonNegative(lo, w);
    Distribute(w, p - w, lo);
    Distribute(w, p - w - lo, p - r);
    NonNegative(w, r - w - lo);
  }

  /** The deviation from the proportional share, on the scale of the period. */
  ghost function Deviation(k: Block, modulus: Modulus, start: nat, n: nat): int {
    k.period * Hits(k, modulus, start, n) - n * k.width
  }

  ghost function ToothHeight(k: Block): int {
    k.width * (k.period - k.width)
  }

  lemma WindowDeviation(k: Block, modulus: Modulus, start: nat, n: nat)
    requires k.Valid()
    requires start + n <= modulus || modulus % k.period == 0
    ensures Abs(Deviation(k, modulus, start, n)) <= ToothHeight(k)
  {
    HitsClosedForm(k, modulus, start, n);
    Sawtooth(k, start);
    Sawtooth(k, start + n);
    BetweenTeeth(k.period, k.width, k.low * k.width, ToothHeight(k),
                 Below(k, start), start, Below(k, start + n), start + n);
  }

  lemma BetweenTeeth(p: int, w: int, low: int, height: int, a: int, x: int, b: int, y: int)
    requires -low <= p * a - x * w <= height - low && -low <= p * b - y * w <= height - low
    ensures Abs(p * (b - a) - (y - x) * w) <= height
  {
    Distribute(p, b, a);
    Distribute(w, y, x);
  }

  /** Whole periods hit the block exactly `width` times each. */
  lemma WholePeriods(k: Block, modulus: Modulus, start: nat, n: nat)
    requires k.Valid() && n % k.period == 0
    requires start + n <= modulus || modulus % k.period == 0
    ensures Hits(k, modulus, start, n) == k.width * (n / k.period)
  {
    HitsClosedForm(k, modulus, start, n);
    var p, w, q := k.period, k.width, n / k.period;
    DivMod(n, p);
    DivMod(start, p);
    Distribute(p, start / p + q, start / p);
    Distribute(w, start / p + q, start / p);
    DivModUnique(start + n, p, start / p + q, start % p);
  }

  lemma {:induction false} HitsSplit(k: Block, modulus: Modulus, start: nat, m: nat, n: nat)
    ensures Hits(k, modulus, start, m + n) == Hits(k, modulus, start, m) + Hits(k, modulus, start + m, n)
  {
    if n > 0 {
      HitsSplit(k, modulus, start, m, n - 1);
    }
  }

  lemma AfterWrap(j: nat, modulus: Modulus)
    ensures (modulus + j) % modulus == j % modulus && (modulus + j) / modulus == j / modulus + 1
  {
    DivMod(j, modulus);
    Distribute(modulus, j / modulus + 1, 1);
    DivModUnique(modulus + j, modulus, j / modulus + 1, j % modulus);
  }

  lemma {:induction false} HitsAfterWrap(k: Block, modulus: Modulus, n: nat)
    ensures Hits(k, modulus, modulus, n) == Hits(k, modulus, 0, n)
  {
    if n > 0 {
      HitsAfterWrap(k, modulus, n - 1);
      AfterWrap(n - 1, modulus);
    }
  }

  /** A run that wraps is a first stretch up to the wrap and a run from ticket 0. */
  lemma FirstStretch(k: Block, modulus: Modulus, start: nat, n: nat)
    requires start < modulus < start + n
    ensures var m := modulus - start;
            && Wraps(start, n, modulus) == Wraps(0, n - m, modulus) + 1
            && Hits(k, modulus, start, n) == Hits(k, modulus, start, m) + Hits(k, modulus, 0, n - m)
  {
    var m := modulus - start;
    HitsSplit(k, modulus, start, m, n - m);
    HitsAfterWrap(k, modulus, n - m);
    AfterWrap(n - m - 1, modulus);
  }

  lemma NoWraps(modulus: Modulus, start: nat, n: nat)
    requires start < modulus
    ensures Wraps(start, n, modulus) == 0 <==> start + n <= modulus
  {
    if n > 0 {
      DivMod(start + n - 1, modulus);
      if start + n <= modulus {
        SmallMod(start + n - 1, modulus);
      }
    }
  }

  lemma {:induction false} WrappedDeviation(k: Block, modulus: Modulus, start: nat, n: nat)
    requires k.Valid() && start < modulus
    ensures Abs(Deviation(k, modulus, start, n)) <= (Wraps(start, n, modulus) + 1) * ToothHeight(k)
    decreases n
  {
    NoWraps(modulus, start, n);
    var r := Wraps(start, n, modulus);
    if start + n <= modulus {
      WindowDeviation(k, modulus, start, n);
    } else {
      var m := modulus - start;
      FirstStretch(k, modulus, start, n);
      WindowDeviation(k, modulus, start, m);
      WrappedDeviation(k, modulus, 0, n - m);
      AddDeviations(k.period, k.width, Hits(k, modulus, start, m), m,
                    Hits(k, modulus, 0, n - m), n - m, ToothHeight(k), r);
    }
  }

  lemma AddDeviations(p: int, w: int, a: int, m: int, b: int, n: int, height: int, r: int)
    requires Abs(p * a - m * w) <= height && Abs(p * b - n * w) <= r * height
    ensures Abs(p * (a + b) - (m + n) * w) <= (r + 1) * height
  {
    Distribute(p, a + b, a);
    Distribute(w, m + n, m);
    Distribute(height, r + 1, 1);
  }

  /** `count` is `n / p`, rounded down or up. */
  predicate Rounded(count: nat, n: nat, p: Modulus) {
    count == n / p || (count == n / p + 1 && n % p != 0)
  }

  /** For a block of one residue the deviation bound is rounding down or up. */
  lemma FloorOrCeiling(p: Modulus, hits: nat, n: nat)
    requires Abs(p * hits - n) <= p - 1
    ensures Rounded(hits, n, p)
  {
    DivMod(n, p);
    var d := hits - n / p;
    assert p * d == p * hits - p * (n / p);
    if d <= -1 {
      assert p * (d + 1) == p * d + p;
      NonzeroMultiple(p, d);
    }
    NonzeroMultiple(p, d - 1);
    assert p * (d - 1) == p * d - p;
  }

  lemma {:induction false} UnitBlocksDiffer(j: Block, k: Block, modulus: Modulus, start: nat, n: nat)
    requires j.Valid() && k.Valid() && j.width == k.width == 1 && j.period == k.period
    requires start < modulus
    ensures Abs(Hits(j, modulus, start, n) - Hits(k, modulus, start, n)) <= Wraps(start, n, modulus) + 1
    decreases n
  {
    NoWraps(modulus, start, n);
    var m := if start + n <= modulus then n else modulus - start;
    WindowDeviation(j, modulus, start, m);
    WindowDeviation(k, modulus, start, m);
    FloorOrCeiling(k.period, Hits(j, modulus, start, m), m);
    FloorOrCeiling(k.period, Hits(k, modulus, start, m), m);
    if m < n {
      FirstStretch(j, modulus, start, n);
      FirstStretch(k, modulus, start, n);
      UnitBlocksDiffer(j, k, modulus, 0, n - m);
    }
  }

  // ---------- Round robin over a fixed set ----------

  /** The answers to `n` consecutive tickets. */
  ghost function RoundRobinRun(s: seq<Backend>, modulus: Modulus, start: nat, n: nat): seq<Option<Backend>> {
    seq(n, j requires 0 <= j < n => RoundRobinPick(s, Ticket(start, j, modulus)))
  }

  /** How often a run of answers names `b`. */
  ghost function Share(run: seq<Option<Backend>>, b: Backend): nat {
    multiset(run)[Some(b)]
  }

  lemma ShareStep(run: seq<Option<Backend>>, b: Backend)
    requires |run| > 0
    ensures Share(run, b) == Share(run[..|run| - 1], b) + (if run[|run| - 1] == Some(b) then 1 else 0)
  {
    assert run == run[..|run| - 1] + [run[|run| - 1]];
  }

  lemma {:induction false} RoundRobinHits(s: BackendSet, i: nat, modulus: Modulus, start: nat, n: nat)
    requires i < |s|
    ensures Share(RoundRobinRun(s, modulus, start, n), s[i]) == Hits(Block(i, 1, |s|), modulus, start, n)
  {
    if n > 0 {
      RoundRobinHits(s, i, modulus, start, n - 1);
      var run := RoundRobinRun(s, modulus, start, n);
      assert run[..n - 1] == RoundRobinRun(s, modulus, start, n - 1);
      ShareStep(run, s[i]);
      PickNames(s, i, Ticket(start, n - 1, modulus));
    }
  }

  lemma PickNames(s: BackendSet, i: nat, t: nat)
    requires i < |s|
    ensures RoundRobinPick(s, t) == Some(s[i]) <==> Block(i, 1, |s|).Has(t)
  {
    var k := t % |s|;
    assert k < i ==> Less(s[k], s[i]);
    assert i < k ==> Less(s[i], s[k]);
  }

  /** A run of answers from ticket `start` on is spread as evenly over `s[i]` and `s[j]` as
      the wraps allow. */
  ghost predicate EvenlySpread(
    run: seq<Option<Backend>>, s: seq<Backend>, i: nat, j: nat, modulus: Modulus, start: nat)
    requires i < |s| && j < |s|
  {
    var r := Wraps(start, |run|, modulus);
    && Abs(Share(run, s[i]) - Share(run, s[j])) <= r + 1
    && (r == 0 || modulus % |s| == 0 ==> Rounded(Share(run, s[i]), |run|, |s|))
  }

  /** Even spread: over any run of tickets that does not show a wrap, every backend is
      chosen the rounded-down or the rounded-up number of times. Across `r` wraps the
      counts of two backends differ by at most `r + 1`. */
  lemma RoundRobinEvenSpread(s: BackendSet, i: nat, j: nat, modulus: Modulus, start: nat, n: nat)
    requires i < |s| && j < |s| && start < modulus
    ensures EvenlySpread(RoundRobinRun(s, modulus, start, n), s, i, j, modulus, start)
  {
    var a, b := Block(i, 1, |s|), Block(j, 1, |s|);
    RoundRobinHits(s, i, modulus, start, n);
    RoundRobinHits(s, j, modulus, start, n);
    UnitBlocksDiffer(a, b, modulus, start, n);
    NoWraps(modulus, start, n);
    if Wraps(start, n, modulus) == 0 || modulus % |s| == 0 {
      WindowDeviation(a, modulus, start, n);
      FloorOrCeiling(|s|, Hits(a, modulus, start, n), n);
    }
  }

  /** All shares of all runs, wherever they start and however often they wrap, are rounded
      exactly if the length of the set divides the modulus of the counter. */
  lemma WrapInvisibleIff(s: BackendSet, modulus: Modulus)
    requires |s| > 0
    ensures
      (forall i: nat, start: nat, n: nat :: i < |s| && start < modulus ==>
         Rounded(Share(RoundRobinRun(s, modulus, start, n), s[i]), n, |s|))
      <==> modulus % |s| == 0
  {
    if modulus % |s| == 0 {
      forall i: nat, start: nat, n: nat | i < |s| && start < modulus
        ensures Rounded(Share(RoundRobinRun(s, modulus, start, n), s[i]), n, |s|)
      {
        RoundRobinEvenSpread(s, i, i, modulus, start, n);
      }
    } else {
      var m := modulus % |s|;
      ModAtMost(modulus, |s|);
      WrapShows(s, modulus);
      assert !Rounded(Share(RoundRobinRun(s, modulus, modulus - m, m + 1), s[0]), m + 1, |s|);
    }
  }

  lemma {:induction false} AllHits(k: Block, modulus: Modulus, n: nat)
    requires k.Valid() && k.low + n <= modulus && n <= k.width
    ensures Hits(k, modulus, k.low, n) == n
  {
    if n > 0 {
      AllHits(k, modulus, n - 1);
      SmallMod(k.low + n - 1, modulus);
      SmallMod(k.low + n - 1, k.period);
    }
  }

  /** The tickets since the last multiple of the period and the first after the wrap hit a
      block at the start of the period as if there were no tickets left out between them. */
  lemma TailAndWrapHits(k: Block, modulus: Modulus)
    requires k.Valid() && k.low == 0 && k.width <= modulus && modulus % k.period <= modulus
    ensures var m := modulus % k.period;
            Hits(k, modulus, modulus - m, m + k.width) == Clamp(m, k.width) + k.width
  {
    var m := modulus % k.period;
    HitsSplit(k, modulus, modulus - m, m, k.width);
    HitsAfterWrap(k, modulus, k.width);
    AllHits(k, modulus, k.width);
    HitsClosedForm(k, modulus, modulus - m, m);
    DivMod(modulus, k.period);
    DivModUnique(modulus - m, k.period, modulus / k.period, 0);
  }

  lemma TwoOfFew(m: nat, p: Modulus)
    requires 0 < m < p
    ensures !Rounded(2, m + 1, p)
  {
    if m + 1 < p {
      SmallMod(m + 1, p);
    } else {
      DivModUnique(m + 1, p, 1, 0);
    }
  }

  /** The tickets since the last multiple of the length and the one after the wrap choose the
      first backend twice. */
  lemma WrapShows(s: BackendSet, modulus: Modulus)
    requires |s| > 0 && 0 < modulus % |s| <= modulus
    ensures
      var m := modulus % |s|;
      !Rounded(Share(RoundRobinRun(s, modulus, modulus - m, m + 1), s[0]), m + 1, |s|)
  {
    var m := modulus % |s|;
    DivMod(modulus, |s|);
    RoundRobinHits(s, 0, modulus, modulus - m, m + 1);
    TailAndWrapHits(Block(0, 1, |s|), modulus);
    TwoOfFew(m, |s|);
  }

  /** Where a wrap shows, `r` wraps can set two backends `r + 1` apart: all tickets, `r + 1`
      times over, do so for the first and the last. */
  lemma WrapDifferenceAttained(s: BackendSet, modulus: Modulus, r: nat, n: nat)
    requires |s| > 0 && modulus % |s| != 0 && n == (r + 1) * modulus
    ensures Wraps(0, n, modulus) == r
    ensures
      var run := RoundRobinRun(s, modulus, 0, n);
      Share(run, s[0]) - Share(run, s[|s| - 1]) == r + 1
  {
    RoundRobinHits(s, 0, modulus, 0, n);
    RoundRobinHits(s, |s| - 1, modulus, 0, n);
    RoundDiffers(|s|, modulus);
    FullRoundsDiffer(Block(0, 1, |s|), Block(|s| - 1, 1, |s|), modulus, r, n);
  }

  lemma FullRoundsDiffer(j: Block, k: Block, modulus: Modulus, r: nat, n: nat)
    requires Hits(j, modulus, 0, modulus) == Hits(k, modulus, 0, modulus) + 1 && n == (r + 1) * modulus
    ensures Wraps(0, n, modulus) == r
    ensures Hits(j, modulus, 0, n) == Hits(k, modulus, 0, n) + r + 1
  {
    FullRounds(j, modulus, r, n);
    FullRounds(k, modulus, r, n);
    OneApart(r + 1, Hits(j, modulus, 0, modulus), Hits(k, modulus, 0, modulus));
  }

  lemma OneApart(c: int, a: int, b: int)
    requires a == b + 1
    ensures c * a == c * b + c
  {}

  /** All tickets, `r + 1` times over, hit a block `r + 1` times as often as once over. */
  lemma {:induction false} FullRounds(k: Block, modulus: Modulus, r: nat, n: nat)
    requires n == (r + 1) * modulus
    ensures Wraps(0, n, modulus) == r
    ensures Hits(k, modulus, 0, n) == (r + 1) * Hits(k, modulus, 0, modulus)
  {
    OneMore(r, modulus);
    OneMore(r, Hits(k, modulus, 0, modulus));
    if r == 0 {
      NoWraps(modulus, 0, n);
    } else {
      ProductAtLeast(modulus, r);
      FullRounds(k, modulus, r - 1, n - modulus);
      FirstStretch(k, modulus, 0, n);
    }
  }

  lemma RoundDiffers(len: Modulus, modulus: Modulus)
    requires modulus % len != 0
    ensures Hits(Block(0, 1, len), modulus, 0, modulus) == Hits(Block(len - 1, 1, len), modulus, 0, modulus) + 1
  {
    DivMod(modulus, len);
    SmallMod(0, len);
    HitsClosedForm(Block(0, 1, len), modulus, 0, modulus);
    HitsClosedForm(Block(len - 1, 1, len), modulus, 0, modulus);
  }

  // ---------- Weighted round robin over a fixed set ----------

  ghost function WeightedRun(s: seq<Backend>, modulus: Modulus, start: nat, n: nat): seq<Option<Backend>> {
    seq(n, j requires 0 <= j < n => WeightedPick(s, Ticket(start, j, modulus), modulus))
  }

  /** The residues that choose backend `i`. */
  ghost function BlockOf(s: seq<Backend>, i: nat): Block
    requires i < |s| && TotalWeight(s) > 0
  {
    Block(WeightUpTo(s, i), s[i].weight, TotalWeight(s))
  }

  lemma BlockOfValid(s: seq<Backend>, i: nat)
    requires i < |s| && TotalWeight(s) > 0
    ensures BlockOf(s, i).Valid()
  {
    WeightUpToMonotone(s, i + 1, |s|);
  }

  lemma {:induction false} Owner(s: seq<Backend>, n: nat, t: nat) returns (k: nat)
    requires n <= |s| && t < WeightUpTo(s, n)
    ensures k < n && WeightUpTo(s, k) <= t < WeightUpTo(s, k + 1)
  {
    if t < WeightUpTo(s, n - 1) {
      k := Owner(s, n - 1, t);
    } else {
      k := n - 1;
    }
  }

  lemma OtherBlock(s: BackendSet, i: nat, k: nat, t: nat)
    requires i < |s| && k < |s| && i != k
    requires WeightUpTo(s, k) <= t < WeightUpTo(s, k + 1)
    ensures s[k] != s[i] && !(WeightUpTo(s, i) <= t < WeightUpTo(s, i + 1))
  {
    if k < i {
      assert Less(s[k], s[i]);
      WeightUpToMonotone(s, k + 1, i);
    } else {
      assert Less(s[i], s[k]);
      WeightUpToMonotone(s, i + 1, k);
    }
  }

  /** A position of the expanded list names `s[i]` exactly if it is in the block of `i`. */
  lemma ExpandNames(s: BackendSet, i: nat, t: nat)
    requires i < |s| && t < TotalWeight(s)
    ensures Expand(s)[t] == s[i] <==> BlockOf(s, i).Has(t)
  {
    SmallMod(t, TotalWeight(s));
    var k := Owner(s, |s|, t);
    ExpandBlock(s, |s|, k, t);
    if k != i {
      OtherBlock(s, i, k, t);
    }
  }

  lemma {:induction false} WeightedHits(s: BackendSet, i: nat, modulus: Modulus, start: nat, n: nat)
    requires i < |s| && 0 < TotalWeight(s) < modulus
    ensures Share(WeightedRun(s, modulus, start, n), s[i]) == Hits(BlockOf(s, i), modulus, start, n)
  {
    if n > 0 {
      WeightedHits(s, i, modulus, start, n - 1);
      var run := WeightedRun(s, modulus, start, n);
      assert run[..n - 1] == WeightedRun(s, modulus, start, n - 1);
      ShareStep(run, s[i]);
      var total := TotalWeight(s);
      SmallMod(total, modulus);
      var t := Ticket(start, n - 1, modulus);
      DivMod(t, total);
      SmallMod(t % total, total);
      ExpandNames(s, i, t % total);
    }
  }

  /** Proportional share: over any `n` consecutive tickets the count of a backend of weight
      `w` out of a total `t` is within `w * (t - w) / t` of `n * w / t`, once per stretch
      between wraps, and it is exact when `t` divides `n` and no wrap shows. */
  lemma WeightedProportionalShare(s: BackendSet, i: nat, modulus: Modulus, start: nat, n: nat)
    requires i < |s| && 0 < TotalWeight(s) < modulus && start < modulus
    ensures
      var total, weight := TotalWeight(s), s[i].weight;
      var count := Share(WeightedRun(s, modulus, start, n), s[i]);
      var r := Wraps(start, n, modulus);
      && Abs(total * count - n * weight) <= (r + 1) * (weight * (total - weight))
      && (r == 0 || modulus % total == 0 ==>
            && Abs(total * count - n * weight) <= weight * (total - weight)
            && (n % total == 0 ==> count == weight * (n / total)))
  {
    var k := BlockOf(s, i);
    BlockOfValid(s, i);
    WeightedHits(s, i, modulus, start, n);
    WrappedDeviation(k, modulus, start, n);
    NoWraps(modulus, start, n);
    if Wraps(start, n, modulus) == 0 || modulus % TotalWeight(s) == 0 {
      WindowDeviation(k, modulus, start, n);
      if n % TotalWeight(s) == 0 {
        WholePeriods(k, modulus, start, n);
      }
    }
  }

  /** The bound on the proportional share cannot be improved: the window that covers just
      the block of a backend attains it. */
  lemma ProportionalShareTight(s: BackendSet, i: nat, modulus: Modulus)
    requires i < |s| && 0 < TotalWeight(s) < modulus
    ensures
      var total, weight, start := TotalWeight(s), s[i].weight, WeightUpTo(s, i);
      && start + weight <= modulus
      && total * Share(WeightedRun(s, modulus, start, weight), s[i]) - weight * weight == weight * (total - weight)
  {
    BlockWindow(s, i, modulus);
    AllOfBlock(TotalWeight(s), s[i].weight, Share(WeightedRun(s, modulus, WeightUpTo(s, i), s[i].weight), s[i]));
  }

  lemma AllOfBlock(total: int, weight: int, count: int)
    requires count == weight
    ensures total * count - weight * weight == weight * (total - weight)
  {
    Distribute(weight, total, weight);
  }

  lemma BlockWindow(s: BackendSet, i: nat, modulus: Modulus)
    requires i < |s| && 0 < TotalWeight(s) < modulus
    ensures WeightUpTo(s, i) + s[i].weight <= modulus
    ensures Share(WeightedRun(s, modulus, WeightUpTo(s, i), s[i].weight), s[i]) == s[i].weight
  {
    var k := BlockOf(s, i);
    BlockOfValid(s, i);
    WeightedHits(s, i, modulus, k.low, k.width);
    AllHits(k, modulus, k.width);
  }

  /** Across wraps the bound cannot be improved either: where what is left over of the
      modulus is the weight of the first backend, all tickets, `r + 1` times over, attain it
      for `r` wraps. */
  lemma WeightedWrapAttained(s: BackendSet, modulus: Modulus, r: nat, n: nat)
    requires |s| > 0 && 0 < TotalWeight(s) < modulus
    requires modulus % TotalWeight(s) == s[0].weight && n == (r + 1) * modulus
    ensures Wraps(0, n, modulus) == r
    ensures
      var total, weight := TotalWeight(s), s[0].weight;
      total * Share(WeightedRun(s, modulus, 0, n), s[0]) - n * weight == (r + 1) * (weight * (total - weight))
  {
    var k := BlockOf(s, 0);
    BlockOfValid(s, 0);
    WeightedHits(s, 0, modulus, 0, n);
    FullRounds(k, modulus, r, n);
    FullRoundDeviation(k, modulus);
    ScaleDeviation(k.period, k.width, Hits(k, modulus, 0, modulus), modulus, r + 1);
  }

  lemma ScaleDeviation(p: int, w: int, hits: int, n: int, c: int)
    ensures p * (c * hits) - (c * n) * w == c * (p * hits - n * w)
  {
    assert p * (c * hits) == c * (p * hits);
    assert (c * n) * w == c * (n * w);
    Distribute(c, p * hits, n * w);
  }

  lemma FullRoundDeviation(k: Block, modulus: Modulus)
    requires k.Valid() && k.low == 0 && modulus % k.period == k.width
    ensures Deviation(k, modulus, 0, modulus) == ToothHeight(k)
  {
    HitsClosedForm(k, modulus, 0, modulus);
    SmallMod(0, k.period);
    DivMod(modulus, k.period);
    LeftOver(k.period, k.width, modulus / k.period);
  }

  lemma LeftOver(p: int, w: int, q: int)
    ensures p * (w * q + w) - (p * q + w) * w == w * (p - w)
  {
    assert p * (w * q + w) == (p * q) * w + p * w;
    assert (p * q + w) * w == (p * q) * w + w * w;
    Distribute(w, p, w);
  }

  /** No wrap ever shows in a share, on any run, exactly if the total weight divides the
      modulus of the counter or one backend has all the weight. */
  lemma WeightedWrapInvisibleIff(s: BackendSet, modulus: Modulus)
    requires 0 < TotalWeight(s) < modulus
    ensures
      (forall i: nat, start: nat, n: nat :: i < |s| && start < modulus ==>
         WithinTooth(s, i, n, Share(WeightedRun(s, modulus, start, n), s[i])))
      <==> modulus % TotalWeight(s) == 0 || exists j :: 0 <= j < |s| && s[j].weight == TotalWeight(s)
  {
    if modulus % TotalWeight(s) == 0 || exists j :: 0 <= j < |s| && s[j].weight == TotalWeight(s) {
      forall i: nat, start: nat, n: nat | i < |s| && start < modulus
        ensures WithinTooth(s, i, n, Share(WeightedRun(s, modulus, start, n), s[i]))
      {
        WeightedWrapHidden(s, i, modulus, start, n);
      }
    } else {
      var i := WeightedWrapShows(s, modulus);
      var m := modulus % TotalWeight(s);
      ModAtMost(modulus, TotalWeight(s));
      var n := m + s[i].weight;
      assert !WithinTooth(s, i, n, Share(WeightedRun(s, modulus, modulus - m, n), s[i]));
    }
  }

  /** `count` out of `n` tickets is as near to the proportional share of `s[i]` as it always
      is without a wrap. */
  predicate WithinTooth(s: seq<Backend>, i: nat, n: nat, count: nat)
    requires i < |s|
  {
    var total, weight := TotalWeight(s), s[i].weight;
    Abs(total * count - n * weight) <= weight * (total - weight)
  }

  lemma WeightedWrapHidden(s: BackendSet, i: nat, modulus: Modulus, start: nat, n: nat)
    requires i < |s| && 0 < TotalWeight(s) < modulus && start < modulus
    requires modulus % TotalWeight(s) == 0 || exists j :: 0 <= j < |s| && s[j].weight == TotalWeight(s)
    ensures WithinTooth(s, i, n, Share(WeightedRun(s, modulus, start, n), s[i]))
  {
    if modulus % TotalWeight(s) == 0 {
      WeightedProportionalShare(s, i, modulus, start, n);
    } else {
      var j :| 0 <= j < |s| && s[j].weight == TotalWeight(s);
      SoleWeight(s, i, j);
      NoTooth(s, i, modulus, start, n);
    }
  }

  /** All or nothing of the weight leaves no room to deviate. */
  lemma NoTooth(s: BackendSet, i: nat, modulus: Modulus, start: nat, n: nat)
    requires i < |s| && 0 < TotalWeight(s) < modulus && start < modulus
    requires s[i].weight == 0 || s[i].weight == TotalWeight(s)
    ensures WithinTooth(s, i, n, Share(WeightedRun(s, modulus, start, n), s[i]))
  {
    var k := BlockOf(s, i);
    BlockOfValid(s, i);
    WeightedHits(s, i, modulus, start, n);
    WrappedDeviation(k, modulus, start, n);
    NoRoom(k.period, k.width, Wraps(start, n, modulus) + 1, Abs(Deviation(k, modulus, start, n)));
  }

  lemma NoRoom(p: int, w: int, c: int, d: int)
    requires (w == 0 || w == p) && d <= c * (w * (p - w))
    ensures d <= w * (p - w)
  {}

  lemma SoleWeight(s: seq<Backend>, i: nat, j: nat)
    requires i < |s| && j < |s| && s[j].weight == TotalWeight(s)
    ensures s[i].weight == if i == j then TotalWeight(s) else 0
  {
    if i < j {
      WeightUpToMonotone(s, i + 1, j);
      WeightUpToMonotone(s, j + 1, |s|);
    } else if j < i {
      WeightUpToMonotone(s, j + 1, i);
      WeightUpToMonotone(s, i + 1, |s|);
    }
  }

  /** The tickets since the last multiple of the total and the block after the wrap choose the
      first backend that has a weight too often. */
  lemma WeightedWrapShows(s: BackendSet, modulus: Modulus) returns (i: nat)
    requires 0 < TotalWeight(s) < modulus && 0 < modulus % TotalWeight(s) <= modulus
    requires forall j :: 0 <= j < |s| ==> s[j].weight != TotalWeight(s)
    ensures i < |s|
    ensures var m := modulus % TotalWeight(s);
            var n := m + s[i].weight;
            !WithinTooth(s, i, n, Share(WeightedRun(s, modulus, modulus - m, n), s[i]))
  {
    i := Owner(s, |s|, 0);
    var k, m := BlockOf(s, i), modulus % TotalWeight(s);
    BlockOfValid(s, i);
    WeightedHits(s, i, modulus, modulus - m, m + k.width);
    TailAndWrapHits(k, modulus);
    DivMod(modulus, k.period);
    TooMany(k.period, k.width, m);
  }

  lemma TooMany(p: int, w: nat, m: nat)
    requires 0 < w < p && 0 < m < p
    ensures p * (Clamp(m, w) + w) - (m + w) * w > w * (p - w)
  {
    var c := Clamp(m, w);
    assert p * (c + w) - (m + w) * w == w * (p - w) + p * c - m * w;
    if m <= w {
      Distribute(m, p, w);
      assert m * (p - w) > 0;
    } else {
      Distribute(w, p, m);
      assert w * (p - m) > 0;
    }
  }
}
