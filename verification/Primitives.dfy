/** Identifiers and timestamps shared by the resolver's components. */
module Primitives {

  /** A libp2p peer; only its identity matters. */
  type PeerId(==, !new)

  /** A content identifier; only its identity matters. */
  type Cid(==, !new)

  /** A subnet, identified by its printed path, such as "/root/t0100". */
  datatype SubnetId = SubnetId(path: string)

  datatype Option<+T> = None | Some(value: T)

  const U64_MAX: nat := 0xFFFF_FFFF_FFFF_FFFF

  /** A count of seconds that fits 64 bits. */
  type Timestamp = t: nat | t <= U64_MAX

  /** Saturating addition. */
  function Later(t: Timestamp, seconds: nat): Timestamp {
    if t + seconds <= U64_MAX then t + seconds else U64_MAX
  }

  /** Saturating subtraction. */
  function Earlier(t: Timestamp, seconds: nat): Timestamp {
    if seconds <= t then t - seconds else 0
  }

  /**
   When a comparison with a saturated sum or difference gives the exact answer. The first two, on
   which expiry and the test for a near publication rest, always do. The third, on which the test
   for a recent publication rests, does unless the difference is negative and compared with 0.
   */
  lemma SaturationShowsIff(t: Timestamp, seconds: nat, u: Timestamp)
    ensures Later(t, seconds) < u <==> t + seconds < u
    ensures u < Earlier(t, seconds) <==> u + seconds < t
    ensures (Earlier(t, seconds) < u <==> t < u + seconds) <==> seconds <= t || u > 0
    ensures (u < Later(t, seconds) <==> u < t + seconds) <==> t + seconds <= U64_MAX || u < U64_MAX
  {
  }

  /** The elements of a sequence, as a set. */
  function ToSet<T>(xs: seq<T>): set<T> {
    set x | x in xs
  }

  predicate NoDuplicates<T(==)>(xs: seq<T>) {
    forall i, j :: 0 <= i < j < |xs| ==> xs[i] != xs[j]
  }

  /** `xs` lists every element of `s` exactly once, in some order. */
  predicate Enumerates<T(==)>(xs: seq<T>, s: set<T>) {
    NoDuplicates(xs) && ToSet(xs) == s
  }

  function Min(a: nat, b: nat): nat {
    if a <= b then a else b
  }

  lemma RestOf<T>(xs: seq<T>, d: nat)
    requires d < |xs|
    ensures xs[d..] != [] && xs[d..][0] == xs[d] && xs[d..][1..] == xs[d + 1..]
  {
  }

  // ---------- Multiples ----------

  /** Multiples of `m` lie at least `m` apart. */
  lemma {:induction false} MultiplesApart(m: nat, j: nat, k: nat)
    ensures j < k ==> (j + 1) * m <= k * m
    ensures (j + 1) * m == j * m + m
    decreases k
  {
  }

  lemma QuotientUnique(n: nat, m: nat, k: nat)
    requires m >= 1 && k * m <= n < k * m + m
    ensures k == n / m
  {
    var q := n / m;
    assert n == q * m + n % m;
    MultiplesApart(m, k, q);
    MultiplesApart(m, q, k);
  }

  // ---------- Periods ----------

  /** The epoch `k` periods after another. */
  function Periods(epoch: nat, period: nat, k: nat): nat {
    if k == 0 then epoch else Periods(epoch, period, k - 1) + period
  }

  lemma {:induction false} PeriodsIs(epoch: nat, period: nat, k: nat)
    ensures Periods(epoch, period, k) == epoch + k * period
  {
    if k > 0 {
      PeriodsIs(epoch, period, k - 1);
      assert k * period == (k - 1) * period + period;
    }
  }

  lemma PeriodsApart(epoch: nat, period: nat, m: nat, n: nat)
    requires m <= n
    ensures Periods(epoch, period, n) == Periods(epoch, period, m) + (n - m) * period
  {
    PeriodsIs(epoch, period, m);
    PeriodsIs(epoch, period, n);
    assert n * period == m * period + (n - m) * period;
  }

  lemma PeriodsOrdered(epoch: nat, period: nat, m: nat, n: nat)
    ensures m <= n ==> Periods(epoch, period, m) <= Periods(epoch, period, n)
    ensures m < n && period > 0 ==> Periods(epoch, period, m) < Periods(epoch, period, n)
  {
    if m < n {
      PeriodsApart(epoch, period, m, n);
      MultiplesApart(period, 0, n - m);
    }
  }

  lemma {:induction false} PeriodsGrow(epoch: nat, period: nat, k: nat)
    requires period > 0
    ensures Periods(epoch, period, k) >= epoch + k
  {
    if k > 0 {
      PeriodsGrow(epoch, period, k - 1);
    }
  }

  /** When `k` periods fit below the head and `k + 1` do not, `k` is the lag in whole periods. */
  lemma PeriodsThatFit(head: nat, epoch: nat, period: nat, k: nat)
    requires period > 0 && (k > 0 ==> Periods(epoch, period, k) <= head) && head < Periods(epoch, period, k) + period
    ensures k == if head < epoch then 0 else (head - epoch) / period
  {
    PeriodsIs(epoch, period, k);
    PeriodsGrow(epoch, period, k);
    if epoch <= head {
      QuotientUnique(head - epoch, period, k);
    }
  }
}
