/**
 Apportioning a number of bots by ratio: every kind gets its quota rounded down, and what is left over goes out one
 by one in descending order of ratio. Arithmetic is checked, as in a debug build.
 */
module Allocation {
  import opened Wrappers
  import opened Bots

  datatype Panic = Overflow | DivisionByZero

  function RatioSum(spec: seq<Entry>): nat {
    if spec == [] then 0 else RatioSum(spec[..|spec| - 1]) + spec[|spec| - 1].ratio
  }

  /** The quota of an entry rounded down. */
  function Quota(total: nat, spec: seq<Entry>, i: nat): nat
    requires i < |spec| && RatioSum(spec) > 0
  {
    total * spec[i].ratio / RatioSum(spec)
  }

  /** The quotas of the first `k` entries, added up. */
  function QuotaSum(total: nat, spec: seq<Entry>, k: nat): nat
    requires k <= |spec| && RatioSum(spec) > 0
  {
    if k == 0 then 0 else QuotaSum(total, spec, k - 1) + Quota(total, spec, k - 1)
  }

  /** Entry `j` is served before entry `i` when the rest is handed out. */
  predicate Beats(spec: seq<Entry>, j: nat, i: nat)
    requires i < |spec| && j < |spec|
  {
    spec[j].ratio > spec[i].ratio || (spec[j].ratio == spec[i].ratio && j < i)
  }

  /** How many entries are served before entry `i`. */
  function Rank(spec: seq<Entry>, i: nat): nat
    requires i < |spec|
  {
    |set j | 0 <= j < |spec| && Beats(spec, j, i)|
  }

  function Leftover(total: nat, spec: seq<Entry>): int
    requires RatioSum(spec) > 0
  {
    total - QuotaSum(total, spec, |spec|)
  }

  /** The share of an entry: its rounded quota, plus one if it is among the first to be served from the rest. */
  function Share(total: nat, spec: seq<Entry>, i: nat): nat
    requires i < |spec| && RatioSum(spec) > 0
  {
    Quota(total, spec, i) + if Rank(spec, i) < Leftover(total, spec) then 1 else 0
  }

  function Quotas(total: nat, spec: seq<Entry>): seq<nat>
    requires RatioSum(spec) > 0
  {
    seq(|spec|, i requires 0 <= i < |spec| => Quota(total, spec, i))
  }

  function Shares(total: nat, spec: seq<Entry>): seq<nat>
    requires RatioSum(spec) > 0
  {
    seq(|spec|, i requires 0 <= i < |spec| => Share(total, spec, i))
  }

  function Sum(v: seq<nat>): nat {
    if v == [] then 0 else Sum(v[..|v| - 1]) + v[|v| - 1]
  }

  lemma {:induction false} QuotasAddUp(total: nat, spec: seq<Entry>, k: nat)
    requires k <= |spec| && RatioSum(spec) > 0
    ensures Sum(Quotas(total, spec)[..k]) == QuotaSum(total, spec, k)
    decreases k
  {
    if k == 0 {
    } else {
      QuotasAddUp(total, spec, k - 1);
      assert Quotas(total, spec)[..k][..k - 1] == Quotas(total, spec)[..k - 1];
    }
  }

  // ---- Rounding loses less than one per entry ----

  /** What the rounding of the first `k` quotas drops, in units of one ratio sum. */
  function Dropped(total: nat, spec: seq<Entry>, k: nat): nat
    requires k <= |spec| && RatioSum(spec) > 0
  {
    if k == 0 then 0 else Dropped(total, spec, k - 1) + total * spec[k - 1].ratio % RatioSum(spec)
  }

  function Positive(spec: seq<Entry>, k: nat): nat
    requires k <= |spec|
  {
    if k == 0 then 0 else Positive(spec, k - 1) + if spec[k - 1].ratio > 0 then 1 else 0
  }

  lemma {:induction false} QuotasAndDropped(total: nat, spec: seq<Entry>, k: nat)
    requires k <= |spec| && RatioSum(spec) > 0
    ensures QuotaSum(total, spec, k) * RatioSum(spec) + Dropped(total, spec, k) == total * RatioSum(spec[..k])
    ensures Dropped(total, spec, k) <= Positive(spec, k) * (RatioSum(spec) - 1)
    decreases k
  {
    if k == 0 {
    } else {
      QuotasAndDropped(total, spec, k - 1);
      assert spec[..k][..k - 1] == spec[..k - 1];
      OneMore(QuotaSum(total, spec, k - 1), Dropped(total, spec, k - 1), RatioSum(spec[..k - 1]),
              Positive(spec, k - 1), total, spec[k - 1].ratio, RatioSum(spec));
    }
  }

  lemma OneMore(q: nat, d: nat, sum: nat, p: nat, total: nat, r: nat, s: nat)
    requires s > 0 && q * s + d == total * sum && d <= p * (s - 1)
    ensures (q + total * r / s) * s + (d + total * r % s) == total * (sum + r)
    ensures d + total * r % s <= (p + if r > 0 then 1 else 0) * (s - 1)
  {
    Divide(total * r, s);
    Distribute(s, q, total * r / s);
    Distribute(total, sum, r);
    Distribute(s - 1, p, 1);
  }

  lemma Divide(a: nat, s: nat)
    requires s > 0
    ensures a / s * s + a % s == a && a % s <= s - 1 && (a == 0 ==> a % s == 0)
  {
  }

  lemma Distribute(f: int, a: int, b: int)
    ensures f * (a + b) == f * a + f * b && (a + b) * f == a * f + b * f
  {
  }

  /** Fewer bots are left over than there are entries with a positive ratio, so the rest is handed out
      before the order wraps around. */
  lemma LeftoverBound(total: nat, spec: seq<Entry>)
    requires RatioSum(spec) > 0
    ensures 0 <= Leftover(total, spec) < Positive(spec, |spec|) <= |spec|
  {
    var n, s := |spec|, RatioSum(spec);
    QuotasAndDropped(total, spec, n);
    SomePositive(spec, n);
    assert spec[..n] == spec;
    Distribute(s, Leftover(total, spec), QuotaSum(total, spec, n));
    Squeeze(Leftover(total, spec), Positive(spec, n), s, Dropped(total, spec, n));
  }

  lemma Squeeze(l: int, p: nat, s: nat, d: nat)
    requires s > 0 && p > 0 && l * s == d <= p * (s - 1)
    ensures 0 <= l < p
  {
    Distribute(p, s - 1, 1);
    if l < 0 {
      Ordered(l, -1, s);
    } else if l >= p {
      Ordered(p, l, s);
    }
  }

  lemma Ordered(a: int, b: int, s: nat)
    requires a <= b
    ensures a * s <= b * s
  {
  }

  lemma {:induction false} SomePositive(spec: seq<Entry>, k: nat)
    requires k <= |spec|
    ensures Positive(spec, k) <= k && (RatioSum(spec[..k]) > 0 ==> Positive(spec, k) > 0)
    decreases k
  {
    if k == 0 {
    } else {
      SomePositive(spec, k - 1);
      assert spec[..k][..k - 1] == spec[..k - 1];
    }
  }

  // ---- The stable order ----

  /** The indices are listed in the order in which they are served. */
  predicate Served(spec: seq<Entry>, idx: seq<nat>) {
    && (forall p :: 0 <= p < |idx| ==> idx[p] < |spec|)
    && (forall p, q :: 0 <= p < q < |idx| ==> Beats(spec, idx[p], idx[q]))
  }

  function Insert(spec: seq<Entry>, idx: seq<nat>, i: nat): seq<nat>
    requires i < |spec| && Served(spec, idx)
  {
    if idx == [] || Beats(spec, i, idx[0]) then [i] + idx else [idx[0]] + Insert(spec, idx[1..], i)
  }

  lemma {:induction false} InsertServes(spec: seq<Entry>, idx: seq<nat>, i: nat)
    requires i < |spec| && Served(spec, idx) && i !in idx
    ensures Served(spec, Insert(spec, idx, i))
    ensures forall j: nat :: j in Insert(spec, idx, i) <==> j in idx || j == i
    decreases |idx|
  {
    if idx != [] && !Beats(spec, i, idx[0]) {
      InsertServes(spec, idx[1..], i);
      assert idx == [idx[0]] + idx[1..];
      var rest := Insert(spec, idx[1..], i);
      forall q | 0 <= q < |rest| ensures Beats(spec, idx[0], rest[q]) {
        assert rest[q] in rest;
        assert rest[q] in idx[1..] || rest[q] == i;
      }
    }
  }

  /** The stable sort of the indices by descending ratio. */
  function SortedIndices(spec: seq<Entry>, k: nat): (idx: seq<nat>)
    requires k <= |spec|
    ensures Served(spec, idx)
    ensures Lists(idx, k)
  {
    if k == 0 then []
    else
      var idx := SortedIndices(spec, k - 1);
      InsertServes(spec, idx, k - 1);
      Insert(spec, idx, k - 1)
  }

  /** The sequence lists exactly the indices below `k`. */
  ghost predicate Lists(idx: seq<nat>, k: nat) {
    forall j: nat :: j in idx <==> j < k
  }

  function Elements(idx: seq<nat>): set<nat> {
    set p | 0 <= p < |idx| :: idx[p]
  }

  lemma {:induction false} DistinctSize(idx: seq<nat>)
    requires forall p, q :: 0 <= p < q < |idx| ==> idx[p] != idx[q]
    ensures |Elements(idx)| == |idx|
    decreases |idx|
  {
    if idx == [] {
    } else {
      var n := |idx| - 1;
      DistinctSize(idx[..n]);
      assert Elements(idx) == Elements(idx[..n]) + {idx[n]};
    }
  }

  /** The position of an index in the stable order is its rank. */
  lemma RankAt(spec: seq<Entry>, idx: seq<nat>, p: nat)
    requires Served(spec, idx) && Lists(idx, |spec|) && p < |idx|
    ensures |idx| == |spec| && Rank(spec, idx[p]) == p
  {
    Everyone(spec, idx);
    DistinctSize(idx[..p]);
    assert Elements(idx[..p]) == set j | 0 <= j < |spec| && Beats(spec, j, idx[p]) by {
      forall j: nat | j < |spec| && Beats(spec, j, idx[p]) ensures j in Elements(idx[..p]) {
        assert j in idx;
        var q :| 0 <= q < |idx| && idx[q] == j;
        assert idx[..p][q] == j;
      }
      forall q | 0 <= q < p ensures Beats(spec, idx[..p][q], idx[p]) {
      }
    }
  }

  function Range(n: nat): (r: set<nat>)
    ensures |r| == n && forall j: nat :: j in r <==> j < n
  {
    if n == 0 then {} else Range(n - 1) + {n - 1}
  }

  lemma Everyone(spec: seq<Entry>, idx: seq<nat>)
    requires Served(spec, idx) && Lists(idx, |spec|)
    ensures |idx| == |spec|
  {
    DistinctSize(idx);
    assert forall j: nat :: j in Elements(idx) <==> j in idx;
    assert Elements(idx) == Range(|spec|);
  }

  // ---- The algorithm ----

  /** Some product of the total with a ratio does not fit 64 bits. */
  predicate ProductOverflows(total: nat, spec: seq<Entry>) {
    exists i :: 0 <= i < |spec| && total * spec[i].ratio >= U64_LIMIT
  }

  /** Up to 2 to the power of 32 bots no product overflows, whatever the ratios; in general one does from 2 to the power
      of 64 on. */
  lemma NoOverflow(total: nat, spec: seq<Entry>)
    ensures total <= 0x1_0000_0000 ==> !ProductOverflows(total, spec)
    ensures ProductOverflows(total, spec) <==>
            exists i :: 0 <= i < |spec| && total * spec[i].ratio > 0xFFFF_FFFF_FFFF_FFFF
  {
    if total <= 0x1_0000_0000 {
      forall i | 0 <= i < |spec| ensures total * spec[i].ratio < 0x1_0000_0000_0000_0000 {
        Ordered(total, 0x1_0000_0000, spec[i].ratio);
      }
    }
  }

  method Allocate(total: nat, spec: seq<Entry>) returns (r: Result<seq<(BotType, nat)>, Panic>)
    ensures spec == [] ==> r == Success([])
    ensures spec != [] ==>
      if RatioSum(spec) > 0xFFFF_FFFF then r == Failure(Overflow)
      else if RatioSum(spec) == 0 then r == Failure(DivisionByZero)
      else if ProductOverflows(total, spec) then r == Failure(Overflow)
      else
        && r.Success? && |r.value| == |spec|
        && forall i :: 0 <= i < |spec| ==> r.value[i] == (spec[i].kind, Share(total, spec, i))
    ensures total <= 0x1_0000_0000 && 0 < RatioSum(spec) <= 0xFFFF_FFFF ==> r.Success?
  {
    NoOverflow(total, spec);
    if spec == [] {
      return Success([]);
    }
    var ratioSum := RatioSum(spec);
    if ratioSum >= U32_LIMIT {
      return Failure(Overflow);
    }
    if ratioSum == 0 {
      return Failure(DivisionByZero);
    }
    if exists i :: 0 <= i < |spec| && total * spec[i].ratio >= U64_LIMIT {
      return Failure(Overflow);
    }
    LeftoverBound(total, spec);
    QuotasAddUp(total, spec, |spec|);
    var quotas := Quotas(total, spec);
    var given := Sum(quotas);
    assert quotas[..|spec|] == quotas;
    var remainder := if total < given then 0 else total - given;
    var counts := HandOut(spec, quotas, remainder);
    r := Success(seq(|spec|, i requires 0 <= i < |spec| => (spec[i].kind, counts[i])));
  }

  /** Hands out the rest, one each in descending order of ratio, the earlier entry first among equals. */
  method HandOut(spec: seq<Entry>, quotas: seq<nat>, rest: nat) returns (counts: seq<nat>)
    requires rest < |spec| == |quotas|
    ensures |counts| == |spec|
    ensures forall i :: 0 <= i < |spec| ==> counts[i] == quotas[i] + if Rank(spec, i) < rest then 1 else 0
  {
    counts := quotas;
    var remainder := rest;
    var indices := SortedIndices(spec, |spec|);
    Everyone(spec, indices);
    var idx := 0;
    while remainder > 0
      invariant 0 <= remainder && idx + remainder == rest
      invariant |counts| == |spec|
      invariant forall i :: 0 <= i < |spec| ==> counts[i] == quotas[i] + if Rank(spec, i) < idx then 1 else 0
    {
      var i := indices[idx];
      counts := counts[i := counts[i] + 1];
      remainder := remainder - 1;
      NextServed(spec, indices, idx);
      RankAt(spec, indices, idx);
      NoWrap(idx + 1, |indices|);
      idx := (idx + 1) % |indices|;
    }
  }

  lemma NoWrap(i: nat, n: nat)
    requires i < n
    ensures i % n == i
  {
  }

  /** Raising the bar by one admits exactly the entry at that position of the stable order. */
  lemma NextServed(spec: seq<Entry>, indices: seq<nat>, p: nat)
    requires Served(spec, indices) && Lists(indices, |spec|) && p < |indices|
    ensures forall i :: 0 <= i < |spec| ==> (Rank(spec, i) < p + 1 <==> Rank(spec, i) < p || i == indices[p])
  {
    forall i: nat | i < |spec| ensures Rank(spec, i) < p + 1 <==> Rank(spec, i) < p || i == indices[p] {
      assert i in indices;
      var q :| 0 <= q < |indices| && indices[q] == i;
      RankAt(spec, indices, q);
      RankAt(spec, indices, p);
    }
  }

  // ---- Main results ----

  /** The first `k` entries of the stable order. */
  function Early(spec: seq<Entry>, k: nat, l: nat): set<nat>
    requires k <= |spec|
  {
    set i | 0 <= i < k && Rank(spec, i) < l
  }

  lemma {:induction false} SumWithExtras(spec: seq<Entry>, quotas: seq<nat>, shares: seq<nat>, l: nat, k: nat)
    requires |quotas| == |shares| == |spec| && k <= |spec|
    requires forall i :: 0 <= i < |spec| ==> shares[i] == quotas[i] + if Rank(spec, i) < l then 1 else 0
    ensures Sum(shares[..k]) == Sum(quotas[..k]) + |Early(spec, k, l)|
    decreases k
  {
    if k == 0 {
    } else {
      SumWithExtras(spec, quotas, shares, l, k - 1);
      assert shares[..k][..k - 1] == shares[..k - 1] && quotas[..k][..k - 1] == quotas[..k - 1];
      EarlyStep(spec, k, l);
    }
  }

  lemma EarlyStep(spec: seq<Entry>, k: nat, l: nat)
    requires 0 < k <= |spec|
    ensures |Early(spec, k, l)| == |Early(spec, k - 1, l)| + if Rank(spec, k - 1) < l then 1 else 0
  {
    var before := Early(spec, k - 1, l);
    assert Early(spec, k, l) == if Rank(spec, k - 1) < l then before + {k - 1} else before;
  }

  lemma EarlySize(spec: seq<Entry>, l: nat)
    requires l <= |spec|
    ensures |Early(spec, |spec|, l)| == l
  {
    var n := |spec|;
    var idx := SortedIndices(spec, n);
    Everyone(spec, idx);
    forall p | 0 <= p < n ensures Rank(spec, idx[p]) == p {
      RankAt(spec, idx, p);
    }
    DistinctSize(idx[..l]);
    assert Elements(idx[..l]) == Early(spec, n, l) by {
      forall i: nat | i in Early(spec, n, l) ensures i in Elements(idx[..l]) {
        assert i in idx;
        var p :| 0 <= p < n && idx[p] == i;
        assert idx[..l][p] == i;
      }
    }
  }

  /** Quota theorem: the shares add up to the total exactly, each is the rounded quota or one more, and fewer
      extras are handed out than there are entries with a positive ratio. */
  lemma QuotaTheorem(total: nat, spec: seq<Entry>)
    requires RatioSum(spec) > 0
    ensures Sum(Shares(total, spec)) == total
    ensures 0 <= Leftover(total, spec) < Positive(spec, |spec|)
    ensures |Early(spec, |spec|, Leftover(total, spec))| == Leftover(total, spec)
  {
    var n, shares, quotas := |spec|, Shares(total, spec), Quotas(total, spec);
    LeftoverBound(total, spec);
    QuotasAddUp(total, spec, n);
    SumWithExtras(spec, quotas, shares, Leftover(total, spec), n);
    assert shares[..n] == shares && quotas[..n] == quotas;
    EarlySize(spec, Leftover(total, spec));
  }

  /** `share` is more than `a / s - 1` and at most `a / s + 1`, as fractions. */
  predicate Near(share: nat, a: nat, s: nat) {
    a - s < share * s <= a + s
  }

  /** Every share is within one bot of the exact quota: less than one below, at most one above. */
  lemma WithinOneOfQuota(total: nat, spec: seq<Entry>, i: nat)
    requires RatioSum(spec) > 0 && i < |spec|
    ensures Near(Share(total, spec, i), total * spec[i].ratio, RatioSum(spec))
  {
    assert Quota(total, spec, i) == total * spec[i].ratio / RatioSum(spec);
    WithinOne(total * spec[i].ratio, RatioSum(spec), Share(total, spec, i));
  }

  lemma WithinOne(a: nat, s: nat, share: nat)
    requires s > 0 && (share == a / s || share == a / s + 1)
    ensures Near(share, a, s)
  {
    Divide(a, s);
    Distribute(s, a / s, 1);
  }

  /** An entry gets a whole bot more than its exact quota if and only if that quota is a whole number and the entry is
      among those served from the rest. */
  lemma ExactQuotaExceededIff(total: nat, spec: seq<Entry>, i: nat)
    requires RatioSum(spec) > 0 && i < |spec|
    ensures Exceeds(Share(total, spec, i), total * spec[i].ratio, RatioSum(spec)) <==>
            total * spec[i].ratio % RatioSum(spec) == 0 && Rank(spec, i) < Leftover(total, spec)
  {
    assert Quota(total, spec, i) == total * spec[i].ratio / RatioSum(spec);
    ExceedsIff(total * spec[i].ratio, RatioSum(spec), Share(total, spec, i), Rank(spec, i) < Leftover(total, spec));
  }

  /** `share` is at least `a / s + 1`, as fractions. */
  predicate Exceeds(share: nat, a: nat, s: nat) {
    share * s >= a + s
  }

  lemma ExceedsIff(a: nat, s: nat, share: nat, extra: bool)
    requires s > 0 && share == a / s + if extra then 1 else 0
    ensures Exceeds(share, a, s) <==> a % s == 0 && extra
  {
    Divide(a, s);
    Distribute(s, a / s, 1);
  }

  lemma QuotaSumOfThree(total: nat, spec: seq<Entry>)
    requires |spec| == 3 && RatioSum(spec) > 0
    ensures QuotaSum(total, spec, |spec|) == Quota(total, spec, 0) + Quota(total, spec, 1) + Quota(total, spec, 2)
  {
    var n := |spec|;
    assert QuotaSum(total, spec, n - 1) == QuotaSum(total, spec, n - 2) + Quota(total, spec, n - 2);
    assert QuotaSum(total, spec, n - 2) == Quota(total, spec, n - 3);
  }

  /** It happens: two bots at 2:1:1 both go to the first entry, whose exact quota is one. */
  lemma ExactQuotaExceeded()
    ensures
      var spec := [Entry(Normal, 2), Entry(Fickle, 1), Entry(Ghost, 1)];
      RatioSum(spec) == 4 && Shares(2, spec) == [2, 0, 0]
  {
    var spec := [Entry(Normal, 2), Entry(Fickle, 1), Entry(Ghost, 1)];
    var one, two := [Entry(Normal, 2)], [Entry(Normal, 2), Entry(Fickle, 1)];
    assert one[..0] == [] && two[..1] == one && spec[..2] == two;
    assert RatioSum(one) == 2;
    assert RatioSum(two) == 3;
    assert RatioSum(spec) == 4;
    assert Quota(2, spec, 0) == 1 && Quota(2, spec, 1) == 0 && Quota(2, spec, 2) == 0;
    QuotaSumOfThree(2, spec);
    assert Served(spec, [0, 1, 2]) && Lists([0, 1, 2], 3);
    RankAt(spec, [0, 1, 2], 0);
    RankAt(spec, [0, 1, 2], 1);
    RankAt(spec, [0, 1, 2], 2);
  }

  lemma DefaultSum()
    ensures RatioSum(DEFAULT_SPEC) == 100
  {
    var spec := DEFAULT_SPEC;
    assert spec[..4] == [spec[0], spec[1], spec[2], spec[3]] && spec[..4][..3] == spec[..3];
    assert spec[..3][..2] == spec[..2] && spec[..2][..1] == spec[..1] && spec[..1][..0] == [];
    assert RatioSum(spec[..1]) == 40;
    assert RatioSum(spec[..2]) == 60;
    assert RatioSum(spec[..3]) == 80;
    assert RatioSum(spec[..4]) == 90;
  }

  /** The default mix of a multiple of ten bots leaves no rest. */
  lemma DefaultShares(k: nat)
    ensures RatioSum(DEFAULT_SPEC) > 0 && Shares(10 * k, DEFAULT_SPEC) == [4 * k, 2 * k, 2 * k, k, k]
  {
    DefaultSum();
    var total, spec := 10 * k, DEFAULT_SPEC;
    assert Quota(total, spec, 0) == 4 * k && Quota(total, spec, 1) == 2 * k && Quota(total, spec, 2) == 2 * k;
    assert Quota(total, spec, 3) == k && Quota(total, spec, 4) == k;
    assert QuotaSum(total, spec, 1) == 4 * k;
    assert QuotaSum(total, spec, 2) == 6 * k;
    assert QuotaSum(total, spec, 3) == 8 * k;
    assert QuotaSum(total, spec, 4) == 9 * k;
    assert QuotaSum(total, spec, 5) == 10 * k;
    assert Leftover(total, spec) == 0;
  }

  /** The extras go to a prefix of the stable order: a larger ratio never gets fewer bots; equal ratios differ by
      at most one, in favour of the earlier entry; and an entry with ratio zero gets none. */
  lemma RemainderOrder(total: nat, spec: seq<Entry>, i: nat, j: nat)
    requires RatioSum(spec) > 0 && i < |spec| && j < |spec|
    ensures spec[i].ratio > spec[j].ratio ==> Share(total, spec, i) >= Share(total, spec, j)
    ensures spec[i].ratio == spec[j].ratio && i < j ==>
      Share(total, spec, j) <= Share(total, spec, i) <= Share(total, spec, j) + 1
    ensures spec[i].ratio == 0 ==> Share(total, spec, i) == 0
  {
    if spec[i].ratio > spec[j].ratio {
      QuotaOrder(total, spec, i, j);
    }
    if Beats(spec, i, j) {
      RankMonotone(spec, i, j);
    }
    if spec[i].ratio == 0 {
      ZeroQuota(total, spec, i);
      ZeroServedLate(spec, i);
      LeftoverBound(total, spec);
    }
    if spec[i].ratio == spec[j].ratio {
      assert Quota(total, spec, i) == Quota(total, spec, j);
    }
  }

  lemma QuotaOrder(total: nat, spec: seq<Entry>, i: nat, j: nat)
    requires RatioSum(spec) > 0 && i < |spec| && j < |spec| && spec[i].ratio >= spec[j].ratio
    ensures Quota(total, spec, i) >= Quota(total, spec, j)
  {
    QuotientOrder(total, spec[j].ratio, spec[i].ratio, RatioSum(spec));
  }

  lemma QuotientOrder(total: nat, a: nat, b: nat, s: nat)
    requires a <= b && s > 0
    ensures total * a / s <= total * b / s
  {
    Ordered(a, b, total);
    assert total * a == a * total && total * b == b * total;
    QuotaMonotone(total * a, total * b, s);
  }

  lemma ZeroQuota(total: nat, spec: seq<Entry>, i: nat)
    requires RatioSum(spec) > 0 && i < |spec| && spec[i].ratio == 0
    ensures Quota(total, spec, i) == 0
  {
  }

  lemma QuotaMonotone(a: nat, b: nat, s: nat)
    requires a <= b && s > 0
    ensures a / s <= b / s
  {
    if a / s > b / s {
      Ordered(b / s + 1, a / s, s);
      Distribute(s, b / s, 1);
    }
  }

  lemma RankMonotone(spec: seq<Entry>, i: nat, j: nat)
    requires i < |spec| && j < |spec| && Beats(spec, i, j)
    ensures Rank(spec, i) < Rank(spec, j)
  {
    var a := set k | 0 <= k < |spec| && Beats(spec, k, i);
    var b := set k | 0 <= k < |spec| && Beats(spec, k, j);
    assert i in b && a + {i} <= b;
    assert b == (a + {i}) + (b - (a + {i}));
  }

  function PositiveOnes(spec: seq<Entry>, k: nat): set<nat>
    requires k <= |spec|
  {
    set j | 0 <= j < k && spec[j].ratio > 0
  }

  lemma {:induction false} PositiveSize(spec: seq<Entry>, k: nat)
    requires k <= |spec|
    ensures |PositiveOnes(spec, k)| == Positive(spec, k)
    decreases k
  {
    if k == 0 {
    } else {
      PositiveSize(spec, k - 1);
      var before := PositiveOnes(spec, k - 1);
      assert PositiveOnes(spec, k) == if spec[k - 1].ratio > 0 then before + {k - 1} else before;
    }
  }

  lemma ZeroServedLate(spec: seq<Entry>, i: nat)
    requires i < |spec| && spec[i].ratio == 0
    ensures Positive(spec, |spec|) <= Rank(spec, i)
  {
    PositiveSize(spec, |spec|);
    var a, b := PositiveOnes(spec, |spec|), set j | 0 <= j < |spec| && Beats(spec, j, i);
    assert a <= b;
    assert b == a + (b - a);
  }
}
