/**
 * Bucketing and aggregation: `renewal_bucket`, the five day-range buckets and the
 * "Renewals by Cohort" summary the dashboard builds from them, the per-cohort counts of
 * `display_bucket_by_cohort`, and the revenue sums.
 */
module Buckets {
  import opened Wrappers
  import opened Seqs
  import opened Partners

  /** The masks of the five buckets. */
  function InDays(lo: int, hi: int): Partner -> bool {
    (p: Partner) => lo <= p.days <= hi
  }

  predicate IsOverdue(p: Partner) {
    p.days < 0
  }

  predicate IsBeyond90(p: Partner) {
    p.days > 90
  }

  /** `renewal_bucket(df, lo, hi)`: the rows whose days to renewal lie in [lo, hi], in their order. */
  function RenewalBucket(ps: seq<Partner>, lo: int, hi: int): (r: seq<Partner>)
    ensures forall p :: p in r <==> p in ps && lo <= p.days <= hi
    ensures forall p :: multiset(r)[p] == if lo <= p.days <= hi then multiset(ps)[p] else 0
    ensures IsSubsequence(r, ps)
  {
    FilterSpec(ps, InDays(lo, hi));
    Filter(ps, InDays(lo, hi))
  }

  /** `partners[partners["Days to Renewal"] < 0]` */
  function Overdue(ps: seq<Partner>): (r: seq<Partner>)
    ensures forall p :: p in r <==> p in ps && p.days < 0
    ensures forall p :: multiset(r)[p] == if p.days < 0 then multiset(ps)[p] else 0
    ensures IsSubsequence(r, ps)
  {
    FilterSpec(ps, IsOverdue);
    Filter(ps, IsOverdue)
  }

  /** `partners[partners["Days to Renewal"] > 90]` */
  function Beyond90(ps: seq<Partner>): (r: seq<Partner>)
    ensures forall p :: p in r <==> p in ps && p.days > 90
    ensures forall p :: multiset(r)[p] == if p.days > 90 then multiset(ps)[p] else 0
    ensures IsSubsequence(r, ps)
  {
    FilterSpec(ps, IsBeyond90);
    Filter(ps, IsBeyond90)
  }

  /**
   * The five buckets split the rows: together they hold every row exactly as often as the
   * table does, and their sizes add up to its size.
   */
  lemma BucketsPartition(ps: seq<Partner>)
    ensures multiset(Overdue(ps)) + multiset(RenewalBucket(ps, 0, 30)) + multiset(RenewalBucket(ps, 31, 60))
            + multiset(RenewalBucket(ps, 61, 90)) + multiset(Beyond90(ps)) == multiset(ps)
    ensures |Overdue(ps)| + |RenewalBucket(ps, 0, 30)| + |RenewalBucket(ps, 31, 60)|
            + |RenewalBucket(ps, 61, 90)| + |Beyond90(ps)| == |ps|
  {
    var all := multiset(Overdue(ps)) + multiset(RenewalBucket(ps, 0, 30)) + multiset(RenewalBucket(ps, 31, 60))
               + multiset(RenewalBucket(ps, 61, 90)) + multiset(Beyond90(ps));
    assert all == multiset(ps) by {
      forall p ensures all[p] == multiset(ps)[p] { }
    }
    assert |all| == |multiset(ps)|;
  }

  /** Each row of the table is in exactly one of the five buckets. */
  lemma ExactlyOneBucket(ps: seq<Partner>, p: Partner)
    requires p in ps
    ensures (if p in Overdue(ps) then 1 else 0) + (if p in RenewalBucket(ps, 0, 30) then 1 else 0)
      + (if p in RenewalBucket(ps, 31, 60) then 1 else 0) + (if p in RenewalBucket(ps, 61, 90) then 1 else 0)
      + (if p in Beyond90(ps) then 1 else 0) == 1
  {
  }

  /** The monthly cost summed over the rows, a missing cost counting as 0. */
  function Revenue(ps: seq<Partner>): real {
    if ps == [] then 0.0 else ps[0].cost.GetOr(0.0) + Revenue(ps[1..])
  }

  /** Revenue adds up over a table split in two. */
  lemma {:induction false} RevenueAppend(a: seq<Partner>, b: seq<Partner>)
    ensures Revenue(a + b) == Revenue(a) + Revenue(b)
  {
    if a == [] {
      assert a + b == b;
    } else {
      assert (a + b)[0] == a[0] && (a + b)[1..] == a[1..] + b;
      RevenueAppend(a[1..], b);
    }
  }

  /** The first row of a table adds its cost to a masked revenue exactly when the mask keeps it. */
  lemma RevenueFilterCons(ps: seq<Partner>, keep: Partner -> bool)
    requires ps != []
    ensures Revenue(Filter(ps, keep)) == (if keep(ps[0]) then ps[0].cost.GetOr(0.0) else 0.0) + Revenue(Filter(ps[1..], keep))
  {
    var rest := Filter(ps[1..], keep);
    if keep(ps[0]) {
      assert Filter(ps, keep) == [ps[0]] + rest;
      assert ([ps[0]] + rest)[1..] == rest;
    } else {
      assert Filter(ps, keep) == rest;
    }
  }

  /** The five bucket revenues add up to the revenue of all rows. */
  lemma {:induction false} RevenuePartition(ps: seq<Partner>)
    ensures Revenue(Overdue(ps)) + Revenue(RenewalBucket(ps, 0, 30)) + Revenue(RenewalBucket(ps, 31, 60))
            + Revenue(RenewalBucket(ps, 61, 90)) + Revenue(Beyond90(ps)) == Revenue(ps)
  {
    if ps != [] {
      RevenuePartition(ps[1..]);
      RevenueFilterCons(ps, IsOverdue);
      RevenueFilterCons(ps, InDays(0, 30));
      RevenueFilterCons(ps, InDays(31, 60));
      RevenueFilterCons(ps, InDays(61, 90));
      RevenueFilterCons(ps, IsBeyond90);
    }
  }

  /** The mask `df["Cohort"] == cohort`. */
  function InCohort(cohort: Cohort): Partner -> bool {
    (p: Partner) => p.cohort == cohort
  }

  /** `df[df["Cohort"] == cohort]`: the rows of one cohort, each as often as it occurs, in their order. */
  function CohortSlice(ps: seq<Partner>, cohort: Cohort): (r: seq<Partner>)
    ensures forall p :: p in r <==> p in ps && p.cohort == cohort
    ensures forall p :: multiset(r)[p] == if p.cohort == cohort then multiset(ps)[p] else 0
    ensures IsSubsequence(r, ps)
  {
    FilterSpec(ps, InCohort(cohort));
    Filter(ps, InCohort(cohort))
  }

  /** The number of rows of one cohort. */
  function CohortCount(ps: seq<Partner>, cohort: Cohort): nat {
    if ps == [] then 0 else (if ps[0].cohort == cohort then 1 else 0) + CohortCount(ps[1..], cohort)
  }

  /** A cohort's count is the size of that cohort's table, zero for an empty cohort. */
  lemma {:induction false} CohortCountIsSliceSize(ps: seq<Partner>, cohort: Cohort)
    ensures CohortCount(ps, cohort) == |CohortSlice(ps, cohort)|
  {
    if ps != [] {
      CohortCountIsSliceSize(ps[1..], cohort);
      assert CohortSlice(ps, cohort)
        == (if ps[0].cohort == cohort then [ps[0]] else []) + CohortSlice(ps[1..], cohort);
    }
  }

  /** Every row is in exactly one of the two cohorts, so the two counts cover the table. */
  lemma {:induction false} CohortCountsCover(ps: seq<Partner>)
    ensures CohortCount(ps, FacebookGroup) + CohortCount(ps, AllOtherPartners) == |ps|
  {
    if ps != [] {
      CohortCountsCover(ps[1..]);
    }
  }

  /**
   * `value_counts().reindex([FACEBOOK_COHORT, OTHER_COHORT], fill_value=0)`: how many rows
   * each of the two cohorts has, Facebook Group first; every row is counted once.
   */
  function CohortCounts(ps: seq<Partner>): (counts: (nat, nat))
    ensures counts.0 + counts.1 == |ps|
    ensures counts.0 == |CohortSlice(ps, FacebookGroup)|
    ensures counts.1 == |CohortSlice(ps, AllOtherPartners)|
  {
    CohortCountsCover(ps);
    CohortCountIsSliceSize(ps, FacebookGroup);
    CohortCountIsSliceSize(ps, AllOtherPartners);
    (CohortCount(ps, FacebookGroup), CohortCount(ps, AllOtherPartners))
  }

  /** The first row of a table adds to a masked cohort count exactly when the mask keeps it. */
  lemma CohortCountFilterCons(ps: seq<Partner>, keep: Partner -> bool, cohort: Cohort)
    requires ps != []
    ensures CohortCount(Filter(ps, keep), cohort)
            == (if keep(ps[0]) && ps[0].cohort == cohort then 1 else 0) + CohortCount(Filter(ps[1..], keep), cohort)
  {
    var rest := Filter(ps[1..], keep);
    if keep(ps[0]) {
      assert Filter(ps, keep) == [ps[0]] + rest;
      assert ([ps[0]] + rest)[1..] == rest;
    } else {
      assert Filter(ps, keep) == rest;
    }
  }

  /** Summed over the five buckets, each cohort's count is its count over all rows. */
  lemma {:induction false} CohortCountsPartition(ps: seq<Partner>, cohort: Cohort)
    ensures CohortCount(Overdue(ps), cohort) + CohortCount(RenewalBucket(ps, 0, 30), cohort)
            + CohortCount(RenewalBucket(ps, 31, 60), cohort) + CohortCount(RenewalBucket(ps, 61, 90), cohort)
            + CohortCount(Beyond90(ps), cohort) == CohortCount(ps, cohort)
  {
    if ps != [] {
      CohortCountsPartition(ps[1..], cohort);
      CohortCountFilterCons(ps, IsOverdue, cohort);
      CohortCountFilterCons(ps, InDays(0, 30), cohort);
      CohortCountFilterCons(ps, InDays(31, 60), cohort);
      CohortCountFilterCons(ps, InDays(61, 90), cohort);
      CohortCountFilterCons(ps, IsBeyond90, cohort);
    }
  }

  /** One bucket as the dashboard reports it: its rows, its two cohort counts, its revenue. */
  datatype BucketTotals = BucketTotals(rows: seq<Partner>, facebook: nat, other: nat, revenue: real)

  /** A bucket's two counts are the sizes of its two per-cohort tables, and cover all its rows. */
  function Totals(rows: seq<Partner>): (t: BucketTotals)
    ensures t.rows == rows
    ensures t.facebook == |CohortSlice(rows, FacebookGroup)|
    ensures t.other == |CohortSlice(rows, AllOtherPartners)|
    ensures t.facebook + t.other == |rows|
  {
    var counts := CohortCounts(rows);
    BucketTotals(rows, counts.0, counts.1, Revenue(rows))
  }

  /** The count a bucket reports for one cohort. */
  function TotalsFor(t: BucketTotals, cohort: Cohort): nat {
    if cohort == FacebookGroup then t.facebook else t.other
  }

  lemma TotalsCount(rows: seq<Partner>, cohort: Cohort)
    ensures TotalsFor(Totals(rows), cohort) == CohortCount(rows, cohort)
  {
  }

  /** The five buckets; `Total` is the "Total" column of the "Renewals by Cohort" table. */
  datatype Summary = Summary(within30: BucketTotals, within60: BucketTotals, within90: BucketTotals,
                             overdue: BucketTotals, beyond90: BucketTotals) {
    function Total(cohort: Cohort): nat {
      TotalsFor(within30, cohort) + TotalsFor(within60, cohort) + TotalsFor(within90, cohort)
        + TotalsFor(beyond90, cohort) + TotalsFor(overdue, cohort)
    }
  }

  /** The five buckets of a table, each with its counts and revenue. */
  function SummaryOf(ps: seq<Partner>): Summary {
    Summary(Totals(RenewalBucket(ps, 0, 30)), Totals(RenewalBucket(ps, 31, 60)), Totals(RenewalBucket(ps, 61, 90)),
            Totals(Overdue(ps)), Totals(Beyond90(ps)))
  }

  /** The bucket sizes add up to the number of rows. */
  lemma SummarySizes(ps: seq<Partner>)
    ensures var s := SummaryOf(ps);
      |s.overdue.rows| + |s.within30.rows| + |s.within60.rows| + |s.within90.rows| + |s.beyond90.rows| == |ps|
  {
    BucketsPartition(ps);
  }

  /** The bucket revenues add up to the revenue of all rows. */
  lemma SummaryRevenue(ps: seq<Partner>)
    ensures var s := SummaryOf(ps);
      s.overdue.revenue + s.within30.revenue + s.within60.revenue + s.within90.revenue + s.beyond90.revenue
      == Revenue(ps)
  {
    RevenuePartition(ps);
  }

  /** The Total column: each cohort's count summed over the buckets is the size of its table over all rows. */
  lemma SummaryTotal(ps: seq<Partner>, cohort: Cohort)
    ensures SummaryOf(ps).Total(cohort) == |CohortSlice(ps, cohort)|
  {
    var s := SummaryOf(ps);
    CohortCountsPartition(ps, cohort);
    CohortCountIsSliceSize(ps, cohort);
    TotalsCount(Overdue(ps), cohort);
    TotalsCount(RenewalBucket(ps, 0, 30), cohort);
    TotalsCount(RenewalBucket(ps, 31, 60), cohort);
    TotalsCount(RenewalBucket(ps, 61, 90), cohort);
    TotalsCount(Beyond90(ps), cohort);
  }

  /**
   * The metrics and the "Renewals by Cohort" table of the dashboard: the five buckets, their
   * counts and revenues, and each cohort's total across them.
   */
  method Summarize(partners: seq<Partner>) returns (s: Summary)
    ensures s.overdue == Totals(Overdue(partners))
    ensures s.within30 == Totals(RenewalBucket(partners, 0, 30))
    ensures s.within60 == Totals(RenewalBucket(partners, 31, 60))
    ensures s.within90 == Totals(RenewalBucket(partners, 61, 90))
    ensures s.beyond90 == Totals(Beyond90(partners))
    ensures |s.overdue.rows| + |s.within30.rows| + |s.within60.rows| + |s.within90.rows| + |s.beyond90.rows|
            == |partners|
    ensures s.Total(FacebookGroup) == |CohortSlice(partners, FacebookGroup)|
    ensures s.Total(AllOtherPartners) == |CohortSlice(partners, AllOtherPartners)|
    ensures s.overdue.revenue + s.within30.revenue + s.within60.revenue + s.within90.revenue
            + s.beyond90.revenue == Revenue(partners)
  {
    var overdue := Overdue(partners);
    var in30 := RenewalBucket(partners, 0, 30);
    var in60 := RenewalBucket(partners, 31, 60);
    var in90 := RenewalBucket(partners, 61, 90);
    var over90 := Beyond90(partners);
    s := Summary(Totals(in30), Totals(in60), Totals(in90), Totals(overdue), Totals(over90));
    assert s == SummaryOf(partners);
    SummarySizes(partners);
    SummaryRevenue(partners);
    SummaryTotal(partners, FacebookGroup);
    SummaryTotal(partners, AllOtherPartners);
  }
}
