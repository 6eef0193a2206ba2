/**
 * The admin `SystemOverview` report: headline counts, a dense day-by-day
 * trend of new complaints, the category distribution and its top six.
 */
module Overview {
  import opened Optional
  import opened Sequences
  import opened Entities

  /** Number of complaints whose creation falls on day `d`. */
  function CountCreatedOn(cs: seq<Complaint>, d: int): nat
  {
    if |cs| == 0 then 0
    else CountCreatedOn(cs[..|cs| - 1], d) + (if DayOf(cs[|cs| - 1].createdAt) == d then 1 else 0)
  }

  /** A timestamp is at or after midnight of day `d` exactly when its day is `d` or later. */
  lemma AtOrAfterMidnight(t: Time, d: int)
    ensures t >= d * TicksPerDay <==> DayOf(t) >= d
  {
  }

  /** The group count of a day, 0 for a day without a group. */
  function Lookup(groups: map<int, nat>, d: int): nat {
    if d in groups then groups[d] else 0
  }

  /**
   * The trend loop: group the complaints created at or after midnight of
   * `fromDay` by day, then read off `days` consecutive buckets from `fromDay`.
   */
  method TrendSeries(cs: seq<Complaint>, fromDay: int, days: nat) returns (values: seq<nat>)
    ensures |values| == days
    ensures forall i :: 0 <= i < days ==> values[i] == CountCreatedOn(cs, fromDay + i)
  {
    var from := fromDay * TicksPerDay;
    var groups: map<int, nat> := map[];
    var k := 0;
    while k < |cs|
      invariant 0 <= k <= |cs|
      invariant forall d :: d >= fromDay ==> Lookup(groups, d) == CountCreatedOn(cs[..k], d)
    {
      var c := cs[k];
      assert cs[..k + 1][..k] == cs[..k];
      if c.createdAt >= from {
        AtOrAfterMidnight(c.createdAt, fromDay);
        var d := DayOf(c.createdAt);
        groups := groups[d := Lookup(groups, d) + 1];
      } else {
        AtOrAfterMidnight(c.createdAt, fromDay);
      }
      k := k + 1;
    }
    assert cs[..k] == cs;
    values := [];
    var i := 0;
    while i < days
      invariant 0 <= i <= days
      invariant |values| == i
      invariant forall j :: 0 <= j < i ==> values[j] == CountCreatedOn(cs, fromDay + j)
    {
      values := values + [Lookup(groups, fromDay + i)];
      i := i + 1;
    }
  }

  /** The `days` calendar days ending with the day of `now`, and the complaints created on each. */
  method TrendWindow(cs: seq<Complaint>, now: Time, days: nat) returns (trendDays: seq<int>, trendValues: seq<nat>)
    ensures |trendDays| == days && |trendValues| == days
    ensures forall i :: 0 <= i < days ==> trendDays[i] == DayOf(now) - days + 1 + i
    ensures forall i :: 0 <= i < days ==> trendValues[i] == CountCreatedOn(cs, trendDays[i])
  {
    var fromDay := DayOf(now) - days + 1;
    trendValues := TrendSeries(cs, fromDay, days);
    trendDays := seq(days, i requires 0 <= i < days => fromDay + i);
  }

  /** Number of complaints in category `k`. */
  function CountCategory(cs: seq<Complaint>, k: Option<string>): nat
  {
    if |cs| == 0 then 0
    else CountCategory(cs[..|cs| - 1], k) + (if cs[|cs| - 1].category == k then 1 else 0)
  }

  lemma {:induction false} CountCategoryPositive(cs: seq<Complaint>, k: Option<string>)
    requires exists c :: c in cs && c.category == k
    ensures CountCategory(cs, k) > 0
    decreases |cs|
  {
    var last := cs[|cs| - 1];
    if last.category != k {
      assert cs == cs[..|cs| - 1] + [last];
      CountCategoryPositive(cs[..|cs| - 1], k);
    }
  }

  /** The distinct categories, in order of first appearance (the `GroupBy` keys). */
  function Categories(cs: seq<Complaint>): (ks: seq<Option<string>>)
    ensures NoDuplicates(ks)
    ensures forall k :: k in ks <==> exists c :: c in cs && c.category == k
    decreases |cs|
  {
    if |cs| == 0 then []
    else
      var last := cs[|cs| - 1];
      assert cs == cs[..|cs| - 1] + [last];
      var ks := Categories(cs[..|cs| - 1]);
      if last.category in ks then ks else ks + [last.category]
  }

  /** A category with its number of complaints. */
  datatype CategoryCount = CategoryCount(category: Option<string>, count: nat)

  function GroupCountOf(g: CategoryCount): int { g.count }

  /** `GroupBy(c => c.Category).Select(g => new { g.Key, g.Count() })`. */
  function CategoryGroups(cs: seq<Complaint>): (gs: seq<CategoryCount>)
    ensures NoDuplicates(gs)
    ensures forall g :: g in gs ==> g == CategoryCount(g.category, CountCategory(cs, g.category))
    ensures forall g :: g in gs ==> exists c :: c in cs && c.category == g.category
    ensures forall c :: c in cs ==> exists g :: g in gs && g.category == c.category
  {
    var ks := Categories(cs);
    var gs := seq(|ks|, i requires 0 <= i < |ks| => CategoryCount(ks[i], CountCategory(cs, ks[i])));
    assert forall c :: c in cs ==> gs[IndexOf(ks, c.category)].category == c.category;
    forall g | g in gs
      ensures exists c :: c in cs && c.category == g.category
    {
      var i :| 0 <= i < |gs| && gs[i] == g;
      assert ks[i] in ks;
    }
    gs
  }

  function IndexOf<T(==)>(s: seq<T>, x: T): (i: nat)
    requires x in s
    ensures i < |s| && s[i] == x
  {
    if s[0] == x then 0 else 1 + IndexOf(s[1..], x)
  }

  /** The category distribution ordered by descending count. */
  function CategoryDistribution(cs: seq<Complaint>): (r: seq<CategoryCount>)
    ensures SortedDesc(r, GroupCountOf)
    ensures forall g :: g in r ==> g.count == CountCategory(cs, g.category) && g.count > 0
    ensures forall i, j :: 0 <= i < j < |r| ==> r[i].category != r[j].category
  {
    var gs := CategoryGroups(cs);
    var r := SortDesc(gs, GroupCountOf);
    PermutationSameElements(gs, r);
    forall g | g in r
      ensures g.count > 0
    {
      CountCategoryPositive(cs, g.category);
    }
    PermutationKeepsNoDuplicates(gs, r);
    r
  }

  /** Every category some complaint carries has its entry in the distribution. */
  lemma DistributionCoversEveryCategory(cs: seq<Complaint>)
    ensures forall c :: c in cs ==> exists g :: g in CategoryDistribution(cs) && g.category == c.category
  {
    var gs := CategoryGroups(cs);
    PermutationSameElements(gs, CategoryDistribution(cs));
  }

  /** The label a category is shown under. */
  function CategoryLabel(k: Option<string>): string {
    k.GetOr("Other")
  }

  datatype TopCategory = TopCategory(category: string, count: nat)

  /** The chart labels of a distribution (`x.Category ?? "Other"`). */
  function LabelsOf(dist: seq<CategoryCount>): (r: seq<string>)
    ensures |r| == |dist| && forall i :: 0 <= i < |dist| ==> r[i] == CategoryLabel(dist[i].category)
  {
    seq(|dist|, i requires 0 <= i < |dist| => CategoryLabel(dist[i].category))
  }

  /** The chart values of a distribution. */
  function ValuesOf(dist: seq<CategoryCount>): (r: seq<nat>)
    ensures |r| == |dist| && forall i :: 0 <= i < |dist| ==> r[i] == dist[i].count
  {
    seq(|dist|, i requires 0 <= i < |dist| => dist[i].count)
  }

  /** `cats.Take(6)` as label-count rows. */
  function TopOf(dist: seq<CategoryCount>): (r: seq<TopCategory>)
    ensures |r| == if |dist| < 6 then |dist| else 6
    ensures forall i :: 0 <= i < |r| ==> r[i] == TopCategory(CategoryLabel(dist[i].category), dist[i].count)
  {
    var top := Take(dist, 6);
    seq(|top|, i requires 0 <= i < |top| => TopCategory(CategoryLabel(top[i].category), top[i].count))
  }

  /** The category chart and the top-six list of the report. */
  datatype CategoryChart = CategoryChart(labels: seq<string>, values: seq<nat>, top: seq<TopCategory>)

  /** Labels and counts in descending order of count, and the first six of them. */
  function ChartOf(cs: seq<Complaint>): (r: CategoryChart)
    ensures |r.labels| == |r.values|
    ensures forall i, j :: 0 <= i < j < |r.values| ==> r.values[i] >= r.values[j]
    ensures var dist := CategoryDistribution(cs);
      && |dist| == |r.values|
      && forall i :: 0 <= i < |dist| ==>
           r.labels[i] == CategoryLabel(dist[i].category)
           && r.values[i] == CountCategory(cs, dist[i].category)
    ensures |r.top| == if |r.values| < 6 then |r.values| else 6
    ensures forall i :: 0 <= i < |r.top| ==> r.top[i] == TopCategory(r.labels[i], r.values[i])
  {
    var dist := CategoryDistribution(cs);
    var r := CategoryChart(LabelsOf(dist), ValuesOf(dist), TopOf(dist));
    forall i, j | 0 <= i < j < |dist|
      ensures r.values[i] >= r.values[j]
    {
      assert GroupCountOf(dist[i]) >= GroupCountOf(dist[j]);
    }
    forall i | 0 <= i < |dist|
      ensures r.values[i] == CountCategory(cs, dist[i].category)
    {
      assert dist[i] in dist;
    }
    r
  }

  /** What `SystemOverview` shows; the trend labels are kept as day numbers. */
  datatype OverviewView = OverviewView(
    days: int,
    totalUsers: nat,
    totalComplaints: nat,
    resolved: nat,
    pending: nat,
    avgResolutionDays: int,
    trendDays: seq<int>,
    trendValues: seq<nat>,
    categoryLabels: seq<string>,
    categoryValues: seq<nat>,
    statusLabels: seq<string>,
    statusValues: seq<nat>,
    topCategories: seq<TopCategory>)

  /**
   * `SystemOverview(days)` on the day `now` falls in. The window's first day
   * comes from `AddDays(-days + 1)`, which throws when it would fall before
   * 0001-01-01 (day 0); the request then fails and no view is shown.
   */
  method SystemOverview(s: Store, days: int, now: Time) returns (r: Option<OverviewView>)
    ensures r.None? <==> DayOf(now) - (if days <= 0 then 30 else days) + 1 < 0
    ensures r.Some? ==> var v := r.value;
      && v.days == (if days <= 0 then 30 else days)
      && |v.trendDays| == v.days && |v.trendValues| == v.days
      && (forall i :: 0 <= i < v.days ==> v.trendDays[i] == DayOf(now) - v.days + 1 + i)
      && (forall i :: 0 <= i < v.days ==> v.trendDays[i] >= 0)
      && (forall i :: 0 <= i < v.days ==> v.trendValues[i] == CountCreatedOn(s.complaints, v.trendDays[i]))
    ensures r.Some? ==> var v := r.value;
      && |v.categoryLabels| == |v.categoryValues|
      && (forall i, j :: 0 <= i < j < |v.categoryValues| ==> v.categoryValues[i] >= v.categoryValues[j])
      && var dist := CategoryDistribution(s.complaints);
      && |dist| == |v.categoryValues|
      && (forall i :: 0 <= i < |dist| ==>
            v.categoryLabels[i] == CategoryLabel(dist[i].category)
            && v.categoryValues[i] == CountCategory(s.complaints, dist[i].category))
      && |v.topCategories| == (if |v.categoryValues| < 6 then |v.categoryValues| else 6)
      && (forall i :: 0 <= i < |v.topCategories| ==>
            v.topCategories[i] == TopCategory(v.categoryLabels[i], v.categoryValues[i]))
    ensures r.Some? ==> var v := r.value;
      && v.statusLabels == ["Pending", "Resolved"] && v.statusValues == [v.pending, v.resolved]
      && v.pending == CountStatus(s.complaints, "Pending") && v.resolved == CountStatus(s.complaints, "Resolved")
      && v.pending + v.resolved <= v.totalComplaints
      && v.totalUsers == |s.users| && v.totalComplaints == |s.complaints| && v.avgResolutionDays == 0
  {
    var effective := if days <= 0 then 30 else days;
    if DayOf(now) - effective + 1 < 0 {
      return None;
    }
    StatusCountsBounded(s.complaints);
    var pending := CountStatus(s.complaints, "Pending");
    var resolved := CountStatus(s.complaints, "Resolved");
    var trendDays, trend := TrendWindow(s.complaints, now, effective);
    var chart := ChartOf(s.complaints);
    r := Some(OverviewView(effective, |s.users|, |s.complaints|, resolved, pending, 0,
                           trendDays, trend, chart.labels, chart.values,
                           ["Pending", "Resolved"], [pending, resolved], chart.top));
  }
}
