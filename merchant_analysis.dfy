/**
 * The five analyses of `MerchantAnalysis` over the cleaned transaction table.
 * The class holds no state, so each analysis is a function of the rows.
 */
module MerchantAnalysis {
  import opened Wrappers
  import opened Transactions
  import opened Formats
  import opened Ordering
  import opened Grouping
  import opened Ranking

  // ---------------------------------------------------------------------
  // Task 1: top 5 merchants by purchase total per city and month
  // ---------------------------------------------------------------------

  datatype MonthCityMerchant = MonthCityMerchant(year: Year, month: Month, cityId: Option<int>, merchantName: string)

  datatype MonthCity = MonthCity(year: Year, month: Month, cityId: Option<int>)

  function MonthCityMerchantOf(t: Transaction): MonthCityMerchant {
    MonthCityMerchant(t.year, t.month, t.cityId, t.merchantName)
  }

  /** The window partition: year, month and city. */
  function MonthCityOf(g: Group<MonthCityMerchant>): MonthCity {
    MonthCity(g.key.year, g.key.month, g.key.cityId)
  }

  /** The window order's columns: purchase_total, then no_of_sales. */
  function TotalAndSales(g: Group<MonthCityMerchant>): (real, int) {
    (g.total, g.count)
  }

  /** `desc(purchase_total), desc(no_of_sales)`: a higher total first, then more sales. */
  predicate HigherTotalThenSales(a: (real, int), b: (real, int)) {
    a.0 > b.0 || (a.0 == b.0 && a.1 > b.1)
  }

  lemma HigherTotalThenSalesIsStrict()
    ensures StrictTotalOrder(HigherTotalThenSales)
  {
  }

  /** Purchase total and number of sales per year, month, city and merchant. */
  function MonthlyMerchantTotals(rows: seq<Transaction>): (gs: seq<Group<MonthCityMerchant>>)
    ensures Aggregates(rows, MonthCityMerchantOf, gs)
  {
    GroupBy(rows, MonthCityMerchantOf)
  }

  /** Summed over all groups, no_of_sales gives the number of transactions. */
  lemma MonthlySalesCoverTransactions(rows: seq<Transaction>)
    ensures TotalCount(MonthlyMerchantTotals(rows)) == |rows|
  {
    CountsCoverRows(rows, MonthCityMerchantOf, MonthlyMerchantTotals(rows));
  }

  /**
   * `dense_rank()` over the city-and-month window: a merchant ranks first
   * exactly when no merchant of its city and month has a higher total, or the
   * same total and more sales (`HigherTotalThenSales`).
   */
  function MonthlyMerchantRank(rows: seq<Transaction>, g: Group<MonthCityMerchant>): (r: nat)
    ensures r >= 1
    ensures r == 1 <==> Unbeaten(MonthlyMerchantTotals(rows), MonthCityOf, TotalAndSales, HigherTotalThenSales, g)
  {
    DenseRank(MonthlyMerchantTotals(rows), MonthCityOf, TotalAndSales, HigherTotalThenSales, g)
  }

  /**
   * The rank is a dense rank within year, month and city: two merchants share
   * a rank exactly when they tie on total and sales, a smaller rank means a
   * higher total (or an equal total and more sales), and every rank from 1 up
   * to a merchant's own is held by some merchant of the same city and month.
   */
  lemma MonthlyMerchantRankIsDense(rows: seq<Transaction>, g: Group<MonthCityMerchant>, h: Group<MonthCityMerchant>, k: nat)
    requires g in MonthlyMerchantTotals(rows) && h in MonthlyMerchantTotals(rows)
    requires MonthCityOf(g) == MonthCityOf(h)
    ensures MonthlyMerchantRank(rows, g) == MonthlyMerchantRank(rows, h) <==> (g.total, g.count) == (h.total, h.count)
    ensures MonthlyMerchantRank(rows, g) < MonthlyMerchantRank(rows, h) <==>
              g.total > h.total || (g.total == h.total && g.count > h.count)
    ensures 1 <= k <= MonthlyMerchantRank(rows, g) ==>
              exists m :: m in MonthlyMerchantTotals(rows) && MonthCityOf(m) == MonthCityOf(g) && MonthlyMerchantRank(rows, m) == k
  {
    var gs := MonthlyMerchantTotals(rows);
    HigherTotalThenSalesIsStrict();
    RankOrder(gs, MonthCityOf, TotalAndSales, HigherTotalThenSales, g, h);
    if 1 <= k <= MonthlyMerchantRank(rows, g) {
      RankNoGaps(gs, MonthCityOf, TotalAndSales, HigherTotalThenSales, g, k);
    }
  }

  type RankedMerchant = Ranked<Group<MonthCityMerchant>>

  /** The merchants whose rank is at most 5, each with its rank, none listed twice. */
  function TopMonthlyMerchants(rows: seq<Transaction>): (r: seq<RankedMerchant>)
    ensures forall e :: e in r ==>
              e.item in MonthlyMerchantTotals(rows) && e.rank == MonthlyMerchantRank(rows, e.item) && 1 <= e.rank <= 5
    ensures forall g :: g in MonthlyMerchantTotals(rows) && MonthlyMerchantRank(rows, g) <= 5 ==>
              Ranked(g, MonthlyMerchantRank(rows, g)) in r
    ensures forall i, j :: 0 <= i < j < |r| ==> r[i].item != r[j].item
  {
    var gs := MonthlyMerchantTotals(rows);
    assert Distinct(gs);
    KeepRanked(gs, MonthCityOf, TotalAndSales, HigherTotalThenSales, 5)
  }

  /** The sort key as the source writes it: year, the "MMM yyyy" label, city, rank. */
  function LabelOrder(e: RankedMerchant): seq<Atom> {
    [Int(e.item.key.year), Text(MonthLabel(e.item.key.year, e.item.key.month)), NullableInt(e.item.key.cityId), Int(e.rank)]
  }

  /** The sort key by calendar month: year, month number, city, rank. */
  function CalendarOrder(e: RankedMerchant): seq<Atom> {
    [Int(e.item.key.year), Int(e.item.key.month), NullableInt(e.item.key.cityId), Int(e.rank)]
  }

  function LabelOf(e: RankedMerchant): string {
    MonthLabel(e.item.key.year, e.item.key.month)
  }

  lemma LabelOrderMeaning(a: RankedMerchant, b: RankedMerchant)
    requires KeyLe(LabelOrder(a), LabelOrder(b))
    ensures a.item.key.year <= b.item.key.year
    ensures a.item.key.year == b.item.key.year ==> !TextLess(LabelOf(b), LabelOf(a))
    ensures a.item.key.year == b.item.key.year && a.item.key.month == b.item.key.month ==>
              !NullsFirstLess(b.item.key.cityId, a.item.key.cityId)
    ensures MonthCityOf(a.item) == MonthCityOf(b.item) ==> a.rank <= b.rank
  {
    var ka, kb := LabelOrder(a), LabelOrder(b);
    assert ka[1..] == [ka[1], ka[2], ka[3]] && kb[1..] == [kb[1], kb[2], kb[3]];
    assert ka[1..][1..] == [ka[2], ka[3]] && kb[1..][1..] == [kb[2], kb[3]];
    assert ka[1..][1..][1..] == [ka[3]] && kb[1..][1..][1..] == [kb[3]];
    TextLessIrreflexive(LabelOf(a));
    if TextLess(LabelOf(b), LabelOf(a)) && TextLess(LabelOf(a), LabelOf(b)) {
      TextLessTransitive(LabelOf(a), LabelOf(b), LabelOf(a));
    }
    if a.item.key.year == b.item.key.year && a.item.key.month == b.item.key.month {
      AtomLessIrreflexive(ka[0]);
      AtomLessIrreflexive(ka[1]);
      AtomLessIrreflexive(ka[2]);
      assert KeyLe(ka[1..], kb[1..]);
      assert KeyLe(ka[1..][1..], kb[1..][1..]);
      if AtomLess(ka[2], kb[2]) && AtomLess(kb[2], ka[2]) {
        AtomLessTransitive(ka[2], kb[2], ka[2]);
      }
    }
    if MonthCityOf(a.item) == MonthCityOf(b.item) {
      AtomLessIrreflexive(ka[0]);
      AtomLessIrreflexive(ka[1]);
      AtomLessIrreflexive(ka[2]);
      assert KeyLe(ka[1..], kb[1..]);
      assert KeyLe(ka[1..][1..], kb[1..][1..]);
      assert KeyLe([ka[3]], [kb[3]]);
      KeyLeSingle(ka[3], kb[3]);
    }
  }

  lemma CalendarOrderMeaning(a: RankedMerchant, b: RankedMerchant)
    requires KeyLe(CalendarOrder(a), CalendarOrder(b))
    ensures a.item.key.year < b.item.key.year || (a.item.key.year == b.item.key.year && a.item.key.month <= b.item.key.month)
    ensures a.item.key.year == b.item.key.year && a.item.key.month == b.item.key.month ==>
              !NullsFirstLess(b.item.key.cityId, a.item.key.cityId)
    ensures MonthCityOf(a.item) == MonthCityOf(b.item) ==> a.rank <= b.rank
  {
    var ka, kb := CalendarOrder(a), CalendarOrder(b);
    assert ka[1..] == [ka[1], ka[2], ka[3]] && kb[1..] == [kb[1], kb[2], kb[3]];
    assert ka[1..][1..] == [ka[2], ka[3]] && kb[1..][1..] == [kb[2], kb[3]];
    assert ka[1..][1..][1..] == [ka[3]] && kb[1..][1..][1..] == [kb[3]];
    if a.item.key.year == b.item.key.year && a.item.key.month == b.item.key.month {
      AtomLessIrreflexive(ka[0]);
      AtomLessIrreflexive(ka[1]);
      AtomLessIrreflexive(ka[2]);
      assert KeyLe(ka[1..], kb[1..]);
      assert KeyLe(ka[1..][1..], kb[1..][1..]);
      if AtomLess(ka[2], kb[2]) && AtomLess(kb[2], ka[2]) {
        AtomLessTransitive(ka[2], kb[2], ka[2]);
      }
    }
    if MonthCityOf(a.item) == MonthCityOf(b.item) {
      AtomLessIrreflexive(ka[0]);
      AtomLessIrreflexive(ka[1]);
      AtomLessIrreflexive(ka[2]);
      assert KeyLe(ka[1..], kb[1..]);
      assert KeyLe(ka[1..][1..], kb[1..][1..]);
      assert KeyLe([ka[3]], [kb[3]]);
      KeyLeSingle(ka[3], kb[3]);
    }
  }

  /**
   * The ranked merchants in the order of `orderBy("year", "month", "city_id",
   * "rank")` as written: there "month" is the formatted label, so within a
   * year the months come in alphabetical order of their labels.
   */
  function RankedMonthlyMerchants(rows: seq<Transaction>): (r: seq<RankedMerchant>)
    ensures multiset(r) == multiset(TopMonthlyMerchants(rows))
    ensures forall i, j :: 0 <= i < j < |r| ==> r[i].item.key.year <= r[j].item.key.year
    ensures forall i, j :: 0 <= i < j < |r| && r[i].item.key.year == r[j].item.key.year ==> !TextLess(LabelOf(r[j]), LabelOf(r[i]))
    ensures forall i, j :: 0 <= i < j < |r| && r[i].item.key.year == r[j].item.key.year && r[i].item.key.month == r[j].item.key.month ==>
              !NullsFirstLess(r[j].item.key.cityId, r[i].item.key.cityId)
    ensures forall i, j :: 0 <= i < j < |r| && MonthCityOf(r[i].item) == MonthCityOf(r[j].item) ==> r[i].rank <= r[j].rank
    ensures forall i, j :: 0 <= i < j < |r| ==> r[i].item != r[j].item
  {
    var r := SortBy(TopMonthlyMerchants(rows), LabelOrder);
    SortedByLabel(r);
    PermutationKeepsKeysDistinct(TopMonthlyMerchants(rows), r, ItemOf);
    r
  }

  lemma SortedByLabel(r: seq<RankedMerchant>)
    requires SortedBy(r, LabelOrder)
    ensures forall i, j :: 0 <= i < j < |r| ==> r[i].item.key.year <= r[j].item.key.year
    ensures forall i, j :: 0 <= i < j < |r| && r[i].item.key.year == r[j].item.key.year ==> !TextLess(LabelOf(r[j]), LabelOf(r[i]))
    ensures forall i, j :: 0 <= i < j < |r| && r[i].item.key.year == r[j].item.key.year && r[i].item.key.month == r[j].item.key.month ==>
              !NullsFirstLess(r[j].item.key.cityId, r[i].item.key.cityId)
    ensures forall i, j :: 0 <= i < j < |r| && MonthCityOf(r[i].item) == MonthCityOf(r[j].item) ==> r[i].rank <= r[j].rank
  {
    forall i, j | 0 <= i < j < |r|
      ensures r[i].item.key.year <= r[j].item.key.year
      ensures r[i].item.key.year == r[j].item.key.year ==> !TextLess(LabelOf(r[j]), LabelOf(r[i]))
      ensures r[i].item.key.year == r[j].item.key.year && r[i].item.key.month == r[j].item.key.month ==>
                !NullsFirstLess(r[j].item.key.cityId, r[i].item.key.cityId)
      ensures MonthCityOf(r[i].item) == MonthCityOf(r[j].item) ==> r[i].rank <= r[j].rank
    {
      LabelOrderMeaning(r[i], r[j]);
    }
  }

  /** The ranked merchants in calendar order: year, month number, city, rank. */
  function RankedMonthlyMerchantsChronological(rows: seq<Transaction>): (r: seq<RankedMerchant>)
    ensures multiset(r) == multiset(TopMonthlyMerchants(rows))
    ensures forall i, j :: 0 <= i < j < |r| ==>
              r[i].item.key.year < r[j].item.key.year
              || (r[i].item.key.year == r[j].item.key.year && r[i].item.key.month <= r[j].item.key.month)
    ensures forall i, j :: 0 <= i < j < |r| && r[i].item.key.year == r[j].item.key.year && r[i].item.key.month == r[j].item.key.month ==>
              !NullsFirstLess(r[j].item.key.cityId, r[i].item.key.cityId)
    ensures forall i, j :: 0 <= i < j < |r| && MonthCityOf(r[i].item) == MonthCityOf(r[j].item) ==> r[i].rank <= r[j].rank
    ensures forall i, j :: 0 <= i < j < |r| ==> r[i].item != r[j].item
  {
    var r := SortBy(TopMonthlyMerchants(rows), CalendarOrder);
    SortedByCalendar(r);
    PermutationKeepsKeysDistinct(TopMonthlyMerchants(rows), r, ItemOf);
    r
  }

  lemma SortedByCalendar(r: seq<RankedMerchant>)
    requires SortedBy(r, CalendarOrder)
    ensures forall i, j :: 0 <= i < j < |r| ==>
              r[i].item.key.year < r[j].item.key.year
              || (r[i].item.key.year == r[j].item.key.year && r[i].item.key.month <= r[j].item.key.month)
    ensures forall i, j :: 0 <= i < j < |r| && r[i].item.key.year == r[j].item.key.year && r[i].item.key.month == r[j].item.key.month ==>
              !NullsFirstLess(r[j].item.key.cityId, r[i].item.key.cityId)
    ensures forall i, j :: 0 <= i < j < |r| && MonthCityOf(r[i].item) == MonthCityOf(r[j].item) ==> r[i].rank <= r[j].rank
  {
    forall i, j | 0 <= i < j < |r|
      ensures r[i].item.key.year < r[j].item.key.year
              || (r[i].item.key.year == r[j].item.key.year && r[i].item.key.month <= r[j].item.key.month)
      ensures r[i].item.key.year == r[j].item.key.year && r[i].item.key.month == r[j].item.key.month ==>
                !NullsFirstLess(r[j].item.key.cityId, r[i].item.key.cityId)
      ensures MonthCityOf(r[i].item) == MonthCityOf(r[j].item) ==> r[i].rank <= r[j].rank
    {
      CalendarOrderMeaning(r[i], r[j]);
    }
  }

  /** Every "Feb yyyy" label sorts before "Jan yyyy" of the same year. */
  lemma FebruaryLabelBeforeJanuary(y: Year)
    ensures TextLess(MonthLabel(y, 2), MonthLabel(y, 1))
  {
    assert MonthLabel(y, 2)[0] == MonthLabel(y, 2)[..3][0] == 'F';
    assert MonthLabel(y, 1)[0] == MonthLabel(y, 1)[..3][0] == 'J';
  }

  /**
   * As written, whenever January and February of one year both appear, the
   * February rows come first.
   */
  lemma FebruaryListedBeforeJanuary(rows: seq<Transaction>, i: nat, j: nat)
    requires i < |RankedMonthlyMerchants(rows)| && j < |RankedMonthlyMerchants(rows)|
    requires RankedMonthlyMerchants(rows)[i].item.key.year == RankedMonthlyMerchants(rows)[j].item.key.year
    requires RankedMonthlyMerchants(rows)[i].item.key.month == 1 && RankedMonthlyMerchants(rows)[j].item.key.month == 2
    ensures j < i
  {
    var r := RankedMonthlyMerchants(rows);
    FebruaryLabelBeforeJanuary(r[i].item.key.year);
    assert TextLess(LabelOf(r[j]), LabelOf(r[i]));
  }

  /** In calendar order January rows come before February rows of the same year. */
  lemma JanuaryListedBeforeFebruary(rows: seq<Transaction>, i: nat, j: nat)
    requires i < |RankedMonthlyMerchantsChronological(rows)| && j < |RankedMonthlyMerchantsChronological(rows)|
    requires RankedMonthlyMerchantsChronological(rows)[i].item.key.year == RankedMonthlyMerchantsChronological(rows)[j].item.key.year
    requires RankedMonthlyMerchantsChronological(rows)[i].item.key.month == 1
    requires RankedMonthlyMerchantsChronological(rows)[j].item.key.month == 2
    ensures i < j
  {
  }

  /** After the rank filter each city and month holds at most 5 distinct ranks. */
  lemma AtMostFiveRanksPerMonthCity(rows: seq<Transaction>, p: MonthCity)
    ensures |RanksIn(RankedMonthlyMerchants(rows), MonthCityOf, p)| <= 5
  {
    var r := RankedMonthlyMerchants(rows);
    forall e | e in r ensures 1 <= e.rank <= 5 {
      assert e in multiset(TopMonthlyMerchants(rows));
    }
    AtMostLimitRanks(r, MonthCityOf, 5, p);
  }

  /** Every listed merchant is a monthly group with its rank, and that rank is at most 5. */
  lemma RankedMerchantsAreRanked(rows: seq<Transaction>)
    ensures forall e :: e in RankedMonthlyMerchants(rows) ==>
              e.item in MonthlyMerchantTotals(rows) && e.rank == MonthlyMerchantRank(rows, e.item) && 1 <= e.rank <= 5
  {
    forall e | e in RankedMonthlyMerchants(rows)
      ensures e.item in MonthlyMerchantTotals(rows) && e.rank == MonthlyMerchantRank(rows, e.item) && 1 <= e.rank <= 5
    {
      assert e in multiset(TopMonthlyMerchants(rows));
    }
  }

  /**
   * When no two merchants of a city and month tie on total and sales, at most
   * 5 merchants are listed for that city and month.
   */
  lemma AtMostFiveMerchantsWithoutTies(rows: seq<Transaction>, p: MonthCity)
    requires forall g, h ::
               (g in MonthlyMerchantTotals(rows) && h in MonthlyMerchantTotals(rows) && g != h
                && MonthCityOf(g) == p && MonthCityOf(h) == p) ==> TotalAndSales(g) != TotalAndSales(h)
    ensures |ItemsIn(RankedMonthlyMerchants(rows), MonthCityOf, p)| <= 5
    ensures RowsIn(RankedMonthlyMerchants(rows), MonthCityOf, p) <= 5
  {
    var r := RankedMonthlyMerchants(rows);
    RankedMerchantsAreRanked(rows);
    HigherTotalThenSalesIsStrict();
    AtMostLimitRowsWithoutTies(MonthlyMerchantTotals(rows), MonthCityOf, TotalAndSales, HigherTotalThenSales, 5, r, p);
  }

  /** Within one city and month, the listed purchase totals never increase. */
  lemma MonthlyTotalsNonIncreasing(rows: seq<Transaction>, i: nat, j: nat)
    requires i < j < |RankedMonthlyMerchants(rows)|
    requires MonthCityOf(RankedMonthlyMerchants(rows)[i].item) == MonthCityOf(RankedMonthlyMerchants(rows)[j].item)
    ensures RankedMonthlyMerchants(rows)[i].item.total >= RankedMonthlyMerchants(rows)[j].item.total
  {
    var r := RankedMonthlyMerchants(rows);
    assert r[i] in multiset(TopMonthlyMerchants(rows)) && r[j] in multiset(TopMonthlyMerchants(rows));
    MonthlyMerchantRankIsDense(rows, r[i].item, r[j].item, 0);
  }

  /** One row of the Task 1 result. */
  datatype MonthlyTopMerchant = MonthlyTopMerchant(
    month: string,
    cityId: Option<int>,
    merchantName: string,
    purchaseTotal: real,
    noOfSales: nat)

  /** The selected columns: the month label, the city, the merchant, the rounded total and the sales. */
  function RenderMonthlyTop(ranked: seq<RankedMerchant>): (r: seq<MonthlyTopMerchant>)
    ensures |r| == |ranked|
    ensures forall i :: 0 <= i < |r| ==>
              && r[i].month == LabelOf(ranked[i])
              && ParseMonthLabel(r[i].month) == Some((ranked[i].item.key.year, ranked[i].item.key.month))
              && r[i].cityId == ranked[i].item.key.cityId
              && r[i].merchantName == ranked[i].item.key.merchantName
              && -0.005 <= r[i].purchaseTotal - ranked[i].item.total <= 0.005
              && r[i].noOfSales == ranked[i].item.count
  {
    var r := seq(|ranked|, i requires 0 <= i < |ranked| =>
      var g := ranked[i].item;
      MonthlyTopMerchant(MonthLabel(g.key.year, g.key.month), g.key.cityId, g.key.merchantName, Round2(g.total), g.count));
    assert forall i :: 0 <= i < |r| ==> ParseMonthLabel(r[i].month) == Some((ranked[i].item.key.year, ranked[i].item.key.month)) by {
      forall i | 0 <= i < |r| {
        MonthLabelRoundTrip(ranked[i].item.key.year, ranked[i].item.key.month);
      }
    }
    r
  }

  /**
   * Rendering keeps the city order: rows with the same month label list
   * their cities in ascending order, nulls first.
   */
  lemma RenderedCitiesAscending(ranked: seq<RankedMerchant>)
    requires forall i, j ::
               (0 <= i < j < |ranked| && ranked[i].item.key.year == ranked[j].item.key.year
                && ranked[i].item.key.month == ranked[j].item.key.month) ==>
               !NullsFirstLess(ranked[j].item.key.cityId, ranked[i].item.key.cityId)
    ensures var r := RenderMonthlyTop(ranked);
            forall i, j :: 0 <= i < j < |r| && r[i].month == r[j].month ==> !NullsFirstLess(r[j].cityId, r[i].cityId)
  {
    var r := RenderMonthlyTop(ranked);
    forall i, j | 0 <= i < j < |r| && r[i].month == r[j].month
      ensures !NullsFirstLess(r[j].cityId, r[i].cityId)
    {
      assert ParseMonthLabel(r[i].month) == ParseMonthLabel(r[j].month);
    }
  }

  /** `task1_top_merchants_by_city_month`, in the order the source writes. */
  function TopMerchantsByCityMonth(rows: seq<Transaction>): (r: seq<MonthlyTopMerchant>)
    ensures |r| == |RankedMonthlyMerchants(rows)|
    ensures forall i :: 0 <= i < |r| ==>
              && r[i].month == LabelOf(RankedMonthlyMerchants(rows)[i])
              && ParseMonthLabel(r[i].month) == Some((RankedMonthlyMerchants(rows)[i].item.key.year, RankedMonthlyMerchants(rows)[i].item.key.month))
              && r[i].cityId == RankedMonthlyMerchants(rows)[i].item.key.cityId
              && r[i].merchantName == RankedMonthlyMerchants(rows)[i].item.key.merchantName
              && -0.005 <= r[i].purchaseTotal - RankedMonthlyMerchants(rows)[i].item.total <= 0.005
              && r[i].noOfSales == RankedMonthlyMerchants(rows)[i].item.count
    ensures forall i, j :: 0 <= i < j < |r| && r[i].month == r[j].month ==> !NullsFirstLess(r[j].cityId, r[i].cityId)
  {
    var ranked := RankedMonthlyMerchants(rows);
    RenderedCitiesAscending(ranked);
    RenderMonthlyTop(ranked)
  }

  /** Task 1 with the months in calendar order. */
  function TopMerchantsByCityMonthChronological(rows: seq<Transaction>): (r: seq<MonthlyTopMerchant>)
    ensures |r| == |RankedMonthlyMerchantsChronological(rows)|
    ensures forall i :: 0 <= i < |r| ==>
              && r[i].month == LabelOf(RankedMonthlyMerchantsChronological(rows)[i])
              && ParseMonthLabel(r[i].month) == Some((RankedMonthlyMerchantsChronological(rows)[i].item.key.year, RankedMonthlyMerchantsChronological(rows)[i].item.key.month))
              && r[i].cityId == RankedMonthlyMerchantsChronological(rows)[i].item.key.cityId
              && r[i].merchantName == RankedMonthlyMerchantsChronological(rows)[i].item.key.merchantName
              && -0.005 <= r[i].purchaseTotal - RankedMonthlyMerchantsChronological(rows)[i].item.total <= 0.005
              && r[i].noOfSales == RankedMonthlyMerchantsChronological(rows)[i].item.count
    ensures forall i, j :: 0 <= i < j < |r| ==>
              var a := ParseMonthLabel(r[i].month).value;
              var b := ParseMonthLabel(r[j].month).value;
              a.0 < b.0 || (a.0 == b.0 && a.1 <= b.1)
    ensures forall i, j :: 0 <= i < j < |r| && r[i].month == r[j].month ==> !NullsFirstLess(r[j].cityId, r[i].cityId)
  {
    var ranked := RankedMonthlyMerchantsChronological(rows);
    RenderedCitiesAscending(ranked);
    RenderedInCalendarOrder(ranked);
    RenderMonthlyTop(ranked)
  }

  /** Rendering keeps the calendar order of the months. */
  lemma RenderedInCalendarOrder(ranked: seq<RankedMerchant>)
    requires forall i, j :: 0 <= i < j < |ranked| ==>
               ranked[i].item.key.year < ranked[j].item.key.year
               || (ranked[i].item.key.year == ranked[j].item.key.year && ranked[i].item.key.month <= ranked[j].item.key.month)
    ensures var r := RenderMonthlyTop(ranked);
            forall i, j :: 0 <= i < j < |r| ==>
              var a := ParseMonthLabel(r[i].month).value;
              var b := ParseMonthLabel(r[j].month).value;
              a.0 < b.0 || (a.0 == b.0 && a.1 <= b.1)
  {
    var r := RenderMonthlyTop(ranked);
    forall i, j | 0 <= i < j < |r|
      ensures var a := ParseMonthLabel(r[i].month).value;
              var b := ParseMonthLabel(r[j].month).value;
              a.0 < b.0 || (a.0 == b.0 && a.1 <= b.1)
    {
      assert ParseMonthLabel(r[i].month) == Some((ranked[i].item.key.year, ranked[i].item.key.month));
      assert ParseMonthLabel(r[j].month) == Some((ranked[j].item.key.year, ranked[j].item.key.month));
    }
  }

  // ---------------------------------------------------------------------
  // Shared by several reports
  // ---------------------------------------------------------------------

  /** The exact mean of a group's amounts (Spark's `avg`). */
  function Mean<K>(g: Group<K>): (r: real)
    requires g.count >= 1
    ensures r * g.count as real == g.total
  {
    g.total / g.count as real
  }

  /** A strict "larger first" order on totals. */
  predicate Greater(a: real, b: real) {
    a > b
  }

  lemma GreaterIsStrict()
    ensures StrictTotalOrder(Greater)
  {
  }

  /** A strict "larger first" order on counts. */
  predicate More(a: int, b: int) {
    a > b
  }

  lemma MoreIsStrict()
    ensures StrictTotalOrder(More)
  {
  }

  /** Sorting by the single key `[Real(-x)]` puts larger values first. */
  lemma DescendingMeaning(x: real, y: real)
    requires KeyLe([Real(-x)], [Real(-y)])
    ensures x >= y
  {
    KeyLeSingle(Real(-x), Real(-y));
  }

  // ---------------------------------------------------------------------
  // Task 2: average sale per merchant and state
  // ---------------------------------------------------------------------

  datatype MerchantState = MerchantState(merchantName: string, stateId: Option<int>)

  function MerchantStateOf(t: Transaction): MerchantState {
    MerchantState(t.merchantName, t.stateId)
  }

  /** One row of the Task 2 result. */
  datatype MerchantStateAverage = MerchantStateAverage(merchantName: string, stateId: Option<int>, averageAmount: real)

  function KeyOfAverage(a: MerchantStateAverage): MerchantState {
    MerchantState(a.merchantName, a.stateId)
  }

  /** `a` is the rounded average of its merchant and state over `rows`. */
  ghost predicate AverageOfGroup(rows: seq<Transaction>, a: MerchantStateAverage) {
    && HasKey(rows, MerchantStateOf, KeyOfAverage(a))
    && CountOf(rows, MerchantStateOf, KeyOfAverage(a)) >= 1
    && a.averageAmount == Round2(SumOf(rows, MerchantStateOf, KeyOfAverage(a)) / CountOf(rows, MerchantStateOf, KeyOfAverage(a)) as real)
  }

  function AverageRows(gs: seq<Group<MerchantState>>): (r: seq<MerchantStateAverage>)
    requires forall i :: 0 <= i < |gs| ==> gs[i].count >= 1
    ensures |r| == |gs|
    ensures forall i :: 0 <= i < |r| ==> KeyOfAverage(r[i]) == gs[i].key && r[i].averageAmount == Round2(Mean(gs[i]))
  {
    seq(|gs|, i requires 0 <= i < |gs| => MerchantStateAverage(gs[i].key.merchantName, gs[i].key.stateId, Round2(Mean(gs[i]))))
  }

  function DescendingAverage(a: MerchantStateAverage): seq<Atom> {
    [Real(-a.averageAmount)]
  }

  lemma AverageRowsOfGroups(rows: seq<Transaction>, gs: seq<Group<MerchantState>>)
    requires Aggregates(rows, MerchantStateOf, gs)
    ensures forall a :: a in AverageRows(gs) ==> AverageOfGroup(rows, a)
    ensures forall k :: HasKey(rows, MerchantStateOf, k) ==> exists a :: a in AverageRows(gs) && KeyOfAverage(a) == k
    ensures forall i, j :: 0 <= i < j < |AverageRows(gs)| ==> KeyOfAverage(AverageRows(gs)[i]) != KeyOfAverage(AverageRows(gs)[j])
  {
    var u := AverageRows(gs);
    forall a | a in u ensures AverageOfGroup(rows, a) {
      var i :| 0 <= i < |u| && u[i] == a;
      assert KeyOfAverage(a) == gs[i].key;
    }
    forall k | HasKey(rows, MerchantStateOf, k) ensures exists a :: a in u && KeyOfAverage(a) == k {
      var i :| 0 <= i < |gs| && gs[i].key == k;
      assert u[i] in u;
    }
  }

  /**
   * `task2_average_sale_by_merchant_state`: one row per merchant and state
   * (a null state is a state of its own) holding the rounded average amount,
   * largest average first.
   */
  function AverageSaleByMerchantState(rows: seq<Transaction>): (r: seq<MerchantStateAverage>)
    ensures forall i :: 0 <= i < |r| ==> AverageOfGroup(rows, r[i])
    ensures forall k :: HasKey(rows, MerchantStateOf, k) ==> exists i :: 0 <= i < |r| && KeyOfAverage(r[i]) == k
    ensures forall i, j :: 0 <= i < j < |r| ==> KeyOfAverage(r[i]) != KeyOfAverage(r[j])
    ensures forall i, j :: 0 <= i < j < |r| ==> r[i].averageAmount >= r[j].averageAmount
  {
    var gs := GroupBy(rows, MerchantStateOf);
    var u := AverageRows(gs);
    var r := SortBy(u, DescendingAverage);
    AverageRowsOfGroups(rows, gs);
    PermutedAverages(rows, u, r);
    r
  }

  lemma PermutedAverages(rows: seq<Transaction>, u: seq<MerchantStateAverage>, r: seq<MerchantStateAverage>)
    requires multiset(u) == multiset(r) && SortedBy(r, DescendingAverage)
    requires forall a :: a in u ==> AverageOfGroup(rows, a)
    requires forall k :: HasKey(rows, MerchantStateOf, k) ==> exists a :: a in u && KeyOfAverage(a) == k
    requires forall i, j :: 0 <= i < j < |u| ==> KeyOfAverage(u[i]) != KeyOfAverage(u[j])
    ensures forall i :: 0 <= i < |r| ==> AverageOfGroup(rows, r[i])
    ensures forall k :: HasKey(rows, MerchantStateOf, k) ==> exists i :: 0 <= i < |r| && KeyOfAverage(r[i]) == k
    ensures forall i, j :: 0 <= i < j < |r| ==> KeyOfAverage(r[i]) != KeyOfAverage(r[j])
    ensures forall i, j :: 0 <= i < j < |r| ==> r[i].averageAmount >= r[j].averageAmount
  {
    forall i | 0 <= i < |r| ensures AverageOfGroup(rows, r[i]) {
      assert r[i] in multiset(u);
    }
    forall k | HasKey(rows, MerchantStateOf, k) ensures exists i :: 0 <= i < |r| && KeyOfAverage(r[i]) == k {
      var a :| a in u && KeyOfAverage(a) == k;
      assert a in multiset(r);
      var i :| 0 <= i < |r| && r[i] == a;
    }
    PermutationKeepsKeysDistinct(u, r, KeyOfAverage);
    forall i, j | 0 <= i < j < |r| ensures r[i].averageAmount >= r[j].averageAmount {
      DescendingMeaning(r[i].averageAmount, r[j].averageAmount);
    }
  }

  /** A quotient by a positive count is at least `c` when the sum is at least `c` per item. */
  lemma QuotientAtLeast(s: real, n: real, c: real)
    requires n > 0.0 && s >= c * n
    ensures s / n >= c
  {
  }

  /** A row averaging amounts of at least half a cent holds at least one cent. */
  lemma AverageOfGroupAtLeastOneCent(rows: seq<Transaction>, a: MerchantStateAverage)
    requires forall j :: 0 <= j < |rows| ==> rows[j].amount >= 0.005
    requires AverageOfGroup(rows, a)
    ensures a.averageAmount >= 0.01
  {
    var k := KeyOfAverage(a);
    var sum := SumOf(rows, MerchantStateOf, k);
    var count := CountOf(rows, MerchantStateOf, k);
    SumOfAtLeast(rows, MerchantStateOf, k, 0.005);
    QuotientAtLeast(sum, count as real, 0.005);
    Round2Positive(sum / count as real);
  }

  /**
   * When every amount is at least half a cent, every rounded average is
   * positive (at least one cent).
   */
  lemma PositiveAmountsGivePositiveAverages(rows: seq<Transaction>, i: nat)
    requires forall j :: 0 <= j < |rows| ==> rows[j].amount >= 0.005
    requires i < |AverageSaleByMerchantState(rows)|
    ensures AverageSaleByMerchantState(rows)[i].averageAmount >= 0.01
  {
    var r := AverageSaleByMerchantState(rows);
    AverageOfGroupAtLeastOneCent(rows, r[i]);
  }

  // ---------------------------------------------------------------------
  // Task 3: top 3 hours by sales per category
  // ---------------------------------------------------------------------

  datatype CategoryHour = CategoryHour(category: string, hour: Hour)

  function CategoryHourOf(t: Transaction): CategoryHour {
    CategoryHour(t.category, t.hour)
  }

  /** The window partition: the category. */
  function CategoryOfHour(g: Group<CategoryHour>): string {
    g.key.category
  }

  /** The window order's column: total_sales. */
  function TotalOf<K>(g: Group<K>): real {
    g.total
  }

  /** Total sales per category and hour of day. */
  function HourlyCategoryTotals(rows: seq<Transaction>): (gs: seq<Group<CategoryHour>>)
    ensures Aggregates(rows, CategoryHourOf, gs)
  {
    GroupBy(rows, CategoryHourOf)
  }

  /** `dense_rank()` over the category window: an hour ranks first exactly when no hour of its category sold more. */
  function HourRank(rows: seq<Transaction>, g: Group<CategoryHour>): (r: nat)
    ensures r >= 1
    ensures r == 1 <==> Unbeaten(HourlyCategoryTotals(rows), CategoryOfHour, TotalOf, Greater, g)
  {
    DenseRank(HourlyCategoryTotals(rows), CategoryOfHour, TotalOf, Greater, g)
  }

  /**
   * Hours are dense-ranked within their category by total sales alone: equal
   * totals share a rank, a larger total has a smaller rank, and ranks have no
   * gaps.
   */
  lemma HourRankIsDense(rows: seq<Transaction>, g: Group<CategoryHour>, h: Group<CategoryHour>, k: nat)
    requires g in HourlyCategoryTotals(rows) && h in HourlyCategoryTotals(rows)
    requires g.key.category == h.key.category
    ensures HourRank(rows, g) == HourRank(rows, h) <==> g.total == h.total
    ensures HourRank(rows, g) < HourRank(rows, h) <==> g.total > h.total
    ensures 1 <= k <= HourRank(rows, g) ==>
              exists m :: m in HourlyCategoryTotals(rows) && m.key.category == g.key.category && HourRank(rows, m) == k
  {
    var gs := HourlyCategoryTotals(rows);
    GreaterIsStrict();
    RankOrder(gs, CategoryOfHour, TotalOf, Greater, g, h);
    if 1 <= k <= HourRank(rows, g) {
      RankNoGaps(gs, CategoryOfHour, TotalOf, Greater, g, k);
    }
  }

  type RankedHour = Ranked<Group<CategoryHour>>

  /** The hours whose rank within their category is at most 3, none listed twice. */
  function TopHours(rows: seq<Transaction>): (r: seq<RankedHour>)
    ensures forall e :: e in r ==>
              e.item in HourlyCategoryTotals(rows) && e.rank == HourRank(rows, e.item) && 1 <= e.rank <= 3
    ensures forall g :: g in HourlyCategoryTotals(rows) && HourRank(rows, g) <= 3 ==>
              Ranked(g, HourRank(rows, g)) in r
    ensures forall i, j :: 0 <= i < j < |r| ==> r[i].item != r[j].item
  {
    var gs := HourlyCategoryTotals(rows);
    assert Distinct(gs);
    KeepRanked(gs, CategoryOfHour, TotalOf, Greater, 3)
  }

  function CategoryThenRank(e: RankedHour): seq<Atom> {
    [Text(e.item.key.category), Int(e.rank)]
  }

  lemma CategoryThenRankMeaning(a: RankedHour, b: RankedHour)
    requires KeyLe(CategoryThenRank(a), CategoryThenRank(b))
    ensures !TextLess(b.item.key.category, a.item.key.category)
    ensures a.item.key.category == b.item.key.category ==> a.rank <= b.rank
  {
    var ka, kb := CategoryThenRank(a), CategoryThenRank(b);
    assert ka[1..] == [ka[1]] && kb[1..] == [kb[1]];
    TextLessIrreflexive(a.item.key.category);
    if TextLess(b.item.key.category, a.item.key.category) && TextLess(a.item.key.category, b.item.key.category) {
      TextLessTransitive(a.item.key.category, b.item.key.category, a.item.key.category);
    }
    if a.item.key.category == b.item.key.category {
      AtomLessIrreflexive(ka[0]);
      assert KeyLe([ka[1]], [kb[1]]);
      KeyLeSingle(ka[1], kb[1]);
    }
  }

  /** The kept hours ordered by category, then rank. */
  function RankedTopHours(rows: seq<Transaction>): (r: seq<RankedHour>)
    ensures multiset(r) == multiset(TopHours(rows))
    ensures forall i, j :: 0 <= i < j < |r| ==> !TextLess(r[j].item.key.category, r[i].item.key.category)
    ensures forall i, j :: 0 <= i < j < |r| && r[i].item.key.category == r[j].item.key.category ==> r[i].rank <= r[j].rank
    ensures forall i, j :: 0 <= i < j < |r| ==> r[i].item != r[j].item
  {
    var r := SortBy(TopHours(rows), CategoryThenRank);
    PermutationKeepsKeysDistinct(TopHours(rows), r, ItemOf);
    SortedByCategoryThenRank(r);
    r
  }

  lemma SortedByCategoryThenRank(r: seq<RankedHour>)
    requires SortedBy(r, CategoryThenRank)
    ensures forall i, j :: 0 <= i < j < |r| ==> !TextLess(r[j].item.key.category, r[i].item.key.category)
    ensures forall i, j :: 0 <= i < j < |r| && r[i].item.key.category == r[j].item.key.category ==> r[i].rank <= r[j].rank
  {
    forall i, j | 0 <= i < j < |r|
      ensures !TextLess(r[j].item.key.category, r[i].item.key.category)
      ensures r[i].item.key.category == r[j].item.key.category ==> r[i].rank <= r[j].rank
    {
      CategoryThenRankMeaning(r[i], r[j]);
    }
  }

  /** One row of the Task 3 result: the category and the hour cast to a string. */
  datatype CategoryPeakHour = CategoryPeakHour(category: string, hour: string)

  /** The selected columns: the category and the hour cast to a string. */
  function RenderPeakHours(ranked: seq<RankedHour>): (r: seq<CategoryPeakHour>)
    ensures |r| == |ranked|
    ensures forall i :: 0 <= i < |r| ==>
              r[i].category == ranked[i].item.key.category && ParseHour(r[i].hour) == Some(ranked[i].item.key.hour)
  {
    var r := seq(|ranked|, i requires 0 <= i < |ranked| =>
      CategoryPeakHour(ranked[i].item.key.category, HourText(ranked[i].item.key.hour)));
    assert forall i :: 0 <= i < |r| ==> ParseHour(r[i].hour) == Some(ranked[i].item.key.hour) by {
      forall i | 0 <= i < |r| {
        HourTextRoundTrip(ranked[i].item.key.hour);
      }
    }
    r
  }

  /** `task3_top_hours_by_category`. */
  function TopHoursByCategory(rows: seq<Transaction>): (r: seq<CategoryPeakHour>)
    ensures |r| == |RankedTopHours(rows)|
    ensures forall i :: 0 <= i < |r| ==>
              && r[i].category == RankedTopHours(rows)[i].item.key.category
              && ParseHour(r[i].hour) == Some(RankedTopHours(rows)[i].item.key.hour)
    ensures forall i, j :: 0 <= i < j < |r| ==> !TextLess(r[j].category, r[i].category)
  {
    RenderPeakHours(RankedTopHours(rows))
  }

  /** Each category keeps at most 3 distinct ranks. */
  lemma AtMostThreeRanksPerCategory(rows: seq<Transaction>, category: string)
    ensures |RanksIn(RankedTopHours(rows), CategoryOfHour, category)| <= 3
  {
    var r := RankedTopHours(rows);
    forall e | e in r ensures 1 <= e.rank <= 3 {
      assert e in multiset(TopHours(rows));
    }
    AtMostLimitRanks(r, CategoryOfHour, 3, category);
  }

  /** Every listed hour is an hourly group with its rank, and that rank is at most 3. */
  lemma RankedHoursAreRanked(rows: seq<Transaction>)
    ensures forall e :: e in RankedTopHours(rows) ==>
              e.item in HourlyCategoryTotals(rows) && e.rank == HourRank(rows, e.item) && 1 <= e.rank <= 3
  {
    forall e | e in RankedTopHours(rows)
      ensures e.item in HourlyCategoryTotals(rows) && e.rank == HourRank(rows, e.item) && 1 <= e.rank <= 3
    {
      assert e in multiset(TopHours(rows));
    }
  }

  /** Without tied totals inside a category, at most 3 hours of it are kept. */
  lemma AtMostThreeHoursWithoutTies(rows: seq<Transaction>, category: string)
    requires forall g, h ::
               (g in HourlyCategoryTotals(rows) && h in HourlyCategoryTotals(rows) && g != h
                && g.key.category == category && h.key.category == category) ==> g.total != h.total
    ensures |ItemsIn(RankedTopHours(rows), CategoryOfHour, category)| <= 3
    ensures RowsIn(RankedTopHours(rows), CategoryOfHour, category) <= 3
  {
    var r := RankedTopHours(rows);
    RankedHoursAreRanked(rows);
    GreaterIsStrict();
    AtMostLimitRowsWithoutTies(HourlyCategoryTotals(rows), CategoryOfHour, TotalOf, Greater, 3, r, category);
  }

  // ---------------------------------------------------------------------
  // Task 4(a): the ten most popular merchants per city
  // ---------------------------------------------------------------------

  datatype MerchantCity = MerchantCity(merchantName: string, cityId: Option<int>)

  function MerchantCityOf(t: Transaction): MerchantCity {
    MerchantCity(t.merchantName, t.cityId)
  }

  /** The window partition: the city. */
  function CityOfMerchant(g: Group<MerchantCity>): Option<int> {
    g.key.cityId
  }

  /** The window order's column: transaction_count. */
  function CountOfGroup<K>(g: Group<K>): int {
    g.count
  }

  /** Number of transactions per merchant and city. */
  function MerchantCityCounts(rows: seq<Transaction>): (gs: seq<Group<MerchantCity>>)
    ensures Aggregates(rows, MerchantCityOf, gs)
  {
    GroupBy(rows, MerchantCityOf)
  }

  /** `dense_rank()` over the city window: a merchant ranks first exactly when no merchant of its city has more transactions. */
  function PopularityRank(rows: seq<Transaction>, g: Group<MerchantCity>): (r: nat)
    ensures r >= 1
    ensures r == 1 <==> Unbeaten(MerchantCityCounts(rows), CityOfMerchant, CountOfGroup, More, g)
  {
    DenseRank(MerchantCityCounts(rows), CityOfMerchant, CountOfGroup, More, g)
  }

  /** One row of the first Task 4 result. */
  datatype MerchantPopularity = MerchantPopularity(merchantName: string, cityId: Option<int>, transactionCount: nat, rank: nat)

  function PopularityRow(e: Ranked<Group<MerchantCity>>): MerchantPopularity {
    MerchantPopularity(e.item.key.merchantName, e.item.key.cityId, e.item.count, e.rank)
  }

  /**
   * The first result of `task4_popular_merchants_location_analysis`: every
   * merchant whose dense rank by transaction count within its city is at most
   * 10, with that count and rank, each merchant and city once.
   */
  function TopMerchantsByCity(rows: seq<Transaction>): (r: seq<MerchantPopularity>)
    ensures forall e :: e in r ==>
              exists g :: (g in MerchantCityCounts(rows)
                && e == MerchantPopularity(g.key.merchantName, g.key.cityId, g.count, PopularityRank(rows, g))
                && 1 <= e.rank <= 10)
    ensures forall g :: g in MerchantCityCounts(rows) && PopularityRank(rows, g) <= 10 ==>
              MerchantPopularity(g.key.merchantName, g.key.cityId, g.count, PopularityRank(rows, g)) in r
    ensures forall i, j :: 0 <= i < j < |r| ==> (r[i].merchantName, r[i].cityId) != (r[j].merchantName, r[j].cityId)
  {
    var gs := MerchantCityCounts(rows);
    var kept := KeepRanked(gs, CityOfMerchant, CountOfGroup, More, 10);
    assert Distinct(gs);
    var r := seq(|kept|, i requires 0 <= i < |kept| => PopularityRow(kept[i]));
    PopularityRowsOfKept(rows, gs, kept, r);
    r
  }

  lemma PopularityRowsOfKept(rows: seq<Transaction>, gs: seq<Group<MerchantCity>>, kept: seq<Ranked<Group<MerchantCity>>>, r: seq<MerchantPopularity>)
    requires gs == MerchantCityCounts(rows)
    requires forall e :: e in kept ==> e.item in gs && e.rank == PopularityRank(rows, e.item) && 1 <= e.rank <= 10
    requires forall g :: g in gs && PopularityRank(rows, g) <= 10 ==> Ranked(g, PopularityRank(rows, g)) in kept
    requires Distinct(kept)
    requires |r| == |kept| && forall i :: 0 <= i < |kept| ==> r[i] == PopularityRow(kept[i])
    ensures forall e :: e in r ==>
              exists g :: (g in gs
                && e == MerchantPopularity(g.key.merchantName, g.key.cityId, g.count, PopularityRank(rows, g))
                && 1 <= e.rank <= 10)
    ensures forall g :: g in gs && PopularityRank(rows, g) <= 10 ==>
              MerchantPopularity(g.key.merchantName, g.key.cityId, g.count, PopularityRank(rows, g)) in r
    ensures forall i, j :: 0 <= i < j < |r| ==> (r[i].merchantName, r[i].cityId) != (r[j].merchantName, r[j].cityId)
  {
    forall e | e in r
      ensures exists g :: (g in gs
                && e == MerchantPopularity(g.key.merchantName, g.key.cityId, g.count, PopularityRank(rows, g))
                && 1 <= e.rank <= 10)
    {
      var i :| 0 <= i < |r| && r[i] == e;
      assert kept[i] in kept;
    }
    forall g | g in gs && PopularityRank(rows, g) <= 10
      ensures MerchantPopularity(g.key.merchantName, g.key.cityId, g.count, PopularityRank(rows, g)) in r
    {
      var i :| 0 <= i < |kept| && kept[i] == Ranked(g, PopularityRank(rows, g));
      assert r[i] == PopularityRow(kept[i]);
    }
    forall i, j | 0 <= i < j < |r|
      ensures (r[i].merchantName, r[i].cityId) != (r[j].merchantName, r[j].cityId)
    {
      assert kept[i] in kept && kept[j] in kept;
    }
  }

  /**
   * Within each city the kept ranks start at 1 and have no gaps: below every
   * kept rank, each smaller rank is held by a kept merchant of the same city.
   */
  lemma PopularityRanksHaveNoGaps(rows: seq<Transaction>, e: MerchantPopularity, k: nat)
    requires e in TopMerchantsByCity(rows) && 1 <= k <= e.rank
    ensures exists f :: f in TopMerchantsByCity(rows) && f.cityId == e.cityId && f.rank == k
  {
    var gs := MerchantCityCounts(rows);
    var g :| g in gs && e == MerchantPopularity(g.key.merchantName, g.key.cityId, g.count, PopularityRank(rows, g));
    MoreIsStrict();
    RankNoGaps(gs, CityOfMerchant, CountOfGroup, More, g, k);
    var m :| m in gs && CityOfMerchant(m) == CityOfMerchant(g) && PopularityRank(rows, m) == k;
    assert MerchantPopularity(m.key.merchantName, m.key.cityId, m.count, k) in TopMerchantsByCity(rows);
  }

  /** Every city that has a transaction has a merchant of rank 1. */
  lemma EveryCityHasALeader(rows: seq<Transaction>, i: nat)
    requires i < |rows|
    ensures exists f :: f in TopMerchantsByCity(rows) && f.cityId == rows[i].cityId && f.rank == 1
  {
    var gs := MerchantCityCounts(rows);
    assert HasKey(rows, MerchantCityOf, MerchantCityOf(rows[i]));
    var a :| 0 <= a < |gs| && gs[a].key == MerchantCityOf(rows[i]);
    MoreIsStrict();
    RankNoGaps(gs, CityOfMerchant, CountOfGroup, More, gs[a], 1);
    var m :| m in gs && CityOfMerchant(m) == CityOfMerchant(gs[a]) && PopularityRank(rows, m) == 1;
    assert MerchantPopularity(m.key.merchantName, m.key.cityId, m.count, 1) in TopMerchantsByCity(rows);
  }

  /**
   * Merchants of one city share a rank exactly when their transaction counts
   * are equal, and more transactions mean a smaller rank.
   */
  lemma PopularityRankOrder(rows: seq<Transaction>, g: Group<MerchantCity>, h: Group<MerchantCity>)
    requires g in MerchantCityCounts(rows) && h in MerchantCityCounts(rows) && g.key.cityId == h.key.cityId
    ensures PopularityRank(rows, g) == PopularityRank(rows, h) <==> g.count == h.count
    ensures PopularityRank(rows, g) < PopularityRank(rows, h) <==> g.count > h.count
  {
    MoreIsStrict();
    RankOrder(MerchantCityCounts(rows), CityOfMerchant, CountOfGroup, More, g, h);
  }

  /** No two merchants of city `c` have the same transaction count. */
  ghost predicate NoTiedCounts(rows: seq<Transaction>, c: Option<int>) {
    forall g, h ::
      (g in MerchantCityCounts(rows) && h in MerchantCityCounts(rows) && g != h && g.key.cityId == c && h.key.cityId == c) ==>
      g.count != h.count
  }

  /** Two listed merchants of a city with no tied counts hold different ranks. */
  lemma PopularRanksDiffer(rows: seq<Transaction>, c: Option<int>, e: MerchantPopularity, f: MerchantPopularity)
    requires NoTiedCounts(rows, c)
    requires e in TopMerchantsByCity(rows) && f in TopMerchantsByCity(rows)
    requires e.cityId == c && f.cityId == c && e != f
    ensures e.rank != f.rank
  {
    var g :| g in MerchantCityCounts(rows)
      && e == MerchantPopularity(g.key.merchantName, g.key.cityId, g.count, PopularityRank(rows, g));
    var h :| h in MerchantCityCounts(rows)
      && f == MerchantPopularity(h.key.merchantName, h.key.cityId, h.count, PopularityRank(rows, h));
    PopularityRankOrder(rows, g, h);
  }

  /**
   * Ties are what lets a city list more than 10 merchants: when no two
   * merchants of city `c` have the same transaction count, at most 10
   * merchants are listed for `c`.
   */
  lemma AtMostTenMerchantsWithoutTies(rows: seq<Transaction>, c: Option<int>)
    requires NoTiedCounts(rows, c)
    ensures |set e | e in TopMerchantsByCity(rows) && e.cityId == c| <= 10
  {
    var r := TopMerchantsByCity(rows);
    var listed := set e | e in r && e.cityId == c;
    forall e | e in listed ensures e.rank in RankRange(10) {
      var g :| g in MerchantCityCounts(rows)
        && e == MerchantPopularity(g.key.merchantName, g.key.cityId, g.count, PopularityRank(rows, g))
        && 1 <= e.rank <= 10;
    }
    forall e, f | e in listed && f in listed && e != f ensures e.rank != f.rank {
      PopularRanksDiffer(rows, c, e, f);
    }
    InjectiveNotLarger(listed, (e: MerchantPopularity) => e.rank, RankRange(10));
  }

  /** Rows of city `c` with pairwise different ranks in 1..limit number at most `limit`. */
  lemma DistinctRanksBoundRows(r: seq<MerchantPopularity>, c: Option<int>, limit: nat)
    requires forall i :: 0 <= i < |r| && r[i].cityId == c ==> 1 <= r[i].rank <= limit
    requires forall i, j :: 0 <= i < j < |r| && r[i].cityId == c && r[j].cityId == c ==> r[i].rank != r[j].rank
    ensures |set i | 0 <= i < |r| && r[i].cityId == c| <= limit
  {
    var indices := set i | 0 <= i < |r| && r[i].cityId == c;
    var rank := (i: int) => if 0 <= i < |r| then r[i].rank else 0;
    forall i, j | i in indices && j in indices && i != j ensures rank(i) != rank(j) {
      if i > j {
        assert r[j].rank != r[i].rank;
      }
    }
    InjectiveNotLarger(indices, rank, RankRange(limit));
  }

  /** The same bound counted in rows: without tied counts, at most 10 rows name city `c`. */
  lemma AtMostTenRowsWithoutTies(rows: seq<Transaction>, c: Option<int>)
    requires NoTiedCounts(rows, c)
    ensures var r := TopMerchantsByCity(rows); |set i | 0 <= i < |r| && r[i].cityId == c| <= 10
  {
    var r := TopMerchantsByCity(rows);
    forall i | 0 <= i < |r| && r[i].cityId == c ensures 1 <= r[i].rank <= 10 {
      assert r[i] in r;
    }
    forall i, j | 0 <= i < j < |r| && r[i].cityId == c && r[j].cityId == c ensures r[i].rank != r[j].rank {
      assert (r[i].merchantName, r[i].cityId) != (r[j].merchantName, r[j].cityId);
      PopularRanksDiffer(rows, c, r[i], r[j]);
    }
    DistinctRanksBoundRows(r, c, 10);
  }

  // ---------------------------------------------------------------------
  // Task 4(b): the dominant category per city
  // ---------------------------------------------------------------------

  datatype CityCategory = CityCategory(cityId: Option<int>, category: string)

  function CityCategoryOf(t: Transaction): CityCategory {
    CityCategory(t.cityId, t.category)
  }

  /** A transaction's city: the partition of Task 4 and the key of `top_cities`. */
  function CityOf(t: Transaction): Option<int> {
    t.cityId
  }

  /** Transaction count (and total sales) per city and category. */
  function CityCategoryCounts(rows: seq<Transaction>): (gs: seq<Group<CityCategory>>)
    ensures Aggregates(rows, CityCategoryOf, gs)
  {
    GroupBy(rows, CityCategoryOf)
  }

  /**
   * Spark's order on `struct(transaction_count, category)`: by count, then by
   * category.
   */
  predicate StructGreater(a: Group<CityCategory>, b: Group<CityCategory>) {
    a.count > b.count || (a.count == b.count && TextLess(b.key.category, a.key.category))
  }

  lemma StructGreaterTransitive(a: Group<CityCategory>, b: Group<CityCategory>, c: Group<CityCategory>)
    requires StructGreater(a, b) && StructGreater(b, c)
    ensures StructGreater(a, c)
  {
    if a.count == b.count == c.count {
      TextLessTransitive(c.key.category, b.key.category, a.key.category);
    }
  }

  /** `m` is a group no group of its city beats. */
  ghost predicate MaxOfCity(gs: seq<Group<CityCategory>>, m: Group<CityCategory>) {
    m in gs && forall g :: g in gs && g.key.cityId == m.key.cityId ==> !StructGreater(g, m)
  }

  /** `d` names a group that no group of its city beats. */
  ghost predicate DominantOf(gs: seq<Group<CityCategory>>, d: DominantCategory) {
    exists m :: MaxOfCity(gs, m) && d == DominantCategory(m.key.cityId, m.key.category, m.count)
  }

  /** `max(struct(transaction_count, category))` over the groups of one city. */
  function MaxStructIn(gs: seq<Group<CityCategory>>, city: Option<int>): (m: Option<Group<CityCategory>>)
    ensures m.None? <==> forall g :: g in gs ==> g.key.cityId != city
    ensures m.Some? ==> m.value in gs && m.value.key.cityId == city
    ensures m.Some? ==> forall g :: g in gs && g.key.cityId == city ==> !StructGreater(g, m.value)
  {
    if gs == [] then None
    else
      var init := gs[..|gs| - 1];
      var last := gs[|gs| - 1];
      assert gs == init + [last];
      var m := MaxStructIn(init, city);
      if last.key.cityId != city then m
      else if m.None? || StructGreater(last, m.value) then
        TextLessIrreflexive(last.key.category);
        assert forall g :: g in init && g.key.cityId == city ==> !StructGreater(g, last) by {
          forall g | g in init && g.key.cityId == city && StructGreater(g, last) ensures false {
            StructGreaterTransitive(g, last, m.value);
          }
        }
        Some(last)
      else m
  }

  /** One row of the second Task 4 result. */
  datatype DominantCategory = DominantCategory(cityId: Option<int>, dominantCategory: string, categoryTransactions: nat)

  /** The category of a city with the most transactions; a tie goes to the greatest category name. */
  ghost predicate IsDominant(rows: seq<Transaction>, d: DominantCategory) {
    && HasKey(rows, CityCategoryOf, CityCategory(d.cityId, d.dominantCategory))
    && d.categoryTransactions == CountOf(rows, CityCategoryOf, CityCategory(d.cityId, d.dominantCategory))
    && (forall c :: CountOf(rows, CityCategoryOf, CityCategory(d.cityId, c)) <= d.categoryTransactions)
    && (forall c :: c != d.dominantCategory && CountOf(rows, CityCategoryOf, CityCategory(d.cityId, c)) == d.categoryTransactions ==>
          TextLess(c, d.dominantCategory))
  }

  lemma MaxStructIsDominant(rows: seq<Transaction>, gs: seq<Group<CityCategory>>, m: Group<CityCategory>)
    requires Aggregates(rows, CityCategoryOf, gs)
    requires MaxOfCity(gs, m)
    ensures IsDominant(rows, DominantCategory(m.key.cityId, m.key.category, m.count))
  {
    var city := m.key.cityId;
    forall c ensures CountOf(rows, CityCategoryOf, CityCategory(city, c)) <= m.count
      && (c != m.key.category && CountOf(rows, CityCategoryOf, CityCategory(city, c)) == m.count ==> TextLess(c, m.key.category))
    {
      var k := CityCategory(city, c);
      CountOfPositive(rows, CityCategoryOf, k);
      if HasKey(rows, CityCategoryOf, k) {
        var i :| 0 <= i < |gs| && gs[i].key == k;
        assert !StructGreater(gs[i], m);
        if c != m.key.category {
          TextLessTotal(c, m.key.category);
        }
      }
    }
  }

  function DominantRows(gs: seq<Group<CityCategory>>, cities: seq<Option<int>>): (r: seq<DominantCategory>)
    requires forall c :: c in cities ==> exists g :: g in gs && g.key.cityId == c
    ensures |r| == |cities|
    ensures forall i :: 0 <= i < |r| ==> r[i].cityId == cities[i]
    ensures forall i :: 0 <= i < |r| ==> DominantOf(gs, r[i])
  {
    if cities == [] then []
    else
      assert cities[0] in cities;
      var m := MaxStructIn(gs, cities[0]);
      assert forall c :: c in cities[1..] ==> c in cities;
      var first := DominantCategory(cities[0], m.value.key.category, m.value.count);
      assert DominantOf(gs, first) by {
        assert MaxOfCity(gs, m.value);
      }
      [first] + DominantRows(gs, cities[1..])
  }

  /**
   * The second result of `task4_popular_merchants_location_analysis`: one row
   * per city (a null city included) naming its dominant category and that
   * category's transaction count.
   */
  function DominantCategoryByCity(rows: seq<Transaction>): (r: seq<DominantCategory>)
    ensures forall i, j :: 0 <= i < j < |r| ==> r[i].cityId != r[j].cityId
    ensures forall c :: (exists i :: 0 <= i < |r| && r[i].cityId == c) <==> HasKey(rows, CityOf, c)
    ensures forall i :: 0 <= i < |r| ==> IsDominant(rows, r[i])
  {
    var gs := CityCategoryCounts(rows);
    var cities := KeysOf(rows, CityOf);
    CitiesHaveGroups(rows, gs, cities);
    var r := DominantRows(gs, cities);
    DominantRowsAreDominant(rows, gs, r);
    DominantRowsCities(rows, cities, r);
    r
  }

  lemma DominantRowsCities(rows: seq<Transaction>, cities: seq<Option<int>>, r: seq<DominantCategory>)
    requires Distinct(cities) && forall c :: c in cities <==> HasKey(rows, CityOf, c)
    requires |r| == |cities| && forall i :: 0 <= i < |r| ==> r[i].cityId == cities[i]
    ensures forall i, j :: 0 <= i < j < |r| ==> r[i].cityId != r[j].cityId
    ensures forall c :: (exists i :: 0 <= i < |r| && r[i].cityId == c) <==> HasKey(rows, CityOf, c)
  {
    forall c ensures (exists i :: 0 <= i < |r| && r[i].cityId == c) <==> c in cities {
      if c in cities {
        var i :| 0 <= i < |cities| && cities[i] == c;
        assert r[i].cityId == c;
      }
    }
  }

  lemma CitiesHaveGroups(rows: seq<Transaction>, gs: seq<Group<CityCategory>>, cities: seq<Option<int>>)
    requires Aggregates(rows, CityCategoryOf, gs)
    requires forall c :: c in cities <==> HasKey(rows, CityOf, c)
    ensures forall c :: c in cities ==> exists g :: g in gs && g.key.cityId == c
  {
    forall c | c in cities ensures exists g :: g in gs && g.key.cityId == c {
      var t :| 0 <= t < |rows| && CityOf(rows[t]) == c;
      assert HasKey(rows, CityCategoryOf, CityCategoryOf(rows[t]));
      var a :| 0 <= a < |gs| && gs[a].key == CityCategoryOf(rows[t]);
      assert gs[a] in gs;
    }
  }

  lemma DominantRowsAreDominant(rows: seq<Transaction>, gs: seq<Group<CityCategory>>, r: seq<DominantCategory>)
    requires Aggregates(rows, CityCategoryOf, gs)
    requires forall i :: 0 <= i < |r| ==> DominantOf(gs, r[i])
    ensures forall i :: 0 <= i < |r| ==> IsDominant(rows, r[i])
  {
    forall i | 0 <= i < |r| ensures IsDominant(rows, r[i]) {
      assert DominantOf(gs, r[i]);
      var m :| MaxOfCity(gs, m) && r[i] == DominantCategory(m.key.cityId, m.key.category, m.count);
      MaxStructIsDominant(rows, gs, m);
    }
  }

  // ---------------------------------------------------------------------
  // Task 5: business recommendations
  // ---------------------------------------------------------------------

  /** A group's sum, count and average: the rows of `top_cities`, `top_categories` and the installment analysis. */
  datatype Performance<K> = Performance(key: K, totalSales: real, transactionCount: nat, avgTransactionValue: real)

  /** `p` is the aggregate of its key over `rows`. */
  ghost predicate PerformanceOfGroup<K(!new)>(rows: seq<Transaction>, key: Transaction -> K, p: Performance<K>) {
    && HasKey(rows, key, p.key)
    && p.totalSales == SumOf(rows, key, p.key)
    && p.transactionCount == CountOf(rows, key, p.key)
    && p.transactionCount >= 1
    && p.avgTransactionValue == p.totalSales / p.transactionCount as real
  }

  function PerformanceRows<K>(gs: seq<Group<K>>): (r: seq<Performance<K>>)
    requires forall i :: 0 <= i < |gs| ==> gs[i].count >= 1
    ensures |r| == |gs|
    ensures forall i :: 0 <= i < |r| ==> r[i] == Performance(gs[i].key, gs[i].total, gs[i].count, Mean(gs[i]))
  {
    seq(|gs|, i requires 0 <= i < |gs| => Performance(gs[i].key, gs[i].total, gs[i].count, Mean(gs[i])))
  }

  function DescendingSales<K>(p: Performance<K>): seq<Atom> {
    [Real(-p.totalSales)]
  }

  lemma PerformanceRowsOfGroups<K(!new)>(rows: seq<Transaction>, key: Transaction -> K, gs: seq<Group<K>>)
    requires Aggregates(rows, key, gs)
    ensures forall p :: p in PerformanceRows(gs) ==> PerformanceOfGroup(rows, key, p)
    ensures forall k :: HasKey(rows, key, k) ==> exists p :: p in PerformanceRows(gs) && p.key == k
    ensures forall i, j :: 0 <= i < j < |PerformanceRows(gs)| ==> PerformanceRows(gs)[i].key != PerformanceRows(gs)[j].key
  {
    var u := PerformanceRows(gs);
    forall p | p in u ensures PerformanceOfGroup(rows, key, p) {
      var i :| 0 <= i < |u| && u[i] == p;
    }
    forall k | HasKey(rows, key, k) ensures exists p :: p in u && p.key == k {
      var i :| 0 <= i < |gs| && gs[i].key == k;
      assert u[i] in u;
    }
  }

  /** Every group of `rows`, one row per key, largest total first. */
  function PerformanceBySales<K(==,!new)>(rows: seq<Transaction>, key: Transaction -> K): (r: seq<Performance<K>>)
    ensures forall i :: 0 <= i < |r| ==> PerformanceOfGroup(rows, key, r[i])
    ensures forall k :: HasKey(rows, key, k) ==> exists i :: 0 <= i < |r| && r[i].key == k
    ensures forall i, j :: 0 <= i < j < |r| ==> r[i].key != r[j].key
    ensures forall i, j :: 0 <= i < j < |r| ==> r[i].totalSales >= r[j].totalSales
  {
    var gs := GroupBy(rows, key);
    var u := PerformanceRows(gs);
    var r := SortBy(u, DescendingSales);
    PerformanceRowsOfGroups(rows, key, gs);
    PermutedPerformance(rows, key, u, r);
    r
  }

  lemma PermutedPerformance<K(!new)>(rows: seq<Transaction>, key: Transaction -> K, u: seq<Performance<K>>, r: seq<Performance<K>>)
    requires multiset(u) == multiset(r) && SortedBy(r, DescendingSales)
    requires forall p :: p in u ==> PerformanceOfGroup(rows, key, p)
    requires forall k :: HasKey(rows, key, k) ==> exists p :: p in u && p.key == k
    requires forall i, j :: 0 <= i < j < |u| ==> u[i].key != u[j].key
    ensures forall i :: 0 <= i < |r| ==> PerformanceOfGroup(rows, key, r[i])
    ensures forall k :: HasKey(rows, key, k) ==> exists i :: 0 <= i < |r| && r[i].key == k
    ensures forall i, j :: 0 <= i < j < |r| ==> r[i].key != r[j].key
    ensures forall i, j :: 0 <= i < j < |r| ==> r[i].totalSales >= r[j].totalSales
  {
    forall i | 0 <= i < |r| ensures PerformanceOfGroup(rows, key, r[i]) {
      assert r[i] in multiset(u);
    }
    forall k | HasKey(rows, key, k) ensures exists i :: 0 <= i < |r| && r[i].key == k {
      var p :| p in u && p.key == k;
      assert p in multiset(r);
      var i :| 0 <= i < |r| && r[i] == p;
    }
    PermutationKeepsKeysDistinct(u, r, (p: Performance<K>) => p.key);
    forall i, j | 0 <= i < j < |r| ensures r[i].totalSales >= r[j].totalSales {
      DescendingMeaning(r[i].totalSales, r[j].totalSales);
    }
  }

  /**
   * `orderBy(desc("total_sales")).limit(n)`: at most `n` groups, largest
   * total first, and a group is left out only when `n` groups are kept and
   * none of them has a smaller total.
   */
  function TopBySales<K(==,!new)>(rows: seq<Transaction>, key: Transaction -> K, n: nat): (r: seq<Performance<K>>)
    ensures |r| <= n
    ensures forall i :: 0 <= i < |r| ==> PerformanceOfGroup(rows, key, r[i])
    ensures forall i, j :: 0 <= i < j < |r| ==> r[i].key != r[j].key
    ensures forall i, j :: 0 <= i < j < |r| ==> r[i].totalSales >= r[j].totalSales
    ensures forall k :: HasKey(rows, key, k) && (forall i :: 0 <= i < |r| ==> r[i].key != k) ==>
              |r| == n && forall i :: 0 <= i < |r| ==> r[i].totalSales >= SumOf(rows, key, k)
  {
    var all := PerformanceBySales(rows, key);
    var r := if |all| <= n then all else all[..n];
    PrefixKeepsLargest(rows, key, all, n, r);
    r
  }

  lemma PrefixKeepsLargest<K(!new)>(rows: seq<Transaction>, key: Transaction -> K, all: seq<Performance<K>>, n: nat, r: seq<Performance<K>>)
    requires forall k :: HasKey(rows, key, k) ==> exists i :: 0 <= i < |all| && all[i].key == k
    requires forall i :: 0 <= i < |all| ==> PerformanceOfGroup(rows, key, all[i])
    requires forall i, j :: 0 <= i < j < |all| ==> all[i].totalSales >= all[j].totalSales
    requires r == if |all| <= n then all else all[..n]
    ensures forall k :: HasKey(rows, key, k) && (forall i :: 0 <= i < |r| ==> r[i].key != k) ==>
              |r| == n && forall i :: 0 <= i < |r| ==> r[i].totalSales >= SumOf(rows, key, k)
  {
    forall k | HasKey(rows, key, k) && (forall i :: 0 <= i < |r| ==> r[i].key != k)
      ensures |r| == n && forall i :: 0 <= i < |r| ==> r[i].totalSales >= SumOf(rows, key, k)
    {
      var b :| 0 <= b < |all| && all[b].key == k;
      assert b >= |r|;
    }
  }

  function CategoryOfTransaction(t: Transaction): string {
    t.category
  }

  /** `top_cities`: the five cities with the largest sales. */
  function TopCities(rows: seq<Transaction>): (r: seq<Performance<Option<int>>>)
    ensures |r| <= 5
    ensures forall i :: 0 <= i < |r| ==> PerformanceOfGroup(rows, CityOf, r[i])
    ensures forall i, j :: 0 <= i < j < |r| ==> r[i].key != r[j].key
    ensures forall i, j :: 0 <= i < j < |r| ==> r[i].totalSales >= r[j].totalSales
    ensures forall k :: HasKey(rows, CityOf, k) && (forall i :: 0 <= i < |r| ==> r[i].key != k) ==>
              |r| == 5 && forall i :: 0 <= i < |r| ==> r[i].totalSales >= SumOf(rows, CityOf, k)
  {
    TopBySales(rows, CityOf, 5)
  }

  /** `top_categories`: the five categories with the largest sales. */
  function TopCategories(rows: seq<Transaction>): (r: seq<Performance<string>>)
    ensures |r| <= 5
    ensures forall i :: 0 <= i < |r| ==> PerformanceOfGroup(rows, CategoryOfTransaction, r[i])
    ensures forall i, j :: 0 <= i < j < |r| ==> r[i].key != r[j].key
    ensures forall i, j :: 0 <= i < j < |r| ==> r[i].totalSales >= r[j].totalSales
    ensures forall k :: HasKey(rows, CategoryOfTransaction, k) && (forall i :: 0 <= i < |r| ==> r[i].key != k) ==>
              |r| == 5 && forall i :: 0 <= i < |r| ==> r[i].totalSales >= SumOf(rows, CategoryOfTransaction, k)
  {
    TopBySales(rows, CategoryOfTransaction, 5)
  }

  datatype YearMonth = YearMonth(year: Year, month: Month)

  function YearMonthOf(t: Transaction): YearMonth {
    YearMonth(t.year, t.month)
  }

  function CalendarMonthOrder(g: Group<YearMonth>): seq<Atom> {
    [Int(g.key.year), Int(g.key.month)]
  }

  lemma CalendarMonthOrderMeaning(a: Group<YearMonth>, b: Group<YearMonth>)
    requires KeyLe(CalendarMonthOrder(a), CalendarMonthOrder(b)) && a.key != b.key
    ensures a.key.year < b.key.year || (a.key.year == b.key.year && a.key.month < b.key.month)
  {
    var ka, kb := CalendarMonthOrder(a), CalendarMonthOrder(b);
    assert ka[1..] == [ka[1]] && kb[1..] == [kb[1]];
    if a.key.year == b.key.year {
      AtomLessIrreflexive(ka[0]);
      assert KeyLe([ka[1]], [kb[1]]);
      KeyLeSingle(ka[1], kb[1]);
    }
  }

  /** `monthly_trends`: sales and count per calendar month, earliest first. */
  function MonthlyTrends(rows: seq<Transaction>): (r: seq<Group<YearMonth>>)
    ensures Aggregates(rows, YearMonthOf, r)
    ensures forall i, j :: 0 <= i < j < |r| ==>
              r[i].key.year < r[j].key.year || (r[i].key.year == r[j].key.year && r[i].key.month < r[j].key.month)
    ensures TotalCount(r) == |rows|
  {
    var gs := GroupBy(rows, YearMonthOf);
    var r := SortBy(gs, CalendarMonthOrder);
    AggregatesPermutation(rows, YearMonthOf, gs, r);
    CountsCoverRows(rows, YearMonthOf, r);
    SortedByCalendarMonth(r);
    r
  }

  function HourOf(t: Transaction): Hour {
    t.hour
  }

  function HourOrder(g: Group<Hour>): seq<Atom> {
    [Int(g.key)]
  }

  /** In a strictly increasing sequence of hours, the hour at position `i` is at least `i`. */
  lemma {:induction false} IncreasingHoursFromIndex(r: seq<Group<Hour>>, i: nat)
    requires forall a, b :: 0 <= a < b < |r| ==> r[a].key < r[b].key
    requires i < |r|
    ensures r[i].key >= i
  {
    if i > 0 {
      IncreasingHoursFromIndex(r, i - 1);
    }
  }

  /** A strictly increasing sequence of hours has at most 24 elements. */
  lemma IncreasingHoursAtMost24(r: seq<Group<Hour>>)
    requires forall a, b :: 0 <= a < b < |r| ==> r[a].key < r[b].key
    ensures |r| <= 24
  {
    if r != [] {
      IncreasingHoursFromIndex(r, |r| - 1);
    }
  }

  lemma SortedByHour(r: seq<Group<Hour>>)
    requires SortedBy(r, HourOrder) && KeysDistinct(r)
    ensures forall i, j :: 0 <= i < j < |r| ==> r[i].key < r[j].key
  {
    forall i, j | 0 <= i < j < |r| ensures r[i].key < r[j].key {
      KeyLeSingle(Int(r[i].key), Int(r[j].key));
    }
  }

  lemma SortedByCalendarMonth(r: seq<Group<YearMonth>>)
    requires SortedBy(r, CalendarMonthOrder) && KeysDistinct(r)
    ensures forall i, j :: 0 <= i < j < |r| ==>
              r[i].key.year < r[j].key.year || (r[i].key.year == r[j].key.year && r[i].key.month < r[j].key.month)
  {
    forall i, j | 0 <= i < j < |r|
      ensures r[i].key.year < r[j].key.year || (r[i].key.year == r[j].key.year && r[i].key.month < r[j].key.month)
    {
      CalendarMonthOrderMeaning(r[i], r[j]);
    }
  }

  /** `hourly_patterns`: sales and count per hour of day, earliest first. */
  function HourlyPatterns(rows: seq<Transaction>): (r: seq<Group<Hour>>)
    ensures Aggregates(rows, HourOf, r)
    ensures forall i, j :: 0 <= i < j < |r| ==> r[i].key < r[j].key
    ensures TotalCount(r) == |rows|
    ensures |r| <= 24
  {
    var gs := GroupBy(rows, HourOf);
    var r := SortBy(gs, HourOrder);
    AggregatesPermutation(rows, HourOf, gs, r);
    CountsCoverRows(rows, HourOf, r);
    SortedByHour(r);
    IncreasingHoursAtMost24(r);
    r
  }

  function InstallmentsOf(t: Transaction): Option<int> {
    t.installments
  }

  function InstallmentOrder(p: Performance<Option<int>>): seq<Atom> {
    [NullableInt(p.key)]
  }

  /**
   * The installment analysis: per number of installments, the average amount,
   * the count and the total, ordered ascending with the null group first.
   */
  function InstallmentAnalysis(rows: seq<Transaction>): (r: seq<Performance<Option<int>>>)
    ensures forall i :: 0 <= i < |r| ==> PerformanceOfGroup(rows, InstallmentsOf, r[i])
    ensures forall k :: HasKey(rows, InstallmentsOf, k) ==> exists i :: 0 <= i < |r| && r[i].key == k
    ensures forall i, j :: 0 <= i < j < |r| ==> NullsFirstLess(r[i].key, r[j].key)
  {
    var gs := GroupBy(rows, InstallmentsOf);
    var u := PerformanceRows(gs);
    var r := SortBy(u, InstallmentOrder);
    PerformanceRowsOfGroups(rows, InstallmentsOf, gs);
    PermutedInstallments(rows, u, r);
    r
  }

  lemma PermutedInstallments(rows: seq<Transaction>, u: seq<Performance<Option<int>>>, r: seq<Performance<Option<int>>>)
    requires multiset(u) == multiset(r) && SortedBy(r, InstallmentOrder)
    requires forall p :: p in u ==> PerformanceOfGroup(rows, InstallmentsOf, p)
    requires forall k :: HasKey(rows, InstallmentsOf, k) ==> exists p :: p in u && p.key == k
    requires forall i, j :: 0 <= i < j < |u| ==> u[i].key != u[j].key
    ensures forall i :: 0 <= i < |r| ==> PerformanceOfGroup(rows, InstallmentsOf, r[i])
    ensures forall k :: HasKey(rows, InstallmentsOf, k) ==> exists i :: 0 <= i < |r| && r[i].key == k
    ensures forall i, j :: 0 <= i < j < |r| ==> NullsFirstLess(r[i].key, r[j].key)
  {
    forall i | 0 <= i < |r| ensures PerformanceOfGroup(rows, InstallmentsOf, r[i]) {
      assert r[i] in multiset(u);
    }
    forall k | HasKey(rows, InstallmentsOf, k) ensures exists i :: 0 <= i < |r| && r[i].key == k {
      var p :| p in u && p.key == k;
      assert p in multiset(r);
      var i :| 0 <= i < |r| && r[i] == p;
    }
    PermutationKeepsKeysDistinct(u, r, (p: Performance<Option<int>>) => p.key);
    forall i, j | 0 <= i < j < |r| ensures NullsFirstLess(r[i].key, r[j].key) {
      KeyLeSingle(NullableInt(r[i].key), NullableInt(r[j].key));
    }
  }

  // ---------------------------------------------------------------------
  // Installment profitability
  // ---------------------------------------------------------------------

  /** Gross profit margin on every sale. */
  const GROSS_MARGIN: real := 0.25
  /** Monthly default rate of installment payments. */
  const DEFAULT_RATE: real := 0.229
  /** Share of the total a defaulting customer pays before defaulting. */
  const PAID_BEFORE_DEFAULT: real := 0.5

  /** One row of `installment_recommendation`. */
  datatype Profitability = Profitability(
    installments: Option<int>,
    avgPurchaseAmount: real,
    transactionCount: nat,
    grossProfit: real,
    expectedDefaultLoss: real,
    netProfit: real,
    profitMarginPct: Option<real>)

  /**
   * SQL's three-valued `a > b`: null when `a` is null, otherwise the
   * comparison of the two values.
   */
  function SqlGreater(a: Option<int>, b: int): (c: Option<bool>)
    ensures c.None? <==> a.None?
    ensures c.Some? ==> (c.value <==> a.value > b)
  {
    match a
    case None => None
    case Some(v) => Some(v > b)
  }

  /** `when(c, …)` takes its branch only when the condition is true; a false or null condition falls to `otherwise`. */
  predicate WhenHolds(c: Option<bool>) {
    c == Some(true)
  }

  /**
   * The `when` condition `installments > 1`: a null number of installments
   * makes the comparison null, which `when` treats as false.
   */
  predicate PaidInInstallments(installments: Option<int>): (r: bool)
    ensures r == WhenHolds(SqlGreater(installments, 1))
    ensures installments.None? ==> !r
    ensures installments.Some? ==> (r <==> installments.value > 1)
  {
    installments.Some? && installments.value > 1
  }

  /**
   * A single payment, or a null number of installments, bears no default
   * loss and keeps the full 25% margin.
   */
  lemma SinglePaymentHasNoDefault(installments: Option<int>, totalSales: real)
    requires installments.None? || installments == Some(1)
    ensures !PaidInInstallments(installments)
    ensures ExpectedDefaultLoss(installments, totalSales) == 0.0
    ensures totalSales != 0.0 ==> ProfitMargin(installments, totalSales) == Some(25.0)
  {
  }

  function ExpectedDefaultLoss(installments: Option<int>, totalSales: real): (loss: real)
    ensures PaidInInstallments(installments) ==> loss == totalSales * 0.1145
    ensures !PaidInInstallments(installments) ==> loss == 0.0
    ensures installments.None? || installments == Some(1) ==> loss == 0.0
  {
    if PaidInInstallments(installments) then totalSales * DEFAULT_RATE * PAID_BEFORE_DEFAULT else 0.0
  }

  /**
   * The profit margin depends only on whether the group pays in
   * installments: 25% for single payments (and a null installments value),
   * 13.55% otherwise. It is null when the group's total is zero.
   */
  function ProfitMargin(installments: Option<int>, totalSales: real): (m: Option<real>)
    ensures m.None? <==> totalSales == 0.0
    ensures m.Some? && PaidInInstallments(installments) ==> m.value == 13.55
    ensures m.Some? && !PaidInInstallments(installments) ==> m.value == 25.0
    ensures m.Some? && (installments.None? || installments == Some(1)) ==> m.value == 25.0
  {
    if totalSales == 0.0 then None
    else
      var net := totalSales * GROSS_MARGIN - ExpectedDefaultLoss(installments, totalSales);
      var pct := net / totalSales * 100.0;
      assert net == totalSales * (if PaidInInstallments(installments) then 0.1355 else 0.25);
      assert net / totalSales == if PaidInInstallments(installments) then 0.1355 else 0.25;
      CentsIsCents(1355);
      CentsIsCents(2500);
      Round2OfCents(pct);
      Some(Round2(pct))
  }

  /** `_analyze_installment_profitability` on one installment group. */
  function ProfitabilityOf(p: Performance<Option<int>>): (r: Profitability)
    ensures r.installments == p.key && r.transactionCount == p.transactionCount
    ensures -0.005 <= r.avgPurchaseAmount - p.avgTransactionValue <= 0.005
    ensures -0.005 <= r.grossProfit - p.totalSales / 4.0 <= 0.005
    ensures PaidInInstallments(p.key) ==> -0.005 <= r.expectedDefaultLoss - p.totalSales * 0.1145 <= 0.005
    ensures !PaidInInstallments(p.key) ==> r.expectedDefaultLoss == 0.0
    ensures PaidInInstallments(p.key) ==> -0.005 <= r.netProfit - p.totalSales * 0.1355 <= 0.005
    ensures !PaidInInstallments(p.key) ==> -0.005 <= r.netProfit - p.totalSales / 4.0 <= 0.005
    ensures r.profitMarginPct == ProfitMargin(p.key, p.totalSales)
  {
    var gross := p.totalSales * GROSS_MARGIN;
    var loss := ExpectedDefaultLoss(p.key, p.totalSales);
    CentsIsCents(0);
    Round2OfCents(0.0);
    Profitability(
      p.key,
      Round2(p.avgTransactionValue),
      p.transactionCount,
      Round2(gross),
      Round2(loss),
      Round2(gross - loss),
      ProfitMargin(p.key, p.totalSales))
  }

  /** `_analyze_installment_profitability`: one row per installment group, in the same order. */
  function AnalyzeInstallmentProfitability(groups: seq<Performance<Option<int>>>): (r: seq<Profitability>)
    ensures |r| == |groups|
    ensures forall i :: 0 <= i < |r| ==> r[i] == ProfitabilityOf(groups[i])
  {
    seq(|groups|, i requires 0 <= i < |groups| => ProfitabilityOf(groups[i]))
  }

  /** A group of 1000.00 paid in 3 installments: 250 gross, 114.50 lost, 135.50 net, 13.55%. */
  lemma ThreeInstallmentExample()
    ensures ProfitabilityOf(Performance(Some(3), 1000.0, 4, 250.0)) ==
              Profitability(Some(3), 250.0, 4, 250.0, 114.5, 135.5, Some(13.55))
  {
    CentsIsCents(25000);
    CentsIsCents(11450);
    CentsIsCents(13550);
    Round2OfCents(250.0);
    Round2OfCents(114.5);
    Round2OfCents(135.5);
  }

  /** The five reports of `task5_business_recommendations`. */
  datatype BusinessRecommendations = BusinessRecommendations(
    topCities: seq<Performance<Option<int>>>,
    topCategories: seq<Performance<string>>,
    monthlyTrends: seq<Group<YearMonth>>,
    hourlyPatterns: seq<Group<Hour>>,
    installmentRecommendation: seq<Profitability>)

  /** `task5_business_recommendations`. */
  function BusinessRecommendationsOf(rows: seq<Transaction>): (r: BusinessRecommendations)
    ensures r.topCities == TopCities(rows) && r.topCategories == TopCategories(rows)
    ensures r.monthlyTrends == MonthlyTrends(rows) && r.hourlyPatterns == HourlyPatterns(rows)
    ensures r.installmentRecommendation == AnalyzeInstallmentProfitability(InstallmentAnalysis(rows))
    ensures |r.topCities| <= 5 && |r.topCategories| <= 5
    ensures TotalCount(r.monthlyTrends) == |rows| && TotalCount(r.hourlyPatterns) == |rows|
    ensures |r.hourlyPatterns| <= 24
    ensures forall i :: 0 <= i < |r.installmentRecommendation| ==>
              r.installmentRecommendation[i].profitMarginPct.Some? ==>
                r.installmentRecommendation[i].profitMarginPct.value ==
                  (if PaidInInstallments(r.installmentRecommendation[i].installments) then 13.55 else 25.0)
    ensures forall k :: HasKey(rows, InstallmentsOf, k) ==>
              exists i :: 0 <= i < |r.installmentRecommendation| && r.installmentRecommendation[i].installments == k
  {
    var installments := InstallmentAnalysis(rows);
    var profitability := AnalyzeInstallmentProfitability(installments);
    BusinessRecommendations(
      TopCities(rows),
      TopCategories(rows),
      MonthlyTrends(rows),
      HourlyPatterns(rows),
      profitability)
  }

  // ---------------------------------------------------------------------
  // A worked example
  // ---------------------------------------------------------------------

  /** A single transaction of 100.00 by merchant "Acme" in city 1 on 15 January 2023 at 10:00. */
  function AcmeSale(): Transaction {
    Transaction("M001", "Acme", Some(1), Some(10), "Electronics", 2023, 1, 10, 100.0, Some(1))
  }

  /** The one group of that transaction, with its total and count. */
  function AcmeGroup(): Group<MonthCityMerchant> {
    Group(MonthCityMerchantOf(AcmeSale()), 100.0, 1)
  }

  lemma AcmeTotals()
    ensures MonthlyMerchantTotals([AcmeSale()]) == [AcmeGroup()]
  {
    var rows := [AcmeSale()];
    var k := MonthCityMerchantOf(AcmeSale());
    assert rows[..0] == [];
    assert SumOf(rows, MonthCityMerchantOf, k) == 100.0;
    assert CountOf(rows, MonthCityMerchantOf, k) == 1;
    assert KeysOf(rows, MonthCityMerchantOf) == [k];
  }

  lemma AcmeTop()
    ensures TopMonthlyMerchants([AcmeSale()]) == [Ranked(AcmeGroup(), 1)]
  {
    var rows := [AcmeSale()];
    var g := AcmeGroup();
    var gs := MonthlyMerchantTotals(rows);
    AcmeTotals();
    assert BetterValues(gs, MonthCityOf, TotalAndSales, HigherTotalThenSales, MonthCityOf(g), TotalAndSales(g)) == {};
    assert MonthlyMerchantRank(rows, g) == 1;
    var top := TopMonthlyMerchants(rows);
    assert Ranked(g, 1) in top;
    assert forall e :: e in top ==> e == Ranked(g, 1);
  }

  /** For that one transaction Task 1 yields one row: "Jan 2023", city 1, Acme, 100.00, one sale. */
  lemma AcmeMonthlyTop()
    ensures TopMerchantsByCityMonth([AcmeSale()]) == [MonthlyTopMerchant("Jan 2023", Some(1), "Acme", 100.0, 1)]
  {
    var rows := [AcmeSale()];
    var g := AcmeGroup();
    AcmeTop();
    var ranked := RankedMonthlyMerchants(rows);
    assert multiset(ranked) == multiset{Ranked(g, 1)};
    assert |ranked| == 1 && ranked[0] in multiset(ranked);
    assert ranked == [Ranked(g, 1)];
    MonthLabelExample();
    CentsIsCents(10000);
    Round2OfCents(100.0);
  }
}
