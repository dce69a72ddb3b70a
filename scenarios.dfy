/** Worked cases of the statistics on small tables. */
module Scenarios {
  import opened Wrappers
  import opened Dates
  import opened Store
  import opened Stats
  import Catalog

  function Row(id: int, d: Date, rating: int): Entry
    requires ValidDate(d)
  {
    Entry(id, "Земля (1930)", IsoFormat(d), rating, "")
  }

  /** Rows rated 1, 5, 7, 9, 10 give one watch in each lower group and two in "9–10". */
  lemma FiveRatings(rows: seq<Entry>)
    requires |rows| == 5
    requires rows[0].rating == 1 && rows[1].rating == 5 && rows[2].rating == 7
    requires rows[3].rating == 9 && rows[4].rating == 10
    ensures RatingCounts(rows) == map[OneToThree := 1, FourToSix := 1, SevenToEight := 1, NineToTen := 2]
  {
    assert Groups(rows) == [OneToThree, FourToSix, SevenToEight, NineToTen, NineToTen];
    CountFive();
  }

  /** value_counts of the labels of ratings 1, 5, 7, 9 and 10. */
  lemma CountFive()
    ensures ValueCounts([OneToThree, FourToSix, SevenToEight, NineToTen, NineToTen])
         == map[OneToThree := 1, FourToSix := 1, SevenToEight := 1, NineToTen := 2]
  {
    var gs := [OneToThree, FourToSix, SevenToEight, NineToTen, NineToTen];
    assert gs[..1] == [OneToThree] && gs[..1][..0] == [];
    assert gs[..2][..1] == gs[..1] && gs[..3][..2] == gs[..2];
    assert gs[..4][..3] == gs[..3] && gs[..5][..4] == gs[..4] && gs[..5] == gs;
    assert ValueCounts(gs[..2]) == map[OneToThree := 1, FourToSix := 1];
    assert ValueCounts(gs[..3]) == map[OneToThree := 1, FourToSix := 1, SevenToEight := 1];
    var four := ValueCounts(gs[..4]);
    assert four == map[OneToThree := 1, FourToSix := 1, SevenToEight := 1, NineToTen := 1];
    assert ValueCounts(gs) == four[NineToTen := 2];
  }

  /** Two watches in the same month, on any days, make one bar of height 2. */
  lemma SameMonthDifferentDays(d1: Date, d2: Date)
    requires ValidDate(d1) && ValidDate(d2)
    requires d1.year == d2.year && d1.month == d2.month
    ensures MonthlyCounts([Row(1, d1, 7), Row(2, d2, 7)]) == Some([MonthCount(MonthOf(d1), 2)])
  {
    var rows := [Row(1, d1, 7), Row(2, d2, 7)];
    ParseIsoFormat(d1);
    ParseIsoFormat(d2);
    assert DatesReadable(rows);
    var m := MonthOf(d1);
    var v := Months(rows).value;
    assert v[0] == m && v[1] == m;
    assert v == [m, m];
    RepeatedMonth(m);
  }

  /**
   * Three watches in one month rated 2, 8 and 10: one bar of height 3, and
   * the groups "1–3", "7–8" and "9–10" once each.
   */
  lemma ThreeWatchesOneMonth(d1: Date, d2: Date, d3: Date)
    requires ValidDate(d1) && ValidDate(d2) && ValidDate(d3)
    requires MonthOf(d1) == MonthOf(d2) == MonthOf(d3)
    ensures MonthlyCounts([Row(1, d1, 2), Row(2, d2, 8), Row(3, d3, 10)]) == Some([MonthCount(MonthOf(d1), 3)])
    ensures RatingCounts([Row(1, d1, 2), Row(2, d2, 8), Row(3, d3, 10)])
         == map[OneToThree := 1, SevenToEight := 1, NineToTen := 1]
  {
    ThreeInOneMonth([Row(1, d1, 2), Row(2, d2, 8), Row(3, d3, 10)], d1, d2, d3);
    RatedTwoEightTen([Row(1, d1, 2), Row(2, d2, 8), Row(3, d3, 10)]);
  }

  /** The monthly half of ThreeWatchesOneMonth, for any rows holding the three dates. */
  lemma ThreeInOneMonth(rows: seq<Entry>, d1: Date, d2: Date, d3: Date)
    requires ValidDate(d1) && ValidDate(d2) && ValidDate(d3)
    requires MonthOf(d1) == MonthOf(d2) == MonthOf(d3)
    requires |rows| == 3
    requires rows[0].watchDate == IsoFormat(d1) && rows[1].watchDate == IsoFormat(d2) && rows[2].watchDate == IsoFormat(d3)
    ensures MonthlyCounts(rows) == Some([MonthCount(MonthOf(d1), 3)])
  {
    ParseIsoFormat(d1);
    ParseIsoFormat(d2);
    ParseIsoFormat(d3);
    assert DatesReadable(rows);
    var m := MonthOf(d1);
    var v := Months(rows).value;
    assert v[0] == m && v[1] == m && v[2] == m;
    assert v == [m, m, m];
    RepeatedMonth(m);
  }

  /** The rating half of ThreeWatchesOneMonth, for any rows rated 2, 8 and 10. */
  lemma RatedTwoEightTen(rows: seq<Entry>)
    requires |rows| == 3 && rows[0].rating == 2 && rows[1].rating == 8 && rows[2].rating == 10
    ensures RatingCounts(rows) == map[OneToThree := 1, SevenToEight := 1, NineToTen := 1]
  {
    assert Groups(rows) == [OneToThree, SevenToEight, NineToTen];
    CountTwoEightTen();
  }

  /** value_counts of the labels of ratings 2, 8 and 10. */
  lemma CountTwoEightTen()
    ensures ValueCounts([OneToThree, SevenToEight, NineToTen])
         == map[OneToThree := 1, SevenToEight := 1, NineToTen := 1]
  {
    var gs := [OneToThree, SevenToEight, NineToTen];
    assert gs[..1] == [OneToThree] && gs[..1][..0] == [];
    assert gs[..2][..1] == gs[..1] && gs[..3][..2] == gs[..2] && gs[..3] == gs;
  }

  /** One, two or three watches all in month m make one group of that size. */
  lemma RepeatedMonth(m: MonthKey)
    ensures GroupByMonth([m]) == [MonthCount(m, 1)]
    ensures GroupByMonth([m, m]) == [MonthCount(m, 2)]
    ensures GroupByMonth([m, m, m]) == [MonthCount(m, 3)]
  {
    assert [m][..0] == [];
    assert [m, m][..1] == [m];
    assert [m, m, m][..2] == [m, m];
  }

  /** A watch logged later but dated in an earlier month still comes first. */
  lemma EarlierMonthFirst(d1: Date, d2: Date)
    requires ValidDate(d1) && ValidDate(d2)
    requires MonthBefore(MonthOf(d2), MonthOf(d1))
    ensures MonthlyCounts([Row(1, d1, 5), Row(2, d2, 5)])
         == Some([MonthCount(MonthOf(d2), 1), MonthCount(MonthOf(d1), 1)])
  {
    var rows := [Row(1, d1, 5), Row(2, d2, 5)];
    ParseIsoFormat(d1);
    ParseIsoFormat(d2);
    assert DatesReadable(rows);
    var ms := [MonthOf(d1), MonthOf(d2)];
    var v := Months(rows).value;
    assert v[0] == ms[0] && v[1] == ms[1];
    assert v == ms;
    assert GroupByMonth([ms[0]]) == [MonthCount(ms[0], 1)] by {
      assert [ms[0]][..0] == [];
    }
    assert ms[..1] == [ms[0]];
    assert GroupByMonth(v) == [MonthCount(ms[1], 1), MonthCount(ms[0], 1)];
  }

  /**
   * Three inserts on a fresh table, all on day d and rated 2, 8 and 10: they
   * get ids 1, 2 and 3, read back in that order, make one month of three
   * watches and one watch in each of "1–3", "7–8" and "9–10".
   */
  method ThreeInserts(d: Date) returns (ids: seq<int>, all: seq<Entry>)
    requires ValidDate(d)
    ensures ids == [1, 2, 3]
    ensures all == [Entry(1, Catalog.Titles[0], IsoFormat(d), 2, ""),
                    Entry(2, Catalog.Titles[1], IsoFormat(d), 8, ""),
                    Entry(3, Catalog.Titles[2], IsoFormat(d), 10, "")]
    ensures MonthlyCounts(all) == Some([MonthCount(MonthOf(d), 3)])
    ensures RatingCounts(all) == map[OneToThree := 1, SevenToEight := 1, NineToTen := 1]
  {
    var log := new WatchLog();
    var a := log.Add(Catalog.Titles[0], d, 2, "");
    assert a == Success(1) && log.rows == [Entry(1, Catalog.Titles[0], IsoFormat(d), 2, "")];
    var b := log.Add(Catalog.Titles[1], d, 8, "");
    assert b == Success(2);
    var c := log.Add(Catalog.Titles[2], d, 10, "");
    assert c == Success(3);
    ids := [a.value, b.value, c.value];
    all := log.All();
    ThreeInOneMonth(all, d, d, d);
    RatedTwoEightTen(all);
  }
}
