/**
 * The statistics section of the page (app.py:90-118): watches per month and
 * the distribution of ratings over four fixed groups.
 */
module Stats {
  import opened Wrappers
  import opened Dates
  import opened Store

  // ---------------------------------------------------------------------
  // Rating groups (rating_group and value_counts)
  // ---------------------------------------------------------------------

  /** The four labels rating_group can return. */
  datatype Bucket = OneToThree | FourToSix | SevenToEight | NineToTen

  const AllBuckets: seq<Bucket> := [OneToThree, FourToSix, SevenToEight, NineToTen]

  /** The label shown on the pie chart. */
  function Label(b: Bucket): string
  {
    match b
    case OneToThree => "1–3"
    case FourToSix => "4–6"
    case SevenToEight => "7–8"
    case NineToTen => "9–10"
  }

  /** The slider range each label names. */
  function Low(b: Bucket): int
  {
    match b
    case OneToThree => 1
    case FourToSix => 4
    case SevenToEight => 7
    case NineToTen => 9
  }

  function High(b: Bucket): int
  {
    match b
    case OneToThree => 3
    case FourToSix => 6
    case SevenToEight => 8
    case NineToTen => 10
  }

  /**
   * rating_group: total over all integers.  Ratings below 1 fall in the
   * lowest group and ratings above 10 in the highest; nothing is clamped.
   */
  function RatingGroup(r: int): (b: Bucket)
    ensures b == OneToThree <==> r <= 3
    ensures b == FourToSix <==> 4 <= r <= 6
    ensures b == SevenToEight <==> 7 <= r <= 8
    ensures b == NineToTen <==> 9 <= r
  {
    if r <= 3 then OneToThree
    else if r <= 6 then FourToSix
    else if r <= 8 then SevenToEight
    else NineToTen
  }

  /** Different groups carry different labels, so counting by group is counting by label. */
  lemma LabelsDistinct(a: Bucket, b: Bucket)
    requires a != b
    ensures Label(a) != Label(b)
  {
  }

  /** The rating slider of the entry form: 1 to 10, starting at 7. */
  const SliderMin: int := 1
  const SliderMax: int := 10
  const SliderDefault: int := 7

  /**
   * A slider rating lies in the range of exactly one label, and that is the
   * group rating_group gives it; the slider's starting value is in "7–8".
   */
  lemma SliderRatingInOneGroup(r: int)
    requires SliderMin <= r <= SliderMax
    ensures forall b :: Low(b) <= r <= High(b) <==> b == RatingGroup(r)
    ensures RatingGroup(SliderDefault) == SevenToEight
  {
  }

  /** When every stored rating came from the slider, the groups partition the rows by label range. */
  lemma SliderRowsPartitioned(rows: seq<Entry>)
    requires forall i :: 0 <= i < |rows| ==> SliderMin <= rows[i].rating <= SliderMax
    ensures forall i, b :: 0 <= i < |rows| ==> (Low(b) <= rows[i].rating <= High(b) <==> b == Groups(rows)[i])
  {
  }

  /** The group of each row, in row order (the rating_group column). */
  function Groups(rows: seq<Entry>): (g: seq<Bucket>)
    ensures |g| == |rows|
    ensures forall i :: 0 <= i < |rows| ==> g[i] == RatingGroup(rows[i].rating)
  {
    seq(|rows|, i requires 0 <= i < |rows| => RatingGroup(rows[i].rating))
  }

  function Get(m: map<Bucket, nat>, b: Bucket): nat
  {
    if b in m then m[b] else 0
  }

  /**
   * value_counts() of a column of labels: a count per label that occurs;
   * labels that do not occur are absent.
   */
  function ValueCounts(gs: seq<Bucket>): (m: map<Bucket, nat>)
    ensures forall b :: b in m <==> b in gs
    ensures forall b :: b in m ==> m[b] > 0
  {
    if gs == [] then map[]
    else
      var m := ValueCounts(gs[..|gs| - 1]);
      var b := gs[|gs| - 1];
      assert forall c :: c in gs <==> c in gs[..|gs| - 1] || c == b by {
        assert gs == gs[..|gs| - 1] + [b];
      }
      m[b := Get(m, b) + 1]
  }

  /** value_counts() of the rating_group column. */
  function RatingCounts(rows: seq<Entry>): (m: map<Bucket, nat>)
    ensures forall b :: b in m <==> exists i :: 0 <= i < |rows| && RatingGroup(rows[i].rating) == b
    ensures forall b :: b in m ==> m[b] > 0
  {
    var gs := Groups(rows);
    assert forall b :: b in gs <==> exists i :: 0 <= i < |rows| && RatingGroup(rows[i].rating) == b by {
      forall b | b in gs
        ensures exists i :: 0 <= i < |rows| && RatingGroup(rows[i].rating) == b
      {
        var i :| 0 <= i < |gs| && gs[i] == b;
        assert RatingGroup(rows[i].rating) == b;
      }
    }
    ValueCounts(gs)
  }

  /** The sum of the four counts. */
  function Total(m: map<Bucket, nat>): nat
  {
    Get(m, OneToThree) + Get(m, FourToSix) + Get(m, SevenToEight) + Get(m, NineToTen)
  }

  /** Each label present counts exactly the entries of the column that carry it. */
  lemma {:induction false} ValueCountsCorrect(gs: seq<Bucket>)
    ensures forall b :: Get(ValueCounts(gs), b) == multiset(gs)[b]
  {
    if gs != [] {
      var prefix := gs[..|gs| - 1];
      ValueCountsCorrect(prefix);
      assert gs == prefix + [gs[|gs| - 1]];
    }
  }

  /**
   * Each label present counts exactly the rows whose rating maps to it, and
   * a label is present exactly when some row maps to it.
   */
  lemma RatingCountsCorrect(rows: seq<Entry>)
    ensures forall b :: b in RatingCounts(rows) <==> b in multiset(Groups(rows))
    ensures forall b :: Get(RatingCounts(rows), b) == multiset(Groups(rows))[b]
  {
    ValueCountsCorrect(Groups(rows));
  }

  /** The counts add up to the number of entries of the column. */
  lemma {:induction false} ValueCountsSum(gs: seq<Bucket>)
    ensures Total(ValueCounts(gs)) == |gs|
  {
    if gs != [] {
      var m := ValueCounts(gs[..|gs| - 1]);
      ValueCountsSum(gs[..|gs| - 1]);
      var b := gs[|gs| - 1];
      assert ValueCounts(gs) == m[b := Get(m, b) + 1];
      match b
      case OneToThree =>
      case FourToSix =>
      case SevenToEight =>
      case NineToTen =>
    }
  }

  /** The counts add up to the number of rows. */
  lemma RatingCountsSum(rows: seq<Entry>)
    ensures Total(RatingCounts(rows)) == |rows|
  {
    ValueCountsSum(Groups(rows));
  }

  // ---------------------------------------------------------------------
  // Watches per month (to_period("M") and groupby("month").size())
  // ---------------------------------------------------------------------

  /** One bar of the monthly chart. */
  datatype MonthCount = MonthCount(month: MonthKey, count: nat)

  /** Group keys in strictly increasing chronological order. */
  predicate Chronological(groups: seq<MonthCount>)
  {
    forall i, j :: 0 <= i < j < |groups| ==> MonthBefore(groups[i].month, groups[j].month)
  }

  /** The count of month k in a grouping, 0 when k is not a group. */
  function CountOf(groups: seq<MonthCount>, k: MonthKey): nat
  {
    if groups == [] then 0
    else if groups[0].month == k then groups[0].count
    else CountOf(groups[1..], k)
  }

  function Sum(groups: seq<MonthCount>): nat
  {
    if groups == [] then 0 else groups[0].count + Sum(groups[1..])
  }

  predicate HasGroup(groups: seq<MonthCount>, k: MonthKey)
  {
    exists i :: 0 <= i < |groups| && groups[i].month == k
  }

  /** Adds one watch in month k to a chronological grouping. */
  function Bump(groups: seq<MonthCount>, k: MonthKey): (r: seq<MonthCount>)
  {
    if groups == [] then [MonthCount(k, 1)]
    else if groups[0].month == k then [MonthCount(k, groups[0].count + 1)] + groups[1..]
    else if MonthBefore(k, groups[0].month) then [MonthCount(k, 1)] + groups
    else [groups[0]] + Bump(groups[1..], k)
  }

  /** Groups a sequence of months: one entry per distinct month, chronological. */
  function GroupByMonth(months: seq<MonthKey>): (groups: seq<MonthCount>)
    ensures Chronological(groups)
    ensures forall i :: 0 <= i < |groups| ==> groups[i].count > 0
  {
    if months == [] then []
    else
      var before := GroupByMonth(months[..|months| - 1]);
      BumpChronological(before, months[|months| - 1]);
      BumpPositive(before, months[|months| - 1]);
      Bump(before, months[|months| - 1])
  }

  /** The month of every row, or None when some date would not parse. */
  function Months(rows: seq<Entry>): (r: Option<seq<MonthKey>>)
    ensures r.Some? ==> |r.value| == |rows|
    ensures r.Some? <==> DatesReadable(rows)
    ensures r.Some? ==> forall i :: 0 <= i < |rows| ==> r.value[i] == MonthOf(ParseIso(rows[i].watchDate).value)
  {
    if rows == [] then Some([])
    else
      match Months(rows[..|rows| - 1])
      case None => None
      case Some(ms) =>
        match ParseIso(rows[|rows| - 1].watchDate)
        case None => None
        case Some(d) => Some(ms + [MonthOf(d)])
  }

  /** groupby("month").size() over the rows; None where to_datetime would raise. */
  function MonthlyCounts(rows: seq<Entry>): (r: Option<seq<MonthCount>>)
    ensures r.Some? <==> DatesReadable(rows)
    ensures r.Some? ==> Chronological(r.value)
  {
    match Months(rows)
    case None => None
    case Some(ms) => Some(GroupByMonth(ms))
  }

  lemma {:induction false} BumpChronological(groups: seq<MonthCount>, k: MonthKey)
    requires Chronological(groups)
    ensures Chronological(Bump(groups, k))
    ensures forall i :: 0 <= i < |Bump(groups, k)| ==>
      Bump(groups, k)[i].month == k || HasGroup(groups, Bump(groups, k)[i].month)
  {
    if groups != [] && groups[0].month != k && !MonthBefore(k, groups[0].month) {
      var tail := groups[1..];
      ChronologicalTail(groups);
      BumpChronological(tail, k);
      var r := Bump(groups, k);
      forall i | 0 <= i < |r| ensures r[i].month == k || HasGroup(groups, r[i].month) {
        if i > 0 && r[i].month != k {
          var j :| 0 <= j < |tail| && tail[j].month == r[i].month;
          assert groups[j + 1].month == r[i].month;
        }
      }
      forall i | 1 <= i < |r| ensures MonthBefore(groups[0].month, r[i].month) {
        if r[i].month != k {
          var j :| 0 <= j < |tail| && tail[j].month == r[i].month;
          assert groups[j + 1].month == r[i].month;
        }
      }
    }
  }

  lemma ChronologicalTail(groups: seq<MonthCount>)
    requires Chronological(groups) && groups != []
    ensures Chronological(groups[1..])
  {
  }

  /** A month with a nonzero count is one of the groups. */
  lemma {:induction false} CountOfPositive(groups: seq<MonthCount>, k: MonthKey)
    requires CountOf(groups, k) > 0
    ensures HasGroup(groups, k)
  {
    if groups[0].month != k {
      CountOfPositive(groups[1..], k);
      var j :| 0 <= j < |groups[1..]| && groups[1..][j].month == k;
      assert groups[j + 1].month == k;
    }
  }

  /** A month earlier than a chronological grouping's first month is not in it. */
  lemma {:induction false} CountOfEarlier(groups: seq<MonthCount>, k: MonthKey)
    requires Chronological(groups)
    requires groups != [] && MonthBefore(k, groups[0].month)
    ensures CountOf(groups, k) == 0
  {
    var tail := groups[1..];
    if tail != [] {
      ChronologicalTail(groups);
      assert MonthBefore(groups[0].month, tail[0].month);
      CountOfEarlier(tail, k);
    }
  }

  lemma {:induction false} BumpCounts(groups: seq<MonthCount>, k: MonthKey)
    requires Chronological(groups)
    ensures forall m :: CountOf(Bump(groups, k), m) == CountOf(groups, m) + (if m == k then 1 else 0)
    ensures Sum(Bump(groups, k)) == Sum(groups) + 1
  {
    if groups != [] && groups[0].month != k && !MonthBefore(k, groups[0].month) {
      var tail := groups[1..];
      ChronologicalTail(groups);
      BumpCounts(tail, k);
    } else if groups != [] && groups[0].month != k {
      CountOfEarlier(groups, k);
    }
  }

  lemma {:induction false} BumpPositive(groups: seq<MonthCount>, k: MonthKey)
    requires forall i :: 0 <= i < |groups| ==> groups[i].count > 0
    ensures forall i :: 0 <= i < |Bump(groups, k)| ==> Bump(groups, k)[i].count > 0
  {
    if groups != [] && groups[0].month != k && !MonthBefore(k, groups[0].month) {
      BumpPositive(groups[1..], k);
    }
  }

  /**
   * The monthly grouping is chronological, has no empty group, counts each
   * month exactly as often as it occurs, and its counts add up to the
   * number of watches.
   */
  lemma {:induction false} GroupByMonthCorrect(months: seq<MonthKey>)
    ensures Chronological(GroupByMonth(months))
    ensures forall i :: 0 <= i < |GroupByMonth(months)| ==> GroupByMonth(months)[i].count > 0
    ensures forall m :: CountOf(GroupByMonth(months), m) == multiset(months)[m]
    ensures Sum(GroupByMonth(months)) == |months|
  {
    if months != [] {
      var prefix := months[..|months| - 1];
      var k := months[|months| - 1];
      GroupByMonthCorrect(prefix);
      BumpChronological(GroupByMonth(prefix), k);
      BumpCounts(GroupByMonth(prefix), k);
      BumpPositive(GroupByMonth(prefix), k);
      assert months == prefix + [k];
    }
  }

  /** In a chronological grouping a month that is a group has its count at that group. */
  lemma {:induction false} CountOfAt(groups: seq<MonthCount>, i: nat)
    requires Chronological(groups) && i < |groups|
    ensures CountOf(groups, groups[i].month) == groups[i].count
  {
    if i > 0 {
      var tail := groups[1..];
      ChronologicalTail(groups);
      assert groups[0].month != groups[i].month;
      CountOfAt(tail, i - 1);
    }
  }

  /**
   * groupby("month").size() over stored rows: succeeds, lists each month
   * that has a watch exactly once, in chronological order, with the number
   * of rows whose date falls in it, and the bars add up to the row count.
   */
  lemma MonthlyCountsCorrect(rows: seq<Entry>)
    requires DatesReadable(rows)
    ensures MonthlyCounts(rows).Some?
    ensures Chronological(MonthlyCounts(rows).value)
    ensures Sum(MonthlyCounts(rows).value) == |rows|
    ensures forall i :: 0 <= i < |MonthlyCounts(rows).value| ==>
      MonthlyCounts(rows).value[i].count == multiset(Months(rows).value)[MonthlyCounts(rows).value[i].month] > 0
    ensures forall m :: HasGroup(MonthlyCounts(rows).value, m) <==> m in Months(rows).value
  {
    var ms := Months(rows).value;
    GroupByMonthCorrect(ms);
    var g := GroupByMonth(ms);
    forall i | 0 <= i < |g| ensures g[i].count == multiset(ms)[g[i].month] {
      CountOfAt(g, i);
    }
    forall m ensures HasGroup(g, m) <==> m in ms {
      if m in ms {
        assert m in multiset(ms);
        CountOfPositive(g, m);
      }
    }
  }
}
