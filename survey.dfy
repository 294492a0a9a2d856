/**
 * The survey table: one record per respondent, and the per-occupation
 * counts that every grouped table of the analysis is built from.
 */
module Survey {
  import opened Wrappers
  import opened Sequences

  /**
   * One row of the sleep-health dataset. `sleepDisorder` is the only column
   * the analysis treats as nullable.
   */
  datatype Record = Record(
    occupation: string,
    sleepDisorder: Option<string>,
    bmiCategory: string,
    gender: string,
    age: int,
    stressLevel: int,
    sleepDuration: real,
    qualityOfSleep: int,
    physicalActivity: real)

  /** A categorical column the analysis groups by, next to "Occupation". */
  datatype Dimension = SleepDisorder | BmiCategory | Gender

  /** The value of a categorical column; `None` is a missing value. */
  function CategoryOf(r: Record, d: Dimension): Option<string> {
    match d
    case SleepDisorder => r.sleepDisorder
    case BmiCategory => Some(r.bmiCategory)
    case Gender => Some(r.gender)
  }

  /** A numeric column the analysis averages per occupation. */
  datatype Metric = StressLevel | SleepDuration | QualityOfSleep | PhysicalActivity | Age

  function MetricOf(r: Record, m: Metric): real {
    match m
    case StressLevel => r.stressLevel as real
    case SleepDuration => r.sleepDuration
    case QualityOfSleep => r.qualityOfSleep as real
    case PhysicalActivity => r.physicalActivity
    case Age => r.age as real
  }

  /** The "Occupation" column. */
  function OccupationColumn(rows: seq<Record>): (col: seq<string>)
    ensures |col| == |rows|
    ensures forall k :: 0 <= k < |rows| ==> col[k] == rows[k].occupation
  {
    seq(|rows|, k requires 0 <= k < |rows| => rows[k].occupation)
  }

  /** `value_counts()` of the "Occupation" column, for one occupation. */
  function CountOccupation(rows: seq<Record>, o: string): (n: nat)
    ensures n <= |rows|
  {
    if rows == [] then 0
    else (if rows[0].occupation == o then 1 else 0) + CountOccupation(rows[1..], o)
  }

  /** Rows of occupation `o` whose column `d` is present (what a group-by on both keys sees). */
  function CountPresent(rows: seq<Record>, d: Dimension, o: string): nat {
    if rows == [] then 0
    else
      (if rows[0].occupation == o && CategoryOf(rows[0], d).Some? then 1 else 0)
      + CountPresent(rows[1..], d, o)
  }

  /** Rows of occupation `o` whose column `d` holds `c`: one cell of a group-by size table. */
  function Count(rows: seq<Record>, d: Dimension, o: string, c: string): nat {
    if rows == [] then 0
    else
      (if rows[0].occupation == o && CategoryOf(rows[0], d) == Some(c) then 1 else 0)
      + Count(rows[1..], d, o, c)
  }

  /** Rows of occupation `o` whose column `d` holds one of `cats`. */
  function CountIn(rows: seq<Record>, d: Dimension, o: string, cats: seq<string>): nat {
    if rows == [] then 0
    else
      (if rows[0].occupation == o && CategoryOf(rows[0], d).Some? && CategoryOf(rows[0], d).value in cats
       then 1 else 0)
      + CountIn(rows[1..], d, o, cats)
  }

  /** The cells of one occupation's row of a count table, summed over the columns `cats`. */
  function SumCount(rows: seq<Record>, d: Dimension, o: string, cats: seq<string>): nat {
    if cats == [] then 0 else Count(rows, d, o, cats[0]) + SumCount(rows, d, o, cats[1..])
  }

  /** The present values of column `d`, in row order. */
  function PresentValues(rows: seq<Record>, d: Dimension): (vs: seq<string>)
    ensures forall c :: c in vs <==> exists k :: 0 <= k < |rows| && CategoryOf(rows[k], d) == Some(c)
  {
    if rows == [] then []
    else
      var rest := PresentValues(rows[1..], d);
      assert forall k :: 0 < k < |rows| ==> rows[k] == rows[1..][k - 1];
      match CategoryOf(rows[0], d)
      case Some(c) => [c] + rest
      case None => rest
  }

  /** The distinct present values of column `d`: the columns of an unstacked count table. */
  function Categories(rows: seq<Record>, d: Dimension): (cats: seq<string>)
    ensures NoDup(cats)
    ensures forall c :: c in cats <==> exists k :: 0 <= k < |rows| && CategoryOf(rows[k], d) == Some(c)
  {
    Unique(PresentValues(rows, d))
  }

  /** Sum of metric `m` over the rows of occupation `o`. */
  function SumMetric(rows: seq<Record>, m: Metric, o: string): real {
    if rows == [] then 0.0
    else (if rows[0].occupation == o then MetricOf(rows[0], m) else 0.0) + SumMetric(rows[1..], m, o)
  }

  // ----- what the counts mean -----

  /** An occupation is counted at least once exactly when some row carries it. */
  lemma {:induction false} CountOccupationPositive(rows: seq<Record>, o: string)
    ensures CountOccupation(rows, o) > 0 <==> exists k :: 0 <= k < |rows| && rows[k].occupation == o
  {
    if rows != [] {
      CountOccupationPositive(rows[1..], o);
      assert forall k :: 0 < k < |rows| ==> rows[k] == rows[1..][k - 1];
      if rows[0].occupation != o && exists k :: 0 <= k < |rows| && rows[k].occupation == o {
        var k :| 0 <= k < |rows| && rows[k].occupation == o;
        assert rows[1..][k - 1].occupation == o;
      }
    }
  }

  /** An occupation has a present value in column `d` exactly when some row of it does. */
  lemma {:induction false} CountPresentPositive(rows: seq<Record>, d: Dimension, o: string)
    ensures CountPresent(rows, d, o) > 0
        <==> exists k :: 0 <= k < |rows| && rows[k].occupation == o && CategoryOf(rows[k], d).Some?
  {
    if rows != [] {
      CountPresentPositive(rows[1..], d, o);
      assert forall k :: 0 < k < |rows| ==> rows[k] == rows[1..][k - 1];
      if !(rows[0].occupation == o && CategoryOf(rows[0], d).Some?)
         && exists k :: 0 <= k < |rows| && rows[k].occupation == o && CategoryOf(rows[k], d).Some? {
        var k :| 0 <= k < |rows| && rows[k].occupation == o && CategoryOf(rows[k], d).Some?;
        assert rows[1..][k - 1] == rows[k];
      }
    }
  }

  /** When column `d` is never missing, the rows counted per occupation are all of its rows. */
  lemma {:induction false} CountPresentWhenNoneMissing(rows: seq<Record>, d: Dimension, o: string)
    requires forall k :: 0 <= k < |rows| ==> CategoryOf(rows[k], d).Some?
    ensures CountPresent(rows, d, o) == CountOccupation(rows, o)
  {
    if rows != [] {
      assert forall k :: 0 < k < |rows| ==> rows[k] == rows[1..][k - 1];
      CountPresentWhenNoneMissing(rows[1..], d, o);
    }
  }

  /** A category that never occurs in column `d` has count 0 for every occupation. */
  lemma {:induction false} CountOfAbsentCategory(rows: seq<Record>, d: Dimension, o: string, c: string)
    requires c !in Categories(rows, d)
    ensures Count(rows, d, o, c) == 0
  {
    if rows != [] {
      assert CategoryOf(rows[0], d) != Some(c);
      assert forall k :: 0 < k < |rows| ==> rows[k] == rows[1..][k - 1];
      CountOfAbsentCategory(rows[1..], d, o, c);
    }
  }

  /** A single category never counts more rows than the group has. */
  lemma {:induction false} CountAtMostPresent(rows: seq<Record>, d: Dimension, o: string, c: string)
    ensures Count(rows, d, o, c) <= CountPresent(rows, d, o)
  {
    if rows != [] {
      CountAtMostPresent(rows[1..], d, o, c);
    }
  }

  /** Counting one more, different, category adds its own count. */
  lemma {:induction false} CountInCons(rows: seq<Record>, d: Dimension, o: string, c: string, cats: seq<string>)
    requires c !in cats
    ensures CountIn(rows, d, o, [c] + cats) == Count(rows, d, o, c) + CountIn(rows, d, o, cats)
  {
    if rows != [] {
      CountInCons(rows[1..], d, o, c, cats);
    }
  }

  /**
   * Summing a row of the count table over distinct columns counts the rows
   * whose category is one of those columns.
   */
  lemma {:induction false} SumCountIsCountIn(rows: seq<Record>, d: Dimension, o: string, cats: seq<string>)
    requires NoDup(cats)
    ensures SumCount(rows, d, o, cats) == CountIn(rows, d, o, cats)
  {
    if cats == [] {
      CountInNone(rows, d, o);
    } else {
      assert cats == [cats[0]] + cats[1..];
      SumCountIsCountIn(rows, d, o, cats[1..]);
      CountInCons(rows, d, o, cats[0], cats[1..]);
    }
  }

  /** No category selected, no row counted. */
  lemma {:induction false} CountInNone(rows: seq<Record>, d: Dimension, o: string)
    ensures CountIn(rows, d, o, []) == 0
  {
    if rows != [] {
      CountInNone(rows[1..], d, o);
    }
  }

  /** Counting by any set of categories never exceeds the group's present rows. */
  lemma {:induction false} CountInAtMostPresent(rows: seq<Record>, d: Dimension, o: string, cats: seq<string>)
    ensures CountIn(rows, d, o, cats) <= CountPresent(rows, d, o)
  {
    if rows != [] {
      CountInAtMostPresent(rows[1..], d, o, cats);
    }
  }

  /** Counting by categories that include every value in the column counts every present row. */
  lemma {:induction false} CountInCovering(rows: seq<Record>, d: Dimension, o: string, cats: seq<string>)
    requires forall k :: 0 <= k < |rows| && CategoryOf(rows[k], d).Some? ==> CategoryOf(rows[k], d).value in cats
    ensures CountIn(rows, d, o, cats) == CountPresent(rows, d, o)
  {
    if rows != [] {
      assert forall k :: 0 < k < |rows| ==> rows[k] == rows[1..][k - 1];
      CountInCovering(rows[1..], d, o, cats);
    }
  }

  /**
   * The row total of a count table (its cells summed over all its columns) is
   * the number of the occupation's rows with a present category.
   */
  lemma RowTotalIsGroupSize(rows: seq<Record>, d: Dimension, o: string)
    ensures SumCount(rows, d, o, Categories(rows, d)) == CountPresent(rows, d, o)
  {
    var cats := Categories(rows, d);
    SumCountIsCountIn(rows, d, o, cats);
    forall k | 0 <= k < |rows| && CategoryOf(rows[k], d).Some?
      ensures CategoryOf(rows[k], d).value in cats
    {
    }
    CountInCovering(rows, d, o, cats);
  }
  // ----- counts only look at the grouping keys -----

  /** Two tables row by row equal in their occupation and in column `d`. */
  ghost predicate AgreeOn(a: seq<Record>, b: seq<Record>, d: Dimension) {
    && |a| == |b|
    && forall k :: 0 <= k < |a| ==> a[k].occupation == b[k].occupation && CategoryOf(a[k], d) == CategoryOf(b[k], d)
  }

  /** Tables that agree on occupation and a column have the same occupation column. */
  lemma AgreeOnOccupations(a: seq<Record>, b: seq<Record>, d: Dimension)
    requires AgreeOn(a, b, d)
    ensures OccupationColumn(a) == OccupationColumn(b)
  {
    assert forall k :: 0 <= k < |a| ==> OccupationColumn(a)[k] == OccupationColumn(b)[k];
  }

  /** `value_counts()` reads the occupation column only. */
  lemma {:induction false} CountOccupationOfColumn(a: seq<Record>, b: seq<Record>, o: string)
    requires OccupationColumn(a) == OccupationColumn(b)
    ensures CountOccupation(a, o) == CountOccupation(b, o)
  {
    if a != [] {
      assert a[0].occupation == OccupationColumn(a)[0] == OccupationColumn(b)[0] == b[0].occupation;
      assert OccupationColumn(a[1..]) == OccupationColumn(a)[1..];
      assert OccupationColumn(b[1..]) == OccupationColumn(b)[1..];
      CountOccupationOfColumn(a[1..], b[1..], o);
    }
  }

  /** Tables that agree on occupation and column `d` have the same counts and categories. */
  lemma {:induction false} AgreeingCounts(a: seq<Record>, b: seq<Record>, d: Dimension)
    requires AgreeOn(a, b, d)
    ensures forall o :: CountOccupation(a, o) == CountOccupation(b, o)
    ensures forall o :: CountPresent(a, d, o) == CountPresent(b, d, o)
    ensures forall o, c :: Count(a, d, o, c) == Count(b, d, o, c)
    ensures PresentValues(a, d) == PresentValues(b, d)
  {
    if a != [] {
      assert AgreeOn(a[1..], b[1..], d);
      AgreeingCounts(a[1..], b[1..], d);
    }
  }
}
