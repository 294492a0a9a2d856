/**
 * Grouped tables over the filtered survey: per-occupation counts of a
 * categorical column, their row-normalised percentages, sums of selected
 * percentage columns, the majority gender, and per-occupation means.
 */
module Aggregator {
  import opened Wrappers
  import opened Sequences
  import opened Survey

  /** A table indexed by occupation, with the same named columns in every row. */
  datatype GroupTable<T> = GroupTable(columns: seq<string>, rows: map<string, map<string, T>>)

  /** Every row holds exactly the table's columns. */
  ghost predicate Rectangular<T>(t: GroupTable<T>) {
    forall o, c :: o in t.rows ==> (c in t.rows[o] <==> c in t.columns)
  }

  /** The occupations that have a present value in column `d`: the index of a group-by on both keys. */
  function GroupKeys(rows: seq<Record>, d: Dimension): (keys: set<string>)
    ensures forall o :: o in keys <==> CountPresent(rows, d, o) > 0
  {
    forall o ensures CountPresent(rows, d, o) > 0 ==> exists r :: r in rows && r.occupation == o && CategoryOf(r, d).Some? {
      CountPresentPositive(rows, d, o);
    }
    forall r | r in rows && CategoryOf(r, d).Some? ensures CountPresent(rows, d, r.occupation) > 0 {
      var k :| 0 <= k < |rows| && rows[k] == r;
      CountPresentPositive(rows, d, r.occupation);
    }
    set r | r in rows && CategoryOf(r, d).Some? :: r.occupation
  }

  /** `groupby(["Occupation", column]).size().unstack(fill_value=0)` */
  function CountTable(rows: seq<Record>, d: Dimension): (t: GroupTable<nat>)
    ensures Rectangular(t)
    ensures t.columns == Categories(rows, d)
    ensures t.rows.Keys == GroupKeys(rows, d)
  {
    GroupTable(Categories(rows, d), CountRows(rows, d))
  }

  /** The rows of the count table: one `CountRow` per group. */
  function CountRows(rows: seq<Record>, d: Dimension): (m: map<string, map<string, nat>>)
    ensures m.Keys == GroupKeys(rows, d)
    ensures forall o :: o in m ==> m[o] == CountRow(rows, d, o)
  {
    map o | o in GroupKeys(rows, d) :: CountRow(rows, d, o)
  }

  /** One row of the count table: every category of `d` with the occupation's count. */
  function CountRow(rows: seq<Record>, d: Dimension, o: string): map<string, nat> {
    map c | c in Categories(rows, d) :: Count(rows, d, o, c)
  }

  /** `row.get(c, default)`: the entry of `c`, or `default` where it has none. */
  function Get<T>(row: map<string, T>, c: string, default: T): T {
    if c in row then row[c] else default
  }

  /** A cell, or `default` where the row or the column is absent (`.get(c, 0)`, `fillna(0)`). */
  function CellOr<T>(t: GroupTable<T>, o: string, c: string, default: T): T {
    if c in t.columns && o in t.rows then Get(t.rows[o], c, default) else default
  }

  /** A cell of a count table, read with default 0. */
  function CountCell(t: GroupTable<nat>, o: string, c: string): (v: nat)
    ensures c in t.columns && o in t.rows && c in t.rows[o] ==> v == t.rows[o][c]
    ensures !(c in t.columns && o in t.rows && c in t.rows[o]) ==> v == 0
  {
    CellOr(t, o, c, 0)
  }

  /** A cell of a percentage table, read with default 0. */
  function Cell(t: GroupTable<real>, o: string, c: string): (v: real)
    ensures c in t.columns && o in t.rows && c in t.rows[o] ==> v == t.rows[o][c]
    ensures !(c in t.columns && o in t.rows && c in t.rows[o]) ==> v == 0.0
  {
    CellOr(t, o, c, 0.0)
  }

  /** `row.sum()` over the listed columns. */
  function RowSum(row: map<string, nat>, cols: seq<string>): (s: nat)
    ensures forall c :: c in cols ==> Get(row, c, 0) <= s
    ensures (forall c :: c in cols ==> c !in row) ==> s == 0
  {
    if cols == [] then 0 else Get(row, cols[0], 0) + RowSum(row, cols[1..])
  }

  /** `count / total * 100`; an empty group (pandas: NaN) gives 0. */
  function Share(count: nat, total: nat): (p: real)
    ensures count <= total ==> 0.0 <= p <= 100.0
    ensures total > 0 && count == total ==> p == 100.0
    ensures count == 0 ==> p == 0.0
  {
    if total == 0 then 0.0 else (count as real / total as real) * 100.0
  }

  /** `t.div(t.sum(axis=1), axis=0) * 100`: each row as percentages of its own total. */
  function Normalise(t: GroupTable<nat>): (p: GroupTable<real>)
    ensures p.columns == t.columns && p.rows.Keys == t.rows.Keys
    ensures Rectangular(t) ==> Rectangular(p)
  {
    GroupTable(t.columns,
      map o | o in t.rows :: map c | c in t.rows[o] :: Share(t.rows[o][c], RowSum(t.rows[o], t.columns)))
  }

  /** The percentage table of column `d` by occupation. */
  function PercentTable(rows: seq<Record>, d: Dimension): (p: GroupTable<real>)
    ensures Rectangular(p)
    ensures p.columns == Categories(rows, d)
    ensures p.rows.Keys == GroupKeys(rows, d)
  {
    Normalise(CountTable(rows, d))
  }

  /** The cells of one row, summed over `cats`. */
  function SumCells(t: GroupTable<real>, o: string, cats: seq<string>): real {
    if cats == [] then 0.0 else Cell(t, o, cats[0]) + SumCells(t, o, cats[1..])
  }

  // ----- counts and percentages -----

  /** Percentages of one total add up like their counts. */
  lemma ShareAdditive(a: nat, b: nat, total: nat)
    ensures Share(a, total) + Share(b, total) == Share(a + b, total)
  {
    if total > 0 {
      var t := total as real;
      assert (a as real / t) + (b as real / t) == (a + b) as real / t;
    }
  }

  /** For a fixed non-empty group, a larger count is a larger percentage. */
  lemma ShareMonotone(a: nat, b: nat, total: nat)
    requires total > 0
    ensures Share(a, total) > Share(b, total) <==> a > b
  {
    var t := total as real;
    if a > b {
      assert a as real / t - b as real / t == (a - b) as real / t;
    } else {
      assert b as real / t - a as real / t == (b - a) as real / t;
    }
  }

  /** A row of the count table sums to the counts of its categories, whatever columns are listed. */
  lemma {:induction false} RowSumOfCountTable(rows: seq<Record>, d: Dimension, o: string, cats: seq<string>)
    requires o in GroupKeys(rows, d)
    ensures RowSum(CountTable(rows, d).rows[o], cats) == SumCount(rows, d, o, cats)
  {
    assert CountTable(rows, d).rows[o] == CountRow(rows, d, o);
    RowSumOfCountRow(rows, d, o, cats);
  }

  /** `RowSumOfCountTable`, stated on the row map itself. */
  lemma {:induction false} RowSumOfCountRow(rows: seq<Record>, d: Dimension, o: string, cats: seq<string>)
    ensures RowSum(CountRow(rows, d, o), cats) == SumCount(rows, d, o, cats)
  {
    if cats != [] {
      RowSumOfCountRow(rows, d, o, cats[1..]);
      CountRowEntry(rows, d, o, cats[0]);
    }
  }

  /** An entry of a count row read with default 0 is the pair's count. */
  lemma CountRowEntry(rows: seq<Record>, d: Dimension, o: string, c: string)
    ensures Get(CountRow(rows, d, o), c, 0) == Count(rows, d, o, c)
  {
    if c !in Categories(rows, d) {
      CountOfAbsentCategory(rows, d, o, c);
    }
  }

  /**
   * Every pair (occupation, category) of the count table counts the matching
   * rows; a pair that never occurs counts 0, also when the category is no column.
   */
  lemma CountTableCells(rows: seq<Record>, d: Dimension, o: string, c: string)
    requires o in GroupKeys(rows, d)
    ensures CountCell(CountTable(rows, d), o, c) == Count(rows, d, o, c)
  {
    if c !in Categories(rows, d) {
      CountOfAbsentCategory(rows, d, o, c);
    }
  }

  /** The row total used by the percentage table is the size of the group. */
  lemma RowTotalOfCountTable(rows: seq<Record>, d: Dimension, o: string)
    requires o in GroupKeys(rows, d)
    ensures RowSum(CountTable(rows, d).rows[o], CountTable(rows, d).columns) == CountPresent(rows, d, o)
    ensures CountPresent(rows, d, o) > 0
  {
    RowSumOfCountTable(rows, d, o, Categories(rows, d));
    RowTotalIsGroupSize(rows, d, o);
  }

  /**
   * Every cell of the percentage table, for any category (a column or not),
   * is the category's share of the occupation's rows; it lies in [0, 100].
   */
  lemma PercentTableCell(rows: seq<Record>, d: Dimension, o: string, c: string)
    requires o in GroupKeys(rows, d)
    ensures Cell(PercentTable(rows, d), o, c) == Share(Count(rows, d, o, c), CountPresent(rows, d, o))
    ensures 0.0 <= Cell(PercentTable(rows, d), o, c) <= 100.0
  {
    var ct := CountTable(rows, d);
    var total := CountPresent(rows, d, o);
    RowTotalOfCountTable(rows, d, o);
    CountAtMostPresent(rows, d, o, c);
    if c in Categories(rows, d) {
      assert ct.rows[o][c] == Count(rows, d, o, c);
      assert PercentTable(rows, d).rows[o][c] == Share(ct.rows[o][c], RowSum(ct.rows[o], ct.columns));
    } else {
      CountOfAbsentCategory(rows, d, o, c);
    }
  }

  /** Every cell of row `o` of `t`, for any category, is that category's share of `total`. */
  ghost predicate RowOfShares(t: GroupTable<real>, rows: seq<Record>, d: Dimension, o: string, total: nat) {
    forall c :: Cell(t, o, c) == Share(Count(rows, d, o, c), total)
  }

  lemma PercentRowIsShares(rows: seq<Record>, d: Dimension, o: string)
    requires o in GroupKeys(rows, d)
    ensures RowOfShares(PercentTable(rows, d), rows, d, o, CountPresent(rows, d, o))
  {
    forall c ensures Cell(PercentTable(rows, d), o, c) == Share(Count(rows, d, o, c), CountPresent(rows, d, o)) {
      PercentTableCell(rows, d, o, c);
    }
  }

  /** Summing a row of shares over some categories gives the share of their total count. */
  lemma {:induction false} SumCellsIsShareOfSum(t: GroupTable<real>, rows: seq<Record>, d: Dimension, o: string, total: nat, cats: seq<string>)
    requires RowOfShares(t, rows, d, o, total)
    ensures SumCells(t, o, cats) == Share(SumCount(rows, d, o, cats), total)
  {
    if cats != [] {
      SumCellsIsShareOfSum(t, rows, d, o, total, cats[1..]);
      ShareAdditive(Count(rows, d, o, cats[0]), SumCount(rows, d, o, cats[1..]), total);
    }
  }

  /**
   * Each occupation's percentages sum to 100 over any list of distinct
   * categories that includes every category present in the data.
   */
  lemma PercentagesSumTo100(rows: seq<Record>, d: Dimension, o: string, cats: seq<string>)
    requires o in GroupKeys(rows, d)
    requires NoDup(cats)
    requires forall c :: c in Categories(rows, d) ==> c in cats
    ensures SumCells(PercentTable(rows, d), o, cats) == 100.0
  {
    PercentRowIsShares(rows, d, o);
    SumCellsIsShareOfSum(PercentTable(rows, d), rows, d, o, CountPresent(rows, d, o), cats);
    SumCountIsCountIn(rows, d, o, cats);
    forall k | 0 <= k < |rows| && CategoryOf(rows[k], d).Some?
      ensures CategoryOf(rows[k], d).value in cats
    {
      assert CategoryOf(rows[k], d).value in Categories(rows, d);
    }
    CountInCovering(rows, d, o, cats);
    RowTotalOfCountTable(rows, d, o);
  }

  lemma SumCellsOfThree(t: GroupTable<real>, o: string, a: string, b: string, c: string)
    ensures SumCells(t, o, [a, b, c]) == Cell(t, o, a) + Cell(t, o, b) + Cell(t, o, c)
  {
    assert [a, b, c][1..] == [b, c] && [b, c][1..] == [c] && [c][1..] == [];
    assert SumCells(t, o, [c]) == Cell(t, o, c);
    assert SumCells(t, o, [b, c]) == Cell(t, o, b) + SumCells(t, o, [c]);
  }

  // ----- combined categories -----

  /**
   * The combined percentage of occupation `o` over the `selected` categories
   * that are columns of `t`, each counted as often as it is selected.
   */
  function SelectedSum(t: GroupTable<real>, o: string, selected: seq<string>): real {
    if selected == [] then 0.0
    else
      var c := selected[|selected| - 1];
      SelectedSum(t, o, selected[..|selected| - 1]) + (if c in t.columns then Cell(t, o, c) else 0.0)
  }

  /** Selecting two categories combines their cells; a category that is no column adds 0. */
  lemma SelectedSumOfTwo(t: GroupTable<real>, o: string, a: string, b: string)
    ensures SelectedSum(t, o, [a, b]) == Cell(t, o, a) + Cell(t, o, b)
  {
    assert [a, b][..1] == [a] && [a][..0] == [];
    assert SelectedSum(t, o, [a]) == if a in t.columns then Cell(t, o, a) else 0.0;
    assert SelectedSum(t, o, [a, b]) == SelectedSum(t, o, [a]) + (if b in t.columns then Cell(t, o, b) else 0.0);
  }

  /** Combining the categories of two selections adds their combined percentages. */
  lemma {:induction false} SelectedSumAdditive(t: GroupTable<real>, o: string, a: seq<string>, b: seq<string>)
    ensures SelectedSum(t, o, a + b) == SelectedSum(t, o, a) + SelectedSum(t, o, b)
  {
    if b == [] {
      assert a + b == a;
    } else {
      var n := |b|;
      assert (a + b)[..|a + b| - 1] == a + b[..n - 1];
      SelectedSumAdditive(t, o, a, b[..n - 1]);
    }
  }

  lemma {:induction false} SumCountSnoc(rows: seq<Record>, d: Dimension, o: string, cats: seq<string>, c: string)
    ensures SumCount(rows, d, o, cats + [c]) == SumCount(rows, d, o, cats) + Count(rows, d, o, c)
  {
    if cats != [] {
      assert (cats + [c])[1..] == cats[1..] + [c];
      SumCountSnoc(rows, d, o, cats[1..], c);
    }
  }

  /**
   * Over a percentage table, the combined percentage of distinct selected
   * categories is the share of the occupation's rows that fall in one of them,
   * and so lies in [0, 100]; it is 0 when nothing is selected.
   */
  lemma {:induction false} SelectedSumIsShareOfSelected(rows: seq<Record>, d: Dimension, o: string, selected: seq<string>)
    requires o in GroupKeys(rows, d)
    requires NoDup(selected)
    ensures SelectedSum(PercentTable(rows, d), o, selected)
         == Share(CountIn(rows, d, o, selected), CountPresent(rows, d, o))
    ensures 0.0 <= SelectedSum(PercentTable(rows, d), o, selected) <= 100.0
  {
    PercentRowIsShares(rows, d, o);
    forall c | c !in PercentTable(rows, d).columns ensures Count(rows, d, o, c) == 0 {
      CountOfAbsentCategory(rows, d, o, c);
    }
    SelectedSumIsShareOfSum(PercentTable(rows, d), rows, d, o, CountPresent(rows, d, o), selected);
    SumCountIsCountIn(rows, d, o, selected);
    CountInAtMostPresent(rows, d, o, selected);
  }

  lemma {:induction false} SelectedSumIsShareOfSum(t: GroupTable<real>, rows: seq<Record>, d: Dimension, o: string, total: nat, selected: seq<string>)
    requires RowOfShares(t, rows, d, o, total)
    requires forall c :: c !in t.columns ==> Count(rows, d, o, c) == 0
    ensures SelectedSum(t, o, selected) == Share(SumCount(rows, d, o, selected), total)
  {
    if selected != [] {
      var n := |selected|;
      var c := selected[n - 1];
      assert selected == selected[..n - 1] + [c];
      SelectedSumIsShareOfSum(t, rows, d, o, total, selected[..n - 1]);
      SumCountSnoc(rows, d, o, selected[..n - 1], c);
      ShareAdditive(SumCount(rows, d, o, selected[..n - 1]), Count(rows, d, o, c), total);
    }
  }

  /**
   * `for category in selected: if category in t.columns: combined += t[category]`,
   * one entry per label.
   */
  method CombineCategories(t: GroupTable<real>, labels: seq<string>, selected: seq<string>)
    returns (combined: seq<real>)
    ensures |combined| == |labels|
    ensures forall i :: 0 <= i < |labels| ==> combined[i] == SelectedSum(t, labels[i], selected)
  {
    combined := seq(|labels|, i => 0.0);
    for n := 0 to |selected|
      invariant |combined| == |labels|
      invariant forall i :: 0 <= i < |labels| ==> combined[i] == SelectedSum(t, labels[i], selected[..n])
    {
      var c := selected[n];
      assert selected[..n + 1][..n] == selected[..n];
      if c in t.columns {
        var before := combined;
        combined := seq(|labels|, i requires 0 <= i < |labels| => before[i] + Cell(t, labels[i], c));
      }
    }
    assert selected[..|selected|] == selected;
  }

  // ----- majority gender -----

  /** The annotation `"{p:.0f}% M"` or `"{p:.0f}% F"`, before formatting. */
  datatype MajorityLabel = MajorityLabel(percent: real, sex: char)

  /**
   * Male wins only with a strictly larger percentage; a tie goes to female.
   * A missing "Male" or "Female" column reads as 0, as `Cell` does.
   */
  function GenderMajority(t: GroupTable<real>, o: string): (tag: MajorityLabel)
    ensures tag.sex == 'M' || tag.sex == 'F'
    ensures tag.sex == 'M' <==> Cell(t, o, "Male") > Cell(t, o, "Female")
    ensures tag.percent == if tag.sex == 'M' then Cell(t, o, "Male") else Cell(t, o, "Female")
    ensures tag.percent >= Cell(t, o, "Male") && tag.percent >= Cell(t, o, "Female")
  {
    var male := Cell(t, o, "Male");
    var female := Cell(t, o, "Female");
    if male > female then MajorityLabel(male, 'M') else MajorityLabel(female, 'F')
  }

  /**
   * On the gender percentage table the majority follows the head counts, and
   * the tag carries the majority's share of the group.
   */
  lemma GenderMajorityByCounts(rows: seq<Record>, o: string)
    requires o in GroupKeys(rows, Gender)
    ensures GenderMajority(PercentTable(rows, Gender), o).sex == 'M'
        <==> Count(rows, Gender, o, "Male") > Count(rows, Gender, o, "Female")
    ensures var male := Count(rows, Gender, o, "Male");
            var female := Count(rows, Gender, o, "Female");
            GenderMajority(PercentTable(rows, Gender), o)
              == if male > female then MajorityLabel(Share(male, CountPresent(rows, Gender, o)), 'M')
                 else MajorityLabel(Share(female, CountPresent(rows, Gender, o)), 'F')
  {
    PercentTableCell(rows, Gender, o, "Male");
    PercentTableCell(rows, Gender, o, "Female");
    RowTotalOfCountTable(rows, Gender, o);
    ShareMonotone(Count(rows, Gender, o, "Male"), Count(rows, Gender, o, "Female"), CountPresent(rows, Gender, o));
  }

  // ----- means -----

  /** `groupby("Occupation")[metric].mean()` for one occupation; `None` is NaN for an absent one. */
  function Mean(rows: seq<Record>, m: Metric, o: string): (r: Option<real>)
    ensures r.Some? <==> CountOccupation(rows, o) > 0
  {
    var n := CountOccupation(rows, o);
    if n == 0 then None else Some(SumMetric(rows, m, o) / n as real)
  }

  /** `.reindex(labels)` of the means. */
  function MeansByLabel(rows: seq<Record>, m: Metric, labels: seq<string>): (means: seq<Option<real>>)
    ensures |means| == |labels|
    ensures forall i :: 0 <= i < |labels| ==> means[i] == Mean(rows, m, labels[i])
  {
    seq(|labels|, i requires 0 <= i < |labels| => Mean(rows, m, labels[i]))
  }

  /** `x` added `n` times. */
  function Times(x: real, n: nat): real {
    if n == 0 then 0.0 else x + Times(x, n - 1)
  }

  lemma {:induction false} TimesIsProduct(x: real, n: nat)
    ensures Times(x, n) == x * n as real
  {
    if n > 0 {
      TimesIsProduct(x, n - 1);
      assert x * n as real == x + x * (n - 1) as real;
    }
  }

  lemma {:induction false} SumMetricBounds(rows: seq<Record>, m: Metric, o: string, lo: real, hi: real)
    requires forall r :: r in rows && r.occupation == o ==> lo <= MetricOf(r, m) <= hi
    ensures Times(lo, CountOccupation(rows, o)) <= SumMetric(rows, m, o) <= Times(hi, CountOccupation(rows, o))
  {
    if rows != [] {
      assert forall r :: r in rows[1..] ==> r in rows;
      SumMetricBounds(rows[1..], m, o, lo, hi);
      if rows[0].occupation == o {
        assert rows[0] in rows;
      }
    }
  }

  lemma QuotientBounds(s: real, n: real, lo: real, hi: real)
    requires n > 0.0 && lo * n <= s <= hi * n
    ensures lo <= s / n <= hi
  {
    assert (s / n) * n == s;
  }

  /** A mean lies between any bounds that hold for every value it averages. */
  lemma MeanWithinBounds(rows: seq<Record>, m: Metric, o: string, lo: real, hi: real)
    requires CountOccupation(rows, o) > 0
    requires forall r :: r in rows && r.occupation == o ==> lo <= MetricOf(r, m) <= hi
    ensures lo <= Mean(rows, m, o).value <= hi
  {
    var k := CountOccupation(rows, o);
    var s := SumMetric(rows, m, o);
    SumMetricBounds(rows, m, o, lo, hi);
    AverageBounds(s, k, lo, hi);
    assert Mean(rows, m, o) == Some(s / k as real);
  }

  /** A sum between `k` copies of `lo` and of `hi`, divided by `k`, lies in [lo, hi]. */
  lemma AverageBounds(s: real, k: nat, lo: real, hi: real)
    requires k > 0
    requires Times(lo, k) <= s <= Times(hi, k)
    ensures lo <= s / k as real <= hi
  {
    TimesIsProduct(lo, k);
    TimesIsProduct(hi, k);
    QuotientBounds(s, k as real, lo, hi);
  }
}
